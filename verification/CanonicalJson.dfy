/**
 * JSON values and the canonical printer of the audit chain (audit/log.ts). Two values
 * are printed identically exactly when they are equal up to the order of keys, fields
 * without a value, and numbers that JSON cannot express.
 */
module CanonicalJson {
  import opened Prelude
  import opened JsonReader
  import opened Sorting
  import opened Text

  // ----- Scalars -----

  function IntText(n: int): string {
    if n < 0 then "-" + Digits(-n) else Digits(n)
  }

  function HexDigit(n: nat): char
    requires n < 16
  {
    "0123456789abcdef"[n]
  }

  /** One character as it is written inside a JSON string. */
  function Escape(c: char): (s: string)
    ensures s != ""
  {
    if c == '"' then "\\\""
    else if c == '\\' then "\\\\"
    else if c == '\U{0008}' then "\\b"
    else if c == '\U{000C}' then "\\f"
    else if c == '\n' then "\\n"
    else if c == '\r' then "\\r"
    else if c == '\t' then "\\t"
    else if c < ' ' then "\\u00" + [HexDigit(c as int / 16 % 16), HexDigit(c as int % 16)]
    else [c]
  }

  function EscapeAll(s: string): string {
    if s == "" then "" else Escape(s[0]) + EscapeAll(s[1..])
  }

  function Quote(s: string): string {
    "\"" + EscapeAll(s) + "\""
  }

  // ----- The printer -----

  /** A printed field, still carrying its key for the sort. */
  datatype Piece = Piece(key: string, text: string)

  /** The default order of strings when sorting. */
  predicate KeyLe(a: string, b: string) {
    a == "" || (b != "" && (a[0] < b[0] || (a[0] == b[0] && KeyLe(a[1..], b[1..]))))
  }

  predicate PieceLe(a: Piece, b: Piece) {
    KeyLe(a.key, b.key)
  }

  function Texts(ps: seq<Piece>): (r: seq<string>)
    ensures |r| == |ps| && forall i :: 0 <= i < |r| ==> r[i] == ps[i].text
  {
    seq(|ps|, i requires 0 <= i < |ps| => ps[i].text)
  }

  /** The canonical text of a value. */
  function Canon(v: Json): string {
    match v
    case Undefined => ""
    case Null => "null"
    case Bool(b) => if b then "true" else "false"
    case Int(n) => IntText(n)
    case Frac(t) => t
    case NonFinite => "null"
    case Str(s) => Quote(s)
    case Arr(items) => "[" + Join(CanonItems(items), ',') + "]"
    case Obj(fields) => "{" + Join(Texts(Sort(PieceLe, CanonFields(fields))), ',') + "}"
  }

  /** The printed elements; a missing one is printed as null. */
  function CanonItems(items: seq<Json>): seq<string> {
    if items == [] then []
    else [if items[0].Undefined? then "null" else Canon(items[0])] + CanonItems(items[1..])
  }

  /** The printed fields that have a value, in insertion order. */
  function CanonFields(fields: seq<Field>): seq<Piece> {
    if fields == [] then []
    else
      var f := fields[0];
      (if f.value.Undefined? then [] else [Piece(f.key, Quote(f.key) + ":" + Canon(f.value))])
      + CanonFields(fields[1..])
  }

  // ----- Normal forms -----

  predicate FieldLe(a: Field, b: Field) {
    KeyLe(a.key, b.key)
  }

  /** Keys sorted at every depth, fields without a value dropped, gaps and non-finite numbers turned to null. */
  function Norm(v: Json): Json {
    match v
    case NonFinite => Null
    case Arr(items) => Arr(NormItems(items))
    case Obj(fields) => Obj(Sort(FieldLe, NormFields(fields)))
    case _ => v
  }

  function NormItems(items: seq<Json>): (r: seq<Json>)
    ensures |r| == |items|
    ensures forall i :: 0 <= i < |r| ==> r[i] == if items[i].Undefined? then Null else Norm(items[i])
  {
    if items == [] then []
    else [if items[0].Undefined? then Null else Norm(items[0])] + NormItems(items[1..])
  }

  function NormFields(fields: seq<Field>): seq<Field> {
    if fields == [] then []
    else
      var f := fields[0];
      (if f.value.Undefined? then [] else [Field(f.key, Norm(f.value))]) + NormFields(fields[1..])
  }

  /** Printing a value as it stands. */
  function Print(v: Json): string {
    match v
    case Undefined => ""
    case Null => "null"
    case Bool(b) => if b then "true" else "false"
    case Int(n) => IntText(n)
    case Frac(t) => t
    case NonFinite => "null"
    case Str(s) => Quote(s)
    case Arr(items) => "[" + Join(PrintItems(items), ',') + "]"
    case Obj(fields) => "{" + Join(PrintFields(fields), ',') + "}"
  }

  function PrintItems(items: seq<Json>): (r: seq<string>)
    ensures |r| == |items|
  {
    if items == [] then [] else [Print(items[0])] + PrintItems(items[1..])
  }

  function PrintFields(fields: seq<Field>): (r: seq<string>)
    ensures |r| == |fields|
    ensures forall i :: 0 <= i < |r| ==> r[i] == PieceOf(fields[i]).text
  {
    if fields == [] then [] else [Quote(fields[0].key) + ":" + Print(fields[0].value)] + PrintFields(fields[1..])
  }

  function PieceOf(f: Field): Piece {
    Piece(f.key, Quote(f.key) + ":" + Print(f.value))
  }

  function PiecesOf(fields: seq<Field>): (r: seq<Piece>)
    ensures |r| == |fields| && forall i :: 0 <= i < |r| ==> r[i] == PieceOf(fields[i])
  {
    seq(|fields|, i requires 0 <= i < |fields| => PieceOf(fields[i]))
  }

  lemma PiecesOfAppend(a: seq<Field>, b: seq<Field>)
    ensures PiecesOf(a + b) == PiecesOf(a) + PiecesOf(b)
  {
  }

  lemma PiecesOfOne(f: Field)
    ensures PiecesOf([f]) == [PieceOf(f)] && PiecesOf([]) == []
  {
  }

  lemma PiecesStep(f: Field, s: seq<Field>)
    ensures PiecesOf([f] + s) == [PieceOf(f)] + PiecesOf(s)
  {
  }

  lemma {:induction false} PiecesOfInsert(f: Field, s: seq<Field>)
    ensures PiecesOf(Insert(FieldLe, f, s)) == Insert(PieceLe, PieceOf(f), PiecesOf(s))
  {
    hide Insert, PiecesOf, KeyLe;
    if s == [] {
      PiecesOfOne(f);
      InsertNone(FieldLe, f);
      InsertNone(PieceLe, PieceOf(f));
    } else {
      var g, rest := s[0], s[1..];
      assert s == [g] + rest;
      PiecesStep(g, rest);
      InsertStep(FieldLe, f, g, rest);
      InsertStep(PieceLe, PieceOf(f), PieceOf(g), PiecesOf(rest));
      if FieldLe(f, g) {
        PiecesStep(f, s);
      } else {
        PiecesOfInsert(f, rest);
        PiecesStep(g, Insert(FieldLe, f, rest));
      }
    }
  }

  /** Printing the fields and sorting the texts by key is sorting the fields and printing them. */
  lemma {:induction false} PiecesOfSort(s: seq<Field>)
    ensures PiecesOf(Sort(FieldLe, s)) == Sort(PieceLe, PiecesOf(s))
  {
    hide Insert, PieceOf, PiecesOf, FieldLe, PieceLe;
    if s == [] {
      PiecesOfNone();
    } else {
      var f, rest := s[0], s[1..];
      assert s == [f] + rest;
      PiecesStep(f, rest);
      SortStep(FieldLe, f, rest);
      SortStep(PieceLe, PieceOf(f), PiecesOf(rest));
      PiecesOfSort(rest);
      PiecesOfInsert(f, Sort(FieldLe, rest));
    }
  }

  lemma PiecesOfNone()
    ensures PiecesOf([]) == []
  {
  }

  /** The canonical text is the plain text of the normal form. */
  lemma {:induction false} CanonIsPrintNorm(v: Json)
    ensures Canon(v) == Print(Norm(v))
  {
    match v
    case Arr(items) =>
      CanonItemsNorm(items);
    case Obj(fields) =>
      CanonFieldsNorm(fields);
      var normal := NormFields(fields);
      PiecesOfSort(normal);
      assert Texts(PiecesOf(Sort(FieldLe, normal))) == PrintFields(Sort(FieldLe, normal));
    case _ =>
  }

  lemma {:induction false} CanonItemsNorm(items: seq<Json>)
    ensures CanonItems(items) == PrintItems(NormItems(items))
  {
    if items != [] {
      CanonIsPrintNorm(items[0]);
      CanonItemsNorm(items[1..]);
    }
  }

  lemma {:induction false} CanonFieldsNorm(fields: seq<Field>)
    ensures CanonFields(fields) == PiecesOf(NormFields(fields))
  {
    if fields != [] {
      hide Canon, Norm, Print, PiecesOf, Quote;
      var f := fields[0];
      CanonIsPrintNorm(f.value);
      CanonFieldsNorm(fields[1..]);
      PiecesOfAppend(if f.value.Undefined? then [] else [Field(f.key, Norm(f.value))], NormFields(fields[1..]));
      PiecesOfOne(Field(f.key, Norm(f.value)));
    }
  }

  // ----- Unique readability of plain texts -----

  /** Nothing missing or non-finite at any depth, and numbers in their printed form. */
  predicate Printable(v: Json) {
    match v
    case Undefined => false
    case NonFinite => false
    case Frac(t) => FracText(t)
    case Arr(items) => forall i :: 0 <= i < |items| ==> Printable(items[i])
    case Obj(fields) => forall i :: 0 <= i < |fields| ==> Printable(fields[i].value)
    case _ => true
  }

  /** The text ends, or a delimiter follows. */
  predicate Stops(r: string) {
    r == "" || r[0] == ',' || r[0] == ']' || r[0] == '}'
  }

  lemma HexBack(n: nat)
    requires n < 16
    ensures HexValue(HexDigit(n)) == Some(n)
  {
  }

  lemma LongBack(c: char, r: string)
    requires c < ' ' && !HasShortEscape(c as int)
    ensures Escape(c) == "\\u00" + [HexDigit(c as int / 16), HexDigit(c as int % 16)]
    ensures ReadChar(Escape(c) + r) == Some(Reading(c, r))
  {
    hide HexDigit, HexValue;
    var hi, lo := c as int / 16, c as int % 16;
    assert hi % 16 == hi;
    HexBack(hi);
    HexBack(lo);
    var s := Escape(c) + r;
    assert s[2..] == ['0', '0', HexDigit(hi), HexDigit(lo)] + r;
    assert s[2..][4..] == r;
  }

  lemma ShortBack(c: char, r: string)
    requires c >= ' ' || HasShortEscape(c as int)
    ensures ReadChar(Escape(c) + r) == Some(Reading(c, r))
  {
    hide HexDigit, JsonReader.LongEscape;
    var e := Escape(c);
    assert (e + r)[0] == e[0] && (e + r)[|e|..] == r;
    if |e| == 2 {
      assert (e + r)[1] == e[1];
    }
  }

  /** The reader undoes the escape of one character, whatever follows. */
  lemma CharBack(c: char, r: string)
    ensures Escape(c)[0] != '"' && ReadChar(Escape(c) + r) == Some(Reading(c, r))
  {
    hide ReadChar;
    if c < ' ' && !HasShortEscape(c as int) {
      LongBack(c, r);
    } else {
      ShortBack(c, r);
    }
  }

  lemma {:induction false} TextBack(s: string, r: string)
    ensures ReadText(EscapeAll(s) + "\"" + r) == Some(Reading(s, r))
  {
    hide Escape, ReadChar;
    if s == "" {
      assert EscapeAll(s) + "\"" + r == "\"" + r;
    } else {
      var rest := EscapeAll(s[1..]) + "\"" + r;
      assert EscapeAll(s) + "\"" + r == Escape(s[0]) + rest;
      assert (Escape(s[0]) + rest)[0] == Escape(s[0])[0];
      CharBack(s[0], rest);
      TextBack(s[1..], r);
      assert [s[0]] + s[1..] == s;
    }
  }

  lemma QuoteBack(s: string, r: string)
    ensures "\"" <= Quote(s) + r && ReadText((Quote(s) + r)[1..]) == Some(Reading(s, r))
  {
    hide EscapeAll, ReadText;
    assert (Quote(s) + r)[1..] == EscapeAll(s) + "\"" + r;
    TextBack(s, r);
  }

  lemma {:induction false} NumberEnds(t: string, r: string)
    requires (forall i :: 0 <= i < |t| ==> NumberChar(t[i])) && Stops(r)
    ensures NumberPart(t + r) == t
  {
    if t == "" {
      assert t + r == r;
    } else {
      NumberEnds(t[1..], r);
      assert (t + r)[1..] == t[1..] + r;
    }
  }

  lemma DigitsBack(n: nat)
    ensures NatText(Digits(n)) && Decimal(Digits(n)) == n && Digits(n)[0] != '-' && (n > 0 ==> Digits(n) != "0")
  {
    hide Digits, Decimal;
    DecimalOfDigits(n);
  }

  lemma IntBack(n: int)
    ensures NumberOf(IntText(n)) == Some(Int(n))
    ensures forall i :: 0 <= i < |IntText(n)| ==> NumberChar(IntText(n)[i])
  {
    hide Digits, Decimal;
    var d := Digits(if n < 0 then -n else n);
    DigitsBack(if n < 0 then -n else n);
    if n < 0 {
      assert IntText(n)[1..] == d;
    }
  }

  lemma FracBack(t: string)
    requires FracText(t)
    ensures NumberOf(t) == Some(Frac(t))
  {
    var i :| 0 <= i < |t| && (t[i] == '.' || t[i] == 'e');
    assert !IsDigit(t[i]);
    assert i > 0 ==> t[1..][i - 1] == t[i];
  }

  /** A number text followed by a delimiter is read as a number. */
  lemma NumberBack(v: Json, r: string)
    requires (v.Int? || (v.Frac? && FracText(v.text))) && Stops(r)
    ensures ReadJson(Print(v) + r) == Some(Reading(v, r))
  {
    hide IntText, NumberOf, NumberPart, FracText;
    var t := Print(v);
    if v.Int? {
      IntBack(v.n);
    } else {
      FracBack(v.text);
      FracChars(v.text);
    }
    NumberEnds(t, r);
    NumberStart(t);
    assert (t + r)[0] == t[0] && (t + r)[|t|..] == r;
  }

  lemma FracChars(t: string)
    requires FracText(t)
    ensures forall i :: 0 <= i < |t| ==> NumberChar(t[i])
  {
  }

  lemma NumberStart(t: string)
    requires NumberOf(t).Some?
    ensures t != "" && (t[0] == '-' || IsDigit(t[0]))
  {
  }

  /** No printed value begins with a delimiter. */
  lemma PrintStart(v: Json)
    requires Printable(v)
    ensures Print(v) != "" && Print(v)[0] !in {',', ']', '}', ':'}
  {
    hide Digits, EscapeAll, PrintItems, PrintFields, Join;
    if v.Int? {
      IntBack(v.n);
      NumberStart(IntText(v.n));
    }
  }

  /** A list of texts between commas and the bracket that closes it. */
  function Closing(ts: seq<string>, close: char, r: string): string {
    Join(ts, ',') + [close] + r
  }

  /** What follows the first text of a list. */
  function AfterFirst(ts: seq<string>, close: char, r: string): string
    requires ts != []
  {
    if |ts| == 1 then [close] + r else [','] + Closing(ts[1..], close, r)
  }

  lemma ClosingFirst(ts: seq<string>, close: char, r: string)
    requires ts != []
    ensures Closing(ts, close, r) == ts[0] + AfterFirst(ts, close, r)
  {
  }

  lemma OpenBracket(v: Json, r: string)
    ensures v.Arr? ==> Print(v) + r == "[" + Closing(PrintItems(v.items), ']', r)
    ensures v.Obj? ==> Print(v) + r == "{" + Closing(PrintFields(v.fields), '}', r)
  {
    hide PrintItems, PrintFields, Join, Quote, IntText;
  }

  /** The reader undoes the plain printer: it reads the value and stops right behind it. */
  lemma {:induction false} ReadsBack(v: Json, r: string)
    requires Printable(v) && Stops(r)
    ensures ReadJson(Print(v) + r) == Some(Reading(v, r))
    decreases v, 0
  {
    if v.Arr? && v.items != [] {
      ItemsBack(v.items, r);
      ArrayBack(v, r);
    } else if v.Obj? && v.fields != [] {
      FieldsBack(v.fields, r);
      ObjectBack(v, r);
    } else if v.Int? || v.Frac? {
      NumberBack(v, r);
    } else {
      SimpleBack(v, r);
    }
  }

  lemma SimpleBack(v: Json, r: string)
    requires Printable(v) && !v.Int? && !v.Frac? && (v.Arr? ==> v.items == []) && (v.Obj? ==> v.fields == [])
    ensures ReadJson(Print(v) + r) == Some(Reading(v, r))
  {
    hide ReadText, Quote, ReadJson;
    var s := Print(v) + r;
    if v.Str? {
      QuoteBack(v.s, r);
      ReadsString(s);
    } else {
      WordBack(Print(v), r);
    }
  }

  /** The texts that are read as a whole. */
  lemma WordBack(word: string, r: string)
    ensures word == "null" ==> ReadJson(word + r) == Some(Reading(Null, r))
    ensures word == "true" ==> ReadJson(word + r) == Some(Reading(Bool(true), r))
    ensures word == "false" ==> ReadJson(word + r) == Some(Reading(Bool(false), r))
    ensures word == "[]" ==> ReadJson(word + r) == Some(Reading(Arr([]), r))
    ensures word == "{}" ==> ReadJson(word + r) == Some(Reading(Obj([]), r))
  {
    hide ReadText, JsonReader.ReadItems, JsonReader.ReadFields, NumberOf, NumberPart;
    var s := word + r;
    assert word <= s && s[|word|..] == r;
    assert word != "" ==> s[0] == word[0];
  }

  lemma ReadsString(s: string)
    requires "\"" <= s
    ensures ReadText(s[1..]).Some? ==>
              ReadJson(s) == Some(Reading(Str(ReadText(s[1..]).value.value), ReadText(s[1..]).value.rest))
  {
    hide ReadText, JsonReader.ReadItems, JsonReader.ReadFields, NumberOf, NumberPart;
    assert s[0] == '"';
  }

  lemma ReadsList(s: string)
    requires |s| >= 2
    ensures s[0] == '[' && s[1] != ']' && JsonReader.ReadItems(s[1..]).Some? ==>
              var items := JsonReader.ReadItems(s[1..]).value;
              ReadJson(s) == Some(Reading(Arr(items.value), items.rest))
    ensures s[0] == '{' && s[1] != '}' && JsonReader.ReadFields(s[1..]).Some? ==>
              var fields := JsonReader.ReadFields(s[1..]).value;
              ReadJson(s) == Some(Reading(Obj(fields.value), fields.rest))
  {
    hide ReadText, JsonReader.ReadItems, JsonReader.ReadFields, NumberOf, NumberPart;
    assert "[" <= s <==> s[0] == '[';
    assert "{" <= s <==> s[0] == '{';
  }

  lemma ArrayBack(v: Json, r: string)
    requires v.Arr? && v.items != [] && Printable(v.items[0])
    requires JsonReader.ReadItems(Closing(PrintItems(v.items), ']', r)) == Some(Reading(v.items, r))
    ensures ReadJson(Print(v) + r) == Some(Reading(v, r))
  {
    hide Print, Closing, JsonReader.ReadItems, AfterFirst, ReadJson;
    var ts := PrintItems(v.items);
    var s := Print(v) + r;
    OpenBracket(v, r);
    ClosingFirst(ts, ']', r);
    PrintStart(v.items[0]);
    assert s[1] == Print(v.items[0])[0];
    assert s[1..] == Closing(ts, ']', r);
    ReadsList(s);
  }

  lemma ObjectBack(v: Json, r: string)
    requires v.Obj? && v.fields != []
    requires JsonReader.ReadFields(Closing(PrintFields(v.fields), '}', r)) == Some(Reading(v.fields, r))
    ensures ReadJson(Print(v) + r) == Some(Reading(v, r))
  {
    hide Print, Closing, JsonReader.ReadFields, AfterFirst, ReadJson;
    var ts := PrintFields(v.fields);
    var s := Print(v) + r;
    OpenBracket(v, r);
    ClosingFirst(ts, '}', r);
    assert ts[0][0] == '"';
    assert s[1] == '"';
    assert s[1..] == Closing(ts, '}', r);
    ReadsList(s);
  }

  /** What the reader does behind an element of a list: it stops at the bracket or goes on behind a comma. */
  lemma AfterFirstStarts(ts: seq<string>, close: char, r: string)
    requires ts != [] && close in {']', '}'}
    ensures var x := AfterFirst(ts, close, r);
            && Stops(x) && x != ""
            && (|ts| == 1 ==> x[0] == close && x[1..] == r)
            && (|ts| > 1 ==> x[0] == ',' && x[1..] == Closing(ts[1..], close, r))
  {
    hide Closing;
  }

  lemma {:induction false} ItemsBack(items: seq<Json>, r: string)
    requires items != [] && forall i :: 0 <= i < |items| ==> Printable(items[i])
    ensures JsonReader.ReadItems(Closing(PrintItems(items), ']', r)) == Some(Reading(items, r))
    decreases items, 1
  {
    hide Print, Printable, Closing, ReadJson, AfterFirst;
    var ts := PrintItems(items);
    var x := AfterFirst(ts, ']', r);
    ClosingFirst(ts, ']', r);
    AfterFirstStarts(ts, ']', r);
    ReadsBack(items[0], x);
    assert ts[1..] == PrintItems(items[1..]) && [items[0]] + items[1..] == items;
    if |items| == 1 {
      assert "]" <= x && items == [items[0]];
    } else {
      assert "," <= x;
      ItemsBack(items[1..], r);
    }
  }

  lemma FieldBack(f: Field, x: string)
    requires ReadJson(Print(f.value) + x) == Some(Reading(f.value, x))
    ensures ReadField(Quote(f.key) + ":" + Print(f.value) + x) == Some(Reading(f, x))
  {
    hide Print, Quote, ReadJson, ReadText;
    var s, behind := Quote(f.key) + ":" + Print(f.value) + x, ":" + Print(f.value) + x;
    assert s == Quote(f.key) + behind;
    QuoteBack(f.key, behind);
    assert behind[1..] == Print(f.value) + x;
  }

  lemma {:induction false} FieldsBack(fields: seq<Field>, r: string)
    requires fields != [] && forall i :: 0 <= i < |fields| ==> Printable(fields[i].value)
    ensures JsonReader.ReadFields(Closing(PrintFields(fields), '}', r)) == Some(Reading(fields, r))
    decreases fields, 1
  {
    hide Print, Printable, Closing, ReadField, Quote, AfterFirst, ReadJson;
    var ts := PrintFields(fields);
    var x := AfterFirst(ts, '}', r);
    ClosingFirst(ts, '}', r);
    AfterFirstStarts(ts, '}', r);
    ReadsBack(fields[0].value, x);
    FieldBack(fields[0], x);
    assert ts[1..] == PrintFields(fields[1..]) && [fields[0]] + fields[1..] == fields;
    if |fields| == 1 {
      assert "}" <= x && fields == [fields[0]];
    } else {
      assert "," <= x;
      FieldsBack(fields[1..], r);
    }
  }

  /** Equal printable texts come from equal values, and what follows them is equal too. */
  lemma ReadValue(v: Json, r: string, w: Json, q: string)
    requires Printable(v) && Printable(w) && Stops(r) && Stops(q) && Print(v) + r == Print(w) + q
    ensures v == w && r == q
  {
    hide *;
    ReadsBack(v, r);
    ReadsBack(w, q);
  }

  // ----- Equality up to key order and missing fields -----

  /** What JavaScript guarantees: own keys are distinct, and numbers are printed as numbers. */
  predicate Valid(v: Json) {
    match v
    case Frac(t) => FracText(t)
    case Arr(items) => forall i :: 0 <= i < |items| ==> Valid(items[i])
    case Obj(fields) =>
      && (forall i :: 0 <= i < |fields| ==> Valid(fields[i].value))
      && DistinctKeys(fields)
    case _ => true
  }

  predicate DistinctKeys(fields: seq<Field>) {
    forall i, j :: 0 <= i < j < |fields| ==> fields[i].key != fields[j].key
  }

  /** Some field has this key and a value. */
  predicate Has(fields: seq<Field>, key: string) {
    exists i :: 0 <= i < |fields| && fields[i].key == key && !fields[i].value.Undefined?
  }

  predicate NullLike(v: Json) {
    v.Null? || v.NonFinite?
  }

  /** Equal up to the order of keys, fields without a value, gaps in lists and non-finite numbers. */
  ghost predicate Equiv(v: Json, w: Json)
    decreases v, 0
  {
    match v
    case Undefined => w.Undefined?
    case Null => NullLike(w)
    case NonFinite => NullLike(w)
    case Arr(items) =>
      && w.Arr? && |items| == |w.items|
      && forall i :: 0 <= i < |items| ==> EquivItem(items[i], w.items[i])
    case Obj(fields) =>
      && w.Obj?
      && (forall i :: 0 <= i < |fields| && !fields[i].value.Undefined? ==> Has(w.fields, fields[i].key))
      && (forall j :: 0 <= j < |w.fields| && !w.fields[j].value.Undefined? ==> Has(fields, w.fields[j].key))
      && (forall i, j :: 0 <= i < |fields| && 0 <= j < |w.fields| && fields[i].key == w.fields[j].key
            && !fields[i].value.Undefined? && !w.fields[j].value.Undefined?
            ==> Equiv(fields[i].value, w.fields[j].value))
    case _ => v == w
  }

  /** As list elements a missing value and null are the same. */
  ghost predicate EquivItem(v: Json, w: Json)
    decreases v, 1
  {
    if v.Undefined? || w.Undefined? then
      (v.Undefined? || NullLike(v)) && (w.Undefined? || NullLike(w))
    else Equiv(v, w)
  }

  // ----- The key order is total -----

  lemma {:induction false} KeyLeTotal(a: string, b: string)
    ensures KeyLe(a, b) || KeyLe(b, a)
    ensures KeyLe(a, b) && KeyLe(b, a) ==> a == b
  {
    if a != "" && b != "" {
      KeyLeTotal(a[1..], b[1..]);
      assert a == [a[0]] + a[1..] && b == [b[0]] + b[1..];
    }
  }

  lemma {:induction false} KeyLeTransitive(a: string, b: string, c: string)
    requires KeyLe(a, b) && KeyLe(b, c)
    ensures KeyLe(a, c)
  {
    if a != "" && b != "" && c != "" && a[0] == b[0] && b[0] == c[0] {
      KeyLeTransitive(a[1..], b[1..], c[1..]);
    }
  }

  /** A proper prefix, or the smaller character at the first difference. */
  predicate Precedes(a: string, b: string) {
    a < b || exists i :: 0 <= i < |a| && i < |b| && a[..i] == b[..i] && a[i] < b[i]
  }

  /** The key order is the order of texts by their characters. */
  lemma {:induction false} KeyLeExact(a: string, b: string)
    ensures KeyLe(a, b) <==> a == b || Precedes(a, b)
  {
    if a != "" && b != "" && a[0] == b[0] {
      KeyLeExact(a[1..], b[1..]);
      assert a == [a[0]] + a[1..] && b == [b[0]] + b[1..];
      PrecedesBehind(a[0], a[1..], b[1..]);
    } else if a != "" && b != "" {
      DifferAtOnce(a, b);
    }
  }

  lemma PrecedesBehind(c: char, a: string, b: string)
    ensures Precedes([c] + a, [c] + b) <==> Precedes(a, b)
  {
    var x, y := [c] + a, [c] + b;
    assert x[1..] == a && y[1..] == b;
    if i :| 0 <= i < |a| && i < |b| && a[..i] == b[..i] && a[i] < b[i] {
      assert x[..i + 1] == [c] + a[..i] && y[..i + 1] == [c] + b[..i] && x[i + 1] == a[i] && y[i + 1] == b[i];
    }
    if i :| 0 <= i < |x| && i < |y| && x[..i] == y[..i] && x[i] < y[i] {
      assert i > 0 ==> a[..i - 1] == x[..i][1..] && b[..i - 1] == y[..i][1..] && a[i - 1] == x[i] && b[i - 1] == y[i];
    }
  }

  lemma DifferAtOnce(a: string, b: string)
    requires a != "" && b != "" && a[0] != b[0]
    ensures Precedes(a, b) <==> a[0] < b[0]
  {
    if a[0] < b[0] {
      assert a[..0] == b[..0];
    }
    forall i | 0 < i < |a| && i < |b| ensures a[..i] != b[..i] {
      assert a[..i][0] == a[0] && b[..i][0] == b[0];
    }
  }

  lemma FieldOrder()
    ensures TotalPreorder(FieldLe)
  {
    hide KeyLe;
    forall x: Field, y: Field ensures FieldLe(x, y) || FieldLe(y, x) {
      KeyLeTotal(x.key, y.key);
    }
    forall x: Field, y: Field, z: Field | FieldLe(x, y) && FieldLe(y, z) ensures FieldLe(x, z) {
      KeyLeTransitive(x.key, y.key, z.key);
    }
  }

  /** Two key-sorted lists with distinct keys and the same members are the same list. */
  lemma {:induction false} SortedUnique(a: seq<Field>, b: seq<Field>)
    requires Sorted(FieldLe, a) && Sorted(FieldLe, b) && DistinctKeys(a) && DistinctKeys(b)
    requires forall f :: f in a <==> f in b
    ensures a == b
  {
    hide KeyLe;
    if a != [] {
      assert a[0] in a;
    }
    if b != [] {
      assert b[0] in b;
    }
    if a != [] && b != [] {
      var i :| 0 <= i < |b| && b[i] == a[0];
      var j :| 0 <= j < |a| && a[j] == b[0];
      if i > 0 && j > 0 {
        assert FieldLe(b[0], b[i]) && FieldLe(a[0], a[j]);
        KeyLeTotal(a[0].key, b[0].key);
        assert false;
      }
      assert a[0] == b[0];
      forall f ensures f in a[1..] <==> f in b[1..] {
        TailMember(a, f);
        TailMember(b, f);
      }
      SortedUnique(a[1..], b[1..]);
    }
  }

  lemma TailMember(a: seq<Field>, f: Field)
    requires a != [] && DistinctKeys(a)
    ensures f in a[1..] <==> f in a && f != a[0]
  {
    if f in a && f != a[0] {
      var i :| 0 <= i < |a| && a[i] == f;
      assert a[1..][i - 1] == f;
    }
    if f in a[1..] {
      var i :| 0 <= i < |a| - 1 && a[1..][i] == f;
      assert a[i + 1] == f;
    }
  }

  // ----- The printer decides this equality -----

  /** Where a normalised field comes from. */
  lemma {:induction false} NormFieldsMember(fields: seq<Field>, f: Field)
    ensures f in NormFields(fields) <==>
      exists i :: 0 <= i < |fields| && !fields[i].value.Undefined? && f == Field(fields[i].key, Norm(fields[i].value))
  {
    hide Norm;
    if fields != [] {
      NormFieldsMember(fields[1..], f);
      if i :| 0 <= i < |fields| && !fields[i].value.Undefined? && f == Field(fields[i].key, Norm(fields[i].value)) {
        if i > 0 {
          assert fields[1..][i - 1] == fields[i];
        }
      }
      if f in NormFields(fields[1..]) {
        var i :| 0 <= i < |fields| - 1 && !fields[1..][i].value.Undefined?
          && f == Field(fields[1..][i].key, Norm(fields[1..][i].value));
        assert fields[i + 1] == fields[1..][i];
      }
    }
  }

  lemma {:induction false} NormFieldsDistinct(fields: seq<Field>)
    requires DistinctKeys(fields)
    ensures DistinctKeys(NormFields(fields))
  {
    hide Norm;
    if fields != [] {
      var f, rest := fields[0], NormFields(fields[1..]);
      NormFieldsDistinct(fields[1..]);
      forall j | 0 <= j < |rest| ensures rest[j].key != f.key {
        NormFieldsMember(fields[1..], rest[j]);
      }
    }
  }

  lemma SortedNorm(fields: seq<Field>)
    requires DistinctKeys(fields)
    ensures var s := Sort(FieldLe, NormFields(fields));
            Sorted(FieldLe, s) && DistinctKeys(s) && forall f :: f in s <==> f in NormFields(fields)
  {
    hide FieldLe;
    var n := NormFields(fields);
    var s := Sort(FieldLe, n);
    FieldOrder();
    SortSorted(FieldLe, n);
    SortMembers(FieldLe, n);
    NormFieldsDistinct(fields);
    SortDistinct(n);
  }

  lemma {:induction false} InsertDistinct(f: Field, s: seq<Field>)
    requires DistinctKeys(s) && forall i :: 0 <= i < |s| ==> s[i].key != f.key
    ensures DistinctKeys(Insert(FieldLe, f, s))
  {
    hide FieldLe;
    if s != [] && !FieldLe(f, s[0]) {
      var rest := s[1..];
      InsertDistinct(f, rest);
      var r := Insert(FieldLe, f, rest);
      forall j | 0 <= j < |r| ensures r[j].key != s[0].key {
        assert r[j] in multiset(r);
        assert r[j] in rest || r[j] == f;
      }
    }
  }

  lemma {:induction false} SortDistinct(s: seq<Field>)
    requires DistinctKeys(s)
    ensures DistinctKeys(Sort(FieldLe, s))
  {
    hide FieldLe;
    if s != [] {
      var rest, r := s[1..], Sort(FieldLe, s[1..]);
      SortDistinct(rest);
      SortMembers(FieldLe, rest);
      forall j | 0 <= j < |r| ensures r[j].key != s[0].key {
        assert r[j] in r;
      }
      InsertDistinct(s[0], r);
    }
  }

  lemma ObjectsEquiv(a: seq<Field>, b: seq<Field>)
    requires DistinctKeys(a) && DistinctKeys(b)
    requires forall i, j :: 0 <= i < |a| && 0 <= j < |b| ==>
      (Norm(a[i].value) == Norm(b[j].value) <==> Equiv(a[i].value, b[j].value))
    ensures Norm(Obj(a)) == Norm(Obj(b)) <==> Equiv(Obj(a), Obj(b))
  {
    hide Norm, Equiv, Sort, NormFields, FieldLe;
    SortedNorm(a);
    SortedNorm(b);
    NormOfObj(a);
    NormOfObj(b);
    var na, nb := NormFields(a), NormFields(b);
    if Equiv(Obj(a), Obj(b)) {
      forall f ensures f in na <==> f in nb {
        NormFieldsMember(a, f);
        NormFieldsMember(b, f);
        EquivMember(a, b, f);
      }
      SortedUnique(Sort(FieldLe, na), Sort(FieldLe, nb));
    }
    if Norm(Obj(a)) == Norm(Obj(b)) {
      SameMembers(Sort(FieldLe, na), Sort(FieldLe, nb), na, nb);
      MembersEquiv(a, b);
    }
  }

  lemma NormOfObj(a: seq<Field>)
    ensures Norm(Obj(a)) == Obj(Sort(FieldLe, NormFields(a)))
  {
  }

  lemma SameMembers(s: seq<Field>, t: seq<Field>, a: seq<Field>, b: seq<Field>)
    requires s == t && (forall f :: f in s <==> f in a) && (forall f :: f in t <==> f in b)
    ensures forall f :: f in a <==> f in b
  {
  }

  /** A normalised field of one of two equivalent objects belongs to the other. */
  lemma EquivMember(a: seq<Field>, b: seq<Field>, f: Field)
    requires Equiv(Obj(a), Obj(b))
    requires forall i, j :: 0 <= i < |a| && 0 <= j < |b| ==>
      (Norm(a[i].value) == Norm(b[j].value) <==> Equiv(a[i].value, b[j].value))
    ensures (exists i :: 0 <= i < |a| && !a[i].value.Undefined? && f == Field(a[i].key, Norm(a[i].value)))
       <==> (exists j :: 0 <= j < |b| && !b[j].value.Undefined? && f == Field(b[j].key, Norm(b[j].value)))
  {
    hide Norm;
    if i :| 0 <= i < |a| && !a[i].value.Undefined? && f == Field(a[i].key, Norm(a[i].value)) {
      assert Has(b, a[i].key);
      var j :| 0 <= j < |b| && b[j].key == a[i].key && !b[j].value.Undefined?;
      assert Equiv(a[i].value, b[j].value);
    }
    if j :| 0 <= j < |b| && !b[j].value.Undefined? && f == Field(b[j].key, Norm(b[j].value)) {
      assert Has(a, b[j].key);
      var i :| 0 <= i < |a| && a[i].key == b[j].key && !a[i].value.Undefined?;
      assert Equiv(a[i].value, b[j].value);
    }
  }

  lemma MembersEquiv(a: seq<Field>, b: seq<Field>)
    requires DistinctKeys(a) && DistinctKeys(b)
    requires forall f :: f in NormFields(a) <==> f in NormFields(b)
    requires forall i, j :: 0 <= i < |a| && 0 <= j < |b| ==>
      (Norm(a[i].value) == Norm(b[j].value) <==> Equiv(a[i].value, b[j].value))
    ensures Equiv(Obj(a), Obj(b))
  {
    hide Norm, NormFields;
    forall i | 0 <= i < |a| && !a[i].value.Undefined? ensures Has(b, a[i].key) {
      NormFieldsMember(a, Field(a[i].key, Norm(a[i].value)));
      NormFieldsMember(b, Field(a[i].key, Norm(a[i].value)));
    }
    forall j | 0 <= j < |b| && !b[j].value.Undefined? ensures Has(a, b[j].key) {
      NormFieldsMember(a, Field(b[j].key, Norm(b[j].value)));
      NormFieldsMember(b, Field(b[j].key, Norm(b[j].value)));
    }
    forall i, j | 0 <= i < |a| && 0 <= j < |b| && a[i].key == b[j].key
                  && !a[i].value.Undefined? && !b[j].value.Undefined?
      ensures Equiv(a[i].value, b[j].value)
    {
      NormFieldsMember(a, Field(a[i].key, Norm(a[i].value)));
      NormFieldsMember(b, Field(a[i].key, Norm(a[i].value)));
    }
  }

  lemma ItemEquiv(x: Json, y: Json)
    requires !x.Undefined? && !y.Undefined? ==> (Norm(x) == Norm(y) <==> Equiv(x, y))
    ensures (if x.Undefined? then Null else Norm(x)) == (if y.Undefined? then Null else Norm(y)) <==> EquivItem(x, y)
  {
    hide Equiv, Sort, NormFields, NormItems;
  }

  /** Two values have one normal form exactly when they are equivalent. */
  lemma {:induction false} NormExact(v: Json, w: Json)
    requires Valid(v) && Valid(w)
    ensures Norm(v) == Norm(w) <==> Equiv(v, w)
    decreases v
  {
    if v.Arr? && w.Arr? {
      if |v.items| == |w.items| {
        forall i | 0 <= i < |v.items|
          ensures NormItems(v.items)[i] == NormItems(w.items)[i] <==> EquivItem(v.items[i], w.items[i])
        {
          NormExact(v.items[i], w.items[i]);
          ItemEquiv(v.items[i], w.items[i]);
        }
      }
    } else if v.Obj? && w.Obj? {
      forall i, j | 0 <= i < |v.fields| && 0 <= j < |w.fields|
        ensures Norm(v.fields[i].value) == Norm(w.fields[j].value) <==> Equiv(v.fields[i].value, w.fields[j].value)
      {
        NormExact(v.fields[i].value, w.fields[j].value);
      }
      ObjectsEquiv(v.fields, w.fields);
    }
  }

  lemma {:induction false} NormPrintable(v: Json)
    requires Valid(v) && !v.Undefined?
    ensures Printable(Norm(v))
  {
    match v
    case Arr(items) =>
      forall i | 0 <= i < |items| ensures Printable(NormItems(items)[i]) {
        if !items[i].Undefined? {
          NormPrintable(items[i]);
        }
      }
    case Obj(fields) =>
      var s := Sort(FieldLe, NormFields(fields));
      SortMembers(FieldLe, NormFields(fields));
      forall k | 0 <= k < |s| ensures Printable(s[k].value) {
        assert s[k] in s;
        NormFieldsMember(fields, s[k]);
        var i :| 0 <= i < |fields| && !fields[i].value.Undefined? && s[k] == Field(fields[i].key, Norm(fields[i].value));
        NormPrintable(fields[i].value);
      }
    case _ =>
  }

  /** The keys of every object ascend, at every depth. */
  predicate KeysAscend(v: Json) {
    match v
    case Arr(items) => forall i :: 0 <= i < |items| ==> KeysAscend(items[i])
    case Obj(fields) =>
      && (forall i :: 0 <= i < |fields| ==> KeysAscend(fields[i].value))
      && (forall i, j :: 0 <= i < j < |fields| ==> Precedes(fields[i].key, fields[j].key))
    case _ => true
  }

  lemma {:induction false} NormAscends(v: Json)
    requires Valid(v)
    ensures KeysAscend(Norm(v))
  {
    hide Precedes, KeyLe;
    match v
    case Arr(items) =>
      forall i | 0 <= i < |items| ensures KeysAscend(NormItems(items)[i]) {
        NormAscends(items[i]);
      }
    case Obj(fields) =>
      var s := Sort(FieldLe, NormFields(fields));
      SortedNorm(fields);
      forall k | 0 <= k < |s| ensures KeysAscend(s[k].value) {
        assert s[k] in s;
        NormFieldsMember(fields, s[k]);
        var i :| 0 <= i < |fields| && !fields[i].value.Undefined? && s[k] == Field(fields[i].key, Norm(fields[i].value));
        NormAscends(fields[i].value);
      }
      forall i, j | 0 <= i < j < |s| ensures Precedes(s[i].key, s[j].key) {
        assert FieldLe(s[i], s[j]);
        KeyLeExact(s[i].key, s[j].key);
      }
    case _ =>
  }

  /** The normal form is equivalent to the value it comes from. */
  lemma {:induction false} NormEquiv(v: Json)
    requires Valid(v)
    ensures Equiv(v, Norm(v))
  {
    match v
    case Arr(items) =>
      forall i | 0 <= i < |items| ensures EquivItem(items[i], NormItems(items)[i]) {
        NormEquiv(items[i]);
        if !items[i].Undefined? {
          NormPrintable(items[i]);
        }
      }
    case Obj(fields) =>
      forall i | 0 <= i < |fields| ensures Equiv(fields[i].value, Norm(fields[i].value)) {
        NormEquiv(fields[i].value);
      }
      FieldsEquiv(fields);
    case _ =>
  }

  lemma FieldsEquiv(fields: seq<Field>)
    requires Valid(Obj(fields))
    requires forall i :: 0 <= i < |fields| ==> Equiv(fields[i].value, Norm(fields[i].value))
    ensures Equiv(Obj(fields), Norm(Obj(fields)))
  {
    hide Norm, Sort, NormFields, Precedes, FieldLe;
    var s := Sort(FieldLe, NormFields(fields));
    SortedNorm(fields);
    NormOfObj(fields);
    forall i | 0 <= i < |fields| && !fields[i].value.Undefined? ensures Has(s, fields[i].key) {
      var f := Field(fields[i].key, Norm(fields[i].value));
      NormFieldsMember(fields, f);
      NormPrintable(fields[i].value);
      var j :| 0 <= j < |s| && s[j] == f;
    }
    forall j | 0 <= j < |s| ensures exists i :: 0 <= i < |fields| && !fields[i].value.Undefined?
                                                && s[j] == Field(fields[i].key, Norm(fields[i].value))
    {
      assert s[j] in s;
      NormFieldsMember(fields, s[j]);
    }
  }

  /**
   * The canonical text is read back, to its end, as a value equivalent to the one it was
   * printed from, in which nothing is missing and the keys of every object ascend.
   */
  lemma CanonReadsBack(v: Json)
    requires Valid(v) && !v.Undefined?
    ensures ReadJson(Canon(v)) == Some(Reading(Norm(v), ""))
    ensures Equiv(v, Norm(v)) && Printable(Norm(v)) && KeysAscend(Norm(v))
  {
    hide *;
    CanonIsPrintNorm(v);
    NormPrintable(v);
    NormEquiv(v);
    NormAscends(v);
    StopsAtEnd();
    ReadsBack(Norm(v), "");
    assert Print(Norm(v)) + "" == Print(Norm(v));
  }

  /**
   * The canonical text identifies a value exactly: two values are printed the same if
   * and only if they are equal up to key order, missing fields, gaps and non-finite numbers.
   */
  lemma CanonExact(v: Json, w: Json)
    requires Valid(v) && Valid(w) && !v.Undefined? && !w.Undefined?
    ensures Canon(v) == Canon(w) <==> Equiv(v, w)
  {
    hide *;
    CanonReadsBack(v);
    CanonReadsBack(w);
    CanonIsPrintNorm(v);
    CanonIsPrintNorm(w);
    NormExact(v, w);
  }

  lemma StopsAtEnd()
    ensures Stops("")
  {
  }
}
