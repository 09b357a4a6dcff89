/**
 * JSON values, and a reader for the text form that `JSON.stringify` writes without white
 * space (section 25.5.2 of ECMA-262 over the grammar of RFC 8259). It accepts an escape only where that form
 * has one, and a number only in its shortest form.
 */
module JsonReader {
  import opened Prelude
  import opened Text

  /**
   * A JavaScript value as a JSON printer sees it. `Int` is a number printed as a plain
   * integer and `Frac` any other finite number, given by the text it is printed as.
   */
  datatype Json =
    | Undefined
    | Null
    | Bool(b: bool)
    | Int(n: int)
    | Frac(text: string)
    | NonFinite
    | Str(s: string)
    | Arr(items: seq<Json>)
    | Obj(fields: seq<Field>)

  /** One own property of an object, in insertion order. */
  datatype Field = Field(key: string, value: Json)

  /** What was read, and the text behind it. */
  datatype Reading<T> = Reading(value: T, rest: string)

  // ----- Numbers -----

  predicate NumberChar(c: char) {
    IsDigit(c) || c == '-' || c == '+' || c == '.' || c == 'e'
  }

  /** What is printed for a finite number that is not a plain integer. */
  predicate FracText(t: string) {
    && t != "" && (t[0] == '-' || IsDigit(t[0]))
    && (forall i :: 0 <= i < |t| ==> NumberChar(t[i]))
    && exists i :: 0 <= i < |t| && (t[i] == '.' || t[i] == 'e')
  }

  /** Decimal digits without a leading zero, or a zero alone. */
  predicate NatText(t: string) {
    t != "" && AllDigits(t) && (t[0] != '0' || t == "0")
  }

  function NumberOf(t: string): Option<Json> {
    if NatText(t) then Some(Int(Decimal(t)))
    else if t != "" && t[0] == '-' && NatText(t[1..]) && t != "-0" then Some(Int(0 - Decimal(t[1..])))
    else if FracText(t) then Some(Frac(t))
    else None
  }

  /** The longest run of number characters at the start. */
  function NumberPart(s: string): (t: string)
    ensures t <= s
  {
    if s == "" || !NumberChar(s[0]) then "" else [s[0]] + NumberPart(s[1..])
  }

  // ----- Strings -----

  function HexValue(c: char): Option<nat> {
    if '0' <= c <= '9' then Some((c - '0') as int)
    else if 'a' <= c <= 'f' then Some((c - 'a') as int + 10)
    else None
  }

  /** The character that a letter behind a backslash stands for. */
  function ShortEscape(letter: char): Option<char> {
    match letter
    case '"' => Some('\U{0022}')
    case '\\' => Some('\U{005C}')
    case 'b' => Some('\U{0008}')
    case 't' => Some('\U{0009}')
    case 'n' => Some('\U{000A}')
    case 'f' => Some('\U{000C}')
    case 'r' => Some('\U{000D}')
    case _ => None
  }

  predicate HasShortEscape(code: nat) {
    code in {0x08, 0x09, 0x0A, 0x0C, 0x0D, 0x22, 0x5C}
  }

  /** The four digits behind a backslash and `u`, which stand for a control character without a short escape. */
  function LongEscape(s: string): Option<Reading<char>> {
    if |s| < 4 || s[0] != '0' || s[1] != '0' then None
    else
      var hi, lo := HexValue(s[2]), HexValue(s[3]);
      if hi.None? || lo.None? || hi.value * 16 + lo.value >= 0x20 || HasShortEscape(hi.value * 16 + lo.value) then None
      else Some(Reading((hi.value * 16 + lo.value) as char, s[4..]))
  }

  /** One character inside a string. */
  function ReadChar(s: string): (r: Option<Reading<char>>)
    ensures r.Some? ==> |r.value.rest| < |s|
  {
    if s == "" || s[0] < '\U{0020}' then None
    else if s[0] != '\\' then Some(Reading(s[0], s[1..]))
    else if |s| == 1 then None
    else if s[1] == 'u' then LongEscape(s[2..])
    else
      var c := ShortEscape(s[1]);
      if c.None? then None else Some(Reading(c.value, s[2..]))
  }

  /** The rest of a string behind its opening quote. */
  function ReadText(s: string): (r: Option<Reading<string>>)
    ensures r.Some? ==> |r.value.rest| < |s|
    decreases |s|
  {
    if s == "" then None
    else if s[0] == '"' then Some(Reading("", s[1..]))
    else
      var c := ReadChar(s);
      if c.None? then None
      else
        var more := ReadText(c.value.rest);
        if more.None? then None else Some(Reading([c.value.value] + more.value.value, more.value.rest))
  }

  // ----- Values -----

  function ReadJson(s: string): (r: Option<Reading<Json>>)
    ensures r.Some? ==> |r.value.rest| < |s|
    decreases |s|, 0
  {
    if "null" <= s then Some(Reading(Null, s[4..]))
    else if "true" <= s then Some(Reading(Bool(true), s[4..]))
    else if "false" <= s then Some(Reading(Bool(false), s[5..]))
    else if "[]" <= s then Some(Reading(Arr([]), s[2..]))
    else if "{}" <= s then Some(Reading(Obj([]), s[2..]))
    else if "[" <= s then
      var items := ReadItems(s[1..]);
      if items.None? then None else Some(Reading(Arr(items.value.value), items.value.rest))
    else if "{" <= s then
      var fields := ReadFields(s[1..]);
      if fields.None? then None else Some(Reading(Obj(fields.value.value), fields.value.rest))
    else if "\"" <= s then
      var t := ReadText(s[1..]);
      if t.None? then None else Some(Reading(Str(t.value.value), t.value.rest))
    else
      var t := NumberPart(s);
      var n := NumberOf(t);
      if n.None? then None else Some(Reading(n.value, s[|t|..]))
  }

  /** One value or more between commas, up to the closing bracket. */
  function ReadItems(s: string): (r: Option<Reading<seq<Json>>>)
    ensures r.Some? ==> |r.value.rest| < |s|
    decreases |s|, 1
  {
    var v := ReadJson(s);
    if v.None? then None
    else if "]" <= v.value.rest then Some(Reading([v.value.value], v.value.rest[1..]))
    else if "," <= v.value.rest then
      var more := ReadItems(v.value.rest[1..]);
      if more.None? then None else Some(Reading([v.value.value] + more.value.value, more.value.rest))
    else None
  }

  function ReadField(s: string): (r: Option<Reading<Field>>)
    ensures r.Some? ==> |r.value.rest| < |s|
    decreases |s|, 1
  {
    if !("\"" <= s) then None
    else
      var key := ReadText(s[1..]);
      if key.None? || !(":" <= key.value.rest) then None
      else
        var v := ReadJson(key.value.rest[1..]);
        if v.None? then None else Some(Reading(Field(key.value.value, v.value.value), v.value.rest))
  }

  /** One field or more between commas, up to the closing brace. */
  function ReadFields(s: string): (r: Option<Reading<seq<Field>>>)
    ensures r.Some? ==> |r.value.rest| < |s|
    decreases |s|, 2
  {
    var f := ReadField(s);
    if f.None? then None
    else if "}" <= f.value.rest then Some(Reading([f.value.value], f.value.rest[1..]))
    else if "," <= f.value.rest then
      var more := ReadFields(f.value.rest[1..]);
      if more.None? then None else Some(Reading([f.value.value] + more.value.value, more.value.rest))
    else None
  }
}
