/** The stdio command splitter of the federation registry (federation/registry.ts). */
module CommandLine {
  predicate IsBlank(c: char) {
    c == ' ' || c == '\t'
  }

  /** The splitter as a machine: the tokens so far, the one being read, and an open escape. */
  function Scan(spec: string, tokens: seq<string>, cur: string, esc: bool): seq<string>
    decreases |spec|
  {
    if spec == "" then (if cur != "" then tokens + [cur] else tokens)
    else if esc then Scan(spec[1..], tokens, cur + [spec[0]], false)
    else if spec[0] == '\\' then Scan(spec[1..], tokens, cur, true)
    else if IsBlank(spec[0]) then
      (if cur != "" then Scan(spec[1..], tokens + [cur], "", false) else Scan(spec[1..], tokens, cur, false))
    else Scan(spec[1..], tokens, cur + [spec[0]], false)
  }

  function Tokens(spec: string): seq<string> {
    Scan(spec, [], "", false)
  }

  method SplitCommand(spec: string) returns (command: string, args: seq<string>)
    ensures command == if Tokens(spec) == [] then "" else Tokens(spec)[0]
    ensures args == if Tokens(spec) == [] then [] else Tokens(spec)[1..]
  {
    var tokens, cur, esc := [], "", false;
    for i := 0 to |spec|
      invariant Scan(spec[i..], tokens, cur, esc) == Tokens(spec)
    {
      var ch := spec[i];
      assert spec[i..][0] == ch && spec[i..][1..] == spec[i + 1..];
      if esc {
        cur := cur + [ch];
        esc := false;
        continue;
      }
      if ch == '\\' {
        esc := true;
        continue;
      }
      if ch == ' ' || ch == '\t' {
        if cur != "" {
          tokens := tokens + [cur];
          cur := "";
        }
        continue;
      }
      cur := cur + [ch];
    }
    if cur != "" {
      tokens := tokens + [cur];
    }
    if tokens == [] {
      return "", [];
    }
    return tokens[0], tokens[1..];
  }

  // ----- Writing a command back -----

  predicate Special(c: char) {
    c == ' ' || c == '\t' || c == '\\'
  }

  function EscapeChar(c: char): string {
    if Special(c) then ['\\', c] else [c]
  }

  function EscapeToken(t: string): string {
    if t == "" then "" else EscapeChar(t[0]) + EscapeToken(t[1..])
  }

  predicate AllBlank(s: string) {
    forall i :: 0 <= i < |s| ==> s[i] == ' ' || s[i] == '\t'
  }

  /** Escaped tokens, each followed by its gap. */
  function Laid(tokens: seq<string>, gaps: seq<string>): string
    requires |gaps| == |tokens|
  {
    if tokens == [] then "" else EscapeToken(tokens[0]) + gaps[0] + Laid(tokens[1..], gaps[1..])
  }

  /** Gaps are blanks, and only the last may be empty. */
  predicate Separated(gaps: seq<string>) {
    forall i :: 0 <= i < |gaps| ==> AllBlank(gaps[i]) && (gaps[i] != "" || i == |gaps| - 1)
  }

  lemma ScanKept(c: char, rest: string, tokens: seq<string>, cur: string)
    ensures Scan(EscapeChar(c) + rest, tokens, cur, false) == Scan(rest, tokens, cur + [c], false)
  {
    var text := EscapeChar(c) + rest;
    if Special(c) {
      assert text[0] == '\\' && text[1..][0] == c && text[1..][1..] == rest;
    } else {
      assert text[0] == c && text[1..] == rest;
    }
  }

  lemma {:induction false} ScanToken(t: string, rest: string, tokens: seq<string>, cur: string)
    ensures Scan(EscapeToken(t) + rest, tokens, cur, false) == Scan(rest, tokens, cur + t, false)
  {
    hide Scan, EscapeChar;
    if t == "" {
      assert EscapeToken(t) + rest == rest && cur + t == cur;
    } else {
      var tail := EscapeToken(t[1..]) + rest;
      assert EscapeToken(t) + rest == EscapeChar(t[0]) + tail;
      ScanKept(t[0], tail, tokens, cur);
      ScanToken(t[1..], rest, tokens, cur + [t[0]]);
      assert cur + [t[0]] + t[1..] == cur + t;
    }
  }

  lemma {:induction false} ScanBlanks(gap: string, rest: string, tokens: seq<string>)
    requires AllBlank(gap)
    ensures Scan(gap + rest, tokens, "", false) == Scan(rest, tokens, "", false)
  {
    if gap == "" {
      assert gap + rest == rest;
    } else {
      assert (gap + rest)[0] == gap[0] && (gap + rest)[1..] == gap[1..] + rest;
      ScanBlanks(gap[1..], rest, tokens);
    }
  }

  lemma ScanGap(gap: string, rest: string, tokens: seq<string>, cur: string)
    requires AllBlank(gap) && cur != "" && (gap != "" || rest == "")
    ensures Scan(gap + rest, tokens, cur, false) == Scan(rest, tokens + [cur], "", false)
  {
    if gap != "" {
      assert (gap + rest)[0] == gap[0] && (gap + rest)[1..] == gap[1..] + rest;
      ScanBlanks(gap[1..], rest, tokens + [cur]);
    }
  }

  lemma {:induction false} ScanLaid(before: seq<string>, tokens: seq<string>, gaps: seq<string>)
    requires |gaps| == |tokens| && Separated(gaps) && forall i :: 0 <= i < |tokens| ==> tokens[i] != ""
    ensures Scan(Laid(tokens, gaps), before, "", false) == before + tokens
    decreases |tokens|
  {
    hide Scan, EscapeToken;
    if tokens == [] {
      ScanNothing(before);
      assert before + tokens == before;
    } else {
      var rest := Laid(tokens[1..], gaps[1..]);
      assert Laid(tokens, gaps) == EscapeToken(tokens[0]) + (gaps[0] + rest);
      ScanToken(tokens[0], gaps[0] + rest, before, "");
      assert "" + tokens[0] == tokens[0];
      ScanGap(gaps[0], rest, before, tokens[0]);
      ScanLaid(before + [tokens[0]], tokens[1..], gaps[1..]);
      assert before + [tokens[0]] + tokens[1..] == before + tokens;
    }
  }

  lemma ScanNothing(tokens: seq<string>)
    ensures Scan("", tokens, "", false) == tokens
  {
  }

  /**
   * Any nonempty tokens come back from their escaped texts, whatever blanks stand before,
   * between and after them.
   */
  lemma SplitUndoesLayout(lead: string, tokens: seq<string>, gaps: seq<string>)
    requires AllBlank(lead) && |gaps| == |tokens| && Separated(gaps)
    requires forall i :: 0 <= i < |tokens| ==> tokens[i] != ""
    ensures Tokens(lead + Laid(tokens, gaps)) == tokens
  {
    hide Scan, Laid, Separated;
    ScanBlanks(lead, Laid(tokens, gaps), []);
    ScanLaid([], tokens, gaps);
    assert [] + tokens == tokens;
  }

  // ----- What every text is read as -----

  /** A character to keep, or a gap between tokens. */
  datatype Unit = Keep(c: char) | Gap

  /** The units of a text; a backslash at the very end stands for nothing. */
  function Lex(spec: string): seq<Unit> {
    if spec == "" then []
    else if spec[0] == '\\' then (if |spec| == 1 then [] else [Keep(spec[1])] + Lex(spec[2..]))
    else [if spec[0] == ' ' || spec[0] == '\t' then Gap else Keep(spec[0])] + Lex(spec[1..])
  }

  /** The maximal runs of kept characters. */
  function Words(units: seq<Unit>): seq<string> {
    if units == [] then []
    else if units[0].Gap? then Words(units[1..])
    else if |units| == 1 || units[1].Gap? then [[units[0].c]] + Words(units[1..])
    else
      var rest := Words(units[1..]);
      if rest == [] then [[units[0].c]] else [[units[0].c] + rest[0]] + rest[1..]
  }

  /** What is left to read continues the token that is open. */
  function Continue(cur: string, units: seq<Unit>): seq<string> {
    if cur == "" then Words(units)
    else if units == [] || units[0].Gap? then [cur] + Words(units)
    else
      var rest := Words(units);
      if rest == [] then [cur] else [cur + rest[0]] + rest[1..]
  }

  lemma WordsOfKept(units: seq<Unit>)
    requires units != [] && units[0].Keep?
    ensures Words(units) != []
  {
  }

  lemma ContinueKept(cur: string, c: char, units: seq<Unit>)
    ensures Continue(cur, [Keep(c)] + units) == Continue(cur + [c], units)
  {
    var all := [Keep(c)] + units;
    assert all[1..] == units;
    if units == [] || units[0].Gap? {
      assert Words(all) == [[c]] + Words(units);
      assert ([[c]] + Words(units))[1..] == Words(units);
    } else {
      WordsOfKept(units);
      var rest := Words(units);
      assert Words(all) == [[c] + rest[0]] + rest[1..] && Words(all)[1..] == rest[1..];
      assert cur + [c] + rest[0] == cur + ([c] + rest[0]);
    }
    assert cur == "" ==> cur + [c] == [c];
  }

  lemma ContinueGap(cur: string, units: seq<Unit>)
    ensures Continue(cur, [Gap] + units) == (if cur != "" then [cur] else []) + Words(units)
  {
    assert ([Gap] + units)[1..] == units;
  }

  lemma {:induction false} ScanIsWords(spec: string, tokens: seq<string>, cur: string)
    ensures Scan(spec, tokens, cur, false) == tokens + Continue(cur, Lex(spec))
    decreases |spec|
  {
    hide Continue, Words;
    if spec == "" {
      ContinueNothing(cur);
    } else if spec[0] == '\\' {
      if |spec| == 1 {
        assert spec[1..] == "";
        ContinueNothing(cur);
      } else {
        assert spec[1..][1..] == spec[2..] && spec[1..][0] == spec[1];
        ContinueKept(cur, spec[1], Lex(spec[2..]));
        ScanIsWords(spec[2..], tokens, cur + [spec[1]]);
      }
    } else if IsBlank(spec[0]) {
      var rest := Lex(spec[1..]);
      ContinueGap(cur, rest);
      ContinueFresh(rest);
      ScanIsWords(spec[1..], if cur != "" then tokens + [cur] else tokens, "");
    } else {
      ContinueKept(cur, spec[0], Lex(spec[1..]));
      ScanIsWords(spec[1..], tokens, cur + [spec[0]]);
    }
  }

  lemma ContinueNothing(cur: string)
    ensures Continue(cur, []) == if cur != "" then [cur] else []
  {
  }

  lemma ContinueFresh(units: seq<Unit>)
    ensures Continue("", units) == Words(units)
  {
  }

  /** The splitter is a lexer followed by cutting at the gaps; no token is ever empty. */
  lemma SplitIsWords(spec: string)
    ensures Tokens(spec) == Words(Lex(spec))
    ensures forall i :: 0 <= i < |Tokens(spec)| ==> Tokens(spec)[i] != ""
  {
    hide Scan, Words, Lex, Continue;
    ScanIsWords(spec, [], "");
    ContinueFresh(Lex(spec));
    WordsNonempty(Lex(spec));
    assert [] + Words(Lex(spec)) == Words(Lex(spec));
  }

  lemma {:induction false} WordsNonempty(units: seq<Unit>)
    ensures forall i :: 0 <= i < |Words(units)| ==> Words(units)[i] != ""
  {
    if units != [] {
      WordsNonempty(units[1..]);
    }
  }
}

/** Escaping of values in LogQL queries (connectors/loki.ts). */
module LogQL {
  import opened Prelude
  import opened Sorting
  import CanonicalJson

  /** Every occurrence of a character replaced by a text. */
  function ReplaceAll(s: string, c: char, text: string): string {
    if s == "" then "" else (if s[0] == c then text else [s[0]]) + ReplaceAll(s[1..], c, text)
  }

  /** Five passes, the backslash first. */
  function EscapeLogQLValue(value: string): string {
    var s1 := ReplaceAll(value, '\\', "\\\\");
    var s2 := ReplaceAll(s1, '"', "\\\"");
    var s3 := ReplaceAll(s2, '\n', "\\n");
    var s4 := ReplaceAll(s3, '\r', "\\r");
    ReplaceAll(s4, '\t', "\\t")
  }

  /** The letter after the backslash, for a character that has to be escaped. */
  function EscapeLetter(c: char): Option<char> {
    if c == '\\' then Some('\\')
    else if c == '"' then Some('"')
    else if c == '\n' then Some('n')
    else if c == '\r' then Some('r')
    else if c == '\t' then Some('t')
    else None
  }

  function Escaped(c: char): string {
    var letter := EscapeLetter(c);
    if letter.Some? then ['\\', letter.value] else [c]
  }

  function EscapeOnce(value: string): string {
    if value == "" then "" else Escaped(value[0]) + EscapeOnce(value[1..])
  }

  lemma {:induction false} ReplaceAppend(a: string, b: string, c: char, text: string)
    ensures ReplaceAll(a + b, c, text) == ReplaceAll(a, c, text) + ReplaceAll(b, c, text)
  {
    if a == "" {
      assert a + b == b;
    } else {
      assert (a + b)[0] == a[0] && (a + b)[1..] == a[1..] + b;
      ReplaceAppend(a[1..], b, c, text);
    }
  }

  lemma ReplaceShort(s: string, c: char, text: string)
    requires |s| == 1 || |s| == 2
    ensures ReplaceAll(s, c, text)
         == (if s[0] == c then text else [s[0]])
            + (if |s| == 1 then "" else if s[1] == c then text else [s[1]])
  {
    assert s[1..] == if |s| == 1 then "" else [s[1]];
    if |s| == 2 {
      assert s[1..][1..] == "" && s[1..][0] == s[1];
    }
  }

  lemma PassesOnOne(c: char)
    ensures EscapeLogQLValue([c]) == Escaped(c)
  {
    hide ReplaceAll;
    var s1 := ReplaceAll([c], '\\', "\\\\");
    ReplaceShort([c], '\\', "\\\\");
    var s2 := ReplaceAll(s1, '"', "\\\"");
    ReplaceShort(s1, '"', "\\\"");
    var s3 := ReplaceAll(s2, '\n', "\\n");
    ReplaceShort(s2, '\n', "\\n");
    var s4 := ReplaceAll(s3, '\r', "\\r");
    ReplaceShort(s3, '\r', "\\r");
    ReplaceShort(s4, '\t', "\\t");
  }

  lemma PassesAppend(a: string, b: string)
    ensures EscapeLogQLValue(a + b) == EscapeLogQLValue(a) + EscapeLogQLValue(b)
  {
    hide ReplaceAll;
    var a1, b1 := ReplaceAll(a, '\\', "\\\\"), ReplaceAll(b, '\\', "\\\\");
    ReplaceAppend(a, b, '\\', "\\\\");
    var a2, b2 := ReplaceAll(a1, '"', "\\\""), ReplaceAll(b1, '"', "\\\"");
    ReplaceAppend(a1, b1, '"', "\\\"");
    var a3, b3 := ReplaceAll(a2, '\n', "\\n"), ReplaceAll(b2, '\n', "\\n");
    ReplaceAppend(a2, b2, '\n', "\\n");
    ReplaceAppend(a3, b3, '\r', "\\r");
    ReplaceAppend(ReplaceAll(a3, '\r', "\\r"), ReplaceAll(b3, '\r', "\\r"), '\t', "\\t");
  }

  /** The five passes are one pass over the characters. */
  lemma {:induction false} PassesAreOne(value: string)
    ensures EscapeLogQLValue(value) == EscapeOnce(value)
  {
    hide EscapeLogQLValue, Escaped;
    if value == "" {
      PassesOnNone();
    } else {
      assert value == [value[0]] + value[1..];
      PassesAppend([value[0]], value[1..]);
      PassesOnOne(value[0]);
      PassesAreOne(value[1..]);
    }
  }

  lemma PassesOnNone()
    ensures EscapeLogQLValue("") == ""
  {
  }

  // ----- Reading a literal -----

  function Unescape(letter: char): Option<char> {
    if letter == '\\' || letter == '"' then Some(letter)
    else if letter == 'n' then Some('\n')
    else if letter == 'r' then Some('\r')
    else if letter == 't' then Some('\t')
    else None
  }

  datatype Literal = Literal(value: string, rest: string)

  /**
   * Reads from after the opening quote to the closing one. A raw line break or tab, an
   * unknown escape and a missing quote are errors.
   */
  function ReadLiteral(s: string): Option<Literal> {
    if s == "" || s[0] == '\n' || s[0] == '\r' || s[0] == '\t' then None
    else if s[0] == '"' then Some(Literal("", s[1..]))
    else if s[0] == '\\' then
      if |s| == 1 || Unescape(s[1]).None? then None
      else
        var more := ReadLiteral(s[2..]);
        if more.None? then None else Some(Literal([Unescape(s[1]).value] + more.value.value, more.value.rest))
    else
      var more := ReadLiteral(s[1..]);
      if more.None? then None else Some(Literal([s[0]] + more.value.value, more.value.rest))
  }

  lemma ReadEscaped(c: char, s: string)
    ensures ReadLiteral(Escaped(c) + s)
         == match ReadLiteral(s)
            case None => None
            case Some(l) => Some(Literal([c] + l.value, l.rest))
  {
    var text := Escaped(c) + s;
    if EscapeLetter(c).Some? {
      assert text[0] == '\\' && text[1] == EscapeLetter(c).value && text[2..] == s;
      assert Unescape(text[1]) == Some(c);
    } else {
      assert text[0] == c && text[1..] == s;
    }
  }

  /**
   * A literal reads back as the value it was made from and ends exactly at its own closing
   * quote, whatever follows; so nothing in the value can end it early or break the line.
   */
  lemma {:induction false} LiteralRoundTrip(value: string, rest: string)
    ensures ReadLiteral(EscapeLogQLValue(value) + "\"" + rest) == Some(Literal(value, rest))
  {
    hide Escaped, EscapeLogQLValue;
    PassesAreOne(value);
    var text := EscapeOnce(value) + "\"" + rest;
    if value == "" {
      assert text[0] == '"' && text[1..] == rest;
    } else {
      LiteralRoundTrip(value[1..], rest);
      PassesAreOne(value[1..]);
      var tail := EscapeOnce(value[1..]) + "\"" + rest;
      assert text == Escaped(value[0]) + tail;
      ReadEscaped(value[0], tail);
      assert [value[0]] + value[1..] == value;
    }
  }

  /** No raw line break or tab, and a quote only after a backslash. */
  lemma {:induction false} NothingBare(value: string)
    ensures var s := EscapeLogQLValue(value);
            && '\n' !in s && '\r' !in s && '\t' !in s
            && forall i :: 0 <= i < |s| && s[i] == '"' ==> i > 0 && s[i - 1] == '\\'
  {
    hide EscapeLogQLValue;
    PassesAreOne(value);
    if value != "" {
      NothingBare(value[1..]);
      PassesAreOne(value[1..]);
    }
  }

  // ----- Label filters -----

  datatype Label = Label(name: string, value: string)

  function Names(labels: seq<Label>): (r: seq<string>)
    ensures |r| == |labels| && forall i :: 0 <= i < |r| ==> r[i] == labels[i].name
  {
    seq(|labels|, i requires 0 <= i < |labels| => labels[i].name)
  }

  function ValueOf(labels: seq<Label>, name: string): string {
    if labels == [] then "" else if labels[0].name == name then labels[0].value else ValueOf(labels[1..], name)
  }

  function Filter1(name: string, value: string): string {
    " | " + name + "=\"" + EscapeLogQLValue(value) + "\""
  }

  function Filters(labels: seq<Label>, names: seq<string>): string {
    if names == [] then "" else Filter1(names[0], ValueOf(labels, names[0])) + Filters(labels, names[1..])
  }

  function LogqlLabelFilters(labels: seq<Label>): string {
    Filters(labels, Sort(CanonicalJson.KeyLe, Names(labels)))
  }

  /** The text up to the first `=` and what follows it. */
  function UpToEquals(s: string): (i: nat)
    ensures i <= |s|
    ensures i < |s| ==> s[i] == '='
    ensures '=' !in s[..i]
  {
    if s == "" || s[0] == '=' then 0 else
      var i := UpToEquals(s[1..]);
      assert s[..1 + i] == [s[0]] + s[1..][..i];
      1 + i
  }

  function ReadFilters(s: string): Option<seq<Label>>
    decreases |s|
  {
    if s == "" then Some([])
    else if |s| < 3 || s[..3] != " | " then None
    else
      var i := UpToEquals(s[3..]);
      var t := s[3 + i..];
      if |t| < 2 || t[1] != '"' then None
      else
        var l := ReadLiteral(t[2..]);
        if l.None? then None
        else
          LiteralShrinks(t[2..]);
          var more := ReadFilters(l.value.rest);
          if more.None? then None else Some([Label(s[3..3 + i], l.value.value)] + more.value)
  }

  lemma {:induction false} LiteralShrinks(s: string)
    ensures ReadLiteral(s).Some? ==> |ReadLiteral(s).value.rest| < |s|
    decreases |s|
  {
    if s != "" {
      LiteralShrinks(s[1..]);
      if |s| > 1 {
        LiteralShrinks(s[2..]);
      }
    }
  }

  lemma {:induction false} UpToEqualsOf(name: string, rest: string)
    requires '=' !in name
    ensures UpToEquals(name + "=" + rest) == |name|
  {
    var s := name + "=" + rest;
    if name == "" {
      assert s[0] == '=';
    } else {
      assert s[0] == name[0] && s[1..] == name[1..] + "=" + rest;
      UpToEqualsOf(name[1..], rest);
    }
  }

  lemma ReadFilter1(name: string, value: string, rest: string)
    requires '=' !in name
    ensures ReadFilters(Filter1(name, value) + rest)
         == match ReadFilters(rest)
            case None => None
            case Some(more) => Some([Label(name, value)] + more)
  {
    hide EscapeLogQLValue, ReadLiteral, UpToEquals;
    var literal := EscapeLogQLValue(value) + "\"" + rest;
    var s := Filter1(name, value) + rest;
    assert s == " | " + (name + "=" + ("\"" + literal));
    assert s[..3] == " | " && s[3..] == name + "=" + ("\"" + literal);
    UpToEqualsOf(name, "\"" + literal);
    assert s[3 + |name|..] == "=" + ("\"" + literal) && s[3 + |name|..][2..] == literal;
    assert s[3..3 + |name|] == name;
    LiteralRoundTrip(value, rest);
  }

  /** Each name with its value, in the given order. */
  function Chosen(labels: seq<Label>, names: seq<string>): (r: seq<Label>)
    ensures |r| == |names| && forall i :: 0 <= i < |r| ==> r[i] == Label(names[i], ValueOf(labels, names[i]))
  {
    seq(|names|, i requires 0 <= i < |names| => Label(names[i], ValueOf(labels, names[i])))
  }

  lemma {:induction false} FiltersRead(labels: seq<Label>, names: seq<string>)
    requires forall i :: 0 <= i < |names| ==> '=' !in names[i]
    ensures ReadFilters(Filters(labels, names)) == Some(Chosen(labels, names))
  {
    hide ReadFilters, Filter1, ValueOf;
    if names == [] {
      ReadNoFilters();
    } else {
      FiltersRead(labels, names[1..]);
      ReadFilter1(names[0], ValueOf(labels, names[0]), Filters(labels, names[1..]));
      assert Chosen(labels, names) == [Chosen(labels, names)[0]] + Chosen(labels, names[1..]);
    }
  }

  lemma ReadNoFilters()
    ensures ReadFilters("") == Some([])
  {
  }

  /** For valid label names, the filters read back as the labels, ordered by name. */
  lemma FiltersRoundTrip(labels: seq<Label>)
    requires forall i :: 0 <= i < |labels| ==> '=' !in labels[i].name
    requires forall i, j :: 0 <= i < j < |labels| ==> labels[i].name != labels[j].name
    ensures var read := ReadFilters(LogqlLabelFilters(labels));
            && read.Some?
            && Names(read.value) == Sort(CanonicalJson.KeyLe, Names(labels))
            && forall l :: l in read.value <==> l in labels
  {
    hide ReadFilters, Filters, ValueOf, Sort;
    var names := Sort(CanonicalJson.KeyLe, Names(labels));
    SortMembers(CanonicalJson.KeyLe, Names(labels));
    forall i | 0 <= i < |names| ensures '=' !in names[i] {
      assert names[i] in Names(labels);
    }
    FiltersRead(labels, names);
    var read := Chosen(labels, names);
    assert Names(read) == names;
    forall l ensures l in read <==> l in labels {
      ChosenMembers(labels, names, l);
    }
  }

  lemma ChosenMembers(labels: seq<Label>, names: seq<string>, l: Label)
    requires forall i, j :: 0 <= i < j < |labels| ==> labels[i].name != labels[j].name
    requires forall n :: n in names <==> n in Names(labels)
    ensures l in Chosen(labels, names) <==> l in labels
  {
    hide ValueOf;
    var read := Chosen(labels, names);
    if l in labels {
      var k :| 0 <= k < |labels| && labels[k] == l;
      ValueOfAt(labels, k);
      assert Names(labels)[k] == l.name;
      assert l.name in names;
      var j :| 0 <= j < |names| && names[j] == l.name;
      assert read[j] == l;
    }
    if l in read {
      var j :| 0 <= j < |read| && read[j] == l;
      assert names[j] in Names(labels);
      var k :| 0 <= k < |labels| && Names(labels)[k] == names[j];
      ValueOfAt(labels, k);
      assert labels[k] == l;
    }
  }

  lemma {:induction false} ValueOfAt(labels: seq<Label>, k: nat)
    requires forall i, j :: 0 <= i < j < |labels| ==> labels[i].name != labels[j].name
    requires k < |labels|
    ensures ValueOf(labels, labels[k].name) == labels[k].value
  {
    if k > 0 {
      assert labels[0].name != labels[k].name;
      ValueOfAt(labels[1..], k - 1);
    }
  }
}
