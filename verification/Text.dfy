/** The string operations of JavaScript that the parsers rely on. */
module Text {
  /** White space and line terminators, as removed by `trim`. */
  predicate IsSpace(c: char) {
    || c == ' ' || c == '\t' || c == '\n' || c == '\r' || c == '\U{000B}' || c == '\U{000C}'
    || c == '\U{00A0}' || c == '\U{FEFF}' || c == '\U{1680}' || '\U{2000}' <= c <= '\U{200A}'
    || c == '\U{2028}' || c == '\U{2029}' || c == '\U{202F}' || c == '\U{205F}' || c == '\U{3000}'
  }

  predicate IsDigit(c: char) {
    '0' <= c <= '9'
  }

  /** The decimal number of a digit string. */
  function Decimal(s: string): nat {
    if s == "" then 0
    else
      var c := s[|s| - 1];
      Decimal(s[..|s| - 1]) * 10 + (if IsDigit(c) then (c - '0') as int else 0)
  }

  predicate AllDigits(s: string) {
    forall i :: 0 <= i < |s| ==> IsDigit(s[i])
  }

  /** The shortest decimal text of a number. */
  function Digits(n: nat): (s: string)
    ensures s != "" && forall i :: 0 <= i < |s| ==> '0' <= s[i] <= '9'
  {
    var d := [('0' as int + n % 10) as char];
    if n < 10 then d else Digits(n / 10) + d
  }

  /** Its digits are read as the number, and only zero begins with a zero. */
  lemma {:induction false} DecimalOfDigits(n: nat)
    ensures AllDigits(Digits(n)) && Decimal(Digits(n)) == n && (Digits(n)[0] == '0' <==> n == 0)
    ensures n < 10 <==> |Digits(n)| == 1
  {
    var s := Digits(n);
    var k := |s| - 1;
    if n >= 10 {
      DecimalOfDigits(n / 10);
      assert s[..k] == Digits(n / 10) && s[0] == Digits(n / 10)[0];
    } else {
      assert s[..k] == "";
    }
    assert s[k] - '0' == (n % 10) as char;
  }

  predicate AllSpace(s: string) {
    forall i :: 0 <= i < |s| ==> IsSpace(s[i])
  }

  lemma SpaceBefore(s: string, r: string)
    requires s != "" && IsSpace(s[0]) && |r| < |s|
    requires r == s[1..][|s| - 1 - |r|..] && AllSpace(s[1..][..|s| - 1 - |r|])
    ensures r == s[|s| - |r|..] && AllSpace(s[..|s| - |r|])
  {
    hide IsSpace;
    assert s[..|s| - |r|] == [s[0]] + s[1..][..|s| - 1 - |r|];
  }

  lemma SpaceBehind(s: string, r: string)
    requires s != "" && IsSpace(s[|s| - 1]) && r <= s[..|s| - 1] && AllSpace(s[..|s| - 1][|r|..])
    ensures r <= s && AllSpace(s[|r|..])
  {
    hide IsSpace;
    assert s[|r|..] == s[..|s| - 1][|r|..] + [s[|s| - 1]];
  }

  function TrimStart(s: string): (r: string)
    ensures |r| <= |s| && r == s[|s| - |r|..] && AllSpace(s[..|s| - |r|])
    ensures r == "" || !IsSpace(r[0])
  {
    if s == "" || !IsSpace(s[0]) then s
    else
      var r := TrimStart(s[1..]);
      SpaceBefore(s, r);
      r
  }

  function TrimEnd(s: string): (r: string)
    ensures r <= s && AllSpace(s[|r|..])
    ensures r == "" || !IsSpace(r[|r| - 1])
  {
    if s == "" || !IsSpace(s[|s| - 1]) then s
    else
      var r := TrimEnd(s[..|s| - 1]);
      SpaceBehind(s, r);
      r
  }

  function Trim(s: string): string {
    TrimEnd(TrimStart(s))
  }

  lemma {:induction false} TrimStartPadded(pad: string, s: string)
    requires AllSpace(pad) && (s == "" || !IsSpace(s[0]))
    ensures TrimStart(pad + s) == s
  {
    if pad == "" {
      assert pad + s == s;
    } else {
      assert (pad + s)[1..] == pad[1..] + s;
      TrimStartPadded(pad[1..], s);
    }
  }

  lemma {:induction false} TrimEndPadded(s: string, pad: string)
    requires AllSpace(pad) && (s == "" || !IsSpace(s[|s| - 1]))
    ensures TrimEnd(s + pad) == s
  {
    if pad == "" {
      assert s + pad == s;
    } else {
      assert (s + pad)[..|s + pad| - 1] == s + pad[..|pad| - 1];
      TrimEndPadded(s, pad[..|pad| - 1]);
    }
  }

  /** Padding around a text without outer white space is removed exactly. */
  lemma TrimPadded(pad: string, s: string, pad': string)
    requires AllSpace(pad) && AllSpace(pad')
    requires s != "" && !IsSpace(s[0]) && !IsSpace(s[|s| - 1])
    ensures Trim(pad + s + pad') == s
  {
    assert pad + s + pad' == pad + (s + pad');
    TrimStartPadded(pad, s + pad');
    TrimEndPadded(s, pad');
  }

  function AddFront(c: char, sep: char, rest: seq<string>): seq<string>
    requires |rest| >= 1
  {
    if c == sep then [""] + rest else [[c] + rest[0]] + rest[1..]
  }

  /** The parts between one-character separators. */
  function Split(s: string, sep: char): (parts: seq<string>)
    ensures |parts| >= 1
  {
    if s == "" then [""]
    else
      AddFront(s[0], sep, Split(s[1..], sep))
  }

  /** The parts with a one-character separator between them. */
  function Join(parts: seq<string>, sep: char): string {
    if parts == [] then ""
    else if |parts| == 1 then parts[0]
    else parts[0] + [sep] + Join(parts[1..], sep)
  }

  lemma {:induction false} SplitPlain(s: string, sep: char)
    requires sep !in s
    ensures Split(s, sep) == [s]
  {
    if s != "" {
      SplitPlain(s[1..], sep);
      assert [s[0]] + s[1..] == s;
    }
  }

  lemma {:induction false} SplitAppend(a: string, sep: char, b: string)
    ensures Split(a + [sep] + b, sep) == Split(a, sep) + Split(b, sep)
  {
    var s := a + [sep] + b;
    if a == "" {
      assert s == [sep] + b && s[1..] == b;
    } else {
      var tail := a[1..] + [sep] + b;
      assert s == [a[0]] + tail && s[1..] == tail;
      SplitAppend(a[1..], sep, b);
      Prepend(a[0], sep, Split(a[1..], sep), Split(b, sep));
      assert s[0] == a[0];
    }
  }

  lemma Prepend(c: char, sep: char, rest: seq<string>, more: seq<string>)
    requires |rest| >= 1
    ensures AddFront(c, sep, rest + more) == AddFront(c, sep, rest) + more
  {
    assert (rest + more)[1..] == rest[1..] + more;
  }

  lemma {:induction false} SplitJoin(parts: seq<string>, sep: char)
    requires parts != [] && forall i :: 0 <= i < |parts| ==> sep !in parts[i]
    ensures Split(Join(parts, sep), sep) == parts
  {
    SplitPlain(parts[0], sep);
    if |parts| > 1 {
      SplitJoin(parts[1..], sep);
      SplitAppend(parts[0], sep, Join(parts[1..], sep));
    }
  }

  /** Undoing one step of the split. */
  lemma JoinAddFront(c: char, sep: char, rest: seq<string>)
    requires |rest| >= 1 && forall i :: 0 <= i < |rest| ==> sep !in rest[i]
    ensures var parts := AddFront(c, sep, rest);
            Join(parts, sep) == [c] + Join(rest, sep) && forall i :: 0 <= i < |parts| ==> sep !in parts[i]
  {
    var parts := AddFront(c, sep, rest);
    if c == sep {
      assert parts[1..] == rest;
      assert "" + [sep] + Join(rest, sep) == [c] + Join(rest, sep);
    } else {
      assert parts[1..] == rest[1..];
      if |rest| > 1 {
        var more := Join(rest[1..], sep);
        assert [c] + rest[0] + [sep] + more == [c] + (rest[0] + [sep] + more);
      }
    }
  }

  lemma {:induction false} JoinSplit(s: string, sep: char)
    ensures Join(Split(s, sep), sep) == s
    ensures forall i :: 0 <= i < |Split(s, sep)| ==> sep !in Split(s, sep)[i]
  {
    hide AddFront, Join;
    if s != "" {
      JoinSplit(s[1..], sep);
      JoinAddFront(s[0], sep, Split(s[1..], sep));
      assert s == [s[0]] + s[1..];
    } else {
      JoinOfOne(sep);
    }
  }

  lemma JoinOfOne(sep: char)
    ensures Join([""], sep) == ""
  {
  }

  lemma {:induction false} JoinAppend(a: seq<string>, sep: char, b: seq<string>)
    requires a != [] && b != []
    ensures Join(a + b, sep) == Join(a, sep) + [sep] + Join(b, sep)
  {
    if |a| == 1 {
      assert (a + b)[1..] == b;
    } else {
      assert (a + b)[1..] == a[1..] + b;
      JoinAppend(a[1..], sep, b);
    }
  }
}
