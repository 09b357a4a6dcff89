/**
 * Text forms of IPv4 and IPv6 addresses (enrich/ip-dataset.ts). The parser is proved
 * to accept exactly a grammar that contains every form of section 2.2 of RFC 4291.
 */
module IpText {
  import opened Prelude
  import opened Arithmetic
  import opened Bits
  import opened Text

  // ----- IPv4 -----

  predicate OctetText(p: string) {
    1 <= |p| <= 3 && AllDigits(p) && Decimal(p) <= 255
  }

  predicate QuadText(parts: seq<string>) {
    |parts| == 4 && forall i :: 0 <= i < 4 ==> OctetText(parts[i])
  }

  function QuadValue(parts: seq<string>): (v: nat)
    requires QuadText(parts)
    ensures v < 0x1_0000_0000
  {
    assert forall i :: 0 <= i < 4 ==> OctetText(parts[i]);
    ((Decimal(parts[0]) * 256 + Decimal(parts[1])) * 256 + Decimal(parts[2])) * 256 + Decimal(parts[3])
  }

  function Ipv4Value(ip: string): (r: Option<nat>)
    ensures r.Some? ==> r.value < 0x1_0000_0000
  {
    var parts := Split(Trim(ip), '.');
    if QuadText(parts) then Some(QuadValue(parts)) else None
  }

  method SumOctets(parts: seq<string>) returns (r: Option<nat>)
    requires |parts| == 4
    ensures r == if QuadText(parts) then Some(Fold256(parts)) else None
  {
    var n := 0;
    for i := 0 to |parts|
      invariant forall j :: 0 <= j < i ==> OctetText(parts[j])
      invariant n == Fold256(parts[..i])
    {
      var p := parts[i];
      if !(1 <= |p| <= 3 && AllDigits(p)) {
        return None;
      }
      var o := Decimal(p);
      if o > 255 {
        return None;
      }
      n := n * 256 + o;
      assert parts[..i + 1][..i] == parts[..i];
    }
    assert parts[..|parts|] == parts;
    return Some(n);
  }

  method ParseIpv4(ip: string) returns (r: Option<nat>)
    ensures r == Ipv4Value(ip)
  {
    hide OctetText, Fold256, QuadValue, Split, Trim;
    var parts := Split(Trim(ip), '.');
    if |parts| != 4 {
      return None;
    }
    r := SumOctets(parts);
    if r.Some? {
      QuadIsFold(parts);
      r := Some(r.value % 0x1_0000_0000);
    }
  }

  function Fold256(parts: seq<string>): nat {
    if parts == [] then 0 else Fold256(parts[..|parts| - 1]) * 256 + Decimal(parts[|parts| - 1])
  }

  lemma QuadIsFold(parts: seq<string>)
    requires QuadText(parts)
    ensures Fold256(parts) == QuadValue(parts)
  {
    var a, b, c := parts[..3], parts[..2], parts[..1];
    assert a[..2] == b && b[..1] == c && c[..0] == [];
    assert Fold256(c) == Decimal(parts[0]);
    assert Fold256(b) == Fold256(c) * 256 + Decimal(parts[1]);
    assert Fold256(a) == Fold256(b) * 256 + Decimal(parts[2]);
  }

  /** Any four octet texts between dots, with any outer white space, read as their number. */
  lemma Ipv4RoundTrip(pad: string, parts: seq<string>, pad': string)
    requires AllSpace(pad) && AllSpace(pad') && QuadText(parts)
    ensures Ipv4Value(pad + Join(parts, '.') + pad') == Some(QuadValue(parts))
  {
    var s := Join(parts, '.');
    QuadJoin(parts);
    TrimPadded(pad, s, pad');
    SplitJoin(parts, '.');
  }

  lemma OctetDigits(n: nat)
    requires n < 256
    ensures OctetText(Digits(n)) && Decimal(Digits(n)) == n
  {
    DecimalOfDigits(n);
    assert n >= 10 ==> |Digits(n)| == |Digits(n / 10)| + 1;
    assert n >= 100 ==> |Digits(n / 10)| == |Digits(n / 100)| + 1;
    DecimalOfDigits(n / 10);
    DecimalOfDigits(n / 100);
  }

  /** Dotted decimal: the first of the four octets is the most significant. */
  lemma DottedDecimal(o: seq<nat>, parts: seq<string>)
    requires |o| == |parts| == 4 && forall i :: 0 <= i < 4 ==> o[i] < 256 && parts[i] == Digits(o[i])
    ensures Ipv4Value(Join(parts, '.')) == Some(o[0] * 0x100_0000 + o[1] * 0x1_0000 + o[2] * 0x100 + o[3])
  {
    hide *;
    forall i | 0 <= i < 4 ensures OctetText(parts[i]) && Decimal(parts[i]) == o[i] {
      OctetDigits(o[i]);
    }
    FourOctets(parts, o);
    NoSpace();
    Ipv4RoundTrip("", parts, "");
    assert "" + Join(parts, '.') + "" == Join(parts, '.');
  }

  lemma FourOctets(parts: seq<string>, o: seq<nat>)
    requires |parts| == |o| == 4 && forall i :: 0 <= i < 4 ==> OctetText(parts[i]) && Decimal(parts[i]) == o[i]
    ensures QuadText(parts) && QuadValue(parts) == o[0] * 0x100_0000 + o[1] * 0x1_0000 + o[2] * 0x100 + o[3]
  {
    hide Decimal, OctetText;
  }

  lemma NoSpace()
    ensures AllSpace("")
  {
  }

  lemma QuadJoin(parts: seq<string>)
    requires QuadText(parts)
    ensures var s := Join(parts, '.');
            && s == parts[0] + "." + parts[1] + "." + parts[2] + "." + parts[3]
            && IsDigit(s[0]) && IsDigit(s[|s| - 1]) && '.' in s && ':' !in s
    ensures forall i :: 0 <= i < 4 ==> '.' !in parts[i]
  {
    assert parts == [parts[0], parts[1], parts[2], parts[3]];
    var c := parts[2..];
    assert parts[1..][1..] == c && c[1..] == [parts[3]];
    assert Join(c, '.') == parts[2] + "." + parts[3];
    assert Join(parts[1..], '.') == parts[1] + "." + Join(c, '.');
    var s := Join(parts, '.');
    assert s == parts[0] + "." + Join(parts[1..], '.');
    assert s[0] == parts[0][0] && s[|s| - 1] == parts[3][|parts[3]| - 1];
    assert s[|parts[0]|] == '.';
    forall i | 0 <= i < 4 ensures '.' !in parts[i] && ':' !in parts[i] {
      assert OctetText(parts[i]);
    }
  }

  // ----- Hexadecimal groups -----

  predicate IsHex(c: char) {
    '0' <= c <= '9' || 'a' <= c <= 'f' || 'A' <= c <= 'F'
  }

  function HexDigit(c: char): (n: nat)
    ensures n < 16
  {
    if '0' <= c <= '9' then (c - '0') as int
    else if 'a' <= c <= 'f' then (c - 'a') as int + 10
    else if 'A' <= c <= 'F' then (c - 'A') as int + 10
    else 0
  }

  predicate GroupText(g: string) {
    1 <= |g| <= 4 && forall i :: 0 <= i < |g| ==> IsHex(g[i])
  }

  function GroupValue(g: string): nat {
    if g == "" then 0 else GroupValue(g[..|g| - 1]) * 16 + HexDigit(g[|g| - 1])
  }

  lemma {:induction false} HexBound(g: string)
    ensures GroupValue(g) < Pow2(4 * |g|)
  {
    if g != "" {
      HexBound(g[..|g| - 1]);
      assert Pow2(4) == 16;
      PowAdd(4, 4 * (|g| - 1));
    }
  }

  lemma GroupBound(g: string)
    requires GroupText(g)
    ensures GroupValue(g) < 0x1_0000
  {
    HexBound(g);
    PowGrows(4 * |g|, 16);
    Pow16();
  }

  const HEX_DIGITS: string := "0123456789abcdef"

  /** A number in hexadecimal. */
  function Hex(n: nat): string {
    if n < 16 then [HEX_DIGITS[n]] else Hex(n / 16) + [HEX_DIGITS[n % 16]]
  }

  lemma {:induction false} HexRoundTrip(n: nat, digits: nat)
    requires 1 <= digits <= 4 && n < Pow2(4 * digits)
    ensures 1 <= |Hex(n)| <= digits && (forall i :: 0 <= i < |Hex(n)| ==> IsHex(Hex(n)[i]))
    ensures GroupValue(Hex(n)) == n
  {
    hide Pow2, HexDigit, IsHex;
    HexDigitRoundTrip(n % 16);
    var c := HEX_DIGITS[n % 16];
    Drop4Bits(n, digits);
    if n >= 16 {
      HexRoundTrip(n / 16, digits - 1);
      assert Hex(n)[..|Hex(n)| - 1] == Hex(n / 16);
    } else {
      assert [c][..0] == "";
      assert GroupValue([c]) == GroupValue("") * 16 + HexDigit(c);
    }
  }

  lemma Drop4Bits(n: nat, digits: nat)
    requires 1 <= digits <= 4 && n < Pow2(4 * digits)
    ensures n >= 16 ==> digits > 1 && n / 16 < Pow2(4 * (digits - 1))
  {
    PowAdd(4, 4 * (digits - 1));
    assert Pow2(4) == 16 && Pow2(0) == 1;
  }

  lemma HexDigitRoundTrip(d: nat)
    requires d < 16
    ensures IsHex(HEX_DIGITS[d]) && HexDigit(HEX_DIGITS[d]) == d
  {
  }

  function Values(groups: seq<string>): (r: seq<nat>)
    ensures |r| == |groups|
    ensures forall i :: 0 <= i < |r| ==> r[i] == GroupValue(groups[i])
  {
    seq(|groups|, i requires 0 <= i < |groups| => GroupValue(groups[i]))
  }

  predicate AllGroups(groups: seq<string>) {
    forall i :: 0 <= i < |groups| ==> GroupText(groups[i])
  }

  function Zeros(n: nat): (z: seq<nat>)
    ensures |z| == n && forall i :: 0 <= i < n ==> z[i] == 0
  {
    seq(n, i => 0)
  }

  /** The number whose base-65536 digits are `h`. */
  function Horner(h: seq<nat>): nat {
    if h == [] then 0 else Horner(h[..|h| - 1]) * 0x1_0000 + h[|h| - 1]
  }

  predicate Hextets(h: seq<nat>) {
    forall i :: 0 <= i < |h| ==> h[i] < 0x1_0000
  }

  /** Fewer than 2^(16 n) for n groups: below 2^128 for an address. */
  lemma {:induction false} HornerBound(h: seq<nat>)
    requires Hextets(h)
    ensures Horner(h) < Pow2(16 * |h|)
  {
    if h != [] {
      HornerBound(h[..|h| - 1]);
      Pow16();
      PowAdd(16, 16 * (|h| - 1));
    }
  }

  lemma PowZero()
    ensures Pow2(0) == 1
  {
  }

  /** The first group is the most significant one: each is a base-65536 digit of the number. */
  lemma {:induction false} HornerDigit(h: seq<nat>, i: nat)
    requires Hextets(h) && i < |h|
    ensures Horner(h) / Pow2(16 * (|h| - 1 - i)) % 0x1_0000 == h[i]
  {
    hide Pow2;
    var n := |h| - 1;
    assert Horner(h) == 0x1_0000 * Horner(h[..n]) + h[n];
    QuotientUnique(Horner(h), 0x1_0000, Horner(h[..n]), h[n]);
    if i == n {
      PowZero();
    } else {
      HornerDigit(h[..n], i);
      Pow16();
      PowAdd(16, 16 * (n - 1 - i));
      QuotientOfQuotient(Horner(h), 0x1_0000, Pow2(16 * (n - 1 - i)));
      assert 16 * (|h| - 1 - i) == 16 + 16 * (n - 1 - i);
    }
  }

  /** Different addresses are different numbers. */
  lemma {:induction false} HornerInjective(g: seq<nat>, h: seq<nat>)
    requires Hextets(g) && Hextets(h) && |g| == |h| && Horner(g) == Horner(h)
    ensures g == h
  {
    if g != [] {
      var n := |g| - 1;
      assert g[n] < 0x1_0000 && h[n] < 0x1_0000;
      HornerInjective(g[..n], h[..n]);
      assert g == g[..n] + [g[n]] && h == h[..n] + [h[n]];
    }
  }

  // ----- The parser -----

  /** The index of the last colon among the first `n` characters, or -1. */
  function LastColonBelow(s: string, n: nat): (k: int)
    requires n <= |s|
    ensures -1 <= k < n && (k >= 0 ==> s[k] == ':')
    ensures forall i :: k < i < n ==> s[i] != ':'
  {
    if n == 0 then -1 else if s[n - 1] == ':' then n - 1 else LastColonBelow(s, n - 1)
  }

  /** The index of the last colon, or -1. */
  function LastColon(s: string): (k: int)
    ensures -1 <= k < |s|
    ensures k >= 0 ==> s[k] == ':'
    ensures forall i :: k < i < |s| ==> s[i] != ':'
  {
    LastColonBelow(s, |s|)
  }

  predicate HasTriple(s: string) {
    exists i :: 0 <= i < |s| - 2 && s[i] == ':' && s[i + 1] == ':' && s[i + 2] == ':'
  }

  /** The index of the first `::`, or the length. */
  function FindDouble(s: string): (i: nat)
    ensures i <= |s|
    ensures i < |s| ==> i + 1 < |s| && s[i] == ':' && s[i + 1] == ':'
  {
    if |s| < 2 then |s|
    else if s[0] == ':' && s[1] == ':' then 0
    else
      var j := FindDouble(s[1..]);
      j + 1
  }

  /** The parts between doubled colons. */
  function SplitDouble(s: string): (parts: seq<string>)
    ensures |parts| >= 1
  {
    var i := FindDouble(s);
    if i == |s| then [s] else [s[..i]] + SplitDouble(s[i + 2..])
  }

  /** A trailing dotted quad becomes two hexadecimal groups. */
  function RewriteTail(s: string): Option<string> {
    var k := LastColon(s);
    var tail := s[k + 1..];
    if '.' !in tail then Some(s)
    else
      var v4 := Ipv4Value(tail);
      if v4.None? then None
      else Some(s[..k + 1] + (Hex(v4.value / 0x1_0000) + ":" + Hex(v4.value % 0x1_0000)))
  }

  function Groups(part: string): Option<seq<nat>> {
    if part == "" then Some([])
    else
      var groups := Split(part, ':');
      if AllGroups(groups) then Some(Values(groups)) else None
  }

  function HextetsOf(s: string): Option<seq<nat>> {
    var halves := SplitDouble(s);
    if |halves| > 2 then None
    else if |halves| == 2 then
      var left, right := Groups(halves[0]), Groups(halves[1]);
      if left.None? || right.None? || 8 - |left.value| - |right.value| < 1 then None
      else Some(left.value + Zeros(8 - |left.value| - |right.value|) + right.value)
    else Groups(s)
  }

  function Ipv6Value(ip: string): Option<nat> {
    var s := Trim(ip);
    if s == "" || HasTriple(s) then None
    else
      var t := RewriteTail(s);
      if t.None? then None
      else
        var h := HextetsOf(t.value);
        if h.None? || |h.value| != 8 then None else Some(Horner(h.value))
  }

  method ParseGroups(part: string) returns (r: Option<seq<nat>>)
    ensures r == Groups(part)
    ensures r.Some? ==> Hextets(r.value)
  {
    if part == "" {
      return Some([]);
    }
    var groups := Split(part, ':');
    var out: seq<nat> := [];
    for i := 0 to |groups|
      invariant AllGroups(groups[..i]) && out == Values(groups[..i]) && Hextets(out)
    {
      var g := groups[i];
      if !GroupText(g) {
        return None;
      }
      GroupBound(g);
      out := out + [GroupValue(g)];
    }
    assert groups[..|groups|] == groups;
    return Some(out);
  }

  lemma Halves(v: nat)
    requires v < 0x1_0000_0000
    ensures And(v / 0x1_0000, 0xffff) == v / 0x1_0000 < 0x1_0000
    ensures And(v, 0xffff) == v % 0x1_0000
  {
    Pow16();
    AndLowMask(v / 0x1_0000, 16);
    AndLowMask(v, 16);
  }

  method QuadGroups(v4: nat) returns (t: string)
    requires v4 < 0x1_0000_0000
    ensures t == Hex(v4 / 0x1_0000) + ":" + Hex(v4 % 0x1_0000)
  {
    Halves(v4);
    var hi := And(v4 / 0x1_0000, 0xffff);
    var lo := And(v4, 0xffff);
    return Hex(hi) + ":" + Hex(lo);
  }

  method ReplaceQuad(s: string) returns (t: Option<string>)
    ensures t == RewriteTail(s)
  {
    hide Ipv4Value, Hex, LastColon;
    var lastColon := LastColon(s);
    var tail := s[lastColon + 1..];
    if '.' !in tail {
      return Some(s);
    }
    var v4 := ParseIpv4(tail);
    if v4.None? {
      return None;
    }
    var groups := QuadGroups(v4.value);
    return Some(s[..lastColon + 1] + groups);
  }

  method ParseHextets(s: string) returns (r: Option<seq<nat>>)
    ensures r == HextetsOf(s)
    ensures r.Some? ==> Hextets(r.value)
  {
    hide SplitDouble, Groups, Zeros;
    var halves := SplitDouble(s);
    if |halves| > 2 {
      return None;
    }
    if |halves| == 2 {
      var left := ParseGroups(halves[0]);
      var right := ParseGroups(halves[1]);
      if left.None? || right.None? {
        return None;
      }
      var fill := 8 - |left.value| - |right.value|;
      if fill < 1 {
        return None;
      }
      return Some(left.value + Zeros(fill) + right.value);
    }
    r := ParseGroups(s);
  }

  /** Or with the next group after a shift by sixteen bits appends one base-65536 digit. */
  lemma ShiftIn(n: nat, h: nat)
    requires h < 0x1_0000
    ensures Or(n * 0x1_0000, h) == n * 0x1_0000 + h
  {
    hide Or, Pow2;
    Pow16();
    OrDisjoint(n, 16, h);
    assert Pow2(16) * n == n * 0x1_0000;
  }

  method Accumulate(h: seq<nat>) returns (n: nat)
    requires Hextets(h)
    ensures n == Horner(h)
  {
    n := 0;
    for i := 0 to |h|
      invariant n == Horner(h[..i])
    {
      ShiftIn(n, h[i]);
      n := Or(n * 0x1_0000, h[i]);
      assert h[..i + 1][..i] == h[..i];
    }
    assert h[..|h|] == h;
  }

  method ParseIpv6(ip: string) returns (r: Option<nat>)
    ensures r == Ipv6Value(ip)
  {
    var s := Trim(ip);
    if s == "" || HasTriple(s) {
      return None;
    }
    var t := ReplaceQuad(s);
    if t.None? {
      return None;
    }
    var hextets := ParseHextets(t.value);
    if hextets.None? || |hextets.value| != 8 {
      return None;
    }
    var n := Accumulate(hextets.value);
    return Some(n);
  }
}
