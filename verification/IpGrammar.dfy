/**
 * The grammar of the IPv6 texts that the parser accepts, with the number each one
 * stands for. With no white space before the dotted quad these are exactly the three
 * forms of section 2.2 of RFC 4291.
 */
module IpGrammar {
  import opened Prelude
  import opened Arithmetic
  import opened Text
  import opened IpText

  /**
   * Groups, an optional `::` and more groups, and an optional dotted quad for the last
   * two groups. The source also takes white space in front of the quad.
   */
  datatype V6Text = V6Text(left: seq<string>, gap: bool, right: seq<string>, pad: string, quad: Option<seq<string>>) {
    predicate WellFormed() {
      && AllGroups(left) && AllGroups(right) && AllSpace(pad)
      && (quad.Some? ==> QuadText(quad.value))
      && (quad.None? ==> pad == "")
      && (gap ==> Units() <= 7)
      && (!gap ==> right == [] && Units() == 8)
    }

    /** The number of 16-bit groups that are written out. */
    function Units(): nat {
      |left| + |right| + (if quad.Some? then 2 else 0)
    }

    function Tail(): seq<string> {
      if quad.Some? then [pad + Join(quad.value, '.')] else []
    }

    function Spell(): string {
      if gap then Join(left, ':') + "::" + Join(right + Tail(), ':') else Join(left + Tail(), ':')
    }

    /** The eight groups of the address. */
    function Address(): (h: seq<nat>)
      requires WellFormed()
      ensures |h| == 8
    {
      Values(left) + Zeros(8 - Units()) + Values(right) +
      (if quad.Some? then [QuadValue(quad.value) / 0x1_0000, QuadValue(quad.value) % 0x1_0000] else [])
    }
  }

  // ----- Colons in joined groups -----

  ghost predicate Pieces(gs: seq<string>) {
    forall i :: 0 <= i < |gs| ==> gs[i] != "" && ':' !in gs[i]
  }

  ghost predicate NoDouble(s: string) {
    forall i :: 0 <= i < |s| - 1 ==> !(s[i] == ':' && s[i + 1] == ':')
  }

  /** No doubled colon, and none at either end. */
  ghost predicate Solid(s: string) {
    NoDouble(s) && (s != "" ==> s[0] != ':' && s[|s| - 1] != ':')
  }

  lemma {:induction false} JoinSolid(gs: seq<string>)
    requires Pieces(gs)
    ensures Solid(Join(gs, ':'))
    ensures gs != [] ==> Join(gs, ':') != "" && Join(gs, ':')[0] == gs[0][0]
    ensures gs != [] ==> var last := gs[|gs| - 1]; Join(gs, ':')[|Join(gs, ':')| - 1] == last[|last| - 1]
  {
    if |gs| == 1 {
      assert Solid(gs[0]);
    } else if |gs| > 1 {
      JoinSolid(gs[1..]);
      assert gs[1..][|gs| - 2] == gs[|gs| - 1];
      SolidConcat(gs[0], Join(gs[1..], ':'));
    }
  }

  lemma SolidConcat(a: string, b: string)
    requires a != "" && ':' !in a && Solid(b) && b != ""
    ensures Solid(a + [':'] + b)
  {
    var s := a + [':'] + b;
    forall i | 0 <= i < |s| - 1 ensures !(s[i] == ':' && s[i + 1] == ':') {
      if i < |a| {
        assert s[i] == a[i];
      } else if i > |a| {
        assert s[i] == b[i - |a| - 1] && s[i + 1] == b[i - |a|];
      }
    }
  }

  lemma GroupPlain(g: string)
    requires GroupText(g)
    ensures g != "" && ':' !in g && '.' !in g && !IsSpace(g[0]) && !IsSpace(g[|g| - 1])
  {
  }

  lemma GroupsArePieces(gs: seq<string>)
    requires AllGroups(gs)
    ensures Pieces(gs)
  {
    forall i | 0 <= i < |gs| ensures gs[i] != "" && ':' !in gs[i] {
      GroupPlain(gs[i]);
    }
  }

  // ----- Splitting at the doubled colon -----

  lemma {:induction false} FindDoubleNone(s: string)
    requires NoDouble(s)
    ensures FindDouble(s) == |s| && SplitDouble(s) == [s]
  {
    if |s| >= 2 {
      forall i | 0 <= i < |s[1..]| - 1 ensures !(s[1..][i] == ':' && s[1..][i + 1] == ':') {
        assert s[i + 1] == s[1..][i] && s[i + 2] == s[1..][i + 1];
      }
      FindDoubleNone(s[1..]);
    }
  }

  lemma {:induction false} FindDoubleAt(a: string, b: string)
    requires Solid(a)
    ensures FindDouble(a + "::" + b) == |a|
  {
    var s := a + "::" + b;
    if a != "" {
      var a' := a[1..];
      assert s[1..] == a' + "::" + b;
      assert s[0] == a[0] && s[0] != ':';
      forall i | 0 <= i < |a'| - 1 ensures !(a'[i] == ':' && a'[i + 1] == ':') {
        assert a[i + 1] == a'[i] && a[i + 2] == a'[i + 1];
      }
      if a' == "" || a'[0] != ':' {
        FindDoubleAt(a', b);
      } else {
        FindDoubleInner(a', b);
      }
    }
  }

  /** As above for a text that begins with one colon. */
  lemma {:induction false} FindDoubleInner(a: string, b: string)
    requires |a| >= 2 && a[0] == ':' && NoDouble(a) && a[|a| - 1] != ':'
    ensures FindDouble(a + "::" + b) == |a|
  {
    var s := a + "::" + b;
    var a' := a[1..];
    assert s[1..] == a' + "::" + b && s[0] == a[0] && s[1] == a[1];
    assert a'[0] == a[1] != ':';
    forall i | 0 <= i < |a'| - 1 ensures !(a'[i] == ':' && a'[i + 1] == ':') {
      assert a[i + 1] == a'[i] && a[i + 2] == a'[i + 1];
    }
    FindDoubleAt(a', b);
  }

  lemma SplitAtGap(a: string, b: string)
    requires Solid(a) && Solid(b)
    ensures SplitDouble(a + "::" + b) == [a, b]
    ensures !HasTriple(a + "::" + b)
  {
    var s := a + "::" + b;
    FindDoubleAt(a, b);
    FindDoubleNone(b);
    assert s[..|a|] == a && s[|a| + 2..] == b;
    forall i | 0 <= i < |s| - 2 ensures !(s[i] == ':' && s[i + 1] == ':' && s[i + 2] == ':') {
      if i < |a| {
        assert s[i] == a[i] && (i + 1 < |a| ==> s[i + 1] == a[i + 1]);
      } else if i + 2 >= |a| + 2 {
        assert s[i + 2] == b[i - |a|] && (i > |a| ==> i + 1 >= |a| + 2 ==> s[i + 1] == b[i - |a| - 1]);
      }
    }
  }

  lemma {:induction false} SplitDoubleJoins(s: string)
    requires |SplitDouble(s)| <= 2
    ensures var h := SplitDouble(s); s == if |h| == 1 then h[0] else h[0] + "::" + h[1]
  {
    var i := FindDouble(s);
    if i < |s| {
      assert |SplitDouble(s[i + 2..])| == 1;
      assert FindDouble(s[i + 2..]) == |s[i + 2..]|;
      assert s == s[..i] + "::" + s[i + 2..];
    }
  }

  // ----- The last colon and the dotted quad -----

  lemma LastColonAt(p: string, t: string)
    requires ':' !in t && (p == "" || p[|p| - 1] == ':')
    ensures LastColon(p + t) == |p| - 1
  {
    var s := p + t;
    assert p != "" ==> s[|p| - 1] == ':';
    forall i | |p| <= i < |s| ensures s[i] != ':' {
      assert s[i] == t[i - |p|];
    }
  }

  /** The groups each followed by a colon. */
  function Prefix(gs: seq<string>): (p: string)
    ensures p == "" || p[|p| - 1] == ':'
  {
    if gs == [] then "" else gs[0] + ":" + Prefix(gs[1..])
  }

  lemma {:induction false} JoinPrefix(gs: seq<string>, more: seq<string>)
    requires more != []
    ensures Join(gs + more, ':') == Prefix(gs) + Join(more, ':')
  {
    if gs == [] {
      assert gs + more == more;
    } else {
      assert (gs + more)[1..] == gs[1..] + more;
      JoinPrefix(gs[1..], more);
    }
  }

  lemma JoinNone()
    ensures Join([], ':') == ""
  {
  }

  lemma JoinOne(gs: seq<string>, t: string)
    ensures Join(gs + [t], ':') == Prefix(gs) + t
  {
    JoinPrefix(gs, [t]);
  }

  lemma JoinTwo(gs: seq<string>, h: string, l: string)
    ensures Join(gs + [h, l], ':') == Prefix(gs) + (h + ":" + l)
  {
    JoinPrefix(gs, [h, l]);
    assert [h, l][1..] == [l];
  }

  /** The form with the quad written as two hexadecimal groups. */
  function Plain(f: V6Text): V6Text
    requires f.WellFormed()
  {
    if f.quad.None? then f
    else
      var v := QuadValue(f.quad.value);
      var two := [Hex(v / 0x1_0000), Hex(v % 0x1_0000)];
      if f.gap then V6Text(f.left, true, f.right + two, "", None) else V6Text(f.left + two, false, [], "", None)
  }

  lemma TwoGroups(v: nat)
    requires v < 0x1_0000_0000
    ensures GroupText(Hex(v / 0x1_0000)) && GroupValue(Hex(v / 0x1_0000)) == v / 0x1_0000
    ensures GroupText(Hex(v % 0x1_0000)) && GroupValue(Hex(v % 0x1_0000)) == v % 0x1_0000
  {
    Bits.Pow16();
    HexRoundTrip(v / 0x1_0000, 4);
    HexRoundTrip(v % 0x1_0000, 4);
  }

  lemma PlainSameAddress(f: V6Text)
    requires f.WellFormed()
    ensures Plain(f).WellFormed() && Plain(f).Address() == f.Address()
  {
    hide QuadText, QuadValue, Hex, GroupText, Zeros, Join;
    if f.quad.Some? {
      var v := QuadValue(f.quad.value);
      TwoGroups(v);
      var two := [Hex(v / 0x1_0000), Hex(v % 0x1_0000)];
      assert AllGroups(two);
      assert Values(f.right + two) == Values(f.right) + Values(two);
      assert Values(f.left + two) == Values(f.left) + Values(two);
      assert Values(two) == [v / 0x1_0000, v % 0x1_0000];
      assert Zeros(0) == [];
    }
  }

  lemma TailText(f: V6Text)
    requires f.WellFormed() && f.quad.Some?
    ensures var t := f.pad + Join(f.quad.value, '.');
            && ':' !in t && '.' in t && Ipv4Value(t) == Some(QuadValue(f.quad.value))
            && IsDigit(t[|t| - 1])
  {
    QuadJoin(f.quad.value);
    Ipv4RoundTrip(f.pad, f.quad.value, "");
    var q := Join(f.quad.value, '.');
    assert f.pad + q + "" == f.pad + q;
    assert ':' !in f.pad;
  }

  /** Everything before the tail text. */
  function Head(f: V6Text): (p: string)
    ensures p == "" || p[|p| - 1] == ':'
  {
    if f.gap then Join(f.left, ':') + "::" + Prefix(f.right) else Prefix(f.left)
  }

  /** The two spellings share everything up to the last colon of the first. */
  lemma SpellWithQuad(f: V6Text, q: string, h: string, l: string)
    requires f.quad.Some? && f.Tail() == [q]
    ensures f.Spell() == Head(f) + q
    ensures f.gap ==> V6Text(f.left, true, f.right + [h, l], "", None).Spell() == Head(f) + (h + ":" + l)
    ensures !f.gap ==> V6Text(f.left + [h, l], false, [], "", None).Spell() == Head(f) + (h + ":" + l)
  {
    hide Join, Prefix;
    if f.gap {
      JoinOne(f.right, q);
      JoinTwo(f.right, h, l);
      assert f.right + [h, l] + [] == f.right + [h, l];
    } else {
      JoinOne(f.left, q);
      JoinTwo(f.left, h, l);
      assert f.left + [h, l] + [] == f.left + [h, l];
    }
  }

  lemma RewriteAt(p: string, t: string)
    requires ':' !in t && (p == "" || p[|p| - 1] == ':')
    ensures RewriteTail(p + t) ==
      if '.' !in t then Some(p + t)
      else
        var v4 := Ipv4Value(t);
        if v4.None? then None
        else Some(p + (Hex(v4.value / 0x1_0000) + ":" + Hex(v4.value % 0x1_0000)))
  {
    LastColonAt(p, t);
    assert (p + t)[|p|..] == t && (p + t)[..|p|] == p;
    var v4 := Ipv4Value(t);
    if '.' in t && v4.Some? {
      Assoc(p, Hex(v4.value / 0x1_0000), Hex(v4.value % 0x1_0000));
    }
  }

  lemma Assoc(p: string, h: string, l: string)
    ensures p + h + ":" + l == p + (h + ":" + l)
  {
  }

  lemma RewriteQuad(f: V6Text)
    requires f.WellFormed() && f.quad.Some?
    ensures RewriteTail(f.Spell()) == Some(Plain(f).Spell())
  {
    hide QuadText, Hex, Join, RewriteTail, Ipv4Value, Prefix;
    var q := f.pad + Join(f.quad.value, '.');
    var v := QuadValue(f.quad.value);
    TailText(f);
    SpellWithQuad(f, q, Hex(v / 0x1_0000), Hex(v % 0x1_0000));
    RewriteAt(Head(f), q);
  }

  lemma PlainTail(gs: seq<string>)
    requires gs != [] && AllGroups(gs)
    ensures var t := gs[|gs| - 1];
            && Join(gs, ':') == Prefix(gs[..|gs| - 1]) + t
            && ':' !in t && '.' !in t
  {
    hide GroupText, Join, Prefix;
    var n := |gs| - 1;
    assert gs == gs[..n] + [gs[n]];
    JoinOne(gs[..n], gs[n]);
    GroupPlain(gs[n]);
  }

  lemma RewritePlain(f: V6Text)
    requires f.WellFormed() && f.quad.None?
    ensures RewriteTail(f.Spell()) == Some(f.Spell())
  {
    hide GroupText, Join, Prefix, RewriteTail, Ipv4Value;
    var a := Join(f.left, ':') + "::";
    PlainSpell(f);
    if f.gap {
      if f.right == [] {
        JoinNone();
        assert f.Spell() == a + "";
        RewriteAt(a, "");
      } else {
        PlainTail(f.right);
        var p, t := Prefix(f.right[..|f.right| - 1]), f.right[|f.right| - 1];
        assert f.Spell() == (a + p) + t;
        RewriteAt(a + p, t);
      }
    } else {
      PlainTail(f.left);
      RewriteAt(Prefix(f.left[..|f.left| - 1]), f.left[|f.left| - 1]);
    }
  }

  lemma PlainSpell(f: V6Text)
    requires f.quad.None?
    ensures f.Spell() == if f.gap then Join(f.left, ':') + "::" + Join(f.right, ':') else Join(f.left, ':')
  {
    assert f.right + [] == f.right && f.left + [] == f.left;
  }

  // ----- Every form is read as its address -----

  lemma GroupsOfJoin(gs: seq<string>)
    requires AllGroups(gs)
    ensures Groups(Join(gs, ':')) == Some(Values(gs))
  {
    GroupsArePieces(gs);
    JoinSolid(gs);
    if gs != [] {
      SplitJoin(gs, ':');
    } else {
      assert Values(gs) == [];
    }
  }

  lemma SolidGroups(gs: seq<string>)
    requires AllGroups(gs)
    ensures Solid(Join(gs, ':'))
  {
    GroupsArePieces(gs);
    JoinSolid(gs);
  }

  lemma SolidSplits(s: string)
    requires Solid(s)
    ensures SplitDouble(s) == [s]
  {
    FindDoubleNone(s);
  }

  lemma HextetsOfPlain(f: V6Text)
    requires f.WellFormed() && f.quad.None?
    ensures HextetsOf(f.Spell()) == Some(f.Address())
  {
    hide GroupText, Join, SplitDouble, Groups, Zeros, Solid, Values;
    PlainSpell(f);
    PlainAddress(f);
    SolidGroups(f.left);
    SolidGroups(f.right);
    GroupsOfJoin(f.left);
    GroupsOfJoin(f.right);
    if f.gap {
      SplitAtGap(Join(f.left, ':'), Join(f.right, ':'));
    } else {
      SolidSplits(Join(f.left, ':'));
    }
  }

  /** Groups followed by the tail: solid, and without white space at the end. */
  lemma TailedShape(f: V6Text, gs: seq<string>)
    requires f.WellFormed() && AllGroups(gs)
    ensures var s := Join(gs + f.Tail(), ':');
            && Solid(s)
            && (s != "" ==> !IsSpace(s[|s| - 1]))
            && (gs + f.Tail() != [] ==> s != "")
            && (gs != [] ==> !IsSpace(s[0]))
  {
    hide GroupText, Join, Solid, QuadText, Ipv4Value, QuadValue;
    GroupsArePieces(gs);
    if f.quad.Some? {
      TailText(f);
    }
    var all := gs + f.Tail();
    assert Pieces(all);
    JoinSolid(all);
    JoinNone();
    assert f.quad.Some? ==> all[|all| - 1] == f.Tail()[0];
    assert f.quad.None? ==> all == gs;
    if gs != [] {
      assert all[0] == gs[0];
      GroupPlain(gs[0]);
      GroupPlain(gs[|gs| - 1]);
    }
  }

  lemma SpellShape(f: V6Text)
    requires f.WellFormed()
    ensures var s := f.Spell(); s != "" && !HasTriple(s) && !IsSpace(s[|s| - 1]) && !IsSpace(s[0])
  {
    hide GroupText, Join, Solid, QuadText, HasTriple;
    if f.gap {
      TailedShape(f, f.right);
      JoinNone();
      SolidGroups(f.left);
      SplitAtGap(Join(f.left, ':'), Join(f.right + f.Tail(), ':'));
      if f.left != [] {
        GroupsArePieces(f.left);
        JoinSolid(f.left);
        GroupPlain(f.left[0]);
        assert f.Spell()[0] == Join(f.left, ':')[0];
      }
    } else {
      TailedShape(f, f.left);
      NoTriple(f.Spell());
    }
  }

  lemma NoTriple(s: string)
    requires Solid(s)
    ensures !HasTriple(s)
  {
  }

  lemma ReadSteps(ip: string, s: string, t: string, h: seq<nat>)
    requires Trim(ip) == s && s != "" && !HasTriple(s)
    requires RewriteTail(s) == Some(t) && HextetsOf(t) == Some(h) && |h| == 8
    ensures Ipv6Value(ip) == Some(Horner(h))
  {
  }

  /** Completeness: every well-formed text is read as its address. */
  lemma Ipv6ReadsEveryForm(f: V6Text, ip: string)
    requires f.WellFormed() && Trim(ip) == f.Spell()
    ensures Ipv6Value(ip) == Some(Horner(f.Address()))
  {
    SpellShape(f);
    var g := Plain(f);
    PlainSameAddress(f);
    assert RewriteTail(f.Spell()) == Some(g.Spell()) by {
      if f.quad.Some? { RewriteQuad(f); } else { RewritePlain(f); }
    }
    HextetsOfPlain(g);
    ReadSteps(ip, f.Spell(), g.Spell(), g.Address());
  }

  /** With any outer white space, the three forms of section 2.2 of RFC 4291 give the address they show. */
  lemma Ipv6UndoesRfcForms(f: V6Text, outer: string, outer': string)
    requires f.WellFormed() && f.pad == "" && AllSpace(outer) && AllSpace(outer')
    ensures Ipv6Value(outer + f.Spell() + outer') == Some(Horner(f.Address()))
  {
    SpellShape(f);
    TrimPadded(outer, f.Spell(), outer');
    Ipv6ReadsEveryForm(f, outer + f.Spell() + outer');
  }

  // ----- Only such forms are read -----

  lemma GroupsGive(part: string) returns (gs: seq<string>)
    requires Groups(part).Some?
    ensures AllGroups(gs) && Values(gs) == Groups(part).value && Join(gs, ':') == part
    ensures part != "" ==> gs == Split(part, ':')
  {
    if part == "" {
      gs := [];
    } else {
      gs := Split(part, ':');
      JoinSplit(part, ':');
    }
  }

  /** The form `f` is the plain one around a gap between `a` and `b`. */
  ghost predicate GapForm(f: V6Text, t: string, a: string, b: string) {
    && f.gap && f.pad == "" && f.quad.None? && t == a + "::" + b
    && AllGroups(f.left) && Join(f.left, ':') == a
    && AllGroups(f.right) && Join(f.right, ':') == b && (b != "" ==> f.right == Split(b, ':'))
  }

  lemma GapFormOf(a: string, b: string) returns (f: V6Text)
    requires Groups(a).Some? && Groups(b).Some? && |Groups(a).value| + |Groups(b).value| <= 7
    ensures f.WellFormed() && f.Spell() == a + "::" + b && GapForm(f, a + "::" + b, a, b)
    ensures f.Address() == Groups(a).value + Zeros(8 - |Groups(a).value| - |Groups(b).value|) + Groups(b).value
  {
    var left := GroupsGive(a);
    var right := GroupsGive(b);
    f := V6Text(left, true, right, "", None);
    PlainSpell(f);
    assert f.WellFormed();
    PlainAddress(f);
  }

  lemma SolidFormOf(t: string) returns (f: V6Text)
    requires Groups(t).Some? && |Groups(t).value| == 8
    ensures f.WellFormed() && f.quad.None? && !f.gap && f.Spell() == t && f.left == Split(t, ':')
    ensures f.Address() == Groups(t).value
  {
    var all := GroupsGive(t);
    f := V6Text(all, false, [], "", None);
    PlainSpell(f);
    assert f.WellFormed();
    PlainAddress(f);
  }

  /** A text without a quad that yields eight hextets is a plain form of them. */
  lemma PlainFormOf(t: string) returns (f: V6Text, a: string, b: string)
    requires HextetsOf(t).Some? && |HextetsOf(t).value| == 8
    ensures f.WellFormed() && f.quad.None? && f.Spell() == t && f.Address() == HextetsOf(t).value
    ensures if f.gap then GapForm(f, t, a, b) else t != "" && f.left == Split(t, ':')
  {
    hide SplitDouble, Groups, Zeros, Split;
    var halves := SplitDouble(t);
    SplitDoubleJoins(t);
    if |halves| == 2 {
      a, b := halves[0], halves[1];
      f := GapFormOf(a, b);
    } else {
      a, b := "", "";
      f := SolidFormOf(t);
    }
  }

  lemma PlainAddress(f: V6Text)
    requires f.WellFormed() && f.quad.None?
    ensures f.gap ==> f.Address() == Values(f.left) + Zeros(8 - |f.left| - |f.right|) + Values(f.right)
    ensures !f.gap ==> f.Address() == Values(f.left)
  {
  }

  lemma SplitTwo(h: string, l: string)
    requires ':' !in h && ':' !in l
    ensures Split(h + ":" + l, ':') == [h, l]
  {
    SplitAppend(h, ':', l);
    SplitPlain(h, ':');
    SplitPlain(l, ':');
  }

  /** Splitting a text that ends in two groups after a colon, and putting one text in their place. */
  lemma SplitBeforeTwo(q: string, h: string, l: string, t: string)
    requires ':' !in h && ':' !in l
    ensures Split(q + ":" + (h + ":" + l), ':') == Split(q, ':') + [h, l]
    ensures Join(Split(q, ':') + [t], ':') == q + ":" + t
  {
    SplitTwo(h, l);
    SplitAppend(q, ':', h + ":" + l);
    JoinSplit(q, ':');
    JoinAppend(Split(q, ':'), ':', [t]);
  }

  /** A quad text is white space and four octets once the white space after it is excluded. */
  lemma QuadOf(t: string) returns (pad: string, quad: seq<string>)
    requires Ipv4Value(t).Some? && t != "" && !IsSpace(t[|t| - 1])
    ensures AllSpace(pad) && QuadText(quad) && t == pad + Join(quad, '.') && QuadValue(quad) == Ipv4Value(t).value
  {
    hide Trim, TrimStart, Join, OctetText, QuadValue;
    var u := TrimStart(t);
    TrimmedEnd(t);
    quad := Split(u, '.');
    JoinSplit(u, '.');
    pad := t[..|t| - |u|];
  }

  lemma TrimmedEnd(t: string)
    requires t != "" && !IsSpace(t[|t| - 1])
    ensures Trim(t) == TrimStart(t)
  {
    var u := TrimStart(t);
    if u == "" {
      assert t[..|t|] == t;
    } else {
      assert u[|u| - 1] == t[|t| - 1];
    }
  }

  /** The doubled colon of a text that ends in `h:l` lies before them. */
  lemma GapBeforeTwo(p: string, h: string, l: string, a: string, b: string)
    requires p != "" && p[|p| - 1] == ':' && h != "" && ':' !in h && ':' !in l
    requires p + (h + ":" + l) == a + "::" + b
    ensures |a| + 2 <= |p| && p == a + "::" + p[|a| + 2..] && b == p[|a| + 2..] + (h + ":" + l)
    ensures b != ""
  {
    var s := p + (h + ":" + l);
    assert s[|a|] == ':' && s[|a| + 1] == ':' by {
      assert (a + "::" + b)[|a|] == ':' && (a + "::" + b)[|a| + 1] == ':';
    }
    if |a| + 1 >= |p| {
      assert false;
    }
    assert s[..|a| + 2] == a + "::" == p[..|a| + 2];
    assert s[|a| + 2..] == b;
    assert b == p[|a| + 2..] + (h + ":" + l);
  }

  /** Putting the quad back in place of the last two groups, after a gap. */
  lemma GapQuadForm(g: V6Text, p: string, pad: string, quad: seq<string>, a: string, b: string) returns (f: V6Text)
    requires AllSpace(pad) && QuadText(quad) && (p == "" || p[|p| - 1] == ':')
    requires g.WellFormed() && GapForm(g, p + TwoText(QuadValue(quad)), a, b)
    ensures f.WellFormed() && f.Spell() == p + (pad + Join(quad, '.')) && Plain(f) == g
  {
    hide QuadText, QuadValue, Hex, Prefix, GroupText, Split, Join;
    var v := QuadValue(quad);
    var h, l := Hex(v / 0x1_0000), Hex(v % 0x1_0000);
    TwoGroups(v);
    GroupPlain(h);
    GroupPlain(l);
    NoGapInTwo(h, l, a, b);
    assert p == "" ==> p + TwoText(v) == h + ":" + l;
    GapBeforeTwo(p, h, l, a, b);
    var right := RightOf(p[|a| + 2..], h, l, pad + Join(quad, '.'));
    f := V6Text(g.left, true, right, pad, Some(quad));
    AllGroupsPrefix(right, [h, l]);
    assert f.Spell() == a + "::" + (p[|a| + 2..] + (pad + Join(quad, '.')));
  }

  lemma SolidQuadForm(g: V6Text, p: string, pad: string, quad: seq<string>) returns (f: V6Text)
    requires AllSpace(pad) && QuadText(quad) && (p == "" || p[|p| - 1] == ':')
    requires g.WellFormed() && !g.gap && g.quad.None? && g.left == Split(p + TwoText(QuadValue(quad)), ':')
    ensures f.WellFormed() && f.Spell() == p + (pad + Join(quad, '.')) && Plain(f) == g
  {
    hide QuadText, QuadValue, Hex, Prefix, GroupText, Split, Join, TwoText;
    var v := QuadValue(quad);
    TwoGroups(v);
    var q := SolidSplit(p, v, g.left, pad + Join(quad, '.'));
    f := V6Text(Split(q, ':'), false, [], pad, Some(quad));
    AllGroupsPrefix(Split(q, ':'), [Hex(v / 0x1_0000), Hex(v % 0x1_0000)]);
  }

  /** Eight groups that end in the two of the quad leave six before the colon. */
  lemma SolidSplit(p: string, v: nat, groups: seq<string>, tail: string) returns (q: string)
    requires GroupText(Hex(v / 0x1_0000)) && GroupText(Hex(v % 0x1_0000))
    requires p == "" || p[|p| - 1] == ':'
    requires groups == Split(p + TwoText(v), ':') && |groups| == 8
    ensures p == q + ":" && groups == Split(q, ':') + [Hex(v / 0x1_0000), Hex(v % 0x1_0000)]
    ensures Join(Split(q, ':') + [tail], ':') == p + tail
  {
    hide Hex, GroupText, Split, Join;
    var h, l := Hex(v / 0x1_0000), Hex(v % 0x1_0000);
    GroupPlain(h);
    GroupPlain(l);
    SplitTwo(h, l);
    assert p == "" ==> p + TwoText(v) == h + ":" + l;
    q := p[..|p| - 1];
    assert p == q + ":";
    SplitBeforeTwo(q, h, l, tail);
    assert p + TwoText(v) == q + ":" + (h + ":" + l);
  }

  function TwoText(v: nat): string {
    Hex(v / 0x1_0000) + ":" + Hex(v % 0x1_0000)
  }

  /** The form of a text whose quad was rewritten, from the plain form of the rewritten text. */
  lemma QuadFormOf(p: string, tail: string, t: string) returns (f: V6Text)
    requires p == "" || p[|p| - 1] == ':'
    requires Ipv4Value(tail).Some? && tail != "" && !IsSpace(tail[|tail| - 1])
    requires t == p + TwoText(Ipv4Value(tail).value)
    requires HextetsOf(t).Some? && |HextetsOf(t).value| == 8
    ensures f.WellFormed() && f.Spell() == p + tail && f.Address() == HextetsOf(t).value
  {
    hide HextetsOf, Ipv4Value, TwoText, Split, GapForm;
    var pad, quad := QuadOf(tail);
    var g, a, b := PlainFormOf(t);
    if g.gap {
      f := GapQuadForm(g, p, pad, quad, a, b);
    } else {
      f := SolidQuadForm(g, p, pad, quad);
    }
    PlainSameAddress(f);
  }

  lemma AllGroupsPrefix(gs: seq<string>, more: seq<string>)
    requires AllGroups(gs + more)
    ensures AllGroups(gs)
  {
    forall i | 0 <= i < |gs| ensures GroupText(gs[i]) {
      assert (gs + more)[i] == gs[i];
    }
  }

  /** The groups between a gap and the last two. */
  lemma RightOf(r: string, h: string, l: string, tail: string) returns (right: seq<string>)
    requires r == "" || r[|r| - 1] == ':'
    requires ':' !in h && ':' !in l
    ensures Split(r + (h + ":" + l), ':') == right + [h, l]
    ensures Join(right + [tail], ':') == r + tail
  {
    if r == "" {
      right := [];
      SplitTwo(h, l);
      assert r + (h + ":" + l) == h + ":" + l;
    } else {
      var q := r[..|r| - 1];
      assert r == q + ":";
      right := Split(q, ':');
      SplitBeforeTwo(q, h, l, tail);
      assert r + (h + ":" + l) == q + ":" + (h + ":" + l);
    }
  }

  lemma NoGapInTwo(h: string, l: string, a: string, b: string)
    requires h != "" && l != "" && ':' !in h && ':' !in l
    ensures h + ":" + l != a + "::" + b
  {
    SolidConcat(h, l);
    var u := a + "::" + b;
    assert !NoDouble(u) by {
      assert u[|a|] == ':' && u[|a| + 1] == ':';
    }
  }

  /** Soundness: a text that is read as a number is a well-formed one for that number. */
  lemma Ipv6ReadsOnlyForms(ip: string) returns (f: V6Text)
    requires Ipv6Value(ip).Some?
    ensures f.WellFormed() && Trim(ip) == f.Spell() && Ipv6Value(ip) == Some(Horner(f.Address()))
  {
    hide HextetsOf, RewriteTail, Trim, Horner, HasTriple;
    var s := Trim(ip);
    TrimEnds(ip);
    var t := RewriteTail(s).value;
    f := FormOf(s, t);
  }

  lemma TrimEnds(ip: string)
    ensures Trim(ip) == "" || !IsSpace(Trim(ip)[|Trim(ip)| - 1])
  {
    hide TrimEnd, TrimStart, IsSpace, AllSpace;
  }

  lemma FormOf(s: string, t: string) returns (f: V6Text)
    requires s != "" && !IsSpace(s[|s| - 1]) && RewriteTail(s) == Some(t)
    requires HextetsOf(t).Some? && |HextetsOf(t).value| == 8
    ensures f.WellFormed() && f.Spell() == s && f.Address() == HextetsOf(t).value
  {
    hide HextetsOf, Ipv4Value, LastColon;
    if '.' in s[LastColon(s) + 1..] {
      f := QuadForm(s, t);
    } else {
      var a, b;
      f, a, b := PlainFormOf(t);
    }
  }

  lemma QuadForm(s: string, t: string) returns (f: V6Text)
    requires s != "" && !IsSpace(s[|s| - 1]) && RewriteTail(s) == Some(t) && '.' in s[LastColon(s) + 1..]
    requires HextetsOf(t).Some? && |HextetsOf(t).value| == 8
    ensures f.WellFormed() && f.Spell() == s && f.Address() == HextetsOf(t).value
  {
    hide *;
    var p, tail := CutAtLastColon(s, t);
    f := QuadFormOf(p, tail, t);
  }

  /** A text with a quad, cut after its last colon. */
  lemma CutAtLastColon(s: string, t: string) returns (p: string, tail: string)
    requires s != "" && !IsSpace(s[|s| - 1]) && RewriteTail(s) == Some(t) && '.' in s[LastColon(s) + 1..]
    ensures s == p + tail && (p == "" || p[|p| - 1] == ':')
    ensures tail != "" && ':' !in tail && !IsSpace(tail[|tail| - 1])
    ensures Ipv4Value(tail).Some? && t == p + TwoText(Ipv4Value(tail).value)
  {
    hide RewriteTail, Ipv4Value, TwoText, IsSpace;
    var k := LastColon(s);
    p, tail := s[..k + 1], s[k + 1..];
    RewrittenText(s, t);
    LastStays(s, k + 1);
  }

  lemma LastStays(s: string, i: nat)
    requires i < |s|
    ensures s == s[..i] + s[i..] && s[i..][|s| - i - 1] == s[|s| - 1]
  {
  }

  lemma RewrittenText(s: string, t: string)
    requires RewriteTail(s) == Some(t) && '.' in s[LastColon(s) + 1..]
    ensures var k := LastColon(s);
            var v4 := Ipv4Value(s[k + 1..]);
            v4.Some? && t == s[..k + 1] + TwoText(v4.value)
  {
  }

  /**
   * The parser accepts exactly the grammar, and reads each text as the number of the
   * address it shows; every such number is below 2^128.
   */
  lemma Ipv6Exact(ip: string, v: nat)
    ensures Ipv6Value(ip) == Some(v)
       <==> exists f: V6Text :: f.WellFormed() && Trim(ip) == f.Spell() && v == Horner(f.Address())
    ensures Ipv6Value(ip) == Some(v) ==> v < Pow2(128)
  {
    if Ipv6Value(ip) == Some(v) {
      var f := Ipv6ReadsOnlyForms(ip);
      AddressHextets(f);
      HornerBound(f.Address());
    }
    if f: V6Text :| f.WellFormed() && Trim(ip) == f.Spell() && v == Horner(f.Address()) {
      Ipv6ReadsEveryForm(f, ip);
    }
  }

  lemma Ipv6Below(ip: string)
    ensures Ipv6Value(ip).Some? ==> Ipv6Value(ip).value < Pow2(128)
  {
    if Ipv6Value(ip).Some? {
      Ipv6Exact(ip, Ipv6Value(ip).value);
    }
  }

  lemma AddressHextets(f: V6Text)
    requires f.WellFormed()
    ensures Hextets(f.Address())
  {
    forall i | 0 <= i < |f.left| ensures Values(f.left)[i] < 0x1_0000 {
      GroupBound(f.left[i]);
    }
    forall i | 0 <= i < |f.right| ensures Values(f.right)[i] < 0x1_0000 {
      GroupBound(f.right[i]);
    }
  }

  /** Two texts are read as the same number only if they show the same address. */
  lemma SameNumberSameAddress(f: V6Text, g: V6Text)
    requires f.WellFormed() && g.WellFormed() && Horner(f.Address()) == Horner(g.Address())
    ensures f.Address() == g.Address()
  {
    AddressHextets(f);
    AddressHextets(g);
    HornerInjective(f.Address(), g.Address());
  }
}
