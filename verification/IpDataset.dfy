/**
 * CIDR ranges and the longest-prefix lookup of the offline enrichment dataset
 * (enrich/ip-dataset.ts), with the 32-bit operators of JavaScript written out.
 */
module IpDataset {
  import opened Prelude
  import opened Arithmetic
  import opened Bits
  import opened Text
  import opened IpText
  import opened Sorting
  import IpGrammar

  /** What belongs to the host language: numbers in forms other than decimal digits, when integers, and lower case. */
  datatype Host = Host(integer: string -> Option<int>, lower: string -> string)

  datatype Block = Block(start: nat, end: nat, prefix: nat)

  datatype Enrichment = Enrichment(
    country: Option<string>, city: Option<string>, asn: Option<string>, org: Option<string>, hosting: Option<bool>)

  datatype Range = Range(block: Block, data: Enrichment)

  // ----- 32-bit operators -----

  function ToUint32(x: int): (r: nat)
    ensures r < 0x1_0000_0000
  {
    x % 0x1_0000_0000
  }

  function ToInt32(x: int): (r: int)
    ensures -0x8000_0000 <= r < 0x8000_0000
  {
    var u := ToUint32(x);
    if u >= 0x8000_0000 then u - 0x1_0000_0000 else u
  }

  /** A 32-bit left shift. */
  function ShiftLeft32(a: int, k: nat): int {
    ToInt32(ToInt32(a) * Pow2(k % 32))
  }

  /** A 32-bit bitwise and. */
  function And32(a: int, b: int): int {
    ToInt32(And(ToUint32(a), ToUint32(b)))
  }

  // ----- Blocks -----

  /** The number of addresses of a prefix in a family of `width` bits. */
  function Size(width: nat, prefix: nat): nat
    requires prefix <= width
  {
    Pow2(width - prefix)
  }

  /** Two addresses agree on their top `prefix` bits. */
  predicate SameTop(width: nat, prefix: nat, a: nat, b: nat)
    requires prefix <= width
  {
    a / Size(width, prefix) == b / Size(width, prefix)
  }

  /** The block of a base address: everything that shares its top bits. */
  function BlockOf(width: nat, base: nat, prefix: nat): Block
    requires prefix <= width
  {
    var size := Size(width, prefix);
    Multiple(base, size);
    var start := size * (base / size);
    Block(start, start + size - 1, prefix)
  }

  predicate Contains(b: Block, n: nat) {
    b.start <= n <= b.end
  }

  /** Section 3.1 of RFC 4632: a block is exactly the addresses that share its prefix. */
  lemma BlockIsPrefix(width: nat, base: nat, prefix: nat, n: nat)
    requires prefix <= width
    ensures Contains(BlockOf(width, base, prefix), n) <==> SameTop(width, prefix, n, base)
  {
    var d := Size(width, prefix);
    var q := base / d;
    if Contains(BlockOf(width, base, prefix), n) {
      QuotientUnique(n, d, q, n - d * q);
    }
  }

  /** Agreement on more bits implies agreement on fewer. */
  lemma SameTopShorter(width: nat, p: nat, q: nat, a: nat, b: nat)
    requires p <= q <= width && SameTop(width, q, a, b)
    ensures SameTop(width, p, a, b)
  {
    PowAdd(width - q, q - p);
    QuotientOfQuotient(a, Size(width, q), Pow2(q - p));
    QuotientOfQuotient(b, Size(width, q), Pow2(q - p));
  }

  /** Blocks nest or are disjoint: with a common address the longer prefix lies inside the shorter. */
  lemma BlocksNest(width: nat, a: nat, p: nat, b: nat, q: nat, n: nat, m: nat)
    requires p <= q <= width
    requires Contains(BlockOf(width, a, p), n) && Contains(BlockOf(width, b, q), n)
    requires Contains(BlockOf(width, b, q), m)
    ensures Contains(BlockOf(width, a, p), m)
  {
    BlockIsPrefix(width, a, p, n);
    BlockIsPrefix(width, b, q, n);
    BlockIsPrefix(width, b, q, m);
    BlockIsPrefix(width, a, p, m);
    SameTopShorter(width, p, q, n, b);
    SameTopShorter(width, p, q, m, b);
  }

  // ----- CIDR parsing -----

  /** The range computed for an IPv4 base and prefix with 32-bit operators. */
  function Range32(base: nat, prefix: nat): Block
    requires prefix <= 32
  {
    var hostBits := 32 - prefix;
    var mask := if prefix == 0 then 0 else ToUint32(ShiftLeft32(0xffff_ffff, hostBits));
    var start := ToUint32(And32(base, mask));
    var end := ToUint32(start + (if hostBits == 32 then 0xffff_ffff else ShiftLeft32(1, hostBits) - 1));
    Block(start, end, prefix)
  }

  /** The range computed for an IPv6 base and prefix with unbounded integers. */
  function Range128(base: nat, prefix: nat): Block
    requires prefix <= 128
  {
    var hostBits := 128 - prefix;
    var full := Pow2(128) - 1;
    var mask := if prefix == 0 then 0 else And(full * Pow2(hostBits), full);
    var start := And(base, mask);
    var end := Or(start, Pow2(hostBits) - 1);
    Block(start, end, prefix)
  }

  /** `width` ones shifted up by `h`, cut to `width` bits. */
  lemma ShiftedOnes(width: nat, h: nat)
    requires h < width
    ensures Pow2(h) <= Pow2(width)
    ensures ((Pow2(width) - 1) * Pow2(h)) % Pow2(width) == Pow2(width) - Pow2(h)
  {
    PowGrows(h, width);
    PowGrows(h + 1, width);
    OnesTimes(Pow2(width), Pow2(h));
  }

  lemma OnesTimes(w: nat, p: nat)
    requires 1 <= p <= w
    ensures p < w ==> ((w - 1) * p) % w == w - p
  {
    assert (w - 1) * p == w * p - p;
    assert w * (p - 1) == w * p - w;
    if p < w {
      QuotientUnique((w - 1) * p, w, p - 1, w - p);
    }
  }

  lemma ShiftSmall(a: int, k: nat)
    requires k <= 31
    ensures ShiftLeft32(a, k) == ToInt32(ToInt32(a) * Pow2(k))
  {
    hide ToInt32, Pow2;
    assert k % 32 == k;
  }

  lemma SmallPower(h: nat)
    requires h <= 31
    ensures Pow2(h) <= 0x8000_0000 && (h < 31 ==> Pow2(h) <= 0x4000_0000)
  {
    Pow32();
    if h < 31 {
      PowGrows(h + 1, 31);
    }
  }

  lemma NegativePower(p: nat)
    requires 1 <= p <= 0x8000_0000
    ensures ToUint32(ToInt32(-1 * p)) == 0x1_0000_0000 - p
  {
  }

  lemma AllOnes()
    ensures ToInt32(0xffff_ffff) == -1
  {
  }

  lemma Mask32(h: nat)
    requires h <= 31
    ensures ToUint32(ShiftLeft32(0xffff_ffff, h)) == 0x1_0000_0000 - Pow2(h)
  {
    hide ToInt32, Pow2, ShiftLeft32;
    SmallPower(h);
    ShiftSmall(0xffff_ffff, h);
    AllOnes();
    NegativePower(Pow2(h));
  }

  lemma Unchanged32(u: nat)
    requires u < 0x1_0000_0000
    ensures ToUint32(u) == u == ToUint32(ToInt32(u))
    ensures u < 0x8000_0000 ==> ToInt32(u) == u
  {
  }

  lemma HostOnes32(h: nat)
    requires h <= 31
    ensures ShiftLeft32(1, h) == if Pow2(h) == 0x8000_0000 then -0x8000_0000 else Pow2(h)
  {
    ShiftOne(h);
    TopPower(h);
    Signed(Pow2(h));
  }

  lemma ShiftOne(k: nat)
    requires k <= 31
    ensures ShiftLeft32(1, k) == ToInt32(Pow2(k))
  {
    hide ToInt32, Pow2, ShiftLeft32;
    ShiftSmall(1, k);
    Signed(1);
  }

  lemma Signed(p: nat)
    requires p <= 0x8000_0000
    ensures ToInt32(p) == if p == 0x8000_0000 then -0x8000_0000 else p
  {
  }

  lemma TopPower(h: nat)
    requires h <= 31
    ensures Pow2(h) == 0x8000_0000 <==> h == 31
    ensures Pow2(h) <= 0x8000_0000
  {
    if h == 31 {
      Pow32();
    } else {
      SmallPower(h);
    }
  }

  /** Adding the shifted one less one to a block start gives the last address, wrapped or not. */
  lemma End32(start: nat, p: nat, shifted: int)
    requires 1 <= p && start + p <= 0x1_0000_0000
    requires shifted == p || shifted == p - 0x1_0000_0000
    ensures ToUint32(start + (shifted - 1)) == start + p - 1
  {
    Unchanged32(start + p - 1);
    if shifted != p {
      assert start + (shifted - 1) + 0x1_0000_0000 == start + p - 1;
    }
  }

  /** The 32-bit arithmetic yields exactly the block, for every prefix from 0 to 32. */
  lemma Range32IsBlock(base: nat, prefix: nat)
    requires prefix <= 32 && base < 0x1_0000_0000
    ensures Range32(base, prefix) == BlockOf(32, base, prefix)
  {
    if prefix == 0 {
      Pow32();
      QuotientUnique(base, 0x1_0000_0000, 0, base);
      assert And(base, 0) == 0;
    } else {
      LongRange32(base, prefix, 32 - prefix);
    }
  }

  lemma LongRange32(base: nat, prefix: nat, h: nat)
    requires prefix + h == 32 && h <= 31 && base < 0x1_0000_0000
    ensures Range32(base, prefix) == BlockOf(32, base, prefix)
  {
    hide And32, ToUint32, Pow2;
    var p := Pow2(h);
    Start32(base, h);
    HostOnes32(h);
    BlockFits(base, h);
    Scale(p, 0, base / p);
    End32(p * (base / p), p, ShiftLeft32(1, h));
  }

  lemma Start32(base: nat, h: nat)
    requires h <= 31 && base < 0x1_0000_0000
    ensures var mask := ToUint32(ShiftLeft32(0xffff_ffff, h));
            ToUint32(And32(base, mask)) == Pow2(h) * (base / Pow2(h))
  {
    var p := Pow2(h);
    var mask := ToUint32(ShiftLeft32(0xffff_ffff, h));
    Mask32(h);
    Masked(base, h);
    Unchanged32(base);
    Unchanged32(mask);
    Unchanged32(And(base, mask));
  }

  lemma Masked(base: nat, h: nat)
    requires h <= 31 && base < 0x1_0000_0000
    ensures Pow2(h) <= 0x1_0000_0000
    ensures And(base, 0x1_0000_0000 - Pow2(h)) == Pow2(h) * (base / Pow2(h)) < 0x1_0000_0000
  {
    Pow32();
    AndHighMask(base, 32, h);
    Multiple(base, Pow2(h));
  }

  /** The last address of a block stays within the family. */
  lemma BlockFits(base: nat, h: nat)
    requires h <= 31 && base < 0x1_0000_0000
    ensures Pow2(h) * (base / Pow2(h)) + Pow2(h) <= 0x1_0000_0000
  {
    Pow32();
    PowAdd(h, 32 - h);
    FitsBelow(base, Pow2(h), Pow2(32 - h));
  }

  lemma FitsBelow(x: nat, d: nat, n: nat)
    requires d > 0 && x < d * n
    ensures d * (x / d) + d <= d * n
  {
    var k := x / d;
    assert x >= d * k;
    if k >= n {
      Scale(d, n, k);
    } else {
      Scale(d, k + 1, n);
      assert d * (k + 1) == d * k + d;
    }
  }

  /** The unbounded arithmetic yields exactly the block. */
  lemma Range128IsBlock(base: nat, prefix: nat)
    requires prefix <= 128 && base < Pow2(128)
    ensures Range128(base, prefix) == BlockOf(128, base, prefix)
  {
    hide And, Or, Pow2;
    WideBlock(base, 128, prefix);
  }

  lemma AndOrZero(a: nat, b: nat)
    ensures And(a, 0) == 0 && Or(0, b) == b
  {
  }

  lemma WideBlock(base: nat, width: nat, prefix: nat)
    requires prefix <= width && base < Pow2(width)
    ensures var h := width - prefix;
            var mask := if prefix == 0 then 0 else And((Pow2(width) - 1) * Pow2(h), Pow2(width) - 1);
            var start := And(base, mask);
            Block(start, Or(start, Pow2(h) - 1), prefix) == BlockOf(width, base, prefix)
  {
    hide Pow2, And, Or;
    var h := width - prefix;
    if prefix == 0 {
      AndOrZero(base, Pow2(h) - 1);
      QuotientUnique(base, Pow2(h), 0, base);
      assert Pow2(h) * 0 == 0;
    } else {
      WideMask(width, h);
      AndHighMask(base, width, h);
      Multiple(base, Pow2(h));
      OrDisjoint(base / Pow2(h), h, Pow2(h) - 1);
    }
  }

  lemma WideMask(width: nat, h: nat)
    requires h < width
    ensures Pow2(h) <= Pow2(width)
    ensures And((Pow2(width) - 1) * Pow2(h), Pow2(width) - 1) == Pow2(width) - Pow2(h)
  {
    hide Pow2, And;
    Scale(Pow2(h), 0, Pow2(width) - 1);
    ShiftedOnes(width, h);
    AndLowMask((Pow2(width) - 1) * Pow2(h), width);
  }

  // ----- Rows of the data file -----

  ghost predicate IsBlock(width: nat, b: Block) {
    b.prefix <= width && exists base: nat :: b == BlockOf(width, base, b.prefix)
  }

  lemma SomeBlock(width: nat, base: nat, prefix: nat)
    requires prefix <= width
    ensures IsBlock(width, BlockOf(width, base, prefix))
  {
  }

  lemma Range32Known(base: nat, prefix: nat)
    requires prefix <= 32 && base < 0x1_0000_0000
    ensures IsBlock(32, Range32(base, prefix))
  {
    Range32IsBlock(base, prefix);
    SomeBlock(32, base, prefix);
  }

  lemma Range128Known(base: nat, prefix: nat)
    requires prefix <= 128 && base < Pow2(128)
    ensures IsBlock(128, Range128(base, prefix))
  {
    Range128IsBlock(base, prefix);
    SomeBlock(128, base, prefix);
  }

  /** The number a prefix text is converted to: zero for a blank one, else its digits, else what the host reads. */
  function PrefixNumber(host: Host, text: string): Option<int> {
    var t := Trim(text);
    if t == "" then Some(0) else if AllDigits(t) then Some(Decimal(t)) else host.integer(t)
  }

  function CidrPrefix(host: Host, parts: seq<string>, width: nat): Option<nat>
    requires parts != []
    ensures CidrPrefix(host, parts, width).Some? ==> CidrPrefix(host, parts, width).value <= width
  {
    var n := if |parts| == 1 then Some(width) else PrefixNumber(host, parts[1]);
    if n.None? || n.value < 0 || n.value > width then None else Some(n.value)
  }

  /** Whatever is accepted is the block of some address. */
  function ParseCidr(host: Host, cidr: string): (r: Option<Block>)
    ensures r.Some? ==> IsBlock(32, r.value)
  {
    var parts := Split(Trim(cidr), '/');
    var base := Ipv4Value(parts[0]);
    var prefix := CidrPrefix(host, parts, 32);
    if base.None? || prefix.None? then None
    else
      Range32Known(base.value, prefix.value);
      Some(Range32(base.value, prefix.value))
  }

  function ParseCidr6(host: Host, cidr: string): (r: Option<Block>)
    ensures r.Some? ==> IsBlock(128, r.value)
  {
    var parts := Split(Trim(cidr), '/');
    var base := Ipv6Value(parts[0]);
    var prefix := CidrPrefix(host, parts, 128);
    if base.None? || prefix.None? then None
    else
      IpGrammar.Ipv6Below(parts[0]);
      Range128Known(base.value, prefix.value);
      Some(Range128(base.value, prefix.value))
  }

  /** A text free of outer white space, around one slash at least. */
  lemma TrimCidr(a: string, text: string)
    requires (a == "" || !IsSpace(a[0])) && (text == "" || !IsSpace(text[|text| - 1]))
    ensures Trim(a + "/" + text) == a + "/" + text
  {
    hide TrimStart, TrimEnd, Trim;
    var s := a + "/" + text;
    assert s[0] == (if a == "" then '/' else a[0]) && s[|s| - 1] == if text == "" then '/' else text[|text| - 1];
    TrimPadded("", s, "");
    assert "" + s + "" == s;
  }

  lemma SplitCidr(a: string, text: string)
    requires '/' !in a && '/' !in text
    ensures Split(a + "/" + text, '/') == [a, text] && Split(a, '/') == [a]
  {
    SplitPlain(a, '/');
    SplitPlain(text, '/');
    SplitAppend(a, '/', text);
  }

  /** How a network cell is read: address, slash and prefix text, or an address alone. */
  lemma CidrReads(host: Host, a: string, text: string)
    requires '/' !in a && (a == "" || !IsSpace(a[0])) && '/' !in text && (text == "" || !IsSpace(text[|text| - 1]))
    ensures var v4, v6, n := Ipv4Value(a), Ipv6Value(a), PrefixNumber(host, text);
            && ParseCidr(host, a + "/" + text)
               == (if v4.Some? && n.Some? && 0 <= n.value <= 32 then Some(Range32(v4.value, n.value)) else None)
            && ParseCidr6(host, a + "/" + text)
               == (if v6.Some? && n.Some? && 0 <= n.value <= 128 then Some(Range128(v6.value, n.value)) else None)
    ensures Trim(a) == a ==>
              && ParseCidr(host, a) == (if Ipv4Value(a).Some? then Some(Range32(Ipv4Value(a).value, 32)) else None)
              && ParseCidr6(host, a) == (if Ipv6Value(a).Some? then Some(Range128(Ipv6Value(a).value, 128)) else None)
  {
    hide Trim, Split, Ipv4Value, Ipv6Value, PrefixNumber, Range32, Range128, IsBlock;
    TrimCidr(a, text);
    SplitCidr(a, text);
  }

  /** Digits, with white space around them, are read as their number; what is no number in digits is left to the host. */
  lemma PrefixReads(host: Host, pad: string, n: nat, pad': string, other: string)
    requires AllSpace(pad) && AllSpace(pad')
    ensures PrefixNumber(host, pad + Digits(n) + pad') == Some(n)
    ensures Trim(other) != "" && !AllDigits(Trim(other)) ==> PrefixNumber(host, other) == host.integer(Trim(other))
  {
    hide Digits, Decimal, Trim;
    var s := Digits(n);
    DecimalOfDigits(n);
    DigitIsNoSpace(s[0]);
    DigitIsNoSpace(s[|s| - 1]);
    TrimPadded(pad, s, pad');
  }

  lemma DigitIsNoSpace(c: char)
    requires IsDigit(c)
    ensures !IsSpace(c) && c != '/'
  {
  }

  /** An address, a slash and a number of the family's width or less is the block of that prefix. */
  lemma CidrIsBlock(host: Host, a: string, n: nat)
    requires '/' !in a && (a == "" || !IsSpace(a[0]))
    ensures ParseCidr(host, a + "/" + Digits(n))
         == if Ipv4Value(a).Some? && n <= 32 then Some(BlockOf(32, Ipv4Value(a).value, n)) else None
    ensures ParseCidr6(host, a + "/" + Digits(n))
         == if Ipv6Value(a).Some? && n <= 128 then Some(BlockOf(128, Ipv6Value(a).value, n)) else None
  {
    hide Digits, Decimal, Trim, Split, Ipv4Value, Ipv6Value, Range32, Range128, IsBlock, BlockOf, PrefixNumber, IsSpace,
      ParseCidr, ParseCidr6, IsDigit;
    var text := Digits(n);
    DecimalOfDigits(n);
    PlainDigits(text);
    NoSpace();
    PrefixReads(host, "", n, "", "");
    assert "" + text + "" == text;
    CidrReads(host, a, text);
    if Ipv4Value(a).Some? && n <= 32 {
      Range32IsBlock(Ipv4Value(a).value, n);
    }
    if Ipv6Value(a).Some? && n <= 128 {
      IpGrammar.Ipv6Below(a);
      Range128IsBlock(Ipv6Value(a).value, n);
    }
  }

  lemma PlainDigits(text: string)
    requires text != "" && AllDigits(text)
    ensures '/' !in text && !IsSpace(text[|text| - 1])
  {
    hide IsSpace, IsDigit;
    forall i | 0 <= i < |text| ensures text[i] != '/' && !IsSpace(text[i]) {
      DigitIsNoSpace(text[i]);
    }
  }

  /** White space at the end of a cell goes with the ignored part. */
  lemma TrimIgnored(a: string, text: string, rest: string)
    requires a == "" || !IsSpace(a[0])
    ensures Trim(a + "/" + text + "/" + rest) == a + "/" + (text + "/" + TrimEnd(rest))
  {
    hide TrimStart, TrimEnd, Trim, IsSpace;
    var kept := TrimEnd(rest);
    var s, pad := a + "/" + (text + "/" + kept), rest[|kept|..];
    EndsOf(a, text, kept);
    SlashIsNoSpace();
    TrimPadded("", s, pad);
    assert rest == kept + pad;
    assert "" + s + pad == a + "/" + text + "/" + rest;
  }

  lemma EndsOf(a: string, text: string, kept: string)
    ensures var s := a + "/" + (text + "/" + kept);
            && s[0] == (if a == "" then '/' else a[0])
            && s[|s| - 1] == if kept == "" then '/' else kept[|kept| - 1]
  {
  }

  lemma SlashIsNoSpace()
    ensures !IsSpace('/')
  {
  }

  /** Whatever follows a second slash is ignored. */
  lemma SecondSlashIgnored(host: Host, a: string, text: string, rest: string)
    requires '/' !in a && (a == "" || !IsSpace(a[0])) && '/' !in text && (text == "" || !IsSpace(text[|text| - 1]))
    ensures ParseCidr(host, a + "/" + text + "/" + rest) == ParseCidr(host, a + "/" + text)
    ensures ParseCidr6(host, a + "/" + text + "/" + rest) == ParseCidr6(host, a + "/" + text)
  {
    hide Trim, TrimEnd, Split, Ipv4Value, Ipv6Value, PrefixNumber, Range32, Range128, IsBlock;
    var kept := TrimEnd(rest);
    TrimIgnored(a, text, rest);
    TrimCidr(a, text);
    SplitCidr(a, text);
    SplitAppend(text, '/', kept);
    SplitAppend(a, '/', text + "/" + kept);
    SplitPlain(text, '/');
    assert Split(a + "/" + (text + "/" + kept), '/') == [a] + ([text] + Split(kept, '/'));
  }

  /** A slash with nothing after it makes any address the whole address space of its family. */
  lemma BareSlashIsEverything(host: Host, a: string)
    requires '/' !in a && (a == "" || !IsSpace(a[0]))
    ensures Ipv4Value(a).Some? ==> ParseCidr(host, a + "/") == Some(Block(0, 0xFFFF_FFFF, 0))
    ensures Ipv6Value(a).Some? ==> ParseCidr6(host, a + "/") == Some(Block(0, Pow2(128) - 1, 0))
  {
    hide Trim, Ipv4Value, Ipv6Value, Range32, Range128, IsBlock, Pow2;
    CidrReads(host, a, "");
    assert a + "/" + "" == a + "/";
    EmptyPrefix(host);
    if Ipv4Value(a).Some? {
      Pow32();
      Range32IsBlock(Ipv4Value(a).value, 0);
      WholeSpace(32, Ipv4Value(a).value);
    }
    if Ipv6Value(a).Some? {
      IpGrammar.Ipv6Below(a);
      Range128IsBlock(Ipv6Value(a).value, 0);
      WholeSpace(128, Ipv6Value(a).value);
    }
  }

  lemma EmptyPrefix(host: Host)
    ensures PrefixNumber(host, "") == Some(0)
  {
  }

  lemma WholeSpace(width: nat, base: nat)
    requires base < Pow2(width)
    ensures BlockOf(width, base, 0) == Block(0, Pow2(width) - 1, 0)
  {
    hide Pow2;
    QuotientUnique(base, Pow2(width), 0, base);
  }

  datatype Row = Row4(range: Range) | Row6(range: Range) | Malformed | Ignored {
    /** A row holds a block of its family. */
    ghost predicate HoldsBlock() {
      (Row4? ==> IsBlock(32, range.block)) && (Row6? ==> IsBlock(128, range.block))
    }
  }

  function Cell(cells: seq<string>, i: nat): Option<string> {
    if i < |cells| && cells[i] != "" then Some(cells[i]) else None
  }

  function DataOf(host: Host, cells: seq<string>): Enrichment {
    var flag := Cell(cells, 5);
    Enrichment(Cell(cells, 1), Cell(cells, 2), Cell(cells, 3), Cell(cells, 4),
               if flag.Some? then Some(host.lower(flag.value) in {"true", "1", "yes"}) else None)
  }

  function RowOfCells(host: Host, cells: seq<string>): (row: Row)
    requires cells != []
    ensures row.HoldsBlock()
  {
    if host.lower(cells[0]) == "network" then Ignored
    else
      var v6 := ':' in cells[0];
      var r := if v6 then ParseCidr6(host, cells[0]) else ParseCidr(host, cells[0]);
      if r.None? then Malformed
      else if v6 then Row6(Range(r.value, DataOf(host, cells)))
      else Row4(Range(r.value, DataOf(host, cells)))
  }

  function RowOf(host: Host, rawLine: string): (row: Row)
    ensures row.HoldsBlock()
  {
    var line := Trim(rawLine);
    if line == "" || line[0] == '#' then Ignored
    else RowOfCells(host, Map(Trim, Split(line, ',')))
  }

  /** Every row is the block of some base address in its family. */
  ghost predicate Blocks(width: nat, rows: seq<Range>) {
    forall i :: 0 <= i < |rows| ==> IsBlock(width, rows[i].block)
  }

  function Rows4(host: Host, lines: seq<string>): (rows: seq<Range>)
    ensures Blocks(32, rows)
  {
    if lines == [] then []
    else
      var row := RowOf(host, lines[|lines| - 1]);
      Rows4(host, lines[..|lines| - 1]) + (if row.Row4? then [row.range] else [])
  }

  function Rows6(host: Host, lines: seq<string>): (rows: seq<Range>)
    ensures Blocks(128, rows)
  {
    if lines == [] then []
    else
      var row := RowOf(host, lines[|lines| - 1]);
      Rows6(host, lines[..|lines| - 1]) + (if row.Row6? then [row.range] else [])
  }

  function SkippedIn(host: Host, lines: seq<string>): nat {
    if lines == [] then 0
    else SkippedIn(host, lines[..|lines| - 1]) + (if RowOf(host, lines[|lines| - 1]).Malformed? then 1 else 0)
  }

  predicate ByStart(a: Range, b: Range) {
    a.block.start < b.block.start || (a.block.start == b.block.start && a.block.end <= b.block.end)
  }

  /** The scan result: a matching row replaces the best one only when its prefix is longer. */
  function Best(rows: seq<Range>, n: nat): Option<Range> {
    if rows == [] then None
    else
      var best := Best(rows[..|rows| - 1], n);
      var r := rows[|rows| - 1];
      if Contains(r.block, n) && (best.None? || r.block.prefix > best.value.block.prefix) then Some(r) else best
  }

  /** The loop of both look-ups, with its early exit. */
  method Scan(ranges: seq<Range>, n: nat) returns (best: Option<Range>)
    requires Sorted(ByStart, ranges)
    ensures best == Best(ranges, n)
  {
    best := None;
    for i := 0 to |ranges|
      invariant best == Best(ranges[..i], n)
    {
      var r := ranges[i];
      if r.block.start > n {
        assert forall j :: i <= j < |ranges| ==> ranges[j].block.start > n by {
          assert forall j :: i < j < |ranges| ==> ByStart(ranges[i], ranges[j]);
        }
        NothingBeyond(ranges, n, i);
        break;
      }
      assert ranges[..i + 1][..i] == ranges[..i];
      if n <= r.block.end && (best.None? || r.block.prefix > best.value.block.prefix) {
        best := Some(r);
      }
    }
    assert best == Best(ranges, n) by { assert ranges[..|ranges|] == ranges; }
  }

  lemma {:induction false} NothingBeyond(rows: seq<Range>, n: nat, i: nat)
    requires i <= |rows| && forall j :: i <= j < |rows| ==> rows[j].block.start > n
    ensures Best(rows, n) == Best(rows[..i], n)
  {
    if i < |rows| {
      NothingBeyond(rows[..|rows| - 1], n, i);
      assert rows[..|rows| - 1][..i] == rows[..i];
    } else {
      assert rows[..i] == rows;
    }
  }

  method ReadRows(host: Host, lines: seq<string>) returns (ranges: seq<Range>, ranges6: seq<Range>, skipped: nat)
    ensures ranges == Rows4(host, lines) && ranges6 == Rows6(host, lines) && skipped == SkippedIn(host, lines)
  {
    hide RowOf;
    ranges, ranges6, skipped := [], [], 0;
    for i := 0 to |lines|
      invariant ranges == Rows4(host, lines[..i])
      invariant ranges6 == Rows6(host, lines[..i])
      invariant skipped == SkippedIn(host, lines[..i])
    {
      assert lines[..i + 1][..i] == lines[..i];
      var row := RowOf(host, lines[i]);
      if row.Row4? {
        ranges := ranges + [row.range];
      } else if row.Row6? {
        ranges6 := ranges6 + [row.range];
      } else if row.Malformed? {
        skipped := skipped + 1;
      }
    }
    assert lines[..|lines|] == lines;
  }

  class IpEnrichmentDataset {
    const ranges: seq<Range>
    const ranges6: seq<Range>
    const skipped: nat
    const size: nat

    constructor (host: Host, text: string)
      ensures Holds(host, text)
    {
      var rows, rows6, bad := ReadRows(host, Split(text, '\n'));
      ranges := Sort(ByStart, rows);
      ranges6 := Sort(ByStart, rows6);
      skipped := bad;
      size := |rows| + |rows6|;
    }

    /** The dataset was built from this text. */
    ghost predicate Holds(host: Host, text: string) {
      var lines := Split(text, '\n');
      && ranges == Sort(ByStart, Rows4(host, lines)) && ranges6 == Sort(ByStart, Rows6(host, lines))
      && skipped == SkippedIn(host, lines) && size == |ranges| + |ranges6|
    }

    method Lookup(ip: string, ghost host: Host, ghost text: string) returns (r: Option<Enrichment>)
      requires Holds(host, text)
      ensures r == Expected(host, text, ip)
    {
      hide Best, Sort, Rows4, Rows6, Ipv4Value, Ipv6Value, Split, Blocks;
      SortedByStart(Rows4(host, Split(text, '\n')));
      SortedByStart(Rows6(host, Split(text, '\n')));
      if ':' in ip {
        var n := ParseIpv6(ip);
        if n.None? { return None; }
        var best := Scan(ranges6, n.value);
        BestOfSorted(128, Rows6(host, Split(text, '\n')), n.value);
        return if best.Some? then Some(best.value.data) else None;
      } else {
        var n := ParseIpv4(ip);
        if n.None? { return None; }
        var best := Scan(ranges, n.value);
        BestOfSorted(32, Rows4(host, Split(text, '\n')), n.value);
        return if best.Some? then Some(best.value.data) else None;
      }
    }
  }

  /** What a look-up must answer: the result of a complete scan in file order. */
  function Expected(host: Host, text: string, ip: string): Option<Enrichment> {
    var lines := Split(text, '\n');
    var v6 := ':' in ip;
    var n := if v6 then Ipv6Value(ip) else Ipv4Value(ip);
    if n.None? then None
    else
      var best := Best(if v6 then Rows6(host, lines) else Rows4(host, lines), n.value);
      if best.Some? then Some(best.value.data) else None
  }

  lemma SortedByStart(rows: seq<Range>)
    ensures Sorted(ByStart, Sort(ByStart, rows))
  {
    SortSorted(ByStart, rows);
  }

  // ----- The order of the scan does not matter -----

  /** One row in front of an already scanned rest: it wins ties, being earlier. */
  function Prefer(r: Range, rest: Option<Range>, n: nat): Option<Range> {
    if Contains(r.block, n) && (rest.None? || r.block.prefix >= rest.value.block.prefix) then Some(r) else rest
  }

  lemma {:induction false} BestFromFront(r: Range, rest: seq<Range>, n: nat)
    ensures Best([r] + rest, n) == Prefer(r, Best(rest, n), n)
  {
    var rows := [r] + rest;
    if rest == [] {
      assert rows[..0] == [];
    } else {
      var k := |rest| - 1;
      assert rows[..|rows| - 1] == [r] + rest[..k];
      BestFromFront(r, rest[..k], n);
    }
  }

  /** Rows of one prefix length that share an address are the same block. */
  lemma SamePrefixSameBlock(width: nat, a: Block, b: Block, n: nat)
    requires IsBlock(width, a) && IsBlock(width, b) && a.prefix == b.prefix && Contains(a, n) && Contains(b, n)
    ensures a == b
  {
    var x: nat :| a == BlockOf(width, x, a.prefix);
    var y: nat :| b == BlockOf(width, y, b.prefix);
    BlockIsPrefix(width, x, a.prefix, n);
    BlockIsPrefix(width, y, b.prefix, n);
  }

  lemma PreferSwap(width: nat, a: Range, b: Range, rest: Option<Range>, n: nat)
    requires IsBlock(width, a.block) && IsBlock(width, b.block) && a.block != b.block
    ensures Prefer(a, Prefer(b, rest, n), n) == Prefer(b, Prefer(a, rest, n), n)
  {
    if a.block.prefix == b.block.prefix && Contains(a.block, n) && Contains(b.block, n) {
      SamePrefixSameBlock(width, a.block, b.block, n);
    }
  }

  lemma {:induction false} BestOfInsert(width: nat, r: Range, s: seq<Range>, n: nat)
    requires IsBlock(width, r.block) && Blocks(width, s)
    ensures Best(Insert(ByStart, r, s), n) == Prefer(r, Best(s, n), n)
  {
    if s == [] || ByStart(r, s[0]) {
      BestFromFront(r, s, n);
    } else {
      var rest := s[1..];
      assert s == [s[0]] + rest;
      BestOfInsert(width, r, rest, n);
      BestFromFront(s[0], Insert(ByStart, r, rest), n);
      BestFromFront(s[0], rest, n);
      PreferSwap(width, s[0], r, Best(rest, n), n);
    }
  }

  /** Sorting the rows never changes the answer, because blocks nest or are disjoint. */
  lemma {:induction false} BestOfSorted(width: nat, rows: seq<Range>, n: nat)
    requires Blocks(width, rows)
    ensures Best(Sort(ByStart, rows), n) == Best(rows, n)
  {
    if rows != [] {
      var rest := rows[1..];
      assert rows == [rows[0]] + rest;
      BestOfSorted(width, rest, n);
      SortedBlocks(width, rest);
      BestOfInsert(width, rows[0], Sort(ByStart, rest), n);
      BestFromFront(rows[0], rest, n);
    }
  }

  lemma SortedBlocks(width: nat, rows: seq<Range>)
    requires Blocks(width, rows)
    ensures Blocks(width, Sort(ByStart, rows))
  {
    var sorted := Sort(ByStart, rows);
    SortMembers(ByStart, rows);
    forall i | 0 <= i < |sorted| ensures IsBlock(width, sorted[i].block) {
      assert sorted[i] in rows;
    }
  }

  /** Row `i` is the earliest of those with the longest prefix among the rows that contain `n`. */
  ghost predicate LongestMatch(rows: seq<Range>, n: nat, i: nat) {
    && i < |rows| && Contains(rows[i].block, n)
    && forall j :: 0 <= j < |rows| && Contains(rows[j].block, n) ==>
         rows[j].block.prefix <= rows[i].block.prefix && (j < i ==> rows[j].block.prefix < rows[i].block.prefix)
  }

  lemma LastStaysBehind(rows: seq<Range>, n: nat, i: nat)
    requires rows != [] && LongestMatch(rows[..|rows| - 1], n, i)
    requires var r := rows[|rows| - 1]; !Contains(r.block, n) || r.block.prefix <= rows[i].block.prefix
    ensures LongestMatch(rows, n, i)
  {
    hide Contains;
    forall j | 0 <= j < |rows| && Contains(rows[j].block, n)
      ensures rows[j].block.prefix <= rows[i].block.prefix && (j < i ==> rows[j].block.prefix < rows[i].block.prefix)
    {
      if j < |rows| - 1 {
        assert rows[..|rows| - 1][j] == rows[j];
      }
    }
  }

  lemma LastTakesOver(rows: seq<Range>, n: nat)
    requires rows != [] && Contains(rows[|rows| - 1].block, n)
    requires forall j :: 0 <= j < |rows| - 1 && Contains(rows[j].block, n) ==>
      rows[j].block.prefix < rows[|rows| - 1].block.prefix
    ensures LongestMatch(rows, n, |rows| - 1)
  {
    hide Contains;
  }

  /** The scan answers with the longest matching prefix, the earliest row winning ties, or with nothing. */
  lemma {:induction false} BestIsLongestMatch(rows: seq<Range>, n: nat)
    ensures Best(rows, n).None? <==> forall j :: 0 <= j < |rows| ==> !Contains(rows[j].block, n)
    ensures Best(rows, n).Some? ==> exists i: nat :: LongestMatch(rows, n, i) && rows[i] == Best(rows, n).value
  {
    hide Contains;
    if rows != [] {
      var init, last := rows[..|rows| - 1], rows[|rows| - 1];
      BestIsLongestMatch(init, n);
      assert forall j :: 0 <= j < |init| ==> init[j] == rows[j];
      if Best(init, n).Some? {
        var i: nat :| LongestMatch(init, n, i) && init[i] == Best(init, n).value;
        if Contains(last.block, n) && last.block.prefix > init[i].block.prefix {
          LastTakesOver(rows, n);
        } else {
          LastStaysBehind(rows, n, i);
        }
      } else if Contains(last.block, n) {
        LastTakesOver(rows, n);
      }
    }
  }

  /** The lines that are neither blank, comment nor header. */
  function DataLines(host: Host, lines: seq<string>): nat {
    if lines == [] then 0
    else DataLines(host, lines[..|lines| - 1]) + (if RowOf(host, lines[|lines| - 1]).Ignored? then 0 else 1)
  }

  /** Every data line is a row of exactly one family or is counted as skipped. */
  lemma {:induction false} RowsConserved(host: Host, lines: seq<string>)
    ensures |Rows4(host, lines)| + |Rows6(host, lines)| + SkippedIn(host, lines) == DataLines(host, lines)
  {
    if lines != [] {
      RowsConserved(host, lines[..|lines| - 1]);
    }
  }
}
