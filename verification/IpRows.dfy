/**
 * What the lines of an enrichment file say (enrich/ip-dataset.ts): which cell becomes
 * which field, which lines are passed over, and what a look-up in one line answers.
 */
module IpRows {
  import opened Prelude
  import opened Text
  import opened IpText
  import opened IpDataset

  /** A cell as it stands between two commas of one line, without outer white space. */
  predicate CleanCell(c: string) {
    ',' !in c && '\n' !in c && Trim(c) == c
  }

  /** At least one cell, and not a blank line. */
  predicate CleanCells(cells: seq<string>) {
    cells != [] && cells != [""] && forall i :: 0 <= i < |cells| ==> CleanCell(cells[i])
  }

  /** The text of column `i`, unless it is missing or empty. */
  function Column(cells: seq<string>, i: nat): Option<string> {
    if i >= |cells| || cells[i] == "" then None else Some(cells[i])
  }

  /** The columns by their names in the header: network, country, city, asn, org, hosting. */
  predicate Names(host: Host, cells: seq<string>, data: Enrichment) {
    && data.country == Column(cells, 1)
    && data.city == Column(cells, 2)
    && data.asn == Column(cells, 3)
    && data.org == Column(cells, 4)
    && (data.hosting.Some? <==> Column(cells, 5).Some?)
    && (data.hosting == Some(true) <==> |cells| > 5 && host.lower(cells[5]) in {"true", "1", "yes"} && cells[5] != "")
  }

  lemma TrimmedText(s: string)
    requires s != "" && !IsSpace(s[0]) && !IsSpace(s[|s| - 1])
    ensures Trim(s) == s
  {
    TrimPadded("", s, "");
    assert "" + s + "" == s;
  }

  lemma TrimmedCell(c: string)
    requires c != "" && Trim(c) == c
    ensures !IsSpace(c[0]) && !IsSpace(c[|c| - 1])
  {
    hide IsSpace;
    assert |TrimStart(c)| == |c|;
  }

  /** A line of clean cells has no outer white space. */
  lemma LineIsTrimmed(cells: seq<string>)
    requires CleanCells(cells)
    ensures var line := Join(cells, ',');
            line != "" && line[0] == (if cells[0] == "" then ',' else cells[0][0]) && Trim(line) == line
  {
    hide IsSpace, Trim, CleanCell;
    var line, n := Join(cells, ','), |cells| - 1;
    FirstOfLine(cells);
    if n > 0 {
      assert cells == cells[..n] + [cells[n]];
      JoinAppend(cells[..n], ',', [cells[n]]);
    }
    LastOfLine(cells, line);
    TrimmedText(line);
  }

  lemma FirstOfLine(cells: seq<string>)
    requires CleanCells(cells)
    ensures var line := Join(cells, ',');
            line != "" && line[0] == (if cells[0] == "" then ',' else cells[0][0]) && !IsSpace(line[0])
  {
    hide IsSpace, Trim;
    CommaIsNoSpace();
    if cells[0] != "" {
      TrimmedCell(cells[0]);
      JoinStarts(cells);
    }
  }

  lemma JoinStarts(cells: seq<string>)
    requires cells != [] && cells[0] != ""
    ensures Join(cells, ',') != "" && Join(cells, ',')[0] == cells[0][0]
  {
  }

  lemma CommaIsNoSpace()
    ensures !IsSpace(',')
  {
  }

  lemma LastOfLine(cells: seq<string>, line: string)
    requires CleanCells(cells)
    requires |cells| == 1 ==> line == cells[0]
    requires |cells| > 1 ==> line == Join(cells[..|cells| - 1], ',') + "," + cells[|cells| - 1]
    ensures line != "" && !IsSpace(line[|line| - 1])
  {
    hide IsSpace, Trim, Join;
    var last := cells[|cells| - 1];
    CommaIsNoSpace();
    if last != "" {
      TrimmedCell(last);
    }
  }

  /** The cells of a line of clean cells. */
  lemma CellsOfLine(cells: seq<string>)
    requires CleanCells(cells)
    ensures Map(Trim, Split(Join(cells, ','), ',')) == cells
  {
    hide Trim, Join, Split;
    SplitJoin(cells, ',');
  }

  /**
   * A line of clean cells that is no comment and no header is a row of the family of its
   * network cell, or malformed, and every field of the row is the column of that name.
   */
  lemma LineReads(host: Host, cells: seq<string>)
    requires CleanCells(cells) && !("#" <= cells[0]) && host.lower(cells[0]) != "network"
    ensures var row := RowOf(host, Join(cells, ','));
            if ':' in cells[0] then
              var r := ParseCidr6(host, cells[0]);
              if r.None? then row == Malformed
              else row.Row6? && row.range.block == r.value && Names(host, cells, row.range.data)
            else
              var r := ParseCidr(host, cells[0]);
              if r.None? then row == Malformed
              else row.Row4? && row.range.block == r.value && Names(host, cells, row.range.data)
  {
    hide Trim, Join, Split, ParseCidr, ParseCidr6, IsBlock;
    LineIsTrimmed(cells);
    CellsOfLine(cells);
  }

  /** A line whose first cell is the word of the header, in any case, is passed over. */
  lemma HeaderIgnored(host: Host, cells: seq<string>)
    requires CleanCells(cells) && host.lower(cells[0]) == "network"
    ensures RowOf(host, Join(cells, ',')) == Ignored
  {
    hide Trim, Join, Split, ParseCidr, ParseCidr6, IsBlock;
    LineIsTrimmed(cells);
    CellsOfLine(cells);
  }

  /** So is a blank line. */
  lemma BlankIgnored(host: Host, line: string)
    requires AllSpace(line)
    ensures RowOf(host, line) == Ignored
  {
    hide RowOfCells;
    TrimStartPadded(line, "");
    assert line + "" == line;
  }

  /** And a line whose first character behind white space is a number sign. */
  lemma CommentIgnored(host: Host, pad: string, comment: string)
    requires AllSpace(pad)
    ensures RowOf(host, pad + "#" + comment) == Ignored
  {
    hide RowOfCells, IsSpace;
    var s := "#" + comment;
    assert pad + "#" + comment == pad + s;
    NumberSign();
    TrimStartPadded(pad, s);
    assert s[..1] == "#";
    KeptInFront(s);
  }

  lemma NumberSign()
    ensures !IsSpace('#')
  {
  }

  lemma {:induction false} KeptInFront(s: string)
    requires s != "" && !IsSpace(s[0])
    ensures TrimEnd(s) != "" && TrimEnd(s)[0] == s[0]
  {
    if IsSpace(s[|s| - 1]) {
      KeptInFront(s[..|s| - 1]);
    }
  }

  /** Lines may end with a carriage return. */
  lemma ReturnIgnored(host: Host, line: string)
    ensures RowOf(host, line + "\r") == RowOf(host, line)
  {
    hide RowOfCells;
    TrimReturn(line);
  }

  lemma {:induction false} TrimReturn(line: string)
    ensures Trim(line + "\r") == Trim(line)
  {
    if line == "" {
      assert "" + "\r" == "\r" && "\r"[1..] == "";
    } else if IsSpace(line[0]) {
      assert (line + "\r")[1..] == line[1..] + "\r";
      TrimReturn(line[1..]);
    } else {
      assert (line + "\r")[..|line|] == line;
    }
  }

  /** A look-up in a file of one line answers with the fields of that line exactly inside its network. */
  lemma OneLineLookup(host: Host, cells: seq<string>, ip: string)
    requires CleanCells(cells) && !("#" <= cells[0]) && host.lower(cells[0]) != "network"
    ensures var v6 := ':' in cells[0];
            var block := if v6 then ParseCidr6(host, cells[0]) else ParseCidr(host, cells[0]);
            var n := if v6 then Ipv6Value(ip) else Ipv4Value(ip);
            var found := Expected(host, Join(cells, ','), ip);
            && (found.Some? <==> v6 == (':' in ip) && block.Some? && n.Some? && Contains(block.value, n.value))
            && (found.Some? ==> Names(host, cells, found.value))
  {
    hide RowOf, Join, ParseCidr, ParseCidr6, Ipv4Value, Ipv6Value, Names, IsBlock, Blocks, Trim;
    var line := Join(cells, ',');
    LineReads(host, cells);
    NoLineBreak(cells);
    SplitPlain(line, '\n');
    OneRow(host, line);
    var row := RowOf(host, line);
    hide Best, Contains;
    var n := if ':' in ip then Ipv6Value(ip) else Ipv4Value(ip);
    if n.Some? && (row.Row4? || row.Row6?) {
      BestOfOne(row.range, n.value);
    }
    BestOfNone(if n.Some? then n.value else 0);
  }

  lemma BestOfNone(n: nat)
    ensures Best([], n) == None
  {
  }

  lemma BestOfOne(r: Range, n: nat)
    ensures Best([r], n) == if Contains(r.block, n) then Some(r) else None
  {
    assert [r][..0] == [];
  }

  lemma {:induction false} NoLineBreak(cells: seq<string>)
    requires forall i :: 0 <= i < |cells| ==> '\n' !in cells[i]
    ensures '\n' !in Join(cells, ',')
    decreases |cells|
  {
    if |cells| > 1 {
      NoLineBreak(cells[1..]);
    }
  }

  lemma OneRow(host: Host, line: string)
    ensures var row := RowOf(host, line);
            && Rows4(host, [line]) == (if row.Row4? then [row.range] else [])
            && Rows6(host, [line]) == (if row.Row6? then [row.range] else [])
  {
    hide RowOf, Blocks;
    assert [line][..0] == [];
    assert Rows4(host, []) == [] && Rows6(host, []) == [];
  }
}
