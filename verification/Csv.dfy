/** The comma-separated files of rapidcsv with its default parameters: the character-by-character parser, the
    writer, and exactly which tables survive being written and read back. */
module Csv {
  type Row = seq<string>

  const SEPARATOR := ','
  const QUOTE := '"'

  // ---- replacing and quoting ----

  // Every occurrence of `search`, from the left and not overlapping, replaced.
  function Replaced(s: string, search: string, replacement: string): string
    requires search != []
  {
    if s == [] then []
    else if search <= s then replacement + Replaced(s[|search|..], search, replacement)
    else [s[0]] + Replaced(s[1..], search, replacement)
  }

  function Doubled(s: string): string { Replaced(s, [QUOTE], [QUOTE, QUOTE]) }

  function Undoubled(s: string): string { Replaced(s, [QUOTE, QUOTE], [QUOTE]) }

  // Takes the quotes around a cell away, if it has them.
  function Unquote(s: string): string {
    if |s| >= 2 && s[0] == QUOTE && s[|s| - 1] == QUOTE then Undoubled(s[1..|s| - 1]) else s
  }

  predicate NeedsQuotes(cell: string) {
    SEPARATOR in cell || ' ' in cell
  }

  function Printed(cell: string): string {
    if NeedsQuotes(cell) then [QUOTE] + Doubled(cell) + [QUOTE] else cell
  }

  /** Exactly the cells with a comma or a space are printed otherwise than they are: in quotes, theirs doubled. */
  lemma PrintedIff(cell: string)
    ensures Printed(cell) != cell <==> ',' in cell || ' ' in cell
    ensures Printed(cell) != cell ==> Printed(cell) == "\"" + Doubled(cell) + "\""
    ensures |Doubled(cell)| == |cell| + Quotes(cell)
  {
    DoubledLength(cell);
    hide Doubled;
  }

  function Quotes(s: string): nat {
    if s == [] then 0 else (if s[0] == '"' then 1 else 0) + Quotes(s[1..])
  }

  lemma {:induction false} DoubledLength(s: string)
    ensures |Doubled(s)| == |s| + Quotes(s)
    decreases s
  {
    if s == [] {
    } else {
      DoubledLength(s[1..]);
    }
  }

  function RowText(row: Row): string {
    if row == [] then []
    else if |row| == 1 then Printed(row[0])
    else Printed(row[0]) + [SEPARATOR] + RowText(row[1..])
  }

  function LineEnd(hasCR: bool): string {
    if hasCR then ['\r', '\n'] else ['\n']
  }

  function Text(table: seq<Row>, hasCR: bool): string {
    if table == [] then [] else RowText(table[0]) + LineEnd(hasCR) + Text(table[1..], hasCR)
  }

  // ---- the parser ----

  datatype Scan = Scan(data: seq<Row>, row: Row, cell: string, quoted: bool, cr: nat, lf: nat)

  const START := Scan([], [], [], false, 0, 0)

  function Feed(s: Scan, ch: char): Scan {
    if ch == QUOTE then
      s.(cell := s.cell + [ch], quoted := if s.cell == [] || s.cell[0] == QUOTE then !s.quoted else s.quoted)
    else if ch == SEPARATOR && !s.quoted then s.(row := s.row + [Unquote(s.cell)], cell := [])
    else if ch == '\r' then s.(cr := s.cr + 1)
    else if ch == '\n' then
      s.(lf := s.lf + 1, data := s.data + [s.row + [Unquote(s.cell)]], cell := [], row := [], quoted := false)
    else s.(cell := s.cell + [ch])
  }

  function FeedAll(s: Scan, text: string): Scan
    decreases text
  {
    if text == [] then s else FeedAll(Feed(s, text[0]), text[1..])
  }

  // The table and the CR flag; a last line without a line end counts.
  function Finish(s: Scan): (seq<Row>, bool) {
    (if s.cell != [] || s.row != [] then s.data + [s.row + [Unquote(s.cell)]] else s.data, s.cr > s.lf / 2)
  }

  function Parsed(text: string): (seq<Row>, bool) {
    Finish(FeedAll(START, text))
  }

  lemma {:induction false} FeedAppend(s: Scan, a: string, b: string)
    ensures FeedAll(s, a + b) == FeedAll(FeedAll(s, a), b)
    decreases a
  {
    if a == [] {
      assert a + b == b;
    } else {
      assert (a + b)[1..] == a[1..] + b;
      hide Feed;
      FeedAppend(Feed(s, a[0]), a[1..], b);
    }
  }

  // ---- cells ----

  predicate Unbroken(s: string) {
    '\r' !in s && '\n' !in s
  }

  // An odd number of quotes.
  predicate OddQuotes(s: string) {
    if s == [] then false else OddQuotes(s[..|s| - 1]) != (s[|s| - 1] == QUOTE)
  }

  // The parser is inside quotes after these characters of a cell.
  predicate Inside(cell: string) {
    cell != [] && cell[0] == QUOTE && OddQuotes(cell)
  }

  lemma InsideSnoc(p: string, ch: char)
    ensures Inside(p + [ch]) == if ch == QUOTE && (p == [] || p[0] == QUOTE) then !Inside(p) else Inside(p)
  {
    assert (p + [ch])[..|p|] == p;
    if p == [] {
      assert !OddQuotes(p);
    }
  }

  lemma {:induction false} PlainFeed(s: Scan, w: string)
    requires s.quoted == Inside(s.cell) && Unbroken(w) && SEPARATOR !in w
    ensures FeedAll(s, w) == s.(cell := s.cell + w, quoted := Inside(s.cell + w))
    decreases w
  {
    hide Inside;
    if w == [] {
      assert s.cell + w == s.cell;
    } else {
      InsideSnoc(s.cell, w[0]);
      assert s.cell + w == (s.cell + [w[0]]) + w[1..];
      assert forall ch :: ch in w[1..] ==> ch in w;
      assert w[0] in w;
      PlainFeed(Feed(s, w[0]), w[1..]);
    }
  }

  lemma DoubledStep(c: string)
    requires c != []
    ensures Doubled(c) == (if c[0] == QUOTE then [QUOTE, QUOTE] else [c[0]]) + Doubled(c[1..])
  {
    assert [QUOTE] <= c <==> c[0] == QUOTE;
  }

  lemma FeedOne(s: Scan, ch: char)
    ensures FeedAll(s, [ch]) == Feed(s, ch)
  {
    assert FeedAll(Feed(s, ch), []) == Feed(s, ch);
  }

  lemma FeedTwo(s: Scan, a: char, b: char)
    ensures FeedAll(s, [a, b]) == Feed(Feed(s, a), b)
  {
    FeedAppend(s, [a], [b]);
    FeedOne(s, a);
    FeedOne(Feed(s, a), b);
    assert [a, b] == [a] + [b];
  }

  lemma QuotedStep(s: Scan, ch: char)
    requires s.quoted && s.cell != [] && s.cell[0] == QUOTE && ch != '\r' && ch != '\n'
    ensures var first := if ch == QUOTE then [QUOTE, QUOTE] else [ch];
      FeedAll(s, first) == s.(cell := s.cell + first)
  {
    if ch == QUOTE {
      FeedTwo(s, QUOTE, QUOTE);
      assert (s.cell + [QUOTE]) + [QUOTE] == s.cell + [QUOTE, QUOTE];
    } else {
      FeedOne(s, ch);
    }
  }

  lemma QuotedNone(s: Scan)
    ensures FeedAll(s, Doubled([])) == s.(cell := s.cell + Doubled([]))
  {
    assert s.cell + [] == s.cell;
  }

  lemma UnbrokenStep(c: string)
    requires c != [] && Unbroken(c)
    ensures Unbroken(c[1..]) && c[0] != '\r' && c[0] != '\n'
  {
    assert c[0] in c && forall ch :: ch in c[1..] ==> ch in c;
  }

  // Inside quotes the parser takes everything but line breaks into the cell.
  lemma {:induction false} QuotedFeed(s: Scan, c: string)
    requires s.quoted && s.cell != [] && s.cell[0] == QUOTE && Unbroken(c)
    ensures FeedAll(s, Doubled(c)) == s.(cell := s.cell + Doubled(c))
    decreases c
  {
    hide *;
    if c == [] {
      QuotedNone(s);
    } else {
      DoubledStep(c);
      UnbrokenStep(c);
      var first := if c[0] == QUOTE then [QUOTE, QUOTE] else [c[0]];
      FeedAppend(s, first, Doubled(c[1..]));
      QuotedStep(s, c[0]);
      var s' := s.(cell := s.cell + first);
      QuotedFeed(s', c[1..]);
      assert s.cell + (first + Doubled(c[1..])) == s'.cell + Doubled(c[1..]);
    }
  }

  lemma {:induction false} UndoubleDoubled(c: string)
    ensures Undoubled(Doubled(c)) == c
    decreases c
  {
    if c == [] {
    } else {
      DoubledStep(c);
      UndoubleDoubled(c[1..]);
      var d := Doubled(c);
      if c[0] == QUOTE {
        assert [QUOTE, QUOTE] <= d && d[2..] == Doubled(c[1..]);
      } else {
        assert !([QUOTE, QUOTE] <= d) && d[1..] == Doubled(c[1..]);
      }
    }
  }

  // A printed cell that needs quotes comes back whole, whatever it contains but line breaks.
  lemma QuotedCell(s: Scan, c: string)
    requires s.cell == [] && !s.quoted && Unbroken(c)
    ensures FeedAll(s, [QUOTE] + Doubled(c) + [QUOTE]) == s.(cell := [QUOTE] + Doubled(c) + [QUOTE])
    ensures Unquote([QUOTE] + Doubled(c) + [QUOTE]) == c
  {
    UndoubleDoubled(c);
    var d := Doubled(c);
    hide Doubled, Undoubled;
    var all := [QUOTE] + d + [QUOTE];
    assert all[1..|all| - 1] == d;
    FeedAppend(s, [QUOTE] + d, [QUOTE]);
    FeedAppend(s, [QUOTE], d);
    var s1 := s.(cell := [QUOTE], quoted := true);
    assert s.cell + [QUOTE] == [QUOTE];
    FeedOne(s, QUOTE);
    QuotedFeed(s1, c);
    FeedOne(s1.(cell := s1.cell + d), QUOTE);
  }

  // ---- rows ----

  /** A cell that comes back: one that needs quotes always does; one that does not must not begin with a quote,
      unless it does not also end with one and, before another cell, has an even number of them. */
  predicate Good(cell: string, last: bool) {
    || ',' in cell || ' ' in cell
    || cell == [] || cell[0] != QUOTE
    || (!(|cell| >= 2 && cell[|cell| - 1] == QUOTE) && (last || !OddQuotes(cell)))
  }

  predicate AllUnbroken(row: Row) {
    forall i :: 0 <= i < |row| ==> Unbroken(row[i])
  }

  predicate GoodCells(row: Row) {
    forall i :: 0 <= i < |row| ==> Good(row[i], i == |row| - 1)
  }

  predicate GoodRow(row: Row) {
    row != [] && GoodCells(row)
  }

  // The row the parser has collected when the line ends.
  function Collected(s: Scan): Row {
    s.row + [Unquote(s.cell)]
  }

  // A printed cell in a fresh state: the state after it, and what it would be read back as.
  lemma CellFeed(s: Scan, c: string)
    requires s.cell == [] && !s.quoted && Unbroken(c)
    ensures FeedAll(s, Printed(c)) == s.(cell := Printed(c), quoted := !NeedsQuotes(c) && Inside(c))
    ensures NeedsQuotes(c) ==> Unquote(Printed(c)) == c
  {
    if NeedsQuotes(c) {
      QuotedCell(s, c);
    } else {
      assert [] + c == c;
      PlainFeed(s, c);
    }
    hide Doubled, Unquote, Inside, FeedAll, Unbroken;
  }

  // A cell that does not need quotes is read back as itself unless it stands in quotes.
  lemma PlainUnquote(c: string)
    ensures Unquote(c) == c <==> !(|c| >= 2 && c[0] == QUOTE && c[|c| - 1] == QUOTE)
    ensures !(|c| >= 2 && c[0] == QUOTE && c[|c| - 1] == QUOTE) || |Unquote(c)| < |c|
  {
    if |c| >= 2 && c[0] == QUOTE && c[|c| - 1] == QUOTE {
      UndoubledShrinks(c[1..|c| - 1]);
    }
    hide Undoubled;
  }

  lemma {:induction false} UndoubledShrinks(s: string)
    ensures |Undoubled(s)| <= |s|
    decreases s
  {
    if s == [] {
    } else {
      if [QUOTE, QUOTE] <= s {
        UndoubledShrinks(s[2..]);
      } else {
        UndoubledShrinks(s[1..]);
      }
    }
  }

  // A separator survives unquoting.
  lemma {:induction false} UndoubledKeeps(s: string, ch: char)
    requires ch in s && ch != QUOTE
    ensures ch in Undoubled(s)
    decreases s
  {
    if [QUOTE, QUOTE] <= s {
      assert s == [QUOTE, QUOTE] + s[2..];
      assert ch in s[2..];
      UndoubledKeeps(s[2..], ch);
    } else if s[0] != ch {
      assert s == [s[0]] + s[1..];
      UndoubledKeeps(s[1..], ch);
    }
  }

  lemma UnquoteKeeps(s: string, ch: char)
    requires ch in s && ch != QUOTE
    ensures ch in Unquote(s)
  {
    if |s| >= 2 && s[0] == QUOTE && s[|s| - 1] == QUOTE {
      assert s == [QUOTE] + s[1..|s| - 1] + [QUOTE];
      UndoubledKeeps(s[1..|s| - 1], ch);
    }
    hide Undoubled;
  }

  // Once a cell has swallowed a separator, whatever follows on the line, the cell read contains it.
  predicate HasSwallowed(s: Scan, n: nat) {
    if |s.row| == n then SEPARATOR in s.cell
    else |s.row| > n && SEPARATOR in s.row[n]
  }

  lemma {:induction false} SwallowedStays(s: Scan, n: nat, w: string)
    requires HasSwallowed(s, n) && '\n' !in w
    ensures HasSwallowed(FeedAll(s, w), n)
    decreases w
  {
    if w == [] {
    } else {
      assert w[0] in w && forall ch :: ch in w[1..] ==> ch in w;
      SwallowedStep(s, n, w[0]);
      hide Feed, HasSwallowed;
      SwallowedStays(Feed(s, w[0]), n, w[1..]);
    }
  }

  lemma SwallowedStep(s: Scan, n: nat, ch: char)
    requires HasSwallowed(s, n) && ch != '\n'
    ensures HasSwallowed(Feed(s, ch), n)
  {
    if ch == SEPARATOR && !s.quoted && |s.row| == n {
      UnquoteKeeps(s.cell, SEPARATOR);
    }
    hide Unquote;
  }

  lemma SwallowedCollected(s: Scan, n: nat)
    requires HasSwallowed(s, n)
    ensures |Collected(s)| > n && SEPARATOR in Collected(s)[n]
  {
    if |s.row| == n {
      UnquoteKeeps(s.cell, SEPARATOR);
    }
    hide Unquote;
  }

  lemma {:induction false} RowGrows(s: Scan, w: string)
    requires '\n' !in w
    ensures s.row <= FeedAll(s, w).row
    decreases w
  {
    if w == [] {
    } else {
      assert w[0] in w && forall ch :: ch in w[1..] ==> ch in w;
      hide Unquote;
      RowGrows(Feed(s, w[0]), w[1..]);
    }
  }

  lemma {:induction false} PrintedUnbroken(row: Row)
    requires AllUnbroken(row)
    ensures Unbroken(RowText(row))
    decreases row
  {
    if row == [] {
    } else {
      DoubledUnbroken(row[0]);
      if |row| > 1 {
        PrintedUnbroken(row[1..]);
      }
      hide Doubled, NeedsQuotes;
    }
  }

  lemma {:induction false} DoubledUnbroken(c: string)
    requires Unbroken(c)
    ensures Unbroken(Doubled(c))
    decreases c
  {
    if c == [] {
    } else {
      DoubledStep(c);
      UnbrokenStep(c);
      DoubledUnbroken(c[1..]);
    }
  }

  // Whether a cell is read back, in terms of the state after it.
  lemma GoodMeans(c: string, last: bool)
    ensures Good(c, last) <==> Unquote(Printed(c)) == c && (last || NeedsQuotes(c) || !Inside(c))
    ensures Unquote(Printed(c)) == c || !NeedsQuotes(c)
  {
    if NeedsQuotes(c) {
      UndoubleDoubled(c);
      var all := Printed(c);
      assert all[1..|all| - 1] == Doubled(c);
    } else {
      PlainUnquote(c);
    }
    hide Doubled, Undoubled, OddQuotes;
  }

  // The separator after the first cell of a row.
  lemma SeparatorFeed(s: Scan, c: string)
    requires s.cell == [] && !s.quoted && Unbroken(c)
    ensures var s2 := FeedAll(s, Printed(c) + [SEPARATOR]);
      if !NeedsQuotes(c) && Inside(c) then s2.row == s.row && SEPARATOR in s2.cell
      else s2 == s.(row := s.row + [Unquote(Printed(c))])
  {
    CellFeed(s, c);
    FeedAppend(s, Printed(c), [SEPARATOR]);
    FeedOne(FeedAll(s, Printed(c)), SEPARATOR);
    hide Printed, NeedsQuotes, Inside, Unquote, FeedAll;
  }

  lemma {:induction false} RowIff(s: Scan, row: Row)
    requires s.cell == [] && !s.quoted && row != [] && AllUnbroken(row)
    ensures Collected(FeedAll(s, RowText(row))) == s.row + row <==> GoodCells(row)
    decreases row
  {
    var c, rest := row[0], row[1..];
    if |row| == 1 {
      CellFeed(s, c);
      GoodMeans(c, true);
      assert row == [c];
      hide Good, FeedAll, Printed, Unquote, NeedsQuotes, Inside;
      assert GoodCells(row) <==> Good(row[0], true);
      FirstDecides(s.row, Unquote(Printed(c)), c, [], s.row + [Unquote(Printed(c))]);
      assert [c] + [] == [c] && s.row + [Unquote(Printed(c))] + [] == s.row + [Unquote(Printed(c))];
    } else {
      var s2 := FeedAll(s, Printed(c) + [SEPARATOR]);
      var end := FeedAll(s2, RowText(rest));
      SeparatorFeed(s, c);
      GoodMeans(c, false);
      PrintedUnbroken(rest);
      FeedAppend(s, Printed(c) + [SEPARATOR], RowText(rest));
      assert row == [c] + rest;
      assert AllUnbroken(rest);
      assert RowText(row) == Printed(row[0]) + [SEPARATOR] + RowText(row[1..]);
      hide Good, GoodCells, FeedAll, Printed, Unquote, Inside, RowText, HasSwallowed;
      if !NeedsQuotes(c) && Inside(c) {
        SwallowedStays(s2, |s.row|, RowText(rest));
        SwallowedCollected(end, |s.row|);
        assert (s.row + row)[|s.row|] == c;
      } else {
        RowIff(s2, rest);
        RowGrows(s2, RowText(rest));
        FirstDecides(s.row, Unquote(Printed(c)), c, rest, Collected(end));
      }
    }
  }

  lemma FirstDecides(before: Row, read: string, c: string, rest: Row, all: Row)
    requires before + [read] <= all
    ensures all == before + ([c] + rest) <==> read == c && all == before + [read] + rest
  {
    assert all[|before|] == (before + [read])[|before|] == read;
    assert (before + ([c] + rest))[|before|] == c;
    assert before + [c] + rest == before + ([c] + rest);
  }

  // ---- tables ----

  // What a printed row is read back as.
  function ReadBack(row: Row): Row {
    Collected(FeedAll(START, RowText(row)))
  }

  function AllReadBack(table: seq<Row>): (rows: seq<Row>)
    ensures |rows| == |table|
    ensures forall i :: 0 <= i < |rows| ==> rows[i] == ReadBack(table[i])
  {
    seq(|table|, i requires 0 <= i < |table| => ReadBack(table[i]))
  }

  predicate TableUnbroken(table: seq<Row>) {
    forall i :: 0 <= i < |table| ==> AllUnbroken(table[i])
  }

  // The counters and the rows already read play no part in reading a line.
  lemma {:induction false} LineFeed(s: Scan, t: Scan, w: string)
    requires s.row == t.row && s.cell == t.cell && s.quoted == t.quoted && Unbroken(w)
    ensures var a, b := FeedAll(s, w), FeedAll(t, w);
      && a.row == b.row && a.cell == b.cell && a.quoted == b.quoted
      && a.data == s.data && a.cr == s.cr && a.lf == s.lf
    decreases w
  {
    if w == [] {
    } else {
      UnbrokenStep(w);
      hide Unquote;
      LineFeed(Feed(s, w[0]), Feed(t, w[0]), w[1..]);
    }
  }

  // A line, end included, adds one row.
  lemma LineAdds(s: Scan, row: Row, hasCR: bool)
    requires s.row == [] && s.cell == [] && !s.quoted && AllUnbroken(row)
    ensures FeedAll(s, RowText(row) + LineEnd(hasCR))
         == Scan(s.data + [ReadBack(row)], [], [], false, s.cr + (if hasCR then 1 else 0), s.lf + 1)
  {
    var end := FeedAll(s, RowText(row));
    PrintedUnbroken(row);
    LineFeed(s, START, RowText(row));
    FeedAppend(s, RowText(row), LineEnd(hasCR));
    hide RowText, FeedAll, Unquote;
    if hasCR {
      FeedTwo(end, '\r', '\n');
    } else {
      FeedOne(end, '\n');
    }
  }

  lemma {:induction false} TableFeed(s: Scan, table: seq<Row>, hasCR: bool)
    requires s.row == [] && s.cell == [] && !s.quoted && TableUnbroken(table)
    ensures FeedAll(s, Text(table, hasCR))
         == Scan(s.data + AllReadBack(table), [], [], false, s.cr + (if hasCR then |table| else 0), s.lf + |table|)
    decreases table
  {
    hide *;
    if table == [] {
      NoLines(s, hasCR);
    } else {
      var line := RowText(table[0]) + LineEnd(hasCR);
      FirstLine(table, hasCR);
      LineAdds(s, table[0], hasCR);
      FeedAppend(s, line, Text(table[1..], hasCR));
      TableFeed(FeedAll(s, line), table[1..], hasCR);
      assert s.data + [ReadBack(table[0])] + AllReadBack(table[1..]) == s.data + AllReadBack(table);
    }
  }

  lemma NoLines(s: Scan, hasCR: bool)
    ensures FeedAll(s, Text([], hasCR)) == s && s.data + AllReadBack([]) == s.data
  {
  }

  lemma FirstLine(table: seq<Row>, hasCR: bool)
    requires table != [] && TableUnbroken(table)
    ensures Text(table, hasCR) == RowText(table[0]) + LineEnd(hasCR) + Text(table[1..], hasCR)
    ensures AllUnbroken(table[0]) && TableUnbroken(table[1..])
    ensures AllReadBack(table) == [ReadBack(table[0])] + AllReadBack(table[1..])
  {
    hide RowText, LineEnd, ReadBack, AllUnbroken;
  }

  lemma ReadBackIff(row: Row)
    requires AllUnbroken(row)
    ensures ReadBack(row) == row <==> GoodRow(row)
  {
    if row != [] {
      RowIff(START, row);
      assert START.row + row == row;
    }
    hide RowText, FeedAll, Good, Unquote;
  }

  // ---- line breaks never come back ----

  predicate Clean(s: Scan) {
    TableUnbroken(s.data) && AllUnbroken(s.row) && Unbroken(s.cell)
  }

  lemma UnquoteUnbroken(c: string)
    requires Unbroken(c)
    ensures Unbroken(Unquote(c))
  {
    if |c| >= 2 && c[0] == QUOTE && c[|c| - 1] == QUOTE {
      var inner := c[1..|c| - 1];
      assert forall ch :: ch in inner ==> ch in c;
      UndoubledFrom(inner);
    }
    hide Undoubled;
  }

  lemma {:induction false} UndoubledFrom(s: string)
    ensures forall ch :: ch in Undoubled(s) ==> ch in s
    decreases s
  {
    if s == [] {
    } else {
      if [QUOTE, QUOTE] <= s {
        UndoubledFrom(s[2..]);
        assert s[0] == [QUOTE, QUOTE][0] && QUOTE in s && forall ch :: ch in s[2..] ==> ch in s;
      } else {
        UndoubledFrom(s[1..]);
        assert forall ch :: ch in s[1..] ==> ch in s;
      }
    }
  }

  lemma CleanStep(s: Scan, ch: char)
    requires Clean(s)
    ensures Clean(Feed(s, ch))
  {
    UnquoteUnbroken(s.cell);
    hide Unquote;
  }

  lemma {:induction false} CleanAlways(s: Scan, text: string)
    requires Clean(s)
    ensures Clean(FeedAll(s, text))
    decreases text
  {
    if text == [] {
    } else {
      CleanStep(s, text[0]);
      hide Clean, Feed;
      CleanAlways(Feed(s, text[0]), text[1..]);
    }
  }

  lemma ParsedUnbroken(text: string)
    ensures TableUnbroken(Parsed(text).0)
  {
    var s := FeedAll(START, text);
    CleanAlways(START, text);
    UnquoteUnbroken(s.cell);
    hide FeedAll, Unquote, Unbroken;
  }

  // ---- the round trip ----

  predicate GoodTable(table: seq<Row>) {
    TableUnbroken(table) && forall i :: 0 <= i < |table| ==> GoodRow(table[i])
  }

  /** Parsing what was printed gives back the table exactly when no cell holds a line break, no row is empty, and
      every cell that begins with a quote and needs none is one of those the parser leaves alone. */
  lemma RoundTripIff(table: seq<Row>, hasCR: bool)
    ensures Parsed(Text(table, hasCR)).0 == table <==> GoodTable(table)
  {
    hide GoodRow, AllUnbroken, FeedAll, Text, ReadBack;
    if TableUnbroken(table) {
      TableFeed(START, table, hasCR);
      assert START.data + AllReadBack(table) == AllReadBack(table);
      forall i | 0 <= i < |table|
        ensures ReadBack(table[i]) == table[i] <==> GoodRow(table[i])
      {
        ReadBackIff(table[i]);
      }
      assert AllReadBack(table) == table <==> forall i :: 0 <= i < |table| ==> AllReadBack(table)[i] == table[i];
    } else {
      ParsedUnbroken(Text(table, hasCR));
    }
  }

  // ---- a last line without a line end ----

  // Something is left on the last line: a character that is not a carriage return, and no line feed from it on.
  predicate Unfinished(text: string) {
    exists i :: 0 <= i < |text| && text[i] != '\r' && '\n' !in text[i..]
  }

  // The parser has something left.
  predicate Left(s: Scan) {
    s.cell != [] || s.row != []
  }

  lemma UnfinishedSnoc(text: string, ch: char)
    ensures Unfinished(text + [ch]) <==> ch != '\n' && (ch != '\r' || Unfinished(text))
  {
    var longer := text + [ch];
    if ch != '\n' && ch != '\r' {
      assert longer[|text|..] == [ch];
      assert Unfinished(longer);
    }
    if ch == '\r' && Unfinished(text) {
      var i :| 0 <= i < |text| && text[i] != '\r' && '\n' !in text[i..];
      assert longer[i..] == text[i..] + [ch] && longer[i] == text[i];
      assert Unfinished(longer);
    }
    if Unfinished(longer) {
      UnfinishedShorter(text, ch);
    }
  }

  lemma UnfinishedShorter(text: string, ch: char)
    requires Unfinished(text + [ch])
    ensures ch != '\n' && (ch != '\r' || Unfinished(text))
  {
    var longer := text + [ch];
    var i :| 0 <= i < |longer| && longer[i] != '\r' && '\n' !in longer[i..];
    assert ch == longer[i..][|text| - i];
    if ch == '\r' {
      assert longer[i..] == text[i..] + [ch] && longer[i] == text[i];
      assert forall c :: c in text[i..] ==> c in longer[i..];
    }
  }

  lemma {:induction false} LeftIff(text: string)
    ensures Left(FeedAll(START, text)) <==> Unfinished(text)
    decreases text
  {
    if text == [] {
    } else {
      var n := |text| - 1;
      LeftIff(text[..n]);
      assert text == text[..n] + [text[n]];
      FeedAppend(START, text[..n], [text[n]]);
      FeedOne(FeedAll(START, text[..n]), text[n]);
      UnfinishedSnoc(text[..n], text[n]);
      hide Feed, FeedAll, Unfinished, Left;
    }
  }

  lemma FinishIs(s: Scan)
    ensures Finish(s).0 == if Left(s) then s.data + [Collected(s)] else s.data
    ensures Finish(Feed(s, '\n')).0 == s.data + [Collected(s)]
  {
    hide Unquote;
  }

  /** A line feed at the end of a text changes nothing in the table when something is left on the last line; otherwise
      it adds a row of one empty cell. */
  lemma LineFeedAtEnd(text: string)
    ensures Parsed(text + ['\n']).0 == if Unfinished(text) then Parsed(text).0 else Parsed(text).0 + [[""]]
  {
    var s := FeedAll(START, text);
    LeftIff(text);
    FeedAppend(START, text, ['\n']);
    FeedOne(s, '\n');
    FinishIs(s);
    if !Left(s) {
      assert Unquote([]) == [] && [] + [Unquote([])] == [[]];
    }
    hide FeedAll, Feed, Unfinished, Unquote, Finish;
    assert Collected(s) == s.row + [Unquote(s.cell)];
  }

  /** A table whose last line has no line end comes back exactly when it is a good table, as one with the line end
      would, and the last line is not empty. */
  lemma LastLineIff(table: seq<Row>, hasCR: bool, row: Row)
    ensures Parsed(Text(table, hasCR) + RowText(row)).0 == table + [row] <==>
      GoodTable(table + [row]) && RowText(row) != []
  {
    var text := Text(table, hasCR) + RowText(row);
    if TableUnbroken(table + [row]) {
      UnbrokenSplit(table, row);
      LastLine(table, hasCR, row);
      GoodSplit(table, row);
      ReadBackIff(row);
      RoundTripIff(table, hasCR);
      TableBack(table, hasCR);
      hide ReadBack, AllReadBack, GoodTable, GoodRow, Text, RowText, Parsed;
      if RowText(row) == [] {
      } else {
        SameSnoc(AllReadBack(table), table, ReadBack(row), row);
      }
    } else {
      ParsedUnbroken(text);
      hide Parsed, Text, RowText;
    }
  }

  lemma SameSnoc(a: seq<Row>, b: seq<Row>, x: Row, y: Row)
    ensures a + [x] == b + [y] <==> a == b && x == y
  {
    if a + [x] == b + [y] {
      assert (a + [x])[..|a|] == a && (b + [y])[..|b|] == b;
      assert (a + [x])[|a|] == x && (b + [y])[|b|] == y;
    }
  }

  lemma UnbrokenSplit(table: seq<Row>, row: Row)
    ensures TableUnbroken(table + [row]) <==> TableUnbroken(table) && AllUnbroken(row)
  {
    hide AllUnbroken;
    if TableUnbroken(table + [row]) {
      assert (table + [row])[|table|] == row;
      forall i | 0 <= i < |table| ensures AllUnbroken(table[i]) {
        assert (table + [row])[i] == table[i];
      }
    }
  }

  lemma GoodSplit(table: seq<Row>, row: Row)
    ensures GoodTable(table + [row]) <==> GoodTable(table) && AllUnbroken(row) && GoodRow(row)
  {
    UnbrokenSplit(table, row);
    hide AllUnbroken, GoodRow, TableUnbroken;
    if GoodTable(table + [row]) {
      assert (table + [row])[|table|] == row;
      forall i | 0 <= i < |table| ensures GoodRow(table[i]) {
        assert (table + [row])[i] == table[i];
      }
    }
  }

  lemma TableBack(table: seq<Row>, hasCR: bool)
    requires TableUnbroken(table)
    ensures Parsed(Text(table, hasCR)).0 == AllReadBack(table)
  {
    TableFeed(START, table, hasCR);
    hide FeedAll, Text, AllReadBack;
    assert START.data + AllReadBack(table) == AllReadBack(table);
  }

  // What the parser makes of a table with a last line that is not ended.
  lemma LastLine(table: seq<Row>, hasCR: bool, row: Row)
    requires TableUnbroken(table) && AllUnbroken(row)
    ensures Parsed(Text(table, hasCR) + RowText(row)).0
         == AllReadBack(table) + if RowText(row) == [] then [] else [ReadBack(row)]
  {
    var s := FeedAll(START, Text(table, hasCR));
    var w := RowText(row);
    TableFeed(START, table, hasCR);
    FeedAppend(START, Text(table, hasCR), w);
    PrintedUnbroken(row);
    LineFeed(s, START, w);
    LeftIff(w);
    UnbrokenUnfinished(w);
    FinishIs(FeedAll(s, w));
    hide FeedAll, Text, RowText, AllReadBack, Unquote, Finish, Unfinished, Unbroken;
    assert START.data + AllReadBack(table) == AllReadBack(table);
  }

  lemma UnbrokenUnfinished(w: string)
    requires Unbroken(w)
    ensures Unfinished(w) <==> w != []
  {
    if w != [] {
      assert w[0] in w && w[0..] == w;
    }
  }

  // ---- the CR flag ----

  function Count(s: string, ch: char): nat {
    if s == [] then 0 else (if s[0] == ch then 1 else 0) + Count(s[1..], ch)
  }

  // Occurrences in the cells of a row, and in those of a table.
  function RowCount(row: Row, ch: char): nat {
    if row == [] then 0 else Count(row[0], ch) + RowCount(row[1..], ch)
  }

  function TableCount(table: seq<Row>, ch: char): nat {
    if table == [] then 0 else RowCount(table[0], ch) + TableCount(table[1..], ch)
  }

  lemma {:induction false} CountAppend(a: string, b: string, ch: char)
    ensures Count(a + b, ch) == Count(a, ch) + Count(b, ch)
    decreases a
  {
    if a == [] {
      assert a + b == b;
    } else {
      assert (a + b)[1..] == a[1..] + b;
      CountAppend(a[1..], b, ch);
    }
  }

  lemma CountOne(c: char, ch: char)
    ensures Count([c], ch) == if c == ch then 1 else 0
  {
  }

  lemma {:induction false} FeedCounts(s: Scan, text: string)
    ensures FeedAll(s, text).cr == s.cr + Count(text, '\r')
    ensures FeedAll(s, text).lf == s.lf + Count(text, '\n')
    decreases text
  {
    hide Unquote;
    if text == [] {
    } else {
      FeedCounts(Feed(s, text[0]), text[1..]);
    }
  }

  lemma {:induction false} DoubledCounts(c: string, ch: char)
    requires ch != QUOTE
    ensures Count(Doubled(c), ch) == Count(c, ch)
    decreases c
  {
    if c == [] {
    } else {
      DoubledStep(c);
      DoubledCounts(c[1..], ch);
      hide Doubled;
      var first := if c[0] == QUOTE then [QUOTE, QUOTE] else [c[0]];
      CountAppend(first, Doubled(c[1..]), ch);
      CountAppend([QUOTE], [QUOTE], ch);
      CountOne(c[0], ch);
      assert [QUOTE, QUOTE] == [QUOTE] + [QUOTE];
    }
  }

  lemma PrintedCounts(cell: string, ch: char)
    requires ch != QUOTE
    ensures Count(Printed(cell), ch) == Count(cell, ch)
  {
    DoubledCounts(cell, ch);
    hide Doubled, NeedsQuotes;
    CountAppend([QUOTE] + Doubled(cell), [QUOTE], ch);
    CountAppend([QUOTE], Doubled(cell), ch);
    CountOne(QUOTE, ch);
  }

  lemma {:induction false} RowTextCounts(row: Row, ch: char)
    requires ch != QUOTE && ch != SEPARATOR
    ensures Count(RowText(row), ch) == RowCount(row, ch)
    decreases row
  {
    if row == [] {
    } else {
      PrintedCounts(row[0], ch);
      hide Printed, Count;
      if |row| > 1 {
        RowTextCounts(row[1..], ch);
        CountAppend(Printed(row[0]) + [SEPARATOR], RowText(row[1..]), ch);
        CountAppend(Printed(row[0]), [SEPARATOR], ch);
        CountOne(SEPARATOR, ch);
      }
    }
  }

  lemma LineEndCounts(hasCR: bool)
    ensures Count(LineEnd(hasCR), '\r') == (if hasCR then 1 else 0) && Count(LineEnd(hasCR), '\n') == 1
  {
    CountOne('\r', '\r');
    CountOne('\n', '\n');
    CountAppend(['\r'], ['\n'], '\r');
    CountAppend(['\r'], ['\n'], '\n');
    assert ['\r', '\n'] == ['\r'] + ['\n'];
  }

  lemma LineCounts(row: Row, hasCR: bool, rest: string)
    ensures Count(RowText(row) + LineEnd(hasCR) + rest, '\r')
         == RowCount(row, '\r') + (if hasCR then 1 else 0) + Count(rest, '\r')
    ensures Count(RowText(row) + LineEnd(hasCR) + rest, '\n') == RowCount(row, '\n') + 1 + Count(rest, '\n')
  {
    RowTextCounts(row, '\r');
    RowTextCounts(row, '\n');
    LineEndCounts(hasCR);
    hide *;
    CountAppend(RowText(row) + LineEnd(hasCR), rest, '\r');
    CountAppend(RowText(row), LineEnd(hasCR), '\r');
    CountAppend(RowText(row) + LineEnd(hasCR), rest, '\n');
    CountAppend(RowText(row), LineEnd(hasCR), '\n');
  }

  lemma {:induction false} TextCounts(table: seq<Row>, hasCR: bool)
    ensures Count(Text(table, hasCR), '\r') == TableCount(table, '\r') + if hasCR then |table| else 0
    ensures Count(Text(table, hasCR), '\n') == TableCount(table, '\n') + |table|
    decreases table
  {
    hide RowText, LineEnd, RowCount;
    if table == [] {
    } else {
      LineCounts(table[0], hasCR, Text(table[1..], hasCR));
      TextCounts(table[1..], hasCR);
      hide Count;
    }
  }

  /** The CR flag of any table comes back exactly when, with C and L the carriage returns and line feeds in its
      cells and n its rows: with the flag, C + n exceeds half of L + n; without it, C does not. */
  lemma FlagRoundTripIff(table: seq<Row>, hasCR: bool)
    ensures var c, l, n := TableCount(table, '\r'), TableCount(table, '\n'), |table|;
      Parsed(Text(table, hasCR)).1 == hasCR <==> if hasCR then c + n > (l + n) / 2 else c <= (l + n) / 2
  {
    FeedCounts(START, Text(table, hasCR));
    TextCounts(table, hasCR);
    hide FeedAll, Text, Count, TableCount, Unquote;
  }

  lemma {:induction false} UnbrokenCount(s: string, ch: char)
    requires ch !in s
    ensures Count(s, ch) == 0
    decreases s
  {
    if s == [] {
    } else {
      assert s[0] in s && forall x :: x in s[1..] ==> x in s;
      UnbrokenCount(s[1..], ch);
    }
  }

  lemma {:induction false} UnbrokenRowCount(row: Row)
    requires AllUnbroken(row)
    ensures RowCount(row, '\r') == 0 && RowCount(row, '\n') == 0
    decreases row
  {
    if row == [] {
    } else {
      UnbrokenCount(row[0], '\r');
      UnbrokenCount(row[0], '\n');
      UnbrokenRowCount(row[1..]);
    }
  }

  lemma {:induction false} UnbrokenTableCount(table: seq<Row>)
    requires TableUnbroken(table)
    ensures TableCount(table, '\r') == 0 && TableCount(table, '\n') == 0
    decreases table
  {
    hide AllUnbroken, RowCount;
    if table == [] {
    } else {
      UnbrokenRowCount(table[0]);
      UnbrokenTableCount(table[1..]);
    }
  }

  /** So it comes back with every table without line breaks in its cells, except from an empty file. */
  lemma FlagRoundTrip(table: seq<Row>, hasCR: bool)
    requires TableUnbroken(table)
    ensures Parsed(Text(table, hasCR)).1 == hasCR <==> !hasCR || table != []
  {
    FlagRoundTripIff(table, hasCR);
    UnbrokenTableCount(table);
    hide Parsed, Text, TableCount, TableUnbroken;
  }

  // ---- the class ----

  // The first occurrence of `search` at or after `from`, or the length.
  method Find(s: string, search: string, from: nat) returns (at: nat)
    requires search != [] && from <= |s|
    ensures from <= at <= |s|
    ensures at < |s| ==> search <= s[at..]
    ensures forall k :: from <= k < at ==> !(search <= s[k..])
  {
    at := from;
    while at < |s| && !(search <= s[at..])
      invariant from <= at <= |s|
      invariant forall k :: from <= k < at ==> !(search <= s[k..])
    {
      at := at + 1;
    }
  }

  lemma {:induction false} ReplacedSkips(s: string, n: nat, search: string, replacement: string)
    requires search != [] && n <= |s| && forall k :: 0 <= k < n ==> !(search <= s[k..])
    ensures Replaced(s, search, replacement) == s[..n] + Replaced(s[n..], search, replacement)
    decreases n
  {
    if n == 0 {
      assert s[0..] == s && s[..0] == [];
    } else {
      assert s[0..] == s && !(search <= s);
      forall k | 0 <= k < n - 1
        ensures !(search <= s[1..][k..])
      {
        assert s[1..][k..] == s[k + 1..];
      }
      ReplacedSkips(s[1..], n - 1, search, replacement);
      assert s[1..][n - 1..] == s[n..] && s[..n] == [s[0]] + s[1..][..n - 1];
    }
  }

  lemma ReplacedHit(s: string, search: string, replacement: string)
    requires search != [] && search <= s && s != []
    ensures Replaced(s, search, replacement) == replacement + Replaced(s[|search|..], search, replacement)
  {
  }

  lemma ReplacedNone(search: string, replacement: string)
    requires search != []
    ensures Replaced([], search, replacement) == []
  {
  }

  method ReplaceString(s: string, search: string, replacement: string) returns (str: string)
    requires search != []
    ensures str == Replaced(s, search, replacement)
  {
    hide *;
    str := s;
    var pos := Find(str, search, 0);
    ReplacedSkips(s, pos, search, replacement);
    while pos < |str|
      invariant 0 <= pos <= |str| && (pos < |str| ==> search <= str[pos..])
      invariant str[..pos] + Replaced(str[pos..], search, replacement) == Replaced(s, search, replacement)
      decreases |str| - pos
    {
      ghost var done, rest := str[..pos], str[pos + |search|..];
      ReplacedHit(str[pos..], search, replacement);
      assert str[pos..][|search|..] == rest;
      str := str[..pos] + replacement + str[pos + |search|..];
      pos := pos + |replacement|;
      ghost var before := pos;
      assert str[..before] == done + replacement && str[before..] == rest;
      pos := Find(str, search, pos);
      SkipsFrom(str, before, pos, search, replacement);
    }
    ReplacedNone(search, replacement);
    assert str[pos..] == [] && str[..pos] == str;
  }

  // What find has passed over is not replaced.
  lemma SkipsFrom(str: string, from: nat, at: nat, search: string, replacement: string)
    requires search != [] && from <= at <= |str|
    requires forall k :: from <= k < at ==> !(search <= str[k..])
    ensures str[..from] + Replaced(str[from..], search, replacement)
         == str[..at] + Replaced(str[at..], search, replacement)
  {
    var rest, n := str[from..], at - from;
    forall k | 0 <= k < n
      ensures !(search <= rest[k..])
    {
      assert rest[k..] == str[from + k..];
    }
    hide *;
    ReplacedSkips(rest, n, search, replacement);
    assert rest[n..] == str[at..] && str[..at] == str[..from] + rest[..n];
  }

  class Document {
    var data: seq<Row>
    var hasCR: bool

    constructor (carriageReturns: bool)
      ensures data == [] && hasCR == carriageReturns
    {
      data, hasCR := [], carriageReturns;
    }

    /** Reads the text in chunks of bufLength characters; the result does not depend on the size of the chunks. */
    method ParseCsv(text: string, bufLength: nat)
      requires bufLength > 0
      modifies this
      ensures (data, hasCR) == Parsed(text)
    {
      var scan := START;
      var position := 0;
      while position < |text|
        invariant 0 <= position <= |text|
        invariant FeedAll(scan, text[position..]) == FeedAll(START, text)
      {
        var toRead := if |text| - position < bufLength then |text| - position else bufLength;
        var buffer := text[position..position + toRead];
        assert text[position..] == buffer + text[position + toRead..];
        FeedAppend(scan, buffer, text[position + toRead..]);
        scan := ParseChunk(scan, buffer);
        position := position + toRead;
      }
      assert text[position..] == [];
      data := scan.data;
      if scan.cell != [] || scan.row != [] {
        data := data + [scan.row + [Unquote(scan.cell)]];
      }
      hasCR := scan.cr > scan.lf / 2;
    }

    method ParseChunk(start: Scan, buffer: string) returns (s: Scan)
      ensures s == FeedAll(start, buffer)
    {
      var data, row, cell, quoted, cr, lf := start.data, start.row, start.cell, start.quoted, start.cr, start.lf;
      for i := 0 to |buffer|
        invariant FeedAll(Scan(data, row, cell, quoted, cr, lf), buffer[i..]) == FeedAll(start, buffer)
      {
        assert buffer[i..][1..] == buffer[i + 1..];
        if buffer[i] == QUOTE {
          if cell == [] || cell[0] == QUOTE {
            quoted := !quoted;
          }
          cell := cell + [buffer[i]];
        } else if buffer[i] == SEPARATOR {
          if !quoted {
            row := row + [Unquote(cell)];
            cell := [];
          } else {
            cell := cell + [buffer[i]];
          }
        } else if buffer[i] == '\r' {
          cr := cr + 1;
        } else if buffer[i] == '\n' {
          lf := lf + 1;
          row := row + [Unquote(cell)];
          data := data + [row];
          cell, row, quoted := [], [], false;
        } else {
          cell := cell + [buffer[i]];
        }
      }
      assert buffer[|buffer|..] == [];
      s := Scan(data, row, cell, quoted, cr, lf);
    }

    method WriteCsv() returns (text: string)
      ensures text == Text(data, hasCR)
    {
      hide *;
      text := [];
      assert data[0..] == data;
      for r := 0 to |data|
        invariant text + Text(data[r..], hasCR) == Text(data, hasCR)
      {
        TextStep(text, data[r..], hasCR);
        assert data[r..][1..] == data[r + 1..];
        var row := WriteRow(data[r]);
        text := text + row;
        LineEndIs(hasCR);
        text := text + (if hasCR then ['\r', '\n'] else ['\n']);
      }
      TextNone(hasCR);
      assert data[|data|..] == [] && text + [] == text;
    }

    method WriteRow(row: Row) returns (text: string)
      ensures text == RowText(row)
    {
      text := [];
      assert row[0..] == row;
      for c := 0 to |row|
        invariant text + RowText(row[c..]) == RowText(row)
      {
        ghost var rest := row[c..];
        assert rest[1..] == row[c + 1..];
        RowStep(text, rest);
        hide RowText;
        if NeedsQuotes(row[c]) {
          var str := ReplaceString(row[c], [QUOTE], [QUOTE, QUOTE]);
          text := text + ([QUOTE] + str + [QUOTE]);
        } else {
          text := text + row[c];
        }
        if |row| - c > 1 {
          text := text + [SEPARATOR];
        }
      }
      assert row[|row|..] == [];
    }
  }

  lemma RowStep(before: string, rest: Row)
    requires rest != []
    ensures before + RowText(rest)
         == before + Printed(rest[0]) + (if |rest| > 1 then [SEPARATOR] else []) + RowText(rest[1..])
  {
    if |rest| == 1 {
      assert RowText(rest) == Printed(rest[0]) && RowText(rest[1..]) == [];
      hide *;
      assert before + Printed(rest[0]) + [] + [] == before + Printed(rest[0]);
    } else {
      assert RowText(rest) == Printed(rest[0]) + [SEPARATOR] + RowText(rest[1..]);
      hide *;
      AppendThree(before, Printed(rest[0]), [SEPARATOR], RowText(rest[1..]));
    }
  }

  lemma AppendThree(before: string, a: string, b: string, c: string)
    ensures before + (a + b + c) == before + a + b + c
  {
  }

  lemma TextStep(before: string, rest: seq<Row>, hasCR: bool)
    requires rest != []
    ensures before + Text(rest, hasCR) == before + RowText(rest[0]) + LineEnd(hasCR) + Text(rest[1..], hasCR)
  {
    hide RowText, LineEnd;
  }

  lemma TextNone(hasCR: bool)
    ensures Text([], hasCR) == []
  {
  }

  lemma LineEndIs(hasCR: bool)
    ensures LineEnd(hasCR) == if hasCR then ['\r', '\n'] else ['\n']
  {
  }
}
