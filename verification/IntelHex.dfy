/** Intel HEX records: loading them, sorting them by address, and assembling the memory image. The text of a line
    and its checksum are not part of the model: a line is given as its record. */
module IntelHex {
  import opened Results
  import opened Crc

  type Address = a: nat | a < 65536 witness 0

  const DATA: byte := 0
  const END_OF_FILE: byte := 1
  const EXTENDED_LINEAR_ADDRESS: byte := 4

  datatype Record = Record(kind: byte, address: Address, data: seq<byte>)

  datatype HexLine = HexLine(address: Address, data: seq<byte>) {
    function End(): nat {
      address + |data|
    }
  }

  // ---- load ----

  // The data records kept from the records, and the line that is refused, if one is: it ends the reading. Data under a
  // non-zero extended address are skipped; what follows an end of file is not read.
  function Kept(records: seq<Record>, extension: bool, line: nat): (seq<HexLine>, Option<nat>)
    decreases records
  {
    if records == [] then ([], None)
    else
      var r, rest := records[0], records[1..];
      if r.kind == DATA then
        var (lines, refused) := Kept(rest, extension, line + 1);
        (if extension then lines else [HexLine(r.address, r.data)] + lines, refused)
      else if r.kind == EXTENDED_LINEAR_ADDRESS then
        if |r.data| != 2 then ([], Some(line)) else Kept(rest, r.data[0] != 0 || r.data[1] != 0, line + 1)
      else if r.kind == END_OF_FILE then ([], None)
      else Kept(rest, extension, line + 1)
  }

  // Whether the last extended address before record i is not zero.
  predicate High(records: seq<Record>, extension: bool, i: nat)
    requires i <= |records|
  {
    if i == 0 then extension
    else if records[i - 1].kind == 4 then records[i - 1].data != [0, 0]
    else High(records, extension, i - 1)
  }

  // Nothing before record i ends the reading.
  predicate Reached(records: seq<Record>, i: nat)
    requires i <= |records|
  {
    forall j :: 0 <= j < i ==> records[j].kind != 1 && (records[j].kind == 4 ==> |records[j].data| == 2)
  }

  predicate KeptAt(records: seq<Record>, extension: bool, i: nat) {
    i < |records| && Reached(records, i) && records[i].kind == 0 && !High(records, extension, i)
  }

  predicate RefusedAt(records: seq<Record>, i: nat) {
    i < |records| && Reached(records, i) && records[i].kind == 4 && |records[i].data| != 2
  }

  predicate Increasing(places: seq<nat>) {
    forall i, j :: 0 <= i < j < |places| ==> places[i] < places[j]
  }

  function Shifted(places: seq<nat>): (after: seq<nat>)
    ensures |after| == |places| && forall k :: 0 <= k < |after| ==> after[k] == places[k] + 1
  {
    seq(|places|, k requires 0 <= k < |places| => places[k] + 1)
  }

  lemma {:induction false} HighStep(records: seq<Record>, extension: bool, i: nat)
    requires 0 < i <= |records|
    ensures var r := records[0];
      High(records, extension, i) == High(records[1..], if r.kind == 4 then r.data != [0, 0] else extension, i - 1)
    decreases i
  {
    if i == 1 {
      assert High(records, extension, 0) == extension;
    } else {
      assert records[1..][i - 2] == records[i - 1];
      HighStep(records, extension, i - 1);
    }
  }

  // Record i, but for the first, is the one before it in the rest of the file.
  lemma RestStep(records: seq<Record>, extension: bool, i: nat)
    requires 0 < i && records != []
    ensures var r := records[0]; var next := if r.kind == 4 then r.data != [0, 0] else extension;
      var on := r.kind != 1 && (r.kind == 4 ==> |r.data| == 2);
      && (KeptAt(records, extension, i) <==> on && KeptAt(records[1..], next, i - 1))
      && (RefusedAt(records, i) <==> on && RefusedAt(records[1..], i - 1))
  {
    if i < |records| {
      HighStep(records, extension, i);
    }
    hide High, Reached;
  }

  lemma KeptStep(records: seq<Record>, extension: bool, line: nat)
    requires records != []
    ensures var r := records[0]; var next := if r.kind == 4 then r.data != [0, 0] else extension;
      var on := r.kind != 1 && (r.kind == 4 ==> |r.data| == 2);
      var (lines, refused) := Kept(records[1..], next, line + 1);
      Kept(records, extension, line)
      == if !on then ([], if r.kind == 4 then Some(line) else None)
         else ((if r.kind == 0 && !extension then [HexLine(r.address, r.data)] else []) + lines, refused)
  {
    var r := records[0];
    if r.kind == 4 && |r.data| == 2 {
      assert r.data == [r.data[0], r.data[1]];
    }
    assert forall lines: seq<HexLine> :: [] + lines == lines;
  }

  predicate PlacedAt(records: seq<Record>, lines: seq<HexLine>, places: seq<nat>) {
    && |places| == |lines|
    && forall k :: 0 <= k < |places| ==>
         places[k] < |records| && lines[k] == HexLine(records[places[k]].address, records[places[k]].data)
  }

  // The places of the kept records, when those of the rest of the file are known.
  function PlacesOn(first: bool, rest: seq<nat>): seq<nat> {
    (if first then [0] else []) + Shifted(rest)
  }

  lemma FirstRecord(records: seq<Record>, extension: bool)
    requires records != []
    ensures KeptAt(records, extension, 0) <==> records[0].kind == 0 && !extension
    ensures RefusedAt(records, 0) <==> records[0].kind == 4 && |records[0].data| != 2
  {
  }

  // The lines are those at these places, which are the places kept; and this is the line refused.
  ghost predicate Describes(records: seq<Record>, extension: bool, line: nat, places: seq<nat>, lines: seq<HexLine>,
                            refused: Option<nat>) {
    && Increasing(places) && PlacedAt(records, lines, places)
    && (forall i: nat :: i in places <==> KeptAt(records, extension, i))
    && (forall i: nat :: RefusedAt(records, i) <==> refused == Some(line + i))
    && (refused.Some? ==> refused.value >= line)
  }

  lemma NothingFrom(records: seq<Record>, extension: bool, line: nat)
    requires records != [] && (records[0].kind == 1 || (records[0].kind == 4 && |records[0].data| != 2))
    ensures Describes(records, extension, line, [], [], if records[0].kind == 4 then Some(line) else None)
  {
    hide High, Reached;
    FirstRecord(records, extension);
    forall i: nat | i > 0
      ensures !KeptAt(records, extension, i) && !RefusedAt(records, i)
    {
      RestStep(records, extension, i);
    }
    hide KeptAt, RefusedAt;
  }

  lemma DescribesOn(records: seq<Record>, extension: bool, line: nat, rest: seq<nat>, lines: seq<HexLine>,
                    refused: Option<nat>)
    requires records != [] && records[0].kind != 1 && (records[0].kind == 4 ==> |records[0].data| == 2)
    requires var r := records[0]; var next := if r.kind == 4 then r.data != [0, 0] else extension;
      Describes(records[1..], next, line + 1, rest, lines, refused)
    ensures var r := records[0]; var first := r.kind == 0 && !extension;
      Describes(records, extension, line, PlacesOn(first, rest),
                (if first then [HexLine(r.address, r.data)] else []) + lines, refused)
  {
    var r := records[0];
    var first := r.kind == 0 && !extension;
    hide High, Reached, PlacedAt, Increasing, PlacesOn;
    FirstRecord(records, extension);
    hide KeptAt, RefusedAt;
    forall i: nat
      ensures i in PlacesOn(first, rest) <==> KeptAt(records, extension, i)
      ensures RefusedAt(records, i) <==> refused == Some(line + i)
    {
      if i == 0 {
      } else {
        RestStep(records, extension, i);
      }
    }
  }

  lemma DescribesNothing(extension: bool, line: nat)
    ensures Describes([], extension, line, [], Kept([], extension, line).0, Kept([], extension, line).1)
  {
  }

  /** The lines kept are those of the data records, in their order, that come before an end of file or a refused line
      and behind no extended address, or one that is zero; a line is refused, the first such one, for an extended
      address that is not two bytes long. */
  lemma {:induction false} KeptAre(records: seq<Record>, extension: bool, line: nat) returns (places: seq<nat>)
    ensures var (lines, refused) := Kept(records, extension, line);
      Describes(records, extension, line, places, lines, refused)
    decreases records
  {
    hide Kept, KeptAt, RefusedAt, PlacedAt, Increasing, PlacesOn;
    if records == [] {
      places := [];
      DescribesNothing(extension, line);
    } else {
      var r := records[0];
      KeptStep(records, extension, line);
      if r.kind == 1 || (r.kind == 4 && |r.data| != 2) {
        places := [];
        NothingFrom(records, extension, line);
      } else {
        var next := if r.kind == 4 then r.data != [0, 0] else extension;
        var rest := KeptAre(records[1..], next, line + 1);
        places := PlacesOn(r.kind == 0 && !extension, rest);
        var (lines, refused) := Kept(records[1..], next, line + 1);
        DescribesOn(records, extension, line, rest, lines, refused);
      }
    }
  }

  // Records within one extended-address window: none of them moves it, and none ends the file.
  predicate Window(records: seq<Record>) {
    forall r :: r in records ==> r.kind != EXTENDED_LINEAR_ADDRESS && r.kind != END_OF_FILE
  }

  function DataLine(r: Record): seq<HexLine> {
    if r.kind == DATA then [HexLine(r.address, r.data)] else []
  }

  function DataLines(records: seq<Record>): seq<HexLine>
    decreases records
  {
    if records == [] then [] else DataLine(records[0]) + DataLines(records[1..])
  }

  lemma {:induction false} DataLinesAppend(a: seq<Record>, b: seq<Record>)
    ensures DataLines(a + b) == DataLines(a) + DataLines(b)
    decreases a
  {
    hide DataLine;
    if a == [] {
      assert a + b == b;
    } else {
      assert (a + b)[1..] == a[1..] + b;
      DataLinesAppend(a[1..], b);
      var first, x, y := DataLine(a[0]), DataLines(a[1..]), DataLines(b);
      assert first + (x + y) == (first + x) + y;
    }
  }

  lemma {:induction false} DataLinesPermuted(a: seq<Record>, b: seq<Record>)
    requires multiset(a) == multiset(b)
    ensures multiset(DataLines(a)) == multiset(DataLines(b))
    decreases |a|
  {
    hide *;
    if a == [] {
      NoRecords(b);
    } else {
      var j := WithoutFirst(a, b);
      DataLinesWithout(a, 0);
      DataLinesWithout(b, j);
      assert a[..0] + a[0 + 1..] == a[1..];
      DataLinesPermuted(a[1..], b[..j] + b[j + 1..]);
    }
  }

  lemma NoRecords(b: seq<Record>)
    requires multiset(b) == multiset([])
    ensures b == []
  {
    assert |b| == |multiset(b)|;
  }

  // The first record of one file has its place in a permutation of it.
  lemma WithoutFirst(a: seq<Record>, b: seq<Record>) returns (j: nat)
    requires multiset(a) == multiset(b) && a != []
    ensures j < |b| && b[j] == a[0] && multiset(a[1..]) == multiset(b[..j] + b[j + 1..])
  {
    hide *;
    j := FirstPlace(a, b);
    BagWithoutFirst(a);
    DataLinesWithout(b, j);
  }

  lemma FirstPlace(a: seq<Record>, b: seq<Record>) returns (j: nat)
    requires multiset(a) == multiset(b) && a != []
    ensures j < |b| && b[j] == a[0]
  {
    hide *;
    assert a[0] in multiset(b);
    j :| 0 <= j < |b| && b[j] == a[0];
  }

  lemma BagWithoutFirst(a: seq<Record>)
    requires a != []
    ensures multiset(a[1..]) == multiset(a) - multiset{a[0]}
  {
    hide *;
    assert a == [a[0]] + a[1..];
  }

  // Taking one record out takes out what it contributes.
  lemma DataLinesWithout(b: seq<Record>, j: nat)
    requires j < |b|
    ensures multiset(b[..j] + b[j + 1..]) == multiset(b) - multiset{b[j]}
    ensures multiset(DataLines(b)) == multiset(DataLines([b[j]])) + multiset(DataLines(b[..j] + b[j + 1..]))
  {
    hide *;
    var before, x, after := b[..j], [b[j]], b[j + 1..];
    assert b == before + (x + after);
    DataLinesAppend(before, x + after);
    DataLinesAppend(x, after);
    DataLinesAppend(before, after);
  }

  // A window contributes its data lines, unless its extended address is not zero, and its length to the line count.
  lemma {:induction false} KeptWindow(b: seq<Record>, after: seq<Record>, extension: bool, line: nat)
    requires Window(b)
    ensures var (lines, refused) := Kept(after, extension, line + |b|);
      Kept(b + after, extension, line) == ((if extension then [] else DataLines(b)) + lines, refused)
    decreases b
  {
    if b == [] {
      assert b + after == after && [] + Kept(after, extension, line).0 == Kept(after, extension, line).0;
    } else {
      assert (b + after)[1..] == b[1..] + after && b[0] in b;
      KeptWindow(b[1..], after, extension, line + 1);
      var first, lines := HexLine(b[0].address, b[0].data), Kept(after, extension, line + |b|).0;
      assert [first] + (DataLines(b[1..]) + lines) == ([first] + DataLines(b[1..])) + lines;
      assert [] + DataLines(b[1..]) == DataLines(b[1..]) && [] + lines == lines;
    }
  }

  /** Any permutation of the records within one extended-address window keeps the same data records, as a multiset,
      and refuses the file at the same line or not at all. */
  lemma {:induction false} WindowPermuted(before: seq<Record>, b: seq<Record>, c: seq<Record>, after: seq<Record>,
                                          extension: bool, line: nat)
    requires Window(b) && multiset(b) == multiset(c)
    ensures var one, other := Kept(before + b + after, extension, line), Kept(before + c + after, extension, line);
      multiset(one.0) == multiset(other.0) && one.1 == other.1
    decreases before
  {
    hide *;
    var one, other := before + b + after, before + c + after;
    if before == [] {
      assert one == b + after && other == c + after;
      WindowFirst(b, c, after, extension, line);
    } else {
      assert one[0] == before[0] == other[0];
      assert one[1..] == before[1..] + b + after && other[1..] == before[1..] + c + after;
      WindowPermuted(before[1..], b, c, after, Next(before[0], extension), line + 1);
      SameStep(one, other, extension, line);
    }
  }

  lemma WindowFirst(b: seq<Record>, c: seq<Record>, after: seq<Record>, extension: bool, line: nat)
    requires Window(b) && multiset(b) == multiset(c)
    ensures var one, other := Kept(b + after, extension, line), Kept(c + after, extension, line);
      multiset(one.0) == multiset(other.0) && one.1 == other.1
  {
    hide Kept, DataLines;
    assert |b| == |multiset(b)| == |multiset(c)| == |c|;
    assert forall r :: r in c ==> r in multiset(b);
    KeptWindow(b, after, extension, line);
    KeptWindow(c, after, extension, line);
    DataLinesPermuted(b, c);
  }

  // Whether data are skipped after a record.
  function Next(r: Record, extension: bool): bool {
    if r.kind == EXTENDED_LINEAR_ADDRESS && |r.data| == 2 then r.data[0] != 0 || r.data[1] != 0 else extension
  }

  // Files that begin with the same record and keep the same behind it keep the same.
  lemma SameStep(one: seq<Record>, other: seq<Record>, extension: bool, line: nat)
    requires one != [] && other != [] && one[0] == other[0]
    requires var next := Next(one[0], extension);
      var a, b := Kept(one[1..], next, line + 1), Kept(other[1..], next, line + 1);
      multiset(a.0) == multiset(b.0) && a.1 == b.1
    ensures var a, b := Kept(one, extension, line), Kept(other, extension, line);
      multiset(a.0) == multiset(b.0) && a.1 == b.1
  {
    var next := Next(one[0], extension);
  }

  // ---- the memory image ----

  // What the microcontroller's memory holds where no record puts anything.
  function Filler(address: nat): byte {
    if address % 4 == 3 then 0x00 else 0xFF
  }

  // The filler for the addresses in [from, end).
  function Gap(from: nat, end: nat): (bytes: seq<byte>)
    ensures |bytes| == if from < end then end - from else 0
    ensures forall k :: 0 <= k < |bytes| ==> bytes[k] == Filler(from + k)
    decreases end - from
  {
    if from >= end then [] else [Filler(from)] + Gap(from + 1, end)
  }

  // What getData appends for sorted records, the next free address being `last`; addresses are 16 bits wide.
  function Assemble(lines: seq<HexLine>, last: nat): seq<byte>
    decreases lines
  {
    if lines == [] then []
    else Gap(last, lines[0].address) + lines[0].data + Assemble(lines[1..], lines[0].End() % 65536)
  }

  /** A record that runs past address 0xFFFF is followed by fillers from where it ends modulo 65536 up to the next one,
      which is almost the whole address space. */
  lemma PastEndWraps(h: HexLine, g: HexLine)
    requires 65536 <= h.End() < 131072
    ensures Assemble([h, g], h.address) == h.data + Gap(h.End() - 65536, g.address) + g.data
  {
    assert [h, g][1..] == [g] && [g][1..] == [];
    assert Gap(h.address, h.address) == [] && [] + h.data == h.data;
    assert Assemble([g], h.End() - 65536) == Gap(h.End() - 65536, g.address) + g.data + [];
    assert h.data + (Gap(h.End() - 65536, g.address) + g.data) == h.data + Gap(h.End() - 65536, g.address) + g.data;
  }

  predicate Sorted(lines: seq<HexLine>) {
    forall i, j :: 0 <= i < j < |lines| ==> lines[i].address <= lines[j].address
  }

  // Records that hold data and end inside the 16-bit address space.
  predicate Proper(lines: seq<HexLine>) {
    forall i :: 0 <= i < |lines| ==> lines[i].data != [] && lines[i].End() <= 65536
  }

  predicate Apart(a: HexLine, b: HexLine) {
    a.End() <= b.address || b.End() <= a.address
  }

  predicate Disjoint(lines: seq<HexLine>) {
    forall i, j :: 0 <= i < j < |lines| ==> Apart(lines[i], lines[j])
  }

  predicate Covers(line: HexLine, address: nat) {
    line.address <= address < line.End()
  }

  // The image at one address: the byte of the record that covers it, or else the filler.
  predicate ImageAt(lines: seq<HexLine>, address: nat, b: byte) {
    && (forall i :: 0 <= i < |lines| && Covers(lines[i], address) ==> b == lines[i].data[address - lines[i].address])
    && ((forall i :: 0 <= i < |lines| ==> !Covers(lines[i], address)) ==>
          b == if address % 4 == 3 then 0x00 else 0xFF)
  }

  function MaxEnd(lines: seq<HexLine>): nat
    requires lines != []
  {
    var rest := if |lines| == 1 then 0 else MaxEnd(lines[1..]);
    if lines[0].End() > rest then lines[0].End() else rest
  }

  // For sorted records that hold data, being disjoint is a matter of neighbours.
  lemma DisjointFirst(lines: seq<HexLine>)
    requires Sorted(lines) && Proper(lines) && |lines| >= 2
    ensures Sorted(lines[1..]) && Proper(lines[1..])
    ensures Disjoint(lines) <==> lines[0].End() <= lines[1].address && Disjoint(lines[1..])
  {
    var rest := lines[1..];
    if Disjoint(lines) {
      assert Apart(lines[0], lines[1]);
      forall i, j | 0 <= i < j < |rest|
        ensures Apart(rest[i], rest[j])
      {
        assert Apart(lines[i + 1], lines[j + 1]);
      }
    }
    if lines[0].End() <= lines[1].address && Disjoint(rest) {
      forall i, j | 0 <= i < j < |lines|
        ensures Apart(lines[i], lines[j])
      {
        if i > 0 {
          assert Apart(rest[i - 1], rest[j - 1]);
        } else {
          assert lines[1].address <= lines[j].address;
        }
      }
    }
  }

  /** The assembled bytes are never fewer than the addresses from `last` to the highest end, and as many exactly
      when the records are disjoint and begin no earlier than `last`. */
  lemma {:induction false} AssembledLength(lines: seq<HexLine>, last: nat)
    requires lines != [] && Sorted(lines) && Proper(lines)
    ensures |Assemble(lines, last)| >= MaxEnd(lines) - last
    ensures |Assemble(lines, last)| == MaxEnd(lines) - last <==> last <= lines[0].address && Disjoint(lines)
    decreases lines
  {
    if |lines| == 1 {
      assert lines[1..] == [];
    } else {
      hide *;
      DisjointFirst(lines);
      AssembledLength(lines[1..], lines[0].End() % 65536);
      assert (lines[0].End()) % 65536 <= (lines[0].End());
      assert (lines[0].End()) < 65536 ==> (lines[0].End()) % 65536 == (lines[0].End());
    }
  }

  lemma FromRest(lines: seq<HexLine>, address: nat, b: byte)
    requires lines != [] && address >= lines[0].End() && ImageAt(lines[1..], address, b)
    ensures ImageAt(lines, address, b)
  {
    var rest := lines[1..];
    forall i | 0 <= i < |lines| && Covers(lines[i], address)
      ensures b == lines[i].data[address - lines[i].address]
    {
      assert i > 0 && rest[i - 1] == lines[i];
    }
    if forall i :: 0 <= i < |lines| ==> !Covers(lines[i], address) {
      forall i | 0 <= i < |rest|
        ensures !Covers(rest[i], address)
      {
        assert rest[i] == lines[i + 1];
      }
    }
  }

  lemma FirstOnly(lines: seq<HexLine>, address: nat, b: byte)
    requires lines != [] && Sorted(lines) && Proper(lines) && Disjoint(lines) && address < lines[0].End()
    requires b == if Covers(lines[0], address) then lines[0].data[address - lines[0].address] else Filler(address)
    ensures ImageAt(lines, address, b)
  {
    forall i | 0 < i < |lines|
      ensures !Covers(lines[i], address)
    {
      assert Apart(lines[0], lines[i]) && lines[0].address <= lines[i].address;
    }
  }

  /** Disjoint records give their image, byte for byte, from `last` on. */
  lemma {:induction false} AssembledImage(lines: seq<HexLine>, last: nat, k: nat)
    requires Sorted(lines) && Proper(lines) && Disjoint(lines) && (lines != [] ==> last <= lines[0].address)
    requires k < |Assemble(lines, last)|
    ensures ImageAt(lines, last + k, Assemble(lines, last)[k])
    decreases lines
  {
    hide *;
    AssembleSplit(lines, last);
    var h, rest := lines[0], lines[1..];
    var first := Gap(last, h.address) + h.data;
    var b := Assemble(lines, last)[k];
    if k < |first| {
      FirstByte(h, last, k);
      FirstOnly(lines, last + k, b);
    } else {
      AssembleSplit(rest, h.End() % 65536);
      DisjointFirst(lines);
      assert (h.End()) % 65536 <= (h.End());
      assert (h.End()) < 65536 ==> (h.End()) % 65536 == (h.End());
      AssembledImage(rest, h.End(), k - |first|);
      SplitLength(h, last);
      FromRest(lines, last + k, b);
    }
  }

  lemma AssembleSplit(lines: seq<HexLine>, last: nat)
    ensures lines == [] ==> Assemble(lines, last) == []
    ensures lines != [] ==>
      Assemble(lines, last)
      == (Gap(last, lines[0].address) + lines[0].data) + Assemble(lines[1..], lines[0].End() % 65536)
  {
  }

  lemma SplitLength(h: HexLine, last: nat)
    requires last <= h.address
    ensures last + |Gap(last, h.address) + h.data| == h.End()
  {
  }

  lemma FirstByte(h: HexLine, last: nat, k: nat)
    requires last <= h.address && k < |Gap(last, h.address)| + |h.data|
    ensures last + k < h.End()
    ensures (Gap(last, h.address) + h.data)[k]
         == if Covers(h, last + k) then h.data[last + k - h.address] else Filler(last + k)
  {
  }

  // ---- sorting ----

  function Inserted(lines: seq<HexLine>, line: HexLine): (r: seq<HexLine>)
    ensures multiset(r) == multiset(lines) + multiset{line}
  {
    if lines == [] || line.address < lines[0].address then [line] + lines
    else
      assert lines == [lines[0]] + lines[1..];
      [lines[0]] + Inserted(lines[1..], line)
  }

  lemma {:induction false} InsertedSorted(lines: seq<HexLine>, line: HexLine)
    requires Sorted(lines)
    ensures Sorted(Inserted(lines, line))
    decreases lines
  {
    if lines != [] && line.address >= lines[0].address {
      InsertedSorted(lines[1..], line);
      var rest := Inserted(lines[1..], line);
      forall l | l in rest
        ensures lines[0].address <= l.address
      {
        assert l in multiset(rest);
        assert l in lines[1..] || l == line;
      }
      hide Inserted;
      SortedCons(lines[0], rest);
    }
  }

  lemma SortedCons(first: HexLine, rest: seq<HexLine>)
    requires Sorted(rest) && forall l :: l in rest ==> first.address <= l.address
    ensures Sorted([first] + rest)
  {
  }

  /** Disjoint records that hold data have only one sorted order. */
  lemma {:induction false} SortedUnique(a: seq<HexLine>, b: seq<HexLine>)
    requires Sorted(a) && Sorted(b) && multiset(a) == multiset(b) && Proper(a) && Disjoint(a)
    ensures a == b
    decreases a
  {
    assert |a| == |multiset(a)| == |multiset(b)| == |b|;
    if a == [] {
    } else {
      SameFirst(a, b);
      BagOfRest(a);
      BagOfRest(b);
      if |a| > 1 {
        DisjointFirst(a);
      }
      hide *;
      SortedUnique(a[1..], b[1..]);
      assert a == [a[0]] + a[1..] && b == [b[0]] + b[1..];
    }
  }

  lemma BagOfRest(a: seq<HexLine>)
    requires a != []
    ensures multiset(a[1..]) == multiset(a) - multiset{a[0]}
  {
    assert a == [a[0]] + a[1..];
  }

  lemma SameFirst(a: seq<HexLine>, b: seq<HexLine>)
    requires a != [] && Sorted(a) && Sorted(b) && multiset(a) == multiset(b) && Proper(a) && Disjoint(a)
    ensures b != [] && a[0] == b[0]
  {
    assert a[0] in multiset(b);
    var j :| 0 <= j < |b| && b[j] == a[0];
    assert b[0] in multiset(a);
    var i :| 0 <= i < |a| && a[i] == b[0];
    assert a[0].address <= a[i].address && b[0].address <= b[j].address;
  }

  // Disjoint records, without looking at their order.
  predicate DisjointBag(bag: multiset<HexLine>) {
    && (forall x, y :: x in bag && y in bag && x != y ==> Apart(x, y))
    && (forall x :: x in bag ==> bag[x] == 1)
  }

  lemma {:induction false} TwoOccurrences(lines: seq<HexLine>, x: HexLine) returns (i: nat, j: nat)
    requires multiset(lines)[x] >= 2
    ensures i < j < |lines| && lines[i] == lines[j] == x
  {
    assert lines == [lines[0]] + lines[1..];
    if lines[0] == x {
      assert x in multiset(lines[1..]);
      i := 0;
      var m :| 0 <= m < |lines[1..]| && lines[1..][m] == x;
      j := m + 1;
    } else {
      i, j := TwoOccurrences(lines[1..], x);
      i, j := i + 1, j + 1;
    }
  }

  lemma TwiceCounted(lines: seq<HexLine>, i: nat, j: nat)
    requires i < j < |lines| && lines[i] == lines[j]
    ensures multiset(lines)[lines[i]] >= 2
  {
    assert lines == lines[..j] + lines[j..];
    assert lines[..j][i] == lines[i] && lines[j..][0] == lines[j];
  }

  lemma DisjointIsBag(lines: seq<HexLine>)
    requires Proper(lines)
    ensures Disjoint(lines) <==> DisjointBag(multiset(lines))
  {
    hide Proper;
    var bag := multiset(lines);
    if Disjoint(lines) {
      forall x | x in bag
        ensures bag[x] == 1
      {
        if bag[x] >= 2 {
          var i, j := TwoOccurrences(lines, x);
          assert Apart(lines[i], lines[j]);
          ProperAt(lines, i);
        }
      }
      forall x, y | x in bag && y in bag && x != y
        ensures Apart(x, y)
      {
        var i :| 0 <= i < |lines| && lines[i] == x;
        var j :| 0 <= j < |lines| && lines[j] == y;
        assert if i < j then Apart(lines[i], lines[j]) else Apart(lines[j], lines[i]);
      }
    }
    if DisjointBag(bag) {
      forall i, j | 0 <= i < j < |lines|
        ensures Apart(lines[i], lines[j])
      {
        assert lines[i] in bag && lines[j] in bag;
        if lines[i] == lines[j] {
          TwiceCounted(lines, i, j);
        }
      }
    }
  }

  lemma ProperAt(lines: seq<HexLine>, i: nat)
    requires Proper(lines) && i < |lines|
    ensures lines[i].address < lines[i].End() <= 65536
  {
  }

  lemma ProperPermuted(lines: seq<HexLine>, other: seq<HexLine>)
    requires Proper(lines) && multiset(lines) == multiset(other)
    ensures Proper(other)
  {
    forall i | 0 <= i < |other|
      ensures other[i].data != [] && other[i].End() <= 65536
    {
      assert other[i] in multiset(lines);
    }
  }

  /** The order of the data records does not matter: disjoint records have one sorted order, whichever order they
      came in. */
  lemma OrderIrrelevant(lines: seq<HexLine>, a: seq<HexLine>, b: seq<HexLine>)
    requires Proper(lines) && Disjoint(lines)
    requires Sorted(a) && multiset(a) == multiset(lines) && Sorted(b) && multiset(b) == multiset(lines)
    ensures a == b && Proper(a) && Disjoint(a)
  {
    ProperPermuted(lines, a);
    DisjointIsBag(lines);
    DisjointIsBag(a);
    SortedUnique(a, b);
  }

  function Prepended(done: seq<HexLine>, r: (seq<HexLine>, Option<nat>)): (seq<HexLine>, Option<nat>) {
    (done + r.0, r.1)
  }

  lemma PrependedNone(r: (seq<HexLine>, Option<nat>))
    ensures Prepended([], r) == r
  {
    assert [] + r.0 == r.0;
  }

  lemma PrependedOne(done: seq<HexLine>, line: HexLine, r: (seq<HexLine>, Option<nat>))
    ensures Prepended(done, Prepended([line], r)) == Prepended(done + [line], r)
  {
    assert done + ([line] + r.0) == (done + [line]) + r.0;
  }

  lemma GapStep(before: seq<byte>, i: nat, end: nat)
    requires i < end
    ensures before + [if i % 4 == 3 then 0x00 else 0xFF] + Gap(i + 1, end) == before + Gap(i, end)
  {
  }

  lemma EndIs(line: HexLine)
    ensures line.End() == line.address + |line.data|
  {
  }

  // ---- the class ----

  class IntelHex {
    var hexData: seq<HexLine>

    constructor ()
      ensures hexData == []
    {
      hexData := [];
    }

    /** Keeps the data records up to the first record refused, whose line number comes back. */
    method Load(records: seq<Record>) returns (refused: Option<nat>)
      modifies this
      ensures (hexData, refused) == Kept(records, false, 1)
    {
      hexData := [];
      assert records[0..] == records;
      PrependedNone(Kept(records, false, 1));
      var extensionData := false;
      var lineNo := 0;
      while lineNo < |records|
        invariant lineNo <= |records|
        invariant Kept(records, false, 1) == Prepended(hexData, Kept(records[lineNo..], extensionData, lineNo + 1))
      {
        var line := records[lineNo];
        ghost var rest := records[lineNo + 1..];
        assert records[lineNo..][1..] == rest;
        lineNo := lineNo + 1;
        if line.kind == DATA {
          if !extensionData {
            PrependedOne(hexData, HexLine(line.address, line.data), Kept(rest, extensionData, lineNo + 1));
            hexData := hexData + [HexLine(line.address, line.data)];
          }
        } else if line.kind == EXTENDED_LINEAR_ADDRESS {
          if |line.data| != 2 {
            assert hexData + [] == hexData;
            return Some(lineNo);
          }
          extensionData := line.data[0] != 0 || line.data[1] != 0;
        } else if line.kind == END_OF_FILE {
          assert hexData + [] == hexData;
          return None;
        }
      }
      assert hexData + [] == hexData;
      return None;
    }

    method SortByAddress()
      modifies this
      ensures Sorted(hexData) && multiset(hexData) == multiset(old(hexData))
    {
      var sorted: seq<HexLine> := [];
      var i := 0;
      while i < |hexData|
        invariant 0 <= i <= |hexData| && hexData == old(hexData)
        invariant Sorted(sorted) && multiset(sorted) == multiset(hexData[..i])
      {
        assert hexData[..i + 1] == hexData[..i] + [hexData[i]];
        InsertedSorted(sorted, hexData[i]);
        sorted := Inserted(sorted, hexData[i]);
        i := i + 1;
      }
      assert hexData[..i] == hexData;
      hexData := sorted;
    }

    /** The start address and the bytes of the image; None without records, where the code has no defined result. */
    method GetData() returns (r: Option<(Address, seq<byte>)>)
      modifies this
      ensures Sorted(hexData) && multiset(hexData) == multiset(old(hexData))
      ensures r == if hexData == [] then None else Some((hexData[0].address, Assemble(hexData, hexData[0].address)))
    {
      hide *;
      SortByAddress();
      if hexData == [] {
        return None;
      }
      var startAddress := hexData[0].address;
      var lastCopied: nat := startAddress;
      var ret: seq<byte> := [];
      var n := 0;
      label Start:
      while n < |hexData|
        invariant 0 <= n <= |hexData| && hexData == old@Start(hexData)
        invariant ret + Assemble(hexData[n..], lastCopied) == Assemble(hexData, startAddress)
      {
        var hd := hexData[n];
        ghost var before := ret;
        ghost var rest := Assemble(hexData[n + 1..], hd.End() % 65536);
        assert hexData[n..][1..] == hexData[n + 1..];
        AssembleSplit(hexData[n..], lastCopied);
        var i := lastCopied;
        while i < hd.address
          invariant ret + Gap(i, hd.address) == before + Gap(lastCopied, hd.address)
          invariant hexData == old@Start(hexData)
        {
          GapStep(ret, i, hd.address);
          ret := ret + [if i % 4 == 3 then 0x00 else 0xFF];
          i := i + 1;
        }
        EndIs(hd);
        assert ret == before + Gap(lastCopied, hd.address);
        assert ret + hd.data + rest == before + (Gap(lastCopied, hd.address) + hd.data + rest);
        ret := ret + hd.data;
        lastCopied := (hd.address + |hd.data|) % 65536;
        n := n + 1;
      }
      AssembleSplit(hexData[n..], lastCopied);
      assert hexData[n..] == [] && ret + [] == ret;
      return Some((startAddress, ret));
    }
  }

  /** What getData returns for records that hold data and end inside the 16-bit address space: as many bytes as
      lie between the lowest address and the highest end exactly when the records are disjoint, and then the
      image of the records, whichever order they were in. */
  lemma ImageIff(lines: seq<HexLine>, sorted: seq<HexLine>)
    requires lines != [] && Proper(lines) && Sorted(sorted) && multiset(sorted) == multiset(lines)
    ensures sorted != []
    ensures var start := sorted[0].address; var image := Assemble(sorted, start);
      && (forall i :: 0 <= i < |lines| ==> start <= lines[i].address && lines[i].End() <= MaxEnd(sorted))
      && (|image| == MaxEnd(sorted) - start <==> Disjoint(lines))
      && (Disjoint(lines) ==> forall k :: 0 <= k < |image| ==> ImageAt(lines, start + k, image[k]))
  {
    hide *;
    assert |sorted| == |multiset(sorted)| == |multiset(lines)| == |lines|;
    ProperPermuted(lines, sorted);
    DisjointIsBag(lines);
    DisjointIsBag(sorted);
    var start := sorted[0].address;
    AssembledLength(sorted, start);
    var image := Assemble(sorted, start);
    forall i | 0 <= i < |lines|
      ensures start <= lines[i].address && lines[i].End() <= MaxEnd(sorted)
    {
      assert lines[i] in multiset(sorted);
      var j :| 0 <= j < |sorted| && sorted[j] == lines[i];
      EndBelowMax(sorted, j);
      FirstIsLeast(sorted, j);
    }
    if Disjoint(lines) {
      forall k | 0 <= k < |image|
        ensures ImageAt(lines, start + k, image[k])
      {
        AssembledImage(sorted, start, k);
        SameImage(sorted, lines, start + k, image[k]);
      }
    }
  }

  // What a file gives: it is read to its end, and getData then returns this start address and these bytes.
  ghost predicate Gives(records: seq<Record>, start: Address, data: seq<byte>) {
    && Kept(records, false, 1).1 == None
    && exists sorted: seq<HexLine> ::
         && Sorted(sorted) && multiset(sorted) == multiset(Kept(records, false, 1).0)
         && sorted != [] && start == sorted[0].address && data == Assemble(sorted, start)
  }

  /** For disjoint records that hold data and end inside the 16-bit address space, any permutation of the records
      within one extended-address window gives the same start address and the same bytes, and no other. */
  lemma PermutedFileGivesSame(before: seq<Record>, b: seq<Record>, c: seq<Record>, after: seq<Record>,
                              start: Address, data: seq<byte>)
    requires Window(b) && multiset(b) == multiset(c)
    requires var lines := Kept(before + b + after, false, 1).0; Proper(lines) && Disjoint(lines)
    ensures Gives(before + b + after, start, data) <==> Gives(before + c + after, start, data)
    ensures forall start': Address, data' ::
      Gives(before + b + after, start, data) && Gives(before + c + after, start', data') ==>
        start == start' && data == data'
  {
    var one, other := before + b + after, before + c + after;
    var lines := Kept(one, false, 1).0;
    hide Kept, Assemble, Window;
    WindowPermuted(before, b, c, after, false, 1);
    forall start': Address, data' | Gives(one, start, data) && Gives(other, start', data')
      ensures start == start' && data == data'
    {
      GivenOnce(lines, one, other, start, data, start', data');
    }
  }

  lemma GivenOnce(lines: seq<HexLine>, one: seq<Record>, other: seq<Record>,
                  start: Address, data: seq<byte>, start': Address, data': seq<byte>)
    requires Gives(one, start, data) && Gives(other, start', data') && Proper(lines) && Disjoint(lines)
    requires multiset(Kept(one, false, 1).0) == multiset(lines) == multiset(Kept(other, false, 1).0)
    ensures start == start' && data == data'
  {
    hide Kept, Assemble, Sorted, Proper, Disjoint;
    var a: seq<HexLine> :| Sorted(a) && multiset(a) == multiset(Kept(one, false, 1).0)
      && a != [] && start == a[0].address && data == Assemble(a, start);
    var b: seq<HexLine> :| Sorted(b) && multiset(b) == multiset(Kept(other, false, 1).0)
      && b != [] && start' == b[0].address && data' == Assemble(b, start');
    OrderIrrelevant(lines, a, b);
  }

  lemma FirstIsLeast(lines: seq<HexLine>, j: nat)
    requires Sorted(lines) && j < |lines|
    ensures lines[0].address <= lines[j].address
  {
  }

  lemma {:induction false} EndBelowMax(lines: seq<HexLine>, j: nat)
    requires j < |lines|
    ensures lines[j].End() <= MaxEnd(lines)
  {
    if j == 0 {
    } else {
      EndBelowMax(lines[1..], j - 1);
    }
  }

  lemma SameImage(a: seq<HexLine>, b: seq<HexLine>, address: nat, value: byte)
    requires multiset(a) == multiset(b) && ImageAt(a, address, value)
    ensures ImageAt(b, address, value)
  {
    hide Covers;
    forall i | 0 <= i < |b| && Covers(b[i], address)
      ensures address >= b[i].address && address - b[i].address < |b[i].data|
      ensures value == b[i].data[address - b[i].address]
    {
      assert b[i] in multiset(a);
      var j :| 0 <= j < |a| && a[j] == b[i];
      CoversMeans(b[i], address);
    }
    if forall i :: 0 <= i < |b| ==> !Covers(b[i], address) {
      forall j | 0 <= j < |a|
        ensures !Covers(a[j], address)
      {
        assert a[j] in multiset(b);
        var i :| 0 <= i < |b| && b[i] == a[j];
      }
    }
  }

  lemma CoversMeans(line: HexLine, address: nat)
    ensures Covers(line, address) <==> line.address <= address < line.End()
  {
  }
}
