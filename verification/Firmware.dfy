/** Programming a board: the image is padded to pages of 256 bytes, every fourth byte is dropped on the way, and the
    bootloader puts a zero back in its place. */
module Firmware {
  import opened Results
  import opened Crc
  import opened ModbusCodec
  import opened IntelHex

  const PAGE_LENGTH := 256
  const APPLICATION_PAGE_LENGTH := 192

  // A page as it is sent: without its every fourth byte.
  datatype Page = Page(address: nat, data: seq<byte>)

  datatype Stats = Stats(crc: bv16, startAddress: nat, length: nat, check: bv16)

  function Padded(data: seq<byte>): (padded: seq<byte>)
    ensures |padded| % PAGE_LENGTH == 0 && |data| <= |padded|
  {
    if |data| % PAGE_LENGTH == 0 then data else data + Gap(|data| % PAGE_LENGTH, PAGE_LENGTH)
  }

  /** The padded image is the image up to the next multiple of 256, filled with 0xFF but for 0x00 at every fourth
      byte. */
  lemma PaddedAt(data: seq<byte>, k: nat)
    requires k < |Padded(data)|
    ensures |Padded(data)| % 256 == 0 && |data| <= |Padded(data)| < |data| + 256
    ensures Padded(data)[k] == if k < |data| then data[k] else if k % 4 == 3 then 0x00 else 0xFF
  {
    var n := |data|;
    if k >= n {
      SameRemainder(n, k);
    }
  }

  // Drops every fourth byte.
  function Shrunk(block: seq<byte>): (page: seq<byte>)
    requires |block| % 4 == 0
    ensures |page| == |block| / 4 * 3
  {
    if block == [] then [] else block[..3] + Shrunk(block[4..])
  }

  function Pages(data: seq<byte>, address: nat): (pages: seq<Page>)
    requires |data| % PAGE_LENGTH == 0
    ensures |pages| == |data| / PAGE_LENGTH
    decreases data
  {
    if data == [] then []
    else [Page(address, Shrunk(data[..PAGE_LENGTH]))] + Pages(data[PAGE_LENGTH..], (address + PAGE_LENGTH) % 65536)
  }

  function Low(x: bv16): byte { (x & 0xFF) as byte }

  function High(x: bv16): byte { (x >> 8) as byte }

  function Word(n: nat): bv16
    requires n < 65536
  {
    n as bv16
  }

  // Three little-endian 32-bit words.
  function StatsBytes(crc: bv16, startAddress: bv16, length: bv16): seq<byte> {
    [Low(crc), High(crc), 0, 0, Low(startAddress), High(startAddress), 0, 0, Low(length), High(length), 0, 0]
  }

  lemma StatsLayout(crc: bv16, startAddress: bv16, length: bv16)
    ensures var b := StatsBytes(crc, startAddress, length);
      && |b| == 12 && b[2] == b[3] == b[6] == b[7] == b[10] == b[11] == 0
      && Received(b[0], b[1]) == crc && Received(b[4], b[5]) == startAddress && Received(b[8], b[9]) == length
  {
    LowHigh(crc);
    LowHigh(startAddress);
    LowHigh(length);
    hide Low, High, Received;
  }

  lemma LowHigh(x: bv16)
    ensures Received(Low(x), High(x)) == x
  {
  }

  function StatsFor(crc: bv16, startAddress: nat, length: nat): Stats
    requires startAddress < 65536 && length < 65536
  {
    Stats(crc, startAddress, length, Of(StatsBytes(crc, Word(startAddress), Word(length))))
  }

  // ---- the bootloader ----

  // Inserts a zero after every third byte.
  function Expanded(page: seq<byte>): (block: seq<byte>)
    requires |page| % 3 == 0
    ensures |block| == |page| / 3 * 4
  {
    if page == [] then [] else page[..3] + [0] + Expanded(page[3..])
  }

  const MEMORY_SIZE := 65536

  // Memory by address, where something has been written since it was erased; addresses are 16 bits wide.
  type Memory = map<nat, byte>

  function At(memory: Memory, address: nat): byte {
    var a := address % MEMORY_SIZE;
    if a in memory then memory[a] else 0xFF
  }

  function Burnt(memory: Memory, address: nat, bytes: seq<byte>): Memory
    decreases bytes
  {
    if bytes == [] then memory else Burnt(memory[address % MEMORY_SIZE := bytes[0]], address + 1, bytes[1..])
  }

  // The bootloader writes each page, expanded, from the page's address on.
  function MemoryAfter(memory: Memory, pages: seq<Page>): Memory
    requires forall i :: 0 <= i < |pages| ==> |pages[i].data| % 3 == 0
    decreases pages
  {
    if pages == [] then memory
    else MemoryAfter(Burnt(memory, pages[0].address, Expanded(pages[0].data)), pages[1..])
  }

  predicate Holds(memory: Memory, start: nat, bytes: seq<byte>) {
    forall k :: 0 <= k < |bytes| ==> At(memory, start + k) == bytes[k]
  }

  // What is read from n addresses on end.
  function Fetched(memory: Memory, start: nat, n: nat): (bytes: seq<byte>)
    ensures |bytes| == n && Holds(memory, start, bytes)
  {
    seq(n, k requires 0 <= k < n => At(memory, start + k))
  }

  predicate EveryFourthZero(data: seq<byte>) {
    forall k :: 0 <= k < |data| && k % 4 == 3 ==> data[k] == 0
  }

  lemma FourthSplit(data: seq<byte>, n: nat)
    requires n <= |data| && n % 4 == 0
    ensures EveryFourthZero(data) <==> EveryFourthZero(data[..n]) && EveryFourthZero(data[n..])
  {
    var rest := data[n..];
    if EveryFourthZero(data) {
      forall k | 0 <= k < |rest| && k % 4 == 3
        ensures rest[k] == 0
      {
        assert rest[k] == data[n + k] && (n + k) % 4 == 3;
      }
    }
    if EveryFourthZero(data[..n]) && EveryFourthZero(rest) {
      forall k | 0 <= k < |data| && k % 4 == 3
        ensures data[k] == 0
      {
        if k < n {
          assert data[k] == data[..n][k];
        } else {
          assert data[k] == rest[k - n] && (k - n) % 4 == 3;
        }
      }
    }
  }

  /** Expanding restores a block exactly when its every fourth byte is zero. */
  lemma {:induction false} ExpandsIff(block: seq<byte>)
    requires |block| % 4 == 0
    ensures |Shrunk(block)| % 3 == 0
    ensures Expanded(Shrunk(block)) == block <==> EveryFourthZero(block)
    decreases block
  {
    hide *;
    if block == [] {
      NothingExpands(block);
    } else {
      var rest := block[4..];
      assert |rest| % 4 == 0 by {  }
      ExpandsIff(rest);
      ExpandsStep(block);
    }
  }

  lemma NothingExpands(block: seq<byte>)
    requires block == []
    ensures |Shrunk(block)| % 3 == 0 && Expanded(Shrunk(block)) == block && EveryFourthZero(block)
  {
  }

  lemma ExpandsStep(block: seq<byte>)
    requires |block| % 4 == 0 && block != []
    ensures |Shrunk(block)| % 3 == 0 && |Shrunk(block[4..])| % 3 == 0
    ensures Expanded(Shrunk(block)) == block <==>
            block[3] == 0 && Expanded(Shrunk(block[4..])) == block[4..]
    ensures EveryFourthZero(block) <==> block[3] == 0 && EveryFourthZero(block[4..])
  {
    hide Expanded, Shrunk, EveryFourthZero;
    var rest := block[4..];
    ExpandedStep(block);
    FourthSplit(block, 4);
    FirstFour(block[..4]);
    assert block == block[..3] + [block[3]] + rest && block[..4][3] == block[3];
    SamePrefix(block[..3], 0, Expanded(Shrunk(rest)), block[3], rest);
  }

  lemma FirstFour(four: seq<byte>)
    requires |four| == 4
    ensures EveryFourthZero(four) <==> four[3] == 0
  {
    assert forall k :: 0 <= k < 4 && k % 4 == 3 ==> k == 3;
    if four[3] == 0 {
    } else {
      assert 3 % 4 == 3;
    }
  }

  lemma SamePrefix(three: seq<byte>, a: byte, x: seq<byte>, b: byte, y: seq<byte>)
    ensures three + [a] + x == three + [b] + y <==> a == b && x == y
  {
    if three + [a] + x == three + [b] + y {
      assert (three + [a] + x)[|three|] == a && (three + [b] + y)[|three|] == b;
      assert (three + [a] + x)[|three| + 1..] == x && (three + [b] + y)[|three| + 1..] == y;
    }
  }

  // An expanded page is the block it was made of, with zeros for every fourth byte.
  lemma {:induction false} ExpandedAt(block: seq<byte>, k: nat)
    requires |block| % 4 == 0 && k < |block|
    ensures |Shrunk(block)| % 3 == 0
    ensures Expanded(Shrunk(block))[k] == if k % 4 == 3 then 0 else block[k]
    decreases block
  {
    hide Expanded, Shrunk;
    ExpandedStep(block);
    if k < 4 {
    } else {
      ExpandedAt(block[4..], k - 4);
    }
  }

  lemma ExpandedStep(block: seq<byte>)
    requires |block| % 4 == 0 && block != []
    ensures Expanded(Shrunk(block)) == block[..3] + [0] + Expanded(Shrunk(block[4..]))
  {
    assert Shrunk(block)[..3] == block[..3] && Shrunk(block)[3..] == Shrunk(block[4..]);
  }

  /** Page k goes to 256 k addresses behind the first and holds, in 192 bytes, the k-th block of 256. */
  lemma {:induction false} PageAt(data: seq<byte>, address: nat, k: nat)
    requires |data| % PAGE_LENGTH == 0 && k < |Pages(data, address)| && address < 65536
    ensures PAGE_LENGTH * (k + 1) <= |data|
    ensures Pages(data, address)[k]
         == Page((address + PAGE_LENGTH * k) % 65536, Shrunk(data[PAGE_LENGTH * k..PAGE_LENGTH * (k + 1)]))
    ensures |Pages(data, address)[k].data| == APPLICATION_PAGE_LENGTH
    decreases k
  {
    hide Shrunk;
    if k == 0 {
    } else {
      var next, rest := (address + PAGE_LENGTH) % 65536, data[PAGE_LENGTH..];
      PageAt(rest, next, k - 1);
      AddressAdds(address, k);
      assert rest[PAGE_LENGTH * (k - 1)..PAGE_LENGTH * k] == data[PAGE_LENGTH * k..PAGE_LENGTH * (k + 1)];
      hide Pages;
    }
  }

  lemma AddressAdds(address: nat, k: nat)
    requires k > 0 && address < 65536
    ensures ((address + PAGE_LENGTH) % 65536 + PAGE_LENGTH * (k - 1)) % 65536 == (address + PAGE_LENGTH * k) % 65536
  {
    var rest := PAGE_LENGTH * (k - 1);
    if address + PAGE_LENGTH >= 65536 {
      assert (address + PAGE_LENGTH) % 65536 == address + PAGE_LENGTH - 65536;
      assert (address + PAGE_LENGTH - 65536 + rest) % 65536 == (address + PAGE_LENGTH + rest) % 65536;
    }
  }

  lemma PagesExpand(data: seq<byte>, address: nat)
    requires |data| % PAGE_LENGTH == 0 && address < 65536
    ensures forall i :: 0 <= i < |Pages(data, address)| ==> |Pages(data, address)[i].data| % 3 == 0
  {
    forall i | 0 <= i < |Pages(data, address)|
      ensures |Pages(data, address)[i].data| % 3 == 0
    {
      PageAt(data, address, i);
    }
  }

  // ---- writing memory ----

  // How far behind `address` the address x lies.
  function Offset(address: nat, x: nat): nat {
    (x + MEMORY_SIZE - address % MEMORY_SIZE) % MEMORY_SIZE
  }

  lemma OffsetNext(address: nat, x: nat)
    requires x < MEMORY_SIZE
    ensures Offset(address, x) == 0 <==> x == address % MEMORY_SIZE
    ensures Offset(address, x) > 0 ==> Offset(address + 1, x) == Offset(address, x) - 1
    ensures Offset(address, x) == 0 ==> Offset(address + 1, x) == MEMORY_SIZE - 1
  {
    var a := address % MEMORY_SIZE;
    assert (address + 1) % MEMORY_SIZE == if a == MEMORY_SIZE - 1 then 0 else a + 1;
  }

  lemma OffsetOf(address: nat, k: nat)
    requires k < MEMORY_SIZE
    ensures Offset(address, (address + k) % MEMORY_SIZE) == k
  {
    var a := address % MEMORY_SIZE;
    assert (address + k) % MEMORY_SIZE == (a + k) % MEMORY_SIZE
        == if a + k < MEMORY_SIZE then a + k else a + k - MEMORY_SIZE;
  }

  // Up to 65536 bytes written in a row are all there afterwards, and nothing else has changed.
  lemma {:induction false} BurntAt(memory: Memory, address: nat, bytes: seq<byte>, x: nat)
    requires |bytes| <= MEMORY_SIZE && x < MEMORY_SIZE
    ensures At(Burnt(memory, address, bytes), x)
         == if Offset(address, x) < |bytes| then bytes[Offset(address, x)] else At(memory, x)
    decreases bytes
  {
    hide Offset;
    if bytes == [] {
    } else {
      OffsetNext(address, x);
      BurntAt(memory[address % MEMORY_SIZE := bytes[0]], address + 1, bytes[1..], x);
    }
  }

  lemma {:induction false} BurntAppend(memory: Memory, address: nat, a: seq<byte>, b: seq<byte>)
    ensures Burnt(memory, address, a + b) == Burnt(Burnt(memory, address, a), address + |a|, b)
    decreases a
  {
    if a == [] {
      assert a + b == b;
    } else {
      assert (a + b)[1..] == a[1..] + b;
      BurntAppend(memory[address % MEMORY_SIZE := a[0]], address + 1, a[1..], b);
    }
  }

  lemma {:induction false} BurntWraps(memory: Memory, address: nat, bytes: seq<byte>)
    ensures Burnt(memory, address % MEMORY_SIZE, bytes) == Burnt(memory, address, bytes)
    decreases bytes
  {
    if bytes == [] {
    } else {
      var a, written := address % MEMORY_SIZE, memory[address % MEMORY_SIZE := bytes[0]];
      BurntWraps(written, a + 1, bytes[1..]);
      BurntWraps(written, address + 1, bytes[1..]);
      assert (a + 1) % MEMORY_SIZE == (address + 1) % MEMORY_SIZE;
    }
  }

  // The bytes the pages hold when expanded, page after page.
  function Contents(pages: seq<Page>): seq<byte>
    requires forall i :: 0 <= i < |pages| ==> |pages[i].data| % 3 == 0
    decreases pages
  {
    if pages == [] then [] else Expanded(pages[0].data) + Contents(pages[1..])
  }

  // The pages lie end to end, so they are written like one run of bytes.
  lemma {:induction false} PagesAreOneRun(memory: Memory, data: seq<byte>, address: nat)
    requires |data| % PAGE_LENGTH == 0 && address < 65536
    ensures forall i :: 0 <= i < |Pages(data, address)| ==> |Pages(data, address)[i].data| % 3 == 0
    ensures var pages := Pages(data, address);
      |Contents(pages)| == |data| && MemoryAfter(memory, pages) == Burnt(memory, address, Contents(pages))
    decreases data
  {
    hide Shrunk, Expanded, Burnt;
    PagesExpand(data, address);
    if data == [] {
      NothingBurnt(memory, address);
    } else {
      var first, rest := data[..PAGE_LENGTH], data[PAGE_LENGTH..];
      var next := (address + PAGE_LENGTH) % 65536;
      var pages := Pages(data, address);
      var block := Expanded(Shrunk(first));
      assert pages[1..] == Pages(rest, next) && pages[0] == Page(address, Shrunk(first));
      PagesAreOneRun(Burnt(memory, address, block), rest, next);
      hide Pages;
      BurntAppend(memory, address, block, Contents(Pages(rest, next)));
      BurntWraps(Burnt(memory, address, block), address + PAGE_LENGTH, Contents(Pages(rest, next)));
    }
  }

  lemma NothingBurnt(memory: Memory, address: nat)
    ensures Burnt(memory, address, []) == memory
  {
  }

  lemma ContentsStep(data: seq<byte>, address: nat)
    requires |data| % PAGE_LENGTH == 0 && address < 65536 && data != []
    ensures forall i :: 0 <= i < |Pages(data, address)| ==> |Pages(data, address)[i].data| % 3 == 0
    ensures var rest, next := data[PAGE_LENGTH..], (address + PAGE_LENGTH) % 65536;
      && (forall i :: 0 <= i < |Pages(rest, next)| ==> |Pages(rest, next)[i].data| % 3 == 0)
      && Contents(Pages(data, address)) == Expanded(Shrunk(data[..PAGE_LENGTH])) + Contents(Pages(rest, next))
  {
    hide Shrunk, Expanded;
    PagesExpand(data, address);
    PagesExpand(data[PAGE_LENGTH..], (address + PAGE_LENGTH) % 65536);
    var pages := Pages(data, address);
    assert pages[1..] == Pages(data[PAGE_LENGTH..], (address + PAGE_LENGTH) % 65536);
    hide Pages;
  }

  lemma {:induction false} ContentsAt(data: seq<byte>, address: nat, k: nat)
    requires |data| % PAGE_LENGTH == 0 && address < 65536 && k < |data|
    ensures forall i :: 0 <= i < |Pages(data, address)| ==> |Pages(data, address)[i].data| % 3 == 0
    ensures k < |Contents(Pages(data, address))|
    ensures Contents(Pages(data, address))[k] == if k % 4 == 3 then 0 else data[k]
    decreases data
  {
    hide Shrunk, Expanded, Pages, Contents;
    ContentsStep(data, address);
    PagesAreOneRun(map[], data, address);
    if k < PAGE_LENGTH {
      ExpandedAt(data[..PAGE_LENGTH], k);
    } else {
      ContentsAt(data[PAGE_LENGTH..], (address + PAGE_LENGTH) % 65536, k - PAGE_LENGTH);
    }
  }

  /** The memory after all pages: at each address the image reaches, counted from its start and wrapping at 0xFFFF, its
      byte, but zero for every fourth; everything else as before. */
  lemma MemoryAt(memory: Memory, data: seq<byte>, address: nat, x: nat)
    requires |data| % PAGE_LENGTH == 0 && |data| <= MEMORY_SIZE && address < 65536 && x < MEMORY_SIZE
    ensures forall i :: 0 <= i < |Pages(data, address)| ==> |Pages(data, address)[i].data| % 3 == 0
    ensures var k := Offset(address, x);
      At(MemoryAfter(memory, Pages(data, address)), x)
      == if k >= |data| then At(memory, x) else if k % 4 == 3 then 0 else data[k]
  {
    var k := Offset(address, x);
    PagesAreOneRun(memory, data, address);
    BurntAt(memory, address, Contents(Pages(data, address)), x);
    if k < |data| {
      ContentsAt(data, address, k);
    }
    hide Pages, Burnt, MemoryAfter, Contents, At, Offset;
  }

  lemma FromStart(memory: Memory, data: seq<byte>, address: nat, k: nat)
    requires |data| % PAGE_LENGTH == 0 && |data| <= MEMORY_SIZE && address < 65536 && k < |data|
    ensures forall i :: 0 <= i < |Pages(data, address)| ==> |Pages(data, address)[i].data| % 3 == 0
    ensures At(MemoryAfter(memory, Pages(data, address)), address + k) == if k % 4 == 3 then 0 else data[k]
  {
    MemoryAt(memory, data, address, (address + k) % MEMORY_SIZE);
    OffsetOf(address, k);
    assert (address + k) % MEMORY_SIZE % MEMORY_SIZE == (address + k) % MEMORY_SIZE;
    hide Pages, MemoryAfter, Offset;
  }

  /** Any first part of the image is in memory, at the addresses from its start on, exactly when every fourth byte of
      that part is zero. */
  lemma MemoryIff(memory: Memory, data: seq<byte>, address: nat, n: nat)
    requires |data| % PAGE_LENGTH == 0 && |data| <= MEMORY_SIZE && address < 65536 && n <= |data|
    ensures forall i :: 0 <= i < |Pages(data, address)| ==> |Pages(data, address)[i].data| % 3 == 0
    ensures Holds(MemoryAfter(memory, Pages(data, address)), address, data[..n]) <==> EveryFourthZero(data[..n])
  {
    PagesExpand(data, address);
    var after := MemoryAfter(memory, Pages(data, address));
    forall k | 0 <= k < n
      ensures At(after, address + k) == if k % 4 == 3 then 0 else data[..n][k]
    {
      FromStart(memory, data, address, k);
    }
    hide MemoryAfter, Pages, At;
  }

  lemma PaddedZeros(data: seq<byte>)
    ensures EveryFourthZero(Padded(data)) <==> EveryFourthZero(data)
  {
    var padded := Padded(data);
    if EveryFourthZero(padded) {
      assert forall k :: 0 <= k < |data| ==> padded[k] == data[k];
    }
    if EveryFourthZero(data) {
      forall k | 0 <= k < |padded| && k % 4 == 3
        ensures padded[k] == 0
      {
        if k >= |data| {
          var at := |data| % PAGE_LENGTH + (k - |data|);
          SameRemainder(|data|, k);
          assert padded[k] == Gap(|data| % PAGE_LENGTH, PAGE_LENGTH)[k - |data|] == Filler(at);
        }
      }
    }
  }

  lemma SameRemainder(n: nat, k: nat)
    requires n <= k
    ensures (n % PAGE_LENGTH + (k - n)) % 4 == k % 4
  {
    assert n == n / PAGE_LENGTH * PAGE_LENGTH + n % PAGE_LENGTH;
    assert k == n % PAGE_LENGTH + (k - n) + 4 * (64 * (n / PAGE_LENGTH));
  }

  // ---- from records to memory ----

  // No record puts anything but zero at an address that is 3 modulo 4.
  predicate RecordsLeaveFourth(lines: seq<HexLine>) {
    forall i, t :: 0 <= i < |lines| && 0 <= t < |lines[i].data| && (lines[i].address + t) % 4 == 3 ==>
      lines[i].data[t] == 0
  }

  lemma ImageLeavesFourth(lines: seq<HexLine>, start: nat, image: seq<byte>)
    requires start % 4 == 0
    requires forall k :: 0 <= k < |image| ==> ImageAt(lines, start + k, image[k])
    requires forall i :: 0 <= i < |lines| ==> start <= lines[i].address && lines[i].End() <= start + |image|
    ensures EveryFourthZero(image) <==> RecordsLeaveFourth(lines)
  {
    if EveryFourthZero(image) {
      forall i, t | 0 <= i < |lines| && 0 <= t < |lines[i].data| && (lines[i].address + t) % 4 == 3
        ensures lines[i].data[t] == 0
      {
        var k := lines[i].address + t - start;
        assert ImageAt(lines, start + k, image[k]) && Covers(lines[i], start + k) && k % 4 == 3;
      }
    }
    if RecordsLeaveFourth(lines) {
      forall k | 0 <= k < |image| && k % 4 == 3
        ensures image[k] == 0
      {
        assert ImageAt(lines, start + k, image[k]) && (start + k) % 4 == 3;
      }
    }
  }

  /** For disjoint records starting at a multiple of 4, after all pages are written the memory holds the image at its
      own addresses exactly when no record puts anything but zero at an address that is 3 modulo 4; and then it holds
      the padding behind it, too. Padding past 0xFFFF lands below the image and never on it; what neither the image
      nor its padding reaches is as before. */
  lemma RestoredIff(memory: Memory, lines: seq<HexLine>, sorted: seq<HexLine>)
    requires lines != [] && Proper(lines) && Disjoint(lines) && Sorted(sorted) && multiset(sorted) == multiset(lines)
    requires sorted != [] && sorted[0].address % 4 == 0
    ensures var start := sorted[0].address; var image := Assemble(sorted, start); var padded := Padded(image);
      && (forall i :: 0 <= i < |Pages(padded, start)| ==> |Pages(padded, start)[i].data| % 3 == 0)
      && start + |image| <= MEMORY_SIZE && |padded| <= MEMORY_SIZE
      && var after := MemoryAfter(memory, Pages(padded, start));
      && (Holds(after, start, image) <==> RecordsLeaveFourth(lines))
      && (Holds(after, start, padded) <==> RecordsLeaveFourth(lines))
      && (forall k :: |image| <= k < |padded| ==> WrapsBelow(start, k))
      && (forall x :: 0 <= x < MEMORY_SIZE && Offset(start, x) >= |padded| ==> At(after, x) == At(memory, x))
  {
    var start := sorted[0].address;
    var image := Assemble(sorted, start);
    var padded := Padded(image);
    hide *;
    ImageIff(lines, sorted);
    ProperPermuted(lines, sorted);
    MaxEndFits(sorted);
    ImageLeavesFourth(lines, start, image);
    ImageWritten(memory, image, start);
  }

  // The k-th byte from the start on, if it wraps, lands below the start.
  predicate WrapsBelow(start: nat, k: nat) {
    start + k >= MEMORY_SIZE ==> (start + k) % MEMORY_SIZE < start
  }

  lemma ImageWritten(memory: Memory, image: seq<byte>, start: nat)
    requires start + |image| <= MEMORY_SIZE && start < 65536
    ensures var padded := Padded(image);
      && (forall i :: 0 <= i < |Pages(padded, start)| ==> |Pages(padded, start)[i].data| % 3 == 0)
      && |padded| <= MEMORY_SIZE
      && var after := MemoryAfter(memory, Pages(padded, start));
      && (Holds(after, start, image) <==> EveryFourthZero(image))
      && (Holds(after, start, padded) <==> EveryFourthZero(image))
      && (forall k :: |image| <= k < |padded| ==> WrapsBelow(start, k))
      && (forall x :: 0 <= x < MEMORY_SIZE && Offset(start, x) >= |padded| ==> At(after, x) == At(memory, x))
  {
    hide Padded, Pages, MemoryAfter, Holds, EveryFourthZero, Offset, At;
    var padded := Padded(image);
    PaddedZeros(image);
    PaddedFits(image);
    MemoryIff(memory, padded, start, |image|);
    MemoryIff(memory, padded, start, |padded|);
    assert padded[..|padded|] == padded;
    forall x | 0 <= x < MEMORY_SIZE && Offset(start, x) >= |padded|
      ensures At(MemoryAfter(memory, Pages(padded, start)), x) == At(memory, x)
    {
      MemoryAt(memory, padded, start, x);
    }
  }

  lemma PaddedFits(data: seq<byte>)
    requires |data| <= MEMORY_SIZE
    ensures |Padded(data)| <= MEMORY_SIZE && Padded(data)[..|data|] == data
  {
  }

  // The bootloader's check of the statistics against its memory.
  predicate Verified(stats: Stats, memory: Memory) {
    && stats.startAddress < 65536 && stats.length < 65536
    && stats.crc == Of(Fetched(memory, stats.startAddress, stats.length))
    && stats.check == Of(StatsBytes(stats.crc, Word(stats.startAddress), Word(stats.length)))
  }

  // ---- the class ----

  class PrintILC {
    const crc: CRC
    var startAddress: nat
    var dataLength: nat
    var pages: seq<Page>      // pages written since the last erase

    ghost predicate Valid()
      reads this
    {
      startAddress < 65536 && dataLength < 65536
    }

    constructor ()
      ensures Valid() && fresh(crc) && pages == []
    {
      crc := new CRC();
      startAddress, dataLength, pages := 0, 0, [];
    }

    method AddAll(data: seq<byte>)
      modifies crc
      ensures crc.crcCounter == Register(old(crc.crcCounter), data)
    {
      for i := 0 to |data|
        invariant Register(crc.crcCounter, data[i..]) == Register(old(crc.crcCounter), data)
      {
        assert data[i..][1..] == data[i + 1..];
        crc.Add(data[i]);
      }
      assert data[|data|..] == [];
    }

    /** Copies three bytes of the data into the page. */
    method CopyThree(page: array<byte>, start: nat, data: seq<byte>, from: nat) returns (i: nat, next: nat)
      requires start + 3 <= page.Length && from + 3 <= |data|
      modifies page
      ensures i == start + 3 && next == from + 3
      ensures page[..i] == old(page[..start]) + data[from..next] && page[i..] == old(page[start + 3..])
    {
      i, next := start, from;
      for j := 0 to 3
        invariant i == start + j && next == from + j
        invariant page[..i] == old(page[..start]) + data[from..next] && page[i..] == old(page[start..])[j..]
      {
        ghost var filled := page[..i];
        page[i] := data[next];
        assert page[..i + 1] == filled + [data[next]];
        assert data[from..next + 1] == data[from..next] + [data[next]];
        i := i + 1;
        next := next + 1;
      }
    }

    /** Fills one page from the data at position `from`, without every fourth byte. */
    method FillPage(page: array<byte>, data: seq<byte>, from: nat) returns (next: nat)
      requires page.Length == APPLICATION_PAGE_LENGTH && from + PAGE_LENGTH <= |data|
      modifies page
      ensures page[..] == Shrunk(data[from..from + PAGE_LENGTH]) && next == from + PAGE_LENGTH
    {
      next := from;
      var i := 0;
      ghost var end := from + PAGE_LENGTH;
      hide Shrunk;
      assert page[..i] + Shrunk(data[next..end]) == Shrunk(data[from..end]);
      while i < APPLICATION_PAGE_LENGTH
        invariant 0 <= i <= APPLICATION_PAGE_LENGTH && i % 3 == 0 && next == from + i / 3 * 4
        invariant page[..i] + Shrunk(data[next..end]) == Shrunk(data[from..end])
      {
        ghost var rest := data[next..end];
        ghost var done := page[..i];
        ghost var at := next;
        ShrunkStep(rest);
        i, next := CopyThree(page, i, data, next);
        assert data[at..at + 3] == rest[..3];
        next := next + 1;
        assert rest[4..] == data[next..end] && |rest[..3]| == 3;
      }
      assert data[next..end] == [] && page[..i] == page[..];
    }

    /** Sends the padded image page by page. */
    method WritePages(data: seq<byte>)
      requires |data| % PAGE_LENGTH == 0 && startAddress < 65536
      modifies this`pages
      ensures pages == old(pages) + Pages(data, startAddress)
    {
      hide Pages, Shrunk;
      var position := 0;
      var dataAddress: nat := startAddress;
      assert data[0..] == data;
      while position < |data|
        invariant 0 <= position <= |data| && position % PAGE_LENGTH == 0 && (|data| - position) % PAGE_LENGTH == 0
        invariant pages + Pages(data[position..], dataAddress) == old(pages) + Pages(data, startAddress)
      {
        PagesStep(pages, data, position, dataAddress);
        var page := new byte[APPLICATION_PAGE_LENGTH];
        position := FillPage(page, data, position);
        pages := pages + [Page(dataAddress, page[..])];
        dataAddress := (dataAddress + PAGE_LENGTH) % 65536;
      }
      assert data[position..] == [];
    }

    /** Pads the image and writes it; the CRC and the length are those of the image without its padding. */
    method WriteHex(hex: IntelHex)
      requires Valid() && hex.hexData != []
      modifies this, crc, hex
      ensures Valid()
      ensures Sorted(hex.hexData) && multiset(hex.hexData) == multiset(old(hex.hexData)) && hex.hexData != []
      ensures startAddress == hex.hexData[0].address
      ensures var data := Assemble(hex.hexData, startAddress);
        && crc.crcCounter == Register(old(crc.crcCounter), data) && dataLength == |data| % 65536
        && pages == old(pages) + Pages(Padded(data), startAddress)
    {
      hide Assemble, Padded, Pages, Sorted, Register;
      var got := hex.GetData();
      assert |multiset(hex.hexData)| == |hex.hexData| && |multiset(old(hex.hexData))| == |old(hex.hexData)|;
      var data := got.value.1;
      startAddress := got.value.0;
      AddAll(data);
      dataLength := |data| % 65536;
      data := FillLastPage(data);
      WritePages(data);
    }

    method FillLastPage(image: seq<byte>) returns (data: seq<byte>)
      ensures data == Padded(image)
    {
      data := image;
      var mod := if |data| % PAGE_LENGTH == 0 then PAGE_LENGTH else |data| % PAGE_LENGTH;
      for i := mod to PAGE_LENGTH
        invariant data + Gap(i, PAGE_LENGTH) == Padded(image)
      {
        GapStep(data, i, PAGE_LENGTH);
        data := data + [if i % 4 == 3 then 0x00 else 0xFF];
      }
      assert data + [] == data;
    }

    /** Erases the application, writes the image, and sends its statistics. */
    method Program(hex: IntelHex) returns (stats: Stats)
      requires Valid() && hex.hexData != []
      modifies this, crc, hex
      ensures Valid()
      ensures Sorted(hex.hexData) && multiset(hex.hexData) == multiset(old(hex.hexData)) && hex.hexData != []
      ensures var start := hex.hexData[0].address; var data := Assemble(hex.hexData, start);
        pages == Pages(Padded(data), start) && stats == StatsFor(Of(data), start, |data| % 65536)
    {
      hide Assemble, Padded, Pages, Sorted, StatsFor, Register;
      pages := [];
      startAddress := 0;
      dataLength := 0;
      crc.Reset();
      WriteHex(hex);
      var dataCRC := crc.Get();
      stats := StatsFor(dataCRC, startAddress, dataLength);
    }
  }

  lemma PagesStep(before: seq<Page>, data: seq<byte>, position: nat, address: nat)
    requires position < |data| && (|data| - position) % PAGE_LENGTH == 0
    ensures position + PAGE_LENGTH <= |data|
    ensures before + Pages(data[position..], address)
         == before + [Page(address, Shrunk(data[position..position + PAGE_LENGTH]))]
            + Pages(data[position + PAGE_LENGTH..], (address + PAGE_LENGTH) % 65536)
  {
    var rest := data[position..];
    assert rest[..PAGE_LENGTH] == data[position..position + PAGE_LENGTH];
    assert rest[PAGE_LENGTH..] == data[position + PAGE_LENGTH..];
    hide Shrunk;
  }

  lemma ShrunkStep(block: seq<byte>)
    requires |block| % 4 == 0 && block != []
    ensures Shrunk(block) == block[..3] + Shrunk(block[4..])
  {
  }

  /** End to end: disjoint records within 16 bits, starting at a multiple of 4 and leaving the addresses that are 3
      modulo 4 at zero, are back at their addresses in the bootloader's memory. Its check of the statistics succeeds
      for every image shorter than the whole address space; for one that fills it the length sent is 0, and the check
      succeeds only if the CRC of the image happens to be that of no data. */
  lemma ProgrammedIsVerified(memory: Memory, lines: seq<HexLine>, sorted: seq<HexLine>)
    requires lines != [] && Proper(lines) && Disjoint(lines) && Sorted(sorted) && multiset(sorted) == multiset(lines)
    requires sorted != [] && sorted[0].address % 4 == 0 && RecordsLeaveFourth(lines)
    ensures
      var start := sorted[0].address; var data := Assemble(sorted, start); var pages := Pages(Padded(data), start);
      && (forall i :: 0 <= i < |pages| ==> |pages[i].data| % 3 == 0)
      && var after := MemoryAfter(memory, pages);
      && Fetched(after, start, |data|) == data
      && (Verified(StatsFor(Of(data), start, |data| % 65536), after) <==> |data| < 65536 || Of(data) == RESET)
  {
    var start := sorted[0].address;
    var data := Assemble(sorted, start);
    hide *;
    RestoredIff(memory, lines, sorted);
    VerifiedIff(data, start, MemoryAfter(memory, Pages(Padded(data), start)));
  }

  lemma {:induction false} MaxEndFits(lines: seq<HexLine>)
    requires lines != [] && Proper(lines)
    ensures MaxEnd(lines) <= 65536
    decreases lines
  {
    if |lines| > 1 {
      MaxEndFits(lines[1..]);
    }
  }

  lemma FetchedIs(data: seq<byte>, start: nat, memory: Memory)
    requires Holds(memory, start, data)
    ensures Fetched(memory, start, |data|) == data
  {
    hide At, Fetched;
    assert Holds(memory, start, Fetched(memory, start, |data|));
  }

  lemma VerifiedIff(data: seq<byte>, start: nat, memory: Memory)
    requires |data| <= 65536 && start < 65536 && Holds(memory, start, data)
    ensures Fetched(memory, start, |data|) == data
    ensures Verified(StatsFor(Of(data), start, |data| % 65536), memory) <==> |data| < 65536 || Of(data) == RESET
  {
    hide StatsBytes, Of, Word, Fetched, Holds;
    FetchedIs(data, start, memory);
    if |data| == 65536 {
      NoData();
    }
  }

  lemma NoData()
    ensures Of([]) == RESET
  {
  }
}
