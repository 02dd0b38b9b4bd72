/** The command and reply words exchanged with the FPGA, and the bulk command call that matches
    replies to commands. A FIFO word is 16 bits wide; its top four bits tell what it is. */
module Fpga {
  import opened Results
  import opened Crc
  import opened B = BusList

  type word = w: nat | w < 0x1_0000

  const TX_MASK: word := 0x1200
  const TX_FRAMEEND: word := 0x20DA
  const TX_TIMESTAMP: word := 0x3000
  const TX_WAIT_RX: word := 0x6000
  const TX_IRQTRIGGER: word := 0x7000
  const TX_WAIT_TRIGGER: word := 0x8000
  const TX_WAIT_LONG_RX: word := 0x9000

  // w & 0xF000, as a number from 0 to 15
  function Tag(w: word): nat {
    w / 0x1000
  }

  const TAG_DATA := 0x9
  const TAG_ENDFRAME := 0xA
  const TAG_TIMESTAMP := 0xB

  // ---- commands to words ----

  // TX_MASK | (b << 1): the shifted byte has no bit in common with the mask.
  function ByteWord(b: byte): word {
    TX_MASK + 2 * (b as nat)
  }

  // Waits above 4095 us are sent in milliseconds, in 12 bits.
  function WaitWord(timing: nat): word {
    if timing > 0x0FFF then TX_WAIT_LONG_RX + (timing / 1000 + 1) % 0x1000 else TX_WAIT_RX + timing
  }

  function ByteWords(buffer: seq<byte>): (ws: seq<word>)
    ensures |ws| == |buffer|
  {
    seq(|buffer|, i requires 0 <= i < |buffer| => ByteWord(buffer[i]))
  }

  function CommandWords(command: CommandRecord): seq<word> {
    ByteWords(command.buffer) + [TX_FRAMEEND, WaitWord(command.timing)]
  }

  function AllCommandWords(commands: seq<CommandRecord>): seq<word> {
    if commands == [] then [] else CommandWords(commands[0]) + AllCommandWords(commands[1..])
  }

  // The whole stream; the second word counts the words after it, up to the IRQ trigger.
  function CommandStream(tx: word, trigger: word, commands: seq<CommandRecord>): seq<word> {
    var body := [TX_WAIT_TRIGGER, TX_TIMESTAMP] + AllCommandWords(commands) + [TX_IRQTRIGGER];
    [tx, |body| % 0x1_0000] + body + [trigger]
  }

  // ---- the FPGA's reading of the command words ----

  type Sent = (seq<byte>, nat)

  function ByteOf(w: word): byte {
    ((w / 2) % 0x100) as byte
  }

  function WaitOf(w: word): nat {
    if Tag(w) == 0x9 then w % 0x1000 * 1000 else w % 0x1000
  }

  // Frames and waits, up to the IRQ trigger; None when the words are not a command stream.
  function ReadCommands(words: seq<word>, frame: seq<byte>, ended: bool): Option<seq<Sent>>
    decreases words
  {
    if words == [] then None
    else
      var w, rest := words[0], words[1..];
      match Tag(w)
      case 0x1 => if ended then None else ReadCommands(rest, frame + [ByteOf(w)], false)
      case 0x2 => if ended || w != 0x20DA then None else ReadCommands(rest, frame, true)
      case 0x6 | 0x9 =>
        if !ended then None
        else (match ReadCommands(rest, [], false)
              case None => None
              case Some(sent) => Some([(frame, WaitOf(w))] + sent))
      case 0x7 => if frame == [] && !ended && w == 0x7000 then Some([]) else None
      case _ => None
  }

  function Expected(commands: seq<CommandRecord>): (sent: seq<Sent>)
    ensures |sent| == |commands|
  {
    seq(|commands|, i requires 0 <= i < |commands| => (commands[i].buffer, WaitOf(WaitWord(commands[i].timing))))
  }

  lemma ByteWordRoundTrip(b: byte)
    ensures Tag(ByteWord(b)) == 0x1 && ByteOf(ByteWord(b)) == b
  {
    ByteNumber(b);
    assert (TX_MASK + 2 * (b as nat)) / 2 == 0x900 + (b as nat);
    assert (ByteWord(b) / 2) % 0x100 == b as nat;
  }

  lemma ByteNumber(b: byte)
    ensures 0 <= b as nat < 0x100 && (b as nat) as byte == b
  {
  }

  // The wait the FPGA reads is exact up to 4095 us; above it is rounded up by at most 1 ms, and
  // from 4095 ms on it wraps to less than what was asked for.
  lemma WaitBound(timing: nat)
    ensures timing <= 0x0FFF ==> WaitOf(WaitWord(timing)) == timing
    ensures timing > 0x0FFF ==>
              (timing < WaitOf(WaitWord(timing)) <= timing + 1000 <==> timing < 4_095_000)
    ensures timing >= 4_095_000 ==> WaitOf(WaitWord(timing)) < timing
  {
    var k := timing / 1000 + 1;
    assert timing < k * 1000 <= timing + 1000;
    if timing > 0x0FFF {
      var w := WaitWord(timing);
      assert w / 0x1000 == 0x9 && w % 0x1000 == k % 0x1000;
    }
  }

  lemma {:induction false} ReadBytes(buffer: seq<byte>, frame: seq<byte>, after: seq<word>)
    ensures ReadCommands(ByteWords(buffer) + after, frame, false) == ReadCommands(after, frame + buffer, false)
    decreases buffer
  {
    if buffer == [] {
      assert ByteWords(buffer) + after == after && frame + buffer == frame;
    } else {
      var words := ByteWords(buffer) + after;
      ByteWordRoundTrip(buffer[0]);
      assert words[0] == ByteWord(buffer[0]);
      assert words[1..] == ByteWords(buffer[1..]) + after;
      ReadBytes(buffer[1..], frame + [buffer[0]], after);
      assert frame + [buffer[0]] + buffer[1..] == frame + buffer;
    }
  }

  lemma {:induction false} ReadAllCommands(commands: seq<CommandRecord>, after: seq<word>)
    requires after != [] && after[0] == 0x7000
    ensures ReadCommands(AllCommandWords(commands) + after, [], false) == Some(Expected(commands))
    decreases commands
  {
    hide *;
    if commands == [] {
      ReadEnd(after);
    } else {
      var later := AllCommandWords(commands[1..]) + after;
      ReadOneCommand(commands[0], later);
      ReadAllCommands(commands[1..], after);
      FirstCommand(commands);
      assert AllCommandWords(commands) + after == CommandWords(commands[0]) + later;
    }
  }

  lemma ReadEnd(after: seq<word>)
    requires after != [] && after[0] == 0x7000
    ensures ReadCommands(AllCommandWords([]) + after, [], false) == Some(Expected([]))
  {
    assert AllCommandWords([]) + after == after;
  }

  lemma FirstCommand(commands: seq<CommandRecord>)
    requires commands != []
    ensures AllCommandWords(commands) == CommandWords(commands[0]) + AllCommandWords(commands[1..])
    ensures Expected(commands) == [(commands[0].buffer, WaitOf(WaitWord(commands[0].timing)))] + Expected(commands[1..])
  {
    hide CommandWords, WaitOf, WaitWord;
  }

  lemma ReadOneCommand(command: CommandRecord, later: seq<word>)
    ensures ReadCommands(CommandWords(command) + later, [], false)
         == match ReadCommands(later, [], false)
            case None => None
            case Some(rest) => Some([(command.buffer, WaitOf(WaitWord(command.timing)))] + rest)
  {
    var wait := WaitWord(command.timing);
    var tail := [TX_FRAMEEND, wait] + later;
    assert CommandWords(command) + later == ByteWords(command.buffer) + tail;
    ReadBytes(command.buffer, [], tail);
    assert [] + command.buffer == command.buffer;
    assert tail[1..] == [wait] + later && tail[1..][1..] == later;
    hide WaitWord, WaitOf, ByteWord, ByteWords;
  }

  // Reading the stream gives back every command buffer, byte for byte and in order, with its wait.
  lemma CommandStreamRoundTrip(tx: word, trigger: word, commands: seq<CommandRecord>)
    ensures var stream := CommandStream(tx, trigger, commands);
            && |stream| >= 6 && stream[0] == tx && stream[|stream| - 1] == trigger
            && stream[1] == (|stream| - 3) % 0x1_0000
            && stream[2..4] == [0x8000, 0x3000]
            && ReadCommands(stream[4..], [], false) == Some(Expected(commands))
  {
    var stream := CommandStream(tx, trigger, commands);
    assert stream[4..] == AllCommandWords(commands) + [TX_IRQTRIGGER, trigger];
    ReadAllCommands(commands, [TX_IRQTRIGGER, trigger]);
  }

  // ---- replies from words ----

  datatype Reply =
    | Complete
    | NoCommands
    | MissingResponse(address: byte, func: byte)
    | TimestampTwice
    | InvalidReply(w: word)
    | Failed(outcome: Outcome)

  // Reply words one by one: data bytes collect until a timestamp or end-of-frame word, which
  // hands the frame over. Eight bits of the end timestamp come with each timestamp word.
  function ReplyWords(commands: seq<CommandRecord>, functions: Functions, s: State, decoded: seq<byte>,
                      shift: nat, words: seq<word>): (State, Reply)
    decreases words
  {
    if words == [] then (s, Complete)
    else
      var w, rest := words[0], words[1..];
      if Tag(w) == TAG_DATA then ReplyWords(commands, functions, s, decoded + [ByteOf(w)], shift, rest)
      else if Tag(w) != TAG_TIMESTAMP && Tag(w) != TAG_ENDFRAME then (s, InvalidReply(w))
      else if Tag(w) == TAG_TIMESTAMP && shift == 64 then (s, TimestampTwice)
      else
        var shift' := if Tag(w) == TAG_TIMESTAMP then shift + 8 else shift;
        if decoded == [] then ReplyWords(commands, functions, s, decoded, shift', rest)
        else
          var (s', outcome) := Retry(commands, functions, s, decoded);
          if outcome == Delivered then ReplyWords(commands, functions, s', [], 0, rest)
          else (s', Failed(outcome))
  }

  // A reply on the wire: data words, then the end-of-frame word and the eight words of the
  // timestamp, in either order.
  datatype Block = Block(data: seq<word>, stamp: seq<word>, end: word, endFirst: bool)

  predicate WellFormed(b: Block) {
    && b.data != [] && (forall w :: w in b.data ==> Tag(w) == TAG_DATA)
    && |b.stamp| == 8 && (forall w :: w in b.stamp ==> Tag(w) == TAG_TIMESTAMP)
    && Tag(b.end) == TAG_ENDFRAME
  }

  function BlockWords(b: Block): seq<word> {
    b.data + if b.endFirst then [b.end] + b.stamp else b.stamp + [b.end]
  }

  function BlocksWords(blocks: seq<Block>): seq<word> {
    if blocks == [] then [] else BlockWords(blocks[0]) + BlocksWords(blocks[1..])
  }

  function FrameIn(b: Block): (frame: seq<byte>)
    ensures |frame| == |b.data|
  {
    seq(|b.data|, i requires 0 <= i < |b.data| => ByteOf(b.data[i]))
  }

  function FramesIn(blocks: seq<Block>): (frames: seq<seq<byte>>)
    ensures |frames| == |blocks|
  {
    seq(|blocks|, i requires 0 <= i < |blocks| => FrameIn(blocks[i]))
  }

  // A block that ends with its timestamp is followed by one that starts its end with one.
  predicate Mixed(blocks: seq<Block>) {
    exists i :: 0 < i < |blocks| && blocks[i - 1].endFirst && !blocks[i].endFirst
  }

  lemma {:induction false} DataWords(commands: seq<CommandRecord>, functions: Functions, s: State, decoded: seq<byte>,
                                     shift: nat, b: Block, k: nat, after: seq<word>)
    requires WellFormed(b) && k <= |b.data|
    ensures ReplyWords(commands, functions, s, decoded, shift, b.data[k..] + after) ==
            ReplyWords(commands, functions, s, decoded + FrameIn(b)[k..], shift, after)
    decreases |b.data| - k
  {
    if k == |b.data| {
      assert b.data[k..] + after == after;
      assert decoded + FrameIn(b)[k..] == decoded;
    } else {
      assert (b.data[k..] + after)[1..] == b.data[k + 1..] + after;
      assert decoded + FrameIn(b)[k..] == decoded + [ByteOf(b.data[k])] + FrameIn(b)[k + 1..];
      DataWords(commands, functions, s, decoded + [ByteOf(b.data[k])], shift, b, k + 1, after);
    }
  }

  // Between frames, timestamp words only count up.
  lemma {:induction false} StampWords(commands: seq<CommandRecord>, functions: Functions, s: State, shift: nat,
                                      stamp: seq<word>, after: seq<word>)
    requires (forall w :: w in stamp ==> Tag(w) == TAG_TIMESTAMP) && shift % 8 == 0
    requires shift + 8 * |stamp| <= 64
    ensures ReplyWords(commands, functions, s, [], shift, stamp + after) ==
            ReplyWords(commands, functions, s, [], shift + 8 * |stamp|, after)
    decreases stamp
  {
    if stamp == [] {
      assert stamp + after == after;
    } else {
      assert (stamp + after)[1..] == stamp[1..] + after;
      StampWords(commands, functions, s, shift + 8, stamp[1..], after);
    }
  }

  // One block is one reply; it fails if its end starts with a timestamp word while a whole
  // timestamp has already been counted.
  lemma OneBlock(commands: seq<CommandRecord>, functions: Functions, s: State, shift: nat, b: Block, after: seq<word>)
    requires WellFormed(b) && shift <= 64
    ensures var (s', outcome) := Retry(commands, functions, s, FrameIn(b));
            ReplyWords(commands, functions, s, [], shift, BlockWords(b) + after) ==
            if shift == 64 && !b.endFirst then (s, TimestampTwice)
            else if outcome == Delivered then
              ReplyWords(commands, functions, s', [], if b.endFirst then 64 else 56, after)
            else (s', Failed(outcome))
  {
    var frame := FrameIn(b);
    var (s', outcome) := Retry(commands, functions, s, frame);
    if b.endFirst {
      var rest := [b.end] + (b.stamp + after);
      assert BlockWords(b) + after == b.data[0..] + rest;
      DataWords(commands, functions, s, [], shift, b, 0, rest);
      assert [] + frame[0..] == frame && rest[1..] == b.stamp + after;
      StampWords(commands, functions, s', 0, b.stamp, after);
    } else {
      var rest := b.stamp + ([b.end] + after);
      assert BlockWords(b) + after == b.data[0..] + rest;
      DataWords(commands, functions, s, [], shift, b, 0, rest);
      assert [] + frame[0..] == frame && rest[1..] == b.stamp[1..] + ([b.end] + after);
      assert rest[0] == b.stamp[0];
      StampWords(commands, functions, s', 0, b.stamp[1..], [b.end] + after);
      assert ([b.end] + after)[1..] == after;
    }
  }

  // The stream of blocks is handled like the sequence of its frames, until a timestamp word
  // comes where a whole timestamp was already counted.
  lemma {:induction false} BlocksAreReplies(commands: seq<CommandRecord>, functions: Functions, s: State,
      shift: nat, blocks: seq<Block>)
    requires (forall b :: b in blocks ==> WellFormed(b)) && shift <= 64
    ensures var r := ReplyWords(commands, functions, s, [], shift, BlocksWords(blocks));
            var (s', outcome) := Replies(commands, functions, s, FramesIn(blocks));
            var mixed := Mixed(blocks) || (shift == 64 && blocks != [] && !blocks[0].endFirst);
            && (r.1 == Complete <==> outcome == Delivered && !mixed)
            && (!mixed ==> r == (s', if outcome == Delivered then Complete else Failed(outcome)))
    decreases blocks
  {
    if blocks == [] {
    } else {
      var (s1, outcome) := Retry(commands, functions, s, FrameIn(blocks[0]));
      OneBlock(commands, functions, s, shift, blocks[0], BlocksWords(blocks[1..]));
      assert FramesIn(blocks)[0] == FrameIn(blocks[0]);
      assert FramesIn(blocks)[1..] == FramesIn(blocks[1..]);
      var shift' := if blocks[0].endFirst then 64 else 56;
      if outcome == Delivered {
        BlocksAreReplies(commands, functions, s1, shift', blocks[1..]);
      }
    }
  }

  // The bulk call completes exactly when the replies' keys form a subsequence of the commanded
  // ones, every callback takes its reply, and the two orders of the end words do not clash.
  lemma ReplyCompletesIff(commands: seq<CommandRecord>, functions: Functions, s: State, blocks: seq<Block>)
    requires Commanded(commands) && s.index == 0 && forall b :: b in blocks ==> WellFormed(b)
    ensures ReplyWords(commands, functions, s, [], 0, BlocksWords(blocks)).1 == Complete <==>
            && AllAccepted(functions, FramesIn(blocks))
            && Embeds(commands, 0, FramesIn(blocks))
            && !Mixed(blocks)
  {
    BlocksAreReplies(commands, functions, s, 0, blocks);
    AllDeliveredIff(commands, functions, s, FramesIn(blocks));
  }

  // ---- any words ----

  // The frames in reply words, and how reading them ends: data bytes collect until a timestamp or end-of-frame word
  // closes the frame. A ninth timestamp word since the last frame was closed, and a word with another tag, end it.
  function Cut(words: seq<word>, decoded: seq<byte>, shift: nat): (seq<seq<byte>>, Reply)
    decreases words
  {
    if words == [] then ([], Complete)
    else
      var w, rest := words[0], words[1..];
      if Tag(w) == TAG_DATA then Cut(rest, decoded + [ByteOf(w)], shift)
      else if Tag(w) != TAG_TIMESTAMP && Tag(w) != TAG_ENDFRAME then ([], InvalidReply(w))
      else if Tag(w) == TAG_TIMESTAMP && shift == 64 then ([], TimestampTwice)
      else if decoded != [] then
        var (frames, end) := Cut(rest, [], 0);
        ([decoded] + frames, end)
      else Cut(rest, [], if Tag(w) == TAG_TIMESTAMP then shift + 8 else shift)
  }

  /** Handling the words one by one hands over their frames in turn: the first frame that is not delivered ends it,
      else the words do. */
  lemma {:induction false} WordsAreReplies(commands: seq<CommandRecord>, functions: Functions, s: State,
                                           decoded: seq<byte>, shift: nat, words: seq<word>)
    ensures var (frames, end) := Cut(words, decoded, shift);
      var (s', outcome) := Replies(commands, functions, s, frames);
      ReplyWords(commands, functions, s, decoded, shift, words)
      == (s', if outcome == Delivered then end else Failed(outcome))
    decreases words
  {
    hide Retry, ByteOf;
    if words == [] {
    } else {
      var w, rest := words[0], words[1..];
      if Tag(w) == TAG_DATA {
        WordsAreReplies(commands, functions, s, decoded + [ByteOf(w)], shift, rest);
      } else if (Tag(w) == TAG_TIMESTAMP && shift != 64) || Tag(w) == TAG_ENDFRAME {
        if decoded == [] {
          WordsAreReplies(commands, functions, s, [], if Tag(w) == TAG_TIMESTAMP then shift + 8 else shift, rest);
        } else {
          var frames := Cut(rest, [], 0).0;
          assert ([decoded] + frames)[1..] == frames;
          WordsAreReplies(commands, functions, Retry(commands, functions, s, decoded).0, [], 0, rest);
        }
      }
    }
  }

  /** Whatever words come, the bulk call completes exactly when they are read to their end, the keys of the frames in
      them form a subsequence of the commanded ones, and every callback takes its reply. */
  lemma AnyReplyCompletesIff(commands: seq<CommandRecord>, functions: Functions, s: State, words: seq<word>)
    requires Commanded(commands) && s.index == 0
    ensures var (frames, end) := Cut(words, [], 0);
      ReplyWords(commands, functions, s, [], 0, words).1 == Complete <==>
      end == Complete && AllAccepted(functions, frames) && Embeds(commands, 0, frames)
  {
    hide *;
    WordsAreReplies(commands, functions, s, [], 0, words);
    AllDeliveredIff(commands, functions, s, Cut(words, [], 0).0);
  }

  function DataBytes(words: seq<word>): seq<byte> {
    if words == [] then []
    else (if Tag(words[0]) == TAG_DATA then [ByteOf(words[0])] else []) + DataBytes(words[1..])
  }

  function Joined(frames: seq<seq<byte>>): seq<byte> {
    if frames == [] then [] else frames[0] + Joined(frames[1..])
  }

  // The bytes of the data words behind the last other word.
  function Unclosed(words: seq<word>, decoded: seq<byte>): seq<byte>
    decreases words
  {
    if words == [] then decoded
    else Unclosed(words[1..], if Tag(words[0]) == TAG_DATA then decoded + [ByteOf(words[0])] else [])
  }

  /** Words read to their end give every data byte to a frame, once and in order, except those behind the last
      timestamp or end-of-frame word: these are dropped without an error. No frame is empty. */
  lemma {:induction false} CutKeepsData(words: seq<word>, decoded: seq<byte>, shift: nat)
    requires Cut(words, decoded, shift).1 == Complete
    ensures Joined(Cut(words, decoded, shift).0) + Unclosed(words, decoded) == decoded + DataBytes(words)
    ensures forall f :: f in Cut(words, decoded, shift).0 ==> f != []
    decreases words
  {
    hide ByteOf;
    if words == [] {
      assert [] + decoded == decoded + [];
    } else {
      var w, rest := words[0], words[1..];
      if Tag(w) == TAG_DATA {
        CutKeepsData(rest, decoded + [ByteOf(w)], shift);
        assert decoded + [ByteOf(w)] + DataBytes(rest) == decoded + ([ByteOf(w)] + DataBytes(rest));
      } else if decoded == [] {
        CutKeepsData(rest, [], if Tag(w) == TAG_TIMESTAMP then shift + 8 else shift);
        assert [] + DataBytes(rest) == DataBytes(rest);
      } else {
        CutKeepsData(rest, [], 0);
      }
    }
  }

  /** Data words are dropped exactly when the last word is one. */
  lemma {:induction false} DroppedIff(words: seq<word>, decoded: seq<byte>)
    ensures Unclosed(words, decoded) != [] <==>
            if words == [] then decoded != [] else Tag(words[|words| - 1]) == TAG_DATA
    decreases words
  {
    hide ByteOf;
    if words == [] {
    } else {
      DroppedIff(words[1..], if Tag(words[0]) == TAG_DATA then decoded + [ByteOf(words[0])] else []);
    }
  }

  // ---- the bits of a word, and what the boards send ----

  // Bit i of a number, counted from the lowest.
  predicate BitSet(n: nat, i: nat)
    decreases i
  {
    if i == 0 then n % 2 == 1 else BitSet(n / 2, i - 1)
  }

  lemma HalfOfRest(n: nat, q: nat)
    requires q > 0
    ensures n % (2 * q) % 2 == n % 2 && n % (2 * q) / 2 == n / 2 % q
  {
    var d, r := n / 2 / q, n / 2 % q;
    assert n / 2 == q * d + r;
    assert n == 2 * q * d + (2 * r + n % 2);
    RestIs(n, 2 * q, d, 2 * r + n % 2);
  }

  lemma RestIs(n: nat, m: nat, d: nat, r: nat)
    requires n == m * d + r && r < m
    ensures n % m == r
  {
    var e, s := n / m, n % m;
    assert n == m * e + s;
    if d > e {
      Times(m, d, e);
    } else if d < e {
      Times(m, e, d);
    }
  }

  lemma {:induction false} Times(m: nat, d: nat, e: nat)
    requires d > e
    ensures m * d >= m * e + m
    decreases d
  {
    if d - 1 > e {
      Times(m, d - 1, e);
    }
  }

  // The eight lowest bits.
  lemma LowBits(n: nat, i: nat)
    requires i < 8
    ensures BitSet(n % 0x100, i) <==> BitSet(n, i)
  {
    LowBitsOf(n, 128, i, 8);
  }

  lemma {:induction false} LowBitsOf(n: nat, q: nat, i: nat, k: nat)
    requires i < k <= 8 && q == [1, 2, 4, 8, 16, 32, 64, 128][k - 1]
    ensures BitSet(n % (2 * q), i) <==> BitSet(n, i)
    decreases k
  {
    HalfOfRest(n, q);
    if i == 0 {
    } else {
      LowBitsOf(n / 2, q / 2, i - 1, k - 1);
    }
  }

  lemma HighBits(n: nat, i: nat)
    ensures BitSet(n, 8 + i) <==> BitSet(n / 0x100, i)
  {
    var n1, n2, n3 := n / 2, n / 4, n / 8;
    var n4, n5, n6, n7 := n / 16, n / 32, n / 64, n / 128;
    assert BitSet(n, 8 + i) == BitSet(n1, 7 + i) == BitSet(n2, 6 + i) == BitSet(n3, 5 + i) == BitSet(n4, 4 + i);
    assert BitSet(n4, 4 + i) == BitSet(n5, 3 + i) == BitSet(n6, 2 + i) == BitSet(n7, 1 + i) == BitSet(n7 / 2, i);
  }

  lemma NumberByte(n: nat)
    requires n < 0x100
    ensures (n as byte) as nat == n
  {
    var b := SomeByte(n);
    ByteNumber(b);
  }

  lemma {:induction false} SomeByte(n: nat) returns (b: byte)
    requires n < 0x100
    ensures b as nat == n
  {
    if n == 0 {
      b := 0;
    } else {
      var c := SomeByte(n - 1);
      b := c + 1;
    }
  }

  /** Bit i of the byte a data word carries is bit i + 1 of the word; the word's other bits play no part in it. */
  lemma DataWordBits(w: word, i: nat)
    requires i < 8
    ensures BitSet(ByteOf(w) as nat, i) <==> BitSet(w, i + 1)
  {
    NumberByte(w / 2 % 0x100);
    LowBits(w / 2, i);
  }

  /** Of a command word's bits, 9 and 12 are set, 1 to 8 are those of the byte, and the others are clear. */
  lemma CommandWordBits(b: byte, i: nat)
    requires i < 16
    ensures BitSet(ByteWord(b), i) <==> i == 9 || i == 12 || (1 <= i <= 8 && BitSet(b as nat, i - 1))
  {
    ByteNumber(b);
    var n := b as nat;
    if i == 0 {
    } else {
      var half := 0x900 + n;
      assert ByteWord(b) / 2 == half && half % 0x100 == n && half / 0x100 == 9;
      if i <= 8 {
        LowBits(half, i - 1);
      } else {
        HighBits(half, i - 9);
        BitsOfNine(i - 9);
      }
    }
  }

  lemma BitsOfNine(i: nat)
    ensures BitSet(9, i) <==> i == 0 || i == 3
  {
    if i > 3 {
      assert BitSet(9, i) == BitSet(4, i - 1) == BitSet(2, i - 2) == BitSet(1, i - 3) == BitSet(0, i - 4);
      NoBits(i - 4);
    } else {
      assert BitSet(9, 3) == BitSet(4, 2) == BitSet(2, 1) == BitSet(1, 0);
      assert BitSet(9, 2) == BitSet(4, 1) == BitSet(2, 0);
    }
  }

  lemma {:induction false} NoBits(i: nat)
    ensures !BitSet(0, i)
  {
    if i == 0 {
    } else {
      NoBits(i - 1);
    }
  }

  // The word of a board's reply byte.
  function BoardWord(b: byte): word {
    0x9200 + 2 * (b as nat)
  }

  function BoardBytes(frame: seq<byte>): (ws: seq<word>)
    ensures |ws| == |frame|
  {
    seq(|frame|, i requires 0 <= i < |frame| => BoardWord(frame[i]))
  }

  // A time stamp, a byte a word, lowest first.
  function StampOf(timestamp: nat, n: nat): (ws: seq<word>)
    ensures |ws| == n
  {
    if n == 0 then [] else [0xB000 + timestamp % 0x100] + StampOf(timestamp / 0x100, n - 1)
  }

  datatype BoardReply = BoardReply(frame: seq<byte>, timestamp: nat)

  function BoardReplyWords(reply: BoardReply): seq<word> {
    BoardBytes(reply.frame) + [0xA000] + StampOf(reply.timestamp, 8)
  }

  function AllBoardWords(replies: seq<BoardReply>): seq<word> {
    if replies == [] then [] else BoardReplyWords(replies[0]) + AllBoardWords(replies[1..])
  }

  function BoardFrames(replies: seq<BoardReply>): (frames: seq<seq<byte>>)
    ensures |frames| == |replies|
  {
    seq(|replies|, i requires 0 <= i < |replies| => replies[i].frame)
  }

  lemma BoardWordRoundTrip(b: byte)
    ensures Tag(BoardWord(b)) == TAG_DATA && ByteOf(BoardWord(b)) == b
  {
    ByteNumber(b);
    assert BoardWord(b) / 2 == 0x4900 + (b as nat);
    assert BoardWord(b) / 2 % 0x100 == b as nat;
  }

  lemma {:induction false} CutBytes(frame: seq<byte>, decoded: seq<byte>, shift: nat, rest: seq<word>)
    ensures Cut(BoardBytes(frame) + rest, decoded, shift) == Cut(rest, decoded + frame, shift)
    decreases frame
  {
    hide ByteOf, BoardWord;
    if frame == [] {
      assert BoardBytes(frame) + rest == rest && decoded + frame == decoded;
    } else {
      var words := BoardBytes(frame) + rest;
      BoardWordRoundTrip(frame[0]);
      assert words[0] == BoardWord(frame[0]) && words[1..] == BoardBytes(frame[1..]) + rest;
      CutBytes(frame[1..], decoded + [frame[0]], shift, rest);
      assert decoded + [frame[0]] + frame[1..] == decoded + frame;
    }
  }

  lemma {:induction false} CutStamp(timestamp: nat, n: nat, shift: nat, rest: seq<word>)
    requires shift % 8 == 0 && shift + 8 * n <= 64
    ensures Cut(StampOf(timestamp, n) + rest, [], shift) == Cut(rest, [], shift + 8 * n)
    decreases n
  {
    var words := StampOf(timestamp, n) + rest;
    if n == 0 {
      assert words == rest;
    } else {
      assert words[0] == 0xB000 + timestamp % 0x100 && Tag(words[0]) == TAG_TIMESTAMP;
      assert words[1..] == StampOf(timestamp / 0x100, n - 1) + rest;
      CutStamp(timestamp / 0x100, n - 1, shift + 8, rest);
    }
  }

  lemma CutOneReply(reply: BoardReply, shift: nat, rest: seq<word>)
    requires reply.frame != []
    ensures var (frames, end) := Cut(rest, [], 64);
      Cut(BoardReplyWords(reply) + rest, [], shift) == ([reply.frame] + frames, end)
  {
    hide BoardBytes, StampOf;
    var stamp := StampOf(reply.timestamp, 8) + rest;
    var tail := [0xA000] + stamp;
    assert BoardReplyWords(reply) + rest == BoardBytes(reply.frame) + tail;
    CutBytes(reply.frame, [], shift, tail);
    assert [] + reply.frame == reply.frame;
    assert tail[0] == 0xA000 && Tag(0xA000) == TAG_ENDFRAME && tail[1..] == stamp;
    CutStamp(reply.timestamp, 8, 0, rest);
  }

  /** The words of any replies that are not empty are cut into exactly their frames, byte for byte, and read to their
      end. */
  lemma {:induction false} BoardWordsCut(replies: seq<BoardReply>, shift: nat)
    requires forall i :: 0 <= i < |replies| ==> replies[i].frame != []
    ensures Cut(AllBoardWords(replies), [], shift) == (BoardFrames(replies), Complete)
    decreases replies
  {
    hide BoardReplyWords;
    if replies == [] {
    } else {
      CutOneReply(replies[0], shift, AllBoardWords(replies[1..]));
      BoardWordsCut(replies[1..], 64);
      hide Cut;
      assert BoardFrames(replies) == [replies[0].frame] + BoardFrames(replies[1..]);
    }
  }

  /** So when boards reply, the bulk call completes exactly when the keys of the frames they sent form a subsequence of
      the commanded ones and every callback takes its frame; else it fails with the outcome of the first that is not
      delivered. */
  lemma BoardRepliesCompleteIff(commands: seq<CommandRecord>, functions: Functions, s: State, replies: seq<BoardReply>)
    requires Commanded(commands) && s.index == 0
    requires forall i :: 0 <= i < |replies| ==> replies[i].frame != []
    ensures var (s', outcome) := Replies(commands, functions, s, BoardFrames(replies));
      ReplyWords(commands, functions, s, [], 0, AllBoardWords(replies))
      == (s', if outcome == Delivered then Complete else Failed(outcome))
    ensures ReplyWords(commands, functions, s, [], 0, AllBoardWords(replies)).1 == Complete <==>
      AllAccepted(functions, BoardFrames(replies)) && Embeds(commands, 0, BoardFrames(replies))
  {
    hide *;
    BoardWordsCut(replies, 0);
    WordsAreReplies(commands, functions, s, [], 0, AllBoardWords(replies));
    AllDeliveredIff(commands, functions, s, BoardFrames(replies));
  }

  lemma ByteWordsAt(buffer: seq<byte>, i: nat)
    requires i < |buffer|
    ensures |ByteWords(buffer)| == |buffer|
    ensures ByteWords(buffer)[..i] + [ByteWord(buffer[i])] == ByteWords(buffer)[..i + 1]
  {
    hide ByteWord;
  }

  lemma CommandDone(before: seq<word>, open: seq<CommandRecord>)
    requires open != []
    ensures |ByteWords(open[0].buffer)| == |open[0].buffer|
    ensures before + ByteWords(open[0].buffer)[..|open[0].buffer|] + [TX_FRAMEEND] + [WaitWord(open[0].timing)]
            + AllCommandWords(open[1..])
         == before + AllCommandWords(open)
  {
    hide ByteWords, WaitWord;
    var bytes := ByteWords(open[0].buffer);
    assert bytes[..|open[0].buffer|] == bytes;
    assert [TX_FRAMEEND] + [WaitWord(open[0].timing)] == [TX_FRAMEEND, WaitWord(open[0].timing)];
  }

  lemma NoCommandWords()
    ensures AllCommandWords([]) == []
  {
  }

  lemma StreamDone(tx: word, trigger: word, commands: seq<CommandRecord>)
    ensures var data := [tx, 0, TX_WAIT_TRIGGER, TX_TIMESTAMP] + AllCommandWords(commands) + [TX_IRQTRIGGER];
      data[1 := (|data| - 2) % 0x1_0000] + [trigger] == CommandStream(tx, trigger, commands)
  {
    hide AllCommandWords;
  }

  class FPGA {
    const modbusSoftwareTrigger: word

    constructor (trigger: word)
      ensures modbusSoftwareTrigger == trigger
    {
      modbusSoftwareTrigger := trigger;
    }

    // Builds the command words.
    method CommandData(ilc: BusList, tx: word) returns (data: seq<word>)
      ensures data == CommandStream(tx, modbusSoftwareTrigger, ilc.commands)
    {
      hide *;
      data := [tx, 0, TX_WAIT_TRIGGER, TX_TIMESTAMP];
      ghost var head := data;
      assert ilc.commands[0..] == ilc.commands;
      for c := 0 to |ilc.commands|
        invariant data + AllCommandWords(ilc.commands[c..]) == head + AllCommandWords(ilc.commands)
      {
        var cmd := ilc.commands[c];
        assert ilc.commands[c..][1..] == ilc.commands[c + 1..];
        ghost var before := data;
        for i := 0 to |cmd.buffer|
          invariant data == before + ByteWords(cmd.buffer)[..i]
        {
          ByteWordsAt(cmd.buffer, i);
          data := data + [ByteWord(cmd.buffer[i])];
        }
        data := data + [TX_FRAMEEND];
        data := data + [WaitWord(cmd.timing)];
        CommandDone(before, ilc.commands[c..]);
      }
      NoCommandWords();
      assert ilc.commands[|ilc.commands|..] == [] && data + [] == data;
      data := data + [TX_IRQTRIGGER];
      data := data[1 := (|data| - 2) % 0x1_0000];
      data := data + [modbusSoftwareTrigger];
      StreamDone(tx, modbusSoftwareTrigger, ilc.commands);
    }

    // Sends the commands of the list and handles the reply words that came back.
    method IlcCommands(ilc: BusList, tx: word, reply: seq<word>) returns (sent: seq<word>, r: Reply)
      requires Commanded(ilc.commands)
      modifies ilc`parsedIndex, ilc`errors, ilc`calls
      ensures sent == if ilc.commands == [] then [] else CommandStream(tx, modbusSoftwareTrigger, ilc.commands)
      ensures ilc.commands == [] ==> r == NoCommands && ilc.Progress() == old(ilc.Progress())
      ensures ilc.commands != [] && |reply| < 8 ==>
                r == MissingResponse(ilc.commands[0].buffer[0], ilc.commands[0].buffer[1]) &&
                ilc.Progress() == old(ilc.Progress())
      ensures ilc.commands != [] && |reply| >= 8 ==>
                (ilc.Progress(), r) ==
                ReplyWords(ilc.commands, ilc.functions, old(ilc.Progress()).(index := 0), [], 0, reply[4..])
    {
      sent := [];
      if |ilc.commands| == 0 {
        return sent, NoCommands;
      }
      sent := CommandData(ilc, tx);
      if |reply| < 8 {
        return sent, MissingResponse(ilc.commands[0].buffer[0], ilc.commands[0].buffer[1]);
      }
      ilc.NextMessage();
      r := HandleReply(ilc, reply);
    }

    method HandleReply(ilc: BusList, buffer: seq<word>) returns (r: Reply)
      requires |buffer| >= 8
      modifies ilc`parsedIndex, ilc`errors, ilc`calls
      ensures (ilc.Progress(), r) ==
              ReplyWords(ilc.commands, ilc.functions, old(ilc.Progress()), [], 0, buffer[4..])
    {
      var endTsShift := 0;
      var decoded: seq<byte> := [];
      var p := 4;
      while p < |buffer|
        invariant 4 <= p <= |buffer|
        invariant ReplyWords(ilc.commands, ilc.functions, ilc.Progress(), decoded, endTsShift, buffer[p..]) ==
                  ReplyWords(ilc.commands, ilc.functions, old(ilc.Progress()), [], 0, buffer[4..])
      {
        assert buffer[p..][1..] == buffer[p + 1..];
        var tag := Tag(buffer[p]);
        if tag == TAG_DATA {
          decoded := decoded + [ByteOf(buffer[p])];
        } else if tag == TAG_TIMESTAMP || tag == TAG_ENDFRAME {
          if tag == TAG_TIMESTAMP {
            if endTsShift == 64 {
              return TimestampTwice;
            }
            endTsShift := endTsShift + 8;
          }
          if decoded != [] {
            var outcome := RetryParse(ilc, decoded);
            if outcome != Delivered {
              return Failed(outcome);
            }
            decoded := [];
            endTsShift := 0;
          }
        } else {
          return InvalidReply(buffer[p]);
        }
        p := p + 1;
      }
      assert buffer[p..] == [];
      r := Complete;
    }

    // Passes over the commands that got no reply.
    method RetryParse(ilc: BusList, frame: seq<byte>) returns (outcome: Outcome)
      modifies ilc`parsedIndex, ilc`errors, ilc`calls
      ensures (ilc.Progress(), outcome) == Retry(ilc.commands, ilc.functions, old(ilc.Progress()), frame)
    {
      outcome := ilc.Parse(frame);
      while outcome == WrongResponse
        invariant outcome == WrongResponse ==>
                    Retry(ilc.commands, ilc.functions, ilc.Progress(), frame) ==
                    Retry(ilc.commands, ilc.functions, old(ilc.Progress()), frame)
        invariant outcome != WrongResponse ==>
                    (ilc.Progress(), outcome) == Retry(ilc.commands, ilc.functions, old(ilc.Progress()), frame)
        decreases |ilc.commands| - ilc.parsedIndex, outcome == WrongResponse
      {
        outcome := ilc.Parse(frame);
      }
    }
  }
}
