/** The cache of the MPU against the device, over every run of commands, answers and lost messages. */
module MpuDevice {
  import opened Results
  import opened Crc
  import opened ModbusCodec
  import opened Mpu
  import opened MpuCoherence
  import Bus = BusList

  // It answers as the MODBUS Application Protocol Specification V1.1b3 says in sections 6.2, 6.3, 6.6 and 6.12.
  datatype Device = Device(registers: seq<bv16>, inputs: seq<bool>)

  predicate Whole(d: Device) {
    |d.registers| == 65536 && |d.inputs| == 65536
  }

  // Requests a device serves: the quantity is within the protocol's limits and the addresses exist.
  predicate Legal(r: Request) {
    match r
    case ReadInputs(address, count) => 1 <= Num(count) <= 2000 && Num(address) + Num(count) <= 65536
    case ReadRegisters(address, count) => 1 <= Num(count) <= 125 && Num(address) + Num(count) <= 65536
    case Preset(_, _) => true
    case Presets(address, values) => 1 <= |values| <= 123 && Num(address) + |values| <= 65536
  }

  // ---- the device's side of the codec ----

  function WordsFrom(bytes: seq<byte>, base: nat, n: nat): (values: seq<bv16>)
    requires base + 2 * n <= |bytes|
    ensures |values| == n && WordsAt(bytes, base, values)
  {
    seq(n, i requires 0 <= i < n => Word16(bytes[base + 2 * i], bytes[base + 2 * i + 1]))
  }

  // The request in the bytes of a command.
  function RequestOf(b: seq<byte>): Option<Request> {
    if |b| < 8 then None
    else
      var address, second := Word16(b[2], b[3]), Word16(b[4], b[5]);
      if b[1] == READ_INPUT_STATUS then Some(ReadInputs(address, second))
      else if b[1] == READ_HOLDING_REGISTERS then Some(ReadRegisters(address, second))
      else if b[1] == PRESET_HOLDING_REGISTER then Some(Preset(address, second))
      else if b[1] == PRESET_HOLDING_REGISTERS && |b| == 9 + 2 * Num(second) then
        Some(Presets(address, WordsFrom(b, 7, Num(second))))
      else None
  }

  // Bit j of byte k holds input 8 k + j; unused bits are 0.
  function PackByte(bits: seq<bool>, k: nat): byte {
    var at := (j: nat) => 8 * k + j < |bits| && bits[8 * k + j];
    Byte(at(0), at(1), at(2), at(3), at(4), at(5), at(6), at(7))
  }

  function Byte(b0: bool, b1: bool, b2: bool, b3: bool, b4: bool, b5: bool, b6: bool, b7: bool): byte {
    (if b0 then 0x01 else 0) | (if b1 then 0x02 else 0) | (if b2 then 0x04 else 0) | (if b3 then 0x08 else 0) |
    (if b4 then 0x10 else 0) | (if b5 then 0x20 else 0) | (if b6 then 0x40 else 0) | (if b7 then 0x80 else 0)
  }

  function Pack(bits: seq<bool>): (packed: seq<byte>)
    ensures |packed| == Ceil8(|bits|)
  {
    seq(Ceil8(|bits|), k requires 0 <= k => PackByte(bits, k))
  }

  function Octets(bytes: seq<byte>): seq<Value> {
    if bytes == [] then [] else [U8(bytes[0])] + Octets(bytes[1..])
  }

  // The registers after a write of values from the address on.
  function Written(registers: seq<bv16>, address: nat, values: seq<bv16>): (after: seq<bv16>)
    requires address + |values| <= |registers|
    ensures |after| == |registers|
    ensures forall k :: 0 <= k < |after| ==>
      after[k] == if address <= k < address + |values| then values[k - address] else registers[k]
  {
    registers[..address] + values + registers[address + |values|..]
  }

  // The device after a request, and its reply.
  function Serve(node: byte, d: Device, r: Request): (Device, seq<byte>)
    requires Whole(d) && Legal(r)
  {
    match r
    case ReadInputs(address, count) =>
      var bits := d.inputs[Num(address)..Num(address) + Num(count)];
      (d, FrameOf(node, READ_INPUT_STATUS, [U8(Low8(Ceil8(Num(count))))] + Octets(Pack(bits))))
    case ReadRegisters(address, count) =>
      var values := d.registers[Num(address)..Num(address) + Num(count)];
      (d, FrameOf(node, READ_HOLDING_REGISTERS, [U8(Low8(Num(count) * 2))] + Words(values)))
    case Preset(address, value) =>
      (d.(registers := Written(d.registers, Num(address), [value])),
       FrameOf(node, PRESET_HOLDING_REGISTER, [U16(address), U16(value)]))
    case Presets(address, values) =>
      (d.(registers := Written(d.registers, Num(address), values)),
       FrameOf(node, PRESET_HOLDING_REGISTERS, [U16(address), U16(Low16(|values|))]))
  }

  lemma LowByte(n: nat)
    requires n < 256
    ensures Octet(Low8(n)) == n
  {
  }

  lemma LowWord(n: nat)
    requires n < 65536
    ensures Num(Low16(n)) == n
  {
  }

  lemma EncodeWord(x: bv16)
    ensures Encode(U16(x)) == Bytes16(x)
  {
    hide Bytes16;
  }

  lemma {:induction false} WordsEncoded(before: seq<byte>, values: seq<bv16>, after: seq<byte>)
    ensures |EncodeAll(Words(values))| == 2 * |values|
    ensures WordsAt(before + EncodeAll(Words(values)) + after, |before|, values)
    decreases values
  {
    hide Bytes16, Word16, Encode;
    if values == [] {
    } else {
      assert Encode(U16(values[0])) == Bytes16(values[0]) by { EncodeWord(values[0]); }
      WordOfBytes(values[0]);
      var rest := EncodeAll(Words(values[1..]));
      var bytes := before + EncodeAll(Words(values)) + after;
      assert Words(values)[1..] == Words(values[1..]);
      assert EncodeAll(Words(values)) == Bytes16(values[0]) + rest;
      var before' := before + Bytes16(values[0]);
      assert bytes == before' + rest + after;
      WordsEncoded(before', values[1..], after);
      forall j | 0 <= j < |values|
        ensures Word16(bytes[|before| + 2 * j], bytes[|before| + 2 * j + 1]) == values[j]
      {
        if j > 0 {
          assert values[1..][j - 1] == values[j];
          assert |before'| + 2 * (j - 1) == |before| + 2 * j;
        }
      }
    }
  }

  lemma {:induction false} OctetsEncoded(bytes: seq<byte>)
    ensures EncodeAll(Octets(bytes)) == bytes
    decreases bytes
  {
    if bytes == [] {
    } else {
      OctetsEncoded(bytes[1..]);
      assert Octets(bytes)[1..] == Octets(bytes[1..]);
    }
  }

  /** The device reads back the request from the bytes the MPU sends. */
  lemma RequestDecodes(node: byte, r: Request)
    requires Legal(r)
    ensures RequestOf(CommandOf(node, r)) == Some(r)
  {
    CommandBytes(node, r);
    if r.Presets? {
      PresetsLayout(node, r.address, r.values);
      hide CommandOf, Word16, WordsAt, Low16, CrcBytes, EncodeAll, Words;
      assert WordsFrom((CommandOf(node, r)), 7, |r.values|) == r.values;
    } else {
      hide CommandOf, Word16, CrcBytes, EncodeAll, Words;
    }
  }

  lemma PresetsFrame(node: byte, address: bv16, values: seq<bv16>) returns (crc: seq<byte>)
    ensures |crc| == 2
    ensures CommandOf(node, Presets(address, values))
         == [node, PRESET_HOLDING_REGISTERS] + Bytes16(address) + Bytes16(Low16(|values|)) + [Low8(|values| * 2)]
            + EncodeAll(Words(values)) + crc
  {
    hide *;
    var n, octet := Low16(|values|), Low8(|values| * 2);
    PresetsCommand(node, address, values);
    crc := Layout(node, PRESET_HOLDING_REGISTERS, [U16(address), U16(n), U8(octet)] + Words(values));
    PresetArguments(address, n, octet, values);
  }

  lemma PresetsCommand(node: byte, address: bv16, values: seq<bv16>)
    ensures CommandOf(node, Presets(address, values)) == FrameOf(node, PRESET_HOLDING_REGISTERS,
              [U16(address), U16(Low16(|values|)), U8(Low8(|values| * 2))] + Words(values))
  {
    hide FrameOf, Low16, Low8, Words;
  }

  lemma Layout(node: byte, func: byte, params: seq<Value>) returns (crc: seq<byte>)
    ensures |crc| == 2 && FrameOf(node, func, params) == [node, func] + EncodeAll(params) + crc
    ensures CrcHolds(FrameOf(node, func, params), 2 + |EncodeAll(params)|)
  {
    var head := [node, func] + EncodeAll(params);
    crc := CrcBytes(head);
    FrameIsSealed(head);
    CheckSucceedsIff(head + crc, |head|);
  }

  lemma PresetsLayout(node: byte, address: bv16, values: seq<bv16>)
    requires |values| <= 123
    ensures var b := CommandOf(node, Presets(address, values));
      && Num(Low16(|values|)) == |values| && |b| == 9 + 2 * |values| && WordsAt(b, 7, values)
      && b[1] == PRESET_HOLDING_REGISTERS && Word16(b[4], b[5]) == Low16(|values|)
  {
    hide *;
    var n, octet := Low16(|values|), Low8(|values| * 2);
    LowWord(|values|);
    WordOfBytes(n);
    var crc := PresetsFrame(node, address, values);
    var before := [node, PRESET_HOLDING_REGISTERS] + Bytes16(address) + Bytes16(n) + [octet];
    WordsEncoded(before, values, crc);
  }

  /** The counts of a preset of many registers are truncated to 16 and 8 bits; the values themselves are all sent. */
  lemma PresetsCounts(node: byte, address: bv16, values: seq<bv16>)
    ensures var b := CommandOf(node, Presets(address, values));
      && |b| == 9 + 2 * |values| && WordsAt(b, 7, values)
      && Num(Word16(b[4], b[5])) == |values| % 65536 && Octet(b[6]) == 2 * |values| % 256
    ensures Num(InfoFor(Presets(address, values)).length) == |values| % 65536
  {
    assert InfoFor(Presets(address, values)).length == Low16(|values|);
    hide *;
    var n, octet := Low16(|values|), Low8(|values| * 2);
    LowWordOf(|values|);
    LowByteOf(|values| * 2);
    WordOfBytes(n);
    var crc := PresetsFrame(node, address, values);
    var before := [node, PRESET_HOLDING_REGISTERS] + Bytes16(address) + Bytes16(n) + [octet];
    WordsEncoded(before, values, crc);
  }

  lemma LowWordOf(n: nat)
    ensures Num(Low16(n)) == n % 65536
  {
    hide *;
    SameLow(n);
    LowWord(n % 65536);
  }

  lemma LowByteOf(n: nat)
    ensures Octet(Low8(n)) == n % 256
  {
    hide *;
    SameLow(n);
    LowByte(n % 256);
  }

  lemma SameLow(n: nat)
    ensures Low16(n) == Low16(n % 65536) && Low8(n) == Low8(n % 256)
  {
    assert n % 65536 % 65536 == n % 65536 && n % 256 % 256 == n % 256;
  }

  lemma PresetArguments(address: bv16, n: bv16, octet: byte, values: seq<bv16>)
    ensures EncodeAll([U16(address), U16(n), U8(octet)] + Words(values))
         == Bytes16(address) + Bytes16(n) + [octet] + EncodeAll(Words(values))
  {
    hide Bytes16;
    var counts := [U8(octet)] + Words(values);
    TwoWords(address, n, counts);
    assert [U16(address), U16(n), U8(octet)] + Words(values) == [U16(address), U16(n)] + counts;
    assert counts[1..] == Words(values);
    assert EncodeAll(counts) == [octet] + EncodeAll(Words(values));
  }

  // ---- replies of the device, seen by the handlers ----

  // A frame whose data begin with a byte count.
  lemma CountedFrame(node: byte, func: byte, count: byte, body: seq<Value>) returns (crc: seq<byte>)
    ensures |crc| == 2
    ensures FrameOf(node, func, [U8(count)] + body) == [node, func, count] + EncodeAll(body) + crc
    ensures CrcHolds(FrameOf(node, func, [U8(count)] + body), 3 + |EncodeAll(body)|)
  {
    hide *;
    EncodedCons(count, body);
    crc := Layout(node, func, [U8(count)] + body);
  }

  lemma EncodedCons(count: byte, body: seq<Value>)
    ensures EncodeAll([U8(count)] + body) == [count] + EncodeAll(body)
  {
    hide EncodeAll;
    EncodedFirst([U8(count)] + body);
    assert ([U8(count)] + body)[1..] == body;
  }

  lemma EncodedFirst(params: seq<Value>)
    requires params != []
    ensures EncodeAll(params) == Encode(params[0]) + EncodeAll(params[1..])
  {
    hide Encode;
  }

  lemma RegistersReply(node: byte, address: bv16, values: seq<bv16>, length: bv16, cache: Cache)
    requires |values| <= 125
    ensures var frame := FrameOf(node, READ_HOLDING_REGISTERS, [U8(Low8(|values| * 2))] + Words(values));
      && |frame| >= 4 && frame[0] == node && frame[1] == READ_HOLDING_REGISTERS
      && HandleRegisters(node, Info(address, length), cache, frame)
      == (cache.(registers := Put(cache.registers, address, 0, values)), true)
  {
    hide *;
    LowByte(|values| * 2);
    var count := Low8(|values| * 2);
    var crc := CountedFrame(node, READ_HOLDING_REGISTERS, count, Words(values));
    var frame := FrameOf(node, READ_HOLDING_REGISTERS, [U8(count)] + Words(values));
    WordsEncoded([node, READ_HOLDING_REGISTERS, count], values, crc);
    StoreRegistersPuts(cache.registers, address, 0, values, frame, 3);
    RegistersHandled(node, address, values, length, cache, frame);
  }

  lemma RegistersHandled(node: byte, address: bv16, values: seq<bv16>, length: bv16, cache: Cache, frame: seq<byte>)
    requires |frame| == 5 + 2 * |values| && frame[0] == node && Octet(frame[2]) == |values| * 2
    requires CrcHolds(frame, 3 + 2 * |values|)
    requires StoreRegisters(cache.registers, address, 0, |values|, frame, 3)
          == (Put(cache.registers, address, 0, values), Some(3 + 2 * |values|))
    ensures |frame| >= 4
    ensures HandleRegisters(node, Info(address, length), cache, frame)
         == (cache.(registers := Put(cache.registers, address, 0, values)), true)
  {
    hide Octet, CrcHolds, Put, StoreRegisters;
  }

  lemma PackedBit(bits: seq<bool>, i: nat)
    requires i < |bits| && i / 8 < |Pack(bits)|
    ensures BitOf(Pack(bits)[i / 8], i % 8) == bits[i]
  {
    assert 8 * (i / 8) + i % 8 == i;
    hide Pack;
    assert Pack(bits)[i / 8] == PackByte(bits, i / 8) by {
      assert Pack(bits)[(i / 8)] == PackByte(bits, (i / 8));
    }
    assert BitOf(PackByte(bits, (i / 8)), (i % 8)) == (8 * (i / 8) + (i % 8) < |bits| && bits[8 * (i / 8) + (i % 8)]);
  }

  lemma ByteBits(b0: bool, b1: bool, b2: bool, b3: bool, b4: bool, b5: bool, b6: bool, b7: bool)
    ensures var b := Byte(b0, b1, b2, b3, b4, b5, b6, b7);
      && BitOf(b, 0) == b0 && BitOf(b, 1) == b1 && BitOf(b, 2) == b2 && BitOf(b, 3) == b3
      && BitOf(b, 4) == b4 && BitOf(b, 5) == b5 && BitOf(b, 6) == b6 && BitOf(b, 7) == b7
  {
  }

  lemma PackedInputs(bits: seq<bool>, frame: seq<byte>)
    requires 3 + Ceil8(|bits|) <= |frame| && frame[3..3 + Ceil8(|bits|)] == Pack(bits)
    ensures Unpacked(frame, 3, |bits|) == bits
  {
    hide Pack, BitOf;
    var read := Unpacked(frame, 3, |bits|);
    forall i | 0 <= i < |bits|
      ensures read[i] == bits[i]
    {
      CeilCovers(i, |bits|);
      assert frame[3 + i / 8] == frame[3..3 + Ceil8(|bits|)][i / 8];
      PackedBit(bits, i);
    }
  }

  lemma InputsReply(node: byte, address: bv16, bits: seq<bool>, length: bv16, cache: Cache)
    requires 1 <= |bits| <= 2000 && Num(length) == |bits|
    ensures var frame := FrameOf(node, READ_INPUT_STATUS, [U8(Low8(Ceil8(|bits|)))] + Octets(Pack(bits)));
      && |frame| >= 4 && frame[0] == node && frame[1] == READ_INPUT_STATUS
      && HandleInputs(node, Info(address, length), cache, frame)
      == if address == 0 then (cache, false)
         else (cache.(inputs := Put(cache.inputs, address, 0, bits)), true)
  {
    hide *;
    var packed := Pack(bits);
    var count := Low8(|packed|);
    CeilBound(|bits|);
    LowByte(|packed|);
    OctetsEncoded(packed);
    var crc := CountedFrame(node, READ_INPUT_STATUS, count, Octets(packed));
    var frame := FrameOf(node, READ_INPUT_STATUS, [U8(count)] + Octets(packed));
    assert frame[3..3 + |packed|] == packed;
    PackedInputs(bits, frame);
    StoreInputsPuts(cache.inputs, address, 0, |bits|, 0, frame, 3);
    InputsHandled(node, address, bits, length, cache, frame);
  }

  lemma CeilBound(n: nat)
    ensures Ceil8(0) == 0 && (n <= 2000 ==> Ceil8(n) <= 250)
  {
  }

  lemma InputsHandled(node: byte, address: bv16, bits: seq<bool>, length: bv16, cache: Cache, frame: seq<byte>)
    requires |bits| >= 1 && Num(length) == |bits| && |frame| == 5 + Ceil8(|bits|) && frame[0] == node
    requires Octet(frame[2]) == Ceil8(|bits|) && CrcHolds(frame, 3 + Ceil8(|bits|))
    requires StoreInputs(cache.inputs, address, 0, |bits|, 0, frame, 3)
          == (Put(cache.inputs, address, 0, bits), Some(3 + Ceil8(|bits|)))
    ensures |frame| >= 4
    ensures HandleInputs(node, Info(address, length), cache, frame)
         == if address == 0 then (cache, false)
            else (cache.(inputs := Put(cache.inputs, address, 0, bits)), true)
  {
    assert length != 0;
    hide Octet, CrcHolds, Put, StoreInputs, Ceil8, Num;
  }

  lemma PresetReply(node: byte, func: byte, address: bv16, second: bv16)
    ensures var frame := FrameOf(node, func, [U16(address), U16(second)]);
      && |frame| == 8 && frame[0] == node && frame[1] == func && CrcHolds(frame, 6)
      && Word16(frame[2], frame[3]) == address && Word16(frame[4], frame[5]) == second
  {
    hide *;
    WordOfBytes(address);
    WordOfBytes(second);
    TwoArguments(address, second);
    var crc := Layout(node, func, [U16(address), U16(second)]);
  }

  lemma TwoArguments(address: bv16, second: bv16)
    ensures EncodeAll([U16(address), U16(second)]) == Bytes16(address) + Bytes16(second)
  {
    TwoWords(address, second, []);
    assert [U16(address), U16(second)] + [] == [U16(address), U16(second)];
  }

  // ---- runs ----

  datatype Fate = Answered | ReplyLost | RequestLost

  datatype Event =
    | Command(request: Request, timing: nat)
    | Exchange(fate: Fate)     // of the next command not yet answered

  // stale: registers written since the MPU last read or preset them.
  datatype World = World(mpu: State, device: Device, stale: set<nat>)

  predicate Begin(w: World) {
    && w.mpu.commands == [] && w.mpu.index == 0 && w.mpu.info == [] && w.mpu.cache == Cache(map[], map[])
    && Whole(w.device) && w.stale == {}
  }

  function Span(address: bv16, n: nat): set<nat> {
    set k: nat | k < Num(address) + n && InSpan(address, k)
  }

  predicate InSpan(address: bv16, k: nat) {
    Num(address) <= k
  }

  // Registers a request writes, and those whose cached value a delivered reply to it brings up to date.
  function Writes(r: Request): set<nat> {
    match r
    case ReadInputs(_, _) => {}
    case ReadRegisters(_, _) => {}
    case Preset(address, _) => Span(address, 1)
    case Presets(address, values) => Span(address, |values|)
  }

  function Refreshes(r: Request): set<nat> {
    match r
    case ReadInputs(_, _) => {}
    case ReadRegisters(address, count) => Span(address, Num(count))
    case Preset(address, _) => Span(address, 1)
    case Presets(_, _) => {}
  }

  // The next command to be answered, as the device understands it.
  function Pending(w: World): Option<Request> {
    if w.mpu.index < |w.mpu.commands| then RequestOf(w.mpu.commands[w.mpu.index].buffer) else None
  }

  predicate Possible(w: World, e: Event) {
    match e
    case Command(r, _) => Legal(r)
    case Exchange(_) => Pending(w).Some? && Legal(Pending(w).value) && Whole(w.device) && w.mpu.info != []
  }

  function Next(w: World, e: Event): World
    requires Possible(w, e)
  {
    match e
    case Command(r, timing) => w.(mpu := Send(w.mpu, r, timing))
    case Exchange(fate) =>
      var r := Pending(w).value;
      match fate
      case Answered =>
        var (device, reply) := Serve(w.mpu.node, w.device, r);
        World(ParseReply(w.mpu, reply).0, device, (w.stale + Writes(r)) - Refreshes(r))
      case ReplyLost =>
        World(Missing(w.mpu).value, Serve(w.mpu.node, w.device, r).0, w.stale + Writes(r))
      case RequestLost =>
        w.(mpu := Missing(w.mpu).value)
  }

  predicate Runs(w: World, events: seq<Event>, w': World)
    decreases events
  {
    if events == [] then w' == w
    else Possible(w, events[0]) && Runs(Next(w, events[0]), events[1..], w')
  }

  predicate Sent(node: byte, command: Bus.CommandRecord) {
    match RequestOf(command.buffer)
    case None => false
    case Some(r) => Legal(r) && command.buffer == CommandOf(node, r)
  }

  predicate AllSent(s: State) {
    forall i :: 0 <= i < |s.commands| ==> Sent(s.node, s.commands[i])
  }

  predicate Agrees(registers: map<nat, bv16>, device: seq<bv16>, stale: set<nat>) {
    forall k :: k in registers && k !in stale ==> k < |device| && registers[k] == device[k]
  }

  predicate Good(w: World) {
    && Lockstep(w.mpu) && AllSent(w.mpu) && Whole(w.device)
    && Agrees(w.mpu.cache.registers, w.device.registers, w.stale)
  }

  lemma GoodCommand(w: World, e: Event)
    requires Good(w) && e.Command? && Possible(w, e)
    ensures Good(Next(w, e))
  {
    SendKeepsLockstep(w.mpu, e.request, e.timing);
    RequestDecodes(w.mpu.node, e.request);
    hide Lockstep, Legal, RequestOf, CommandOf, Agrees, Whole;
  }

  // A good world is ready for the exchange of any command still open, and the list names that command.
  lemma GoodIsReady(w: World)
    requires Good(w) && w.mpu.index < |w.mpu.commands|
    ensures Possible(w, Exchange(Answered)) && Pending(w).Some?
    ensures w.mpu.info[0] == InfoFor(Pending(w).value)
    ensures w.mpu.commands[w.mpu.index].buffer == CommandOf(w.mpu.node, Pending(w).value)
  {
    var c := w.mpu.commands[w.mpu.index];
    assert Sent(w.mpu.node, c);
    CommandBytes(w.mpu.node, Pending(w).value);
    assert w.mpu.commands[w.mpu.index..][0] == c;
    hide RequestOf, Legal, CommandOf, Agrees, Word16;
  }

  lemma GoodLost(w: World, e: Event)
    requires Good(w) && Possible(w, e) && e.Exchange? && e.fate != Answered
    ensures Good(Next(w, e))
  {
    MissingKeepsLockstep(w.mpu);
    LostAgrees(w, e);
    hide Lockstep, RequestOf, CommandOf, Agrees, Legal, Serve;
  }

  lemma LostAgrees(w: World, e: Event)
    requires Good(w) && Possible(w, e) && e.Exchange? && e.fate != Answered
    ensures Agrees(Next(w, e).mpu.cache.registers, Next(w, e).device.registers, Next(w, e).stale)
    ensures Whole(Next(w, e).device) && AllSent(Next(w, e).mpu)
  {
    ServedRegisters(w.mpu.node, w.device, Pending(w).value);
    hide Lockstep, RequestOf, CommandOf, Legal, Serve, Writes, Sent;
  }

  lemma ServedRegisters(node: byte, d: Device, r: Request)
    requires Whole(d) && Legal(r)
    ensures var d' := Serve(node, d, r).0;
      Whole(d') && forall k :: 0 <= k < 65536 && k !in Writes(r) ==> d'.registers[k] == d.registers[k]
  {
    hide FrameOf, Pack, Words, Octets, Low8, Low16, Ceil8, Num, Written;
  }

  // The cache after a reply of the device: what was read, or the preset value. A read of inputs from address 0
  // is refused by the handler.
  function Learnt(cache: Cache, d: Device, r: Request): Cache
    requires Whole(d) && Legal(r)
  {
    match r
    case ReadInputs(address, count) =>
      if address == 0 then cache
      else cache.(inputs := Put(cache.inputs, address, 0, d.inputs[Num(address)..Num(address) + Num(count)]))
    case ReadRegisters(address, count) =>
      cache.(registers := Put(cache.registers, address, 0, d.registers[Num(address)..Num(address) + Num(count)]))
    case Preset(address, value) => cache.(registers := cache.registers[Num(address) := value])
    case Presets(_, _) => cache
  }

  predicate Refused(r: Request) {
    r.ReadInputs? && r.address == 0
  }

  // The device's reply is a frame for the request, and the handler makes this of it.
  predicate Handled(node: byte, d: Device, r: Request, cache: Cache)
    requires Whole(d) && Legal(r)
  {
    var reply := Serve(node, d, r).1;
    && |reply| >= 4 && reply[0] == node && reply[1] == Code(r)
    && Handle(node, InfoFor(r), cache, reply) == (Learnt(cache, d, r), !Refused(r))
  }

  lemma ReadInputsHandled(node: byte, d: Device, r: Request, cache: Cache)
    requires Whole(d) && Legal(r) && r.ReadInputs?
    ensures Handled(node, d, r, cache)
  {
    hide FrameOf, HandleInputs, Pack, Octets, Low8, Ceil8, Num, Put;
    InputsReply(node, r.address, d.inputs[Num(r.address)..Num(r.address) + Num(r.count)], r.count, cache);
  }

  lemma ReadRegistersHandled(node: byte, d: Device, r: Request, cache: Cache)
    requires Whole(d) && Legal(r) && r.ReadRegisters?
    ensures Handled(node, d, r, cache)
  {
    hide FrameOf, HandleRegisters, Words, Low8, Num, Put;
    RegistersReply(node, r.address, d.registers[Num(r.address)..Num(r.address) + Num(r.count)], r.count, cache);
  }

  lemma PresetHandled(node: byte, d: Device, r: Request, cache: Cache)
    requires Whole(d) && Legal(r) && r.Preset?
    ensures Handled(node, d, r, cache)
  {
    hide FrameOf, Written, Num, CrcHolds, Word16;
    PresetReply(node, PRESET_HOLDING_REGISTER, r.address, r.value);
  }

  lemma PresetsHandled(node: byte, d: Device, r: Request, cache: Cache)
    requires Whole(d) && Legal(r) && r.Presets?
    ensures Handled(node, d, r, cache)
  {
    hide FrameOf, Written, Num, CrcHolds, Word16, Low16;
    PresetReply(node, PRESET_HOLDING_REGISTERS, r.address, Low16(|r.values|));
  }

  lemma ReplyHandled(node: byte, d: Device, r: Request, cache: Cache)
    requires Whole(d) && Legal(r)
    ensures Handled(node, d, r, cache)
  {
    hide *;
    match r
    case ReadInputs(_, _) => ReadInputsHandled(node, d, r, cache);
    case ReadRegisters(_, _) => ReadRegistersHandled(node, d, r, cache);
    case Preset(_, _) => PresetHandled(node, d, r, cache);
    case Presets(_, _) => PresetsHandled(node, d, r, cache);
  }

  lemma ReplyParsed(s: State, reply: seq<byte>)
    requires s.index < |s.commands| && s.info != [] && |reply| >= 4 && Known(reply[1])
    requires Answers(reply, s.commands[s.index].buffer)
    ensures var (cache, ok) := Handle(s.node, s.info[0], s.cache, reply);
      ParseReply(s, reply) == (s.(index := s.index + 1, info := s.info[1..], cache := cache),
                               if ok then Delivered else HandlerThrew)
  {
    KnownIsPlain(reply[1]);
    hide Handle;
  }

  /** The device's reply to the next command is delivered, except to a read of inputs from address 0, and
      leaves exactly what was learnt in the cache. */
  lemma AnsweredDelivers(w: World)
    requires Good(w) && w.mpu.index < |w.mpu.commands|
    ensures Pending(w).Some? && Legal(Pending(w).value)
    ensures var r := Pending(w).value;
      ParseReply(w.mpu, Serve(w.mpu.node, w.device, r).1)
      == (w.mpu.(index := w.mpu.index + 1, info := w.mpu.info[1..], cache := Learnt(w.mpu.cache, w.device, r)),
          if Refused(r) then HandlerThrew else Delivered)
  {
    hide Pending, Learnt, Serve, Handle, Code, InfoFor, CommandOf, Legal, Lockstep, AllSent, Agrees, ParseReply,
         Refused, Known;
    GoodIsReady(w);
    var r := Pending(w).value;
    CommandStarts(w.mpu.node, r);
    ReplyHandled(w.mpu.node, w.device, r, w.mpu.cache);
    ReplyParsed(w.mpu, Serve(w.mpu.node, w.device, r).1);
  }

  lemma CommandStarts(node: byte, r: Request)
    ensures Known(Code(r))
    ensures |CommandOf(node, r)| >= 2 && CommandOf(node, r)[0] == node && CommandOf(node, r)[1] == Code(r)
  {
  }

  lemma LearntAgrees(cache: Cache, d: Device, r: Request, node: byte, stale: set<nat>)
    requires Whole(d) && Legal(r) && Agrees(cache.registers, d.registers, stale)
    ensures Agrees(Learnt(cache, d, r).registers, Serve(node, d, r).0.registers, (stale + Writes(r)) - Refreshes(r))
  {
    ServedRegisters(node, d, r);
    var before, after := cache.registers, Learnt(cache, d, r).registers;
    var device, device' := d.registers, Serve(node, d, r).0.registers;
    forall k | k in after && k !in (stale + Writes(r)) - Refreshes(r)
      ensures k < 65536 && after[k] == device'[k]
    {
      LearntAt(cache, d, r, node, k);
      hide Learnt, Serve, Writes, Refreshes;
    }
    hide Learnt, Serve, Writes, Refreshes;
  }

  // A register just refreshed is cached as the device now has it; the others are cached as before.
  lemma LearntAt(cache: Cache, d: Device, r: Request, node: byte, k: nat)
    requires Whole(d) && Legal(r)
    ensures var after := Learnt(cache, d, r).registers; var device' := Serve(node, d, r).0.registers;
      && (k in Refreshes(r) && k in after ==> k < |device'| && after[k] == device'[k])
      && (k !in Refreshes(r) && k in after ==> k in cache.registers && after[k] == cache.registers[k])
  {
    hide FrameOf, Pack, Words, Octets, Put, Num;
    if r.ReadRegisters? {
      PutLookup(cache.registers, r.address, 0, d.registers[Num(r.address)..Num(r.address) + Num(r.count)], k);
    }
  }

  lemma GoodAnswered(w: World)
    requires Good(w) && w.mpu.index < |w.mpu.commands| && Possible(w, Exchange(Answered))
    ensures Good(Next(w, Exchange(Answered)))
  {
    var r := Pending(w).value;
    AnsweredDelivers(w);
    LearntAgrees(w.mpu.cache, w.device, r, w.mpu.node, w.stale);
    ServedRegisters(w.mpu.node, w.device, r);
    MissingKeepsLockstep(w.mpu);
    hide Learnt, Serve, Legal, Agrees, Writes, Refreshes, RequestOf, CommandOf, ParseReply;
  }

  lemma {:induction false} RunIsGood(w: World, events: seq<Event>, w': World)
    requires Good(w) && Runs(w, events, w')
    ensures Good(w')
    decreases |events|
  {
    if events == [] {
    } else {
      var e := events[0];
      if e.Command? {
        GoodCommand(w, e);
      } else if e.fate == Answered {
        GoodAnswered(w);
      } else {
        GoodLost(w, e);
      }
      hide Good, Next, Possible;
      RunIsGood(Next(w, e), events[1..], w');
    }
  }

  /** Over every run of commands, answers and lost messages: the list of commanded registers is that of the open
      commands; the next one can always be exchanged; and every cached register agrees with the device unless it
      was written by function 16, or by a preset whose reply was lost, since it was last read or preset. */
  lemma CacheCoherence(w: World, events: seq<Event>, w': World, k: nat)
    requires Begin(w) && Runs(w, events, w')
    ensures Lockstep(w'.mpu)
    ensures w'.mpu.index < |w'.mpu.commands| <==> Possible(w', Exchange(Answered))
    ensures k in w'.mpu.cache.registers && k !in w'.stale ==>
      k < |w'.device.registers| && w'.mpu.cache.registers[k] == w'.device.registers[k]
  {
    assert Good(w);
    RunIsGood(w, events, w');
    if w'.mpu.index < |w'.mpu.commands| {
      GoodIsReady(w');
    }
    hide Legal, RequestOf, Runs, Whole;
  }

  /** After an answered read of inputs, not from address 0, each input asked for is cached as the device has it
      and the others as before. */
  lemma InputsCached(w: World, events: seq<Event>, w': World, k: nat)
    requires Begin(w) && Runs(w, events, w') && w'.mpu.index < |w'.mpu.commands|
    requires Pending(w').Some? && Pending(w').value.ReadInputs? && Pending(w').value.address != 0
    ensures Possible(w', Exchange(Answered))
    ensures Num(Pending(w').value.address) + Num(Pending(w').value.count) <= |w'.device.inputs|
    ensures var r := Pending(w').value; var a := Num(r.address);
      var before, after := w'.mpu.cache.inputs, Next(w', Exchange(Answered)).mpu.cache.inputs;
      && (k in after <==> k in before || a <= k < a + Num(r.count))
      && (k in after ==> after[k] == if a <= k < a + Num(r.count) then w'.device.inputs[k] else before[k])
  {
    assert Good(w);
    RunIsGood(w, events, w');
    GoodIsReady(w');
    AnsweredDelivers(w');
    NextAnswered(w');
    hide *;
    LearntInputs(w'.mpu.cache, w'.device, Pending(w').value, k);
  }

  lemma NextAnswered(w: World)
    requires Possible(w, Exchange(Answered))
    ensures Legal(Pending(w).value) && Whole(w.device)
    ensures Next(w, Exchange(Answered)).mpu == ParseReply(w.mpu, Serve(w.mpu.node, w.device, Pending(w).value).1).0
  {
    hide ParseReply, Serve, Pending, Legal;
  }

  lemma LearntInputs(cache: Cache, d: Device, r: Request, k: nat)
    requires Whole(d) && Legal(r) && r.ReadInputs? && r.address != 0
    ensures Num(r.address) + Num(r.count) <= |d.inputs|
    ensures var a := Num(r.address); var before, after := cache.inputs, Learnt(cache, d, r).inputs;
      && (k in after <==> k in before || a <= k < a + Num(r.count))
      && (k in after ==> after[k] == if a <= k < a + Num(r.count) then d.inputs[k] else before[k])
  {
    hide Put, Num;
    var a := Num(r.address);
    var bits := d.inputs[a..a + Num(r.count)];
    PutLookup(cache.inputs, r.address, 0, bits, k);
  }
}
