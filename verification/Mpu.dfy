/** The Modbus processing unit: four commands, their reply handlers, and the cache of inputs and
    registers the handlers fill. */
module Mpu {
  import opened Results
  import opened Crc
  import opened ModbusCodec
  import Bus = BusList

  const READ_INPUT_STATUS: byte := 2
  const READ_HOLDING_REGISTERS: byte := 3
  const PRESET_HOLDING_REGISTER: byte := 6
  const PRESET_HOLDING_REGISTERS: byte := 16

  // What a reply handler has to know about its command.
  datatype Info = Info(address: bv16, length: bv16)

  datatype Cache = Cache(registers: map<nat, bv16>, inputs: map<nat, bool>)

  datatype Outcome =
    | Delivered
    | ShortFrame
    | WrongResponse
    | ErrorResponse
    | NotFound       // no such command or function: std::out_of_range
    | HandlerThrew
    | PoppedEmpty    // the list of commanded registers was empty: undefined behaviour

  datatype State = State(
    node: byte,
    commands: seq<Bus.CommandRecord>,
    index: nat,
    errors: map<Bus.Id, Bus.ErrorRecord>,
    info: seq<Info>,
    cache: Cache)

  function Num(x: bv16): (n: nat)
    ensures n < 65536
  {
    x as nat
  }

  function Octet(x: byte): (n: nat)
    ensures n < 256
  {
    x as nat
  }

  // The key under which the i-th register or input from the address on is cached.
  function Key(address: bv16, i: nat): nat {
    (Num(address) + i) % 65536
  }

  function Ceil8(n: nat): nat {
    n / 8 + if n % 8 == 0 then 0 else 1
  }

  // ---- reply handlers ----

  // Reads registers i .. n and caches them one by one; None when a read runs past the end.
  function StoreRegisters(registers: map<nat, bv16>, address: bv16, i: nat, n: nat, bytes: seq<byte>, cursor: nat)
      : (map<nat, bv16>, Option<nat>)
    requires i <= n
    decreases n - i
  {
    if i == n then (registers, Some(cursor))
    else
      match ReadAt(bytes, cursor, KindU16)
      case Err(_) => (registers, None)
      case Ok(v) => StoreRegisters(registers[Key(address, i) := v.u16], address, i + 1, n, bytes, cursor + 2)
  }

  // Reads a byte before every eighth input and caches its lowest bit, shifting it down each time.
  function StoreInputs(inputs: map<nat, bool>, address: bv16, i: nat, n: nat, data: byte, bytes: seq<byte>, cursor: nat)
      : (map<nat, bool>, Option<nat>)
    requires i <= n
    decreases n - i
  {
    if i == n then (inputs, Some(cursor))
    else if i % 8 != 0 then
      StoreInputs(inputs[Key(address, i) := data & 1 == 1], address, i + 1, n, data >> 1, bytes, cursor)
    else
      match ReadAt(bytes, cursor, KindU8)
      case Err(_) => (inputs, None)
      case Ok(v) =>
        StoreInputs(inputs[Key(address, i) := v.u8 & 1 == 1], address, i + 1, n, v.u8 >> 1, bytes, cursor + 1)
  }

  lemma StoreInputsStep(inputs: map<nat, bool>, address: bv16, i: nat, n: nat, data: byte, bytes: seq<byte>,
      cursor: nat)
    requires i < n
    ensures StoreInputs(inputs, address, i, n, data, bytes, cursor) ==
      if i % 8 != 0 then
        StoreInputs(inputs[Key(address, i) := data & 1 == 1], address, i + 1, n, data >> 1, bytes, cursor)
      else
        match ReadAt(bytes, cursor, KindU8)
        case Err(_) => (inputs, None)
        case Ok(v) =>
          StoreInputs(inputs[Key(address, i) := v.u8 & 1 == 1], address, i + 1, n, v.u8 >> 1, bytes, cursor + 1)
  {
    hide Key, ReadAt;
  }

  function CrcHolds(bytes: seq<byte>, cursor: nat): bool {
    cursor <= |bytes| && CheckAt(bytes, cursor).0.Ok?
  }

  function HandleInputs(node: byte, info: Info, cache: Cache, frame: seq<byte>): (Cache, bool)
    requires |frame| >= 4
  {
    if info.address == 0 || info.length == 0 || frame[0] != node || Ceil8(Num(info.length)) != Octet(frame[2]) then
      (cache, false)
    else
      var (inputs, cursor) := StoreInputs(cache.inputs, info.address, 0, Num(info.length), 0, frame, 3);
      (cache.(inputs := inputs), cursor.Some? && CrcHolds(frame, cursor.value))
  }

  function HandleRegisters(node: byte, info: Info, cache: Cache, frame: seq<byte>): (Cache, bool)
    requires |frame| >= 4
  {
    if frame[0] != node then (cache, false)
    else
      var (registers, cursor) := StoreRegisters(cache.registers, info.address, 0, Octet(frame[2]) / 2, frame, 3);
      (cache.(registers := registers), cursor.Some? && CrcHolds(frame, cursor.value))
  }

  function HandlePreset(node: byte, info: Info, cache: Cache, frame: seq<byte>): (Cache, bool)
    requires |frame| >= 4
  {
    if frame[0] != node || |frame| < 6 || Word16(frame[2], frame[3]) != info.address then (cache, false)
    else
      (cache.(registers := cache.registers[Num(info.address) := Word16(frame[4], frame[5])]), CrcHolds(frame, 6))
  }

  function HandlePresets(node: byte, info: Info, cache: Cache, frame: seq<byte>): (Cache, bool)
    requires |frame| >= 4
  {
    if frame[0] != node || |frame| < 6 || Word16(frame[2], frame[3]) != info.address ||
       Word16(frame[4], frame[5]) != info.length then (cache, false)
    else (cache, CrcHolds(frame, 6))
  }

  predicate Known(func: byte) {
    func == READ_INPUT_STATUS || func == READ_HOLDING_REGISTERS ||
    func == PRESET_HOLDING_REGISTER || func == PRESET_HOLDING_REGISTERS
  }

  function Handle(node: byte, info: Info, cache: Cache, frame: seq<byte>): (Cache, bool)
    requires |frame| >= 4 && Known(frame[1])
  {
    if frame[1] == READ_INPUT_STATUS then HandleInputs(node, info, cache, frame)
    else if frame[1] == READ_HOLDING_REGISTERS then HandleRegisters(node, info, cache, frame)
    else if frame[1] == PRESET_HOLDING_REGISTER then HandlePreset(node, info, cache, frame)
    else HandlePresets(node, info, cache, frame)
  }

  // One call of parse. An error reply and a reply to another command move the index on, but leave the list of
  // commanded registers alone.
  function ParseReply(s: State, frame: seq<byte>): (State, Outcome) {
    if |frame| < 4 then (s, ShortFrame)
    else if s.index >= |s.commands| || |s.commands[s.index].buffer| < 2 then (s, NotFound)
    else
      var buffer := s.commands[s.index].buffer;
      var called := frame[1];
      var next := s.(index := s.index + 1);
      if frame[0] != buffer[0] || called & !Bus.ERROR_MASK != buffer[1] then
        (next.(errors := Bus.Record(s.errors, buffer[0], called, 0xFF)), WrongResponse)
      else if called & Bus.ERROR_MASK != 0 then
        if Known(called & !Bus.ERROR_MASK) then (next, ErrorResponse) else (s, NotFound)
      else if !Known(called) then (next, NotFound)
      else if s.info == [] then (next, PoppedEmpty)
      else
        var (cache, ok) := Handle(s.node, s.info[0], s.cache, frame);
        (next.(info := s.info[1..], cache := cache), if ok then Delivered else HandlerThrew)
  }

  function OutcomeOf(o: Bus.Outcome): Outcome {
    match o
    case Delivered => Delivered
    case WrongResponse => WrongResponse
    case ErrorResponse => ErrorResponse
    case NotFound => NotFound
    case HandlerThrew => HandlerThrew
    case ShortFrame => ShortFrame
  }

  // The callbacks the MPU registers: its four functions, without an error callback, and for this frame the handler.
  ghost predicate Registered(s: State, functions: Bus.Functions, frame: seq<byte>) {
    && (forall code: byte :: Bus.Id(code) in functions <==> Known(code))
    && (forall id :: id in functions ==> functions[id].errorAction == None)
    && (s.info != [] && |frame| >= 4 && Known(frame[1]) ==>
          functions[Bus.Id(frame[1])].action(frame) == Handle(s.node, s.info[0], s.cache, frame).1)
  }

  /** The MPU parses replies as any bus list does, with its handlers for callbacks: the same index, the same error
      records and the same outcome, unless the list of commanded registers is empty when a handler is run. */
  lemma ParsesAsBusList(s: State, functions: Bus.Functions, calls: seq<Bus.Call>, frame: seq<byte>)
    requires Registered(s, functions, frame)
    ensures var (s', outcome) := ParseReply(s, frame);
      var (b', o) := Bus.ParseReply(s.commands, functions, Bus.State(s.index, s.errors, calls), frame);
      && s'.index == b'.index && s'.errors == b'.errors
      && outcome == if s.info == [] && b'.calls != calls then PoppedEmpty else OutcomeOf(o)
  {
    hide Handle, Known, Registered, Bus.Record;
    if |frame| >= 4 {
      assert frame[1] & Bus.ERROR_MASK == 0 ==> frame[1] & !Bus.ERROR_MASK == frame[1];
      Callbacks(s, functions, frame);
    }
  }

  lemma Callbacks(s: State, functions: Bus.Functions, frame: seq<byte>)
    requires |frame| >= 4 && Registered(s, functions, frame)
    ensures var plain := Bus.Id(frame[1] & !Bus.ERROR_MASK);
      && (plain in functions <==> Known(frame[1] & !Bus.ERROR_MASK))
      && (plain in functions ==> functions[plain].errorAction == None)
    ensures Bus.Id(frame[1]) in functions <==> Known(frame[1])
    ensures s.info != [] && Known(frame[1]) ==>
      functions[Bus.Id(frame[1])].action(frame) == Handle(s.node, s.info[0], s.cache, frame).1
  {
    hide Handle, Known;
  }

  // ---- how much of a reply is still to come ----

  // responseLength: the length of the whole reply; Err for an unknown function.
  function ResponseLength(response: seq<byte>): Result<Option<nat>, ()> {
    if |response| < 2 then Ok(None)
    else if response[1] == READ_INPUT_STATUS || response[1] == READ_HOLDING_REGISTERS then
      if |response| < 3 then Ok(None) else Ok(Some(5 + Octet(response[2])))
    else if response[1] == PRESET_HOLDING_REGISTER || response[1] == PRESET_HOLDING_REGISTERS then Ok(Some(8))
    else if response[1] & 0x80 == 0x80 then Ok(Some(5))
    else Err(())
  }

  // ---- commands ----

  datatype Request =
    | ReadInputs(address: bv16, count: bv16)
    | ReadRegisters(address: bv16, count: bv16)
    | Preset(address: bv16, value: bv16)
    | Presets(address: bv16, values: seq<bv16>)

  function Words(values: seq<bv16>): (vs: seq<Value>)
    ensures |vs| == |values|
  {
    if values == [] then [] else [U16(values[0])] + Words(values[1..])
  }

  function Low16(n: nat): bv16 { (n % 65536) as bv16 }

  function Low8(n: nat): byte { (n % 256) as byte }

  function Code(r: Request): byte {
    match r
    case ReadInputs(_, _) => READ_INPUT_STATUS
    case ReadRegisters(_, _) => READ_HOLDING_REGISTERS
    case Preset(_, _) => PRESET_HOLDING_REGISTER
    case Presets(_, _) => PRESET_HOLDING_REGISTERS
  }

  function Arguments(r: Request): seq<Value> {
    match r
    case ReadInputs(address, count) => [U16(address), U16(count)]
    case ReadRegisters(address, count) => [U16(address), U16(count)]
    case Preset(address, value) => [U16(address), U16(value)]
    case Presets(address, values) =>
      [U16(address), U16(Low16(|values|)), U8(Low8(|values| * 2))] + Words(values)
  }

  function CommandOf(node: byte, r: Request): seq<byte> {
    FrameOf(node, Code(r), Arguments(r))
  }

  function InfoFor(r: Request): Info {
    match r
    case ReadInputs(address, count) => Info(address, count)
    case ReadRegisters(address, count) => Info(address, count)
    case Preset(address, _) => Info(address, 0)
    case Presets(address, values) => Info(address, Low16(|values|))
  }

  function Send(s: State, r: Request, timing: nat): State {
    s.(commands := s.commands + [Bus.CommandRecord(CommandOf(s.node, r), timing)], info := s.info + [InfoFor(r)])
  }

  // missing_response: None when there is nothing to pop, which is undefined behaviour.
  function Missing(s: State): Option<State> {
    if s.info == [] then None else Some(s.(index := s.index + 1, info := s.info[1..]))
  }

  class MPU {
    const nodeAddress: byte
    var commands: seq<Bus.CommandRecord>
    var parsedIndex: nat
    var errors: map<Bus.Id, Bus.ErrorRecord>
    var commandedInfo: seq<Info>
    var registers: map<nat, bv16>
    var inputStatus: map<nat, bool>

    ghost function Model(): State
      reads this
    {
      State(nodeAddress, commands, parsedIndex, errors, commandedInfo, Cache(registers, inputStatus))
    }

    constructor (node: byte)
      ensures Model() == State(node, [], 0, map[], [], Cache(map[], map[]))
    {
      nodeAddress := node;
      commands, parsedIndex, errors, commandedInfo := [], 0, map[], [];
      registers, inputStatus := map[], map[];
    }

    method CallFunction(func: byte, timing: nat, params: seq<Value>)
      modifies this`commands
      ensures commands == old(commands) + [Bus.CommandRecord(FrameOf(nodeAddress, func, params), timing)]
    {
      var buffer := new Buffer.Call(nodeAddress, func, params);
      commands := commands + [Bus.CommandRecord(buffer.bytes, timing)];
    }

    method ReadInputStatus(start: bv16, count: bv16, timing: nat)
      modifies this
      ensures Model() == Send(old(Model()), ReadInputs(start, count), timing)
    {
      CallFunction(READ_INPUT_STATUS, timing, [U16(start), U16(count)]);
      commandedInfo := commandedInfo + [Info(start, count)];
    }

    method ReadHoldingRegisters(start: bv16, count: bv16, timing: nat)
      modifies this
      ensures Model() == Send(old(Model()), ReadRegisters(start, count), timing)
    {
      CallFunction(READ_HOLDING_REGISTERS, timing, [U16(start), U16(count)]);
      commandedInfo := commandedInfo + [Info(start, count)];
    }

    method PresetHoldingRegister(register: bv16, value: bv16, timing: nat)
      modifies this
      ensures Model() == Send(old(Model()), Preset(register, value), timing)
    {
      CallFunction(PRESET_HOLDING_REGISTER, timing, [U16(register), U16(value)]);
      commandedInfo := commandedInfo + [Info(register, 0)];
    }

    method PresetHoldingRegisters(start: bv16, values: seq<bv16>, timing: nat)
      modifies this
      ensures Model() == Send(old(Model()), Presets(start, values), timing)
    {
      CallFunction(PRESET_HOLDING_REGISTERS, timing,
                   [U16(start), U16(Low16(|values|)), U8(Low8(|values| * 2))] + Words(values));
      commandedInfo := commandedInfo + [Info(start, Low16(|values|))];
    }

    method Clear()
      modifies this`commands
      ensures commands == []
    {
      commands := [];
    }

    method NextMessage()
      modifies this`parsedIndex
      ensures parsedIndex == 0
    {
      parsedIndex := 0;
    }

    method MissingResponse() returns (defined: bool)
      modifies this
      ensures defined == Missing(old(Model())).Some?
      ensures Model() == if defined then Missing(old(Model())).value else old(Model())
    {
      if commandedInfo == [] {
        return false;
      }
      commandedInfo := commandedInfo[1..];
      parsedIndex := parsedIndex + 1;
      return true;
    }

    method Parse(frame: seq<byte>) returns (outcome: Outcome)
      modifies this
      ensures (Model(), outcome) == ParseReply(old(Model()), frame)
    {
      if |frame| < 4 {
        return ShortFrame;
      }
      if parsedIndex >= |commands| || |commands[parsedIndex].buffer| < 2 {
        return NotFound;
      }
      var expAddress, expFunc := commands[parsedIndex].buffer[0], commands[parsedIndex].buffer[1];
      var address, called := frame[0], frame[1];
      if address != expAddress || called & !Bus.ERROR_MASK != expFunc {
        parsedIndex := parsedIndex + 1;
        errors := Bus.Record(errors, expAddress, called, 0xFF);
        return WrongResponse;
      }
      if called & Bus.ERROR_MASK != 0 {
        if !Known(called & !Bus.ERROR_MASK) {
          return NotFound;
        }
        parsedIndex := parsedIndex + 1;
        return ErrorResponse;
      }
      parsedIndex := parsedIndex + 1;
      if !Known(called) {
        return NotFound;
      }
      if commandedInfo == [] {
        return PoppedEmpty;
      }
      var commanded := commandedInfo[0];
      commandedInfo := commandedInfo[1..];
      var ok := RunHandler(commanded, frame);
      outcome := if ok then Delivered else HandlerThrew;
    }

    method RunHandler(commanded: Info, frame: seq<byte>) returns (ok: bool)
      requires |frame| >= 4 && Known(frame[1])
      modifies this`registers, this`inputStatus
      ensures (Cache(registers, inputStatus), ok)
           == Handle(nodeAddress, commanded, old(Cache(registers, inputStatus)), frame)
    {
      if frame[1] == READ_INPUT_STATUS {
        ok := InputsHandler(commanded, frame);
      } else if frame[1] == READ_HOLDING_REGISTERS {
        ok := RegistersHandler(commanded, frame);
      } else if frame[0] != nodeAddress || |frame| < 6 || Word16(frame[2], frame[3]) != commanded.address {
        ok := false;
      } else if frame[1] == PRESET_HOLDING_REGISTER {
        registers := registers[Num(commanded.address) := Word16(frame[4], frame[5])];
        ok := CrcHolds(frame, 6);
      } else if Word16(frame[4], frame[5]) != commanded.length {
        ok := false;
      } else {
        ok := CrcHolds(frame, 6);
      }
    }

    method InputsHandler(commanded: Info, frame: seq<byte>) returns (ok: bool)
      requires |frame| >= 4
      modifies this`inputStatus
      ensures (Cache(registers, inputStatus), ok)
           == HandleInputs(nodeAddress, commanded, old(Cache(registers, inputStatus)), frame)
    {
      if commanded.address == 0 || commanded.length == 0 || frame[0] != nodeAddress ||
         Ceil8(Num(commanded.length)) != Octet(frame[2]) {
        return false;
      }
      var n := Num(commanded.length);
      var cursor, data, i := 3, 0, 0;
      hide StoreInputs, Key, ReadAt, CrcHolds, Num, Octet, Ceil8;
      while i < n
        invariant 0 <= i <= n
        invariant StoreInputs(old(inputStatus), commanded.address, 0, n, 0, frame, 3)
               == StoreInputs(inputStatus, commanded.address, i, n, data, frame, cursor)
      {
        StoreInputsStep(inputStatus, commanded.address, i, n, data, frame, cursor);
        if i % 8 == 0 {
          var r := ReadAt(frame, cursor, KindU8);
          if r.Err? {
            return false;
          }
          data := r.value.u8;
          cursor := cursor + 1;
        }
        inputStatus := inputStatus[Key(commanded.address, i) := data & 1 == 1];
        data := data >> 1;
        i := i + 1;
      }
      ok := CrcHolds(frame, cursor);
    }

    method RegistersHandler(commanded: Info, frame: seq<byte>) returns (ok: bool)
      requires |frame| >= 4
      modifies this`registers
      ensures (Cache(registers, inputStatus), ok)
           == HandleRegisters(nodeAddress, commanded, old(Cache(registers, inputStatus)), frame)
    {
      if frame[0] != nodeAddress {
        return false;
      }
      var n := Octet(frame[2]) / 2;
      var cursor, i := 3, 0;
      while i < n
        invariant 0 <= i <= n
        invariant StoreRegisters(old(registers), commanded.address, 0, n, frame, 3)
               == StoreRegisters(registers, commanded.address, i, n, frame, cursor)
      {
        var r := ReadAt(frame, cursor, KindU16);
        if r.Err? {
          return false;
        }
        registers := registers[Key(commanded.address, i) := r.value.u16];
        cursor := cursor + 2;
        i := i + 1;
      }
      ok := CrcHolds(frame, cursor);
    }
  }
}
