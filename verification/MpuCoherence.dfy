/** The MPU against the device it talks to: the list of commanded registers stays in step with the commands, and
    the cache agrees with the device. */
module MpuCoherence {
  import opened Results
  import opened Crc
  import opened ModbusCodec
  import opened Mpu
  import Bus = BusList

  // ---- lockstep ----

  // The (address, length) a command was remembered with, read back from its bytes.
  function InfoOf(buffer: seq<byte>): Info
    requires |buffer| >= 6
  {
    Info(Word16(buffer[2], buffer[3]),
         if buffer[1] == PRESET_HOLDING_REGISTER then 0 else Word16(buffer[4], buffer[5]))
  }

  predicate Issued(node: byte, command: Bus.CommandRecord) {
    |command.buffer| >= 6 && command.buffer[0] == node && Known(command.buffer[1])
  }

  function Infos(commands: seq<Bus.CommandRecord>): (infos: seq<Info>)
    requires forall i :: 0 <= i < |commands| ==> |commands[i].buffer| >= 6
    ensures |infos| == |commands|
    ensures forall i :: 0 <= i < |infos| ==> infos[i] == InfoOf(commands[i].buffer)
  {
    seq(|commands|, i requires 0 <= i < |commands| => InfoOf(commands[i].buffer))
  }

  // The list of commanded registers is that of the commands not yet answered.
  predicate Lockstep(s: State) {
    && s.index <= |s.commands|
    && (forall i :: 0 <= i < |s.commands| ==> Issued(s.node, s.commands[i]))
    && s.info == Infos(s.commands[s.index..])
  }

  lemma CommandBytes(node: byte, r: Request)
    ensures var b := CommandOf(node, r);
      && |b| >= 8 && b[0] == node && b[1] == Code(r) && Word16(b[2], b[3]) == r.address
      && InfoOf(b) == InfoFor(r)
      && (r.Preset? ==> Word16(b[4], b[5]) == r.value)
      && b == [node, Code(r)] + EncodeAll(Arguments(r)) + CrcBytes([node, Code(r)] + EncodeAll(Arguments(r)))
  {
    hide CrcBytes, Bytes16, Word16, Words, Low16, Low8;
    var arguments := Arguments(r);
    var first, second := arguments[0].u16, arguments[1].u16;
    WordOfBytes(first);
    WordOfBytes(second);
    TwoWords(first, second, arguments[2..]);
    assert arguments == [U16(first), U16(second)] + arguments[2..];
  }

  lemma WordOfBytes(x: bv16)
    ensures Word16(Bytes16(x)[0], Bytes16(x)[1]) == x
  {
    Word16OfBytes(x);
  }

  lemma TwoWords(first: bv16, second: bv16, rest: seq<Value>)
    ensures EncodeAll([U16(first), U16(second)] + rest) == Bytes16(first) + Bytes16(second) + EncodeAll(rest)
  {
    hide Bytes16;
    var all := [U16(first), U16(second)] + rest;
    assert all[1..] == [U16(second)] + rest && all[1..][1..] == rest;
  }

  lemma SendKeepsLockstep(s: State, r: Request, timing: nat)
    requires Lockstep(s)
    ensures Lockstep(Send(s, r, timing))
  {
    CommandBytes(s.node, r);
    hide CommandOf, InfoFor, InfoOf;
    var command := Bus.CommandRecord(CommandOf(s.node, r), timing);
    assert (s.commands + [command])[s.index..] == s.commands[s.index..] + [command];
  }

  lemma MissingKeepsLockstep(s: State)
    requires Lockstep(s) && s.index < |s.commands|
    ensures Missing(s).Some? && Lockstep(Missing(s).value)
  {
    assert s.commands[s.index..][1..] == s.commands[s.index + 1..];
  }

  predicate Answers(frame: seq<byte>, buffer: seq<byte>) {
    |frame| >= 2 && |buffer| >= 2 && frame[0] == buffer[0] && frame[1] == buffer[1]
  }

  /** A reply keeps the step exactly when it is too short to be looked at, or answers the next command with
      its own address and function code. An error reply, or one for another command, breaks it. */
  lemma ParseKeepsLockstepIff(s: State, frame: seq<byte>)
    requires Lockstep(s) && s.index < |s.commands|
    ensures ParseReply(s, frame).1 != PoppedEmpty
    ensures Lockstep(ParseReply(s, frame).0) <==> |frame| < 4 || Answers(frame, s.commands[s.index].buffer)
  {
    assert s.commands[s.index..][1..] == s.commands[s.index + 1..];
    assert s.commands[s.index] in s.commands;
    if |frame| >= 4 {
      KnownIsPlain(frame[1]);
    }
    hide Handle, InfoOf;
  }

  lemma KnownIsPlain(func: byte)
    ensures Known(func) ==> func & Bus.ERROR_MASK == 0
    ensures func & Bus.ERROR_MASK == 0 ==> func & !Bus.ERROR_MASK == func
    ensures func & Bus.ERROR_MASK != 0 ==> func & !Bus.ERROR_MASK != func
  {
  }

  // How many more commands are remembered than are waiting.
  function Drift(s: State): int {
    |s.info| - (|s.commands| - s.index)
  }

  /** Once out of step, no command, reply or missing response brings the lists back. */
  lemma DriftNeverShrinks(s: State, r: Request, timing: nat, frame: seq<byte>)
    requires Drift(s) > 0
    ensures Drift(Send(s, r, timing)) >= Drift(s) && Drift(ParseReply(s, frame).0) >= Drift(s)
    ensures Missing(s).Some? ==> Drift(Missing(s).value) >= Drift(s)
    ensures !Lockstep(Send(s, r, timing)) && !Lockstep(ParseReply(s, frame).0)
    ensures Missing(s).Some? ==> !Lockstep(Missing(s).value)
  {
    hide Handle, InfoOf, CommandOf;
  }

  // A reply that leaves the lists in step: one too short to be looked at, one for which no command is open, or one
  // that answers the next command.
  predicate InStep(s: State, frame: seq<byte>) {
    |frame| < 4 || s.index >= |s.commands| || Answers(frame, s.commands[s.index].buffer)
  }

  lemma BreakingReplyDrifts(s: State, frame: seq<byte>)
    requires Lockstep(s) && !InStep(s, frame)
    ensures Drift(ParseReply(s, frame).0) == 1
  {
    hide Handle, InfoOf;
    assert s.commands[s.index] in s.commands;
    KnownIsPlain(frame[1]);
  }

  datatype Traffic = Commanded(request: Request, timing: nat) | Replied(frame: seq<byte>) | Unanswered

  // A missing response with nothing remembered is undefined behaviour; here it changes nothing.
  function After(s: State, one: Traffic): State {
    match one
    case Commanded(request, timing) => Send(s, request, timing)
    case Replied(frame) => ParseReply(s, frame).0
    case Unanswered => if Missing(s).Some? then Missing(s).value else s
  }

  function AfterAll(s: State, traffic: seq<Traffic>): State
    decreases traffic
  {
    if traffic == [] then s else AfterAll(After(s, traffic[0]), traffic[1..])
  }

  predicate AllInStep(s: State, traffic: seq<Traffic>)
    decreases traffic
  {
    traffic == [] ||
    ((traffic[0].Replied? ==> InStep(s, traffic[0].frame)) && AllInStep(After(s, traffic[0]), traffic[1..]))
  }

  /** Over a whole run of commands, replies and missing responses the lists end in step exactly when no reply broke
      the step: nothing that comes later repairs it. */
  lemma {:induction false} RunKeepsLockstepIff(s: State, traffic: seq<Traffic>)
    requires Lockstep(s)
    ensures Lockstep(AfterAll(s, traffic)) <==> AllInStep(s, traffic)
    decreases traffic
  {
    hide Lockstep, InStep, Send, ParseReply, Missing;
    if traffic == [] {
    } else if traffic[0].Replied? && !InStep(s, traffic[0].frame) {
      BreakingReplyDrifts(s, traffic[0].frame);
      DriftStays(After(s, traffic[0]), traffic[1..]);
    } else {
      KeptByEvent(s, traffic[0]);
      RunKeepsLockstepIff(After(s, traffic[0]), traffic[1..]);
    }
  }

  lemma KeptByEvent(s: State, one: Traffic)
    requires Lockstep(s) && (one.Replied? ==> InStep(s, one.frame))
    ensures Lockstep(After(s, one))
  {
    match one
    case Commanded(request, timing) =>
      SendKeepsLockstep(s, request, timing);
    case Replied(frame) =>
    case Unanswered =>
      if s.index < |s.commands| {
        MissingKeepsLockstep(s);
      }
  }

  lemma {:induction false} DriftStays(s: State, traffic: seq<Traffic>)
    requires Drift(s) > 0
    ensures !Lockstep(AfterAll(s, traffic))
    decreases traffic
  {
    if traffic == [] {
    } else {
      hide *;
      DriftStays(After(s, traffic[0]), traffic[1..]);
    }
  }

  // ---- what the handlers store ----

  function Put<T>(cache: map<nat, T>, address: bv16, i: nat, values: seq<T>): map<nat, T>
    requires i <= |values|
    decreases |values| - i
  {
    if i == |values| then cache else Put(cache[Key(address, i) := values[i]], address, i + 1, values)
  }

  lemma {:induction false} PutLookup<T>(cache: map<nat, T>, address: bv16, i: nat, values: seq<T>, k: nat)
    requires i <= |values| && Num(address) + |values| <= 65536
    ensures var m := Put(cache, address, i, values); var a := Num(address);
      && (k in m <==> k in cache || a + i <= k < a + |values|)
      && (k in m ==> m[k] == if a + i <= k < a + |values| then values[k - a] else cache[k])
    decreases |values| - i
  {
    hide Num;
    if i == |values| {
    } else {
      PutLookup(cache[Key(address, i) := values[i]], address, i + 1, values, k);
    }
  }

  predicate WordsAt(bytes: seq<byte>, base: nat, values: seq<bv16>) {
    forall j :: 0 <= j < |values| ==>
      base + 2 * j + 2 <= |bytes| && Word16(bytes[base + 2 * j], bytes[base + 2 * j + 1]) == values[j]
  }

  lemma {:induction false} StoreRegistersPuts(registers: map<nat, bv16>, address: bv16, i: nat, values: seq<bv16>,
                                              bytes: seq<byte>, base: nat)
    requires i <= |values| && WordsAt(bytes, base, values)
    ensures StoreRegisters(registers, address, i, |values|, bytes, base + 2 * i)
         == (Put(registers, address, i, values), Some(base + 2 * |values|))
    decreases |values| - i
  {
    hide Key, Word16;
    if i == |values| {
    } else {
      StoreRegistersPuts(registers[Key(address, i) := values[i]], address, i + 1, values, bytes, base);
    }
  }

  // Bit j of a byte, from the least significant one.
  predicate BitOf(b: byte, j: nat) {
    if j == 0 then b & 0x01 != 0
    else if j == 1 then b & 0x02 != 0
    else if j == 2 then b & 0x04 != 0
    else if j == 3 then b & 0x08 != 0
    else if j == 4 then b & 0x10 != 0
    else if j == 5 then b & 0x20 != 0
    else if j == 6 then b & 0x40 != 0
    else b & 0x80 != 0
  }

  // data has byte b's bits from j on in the lowest places.
  predicate Shifted(b: byte, j: nat, data: byte) {
    forall m :: 0 <= m && j + m < 8 ==> BitOf(data, m) == BitOf(b, j + m)
  }

  lemma ShiftOnce(b: byte, j: nat, data: byte)
    requires Shifted(b, j, data) && j < 8
    ensures (data & 1 == 1) == BitOf(b, j)
    ensures Shifted(b, j + 1, data >> 1)
  {
    assert BitOf(data, 0) == BitOf(b, j + 0);
    var next := data >> 1;
    forall m | 0 <= m && j + 1 + m < 8
      ensures BitOf(next, m) == BitOf(b, j + 1 + m)
    {
      NextBit(data, m);
      assert BitOf(data, m + 1) == BitOf(b, j + (m + 1));
    }
    hide BitOf;
  }

  lemma NextBit(data: byte, m: nat)
    requires m < 7
    ensures BitOf(data >> 1, m) == BitOf(data, m + 1)
  {
  }

  // The inputs a read of n inputs reports: input i is bit i mod 8 of data byte i / 8.
  function Unpacked(bytes: seq<byte>, base: nat, n: nat): (inputs: seq<bool>)
    requires base + Ceil8(n) <= |bytes|
    ensures |inputs| == n
    ensures forall i :: 0 <= i < n ==> inputs[i] == BitOf(bytes[base + i / 8], i % 8)
  {
    seq(n, i requires 0 <= i < n => BitOf(bytes[base + i / 8], i % 8))
  }

  lemma {:induction false} StoreInputsPuts(inputs: map<nat, bool>, address: bv16, i: nat, n: nat, data: byte,
                                           bytes: seq<byte>, base: nat)
    requires i <= n && base + Ceil8(n) <= |bytes|
    requires i % 8 != 0 && i < n ==> Shifted(bytes[base + i / 8], i % 8, data)
    ensures StoreInputs(inputs, address, i, n, data, bytes, base + Ceil8(i))
         == (Put(inputs, address, i, Unpacked(bytes, base, n)), Some(base + Ceil8(n)))
    decreases n - i
  {
    CeilStep(i);
    CeilCovers(i, n);
    hide Key, BitOf, Shifted, Ceil8;
    if i == n {
    } else {
      var b := bytes[base + i / 8];
      var data0 := if i % 8 == 0 then b else data;
      if i % 8 == 0 {
        ShiftedStart(b);
        assert bytes[base + i / 8..base + i / 8 + 1] == [b];
      }
      ShiftOnce(b, i % 8, data0);
      StoreInputsPuts(inputs[Key(address, i) := data0 & 1 == 1], address, i + 1, n, data0 >> 1, bytes, base);
    }
  }

  lemma CeilCovers(i: nat, n: nat)
    ensures i < n ==> i / 8 < Ceil8(n)
  {
  }

  lemma CeilStep(i: nat)
    ensures i % 8 == 0 ==> Ceil8(i) == i / 8 && Ceil8(i + 1) == i / 8 + 1
    ensures i % 8 != 0 ==> Ceil8(i) == Ceil8(i + 1) == i / 8 + 1
    ensures (i + 1) % 8 != 0 ==> (i + 1) / 8 == i / 8 && (i + 1) % 8 == i % 8 + 1
    ensures (i + 1) % 8 == 0 ==> i % 8 == 7
  {
  }

  lemma ShiftedStart(b: byte)
    ensures Shifted(b, 0, b)
  {
  }

  /** A delivered reply to a read of inputs stores, for each input asked for and no other, its bit. */
  lemma InputsDelivered(node: byte, info: Info, cache: Cache, frame: seq<byte>, k: nat)
    requires |frame| >= 4 && Num(info.address) + Num(info.length) <= 65536
    requires HandleInputs(node, info, cache, frame).1
    ensures
      var n := Num(info.length); var a := Num(info.address); var stored := HandleInputs(node, info, cache, frame).0;
      && |frame| == 5 + Ceil8(n)
      && stored.registers == cache.registers
      && (k in stored.inputs <==> k in cache.inputs || a <= k < a + n)
      && (a <= k < a + n ==> stored.inputs[k] == BitOf(frame[3 + (k - a) / 8], (k - a) % 8))
      && (k in cache.inputs && !(a <= k < a + n) ==> stored.inputs[k] == cache.inputs[k])
  {
    var n := Num(info.length);
    hide BitOf, CheckAt, Num;
    StoreInputsEnd(cache.inputs, info.address, 0, n, 0, frame, 3);
    CheckSucceedsIff(frame, 3 + Ceil8(n));
    StoreInputsPuts(cache.inputs, info.address, 0, n, 0, frame, 3);
    PutLookup(cache.inputs, info.address, 0, Unpacked(frame, 3, n), k);
  }

  lemma {:induction false} StoreInputsEnd(inputs: map<nat, bool>, address: bv16, i: nat, n: nat, data: byte,
                                          bytes: seq<byte>, base: nat)
    requires i <= n && StoreInputs(inputs, address, i, n, data, bytes, base + Ceil8(i)).1.Some?
    requires base + Ceil8(i) <= |bytes|
    ensures base + Ceil8(n) <= |bytes|
    ensures StoreInputs(inputs, address, i, n, data, bytes, base + Ceil8(i)).1 == Some(base + Ceil8(n))
    decreases n - i
  {
    hide Key;
    if i == n {
    } else {
      if i % 8 != 0 {
        StoreInputsEnd(inputs[Key(address, i) := data & 1 == 1], address, i + 1, n, data >> 1, bytes, base);
      } else {
        var v := ReadAt(bytes, base + Ceil8(i), KindU8).value;
        StoreInputsEnd(inputs[Key(address, i) := v.u8 & 1 == 1], address, i + 1, n, v.u8 >> 1, bytes, base);
      }
    }
  }
}
