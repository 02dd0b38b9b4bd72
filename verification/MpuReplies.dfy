/** Which replies the MPU takes: from "delivered" back to the bytes of the frame. */
module MpuReplies {
  import opened Results
  import opened Crc
  import opened ModbusCodec
  import opened Mpu
  import opened MpuCoherence
  import Device = MpuDevice
  import CrcPolynomial
  import Bus = BusList

  // The 16-bit number in two bytes of a frame, high byte first.
  function Number(frame: seq<byte>, at: nat): nat
    requires at + 2 <= |frame|
  {
    256 * Octet(frame[at]) + Octet(frame[at + 1])
  }

  // What the function of a frame says about its length and its fields, for a command about these registers or inputs.
  predicate Fits(info: Info, frame: seq<byte>)
    requires |frame| >= 4
  {
    if frame[1] == 2 then
      && Num(info.address) != 0 && Num(info.length) != 0
      && 8 * (Octet(frame[2]) - 1) < Num(info.length) <= 8 * Octet(frame[2])
      && |frame| == 5 + Octet(frame[2])
    else if frame[1] == 3 then |frame| == 5 + Octet(frame[2]) - Octet(frame[2]) % 2
    else if frame[1] == 6 then |frame| == 8 && Number(frame, 2) == Num(info.address)
    else if frame[1] == 16 then
      |frame| == 8 && Number(frame, 2) == Num(info.address) && Number(frame, 4) == Num(info.length)
    else false
  }

  lemma WordNumber(hi: byte, lo: byte)
    ensures Num(Word16(hi, lo)) == 256 * Octet(hi) + Octet(lo)
  {
    var h, l := hi as bv16, lo as bv16;
    assert (h << 8) | l == h * 256 + l;
  }

  predicate Taken(node: byte, info: Info, frame: seq<byte>)
    requires |frame| >= 4
  {
    frame[0] == node && Fits(info, frame) && Sealed(frame)
  }

  lemma CeilIs(n: nat, m: nat)
    requires n != 0
    ensures Ceil8(n) == m <==> 8 * (m - 1) < n <= 8 * m
  {
  }

  lemma InputsTakenIff(node: byte, info: Info, cache: Cache, frame: seq<byte>)
    requires |frame| >= 4 && frame[1] == 2
    ensures HandleInputs(node, info, cache, frame).1 <==> Taken(node, info, frame)
  {
    var n := Num(info.length);
    NumZero(info.address);
    NumZero(info.length);
    if n != 0 {
      CeilIs(n, Octet(frame[2]));
    }
    InputsRead(info, cache, frame, n);
    hide *;
    InputsFit(info, frame);
  }

  lemma InputsFit(info: Info, frame: seq<byte>)
    requires |frame| >= 4 && frame[1] == 2
    ensures Fits(info, frame) <==>
      && Num(info.address) != 0 && Num(info.length) != 0
      && 8 * (Octet(frame[2]) - 1) < Num(info.length) <= 8 * Octet(frame[2]) && |frame| == 5 + Octet(frame[2])
  {
    hide Num, Octet;
  }

  // The loop over n inputs and the check behind it succeed exactly on a sealed frame with the bytes for them.
  lemma InputsRead(info: Info, cache: Cache, frame: seq<byte>, n: nat)
    requires |frame| >= 4
    ensures var cursor := StoreInputs(cache.inputs, info.address, 0, n, 0, frame, 3).1;
      cursor.Some? && CrcHolds(frame, cursor.value) <==> |frame| == 5 + Ceil8(n) && Sealed(frame)
  {
    hide Ceil8, CheckAt, Sealed, StoreInputs;
    CeilNone();
    if StoreInputs(cache.inputs, info.address, 0, n, 0, frame, 3).1.Some? {
      StoreInputsEnd(cache.inputs, info.address, 0, n, 0, frame, 3);
      CheckSucceedsIff(frame, 3 + Ceil8(n));
    } else if 3 + Ceil8(n) <= |frame| {
      StoreInputsPuts(cache.inputs, info.address, 0, n, 0, frame, 3);
    }
  }

  lemma CeilNone()
    ensures Ceil8(0) == 0
  {
  }

  lemma NumZero(x: bv16)
    ensures Num(x) == 0 <==> x == 0
  {
  }

  lemma {:induction false} StoreRegistersEnd(registers: map<nat, bv16>, address: bv16, i: nat, n: nat, bytes: seq<byte>,
                                             cursor: nat)
    requires i <= n && StoreRegisters(registers, address, i, n, bytes, cursor).1.Some? && cursor <= |bytes|
    ensures StoreRegisters(registers, address, i, n, bytes, cursor).1 == Some(cursor + 2 * (n - i))
    ensures cursor + 2 * (n - i) <= |bytes|
    decreases n - i
  {
    hide Key;
    if i == n {
    } else {
      var v := ReadAt(bytes, cursor, KindU16).value;
      StoreRegistersEnd(registers[Key(address, i) := v.u16], address, i + 1, n, bytes, cursor + 2);
    }
  }

  lemma RegistersTakenIff(node: byte, info: Info, cache: Cache, frame: seq<byte>)
    requires |frame| >= 4 && frame[1] == 3
    ensures HandleRegisters(node, info, cache, frame).1 <==> Taken(node, info, frame)
  {
    hide Num, Octet, CheckAt, Sealed, StoreRegisters;
    var n := Octet(frame[2]) / 2;
    assert 2 * n == Octet(frame[2]) - Octet(frame[2]) % 2;
    if frame[0] == node {
      if StoreRegisters(cache.registers, info.address, 0, n, frame, 3).1.Some? {
        StoreRegistersEnd(cache.registers, info.address, 0, n, frame, 3);
        CheckSucceedsIff(frame, 3 + 2 * n);
      } else if 3 + 2 * n <= |frame| {
        StoreRegistersPuts(cache.registers, info.address, 0, Device.WordsFrom(frame, 3, n), frame, 3);
      }
    }
  }

  lemma SameNumber(frame: seq<byte>, at: nat, x: bv16)
    requires at + 2 <= |frame|
    ensures Word16(frame[at], frame[at + 1]) == x <==> Number(frame, at) == Num(x)
  {
    hide Word16;
    WordNumber(frame[at], frame[at + 1]);
    NumOnce(Word16(frame[at], frame[at + 1]), x);
  }

  lemma NumOnce(x: bv16, y: bv16)
    ensures Num(x) == Num(y) <==> x == y
  {
    assert Num(x) as bv16 == x;
    assert Num(y) as bv16 == y;
    hide Num;
  }

  lemma PresetTakenIff(node: byte, info: Info, cache: Cache, frame: seq<byte>)
    requires |frame| >= 4 && (frame[1] == 6 || frame[1] == 16)
    ensures Handle(node, info, cache, frame).1 <==> Taken(node, info, frame)
  {
    hide Num, Octet, CheckAt, Sealed, Word16, Number;
    if |frame| >= 6 {
      SameNumber(frame, 2, info.address);
      SameNumber(frame, 4, info.length);
      CheckSucceedsIff(frame, 6);
    }
  }

  lemma HandledIff(node: byte, info: Info, cache: Cache, frame: seq<byte>)
    requires |frame| >= 4 && Known(frame[1])
    ensures Handle(node, info, cache, frame).1 <==> Taken(node, info, frame)
  {
    hide HandleInputs, HandleRegisters, HandlePreset, HandlePresets, Taken;
    if frame[1] == 2 {
      InputsTakenIff(node, info, cache, frame);
    } else if frame[1] == 3 {
      RegistersTakenIff(node, info, cache, frame);
    } else {
      PresetTakenIff(node, info, cache, frame);
    }
  }

  // A reply for the next command of the list, which is still commanded.
  predicate ForNext(s: State, frame: seq<byte>) {
    && s.index < |s.commands| && s.info != []
    && |frame| >= 4 && Answers(frame, s.commands[s.index].buffer)
  }

  /** A reply is delivered exactly when it has the next command's address and function, its own CRC, the length its
      function calls for, and the fields of the command echoed: so, of registers, the byte count; of inputs, as many
      bytes as the inputs asked for need; of presets, the register and, for many, their number. */
  lemma DeliveredIff(s: State, frame: seq<byte>)
    ensures ParseReply(s, frame).1 == Delivered <==> ForNext(s, frame) && Taken(s.node, s.info[0], frame)
  {
    hide Handle, Taken;
    if |frame| >= 4 && s.info != [] {
      KnownIsPlain(frame[1]);
      if Known(frame[1]) {
        HandledIff(s.node, s.info[0], s.cache, frame);
      } else {
        UnknownNotTaken(s.node, s.info[0], frame);
      }
    }
  }

  lemma UnknownNotTaken(node: byte, info: Info, frame: seq<byte>)
    requires |frame| >= 4 && !Known(frame[1])
    ensures !Taken(node, info, frame)
  {
  }

  // ---- what a delivered reply leaves in the cache ----

  // Which register or input from the address on has the key k; addresses wrap at 65536.
  function Place(address: bv16, k: nat): (place: nat)
    requires k < 65536
    ensures place < 65536
  {
    (k + 65536 - Num(address)) % 65536
  }

  lemma KeyPlace(address: bv16, i: nat, k: nat)
    requires i < 65536 && k < 65536
    ensures Key(address, i) == k <==> i == Place(address, k)
  {
    hide Num;
  }

  lemma {:induction false} PutAt<T>(cache: map<nat, T>, address: bv16, i: nat, values: seq<T>, k: nat)
    requires i <= |values| <= 65536 && k < 65536
    ensures var m := Put(cache, address, i, values); var p := Place(address, k);
      && (k in m <==> k in cache || i <= p < |values|)
      && (k in m ==> m[k] == if i <= p < |values| then values[p] else cache[k])
    decreases |values| - i
  {
    hide Key, Place;
    if i == |values| {
    } else {
      KeyPlace(address, i, k);
      PutAt(cache[Key(address, i) := values[i]], address, i + 1, values, k);
    }
  }

  // The next command's reply is handled like this.
  lemma DeliveredHandled(s: State, frame: seq<byte>)
    requires ParseReply(s, frame).1 == Delivered
    ensures ForNext(s, frame) && Known(frame[1]) && Taken(s.node, s.info[0], frame)
    ensures Handle(s.node, s.info[0], s.cache, frame) == (ParseReply(s, frame).0.cache, true)
  {
    hide Handle, Taken;
    DeliveredIff(s, frame);
    KnownIsPlain(frame[1]);
  }

  /** A delivered reply to a read of registers puts the big-endian numbers of its words, one register after the other
      from the commanded address on, into the cache, and nothing else. */
  lemma RegistersCached(s: State, frame: seq<byte>, k: nat)
    requires ParseReply(s, frame).1 == Delivered && frame[1] == 3 && k < 65536
    ensures s.info != [] && |frame| == 5 + Octet(frame[2]) - Octet(frame[2]) % 2
    ensures var before, after := s.cache, ParseReply(s, frame).0.cache;
      var p := Place(s.info[0].address, k); var n := Octet(frame[2]) / 2;
      && after.inputs == before.inputs
      && (p < n ==> k in after.registers && Num(after.registers[k]) == Number(frame, 3 + 2 * p))
      && (p >= n ==> (k in after.registers <==> k in before.registers))
      && (p >= n && k in before.registers ==> after.registers[k] == before.registers[k])
  {
    hide Num, Octet, CheckAt, Sealed, StoreRegisters, ParseReply, Word16, Place, Number;
    DeliveredHandled(s, frame);
    var n := Octet(frame[2]) / 2;
    var values := Device.WordsFrom(frame, 3, n);
    StoreRegistersPuts(s.cache.registers, s.info[0].address, 0, values, frame, 3);
    PutAt(s.cache.registers, s.info[0].address, 0, values, k);
    var p := Place(s.info[0].address, k);
    if p < n {
      SameNumber(frame, 3 + 2 * p, values[p]);
    }
  }

  /** A delivered reply to a read of inputs puts, for the p-th input asked for, bit p mod 8 of data byte p / 8 into the
      cache, and nothing else. */
  lemma InputsCached(s: State, frame: seq<byte>, k: nat)
    requires ParseReply(s, frame).1 == Delivered && frame[1] == 2 && k < 65536
    ensures s.info != [] && |frame| == 5 + Octet(frame[2]) && Num(s.info[0].length) <= 8 * Octet(frame[2])
    ensures var before, after := s.cache, ParseReply(s, frame).0.cache;
      var p := Place(s.info[0].address, k); var n := Num(s.info[0].length);
      && after.registers == before.registers
      && (p < n ==> k in after.inputs && after.inputs[k] == BitOf(frame[3 + p / 8], p % 8))
      && (p >= n ==> (k in after.inputs <==> k in before.inputs))
      && (p >= n && k in before.inputs ==> after.inputs[k] == before.inputs[k])
  {
    hide Num, Octet, CrcHolds, Sealed, StoreInputs, ParseReply, Place, Ceil8, BitOf;
    DeliveredHandled(s, frame);
    var info := s.info[0];
    var n := Num(info.length);
    CeilIs(n, Octet(frame[2]));
    CeilNone();
    StoreInputsPuts(s.cache.inputs, info.address, 0, n, 0, frame, 3);
    PutAt(s.cache.inputs, info.address, 0, Unpacked(frame, 3, n), k);
  }

  /** A delivered reply to a preset of one register puts the value it echoes under the commanded address, and one to a
      preset of many leaves the cache alone. */
  lemma PresetCached(s: State, frame: seq<byte>)
    requires ParseReply(s, frame).1 == Delivered && (frame[1] == 6 || frame[1] == 16)
    ensures s.info != [] && |frame| == 8
    ensures var before, after := s.cache, ParseReply(s, frame).0.cache; var a := Num(s.info[0].address);
      && after.inputs == before.inputs
      && (frame[1] == 6 ==>
            && a in after.registers && Num(after.registers[a]) == Number(frame, 4)
            && after.registers == before.registers[a := after.registers[a]])
      && (frame[1] == 16 ==> after.registers == before.registers)
  {
    hide Num, Octet, CrcHolds, Sealed, ParseReply, Word16, Number;
    DeliveredHandled(s, frame);
    SameNumber(frame, 4, Word16(frame[4], frame[5]));
  }

  // ---- what any reply leaves in the cache ----

  lemma {:induction false} StoreRegistersCut(registers: map<nat, bv16>, address: bv16, i: nat, n: nat,
                                             values: seq<bv16>, bytes: seq<byte>, base: nat)
    requires i <= |values| <= n && WordsAt(bytes, base, values) && base + 2 * |values| <= |bytes|
    requires |values| < n ==> base + 2 * |values| + 2 > |bytes|
    ensures StoreRegisters(registers, address, i, n, bytes, base + 2 * i).0 == Put(registers, address, i, values)
    decreases |values| - i
  {
    hide Key, Word16;
    if i == |values| {
    } else {
      StoreRegistersCut(registers[Key(address, i) := values[i]], address, i + 1, n, values, bytes, base);
    }
  }

  lemma {:induction false} StoreInputsCut(inputs: map<nat, bool>, address: bv16, i: nat, m: nat, n: nat, data: byte,
                                          bytes: seq<byte>, base: nat)
    requires i <= m < n && m % 8 == 0 && base + Ceil8(m) == |bytes|
    requires i % 8 != 0 && i < m ==> Shifted(bytes[base + i / 8], i % 8, data)
    ensures StoreInputs(inputs, address, i, n, data, bytes, base + Ceil8(i)).0
         == Put(inputs, address, i, Unpacked(bytes, base, m))
    decreases m - i
  {
    CeilStep(i);
    CeilCovers(i, m);
    hide Key, BitOf, Shifted, Ceil8;
    if i == m {
    } else {
      var b := bytes[base + i / 8];
      var data0 := if i % 8 == 0 then b else data;
      if i % 8 == 0 {
        ShiftedStart(b);
        assert bytes[base + i / 8..base + i / 8 + 1] == [b];
      }
      ShiftOnce(b, i % 8, data0);
      StoreInputsCut(inputs[Key(address, i) := data0 & 1 == 1], address, i + 1, m, n, data0 >> 1, bytes, base);
    }
  }

  // The registers a reply holds: as many as it counts, or as its length allows.
  function RegistersIn(frame: seq<byte>): nat
    requires |frame| >= 4
  {
    var counted, there := Octet(frame[2]) / 2, (|frame| - 3) / 2;
    if counted < there then counted else there
  }

  // The inputs a reply holds of n asked for.
  function InputsIn(frame: seq<byte>, n: nat): nat
    requires |frame| >= 4
  {
    if n < 8 * (|frame| - 3) then n else 8 * (|frame| - 3)
  }

  // A reply of the next command is handled, and taken or refused.
  lemma NextIsHandled(s: State, frame: seq<byte>)
    requires ForNext(s, frame) && Known(frame[1])
    ensures var (cache, ok) := Handle(s.node, s.info[0], s.cache, frame);
      ParseReply(s, frame) == (s.(index := s.index + 1, info := s.info[1..], cache := cache),
                               if ok then Delivered else HandlerThrew)
  {
    KnownIsPlain(frame[1]);
    hide Handle;
  }

  /** The cache is written before the CRC is looked at: whatever comes of it, a reply with the node's address to a read
      of registers leaves every register it holds in the cache. */
  lemma RegistersStored(s: State, frame: seq<byte>, k: nat)
    requires ForNext(s, frame) && frame[1] == 3 && frame[0] == s.node && k < 65536
    ensures var before, after := s.cache, ParseReply(s, frame).0.cache; var p := Place(s.info[0].address, k);
      && after.inputs == before.inputs
      && (p < RegistersIn(frame) ==>
            5 + 2 * p <= |frame| && k in after.registers && Num(after.registers[k]) == Number(frame, 3 + 2 * p))
      && (p >= RegistersIn(frame) ==> (k in after.registers <==> k in before.registers))
      && (p >= RegistersIn(frame) && k in before.registers ==> after.registers[k] == before.registers[k])
  {
    hide Num, Octet, CrcHolds, StoreRegisters, ParseReply, Word16, Place, Number;
    NextIsHandled(s, frame);
    var n, m := Octet(frame[2]) / 2, RegistersIn(frame);
    var values := Device.WordsFrom(frame, 3, m);
    StoreRegistersCut(s.cache.registers, s.info[0].address, 0, n, values, frame, 3);
    PutAt(s.cache.registers, s.info[0].address, 0, values, k);
    var p := Place(s.info[0].address, k);
    if p < m {
      SameNumber(frame, 3 + 2 * p, values[p]);
    }
  }

  /** So does one to a read of inputs, if it has the bytes the inputs asked for need, and these are not none and not
      from address 0. */
  lemma InputsStored(s: State, frame: seq<byte>, k: nat)
    requires ForNext(s, frame) && frame[1] == 2 && frame[0] == s.node && k < 65536
    ensures var before, after := s.cache, ParseReply(s, frame).0.cache; var info := s.info[0];
      var p := Place(info.address, k); var n := Num(info.length);
      var fits := Num(info.address) != 0 && n != 0 && 8 * (Octet(frame[2]) - 1) < n <= 8 * Octet(frame[2]);
      var stored := if fits then InputsIn(frame, n) else 0;
      && after.registers == before.registers
      && (p < stored ==> 3 + p / 8 < |frame| && k in after.inputs && after.inputs[k] == BitOf(frame[3 + p / 8], p % 8))
      && (p >= stored ==> (k in after.inputs <==> k in before.inputs))
      && (p >= stored && k in before.inputs ==> after.inputs[k] == before.inputs[k])
  {
    hide Num, Octet, CrcHolds, StoreInputs, ParseReply, Place, Ceil8, BitOf;
    NextIsHandled(s, frame);
    var info := s.info[0];
    var n := Num(info.length);
    NumZero(info.address);
    NumZero(info.length);
    if n != 0 {
      CeilIs(n, Octet(frame[2]));
    }
    if info.address != 0 && n != 0 && Ceil8(n) == Octet(frame[2]) {
      AllOrEnd(s.cache.inputs, info.address, n, frame);
      PutAt(s.cache.inputs, info.address, 0, Unpacked(frame, 3, InputsIn(frame, n)), k);
    }
  }

  lemma AllOrEnd(inputs: map<nat, bool>, address: bv16, n: nat, frame: seq<byte>)
    requires |frame| >= 4 && n < 65536
    ensures 3 + Ceil8(InputsIn(frame, n)) <= |frame| && InputsIn(frame, n) < 65536
    ensures StoreInputs(inputs, address, 0, n, 0, frame, 3).0
         == Put(inputs, address, 0, Unpacked(frame, 3, InputsIn(frame, n)))
  {
    assert 3 + Ceil8(InputsIn(frame, n)) <= |frame|;
    assert InputsIn(frame, n) < n ==> InputsIn(frame, n) % 8 == 0 && 3 + Ceil8(InputsIn(frame, n)) == |frame|;
    CeilNone();
    hide StoreInputs, Ceil8, BitOf;
    var m := InputsIn(frame, n);
    if m == n {
      StoreInputsPuts(inputs, address, 0, n, 0, frame, 3);
    } else {
      StoreInputsCut(inputs, address, 0, m, n, 0, frame, 3);
    }
  }

  /** And one to a preset of one register, if it is long enough and echoes the register, leaves the value it echoes. */
  lemma PresetStored(s: State, frame: seq<byte>)
    requires ForNext(s, frame) && (frame[1] == 6 || frame[1] == 16) && frame[0] == s.node
    ensures var before, after := s.cache, ParseReply(s, frame).0.cache; var a := Num(s.info[0].address);
      if frame[1] == 6 && |frame| >= 6 && Number(frame, 2) == a then
        && a in after.registers && Num(after.registers[a]) == Number(frame, 4)
        && after == before.(registers := before.registers[a := after.registers[a]])
      else after == before
  {
    hide Num, Octet, CrcHolds, ParseReply, Word16, Number;
    NextIsHandled(s, frame);
    if |frame| >= 6 {
      SameNumber(frame, 2, s.info[0].address);
      SameNumber(frame, 4, Word16(frame[4], frame[5]));
    }
  }

  /** A reply with another node's address changes nothing in the cache. */
  lemma ForeignLeavesCache(s: State, frame: seq<byte>)
    requires |frame| >= 4 && frame[0] != s.node
    ensures ParseReply(s, frame).0.cache == s.cache
  {
    hide StoreInputs, StoreRegisters, CrcHolds, Num, Octet, Ceil8;
  }

  // ---- damaged and odd replies ----

  /** A reply that was delivered is not delivered, to this or any other command, when an odd number of its bits is
      flipped, or any of its bits within 16 consecutive ones. */
  lemma DamagedIsNotDelivered(s: State, sent: seq<byte>, s': State, received: seq<byte>, errors: CrcPolynomial.Poly)
    requires ParseReply(s, sent).1 == Delivered
    requires CrcPolynomial.Flipped(sent, received, errors)
    requires |errors| % 2 == 1 || (errors != {} && exists start: nat :: CrcPolynomial.Within(errors, start, 16))
    ensures ParseReply(s', received).1 != Delivered
  {
    hide *;
    SealedWhenDelivered(s, sent);
    if ParseReply(s', received).1 == Delivered {
      SealedWhenDelivered(s', received);
    }
    if |errors| % 2 == 1 {
      CrcPolynomial.OddErrorsDetected(sent, received, errors);
    } else {
      var start: nat :| CrcPolynomial.Within(errors, start, 16);
      CrcPolynomial.BurstDetected(sent, received, errors, start);
    }
  }

  lemma SealedWhenDelivered(s: State, frame: seq<byte>)
    requires ParseReply(s, frame).1 == Delivered
    ensures Sealed(frame)
  {
    DeliveredIff(s, frame);
    hide Fits, Sealed, ParseReply;
  }

  /** The byte count of a reply to a read of registers is the number of its data bytes exactly when it is even: with an
      odd one a reply is delivered that is a byte shorter than the count says. */
  lemma OddByteCountTaken(s: State, frame: seq<byte>)
    requires ParseReply(s, frame).1 == Delivered && frame[1] == 3
    ensures |frame| == 5 + Octet(frame[2]) <==> Octet(frame[2]) % 2 == 0
  {
    hide ParseReply, Octet, Sealed;
    DeliveredHandled(s, frame);
  }

  lemma OddByteCountExists(s: State)
    requires s.info != [] && s.index < |s.commands| && |s.commands[s.index].buffer| >= 2
    requires s.commands[s.index].buffer[0] == s.node && s.commands[s.index].buffer[1] == 3
    ensures var head := [s.node, 3, 3, 0x12, 0x34];
      |head + CrcBytes(head)| == 7 && ParseReply(s, head + CrcBytes(head)).1 == Delivered
  {
    var head: seq<byte> := [s.node, 3, 3, 0x12, 0x34];
    var frame := head + CrcBytes(head);
    hide ParseReply, Sealed, CrcBytes;
    FrameIsSealed(head);
    assert frame[..3] == [s.node, 3, 3];
    assert frame[0] == s.node && frame[1] == 3 && frame[2] == 3;
    ThreeIs();
    DeliveredIff(s, frame);
  }

  lemma ThreeIs()
    ensures Octet(3) == 3
  {
  }
}
