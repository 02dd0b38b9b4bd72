/** One command over a transport: write it, read chunks until the reply is complete, hand it over. */
module Transport {
  import opened Results
  import opened Crc
  import opened ModbusCodec
  import opened Mpu
  import opened MpuCoherence
  import opened MpuDevice
  import Bus = BusList

  // What one read takes from the buffered bytes: at least one byte is asked for, and when no more than that are
  // there, all of them are taken.
  function Taken(len: nat, buffered: nat): nat {
    var wanted := if len == 0 then 1 else len;
    if wanted < buffered then wanted else buffered
  }

  // The bytes of a reply gathered in at most `polls` reads, those left, and whether their function code is known.
  function Gather(answer: seq<byte>, expected: nat, buffered: seq<byte>, polls: nat): (seq<byte>, seq<byte>, bool)
    decreases polls
  {
    if polls == 0 then (answer, buffered, true)
    else
      var n := Taken(expected, |buffered|);
      var answer', rest := answer + buffered[..n], buffered[n..];
      match ResponseLength(answer')
      case Err(_) => (answer', rest, false)
      case Ok(None) => Gather(answer', 0, rest, polls - 1)
      case Ok(Some(length)) =>
        if length <= |answer'| then (answer', rest, true)
        else Gather(answer', length - |answer'|, rest, polls - 1)
  }

  /** Gathering neither loses nor invents bytes. */
  lemma {:induction false} GatherSplits(answer: seq<byte>, expected: nat, buffered: seq<byte>, polls: nat)
    ensures var (bytes, rest, _) := Gather(answer, expected, buffered, polls); bytes + rest == answer + buffered
    decreases polls
  {
    hide ResponseLength;
    if polls == 0 {
    } else {
      var n := Taken(expected, |buffered|);
      var answer', rest := answer + buffered[..n], buffered[n..];
      assert answer' + rest == answer + buffered;
      match ResponseLength(answer')
      case Ok(None) => GatherSplits(answer', 0, rest, polls - 1);
      case Ok(Some(length)) =>
        if length > |answer'| {
          GatherSplits(answer', length - |answer'|, rest, polls - 1);
        }
      case Err(_) =>
    }
  }

  /** Once responseLength gives a length, or throws, it does so on every extension of the bytes. */
  lemma ResponseLengthStable(a: seq<byte>, b: seq<byte>)
    ensures ResponseLength(a) != Ok(None) ==> ResponseLength(a + b) == ResponseLength(a)
    ensures ResponseLength(a) == Ok(None) ==> |a| < 3
    ensures ResponseLength(a).Ok? && ResponseLength(a).value.Some? ==> ResponseLength(a).value.value >= 5
  {
    hide Octet;
  }

  // A whole reply, by the protocol: a read is answered with a count of data bytes and these, a preset with its first
  // six bytes, and a refused request of any kind with one exception code.
  predicate Complete(reply: seq<byte>) {
    |reply| >= 3 &&
    if reply[1] == 2 || reply[1] == 3 then |reply| == 5 + Octet(reply[2])
    else if reply[1] == 6 || reply[1] == 16 then |reply| == 8
    else 128 <= Octet(reply[1]) && |reply| == 5
  }

  /** responseLength gives the length of every whole reply, and no other bytes are as long as it says. */
  lemma CompleteIff(reply: seq<byte>)
    ensures Complete(reply) <==> ResponseLength(reply) == Ok(Some(|reply|))
  {
    if |reply| >= 2 {
      HighBit(reply[1]);
    }
    hide Octet;
  }

  /** It throws exactly for the function codes below 128 that are not among the MPU's four. */
  lemma UnknownIff(reply: seq<byte>)
    ensures ResponseLength(reply).Err? <==> |reply| >= 2 && Octet(reply[1]) < 128 && reply[1] !in {2, 3, 6, 16}
  {
    if |reply| >= 2 {
      HighBit(reply[1]);
    }
    hide Octet;
  }

  lemma HighBit(func: byte)
    ensures func & 0x80 == 0x80 <==> 128 <= Octet(func)
  {
    if func >= 0x80 {
      assert Octet(func) == Octet(func - 0x80) + 128;
    }
  }

  // Reads until a reply is complete: one for each byte before the length is known, and one for the rest.
  function ReadsNeeded(reply: seq<byte>): nat
    requires |reply| >= 2
  {
    if reply[1] == READ_INPUT_STATUS || reply[1] == READ_HOLDING_REGISTERS then 4 else 3
  }

  lemma FirstByte(reply: seq<byte>, extra: seq<byte>, polls: nat)
    requires Complete(reply) && polls > 0
    ensures |reply| >= 5
    ensures Gather([], 0, reply + extra, polls) == Gather(reply[..1], 0, reply[1..] + extra, polls - 1)
  {
    ResponseLengthStable(reply, []);
    var all := reply + extra;
    assert all[..1] == reply[..1] && all[1..] == reply[1..] + extra;
    assert [] + reply[..1] == reply[..1];
    hide Octet;
  }

  lemma SecondByte(reply: seq<byte>, extra: seq<byte>, polls: nat)
    requires Complete(reply) && |reply| >= 5 && polls > 0
    ensures Gather(reply[..1], 0, reply[1..] + extra, polls)
         == Gather(reply[..2], if ReadsNeeded(reply) == 3 then |reply| - 2 else 0, reply[2..] + extra, polls - 1)
  {
    var all := reply[1..] + extra;
    assert all[..1] == reply[1..2] && all[1..] == reply[2..] + extra;
    assert reply[..1] + reply[1..2] == reply[..2];
    hide Octet;
  }

  lemma ThirdByte(reply: seq<byte>, extra: seq<byte>, polls: nat)
    requires Complete(reply) && |reply| >= 5 && polls > 0 && ReadsNeeded(reply) == 4
    ensures Gather(reply[..2], 0, reply[2..] + extra, polls)
         == Gather(reply[..3], |reply| - 3, reply[3..] + extra, polls - 1)
  {
    var all := reply[2..] + extra;
    assert all[..1] == reply[2..3] && all[1..] == reply[3..] + extra;
    assert reply[..2] + reply[2..3] == reply[..3];
    hide Octet;
  }

  lemma RestOfReply(reply: seq<byte>, extra: seq<byte>, k: nat, polls: nat)
    requires Complete(reply) && k < |reply| && polls > 0
    ensures Gather(reply[..k], |reply| - k, reply[k..] + extra, polls) == (reply, extra, true)
  {
    var all := reply[k..] + extra;
    if extra == [] {
      assert all == reply[k..];
    }
    assert all[..|reply| - k] == reply[k..] && all[|reply| - k..] == extra;
    assert reply[..k] + reply[k..] == reply;
    hide Octet;
  }

  /** With a complete reply in front of the buffered bytes, exactly that reply is gathered and everything behind
      it is left, if and only if the deadline allows the reads the reply needs. */
  lemma ExactFraming(reply: seq<byte>, extra: seq<byte>, polls: nat)
    requires Complete(reply)
    ensures |reply| >= 5
    ensures Gather([], 0, reply + extra, polls) == (reply, extra, true) <==> polls >= ReadsNeeded(reply)
    ensures polls < ReadsNeeded(reply) ==>
      Gather([], 0, reply + extra, polls) == (reply[..polls], reply[polls..] + extra, true)
  {
    ResponseLengthStable(reply, []);
    assert reply[..0] == [] && reply[0..] == reply;
    hide ResponseLength, Taken;
    if polls >= 1 {
      FirstByte(reply, extra, polls);
      if polls >= 2 {
        SecondByte(reply, extra, polls - 1);
        if polls >= 3 {
          if ReadsNeeded(reply) == 3 {
            RestOfReply(reply, extra, 2, polls - 2);
          } else {
            ThirdByte(reply, extra, polls - 2);
            if polls >= 4 {
              RestOfReply(reply, extra, 3, polls - 3);
            }
          }
        }
      }
    }
  }

  datatype Execution =
    | Timeout                       // the deadline had passed before the command was written
    | UnknownFunction               // responseLength threw
    | MissingResponse
    | Undefined                     // a missing response with nothing commanded
    | Parsed(outcome: Outcome)

  // execute_command: what comes of it, the MPU, and the bytes left in the transport.
  function Executed(s: State, buffered: seq<byte>, reply: seq<byte>, polls: nat): (Execution, State, seq<byte>) {
    if polls == 0 then (Timeout, s, buffered)
    else
      var (bytes, rest, known) := Gather([], 0, buffered + reply, polls);
      if !known then (UnknownFunction, s, rest)
      else if bytes == [] then
        match Missing(s)
        case None => (Undefined, s, rest)
        case Some(s') => (MissingResponse, s', rest)
      else
        var (s', outcome) := ParseReply(s, bytes);
        (Parsed(outcome), if outcome == Delivered then s'.(index := 0) else s', rest)
  }

  // commands: one command after the other, up to the first that throws (None: all went well, and the list of
  // commands is cleared).
  function Batch(s: State, buffered: seq<byte>, replies: seq<seq<byte>>, polls: seq<nat>)
      : (Option<Execution>, State, seq<byte>)
    requires |replies| == |polls|
    decreases replies
  {
    if replies == [] then (None, s.(commands := []), buffered)
    else
      var (execution, s', rest) := Executed(s, buffered, replies[0], polls[0]);
      if execution == Parsed(Delivered) then Batch(s', rest, replies[1..], polls[1..])
      else (Some(execution), s', rest)
  }

  class SimulatedTransport {
    var response: seq<byte>
    var bytesWritten: nat
    var bytesRead: nat
    ghost var generated: seq<byte>  // every byte ever put into the buffer

    ghost predicate Valid()
      reads this
    {
      bytesRead <= |generated| && response == generated[bytesRead..]
    }

    constructor ()
      ensures Valid() && response == [] && bytesWritten == 0 && bytesRead == 0 && generated == []
    {
      response, bytesWritten, bytesRead, generated := [], 0, 0, [];
    }

    // The simulated device answers while the command is written.
    method Write(buffer: seq<byte>, reply: seq<byte>)
      requires Valid()
      modifies this
      ensures Valid() && response == old(response) + reply && generated == old(generated) + reply
      ensures bytesWritten == old(bytesWritten) + |buffer| && bytesRead == old(bytesRead)
    {
      response := response + reply;
      generated := generated + reply;
      bytesWritten := bytesWritten + |buffer|;
    }

    method Read(len: nat) returns (chunk: seq<byte>)
      requires Valid()
      modifies this`response, this`bytesRead
      ensures Valid() && old(response) == chunk + response && |chunk| == Taken(len, |old(response)|)
      ensures bytesRead == old(bytesRead) + |chunk|
    {
      var wanted := if len == 0 then 1 else len;
      if wanted < |response| {
        chunk := response[..wanted];
        bytesRead := bytesRead + wanted;
        response := response[wanted..];
        return;
      }
      chunk := response;
      response := [];
      bytesRead := bytesRead + |chunk|;
    }

    /** Writes the command, gathers the reply, and lets the MPU parse it. `polls` is how often the clock is
        still before the deadline when it is looked at. */
    method ExecuteCommand(command: seq<byte>, reply: seq<byte>, mpu: MPU, polls: nat) returns (execution: Execution)
      requires Valid()
      modifies this, mpu
      ensures Valid()
      ensures (execution, mpu.Model(), response) == Executed(old(mpu.Model()), old(response), reply, polls)
      ensures mpu.commands == old(mpu.commands)
      ensures polls > 0 ==> generated == old(generated) + reply && bytesWritten == old(bytesWritten) + |command|
    {
      if polls == 0 {
        return Timeout;
      }
      Write(command, reply);
      ghost var buffered := response;
      var bytes: seq<byte> := [];
      var expected: nat, left := 0, polls;
      while left > 0
        invariant Valid() && generated == old(generated) + reply && bytesWritten == old(bytesWritten) + |command|
        invariant 0 <= left <= polls
        invariant Gather([], 0, buffered, polls) == Gather(bytes, expected, response, left)
        invariant mpu.Model() == old(mpu.Model())
      {
        ghost var before := response;
        var chunk := Read(expected);
        assert chunk == before[..Taken(expected, |before|)] && response == before[Taken(expected, |before|)..];
        bytes := bytes + chunk;
        var length := ResponseLength(bytes);
        if length.Err? {
          return UnknownFunction;
        }
        if length.value.None? {
          expected := 0;
        } else if length.value.value <= |bytes| {
          break;
        } else {
          expected := length.value.value - |bytes|;
        }
        left := left - 1;
      }
      assert Gather([], 0, buffered, polls) == (bytes, response, true);
      if bytes == [] {
        var defined := mpu.MissingResponse();
        return if defined then MissingResponse else Undefined;
      }
      var outcome := mpu.Parse(bytes);
      if outcome == Delivered {
        mpu.NextMessage();
      }
      return Parsed(outcome);
    }

    /** Executes the commands of the list one by one, then clears it; the first that throws ends it. */
    method Commands(mpu: MPU, replies: seq<seq<byte>>, polls: seq<nat>) returns (thrown: Option<Execution>)
      requires Valid() && |replies| == |polls| == |mpu.commands|
      modifies this, mpu
      ensures Valid()
      ensures (thrown, mpu.Model(), response) == Batch(old(mpu.Model()), old(response), replies, polls)
    {
      var list := mpu.commands;
      assert replies[0..] == replies && polls[0..] == polls;
      for i := 0 to |list|
        invariant Valid()
        invariant Batch(mpu.Model(), response, replies[i..], polls[i..])
               == Batch(old(mpu.Model()), old(response), replies, polls)
      {
        assert replies[i..][1..] == replies[i + 1..] && polls[i..][1..] == polls[i + 1..];
        hide Batch, Executed;
        var execution := ExecuteCommand(list[i].buffer, replies[i], mpu, polls[i]);
        if execution != Parsed(Delivered) {
          return Some(execution);
        }
      }
      assert replies[|list|..] == [];
      mpu.Clear();
      return None;
    }
  }

  // ---- whole commands ----

  lemma CountedComplete(node: byte, func: byte, count: byte, body: seq<Value>)
    requires func == READ_INPUT_STATUS || func == READ_HOLDING_REGISTERS
    requires Octet(count) == |EncodeAll(body)|
    ensures Complete(FrameOf(node, func, [U8(count)] + body))
  {
    var crc := CountedFrame(node, func, count, body);
    hide FrameOf, EncodeAll, Octet;
  }

  lemma PresetComplete(node: byte, func: byte, address: bv16, second: bv16)
    requires func == PRESET_HOLDING_REGISTER || func == PRESET_HOLDING_REGISTERS
    ensures Complete(FrameOf(node, func, [U16(address), U16(second)]))
  {
    PresetReply(node, func, address, second);
    hide FrameOf, Word16, CrcHolds;
  }

  /** Every reply of the device is complete in this sense. */
  lemma ServeComplete(node: byte, d: Device, r: Request)
    requires Whole(d) && Legal(r)
    ensures Complete(Serve(node, d, r).1)
  {
    hide FrameOf, Pack, Words, Octets, EncodeAll, Octet, Low8, Low16, Num, Written, Complete;
    match r
    case ReadInputs(address, count) =>
      var packed := Pack(d.inputs[Num(address)..Num(address) + Num(count)]);
      OctetsEncoded(packed);
      CeilBound(Num(count));
      LowByte(|packed|);
      CountedComplete(node, READ_INPUT_STATUS, Low8(|packed|), Octets(packed));
    case ReadRegisters(address, count) =>
      var values := d.registers[Num(address)..Num(address) + Num(count)];
      WordsEncoded([], values, []);
      LowByte(|values| * 2);
      CountedComplete(node, READ_HOLDING_REGISTERS, Low8(|values| * 2), Words(values));
    case Preset(address, value) => PresetComplete(node, PRESET_HOLDING_REGISTER, address, value);
    case Presets(address, values) => PresetComplete(node, PRESET_HOLDING_REGISTERS, address, Low16(|values|));
  }

  // The replies of the device to the requests in turn.
  function ServeAll(node: byte, d: Device, requests: seq<Request>): (replies: seq<seq<byte>>)
    requires Whole(d) && forall i :: 0 <= i < |requests| ==> Legal(requests[i])
    ensures |replies| == |requests|
    decreases requests
  {
    if requests == [] then []
    else
      var (d', reply) := Serve(node, d, requests[0]);
      [reply] + ServeAll(node, d', requests[1..])
  }

  function LearntAll(node: byte, cache: Cache, d: Device, requests: seq<Request>): Cache
    requires Whole(d) && forall i :: 0 <= i < |requests| ==> Legal(requests[i])
    decreases requests
  {
    if requests == [] then cache
    else LearntAll(node, Learnt(cache, d, requests[0]), Serve(node, d, requests[0]).0, requests[1..])
  }

  function SendAll(s: State, requests: seq<Request>, timing: nat): State
    decreases requests
  {
    if requests == [] then s else SendAll(Send(s, requests[0], timing), requests[1..], timing)
  }

  function InfosFor(requests: seq<Request>): seq<Info> {
    if requests == [] then [] else [InfoFor(requests[0])] + InfosFor(requests[1..])
  }

  // The MPU between two commands of a batch: the index is back at the first command, whose function is `code`, and
  // the open requests are listed.
  predicate Waiting(s: State, code: byte, open: seq<Request>) {
    && s.index == 0 && s.commands != [] && s.info == InfosFor(open)
    && |s.commands[0].buffer| >= 2 && s.commands[0].buffer[0] == s.node && s.commands[0].buffer[1] == code
  }

  predicate Alike(code: byte, requests: seq<Request>) {
    forall i :: 0 <= i < |requests| ==> Code(requests[i]) == code && !Refused(requests[i])
  }

  // One command of a batch over an idle transport.
  lemma OneExecuted(s: State, code: byte, open: seq<Request>, d: Device, polls: nat)
    requires Waiting(s, code, open) && open != [] && Whole(d) && Legal(open[0]) && polls >= 4 && Known(code)
    ensures var r := open[0]; var (execution, s', rest) := Executed(s, [], Serve(s.node, d, r).1, polls);
      && rest == []
      && (execution == Parsed(Delivered) <==> Code(r) == code && !Refused(r))
      && (execution == Parsed(Delivered) ==> s' == s.(info := InfosFor(open[1..]), cache := Learnt(s.cache, d, r)))
      && (Code(r) == code && Refused(r) ==>
            s' == s.(index := 1, info := InfosFor(open[1..]), cache := Learnt(s.cache, d, r)))
      && (Code(r) != code ==> s'.info == s.info && s'.cache == s.cache)
  {
    hide Gather, Serve, Handle, Learnt, Legal, Whole, Code, InfoFor, Refused, Known, Complete, ReadsNeeded, ParseReply;
    var r := open[0];
    var reply := Serve(s.node, d, r).1;
    assert [] + reply == reply && reply + [] == reply;
    ServeComplete(s.node, d, r);
    ExactFraming(reply, [], polls);
    AtMostFour(reply);
    ReplyHandled(s.node, d, r, s.cache);
    assert s.info[1..] == InfosFor(open[1..]);
    CodeKnown(r);
    if Code(r) == code {
      ReplyParsed(s, reply);
    } else {
      OtherParsed(s, reply);
    }
  }

  lemma CodeKnown(r: Request)
    ensures Known(Code(r))
  {
  }

  lemma OtherParsed(s: State, reply: seq<byte>)
    requires s.index < |s.commands| && |s.commands[s.index].buffer| >= 2 && |reply| >= 4
    requires Known(reply[1]) && reply[1] != s.commands[s.index].buffer[1]
    ensures var (s', outcome) := ParseReply(s, reply);
      outcome == WrongResponse && s'.info == s.info && s'.cache == s.cache
  {
    KnownIsPlain(reply[1]);
    hide Handle;
  }

  lemma {:induction false} BatchFrom(s: State, code: byte, open: seq<Request>, d: Device, polls: seq<nat>)
    requires Waiting(s, code, open) && Whole(d) && Known(code) && |polls| == |open|
    requires forall i :: 0 <= i < |open| ==> Legal(open[i]) && polls[i] >= 4
    ensures var (thrown, s', rest) := Batch(s, [], ServeAll(s.node, d, open), polls);
      && (thrown == None <==> Alike(code, open))
      && (thrown == None ==>
            rest == [] && s' == s.(commands := [], info := [], cache := LearntAll(s.node, s.cache, d, open)))
    decreases open
  {
    hide Legal, Serve, Learnt, Known, Code, Refused, Executed, InfoFor;
    var replies := ServeAll(s.node, d, open);
    if open == [] {
    } else {
      OneExecuted(s, code, open, d, polls[0]);
      ServedRegisters(s.node, d, open[0]);
      assert replies[0] == Serve(s.node, d, open[0]).1;
      assert replies[1..] == ServeAll(s.node, Serve(s.node, d, open[0]).0, open[1..]);
      hide Batch, Alike, ServeAll;
      if Executed(s, [], replies[0], polls[0]).0 == Parsed(Delivered) {
        BatchFrom(Executed(s, [], replies[0], polls[0]).1, code, open[1..], Serve(s.node, d, open[0]).0, polls[1..]);
      }
    }
  }

  lemma {:induction false} SentAll(s: State, requests: seq<Request>, timing: nat)
    ensures var sent := SendAll(s, requests, timing);
      && sent == s.(commands := sent.commands, info := s.info + InfosFor(requests))
      && s.commands <= sent.commands && |sent.commands| == |s.commands| + |requests|
    decreases requests
  {
    hide *;
    if requests == [] {
      NoneSent(s, timing);
    } else {
      var first := Send(s, requests[0], timing);
      SendAllStep(s, requests, timing);
      SentAll(first, requests[1..], timing);
    }
  }

  lemma NoneSent(s: State, timing: nat)
    ensures SendAll(s, [], timing) == s && s.info + InfosFor([]) == s.info
  {
  }

  lemma SendAllStep(s: State, requests: seq<Request>, timing: nat)
    requires requests != []
    ensures var first := Send(s, requests[0], timing);
      && SendAll(s, requests, timing) == SendAll(first, requests[1..], timing)
      && first == s.(commands := first.commands, info := s.info + [InfoFor(requests[0])])
      && |first.commands| == |s.commands| + 1 && s.commands <= first.commands
      && InfosFor(requests) == [InfoFor(requests[0])] + InfosFor(requests[1..])
  {
    hide CommandOf, InfoFor;
  }

  /** A batch of commands over an idle transport, four reads before each deadline, with the device answering each:
      all are delivered exactly when all have the function code of the first, because the index goes back to it
      after every command, and none reads inputs from address 0. Then everything was learnt, the lists and the
      transport are empty, and the index is 0. A single command is such a batch unless it reads inputs from
      address 0. */
  lemma BatchIff(s: State, requests: seq<Request>, timing: nat, d: Device, polls: seq<nat>)
    requires s.commands == [] && s.index == 0 && s.info == [] && Whole(d) && requests != [] && |polls| == |requests|
    requires forall i :: 0 <= i < |requests| ==> Legal(requests[i]) && polls[i] >= 4
    ensures var (thrown, s', rest) := Batch(SendAll(s, requests, timing), [], ServeAll(s.node, d, requests), polls);
      && (thrown == None <==> Alike(Code(requests[0]), requests))
      && (thrown == None ==> rest == [] && s' == s.(cache := LearntAll(s.node, s.cache, d, requests)))
  {
    hide Legal, Learnt, Known, Code, Refused, Executed, InfoFor, Batch, Alike, ServeAll, LearntAll, Whole;
    var first := Send(s, requests[0], timing);
    var sent := SendAll(s, requests, timing);
    SentAll(s, requests, timing);
    SentAll(first, requests[1..], timing);
    OneSent(s, requests[0], timing);
    assert sent == SendAll(first, requests[1..], timing);
    assert sent.commands[0] == first.commands[0];
    assert s.info + InfosFor(requests) == InfosFor(requests);
    BatchFrom(sent, Code(requests[0]), requests, d, polls);
  }

  lemma AtMostFour(reply: seq<byte>)
    requires |reply| >= 2
    ensures ReadsNeeded(reply) <= 4
  {
  }

  lemma OneSent(s: State, r: Request, timing: nat)
    requires s.commands == []
    ensures Known(Code(r))
    ensures var sent := Send(s, r, timing);
      && |sent.commands| == 1 && |sent.commands[0].buffer| >= 2
      && sent.commands[0].buffer[0] == s.node && sent.commands[0].buffer[1] == Code(r)
      && sent == s.(commands := sent.commands, info := s.info + [InfoFor(r)])
  {
    CommandBytes(s.node, r);
    hide CommandOf, InfoFor, EncodeAll, Arguments, CrcBytes, Word16, InfoOf;
  }

  /** When no reply came, clearing the command list and calling next_message make the MPU ready again; without
      next_message, every reply to the next command is refused. */
  lemma AfterMissingResponse(s: State, r: Request, timing: nat, frame: seq<byte>)
    requires s.commands == [] && s.index == 0 && s.info == []
    ensures Missing(Send(s, r, timing)).Some?
    ensures var cleared := Missing(Send(s, r, timing)).value.(commands := []);
      && Lockstep(cleared.(index := 0))
      && ParseReply(Send(cleared, r, timing), frame).1 in {NotFound, ShortFrame}
  {
    hide CommandOf, InfoFor, InfoOf, Handle;
  }

  /** After an error reply this is not enough: the list keeps the old command's registers, and the values the next
      read brings are filed under its address. */
  lemma MisfiledAfterErrorReply(s: State, error: seq<byte>, r: Request, r': Request, d: Device, timing: nat)
    requires s.commands == [] && s.index == 0 && s.info == []
    requires Whole(d) && Legal(r') && r.ReadRegisters? && r'.ReadRegisters?
    requires |error| == 5 && error[0] == s.node && error[1] == Code(r) | Bus.ERROR_MASK
    ensures ParseReply(Send(s, r, timing), error).1 == ErrorResponse
    ensures var cleared := ParseReply(Send(s, r, timing), error).0.(commands := [], index := 0);
      var values := d.registers[Num(r'.address)..Num(r'.address) + Num(r'.count)];
      ParseReply(Send(cleared, r', timing), Serve(s.node, d, r').1).0.cache.registers
      == Put(s.cache.registers, r.address, 0, values)
  {
    hide Send, FrameOf, ParseReply, Put, HandleRegisters, HandleInputs, HandlePreset, HandlePresets, Num, Low8, Words;
    OneSent(s, r, timing);
    ErrorParsed(Send(s, r, timing), error);
    var cleared := ParseReply(Send(s, r, timing), error).0.(commands := [], index := 0);
    OneSent(cleared, r', timing);
    var values := d.registers[Num(r'.address)..Num(r'.address) + Num(r'.count)];
    RegistersReply(s.node, r.address, values, r.count, s.cache);
    ReplyParsed(Send(cleared, r', timing), Serve(s.node, d, r').1);
  }

  lemma ErrorParsed(s: State, error: seq<byte>)
    requires s.index < |s.commands| && |s.commands[s.index].buffer| >= 2 && |error| >= 4
    requires Known(s.commands[s.index].buffer[1]) && error[0] == s.commands[s.index].buffer[0]
    requires error[1] == s.commands[s.index].buffer[1] | Bus.ERROR_MASK
    ensures ParseReply(s, error) == (s.(index := s.index + 1), ErrorResponse)
  {
    ErrorCode(s.commands[s.index].buffer[1]);
    hide Known, Handle;
  }

  lemma ErrorCode(func: byte)
    requires Known(func)
    ensures var called := func | Bus.ERROR_MASK;
      called & Bus.ERROR_MASK != 0 && called & !Bus.ERROR_MASK == func
  {
  }

  // ---- refused requests ----

  // The exception reply of a device: the function code with its highest bit set, and the reason.
  function Refusal(node: byte, code: byte, reason: byte): (frame: seq<byte>)
    ensures |frame| == 5 && frame[0] == node && frame[1] == code | 0x80 && frame[2] == reason
  {
    [node, code | 0x80, reason] + CrcBytes([node, code | 0x80, reason])
  }

  lemma RefusalComplete(node: byte, code: byte, reason: byte)
    ensures Complete(Refusal(node, code, reason)) && Sealed(Refusal(node, code, reason))
    ensures Known(code) ==> ReadsNeeded(Refusal(node, code, reason)) == 3
  {
    hide Octet, CrcBytes, Sealed;
    HighBit(code | 0x80);
    FrameIsSealed([node, code | 0x80, reason]);
    assert Refusal(node, code, reason) == [node, code | 0x80, reason] + CrcBytes([node, code | 0x80, reason]);
  }

  /** An exception reply of any reason, to any of the four functions and in front of any bytes, is gathered alone, and
      those bytes left, exactly when the deadline allows three reads. */
  lemma RefusalFramed(node: byte, code: byte, reason: byte, extra: seq<byte>, polls: nat)
    requires Known(code)
    ensures var frame := Refusal(node, code, reason);
      Gather([], 0, frame + extra, polls) == (frame, extra, true) <==> polls >= 3
  {
    hide *;
    RefusalComplete(node, code, reason);
    ExactFraming(Refusal(node, code, reason), extra, polls);
  }

  /** When its command is the next one, it is reported as an error reply, and the index is one further; nothing else
      changes, so the list of commanded registers still holds what was refused. */
  lemma RefusalExecuted(s: State, buffered: seq<byte>, reply: seq<byte>, reason: byte, extra: seq<byte>, polls: nat)
    requires s.index < |s.commands| && |s.commands[s.index].buffer| >= 2 && Known(s.commands[s.index].buffer[1])
    requires var next := s.commands[s.index].buffer; buffered + reply == Refusal(next[0], next[1], reason) + extra
    ensures Executed(s, buffered, reply, polls) == (Parsed(ErrorResponse), s.(index := s.index + 1), extra)
       <==> polls >= 3
  {
    hide *;
    var next := s.commands[s.index].buffer;
    var frame := Refusal(next[0], next[1], reason);
    if polls == 0 {
      NoReads(s, buffered, reply);
    } else if polls < 3 {
      RefusalComplete(next[0], next[1], reason);
      FewReads(frame, extra, polls);
      ExecutedIs(s, buffered, reply, polls, frame[..polls], frame[polls..] + extra);
    } else {
      RefusalFramed(next[0], next[1], reason, extra, polls);
      RefusalParsed(s, reason);
      ExecutedIs(s, buffered, reply, polls, frame, extra);
    }
  }

  lemma RefusalParsed(s: State, reason: byte)
    requires s.index < |s.commands| && |s.commands[s.index].buffer| >= 2 && Known(s.commands[s.index].buffer[1])
    ensures var next := s.commands[s.index].buffer;
      ParseReply(s, Refusal(next[0], next[1], reason)) == (s.(index := s.index + 1), ErrorResponse)
  {
    hide Refusal, Known, ParseReply;
    var next := s.commands[s.index].buffer;
    ErrorParsed(s, Refusal(next[0], next[1], reason));
  }

  lemma NoReads(s: State, buffered: seq<byte>, reply: seq<byte>)
    ensures Executed(s, buffered, reply, 0) == (Timeout, s, buffered)
  {
  }

  lemma ExecutedIs(s: State, buffered: seq<byte>, reply: seq<byte>, polls: nat, bytes: seq<byte>, rest: seq<byte>)
    requires polls > 0 && bytes != [] && Gather([], 0, buffered + reply, polls) == (bytes, rest, true)
    ensures var (s', outcome) := ParseReply(s, bytes);
      Executed(s, buffered, reply, polls)
      == (Parsed(outcome), if outcome == Delivered then s'.(index := 0) else s', rest)
  {
    hide Gather, ParseReply;
  }

  lemma FewReads(frame: seq<byte>, extra: seq<byte>, polls: nat)
    requires |frame| == 5 && Complete(frame) && polls < 3
    ensures Gather([], 0, frame + extra, polls) == (frame[..polls], frame[polls..] + extra, true)
  {
    hide Gather, Complete;
    ExactFraming(frame, extra, polls);
  }

  // ---- replies no length is known for ----

  lemma UnknownFirst(node: byte, func: byte, extra: seq<byte>, polls: nat)
    requires Octet(func) < 128 && func !in {2, 3, 6, 16} && polls > 0
    ensures Gather([], 0, [node, func] + extra, polls) == Gather([node], 0, [func] + extra, polls - 1)
  {
    hide Octet;
    UnknownIff([node]);
    var all := [node, func] + extra;
    assert all[..1] == [node] && all[1..] == [func] + extra && [] + [node] == [node];
    assert ResponseLength([node]) == Ok(None);
  }

  lemma UnknownSecond(node: byte, func: byte, extra: seq<byte>, polls: nat)
    requires Octet(func) < 128 && func !in {2, 3, 6, 16} && polls > 0
    ensures Gather([node], 0, [func] + extra, polls) == ([node, func], extra, false)
  {
    hide Octet;
    UnknownIff([node, func]);
    var all := [func] + extra;
    assert all[..1] == [func] && all[1..] == extra && [node] + [func] == [node, func];
  }

  /** A reply with a function code that is none of the MPU's and no error throws as soon as it is read, with nothing
      changed in the MPU; the bytes behind it are left for the next command. */
  lemma UnknownExecuted(s: State, buffered: seq<byte>, reply: seq<byte>, node: byte, func: byte, extra: seq<byte>,
                        polls: nat)
    requires Octet(func) < 128 && func !in {2, 3, 6, 16} && buffered + reply == [node, func] + extra
    ensures Executed(s, buffered, reply, polls) == (UnknownFunction, s, extra) <==> polls >= 2
  {
    hide Gather, ParseReply, Octet;
    if polls >= 1 {
      UnknownFirst(node, func, extra, polls);
      if polls >= 2 {
        UnknownSecond(node, func, extra, polls - 1);
      } else {
        NothingMore([node], [func] + extra);
      }
    }
  }

  lemma NothingMore(answer: seq<byte>, buffered: seq<byte>)
    ensures Gather(answer, 0, buffered, 0) == (answer, buffered, true)
  {
  }
}
