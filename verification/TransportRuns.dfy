/** Batch after batch over a transport: which batches leave the MPU ready for the next one, and that its cache agrees
    with the device throughout, whatever requests the device refuses and whatever messages are lost on the way. */
module TransportRuns {
  import opened Results
  import opened Crc
  import opened ModbusCodec
  import opened Mpu
  import opened MpuDevice
  import opened Transport

  // What becomes of a request: it is answered, refused with an exception reply, or one of the messages is lost.
  datatype Fate = Answered | Excepted(reason: byte) | ReplyLost | RequestLost

  // A batch of requests with what becomes of each message and the reads before each deadline. When commands()
  // returns or throws, the caller clears the list and calls next_message.
  datatype Round = Round(requests: seq<Request>, fates: seq<Fate>, polls: seq<nat>, timing: nat)

  predicate Proper(round: Round) {
    && |round.fates| == |round.polls| == |round.requests|
    && forall i :: 0 <= i < |round.requests| ==> Legal(round.requests[i]) && round.polls[i] >= 4
  }

  // The device after a request with this fate, and the reply that comes back.
  function Served(node: byte, d: Device, r: Request, fate: Fate): (Device, seq<byte>)
    requires Whole(d) && Legal(r)
  {
    match fate
    case Answered => Serve(node, d, r)
    case Excepted(reason) => (d, Refusal(node, Code(r), reason))
    case ReplyLost => (Serve(node, d, r).0, [])
    case RequestLost => (d, [])
  }

  lemma ServedWhole(node: byte, d: Device, r: Request, fate: Fate)
    requires Whole(d) && Legal(r)
    ensures Whole(Served(node, d, r, fate).0)
  {
    ServedRegisters(node, d, r);
    hide Serve, Legal, Writes;
  }

  function Replies(node: byte, d: Device, requests: seq<Request>, fates: seq<Fate>): (replies: seq<seq<byte>>)
    requires Whole(d) && |fates| == |requests| && forall i :: 0 <= i < |requests| ==> Legal(requests[i])
    ensures |replies| == |requests|
    decreases requests
  {
    if requests == [] then []
    else
      ServedWhole(node, d, requests[0], fates[0]);
      var (d', reply) := Served(node, d, requests[0], fates[0]);
      [reply] + Replies(node, d', requests[1..], fates[1..])
  }

  // What is out of date after one command: what it wrote, unless it was delivered and refreshed it.
  function StaleAfter(stale: set<nat>, r: Request, fate: Fate, execution: Execution): set<nat> {
    var written := if fate.RequestLost? || fate.Excepted? then stale else stale + Writes(r);
    if execution == Parsed(Delivered) then written - Refreshes(r) else written
  }

  // The world after one command.
  function ExchangeOne(w: World, r: Request, fate: Fate, polls: nat): (Execution, World)
    requires Whole(w.device) && Legal(r)
  {
    var (device, reply) := Served(w.mpu.node, w.device, r, fate);
    var (execution, s, _) := Executed(w.mpu, [], reply, polls);
    (execution, World(s, device, StaleAfter(w.stale, r, fate, execution)))
  }

  // The commands of a batch in turn, up to the first that throws.
  function Exchanged(w: World, open: seq<Request>, fates: seq<Fate>, polls: seq<nat>): (Option<Execution>, World)
    requires Whole(w.device) && |fates| == |polls| == |open| && forall i :: 0 <= i < |open| ==> Legal(open[i])
    decreases open
  {
    if open == [] then (None, w.(mpu := w.mpu.(commands := [])))
    else
      ServedWhole(w.mpu.node, w.device, open[0], fates[0]);
      var (execution, w') := ExchangeOne(w, open[0], fates[0], polls[0]);
      if execution == Parsed(Delivered) then Exchanged(w', open[1..], fates[1..], polls[1..])
      else (Some(execution), w')
  }

  function AfterRound(w: World, round: Round): World
    requires Whole(w.device) && Proper(round)
  {
    var sent := w.(mpu := SendAll(w.mpu, round.requests, round.timing));
    var (_, w') := Exchanged(sent, round.requests, round.fates, round.polls);
    w'.(mpu := w'.mpu.(commands := [], index := 0))
  }

  // One command whose reply does not come.
  lemma {:induction false} NothingGathered(polls: nat)
    ensures Gather([], 0, [], polls) == ([], [], true)
    decreases polls
  {
    if polls == 0 {
    } else {
      NothingGathered(polls - 1);
      var none: seq<byte> := [];
      assert none + none[..0] == none && none[0..] == none;
    }
  }

  lemma LostExecuted(s: State, polls: nat)
    requires polls > 0 && s.info != []
    ensures Executed(s, [], [], polls) == (MissingResponse, s.(index := s.index + 1, info := s.info[1..]), [])
  {
    var none: seq<byte> := [];
    assert none + none == none;
    NothingGathered(polls);
    hide Gather;
  }

  // A command that is delivered, as one of a batch whose first has the function code `code`.
  predicate Delivers(code: byte, r: Request, fate: Fate) {
    fate.Answered? && Code(r) == code && !Refused(r)
  }

  // The batch is delivered, or only its last command is not, and that for want of a reply or because the handler
  // refused a reply that is no exception.
  predicate Settles(code: byte, open: seq<Request>, fates: seq<Fate>)
    requires |fates| == |open|
    decreases open
  {
    if open == [] then true
    else if Delivers(code, open[0], fates[0]) then Settles(code, open[1..], fates[1..])
    else |open| == 1 && !fates[0].Excepted? && (fates[0].Answered? ==> Code(open[0]) == code)
  }

  predicate RoundSettles(round: Round) {
    |round.fates| == |round.requests| &&
    (round.requests == [] || Settles(Code(round.requests[0]), round.requests, round.fates))
  }

  lemma RefusedLearnsNothing(cache: Cache, d: Device, r: Request)
    requires Whole(d) && Legal(r) && Refused(r)
    ensures Learnt(cache, d, r) == cache
  {
  }

  predicate StillAgrees(w: World) {
    Whole(w.device) && Agrees(w.mpu.cache.registers, w.device.registers, w.stale)
  }

  lemma ExchangedStep(w: World, open: seq<Request>, fates: seq<Fate>, polls: seq<nat>)
    requires Whole(w.device) && |fates| == |polls| == |open| && open != []
    requires forall i :: 0 <= i < |open| ==> Legal(open[i])
    ensures var (execution, w') := ExchangeOne(w, open[0], fates[0], polls[0]);
      && Whole(w'.device)
      && Exchanged(w, open, fates, polls)
         == if execution == Parsed(Delivered) then Exchanged(w', open[1..], fates[1..], polls[1..])
            else (Some(execution), w')
  {
    hide Served, Executed, StaleAfter, Legal;
    ServedWhole(w.mpu.node, w.device, open[0], fates[0]);
  }

  // A command whose reply is an exception: the list keeps what was commanded.
  lemma ExceptedExecuted(s: State, code: byte, open: seq<Request>, r: Request, reason: byte, polls: nat)
    requires Waiting(s, code, open) && polls >= 4 && Known(code)
    ensures var (execution, s', rest) := Executed(s, [], Refusal(s.node, Code(r), reason), polls);
      && rest == [] && execution != Parsed(Delivered) && s'.info == s.info && s'.cache == s.cache
  {
    hide *;
    var frame := Refusal(s.node, Code(r), reason);
    WaitingIs(s, code, open);
    assert [] + frame == frame == frame + [];
    CodeKnown(r);
    if Code(r) == code {
      RefusalExecuted(s, [], frame, reason, [], polls);
    } else {
      RefusalFramed(s.node, Code(r), reason, [], polls);
      OtherRefused(s, code, r, reason);
      ExecutedIs(s, [], frame, polls, frame, []);
    }
  }

  lemma WaitingIs(s: State, code: byte, open: seq<Request>)
    requires Waiting(s, code, open)
    ensures s.index == 0 < |s.commands| && |s.commands[0].buffer| >= 2
    ensures s.commands[0].buffer[0] == s.node && s.commands[0].buffer[1] == code
  {
  }

  lemma OtherRefused(s: State, code: byte, r: Request, reason: byte)
    requires s.index == 0 < |s.commands| && |s.commands[0].buffer| >= 2
    requires s.commands[0].buffer[1] == code && Code(r) != code && Known(Code(r))
    ensures var (s', outcome) := ParseReply(s, Refusal(s.node, Code(r), reason));
      outcome == WrongResponse && s'.info == s.info && s'.cache == s.cache
  {
    ErrorCode(Code(r));
    hide Handle, Known, Refusal, Code;
  }

  // What one command of a batch does to the list and to the cache.
  lemma OneExchanged(w: World, code: byte, open: seq<Request>, fate: Fate, polls: nat)
    requires Waiting(w.mpu, code, open) && open != [] && Whole(w.device) && Legal(open[0]) && polls >= 4 && Known(code)
    ensures var r := open[0]; var (execution, w') := ExchangeOne(w, r, fate, polls); var s' := w'.mpu;
      && (execution == Parsed(Delivered) <==> Delivers(code, r, fate))
      && (Delivers(code, r, fate) ==>
            s' == w.mpu.(info := InfosFor(open[1..]), cache := Learnt(w.mpu.cache, w.device, r)))
      && (!Delivers(code, r, fate) ==>
            s'.cache == w.mpu.cache
            && s'.info == if fate.Excepted? || (fate.Answered? && Code(r) != code) then w.mpu.info
                          else InfosFor(open[1..]))
  {
    hide Executed, Serve, Learnt, Code, Refused, Known, Legal, InfoFor, StaleAfter, Whole, Refusal;
    var r := open[0];
    OneExecuted(w.mpu, code, open, w.device, polls);
    assert w.mpu.info[1..] == InfosFor(open[1..]);
    LostExecuted(w.mpu, polls);
    if fate.Excepted? {
      ExceptedExecuted(w.mpu, code, open, r, fate.reason, polls);
    }
    if Refused(r) {
      RefusedLearnsNothing(w.mpu.cache, w.device, r);
    }
  }

  // Registers cached before a request is served are as the device has them, unless the request wrote them.
  lemma ServingAgrees(registers: map<nat, bv16>, d: Device, r: Request, node: byte, stale: set<nat>)
    requires Whole(d) && Legal(r) && Agrees(registers, d.registers, stale)
    ensures Agrees(registers, Serve(node, d, r).0.registers, stale + Writes(r))
  {
    ServedRegisters(node, d, r);
    hide Serve, Legal, Writes;
  }

  lemma OneAgrees(w: World, code: byte, open: seq<Request>, fate: Fate, polls: nat)
    requires Waiting(w.mpu, code, open) && open != [] && Legal(open[0]) && polls >= 4 && Known(code)
    requires StillAgrees(w)
    ensures StillAgrees(ExchangeOne(w, open[0], fate, polls).1)
  {
    hide Executed, Serve, Learnt, Code, Refused, Known, Legal, Agrees, Writes, Refreshes, Waiting, InfosFor, Whole;
    var r := open[0];
    OneExchanged(w, code, open, fate, polls);
    ServedWhole(w.mpu.node, w.device, r, fate);
    LearntAgrees(w.mpu.cache, w.device, r, w.mpu.node, w.stale);
    ServingAgrees(w.mpu.cache.registers, w.device, r, w.mpu.node, w.stale);
  }

  lemma SomeInfo(open: seq<Request>)
    ensures InfosFor(open) == [] <==> open == []
  {
    hide InfoFor;
  }

  lemma {:induction false} BatchSettles(w: World, code: byte, open: seq<Request>, fates: seq<Fate>, polls: seq<nat>)
    requires Waiting(w.mpu, code, open) && StillAgrees(w) && Known(code) && |fates| == |polls| == |open|
    requires forall i :: 0 <= i < |open| ==> Legal(open[i]) && polls[i] >= 4
    ensures var (_, w') := Exchanged(w, open, fates, polls);
      StillAgrees(w') && (w'.mpu.info == [] <==> Settles(code, open, fates))
    decreases open
  {
    hide ExchangeOne, Delivers, Code, Known, Legal, Learnt, InfosFor, Agrees, Whole;
    SomeInfo(open);
    if open == [] {
    } else {
      OneExchanged(w, code, open, fates[0], polls[0]);
      OneAgrees(w, code, open, fates[0], polls[0]);
      ExchangedStep(w, open, fates, polls);
      SomeInfo(open[1..]);
      hide Exchanged, Settles;
      if Delivers(code, open[0], fates[0]) {
        BatchSettles(ExchangeOne(w, open[0], fates[0], polls[0]).1, code, open[1..], fates[1..], polls[1..]);
      }
    }
  }

  /** What is exchanged is what commands() does with the device's replies: the same command throws, if any, and the
      MPU is left in the same state, with nothing left in the transport. */
  lemma {:induction false} ExchangedIsBatch(w: World, code: byte, open: seq<Request>, fates: seq<Fate>,
                                            polls: seq<nat>)
    requires Waiting(w.mpu, code, open) && Whole(w.device) && Known(code) && |fates| == |polls| == |open|
    requires forall i :: 0 <= i < |open| ==> Legal(open[i]) && polls[i] >= 4
    ensures var (thrown, w') := Exchanged(w, open, fates, polls);
      Batch(w.mpu, [], Replies(w.mpu.node, w.device, open, fates), polls) == (thrown, w'.mpu, [])
    decreases open
  {
    var replies := Replies(w.mpu.node, w.device, open, fates);
    if open == [] {
    } else {
      OneExchanged(w, code, open, fates[0], polls[0]);
      NothingLeft(w, code, open, fates[0], polls[0]);
      ExchangedStep(w, open, fates, polls);
      hide Batch, Exchanged, Executed, Served, Delivers, Code, Known, Legal, Learnt, InfosFor, Whole, Replies;
      if Delivers(code, open[0], fates[0]) {
        ExchangedIsBatch(ExchangeOne(w, open[0], fates[0], polls[0]).1, code, open[1..], fates[1..], polls[1..]);
      }
    }
  }

  lemma NothingLeft(w: World, code: byte, open: seq<Request>, fate: Fate, polls: nat)
    requires Waiting(w.mpu, code, open) && open != [] && Whole(w.device) && Legal(open[0]) && polls >= 4 && Known(code)
    ensures Executed(w.mpu, [], Served(w.mpu.node, w.device, open[0], fate).1, polls).2 == []
  {
    hide Executed, Serve, Learnt, Code, Refused, Known, Legal, InfoFor, Whole, Refusal;
    OneExecuted(w.mpu, code, open, w.device, polls);
    LostExecuted(w.mpu, polls);
    if fate.Excepted? {
      ExceptedExecuted(w.mpu, code, open, open[0], fate.reason, polls);
    }
  }

  // ---- rounds ----

  // Between two rounds: nothing is open, and what is cached agrees with the device.
  predicate Idle(w: World) {
    w.mpu.commands == [] && w.mpu.index == 0 && w.mpu.info == [] && StillAgrees(w)
  }

  lemma IdleSends(w: World, round: Round)
    requires Idle(w) && Proper(round) && round.requests != []
    ensures var sent := w.(mpu := SendAll(w.mpu, round.requests, round.timing));
      && Known(Code(round.requests[0])) && StillAgrees(sent)
      && Waiting(sent.mpu, Code(round.requests[0]), round.requests)
  {
    hide InfoFor, Known, Code, Agrees, Whole, Proper;
    var requests := round.requests;
    SentAll(w.mpu, requests, round.timing);
    OneSent(w.mpu, requests[0], round.timing);
    var first := Send(w.mpu, requests[0], round.timing);
    SentAll(first, requests[1..], round.timing);
    assert SendAll(w.mpu, requests, round.timing) == SendAll(first, requests[1..], round.timing);
    assert w.mpu.info + InfosFor(requests) == InfosFor(requests);
  }

  /** A round leaves the MPU ready for the next one exactly when its batch is delivered, or fails only at its last
      command and not by an exception reply or one with another function code. Whatever happens in it, the cache keeps
      agreeing. */
  lemma RoundIsIdleIff(w: World, round: Round)
    requires Idle(w) && Proper(round)
    ensures StillAgrees(AfterRound(w, round))
    ensures Idle(AfterRound(w, round)) <==> RoundSettles(round)
  {
    hide Exchanged, Settles, Code, Known, Agrees, Whole, Waiting;
    var sent := w.(mpu := SendAll(w.mpu, round.requests, round.timing));
    if round.requests == [] {
      NothingSent(w, round);
    } else {
      IdleSends(w, round);
      hide SendAll;
      BatchSettles(sent, Code(round.requests[0]), round.requests, round.fates, round.polls);
    }
  }

  lemma NothingSent(w: World, round: Round)
    requires Idle(w) && Proper(round) && round.requests == []
    ensures AfterRound(w, round) == w
  {
  }

  function AfterRounds(w: World, rounds: seq<Round>): World
    requires Whole(w.device) && forall i :: 0 <= i < |rounds| ==> Proper(rounds[i])
    decreases rounds
  {
    if rounds == [] then w
    else
      RoundKeepsWhole(w, rounds[0]);
      AfterRounds(AfterRound(w, rounds[0]), rounds[1..])
  }

  lemma {:induction false} ExchangedWhole(w: World, open: seq<Request>, fates: seq<Fate>, polls: seq<nat>)
    requires Whole(w.device) && |fates| == |polls| == |open| && forall i :: 0 <= i < |open| ==> Legal(open[i])
    ensures Whole(Exchanged(w, open, fates, polls).1.device)
    decreases open
  {
    if open == [] {
    } else {
      ExchangedStep(w, open, fates, polls);
      hide Exchanged, ExchangeOne, Legal, Whole;
      var (execution, w') := ExchangeOne(w, open[0], fates[0], polls[0]);
      if execution == Parsed(Delivered) {
        ExchangedWhole(w', open[1..], fates[1..], polls[1..]);
      }
    }
  }

  lemma RoundKeepsWhole(w: World, round: Round)
    requires Whole(w.device) && Proper(round)
    ensures Whole(AfterRound(w, round).device)
  {
    hide Exchanged, SendAll, Whole;
    ExchangedWhole(w.(mpu := SendAll(w.mpu, round.requests, round.timing)), round.requests, round.fates, round.polls);
  }

  // ---- what an unsettled round leaves behind ----

  lemma ExecutedPopsOne(s: State, reply: seq<byte>, polls: nat)
    ensures |Executed(s, [], reply, polls).1.info| >= |s.info| - 1
  {
    hide Gather, Handle;
  }

  lemma {:induction false} ExchangedPops(w: World, open: seq<Request>, fates: seq<Fate>, polls: seq<nat>)
    requires Whole(w.device) && |fates| == |polls| == |open| && forall i :: 0 <= i < |open| ==> Legal(open[i])
    ensures |Exchanged(w, open, fates, polls).1.mpu.info| >= |w.mpu.info| - |open|
    decreases open
  {
    if open == [] {
    } else {
      ExchangedStep(w, open, fates, polls);
      ExecutedPopsOne(w.mpu, Served(w.mpu.node, w.device, open[0], fates[0]).1, polls[0]);
      var (execution, w') := ExchangeOne(w, open[0], fates[0], polls[0]);
      hide Exchanged, Executed, Served, Legal, Whole;
      if execution == Parsed(Delivered) {
        ExchangedPops(w', open[1..], fates[1..], polls[1..]);
      }
    }
  }

  lemma {:induction false} InfosLength(requests: seq<Request>)
    ensures |InfosFor(requests)| == |requests|
  {
    if requests == [] {
    } else {
      InfosLength(requests[1..]);
    }
  }

  lemma LeftoverStays(w: World, round: Round)
    requires Whole(w.device) && Proper(round)
    ensures |AfterRound(w, round).mpu.info| >= |w.mpu.info|
  {
    hide Exchanged, SendAll, Whole;
    SentAll(w.mpu, round.requests, round.timing);
    InfosLength(round.requests);
    ExchangedPops(w.(mpu := SendAll(w.mpu, round.requests, round.timing)), round.requests, round.fates, round.polls);
  }

  lemma {:induction false} LeftoverStaysForever(w: World, rounds: seq<Round>)
    requires Whole(w.device) && forall i :: 0 <= i < |rounds| ==> Proper(rounds[i])
    ensures |AfterRounds(w, rounds).mpu.info| >= |w.mpu.info|
    decreases rounds
  {
    if rounds == [] {
    } else {
      LeftoverStays(w, rounds[0]);
      RoundKeepsWhole(w, rounds[0]);
      hide AfterRound, Proper, Whole;
      LeftoverStaysForever(AfterRound(w, rounds[0]), rounds[1..]);
    }
  }

  predicate AllSettle(rounds: seq<Round>) {
    forall i :: 0 <= i < |rounds| ==> RoundSettles(rounds[i])
  }

  /** Over any sequence of rounds, the MPU ends ready for the next one exactly when every round settled: a command
      left in the list by one round is never taken out by the later ones. */
  lemma {:induction false} RoundsEndIdleIff(w: World, rounds: seq<Round>)
    requires Idle(w) && forall i :: 0 <= i < |rounds| ==> Proper(rounds[i])
    ensures Idle(AfterRounds(w, rounds)) <==> AllSettle(rounds)
    decreases rounds
  {
    if rounds == [] {
    } else {
      RoundIsIdleIff(w, rounds[0]);
      RoundKeepsWhole(w, rounds[0]);
      hide AfterRound, RoundSettles, AllSettle, Proper, StillAgrees;
      if RoundSettles(rounds[0]) {
        RoundsEndIdleIff(AfterRound(w, rounds[0]), rounds[1..]);
      } else {
        LeftoverStaysForever(AfterRound(w, rounds[0]), rounds[1..]);
      }
    }
  }

  /** Through any sequence of rounds, each starting ready, every register the MPU has cached is as the device has it,
      unless it was written, by function 16 or by a preset that was not delivered, since it was last read or preset. */
  lemma {:induction false} CoherentRounds(w: World, rounds: seq<Round>, k: nat)
    requires Idle(w) && forall i :: 0 <= i < |rounds| ==> Proper(rounds[i])
    requires rounds != [] ==> AllSettle(rounds[..|rounds| - 1])
    ensures var w' := AfterRounds(w, rounds);
      k in w'.mpu.cache.registers && k !in w'.stale ==>
        k < |w'.device.registers| && w'.mpu.cache.registers[k] == w'.device.registers[k]
    decreases rounds
  {
    if rounds == [] {
    } else {
      RoundIsIdleIff(w, rounds[0]);
      var rest := rounds[1..];
      if rest == [] {
        hide AfterRound;
      } else {
        assert rounds[..|rounds| - 1][0] == rounds[0];
        assert rest[..|rest| - 1] == rounds[..|rounds| - 1][1..];
        hide AfterRound, RoundSettles, AllSettle, Proper, Idle;
        CoherentRounds(AfterRound(w, rounds[0]), rest, k);
      }
    }
  }
}
