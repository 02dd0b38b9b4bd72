/** Commands queued for a Modbus bus and the matching of replies against them, past boards that do not answer. */
module BusList {
  import opened Results
  import opened Crc
  import opened ModbusCodec

  const ERROR_MASK: byte := 0x80

  // A board address or a function code as the key of a map.
  datatype Id = Id(code: byte)

  datatype CommandRecord = CommandRecord(buffer: seq<byte>, timing: nat)

  // What a registered callback does with a reply: it returns normally (true) or throws.
  datatype ResponseRecord = ResponseRecord(action: seq<byte> -> bool,
                                           errorAction: Option<(byte, byte) -> bool>)

  datatype ErrorRecord = ErrorRecord(lastFunction: byte, lastCode: byte, count: nat)

  // A callback that was run, with its arguments.
  datatype Call =
    | Action(func: byte, frame: seq<byte>)
    | ErrorAction(func: byte, address: byte, called: byte)

  datatype Outcome = Delivered | WrongResponse | ErrorResponse | NotFound | HandlerThrew | ShortFrame

  // The part of the bus list that parsing replies changes.
  datatype State = State(index: nat, errors: map<Id, ErrorRecord>, calls: seq<Call>)

  type Functions = map<Id, ResponseRecord>

  function Record(errors: map<Id, ErrorRecord>, address: byte, func: byte, code: byte): map<Id, ErrorRecord> {
    errors[Id(address) := ErrorRecord(func, code, ErrorCount(errors, address) + 1)]
  }

  function ErrorCount(errors: map<Id, ErrorRecord>, address: byte): nat {
    if Id(address) in errors then errors[Id(address)].count else 0
  }

  // A reply to the next command goes to the callback of its function code.
  function Dispatch(functions: Functions, s: State, frame: seq<byte>): (State, Outcome)
    requires |frame| >= 2
  {
    var address, called := frame[0], frame[1];
    var func := called & !ERROR_MASK;
    var next := s.(index := s.index + 1);
    if called & ERROR_MASK != 0 then
      if Id(func) !in functions then (s, NotFound)
      else
        match functions[Id(func)].errorAction
        case None => (next, ErrorResponse)
        case Some(action) =>
          var calls := s.calls + [ErrorAction(func, address, called)];
          if action(address, called) then (next.(calls := calls), Delivered)
          else (s.(calls := calls), HandlerThrew)
    else if Id(called) !in functions then (next, NotFound)
    else
      (next.(calls := s.calls + [Action(called, frame)]),
       if functions[Id(called)].action(frame) then Delivered else HandlerThrew)
  }

  // One call of parse.
  function ParseReply(commands: seq<CommandRecord>, functions: Functions, s: State, frame: seq<byte>)
      : (State, Outcome)
  {
    if |frame| < 4 then (s, ShortFrame)
    else if s.index >= |commands| || |commands[s.index].buffer| < 2 then (s, NotFound)
    else
      var expAddress, expFunc := commands[s.index].buffer[0], commands[s.index].buffer[1];
      if frame[0] != expAddress || frame[1] & !ERROR_MASK != expFunc then
        (s.(index := s.index + 1, errors := Record(s.errors, expAddress, frame[1], 0xFF)), WrongResponse)
      else Dispatch(functions, s, frame)
  }

  // ---- one reply, by what it is ----

  predicate Open(commands: seq<CommandRecord>, s: State) {
    s.index < |commands| && |commands[s.index].buffer| >= 2
  }

  // The reply has the address and, but for the error bit, the function of the next command.
  predicate ForNext(commands: seq<CommandRecord>, s: State, frame: seq<byte>)
    requires |frame| >= 4
  {
    var func := frame[1] & 0x7F;
    Open(commands, s) && frame[0] == commands[s.index].buffer[0] && func == commands[s.index].buffer[1]
  }

  predicate IsError(frame: seq<byte>)
    requires |frame| >= 4
  {
    frame[1] >= 0x80
  }

  predicate HasFunction(functions: Functions, frame: seq<byte>)
    requires |frame| >= 4
  {
    Id(frame[1] & 0x7F) in functions
  }

  predicate HasCallback(functions: Functions, frame: seq<byte>)
    requires |frame| >= 4
  {
    HasFunction(functions, frame) && (IsError(frame) ==> functions[Id(frame[1] & 0x7F)].errorAction.Some?)
  }

  predicate CallbackAccepts(functions: Functions, frame: seq<byte>)
    requires |frame| >= 4 && HasCallback(functions, frame)
  {
    var record := functions[Id(frame[1] & 0x7F)];
    if IsError(frame) then record.errorAction.value(frame[0], frame[1]) else record.action(frame)
  }

  lemma DispatchIs(functions: Functions, s: State, frame: seq<byte>)
    requires |frame| >= 4
    ensures var known, callback := HasFunction(functions, frame), HasCallback(functions, frame);
      var accepts := callback && CallbackAccepts(functions, frame);
      var (s', outcome) := Dispatch(functions, s, frame);
      && outcome == (if !known then NotFound else if !callback then ErrorResponse
                     else if accepts then Delivered else HandlerThrew)
      && s'.index == (if IsError(frame) && (!known || (callback && !accepts)) then s.index else s.index + 1)
      && s'.calls == (if callback
                      then s.calls + [if IsError(frame) then ErrorAction(frame[1] & 0x7F, frame[0], frame[1])
                                      else Action(frame[1], frame)]
                      else s.calls)
  {
  }

  lemma ParseIs(commands: seq<CommandRecord>, functions: Functions, s: State, frame: seq<byte>)
    requires |frame| >= 4 && Open(commands, s)
    ensures var (s', outcome) := ParseReply(commands, functions, s, frame);
      if ForNext(commands, s, frame) then (s', outcome) == Dispatch(functions, s, frame)
      else s'.index == s.index + 1 && s'.calls == s.calls && outcome == WrongResponse
  {
    hide Record, Dispatch;
  }

  /** What is thrown, if anything, in terms of the reply: the cases exclude each other. */
  lemma OutcomeIff(commands: seq<CommandRecord>, functions: Functions, s: State, frame: seq<byte>)
    ensures ParseReply(commands, functions, s, frame).1 == ShortFrame <==> |frame| < 4
    ensures |frame| >= 4 ==>
      var outcome := ParseReply(commands, functions, s, frame).1;
      var mine := ForNext(commands, s, frame);
      && (outcome == WrongResponse <==> Open(commands, s) && !mine)
      && (outcome == NotFound <==> !Open(commands, s) || (mine && !HasFunction(functions, frame)))
      && (outcome == ErrorResponse <==> mine && HasFunction(functions, frame) && !HasCallback(functions, frame))
      && (outcome == HandlerThrew <==>
            mine && HasCallback(functions, frame) && !CallbackAccepts(functions, frame))
      && (outcome == Delivered <==> mine && HasCallback(functions, frame) && CallbackAccepts(functions, frame))
  {
    if |frame| >= 4 && Open(commands, s) {
      ParseIs(commands, functions, s, frame);
      DispatchIs(functions, s, frame);
      hide ParseReply, Dispatch, CallbackAccepts, IsError;
    } else {
      hide Record, Dispatch;
    }
  }

  /** The index moves on by one, except for a reply that is short or comes with no command open, and for an error reply
      whose function is not known or whose callback throws. The callback that is run, if one is, is told once. */
  lemma ProgressIff(commands: seq<CommandRecord>, functions: Functions, s: State, frame: seq<byte>)
    ensures var s' := ParseReply(commands, functions, s, frame).0;
      if |frame| < 4 || !Open(commands, s) then s' == s
      else
        && s'.index == (if ForNext(commands, s, frame) && IsError(frame) &&
                           (!HasFunction(functions, frame) ||
                            (HasCallback(functions, frame) && !CallbackAccepts(functions, frame)))
                        then s.index else s.index + 1)
        && s'.calls == (if ForNext(commands, s, frame) && HasCallback(functions, frame)
                        then s.calls + [if IsError(frame) then ErrorAction(frame[1] & 0x7F, frame[0], frame[1])
                                        else Action(frame[1], frame)]
                        else s.calls)
  {
    if |frame| >= 4 && Open(commands, s) {
      ParseIs(commands, functions, s, frame);
      DispatchIs(functions, s, frame);
      hide ParseReply, Dispatch, CallbackAccepts, IsError;
    } else {
      hide Record, Dispatch;
    }
  }

  /** A reply for another command, and no other, is recorded: under the address of the command passed over, with the
      function of the reply, the code 0xFF, and one more than before. */
  lemma RecordedIff(commands: seq<CommandRecord>, functions: Functions, s: State, frame: seq<byte>)
    ensures var (s', outcome) := ParseReply(commands, functions, s, frame);
      if outcome != WrongResponse then s'.errors == s.errors
      else
        Open(commands, s) && |frame| >= 4 &&
        var id := Id(commands[s.index].buffer[0]);
        && s'.errors.Keys == s.errors.Keys + {id}
        && s'.errors[id] == ErrorRecord(frame[1], 0xFF, if id in s.errors then s.errors[id].count + 1 else 1)
        && forall other :: other in s.errors && other != id ==> s'.errors[other] == s.errors[other]
  {
  }

  // The retry loop around parse for one reply.
  function Retry(commands: seq<CommandRecord>, functions: Functions, s: State, frame: seq<byte>): (State, Outcome)
    decreases |commands| - s.index
  {
    var (s', outcome) := ParseReply(commands, functions, s, frame);
    if outcome == WrongResponse then Retry(commands, functions, s', frame) else (s', outcome)
  }

  // All replies in turn, up to the first that throws.
  function Replies(commands: seq<CommandRecord>, functions: Functions, s: State,
      frames: seq<seq<byte>>): (State, Outcome)
    decreases frames
  {
    if frames == [] then (s, Delivered)
    else
      var (s', outcome) := Retry(commands, functions, s, frames[0]);
      if outcome == Delivered then Replies(commands, functions, s', frames[1..]) else (s', outcome)
  }

  // ---- what the matching is for ----

  type Key = (byte, byte)

  predicate Commanded(commands: seq<CommandRecord>) {
    forall c :: c in commands ==> |c.buffer| >= 2
  }

  function KeyOf(frame: seq<byte>): Key
    requires |frame| >= 2
  {
    (frame[0], frame[1] & !ERROR_MASK)
  }

  function CommandKey(command: CommandRecord): Key
    requires |command.buffer| >= 2
  {
    (command.buffer[0], command.buffer[1])
  }

  // f embeds the replies' keys, in order, into the commands from position start on.
  ghost predicate Embedding(commands: seq<CommandRecord>, start: nat, frames: seq<seq<byte>>, f: seq<nat>)
    requires Commanded(commands)
  {
    && |f| == |frames|
    && (forall i :: 0 <= i < |f| ==> |frames[i]| >= 2 && start <= f[i] < |commands|)
    && (forall i :: 0 <= i < |f| ==> CommandKey(commands[f[i]]) == KeyOf(frames[i]))
    && (forall i, j :: 0 <= i < j < |f| ==> f[i] < f[j])
  }

  ghost predicate Embeds(commands: seq<CommandRecord>, start: nat, frames: seq<seq<byte>>)
    requires Commanded(commands)
  {
    exists f: seq<nat> :: Embedding(commands, start, frames, f)
  }

  // The registered callback takes the reply without throwing.
  predicate Accepted(functions: Functions, frame: seq<byte>)
    requires |frame| >= 2
  {
    var func := frame[1] & !ERROR_MASK;
    && Id(func) in functions
    && if frame[1] & ERROR_MASK == 0 then functions[Id(func)].action(frame)
       else match functions[Id(func)].errorAction
            case None => false
            case Some(action) => action(frame[0], frame[1])
  }

  predicate AllAccepted(functions: Functions, frames: seq<seq<byte>>) {
    forall f :: f in frames ==> |f| >= 4 && Accepted(functions, f)
  }

  function CallFor(frame: seq<byte>): Call
    requires |frame| >= 2
  {
    if frame[1] & ERROR_MASK != 0 then ErrorAction(frame[1] & !ERROR_MASK, frame[0], frame[1])
    else Action(frame[1], frame)
  }

  function CallsFor(frames: seq<seq<byte>>): (calls: seq<Call>)
    requires forall f :: f in frames ==> |f| >= 2
    ensures |calls| == |frames|
    ensures forall i :: 0 <= i < |calls| ==> calls[i] == CallFor(frames[i])
  {
    seq(|frames|, i requires 0 <= i < |frames| => CallFor(frames[i]))
  }

  // Commands in [from, end) to the address that no reply in f answered.
  function Unanswered(commands: seq<CommandRecord>, from: nat, end: nat, f: seq<nat>, address: byte): set<nat>
    requires Commanded(commands) && end <= |commands|
  {
    set i: nat | from <= i < end && i !in f && commands[i].buffer[0] == address
  }

  // ---- greedy matching ----

  function FirstMatch(commands: seq<CommandRecord>, from: nat, key: Key): (j: nat)
    requires Commanded(commands) && from <= |commands|
    ensures from <= j <= |commands|
    ensures j < |commands| ==> CommandKey(commands[j]) == key
    ensures forall i :: from <= i < j ==> CommandKey(commands[i]) != key
    decreases |commands| - from
  {
    if from == |commands| || CommandKey(commands[from]) == key then from
    else FirstMatch(commands, from + 1, key)
  }

  // The error records after the commands in [from, end) were passed over by one reply.
  function Skip(commands: seq<CommandRecord>, errors: map<Id, ErrorRecord>, from: nat, end: nat,
      called: byte): map<Id, ErrorRecord>
    requires Commanded(commands) && from <= end <= |commands|
    decreases end - from
  {
    if from == end then errors
    else Skip(commands, Record(errors, commands[from].buffer[0], called, 0xFF), from + 1, end, called)
  }

  lemma RecordCounts(errors: map<Id, ErrorRecord>, skipped: byte, func: byte, code: byte, address: byte)
    ensures ErrorCount(Record(errors, skipped, func, code), address) ==
            ErrorCount(errors, address) + if skipped == address then 1 else 0
  {
  }

  lemma UnansweredFirst(commands: seq<CommandRecord>, from: nat, end: nat, address: byte)
    requires Commanded(commands) && from < end <= |commands|
    ensures |Unanswered(commands, from, end, [], address)| ==
            |Unanswered(commands, from + 1, end, [], address)| + if commands[from].buffer[0] == address then 1 else 0
  {
    var all, rest := Unanswered(commands, from, end, [], address), Unanswered(commands, from + 1, end, [], address);
    if commands[from].buffer[0] == address {
      assert all == rest + {from} && from !in rest;
      hide Unanswered;
      assert |rest + {from}| == |rest| + 1;
    } else {
      assert all == rest;
      hide Unanswered;
    }
  }

  lemma {:induction false} SkipCounts(commands: seq<CommandRecord>, errors: map<Id, ErrorRecord>, from: nat,
      end: nat, called: byte, address: byte)
    requires Commanded(commands) && from <= end <= |commands|
    ensures ErrorCount(Skip(commands, errors, from, end, called), address) ==
            ErrorCount(errors, address) + |Unanswered(commands, from, end, [], address)|
    decreases end - from
  {
    hide Record, ErrorCount;
    if from == end {
      assert Unanswered(commands, from, end, [], address) == {};
    } else {
      RecordCounts(errors, commands[from].buffer[0], called, 0xFF, address);
      UnansweredFirst(commands, from, end, address);
      SkipCounts(commands, Record(errors, commands[from].buffer[0], called, 0xFF), from + 1, end, called, address);
    }
  }

  // The retry loop stops at the first command the reply belongs to, or at the end of the list.
  lemma {:induction false} RetryStopsAtFirstMatch(commands: seq<CommandRecord>, functions: Functions, s: State,
      frame: seq<byte>)
    requires Commanded(commands) && |frame| >= 4 && s.index <= |commands|
    ensures var j := FirstMatch(commands, s.index, KeyOf(frame));
            Retry(commands, functions, s, frame) ==
            ParseReply(commands, functions,
                       s.(index := j, errors := Skip(commands, s.errors, s.index, j, frame[1])), frame)
    decreases |commands| - s.index
  {
    if s.index < |commands| && CommandKey(commands[s.index]) != KeyOf(frame) {
      RetryStopsAtFirstMatch(commands, functions, ParseReply(commands, functions, s, frame).0, frame);
    }
  }

  lemma RetryDelivers(commands: seq<CommandRecord>, functions: Functions, s: State, frame: seq<byte>)
    requires Commanded(commands) && s.index <= |commands|
    ensures Retry(commands, functions, s, frame).1 == Delivered <==>
            && |frame| >= 4 && Accepted(functions, frame)
            && FirstMatch(commands, s.index, KeyOf(frame)) < |commands|
    ensures Retry(commands, functions, s, frame).1 == Delivered ==>
            var j := FirstMatch(commands, s.index, KeyOf(frame));
            Retry(commands, functions, s, frame).0 ==
            State(j + 1, Skip(commands, s.errors, s.index, j, frame[1]), s.calls + [CallFor(frame)])
    ensures Retry(commands, functions, s, frame).1 != WrongResponse
  {
    if |frame| >= 4 {
      RetryStopsAtFirstMatch(commands, functions, s, frame);
    }
  }

  // The commands the replies are matched with: for each reply the first one it belongs to.
  function Greedy(commands: seq<CommandRecord>, start: nat, frames: seq<seq<byte>>): (f: seq<nat>)
    requires Commanded(commands) && start <= |commands|
    ensures |f| <= |frames|
    ensures forall i :: 0 <= i < |f| ==> start <= f[i] < |commands|
    decreases frames
  {
    if frames == [] || |frames[0]| < 2 then []
    else
      var j := FirstMatch(commands, start, KeyOf(frames[0]));
      if j == |commands| then [] else [j] + Greedy(commands, j + 1, frames[1..])
  }

  lemma {:induction false} GreedyEmbeds(commands: seq<CommandRecord>, functions: Functions, s: State,
      frames: seq<seq<byte>>)
    requires Commanded(commands) && s.index <= |commands|
    requires Replies(commands, functions, s, frames).1 == Delivered
    ensures AllAccepted(functions, frames)
    ensures Embedding(commands, s.index, frames, Greedy(commands, s.index, frames))
    decreases frames
  {
    hide *;
    if frames == [] {
      NothingEmbeds(commands, functions, s.index);
    } else {
      FirstAccepted(commands, functions, s, frames);
      var j, s1 := FirstReply(commands, functions, s, frames);
      GreedyEmbeds(commands, functions, s1, frames[1..]);
      AllAcceptedCons(functions, frames);
      EmbeddingCons(commands, s.index, frames, j, Greedy(commands, j + 1, frames[1..]));
    }
  }

  lemma NothingEmbeds(commands: seq<CommandRecord>, functions: Functions, start: nat)
    requires Commanded(commands) && start <= |commands|
    ensures AllAccepted(functions, []) && Embedding(commands, start, [], Greedy(commands, start, []))
  {
  }

  lemma FirstAccepted(commands: seq<CommandRecord>, functions: Functions, s: State, frames: seq<seq<byte>>)
    requires Commanded(commands) && s.index <= |commands| && frames != []
    requires Replies(commands, functions, s, frames).1 == Delivered
    ensures |frames[0]| >= 4 && Accepted(functions, frames[0])
  {
    RetryDelivers(commands, functions, s, frames[0]);
    hide Retry, Accepted;
  }

  lemma AllAcceptedCons(functions: Functions, frames: seq<seq<byte>>)
    requires frames != [] && |frames[0]| >= 4 && Accepted(functions, frames[0])
    requires AllAccepted(functions, frames[1..])
    ensures AllAccepted(functions, frames)
  {
    hide Accepted;
    forall f | f in frames ensures |f| >= 4 && Accepted(functions, f) {
      assert f == frames[0] || f in frames[1..];
    }
  }

  lemma EmbeddingCons(commands: seq<CommandRecord>, start: nat, frames: seq<seq<byte>>, j: nat, rest: seq<nat>)
    requires Commanded(commands) && frames != [] && |frames[0]| >= 2 && start <= j < |commands|
    requires CommandKey(commands[j]) == KeyOf(frames[0])
    requires Embedding(commands, j + 1, frames[1..], rest)
    ensures Embedding(commands, start, frames, [j] + rest)
  {
    var f := [j] + rest;
    forall i | 0 <= i < |f|
      ensures |frames[i]| >= 2 && start <= f[i] < |commands| && CommandKey(commands[f[i]]) == KeyOf(frames[i])
    {
      if i > 0 {
        assert f[i] == rest[i - 1] && frames[i] == frames[1..][i - 1];
      }
    }
  }

  // No embedding matches any reply earlier than the greedy one.
  lemma {:induction false} GreedyIsLeftmost(commands: seq<CommandRecord>, start: nat, frames: seq<seq<byte>>,
      g: seq<nat>)
    requires Commanded(commands) && start <= |commands| && Embedding(commands, start, frames, g)
    ensures var f := Greedy(commands, start, frames);
            |f| == |g| && forall i :: 0 <= i < |f| ==> f[i] <= g[i]
    decreases frames
  {
    if frames == [] {
    } else {
      var j := FirstMatch(commands, start, KeyOf(frames[0]));
      assert j <= g[0];
      EmbeddingTail(commands, start, frames, g, j);
      GreedyIsLeftmost(commands, j + 1, frames[1..], g[1..]);
    }
  }

  lemma EmbeddingTail(commands: seq<CommandRecord>, start: nat, frames: seq<seq<byte>>, g: seq<nat>, j: nat)
    requires Commanded(commands) && Embedding(commands, start, frames, g) && frames != [] && j <= g[0]
    ensures Embedding(commands, j + 1, frames[1..], g[1..])
  {
  }

  // One delivered reply, then the rest.
  lemma FirstReply(commands: seq<CommandRecord>, functions: Functions, s: State, frames: seq<seq<byte>>)
      returns (j: nat, s1: State)
    requires Commanded(commands) && s.index <= |commands| && frames != []
    requires Replies(commands, functions, s, frames).1 == Delivered
    ensures |frames[0]| >= 4 && s.index <= j < |commands| && j == FirstMatch(commands, s.index, KeyOf(frames[0]))
    ensures s1 == State(j + 1, Skip(commands, s.errors, s.index, j, frames[0][1]), s.calls + [CallFor(frames[0])])
    ensures Replies(commands, functions, s, frames) == Replies(commands, functions, s1, frames[1..])
    ensures Greedy(commands, s.index, frames) == [j] + Greedy(commands, j + 1, frames[1..])
  {
    RetryDelivers(commands, functions, s, frames[0]);
    s1 := Retry(commands, functions, s, frames[0]).0;
    j := FirstMatch(commands, s.index, KeyOf(frames[0]));
  }

  // Each reply was handed over once, in order, and the list is read up to the last one's command.
  lemma {:induction false} RepliesCalls(commands: seq<CommandRecord>, functions: Functions, s: State,
      frames: seq<seq<byte>>)
    requires Commanded(commands) && s.index <= |commands|
    requires Replies(commands, functions, s, frames).1 == Delivered
    ensures forall f :: f in frames ==> |f| >= 2
    ensures var s' := Replies(commands, functions, s, frames).0;
            var f := Greedy(commands, s.index, frames);
            && s'.index == (if f == [] then s.index else f[|f| - 1] + 1)
            && s.index <= s'.index <= |commands|
            && s'.calls == s.calls + CallsFor(frames)
    decreases frames
  {
    hide *;
    if frames == [] {
      NoReplies(commands, functions, s);
    } else {
      var j, s1 := FirstReply(commands, functions, s, frames);
      RepliesCalls(commands, functions, s1, frames[1..]);
      CallsCons(frames);
      assert s.calls + [CallFor(frames[0])] + CallsFor(frames[1..]) == s.calls + CallsFor(frames);
    }
  }

  lemma NoReplies(commands: seq<CommandRecord>, functions: Functions, s: State)
    requires Commanded(commands) && s.index <= |commands|
    ensures Replies(commands, functions, s, []) == (s, Delivered) && Greedy(commands, s.index, []) == []
    ensures s.calls + CallsFor([]) == s.calls
  {
  }

  lemma CallsCons(frames: seq<seq<byte>>)
    requires frames != [] && |frames[0]| >= 2 && forall f :: f in frames[1..] ==> |f| >= 2
    ensures forall f :: f in frames ==> |f| >= 2
    ensures CallsFor(frames) == [CallFor(frames[0])] + CallsFor(frames[1..])
  {
    hide CallFor;
    assert frames == [frames[0]] + frames[1..];
  }

  // Each command passed over added exactly one error record to its address.
  lemma {:induction false} RepliesErrors(commands: seq<CommandRecord>, functions: Functions, s: State,
      frames: seq<seq<byte>>, address: byte)
    requires Commanded(commands) && s.index <= |commands|
    requires Replies(commands, functions, s, frames).1 == Delivered
    ensures var s' := Replies(commands, functions, s, frames).0;
            && s.index <= s'.index <= |commands|
            && ErrorCount(s'.errors, address) == ErrorCount(s.errors, address) +
               |Unanswered(commands, s.index, s'.index, Greedy(commands, s.index, frames), address)|
    decreases frames
  {
    hide Retry, ParseReply, Skip, ErrorCount;
    if frames == [] {
      assert Unanswered(commands, s.index, s.index, [], address) == {};
    } else {
      var s' := Replies(commands, functions, s, frames).0;
      var j, s1 := FirstReply(commands, functions, s, frames);
      RepliesErrors(commands, functions, s1, frames[1..], address);
      SkipCounts(commands, s.errors, s.index, j, frames[0][1], address);
      UnansweredSplit(commands, s.index, j, s'.index, Greedy(commands, j + 1, frames[1..]), address);
    }
  }

  lemma UnansweredSplit(commands: seq<CommandRecord>, from: nat, j: nat, end: nat, rest: seq<nat>, address: byte)
    requires Commanded(commands) && from <= j < end <= |commands|
    requires forall i :: i in rest ==> i > j
    ensures |Unanswered(commands, from, end, [j] + rest, address)| ==
            |Unanswered(commands, from, j, [], address)| + |Unanswered(commands, j + 1, end, rest, address)|
  {
    var a, b := Unanswered(commands, from, j, [], address), Unanswered(commands, j + 1, end, rest, address);
    assert Unanswered(commands, from, end, [j] + rest, address) == a + b;
    assert a !! b;
  }

  lemma {:induction false} RepliesComplete(commands: seq<CommandRecord>, functions: Functions, s: State,
      frames: seq<seq<byte>>, g: seq<nat>)
    requires Commanded(commands) && s.index <= |commands|
    requires AllAccepted(functions, frames) && Embedding(commands, s.index, frames, g)
    ensures Replies(commands, functions, s, frames).1 == Delivered
    decreases frames
  {
    if frames == [] {
    } else {
      RetryDelivers(commands, functions, s, frames[0]);
      var s1 := Retry(commands, functions, s, frames[0]).0;
      EmbeddingTail(commands, s.index, frames, g, FirstMatch(commands, s.index, KeyOf(frames[0])));
      RepliesComplete(commands, functions, s1, frames[1..], g[1..]);
    }
  }

  // Every reply is delivered exactly when its callback takes it and the replies' keys form a
  // subsequence of the commanded ones.
  lemma AllDeliveredIff(commands: seq<CommandRecord>, functions: Functions, s: State, frames: seq<seq<byte>>)
    requires Commanded(commands) && s.index <= |commands|
    ensures Replies(commands, functions, s, frames).1 == Delivered <==>
            AllAccepted(functions, frames) && Embeds(commands, s.index, frames)
  {
    if Replies(commands, functions, s, frames).1 == Delivered {
      GreedyEmbeds(commands, functions, s, frames);
    }
    if AllAccepted(functions, frames) && Embeds(commands, s.index, frames) {
      var g :| Embedding(commands, s.index, frames, g);
      RepliesComplete(commands, functions, s, frames, g);
    }
  }

  // When every callback takes its reply, the only way to fail is to run out of commands.
  lemma {:induction false} OnlyFailureIsRunningOut(commands: seq<CommandRecord>, functions: Functions,
      s: State, frames: seq<seq<byte>>)
    requires Commanded(commands) && s.index <= |commands| && AllAccepted(functions, frames)
    ensures Replies(commands, functions, s, frames).1
         == if Embeds(commands, s.index, frames) then Delivered else NotFound
    decreases frames
  {
    AllDeliveredIff(commands, functions, s, frames);
    FailureIsNotFound(commands, functions, s, frames);
  }

  lemma {:induction false} FailureIsNotFound(commands: seq<CommandRecord>, functions: Functions, s: State,
      frames: seq<seq<byte>>)
    requires Commanded(commands) && s.index <= |commands| && AllAccepted(functions, frames)
    ensures Replies(commands, functions, s, frames).1 in {Delivered, NotFound}
    decreases frames
  {
    if frames == [] {
    } else {
      RetryStopsAtFirstMatch(commands, functions, s, frames[0]);
      RetryDelivers(commands, functions, s, frames[0]);
      var (s1, outcome) := Retry(commands, functions, s, frames[0]);
      if outcome == Delivered {
        FailureIsNotFound(commands, functions, s1, frames[1..]);
      }
    }
  }

  // ---- the class ----

  class BusList {
    var commands: seq<CommandRecord>
    var functions: Functions
    var errors: map<Id, ErrorRecord>
    var parsedIndex: nat
    var calls: seq<Call>  // the callbacks run so far

    ghost function Progress(): State
      reads this
    {
      State(parsedIndex, errors, calls)
    }

    constructor ()
      ensures commands == [] && functions == map[] && Progress() == State(0, map[], [])
    {
      commands, functions, errors, parsedIndex, calls := [], map[], map[], 0, [];
    }

    method NextMessage()
      modifies this`parsedIndex
      ensures parsedIndex == 0
    {
      parsedIndex := 0;
    }

    method CallFunction(address: byte, func: byte, timing: nat, params: seq<Value>)
      modifies this`commands
      ensures commands == old(commands) + [CommandRecord(FrameOf(address, func, params), timing)]
      ensures old(Commanded(commands)) ==> Commanded(commands)
    {
      var buffer := new Buffer.Call(address, func, params);
      commands := commands + [CommandRecord(buffer.bytes, timing)];
    }

    // A second registration for the same function code is ignored.
    method AddResponse(func: byte, action: seq<byte> -> bool, errorAction: Option<(byte, byte) -> bool>)
      modifies this`functions
      ensures functions == if Id(func) in old(functions) then old(functions)
                           else old(functions)[Id(func) := ResponseRecord(action, errorAction)]
    {
      if Id(func) !in functions {
        functions := functions[Id(func) := ResponseRecord(action, errorAction)];
      }
    }

    method SetErrorResponse(func: byte, errorAction: Option<(byte, byte) -> bool>) returns (outcome: Outcome)
      modifies this`functions
      ensures if Id(func) in old(functions)
              then outcome == Delivered &&
                   functions == old(functions)[Id(func) := old(functions)[Id(func)].(errorAction := errorAction)]
              else outcome == NotFound && functions == old(functions)
    {
      if Id(func) !in functions {
        return NotFound;
      }
      functions := functions[Id(func) := functions[Id(func)].(errorAction := errorAction)];
      return Delivered;
    }

    method MissingResponse()
      modifies this`parsedIndex
      ensures parsedIndex == old(parsedIndex) + 1
    {
      parsedIndex := parsedIndex + 1;
    }

    method Parse(frame: seq<byte>) returns (outcome: Outcome)
      modifies this`parsedIndex, this`errors, this`calls
      ensures (Progress(), outcome) == ParseReply(commands, functions, old(Progress()), frame)
    {
      if |frame| < 4 {
        return ShortFrame;
      }
      if parsedIndex >= |commands| || |commands[parsedIndex].buffer| < 2 {
        return NotFound;
      }
      var expAddress, expFunc := commands[parsedIndex].buffer[0], commands[parsedIndex].buffer[1];
      if frame[0] != expAddress || frame[1] & !ERROR_MASK != expFunc {
        parsedIndex := parsedIndex + 1;
        errors := Record(errors, expAddress, frame[1], 0xFF);
        return WrongResponse;
      }
      outcome := RunCallback(frame);
    }

    method RunCallback(frame: seq<byte>) returns (outcome: Outcome)
      requires |frame| >= 2
      modifies this`parsedIndex, this`calls
      ensures (Progress(), outcome) == Dispatch(functions, old(Progress()), frame)
    {
      var address, called := frame[0], frame[1];
      if called & ERROR_MASK != 0 {
        var func := called & !ERROR_MASK;
        if Id(func) !in functions {
          return NotFound;
        }
        match functions[Id(func)].errorAction
        case Some(action) =>
          calls := calls + [ErrorAction(func, address, called)];
          if !action(address, called) {
            return HandlerThrew;
          }
          parsedIndex := parsedIndex + 1;
        case None =>
          parsedIndex := parsedIndex + 1;
          return ErrorResponse;
      } else {
        parsedIndex := parsedIndex + 1;
        if Id(called) !in functions {
          return NotFound;
        }
        calls := calls + [Action(called, frame)];
        if !functions[Id(called)].action(frame) {
          return HandlerThrew;
        }
      }
      return Delivered;
    }
  }
}
