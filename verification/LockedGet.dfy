/** One SendGetRequest against the locked server among any other callers: the client's two loops and
    the two channels of GetStream around one get handler of SpinLock. */
module LockedGet {
  import opened Primitives
  import opened KeyValue
  import SpinLock
  import GetStream

  /** Handler h of the server answers the request of this stream. */
  datatype System = System(server: SpinLock.Server, h: nat, stream: GetStream.Stream)

  datatype Action =
    | Others(action: SpinLock.Action)
    | Client(move: GetStream.Action)
    | Acquire  // test_and_set, which spins while the lock is taken
    | Read     // the handler takes the next request off the channel
    | Answer   // looks its key up and replies
    | Release  // no request is left and none will come: the handler clears the lock...
    | Finish   // ... and returns

  predicate TouchesOther(action: SpinLock.Action, h: nat) {
    action.Invoke? || action.h != h
  }

  predicate OfClient(action: GetStream.Action) {
    action.WriterWrite? || action.WriterDone? || action.ClientRead? || action.ClientFinish?
  }

  /** The server answers from its data as it then is. */
  function Current(s: System): GetStream.Stream {
    s.stream.(data := s.server.data)
  }

  predicate Enabled(s: System, a: Action) {
    match a
    case Others(action) => TouchesOther(action, s.h) && SpinLock.Enabled(s.server, action)
    case Client(action) => OfClient(action) && GetStream.Enabled(s.stream, action)
    case Acquire => SpinLock.Enabled(s.server, SpinLock.TestAndSet(s.h))
    case Read =>
      && GetStream.Enabled(s.stream, GetStream.ServerRead)
      && SpinLock.Enabled(s.server, SpinLock.StreamRead(s.h, s.stream.requests[0]))
    case Answer =>
      && GetStream.Enabled(s.stream, GetStream.ServerWrite)
      && SpinLock.Enabled(s.server, SpinLock.StreamWrite(s.h))
    case Release =>
      && GetStream.Enabled(s.stream, GetStream.ServerFinish)
      && SpinLock.Enabled(s.server, SpinLock.Clear(s.h))
    case Finish =>
      && GetStream.Enabled(s.stream, GetStream.ServerFinish)
      && s.h < |s.server.handlers| && s.server.handlers[s.h].phase.Returned?
  }

  /** What a step does to the server; None when it leaves the server alone. */
  function ServerStep(s: System, a: Action): Option<SpinLock.Action>
    requires Enabled(s, a)
  {
    match a
    case Others(action) => Some(action)
    case Acquire => Some(SpinLock.TestAndSet(s.h))
    case Read => Some(SpinLock.StreamRead(s.h, s.stream.requests[0]))
    case Answer => Some(SpinLock.StreamWrite(s.h))
    case Release => Some(SpinLock.Clear(s.h))
    case _ => None
  }

  function ServerAfter(s: System, a: Action): SpinLock.Server
    requires Enabled(s, a)
  {
    match ServerStep(s, a)
    case None => s.server
    case Some(action) => SpinLock.Apply(s.server, action)
  }

  function StreamAfter(s: System, a: Action): GetStream.Stream
    requires Enabled(s, a)
  {
    match a
    case Client(action) => GetStream.Apply(s.stream, action)
    case Read => GetStream.Apply(s.stream, GetStream.ServerRead)
    case Answer => GetStream.Apply(Current(s), GetStream.ServerWrite)
    case Finish => GetStream.Apply(s.stream, GetStream.ServerFinish)
    case _ => s.stream
  }

  function Apply(s: System, a: Action): System
    requires Enabled(s, a)
  {
    System(ServerAfter(s, a), s.h, StreamAfter(s, a))
  }

  predicate ValidRun(s: System, actions: seq<Action>)
    decreases |actions|
  {
    actions != [] ==> Enabled(s, actions[0]) && ValidRun(Apply(s, actions[0]), actions[1..])
  }

  function RunSystem(s: System, actions: seq<Action>): System
    requires ValidRun(s, actions)
    decreases |actions|
  {
    if actions == [] then s else RunSystem(Apply(s, actions[0]), actions[1..])
  }

  /** The request as it is made, whatever the server is doing at the time. */
  function Open(server: SpinLock.Server, keys: seq<Bytes>, capacity: nat, replyValues: seq<Bytes>): System {
    System(SpinLock.Apply(server, SpinLock.Invoke(SpinLock.GetCall)), |server.handlers|,
           GetStream.Open(keys, server.data, capacity, replyValues))
  }

  // ---------- the invariant ----------

  /** The channels hold what has been answered: `values` for `taken`, the first of the keys, with
      `held` being answered. */
  ghost predicate Answered(t: GetStream.Stream, initial: seq<Bytes>, taken: seq<Bytes>, values: seq<Bytes>,
                           held: Option<Bytes>)
  {
    && t.sent <= |t.keys|
    && (t.writesDone ==> t.sent == |t.keys|)
    && t.held == held
    && t.replyValues + t.replies == initial + values
    && taken + GetStream.Unanswered(t) == t.keys
    && (t.readerDone ==> t.serverDone && t.replies == [])
  }

  /** The handler's phase tells how far the stream has got. */
  ghost predicate PhaseOk(p: SpinLock.Phase, t: GetStream.Stream, initial: seq<Bytes>) {
    match p
    case Spinning => Answered(t, initial, [], [], None) && !t.serverDone
    case Streaming(keys, values, pending) => Answered(t, initial, keys, values, pending) && !t.serverDone
    case Returned(Values(keys, values)) =>
      Answered(t, initial, keys, values, None) && t.writesDone && t.requests == []
    case _ => false
  }

  ghost predicate HandlerOk(server: SpinLock.Server, h: nat, t: GetStream.Stream, initial: seq<Bytes>) {
    && h < |server.handlers| && server.handlers[h].call == SpinLock.GetCall
    && PhaseOk(server.handlers[h].phase, t, initial)
  }

  ghost predicate SystemInv(s: System, start: Store, initial: seq<Bytes>) {
    SpinLock.LockInv(s.server, start) && HandlerOk(s.server, s.h, s.stream, initial)
  }

  lemma OpenInv(server: SpinLock.Server, start: Store, keys: seq<Bytes>, capacity: nat, replyValues: seq<Bytes>)
    requires SpinLock.LockInv(server, start)
    ensures SystemInv(Open(server, keys, capacity, replyValues), start, replyValues)
  {
    SpinLock.StepKeepsLockInv(server, start, SpinLock.Invoke(SpinLock.GetCall));
    var s := Open(server, keys, capacity, replyValues);
    assert GetStream.Unanswered(s.stream) == keys;
    assert Answered(s.stream, replyValues, [], [], None);
  }

  /** A step that is not of handler h leaves handler h alone. */
  lemma OthersKeepHandler(server: SpinLock.Server, action: SpinLock.Action, h: nat)
    requires SpinLock.Enabled(server, action) && TouchesOther(action, h) && h < |server.handlers|
    ensures h < |SpinLock.Apply(server, action).handlers|
    ensures SpinLock.Apply(server, action).handlers[h] == server.handlers[h]
  {
  }

  /** The client's own steps move keys and values along and change nothing in what is answered. */
  lemma ClientKeepsAnswered(t: GetStream.Stream, action: GetStream.Action, initial: seq<Bytes>,
                            taken: seq<Bytes>, values: seq<Bytes>, held: Option<Bytes>)
    requires Answered(t, initial, taken, values, held) && GetStream.Enabled(t, action) && OfClient(action)
    ensures Answered(GetStream.Apply(t, action), initial, taken, values, held)
  {
    GetStream.UnansweredAfter(t, action);
    if action.ClientRead? {
      assert t.replies == [t.replies[0]] + t.replies[1..];
      Regroup(t.replyValues, [t.replies[0]], t.replies[1..]);
    }
  }

  lemma ReadKeepsAnswered(t: GetStream.Stream, initial: seq<Bytes>, taken: seq<Bytes>, values: seq<Bytes>)
    requires Answered(t, initial, taken, values, None) && GetStream.Enabled(t, GetStream.ServerRead)
    ensures Answered(GetStream.Apply(t, GetStream.ServerRead), initial, taken, values, Some(t.requests[0]))
  {
    GetStream.UnansweredAfter(t, GetStream.ServerRead);
  }

  lemma AnswerKeepsAnswered(
    t: GetStream.Stream, initial: seq<Bytes>, taken: seq<Bytes>, values: seq<Bytes>, key: Bytes)
    requires Answered(t, initial, taken, values, Some(key)) && !t.serverDone
    requires GetStream.Enabled(t, GetStream.ServerWrite)
    ensures Answered(GetStream.Apply(t, GetStream.ServerWrite), initial,
                     taken + [key], values + [Lookup(t.data, key)], None)
  {
    var t' := GetStream.Apply(t, GetStream.ServerWrite);
    GetStream.UnansweredAfter(t, GetStream.ServerWrite);
    Regroup(t.replyValues, t.replies, [Lookup(t.data, key)]);
    Regroup(initial, values, [Lookup(t.data, key)]);
    Regroup(taken, [key], GetStream.Unanswered(t'));
  }

  lemma AcquireKeepsHandlerOk(server: SpinLock.Server, h: nat, t: GetStream.Stream, initial: seq<Bytes>)
    requires HandlerOk(server, h, t, initial) && SpinLock.Enabled(server, SpinLock.TestAndSet(h))
    ensures HandlerOk(SpinLock.Apply(server, SpinLock.TestAndSet(h)), h, t, initial)
  {
  }

  lemma ReadKeepsHandlerOk(server: SpinLock.Server, h: nat, t: GetStream.Stream, initial: seq<Bytes>)
    requires HandlerOk(server, h, t, initial) && GetStream.Enabled(t, GetStream.ServerRead)
    requires SpinLock.Enabled(server, SpinLock.StreamRead(h, t.requests[0]))
    ensures HandlerOk(SpinLock.Apply(server, SpinLock.StreamRead(h, t.requests[0])), h,
                      GetStream.Apply(t, GetStream.ServerRead), initial)
  {
    ReadKeepsAnswered(t, initial, server.handlers[h].phase.keys, server.handlers[h].phase.values);
  }

  lemma AnswerKeepsHandlerOk(server: SpinLock.Server, h: nat, t: GetStream.Stream, initial: seq<Bytes>)
    requires HandlerOk(server, h, t, initial) && t.data == server.data
    requires GetStream.Enabled(t, GetStream.ServerWrite) && SpinLock.Enabled(server, SpinLock.StreamWrite(h))
    ensures HandlerOk(SpinLock.Apply(server, SpinLock.StreamWrite(h)), h,
                      GetStream.Apply(t, GetStream.ServerWrite), initial)
  {
    var p := server.handlers[h].phase;
    AnswerKeepsAnswered(t, initial, p.keys, p.values, p.pending.value);
  }

  lemma ReleaseKeepsHandlerOk(server: SpinLock.Server, h: nat, t: GetStream.Stream, initial: seq<Bytes>)
    requires HandlerOk(server, h, t, initial)
    requires GetStream.Enabled(t, GetStream.ServerFinish) && SpinLock.Enabled(server, SpinLock.Clear(h))
    ensures HandlerOk(SpinLock.Apply(server, SpinLock.Clear(h)), h, t, initial)
  {
  }

  lemma FinishKeepsHandlerOk(server: SpinLock.Server, h: nat, t: GetStream.Stream, initial: seq<Bytes>)
    requires HandlerOk(server, h, t, initial)
    requires GetStream.Enabled(t, GetStream.ServerFinish) && server.handlers[h].phase.Returned?
    ensures HandlerOk(server, h, GetStream.Apply(t, GetStream.ServerFinish), initial)
  {
  }

  /** What a step makes of the handler's phase and of the stream. */
  lemma StepKeepsHandlerOk(s: System, a: Action, initial: seq<Bytes>)
    requires Enabled(s, a) && HandlerOk(s.server, s.h, s.stream, initial)
    ensures HandlerOk(ServerAfter(s, a), s.h, StreamAfter(s, a), initial)
  {
    match a
    case Others(action) => OthersKeepHandler(s.server, action, s.h);
    case Client(action) => ClientKeepsPhaseOk(s.server.handlers[s.h].phase, s.stream, action, initial);
    case Acquire => AcquireKeepsHandlerOk(s.server, s.h, s.stream, initial);
    case Read => ReadKeepsHandlerOk(s.server, s.h, s.stream, initial);
    case Answer =>
      CurrentOk(s, initial);
      AnswerKeepsHandlerOk(s.server, s.h, Current(s), initial);
    case Release => ReleaseKeepsHandlerOk(s.server, s.h, s.stream, initial);
    case Finish => FinishKeepsHandlerOk(s.server, s.h, s.stream, initial);
  }

  lemma CurrentOk(s: System, initial: seq<Bytes>)
    requires HandlerOk(s.server, s.h, s.stream, initial)
    ensures HandlerOk(s.server, s.h, Current(s), initial)
  {
  }

  lemma StepKeepsKeys(s: System, a: Action)
    requires Enabled(s, a)
    ensures Apply(s, a).stream.keys == s.stream.keys && Apply(s, a).h == s.h
  {
  }

  lemma ClientKeepsPhaseOk(p: SpinLock.Phase, t: GetStream.Stream, action: GetStream.Action, initial: seq<Bytes>)
    requires PhaseOk(p, t, initial) && GetStream.Enabled(t, action) && OfClient(action)
    ensures PhaseOk(p, GetStream.Apply(t, action), initial)
  {
    match p
    case Spinning => ClientKeepsAnswered(t, action, initial, [], [], None);
    case Streaming(keys, values, pending) => ClientKeepsAnswered(t, action, initial, keys, values, pending);
    case Returned(Values(keys, values)) => ClientKeepsAnswered(t, action, initial, keys, values, None);
  }

  lemma StepKeepsSystemInv(s: System, start: Store, initial: seq<Bytes>, a: Action)
    requires SystemInv(s, start, initial) && Enabled(s, a)
    ensures SystemInv(Apply(s, a), start, initial)
    ensures Apply(s, a).stream.keys == s.stream.keys && Apply(s, a).h == s.h
  {
    ServerKeepsLockInv(s, start, a);
    StepKeepsHandlerOk(s, a, initial);
    StepKeepsKeys(s, a);
  }

  lemma ServerKeepsLockInv(s: System, start: Store, a: Action)
    requires SpinLock.LockInv(s.server, start) && Enabled(s, a)
    ensures SpinLock.LockInv(ServerAfter(s, a), start)
  {
    match ServerStep(s, a)
    case None =>
    case Some(action) => SpinLock.StepKeepsLockInv(s.server, start, action);
  }

  lemma {:induction false} RunKeepsSystemInv(s: System, start: Store, initial: seq<Bytes>, actions: seq<Action>)
    requires SystemInv(s, start, initial) && ValidRun(s, actions)
    ensures SystemInv(RunSystem(s, actions), start, initial)
    ensures RunSystem(s, actions).stream.keys == s.stream.keys && RunSystem(s, actions).h == s.h
    decreases |actions|
  {
    if actions != [] {
      StepKeepsSystemInv(s, start, initial, actions[0]);
      RunKeepsSystemInv(Apply(s, actions[0]), start, initial, actions[1..]);
    }
  }

  // ---------- what a get request returns ----------

  /** The run of the server within a run of the system. */
  function ServerActions(s: System, actions: seq<Action>): seq<SpinLock.Action>
    requires ValidRun(s, actions)
    decreases |actions|
  {
    if actions == [] then []
    else
      (match ServerStep(s, actions[0])
       case None => []
       case Some(action) => [action])
      + ServerActions(Apply(s, actions[0]), actions[1..])
  }

  lemma {:induction false} ServerRuns(s: System, actions: seq<Action>)
    requires ValidRun(s, actions)
    ensures SpinLock.ValidRun(s.server, ServerActions(s, actions))
    ensures SpinLock.RunServer(s.server, ServerActions(s, actions)) == RunSystem(s, actions).server
    decreases |actions|
  {
    if actions != [] {
      ServerRuns(Apply(s, actions[0]), actions[1..]);
      var rest := ServerActions(Apply(s, actions[0]), actions[1..]);
      match ServerStep(s, actions[0])
      case None =>
        assert [] + rest == rest;
      case Some(action) =>
        SpinLock.RunOne(s.server, action);
        SpinLock.RunServerConcat(s.server, [action], rest);
    }
  }

  /** All that the server does from the start: `earlier`, this request's invocation, and what the run of
      the system has it do. */
  function WholeRun(earlier: seq<SpinLock.Action>, open: System, actions: seq<Action>): seq<SpinLock.Action>
    requires ValidRun(open, actions)
  {
    earlier + ([SpinLock.Invoke(SpinLock.GetCall)] + ServerActions(open, actions))
  }

  lemma WholeRunRuns(start: Store, earlier: seq<SpinLock.Action>, open: System, actions: seq<Action>)
    requires SpinLock.ValidRun(SpinLock.Start(start), earlier) && ValidRun(open, actions)
    requires open.server ==
             SpinLock.Apply(SpinLock.RunServer(SpinLock.Start(start), earlier), SpinLock.Invoke(SpinLock.GetCall))
    ensures SpinLock.ValidRun(SpinLock.Start(start), WholeRun(earlier, open, actions))
    ensures SpinLock.RunServer(SpinLock.Start(start), WholeRun(earlier, open, actions)) ==
            RunSystem(open, actions).server
  {
    var server := SpinLock.RunServer(SpinLock.Start(start), earlier);
    ServerRuns(open, actions);
    SpinLock.RunOne(server, SpinLock.Invoke(SpinLock.GetCall));
    SpinLock.RunServerConcat(server, [SpinLock.Invoke(SpinLock.GetCall)], ServerActions(open, actions));
    SpinLock.RunServerConcat(SpinLock.Start(start), earlier,
                             [SpinLock.Invoke(SpinLock.GetCall)] + ServerActions(open, actions));
  }

  /** What the client has in the end: what it had, and the lookups of its keys in the store that the
      invoked calls before this one in the order of lock acquisition have left. */
  ghost predicate GotLookupsAtItsPlace(start: Store, s: System, whole: seq<SpinLock.Action>, initial: seq<Bytes>) {
    && (forall i :: 0 <= i < |s.server.order| ==> s.server.order[i] < |SpinLock.Invoked(whole)|)
    && exists i :: 0 <= i < |s.server.order| && s.server.order[i] == s.h
         && var before := SpinLock.InOrder(SpinLock.Invoked(whole), s.server.order, i);
            s.stream.replyValues == initial + Lookups(SpinLock.Replay(start, before), s.stream.keys)
  }

  /** A request that completes, made at any time and among any other callers, gets that. */
  lemma CompletedAtItsPlace(start: Store, earlier: seq<SpinLock.Action>, keys: seq<Bytes>, capacity: nat,
                            replyValues: seq<Bytes>, actions: seq<Action>)
    requires SpinLock.ValidRun(SpinLock.Start(start), earlier)
    requires ValidRun(Open(SpinLock.RunServer(SpinLock.Start(start), earlier), keys, capacity, replyValues), actions)
    requires GetStream.Completed(
      RunSystem(Open(SpinLock.RunServer(SpinLock.Start(start), earlier), keys, capacity, replyValues), actions).stream)
    ensures var open := Open(SpinLock.RunServer(SpinLock.Start(start), earlier), keys, capacity, replyValues);
            var s := RunSystem(open, actions);
            && s.stream.keys == keys
            && SpinLock.ValidRun(SpinLock.Start(start), WholeRun(earlier, open, actions))
            && SpinLock.RunServer(SpinLock.Start(start), WholeRun(earlier, open, actions)) == s.server
            && GotLookupsAtItsPlace(start, s, WholeRun(earlier, open, actions), replyValues)
  {
    var server := SpinLock.RunServer(SpinLock.Start(start), earlier);
    var open := Open(server, keys, capacity, replyValues);
    var s := RunSystem(open, actions);
    SpinLock.Reachable(start, earlier);
    OpenInv(server, start, keys, capacity, replyValues);
    RunKeepsSystemInv(open, start, replyValues, actions);
    WholeRunRuns(start, earlier, open, actions);
    SpinLock.Reachable(start, WholeRun(earlier, open, actions));
    var i := ReturnedAnswer(s, start, replyValues);
    SpinLock.InOrderIsCallsBefore(s.server, i);
  }

  lemma ReturnedAnswer(s: System, start: Store, initial: seq<Bytes>) returns (i: nat)
    requires SystemInv(s, start, initial) && GetStream.Completed(s.stream)
    ensures i < |s.server.order| && s.server.order[i] == s.h
    ensures s.stream.replyValues ==
            initial + Lookups(SpinLock.Replay(start, SpinLock.CallsBefore(s.server, i)), s.stream.keys)
  {
    assert s.h in s.server.order;
    i :| 0 <= i < |s.server.order| && s.server.order[i] == s.h;
    assert SpinLock.PlaceOk(s.server, start, i);
    var r := s.server.handlers[s.h].phase.result;
    assert GetStream.Unanswered(s.stream) == [];
    assert r.keys == s.stream.keys;
    assert s.stream.replyValues + [] == s.stream.replyValues;
  }

  /** A step of this request, other than one more try for the lock. */
  ghost predicate Progress(s: System, a: Action) {
    Enabled(s, a) && !a.Others? && !a.Acquire?
  }

  /** With channels that hold something, a request that has not completed can go on, or all that it
      waits for is the lock. */
  lemma OnlyTheLockHoldsItUp(s: System, start: Store, initial: seq<Bytes>)
    requires SystemInv(s, start, initial) && s.stream.capacity > 0 && !GetStream.Completed(s.stream)
    ensures (exists a :: Progress(s, a)) || s.server.handlers[s.h].phase.Spinning?
  {
    if !s.server.handlers[s.h].phase.Spinning? {
      if s.stream.serverDone {
        var a := if s.stream.replies != [] then Client(GetStream.ClientRead) else Client(GetStream.ClientFinish);
        assert Progress(s, a);
      } else {
        var a := ServedProgress(s, initial);
      }
    }
  }

  lemma ServedProgress(s: System, initial: seq<Bytes>) returns (a: Action)
    requires HandlerOk(s.server, s.h, s.stream, initial) && s.stream.capacity > 0 && !s.stream.serverDone
    requires !s.server.handlers[s.h].phase.Spinning?
    ensures Progress(s, a)
  {
    var t := s.stream;
    a :=
      if t.replies != [] then Client(GetStream.ClientRead)
      else if t.held.Some? then Answer
      else if t.requests != [] then Read
      else if t.sent < |t.keys| then Client(GetStream.WriterWrite)
      else if !t.writesDone then Client(GetStream.WriterDone)
      else if s.server.handlers[s.h].phase.Streaming? then Release
      else Finish;
  }

  // ---------- it can complete ----------

  /** The steps that this request has still to take. */
  function Remaining(s: System): nat
    requires s.h < |s.server.handlers| && s.stream.sent <= |s.stream.keys|
  {
    GetStream.StepsLeft(s.stream)
    + (match s.server.handlers[s.h].phase case Spinning => 2 case Streaming(_, _, _) => 1 case _ => 0)
  }

  lemma SystemInvSent(s: System, start: Store, initial: seq<Bytes>)
    requires SystemInv(s, start, initial)
    ensures s.h < |s.server.handlers| && s.stream.sent <= |s.stream.keys|
  {
  }

  lemma StreamCountsDown(t: GetStream.Stream, action: GetStream.Action)
    requires GetStream.Enabled(t, action) && t.sent <= |t.keys|
    ensures GetStream.Apply(t, action).sent <= |t.keys|
    ensures GetStream.StepsLeft(GetStream.Apply(t, action)) == GetStream.StepsLeft(t) - 1
    ensures GetStream.Apply(t, action).capacity == t.capacity
  {
  }

  lemma ProgressCountsDown(s: System, start: Store, initial: seq<Bytes>, a: Action)
    requires SystemInv(s, start, initial) && Progress(s, a)
    ensures SystemInv(Apply(s, a), start, initial) && Apply(s, a).stream.capacity == s.stream.capacity
    ensures s.h < |s.server.handlers| && s.stream.sent <= |s.stream.keys|
    ensures Apply(s, a).h < |Apply(s, a).server.handlers| && Apply(s, a).stream.sent <= |Apply(s, a).stream.keys|
    ensures Remaining(Apply(s, a)) < Remaining(s)
  {
    StepKeepsSystemInv(s, start, initial, a);
    match a
    case Client(action) => StreamCountsDown(s.stream, action);
    case Read => StreamCountsDown(s.stream, GetStream.ServerRead);
    case Answer => StreamCountsDown(Current(s), GetStream.ServerWrite);
    case Release =>
    case Finish => StreamCountsDown(s.stream, GetStream.ServerFinish);
  }

  function AsOthers(actions: seq<SpinLock.Action>): (r: seq<Action>)
    ensures |r| == |actions|
  {
    if actions == [] then [] else [Others(actions[0])] + AsOthers(actions[1..])
  }

  lemma {:induction false} OthersRun(s: System, actions: seq<SpinLock.Action>)
    requires SpinLock.ValidRun(s.server, actions)
    requires forall i :: 0 <= i < |actions| ==> !actions[i].Invoke? && actions[i].h != s.h
    ensures ValidRun(s, AsOthers(actions))
    ensures RunSystem(s, AsOthers(actions)) == s.(server := SpinLock.RunServer(s.server, actions))
    decreases |actions|
  {
    if actions != [] {
      OthersRun(Apply(s, Others(actions[0])), actions[1..]);
    }
  }

  lemma {:induction false} RunSystemConcat(s: System, a: seq<Action>, b: seq<Action>)
    requires ValidRun(s, a) && ValidRun(RunSystem(s, a), b)
    ensures ValidRun(s, a + b) && RunSystem(s, a + b) == RunSystem(RunSystem(s, a), b)
    decreases |a|
  {
    if a == [] {
      assert a + b == b;
    } else {
      assert (a + b)[1..] == a[1..] + b;
      RunSystemConcat(Apply(s, a[0]), a[1..], b);
    }
  }

  /** A handler that spins can get the lock, after at most two steps of the present holder. */
  lemma CanAcquire(s: System, start: Store, initial: seq<Bytes>) returns (actions: seq<Action>)
    requires SystemInv(s, start, initial) && s.server.handlers[s.h].phase.Spinning?
    ensures ValidRun(s, actions)
    ensures var s' := RunSystem(s, actions);
            && SystemInv(s', start, initial) && s'.h == s.h && s'.stream == s.stream
            && s'.server.handlers[s.h].phase.Streaming?
  {
    var freeing := SpinLock.FreeTheLock(s.server, start, s.h);
    OthersRun(s, freeing);
    var freed := RunSystem(s, AsOthers(freeing));
    assert ValidRun(freed, [Acquire]) && RunSystem(freed, [Acquire]) == Apply(freed, Acquire) by {
      assert [Acquire][1..] == [];
    }
    RunSystemConcat(s, AsOthers(freeing), [Acquire]);
    actions := AsOthers(freeing) + [Acquire];
    RunKeepsSystemInv(s, start, initial, actions);
  }

  /** From every state that a request can be in, with channels that hold something, it can complete. */
  lemma {:induction false} CanComplete(s: System, start: Store, initial: seq<Bytes>) returns (actions: seq<Action>)
    requires SystemInv(s, start, initial) && s.stream.capacity > 0
    ensures ValidRun(s, actions) && GetStream.Completed(RunSystem(s, actions).stream)
    decreases if s.h < |s.server.handlers| && s.stream.sent <= |s.stream.keys| then Remaining(s) else 0
  {
    SystemInvSent(s, start, initial);
    if GetStream.Completed(s.stream) {
      actions := [];
    } else if s.server.handlers[s.h].phase.Spinning? {
      var first := CanAcquire(s, start, initial);
      var s' := RunSystem(s, first);
      SystemInvSent(s', start, initial);
      assert Remaining(s') == Remaining(s) - 1;
      var rest := CanComplete(s', start, initial);
      RunSystemConcat(s, first, rest);
      actions := first + rest;
    } else {
      OnlyTheLockHoldsItUp(s, start, initial);
      var a :| Progress(s, a);
      ProgressCountsDown(s, start, initial, a);
      var rest := CanComplete(Apply(s, a), start, initial);
      actions := [a] + rest;
      assert actions[1..] == rest;
    }
  }

  /** So a request that is made at any time can always be seen through, however far it has got. */
  lemma RequestCanComplete(start: Store, earlier: seq<SpinLock.Action>, keys: seq<Bytes>, capacity: nat,
                           replyValues: seq<Bytes>, actions: seq<Action>) returns (more: seq<Action>)
    requires SpinLock.ValidRun(SpinLock.Start(start), earlier) && capacity > 0
    requires ValidRun(Open(SpinLock.RunServer(SpinLock.Start(start), earlier), keys, capacity, replyValues), actions)
    ensures var open := Open(SpinLock.RunServer(SpinLock.Start(start), earlier), keys, capacity, replyValues);
            && ValidRun(open, actions + more)
            && GetStream.Completed(RunSystem(open, actions + more).stream)
  {
    var server := SpinLock.RunServer(SpinLock.Start(start), earlier);
    var open := Open(server, keys, capacity, replyValues);
    SpinLock.Reachable(start, earlier);
    OpenInv(server, start, keys, capacity, replyValues);
    RunKeepsSystemInv(open, start, replyValues, actions);
    RunKeepsCapacity(open, actions);
    more := CanComplete(RunSystem(open, actions), start, replyValues);
    RunSystemConcat(open, actions, more);
  }

  lemma {:induction false} RunKeepsCapacity(s: System, actions: seq<Action>)
    requires ValidRun(s, actions)
    ensures RunSystem(s, actions).stream.capacity == s.stream.capacity
    decreases |actions|
  {
    if actions != [] {
      RunKeepsCapacity(Apply(s, actions[0]), actions[1..]);
    }
  }
}
