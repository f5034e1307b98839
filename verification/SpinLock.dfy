/** The backend server: any number of concurrent put, get and deletekey handlers around one spinlock,
    as a state machine over their atomic steps, and why it is linearizable. */
module SpinLock {
  import opened Primitives
  import opened KeyValue

  datatype Call = PutCall(key: Bytes, value: Bytes) | GetCall | DeleteCall(key: Bytes)

  datatype Result = Status(ok: bool) | Values(keys: seq<Bytes>, values: seq<Bytes>)

  /** Where a handler stands. */
  datatype Phase =
    | Spinning
    | Entered                                                                  // lock taken, nothing done yet
    | Executed(ok: bool)                                                       // put or deletekey done, lock held
    | Streaming(keys: seq<Bytes>, values: seq<Bytes>, pending: Option<Bytes>)  // get, one request at a time
    | Returned(result: Result)

  datatype Handler = Handler(call: Call, phase: Phase)

  /** `order` records the handlers in the order in which they took the lock. */
  datatype Server = Server(lock: bool, data: Store, handlers: seq<Handler>, order: seq<nat>)

  datatype Action =
    | Invoke(call: Call)
    | TestAndSet(h: nat)
    | Execute(h: nat)
    | StreamRead(h: nat, key: Bytes)
    | StreamWrite(h: nat)
    | Clear(h: nat)

  predicate InCriticalSection(p: Phase) {
    p.Entered? || p.Executed? || p.Streaming?
  }

  predicate Enabled(s: Server, a: Action) {
    match a
    case Invoke(_) => true
    case TestAndSet(h) => h < |s.handlers| && s.handlers[h].phase.Spinning?
    case Execute(h) => h < |s.handlers| && s.handlers[h].phase.Entered?
    case StreamRead(h, _) => h < |s.handlers| && s.handlers[h].phase.Streaming? && s.handlers[h].phase.pending.None?
    case StreamWrite(h) => h < |s.handlers| && s.handlers[h].phase.Streaming? && s.handlers[h].phase.pending.Some?
    case Clear(h) => h < |s.handlers| && (s.handlers[h].phase.Executed? ||
                                          (s.handlers[h].phase.Streaming? && s.handlers[h].phase.pending.None?))
  }

  function SetPhase(s: Server, h: nat, p: Phase): Server
    requires h < |s.handlers|
  {
    s.(handlers := s.handlers[h := s.handlers[h].(phase := p)])
  }

  /** What the handler returns when it clears the lock. */
  function ResultOf(p: Phase): Result
    requires p.Executed? || p.Streaming?
  {
    if p.Executed? then Status(p.ok) else Values(p.keys, p.values)
  }

  /** One atomic step. test_and_set on a taken lock leaves everything as it is: the handler spins. */
  function Apply(s: Server, a: Action): Server
    requires Enabled(s, a)
  {
    match a
    case Invoke(call) => s.(handlers := s.handlers + [Handler(call, Spinning)])
    case TestAndSet(h) =>
      if s.lock then s
      else SetPhase(s, h, if s.handlers[h].call.GetCall? then Streaming([], [], None) else Entered)
           .(lock := true, order := s.order + [h])
    case Execute(h) =>
      (match s.handlers[h].call
       case PutCall(key, value) => SetPhase(s, h, Executed(true)).(data := s.data[key := value])
       case DeleteCall(key) => SetPhase(s, h, Executed(key in s.data)).(data := s.data - {key})
       case GetCall => s)
    case StreamRead(h, key) => SetPhase(s, h, s.handlers[h].phase.(pending := Some(key)))
    case StreamWrite(h) =>
      var p := s.handlers[h].phase;
      SetPhase(s, h, Streaming(p.keys + [p.pending.value], p.values + [Lookup(s.data, p.pending.value)], None))
    case Clear(h) =>
      var p := s.handlers[h].phase;
      SetPhase(s, h, Returned(ResultOf(p))).(lock := false)
  }

  predicate ValidRun(s: Server, actions: seq<Action>)
    decreases |actions|
  {
    actions != [] ==> Enabled(s, actions[0]) && ValidRun(Apply(s, actions[0]), actions[1..])
  }

  function RunServer(s: Server, actions: seq<Action>): Server
    requires ValidRun(s, actions)
    decreases |actions|
  {
    if actions == [] then s else RunServer(Apply(s, actions[0]), actions[1..])
  }

  function Start(data: Store): Server {
    Server(false, data, [], [])
  }

  // ---------- the sequential specification ----------

  function Effect(data: Store, call: Call): Store {
    match call
    case PutCall(key, value) => data[key := value]
    case DeleteCall(key) => data - {key}
    case GetCall => data
  }

  function Replay(data: Store, calls: seq<Call>): Store {
    if calls == [] then data else Effect(Replay(data, calls[..|calls| - 1]), calls[|calls| - 1])
  }

  /** What BackendDataStructure answers in a given state; a get stream is sent `keys`, and all its values
      come from that one state. */
  function SequentialAnswer(data: Store, call: Call, keys: seq<Bytes>): Result {
    match call
    case PutCall(_, _) => Status(true)
    case DeleteCall(key) => Status(key in data)
    case GetCall => Values(keys, Lookups(data, keys))
  }

  predicate Answers(data: Store, call: Call, r: Result) {
    r == SequentialAnswer(data, call, if r.Values? then r.keys else [])
  }

  /** It is what the class answers to one caller at a time. */
  method ServeAlone(store: BackendDataStructure, call: Call, keys: seq<Bytes>) returns (r: Result)
    modifies store
    ensures store.keyValueMap == Effect(old(store.keyValueMap), call)
    ensures r == SequentialAnswer(old(store.keyValueMap), call, keys)
  {
    match call
    case PutCall(key, value) =>
      var ok := store.Put(key, value);
      r := Status(ok);
    case DeleteCall(key) =>
      var ok := store.DeleteKey(key);
      r := Status(ok);
    case GetCall =>
      var values: seq<Bytes> := [];
      for n := 0 to |keys|
        invariant store.keyValueMap == old(store.keyValueMap)
        invariant values == Lookups(store.keyValueMap, keys[..n])
      {
        var ok, value := store.Get(keys[n]);
        values := values + [value];
        assert keys[..n + 1] == keys[..n] + [keys[n]];
      }
      assert keys[..|keys|] == keys;
      r := Values(keys, values);
  }

  // ---------- the invariant ----------

  function CallsBefore(s: Server, n: nat): seq<Call>
    requires n <= |s.order| && OrderOk(s)
  {
    seq(n, i requires 0 <= i < n => s.handlers[s.order[i]].call)
  }

  /** Exactly the handlers past test_and_set are in the order, each once. */
  ghost predicate OrderOk(s: Server) {
    && (forall i :: 0 <= i < |s.order| ==> s.order[i] < |s.handlers|)
    && (forall i, j :: 0 <= i < j < |s.order| ==> s.order[i] != s.order[j])
    && (forall h :: 0 <= h < |s.handlers| ==> (s.handlers[h].phase.Spinning? <==> h !in s.order))
  }

  /** Only the last to take the lock can still hold it; all before it have returned. */
  ghost predicate MutexOk(s: Server)
    requires OrderOk(s)
  {
    && (s.lock ==> |s.order| > 0 && InCriticalSection(s.handlers[s.order[|s.order| - 1]].phase))
    && forall i :: 0 <= i < |s.order| - (if s.lock then 1 else 0) ==> s.handlers[s.order[i]].phase.Returned?
  }

  /** The handler at place i of the order has done what the sequential store does at that place. */
  ghost predicate PlaceOk(s: Server, start: Store, i: nat)
    requires OrderOk(s) && i < |s.order|
  {
    var before := Replay(start, CallsBefore(s, i));
    var h := s.handlers[s.order[i]];
    match h.phase
    case Spinning => false
    case Entered => !h.call.GetCall? && s.data == before
    case Executed(ok) => !h.call.GetCall? && Answers(before, h.call, Status(ok)) && s.data == Effect(before, h.call)
    case Streaming(keys, values, _) => h.call.GetCall? && s.data == before && values == Lookups(before, keys)
    case Returned(r) => Answers(before, h.call, r)
  }

  ghost predicate LockInv(s: Server, start: Store) {
    && OrderOk(s) && MutexOk(s)
    && (forall i :: 0 <= i < |s.order| ==> PlaceOk(s, start, i))
    && (!s.lock ==> s.data == Replay(start, CallsBefore(s, |s.order|)))
  }

  lemma StartInv(data: Store)
    ensures LockInv(Start(data), data)
  {
    assert CallsBefore(Start(data), 0) == [];
  }

  /** Mutual exclusion: whoever is in a critical section took the lock last and holds it. */
  lemma HolderIsLast(s: Server, h: nat)
    requires OrderOk(s) && MutexOk(s)
    requires h < |s.handlers| && InCriticalSection(s.handlers[h].phase)
    ensures s.lock && |s.order| > 0 && s.order[|s.order| - 1] == h
  {
    assert h in s.order;
    var i :| 0 <= i < |s.order| && s.order[i] == h;
  }

  lemma InvokeKeepsInv(s: Server, start: Store, call: Call)
    requires LockInv(s, start)
    ensures LockInv(Apply(s, Invoke(call)), start)
  {
    var s' := Apply(s, Invoke(call));
    assert OrderOk(s');
    assert forall i :: 0 <= i <= |s.order| ==> CallsBefore(s', i) == CallsBefore(s, i);
    forall i | 0 <= i < |s'.order|
      ensures PlaceOk(s', start, i)
    {
      assert PlaceOk(s, start, i);
    }
  }

  lemma AcquireKeepsInv(s: Server, start: Store, h: nat)
    requires LockInv(s, start) && Enabled(s, TestAndSet(h)) && !s.lock
    ensures LockInv(Apply(s, TestAndSet(h)), start)
  {
    var s' := Apply(s, TestAndSet(h));
    var n := |s.order|;
    AcquireKeepsOrder(s, h);
    assert forall i :: 0 <= i <= n ==> CallsBefore(s', i) == CallsBefore(s, i);
    forall i | 0 <= i < n
      ensures PlaceOk(s', start, i)
    {
      ReturnedStaysOk(s, s', start, i);
    }
    assert PlaceOk(s', start, n);
  }

  /** What a handler that has returned answered does not depend on what comes later. */
  lemma ReturnedStaysOk(s: Server, s': Server, start: Store, i: nat)
    requires OrderOk(s) && OrderOk(s') && i < |s.order| && i < |s'.order|
    requires s.order[i] == s'.order[i] && s'.handlers[s'.order[i]] == s.handlers[s.order[i]]
    requires s.handlers[s.order[i]].phase.Returned? && CallsBefore(s', i) == CallsBefore(s, i)
    requires PlaceOk(s, start, i)
    ensures PlaceOk(s', start, i)
  {
  }

  lemma AcquireKeepsOrder(s: Server, h: nat)
    requires OrderOk(s) && MutexOk(s) && Enabled(s, TestAndSet(h)) && !s.lock
    ensures OrderOk(Apply(s, TestAndSet(h))) && MutexOk(Apply(s, TestAndSet(h)))
  {
    var s' := Apply(s, TestAndSet(h));
    assert h !in s.order;
    assert forall x :: x in s'.order <==> x in s.order || x == h;
  }

  /** A step of the lock holder: its own place, and the lock it may give back, decide. */
  lemma HolderStepKeepsInv(s: Server, s': Server, start: Store, h: nat, p: Phase)
    requires LockInv(s, start) && h < |s.handlers| && InCriticalSection(s.handlers[h].phase)
    requires s' == SetPhase(s, h, p).(lock := s'.lock, data := s'.data)
    requires OrderOk(s') && |s.order| > 0 && PlaceOk(s', start, |s.order| - 1)
    requires if s'.lock then InCriticalSection(p)
             else p.Returned? && s'.data == Replay(start, CallsBefore(s', |s.order|))
    ensures LockInv(s', start)
  {
    HolderIsLast(s, h);
    HolderKeepsOthers(s, s', h, p);
    forall i | 0 <= i < |s.order| - 1
      ensures PlaceOk(s', start, i)
    {
      ReturnedStaysOk(s, s', start, i);
    }
  }

  lemma HolderKeepsOthers(s: Server, s': Server, h: nat, p: Phase)
    requires OrderOk(s) && MutexOk(s) && OrderOk(s')
    requires s.lock && |s.order| > 0 && s.order[|s.order| - 1] == h
    requires s' == SetPhase(s, h, p).(lock := s'.lock, data := s'.data)
    requires if s'.lock then InCriticalSection(p) else p.Returned?
    ensures MutexOk(s')
    ensures forall i :: 0 <= i <= |s.order| ==> CallsBefore(s', i) == CallsBefore(s, i)
    ensures forall i :: 0 <= i < |s.order| - 1 ==>
      s'.handlers[s'.order[i]] == s.handlers[s.order[i]] && s.handlers[s.order[i]].phase.Returned?
  {
  }

  lemma HolderKeepsOrder(s: Server, h: nat, p: Phase)
    requires OrderOk(s) && h < |s.handlers| && !s.handlers[h].phase.Spinning? && !p.Spinning?
    ensures OrderOk(SetPhase(s, h, p))
    ensures forall i :: 0 <= i <= |s.order| ==> CallsBefore(SetPhase(s, h, p), i) == CallsBefore(s, i)
  {
  }

  lemma ReplayMore(s: Server, start: Store)
    requires OrderOk(s) && |s.order| > 0
    ensures var n := |s.order| - 1;
            Replay(start, CallsBefore(s, n + 1)) ==
            Effect(Replay(start, CallsBefore(s, n)), s.handlers[s.order[n]].call)
  {
    var n := |s.order| - 1;
    assert CallsBefore(s, n + 1)[..n] == CallsBefore(s, n);
  }

  lemma ExecuteKeepsInv(s: Server, start: Store, h: nat)
    requires LockInv(s, start) && Enabled(s, Execute(h))
    ensures LockInv(Apply(s, Execute(h)), start)
  {
    HolderIsLast(s, h);
    var n := |s.order| - 1;
    assert PlaceOk(s, start, n);
    var s' := Apply(s, Execute(h));
    var p := s'.handlers[h].phase;
    HolderKeepsOrder(s, h, p);
    ExecutedPlaceOk(s, s', start, h);
    HolderStepKeepsInv(s, s', start, h, p);
  }

  lemma ExecutedPlaceOk(s: Server, s': Server, start: Store, h: nat)
    requires OrderOk(s) && OrderOk(s') && Enabled(s, Execute(h)) && s' == Apply(s, Execute(h))
    requires |s.order| > 0 && s.order[|s.order| - 1] == h && PlaceOk(s, start, |s.order| - 1)
    requires CallsBefore(s', |s.order| - 1) == CallsBefore(s, |s.order| - 1)
    ensures PlaceOk(s', start, |s.order| - 1)
  {
  }

  lemma StreamReadKeepsInv(s: Server, start: Store, h: nat, key: Bytes)
    requires LockInv(s, start) && Enabled(s, StreamRead(h, key))
    ensures LockInv(Apply(s, StreamRead(h, key)), start)
  {
    HolderIsLast(s, h);
    var n := |s.order| - 1;
    assert PlaceOk(s, start, n);
    var s' := Apply(s, StreamRead(h, key));
    HolderKeepsOrder(s, h, s'.handlers[h].phase);
    HolderStepKeepsInv(s, s', start, h, s'.handlers[h].phase);
  }

  lemma StreamWriteKeepsInv(s: Server, start: Store, h: nat)
    requires LockInv(s, start) && Enabled(s, StreamWrite(h))
    ensures LockInv(Apply(s, StreamWrite(h)), start)
  {
    HolderIsLast(s, h);
    var n := |s.order| - 1;
    assert PlaceOk(s, start, n);
    var s' := Apply(s, StreamWrite(h));
    var p, p' := s.handlers[h].phase, s'.handlers[h].phase;
    HolderKeepsOrder(s, h, p');
    assert Lookups(s.data, p.keys + [p.pending.value]) == Lookups(s.data, p.keys) + [Lookup(s.data, p.pending.value)];
    HolderStepKeepsInv(s, s', start, h, p');
  }

  lemma ClearKeepsInv(s: Server, start: Store, h: nat)
    requires LockInv(s, start) && Enabled(s, Clear(h))
    ensures LockInv(Apply(s, Clear(h)), start)
  {
    HolderIsLast(s, h);
    var s' := Apply(s, Clear(h));
    var p' := s'.handlers[h].phase;
    HolderKeepsOrder(s, h, p');
    ClearedPlaceOk(s, s', start, h);
    HolderStepKeepsInv(s, s', start, h, p');
  }

  lemma ClearedPlaceOk(s: Server, s': Server, start: Store, h: nat)
    requires OrderOk(s) && OrderOk(s') && Enabled(s, Clear(h)) && s' == Apply(s, Clear(h))
    requires |s.order| > 0 && s.order[|s.order| - 1] == h && PlaceOk(s, start, |s.order| - 1)
    requires CallsBefore(s', |s.order| - 1) == CallsBefore(s, |s.order| - 1)
    ensures PlaceOk(s', start, |s.order| - 1)
    ensures s'.data == Replay(start, CallsBefore(s', |s.order|))
  {
    var before := Replay(start, CallsBefore(s, |s.order| - 1));
    AnswerGiven(before, s.data, s.handlers[h]);
    ReplayMore(s', start);
  }

  lemma AnswerGiven(before: Store, data: Store, h: Handler)
    requires h.phase.Executed? || h.phase.Streaming?
    requires match h.phase
             case Executed(ok) => Answers(before, h.call, Status(ok)) && data == Effect(before, h.call)
             case Streaming(keys, values, _) => h.call.GetCall? && data == before && values == Lookups(before, keys)
    ensures Answers(before, h.call, ResultOf(h.phase)) && data == Effect(before, h.call)
  {
  }

  lemma StepKeepsLockInv(s: Server, start: Store, a: Action)
    requires LockInv(s, start) && Enabled(s, a)
    ensures LockInv(Apply(s, a), start)
  {
    match a
    case Invoke(call) => InvokeKeepsInv(s, start, call);
    case TestAndSet(h) =>
      if !s.lock {
        AcquireKeepsInv(s, start, h);
      }
    case Execute(h) => ExecuteKeepsInv(s, start, h);
    case StreamRead(h, key) => StreamReadKeepsInv(s, start, h, key);
    case StreamWrite(h) => StreamWriteKeepsInv(s, start, h);
    case Clear(h) => ClearKeepsInv(s, start, h);
  }

  lemma {:induction false} RunKeepsLockInv(s: Server, start: Store, actions: seq<Action>)
    requires LockInv(s, start) && ValidRun(s, actions)
    ensures LockInv(RunServer(s, actions), start)
    decreases |actions|
  {
    if actions != [] {
      StepKeepsLockInv(s, start, actions[0]);
      RunKeepsLockInv(Apply(s, actions[0]), start, actions[1..]);
    }
  }

  // ---------- what was invoked and what was read ----------

  /** The calls that the environment makes in a run, in order. */
  function Invoked(actions: seq<Action>): seq<Call>
    decreases |actions|
  {
    if actions == [] then []
    else (if actions[0].Invoke? then [actions[0].call] else []) + Invoked(actions[1..])
  }

  function CallsOf(handlers: seq<Handler>): (calls: seq<Call>)
    ensures |calls| == |handlers|
    ensures forall h :: 0 <= h < |handlers| ==> calls[h] == handlers[h].call
  {
    seq(|handlers|, h requires 0 <= h < |handlers| => handlers[h].call)
  }

  lemma StepKeepsCalls(s: Server, a: Action)
    requires Enabled(s, a)
    ensures CallsOf(Apply(s, a).handlers) == CallsOf(s.handlers) + (if a.Invoke? then [a.call] else [])
  {
  }

  /** The handlers work on exactly the calls that were invoked: one each, in order, and unaltered. */
  lemma {:induction false} CallsAreInvoked(s: Server, actions: seq<Action>)
    requires ValidRun(s, actions)
    ensures CallsOf(RunServer(s, actions).handlers) == CallsOf(s.handlers) + Invoked(actions)
    decreases |actions|
  {
    if actions != [] {
      StepKeepsCalls(s, actions[0]);
      CallsAreInvoked(Apply(s, actions[0]), actions[1..]);
      Regroup(CallsOf(s.handlers), if actions[0].Invoke? then [actions[0].call] else [], Invoked(actions[1..]));
    }
  }

  function OptionToSeq(o: Option<Bytes>): seq<Bytes> {
    match o
    case None => []
    case Some(key) => [key]
  }

  /** The keys that the client of handler h has sent, as far as the handler has read them. */
  function KeysRead(actions: seq<Action>, h: nat): seq<Bytes>
    decreases |actions|
  {
    if actions == [] then []
    else (if actions[0].StreamRead? && actions[0].h == h then [actions[0].key] else []) + KeysRead(actions[1..], h)
  }

  /** The keys that a handler has taken on. */
  function Taken(p: Phase): seq<Bytes> {
    match p
    case Streaming(keys, _, pending) => keys + OptionToSeq(pending)
    case Returned(Values(keys, _)) => keys
    case _ => []
  }

  function TakenBy(s: Server, h: nat): seq<Bytes> {
    if h < |s.handlers| then Taken(s.handlers[h].phase) else []
  }

  lemma StepTakesKeys(s: Server, a: Action, h: nat)
    requires Enabled(s, a) && (a.Execute? ==> !s.handlers[a.h].call.GetCall?)
    ensures TakenBy(Apply(s, a), h) == TakenBy(s, h) + (if a.StreamRead? && a.h == h then [a.key] else [])
  {
  }

  /** Every get handler has taken on exactly the keys it was sent. */
  lemma {:induction false} KeysAreRead(s: Server, start: Store, actions: seq<Action>, h: nat)
    requires LockInv(s, start) && ValidRun(s, actions)
    ensures TakenBy(RunServer(s, actions), h) == TakenBy(s, h) + KeysRead(actions, h)
    decreases |actions|
  {
    if actions != [] {
      var a := actions[0];
      if a.Execute? {
        HolderIsLast(s, a.h);
        assert PlaceOk(s, start, |s.order| - 1);
      }
      StepTakesKeys(s, a, h);
      StepKeepsLockInv(s, start, a);
      KeysAreRead(Apply(s, a), start, actions[1..], h);
      Regroup(TakenBy(s, h), if a.StreamRead? && a.h == h then [a.key] else [], KeysRead(actions[1..], h));
    }
  }

  // ---------- linearizability ----------

  /** In every reachable state at most one handler is in a critical section. */
  lemma MutualExclusion(start: Store, actions: seq<Action>, g: nat, h: nat)
    requires ValidRun(Start(start), actions)
    requires var s := RunServer(Start(start), actions);
             g < |s.handlers| && h < |s.handlers|
             && InCriticalSection(s.handlers[g].phase) && InCriticalSection(s.handlers[h].phase)
    ensures g == h
  {
    StartInv(start);
    RunKeepsLockInv(Start(start), start, actions);
    HolderIsLast(RunServer(Start(start), actions), g);
    HolderIsLast(RunServer(Start(start), actions), h);
  }

  /** The first n calls in an order in which they may have been made. */
  function InOrder(calls: seq<Call>, order: seq<nat>, n: nat): seq<Call>
    requires n <= |order| && forall i :: 0 <= i < |order| ==> order[i] < |calls|
  {
    seq(n, i requires 0 <= i < n => calls[order[i]])
  }

  lemma InOrderIsCallsBefore(s: Server, n: nat)
    requires OrderOk(s) && n <= |s.order|
    ensures InOrder(CallsOf(s.handlers), s.order, n) == CallsBefore(s, n)
  {
  }

  /** What a reachable server has to do with the calls that were invoked. */
  lemma Reachable(start: Store, actions: seq<Action>)
    requires ValidRun(Start(start), actions)
    ensures LockInv(RunServer(Start(start), actions), start)
    ensures CallsOf(RunServer(Start(start), actions).handlers) == Invoked(actions)
    ensures forall h: nat :: TakenBy(RunServer(Start(start), actions), h) == KeysRead(actions, h)
  {
    StartInv(start);
    RunKeepsLockInv(Start(start), start, actions);
    CallsAreInvoked(Start(start), actions);
    assert CallsOf(Start(start).handlers) + Invoked(actions) == Invoked(actions);
    forall h: nat
      ensures TakenBy(RunServer(Start(start), actions), h) == KeysRead(actions, h)
    {
      KeysAreRead(Start(start), start, actions, h);
      assert TakenBy(Start(start), h) + KeysRead(actions, h) == KeysRead(actions, h);
    }
  }

  /** Every handler that has returned gave to the call that was invoked the answer of the sequential
      store after the invoked calls before it in the order of lock acquisition; a get stream answered
      exactly the keys it was sent, all from that one state. */
  lemma Linearizable(start: Store, actions: seq<Action>, h: nat)
    requires ValidRun(Start(start), actions)
    requires var s := RunServer(Start(start), actions);
             h < |s.handlers| && s.handlers[h].phase.Returned?
    ensures var s := RunServer(Start(start), actions);
            && h < |Invoked(actions)| && (forall i :: 0 <= i < |s.order| ==> s.order[i] < |Invoked(actions)|)
            && exists i :: 0 <= i < |s.order| && s.order[i] == h
                 && s.handlers[h].phase.result ==
                    SequentialAnswer(Replay(start, InOrder(Invoked(actions), s.order, i)),
                                     Invoked(actions)[h], KeysRead(actions, h))
  {
    Reachable(start, actions);
    var s := RunServer(Start(start), actions);
    assert h in s.order;
    var i :| 0 <= i < |s.order| && s.order[i] == h;
    assert PlaceOk(s, start, i);
    InOrderIsCallsBefore(s, i);
    assert TakenBy(s, h) == KeysRead(actions, h);
  }

  /** Whenever nobody holds the lock, the store is what the invoked calls have made of it, one after the
      other in the order of lock acquisition. */
  lemma StoreIsReplay(start: Store, actions: seq<Action>)
    requires ValidRun(Start(start), actions) && !RunServer(Start(start), actions).lock
    ensures var s := RunServer(Start(start), actions);
            && (forall i :: 0 <= i < |s.order| ==> s.order[i] < |Invoked(actions)|)
            && s.data == Replay(start, InOrder(Invoked(actions), s.order, |s.order|))
  {
    Reachable(start, actions);
    InOrderIsCallsBefore(RunServer(Start(start), actions), |RunServer(Start(start), actions).order|);
  }

  lemma {:induction false} OrderOnlyGrows(s: Server, actions: seq<Action>)
    requires ValidRun(s, actions)
    ensures var s' := RunServer(s, actions);
            && s.order <= s'.order
            && |s.handlers| <= |s'.handlers|
    decreases |actions|
  {
    if actions != [] {
      OrderOnlyGrows(Apply(s, actions[0]), actions[1..]);
    }
  }

  /** The order respects real time: a handler that has returned comes before every handler invoked
      later, or invoked and still spinning. */
  lemma RealTimeOrder(start: Store, earlier: seq<Action>, later: seq<Action>, i: nat, j: nat)
    requires ValidRun(Start(start), earlier) && ValidRun(RunServer(Start(start), earlier), later)
    requires var s := RunServer(Start(start), earlier);
             var s' := RunServer(s, later);
             && i < |s'.order| && j < |s'.order|
             && s'.order[i] < |s.handlers| && s.handlers[s'.order[i]].phase.Returned?
             && (s'.order[j] < |s.handlers| ==> s.handlers[s'.order[j]].phase.Spinning?)
    ensures i < j
  {
    StartInv(start);
    RunKeepsLockInv(Start(start), start, earlier);
    var s := RunServer(Start(start), earlier);
    OrderOnlyGrows(s, later);
    RunKeepsLockInv(s, start, later);
    var s' := RunServer(s, later);
    assert s'.order[i] in s.order;
    var k :| 0 <= k < |s.order| && s.order[k] == s'.order[i];
    assert s'.order[k] == s.order[k];
    assert s'.order[j] !in s.order;
  }

  // ---------- nobody is shut out for good ----------

  lemma {:induction false} RunServerConcat(s: Server, a: seq<Action>, b: seq<Action>)
    requires ValidRun(s, a) && ValidRun(RunServer(s, a), b)
    ensures ValidRun(s, a + b) && RunServer(s, a + b) == RunServer(RunServer(s, a), b)
    decreases |a|
  {
    if a == [] {
      assert a + b == b;
    } else {
      assert (a + b)[1..] == a[1..] + b;
      RunServerConcat(Apply(s, a[0]), a[1..], b);
    }
  }

  /** Of handler h alone. */
  predicate OnlyBy(actions: seq<Action>, h: nat) {
    forall i :: 0 <= i < |actions| ==> !actions[i].Invoke? && actions[i].h == h
  }

  /** A handler in its critical section is at most two steps from returning and clearing the lock. */
  lemma HolderCanReturn(s: Server, start: Store, h: nat) returns (actions: seq<Action>)
    requires LockInv(s, start) && h < |s.handlers| && InCriticalSection(s.handlers[h].phase)
    ensures ValidRun(s, actions) && |actions| <= 2 && OnlyBy(actions, h)
    ensures var s' := RunServer(s, actions);
            && LockInv(s', start) && !s'.lock && |s'.handlers| == |s.handlers| && s'.handlers[h].phase.Returned?
            && forall g :: 0 <= g < |s.handlers| && g != h ==> s'.handlers[g] == s.handlers[g]
  {
    HolderIsLast(s, h);
    assert PlaceOk(s, start, |s.order| - 1);
    var first := HolderCanClear(s, h);
    ClearEnds(RunServer(s, first), h);
    RunServerConcat(s, first, [Clear(h)]);
    actions := first + [Clear(h)];
    RunKeepsLockInv(s, start, actions);
  }

  lemma ClearEnds(s: Server, h: nat)
    requires Enabled(s, Clear(h))
    ensures ValidRun(s, [Clear(h)])
    ensures var s' := RunServer(s, [Clear(h)]);
            && !s'.lock && |s'.handlers| == |s.handlers| && s'.handlers[h].phase.Returned?
            && forall g :: 0 <= g < |s.handlers| && g != h ==> s'.handlers[g] == s.handlers[g]
  {
    RunOne(s, Clear(h));
  }

  lemma HolderCanClear(s: Server, h: nat) returns (first: seq<Action>)
    requires h < |s.handlers| && InCriticalSection(s.handlers[h].phase)
    requires s.handlers[h].phase.Entered? ==> !s.handlers[h].call.GetCall?
    ensures ValidRun(s, first) && |first| <= 1 && OnlyBy(first, h)
    ensures var s' := RunServer(s, first);
            && Enabled(s', Clear(h)) && |s'.handlers| == |s.handlers|
            && forall g :: 0 <= g < |s.handlers| && g != h ==> s'.handlers[g] == s.handlers[g]
  {
    var p := s.handlers[h].phase;
    if p.Entered? {
      first := [Execute(h)];
      RunOne(s, Execute(h));
    } else if p.Streaming? && p.pending.Some? {
      first := [StreamWrite(h)];
      RunOne(s, StreamWrite(h));
    } else {
      first := [];
    }
  }

  lemma RunOne(s: Server, a: Action)
    requires Enabled(s, a)
    ensures ValidRun(s, [a]) && RunServer(s, [a]) == Apply(s, a)
  {
    assert [a][1..] == [];
  }

  /** In every reachable state every handler has a way to return, within five steps, of which only the
      present lock holder takes any but the handler itself. */
  lemma EveryHandlerCanReturn(start: Store, earlier: seq<Action>, h: nat) returns (actions: seq<Action>)
    requires ValidRun(Start(start), earlier) && h < |RunServer(Start(start), earlier).handlers|
    ensures var s := RunServer(Start(start), earlier);
            && ValidRun(s, actions) && |actions| <= 5
            && h < |RunServer(s, actions).handlers| && RunServer(s, actions).handlers[h].phase.Returned?
  {
    Reachable(start, earlier);
    var s := RunServer(Start(start), earlier);
    if s.handlers[h].phase.Returned? {
      actions := [];
    } else if InCriticalSection(s.handlers[h].phase) {
      actions := HolderCanReturn(s, start, h);
    } else {
      var freed := FreeTheLock(s, start, h);
      var s1 := RunServer(s, freed);
      RunOne(s1, TestAndSet(h));
      StepKeepsLockInv(s1, start, TestAndSet(h));
      var s2 := Apply(s1, TestAndSet(h));
      var rest := HolderCanReturn(s2, start, h);
      RunServerConcat(s1, [TestAndSet(h)], rest);
      RunServerConcat(s, freed, [TestAndSet(h)] + rest);
      actions := freed + ([TestAndSet(h)] + rest);
    }
  }

  /** While handler h spins, whoever holds the lock can give it back without h. */
  lemma FreeTheLock(s: Server, start: Store, h: nat) returns (actions: seq<Action>)
    requires LockInv(s, start) && h < |s.handlers| && s.handlers[h].phase.Spinning?
    ensures ValidRun(s, actions) && |actions| <= 2
    ensures forall i :: 0 <= i < |actions| ==> !actions[i].Invoke? && actions[i].h != h
    ensures var s' := RunServer(s, actions);
            && LockInv(s', start) && !s'.lock && |s'.handlers| == |s.handlers| && s'.handlers[h] == s.handlers[h]
  {
    if s.lock {
      actions := HolderCanReturn(s, start, s.order[|s.order| - 1]);
    } else {
      actions := [];
    }
  }
}
