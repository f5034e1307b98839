/** One SendGetRequest against the server's get handler: the client's writer thread, the server's
    read-reply loop and the client's reader loop over two FIFO channels, in any interleaving. */
module GetStream {
  import opened Primitives
  import opened KeyValue

  /** The data does not change while the stream is open: the handler holds the lock throughout, which is
      what LockedGet adds to this. */
  datatype Stream = Stream(
    keys: seq<Bytes>,            // the client's argument
    data: Store,                 // the server's snapshot
    capacity: nat,               // of either channel
    sent: nat,                   // keys the writer thread has written
    writesDone: bool,
    requests: seq<Bytes>,        // in flight to the server
    held: Option<Bytes>,         // read by the server, not yet answered
    serverDone: bool,
    replies: seq<Bytes>,         // in flight to the client
    replyValues: seq<Bytes>,     // the client's result vector
    readerDone: bool)

  datatype Action = WriterWrite | WriterDone | ServerRead | ServerWrite | ServerFinish | ClientRead | ClientFinish

  function Open(keys: seq<Bytes>, data: Store, capacity: nat, replyValues: seq<Bytes>): Stream {
    Stream(keys, data, capacity, 0, false, [], None, false, [], replyValues, false)
  }

  predicate Enabled(s: Stream, a: Action) {
    match a
    case WriterWrite => s.sent < |s.keys| && |s.requests| < s.capacity
    case WriterDone => s.sent >= |s.keys| && !s.writesDone
    case ServerRead => s.requests != [] && s.held.None? && !s.serverDone
    case ServerWrite => s.held.Some? && |s.replies| < s.capacity
    case ServerFinish => s.requests == [] && s.writesDone && s.held.None? && !s.serverDone
    case ClientRead => s.replies != [] && !s.readerDone
    case ClientFinish => s.replies == [] && s.serverDone && !s.readerDone
  }

  function Apply(s: Stream, a: Action): Stream
    requires Enabled(s, a)
  {
    match a
    case WriterWrite => s.(requests := s.requests + [s.keys[s.sent]], sent := s.sent + 1)
    case WriterDone => s.(writesDone := true)
    case ServerRead => s.(held := Some(s.requests[0]), requests := s.requests[1..])
    case ServerWrite => s.(replies := s.replies + [Lookup(s.data, s.held.value)], held := None)
    case ServerFinish => s.(serverDone := true)
    case ClientRead => s.(replyValues := s.replyValues + [s.replies[0]], replies := s.replies[1..])
    case ClientFinish => s.(readerDone := true)
  }

  predicate ValidRun(s: Stream, actions: seq<Action>)
    decreases |actions|
  {
    actions != [] ==> Enabled(s, actions[0]) && ValidRun(Apply(s, actions[0]), actions[1..])
  }

  function RunStream(s: Stream, actions: seq<Action>): Stream
    requires ValidRun(s, actions)
    decreases |actions|
  {
    if actions == [] then s else RunStream(Apply(s, actions[0]), actions[1..])
  }

  /** SendGetRequest returns once its reader loop has ended and the writer thread has been joined. */
  predicate Completed(s: Stream) {
    s.readerDone && s.writesDone
  }

  // ---------- the invariant ----------

  function HeldKeys(s: Stream): seq<Bytes> {
    match s.held
    case None => []
    case Some(key) => [key]
  }

  /** The keys not yet answered, in the order in which they will be. */
  function Unanswered(s: Stream): seq<Bytes>
    requires s.sent <= |s.keys|
  {
    HeldKeys(s) + (s.requests + s.keys[s.sent..])
  }

  /** What the client will have in the end: what it has, what is in flight, what is still to come. */
  ghost predicate StreamInv(s: Stream, expected: seq<Bytes>) {
    && s.sent <= |s.keys|
    && s.replyValues + (s.replies + Lookups(s.data, Unanswered(s))) == expected
    && (s.writesDone ==> s.sent == |s.keys|)
    && (s.serverDone ==> s.writesDone && s.requests == [] && s.held.None?)
    && (s.readerDone ==> s.serverDone && s.replies == [])
  }

  /** Moving a key along leaves what is unanswered as it was; answering takes its first key. */
  lemma UnansweredAfter(s: Stream, a: Action)
    requires Enabled(s, a) && s.sent <= |s.keys|
    ensures Apply(s, a).sent <= |s.keys|
    ensures a.ServerWrite? ==> Unanswered(s) == [s.held.value] + Unanswered(Apply(s, a))
    ensures !a.ServerWrite? ==> Unanswered(Apply(s, a)) == Unanswered(s)
  {
    var s' := Apply(s, a);
    match a
    case WriterWrite =>
      assert s.keys[s.sent..] == [s.keys[s.sent]] + s.keys[s.sent + 1..];
      assert s'.requests + s'.keys[s'.sent..] == s.requests + s.keys[s.sent..];
    case ServerRead =>
      assert s.requests == [s.requests[0]] + s.requests[1..];
    case _ =>
  }

  lemma ServerWriteKeepsTotal(s: Stream, rest: seq<Bytes>, key: Bytes)
    ensures (s.replies + [Lookup(s.data, key)]) + Lookups(s.data, rest) == s.replies + Lookups(s.data, [key] + rest)
  {
    assert Lookups(s.data, [key] + rest) == [Lookup(s.data, key)] + Lookups(s.data, rest);
  }

  lemma ClientReadKeepsTotal(values: seq<Bytes>, replies: seq<Bytes>, rest: seq<Bytes>)
    requires replies != []
    ensures (values + [replies[0]]) + (replies[1..] + rest) == values + (replies + rest)
  {
  }

  lemma StepKeepsStreamInv(s: Stream, a: Action, expected: seq<Bytes>)
    requires StreamInv(s, expected) && Enabled(s, a)
    ensures StreamInv(Apply(s, a), expected)
  {
    UnansweredAfter(s, a);
    if a.ServerWrite? {
      ServerWriteKeepsTotal(s, Unanswered(Apply(s, a)), s.held.value);
    }
    if a.ClientRead? {
      ClientReadKeepsTotal(s.replyValues, s.replies, Lookups(s.data, Unanswered(s)));
    }
  }

  lemma {:induction false} RunKeepsStreamInv(s: Stream, actions: seq<Action>, expected: seq<Bytes>)
    requires StreamInv(s, expected) && ValidRun(s, actions)
    ensures StreamInv(RunStream(s, actions), expected)
    ensures RunStream(s, actions).data == s.data
    decreases |actions|
  {
    if actions != [] {
      StepKeepsStreamInv(s, actions[0], expected);
      RunKeepsStreamInv(Apply(s, actions[0]), actions[1..], expected);
    }
  }

  lemma OpenInv(keys: seq<Bytes>, data: Store, capacity: nat, replyValues: seq<Bytes>)
    ensures StreamInv(Open(keys, data, capacity, replyValues), replyValues + Lookups(data, keys))
  {
    var s := Open(keys, data, capacity, replyValues);
    assert Unanswered(s) == keys;
    assert s.replies + Lookups(data, keys) == Lookups(data, keys);
  }

  /** A completed request has appended exactly the lookups of its keys, in order. */
  lemma CompletedCollectsLookups(
    keys: seq<Bytes>, data: Store, capacity: nat, replyValues: seq<Bytes>, actions: seq<Action>)
    requires ValidRun(Open(keys, data, capacity, replyValues), actions)
    requires Completed(RunStream(Open(keys, data, capacity, replyValues), actions))
    ensures RunStream(Open(keys, data, capacity, replyValues), actions).replyValues == replyValues + Lookups(data, keys)
  {
    OpenInv(keys, data, capacity, replyValues);
    RunKeepsStreamInv(Open(keys, data, capacity, replyValues), actions, replyValues + Lookups(data, keys));
    var s := RunStream(Open(keys, data, capacity, replyValues), actions);
    assert Unanswered(s) == [];
    assert s.replyValues + (s.replies + Lookups(s.data, [])) == s.replyValues;
  }

  // ---------- it does complete ----------

  /** The steps still to be taken. */
  function StepsLeft(s: Stream): nat
    requires s.sent <= |s.keys|
  {
    4 * (|s.keys| - s.sent) + 3 * |s.requests| + 2 * |HeldKeys(s)| + |s.replies|
    + (if s.writesDone then 0 else 1) + (if s.serverDone then 0 else 1) + (if s.readerDone then 0 else 1)
  }

  lemma {:induction false} RunCountsDown(s: Stream, actions: seq<Action>, expected: seq<Bytes>)
    requires StreamInv(s, expected) && ValidRun(s, actions)
    ensures RunStream(s, actions).sent <= |RunStream(s, actions).keys|
    ensures RunStream(s, actions).capacity == s.capacity
    ensures StepsLeft(RunStream(s, actions)) + |actions| == StepsLeft(s)
    decreases |actions|
  {
    if actions != [] {
      StepKeepsStreamInv(s, actions[0], expected);
      RunCountsDown(Apply(s, actions[0]), actions[1..], expected);
    }
  }

  /** Whatever the channels can hold, as long as it is something, no interleaving gets stuck: a run
      that cannot go on has completed, and every run ends within 4 steps a key and 3 more. */
  lemma NeverStuck(keys: seq<Bytes>, data: Store, capacity: nat, replyValues: seq<Bytes>, actions: seq<Action>)
    requires capacity > 0
    requires ValidRun(Open(keys, data, capacity, replyValues), actions)
    ensures |actions| <= 4 * |keys| + 3
    ensures var s := RunStream(Open(keys, data, capacity, replyValues), actions);
            Completed(s) <==> !exists a :: Enabled(s, a)
  {
    var open := Open(keys, data, capacity, replyValues);
    OpenInv(keys, data, capacity, replyValues);
    RunCountsDown(open, actions, replyValues + Lookups(data, keys));
    RunKeepsStreamInv(open, actions, replyValues + Lookups(data, keys));
    var s := RunStream(open, actions);
    if !Completed(s) {
      var next :=
        if s.replies != [] then ClientRead
        else if s.held.Some? then ServerWrite
        else if s.requests != [] then ServerRead
        else if s.sent < |s.keys| then WriterWrite
        else if !s.writesDone then WriterDone
        else if !s.serverDone then ServerFinish
        else ClientFinish;
      assert Enabled(s, next);
    }
  }
}
