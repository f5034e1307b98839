/** The monitor and stream pollers over whole runs: every chirp is delivered exactly once. */
module Delivery {
  import opened Primitives
  import opened Records
  import opened Tags
  import opened Model
  import opened Runs

  // ---------- the clock ----------

  function ReadingOf(op: Op): Option<Timeval> {
    match op
    case Register(_, now) => Some(now)
    case Post(_, _, _, now) => Some(now)
    case Monitor(_, _, now) => Some(now)
    case Stream(_, _, now) => Some(now)
    case _ => None
  }

  /** No update lies in the future, and a user's last update is no older than any of their chirps. */
  ghost predicate TimeOk(st: State, clock: Timeval) {
    && (forall u :: u in st.users ==> !Before(clock, st.users[u].lastUpdate))
    && (forall id :: id in st.chirps && st.chirps[id].username in st.users ==>
          AtLeast(st.users[st.chirps[id].username].lastUpdate, st.chirps[id].time))
  }

  function ClockAfter(clock: Timeval, op: Op): Timeval {
    match ReadingOf(op)
    case None => clock
    case Some(now) => now
  }

  lemma StepKeepsTimeOk(st: State, op: Op, clock: Timeval)
    requires Inv(st) && st.counter < UINT64_LIMIT - 1 && TimeOk(st, clock)
    requires !Before(ClockAfter(clock, op), clock)
    ensures TimeOk(Step(st, op), ClockAfter(clock, op))
  {
    if op.Post? && LoggedIn(st, op) {
      PostKeepsTimeOk(st, op.user, op.text, op.parentId, op.now, clock);
    }
    if op.Delete? && LoggedIn(st, op) {
      DeleteKeepsTimeOk(st, op.user, op.id, clock);
    }
  }

  lemma DeleteKeepsTimeOk(st: State, user: Bytes, id: uint64, clock: Timeval)
    requires Inv(st) && TimeOk(st, clock)
    ensures TimeOk(DeleteChirp(st, user, id).0, clock)
  {
    if DeleteChirp(st, user, id).1 == OK {
      DeletedChirps(st, user, id);
    }
  }

  lemma PostKeepsTimeOk(st: State, user: Bytes, text: Bytes, parentId: uint64, now: Timeval, clock: Timeval)
    requires Inv(st) && st.counter < UINT64_LIMIT - 1 && TimeOk(st, clock) && !Before(now, clock)
    ensures TimeOk(PostChirp(st, user, text, parentId, now).0, now)
  {
    var (st', code) := PostChirp(st, user, text, parentId, now);
    if code == OK {
      PostedChirps(st, user, text, parentId, now);
      AddedChirpTimeOk(st, st', user, st.counter + 1, now, clock);
    } else {
      assert st'.users == st.users && st'.chirps == st.chirps;
    }
  }

  lemma AddedChirpTimeOk(st: State, st': State, user: Bytes, id: uint64, now: Timeval, clock: Timeval)
    requires TimeOk(st, clock) && !Before(now, clock)
    requires st'.users == st.users[user := User(user, now)]
    requires st'.chirps.Keys == st.chirps.Keys + {id} && st'.chirps[id].username == user && st'.chirps[id].time == now
    requires forall c :: c in st.chirps && c != id ==>
      st'.chirps[c].username == st.chirps[c].username && st'.chirps[c].time == st.chirps[c].time
    requires forall c :: c in st.chirps && st.chirps[c].username == user ==> user in st.users
    ensures TimeOk(st', now)
  {
  }

  /** What MonitorFrom would return without its shortcut. */
  ghost function FullScan(st: State, user: Bytes, from: Timeval, now: Timeval): set<uint64> {
    set id |
      id in st.chirps && st.chirps[id].username in FollowingOf(st, user) && InWindow(st.chirps[id].time, from, now)
  }

  /** Skipping the followees whose last update precedes the window loses nothing. */
  lemma ShortcutLosesNothing(st: State, user: Bytes, from: Timeval, now: Timeval, clock: Timeval)
    requires Inv(st) && TimeOk(st, clock)
    ensures MonitorFrom(st, user, from, now) == FullScan(st, user, from, now)
  {
    forall id
      ensures id in MonitorFrom(st, user, from, now) <==> id in FullScan(st, user, from, now)
    {
      if id in FullScan(st, user, from, now) {
        var f := st.chirps[id].username;
        assert Scanned(st, f, from) && id in ChirpListOf(st, f) && ChirpInWindow(st, id, from, now);
      }
    }
  }

  // ---------- a poller among other callers ----------

  /** What a poller follows: the followees of a user, or a tag. */
  datatype Watch = Followees(user: Bytes) | Tagged(tag: Bytes)

  /** A run as the poller sees it: calls of others, and its own polls. */
  datatype Event = Call(op: Op) | Poll(now: Timeval)

  function PollResult(st: State, watch: Watch, from: Timeval, now: Timeval): Option<set<uint64>> {
    match watch
    case Followees(user) => Some(MonitorFrom(st, user, from, now))
    case Tagged(tag) => StreamFrom(st, tag, from, now)
  }

  function Calls(events: seq<Event>): (ops: seq<Op>)
    ensures |ops| <= |events|
  {
    if events == [] then []
    else (match events[0] case Call(op) => [op] case Poll(_) => []) + Calls(events[1..])
  }

  ghost function Final(st: State, events: seq<Event>): State
    requires Room(st, |events|)
  {
    Run(st, Calls(events))
  }

  /** The successive results; each poll moves `from` to its own `now`, and an abort ends them. */
  ghost function Deliveries(st: State, watch: Watch, from: Timeval, events: seq<Event>): seq<set<uint64>>
    requires Room(st, |events|)
    decreases |events|
  {
    if events == [] then [] else
    match events[0]
    case Call(op) =>
      StepKeepsInv(st, op);
      Deliveries(Step(st, op), watch, from, events[1..])
    case Poll(now) =>
      match PollResult(st, watch, from, now)
      case None => []
      case Some(ids) => [ids] + Deliveries(st, watch, now, events[1..])
  }

  function LastPoll(from: Timeval, events: seq<Event>): Timeval
    decreases |events|
  {
    if events == [] then from
    else LastPoll(match events[0] case Call(_) => from case Poll(now) => now, events[1..])
  }

  function PollCount(events: seq<Event>): nat {
    if events == [] then 0 else (if events[0].Poll? then 1 else 0) + PollCount(events[1..])
  }

  function ClockAfterEvent(clock: Timeval, e: Event): Timeval {
    match e
    case Call(op) => ClockAfter(clock, op)
    case Poll(now) => now
  }

  /** Clock readings never go back. */
  ghost predicate Clocked(clock: Timeval, events: seq<Event>)
    decreases |events|
  {
    events != [] ==>
      && !Before(ClockAfterEvent(clock, events[0]), clock)
      && Clocked(ClockAfterEvent(clock, events[0]), events[1..])
  }

  /** What every run starts from. */
  ghost predicate Timely(st: State, clock: Timeval, events: seq<Event>) {
    Room(st, |events|) && TimeOk(st, clock) && Clocked(clock, events)
  }

  lemma TimelyNext(st: State, clock: Timeval, events: seq<Event>)
    requires Timely(st, clock, events) && events != []
    ensures events[0].Call? ==>
              && st.counter < UINT64_LIMIT - 1 && Inv(Step(st, events[0].op))
              && Timely(Step(st, events[0].op), ClockAfterEvent(clock, events[0]), events[1..])
              && Final(st, events) == Final(Step(st, events[0].op), events[1..])
    ensures events[0].Poll? ==>
              Timely(st, events[0].now, events[1..]) && Final(st, events) == Final(st, events[1..])
  {
    match events[0]
    case Call(op) =>
      StepKeepsInv(st, op);
      StepKeepsTimeOk(st, op, clock);
      assert Calls(events) == [op] + Calls(events[1..]);
      assert Calls(events)[1..] == Calls(events[1..]);
    case Poll(now) =>
      assert Calls(events) == Calls(events[1..]);
  }

  ghost predicate RpcEvents(events: seq<Event>) {
    forall i :: 0 <= i < |events| && events[i].Call? ==> IsRpc(events[i].op)
  }

  /** What a stream needs for its polls never to abort: the RPC surface only. */
  ghost predicate Watchable(st: State, watch: Watch, clock: Timeval, events: seq<Event>) {
    Timely(st, clock, events) && (watch.Tagged? ==> TagsAgree(st) && RpcEvents(events))
  }

  lemma WatchableNext(st: State, watch: Watch, clock: Timeval, events: seq<Event>)
    requires Watchable(st, watch, clock, events) && events != []
    ensures events[0].Call? ==>
              && st.counter < UINT64_LIMIT - 1 && Inv(Step(st, events[0].op))
              && Watchable(Step(st, events[0].op), watch, ClockAfterEvent(clock, events[0]), events[1..])
              && Final(st, events) == Final(Step(st, events[0].op), events[1..])
    ensures events[0].Poll? ==>
              Watchable(st, watch, events[0].now, events[1..]) && Final(st, events) == Final(st, events[1..])
  {
    TimelyNext(st, clock, events);
    if watch.Tagged? && events[0].Call? {
      RpcStepKeepsTagsAgree(st, events[0].op);
    }
  }

  // ---------- what one poll owes ----------

  predicate Visible(st: State, watch: Watch, id: uint64)
    requires id in st.chirps
  {
    match watch
    case Followees(user) => st.chirps[id].username in FollowingOf(st, user)
    case Tagged(tag) => HasTag(st.chirps[id].text, tag)
  }

  ghost function Due(st: State, watch: Watch, from: Timeval, now: Timeval): set<uint64> {
    set id | id in st.chirps && Visible(st, watch, id) && InWindow(st.chirps[id].time, from, now)
  }

  /** A poll never aborts and returns exactly the visible live chirps of its window. */
  lemma PollReturnsDue(st: State, watch: Watch, from: Timeval, now: Timeval, clock: Timeval)
    requires Inv(st) && TimeOk(st, clock) && (watch.Tagged? ==> TagsAgree(st))
    ensures PollResult(st, watch, from, now) == Some(Due(st, watch, from, now))
  {
    match watch
    case Followees(user) =>
      ShortcutLosesNothing(st, user, from, now, clock);
      assert FullScan(st, user, from, now) == Due(st, watch, from, now);
    case Tagged(tag) =>
      var indexed := TagList(st.tags, tag);
      assert indexed == LiveWithTag(st, tag);
      assert indexed <= st.chirps.Keys;
      assert WindowOf(st, indexed, from, now) == Due(st, watch, from, now);
  }

  /** Under the full API a stream's poll may abort; what an answered poll returns is in the window. */
  lemma PollInWindow(st: State, watch: Watch, from: Timeval, now: Timeval, id: uint64)
    requires Inv(st) && PollResult(st, watch, from, now).Some? && id in PollResult(st, watch, from, now).value
    ensures id in st.chirps && InWindow(st.chirps[id].time, from, now)
  {
  }

  // ---------- exactly once ----------

  lemma {:induction false} PollsMoveForward(clock: Timeval, from: Timeval, events: seq<Event>)
    requires Clocked(clock, events) && !Before(clock, from)
    ensures !Before(LastPoll(from, events), from)
    decreases |events|
  {
    if events != [] {
      match events[0]
      case Call(op) => PollsMoveForward(ClockAfter(clock, op), from, events[1..]);
      case Poll(now) => PollsMoveForward(now, now, events[1..]);
    }
  }

  /** A chirp that appears during a run carries a clock reading of the run. */
  lemma {:induction false} LaterChirpLaterTime(st: State, clock: Timeval, events: seq<Event>, id: uint64)
    requires Timely(st, clock, events)
    requires id in Final(st, events).chirps && id !in st.chirps
    ensures !Before(Final(st, events).chirps[id].time, clock)
    decreases |events|
  {
    if events != [] {
      TimelyNext(st, clock, events);
      match events[0]
      case Call(op) =>
        var next := Step(st, op);
        if id in next.chirps {
          StepOnChirp(st, op, id);
          SurvivorUnchanged(next, Calls(events[1..]), id);
        } else {
          LaterChirpLaterTime(next, ClockAfter(clock, op), events[1..], id);
        }
      case Poll(now) =>
        LaterChirpLaterTime(st, now, events[1..], id);
    }
  }

  /** Whatever is delivered lies in the window that the polls together cover. */
  lemma {:induction false} DeliveredInWindow(
    st: State, watch: Watch, clock: Timeval, from: Timeval, events: seq<Event>, i: nat, id: uint64)
    requires Timely(st, clock, events) && !Before(clock, from)
    requires i < |Deliveries(st, watch, from, events)| && id in Deliveries(st, watch, from, events)[i]
    ensures id in st.chirps ==> InWindow(st.chirps[id].time, from, LastPoll(from, events))
    ensures id !in st.chirps ==> id > st.counter
    ensures id in Final(st, events).chirps ==>
              InWindow(Final(st, events).chirps[id].time, from, LastPoll(from, events))
    decreases |events|
  {
    TimelyNext(st, clock, events);
    match events[0]
    case Call(op) =>
      var next := Step(st, op);
      StepKeepsInv(st, op);
      DeliveredInWindow(next, watch, ClockAfter(clock, op), from, events[1..], i, id);
      if id in next.chirps {
        StepOnChirp(st, op, id);
      }
    case Poll(now) =>
      if i == 0 {
        PollInWindow(st, watch, from, now, id);
        PollsMoveForward(now, now, events[1..]);
        if id in Final(st, events).chirps {
          SurvivorUnchanged(st, Calls(events), id);
        }
      } else {
        DeliveredInWindow(st, watch, now, now, events[1..], i - 1, id);
      }
  }

  predicate PairwiseDisjoint(d: seq<set<uint64>>) {
    forall i, j :: 0 <= i < j < |d| ==> d[i] !! d[j]
  }

  lemma DisjointMore(first: set<uint64>, rest: seq<set<uint64>>)
    requires PairwiseDisjoint(rest) && forall j :: 0 <= j < |rest| ==> first !! rest[j]
    ensures PairwiseDisjoint([first] + rest)
  {
  }

  /** No chirp is delivered twice, deleted or not, followed throughout or not. */
  lemma {:induction false} DeliveredOnce(st: State, watch: Watch, clock: Timeval, from: Timeval, events: seq<Event>)
    requires Timely(st, clock, events) && !Before(clock, from)
    ensures PairwiseDisjoint(Deliveries(st, watch, from, events))
    decreases |events|
  {
    if events != [] {
      TimelyNext(st, clock, events);
      match events[0]
      case Call(op) =>
        DeliveredOnce(Step(st, op), watch, ClockAfter(clock, op), from, events[1..]);
      case Poll(now) =>
        match PollResult(st, watch, from, now)
        case None =>
        case Some(ids) =>
          DeliveredOnce(st, watch, now, now, events[1..]);
          NotFoundAgain(st, watch, from, now, ids, events[1..]);
          DisjointMore(ids, Deliveries(st, watch, now, events[1..]));
    }
  }

  /** What a poll finds lies before the windows of all later polls. */
  lemma NotFoundAgain(st: State, watch: Watch, from: Timeval, now: Timeval, ids: set<uint64>, events: seq<Event>)
    requires Timely(st, now, events) && PollResult(st, watch, from, now) == Some(ids)
    ensures forall j :: 0 <= j < |Deliveries(st, watch, now, events)| ==> ids !! Deliveries(st, watch, now, events)[j]
  {
    var later := Deliveries(st, watch, now, events);
    forall j, id | 0 <= j < |later| && id in later[j]
      ensures id !in ids
    {
      DeliveredInWindow(st, watch, now, now, events, j, id);
      if id in ids {
        PollInWindow(st, watch, from, now, id);
      }
    }
  }

  /** Whenever the poller looks and the chirp is live, the chirp is visible to it. */
  ghost predicate VisibleThroughout(st: State, watch: Watch, events: seq<Event>, id: uint64)
    requires Room(st, |events|)
    decreases |events|
  {
    events != [] ==>
      match events[0]
      case Call(op) =>
        StepKeepsInv(st, op);
        VisibleThroughout(Step(st, op), watch, events[1..], id)
      case Poll(_) =>
        (id in st.chirps ==> Visible(st, watch, id)) && VisibleThroughout(st, watch, events[1..], id)
  }

  lemma {:induction false} SurvivorsDelivered(
    st: State, watch: Watch, clock: Timeval, from: Timeval, events: seq<Event>, id: uint64) returns (i: nat)
    requires Watchable(st, watch, clock, events) && !Before(clock, from)
    requires id in Final(st, events).chirps && VisibleThroughout(st, watch, events, id)
    requires InWindow(Final(st, events).chirps[id].time, from, LastPoll(from, events))
    ensures i < |Deliveries(st, watch, from, events)| && id in Deliveries(st, watch, from, events)[i]
    decreases |events|
  {
    WatchableNext(st, watch, clock, events);
    match events[0]
    case Call(op) =>
      i := SurvivorsDelivered(Step(st, op), watch, ClockAfter(clock, op), from, events[1..], id);
    case Poll(now) =>
      PollReturnsDue(st, watch, from, now, clock);
      if Before(Final(st, events).chirps[id].time, now) {
        if id !in st.chirps {
          LaterChirpLaterTime(st, now, events[1..], id);
          assert false;
        }
        SurvivorUnchanged(st, Calls(events), id);
        i := 0;
      } else {
        i := SurvivorsDelivered(st, watch, now, now, events[1..], id);
        i := i + 1;
      }
  }

  predicate Delivered(d: seq<set<uint64>>, id: uint64) {
    exists i :: 0 <= i < |d| && id in d[i]
  }

  /** A run of polls delivers a surviving chirp that is visible throughout exactly when its time t
      satisfies start <= t < last poll... */
  lemma DeliveredIff(st: State, watch: Watch, clock: Timeval, start: Timeval, events: seq<Event>, id: uint64)
    requires Watchable(st, watch, clock, events) && !Before(clock, start)
    requires id in Final(st, events).chirps && VisibleThroughout(st, watch, events, id)
    ensures Delivered(Deliveries(st, watch, start, events), id) <==>
            InWindow(Final(st, events).chirps[id].time, start, LastPoll(start, events))
  {
    var d := Deliveries(st, watch, start, events);
    if InWindow(Final(st, events).chirps[id].time, start, LastPoll(start, events)) {
      var i := SurvivorsDelivered(st, watch, clock, start, events, id);
    }
    if i :| 0 <= i < |d| && id in d[i] {
      DeliveredInWindow(st, watch, clock, start, events, i, id);
    }
  }

  /** ... and then exactly once. */
  lemma ExactlyOnce(st: State, watch: Watch, clock: Timeval, start: Timeval, events: seq<Event>, id: uint64)
    requires Watchable(st, watch, clock, events) && !Before(clock, start)
    requires id in Final(st, events).chirps && VisibleThroughout(st, watch, events, id)
    ensures var d := Deliveries(st, watch, start, events);
            if InWindow(Final(st, events).chirps[id].time, start, LastPoll(start, events))
            then exists i :: 0 <= i < |d| && id in d[i] && forall j :: 0 <= j < |d| && id in d[j] ==> j == i
            else forall i :: 0 <= i < |d| ==> id !in d[i]
  {
    var d := Deliveries(st, watch, start, events);
    DeliveredIff(st, watch, clock, start, events, id);
    DeliveredOnce(st, watch, clock, start, events);
  }

  /** Every poll is answered. */
  lemma {:induction false} NoPollAborts(st: State, watch: Watch, clock: Timeval, from: Timeval, events: seq<Event>)
    requires Watchable(st, watch, clock, events)
    ensures |Deliveries(st, watch, from, events)| == PollCount(events)
    decreases |events|
  {
    if events != [] {
      WatchableNext(st, watch, clock, events);
      match events[0]
      case Call(op) => NoPollAborts(Step(st, op), watch, ClockAfter(clock, op), from, events[1..]);
      case Poll(now) =>
        PollReturnsDue(st, watch, from, now, clock);
        NoPollAborts(st, watch, now, now, events[1..]);
    }
  }

  // ---------- streaming a tag, end to end ----------

  lemma {:induction false} CallsAreRpc(events: seq<Event>)
    requires RpcEvents(events)
    ensures AllRpc(Calls(events))
  {
    if events != [] {
      CallsAreRpc(events[1..]);
    }
  }

  lemma {:induction false} TaggedVisibleThroughout(
    st: State, tag: Bytes, clock: Timeval, events: seq<Event>, id: uint64)
    requires Watchable(st, Tagged(tag), clock, events)
    requires id in Final(st, events).chirps && HasTag(Final(st, events).chirps[id].text, tag)
    ensures VisibleThroughout(st, Tagged(tag), events, id)
    decreases |events|
  {
    if events != [] {
      WatchableNext(st, Tagged(tag), clock, events);
      match events[0]
      case Call(op) => TaggedVisibleThroughout(Step(st, op), tag, ClockAfter(clock, op), events[1..], id);
      case Poll(now) =>
        TaggedVisibleThroughout(st, tag, now, events[1..], id);
        if id in st.chirps {
          CallsAreRpc(events);
          SurvivorUnchanged(st, Calls(events), id);
        }
    }
  }

  lemma {:induction false} DeliveredIsTagged(
    st: State, tag: Bytes, clock: Timeval, from: Timeval, events: seq<Event>, i: nat, id: uint64)
    requires Watchable(st, Tagged(tag), clock, events)
    requires i < |Deliveries(st, Tagged(tag), from, events)| && id in Deliveries(st, Tagged(tag), from, events)[i]
    ensures id in Final(st, events).chirps && HasTag(Final(st, events).chirps[id].text, tag)
    decreases |events|
  {
    WatchableNext(st, Tagged(tag), clock, events);
    match events[0]
    case Call(op) => DeliveredIsTagged(Step(st, op), tag, ClockAfter(clock, op), from, events[1..], i, id);
    case Poll(now) =>
      PollReturnsDue(st, Tagged(tag), from, now, clock);
      if i > 0 {
        DeliveredIsTagged(st, tag, now, now, events[1..], i - 1, id);
      } else {
        CallsAreRpc(events);
        RpcRunKeepsChirps(st, Calls(events), id);
        SurvivorUnchanged(st, Calls(events), id);
      }
  }

  // ---------- opening a poller ----------

  function ClockAfterAll(clock: Timeval, ops: seq<Op>): Timeval
    decreases |ops|
  {
    if ops == [] then clock else ClockAfterAll(ClockAfter(clock, ops[0]), ops[1..])
  }

  ghost predicate ClockedCalls(clock: Timeval, ops: seq<Op>)
    decreases |ops|
  {
    ops != [] ==> !Before(ClockAfter(clock, ops[0]), clock) && ClockedCalls(ClockAfter(clock, ops[0]), ops[1..])
  }

  /** After the calls in `earlier` a poller is opened at a clock reading `opening`, with a window that
      begins at `start`; the handlers begin it at that same reading. */
  ghost predicate OpenedAt(clock: Timeval, earlier: seq<Op>, opening: Timeval, start: Timeval) {
    && ClockedCalls(clock, earlier)
    && !Before(opening, ClockAfterAll(clock, earlier))
    && !Before(opening, start)
  }

  lemma {:induction false} RunKeepsTimeOk(st: State, clock: Timeval, ops: seq<Op>)
    requires Room(st, |ops|) && TimeOk(st, clock) && ClockedCalls(clock, ops)
    ensures TimeOk(Run(st, ops), ClockAfterAll(clock, ops))
    decreases |ops|
  {
    if ops != [] {
      StepKeepsInv(st, ops[0]);
      StepKeepsTimeOk(st, ops[0], clock);
      RunKeepsTimeOk(Step(st, ops[0]), ClockAfter(clock, ops[0]), ops[1..]);
    }
  }

  /** A poller opened after any calls on the empty store meets what the lemmas above ask for. */
  lemma OpenedTimely(clock: Timeval, earlier: seq<Op>, opening: Timeval, start: Timeval, events: seq<Event>)
    requires |earlier| + |events| < UINT64_LIMIT
    requires OpenedAt(clock, earlier, opening, start) && Clocked(opening, events)
    ensures Room(INITIAL, |earlier|) && Timely(Run(INITIAL, earlier), opening, events)
    ensures AllRpc(earlier) ==> TagsAgree(Run(INITIAL, earlier))
  {
    InitialTagsAgree();
    RunKeepsTimeOk(INITIAL, clock, earlier);
    if AllRpc(earlier) {
      RpcRunKeepsTagsAgree(INITIAL, earlier);
    }
  }

  /** The tag that the stream command sends for its argument: all but the first character. */
  function StreamCommandTag(arg: Bytes): Option<Bytes> {
    if arg == [] then None else Some(arg[1..])
  }

  lemma TaggedDeliveredIff(st: State, t: Bytes, clock: Timeval, start: Timeval, events: seq<Event>, id: uint64)
    requires Watchable(st, Tagged(t), clock, events) && !Before(clock, start)
    ensures var d := Deliveries(st, Tagged(t), start, events);
            var end := Final(st, events);
            Delivered(d, id) <==>
              id in end.chirps && HasTag(end.chirps[id].text, t)
              && InWindow(end.chirps[id].time, start, LastPoll(start, events))
  {
    var d := Deliveries(st, Tagged(t), start, events);
    if i :| 0 <= i < |d| && id in d[i] {
      DeliveredIsTagged(st, t, clock, start, events, i, id);
      DeliveredInWindow(st, Tagged(t), clock, start, events, i, id);
    }
    if id in Final(st, events).chirps && HasTag(Final(st, events).chirps[id].text, t) {
      TaggedVisibleThroughout(st, t, clock, events, id);
      DeliveredIff(st, Tagged(t), clock, start, events, id);
    }
  }

  /** From the empty store, over any run of the RPC surface: whoever streams "#t" from `start` on is
      delivered every chirp that has tag t and a time in start <= time < last poll, once, and nothing
      else; no poll aborts. */
  lemma StreamEndToEnd(
    clock: Timeval, t: Bytes, earlier: seq<Op>, opening: Timeval, start: Timeval, events: seq<Event>)
    requires |earlier| + |events| < UINT64_LIMIT && AllRpc(earlier) && RpcEvents(events)
    requires OpenedAt(clock, earlier, opening, start) && Clocked(opening, events)
    ensures Room(INITIAL, |earlier|) && Room(Run(INITIAL, earlier), |events|)
    ensures StreamCommandTag([HASH] + t) == Some(t)
    ensures var st := Run(INITIAL, earlier);
            var d := Deliveries(st, Tagged(t), start, events);
            var end := Final(st, events);
            && |d| == PollCount(events)
            && (forall id :: Delivered(d, id) <==>
                  id in end.chirps && HasTag(end.chirps[id].text, t)
                  && InWindow(end.chirps[id].time, start, LastPoll(start, events)))
            && PairwiseDisjoint(d)
  {
    OpenedTimely(clock, earlier, opening, start, events);
    var st := Run(INITIAL, earlier);
    NoPollAborts(st, Tagged(t), opening, start, events);
    forall id
      ensures Delivered(Deliveries(st, Tagged(t), start, events), id) <==>
                id in Final(st, events).chirps && HasTag(Final(st, events).chirps[id].text, t)
                && InWindow(Final(st, events).chirps[id].time, start, LastPoll(start, events))
    {
      TaggedDeliveredIff(st, t, opening, start, events, id);
    }
    DeliveredOnce(st, Tagged(t), opening, start, events);
    assert ([HASH] + t)[1..] == t;
  }

  // ---------- streaming a tag under the full API ----------

  /** The reading of the last poll that is answered. */
  ghost function AnsweredUntil(st: State, watch: Watch, from: Timeval, events: seq<Event>): Timeval
    requires Room(st, |events|)
    decreases |events|
  {
    if events == [] then from else
    match events[0]
    case Call(op) =>
      StepKeepsInv(st, op);
      AnsweredUntil(Step(st, op), watch, from, events[1..])
    case Poll(now) =>
      if PollResult(st, watch, from, now).None? then from else AnsweredUntil(st, watch, now, events[1..])
  }

  /** The ids of the successful posts in a window of time whose text, as posted, had tag t. */
  ghost function TaggedPosts(st: State, events: seq<Event>, t: Bytes, from: Timeval, upto: Timeval): set<uint64>
    requires Room(st, |events|)
    decreases |events|
  {
    if events == [] then {} else
    match events[0]
    case Call(op) =>
      StepKeepsInv(st, op);
      TaggedPostIn(st, op, t, from, upto) + TaggedPosts(Step(st, op), events[1..], t, from, upto)
    case Poll(_) => TaggedPosts(st, events[1..], t, from, upto)
  }

  ghost function TaggedPostIn(st: State, op: Op, t: Bytes, from: Timeval, upto: Timeval): set<uint64>
    requires Inv(st) && st.counter < UINT64_LIMIT - 1
  {
    if op.Post? && InWindow(op.now, from, upto) then PostedByStep(st, op, t) else {}
  }

  lemma {:induction false} EmptyWindowNoPosts(st: State, events: seq<Event>, t: Bytes, from: Timeval)
    requires Room(st, |events|)
    ensures TaggedPosts(st, events, t, from, from) == {}
    decreases |events|
  {
    if events != [] {
      match events[0]
      case Call(op) =>
        StepKeepsInv(st, op);
        EmptyWindowNoPosts(Step(st, op), events[1..], t, from);
      case Poll(_) => EmptyWindowNoPosts(st, events[1..], t, from);
    }
  }

  /** Posts of a run are no older than its beginning, so the window may begin there. */
  lemma {:induction false} PostsAreLater(
    st: State, clock: Timeval, events: seq<Event>, t: Bytes, from: Timeval, now: Timeval, upto: Timeval)
    requires Room(st, |events|) && Clocked(clock, events) && !Before(clock, now) && !Before(now, from)
    ensures TaggedPosts(st, events, t, from, upto) == TaggedPosts(st, events, t, now, upto)
    decreases |events|
  {
    if events != [] {
      match events[0]
      case Call(op) =>
        StepKeepsInv(st, op);
        PostsAreLater(Step(st, op), ClockAfter(clock, op), events[1..], t, from, now, upto);
      case Poll(later) => PostsAreLater(st, later, events[1..], t, from, now, upto);
    }
  }

  lemma {:induction false} AnswersMoveForward(
    st: State, watch: Watch, clock: Timeval, from: Timeval, events: seq<Event>)
    requires Room(st, |events|) && Clocked(clock, events) && !Before(clock, from)
    ensures !Before(AnsweredUntil(st, watch, from, events), from)
    decreases |events|
  {
    if events != [] {
      match events[0]
      case Call(op) =>
        StepKeepsInv(st, op);
        AnswersMoveForward(Step(st, op), watch, ClockAfter(clock, op), from, events[1..]);
      case Poll(now) =>
        if PollResult(st, watch, from, now).Some? {
          AnswersMoveForward(st, watch, now, now, events[1..]);
        }
    }
  }

  /** A chirp that is indexed but not live makes every later poll of its tag abort. */
  lemma {:induction false} DeadIndexedAborts(st: State, t: Bytes, from: Timeval, events: seq<Event>, id: uint64)
    requires Room(st, |events|) && id in TagList(st.tags, t) && id !in st.chirps
    ensures Deliveries(st, Tagged(t), from, events) == [] && AnsweredUntil(st, Tagged(t), from, events) == from
    decreases |events|
  {
    if events != [] && events[0].Call? {
      var op := events[0].op;
      StepKeepsInv(st, op);
      TagIndexStep(st, op, t);
      if id in Step(st, op).chirps {
        StepOnChirp(st, op, id);
      }
      DeadIndexedAborts(Step(st, op), t, from, events[1..], id);
    }
  }

  /** An indexed chirp with a time in the window. */
  ghost predicate IndexedIn(st: State, t: Bytes, id: uint64, from: Timeval, upto: Timeval) {
    id in TagList(st.tags, t) && ChirpInWindow(st, id, from, upto)
  }

  lemma IndexedAfterStep(st: State, op: Op, t: Bytes, id: uint64, from: Timeval, upto: Timeval)
    requires Inv(st) && st.counter < UINT64_LIMIT - 1
    requires id in TagList(st.tags, t) && id in st.chirps ==> id in Step(st, op).chirps
    ensures IndexedIn(Step(st, op), t, id, from, upto) <==>
              IndexedIn(st, t, id, from, upto) || id in TaggedPostIn(st, op, t, from, upto)
  {
    TagIndexStep(st, op, t);
    if id in Step(st, op).chirps {
      StepOnChirp(st, op, id);
    }
    if op.Post? && ReplyOf(st, op) == Posted(OK, Some(st.counter + 1)) {
      PostedIdIsFresh(st, op.user, op.text, op.parentId, op.now);
    }
  }

  /** Over any run of the full API: up to the first poll that aborts, a stream is delivered exactly the
      chirps filed under its tag at the start and the successful posts whose original text had the tag,
      in the window from its start to the last answered poll. Edits do not matter, and deletions only
      by making a poll abort. */
  lemma {:induction false} StreamIsHistory(
    st: State, t: Bytes, clock: Timeval, from: Timeval, events: seq<Event>, id: uint64)
    requires Timely(st, clock, events) && !Before(clock, from)
    ensures var upto := AnsweredUntil(st, Tagged(t), from, events);
            Delivered(Deliveries(st, Tagged(t), from, events), id) <==>
              IndexedIn(st, t, id, from, upto) || id in TaggedPosts(st, events, t, from, upto)
    decreases |events|
  {
    if events != [] {
      TimelyNext(st, clock, events);
      match events[0]
      case Call(op) =>
        var next := Step(st, op);
        StreamIsHistory(next, t, ClockAfter(clock, op), from, events[1..], id);
        if id in TagList(st.tags, t) && id in st.chirps && id !in next.chirps {
          TagIndexStep(st, op, t);
          DeadIndexedAborts(next, t, from, events[1..], id);
          EmptyWindowNoPosts(st, events, t, from);
        } else {
          IndexedAfterStep(st, op, t, id, from, AnsweredUntil(next, Tagged(t), from, events[1..]));
        }
      case Poll(now) =>
        if PollResult(st, Tagged(t), from, now).None? {
          EmptyWindowNoPosts(st, events, t, from);
        } else {
          StreamIsHistory(st, t, now, now, events[1..], id);
          AnsweredPoll(st, t, clock, from, events, id);
        }
    }
  }

  lemma DeliveredMore(first: set<uint64>, rest: seq<set<uint64>>, id: uint64)
    ensures Delivered([first] + rest, id) <==> id in first || Delivered(rest, id)
  {
    var d := [first] + rest;
    if i :| 0 <= i < |rest| && id in rest[i] {
      assert d[i + 1] == rest[i];
    }
    if id in first {
      assert d[0] == first;
    }
  }

  lemma AnsweredPoll(st: State, t: Bytes, clock: Timeval, from: Timeval, events: seq<Event>, id: uint64)
    requires Timely(st, clock, events) && !Before(clock, from)
    requires events != [] && events[0].Poll? && PollResult(st, Tagged(t), from, events[0].now).Some?
    requires var now := events[0].now;
             var upto := AnsweredUntil(st, Tagged(t), now, events[1..]);
             Delivered(Deliveries(st, Tagged(t), now, events[1..]), id) <==>
               IndexedIn(st, t, id, now, upto) || id in TaggedPosts(st, events[1..], t, now, upto)
    ensures var upto := AnsweredUntil(st, Tagged(t), from, events);
            Delivered(Deliveries(st, Tagged(t), from, events), id) <==>
              IndexedIn(st, t, id, from, upto) || id in TaggedPosts(st, events, t, from, upto)
  {
    var now := events[0].now;
    var upto := AnsweredUntil(st, Tagged(t), now, events[1..]);
    var ids := PollResult(st, Tagged(t), from, now).value;
    DeliveredMore(ids, Deliveries(st, Tagged(t), now, events[1..]), id);
    AnswersMoveForward(st, Tagged(t), now, now, events[1..]);
    PostsAreLater(st, now, events[1..], t, from, now, upto);
    assert id in ids <==> IndexedIn(st, t, id, from, now);
  }

  /** From the empty store, over any run of the full API: a stream of t from `start` on is delivered,
      once each, exactly the chirps posted with the tag at a time in start <= time < last answered
      poll, earlier posts as far as they are still live at the opening. */
  lemma StreamHistoryEndToEnd(
    clock: Timeval, t: Bytes, earlier: seq<Op>, opening: Timeval, start: Timeval, events: seq<Event>)
    requires |earlier| + |events| < UINT64_LIMIT
    requires OpenedAt(clock, earlier, opening, start) && Clocked(opening, events)
    ensures Room(INITIAL, |earlier|) && Room(Run(INITIAL, earlier), |events|)
    ensures var st := Run(INITIAL, earlier);
            var d := Deliveries(st, Tagged(t), start, events);
            var upto := AnsweredUntil(st, Tagged(t), start, events);
            && (forall id :: Delivered(d, id) <==>
                  || (id in PostedWithTag(INITIAL, earlier, t) && ChirpInWindow(st, id, start, upto))
                  || id in TaggedPosts(st, events, t, start, upto))
            && PairwiseDisjoint(d)
  {
    OpenedTimely(clock, earlier, opening, start, events);
    var st := Run(INITIAL, earlier);
    TagIndexIsHistory(INITIAL, earlier, t);
    assert TagList(st.tags, t) == PostedWithTag(INITIAL, earlier, t);
    forall id {
      StreamIsHistory(st, t, opening, start, events, id);
    }
    DeliveredOnce(st, Tagged(t), opening, start, events);
  }
}
