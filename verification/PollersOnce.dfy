/** What the polling RPCs write over a whole run: each chirp that is owed, once. */
module PollersOnce {
  import opened Primitives
  import opened Records
  import opened Tags
  import opened Model
  import opened Threads
  import opened Runs
  import opened Delivery
  import opened Pollers
  import opened Messages
  import opened History

  // ---------- rounds as runs ----------

  lemma {:induction false} ThroughCalls(st: State, watch: Watch, from: Timeval, ops: seq<Op>, rest: seq<Event>)
    requires Room(st, |ops| + |rest|)
    ensures Room(Run(st, ops), |rest|) && |AsCalls(ops) + rest| == |ops| + |rest|
    ensures Deliveries(st, watch, from, AsCalls(ops) + rest) == Deliveries(Run(st, ops), watch, from, rest)
    ensures Final(st, AsCalls(ops) + rest) == Final(Run(st, ops), rest)
    decreases |ops|
  {
    var all := AsCalls(ops) + rest;
    if ops == [] {
      assert all == rest;
    } else {
      assert all[0] == Call(ops[0]) && all[1..] == AsCalls(ops[1..]) + rest;
      StepKeepsInv(st, ops[0]);
      ThroughCalls(Step(st, ops[0]), watch, from, ops[1..], rest);
      FinalThroughCall(st, all);
    }
  }

  lemma FinalThroughCall(st: State, events: seq<Event>)
    requires Room(st, |events|) && events != [] && events[0].Call?
    ensures st.counter < UINT64_LIMIT - 1 && Room(Step(st, events[0].op), |events| - 1)
    ensures Final(st, events) == Final(Step(st, events[0].op), events[1..])
  {
    StepKeepsInv(st, events[0].op);
    assert Calls(events) == [events[0].op] + Calls(events[1..]);
    assert Calls(events)[1..] == Calls(events[1..]);
  }

  lemma {:induction false} TimelyThroughCalls(st: State, clock: Timeval, ops: seq<Op>, rest: seq<Event>)
    returns (later: Timeval)
    requires Timely(st, clock, AsCalls(ops) + rest)
    ensures Room(st, |ops|) && Timely(Run(st, ops), later, rest) && !Before(later, clock)
    decreases |ops|
  {
    var all := AsCalls(ops) + rest;
    if ops == [] {
      assert all == rest;
      later := clock;
    } else {
      assert all[0] == Call(ops[0]) && all[1..] == AsCalls(ops[1..]) + rest;
      TimelyNext(st, clock, all);
      later := TimelyThroughCalls(Step(st, ops[0]), ClockAfter(clock, ops[0]), ops[1..], rest);
    }
  }

  /** What was live before some calls and survives the rest of the run is live in between. */
  lemma SurvivorsThere(st: State, ops: seq<Op>, rest: seq<Event>)
    requires Room(st, |ops| + |rest|)
    ensures forall id :: id in st.chirps && id in Final(Run(st, ops), rest).chirps ==> id in Run(st, ops).chirps
  {
    forall id | id in st.chirps && id !in Run(st, ops).chirps
      ensures id !in Final(Run(st, ops), rest).chirps
    {
      DeadStaysDead(Run(st, ops), Calls(rest), id);
    }
  }

  // ---------- ids of what is written ----------

  predicate NoneTwice(served: seq<GrpcChirp>) {
    forall i, j :: 0 <= i < j < |served| ==> served[i].id != served[j].id
  }

  predicate Written(served: seq<GrpcChirp>, id: uint64) {
    exists i :: 0 <= i < |served| && Names(served[i], id)
  }

  /** Every view is of one of the ids that are read again... */
  lemma RereadHasId(st: State, ids: seq<uint64>, between: seq<seq<Op>>, i: nat) returns (id: uint64)
    requires Room(st, |Flatten(between)|) && i < |RereadViews(st, ids, between)|
    ensures id in ids && Names(RereadViews(st, ids, between)[i], id)
  {
    var mid, after;
    mid, after, id := RereadMoment(st, ids, between, RereadViews(st, ids, between)[i]);
  }

  predicate Ascending(views: seq<GrpcChirp>) {
    forall i, j, a, b :: 0 <= i < j < |views| && Names(views[i], a) && Names(views[j], b) ==> a < b
  }

  /** ... they come in ascending order of the ids... */
  lemma {:induction false} RereadAscending(st: State, ids: seq<uint64>, between: seq<seq<Op>>)
    requires Room(st, |Flatten(between)|)
    requires forall a, b :: 0 <= a < b < |ids| ==> ids[a] < ids[b]
    ensures Ascending(RereadViews(st, ids, between))
    decreases |ids|
  {
    if ids != [] {
      var next := Run(st, Head(between));
      var later := RereadViews(next, ids[1..], Tail(between));
      RereadAscending(next, ids[1..], Tail(between));
      if ids[0] in next.chirps {
        forall j, b | 0 <= j < |later| && Names(later[j], b)
          ensures ids[0] < b
        {
          var id := RereadHasId(next, ids[1..], Tail(between), j);
          NamesOne(later[j], b, id);
        }
        ViewCarries(next, ids[0]);
        AscendingMore(ViewOf(next, ids[0])[0], later, ids[0]);
      }
      assert RereadViews(st, ids, between) == ViewOf(next, ids[0]) + later;
    }
  }

  lemma AscendingMore(view: GrpcChirp, later: seq<GrpcChirp>, id: uint64)
    requires Names(view, id) && Ascending(later)
    requires forall j, b :: 0 <= j < |later| && Names(later[j], b) ==> id < b
    ensures Ascending([view] + later)
  {
    var views := [view] + later;
    forall i, j, a, b | 0 <= i < j < |views| && Names(views[i], a) && Names(views[j], b)
      ensures a < b
    {
      if i == 0 {
        NamesOne(view, a, id);
      }
    }
  }

  lemma RereadDistinct(st: State, ids: seq<uint64>, between: seq<seq<Op>>)
    requires Room(st, |Flatten(between)|)
    requires forall a, b :: 0 <= a < b < |ids| ==> ids[a] < ids[b]
    ensures NoneTwice(RereadViews(st, ids, between))
  {
    var views := RereadViews(st, ids, between);
    RereadAscending(st, ids, between);
    forall i, j | 0 <= i < j < |views|
      ensures views[i].id != views[j].id
    {
      var a := RereadHasId(st, ids, between, i);
      if views[i].id == views[j].id {
        assert Names(views[i], a) && Names(views[j], a);
      }
    }
  }

  /** ... and whatever is live when all is done has been live when it was read again. */
  lemma {:induction false} SurvivorReread(st: State, ids: seq<uint64>, between: seq<seq<Op>>, id: uint64)
    returns (i: nat)
    requires Room(st, |Flatten(between)|) && id in ids && id <= st.counter
    requires id in Run(st, Flatten(between)).chirps
    ensures i < |RereadViews(st, ids, between)| && Names(RereadViews(st, ids, between)[i], id)
    decreases |ids|
  {
    var next := Run(st, Head(between));
    RunConcat(st, Head(between), Flatten(Tail(between)));
    if ids[0] == id {
      if id !in next.chirps {
        DeadStaysDead(next, Flatten(Tail(between)), id);
      }
      i := 0;
    } else {
      i := SurvivorReread(next, ids[1..], Tail(between), id);
      i := i + |ViewOf(next, ids[0])|;
    }
  }

  // ---------- polling as a list of turns ----------

  /** One turn: what the poll found, and what was then written of it. */
  datatype Turn = Turn(ids: set<uint64>, views: seq<GrpcChirp>)

  predicate NamesOneOf(g: GrpcChirp, ids: set<uint64>) {
    exists id :: id in ids && Names(g, id)
  }

  /** Only what was found is written, and none of it twice. */
  ghost predicate TurnOk(turn: Turn) {
    && (forall i :: 0 <= i < |turn.views| ==> NamesOneOf(turn.views[i], turn.ids))
    && NoneTwice(turn.views)
  }

  lemma RereadTurnOk(st: State, ids: set<uint64>, between: seq<seq<Op>>)
    requires Room(st, |Flatten(between)|)
    ensures TurnOk(Turn(ids, RereadViews(st, Sorted(ids), between)))
  {
    var views := RereadViews(st, Sorted(ids), between);
    forall i | 0 <= i < |views|
      ensures NamesOneOf(views[i], ids)
    {
      var id := RereadHasId(st, Sorted(ids), between, i);
      assert id in ids;
    }
    RereadDistinct(st, Sorted(ids), between);
  }

  function ViewsOf(turns: seq<Turn>): seq<GrpcChirp> {
    if turns == [] then [] else turns[0].views + ViewsOf(turns[1..])
  }

  function IdsOf(turns: seq<Turn>): seq<set<uint64>> {
    if turns == [] then [] else [turns[0].ids] + IdsOf(turns[1..])
  }

  lemma {:induction false} IdsOfAt(turns: seq<Turn>, k: nat)
    requires k < |turns|
    ensures |IdsOf(turns)| == |turns| && IdsOf(turns)[k] == turns[k].ids
  {
    if k > 0 {
      IdsOfAt(turns[1..], k - 1);
    } else if |turns| > 1 {
      IdsOfAt(turns[1..], 0);
    }
  }

  ghost predicate TurnsOk(turns: seq<Turn>) {
    forall k :: 0 <= k < |turns| ==> TurnOk(turns[k])
  }

  lemma {:induction false} ViewWasFound(turns: seq<Turn>, i: nat) returns (k: nat, id: uint64)
    requires TurnsOk(turns) && i < |ViewsOf(turns)|
    ensures k < |turns| && id in turns[k].ids && Names(ViewsOf(turns)[i], id)
  {
    var views := turns[0].views;
    if i < |views| {
      assert TurnOk(turns[0]) && NamesOneOf(views[i], turns[0].ids);
      k := 0;
      id :| id in turns[0].ids && Names(views[i], id);
    } else {
      k, id := ViewWasFound(turns[1..], i - |views|);
      k := k + 1;
    }
  }

  lemma {:induction false} FoundHasView(turns: seq<Turn>, k: nat, id: uint64) returns (i: nat)
    requires k < |turns| && Written(turns[k].views, id)
    ensures i < |ViewsOf(turns)| && Names(ViewsOf(turns)[i], id)
  {
    if k == 0 {
      i :| 0 <= i < |turns[0].views| && Names(turns[0].views[i], id);
    } else {
      i := FoundHasView(turns[1..], k - 1, id);
      i := i + |turns[0].views|;
    }
  }

  lemma {:induction false} ViewsOnce(turns: seq<Turn>, i: nat, j: nat)
    requires TurnsOk(turns) && i < j < |ViewsOf(turns)|
    requires forall k, l :: 0 <= k < l < |turns| ==> turns[k].ids !! turns[l].ids
    ensures ViewsOf(turns)[i].id != ViewsOf(turns)[j].id
  {
    var views := turns[0].views;
    assert TurnOk(turns[0]);
    if i >= |views| {
      ViewsOnce(turns[1..], i - |views|, j - |views|);
    } else if j >= |views| {
      assert NamesOneOf(views[i], turns[0].ids);
      var a :| a in turns[0].ids && Names(views[i], a);
      var k, b := ViewWasFound(turns[1..], j - |views|);
      assert turns[0].ids !! turns[k + 1].ids;
      if ViewsOf(turns)[i].id == ViewsOf(turns)[j].id {
        NamesOne(views[i], a, b);
      }
    }
  }

  /** The turns account for the deliveries and for what is written, and every chirp found and still
      live in the end has been written. */
  ghost predicate Account(turns: seq<Turn>, deliveries: seq<set<uint64>>, served: seq<GrpcChirp>, end: State) {
    && TurnsOk(turns)
    && IdsOf(turns) == deliveries
    && ViewsOf(turns) == served
    && forall k, id :: 0 <= k < |turns| && id in turns[k].ids && id in end.chirps ==> Written(turns[k].views, id)
  }

  lemma AccountMore(turn: Turn, rest: seq<Turn>, deliveries: seq<set<uint64>>, served: seq<GrpcChirp>, end: State)
    requires Account(rest, deliveries, served, end) && TurnOk(turn)
    requires forall id :: id in turn.ids && id in end.chirps ==> Written(turn.views, id)
    ensures Account([turn] + rest, [turn.ids] + deliveries, turn.views + served, end)
  {
    assert ([turn] + rest)[1..] == rest;
  }

  /** The turns of a run of rounds, up to the first poll that aborts. */
  lemma {:induction false} TurnsOf(st: State, watch: Watch, clock: Timeval, from: Timeval, rounds: seq<Round>)
    returns (turns: seq<Turn>)
    requires Timely(st, clock, EventsOf(rounds))
    ensures Account(turns, Deliveries(st, watch, from, EventsOf(rounds)), Served(st, watch, from, rounds),
                    Final(st, EventsOf(rounds)))
    decreases |rounds|
  {
    turns := [];
    if rounds != [] {
      var polled, atPoll := ReachPoll(st, watch, clock, from, rounds);
      if PollResult(polled, watch, from, rounds[0].now).Some? {
        var next, turn, later := FirstTurn(st, polled, watch, atPoll, from, rounds);
        var rest := TurnsOf(next, watch, later, rounds[0].now, rounds[1..]);
        AccountMore(turn, rest, Deliveries(next, watch, rounds[0].now, EventsOf(rounds[1..])),
                    Served(next, watch, rounds[0].now, rounds[1..]), Final(st, EventsOf(rounds)));
        turns := [turn] + rest;
      }
    }
  }

  lemma FirstTurn(st: State, polled: State, watch: Watch, atPoll: Timeval, from: Timeval, rounds: seq<Round>)
    returns (next: State, turn: Turn, later: Timeval)
    requires rounds != [] && Room(st, |EventsOf(rounds)|) && polled == Run(st, rounds[0].before)
    requires Timely(polled, atPoll, FromPoll(rounds))
    requires Final(st, EventsOf(rounds)) == Final(polled, FromPoll(rounds))
    requires Deliveries(st, watch, from, EventsOf(rounds)) == Deliveries(polled, watch, from, FromPoll(rounds))
    requires PollResult(polled, watch, from, rounds[0].now).Some?
    ensures TurnOk(turn) && Timely(next, later, EventsOf(rounds[1..]))
    ensures Deliveries(st, watch, from, EventsOf(rounds)) ==
            [turn.ids] + Deliveries(next, watch, rounds[0].now, EventsOf(rounds[1..]))
    ensures Served(st, watch, from, rounds) == turn.views + Served(next, watch, rounds[0].now, rounds[1..])
    ensures Final(st, EventsOf(rounds)) == Final(next, EventsOf(rounds[1..]))
    ensures forall id :: id in turn.ids && id in Final(st, EventsOf(rounds)).chirps ==> Written(turn.views, id)
  {
    var ids;
    ids, later := LeavePoll(polled, watch, atPoll, from, rounds);
    next := Run(polled, AfterPoll(rounds[0]));
    turn := Turn(ids, RereadViews(polled, Sorted(ids), rounds[0].between));
    RereadTurnOk(polled, ids, rounds[0].between);
    FoundAndLiveIsWritten(polled, ids, rounds[0].between, Final(next, EventsOf(rounds[1..])));
    ServedFirst(st, polled, watch, from, rounds, ids);
  }

  lemma ServedFirst(st: State, polled: State, watch: Watch, from: Timeval, rounds: seq<Round>, ids: set<uint64>)
    requires rounds != [] && Room(st, |EventsOf(rounds)|) && polled == Run(st, rounds[0].before)
    requires PollResult(polled, watch, from, rounds[0].now) == Some(ids)
    ensures Room(polled, |AfterPoll(rounds[0])|)
    ensures Room(Run(polled, AfterPoll(rounds[0])), |EventsOf(rounds[1..])|)
    ensures Served(st, watch, from, rounds) ==
            RereadViews(polled, Sorted(ids), rounds[0].between)
            + Served(Run(polled, AfterPoll(rounds[0])), watch, rounds[0].now, rounds[1..])
  {
    ServedRound(st, watch, from, rounds);
  }

  lemma FoundAndLiveIsWritten(polled: State, ids: set<uint64>, between: seq<seq<Op>>, end: State)
    requires Room(polled, |Flatten(between)|)
    requires forall id :: id in ids ==> id <= polled.counter
    requires forall id :: id in ids && id in end.chirps ==> id in Run(polled, Flatten(between)).chirps
    ensures forall id :: id in ids && id in end.chirps ==> Written(RereadViews(polled, Sorted(ids), between), id)
  {
    forall id | id in ids && id in end.chirps
      ensures Written(RereadViews(polled, Sorted(ids), between), id)
    {
      var i := SurvivorReread(polled, Sorted(ids), between, id);
    }
  }

  /** The run from the first poll on. */
  function FromPoll(rounds: seq<Round>): (events: seq<Event>)
    requires rounds != []
    ensures events != [] && events[0] == Poll(rounds[0].now)
    ensures events[1..] == AsCalls(AfterPoll(rounds[0])) + EventsOf(rounds[1..])
  {
    [Poll(rounds[0].now)] + (AsCalls(AfterPoll(rounds[0])) + EventsOf(rounds[1..]))
  }

  lemma ReachPoll(st: State, watch: Watch, clock: Timeval, from: Timeval, rounds: seq<Round>)
    returns (polled: State, atPoll: Timeval)
    requires rounds != [] && Timely(st, clock, EventsOf(rounds))
    ensures Room(st, |rounds[0].before|) && polled == Run(st, rounds[0].before)
    ensures Timely(polled, atPoll, FromPoll(rounds))
    ensures Deliveries(st, watch, from, EventsOf(rounds)) == Deliveries(polled, watch, from, FromPoll(rounds))
    ensures Final(st, EventsOf(rounds)) == Final(polled, FromPoll(rounds))
  {
    assert EventsOf(rounds) == AsCalls(rounds[0].before) + FromPoll(rounds);
    ThroughCalls(st, watch, from, rounds[0].before, FromPoll(rounds));
    atPoll := TimelyThroughCalls(st, clock, rounds[0].before, FromPoll(rounds));
    polled := Run(st, rounds[0].before);
  }

  lemma LeavePoll(polled: State, watch: Watch, atPoll: Timeval, from: Timeval, rounds: seq<Round>)
    returns (ids: set<uint64>, later: Timeval)
    requires rounds != [] && Timely(polled, atPoll, FromPoll(rounds))
    requires PollResult(polled, watch, from, rounds[0].now).Some?
    ensures PollResult(polled, watch, from, rounds[0].now) == Some(ids)
    ensures forall id :: id in ids ==> id <= polled.counter
    ensures Room(polled, |AfterPoll(rounds[0])|)
    ensures var next, rest := Run(polled, AfterPoll(rounds[0])), EventsOf(rounds[1..]);
            && Timely(next, later, rest)
            && Deliveries(polled, watch, from, FromPoll(rounds)) == [ids] + Deliveries(next, watch, rounds[0].now, rest)
            && Final(polled, FromPoll(rounds)) == Final(next, rest)
            && forall id :: id in ids && id in Final(next, rest).chirps ==> id in next.chirps
  {
    var round, rest := rounds[0], EventsOf(rounds[1..]);
    TimelyNext(polled, atPoll, FromPoll(rounds));
    ids := PollResult(polled, watch, from, round.now).value;
    forall id | id in ids
      ensures id in polled.chirps
    {
      PollInWindow(polled, watch, from, round.now, id);
    }
    ThroughCalls(polled, watch, round.now, AfterPoll(round), rest);
    later := TimelyThroughCalls(polled, round.now, AfterPoll(round), rest);
    SurvivorsThere(polled, AfterPoll(round), rest);
  }

  // ---------- written exactly once ----------

  /** Nothing is written twice... */
  lemma ServedDistinct(st: State, watch: Watch, clock: Timeval, start: Timeval, rounds: seq<Round>)
    requires Timely(st, clock, EventsOf(rounds)) && !Before(clock, start)
    ensures NoneTwice(Served(st, watch, start, rounds))
  {
    var turns := TurnsOf(st, watch, clock, start, rounds);
    DeliveredOnce(st, watch, clock, start, EventsOf(rounds));
    forall k, l | 0 <= k < l < |turns|
      ensures turns[k].ids !! turns[l].ids
    {
      IdsOfAt(turns, k);
      IdsOfAt(turns, l);
    }
    forall i, j | 0 <= i < j < |ViewsOf(turns)|
      ensures ViewsOf(turns)[i].id != ViewsOf(turns)[j].id
    {
      ViewsOnce(turns, i, j);
    }
  }

  /** ... and a chirp that survives the run and is visible throughout is written exactly when its
      time t satisfies start <= t < last poll. */
  lemma WrittenIff(st: State, watch: Watch, clock: Timeval, start: Timeval, rounds: seq<Round>, id: uint64)
    requires Watchable(st, watch, clock, EventsOf(rounds)) && !Before(clock, start)
    requires id in Final(st, EventsOf(rounds)).chirps && VisibleThroughout(st, watch, EventsOf(rounds), id)
    ensures Written(Served(st, watch, start, rounds), id) <==>
            InWindow(Final(st, EventsOf(rounds)).chirps[id].time, start, LastPoll(start, EventsOf(rounds)))
  {
    WrittenAndDelivered(st, watch, clock, start, rounds, id);
    DeliveredIff(st, watch, clock, start, EventsOf(rounds), id);
  }

  lemma WrittenWasFound(
    turns: seq<Turn>, deliveries: seq<set<uint64>>, served: seq<GrpcChirp>, end: State, id: uint64)
    requires Account(turns, deliveries, served, end) && id in end.chirps
    ensures Written(served, id) <==> Delivered(deliveries, id)
  {
    if Written(served, id) {
      WrittenWasDelivered(turns, deliveries, served, end, id);
    }
    if k :| 0 <= k < |deliveries| && id in deliveries[k] {
      LengthsAgree(turns);
      IdsOfAt(turns, k);
      var i := FoundHasView(turns, k, id);
      assert Names(served[i], id);
    }
  }

  lemma WrittenWasDelivered(
    turns: seq<Turn>, deliveries: seq<set<uint64>>, served: seq<GrpcChirp>, end: State, id: uint64)
    requires Account(turns, deliveries, served, end) && Written(served, id)
    ensures Delivered(deliveries, id)
  {
    var i :| 0 <= i < |served| && Names(served[i], id);
    var k, x := ViewWasFound(turns, i);
    NamesOne(served[i], id, x);
    IdsOfAt(turns, k);
    assert id in deliveries[k];
  }

  lemma {:induction false} LengthsAgree(turns: seq<Turn>)
    ensures |IdsOf(turns)| == |turns|
  {
    if turns != [] {
      LengthsAgree(turns[1..]);
    }
  }

  /** What is written was delivered, and what was delivered and survives was written. */
  lemma WrittenAndDelivered(st: State, watch: Watch, clock: Timeval, start: Timeval, rounds: seq<Round>, id: uint64)
    requires Timely(st, clock, EventsOf(rounds))
    ensures var served, d := Served(st, watch, start, rounds), Deliveries(st, watch, start, EventsOf(rounds));
            && (Written(served, id) ==> Delivered(d, id))
            && (Delivered(d, id) && id in Final(st, EventsOf(rounds)).chirps ==> Written(served, id))
  {
    var turns := TurnsOf(st, watch, clock, start, rounds);
    var served, d := Served(st, watch, start, rounds), Deliveries(st, watch, start, EventsOf(rounds));
    if id in Final(st, EventsOf(rounds)).chirps {
      WrittenWasFound(turns, d, served, Final(st, EventsOf(rounds)), id);
    } else if Written(served, id) {
      WrittenWasDelivered(turns, d, served, Final(st, EventsOf(rounds)), id);
    }
  }

  /** From the empty store, over any run of the full API: of the chirps that survive it, a monitor
      started at `start` writes those by authors followed throughout with start <= time < last poll,
      each once, and no other chirp of theirs; its messages carry author, parent and time rightly, and
      the text as well unless it is edited meanwhile. */
  lemma MonitorEndToEnd(clock: Timeval, user: Bytes, earlier: seq<Op>, opening: Timeval, start: Timeval,
                        rounds: seq<Round>, id: uint64)
    requires |earlier| + |EventsOf(rounds)| < UINT64_LIMIT
    requires OpenedAt(clock, earlier, opening, start) && Clocked(opening, EventsOf(rounds))
    ensures Room(INITIAL, |earlier|) && Room(Run(INITIAL, earlier), |EventsOf(rounds)|)
    ensures var st := Run(INITIAL, earlier);
            var end := Final(st, EventsOf(rounds));
            var served := Served(st, Followees(user), start, rounds);
            && NoneTwice(served)
            && (forall i :: 0 <= i < |served| && Names(served[i], id) && id in end.chirps ==>
                  && CarriesButText(served[i], end.chirps[id])
                  && (NeverEdited(Calls(EventsOf(rounds)), id) ==> Carries(served[i], end.chirps[id])))
            && (id in end.chirps && VisibleThroughout(st, Followees(user), EventsOf(rounds), id) ==>
                  (Written(served, id) <==> InWindow(end.chirps[id].time, start, LastPoll(start, EventsOf(rounds)))))
  {
    OpenedTimely(clock, earlier, opening, start, EventsOf(rounds));
    var st := Run(INITIAL, earlier);
    ServedDistinct(st, Followees(user), opening, start, rounds);
    if id in Final(st, EventsOf(rounds)).chirps {
      MessagesOfSurvivor(st, Followees(user), start, rounds, id);
    }
    if id in Final(st, EventsOf(rounds)).chirps && VisibleThroughout(st, Followees(user), EventsOf(rounds), id) {
      WrittenIff(st, Followees(user), opening, start, rounds, id);
    }
  }

  /** From the empty store, over any run of the RPC surface: a stream of "#t" started at `start` writes
      exactly the chirps with tag t and start <= time < last poll, each once, with its author, text,
      parent and time. */
  lemma StreamWritesEndToEnd(clock: Timeval, t: Bytes, earlier: seq<Op>, opening: Timeval, start: Timeval,
                             rounds: seq<Round>, id: uint64)
    requires |earlier| + |EventsOf(rounds)| < UINT64_LIMIT && AllRpc(earlier) && RpcEvents(EventsOf(rounds))
    requires OpenedAt(clock, earlier, opening, start) && Clocked(opening, EventsOf(rounds))
    ensures Room(INITIAL, |earlier|) && Room(Run(INITIAL, earlier), |EventsOf(rounds)|)
    ensures var st := Run(INITIAL, earlier);
            var end := Final(st, EventsOf(rounds));
            var served := Served(st, Tagged(t), start, rounds);
            && NoneTwice(served)
            && (Written(served, id) <==>
                  id in end.chirps && HasTag(end.chirps[id].text, t)
                  && InWindow(end.chirps[id].time, start, LastPoll(start, EventsOf(rounds))))
            && (forall i :: 0 <= i < |served| && Names(served[i], id) && id in end.chirps ==>
                  Carries(served[i], end.chirps[id]))
  {
    OpenedTimely(clock, earlier, opening, start, EventsOf(rounds));
    var st := Run(INITIAL, earlier);
    ServedDistinct(st, Tagged(t), opening, start, rounds);
    TaggedWrittenIff(st, t, opening, start, rounds, id);
    if id in Final(st, EventsOf(rounds)).chirps {
      CallsAreRpc(EventsOf(rounds));
      RpcNeverEdits(Calls(EventsOf(rounds)), id);
      MessagesOfSurvivor(st, Tagged(t), start, rounds, id);
    }
  }

  lemma RpcNeverEdits(ops: seq<Op>, id: uint64)
    requires AllRpc(ops)
    ensures NeverEdited(ops, id)
  {
    forall i | 0 <= i < |ops|
      ensures !Edits(ops[i], id)
    {
      assert IsRpc(ops[i]);
    }
  }

  lemma TaggedWrittenIff(st: State, t: Bytes, clock: Timeval, start: Timeval, rounds: seq<Round>, id: uint64)
    requires Watchable(st, Tagged(t), clock, EventsOf(rounds)) && !Before(clock, start)
    ensures var end := Final(st, EventsOf(rounds));
            Written(Served(st, Tagged(t), start, rounds), id) <==>
              id in end.chirps && HasTag(end.chirps[id].text, t)
              && InWindow(end.chirps[id].time, start, LastPoll(start, EventsOf(rounds)))
  {
    WrittenAndDelivered(st, Tagged(t), clock, start, rounds, id);
    TaggedDeliveredIff(st, t, clock, start, EventsOf(rounds), id);
  }

  /** From the empty store, over any run of the full API: a stream of t writes only chirps posted with
      the tag at a time in start <= time < last answered poll, none twice, and of those all that
      survive the run. */
  lemma StreamWritesHistory(clock: Timeval, t: Bytes, earlier: seq<Op>, opening: Timeval, start: Timeval,
                            rounds: seq<Round>, id: uint64)
    requires |earlier| + |EventsOf(rounds)| < UINT64_LIMIT
    requires OpenedAt(clock, earlier, opening, start) && Clocked(opening, EventsOf(rounds))
    ensures Room(INITIAL, |earlier|) && Room(Run(INITIAL, earlier), |EventsOf(rounds)|)
    ensures var st := Run(INITIAL, earlier);
            var served := Served(st, Tagged(t), start, rounds);
            var upto := AnsweredUntil(st, Tagged(t), start, EventsOf(rounds));
            var posted :=
              || (id in PostedWithTag(INITIAL, earlier, t) && ChirpInWindow(st, id, start, upto))
              || id in TaggedPosts(st, EventsOf(rounds), t, start, upto);
            && NoneTwice(served)
            && (Written(served, id) ==> posted)
            && (posted && id in Final(st, EventsOf(rounds)).chirps ==> Written(served, id))
  {
    OpenedTimely(clock, earlier, opening, start, EventsOf(rounds));
    StreamHistoryEndToEnd(clock, t, earlier, opening, start, EventsOf(rounds));
    var st := Run(INITIAL, earlier);
    ServedDistinct(st, Tagged(t), opening, start, rounds);
    WrittenAndDelivered(st, Tagged(t), opening, start, rounds, id);
  }

  // ---------- following ----------

  /** Who is followed and not unfollowed is visible throughout. */
  lemma {:induction false} FollowedVisibleThroughout(st: State, u: Bytes, f: Bytes, events: seq<Event>, id: uint64)
    requires Room(st, |events|) && u in st.users && f in FollowingOf(st, u)
    requires NeverFrom(Calls(events), 0, Op.Unfollow(u, f))
    requires id in Final(st, events).chirps && Final(st, events).chirps[id].username == f
    ensures VisibleThroughout(st, Followees(u), events, id)
    decreases |events|
  {
    if events != [] {
      match events[0]
      case Call(op) =>
        FinalThroughCall(st, events);
        assert Calls(events) == [op] + Calls(events[1..]);
        assert Calls(events)[0] == op && Calls(events)[1..] == Calls(events[1..]);
        NeverFromFirst(Calls(events), Op.Unfollow(u, f));
        NeverFromTail(Calls(events), 1, Op.Unfollow(u, f));
        FollowsAfterStep(st, op, u, f);
        FollowedVisibleThroughout(Step(st, op), u, f, events[1..], id);
      case Poll(now) =>
        assert Calls(events) == Calls(events[1..]);
        FollowedVisibleThroughout(st, u, f, events[1..], id);
        if id in st.chirps {
          SurvivorUnchanged(st, Calls(events), id);
        }
    }
  }

  /** What following is for. From the empty store, over any run of the full API: if u's Follow of f was
      answered OK and u has not called Unfollow of f since, then a monitor of u writes every chirp of
      f's that survives the run and has start <= time < last poll, once, as f's. */
  lemma FollowerSeesChirps(clock: Timeval, u: Bytes, f: Bytes, earlier: seq<Op>, opening: Timeval, start: Timeval,
                           rounds: seq<Round>, id: uint64) returns (i: nat)
    requires |earlier| + |EventsOf(rounds)| < UINT64_LIMIT
    requires OpenedAt(clock, earlier, opening, start) && Clocked(opening, EventsOf(rounds))
    requires Room(INITIAL, |earlier|) && Room(Run(INITIAL, earlier), |EventsOf(rounds)|)
    requires Since(earlier, Replies(INITIAL, earlier), Op.Follow(u, f), Code(OK), Op.Unfollow(u, f))
    requires NeverFrom(Calls(EventsOf(rounds)), 0, Op.Unfollow(u, f))
    requires var end := Final(Run(INITIAL, earlier), EventsOf(rounds));
             && id in end.chirps && end.chirps[id].username == f
             && InWindow(end.chirps[id].time, start, LastPoll(start, EventsOf(rounds)))
    ensures var served := Served(Run(INITIAL, earlier), Followees(u), start, rounds);
            var c := Final(Run(INITIAL, earlier), EventsOf(rounds)).chirps[id];
            && i < |served| && CarriesButText(served[i], c) && served[i].username == f
            && (NeverEdited(Calls(EventsOf(rounds)), id) ==> Carries(served[i], c))
            && (forall j :: 0 <= j < |served| && Names(served[j], id) ==> j == i)
  {
    var st := Run(INITIAL, earlier);
    FollowsIff(INITIAL, earlier, u, f);
    FollowersAreRegistered(INITIAL, earlier, u);
    FollowedVisibleThroughout(st, u, f, EventsOf(rounds), id);
    MonitorEndToEnd(clock, u, earlier, opening, start, rounds, id);
    i :| 0 <= i < |Served(st, Followees(u), start, rounds)| && Names(Served(st, Followees(u), start, rounds)[i], id);
  }

  lemma {:induction false} FollowersAreRegistered(st: State, ops: seq<Op>, u: Bytes)
    requires Room(st, |ops|) && (u in st.users || FollowingOf(st, u) == {})
    ensures u in Run(st, ops).users || FollowingOf(Run(st, ops), u) == {}
    decreases |ops|
  {
    if ops != [] {
      StepKeepsInv(st, ops[0]);
      FollowsAfterStep(st, ops[0], u, []);
      FollowersAreRegistered(Step(st, ops[0]), ops[1..], u);
    }
  }
}
