/** What the polling RPCs put into their messages. */
module Messages {
  import opened Primitives
  import opened Records
  import opened Model
  import opened Threads
  import opened Runs
  import opened Delivery
  import opened Pollers

  predicate Names(g: GrpcChirp, id: uint64) {
    g.id == Uint64ToBinary(id)
  }

  lemma NamesOne(g: GrpcChirp, a: uint64, b: uint64)
    requires Names(g, a) && Names(g, b)
    ensures a == b
  {
    Uint64BinaryBijection(a, []);
    Uint64BinaryBijection(b, []);
  }

  /** The message is this chirp, with its author, its text, its parent and its time. */
  predicate Carries(g: GrpcChirp, c: Chirp) {
    g == GrpcChirp(c.username, c.text, Uint64ToBinary(c.id), Uint64ToBinary(c.parentId), c.time)
  }

  /** All of it but perhaps the text. */
  predicate CarriesButText(g: GrpcChirp, c: Chirp) {
    Carries(g, c.(text := g.text))
  }

  lemma ViewCarries(st: State, id: uint64)
    requires IdsOk(st) && id in st.chirps
    ensures |ViewOf(st, id)| == 1 && Carries(ViewOf(st, id)[0], st.chirps[id]) && st.chirps[id].id == id
  {
  }

  /** Every view is one of the chirps to be read again, as it is after the first `mid` of the calls in
      between. */
  lemma {:induction false} RereadMoment(st: State, ids: seq<uint64>, between: seq<seq<Op>>, g: GrpcChirp)
    returns (mid: seq<Op>, after: seq<Op>, id: uint64)
    requires Room(st, |Flatten(between)|) && g in RereadViews(st, ids, between)
    ensures Flatten(between) == mid + after && id in ids
    ensures id in Run(st, mid).chirps && Carries(g, Run(st, mid).chirps[id])
    decreases |ids|
  {
    var next := Run(st, Head(between));
    var view, later := ViewOf(next, ids[0]), RereadViews(next, ids[1..], Tail(between));
    assert RereadViews(st, ids, between) == view + later;
    if g in view {
      ViewCarries(next, ids[0]);
      mid, after, id := Head(between), Flatten(Tail(between)), ids[0];
    } else {
      var rest;
      rest, after, id := RereadMoment(next, ids[1..], Tail(between), g);
      mid := Head(between) + rest;
      RunConcat(st, Head(between), rest);
      Regroup(Head(between), rest, after);
    }
  }

  /** The beginning of the window of poll k. */
  function FromOf(from: Timeval, rounds: seq<Round>, k: nat): Timeval
    requires k <= |rounds|
  {
    if k == 0 then from else rounds[k - 1].now
  }

  /** The calls of others in all rounds. */
  function CallsIn(rounds: seq<Round>): seq<Op> {
    if rounds == [] then [] else rounds[0].before + (AfterPoll(rounds[0]) + CallsIn(rounds[1..]))
  }

  /** Those before poll k. */
  function CallsToPoll(rounds: seq<Round>, k: nat): seq<Op>
    requires k < |rounds|
  {
    if k == 0 then rounds[0].before
    else (rounds[0].before + AfterPoll(rounds[0])) + CallsToPoll(rounds[1..], k - 1)
  }

  lemma {:induction false} CallsOfCalls(ops: seq<Op>, rest: seq<Event>)
    ensures Calls(AsCalls(ops) + rest) == ops + Calls(rest)
  {
    if ops == [] {
      assert AsCalls(ops) + rest == rest && ops + Calls(rest) == Calls(rest);
    } else {
      var all := AsCalls(ops) + rest;
      assert all[0] == Call(ops[0]) && all[1..] == AsCalls(ops[1..]) + rest;
      CallsOfCalls(ops[1..], rest);
      Regroup([ops[0]], ops[1..], Calls(rest));
      assert [ops[0]] + ops[1..] == ops;
    }
  }

  lemma {:induction false} CallsInIsCalls(rounds: seq<Round>)
    ensures Calls(EventsOf(rounds)) == CallsIn(rounds)
  {
    if rounds != [] {
      var rest := AsCalls(AfterPoll(rounds[0])) + EventsOf(rounds[1..]);
      CallsInIsCalls(rounds[1..]);
      CallsOfCalls(AfterPoll(rounds[0]), EventsOf(rounds[1..]));
      assert ([Poll(rounds[0].now)] + rest)[1..] == rest;
      assert Calls([Poll(rounds[0].now)] + rest) == [] + Calls(rest);
      CallsOfCalls(rounds[0].before, [Poll(rounds[0].now)] + rest);
    }
  }

  /** Where a message comes from: the poll of round k, made after the calls `toPoll`, found the chirp,
      and the message is that chirp as it is `mid` calls later; `after` is the rest of the run. */
  datatype Origin = Origin(k: nat, toPoll: seq<Op>, mid: seq<Op>, after: seq<Op>, id: uint64)

  ghost predicate ComesFrom(st: State, watch: Watch, from: Timeval, rounds: seq<Round>, g: GrpcChirp, o: Origin) {
    && Room(st, |EventsOf(rounds)|)
    && o.k < |rounds| && o.toPoll == CallsToPoll(rounds, o.k)
    && Calls(EventsOf(rounds)) == o.toPoll + (o.mid + o.after)
    && var polled := Run(st, o.toPoll);
       && Found(polled, watch, FromOf(from, rounds, o.k), rounds[o.k].now, o.id)
       && o.id in Run(polled, o.mid).chirps && Carries(g, Run(polled, o.mid).chirps[o.id])
  }

  ghost predicate Found(st: State, watch: Watch, from: Timeval, now: Timeval, id: uint64) {
    PollResult(st, watch, from, now).Some? && id in PollResult(st, watch, from, now).value
  }

  /** Every message that is written has such an origin. */
  lemma {:induction false} MessageOrigin(st: State, watch: Watch, from: Timeval, rounds: seq<Round>, g: GrpcChirp)
    returns (o: Origin)
    requires Room(st, |EventsOf(rounds)|) && g in Served(st, watch, from, rounds)
    ensures ComesFrom(st, watch, from, rounds, g, o)
    decreases |rounds|
  {
    var views, later := ServedParts(st, watch, from, rounds);
    if g in views {
      o := FirstOrigin(st, watch, from, rounds, g);
    } else {
      var rest := MessageOrigin(AfterRound(st, rounds[0]), watch, rounds[0].now, rounds[1..], g);
      o := LaterOrigin(st, watch, from, rounds, g, rest);
    }
  }

  /** What the first round writes, and what the later ones do. */
  lemma ServedParts(st: State, watch: Watch, from: Timeval, rounds: seq<Round>)
    returns (views: seq<GrpcChirp>, later: seq<GrpcChirp>)
    requires Room(st, |EventsOf(rounds)|) && Served(st, watch, from, rounds) != []
    ensures rounds != [] && Room(st, |rounds[0].before| + |AfterPoll(rounds[0])|)
    ensures Room(AfterRound(st, rounds[0]), |EventsOf(rounds[1..])|)
    ensures TurnViews(st, watch, from, rounds[0]) == Some(views)
    ensures later == Served(AfterRound(st, rounds[0]), watch, rounds[0].now, rounds[1..])
    ensures Served(st, watch, from, rounds) == views + later
  {
    ServedRound(st, watch, from, rounds);
    views := TurnViews(st, watch, from, rounds[0]).value;
    later := Served(AfterRound(st, rounds[0]), watch, rounds[0].now, rounds[1..]);
  }

  lemma FirstOrigin(st: State, watch: Watch, from: Timeval, rounds: seq<Round>, g: GrpcChirp) returns (o: Origin)
    requires rounds != [] && Room(st, |EventsOf(rounds)|) && Room(st, |rounds[0].before| + |AfterPoll(rounds[0])|)
    requires TurnViews(st, watch, from, rounds[0]).Some? && g in TurnViews(st, watch, from, rounds[0]).value
    ensures ComesFrom(st, watch, from, rounds, g, o)
  {
    CallsInIsCalls(rounds);
    var polled := Run(st, rounds[0].before);
    var ids := PollResult(polled, watch, from, rounds[0].now).value;
    var mid, after, id := RereadMoment(polled, Sorted(ids), rounds[0].between, g);
    Regroup(mid, after, CallsIn(rounds[1..]));
    o := Origin(0, rounds[0].before, mid, after + CallsIn(rounds[1..]), id);
  }

  lemma LaterOrigin(st: State, watch: Watch, from: Timeval, rounds: seq<Round>, g: GrpcChirp, rest: Origin)
    returns (o: Origin)
    requires rounds != [] && Room(st, |EventsOf(rounds)|) && Room(st, |rounds[0].before| + |AfterPoll(rounds[0])|)
    requires Room(AfterRound(st, rounds[0]), |EventsOf(rounds[1..])|)
    requires ComesFrom(AfterRound(st, rounds[0]), watch, rounds[0].now, rounds[1..], g, rest)
    ensures ComesFrom(st, watch, from, rounds, g, o)
  {
    var first := rounds[0].before + AfterPoll(rounds[0]);
    o := Origin(rest.k + 1, first + rest.toPoll, rest.mid, rest.after, rest.id);
    LaterCalls(rounds, rest);
    RunConcat(st, rounds[0].before, AfterPoll(rounds[0]));
    RunConcat(st, first, rest.toPoll);
  }

  lemma LaterCalls(rounds: seq<Round>, rest: Origin)
    requires rounds != [] && Calls(EventsOf(rounds[1..])) == rest.toPoll + (rest.mid + rest.after)
    ensures Calls(EventsOf(rounds)) ==
            ((rounds[0].before + AfterPoll(rounds[0])) + rest.toPoll) + (rest.mid + rest.after)
  {
    CallsInIsCalls(rounds);
    CallsInIsCalls(rounds[1..]);
    Regroup(rounds[0].before, AfterPoll(rounds[0]), CallsIn(rounds[1..]));
    Regroup(rounds[0].before + AfterPoll(rounds[0]), rest.toPoll, rest.mid + rest.after);
  }

  /** A message about a chirp that survives the run has the author, parent and time that the chirp then
      has, and its text too if nobody edits it after the poll. */
  lemma MessageOfSurvivor(
    st: State, watch: Watch, from: Timeval, rounds: seq<Round>, g: GrpcChirp, o: Origin, id: uint64)
    requires ComesFrom(st, watch, from, rounds, g, o) && Names(g, id) && id in Final(st, EventsOf(rounds)).chirps
    ensures o.id == id
    ensures CarriesButText(g, Final(st, EventsOf(rounds)).chirps[id])
    ensures NeverEdited(o.mid + o.after, id) ==> Carries(g, Final(st, EventsOf(rounds)).chirps[id])
  {
    var polled := Run(st, o.toPoll);
    var met := Run(polled, o.mid);
    NamesOne(g, id, o.id);
    RunConcat(st, o.toPoll, o.mid + o.after);
    RunConcat(polled, o.mid, o.after);
    SurvivorUnchanged(met, o.after, id);
    if NeverEdited(o.mid + o.after, id) {
      NotEditedAfter(o.mid, o.after, id);
    }
  }

  lemma NotEditedAfter(a: seq<Op>, b: seq<Op>, id: uint64)
    requires NeverEdited(a + b, id)
    ensures NeverEdited(b, id)
  {
    forall i | 0 <= i < |b|
      ensures !Edits(b[i], id)
    {
      assert (a + b)[|a| + i] == b[i];
    }
  }

  /** Of all messages about a chirp that survives. */
  lemma MessagesOfSurvivor(st: State, watch: Watch, from: Timeval, rounds: seq<Round>, id: uint64)
    requires Room(st, |EventsOf(rounds)|) && id in Final(st, EventsOf(rounds)).chirps
    ensures forall i :: 0 <= i < |Served(st, watch, from, rounds)| && Names(Served(st, watch, from, rounds)[i], id) ==>
      && CarriesButText(Served(st, watch, from, rounds)[i], Final(st, EventsOf(rounds)).chirps[id])
      && (NeverEdited(Calls(EventsOf(rounds)), id) ==>
            Carries(Served(st, watch, from, rounds)[i], Final(st, EventsOf(rounds)).chirps[id]))
  {
    var served := Served(st, watch, from, rounds);
    forall i | 0 <= i < |served| && Names(served[i], id)
      ensures CarriesButText(served[i], Final(st, EventsOf(rounds)).chirps[id])
      ensures NeverEdited(Calls(EventsOf(rounds)), id) ==> Carries(served[i], Final(st, EventsOf(rounds)).chirps[id])
    {
      var o := MessageOrigin(st, watch, from, rounds, served[i]);
      MessageOfSurvivor(st, watch, from, rounds, served[i], o, id);
      if NeverEdited(Calls(EventsOf(rounds)), id) {
        NotEditedAfter(o.toPoll, o.mid + o.after, id);
      }
    }
  }
}
