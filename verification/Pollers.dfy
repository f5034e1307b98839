/** The monitor and stream RPCs: their polling loops, and what they write to the client. */
module Pollers {
  import opened Primitives
  import opened Records
  import opened Tags
  import opened Model
  import opened Threads
  import opened Runs
  import opened Delivery
  import opened Session
  import opened Server

  /** One turn of a polling loop among other callers: what they do while the loop sleeps, the poll's
      clock reading, and what they do before each re-reading of a chirp that the poll found. What is
      left of `between` when all are re-read comes after the last. */
  datatype Round = Round(before: seq<Op>, now: Timeval, between: seq<seq<Op>>)

  function AsCalls(ops: seq<Op>): (events: seq<Event>)
    ensures |events| == |ops|
  {
    if ops == [] then [] else [Call(ops[0])] + AsCalls(ops[1..])
  }

  function Flatten(between: seq<seq<Op>>): seq<Op> {
    if between == [] then [] else between[0] + Flatten(between[1..])
  }

  function Head(between: seq<seq<Op>>): seq<Op> {
    if between == [] then [] else between[0]
  }

  function Tail(between: seq<seq<Op>>): (rest: seq<seq<Op>>)
    ensures Flatten(between) == Head(between) + Flatten(rest)
  {
    if between == [] then [] else between[1..]
  }

  /** The calls of others from the poll of a round to its end. */
  function AfterPoll(round: Round): seq<Op> {
    Flatten(round.between)
  }

  /** The run that the rounds amount to. */
  function EventsOf(rounds: seq<Round>): seq<Event> {
    if rounds == [] then []
    else AsCalls(rounds[0].before) + ([Poll(rounds[0].now)] + (AsCalls(AfterPoll(rounds[0])) + EventsOf(rounds[1..])))
  }

  // ---------- what is written ----------

  /** A chirp as it is when it is read again, if it is still there. */
  function ViewOf(st: State, id: uint64): seq<GrpcChirp> {
    if id in st.chirps then [InternalChirpToGrpcChirp(st.chirps[id])] else []
  }

  /** Reading the chirps again one by one, each in the state that it is then met in. */
  ghost function RereadViews(st: State, ids: seq<uint64>, between: seq<seq<Op>>): seq<GrpcChirp>
    requires Room(st, |Flatten(between)|)
    decreases |ids|
  {
    if ids == [] then []
    else
      var next := Run(st, Head(between));
      ViewOf(next, ids[0]) + RereadViews(next, ids[1..], Tail(between))
  }

  /** What one turn of a polling loop owes the client. */
  ghost function TurnViews(st: State, watch: Watch, from: Timeval, round: Round): Option<seq<GrpcChirp>>
    requires Room(st, |round.before| + |AfterPoll(round)|)
  {
    var polled := Run(st, round.before);
    match PollResult(polled, watch, from, round.now)
    case None => None
    case Some(ids) => Some(RereadViews(polled, Sorted(ids), round.between))
  }

  ghost function AfterRound(st: State, round: Round): State
    requires Room(st, |round.before| + |AfterPoll(round)|)
  {
    Run(Run(st, round.before), AfterPoll(round))
  }

  /** What all of them owe; a poll whose CHECK fails aborts the process. */
  ghost function Served(st: State, watch: Watch, from: Timeval, rounds: seq<Round>): seq<GrpcChirp>
    requires Room(st, |EventsOf(rounds)|)
    decreases |rounds|
  {
    if rounds == [] then []
    else
      match TurnViews(st, watch, from, rounds[0])
      case None => []
      case Some(views) => views + Served(AfterRound(st, rounds[0]), watch, rounds[0].now, rounds[1..])
  }

  /** The state after all rounds. */
  ghost function AfterRounds(st: State, rounds: seq<Round>): State
    requires Room(st, |EventsOf(rounds)|)
    decreases |rounds|
  {
    if rounds == [] then st else AfterRounds(AfterRound(st, rounds[0]), rounds[1..])
  }

  function Take<T>(s: seq<T>, n: nat): seq<T> {
    if n < |s| then s[..n] else s
  }

  /** The RPC stream to the client, which goes away after some number of writes. */
  class ServerWriter {
    var written: seq<GrpcChirp>
    var accepts: nat

    constructor (accepts: nat)
      ensures written == [] && this.accepts == accepts
    {
      written := [];
      this.accepts := accepts;
    }

    method Write(reply: GrpcChirp) returns (ok: bool)
      modifies this
      ensures ok <==> old(accepts) > 0
      ensures written == if ok then old(written) + [reply] else old(written)
      ensures accepts == if ok then old(accepts) - 1 else 0
    {
      ok := accepts > 0;
      if ok {
        written := written + [reply];
        accepts := accepts - 1;
      }
    }
  }

  // ---------- the loops ----------

  /** The re-reading of the least chirp that is left, after what others do before it. */
  lemma NextView(st: State, rest: set<uint64>, k: uint64, between: seq<seq<Op>>)
    requires Room(st, |Flatten(between)|)
    requires k in rest && forall x :: x in rest ==> k <= x
    ensures var next := Run(st, Head(between));
            && Room(next, |Flatten(Tail(between))|)
            && Run(st, Flatten(between)) == Run(next, Flatten(Tail(between)))
            && RereadViews(st, Sorted(rest), between) ==
               ViewOf(next, k) + RereadViews(next, Sorted(rest - {k}), Tail(between))
  {
    RunConcat(st, Head(between), Flatten(Tail(between)));
    assert Min(rest) == k;
    assert Sorted(rest)[1..] == Sorted(rest - {k});
  }

  /** A client that takes `budget` more messages has been sent `views` as far as it takes them;
      `flag` says whether it is still there, then taking `left` more. */
  predicate Sent(views: seq<GrpcChirp>, before: seq<GrpcChirp>, budget: nat,
                 after: seq<GrpcChirp>, left: nat, flag: bool) {
    && after == before + Take(views, budget)
    && (flag <==> |views| <= budget)
    && (flag ==> left == budget - |views|)
  }

  /** The invariant of the loops that write: `done` of all that is owed has been written, `left` is to come. */
  predicate Underway(total: seq<GrpcChirp>, done: seq<GrpcChirp>, left: seq<GrpcChirp>,
                     before: seq<GrpcChirp>, budget: nat, written: seq<GrpcChirp>, accepts: nat) {
    total == done + left && written == before + done && accepts + |done| == budget
  }

  lemma SentMore(total: seq<GrpcChirp>, done: seq<GrpcChirp>, views: seq<GrpcChirp>, left: seq<GrpcChirp>,
                 before: seq<GrpcChirp>, budget: nat, written: seq<GrpcChirp>, accepts: nat,
                 written': seq<GrpcChirp>, accepts': nat, flag: bool)
    requires Underway(total, done, views + left, before, budget, written, accepts)
    requires Sent(views, written, accepts, written', accepts', flag)
    ensures flag ==> Underway(total, done + views, left, before, budget, written', accepts')
    ensures !flag ==> Sent(total, before, budget, written', accepts', false)
  {
    if !flag {
      assert Take(total, budget) == done + Take(views, accepts);
    }
  }

  lemma SentUnderway(total: seq<GrpcChirp>, done: seq<GrpcChirp>,
                     before: seq<GrpcChirp>, budget: nat, written: seq<GrpcChirp>, accepts: nat)
    requires Underway(total, done, [], before, budget, written, accepts)
    ensures Sent(total, before, budget, written, accepts, true)
  {
  }

  /** The books of a loop that writes: all that is owed, what of it has been written, what is to come,
      what the client had and could take at the beginning, and the state in which the loop will end. */
  datatype Ledger = Ledger(total: seq<GrpcChirp>, done: seq<GrpcChirp>, left: seq<GrpcChirp>,
                           before: seq<GrpcChirp>, budget: nat, end: State)

  ghost predicate SameAccount(l: Ledger, l': Ledger) {
    (l'.total, l'.before, l'.budget, l'.end) == (l.total, l.before, l.budget, l.end)
  }

  ghost function Paid(l: Ledger, views: seq<GrpcChirp>, left: seq<GrpcChirp>): Ledger {
    l.(done := l.done + views, left := left)
  }

  /** The loop that re-reads has still to do `rest`, with `between` to come. */
  ghost predicate Writing(st: State, rest: set<uint64>, between: seq<seq<Op>>, l: Ledger,
                          written: seq<GrpcChirp>, accepts: nat)
  {
    && Room(st, |Flatten(between)|)
    && l.left == RereadViews(st, Sorted(rest), between)
    && l.end == Run(st, Flatten(between))
    && Underway(l.total, l.done, l.left, l.before, l.budget, written, accepts)
  }

  lemma OpenWriting(st: State, ids: set<uint64>, between: seq<seq<Op>>, written: seq<GrpcChirp>, accepts: nat)
    returns (l: Ledger)
    requires Room(st, |Flatten(between)|)
    ensures l.total == RereadViews(st, Sorted(ids), between) && l.end == Run(st, Flatten(between))
    ensures l.before == written && l.budget == accepts
    ensures Writing(st, ids, between, l, written, accepts)
  {
    var total := RereadViews(st, Sorted(ids), between);
    l := Ledger(total, [], total, written, accepts, Run(st, Flatten(between)));
  }

  lemma CloseWriting(st: State, between: seq<seq<Op>>, l: Ledger, written: seq<GrpcChirp>, accepts: nat)
    requires Writing(st, {}, between, l, written, accepts)
    ensures Room(st, |Flatten(between)|) && l.end == Run(st, Flatten(between))
    ensures Sent(l.total, l.before, l.budget, written, accepts, true)
  {
    SentUnderway(l.total, l.done, l.before, l.budget, written, accepts);
  }

  lemma WritingNext(st: State, rest: set<uint64>, k: uint64, between: seq<seq<Op>>, l: Ledger,
                    written: seq<GrpcChirp>, accepts: nat)
    returns (left: seq<GrpcChirp>)
    requires Writing(st, rest, between, l, written, accepts)
    requires k in rest && forall x :: x in rest ==> k <= x
    ensures Room(st, |Head(between)|)
    ensures var next := Run(st, Head(between));
            && Room(next, |Flatten(Tail(between))|)
            && l.left == ViewOf(next, k) + left
            && left == RereadViews(next, Sorted(rest - {k}), Tail(between))
            && l.end == Run(next, Flatten(Tail(between)))
  {
    NextView(st, rest, k, between);
    left := RereadViews(Run(st, Head(between)), Sorted(rest - {k}), Tail(between));
  }

  /** Re-reads the least of the chirps that are left, after what others do before that, and writes it
      if it still exists. */
  method WriteNext(server: ServiceImpl, rest: set<uint64>, between: seq<seq<Op>>, ghost l: Ledger, writer: ServerWriter)
    returns (rest': set<uint64>, flag: bool, ghost l': Ledger)
    requires server.Valid() && rest != {}
    requires Writing(server.St(), rest, between, l, writer.written, writer.accepts)
    modifies writer, server.service.connect, server.service.connect.client.store
    ensures server.Valid() && rest' < rest && SameAccount(l, l')
    ensures if flag then Writing(server.St(), rest', Tail(between), l', writer.written, writer.accepts)
            else Sent(l.total, l.before, l.budget, writer.written, writer.accepts, false)
  {
    ghost var _ := MinExists(rest);
    var id :| id in rest && forall x | x in rest :: id <= x;
    ghost var left := WritingNext(server.St(), rest, id, between, l, writer.written, writer.accepts);
    ghost var written, accepts := writer.written, writer.accepts;
    flag := ReadAndWrite(server, id, Head(between), writer);
    ghost var view := ViewOf(server.St(), id);
    SentMore(l.total, l.done, view, left, l.before, l.budget, written, accepts, writer.written, writer.accepts, flag);
    rest' := rest - {id};
    l' := Paid(l, view, left);
  }

  /** Re-reads the collected chirps in ascending order and writes those that still exist; false when
      the client is gone. */
  method WriteChirps(server: ServiceImpl, ids: set<uint64>, between: seq<seq<Op>>, writer: ServerWriter)
    returns (flag: bool)
    requires server.Valid() && Room(server.St(), |Flatten(between)|)
    modifies writer, server.service.connect, server.service.connect.client.store
    ensures server.Valid()
    ensures flag ==> server.St() == Run(old(server.St()), Flatten(between))
    ensures Sent(RereadViews(old(server.St()), Sorted(ids), between), old(writer.written), old(writer.accepts),
                 writer.written, writer.accepts, flag)
  {
    ghost var open := OpenWriting(server.St(), ids, between, writer.written, writer.accepts);
    ghost var l := open;
    var rest, coming := ids, between;
    while rest != {}
      invariant server.Valid() && SameAccount(open, l)
      invariant Writing(server.St(), rest, coming, l, writer.written, writer.accepts)
      decreases rest
    {
      rest, flag, l := WriteNext(server, rest, coming, l, writer);
      if !flag {
        return false;
      }
      coming := Tail(coming);
    }
    CloseWriting(server.St(), coming, l, writer.written, writer.accepts);
    var _ := server.PerformAll(Flatten(coming));
    return true;
  }

  /** Writes one chirp if it still exists after what others do; errors are ignored. */
  method ReadAndWrite(server: ServiceImpl, id: uint64, before: seq<Op>, writer: ServerWriter) returns (ok: bool)
    requires server.Valid() && Room(server.St(), |before|)
    modifies writer, server.service.connect, server.service.connect.client.store
    ensures server.Valid() && server.St() == Run(old(server.St()), before)
    ensures Sent(ViewOf(server.St(), id), old(writer.written), old(writer.accepts), writer.written, writer.accepts, ok)
  {
    var _ := server.PerformAll(before);
    var ret, chirp := server.service.ReadChirp(id);
    if ret != OK {
      return true;
    }
    ok := writer.Write(InternalChirpToGrpcChirp(chirp));
  }

  ghost predicate Serving(st: State, watch: Watch, from: Timeval, rounds: seq<Round>, l: Ledger,
                          written: seq<GrpcChirp>, accepts: nat)
  {
    && Room(st, |EventsOf(rounds)|)
    && l.left == Served(st, watch, from, rounds)
    && l.end == AfterRounds(st, rounds)
    && Underway(l.total, l.done, l.left, l.before, l.budget, written, accepts)
  }

  /** The first of the remaining rounds: what it owes, and the books after it. */
  lemma ServingNext(st: State, watch: Watch, from: Timeval, rounds: seq<Round>, i: nat, l: Ledger,
                    written: seq<GrpcChirp>, accepts: nat)
    returns (views: seq<GrpcChirp>, left: seq<GrpcChirp>)
    requires i < |rounds| && Serving(st, watch, from, rounds[i..], l, written, accepts)
    ensures Room(st, |rounds[i].before| + |AfterPoll(rounds[i])|)
    ensures TurnViews(st, watch, from, rounds[i]).None? ==> l.left == []
    ensures TurnViews(st, watch, from, rounds[i]).Some? ==>
      && TurnViews(st, watch, from, rounds[i]) == Some(views) && l.left == views + left
      && Room(AfterRound(st, rounds[i]), |EventsOf(rounds[i + 1..])|)
      && left == Served(AfterRound(st, rounds[i]), watch, rounds[i].now, rounds[i + 1..])
      && l.end == AfterRounds(AfterRound(st, rounds[i]), rounds[i + 1..])
  {
    views, left := [], [];
    var now := rounds[i..];
    assert now[0] == rounds[i] && now[1..] == rounds[i + 1..];
    ServedRound(st, watch, from, now);
    if TurnViews(st, watch, from, rounds[i]).Some? {
      views := TurnViews(st, watch, from, rounds[i]).value;
      left := Served(AfterRound(st, rounds[i]), watch, rounds[i].now, rounds[i + 1..]);
    }
  }

  lemma OpenLedger(st: State, watch: Watch, from: Timeval, rounds: seq<Round>, written: seq<GrpcChirp>, accepts: nat)
    returns (l: Ledger)
    requires Room(st, |EventsOf(rounds)|)
    ensures l.total == Served(st, watch, from, rounds) && l.end == AfterRounds(st, rounds)
    ensures l.before == written && l.budget == accepts
    ensures Serving(st, watch, from, rounds[0..], l, written, accepts)
  {
    assert rounds[0..] == rounds;
    var total := Served(st, watch, from, rounds);
    l := Ledger(total, [], total, written, accepts, AfterRounds(st, rounds));
  }

  lemma CloseLedger(st: State, watch: Watch, from: Timeval, rounds: seq<Round>, l: Ledger,
                    written: seq<GrpcChirp>, accepts: nat)
    requires Serving(st, watch, from, rounds[|rounds|..], l, written, accepts)
    ensures Sent(l.total, l.before, l.budget, written, accepts, true) && st == l.end
  {
    SentUnderway(l.total, l.done, l.before, l.budget, written, accepts);
  }

  /** What a turn leaves: the loop goes on with these books, or the client has gone away. */
  ghost predicate TurnDone(st: State, watch: Watch, from: Timeval, rounds: seq<Round>, l: Ledger, l': Ledger,
                           written: seq<GrpcChirp>, accepts: nat, flag: bool)
  {
    && SameAccount(l, l')
    && if flag then Serving(st, watch, from, rounds, l', written, accepts)
       else Sent(l.total, l.before, l.budget, written, accepts, false)
  }

  lemma ServedRound(st: State, watch: Watch, from: Timeval, rounds: seq<Round>)
    requires rounds != [] && Room(st, |EventsOf(rounds)|)
    ensures |EventsOf(rounds)| == |rounds[0].before| + 1 + |AfterPoll(rounds[0])| + |EventsOf(rounds[1..])|
    ensures Room(AfterRound(st, rounds[0]), |EventsOf(rounds[1..])|)
    ensures AfterRounds(st, rounds) == AfterRounds(AfterRound(st, rounds[0]), rounds[1..])
    ensures Served(st, watch, from, rounds) ==
            match TurnViews(st, watch, from, rounds[0])
            case None => []
            case Some(views) => views + Served(AfterRound(st, rounds[0]), watch, rounds[0].now, rounds[1..])
  {
  }

  lemma {:induction false} UsersStay(st: State, ops: seq<Op>, user: Bytes)
    requires Room(st, |ops|) && user in st.users
    ensures user in Run(st, ops).users
    decreases |ops|
  {
    if ops != [] {
      StepKeepsInv(st, ops[0]);
      UsersStay(Step(st, ops[0]), ops[1..], user);
    }
  }

  /** One turn of the monitor loop. */
  method MonitorTurn(server: ServiceImpl, session: UserSession, ghost username: Bytes, start: Timeval,
                     rounds: seq<Round>, n: nat, ghost l: Ledger, writer: ServerWriter)
    returns (newStart: Timeval, flag: bool, ghost l': Ledger)
    requires server.Valid() && n < |rounds|
    requires session.connect == server.service.connect && session.user.username == username
    requires username in server.St().users
    requires Serving(server.St(), Followees(username), start, rounds[n..], l, writer.written, writer.accepts)
    modifies writer, server.service.connect, server.service.connect.client.store
    ensures server.Valid()
    ensures flag ==> username in server.St().users
    ensures newStart == rounds[n].now
    ensures TurnDone(server.St(), Followees(username), newStart, rounds[n + 1..], l, l',
                     writer.written, writer.accepts, flag)
  {
    ghost var views, left :=
      ServingNext(server.St(), Followees(username), start, rounds, n, l, writer.written, writer.accepts);
    var ids;
    ids, newStart := MonitorPoll(server, session, username, start, rounds[n]);
    UsersStay(server.St(), AfterPoll(rounds[n]), username);
    ghost var written, accepts := writer.written, writer.accepts;
    flag := WriteChirps(server, ids, rounds[n].between, writer);
    SentMore(l.total, l.done, views, left, l.before, l.budget, written, accepts, writer.written, writer.accepts, flag);
    l' := Paid(l, views, left);
  }

  /** The poll of a turn, with the calls of others before it. */
  method MonitorPoll(server: ServiceImpl, session: UserSession, ghost username: Bytes, start: Timeval, round: Round)
    returns (ids: set<uint64>, newStart: Timeval)
    requires server.Valid() && Room(server.St(), |round.before|)
    requires session.connect == server.service.connect && session.user.username == username
    requires username in server.St().users
    modifies server.service.connect, server.service.connect.client.store
    ensures server.Valid() && username in server.St().users
    ensures server.St() == Run(old(server.St()), round.before)
    ensures ids == MonitorFrom(server.St(), username, start, round.now)
    ensures newStart == round.now
  {
    UsersStay(server.St(), round.before, username);
    var _ := server.PerformAll(round.before);
    ids, newStart := session.MonitorFrom(start, round.now);
  }

  /** The monitor RPC, among other callers: writes what every poll finds, as far as the client stays. */
  method MonitorRpc(server: ServiceImpl, username: Bytes, startTime: Timeval, rounds: seq<Round>, writer: ServerWriter)
    returns (found: bool, flag: bool)
    requires server.Valid() && Room(server.St(), |EventsOf(rounds)|)
    modifies writer, server.service.connect, server.service.connect.client.store
    ensures server.Valid()
    ensures found <==> username in old(server.St()).users
    ensures !found ==> writer.written == old(writer.written) && server.St() == old(server.St())
    ensures found ==>
      Sent(Served(old(server.St()), Followees(username), startTime, rounds),
           old(writer.written), old(writer.accepts), writer.written, writer.accepts, flag)
    ensures found && flag ==> server.St() == AfterRounds(old(server.St()), rounds)
  {
    var session := server.service.UserLogin(username);
    if session == null {
      return false, false;
    }
    flag := MonitorLoop(server, session, username, startTime, rounds, writer);
    return true, flag;
  }

  method MonitorLoop(server: ServiceImpl, session: UserSession, ghost username: Bytes, startTime: Timeval,
                     rounds: seq<Round>, writer: ServerWriter)
    returns (flag: bool)
    requires server.Valid() && Room(server.St(), |EventsOf(rounds)|)
    requires session.connect == server.service.connect && session.user.username == username
    requires username in server.St().users
    modifies writer, server.service.connect, server.service.connect.client.store
    ensures server.Valid()
    ensures Sent(Served(old(server.St()), Followees(username), startTime, rounds),
                 old(writer.written), old(writer.accepts), writer.written, writer.accepts, flag)
    ensures flag ==> server.St() == AfterRounds(old(server.St()), rounds)
  {
    ghost var open :=
      OpenLedger(server.St(), Followees(username), startTime, rounds, writer.written, writer.accepts);
    ghost var l := open;
    var start := startTime;
    var n := 0;
    while n < |rounds|
      invariant n <= |rounds| && server.Valid() && username in server.St().users
      invariant Serving(server.St(), Followees(username), start, rounds[n..], l, writer.written, writer.accepts)
      invariant SameAccount(open, l)
    {
      start, flag, l := MonitorTurn(server, session, username, start, rounds, n, l, writer);
      if !flag {
        return false;
      }
      n := n + 1;
    }
    CloseLedger(server.St(), Followees(username), start, rounds, l, writer.written, writer.accepts);
    return true;
  }

  /** One turn of the stream loop; a poll whose CHECK fails aborts the process. */
  method StreamTurn(server: ServiceImpl, tag: Bytes, start: Timeval, rounds: seq<Round>, n: nat,
                    ghost l: Ledger, writer: ServerWriter)
    returns (newStart: Timeval, flag: bool, aborted: bool, ghost l': Ledger)
    requires server.Valid() && n < |rounds|
    requires Serving(server.St(), Tagged(tag), start, rounds[n..], l, writer.written, writer.accepts)
    modifies writer, server.service.connect, server.service.connect.client.store
    ensures server.Valid()
    ensures newStart == rounds[n].now
    ensures aborted ==>
      && Sent(l.total, l.before, l.budget, writer.written, writer.accepts, flag)
      && !(TagList(server.St().tags, tag) <= server.St().chirps.Keys)
    ensures !aborted ==>
      TurnDone(server.St(), Tagged(tag), newStart, rounds[n + 1..], l, l', writer.written, writer.accepts, flag)
  {
    ghost var views, left :=
      ServingNext(server.St(), Tagged(tag), start, rounds, n, l, writer.written, writer.accepts);
    l' := Paid(l, views, left);
    var ids;
    ids, newStart := StreamPoll(server, tag, start, rounds[n]);
    if ids.None? {
      SentUnderway(l.total, l.done, l.before, l.budget, writer.written, writer.accepts);
      return newStart, true, true, l';
    }
    ghost var written, accepts := writer.written, writer.accepts;
    flag := WriteChirps(server, ids.value, rounds[n].between, writer);
    SentMore(l.total, l.done, views, left, l.before, l.budget, written, accepts, writer.written, writer.accepts, flag);
    aborted := false;
  }

  /** The poll of a turn, with the calls of others before it; None when its CHECK fails. */
  method StreamPoll(server: ServiceImpl, tag: Bytes, start: Timeval, round: Round)
    returns (ids: Option<set<uint64>>, newStart: Timeval)
    requires server.Valid() && Room(server.St(), |round.before|)
    modifies server.service.connect, server.service.connect.client.store
    ensures server.Valid()
    ensures server.St() == Run(old(server.St()), round.before)
    ensures ids == StreamFrom(server.St(), tag, start, round.now)
    ensures newStart == round.now
  {
    var _ := server.PerformAll(round.before);
    ids, newStart := server.service.StreamFrom(start, round.now, tag);
  }

  /** The stream RPC, among other callers. */
  method StreamRpc(server: ServiceImpl, tag: Bytes, startTime: Timeval, rounds: seq<Round>, writer: ServerWriter)
    returns (flag: bool, aborted: bool)
    requires server.Valid() && Room(server.St(), |EventsOf(rounds)|)
    modifies writer, server.service.connect, server.service.connect.client.store
    ensures server.Valid()
    ensures Sent(Served(old(server.St()), Tagged(tag), startTime, rounds),
                 old(writer.written), old(writer.accepts), writer.written, writer.accepts, flag)
    ensures aborted ==> !(TagList(server.St().tags, tag) <= server.St().chirps.Keys)
    ensures flag && !aborted ==> server.St() == AfterRounds(old(server.St()), rounds)
  {
    ghost var open := OpenLedger(server.St(), Tagged(tag), startTime, rounds, writer.written, writer.accepts);
    ghost var l := open;
    var start := startTime;
    var n := 0;
    while n < |rounds|
      invariant n <= |rounds| && server.Valid()
      invariant Serving(server.St(), Tagged(tag), start, rounds[n..], l, writer.written, writer.accepts)
      invariant SameAccount(open, l)
    {
      start, flag, aborted, l := StreamTurn(server, tag, start, rounds, n, l, writer);
      if aborted || !flag {
        return flag, aborted;
      }
      n := n + 1;
    }
    CloseLedger(server.St(), Tagged(tag), start, rounds, l, writer.written, writer.accepts);
    return true, false;
  }
}
