/** Whole runs of the service: what holds after any sequence of operations. */
module Runs {
  import opened Primitives
  import opened Records
  import opened Tags
  import opened Model
  import opened Threads

  /** One call of the class API; `user` is the name a session was opened for. */
  datatype Op =
    | Register(username: Bytes, now: Timeval)
    | Follow(user: Bytes, followee: Bytes)
    | Unfollow(user: Bytes, followee: Bytes)
    | Post(user: Bytes, text: Bytes, parentId: uint64, now: Timeval)
    | Edit(user: Bytes, id: uint64, newText: Bytes)
    | Delete(user: Bytes, id: uint64)
    | Monitor(user: Bytes, from: Timeval, now: Timeval)
    | Stream(tag: Bytes, from: Timeval, now: Timeval)
    | Read(id: uint64)

  datatype Reply =
    | NotLoggedIn
    | Code(code: ReturnCode)
    | Posted(code: ReturnCode, id: Option<uint64>)
    | Monitored(ids: set<uint64>)
    | Streamed(result: Option<set<uint64>>)
    | Thread(code: ReturnCode, chirps: seq<GrpcChirp>)

  /** The calls that the RPC surface exposes. */
  predicate IsRpc(op: Op) {
    !op.Unfollow? && !op.Edit? && !op.Delete?
  }

  /** One of them for each handler that makes a call of the class API. */
  lemma RpcSurface(op: Op)
    ensures IsRpc(op) <==> op.Register? || op.Follow? || op.Post? || op.Monitor? || op.Stream? || op.Read?
  {
  }

  ghost predicate AllRpc(ops: seq<Op>) {
    forall i :: 0 <= i < |ops| ==> IsRpc(ops[i])
  }

  /** Whether the call gets past UserLogin. */
  predicate LoggedIn(st: State, op: Op) {
    match op
    case Register(_, _) => true
    case Stream(_, _, _) => true
    case Read(_) => true
    case _ => op.user in st.users
  }

  function Step(st: State, op: Op): State
    requires st.counter < UINT64_LIMIT - 1
  {
    if !LoggedIn(st, op) then st else
    match op
    case Register(username, now) => UserRegister(st, username, now).0
    case Follow(user, followee) => Model.Follow(st, user, followee).0
    case Unfollow(user, followee) => Model.Unfollow(st, user, followee).0
    case Post(user, text, parentId, now) => PostChirp(st, user, text, parentId, now).0
    case Edit(user, id, text) => EditChirp(st, user, id, text).0
    case Delete(user, id) => DeleteChirp(st, user, id).0
    case Monitor(_, _, _) => st
    case Stream(_, _, _) => st
    case Read(_) => st
  }

  function GrpcViews(st: State, ids: seq<uint64>): (r: seq<GrpcChirp>)
    requires forall x :: x in ids ==> x in st.chirps
    ensures |r| == |ids|
    ensures forall i :: 0 <= i < |ids| ==> r[i] == InternalChirpToGrpcChirp(st.chirps[ids[i]])
  {
    seq(|ids|, i requires 0 <= i < |ids| => InternalChirpToGrpcChirp(st.chirps[ids[i]]))
  }

  ghost function ReplyOf(st: State, op: Op): Reply
    requires Inv(st) && st.counter < UINT64_LIMIT - 1
  {
    if !LoggedIn(st, op) then NotLoggedIn else
    match op
    case Register(username, now) => Code(UserRegister(st, username, now).1)
    case Follow(user, followee) => Code(Model.Follow(st, user, followee).1)
    case Unfollow(user, followee) => Code(Model.Unfollow(st, user, followee).1)
    case Post(user, text, parentId, now) =>
      var (st', code) := PostChirp(st, user, text, parentId, now);
      Posted(code, if code == OK then Some(st'.counter) else None)
    case Edit(user, id, text) => Code(EditChirp(st, user, id, text).1)
    case Delete(user, id) => Code(DeleteChirp(st, user, id).1)
    case Monitor(user, from, now) => Monitored(MonitorFrom(st, user, from, now))
    case Stream(tag, from, now) => Streamed(StreamFrom(st, tag, from, now))
    case Read(id) =>
      if id in st.chirps then Thread(OK, GrpcViews(st, Preorder(st, id))) else Thread(CHIRP_ID_NOT_FOUND, [])
  }

  /** No step breaks the invariant; only a post moves the counter, by one. */
  lemma StepKeepsInv(st: State, op: Op)
    requires Inv(st) && st.counter < UINT64_LIMIT - 1
    ensures Inv(Step(st, op))
    ensures st.counter <= Step(st, op).counter <= st.counter + 1
  {
    if LoggedIn(st, op) {
      match op
      case Register(username, now) => UserRegisterKeepsInv(st, username, now);
      case Follow(user, followee) => FollowKeepsInv(st, user, followee);
      case Unfollow(user, followee) => UnfollowKeepsInv(st, user, followee);
      case Post(user, text, parentId, now) => PostChirpKeepsInv(st, user, text, parentId, now);
      case Edit(user, id, text) => EditChirpKeepsInv(st, user, id, text);
      case Delete(user, id) => DeleteChirpKeepsInv(st, user, id);
      case _ =>
    }
  }

  /** A state from which `n` more calls cannot exhaust the 64-bit counter. */
  ghost predicate Room(st: State, n: nat) {
    Inv(st) && st.counter + n < UINT64_LIMIT
  }

  ghost function Run(st: State, ops: seq<Op>): (final: State)
    requires Room(st, |ops|)
    ensures Inv(final) && st.counter <= final.counter <= st.counter + |ops|
    decreases |ops|
  {
    if ops == [] then st
    else
      StepKeepsInv(st, ops[0]);
      Run(Step(st, ops[0]), ops[1..])
  }

  ghost function Replies(st: State, ops: seq<Op>): (r: seq<Reply>)
    requires Room(st, |ops|)
    ensures |r| == |ops|
    decreases |ops|
  {
    if ops == [] then []
    else
      StepKeepsInv(st, ops[0]);
      [ReplyOf(st, ops[0])] + Replies(Step(st, ops[0]), ops[1..])
  }

  // ---------- chirps over a run ----------

  predicate Edits(op: Op, id: uint64) {
    op.Edit? && op.id == id
  }

  ghost predicate NeverEdited(ops: seq<Op>, id: uint64) {
    forall i :: 0 <= i < |ops| ==> !Edits(ops[i], id)
  }

  predicate SameButChildren(c: Chirp, c': Chirp) {
    c' == c.(childrenIds := c'.childrenIds)
  }

  lemma PostOnChirp(st: State, user: Bytes, text: Bytes, parentId: uint64, now: Timeval, id: uint64)
    requires Inv(st) && st.counter < UINT64_LIMIT - 1
    requires id in PostChirp(st, user, text, parentId, now).0.chirps
    ensures id !in st.chirps ==>
              id == st.counter + 1 && PostChirp(st, user, text, parentId, now).0.chirps[id].time == now
    ensures id in st.chirps ==> SameButChildren(st.chirps[id], PostChirp(st, user, text, parentId, now).0.chirps[id])
  {
    if PostChirp(st, user, text, parentId, now).1 == OK {
      PostedChirps(st, user, text, parentId, now);
    }
  }

  lemma DeleteOnChirp(st: State, user: Bytes, d: uint64, id: uint64)
    requires Inv(st) && id in DeleteChirp(st, user, d).0.chirps
    ensures id in st.chirps && SameButChildren(st.chirps[id], DeleteChirp(st, user, d).0.chirps[id])
  {
    if DeleteChirp(st, user, d).1 == OK {
      DeletedChirps(st, user, d);
    }
  }

  lemma EditOnChirp(st: State, user: Bytes, e: uint64, text: Bytes, id: uint64)
    requires id in EditChirp(st, user, e, text).0.chirps
    ensures id in st.chirps
    ensures var (c, c') := (st.chirps[id], EditChirp(st, user, e, text).0.chirps[id]);
            c' == if id == e then c.(text := c'.text) else c
  {
  }

  /** One step neither revives a dead id nor touches author, parent or time of a live chirp, nor its
      text unless it edits that chirp, and a chirp it creates carries the step's clock reading. */
  lemma {:induction false} StepOnChirp(st: State, op: Op, id: uint64)
    requires Inv(st) && st.counter < UINT64_LIMIT - 1
    requires id in Step(st, op).chirps
    ensures id in st.chirps || (id == st.counter + 1 && op.Post? && Step(st, op).chirps[id].time == op.now)
    ensures id in st.chirps ==>
              var (c, c') := (st.chirps[id], Step(st, op).chirps[id]);
              && c'.username == c.username && c'.parentId == c.parentId && c'.time == c.time
              && (!Edits(op, id) ==> c'.text == c.text)
  {
    if LoggedIn(st, op) {
      match op
      case Post(user, text, parentId, now) => PostOnChirp(st, user, text, parentId, now, id);
      case Delete(user, d) => DeleteOnChirp(st, user, d, id);
      case Edit(user, e, text) => EditOnChirp(st, user, e, text, id);
      case _ => assert Step(st, op).chirps == st.chirps;
    }
  }

  /** Ids are never reused: what has been allocated and is not live never comes back. */
  lemma {:induction false} DeadStaysDead(st: State, ops: seq<Op>, id: uint64)
    requires Room(st, |ops|) && id <= st.counter && id !in st.chirps
    ensures id !in Run(st, ops).chirps
    decreases |ops|
  {
    if ops != [] {
      StepKeepsInv(st, ops[0]);
      if id in Step(st, ops[0]).chirps {
        StepOnChirp(st, ops[0], id);
      }
      DeadStaysDead(Step(st, ops[0]), ops[1..], id);
    }
  }

  /** A chirp live before and after a run is the same chirp; its text changes only through edits. */
  lemma {:induction false} SurvivorUnchanged(st: State, ops: seq<Op>, id: uint64)
    requires Room(st, |ops|) && id in st.chirps && id in Run(st, ops).chirps
    ensures var (c, c') := (st.chirps[id], Run(st, ops).chirps[id]);
            && c'.username == c.username && c'.parentId == c.parentId && c'.time == c.time
            && (NeverEdited(ops, id) ==> c'.text == c.text)
    decreases |ops|
  {
    if ops != [] {
      StepKeepsInv(st, ops[0]);
      var next := Step(st, ops[0]);
      if id !in next.chirps {
        DeadStaysDead(next, ops[1..], id);
        assert false;
      }
      StepOnChirp(st, ops[0], id);
      SurvivorUnchanged(next, ops[1..], id);
    }
  }

  lemma RunCons(st: State, op: Op, rest: seq<Op>)
    requires Room(st, 1 + |rest|)
    ensures Room(Step(st, op), |rest|)
    ensures Run(st, [op] + rest) == Run(Step(st, op), rest)
  {
    StepKeepsInv(st, op);
    assert ([op] + rest)[1..] == rest;
  }

  lemma {:induction false} RunConcat(st: State, a: seq<Op>, b: seq<Op>)
    requires Room(st, |a| + |b|)
    ensures Room(Run(st, a), |b|)
    ensures Run(st, a + b) == Run(Run(st, a), b)
    decreases |a|
  {
    if a == [] {
      assert a + b == b;
    } else {
      assert (a + b)[1..] == a[1..] + b;
      StepKeepsInv(st, a[0]);
      RunConcat(Step(st, a[0]), a[1..], b);
    }
  }

  /** The RPC surface cannot remove a chirp, nor change one but for its replies. */
  lemma {:induction false} RpcRunKeepsChirps(st: State, ops: seq<Op>, id: uint64)
    requires Room(st, |ops|) && AllRpc(ops) && id in st.chirps
    ensures id in Run(st, ops).chirps && SameButChildren(st.chirps[id], Run(st, ops).chirps[id])
    decreases |ops|
  {
    if ops != [] {
      StepKeepsInv(st, ops[0]);
      RpcStepKeepsChirps(st, ops[0], id);
      RpcRunKeepsChirps(Step(st, ops[0]), ops[1..], id);
    }
  }

  lemma RpcStepKeepsChirps(st: State, op: Op, id: uint64)
    requires Inv(st) && st.counter < UINT64_LIMIT - 1 && IsRpc(op) && id in st.chirps
    ensures id in Step(st, op).chirps && SameButChildren(st.chirps[id], Step(st, op).chirps[id])
  {
    if op.Post? && LoggedIn(st, op) && PostChirp(st, op.user, op.text, op.parentId, op.now).1 == OK {
      PostedChirps(st, op.user, op.text, op.parentId, op.now);
    }
  }

  ghost function AllocatedByStep(st: State, op: Op): seq<uint64>
    requires st.counter < UINT64_LIMIT - 1
  {
    if op.Post? && LoggedIn(st, op) then [st.counter + 1] else []
  }

  lemma AllocationStep(st: State, op: Op)
    requires st.counter < UINT64_LIMIT - 1
    ensures Step(st, op).counter == st.counter + |AllocatedByStep(st, op)|
  {
  }

  /** The ids taken from the counter during a run, failed replies included. */
  ghost function Allocations(st: State, ops: seq<Op>): seq<uint64>
    requires Room(st, |ops|)
    decreases |ops|
  {
    if ops == [] then []
    else
      StepKeepsInv(st, ops[0]);
      AllocatedByStep(st, ops[0]) + Allocations(Step(st, ops[0]), ops[1..])
  }

  /** Every allocated id is new and they only ever grow. */
  lemma {:induction false} AllocationsIncrease(st: State, ops: seq<Op>)
    requires Room(st, |ops|)
    ensures var ids := Allocations(st, ops);
            && (forall i :: 0 <= i < |ids| ==> st.counter < ids[i] <= Run(st, ops).counter)
            && (forall i, j :: 0 <= i < j < |ids| ==> ids[i] < ids[j])
            && Run(st, ops).counter == st.counter + |ids|
    decreases |ops|
  {
    if ops != [] {
      StepKeepsInv(st, ops[0]);
      AllocationStep(st, ops[0]);
      AllocationsIncrease(Step(st, ops[0]), ops[1..]);
    }
  }

  /** A post that is answered OK got an id above its parent's, and that id holds the posted text. */
  lemma PostedIdIsFresh(st: State, user: Bytes, text: Bytes, parentId: uint64, now: Timeval)
    requires Inv(st) && st.counter < UINT64_LIMIT - 1
    ensures match ReplyOf(st, Post(user, text, parentId, now))
            case Posted(OK, Some(id)) =>
              && user in st.users && id !in st.chirps && id > parentId
              && Step(st, Post(user, text, parentId, now)).chirps.Keys == st.chirps.Keys + {id}
              && Step(st, Post(user, text, parentId, now)).chirps[id] == Chirp(id, user, parentId, text, now, {})
            case _ => Step(st, Post(user, text, parentId, now)).chirps == st.chirps
  {
    if user in st.users && PostChirp(st, user, text, parentId, now).1 == OK {
      PostedChirps(st, user, text, parentId, now);
    }
  }

  // ---------- deletion ----------

  /** Posting and at once deleting changes nothing but the counter, the author's last update and
      the tag index. */
  lemma PostThenDelete(st: State, user: Bytes, text: Bytes, parentId: uint64, now: Timeval)
    requires Inv(st) && user in st.users && st.counter < UINT64_LIMIT - 1
    requires PostChirp(st, user, text, parentId, now).1 == OK
    ensures var posted := PostChirp(st, user, text, parentId, now).0;
            DeleteChirp(posted, user, posted.counter) == (st.(
              counter := st.counter + 1,
              users := st.users[user := User(user, now)],
              tags := AddTags(st.tags, TagsOf(text), st.counter + 1)), OK)
  {
    PostedChirps(st, user, text, parentId, now);
    PostThenDeleteChirps(st, user, text, parentId, now);
    PostThenDeleteLists(st, user, text, parentId, now);
  }

  lemma PostThenDeleteChirps(st: State, user: Bytes, text: Bytes, parentId: uint64, now: Timeval)
    requires Inv(st) && user in st.users && st.counter < UINT64_LIMIT - 1
    requires PostChirp(st, user, text, parentId, now).1 == OK
    ensures var posted := PostChirp(st, user, text, parentId, now).0;
            && DeleteChirp(posted, user, posted.counter).1 == OK
            && DeleteChirp(posted, user, posted.counter).0.chirps == st.chirps
  {
    var posted := PostChirp(st, user, text, parentId, now).0;
    PostChirpKeepsInv(st, user, text, parentId, now);
    PostedIsDeletable(st, user, text, parentId, now);
    DeletedChirps(posted, user, posted.counter);
    UndoneChirps(st, posted, DeleteChirp(posted, user, posted.counter).0, user, text, parentId, now);
  }

  lemma PostedIsDeletable(st: State, user: Bytes, text: Bytes, parentId: uint64, now: Timeval)
    requires Inv(st) && user in st.users && st.counter < UINT64_LIMIT - 1
    requires PostChirp(st, user, text, parentId, now).1 == OK
    ensures var posted := PostChirp(st, user, text, parentId, now).0;
            && posted.counter in posted.chirps && posted.chirps[posted.counter].parentId == parentId
            && DeleteChirp(posted, user, posted.counter).1 == OK
  {
    PostedChirps(st, user, text, parentId, now);
  }

  lemma UndoneChirps(st: State, posted: State, deleted: State, user: Bytes, text: Bytes, parentId: uint64, now: Timeval)
    requires Inv(st) && st.counter < UINT64_LIMIT - 1
    requires PostChirp(st, user, text, parentId, now) == (posted, OK)
    requires posted.counter in posted.chirps && posted.chirps[posted.counter].parentId == parentId
    requires deleted.chirps.Keys == posted.chirps.Keys - {posted.counter}
    requires forall c :: c in deleted.chirps ==>
      deleted.chirps[c] == if c == parentId then EraseChild(posted.chirps[c], posted.counter) else posted.chirps[c]
    ensures deleted.chirps == st.chirps
  {
    PostedChirps(st, user, text, parentId, now);
    NewIdIsNobodysChild(st);
    UndoneMap(st.chirps, posted.chirps, deleted.chirps, parentId, posted.counter);
  }

  lemma UndoneMap(before: map<uint64, Chirp>, posted: map<uint64, Chirp>, deleted: map<uint64, Chirp>,
                  parentId: uint64, id: uint64)
    requires id !in before && posted.Keys == before.Keys + {id} && deleted.Keys == posted.Keys - {id}
    requires forall c :: c in before ==> posted[c] == if c == parentId then InsertChild(before[c], id) else before[c]
    requires forall c :: c in deleted ==> deleted[c] == if c == parentId then EraseChild(posted[c], id) else posted[c]
    requires forall c :: c in before ==> EraseChild(InsertChild(before[c], id), id) == before[c]
    ensures deleted == before
  {
  }

  lemma PostThenDeleteLists(st: State, user: Bytes, text: Bytes, parentId: uint64, now: Timeval)
    requires Inv(st) && user in st.users && st.counter < UINT64_LIMIT - 1
    requires PostChirp(st, user, text, parentId, now).1 == OK
    ensures var posted := PostChirp(st, user, text, parentId, now).0;
            posted.chirpLists[user := ChirpListOf(posted, user) - {posted.counter}] == st.chirpLists
  {
    assert st.counter + 1 !in st.chirps;
    assert st.counter + 1 !in ChirpListOf(st, user);
    var posted := PostChirp(st, user, text, parentId, now).0;
    assert ChirpListOf(posted, user) - {posted.counter} == st.chirpLists[user];
  }

  lemma NewIdIsNobodysChild(st: State)
    requires Inv(st) && st.counter < UINT64_LIMIT - 1
    ensures forall c :: c in st.chirps ==>
      EraseChild(InsertChild(st.chirps[c], st.counter + 1), st.counter + 1) == st.chirps[c]
  {
    forall c | c in st.chirps
      ensures EraseChild(InsertChild(st.chirps[c], st.counter + 1), st.counter + 1) == st.chirps[c]
    {
      var kids := st.chirps[c].childrenIds;
      assert forall k :: k in kids ==> k in st.chirps;
      assert kids + {st.counter + 1} - {st.counter + 1} == kids;
    }
  }

  ghost predicate Orphan(st: State, id: uint64) {
    id in st.chirps && st.chirps[id].parentId > 0 && st.chirps[id].parentId !in st.chirps
  }

  lemma {:induction false} OrphanStays(st: State, ops: seq<Op>, id: uint64)
    requires Room(st, |ops|) && Orphan(st, id)
    ensures Orphan(Run(st, ops), id)
    decreases |ops|
  {
    if ops != [] {
      StepKeepsInv(st, ops[0]);
      var next := Step(st, ops[0]);
      assert id in next.chirps by { OrphanSurvivesStep(st, ops[0], id); }
      StepOnChirp(st, ops[0], id);
      var parentId := st.chirps[id].parentId;
      if parentId in next.chirps {
        StepOnChirp(st, ops[0], parentId);
      }
      OrphanStays(next, ops[1..], id);
    }
  }

  lemma OrphanSurvivesStep(st: State, op: Op, id: uint64)
    requires Inv(st) && st.counter < UINT64_LIMIT - 1 && Orphan(st, id)
    ensures id in Step(st, op).chirps
  {
    if LoggedIn(st, op) {
      match op
      case Post(user, text, parentId, now) =>
        if PostChirp(st, user, text, parentId, now).1 == OK {
          PostedChirps(st, user, text, parentId, now);
        }
      case Delete(user, d) => OrphanSurvivesDelete(st, user, d, id);
      case _ =>
    }
  }

  lemma OrphanSurvivesDelete(st: State, user: Bytes, d: uint64, id: uint64)
    requires Inv(st) && Orphan(st, id)
    ensures id in DeleteChirp(st, user, d).0.chirps
  {
    if DeleteChirp(st, user, d).1 == OK {
      DeletedChirps(st, user, d);
    }
  }

  /** Some run removes a live chirp exactly when it is no reply or its parent is still live: a reply
      whose parent has been deleted can never be deleted. */
  lemma DeletableIff(st: State, id: uint64)
    requires Room(st, 1) && id in st.chirps
    ensures (exists ops :: Room(st, |ops|) && id !in Run(st, ops).chirps) <==> !Orphan(st, id)
  {
    if Orphan(st, id) {
      forall ops | Room(st, |ops|)
        ensures id in Run(st, ops).chirps
      {
        OrphanStays(st, ops, id);
      }
    } else {
      DeleteRemoves(st, id);
      assert id !in Run(st, [Delete(st.chirps[id].username, id)]).chirps;
    }
  }

  lemma DeleteRemoves(st: State, id: uint64)
    requires Room(st, 1) && id in st.chirps && !Orphan(st, id)
    ensures id !in Run(st, [Delete(st.chirps[id].username, id)]).chirps
  {
    var op := Delete(st.chirps[id].username, id);
    DeletedChirps(st, st.chirps[id].username, id);
    StepKeepsInv(st, op);
    assert Run(st, [op]) == Run(Step(st, op), [op][1..]);
  }

  lemma OrphanIsNotDeleted(st: State, id: uint64)
    requires Inv(st) && st.counter < UINT64_LIMIT - 1 && Orphan(st, id)
    ensures ReplyOf(st, Delete(st.chirps[id].username, id)) == Code(REPLY_ID_NOT_FOUND)
  {
  }

  /** How a reply gets orphaned: the author posts a chirp and a reply to it, and deletes the chirp.
      Whatever happens from then on, deleting the reply fails. */
  lemma ReplyGetsOrphaned(a: Bytes, text: Bytes, now: Timeval, more: seq<Op>)
    requires a != [] && |more| < UINT64_LIMIT - 5
    ensures Room(INITIAL, 5 + |more|)
    ensures var ops := [Register(a, now), Post(a, text, 0, now), Post(a, text, 1, now), Delete(a, 1)] + more;
            Orphan(Run(INITIAL, ops), 2) && ReplyOf(Run(INITIAL, ops), Delete(a, 2)) == Code(REPLY_ID_NOT_FOUND)
  {
    InitialInv();
    var first := [Register(a, now), Post(a, text, 0, now), Post(a, text, 1, now), Delete(a, 1)];
    OrphaningRun(a, text, now);
    RunConcat(INITIAL, first, more);
    OrphanStays(Run(INITIAL, first), more, 2);
    SurvivorUnchanged(Run(INITIAL, first), more, 2);
    OrphanIsNotDeleted(Run(INITIAL, first + more), 2);
  }

  lemma OrphaningRun(a: Bytes, text: Bytes, now: Timeval)
    requires a != []
    ensures Room(INITIAL, 4)
    ensures var st := Run(INITIAL, [Register(a, now), Post(a, text, 0, now), Post(a, text, 1, now), Delete(a, 1)]);
            st.counter == 2 && Orphan(st, 2) && st.chirps[2].username == a
  {
    InitialInv();
    var ops := [Register(a, now), Post(a, text, 0, now), Post(a, text, 1, now), Delete(a, 1)];
    var registered := Step(INITIAL, ops[0]);
    var posted := Step(registered, ops[1]);
    var replied := Step(posted, ops[2]);
    assert posted.counter == 1 && replied.counter == 2;
    RunFour(INITIAL, ops[0], ops[1], ops[2], ops[3]);
  }

  lemma RunThree(st: State, a: Op, b: Op, c: Op)
    requires Room(st, 3)
    ensures Room(Step(st, a), 2)
    ensures Room(Step(Step(st, a), b), 1)
    ensures Run(st, [a, b, c]) == Step(Step(Step(st, a), b), c)
  {
    assert [a, b, c] == [a] + [b, c] && [b, c] == [b] + [c] && [c] == [c] + [];
    RunCons(st, a, [b, c]);
    RunCons(Step(st, a), b, [c]);
    RunCons(Step(Step(st, a), b), c, []);
  }

  lemma RunFour(st: State, a: Op, b: Op, c: Op, d: Op)
    requires Room(st, 4)
    ensures Room(Step(st, a), 3)
    ensures Room(Step(Step(st, a), b), 2)
    ensures Room(Step(Step(Step(st, a), b), c), 1)
    ensures Run(st, [a, b, c, d]) == Step(Step(Step(Step(st, a), b), c), d)
  {
    assert [a, b, c, d] == [a] + [b, c, d];
    RunCons(st, a, [b, c, d]);
    RunThree(Step(st, a), b, c, d);
  }

  // ---------- the tag index over a run ----------

  /** The id of a successful post whose text, as posted, had tag t. */
  ghost function PostedByStep(st: State, op: Op, t: Bytes): set<uint64>
    requires Inv(st) && st.counter < UINT64_LIMIT - 1
  {
    if op.Post? && ReplyOf(st, op) == Posted(OK, Some(st.counter + 1)) && HasTag(op.text, t)
    then {st.counter + 1} else {}
  }

  /** The ids of all of them in a run. */
  ghost function PostedWithTag(st: State, ops: seq<Op>, t: Bytes): set<uint64>
    requires Room(st, |ops|)
    decreases |ops|
  {
    if ops == [] then {}
    else
      StepKeepsInv(st, ops[0]);
      PostedByStep(st, ops[0], t) + PostedWithTag(Step(st, ops[0]), ops[1..], t)
  }

  lemma TagIndexStep(st: State, op: Op, t: Bytes)
    requires Inv(st) && st.counter < UINT64_LIMIT - 1
    ensures TagList(Step(st, op).tags, t) == TagList(st.tags, t) + PostedByStep(st, op, t)
  {
    if op.Post? {
      AddTagsLookup(st.tags, TagsOf(op.text), st.counter + 1, t);
    }
  }

  /** Under the full API the index is the posting history, so it never shrinks. */
  lemma {:induction false} TagIndexIsHistory(st: State, ops: seq<Op>, t: Bytes)
    requires Room(st, |ops|)
    ensures TagList(Run(st, ops).tags, t) == TagList(st.tags, t) + PostedWithTag(st, ops, t)
    decreases |ops|
  {
    if ops != [] {
      StepKeepsInv(st, ops[0]);
      TagIndexStep(st, ops[0], t);
      TagIndexIsHistory(Step(st, ops[0]), ops[1..], t);
    }
  }

  /** The ids of the live chirps whose text has tag t: what the index is there to speed up. */
  ghost function LiveWithTag(st: State, t: Bytes): set<uint64> {
    set id | id in st.chirps && HasTag(st.chirps[id].text, t)
  }

  ghost predicate TagsAgree(st: State) {
    forall t :: TagList(st.tags, t) == LiveWithTag(st, t)
  }

  lemma RpcStepKeepsTagsAgree(st: State, op: Op)
    requires Inv(st) && st.counter < UINT64_LIMIT - 1 && TagsAgree(st) && IsRpc(op)
    ensures TagsAgree(Step(st, op))
  {
    var next := Step(st, op);
    if op.Post? && LoggedIn(st, op) && PostChirp(st, op.user, op.text, op.parentId, op.now).1 == OK {
      forall t
        ensures TagList(next.tags, t) == LiveWithTag(next, t)
      {
        PostKeepsTagAgreement(st, op.user, op.text, op.parentId, op.now, t);
      }
    } else {
      assert next.chirps == st.chirps && next.tags == st.tags;
      assert forall t :: LiveWithTag(next, t) == LiveWithTag(st, t);
    }
  }

  lemma PostKeepsTagAgreement(st: State, user: Bytes, text: Bytes, parentId: uint64, now: Timeval, t: Bytes)
    requires Inv(st) && user in st.users && st.counter < UINT64_LIMIT - 1
    requires PostChirp(st, user, text, parentId, now).1 == OK
    requires TagList(st.tags, t) == LiveWithTag(st, t)
    ensures var next := PostChirp(st, user, text, parentId, now).0;
            TagList(next.tags, t) == LiveWithTag(next, t)
  {
    var next := PostChirp(st, user, text, parentId, now).0;
    var id: uint64 := st.counter + 1;
    PostedChirps(st, user, text, parentId, now);
    AddTagsLookup(st.tags, TagsOf(text), id, t);
    LiveWithTagMore(st, next, id, t);
  }

  lemma LiveWithTagMore(st: State, st': State, id: uint64, t: Bytes)
    requires id !in st.chirps && st'.chirps.Keys == st.chirps.Keys + {id}
    requires forall c :: c in st.chirps ==> st'.chirps[c].text == st.chirps[c].text
    ensures LiveWithTag(st', t) == LiveWithTag(st, t) + (if HasTag(st'.chirps[id].text, t) then {id} else {})
  {
  }

  /** In every run of the RPC surface the index lists exactly the stored chirps that have the tag. */
  lemma {:induction false} RpcRunKeepsTagsAgree(st: State, ops: seq<Op>)
    requires Room(st, |ops|) && TagsAgree(st) && AllRpc(ops)
    ensures TagsAgree(Run(st, ops))
    decreases |ops|
  {
    if ops != [] {
      StepKeepsInv(st, ops[0]);
      RpcStepKeepsTagsAgree(st, ops[0]);
      RpcRunKeepsTagsAgree(Step(st, ops[0]), ops[1..]);
    }
  }

  lemma InitialTagsAgree()
    ensures Room(INITIAL, 0) && TagsAgree(INITIAL)
  {
    InitialInv();
    forall t
      ensures TagList(INITIAL.tags, t) == LiveWithTag(INITIAL, t)
    {
      assert LiveWithTag(INITIAL, t) == {};
    }
  }

  /** After any run from the empty store, StreamFrom aborts on its CHECK exactly when some chirp
      posted with the tag is no longer live. On the RPC surface that never happens. */
  lemma StreamAbortsIff(ops: seq<Op>, tag: Bytes, from: Timeval, now: Timeval)
    requires |ops| < UINT64_LIMIT
    ensures Room(INITIAL, |ops|)
    ensures StreamFrom(Run(INITIAL, ops), tag, from, now).None? <==>
            exists id :: id in PostedWithTag(INITIAL, ops, tag) && id !in Run(INITIAL, ops).chirps
    ensures AllRpc(ops) ==> StreamFrom(Run(INITIAL, ops), tag, from, now).Some?
  {
    InitialTagsAgree();
    TagIndexIsHistory(INITIAL, ops, tag);
    if AllRpc(ops) {
      RpcRunKeepsTagsAgree(INITIAL, ops);
      assert LiveWithTag(Run(INITIAL, ops), tag) <= Run(INITIAL, ops).chirps.Keys;
    }
  }

  /** How the abort comes about: a user registers, posts "#t" and deletes the chirp. Streaming t, in
      whatever window, then fails the CHECK. */
  lemma DeletedTagAborts(a: Bytes, t: Bytes, now: Timeval, from: Timeval, upto: Timeval)
    requires a != [] && t != [] && SPACE !in t
    ensures Room(INITIAL, 3)
    ensures var ops := [Register(a, now), Post(a, [HASH] + t, 0, now), Delete(a, 1)];
            StreamFrom(Run(INITIAL, ops), t, from, upto).None?
  {
    var ops := [Register(a, now), Post(a, [HASH] + t, 0, now), Delete(a, 1)];
    InitialInv();
    HashWordHasTag(t);
    var registered := Step(INITIAL, ops[0]);
    AddTagsLookup(registered.tags, TagsOf([HASH] + t), 1, t);
    RunThree(INITIAL, ops[0], ops[1], ops[2]);
    var posted := Step(registered, ops[1]);
    assert 1 in TagList(posted.tags, t) && posted.counter == 1;
    assert 1 !in Step(posted, ops[2]).chirps;
  }

  /** No CHECK about a missing record can fire in a run of the RPC surface: followees are registered,
      and listed as well as indexed chirps are live. Only the last needs the restriction. */
  lemma NoCheckFires(ops: seq<Op>)
    requires |ops| < UINT64_LIMIT && AllRpc(ops)
    ensures Room(INITIAL, |ops|)
    ensures var st := Run(INITIAL, ops);
            && (forall u, f :: f in FollowingOf(st, u) ==> f in st.users)
            && (forall u, id :: id in ChirpListOf(st, u) ==> id in st.chirps)
            && (forall t, id :: id in TagList(st.tags, t) ==> id in st.chirps)
  {
    InitialTagsAgree();
    RpcRunKeepsTagsAgree(INITIAL, ops);
    TagsAgreeLive(Run(INITIAL, ops));
  }

  lemma TagsAgreeLive(st: State)
    requires TagsAgree(st)
    ensures forall t, id :: id in TagList(st.tags, t) ==> id in st.chirps
  {
    assert forall t, id :: id in TagList(st.tags, t) ==> id in LiveWithTag(st, t);
  }
}
