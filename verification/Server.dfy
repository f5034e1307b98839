/** service_server: the RPC handlers on top of the class API. */
module Server {
  import opened Primitives
  import opened Records
  import opened Model
  import opened Threads
  import opened Runs
  import opened History
  import opened Client
  import opened Session

  class ReadReply {
    var chirps: seq<GrpcChirp>

    constructor ()
      ensures chirps == []
    {
      chirps := [];
    }
  }

  /** The outcome of the chirp RPC; Aborted when the CHECK on reading the new chirp back fails. */
  datatype ChirpReply = UserNotFound | Failed(code: ReturnCode) | Stored(chirp: GrpcChirp) | Aborted

  /** What the chirp RPC answers, given the reply to the post and the state it reads back from. */
  function ChirpOutcome(posted: Reply, later: State): ChirpReply {
    match posted
    case Posted(_, Some(id)) =>
      if id in later.chirps then Stored(InternalChirpToGrpcChirp(later.chirps[id])) else Aborted
    case Posted(code, None) => Failed(code)
    case _ => UserNotFound
  }

  /** Only after a successful post does the handler get to its second call. */
  predicate ReadsBack(posted: Reply) {
    posted.Posted? && posted.id.Some?
  }

  /** The reply to a post of a logged-in user names a chirp exactly if it succeeded, and then the
      chirp is there, as posted. */
  lemma PostedIdIsLive(st: State, op: Op)
    requires Inv(st) && st.counter < UINT64_LIMIT - 1 && op.Post? && op.user in st.users
    ensures var (next, reply) := (Step(st, op), ReplyOf(st, op));
            && reply.Posted? && (reply.code == OK <==> reply.id.Some?)
            && (reply.id.Some? ==>
                  && reply.id.value in next.chirps
                  && next.chirps[reply.id.value] == Chirp(reply.id.value, op.user, op.parentId, op.text, op.now, {}))
  {
    PostedIdIsFresh(st, op.user, op.text, op.parentId, op.now);
  }

  /** The answer carries the chirp as it was posted. */
  predicate IsMessage(r: ChirpReply, id: uint64, post: Op)
    requires post.Post?
  {
    r == Stored(GrpcChirp(post.user, post.text, Uint64ToBinary(id), Uint64ToBinary(post.parentId), post.now))
  }

  /** Unknown users, and those who reply to a chirp that is not there, are told so; it does not matter
      what the others call. */
  lemma ChirpRpcRefuses(st: State, op: Op, later: State)
    requires Inv(st) && st.counter < UINT64_LIMIT - 1 && op.Post?
    requires op.user !in st.users || (op.parentId > 0 && op.parentId !in st.chirps)
    ensures ChirpOutcome(ReplyOf(st, op), later) ==
            if op.user !in st.users then UserNotFound else Failed(REPLY_ID_NOT_FOUND)
  {
    PostReply(st, op.user, op.text, op.parentId, op.now);
  }

  /** All others get the chirp as posted, under the id that the post was given: as long as the others
      stay on the RPC surface, the CHECK holds, whatever they call between the post and the read. */
  lemma ReadBackAsPosted(st: State, op: Op, between: seq<Op>)
    requires Room(st, 1 + |between|) && op.Post? && op.user in st.users && AllRpc(between)
    ensures Room(Step(st, op), |between|)
    ensures match ReplyOf(st, op)
            case Posted(OK, Some(id)) => IsMessage(ChirpOutcome(ReplyOf(st, op), Run(Step(st, op), between)), id, op)
            case reply => reply.Posted? && reply.id.None? && reply.code != OK
  {
    StepKeepsInv(st, op);
    PostedIdIsLive(st, op);
    var reply := ReplyOf(st, op);
    if reply.id.Some? {
      RpcRunKeepsChirps(Step(st, op), between, reply.id.value);
    }
  }

  /** With the class API open to others, the CHECK can fail for every post that succeeds: its author
      deletes the chirp before it is read back. */
  lemma ReadBackCanAbort(st: State, op: Op)
    requires Room(st, 2) && op.Post? && op.user in st.users
    ensures Room(Step(st, op), 1)
    ensures ReplyOf(st, op).Posted? && ReplyOf(st, op).id.Some? ==>
              var id := ReplyOf(st, op).id.value;
              ChirpOutcome(ReplyOf(st, op), Run(Step(st, op), [Delete(op.user, id)])) == Aborted
  {
    StepKeepsInv(st, op);
    PostedIdIsLive(st, op);
    var reply := ReplyOf(st, op);
    if reply.id.Some? {
      PostedIsDeletable(st, op.user, op.text, op.parentId, op.now);
      DeleteRemoves(Step(st, op), reply.id.value);
    }
  }

  lemma GrpcViewsConcat(st: State, a: seq<uint64>, b: seq<uint64>)
    requires (forall x :: x in a ==> x in st.chirps) && (forall x :: x in b ==> x in st.chirps)
    ensures forall x :: x in a + b ==> x in st.chirps
    ensures GrpcViews(st, a + b) == GrpcViews(st, a) + GrpcViews(st, b)
  {
  }

  /** What a chirp's children still to be visited will add to the reply. */
  ghost function RepliesLeft(st: State, id: uint64, rest: set<uint64>): seq<GrpcChirp>
    requires Forest(st) && id in st.chirps && rest <= st.chirps[id].childrenIds
  {
    GrpcViews(st, PreorderAll(st, id, Sorted(rest)))
  }

  lemma NextReply(st: State, id: uint64, rest: set<uint64>, k: uint64)
    requires Forest(st) && id in st.chirps && rest <= st.chirps[id].childrenIds
    requires k in rest && forall x :: x in rest ==> k <= x
    ensures k in st.chirps && k > id
    ensures RepliesLeft(st, id, rest) == GrpcViews(st, Preorder(st, k)) + RepliesLeft(st, id, rest - {k})
  {
    assert Min(rest) == k;
    assert Sorted(rest)[1..] == Sorted(rest - {k});
    GrpcViewsConcat(st, Preorder(st, k), PreorderAll(st, id, Sorted(rest - {k})));
  }

  lemma FirstReply(st: State, id: uint64)
    requires Forest(st) && id in st.chirps
    ensures GrpcViews(st, Preorder(st, id)) ==
            [InternalChirpToGrpcChirp(st.chirps[id])] + RepliesLeft(st, id, st.chirps[id].childrenIds)
  {
    GrpcViewsConcat(st, [id], PreorderAll(st, id, Sorted(st.chirps[id].childrenIds)));
  }

  lemma NoReplyLeft(st: State, id: uint64, done: seq<GrpcChirp>)
    requires Forest(st) && id in st.chirps
    ensures done + RepliesLeft(st, id, {}) == done
  {
  }

  class ServiceImpl {
    const service: ServiceDataStructure

    ghost predicate Valid()
      reads service, service.connect, service.connect.client.store
    {
      service.Valid()
    }

    ghost function St(): State
      reads service.connect
    {
      service.connect.st
    }

    constructor (codec: Codec, kind: ClientKind)
      requires codec.Faithful()
      ensures Valid() && St() == INITIAL && service.connect.client.kind == kind
      ensures fresh(service) && fresh(service.connect) && fresh(service.connect.client.store)
    {
      service := new ServiceDataStructure(codec, kind);
    }

    /** Appends the thread of a chirp to the reply, or nothing if there is no such chirp. */
    method DfsScanChirps(reply: ReadReply, id: uint64) returns (code: ReturnCode)
      requires Valid()
      modifies reply, service.connect.client.store
      ensures Valid() && St() == old(St())
      ensures id in St().chirps ==>
        code == OK && reply.chirps == old(reply.chirps) + GrpcViews(St(), Preorder(St(), id))
      ensures id !in St().chirps ==> code == CHIRP_ID_NOT_FOUND && reply.chirps == old(reply.chirps)
      decreases if id in St().chirps then St().counter - id + 1 else 0
    {
      var ret, chirp := service.ReadChirp(id);
      if ret != OK {
        return CHIRP_ID_NOT_FOUND;
      }
      ghost var st, before := St(), reply.chirps;
      reply.chirps := reply.chirps + [InternalChirpToGrpcChirp(chirp)];
      FirstReply(st, id);
      var rest := chirp.childrenIds;
      ghost var done := [InternalChirpToGrpcChirp(chirp)];
      while rest != {}
        invariant Valid() && St() == st && rest <= chirp.childrenIds
        invariant reply.chirps == before + done
        invariant done + RepliesLeft(st, id, rest) == GrpcViews(st, Preorder(st, id))
        decreases rest
      {
        ghost var _ := MinExists(rest);
        var k :| k in rest && forall x | x in rest :: k <= x;
        NextReply(st, id, rest, k);
        ret := DfsScanChirps(reply, k);
        assert ret == OK;
        Regroup(before, done, GrpcViews(st, Preorder(st, k)));
        Regroup(done, GrpcViews(st, Preorder(st, k)), RepliesLeft(st, id, rest - {k}));
        done := done + GrpcViews(st, Preorder(st, k));
        rest := rest - {k};
      }
      NoReplyLeft(st, id, done);
      return OK;
    }

    /** The read RPC: the whole thread under the requested chirp. */
    method ReadRpc(chirpId: Bytes) returns (code: ReturnCode, reply: ReadReply)
      requires Valid() && |chirpId| >= 8
      modifies service.connect.client.store
      ensures Valid() && St() == old(St()) && fresh(reply)
      ensures var id := BinaryToUint64(chirpId);
              if id in St().chirps then code == OK && reply.chirps == GrpcViews(St(), Preorder(St(), id))
              else code == CHIRP_ID_NOT_FOUND && reply.chirps == []
    {
      reply := new ReadReply();
      code := DfsScanChirps(reply, BinaryToUint64(chirpId));
    }

    /** The chirp RPC posts, and reads the new chirp back after whatever others call in between. */
    method ChirpRpc(username: Bytes, text: Bytes, parentId: Bytes, now: Timeval, between: seq<Op>)
      returns (r: ChirpReply)
      requires Valid() && |parentId| >= 8 && Room(St(), 1 + |between|)
      modifies service.connect, service.connect.client.store
      ensures Valid()
      ensures Room(Step(old(St()), Post(username, text, BinaryToUint64(parentId), now)), |between|)
      ensures var op := Post(username, text, BinaryToUint64(parentId), now);
              var posted := Step(old(St()), op);
              && St() == (if ReadsBack(ReplyOf(old(St()), op)) then Run(posted, between) else posted)
              && r == ChirpOutcome(ReplyOf(old(St()), op), St())
    {
      ghost var op := Post(username, text, BinaryToUint64(parentId), now);
      StepKeepsInv(St(), op);
      var session := service.UserLogin(username);
      if session == null {
        return UserNotFound;
      }
      var posted := PostIn(session, Post(username, text, BinaryToUint64(parentId), now));
      if posted.id.None? {
        return Failed(posted.code);
      }
      r := ReadBack(posted.id.value, between);
    }

    method ReadBack(id: uint64, between: seq<Op>) returns (r: ChirpReply)
      requires Valid() && Room(St(), |between|)
      modifies service.connect, service.connect.client.store
      ensures Valid() && St() == Run(old(St()), between)
      ensures r == if id in St().chirps then Stored(InternalChirpToGrpcChirp(St().chirps[id])) else Aborted
    {
      var _ := PerformAll(between);
      var ret, chirp := service.ReadChirp(id);
      r := if ret == OK then Stored(InternalChirpToGrpcChirp(chirp)) else Aborted;  // CHECK
    }

    /** Any one call of the class API on behalf of some caller. */
    method Perform(op: Op) returns (reply: Reply)
      requires Valid() && St().counter < UINT64_LIMIT - 1
      modifies service.connect, service.connect.client.store
      ensures Valid()
      ensures St() == Step(old(St()), op) && reply == ReplyOf(old(St()), op)
    {
      match op
      case Register(username, now) =>
        var code := service.UserRegister(username, now);
        reply := Code(code);
      case Stream(tag, from, now) =>
        var result, _ := service.StreamFrom(from, now, tag);
        reply := Streamed(result);
      case Read(id) =>
        var thread := new ReadReply();
        var code := DfsScanChirps(thread, id);
        reply := Reply.Thread(code, thread.chirps);
      case _ =>
        reply := LoginAndPerform(op);
    }

    method LoginAndPerform(op: Op) returns (reply: Reply)
      requires Valid() && St().counter < UINT64_LIMIT - 1
      requires !op.Register? && !op.Stream? && !op.Read?
      modifies service.connect, service.connect.client.store
      ensures Valid()
      ensures St() == Step(old(St()), op) && reply == ReplyOf(old(St()), op)
    {
      var session := service.UserLogin(op.user);
      if session == null {
        return NotLoggedIn;
      }
      reply := PerformIn(session, op);
    }

    method PostIn(session: UserSession, op: Op) returns (reply: Reply)
      requires session.Valid() && session.connect == service.connect && St().counter < UINT64_LIMIT - 1
      requires op.Post? && op.user == session.user.username
      modifies session, service.connect, service.connect.client.store
      ensures Valid()
      ensures St() == Step(old(St()), op) && reply == ReplyOf(old(St()), op)
    {
      var code, id := session.PostChirp(op.text, op.parentId, op.now);
      reply := Posted(code, id);
    }

    method ChangeIn(session: UserSession, op: Op) returns (reply: Reply)
      requires session.Valid() && session.connect == service.connect && St().counter < UINT64_LIMIT - 1
      requires (op.Edit? || op.Delete?) && op.user == session.user.username
      modifies service.connect, service.connect.client.store
      ensures Valid()
      ensures St() == Step(old(St()), op) && reply == ReplyOf(old(St()), op)
    {
      var code;
      if op.Edit? {
        code := session.EditChirp(op.id, op.newText);
      } else {
        code := session.DeleteChirp(op.id);
      }
      reply := Code(code);
    }

    method PerformIn(session: UserSession, op: Op) returns (reply: Reply)
      requires session.Valid() && session.connect == service.connect && St().counter < UINT64_LIMIT - 1
      requires !op.Register? && !op.Stream? && !op.Read? && op.user == session.user.username
      modifies session, service.connect, service.connect.client.store
      ensures Valid()
      ensures St() == Step(old(St()), op) && reply == ReplyOf(old(St()), op)
    {
      match op
      case Follow(_, followee) =>
        var code := session.Follow(followee);
        reply := Code(code);
      case Unfollow(_, followee) =>
        var code := session.Unfollow(followee);
        reply := Code(code);
      case Post(_, _, _, _) =>
        reply := PostIn(session, op);
      case Edit(_, _, _) =>
        reply := ChangeIn(session, op);
      case Delete(_, _) =>
        reply := ChangeIn(session, op);
      case Monitor(_, from, now) =>
        var ids, _ := session.MonitorFrom(from, now);
        reply := Monitored(ids);
    }

    method PerformAll(ops: seq<Op>) returns (replies: seq<Reply>)
      requires Valid() && Room(St(), |ops|)
      modifies service.connect, service.connect.client.store
      ensures Valid()
      ensures St() == Run(old(St()), ops) && replies == Replies(old(St()), ops)
      decreases |ops|
    {
      replies := [];
      if ops != [] {
        StepKeepsInv(St(), ops[0]);
        var first := Perform(ops[0]);
        var rest := PerformAll(ops[1..]);
        replies := [first] + rest;
      }
    }
  }
}
