/** What every call answers and changes, and how the state reads back from the history of answers. */
module History {
  import opened Primitives
  import opened Records
  import opened Tags
  import opened Model
  import opened Runs

  // ---------- one call ----------

  /** The lists of all users but one are as they were, and so is everything that is no list. */
  ghost predicate SameBut(st: State, st': State, user: Bytes) {
    && st'.counter == st.counter && st'.users == st.users && st'.chirps == st.chirps && st'.tags == st.tags
    && forall u :: u != user ==> FollowingOf(st', u) == FollowingOf(st, u) && ChirpListOf(st', u) == ChirpListOf(st, u)
  }

  /** A call that needs a login is refused exactly to users who are not registered, and then changes nothing. */
  lemma RefusedIff(st: State, op: Op)
    requires Inv(st) && st.counter < UINT64_LIMIT - 1
    ensures ReplyOf(st, op) == NotLoggedIn <==>
              !op.Register? && !op.Stream? && !op.Read? && op.user !in st.users
    ensures ReplyOf(st, op) == NotLoggedIn ==> Step(st, op) == st
  {
  }

  /** A name can be registered once, and not the empty one; the new user follows nobody and has no chirp. */
  lemma RegisterAnswer(st: State, name: Bytes, now: Timeval)
    requires Inv(st) && st.counter < UINT64_LIMIT - 1
    ensures var (reply, st') := (ReplyOf(st, Register(name, now)), Step(st, Register(name, now)));
            && reply == Code(if name == [] then INVALID_ARGUMENT else if name in st.users then USER_EXISTS else OK)
            && (reply != Code(OK) ==> st' == st)
            && (reply == Code(OK) ==>
                  && SameBut(st, st'.(users := st.users), name)
                  && st'.users.Keys == st.users.Keys + {name} && st'.users[name] == User(name, now)
                  && (forall u :: u in st.users ==> st'.users[u] == st.users[u])
                  && FollowingOf(st', name) == {} && ChirpListOf(st', name) == {})
  {
  }

  /** Following adds the followee to the caller's list, if there is such a user, and touches no other. */
  lemma FollowAnswer(st: State, user: Bytes, followee: Bytes)
    requires Inv(st) && st.counter < UINT64_LIMIT - 1 && user in st.users
    ensures var (reply, st') := (ReplyOf(st, Op.Follow(user, followee)), Step(st, Op.Follow(user, followee)));
            && reply == Code(if followee in st.users then OK else FOLLOWEE_NOT_FOUND)
            && (reply != Code(OK) ==> st' == st)
            && SameBut(st, st', user) && ChirpListOf(st', user) == ChirpListOf(st, user)
            && FollowingOf(st', user) == FollowingOf(st, user) + (if followee in st.users then {followee} else {})
  {
  }

  /** Unfollowing takes the followee off the caller's list, and fails if it is not there. */
  lemma UnfollowAnswer(st: State, user: Bytes, followee: Bytes)
    requires Inv(st) && st.counter < UINT64_LIMIT - 1 && user in st.users
    ensures var (reply, st') := (ReplyOf(st, Op.Unfollow(user, followee)), Step(st, Op.Unfollow(user, followee)));
            && reply == Code(if followee in FollowingOf(st, user) then OK else FOLLOWEE_NOT_FOUND)
            && (reply != Code(OK) ==> st' == st)
            && SameBut(st, st', user) && ChirpListOf(st', user) == ChirpListOf(st, user)
            && FollowingOf(st', user) == FollowingOf(st, user) - {followee}
  {
  }

  /** A post succeeds unless it replies to a chirp that is not there, whoever wrote that. */
  lemma PostReply(st: State, user: Bytes, text: Bytes, parentId: uint64, now: Timeval)
    requires Inv(st) && st.counter < UINT64_LIMIT - 1
    ensures ReplyOf(st, Post(user, text, parentId, now)) ==
            if user !in st.users then NotLoggedIn
            else if parentId == 0 || parentId in st.chirps then Posted(OK, Some(st.counter + 1))
            else Posted(REPLY_ID_NOT_FOUND, None)
  {
  }

  /** Then it adds one chirp, to the author's list and under the tags of the text, links it to its
      parent and moves the author's last update; a failed reply only spends an id. */
  lemma PostEffect(st: State, user: Bytes, text: Bytes, parentId: uint64, now: Timeval)
    requires Inv(st) && st.counter < UINT64_LIMIT - 1 && user in st.users
    ensures var (id, st') := (st.counter + 1, Step(st, Post(user, text, parentId, now)));
            if parentId == 0 || parentId in st.chirps then
              && st'.counter == id && st'.users == st.users[user := User(user, now)]
              && ChirpAdded(st, st', Chirp(id, user, parentId, text, now, {}))
              && (forall u :: FollowingOf(st', u) == FollowingOf(st, u))
              && (forall u :: ChirpListOf(st', u) == ChirpListOf(st, u) + (if u == user then {id} else {}))
              && (forall t :: TagList(st'.tags, t) == TagList(st.tags, t) + (if HasTag(text, t) then {id} else {}))
            else st' == st.(counter := id)
  {
    PostStep(st, user, text, parentId, now);
    if parentId == 0 || parentId in st.chirps {
      PostAddsChirp(st, user, text, parentId, now);
      PostFilesTags(st.tags, text, st.counter + 1);
    }
  }

  /** A new chirp without replies, which its parent's children set gains. */
  ghost predicate ChirpAdded(st: State, st': State, c: Chirp) {
    && c.id !in st.chirps && st'.chirps.Keys == st.chirps.Keys + {c.id} && st'.chirps[c.id] == c
    && (forall id :: id in st.chirps ==> SameButChildren(st.chirps[id], st'.chirps[id]))
    && (forall id :: id in st.chirps ==>
          st'.chirps[id].childrenIds == st.chirps[id].childrenIds + (if id == c.parentId then {c.id} else {}))
  }

  lemma PostStep(st: State, user: Bytes, text: Bytes, parentId: uint64, now: Timeval)
    requires st.counter < UINT64_LIMIT - 1 && user in st.users
    ensures Step(st, Post(user, text, parentId, now)) == PostChirp(st, user, text, parentId, now).0
  {
  }

  lemma PostAddsChirp(st: State, user: Bytes, text: Bytes, parentId: uint64, now: Timeval)
    requires Inv(st) && st.counter < UINT64_LIMIT - 1
    requires PostChirp(st, user, text, parentId, now).1 == OK
    ensures ChirpAdded(st, PostChirp(st, user, text, parentId, now).0,
                       Chirp(st.counter + 1, user, parentId, text, now, {}))
  {
    PostedChirps(st, user, text, parentId, now);
    AddedOneChirp(st, PostChirp(st, user, text, parentId, now).0, Chirp(st.counter + 1, user, parentId, text, now, {}));
  }

  lemma AddedOneChirp(st: State, st': State, c: Chirp)
    requires c.id !in st.chirps && st'.chirps.Keys == st.chirps.Keys + {c.id} && st'.chirps[c.id] == c
    requires forall id :: id in st.chirps ==>
      st'.chirps[id] == if id == c.parentId then InsertChild(st.chirps[id], c.id) else st.chirps[id]
    ensures ChirpAdded(st, st', c)
  {
  }

  lemma PostFilesTags(tags: TagIndex, text: Bytes, id: uint64)
    ensures forall t :: TagList(AddTags(tags, TagsOf(text), id), t) ==
                        TagList(tags, t) + (if HasTag(text, t) then {id} else {})
  {
    forall t
      ensures TagList(AddTags(tags, TagsOf(text), id), t) ==
              TagList(tags, t) + (if HasTag(text, t) then {id} else {})
    {
      AddTagsLookup(tags, TagsOf(text), id, t);
    }
  }

  /** Only the author can edit a chirp, and what changes is its text. */
  lemma EditAnswer(st: State, user: Bytes, id: uint64, text: Bytes)
    requires Inv(st) && st.counter < UINT64_LIMIT - 1 && user in st.users
    ensures var (reply, st') := (ReplyOf(st, Edit(user, id, text)), Step(st, Edit(user, id, text)));
            && reply == Code(if id !in st.chirps then CHIRP_ID_NOT_FOUND
                             else if st.chirps[id].username != user then PERMISSION_DENIED else OK)
            && (reply != Code(OK) ==> st' == st)
            && (reply == Code(OK) ==>
                  && st'.(chirps := st.chirps) == st && st'.chirps.Keys == st.chirps.Keys
                  && st'.chirps[id] == Chirp(id, user, st.chirps[id].parentId, text,
                                             st.chirps[id].time, st.chirps[id].childrenIds)
                  && forall c :: c in st.chirps && c != id ==> st'.chirps[c] == st.chirps[c])
  {
  }

  /** Only the author can delete a chirp, and only while its parent, if it has one, is there. */
  lemma DeleteReply(st: State, user: Bytes, id: uint64)
    requires Inv(st) && st.counter < UINT64_LIMIT - 1 && user in st.users
    ensures var (reply, st') := (ReplyOf(st, Delete(user, id)), Step(st, Delete(user, id)));
            && reply == Code(if id !in st.chirps then CHIRP_ID_NOT_FOUND
                             else if st.chirps[id].username != user then PERMISSION_DENIED
                             else if Orphan(st, id) then REPLY_ID_NOT_FOUND else OK)
            && (reply != Code(OK) ==> st' == st)
  {
  }

  /** Then the chirp leaves the author's list and its parent's children set, and nothing else changes. */
  lemma DeleteEffect(st: State, user: Bytes, id: uint64)
    requires Inv(st) && st.counter < UINT64_LIMIT - 1 && user in st.users
    requires ReplyOf(st, Delete(user, id)) == Code(OK)
    ensures var st' := Step(st, Delete(user, id));
            && st'.(chirps := st.chirps, chirpLists := st.chirpLists) == st
            && (forall u :: ChirpListOf(st', u) == ChirpListOf(st, u) - {id})
            && st'.chirps.Keys == st.chirps.Keys - {id}
            && (forall c :: c in st'.chirps ==> SameButChildren(st.chirps[c], st'.chirps[c]))
            && (forall c :: c in st'.chirps ==> st'.chirps[c].childrenIds == st.chirps[c].childrenIds - {id})
  {
    DeletedChirps(st, user, id);
    OthersDoNotListIt(st, user, id);
  }

  lemma OthersDoNotListIt(st: State, user: Bytes, id: uint64)
    requires Inv(st) && id in st.chirps && st.chirps[id].username == user
    ensures forall u :: u != user ==> id !in ChirpListOf(st, u)
    ensures forall c :: c in st.chirps && c != st.chirps[id].parentId ==> id !in st.chirps[c].childrenIds
  {
  }

  // ---------- calls and their answers ----------

  /** Call i is `op` and is answered `reply`. */
  predicate Answered(ops: seq<Op>, replies: seq<Reply>, i: int, op: Op, reply: Reply)
    requires |replies| == |ops|
  {
    0 <= i < |ops| && ops[i] == op && replies[i] == reply
  }

  ghost predicate Sometime(ops: seq<Op>, replies: seq<Reply>, op: Op, reply: Reply)
    requires |replies| == |ops|
  {
    exists i :: Answered(ops, replies, i, op, reply)
  }

  /** At the first call or later. */
  lemma SometimeUnfold(ops: seq<Op>, replies: seq<Reply>, op: Op, reply: Reply)
    requires |replies| == |ops| > 0
    ensures Sometime(ops, replies, op, reply) <==>
              (ops[0] == op && replies[0] == reply) || Sometime(ops[1..], replies[1..], op, reply)
  {
    forall i | Answered(ops, replies, i, op, reply)
      ensures i == 0 || Sometime(ops[1..], replies[1..], op, reply)
    {
      assert i > 0 ==> Answered(ops[1..], replies[1..], i - 1, op, reply);
    }
    if ops[0] == op && replies[0] == reply {
      assert Answered(ops, replies, 0, op, reply);
    }
    forall i | Answered(ops[1..], replies[1..], i, op, reply)
      ensures Sometime(ops, replies, op, reply)
    {
      assert Answered(ops, replies, i + 1, op, reply);
    }
  }

  /** From call `from` on, `op` is not called. */
  predicate NeverFrom(ops: seq<Op>, from: int, op: Op) {
    forall i :: 0 <= i < |ops| && from <= i ==> ops[i] != op
  }

  lemma NeverFromTail(ops: seq<Op>, from: int, op: Op)
    requires ops != [] && from > 0
    ensures NeverFrom(ops, from, op) <==> NeverFrom(ops[1..], from - 1, op)
  {
    if NeverFrom(ops[1..], from - 1, op) {
      forall i | 0 <= i < |ops| && from <= i
        ensures ops[i] != op
      {
        assert ops[1..][i - 1] != op;
      }
    }
  }

  /** Call i is `op`, is answered `reply`, and `undo` is not called after it. */
  predicate SinceCall(ops: seq<Op>, replies: seq<Reply>, i: int, op: Op, reply: Reply, undo: Op)
    requires |replies| == |ops|
  {
    Answered(ops, replies, i, op, reply) && NeverFrom(ops, i + 1, undo)
  }

  ghost predicate Since(ops: seq<Op>, replies: seq<Reply>, op: Op, reply: Reply, undo: Op)
    requires |replies| == |ops|
  {
    exists i :: SinceCall(ops, replies, i, op, reply, undo)
  }

  lemma SinceUnfold(ops: seq<Op>, replies: seq<Reply>, op: Op, reply: Reply, undo: Op)
    requires |replies| == |ops| > 0
    ensures Since(ops, replies, op, reply, undo) <==>
              SinceCall(ops, replies, 0, op, reply, undo) || Since(ops[1..], replies[1..], op, reply, undo)
  {
    forall i | SinceCall(ops, replies, i, op, reply, undo)
      ensures i == 0 || Since(ops[1..], replies[1..], op, reply, undo)
    {
      SinceAt(ops, replies, i, op, reply, undo);
    }
    forall i | SinceCall(ops[1..], replies[1..], i, op, reply, undo)
      ensures Since(ops, replies, op, reply, undo)
    {
      SinceLater(ops, replies, i, op, reply, undo);
    }
  }

  lemma SinceAt(ops: seq<Op>, replies: seq<Reply>, i: int, op: Op, reply: Reply, undo: Op)
    requires |replies| == |ops| > 0 && SinceCall(ops, replies, i, op, reply, undo)
    ensures i == 0 || Since(ops[1..], replies[1..], op, reply, undo)
  {
    if i > 0 {
      SinceCallTail(ops, replies, i, op, reply, undo);
    }
  }

  lemma SinceLater(ops: seq<Op>, replies: seq<Reply>, i: int, op: Op, reply: Reply, undo: Op)
    requires |replies| == |ops| > 0 && SinceCall(ops[1..], replies[1..], i, op, reply, undo)
    ensures Since(ops, replies, op, reply, undo)
  {
    SinceCallTail(ops, replies, i + 1, op, reply, undo);
  }

  lemma SinceCallTail(ops: seq<Op>, replies: seq<Reply>, i: int, op: Op, reply: Reply, undo: Op)
    requires |replies| == |ops| > 0 && i > 0
    ensures SinceCall(ops, replies, i, op, reply, undo) <==>
              SinceCall(ops[1..], replies[1..], i - 1, op, reply, undo)
  {
    NeverFromTail(ops, i + 1, undo);
  }

  /** Call i is a post that was answered with this id. */
  predicate PostedAt(ops: seq<Op>, replies: seq<Reply>, i: int, id: uint64)
    requires |replies| == |ops|
  {
    0 <= i < |ops| && ops[i].Post? && replies[i] == Posted(OK, Some(id))
  }

  ghost predicate PostedAs(ops: seq<Op>, replies: seq<Reply>, id: uint64)
    requires |replies| == |ops|
  {
    exists i :: PostedAt(ops, replies, i, id)
  }

  lemma PostedAsUnfold(ops: seq<Op>, replies: seq<Reply>, id: uint64)
    requires |replies| == |ops| > 0
    ensures PostedAs(ops, replies, id) <==> PostedAt(ops, replies, 0, id) || PostedAs(ops[1..], replies[1..], id)
  {
    forall i | PostedAt(ops, replies, i, id)
      ensures i == 0 || PostedAs(ops[1..], replies[1..], id)
    {
      assert i > 0 ==> PostedAt(ops[1..], replies[1..], i - 1, id);
    }
    forall i | PostedAt(ops[1..], replies[1..], i, id)
      ensures PostedAs(ops, replies, id)
    {
      assert PostedAt(ops, replies, i + 1, id);
    }
  }

  /** Call i is a deletion of this chirp, by whomever, that was answered OK. */
  predicate DeletedAt(ops: seq<Op>, replies: seq<Reply>, i: int, id: uint64)
    requires |replies| == |ops|
  {
    0 <= i < |ops| && ops[i].Delete? && ops[i].id == id && replies[i] == Code(OK)
  }

  ghost predicate Deleted(ops: seq<Op>, replies: seq<Reply>, id: uint64)
    requires |replies| == |ops|
  {
    exists i :: DeletedAt(ops, replies, i, id)
  }

  lemma DeletedUnfold(ops: seq<Op>, replies: seq<Reply>, id: uint64)
    requires |replies| == |ops| > 0
    ensures Deleted(ops, replies, id) <==> DeletedAt(ops, replies, 0, id) || Deleted(ops[1..], replies[1..], id)
  {
    forall i | DeletedAt(ops, replies, i, id)
      ensures i == 0 || Deleted(ops[1..], replies[1..], id)
    {
      assert i > 0 ==> DeletedAt(ops[1..], replies[1..], i - 1, id);
    }
    forall i | DeletedAt(ops[1..], replies[1..], i, id)
      ensures Deleted(ops, replies, id)
    {
      assert DeletedAt(ops, replies, i + 1, id);
    }
  }

  lemma RepliesUnfold(st: State, ops: seq<Op>)
    requires Room(st, |ops|) && ops != []
    ensures Room(Step(st, ops[0]), |ops[1..]|)
    ensures Replies(st, ops)[0] == ReplyOf(st, ops[0])
    ensures Replies(st, ops)[1..] == Replies(Step(st, ops[0]), ops[1..])
    ensures Run(st, ops) == Run(Step(st, ops[0]), ops[1..])
  {
    StepKeepsInv(st, ops[0]);
  }

  // ---------- the history of a run ----------

  ghost predicate Registers(ops: seq<Op>, name: Bytes) {
    exists i :: 0 <= i < |ops| && ops[i].Register? && ops[i].username == name
  }

  lemma RegistersUnfold(ops: seq<Op>, name: Bytes)
    requires ops != []
    ensures Registers(ops, name) <==> (ops[0].Register? && ops[0].username == name) || Registers(ops[1..], name)
  {
    if i :| 0 <= i < |ops[1..]| && ops[1..][i].Register? && ops[1..][i].username == name {
      assert ops[i + 1] == ops[1..][i];
    }
    if i :| 0 <= i < |ops| && ops[i].Register? && ops[i].username == name {
      assert i > 0 ==> ops[1..][i - 1] == ops[i];
    }
  }

  /** The registered users are those whose registration was tried, but for the empty name. */
  lemma {:induction false} RegisteredIff(st: State, ops: seq<Op>, name: Bytes)
    requires Room(st, |ops|)
    ensures name in Run(st, ops).users <==> name in st.users || (name != [] && Registers(ops, name))
    decreases |ops|
  {
    if ops != [] {
      StepKeepsInv(st, ops[0]);
      RegistersUnfold(ops, name);
      RegisteredAfterStep(st, ops[0], name);
      RegisteredIff(Step(st, ops[0]), ops[1..], name);
    }
  }

  lemma RegisteredAfterStep(st: State, op: Op, name: Bytes)
    requires Inv(st) && st.counter < UINT64_LIMIT - 1
    ensures name in Step(st, op).users <==>
              name in st.users || (name != [] && op.Register? && op.username == name)
  {
  }

  /** Who follows whom: u follows f exactly if a Follow of f by u was answered OK, or u followed f
      before, and u has not called Unfollow of f since. */
  lemma {:induction false} FollowsIff(st: State, ops: seq<Op>, u: Bytes, f: Bytes)
    requires Room(st, |ops|) && (u in st.users || FollowingOf(st, u) == {})
    ensures f in FollowingOf(Run(st, ops), u) <==>
              || Since(ops, Replies(st, ops), Op.Follow(u, f), Code(OK), Op.Unfollow(u, f))
              || (f in FollowingOf(st, u) && NeverFrom(ops, 0, Op.Unfollow(u, f)))
    decreases |ops|
  {
    if ops != [] {
      RepliesUnfold(st, ops);
      SinceUnfold(ops, Replies(st, ops), Op.Follow(u, f), Code(OK), Op.Unfollow(u, f));
      NeverFromTail(ops, 1, Op.Unfollow(u, f));
      NeverFromFirst(ops, Op.Unfollow(u, f));
      FollowsAfterStep(st, ops[0], u, f);
      FollowsIff(Step(st, ops[0]), ops[1..], u, f);
    }
  }

  lemma NeverFromFirst(ops: seq<Op>, op: Op)
    requires ops != []
    ensures NeverFrom(ops, 0, op) <==> ops[0] != op && NeverFrom(ops, 1, op)
  {
  }

  lemma FollowsAfterStep(st: State, op: Op, u: Bytes, f: Bytes)
    requires Inv(st) && st.counter < UINT64_LIMIT - 1 && (u in st.users || FollowingOf(st, u) == {})
    ensures var st' := Step(st, op);
            && (u in st'.users || FollowingOf(st', u) == {})
            && (f in FollowingOf(st', u) <==>
                  || (op == Op.Follow(u, f) && ReplyOf(st, op) == Code(OK))
                  || (f in FollowingOf(st, u) && op != Op.Unfollow(u, f)))
  {
    match op
    case Register(name, now) => RegisterAnswer(st, name, now);
    case Follow(user, followee) =>
      if user in st.users {
        FollowAnswer(st, user, followee);
      }
    case Unfollow(user, followee) =>
      if user in st.users {
        UnfollowAnswer(st, user, followee);
      }
    case _ => ListsKept(st, op);
  }

  lemma ListsKept(st: State, op: Op)
    requires st.counter < UINT64_LIMIT - 1 && !op.Register? && !op.Follow? && !op.Unfollow?
    ensures Step(st, op).followings == st.followings && st.users.Keys <= Step(st, op).users.Keys
  {
  }

  lemma ChirpsKept(st: State, op: Op)
    requires st.counter < UINT64_LIMIT - 1 && !op.Post? && !op.Delete?
    ensures Step(st, op).chirps.Keys == st.chirps.Keys
  {
  }

  lemma GoneAfterDelete(st: State, user: Bytes, d: uint64, id: uint64)
    requires Inv(st) && st.counter < UINT64_LIMIT - 1 && user in st.users && id in st.chirps
    ensures id !in Step(st, Delete(user, d)).chirps <==>
              d == id && user == st.chirps[id].username && ReplyOf(st, Delete(user, d)) == Code(OK)
  {
    DeleteReply(st, user, d);
    if ReplyOf(st, Delete(user, d)) == Code(OK) {
      DeleteEffect(st, user, d);
    }
  }

  /** A chirp is removed by nothing but its author's own successful deletion. */
  lemma GoneAfterStep(st: State, op: Op, id: uint64)
    requires Inv(st) && st.counter < UINT64_LIMIT - 1 && id in st.chirps
    ensures id !in Step(st, op).chirps <==>
              op == Delete(st.chirps[id].username, id) && ReplyOf(st, op) == Code(OK)
  {
    match op
    case Post(user, text, parentId, now) =>
      if user in st.users {
        PostEffect(st, user, text, parentId, now);
      }
    case Delete(user, d) =>
      if user in st.users {
        GoneAfterDelete(st, user, d, id);
      }
    case _ => ChirpsKept(st, op);
  }

  /** Over any run, a live chirp disappears if and only if its author deletes it and is answered OK. */
  lemma {:induction false} GoneIff(st: State, ops: seq<Op>, id: uint64)
    requires Room(st, |ops|) && id in st.chirps
    ensures id !in Run(st, ops).chirps <==>
              Sometime(ops, Replies(st, ops), Delete(st.chirps[id].username, id), Code(OK))
    decreases |ops|
  {
    if ops != [] {
      RepliesUnfold(st, ops);
      var next := Step(st, ops[0]);
      SometimeUnfold(ops, Replies(st, ops), Delete(st.chirps[id].username, id), Code(OK));
      GoneAfterStep(st, ops[0], id);
      if id in next.chirps {
        StepOnChirp(st, ops[0], id);
        GoneIff(next, ops[1..], id);
      } else {
        DeadStaysDead(next, ops[1..], id);
      }
    }
  }

  ghost predicate PostsAs(st: State, op: Op, id: uint64)
    requires Inv(st) && st.counter < UINT64_LIMIT - 1
  {
    op.Post? && ReplyOf(st, op) == Posted(OK, Some(id))
  }

  lemma BornAtStep(st: State, op: Op, id: uint64)
    requires Inv(st) && st.counter < UINT64_LIMIT - 1
    ensures PostsAs(st, op, id) <==> id !in st.chirps && id in Step(st, op).chirps
  {
    match op
    case Post(user, text, parentId, now) =>
      PostReply(st, user, text, parentId, now);
      if user in st.users {
        PostEffect(st, user, text, parentId, now);
      }
    case Delete(user, d) =>
      if id in Step(st, op).chirps {
        StepOnChirp(st, op, id);
      }
    case _ => ChirpsKept(st, op);
  }

  /** No deletion of a chirp that is gone is answered OK. */
  lemma {:induction false} DeadIsNotDeleted(st: State, ops: seq<Op>, id: uint64)
    requires Room(st, |ops|) && id <= st.counter && id !in st.chirps
    ensures !Deleted(ops, Replies(st, ops), id)
    decreases |ops|
  {
    if ops != [] {
      RepliesUnfold(st, ops);
      DeletedUnfold(ops, Replies(st, ops), id);
      DeadAfterStep(st, ops[0], id);
      DeadIsNotDeleted(Step(st, ops[0]), ops[1..], id);
    }
  }

  lemma DeadAfterStep(st: State, op: Op, id: uint64)
    requires Inv(st) && st.counter < UINT64_LIMIT - 1 && id <= st.counter && id !in st.chirps
    ensures id !in Step(st, op).chirps && st.counter <= Step(st, op).counter
    ensures !(op.Delete? && op.id == id && ReplyOf(st, op) == Code(OK))
  {
    StepKeepsInv(st, op);
    DeletionNeedsIt(st, op, id);
    if id in Step(st, op).chirps {
      StepOnChirp(st, op, id);
    }
  }

  lemma DeletionNeedsIt(st: State, op: Op, id: uint64)
    requires Inv(st) && st.counter < UINT64_LIMIT - 1
    ensures op.Delete? && op.id == id && ReplyOf(st, op) == Code(OK) ==>
              id in st.chirps && op.user == st.chirps[id].username
  {
    if op.Delete? && op.user in st.users {
      DeleteReply(st, op.user, op.id);
    }
  }

  /** A live chirp is gone in the end exactly if some deletion of it was answered OK: only the author's
      can be. */
  lemma {:induction false} GoneIfDeleted(st: State, ops: seq<Op>, id: uint64)
    requires Room(st, |ops|) && id in st.chirps
    ensures id !in Run(st, ops).chirps <==> Deleted(ops, Replies(st, ops), id)
    decreases |ops|
  {
    if ops != [] {
      RepliesUnfold(st, ops);
      DeletedUnfold(ops, Replies(st, ops), id);
      GoneAfterStep(st, ops[0], id);
      DeletionNeedsIt(st, ops[0], id);
      if id in Step(st, ops[0]).chirps {
        GoneIfDeleted(Step(st, ops[0]), ops[1..], id);
      } else {
        DeadStaysDead(Step(st, ops[0]), ops[1..], id);
      }
    }
  }

  /** Over any run, the chirps that appear are those of the posts that were answered OK, under the ids
      that the answers gave, as far as no deletion of them was answered OK. */
  lemma {:induction false} BornIff(st: State, ops: seq<Op>, id: uint64)
    requires Room(st, |ops|) && id !in st.chirps
    ensures id in Run(st, ops).chirps <==>
              PostedAs(ops, Replies(st, ops), id) && !Deleted(ops, Replies(st, ops), id)
    decreases |ops|
  {
    if ops != [] {
      RepliesUnfold(st, ops);
      PostedAsUnfold(ops, Replies(st, ops), id);
      DeletedUnfold(ops, Replies(st, ops), id);
      BornAtStep(st, ops[0], id);
      DeletionNeedsIt(st, ops[0], id);
      if id in Step(st, ops[0]).chirps {
        GoneIfDeleted(Step(st, ops[0]), ops[1..], id);
      } else {
        BornIff(Step(st, ops[0]), ops[1..], id);
      }
    }
  }

  /** What the author last made of a text. */
  function LastText(ops: seq<Op>, author: Bytes, id: uint64, text: Bytes): Bytes
    decreases |ops|
  {
    if ops == [] then text
    else LastText(ops[1..], author, id, if Edits(ops[0], id) && ops[0].user == author then ops[0].newText else text)
  }

  /** Over any run, the text of a chirp that survives is what its author last edited it to; what others
      try changes nothing. */
  lemma {:induction false} TextIsLastEdit(st: State, ops: seq<Op>, id: uint64)
    requires Room(st, |ops|) && id in st.chirps && id in Run(st, ops).chirps
    ensures Run(st, ops).chirps[id].text == LastText(ops, st.chirps[id].username, id, st.chirps[id].text)
    decreases |ops|
  {
    if ops != [] {
      StepKeepsInv(st, ops[0]);
      var next := Step(st, ops[0]);
      if id !in next.chirps {
        DeadStaysDead(next, ops[1..], id);
        assert false;
      }
      StepOnChirp(st, ops[0], id);
      TextAfterStep(st, ops[0], id);
      TextIsLastEdit(next, ops[1..], id);
    }
  }

  lemma TextAfterStep(st: State, op: Op, id: uint64)
    requires Inv(st) && st.counter < UINT64_LIMIT - 1 && id in st.chirps && id in Step(st, op).chirps
    ensures Step(st, op).chirps[id].text ==
            if Edits(op, id) && op.user == st.chirps[id].username then op.newText else st.chirps[id].text
  {
    StepOnChirp(st, op, id);
    if Edits(op, id) && op.user in st.users {
      EditAnswer(st, op.user, id, op.newText);
    }
  }
}
