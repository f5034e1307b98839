/** The service layer as functions on six typed components: what each operation of
    service_data_structure does to the state, and the invariant that every one of them keeps. */
module Model {
  import opened Primitives
  import opened Records
  import opened Tags

  datatype State = State(
    counter: uint64,
    users: map<Bytes, User>,
    followings: map<Bytes, set<Bytes>>,
    chirpLists: map<Bytes, set<uint64>>,
    chirps: map<uint64, Chirp>,
    tags: TagIndex)

  const INITIAL: State := State(0, map[], map[], map[], map[], map[])

  function FollowingOf(st: State, user: Bytes): set<Bytes> {
    if user in st.followings then st.followings[user] else {}
  }

  function ChirpListOf(st: State, user: Bytes): set<uint64> {
    if user in st.chirpLists then st.chirpLists[user] else {}
  }

  function InsertChild(c: Chirp, child: uint64): Chirp {
    c.(childrenIds := c.childrenIds + {child})
  }

  function EraseChild(c: Chirp, child: uint64): Chirp {
    c.(childrenIds := c.childrenIds - {child})
  }

  // ---------- operations ----------

  function UserRegister(st: State, username: Bytes, now: Timeval): (State, ReturnCode) {
    if username == [] then (st, INVALID_ARGUMENT)
    else if username in st.users then (st, USER_EXISTS)
    else (st.(users := st.users[username := User(username, now)],
              chirpLists := st.chirpLists[username := {}],
              followings := st.followings[username := {}]), OK)
  }

  function Follow(st: State, user: Bytes, followee: Bytes): (State, ReturnCode) {
    if followee !in st.users then (st, FOLLOWEE_NOT_FOUND)
    else (st.(followings := st.followings[user := FollowingOf(st, user) + {followee}]), OK)
  }

  function Unfollow(st: State, user: Bytes, followee: Bytes): (State, ReturnCode) {
    if followee !in FollowingOf(st, user) then (st, FOLLOWEE_NOT_FOUND)
    else (st.(followings := st.followings[user := FollowingOf(st, user) - {followee}]), OK)
  }

  /** The 64-bit increment, which wraps. */
  function NextId(counter: uint64): uint64 {
    if counter == UINT64_LIMIT - 1 then 0 else counter + 1
  }

  /** The id is taken from the counter before the parent is looked up, so a failed reply spends one. */
  function PostChirp(st: State, user: Bytes, text: Bytes, parentId: uint64, now: Timeval): (State, ReturnCode) {
    var id := NextId(st.counter);
    if parentId > 0 && parentId !in st.chirps then
      (st.(counter := id), REPLY_ID_NOT_FOUND)
    else
      var linked :=
        if parentId > 0 then st.chirps[parentId := InsertChild(st.chirps[parentId], id)] else st.chirps;
      (State(id,
             st.users[user := User(user, now)],
             st.followings,
             st.chirpLists[user := ChirpListOf(st, user) + {id}],
             linked[id := Chirp(id, user, parentId, text, now, {})],
             AddTags(st.tags, TagsOf(text), id)), OK)
  }

  function EditChirp(st: State, user: Bytes, id: uint64, text: Bytes): (State, ReturnCode) {
    if id !in st.chirps then (st, CHIRP_ID_NOT_FOUND)
    else if st.chirps[id].username != user then (st, PERMISSION_DENIED)
    else (st.(chirps := st.chirps[id := st.chirps[id].(text := text)]), OK)
  }

  function DeleteChirp(st: State, user: Bytes, id: uint64): (State, ReturnCode) {
    if id !in st.chirps then (st, CHIRP_ID_NOT_FOUND)
    else if st.chirps[id].username != user then (st, PERMISSION_DENIED)
    else
      var parentId := st.chirps[id].parentId;
      if parentId > 0 && parentId !in st.chirps then (st, REPLY_ID_NOT_FOUND)
      else
        var unlinked :=
          if parentId > 0 then st.chirps[parentId := EraseChild(st.chirps[parentId], id)] else st.chirps;
        (st.(chirps := unlinked - {id},
             chirpLists := st.chirpLists[user := ChirpListOf(st, user) - {id}]), OK)
  }

  // ---------- polls ----------

  predicate ChirpInWindow(st: State, id: uint64, from: Timeval, now: Timeval) {
    id in st.chirps && InWindow(st.chirps[id].time, from, now)
  }

  /** The shortcut of MonitorFrom: a followee whose last update is earlier than `from` is skipped. */
  predicate Scanned(st: State, followee: Bytes, from: Timeval) {
    followee in st.users && AtLeast(st.users[followee].lastUpdate, from)
  }

  function WindowOf(st: State, ids: set<uint64>, from: Timeval, now: Timeval): set<uint64> {
    set id | id in ids && ChirpInWindow(st, id, from, now)
  }

  function MonitorOver(st: State, names: set<Bytes>, from: Timeval, now: Timeval): set<uint64> {
    set f, id | f in names && Scanned(st, f, from) && id in ChirpListOf(st, f) && ChirpInWindow(st, id, from, now) :: id
  }

  function MonitorFrom(st: State, user: Bytes, from: Timeval, now: Timeval): set<uint64> {
    MonitorOver(st, FollowingOf(st, user), from, now)
  }

  /** None is the process abort of a failed CHECK: an indexed chirp that no longer exists. */
  function StreamFrom(st: State, tag: Bytes, from: Timeval, now: Timeval): Option<set<uint64>> {
    if TagList(st.tags, tag) <= st.chirps.Keys
    then Some(WindowOf(st, TagList(st.tags, tag), from, now))
    else None
  }

  // ---------- the invariant of the full API ----------

  /** Live ids have been allocated, records carry their own id, and parents are older. */
  ghost predicate IdsOk(st: State) {
    forall id :: id in st.chirps ==>
      1 <= id <= st.counter && st.chirps[id].id == id && st.chirps[id].parentId < id
  }

  /** Children sets and parent ids tell the same story about live chirps. */
  ghost predicate RepliesOk(chirps: map<uint64, Chirp>) {
    forall id, k :: id in chirps ==>
      (k in chirps[id].childrenIds <==> k in chirps && chirps[k].parentId == id)
  }

  ghost predicate UsersOk(st: State) {
    && (forall u :: u in st.users ==>
          u != [] && st.users[u].username == u && u in st.followings && u in st.chirpLists)
    && (forall u, f :: f in FollowingOf(st, u) ==> f in st.users)
  }

  /** A user's chirp list is exactly the live chirps they wrote, and every author is registered. */
  ghost predicate OwnershipOk(st: State) {
    && (forall u, id :: id in ChirpListOf(st, u) <==> id in st.chirps && st.chirps[id].username == u)
    && (forall id :: id in st.chirps ==> st.chirps[id].username in st.users)
  }

  ghost predicate TagsOk(st: State) {
    forall t, id :: id in TagList(st.tags, t) ==> 1 <= id <= st.counter
  }

  ghost predicate Inv(st: State) {
    IdsOk(st) && RepliesOk(st.chirps) && UsersOk(st) && OwnershipOk(st) && TagsOk(st)
  }

  lemma InitialInv()
    ensures Inv(INITIAL)
  {
  }

  // ---------- every operation keeps it ----------

  lemma UserRegisterKeepsInv(st: State, username: Bytes, now: Timeval)
    requires Inv(st)
    ensures Inv(UserRegister(st, username, now).0)
  {
    var st' := UserRegister(st, username, now).0;
    if st' != st {
      assert forall u :: u != username ==> FollowingOf(st', u) == FollowingOf(st, u);
      assert forall id :: id in st.chirps ==> st.chirps[id].username != username;
      assert forall u :: u != username ==> ChirpListOf(st', u) == ChirpListOf(st, u);
    }
  }

  lemma FollowKeepsInv(st: State, user: Bytes, followee: Bytes)
    requires Inv(st) && user in st.users
    ensures Inv(Follow(st, user, followee).0)
  {
    var st' := Follow(st, user, followee).0;
    assert forall u :: u != user ==> FollowingOf(st', u) == FollowingOf(st, u);
    assert forall u :: ChirpListOf(st', u) == ChirpListOf(st, u);
  }

  lemma UnfollowKeepsInv(st: State, user: Bytes, followee: Bytes)
    requires Inv(st) && user in st.users
    ensures Inv(Unfollow(st, user, followee).0)
  {
    var st' := Unfollow(st, user, followee).0;
    assert forall u :: u != user ==> FollowingOf(st', u) == FollowingOf(st, u);
    assert forall u :: ChirpListOf(st', u) == ChirpListOf(st, u);
  }

  lemma PostChirpKeepsInv(st: State, user: Bytes, text: Bytes, parentId: uint64, now: Timeval)
    requires Inv(st) && user in st.users && st.counter < UINT64_LIMIT - 1
    ensures Inv(PostChirp(st, user, text, parentId, now).0)
  {
    PostChirpKeepsReplies(st, user, text, parentId, now);
    PostChirpKeepsUsers(st, user, text, parentId, now);
    PostChirpKeepsOwnership(st, user, text, parentId, now);
    PostChirpKeepsTags(st, user, text, parentId, now);
  }

  /** Posting keeps the invariant until the counter wraps; the chirp then stored under id 0 breaks it,
      and so does a failed reply that resets the counter below ids in use. */
  lemma PostChirpKeepsInvIff(st: State, user: Bytes, text: Bytes, parentId: uint64, now: Timeval)
    requires Inv(st) && user in st.users
    ensures Inv(PostChirp(st, user, text, parentId, now).0) <==>
            || st.counter < UINT64_LIMIT - 1
            || (parentId > 0 && st.chirps == map[] && forall t :: TagList(st.tags, t) == {})
  {
    var (st', code) := PostChirp(st, user, text, parentId, now);
    if st.counter < UINT64_LIMIT - 1 {
      PostChirpKeepsInv(st, user, text, parentId, now);
    } else if code == OK {
      assert 0 in st'.chirps;
    } else {
      assert st'.counter == 0;
      assert st' == st.(counter := 0);
      assert forall u :: FollowingOf(st', u) == FollowingOf(st, u) && ChirpListOf(st', u) == ChirpListOf(st, u);
    }
  }

  /** The chirp map after a successful post, entry by entry. */
  lemma PostedChirps(st: State, user: Bytes, text: Bytes, parentId: uint64, now: Timeval)
    requires Inv(st) && st.counter < UINT64_LIMIT - 1
    requires PostChirp(st, user, text, parentId, now).1 == OK
    ensures var (st', id) := (PostChirp(st, user, text, parentId, now).0, st.counter + 1);
            && id !in st.chirps && st'.counter == id
            && (parentId > 0 ==> parentId in st.chirps)
            && st'.chirps.Keys == st.chirps.Keys + {id}
            && st'.chirps[id] == Chirp(id, user, parentId, text, now, {})
            && forall c :: c in st.chirps ==>
                 st'.chirps[c] == if c == parentId then InsertChild(st.chirps[c], id) else st.chirps[c]
  {
    assert 0 !in st.chirps;
  }

  lemma PostChirpKeepsReplies(st: State, user: Bytes, text: Bytes, parentId: uint64, now: Timeval)
    requires Inv(st) && st.counter < UINT64_LIMIT - 1
    ensures IdsOk(PostChirp(st, user, text, parentId, now).0)
    ensures RepliesOk(PostChirp(st, user, text, parentId, now).0.chirps)
  {
    var (st', code) := PostChirp(st, user, text, parentId, now);
    if code == OK {
      var id := st.counter + 1;
      PostedChirps(st, user, text, parentId, now);
      AddedReplyKeepsReplies(st.chirps, st'.chirps, parentId, id);
    }
  }

  lemma AddedReplyKeepsReplies(chirps: map<uint64, Chirp>, chirps': map<uint64, Chirp>, parentId: uint64, id: uint64)
    requires RepliesOk(chirps)
    requires id !in chirps && parentId != id && chirps'.Keys == chirps.Keys + {id}
    requires chirps'[id].childrenIds == {} && chirps'[id].parentId == parentId
    requires forall c :: c in chirps ==>
      chirps'[c] == if c == parentId then InsertChild(chirps[c], id) else chirps[c]
    requires forall c :: c in chirps ==> chirps[c].parentId != id
    ensures RepliesOk(chirps')
  {
  }

  lemma PostChirpKeepsUsers(st: State, user: Bytes, text: Bytes, parentId: uint64, now: Timeval)
    requires Inv(st) && user in st.users && st.counter < UINT64_LIMIT - 1
    ensures UsersOk(PostChirp(st, user, text, parentId, now).0)
  {
    var st' := PostChirp(st, user, text, parentId, now).0;
    assert forall u :: FollowingOf(st', u) == FollowingOf(st, u);
    assert st'.users.Keys == st.users.Keys;
  }

  lemma PostChirpKeepsOwnership(st: State, user: Bytes, text: Bytes, parentId: uint64, now: Timeval)
    requires Inv(st) && user in st.users && st.counter < UINT64_LIMIT - 1
    ensures OwnershipOk(PostChirp(st, user, text, parentId, now).0)
  {
    var (st', code) := PostChirp(st, user, text, parentId, now);
    if code == OK {
      PostedChirps(st, user, text, parentId, now);
      AddedChirpKeepsOwnership(st, st', user, st.counter + 1);
    } else {
      assert forall u :: ChirpListOf(st', u) == ChirpListOf(st, u);
    }
  }

  lemma AddedChirpKeepsOwnership(st: State, st': State, user: Bytes, id: uint64)
    requires OwnershipOk(st) && id !in st.chirps && user in st.users
    requires st'.chirps.Keys == st.chirps.Keys + {id} && st'.chirps[id].username == user
    requires forall c :: c in st.chirps ==> st'.chirps[c].username == st.chirps[c].username
    requires st'.chirpLists == st.chirpLists[user := ChirpListOf(st, user) + {id}]
    requires st'.users.Keys == st.users.Keys + {user}
    ensures OwnershipOk(st')
  {
    assert forall u :: u != user ==> ChirpListOf(st', u) == ChirpListOf(st, u);
  }

  lemma PostChirpKeepsTags(st: State, user: Bytes, text: Bytes, parentId: uint64, now: Timeval)
    requires Inv(st) && user in st.users && st.counter < UINT64_LIMIT - 1
    ensures TagsOk(PostChirp(st, user, text, parentId, now).0)
  {
    var st' := PostChirp(st, user, text, parentId, now).0;
    forall t
      ensures TagList(st'.tags, t) <= TagList(st.tags, t) + {st'.counter}
    {
      AddTagsLookup(st.tags, TagsOf(text), st'.counter, t);
    }
  }

  lemma EditChirpKeepsInv(st: State, user: Bytes, id: uint64, text: Bytes)
    requires Inv(st)
    ensures Inv(EditChirp(st, user, id, text).0)
  {
    var st' := EditChirp(st, user, id, text).0;
    assert forall u :: FollowingOf(st', u) == FollowingOf(st, u);
    assert forall u :: ChirpListOf(st', u) == ChirpListOf(st, u);
  }

  lemma DeleteChirpKeepsInv(st: State, user: Bytes, id: uint64)
    requires Inv(st)
    ensures Inv(DeleteChirp(st, user, id).0)
  {
    DeleteChirpKeepsReplies(st, user, id);
    DeleteChirpKeepsOwnership(st, user, id);
  }

  /** The chirp map after a successful deletion, entry by entry. */
  lemma DeletedChirps(st: State, user: Bytes, id: uint64)
    requires Inv(st) && DeleteChirp(st, user, id).1 == OK
    ensures var st' := DeleteChirp(st, user, id).0;
            && st'.counter == st.counter
            && st'.chirps.Keys == st.chirps.Keys - {id}
            && forall c :: c in st'.chirps ==>
                 st'.chirps[c] == if c == st.chirps[id].parentId then EraseChild(st.chirps[c], id) else st.chirps[c]
  {
    assert 0 !in st.chirps;
  }

  lemma DeleteChirpKeepsReplies(st: State, user: Bytes, id: uint64)
    requires Inv(st)
    ensures IdsOk(DeleteChirp(st, user, id).0)
    ensures RepliesOk(DeleteChirp(st, user, id).0.chirps)
  {
    var (st', code) := DeleteChirp(st, user, id);
    if code == OK {
      DeletedChirps(st, user, id);
      assert IdsOk(st');
    }
  }

  lemma DeleteChirpKeepsOwnership(st: State, user: Bytes, id: uint64)
    requires Inv(st)
    ensures UsersOk(DeleteChirp(st, user, id).0)
    ensures OwnershipOk(DeleteChirp(st, user, id).0)
  {
    var (st', code) := DeleteChirp(st, user, id);
    if code == OK {
      assert forall u :: FollowingOf(st', u) == FollowingOf(st, u);
      assert forall u :: u != user ==> ChirpListOf(st', u) == ChirpListOf(st, u);
    }
  }
}
