/** service_data_structure: the calls of the class API, run against the store record by record. */
module Session {
  import opened Primitives
  import opened Records
  import opened Tags
  import opened Model
  import opened Client
  import opened Connect

  /** One turn of the tag scan: files id under the tag that starts after the '#' at `hash`, if any,
      and returns where its word ends. */
  method IndexTagAt(connect: ChirpConnect, text: Bytes, hash: nat, id: uint64) returns (end: Option<nat>)
    requires connect.Valid() && hash < |text|
    modifies connect, connect.client.store
    ensures connect.Valid()
    ensures end == Find(text, SPACE, hash + 1)
    ensures connect.st == old(connect.st).(tags :=
              AddTags(old(connect.st.tags), TagBetween(text, hash, if end.Some? then end.value else |text|), id))
  {
    var start := hash + 1;
    end := Find(text, SPACE, start);
    if (end.Some? && start < end.value) || (end.None? && start != |text|) {
      var count := if end.Some? then end.value - start else |text| - start;
      var tag := text[start..start + count];
      var chirpTagList := connect.GetChirpTagList(tag);
      var ok := connect.SaveChirpTag(tag, chirpTagList + {id});
      AddTagsOne(old(connect.st.tags), tag, id);
    }
  }

  /** The tag scan of PostChirp: files id under every tag of the text. */
  method IndexTags(connect: ChirpConnect, text: Bytes, id: uint64)
    requires connect.Valid()
    modifies connect, connect.client.store
    ensures connect.Valid()
    ensures connect.st == old(connect.st).(tags := AddTags(old(connect.st.tags), TagsOf(text), id))
  {
    var hash := Find(text, HASH, 0);
    ghost var before := connect.st;
    ghost var base, done := 0, [];
    ScanBegins(text);
    while hash.Some?
      invariant connect.Valid()
      invariant ScannedTo(text, base, done) && hash == Find(text, HASH, base)
      invariant connect.st == before.(tags := AddTags(before.tags, done, id))
      decreases |text| - base
    {
      var end := IndexTagAt(connect, text, hash.value, id);
      ghost var stop := if end.Some? then end.value else |text|;
      ScanTurn(text, base, done, hash.value, stop);
      AddTagsConcat(before.tags, done, TagBetween(text, hash.value, stop), id);
      base, done := Resume(text, stop), done + TagBetween(text, hash.value, stop);
      if end.None? {
        break;
      }
      hash := Find(text, HASH, end.value + 1);
    }
    ScanEnds(text, base, done);
  }

  lemma WindowOneMore(st: State, ids: set<uint64>, rest: set<uint64>, id: uint64, from: Timeval, now: Timeval)
    requires rest <= ids && id in rest
    ensures WindowOf(st, ids - (rest - {id}), from, now) ==
            WindowOf(st, ids - rest, from, now) + (if ChirpInWindow(st, id, from, now) then {id} else {})
  {
  }

  class UserSession {
    const connect: ChirpConnect
    var user: User

    ghost predicate Valid()
      reads this, connect, connect.client.store
    {
      connect.Valid() && Inv(connect.st) && user.username in connect.st.users
    }

    constructor (connect: ChirpConnect, user: User)
      requires connect.Valid() && Inv(connect.st) && user.username in connect.st.users
      ensures Valid() && this.connect == connect && this.user == user
    {
      this.connect := connect;
      this.user := user;
    }

    method Follow(username: Bytes) returns (code: ReturnCode)
      requires Valid()
      modifies connect, connect.client.store
      ensures Valid()
      ensures (connect.st, code) == Model.Follow(old(connect.st), user.username, username)
    {
      FollowKeepsInv(connect.st, user.username, username);
      var followingList := connect.GetUserFollowingList(user.username);
      var userFound, _ := connect.GetUser(username);
      if !userFound {
        return FOLLOWEE_NOT_FOUND;
      }
      var ok := connect.SaveUserFollowingList(user.username, followingList + {username});
      return OK;
    }

    method Unfollow(username: Bytes) returns (code: ReturnCode)
      requires Valid()
      modifies connect, connect.client.store
      ensures Valid()
      ensures (connect.st, code) == Model.Unfollow(old(connect.st), user.username, username)
    {
      UnfollowKeepsInv(connect.st, user.username, username);
      var followingList := connect.GetUserFollowingList(user.username);
      if username !in followingList {
        return FOLLOWEE_NOT_FOUND;
      }
      var ok := connect.SaveUserFollowingList(user.username, followingList - {username});
      return OK;
    }

    method PostChirp(text: Bytes, parentId: uint64, now: Timeval) returns (code: ReturnCode, chirpId: Option<uint64>)
      requires Valid()
      modifies this, connect, connect.client.store
      ensures connect.Valid() && user.username == old(user.username)
      ensures old(connect.st).counter < UINT64_LIMIT - 1 ==> Valid()
      ensures (connect.st, code) == Model.PostChirp(old(connect.st), user.username, text, parentId, now)
      ensures chirpId == if code == OK then Some(connect.st.counter) else None
    {
      if connect.st.counter < UINT64_LIMIT - 1 {
        PostChirpKeepsInv(connect.st, user.username, text, parentId, now);
      }
      var id := connect.GetNextChirpId();
      var chirp := Chirp(id, user.username, parentId, text, now, {});
      if parentId > 0 {
        var parentFound := LinkToParent(parentId, id);
        if !parentFound {
          return REPLY_ID_NOT_FOUND, None;
        }
      }
      var _ := connect.SaveChirp(id, chirp);
      IndexTags(connect, text, id);
      user := user.(lastUpdate := now);
      var _ := connect.SaveUser(user.username, user);
      var chirpList := connect.GetUserChirpList(user.username);
      var _ := connect.SaveUserChirpList(user.username, chirpList + {id});
      return OK, Some(id);
    }

    /** Inserts a reply's id into its parent's children set, if there is such a parent. */
    method LinkToParent(parentId: uint64, id: uint64) returns (found: bool)
      requires connect.Valid() && parentId > 0
      requires parentId in connect.st.chirps ==> connect.st.chirps[parentId].id == parentId
      modifies connect, connect.client.store
      ensures connect.Valid() && (found <==> parentId in old(connect.st).chirps)
      ensures !found ==> connect.st == old(connect.st)
      ensures found ==> connect.st == old(connect.st).(chirps :=
        old(connect.st.chirps)[parentId := InsertChild(old(connect.st.chirps)[parentId], id)])
    {
      var parent;
      found, parent := connect.GetChirp(parentId);
      if found {
        parent := InsertChild(parent, id);
        var _ := connect.SaveChirp(parent.id, parent);
      }
    }

    method EditChirp(id: uint64, text: Bytes) returns (code: ReturnCode)
      requires Valid()
      modifies connect, connect.client.store
      ensures Valid()
      ensures (connect.st, code) == Model.EditChirp(old(connect.st), user.username, id, text)
    {
      EditChirpKeepsInv(connect.st, user.username, id, text);
      var ok, chirp := connect.GetChirp(id);
      if !ok {
        return CHIRP_ID_NOT_FOUND;
      } else if chirp.username != user.username {
        return PERMISSION_DENIED;
      }
      ok := connect.SaveChirp(id, chirp.(text := text));
      return OK;
    }

    method DeleteChirp(id: uint64) returns (code: ReturnCode)
      requires Valid()
      modifies connect, connect.client.store
      ensures Valid()
      ensures (connect.st, code) == Model.DeleteChirp(old(connect.st), user.username, id)
    {
      DeleteChirpKeepsInv(connect.st, user.username, id);
      var ok, chirp := connect.GetChirp(id);
      if !ok {
        return CHIRP_ID_NOT_FOUND;
      } else if chirp.username != user.username {
        return PERMISSION_DENIED;
      }
      var chirpList := connect.GetUserChirpList(user.username);
      if chirp.parentId > 0 {
        var parentFound, parent := connect.GetChirp(chirp.parentId);
        if !parentFound {
          return REPLY_ID_NOT_FOUND;
        }
        parent := EraseChild(parent, chirp.id);
        ok := connect.SaveChirp(parent.id, parent);
      }
      ok := connect.DeleteChirp(id);
      assert ok;
      ok := connect.SaveUserChirpList(user.username, chirpList - {chirp.id});
      return OK;
    }

    /** Returns the ids of the window and the moved start time; both CHECKs on missing records hold. */
    method MonitorFrom(from: Timeval, now: Timeval) returns (ret: set<uint64>, newFrom: Timeval)
      requires Valid()
      modifies connect.client.store
      ensures Valid() && connect.st == old(connect.st)
      ensures ret == Model.MonitorFrom(connect.st, user.username, from, now)
      ensures newFrom == now
    {
      ret := {};
      var followingList := connect.GetUserFollowingList(user.username);
      var rest := followingList;
      while rest != {}
        invariant Valid() && connect.st == old(connect.st)
        invariant rest <= followingList
        invariant ret == MonitorOver(connect.st, followingList - rest, from, now)
        decreases rest
      {
        var username :| username in rest;
        ghost var visited := followingList - rest;
        rest := rest - {username};
        assert followingList - rest == visited + {username};
        MonitorOverOneMore(connect.st, visited, username, from, now);
        var found, followee := connect.GetUser(username);
        assert found;  // CHECK
        if AtLeast(followee.lastUpdate, from) {
          var chirps := CollectUserWindow(followee.username, from, now);
          ret := ret + chirps;
        }
      }
      assert followingList - rest == followingList;
      newFrom := now;
    }

    method CollectUserWindow(username: Bytes, from: Timeval, now: Timeval) returns (ret: set<uint64>)
      requires Valid()
      modifies connect.client.store
      ensures Valid() && connect.st == old(connect.st)
      ensures ret == WindowOf(connect.st, ChirpListOf(connect.st, username), from, now)
    {
      ret := {};
      var chirpList := connect.GetUserChirpList(username);
      var rest := chirpList;
      while rest != {}
        invariant Valid() && connect.st == old(connect.st)
        invariant rest <= chirpList
        invariant ret == WindowOf(connect.st, chirpList - rest, from, now)
        decreases rest
      {
        var id :| id in rest;
        var found, chirp := connect.GetChirp(id);
        assert found;  // CHECK
        WindowOneMore(connect.st, chirpList, rest, id, from, now);
        if AtLeast(chirp.time, from) && Before(chirp.time, now) {
          ret := ret + {id};
        }
        rest := rest - {id};
      }
      assert chirpList - rest == chirpList;
    }
  }

  lemma MonitorOverOneMore(st: State, names: set<Bytes>, f: Bytes, from: Timeval, now: Timeval)
    ensures MonitorOver(st, names + {f}, from, now) ==
            MonitorOver(st, names, from, now)
            + (if Scanned(st, f, from) then WindowOf(st, ChirpListOf(st, f), from, now) else {})
  {
  }

  class ServiceDataStructure {
    const connect: ChirpConnect

    ghost predicate Valid()
      reads this, connect, connect.client.store
    {
      connect.Valid() && Inv(connect.st)
    }

    constructor (codec: Codec, kind: ClientKind)
      requires codec.Faithful()
      ensures Valid() && connect.st == INITIAL
      ensures fresh(connect) && fresh(connect.client) && fresh(connect.client.store)
      ensures connect.client.kind == kind
    {
      connect := new ChirpConnect(codec, kind);
      InitialInv();
    }

    method UserRegister(username: Bytes, now: Timeval) returns (code: ReturnCode)
      requires Valid()
      modifies connect, connect.client.store
      ensures Valid()
      ensures (connect.st, code) == Model.UserRegister(old(connect.st), username, now)
    {
      UserRegisterKeepsInv(connect.st, username, now);
      if username == [] {
        return INVALID_ARGUMENT;
      }
      var userFound, _ := connect.GetUser(username);
      if userFound {
        return USER_EXISTS;
      }
      var _ := connect.SaveUser(username, User(username, now));
      var _ := connect.SaveUserChirpList(username, {});
      var _ := connect.SaveUserFollowingList(username, {});
      return OK;
    }

    /** A session exactly for registered users; the CHECK of the session's constructor holds. */
    method UserLogin(username: Bytes) returns (session: UserSession?)
      requires Valid()
      modifies connect.client.store
      ensures Valid() && connect.st == old(connect.st)
      ensures session == null <==> username !in connect.st.users
      ensures session != null ==>
        fresh(session) && session.Valid() && session.connect == connect && session.user.username == username
    {
      var userFound, _ := connect.GetUser(username);
      if !userFound {
        return null;
      }
      var ok, user := connect.GetUser(username);
      assert ok;  // CHECK
      session := new UserSession(connect, user);
    }

    method ReadChirp(id: uint64) returns (code: ReturnCode, chirp: Chirp)
      requires Valid()
      modifies connect.client.store
      ensures Valid() && connect.st == old(connect.st)
      ensures code == if id in connect.st.chirps then OK else CHIRP_ID_NOT_FOUND
      ensures code == OK ==> chirp == connect.st.chirps[id]
    {
      var ok;
      ok, chirp := connect.GetChirp(id);
      code := if ok then OK else CHIRP_ID_NOT_FOUND;
    }

    /** None when the CHECK that an indexed chirp exists fails and the process aborts. */
    method StreamFrom(from: Timeval, now: Timeval, tag: Bytes) returns (ret: Option<set<uint64>>, newFrom: Timeval)
      requires Valid()
      modifies connect.client.store
      ensures Valid() && connect.st == old(connect.st)
      ensures ret == Model.StreamFrom(connect.st, tag, from, now)
      ensures newFrom == now
    {
      newFrom := now;
      var found := {};
      var tagList := connect.GetChirpTagList(tag);
      var rest := tagList;
      while rest != {}
        invariant Valid() && connect.st == old(connect.st)
        invariant rest <= tagList && tagList - rest <= connect.st.chirps.Keys
        invariant found == WindowOf(connect.st, tagList - rest, from, now)
        decreases rest
      {
        var id :| id in rest;
        var ok, chirp := connect.GetChirp(id);
        if !ok {
          return None, now;
        }
        WindowOneMore(connect.st, tagList, rest, id, from, now);
        if AtLeast(chirp.time, from) && Before(chirp.time, now) {
          found := found + {id};
        }
        rest := rest - {id};
      }
      assert tagList - rest == tagList;
      return Some(found), now;
    }
  }
}
