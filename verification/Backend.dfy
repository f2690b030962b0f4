/** The database, the cache and a chat server as objects: the access methods and the handlers in
    the program's own steps, each tied to its function on the shared world. */
module Backend {
  import opened Keys
  import opened SharedState
  import opened FriendList
  import opened Routing

  class Backend {
    const users: seq<Row>
    var redis: map<string, Value>
    var applies: map<(int, int), Apply>
    var friends: map<(int, int), string>

    constructor (users: seq<Row>)
      ensures W() == World(users, map[], map[], map[])
    {
      this.users, redis, applies, friends := users, map[], map[], map[];
    }

    function W(): (r: World)
      reads this
    {
      World(users, redis, applies, friends)
    }

    // ---- Redis ----

    method Get(key: string, ok: bool) returns (found: bool, value: Value)
      ensures found <==> ok && key in redis
      ensures found ==> value == redis[key]
    {
      if !ok || key !in redis {
        return false, Text("");
      }
      return true, redis[key];
    }

    method Set(key: string, value: Value, ok: bool)
      modifies this`redis
      ensures W() == RedisSet(old(W()), key, value, ok)
    {
      if ok {
        redis := redis[key := value];
      }
    }

    // ---- MySqlDao ----

    /** The first row of the result, with an empty nick replaced. */
    method GetUserInfo(uid: int, sql: bool) returns (user: Option<UserInfo>)
      ensures user == QueryUid(W(), uid, sql)
      ensures user.Some? ==> exists row :: row in users && row.uid == uid && ProfileOf(user.value, row)
      ensures user.None? <==> !sql || forall row :: row in users ==> row.uid != uid
    {
      QueryUidIs(W(), uid, sql);
      user := None;
      if !sql {
        return;
      }
      var i := 0;
      while i < |users|
        invariant 0 <= i <= |users| && user.None?
        invariant RowByUid(users, uid) == RowByUid(users[i..], uid)
      {
        if users[i].uid == uid {
          var r := users[i];
          var nick := r.nick;
          if nick == "" {
            nick := r.name;
          }
          user := Some(UserInfo(r.uid, r.name, r.pwd, r.email, nick, r.desc, r.sex, r.icon, ""));
          return;
        }
        assert users[i..][1..] == users[i + 1..];
        i := i + 1;
      }
    }

    method GetUserInfoByName(name: string, sql: bool) returns (user: Option<UserInfo>)
      ensures user == QueryName(W(), name, sql)
      ensures user.Some? ==> exists row :: row in users && row.name == name && ProfileOf(user.value, row)
      ensures user.None? <==> !sql || forall row :: row in users ==> row.name != name
    {
      QueryNameIs(W(), name, sql);
      user := None;
      if !sql {
        return;
      }
      var i := 0;
      while i < |users|
        invariant 0 <= i <= |users| && user.None?
        invariant RowByName(users, name) == RowByName(users[i..], name)
      {
        if users[i].name == name {
          var r := users[i];
          var nick := r.nick;
          if nick == "" {
            nick := r.name;
          }
          user := Some(UserInfo(r.uid, r.name, r.pwd, r.email, nick, r.desc, r.sex, r.icon, ""));
          return;
        }
        assert users[i..][1..] == users[i + 1..];
        i := i + 1;
      }
    }

    method AddFriendApplyRow(from: int, to: int, aliasName: string, ok: bool) returns (done: bool)
      modifies this`applies
      ensures W() == AddFriendApply(old(W()), from, to, aliasName, ok) && done == ok
    {
      if !ok {
        return false;
      }
      if (from, to) in applies {
        applies := applies[(from, to) := applies[(from, to)].(aliasName := aliasName)];
      } else {
        applies := applies[(from, to) := Apply(aliasName, PENDING)];
      }
      done := true;
    }

    method GetFriendApplyAlias(from: int, to: int, ok: bool) returns (outAlias: string)
      ensures outAlias == ApplyAlias(W(), from, to, ok)
    {
      outAlias := "";
      if ok && (from, to) in applies {
        outAlias := applies[(from, to)].aliasName;
      }
    }

    method AuthFriendApplyRow(from: int, to: int, ok: bool)
      modifies this`applies
      ensures W() == AuthFriendApply(old(W()), from, to, ok)
    {
      if ok && (from, to) in applies {
        applies := applies[(from, to) := applies[(from, to)].(status := APPROVED)];
      }
    }

    /** The two inserts; `got` says where an exception ends the method. */
    method AddFriendRows(applicant: int, accepter: int, aliasOfAccepter: string, aliasOfApplicant: string, got: Inserts)
      returns (done: bool)
      modifies this`friends
      ensures W() == AddFriend(old(W()), applicant, accepter, aliasOfAccepter, aliasOfApplicant, got)
      ensures done <==> got.Both? && W() != old(W())
    {
      ghost var w := W();
      if got.Neither? {
        return false;
      }
      var affected := 0;
      if (applicant, accepter) !in friends {
        friends := friends[(applicant, accepter) := aliasOfAccepter];
        affected := affected + 1;
      }
      if got.First? {
        return false;
      }
      if (accepter, applicant) !in friends {
        friends := friends[(accepter, applicant) := aliasOfApplicant];
        affected := affected + 1;
      }
      done := affected > 0;
      assert affected > 0 <==> (applicant, accepter) !in w.friends || (accepter, applicant) !in w.friends;
    }

    method GetFriendAlias(self: int, friend: int, ok: bool) returns (outAlias: string)
      ensures outAlias == FriendAlias(W(), self, friend, ok)
    {
      outAlias := "";
      if ok && (self, friend) in friends {
        outAlias := friends[(self, friend)];
      }
    }

    /** `rows` is the result of the query; each row asks for the friend's profile, and a friend
        without one is left out. */
    method GetFriendList(rows: seq<FriendRow>, failing: set<nat>) returns (list: seq<UserInfo>)
      ensures list == Joined(W(), rows, |rows|, failing)
    {
      list := [];
      var i: nat := 0;
      while i < |rows|
        invariant i <= |rows| && list == Joined(W(), rows, i, failing)
      {
        var base := GetUserInfo(rows[i].0, i !in failing);
        if base.Some? {
          list := list + [base.value.(aliasName := rows[i].1)];
        }
        i := i + 1;
      }
    }

    // ---- LogicSystem's lookups ----

    method GetBaseInfo(uid: int, io: Io) returns (info: Option<UserInfo>)
      modifies this`redis
      ensures (W(), info) == FreshBaseInfo(old(W()), uid, io)
      ensures Cache.Coherent(old(W())) ==> Cache.Coherent(W())
    {
      if Cache.Coherent(W()) {
        Cache.FreshCoherent(W(), uid, io);
      }
      info := GetUserInfo(uid, io.sql);
      if info.None? {
        return;
      }
      var user := info.value;
      if user.nick == "" {
        user := user.(nick := user.name);
      }
      info := Some(user);
      Set(BaseKey(uid), Stored(user), io.setBase);
      if user.name != "" {
        Set(NameKey(user.name), Stored(user), io.setName);
      }
    }

    method GetUserByUid(uidText: string, io: Io) returns (reply: SearchReply)
      modifies this`redis
      ensures (W(), reply) == UserByUid(old(W()), uidText, io)
      ensures Cache.Coherent(old(W())) ==> Cache.Coherent(W())
    {
      if Cache.Coherent(W()) {
        Cache.SearchTextCoherent(W(), uidText, io);
      }
      var found, value := Get(BaseKeyOf(uidText), io.get);
      if found {
        return Found(Loaded(value));
      }
      var user := GetUserInfo(Stoi(uidText), io.sql);
      if user.None? {
        return Only(UID_INVALID);
      }
      Set(BaseKeyOf(uidText), Stored(user.value), io.setBase);
      if user.value.name != "" {
        Set(NameKey(user.value.name), Stored(user.value), io.setName);
      }
      reply := Only(SUCCESS);
    }

    method GetUserByName(name: string, io: Io) returns (reply: SearchReply)
      modifies this`redis
      ensures (W(), reply) == UserByName(old(W()), name, io)
      ensures Cache.Coherent(old(W())) ==> Cache.Coherent(W())
    {
      if Cache.Coherent(W()) {
        Cache.SearchNameCoherent(W(), name, io);
      }
      var found, value := Get(NameKey(name), io.get);
      if found {
        return Found(Loaded(value));
      }
      var user := GetUserInfoByName(name, io.sql);
      if user.None? {
        return Only(UID_INVALID);
      }
      Set(BaseKey(user.value.uid), Stored(user.value), io.setBase);
      if user.value.name != "" {
        Set(NameKey(user.value.name), Stored(user.value), io.setName);
      }
      reply := Only(SUCCESS);
    }

    // ---- ChatServiceImpl's lookup ----

    method ServiceGetBaseInfo(uid: int, io: Io) returns (info: Option<UserInfo>)
      modifies this`redis
      ensures (W(), info) == CachedBaseInfo(old(W()), uid, io)
      ensures Cache.Coherent(old(W())) ==> Cache.Coherent(W())
    {
      if Cache.Coherent(W()) {
        Cache.FreshCoherent(W(), uid, io);
      }
      var found, value := Get(BaseKey(uid), io.get);
      if found {
        return Some(Loaded(value));
      }
      info := GetUserInfo(uid, io.sql);
      if info.None? {
        return;
      }
      Set(BaseKey(uid), Stored(info.value), io.setBase);
    }
  }

  class ChatServer {
    const name: string
    const backend: Backend
    var online: set<int>   // the uids with a session here

    constructor (name: string, backend: Backend)
      ensures this.name == name && this.backend == backend && online == {}
    {
      this.name, this.backend, online := name, backend, {};
    }

    method FindServer(uid: int, ok: bool) returns (server: Option<string>)
      ensures server == ServerOf(backend.W(), uid, ok)
    {
      var found, value := backend.Get(IpKey(uid), ok);
      if !found {
        return None;
      }
      match value {
        case Text(t) => return Some(t);
        case Profile(_) => return Some("");
      }
    }

    /** The request handler: what it writes, keeps and answers, and whom it tells of the request. */
    method HandleAddFriend(req: AddRequest, io: AddIo) returns (reply: Object, out: Outgoing)
      modifies backend`redis, backend`applies
      ensures (backend.W(), out) == AddFriendHandler(old(backend.W()), name, online, req, io)
      ensures reply == map["error" := Num(0)]
      ensures if io.apply then RequestFiled(old(backend.W()), backend.W(), req.uid, req.touid, req.aliasName)
              else backend.applies == old(backend.applies)
      ensures Cache.Coherent(old(backend.W())) ==> Cache.Coherent(backend.W())
      ensures Routed(out, old(backend.W()), name, online, req.touid, io.getIp)
      ensures out.Local? ==> TellsOfRequest(out.notice, req, TableInfo(old(backend.W()), req.uid, io.base))
    {
      AddHandlerFiles(backend.W(), name, online, req, io);
      AddHandlerRoutes(backend.W(), name, online, req, io);
      AddHandlerTells(backend.W(), name, online, req, io);
      if Cache.Coherent(backend.W()) {
        AddHandlerKeeps(backend.W(), name, online, req, io);
      }
      reply := map["error" := Num(SUCCESS)];
      out := AddFriend(req, io);
    }

    /** Its statements. */
    method AddFriend(req: AddRequest, io: AddIo) returns (out: Outgoing)
      modifies backend`redis, backend`applies
      ensures (backend.W(), out) == AddFriendHandler(old(backend.W()), name, online, req, io)
    {
      var _ := backend.AddFriendApplyRow(req.uid, req.touid, req.aliasName, io.apply);
      var server := FindServer(req.touid, io.getIp);
      if server.None? {
        return Nobody;
      }
      var info := backend.GetBaseInfo(req.uid, io.base);
      if server.value == name {
        if req.touid !in online {
          return Nobody;
        }
        var body: Object := map["error" := Num(SUCCESS)];
        body := body["applyuid" := Num(req.uid)];
        body := body["name" := Str(req.applyName)];
        body := body["desc" := Str("")];
        if info.Some? {
          body := body["icon" := Str(info.value.icon)];
          body := body["nick" := Str(info.value.nick)];
          body := body["sex" := Num(info.value.sex)];
        } else {
          body := body["icon" := Str("")];
          body := body["nick" := Str("")];
          body := body["sex" := Num(0)];
        }
        body := body["alias_name" := Str(req.aliasName)];
        return Local(Notice(req.touid, MSG_NOTIFY_ADDFRIEND_REQ, body));
      }
      var rpc := AddFriendReq(req.uid, req.applyName, "", req.touid, "", 0, "", req.aliasName);
      if info.Some? {
        rpc := rpc.(icon := info.value.icon);
        rpc := rpc.(nick := info.value.nick);
        rpc := rpc.(sex := info.value.sex);
      }
      out := AddRpc(server.value, rpc);
    }

    /** The notification for an applicant with a session on this server. */
    method NotifyHere(accepter: int, applicant: int, peerAlias: string, io: Io) returns (notice: Notice)
      modifies backend`redis
      ensures var (w', info) := FreshBaseInfo(old(backend.W()), accepter, io);
              backend.W() == w' && notice == AuthNotice(accepter, applicant, info, peerAlias)
    {
      var body: Object := map["error" := Num(SUCCESS)];
      body := body["fromuid" := Num(accepter)];
      body := body["touid" := Num(applicant)];
      var info := backend.GetBaseInfo(accepter, io);
      if info.Some? {
        body := body["name" := Str(info.value.name)];
        body := body["nick" := Str(info.value.nick)];
        body := body["icon" := Str(info.value.icon)];
        body := body["sex" := Num(info.value.sex)];
        body := body["alias_name" := Str(peerAlias)];
      } else {
        body := body["error" := Num(UID_INVALID)];
      }
      assert body.Keys == AuthNotice(accepter, applicant, info, peerAlias).body.Keys;
      assert body == AuthNotice(accepter, applicant, info, peerAlias).body;
      notice := Notice(applicant, MSG_NOTIFY_AUTH_FRIEND_REQ, body);
    }

    /** The approval handler: what it writes, keeps and answers, and whom it tells of the approval. */
    method HandleAuthFriend(req: AuthRequest, io: AuthIo) returns (reply: Object, out: Outgoing)
      modifies backend`redis, backend`applies, backend`friends
      ensures (backend.W(), reply, out) == AuthFriendHandler(old(backend.W()), name, online, req, io)
      ensures TellsOfApplicant(reply, req, QueryUid(old(backend.W()), req.applicant, io.applicantInfo.sql))
      ensures if io.approve then RequestApproved(old(backend.W()), backend.W(), req.applicant, req.accepter)
              else backend.applies == old(backend.applies)
      ensures var key := (req.applicant, req.accepter);
              var asked := if io.applyAlias && key in old(backend.applies) then old(backend.applies[key].aliasName) else "";
              FriendRowsAdded(old(backend.W()), backend.W(), req.applicant, req.accepter, asked, req.aliasName, io.add)
      ensures Cache.Coherent(old(backend.W())) ==> Cache.Coherent(backend.W())
      ensures Routed(out, old(backend.W()), name, online, req.applicant, io.getIp)
      ensures out.Local? ==>
        TellsOfApproval(out.notice, req.accepter, req.applicant,
                        QueryUid(old(backend.W()), req.accepter, io.accepterInfo.sql),
                        AliasReadBack(old(backend.W()), req, io))
    {
      ghost var w := backend.W();
      AuthHandlerRecords(w, name, online, req, io);
      AuthHandlerReplies(w, name, online, req, io);
      AuthHandlerRoutes(w, name, online, req, io);
      AuthHandlerTells(w, name, online, req, io);
      if Cache.Coherent(w) {
        AuthHandlerKeeps(w, name, online, req, io);
      }
      reply, out := AuthFriend(req, io);
    }

    /** Its statements. */
    method AuthFriend(req: AuthRequest, io: AuthIo) returns (reply: Object, out: Outgoing)
      modifies backend`redis, backend`applies, backend`friends
      ensures (backend.W(), reply, out) == AuthFriendHandler(old(backend.W()), name, online, req, io)
    {
      ghost var w := backend.W();
      var info := backend.GetBaseInfo(req.applicant, io.applicantInfo);
      reply := AuthReply(req, info);
      var fromRequest := backend.GetFriendApplyAlias(req.applicant, req.accepter, io.applyAlias);
      backend.AuthFriendApplyRow(req.applicant, req.accepter, io.approve);
      var _ := backend.AddFriendRows(req.applicant, req.accepter, fromRequest, req.aliasName, io.add);
      assert backend.W() == AuthTables(w, req, io);
      var peerAlias := backend.GetFriendAlias(req.applicant, req.accepter, io.friendAlias);
      var server := FindServer(req.applicant, io.getIp);
      if server.None? {
        return reply, Nobody;
      }
      if server.value == name {
        if req.applicant !in online {
          return reply, Nobody;
        }
        var notice := NotifyHere(req.accepter, req.applicant, peerAlias, io.accepterInfo);
        return reply, Local(notice);
      }
      out := AuthRpc(server.value, AuthFriendReq(req.accepter, req.applicant));
    }

    method ServeAddFriend(req: AddFriendReq) returns (notice: Option<Notice>)
      ensures notice == NotifyAddFriend(online, req) && (notice.Some? <==> req.touid in online)
    {
      if req.touid !in online {
        return None;
      }
      var body: Object := map[];
      body := body["error" := Num(SUCCESS)];
      body := body["applyuid" := Num(req.applyuid)];
      body := body["name" := Str(req.name)];
      body := body["desc" := Str(req.desc)];
      body := body["icon" := Str(req.icon)];
      body := body["sex" := Num(req.sex)];
      body := body["nick" := Str(req.nick)];
      body := body["alias_name" := Str(req.aliasName)];
      notice := Some(Notice(req.touid, MSG_NOTIFY_ADDFRIEND_REQ, body));
    }

    method ServeAuthFriend(req: AuthFriendReq, io: Io, friendAlias: bool) returns (notice: Option<Notice>)
      modifies backend`redis
      ensures (backend.W(), notice) == NotifyAuthFriend(old(backend.W()), online, req, io, friendAlias)
      ensures notice.Some? <==> req.touid in online
    {
      if req.touid !in online {
        return None;
      }
      var info := backend.ServiceGetBaseInfo(req.fromuid, io);
      var body: Object := map["error" := Num(SUCCESS)];
      body := body["fromuid" := Num(req.fromuid)];
      body := body["touid" := Num(req.touid)];
      if info.Some? {
        body := body["name" := Str(info.value.name)];
        body := body["nick" := Str(info.value.nick)];
        body := body["icon" := Str(info.value.icon)];
        body := body["sex" := Num(info.value.sex)];
        var peerAlias := backend.GetFriendAlias(req.touid, req.fromuid, friendAlias);
        body := body["alias_name" := Str(peerAlias)];
        assert body == PeerAuthNotice(req, info, peerAlias).body;
      } else {
        body := body["error" := Num(UID_INVALID)];
        assert body == PeerAuthNotice(req, info, "").body;
      }
      notice := Some(Notice(req.touid, MSG_NOTIFY_AUTH_FRIEND_REQ, body));
    }
  }
}
