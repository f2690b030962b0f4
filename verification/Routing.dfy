/** Friend notifications: the same message whether the recipient is on this server or on a peer. */
module Routing {
  import opened Keys
  import opened SharedState
  import Cache
  import Friends

  /** A JSON value; a number that is no integer is kept as its text. */
  datatype Json = Null | Bool(b: bool) | Num(n: int) | Real(text: string) | Str(s: string)
                | Arr(items: seq<Json>) | Obj(fields: map<string, Json>)
  type Object = map<string, Json>

  const MSG_NOTIFY_ADDFRIEND_REQ := 2007
  const MSG_NOTIFY_AUTH_FRIEND_REQ := 2010
  const MSG_TEXT_CHAT_MSG_RSP := 2012
  const MSG_NOTIFY_TEXT_CHAT_MSG_REQ := 2013

  /** A message sent on the session of `uid`. */
  datatype Notice = Notice(uid: int, msgId: int, body: Object)

  /** message.proto: an unset field reads as zero or empty. */
  datatype AddFriendReq = AddFriendReq(applyuid: int, name: string, desc: string, touid: int, icon: string, sex: int,
                                       nick: string, aliasName: string)
  datatype AuthFriendReq = AuthFriendReq(fromuid: int, touid: int)
  datatype TextData = TextData(msgid: string, content: string)
  datatype TextChatReq = TextChatReq(fromuid: int, touid: int, texts: seq<TextData>)

  /** What a handler does about the recipient; `Thrown` is an exception on the way. */
  datatype Outgoing = Nobody | Local(notice: Notice) | AddRpc(server: string, add: AddFriendReq)
                    | AuthRpc(server: string, auth: AuthFriendReq)
                    | TextRpc(server: string, text: TextChatReq) | Thrown

  function ServerOf(w: World, uid: int, get: bool): (r: Option<string>) {
    match RedisGet(w, IpKey(uid), get)
    case None => None
    case Some(Text(t)) => Some(t)
    case Some(Profile(_)) => Some("")
  }

  // ---- friend requests ----

  /** The client's message: who asks, under which name, whom, and the alias chosen. */
  datatype AddRequest = AddRequest(uid: int, applyName: string, aliasName: string, touid: int)

  /** Which of the handler's statements succeed. */
  datatype AddIo = AddIo(apply: bool, getIp: bool, base: Io)

  function AddNotice(req: AddRequest, info: Option<UserInfo>): (r: Notice) {
    Notice(req.touid, MSG_NOTIFY_ADDFRIEND_REQ,
      map["error" := Num(SUCCESS), "applyuid" := Num(req.uid), "name" := Str(req.applyName), "desc" := Str(""),
          "icon" := Str(if info.Some? then info.value.icon else ""),
          "nick" := Str(if info.Some? then info.value.nick else ""),
          "sex" := Num(if info.Some? then info.value.sex else 0),
          "alias_name" := Str(req.aliasName)])
  }

  /** LogicSystem::addFriendHandler on the server named `self`, whose sessions are `online`. */
  function AddFriendHandler(w: World, self: string, online: set<int>, req: AddRequest, io: AddIo)
    : (r: (World, Outgoing))
  {
    var w1 := AddFriendApply(w, req.uid, req.touid, req.aliasName, io.apply);
    match ServerOf(w1, req.touid, io.getIp)
    case None => (w1, Nobody)
    case Some(server) =>
      var (w2, info) := FreshBaseInfo(w1, req.uid, io.base);
      if server == self then
        (w2, if req.touid in online then Local(AddNotice(req, info)) else Nobody)
      else
        var rpc := AddFriendReq(req.uid, req.applyName, "", req.touid, "", 0, "", req.aliasName);
        var rpc' := if info.None? then rpc
                    else rpc.(icon := info.value.icon, nick := info.value.nick, sex := info.value.sex);
        (w2, AddRpc(server, rpc'))
  }

  /** ChatServiceImpl::NotifyAddFriend on a server whose sessions are `online`. */
  function NotifyAddFriend(online: set<int>, req: AddFriendReq): (r: Option<Notice>) {
    if req.touid !in online then None
    else Some(Notice(req.touid, MSG_NOTIFY_ADDFRIEND_REQ,
      map["error" := Num(SUCCESS), "applyuid" := Num(req.applyuid), "name" := Str(req.name), "desc" := Str(req.desc),
          "icon" := Str(req.icon), "sex" := Num(req.sex), "nick" := Str(req.nick), "alias_name" := Str(req.aliasName)]))
  }

  /** The world in which a user is logged in at a given server. */
  function At(w: World, uid: int, server: string): (r: World) {
    w.(redis := w.redis[IpKey(uid) := Text(server)])
  }

  /** The user as the table has them, when the table answers. */
  function TableInfo(w: World, uid: int, io: Io): (r: Option<UserInfo>) {
    QueryUid(w, uid, io.sql)
  }

  /** What the recipient is to be told of a request, field by field. */
  ghost predicate TellsOfRequest(n: Notice, req: AddRequest, info: Option<UserInfo>) {
    && n.uid == req.touid && n.msgId == 2007
    && n.body.Keys == {"error", "applyuid", "name", "desc", "icon", "nick", "sex", "alias_name"}
    && n.body["error"] == Num(0) && n.body["applyuid"] == Num(req.uid)
    && n.body["name"] == Str(req.applyName) && n.body["alias_name"] == Str(req.aliasName) && n.body["desc"] == Str("")
    && (info.Some? ==> n.body["icon"] == Str(info.value.icon) && n.body["nick"] == Str(info.value.nick)
                       && n.body["sex"] == Num(info.value.sex))
    && (info.None? ==> n.body["icon"] == Str("") && n.body["nick"] == Str("") && n.body["sex"] == Num(0))
  }

  /** The recipient of a request sees the same message id and the same fields whether they are on
      this server or on a peer, and the fields are those of the request and the applicant's row. */
  lemma AddFriendLocationTransparent(w: World, self: string, peer: string, online: set<int>, peerOnline: set<int>,
                                     req: AddRequest, io: AddIo)
    requires self != peer && io.getIp && req.touid in online && req.touid in peerOnline
    ensures var here := AddFriendHandler(At(w, req.touid, self), self, online, req, io).1;
            var there := AddFriendHandler(At(w, req.touid, peer), self, online, req, io).1;
            && here.Local? && TellsOfRequest(here.notice, req, TableInfo(w, req.uid, io.base))
            && there.AddRpc? && there.server == peer
            && NotifyAddFriend(peerOnline, there.add) == Some(here.notice)
  {
    AddFriendAt(w, self, self, online, req, io);
    AddFriendAt(w, self, peer, online, req, io);
    AddNoticeTells(peerOnline, req, TableInfo(w, req.uid, io.base));
  }

  /** The request as it goes to a peer: an unknown applicant leaves the profile fields unset. */
  function ToPeer(req: AddRequest, info: Option<UserInfo>): (r: AddFriendReq) {
    AddFriendReq(req.uid, req.applyName, "", req.touid, if info.Some? then info.value.icon else "",
                 if info.Some? then info.value.sex else 0, if info.Some? then info.value.nick else "", req.aliasName)
  }

  lemma AddNoticeTells(peerOnline: set<int>, req: AddRequest, info: Option<UserInfo>)
    requires req.touid in peerOnline
    ensures TellsOfRequest(AddNotice(req, info), req, info)
    ensures NotifyAddFriend(peerOnline, ToPeer(req, info)) == Some(AddNotice(req, info))
  {
    assert NotifyAddFriend(peerOnline, ToPeer(req, info)).value.body == AddNotice(req, info).body;
  }

  lemma AddFriendAt(w: World, self: string, server: string, online: set<int>, req: AddRequest, io: AddIo)
    requires io.getIp && req.touid in online
    ensures var out := AddFriendHandler(At(w, req.touid, server), self, online, req, io).1;
            var info := TableInfo(w, req.uid, io.base);
            if server == self then out == Local(AddNotice(req, info))
            else out == AddRpc(server, ToPeer(req, info))
  {
    var w1 := AddFriendApply(At(w, req.touid, server), req.uid, req.touid, req.aliasName, io.apply);
    assert ServerOf(w1, req.touid, io.getIp) == Some(server);
    FreshReadsTheTable(w1, req.uid, io.base);
    assert TableInfo(w1, req.uid, io.base) == TableInfo(w, req.uid, io.base);
  }

  lemma FreshReadsTheTable(w: World, uid: int, io: Io)
    ensures FreshBaseInfo(w, uid, io).1 == TableInfo(w, uid, io)
  {
  }

  lemma AddHandlerOut(w: World, self: string, online: set<int>, req: AddRequest, io: AddIo)
    ensures var out := AddFriendHandler(w, self, online, req, io).1;
            var info := TableInfo(w, req.uid, io.base);
            && (out.Local? ==> req.touid in online && out.notice == AddNotice(req, info))
            && (out.AddRpc? ==> out.server != self && out.add == ToPeer(req, info))
  {
    var w1 := AddFriendApply(w, req.uid, req.touid, req.aliasName, io.apply);
    FreshReadsTheTable(w1, req.uid, io.base);
    assert TableInfo(w1, req.uid, io.base) == TableInfo(w, req.uid, io.base);
  }

  /** If the handler notifies, on either route, the recipient is told of the request. */
  lemma AddHandlerTells(w: World, self: string, online: set<int>, req: AddRequest, io: AddIo)
    ensures var out := AddFriendHandler(w, self, online, req, io).1;
            var info := TableInfo(w, req.uid, io.base);
            && (out.Local? ==> req.touid in online && TellsOfRequest(out.notice, req, info))
            && (out.AddRpc? ==> forall there: set<int> :: req.touid in there ==>
                  NotifyAddFriend(there, out.add).Some? && TellsOfRequest(NotifyAddFriend(there, out.add).value, req, info))
  {
    var info := TableInfo(w, req.uid, io.base);
    AddHandlerOut(w, self, online, req, io);
    AddNoticeTells({req.touid}, req, info);
    forall there: set<int> | req.touid in there
      ensures NotifyAddFriend(there, ToPeer(req, info)) == Some(AddNotice(req, info))
    {
      AddNoticeTells(there, req, info);
    }
  }

  lemma AddHandlerKeeps(w: World, self: string, online: set<int>, req: AddRequest, io: AddIo)
    requires Cache.Coherent(w)
    ensures Cache.Coherent(AddFriendHandler(w, self, online, req, io).0)
  {
    var w1 := AddFriendApply(w, req.uid, req.touid, req.aliasName, io.apply);
    Cache.SameRedisCoherent(w, w1);
    Cache.FreshCoherent(w1, req.uid, io.base);
  }

  /** What the handler writes: the request of the applicant to the recipient, under the alias of the
      message, if the statement succeeds; no friend row, and no request of anybody else. */
  lemma AddHandlerFiles(w: World, self: string, online: set<int>, req: AddRequest, io: AddIo)
    ensures var w' := AddFriendHandler(w, self, online, req, io).0;
            && w'.users == w.users && w'.friends == w.friends
            && (if io.apply then RequestFiled(w, w', req.uid, req.touid, req.aliasName) else w'.applies == w.applies)
  {
    ApplyTable(w, req.uid, req.touid, req.aliasName, io.apply);
  }

  /** Where a notification goes: to nobody if the recipient's server is unknown, or if it is this one
      and they have no session; to their session if they have one here; else to their server. */
  ghost predicate Routed(out: Outgoing, w: World, self: string, online: set<int>, recipient: int, getIp: bool) {
    var key := IpKey(recipient);
    && (!getIp || key !in w.redis ==> out.Nobody?)
    && (getIp && key in w.redis && w.redis[key].Text? ==>
          var server := w.redis[key].text;
          && (server == self && recipient in online ==> out.Local? && out.notice.uid == recipient)
          && (server == self && recipient !in online ==> out.Nobody?)
          && (server != self ==> (out.AddRpc? || out.AuthRpc? || out.TextRpc? || out.Thrown?)
                                 && (out.AddRpc? || out.AuthRpc? || out.TextRpc? ==> out.server == server)))
  }

  lemma AddHandlerRoutes(w: World, self: string, online: set<int>, req: AddRequest, io: AddIo)
    ensures var out := AddFriendHandler(w, self, online, req, io).1;
            Routed(out, w, self, online, req.touid, io.getIp) && (out.Nobody? || out.Local? || out.AddRpc?)
  {
    assert AddFriendApply(w, req.uid, req.touid, req.aliasName, io.apply).redis == w.redis;
  }

  // ---- approvals ----

  datatype AuthRequest = AuthRequest(applicant: int, accepter: int, aliasName: string)

  /** Which of the handler's statements succeed. */
  datatype AuthIo = AuthIo(applicantInfo: Io, applyAlias: bool, approve: bool, add: Inserts, friendAlias: bool,
                           getIp: bool, accepterInfo: Io)

  /** The notification as the handler builds it for a session of its own. */
  function AuthNotice(accepter: int, applicant: int, info: Option<UserInfo>, aliasName: string): (r: Notice) {
    var ids: Object := map["error" := Num(SUCCESS), "fromuid" := Num(accepter), "touid" := Num(applicant)];
    Notice(applicant, MSG_NOTIFY_AUTH_FRIEND_REQ,
      if info.None? then ids["error" := Num(UID_INVALID)]
      else ids + map["name" := Str(info.value.name), "nick" := Str(info.value.nick), "icon" := Str(info.value.icon),
                     "sex" := Num(info.value.sex), "alias_name" := Str(aliasName)])
  }

  /** The notification as the peer's service builds it from the ids of the request. */
  function PeerAuthNotice(req: AuthFriendReq, info: Option<UserInfo>, aliasName: string): (r: Notice) {
    match info
    case None =>
      Notice(req.touid, MSG_NOTIFY_AUTH_FRIEND_REQ,
        map["error" := Num(UID_INVALID), "fromuid" := Num(req.fromuid), "touid" := Num(req.touid)])
    case Some(u) =>
      Notice(req.touid, MSG_NOTIFY_AUTH_FRIEND_REQ,
        map["error" := Num(SUCCESS), "fromuid" := Num(req.fromuid), "touid" := Num(req.touid), "name" := Str(u.name),
            "nick" := Str(u.nick), "icon" := Str(u.icon), "sex" := Num(u.sex), "alias_name" := Str(aliasName)])
  }

  /** What the applicant is to be told of an approval, field by field. */
  ghost predicate TellsOfApproval(n: Notice, accepter: int, applicant: int, info: Option<UserInfo>, aliasName: string) {
    && n.uid == applicant && n.msgId == 2010
    && var ids := {"error", "fromuid", "touid"};
       && n.body.Keys == (if info.None? then ids else ids + {"name", "nick", "icon", "sex", "alias_name"})
       && n.body["error"] == Num(if info.None? then 1011 else 0)
       && n.body["fromuid"] == Num(accepter) && n.body["touid"] == Num(applicant)
       && (info.Some? ==>
             n.body["name"] == Str(info.value.name) && n.body["nick"] == Str(info.value.nick)
             && n.body["icon"] == Str(info.value.icon) && n.body["sex"] == Num(info.value.sex)
             && n.body["alias_name"] == Str(aliasName))
  }

  lemma AuthNoticeTells(accepter: int, applicant: int, info: Option<UserInfo>, aliasName: string)
    ensures TellsOfApproval(AuthNotice(accepter, applicant, info, aliasName), accepter, applicant, info, aliasName)
    ensures PeerAuthNotice(AuthFriendReq(accepter, applicant), info, aliasName)
         == AuthNotice(accepter, applicant, info, aliasName)
  {
    PeerNoticeTells(accepter, applicant, info, aliasName);
    assert PeerAuthNotice(AuthFriendReq(accepter, applicant), info, aliasName).body
        == AuthNotice(accepter, applicant, info, aliasName).body;
  }

  lemma PeerNoticeTells(accepter: int, applicant: int, info: Option<UserInfo>, aliasName: string)
    ensures TellsOfApproval(PeerAuthNotice(AuthFriendReq(accepter, applicant), info, aliasName),
                            accepter, applicant, info, aliasName)
  {
  }

  /** The reply to the accepter: the applicant's profile under the alias just chosen. */
  function AuthReply(req: AuthRequest, info: Option<UserInfo>): (r: Object) {
    if info.None? then map["error" := Num(UID_INVALID)]
    else map["error" := Num(SUCCESS), "name" := Str(info.value.name), "nick" := Str(info.value.nick),
             "icon" := Str(info.value.icon), "sex" := Num(info.value.sex), "uid" := Num(req.applicant),
             "alias_name" := Str(req.aliasName)]
  }

  /** The part of the handler that writes the tables. */
  function AuthTables(w: World, req: AuthRequest, io: AuthIo): (r: World) {
    var w1 := FreshBaseInfo(w, req.applicant, io.applicantInfo).0;
    var fromRequest := ApplyAlias(w1, req.applicant, req.accepter, io.applyAlias);
    var w2 := AuthFriendApply(w1, req.applicant, req.accepter, io.approve);
    AddFriend(w2, req.applicant, req.accepter, fromRequest, req.aliasName, io.add)
  }

  /** LogicSystem::authFriendHandler: the new world, the reply, and the notification. */
  function AuthFriendHandler(w: World, self: string, online: set<int>, req: AuthRequest, io: AuthIo)
    : (r: (World, Object, Outgoing))
  {
    var reply := AuthReply(req, FreshBaseInfo(w, req.applicant, io.applicantInfo).1);
    var w3 := AuthTables(w, req, io);
    var peerAlias := FriendAlias(w3, req.applicant, req.accepter, io.friendAlias);
    match ServerOf(w3, req.applicant, io.getIp)
    case None => (w3, reply, Nobody)
    case Some(server) =>
      if server != self then (w3, reply, AuthRpc(server, AuthFriendReq(req.accepter, req.applicant)))
      else if req.applicant !in online then (w3, reply, Nobody)
      else
        var (w4, info) := FreshBaseInfo(w3, req.accepter, io.accepterInfo);
        (w4, reply, Local(AuthNotice(req.accepter, req.applicant, info, peerAlias)))
  }

  /** ChatServiceImpl::NotifyAuthFriend. */
  function NotifyAuthFriend(w: World, online: set<int>, req: AuthFriendReq, io: Io, friendAlias: bool)
    : (r: (World, Option<Notice>))
  {
    if req.touid !in online then (w, None)
    else
      var (w1, info) := CachedBaseInfo(w, req.fromuid, io);
      var aliasName := FriendAlias(w1, req.touid, req.fromuid, friendAlias);
      (w1, Some(PeerAuthNotice(req, info, aliasName)))
  }

  /** The tables' part of the handler keeps the cache coherent and every other key of Redis, and
      inserts the applicant's row unless the first insert fails. */
  lemma AuthTablesKeep(w: World, req: AuthRequest, io: AuthIo)
    requires Cache.Coherent(w)
    ensures var v := AuthTables(w, req, io);
            && Cache.Coherent(v) && v.users == w.users
            && (forall uid :: ServerOf(v, uid, true) == ServerOf(w, uid, true))
            && (!io.add.Neither? ==> (req.applicant, req.accepter) in v.friends)
  {
    var w1 := FreshBaseInfo(w, req.applicant, io.applicantInfo).0;
    Cache.FreshCoherent(w, req.applicant, io.applicantInfo);
    FreshKeepsServers(w, req.applicant, io.applicantInfo);
    Cache.SameRedisCoherent(w1, AuthTables(w, req, io));
  }

  /** Whether the handler will leave the applicant's row in the friend table, and under which alias;
      both are known before the call. */
  predicate RowStored(w: World, req: AuthRequest, io: AuthIo) {
    (req.applicant, req.accepter) in w.friends || !io.add.Neither?
  }

  function StoredAlias(w: World, req: AuthRequest, io: AuthIo): (r: string) {
    if (req.applicant, req.accepter) in w.friends then w.friends[(req.applicant, req.accepter)]
    else ApplyAlias(w, req.applicant, req.accepter, io.applyAlias)
  }

  lemma TablesStore(w: World, req: AuthRequest, io: AuthIo)
    ensures var friends := AuthTables(w, req, io).friends;
            && ((req.applicant, req.accepter) in friends <==> RowStored(w, req, io))
            && (RowStored(w, req, io) ==> friends[(req.applicant, req.accepter)] == StoredAlias(w, req, io))
  {
  }

  lemma FreshKeepsServers(w: World, uid: int, io: Io)
    ensures var v := FreshBaseInfo(w, uid, io).0; forall u :: ServerOf(v, u, true) == ServerOf(w, u, true)
  {
    KeysApart();
  }

  lemma AddFriendLocal(w: World, v: World, a: int, b: int, ab: string, ba: string, got: Inserts)
    requires w.friends == v.friends
    ensures AddFriend(w, a, b, ab, ba, got).friends == AddFriend(v, a, b, ab, ba, got).friends
  {
  }

  lemma AuthTablesSame(w: World, v: World, req: AuthRequest, io: AuthIo)
    requires SameTables(w, v)
    ensures AuthTables(w, req, io).friends == AuthTables(v, req, io).friends
  {
    var w1, v1 := FreshBaseInfo(w, req.applicant, io.applicantInfo).0, FreshBaseInfo(v, req.applicant, io.applicantInfo).0;
    var fromRequest := ApplyAlias(w1, req.applicant, req.accepter, io.applyAlias);
    assert ApplyAlias(v1, req.applicant, req.accepter, io.applyAlias) == fromRequest;
    AddFriendLocal(AuthFriendApply(w1, req.applicant, req.accepter, io.approve),
                   AuthFriendApply(v1, req.applicant, req.accepter, io.approve),
                   req.applicant, req.accepter, fromRequest, req.aliasName, io.add);
  }

  lemma AuthTablesAt(w: World, server: string, req: AuthRequest, io: AuthIo)
    ensures var v, w' := AuthTables(w, req, io), At(w, req.applicant, server);
            var v' := AuthTables(w', req, io);
            && v'.friends == v.friends && v'.users == w.users
            && ServerOf(v', req.applicant, true) == Some(server)
  {
    var w' := At(w, req.applicant, server);
    AuthTablesSame(w, w', req, io);
    FreshKeepsServers(w', req.applicant, io.applicantInfo);
    assert ServerOf(FreshBaseInfo(w', req.applicant, io.applicantInfo).0, req.applicant, true) == Some(server);
  }

  /** The alias the handler reads back for its message. */
  function AliasReadBack(w: World, req: AuthRequest, io: AuthIo): (r: string) {
    if io.friendAlias && RowStored(w, req, io) then StoredAlias(w, req, io) else ""
  }

  lemma AuthHandlerOut(w: World, self: string, online: set<int>, req: AuthRequest, io: AuthIo)
    ensures var out := AuthFriendHandler(w, self, online, req, io).2;
            && (out.Local? ==>
                  && req.applicant in online
                  && out.notice == AuthNotice(req.accepter, req.applicant, QueryUid(w, req.accepter, io.accepterInfo.sql),
                                              AliasReadBack(w, req, io)))
            && (out.AuthRpc? ==> out.server != self && out.auth == AuthFriendReq(req.accepter, req.applicant))
  {
    var w3 := AuthTables(w, req, io);
    TablesStore(w, req, io);
    FreshReadsTheTable(w3, req.accepter, io.accepterInfo);
  }

  /** If the applicant is here, they are told of the approval, under the stored alias if it could be
      read; a peer is told who approved whom. */
  lemma AuthHandlerTells(w: World, self: string, online: set<int>, req: AuthRequest, io: AuthIo)
    ensures var out := AuthFriendHandler(w, self, online, req, io).2;
            && (out.Local? ==>
                  && req.applicant in online
                  && TellsOfApproval(out.notice, req.accepter, req.applicant,
                                     QueryUid(w, req.accepter, io.accepterInfo.sql), AliasReadBack(w, req, io)))
            && (out.AuthRpc? ==> out.server != self && out.auth == AuthFriendReq(req.accepter, req.applicant))
  {
    AuthHandlerOut(w, self, online, req, io);
    AuthNoticeTells(req.accepter, req.applicant, QueryUid(w, req.accepter, io.accepterInfo.sql), AliasReadBack(w, req, io));
  }

  /** What the handler writes.  The applicant's request is approved if it is on file and the statement
      succeeds.  The applicant's friend row is new under the alias of that request as it was read,
      and the accepter's under the alias of the message, as far as the inserts get. */
  lemma AuthHandlerRecords(w: World, self: string, online: set<int>, req: AuthRequest, io: AuthIo)
    ensures var w' := AuthFriendHandler(w, self, online, req, io).0;
            var key := (req.applicant, req.accepter);
            var asked := if io.applyAlias && key in w.applies then w.applies[key].aliasName else "";
            && w'.users == w.users
            && (if io.approve then RequestApproved(w, w', req.applicant, req.accepter) else w'.applies == w.applies)
            && FriendRowsAdded(w, w', req.applicant, req.accepter, asked, req.aliasName, io.add)
  {
    var w3 := AuthTables(w, req, io);
    AuthTablesRecord(w, req, io);
    assert SameTables(w3, FreshBaseInfo(w3, req.accepter, io.accepterInfo).0);
    assert SameTables(w3, AuthFriendHandler(w, self, online, req, io).0);
  }

  lemma AuthTablesRecord(w: World, req: AuthRequest, io: AuthIo)
    ensures var w3 := AuthTables(w, req, io);
            && w3.users == w.users
            && (if io.approve then RequestApproved(w, w3, req.applicant, req.accepter) else w3.applies == w.applies)
            && FriendRowsAdded(w, w3, req.applicant, req.accepter,
                               ApplyAlias(w, req.applicant, req.accepter, io.applyAlias), req.aliasName, io.add)
  {
    var w1 := FreshBaseInfo(w, req.applicant, io.applicantInfo).0;
    var asked := ApplyAlias(w1, req.applicant, req.accepter, io.applyAlias);
    ApplyTable(w1, req.applicant, req.accepter, "", io.approve);
    FriendTable(AuthFriendApply(w1, req.applicant, req.accepter, io.approve),
                req.applicant, req.accepter, asked, req.aliasName, io.add);
  }

  /** What the accepter is answered: the applicant's profile under the alias just chosen, or 1011 alone. */
  ghost predicate TellsOfApplicant(reply: Object, req: AuthRequest, info: Option<UserInfo>) {
    && (info.None? ==> reply == map["error" := Num(1011)])
    && (info.Some? ==>
          && reply.Keys == {"error", "name", "nick", "icon", "sex", "uid", "alias_name"}
          && reply["error"] == Num(0) && reply["uid"] == Num(req.applicant)
          && reply["name"] == Str(info.value.name) && reply["nick"] == Str(info.value.nick)
          && reply["icon"] == Str(info.value.icon) && reply["sex"] == Num(info.value.sex)
          && reply["alias_name"] == Str(req.aliasName))
  }

  lemma AuthHandlerReplies(w: World, self: string, online: set<int>, req: AuthRequest, io: AuthIo)
    ensures TellsOfApplicant(AuthFriendHandler(w, self, online, req, io).1, req,
                             QueryUid(w, req.applicant, io.applicantInfo.sql))
  {
    FreshReadsTheTable(w, req.applicant, io.applicantInfo);
  }

  lemma AuthHandlerRoutes(w: World, self: string, online: set<int>, req: AuthRequest, io: AuthIo)
    ensures var out := AuthFriendHandler(w, self, online, req, io).2;
            Routed(out, w, self, online, req.applicant, io.getIp) && (out.Nobody? || out.Local? || out.AuthRpc?)
  {
    FreshKeepsServers(w, req.applicant, io.applicantInfo);
    FreshKeepsIps(w, req.applicant, io.applicantInfo);
  }

  lemma FreshKeepsIps(w: World, uid: int, io: Io)
    ensures var v := FreshBaseInfo(w, uid, io).0;
            forall u :: (IpKey(u) in v.redis <==> IpKey(u) in w.redis)
                        && (IpKey(u) in w.redis ==> v.redis[IpKey(u)] == w.redis[IpKey(u)])
  {
    KeysApart();
  }

  lemma AuthHandlerKeeps(w: World, self: string, online: set<int>, req: AuthRequest, io: AuthIo)
    requires Cache.Coherent(w)
    ensures Cache.Coherent(AuthFriendHandler(w, self, online, req, io).0)
  {
    AuthTablesKeep(w, req, io);
    Cache.FreshCoherent(AuthTables(w, req, io), req.accepter, io.accepterInfo);
  }

  /** The applicant sees the same message id and the same fields, whether the approval reaches them
      on this server or through a peer that builds the message itself, at any later time and after
      any operations of any servers.  What is needed: the applicant's row is stored before the
      handler or by its first insert, and the queries made for this message succeed. */
  lemma AuthFriendLocationTransparent(w: World, self: string, peer: string, online: set<int>, peerOnline: set<int>,
                                      req: AuthRequest, io: AuthIo, meanwhile: seq<Op>, peerIo: Io)
    requires Cache.Coherent(w) && self != peer && req.applicant in online && req.applicant in peerOnline
    requires io.getIp && io.friendAlias && io.accepterInfo.sql && peerIo.sql && RowStored(w, req, io)
    ensures var (w1, reply1, here) := AuthFriendHandler(At(w, req.applicant, self), self, online, req, io);
            var (w2, reply2, there) := AuthFriendHandler(At(w, req.applicant, peer), self, online, req, io);
            && reply1 == reply2
            && here.Local? && there == AuthRpc(peer, AuthFriendReq(req.accepter, req.applicant))
            && NotifyAuthFriend(After(w2, meanwhile), peerOnline, there.auth, peerIo, true).1 == Some(here.notice)
            && TellsOfApproval(here.notice, req.accepter, req.applicant, QueryUid(w, req.accepter, true),
                               StoredAlias(w, req, io))
  {
    AuthNoticeTells(req.accepter, req.applicant, QueryUid(w, req.accepter, true), StoredAlias(w, req, io));
    AuthHere(w, self, online, req, io);
    AuthThere(w, self, peer, online, peerOnline, req, io, meanwhile, peerIo);
    FreshReadsTheTable(At(w, req.applicant, self), req.applicant, io.applicantInfo);
    FreshReadsTheTable(At(w, req.applicant, peer), req.applicant, io.applicantInfo);
  }

  lemma AuthHere(w: World, self: string, online: set<int>, req: AuthRequest, io: AuthIo)
    requires req.applicant in online && io.getIp
    ensures AuthFriendHandler(At(w, req.applicant, self), self, online, req, io).2
         == Local(AuthNotice(req.accepter, req.applicant, QueryUid(w, req.accepter, io.accepterInfo.sql),
                             AliasReadBack(w, req, io)))
  {
    TablesStore(w, req, io);
    AuthTablesAt(w, self, req, io);
    FreshReadsTheTable(AuthTables(At(w, req.applicant, self), req, io), req.accepter, io.accepterInfo);
  }

  lemma AuthThere(w: World, self: string, peer: string, online: set<int>, peerOnline: set<int>,
                  req: AuthRequest, io: AuthIo, meanwhile: seq<Op>, peerIo: Io)
    requires Cache.Coherent(w) && self != peer && req.applicant in peerOnline && io.getIp && peerIo.sql
    requires RowStored(w, req, io)
    ensures var (w2, _, there) := AuthFriendHandler(At(w, req.applicant, peer), self, online, req, io);
            && there == AuthRpc(peer, AuthFriendReq(req.accepter, req.applicant))
            && NotifyAuthFriend(After(w2, meanwhile), peerOnline, there.auth, peerIo, true).1
               == Some(AuthNotice(req.accepter, req.applicant, QueryUid(w, req.accepter, true), StoredAlias(w, req, io)))
  {
    var w' := At(w, req.applicant, peer);
    var w2 := AuthTables(w', req, io);
    var v := After(w2, meanwhile);
    TablesStore(w, req, io);
    AuthTablesAt(w, peer, req, io);
    Cache.SetIpCoherent(w, req.applicant, peer, true);
    AuthTablesKeep(w', req, io);
    Cache.RunCoherent(w2, meanwhile);
    Friends.FriendRowsNeverChange(w2, meanwhile);
    assert Cache.BaseEntryOk(v, req.accepter);
    AuthNoticeTells(req.accepter, req.applicant, QueryUid(w, req.accepter, true), StoredAlias(w, req, io));
  }

  /** The two routes agree, for one course of events between the handler and the peer. */
  ghost predicate SameNotice(w: World, self: string, peer: string, online: set<int>, peerOnline: set<int>,
                             req: AuthRequest, io: AuthIo, meanwhile: seq<Op>, peerIo: Io)
  {
    var here := AuthFriendHandler(At(w, req.applicant, self), self, online, req, io).2;
    var (w2, _, there) := AuthFriendHandler(At(w, req.applicant, peer), self, online, req, io);
    && here.Local? && there.AuthRpc?
    && NotifyAuthFriend(After(w2, meanwhile), peerOnline, there.auth, peerIo, true).1 == Some(here.notice)
  }

  /** What both routes need, as it can be told before the call: the accepter is no user; or the
      handler's query for the accepter succeeds, the applicant's row is stored, and its alias is read
      back or is empty. */
  predicate SameOnBothRoutes(w: World, req: AuthRequest, io: AuthIo) {
    || RowByUid(w.users, req.accepter).None?
    || (io.accepterInfo.sql && RowStored(w, req, io) && (io.friendAlias || StoredAlias(w, req, io) == ""))
  }

  /** Exactly when the routes agree in every course of events in which the peer's own queries
      succeed. */
  lemma AuthTransparentExactlyWhen(w: World, self: string, peer: string, online: set<int>, peerOnline: set<int>,
                                   req: AuthRequest, io: AuthIo)
    requires Cache.Coherent(w) && self != peer && req.applicant in online && req.applicant in peerOnline
    requires io.getIp
    ensures (forall meanwhile, peerIo: Io :: peerIo.sql ==>
               SameNotice(w, self, peer, online, peerOnline, req, io, meanwhile, peerIo))
        <==> SameOnBothRoutes(w, req, io)
  {
    if SameOnBothRoutes(w, req, io) {
      forall meanwhile, peerIo: Io | peerIo.sql
        ensures SameNotice(w, self, peer, online, peerOnline, req, io, meanwhile, peerIo)
      {
        if RowByUid(w.users, req.accepter).None? {
          AuthOfStranger(w, self, peer, online, peerOnline, req, io, meanwhile, peerIo);
        } else {
          AuthHere(w, self, online, req, io);
          AuthThere(w, self, peer, online, peerOnline, req, io, meanwhile, peerIo);
        }
      }
    } else if !RowStored(w, req, io) && io.accepterInfo.sql {
      AuthDiffers(w, self, peer, online, peerOnline, req, io);
    } else if !io.accepterInfo.sql {
      AuthQueryFails(w, self, peer, online, peerOnline, req, io);
    } else {
      AuthAliasLost(w, self, peer, online, peerOnline, req, io);
    }
  }

  /** Without the accepter's profile the handler tells of an error, and the peer of success. */
  lemma AuthQueryFails(w: World, self: string, peer: string, online: set<int>, peerOnline: set<int>,
                       req: AuthRequest, io: AuthIo)
    requires self != peer && req.applicant in online && req.applicant in peerOnline
    requires io.getIp && !io.accepterInfo.sql && RowByUid(w.users, req.accepter).Some?
    ensures !SameNotice(w, self, peer, online, peerOnline, req, io, [], Io(true, false, false, false))
  {
    AuthHere(w, self, online, req, io);
    AuthRemote(w, self, peer, online, req, io);
    var here := AuthFriendHandler(At(w, req.applicant, self), self, online, req, io).2;
    assert here.notice.body["error"] == Num(UID_INVALID);
  }

  /** An alias the handler fails to read back is missing from its message only. */
  lemma AuthAliasLost(w: World, self: string, peer: string, online: set<int>, peerOnline: set<int>,
                      req: AuthRequest, io: AuthIo)
    requires Cache.Coherent(w) && self != peer && req.applicant in online && req.applicant in peerOnline
    requires io.getIp && io.accepterInfo.sql && RowByUid(w.users, req.accepter).Some?
    requires RowStored(w, req, io) && !io.friendAlias && StoredAlias(w, req, io) != ""
    ensures !SameNotice(w, self, peer, online, peerOnline, req, io, [], Io(true, false, false, false))
  {
    AuthHere(w, self, online, req, io);
    AuthThere(w, self, peer, online, peerOnline, req, io, [], Io(true, false, false, false));
    AuthNoticeTells(req.accepter, req.applicant, QueryUid(w, req.accepter, true), StoredAlias(w, req, io));
    AuthNoticeTells(req.accepter, req.applicant, QueryUid(w, req.accepter, true), "");
  }

  lemma AuthOfStranger(w: World, self: string, peer: string, online: set<int>, peerOnline: set<int>,
                       req: AuthRequest, io: AuthIo, meanwhile: seq<Op>, peerIo: Io)
    requires Cache.Coherent(w) && self != peer && req.applicant in online && req.applicant in peerOnline
    requires io.getIp && RowByUid(w.users, req.accepter).None?
    ensures SameNotice(w, self, peer, online, peerOnline, req, io, meanwhile, peerIo)
  {
    var w' := At(w, req.applicant, peer);
    var w2 := AuthTables(w', req, io);
    AuthTablesAt(w, self, req, io);
    AuthTablesAt(w, peer, req, io);
    Cache.SetIpCoherent(w, req.applicant, peer, true);
    AuthTablesKeep(w', req, io);
    Cache.RunCoherent(w2, meanwhile);
    var v := After(w2, meanwhile);
    assert Cache.BaseEntryOk(v, req.accepter);
    assert CachedBaseInfo(v, req.accepter, peerIo).1 == None;
    forall aliasName
      ensures PeerAuthNotice(AuthFriendReq(req.accepter, req.applicant), None, aliasName)
           == AuthNotice(req.accepter, req.applicant, None, "")
    {
      AuthNoticeTells(req.accepter, req.applicant, None, aliasName);
    }
    FreshReadsTheTable(AuthTables(At(w, req.applicant, self), req, io), req.accepter, io.accepterInfo);
  }

  /** The handler run for a recipient elsewhere. */
  lemma AuthRemote(w: World, self: string, peer: string, online: set<int>, req: AuthRequest, io: AuthIo)
    requires self != peer && io.getIp
    ensures var (w2, _, there) := AuthFriendHandler(At(w, req.applicant, peer), self, online, req, io);
            && there == AuthRpc(peer, AuthFriendReq(req.accepter, req.applicant))
            && w2 == AuthTables(At(w, req.applicant, peer), req, io)
            && w2.friends == AuthTables(w, req, io).friends && w2.users == w.users
  {
    AuthTablesAt(w, peer, req, io);
  }

  lemma AfterOne(w: World, op: Op)
    ensures After(w, [op]) == Do(w, op)
  {
    assert After(Do(w, op), []) == Do(w, op);
    assert [op][1..] == [];
  }

  /** Without the row, one later addFriend is enough to tell the routes apart. */
  lemma AuthDiffers(w: World, self: string, peer: string, online: set<int>, peerOnline: set<int>,
                    req: AuthRequest, io: AuthIo)
    requires self != peer && req.applicant in online && req.applicant in peerOnline
    requires io.getIp && io.accepterInfo.sql && RowByUid(w.users, req.accepter).Some? && !RowStored(w, req, io)
    ensures var insert := FirstInsert(req.applicant, req.accepter, "x");
            !SameNotice(w, self, peer, online, peerOnline, req, io, [insert], Io(true, false, false, false))
  {
    AuthHere(w, self, online, req, io);
    AuthRemote(w, self, peer, online, req, io);
    PeerAfterInsert(w, peer, peerOnline, req, io);
    var here := AuthFriendHandler(At(w, req.applicant, self), self, online, req, io).2;
    assert here.notice.body["alias_name"] == Str("");
  }

  lemma PeerAfterInsert(w: World, peer: string, peerOnline: set<int>, req: AuthRequest, io: AuthIo)
    requires req.applicant in peerOnline && RowByUid(w.users, req.accepter).Some? && !RowStored(w, req, io)
    ensures var v := After(AuthTables(At(w, req.applicant, peer), req, io), [FirstInsert(req.applicant, req.accepter, "x")]);
            var n := NotifyAuthFriend(v, peerOnline, AuthFriendReq(req.accepter, req.applicant),
                                      Io(true, false, false, false), true).1;
            n.Some? && "alias_name" in n.value.body && n.value.body["alias_name"] == Str("x")
  {
    var w2 := AuthTables(At(w, req.applicant, peer), req, io);
    TablesStore(w, req, io);
    AuthTablesAt(w, peer, req, io);
    AfterOne(w2, FirstInsert(req.applicant, req.accepter, "x"));
  }

  // ---- text messages ----

  /** The client's message; its text_array may be any JSON value, `Null` if it is missing. */
  datatype TextRequest = TextRequest(fromuid: int, touid: int, texts: Json)

  /** What a loop over a JSON value visits: the items of an array, or the members of an object in
      some fixed order. */
  ghost function Elements(j: Json): (r: seq<Json>) {
    match j
    case Arr(items) => items
    case Obj(fields) => Members(fields)
    case _ => []
  }

  ghost function Members(fields: map<string, Json>): (r: seq<Json>)
    decreases |fields.Keys|
  {
    if fields == map[] then []
    else
      var k :| k in fields;
      assert (fields - {k}).Keys == fields.Keys - {k};
      [fields[k]] + Members(fields - {k})
  }

  /** Reading a member: none of a null, and an exception for anything else that is no object. */
  function Member(j: Json, key: string): (r: Option<Json>) {
    match j
    case Null => Some(Null)
    case Obj(fields) => Some(if key in fields then fields[key] else Null)
    case _ => None
  }

  /** asString: an exception for arrays and objects. */
  function AsString(j: Json): (r: Option<string>) {
    match j
    case Null => Some("")
    case Bool(b) => Some(if b then "true" else "false")
    case Num(n) => Some(ToString(n))
    case Real(t) => Some(t)
    case Str(s) => Some(s)
    case _ => None
  }

  function TextOf(e: Json, key: string): (r: Option<string>) {
    var m := Member(e, key);
    if m.None? then None else AsString(m.value)
  }

  /** What the RPC carries: two strings of each element. */
  function Projected(es: seq<Json>): (r: Option<seq<TextData>>) {
    if es == [] then Some([])
    else
      var content, msgid, rest := TextOf(es[0], "content"), TextOf(es[0], "msgid"), Projected(es[1..]);
      if content.None? || msgid.None? || rest.None? then None
      else Some([TextData(msgid.value, content.value)] + rest.value)
  }

  /** chatTextMsgHandler sends a recipient on this server what it answers the sender: the uids
      exchanged, the array as it came, under the id of the answer. */
  function TextNotice(req: TextRequest): (r: Notice) {
    Notice(req.touid, MSG_TEXT_CHAT_MSG_RSP,
      map["error" := Num(SUCCESS), "fromuid" := Num(req.touid), "touid" := Num(req.fromuid),
          "text_array" := req.texts])
  }

  ghost function TextChatHandler(w: World, self: string, online: set<int>, req: TextRequest, getIp: bool)
    : (out: Outgoing)
  {
    match ServerOf(w, req.touid, getIp)
    case None => Nobody
    case Some(server) =>
      if server == self then
        if req.touid in online then Local(TextNotice(req)) else Nobody
      else
        match Projected(Elements(req.texts))
        case None => Thrown
        case Some(texts) => TextRpc(server, TextChatReq(req.fromuid, req.touid, texts))
  }

  function TextElement(t: TextData): (r: Json) {
    Obj(map["msgid" := Str(t.msgid), "content" := Str(t.content)])
  }

  function Rebuilt(ts: seq<TextData>): (r: seq<Json>)
    ensures |r| == |ts|
  {
    if ts == [] then [] else [TextElement(ts[0])] + Rebuilt(ts[1..])
  }

  /** ChatServiceImpl::NotifyTextChatMsg: a value that is null until an element is appended. */
  function NotifyTextChat(online: set<int>, req: TextChatReq): (r: Option<Notice>) {
    if req.touid !in online then None
    else Some(Notice(req.touid, MSG_NOTIFY_TEXT_CHAT_MSG_REQ,
      map["error" := Num(SUCCESS), "fromuid" := Num(req.fromuid), "touid" := Num(req.touid),
          "text_array" := if req.texts == [] then Null else Arr(Rebuilt(req.texts))]))
  }

  /** An element the RPC carries whole: an id and a content, both strings, and nothing else. */
  predicate IsText(e: Json) {
    e.Obj? && e.fields.Keys == {"msgid", "content"} && e.fields["msgid"].Str? && e.fields["content"].Str?
  }

  /** An element the handler can read: each of the two fields is missing or prints as a text. */
  predicate Legible(e: Json) {
    e.Null? || (e.Obj? && forall k :: k in {"msgid", "content"} && k in e.fields ==>
                              !e.fields[k].Arr? && !e.fields[k].Obj?)
  }

  /** A text_array that comes through the RPC as it was: none, or at least one element, each whole. */
  predicate Survives(texts: Json) {
    texts.Null? || (texts.Arr? && texts.items != [] && forall i :: 0 <= i < |texts.items| ==> IsText(texts.items[i]))
  }

  lemma {:induction false} ProjectedExactlyWhen(es: seq<Json>)
    ensures Projected(es).Some? <==> forall i :: 0 <= i < |es| ==> Legible(es[i])
    ensures Projected(es).Some? ==>
              |Projected(es).value| == |es|
              && (Rebuilt(Projected(es).value) == es <==> forall i :: 0 <= i < |es| ==> IsText(es[i]))
  {
    if es != [] {
      ProjectedExactlyWhen(es[1..]);
      assert es == [es[0]] + es[1..];
      LegibleExactlyWhen(es[0]);
      if Projected(es).Some? {
        var ts := Projected(es).value;
        WholeExactlyWhen(es[0]);
        assert ts[1..] == Projected(es[1..]).value;
        assert Rebuilt(ts)[0] == TextElement(ts[0]) && Rebuilt(ts)[1..] == Rebuilt(ts[1..]);
      }
    }
  }

  lemma LegibleExactlyWhen(e: Json)
    ensures TextOf(e, "content").Some? && TextOf(e, "msgid").Some? <==> Legible(e)
  {
    if e.Obj? && Legible(e) {
      assert forall k :: k in {"msgid", "content"} && k in e.fields ==> !e.fields[k].Arr? && !e.fields[k].Obj?;
    }
  }

  lemma WholeExactlyWhen(e: Json)
    requires TextOf(e, "content").Some? && TextOf(e, "msgid").Some?
    ensures TextElement(TextData(TextOf(e, "msgid").value, TextOf(e, "content").value)) == e <==> IsText(e)
  {
  }

  /** What the RPC carries of a field: nothing of a missing or null one, a string as it is, and of a
      number or a truth value its text. */
  lemma TextOfIs(e: Json, key: string)
    ensures e.Null? ==> TextOf(e, key) == Some("")
    ensures e.Obj? && key !in e.fields ==> TextOf(e, key) == Some("")
    ensures e.Obj? && key in e.fields ==>
              match e.fields[key]
              case Null => TextOf(e, key) == Some("")
              case Str(s) => TextOf(e, key) == Some(s)
              case Num(n) => TextOf(e, key).Some? && Stoi(TextOf(e, key).value) == n
              case Bool(b) => TextOf(e, key) == Some(if b then "true" else "false")
              case Real(t) => TextOf(e, key) == Some(t)
              case _ => TextOf(e, key) == None
    ensures !e.Null? && !e.Obj? ==> TextOf(e, key) == None
  {
    if e.Obj? && key in e.fields && e.fields[key].Num? {
      StoiToString(e.fields[key].n);
    }
  }

  lemma {:induction false} ProjectedIs(es: seq<Json>)
    requires Projected(es).Some?
    ensures var ts := Projected(es).value;
            |ts| == |es| && forall i :: 0 <= i < |es| ==>
              TextOf(es[i], "msgid") == Some(ts[i].msgid) && TextOf(es[i], "content") == Some(ts[i].content)
  {
    if es != [] {
      ProjectedIs(es[1..]);
    }
  }

  lemma {:induction false} RebuiltIs(ts: seq<TextData>)
    ensures forall i :: 0 <= i < |ts| ==>
              Rebuilt(ts)[i].Obj? && Rebuilt(ts)[i].fields == map["msgid" := Str(ts[i].msgid), "content" := Str(ts[i].content)]
  {
    if ts != [] {
      RebuiltIs(ts[1..]);
    }
  }

  /** What the two routes of a text message tell.  Here: the answer's id, and sender and recipient
      exchanged.  From a peer: the notification's id, and both as they are. */
  lemma TextTells(w: World, self: string, online: set<int>, req: TextRequest, getIp: bool, there: set<int>)
    ensures var out := TextChatHandler(w, self, online, req, getIp);
            && Routed(out, w, self, online, req.touid, getIp)
            && (out.Local? ==>
                  && out.notice.uid == req.touid && out.notice.msgId == 2012
                  && out.notice.body == map["error" := Num(0), "fromuid" := Num(req.touid), "touid" := Num(req.fromuid),
                                            "text_array" := req.texts])
            && (out.TextRpc? ==>
                  && out.text.fromuid == req.fromuid && out.text.touid == req.touid
                  && Projected(Elements(req.texts)) == Some(out.text.texts)
                  && (req.touid !in there ==> NotifyTextChat(there, out.text).None?)
                  && (req.touid in there ==>
                        var n := NotifyTextChat(there, out.text);
                        n.Some? && n.value.uid == req.touid && n.value.msgId == 2013
                        && n.value.body == map["error" := Num(0), "fromuid" := Num(req.fromuid), "touid" := Num(req.touid),
                             "text_array" := if out.text.texts == [] then Null else Arr(Rebuilt(out.text.texts))]))
  {
  }

  /** Text messages are not location transparent.  The two routes never use the same message id.  The
      remote one fails exactly when an element of the array cannot be read; otherwise the recipient
      sees the same array exactly when it survives the RPC, and the same fields exactly when,
      besides, the message is one to oneself. */
  lemma TextChatRoutesDiffer(w: World, self: string, peer: string, online: set<int>, peerOnline: set<int>,
                             req: TextRequest)
    requires self != peer && req.touid in online && req.touid in peerOnline
    ensures var here := TextChatHandler(At(w, req.touid, self), self, online, req, true);
            var there := TextChatHandler(At(w, req.touid, peer), self, online, req, true);
            var es := Elements(req.texts);
            && here.Local?
            && (if forall i :: 0 <= i < |es| ==> Legible(es[i]) then there.TextRpc? && there.server == peer else there.Thrown?)
            && (there.TextRpc? ==>
                  var n := NotifyTextChat(peerOnline, there.text);
                  && n.Some? && n.value.uid == here.notice.uid && n.value.msgId != here.notice.msgId
                  && (here.notice.body["text_array"] == n.value.body["text_array"] <==> Survives(req.texts))
                  && (here.notice.body == n.value.body <==> req.fromuid == req.touid && Survives(req.texts)))
  {
    var es := Elements(req.texts);
    ProjectedExactlyWhen(es);
    if Projected(es).Some? {
      var there := NotifyTextChat(peerOnline, TextChatReq(req.fromuid, req.touid, Projected(es).value)).value;
      var here := TextNotice(req);
      assert here.body["fromuid"] == there.body["fromuid"] <==> req.fromuid == req.touid;
      assert here.body.Keys == there.body.Keys;
      assert (forall k :: k in here.body ==> here.body[k] == there.body[k]) <==> here.body == there.body;
      assert here.body["text_array"] == there.body["text_array"] <==> Survives(req.texts);
    }
  }

  /** So an empty array sent to oneself arrives as an empty array here, and as null from a peer. */
  lemma EmptyTextArray(w: World, self: string, peer: string, online: set<int>, peerOnline: set<int>, uid: int)
    requires self != peer && uid in online && uid in peerOnline
    ensures var req := TextRequest(uid, uid, Arr([]));
            var here := TextChatHandler(At(w, uid, self), self, online, req, true);
            var there := TextChatHandler(At(w, uid, peer), self, online, req, true);
            && here.Local? && here.notice.body["text_array"] == Arr([])
            && there.TextRpc? && NotifyTextChat(peerOnline, there.text).Some?
            && NotifyTextChat(peerOnline, there.text).value.body["text_array"] == Null
  {
    TextChatRoutesDiffer(w, self, peer, online, peerOnline, TextRequest(uid, uid, Arr([])));
  }
}
