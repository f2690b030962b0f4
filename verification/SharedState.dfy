/** What the servers share: the user table, Redis, and the two friend tables, with the database
    and cache operations on them.  Each operation is told whether its statements succeed. */
module SharedState {
  import opened Keys

  datatype Option<T> = None | Some(value: T)

  /** A row of the user table; this program never changes the table. */
  datatype Row = Row(uid: int, name: string, pwd: string, email: string, nick: string, desc: string, sex: int, icon: string)

  datatype UserInfo = UserInfo(uid: int, name: string, pwd: string, email: string, nick: string, desc: string,
                               sex: int, icon: string, aliasName: string)

  /** What Redis holds: a profile as JSON, or plain text. */
  datatype Value = Profile(info: UserInfo) | Text(text: string)

  const PENDING := 0
  const APPROVED := 1

  datatype Apply = Apply(aliasName: string, status: int)

  datatype World = World(
    users: seq<Row>,
    redis: map<string, Value>,
    applies: map<(int, int), Apply>,     // (from, to)
    friends: map<(int, int), string>)    // (self, friend) to the alias of the friend

  /** Whether the database query, the Redis read and the two Redis writes succeed. */
  datatype Io = Io(sql: bool, get: bool, setBase: bool, setName: bool)

  const SUCCESS := 0
  const UID_INVALID := 1011

  // ---- the user table ----

  function RowByUid(users: seq<Row>, uid: int): (r: Option<Row>)
    ensures r.Some? ==> r.value in users && r.value.uid == uid
    ensures r.None? ==> forall i :: 0 <= i < |users| ==> users[i].uid != uid
  {
    if users == [] then None
    else if users[0].uid == uid then Some(users[0])
    else RowByUid(users[1..], uid)
  }

  function RowByName(users: seq<Row>, name: string): (r: Option<Row>)
    ensures r.Some? ==> r.value in users && r.value.name == name
    ensures r.None? ==> forall i :: 0 <= i < |users| ==> users[i].name != name
  {
    if users == [] then None
    else if users[0].name == name then Some(users[0])
    else RowByName(users[1..], name)
  }

  /** An empty nick reads as the name. */
  function FromRow(r: Row): (r': UserInfo) {
    UserInfo(r.uid, r.name, r.pwd, r.email, if r.nick == "" then r.name else r.nick, r.desc, r.sex, r.icon, "")
  }

  /** What the profile of a row is, field by field. */
  ghost predicate ProfileOf(u: UserInfo, row: Row) {
    && u.uid == row.uid && u.name == row.name && u.pwd == row.pwd && u.email == row.email
    && u.desc == row.desc && u.sex == row.sex && u.icon == row.icon && u.aliasName == ""
    && (row.nick != "" ==> u.nick == row.nick) && (row.nick == "" ==> u.nick == row.name)
  }

  function QueryUid(w: World, uid: int, sql: bool): (r: Option<UserInfo>) {
    if !sql then None
    else match RowByUid(w.users, uid)
         case None => None
         case Some(row) => Some(FromRow(row))
  }

  function QueryName(w: World, name: string, sql: bool): (r: Option<UserInfo>) {
    if !sql then None
    else match RowByName(w.users, name)
         case None => None
         case Some(row) => Some(FromRow(row))
  }

  /** A query that succeeds answers with the profile of a row that has what was asked for, and with
      nothing exactly when it fails or there is no such row. */
  lemma QueryUidIs(w: World, uid: int, sql: bool)
    ensures var r := QueryUid(w, uid, sql);
            && (r.Some? ==> exists row :: row in w.users && row.uid == uid && ProfileOf(r.value, row))
            && (r.None? <==> !sql || forall row :: row in w.users ==> row.uid != uid)
  {
    var row := RowByUid(w.users, uid);
    assert row.Some? ==> ProfileOf(FromRow(row.value), row.value);
  }

  lemma QueryNameIs(w: World, name: string, sql: bool)
    ensures var r := QueryName(w, name, sql);
            && (r.Some? ==> exists row :: row in w.users && row.name == name && ProfileOf(r.value, row))
            && (r.None? <==> !sql || forall row :: row in w.users ==> row.name != name)
  {
    var row := RowByName(w.users, name);
    assert row.Some? ==> ProfileOf(FromRow(row.value), row.value);
  }

  // ---- Redis ----

  predicate SameTables(w: World, w': World) {
    w'.users == w.users && w'.applies == w.applies && w'.friends == w.friends
  }

  function RedisGet(w: World, key: string, ok: bool): (r: Option<Value>) {
    if ok && key in w.redis then Some(w.redis[key]) else None
  }

  function RedisSet(w: World, key: string, v: Value, ok: bool): (r: World)
    ensures SameTables(w, r)
  {
    if ok then w.(redis := w.redis[key := v]) else w
  }

  /** The JSON fields; the alias is not among them. */
  function Stored(u: UserInfo): (r: Value) {
    Profile(u.(aliasName := ""))
  }

  /** A text that is no JSON object reads as zeros and empty strings. */
  function Loaded(v: Value): (r: UserInfo) {
    match v
    case Profile(u) => u.(aliasName := "")
    case Text(_) => UserInfo(0, "", "", "", "", "", 0, "", "")
  }

  function CacheBoth(w: World, baseKey: string, u: UserInfo, io: Io): (r: World)
    ensures SameTables(w, r)
  {
    var w1 := RedisSet(w, baseKey, Stored(u), io.setBase);
    if u.name != "" then RedisSet(w1, NameKey(u.name), Stored(u), io.setName) else w1
  }

  /** LogicSystem::getBaseInfo: always from the table, and written to the cache. */
  function FreshBaseInfo(w: World, uid: int, io: Io): (r: (World, Option<UserInfo>))
    ensures SameTables(w, r.0)
  {
    match QueryUid(w, uid, io.sql)
    case None => (w, None)
    case Some(u) =>
      var u' := if u.nick == "" then u.(nick := u.name) else u;
      (CacheBoth(w, BaseKey(uid), u', io), Some(u'))
  }

  /** ChatServiceImpl::getBaseInfo: from the cache if it is there, else from the table, and then
      written under the uid only. */
  function CachedBaseInfo(w: World, uid: int, io: Io): (r: (World, Option<UserInfo>))
    ensures SameTables(w, r.0)
  {
    match RedisGet(w, BaseKey(uid), io.get)
    case Some(v) => (w, Some(Loaded(v)))
    case None =>
      match QueryUid(w, uid, io.sql)
      case None => (w, None)
      case Some(u) => (RedisSet(w, BaseKey(uid), Stored(u), io.setBase), Some(u))
  }

  datatype SearchReply = Found(info: UserInfo) | Only(error: int)

  /** LogicSystem::getUserByUid: a miss fills the cache but answers with the error code alone. */
  function UserByUid(w: World, uidText: string, io: Io): (r: (World, SearchReply)) {
    match RedisGet(w, BaseKeyOf(uidText), io.get)
    case Some(v) => (w, Found(Loaded(v)))
    case None =>
      match QueryUid(w, Stoi(uidText), io.sql)
      case None => (w, Only(UID_INVALID))
      case Some(u) => (CacheBoth(w, BaseKeyOf(uidText), u, io), Only(SUCCESS))
  }

  function UserByName(w: World, name: string, io: Io): (r: (World, SearchReply)) {
    match RedisGet(w, NameKey(name), io.get)
    case Some(v) => (w, Found(Loaded(v)))
    case None =>
      match QueryName(w, name, io.sql)
      case None => (w, Only(UID_INVALID))
      case Some(u) => (CacheBoth(w, BaseKey(u.uid), u, io), Only(SUCCESS))
  }

  /** What a search answers, hit or miss.  With the key in the cache, and Redis answering, it is what
      is stored there, and nothing is queried or written.  Otherwise it is a code alone: success if
      the query succeeds and the table has the user, and 1011 if not. */
  lemma SearchReplies(w: World, uidText: string, name: string, io: Io)
    ensures var (w', r) := UserByUid(w, uidText, io);
            if io.get && BaseKeyOf(uidText) in w.redis then
              w' == w && r == Found(Loaded(w.redis[BaseKeyOf(uidText)]))
            else if io.sql && exists row :: row in w.users && row.uid == Stoi(uidText) then r == Only(0)
            else w' == w && r == Only(1011)
    ensures var (w', r) := UserByName(w, name, io);
            if io.get && NameKey(name) in w.redis then
              w' == w && r == Found(Loaded(w.redis[NameKey(name)]))
            else if io.sql && exists row :: row in w.users && row.name == name then r == Only(0)
            else w' == w && r == Only(1011)
  {
    QueryUidIs(w, Stoi(uidText), io.sql);
    QueryNameIs(w, name, io.sql);
  }

  // ---- the friend tables ----

  /** INSERT ... ON DUPLICATE KEY UPDATE: a repeated request changes the alias, not the status. */
  function AddFriendApply(w: World, from: int, to: int, aliasName: string, ok: bool): (r: World)
    ensures r.users == w.users && r.redis == w.redis && r.friends == w.friends
  {
    if !ok then w
    else
      var status := if (from, to) in w.applies then w.applies[(from, to)].status else PENDING;
      w.(applies := w.applies[(from, to) := Apply(aliasName, status)])
  }

  /** From w to w' a request was filed: on file under its alias, with the status it had, or pending
      (0) if it is new; and no other request changed. */
  ghost predicate RequestFiled(w: World, w': World, from: int, to: int, aliasName: string) {
    && w'.applies.Keys == w.applies.Keys + {(from, to)}
    && w'.applies[(from, to)].aliasName == aliasName
    && w'.applies[(from, to)].status == (if (from, to) in w.applies then w.applies[(from, to)].status else 0)
    && forall k :: k in w.applies && k != (from, to) ==> w'.applies[k] == w.applies[k]
  }

  /** From w to w' a request was approved (1), if it was on file, and nothing else changed. */
  ghost predicate RequestApproved(w: World, w': World, from: int, to: int) {
    && w'.applies.Keys == w.applies.Keys
    && (forall k :: k in w.applies ==> w'.applies[k].aliasName == w.applies[k].aliasName)
    && ((from, to) in w.applies ==> w'.applies[(from, to)].status == 1)
    && forall k :: k in w.applies && k != (from, to) ==> w'.applies[k].status == w.applies[k].status
  }

  lemma ApplyTable(w: World, from: int, to: int, aliasName: string, ok: bool)
    ensures var w' := AddFriendApply(w, from, to, aliasName, ok);
            if ok then RequestFiled(w, w', from, to, aliasName) else w' == w
    ensures var w' := AuthFriendApply(w, from, to, ok);
            if ok then RequestApproved(w, w', from, to) else w' == w
  {
  }

  /** From w to w' friend rows were added: of the applicant under one alias unless no insert was
      reached, of the accepter under the other if both were, neither over a row that was there; and
      no other row changed. */
  ghost predicate FriendRowsAdded(w: World, w': World, applicant: int, accepter: int, aliasOfAccepter: string,
                                  aliasOfApplicant: string, got: Inserts)
  {
    var first, second := (applicant, accepter), (accepter, applicant);
    && w'.friends.Keys == w.friends.Keys + (if got.Neither? then {} else {first}) + (if got.Both? then {second} else {})
    && (forall k :: k in w.friends ==> w'.friends[k] == w.friends[k])
    && (!got.Neither? && first !in w.friends ==> w'.friends[first] == aliasOfAccepter)
    && (got.Both? && second !in w.friends && second != first ==> w'.friends[second] == aliasOfApplicant)
  }

  lemma FriendTable(w: World, a: int, b: int, aliasOfB: string, aliasOfA: string, got: Inserts)
    ensures FriendRowsAdded(w, AddFriend(w, a, b, aliasOfB, aliasOfA, got), a, b, aliasOfB, aliasOfA, got)
  {
  }

  function ApplyAlias(w: World, from: int, to: int, ok: bool): (r: string) {
    if ok && (from, to) in w.applies then w.applies[(from, to)].aliasName else ""
  }

  function AuthFriendApply(w: World, from: int, to: int, ok: bool): (r: World)
    ensures r.users == w.users && r.redis == w.redis && r.friends == w.friends
  {
    if ok && (from, to) in w.applies then
      w.(applies := w.applies[(from, to) := w.applies[(from, to)].(status := APPROVED)])
    else w
  }

  /** INSERT IGNORE of one row. */
  function InsertFriend(w: World, self: int, friend: int, aliasName: string): (r: World) {
    if (self, friend) in w.friends then w else w.(friends := w.friends[(self, friend) := aliasName])
  }

  /** How far addFriend gets: no insert, the first only, or both. */
  datatype Inserts = Neither | First | Both

  function AddFriend(w: World, applicant: int, accepter: int, aliasOfAccepter: string, aliasOfApplicant: string,
                     got: Inserts): (r: World)
    ensures r.users == w.users && r.redis == w.redis && r.applies == w.applies
    ensures !got.Neither? ==> (applicant, accepter) in r.friends
  {
    if got.Neither? then w
    else
      var w1 := InsertFriend(w, applicant, accepter, aliasOfAccepter);
      if got.First? then w1 else InsertFriend(w1, accepter, applicant, aliasOfApplicant)
  }

  function FriendAlias(w: World, self: int, friend: int, ok: bool): (r: string) {
    if ok && (self, friend) in w.friends then w.friends[(self, friend)] else ""
  }

  // ---- runs of any servers ----

  datatype Op =
    | GetBaseInfo(uid: int, io: Io)
    | ServiceBaseInfo(uid: int, io: Io)
    | SearchUid(uid: int, io: Io)
    | SearchName(name: string, io: Io)
    | SetIp(uid: int, server: string, ok: bool)
    | Request(from: int, to: int, aliasName: string, ok: bool)
    | Approve(from: int, to: int, ok: bool)
    | FirstInsert(applicant: int, accepter: int, aliasOfAccepter: string)    // the two statements
    | SecondInsert(applicant: int, accepter: int, aliasOfApplicant: string)  // of addFriend

  function Do(w: World, op: Op): (r: World) {
    match op
    case GetBaseInfo(uid, io) => FreshBaseInfo(w, uid, io).0
    case ServiceBaseInfo(uid, io) => CachedBaseInfo(w, uid, io).0
    case SearchUid(uid, io) => UserByUid(w, ToString(uid), io).0
    case SearchName(name, io) => UserByName(w, name, io).0
    case SetIp(uid, server, ok) => RedisSet(w, IpKey(uid), Text(server), ok)
    case Request(from, to, aliasName, ok) => AddFriendApply(w, from, to, aliasName, ok)
    case Approve(from, to, ok) => AuthFriendApply(w, from, to, ok)
    case FirstInsert(a, b, aliasOfB) => InsertFriend(w, a, b, aliasOfB)
    case SecondInsert(a, b, aliasOfA) => InsertFriend(w, b, a, aliasOfA)
  }

  function After(w: World, ops: seq<Op>): (r: World)
    decreases |ops|
  {
    if ops == [] then w else After(Do(w, ops[0]), ops[1..])
  }

  /** addFriend with nothing in between is its statements, as far as it gets. */
  lemma AddFriendIsItsInserts(w: World, a: int, b: int, aliasOfB: string, aliasOfA: string)
    ensures After(w, [FirstInsert(a, b, aliasOfB)]) == AddFriend(w, a, b, aliasOfB, aliasOfA, First)
    ensures After(w, [FirstInsert(a, b, aliasOfB), SecondInsert(a, b, aliasOfA)])
         == AddFriend(w, a, b, aliasOfB, aliasOfA, Both)
  {
    var first, second := FirstInsert(a, b, aliasOfB), SecondInsert(a, b, aliasOfA);
    assert [first][1..] == [] && [second][1..] == [] && [first, second][1..] == [second];
    assert After(Do(w, first), []) == Do(w, first);
    assert After(Do(w, first), [second]) == After(Do(Do(w, first), second), []) == Do(Do(w, first), second);
  }
}
