/** The two-key user cache: what every sequence of lookups and failures keeps. */
module Cache {
  import opened Keys
  import opened SharedState

  /** uid is the primary key of the user table. */
  ghost predicate UniqueUids(users: seq<Row>) {
    forall i, j :: 0 <= i < j < |users| ==> users[i].uid != users[j].uid
  }

  lemma {:induction false} RowIsFound(users: seq<Row>, row: Row)
    requires UniqueUids(users) && row in users
    ensures RowByUid(users, row.uid) == Some(row)
  {
    if users[0] != row {
      assert row in users[1..];
      var i :| 0 <= i < |users[1..]| && users[1..][i] == row;
      assert users[i + 1] == row;
      RowIsFound(users[1..], row);
    }
  }

  /** The entry of a uid is its row in the table. */
  ghost predicate BaseEntryOk(w: World, uid: int) {
    BaseKey(uid) in w.redis ==>
      RowByUid(w.users, uid).Some?
      && w.redis[BaseKey(uid)] == Profile(FromRow(RowByUid(w.users, uid).value))
  }

  /** The entry of a name is a row with that name. */
  ghost predicate NameEntryOk(w: World, name: string) {
    NameKey(name) in w.redis ==>
      exists row :: row in w.users && row.name == name && w.redis[NameKey(name)] == Profile(FromRow(row))
  }

  ghost predicate Coherent(w: World) {
    && UniqueUids(w.users)
    && (forall uid :: BaseEntryOk(w, uid))
    && (forall name :: NameEntryOk(w, name))
  }

  lemma SetBaseCoherent(w: World, row: Row, ok: bool)
    requires Coherent(w) && RowByUid(w.users, row.uid) == Some(row)
    ensures Coherent(RedisSet(w, BaseKey(row.uid), Profile(FromRow(row)), ok))
  {
    KeysApart();
    var w' := RedisSet(w, BaseKey(row.uid), Profile(FromRow(row)), ok);
    forall uid ensures BaseEntryOk(w', uid) {
      assert BaseEntryOk(w, uid);
    }
    forall name ensures NameEntryOk(w', name) {
      assert NameEntryOk(w, name);
    }
  }

  lemma SetNameCoherent(w: World, row: Row, ok: bool)
    requires Coherent(w) && row in w.users
    ensures Coherent(RedisSet(w, NameKey(row.name), Profile(FromRow(row)), ok))
  {
    KeysApart();
    var w' := RedisSet(w, NameKey(row.name), Profile(FromRow(row)), ok);
    forall uid ensures BaseEntryOk(w', uid) {
      assert BaseEntryOk(w, uid);
    }
    forall name ensures NameEntryOk(w', name) {
      assert NameEntryOk(w, name);
    }
  }

  lemma SetIpCoherent(w: World, uid: int, server: string, ok: bool)
    requires Coherent(w)
    ensures Coherent(RedisSet(w, IpKey(uid), Text(server), ok))
  {
    KeysApart();
    var w' := RedisSet(w, IpKey(uid), Text(server), ok);
    forall u ensures BaseEntryOk(w', u) {
      assert BaseEntryOk(w, u);
    }
    forall name ensures NameEntryOk(w', name) {
      assert NameEntryOk(w, name);
    }
  }

  lemma CacheBothCoherent(w: World, row: Row, io: Io)
    requires Coherent(w) && RowByUid(w.users, row.uid) == Some(row)
    ensures Coherent(CacheBoth(w, BaseKey(row.uid), FromRow(row), io))
  {
    SetBaseCoherent(w, row, io.setBase);
    SetNameCoherent(RedisSet(w, BaseKey(row.uid), Profile(FromRow(row)), io.setBase), row, io.setName);
  }

  lemma SameRedisCoherent(w: World, w': World)
    requires Coherent(w) && w'.users == w.users && w'.redis == w.redis
    ensures Coherent(w')
  {
    forall u ensures BaseEntryOk(w', u) {
      assert BaseEntryOk(w, u);
    }
    forall name ensures NameEntryOk(w', name) {
      assert NameEntryOk(w, name);
    }
  }

  lemma FreshCoherent(w: World, uid: int, io: Io)
    requires Coherent(w)
    ensures Coherent(FreshBaseInfo(w, uid, io).0)
    ensures Coherent(CachedBaseInfo(w, uid, io).0)
  {
    if RowByUid(w.users, uid).Some? {
      CacheBothCoherent(w, RowByUid(w.users, uid).value, io);
      SetBaseCoherent(w, RowByUid(w.users, uid).value, io.setBase);
    }
  }

  /** Even under a text that is no printed uid: such a key is the entry of nobody. */
  lemma SetTextCoherent(w: World, uidText: string, row: Row, ok: bool)
    requires Coherent(w) && RowByUid(w.users, Stoi(uidText)) == Some(row)
    ensures Coherent(RedisSet(w, BaseKeyOf(uidText), Profile(FromRow(row)), ok))
  {
    KeysApart();
    var w' := RedisSet(w, BaseKeyOf(uidText), Profile(FromRow(row)), ok);
    forall uid ensures BaseEntryOk(w', uid) {
      assert BaseEntryOk(w, uid);
      if BaseKey(uid) == BaseKeyOf(uidText) {
        FamiliesApart(UserBaseInfo, UserBaseInfo, ToString(uid), uidText);
        StoiToString(uid);
      }
    }
    forall name ensures NameEntryOk(w', name) {
      assert NameEntryOk(w, name);
      assert BaseKeyOf(uidText)[1] == 'b' && NameKey(name)[1] == 'n';
    }
  }

  lemma SearchTextCoherent(w: World, uidText: string, io: Io)
    requires Coherent(w)
    ensures Coherent(UserByUid(w, uidText, io).0)
  {
    if RowByUid(w.users, Stoi(uidText)).Some? {
      var row := RowByUid(w.users, Stoi(uidText)).value;
      SetTextCoherent(w, uidText, row, io.setBase);
      SetNameCoherent(RedisSet(w, BaseKeyOf(uidText), Profile(FromRow(row)), io.setBase), row, io.setName);
    }
  }

  lemma SearchNameCoherent(w: World, name: string, io: Io)
    requires Coherent(w)
    ensures Coherent(UserByName(w, name, io).0)
  {
    if RowByName(w.users, name).Some? {
      var row := RowByName(w.users, name).value;
      RowIsFound(w.users, row);
      CacheBothCoherent(w, row, io);
    }
  }

  /** Every operation keeps the cache coherent, whichever of its statements fail. */
  lemma StepCoherent(w: World, op: Op)
    requires Coherent(w)
    ensures Coherent(Do(w, op)) && Do(w, op).users == w.users
  {
    match op
    case GetBaseInfo(uid, io) => FreshCoherent(w, uid, io);
    case ServiceBaseInfo(uid, io) => FreshCoherent(w, uid, io);
    case SearchUid(uid, io) => SearchTextCoherent(w, ToString(uid), io);
    case SearchName(name, io) => SearchNameCoherent(w, name, io);
    case SetIp(uid, server, ok) => SetIpCoherent(w, uid, server, ok);
    case _ => SameRedisCoherent(w, Do(w, op));
  }

  lemma {:induction false} RunCoherent(w: World, ops: seq<Op>)
    requires Coherent(w)
    ensures Coherent(After(w, ops)) && After(w, ops).users == w.users
    decreases |ops|
  {
    if ops != [] {
      StepCoherent(w, ops[0]);
      RunCoherent(Do(w, ops[0]), ops[1..]);
    }
  }

  lemma EmptyCoherent(w: World)
    requires UniqueUids(w.users) && w.redis == map[]
    ensures Coherent(w)
  {
  }

  /** After any run from an empty cache, what is read through the cache is what a direct read of
      the table gives, for every uid. */
  lemma CachedReadIsDirectRead(w: World, ops: seq<Op>, uid: int, io: Io, io': Io)
    requires UniqueUids(w.users) && w.redis == map[] && io.sql && io'.sql
    ensures var v := After(w, ops);
            && CachedBaseInfo(v, uid, io).1 == FreshBaseInfo(v, uid, io').1
            && FreshBaseInfo(v, uid, io').1 == QueryUid(w, uid, true)
  {
    EmptyCoherent(w);
    RunCoherent(w, ops);
    assert BaseEntryOk(After(w, ops), uid);
  }

  /** A search that is answered from the cache finds the row of that uid, or a row of that name. */
  lemma SearchFindsTheUser(w: World, uid: int, name: string, io: Io)
    requires Coherent(w)
    ensures var r := UserByUid(w, ToString(uid), io).1;
            r.Found? ==> RowByUid(w.users, uid).Some? && r.info == FromRow(RowByUid(w.users, uid).value)
    ensures var r := UserByName(w, name, io).1;
            r.Found? ==> exists row :: row in w.users && row.name == name && r.info == FromRow(row)
  {
    assert BaseEntryOk(w, uid) && NameEntryOk(w, name);
  }

  const ALL_OK := Io(true, true, true, true)

  /** A search that misses answers without the user, and the same search asked again answers with
      it: the replies to a cold and a warm search always differ. */
  lemma SearchWarms(w: World, uid: int, name: string)
    requires Coherent(w) && name != ""
    ensures var (w', r) := UserByUid(w, ToString(uid), ALL_OK);
            r == Only(SUCCESS) ==>
              RowByUid(w.users, uid).Some?
              && UserByUid(w', ToString(uid), ALL_OK) == (w', Found(FromRow(RowByUid(w.users, uid).value)))
    ensures var (w', r) := UserByName(w, name, ALL_OK);
            r == Only(SUCCESS) ==>
              RowByName(w.users, name).Some?
              && UserByName(w', name, ALL_OK) == (w', Found(FromRow(RowByName(w.users, name).value)))
  {
    KeysApart();
    StoiToString(uid);
  }

  // ---- what is in the cache ----

  function KeysOf(row: Row, io: Io): (r: set<string>) {
    (if io.setBase then {BaseKey(row.uid)} else {}) + (if io.setName && row.name != "" then {NameKey(row.name)} else {})
  }

  /** The keys an operation writes: a direct read always, any other lookup when it misses. */
  function Written(w: World, op: Op): (r: set<string>) {
    match op
    case GetBaseInfo(uid, io) =>
      var row := RowByUid(w.users, uid);
      if io.sql && row.Some? then KeysOf(row.value, io) else {}
    case ServiceBaseInfo(uid, io) =>
      if RedisGet(w, BaseKey(uid), io.get).None? && io.sql && RowByUid(w.users, uid).Some? && io.setBase
      then {BaseKey(uid)} else {}
    case SearchUid(uid, io) =>
      var row := RowByUid(w.users, uid);
      if RedisGet(w, BaseKey(uid), io.get).None? && io.sql && row.Some? then KeysOf(row.value, io) else {}
    case SearchName(name, io) =>
      var row := RowByName(w.users, name);
      if RedisGet(w, NameKey(name), io.get).None? && io.sql && row.Some? then KeysOf(row.value, io) else {}
    case SetIp(uid, _, ok) => if ok then {IpKey(uid)} else {}
    case _ => {}
  }

  /** The keys written in the course of a run. */
  function WrittenIn(w: World, ops: seq<Op>): (r: set<string>)
    decreases |ops|
  {
    if ops == [] then {} else Written(w, ops[0]) + WrittenIn(Do(w, ops[0]), ops[1..])
  }

  /** A search that misses and finds the user caches them under the key it asked for and under the
      other one, and under nothing else. */
  lemma SearchesCache(w: World, uidText: string, name: string, io: Io)
    ensures var u := QueryUid(w, Stoi(uidText), io.sql);
            RedisGet(w, BaseKeyOf(uidText), io.get).None? && u.Some? ==>
              CachedUnder(w, UserByUid(w, uidText, io).0, BaseKeyOf(uidText), u.value, io)
    ensures var u := QueryName(w, name, io.sql);
            RedisGet(w, NameKey(name), io.get).None? && u.Some? ==>
              CachedUnder(w, UserByName(w, name, io).0, BaseKey(u.value.uid), u.value, io)
  {
    QueryUidIs(w, Stoi(uidText), io.sql);
    QueryNameIs(w, name, io.sql);
    assert forall n :: NameKey(n)[1] == 'n';
    assert forall t :: BaseKeyOf(t)[1] == 'b';
  }

  /** From w to w' a user was cached under a base key and under their name, as far as the two writes
      succeed, and no other key changed. */
  ghost predicate CachedUnder(w: World, w': World, base: string, u: UserInfo, io: Io) {
    var name := NameKey(u.name);
    && w.redis.Keys <= w'.redis.Keys
    && (forall k :: k in w'.redis && k != base && k != name ==> k in w.redis && w'.redis[k] == w.redis[k])
    && (io.setBase ==> base in w'.redis && w'.redis[base] == Profile(u))
    && (io.setName && u.name != "" ==> name in w'.redis && w'.redis[name] == Profile(u))
  }

  lemma CacheBothKeys(w: World, row: Row, io: Io)
    ensures CacheBoth(w, BaseKey(row.uid), FromRow(row), io).redis.Keys == w.redis.Keys + KeysOf(row, io)
  {
  }

  /** An empty name is never a key: no run writes the entry of nobody. */
  lemma {:induction false} EmptyNameNeverCached(w: World, ops: seq<Op>)
    requires UniqueUids(w.users) && NameKey("") !in w.redis
    ensures NameKey("") !in After(w, ops).redis
    decreases |ops|
  {
    if ops != [] {
      StepKeys(w, ops[0]);
      EmptyNameNotWritten(w, ops[0]);
      StepKeepsUsers(w, ops[0]);
      EmptyNameNeverCached(Do(w, ops[0]), ops[1..]);
    }
  }

  lemma EmptyNameNotWritten(w: World, op: Op)
    ensures NameKey("") !in Written(w, op)
  {
    KeysApart();
  }

  lemma StepKeepsUsers(w: World, op: Op)
    ensures Do(w, op).users == w.users
  {
  }

  /** The other server's read: what is cached it answers without a query, and otherwise it reads the
      table and caches under the uid, and under nothing else. */
  lemma ServiceReads(w: World, uid: int, io: Io)
    ensures var (w', r) := CachedBaseInfo(w, uid, io);
            var key := BaseKey(uid);
            && (forall k :: k in w'.redis && k != key ==> k in w.redis && w'.redis[k] == w.redis[k])
            && w.redis.Keys <= w'.redis.Keys
            && if io.get && key in w.redis then w' == w && r == Some(Loaded(w.redis[key]))
               else if io.sql && exists row :: row in w.users && row.uid == uid then
                 && r.Some? && (exists row :: row in w.users && row.uid == uid && ProfileOf(r.value, row))
                 && (io.setBase ==> key in w'.redis && w'.redis[key] == Profile(r.value))
                 && (!io.setBase ==> w' == w)
               else w' == w && r == None
  {
    QueryUidIs(w, uid, io.sql);
  }

  /** The direct read: it never looks in the cache, and caches under both keys. */
  lemma DirectReads(w: World, uid: int, io: Io)
    ensures var (w', r) := FreshBaseInfo(w, uid, io);
            if io.sql && exists row :: row in w.users && row.uid == uid then
              && r.Some? && (exists row :: row in w.users && row.uid == uid && ProfileOf(r.value, row))
              && CachedUnder(w, w', BaseKey(uid), r.value, io)
            else w' == w && r == None
  {
    QueryUidIs(w, uid, io.sql);
    KeysApart();
  }

  lemma StepKeys(w: World, op: Op)
    ensures Do(w, op).redis.Keys == w.redis.Keys + Written(w, op)
  {
    match op
    case GetBaseInfo(uid, io) => UidKeys(w, uid, io);
    case SearchUid(uid, io) =>
      StoiToString(uid);
      UidKeys(w, uid, io);
    case SearchName(name, io) =>
      if RowByName(w.users, name).Some? {
        CacheBothKeys(w, RowByName(w.users, name).value, io);
      }
    case _ =>
  }

  lemma UidKeys(w: World, uid: int, io: Io)
    ensures RowByUid(w.users, uid).Some? ==>
              var row := RowByUid(w.users, uid).value;
              CacheBoth(w, BaseKey(uid), FromRow(row), io).redis.Keys == w.redis.Keys + KeysOf(row, io)
  {
    if RowByUid(w.users, uid).Some? {
      CacheBothKeys(w, RowByUid(w.users, uid).value, io);
    }
  }

  lemma {:induction false} RunKeys(w: World, ops: seq<Op>)
    ensures After(w, ops).redis.Keys == w.redis.Keys + WrittenIn(w, ops)
    decreases |ops|
  {
    if ops != [] {
      StepKeys(w, ops[0]);
      RunKeys(Do(w, ops[0]), ops[1..]);
    }
  }

  /** Exactly when a search answers with a user: after any run from an empty cache, it does so if and
      only if Redis answers and an earlier operation of the run wrote the key; and then the user is
      the row of that uid, or a row of that name.  So the first search of all never does. */
  lemma SearchAnswersExactlyWhen(w: World, ops: seq<Op>, uid: int, name: string, io: Io)
    requires UniqueUids(w.users) && w.redis == map[]
    ensures var r := UserByUid(After(w, ops), ToString(uid), io).1;
            && (r.Found? <==> io.get && BaseKey(uid) in WrittenIn(w, ops))
            && (r.Found? ==> RowByUid(w.users, uid).Some? && r.info == FromRow(RowByUid(w.users, uid).value))
    ensures var r := UserByName(After(w, ops), name, io).1;
            && (r.Found? <==> io.get && NameKey(name) in WrittenIn(w, ops))
            && (r.Found? ==> exists row :: row in w.users && row.name == name && r.info == FromRow(row))
  {
    EmptyCoherent(w);
    RunCoherent(w, ops);
    RunKeys(w, ops);
    SearchFindsTheUser(After(w, ops), uid, name, io);
  }

  /** A direct read makes the user found for good: whatever any server does afterwards, a search by
      the uid finds that user, and a search by the name finds a user of that name, with no query. */
  lemma ReadMakesSearchesHit(w: World, uid: int, io: Io, ops: seq<Op>, io': Io)
    requires Coherent(w) && RowByUid(w.users, uid).Some? && RowByUid(w.users, uid).value.name != ""
    requires io.sql && io.setBase && io.setName && io'.get
    ensures var row := RowByUid(w.users, uid).value;
            var v := After(FreshBaseInfo(w, uid, io).0, ops);
            && UserByUid(v, ToString(uid), io') == (v, Found(FromRow(row)))
            && UserByName(v, row.name, io').0 == v
            && exists other :: other in w.users && other.name == row.name
                               && UserByName(v, row.name, io').1 == Found(FromRow(other))
  {
    var row := RowByUid(w.users, uid).value;
    var w' := FreshBaseInfo(w, uid, io).0;
    FreshCoherent(w, uid, io);
    RunCoherent(w', ops);
    RunKeys(w', ops);
    var v := After(w', ops);
    assert BaseKey(uid) in w'.redis.Keys && NameKey(row.name) in w'.redis.Keys;
    assert BaseEntryOk(v, uid) && NameEntryOk(v, row.name);
  }
}
