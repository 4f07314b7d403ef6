/** rdb.c, whole files: one record for each db and key, an end mark and a checksum; the save and the load
    loop. */
module Rdb {
  import opened Bytes
  import opened Decimal
  import opened LittleEndian
  import opened RdbStrings
  import opened RdbObjects

  const OPCODE_EXPIRETIME_MS: byte := 252
  const OPCODE_EXPIRETIME: byte := 253
  const OPCODE_SELECTDB: byte := 254
  const OPCODE_EOF: byte := 255
  const RDB_VERSION := 6
  const SIGNATURE: bytes := [82, 69, 68, 73, 83]               // "REDIS"
  const MAGIC: bytes := [82, 69, 68, 73, 83, 48, 48, 48, 54]   // "REDIS0006"
  const NO_EXPIRE := -1

  /** A key as the save loop meets it. */
  datatype Entry = Entry(key: bytes, o: Object, expire: int)

  /** A key as clients see it. */
  datatype Stored = Stored(value: Value, expire: int)

  type Db = map<bytes, Stored>

  datatype Record = Eof | SelectDb(id: nat) | Pair(key: bytes, value: Value, expire: int)

  /** The clock of the loading server, and whether it is a slave. */
  datatype Env = Env(now: int, slave: bool)

  // ---- the loader, on values

  /** `rdbLoadTime` (in milliseconds), `rdbLoadMillisecondTime`; -1 is taken for an error. */
  function LoadTime(opcode: byte, b: bytes): (r: Option<(int, bytes)>)
    ensures r.Some? ==> |r.value.1| < |b|
  {
    var n := if opcode == OPCODE_EXPIRETIME then 4 else 8;
    if |b| < n || Signed(b[..n]) == -1 then None
    else Some((if opcode == OPCODE_EXPIRETIME then Signed(b[..n]) * 1000 else Signed(b[..n]), b[n..]))
  }

  /** One turn of the loop of `rdbLoad`, up to the use of what was read. */
  function LoadRecord(b: bytes): (r: Option<(Record, bytes)>)
    ensures r.Some? ==> |r.value.1| < |b|
  {
    if b == [] then None
    else if b[0] == OPCODE_EXPIRETIME || b[0] == OPCODE_EXPIRETIME_MS then
      match LoadTime(b[0], b[1..])
      case None => None
      case Some(t) => if t.1 == [] then None else LoadTyped(t.1[0], t.1[1..], t.0)
    else LoadTyped(b[0], b[1..], NO_EXPIRE)
  }

  function LoadTyped(rdbtype: byte, b: bytes, expire: int): (r: Option<(Record, bytes)>)
    ensures r.Some? ==> |r.value.1| <= |b|
  {
    if rdbtype == OPCODE_EOF then Some((Eof, b))
    else if rdbtype == OPCODE_SELECTDB then
      var (id, _, rest) := LoadLen(b);
      if id == LENERR then None else Some((SelectDb(id), rest))
    else match LoadString(b)
      case None => None
      case Some(k) => match LoadObject(rdbtype, k.1)
        case None => None
        case Some(v) => Some((Pair(k.0, v.0, expire), v.1))
  }

  predicate Expired(expire: int, now: int) {
    expire != NO_EXPIRE && expire < now
  }

  /** The use of a record: a db that is not there, or a key that comes twice, stops the server. */
  function ApplyRecord(dbs: seq<Db>, cur: nat, r: Record, env: Env): Option<(seq<Db>, nat)>
    requires cur < |dbs|
  {
    match r
    case Eof => None
    case SelectDb(id) => if id < |dbs| then Some((dbs, id)) else None
    case Pair(k, v, expire) =>
      if !env.slave && Expired(expire, env.now) then Some((dbs, cur))
      else if k in dbs[cur] then None
      else Some((dbs[cur := dbs[cur][k := Stored(v, expire)]], cur))
  }

  /** The loop of `rdbLoad`. */
  function LoadRecords(b: bytes, dbs: seq<Db>, cur: nat, env: Env): (r: Option<(seq<Db>, bytes)>)
    requires cur < |dbs|
    ensures r.Some? ==> |r.value.1| <= |b|
    decreases |b|
  {
    match LoadRecord(b)
    case None => None
    case Some(rec) =>
      if rec.0.Eof? then Some((dbs, rec.1))
      else match ApplyRecord(dbs, cur, rec.0, env)
        case None => None
        case Some(s) => if s.1 < |s.0| then LoadRecords(rec.1, s.0, s.1, env) else None
  }

  function Empty(n: nat): (dbs: seq<Db>)
    ensures |dbs| == n
  {
    seq(n, _ => map[])
  }

  /** The checksum of a file so far; crc64 over it. */
  function SumOf(sum: bytes -> bytes, b: bytes): bytes {
    sum(b)
  }

  ghost predicate IsSum(sum: bytes -> bytes) {
    forall b: bytes :: |SumOf(sum, b)| == 8
  }

  /** `rdbLoad`; `checks` is the option `rdb_checksum`. */
  function Load(b: bytes, dbnum: nat, env: Env, sum: bytes -> bytes, checks: bool): Option<seq<Db>>
    requires dbnum > 0
  {
    if |b| < 9 || b[..5] != SIGNATURE then None
    else
      var rdbver := Strtol(b[5..9] + [0]);
      if rdbver < 1 || rdbver > RDB_VERSION then None
      else match LoadRecords(b[9..], Empty(dbnum), 0, env)
        case None => None
        case Some(r) =>
          if rdbver < 5 || !checks then Some(r.0)
          else if |r.1| < 8 then None
          else
            var cksum := r.1[..8];
            if cksum != Zeros(8) && cksum != SumOf(sum, b[..|b| - |r.1|]) then None else Some(r.0)
  }

  // ---- what is saved

  ghost predicate SaveableEntry(e: Entry) {
    && |e.key| < LENERR && Saveable(e.o) && LLONG_MIN <= e.expire <= LLONG_MAX
  }

  ghost predicate SaveableDb(db: seq<Entry>) {
    && (forall i :: 0 <= i < |db| ==> SaveableEntry(db[i]))
    && forall i, j :: 0 <= i < j < |db| ==> db[i].key != db[j].key
  }

  ghost predicate SaveableDataset(dbs: seq<seq<Entry>>) {
    |dbs| < LENERR && forall j :: 0 <= j < |dbs| ==> SaveableDb(dbs[j])
  }

  function EntryRecords(e: Entry, now: int): seq<Record> {
    if Expired(e.expire, now) then [] else [Pair(e.key, Logical(e.o), e.expire)]
  }

  function EntriesRecords(db: seq<Entry>, now: int): seq<Record> {
    if db == [] then [] else EntriesRecords(db[..|db| - 1], now) + EntryRecords(db[|db| - 1], now)
  }

  function DbRecords(db: seq<Entry>, j: nat, now: int): seq<Record> {
    if db == [] then [] else [SelectDb(j)] + EntriesRecords(db, now)
  }

  function DatasetRecords(dbs: seq<seq<Entry>>, now: int): seq<Record> {
    if dbs == [] then []
    else DatasetRecords(dbs[..|dbs| - 1], now) + DbRecords(dbs[|dbs| - 1], |dbs| - 1, now)
  }

  // ---- records and bytes

  /** The next `n` records. */
  function LoadAll(n: nat, b: bytes): (r: Option<(seq<Record>, bytes)>)
    ensures r.Some? ==> |r.value.0| == n && |r.value.1| <= |b|
  {
    if n == 0 then Some(([], b))
    else match LoadAll(n - 1, b)
      case None => None
      case Some(l) => match LoadRecord(l.1)
        case None => None
        case Some(r) => Some((l.0 + [r.0], r.1))
  }

  ghost predicate RecordBytes(b: bytes, r: Record) {
    forall rest: bytes :: LoadRecord(b + rest) == Some((r, rest))
  }

  ghost predicate RecordsBytes(b: bytes, rs: seq<Record>) {
    forall rest: bytes :: LoadAll(|rs|, b + rest) == Some((rs, rest))
  }

  lemma RecordsNone()
    ensures RecordsBytes([], [])
  {
    forall rest: bytes
      ensures LoadAll(0, [] + rest) == Some(([], rest))
    {
      assert [] + rest == rest;
    }
  }

  lemma RecordsMore(b: bytes, rs: seq<Record>, piece: bytes, r: Record)
    requires RecordsBytes(b, rs) && RecordBytes(piece, r)
    ensures RecordsBytes(b + piece, rs + [r])
  {
    hide LoadRecord;
    forall rest: bytes
      ensures LoadAll(|rs + [r]|, b + piece + rest) == Some((rs + [r], rest))
    {
      ConcatAssoc(b, piece, rest);
      assert LoadAll(|rs|, b + (piece + rest)) == Some((rs, piece + rest));
      assert LoadRecord(piece + rest) == Some((r, rest));
    }
  }

  /** Type, key and value. */
  lemma TypedLoads(o: Object, key: bytes, k: bytes, v: bytes, expire: int, rest: bytes)
    requires Saveable(o) && StringBytes(k, key) && ObjectBytes(v, ObjectType(o), Logical(o))
    ensures LoadTyped(ObjectType(o), k + v + rest, expire) == Some((Pair(key, Logical(o), expire), rest))
  {
    hide LoadString, LoadObject, Logical;
    assert ObjectType(o) != OPCODE_EOF && ObjectType(o) != OPCODE_SELECTDB;
    ConcatAssoc(k, v, rest);
    assert LoadString(k + (v + rest)) == Some((key, v + rest));
    assert LoadObject(ObjectType(o), v + rest) == Some((Logical(o), rest));
  }

  lemma PairLoads(o: Object, key: bytes, k: bytes, v: bytes)
    requires Saveable(o) && StringBytes(k, key) && ObjectBytes(v, ObjectType(o), Logical(o))
    ensures RecordBytes([ObjectType(o)] + (k + v), Pair(key, Logical(o), NO_EXPIRE))
  {
    assert ObjectType(o) <= TYPE_HASH_ZIPLIST;
    hide LoadTyped, Logical, ObjectType, LoadTime;
    forall rest: bytes
      ensures LoadRecord([ObjectType(o)] + (k + v) + rest) == Some((Pair(key, Logical(o), NO_EXPIRE), rest))
    {
      TypedLoads(o, key, k, v, NO_EXPIRE, rest);
      ByteFirst(ObjectType(o), k + v, rest);
    }
  }

  lemma ByteFirst(t: byte, b: bytes, rest: bytes)
    ensures var all := [t] + b + rest; all[0] == t && all[1..] == b + rest
  {
  }

  lemma TimedPairLoads(o: Object, key: bytes, k: bytes, v: bytes, expire: int)
    requires Saveable(o) && StringBytes(k, key) && ObjectBytes(v, ObjectType(o), Logical(o))
    requires LLONG_MIN <= expire <= LLONG_MAX && expire != NO_EXPIRE && Fits(expire, 8)
    ensures RecordBytes([OPCODE_EXPIRETIME_MS] + PutSigned(expire, 8) + ([ObjectType(o)] + (k + v)),
                        Pair(key, Logical(o), expire))
  {
    var time := PutSigned(expire, 8);
    SignedPut(expire, 8);
    forall rest: bytes
      ensures LoadRecord([OPCODE_EXPIRETIME_MS] + time + ([ObjectType(o)] + (k + v)) + rest)
           == Some((Pair(key, Logical(o), expire), rest))
    {
      TypedLoads(o, key, k, v, expire, rest);
      var tail := [ObjectType(o)] + (k + v + rest);
      var b := [OPCODE_EXPIRETIME_MS] + time + ([ObjectType(o)] + (k + v)) + rest;
      TimeFirst(time, ObjectType(o), k + v, rest);
      TimeLoads(time, tail);
      assert tail[1..] == k + v + rest;
      hide LoadTyped, Logical, PutSigned, Signed, LoadTime;
    }
  }

  lemma TimeFirst(time: bytes, t: byte, kv: bytes, rest: bytes)
    ensures var b := [OPCODE_EXPIRETIME_MS] + time + ([t] + kv) + rest;
      b[0] == OPCODE_EXPIRETIME_MS && b[1..] == time + ([t] + (kv + rest))
  {
  }

  lemma TimeLoads(time: bytes, rest: bytes)
    requires |time| == 8 && Signed(time) != -1
    ensures LoadTime(OPCODE_EXPIRETIME_MS, time + rest) == Some((Signed(time), rest))
  {
    hide Signed;
    assert (time + rest)[..8] == time && (time + rest)[8..] == rest;
  }

  lemma SelectLoads(j: nat)
    requires j < LENERR
    ensures RecordBytes([OPCODE_SELECTDB] + SaveLen(j), SelectDb(j))
  {
    forall rest: bytes
      ensures LoadRecord([OPCODE_SELECTDB] + SaveLen(j) + rest) == Some((SelectDb(j), rest))
    {
      LenLoads(j, rest);
      hide LoadLen, SaveLen;
      var b := [OPCODE_SELECTDB] + SaveLen(j) + rest;
      assert b[1..] == SaveLen(j) + rest;
    }
  }

  // ---- from records to the dataset

  /** The records applied one after the other. */
  function Replay(rs: seq<Record>, dbs: seq<Db>, cur: nat, env: Env): (r: Option<(seq<Db>, nat)>)
    requires cur < |dbs|
    ensures r.Some? ==> |r.value.0| == |dbs| && r.value.1 < |dbs|
  {
    if rs == [] then Some((dbs, cur))
    else match Replay(rs[..|rs| - 1], dbs, cur, env)
      case None => None
      case Some(s) => ApplyRecord(s.0, s.1, rs[|rs| - 1], env)
  }

  /** The loop over bytes is the replay of the records they are. */
  lemma {:induction false} LoadIsReplay(n: nat, b: bytes, dbs: seq<Db>, cur: nat, env: Env)
    requires cur < |dbs| && LoadAll(n, b).Some? && Replay(LoadAll(n, b).value.0, dbs, cur, env).Some?
    ensures var l := LoadAll(n, b).value;
      var s := Replay(l.0, dbs, cur, env).value;
      LoadRecords(b, dbs, cur, env) == LoadRecords(l.1, s.0, s.1, env)
  {
    hide LoadRecord, ApplyRecord;
    if n > 0 {
      var l := LoadAll(n, b).value;
      assert l.0[..n - 1] == LoadAll(n - 1, b).value.0;
      LoadIsReplay(n - 1, b, dbs, cur, env);
      NotEof(Replay(l.0[..n - 1], dbs, cur, env).value.0, Replay(l.0[..n - 1], dbs, cur, env).value.1, l.0[n - 1], env);
    }
  }

  lemma NotEof(dbs: seq<Db>, cur: nat, r: Record, env: Env)
    requires cur < |dbs| && ApplyRecord(dbs, cur, r, env).Some?
    ensures !r.Eof?
  {
  }

  lemma {:induction false} ReplayConcat(x: seq<Record>, y: seq<Record>, dbs: seq<Db>, cur: nat, env: Env)
    requires cur < |dbs| && Replay(x, dbs, cur, env).Some?
    ensures var s := Replay(x, dbs, cur, env).value;
      Replay(x + y, dbs, cur, env) == Replay(y, s.0, s.1, env)
  {
    hide ApplyRecord;
    if y == [] {
      assert x + y == x;
    } else {
      assert (x + y)[..|x + y| - 1] == x + y[..|y| - 1];
      ReplayConcat(x, y[..|y| - 1], dbs, cur, env);
    }
  }

  /** A key survives the saving and the loading. */
  predicate Survives(e: Entry, saved: int, env: Env) {
    !Expired(e.expire, saved) && (env.slave || !Expired(e.expire, env.now))
  }

  /** What a db is after saving and loading: the surviving keys with their values and times. */
  function SurvivingDb(db: seq<Entry>, saved: int, env: Env): Db {
    if db == [] then map[]
    else
      var e := db[|db| - 1];
      var before := SurvivingDb(db[..|db| - 1], saved, env);
      if Survives(e, saved, env) then before[e.key := Stored(Logical(e.o), e.expire)] else before
  }

  function Surviving(dbs: seq<seq<Entry>>, dbnum: nat, saved: int, env: Env): (r: seq<Db>)
    ensures |r| == dbnum
  {
    seq(dbnum, i => if 0 <= i < |dbs| then SurvivingDb(dbs[i], saved, env) else map[])
  }

  lemma {:induction false} SurvivingKeys(db: seq<Entry>, saved: int, env: Env, k: bytes)
    requires forall i :: 0 <= i < |db| ==> db[i].key != k
    ensures k !in SurvivingDb(db, saved, env)
  {
    hide Logical, Survives;
    if db != [] { SurvivingKeys(db[..|db| - 1], saved, env, k); }
  }

  /** The records of the keys of one db, replayed on it while empty. */
  lemma {:induction false} ReplayEntries(db: seq<Entry>, saved: int, dbs: seq<Db>, cur: nat, env: Env)
    requires SaveableDb(db) && cur < |dbs| && dbs[cur] == map[]
    ensures Replay(EntriesRecords(db, saved), dbs, cur, env) == Some((dbs[cur := SurvivingDb(db, saved, env)], cur))
  {
    if db == [] {
      assert dbs[cur := map[]] == dbs;
    } else {
      var front, e := db[..|db| - 1], db[|db| - 1];
      SurvivingKeys(front, saved, env, e.key);
      assert e.key !in SurvivingDb(front, saved, env) && SaveableDb(front);
      EntriesUnfold(db, saved, env);
      hide Replay, EntriesRecords, EntryRecords, SaveableDb, SurvivingDb;
      ReplayEntries(front, saved, dbs, cur, env);
      ReplayConcat(EntriesRecords(front, saved), EntryRecords(e, saved), dbs, cur, env);
      ReplayEntry(e, saved, dbs[cur := SurvivingDb(front, saved, env)], cur, env);
      SetTwice(dbs, cur, SurvivingDb(front, saved, env), SurvivingDb(db, saved, env));
    }
  }

  lemma EntriesUnfold(db: seq<Entry>, saved: int, env: Env)
    requires db != []
    ensures var front, e := db[..|db| - 1], db[|db| - 1];
      && EntriesRecords(db, saved) == EntriesRecords(front, saved) + EntryRecords(e, saved)
      && SurvivingDb(db, saved, env)
         == (var before := SurvivingDb(front, saved, env);
             if Survives(e, saved, env) then before[e.key := Stored(Logical(e.o), e.expire)] else before)
  {
  }

  lemma SetTwice(dbs: seq<Db>, cur: nat, d: Db, e: Db)
    requires cur < |dbs|
    ensures dbs[cur := d][cur := e] == dbs[cur := e]
  {
  }

  lemma ReplayEntry(e: Entry, saved: int, dbs: seq<Db>, cur: nat, env: Env)
    requires cur < |dbs| && e.key !in dbs[cur]
    ensures Replay(EntryRecords(e, saved), dbs, cur, env)
         == Some((if Survives(e, saved, env) then dbs[cur := dbs[cur][e.key := Stored(Logical(e.o), e.expire)]]
                  else dbs,
                  cur))
  {
    hide Logical;
    if !Expired(e.expire, saved) {
      ReplayOne(Pair(e.key, Logical(e.o), e.expire), dbs, cur, env);
    }
  }

  lemma ReplayOne(r: Record, dbs: seq<Db>, cur: nat, env: Env)
    requires cur < |dbs|
    ensures Replay([r], dbs, cur, env) == ApplyRecord(dbs, cur, r, env)
  {
    var rs := [r];
    assert rs[..0] == [];
    hide ApplyRecord;
  }

  lemma NoDataset(now: int)
    ensures DatasetRecords([], now) == []
  {
  }

  /** The records, replayed on an empty server, give `dbs`. */
  ghost predicate ReplaysTo(rs: seq<Record>, dbnum: nat, env: Env, dbs: seq<Db>)
    requires dbnum > 0
  {
    Replay(rs, Empty(dbnum), 0, env).Some? && Replay(rs, Empty(dbnum), 0, env).value.0 == dbs
  }

  lemma ReplayNextDb(rs: seq<Record>, dbnum: nat, db: seq<Entry>, j: nat, saved: int, env: Env, dbs: seq<Db>)
    requires dbnum > 0 && ReplaysTo(rs, dbnum, env, dbs) && SaveableDb(db) && j < |dbs| && dbs[j] == map[]
    ensures ReplaysTo(rs + DbRecords(db, j, saved), dbnum, env, dbs[j := SurvivingDb(db, saved, env)])
  {
    hide DbRecords, SurvivingDb, SaveableDb, Replay;
    ReplayConcat(rs, DbRecords(db, j, saved), Empty(dbnum), 0, env);
    ReplayDb(db, j, saved, dbs, Replay(rs, Empty(dbnum), 0, env).value.1, env);
  }

  lemma FrontSaveable(dbs: seq<seq<Entry>>)
    requires SaveableDataset(dbs) && dbs != []
    ensures SaveableDb(dbs[|dbs| - 1]) && SaveableDataset(dbs[..|dbs| - 1])
  {
    hide SaveableDb;
  }

  /** The records of the first dbs, replayed on an empty server. */
  lemma {:induction false} ReplayDataset(dbs: seq<seq<Entry>>, dbnum: nat, saved: int, env: Env)
    requires SaveableDataset(dbs) && |dbs| <= dbnum && dbnum > 0
    ensures ReplaysTo(DatasetRecords(dbs, saved), dbnum, env, Surviving(dbs, dbnum, saved, env))
  {
    if dbs == [] {
      assert Surviving(dbs, dbnum, saved, env) == Empty(dbnum);
    } else {
      hide DbRecords, SurvivingDb, Surviving, SaveableDb, SaveableDataset, Replay, ReplaysTo;
      var front, j := dbs[..|dbs| - 1], |dbs| - 1;
      FrontSaveable(dbs);
      ReplayDataset(front, dbnum, saved, env);
      SurvivingNext(dbs, dbnum, saved, env);
      ReplayNextDb(DatasetRecords(front, saved), dbnum, dbs[j], j, saved, env, Surviving(front, dbnum, saved, env));
    }
  }

  lemma SurvivingNext(dbs: seq<seq<Entry>>, dbnum: nat, saved: int, env: Env)
    requires dbs != [] && |dbs| <= dbnum
    ensures var j := |dbs| - 1;
      && Surviving(dbs[..j], dbnum, saved, env)[j] == map[]
      && Surviving(dbs, dbnum, saved, env)
         == Surviving(dbs[..j], dbnum, saved, env)[j := SurvivingDb(dbs[j], saved, env)]
  {
    hide SurvivingDb;
  }

  lemma ReplayDb(db: seq<Entry>, j: nat, saved: int, dbs: seq<Db>, cur: nat, env: Env)
    requires SaveableDb(db) && cur < |dbs| && j < |dbs| && dbs[j] == map[]
    ensures var r := Replay(DbRecords(db, j, saved), dbs, cur, env);
      r.Some? && r.value.0 == dbs[j := SurvivingDb(db, saved, env)]
  {
    if db == [] {
      assert dbs[j := map[]] == dbs;
    } else {
      ReplayOne(SelectDb(j), dbs, cur, env);
      ReplayConcat([SelectDb(j)], EntriesRecords(db, saved), dbs, cur, env);
      ReplayEntries(db, saved, dbs, j, env);
      hide Replay, EntriesRecords, SurvivingDb;
    }
  }

  // ---- saving

  /** `rdbSaveKeyValuePair`: nothing for a key that has expired. */
  method SaveKeyValuePair(e: Entry, now: int, compression: bool) returns (b: bytes)
    requires SaveableEntry(e)
    ensures e.expire != -1 && e.expire < now ==> b == []
    ensures e.expire == -1 || e.expire >= now ==> RecordBytes(b, Pair(e.key, Logical(e.o), e.expire))
  {
    hide RecordBytes, StringBytes, ObjectBytes, Logical, Saveable;
    var time: bytes := [];
    if e.expire != NO_EXPIRE {
      if e.expire < now { return []; }
      Widths();
      time := [OPCODE_EXPIRETIME_MS] + PutSigned(e.expire, 8);
    }
    var k := SaveRawString(e.key, compression);
    var v := SaveObject(e.o, compression);
    if e.expire == NO_EXPIRE {
      PairLoads(e.o, e.key, k, v);
    } else {
      TimedPairLoads(e.o, e.key, k, v, e.expire);
    }
    b := [ObjectType(e.o)] + (k + v);
    if time != [] { b := time + b; }
  }

  /** The loop over the keys of a db; `b0` are the records before. */
  method SaveEntries(db: seq<Entry>, now: int, compression: bool, b0: bytes, ghost rs: seq<Record>) returns (b: bytes)
    requires SaveableDb(db) && RecordsBytes(b0, rs)
    ensures RecordsBytes(b, rs + EntriesRecords(db, now))
  {
    hide RecordsBytes, RecordBytes, SaveableEntry, Logical;
    b := b0;
    var i := 0;
    assert db[..0] == [] && rs + [] == rs;
    while i < |db|
      invariant i <= |db| && RecordsBytes(b, rs + EntriesRecords(db[..i], now))
    {
      assert db[..i + 1][..i] == db[..i];
      ghost var before := rs + EntriesRecords(db[..i], now);
      assert rs + (EntriesRecords(db[..i], now) + EntryRecords(db[i], now)) == before + EntryRecords(db[i], now);
      var piece := SaveKeyValuePair(db[i], now, compression);
      if !Expired(db[i].expire, now) {
        RecordsMore(b, before, piece, Pair(db[i].key, Logical(db[i].o), db[i].expire));
      } else {
        assert before + [] == before && b + piece == b;
      }
      b := b + piece;
      i := i + 1;
    }
    assert db[..i] == db;
  }

  /** The loop of `rdbSave` over the dbs. */
  method SaveDbs(dbs: seq<seq<Entry>>, now: int, compression: bool) returns (b: bytes)
    requires SaveableDataset(dbs)
    ensures RecordsBytes(b, DatasetRecords(dbs, now))
  {
    hide RecordsBytes, RecordBytes, SaveableDb, DatasetRecords, DbRecords;
    RecordsNone();
    NoDataset(now);
    b := [];
    var j := 0;
    assert dbs[..0] == [];
    while j < |dbs|
      invariant j <= |dbs| && RecordsBytes(b, DatasetRecords(dbs[..j], now))
    {
      DatasetStep(dbs, j, now);
      b := SaveDb(dbs[j], j, now, compression, b, DatasetRecords(dbs[..j], now));
      j := j + 1;
    }
    assert dbs[..j] == dbs;
  }

  lemma DatasetStep(dbs: seq<seq<Entry>>, j: nat, now: int)
    requires j < |dbs|
    ensures DatasetRecords(dbs[..j + 1], now) == DatasetRecords(dbs[..j], now) + DbRecords(dbs[j], j, now)
  {
    assert dbs[..j + 1][..j] == dbs[..j];
  }

  /** One database: nothing when it is empty. */
  method SaveDb(db: seq<Entry>, j: nat, now: int, compression: bool, b0: bytes, ghost before: seq<Record>)
      returns (b: bytes)
    requires SaveableDb(db) && j < LENERR && RecordsBytes(b0, before)
    ensures RecordsBytes(b, before + DbRecords(db, j, now))
  {
    hide RecordsBytes, RecordBytes, SaveableDb, EntriesRecords;
    b := b0;
    if |db| == 0 {
      assert before + [] == before;
      return;
    }
    SelectLoads(j);
    RecordsMore(b, before, [OPCODE_SELECTDB] + SaveLen(j), SelectDb(j));
    b := b + ([OPCODE_SELECTDB] + SaveLen(j));
    b := SaveEntries(db, now, compression, b, before + [SelectDb(j)]);
    ConcatAssoc(before, [SelectDb(j)], EntriesRecords(db, now));
  }

  /** The file of a dataset. */
  ghost predicate FileOf(b: bytes, dbs: seq<seq<Entry>>, now: int, sum: bytes -> bytes) {
    exists records: bytes, footer: bytes :: IsFile(b, records, footer, dbs, now, sum)
  }

  ghost predicate IsFile(b: bytes, records: bytes, footer: bytes, dbs: seq<seq<Entry>>, now: int, sum: bytes -> bytes) {
    && b == MAGIC + records + [OPCODE_EOF] + footer && |footer| == 8
    && RecordsBytes(records, DatasetRecords(dbs, now))
    && (footer == Zeros(8) || footer == SumOf(sum, MAGIC + records + [OPCODE_EOF]))
  }

  /** `rdbSave`; `sums` is the option `rdb_checksum`. */
  method Save(dbs: seq<seq<Entry>>, now: int, compression: bool, sum: bytes -> bytes, sums: bool) returns (b: bytes)
    requires SaveableDataset(dbs) && IsSum(sum)
    ensures FileOf(b, dbs, now, sum)
    ensures sums ==> |b| >= 8 && b[|b| - 8..] == SumOf(sum, b[..|b| - 8])
    ensures !sums ==> |b| >= 8 && b[|b| - 8..] == [0, 0, 0, 0, 0, 0, 0, 0]
  {
    hide RecordsBytes, SaveableDataset;
    var records := SaveDbs(dbs, now, compression);
    b := MAGIC + records;
    b := b + [OPCODE_EOF];
    var cksum := if sums then SumOf(sum, b) else Zeros(8);
    assert (b + cksum)[..|b|] == b && (b + cksum)[|b|..] == cksum;
    b := b + cksum;
    assert IsFile(b, records, cksum, dbs, now, sum);
  }

  /** What is loaded from the file of a dataset, by any server with enough dbs, is the dataset without the
      keys that had expired when it was saved, or have when it is loaded. */
  lemma FileLoads(b: bytes, dbs: seq<seq<Entry>>, saved: int, sum: bytes -> bytes, dbnum: nat, env: Env, checks: bool)
    requires SaveableDataset(dbs) && FileOf(b, dbs, saved, sum) && |dbs| <= dbnum && dbnum > 0
    ensures Load(b, dbnum, env, sum, checks) == Some(Surviving(dbs, dbnum, saved, env))
  {
    var records, footer :| IsFile(b, records, footer, dbs, saved, sum);
    RecordsLoad(records, footer, dbs, saved, dbnum, env);
    hide RecordsBytes, LoadRecords, DatasetRecords, Surviving, SaveableDataset, Load, Strtol;
    FileParts(records, footer);
    VersionReads();
    assert footer[..8] == footer;
    LoadParts(b, dbnum, env, sum, checks, Surviving(dbs, dbnum, saved, env), footer);
  }

  lemma LoadParts(b: bytes, dbnum: nat, env: Env, sum: bytes -> bytes, checks: bool, dbs: seq<Db>, footer: bytes)
    requires dbnum > 0 && |b| >= 9 && b[..5] == SIGNATURE && Strtol(b[5..9] + [0]) == RDB_VERSION
    requires LoadRecords(b[9..], Empty(dbnum), 0, env) == Some((dbs, footer)) && 8 <= |footer| <= |b|
    requires footer[..8] == Zeros(8) || footer[..8] == SumOf(sum, b[..|b| - |footer|])
    ensures Load(b, dbnum, env, sum, checks) == Some(dbs)
  {
    hide LoadRecords, Strtol;
  }

  lemma RecordsLoad(records: bytes, footer: bytes, dbs: seq<seq<Entry>>, saved: int, dbnum: nat, env: Env)
    requires SaveableDataset(dbs) && RecordsBytes(records, DatasetRecords(dbs, saved)) && |dbs| <= dbnum && dbnum > 0
    ensures LoadRecords(records + ([OPCODE_EOF] + footer), Empty(dbnum), 0, env)
         == Some((Surviving(dbs, dbnum, saved, env), footer))
  {
    var rs := DatasetRecords(dbs, saved);
    var tail := [OPCODE_EOF] + footer;
    ReplayDataset(dbs, dbnum, saved, env);
    assert LoadAll(|rs|, records + tail) == Some((rs, tail));
    LoadIsReplay(|rs|, records + tail, Empty(dbnum), 0, env);
    EndOfFile(footer, Surviving(dbs, dbnum, saved, env), Replay(rs, Empty(dbnum), 0, env).value.1, env);
    hide SaveableDataset, Replay, LoadRecords, DatasetRecords, Surviving, LoadAll;
  }

  lemma EndOfFile(footer: bytes, dbs: seq<Db>, cur: nat, env: Env)
    requires cur < |dbs|
    ensures LoadRecords([OPCODE_EOF] + footer, dbs, cur, env) == Some((dbs, footer))
  {
    var b := [OPCODE_EOF] + footer;
    assert b[1..] == footer;
    assert LoadRecord(b) == Some((Eof, footer));
    hide LoadRecord;
  }

  lemma FileParts(records: bytes, footer: bytes)
    requires |footer| == 8
    ensures var b := MAGIC + records + [OPCODE_EOF] + footer;
      && |b| >= 9 && b[..5] == SIGNATURE && b[5..9] + [0] == [48, 48, 48, 54, 0]
      && b[9..] == records + ([OPCODE_EOF] + footer)
      && b[..|b| - 8] == MAGIC + records + [OPCODE_EOF]
  {
  }

  lemma VersionReads()
    ensures Strtol([48, 48, 48, 54, 0]) == 6
  {
    var b: bytes := [48, 48, 48, 54, 0];
    var d: bytes := [48, 48, 48, 54];
    assert b[..4] == d;
    DigitRunIs(b, 4);
    assert d[..3] == [48, 48, 48] && d[..3][..2] == [48, 48] && d[..3][..2][..1] == [48] && d[..3][..2][..1][..0] == [];
    assert Decimal.Value(d[..3][..2][..1]) == 0;
    assert Decimal.Value(d[..3][..2]) == 0;
    assert Decimal.Value(d[..3]) == 0;
    assert Decimal.Value(d) == 6;
  }

  // ---- loading

  /** One record (the first part of the loop of `rdbLoad`). */
  method ReadRecord(s: bytes) returns (r: Option<(Record, bytes)>)
    ensures r == LoadRecord(s)
  {
    hide LoadLen, LoadString, LoadObject, LoadTime;
    if |s| == 0 { return None; }
    var rdbtype, rest, expire := s[0], s[1..], NO_EXPIRE;
    if rdbtype == OPCODE_EXPIRETIME || rdbtype == OPCODE_EXPIRETIME_MS {
      var t := LoadTime(rdbtype, rest);
      if t.None? || |t.value.1| == 0 { return None; }
      rdbtype, rest, expire := t.value.1[0], t.value.1[1..], t.value.0;
    }
    if rdbtype == OPCODE_EOF { return Some((Eof, rest)); }
    if rdbtype == OPCODE_SELECTDB {
      var (id, _, after) := LoadLen(rest);
      return if id == LENERR then None else Some((SelectDb(id), after));
    }
    var k := LoadStringObject(rest);
    if k.None? { return None; }
    var v := ReadObject(rdbtype, k.value.1);
    if v.None? { return None; }
    r := Some((Pair(k.value.0, v.value.0, expire), v.value.1));
  }

  /** The loop of `rdbLoad`. */
  method ReadRecords(s: bytes, dbnum: nat, env: Env) returns (r: Option<(seq<Db>, bytes)>)
    requires dbnum > 0
    ensures r == LoadRecords(s, Empty(dbnum), 0, env)
  {
    hide LoadRecord, Expired;
    var dbs, cur, rest := Empty(dbnum), 0, s;
    while true
      invariant |dbs| == dbnum && cur < dbnum
      invariant LoadRecords(s, Empty(dbnum), 0, env) == LoadRecords(rest, dbs, cur, env)
      decreases |rest|
    {
      var rec := ReadRecord(rest);
      if rec.None? { return None; }
      if rec.value.0.Eof? { return Some((dbs, rec.value.1)); }
      rest := rec.value.1;
      match rec.value.0 {
        case SelectDb(id) =>
          if id >= dbnum { return None; }
          cur := id;
        case Pair(k, v, expire) =>
          if env.slave || !Expired(expire, env.now) {
            if k in dbs[cur] { return None; }
            dbs := dbs[cur := dbs[cur][k := Stored(v, expire)]];
          }
      }
    }
  }

  /** `rdbLoad`. */
  method LoadFile(b: bytes, dbnum: nat, env: Env, sum: bytes -> bytes, checks: bool) returns (r: Option<seq<Db>>)
    requires dbnum > 0
    ensures r == Load(b, dbnum, env, sum, checks)
  {
    hide LoadRecords, Strtol;
    if |b| < 9 || b[..5] != SIGNATURE { return None; }
    var rdbver := Strtol(b[5..9] + [0]);
    if rdbver < 1 || rdbver > RDB_VERSION { return None; }
    var l := ReadRecords(b[9..], dbnum, env);
    if l.None? { return None; }
    var rest := l.value.1;
    if rdbver >= 5 && checks {
      if |rest| < 8 { return None; }
      var cksum := rest[..8];
      if cksum != Zeros(8) {
        if cksum != SumOf(sum, b[..|b| - |rest|]) { return None; }
      }
    }
    r := Some(l.value.0);
  }

  /** What survives, key by key: exactly the keys that had not expired, with their values and times. */
  lemma {:induction false} SurvivingAre(db: seq<Entry>, saved: int, env: Env, k: bytes)
    requires SaveableDb(db)
    ensures k in SurvivingDb(db, saved, env)
       <==> exists i :: 0 <= i < |db| && db[i].key == k && Survives(db[i], saved, env)
    ensures forall i :: 0 <= i < |db| && db[i].key == k && Survives(db[i], saved, env) ==>
              SurvivingDb(db, saved, env)[k] == Stored(Logical(db[i].o), db[i].expire)
  {
    hide Logical, Survives, SaveableEntry;
    if db != [] {
      var front, e := db[..|db| - 1], db[|db| - 1];
      SurvivingAre(front, saved, env, k);
      assert forall i :: 0 <= i < |front| ==> front[i] == db[i];
      assert db[|db| - 1] == e;
    }
  }

  /** The same for a dataset, by the clock: a key is there if it has no time to live, or had it left when it
      was saved and, but for a slave, has it left when it is loaded. */
  lemma SurvivingByClock(dbs: seq<seq<Entry>>, dbnum: nat, saved: int, env: Env)
    requires SaveableDataset(dbs) && |dbs| <= dbnum
    ensures var r := Surviving(dbs, dbnum, saved, env);
      && (forall j, k :: 0 <= j < |dbs| ==>
            (k in r[j] <==> exists i :: 0 <= i < |dbs[j]| && dbs[j][i].key == k
                                        && Lives(dbs[j][i].expire, saved, env)))
      && (forall j, i :: 0 <= j < |dbs| && 0 <= i < |dbs[j]| && dbs[j][i].key in r[j] ==>
            r[j][dbs[j][i].key] == Stored(Logical(dbs[j][i].o), dbs[j][i].expire))
      && forall j :: |dbs| <= j < dbnum ==> r[j] == map[]
  {
    var r := Surviving(dbs, dbnum, saved, env);
    forall j, k | 0 <= j < |dbs|
      ensures k in r[j] <==> exists i :: 0 <= i < |dbs[j]| && dbs[j][i].key == k && Lives(dbs[j][i].expire, saved, env)
    {
      KeyByClock(dbs[j], saved, env, k);
      hide Lives, SurvivingDb, SaveableDb, SaveableEntry, Logical;
    }
    forall j, i | 0 <= j < |dbs| && 0 <= i < |dbs[j]| && dbs[j][i].key in r[j]
      ensures r[j][dbs[j][i].key] == Stored(Logical(dbs[j][i].o), dbs[j][i].expire)
    {
      ValueByClock(dbs[j], saved, env, i);
      hide Lives, SurvivingDb, SaveableDb, SaveableEntry, Logical;
    }
    hide Lives, SurvivingDb, SaveableDb, SaveableEntry, Logical;
  }

  ghost predicate Lives(expire: int, saved: int, env: Env) {
    expire == -1 || (saved <= expire && (env.slave || env.now <= expire))
  }

  lemma KeyByClock(db: seq<Entry>, saved: int, env: Env, k: bytes)
    requires SaveableDb(db)
    ensures k in SurvivingDb(db, saved, env)
       <==> exists i :: 0 <= i < |db| && db[i].key == k && Lives(db[i].expire, saved, env)
  {
    SurvivingAre(db, saved, env, k);
    assert forall e: Entry :: Survives(e, saved, env) <==> Lives(e.expire, saved, env);
    hide SurvivingDb, Survives, Lives, SaveableDb, SaveableEntry, Logical;
  }

  lemma ValueByClock(db: seq<Entry>, saved: int, env: Env, i: nat)
    requires SaveableDb(db) && i < |db| && db[i].key in SurvivingDb(db, saved, env)
    ensures SurvivingDb(db, saved, env)[db[i].key] == Stored(Logical(db[i].o), db[i].expire)
  {
    SurvivingAre(db, saved, env, db[i].key);
    hide SurvivingDb, Survives, SaveableEntry, Logical;
    var n :| 0 <= n < |db| && db[n].key == db[i].key && Survives(db[n], saved, env);
    assert n == i;
  }

  /** Saving and loading again. */
  method RoundTrip(dbs: seq<seq<Entry>>, saved: int, compression: bool, sum: bytes -> bytes, sums: bool,
                   dbnum: nat, env: Env, checks: bool)
      returns (r: Option<seq<Db>>)
    requires SaveableDataset(dbs) && IsSum(sum) && |dbs| <= dbnum && dbnum > 0
    ensures r == Some(Surviving(dbs, dbnum, saved, env))
    ensures forall j, k :: 0 <= j < |dbs| ==>
              (k in r.value[j] <==>
                 exists i :: 0 <= i < |dbs[j]| && dbs[j][i].key == k
                             && (dbs[j][i].expire == -1
                                 || (saved <= dbs[j][i].expire && (env.slave || env.now <= dbs[j][i].expire))))
    ensures forall j, i :: 0 <= j < |dbs| && 0 <= i < |dbs[j]| && dbs[j][i].key in r.value[j] ==>
              r.value[j][dbs[j][i].key] == Stored(Logical(dbs[j][i].o), dbs[j][i].expire)
    ensures forall j :: |dbs| <= j < dbnum ==> r.value[j] == map[]
  {
    SurvivingByClock(dbs, dbnum, saved, env);
    hide SaveableDataset, FileOf, Surviving, Load, Logical;
    var b := Save(dbs, saved, compression, sum, sums);
    FileLoads(b, dbs, saved, sum, dbnum, env, checks);
    r := LoadFile(b, dbnum, env, sum, checks);
  }

}
