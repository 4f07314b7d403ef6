/** aof.c, rewriting: the commands `rewriteAppendOnlyFile` emits for the objects of a dataset, in groups
    of at most 64 items, and the proof that loading them recreates the dataset. */
module AofRewrite {
  import opened Bytes
  import opened Decimal
  import opened Resp
  import opened AofLoader

  const ITEMS_PER_CMD := 64  // REDIS_AOF_REWRITE_ITEMS_PER_CMD

  /** The collection types rewritten by variadic commands. */
  datatype Kind = Lists | Sets | SortedSets | Hashes

  /** An object in the order the child walks it. The items of a list or a set are single arguments, those
      of a hash are fields with values, those of a sorted set scores with members. */
  datatype Obj = PlainString(s: bytes) | Collection(kind: Kind, items: seq<Argv>)

  /** A database in iteration order, and what a child sees: the databases, and the time. */
  datatype Listed = Listed(key: bytes, o: Obj, expire: int)

  type Listing = seq<Listed>
  datatype Snapshot = Snapshot(dbs: seq<Listing>, now: int)

  const SET: bytes := [83, 69, 84]
  const RPUSH: bytes := [82, 80, 85, 83, 72]
  const SADD: bytes := [83, 65, 68, 68]
  const ZADD: bytes := [90, 65, 68, 68]
  const HMSET: bytes := [72, 77, 83, 69, 84]
  const PEXPIREAT: bytes := [80, 69, 88, 80, 73, 82, 69, 65, 84]

  function Name(kind: Kind): bytes {
    match kind case Lists => RPUSH case Sets => SADD case SortedSets => ZADD case Hashes => HMSET
  }

  function Width(kind: Kind): nat {
    if kind.Hashes? || kind.SortedSets? then 2 else 1
  }

  // ---- what the objects stand for

  ghost predicate ItemsOk(kind: Kind, items: seq<Argv>) {
    forall i :: 0 <= i < |items| ==>
      |items[i]| == Width(kind) && forall j :: 0 <= j < |items[i]| ==> |items[i][j]| <= LLONG_MAX
  }

  /** A collection is never empty: the server deletes a key with its last item. */
  ghost predicate ObjOk(o: Obj) {
    match o
    case PlainString(s) => |s| <= LLONG_MAX
    case Collection(kind, items) => items != [] && ItemsOk(kind, items)
  }

  function Empty(kind: Kind): Value {
    match kind case Lists => List([]) case Sets => Set({}) case SortedSets => ZSet(map[]) case Hashes => Hash(map[])
  }

  predicate OfKind(kind: Kind, v: Value) {
    match kind case Lists => v.List? case Sets => v.Set? case SortedSets => v.ZSet? case Hashes => v.Hash?
  }

  function AddItem(kind: Kind, v: Value, item: Argv): (r: Value)
    requires OfKind(kind, v) && |item| == Width(kind)
    ensures OfKind(kind, r)
  {
    match kind
    case Lists => List(v.items + [item[0]])
    case Sets => Set(v.members + {item[0]})
    case SortedSets => ZSet(v.scores[item[1] := item[0]])
    case Hashes => Hash(v.fields[item[0] := item[1]])
  }

  ghost function AddItems(kind: Kind, v: Value, items: seq<Argv>): (r: Value)
    requires OfKind(kind, v) && ItemsOk(kind, items)
    ensures OfKind(kind, r)
    decreases |items|
  {
    if items == [] then v else AddItems(kind, AddItem(kind, v, items[0]), items[1..])
  }

  ghost function Meaning(o: Obj): Value
    requires ObjOk(o)
  {
    match o
    case PlainString(s) => Str(s)
    case Collection(kind, items) => AddItems(kind, Empty(kind), items)
  }

  ghost predicate ListedOk(e: Listed) {
    |e.key| <= LLONG_MAX && ObjOk(e.o) && NO_EXPIRE <= e.expire <= LLONG_MAX
  }

  ghost predicate ListingOk(l: Listing) {
    && (forall i :: 0 <= i < |l| ==> ListedOk(l[i]))
    && (forall i, j :: 0 <= i < j < |l| ==> l[i].key != l[j].key)
  }

  ghost predicate SnapshotOk(s: Snapshot) {
    |s.dbs| <= LLONG_MAX && forall j :: 0 <= j < |s.dbs| ==> ListingOk(s.dbs[j])
  }

  /** A key that the rewrite skips. */
  predicate Expired(e: Listed, now: int) {
    e.expire != NO_EXPIRE && e.expire < now
  }

  /** `ks` plus the keys listed that have not expired. */
  ghost function Loaded(ks: Keyspace, l: Listing, now: int): Keyspace
    requires ListingOk(l)
    decreases |l|
  {
    if l == [] then ks
    else if Expired(l[0], now) then Loaded(ks, l[1..], now)
    else Loaded(ks[l[0].key := Stored(Meaning(l[0].o), l[0].expire)], l[1..], now)
  }

  /** The dataset is what the snapshot lists, without the keys that have expired. */
  ghost predicate Describes(s: Snapshot, data: Dataset) {
    SnapshotOk(s) && |s.dbs| == |data| && forall j :: 0 <= j < |data| ==> Loaded(map[], s.dbs[j], s.now) == data[j]
  }

  // ---- the commands

  function Flat(items: seq<Argv>): Argv {
    if items == [] then [] else items[0] + Flat(items[1..])
  }

  function Min(x: nat, y: nat): nat {
    if x < y then x else y
  }

  /** RPUSH, SADD or HMSET with its key and items. */
  function VariadicCommand(kind: Kind, key: bytes, items: seq<Argv>): (r: Argv)
    ensures |r| >= 2 && r[0] == Name(kind)
  {
    [Name(kind), key] + Flat(items)
  }

  /** The items in variadic commands of at most 64 each. */
  function Groups(kind: Kind, key: bytes, items: seq<Argv>): seq<Argv>
    decreases |items|
  {
    if items == [] then []
    else
      var g := Min(ITEMS_PER_CMD, |items|);
      [VariadicCommand(kind, key, items[..g])] + Groups(kind, key, items[g..])
  }

  function ObjCommands(key: bytes, o: Obj): seq<Argv> {
    match o
    case PlainString(s) => [[SET, key, s]]
    case Collection(kind, items) => Groups(kind, key, items)
  }

  function ExpireCommands(key: bytes, expire: int): seq<Argv> {
    if expire == NO_EXPIRE then [] else [[PEXPIREAT, key, Dec(expire)]]
  }

  function ListedCommands(e: Listed): seq<Argv> {
    ObjCommands(e.key, e.o) + ExpireCommands(e.key, e.expire)
  }

  function ListingCommands(l: Listing, now: int): seq<Argv> {
    if l == [] then []
    else (if Expired(l[0], now) then [] else ListedCommands(l[0])) + ListingCommands(l[1..], now)
  }

  function DbCommands(j: nat, l: Listing, now: int): seq<Argv> {
    if l == [] then [] else [[SELECT, Dec(j)]] + ListingCommands(l, now)
  }

  /** The commands for the databases from `j` on. */
  function DumpFrom(s: Snapshot, j: nat): seq<Argv>
    requires j <= |s.dbs|
    decreases |s.dbs| - j
  {
    if j == |s.dbs| then [] else DbCommands(j, s.dbs[j], s.now) + DumpFrom(s, j + 1)
  }

  /** The file `rewriteAppendOnlyFile` writes. */
  function Dump(s: Snapshot): bytes {
    EncodeAll(DumpFrom(s, 0))
  }

  // ---- what the commands do

  /** The dataset with one entry replaced. */
  function With(data: Dataset, db: nat, key: bytes, e: Stored): Dataset
    requires db < |data|
  {
    data[db := data[db][key := e]]
  }

  /** The command table does what SET, RPUSH, SADD, ZADD and HMSET are documented to do on a key that is
      absent or holds their own type, and PEXPIREAT on one that is there; about every other command nothing
      is assumed but that the number of databases stays. */
  ghost predicate Sane(exec: Exec) {
    && (forall data, db, argv :: |Run(exec, data, db, argv)| == |data|)
    && (forall data: Dataset, db, key, v {:trigger exec(data, db, [SET, key, v])} :: 0 <= db < |data| ==>
          exec(data, db, [SET, key, v]) == Some(With(data, db, key, Stored(Str(v), NO_EXPIRE))))
    && (forall data: Dataset, db, key, ms {:trigger exec(data, db, [PEXPIREAT, key, Dec(ms)])} ::
          0 <= db < |data| && key in data[db] && 0 <= ms <= LLONG_MAX ==>
          exec(data, db, [PEXPIREAT, key, Dec(ms)]) == Some(With(data, db, key, data[db][key].(expire := ms))))
    && (forall data: Dataset, db, kind, key, items {:trigger exec(data, db, VariadicCommand(kind, key, items))} ::
          0 <= db < |data| && items != [] && ItemsOk(kind, items) && OfKind(kind, Current(data[db], kind, key))
          ==> exec(data, db, VariadicCommand(kind, key, items))
              == Some(With(data, db, key, Grown(data[db], kind, key, items))))
  }

  function Current(ks: Keyspace, kind: Kind, key: bytes): Value {
    if key in ks then ks[key].value else Empty(kind)
  }

  function ExpireOf(ks: Keyspace, key: bytes): int {
    if key in ks then ks[key].expire else NO_EXPIRE
  }

  /** The entry of a key with items added. */
  ghost function Grown(ks: Keyspace, kind: Kind, key: bytes, items: seq<Argv>): Stored
    requires ItemsOk(kind, items) && OfKind(kind, Current(ks, kind, key))
  {
    Stored(AddItems(kind, Current(ks, kind, key), items), ExpireOf(ks, key))
  }

  lemma {:induction false} AddItemsConcat(kind: Kind, v: Value, x: seq<Argv>, y: seq<Argv>)
    requires OfKind(kind, v) && ItemsOk(kind, x) && ItemsOk(kind, y)
    ensures ItemsOk(kind, x + y)
    ensures AddItems(kind, v, x + y) == AddItems(kind, AddItems(kind, v, x), y)
    decreases |x|
  {
    if x == [] {
      assert x + y == y;
    } else {
      assert (x + y)[1..] == x[1..] + y;
      AddItemsConcat(kind, AddItem(kind, v, x[0]), x[1..], y);
    }
  }

  lemma {:induction false} FlatSized(kind: Kind, items: seq<Argv>)
    requires ItemsOk(kind, items)
    ensures |Flat(items)| == |items| * Width(kind)
    ensures forall i :: 0 <= i < |Flat(items)| ==> |Flat(items)[i]| <= LLONG_MAX
  {
    if items != [] { FlatSized(kind, items[1..]); }
  }

  lemma {:induction false} GroupsSized(kind: Kind, key: bytes, items: seq<Argv>)
    requires ItemsOk(kind, items) && |key| <= LLONG_MAX
    ensures AllWellSized(Groups(kind, key, items))
    decreases |items|
  {
    if items != [] {
      var g := Min(ITEMS_PER_CMD, |items|);
      FlatSized(kind, items[..g]);
      GroupsSized(kind, key, items[g..]);
    }
  }

  lemma WithTwice(data: Dataset, db: nat, key: bytes, d: Stored, e: Stored)
    requires db < |data|
    ensures With(With(data, db, key, d), db, key, e) == With(data, db, key, e)
  {
    assert data[db][key := d][key := e] == data[db][key := e];
  }

  lemma NameOrdinary(kind: Kind)
    ensures Ordinary(Name(kind)) && Ordinary(SET) && Ordinary(PEXPIREAT)
  {
    assert |SET| == 3 && |SADD| == 4 && |ZADD| == 4 && |RPUSH| == 5 && |HMSET| == 5 && |PEXPIREAT| == 9;
    assert Lower(RPUSH[0]) != Lower(MULTI[0]) && Lower(HMSET[0]) != Lower(MULTI[0]);
    assert Lower(SADD[0]) != Lower(EXEC[0]) && Lower(ZADD[0]) != Lower(EXEC[0]);
  }

  /** One variadic command. */
  lemma GroupRuns(exec: Exec, c: Client, kind: Kind, key: bytes, items: seq<Argv>)
    requires Sane(exec) && c.db < |c.data| && ItemsOk(kind, items) && items != []
    requires OfKind(kind, Current(c.data[c.db], kind, key))
    ensures RunOne(exec, c, VariadicCommand(kind, key, items))
         == c.(data := With(c.data, c.db, key, Grown(c.data[c.db], kind, key, items)))
  {
    var argv := VariadicCommand(kind, key, items);
    NameOrdinary(kind);
    assert exec(c.data, c.db, argv) == Some(With(c.data, c.db, key, Grown(c.data[c.db], kind, key, items)));
    hide Ordinary;
  }

  /** Running the groups on a key adds all the items to it. */
  lemma {:induction false} GroupsBuild(exec: Exec, c: Client, kind: Kind, key: bytes, items: seq<Argv>)
    requires Sane(exec) && c.db < |c.data| && ItemsOk(kind, items) && |key| <= LLONG_MAX
    requires OfKind(kind, Current(c.data[c.db], kind, key)) && items != []
    ensures AllWellSized(Groups(kind, key, items))
    ensures Replay(exec, c, Groups(kind, key, items))
         == c.(data := With(c.data, c.db, key, Grown(c.data[c.db], kind, key, items)))
    decreases |items|
  {
    var g, cur := Min(ITEMS_PER_CMD, |items|), Current(c.data[c.db], kind, key);
    var first, rest := items[..g], items[g..];
    assert items == first + rest;
    FirstGroup(kind, key, items, first, rest);
    ItemsParts(kind, items, first, rest);
    hide Sane, VariadicCommand, RunOne, Replay, Groups, AddItems, With, AllWellSized, Current, ExpireOf, ItemsOk, Min;
    GroupsSized(kind, key, items);
    GroupsSized(kind, key, rest);
    GroupRuns(exec, c, kind, key, first);
    AddItemsConcat(kind, cur, first, rest);
    var c1 := RunOne(exec, c, VariadicCommand(kind, key, first));
    ReplayFirst(exec, c, VariadicCommand(kind, key, first), Groups(kind, key, rest));
    if rest == [] {
      NothingMore(kind, key, items, first, rest);
    } else {
      CurrentOfWith(c.data, c.db, kind, key, Grown(c.data[c.db], kind, key, first));
      GroupsBuild(exec, c1, kind, key, rest);
      WithTwice(c.data, c.db, key, Grown(c.data[c.db], kind, key, first), Grown(c.data[c.db], kind, key, items));
    }
  }

  lemma NothingMore(kind: Kind, key: bytes, items: seq<Argv>, first: seq<Argv>, rest: seq<Argv>)
    requires rest == [] && items == first + rest
    ensures first == items && Groups(kind, key, rest) == []
  {
  }

  lemma ItemsParts(kind: Kind, items: seq<Argv>, first: seq<Argv>, rest: seq<Argv>)
    requires items == first + rest && ItemsOk(kind, items)
    ensures ItemsOk(kind, first) && ItemsOk(kind, rest)
  {
    assert first == items[..|first|] && rest == items[|first|..];
  }

  lemma FirstGroup(kind: Kind, key: bytes, items: seq<Argv>, first: seq<Argv>, rest: seq<Argv>)
    requires items != []
    requires first == items[..Min(ITEMS_PER_CMD, |items|)] && rest == items[Min(ITEMS_PER_CMD, |items|)..]
    ensures Groups(kind, key, items) == [VariadicCommand(kind, key, first)] + Groups(kind, key, rest)
  {
  }

  lemma ReplayFirst(exec: Exec, c: Client, cmd: Argv, cmds: seq<Argv>)
    requires |cmd| > 0 && AllWellSized(cmds) && AllWellSized([cmd] + cmds)
    ensures Replay(exec, c, [cmd] + cmds) == Replay(exec, RunOne(exec, c, cmd), cmds)
    ensures cmds == [] ==> Replay(exec, c, [cmd] + cmds) == RunOne(exec, c, cmd)
  {
    assert ([cmd] + cmds)[1..] == cmds;
  }

  lemma CurrentOfWith(data: Dataset, db: nat, kind: Kind, key: bytes, e: Stored)
    requires db < |data|
    ensures |With(data, db, key, e)| == |data|
    ensures Current(With(data, db, key, e)[db], kind, key) == e.value
    ensures ExpireOf(With(data, db, key, e)[db], key) == e.expire
  {
  }

  /** Rewriting an object and running the commands on a database without the key recreates the object. */
  lemma ObjRebuilds(exec: Exec, c: Client, key: bytes, o: Obj)
    requires Sane(exec) && c.db < |c.data| && ObjOk(o) && |key| <= LLONG_MAX && key !in c.data[c.db]
    ensures AllWellSized(ObjCommands(key, o))
    ensures Replay(exec, c, ObjCommands(key, o))
         == c.(data := With(c.data, c.db, key, Stored(Meaning(o), NO_EXPIRE)))
  {
    match o
    case PlainString(s) =>
      var argv := [SET, key, s];
      NameOrdinary(Lists);
      assert exec(c.data, c.db, argv) == Some(With(c.data, c.db, key, Stored(Str(s), NO_EXPIRE)));
      var cmds := ObjCommands(key, o);
      assert cmds[0] == argv && cmds[1..] == [];
    case Collection(kind, items) => GroupsBuild(exec, c, kind, key, items);
  }

  /** The expire time comes after the value. */
  lemma ListedRebuilds(exec: Exec, c: Client, e: Listed)
    requires Sane(exec) && c.db < |c.data| && ListedOk(e) && e.key !in c.data[c.db]
    ensures AllWellSized(ListedCommands(e))
    ensures Replay(exec, c, ListedCommands(e))
         == c.(data := With(c.data, c.db, e.key, Stored(Meaning(e.o), e.expire)))
  {
    ObjRebuilds(exec, c, e.key, e.o);
    var c1 := c.(data := With(c.data, c.db, e.key, Stored(Meaning(e.o), NO_EXPIRE)));
    ExpireRebuilds(exec, c1, e.key, e.expire);
    ReplayConcat(exec, c, ObjCommands(e.key, e.o), ExpireCommands(e.key, e.expire));
    WithTwice(c.data, c.db, e.key, Stored(Meaning(e.o), NO_EXPIRE), Stored(Meaning(e.o), e.expire));
    hide Sane, ObjCommands, ExpireCommands, Meaning, Replay;
  }

  lemma ExpireRebuilds(exec: Exec, c: Client, key: bytes, expire: int)
    requires Sane(exec) && c.db < |c.data| && |key| <= LLONG_MAX && NO_EXPIRE <= expire <= LLONG_MAX
    requires key in c.data[c.db] && c.data[c.db][key].expire == NO_EXPIRE
    ensures AllWellSized(ExpireCommands(key, expire))
    ensures Replay(exec, c, ExpireCommands(key, expire))
         == c.(data := With(c.data, c.db, key, c.data[c.db][key].(expire := expire)))
  {
    if expire == NO_EXPIRE {
      assert c.data[c.db][key := c.data[c.db][key]] == c.data[c.db];
      assert c.data[c.db := c.data[c.db]] == c.data;
    } else {
      var argv: Argv := [PEXPIREAT, key, Dec(expire)];
      var cmds := [argv];
      LongLongDigits(expire);
      NameOrdinary(Lists);
      assert cmds == ExpireCommands(key, expire) && cmds[1..] == [];
      assert exec(c.data, c.db, argv) == Some(With(c.data, c.db, key, c.data[c.db][key].(expire := expire)));
      hide Ordinary, Dec, Sane;
    }
  }

  /** Rewriting a database and running the commands adds its keys to the selected database. */
  lemma {:induction false} ListingRebuilds(exec: Exec, c: Client, l: Listing, now: int)
    requires Sane(exec) && c.db < |c.data| && ListingOk(l)
    requires forall i :: 0 <= i < |l| ==> l[i].key !in c.data[c.db]
    ensures AllWellSized(ListingCommands(l, now))
    ensures Replay(exec, c, ListingCommands(l, now)) == c.(data := c.data[c.db := Loaded(c.data[c.db], l, now)])
    decreases |l|
  {
    hide Sane;
    if l == [] {
      assert c.data[c.db := c.data[c.db]] == c.data;
    } else if Expired(l[0], now) {
      ListingRebuilds(exec, c, l[1..], now);
      assert ListingCommands(l, now) == ListingCommands(l[1..], now);
    } else {
      var c1 := c.(data := With(c.data, c.db, l[0].key, Stored(Meaning(l[0].o), l[0].expire)));
      ListedRebuilds(exec, c, l[0]);
      ListingRebuilds(exec, c1, l[1..], now);
      ReplayConcat(exec, c, ListedCommands(l[0]), ListingCommands(l[1..], now));
      hide ListedCommands, Replay, ListedOk;
      assert c1.data[c.db := Loaded(c1.data[c.db], l[1..], now)] == c.data[c.db := Loaded(c1.data[c.db], l[1..], now)];
    }
  }

  lemma SelectRuns(exec: Exec, c: Client, j: nat)
    requires j < |c.data| <= LLONG_MAX
    ensures WellSized([SELECT, Dec(j)]) && RunOne(exec, c, [SELECT, Dec(j)]) == c.(db := j)
  {
    ParseLLDec(j);
    LongLongDigits(j);
    var argv: Argv := [SELECT, Dec(j)];
    assert Named(argv[0], SELECT);
  }

  lemma DbRebuilds(exec: Exec, c: Client, j: nat, l: Listing, now: int)
    requires Sane(exec) && j < |c.data| <= LLONG_MAX && ListingOk(l) && c.data[j] == map[]
    ensures AllWellSized(DbCommands(j, l, now))
    ensures var r := Replay(exec, c, DbCommands(j, l, now));
      r == c.(data := c.data[j := Loaded(map[], l, now)], db := r.db)
  {
    if l == [] {
      assert c.data[j := map[]] == c.data;
    } else {
      var select: Argv := [SELECT, Dec(j)];
      SelectRuns(exec, c, j);
      ListingRebuilds(exec, c.(db := j), l, now);
      var cmds: seq<Argv> := [select];
      assert cmds[1..] == [] && Replay(exec, c, cmds) == c.(db := j);
      ReplayConcat(exec, c, cmds, ListingCommands(l, now));
    }
  }

  lemma ReplayNothing(exec: Exec, c: Client)
    ensures Replay(exec, c, []) == c
  {
  }

  lemma {:induction false} DumpRebuilds(exec: Exec, c: Client, s: Snapshot, data: Dataset, j: nat)
    requires Sane(exec) && Describes(s, data) && j <= |s.dbs| && |c.data| == |data|
    requires forall i :: 0 <= i < j ==> c.data[i] == data[i]
    requires forall i :: j <= i < |data| ==> c.data[i] == map[]
    ensures AllWellSized(DumpFrom(s, j))
    ensures var r := Replay(exec, c, DumpFrom(s, j)); r == c.(data := data, db := r.db)
    decreases |s.dbs| - j
  {
    hide Sane, Replay, DbCommands;
    if j == |s.dbs| {
      assert c.data == data;
      ReplayNothing(exec, c);
    } else {
      DbRebuilds(exec, c, j, s.dbs[j], s.now);
      var c1 := Replay(exec, c, DbCommands(j, s.dbs[j], s.now));
      assert c1 == c.(data := c.data[j := data[j]], db := c1.db);
      DumpRebuilds(exec, c1, s, data, j + 1);
      ReplayConcat(exec, c, DbCommands(j, s.dbs[j], s.now), DumpFrom(s, j + 1));
    }
  }

  /** Loading the rewritten file recreates the dataset, and goes on with whatever follows it. */
  lemma DumpLoads(exec: Exec, s: Snapshot, data: Dataset, rest: bytes) returns (db: nat)
    requires Sane(exec) && Describes(s, data)
    ensures Load(exec, Fresh(|data|), Dump(s) + rest) == Load(exec, Client(data, db, false, false), rest)
    ensures AllWellSized(DumpFrom(s, 0))
  {
    DumpRebuilds(exec, Fresh(|data|), s, data, 0);
    LoadReplays(exec, Fresh(|data|), DumpFrom(s, 0), rest);
    db := Replay(exec, Fresh(|data|), DumpFrom(s, 0)).db;
  }

  // ---- the loops that write the commands

  lemma {:induction false} FlatConcat(x: seq<Argv>, y: seq<Argv>)
    ensures Flat(x + y) == Flat(x) + Flat(y)
  {
    if x == [] {
      assert x + y == y;
    } else {
      assert (x + y)[1..] == x[1..] + y;
      FlatConcat(x[1..], y);
    }
  }

  /** A variadic command of the items `group`, written up to and including its first `n` items. */
  function Started(kind: Kind, key: bytes, group: seq<Argv>, n: nat): bytes
    requires n <= |group|
  {
    Line(STAR, 2 + |group| * Width(kind)) + (Bulks([Name(kind), key]) + Bulks(Flat(group[..n])))
  }

  lemma StartedStep(kind: Kind, key: bytes, group: seq<Argv>, n: nat)
    requires n < |group|
    ensures Started(kind, key, group, n + 1) == Started(kind, key, group, n) + Bulks(group[n])
  {
    hide Bulks, Line, Width;
    var one: seq<Argv> := [group[n]];
    assert group[..n + 1] == group[..n] + one;
    FlatConcat(group[..n], one);
    assert one[1..] == [] && Flat(one) == group[n] + [] == group[n];
    BulksConcat(Flat(group[..n]), group[n]);
    var a, b := Line(STAR, 2 + |group| * Width(kind)), Bulks([Name(kind), key]);
    var c, d := Bulks(Flat(group[..n])), Bulks(group[n]);
    assert a + (b + (c + d)) == (a + (b + c)) + d;
  }

  /** A command written up to its last item is the whole command: its header counts its arguments. */
  lemma StartedWhole(kind: Kind, key: bytes, group: seq<Argv>)
    requires ItemsOk(kind, group)
    ensures Started(kind, key, group, |group|) == EncodeCommand(VariadicCommand(kind, key, group))
  {
    assert group[..|group|] == group;
    FlatSized(kind, group);
    BulksConcat([Name(kind), key], Flat(group));
  }

  /** The items from the start of the current group on: what is written, and what is to come. */
  lemma GroupDone(kind: Kind, key: bytes, items: seq<Argv>)
    requires items != [] && ItemsOk(kind, items)
    ensures var g := Min(ITEMS_PER_CMD, |items|);
            EncodeAll(Groups(kind, key, items))
            == Started(kind, key, items[..g], g) + EncodeAll(Groups(kind, key, items[g..]))
  {
    var g := Min(ITEMS_PER_CMD, |items|);
    StartedWhole(kind, key, items[..g]);
    assert Groups(kind, key, items)[1..] == Groups(kind, key, items[g..]);
  }

  /** One turn of the loop of `rewriteListObject`: the header of a new command when the counter is
      zero, then the item. `done` is what precedes the command. */
  method WriteOne(r0: bytes, ghost done: bytes, kind: Kind, key: bytes, ghost group: seq<Argv>,
                  cmdItems: nat, item: Argv, count: nat) returns (r: bytes)
    requires count < |group| == cmdItems && group[count] == item
    requires r0 == done + if count == 0 then [] else Started(kind, key, group, count)
    ensures r == done + Started(kind, key, group, count + 1)
  {
    hide Started, Line, Bulk;
    r := r0;
    StartedStep(kind, key, group, count);
    if count == 0 {
      StartedNone(kind, key, group);
      r := CatLine(r, STAR, 2 + cmdItems * Width(kind));
      r := CatBulk(r, Name(kind));
      r := CatBulk(r, key);
    }
    r := WriteItem(r, item);
  }

  /** `rewriteListObject`, `rewriteSetObject` and `rewriteHashObject`: one loop over the items that
      starts a new command whenever the counter is zero. */
  method RewriteCollection(out: bytes, kind: Kind, key: bytes, items: seq<Argv>) returns (r: bytes)
    requires ItemsOk(kind, items)
    ensures r == out + EncodeAll(Groups(kind, key, items))
  {
    hide Groups, Started, EncodeAll, ItemsOk;
    var count, left, cmdItems, i := 0, |items|, 0, 0;
    ghost var done, rest := out, items;  // the complete commands, and the items after them
    r := out;
    while i < |items|
      invariant i <= |items| && left == |items| - i && 0 <= count < ITEMS_PER_CMD && count <= i
      invariant rest == items[i - count..] && ItemsOk(kind, rest)
      invariant done + EncodeAll(Groups(kind, key, rest)) == out + EncodeAll(Groups(kind, key, items))
      invariant count > 0 ==> cmdItems == Min(ITEMS_PER_CMD, |rest|)
      invariant r == done + if count == 0 then [] else Started(kind, key, rest[..cmdItems], count)
    {
      if count == 0 { cmdItems := Min(ITEMS_PER_CMD, left); }
      r := WriteOne(r, done, kind, key, rest[..cmdItems], cmdItems, items[i], count);
      i := i + 1;
      count := count + 1;
      if count == ITEMS_PER_CMD {
        GroupDone(kind, key, rest);
        RestOk(kind, rest, count);
        done, rest, count := r, rest[count..], 0;
      }
      left := left - 1;
    }
    if count > 0 {
      GroupDone(kind, key, rest);
      NoGroups(kind, key, rest[cmdItems..]);
    } else {
      NoGroups(kind, key, rest);
    }
  }

  lemma RestOk(kind: Kind, items: seq<Argv>, n: nat)
    requires ItemsOk(kind, items) && n <= |items|
    ensures ItemsOk(kind, items[n..])
  {
  }

  lemma NoGroups(kind: Kind, key: bytes, items: seq<Argv>)
    requires items == []
    ensures EncodeAll(Groups(kind, key, items)) == []
  {
  }

  lemma StartedNone(kind: Kind, key: bytes, group: seq<Argv>)
    ensures Started(kind, key, group, 0)
         == Line(STAR, 2 + |group| * Width(kind)) + Bulk(Name(kind)) + Bulk(key)
  {
    BulksOne(Name(kind));
    BulksOne(key);
    BulksConcat([Name(kind)], [key]);
    assert Flat(group[..0]) == [] && Bulks([]) == [];
  }

  /** The one or two arguments of an item. */
  method WriteItem(out: bytes, item: Argv) returns (r: bytes)
    ensures r == out + Bulks(item)
  {
    hide Bulk;
    r := out;
    var j := 0;
    while j < |item|
      invariant j <= |item| && r == out + Bulks(item[..j])
    {
      BulksSnoc(item, j);
      r := CatBulk(r, item[j]);
      j := j + 1;
    }
    assert item[..j] == item;
  }

  /** A value of any type: SET for a string, the groups for a collection. */
  method RewriteObject(out: bytes, key: bytes, o: Obj) returns (r: bytes)
    requires ObjOk(o)
    ensures r == out + EncodeAll(ObjCommands(key, o))
  {
    match o
    case PlainString(s) =>
      r := CatCommand(out, [SET, key, s]);
      EncodeOne([SET, key, s]);
    case Collection(kind, items) =>
      r := RewriteCollection(out, kind, key, items);
  }

  /** The loops of `rewriteAppendOnlyFile` over the databases and their keys. */
  method RewriteFile(s: Snapshot) returns (out: bytes)
    requires SnapshotOk(s)
    ensures out == Dump(s)
  {
    hide DbCommands, EncodeAll;
    out := [];
    var j := 0;
    while j < |s.dbs|
      invariant j <= |s.dbs| && out + EncodeAll(DumpFrom(s, j)) == EncodeAll(DumpFrom(s, 0))
    {
      EncodeAllConcat(DbCommands(j, s.dbs[j], s.now), DumpFrom(s, j + 1));
      out := RewriteDb(out, j, s.dbs[j], s.now);
      j := j + 1;
    }
    NoCommands();
  }

  method RewriteDb(out: bytes, j: nat, l: Listing, now: int) returns (r: bytes)
    requires ListingOk(l)
    ensures r == out + EncodeAll(DbCommands(j, l, now))
  {
    hide ListingCommands, EncodeAll, EncodeCommand;
    r := out;
    NoCommands();
    if l != [] {
      EncodeAllConcat([[SELECT, Dec(j)]], ListingCommands(l, now));
      EncodeOne([SELECT, Dec(j)]);
      var index := LongLongToString(j);
      r := CatCommand(r, [SELECT, index]);
      r := RewriteListing(r, l, now);
    }
  }

  /** A key: its value, and its expire time when it has one. */
  method RewriteEntry(out: bytes, e: Listed) returns (r: bytes)
    requires ListedOk(e)
    ensures r == out + EncodeAll(ListedCommands(e))
  {
    hide EncodeCommand, ObjCommands;
    r := RewriteObject(out, e.key, e.o);
    EncodeAllConcat(ObjCommands(e.key, e.o), ExpireCommands(e.key, e.expire));
    NoCommands();
    if e.expire != NO_EXPIRE {
      var time := LongLongToString(e.expire);
      EncodeOne([PEXPIREAT, e.key, time]);
      r := CatCommand(r, [PEXPIREAT, e.key, time]);
    }
  }

  method RewriteListing(out: bytes, l: Listing, now: int) returns (r: bytes)
    requires ListingOk(l)
    ensures r == out + EncodeAll(ListingCommands(l, now))
  {
    hide ListedCommands, EncodeAll;
    r := out;
    var k := 0;
    while k < |l|
      invariant k <= |l| && r + EncodeAll(ListingCommands(l[k..], now)) == out + EncodeAll(ListingCommands(l, now))
    {
      assert l[k..][1..] == l[k + 1..];
      if Expired(l[k], now) {
        assert ListingCommands(l[k..], now) == ListingCommands(l[k + 1..], now);
      } else {
        EncodeAllConcat(ListedCommands(l[k]), ListingCommands(l[k + 1..], now));
        r := RewriteEntry(r, l[k]);
      }
      k := k + 1;
    }
    NoCommands();
  }

  lemma NoCommands()
    ensures EncodeAll([]) == []
  {
  }
}
