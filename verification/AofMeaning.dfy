/** What the commands of the append-only file mean in plain terms: the names, the bytes of a command, the
    times of the commands that set one, and the values that the rewriting commands build. */
module AofMeaning {
  import opened Bytes
  import opened Decimal
  import opened Resp
  import opened AofLoader
  import opened AofRewrite
  import opened AofProtocol

  // ---- names and bytes

  lemma NamesAre()
    ensures SET == Ascii("SET") && RPUSH == Ascii("RPUSH") && SADD == Ascii("SADD") && ZADD == Ascii("ZADD")
    ensures HMSET == Ascii("HMSET") && PEXPIREAT == Ascii("PEXPIREAT") && SELECT == Ascii("SELECT")
    ensures MULTI == Ascii("MULTI") && EXEC == Ascii("EXEC") && DISCARD == Ascii("DISCARD")
    ensures EXPIRE == Ascii("EXPIRE") && PEXPIRE == Ascii("PEXPIRE") && EXPIREAT == Ascii("EXPIREAT")
    ensures SETEX == Ascii("SETEX") && PSETEX == Ascii("PSETEX")
  {
  }

  /** One letter and the other are the same but for its case. */
  predicate SameLetter(a: byte, b: byte) {
    a == b || (65 <= a <= 90 && b == a + 32) || (65 <= b <= 90 && a == b + 32)
  }

  lemma NamedIff(name: bytes, command: bytes)
    ensures Named(name, command) <==>
              |name| == |command| && forall i :: 0 <= i < |name| ==> SameLetter(name[i], command[i])
  {
    if Named(name, command) {
      assert forall i :: 0 <= i < |name| ==> Lower(name[i]) == Lower(command[i]);
    }
  }

  lemma BulkBytes()
    ensures Line(STAR, 3) == Ascii("*3\r\n") && Bulk(Ascii("SET")) == Ascii("$3\r\nSET\r\n")
    ensures Bulk(Ascii("key")) == Ascii("$3\r\nkey\r\n")
  {
    assert Digits(3) == [51];
  }

  lemma LongBulkBytes(a: bytes)
    requires |a| == 12
    ensures Bulk(a) == Ascii("$12\r\n") + a + Ascii("\r\n")
  {
    assert Digits(12) == [49, 50];
    assert Line(DOLLAR, 12) == Ascii("$12\r\n");
  }

  /** A command as it is in the file and on the wire. */
  lemma CommandBytes()
    ensures EncodeCommand([Ascii("SET"), Ascii("key"), Ascii("hello worlds")])
         == Ascii("*3\r\n") + Ascii("$3\r\nSET\r\n") + Ascii("$3\r\nkey\r\n") 
          + (Ascii("$12\r\n") + Ascii("hello worlds") + Ascii("\r\n"))
  {
    var a, b, c := Ascii("SET"), Ascii("key"), Ascii("hello worlds");
    BulkBytes();
    LongBulkBytes(c);
    hide Ascii, Bulk, Line;
    BulksOne(c);
    BulksConcat([a], [b]);
    BulksConcat([a, b], [c]);
    BulksOne(a);
    BulksOne(b);
    assert [a] + [b] == [a, b] && [a, b] + [c] == [a, b, c];
    ConcatAssoc(Line(STAR, 3), Bulk(a) + Bulk(b), Bulk(c));
    ConcatAssoc(Line(STAR, 3), Bulk(a), Bulk(b));
  }

  // ---- commands that set a time

  lemma {:induction false} RunsTwo(exec: Exec, data: Dataset, db: nat, x: Argv, y: Argv)
    requires exec(data, db, x).Some?
    ensures RunAll(exec, data, db, [x, y]) == exec(exec(data, db, x).value, db, y)
  {
    var cmds: seq<Argv> := [x, y];
    assert cmds[1..] == [y];
    RunsOne(exec, exec(data, db, x).value, db, y);
  }

  lemma {:induction false} RunsOne(exec: Exec, data: Dataset, db: nat, x: Argv)
    ensures RunAll(exec, data, db, [x]) == exec(data, db, x)
  {
    var cmds: seq<Argv> := [x];
    assert cmds[1..] == [];
  }

  /** A name is that of at most one of these commands. */
  lemma OneName(name: bytes)
    ensures Named(name, SETEX) ==> !Named(name, PSETEX) && !Named(name, EXPIRE) && !Named(name, EXPIREAT)
    ensures Named(name, PSETEX) ==> !Named(name, EXPIRE) && !Named(name, EXPIREAT)
    ensures Named(name, PEXPIRE) ==> !Named(name, EXPIRE) && !Named(name, EXPIREAT) && !Named(name, SETEX)
    ensures Named(name, EXPIRE) ==> !Named(name, EXPIREAT) && !Named(name, PEXPIRE)
    ensures Named(name, EXPIREAT) ==> !Named(name, EXPIRE) && !Named(name, PEXPIRE)
  {
    assert |SETEX| == 5 && |PSETEX| == |EXPIRE| == 6 && |PEXPIRE| == 7 && |EXPIREAT| == 8;
    assert Lower(PSETEX[0]) == 112 && Lower(EXPIRE[0]) == 101;
  }

  /** SETEX and PSETEX set the value, and the time at which the key expires, seconds or milliseconds from
      now. */
  lemma SetexSets(exec: Exec, data: Dataset, db: nat, name: bytes, key: bytes, time: int, value: bytes, now: int)
    requires Sane(exec) && db < |data|
    requires Named(name, SETEX) || Named(name, PSETEX)
    requires 0 <= (if Named(name, SETEX) then now + 1000 * time else now + time) <= LLONG_MAX
    ensures Effect(exec, data, db, [name, key, Dec(time), value], now)
         == data[db := data[db][key := Stored(Str(value), if Named(name, SETEX) then now + 1000 * time
                                                          else now + time)]]
  {
    OneName(name);
    StrtolDec(time, []);
    var argv: Argv := [name, key, Dec(time), value];
    var when := if Named(name, SETEX) then now + 1000 * time else now + time;
    hide Named, Strtol, Dec;
    assert When(argv, now) == when;
    assert Translated(argv, now) == [[SET, key, value], [PEXPIREAT, key, Dec(when)]];
    hide When, Translated;
    RunsTwo(exec, data, db, [SET, key, value], [PEXPIREAT, key, Dec(when)]);
    hide RunAll;
    var one := With(data, db, key, Stored(Str(value), NO_EXPIRE));
    assert exec(data, db, [SET, key, value]) == Some(one);
    assert exec(one, db, [PEXPIREAT, key, Dec(when)]) == Some(With(one, db, key, one[db][key].(expire := when)));
    WithTwice(data, db, key, Stored(Str(value), NO_EXPIRE), Stored(Str(value), when));
  }

  lemma WithTwice(data: Dataset, db: nat, key: bytes, x: Stored, y: Stored)
    requires db < |data|
    ensures var one := With(data, db, key, x);
      one[db][key] == x && With(one, db, key, y) == data[db := data[db][key := y]]
  {
    assert data[db][key := x][key := y] == data[db][key := y];
  }

  /** EXPIRE, PEXPIRE and EXPIREAT of a key that is there change the time at which it expires, and nothing
      else. */
  lemma ExpireSets(exec: Exec, data: Dataset, db: nat, name: bytes, key: bytes, time: int, now: int)
    requires Sane(exec) && db < |data| && key in data[db]
    requires Named(name, EXPIRE) || Named(name, PEXPIRE) || Named(name, EXPIREAT)
    requires var when := if Named(name, EXPIRE) then now + 1000 * time
                         else if Named(name, PEXPIRE) then now + time else 1000 * time;
      0 <= when <= LLONG_MAX
    ensures var when := if Named(name, EXPIRE) then now + 1000 * time
                        else if Named(name, PEXPIRE) then now + time else 1000 * time;
      Effect(exec, data, db, [name, key, Dec(time)], now)
      == data[db := data[db][key := Stored(data[db][key].value, when)]]
  {
    OneName(name);
    StrtolDec(time, []);
    var argv: Argv := [name, key, Dec(time)];
    var when := if Named(name, EXPIRE) then now + 1000 * time
                else if Named(name, PEXPIRE) then now + time else 1000 * time;
    hide Named, Strtol, Dec;
    assert When(argv, now) == when;
    assert Translated(argv, now) == [[PEXPIREAT, key, Dec(when)]];
    hide When, Translated;
    RunsOne(exec, data, db, [PEXPIREAT, key, Dec(when)]);
    assert exec(data, db, [PEXPIREAT, key, Dec(when)]) == Some(With(data, db, key, data[db][key].(expire := when)));
    hide RunAll;
  }

  /** Every other command is fed as it is and does what the command table says. */
  lemma OthersUntouched(exec: Exec, data: Dataset, db: nat, argv: Argv, now: int)
    requires |argv| != 3 || !(Named(argv[0], EXPIRE) || Named(argv[0], PEXPIRE) || Named(argv[0], EXPIREAT))
    requires |argv| != 4 || !(Named(argv[0], SETEX) || Named(argv[0], PSETEX))
    ensures Translated(argv, now) == [argv]
    ensures Effect(exec, data, db, argv, now) == match exec(data, db, argv) case Some(d) => d case None => data
  {
    RunsOne(exec, data, db, argv);
    hide Named, RunAll, When;
  }

  // ---- the values that commands build

  lemma OneItem(items: seq<Argv>)
    requires items != [] && ItemsOk(Lists, items)
    ensures ItemsOk(Lists, items[1..]) && items[0] == [items[0][0]]
  {
  }

  /** RPUSH appends its items, in their order. */
  lemma {:induction false} ListBuilt(v: Value, items: seq<Argv>)
    requires v.List? && ItemsOk(Lists, items)
    ensures AddItems(Lists, v, items) == List(v.items + Flat(items))
    decreases |items|
  {
    if items != [] {
      var more := AddItem(Lists, v, items[0]);
      OneItem(items);
      ListBuilt(more, items[1..]);
      hide AddItem;
      assert more.items + Flat(items[1..]) == v.items + ([items[0][0]] + Flat(items[1..]));
    }
  }

  /** SADD adds its items, and nothing else. */
  lemma {:induction false} SetBuilt(v: Value, items: seq<Argv>, x: bytes)
    requires v.Set? && ItemsOk(Sets, items)
    ensures x in AddItems(Sets, v, items).members <==> x in v.members || x in Flat(items)
    decreases |items|
  {
    if items != [] { SetBuilt(AddItem(Sets, v, items[0]), items[1..], x); }
  }

  /** The value that the last of the pairs gives to a name, if one does. */
  function Given(pairs: seq<Argv>, name: bytes, at: nat): Option<bytes>
    requires at < 2 && forall i :: 0 <= i < |pairs| ==> |pairs[i]| == 2
  {
    if pairs == [] then None
    else
      var last := pairs[|pairs| - 1];
      if last[at] == name then Some(last[1 - at]) else Given(pairs[..|pairs| - 1], name, at)
  }

  function Lookup(m: map<bytes, bytes>, name: bytes): Option<bytes> {
    if name in m then Some(m[name]) else None
  }

  function Names(v: Value): map<bytes, bytes>
    requires v.Hash? || v.ZSet?
  {
    if v.Hash? then v.fields else v.scores
  }

  lemma ItemNamed(kind: Kind, v: Value, item: Argv, name: bytes)
    requires (kind.Hashes? || kind.SortedSets?) && OfKind(kind, v) && |item| == 2
    ensures var at := if kind.Hashes? then 0 else 1;
      Lookup(Names(AddItem(kind, v, item)), name)
      == if item[at] == name then Some(item[1 - at]) else Lookup(Names(v), name)
  {
  }

  /** HMSET sets fields to the values that follow them, ZADD members to the scores in front of them; the
      last one counts, and what is not named stays. */
  lemma {:induction false} PairsAdded(kind: Kind, v: Value, items: seq<Argv>, name: bytes)
    requires (kind.Hashes? || kind.SortedSets?) && OfKind(kind, v) && ItemsOk(kind, items)
    ensures var given := Given(items, name, if kind.Hashes? then 0 else 1);
      Lookup(Names(AddItems(kind, v, items)), name) == if given.Some? then given else Lookup(Names(v), name)
    decreases |items|
  {
    if items != [] {
      var front, last := items[..|items| - 1], items[|items| - 1];
      PairsAdded(kind, v, front, name);
      AddItemsConcat(kind, v, front, [last]);
      assert items == front + [last];
      var before := AddItems(kind, v, front);
      assert AddItems(kind, before, [last]) == AddItem(kind, before, last);
      ItemNamed(kind, before, last, name);
      hide AddItems, AddItem, Names, Lookup;
    }
  }

  /** Lists are rewritten by RPUSH, sets by SADD, sorted sets by ZADD and hashes by HMSET. */
  lemma CommandOfKind(key: bytes, items: seq<Argv>)
    ensures VariadicCommand(Lists, key, items) == [Ascii("RPUSH"), key] + Flat(items)
    ensures VariadicCommand(Sets, key, items) == [Ascii("SADD"), key] + Flat(items)
    ensures VariadicCommand(SortedSets, key, items) == [Ascii("ZADD"), key] + Flat(items)
    ensures VariadicCommand(Hashes, key, items) == [Ascii("HMSET"), key] + Flat(items)
  {
    NamesAre();
  }

  // ---- what the rewrite keeps

  /** The entry is for the key and has time to live. */
  ghost predicate Alive(e: Listed, now: int, key: bytes) {
    e.key == key && (e.expire == -1 || e.expire >= now)
  }

  lemma {:induction false} LoadedIs(ks: Keyspace, l: Listing, now: int, key: bytes)
    requires ListingOk(l)
    ensures key in Loaded(ks, l, now) <==> key in ks || exists i :: 0 <= i < |l| && Alive(l[i], now, key)
    ensures forall i :: 0 <= i < |l| && Alive(l[i], now, key) ==>
              Loaded(ks, l, now)[key] == Stored(Meaning(l[i].o), l[i].expire)
    ensures key in ks && (forall i :: 0 <= i < |l| ==> !Alive(l[i], now, key)) ==> Loaded(ks, l, now)[key] == ks[key]
    decreases |l|
  {
    if l != [] {
      var rest := l[1..];
      var ks' := if Expired(l[0], now) then ks else ks[l[0].key := Stored(Meaning(l[0].o), l[0].expire)];
      assert Alive(l[0], now, key) <==> l[0].key == key && !Expired(l[0], now);
      LoadedIs(ks', rest, now, key);
      hide Alive, Meaning, Expired, ListedOk;
      assert forall i :: 0 < i < |l| ==> l[i] == rest[i - 1];
      assert forall i :: 0 <= i < |rest| ==> rest[i] == l[i + 1];
      assert Loaded(ks, l, now) == Loaded(ks', rest, now);
    }
  }

  /** The dataset that the dump recreates has exactly the keys listed that have no time to live, or have it
      left, with their values and times. */
  lemma DumpKeeps(s: Snapshot, data: Dataset, j: nat, key: bytes)
    requires Describes(s, data) && j < |data|
    ensures key in data[j]
       <==> exists i :: 0 <= i < |s.dbs[j]| && s.dbs[j][i].key == key
                        && (s.dbs[j][i].expire == -1 || s.dbs[j][i].expire >= s.now)
    ensures forall i :: 0 <= i < |s.dbs[j]| && s.dbs[j][i].key == key && key in data[j] ==>
              data[j][key] == Stored(Meaning(s.dbs[j][i].o), s.dbs[j][i].expire)
  {
    var l := s.dbs[j];
    LoadedIs(map[], l, s.now, key);
    hide Loaded, Meaning;
    assert data[j] == Loaded(map[], l, s.now);
  }

  // ---- what the loader refuses

  /** A command that the table does not have stops the load, wherever it is in the file. */
  lemma UnknownIsRefused(exec: Exec, c: Client, argv: Argv, rest: bytes)
    requires WellSized(argv) && Ordinary(argv[0]) && exec(c.data, c.db, argv) == None
    ensures Load(exec, c, EncodeCommand(argv) + rest) == None
  {
    ParseReads(argv, rest);
    StoppedFails(exec, RunOne(exec, c, argv), rest);
    hide EncodeCommand, ParseCommand, Named;
    assert RunOne(exec, c, argv).stopped;
  }

  lemma ShortNumber(count: int)
    requires -LLONG_MAX <= count < 1
    ensures 1 <= |Dec(count)| <= 20 && forall i :: 0 <= i < |Dec(count)| ==> Dec(count)[i] != LF
  {
    LongLongDigits(-count);
    hide Digits;
  }

  lemma CountLine(number: bytes, rest: bytes)
    requires |number| <= 20 && forall i :: 0 <= i < |number| ==> number[i] != LF
    ensures var s := [STAR] + number + CRLF + rest; var l := Fgets(s, LINE_MAX);
      s[0] == STAR && l == |number| + 3 && s[1..l] == number + CRLF
  {
    var s := [STAR] + number + CRLF + rest;
    assert s[|number| + 1] == CR && s[|number| + 2] == LF;
    assert forall i :: 1 <= i <= |number| ==> s[i] == number[i - 1];
    FgetsIs(s, |number| + 3, LINE_MAX);
    hide Fgets;
  }

  lemma CountRefused(count: int, rest: bytes)
    requires -LLONG_MAX <= count < 1
    ensures ParseCommand([STAR] + Dec(count) + CRLF + rest) == Bad
  {
    ShortNumber(count);
    StrtolDec(count, CRLF);
    hide Strtol, Dec, Fgets, ParseArgs;
    CountLine(Dec(count), rest);
  }

  /** So do bytes that do not begin as a command does, and a count below one. */
  lemma MalformedIsRefused(exec: Exec, c: Client, count: int, rest: bytes)
    ensures rest != [] && rest[0] != 42 ==> Load(exec, c, rest) == None
    ensures -LLONG_MAX <= count < 1 ==> Load(exec, c, [STAR] + Dec(count) + CRLF + rest) == None
  {
    if -LLONG_MAX <= count < 1 { CountRefused(count, rest); }
  }

  /** The loader starts with empty databases, in the first of them. */
  lemma FirstDatabase(exec: Exec, dbnum: nat, argv: Argv)
    requires WellSized(argv) && Ordinary(argv[0]) && exec(seq(dbnum, _ => map[]), 0, argv).Some?
    ensures var r := Load(exec, Fresh(dbnum), EncodeCommand(argv));
      r.Some? && r.value.data == exec(seq(dbnum, _ => map[]), 0, argv).value && r.value.db == 0
  {
    var c := Fresh(dbnum);
    var empty: Dataset := seq(dbnum, _ => map[]);
    assert c.data == empty;
    ParseReads(argv, []);
    assert EncodeCommand(argv) + [] == EncodeCommand(argv);
    OrdinaryStep(exec, c, argv);
    hide EncodeCommand, Named, RunOne, Ordinary;
    assert Load(exec, c, EncodeCommand(argv)) == Load(exec, RunOne(exec, c, argv), []);
  }
}
