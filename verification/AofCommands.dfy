/** A command table that is `Sane`: what the rewrite needs of SET, RPUSH, SADD, ZADD, HMSET and PEXPIREAT can
    be had, because a command line tells its kind, key and items. */
module AofCommands {
  import opened Bytes
  import opened Decimal
  import opened Resp
  import opened AofLoader
  import opened AofRewrite

  ghost predicate IsVariadic(argv: Argv, kind: Kind, key: bytes, items: seq<Argv>) {
    items != [] && ItemsOk(kind, items) && argv == VariadicCommand(kind, key, items)
  }

  /** The effect of the six commands; there are no others. */
  ghost function Table(data: Dataset, db: nat, argv: Argv): Option<Dataset> {
    if db >= |data| then None
    else if |argv| == 3 && argv[0] == SET then Some(With(data, db, argv[1], Stored(Str(argv[2]), NO_EXPIRE)))
    else if |argv| == 3 && argv[0] == PEXPIREAT then
      if argv[1] in data[db] && ParseLL(argv[2]).Some?
      then Some(With(data, db, argv[1], data[db][argv[1]].(expire := ParseLL(argv[2]).value))) else None
    else if kind, key, items :| IsVariadic(argv, kind, key, items) && OfKind(kind, Current(data[db], kind, key)) then
      Some(With(data, db, key, Grown(data[db], kind, key, items)))
    else None
  }

  lemma {:induction false} FlatInjective(kind: Kind, x: seq<Argv>, y: seq<Argv>)
    requires ItemsOk(kind, x) && ItemsOk(kind, y) && Flat(x) == Flat(y)
    ensures x == y
  {
    if x != [] && y != [] {
      assert Flat(x)[..Width(kind)] == x[0] && Flat(y)[..Width(kind)] == y[0];
      assert Flat(x)[Width(kind)..] == Flat(x[1..]) && Flat(y)[Width(kind)..] == Flat(y[1..]);
      FlatInjective(kind, x[1..], y[1..]);
      assert x == [x[0]] + x[1..] && y == [y[0]] + y[1..];
    }
  }

  /** Kind, key and items can be read off a command. */
  lemma VariadicInjective(argv: Argv, kind: Kind, key: bytes, items: seq<Argv>,
                          kind': Kind, key': bytes, items': seq<Argv>)
    requires IsVariadic(argv, kind, key, items) && IsVariadic(argv, kind', key', items')
    ensures kind == kind' && key == key' && items == items'
    ensures argv[0] != SET && argv[0] != PEXPIREAT
  {
    assert |RPUSH| == 5 && |HMSET| == 5 && |SADD| == 4 && |ZADD| == 4 && |SET| == 3 && |PEXPIREAT| == 9;
    assert RPUSH[0] != HMSET[0] && SADD[0] != ZADD[0];
    assert argv[2..] == Flat(items) && argv[2..] == Flat(items');
    FlatInjective(kind, items, items');
  }

  lemma TableRuns(data: Dataset, db: nat, kind: Kind, key: bytes, items: seq<Argv>)
    requires db < |data| && items != [] && ItemsOk(kind, items) && OfKind(kind, Current(data[db], kind, key))
    ensures Table(data, db, VariadicCommand(kind, key, items))
         == Some(With(data, db, key, Grown(data[db], kind, key, items)))
  {
    var argv := VariadicCommand(kind, key, items);
    assert IsVariadic(argv, kind, key, items);
    forall kind', key', items' | IsVariadic(argv, kind', key', items')
      ensures kind == kind' && key == key' && items == items' && argv[0] != SET && argv[0] != PEXPIREAT
    {
      VariadicInjective(argv, kind, key, items, kind', key', items');
    }
  }

  /** What is assumed of the command table can be met. */
  lemma TableIsSane()
    ensures Sane(Table)
  {
    forall data: Dataset, db, kind, key, items
      | 0 <= db < |data| && items != [] && ItemsOk(kind, items) && OfKind(kind, Current(data[db], kind, key))
      ensures Table(data, db, VariadicCommand(kind, key, items))
           == Some(With(data, db, key, Grown(data[db], kind, key, items)))
    {
      TableRuns(data, db, kind, key, items);
    }
    forall data: Dataset, db, key, ms | 0 <= db < |data| && key in data[db] && 0 <= ms <= LLONG_MAX
      ensures Table(data, db, [PEXPIREAT, key, Dec(ms)]) == Some(With(data, db, key, data[db][key].(expire := ms)))
    {
      ParseLLDec(ms);
      assert |PEXPIREAT| == 9 && |SET| == 3;
    }
  }
}
