/** rdb.c with crc64.c: the checksum at the end of a file, and what it protects. */
module RdbChecksum {
  import opened Bytes
  import opened Decimal
  import opened RdbStrings
  import opened RdbObjects
  import opened Rdb
  import Crc64
  import opened Crc64Table
  import opened Octet

  function Octets(b: bytes): (r: seq<octet>)
    ensures |r| == |b|
  {
    seq(|b|, i requires 0 <= i < |b| => ToOctet(b[i]))
  }

  function FromOctets(s: seq<octet>): (r: bytes)
    ensures |r| == |s|
  {
    seq(|s|, i requires 0 <= i < |s| => s[i] as int)
  }

  lemma OctetsBack(s: seq<octet>)
    ensures Octets(FromOctets(s)) == s
  {
    forall i | 0 <= i < |s| ensures Octets(FromOctets(s))[i] == s[i] {
      OctetOf(s[i]);
    }
  }

  lemma OctetsConcat(a: bytes, b: bytes)
    ensures Octets(a + b) == Octets(a) + Octets(b)
  {
    hide ToOctet;
  }

  lemma OctetsTell(b: bytes, c: bytes)
    requires Octets(b) == Octets(c)
    ensures b == c
  {
    forall i | 0 <= i < |b| ensures b[i] == c[i] {
      assert Octets(b)[i] == Octets(c)[i];
    }
  }

  /** The checksum of a file: its CRC as eight bytes, the lowest first. */
  function FileSum(b: bytes): bytes {
    FromOctets(Crc64.WordBytes(Crc64.Crc(0, Octets(b)), 8))
  }

  // ---- damage

  /** The last eight bytes are the checksum of those before. */
  ghost predicate Summed(b: bytes) {
    |b| >= 8 && b[|b| - 8..] == FileSum(b[..|b| - 8])
  }

  /** The strings are of one length and agree except, at most, in the eight bytes from `at` on. */
  ghost predicate SameBut(b: bytes, q: bytes, at: nat) {
    |b| == |q| && at <= |b| && forall i :: 0 <= i < |b| && !(at <= i < at + 8) ==> b[i] == q[i]
  }

  /** `rdbSave` with checksums on writes such a file. */
  method SaveSummed(dbs: seq<seq<Entry>>, now: int, compression: bool) returns (b: bytes)
    requires SaveableDataset(dbs)
    ensures FileOf(b, dbs, now, FileSum) && Summed(b)
  {
    FileSumIsSum();
    hide FileSum, SaveableDataset, FileOf;
    b := Save(dbs, now, compression, FileSum, true);
  }

  lemma FileSumIsSum()
    ensures IsSum(FileSum)
  {
    hide Octets, Crc64.Crc, Crc64.WordBytes;
  }

  /** With its checksum a string is a code word. */
  lemma SummedIsZero(b: bytes)
    requires Summed(b)
    ensures Crc64.Crc(0, Octets(b)) == 0
  {
    var m := b[..|b| - 8];
    Crc64.OwnChecksum(Octets(m));
    OctetsBack(Crc64.WordBytes(Crc64.Crc(0, Octets(m)), 8));
    OctetsConcat(m, FileSum(m));
    assert b == m + b[|b| - 8..];
    hide Octets, Crc64.Crc;
  }

  lemma SameOctets(b: bytes, q: bytes, at: nat)
    requires SameBut(b, q, at)
    ensures Crc64.SameOutside(Octets(b), Octets(q), at)
  {
    hide ToOctet;
  }

  /** Of two strings that differ only within eight bytes in a row at most one ends with its checksum. */
  lemma DamageShows(b: bytes, q: bytes, at: nat)
    requires Summed(b) && SameBut(b, q, at) && q != b
    ensures !Summed(q)
  {
    if Summed(q) {
      SummedIsZero(b);
      SummedIsZero(q);
      SameOctets(b, q, at);
      hide Summed, SameBut, Octets, Crc64.Crc, Crc64.SameOutside;
      Crc64.DifferenceShows(0, Octets(b), Octets(q), at);
      OctetsTell(b, q);
    }
  }

  /** What the loader finds at the front of a file. */
  predicate HeaderOk(q: bytes) {
    |q| >= 9 && q[..5] == SIGNATURE && 1 <= Version(q) <= RDB_VERSION
  }

  function Version(q: bytes): int
    requires |q| >= 9
  {
    Strtol(q[5..9] + [0])
  }

  /** The records can be read, up to an end mark and the bytes that follow it. */
  predicate RecordsOk(q: bytes, dbnum: nat, env: Env)
    requires dbnum > 0 && |q| >= 9
  {
    LoadRecords(q[9..], Rdb.Empty(dbnum), 0, env).Some?
  }

  function Rest(q: bytes, dbnum: nat, env: Env): (rest: bytes)
    requires dbnum > 0 && |q| >= 9 && RecordsOk(q, dbnum, env)
    ensures |rest| <= |q|
  {
    LoadRecords(q[9..], Rdb.Empty(dbnum), 0, env).value.1
  }

  /** The loader is not stopped by the checksum: the version has none, or zeros follow the end mark, or the
      end mark it met is not the one before the last eight bytes and happens to be followed by the sum of
      what comes before. */
  predicate Overlooked(q: bytes, rest: bytes)
    requires |q| >= 9 && |rest| <= |q|
  {
    || Version(q) < 5
    || (|rest| >= 8 && rest[..8] == Zeros(8))
    || (|rest| >= 8 && rest != q[|q| - 8..] && rest[..8] == FileSum(q[..|q| - |rest|]))
  }

  /** Exactly when a file is loaded that was summed and then damaged within eight bytes in a row, footer
      included. */
  lemma DamagedLoadsIff(b: bytes, q: bytes, at: nat, dbnum: nat, env: Env)
    requires Summed(b) && SameBut(b, q, at) && q != b && dbnum > 0
    ensures Load(q, dbnum, env, FileSum, true).Some?
       <==> HeaderOk(q) && RecordsOk(q, dbnum, env) && Overlooked(q, Rest(q, dbnum, env))
  {
    DamageShows(b, q, at);
    LoadsIff(q, dbnum, env);
    hide FileSum, Load, LoadRecords, SameBut, Version, Rest, RecordsOk;
    if HeaderOk(q) && RecordsOk(q, dbnum, env) { AcceptedIffOverlooked(q, Rest(q, dbnum, env)); }
  }

  /** The comparison with the checksum passes, or there is none. */
  predicate Accepted(q: bytes, rest: bytes)
    requires |q| >= 9 && |rest| <= |q|
  {
    Version(q) < 5 || (|rest| >= 8 && (rest[..8] == Zeros(8) || rest[..8] == FileSum(q[..|q| - |rest|])))
  }

  lemma LoadsIff(q: bytes, dbnum: nat, env: Env)
    requires dbnum > 0
    ensures Load(q, dbnum, env, FileSum, true).Some?
       <==> HeaderOk(q) && RecordsOk(q, dbnum, env) && Accepted(q, Rest(q, dbnum, env))
  {
    hide FileSum, LoadRecords, Strtol;
  }

  lemma AcceptedIffOverlooked(q: bytes, rest: bytes)
    requires |q| >= 9 && |rest| <= |q| && !Summed(q)
    ensures Accepted(q, rest) <==> Overlooked(q, rest)
  {
    hide FileSum, Version;
    if rest == q[|q| - 8..] { assert rest[..8] == rest; }
  }

  /** In particular it is not loaded when the version has a checksum, the last eight bytes are not zero, and
      the end mark comes right before them. */
  lemma DamagedIsNotLoaded(b: bytes, q: bytes, at: nat, dbnum: nat, env: Env)
    requires Summed(b) && SameBut(b, q, at) && q != b && dbnum > 0
    requires HeaderOk(q) ==> Version(q) >= 5
    requires HeaderOk(q) && RecordsOk(q, dbnum, env) ==>
               Rest(q, dbnum, env) == q[|q| - 8..] && Rest(q, dbnum, env) != Zeros(8)
    ensures Load(q, dbnum, env, FileSum, true).None?
  {
    DamagedLoadsIff(b, q, at, dbnum, env);
    hide FileSum, LoadRecords, SameBut, Strtol, Load;
    if HeaderOk(q) && RecordsOk(q, dbnum, env) {
      var rest := Rest(q, dbnum, env);
      assert rest[..8] == rest;
    }
  }

  // ---- where it does not look

  /** A file of a version before 5 is loaded unchecked: changing the version digit of a saved file goes
      unnoticed. */
  lemma OldVersionLoads(b: bytes, dbs: seq<seq<Entry>>, saved: int, dbnum: nat, env: Env)
    requires SaveableDataset(dbs) && FileOf(b, dbs, saved, FileSum) && |dbs| <= dbnum && dbnum > 0
    ensures |b| > 17 && Load(b[8 := 52], dbnum, env, FileSum, true) == Some(Surviving(dbs, dbnum, saved, env))
  {
    hide RecordsBytes, LoadRecords, DatasetRecords, Surviving, SaveableDataset, Strtol, FileSum, Load;
    var records, footer :| IsFile(b, records, footer, dbs, saved, FileSum);
    RecordsLoad(records, footer, dbs, saved, dbnum, env);
    FileParts(records, footer);
    OldVersionReads();
    OldVersion(b, records, footer);
    UncheckedLoads(b[8 := 52], dbnum, env, Surviving(dbs, dbnum, saved, env), footer);
  }

  lemma OldVersion(b: bytes, records: bytes, footer: bytes)
    requires b == MAGIC + records + [OPCODE_EOF] + footer && |footer| == 8
    ensures |b| > 17
    ensures var q := b[8 := 52]; q[..5] == SIGNATURE && q[5..9] == [48, 48, 48, 52] && q[9..] == b[9..]
  {
  }

  lemma UncheckedLoads(q: bytes, dbnum: nat, env: Env, dbs: seq<Db>, footer: bytes)
    requires dbnum > 0 && |q| >= 9 && q[..5] == SIGNATURE && q[5..9] == [48, 48, 48, 52]
    requires LoadRecords(q[9..], Rdb.Empty(dbnum), 0, env) == Some((dbs, footer))
    requires Strtol([48, 48, 48, 52, 0]) == 4
    ensures Load(q, dbnum, env, FileSum, true) == Some(dbs)
  {
    assert q[5..9] + [0] == [48, 48, 48, 52, 0];
    hide LoadRecords, Strtol, FileSum;
  }

  lemma OldVersionReads()
    ensures Strtol([48, 48, 48, 52, 0]) == 4
  {
    var b: bytes := [48, 48, 48, 52, 0];
    var d: bytes := [48, 48, 48, 52];
    assert b[..4] == d;
    DigitRunIs(b, 4);
    assert d[..3] == [48, 48, 48] && d[..3][..2] == [48, 48] && d[..3][..2][..1] == [48] && d[..3][..2][..1][..0] == [];
    assert Decimal.Value(d[..3][..2][..1]) == 0;
    assert Decimal.Value(d[..3][..2]) == 0;
    assert Decimal.Value(d[..3]) == 0;
    assert Decimal.Value(d) == 4;
  }

  /** A file whose footer is zeroed is loaded unchecked. */
  lemma ZeroedFooterLoads(b: bytes, dbs: seq<seq<Entry>>, saved: int, dbnum: nat, env: Env)
    requires SaveableDataset(dbs) && FileOf(b, dbs, saved, FileSum) && |dbs| <= dbnum && dbnum > 0
    ensures |b| > 8
    ensures Load(b[..|b| - 8] + Zeros(8), dbnum, env, FileSum, true) == Some(Surviving(dbs, dbnum, saved, env))
  {
    var records, footer :| IsFile(b, records, footer, dbs, saved, FileSum);
    hide RecordsBytes, SaveableDataset, Surviving, Load, FileSum, DatasetRecords;
    FileParts(records, footer);
    var q := b[..|b| - 8] + Zeros(8);
    assert IsFile(q, records, Zeros(8), dbs, saved, FileSum);
    FileLoads(q, dbs, saved, FileSum, dbnum, env, true);
  }

  /** The file of one string under the empty key, in db 0. */
  function OneString(s: bytes): bytes
    requires |s| < 64
  {
    MAGIC + ([OPCODE_SELECTDB, 0, TYPE_STRING, 0, |s|] + s + [OPCODE_EOF])
  }

  function Holding(s: bytes): seq<Db> {
    [map[[] := Stored(StringValue(s), NO_EXPIRE)]]
  }

  lemma SelectReads(b: bytes, rest: bytes)
    requires b == [OPCODE_SELECTDB, 0] + rest
    ensures LoadRecord(b) == Some((SelectDb(0), rest))
  {
    assert b[1..] == [0] + rest && b[1..][1..] == rest;
  }

  lemma TextReads(b: bytes, s: bytes, rest: bytes)
    requires |s| < 64 && b == [|s|] + s + rest
    ensures LoadString(b) == Some((s, rest))
  {
    assert b[1..] == s + rest;
    assert b[1..][..|s|] == s && b[1..][|s|..] == rest;
  }

  lemma PairReads(b: bytes, s: bytes, rest: bytes)
    requires |s| < 64 && b == [TYPE_STRING, 0, |s|] + s + rest
    ensures LoadRecord(b) == Some((Pair([], StringValue(s), NO_EXPIRE), rest))
  {
    var v: bytes := [|s|] + s + rest;
    assert b[1..] == [0] + [] + v;
    TextReads(b[1..], [], v);
    TextReads(v, s, rest);
    hide LoadString, LoadLen, LoadTime;
  }

  lemma PairApplies(s: bytes, env: Env)
    ensures ApplyRecord(Rdb.Empty(1), 0, SelectDb(0), env) == Some((Rdb.Empty(1), 0))
    ensures ApplyRecord(Rdb.Empty(1), 0, Pair([], StringValue(s), NO_EXPIRE), env) == Some((Holding(s), 0))
  {
    var none := Rdb.Empty(1);
    assert none[0 := none[0][[] := Stored(StringValue(s), NO_EXPIRE)]] == Holding(s);
  }

  lemma OneStringRecords(s: bytes, rest: bytes, env: Env)
    requires |s| < 64
    ensures LoadRecords([OPCODE_SELECTDB, 0, TYPE_STRING, 0, |s|] + s + ([OPCODE_EOF] + rest), Rdb.Empty(1), 0, env)
         == Some((Holding(s), rest))
  {
    var b := [OPCODE_SELECTDB, 0, TYPE_STRING, 0, |s|] + s + ([OPCODE_EOF] + rest);
    var b2: bytes := [TYPE_STRING, 0, |s|] + s + ([OPCODE_EOF] + rest);
    assert b == [OPCODE_SELECTDB, 0] + b2;
    SelectReads(b, b2);
    PairReads(b2, s, [OPCODE_EOF] + rest);
    PairApplies(s, env);
    EndOfFile(rest, Holding(s), 0, env);
    hide LoadRecord, ApplyRecord;
  }

  lemma OneStringLoads(s: bytes, q: bytes, rest: bytes, env: Env)
    requires |s| < 64 && q == OneString(s) + rest && |rest| >= 8
    requires rest[..8] == Zeros(8) || rest[..8] == FileSum(OneString(s))
    ensures Load(q, 1, env, FileSum, true) == Some(Holding(s))
  {
    OneStringRecords(s, rest, env);
    hide LoadRecords, Strtol, FileSum, Load;
    OneStringParts(s, q, rest);
    VersionReads();
    hide OneString;
    LoadParts(q, 1, env, FileSum, true, Holding(s), rest);
  }

  lemma OneStringParts(s: bytes, q: bytes, rest: bytes)
    requires |s| < 64 && q == OneString(s) + rest
    ensures |q| >= 9 && q[..5] == SIGNATURE && q[5..9] + [0] == [48, 48, 48, 54, 0]
    ensures q[9..] == [OPCODE_SELECTDB, 0, TYPE_STRING, 0, |s|] + s + ([OPCODE_EOF] + rest)
    ensures q[..|q| - |rest|] == OneString(s)
  {
  }

  /** Damage can make the loader stop too early: of the file of a string of nine bytes, an end mark and
      eight zeros, one byte is changed, the length, and a dataset with another value is loaded. */
  lemma ShorterStringLoads(env: Env)
    ensures var s := [255] + Zeros(8);
      var b := OneString(s) + FileSum(OneString(s));
      && Summed(b) && Load(b, 1, env, FileSum, true) == Some(Holding(s))
      && b[13] == 9 && Load(b[13 := 0], 1, env, FileSum, true) == Some(Holding([]))
  {
    var s: bytes := [255] + Zeros(8);
    var footer := FileSum(OneString(s));
    hide FileSum;
    var b := OneString(s) + footer;
    assert b[..|b| - 8] == OneString(s) && b[|b| - 8..] == footer && footer[..8] == footer;
    OneStringLoads(s, b, footer, env);
    ShorterString(b, footer);
    var rest: bytes := Zeros(8) + ([OPCODE_EOF] + footer);
    assert rest[..8] == Zeros(8);
    hide OneString, Load, Holding;
    OneStringLoads([], b[13 := 0], rest, env);
  }

  lemma ShorterString(b: bytes, footer: bytes)
    requires b == OneString([255] + Zeros(8)) + footer
    ensures b[13] == 9 && b[13 := 0] == OneString([]) + (Zeros(8) + ([OPCODE_EOF] + footer))
  {
  }
}
