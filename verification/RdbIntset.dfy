/** rdb.c with intset.c: a set of integers is saved as the bytes of its intset, header and array, and loads
    as the same set. */
module RdbIntset {
  import opened Bytes
  import opened LittleEndian
  import opened Intset
  import opened RdbStrings
  import opened RdbObjects
  import opened Rdb

  const TYPE_SET_INTSET := 11

  /** The memory of an intset: encoding, length, array. */
  function Blob(encoding: nat, length: nat, contents: bytes): bytes {
    Put(encoding, 4) + Put(length, 4) + contents
  }

  /** The integers such memory holds. */
  function BlobValues(blob: bytes): Option<seq<Int64>> {
    if |blob| < 8 then None
    else
      var encoding, length := Unsigned(blob[..4]), Unsigned(blob[4..8]);
      if IsEncoding(encoding) && At(length, encoding) <= |blob| - 8
      then Some(Elements(blob[8..], length, encoding)) else None
  }

  lemma BlobReads(encoding: nat, length: nat, contents: bytes)
    requires IsEncoding(encoding) && length < 0x1_0000_0000 && At(length, encoding) <= |contents|
    ensures BlobValues(Blob(encoding, length, contents)) == Some(Elements(contents, length, encoding))
  {
    Widths();
    UnsignedPut(encoding, 4);
    UnsignedPut(length, 4);
    hide Put, Unsigned, Elements, At;
    var blob := Blob(encoding, length, contents);
    assert blob[..4] == Put(encoding, 4) && blob[4..8] == Put(length, 4) && blob[8..] == contents;
  }

  lemma BlobFits(length: nat, encoding: nat)
    requires At(length, ENC_INT64) < MAX_BYTES && IsEncoding(encoding)
    ensures length < 0x1_0000_0000 && At(length, encoding) + 8 < LENERR
  {
  }

  lemma OneKey(e: Entry, saved: int, dbnum: nat, env: Env)
    requires SaveableEntry(e) && Survives(e, saved, env) && dbnum > 0
    ensures SaveableDataset([[e]])
    ensures var r := Surviving([[e]], dbnum, saved, env);
      e.key in r[0] && r[0][e.key] == Stored(Logical(e.o), e.expire)
  {
    var db: seq<Entry> := [e];
    var dbs: seq<seq<Entry>> := [db];
    assert SaveableDb(db);
    SurvivingAre(db, saved, env, e.key);
    assert dbs[0] == db && db[0] == e;
    hide SurvivingDb, SaveableEntry, Survives, Logical;
  }

  /** Whatever is added to a set of integers and removed from it, saving it under a key and loading the file
      gives a set with the members that are left. */
  method SetSurvives(ops: seq<Op>, key: bytes, saved: int, compression: bool, sum: bytes -> bytes, sums: bool,
                     dbnum: nat, env: Env, checks: bool)
      returns (r: Option<seq<Db>>)
    requires StaysSmall(ops) && |key| < LENERR && IsSum(sum) && dbnum > 0
    ensures r.Some? && |r.value| == dbnum && key in r.value[0]
    ensures var v := r.value[0][key].value;
      && v.PackedValue? && v.kind == TYPE_SET_INTSET && BlobValues(v.blob).Some?
      && Members(BlobValues(v.blob).value) == SetAfter({}, ops)
  {
    var intset, answers := RunAll(ops);
    var blob := Blob(intset.encoding, intset.length, intset.contents[..]);
    BlobFits(intset.length, intset.encoding);
    BlobReads(intset.encoding, intset.length, intset.contents[..]);
    var e := Entry(key, Packed(TYPE_SET_INTSET, blob), NO_EXPIRE);
    OneKey(e, saved, dbnum, env);
    hide Blob, BlobValues, SaveableDataset, Surviving, Elements, Members, SetAfter;
    r := RoundTrip([[e]], saved, compression, sum, sums, dbnum, env, checks);
  }
}
