/** Bytes that do not depend on this model: what others that read or write the same formats have for the same
    contents. */
module KnownAnswers {
  import opened Bytes
  import opened Decimal
  import opened LittleEndian
  import Crc64
  import Crc64Table
  import LzfCompress
  import LzfFormat
  import opened Intset
  import opened RdbStrings
  import opened RdbObjects
  import opened Rdb
  import RdbIntset
  import Replies

  // ---- the checksum

  lemma Check1()
    ensures Crc64.Step(0, 49) == 0xfdc17184a9f739fa
  {
  }

  lemma Check2()
    ensures Crc64.Step(0xfdc17184a9f739fa, 50) == 0xe10364513a98ed96
  {
  }

  lemma Check3()
    ensures Crc64.Step(0xe10364513a98ed96, 51) == 0xd5bcfb814479b1ac
  {
  }

  lemma Check4()
    ensures Crc64.Step(0xd5bcfb814479b1ac, 52) == 0x43593c5dcda521f0
  {
  }

  lemma Check5()
    ensures Crc64.Step(0x43593c5dcda521f0, 53) == 0xf0758513239c7e0d
  {
  }

  lemma Check6()
    ensures Crc64.Step(0xf0758513239c7e0d, 54) == 0xa3a90925b2ab4903
  {
  }

  lemma Check7()
    ensures Crc64.Step(0xa3a90925b2ab4903, 55) == 0x47824d362431ad45
  {
  }

  lemma Check8()
    ensures Crc64.Step(0x47824d362431ad45, 56) == 0x49ec20b315e86dc2
  {
  }

  lemma Check9()
    ensures Crc64.Step(0x49ec20b315e86dc2, 57) == 0xe9c6d914c4b8d9ca
  {
  }

  /** The published check value of the polynomial: the checksum of the digits 1 to 9. */
  lemma CheckValue()
    ensures Crc64.Crc(0, [49, 50, 51, 52, 53, 54, 55, 56, 57]) == 0xe9c6d914c4b8d9ca
  {
    Check1();
    Check2();
    Check3();
    Check4();
    Check5();
    Check6();
    Check7();
    Check8();
    Check9();
    hide Crc64.Step;
    assert Crc64.Crc(0, [49, 50, 51, 52, 53, 54, 55, 56, 57])
        == Crc64.Crc(0xfdc17184a9f739fa, [50, 51, 52, 53, 54, 55, 56, 57]);
    assert Crc64.Crc(0xfdc17184a9f739fa, [50, 51, 52, 53, 54, 55, 56, 57])
        == Crc64.Crc(0xe10364513a98ed96, [51, 52, 53, 54, 55, 56, 57]);
    assert Crc64.Crc(0xe10364513a98ed96, [51, 52, 53, 54, 55, 56, 57])
        == Crc64.Crc(0xd5bcfb814479b1ac, [52, 53, 54, 55, 56, 57]);
    assert Crc64.Crc(0xd5bcfb814479b1ac, [52, 53, 54, 55, 56, 57])
        == Crc64.Crc(0x43593c5dcda521f0, [53, 54, 55, 56, 57]);
    assert Crc64.Crc(0x43593c5dcda521f0, [53, 54, 55, 56, 57]) == Crc64.Crc(0xf0758513239c7e0d, [54, 55, 56, 57]);
    assert Crc64.Crc(0xf0758513239c7e0d, [54, 55, 56, 57]) == Crc64.Crc(0xa3a90925b2ab4903, [55, 56, 57]);
    assert Crc64.Crc(0xa3a90925b2ab4903, [55, 56, 57]) == Crc64.Crc(0x47824d362431ad45, [56, 57]);
    assert Crc64.Crc(0x47824d362431ad45, [56, 57]) == Crc64.Crc(0x49ec20b315e86dc2, [57]);
    assert Crc64.Crc(0x49ec20b315e86dc2, [57]) == 0xe9c6d914c4b8d9ca;
  }

  // ---- integers in memory

  lemma LittleEndianBytes()
    ensures Put(0x12345678, 4) == [0x78, 0x56, 0x34, 0x12] && Unsigned([0x78, 0x56, 0x34, 0x12]) == 0x12345678
  {
    assert Put(0x12, 1) == [0x12] && Put(0x1234, 2) == [0x34, 0x12] && Put(0x123456, 3) == [0x56, 0x34, 0x12];
    UnsignedPut(0x12345678, 4);
    Widths();
  }

  lemma TwosComplement()
    ensures PutSigned(-2, 2) == [0xfe, 0xff] && Signed([0xfe, 0xff]) == -2
  {
    Widths();
    assert Put(0xff, 1) == [0xff] && Put(0xfffe, 2) == [0xfe, 0xff];
    SignedPut(-2, 2);
  }

  /** The memory of the set of 1 and -2: encoding, length, and the elements in order. */
  lemma IntsetBlob()
    ensures RdbIntset.Blob(2, 2, [0xfe, 0xff, 1, 0]) == [2, 0, 0, 0, 2, 0, 0, 0, 0xfe, 0xff, 1, 0]
    ensures Elements([0xfe, 0xff, 1, 0], 2, 2) == [-2, 1]
  {
    assert Put(0, 1) == [0] && Put(0, 2) == [0, 0] && Put(0, 3) == [0, 0, 0] && Put(2, 4) == [2, 0, 0, 0];
    TwosComplement();
    OneInMemory();
    var c: bytes := [0xfe, 0xff, 1, 0];
    assert c[0..2] == [0xfe, 0xff] && c[2..4] == [1, 0];
    hide Signed, Put;
  }

  lemma OneInMemory()
    ensures Signed([1, 0]) == 1
  {
    var b: bytes := [1, 0];
    assert b[1..] == [0] && b[1..][1..] == [];
    assert Unsigned(b[1..]) == b[1] + 256 * Unsigned(b[1..][1..]);
    Widths();
  }

  // ---- compressed text

  /** A literal run of one byte, and a copy of nine bytes from one byte back. */
  lemma LzfTokens()
    ensures LzfFormat.EncodeToken(LzfFormat.Literal([97])) == [0, 97]
    ensures LzfFormat.EncodeToken(LzfFormat.BackRef(0, 9)) == [0xe0, 0, 0]
    ensures LzfFormat.EncodeToken(LzfFormat.BackRef(0x1234, 8)) == [0xd2, 0x34]
    ensures LzfFormat.EncodeToken(LzfFormat.BackRef(0x1fff, 264)) == [0xff, 0xff, 0xff]
  {
  }

  lemma LzfText(limit: nat)
    requires limit >= 5
    ensures LzfFormat.Decode([0, 97, 0x20, 0, 0, 98], [], limit) == Some([97, 97, 97, 97, 98])
  {
    var s: bytes := [0, 97, 0x20, 0, 0, 98];
    assert s[1..2] == [97] && s[2..] == [0x20, 0, 0, 98];
    LzfTail(limit);
    assert [] + [97] == [97];
  }

  lemma CopyThree()
    ensures LzfFormat.Copy([97], 0, 3) == [97, 97, 97, 97]
  {
    assert LzfFormat.Copy([97, 97, 97], 0, 1) == [97, 97, 97] + [97];
    assert LzfFormat.Copy([97, 97], 0, 2) == LzfFormat.Copy([97, 97] + [97], 0, 1);
  }

  lemma LzfTail(limit: nat)
    requires limit >= 5
    ensures LzfFormat.Decode([0x20, 0, 0, 98], [97], limit) == Some([97, 97, 97, 97, 98])
  {
    var s: bytes := [0x20, 0, 0, 98];
    var t: bytes := [0, 98];
    assert s[2..] == t && t[1..2] == [98] && t[2..] == [];
    CopyThree();
    hide LzfFormat.Copy;
    assert [97, 97, 97, 97] + [98] == [97, 97, 97, 97, 98];
    assert LzfFormat.Decode(t, [97, 97, 97, 97], limit) == Some([97, 97, 97, 97] + [98]);
    assert LzfFormat.Decode(s, [97], limit) == LzfFormat.Resume(t, LzfFormat.Copy([97], 0, 3), limit, 4);
  }

  /** The slot of the table that the octets "abc" hash to. */
  lemma LzfHash()
    ensures LzfCompress.Next(LzfCompress.Frst(97, 98), 99) == 0x616263
    ensures LzfCompress.Idx(0x616263) == 30067
  {
  }

  // ---- RDB

  lemma LengthBytes()
    ensures SaveLen(5) == [5] && SaveLen(300) == [0x41, 0x2c] && SaveLen(70000) == [0x80, 0, 1, 0x11, 0x70]
    ensures LoadLen([5]) == (5, false, []) && LoadLen([0x41, 0x2c]) == (300, false, [])
    ensures LoadLen([0x80, 0, 1, 0x11, 0x70]) == (70000, false, []) && LoadLen([0xc2]) == (2, true, [])
  {
  }

  lemma TextLoads(rest: bytes)
    ensures LoadString([2, 104, 105] + rest) == Some((Ascii("hi"), rest))
  {
    var b: bytes := [2, 104, 105] + rest;
    assert b[1..] == [104, 105] + rest;
    assert b[1..][..2] == Ascii("hi") && b[1..][2..] == rest;
  }

  lemma SmallIntegerLoads(rest: bytes)
    ensures LoadString([0xc0, 0xfb] + rest) == Some((Ascii("-5"), rest))
  {
    var b: bytes := [0xc0, 0xfb] + rest;
    SignedOfBytes1(-5);
    assert b[1..][..1] == [0xfb] && b[1..][1..] == rest;
    assert Dec(-5) == Ascii("-5");
    hide Signed;
  }

  lemma IntegerLoads(rest: bytes)
    ensures LoadString([0xc1, 0x2c, 1] + rest) == Some((Ascii("300"), rest))
  {
    var b: bytes := [0xc1, 0x2c, 1] + rest;
    SignedOfBytes2(300);
    assert b[1..][..2] == [0x2c, 1] && b[1..][2..] == rest;
    assert Digits(30) == [51, 48] && Dec(300) == Ascii("300");
    hide Signed;
  }

  lemma PackedRecord(packed: bytes)
    requires packed == [0, 97, 0x20, 0, 0, 98]
    ensures LzfRecord(packed, 5) == [0xc3, 6, 5, 0, 97, 0x20, 0, 0, 98]
  {
    assert SaveLen(6) == [6] && SaveLen(5) == [5];
  }

  lemma PackedTextLoads(rest: bytes)
    ensures LoadString([0xc3, 6, 5, 0, 97, 0x20, 0, 0, 98] + rest) == Some((Ascii("aaaab"), rest))
  {
    var packed: bytes := [0, 97, 0x20, 0, 0, 98];
    var text: bytes := [97, 97, 97, 97, 98];
    LzfText(5);
    assert text == Ascii("aaaab");
    hide LzfFormat.Decode, LoadString, Ascii;
    LzfLoads(packed, text);
    PackedRecord(packed);
  }

  /** The marks of the types: a string is 0, packed forms are 9 to 13, and there is nothing between 4 and 9
      or behind them. */
  lemma StringTypeLoads(rest: bytes)
    ensures LoadObject(0, [1, 97] + rest) == Some((StringValue(Ascii("a")), rest))
    ensures forall kind :: 9 <= kind <= 13 ==>
              LoadObject(kind, [1, 97] + rest) == Some((PackedValue(kind, Ascii("a")), rest))
    ensures forall kind :: 5 <= kind < 9 || kind > 13 ==> LoadObject(kind, [1, 97] + rest) == None
  {
    LettersLoad();
    assert LoadString([1, 97] + rest) == Some((Ascii("a"), rest));
    hide LoadString, Ascii, LoadElements, LoadFields, LoadScores, LoadLen;
  }

  /** A list is 1 and a set is 2, both with their length in front. */
  lemma ListTypeLoads(rest: bytes)
    ensures LoadObject(1, [2] + ([1, 97, 1, 98] + rest)) == Some((ListValue([Ascii("a"), Ascii("b")]), rest))
    ensures LoadObject(2, [2] + ([1, 97, 1, 98] + rest)) == Some((SetValue({Ascii("a"), Ascii("b")}), rest))
  {
    LettersLoad();
    var a, b := Ascii("a"), Ascii("b");
    hide LoadString, Ascii;
    TwoElements(a, b);
    assert LoadElements(2, [1, 97, 1, 98] + rest) == Some(([a, b], rest)) by { assert |[a, b]| == 2; }
    LenLoads(2, [1, 97, 1, 98] + rest);
    ShortLengths();
    hide LoadLen, SaveLen, LoadElements, LoadFields, LoadScores;
    assert (set t | t in [a, b]) == {a, b};
  }

  /** A sorted set is 3, members before scores, and a hash is 4, fields before values. */
  lemma HashTypeLoads(rest: bytes)
    ensures LoadObject(3, [1] + ([1, 97, 254] + rest)) == Some((SortedSetValue(map[Ascii("a") := PlusInfinity]), rest))
    ensures LoadObject(4, [1] + ([1, 97, 1, 98] + rest)) == Some((HashValue(map[Ascii("a") := Ascii("b")]), rest))
  {
    LettersLoad();
    var a, b := Ascii("a"), Ascii("b");
    hide LoadString, Ascii;
    OneField(a, b);
    OneScore(a);
    LenLoads(1, [1, 97, 1, 98] + rest);
    LenLoads(1, [1, 97, 254] + rest);
    ShortLengths();
    hide LoadLen, SaveLen, LoadElements, LoadFields, LoadScores;
  }

  lemma ShortLengths()
    ensures SaveLen(1) == [1] && SaveLen(2) == [2]
  {
  }

  lemma LettersLoad()
    ensures StringBytes([1, 97], Ascii("a")) && StringBytes([1, 98], Ascii("b"))
  {
    assert Ascii("a") == [97] && Ascii("b") == [98];
    VerbatimLoads([97]);
    VerbatimLoads([98]);
    hide LoadString;
    assert SaveLen(1) + [97] == [1, 97] && SaveLen(1) + [98] == [1, 98];
  }

  lemma TwoElements(a: bytes, b: bytes)
    requires StringBytes([1, 97], a) && StringBytes([1, 98], b)
    ensures ElementsBytes([1, 97, 1, 98], [a, b])
  {
    ElementsNone();
    ElementsMore([], [], [1, 97], a);
    assert [] + [1, 97] == [1, 97] && [] + [a] == [a];
    ElementsMore([1, 97], [a], [1, 98], b);
    hide LoadElements, LoadString;
    assert [1, 97] + [1, 98] == [1, 97, 1, 98] && [a] + [b] == [a, b];
  }

  lemma OneField(a: bytes, b: bytes)
    requires StringBytes([1, 97], a) && StringBytes([1, 98], b)
    ensures FieldsBytes([1, 97, 1, 98], 1, map[a := b])
  {
    FieldsNone();
    FieldsMore([], 0, map[], [1, 97], a, [1, 98], b);
    hide LoadFields, LoadString;
    assert [] + ([1, 97] + [1, 98]) == [1, 97, 1, 98];
  }

  lemma OneScore(a: bytes)
    requires StringBytes([1, 97], a)
    ensures ScoresBytes([1, 97, 254], 1, map[a := PlusInfinity])
  {
    ScoresNone();
    ScoresMore([], 0, map[], [1, 97], a, PlusInfinity);
    hide LoadScores, LoadString;
    assert [] + ([1, 97] + [254]) == [1, 97, 254];
  }

  /** Scores: three marks, or a length and the text of the number. */
  lemma ScoresLoad(rest: bytes)
    ensures LoadScore([253] + rest) == Some((NotANumber, rest))
    ensures LoadScore([254] + rest) == Some((PlusInfinity, rest))
    ensures LoadScore([255] + rest) == Some((MinusInfinity, rest))
    ensures LoadScore([3, 49, 46, 53] + rest) == Some((Finite(Ascii("1.5")), rest))
    ensures SaveScore(NotANumber) == [253] && SaveScore(PlusInfinity) == [254] && SaveScore(MinusInfinity) == [255]
  {
    var b: bytes := [3, 49, 46, 53] + rest;
    assert b[1..4] == Ascii("1.5") && b[4..] == rest;
  }

  /** The mark in front of a value is that of its type. */
  lemma MarksAre(s: RdbStrings.Str, l: seq<RdbStrings.Str>, es: seq<(RdbStrings.Str, Score)>,
                 ps: seq<(RdbStrings.Str, RdbStrings.Str)>)
    ensures Saveable(StringObject(s)) ==> ObjectType(StringObject(s)) == 0
    ensures Saveable(ListObject(l)) ==> ObjectType(ListObject(l)) == 1
    ensures Saveable(SetObject(l)) ==> ObjectType(SetObject(l)) == 2
    ensures Saveable(SortedSetObject(es)) ==> ObjectType(SortedSetObject(es)) == 3
    ensures Saveable(HashObject(ps)) ==> ObjectType(HashObject(ps)) == 4
  {
  }

  lemma TextIs()
    ensures [97, 97, 97, 97, 98] == Ascii("aaaab") && Zeros(2) == [0, 0]
  {
  }

  /** A text that is told to be longer than it is unpacked to ends in zeros. */
  lemma ShortTextLoads(rest: bytes)
    ensures LoadString([0xc3] + ([6, 7] + ([0, 97, 0x20, 0, 0, 98] + rest))) == Some((Ascii("aaaab") + [0, 0], rest))
  {
    var packed: bytes := [0, 97, 0x20, 0, 0, 98];
    var body := [6, 7] + (packed + rest);
    LzfText(7);
    TextIs();
    hide *;
    MarkFirst([0xc3] + body, body);
    LoadStringLzf([0xc3] + body, body);
    PaddedLoads(packed, [97, 97, 97, 97, 98], 7, rest);
  }

  lemma PaddedLoads(packed: bytes, text: bytes, len: nat, rest: bytes)
    requires 0 < |packed| < 64 && 0 < |text| <= len < 64 && LzfFormat.Decode(packed, [], len) == Some(text)
    ensures LoadLzf([|packed|, len] + (packed + rest)) == Some((text + Zeros(len - |text|), rest))
  {
    var r2 := packed + rest;
    LenLoads(|packed|, SaveLen(len) + r2);
    LenLoads(len, r2);
    OneByteLength(|packed|);
    OneByteLength(len);
    hide LzfFormat.Decode, SaveLen, LoadLen;
    assert [|packed|, len] + r2 == [|packed|] + ([len] + r2);
    assert r2[..|packed|] == packed && r2[|packed|..] == rest;
  }

  lemma OneByteLength(len: nat)
    requires len < 64
    ensures SaveLen(len) == [len]
  {
  }

  // ---- whole files

  const KEY: bytes := [0, 1, 107, 2, 104, 105]  // a string, of length one, "k", of length two, "hi"

  lemma KeyLoads(expire: int, rest: bytes)
    ensures KEY[0] == 0 && LoadTyped(0, KEY[1..] + rest, expire)
         == Some((Pair(Ascii("k"), StringValue(Ascii("hi")), expire), rest))
  {
    var v: bytes := [2, 104, 105];
    var kv := KEY[1..] + rest;
    assert kv[1..] == [107] + (v + rest);
    assert kv[1..][..1] == Ascii("k") && kv[1..][1..] == v + rest;
    TextLoads(rest);
    hide LoadLen;
    assert LoadLen(kv) == (1, false, kv[1..]) by { OneLong(kv); }
  }

  lemma OneLong(b: bytes)
    requires b != [] && b[0] == 1
    ensures LoadLen(b) == (1, false, b[1..])
  {
  }

  /** The time in front of a key is in milliseconds after 252, in seconds after 253. */
  lemma TimedKeyLoads(rest: bytes)
    ensures LoadRecord([252] + [0xe8, 3, 0, 0, 0, 0, 0, 0] + (KEY + rest))
         == Some((Pair(Ascii("k"), StringValue(Ascii("hi")), 1000), rest))
    ensures LoadRecord([253] + [0xe8, 3, 0, 0] + (KEY + rest))
         == Some((Pair(Ascii("k"), StringValue(Ascii("hi")), 1000000), rest))
  {
    ThousandReads();
    TimedLoads(252, [0xe8, 3, 0, 0, 0, 0, 0, 0], KEY + rest);
    TimedLoads(253, [0xe8, 3, 0, 0], KEY + rest);
    KeyLoads(1000, rest);
    KeyLoads(1000000, rest);
    hide LoadTyped, Signed, Ascii, LoadRecord;
    assert (KEY + rest)[1..] == KEY[1..] + rest;
  }

  lemma TimedLoads(mark: byte, time: bytes, kv: bytes)
    requires (mark == 252 && |time| == 8) || (mark == 253 && |time| == 4)
    requires Signed(time) != -1 && kv != []
    ensures LoadRecord([mark] + time + kv)
         == LoadTyped(kv[0], kv[1..], if mark == 253 then 1000 * Signed(time) else Signed(time))
  {
    var b: bytes := [mark] + time + kv;
    hide LoadTyped, Signed;
    assert b[1..] == time + kv;
    TimeIs(mark, time, kv);
    hide LoadTime;
  }

  lemma TimeIs(mark: byte, time: bytes, kv: bytes)
    requires (mark == 252 && |time| == 8) || (mark == 253 && |time| == 4)
    requires Signed(time) != -1
    ensures LoadTime(mark, time + kv) == Some((if mark == 253 then Signed(time) * 1000 else Signed(time), kv))
  {
    hide Signed;
    assert (time + kv)[..|time|] == time && (time + kv)[|time|..] == kv;
  }

  lemma ThousandReads()
    ensures Signed([0xe8, 3, 0, 0]) == Signed([0xe8, 3, 0, 0, 0, 0, 0, 0]) == 1000
  {
    ThousandPut();
    Widths();
    UnsignedPut(1000, 4);
    UnsignedPut(1000, 8);
    hide Put, Unsigned;
  }

  lemma ThousandPut()
    ensures Put(1000, 4) == [0xe8, 3, 0, 0] && Put(1000, 8) == [0xe8, 3, 0, 0, 0, 0, 0, 0]
  {
    assert Put(0, 1) == [0] && Put(0, 2) == [0, 0] && Put(0, 4) == [0, 0, 0, 0] && Put(3, 3) == [3, 0, 0];
    assert Put(0, 6) == [0, 0] + Put(0, 4);
    assert Put(3, 7) == [3] + Put(0, 6);
  }

  lemma NoChecksum()
    ensures Zeros(8) == [0, 0, 0, 0, 0, 0, 0, 0]
  {
  }

  lemma MagicIs()
    ensures MAGIC == Ascii("REDIS0006")
  {
  }

  /** A file with one key: magic, the mark of db 0, the key, the end mark and no checksum. */
  lemma SmallFileLoads(env: Env, sum: bytes -> bytes)
    ensures Load(Ascii("REDIS0006") + ([0xfe, 0] + KEY) + [0xff] + [0, 0, 0, 0, 0, 0, 0, 0], 1, env, sum, true)
         == Some([map[Ascii("k") := Rdb.Stored(StringValue(Ascii("hi")), -1)]])
  {
    var records, footer: bytes := [0xfe, 0] + KEY, Zeros(8);
    var dbs := [map[Ascii("k") := Rdb.Stored(StringValue(Ascii("hi")), -1)]];
    MagicIs();
    NoChecksum();
    SmallRecordsLoad(env, [0xff] + footer);
    EndOfFile(footer, dbs, 0, env);
    hide LoadRecords, Strtol, Ascii, Load;
    FileParts(records, footer);
    VersionReads();
    assert footer[..8] == footer && records + ([0xff] + footer) == [0xfe, 0] + (KEY + ([0xff] + footer));
    LoadParts(MAGIC + records + [0xff] + footer, 1, env, sum, true, dbs, footer);
  }

  lemma SmallRecordsLoad(env: Env, tail: bytes)
    ensures LoadRecords([0xfe, 0] + (KEY + tail), Empty(1), 0, env)
         == LoadRecords(tail, [map[Ascii("k") := Rdb.Stored(StringValue(Ascii("hi")), -1)]], 0, env)
  {
    var key := KEY + tail;
    var all := [0xfe, 0] + key;
    SelectLoads(0);
    assert all == [OPCODE_SELECTDB] + SaveLen(0) + key;
    assert LoadRecord(all) == Some((SelectDb(0), key));
    KeyRecord(tail);
    hide LoadRecord, Ascii, LoadRecords;
    SelectStep(all, key, Empty(1), env);
    PairStep(key, tail, Ascii("k"), StringValue(Ascii("hi")), env);
  }

  lemma SelectStep(b: bytes, rest: bytes, dbs: seq<Db>, env: Env)
    requires dbs != [] && LoadRecord(b) == Some((SelectDb(0), rest))
    ensures LoadRecords(b, dbs, 0, env) == LoadRecords(rest, dbs, 0, env)
  {
    hide LoadRecord;
  }

  lemma PairStep(b: bytes, rest: bytes, key: bytes, value: RdbObjects.Value, env: Env)
    requires LoadRecord(b) == Some((Pair(key, value, -1), rest))
    ensures LoadRecords(b, Empty(1), 0, env) == LoadRecords(rest, [map[key := Rdb.Stored(value, -1)]], 0, env)
  {
    hide LoadRecord;
    assert Empty(1)[0 := map[key := Rdb.Stored(value, -1)]] == [map[key := Rdb.Stored(value, -1)]];
  }

  lemma KeyRecord(tail: bytes)
    ensures LoadRecord(KEY + tail) == Some((Pair(Ascii("k"), StringValue(Ascii("hi")), -1), tail))
  {
    KeyLoads(-1, tail);
    assert (KEY + tail)[1..] == KEY[1..] + tail;
    hide LoadTyped, Ascii;
  }

  // ---- replies

  /** The length that is told later is a multi bulk header. */
  lemma LengthTexts()
    ensures Replies.LengthText(0) == Ascii("*0\r\n") && Replies.LengthText(12) == Ascii("*12\r\n")
  {
    assert Digits(12) == [49, 50];
  }
}
