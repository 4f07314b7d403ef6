/** rdb.c, values: strings, lists, sets, sorted sets and hashes element by element, and the packed forms as
    strings. */
module RdbObjects {
  import opened Bytes
  import opened RdbStrings

  const TYPE_STRING := 0
  const TYPE_LIST := 1
  const TYPE_SET := 2
  const TYPE_ZSET := 3
  const TYPE_HASH := 4
  const TYPE_HASH_ZIPMAP := 9
  const TYPE_HASH_ZIPLIST := 13

  /** A double as it is saved: a finite one is the text it is printed as. */
  datatype Score = NotANumber | PlusInfinity | MinusInfinity | Finite(text: bytes)

  /** A value object. Sets, sorted sets and hashes are given in the order in which their table is iterated; a packed
      object is given with its type number (10 to 13) and its bytes. */
  datatype Object =
    | StringObject(s: Str)
    | ListObject(elements: seq<Str>)
    | SetObject(members: seq<Str>)
    | SortedSetObject(entries: seq<(Str, Score)>)
    | HashObject(pairs: seq<(Str, Str)>)
    | Packed(kind: nat, blob: bytes)

  /** What clients see of it. */
  datatype Value =
    | StringValue(text: bytes)
    | ListValue(elements: seq<bytes>)
    | SetValue(members: set<bytes>)
    | SortedSetValue(scores: map<bytes, Score>)
    | HashValue(fields: map<bytes, bytes>)
    | PackedValue(kind: nat, blob: bytes)

  function Texts(l: seq<Str>): (r: seq<bytes>)
    ensures |r| == |l|
  {
    seq(|l|, i requires 0 <= i < |l| => Text(l[i]))
  }

  function MapOf(pairs: seq<(Str, Str)>): map<bytes, bytes> {
    if pairs == [] then map[]
    else MapOf(pairs[..|pairs| - 1])[Text(pairs[|pairs| - 1].0) := Text(pairs[|pairs| - 1].1)]
  }

  function ScoresOf(entries: seq<(Str, Score)>): map<bytes, Score> {
    if entries == [] then map[]
    else ScoresOf(entries[..|entries| - 1])[Text(entries[|entries| - 1].0) := entries[|entries| - 1].1]
  }

  function Logical(o: Object): Value {
    match o
    case StringObject(s) => StringValue(Text(s))
    case ListObject(l) => ListValue(Texts(l))
    case SetObject(l) => SetValue(set t | t in Texts(l))
    case SortedSetObject(es) => SortedSetValue(ScoresOf(es))
    case HashObject(ps) => HashValue(MapOf(ps))
    case Packed(kind, blob) => PackedValue(kind, blob)
  }

  /** No number is printed in more than 252 bytes, nor in none. */
  predicate ScoreOk(d: Score) {
    d.Finite? ==> 1 <= |d.text| < 253
  }

  /** Within the limits of the format; fields of a hash and members of a sorted set are different. */
  ghost predicate Saveable(o: Object) {
    match o
    case StringObject(s) => Storable(s)
    case ListObject(l) => |l| < LENERR && forall i :: 0 <= i < |l| ==> Storable(l[i])
    case SetObject(l) => |l| < LENERR && forall i :: 0 <= i < |l| ==> Storable(l[i])
    case SortedSetObject(es) =>
      && |es| < LENERR
      && (forall i :: 0 <= i < |es| ==> Storable(es[i].0) && ScoreOk(es[i].1))
      && forall i, j :: 0 <= i < j < |es| ==> Text(es[i].0) != Text(es[j].0)
    case HashObject(ps) =>
      && |ps| < LENERR
      && (forall i :: 0 <= i < |ps| ==> Storable(ps[i].0) && Storable(ps[i].1))
      && forall i, j :: 0 <= i < j < |ps| ==> Text(ps[i].0) != Text(ps[j].0)
    case Packed(kind, blob) => TYPE_HASH_ZIPMAP < kind <= TYPE_HASH_ZIPLIST && |blob| < LENERR
  }

  /** `rdbSaveObjectType`. */
  function ObjectType(o: Object): byte
    requires Saveable(o)
  {
    match o
    case StringObject(_) => TYPE_STRING
    case ListObject(_) => TYPE_LIST
    case SetObject(_) => TYPE_SET
    case SortedSetObject(_) => TYPE_ZSET
    case HashObject(_) => TYPE_HASH
    case Packed(kind, _) => kind
  }

  // ---- the loader, on values

  /** The loop over the elements of a list, in order. */
  function LoadElements(n: nat, b: bytes): (r: Option<(seq<bytes>, bytes)>)
    ensures r.Some? ==> |r.value.1| <= |b|
  {
    if n == 0 then Some(([], b))
    else match LoadElements(n - 1, b)
      case None => None
      case Some(l) => match LoadString(l.1)
        case None => None
        case Some(t) => Some((l.0 + [t.0], t.1))
  }

  /** The loops over the fields and values of a hash. A field that comes twice stops the server, or leaves
      a broken packed hash; that does not occur in what was saved. */
  function LoadFields(n: nat, b: bytes): (r: Option<(map<bytes, bytes>, bytes)>)
    ensures r.Some? ==> |r.value.1| <= |b|
  {
    if n == 0 then Some((map[], b))
    else match LoadFields(n - 1, b)
      case None => None
      case Some(m) => match LoadString(m.1)
        case None => None
        case Some(f) => match LoadString(f.1)
          case None => None
          case Some(v) => if f.0 in m.0 then None else Some((m.0[f.0 := v.0], v.1))
  }

  /** `rdbSaveDoubleValue`. */
  function SaveScore(d: Score): (b: bytes)
    requires ScoreOk(d)
  {
    match d
    case NotANumber => [253]
    case PlusInfinity => [254]
    case MinusInfinity => [255]
    case Finite(text) => [|text|] + text
  }

  /** `rdbLoadDoubleValue`, from a file. */
  function LoadScore(b: bytes): (r: Option<(Score, bytes)>)
    ensures r.Some? ==> |r.value.1| < |b|
  {
    if b == [] then None
    else if b[0] == 253 then Some((NotANumber, b[1..]))
    else if b[0] == 254 then Some((PlusInfinity, b[1..]))
    else if b[0] == 255 then Some((MinusInfinity, b[1..]))
    else
      var len := b[0];
      if len == 0 || |b| < 1 + len then None else Some((Finite(b[1..1 + len]), b[1 + len..]))
  }

  /** The loop over the members and scores of a sorted set. A member that comes twice would leave a broken
      skip list; that does not occur in what was saved. */
  function LoadScores(n: nat, b: bytes): (r: Option<(map<bytes, Score>, bytes)>)
    ensures r.Some? ==> |r.value.1| <= |b|
  {
    if n == 0 then Some((map[], b))
    else match LoadScores(n - 1, b)
      case None => None
      case Some(m) => match LoadString(m.1)
        case None => None
        case Some(e) => match LoadScore(e.1)
          case None => None
          case Some(d) => if e.0 in m.0 then None else Some((m.0[e.0 := d.0], d.1))
  }

  /** `rdbLoadObject`. */
  function LoadObject(rdbtype: nat, b: bytes): (r: Option<(Value, bytes)>)
    ensures r.Some? ==> |r.value.1| < |b|
  {
    if rdbtype == TYPE_STRING then
      match LoadString(b)
      case None => None
      case Some(t) => Some((StringValue(t.0), t.1))
    else if rdbtype == TYPE_LIST || rdbtype == TYPE_SET || rdbtype == TYPE_HASH then
      var (len, _, rest) := LoadLen(b);
      if len == LENERR then None
      else if rdbtype == TYPE_HASH then
        match LoadFields(len, rest)
        case None => None
        case Some(m) => Some((HashValue(m.0), m.1))
      else
        match LoadElements(len, rest)
        case None => None
        case Some(l) => Some((if rdbtype == TYPE_LIST then ListValue(l.0) else SetValue(set t | t in l.0), l.1))
    else if rdbtype == TYPE_ZSET then
      var (len, _, rest) := LoadLen(b);
      if len == LENERR then None
      else match LoadScores(len, rest)
        case None => None
        case Some(m) => Some((SortedSetValue(m.0), m.1))
    else if TYPE_HASH_ZIPMAP <= rdbtype <= TYPE_HASH_ZIPLIST then
      match LoadString(b)
      case None => None
      case Some(t) => Some((PackedValue(rdbtype, t.0), t.1))
    else None
  }

  /** `b` is the value: the loader finds it, and stops right behind. */
  ghost predicate ObjectBytes(b: bytes, rdbtype: nat, v: Value) {
    forall rest: bytes :: LoadObject(rdbtype, b + rest) == Some((v, rest))
  }

  ghost predicate ElementsBytes(b: bytes, texts: seq<bytes>) {
    forall rest: bytes :: LoadElements(|texts|, b + rest) == Some((texts, rest))
  }

  ghost predicate FieldsBytes(b: bytes, n: nat, m: map<bytes, bytes>) {
    forall rest: bytes :: LoadFields(n, b + rest) == Some((m, rest))
  }

  ghost predicate ScoresBytes(b: bytes, n: nat, m: map<bytes, Score>) {
    forall rest: bytes :: LoadScores(n, b + rest) == Some((m, rest))
  }

  // ---- one element more

  lemma ElementsNone()
    ensures ElementsBytes([], [])
  {
    forall rest: bytes
      ensures LoadElements(0, [] + rest) == Some(([], rest))
    {
      assert [] + rest == rest;
    }
  }

  lemma ElementsMore(b: bytes, texts: seq<bytes>, piece: bytes, t: bytes)
    requires ElementsBytes(b, texts) && StringBytes(piece, t)
    ensures ElementsBytes(b + piece, texts + [t])
  {
    hide LoadString;
    forall rest: bytes
      ensures LoadElements(|texts + [t]|, b + piece + rest) == Some((texts + [t], rest))
    {
      ConcatAssoc(b, piece, rest);
      assert LoadElements(|texts|, b + (piece + rest)) == Some((texts, piece + rest));
      assert LoadString(piece + rest) == Some((t, rest));
    }
  }

  lemma FieldsNone()
    ensures FieldsBytes([], 0, map[])
  {
    forall rest: bytes
      ensures LoadFields(0, [] + rest) == Some((map[], rest))
    {
      assert [] + rest == rest;
    }
  }

  lemma FieldsMore(b: bytes, n: nat, m: map<bytes, bytes>, p1: bytes, f: bytes, p2: bytes, v: bytes)
    requires FieldsBytes(b, n, m) && StringBytes(p1, f) && StringBytes(p2, v) && f !in m
    ensures FieldsBytes(b + (p1 + p2), n + 1, m[f := v])
  {
    hide LoadString;
    forall rest: bytes
      ensures LoadFields(n + 1, b + (p1 + p2) + rest) == Some((m[f := v], rest))
    {
      ConcatAssoc(b, p1 + p2, rest);
      ConcatAssoc(p1, p2, rest);
      assert LoadFields(n, b + (p1 + (p2 + rest))) == Some((m, p1 + (p2 + rest)));
      assert LoadString(p1 + (p2 + rest)) == Some((f, p2 + rest));
      assert LoadString(p2 + rest) == Some((v, rest));
    }
  }

  lemma ScoreLoads(d: Score, rest: bytes)
    requires ScoreOk(d)
    ensures LoadScore(SaveScore(d) + rest) == Some((d, rest))
  {
    var b := SaveScore(d) + rest;
    if d.Finite? {
      assert b[1..1 + |d.text|] == d.text && b[1 + |d.text|..] == rest;
    } else {
      assert b[1..] == rest;
    }
  }

  lemma ScoresNone()
    ensures ScoresBytes([], 0, map[])
  {
    forall rest: bytes
      ensures LoadScores(0, [] + rest) == Some((map[], rest))
    {
      assert [] + rest == rest;
    }
  }

  lemma ScoresMore(b: bytes, n: nat, m: map<bytes, Score>, p1: bytes, e: bytes, d: Score)
    requires ScoresBytes(b, n, m) && StringBytes(p1, e) && ScoreOk(d) && e !in m
    ensures ScoresBytes(b + (p1 + SaveScore(d)), n + 1, m[e := d])
  {
    hide LoadString, LoadScore, SaveScore;
    var p2 := SaveScore(d);
    forall rest: bytes
      ensures LoadScores(n + 1, b + (p1 + p2) + rest) == Some((m[e := d], rest))
    {
      ConcatAssoc(b, p1 + p2, rest);
      ConcatAssoc(p1, p2, rest);
      ScoreLoads(d, rest);
      assert LoadScores(n, b + (p1 + (p2 + rest))) == Some((m, p1 + (p2 + rest)));
      assert LoadString(p1 + (p2 + rest)) == Some((e, p2 + rest));
    }
  }

  lemma CountedScores(b: bytes, n: nat, m: map<bytes, Score>)
    requires ScoresBytes(b, n, m) && n < LENERR
    ensures ObjectBytes(SaveLen(n) + b, TYPE_ZSET, SortedSetValue(m))
  {
    hide SaveLen, LoadLen, LoadScores;
    forall rest: bytes
      ensures LoadObject(TYPE_ZSET, SaveLen(n) + b + rest) == Some((SortedSetValue(m), rest))
    {
      ConcatAssoc(SaveLen(n), b, rest);
      LenLoads(n, b + rest);
    }
  }

  /** The count and the elements. */
  lemma CountedElements(b: bytes, texts: seq<bytes>)
    requires ElementsBytes(b, texts) && |texts| < LENERR
    ensures ObjectBytes(SaveLen(|texts|) + b, TYPE_LIST, ListValue(texts))
    ensures ObjectBytes(SaveLen(|texts|) + b, TYPE_SET, SetValue(set t | t in texts))
  {
    hide SaveLen, LoadLen, LoadElements;
    forall rest: bytes
      ensures LoadObject(TYPE_LIST, SaveLen(|texts|) + b + rest) == Some((ListValue(texts), rest))
      ensures LoadObject(TYPE_SET, SaveLen(|texts|) + b + rest) == Some((SetValue(set t | t in texts), rest))
    {
      ConcatAssoc(SaveLen(|texts|), b, rest);
      LenLoads(|texts|, b + rest);
    }
  }

  lemma CountedFields(b: bytes, n: nat, m: map<bytes, bytes>)
    requires FieldsBytes(b, n, m) && n < LENERR
    ensures ObjectBytes(SaveLen(n) + b, TYPE_HASH, HashValue(m))
  {
    hide SaveLen, LoadLen, LoadFields;
    forall rest: bytes
      ensures LoadObject(TYPE_HASH, SaveLen(n) + b + rest) == Some((HashValue(m), rest))
    {
      ConcatAssoc(SaveLen(n), b, rest);
      LenLoads(n, b + rest);
    }
  }

  // ---- saving

  /** The loop over the elements of a list or a set. */
  method SaveElements(l: seq<Str>, compression: bool) returns (b: bytes)
    requires forall i :: 0 <= i < |l| ==> Storable(l[i])
    ensures ElementsBytes(b, Texts(l))
  {
    hide ElementsBytes, StringBytes;
    ElementsNone();
    b := [];
    var i := 0;
    while i < |l|
      invariant i <= |l| && ElementsBytes(b, Texts(l)[..i])
    {
      var piece := SaveStringObject(l[i], compression);
      ElementsMore(b, Texts(l)[..i], piece, Text(l[i]));
      assert Texts(l)[..i + 1] == Texts(l)[..i] + [Text(l[i])];
      b := b + piece;
      i := i + 1;
    }
    assert Texts(l)[..i] == Texts(l);
  }

  /** The loop over the entries of a sorted set. */
  method SaveScores(es: seq<(Str, Score)>, compression: bool) returns (b: bytes)
    requires Saveable(SortedSetObject(es))
    ensures ScoresBytes(b, |es|, ScoresOf(es))
  {
    hide ScoresBytes, StringBytes, SaveScore;
    ScoresNone();
    b := [];
    var i := 0;
    while i < |es|
      invariant i <= |es| && ScoresBytes(b, i, ScoresOf(es[..i]))
    {
      var p := SaveStringObject(es[i].0, compression);
      NewMember(es, i);
      ScoresMore(b, i, ScoresOf(es[..i]), p, Text(es[i].0), es[i].1);
      b := b + (p + SaveScore(es[i].1));
      i := i + 1;
    }
    assert es[..i] == es;
  }

  lemma {:induction false} MembersOf(es: seq<(Str, Score)>, e: bytes)
    requires forall i :: 0 <= i < |es| ==> Text(es[i].0) != e
    ensures e !in ScoresOf(es)
  {
    if es != [] { MembersOf(es[..|es| - 1], e); }
  }

  lemma NewMember(es: seq<(Str, Score)>, i: nat)
    requires Saveable(SortedSetObject(es)) && i < |es|
    ensures Text(es[i].0) !in ScoresOf(es[..i])
    ensures ScoresOf(es[..i + 1]) == ScoresOf(es[..i])[Text(es[i].0) := es[i].1]
  {
    MembersOf(es[..i], Text(es[i].0));
    assert es[..i + 1][..i] == es[..i];
  }

  /** The loop over the entries of a hash. */
  method SaveFields(ps: seq<(Str, Str)>, compression: bool) returns (b: bytes)
    requires Saveable(HashObject(ps))
    ensures FieldsBytes(b, |ps|, MapOf(ps))
  {
    hide FieldsBytes, StringBytes;
    FieldsNone();
    b := [];
    var i := 0;
    while i < |ps|
      invariant i <= |ps| && FieldsBytes(b, i, MapOf(ps[..i]))
    {
      var p1 := SaveStringObject(ps[i].0, compression);
      var p2 := SaveStringObject(ps[i].1, compression);
      NewField(ps, i);
      FieldsMore(b, i, MapOf(ps[..i]), p1, Text(ps[i].0), p2, Text(ps[i].1));
      b := b + (p1 + p2);
      i := i + 1;
    }
    assert ps[..i] == ps;
  }

  lemma {:induction false} FieldsOf(ps: seq<(Str, Str)>, f: bytes)
    requires forall i :: 0 <= i < |ps| ==> Text(ps[i].0) != f
    ensures f !in MapOf(ps)
  {
    if ps != [] { FieldsOf(ps[..|ps| - 1], f); }
  }

  lemma NewField(ps: seq<(Str, Str)>, i: nat)
    requires Saveable(HashObject(ps)) && i < |ps|
    ensures Text(ps[i].0) !in MapOf(ps[..i])
    ensures MapOf(ps[..i + 1]) == MapOf(ps[..i])[Text(ps[i].0) := Text(ps[i].1)]
  {
    FieldsOf(ps[..i], Text(ps[i].0));
    assert ps[..i + 1][..i] == ps[..i];
  }

  lemma StringIsObject(b: bytes, t: bytes)
    requires StringBytes(b, t)
    ensures ObjectBytes(b, TYPE_STRING, StringValue(t))
    ensures forall kind :: TYPE_HASH_ZIPMAP <= kind <= TYPE_HASH_ZIPLIST ==> ObjectBytes(b, kind, PackedValue(kind, t))
  {
    hide LoadString;
  }

  /** `rdbSaveObject`: the bytes load as the same value. */
  method SaveObject(o: Object, compression: bool) returns (b: bytes)
    requires Saveable(o)
    ensures ObjectBytes(b, ObjectType(o), Logical(o))
  {
    hide ObjectBytes, ElementsBytes, FieldsBytes, ScoresBytes, StringBytes, SaveLen;
    match o {
      case StringObject(s) =>
        b := SaveStringObject(s, compression);
        StringIsObject(b, Text(s));
      case ListObject(l) =>
        var elements := SaveElements(l, compression);
        CountedElements(elements, Texts(l));
        b := SaveLen(|l|) + elements;
      case SetObject(l) =>
        var elements := SaveElements(l, compression);
        CountedElements(elements, Texts(l));
        b := SaveLen(|l|) + elements;
      case SortedSetObject(es) =>
        var entries := SaveScores(es, compression);
        CountedScores(entries, |es|, ScoresOf(es));
        b := SaveLen(|es|) + entries;
      case HashObject(ps) =>
        var fields := SaveFields(ps, compression);
        CountedFields(fields, |ps|, MapOf(ps));
        b := SaveLen(|ps|) + fields;
      case Packed(kind, blob) =>
        b := SaveRawString(blob, compression);
        StringIsObject(b, blob);
    }
  }

  // ---- loading

  /** The loops over elements. */
  method ReadElements(len: nat, s: bytes) returns (r: Option<(seq<bytes>, bytes)>)
    ensures r == LoadElements(len, s)
  {
    hide LoadString;
    var l: seq<bytes>, rest, i := [], s, 0;
    while i < len
      invariant i <= len && LoadElements(i, s) == Some((l, rest))
    {
      var t := LoadStringObject(rest);
      if t.None? {
        LoadElementsFails(i + 1, len, s);
        return None;
      }
      l, rest := l + [t.value.0], t.value.1;
      i := i + 1;
    }
    r := Some((l, rest));
  }

  lemma {:induction false} LoadElementsFails(i: nat, n: nat, s: bytes)
    requires i <= n && LoadElements(i, s) == None
    ensures LoadElements(n, s) == None
  {
    hide LoadString;
    if i < n { LoadElementsFails(i, n - 1, s); }
  }

  /** The loops over fields and values. */
  method ReadFields(len: nat, s: bytes) returns (r: Option<(map<bytes, bytes>, bytes)>)
    ensures r == LoadFields(len, s)
  {
    hide LoadString;
    var m: map<bytes, bytes>, rest, i := map[], s, 0;
    while i < len
      invariant i <= len && LoadFields(i, s) == Some((m, rest))
    {
      var f := LoadStringObject(rest);
      if f.None? {
        LoadFieldsFails(i + 1, len, s);
        return None;
      }
      var v := LoadStringObject(f.value.1);
      if v.None? || f.value.0 in m {
        LoadFieldsFails(i + 1, len, s);
        return None;
      }
      m, rest := m[f.value.0 := v.value.0], v.value.1;
      i := i + 1;
    }
    r := Some((m, rest));
  }

  lemma {:induction false} LoadFieldsFails(i: nat, n: nat, s: bytes)
    requires i <= n && LoadFields(i, s) == None
    ensures LoadFields(n, s) == None
  {
    hide LoadString;
    if i < n { LoadFieldsFails(i, n - 1, s); }
  }

  /** The loop over members and scores. */
  method ReadScores(len: nat, s: bytes) returns (r: Option<(map<bytes, Score>, bytes)>)
    ensures r == LoadScores(len, s)
  {
    hide LoadString, LoadScore;
    var m: map<bytes, Score>, rest, i := map[], s, 0;
    while i < len
      invariant i <= len && LoadScores(i, s) == Some((m, rest))
    {
      var e := LoadStringObject(rest);
      if e.None? {
        LoadScoresFails(i + 1, len, s);
        return None;
      }
      var d := LoadScore(e.value.1);
      if d.None? || e.value.0 in m {
        LoadScoresFails(i + 1, len, s);
        return None;
      }
      m, rest := m[e.value.0 := d.value.0], d.value.1;
      i := i + 1;
    }
    r := Some((m, rest));
  }

  lemma {:induction false} LoadScoresFails(i: nat, n: nat, s: bytes)
    requires i <= n && LoadScores(i, s) == None
    ensures LoadScores(n, s) == None
  {
    hide LoadString, LoadScore;
    if i < n { LoadScoresFails(i, n - 1, s); }
  }

  /** `rdbLoadObject`. */
  method ReadObject(rdbtype: nat, s: bytes) returns (r: Option<(Value, bytes)>)
    ensures r == LoadObject(rdbtype, s)
  {
    hide LoadString, LoadLen, LoadElements, LoadFields, LoadScores;
    if rdbtype == TYPE_STRING || TYPE_HASH_ZIPMAP <= rdbtype <= TYPE_HASH_ZIPLIST {
      var t := LoadStringObject(s);
      if t.None? { return None; }
      var (text, left) := t.value;
      return Some((if rdbtype == TYPE_STRING then StringValue(text) else PackedValue(rdbtype, text), left));
    }
    if rdbtype > TYPE_HASH { return None; }
    var (len, _, rest) := LoadLen(s);
    if len == LENERR { return None; }
    if rdbtype == TYPE_ZSET {
      var m := ReadScores(len, rest);
      if m.None? { return None; }
      return Some((SortedSetValue(m.value.0), m.value.1));
    }
    if rdbtype == TYPE_HASH {
      var m := ReadFields(len, rest);
      if m.None? { return None; }
      return Some((HashValue(m.value.0), m.value.1));
    }
    var l := ReadElements(len, rest);
    if l.None? { return None; }
    r := Some((if rdbtype == TYPE_LIST then ListValue(l.value.0) else SetValue(set t | t in l.value.0), l.value.1));
  }
}
