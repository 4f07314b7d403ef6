/** migrate.c, DUMP and RESTORE of values: type, serialized value, version and checksum. */
module RdbDump {
  import opened Bytes
  import opened RdbStrings
  import opened RdbObjects
  import opened Crc64Table
  import Crc64
  import opened RdbChecksum

  /** The payload was made by `createDumpPayload` from some body. */
  predicate IsPayload(p: bytes) {
    |p| >= 10 && Octets(p) == Crc64.Payload(Octets(p)[..|p| - 10])
  }

  /** What RESTORE makes of a payload; `None` is one of its error replies. */
  function Restored(p: bytes): Option<Value> {
    if !IsPayload(p) then None
    else match LoadObject(p[0], p[1..])
      case None => None
      case Some(v) => Some(v.0)
  }

  /** The checks of `restoreCommand`, and the loader. */
  method Restore(p: bytes) returns (r: Option<Value>)
    ensures r == Restored(p)
  {
    hide Octets, Crc64.Payload, LoadObject;
    var ok := Crc64.VerifyDumpPayload(Octets(p));
    if !ok { return None; }
    var v := ReadObject(p[0], p[1..]);
    if v.None? { return None; }
    r := Some(v.value.0);
  }

  /** `createDumpPayload` of an object. */
  method Dump(o: Object, compression: bool) returns (p: bytes)
    requires Saveable(o)
    ensures IsPayload(p) && Restored(p) == Some(Logical(o))
  {
    hide ObjectBytes, Saveable, LoadObject, Octets, FromOctets, Crc64.Payload, Logical;
    var b := SaveObject(o, compression);
    var body := [ObjectType(o)] + b;
    var payload := Crc64.CreateDumpPayload(Octets(body));
    p := FromOctets(payload);
    OctetsBack(payload);
    PayloadBegins(body, payload, p);
    ObjectFound(b, ObjectType(o), Logical(o), p);
  }

  /** The body is at the front of the payload. */
  lemma PayloadBegins(body: bytes, payload: seq<octet>, p: bytes)
    requires payload == Crc64.Payload(Octets(body)) && Octets(p) == payload
    ensures |p| == |body| + 10 && p[..|body|] == body && IsPayload(p)
  {
    hide Crc64.Crc, Crc64.WordBytes;
    var n := |body|;
    assert payload[..n] == Octets(body);
    assert Octets(p[..n]) == Octets(p)[..n];
    OctetsTell(p[..n], body);
  }

  lemma ObjectFound(b: bytes, rdbtype: byte, v: Value, p: bytes)
    requires ObjectBytes(b, rdbtype, v) && |p| == |b| + 11 && p[..|b| + 1] == [rdbtype] + b
    ensures p[0] == rdbtype && LoadObject(rdbtype, p[1..]).Some? && LoadObject(rdbtype, p[1..]).value.0 == v
  {
    assert p[0] == p[..|b| + 1][0];
    assert p[1..] == b + p[|b| + 1..] by {
      assert p == p[..|b| + 1] + p[|b| + 1..];
    }
    hide LoadObject;
  }

  /** A dumped value is restored as what it was. */
  method DumpRestore(o: Object, compression: bool) returns (r: Option<Value>)
    requires Saveable(o)
    ensures r == Some(Logical(o))
  {
    hide Restored, Saveable, Logical, IsPayload;
    var p := Dump(o, compression);
    r := Restore(p);
  }

  /** No payload damaged within eight bytes in a row is restored. */
  lemma DamagedIsNotRestored(p: bytes, q: bytes, at: nat)
    requires IsPayload(p) && SameBut(p, q, at) && q != p
    ensures Restored(q) == None
  {
    if Octets(p) == Octets(q) { OctetsTell(p, q); }
    SameOctets(p, q, at);
    hide Octets, SameBut, Crc64.Payload, Crc64.SameOutside, LoadObject;
    Crc64.DamageIsRejected(Octets(p)[..|p| - 10], Octets(q), at);
  }
}
