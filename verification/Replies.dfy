/** networking.c, the output of a client: a static buffer, then a list of chunks, into which the length of
    a multi bulk reply may be filled later, all drained by partial writes. */
module Replies {
  import opened Bytes
  import opened Decimal
  import opened Resp

  const CHUNK_BYTES := 16 * 1024          // REDIS_REPLY_CHUNK_BYTES
  const MAX_WRITE_PER_EVENT := 1024 * 64  // REDIS_MAX_WRITE_PER_EVENT

  // ---- what the client is to receive

  /** Output in which some lengths are not known yet. */
  datatype Symbol = Byte(b: byte) | Hole(id: nat)

  /** A reply as the commands give it: a text, or a length to be told later. */
  datatype Reply = Text(text: bytes) | Deferred(id: nat)

  function Lift(b: bytes): (r: seq<Symbol>)
    ensures |r| == |b| && forall i :: 0 <= i < |b| ==> r[i] == Byte(b[i])
  {
    seq(|b|, i requires 0 <= i < |b| => Byte(b[i]))
  }

  function LengthText(n: int): bytes {
    [STAR] + Dec(n) + CRLF
  }

  function ReplyOut(r: Reply, lens: map<nat, int>): seq<Symbol> {
    match r
    case Text(t) => Lift(t)
    case Deferred(id) => if id in lens then Lift(LengthText(lens[id])) else [Hole(id)]
  }

  /** All replies, in the order in which they were made, with the lengths told so far. */
  function Expected(replies: seq<Reply>, lens: map<nat, int>): seq<Symbol> {
    if replies == [] then [] else ReplyOut(replies[0], lens) + Expected(replies[1..], lens)
  }

  // ---- what the client object holds

  /** A node of the reply list; `text` is none until a deferred length is told. */
  datatype Node = Node(id: nat, text: Option<bytes>)

  function NodeOut(n: Node): seq<Symbol> {
    if n.text.None? then [Hole(n.id)] else Lift(n.text.value)
  }

  function Out(l: seq<Node>): seq<Symbol> {
    if l == [] then [] else NodeOut(l[0]) + Out(l[1..])
  }

  ghost predicate Distinct(l: seq<Node>) {
    forall i, j :: 0 <= i < j < |l| ==> l[i].id != l[j].id
  }

  ghost predicate AllTold(l: seq<Node>) {
    forall i :: 0 <= i < |l| ==> l[i].text.Some?
  }

  /** The first node has been sent up to `skip`. */
  ghost predicate Skips(l: seq<Node>, skip: nat) {
    skip == 0 || (l != [] && l[0].text.Some? && skip < |l[0].text.value|)
  }

  /** Everything, from the first byte written to the last byte queued. */
  ghost function Stream(sent: bytes, l: seq<Node>, skip: nat): seq<Symbol>
    requires Skips(l, skip)
  {
    Lift(sent) + Out(l)[skip..]
  }

  lemma LiftConcat(a: bytes, b: bytes)
    ensures Lift(a + b) == Lift(a) + Lift(b)
  {
  }

  lemma {:induction false} OutConcat(x: seq<Node>, y: seq<Node>)
    ensures Out(x + y) == Out(x) + Out(y)
  {
    if x == [] {
      assert x + y == y;
    } else {
      assert (x + y)[1..] == x[1..] + y;
      OutConcat(x[1..], y);
    }
  }

  lemma OutOne(n: Node)
    ensures Out([n]) == NodeOut(n)
  {
    var l := [n];
    assert l[1..] == [];
  }

  lemma {:induction false} ExpectedSnoc(replies: seq<Reply>, r: Reply, lens: map<nat, int>)
    ensures Expected(replies + [r], lens) == Expected(replies, lens) + ReplyOut(r, lens)
  {
    if replies == [] {
      assert (replies + [r])[1..] == [];
    } else {
      assert (replies + [r])[1..] == replies[1..] + [r];
      ExpectedSnoc(replies[1..], r, lens);
    }
  }

  // ---- telling a length

  /** `s` with the text put where the hole is. */
  ghost function Fill(s: seq<Symbol>, id: nat, t: bytes): seq<Symbol> {
    if s == [] then [] else (if s[0] == Hole(id) then Lift(t) else [s[0]]) + Fill(s[1..], id, t)
  }

  lemma {:induction false} FillConcat(x: seq<Symbol>, y: seq<Symbol>, id: nat, t: bytes)
    ensures Fill(x + y, id, t) == Fill(x, id, t) + Fill(y, id, t)
  {
    if x == [] {
      assert x + y == y;
    } else {
      assert (x + y)[1..] == x[1..] + y;
      FillConcat(x[1..], y, id, t);
    }
  }

  lemma {:induction false} FillNothing(s: seq<Symbol>, id: nat, t: bytes)
    requires Hole(id) !in s
    ensures Fill(s, id, t) == s
  {
    if s != [] { FillNothing(s[1..], id, t); }
  }

  lemma FillHole(id: nat, t: bytes)
    ensures Fill([Hole(id)], id, t) == Lift(t)
  {
    var s := [Hole(id)];
    assert s[1..] == [];
  }

  lemma {:induction false} FillExpected(replies: seq<Reply>, lens: map<nat, int>, id: nat, n: int)
    requires id !in lens
    ensures Expected(replies, lens[id := n]) == Fill(Expected(replies, lens), id, LengthText(n))
  {
    hide LengthText;
    if replies != [] {
      var r, t := replies[0], LengthText(n);
      FillExpected(replies[1..], lens, id, n);
      FillConcat(ReplyOut(r, lens), Expected(replies[1..], lens), id, t);
      if r == Deferred(id) {
        FillHole(id, t);
      } else {
        FillNothing(ReplyOut(r, lens), id, t);
      }
    }
  }

  lemma {:induction false} FillOut(l: seq<Node>, i: nat, t: bytes)
    requires i < |l| && Distinct(l) && l[i].text.None?
    ensures Fill(Out(l), l[i].id, t) == Out(l[i := l[i].(text := Some(t))])
  {
    var id, l' := l[i].id, l[i := l[i].(text := Some(t))];
    FillConcat(NodeOut(l[0]), Out(l[1..]), id, t);
    if i == 0 {
      FillHole(id, t);
      OutLacks(l[1..], id);
      FillNothing(Out(l[1..]), id, t);
      assert l'[1..] == l[1..];
    } else {
      FillNothing(NodeOut(l[0]), id, t);
      FillOut(l[1..], i - 1, t);
      assert l'[1..] == l[1..][i - 1 := l[i].(text := Some(t))];
    }
  }

  lemma {:induction false} OutLacks(l: seq<Node>, id: nat)
    requires forall i :: 0 <= i < |l| ==> l[i].id != id
    ensures Hole(id) !in Out(l)
  {
    if l != [] { OutLacks(l[1..], id); }
  }

  /** The part of the first node that has been sent has no hole. */
  lemma FillSkipped(l: seq<Node>, skip: nat, id: nat, t: bytes)
    requires Skips(l, skip)
    ensures |Fill(Out(l), id, t)| >= skip && Fill(Out(l), id, t)[skip..] == Fill(Out(l)[skip..], id, t)
  {
    var out := Out(l);
    var head, rest := out[..skip], out[skip..];
    assert forall k :: 0 <= k < skip ==> out[k] == NodeOut(l[0])[k];
    assert out == head + rest;
    FillConcat(head, rest, id, t);
    FillNothing(head, id, t);
  }

  /** Telling the length of node `i` fills its hole in the stream. */
  lemma FillStream(sent: bytes, l: seq<Node>, skip: nat, i: nat, t: bytes)
    requires Skips(l, skip) && i < |l| && Distinct(l) && l[i].text.None?
    ensures Skips(l[i := l[i].(text := Some(t))], skip)
    ensures Stream(sent, l[i := l[i].(text := Some(t))], skip) == Fill(Stream(sent, l, skip), l[i].id, t)
  {
    var id := l[i].id;
    FillOut(l, i, t);
    FillSkipped(l, skip, id, t);
    FillConcat(Lift(sent), Out(l)[skip..], id, t);
    FillNothing(Lift(sent), id, t);
    hide Fill, Out;
  }

  lemma OutTwo(a: Node, b: Node, id: nat)
    requires a.text.Some? && b.text.Some?
    ensures Out([a, b]) == NodeOut(Node(id, Some(a.text.value + b.text.value)))
  {
    LiftConcat(a.text.value, b.text.value);
    hide Lift;
    OutOne(b);
    var l := [a, b];
    assert l[1..] == [b];
  }

  /** Joining two neighbours changes nothing. */
  lemma Glue(l: seq<Node>, i: nat)
    requires i + 1 < |l| && l[i].text.Some? && l[i + 1].text.Some?
    ensures Out(Glued(l, i)) == Out(l)
  {
    hide Out, NodeOut;
    var n := Node(l[i].id, Some(l[i].text.value + l[i + 1].text.value));
    OutTwo(l[i], l[i + 1], n.id);
    OutOne(n);
    OutConcat(l[..i], [n]);
    OutConcat(l[..i] + [n], l[i + 2..]);
    OutConcat(l[..i], [l[i], l[i + 1]]);
    OutConcat(l[..i] + [l[i], l[i + 1]], l[i + 2..]);
    assert l == l[..i] + [l[i], l[i + 1]] + l[i + 2..];
  }

  function Glued(l: seq<Node>, i: nat): seq<Node>
    requires i + 1 < |l| && l[i].text.Some? && l[i + 1].text.Some?
  {
    l[..i] + [Node(l[i].id, Some(l[i].text.value + l[i + 1].text.value))] + l[i + 2..]
  }

  // ---- queueing and sending

  lemma StreamSnoc(sent: bytes, l: seq<Node>, skip: nat, n: Node)
    requires Skips(l, skip)
    ensures Skips(l + [n], skip) && Stream(sent, l + [n], skip) == Stream(sent, l, skip) + NodeOut(n)
  {
    OutConcat(l, [n]);
    OutOne(n);
  }

  lemma OutAppend(l: seq<Node>, s: bytes)
    requires l != [] && l[|l| - 1].text.Some?
    ensures Out(l[|l| - 1 := Node(l[|l| - 1].id, Some(l[|l| - 1].text.value + s))]) == Out(l) + Lift(s)
  {
    var n := l[|l| - 1];
    var front, n' := l[..|l| - 1], Node(n.id, Some(n.text.value + s));
    assert l == front + [n] && l[|l| - 1 := n'] == front + [n'];
    OutConcat(front, [n]);
    OutConcat(front, [n']);
    OutOne(n);
    OutOne(n');
    LiftConcat(n.text.value, s);
    hide Out, Lift;
    ConcatAssoc(Out(front), NodeOut(n), Lift(s));
  }

  lemma SkipWithin(l: seq<Node>, skip: nat)
    requires Skips(l, skip)
    ensures skip <= |Out(l)|
  {
  }

  lemma SkipsAppended(l: seq<Node>, skip: nat, s: bytes)
    requires Skips(l, skip) && l != [] && l[|l| - 1].text.Some?
    ensures Skips(l[|l| - 1 := Node(l[|l| - 1].id, Some(l[|l| - 1].text.value + s))], skip)
  {
  }

  lemma RestOfConcat<T>(a: seq<T>, b: seq<T>, k: nat)
    requires k <= |a|
    ensures (a + b)[k..] == a[k..] + b
  {
  }

  /** Text appended to the last node of the list. */
  lemma StreamAppend(sent: bytes, l: seq<Node>, skip: nat, s: bytes)
    requires Skips(l, skip) && l != [] && l[|l| - 1].text.Some?
    ensures var l' := l[|l| - 1 := Node(l[|l| - 1].id, Some(l[|l| - 1].text.value + s))];
      Skips(l', skip) && Stream(sent, l', skip) == Stream(sent, l, skip) + Lift(s)
  {
    OutAppend(l, s);
    SkipWithin(l, skip);
    SkipsAppended(l, skip, s);
    hide Out, Lift, Skips;
    RestOfConcat(Out(l), Lift(s), skip);
    ConcatAssoc(Lift(sent), Out(l)[skip..], Lift(s));
  }

  /** Bytes of the first node move from unsent to sent; the node goes when nothing of it is left. */
  lemma StreamSent(sent: bytes, l: seq<Node>, skip: nat, k: nat)
    requires Skips(l, skip) && l != [] && l[0].text.Some? && skip + k <= |l[0].text.value|
    ensures var more := sent + l[0].text.value[skip..skip + k];
      && (skip + k < |l[0].text.value| ==> Stream(more, l, skip + k) == Stream(sent, l, skip))
      && (skip + k == |l[0].text.value| ==> Stream(more, l[1..], 0) == Stream(sent, l, skip))
  {
    var t := l[0].text.value;
    LiftConcat(sent, t[skip..skip + k]);
    LiftedPart(t, Out(l[1..]), skip, k);
    ConcatAssoc(Lift(sent), Lift(t[skip..skip + k]), (Lift(t) + Out(l[1..]))[skip + k..]);
    AfterLifted(t, Out(l[1..]));
    hide Lift;
  }

  lemma LiftedPart(t: bytes, rest: seq<Symbol>, skip: nat, k: nat)
    requires skip + k <= |t|
    ensures (Lift(t) + rest)[skip..] == Lift(t[skip..skip + k]) + (Lift(t) + rest)[skip + k..]
  {
  }

  lemma AfterLifted(t: bytes, rest: seq<Symbol>)
    ensures (Lift(t) + rest)[|t|..] == rest
  {
  }

  // ---- conservation, on values

  /** What was sent and what is queued is what the replies add up to. */
  ghost predicate Conserves(sent: bytes, l: seq<Node>, skip: nat, replies: seq<Reply>, lens: map<nat, int>) {
    Skips(l, skip) && Stream(sent, l, skip) == Expected(replies, lens)
  }

  /** Nodes have addresses of their own, and a node without text has a length not yet told. */
  ghost predicate ListOk(l: seq<Node>, nextId: nat, lens: map<nat, int>) {
    && Distinct(l)
    && (forall i :: 0 <= i < |l| ==> l[i].id < nextId)
    && (forall i :: 0 <= i < |l| && l[i].text.None? ==> l[i].id !in lens)
    && (forall id :: id in lens ==> id < nextId)
  }

  lemma ConservesText(sent: bytes, s: bytes, replies: seq<Reply>, lens: map<nat, int>)
    requires Conserves(sent, [], 0, replies, lens)
    ensures Conserves(sent + s, [], 0, replies + [Text(s)], lens)
  {
    LiftConcat(sent, s);
    ExpectedSnoc(replies, Text(s), lens);
    hide Lift, Expected;
  }

  function Appended(l: seq<Node>, s: bytes): seq<Node>
    requires l != [] && l[|l| - 1].text.Some?
  {
    l[|l| - 1 := Node(l[|l| - 1].id, Some(l[|l| - 1].text.value + s))]
  }

  lemma ConservesAppended(sent: bytes, l: seq<Node>, skip: nat, replies: seq<Reply>, lens: map<nat, int>, s: bytes)
    requires Conserves(sent, l, skip, replies, lens) && l != [] && l[|l| - 1].text.Some?
    ensures Conserves(sent, Appended(l, s), skip, replies + [Text(s)], lens)
  {
    hide Out, Expected, Lift, Stream;
    StreamAppend(sent, l, skip, s);
    ExpectedSnoc(replies, Text(s), lens);
  }

  lemma ConservesSnoc(sent: bytes, l: seq<Node>, skip: nat, replies: seq<Reply>, lens: map<nat, int>, n: Node)
    requires Conserves(sent, l, skip, replies, lens) && (n.text.None? ==> n.id !in lens)
    ensures var reply := if n.text.Some? then Text(n.text.value) else Deferred(n.id);
      Conserves(sent, l + [n], skip, replies + [reply], lens)
  {
    hide Out, Expected, Lift, Stream;
    StreamSnoc(sent, l, skip, n);
    ExpectedSnoc(replies, if n.text.Some? then Text(n.text.value) else Deferred(n.id), lens);
  }

  lemma ListOkSnoc(l: seq<Node>, nextId: nat, lens: map<nat, int>, text: Option<bytes>)
    requires ListOk(l, nextId, lens)
    ensures ListOk(l + [Node(nextId, text)], nextId + 1, lens)
  {
  }

  lemma ListOkAppended(l: seq<Node>, nextId: nat, lens: map<nat, int>, s: bytes)
    requires ListOk(l, nextId, lens) && l != [] && l[|l| - 1].text.Some?
    ensures ListOk(Appended(l, s), nextId, lens)
  {
  }

  function Told(l: seq<Node>, i: nat, length: int): seq<Node>
    requires i < |l|
  {
    l[i := l[i].(text := Some(LengthText(length)))]
  }

  lemma ConservesTold(sent: bytes, l: seq<Node>, skip: nat, replies: seq<Reply>, lens: map<nat, int>,
                      i: nat, length: int)
    requires Conserves(sent, l, skip, replies, lens) && i < |l| && Distinct(l)
    requires l[i].text.None? && l[i].id !in lens
    ensures Conserves(sent, Told(l, i, length), skip, replies, lens[l[i].id := length])
  {
    hide Out, Expected, Lift, Stream, LengthText, Fill;
    FillStream(sent, l, skip, i, LengthText(length));
    FillExpected(replies, lens, l[i].id, length);
  }

  lemma ListOkTold(l: seq<Node>, nextId: nat, lens: map<nat, int>, i: nat, length: int)
    requires ListOk(l, nextId, lens) && i < |l| && l[i].text.None?
    ensures ListOk(Told(l, i, length), nextId, lens[l[i].id := length])
  {
    hide LengthText;
  }

  lemma ConservesGlued(sent: bytes, l: seq<Node>, skip: nat, replies: seq<Reply>, lens: map<nat, int>, i: nat)
    requires Conserves(sent, l, skip, replies, lens)
    requires i + 1 < |l| && l[i].text.Some? && l[i + 1].text.Some?
    ensures Conserves(sent, Glued(l, i), skip, replies, lens)
  {
    Glue(l, i);
    hide Out;
  }

  lemma ListOkGlued(l: seq<Node>, nextId: nat, lens: map<nat, int>, i: nat)
    requires ListOk(l, nextId, lens) && i + 1 < |l| && l[i].text.Some? && l[i + 1].text.Some?
    ensures ListOk(Glued(l, i), nextId, lens)
    ensures forall n :: n in l && n.text.None? ==> n in Glued(l, i)
    ensures forall n :: n in Glued(l, i) && n.text.None? ==> n in l
  {
    var g := Glued(l, i);
    forall j | 0 <= j < |g|
      ensures g[j].id == l[if j <= i then j else j + 1].id
      ensures g[j].text.None? ==> g[j] == l[if j < i then j else j + 1]
    {
      GluedAt(l, i, j);
    }
    hide Glued;
    forall n | n in l && n.text.None?
      ensures n in g
    {
      var j :| 0 <= j < |l| && l[j] == n;
      GluedAt(l, i, if j < i then j else j - 1);
    }
  }

  lemma GluedAt(l: seq<Node>, i: nat, j: nat)
    requires i + 1 < |l| && l[i].text.Some? && l[i + 1].text.Some? && j + 1 < |l|
    ensures |Glued(l, i)| == |l| - 1
    ensures j != i ==> Glued(l, i)[j] == l[if j < i then j else j + 1]
    ensures j == i ==> Glued(l, i)[j].id == l[i].id && Glued(l, i)[j].text.Some?
  {
  }

  lemma ConservesSent(sent: bytes, l: seq<Node>, skip: nat, replies: seq<Reply>, lens: map<nat, int>, k: nat)
    requires Conserves(sent, l, skip, replies, lens)
    requires l != [] && l[0].text.Some? && skip + k <= |l[0].text.value|
    ensures var t := l[0].text.value;
      Conserves(sent + t[skip..skip + k], if skip + k == |t| then l[1..] else l,
                if skip + k == |t| then 0 else skip + k, replies, lens)
  {
    StreamSent(sent, l, skip, k);
    hide Out, Stream;
  }

  lemma ListOkRest(l: seq<Node>, nextId: nat, lens: map<nat, int>)
    requires ListOk(l, nextId, lens) && l != []
    ensures ListOk(l[1..], nextId, lens)
  {
  }

  lemma ConservesAll(sent: bytes, replies: seq<Reply>, lens: map<nat, int>)
    requires Conserves(sent, [], 0, replies, lens)
    ensures Lift(sent) == Expected(replies, lens)
  {
  }

  class Client {
    const buf: array<byte>
    var bufpos: nat
    var sentlen: nat
    var reply: seq<Node>
    var nextId: nat             // the address the allocator gives next
    var closing: bool           // REDIS_CLOSE_AFTER_REPLY
    var written: bytes          // what the socket has taken
    ghost var replies: seq<Reply>
    ghost var lens: map<nat, int>

    ghost predicate Valid()
      reads this
    {
      && buf.Length == CHUNK_BYTES && bufpos <= CHUNK_BYTES
      && (bufpos > 0 ==> sentlen < bufpos)
      && ListOk(reply, nextId, lens)
    }

    /** What of the buffer has not been written yet. */
    ghost function Unsent(): bytes
      requires Valid()
      reads this, buf
    {
      if bufpos > 0 then buf[sentlen..bufpos] else []
    }

    /** How much of the first node of the list has been written. */
    ghost function Skip(): nat
      reads this
    {
      if bufpos > 0 then 0 else sentlen
    }

    /** Written bytes, unsent bytes of the buffer, unsent bytes of the list: all replies in order. */
    ghost predicate Conserved()
      requires Valid()
      reads this, buf
    {
      Conserves(written + Unsent(), reply, Skip(), replies, lens)
    }

    constructor ()
      ensures Valid() && Conserved() && replies == [] && lens == map[] && written == [] && !closing
    {
      buf := new byte[CHUNK_BYTES];
      bufpos, sentlen, reply, nextId, closing, written, replies, lens := 0, 0, [], 0, false, [], [], map[];
    }

    /** The `memcpy` into the buffer. */
    method CopyIn(at: nat, s: bytes)
      requires at + |s| <= buf.Length
      modifies buf
      ensures buf[..at + |s|] == old(buf[..at]) + s
    {
      forall i | 0 <= i < |s| { buf[at + i] := s[i]; }
    }

    /** The copy of a text to the end of the used part of the buffer. */
    method Store(s: bytes)
      requires Valid() && bufpos + |s| <= CHUNK_BYTES && (bufpos == 0 ==> sentlen == 0)
      modifies this`bufpos, buf
      ensures Valid() && Unsent() == old(Unsent()) + s && Skip() == 0
    {
      hide ListOk;
      ghost var head := buf[..bufpos];
      assert Unsent() == head[sentlen..];
      CopyIn(bufpos, s);
      bufpos := bufpos + |s|;
      Joined(buf[..bufpos], sentlen, head, s);
      assert buf[sentlen..bufpos] == buf[..bufpos][sentlen..];
    }

    /** `_addReplyToBuffer`, unless the client is closing. */
    method AddReplyToBuffer(s: bytes) returns (ok: bool)
      requires Valid() && Conserved() && !closing
      modifies this`bufpos, this`replies, buf
      ensures Valid() && Conserved()
      ensures ok <==> reply == [] && old(bufpos) + |s| <= CHUNK_BYTES
      ensures replies == if ok then old(replies) + [Text(s)] else old(replies)
    {
      if |reply| > 0 || |s| > CHUNK_BYTES - bufpos { return false; }
      assert Skip() == 0;
      hide Conserves, ListOk;
      ConservesText(written + Unsent(), s, replies, lens);
      ConcatAssoc(written, Unsent(), s);
      Store(s);
      replies := replies + [Text(s)];
      ok := true;
    }

    /** `_addReplyStringToList`; the object and sds variants queue the same bytes. */
    method AddReplyStringToList(s: bytes)
      requires Valid() && Conserved() && !closing
      modifies this`reply, this`nextId, this`replies
      ensures Valid() && Conserved() && replies == old(replies) + [Text(s)]
      ensures forall n: Node :: n.text.None? ==> (n in reply <==> n in old(reply))
    {
      hide Conserves, ListOk;
      if |reply| > 0 && reply[|reply| - 1].text.Some?
         && |reply[|reply| - 1].text.value| + |s| <= CHUNK_BYTES
      {
        ConservesAppended(written + Unsent(), reply, Skip(), replies, lens, s);
        ListOkAppended(reply, nextId, lens, s);
        AppendedNodes(reply, s);
        var tail := reply[|reply| - 1];
        reply := reply[|reply| - 1 := Node(tail.id, Some(tail.text.value + s))];
      } else {
        ConservesSnoc(written + Unsent(), reply, Skip(), replies, lens, Node(nextId, Some(s)));
        ListOkSnoc(reply, nextId, lens, Some(s));
        reply := reply + [Node(nextId, Some(s))];
        nextId := nextId + 1;
      }
      replies := replies + [Text(s)];
    }

    /** `addReplyString`, and `addReply` of a raw object. */
    method AddReplyString(s: bytes)
      requires Valid() && Conserved()
      modifies this`bufpos, this`reply, this`nextId, this`replies, buf
      ensures Valid() && Conserved()
      ensures replies == if closing then old(replies) else old(replies) + [Text(s)]
      ensures forall n: Node :: n.text.None? ==> (n in reply <==> n in old(reply))
    {
      hide Conserves, ListOk;
      if closing { return; }
      var ok := AddReplyToBuffer(s);
      if !ok { AddReplyStringToList(s); }
    }

    /** `addDeferredMultiBulkLength`: the result names the node to be filled. */
    method AddDeferredMultiBulkLength() returns (node: nat)
      requires Valid() && Conserved()
      modifies this`reply, this`nextId, this`replies
      ensures Valid() && Conserved() && replies == old(replies) + [Deferred(node)] && node !in lens
      ensures reply == old(reply) + [Node(node, None)]
    {
      node := nextId;
      assert node !in lens;
      hide Conserves, ListOk;
      ConservesSnoc(written + Unsent(), reply, Skip(), replies, lens, Node(node, None));
      ListOkSnoc(reply, nextId, lens, None);
      reply := reply + [Node(node, None)];
      nextId := nextId + 1;
      replies := replies + [Deferred(node)];
    }

    /** Where in the list a node without text is. */
    method Locate(node: nat) returns (i: nat)
      requires Distinct(reply) && Node(node, None) in reply
      ensures i < |reply| && reply[i] == Node(node, None)
    {
      i := 0;
      while reply[i].id != node
        invariant i < |reply| && forall k :: 0 <= k < i ==> reply[k].id != node
        decreases |reply| - i
      {
        i := i + 1;
      }
    }

    /** Node `i` takes in the next one. */
    method GlueToNext(i: nat)
      requires Valid() && Conserved() && i + 1 < |reply| && reply[i].text.Some? && reply[i + 1].text.Some?
      modifies this`reply
      ensures Valid() && Conserved() && reply == Glued(old(reply), i)
      ensures forall n: Node :: n.text.None? ==> (n in reply <==> n in old(reply))
    {
      hide Conserves, ListOk, Glued;
      ConservesGlued(written + Unsent(), reply, Skip(), replies, lens, i);
      ListOkGlued(reply, nextId, lens, i);
      reply := Glued(reply, i);
    }

    /** Node `i` gets its length as text. */
    method TellLength(i: nat, length: int)
      requires Valid() && Conserved() && i < |reply| && reply[i].text.None?
      modifies this`reply, this`lens
      ensures Valid() && Conserved() && lens == old(lens)[old(reply)[i].id := length]
      ensures reply == Told(old(reply), i, length)
    {
      assert Distinct(reply) && reply[i].id !in lens;
      hide Conserves, ListOk;
      var digits := LongLongToString(length);
      ConservesTold(written + Unsent(), reply, Skip(), replies, lens, i, length);
      ListOkTold(reply, nextId, lens, i, length);
      lens := lens[reply[i].id := length];
      reply := reply[i := reply[i].(text := Some([STAR] + digits + CRLF))];
    }

    /** `setDeferredMultiBulkLength`: tell the length, and glue it to the next node. */
    method SetDeferredMultiBulkLength(node: nat, length: int)
      requires Valid() && Conserved() && Node(node, None) in reply
      modifies this`reply, this`lens
      ensures Valid() && Conserved() && lens == old(lens)[node := length]
      ensures forall n: Node :: n.text.None? ==> (n in reply <==> n in old(reply) && n.id != node)
    {
      ListOkDistinct(reply, nextId, lens);
      hide Conserves, ListOk, Conserved, Distinct, Told, Glued;
      var i := Locate(node);
      ToldNodes(reply, i, length);
      TellLength(i, length);
      if i + 1 < |reply| {
        if reply[i + 1].text.Some? { GlueToNext(i); }
      }
    }

    /** One `write` of the buffer that takes `n` bytes. */
    method WriteBuffer(n: nat)
      requires Valid() && Conserved() && bufpos > 0 && 0 < n <= bufpos - sentlen
      modifies this`bufpos, this`sentlen, this`written
      ensures Valid() && Conserved() && old(written) <= written && |written| == |old(written)| + n
    {
      hide Conserves, ListOk;
      BufferSent(written, buf[..], sentlen, bufpos, n);
      assert buf[sentlen..bufpos] == buf[..][sentlen..bufpos];
      assert buf[sentlen..sentlen + n] == buf[..][sentlen..sentlen + n];
      assert buf[sentlen + n..bufpos] == buf[..][sentlen + n..bufpos];
      written := written + buf[sentlen..sentlen + n];
      sentlen := sentlen + n;
      if sentlen == bufpos { bufpos, sentlen := 0, 0; }
    }

    /** One `write` of the first node that takes `n` bytes; also the removal of an empty first node. */
    method WriteNode(n: nat)
      requires Valid() && Conserved() && bufpos == 0 && reply != [] && AllTold(reply)
      requires sentlen + n <= |reply[0].text.value|
      modifies this`sentlen, this`reply, this`written
      ensures Valid() && Conserved() && AllTold(reply)
      ensures old(written) <= written && |written| == |old(written)| + n
      ensures |reply| <= |old(reply)|
      ensures n == 0 && |old(reply[0].text.value)| == old(sentlen) ==> |reply| < |old(reply)|
    {
      hide Conserves, ListOk;
      assert written + Unsent() == written;
      ConservesSent(written, reply, sentlen, replies, lens, n);
      ListOkRest(reply, nextId, lens);
      var text := reply[0].text.value;
      written := written + text[sentlen..sentlen + n];
      sentlen := sentlen + n;
      if sentlen == |text| { reply, sentlen := reply[1..], 0; }
      assert written + Unsent() == written;
    }

    /** One turn of the loop: an empty node is dropped, else one call of `write` returns `answer`. */
    method WriteTurn(answer: int) returns (blocked: bool, called: bool, n: nat)
      requires Valid() && Conserved() && AllTold(reply) && (bufpos > 0 || reply != [])
      modifies this`bufpos, this`sentlen, this`reply, this`written
      ensures Valid() && Conserved() && AllTold(reply)
      ensures old(written) <= written && |written| == |old(written)| + n
      ensures blocked || called || |reply| < |old(reply)|
      ensures called ==> answer > 0
    {
      assert bufpos == 0 ==> Skips(reply, sentlen);
      hide Conserves, ListOk;
      blocked, called, n := false, false, 0;
      if bufpos == 0 && |reply[0].text.value| == 0 {
        WriteNode(0);
        return;
      }
      var offered := if bufpos > 0 then bufpos - sentlen else |reply[0].text.value| - sentlen;
      var nwritten := if answer > offered then offered else answer;
      if nwritten <= 0 { return true, false, 0; }
      called, n := true, nwritten;
      if bufpos > 0 {
        WriteBuffer(n);
      } else {
        WriteNode(n);
      }
    }

    /** Everything has been written. */
    method Rewind()
      requires Valid() && Conserved() && bufpos == 0 && reply == []
      modifies this`sentlen
      ensures Valid() && Conserved() && Lift(written) == Expected(replies, lens)
    {
      assert written + Unsent() == written && Skips(reply, sentlen);
      ConservesAll(written, replies, lens);
      hide Conserves, ListOk;
      sentlen := 0;
    }

    /** `sendReplyToClient`, when no length is left to be told. `socket` holds the answers to the coming
        calls of `write`, each at most what is offered; after them it would block. */
    method SendReply(socket: seq<int>, lowMemory: bool) returns (blocked: bool, total: nat)
      requires Valid() && Conserved() && AllTold(reply)
      modifies this`bufpos, this`sentlen, this`reply, this`written
      ensures Valid() && Conserved() && AllTold(reply)
      ensures old(written) <= written && |written| == |old(written)| + total
      ensures blocked || (total > MAX_WRITE_PER_EVENT && !lowMemory)
              || (bufpos == 0 && reply == [] && Lift(written) == Expected(replies, lens))
    {
      hide Conserves, ListOk, Conserved, AllTold;
      ghost var sent := written;
      blocked, total := false, 0;
      var calls := 0;
      while bufpos > 0 || |reply| > 0
        invariant Valid() && Conserved() && AllTold(reply) && !blocked && calls <= |socket|
        invariant sent <= written && |written| == |sent| + total
        decreases |socket| - calls, |reply|
      {
        var called, n;
        blocked, called, n := WriteTurn(if calls == |socket| then -1 else socket[calls]);
        total := total + n;
        if blocked { break; }
        if called { calls := calls + 1; }
        if total > MAX_WRITE_PER_EVENT && !lowMemory { break; }
      }
      if bufpos == 0 && |reply| == 0 { Rewind(); }
    }
  }

  lemma Joined(all: bytes, from: nat, head: bytes, s: bytes)
    requires all == head + s && from <= |head|
    ensures all[from..] == head[from..] + s
  {
  }

  /** The next `n` bytes of the buffer are written. */
  lemma BufferSent(written: bytes, b: bytes, sent: nat, end: nat, n: nat)
    requires sent + n <= end <= |b|
    ensures written + b[sent..sent + n] + b[sent + n..end] == written + b[sent..end]
    ensures sent + n == end ==> b[sent + n..end] == []
  {
    assert b[sent..end] == b[sent..sent + n] + b[sent + n..end];
    ConcatAssoc(written, b[sent..sent + n], b[sent + n..end]);
  }

  lemma AppendedNodes(l: seq<Node>, s: bytes)
    requires l != [] && l[|l| - 1].text.Some?
    ensures forall n: Node :: n.text.None? ==> (n in Appended(l, s) <==> n in l)
  {
    assert forall j :: 0 <= j < |l| - 1 ==> Appended(l, s)[j] == l[j];
  }

  /** Telling a length leaves the other nodes without text as they are. */
  lemma ListOkDistinct(l: seq<Node>, nextId: nat, lens: map<nat, int>)
    requires ListOk(l, nextId, lens)
    ensures Distinct(l)
  {
  }

  lemma ToldNodes(l: seq<Node>, i: nat, length: int)
    requires i < |l| && l[i].text.None? && Distinct(l)
    ensures forall n: Node :: n.text.None? ==> (n in Told(l, i, length) <==> n in l && n.id != l[i].id)
  {
    hide LengthText;
    var t := Told(l, i, length);
    assert forall j :: 0 <= j < |l| && j != i ==> t[j] == l[j];
    forall n: Node | n in l && n.text.None? && n.id != l[i].id
      ensures n in t
    {
      var j :| 0 <= j < |l| && l[j] == n;
      assert t[j] == n;
    }
  }
}
