/** ae_evport.c with the callers in ae.c: each descriptor is either associated with the event port or
    pending since the last poll. The port is a map that the calls change; its calls succeed unless told
    otherwise. */
module EventPort {
  type Mask = bv32

  const AE_NONE: Mask := 0
  const AE_READABLE: Mask := 1
  const AE_WRITABLE: Mask := 2
  const POLLIN: Mask := 1
  const POLLOUT: Mask := 4
  const MAX_EVENT_BATCHSZ := 512

  /** What the port knows of a descriptor: the poll events, and the mask it was given to hand back. */
  datatype Assoc = Assoc(events: Mask, user: Mask)

  /** An event the port returns. */
  datatype PortEvent = PortEvent(fd: nat, events: Mask)

  datatype Fired = Fired(fd: int, mask: Mask)

  /** The association `aeApiAssociate` makes. */
  function Associated(mask: Mask): Assoc {
    Assoc((if mask & AE_READABLE != 0 then POLLIN else 0) | (if mask & AE_WRITABLE != 0 then POLLOUT else 0), mask)
  }

  function FiredMask(events: Mask): Mask {
    (if events & POLLIN != 0 then AE_READABLE else 0) | (if events & POLLOUT != 0 then AE_WRITABLE else 0)
  }

  /** Every descriptor with a mask is associated, or pending in one slot, but not both, and with its mask;
      one without is neither. `fds` and `masks` are the pending slots in use; -1 is a free slot. */
  ghost predicate Exclusive(events: seq<Mask>, port: map<nat, Assoc>, fds: seq<int>, masks: seq<Mask>) {
    && |fds| == |masks|
    && (forall fd :: fd in port ==> fd < |events| && events[fd] != 0 && port[fd] == Associated(events[fd]))
    && (forall i :: 0 <= i < |fds| && fds[i] != -1 ==>
          0 <= fds[i] < |events| && events[fds[i]] != 0 && masks[i] == events[fds[i]] && fds[i] !in port)
    && (forall i, j :: 0 <= i < j < |fds| && fds[i] == fds[j] ==> fds[i] == -1)
    && (forall fd :: 0 <= fd < |events| && events[fd] != 0 ==> fd in port || fd in fds)
  }

  /** The highest descriptor with a mask. */
  ghost predicate IsMax(events: seq<Mask>, maxfd: int) {
    && -1 <= maxfd < |events|
    && (maxfd >= 0 ==> events[maxfd] != 0)
    && forall fd :: maxfd < fd < |events| ==> events[fd] == 0
  }

  // ---- masks

  function Or(a: Mask, b: Mask): Mask {
    a | b
  }

  function Minus(a: Mask, b: Mask): Mask {
    a & !b
  }

  lemma OrCommutes(a: Mask, b: Mask)
    ensures Or(b, a) == Or(a, b) && Or(a, Or(b, a)) == Or(a, b) && (a != 0 ==> Or(a, b) != 0)
  {
  }

  lemma NothingMinus(b: Mask)
    ensures Minus(0, b) == 0
  {
  }

  /** The events of both masks, and no other. */
  ghost predicate Joined(mask: Mask, a: Mask, b: Mask) {
    mask == a | b
  }

  lemma OrJoins(a: Mask, b: Mask)
    ensures Joined(Or(a, b), a, b)
  {
  }

  lemma MinusIn(events: seq<Mask>, fd: nat, mask: Mask)
    requires fd < |events|
    ensures events[fd := Minus(events[fd], mask)] == events[fd := events[fd] & !mask]
  {
  }

  /** The association asks for what the mask of its descriptor asks for. */
  ghost predicate Asked(a: Assoc, mask: Mask) {
    && (a.events & POLLIN != 0 <==> mask & AE_READABLE != 0)
    && (a.events & POLLOUT != 0 <==> mask & AE_WRITABLE != 0)
    && a.events & !(POLLIN | POLLOUT) == 0 && a.user == mask
  }

  /** The fired mask says what has happened. */
  ghost predicate Happened(mask: Mask, events: Mask) {
    && (mask & AE_READABLE != 0 <==> events & POLLIN != 0)
    && (mask & AE_WRITABLE != 0 <==> events & POLLOUT != 0)
    && mask & !(AE_READABLE | AE_WRITABLE) == 0
  }

  lemma AsksFor(mask: Mask)
    ensures Asked(Associated(mask), mask)
  {
  }

  lemma FiresWhat(events: Mask)
    ensures Happened(FiredMask(events), events)
  {
  }

  /** When the port returns for a descriptor only what it was asked for, what is fired is in its mask, and an
      event of its mask that has happened is fired. */
  lemma FiredIsAskedFor(events: seq<Mask>, port: map<nat, Assoc>, fds: seq<int>, masks: seq<Mask>, e: PortEvent)
    requires Exclusive(events, port, fds, masks) && e.fd in port
    requires e.events & !port[e.fd].events == 0
    ensures e.fd < |events| && FiredMask(e.events) & !events[e.fd] == 0
    ensures events[e.fd] & AE_READABLE != 0 && e.events & POLLIN != 0 ==> FiredMask(e.events) & AE_READABLE != 0
    ensures events[e.fd] & AE_WRITABLE != 0 && e.events & POLLOUT != 0 ==> FiredMask(e.events) & AE_WRITABLE != 0
  {
    AskedAndFired(e.events, events[e.fd]);
    FiresWhat(e.events);
    hide Associated, FiredMask;
  }

  lemma AskedAndFired(e: Mask, mask: Mask)
    requires e & !Associated(mask).events == 0
    ensures FiredMask(e) & !mask == 0
  {
  }

  // ---- what the calls do, on values

  lemma AddPending(events: seq<Mask>, port: map<nat, Assoc>, fds: seq<int>, masks: seq<Mask>, i: nat, mask: Mask)
    requires Exclusive(events, port, fds, masks) && i < |fds| && fds[i] != -1
    ensures 0 <= fds[i] < |events| && Or(events[fds[i]], mask) != AE_NONE
    ensures var e := events[fds[i]];
      Exclusive(events[fds[i] := Or(e, mask)], port, fds, masks[i := Or(masks[i], Or(mask, e))])
  {
    OrCommutes(events[fds[i]], mask);
    hide Associated, Or;
  }

  /** An association with an empty mask would break the rule: the mask has to have something in it. */
  lemma AddToPort(events: seq<Mask>, port: map<nat, Assoc>, fds: seq<int>, masks: seq<Mask>, fd: nat, mask: Mask)
    requires Exclusive(events, port, fds, masks) && fd < |events| && fd !in fds
    ensures Exclusive(events[fd := Or(events[fd], mask)], port[fd := Associated(Or(mask, events[fd]))], fds, masks)
       <==> Or(events[fd], mask) != AE_NONE
  {
    OrCommutes(events[fd], mask);
    hide Associated, Or;
  }

  lemma DelPending(events: seq<Mask>, port: map<nat, Assoc>, fds: seq<int>, masks: seq<Mask>, i: nat, mask: Mask)
    requires Exclusive(events, port, fds, masks) && i < |fds| && fds[i] != -1
    ensures 0 <= fds[i] < |events|
    ensures var m := Minus(masks[i], mask);
      Exclusive(events[fds[i] := Minus(events[fds[i]], mask)], port,
                if m == 0 then fds[i := -1] else fds, masks[i := m])
  {
    hide Associated, Minus;
    var m, fds' := Minus(masks[i], mask), fds[i := -1];
    forall fd | 0 <= fd < |events| && fd != fds[i] && fd in fds
      ensures fd in fds'
    {
      var j :| 0 <= j < |fds| && fds[j] == fd;
      assert fds'[j] == fd;
    }
  }

  lemma DelFromPort(events: seq<Mask>, port: map<nat, Assoc>, fds: seq<int>, masks: seq<Mask>, fd: nat, mask: Mask)
    requires Exclusive(events, port, fds, masks) && fd < |events| && fd !in fds
    ensures var m := Minus(events[fd], mask);
      Exclusive(events[fd := m], if m == 0 then port - {fd} else port[fd := Associated(m)], fds, masks)
  {
    hide Associated, Minus;
  }

  lemma Reassociate(events: seq<Mask>, port: map<nat, Assoc>, fds: seq<int>, masks: seq<Mask>, i: nat)
    requires Exclusive(events, port, fds, masks) && i < |fds| && fds[i] != -1
    ensures fds[i] >= 0 && Exclusive(events, port[fds[i] := Associated(masks[i])], fds[i := -1], masks[i := AE_NONE])
  {
    hide Associated;
    forall fd | fd != fds[i] && fd in fds
      ensures fd in fds[i := -1]
    {
      var j :| 0 <= j < |fds| && fds[j] == fd;
      assert fds[i := -1][j] == fd;
    }
  }

  /** When no slot is in use the port has exactly the descriptors with a mask. */
  lemma AllAssociated(events: seq<Mask>, port: map<nat, Assoc>, fds: seq<int>, masks: seq<Mask>)
    requires Exclusive(events, port, fds, masks) && forall i :: 0 <= i < |fds| ==> fds[i] == -1
    ensures Exclusive(events, port, [], [])
  {
    hide Associated;
  }

  /** What the port may return: descriptors it has, none twice. */
  ghost predicate MayReturn(events: seq<Mask>, ready: seq<PortEvent>) {
    && |ready| <= MAX_EVENT_BATCHSZ
    && (forall i :: 0 <= i < |ready| ==> ready[i].fd < |events| && events[ready[i].fd] != 0)
    && forall i, j :: 0 <= i < j < |ready| ==> ready[i].fd != ready[j].fd
  }

  ghost predicate Pending(events: seq<Mask>, ready: seq<PortEvent>, n: nat, fds: seq<int>, masks: seq<Mask>) {
    && n <= |ready| && |fds| == |masks| == n
    && forall i :: 0 <= i < n ==> ready[i].fd < |events| && fds[i] == ready[i].fd && masks[i] == events[ready[i].fd]
  }

  /** The returned descriptors leave the port and are pending. */
  lemma Returned(events: seq<Mask>, port: map<nat, Assoc>, ready: seq<PortEvent>, fds: seq<int>, masks: seq<Mask>)
    requires Exclusive(events, port, [], []) && MayReturn(events, ready)
    requires Pending(events, ready, |ready|, fds, masks)
    ensures Exclusive(events, port - ReadyFds(ready), fds, masks)
  {
    hide Associated;
    forall fd: nat | fd in ReadyFds(ready)
      ensures fd in fds
    {
      var i :| 0 <= i < |ready| && ready[i].fd == fd;
      assert fds[i] == fd;
    }
  }

  function ReadyFds(ready: seq<PortEvent>): set<nat> {
    set i | 0 <= i < |ready| :: ready[i].fd
  }

  /** So many different numbers need so much room: the events fit the `fired` array. */
  lemma {:induction false} DistinctFit(s: set<nat>, n: nat)
    requires forall x :: x in s ==> x < n
    ensures |s| <= n
  {
    if n == 0 {
      assert s == {};
    } else {
      DistinctFit(s - {n - 1}, n - 1);
      assert |s| <= |s - {n - 1}| + 1;
    }
  }

  lemma {:induction false} ReadyCount(events: seq<Mask>, ready: seq<PortEvent>)
    requires MayReturn(events, ready)
    ensures |ReadyFds(ready)| == |ready| <= |events|
  {
    if ready != [] {
      ReadyCount(events, ready[..|ready| - 1]);
      ReadyMore(ready);
    }
    DistinctFit(ReadyFds(ready), |events|);
  }

  lemma ReadyMore(ready: seq<PortEvent>)
    requires ready != []
    ensures var front, last := ready[..|ready| - 1], ready[|ready| - 1];
      && ReadyFds(ready) == ReadyFds(front) + {last.fd}
      && ((forall i :: 0 <= i < |front| ==> ready[i].fd != last.fd) ==> last.fd !in ReadyFds(front))
  {
    var front := ready[..|ready| - 1];
    assert forall i :: 0 <= i < |front| ==> front[i] == ready[i];
    forall fd: nat | fd in ReadyFds(ready) && fd != ready[|ready| - 1].fd
      ensures fd in ReadyFds(front)
    {
      var i :| 0 <= i < |ready| && ready[i].fd == fd;
      assert front[i].fd == fd;
    }
  }

  lemma AllAsked(events: seq<Mask>, port: map<nat, Assoc>)
    requires Exclusive(events, port, [], [])
    ensures forall fd :: 0 <= fd < |events| && events[fd] != 0 ==> fd in port && Asked(port[fd], events[fd])
  {
    forall fd | 0 <= fd < |events| && events[fd] != 0
      ensures fd in port && Asked(port[fd], events[fd])
    {
      AsksFor(events[fd]);
      hide Associated;
    }
  }

  lemma AllHappened(ready: seq<PortEvent>)
    ensures forall i :: 0 <= i < |ready| ==> Happened(FiredMask(ready[i].events), ready[i].events)
  {
    forall i | 0 <= i < |ready|
      ensures Happened(FiredMask(ready[i].events), ready[i].events)
    {
      FiresWhat(ready[i].events);
    }
  }

  class EventLoop {
    const setsize: nat
    var maxfd: int
    const events: array<Mask>          // the masks of `events`
    const fired: array<Fired>
    var npending: nat
    const pendingFds: array<int>
    const pendingMasks: array<Mask>
    var port: map<nat, Assoc>

    /** The arrays are four, and of the right sizes. */
    ghost predicate Shape() {
      && events.Length == setsize == fired.Length
      && pendingFds.Length == pendingMasks.Length == MAX_EVENT_BATCHSZ
      && (events as object) != (pendingMasks as object) && (events as object) != (pendingFds as object)
      && (events as object) != (fired as object) && (pendingFds as object) != (pendingMasks as object)
      && (pendingFds as object) != (fired as object) && (pendingMasks as object) != (fired as object)
    }

    ghost predicate Valid()
      reads this, events, pendingFds, pendingMasks
    {
      && Shape() && npending <= MAX_EVENT_BATCHSZ
      && Exclusive(events[..], port, pendingFds[..npending], pendingMasks[..npending])
      && IsMax(events[..], maxfd)
    }

    /** `aeCreateEventLoop` with `aeApiCreate`. */
    constructor (setsize: nat)
      ensures Valid() && this.setsize == setsize && maxfd == -1 && port == map[]
      ensures fresh(events) && fresh(fired) && fresh(pendingFds) && fresh(pendingMasks)
      ensures forall fd :: 0 <= fd < setsize ==> events[fd] == AE_NONE
    {
      this.setsize := setsize;
      maxfd, npending, port := -1, 0, map[];
      events := new Mask[setsize](_ => AE_NONE);
      fired := new Fired[setsize](_ => Fired(0, AE_NONE));
      pendingFds := new int[MAX_EVENT_BATCHSZ](_ => -1);
      pendingMasks := new Mask[MAX_EVENT_BATCHSZ](_ => AE_NONE);
    }

    /** `aeApiLookupPending`. */
    method LookupPending(fd: nat) returns (i: int)
      requires npending <= pendingFds.Length
      ensures i == -1 ==> fd !in pendingFds[..npending]
      ensures i != -1 ==> 0 <= i < npending && pendingFds[i] == fd
    {
      i := 0;
      while i < npending
        invariant 0 <= i <= npending && fd !in pendingFds[..i]
      {
        if pendingFds[i] == fd { return; }
        i := i + 1;
      }
      i := -1;
    }

    /** A pending slot is filled, changed or freed. */
    method SetSlot(i: nat, fd: int, mask: Mask)
      requires Shape() && i < npending <= MAX_EVENT_BATCHSZ
      modifies pendingFds, pendingMasks
      ensures pendingFds[..npending] == old(pendingFds[..npending])[i := fd]
      ensures pendingMasks[..npending] == old(pendingMasks[..npending])[i := mask]
    {
      pendingFds[i] := fd;
      pendingMasks[i] := mask;
    }

    /** `aeApiAddEvent`; `portOk` is whether `port_associate` would succeed. */
    method AddEvent(fd: nat, mask: Mask, portOk: bool) returns (ok: bool)
      requires Valid() && fd < setsize
      modifies this`port, pendingFds, pendingMasks
      ensures ok <==> portOk || fd in old(pendingFds[..npending])
      ensures !ok ==> Valid()
      ensures ok ==>
        (Exclusive(events[..][fd := Or(events[fd], mask)], port, pendingFds[..npending], pendingMasks[..npending])
         <==> Or(events[fd], mask) != AE_NONE)
      ensures fd in old(pendingFds[..npending]) || !ok ==> port == old(port)
    {
      hide Exclusive, IsMax, Associated, Or;
      var fullmask := Or(mask, events[fd]);
      var i := LookupPending(fd);
      ghost var es, fds, masks := events[..], pendingFds[..npending], pendingMasks[..npending];
      if i != -1 {
        AddPending(es, port, fds, masks, i, mask);
        assert fds[i := fd] == fds && fd in fds;
        SetSlot(i, fd, Or(pendingMasks[i], fullmask));
        return true;
      }
      if !portOk { return false; }
      AddToPort(es, port, fds, masks, fd, mask);
      port := port[fd := Associated(fullmask)];
      ok := true;
    }

    /** `aeCreateFileEvent`. It breaks the rule exactly when it gives a descriptor without events an
        empty mask. */
    method CreateFileEvent(fd: nat, mask: Mask, portOk: bool) returns (ok: bool)
      requires Valid()
      modifies this`maxfd, this`port, events, pendingFds, pendingMasks
      ensures ok <==> fd < setsize && (portOk || fd in old(pendingFds[..npending]))
      ensures Valid() <==> !(ok && events[fd] == AE_NONE)
      ensures events[..] == if ok then old(events[..])[fd := events[fd]] else old(events[..])
      ensures ok ==> Joined(events[fd], old(events[fd]), mask)
      ensures fd in old(pendingFds[..npending]) || !ok ==> port == old(port)
    {
      if fd >= setsize { return false; }
      hide Exclusive, Associated, IsMax, Or, Joined;
      ghost var es := events[..];
      ok := AddEvent(fd, mask, portOk);
      if !ok { return; }
      MaxAfterAdd(es, maxfd, fd, Or(es[fd], mask));
      events[fd] := Or(events[fd], mask);
      assert events[..] == es[fd := Or(es[fd], mask)];
      OrJoins(es[fd], mask);
      if fd > maxfd { maxfd := fd; }
    }

    /** The scan for the highest descriptor with a mask, from `from` down. */
    method ScanDown(from: int) returns (j: int)
      requires -1 <= from < events.Length
      ensures -1 <= j <= from && (j >= 0 ==> events[j] != 0)
      ensures forall fd :: j < fd <= from ==> events[fd] == 0
    {
      j := from;
      while j >= 0
        invariant -1 <= j <= from && forall fd :: j < fd <= from ==> events[fd] == 0
      {
        if events[j] != AE_NONE { break; }
        j := j - 1;
      }
    }

    /** `aeDeleteFileEvent`. */
    method DeleteFileEvent(fd: nat, mask: Mask)
      requires Valid()
      modifies this`maxfd, this`port, events, pendingFds, pendingMasks
      ensures Valid()
      ensures events[..]
           == if fd < setsize then old(events[..])[fd := old(events[..])[fd] & !mask] else old(events[..])
    {
      if fd >= setsize { return; }
      ghost var es := events[..];
      MinusIn(es, fd, mask);
      if events[fd] == AE_NONE {
        NothingMinus(mask);
        hide Exclusive, IsMax, Minus;
        assert es[fd := 0] == es;
        return;
      }
      hide Exclusive, Associated, Minus;
      events[fd] := Minus(events[fd], mask);
      assert events[..] == es[fd := Minus(es[fd], mask)];
      var oldMax := maxfd;
      if fd == maxfd && events[fd] == AE_NONE { maxfd := ScanDown(maxfd - 1); }
      MaxAfterDel(es, oldMax, fd, events[..], maxfd);
      hide IsMax;
      DelEvent(fd, mask, es);
    }

    /** `aeApiDelEvent`, after the mask in `events` has been updated; `es` are the masks before. */
    method DelEvent(fd: nat, mask: Mask, ghost es: seq<Mask>)
      requires Shape() && npending <= MAX_EVENT_BATCHSZ
      requires Exclusive(es, port, pendingFds[..npending], pendingMasks[..npending])
      requires fd < |es| && events[..] == es[fd := Minus(es[fd], mask)]
      modifies this`port, pendingFds, pendingMasks
      ensures Exclusive(events[..], port, pendingFds[..npending], pendingMasks[..npending])
    {
      hide Associated, Minus;
      var i := LookupPending(fd);
      ghost var fds, masks := pendingFds[..npending], pendingMasks[..npending];
      if i != -1 {
        DelPending(es, port, fds, masks, i, mask);
        hide Exclusive;
        var m := Minus(pendingMasks[i], mask);
        assert fds[i := fd] == fds;
        SetSlot(i, if m == AE_NONE then -1 else fd, m);
        return;
      }
      DelFromPort(es, port, fds, masks, fd, mask);
      hide Exclusive;
      var fullmask := events[fd];
      assert fullmask == Minus(es[fd], mask);
      port := if fullmask == AE_NONE then port - {fd} else port[fd := Associated(fullmask)];
    }

    /** The first loop of `aeApiPoll`: what is pending goes back to the port. */
    method ReassociatePending()
      requires Valid()
      modifies this`port, pendingFds, pendingMasks, this`npending
      ensures Valid() && npending == 0 && Exclusive(events[..], port, [], [])
      ensures forall fd :: 0 <= fd < setsize && events[fd] != 0 ==> fd in port && Asked(port[fd], events[fd])
    {
      hide Associated, IsMax, Exclusive;
      ghost var es := events[..];
      var i := 0;
      while i < npending
        invariant i <= npending == old(npending)
        invariant Exclusive(es, port, pendingFds[..npending], pendingMasks[..npending])
        invariant FreeUpTo(pendingFds[..npending], i)
      {
        if pendingFds[i] != -1 {
          Reassociate(es, port, pendingFds[..npending], pendingMasks[..npending], i);
          port := port[pendingFds[i] := Associated(pendingMasks[i])];
          SetSlot(i, -1, AE_NONE);
        }
        i := i + 1;
      }
      AllAssociated(es, port, pendingFds[..npending], pendingMasks[..npending]);
      AllAsked(es, port);
      npending := 0;
      assert pendingFds[..0] == [] && pendingMasks[..0] == [];
    }

    /** The last loop of `aeApiPoll`: what the port returned is told to the caller and kept pending. */
    method KeepPending(ready: seq<PortEvent>)
      requires Exclusive(events[..], port, [], []) && MayReturn(events[..], ready) && |ready| <= fired.Length
      requires Shape() && npending == |ready|
      modifies pendingFds, pendingMasks, fired
      ensures Pending(events[..], ready, |ready|, pendingFds[..npending], pendingMasks[..npending])
      ensures forall i :: 0 <= i < |ready| ==> fired[i] == Fired(ready[i].fd, FiredMask(ready[i].events))
    {
      hide FiredMask;
      ghost var es := events[..];
      var i := 0;
      while i < |ready|
        invariant i <= |ready| && Pending(es, ready, i, pendingFds[..i], pendingMasks[..i])
        invariant forall j :: 0 <= j < i ==> fired[j] == Fired(ready[j].fd, FiredMask(ready[j].events))
      {
        IsAssociated(es, port, ready[i].fd);
        PendingNext(es, ready, i, pendingFds[..i], pendingMasks[..i]);
        hide Exclusive, Associated, Pending;
        fired[i] := Fired(ready[i].fd, FiredMask(ready[i].events));
        pendingFds[i] := ready[i].fd;
        pendingMasks[i] := port[ready[i].fd].user;
        assert pendingFds[..i + 1] == pendingFds[..i] + [pendingFds[i]];
        assert pendingMasks[..i + 1] == pendingMasks[..i] + [pendingMasks[i]];
        i := i + 1;
      }
    }

    /** `aeApiPoll`. `ready` is what `port_getn` returns, nothing when the time is up or it is interrupted;
        the port dissociates what it returns. */
    method Poll(ready: seq<PortEvent>) returns (nevents: nat)
      requires Valid() && MayReturn(events[..], ready)
      modifies this`port, this`npending, pendingFds, pendingMasks, fired
      ensures Valid() && nevents == |ready| <= setsize
      ensures forall i :: 0 <= i < nevents ==> fired[i].fd == ready[i].fd && Happened(fired[i].mask, ready[i].events)
      ensures npending == |ready| && forall i :: 0 <= i < |ready| ==> pendingFds[i] == ready[i].fd
      ensures forall fd :: 0 <= fd < setsize && events[fd] != 0 ==> (fd in port <==> fd !in ReadyFds(ready))
    {
      hide Associated, IsMax, Exclusive;
      ReassociatePending();
      ghost var es := events[..];
      ReadyCount(es, ready);
      AllHappened(ready);
      hide Asked, Happened, FiredMask;
      nevents := |ready|;
      npending := nevents;
      KeepPending(ready);
      Returned(es, port, ready, pendingFds[..npending], pendingMasks[..npending]);
      AllInPort(es, port, ready);
      port := port - ReadyFds(ready);
      assert forall i :: 0 <= i < |ready| ==> pendingFds[..npending][i] == ready[i].fd;
    }
  }

  lemma MaxAfterAdd(es: seq<Mask>, maxfd: int, fd: nat, m: Mask)
    requires IsMax(es, maxfd) && fd < |es|
    ensures m != 0 ==> IsMax(es[fd := m], if fd > maxfd then fd else maxfd)
  {
  }

  lemma MaxAfterDel(es: seq<Mask>, maxfd: int, fd: nat, es': seq<Mask>, maxfd': int)
    requires IsMax(es, maxfd) && fd < |es| && |es'| == |es| && es' == es[fd := es'[fd]] && es[fd] != 0
    requires !(fd == maxfd && es'[fd] == 0) ==> maxfd' == maxfd
    requires fd == maxfd && es'[fd] == 0 ==> -1 <= maxfd' < maxfd && (maxfd' >= 0 ==> es'[maxfd'] != 0)
    requires fd == maxfd && es'[fd] == 0 ==> forall j :: maxfd' < j < maxfd ==> es'[j] == 0
    ensures IsMax(es', maxfd')
  {
  }

  ghost predicate FreeUpTo(fds: seq<int>, n: nat) {
    n <= |fds| && forall i :: 0 <= i < n ==> fds[i] == -1
  }

  lemma IsAssociated(events: seq<Mask>, port: map<nat, Assoc>, fd: nat)
    requires Exclusive(events, port, [], []) && fd < |events| && events[fd] != 0
    ensures fd in port && port[fd].user == events[fd]
  {
  }

  lemma AllInPort(events: seq<Mask>, port: map<nat, Assoc>, ready: seq<PortEvent>)
    requires Exclusive(events, port, [], [])
    ensures forall fd :: 0 <= fd < |events| && events[fd] != 0 ==>
              (fd in port - ReadyFds(ready) <==> fd !in ReadyFds(ready))
  {
    hide Associated;
  }

  lemma PendingNext(events: seq<Mask>, ready: seq<PortEvent>, n: nat, fds: seq<int>, masks: seq<Mask>)
    requires Pending(events, ready, n, fds, masks) && n < |ready| && ready[n].fd < |events|
    ensures Pending(events, ready, n + 1, fds + [ready[n].fd], masks + [events[ready[n].fd]])
  {
  }
}
