/**
 File events over an event port. A file descriptor that has events registered is either associated with the port or
 held as pending, with exactly the registered mask.
 */
module AeEvport {
  import Pigeonhole

  /** AE_READABLE, AE_WRITABLE and AE_BARRIER as bits. */
  type Mask = bv3

  const NONE: Mask := 0
  const READABLE: Mask := 1
  const WRITABLE: Mask := 2
  const BARRIER: Mask := 4

  const MAX_EVENT_BATCHSZ: nat := 512
  const INITIAL_EVENT: nat := 1024

  datatype Fired = Fired(fd: nat, mask: Mask)

  /** What the kernel reports for a descriptor: whether it can be read, and written. */
  datatype Report = Report(fd: nat, pollIn: bool, pollOut: bool)

  /** The mask registered for a descriptor. */
  function MaskOf(events: seq<Mask>, fd: nat): Mask {
    if fd < |events| then events[fd] else NONE
  }

  ghost predicate IsPending(fds: seq<int>, fd: int) {
    exists i :: 0 <= i < |fds| && fds[i] == fd
  }

  /** The pending descriptors are distinct, and each has its registered mask and is not associated. */
  ghost predicate PendingOk(events: seq<Mask>, fds: seq<int>, masks: seq<Mask>, port: map<nat, Mask>) {
    && |fds| == |masks|
    && (forall i, j :: 0 <= i < j < |fds| && fds[i] == fds[j] ==> fds[i] == -1)
    && (forall i :: 0 <= i < |fds| && fds[i] != -1 ==>
          0 <= fds[i] && MaskOf(events, fds[i]) == masks[i] != NONE && fds[i] !in port)
  }

  ghost predicate PortOk(events: seq<Mask>, port: map<nat, Mask>) {
    forall fd :: fd in port ==> port[fd] == MaskOf(events, fd) != NONE
  }

  /** No registered descriptor is forgotten. */
  ghost predicate Covered(events: seq<Mask>, fds: seq<int>, port: map<nat, Mask>) {
    forall fd: nat :: MaskOf(events, fd) != NONE ==> fd in port || IsPending(fds, fd)
  }

  ghost predicate NoneFrom(events: seq<Mask>, n: int) {
    forall fd: nat :: MaskOf(events, fd) != NONE ==> fd < n
  }

  ghost predicate MaxOk(events: seq<Mask>, maxfd: int) {
    && -1 <= maxfd < |events| && (maxfd >= 0 ==> MaskOf(events, maxfd) != NONE)
    && NoneFrom(events, maxfd + 1)
  }

  ghost predicate StateOk(events: seq<Mask>, fds: seq<int>, masks: seq<Mask>, port: map<nat, Mask>) {
    PendingOk(events, fds, masks, port) && PortOk(events, port) && Covered(events, fds, port)
  }

  /** Each registered descriptor is associated or pending, never both, with exactly its mask; no other one is. */
  lemma ExactlyOne(events: seq<Mask>, fds: seq<int>, masks: seq<Mask>, port: map<nat, Mask>, fd: nat)
    requires StateOk(events, fds, masks, port)
    ensures MaskOf(events, fd) != NONE <==> fd in port || IsPending(fds, fd)
    ensures !(fd in port && IsPending(fds, fd))
    ensures fd in port ==> port[fd] == MaskOf(events, fd)
    ensures forall i :: 0 <= i < |fds| && fds[i] == fd ==> |masks| == |fds| && masks[i] == MaskOf(events, fd)
  {}

  // ---- changes to the masks ----

  lemma MaskAfterAt(events: seq<Mask>, fd: nat, mask: Mask, g: nat)
    requires fd < |events|
    ensures MaskOf(events[fd := mask], g) == if g == fd then mask else MaskOf(events, g)
  {
    if g < |events| {
      assert events[fd := mask][g] == if g == fd then mask else events[g];
    }
  }

  lemma MaskAfter(events: seq<Mask>, fd: nat, mask: Mask)
    requires fd < |events|
    ensures forall g: nat :: MaskOf(events[fd := mask], g) == if g == fd then mask else MaskOf(events, g)
  {
    hide MaskOf;
    forall g: nat ensures MaskOf(events[fd := mask], g) == if g == fd then mask else MaskOf(events, g) {
      MaskAfterAt(events, fd, mask, g);
    }
  }

  lemma UnionIsSome(a: Mask, b: Mask)
    requires a != NONE
    ensures a | b != NONE && (b | (a | b)) == a | b && a | b == b | a
  {}

  /** A descriptor that is not pending is associated with the union. */
  lemma AssociateKeeps(events: seq<Mask>, fds: seq<int>, masks: seq<Mask>, port: map<nat, Mask>, fd: nat, mask: Mask)
    requires StateOk(events, fds, masks, port) && fd < |events| && !IsPending(fds, fd) && mask != NONE
    ensures StateOk(events[fd := mask], fds, masks, port[fd := mask])
  {
    hide MaskOf;
    MaskAfter(events, fd, mask);
  }

  lemma DissociateKeeps(events: seq<Mask>, fds: seq<int>, masks: seq<Mask>, port: map<nat, Mask>, fd: nat)
    requires StateOk(events, fds, masks, port) && fd < |events| && !IsPending(fds, fd)
    ensures StateOk(events[fd := NONE], fds, masks, port - {fd})
  {
    hide MaskOf;
    MaskAfter(events, fd, NONE);
  }

  /** A pending descriptor only changes its pending mask. */
  lemma PendingKeeps(events: seq<Mask>, fds: seq<int>, masks: seq<Mask>, port: map<nat, Mask>, i: nat, mask: Mask)
    requires StateOk(events, fds, masks, port) && i < |fds| && fds[i] >= 0 && fds[i] < |events| && mask != NONE
    ensures StateOk(events[fds[i] := mask], fds, masks[i := mask], port)
  {
    hide MaskOf;
    MaskAfter(events, fds[i], mask);
  }

  lemma ForgetKeeps(events: seq<Mask>, fds: seq<int>, masks: seq<Mask>, port: map<nat, Mask>, i: nat)
    requires StateOk(events, fds, masks, port) && i < |fds| && fds[i] >= 0 && fds[i] < |events|
    ensures StateOk(events[fds[i] := NONE], fds[i := -1], masks[i := NONE], port)
  {
    hide MaskOf;
    MaskAfter(events, fds[i], NONE);
    forall fd: nat | MaskOf(events[fds[i] := NONE], fd) != NONE ensures fd in port || IsPending(fds[i := -1], fd) {
      assert MaskOf(events, fd) != NONE;
      if fd !in port {
        var j :| 0 <= j < |fds| && fds[j] == fd;
        assert fds[i := -1][j] == fd;
      }
    }
  }

  // ---- the pending descriptors of a poll ----

  /** What is left pending when the first `i` are associated again. */
  lemma ReassociateKeeps(events: seq<Mask>, fds: seq<int>, masks: seq<Mask>, port: map<nat, Mask>, i: nat)
    requires StateOk(events, fds, masks, port) && i < |fds| && fds[i] != -1
    ensures StateOk(events, fds[i := -1], masks[i := NONE], port[fds[i] := masks[i]])
  {
    hide MaskOf;
    var port' := port[fds[i] := masks[i]];
    forall fd: nat | MaskOf(events, fd) != NONE ensures fd in port' || IsPending(fds[i := -1], fd) {
      if fd !in port' {
        var j :| 0 <= j < |fds| && fds[j] == fd;
        assert fds[i := -1][j] == fd;
      }
    }
  }

  ghost predicate DistinctReports(batch: seq<Report>) {
    forall i, j :: 0 <= i < j < |batch| ==> batch[i].fd != batch[j].fd
  }

  /** The descriptors the kernel reports are not associated any more. */
  function Taken(port: map<nat, Mask>, batch: seq<Report>): map<nat, Mask> {
    map fd | fd in port && forall i :: 0 <= i < |batch| ==> batch[i].fd != fd :: port[fd]
  }

  function FdsOf(batch: seq<Report>): seq<int> {
    seq(|batch|, i requires 0 <= i < |batch| => batch[i].fd)
  }

  function UsersOf(port: map<nat, Mask>, batch: seq<Report>): seq<Mask>
    requires forall i :: 0 <= i < |batch| ==> batch[i].fd in port
  {
    seq(|batch|, i requires 0 <= i < |batch| => port[batch[i].fd])
  }

  lemma FetchKeeps(events: seq<Mask>, port: map<nat, Mask>, batch: seq<Report>)
    requires StateOk(events, [], [], port) && DistinctReports(batch)
    requires forall i :: 0 <= i < |batch| ==> batch[i].fd in port
    ensures StateOk(events, FdsOf(batch), UsersOf(port, batch), Taken(port, batch))
  {
    hide MaskOf;
    forall fd: nat | MaskOf(events, fd) != NONE ensures fd in Taken(port, batch) || IsPending(FdsOf(batch), fd) {
      if fd !in Taken(port, batch) {
        assert fd in port;
        var i :| 0 <= i < |batch| && batch[i].fd == fd;
        assert FdsOf(batch)[i] == fd;
      }
    }
  }

  /** More slots without events change nothing. */
  lemma GrowKeeps(events: seq<Mask>, more: seq<Mask>, fds: seq<int>, masks: seq<Mask>, port: map<nat, Mask>, maxfd: int)
    requires StateOk(events, fds, masks, port) && MaxOk(events, maxfd)
    requires |more| >= |events| && more[..|events|] == events && forall i :: |events| <= i < |more| ==> more[i] == NONE
    ensures StateOk(more, fds, masks, port) && MaxOk(more, maxfd)
    ensures forall fd: nat :: MaskOf(more, fd) == MaskOf(events, fd)
  {
    forall fd: nat ensures MaskOf(more, fd) == MaskOf(events, fd) {
      if fd < |events| {
        assert more[..|events|][fd] == more[fd];
      }
    }
    hide MaskOf;
  }

  lemma PlaceOrNot(fds: seq<int>, i: int, fd: nat)
    requires if i >= 0 then i < |fds| && fds[i] == fd else forall j :: 0 <= j < |fds| ==> fds[j] != fd
    ensures i >= 0 <==> IsPending(fds, fd)
  {}

  /** The mask deleteFileEvent removes: the barrier goes with the writable event. */
  function Removing(mask: Mask): Mask {
    if mask & WRITABLE != NONE then mask | BARRIER else mask
  }

  predicate Has(mask: Mask, bit: Mask) {
    mask & bit != NONE
  }

  predicate IsReported(batch: seq<Report>, fd: nat) {
    exists i :: 0 <= i < |batch| && batch[i].fd == fd
  }

  /** The event of the report is fired with the bits the kernel reported, and the descriptor is pending. */
  ghost predicate ReportedAs(r: Report, f: Fired, pending: int) {
    && f.fd == r.fd == pending && (Has(f.mask, READABLE) <==> r.pollIn) && (Has(f.mask, WRITABLE) <==> r.pollOut)
    && !Has(f.mask, BARRIER)
  }

  function FiredOf(batch: seq<Report>): seq<Fired> {
    seq(|batch|, i requires 0 <= i < |batch| => FiredFor(batch[i]))
  }

  function FiredFor(r: Report): Fired {
    Fired(r.fd, (if r.pollIn then READABLE else NONE) | (if r.pollOut then WRITABLE else NONE))
  }

  class EventLoop {
    const setsize: nat
    var events: array<Mask>
    var fired: array<Fired>
    var maxfd: int
    const pendingFds: array<int>
    const pendingMasks: array<Mask>
    var npending: nat
    /** What the kernel has associated with the port. */
    var port: map<nat, Mask>

    ghost predicate Shape()
      reads this
    {
      && pendingFds.Length == pendingMasks.Length == MAX_EVENT_BATCHSZ && npending <= MAX_EVENT_BATCHSZ
      && events != pendingMasks && pendingFds as object != events && pendingFds as object != pendingMasks
      && fired as object != events && fired as object != pendingFds && fired as object != pendingMasks
      && fired.Length == events.Length <= setsize
    }

    ghost predicate Valid()
      reads this, events, pendingFds, pendingMasks
    {
      && Shape()
      && StateOk(events[..], pendingFds[..npending], pendingMasks[..npending], port)
      && MaxOk(events[..], maxfd)
    }

    /** aeCreateEventLoop with aeApiCreate */
    constructor (setsize: nat)
      ensures Valid() && this.setsize == setsize && port == map[] && maxfd == -1 && npending == 0
      ensures events.Length == if setsize < INITIAL_EVENT then setsize else INITIAL_EVENT
      ensures forall fd: nat :: MaskOf(events[..], fd) == NONE
      ensures fresh(events) && fresh(fired) && fresh(pendingFds) && fresh(pendingMasks)
    {
      this.setsize, maxfd, npending, port := setsize, -1, 0, map[];
      var nevents := if setsize < INITIAL_EVENT then setsize else INITIAL_EVENT;
      events := new Mask[nevents](_ => NONE);
      fired := new Fired[nevents](_ => Fired(0, NONE));
      pendingFds := new int[MAX_EVENT_BATCHSZ](_ => -1);
      pendingMasks := new Mask[MAX_EVENT_BATCHSZ](_ => NONE);
    }

    /** aeApiLookupPending */
    method LookupPending(fd: nat) returns (i: int)
      requires Shape()
      ensures -1 <= i < npending && (i >= 0 ==> pendingFds[i] == fd)
      ensures i >= 0 <==> IsPending(pendingFds[..npending], fd)
    {
      var k := 0;
      while k < npending
        invariant k <= npending && forall j :: 0 <= j < k ==> pendingFds[j] != fd
      {
        if pendingFds[k] == fd {
          PlaceOrNot(pendingFds[..npending], k, fd);
          return k;
        }
        k := k + 1;
      }
      PlaceOrNot(pendingFds[..npending], -1, fd);
      return -1;
    }

    /** The growth of the arrays in aeCreateFileEvent. */
    method Grow(fd: nat)
      requires Valid() && events.Length <= fd < setsize
      modifies this`events, this`fired
      ensures Valid() && fd < events.Length && old(events.Length) < events.Length && fresh(events) && fresh(fired)
      ensures forall g: nat :: MaskOf(events[..], g) == MaskOf(old(events[..]), g)
    {
      hide StateOk, MaxOk, MaskOf;
      var n := if events.Length * 2 > fd + 1 then events.Length * 2 else fd + 1;
      n := if n > setsize then setsize else n;
      var more := new Mask[n](_ => NONE);
      var i := 0;
      while i < events.Length
        modifies more
        invariant i <= events.Length && more[..i] == events[..i] && forall j :: i <= j < n ==> more[j] == NONE
      {
        more[i] := events[i];
        i := i + 1;
      }
      var places := new Fired[n](j requires 0 <= j < n reads this, fired => if j < fired.Length then fired[j] else Fired(0, NONE));
      assert more[..][..events.Length] == events[..];
      GrowKeeps(events[..], more[..], pendingFds[..npending], pendingMasks[..npending], port, maxfd);
      events, fired := more, places;
    }

    /** aeApiAddEvent; `kernelOk` is the answer of port_associate. The caller updates the registered mask. */
    method AddEvent(fd: nat, mask: Mask, kernelOk: bool) returns (ok: bool)
      requires Valid() && fd < events.Length && mask != NONE
      modifies this`port, pendingMasks
      ensures Shape() && events[..] == old(events[..])
      ensures ok <==> kernelOk || IsPending(pendingFds[..npending], fd)
      ensures ok ==> StateOk(events[..][fd := events[fd] | mask], pendingFds[..npending], pendingMasks[..npending], port)
      ensures !ok ==> port == old(port) && pendingMasks[..] == old(pendingMasks[..])
    {
      hide StateOk, MaxOk, IsPending;
      var full := mask | events[fd];
      UnionIsSome(mask, events[fd]);
      var pfd := LookupPending(fd);
      if pfd != -1 {
        PendingMask(events[..], pendingFds[..npending], pendingMasks[..npending], port, pfd, mask);
        PendingKeeps(events[..], pendingFds[..npending], pendingMasks[..npending], port, pfd, full);
        pendingMasks[pfd] := pendingMasks[pfd] | full;
        assert pendingMasks[..npending] == old(pendingMasks[..npending])[pfd := full];
        return true;
      }
      if kernelOk {
        AssociateKeeps(events[..], pendingFds[..npending], pendingMasks[..npending], port, fd, full);
        port := port[fd := full];
      }
      return kernelOk;
    }

    /** aeCreateFileEvent, for a descriptor in range of the events array. */
    method Register(fd: nat, mask: Mask, kernelOk: bool) returns (ok: bool)
      requires Valid() && mask != NONE && fd < events.Length
      modifies this`maxfd, this`port, events, pendingMasks
      ensures Valid()
      ensures ok <==> kernelOk || IsPending(pendingFds[..npending], fd)
      ensures ok ==> events[..] == old(events[..])[fd := old(events[fd]) | mask]
      ensures !ok ==> port == old(port) && pendingMasks[..] == old(pendingMasks[..]) && events[..] == old(events[..])
    {
      hide StateOk, MaxOk, IsPending, MaskOf;
      ghost var before := events[..];
      ok := AddEvent(fd, mask, kernelOk);
      if !ok {
        return;
      }
      UnionIsSome(mask, events[fd]);
      MaxGrows(events[..], maxfd, fd, events[fd] | mask);
      events[fd] := events[fd] | mask;
      assert events[..] == before[fd := before[fd] | mask];
      if fd > maxfd {
        maxfd := fd;
      }
    }

    /** aeCreateFileEvent: the mask grows by `mask`, unless the descriptor is out of range or the kernel refuses. */
    method CreateFileEvent(fd: nat, mask: Mask, kernelOk: bool) returns (ok: bool)
      requires Valid() && mask != NONE
      modifies this`events, this`fired, this`maxfd, this`port, events, pendingMasks
      ensures Valid() && (events == old(events) || fresh(events))
      ensures ok <==> fd < setsize && (kernelOk || IsPending(old(pendingFds[..npending]), fd))
      ensures forall g: nat :: MaskOf(events[..], g) ==
                if ok && g == fd then MaskOf(old(events[..]), g) | mask else MaskOf(old(events[..]), g)
      ensures !ok ==> port == old(port) && pendingMasks[..] == old(pendingMasks[..])
      ensures old(events.Length) <= events.Length && (fd < events.Length || fd >= setsize)
    {
      hide StateOk, MaxOk, IsPending, MaskOf;
      if fd >= setsize {
        return false;
      }
      if fd >= events.Length {
        Grow(fd);
      }
      MaskAfter(events[..], fd, events[fd] | mask);
      MaskIs(events[..], fd, mask);
      ok := Register(fd, mask, kernelOk);
    }

    /** aeApiDelEvent, when the kernel does what it is asked. The caller updates the registered mask. */
    method DelEvent(fd: nat, mask: Mask)
      requires Valid() && fd < events.Length && events[fd] != NONE
      modifies this`port, pendingFds, pendingMasks
      ensures Shape() && events[..] == old(events[..])
      ensures StateOk(events[..][fd := events[fd] & !mask], pendingFds[..npending], pendingMasks[..npending], port)
    {
      hide StateOk, MaxOk, IsPending;
      var pfd := LookupPending(fd);
      if pfd != -1 {
        PendingMask(events[..], pendingFds[..npending], pendingMasks[..npending], port, pfd, mask);
        if events[fd] & !mask == NONE {
          ForgetKeeps(events[..], pendingFds[..npending], pendingMasks[..npending], port, pfd);
        } else {
          PendingKeeps(events[..], pendingFds[..npending], pendingMasks[..npending], port, pfd, events[fd] & !mask);
        }
        pendingMasks[pfd] := pendingMasks[pfd] & !mask;
        if pendingMasks[pfd] == NONE {
          pendingFds[pfd] := -1;
        }
        assert pendingMasks[..npending] == old(pendingMasks[..npending])[pfd := events[fd] & !mask];
        assert pendingFds[..npending] ==
               if events[fd] & !mask == NONE then old(pendingFds[..npending])[pfd := -1] else old(pendingFds[..npending]);
        return;
      }
      IsAssociated(events[..], pendingFds[..npending], pendingMasks[..npending], port, fd);
      var full := events[fd] & !mask;
      if full == NONE {
        DissociateKeeps(events[..], pendingFds[..npending], pendingMasks[..npending], port, fd);
        // port_dissociate fails for a descriptor that is not associated, which is fatal
        assert fd in port;
        port := port - {fd};
      } else {
        AssociateKeeps(events[..], pendingFds[..npending], pendingMasks[..npending], port, fd, full);
        port := port[fd := full];
      }
    }

    /** The search for the new greatest descriptor in aeDeleteFileEvent. */
    method LowerMax()
      requires Shape() && 0 <= maxfd < events.Length && NoneFrom(events[..], maxfd)
      modifies this`maxfd
      ensures MaxOk(events[..], maxfd)
    {
      hide NoneFrom, MaskOf;
      var j := maxfd - 1;
      while j >= 0 && events[j] == NONE
        modifies {}
        invariant -1 <= j < maxfd && NoneFrom(events[..], j + 1)
      {
        NoneFromOneLess(events[..], j);
        j := j - 1;
      }
      if j >= 0 {
        MaskIs(events[..], j, NONE);
      }
      maxfd := j;
    }

    /**
     aeDeleteFileEvent. The descriptor is compared with the set size only, so it may lie behind the end of the events
     array, which is read out of bounds then: `inBounds` is false, and the model stops there.
     */
    method DeleteFileEvent(fd: nat, mask: Mask) returns (inBounds: bool)
      requires Valid()
      modifies this`maxfd, this`port, events, pendingFds, pendingMasks
      ensures Valid()
      ensures inBounds <==> fd < events.Length || fd >= setsize
      ensures forall g: nat :: MaskOf(events[..], g) ==
                if g == fd then MaskOf(old(events[..]), g) & !Removing(mask) else MaskOf(old(events[..]), g)
      ensures MaskOf(old(events[..]), fd) != NONE ==> inBounds
    {
      hide StateOk, MaxOk, IsPending, MaskOf, Removing;
      MaskIs(events[..], fd, !Removing(mask));
      if fd >= setsize {
        return true;
      }
      if fd >= events.Length {
        return false;
      }
      inBounds := true;
      if events[fd] == NONE {
        return;
      }
      ghost var before := events[..];
      var removing := mask;
      if mask & WRITABLE != NONE {
        removing := mask | BARRIER;
      }
      RemovingIs(mask);
      DelEvent(fd, removing);
      MaskAfter(events[..], fd, events[fd] & !removing);
      MaxShrinks(events[..], maxfd, fd, events[fd] & !removing);
      events[fd] := events[fd] & !removing;
      assert events[..] == before[fd := before[fd] & !removing];
      if fd == maxfd && events[fd] == NONE {
        LowerMax();
      }
    }

    /** The first loop of aeApiPoll: the pending descriptors are associated again. */
    method Reassociate()
      requires Valid()
      modifies this`npending, this`port, pendingFds, pendingMasks
      ensures Shape() && npending == 0 && events[..] == old(events[..]) && StateOk(events[..], [], [], port)
    {
      hide StateOk, MaxOk;
      var i := 0;
      while i < npending
        modifies this`port, pendingFds, pendingMasks
        invariant i <= npending && events[..] == old(events[..])
        invariant StateOk(events[..], pendingFds[..npending], pendingMasks[..npending], port)
        invariant forall j :: 0 <= j < i ==> pendingFds[j] == -1
      {
        if pendingFds[i] != -1 {
          ReassociateOne(i);
        }
        i := i + 1;
      }
      NonePending(events[..], pendingFds[..npending], pendingMasks[..npending], port);
      npending := 0;
    }

    method ReassociateOne(i: nat)
      requires Shape() && StateOk(events[..], pendingFds[..npending], pendingMasks[..npending], port)
      requires i < npending && pendingFds[i] != -1
      modifies this`port, pendingFds, pendingMasks
      ensures events[..] == old(events[..]) && pendingFds[..npending] == old(pendingFds[..npending])[i := -1]
      ensures forall j :: 0 <= j < npending ==> pendingFds[j] == if j == i then -1 else old(pendingFds[j])
      ensures StateOk(events[..], pendingFds[..npending], pendingMasks[..npending], port)
    {
      hide StateOk;
      PendingIsFd(events[..], pendingFds[..npending], pendingMasks[..npending], port, i);
      ReassociateKeeps(events[..], pendingFds[..npending], pendingMasks[..npending], port, i);
      port := port[pendingFds[i] := pendingMasks[i]];
      pendingMasks[i] := NONE;
      pendingFds[i] := -1;
      assert pendingMasks[..npending] == old(pendingMasks[..npending])[i := NONE];
      assert pendingFds[..npending] == old(pendingFds[..npending])[i := -1];
    }

    /** The last loop of aeApiPoll: what was fetched from the port is fired, and pending. */
    method Collect(batch: seq<Report>, users: seq<Mask>)
      requires Shape() && npending == |batch| == |users| && |batch| <= events.Length
      modifies fired, pendingFds, pendingMasks
      ensures fired[..|batch|] == FiredOf(batch)
      ensures pendingFds[..npending] == FdsOf(batch) && pendingMasks[..npending] == users
    {
      var i := 0;
      while i < |batch|
        modifies fired, pendingFds, pendingMasks
        invariant i <= |batch|
        invariant forall j :: 0 <= j < i ==> fired[j] == FiredFor(batch[j])
        invariant forall j :: 0 <= j < i ==> pendingFds[j] == batch[j].fd && pendingMasks[j] == users[j]
      {
        fired[i] := FiredFor(batch[i]);
        pendingFds[i], pendingMasks[i] := batch[i].fd, users[i];
        i := i + 1;
      }
    }

    /**
     aeApiPoll, when `batch` is what the kernel reports: distinct descriptors that are associated. Every registered
     descriptor is associated before the fetch; those reported are pending afterwards, and fit the arrays.
     */
    method Poll(batch: seq<Report>) returns (n: nat, ghost atFetch: map<nat, Mask>)
      requires Valid() && DistinctReports(batch) && |batch| <= MAX_EVENT_BATCHSZ
      requires forall i :: 0 <= i < |batch| ==> MaskOf(events[..], batch[i].fd) != NONE
      modifies this`npending, this`port, fired, pendingFds, pendingMasks
      ensures Valid() && events[..] == old(events[..]) && n == |batch| <= fired.Length
      ensures forall fd: nat :: fd in atFetch <==> MaskOf(events[..], fd) != NONE
      ensures forall fd: nat :: fd in atFetch ==> atFetch[fd] == MaskOf(events[..], fd)
      ensures forall fd: nat :: fd in port <==> MaskOf(events[..], fd) != NONE && !IsReported(batch, fd)
      ensures npending == |batch| && forall i :: 0 <= i < n ==> ReportedAs(batch[i], fired[i], pendingFds[i])
    {
      hide StateOk, MaxOk, MaskOf, Taken, FdsOf, UsersOf, FiredOf, DistinctReports, IsReported, ReportedAs;
      Reassociate();
      atFetch := port;
      AllAssociated(events[..], port, batch);
      FetchKeeps(events[..], port, batch);
      Fits(events[..], batch);
      var users := UsersOf(port, batch);
      port := Taken(port, batch);
      npending := |batch|;
      UsersLength(atFetch, batch);
      Collect(batch, users);
      n := |batch|;
      TakenMeans(atFetch, batch);
      CollectedMeans(batch, fired[..n], pendingFds[..npending]);
    }
  }

  /** The bits that stay: a barrier goes also when the writable event goes. */
  lemma RemovalMeans(before: Mask, mask: Mask)
    ensures var after := before & !Removing(mask);
            && (Has(after, READABLE) <==> Has(before, READABLE) && !Has(mask, READABLE))
            && (Has(after, WRITABLE) <==> Has(before, WRITABLE) && !Has(mask, WRITABLE))
            && (Has(after, BARRIER) <==> Has(before, BARRIER) && !Has(mask, BARRIER) && !Has(mask, WRITABLE))
  {}

  lemma TakenMeans(port: map<nat, Mask>, batch: seq<Report>)
    ensures forall fd: nat :: fd in Taken(port, batch) <==> fd in port && !IsReported(batch, fd)
  {}

  lemma FiredMeans(r: Report)
    ensures var f := FiredFor(r);
            && f.fd == r.fd && !Has(f.mask, BARRIER)
            && (Has(f.mask, READABLE) <==> r.pollIn) && (Has(f.mask, WRITABLE) <==> r.pollOut)
  {}

  lemma CollectedMeans(batch: seq<Report>, fired: seq<Fired>, fds: seq<int>)
    requires fired == FiredOf(batch) && fds == FdsOf(batch)
    ensures |fired| == |fds| == |batch| && forall i :: 0 <= i < |batch| ==> ReportedAs(batch[i], fired[i], fds[i])
  {
    hide Has, FiredFor;
    forall i | 0 <= i < |batch| ensures ReportedAs(batch[i], fired[i], fds[i]) {
      FiredMeans(batch[i]);
    }
  }

  lemma UsersLength(port: map<nat, Mask>, batch: seq<Report>)
    requires forall i :: 0 <= i < |batch| ==> batch[i].fd in port
    ensures |UsersOf(port, batch)| == |batch|
  {}

  lemma NonePending(events: seq<Mask>, fds: seq<int>, masks: seq<Mask>, port: map<nat, Mask>)
    requires StateOk(events, fds, masks, port) && forall j :: 0 <= j < |fds| ==> fds[j] == -1
    ensures StateOk(events, [], [], port)
  {}

  lemma PendingIsFd(events: seq<Mask>, fds: seq<int>, masks: seq<Mask>, port: map<nat, Mask>, i: nat)
    requires StateOk(events, fds, masks, port) && i < |fds| && fds[i] != -1
    ensures fds[i] >= 0 && |masks| == |fds|
  {}

  lemma AllAssociated(events: seq<Mask>, port: map<nat, Mask>, batch: seq<Report>)
    requires StateOk(events, [], [], port) && forall i :: 0 <= i < |batch| ==> MaskOf(events, batch[i].fd) != NONE
    ensures forall fd: nat :: fd in port <==> MaskOf(events, fd) != NONE
    ensures forall fd: nat :: fd in port ==> port[fd] == MaskOf(events, fd)
    ensures forall i :: 0 <= i < |batch| ==> batch[i].fd in port
  {}

  /** A batch of distinct registered descriptors is not longer than the arrays. */
  lemma Fits(events: seq<Mask>, batch: seq<Report>)
    requires DistinctReports(batch) && forall i :: 0 <= i < |batch| ==> MaskOf(events, batch[i].fd) != NONE
    ensures |batch| <= |events|
  {
    var fds := seq(|batch|, i requires 0 <= i < |batch| => batch[i].fd);
    Pigeonhole.DistinctBelow(fds, |events|);
  }

  lemma MaskIs(events: seq<Mask>, fd: nat, m: Mask)
    ensures MaskOf(events, fd) == if fd < |events| then events[fd] else NONE
    ensures NONE & m == NONE
  {}

  lemma RemovingIs(mask: Mask)
    ensures Removing(mask) == if mask & WRITABLE != NONE then mask | BARRIER else mask
  {}

  lemma PendingMask(events: seq<Mask>, fds: seq<int>, masks: seq<Mask>, port: map<nat, Mask>, i: nat, m: Mask)
    requires StateOk(events, fds, masks, port) && i < |fds| && 0 <= fds[i] < |events|
    ensures |masks| == |fds| && masks[i] == events[fds[i]]
    ensures masks[i] | (m | masks[i]) == m | masks[i] == masks[i] | m
  {}

  /** A registered descriptor that is not pending is associated. */
  lemma IsAssociated(events: seq<Mask>, fds: seq<int>, masks: seq<Mask>, port: map<nat, Mask>, fd: nat)
    requires StateOk(events, fds, masks, port) && fd < |events| && events[fd] != NONE && !IsPending(fds, fd)
    ensures fd in port
  {}

  lemma NoneFromAfter(events: seq<Mask>, n: int, fd: nat, mask: Mask)
    requires fd < |events| && NoneFrom(events, n)
    ensures fd < n || mask == NONE ==> NoneFrom(events[fd := mask], n)
    ensures NoneFrom(events[fd := mask], if fd >= n then fd + 1 else n)
    ensures fd == n - 1 && mask == NONE ==> NoneFrom(events[fd := mask], n - 1)
  {
    hide MaskOf;
    MaskAfter(events, fd, mask);
    var after := events[fd := mask];
    forall g: nat | MaskOf(after, g) != NONE
      ensures g < n || (g == fd && mask != NONE)
      ensures fd == n - 1 && mask == NONE ==> g < n - 1
    {
      MaskAfterAt(events, fd, mask, g);
    }
  }

  lemma NoneFromOneLess(events: seq<Mask>, n: nat)
    requires n < |events| && NoneFrom(events, n + 1) && events[n] == NONE
    ensures NoneFrom(events, n)
  {}

  lemma MaxGrows(events: seq<Mask>, maxfd: int, fd: nat, mask: Mask)
    requires MaxOk(events, maxfd) && fd < |events| && mask != NONE
    ensures MaxOk(events[fd := mask], if fd > maxfd then fd else maxfd)
  {
    hide MaskOf, NoneFrom;
    MaskAfter(events, fd, mask);
    NoneFromAfter(events, maxfd + 1, fd, mask);
    if fd <= maxfd {
      MaskAfterAt(events, fd, mask, maxfd);
    } else {
      MaskAfterAt(events, fd, mask, fd);
    }
  }

  /** With the greatest descriptor gone there is none from there on. */
  lemma MaxShrinks(events: seq<Mask>, maxfd: int, fd: nat, mask: Mask)
    requires MaxOk(events, maxfd) && fd < |events| && MaskOf(events, fd) != NONE
    ensures fd <= maxfd && (fd != maxfd || mask != NONE ==> MaxOk(events[fd := mask], maxfd))
    ensures fd == maxfd && mask == NONE ==> NoneFrom(events[fd := mask], maxfd)
  {
    hide MaskOf;
    MaskAfter(events, fd, mask);
    assert fd < maxfd + 1;
    NoneFromAfter(events, maxfd + 1, fd, mask);
    MaskAfterAt(events, fd, mask, maxfd);
  }

  /** Closing a connection on a descriptor that was never registered reads behind a fresh events array. */
  method ClosesOutOfBounds() returns (loop: EventLoop, inBounds: bool)
    ensures fresh(loop) && loop.Valid() && loop.events.Length <= INITIAL_EVENT < loop.setsize && !inBounds
  {
    hide StateOk, MaxOk, MaskOf;
    loop := new EventLoop(INITIAL_EVENT + 1);
    inBounds := loop.DeleteFileEvent(INITIAL_EVENT, READABLE | WRITABLE);
  }

  /** Once registering a descriptor was tried, deleting its events stays in bounds. */
  method DeleteAfterCreate(loop: EventLoop, fd: nat, mask: Mask, kernelOk: bool, removed: Mask) returns (inBounds: bool)
    requires loop.Valid() && mask != NONE
    modifies loop`events, loop`fired, loop`maxfd, loop`port, loop.events, loop.pendingFds, loop.pendingMasks
    ensures loop.Valid() && inBounds
  {
    hide StateOk, MaxOk, MaskOf, Removing, IsPending;
    var ok := loop.CreateFileEvent(fd, mask, kernelOk);
    inBounds := loop.DeleteFileEvent(fd, removed);
  }
}
