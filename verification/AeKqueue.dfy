/** Merging the read and write events that a kqueue reports, with the masks of four descriptors packed in a byte. */
module AeKqueue {
  import Pigeonhole

  const READABLE: bv8 := 1
  const WRITABLE: bv8 := 2

  datatype Filter = Read | Write | Other

  datatype KEvent = KEvent(fd: nat, filter: Filter)

  datatype Fired = Fired(fd: nat, mask: bv8)

  // ---- four masks in a byte ----

  /** EVENT_MASK_OFFSET */
  function Offset(fd: nat): bv8 {
    if fd % 4 == 0 then 0 else if fd % 4 == 1 then 2 else if fd % 4 == 2 then 4 else 6
  }

  function Encode(fd: nat, mask: bv8): bv8 {
    (mask & 0x3) << Offset(fd)
  }

  function Decode(byte: bv8, fd: nat): bv8 {
    (byte >> Offset(fd)) & 0x3
  }

  predicate IsOffset(o: bv8) {
    o == 0 || o == 2 || o == 4 || o == 6
  }

  lemma AddBits(byte: bv8, o: bv8, p: bv8, mask: bv8)
    requires IsOffset(o) && IsOffset(p)
    ensures ((byte | ((mask & 0x3) << o)) >> p) & 0x3 ==
            if o == p then ((byte >> p) & 0x3) | (mask & 0x3) else (byte >> p) & 0x3
  {}

  lemma ResetBits(byte: bv8, o: bv8, p: bv8)
    requires IsOffset(o) && IsOffset(p)
    ensures ((byte & !((0x3 & 0x3) << o)) >> p) & 0x3 == if o == p then 0 else (byte >> p) & 0x3
  {}

  lemma OffsetsDiffer(fd: nat, g: nat)
    ensures IsOffset(Offset(fd)) && (Offset(fd) == Offset(g) <==> fd % 4 == g % 4)
  {}

  /** Setting bits of one descriptor leaves those of the others in the byte. */
  lemma AddDoesNotInterfere(byte: bv8, fd: nat, mask: bv8, g: nat)
    ensures Decode(byte | Encode(fd, mask), g) ==
            if fd % 4 == g % 4 then Decode(byte, g) | (mask & 0x3) else Decode(byte, g)
  {
    OffsetsDiffer(fd, g);
    OffsetsDiffer(g, fd);
    hide Offset;
    AddBits(byte, Offset(fd), Offset(g), mask);
  }

  lemma ResetDoesNotInterfere(byte: bv8, fd: nat, g: nat)
    ensures Decode(byte & !Encode(fd, 0x3), g) == if fd % 4 == g % 4 then 0 else Decode(byte, g)
  {
    OffsetsDiffer(fd, g);
    OffsetsDiffer(g, fd);
    hide Offset;
    ResetBits(byte, Offset(fd), Offset(g));
  }

  /** The mask of a descriptor in the packed bytes. */
  function MaskAt(bytes: seq<bv8>, fd: nat): bv8 {
    if fd / 4 < |bytes| then Decode(bytes[fd / 4], fd) else 0
  }

  ghost predicate AllZero(bytes: seq<bv8>) {
    forall i :: 0 <= i < |bytes| ==> bytes[i] == 0
  }

  lemma DecodesToZero(byte: bv8)
    requires Decode(byte, 0) == 0 && Decode(byte, 1) == 0 && Decode(byte, 2) == 0 && Decode(byte, 3) == 0
    ensures byte == 0
  {}

  lemma DecodeByPlace(byte: bv8, fd: nat)
    ensures Decode(byte, fd) == Decode(byte, fd % 4)
  {}

  lemma NoMaskMeansZero(bytes: seq<bv8>)
    requires forall fd: nat :: MaskAt(bytes, fd) == 0
    ensures AllZero(bytes)
  {
    forall i: nat | i < |bytes| ensures bytes[i] == 0 {
      forall k: nat | k < 4 ensures Decode(bytes[i], k) == 0 {
        assert MaskAt(bytes, 4 * i + k) == 0;
        DecodeByPlace(bytes[i], 4 * i + k);
      }
      DecodesToZero(bytes[i]);
    }
  }

  lemma ZeroMeansNoMask(bytes: seq<bv8>, fd: nat)
    requires AllZero(bytes)
    ensures MaskAt(bytes, fd) == 0
  {}

  lemma SamePlace(fd: nat, g: nat)
    ensures fd / 4 == g / 4 && fd % 4 == g % 4 <==> fd == g
  {}

  lemma AddAt(bytes: seq<bv8>, fd: nat, mask: bv8, g: nat)
    requires fd / 4 < |bytes|
    ensures MaskAt(bytes[fd / 4 := bytes[fd / 4] | Encode(fd, mask)], g) ==
            if fd == g then MaskAt(bytes, g) | (mask & 0x3) else MaskAt(bytes, g)
  {
    hide Decode, Encode;
    AddDoesNotInterfere(bytes[fd / 4], fd, mask, g);
    SamePlace(fd, g);
  }

  lemma ResetAt(bytes: seq<bv8>, fd: nat, g: nat)
    requires fd / 4 < |bytes|
    ensures MaskAt(bytes[fd / 4 := bytes[fd / 4] & !Encode(fd, 0x3)], g) == if fd == g then 0 else MaskAt(bytes, g)
  {
    hide Decode, Encode;
    ResetDoesNotInterfere(bytes[fd / 4], fd, g);
    SamePlace(fd, g);
  }

  // ---- what a batch amounts to ----

  function MaskOf(f: Filter): bv8 {
    match f case Read => READABLE case Write => WRITABLE case Other => 0
  }

  /** The union of the events of a descriptor. */
  function Union(batch: seq<KEvent>, fd: nat): bv8 {
    if batch == [] then 0
    else var last := batch[|batch| - 1];
      if last.fd == fd then Union(batch[..|batch| - 1], fd) | MaskOf(last.filter) else Union(batch[..|batch| - 1], fd)
  }

  ghost predicate Seen(batch: seq<KEvent>, fd: nat) {
    exists i :: 0 <= i < |batch| && batch[i].fd == fd
  }

  /** The descriptors of the first `n` events, each at its first event, with the union over the whole batch. */
  ghost function Merged(batch: seq<KEvent>, n: nat): seq<Fired>
    requires n <= |batch|
  {
    if n == 0 then []
    else
      var fd := batch[n - 1].fd;
      Merged(batch, n - 1) +
      if Union(batch, fd) != 0 && !Seen(batch[..n - 1], fd) then [Fired(fd, Union(batch, fd))] else []
  }

  lemma UnionMore(batch: seq<KEvent>, n: nat, fd: nat)
    requires n < |batch|
    ensures Union(batch[..n + 1], fd) ==
            if batch[n].fd == fd then Union(batch[..n], fd) | MaskOf(batch[n].filter) else Union(batch[..n], fd)
  {
    assert batch[..n + 1][..n] == batch[..n];
  }

  lemma SeenMore(batch: seq<KEvent>, n: nat, fd: nat)
    requires n < |batch|
    ensures Seen(batch[..n + 1], fd) <==> Seen(batch[..n], fd) || batch[n].fd == fd
  {
    if i :| 0 <= i < n && batch[..n][i].fd == fd {
      assert batch[..n + 1][i].fd == fd;
    }
    assert batch[..n + 1][n] == batch[n];
  }

  lemma FilterBits(f: Filter)
    ensures MaskOf(f) & 0x3 == MaskOf(f)
  {}

  /** Read and write, exactly as far as the batch has such an event for the descriptor. */
  lemma {:induction false} UnionMeans(batch: seq<KEvent>, fd: nat)
    ensures Union(batch, fd) & READABLE != 0 <==> exists i :: 0 <= i < |batch| && batch[i] == KEvent(fd, Read)
    ensures Union(batch, fd) & WRITABLE != 0 <==> exists i :: 0 <= i < |batch| && batch[i] == KEvent(fd, Write)
    ensures Union(batch, fd) & 0x3 == Union(batch, fd)
  {
    if batch != [] {
      var n := |batch| - 1;
      UnionMeans(batch[..n], fd);
      UnionBits(Union(batch[..n], fd), batch[n].filter);
      forall f: Filter
        ensures (exists i :: 0 <= i < |batch| && batch[i] == KEvent(fd, f)) <==>
                (exists i :: 0 <= i < n && batch[..n][i] == KEvent(fd, f)) || batch[n] == KEvent(fd, f)
      {
        if i :| 0 <= i < |batch| && batch[i] == KEvent(fd, f) {
          assert i < n ==> batch[..n][i] == KEvent(fd, f);
        }
      }
    }
  }

  lemma UnionBits(u: bv8, f: Filter)
    requires u & 0x3 == u
    ensures (u | MaskOf(f)) & READABLE != 0 <==> u & READABLE != 0 || f == Read
    ensures (u | MaskOf(f)) & WRITABLE != 0 <==> u & WRITABLE != 0 || f == Write
    ensures (u | MaskOf(f)) & 0x3 == u | MaskOf(f)
  {}

  /** Where a descriptor first occurs. */
  function First(batch: seq<KEvent>, fd: nat): nat {
    if batch == [] || batch[0].fd == fd then 0 else 1 + First(batch[1..], fd)
  }

  lemma {:induction false} FirstIs(batch: seq<KEvent>, fd: nat, i: nat)
    requires i < |batch| && batch[i].fd == fd && forall j :: 0 <= j < i ==> batch[j].fd != fd
    ensures First(batch, fd) == i
  {
    if i > 0 {
      FirstIs(batch[1..], fd, i - 1);
    }
  }

  /** The entries merged so far come from the first `n` events, each event's descriptor at its first occurrence. */
  ghost predicate MergedOk(batch: seq<KEvent>, n: nat, merged: seq<Fired>)
    requires n <= |batch|
  {
    && (forall i :: 0 <= i < |merged| ==> merged[i].mask == Union(batch, merged[i].fd) != 0 && Seen(batch[..n], merged[i].fd))
    && (forall i :: 0 <= i < |merged| ==> First(batch, merged[i].fd) < n)
    && (forall i, j :: 0 <= i < j < |merged| ==> First(batch, merged[i].fd) < First(batch, merged[j].fd))
    && forall fd: nat :: Seen(batch[..n], fd) && Union(batch, fd) != 0 ==> Fired(fd, Union(batch, fd)) in merged
  }

  lemma MergeStep(batch: seq<KEvent>, n: nat, merged: seq<Fired>)
    requires n < |batch| && MergedOk(batch, n, merged)
    ensures var fd := batch[n].fd;
            MergedOk(batch, n + 1,
                     merged + if Union(batch, fd) != 0 && !Seen(batch[..n], fd) then [Fired(fd, Union(batch, fd))] else [])
  {
    hide Union, First, Seen;
    var fd := batch[n].fd;
    forall g: nat ensures Seen(batch[..n + 1], g) <==> Seen(batch[..n], g) || fd == g {
      SeenMore(batch, n, g);
    }
    if Union(batch, fd) != 0 && !Seen(batch[..n], fd) {
      NotSeenIsFirst(batch, n);
      var more := merged + [Fired(fd, Union(batch, fd))];
      assert forall i :: 0 <= i < |merged| ==> more[i] == merged[i];
      assert more[|merged|] == Fired(fd, Union(batch, fd));
    } else {
      assert merged + [] == merged;
    }
  }

  lemma NotSeenIsFirst(batch: seq<KEvent>, n: nat)
    requires n < |batch| && !Seen(batch[..n], batch[n].fd)
    ensures First(batch, batch[n].fd) == n
  {
    assert forall j :: 0 <= j < n ==> batch[..n][j].fd != batch[n].fd;
    FirstIs(batch, batch[n].fd, n);
  }

  lemma {:induction false} MergedIsOk(batch: seq<KEvent>, n: nat)
    requires n <= |batch|
    ensures MergedOk(batch, n, Merged(batch, n))
  {
    if n > 0 {
      hide MergedOk, Seen, Union;
      MergedIsOk(batch, n - 1);
      MergeStep(batch, n - 1, Merged(batch, n - 1));
    } else {
      assert batch[..0] == [];
    }
  }

  /** Each descriptor with a read or write event is reported exactly once, in order of first occurrence, with both. */
  lemma EachOnceInOrder(batch: seq<KEvent>)
    ensures var m := Merged(batch, |batch|);
            && (forall i :: 0 <= i < |m| ==> m[i].mask == Union(batch, m[i].fd) != 0)
            && (forall i, j :: 0 <= i < j < |m| ==>
                  m[i].fd != m[j].fd && First(batch, m[i].fd) < First(batch, m[j].fd))
            && forall fd: nat :: Union(batch, fd) != 0 ==> Fired(fd, Union(batch, fd)) in m
  {
    hide Union, Merged, First, Seen;
    MergedIsOk(batch, |batch|);
    assert batch[..|batch|] == batch;
    forall fd: nat | Union(batch, fd) != 0 ensures Seen(batch, fd) {
      SomeEvent(batch, fd);
    }
  }

  lemma {:induction false} SomeEvent(batch: seq<KEvent>, fd: nat)
    requires Union(batch, fd) != 0
    ensures Seen(batch, fd)
  {
    hide Seen;
    var n := |batch| - 1;
    if batch[n].fd != fd {
      SomeEvent(batch[..n], fd);
    }
    SeenMore(batch, n, fd);
    assert batch[..n + 1] == batch;
  }

  lemma SeenBelow(batch: seq<KEvent>, n: nat, size: nat, fd: nat)
    requires n <= |batch| && (forall i :: 0 <= i < |batch| ==> batch[i].fd < size) && Seen(batch[..n], fd)
    ensures fd < size
  {
    var j :| 0 <= j < |batch[..n]| && batch[..n][j].fd == fd;
    assert batch[j].fd == fd;
  }

  /** What was merged fits an array that every descriptor fits. */
  lemma MergedFits(batch: seq<KEvent>, n: nat, size: nat)
    requires n <= |batch| && forall i :: 0 <= i < |batch| ==> batch[i].fd < size
    ensures |Merged(batch, n)| <= size
  {
    hide Union, First, Merged, Seen;
    MergedIsOk(batch, n);
    var m := Merged(batch, n);
    var fds := seq(|m|, i requires 0 <= i < |m| => m[i].fd);
    forall i | 0 <= i < |m| ensures m[i].fd < size {
      assert Seen(batch[..n], m[i].fd);
      SeenBelow(batch, n, size, m[i].fd);
    }
    Pigeonhole.DistinctBelow(fds, size);
  }

  class ApiState {
    const setsize: nat
    const eventsMask: array<bv8>

    ghost predicate Valid() {
      eventsMask.Length == (setsize + 3) / 4
    }

    /** aeApiCreate */
    constructor (setsize: nat)
      ensures Valid() && AllZero(eventsMask[..]) && this.setsize == setsize && fresh(eventsMask)
    {
      this.setsize := setsize;
      eventsMask := new bv8[(setsize + 3) / 4](_ => 0);
    }

    /** getEventMask */
    function GetEventMask(fd: nat): (r: bv8)
      requires Valid() && fd < setsize
      reads eventsMask
      ensures r == MaskAt(eventsMask[..], fd)
    {
      (eventsMask[fd / 4] >> Offset(fd)) & 0x3
    }

    /** addEventMask */
    method AddEventMask(fd: nat, mask: bv8)
      requires Valid() && fd < setsize
      modifies eventsMask
      ensures forall g: nat :: MaskAt(eventsMask[..], g) ==
                if g == fd then MaskAt(old(eventsMask[..]), g) | (mask & 0x3) else MaskAt(old(eventsMask[..]), g)
    {
      hide MaskAt, Encode;
      ghost var was := eventsMask[..];
      eventsMask[fd / 4] := eventsMask[fd / 4] | Encode(fd, mask);
      assert eventsMask[..] == was[fd / 4 := was[fd / 4] | Encode(fd, mask)];
      forall g: nat ensures MaskAt(eventsMask[..], g) == if g == fd then MaskAt(was, g) | (mask & 0x3) else MaskAt(was, g) {
        AddAt(was, fd, mask, g);
      }
    }

    /** resetEventMask */
    method ResetEventMask(fd: nat)
      requires Valid() && fd < setsize
      modifies eventsMask
      ensures forall g: nat :: MaskAt(eventsMask[..], g) == if g == fd then 0 else MaskAt(old(eventsMask[..]), g)
    {
      hide MaskAt, Encode;
      ghost var was := eventsMask[..];
      eventsMask[fd / 4] := eventsMask[fd / 4] & !Encode(fd, 0x3);
      assert eventsMask[..] == was[fd / 4 := was[fd / 4] & !Encode(fd, 0x3)];
      forall g: nat ensures MaskAt(eventsMask[..], g) == if g == fd then 0 else MaskAt(was, g) {
        ResetAt(was, fd, g);
      }
    }

    /** The first loop of aeApiPoll. */
    method AddAll(batch: seq<KEvent>)
      requires Valid() && AllZero(eventsMask[..]) && forall i :: 0 <= i < |batch| ==> batch[i].fd < setsize
      modifies eventsMask
      ensures forall fd: nat :: MaskAt(eventsMask[..], fd) == Union(batch, fd)
    {
      hide MaskAt, Union, MaskOf;
      NothingYet(eventsMask[..], batch);
      for j := 0 to |batch|
        invariant forall fd: nat :: MaskAt(eventsMask[..], fd) == Union(batch[..j], fd)
      {
        var mask := MaskOf(batch[j].filter);
        FilterBits(batch[j].filter);
        forall fd: nat
          ensures Union(batch[..j + 1], fd) ==
                  if batch[j].fd == fd then Union(batch[..j], fd) | MaskOf(batch[j].filter) else Union(batch[..j], fd)
        {
          UnionMore(batch, j, fd);
        }
        AddEventMask(batch[j].fd, mask);
      }
      assert batch[..|batch|] == batch;
    }

    /** The merge of aeApiPoll. The packed masks are zero again afterwards. */
    method Merge(batch: seq<KEvent>, fired: array<Fired>) returns (n: nat)
      requires Valid() && AllZero(eventsMask[..]) && fired as object != eventsMask
      requires forall i :: 0 <= i < |batch| ==> batch[i].fd < setsize && batch[i].fd < fired.Length
      modifies eventsMask, fired
      ensures n <= fired.Length && fired[..n] == Merged(batch, |batch|)
      ensures AllZero(eventsMask[..])
    {
      hide MaskAt, Union, Merged, AllZero, Seen;
      AddAll(batch);
      MergeBegins(batch);
      n := 0;
      for j := 0 to |batch|
        invariant n <= fired.Length && fired[..n] == Merged(batch, j)
        invariant forall fd: nat :: MaskAt(eventsMask[..], fd) == if Seen(batch[..j], fd) then 0 else Union(batch, fd)
      {
        MergedMore(batch, j);
        MergedFits(batch, j + 1, fired.Length);
        var fd := batch[j].fd;
        var mask := GetEventMask(fd);
        if mask != 0 {
          fired[n] := Fired(fd, mask);
          ResetEventMask(fd);
          n := n + 1;
        }
      }
      AllMerged(batch);
      NoMaskMeansZero(eventsMask[..]);
    }
  }

  lemma NothingYet(bytes: seq<bv8>, batch: seq<KEvent>)
    requires AllZero(bytes)
    ensures forall fd: nat :: MaskAt(bytes, fd) == Union(batch[..0], fd)
  {
    forall fd: nat ensures MaskAt(bytes, fd) == 0 {
      ZeroMeansNoMask(bytes, fd);
    }
    assert batch[..0] == [];
  }

  lemma MergeBegins(batch: seq<KEvent>)
    ensures Merged(batch, 0) == [] && forall fd: nat :: !Seen(batch[..0], fd)
  {}

  lemma MergedMore(batch: seq<KEvent>, n: nat)
    requires n < |batch|
    ensures var fd := batch[n].fd;
            && Merged(batch, n + 1) == Merged(batch, n) +
               (if Union(batch, fd) != 0 && !Seen(batch[..n], fd) then [Fired(fd, Union(batch, fd))] else [])
            && forall g: nat :: Seen(batch[..n + 1], g) <==> Seen(batch[..n], g) || fd == g
  {
    forall g: nat ensures Seen(batch[..n + 1], g) <==> Seen(batch[..n], g) || batch[n].fd == g {
      SeenMore(batch, n, g);
    }
  }

  /** After the whole batch every descriptor with a mask was seen. */
  lemma AllMerged(batch: seq<KEvent>)
    ensures batch[..|batch|] == batch
    ensures forall fd: nat :: Seen(batch, fd) || Union(batch, fd) == 0
  {
    forall fd: nat ensures Seen(batch, fd) || Union(batch, fd) == 0 {
      if Union(batch, fd) != 0 {
        SomeEvent(batch, fd);
      }
    }
  }
}
