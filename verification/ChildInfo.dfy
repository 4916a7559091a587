/**
 Records of a fixed size that a child process writes to a pipe, put together again from short reads. `willing(k)`
 is how much the k-th read would return.
 */
module ChildInfo {

  type Byte = bv8

  // ---- records in a stream ----

  /** The complete records at the front of the bytes. */
  function Records(s: seq<Byte>, size: nat): seq<seq<Byte>>
    requires size > 0
  {
    if |s| < size then [] else [s[..size]] + Records(s[size..], size)
  }

  /** What is left behind the complete records. */
  function Tail(s: seq<Byte>, size: nat): seq<Byte>
    requires size > 0
  {
    if |s| < size then s else Tail(s[size..], size)
  }

  function Joined(rs: seq<seq<Byte>>): seq<Byte> {
    if rs == [] then [] else rs[0] + Joined(rs[1..])
  }

  /** The records and what is left are all of the bytes, and less than a record is left. */
  lemma {:induction false} NothingIsLost(s: seq<Byte>, size: nat)
    requires size > 0
    ensures Joined(Records(s, size)) + Tail(s, size) == s && |Tail(s, size)| < size
    ensures forall i :: 0 <= i < |Records(s, size)| ==> |Records(s, size)[i]| == size
  {
    if |s| >= size {
      NothingIsLost(s[size..], size);
      assert s == s[..size] + s[size..];
      assert Records(s, size)[1..] == Records(s[size..], size);
    }
  }

  /** More bytes complete the record at the end, or do not. */
  lemma {:induction false} MoreBytes(s: seq<Byte>, more: seq<Byte>, size: nat)
    requires size > 0 && |Tail(s, size)| + |more| <= size
    ensures if |Tail(s, size)| + |more| == size
            then Records(s + more, size) == Records(s, size) + [Tail(s, size) + more] && Tail(s + more, size) == []
            else Records(s + more, size) == Records(s, size) && Tail(s + more, size) == Tail(s, size) + more
  {
    if |s| < size {
      if |s| + |more| == size {
        assert (s + more)[..size] == s + more && (s + more)[size..] == [];
        assert Records(s + more, size) == [s + more] + [];
      }
    } else {
      MoreBytes(s[size..], more, size);
      assert (s + more)[..size] == s[..size] && (s + more)[size..] == s[size..] + more;
      var head := [s[..size]];
      assert head + (Records(s[size..], size) + [Tail(s, size) + more]) ==
             head + Records(s[size..], size) + [Tail(s, size) + more];
    }
  }

  ghost predicate AllOfSize(rs: seq<seq<Byte>>, size: nat) {
    forall i :: 0 <= i < |rs| ==> |rs[i]| == size
  }

  /** Of what was sent, any prefix holds the first records. */
  lemma {:induction false} PrefixOfRecords(rs: seq<seq<Byte>>, s: seq<Byte>, size: nat)
    requires size > 0 && AllOfSize(rs, size) && s <= Joined(rs)
    ensures Records(s, size) <= rs
    ensures s == Joined(rs) ==> Records(s, size) == rs && Tail(s, size) == []
    decreases |rs|
  {
    if rs != [] {
      var all := rs[0] + Joined(rs[1..]);
      if |s| >= size {
        assert s[..size] == all[..size] == rs[0];
        assert all[size..] == Joined(rs[1..]);
        assert s[size..] == all[..|s|][size..] == all[size..][..|s| - size];
        PrefixOfRecords(rs[1..], s[size..], size);
      } else {
        assert |all| >= size;
      }
    }
  }

  lemma OneMore(s: seq<Byte>, k: nat)
    requires k < |s|
    ensures s[..k + 1] == s[..k] + [s[k]]
  {}

  lemma Regrouped(a: seq<Byte>, s: seq<Byte>, n: nat)
    requires n <= |s|
    ensures a + s == a + s[..n] + s[n..]
  {}

  lemma WholeBuffer(a: array<Byte>)
    ensures a[..] == a[..a.Length]
  {}

  // ---- the parent ----

  class Parent {
    const size: nat
    const buffer: array<Byte>
    /** child_info_nread */
    var nread: nat
    /** The bytes in the pipe, and how many reads there were. */
    var pipe: seq<Byte>
    var clock: nat
    const willing: nat -> nat
    /** The records given to updateChildInfo. */
    var delivered: seq<seq<Byte>>
    /** All bytes ever sent, and read. */
    ghost var sent: seq<Byte>
    ghost var received: seq<Byte>

    /** The bytes read are the records `rs` and the tail kept in the buffer. */
    ghost predicate Framed(rs: seq<seq<Byte>>)
      reads this, buffer
    {
      && size > 0 && buffer.Length == size && nread <= size
      && sent == received + pipe
      && rs == Records(received, size)
      && Tail(received, size) == if nread == size then [] else buffer[..nread]
    }

    ghost predicate Valid()
      reads this, buffer
    {
      Framed(delivered)
    }

    /** openChildInfoPipe */
    constructor (size: nat, willing: nat -> nat)
      requires size > 0
      ensures Valid() && sent == [] && delivered == [] && nread == 0 && this.size == size && fresh(buffer)
    {
      this.size, this.willing, nread, pipe, clock, delivered, sent, received := size, willing, 0, [], 0, [], [], [];
      buffer := new Byte[size];
    }

    /** The child writes a record. */
    method Send(record: seq<Byte>)
      requires Valid() && |record| == size
      modifies this`pipe, this`sent
      ensures Valid() && sent == old(sent) + record
    {
      hide Records, Tail;
      assert received + (pipe + record) == sent + record;
      pipe := pipe + record;
      sent := sent + record;
    }

    /** read: at most `want` bytes, into the buffer at `at`; possibly none, also when there are some. */
    method ReadInto(at: nat, want: nat) returns (n: nat)
      requires at + want <= buffer.Length
      modifies this`pipe, this`clock, buffer
      ensures n <= want && n <= |old(pipe)| && pipe == old(pipe)[n..]
      ensures buffer[..at + n] == old(buffer[..at]) + old(pipe)[..n]
    {
      n := willing(clock);
      if n > want {
        n := want;
      }
      if n > |pipe| {
        n := |pipe|;
      }
      for k := 0 to n
        modifies buffer
        invariant buffer[..at + k] == old(buffer[..at]) + pipe[..k]
      {
        buffer[at + k] := pipe[k];
        OneMore(pipe, k);
        assert buffer[..at + k + 1] == buffer[..at + k] + [pipe[k]];
      }
      pipe, clock := pipe[n..], clock + 1;
    }

    /** readChildInfo: one read; whether it completed a record. */
    method ReadChildInfo() returns (complete: bool, record: seq<Byte>)
      requires Valid()
      modifies this`nread, this`pipe, this`clock, this`received, buffer
      ensures Framed(if complete then delivered + [record] else delivered)
      ensures complete ==> |pipe| < |old(pipe)|
    {
      hide Records, Tail;
      if nread == size {
        nread := 0;
      }
      ghost var kept, before := buffer[..nread], pipe;
      var n := ReadInto(nread, size - nread);
      ghost var more := before[..n];
      Regrouped(received, before, n);
      MoreBytes(received, more, size);
      received := received + more;
      nread := nread + n;
      if nread == size {
        WholeBuffer(buffer);
        complete, record := true, buffer[..];
      } else {
        complete, record := false, [];
      }
    }

    /** receiveChildInfo: until a read does not complete a record. */
    method ReceiveChildInfo()
      requires Valid()
      modifies this`nread, this`pipe, this`clock, this`received, this`delivered, buffer
      ensures Valid() && sent == old(sent) && old(delivered) <= delivered
    {
      hide Records, Tail;
      var complete, record := ReadChildInfo();
      while complete
        invariant Framed(if complete then delivered + [record] else delivered)
        invariant sent == old(sent) && old(delivered) <= delivered
        decreases complete, |pipe|
      {
        delivered := delivered + [record];
        complete, record := ReadChildInfo();
      }
    }

    /** Whatever the reads were, what was delivered are the first of the records sent, in order, each once. */
    lemma DeliveredIsPrefixOfSent(rs: seq<seq<Byte>>)
      requires Valid() && AllOfSize(rs, size) && sent == Joined(rs)
      ensures delivered <= rs
      ensures pipe == [] ==> delivered == rs
      ensures |Joined(delivered)| <= |received| < |Joined(delivered)| + size
    {
      assert received <= sent;
      PrefixOfRecords(rs, received, size);
      NothingIsLost(received, size);
    }
  }
}
