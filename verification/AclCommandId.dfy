/** Handing out command ids: one per name, for good, and never the reserved bit. */
module AclCommandId {
  import opened AclText
  import opened AclCommands

  predicate ValidIds(ids: map<string, nat>) {
    && (forall n :: n in ids ==> ids[n] != RESERVED_BIT)
    && (forall n, m :: n in ids && m in ids && n != m ==> ids[n] != ids[m])
  }

  /** Every number below `n` was given to some name, but for the reserved bit. */
  predicate AllGiven(given: set<nat>, n: nat) {
    forall i: nat :: i < n ==> i == RESERVED_BIT || i in given
  }

  /** The commandId tree and nextid. */
  class CommandIds {
    var ids: map<string, nat>
    var nextid: nat

    predicate Valid()
      reads this
    {
      && ValidIds(ids) && nextid != RESERVED_BIT && (forall n :: n in ids ==> ids[n] < nextid)
      && AllGiven(ids.Values, nextid)
    }

    constructor ()
      ensures Valid() && ids == map[]
    {
      ids, nextid := map[], 0;
    }

    /** ACLGetCommandID */
    method GetCommandID(name: string) returns (id: nat)
      requires Valid()
      modifies this
      ensures Valid() && id != RESERVED_BIT && Lower(name) in ids && ids[Lower(name)] == id
      ensures forall n :: n in old(ids) ==> n in ids && ids[n] == old(ids)[n]
      ensures ids.Keys == old(ids.Keys) + {Lower(name)}
      ensures Lower(name) !in old(ids) ==> id !in old(ids).Values && AllGiven(old(ids).Values, id)
    {
      var low := Lower(name);
      if low in ids {
        return ids[low];
      }
      ids := ids[low := nextid];
      id := nextid;
      GivenMore(old(ids), low, id);
      nextid := nextid + 1;
      if nextid == RESERVED_BIT {
        nextid := nextid + 1;
      }
    }

    /** ACLClearCommandID */
    method Clear()
      modifies this
      ensures Valid() && ids == map[]
    {
      ids, nextid := map[], 0;
    }
  }

  lemma GivenMore(ids: map<string, nat>, name: string, id: nat)
    requires name !in ids && AllGiven(ids.Values, id)
    ensures AllGiven(ids[name := id].Values, id + 1)
  {
    var more := ids[name := id];
    assert more[name] == id;
    forall i: nat | i < id && i != RESERVED_BIT ensures i in more.Values {
      assert i in ids.Values;
      var n :| n in ids && ids[n] == i;
      assert more[n] == i;
    }
  }

  /** Well-named commands. */
  ghost predicate WellNamed(t: Table) {
    && (forall n :: n in t.commands ==> ValidName(n) && t.commands[n].fullname == n)
    && (forall n, m :: n in t.commands && m in t.commands[n].subs ==>
          ValidName(m) && t.commands[n].subs[m].fullname == n + "|" + m)
    && (forall n :: n in t.categories ==> ValidName(n))
  }

  /** Every command has the id handed out for its full name. */
  ghost predicate NumberedBy(t: Table, ids: map<string, nat>) {
    && (forall n :: n in t.commands ==> n in ids && t.commands[n].id == ids[n])
    && (forall n, m :: n in t.commands && m in t.commands[n].subs ==>
          n + "|" + m in ids && t.commands[n].subs[m].id == ids[n + "|" + m])
  }

  /** A table numbered this way is what the ACL engine relies on. */
  lemma NumberedTableIsValid(t: Table, ids: map<string, nat>)
    requires WellNamed(t) && NumberedBy(t, ids) && ValidIds(ids)
    ensures ValidTable(t)
  {
    forall n, m, k | n in t.commands && m in t.commands && k in t.commands[m].subs
      ensures t.commands[n].id != t.commands[m].subs[k].id
    {
      assert (m + "|" + k)[|m|] == '|';
      assert n != m + "|" + k;
    }
  }
}
