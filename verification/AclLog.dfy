/** The ACL security log: bounded, grouping recent repeats, newest first. */
module AclLog {
  import opened AclText

  /** Milliseconds within which similar denials are grouped, and how many entries are looked at. */
  const GROUPING_MAX_TIME_DELTA: int := 60000
  const TO_SCAN: nat := 10

  datatype Entry = Entry(
    count: nat, reason: nat, context: nat, objectName: string, username: string,
    ctime: int, entryId: nat, created: int)

  datatype Denial = Denial(reason: nat, context: nat, objectName: string, username: string, now: int)

  datatype Log = Log(entries: seq<Entry>, entryCount: nat)

  const EmptyLog := Log([], 0)

  /** ACLLogMatchEntry */
  predicate Matches(e: Entry, d: Denial) {
    && e.reason == d.reason && e.context == d.context
    && -GROUPING_MAX_TIME_DELTA <= e.ctime - d.now <= GROUPING_MAX_TIME_DELTA
    && e.objectName == d.objectName && e.username == d.username
  }

  /** The entry a denial is grouped with: the first match among the newest ten; |entries| if none. */
  function GroupIndex(entries: seq<Entry>, d: Denial): (k: nat)
    ensures k <= |entries|
    ensures k < |entries| ==> k < TO_SCAN && Matches(entries[k], d)
    ensures forall i :: 0 <= i < k && i < TO_SCAN ==> !Matches(entries[i], d)
  {
    GroupIndexFrom(entries, d, 0)
  }

  function GroupIndexFrom(entries: seq<Entry>, d: Denial, from: nat): (k: nat)
    requires from <= |entries| && forall i :: 0 <= i < from ==> !Matches(entries[i], d)
    ensures k <= |entries|
    ensures k < |entries| ==> k < TO_SCAN && Matches(entries[k], d)
    ensures forall i :: 0 <= i < k && i < TO_SCAN ==> !Matches(entries[i], d)
    decreases |entries| - from
  {
    if from == |entries| || from >= TO_SCAN then |entries|
    else if Matches(entries[from], d) then from
    else GroupIndexFrom(entries, d, from + 1)
  }

  function NewEntry(l: Log, d: Denial): Entry {
    Entry(1, d.reason, d.context, d.objectName, d.username, d.now, l.entryCount, d.now)
  }

  function Trim(entries: seq<Entry>, maxLen: nat): seq<Entry> {
    if |entries| > maxLen then entries[..maxLen] else entries
  }

  /** addACLLogEntry */
  function Record(l: Log, d: Denial, maxLen: nat): Log {
    if maxLen == 0 then l.(entries := [])
    else
      var k := GroupIndex(l.entries, d);
      if k < |l.entries| then
        var e := l.entries[k];
        l.(entries := [e.(ctime := d.now, count := e.count + 1)] + l.entries[..k] + l.entries[k + 1..])
      else Log(Trim([NewEntry(l, d)] + l.entries, maxLen), l.entryCount + 1)
  }

  function Counts(entries: seq<Entry>): nat {
    if entries == [] then 0 else entries[0].count + Counts(entries[1..])
  }

  lemma {:induction false} CountsConcat(a: seq<Entry>, b: seq<Entry>)
    ensures Counts(a + b) == Counts(a) + Counts(b)
  {
    if a == [] {
      assert a + b == b;
    } else {
      CountsConcat(a[1..], b);
      assert (a + b)[1..] == a[1..] + b;
    }
  }

  /** What a recorded denial trims away, in counts. */
  function Trimmed(l: Log, d: Denial, maxLen: nat): nat {
    if GroupIndex(l.entries, d) == |l.entries| && |l.entries| >= maxLen > 0 then Counts(l.entries[maxLen - 1..]) else 0
  }

  predicate ValidLog(l: Log, maxLen: nat, clock: int) {
    && |l.entries| <= maxLen
    && (forall i, j :: 0 <= i < j < |l.entries| ==>
          l.entries[i].ctime >= l.entries[j].ctime && l.entries[i].entryId != l.entries[j].entryId)
    && (forall i :: 0 <= i < |l.entries| ==>
          l.entries[i].entryId < l.entryCount && l.entries[i].created <= l.entries[i].ctime <= clock
          && l.entries[i].count >= 1)
  }

  lemma MovedToHead(es: seq<Entry>, k: nat, e: Entry)
    requires k < |es|
    ensures Counts([e] + es[..k] + es[k + 1..]) == Counts(es) + e.count - es[k].count
    ensures var r := [e] + es[..k] + es[k + 1..];
            |r| == |es| && forall i :: 0 <= i < |r| ==> r[i] == if i == 0 then e else if i <= k then es[i - 1] else es[i]
  {
    assert es == es[..k] + ([es[k]] + es[k + 1..]);
    CountsConcat(es[..k], [es[k]] + es[k + 1..]);
    CountsConcat(es[..k], es[k + 1..]);
    assert [e] + es[..k] + es[k + 1..] == [e] + (es[..k] + es[k + 1..]);
  }

  lemma GroupingKeepsValid(l: Log, k: nat, maxLen: nat, clock: int, now: int)
    requires ValidLog(l, maxLen, clock) && clock <= now && k < |l.entries|
    ensures var e := l.entries[k].(ctime := now, count := l.entries[k].count + 1);
            ValidLog(l.(entries := [e] + l.entries[..k] + l.entries[k + 1..]), maxLen, now)
  {
    hide Counts;
    var e := l.entries[k].(ctime := now, count := l.entries[k].count + 1);
    MovedToHead(l.entries, k, e);
    assert forall i :: 0 < i < |l.entries| ==> CameFrom(i, k) == if i <= k then i - 1 else i;
    MovedIsValid(l, k, maxLen, clock, now, e, [e] + l.entries[..k] + l.entries[k + 1..]);
  }

  /** Where the entry at `i` was before the one at `k` moved to the front. */
  function CameFrom(i: nat, k: nat): nat {
    if i == 0 then k else if i <= k then i - 1 else i
  }

  lemma MovedIsValid(l: Log, k: nat, maxLen: nat, clock: int, now: int, e: Entry, r: seq<Entry>)
    requires ValidLog(l, maxLen, clock) && clock <= now && k < |l.entries|
    requires e == l.entries[k].(ctime := now, count := l.entries[k].count + 1) && |r| == |l.entries|
    requires forall i :: 0 <= i < |r| ==> r[i] == if i == 0 then e else l.entries[CameFrom(i, k)]
    ensures ValidLog(l.(entries := r), maxLen, now)
  {
    hide ValidLog;
    forall i, j | 0 <= i < j < |r| ensures r[i].ctime >= r[j].ctime && r[i].entryId != r[j].entryId {
      assert r[j] == l.entries[CameFrom(j, k)];
      EntriesApart(l, maxLen, clock, CameFrom(i, k), CameFrom(j, k));
    }
    forall i | 0 <= i < |r|
      ensures r[i].entryId < l.entryCount && r[i].created <= r[i].ctime <= now && r[i].count >= 1 {
      EntryOk(l, maxLen, clock, CameFrom(i, k));
    }
    FitsMaxLen(l, maxLen, clock);
    ValidFrom(l.(entries := r), maxLen, now);
  }

  lemma EntryOk(l: Log, maxLen: nat, clock: int, i: nat)
    requires ValidLog(l, maxLen, clock) && i < |l.entries|
    ensures var e := l.entries[i]; e.entryId < l.entryCount && e.created <= e.ctime <= clock && e.count >= 1
  {}

  lemma EntriesApart(l: Log, maxLen: nat, clock: int, i: nat, j: nat)
    requires ValidLog(l, maxLen, clock) && i < |l.entries| && j < |l.entries| && i != j
    ensures l.entries[i].entryId != l.entries[j].entryId && l.entries[j].ctime <= clock
    ensures i < j ==> l.entries[i].ctime >= l.entries[j].ctime
  {}

  lemma ValidFrom(l: Log, maxLen: nat, clock: int)
    requires |l.entries| <= maxLen
    requires forall i, j :: 0 <= i < j < |l.entries| ==>
               l.entries[i].ctime >= l.entries[j].ctime && l.entries[i].entryId != l.entries[j].entryId
    requires forall i :: 0 <= i < |l.entries| ==>
               l.entries[i].entryId < l.entryCount && l.entries[i].created <= l.entries[i].ctime <= clock
               && l.entries[i].count >= 1
    ensures ValidLog(l, maxLen, clock)
  {}

  lemma NewEntryKeepsValid(l: Log, d: Denial, maxLen: nat, clock: int)
    requires maxLen > 0 && ValidLog(l, maxLen, clock) && clock <= d.now
    ensures ValidLog(Log(Trim([NewEntry(l, d)] + l.entries, maxLen), l.entryCount + 1), maxLen, d.now)
  {}

  lemma TrimAccounts(e: Entry, es: seq<Entry>, maxLen: nat)
    requires 0 < maxLen && |es| <= maxLen
    ensures Counts(Trim([e] + es, maxLen)) + (if |es| >= maxLen then Counts(es[maxLen - 1..]) else 0) == e.count + Counts(es)
  {
    var all := [e] + es;
    assert all[1..] == es;
    if |all| > maxLen {
      CountsConcat(all[..maxLen], all[maxLen..]);
      assert all == all[..maxLen] + all[maxLen..];
      assert all[maxLen..] == es[maxLen - 1..];
    }
  }

  lemma FitsMaxLen(l: Log, maxLen: nat, clock: int)
    requires ValidLog(l, maxLen, clock)
    ensures |l.entries| <= maxLen
  {}

  /** A denial recorded at a later time keeps the log valid; its count is accounted for. */
  lemma RecordKeepsValid(l: Log, d: Denial, maxLen: nat, clock: int)
    requires maxLen > 0 && ValidLog(l, maxLen, clock) && clock <= d.now
    ensures ValidLog(Record(l, d, maxLen), maxLen, d.now)
    ensures Counts(Record(l, d, maxLen).entries) + Trimmed(l, d, maxLen) == Counts(l.entries) + 1
  {
    hide ValidLog, Counts, GroupIndexFrom, Matches, Trim;
    var k, es := GroupIndex(l.entries, d), l.entries;
    assert |es| <= maxLen by { FitsMaxLen(l, maxLen, clock); }
    if k < |es| {
      GroupingKeepsValid(l, k, maxLen, clock, d.now);
      MovedToHead(es, k, es[k].(ctime := d.now, count := es[k].count + 1));
    } else {
      NewEntryKeepsValid(l, d, maxLen, clock);
      TrimAccounts(NewEntry(l, d), es, maxLen);
    }
  }

  // ---- what one denial does to the log ----

  /** The entry tells of denials like this one, the latest of them at most a minute away. */
  ghost predicate TellsOf(e: Entry, d: Denial) {
    && (e.reason, e.context, e.objectName, e.username) == (d.reason, d.context, d.objectName, d.username)
    && d.now - 60000 <= e.ctime <= d.now + 60000
  }

  /** The newest of the first ten entries that tell of the denial. */
  ghost predicate TellsFirst(entries: seq<Entry>, d: Denial, k: nat) {
    k < |entries| && k < 10 && TellsOf(entries[k], d) && forall i :: 0 <= i < k ==> !TellsOf(entries[i], d)
  }

  /** The entry counts one denial more, and its time is that of the denial; when it was created and its id stay. */
  ghost predicate CountsAlso(e: Entry, d: Denial, e': Entry) {
    && e'.count == e.count + 1 && e'.ctime == d.now && e'.entryId == e.entryId && e'.created == e.created
    && (e'.reason, e'.context, e'.objectName, e'.username) == (e.reason, e.context, e.objectName, e.username)
  }

  /** A new entry for this denial alone. */
  ghost predicate StartsWith(e: Entry, d: Denial, id: nat) {
    && e.count == 1 && e.ctime == e.created == d.now && e.entryId == id
    && (e.reason, e.context, e.objectName, e.username) == (d.reason, d.context, d.objectName, d.username)
  }

  /** The entry at `k` moved to the front and counts the denial; the others stay in order. */
  ghost predicate GroupedAt(l: Log, d: Denial, k: nat, r: Log)
    requires k < |l.entries|
  {
    && r.entries != [] && CountsAlso(l.entries[k], d, r.entries[0]) && r.entryCount == l.entryCount
    && r.entries[1..] == l.entries[..k] + l.entries[k + 1..]
  }

  /** A new entry is in front, with the next id; the oldest one is gone if there were as many as there may be. */
  ghost predicate AddedInFront(l: Log, d: Denial, maxLen: nat, r: Log)
    requires maxLen > 0
  {
    && r.entries != [] && StartsWith(r.entries[0], d, l.entryCount) && r.entryCount == l.entryCount + 1
    && r.entries[1..] == if |l.entries| < maxLen then l.entries else l.entries[..maxLen - 1]
  }

  /**
   A denial is always told by the newest entry. If one of the ten newest told of it before, that entry moves to the
   front and counts it; otherwise a new entry comes in front, and the oldest goes when there are too many.
   */
  lemma RecordMeans(l: Log, d: Denial, maxLen: nat)
    requires maxLen > 0 && |l.entries| <= maxLen
    ensures var r := Record(l, d, maxLen); r.entries != [] && TellsOf(r.entries[0], d) && r.entries[0].ctime == d.now
    ensures forall k: nat :: TellsFirst(l.entries, d, k) ==> GroupedAt(l, d, k, Record(l, d, maxLen))
    ensures (forall k: nat :: !TellsFirst(l.entries, d, k)) ==> AddedInFront(l, d, maxLen, Record(l, d, maxLen))
  {
    hide Record, GroupIndex, TellsOf, GroupedAt, AddedInFront;
    GroupIsFirst(l.entries, d);
    if GroupIndex(l.entries, d) < |l.entries| {
      assert TellsFirst(l.entries, d, GroupIndex(l.entries, d));
      RecordGrouped(l, d, maxLen);
    } else {
      RecordNew(l, d, maxLen);
    }
  }

  lemma RecordGrouped(l: Log, d: Denial, maxLen: nat)
    requires maxLen > 0 && GroupIndex(l.entries, d) < |l.entries|
    ensures var r := Record(l, d, maxLen); r.entries != [] && TellsOf(r.entries[0], d) && r.entries[0].ctime == d.now
    ensures GroupedAt(l, d, GroupIndex(l.entries, d), Record(l, d, maxLen))
  {
    hide GroupIndex;
    GroupIsFirst(l.entries, d);
    var k := GroupIndex(l.entries, d);
    MovedInFront(l.entries[k].(ctime := d.now, count := l.entries[k].count + 1), l.entries, k);
  }

  lemma RecordNew(l: Log, d: Denial, maxLen: nat)
    requires maxLen > 0 && |l.entries| <= maxLen && GroupIndex(l.entries, d) == |l.entries|
    ensures var r := Record(l, d, maxLen); r.entries != [] && TellsOf(r.entries[0], d) && r.entries[0].ctime == d.now
    ensures AddedInFront(l, d, maxLen, Record(l, d, maxLen))
  {
    hide GroupIndex, Trim;
    NewInFront(NewEntry(l, d), l.entries, maxLen);
  }

  lemma GroupIsFirst(entries: seq<Entry>, d: Denial)
    ensures var g := GroupIndex(entries, d);
            && g <= |entries| && (g < |entries| ==> TellsOf(entries[g], d))
            && forall k: nat :: TellsFirst(entries, d, k) <==> k == g < |entries|
  {
    hide GroupIndex;
    assert forall i :: 0 <= i < |entries| ==> (Matches(entries[i], d) <==> TellsOf(entries[i], d));
  }

  lemma MovedInFront(e: Entry, es: seq<Entry>, k: nat)
    requires k < |es|
    ensures var r := [e] + es[..k] + es[k + 1..]; r[0] == e && r[1..] == es[..k] + es[k + 1..]
  {}

  lemma NewInFront(e: Entry, es: seq<Entry>, maxLen: nat)
    requires 0 < maxLen && |es| <= maxLen
    ensures Trim([e] + es, maxLen) != [] && Trim([e] + es, maxLen)[0] == e
    ensures Trim([e] + es, maxLen)[1..] == if |es| < maxLen then es else es[..maxLen - 1]
  {}

  /** Without a log nothing is kept. */
  lemma NoLogKeepsNothing(l: Log, d: Denial)
    ensures Record(l, d, 0) == Log([], l.entryCount)
  {}

  // ---- whole runs ----

  datatype Event = Deny(denial: Denial) | Reset

  /** The log after a run of denials and resets, with how many denials it saw and what it dropped on the way. */
  datatype Account = Account(log: Log, denials: nat, dropped: nat)

  function Step(a: Account, e: Event, maxLen: nat): Account {
    match e
    case Deny(d) => Account(Record(a.log, d, maxLen), a.denials + 1, a.dropped + Trimmed(a.log, d, maxLen))
    case Reset => Account(a.log.(entries := []), a.denials, a.dropped + Counts(a.log.entries))
  }

  function After(events: seq<Event>, maxLen: nat): Account {
    if events == [] then Account(EmptyLog, 0, 0)
    else Step(After(events[..|events| - 1], maxLen), events[|events| - 1], maxLen)
  }

  predicate ClockNeverGoesBack(events: seq<Event>) {
    forall i, j :: 0 <= i < j < |events| && events[i].Deny? && events[j].Deny? ==> events[i].denial.now <= events[j].denial.now
  }

  predicate UpTo(events: seq<Event>, clock: int) {
    forall i :: 0 <= i < |events| && events[i].Deny? ==> events[i].denial.now <= clock
  }

  /** After any run: bounded, newest first, distinct ids, and every denial is counted once or was dropped. */
  lemma {:induction false} EveryRunIsAccounted(events: seq<Event>, maxLen: nat, clock: int)
    requires maxLen > 0 && ClockNeverGoesBack(events) && UpTo(events, clock)
    ensures var a := After(events, maxLen);
            ValidLog(a.log, maxLen, clock) && Counts(a.log.entries) + a.dropped == a.denials
  {
    if events != [] {
      var n := |events| - 1;
      var before, last := events[..n], events[n];
      if last.Deny? {
        EveryRunIsAccounted(before, maxLen, last.denial.now);
        RecordKeepsValid(After(before, maxLen).log, last.denial, maxLen, last.denial.now);
      } else {
        EveryRunIsAccounted(before, maxLen, clock);
      }
    }
  }

  // ---- the log as it is kept ----

  class LogObject {
    var entries: seq<Entry>
    var entryCount: nat

    function View(): Log
      reads this
    {
      Log(entries, entryCount)
    }

    constructor ()
      ensures View() == EmptyLog
    {
      entries, entryCount := [], 0;
    }

    /** trimACLLogEntriesToMaxLen */
    method TrimToMaxLen(maxLen: nat)
      modifies this`entries
      ensures entries == Trim(old(entries), maxLen)
    {
      while |entries| > maxLen
        invariant entries == old(entries) || (|entries| >= maxLen && entries == old(entries)[..|entries|])
        invariant |entries| <= |old(entries)|
      {
        entries := entries[..|entries| - 1];
      }
    }

    /** addACLLogEntry */
    method Add(d: Denial, maxLen: nat)
      modifies this
      ensures View() == Record(old(View()), d, maxLen)
    {
      if maxLen == 0 {
        TrimToMaxLen(maxLen);
        return;
      }
      var toscan, k := TO_SCAN, 0;
      while toscan > 0 && k < |entries| && !Matches(entries[k], d)
        invariant k + toscan == TO_SCAN && k <= |entries|
        invariant forall i :: 0 <= i < k ==> !Matches(entries[i], d)
      {
        toscan, k := toscan - 1, k + 1;
      }
      if toscan > 0 && k < |entries| {
        assert GroupIndex(entries, d) == k;
        var e := entries[k];
        entries := [e.(ctime := d.now, count := e.count + 1)] + entries[..k] + entries[k + 1..];
      } else {
        entries := [NewEntry(View(), d)] + entries;
        entryCount := entryCount + 1;
        TrimToMaxLen(maxLen);
      }
    }

    /** ACL LOG RESET */
    method Reset()
      modifies this`entries
      ensures View() == old(View()).(entries := [])
    {
      entries := [];
    }
  }
}
