/**
Retention of the in-memory cluster log (internal/logging/clusterlog and
internal/logging/logtypes): recording, expiry by level, and clean-up in place.
 */
module ClusterLog {
  import opened Base
  import opened Keys

  // Levels are integers; only these four have a retention time of their own.
  const DEBUG := 0
  const INFO := 1
  const WARN := 2
  const ERROR := 3

  /** Times are in nanoseconds. */
  const HOUR := 3_600_000_000_000

  datatype Entry = Entry(timestamp: int, node: NodeID, level: int, message: string, fields: map<string, string>)

  function Retention(level: int): int {
    if level == DEBUG then 24 * HOUR
    else if level == ERROR then 5 * 24 * HOUR
    else 3 * 24 * HOUR
  }

  predicate Expired(e: Entry, now: int) {
    now > e.timestamp + Retention(e.level)
  }

  /** The age of the entry is at most one day for level 0 (debug), five for 3 (error), three for all others. */
  predicate Young(e: Entry, now: int) {
    now - e.timestamp <=
      if e.level == 0 then 86_400_000_000_000 else if e.level == 3 then 432_000_000_000_000 else 259_200_000_000_000
  }

  lemma ExpiredIff(e: Entry, now: int)
    ensures Expired(e, now) <==> !Young(e, now)
  {
  }

  /** The young entries, in order. */
  function YoungOnes(entries: seq<Entry>, now: int): seq<Entry> {
    if entries == [] then []
    else
      var (init, last) := (entries[..|entries| - 1], entries[|entries| - 1]);
      YoungOnes(init, now) + if Young(last, now) then [last] else []
  }

  lemma {:induction false} UnexpiredAreYoung(entries: seq<Entry>, now: int)
    ensures Unexpired(entries, now) == YoungOnes(entries, now)
  {
    if entries != [] {
      UnexpiredAreYoung(entries[..|entries| - 1], now);
      ExpiredIff(entries[|entries| - 1], now);
    }
  }

  /** The entries that have not expired, in order. */
  function Unexpired(entries: seq<Entry>, now: int): seq<Entry> {
    if entries == [] then []
    else
      var (init, last) := (entries[..|entries| - 1], entries[|entries| - 1]);
      Unexpired(init, now) + if Expired(last, now) then [] else [last]
  }

  /** The stored entries are a prefix of a backing array. */
  class Log {
    var store: array<Entry>
    var count: nat

    ghost predicate Valid()
      reads this
    {
      count <= store.Length
    }

    ghost function Entries(): seq<Entry>
      requires Valid()
      reads this, store
    {
      store[..count]
    }

    constructor ()
      ensures Valid() && fresh(store) && Entries() == []
    {
      store := new Entry[0];
      count := 0;
    }

    /** Appends, into a larger array if the present one is full. */
    method Record(e: Entry)
      requires Valid()
      modifies this, store
      ensures Valid() && (store == old(store) || fresh(store))
      ensures Entries() == old(Entries()) + [e]
    {
      if count == store.Length {
        var larger := new Entry[2 * count + 1](_ => e);
        for i := 0 to count
          invariant count == old(count) && store == old(store) && store[..count] == old(store[..count])
          invariant fresh(larger) && larger.Length == 2 * count + 1 && larger[..i] == store[..i]
        {
          larger[i] := store[i];
        }
        assert larger[..count] == store[..count];
        store := larger;
      }
      store[count] := e;
      count := count + 1;
    }

    /** Moves the entries that are kept to the front of the same array. */
    method Cleanup(now: int)
      requires Valid()
      modifies this, store
      ensures Valid() && store == old(store)
      ensures Entries() == YoungOnes(old(Entries()), now)
    {
      ghost var entries := Entries();
      var kept := 0;
      for i := 0 to count
        invariant count == old(count) && store == old(store) && kept <= i
        invariant store[..kept] == Unexpired(entries[..i], now)
        invariant store[i..count] == entries[i..]
      {
        assert entries[..i + 1][..i] == entries[..i];
        assert store[i] == store[i..count][0] == entries[i];
        assert store[i + 1..count] == store[i..count][1..] == entries[i + 1..];
        if !Expired(store[i], now) {
          store[kept] := store[i];
          kept := kept + 1;
        }
      }
      assert entries[..count] == entries;
      UnexpiredAreYoung(entries, now);
      count := kept;
    }
  }

  // ----- Runs -----

  datatype Op = Records(entry: Entry) | Cleans(now: int)

  function Stored(ops: seq<Op>): seq<Entry> {
    if ops == [] then []
    else
      match ops[|ops| - 1]
      case Records(e) => Stored(ops[..|ops| - 1]) + [e]
      case Cleans(now) => Unexpired(Stored(ops[..|ops| - 1]), now)
  }

  /** The later of two clean-ups, if any. */
  function Later(t: int, latest: Option<int>): int {
    if latest.Some? && latest.value > t then latest.value else t
  }

  /**
  Reading a run backwards, with the latest time of the clean-ups passed so far: an entry
  is retained if it is still young at the latest clean-up that follows its recording.
   */
  function Retained(ops: seq<Op>, latest: Option<int>): seq<Entry> {
    if ops == [] then []
    else
      var (init, last) := (ops[..|ops| - 1], ops[|ops| - 1]);
      match last
      case Cleans(now) => Retained(init, Some(Later(now, latest)))
      case Records(e) => Retained(init, latest) + if latest.Some? && !Young(e, latest.value) then [] else [e]
  }

  /** The same with the last clean-up instead of the latest. */
  function RetainedByLast(ops: seq<Op>, last: Option<int>): seq<Entry> {
    if ops == [] then []
    else
      var (init, op) := (ops[..|ops| - 1], ops[|ops| - 1]);
      match op
      case Cleans(now) => RetainedByLast(init, if last.None? then Some(now) else last)
      case Records(e) => RetainedByLast(init, last) + if last.Some? && !Young(e, last.value) then [] else [e]
  }

  lemma {:induction false} UnexpiredTwice(entries: seq<Entry>, t: int, u: int)
    ensures Unexpired(Unexpired(entries, t), u) == Unexpired(entries, Later(t, Some(u)))
  {
    if entries != [] {
      var init, last := entries[..|entries| - 1], entries[|entries| - 1];
      UnexpiredTwice(init, t, u);
      var kept := Unexpired(init, t);
      assert kept + [] == kept;
      assert (kept + [last])[..|kept|] == kept;
    }
  }

  /** Cleaning at two times is cleaning at the later one. */
  lemma CleaningTwice(entries: seq<Entry>, t: int, u: int)
    ensures YoungOnes(YoungOnes(entries, t), u) == YoungOnes(entries, if u > t then u else t)
  {
    UnexpiredAreYoung(entries, t);
    UnexpiredAreYoung(Unexpired(entries, t), u);
    UnexpiredTwice(entries, t, u);
    UnexpiredAreYoung(entries, Later(t, Some(u)));
  }

  /** A clean-up of any stored entries leaves exactly the young ones, in order. */
  lemma StoredAfterCleanup(ops: seq<Op>, now: int)
    ensures Stored(ops + [Cleans(now)]) == YoungOnes(Stored(ops), now)
  {
    assert (ops + [Cleans(now)])[..|ops|] == ops;
    UnexpiredAreYoung(Stored(ops), now);
  }

  function UnexpiredAt(entries: seq<Entry>, latest: Option<int>): seq<Entry> {
    match latest
    case None => entries
    case Some(t) => Unexpired(entries, t)
  }

  lemma {:induction false} StoredUntil(ops: seq<Op>, latest: Option<int>)
    ensures UnexpiredAt(Stored(ops), latest) == Retained(ops, latest)
  {
    if ops != [] {
      var init := ops[..|ops| - 1];
      match ops[|ops| - 1]
      case Cleans(now) =>
        StoredUntil(init, Some(Later(now, latest)));
        if latest.Some? {
          UnexpiredTwice(Stored(init), now, latest.value);
        }
      case Records(e) =>
        StoredUntil(init, latest);
        if latest.Some? {
          ExpiredIff(e, latest.value);
        }
        assert (Stored(init) + [e])[..|Stored(init)|] == Stored(init);
    }
  }

  /**
  Whatever the clock does, the stored entries are, in the order of recording, exactly those
  that were young at the latest clean-up after their recording.
   */
  lemma RetentionIsExact(ops: seq<Op>)
    ensures Stored(ops) == Retained(ops, None)
  {
    StoredUntil(ops, None);
  }

  /** The clock does not run backwards between clean-ups. */
  ghost predicate ClockAdvances(ops: seq<Op>) {
    forall i, j :: 0 <= i < j < |ops| && ops[i].Cleans? && ops[j].Cleans? ==> ops[i].now <= ops[j].now
  }

  lemma {:induction false} LastIsLatest(ops: seq<Op>, last: Option<int>)
    requires ClockAdvances(ops)
    requires last.Some? ==> forall i :: 0 <= i < |ops| && ops[i].Cleans? ==> ops[i].now <= last.value
    ensures RetainedByLast(ops, last) == Retained(ops, last)
  {
    if ops != [] {
      var init, op := ops[..|ops| - 1], ops[|ops| - 1];
      match op
      case Cleans(now) => LastIsLatest(init, Some(Later(now, last)));
      case Records(e) => LastIsLatest(init, last);
    }
  }

  /** With an advancing clock it is the last clean-up after the recording that decides. */
  lemma RetentionByLastCleanup(ops: seq<Op>)
    requires ClockAdvances(ops)
    ensures Stored(ops) == RetainedByLast(ops, None)
  {
    RetentionIsExact(ops);
    LastIsLatest(ops, None);
  }
}
