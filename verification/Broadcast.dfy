/** Reliable broadcast with retries (internal/transport/carrier_broadcast.go). */
module Broadcast {
  import opened NodeRegistry

  /** One attempt to send to a peer, and whether it was acknowledged. */
  datatype Send = Send(peer: Node, acknowledged: bool)

  /**
  A peer's record: the attempts made, the acknowledgements received, and whether the last
  attempt was acknowledged.
   */
  datatype Record = Record(tries: nat, acks: nat, settled: bool)

  function RecordOf(log: seq<Send>, peer: Node): Record {
    if log == [] then Record(0, 0, false)
    else
      var (r, s) := (RecordOf(log[..|log| - 1], peer), log[|log| - 1]);
      if s.peer != peer then r else Record(r.tries + 1, if s.acknowledged then r.acks + 1 else r.acks, s.acknowledged)
  }

  /** The peers that acknowledged, in the order in which they did. */
  function Acknowledged(log: seq<Send>): seq<Node> {
    if log == [] then []
    else Acknowledged(log[..|log| - 1]) + if log[|log| - 1].acknowledged then [log[|log| - 1].peer] else []
  }

  ghost function Members(s: seq<Node>): set<Node> {
    set p | p in s
  }

  /** The peers of a snapshot that are not among the given ones, in its order. */
  ghost function Others(peers: seq<Node>, gone: set<Node>): seq<Node> {
    if peers == [] then []
    else Others(peers[..|peers| - 1], gone) + if peers[|peers| - 1] in gone then [] else [peers[|peers| - 1]]
  }

  /** The peer acknowledged once, and was not tried again. */
  predicate Delivered(log: seq<Send>, peer: Node, attempts: nat) {
    var r := RecordOf(log, peer);
    r.acks == 1 && r.settled && 1 <= r.tries <= attempts
  }

  predicate Undelivered(log: seq<Send>, peer: Node, attempts: nat) {
    RecordOf(log, peer) == Record(attempts, 0, false)
  }

  function Attempts(maxRetries: int): nat {
    if maxRetries < 0 then 0 else maxRetries + 1
  }

  /**
  What a broadcast reports of a snapshot of peers, given its attempts: the two lists share
  out the snapshot, a success was acknowledged once and not tried again, a failure was
  tried in every round and never acknowledged, and nobody else was tried.
   */
  ghost predicate Reports(peers: seq<Node>, attempts: nat, log: seq<Send>, success: seq<Node>, failed: seq<Node>) {
    && multiset(success) + multiset(failed) == multiset(peers)
    && success == Acknowledged(log) && failed == Others(peers, Members(success))
    && (forall p :: p in success ==> Delivered(log, p, attempts))
    && (forall p :: p in failed ==> Undelivered(log, p, attempts))
    && (forall p :: p !in peers ==> Undelivered(log, p, 0))
  }

  /** The outcome of each attempt is the given one. */
  ghost predicate Answered(log: seq<Send>, acks: set<nat>) {
    forall i: nat :: i < |log| ==> log[i].acknowledged == (i in acks)
  }

  datatype Progress = Progress(success: seq<Node>, failed: seq<Node>, log: seq<Send>)

  /** One attempt; which attempts are acknowledged is given by their position in the whole sequence of attempts. */
  function Attempt(acks: set<nat>, st: Progress, peer: Node): Progress {
    if |st.log| in acks then st.(success := st.success + [peer], log := st.log + [Send(peer, true)])
    else st.(failed := st.failed + [peer], log := st.log + [Send(peer, false)])
  }

  /** The first k attempts of a round. */
  function Round(acks: set<nat>, st: Progress, pending: seq<Node>, k: nat): Progress
    requires k <= |pending|
  {
    if k == 0 then st.(failed := []) else Attempt(acks, Round(acks, st, pending, k - 1), pending[k - 1])
  }

  /** k rounds, each over the peers that failed in the one before. */
  function Rounds(acks: set<nat>, peers: seq<Node>, k: nat): Progress {
    if k == 0 then Progress([], peers, [])
    else
      var st := Rounds(acks, peers, k - 1);
      Round(acks, st, st.failed, |st.failed|)
  }

  /** A broadcast to all known peers, in the order of a listing; without any it fails. */
  method BroadcastReliable(registry: Registry, maxRetries: int, acks: set<nat>)
    returns (success: seq<Node>, failed: seq<Node>, ok: bool, peers: seq<Node>, log: seq<Send>)
    requires Filed(registry.nodes)
    ensures Lists(peers, registry.nodes) && (ok <==> registry.nodes != map[])
    ensures Answered(log, acks) && Reports(peers, if maxRetries >= 0 then maxRetries + 1 else 0, log, success, failed)
  {
    peers := registry.GetAllNodes();
    ListingHasNoRepeats(peers, registry.nodes);
    if peers == [] {
      return [], [], false, peers, [];
    }
    success, failed, log := SendRounds(peers, maxRetries, acks);
    RoundsReport(acks, peers, Attempts(maxRetries));
    return success, failed, true, peers, log;
  }

  /** The retry loop; it ends early when nobody is pending, which makes no difference. */
  method SendRounds(peers: seq<Node>, maxRetries: int, acks: set<nat>)
    returns (success: seq<Node>, failed: seq<Node>, log: seq<Send>)
    ensures Progress(success, failed, log) == Rounds(acks, peers, Attempts(maxRetries))
  {
    success, log := [], [];
    var pending := peers;
    for attempt := 0 to Attempts(maxRetries)
      invariant Progress(success, pending, log) == Rounds(acks, peers, attempt)
    {
      ghost var before := Progress(success, pending, log);
      var stillFailed: seq<Node> := [];
      for i := 0 to |pending|
        invariant Progress(success, stillFailed, log) == Round(acks, before, pending, i)
      {
        var acknowledged := |log| in acks;
        log := log + [Send(pending[i], acknowledged)];
        if acknowledged {
          success := success + [pending[i]];
        } else {
          stillFailed := stillFailed + [pending[i]];
        }
      }
      pending := stillFailed;
      if pending == [] {
        NobodyPending(acks, peers, attempt + 1, Attempts(maxRetries));
        break;
      }
    }
    failed := pending;
  }

  // ----- What a record says -----

  /** The positions of the attempts made for a peer. */
  ghost function Positions(log: seq<Send>, p: Node): set<nat> {
    set i: nat | i < |log| && log[i].peer == p
  }

  /** A record counts the attempts for a peer and those acknowledged, and tells of the last one. */
  lemma {:induction false} RecordMeaning(log: seq<Send>, p: Node)
    ensures RecordOf(log, p).tries == |Positions(log, p)|
    ensures RecordOf(log, p).acks == |set i | i in Positions(log, p) && log[i].acknowledged|
    ensures RecordOf(log, p).settled <==>
      exists i :: i in Positions(log, p) && log[i].acknowledged && forall j :: j in Positions(log, p) ==> j <= i
  {
    if log != [] {
      var init, n := log[..|log| - 1], |log| - 1;
      RecordMeaning(init, p);
      RecordNext(log, p);
    }
  }

  lemma RecordNext(log: seq<Send>, p: Node)
    requires log != []
    ensures var init, n := log[..|log| - 1], |log| - 1;
            && Positions(log, p) == Positions(init, p) + (if log[n].peer == p then {n} else {})
            && (set i | i in Positions(log, p) && log[i].acknowledged) ==
               (set i | i in Positions(init, p) && init[i].acknowledged)
               + (if log[n].peer == p && log[n].acknowledged then {n} else {})
            && n !in Positions(init, p)
  {
  }

  // ----- Lemmas -----

  lemma ListingHasNoRepeats(peers: seq<Node>, nodes: Nodes)
    requires Lists(peers, nodes)
    ensures Distinct(peers) && (peers == [] <==> nodes == map[])
  {
    if peers != [] {
      assert peers[0].id in nodes;
    }
  }

  /** Rounds without pending peers do nothing. */
  lemma {:induction false} NobodyPending(acks: set<nat>, peers: seq<Node>, k: nat, l: nat)
    requires k <= l && Rounds(acks, peers, k).failed == []
    ensures Rounds(acks, peers, l) == Rounds(acks, peers, k)
  {
    if k < l {
      NobodyPending(acks, peers, k, l - 1);
    }
  }

  lemma {:induction false} OthersMembers(peers: seq<Node>, gone: set<Node>)
    requires Distinct(peers)
    ensures Distinct(Others(peers, gone)) && forall p :: p in Others(peers, gone) <==> p in peers && p !in gone
  {
    if peers != [] {
      var init, last := peers[..|peers| - 1], peers[|peers| - 1];
      OthersMembers(init, gone);
      assert peers == init + [last];
    }
  }

  /** A peer that is not there need not be left out. */
  lemma {:induction false} OthersAbsent(peers: seq<Node>, gone: set<Node>, x: Node)
    requires x !in peers
    ensures Others(peers, gone + {x}) == Others(peers, gone)
  {
    if peers != [] {
      OthersAbsent(peers[..|peers| - 1], gone, x);
    }
  }

  lemma {:induction false} OthersTwice(peers: seq<Node>, gone: set<Node>, more: set<Node>)
    requires gone <= more
    ensures Others(Others(peers, gone), more) == Others(peers, more)
  {
    if peers != [] {
      var init, last := peers[..|peers| - 1], peers[|peers| - 1];
      OthersTwice(init, gone, more);
      var others := Others(init, gone);
      assert others + [] == others;
      assert (others + [last])[..|others|] == others;
    }
  }

  lemma {:induction false} OthersOfNone(peers: seq<Node>)
    ensures Others(peers, {}) == peers
  {
    if peers != [] {
      OthersOfNone(peers[..|peers| - 1]);
    }
  }

  lemma OthersSnoc(tried: seq<Node>, gone: set<Node>, x: Node)
    ensures Others(tried + [x], gone) == Others(tried, gone) + if x in gone then [] else [x]
  {
    assert (tried + [x])[..|tried|] == tried;
  }

  lemma MembersSnoc(s: seq<Node>, x: Node)
    ensures Members(s + [x]) == Members(s) + {x}
  {
  }

  /** One attempt at a peer not tried before keeps the split of the tried ones. */
  lemma AttemptOrder(acks: set<nat>, st: Progress, tried: seq<Node>, x: Node)
    requires st.failed == Others(tried, Members(st.success)) && x !in tried && x !in st.success
    ensures var next := Attempt(acks, st, x);
            && next.failed == Others(tried + [x], Members(next.success))
            && Members(st.success) <= Members(next.success) <= Members(st.success) + {x}
  {
    if |st.log| in acks {
      MembersSnoc(st.success, x);
      OthersSnoc(tried, Members(st.success) + {x}, x);
      OthersAbsent(tried, Members(st.success), x);
      assert st.failed + [] == st.failed;
    } else {
      OthersSnoc(tried, Members(st.success), x);
    }
  }

  /** A round splits the peers it has tried by their acknowledgement, in order. */
  lemma {:induction false} RoundOrder(acks: set<nat>, st: Progress, pending: seq<Node>, k: nat)
    requires k <= |pending| && Distinct(pending) && Members(pending) !! Members(st.success)
    ensures var r := Round(acks, st, pending, k);
            && r.failed == Others(pending[..k], Members(r.success))
            && Members(st.success) <= Members(r.success) <= Members(st.success) + Members(pending[..k])
  {
    if k > 0 {
      var r, x, tried := Round(acks, st, pending, k - 1), pending[k - 1], pending[..k - 1];
      RoundOrder(acks, st, pending, k - 1);
      assert pending[..k] == tried + [x];
      assert x in Members(pending) && x !in tried;
      assert x !in Members(r.success);
      AttemptOrder(acks, r, tried, x);
    }
  }

  /** The failed peers are those that did not acknowledge, in the order of the snapshot. */
  lemma {:induction false} RoundsOrder(acks: set<nat>, peers: seq<Node>, k: nat)
    requires Distinct(peers)
    ensures var st := Rounds(acks, peers, k);
            st.failed == Others(peers, Members(st.success)) && Members(st.success) <= Members(peers)
  {
    if k == 0 {
      assert Members([]) == {};
      OthersOfNone(peers);
    } else {
      var st, r := Rounds(acks, peers, k - 1), Rounds(acks, peers, k);
      RoundsOrder(acks, peers, k - 1);
      OthersMembers(peers, Members(st.success));
      assert Members(st.failed) !! Members(st.success);
      RoundOrder(acks, st, st.failed, |st.failed|);
      assert st.failed[..|st.failed|] == st.failed;
      OthersTwice(peers, Members(st.success), Members(r.success));
    }
  }

  lemma AttemptShares(acks: set<nat>, st: Progress, x: Node)
    ensures var next := Attempt(acks, st, x);
            multiset(next.success) + multiset(next.failed) == multiset(st.success) + multiset(st.failed) + multiset{x}
  {
    assert multiset(st.success + [x]) == multiset(st.success) + multiset{x};
    assert multiset(st.failed + [x]) == multiset(st.failed) + multiset{x};
  }

  lemma PrefixMultiset(s: seq<Node>, k: nat)
    requires 0 < k <= |s|
    ensures multiset(s[..k]) == multiset(s[..k - 1]) + multiset{s[k - 1]}
  {
    assert s[..k] == s[..k - 1] + [s[k - 1]];
  }

  lemma OneMore(a: multiset<Node>, b: multiset<Node>, c: multiset<Node>, x: Node)
    requires a == b + c
    ensures a + multiset{x} == b + (c + multiset{x})
  {
  }

  lemma {:induction false} RoundShares(acks: set<nat>, st: Progress, pending: seq<Node>, k: nat)
    requires k <= |pending|
    ensures var r := Round(acks, st, pending, k);
            multiset(r.success) + multiset(r.failed) == multiset(st.success) + multiset(pending[..k])
  {
    if k > 0 {
      var r := Round(acks, st, pending, k - 1);
      RoundShares(acks, st, pending, k - 1);
      AttemptShares(acks, r, pending[k - 1]);
      PrefixMultiset(pending, k);
      OneMore(multiset(r.success) + multiset(r.failed), multiset(st.success), multiset(pending[..k - 1]),
              pending[k - 1]);
    }
  }

  lemma RoundSharesAll(acks: set<nat>, st: Progress)
    ensures var r := Round(acks, st, st.failed, |st.failed|);
            multiset(r.success) + multiset(r.failed) == multiset(st.success) + multiset(st.failed)
  {
    RoundShares(acks, st, st.failed, |st.failed|);
    assert st.failed[..|st.failed|] == st.failed;
  }

  /** Success and failure together are the snapshot. */
  lemma {:induction false} RoundsShare(acks: set<nat>, peers: seq<Node>, k: nat)
    ensures multiset(Rounds(acks, peers, k).success) + multiset(Rounds(acks, peers, k).failed) == multiset(peers)
  {
    if k > 0 {
      RoundsShare(acks, peers, k - 1);
      RoundSharesAll(acks, Rounds(acks, peers, k - 1));
    }
  }

  /** The log tells what was acknowledged, and the successes are exactly that. */
  ghost predicate Faithful(acks: set<nat>, st: Progress) {
    Answered(st.log, acks) && st.success == Acknowledged(st.log)
  }

  lemma AttemptFaithful(acks: set<nat>, st: Progress, x: Node)
    requires Faithful(acks, st)
    ensures Faithful(acks, Attempt(acks, st, x))
  {
    var s := Send(x, |st.log| in acks);
    assert (st.log + [s])[..|st.log|] == st.log;
    assert st.success + [] == st.success;
  }

  lemma {:induction false} RoundFaithful(acks: set<nat>, st: Progress, pending: seq<Node>, k: nat)
    requires k <= |pending| && Faithful(acks, st)
    ensures Faithful(acks, Round(acks, st, pending, k))
  {
    if k > 0 {
      RoundFaithful(acks, st, pending, k - 1);
      AttemptFaithful(acks, Round(acks, st, pending, k - 1), pending[k - 1]);
    }
  }

  lemma {:induction false} RoundsFaithful(acks: set<nat>, peers: seq<Node>, k: nat)
    ensures Faithful(acks, Rounds(acks, peers, k))
  {
    if k > 0 {
      var st := Rounds(acks, peers, k - 1);
      RoundsFaithful(acks, peers, k - 1);
      RoundFaithful(acks, st, st.failed, |st.failed|);
    }
  }

  lemma AttemptRecord(acks: set<nat>, st: Progress, x: Node, p: Node)
    ensures var (next, r, ok) := (Attempt(acks, st, x), RecordOf(st.log, p), |st.log| in acks);
            && RecordOf(next.log, p) ==
              (if x != p then r else Record(r.tries + 1, if ok then r.acks + 1 else r.acks, ok))
            && (p in next.success <==> p in st.success || (ok && x == p))
  {
    var s := Send(x, |st.log| in acks);
    assert (st.log + [s])[..|st.log|] == st.log;
  }

  /** The standing of a peer: untouched, or tried once more since the given progress. */
  ghost predicate Stands(st: Progress, r: Progress, p: Node, tried: bool, attempt: nat) {
    if !tried then RecordOf(r.log, p) == RecordOf(st.log, p) && (p in r.success <==> p in st.success)
    else if p in r.success then Delivered(r.log, p, attempt + 1)
    else Undelivered(r.log, p, attempt + 1)
  }

  lemma StandsNext(acks: set<nat>, st: Progress, r: Progress, x: Node, p: Node, tried: bool, attempt: nat)
    requires Stands(st, r, p, tried, attempt)
      && (x == p ==> !tried && Undelivered(st.log, p, attempt) && p !in st.success)
    ensures Stands(st, Attempt(acks, r, x), p, tried || x == p, attempt)
  {
    AttemptRecord(acks, r, x, p);
  }

  /** What a round does to the record of one peer. */
  lemma {:induction false} RoundRecord(acks: set<nat>, st: Progress, pending: seq<Node>, k: nat, p: Node, attempt: nat)
    requires k <= |pending| && Distinct(pending)
    requires p in pending ==> Undelivered(st.log, p, attempt) && p !in st.success
    ensures Stands(st, Round(acks, st, pending, k), p, p in pending[..k], attempt)
  {
    if k > 0 {
      var x := pending[k - 1];
      RoundRecord(acks, st, pending, k - 1, p, attempt);
      assert x in pending && x !in pending[..k - 1];
      StandsNext(acks, st, Round(acks, st, pending, k - 1), x, p, p in pending[..k - 1], attempt);
      assert pending[..k] == pending[..k - 1] + [x];
    }
  }

  /** Exactly the peers of the snapshot that have not acknowledged are pending, each once. */
  lemma PendingIff(acks: set<nat>, peers: seq<Node>, k: nat)
    requires Distinct(peers)
    ensures var st := Rounds(acks, peers, k);
            Distinct(st.failed) && forall p :: p in st.failed <==> p in peers && p !in st.success
  {
    var st := Rounds(acks, peers, k);
    RoundsOrder(acks, peers, k);
    OthersMembers(peers, Members(st.success));
  }

  lemma WholeRoundRecord(acks: set<nat>, st: Progress, p: Node, attempt: nat)
    requires Distinct(st.failed) && (p in st.failed ==> Undelivered(st.log, p, attempt) && p !in st.success)
    ensures var r := Round(acks, st, st.failed, |st.failed|);
            Stands(st, r, p, p in st.failed, attempt)
  {
    RoundRecord(acks, st, st.failed, |st.failed|, p, attempt);
    assert st.failed[..|st.failed|] == st.failed;
  }

  /** A success was acknowledged once and not tried again; a failure was tried in every round; nobody else was tried. */
  lemma {:induction false} RoundsRecord(acks: set<nat>, peers: seq<Node>, k: nat, p: Node)
    requires Distinct(peers)
    ensures var st := Rounds(acks, peers, k);
            if p in st.success then Delivered(st.log, p, k) else Undelivered(st.log, p, if p in peers then k else 0)
  {
    if k > 0 {
      var st := Rounds(acks, peers, k - 1);
      RoundsRecord(acks, peers, k - 1, p);
      PendingIff(acks, peers, k - 1);
      assert p in st.failed <==> p in peers && p !in st.success;
      WholeRoundRecord(acks, st, p, k - 1);
    }
  }

  /** After any number of rounds the report accounts for every peer of the snapshot. */
  lemma RoundsReport(acks: set<nat>, peers: seq<Node>, k: nat)
    requires Distinct(peers)
    ensures var st := Rounds(acks, peers, k);
            Answered(st.log, acks) && Reports(peers, k, st.log, st.success, st.failed)
  {
    var st := Rounds(acks, peers, k);
    RoundsShare(acks, peers, k);
    RoundsFaithful(acks, peers, k);
    RoundsOrder(acks, peers, k);
    OthersMembers(peers, Members(st.success));
    forall p
      ensures if p in st.success then Delivered(st.log, p, k) else Undelivered(st.log, p, if p in peers then k else 0)
    {
      RoundsRecord(acks, peers, k, p);
    }
    assert forall p :: p in st.success ==> p in Members(peers);
  }
}
