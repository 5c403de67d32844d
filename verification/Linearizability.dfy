/**
Concurrent verifications against a store that others keep changing.  Each verification
runs in small steps: it checks its input, reads the clock, takes the read lock, copies the
five maps of the store one after the other, releases the lock, and then works on the copy
one authority or certificate at a time.  Store operations wait while anyone reads.  Every
interleaving of such steps with store operations gives each verification the result of an
atomic verification of one version of the store.
 */
module Linearizability {
  import opened Base
  import opened Keys
  import opened Canonical
  import opened TrustStore
  import opened TrustSnapshot
  import opened PeerVerification

  type Answer = Result<AuthContext, AuthError>

  /** Where a verification stands between two steps. */
  datatype Stage =
    | Called
    | Checked
    | Clocked(now: Int64)
    | Copying(now: Int64, at: nat, done: nat, copy: Trust)
    | CheckingAdmins(now: Int64, at: nat, ts: Trust, admins: seq<EmbeddedCA>)
    | AddingUsers(now: Int64, at: nat, ts: Trust, users: seq<EmbeddedCA>)
    | Filtering(now: Int64, at: nat, ts: Trust, next: nat, valid: seq<nat>)
    | Authorizing(now: Int64, at: nat, ts: Trust, counted: seq<Pair>, todo: seq<nat>)
    | Proving(now: Int64, at: nat, result: AuthResult)
    | Rejected(reason: AuthError)
    | Answered(now: Int64, at: nat, answer: Answer)

  /** A verification: its input, the store version current when it was called, and its stage. */
  datatype Thread = Thread(hs: PeerHandshake, called: nat, stage: Stage)

  /** The store, the versions it had before, the holders of the read lock, and the verifications under way. */
  datatype World = World(past: seq<Trust>, store: Trust, readers: set<nat>, threads: map<nat, Thread>)

  function Init(t: Trust): World {
    World([], t, {}, map[])
  }

  /** Every version the store has had, oldest first; the last is current. */
  function History(w: World): (h: seq<Trust>)
    ensures h != []
  {
    w.past + [w.store]
  }

  datatype Event =
    | Mutate(op: Op)
    | Call(id: nat, hs: PeerHandshake)
    | Tick(id: nat, clock: Int64)

  // ----- Steps -----

  /** The first step: input validation, which reads neither clock nor store. */
  function CheckInput(k: Crypto, hs: PeerHandshake): Stage {
    if HandshakeError(hs).Some? then Rejected(HandshakeError(hs).value)
    else if CertsSnapshotError(k, hs.certs).Some? then Rejected(CertsSnapshotError(k, hs.certs).value)
    else Checked
  }

  const MAPS := 5

  /** Copies one of the five maps from the store as it is now. */
  function CopyNext(store: Trust, done: nat, copy: Trust): Trust {
    match done
    case 0 => copy.(adminCAs := store.adminCAs)
    case 1 => copy.(userCAs := store.userCAs)
    case 2 => copy.(revokedAdmins := store.revokedAdmins)
    case 3 => copy.(revokedUsers := store.revokedUsers)
    case _ => copy.(revokedNodes := store.revokedNodes)
  }

  /** After the copy, authorities are processed only if the peer sent some. */
  function StartWork(hs: PeerHandshake, now: Int64, at: nat, copy: Trust): Stage {
    if |hs.authorities| > 0 then CheckingAdmins(now, at, copy, hs.authorities)
    else Filtering(now, at, copy, 0, [])
  }

  /** The steps that hold the read lock; the version current when it is taken is noted. */
  function StepCopy(history: seq<Trust>, hs: PeerHandshake, s: Stage): Stage
    requires history != [] && (s.Clocked? || s.Copying?)
  {
    match s
    case Clocked(now) => Copying(now, |history| - 1, 0, EMPTY_TRUST)
    case Copying(now, at, done, copy) =>
      if done < MAPS then Copying(now, at, done + 1, CopyNext(history[|history| - 1], done, copy))
      else StartWork(hs, now, at, copy)
  }

  function StepLocal(k: Crypto, hs: PeerHandshake, s: Stage): Stage
    requires Sound(hs, s) && !s.Called? && !s.Checked? && !s.Clocked? && !s.Copying?
  {
    match s
    case CheckingAdmins(now, at, ts, admins) =>
      if admins == [] then AddingUsers(now, at, ts, hs.authorities)
      else
        var err := if admins[0].kind == ADMIN_CA then EmbeddedAdminError(k, ts, admins[0]) else None;
        if err.Some? then Answered(now, at, Err(err.value)) else CheckingAdmins(now, at, ts, admins[1..])
    case AddingUsers(now, at, ts, users) =>
      if users == [] then Filtering(now, at, ts, 0, [])
      else
        var next := if users[0].kind == USER_CA then AddEmbeddedUser(k, ts, users[0]) else Ok(ts);
        if next.Err? then Answered(now, at, Err(next.error)) else AddingUsers(now, at, next.value, users[1..])
    case Filtering(now, at, ts, i, valid) =>
      if i == |hs.certs| then
        if valid == [] then Answered(now, at, Err(ErrNoValidCerts)) else Authorizing(now, at, ts, [], valid)
      else Filtering(now, at, ts, i + 1, if CertValid(k, ts, Bodies(hs)[i], now) then valid + [i] else valid)
    case Authorizing(now, at, ts, counted, todo) =>
      if todo == [] then
        if counted == [] || k.nodeID(counted[0].body.pub).None? then Answered(now, at, Err(ErrNoValidCerts))
        else Proving(now, at, ResultOf(k, ts, counted))
      else
        var p := Pair(Bodies(hs)[todo[0]], hs.caSigs[todo[0]]);
        if VerifySingleCert(k, ts, p.body, p.sig).None? then Authorizing(now, at, ts, counted, todo[1..])
        else if counted != [] && k.nodeID(p.body.pub) != k.nodeID(counted[0].body.pub)
        then Answered(now, at, Err(ErrMismatchedNodeID))
        else Authorizing(now, at, ts, counted + [p], todo[1..])
    case Proving(now, at, result) =>
      var err := ProofError(k, result.pub, hs, now);
      Answered(now, at, if err.Some? then Err(err.value) else Ok(DeriveScope(result)))
    case Rejected(_) => s
    case Answered(_, _, _) => s
  }

  function ResultOf(k: Crypto, ts: Trust, counted: seq<Pair>): AuthResult
    requires counted != [] && k.nodeID(counted[0].body.pub).Some?
  {
    AuthResult(counted[0].body.pub, k.nodeID(counted[0].body.pub).value, HasAdmin(ts, counted),
               UserIssuers(ts, counted))
  }

  /** The stage fits the input: indices stay in range once the shape has been checked. */
  ghost predicate Sound(hs: PeerHandshake, s: Stage) {
    match s
    case Called => true
    case Rejected(_) => true
    case Answered(_, _, _) => true
    case Filtering(_, _, _, i, valid) =>
      Shaped(hs) && i <= |hs.certs| && forall j :: 0 <= j < |valid| ==> valid[j] < |hs.certs|
    case Authorizing(_, _, _, _, todo) =>
      Shaped(hs) && forall j :: 0 <= j < |todo| ==> todo[j] < |hs.certs|
    case _ => Shaped(hs)
  }

  predicate Shaped(hs: PeerHandshake) {
    |hs.certs| == |hs.caSigs| && hs.proof.Some?
  }

  ghost function StepThread(k: Crypto, history: seq<Trust>, th: Thread, clock: Int64): Thread
    requires history != [] && Sound(th.hs, th.stage)
  {
    th.(stage :=
      if th.stage.Called? then CheckInput(k, th.hs)
      else if th.stage.Checked? then Clocked(clock)
      else if th.stage.Clocked? || th.stage.Copying? then StepCopy(history, th.hs, th.stage)
      else StepLocal(k, th.hs, th.stage))
  }

  /**
  One event of a run: a store operation, which waits for all readers, a new verification, or a
  step of one under way.
   */
  ghost function Next(k: Crypto, w: World, e: Event): World {
    match e
    case Mutate(op) => if w.readers != {} then w else w.(past := History(w), store := Apply(k, w.store, op).trust)
    case Call(id, hs) =>
      if id in w.threads then w else w.(threads := w.threads[id := Thread(hs, |w.past|, Called)])
    case Tick(id, clock) =>
      if id in w.threads && Sound(w.threads[id].hs, w.threads[id].stage) then
        var th := StepThread(k, History(w), w.threads[id], clock);
        w.(threads := w.threads[id := th], readers := if th.stage.Copying? then w.readers + {id} else w.readers - {id})
      else w
  }

  // ----- What a stage will answer -----

  /** The answer that the remaining steps lead to, whatever the store does meanwhile. */
  ghost function Pending(k: Crypto, hs: PeerHandshake, s: Stage): Answer
    requires Sound(hs, s) && PastCopy(s)
  {
    match s
    case CheckingAdmins(now, _, ts, admins) =>
      (match EmbeddedAdminsError(k, ts, admins)
       case Some(e) => Err(e)
       case None => PendingExtended(k, hs, now, AddEmbeddedUsers(k, ts, hs.authorities)))
    case AddingUsers(now, _, ts, users) => PendingExtended(k, hs, now, AddEmbeddedUsers(k, ts, users))
    case Filtering(now, _, ts, i, valid) =>
      PendingCounted(k, hs, now, ts,
                     Authorized(k, ts, Bodies(hs), hs.caSigs, valid + ValidFrom(k, ts, Bodies(hs), now, i)))
    case Authorizing(now, _, ts, counted, todo) =>
      PendingCounted(k, hs, now, ts, counted + Authorized(k, ts, Bodies(hs), hs.caSigs, todo))
    case Proving(now, _, result) => PendingResult(k, hs, now, Ok(result))
    case Answered(_, _, answer) => answer
  }

  predicate PastCopy(s: Stage) {
    s.CheckingAdmins? || s.AddingUsers? || s.Filtering? || s.Authorizing? || s.Proving? || s.Answered?
  }

  ghost function PendingExtended(k: Crypto, hs: PeerHandshake, now: Int64, ext: Result<Trust, AuthError>): Answer
    requires Shaped(hs)
  {
    match ext
    case Err(e) => Err(e)
    case Ok(ts) => PendingResult(k, hs, now, Chain(k, ts, now, Pairs(hs)))
  }

  ghost function PendingCounted(k: Crypto, hs: PeerHandshake, now: Int64, ts: Trust, counted: seq<Pair>): Answer
    requires Shaped(hs)
  {
    PendingResult(k, hs, now,
      if counted == [] || k.nodeID(counted[0].body.pub).None? then Err(ErrNoValidCerts)
      else if !SameNode(k, counted) then Err(ErrMismatchedNodeID)
      else Ok(ResultOf(k, ts, counted)))
  }

  ghost function PendingResult(k: Crypto, hs: PeerHandshake, now: Int64, chain: Result<AuthResult, AuthError>): Answer
    requires Shaped(hs)
  {
    match chain
    case Err(e) => Err(e)
    case Ok(r) =>
      match ProofError(k, r.pub, hs, now)
      case Some(e) => Err(e)
      case None => Ok(DeriveScope(r))
  }

  /** The two-pass chain is the summary of the counted pairs. */
  lemma PendingChain(k: Crypto, hs: PeerHandshake, now: Int64, ts: Trust)
    requires Shaped(hs)
    ensures PendingCounted(k, hs, now, ts,
                           Authorized(k, ts, Bodies(hs), hs.caSigs, ValidFrom(k, ts, Bodies(hs), now, 0)))
         == PendingResult(k, hs, now, Chain(k, ts, now, Pairs(hs)))
  {
    FilterThenAuthorize(k, ts, Bodies(hs), hs.caSigs, now, 0);
    assert Pairs(hs)[0..] == Pairs(hs);
    var cs := CountedOf(k, ts, now, Pairs(hs));
    assert cs != [] ==> cs[0] in cs;
  }

  // ----- Steps do not change the pending answer -----

  lemma FilterNext(k: Crypto, ts: Trust, bodies: seq<CertBody>, now: Int64, i: nat, valid: seq<nat>)
    requires i < |bodies|
    ensures (if CertValid(k, ts, bodies[i], now) then valid + [i] else valid) + ValidFrom(k, ts, bodies, now, i + 1)
         == valid + ValidFrom(k, ts, bodies, now, i)
  {
    var rest := ValidFrom(k, ts, bodies, now, i + 1);
    if CertValid(k, ts, bodies[i], now) {
      Reassociate(valid, i, rest);
    } else {
      assert ValidFrom(k, ts, bodies, now, i) == rest;
    }
  }

  lemma FilterEnds(k: Crypto, ts: Trust, hs: PeerHandshake, now: Int64, valid: seq<nat>)
    requires Shaped(hs) && forall j :: 0 <= j < |valid| ==> valid[j] < |hs.certs|
    ensures var all := Authorized(k, ts, Bodies(hs), hs.caSigs, valid);
            valid + ValidFrom(k, ts, Bodies(hs), now, |hs.certs|) == valid && [] + all == all
              && (valid == [] ==> all == [])
  {
    assert valid + [] == valid;
  }

  lemma FilterLast(k: Crypto, hs: PeerHandshake, s: Stage)
    requires s.Filtering? && Sound(hs, s) && s.next == |hs.certs|
    ensures Sound(hs, StepLocal(k, hs, s))
    ensures Pending(k, hs, StepLocal(k, hs, s)) == Pending(k, hs, s)
  {
    FilterEnds(k, s.ts, hs, s.now, s.valid);
    var all := Authorized(k, s.ts, Bodies(hs), hs.caSigs, s.valid);
    assert Pending(k, hs, s) == PendingCounted(k, hs, s.now, s.ts, all);
  }

  lemma FilterStep(k: Crypto, hs: PeerHandshake, s: Stage)
    requires s.Filtering? && Sound(hs, s)
    ensures Sound(hs, StepLocal(k, hs, s))
    ensures Pending(k, hs, StepLocal(k, hs, s)) == Pending(k, hs, s)
  {
    if s.next == |hs.certs| {
      FilterLast(k, hs, s);
    } else {
      var u := StepLocal(k, hs, s);
      FilterNext(k, s.ts, Bodies(hs), s.now, s.next, s.valid);
      assert u.valid + ValidFrom(k, s.ts, Bodies(hs), s.now, u.next) ==
        s.valid + ValidFrom(k, s.ts, Bodies(hs), s.now, s.next);
    }
  }

  /** The pairs seen so far are of one node whose identifier is known. */
  ghost predicate Coherent(k: Crypto, counted: seq<Pair>) {
    SameNode(k, counted) && forall i :: 0 <= i < |counted| ==> k.nodeID(counted[i].body.pub).Some?
  }

  lemma AuthorizeStep(k: Crypto, hs: PeerHandshake, s: Stage)
    requires s.Authorizing? && Sound(hs, s) && Coherent(k, s.counted)
    ensures Sound(hs, StepLocal(k, hs, s))
    ensures Pending(k, hs, StepLocal(k, hs, s)) == Pending(k, hs, s)
    ensures StepLocal(k, hs, s).Authorizing? ==> Coherent(k, StepLocal(k, hs, s).counted)
  {
    var found := Authorized(k, s.ts, Bodies(hs), hs.caSigs, s.todo);
    var all := s.counted + found;
    if s.todo == [] {
      assert all == s.counted;
    } else {
      var p := Pair(Bodies(hs)[s.todo[0]], hs.caSigs[s.todo[0]]);
      var rest := Authorized(k, s.ts, Bodies(hs), hs.caSigs, s.todo[1..]);
      if VerifySingleCert(k, s.ts, p.body, p.sig).None? {
        assert found == rest;
      } else {
        Reassociate(s.counted, p, rest);
        assert all == (s.counted + [p]) + rest;
        if s.counted != [] && k.nodeID(p.body.pub) != k.nodeID(s.counted[0].body.pub) {
          assert all[|s.counted|] == p && all[0] == s.counted[0];
          assert !SameNode(k, all);
        }
      }
    }
  }

  lemma ExtendStep(k: Crypto, hs: PeerHandshake, s: Stage)
    requires (s.CheckingAdmins? || s.AddingUsers?) && Sound(hs, s)
    ensures Sound(hs, StepLocal(k, hs, s))
    ensures Pending(k, hs, StepLocal(k, hs, s)) == Pending(k, hs, s)
  {
    if s.AddingUsers? && s.users == [] {
      PendingChain(k, hs, s.now, s.ts);
      assert [] + ValidFrom(k, s.ts, Bodies(hs), s.now, 0) == ValidFrom(k, s.ts, Bodies(hs), s.now, 0);
    }
  }

  /** The maps copied so far are those of the given version. */
  ghost predicate CopiedFrom(t: Trust, done: nat, copy: Trust) {
    && done <= MAPS
    && (done > 0 ==> copy.adminCAs == t.adminCAs)
    && (done > 1 ==> copy.userCAs == t.userCAs)
    && (done > 2 ==> copy.revokedAdmins == t.revokedAdmins)
    && (done > 3 ==> copy.revokedUsers == t.revokedUsers)
    && (done > 4 ==> copy.revokedNodes == t.revokedNodes)
  }

  /** What holds of a verification in every reachable world. */
  ghost predicate ThreadInvariant(k: Crypto, history: seq<Trust>, th: Thread) {
    && Sound(th.hs, th.stage)
    && th.called < |history|
    && (!th.stage.Called? && !th.stage.Rejected? ==>
          HandshakeError(th.hs).None? && CertsSnapshotError(k, th.hs.certs).None?)
    && (th.stage.Rejected? ==> forall t, now :: Verify(k, t, th.hs, now) == Err(th.stage.reason))
    && (th.stage.Copying? ==>
        th.called <= th.stage.at == |history| - 1 && CopiedFrom(history[th.stage.at], th.stage.done, th.stage.copy))
    && (PastCopy(th.stage) ==>
          && th.called <= th.stage.at < |history|
          && Pending(k, th.hs, th.stage) == Verify(k, history[th.stage.at], th.hs, th.stage.now))
    && (th.stage.Authorizing? ==> Coherent(k, th.stage.counted))
  }

  /** The read lock is held by exactly the verifications that are copying. */
  ghost predicate Invariant(k: Crypto, w: World) {
    && (forall id :: id in w.readers <==> id in w.threads && w.threads[id].stage.Copying?)
    && forall id :: id in w.threads ==> ThreadInvariant(k, History(w), w.threads[id])
  }

  lemma VerifyAfterChecks(k: Crypto, ts: Trust, hs: PeerHandshake, now: Int64)
    requires HandshakeError(hs).None? && CertsSnapshotError(k, hs.certs).None?
    ensures Shaped(hs) && Verify(k, ts, hs, now) == PendingExtended(k, hs, now, Extended(k, ts, hs))
  {
  }

  lemma PendingAtSnapshot(k: Crypto, ts: Trust, hs: PeerHandshake, now: Int64, at: nat)
    requires Shaped(hs)
    ensures Pending(k, hs, CheckingAdmins(now, at, ts, hs.authorities))
         == PendingExtended(k, hs, now, WithEmbeddedAuthorities(k, ts, hs.authorities))
    ensures Pending(k, hs, Filtering(now, at, ts, 0, [])) == PendingExtended(k, hs, now, Ok(ts))
  {
    PendingChain(k, hs, now, ts);
    var idxs := ValidFrom(k, ts, Bodies(hs), now, 0);
    assert [] + idxs == idxs;
  }

  lemma CopyStep(t: Trust, done: nat, copy: Trust)
    requires CopiedFrom(t, done, copy) && done < MAPS
    ensures CopiedFrom(t, done + 1, CopyNext(t, done, copy))
  {
  }

  /** A complete copy fixes the answer: an atomic verification of the version copied. */
  lemma SnapshotStep(k: Crypto, t: Trust, hs: PeerHandshake, now: Int64, at: nat, copy: Trust)
    requires HandshakeError(hs).None? && CertsSnapshotError(k, hs.certs).None? && CopiedFrom(t, MAPS, copy)
    ensures var s := StartWork(hs, now, at, copy);
            && copy == t && Sound(hs, s) && PastCopy(s) && !s.Authorizing? && s.at == at && s.now == now
            && Pending(k, hs, s) == Verify(k, t, hs, now)
  {
    VerifyAfterChecks(k, t, hs, now);
    PendingAtSnapshot(k, t, hs, now, at);
  }

  /** While the lock is held, no version is added, so every map is copied from the version that was noted. */
  lemma CopyingStep(k: Crypto, history: seq<Trust>, th: Thread)
    requires history != [] && ThreadInvariant(k, history, th) && (th.stage.Clocked? || th.stage.Copying?)
    ensures ThreadInvariant(k, history, th.(stage := StepCopy(history, th.hs, th.stage)))
  {
    if th.stage.Copying? {
      var t := history[th.stage.at];
      if th.stage.done < MAPS {
        CopyStep(t, th.stage.done, th.stage.copy);
      } else {
        SnapshotStep(k, t, th.hs, th.stage.now, th.stage.at, th.stage.copy);
      }
    }
  }

  /** Steps on the copy leave the pending answer, the copy and the clock reading alone. */
  lemma LocalStep(k: Crypto, hs: PeerHandshake, s: Stage)
    requires Sound(hs, s) && PastCopy(s) && (s.Authorizing? ==> Coherent(k, s.counted))
    ensures var u := StepLocal(k, hs, s);
            && Sound(hs, u) && PastCopy(u) && u.at == s.at && u.now == s.now
            && Pending(k, hs, u) == Pending(k, hs, s)
            && (u.Authorizing? ==> Coherent(k, u.counted))
  {
    match s
    case CheckingAdmins(_, _, _, _) => ExtendStep(k, hs, s);
    case AddingUsers(_, _, _, _) => ExtendStep(k, hs, s);
    case Filtering(_, _, _, _, _) => FilterStep(k, hs, s);
    case Authorizing(_, _, _, _, _) => AuthorizeStep(k, hs, s);
    case Proving(_, _, _) =>
    case Answered(_, _, _) =>
  }

  lemma InputStep(k: Crypto, hs: PeerHandshake)
    ensures var s := CheckInput(k, hs);
            && Sound(hs, s)
            && (s.Rejected? ==> forall t, now :: Verify(k, t, hs, now) == Err(s.reason))
            && (!s.Rejected? ==> s.Checked? && HandshakeError(hs).None? && CertsSnapshotError(k, hs.certs).None?)
  {
  }

  lemma StepKeepsThread(k: Crypto, history: seq<Trust>, th: Thread, clock: Int64)
    requires history != [] && ThreadInvariant(k, history, th)
    ensures ThreadInvariant(k, history, StepThread(k, history, th, clock))
  {
    if th.stage.Called? {
      InputStep(k, th.hs);
    } else if th.stage.Clocked? || th.stage.Copying? {
      CopyingStep(k, history, th);
    } else if PastCopy(th.stage) {
      LocalStep(k, th.hs, th.stage);
    }
  }

  lemma LongerHistory(k: Crypto, history: seq<Trust>, t: Trust, th: Thread)
    requires ThreadInvariant(k, history, th) && !th.stage.Copying?
    ensures ThreadInvariant(k, history + [t], th)
  {
  }

  lemma NextKeepsInvariant(k: Crypto, w: World, e: Event)
    requires Invariant(k, w)
    ensures Invariant(k, Next(k, w, e))
  {
    var v := Next(k, w, e);
    forall id | id in v.threads
      ensures ThreadInvariant(k, History(v), v.threads[id])
    {
      match e
      case Mutate(op) =>
        if w.readers == {} {
          LongerHistory(k, History(w), v.store, w.threads[id]);
        }
      case Call(_, _) =>
      case Tick(_, clock) =>
        if id == e.id {
          StepKeepsThread(k, History(w), w.threads[id], clock);
        }
    }
  }

  /** The world after a sequence of events. */
  ghost function After(k: Crypto, w: World, es: seq<Event>): World
    decreases |es|
  {
    if es == [] then w else After(k, Next(k, w, es[0]), es[1..])
  }

  lemma {:induction false} AfterKeepsInvariant(k: Crypto, w: World, es: seq<Event>)
    requires Invariant(k, w)
    ensures Invariant(k, After(k, w, es))
    decreases |es|
  {
    if es != [] {
      NextKeepsInvariant(k, w, es[0]);
      AfterKeepsInvariant(k, Next(k, w, es[0]), es[1..]);
    }
  }

  /** In every run, each answer is that of an atomic verification of a version current between call and answer. */
  lemma VerificationIsLinearizable(k: Crypto, t: Trust, es: seq<Event>, id: nat)
    requires id in After(k, Init(t), es).threads
    ensures
      var w := After(k, Init(t), es);
      var th := w.threads[id];
      && (th.stage.Answered? ==>
            th.called <= th.stage.at < |History(w)|
            && th.stage.answer == Verify(k, History(w)[th.stage.at], th.hs, th.stage.now))
      && (th.stage.Rejected? ==> forall u, now :: Verify(k, u, th.hs, now) == Err(th.stage.reason))
  {
    AfterKeepsInvariant(k, Init(t), es);
  }

  /** In every run, a verification that has copied all five maps holds one version, current since its call. */
  lemma SnapshotIsOneVersion(k: Crypto, t: Trust, es: seq<Event>, id: nat)
    requires id in After(k, Init(t), es).threads
    ensures
      var w := After(k, Init(t), es);
      var th := w.threads[id];
      th.stage.Copying? && th.stage.done == MAPS ==>
        th.called <= th.stage.at < |History(w)| && th.stage.copy == History(w)[th.stage.at]
  {
    AfterKeepsInvariant(k, Init(t), es);
  }

  /** The lock is needed: maps copied before and after a revocation can make up a state that the store never had. */
  lemma TornCopy(t: Trust, h: Bytes)
    requires h in t.adminCAs && h !in t.revokedAdmins && RevokeAdmin(t, h).error.None?
    ensures var u := RevokeAdmin(t, h).trust;
            var torn := CopyNext(u, 4, CopyNext(u, 3, CopyNext(u, 2, CopyNext(t, 1, CopyNext(t, 0, EMPTY_TRUST)))));
            torn != t && torn != u && h in torn.adminCAs && h in torn.revokedAdmins
  {
  }

  /** The store operations of a run that were not held up by a reader. */
  ghost function Mutations(k: Crypto, w: World, es: seq<Event>): seq<Op>
    decreases |es|
  {
    if es == [] then []
    else (if es[0].Mutate? && w.readers == {} then [es[0].op] else []) + Mutations(k, Next(k, w, es[0]), es[1..])
  }

  /** The store ends where the operations that went through would take it alone. */
  lemma {:induction false} StoreFollowsItsOperations(k: Crypto, w: World, es: seq<Event>)
    ensures After(k, w, es).store == Run(k, w.store, Mutations(k, w, es))
    decreases |es|
  {
    if es != [] {
      StoreFollowsItsOperations(k, Next(k, w, es[0]), es[1..]);
      var rest := Mutations(k, Next(k, w, es[0]), es[1..]);
      if es[0].Mutate? && w.readers == {} {
        assert Mutations(k, w, es)[0] == es[0].op && Mutations(k, w, es)[1..] == rest;
      } else {
        assert Mutations(k, w, es) == rest;
      }
    }
  }

  // ----- Progress -----

  predicate Finished(s: Stage) {
    s.Answered? || s.Rejected?
  }

  /** An upper bound on the steps that a verification still has to make. */
  ghost function Left(hs: PeerHandshake, s: Stage): nat
    requires Sound(hs, s) && (s.Copying? ==> s.done <= MAPS)
  {
    var filtering := 2 * |hs.certs| + 3;
    var working := 2 * |hs.authorities| + 2 + filtering;
    match s
    case Called => working + 9
    case Checked => working + 8
    case Clocked(_) => working + 7
    case Copying(_, _, done, _) => working + MAPS - done + 1
    case CheckingAdmins(_, _, _, admins) => |admins| + 1 + |hs.authorities| + 1 + filtering
    case AddingUsers(_, _, _, users) => |users| + 1 + filtering
    case Filtering(_, _, _, i, valid) => 2 * (|hs.certs| - i) + |valid| + 3
    case Authorizing(_, _, _, _, todo) => |todo| + 2
    case Proving(_, _, _) => 1
    case Rejected(_) => 0
    case Answered(_, _, _) => 0
  }

  lemma LocalProgress(k: Crypto, hs: PeerHandshake, s: Stage)
    requires Sound(hs, s) && PastCopy(s) && !Finished(s)
    ensures var u := StepLocal(k, hs, s);
            Sound(hs, u) && !u.Copying? && Left(hs, u) < Left(hs, s)
  {
  }

  lemma CopyProgress(history: seq<Trust>, hs: PeerHandshake, s: Stage)
    requires history != [] && Sound(hs, s) && (s.Clocked? || (s.Copying? && s.done <= MAPS))
    ensures var u := StepCopy(history, hs, s);
            Sound(hs, u) && (u.Copying? ==> u.done <= MAPS) && Left(hs, u) < Left(hs, s)
  {
  }

  /** Every step of its own brings a verification closer to its answer. */
  lemma StepProgress(k: Crypto, history: seq<Trust>, th: Thread, clock: Int64)
    requires history != [] && ThreadInvariant(k, history, th) && !Finished(th.stage)
    ensures var next := StepThread(k, history, th, clock);
            && next.hs == th.hs && Sound(th.hs, next.stage) && (next.stage.Copying? ==> next.stage.done <= MAPS)
            && Left(th.hs, next.stage) < Left(th.hs, th.stage)
  {
    if th.stage.Called? {
      InputStep(k, th.hs);
    } else if th.stage.Clocked? || th.stage.Copying? {
      CopyProgress(history, th.hs, th.stage);
    } else if PastCopy(th.stage) {
      LocalProgress(k, th.hs, th.stage);
    }
  }

  lemma FinishedStays(k: Crypto, history: seq<Trust>, th: Thread, clock: Int64)
    requires history != [] && ThreadInvariant(k, history, th) && Finished(th.stage)
    ensures StepThread(k, history, th, clock) == th
  {
  }

  /** The steps that a run gives to one verification. */
  function Ticks(es: seq<Event>, id: nat): nat
    decreases |es|
  {
    if es == [] then 0
    else (if es[0].Tick? && es[0].id == id then 1 else 0) + Ticks(es[1..], id)
  }

  ghost function Remaining(w: World, id: nat): nat
    requires id in w.threads && Sound(w.threads[id].hs, w.threads[id].stage)
    requires w.threads[id].stage.Copying? ==> w.threads[id].stage.done <= MAPS
  {
    Left(w.threads[id].hs, w.threads[id].stage)
  }

  lemma OtherEvents(k: Crypto, w: World, e: Event, id: nat)
    requires id in w.threads && !(e.Tick? && e.id == id)
    ensures id in Next(k, w, e).threads && Next(k, w, e).threads[id] == w.threads[id]
  {
  }

  lemma NextProgress(k: Crypto, w: World, e: Event, id: nat)
    requires Invariant(k, w) && id in w.threads
    ensures var v := Next(k, w, e);
            && Invariant(k, v) && id in v.threads
            && (Finished(w.threads[id].stage) ==> Finished(v.threads[id].stage))
            && Remaining(v, id) <= Remaining(w, id)
            && (e.Tick? && e.id == id && !Finished(w.threads[id].stage) ==> Remaining(v, id) < Remaining(w, id))
  {
    NextKeepsInvariant(k, w, e);
    if e.Tick? && e.id == id {
      if Finished(w.threads[id].stage) {
        FinishedStays(k, History(w), w.threads[id], e.clock);
      } else {
        StepProgress(k, History(w), w.threads[id], e.clock);
      }
    } else {
      OtherEvents(k, w, e, id);
    }
  }

  /** However it is interleaved, a verification is finished once it has made enough steps of its own. */
  lemma {:induction false} StepsFinish(k: Crypto, w: World, es: seq<Event>, id: nat)
    requires Invariant(k, w) && id in w.threads
    requires Finished(w.threads[id].stage) || Ticks(es, id) >= Left(w.threads[id].hs, w.threads[id].stage)
    ensures var v := After(k, w, es); id in v.threads && Finished(v.threads[id].stage)
    decreases |es|
  {
    if es != [] {
      NextProgress(k, w, es[0], id);
      StepsFinish(k, Next(k, w, es[0]), es[1..], id);
    }
  }

  /** From its call a verification needs at most so many steps, whatever others do. */
  lemma VerificationTerminates(k: Crypto, w: World, es: seq<Event>, id: nat)
    requires Invariant(k, w) && id in w.threads && w.threads[id].stage.Called?
    requires Ticks(es, id) >= 2 * |w.threads[id].hs.authorities| + 2 * |w.threads[id].hs.certs| + 14
    ensures var v := After(k, w, es); id in v.threads && Finished(v.threads[id].stage)
  {
    StepsFinish(k, w, es, id);
  }
}
