/**
 * The refresh cycle and the seed as the programs perform them: ordered durable writes to the home's
 * cells, with an early return at every failure. Each statement is a step of `RefreshProtocol`, so
 * the safety of all runs is the safety of these programs, and what they come to is what
 * `RefreshCycle` says.
 */
module RefreshMain {
  import opened Numbers
  import opened Options
  import opened RefreshCycle
  import opened RefreshProtocol

  class Home {
    var credential: Option<Credential>
    var marker: Option<Marker>
    var published: Option<string>

    /** Every refresh token that was presented here. */
    var presented: set<string>

    /** The world around the home, and the run that led to it. */
    ghost var world: World
    ghost var worlds: seq<World>
    ghost var steps: seq<Step>

    /** The world is the end of a run that began with a home nobody had used. */
    ghost predicate Traced()
      reads this`world, this`worlds, this`steps
    {
      && IsRun(worlds, steps) && FreshLogins(worlds, steps, 0) && worlds[0] == FRESH_HOME
      && worlds[|worlds| - 1] == world && Inv(world)
    }

    ghost predicate Synced()
      reads this
    {
      && Traced() && world.MayBeSpent() <= presented
      && credential == world.credential && marker == world.marker && published == world.published
    }

    /** The cells are those of the world, and process `p` is at this point of the program. */
    ghost predicate At(p: Pid, pc: Pc)
      reads this
    {
      Synced() && p in world.procs && world.procs[p] == pc
    }

    /** Nobody alive has the lock. */
    ghost predicate Reclaimable()
      reads this`world
    {
      world.lock.None? || (world.lock.value in world.procs && world.procs[world.lock.value].Gone())
    }

    /** No program is under way here. */
    ghost predicate Idle()
      reads this
    {
      Synced() && Reclaimable()
    }

    function Now(): Cells
      reads this
    {
      Cells(credential, marker, published)
    }

    function LedgerNow(): Ledger
      reads this
    {
      Ledger(Now(), presented)
    }

    constructor ()
      ensures Idle() && LedgerNow() == NEW_LEDGER && worlds == [FRESH_HOME] && steps == []
    {
      credential, marker, published, presented := None, None, None, {};
      world, worlds, steps := FRESH_HOME, [FRESH_HOME], [];
    }

    /** One step of the protocol; the caller makes the same change to the cells. */
    ghost method Take(s: Step)
      requires Traced() && Enabled(world, s) && FreshLogin(world, s)
      modifies this`world, this`worlds, this`steps
      ensures Traced() && world == Do(old(world), s) && old(worlds) <= worlds
      ensures world.MayBeSpent() <= old(world).MayBeSpent() +
        (if s.Send? then {old(world).procs[s.p].c.refresh.value} else {})
    {
      StepKeepsInv(world, s);
      StepExposes(world, s);
      worlds, steps := worlds + [Do(world, s)], steps + [s];
      world := Do(world, s);
    }

    // ----- The calls -----

    method ClearMarker(outcome: Outcome) returns (ok: bool)
      modifies this`marker
      ensures marker == Left(outcome, old(marker), None) && ok == outcome.Done?
    {
      if !outcome.NoEffect? {
        marker := None;
      }
      return outcome.Done?;
    }

    method WriteCredential(c: Credential, outcome: Outcome) returns (ok: bool)
      modifies this`credential
      ensures credential == Left(outcome, old(credential), Some(c)) && ok == outcome.Done?
    {
      if !outcome.NoEffect? {
        credential := Some(c);
      }
      return outcome.Done?;
    }

    method WritePublished(c: Credential, outcome: Outcome) returns (ok: bool)
      modifies this`published
      ensures published == Left(outcome, old(published), c.access) && ok == outcome.Done?
    {
      if !outcome.NoEffect? {
        published := c.access;
      }
      return outcome.Done?;
    }

    // ----- The cycle -----

    /** Publishing is the last call of a cycle, and decides its result. */
    method PublishLast(ghost p: Pid, c: Credential, outcome: Outcome) returns (ok: bool)
      requires At(p, Publishing(c))
      modifies this
      ensures At(p, Releasing(if ok then ReturnedTrue else ReturnedFalse)) && old(worlds) <= worlds
      ensures presented == old(presented) && Effect(Now(), ok, false) == PublishEffect(old(Now()), c, outcome)
    {
      hide Traced;
      ok := WritePublished(c, outcome);
      Take(Publish(p, outcome));
    }

    method StoreUpdated(ghost p: Pid, ghost c: Readable, updated: Credential, outcome: Outcome) returns (ok: bool)
      requires At(p, Writing(c, updated))
      modifies this
      ensures At(p, if ok then ClearingDone(updated) else Releasing(ReturnedFalse)) && old(worlds) <= worlds
      ensures presented == old(presented) && ok == outcome.Done?
      ensures Now() == old(Now()).(credential := Left(outcome, old(credential), Some(updated)))
    {
      hide Traced;
      ok := WriteCredential(updated, outcome);
      Take(WriteUpdated(p, outcome));
    }

    method ClearAttempt(ghost p: Pid, ghost updated: Credential, outcome: Outcome) returns (ok: bool)
      requires At(p, ClearingDone(updated))
      modifies this
      ensures At(p, if ok then Publishing(updated) else Releasing(ReturnedFalse)) && old(worlds) <= worlds
      ensures presented == old(presented) && ok == outcome.Done?
      ensures Now() == old(Now()).(marker := Left(outcome, old(marker), None))
    {
      hide Traced;
      ok := ClearMarker(outcome);
      Take(ClearDone(p, outcome));
    }

    /** Stores the new tokens durably, clears the marker and only then publishes; the first failure is the last call. */
    method Commit(ghost p: Pid, ghost c: Readable, updated: Credential, luck: Luck) returns (ok: bool)
      requires At(p, Writing(c, updated))
      modifies this
      ensures At(p, Releasing(if ok then ReturnedTrue else ReturnedFalse)) && old(worlds) <= worlds
      ensures presented == old(presented) && Effect(Now(), ok, false) == CommitEffect(old(Now()), updated, luck)
    {
      hide At;
      ok := StoreUpdated(p, c, updated, luck.write);
      if !ok {
        return;
      }
      ok := ClearAttempt(p, updated, luck.clearDone);
      if !ok {
        return;
      }
      ok := PublishLast(p, updated, luck.publish);
    }

    /** A rejection known to precede minting leaves the token unspent, so its marker is cleared. */
    method Reject(ghost p: Pid, ghost c: Readable, luck: Luck)
      requires At(p, ClearingRejected(c))
      modifies this
      ensures At(p, Releasing(ReturnedFalse)) && old(worlds) <= worlds
      ensures presented == old(presented) && Now() == old(Now()).(marker := Left(luck.clearRejected, old(marker), None))
    {
      hide Traced;
      var cleared := ClearMarker(luck.clearRejected);
      Take(ClearRejected(p, luck.clearRejected));
    }

    /** Presents the refresh token; a reply may never come. */
    method Present(ghost p: Pid, c: Readable)
      requires At(p, Sending(c))
      modifies this`world, this`worlds, this`steps, this`presented
      ensures At(p, Waiting(c)) && old(worlds) <= worlds && presented == old(presented) + {c.refresh.value}
      ensures p in world.requests && world.requests[p] == c.refresh.value
      ensures world.MayBeSpent() <= old(world).MayBeSpent() + {c.refresh.value}
    {
      hide Traced;
      presented := presented + {c.refresh.value};
      Take(Send(p));
    }

    /** The provider answers. */
    ghost method Served(p: Pid, c: Readable, verdict: Reply, spend: bool)
      requires At(p, Waiting(c)) && p in world.requests && world.requests[p] == c.refresh.value
      requires Honest(world.MayBeSpent(), c, verdict, spend)
      modifies this`world, this`worlds, this`steps
      ensures At(p, Waiting(c)) && old(worlds) <= worlds && p in world.replies && world.replies[p] == verdict
    {
      hide Traced;
      Take(Serve(p, verdict, spend));
    }

    /** And the answer is heard. */
    ghost method Hear(p: Pid, c: Readable, verdict: Reply)
      requires At(p, Waiting(c)) && p in world.replies && world.replies[p] == verdict
      modifies this`world, this`worlds, this`steps
      ensures old(worlds) <= worlds
      ensures At(p, match verdict
                    case Tokens(_, _) => Writing(c, Updated(c, verdict))
                    case NotConsumed => ClearingRejected(c)
                    case Unclear => Releasing(ReturnedFalse))
    {
      hide Traced;
      Take(Receive(p));
    }

    ghost method GiveUpWaiting(p: Pid, c: Readable)
      requires At(p, Waiting(c))
      modifies this`world, this`worlds, this`steps
      ensures At(p, Releasing(ReturnedFalse)) && old(worlds) <= worlds
    {
      hide Traced;
      Take(Timeout(p));
    }

    /** Acts on the answer, if one comes. */
    method Exchange(ghost p: Pid, c: Readable, luck: Luck) returns (ok: bool)
      requires At(p, Sending(c))
      requires luck.answer.Some? ==> Honest(world.MayBeSpent(), c, luck.answer.value.0, luck.answer.value.1)
      modifies this
      ensures At(p, Releasing(if ok then ReturnedTrue else ReturnedFalse)) && old(worlds) <= worlds
      ensures presented == old(presented) + {c.refresh.value}
      ensures Effect(Now(), ok, false) == AnswerEffect(old(Now()), c, luck)
    {
      hide At;
      Present(p, c);
      if luck.answer.None? {
        GiveUpWaiting(p, c);
        return false;
      }
      var verdict := luck.answer.value.0;
      Served(p, c, verdict, luck.answer.value.1);
      Hear(p, c, verdict);
      match verdict
      case Unclear =>
        ok := false;
      case NotConsumed =>
        Reject(p, c, luck);
        ok := false;
      case Tokens(access, refresh) =>
        var updated := Credential(if refresh.Some? then refresh else c.refresh, Some(access));
        ok := Commit(p, c, updated, luck);
    }

    /** Marks the attempt durably before anything is sent. */
    method BeginAttempt(ghost p: Pid, c: Readable, luck: Luck) returns (ok: bool)
      requires At(p, Beginning(c)) && marker.None?
      modifies this
      ensures if ok then At(p, Sending(c)) else At(p, Releasing(ReturnedFalse))
      ensures old(worlds) <= worlds && presented == old(presented) && world.MayBeSpent() <= old(world).MayBeSpent()
      ensures credential == old(credential) && published == old(published)
      ensures ok <==> c.access.Some? && luck.begun.Begun?
      ensures c.access.Some? ==>
        marker == match luck.begun
                  case Refused => None
                  case LeftTorn => Some(Torn)
                  case _ => Some(MarkerFor(c))
      ensures c.access.None? ==> marker.None?
      ensures !ok ==> marker.None? || Classify(marker, c).Quarantine?
    {
      hide Traced;
      // A missing access token cannot be fingerprinted.
      var begun := if c.access.None? then Refused else luck.begun;
      match begun {
        case Begun => marker := Some(MarkerFor(c));
        case Refused =>
        case LeftTorn => marker := Some(Torn);
        case MarkedButFailed => marker := Some(MarkerFor(c));
      }
      Take(Begin(p, begun));
      return begun.Begun?;
    }

    ghost method Decided(p: Pid, c: Readable, stillFresh: bool)
      requires At(p, Deciding(c)) && (stillFresh ==> Usable(c.access))
      modifies this`world, this`worlds, this`steps
      ensures At(p, if stillFresh then Publishing(c) else Beginning(c)) && old(worlds) <= worlds
      ensures world.MayBeSpent() <= old(world).MayBeSpent()
    {
      hide Traced;
      Take(Decide(p, stillFresh));
    }

    /** A credential that is still fresh is only published; any other is refreshed. */
    method RefreshIfDue(ghost p: Pid, c: Readable, luck: Luck) returns (ok: bool)
      requires At(p, Deciding(c)) && marker.None?
      requires luck.answer.Some? ==> Honest(world.MayBeSpent(), c, luck.answer.value.0, luck.answer.value.1)
      modifies this
      ensures At(p, Releasing(if ok then ReturnedTrue else ReturnedFalse)) && old(worlds) <= worlds
      ensures var e := RefreshEffect(old(Now()), c, luck);
        && Now() == e.cells && ok == e.ok
        && presented == old(presented) + if e.sent then {c.refresh.value} else {}
    {
      hide At;
      if luck.stillFresh && Usable(c.access) {
        Decided(p, c, true);
        ok := PublishLast(p, c, luck.publish);
        return;
      }
      Decided(p, c, false);
      ok := BeginAttempt(p, c, luck);
      if ok {
        ok := Exchange(p, c, luck);
      }
    }

    /** Reads the marker first: an ambiguous one ends the cycle, a committed one is cleared. */
    method Recover(ghost p: Pid, c: Readable, luck: Luck) returns (ok: bool)
      requires At(p, HasCredential(c))
      modifies this
      ensures if ok then At(p, Deciding(c)) && marker.None? else At(p, Releasing(ReturnedFalse))
      ensures old(worlds) <= worlds && presented == old(presented) && world.MayBeSpent() <= old(world).MayBeSpent()
      ensures Effect(Now(), ok, false) == RecoverEffect(old(Now()), c, luck)
    {
      hide Traced;
      if !luck.markerReads || marker == Some(Torn) {
        Take(ReadMarker(p, false));
        return false;
      }
      Take(ReadMarker(p, true));
      match Classify(marker, c)
      case NoAttempt =>
        ok := true;
      case Quarantine =>
        ok := false;
      case Committed =>
        ok := ClearMarker(luck.clearCommitted);
        Take(ClearCommitted(p, luck.clearCommitted));
    }

    ghost method CredentialRead(p: Pid, ok: bool)
      requires At(p, Locked(Refresh)) && (ok ==> CanRead(Now()))
      modifies this`world, this`worlds, this`steps
      ensures At(p, if ok then HasCredential(credential.value) else Releasing(ReturnedFalse)) && old(worlds) <= worlds
      ensures world.MayBeSpent() <= old(world).MayBeSpent()
    {
      hide Traced;
      Take(ReadCredential(p, ok));
    }

    /** What the provider does with a request of this home is what an honest one can do. */
    ghost predicate HonestAnswer(luck: Luck)
      reads this
    {
      luck.answer.Some? && CanRead(Now()) ==>
        Honest(world.MayBeSpent(), credential.value, luck.answer.value.0, luck.answer.value.1)
    }

    /** The cycle under the lock. */
    method Cycle(ghost p: Pid, luck: Luck) returns (ok: bool)
      requires At(p, Locked(Refresh)) && HonestAnswer(luck)
      modifies this
      ensures At(p, Releasing(if ok then ReturnedTrue else ReturnedFalse)) && old(worlds) <= worlds
      ensures var e := CycleEffect(old(Now()), luck);
        Now() == e.cells && ok == e.ok && presented == old(presented) + Presented(old(Now()), e)
    {
      hide At;
      if !luck.credentialReads || credential.None? || !Usable(credential.value.refresh) {
        CredentialRead(p, false);
        return false;
      }
      var c: Readable := credential.value;
      CredentialRead(p, true);
      ok := Recover(p, c, luck);
      if ok {
        ok := RefreshIfDue(p, c, luck);
      }
    }

    // ----- The lock -----

    /** Takes the lock, also from a process that is gone. */
    ghost method Start(p: Pid, op: Operation)
      requires Idle() && p !in world.procs
      modifies this`world, this`worlds, this`steps
      ensures At(p, Locked(op)) && old(worlds) <= worlds && world.MayBeSpent() <= old(world).MayBeSpent()
    {
      hide Traced;
      Take(Spawn(p, op));
      Take(Acquire(p));
    }

    /** Lets go of the lock, or leaves it to be reclaimed; what held at the end of the program holds on the home. */
    ghost method Finish(p: Pid, exit: Exit, departs: Departure)
      requires At(p, Releasing(exit))
      modifies this`world, this`worlds, this`steps
      ensures At(p, if departs.Dies? then Crashed else Finished(exit)) && Idle() && old(worlds) <= worlds
      ensures exit.ReturnedTrue? ==>
        credential.Some? && marker.None? && published.Some? && published == credential.value.access
      ensures credential.Some? && !Marked(world, credential.value) ==> Unspent(world, credential.value)
    {
      assert world.lock == Some(p) && LocalOk(world, p, world.procs[p]);
      Take(if departs.Dies? then Crash(p) else Release(p, departs.Releases?));
      assert Safe(world);
    }

    /**
     * A whole cycle on a home whose lock is free or left behind. It is a run of the protocol, so whatever
     * it presented was unspent and marked; and if it succeeds, what is published is what is stored.
     */
    method RunCycle(luck: Luck) returns (ok: bool)
      requires Idle() && HonestAnswer(luck)
      modifies this
      ensures Idle() && old(worlds) <= worlds
      ensures CycleOutcome(old(Now()), luck, ok, Now())
      ensures var e := CycleEffect(old(Now()), luck);
        Now() == e.cells && ok == e.ok && presented == old(presented) + Presented(old(Now()), e)
      ensures ok ==> credential.Some? && marker.None? && published.Some? && published == credential.value.access
      ensures credential.Some? && !Marked(world, credential.value) ==> Unspent(world, credential.value)
    {
      hide At;
      hide Idle;
      CycleExactly(Now(), luck);
      hide CycleOutcome;
      ghost var p := Nobody(world.procs);
      Start(p, Refresh);
      ok := Cycle(p, luck);
      Finish(p, if ok then ReturnedTrue else ReturnedFalse, luck.departs);
    }

    // ----- The seed -----

    method StoreLogin(ghost p: Pid, login: Credential, outcome: Outcome) returns (ok: bool)
      requires At(p, Locked(Operation.Seed(login))) && Unspent(world, login)
      modifies this
      ensures At(p, if ok then SeedClearing(login) else Releasing(SeedFailed)) && old(worlds) <= worlds
      ensures presented == old(presented) && ok == outcome.Done?
      ensures Now() == old(Now()).(credential := Left(outcome, old(credential), Some(login)))
    {
      hide Traced;
      ok := WriteCredential(login, outcome);
      Take(SeedWrite(p, outcome));
    }

    method ClearForLogin(ghost p: Pid, ghost login: Credential, outcome: Outcome) returns (ok: bool)
      requires At(p, SeedClearing(login))
      modifies this
      ensures At(p, if ok then SeedPublishing(login) else Releasing(SeedFailed)) && old(worlds) <= worlds
      ensures presented == old(presented) && ok == outcome.Done?
      ensures Now() == old(Now()).(marker := Left(outcome, old(marker), None))
    {
      hide Traced;
      ok := ClearMarker(outcome);
      Take(SeedClear(p, outcome));
    }

    method PublishLogin(ghost p: Pid, login: Credential, outcome: Outcome, hasExpiry: bool) returns (ok: bool)
      requires At(p, SeedPublishing(login))
      modifies this
      ensures At(p, Releasing(if ok then Seeded else SeedFailed)) && old(worlds) <= worlds
        && presented == old(presented)
      ensures Effect(Now(), ok, false) ==
        if hasExpiry && Usable(login.access) then PublishEffect(old(Now()), login, outcome)
        else Effect(old(Now()), true, false)
    {
      hide Traced;
      var publishes := hasExpiry && Usable(login.access);
      ok := true;
      if publishes {
        ok := WritePublished(login, outcome);
      }
      Take(SeedPublish(p, outcome, publishes));
    }

    /** A seed writes the login, clears any marker and publishes the new token, all under the same lock. */
    method Seed(ghost p: Pid, login: Credential, luck: SeedLuck) returns (ok: bool)
      requires At(p, Locked(Operation.Seed(login))) && Unspent(world, login)
      modifies this
      ensures At(p, Releasing(if ok then Seeded else SeedFailed)) && old(worlds) <= worlds
        && presented == old(presented)
      ensures Effect(Now(), ok, false) == SeedEffect(old(Now()), login, luck)
      ensures SeedOutcome(old(Now()), login, luck, ok, Now())
    {
      hide At;
      SeedExactly(Now(), login, luck);
      ok := StoreLogin(p, login, luck.write);
      if ok {
        ok := ClearForLogin(p, login, luck.clear);
      }
      if ok {
        ok := PublishLogin(p, login, luck.publish, luck.hasExpiry);
      }
    }

    /** A whole seed, of a login whose token cannot have been spent. */
    method RunSeed(login: Credential, luck: SeedLuck) returns (ok: bool)
      requires Idle() && Unspent(world, login)
      modifies this
      ensures Idle() && old(worlds) <= worlds && presented == old(presented)
      ensures Effect(Now(), ok, false) == SeedEffect(old(Now()), login, luck)
      ensures ok ==> credential == Some(login) && marker.None?
      ensures ok && luck.hasExpiry && Usable(login.access) ==> published == login.access
      ensures !luck.write.Done? || !luck.clear.Done? || !luck.hasExpiry || !Usable(login.access) ==>
        published == old(published)
      ensures ok <==>
        && luck.write.Done? && luck.clear.Done?
        && (luck.hasExpiry && Usable(login.access) ==> luck.publish.Done?)
      ensures SeedOutcome(old(Now()), login, luck, ok, Now())
    {
      hide At;
      hide Idle;
      ghost var p := Nobody(world.procs);
      Start(p, Operation.Seed(login));
      ok := Seed(p, login, luck);
      Finish(p, if ok then Seeded else SeedFailed, luck.departs);
    }

    /** The provider answers a request whose sender no longer waits, if it can answer so. */
    ghost method ServeLate(token: string, verdict: Reply, spend: bool)
      requires Idle()
      modifies this`world, this`worlds, this`steps
      ensures Idle() && old(worlds) <= worlds
    {
      hide Traced;
      if q :| q in world.requests && world.requests[q] == token && Enabled(world, Serve(q, verdict, spend)) {
        Take(Serve(q, verdict, spend));
      }
    }
  }

  /** Only sending exposes a token. */
  lemma StepExposes(w: World, s: Step)
    requires Inv(w) && Enabled(w, s)
    ensures Do(w, s).MayBeSpent() <= w.MayBeSpent() + if s.Send? then {w.procs[s.p].c.refresh.value} else {}
  {
    if s.Serve? {
      ServeExposesNothing(w, s);
    } else if !s.Send? {
      SameBooks(w, s);
    }
  }

  /** A process id that was never used. */
  lemma Nobody(procs: map<Pid, Pc>) returns (p: Pid)
    ensures p !in procs
  {
    p := Above(procs.Keys);
  }

  /** What is possible by the ledger is possible at the provider. */
  lemma PossibleIsHonest(home: Home, act: Act)
    requires home.Idle() && Possible(home.LedgerNow(), act)
    ensures act.Cycling? ==> home.HonestAnswer(act.luck)
    ensures act.Seeding? ==> Unspent(home.world, act.login)
  {
  }

  /**
   * Any cycles and seeds, one after the other, however their calls go and whoever leaves the lock
   * behind, and any late answers between them, are one run of the protocol. So no token that may be
   * spent is ever presented; and each act has done to the home what its calls amount to.
   */
  method RunAll(acts: seq<Act>) returns (home: Home, oks: seq<bool>)
    ensures fresh(home) && home.Idle() && home.LedgerNow() == AfterActs(NEW_LEDGER, acts)
    ensures IsRun(home.worlds, home.steps) && PresentsOnlyUnspent(home.worlds, home.steps)
    ensures forall i :: 0 <= i < |home.worlds| ==> Safe(home.worlds[i])
    ensures |oks| == |acts|
    ensures forall i :: 0 <= i < |acts| ==>
      Happened(AfterActs(NEW_LEDGER, acts[..i]), acts[i], oks[i], AfterActs(NEW_LEDGER, acts[..i + 1]))
  {
    hide AfterActs;
    hide Happened;
    home := new Home();
    oks := [];
    NothingDone(acts);
    for i := 0 to |acts|
      invariant fresh(home) && home.Idle() && home.LedgerNow() == AfterActs(NEW_LEDGER, acts[..i]) && |oks| == i
      invariant forall j :: 0 <= j < i ==>
        Happened(AfterActs(NEW_LEDGER, acts[..j]), acts[j], oks[j], AfterActs(NEW_LEDGER, acts[..j + 1]))
    {
      OneActMore(acts, i);
      var ok := Perform(home, acts[i]);
      oks := oks + [ok];
    }
    assert acts[..|acts|] == acts;
    SingleUse(home.worlds, home.steps);
  }

  lemma NothingDone(acts: seq<Act>)
    ensures AfterActs(NEW_LEDGER, acts[..0]) == NEW_LEDGER
  {
  }

  lemma OneActMore(acts: seq<Act>, i: nat)
    requires i < |acts|
    ensures AfterActs(NEW_LEDGER, acts[..i + 1]) == AfterAct(AfterActs(NEW_LEDGER, acts[..i]), acts[i])
  {
    hide AfterAct;
    assert acts[..i + 1][..i] == acts[..i];
  }

  /** One act, if it is possible. */
  method Perform(home: Home, act: Act) returns (ok: bool)
    requires home.Idle()
    modifies home
    ensures home.Idle() && home.LedgerNow() == AfterAct(old(home.LedgerNow()), act)
    ensures Happened(old(home.LedgerNow()), act, ok, home.LedgerNow())
  {
    hide CycleEffect;
    hide SeedEffect;
    ok := false;
    var before := home.LedgerNow();
    if Possible(before, act) {
      PossibleIsHonest(home, act);
      match act
      case Cycling(luck) =>
        ok := home.RunCycle(luck);
      case Seeding(login, luck) =>
        ok := home.RunSeed(login, luck);
      case Serving(token, verdict, spend) =>
        home.ServeLate(token, verdict, spend);
    }
    ActExactly(before, act, ok);
  }
}
