/**
 * The home lock: acquirers create a lock file with an exclusive hard link, a release
 * unlinks it, and the lock of a dead owner is recovered by whoever finds it.
 *
 * Every file system call is one step and the processes interleave freely. A process is
 * identified by its pid and start time together, and an inode number is never reused.
 */
module HomeLock {
  import opened Numbers
  import opened Options

  type Pid = nat
  type Inode = nat

  /** What the lock path leads to; a file that names no process reads as malformed. */
  datatype Content = Owner(pid: Pid) | Malformed | Directory

  datatype Pc =
    | Idle
    | Pending(mine: Inode)
    | Held(mine: Inode)
    | Blocked
    | Statted(seen: Inode)
    | Seen(seen: Inode, content: Content)
    | Stale(seen: Inode, content: Content)
    | Claimed(seen: Inode, claim: Inode)
    | Checked(seen: Inode)
    | ReleaseChecked(mine: Inode)
    | Finished
    | Crashed
  {
    /** Acquired the lock and has not removed it yet. */
    predicate Holding() {
      Held? || ReleaseChecked?
    }

    /** Decided on what it found, with nothing left to check before removing it. */
    predicate Removing() {
      Checked? || ((Seen? || Stale?) && content.Directory?)
    }
  }

  datatype World = World(
    lock: Option<Inode>,
    contents: map<Inode, Content>,
    procs: map<Pid, Pc>,
    // Every inode that was ever at the lock path.
    linked: set<Inode>
  ) {
    function With(p: Pid, pc: Pc): World {
      this.(procs := procs[p := pc])
    }

    predicate Dead(p: Pid) {
      p in procs && procs[p].Crashed?
    }
  }

  datatype Step =
    | Spawn(p: Pid)
    | Create(p: Pid, i: Inode)
    | Link(p: Pid)
    | Stat(p: Pid)
    | Read(p: Pid)
    | Judge(p: Pid, live: bool)
    | Claim(p: Pid)
    | Check(p: Pid)
    | Unlink(p: Pid)
    | Rename(p: Pid)
    | ReleaseStat(p: Pid)
    | ReleaseUnlink(p: Pid)
    | GiveUp(p: Pid)
    | Crash(p: Pid)

  ghost predicate Enabled(w: World, s: Step) {
    (s.Spawn? || s.p in w.procs) &&
    match s
    case Spawn(p) => p !in w.procs
    case Create(p, i) => w.procs[p].Idle? && i !in w.contents
    case Link(p) => w.procs[p].Pending?
    case Stat(p) => w.procs[p].Blocked? && (w.lock.Some? ==> w.lock.value in w.contents)
    case Read(p) => w.procs[p].Statted? && (w.lock.Some? ==> w.lock.value in w.contents)
    case Judge(p, live) =>
      // A live owner is always recognised; a dead one may still look live where pids are reused.
      && w.procs[p].Seen?
      && (w.procs[p].content.Owner? && !w.Dead(w.procs[p].content.pid) ==> live)
      && (live ==> w.procs[p].content.Owner?)
    case Claim(p) => w.procs[p].Stale? && !w.procs[p].content.Directory?
      && (w.lock.Some? ==> w.lock.value in w.contents)
    case Check(p) => w.procs[p].Claimed?
    case Unlink(p) => w.procs[p].Checked? && (w.lock.Some? ==> w.lock.value in w.contents)
    case Rename(p) => w.procs[p].Stale? && w.procs[p].content.Directory?
    case ReleaseStat(p) => w.procs[p].Held?
    case ReleaseUnlink(p) => w.procs[p].ReleaseChecked?
    case GiveUp(p) => w.procs[p].Idle?
    case Crash(p) => !w.procs[p].Crashed?
  }

  ghost function Do(w: World, s: Step): World
    requires Enabled(w, s)
  {
    match s
    case Spawn(p) => w.With(p, Idle)
    case Create(p, i) => w.(contents := w.contents[i := Owner(p)]).With(p, Pending(i))
    case Link(p) =>
      var mine := w.procs[p].mine;
      if w.lock.None? then w.(lock := Some(mine), linked := w.linked + {mine}).With(p, Held(mine))
      else w.With(p, Blocked)
    case Stat(p) =>
      // Nothing there: try again. A directory is recognised from its stat alone.
      if w.lock.None? then w.With(p, Idle)
      else if w.contents[w.lock.value].Directory? then w.With(p, Seen(w.lock.value, Directory))
      else w.With(p, Statted(w.lock.value))
    case Read(p) =>
      // The path may lead elsewhere by now than it did for the stat.
      if w.lock.None? then w.With(p, Idle)
      else if w.contents[w.lock.value].Directory? then w.With(p, Finished)
      else w.With(p, Seen(w.procs[p].seen, w.contents[w.lock.value]))
    case Judge(p, live) =>
      if live then w.With(p, Finished) else w.With(p, Stale(w.procs[p].seen, w.procs[p].content))
    case Claim(p) =>
      if w.lock.None? then w.With(p, Idle)
      else if w.contents[w.lock.value].Directory? then w.With(p, Finished)
      else w.With(p, Claimed(w.procs[p].seen, w.lock.value))
    case Check(p) =>
      var seen := w.procs[p].seen;
      if w.lock.None? then w.With(p, Finished)
      else if w.lock.value == seen && w.procs[p].claim == seen then w.With(p, Checked(seen))
      else w.With(p, Idle)
    case Unlink(p) =>
      if w.lock.None? || w.contents[w.lock.value].Directory? then w.With(p, Finished)
      else w.(lock := None).With(p, Idle)
    case Rename(p) => w.(lock := None).With(p, Idle)
    case ReleaseStat(p) =>
      var mine := w.procs[p].mine;
      w.With(p, if w.lock == Some(mine) then ReleaseChecked(mine) else Finished)
    case ReleaseUnlink(p) => w.(lock := None).With(p, Finished)
    case GiveUp(p) => w.With(p, Finished)
    case Crash(p) => w.With(p, Crashed)
  }

  // ----- The inductive invariant -----

  /** Names no live process. */
  ghost predicate Abandoned(w: World, content: Content) {
    content.Owner? ==> w.Dead(content.pid)
  }

  /** If the path still leads to `seen`, its content names no live process. */
  ghost predicate SeenAbandoned(w: World, seen: Inode) {
    seen in w.linked && seen in w.contents && (w.lock == Some(seen) ==> Abandoned(w, w.contents[seen]))
  }

  ghost predicate ProcOk(w: World, p: Pid, pc: Pc) {
    match pc
    case Pending(mine) => mine in w.contents && w.contents[mine] == Owner(p) && mine !in w.linked
    case Held(mine) => w.lock == Some(mine) && mine in w.contents && w.contents[mine] == Owner(p)
    case ReleaseChecked(mine) => w.lock == Some(mine) && mine in w.contents && w.contents[mine] == Owner(p)
    case Statted(seen) => seen in w.linked
    case Seen(seen, content) =>
      && seen in w.linked && seen in w.contents
      && (w.lock == Some(seen) ==> w.contents[seen] == content)
    case Stale(seen, content) =>
      && SeenAbandoned(w, seen) && Abandoned(w, content)
      && (w.lock == Some(seen) ==> w.contents[seen] == content)
    case Claimed(seen, claim) => SeenAbandoned(w, seen) && claim in w.contents && !w.contents[claim].Directory?
    case Checked(seen) => SeenAbandoned(w, seen) && !w.contents[seen].Directory?
    case _ => true
  }

  ghost predicate Inv(w: World) {
    && w.linked <= w.contents.Keys
    && (w.lock.Some? ==> w.lock.value in w.linked)
    && (forall p :: p in w.procs ==> ProcOk(w, p, w.procs[p]))
  }

  ghost predicate MutualExclusion(w: World) {
    forall p, q :: p in w.procs && q in w.procs && w.procs[p].Holding() && w.procs[q].Holding() ==> p == q
  }

  /** A recovery that removes finds at the lock path what it checked, or nothing. */
  ghost predicate Undisturbed(w: World, s: Step)
    requires Enabled(w, s)
  {
    s.Unlink? || s.Rename? ==> w.lock.None? || w.lock.value == w.procs[s.p].seen
  }

  lemma InvExcludes(w: World)
    requires Inv(w)
    ensures MutualExclusion(w)
  {
    forall p, q | p in w.procs && q in w.procs && w.procs[p].Holding() && w.procs[q].Holding()
      ensures p == q
    {
      assert ProcOk(w, p, w.procs[p]) && ProcOk(w, q, w.procs[q]);
    }
  }

  /** What the process that takes the step knows afterwards. */
  lemma OwnStep(w: World, s: Step)
    requires Inv(w) && Enabled(w, s) && Undisturbed(w, s)
    ensures ProcOk(Do(w, s), s.p, Do(w, s).procs[s.p])
  {
    if s.p in w.procs {
      assert ProcOk(w, s.p, w.procs[s.p]);
    }
  }

  /** What every other process keeps knowing. */
  lemma OtherStep(w: World, s: Step, p: Pid)
    requires Inv(w) && Enabled(w, s) && Undisturbed(w, s)
    requires p in w.procs && p != s.p
    ensures ProcOk(Do(w, s), p, w.procs[p])
  {
    assert ProcOk(w, p, w.procs[p]);
    if s.p in w.procs {
      assert ProcOk(w, s.p, w.procs[s.p]);
    }
  }

  lemma StepKeepsInv(w: World, s: Step)
    requires Inv(w) && Enabled(w, s) && Undisturbed(w, s)
    ensures Inv(Do(w, s))
  {
    var w' := Do(w, s);
    OwnStep(w, s);
    forall p | p in w.procs && p != s.p
      ensures ProcOk(w', p, w'.procs[p])
    {
      OtherStep(w, s, p);
    }
  }

  // ----- Runs -----

  /** A home whose lock path is free, or leads to something no live process owns. */
  ghost predicate Initial(w: World) {
    && w.linked == w.contents.Keys
    && (w.lock.Some? ==> w.lock.value in w.linked && Abandoned(w, w.contents[w.lock.value]))
    && forall p :: p in w.procs ==> w.procs[p].Crashed?
  }

  ghost predicate IsRun(ws: seq<World>, ss: seq<Step>) {
    && |ws| == |ss| + 1
    && forall i :: 0 <= i < |ss| ==> Enabled(ws[i], ss[i]) && ws[i + 1] == Do(ws[i], ss[i])
  }

  ghost predicate AllUndisturbed(ws: seq<World>, ss: seq<Step>)
    requires IsRun(ws, ss)
  {
    forall i :: 0 <= i < |ss| ==> Undisturbed(ws[i], ss[i])
  }

  lemma {:induction false} InvAlongRun(ws: seq<World>, ss: seq<Step>, k: nat)
    requires IsRun(ws, ss) && AllUndisturbed(ws, ss) && Initial(ws[0]) && k < |ws|
    ensures Inv(ws[k])
  {
    if k > 0 {
      InvAlongRun(ws, ss, k - 1);
      StepKeepsInv(ws[k - 1], ss[k - 1]);
    }
  }

  /**
   * In every run of acquirers, releasers and crashes whose recoveries are undisturbed, at most
   * one live process holds the lock, and nobody removes a lock file that a live process holds
   * except its owner.
   */
  lemma AtMostOneHolder(ws: seq<World>, ss: seq<Step>)
    requires IsRun(ws, ss) && AllUndisturbed(ws, ss) && Initial(ws[0])
    ensures forall k :: 0 <= k < |ws| ==> MutualExclusion(ws[k])
    ensures forall k, p ::
              0 <= k < |ss| && p in ws[k].procs && ws[k].procs[p].Holding() && ss[k].p != p ==>
                ws[k + 1].lock == ws[k].lock == Some(ws[k].procs[p].mine)
  {
    forall k | 0 <= k < |ws|
      ensures Inv(ws[k])
    {
      InvAlongRun(ws, ss, k);
    }
    forall k | 0 <= k < |ws|
      ensures MutualExclusion(ws[k])
    {
      InvExcludes(ws[k]);
    }
    forall k, p | 0 <= k < |ss| && p in ws[k].procs && ws[k].procs[p].Holding() && ss[k].p != p
      ensures ws[k + 1].lock == ws[k].lock == Some(ws[k].procs[p].mine)
    {
      assert ProcOk(ws[k], p, ws[k].procs[p]);
      OtherStep(ws[k], ss[k], p);
      assert ProcOk(ws[k + 1], p, ws[k + 1].procs[p]);
    }
  }

  /** Recovery removes only what names no live process. */
  lemma RecoveryRemovesOnlyAbandoned(ws: seq<World>, ss: seq<Step>, k: nat)
    requires IsRun(ws, ss) && AllUndisturbed(ws, ss) && Initial(ws[0])
    requires k < |ss| && (ss[k].Unlink? || ss[k].Rename?) && ws[k].lock.Some?
    ensures ws[k].lock.value in ws[k].contents && Abandoned(ws[k], ws[k].contents[ws[k].lock.value])
  {
    InvAlongRun(ws, ss, k);
    assert ProcOk(ws[k], ss[k].p, ws[k].procs[ss[k].p]);
  }

  // ----- When recoveries are undisturbed -----

  /** At most one process at a time is about to remove what it found. */
  ghost predicate OneRemover(w: World) {
    forall p, q :: p in w.procs && q in w.procs && w.procs[p].Removing() && w.procs[q].Removing() ==> p == q
  }

  /** While a process is about to remove what it found, the path leads there. */
  ghost predicate RemovalsStand(w: World) {
    forall p :: p in w.procs && w.procs[p].Removing() ==> w.lock == Some(w.procs[p].seen)
  }

  lemma OneRemoverStep(w: World, s: Step)
    requires Inv(w) && OneRemover(w) && RemovalsStand(w) && Enabled(w, s)
    ensures Undisturbed(w, s) && RemovalsStand(Do(w, s))
  {
    if s.p in w.procs {
      assert ProcOk(w, s.p, w.procs[s.p]);
    }
    forall p | p in Do(w, s).procs && Do(w, s).procs[p].Removing() && p != s.p
      ensures Do(w, s).lock == Some(Do(w, s).procs[p].seen)
    {
      assert ProcOk(w, p, w.procs[p]);
    }
  }

  lemma {:induction false} OneRemoverRun(ws: seq<World>, ss: seq<Step>, k: nat)
    requires IsRun(ws, ss) && Initial(ws[0]) && k < |ws|
    requires forall i :: 0 <= i < k ==> OneRemover(ws[i])
    ensures Inv(ws[k]) && RemovalsStand(ws[k])
    ensures forall i :: 0 <= i < k ==> Undisturbed(ws[i], ss[i])
  {
    if k > 0 {
      OneRemoverRun(ws, ss, k - 1);
      OneRemoverStep(ws[k - 1], ss[k - 1]);
      StepKeepsInv(ws[k - 1], ss[k - 1]);
    }
  }

  /**
   * Recoveries are undisturbed in every run in which no two processes are between their
   * identity check and their removal at the same time.
   */
  lemma OneRemoverIsUndisturbed(ws: seq<World>, ss: seq<Step>)
    requires IsRun(ws, ss) && Initial(ws[0])
    requires forall i :: 0 <= i < |ss| ==> OneRemover(ws[i])
    ensures AllUndisturbed(ws, ss)
  {
    OneRemoverRun(ws, ss, |ss|);
  }

  // ----- Two recoveries at once -----

  /** The step takes no process to the point where only the removal is left of its recovery. */
  ghost predicate StartsNoRemoval(w: World, s: Step)
    requires Enabled(w, s)
  {
    Do(w, s).procs[s.p].Removing() ==> s.p in w.procs && w.procs[s.p].Removing()
  }

  ghost predicate IsQuietRun(ws: seq<World>, ss: seq<Step>) {
    IsRun(ws, ss) && forall i :: 0 <= i < |ss| ==> StartsNoRemoval(ws[i], ss[i])
  }

  /** Whatever follows keeps exclusion as long as nothing more gets ready to remove. */
  ghost predicate SafeFrom(w: World) {
    forall ws, ss :: IsQuietRun(ws, ss) && ws[0] == w ==> MutualExclusion(ws[|ss|])
  }

  ghost predicate LeadsTo(w: World, s: Step, w': World) {
    Enabled(w, s) && Do(w, s) == w'
  }

  /** A run of one step more. */
  lemma Extend(ws: seq<World>, ss: seq<Step>, s: Step, w': World) returns (ws': seq<World>, ss': seq<Step>)
    requires IsRun(ws, ss) && LeadsTo(ws[|ws| - 1], s, w')
    ensures ws' == ws + [w'] && ss' == ss + [s] && IsRun(ws', ss')
    ensures IsQuietRun(ws, ss) && StartsNoRemoval(ws[|ws| - 1], s) ==> IsQuietRun(ws', ss')
  {
    ws', ss' := ws + [w'], ss + [s];
  }

  /** The process may remove what is at the path now, whatever that has become. */
  ghost predicate CanRemove(w: World, p: Pid) {
    && p in w.procs && w.procs[p].Removing()
    && w.lock.Some? && w.lock.value in w.contents && (w.procs[p].Checked? ==> !w.contents[w.lock.value].Directory?)
  }

  /** A process about to remove removes what is there now. */
  lemma Removes(ws: seq<World>, ss: seq<Step>, w: World, p: Pid) returns (ws': seq<World>, ss': seq<Step>)
    requires IsQuietRun(ws, ss) && ws[|ws| - 1] == w && CanRemove(w, p)
    ensures IsQuietRun(ws', ss') && ws <= ws' && ws'[|ws'| - 1] == w.(lock := None).With(p, Idle)
  {
    ws', ss' := ws, ss;
    if w.procs[p].Checked? {
      ws', ss' := Extend(ws', ss', Unlink(p), w.(lock := None).With(p, Idle));
    } else {
      var seen := w.procs[p].seen;
      var now := w.With(p, Stale(seen, Directory));
      if w.procs[p].Seen? {
        ws', ss' := Extend(ws', ss', Judge(p, false), now);
      }
      assert now.With(p, Idle) == w.With(p, Idle);
      assert w.procs[p].Stale? ==> w.procs[p := w.procs[p]] == w.procs;
      ws', ss' := Extend(ws', ss', Rename(p), w.(lock := None).With(p, Idle));
    }
  }

  /** The same process then takes the lock. */
  lemma RemovesAndTakes(ws: seq<World>, ss: seq<Step>, w: World, p: Pid, i: Inode)
    returns (ws': seq<World>, ss': seq<Step>)
    requires IsQuietRun(ws, ss) && ws[|ws| - 1] == w && CanRemove(w, p) && i !in w.contents
    ensures IsQuietRun(ws', ss') && ws <= ws'
    ensures ws'[|ws'| - 1] ==
            World(Some(i), w.contents[i := Owner(p)], w.procs[p := Held(i)], w.linked + {i})
  {
    var created := w.(lock := None, contents := w.contents[i := Owner(p)]);
    ws', ss' := Removes(ws, ss, w, p);
    ws', ss' := Extend(ws', ss', Create(p, i), created.With(p, Pending(i)));
    ws', ss' := Extend(ws', ss', Link(p), created.(lock := Some(i), linked := w.linked + {i}).With(p, Held(i)));
  }

  /** Two processes that are both about to remove end up holding the lock together. */
  lemma TwoRemoversTwoHolders(w: World, p: Pid, q: Pid) returns (ws: seq<World>, ss: seq<Step>)
    requires p != q && CanRemove(w, p) && CanRemove(w, q)
    ensures IsQuietRun(ws, ss) && ws[0] == w && !MutualExclusion(ws[|ss|])
  {
    var a := Unused(w.contents);
    ws, ss := RemovesAndTakes([w], [], w, p, a);
    var b := Unused(ws[|ws| - 1].contents);
    ws, ss := RemovesAndTakes(ws, ss, ws[|ws| - 1], q, b);
    var last := ws[|ws| - 1];
    assert last.procs[p].Holding() && last.procs[q].Holding();
  }

  lemma QuietStepKeepsOneRemover(w: World, s: Step)
    requires OneRemover(w) && Enabled(w, s) && StartsNoRemoval(w, s)
    ensures OneRemover(Do(w, s))
  {
    assert forall p :: p in Do(w, s).procs && p != s.p ==> p in w.procs && Do(w, s).procs[p] == w.procs[p];
  }

  /** One remover at a time stays the only one until another process gets ready to remove. */
  lemma {:induction false} QuietKeepsOneRemover(ws: seq<World>, ss: seq<Step>, k: nat)
    requires IsQuietRun(ws, ss) && k < |ws|
    requires Inv(ws[0]) && RemovalsStand(ws[0]) && OneRemover(ws[0])
    ensures Inv(ws[k]) && RemovalsStand(ws[k]) && OneRemover(ws[k])
  {
    if k > 0 {
      var w, s := ws[k - 1], ss[k - 1];
      QuietKeepsOneRemover(ws, ss, k - 1);
      assert Enabled(w, s) && StartsNoRemoval(w, s) && ws[k] == Do(w, s);
      hide Inv;
      hide RemovalsStand;
      hide OneRemover;
      hide Do;
      hide Enabled;
      QuietStepKeepsOneRemover(w, s);
      OneRemoverStep(w, s);
      StepKeepsInv(w, s);
    }
  }

  lemma OneRemoverIsSafe(w: World)
    requires Inv(w) && RemovalsStand(w) && OneRemover(w)
    ensures SafeFrom(w)
  {
    forall ws, ss | IsQuietRun(ws, ss) && ws[0] == w
      ensures MutualExclusion(ws[|ss|])
    {
      QuietKeepsOneRemover(ws, ss, |ss|);
      InvExcludes(ws[|ss|]);
    }
  }

  lemma SafeHasOneRemover(w: World)
    requires Inv(w) && RemovalsStand(w) && SafeFrom(w)
    ensures OneRemover(w)
  {
    forall p, q | p in w.procs && q in w.procs && w.procs[p].Removing() && w.procs[q].Removing()
      ensures p == q
    {
      if p != q {
        assert ProcOk(w, p, w.procs[p]) && ProcOk(w, q, w.procs[q]);
        var ws, ss := TwoRemoversTwoHolders(w, p, q);
        assert false;
      }
    }
  }

  lemma {:induction false} SafeRunHasOneRemover(ws: seq<World>, ss: seq<Step>, k: nat)
    requires IsRun(ws, ss) && Initial(ws[0]) && k <= |ws|
    requires forall i :: 0 <= i < |ws| ==> SafeFrom(ws[i])
    ensures forall i :: 0 <= i < k ==> OneRemover(ws[i])
  {
    if k > 0 {
      SafeRunHasOneRemover(ws, ss, k - 1);
      OneRemoverRun(ws, ss, k - 1);
      SafeHasOneRemover(ws[k - 1]);
    }
  }

  /**
   * Exactly when at most one process at a time is about to remove what it found, nothing that can
   * follow breaks exclusion before one more process gets there.
   */
  lemma ExcludesExactly(ws: seq<World>, ss: seq<Step>)
    requires IsRun(ws, ss) && Initial(ws[0])
    ensures (forall k :: 0 <= k < |ws| ==> OneRemover(ws[k])) <==> (forall k :: 0 <= k < |ws| ==> SafeFrom(ws[k]))
  {
    if forall k :: 0 <= k < |ws| ==> OneRemover(ws[k]) {
      forall k | 0 <= k < |ws|
        ensures SafeFrom(ws[k])
      {
        OneRemoverRun(ws, ss, k);
        OneRemoverIsSafe(ws[k]);
      }
    }
    if forall k :: 0 <= k < |ws| ==> SafeFrom(ws[k]) {
      SafeRunHasOneRemover(ws, ss, |ws|);
    }
  }

  // ----- Two recoveries from any abandoned lock -----

  /** A new process comes too late for the lock. */
  lemma ComesLate(ws: seq<World>, ss: seq<Step>, w: World, p: Pid, i: Inode)
    returns (ws': seq<World>, ss': seq<Step>)
    requires IsRun(ws, ss) && ws[|ws| - 1] == w && w.lock.Some? && p !in w.procs && i !in w.contents
    ensures IsRun(ws', ss') && ws <= ws'
    ensures ws'[|ws'| - 1] == w.(contents := w.contents[i := Owner(p)]).With(p, Blocked)
  {
    hide IsQuietRun;
    var created := w.(contents := w.contents[i := Owner(p)]);
    ws', ss' := Extend(ws, ss, Spawn(p), w.With(p, Idle));
    ws', ss' := Extend(ws', ss', Create(p, i), created.With(p, Pending(i)));
    ws', ss' := Extend(ws', ss', Link(p), created.With(p, Blocked));
  }

  /** What is at the path when no live process owns it makes a blocked process get ready to remove it. */
  lemma GetsReady(ws: seq<World>, ss: seq<Step>, w: World, p: Pid) returns (ws': seq<World>, ss': seq<Step>)
    requires IsRun(ws, ss) && ws[|ws| - 1] == w && p in w.procs && w.procs[p].Blocked?
    requires w.lock.Some? && w.lock.value in w.contents && Abandoned(w, w.contents[w.lock.value])
    ensures IsRun(ws', ss') && ws <= ws'
    ensures ws'[|ws'| - 1] ==
            w.With(p, if w.contents[w.lock.value].Directory? then Seen(w.lock.value, Directory)
              else Checked(w.lock.value))
  {
    hide IsQuietRun;
    var seen, content := w.lock.value, w.contents[w.lock.value];
    if content.Directory? {
      ws', ss' := Extend(ws, ss, Stat(p), w.With(p, Seen(seen, Directory)));
    } else {
      ws', ss' := Extend(ws, ss, Stat(p), w.With(p, Statted(seen)));
      ws', ss' := Extend(ws', ss', Read(p), w.With(p, Seen(seen, content)));
      ws', ss' := Extend(ws', ss', Judge(p, false), w.With(p, Stale(seen, content)));
      ws', ss' := Extend(ws', ss', Claim(p), w.With(p, Claimed(seen, seen)));
      ws', ss' := Extend(ws', ss', Check(p), w.With(p, Checked(seen)));
    }
  }

  /** A new process finds what no live process owns and gets ready to remove it, all by itself. */
  lemma FindsStale(ws: seq<World>, ss: seq<Step>, w: World, p: Pid, i: Inode)
    returns (ws': seq<World>, ss': seq<Step>)
    requires IsRun(ws, ss) && ws[|ws| - 1] == w
    requires w.lock.Some? && w.lock.value in w.contents && Abandoned(w, w.contents[w.lock.value])
    requires p !in w.procs && i !in w.contents
    ensures IsRun(ws', ss') && ws <= ws'
    ensures ws'[|ws'| - 1] == w.(contents := w.contents[i := Owner(p)]).With(
              p, if w.contents[w.lock.value].Directory? then Seen(w.lock.value, Directory) else Checked(w.lock.value))
  {
    ws', ss' := ComesLate(ws, ss, w, p, i);
    ws', ss' := GetsReady(ws', ss', ws'[|ws'| - 1], p);
  }

  /** A new process takes a free lock. */
  lemma Takes(w: World, p: Pid, i: Inode) returns (ws: seq<World>, ss: seq<Step>)
    requires w.lock.None? && p !in w.procs && i !in w.contents
    ensures IsRun(ws, ss) && ws[0] == w && |ss| == 3 && forall k :: 0 <= k < |ss| ==> ss[k].p == p
    ensures ws[3] == World(Some(i), w.contents[i := Owner(p)], w.procs[p := Held(i)], w.linked + {i})
  {
    hide IsQuietRun;
    var created := w.(contents := w.contents[i := Owner(p)]);
    ws, ss := Extend([w], [], Spawn(p), w.With(p, Idle));
    ws, ss := Extend(ws, ss, Create(p, i), created.With(p, Pending(i)));
    ws, ss := Extend(ws, ss, Link(p), created.(lock := Some(i), linked := w.linked + {i}).With(p, Held(i)));
  }

  /** A holder releases what it holds. */
  lemma Releases(ws: seq<World>, ss: seq<Step>, w: World, p: Pid, i: Inode)
    returns (ws': seq<World>, ss': seq<Step>)
    requires IsRun(ws, ss) && ws[|ws| - 1] == w && p in w.procs && w.procs[p] == Held(i) && w.lock == Some(i)
    ensures IsRun(ws', ss') && ws <= ws' && ss' == ss + [ReleaseStat(p), ReleaseUnlink(p)]
    ensures ws'[|ws'| - 1] == World(None, w.contents, w.procs[p := Finished], w.linked)
  {
    hide IsQuietRun;
    ws', ss' := Extend(ws, ss, ReleaseStat(p), w.With(p, ReleaseChecked(i)));
    ws', ss' := Extend(ws', ss', ReleaseUnlink(p), w.(lock := None).With(p, Finished));
  }

  /** A process that finds the lock path free takes the lock and releases it, with nobody else taking a step. */
  lemma TakesAndReleases(w: World, p: Pid, i: Inode) returns (ws: seq<World>, ss: seq<Step>)
    requires w.lock.None? && p !in w.procs && i !in w.contents
    ensures IsRun(ws, ss) && ws[0] == w && |ss| == 5 && forall k :: 0 <= k < |ss| ==> ss[k].p == p
    ensures ws[3].lock == Some(i) && ws[3].procs == w.procs[p := Held(i)]
    ensures ws[5].lock.None? && ws[5].procs == w.procs[p := Finished]
  {
    ws, ss := Takes(w, p, i);
    hide *;
    ws, ss := Releases(ws, ss, ws[3], p, i);
    assert w.procs[p := Held(i)][p := Finished] == w.procs[p := Finished];
  }

  /** What a blocked process reads of a live owner ends its attempt. */
  lemma FindsLive(ws: seq<World>, ss: seq<Step>, w: World, p: Pid) returns (ws': seq<World>, ss': seq<Step>)
    requires IsRun(ws, ss) && ws[|ws| - 1] == w && p in w.procs && w.procs[p].Blocked?
    requires w.lock.Some? && w.lock.value in w.contents && !Abandoned(w, w.contents[w.lock.value])
    ensures IsRun(ws', ss') && ws <= ws' && |ss'| == |ss| + 3
    ensures !Enabled(ws'[|ss'| - 1], Judge(p, false)) && ws'[|ss'|] == w.With(p, Finished)
  {
    hide IsQuietRun;
    var seen, content := w.lock.value, w.contents[w.lock.value];
    ws', ss' := Extend(ws, ss, Stat(p), w.With(p, Statted(seen)));
    ws', ss' := Extend(ws', ss', Read(p), w.With(p, Seen(seen, content)));
    ws', ss' := Extend(ws', ss', Judge(p, true), w.With(p, Finished));
  }

  /** A process that finds the lock of a live owner leaves it alone, and cannot do otherwise. */
  lemma LeavesLiveOwner(w: World, p: Pid, i: Inode) returns (ws: seq<World>, ss: seq<Step>)
    requires w.lock.Some? && w.lock.value in w.contents && !Abandoned(w, w.contents[w.lock.value])
    requires p !in w.procs && i !in w.contents
    ensures IsRun(ws, ss) && ws[0] == w && |ss| > 0 && !Enabled(ws[|ss| - 1], Judge(p, false))
    ensures ws[|ss|].lock == w.lock && ws[|ss|].procs == w.procs[p := Finished]
  {
    ws, ss := ComesLate([w], [], w, p, i);
    var late := ws[|ws| - 1];
    ws, ss := FindsLive(ws, ss, late, p);
    assert w.procs[p := Blocked][p := Finished] == w.procs[p := Finished];
    hide Enabled;
    hide Do;
  }

  lemma RunsJoin(ws: seq<World>, ss: seq<Step>, ws': seq<World>, ss': seq<Step>)
    requires IsRun(ws, ss) && IsRun(ws', ss') && ws'[0] == ws[|ws| - 1]
    ensures IsRun(ws + ws'[1..], ss + ss')
  {
    hide Do;
    hide Enabled;
    var all := ws + ws'[1..];
    assert forall i :: 0 <= i < |ws| ==> all[i] == ws[i];
    assert forall i :: 0 <= i < |ws'| ==> all[|ss| + i] == ws'[i];
    forall i | 0 <= i < |ss + ss'|
      ensures Enabled(all[i], (ss + ss')[i]) && all[i + 1] == Do(all[i], (ss + ss')[i])
    {
      if i >= |ss| {
        assert Enabled(ws'[i - |ss|], ss'[i - |ss|]) && ws'[i - |ss| + 1] == Do(ws'[i - |ss|], ss'[i - |ss|]);
      }
    }
  }

  /**
   * Nothing in the code prevents that: from any lock file or directory that no live process owns
   * two new processes reach the point where both are about to remove, and then both hold the lock.
   */
  lemma TwoRecoveriesTwoHolders(w: World, p: Pid, q: Pid) returns (ws: seq<World>, ss: seq<Step>)
    requires w.lock.Some? && w.lock.value in w.contents && Abandoned(w, w.contents[w.lock.value])
    requires p !in w.procs && q !in w.procs && p != q
    ensures IsRun(ws, ss) && ws[0] == w && !MutualExclusion(ws[|ws| - 1])
  {
    var a := Unused(w.contents);
    ws, ss := FindsStale([w], [], w, p, a);
    var b := Unused(ws[|ws| - 1].contents);
    ws, ss := FindsStale(ws, ss, ws[|ws| - 1], q, b);
    var ws', ss' := TwoRemoversTwoHolders(ws[|ws| - 1], p, q);
    RunsJoin(ws, ss, ws', ss');
    ws, ss := ws + ws'[1..], ss + ss';
  }

  /** An inode number nobody has used. */
  lemma Unused(contents: map<Inode, Content>) returns (i: Inode)
    ensures i !in contents
  {
    i := Above(contents.Keys);
  }
}
