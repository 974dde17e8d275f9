/**
 * The single-use refresh protocol: refresh cycles and seeds that share one durable
 * credential, one durable attempt marker, one published copy and one operation lock,
 * against a provider that spends a refresh token the moment it rotates it.
 *
 * The protocol is a transition system. A process may crash between any two steps, a
 * store call may fail before or after it took effect, and the provider may serve a
 * request long after its sender has given up or died.
 */
module RefreshProtocol {
  import opened Options

  type Pid = nat

  /** SHA-256 of a token, taken as injective. */
  datatype Fingerprint = Fp(token: string)

  /** The two tokens of a stored credential; `None` is a missing field. */
  datatype Credential = Credential(refresh: Option<string>, access: Option<string>)

  /** `Torn` is a marker file whose write was cut short, which does not parse. */
  datatype Marker = Torn | Attempt(refresh: Option<Fingerprint>, access: Option<Fingerprint>)

  datatype Class = NoAttempt | Quarantine | Committed

  /** JavaScript truthiness of a token field. */
  predicate Usable(token: Option<string>) {
    token.Some? && token.value != ""
  }

  /** `classifyRefreshAttempt`, for a marker that parses. */
  function Classify(marker: Option<Marker>, credential: Credential): Class {
    match marker
    case None => NoAttempt
    case Some(Torn) => Quarantine
    case Some(Attempt(refresh, access)) =>
      if refresh.None? || access.None? || !Usable(credential.refresh) || !Usable(credential.access) then
        Quarantine
      else if refresh.value == Fp(credential.refresh.value) && access.value == Fp(credential.access.value) then
        Quarantine
      else
        Committed
  }

  /** The marker written before a request that presents `credential`. */
  function MarkerFor(credential: Credential): Marker
    requires credential.refresh.Some? && credential.access.Some?
  {
    Attempt(Some(Fp(credential.refresh.value)), Some(Fp(credential.access.value)))
  }

  /** What the provider answered. `NotConsumed` is a rejection known to precede minting. */
  datatype Reply =
    | Tokens(access: string, refresh: Option<string>)
    | NotConsumed
    | Unclear

  /** The credential written after a successful exchange: an omitted token is kept. */
  function Updated(current: Credential, reply: Reply): Credential
    requires reply.Tokens?
  {
    Credential(if reply.refresh.Some? then reply.refresh else current.refresh, Some(reply.access))
  }

  datatype Operation = Refresh | Seed(login: Credential)

  datatype Exit = ReturnedTrue | ReturnedFalse | Seeded | SeedFailed

  /** `readCredential` refuses a credential without a refresh token. */
  type Readable = c: Credential | Usable(c.refresh) witness Credential(Some("r"), None)

  /** The program counter of one process, with its local variables. */
  datatype Pc =
    | Start(op: Operation)
    | Locked(op: Operation)
    | HasCredential(c: Readable)
    | ClearingCommitted(c: Readable)
    | Deciding(c: Readable)
    | Beginning(c: Readable)
    | Sending(c: Readable)
    | Waiting(c: Readable)
    | ClearingRejected(c: Readable)
    | Writing(c: Readable, updated: Credential)
    | ClearingDone(updated: Credential)
    | Publishing(stored: Credential)
    | SeedClearing(stored: Credential)
    | SeedPublishing(stored: Credential)
    | Releasing(exit: Exit)
    | Finished(exit: Exit)
    | Crashed
  {
    /** Holds the operation lock. */
    predicate Holding() {
      !Start? && !Finished? && !Crashed?
    }

    predicate Gone() {
      Finished? || Crashed?
    }
  }

  datatype World = World(
    credential: Option<Credential>,
    marker: Option<Marker>,
    published: Option<string>,
    lock: Option<Pid>,
    procs: map<Pid, Pc>,
    // The provider: tokens it has spent, requests it has not served, answers on their way.
    consumed: set<string>,
    requests: map<Pid, string>,
    replies: map<Pid, Reply>,
    // Every access token that was ever in the stored credential.
    everStored: set<string>
  ) {
    /** The refresh tokens the provider has spent or may still spend on a request already sent. */
    ghost function MayBeSpent(): set<string> {
      consumed + requests.Values
    }

    predicate At(p: Pid) {
      p in procs
    }

    function With(p: Pid, pc: Pc): World {
      this.(procs := procs[p := pc])
    }

    function Store(c: Credential): World {
      this.(credential := Some(c),
            everStored := everStored + (if c.access.Some? then {c.access.value} else {}))
    }
  }

  /** A store call throws or not, and in either case may already have taken effect when it throws. */
  datatype Outcome = Done | NoEffect | LateFailure

  datatype BeginOutcome = Begun | Refused | LeftTorn | MarkedButFailed

  datatype Step =
    | Spawn(p: Pid, op: Operation)
    | Acquire(p: Pid)
    | GiveUp(p: Pid)
    | ReadCredential(p: Pid, ok: bool)
    | ReadMarker(p: Pid, ok: bool)
    | ClearCommitted(p: Pid, outcome: Outcome)
    | Decide(p: Pid, stillFresh: bool)
    | Begin(p: Pid, begun: BeginOutcome)
    | Send(p: Pid)
    | Serve(p: Pid, verdict: Reply, spend: bool)
    | Receive(p: Pid)
    | Timeout(p: Pid)
    | ClearRejected(p: Pid, outcome: Outcome)
    | WriteUpdated(p: Pid, outcome: Outcome)
    | ClearDone(p: Pid, outcome: Outcome)
    | Publish(p: Pid, outcome: Outcome)
    | SeedWrite(p: Pid, outcome: Outcome)
    | SeedClear(p: Pid, outcome: Outcome)
    | SeedPublish(p: Pid, outcome: Outcome, hasExpiry: bool)
    | Release(p: Pid, released: bool)
    | Crash(p: Pid)

  ghost predicate Enabled(w: World, s: Step) {
    (s.Spawn? || s.Serve? || s.p in w.procs) &&
    match s
    case Spawn(p, _) => p !in w.procs
    case Acquire(p) =>
      // A lock left by a process that is gone is reclaimed.
      w.procs[p].Start? && (w.lock.None? || (w.lock.value in w.procs && w.procs[w.lock.value].Gone()))
    case GiveUp(p) => w.procs[p].Start?
    case ReadCredential(p, ok) =>
      w.procs[p] == Locked(Refresh) && (ok ==> w.credential.Some? && Usable(w.credential.value.refresh))
    case ReadMarker(p, ok) => w.procs[p].HasCredential? && (ok ==> w.marker != Some(Torn))
    case ClearCommitted(p, _) => w.procs[p].ClearingCommitted?
    case Decide(p, stillFresh) => w.procs[p].Deciding? && (stillFresh ==> Usable(w.procs[p].c.access))
    case Begin(p, begun) =>
      // A missing access token cannot be fingerprinted, and the file is opened exclusively.
      w.procs[p].Beginning? && (!begun.Refused? ==> w.procs[p].c.access.Some? && w.marker.None?)
    case Send(p) => w.procs[p].Sending?
    case Serve(p, verdict, spend) =>
      // An honest provider: a new refresh token means the old one is spent, an omitted one
      // means it is not, a pre-mint rejection is truthful and a new token was never presented.
      && p in w.requests
      && (verdict.NotConsumed? ==> !spend)
      && (verdict.Tokens? ==>
            && verdict.access != ""
            && (spend <==> verdict.refresh.Some? && verdict.refresh.value != w.requests[p])
            && (spend ==> verdict.refresh.value !in w.MayBeSpent()))
    case Receive(p) => w.procs[p].Waiting? && p in w.replies
    case Timeout(p) => w.procs[p].Waiting?
    case ClearRejected(p, _) => w.procs[p].ClearingRejected?
    case WriteUpdated(p, _) => w.procs[p].Writing?
    case ClearDone(p, _) => w.procs[p].ClearingDone?
    case Publish(p, _) => w.procs[p].Publishing?
    case SeedWrite(p, _) => w.procs[p].Locked? && w.procs[p].op.Seed?
    case SeedClear(p, _) => w.procs[p].SeedClearing?
    case SeedPublish(p, _, hasExpiry) => w.procs[p].SeedPublishing? && (hasExpiry ==> Usable(w.procs[p].stored.access))
    case Release(p, _) => w.procs[p].Releasing?
    case Crash(p) => !w.procs[p].Gone()
  }

  /** Clears the marker when the call took effect, then goes to `next` or to `failed`. */
  ghost function AfterClear(w: World, p: Pid, outcome: Outcome, next: Pc, failed: Pc): World {
    var cleared := if outcome.NoEffect? then w else w.(marker := None);
    cleared.With(p, if outcome.Done? then next else failed)
  }

  ghost function AfterWrite(w: World, p: Pid, outcome: Outcome, c: Credential, next: Pc, failed: Pc): World {
    var written := if outcome.NoEffect? then w else w.Store(c);
    written.With(p, if outcome.Done? then next else failed)
  }

  ghost function AfterPublish(w: World, p: Pid, outcome: Outcome, c: Credential, next: Pc, failed: Pc): World {
    var done := if outcome.NoEffect? then w else w.(published := c.access);
    done.With(p, if outcome.Done? then next else failed)
  }

  /** The world after an enabled step. */
  ghost function Do(w: World, s: Step): World
    requires Enabled(w, s)
  {
    match s
    case Spawn(p, op) => w.With(p, Start(op))
    case Serve(p, verdict, spend) =>
      w.(requests := w.requests - {p},
         replies := w.replies[p := verdict],
         consumed := if spend then w.consumed + {w.requests[p]} else w.consumed)
    case Acquire(p) => w.(lock := Some(p)).With(p, Locked(w.procs[p].op))
    case GiveUp(p) => w.With(p, Finished(if w.procs[p].op.Refresh? then ReturnedFalse else SeedFailed))
    case ReadCredential(p, ok) =>
      w.With(p, if ok then HasCredential(w.credential.value) else Releasing(ReturnedFalse))
    case ReadMarker(p, ok) =>
      var c := w.procs[p].c;
      w.With(p, if !ok then Releasing(ReturnedFalse)
                else match Classify(w.marker, c)
                     case NoAttempt => Deciding(c)
                     case Quarantine => Releasing(ReturnedFalse)
                     case Committed => ClearingCommitted(c))
    case ClearCommitted(p, outcome) => AfterClear(w, p, outcome, Deciding(w.procs[p].c), Releasing(ReturnedFalse))
    case Decide(p, stillFresh) => w.With(p, if stillFresh then Publishing(w.procs[p].c) else Beginning(w.procs[p].c))
    case Begin(p, begun) =>
      var c := w.procs[p].c;
      (match begun
       case Begun => w.(marker := Some(MarkerFor(c))).With(p, Sending(c))
       case Refused => w.With(p, Releasing(ReturnedFalse))
       case LeftTorn => w.(marker := Some(Torn)).With(p, Releasing(ReturnedFalse))
       case MarkedButFailed => w.(marker := Some(MarkerFor(c))).With(p, Releasing(ReturnedFalse)))
    case Send(p) => w.(requests := w.requests[p := w.procs[p].c.refresh.value]).With(p, Waiting(w.procs[p].c))
    case Receive(p) =>
      var c := w.procs[p].c;
      w.With(p, match w.replies[p]
                case Tokens(_, _) => Writing(c, Updated(c, w.replies[p]))
                case NotConsumed => ClearingRejected(c)
                case Unclear => Releasing(ReturnedFalse))
    case Timeout(p) => w.With(p, Releasing(ReturnedFalse))
    case ClearRejected(p, outcome) => AfterClear(w, p, outcome, Releasing(ReturnedFalse), Releasing(ReturnedFalse))
    case WriteUpdated(p, outcome) =>
      var updated := w.procs[p].updated;
      AfterWrite(w, p, outcome, updated, ClearingDone(updated), Releasing(ReturnedFalse))
    case ClearDone(p, outcome) =>
      AfterClear(w, p, outcome, Publishing(w.procs[p].updated), Releasing(ReturnedFalse))
    case Publish(p, outcome) =>
      AfterPublish(w, p, outcome, w.procs[p].stored, Releasing(ReturnedTrue), Releasing(ReturnedFalse))
    case SeedWrite(p, outcome) =>
      var c := w.procs[p].op.login;
      AfterWrite(w, p, outcome, c, SeedClearing(c), Releasing(SeedFailed))
    case SeedClear(p, outcome) =>
      AfterClear(w, p, outcome, SeedPublishing(w.procs[p].stored), Releasing(SeedFailed))
    case SeedPublish(p, outcome, hasExpiry) =>
      if hasExpiry then AfterPublish(w, p, outcome, w.procs[p].stored, Releasing(Seeded), Releasing(SeedFailed))
      else w.With(p, Releasing(Seeded))
    case Release(p, released) =>
      (if released then w.(lock := None) else w).With(p, Finished(w.procs[p].exit))
    case Crash(p) => w.With(p, Crashed)
  }

  // ----- The inductive invariant -----

  /** The provider has not spent, and has not been asked to spend, this credential's refresh token. */
  ghost predicate Unspent(w: World, c: Credential) {
    c.refresh.Some? ==> c.refresh.value !in w.MayBeSpent()
  }

  /** The durable marker names exactly this credential. */
  ghost predicate Marked(w: World, c: Credential) {
    c.refresh.Some? && c.access.Some? && w.marker == Some(MarkerFor(c))
  }

  /** Whenever the stored token may be spent, a durable marker naming it exists. */
  ghost predicate Safe(w: World) {
    w.credential.Some? ==> Unspent(w, w.credential.value) || Marked(w, w.credential.value)
  }

  ghost predicate ReplyOk(w: World, c: Credential, reply: Reply) {
    match reply
    case Tokens(access, _) => access != "" && Unspent(w, Updated(c, reply))
    case NotConsumed => Unspent(w, c)
    case Unclear => true
  }

  /** What the lock holder knows about the disk and the provider at each program point. */
  ghost predicate LocalOk(w: World, p: Pid, pc: Pc) {
    match pc
    case HasCredential(c) => w.credential == Some(c)
    case ClearingCommitted(c) => w.credential == Some(c) && Unspent(w, c)
    case Deciding(c) => w.credential == Some(c) && w.marker.None?
    case Beginning(c) => w.credential == Some(c) && w.marker.None?
    case Sending(c) => w.credential == Some(c) && Marked(w, c) && Unspent(w, c)
    case Waiting(c) =>
      && w.credential == Some(c) && Marked(w, c)
      && (p in w.requests ==> w.requests[p] == c.refresh.value && p !in w.replies)
      && (p in w.replies ==> ReplyOk(w, c, w.replies[p]))
    case ClearingRejected(c) => w.credential == Some(c) && Marked(w, c) && Unspent(w, c)
    case Writing(c, updated) =>
      w.credential == Some(c) && Marked(w, c) && Unspent(w, updated) && Usable(updated.access)
    case ClearingDone(updated) => w.credential == Some(updated) && Unspent(w, updated) && Usable(updated.access)
    case Publishing(c) => w.credential == Some(c) && w.marker.None? && Usable(c.access)
    case SeedClearing(c) => w.credential == Some(c) && Unspent(w, c)
    case SeedPublishing(c) => w.credential == Some(c) && w.marker.None?
    case Releasing(exit) =>
      exit.ReturnedTrue? ==>
        w.credential.Some? && w.marker.None? && w.published.Some? && w.published == w.credential.value.access
    case _ => true
  }

  /** A process that has not sent yet has neither a request nor an answer at the provider. */
  ghost predicate BeforeSending(pc: Pc) {
    pc.Start? || pc.Locked? || pc.HasCredential? || pc.ClearingCommitted? || pc.Deciding? || pc.Beginning?
      || pc.Sending?
  }

  ghost predicate DiskInv(w: World) {
    && Safe(w)
    && (w.published.Some? ==> w.published.value in w.everStored)
    && (w.credential.Some? && w.credential.value.access.Some? ==> w.credential.value.access.value in w.everStored)
  }

  ghost predicate HolderInv(w: World) {
    forall p :: p in w.procs && w.procs[p].Holding() ==> w.lock == Some(p) && LocalOk(w, p, w.procs[p])
  }

  ghost predicate RequestInv(w: World) {
    && (forall p :: p in w.procs && BeforeSending(w.procs[p]) ==> p !in w.requests && p !in w.replies)
    && (forall p :: p in w.requests ==> p in w.procs && w.requests[p] !in w.consumed)
    && (forall p :: p in w.replies ==> p in w.procs)
    && (forall p, q :: p in w.requests && q in w.requests && w.requests[p] == w.requests[q] ==> p == q)
  }

  ghost predicate Inv(w: World) {
    DiskInv(w) && HolderInv(w) && RequestInv(w)
  }

  /** A seed must carry a login whose refresh token nobody has presented. */
  ghost predicate FreshLogin(w: World, s: Step)
    requires Enabled(w, s)
  {
    s.SeedWrite? ==> Unspent(w, w.procs[s.p].op.login)
  }

  /** A step that leaves the provider alone changes nothing for the processes that do not take it. */
  lemma HolderFrame(w: World, w': World, p: Pid)
    requires HolderInv(w)
    requires p in w'.procs && w'.procs == w.procs[p := w'.procs[p]]
    requires w'.requests == w.requests && w'.replies == w.replies && w'.consumed == w.consumed
    requires w'.procs[p].Holding() ==> w'.lock == Some(p) && LocalOk(w', p, w'.procs[p])
    requires
      || (p in w.procs && w.procs[p].Holding())
      || (w'.procs[p].Holding() && forall q :: q in w.procs ==> !w.procs[q].Holding())
      || (!w'.procs[p].Holding() && w' == w.With(p, w'.procs[p]))
    ensures HolderInv(w')
  {
    forall q | q in w'.procs && w'.procs[q].Holding()
      ensures w'.lock == Some(q) && LocalOk(w', q, w'.procs[q])
    {
      if q != p {
        assert q in w.procs && w.procs[q].Holding();
        assert w.lock == Some(q) && LocalOk(w, q, w.procs[q]);
        assert w'.MayBeSpent() == w.MayBeSpent();
      }
    }
  }

  ghost predicate IsClear(s: Step) {
    s.ClearCommitted? || s.ClearRejected? || s.ClearDone? || s.SeedClear?
  }

  ghost predicate IsWrite(s: Step) {
    s.WriteUpdated? || s.SeedWrite? || s.Publish? || s.SeedPublish?
  }

  /** What every step other than sending and serving has in common. */
  ghost predicate Shape(w: World, s: Step, w': World) {
    && w'.requests == w.requests && w'.replies == w.replies && w'.consumed == w.consumed
    && s.p in w'.procs && w'.procs == w.procs[s.p := w'.procs[s.p]]
    && (s.p !in w.procs ==> s.Spawn? && w' == w.With(s.p, w'.procs[s.p]) && w'.procs[s.p].Start?)
    && (s.p in w.procs && BeforeSending(w'.procs[s.p]) ==> BeforeSending(w.procs[s.p]))
    && (s.Acquire? ==> w'.lock == Some(s.p))
    && (s.GiveUp? || s.Crash? || s.Release? ==> !w'.procs[s.p].Holding())
    && (s.GiveUp? || s.Crash? ==> w' == w.With(s.p, w'.procs[s.p]))
    && (!s.Spawn? && !s.Acquire? && !s.GiveUp? && !s.Crash? ==> s.p in w.procs && w.procs[s.p].Holding())
    && (!s.Acquire? && !s.Release? ==> w'.lock == w.lock)
  }

  lemma ClearShape(w: World, s: Step)
    requires Enabled(w, s) && IsClear(s)
    ensures Shape(w, s, Do(w, s))
  {
  }

  lemma StoreShape(w: World, s: Step)
    requires Enabled(w, s) && (s.WriteUpdated? || s.SeedWrite?)
    ensures Shape(w, s, Do(w, s))
  {
  }

  lemma PublishShape(w: World, s: Step)
    requires Enabled(w, s) && (s.Publish? || s.SeedPublish?)
    ensures Shape(w, s, Do(w, s))
  {
  }

  lemma OtherShape(w: World, s: Step)
    requires Enabled(w, s) && !s.Serve? && !s.Send? && !IsClear(s) && !IsWrite(s)
    ensures Shape(w, s, Do(w, s))
  {
  }

  lemma StepShape(w: World, s: Step)
    requires Enabled(w, s) && !s.Serve? && !s.Send?
    ensures Shape(w, s, Do(w, s))
  {
    if IsClear(s) {
      ClearShape(w, s);
    } else if s.WriteUpdated? || s.SeedWrite? {
      StoreShape(w, s);
    } else if IsWrite(s) {
      PublishShape(w, s);
    } else {
      OtherShape(w, s);
    }
  }

  lemma SameBooks(w: World, s: Step)
    requires Enabled(w, s) && !s.Serve? && !s.Send?
    ensures Do(w, s).MayBeSpent() == w.MayBeSpent()
  {
    StepShape(w, s);
  }

  lemma RecoveryClearStep(w: World, s: Step)
    requires Enabled(w, s) && (s.ClearCommitted? || s.ClearRejected?) && FreshLogin(w, s)
    requires DiskInv(w) && LocalOk(w, s.p, w.procs[s.p])
    ensures DiskInv(Do(w, s)) && LocalOk(Do(w, s), s.p, Do(w, s).procs[s.p])
  {
    SameBooks(w, s);
  }

  lemma DoneClearStep(w: World, s: Step)
    requires Enabled(w, s) && (s.ClearDone? || s.SeedClear?) && FreshLogin(w, s)
    requires DiskInv(w) && LocalOk(w, s.p, w.procs[s.p])
    ensures DiskInv(Do(w, s)) && LocalOk(Do(w, s), s.p, Do(w, s).procs[s.p])
  {
    SameBooks(w, s);
  }

  lemma StoreStep(w: World, s: Step)
    requires Enabled(w, s) && (s.WriteUpdated? || s.SeedWrite?) && FreshLogin(w, s)
    requires DiskInv(w) && LocalOk(w, s.p, w.procs[s.p])
    ensures DiskInv(Do(w, s)) && LocalOk(Do(w, s), s.p, Do(w, s).procs[s.p])
  {
    SameBooks(w, s);
  }

  lemma PublishStep(w: World, s: Step)
    requires Enabled(w, s) && (s.Publish? || s.SeedPublish?) && FreshLogin(w, s)
    requires DiskInv(w) && LocalOk(w, s.p, w.procs[s.p])
    ensures DiskInv(Do(w, s)) && LocalOk(Do(w, s), s.p, Do(w, s).procs[s.p])
  {
    SameBooks(w, s);
  }

  lemma ReadStep(w: World, s: Step)
    requires Enabled(w, s) && (s.Acquire? || s.ReadCredential? || s.ReadMarker? || s.Decide?) && FreshLogin(w, s)
    requires DiskInv(w) && LocalOk(w, s.p, w.procs[s.p])
    ensures DiskInv(Do(w, s)) && LocalOk(Do(w, s), s.p, Do(w, s).procs[s.p])
  {
    SameBooks(w, s);
  }

  lemma BeginStep(w: World, s: Step)
    requires Enabled(w, s) && (s.Begin?) && FreshLogin(w, s)
    requires DiskInv(w) && LocalOk(w, s.p, w.procs[s.p])
    ensures DiskInv(Do(w, s)) && LocalOk(Do(w, s), s.p, Do(w, s).procs[s.p])
  {
    SameBooks(w, s);
  }

  lemma AnswerStep(w: World, s: Step)
    requires Enabled(w, s) && (s.Receive? || s.Timeout?) && FreshLogin(w, s)
    requires DiskInv(w) && LocalOk(w, s.p, w.procs[s.p])
    ensures DiskInv(Do(w, s)) && LocalOk(Do(w, s), s.p, Do(w, s).procs[s.p])
  {
    SameBooks(w, s);
  }

  lemma EndStep(w: World, s: Step)
    requires Enabled(w, s) && (s.GiveUp? || s.Release? || s.Crash?) && FreshLogin(w, s)
    requires DiskInv(w) && LocalOk(w, s.p, w.procs[s.p])
    ensures DiskInv(Do(w, s)) && LocalOk(Do(w, s), s.p, Do(w, s).procs[s.p])
  {
    SameBooks(w, s);
  }

  lemma KnownAt(w: World, s: Step)
    requires Inv(w) && Enabled(w, s) && !s.Serve? && !s.Spawn?
    ensures s.p in w.procs && LocalOk(w, s.p, w.procs[s.p])
  {
  }

  lemma LocalStep(w: World, s: Step)
    requires Inv(w) && Enabled(w, s) && FreshLogin(w, s)
    requires !s.Serve? && !s.Send? && !s.Spawn?
    ensures s.p in Do(w, s).procs && DiskInv(Do(w, s)) && LocalOk(Do(w, s), s.p, Do(w, s).procs[s.p])
  {
    KnownAt(w, s);
    StepShape(w, s);
    hide Do;
    hide Enabled;
    hide LocalOk;
    hide DiskInv;
    hide HolderInv;
    hide RequestInv;
    if s.ClearCommitted? || s.ClearRejected? {
      RecoveryClearStep(w, s);
    } else if s.ClearDone? || s.SeedClear? {
      DoneClearStep(w, s);
    } else if s.WriteUpdated? || s.SeedWrite? {
      StoreStep(w, s);
    } else if s.Publish? || s.SeedPublish? {
      PublishStep(w, s);
    } else if s.Begin? {
      BeginStep(w, s);
    } else if s.Receive? || s.Timeout? {
      AnswerStep(w, s);
    } else if s.GiveUp? || s.Release? || s.Crash? {
      EndStep(w, s);
    } else {
      ReadStep(w, s);
    }
  }

  /** Steps other than sending and serving leave the provider's books alone. */
  lemma QuietStep(w: World, s: Step)
    requires Inv(w) && Enabled(w, s) && !s.Serve? && !s.Send?
    ensures RequestInv(Do(w, s))
  {
    StepShape(w, s);
  }

  lemma LocalHolder(w: World, s: Step)
    requires Inv(w) && Enabled(w, s) && FreshLogin(w, s) && !s.Serve? && !s.Send?
    ensures DiskInv(Do(w, s)) && HolderInv(Do(w, s))
  {
    StepShape(w, s);
    if s.Spawn? {
      assert Do(w, s).MayBeSpent() == w.MayBeSpent();
    } else {
      LocalStep(w, s);
    }
    if s.Acquire? {
      assert forall q :: q in w.procs ==> !w.procs[q].Holding();
    }
    HolderFrame(w, Do(w, s), s.p);
  }

  lemma StepKeepsInv(w: World, s: Step)
    requires Inv(w) && Enabled(w, s) && FreshLogin(w, s)
    ensures Inv(Do(w, s))
  {
    if s.Serve? {
      ServeKeepsInv(w, s);
    } else if s.Send? {
      SendKeepsInv(w, s);
    } else {
      QuietStep(w, s);
      LocalHolder(w, s);
    }
  }

  /** Serving spends only what was exposed already. */
  lemma ServeExposesNothing(w: World, s: Step)
    requires RequestInv(w) && Enabled(w, s) && s.Serve?
    ensures Do(w, s).MayBeSpent() <= w.MayBeSpent()
    ensures !s.spend ==> w.requests[s.p] !in Do(w, s).MayBeSpent()
    ensures RequestInv(Do(w, s))
  {
  }

  lemma ServeKeepsInv(w: World, s: Step)
    requires Inv(w) && Enabled(w, s) && s.Serve?
    ensures Inv(Do(w, s))
  {
    ServeExposesNothing(w, s);
    var w' := Do(w, s);
    forall p | p in w'.procs && w'.procs[p].Holding()
      ensures w'.lock == Some(p) && LocalOk(w', p, w'.procs[p])
    {
      assert w.lock == Some(p) && LocalOk(w, p, w.procs[p]);
    }
  }

  lemma SendKeepsInv(w: World, s: Step)
    requires Inv(w) && Enabled(w, s) && s.Send?
    ensures Inv(Do(w, s))
  {
  }

  // ----- Runs -----

  /** A home nobody has used. */
  ghost const FRESH_HOME := World(None, None, None, None, map[], {}, map[], map[], {})

  ghost predicate IsRun(ws: seq<World>, ss: seq<Step>) {
    && |ws| == |ss| + 1
    && forall i :: 0 <= i < |ss| ==> Enabled(ws[i], ss[i]) && ws[i + 1] == Do(ws[i], ss[i])
  }

  /** Every seed from step `from` on carries an unspent login. */
  ghost predicate FreshLogins(ws: seq<World>, ss: seq<Step>, from: nat)
    requires IsRun(ws, ss)
  {
    forall i :: from <= i < |ss| ==> FreshLogin(ws[i], ss[i])
  }

  /** No step of the run presents a token that the provider may already have spent. */
  ghost predicate PresentsOnlyUnspent(ws: seq<World>, ss: seq<Step>)
    requires IsRun(ws, ss)
  {
    forall i :: 0 <= i < |ss| && ss[i].Send? ==> Unspent(ws[i], ws[i].procs[ss[i].p].c)
  }

  lemma {:induction false} InvAlongRun(ws: seq<World>, ss: seq<Step>, from: nat, k: nat)
    requires IsRun(ws, ss) && FreshLogins(ws, ss, from) && from <= k < |ws| && Inv(ws[from])
    ensures Inv(ws[k])
  {
    if k > from {
      InvAlongRun(ws, ss, from, k - 1);
      StepKeepsInv(ws[k - 1], ss[k - 1]);
    }
  }

  /**
   * Safety over every run of cycles, seeds, lost replies, late servings and crashes: a
   * request presents only a token nobody can have spent, under a durable marker that names it.
   */
  lemma SingleUse(ws: seq<World>, ss: seq<Step>)
    requires IsRun(ws, ss) && FreshLogins(ws, ss, 0) && ws[0] == FRESH_HOME
    ensures PresentsOnlyUnspent(ws, ss)
    ensures forall k :: 0 <= k < |ws| ==> Safe(ws[k])
    ensures forall i :: 0 <= i < |ss| && ss[i].Send? ==> Marked(ws[i], ws[i].procs[ss[i].p].c)
  {
    forall k | 0 <= k < |ws|
      ensures Inv(ws[k])
    {
      InvAlongRun(ws, ss, 0, k);
    }
    forall i | 0 <= i < |ss| && ss[i].Send?
      ensures Unspent(ws[i], ws[i].procs[ss[i].p].c) && Marked(ws[i], ws[i].procs[ss[i].p].c)
    {
      assert LocalOk(ws[i], ss[i].p, ws[i].procs[ss[i].p]);
    }
  }

  /** The provider has spent `t`, or holds the request of process `p` that presents it. */
  ghost predicate Exposed(w: World, p: Pid, t: string) {
    t in w.consumed || (p in w.requests && w.requests[p] == t)
  }

  lemma ExposedStep(w: World, s: Step, p: Pid, t: string)
    requires Enabled(w, s) && Exposed(w, p, t) && !(s.Send? && s.p == p)
    requires s.Serve? && s.p == p ==> s.spend
    ensures Exposed(Do(w, s), p, t)
  {
    if !s.Serve? && !s.Send? {
      StepShape(w, s);
    }
  }

  /** Until the provider answers without spending it, a presented token stays exposed. */
  lemma {:induction false} ExposedUntilAnswered(ws: seq<World>, ss: seq<Step>, i: nat, k: nat, t: string)
    requires IsRun(ws, ss) && i < k < |ws| && ss[i].Send? && t == ws[i].procs[ss[i].p].c.refresh.value
    requires forall j :: i < j < k ==> !(ss[j].Send? && ss[j].p == ss[i].p)
    requires forall j :: i < j < k && ss[j].Serve? && ss[j].p == ss[i].p ==> ss[j].spend
    ensures Exposed(ws[k], ss[i].p, t)
  {
    if k > i + 1 {
      ExposedUntilAnswered(ws, ss, i, k - 1, t);
      ExposedStep(ws[k - 1], ss[k - 1], ss[i].p, t);
    } else {
      assert ws[k] == Do(ws[i], ss[i]);
    }
  }

  lemma StaysPastSending(w: World, s: Step, p: Pid)
    requires Enabled(w, s) && p in w.procs && !BeforeSending(w.procs[p])
    ensures p in Do(w, s).procs && !BeforeSending(Do(w, s).procs[p])
  {
    if !s.Serve? && !s.Send? {
      StepShape(w, s);
    }
  }

  /** A process sends at most once. */
  lemma {:induction false} SendsOnce(ws: seq<World>, ss: seq<Step>, i: nat, k: nat)
    requires IsRun(ws, ss) && i < k < |ws| && ss[i].Send?
    ensures ss[i].p in ws[k].procs && !BeforeSending(ws[k].procs[ss[i].p])
  {
    if k > i + 1 {
      SendsOnce(ws, ss, i, k - 1);
      StaysPastSending(ws[k - 1], ss[k - 1], ss[i].p);
    } else {
      assert ws[k] == Do(ws[i], ss[i]);
    }
  }

  /**
   * A refresh token is presented a second time only after the provider answered the first
   * presentation without spending it.
   */
  lemma PresentedAgainOnlyWhenKept(ws: seq<World>, ss: seq<Step>, i: nat, j: nat)
    requires IsRun(ws, ss) && FreshLogins(ws, ss, 0) && ws[0] == FRESH_HOME
    requires i < j < |ss| && ss[i].Send? && ss[j].Send?
    requires ws[i].procs[ss[i].p].c.refresh == ws[j].procs[ss[j].p].c.refresh
    ensures exists k :: i < k < j && ss[k].Serve? && ss[k].p == ss[i].p && !ss[k].spend
  {
    SingleUse(ws, ss);
    forall k | i < k < j && ss[k].Send?
      ensures ss[k].p != ss[i].p
    {
      SendsOnce(ws, ss, i, k);
    }
    var t := ws[i].procs[ss[i].p].c.refresh.value;
    if forall k :: i < k < j && ss[k].Serve? && ss[k].p == ss[i].p ==> ss[k].spend {
      ExposedUntilAnswered(ws, ss, i, j, t);
    }
  }

  /** A cycle that returns true leaves published equal to stored, no marker and an unspent token. */
  lemma TrueMeansPublished(ws: seq<World>, ss: seq<Step>, k: nat, p: Pid)
    requires IsRun(ws, ss) && FreshLogins(ws, ss, 0) && ws[0] == FRESH_HOME
    requires k < |ws| && p in ws[k].procs && ws[k].procs[p] == Releasing(ReturnedTrue)
    ensures ws[k].credential.Some? && ws[k].published.Some? && ws[k].published == ws[k].credential.value.access
    ensures ws[k].marker.None? && Unspent(ws[k], ws[k].credential.value)
  {
    InvAlongRun(ws, ss, 0, k);
    assert LocalOk(ws[k], p, ws[k].procs[p]);
  }

  /** Whatever is published at any time was stored durably in an earlier world. */
  lemma PublishedWasStoredFirst(ws: seq<World>, ss: seq<Step>, k: nat)
    requires IsRun(ws, ss) && FreshLogins(ws, ss, 0) && ws[0] == FRESH_HOME && k < |ws|
    requires ws[k].published.Some?
    ensures exists j :: 0 <= j < k && ws[j].credential.Some? && ws[j].credential.value.access == ws[k].published
  {
    var i := FirstPublished(ws, ss, k);
    InvAlongRun(ws, ss, 0, i);
    assert LocalOk(ws[i], ss[i].p, ws[i].procs[ss[i].p]);
  }

  /** The step that wrote the published copy of world `k`. */
  lemma {:induction false} FirstPublished(ws: seq<World>, ss: seq<Step>, k: nat) returns (i: nat)
    requires IsRun(ws, ss) && ws[0].published.None? && k < |ws| && ws[k].published.Some?
    ensures i < k && (ss[i].Publish? || ss[i].SeedPublish?)
    ensures ws[i].procs[ss[i].p].stored.access == ws[k].published
  {
    if ws[k].published == ws[k - 1].published {
      i := FirstPublished(ws, ss, k - 1);
    } else {
      i := k - 1;
    }
  }

  // ----- Quarantine -----

  /** No live process has got past reading the marker. */
  ghost predicate NobodyPastTheMarker(w: World, c: Credential) {
    forall p :: p in w.procs ==>
      match w.procs[p]
      case Start(_) => true
      case Locked(_) => true
      case HasCredential(seen) => seen == c
      case Releasing(_) => true
      case Finished(_) => true
      case Crashed => true
      case _ => false
  }

  /** An ambiguous marker matches the stored credential, or does not parse. */
  ghost predicate Quarantined(w: World, c: Credential) {
    && w.credential == Some(c)
    && Classify(w.marker, c).Quarantine?
    && NobodyPastTheMarker(w, c)
  }

  /** The attempt is over, marked or sent, and neither a new credential nor a rejection is on disk. */
  ghost predicate Interrupts(w: World, s: Step)
    requires Enabled(w, s)
  {
    match s
    case Begin(_, begun) => begun.LeftTorn? || begun.MarkedButFailed?
    case Timeout(_) => true
    case Receive(p) => w.replies[p].Unclear?
    case WriteUpdated(_, outcome) => outcome.NoEffect?
    case ClearRejected(_, outcome) => outcome.NoEffect?
    case Crash(p) => w.procs[p].Sending? || w.procs[p].Waiting? || w.procs[p].Writing? || w.procs[p].ClearingRejected?
    case _ => false
  }

  /** What the process that is interrupted knew of the disk. */
  lemma InterruptedAt(w: World, s: Step)
    requires Enabled(w, s) && Interrupts(w, s)
    ensures var w', pc := Do(w, s), w.procs[s.p];
      && w'.credential == w.credential && w'.procs == w.procs[s.p := w'.procs[s.p]]
      && (w'.procs[s.p].Releasing? || w'.procs[s.p].Crashed?) && pc.Holding()
      && (w'.marker == w.marker || (s.Begin? && (w'.marker == Some(Torn) || w'.marker == Some(MarkerFor(pc.c)))))
  {
  }

  /**
   * However an attempt ends between its mark and the durable write of what it brought, by an
   * unclear answer, a timeout, a failed write or a crash, the home is quarantined.
   */
  lemma LostReplyQuarantines(w: World, s: Step)
    requires Inv(w) && Enabled(w, s) && Interrupts(w, s)
    ensures w.credential.Some? && Quarantined(Do(w, s), w.credential.value)
  {
    InterruptedAt(w, s);
    assert LocalOk(w, s.p, w.procs[s.p]);
    assert forall q :: q in w.procs && q != s.p ==> !w.procs[q].Holding();
  }

  /** What can still happen then, beside the answers to requests already sent. */
  lemma QuarantineSteps(w: World, s: Step, c: Credential)
    requires Quarantined(w, c) && Enabled(w, s) && !s.SeedWrite? && !s.Serve?
    ensures s.Spawn? || s.Acquire? || s.GiveUp? || s.ReadCredential? || s.ReadMarker? || s.Release? || s.Crash?
    ensures s.ReadMarker? ==> w.procs[s.p].c == c
  {
  }

  lemma QuarantineStep(w: World, s: Step, c: Credential)
    requires Quarantined(w, c) && Enabled(w, s) && !s.SeedWrite?
    ensures !s.Send? && Quarantined(Do(w, s), c)
    ensures Do(w, s).marker == w.marker && Do(w, s).published == w.published
  {
    hide Classify;
    if !s.Serve? {
      QuarantineSteps(w, s, c);
    }
  }

  /**
   * Quarantine is absorbing: until a seed writes, no later step of any run sends a request
   * or changes the credential, the marker or the published copy.
   */
  lemma {:induction false} QuarantineAbsorbs(ws: seq<World>, ss: seq<Step>, c: Credential, k: nat)
    requires IsRun(ws, ss) && Quarantined(ws[0], c) && k < |ws|
    requires forall i :: 0 <= i < |ss| ==> !ss[i].SeedWrite?
    ensures Quarantined(ws[k], c) && ws[k].marker == ws[0].marker && ws[k].published == ws[0].published
    ensures forall i :: 0 <= i < k ==> !ss[i].Send?
  {
    if k > 0 {
      QuarantineAbsorbs(ws, ss, c, k - 1);
      QuarantineStep(ws[k - 1], ss[k - 1], c);
    }
  }

  /**
   * Crash recovery tells a durably committed exchange from an unfinished one: the written
   * credential is recognised as committed exactly when it can be used and a token changed.
   */
  lemma CommittedExactlyWhenChanged(before: Credential, reply: Reply)
    requires Usable(before.refresh) && before.access.Some? && reply.Tokens? && reply.access != ""
    ensures Classify(Some(MarkerFor(before)), Updated(before, reply)).Committed? <==>
            Usable(Updated(before, reply).refresh) && Updated(before, reply) != before
    ensures Classify(Some(MarkerFor(before)), before).Quarantine?
  {
  }

  // ----- Seeds -----

  ghost predicate LeadsTo(w: World, s: Step, w': World) {
    Enabled(w, s) && Do(w, s) == w'
  }

  /** A run of one step more. */
  lemma Extend(ws: seq<World>, ss: seq<Step>, s: Step, w': World) returns (ws': seq<World>, ss': seq<Step>)
    requires IsRun(ws, ss) && LeadsTo(ws[|ws| - 1], s, w')
    ensures ws' == ws + [w'] && ss' == ss + [s] && IsRun(ws', ss')
  {
    ws', ss' := ws + [w'], ss + [s];
  }

  lemma SeedWrites(w: World, p: Pid, c: Readable) returns (ws: seq<World>, ss: seq<Step>)
    requires p in w.procs && w.procs[p] == Locked(Seed(c))
    ensures IsRun(ws, ss) && ws[0] == w && |ss| == 2 && ss[0] == SeedWrite(p, Done) && !ss[1].SeedWrite?
    ensures ws[2] == w.Store(c).(marker := None).With(p, SeedPublishing(c))
  {
    ws, ss := Extend([w], [], SeedWrite(p, Done), w.Store(c).With(p, SeedClearing(c)));
    ws, ss := Extend(ws, ss, SeedClear(p, Done), w.Store(c).(marker := None).With(p, SeedPublishing(c)));
  }

  /** The end of a seed that publishes nothing. */
  lemma SeedRun(w: World, p: Pid, c: Readable) returns (ws: seq<World>, ss: seq<Step>)
    requires p in w.procs && w.procs[p] == Locked(Seed(c))
    ensures IsRun(ws, ss) && ws[0] == w && |ss| == 4 && ss[0] == SeedWrite(p, Done)
    ensures forall i :: 1 <= i < |ss| ==> !ss[i].SeedWrite?
    ensures ws[4] == w.Store(c).(marker := None, lock := None).With(p, Finished(Seeded))
  {
    ws, ss := SeedWrites(w, p, c);
    ws, ss := Extend(ws, ss, SeedPublish(p, Done, false), w.Store(c).(marker := None).With(p, Releasing(Seeded)));
    ws, ss := Extend(ws, ss, Release(p, true), w.Store(c).(marker := None, lock := None).With(p, Finished(Seeded)));
  }

  lemma CycleStarts(w: World, q: Pid) returns (ws: seq<World>, ss: seq<Step>)
    requires q !in w.procs && w.lock.None?
    ensures IsRun(ws, ss) && ws[0] == w && |ss| == 2 && ss[0].Spawn? && ss[1].Acquire?
    ensures ws[2] == w.(lock := Some(q)).With(q, Locked(Refresh))
  {
    ws, ss := Extend([w], [], Spawn(q, Refresh), w.With(q, Start(Refresh)));
    ws, ss := Extend(ws, ss, Acquire(q), w.(lock := Some(q)).With(q, Locked(Refresh)));
  }

  /** A refresh cycle over an unmarked credential, up to its decision to refresh. */
  lemma CycleOpens(w: World, q: Pid, c: Readable) returns (ws: seq<World>, ss: seq<Step>)
    requires q !in w.procs && w.credential == Some(c) && w.marker.None? && w.lock.None?
    ensures IsRun(ws, ss) && ws[0] == w && |ss| == 4
    ensures forall i :: 0 <= i < |ss| ==> !ss[i].SeedWrite?
    ensures ws[4] == w.(lock := Some(q)).With(q, Deciding(c))
  {
    var held := w.(lock := Some(q));
    ws, ss := CycleStarts(w, q);
    ws, ss := Extend(ws, ss, ReadCredential(q, true), held.With(q, HasCredential(c)));
    ws, ss := Extend(ws, ss, ReadMarker(q, true), held.With(q, Deciding(c)));
  }

  /** That cycle goes on to mark its attempt. */
  lemma CycleMarks(w: World, q: Pid, c: Readable) returns (ws: seq<World>, ss: seq<Step>)
    requires q !in w.procs && w.credential == Some(c) && w.marker.None? && w.lock.None? && c.access.Some?
    ensures IsRun(ws, ss) && ws[0] == w && |ss| == 6
    ensures forall i :: 0 <= i < |ss| ==> !ss[i].SeedWrite?
    ensures ws[6] == w.(lock := Some(q), marker := Some(MarkerFor(c))).With(q, Sending(c))
  {
    var held := w.(lock := Some(q));
    ws, ss := CycleOpens(w, q, c);
    ws, ss := Extend(ws, ss, Decide(q, false), held.With(q, Beginning(c)));
    ws, ss := Extend(ws, ss, Begin(q, Begun), held.(marker := Some(MarkerFor(c))).With(q, Sending(c)));
  }

  /** And to present the refresh token. */
  lemma CycleRun(w: World, q: Pid, c: Readable) returns (ws: seq<World>, ss: seq<Step>)
    requires q !in w.procs && w.credential == Some(c) && w.marker.None? && w.lock.None? && c.access.Some?
    ensures IsRun(ws, ss) && ws[0] == w && |ss| == 7 && ss[6] == Send(q)
    ensures forall i :: 0 <= i < |ss| ==> !ss[i].SeedWrite?
    ensures q in ws[6].procs && ws[6].procs[q] == Sending(c) && ws[6].MayBeSpent() == w.MayBeSpent()
  {
    ws, ss := CycleMarks(w, q, c);
    ws, ss := Extend(ws, ss, Send(q), Do(ws[6], Send(q)));
  }

  /** Two runs, the second starting where the first ends. */
  lemma Join(ws: seq<World>, ss: seq<Step>, ws': seq<World>, ss': seq<Step>)
    requires IsRun(ws, ss) && IsRun(ws', ss') && ws'[0] == ws[|ws| - 1]
    ensures IsRun(ws + ws'[1..], ss + ss')
  {
    var joined, steps := ws + ws'[1..], ss + ss';
    forall i | 0 <= i < |steps|
      ensures Enabled(joined[i], steps[i]) && joined[i + 1] == Do(joined[i], steps[i])
    {
      if i >= |ss| {
        assert joined[i] == ws'[i - |ss|] && joined[i + 1] == ws'[i - |ss| + 1];
      }
    }
  }

  /** A seed that stores a spent token leads to a cycle that presents it. */
  lemma SpentSeedIsPresented(w: World, p: Pid, q: Pid) returns (ws: seq<World>, ss: seq<Step>)
    requires Inv(w) && p in w.procs && w.procs[p].Locked? && w.procs[p].op.Seed? && q !in w.procs
    requires Usable(w.procs[p].op.login.refresh) && w.procs[p].op.login.access.Some?
    requires !Unspent(w, w.procs[p].op.login)
    ensures IsRun(ws, ss) && ws[0] == w && ss != [] && ss[0] == SeedWrite(p, Done)
    ensures FreshLogins(ws, ss, 1) && !PresentsOnlyUnspent(ws, ss)
  {
    var seedWorlds, seedSteps := SeedRun(w, p, w.procs[p].op.login);
    var cycleWorlds, cycleSteps := CycleRun(seedWorlds[4], q, w.procs[p].op.login);
    Join(seedWorlds, seedSteps, cycleWorlds, cycleSteps);
    ws, ss := seedWorlds + cycleWorlds[1..], seedSteps + cycleSteps;
    assert ss[10] == Send(q) && ws[10] == cycleWorlds[6];
    assert w.MayBeSpent() == ws[10].MayBeSpent();
  }

  /**
   * A seed is safe exactly when nobody has presented its refresh token: then, and only then,
   * no run that continues from its write presents a spent token.
   */
  lemma SeedSafeExactlyWhenUnspent(w: World, p: Pid, q: Pid)
    requires Inv(w) && p in w.procs && w.procs[p].Locked? && w.procs[p].op.Seed? && q !in w.procs
    requires Usable(w.procs[p].op.login.refresh) && w.procs[p].op.login.access.Some?
    ensures Unspent(w, w.procs[p].op.login) <==>
            forall ws: seq<World>, ss: seq<Step> ::
              IsRun(ws, ss) && ws[0] == w && ss != [] && ss[0] == SeedWrite(p, Done) && FreshLogins(ws, ss, 1)
              ==> PresentsOnlyUnspent(ws, ss)
  {
    if Unspent(w, w.procs[p].op.login) {
      forall ws: seq<World>, ss: seq<Step>
        | IsRun(ws, ss) && ws[0] == w && ss != [] && ss[0] == SeedWrite(p, Done) && FreshLogins(ws, ss, 1)
        ensures PresentsOnlyUnspent(ws, ss)
      {
        forall i | 0 <= i < |ss| && ss[i].Send?
          ensures Unspent(ws[i], ws[i].procs[ss[i].p].c)
        {
          InvAlongRun(ws, ss, 0, i);
          assert LocalOk(ws[i], ss[i].p, ws[i].procs[ss[i].p]);
        }
      }
    } else {
      var ws, ss := SpentSeedIsPresented(w, p, q);
    }
  }
}
