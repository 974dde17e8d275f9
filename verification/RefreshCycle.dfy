/**
 * What one refresh cycle and one seed do to the three durable cells of a home, as functions of how
 * their calls go, and when a home needs a new login.
 */
module RefreshCycle {
  import opened Options
  import opened RefreshProtocol

  datatype Cells = Cells(credential: Option<Credential>, marker: Option<Marker>, published: Option<string>)

  /** How a program lets go of the lock: by releasing it, by ending without that, or by dying with it. */
  datatype Departure = Releases | KeepsLock | Dies

  /**
   * How each fallible call of a cycle goes; `answer` is what the provider does with the request, if
   * anything. A cycle that dies between two calls leaves the cells of one whose next call fails.
   */
  datatype Luck = Luck(
    credentialReads: bool, markerReads: bool, clearCommitted: Outcome, stillFresh: bool, begun: BeginOutcome,
    answer: Option<(Reply, bool)>, clearRejected: Outcome, write: Outcome, clearDone: Outcome, publish: Outcome,
    departs: Departure)

  datatype SeedLuck = SeedLuck(write: Outcome, clear: Outcome, publish: Outcome, hasExpiry: bool, departs: Departure)

  /** What a cycle or a seed comes to; `sent` says whether the refresh token was presented. */
  datatype Effect = Effect(cells: Cells, ok: bool, sent: bool)

  /** A call that throws may already have taken effect. */
  function Left<T>(outcome: Outcome, before: T, after: T): T {
    if outcome.NoEffect? then before else after
  }

  // ----- The cycle -----

  function PublishEffect(s: Cells, c: Credential, outcome: Outcome): Effect {
    Effect(s.(published := Left(outcome, s.published, c.access)), outcome.Done?, false)
  }

  /** The new tokens are stored, then the marker is cleared, then published. */
  function CommitEffect(s: Cells, updated: Credential, luck: Luck): Effect {
    var stored := s.(credential := Left(luck.write, s.credential, Some(updated)));
    var cleared := stored.(marker := Left(luck.clearDone, s.marker, None));
    if !luck.write.Done? then Effect(stored, false, false)
    else if !luck.clearDone.Done? then Effect(cleared, false, false)
    else PublishEffect(cleared, updated, luck.publish)
  }

  function AnswerEffect(s: Cells, c: Credential, luck: Luck): Effect {
    match luck.answer
    case Some((Tokens(access, refresh), _)) => CommitEffect(s, Updated(c, luck.answer.value.0), luck)
    case Some((NotConsumed, _)) => Effect(s.(marker := Left(luck.clearRejected, s.marker, None)), false, false)
    case _ => Effect(s, false, false)
  }

  function AttemptEffect(s: Cells, c: Credential, luck: Luck): Effect
    requires c.refresh.Some?
  {
    if c.access.None? then Effect(s, false, false)
    else
      match luck.begun
      case Begun => AnswerEffect(s.(marker := Some(MarkerFor(c))), c, luck).(sent := true)
      case Refused => Effect(s, false, false)
      case LeftTorn => Effect(s.(marker := Some(Torn)), false, false)
      case MarkedButFailed => Effect(s.(marker := Some(MarkerFor(c))), false, false)
  }

  /** A credential that is still fresh is only published. */
  function RefreshEffect(s: Cells, c: Credential, luck: Luck): Effect
    requires c.refresh.Some?
  {
    if luck.stillFresh && Usable(c.access) then PublishEffect(s, c, luck.publish) else AttemptEffect(s, c, luck)
  }

  /** The marker is read before anything else. */
  function RecoverEffect(s: Cells, c: Credential, luck: Luck): Effect {
    if !luck.markerReads then Effect(s, false, false)
    else
      match Classify(s.marker, c)
      case NoAttempt => Effect(s, true, false)
      case Quarantine => Effect(s, false, false)
      case Committed =>
        Effect(s.(marker := Left(luck.clearCommitted, s.marker, None)), luck.clearCommitted.Done?, false)
  }

  predicate CanRead(s: Cells) {
    s.credential.Some? && Usable(s.credential.value.refresh)
  }

  function CycleEffect(s: Cells, luck: Luck): Effect {
    if !luck.credentialReads || !CanRead(s) then Effect(s, false, false)
    else
      var recovered := RecoverEffect(s, s.credential.value, luck);
      if recovered.ok then RefreshEffect(recovered.cells, s.credential.value, luck) else recovered
  }

  // ----- The seed -----

  function SeedEffect(s: Cells, login: Credential, luck: SeedLuck): Effect {
    var stored := s.(credential := Left(luck.write, s.credential, Some(login)));
    var cleared := stored.(marker := Left(luck.clear, s.marker, None));
    if !luck.write.Done? then Effect(stored, false, false)
    else if !luck.clear.Done? then Effect(cleared, false, false)
    else if !luck.hasExpiry || !Usable(login.access) then Effect(cleared, true, false)
    else PublishEffect(cleared, login, luck.publish)
  }

  // ----- What they come to, call by call -----

  /** The credential file holds a refresh token that is not empty. */
  predicate HasToken(s: Cells) {
    s.credential.Some? && s.credential.value.refresh.Some? && s.credential.value.refresh.value != ""
  }

  predicate NotEmpty(token: Option<string>) {
    token.Some? && token.value != ""
  }

  /** The marker lets a cycle go on: there is none, or it is of an exchange that was committed, and is cleared. */
  predicate Opens(s: Cells, luck: Luck) {
    && luck.credentialReads && HasToken(s) && luck.markerReads
    && (s.marker.None? || (Classify(s.marker, s.credential.value).Committed? && luck.clearCommitted.Done?))
  }

  predicate StillFresh(s: Cells, luck: Luck) {
    HasToken(s) && luck.stillFresh && NotEmpty(s.credential.value.access)
  }

  predicate Sends(s: Cells, luck: Luck) {
    Opens(s, luck) && !StillFresh(s, luck) && s.credential.value.access.Some? && luck.begun.Begun?
  }

  predicate GetsTokens(s: Cells, luck: Luck) {
    Sends(s, luck) && luck.answer.Some? && luck.answer.value.0.Tokens?
  }

  /** A cycle succeeds when it published, and it publishes only what is stored and unmarked. */
  ghost predicate CycleOutcome(before: Cells, luck: Luck, ok: bool, after: Cells) {
    && (ok <==>
          || (Opens(before, luck) && StillFresh(before, luck) && luck.publish.Done?)
          || (GetsTokens(before, luck) && luck.write.Done? && luck.clearDone.Done? && luck.publish.Done?))
    && after.credential ==
       (if GetsTokens(before, luck) && !luck.write.NoEffect? then
          var (current, reply) := (before.credential.value, luck.answer.value.0);
          Some(Credential(if reply.refresh.Some? then reply.refresh else current.refresh, Some(reply.access)))
        else before.credential)
    && after.published ==
       (if Opens(before, luck) && StillFresh(before, luck) && !luck.publish.NoEffect? then
          before.credential.value.access
        else if GetsTokens(before, luck) && luck.write.Done? && luck.clearDone.Done? && !luck.publish.NoEffect? then
          Some(luck.answer.value.0.access)
        else before.published)
    && MarkerOutcome(before, luck, after)
  }

  /** A marker that names the credential stays from the mark to the clear, and a cut-off one stays for good. */
  ghost predicate MarkerOutcome(before: Cells, luck: Luck, after: Cells) {
    if !Opens(before, luck) then
      after.marker ==
      if luck.credentialReads && HasToken(before) && luck.markerReads && luck.clearCommitted.LateFailure?
         && Classify(before.marker, before.credential.value).Committed?
      then None else before.marker
    else if StillFresh(before, luck) || before.credential.value.access.None? || luck.begun.Refused? then
      after.marker.None?
    else if luck.begun.LeftTorn? then after.marker == Some(Torn)
    else if GetsTokens(before, luck) then
      after.marker ==
      if luck.write.Done? && !luck.clearDone.NoEffect? then None else Some(MarkerFor(before.credential.value))
    else if Sends(before, luck) && luck.answer.Some? && luck.answer.value.0.NotConsumed? then
      after.marker == if luck.clearRejected.NoEffect? then Some(MarkerFor(before.credential.value)) else None
    else after.marker == Some(MarkerFor(before.credential.value))
  }

  lemma CycleExactly(s: Cells, luck: Luck)
    ensures CycleOutcome(s, luck, CycleEffect(s, luck).ok, CycleEffect(s, luck).cells)
    ensures CycleEffect(s, luck).sent <==> Sends(s, luck)
  {
  }

  /** A seed succeeds when login, cleared marker and, with a known expiry, the published token are in place. */
  ghost predicate SeedOutcome(before: Cells, login: Credential, luck: SeedLuck, ok: bool, after: Cells) {
    var publishes := luck.hasExpiry && NotEmpty(login.access);
    && (ok <==> luck.write.Done? && luck.clear.Done? && (publishes ==> luck.publish.Done?))
    && (ok ==> after.credential == Some(login) && after.marker.None?)
    && (ok && publishes ==> after.published == login.access)
    && after.credential == (if luck.write.NoEffect? then before.credential else Some(login))
    && after.marker == (if luck.write.Done? && !luck.clear.NoEffect? then None else before.marker)
    && after.published ==
       if luck.write.Done? && luck.clear.Done? && publishes && !luck.publish.NoEffect? then login.access
       else before.published
  }

  lemma SeedExactly(s: Cells, login: Credential, luck: SeedLuck)
    ensures SeedOutcome(s, login, luck, SeedEffect(s, login, luck).ok, SeedEffect(s, login, luck).cells)
  {
  }

  // ----- When a home needs a new login -----

  /** The credential cannot be read or marked, or an ambiguous marker stands in the way. */
  predicate Stuck(s: Cells) {
    !CanRead(s) || s.credential.value.access.None? || Classify(s.marker, s.credential.value).Quarantine?
  }

  /** Nothing fails, and the provider answers without a new refresh token. */
  function Smooth(stillFresh: bool, access: string): Luck {
    Luck(true, true, Done, stillFresh, Begun, Some((Tokens(access, None), false)), Done, Done, Done, Done, Releases)
  }

  /** A home is stuck exactly when no cycle can succeed on it, however its calls go; else a smooth one does. */
  lemma StuckExactly(s: Cells)
    ensures Stuck(s) <==> forall luck :: !CycleEffect(s, luck).ok
    ensures !Stuck(s) ==> CycleEffect(s, Smooth(false, "a")).ok
  {
    if !Stuck(s) {
      assert CycleEffect(s, Smooth(false, "a")).ok;
    }
  }

  /** A cycle on a stuck home presents nothing and changes nothing. */
  lemma StuckStays(s: Cells, luck: Luck)
    requires Stuck(s)
    ensures CycleEffect(s, luck) == Effect(s, false, false)
  {
  }

  /** The mark stays although the credential it names does, or what was stored cannot be used. */
  predicate Strands(c: Credential, luck: Luck)
    requires c.refresh.Some? && c.access.Some?
  {
    match luck.begun
    case Refused => false
    case LeftTorn => true
    case MarkedButFailed => true
    case Begun =>
      match luck.answer
      case Some((Tokens(access, refresh), _)) =>
        var updated := Updated(c, luck.answer.value.0);
        || luck.write.NoEffect?
        || !Usable(updated.refresh)
        || ((luck.write.LateFailure? || luck.clearDone.NoEffect?) && (updated == c || !Usable(updated.access)))
      case Some((NotConsumed, _)) => luck.clearRejected.NoEffect?
      case _ => true
  }

  /**
   * A cycle strands a home that was not stuck exactly when it attempts a refresh whose mark outlives
   * an exchange that did not change the stored credential, or changed it to one without a refresh token.
   */
  lemma StrandedExactly(s: Cells, luck: Luck)
    requires !Stuck(s)
    ensures var c := s.credential.value;
      Stuck(CycleEffect(s, luck).cells) <==>
        && luck.credentialReads && RecoverEffect(s, c, luck).ok
        && !(luck.stillFresh && Usable(c.access)) && Strands(c, luck)
  {
    var c := s.credential.value;
    if luck.credentialReads && RecoverEffect(s, c, luck).ok {
      var cleared := RecoverEffect(s, c, luck).cells;
      assert cleared == s.(marker := None);
    }
  }

  /**
   * Once the tokens of an exchange are stored, nothing that follows loses them: whatever failed, the
   * next smooth cycle publishes them, unless they cannot be used or are what was presented.
   */
  lemma StoredIsPublished(s: Cells, first: Luck)
    requires first.answer.Some? && first.answer.value.0.Tokens? && first.answer.value.0.access != ""
    requires CycleEffect(s, first).sent && !first.write.NoEffect?
    ensures var after := CycleEffect(s, first).cells;
      !Stuck(after) ==>
        var next := CycleEffect(after, Smooth(true, "a"));
        next.ok && next.cells.published == Some(first.answer.value.0.access) && next.cells.marker.None?
  {
  }

  /** A seed that stores and clears makes every home usable, if its login is. */
  lemma SeedRepairs(s: Cells, login: Credential, luck: SeedLuck)
    requires luck.write.Done? && !luck.clear.NoEffect?
    ensures Stuck(SeedEffect(s, login, luck).cells) <==> !Usable(login.refresh) || login.access.None?
  {
  }

  // ----- Cycles and seeds, one after the other -----

  /** The provider may also answer a request whose sender is gone. */
  datatype Act =
    | Cycling(luck: Luck)
    | Seeding(login: Credential, seedLuck: SeedLuck)
    | Serving(token: string, verdict: Reply, spend: bool)

  /** The cells, and every refresh token that was presented. */
  datatype Ledger = Ledger(cells: Cells, presented: set<string>)

  const NEW_LEDGER: Ledger := Ledger(Cells(None, None, None), {})

  /** What an honest provider can do with a request that presents the token of `c`. */
  predicate Honest(presented: set<string>, c: Credential, verdict: Reply, spend: bool)
    requires c.refresh.Some?
  {
    && (verdict.NotConsumed? ==> !spend)
    && (verdict.Tokens? ==>
          && verdict.access != ""
          && (spend <==> verdict.refresh.Some? && verdict.refresh.value != c.refresh.value)
          && (spend ==> verdict.refresh.value !in presented + {c.refresh.value}))
  }

  /** The provider is honest, and a login was never presented. */
  predicate Possible(h: Ledger, act: Act) {
    match act
    case Cycling(luck) =>
      luck.answer.Some? && CanRead(h.cells) ==>
        Honest(h.presented, h.cells.credential.value, luck.answer.value.0, luck.answer.value.1)
    case Seeding(login, _) => login.refresh.Some? ==> login.refresh.value !in h.presented
    case Serving(_, _, _) => true
  }

  /** The refresh token that a cycle presented, if it did. */
  function Presented(before: Cells, e: Effect): set<string> {
    if e.sent && CanRead(before) then {before.credential.value.refresh.value} else {}
  }

  /** What is not possible does not happen. */
  function AfterAct(h: Ledger, act: Act): Ledger {
    if !Possible(h, act) then h
    else
      match act
      case Cycling(luck) =>
        var e := CycleEffect(h.cells, luck);
        Ledger(e.cells, h.presented + Presented(h.cells, e))
      case Seeding(login, luck) => h.(cells := SeedEffect(h.cells, login, luck).cells)
      case Serving(_, _, _) => h
  }

  function AfterActs(h: Ledger, acts: seq<Act>): Ledger {
    if acts == [] then h else AfterAct(AfterActs(h, acts[..|acts| - 1]), acts[|acts| - 1])
  }

  /** The verdict does not fit what the provider did with the token, or hands one out a second time. */
  ghost predicate Dishonest(presented: set<string>, token: string, verdict: Reply, spend: bool) {
    || (verdict.NotConsumed? && spend)
    || (verdict.Tokens? && verdict.access == "")
    || (verdict.Tokens? && !spend && verdict.refresh.Some? && verdict.refresh.value != token)
    || (verdict.Tokens? && spend
        && (verdict.refresh.None? || verdict.refresh.value == token || verdict.refresh.value in presented))
  }

  /** The cycle has an answer that no honest provider gives, or the login was presented before. */
  ghost predicate Excluded(before: Ledger, act: Act) {
    match act
    case Cycling(luck) =>
      && luck.answer.Some? && HasToken(before.cells)
      && Dishonest(before.presented, before.cells.credential.value.refresh.value, luck.answer.value.0,
                   luck.answer.value.1)
    case Seeding(login, _) => login.refresh.Some? && login.refresh.value in before.presented
    case Serving(_, _, _) => false
  }

  /** What one act has done, and whether it succeeded. */
  ghost predicate Happened(before: Ledger, act: Act, ok: bool, after: Ledger) {
    if Excluded(before, act) then !ok && after == before
    else
      match act
      case Cycling(luck) =>
        && CycleOutcome(before.cells, luck, ok, after.cells)
        && after.presented ==
           before.presented +
             if Sends(before.cells, luck) then {before.cells.credential.value.refresh.value} else {}
      case Seeding(login, luck) =>
        SeedOutcome(before.cells, login, luck, ok, after.cells) && after.presented == before.presented
      case Serving(_, _, _) => !ok && after == before
  }

  lemma ActExactly(h: Ledger, act: Act, ok: bool)
    requires ok ==
      (Possible(h, act) &&
       match act
       case Cycling(luck) => CycleEffect(h.cells, luck).ok
       case Seeding(login, luck) => SeedEffect(h.cells, login, luck).ok
       case Serving(_, _, _) => false)
    ensures Happened(h, act, ok, AfterAct(h, act))
  {
    hide CycleEffect;
    hide SeedEffect;
    hide CycleOutcome;
    hide SeedOutcome;
    hide Opens;
    match act
    case Cycling(luck) => CycleExactly(h.cells, luck); SendsReadable(h.cells, luck);
    case Seeding(login, luck) => SeedExactly(h.cells, login, luck);
    case Serving(_, _, _) =>
  }

  lemma SendsReadable(s: Cells, luck: Luck)
    ensures Sends(s, luck) ==> CanRead(s)
  {
  }

  /** Until somebody seeds it, a stuck home presents nothing and stays as it is. */
  lemma {:induction false} StuckUntilSeeded(h: Ledger, acts: seq<Act>)
    requires Stuck(h.cells) && forall i :: 0 <= i < |acts| ==> !acts[i].Seeding?
    ensures AfterActs(h, acts) == h
  {
    if acts != [] {
      var init, last := acts[..|acts| - 1], acts[|acts| - 1];
      StuckUntilSeeded(h, init);
      if last.Cycling? {
        hide CycleEffect;
        StuckStays(h.cells, last.luck);
      }
    }
  }
}
