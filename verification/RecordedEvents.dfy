/**
 * What one recorded event does to the tables, in terms of the event alone; and the counters of the
 * receipts, which account for every accepted delivery once.
 */
module RecordedEvents {
  import opened Options
  import opened HookArchive
  import opened ArchiveInvariants
  import opened PromptPosition
  import P = PromptInArchive

  /** The round is of the event's thread and device. */
  predicate Belongs(sessions: seq<Key>, r: Round, e: Event) {
    r.session < |sessions| && sessions[r.session] == e.thread && r.who.device == e.who.device
  }

  lemma {:induction false} OnlyRound(rounds: seq<Round>, i: nat)
    requires forall j, k :: 0 <= j < k < |rounds| ==> rounds[j].prompt != rounds[k].prompt
    requires i < |rounds|
    ensures FindRound(rounds, rounds[i].prompt) == Some(i)
  {
    var found := FindRound(rounds, rounds[i].prompt);
    assert found.Some? && rounds[found.value].prompt == rounds[i].prompt;
  }

  // ----- Terminal events -----

  /** A pending round ends, a completed one takes over a later stop with another text, any other stays. */
  ghost predicate Answered(before: Response, e: Event, after: Response) {
    if before.state == Pending then Says(after, e, e)
    else if before.state == Complete && e.kind.Stop? && before.completedAt.Some? && e.at > before.completedAt.value
            && (PlainText(e) != before.text || e.truncated != before.truncated) then
      Says(after, e, e)
    else after == before
  }

  lemma RespondAnswers(before: Response, e: Event)
    requires !e.kind.Prompt?
    ensures Answered(before, e, Respond(before, RowOf(e)))
  {
  }

  /** It is refused when it does not belong, when a row of its prompt waits for another owner, or without room. */
  lemma WhenAccepted(t: Tables, e: Event, i: nat)
    requires Inv(t) && !e.kind.Prompt? && i < |t.rounds| && t.rounds[i].prompt == e.prompt
    requires FindRound(t.rounds, e.prompt) == Some(i)
    ensures Record(t, e).1.Accepted? ==> Belongs(t.sessions, t.rounds[i], e)
    ensures Belongs(t.sessions, t.rounds[i], e) && (e.prompt, TerminalSlot) !in t.inbox && HasCapacity(t.inbox, e) ==>
      Record(t, e).1.Accepted?
  {
    hide FoldTerminal;
    P.RecordTerminalIs(t, e);
    hide Record;
    hide HasCapacity;
    if (e.prompt, TerminalSlot) in t.receipts {
      assert ReceiptOk(t.sessions, t.rounds, e.prompt, TerminalSlot, t.receipts[(e.prompt, TerminalSlot)]);
    }
  }

  /** A terminal event of a prompt that has its round changes the response of that round only. */
  lemma TerminalRecorded(t: Tables, e: Event, i: nat)
    requires Inv(t) && !e.kind.Prompt? && i < |t.rounds| && t.rounds[i].prompt == e.prompt
    ensures var (done, outcome) := Record(t, e);
      && (outcome.Accepted? ==> Belongs(t.sessions, t.rounds[i], e))
      && (Belongs(t.sessions, t.rounds[i], e) && (e.prompt, TerminalSlot) !in t.inbox && HasCapacity(t.inbox, e) ==>
            outcome.Accepted?)
      && (!outcome.Accepted? ==> done == t)
      && (outcome.Accepted? ==>
            && done.sessions == t.sessions && |done.rounds| == |t.rounds|
            && Answered(t.rounds[i].response, e, done.rounds[i].response)
            && done.rounds == t.rounds[i := t.rounds[i].(response := done.rounds[i].response)])
  {
    hide Respond;
    hide Answered;
    OnlyRound(t.rounds, i);
    RespondAnswers(t.rounds[i].response, e);
    P.TerminalRounds(t, e);
    WhenAccepted(t, e, i);
  }

  /** The row of an event that waits for its prompt. */
  ghost predicate Waits(t: Tables, e: Event, row: InboxRow) {
    && row.kind == e.kind && row.thread == e.thread && row.at == e.at && row.text == e.text && row.bytes == e.bytes
    && row.truncated == e.truncated && row.failureCode == e.failureCode && row.who == e.who && row.duplicates == 0
  }

  /** A row that waits takes over a later stop with another content, and counts every further delivery. */
  ghost predicate Waited(before: InboxRow, e: Event, after: InboxRow) {
    var takes := before.kind.Stop? && e.kind.Stop? && e.at > before.at
      && (before.text != e.text || before.truncated != e.truncated || before.failureCode != e.failureCode);
    && after.kind == before.kind && after.thread == before.thread && after.who == before.who
    && after.failureCode == before.failureCode && after.duplicates == before.duplicates + 1
    && after.at == (if takes then e.at else before.at) && after.text == (if takes then e.text else before.text)
    && after.bytes == (if takes then e.bytes else before.bytes)
    && after.truncated == (if takes then e.truncated else before.truncated)
  }

  /** A terminal event before its prompt waits in the inbox, and changes nothing else. */
  lemma TerminalKept(t: Tables, e: Event)
    requires Inv(t) && !e.kind.Prompt? && forall i :: 0 <= i < |t.rounds| ==> t.rounds[i].prompt != e.prompt
    ensures var key, (done, outcome) := (e.prompt, TerminalSlot), Record(t, e);
      && (!outcome.Accepted? ==> done == t)
      && (outcome.Accepted? ==> key in done.inbox && done == t.(inbox := t.inbox[key := done.inbox[key]]))
      && (key !in t.inbox ==> (outcome.Accepted? <==> HasCapacity(t.inbox, e)))
      && (key in t.inbox ==>
            (outcome.Accepted? <==> t.inbox[key].thread == e.thread && t.inbox[key].who.device == e.who.device))
      && (outcome.Accepted? && key !in t.inbox ==> Waits(t, e, done.inbox[key]))
      && (outcome.Accepted? && key in t.inbox ==> Waited(t.inbox[key], e, done.inbox[key]))
  {
    hide FoldTerminal;
    hide HasCapacity;
    P.NoReceiptYet(t, e.prompt, TerminalSlot);
    P.RecordTerminalIs(t, e);
    hide Record;
    P.PersistRounds(t, e);
    P.FoldNowhere(Persist(t, e).0, e.prompt);
  }

  // ----- Prompts -----

  /** The prompt ended the round that was still pending in its session. */
  ghost predicate EndedBy(before: Response, at: nat, after: Response) {
    after == Response(before.text, before.bytes, before.truncated, Unavailable, Some("unavailable"), Some(at))
  }

  /** The round of a new prompt says what the prompt says. */
  ghost predicate Opened(e: Event, r: Round) {
    && r.prompt == e.prompt && e.text.Some? && r.promptText == e.text.value && r.promptBytes == e.bytes
    && r.promptTruncated == e.truncated && r.promptAt == e.at && r.who == e.who
  }

  /** The response that a waiting row gives its round, or none. */
  ghost predicate OpensWith(row: Option<InboxRow>, r: Response) {
    match row
    case None => r == Response("", 0, false, Pending, None, None)
    case Some(w) =>
      && r.text == (if w.text.Some? then w.text.value else "") && r.bytes == w.bytes && r.truncated == w.truncated
      && r.completedAt == Some(w.at)
      && (w.kind.Stop? ==> r.state == Complete && r.failureCode == None)
      && (w.kind.Failure? ==> r.state == Failed && (w.failureCode.Some? ==> r.failureCode == w.failureCode))
      && (w.kind.SessionEnd? ==> r.state == Unavailable && r.failureCode == Some("session_end"))
  }

  /** What waits for the prompt, from the thread and device of the prompt. */
  ghost function WaitingFor(t: Tables, e: Event): Option<InboxRow> {
    var key := (e.prompt, TerminalSlot);
    if key in t.inbox && t.inbox[key].thread == e.thread && t.inbox[key].who.device == e.who.device then
      Some(t.inbox[key])
    else None
  }

  ghost predicate SameSession(t: Tables, r: Round, e: Event) {
    r.session < |t.sessions| && t.sessions[r.session] == e.thread
  }

  /** The rounds that were there: the pending one of the prompt's session is ended, all others are as they were. */
  ghost predicate Superseded(t: Tables, e: Event, rounds: seq<Round>) {
    && |t.rounds| <= |rounds|
    && forall i :: 0 <= i < |t.rounds| ==>
         if SameSession(t, t.rounds[i], e) && t.rounds[i].State() == Pending then
           rounds[i] == t.rounds[i].(response := rounds[i].response)
           && EndedBy(t.rounds[i].response, e.at, rounds[i].response)
         else rounds[i] == t.rounds[i]
  }

  lemma PromptStored(t: Tables, e: Event)
    requires Inv(t) && e.kind.Prompt? && FindRound(t.rounds, e.prompt).None?
    ensures var kept := Persist(t, e).0;
      && Persist(t, e).1.Stored? && PromptReady(kept, e.prompt)
      && kept == t.(inbox := t.inbox[(e.prompt, PromptSlot) := RowOf(e)])
      && Record(t, e).0 == FoldTerminal(Prompted(kept, e.prompt), e.prompt).0 && Record(t, e).1.Accepted?
  {
    PersistPrompt(t, e);
    P.NoReceiptYet(t, e.prompt, PromptSlot);
    FoldPromptIs(Persist(t, e).0, e.prompt);
    FoldPromptKeeps(Persist(t, e).0, e.prompt);
    hide FoldTerminal;
    hide Prompted;
    hide FoldPrompt;
  }

  lemma SupersededPlainly(t: Tables, e: Event, session: nat)
    requires RoundsInv(t.sessions, t.rounds)
    requires session == |t.sessions| || (session < |t.sessions| && t.sessions[session] == e.thread)
    requires session == |t.sessions| ==> e.thread !in t.sessions
    ensures Superseded(t, e, Supersede(t.rounds, session, e.at)) && |Supersede(t.rounds, session, e.at)| == |t.rounds|
  {
    var pending := LatestPending(t.rounds, session);
    forall i | 0 <= i < |t.rounds| && SameSession(t, t.rounds[i], e) && t.rounds[i].State() == Pending
      ensures pending == Some(i)
    {
      assert t.rounds[i].session == session;
      OnePending(t.sessions, t.rounds, i, pending.value);
    }
    forall i | 0 <= i < |t.rounds| && pending == Some(i)
      ensures SameSession(t, t.rounds[i], e) && t.rounds[i].State() == Pending
    {
      assert t.rounds[i].session < |t.sessions|;
    }
  }

  /** A session has at most one pending round. */
  lemma OnePending(sessions: seq<Key>, rounds: seq<Round>, i: nat, j: nat)
    requires RoundsInv(sessions, rounds) && i < |rounds| && j < |rounds| && rounds[i].session == rounds[j].session
    requires rounds[i].State().Pending? && rounds[j].State().Pending?
    ensures i == j
  {
    var rows := OfSession(rounds, rounds[i].session);
    assert SessionInv(rows);
    OfSessionMember(rounds, rounds[i].session, i);
    OfSessionMember(rounds, rounds[j].session, j);
    var k :| 0 <= k < |rows| && rows[k] == rounds[i];
    var l :| 0 <= l < |rows| && rows[l] == rounds[j];
    assert rounds[i].id == i + 1 && rounds[j].id == j + 1;
  }

  /** The rounds once the prompt opened its own, and before anything is folded into it. */
  ghost predicate Opens(t: Tables, e: Event, ready: Tables) {
    && |ready.rounds| == |t.rounds| + 1 && Superseded(t, e, ready.rounds) && t.sessions <= ready.sessions
    && var r := ready.rounds[|t.rounds|];
       && Opened(e, r) && r.id == |t.rounds| + 1
       && r.session < |ready.sessions| && ready.sessions[r.session] == e.thread
       && r.turn == |OfSession(t.rounds, r.session)| + 1
  }

  lemma NewRoundOpens(t: Tables, e: Event, session: nat, sessions: seq<Key>)
    requires RoundsInv(sessions, t.rounds) && e.kind.Prompt?
    ensures var r := NewRound(Supersede(t.rounds, session, e.at), session, e.prompt, RowOf(e));
      && Opened(e, r) && r.id == |t.rounds| + 1 && r.session == session && r.response == UNANSWERED
      && r.turn == |OfSession(t.rounds, session)| + 1
  {
    TurnIsNext(sessions, t.rounds, session, e.at);
    hide OfSession;
    hide MaxTurn;
    hide LatestPending;
  }

  lemma SupersededGrows(t: Tables, e: Event, rounds: seq<Round>, r: Round)
    requires Superseded(t, e, rounds) && |rounds| == |t.rounds|
    ensures Superseded(t, e, rounds + [r])
  {
    assert forall i :: 0 <= i < |rounds| ==> (rounds + [r])[i] == rounds[i];
  }

  lemma PromptRoundsOpen(t: Tables, e: Event, kept: Tables)
    requires RoundsInv(t.sessions, t.rounds) && e.kind.Prompt?
    requires kept == t.(inbox := t.inbox[(e.prompt, PromptSlot) := RowOf(e)])
    ensures var rounds := PromptRounds(kept, e.prompt);
      && |rounds| == |t.rounds| + 1 && Superseded(t, e, rounds)
      && Opened(e, rounds[|t.rounds|]) && rounds[|t.rounds|].id == |t.rounds| + 1
      && rounds[|t.rounds|].session == EnsureSession(kept, e.thread).1
      && rounds[|t.rounds|].response == UNANSWERED
      && rounds[|t.rounds|].turn == |OfSession(t.rounds, rounds[|t.rounds|].session)| + 1
  {
    var (based, session) := EnsureSession(kept, e.thread);
    EnsureSessionKeeps(kept, e.thread);
    SupersededPlainly(t, e, session);
    NewRoundOpens(t, e, session, based.sessions);
    hide EnsureSession;
    hide RoundsInv;
    var superseded := Supersede(t.rounds, session, e.at);
    var r := NewRound(superseded, session, e.prompt, RowOf(e));
    hide NewRound;
    hide Supersede;
    SupersededGrows(t, e, superseded, r);
    hide Superseded;
  }

  lemma PutAndTaken<K, V>(m: map<K, V>, k: K, v: V)
    ensures m[k := v] - {k} == m - {k}
  {
  }

  lemma PromptFound(kept: Tables, k: Key)
    requires PromptReady(kept, k)
    ensures FindRound(PromptRounds(kept, k), k) == Some(|kept.rounds|)
  {
    PromptRoundsKeep(kept, k);
  }

  lemma SessionOf(sessions: seq<Key>, kept: Tables, thread: Key)
    requires sessions == kept.sessions
    ensures var (based, session) := EnsureSession(kept, thread);
      sessions <= based.sessions && session < |based.sessions| && based.sessions[session] == thread
  {
  }

  lemma PromptedOpens(t: Tables, e: Event, kept: Tables)
    requires RoundsInv(t.sessions, t.rounds) && e.kind.Prompt?
    requires kept == t.(inbox := t.inbox[(e.prompt, PromptSlot) := RowOf(e)])
    ensures Opens(t, e, Prompted(kept, e.prompt))
    ensures Prompted(kept, e.prompt).rounds[|t.rounds|].response == UNANSWERED
  {
    PromptRoundsOpen(t, e, kept);
    SessionOf(t.sessions, kept, e.thread);
    PromptedFields(kept, e.prompt);
    assert kept.inbox[(e.prompt, PromptSlot)].thread == e.thread;
    hide RoundsInv;
    hide Prompted;
    hide PromptRounds;
    hide EnsureSession;
    hide Superseded;
    hide OfSession;
    hide Opened;
    hide Resummarize;
  }

  lemma OpenedRounds(t: Tables, e: Event, kept: Tables)
    requires RoundsInv(t.sessions, t.rounds) && e.kind.Prompt? && PromptReady(kept, e.prompt)
    requires kept == t.(inbox := t.inbox[(e.prompt, PromptSlot) := RowOf(e)])
    ensures var ready := Prompted(kept, e.prompt);
      && Opens(t, e, ready)
      && ready.rounds[|t.rounds|].response == UNANSWERED
      && FindRound(ready.rounds, e.prompt) == Some(|t.rounds|)
      && ready.inbox == t.inbox - {(e.prompt, PromptSlot)}
  {
    hide RoundsInv;
    hide PromptReady;
    PromptedOpens(t, e, kept);
    PromptFound(kept, e.prompt);
    PromptedFields(kept, e.prompt);
    PutAndTaken(t.inbox, (e.prompt, PromptSlot), RowOf(e));
    hide Opens;
    hide Prompted;
    hide PromptRounds;
    hide EnsureSession;
    hide FindRound;
    hide Resummarize;
  }

  lemma TurnIsNext(sessions: seq<Key>, rounds: seq<Round>, session: nat, at: nat)
    requires RoundsInv(sessions, rounds)
    ensures MaxTurn(OfSession(Supersede(rounds, session, at), session)) == |OfSession(rounds, session)|
  {
    SupersedeKeepsRounds(sessions, rounds, session, at);
    MaxTurnIsLength(OfSession(Supersede(rounds, session, at), session));
    var pending := LatestPending(rounds, session);
    if pending.Some? {
      var k := OfSessionUpdate(rounds, pending.value, Ended(rounds[pending.value], at), session);
    }
  }

  lemma SupersededBehind(t: Tables, e: Event, rounds: seq<Round>, r: Round)
    requires Superseded(t, e, rounds) && |rounds| == |t.rounds| + 1
    ensures Superseded(t, e, rounds[|t.rounds| := r])
  {
    assert forall i :: 0 <= i < |t.rounds| ==> rounds[|t.rounds| := r][i] == rounds[i];
  }

  /** A row that waits is folded into the round of its prompt if both are of one thread and device. */
  lemma FoldsIfWaiting(t: Tables, e: Event, ready: Tables)
    requires InboxInv(t.sessions, t.rounds, t.inbox, {}) && |ready.rounds| == |t.rounds| + 1
    requires FindRound(ready.rounds, e.prompt) == Some(|t.rounds|) && ready.inbox == t.inbox - {(e.prompt, PromptSlot)}
    requires ready.rounds[|t.rounds|].who.device == e.who.device
    requires Belongs(ready.sessions, ready.rounds[|t.rounds|], e)
    ensures Folds(ready, e.prompt) <==> WaitingFor(t, e).Some?
    ensures Folds(ready, e.prompt) ==>
      && ready.inbox[(e.prompt, TerminalSlot)] == WaitingFor(t, e).value && !WaitingFor(t, e).value.kind.Prompt?
  {
    hide FindRound;
    var key := (e.prompt, TerminalSlot);
    assert key in ready.inbox <==> key in t.inbox;
    if key in t.inbox {
      assert RowWaits(t.sessions, t.rounds, e.prompt, t.inbox[key]);
    }
  }

  lemma OpensWithRow(row: InboxRow)
    requires !row.kind.Prompt?
    ensures OpensWith(Some(row), Respond(UNANSWERED, row))
  {
  }

  lemma FoldsWaiting(t: Tables, e: Event, ready: Tables)
    requires Inv(t) && Opens(t, e, ready) && ready.rounds[|t.rounds|].response == UNANSWERED
    requires FindRound(ready.rounds, e.prompt) == Some(|t.rounds|) && ready.inbox == t.inbox - {(e.prompt, PromptSlot)}
    ensures var done := FoldTerminal(ready, e.prompt).0;
      && Opens(t, e, done) && OpensWith(WaitingFor(t, e), done.rounds[|t.rounds|].response)
  {
    FoldsIfWaiting(t, e, ready);
    hide Inv;
    hide FindRound;
    hide Superseded;
    var r := ready.rounds[|t.rounds|];
    if Folds(ready, e.prompt) {
      var row := WaitingFor(t, e).value;
      FoldedFields(ready, e.prompt);
      OpensWithRow(row);
      SupersededBehind(t, e, ready.rounds, r.(response := Respond(UNANSWERED, row)));
      hide OpensWith;
      hide Respond;
    }
    hide Folds;
    hide FoldTerminal;
    hide WaitingFor;
  }

  /** A new prompt opens the next round of its session, ends the pending one, and takes in what waited for it. */
  lemma PromptRecorded(t: Tables, e: Event)
    requires Inv(t) && e.kind.Prompt? && forall i :: 0 <= i < |t.rounds| ==> t.rounds[i].prompt != e.prompt
    ensures var (done, outcome) := Record(t, e);
      && outcome.Accepted? && |done.rounds| == |t.rounds| + 1
      && Superseded(t, e, done.rounds) && t.sessions <= done.sessions
      && var r := done.rounds[|t.rounds|];
         && Opened(e, r) && r.id == |t.rounds| + 1
         && r.session < |done.sessions| && done.sessions[r.session] == e.thread
         && r.turn == |OfSession(t.rounds, r.session)| + 1
         && OpensWith(WaitingFor(t, e), r.response)
  {
    var kept := Persist(t, e).0;
    PromptStored(t, e);
    OpenedRounds(t, e, kept);
    hide Record;
    hide Persist;
    hide Prompted;
    hide Inv;
    FoldsWaiting(t, e, Prompted(kept, e.prompt));
    hide FoldTerminal;
    hide Superseded;
    hide OpensWith;
  }
}
