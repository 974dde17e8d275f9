/**
 * The receipts and the inbox after one event, the whole effect of an event in its own terms, and
 * the counters of the archive: every accepted delivery is accounted for once, save that the first
 * terminal event of a round that was ended without one counts twice.
 */
module RecordedReceipts {
  import opened Options
  import opened HookArchive
  import opened ArchiveInvariants
  import opened RecordedEvents
  import P = PromptInArchive

  // ----- Receipts and inbox after one event -----

  /** The receipt of a terminal event whose round is there: the first one, a revision or a duplicate. */
  ghost predicate AnswerNoted(t: Tables, e: Event, i: nat, done: Tables)
    requires i < |t.rounds|
  {
    var key := (e.prompt, TerminalSlot);
    && done.inbox == t.inbox && key in done.receipts
    && done.receipts == t.receipts[key := done.receipts[key]]
    && var after := done.receipts[key];
       if key !in t.receipts then
         after == Receipt(e.kind, e.thread, e.who.device, e.at, if t.rounds[i].State() == Pending then 0 else 1, 0)
       else
         var r := t.receipts[key];
         && (done.rounds == t.rounds ==> after == r.(duplicates := r.duplicates + 1))
         && (done.rounds != t.rounds ==> after == r.(kind := Stop, at := e.at, revisions := r.revisions + 1))
  }

  /** A new prompt gets its receipt, and so does the terminal event that waited for it. */
  ghost predicate PromptNoted(t: Tables, e: Event, done: Tables) {
    var key := (e.prompt, TerminalSlot);
    var receipts := t.receipts[(e.prompt, PromptSlot) := Receipt(Prompt, e.thread, e.who.device, e.at, 0, 0)];
    match WaitingFor(t, e)
    case None => done.inbox == t.inbox && done.receipts == receipts
    case Some(w) =>
      && done.inbox == t.inbox - {key}
      && done.receipts == receipts[key := Receipt(w.kind, w.thread, w.who.device, w.at, w.duplicates, 0)]
  }

  /** The receipt of a prompt that came again counts it, and nothing else changes. */
  ghost predicate PromptRepeated(t: Tables, e: Event, done: Tables) {
    var key := (e.prompt, PromptSlot);
    && key in t.receipts
    && done == t.(receipts := t.receipts[key := t.receipts[key].(duplicates := t.receipts[key].duplicates + 1)])
  }

  lemma ResponseTells(rounds: seq<Round>, i: nat, row: InboxRow)
    requires i < |rounds|
    ensures var r := rounds[i].response;
      rounds[i := rounds[i].(response := Respond(r, row))] != rounds <==> r.state.Pending? || Revises(r, row)
  {
    var r := rounds[i].response;
    assert rounds[i := rounds[i].(response := Respond(r, row))][i].response == Respond(r, row);
    if !r.state.Pending? && !Revises(r, row) {
      assert rounds[i].(response := r) == rounds[i];
    }
  }

  /** The fold of a row that was just stored, for a round that is there. */
  lemma FoldNotes(t: Tables, e: Event, i: nat)
    requires !e.kind.Prompt? && i < |t.rounds| && (e.prompt, TerminalSlot) !in t.inbox
    requires FindRound(t.rounds, e.prompt) == Some(i) && Belongs(t.sessions, t.rounds[i], e)
    requires var key := (e.prompt, TerminalSlot);
      key in t.receipts ==> t.receipts[key].kind.Stop? && !t.rounds[i].State().Pending?
    requires t.rounds[i].State().Complete? ==> (e.prompt, TerminalSlot) in t.receipts
    ensures var (done, result) := FoldTerminal(t.(inbox := t.inbox[(e.prompt, TerminalSlot) := RowOf(e)]), e.prompt);
      && AnswerNoted(t, e, i, done)
      && (result.Applied? || result.Revised? <==> done.rounds != t.rounds)
  {
    hide FindRound;
    hide Resummarize;
    var key := (e.prompt, TerminalSlot);
    var kept := t.(inbox := t.inbox[key := RowOf(e)]);
    assert Folds(kept, e.prompt);
    ResponseTells(t.rounds, i, RowOf(e));
    hide Respond;
    assert t.inbox[key := RowOf(e)] - {key} == t.inbox;
  }

  /** What the inbox write of a terminal event does when the round is there. */
  lemma AnswerPersists(t: Tables, e: Event, i: nat)
    requires Inv(t) && !e.kind.Prompt? && i < |t.rounds| && FindRound(t.rounds, e.prompt) == Some(i)
    ensures var key, (kept, persisted) := (e.prompt, TerminalSlot), Persist(t, e);
      && !persisted.Revision?
      && (!persisted.Mismatch? ==> Belongs(t.sessions, t.rounds[i], e))
      && (key in t.receipts ==> !t.rounds[i].State().Pending?)
      && (t.rounds[i].State().Complete? ==> key in t.receipts && t.receipts[key].kind.Stop?)
      && (persisted.Duplicate? ==>
            && key in t.receipts && !t.receipts[key].kind.Stop?
            && var r := t.receipts[key];
               kept == t.(receipts := t.receipts[key := r.(duplicates := r.duplicates + 1)]))
      && (persisted.Stored? ==>
            && (key in t.receipts ==> t.receipts[key].kind.Stop?)
            && key !in t.inbox && kept == t.(inbox := t.inbox[key := RowOf(e)]))
  {
    hide HasCapacity;
    var key := (e.prompt, TerminalSlot);
    assert Receipted(t.rounds, t.receipts, e.prompt);
    if key in t.receipts {
      assert ReceiptOk(t.sessions, t.rounds, e.prompt, TerminalSlot, t.receipts[key]);
    }
    if key in t.inbox {
      assert RowWaits(t.sessions, t.rounds, e.prompt, t.inbox[key]);
    }
  }

  lemma TerminalNoted(t: Tables, e: Event, i: nat)
    requires Inv(t) && !e.kind.Prompt? && i < |t.rounds| && t.rounds[i].prompt == e.prompt && Record(t, e).1.Accepted?
    ensures AnswerNoted(t, e, i, Record(t, e).0)
    ensures var folded := Record(t, e).1.folded;
      folded.Applied? || folded.Revised? <==> Record(t, e).0.rounds != t.rounds
  {
    OnlyRound(t.rounds, i);
    AnswerPersists(t, e, i);
    hide FoldTerminal;
    hide FindRound;
    hide Inv;
    hide Persist;
    if Persist(t, e).1.Stored? {
      FoldNotes(t, e, i);
    }
  }

  lemma PromptedReceipt(t: Tables, e: Event, kept: Tables)
    requires e.kind.Prompt? && (e.prompt, PromptSlot) !in t.receipts
    requires kept == t.(inbox := t.inbox[(e.prompt, PromptSlot) := RowOf(e)])
    ensures Prompted(kept, e.prompt).receipts ==
      t.receipts[(e.prompt, PromptSlot) := Receipt(Prompt, e.thread, e.who.device, e.at, 0, 0)]
  {
    hide PromptRounds;
    hide Resummarize;
  }

  /** The fold of a row that waited for the prompt. */
  lemma FoldNotesWaiting(ready: Tables, k: Key, i: nat)
    requires Folds(ready, k) && FindRound(ready.rounds, k) == Some(i) && ready.rounds[i].response == UNANSWERED
    requires (k, TerminalSlot) !in ready.receipts
    ensures var key, (done, result) := (k, TerminalSlot), FoldTerminal(ready, k);
      var w := ready.inbox[key];
      && result.Applied? && done.inbox == ready.inbox - {key}
      && done.receipts == ready.receipts[key := Receipt(w.kind, w.thread, w.who.device, w.at, w.duplicates, 0)]
  {
    hide Resummarize;
    hide Respond;
    hide FindRound;
  }

  lemma SlotsApart<V>(m: map<(Key, Slot), V>, k: Key)
    requires (k, PromptSlot) !in m
    ensures m - {(k, PromptSlot)} == m
  {
  }

  lemma NoPromptWaits(t: Tables, k: Key)
    requires InboxInv(t.sessions, t.rounds, t.inbox, {})
    ensures (k, PromptSlot) !in t.inbox
  {
  }

  lemma FoldPromptResult(kept: Tables, k: Key, ready: Tables)
    requires (k, PromptSlot) in kept.inbox && FindRound(kept.rounds, k).None? && ready == Prompted(kept, k)
    ensures var result := FoldTerminal(ready, k).1;
      FoldPrompt(kept, k).1 == if result.NoRow? || result.Orphan? then Applied else result
  {
    hide FoldTerminal;
    hide Prompted;
    hide FindRound;
  }

  lemma PromptOutcome(t: Tables, e: Event, kept: Tables)
    requires Inv(t) && e.kind.Prompt? && FindRound(t.rounds, e.prompt).None?
    requires kept == t.(inbox := t.inbox[(e.prompt, PromptSlot) := RowOf(e)])
    ensures Record(t, e).1.Accepted? && Record(t, e).1.folded == FoldPrompt(kept, e.prompt).1
  {
    PromptStored(t, e);
    hide FoldPrompt;
    hide FoldTerminal;
    hide Prompted;
    hide Persist;
    hide Inv;
  }

  lemma NewPromptNoted(t: Tables, e: Event)
    requires Inv(t) && e.kind.Prompt? && FindRound(t.rounds, e.prompt).None?
    ensures PromptNoted(t, e, Record(t, e).0) && Record(t, e).1.Accepted? && Record(t, e).1.folded.Applied?
  {
    var kept := Persist(t, e).0;
    PromptStored(t, e);
    PromptOutcome(t, e, kept);
    OpenedRounds(t, e, kept);
    P.NoReceiptYet(t, e.prompt, PromptSlot);
    P.NoReceiptYet(t, e.prompt, TerminalSlot);
    PromptedReceipt(t, e, kept);
    FoldPromptResult(kept, e.prompt, Prompted(kept, e.prompt));
    NoPromptWaits(t, e.prompt);
    SlotsApart(t.inbox, e.prompt);
    var ready := Prompted(kept, e.prompt);
    hide Record;
    hide Persist;
    hide FoldPrompt;
    hide Prompted;
    FoldsIfWaiting(t, e, ready);
    if Folds(ready, e.prompt) {
      FoldNotesWaiting(ready, e.prompt, |t.rounds|);
    }
    hide Inv;
    hide Superseded;
    hide OfSession;
    hide FindRound;
  }

  lemma RepeatNoted(t: Tables, e: Event, i: nat)
    requires Inv(t) && e.kind.Prompt? && i < |t.rounds| && t.rounds[i].prompt == e.prompt
    ensures var (done, outcome) := Record(t, e);
      && (outcome.Accepted? <==> Belongs(t.sessions, t.rounds[i], e))
      && (outcome.Accepted? ==> PromptRepeated(t, e, done) && outcome.folded.NoRow?)
      && (!outcome.Accepted? ==> done == t && outcome.RolledBack?)
  {
    OnlyRound(t.rounds, i);
    assert Receipted(t.rounds, t.receipts, e.prompt);
    assert ReceiptOk(t.sessions, t.rounds, e.prompt, PromptSlot, t.receipts[(e.prompt, PromptSlot)]);
    hide FindRound;
    hide FoldPrompt;
    hide HasCapacity;
    hide Inv;
  }

  lemma WaitingNoted(t: Tables, e: Event)
    requires Inv(t) && !e.kind.Prompt? && FindRound(t.rounds, e.prompt).None? && Record(t, e).1.Accepted?
    ensures var folded := Record(t, e).1.folded; !folded.Applied? && !folded.Revised?
  {
    P.PersistRounds(t, e);
    hide Persist;
    hide FindRound;
  }

  // ----- The whole effect of an event -----

  /** The round of the event's prompt, if it is there. */
  ghost predicate IsRound(t: Tables, e: Event, i: int) {
    0 <= i < |t.rounds| && t.rounds[i].prompt == e.prompt
  }

  /** A terminal event whose round is there: it responds in that round, and its receipt says how. */
  ghost predicate AnswersRound(t: Tables, e: Event, i: nat, done: Tables)
    requires i < |t.rounds|
  {
    && Belongs(t.sessions, t.rounds[i], e) && done.sessions == t.sessions && |done.rounds| == |t.rounds|
    && Answered(t.rounds[i].response, e, done.rounds[i].response)
    && done.rounds == t.rounds[i := t.rounds[i].(response := done.rounds[i].response)]
    && AnswerNoted(t, e, i, done)
  }

  /** Fewer than 1024 rows wait, and with the event they take at most 16 MiB, at four KiB a row besides the text. */
  ghost predicate HasRoom(inbox: map<(Key, Slot), InboxRow>, e: Event) {
    |inbox| < 1024 && RetainedBytes(inbox, inbox.Keys) + e.bytes + 4096 <= 16 * 1024 * 1024
  }

  lemma RoomExactly(inbox: map<(Key, Slot), InboxRow>, e: Event)
    ensures HasRoom(inbox, e) <==> HasCapacity(inbox, e)
  {
  }

  /** A terminal event without a round: it waits in the inbox, and nothing else changes. */
  ghost predicate KeepsWaiting(t: Tables, e: Event, done: Tables) {
    var key := (e.prompt, TerminalSlot);
    && key in done.inbox && done == t.(inbox := t.inbox[key := done.inbox[key]])
    && (key !in t.inbox ==> HasRoom(t.inbox, e) && Waits(t, e, done.inbox[key]))
    && (key in t.inbox ==> Waited(t.inbox[key], e, done.inbox[key]))
  }

  /** A new prompt: its round opens with what waited for it, and the pending round of the session ends. */
  ghost predicate OpensRound(t: Tables, e: Event, done: Tables) {
    && Opens(t, e, done) && OpensWith(WaitingFor(t, e), done.rounds[|t.rounds|].response) && PromptNoted(t, e, done)
  }

  /** What an accepted event does to the tables. */
  ghost predicate Recorded(t: Tables, e: Event, done: Tables) {
    && SummariesInv(done.rounds, done.summaries)
    && (forall i :: IsRound(t, e, i) ==>
          if e.kind.Prompt? then Belongs(t.sessions, t.rounds[i], e) && PromptRepeated(t, e, done)
          else AnswersRound(t, e, i, done))
    && ((forall i :: !IsRound(t, e, i)) ==> if e.kind.Prompt? then OpensRound(t, e, done) else KeepsWaiting(t, e, done))
  }

  /** The receipt of the event's slot is that of a failure or a session end, and makes it a duplicate. */
  ghost predicate Silenced(t: Tables, e: Event) {
    !e.kind.Prompt? && (e.prompt, TerminalSlot) in t.receipts && !t.receipts[(e.prompt, TerminalSlot)].kind.Stop?
  }

  /** The round of the prompt, or what waits for it, is of another thread or device. */
  ghost predicate Foreign(t: Tables, e: Event) {
    var key := (e.prompt, TerminalSlot);
    || (exists i :: IsRound(t, e, i) && !Belongs(t.sessions, t.rounds[i], e))
    || (!e.kind.Prompt? && key in t.inbox && !Silenced(t, e)
        && !(t.inbox[key].thread == e.thread && t.inbox[key].who.device == e.who.device))
  }

  /** There is no room to keep the terminal event. */
  ghost predicate NoRoom(t: Tables, e: Event) {
    !e.kind.Prompt? && !Silenced(t, e) && (e.prompt, TerminalSlot) !in t.inbox && !HasRoom(t.inbox, e)
  }

  lemma RoundIsFound(t: Tables, e: Event)
    requires RowsInv(t.sessions, t.rounds)
    ensures FindRound(t.rounds, e.prompt).None? <==> forall i :: !IsRound(t, e, i)
    ensures forall i :: IsRound(t, e, i) ==> FindRound(t.rounds, e.prompt) == Some(i)
  {
    forall i | IsRound(t, e, i)
      ensures FindRound(t.rounds, e.prompt) == Some(i)
    {
      OnlyRound(t.rounds, i);
    }
    var found := FindRound(t.rounds, e.prompt);
    if found.Some? {
      assert IsRound(t, e, found.value);
    }
  }

  lemma PersistExactly(t: Tables, e: Event)
    requires Inv(t) && !e.kind.Prompt?
    ensures var persisted := Persist(t, e).1;
      (persisted.Mismatch? <==> Foreign(t, e)) && (persisted.Full? <==> !Foreign(t, e) && NoRoom(t, e))
  {
    RoundIsFound(t, e);
    var key, found := (e.prompt, TerminalSlot), FindRound(t.rounds, e.prompt);
    if found.Some? {
      assert IsRound(t, e, found.value);
    }
    if key in t.receipts {
      assert ReceiptOk(t.sessions, t.rounds, e.prompt, TerminalSlot, t.receipts[key]);
    }
    RoomExactly(t.inbox, e);
    hide FindRound;
    hide Inv;
    hide HasCapacity;
    hide HasRoom;
    hide Merge;
  }

  /** Which events are refused, and how. */
  lemma RefusedExactly(t: Tables, e: Event)
    requires Inv(t)
    ensures var (done, outcome) := Record(t, e);
      && (outcome.RolledBack? <==> Foreign(t, e))
      && (outcome.RefusedFull? <==> !Foreign(t, e) && NoRoom(t, e))
      && (!outcome.Accepted? ==> done == t)
  {
    RoundIsFound(t, e);
    if !e.kind.Prompt? {
      PersistExactly(t, e);
      P.RecordTerminalIs(t, e);
      hide Persist;
      hide FoldTerminal;
      hide Foreign;
      hide NoRoom;
    } else {
      hide Persist;
      hide FoldPrompt;
      var found := FindRound(t.rounds, e.prompt);
      if found.Some? {
        assert IsRound(t, e, found.value);
        RepeatNoted(t, e, found.value);
      } else {
        NewPromptNoted(t, e);
      }
      hide Record;
    }
  }

  lemma RepeatHappens(t: Tables, e: Event, i: nat)
    requires Inv(t) && e.kind.Prompt? && IsRound(t, e, i) && Record(t, e).1.Accepted?
    ensures Recorded(t, e, Record(t, e).0)
    ensures Record(t, e).1.folded.NoRow? && Record(t, e).0.rounds == t.rounds
  {
    RecordKeepsInv(t, e);
    RoundIsFound(t, e);
    RepeatNoted(t, e, i);
    hide Record;
    hide FindRound;
    hide RoundsInv;
    hide ReceiptsInv;
    hide InboxInv;
    hide SummariesInv;
    hide OpensRound;
    hide Belongs;
  }

  lemma OpenHappens(t: Tables, e: Event)
    requires Inv(t) && e.kind.Prompt? && FindRound(t.rounds, e.prompt).None?
    ensures OpensRound(t, e, Record(t, e).0)
    ensures Record(t, e).1.folded.Applied? && |Record(t, e).0.rounds| == |t.rounds| + 1
  {
    NewPromptNoted(t, e);
    PromptRecorded(t, e);
    hide Record;
    hide Inv;
    hide FindRound;
    hide PromptNoted;
    hide OpensWith;
    hide Superseded;
    hide OfSession;
    hide Opened;
  }

  lemma PromptHappens(t: Tables, e: Event)
    requires Inv(t) && e.kind.Prompt? && Record(t, e).1.Accepted?
    ensures Recorded(t, e, Record(t, e).0)
    ensures Record(t, e).1.folded.Applied? || Record(t, e).1.folded.Revised? <==> Record(t, e).0.rounds != t.rounds
  {
    RoundIsFound(t, e);
    var found := FindRound(t.rounds, e.prompt);
    if found.Some? {
      RepeatHappens(t, e, found.value);
    } else {
      OpenHappens(t, e);
      RecordKeepsInv(t, e);
    }
    hide Record;
    hide FindRound;
    hide RoundsInv;
    hide ReceiptsInv;
    hide InboxInv;
    hide SummariesInv;
    hide OpensRound;
    hide PromptRepeated;
    hide IsRound;
  }

  lemma TerminalHappens(t: Tables, e: Event)
    requires Inv(t) && !e.kind.Prompt? && Record(t, e).1.Accepted?
    ensures Recorded(t, e, Record(t, e).0)
    ensures Record(t, e).1.folded.Applied? || Record(t, e).1.folded.Revised? <==> Record(t, e).0.rounds != t.rounds
  {
    RecordKeepsInv(t, e);
    RoundIsFound(t, e);
    var found := FindRound(t.rounds, e.prompt);
    if found.Some? {
      TerminalRecorded(t, e, found.value);
      TerminalNoted(t, e, found.value);
    } else {
      TerminalKept(t, e);
      WaitingNoted(t, e);
      RoomExactly(t.inbox, e);
    }
    hide Record;
    hide FindRound;
    hide RoundsInv;
    hide ReceiptsInv;
    hide InboxInv;
    hide SummariesInv;
    hide AnswerNoted;
    hide Answered;
    hide HasCapacity;
    hide HasRoom;
    hide Waits;
    hide Waited;
    hide Belongs;
  }

  /** One event, in its own terms: which are refused, what each kind does, and which change a round. */
  lemma RecordExactly(t: Tables, e: Event)
    requires Inv(t)
    ensures var (done, outcome) := Record(t, e);
      && (outcome.Accepted? ==> Recorded(t, e, done))
      && (!outcome.Accepted? ==> done == t)
      && (outcome.RolledBack? <==> Foreign(t, e))
      && (outcome.RefusedFull? <==> !Foreign(t, e) && NoRoom(t, e))
      && (outcome.Accepted? ==> (outcome.folded.Applied? || outcome.folded.Revised? <==> done.rounds != t.rounds))
  {
    RefusedExactly(t, e);
    hide Record;
    hide Inv;
    hide Foreign;
    hide NoRoom;
    hide Recorded;
    if Record(t, e).1.Accepted? {
      if e.kind.Prompt? {
        PromptHappens(t, e);
      } else {
        TerminalHappens(t, e);
      }
    }
  }

  /** What folding a row makes of the response of its round. */
  ghost predicate RowAnswers(before: Response, row: InboxRow, after: Response) {
    if before.state == Pending then OpensWith(Some(row), after)
    else if before.state == Complete && row.kind.Stop? && before.completedAt.Some? && row.at > before.completedAt.value
            && (row.truncated != before.truncated
                || (if row.text.Some? then row.text.value else "") != before.text) then
      OpensWith(Some(row), after)
    else after == before
  }

  /** Folding the row of a prompt into its round, in terms of the row; the result tells what happened. */
  ghost predicate FoldedInto(t: Tables, prompt: Key, i: nat, done: Tables, result: Folded)
    requires i < |t.rounds| && (prompt, TerminalSlot) in t.inbox
  {
    var row := t.inbox[(prompt, TerminalSlot)];
    && done.sessions == t.sessions && done.inbox == t.inbox - {(prompt, TerminalSlot)}
    && |done.rounds| == |t.rounds|
    && done.rounds == t.rounds[i := t.rounds[i].(response := done.rounds[i].response)]
    && RowAnswers(t.rounds[i].response, row, done.rounds[i].response)
    && result == (if t.rounds[i].State() == Pending then Applied
                  else if done.rounds != t.rounds then Revised else Redundant)
  }

  /** What folding the terminal row of a prompt does, whether or not there is something to fold. */
  ghost predicate FoldedExactly(t: Tables, prompt: Key, done: Tables, result: Folded) {
    if Folds(t, prompt) then
      || t.inbox[(prompt, TerminalSlot)].kind.Prompt?
      || FoldedInto(t, prompt, FindRound(t.rounds, prompt).value, done, result)
    else done == t && result == (if (prompt, TerminalSlot) in t.inbox then Orphan else NoRow)
  }

  lemma FoldExactly(t: Tables, prompt: Key)
    ensures var (done, result) := FoldTerminal(t, prompt); FoldedExactly(t, prompt, done, result)
  {
    if Folds(t, prompt) {
      ResponseTells(t.rounds, FindRound(t.rounds, prompt).value, t.inbox[(prompt, TerminalSlot)]);
    }
    hide FindRound;
    hide Resummarize;
  }

  // ----- Every delivery is accounted for -----

  /** The deliveries of a slot that the tables account for: what waits, and what the receipt counts. */
  ghost function Counted(t: Tables, key: (Key, Slot)): nat {
    (if key in t.inbox then 1 + t.inbox[key].duplicates else 0)
    + (if key in t.receipts then 1 + t.receipts[key].duplicates + t.receipts[key].revisions else 0)
  }

  /** The first terminal event of a round that was ended without one. */
  ghost predicate Late(t: Tables, e: Event) {
    && !e.kind.Prompt? && (e.prompt, TerminalSlot) !in t.receipts
    && exists i :: IsRound(t, e, i) && !t.rounds[i].State().Pending?
  }

  /** What an accepted event adds to the count of its slot. */
  ghost function Adds(t: Tables, e: Event, key: (Key, Slot)): nat {
    if key != (e.prompt, e.Slot()) then 0 else if Late(t, e) then 2 else 1
  }

  lemma AnswerCounts(t: Tables, e: Event, i: nat, done: Tables, key: (Key, Slot))
    requires !e.kind.Prompt? && IsRound(t, e, i) && AnswerNoted(t, e, i, done)
    requires forall j :: IsRound(t, e, j) ==> j == i
    ensures Counted(done, key) == Counted(t, key) + Adds(t, e, key)
  {
  }

  lemma OpeningCounts(t: Tables, e: Event, done: Tables, key: (Key, Slot))
    requires e.kind.Prompt? && PromptNoted(t, e, done)
    requires (e.prompt, PromptSlot) !in t.receipts && (e.prompt, TerminalSlot) !in t.receipts
    ensures Counted(done, key) == Counted(t, key) + Adds(t, e, key)
  {
  }

  lemma AcceptedCounts(t: Tables, e: Event, done: Tables, key: (Key, Slot))
    requires Inv(t) && Recorded(t, e, done)
    ensures Counted(done, key) == Counted(t, key) + Adds(t, e, key)
  {
    RoundIsFound(t, e);
    var found := FindRound(t.rounds, e.prompt);
    if found.Some? {
      assert IsRound(t, e, found.value);
      if !e.kind.Prompt? {
        AnswerCounts(t, e, found.value, done, key);
      }
    } else if e.kind.Prompt? {
      P.NoReceiptYet(t, e.prompt, PromptSlot);
      P.NoReceiptYet(t, e.prompt, TerminalSlot);
      OpeningCounts(t, e, done, key);
    }
    hide Inv;
    hide FindRound;
    hide AnswerNoted;
    hide PromptNoted;
    hide Opens;
    hide Answered;
    hide HasRoom;
    hide SummariesInv;
    hide Belongs;
  }

  /** The accepted deliveries of a slot along a run. */
  ghost function Deliveries(t: Tables, actions: seq<Action>, key: (Key, Slot)): nat
    decreases |actions|
  {
    if actions == [] then 0
    else
      var a := actions[0];
      (if a.Hook? && Record(t, a.event).1.Accepted? && key == (a.event.prompt, a.event.Slot()) then 1 else 0)
      + Deliveries(Act(t, a), actions[1..], key)
  }

  /** Those that were the first terminal event of a round ended without one. */
  ghost function LateDeliveries(t: Tables, actions: seq<Action>, key: (Key, Slot)): nat
    decreases |actions|
  {
    if actions == [] then 0
    else
      var a := actions[0];
      (if a.Hook? && Record(t, a.event).1.Accepted? && key == (a.event.prompt, a.event.Slot()) && Late(t, a.event)
       then 1 else 0)
      + LateDeliveries(Act(t, a), actions[1..], key)
  }

  lemma ActCounts(t: Tables, a: Action, key: (Key, Slot))
    requires Inv(t)
    ensures Counted(Act(t, a), key) == Counted(t, key)
      + (if a.Hook? && Record(t, a.event).1.Accepted? then Adds(t, a.event, key) else 0)
  {
    if a.Hook? {
      RecordExactly(t, a.event);
      hide Record;
      hide Recorded;
      hide Inv;
      if Record(t, a.event).1.Accepted? {
        AcceptedCounts(t, a.event, Record(t, a.event).0, key);
      }
      hide Counted;
    }
  }

  lemma {:induction false} RunCounts(t: Tables, actions: seq<Action>, key: (Key, Slot))
    requires Inv(t)
    ensures Counted(Run(t, actions), key)
         == Counted(t, key) + Deliveries(t, actions, key) + LateDeliveries(t, actions, key)
    decreases |actions|
  {
    hide Record;
    hide Inv;
    hide Counted;
    hide Late;
    hide Act;
    if actions != [] {
      ActCounts(t, actions[0], key);
      ActKeepsInv(t, actions[0]);
      RunCounts(Act(t, actions[0]), actions[1..], key);
    }
  }

  /** A receipt that is there stays, and none is late any more. */
  lemma {:induction false} ReceiptsStay(t: Tables, actions: seq<Action>, key: (Key, Slot))
    requires Inv(t) && (key in t.receipts || key.1 == PromptSlot)
    ensures LateDeliveries(t, actions, key) == 0
    decreases |actions|
  {
    if actions != [] {
      var a := actions[0];
      ActKeepsInv(t, a);
      if key in t.receipts {
        ReceiptStays(t, a, key);
      }
      hide Act;
      hide Inv;
      hide Record;
      ReceiptsStay(Act(t, a), actions[1..], key);
    }
  }

  lemma ReceiptStays(t: Tables, a: Action, key: (Key, Slot))
    requires Inv(t) && key in t.receipts
    ensures key in Act(t, a).receipts
  {
    if a.Hook? {
      RecordExactly(t, a.event);
      RoundIsFound(t, a.event);
      hide Record;
      hide Inv;
      hide FindRound;
      hide Opens;
      hide Answered;
      hide HasRoom;
      hide SummariesInv;
      hide Belongs;
      hide Foreign;
      hide NoRoom;
    }
  }

  /** A late delivery leaves a receipt. */
  lemma LateLeavesReceipt(t: Tables, e: Event)
    requires Inv(t) && Record(t, e).1.Accepted? && Late(t, e)
    ensures (e.prompt, TerminalSlot) in Record(t, e).0.receipts
  {
    var i :| IsRound(t, e, i) && !t.rounds[i].State().Pending?;
    TerminalNoted(t, e, i);
    hide Record;
    hide Inv;
  }

  lemma {:induction false} AtMostOneLate(t: Tables, actions: seq<Action>, key: (Key, Slot))
    requires Inv(t)
    ensures LateDeliveries(t, actions, key) <= 1
    decreases |actions|
  {
    if actions != [] {
      var a := actions[0];
      ActKeepsInv(t, a);
      if a.Hook? && Record(t, a.event).1.Accepted? && key == (a.event.prompt, a.event.Slot()) && Late(t, a.event) {
        LateLeavesReceipt(t, a.event);
        ReceiptsStay(Act(t, a), actions[1..], key);
      } else {
        hide Late;
        hide Act;
        hide Inv;
        hide Record;
        AtMostOneLate(Act(t, a), actions[1..], key);
      }
    }
  }

  /** In every archive, the receipt of a prompt counts its deliveries, and so does what there is of a terminal slot. */
  lemma EveryDeliveryCounted(actions: seq<Action>, k: Key)
    ensures var t, prompt, terminal := Run(EMPTY, actions), (k, PromptSlot), (k, TerminalSlot);
      && Deliveries(EMPTY, actions, prompt) ==
           (if prompt in t.receipts then 1 + t.receipts[prompt].duplicates + t.receipts[prompt].revisions else 0)
      && Counted(t, terminal) == Deliveries(EMPTY, actions, terminal) + LateDeliveries(EMPTY, actions, terminal)
      && LateDeliveries(EMPTY, actions, terminal) <= 1
  {
    EmptyInv();
    RunKeepsInv(EMPTY, actions);
    NoPromptWaits(Run(EMPTY, actions), k);
    RunCounts(EMPTY, actions, (k, PromptSlot));
    RunCounts(EMPTY, actions, (k, TerminalSlot));
    ReceiptsStay(EMPTY, actions, (k, PromptSlot));
    AtMostOneLate(EMPTY, actions, (k, TerminalSlot));
    hide Inv;
    hide Run;
    hide Deliveries;
    hide LateDeliveries;
  }

  /** A round that is pending has no terminal receipt. */
  lemma ReceiptSettles(t: Tables, e: Event, i: nat)
    requires Inv(t) && IsRound(t, e, i)
    ensures (e.prompt, TerminalSlot) in t.receipts ==> !t.rounds[i].State().Pending?
  {
    OnlyRound(t.rounds, i);
    hide FindRound;
    if (e.prompt, TerminalSlot) in t.receipts {
      assert ReceiptOk(t.sessions, t.rounds, e.prompt, TerminalSlot, t.receipts[(e.prompt, TerminalSlot)]);
    }
  }

  lemma OpensPending(t: Tables, e: Event, done: Tables)
    requires OpensRound(t, e, done) && t.inbox == map[]
    ensures done.inbox == map[] && |done.rounds| == |t.rounds| + 1 && IsRound(done, e, |t.rounds|)
    ensures Belongs(done.sessions, done.rounds[|t.rounds|], e) && done.rounds[|t.rounds|].State().Pending?
    ensures forall k: Key :: (k, TerminalSlot) in done.receipts ==> (k, TerminalSlot) in t.receipts
  {
    hide Superseded;
    hide OfSession;
  }

  lemma OpensEnds(t: Tables, e: Event, done: Tables, i: nat)
    requires OpensRound(t, e, done) && i < |t.rounds| && SameSession(t, t.rounds[i], e) && t.rounds[i].State().Pending?
    ensures i < |done.rounds| && done.rounds[i] == t.rounds[i].(response := done.rounds[i].response)
    ensures !done.rounds[i].State().Pending? && t.sessions <= done.sessions
  {
    hide OfSession;
    hide PromptNoted;
    hide OpensWith;
  }

  /** The first round of an archive is pending, and nothing waits. */
  lemma FirstOpened(t: Tables, e: Event)
    requires Inv(t) && t.rounds == [] && t.inbox == map[] && e.kind.Prompt?
    ensures var done := Record(t, e).0;
      && Record(t, e).1.Accepted? && Inv(done) && done.inbox == map[] && |done.rounds| == 1
      && IsRound(done, e, 0) && Belongs(done.sessions, done.rounds[0], e) && done.rounds[0].State().Pending?
  {
    RoundIsFound(t, e);
    RecordKeepsInv(t, e);
    OpenHappens(t, e);
    RefusedExactly(t, e);
    hide Record;
    hide Inv;
    hide FindRound;
    hide OpensRound;
    OpensPending(t, e, Record(t, e).0);
  }

  /** The next prompt of its session ends it. */
  lemma SecondOpened(t: Tables, first: Event, second: Event)
    requires Inv(t) && t.inbox == map[] && |t.rounds| == 1 && IsRound(t, first, 0) && t.rounds[0].State().Pending?
    requires second.kind.Prompt? && second.prompt != first.prompt && Belongs(t.sessions, t.rounds[0], first)
    requires second.thread == first.thread
    ensures var done := Record(t, second).0;
      && Record(t, second).1.Accepted? && Inv(done) && done.inbox == map[]
      && IsRound(done, first, 0) && Belongs(done.sessions, done.rounds[0], first) && !done.rounds[0].State().Pending?
      && (first.prompt, TerminalSlot) !in done.receipts
  {
    assert forall i :: !IsRound(t, second, i);
    RoundIsFound(t, second);
    RecordKeepsInv(t, second);
    OpenHappens(t, second);
    RefusedExactly(t, second);
    ReceiptSettles(t, first, 0);
    hide Record;
    hide Inv;
    hide FindRound;
    hide OpensRound;
    OpensPending(t, second, Record(t, second).0);
    OpensEnds(t, second, Record(t, second).0, 0);
  }

  lemma LateCounted(t: Tables, e: Event)
    requires Inv(t) && t.inbox == map[] && !e.kind.Prompt? && e.bytes + OVERHEAD_BYTES <= MAX_INBOX_BYTES
    requires IsRound(t, e, 0) && Belongs(t.sessions, t.rounds[0], e) && !t.rounds[0].State().Pending?
    requires (e.prompt, TerminalSlot) !in t.receipts
    ensures Record(t, e).1.Accepted? && Late(t, e) && Counted(Record(t, e).0, (e.prompt, TerminalSlot)) == 2
  {
    RoundIsFound(t, e);
    RefusedExactly(t, e);
    RecordExactly(t, e);
    assert RetainedBytes(t.inbox, t.inbox.Keys) == 0;
    assert !Foreign(t, e) && !NoRoom(t, e);
    hide Foreign;
    hide NoRoom;
    hide Record;
    hide Recorded;
    AcceptedCounts(t, e, Record(t, e).0, (e.prompt, TerminalSlot));
    hide Inv;
  }

  /** A terminal event that comes when the next prompt has ended its round counts twice. */
  lemma LateCountsTwice(first: Event, second: Event, late: Event)
    requires first.kind.Prompt? && second.kind.Prompt? && !late.kind.Prompt?
    requires second.prompt != first.prompt && second.thread == first.thread
    requires late.prompt == first.prompt && late.thread == first.thread && late.who.device == first.who.device
    requires late.bytes + OVERHEAD_BYTES <= MAX_INBOX_BYTES
    ensures var one := Record(EMPTY, first).0;
      var two := Record(one, second).0;
      && Record(two, late).1.Accepted? && Counted(two, (late.prompt, TerminalSlot)) == 0
      && Counted(Record(two, late).0, (late.prompt, TerminalSlot)) == 2
  {
    var one := Record(EMPTY, first).0;
    EmptyInv();
    FirstOpened(EMPTY, first);
    SecondOpened(one, first, second);
    hide Record;
    hide Inv;
    LateCounted(Record(one, second).0, late);
  }

  // ----- Along every run -----

  lemma {:induction false} RunSplits(t: Tables, a: seq<Action>, b: seq<Action>)
    ensures Run(t, a + b) == Run(Run(t, a), b)
    decreases |a|
  {
    hide Act;
    if a == [] {
      assert a + b == b;
    } else {
      assert (a + b)[0] == a[0] && (a + b)[1..] == a[1..] + b;
      RunSplits(Act(t, a[0]), a[1..], b);
    }
  }

  /** Each event of every run does to the archive before it what one event does. */
  lemma EveryEventRecorded(actions: seq<Action>, i: nat)
    requires i < |actions| && actions[i].Hook?
    ensures var t, done, e := Run(EMPTY, actions[..i]), Run(EMPTY, actions[..i + 1]), actions[i].event;
      if Foreign(t, e) || NoRoom(t, e) then done == t else Recorded(t, e, done)
  {
    var t, e := Run(EMPTY, actions[..i]), actions[i].event;
    EmptyInv();
    RunKeepsInv(EMPTY, actions[..i]);
    assert actions[..i + 1] == actions[..i] + [actions[i]];
    RunSplits(EMPTY, actions[..i], [actions[i]]);
    assert [actions[i]][1..] == [];
    assert Run(t, [actions[i]]) == Act(t, actions[i]);
    hide Run;
    hide Inv;
    RecordExactly(t, e);
    hide Record;
    hide Recorded;
  }
}
