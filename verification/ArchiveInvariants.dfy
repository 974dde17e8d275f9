/**
 * What every committed transaction of the hook archive keeps, from an empty database on:
 * the shape of sessions, the pairing of inbox and rounds, receipts and the summary table.
 */
module ArchiveInvariants {
  import opened Options
  import opened HookArchive

  // ----- The invariant -----

  /** The CHECK constraints of a round row. */
  ghost predicate RowValid(r: Round) {
    && r.turn >= 1 && r.promptText != ""
    && (r.State().Failed? ==> r.response.failureCode.Some?)
    && (r.State().Pending? || r.State().Complete? ==> r.response.failureCode.None?)
    && (r.State().Pending? <==> r.response.completedAt.None?)
  }

  /** Turns are exactly 1..n, and only the last round may be pending. */
  ghost predicate SessionInv(rows: seq<Round>) {
    forall k :: 0 <= k < |rows| ==> rows[k].turn == k + 1 && (rows[k].State().Pending? ==> k == |rows| - 1)
  }

  ghost predicate RowsInv(sessions: seq<Key>, rounds: seq<Round>) {
    && (forall i :: 0 <= i < |rounds| ==>
          rounds[i].id == i + 1 && rounds[i].session < |sessions| && RowValid(rounds[i]))
    && (forall i, j :: 0 <= i < j < |rounds| ==> rounds[i].prompt != rounds[j].prompt)
  }

  ghost predicate RoundsInv(sessions: seq<Key>, rounds: seq<Round>) {
    && RowsInv(sessions, rounds)
    && (forall i, j :: 0 <= i < j < |sessions| ==> sessions[i] != sessions[j])
    && (forall s: nat :: SessionInv(OfSession(rounds, s)))
  }

  /** A receipt agrees with the round of its prompt key. */
  ghost predicate ReceiptOk(sessions: seq<Key>, rounds: seq<Round>, k: Key, slot: Slot, receipt: Receipt) {
    var found := FindRound(rounds, k);
    && found.Some?
    && RoundMatches(sessions, rounds[found.value], receipt.thread, receipt.device)
    && (slot.TerminalSlot? ==> !rounds[found.value].State().Pending?)
  }

  ghost predicate ReceiptsMatch(sessions: seq<Key>, rounds: seq<Round>, receipts: map<(Key, Slot), Receipt>) {
    forall k: Key, s: Slot :: (k, s) in receipts ==> ReceiptOk(sessions, rounds, k, s, receipts[(k, s)])
  }

  /** The round of `k` has its prompt receipt, and a stop completed it if it is complete. */
  ghost predicate Receipted(rounds: seq<Round>, receipts: map<(Key, Slot), Receipt>, k: Key) {
    var found := FindRound(rounds, k);
    found.Some? ==>
      && (k, PromptSlot) in receipts
      && (rounds[found.value].State().Complete? ==>
        (k, TerminalSlot) in receipts && receipts[(k, TerminalSlot)].kind.Stop?)
  }

  /** A round exists exactly when its prompt receipt does, and receipts agree with their round. */
  ghost predicate ReceiptsInv(sessions: seq<Key>, rounds: seq<Round>, receipts: map<(Key, Slot), Receipt>) {
    ReceiptsMatch(sessions, rounds, receipts) && forall k: Key :: Receipted(rounds, receipts, k)
  }

  ghost predicate RowWaits(sessions: seq<Key>, rounds: seq<Round>, k: Key, row: InboxRow) {
    var found := FindRound(rounds, k);
    !row.kind.Prompt? && (found.Some? ==> !RoundMatches(sessions, rounds[found.value], row.thread, row.who.device))
  }

  /** Only terminal events wait in the inbox, and none whose round exists. */
  ghost predicate InboxInv(sessions: seq<Key>, rounds: seq<Round>, inbox: map<(Key, Slot), InboxRow>,
                           except: set<Key>)
  {
    forall k: Key, s: Slot :: (k, s) in inbox && k !in except ==>
      s.TerminalSlot? && RowWaits(sessions, rounds, k, inbox[(k, s)])
  }

  /** The summary row of one session is what recomputing it would give. */
  ghost predicate SummaryOk(rounds: seq<Round>, summaries: map<nat, Summary>, s: nat) {
    var rows := OfSession(rounds, s);
    (s in summaries <==> rows != []) && (rows != [] ==> summaries[s] == Summarize(rows))
  }

  ghost predicate SummariesInv(rounds: seq<Round>, summaries: map<nat, Summary>) {
    forall s: nat :: SummaryOk(rounds, summaries, s)
  }

  ghost predicate Inv(t: Tables) {
    && RoundsInv(t.sessions, t.rounds)
    && ReceiptsInv(t.sessions, t.rounds, t.receipts)
    && InboxInv(t.sessions, t.rounds, t.inbox, {})
    && |t.inbox| <= MAX_INBOX_ITEMS
    && SummariesInv(t.rounds, t.summaries)
  }

  // ----- Rounds of a session under updates -----

  lemma {:induction false} OfSessionUpdate(rounds: seq<Round>, i: nat, r: Round, s: nat) returns (k: nat)
    requires i < |rounds| && r.session == rounds[i].session
    ensures r.session != s ==> OfSession(rounds[i := r], s) == OfSession(rounds, s)
    ensures r.session == s ==>
      && k < |OfSession(rounds, s)| && OfSession(rounds, s)[k] == rounds[i]
      && OfSession(rounds[i := r], s) == OfSession(rounds, s)[k := r]
  {
    var last := |rounds| - 1;
    var updated := rounds[i := r];
    if i == last {
      assert updated[..last] == rounds[..last];
      k := if r.session == s then |OfSession(rounds, s)| - 1 else 0;
    } else {
      assert updated[..last] == rounds[..last][i := r];
      k := OfSessionUpdate(rounds[..last], i, r, s);
    }
  }

  lemma OfSessionAppend(rounds: seq<Round>, r: Round, s: nat)
    ensures OfSession(rounds + [r], s) == OfSession(rounds, s) + (if r.session == s then [r] else [])
  {
    assert (rounds + [r])[..|rounds|] == rounds;
  }

  lemma {:induction false} OfSessionMember(rounds: seq<Round>, s: nat, i: nat)
    requires i < |rounds| && rounds[i].session == s
    ensures rounds[i] in OfSession(rounds, s)
  {
    if i < |rounds| - 1 {
      OfSessionMember(rounds[..|rounds| - 1], s, i);
    }
  }

  lemma {:induction false} OfSessionRows(rounds: seq<Round>, s: nat)
    ensures forall r :: r in OfSession(rounds, s) ==> r in rounds && r.session == s
  {
    if rounds != [] {
      OfSessionRows(rounds[..|rounds| - 1], s);
    }
  }

  lemma {:induction false} MaxTurnIsLength(rows: seq<Round>)
    requires SessionInv(rows)
    ensures MaxTurn(rows) == |rows|
  {
    if rows != [] {
      assert rows[|rows| - 1].turn == |rows|;
      assert MaxTurn(rows) >= rows[|rows| - 1].turn;
      var r :| r in rows && r.turn == MaxTurn(rows);
    }
  }

  lemma {:induction false} FindRoundUpdate(rounds: seq<Round>, i: nat, r: Round, k: Key)
    requires i < |rounds| && r.prompt == rounds[i].prompt
    ensures FindRound(rounds[i := r], k) == FindRound(rounds, k)
  {
    var last := |rounds| - 1;
    if i < last {
      assert rounds[i := r][..last] == rounds[..last][i := r];
      FindRoundUpdate(rounds[..last], i, r, k);
    } else {
      assert rounds[i := r][..last] == rounds[..last];
    }
  }

  lemma FindRoundAppend(rounds: seq<Round>, r: Round, k: Key)
    ensures FindRound(rounds + [r], k) == if r.prompt == k then Some(|rounds|) else FindRound(rounds, k)
  {
    assert (rounds + [r])[..|rounds|] == rounds;
  }

  // ----- The two writes to the rounds table -----

  /** What the update triggers allow, with the row CHECKs: prompt and attribution are immutable. */
  ghost predicate UpdateAllowed(before: Round, after: Round) {
    && after.id == before.id && after.session == before.session && after.turn == before.turn
    && after.prompt == before.prompt && after.promptText == before.promptText
    && after.promptBytes == before.promptBytes && after.promptTruncated == before.promptTruncated
    && after.promptAt == before.promptAt && after.who == before.who
    && match before.State() {
         case Pending =>
           && !after.State().Pending? && after.response.completedAt.Some?
           && (after.State().Failed? ==> after.response.failureCode.Some?)
         case Complete =>
           && after.State().Complete? && after.response.completedAt.Some? && before.response.completedAt.Some?
           && after.response.completedAt.value > before.response.completedAt.value
         case _ => false
       }
    && RowValid(after)
  }

  lemma UpdateKeepsRounds(sessions: seq<Key>, rounds: seq<Round>, i: nat, r: Round)
    requires RoundsInv(sessions, rounds) && i < |rounds| && UpdateAllowed(rounds[i], r)
    ensures RoundsInv(sessions, rounds[i := r])
    ensures forall s: nat :: s != r.session ==> OfSession(rounds[i := r], s) == OfSession(rounds, s)
    ensures OfSession(rounds[i := r], r.session) != []
    ensures forall k: Key :: FindRound(rounds[i := r], k) == FindRound(rounds, k)
  {
    var rounds' := rounds[i := r];
    forall s: nat
      ensures SessionInv(OfSession(rounds', s))
      ensures s != r.session ==> OfSession(rounds', s) == OfSession(rounds, s)
    {
      var k := OfSessionUpdate(rounds, i, r, s);
      assert SessionInv(OfSession(rounds, s));
    }
    forall k: Key
      ensures FindRound(rounds', k) == FindRound(rounds, k)
    {
      FindRoundUpdate(rounds, i, r, k);
    }
    OfSessionMember(rounds', r.session, i);
  }

  /** The pending round of a session is its last one, so afterwards nothing is pending. */
  lemma SupersedeKeepsRounds(sessions: seq<Key>, rounds: seq<Round>, session: nat, at: nat)
    requires RoundsInv(sessions, rounds)
    ensures
      var rounds' := Supersede(rounds, session, at);
      && RoundsInv(sessions, rounds') && |rounds'| == |rounds|
      && (forall r :: r in OfSession(rounds', session) ==> !r.State().Pending?)
      && (forall s: nat :: s != session ==> OfSession(rounds', s) == OfSession(rounds, s))
      && (forall k: Key :: FindRound(rounds', k) == FindRound(rounds, k))
      && (forall i :: 0 <= i < |rounds| ==> rounds'[i] == rounds[i] || UpdateAllowed(rounds[i], rounds'[i]))
  {
    var pending := LatestPending(rounds, session);
    OfSessionRows(rounds, session);
    if pending.Some? {
      var i := pending.value;
      var r := Ended(rounds[i], at);
      UpdateKeepsRounds(sessions, rounds, i, r);
      var k := OfSessionUpdate(rounds, i, r, session);
      assert SessionInv(OfSession(rounds, session));
    }
  }

  /** Appending the next turn of a session without a pending round keeps every session in shape. */
  lemma AppendKeepsSessions(rounds: seq<Round>, r: Round)
    requires forall s: nat :: SessionInv(OfSession(rounds, s))
    requires r.turn == |OfSession(rounds, r.session)| + 1
    requires forall o :: o in OfSession(rounds, r.session) ==> !o.State().Pending?
    ensures forall s: nat :: SessionInv(OfSession(rounds + [r], s))
    ensures forall s: nat :: OfSession(rounds + [r], s) == OfSession(rounds, s) + (if s == r.session then [r] else [])
  {
    forall s: nat
      ensures SessionInv(OfSession(rounds + [r], s))
      ensures OfSession(rounds + [r], s) == OfSession(rounds, s) + (if s == r.session then [r] else [])
    {
      OfSessionAppend(rounds, r, s);
      assert SessionInv(OfSession(rounds, s));
    }
  }

  lemma AppendKeepsRows(sessions: seq<Key>, rounds: seq<Round>, r: Round)
    requires RowsInv(sessions, rounds) && FindRound(rounds, r.prompt).None?
    requires r.id == |rounds| + 1 && r.session < |sessions| && RowValid(r)
    ensures RowsInv(sessions, rounds + [r])
    ensures forall k: Key ::
      FindRound(rounds + [r], k) == if k == r.prompt then Some(|rounds|) else FindRound(rounds, k)
  {
    forall k: Key
      ensures FindRound(rounds + [r], k) == if k == r.prompt then Some(|rounds|) else FindRound(rounds, k)
    {
      FindRoundAppend(rounds, r, k);
    }
  }

  lemma AppendKeepsRounds(sessions: seq<Key>, rounds: seq<Round>, session: nat, prompt: Key, row: InboxRow)
    requires RoundsInv(sessions, rounds) && session < |sessions| && FindRound(rounds, prompt).None?
    requires row.text.Some? && row.text.value != ""
    requires forall r :: r in OfSession(rounds, session) ==> !r.State().Pending?
    ensures
      var r := NewRound(rounds, session, prompt, row);
      && RoundsInv(sessions, rounds + [r])
      && OfSession(rounds + [r], session) == OfSession(rounds, session) + [r]
      && (forall s: nat :: s != session ==> OfSession(rounds + [r], s) == OfSession(rounds, s))
      && (forall k: Key :: FindRound(rounds + [r], k) == if k == prompt then Some(|rounds|) else FindRound(rounds, k))
  {
    var r := NewRound(rounds, session, prompt, row);
    MaxTurnIsLength(OfSession(rounds, session));
    AppendKeepsSessions(rounds, r);
    AppendKeepsRows(sessions, rounds, r);
  }

  // ----- The other tables -----

  /** Receipts stay right when rounds keep their key and their owner, but for the round of `except`. */
  lemma ReceiptsFrame(sessions: seq<Key>, rounds: seq<Round>, rounds': seq<Round>,
      receipts: map<(Key, Slot), Receipt>, except: Option<Key>)
    requires ReceiptsInv(sessions, rounds, receipts) && |rounds| <= |rounds'|
    requires forall k: Key :: except != Some(k) || FindRound(rounds, k).Some? ==>
      FindRound(rounds', k) == FindRound(rounds, k)
    requires forall i :: 0 <= i < |rounds| ==>
               && rounds'[i].prompt == rounds[i].prompt
               && rounds'[i].session == rounds[i].session && rounds'[i].who == rounds[i].who
               && (rounds'[i].State().Pending? ==> rounds[i].State().Pending?)
               && (except != Some(rounds[i].prompt) && rounds'[i].State().Complete? ==> rounds[i].State().Complete?)
    ensures ReceiptsMatch(sessions, rounds', receipts)
    ensures forall k: Key :: except != Some(k) ==> Receipted(rounds', receipts, k)
  {
    forall k: Key, s: Slot | (k, s) in receipts
      ensures ReceiptOk(sessions, rounds', k, s, receipts[(k, s)])
    {
      assert ReceiptOk(sessions, rounds, k, s, receipts[(k, s)]);
    }
    forall k: Key | except != Some(k)
      ensures Receipted(rounds', receipts, k)
    {
      assert Receipted(rounds, receipts, k);
    }
  }

  /** Recording a receipt of `k` keeps every receipt matched. */
  lemma ReceiptMatches(t: Tables, k: Key, slot: Slot, kind: Kind, thread: Key, device: string, at: nat, dup: bool,
      rev: bool)
    requires ReceiptsMatch(t.sessions, t.rounds, t.receipts) && FindRound(t.rounds, k).Some?
    requires RoundMatches(t.sessions, t.rounds[FindRound(t.rounds, k).value], thread, device)
    requires slot.TerminalSlot? ==> !t.rounds[FindRound(t.rounds, k).value].State().Pending?
    ensures ReceiptsMatch(t.sessions, t.rounds, RecordReceipt(t, k, slot, kind, thread, device, at, dup, rev).receipts)
  {
    var receipts := RecordReceipt(t, k, slot, kind, thread, device, at, dup, rev).receipts;
    forall j: Key, s: Slot | (j, s) in receipts
      ensures ReceiptOk(t.sessions, t.rounds, j, s, receipts[(j, s)])
    {
      if (j, s) in t.receipts {
        assert ReceiptOk(t.sessions, t.rounds, j, s, t.receipts[(j, s)]);
      }
    }
  }

  /** Recording a receipt of `k` settles that key and leaves the others. */
  lemma ReceiptKeeps(t: Tables, k: Key, slot: Slot, kind: Kind, thread: Key, device: string, at: nat, dup: bool,
      rev: bool)
    requires ReceiptsMatch(t.sessions, t.rounds, t.receipts) && FindRound(t.rounds, k).Some?
    requires forall j: Key :: j != k ==> Receipted(t.rounds, t.receipts, j)
    requires RoundMatches(t.sessions, t.rounds[FindRound(t.rounds, k).value], thread, device)
    requires var r := t.rounds[FindRound(t.rounds, k).value];
             if slot.PromptSlot? then r.State().Complete? ==> Receipted(t.rounds, t.receipts, k)
             else
               && !r.State().Pending? && (k, PromptSlot) in t.receipts
               && (r.State().Complete? ==>
                     if (k, TerminalSlot) in t.receipts && !rev then t.receipts[(k, TerminalSlot)].kind.Stop?
                     else kind.Stop?)
    ensures ReceiptsInv(t.sessions, t.rounds, RecordReceipt(t, k, slot, kind, thread, device, at, dup, rev).receipts)
  {
    var receipts := RecordReceipt(t, k, slot, kind, thread, device, at, dup, rev).receipts;
    ReceiptMatches(t, k, slot, kind, thread, device, at, dup, rev);
    forall j: Key
      ensures Receipted(t.rounds, receipts, j)
    {
      assert j != k ==> Receipted(t.rounds, t.receipts, j);
    }
  }

  /** Waiting rows stay waiting when rounds keep their key and their owner. */
  lemma InboxFrame(sessions: seq<Key>, rounds: seq<Round>, rounds': seq<Round>, inbox: map<(Key, Slot), InboxRow>,
      except: set<Key>)
    requires InboxInv(sessions, rounds, inbox, except) && |rounds| <= |rounds'|
    requires forall k: Key :: k !in except ==> FindRound(rounds', k) == FindRound(rounds, k)
    requires forall i :: 0 <= i < |rounds| ==>
               rounds'[i].session == rounds[i].session && rounds'[i].who == rounds[i].who
    ensures InboxInv(sessions, rounds', inbox, except)
  {
    forall k: Key, s: Slot | (k, s) in inbox && k !in except
      ensures s.TerminalSlot? && RowWaits(sessions, rounds', k, inbox[(k, s)])
    {
      assert RowWaits(sessions, rounds, k, inbox[(k, s)]);
    }
  }

  /** Rebuilding one session's row mends the table when no other session's rounds changed. */
  lemma ResummarizeKeeps(rounds: seq<Round>, rounds': seq<Round>, summaries: map<nat, Summary>, session: nat)
    requires SummariesInv(rounds, summaries)
    requires forall s: nat :: s != session ==> OfSession(rounds', s) == OfSession(rounds, s)
    ensures SummariesInv(rounds', Resummarize(rounds', summaries, session))
  {
    forall s: nat
      ensures SummaryOk(rounds', Resummarize(rounds', summaries, session), s)
    {
      assert SummaryOk(rounds, summaries, s);
    }
  }

  // ----- The steps of a transaction -----

  /** The tables between the inbox write and the fold: key `k` may be unsettled. */
  ghost predicate Unsettled(t: Tables, k: Key) {
    && RoundsInv(t.sessions, t.rounds)
    && ReceiptsInv(t.sessions, t.rounds, t.receipts)
    && InboxInv(t.sessions, t.rounds, t.inbox, {k})
    && SummariesInv(t.rounds, t.summaries)
    && ((k, TerminalSlot) in t.inbox ==> !t.inbox[(k, TerminalSlot)].kind.Prompt?)
  }

  /** The inbox write of a prompt, which never finds a row of its own slot. */
  lemma PersistPrompt(t: Tables, e: Event)
    requires Inv(t) && e.kind.Prompt?
    ensures
      var (kept, persisted) := Persist(t, e);
      && (persisted.Duplicate? ==> Inv(kept))
      && !persisted.Revision? && !persisted.Full?
      && (persisted.Stored? ==>
            && kept == t.(inbox := t.inbox[(e.prompt, PromptSlot) := RowOf(e)])
            && FindRound(t.rounds, e.prompt).None?
            && Unsettled(kept, e.prompt))
  {
    var (kept, persisted) := Persist(t, e);
    var key := (e.prompt, PromptSlot);
    assert Receipted(t.rounds, t.receipts, e.prompt);
    assert key !in t.inbox;
    if key in t.receipts {
      assert ReceiptOk(t.sessions, t.rounds, e.prompt, PromptSlot, t.receipts[key]);
      if persisted.Duplicate? {
        ReceiptKeeps(t, e.prompt, PromptSlot, e.kind, e.thread, e.who.device, e.at, true, false);
      }
    } else if (e.prompt, TerminalSlot) in t.inbox {
      assert RowWaits(t.sessions, t.rounds, e.prompt, t.inbox[(e.prompt, TerminalSlot)]);
    }
  }

  lemma DuplicateTerminal(t: Tables, e: Event)
    requires Inv(t) && !e.kind.Prompt? && Persist(t, e).1.Duplicate?
    ensures Inv(Persist(t, e).0)
  {
    var key := (e.prompt, TerminalSlot);
    if key in t.receipts && !t.receipts[key].kind.Stop? {
      assert Receipted(t.rounds, t.receipts, e.prompt);
      assert ReceiptOk(t.sessions, t.rounds, e.prompt, TerminalSlot, t.receipts[key]);
      ReceiptKeeps(t, e.prompt, TerminalSlot, e.kind, e.thread, e.who.device, e.at, true, false);
    } else {
      assert RowWaits(t.sessions, t.rounds, e.prompt, t.inbox[key]);
    }
  }

  lemma StoredTerminal(t: Tables, e: Event)
    requires Inv(t) && !e.kind.Prompt? && (Persist(t, e).1.Stored? || Persist(t, e).1.Revision?)
    ensures
      var kept := Persist(t, e).0;
      && kept.rounds == t.rounds && kept.sessions == t.sessions && kept.receipts == t.receipts
      && Unsettled(kept, e.prompt) && |kept.inbox| <= MAX_INBOX_ITEMS && (e.prompt, PromptSlot) !in kept.inbox
  {
    var key := (e.prompt, TerminalSlot);
    assert Receipted(t.rounds, t.receipts, e.prompt);
    assert (e.prompt, PromptSlot) !in t.inbox;
    if key in t.inbox {
      assert RowWaits(t.sessions, t.rounds, e.prompt, t.inbox[key]);
    }
  }

  lemma PersistTerminal(t: Tables, e: Event)
    requires Inv(t) && !e.kind.Prompt?
    ensures
      var (kept, persisted) := Persist(t, e);
      && (persisted.Duplicate? ==> Inv(kept))
      && (persisted.Stored? || persisted.Revision? ==>
            && kept.rounds == t.rounds && kept.sessions == t.sessions && kept.receipts == t.receipts
            && Unsettled(kept, e.prompt) && |kept.inbox| <= MAX_INBOX_ITEMS && (e.prompt, PromptSlot) !in kept.inbox)
  {
    hide Inv;
    hide Persist;
    hide Unsettled;
    var persisted := Persist(t, e).1;
    if persisted.Duplicate? {
      DuplicateTerminal(t, e);
    } else if persisted.Stored? || persisted.Revision? {
      StoredTerminal(t, e);
    }
  }

  lemma FoldTerminalKeeps(t: Tables, k: Key)
    requires Unsettled(t, k) && (k, PromptSlot) !in t.inbox && |t.inbox| <= MAX_INBOX_ITEMS
    ensures Inv(FoldTerminal(t, k).0)
  {
    var key := (k, TerminalSlot);
    var (done, result) := FoldTerminal(t, k);
    if !Folds(t, k) {
      forall j: Key, s: Slot | (j, s) in t.inbox
        ensures s.TerminalSlot? && RowWaits(t.sessions, t.rounds, j, t.inbox[(j, s)])
      {
        if j == k {
          assert s.TerminalSlot?;
        }
      }
    } else {
      FoldedTerminalKeeps(t, k);
    }
  }

  lemma RoundsAfterKeep(t: Tables, k: Key)
    requires RoundsInv(t.sessions, t.rounds) && Folds(t, k) && !t.inbox[(k, TerminalSlot)].kind.Prompt?
    ensures
      var rounds', i := RoundsAfter(t, k), FindRound(t.rounds, k).value;
      && RoundsInv(t.sessions, rounds') && |rounds'| == |t.rounds|
      && (forall j: Key :: FindRound(rounds', j) == FindRound(t.rounds, j))
      && (forall s: nat :: s != t.rounds[i].session ==> OfSession(rounds', s) == OfSession(t.rounds, s))
      && (forall j :: 0 <= j < |t.rounds| ==> rounds'[j] == t.rounds[j] || UpdateAllowed(t.rounds[j], rounds'[j]))
      && !rounds'[i].State().Pending?
  {
    var i := FindRound(t.rounds, k).value;
    var after := RoundsAfter(t, k)[i];
    assert RowValid(t.rounds[i]);
    if after != t.rounds[i] {
      UpdateKeepsRounds(t.sessions, t.rounds, i, after);
    } else {
      assert RoundsAfter(t, k) == t.rounds;
    }
  }

  /** The receipt a fold records, before its row's duplicates are added. */
  ghost function Noted(t: Tables, k: Key): Tables
    requires Folds(t, k)
  {
    var row, result := t.inbox[(k, TerminalSlot)], FoldTerminal(t, k).1;
    RecordReceipt(t.(rounds := RoundsAfter(t, k)), k, TerminalSlot, row.kind, row.thread, row.who.device, row.at,
                  result.Redundant?, result.Revised?)
  }

  lemma NotedReceipts(t: Tables, k: Key)
    requires Unsettled(t, k) && Folds(t, k)
    ensures ReceiptsInv(t.sessions, RoundsAfter(t, k), Noted(t, k).receipts)
  {
    RoundsAfterKeep(t, k);
    var row, result := t.inbox[(k, TerminalSlot)], FoldTerminal(t, k).1;
    var written := t.(rounds := RoundsAfter(t, k));
    ReceiptsFrame(t.sessions, t.rounds, written.rounds, t.receipts, Some(k));
    assert Receipted(t.rounds, t.receipts, k);
    if (k, TerminalSlot) in t.receipts {
      assert ReceiptOk(t.sessions, t.rounds, k, TerminalSlot, t.receipts[(k, TerminalSlot)]);
    }
    ReceiptKeeps(written, k, TerminalSlot, row.kind, row.thread, row.who.device, row.at, result.Redundant?,
      result.Revised?);
  }

  lemma FoldedReceipts(t: Tables, k: Key)
    requires Unsettled(t, k) && Folds(t, k)
    ensures ReceiptsInv(t.sessions, RoundsAfter(t, k), FoldTerminal(t, k).0.receipts)
  {
    NotedReceipts(t, k);
    SettledReceipts(Noted(t, k), (k, TerminalSlot), t.inbox[(k, TerminalSlot)].duplicates);
  }

  lemma FoldedInbox(t: Tables, k: Key)
    requires Unsettled(t, k) && Folds(t, k) && (k, PromptSlot) !in t.inbox
    ensures InboxInv(t.sessions, RoundsAfter(t, k), t.inbox - {(k, TerminalSlot)}, {})
  {
    RoundsAfterKeep(t, k);
    InboxFrame(t.sessions, t.rounds, RoundsAfter(t, k), t.inbox, {k});
    forall j: Key, s: Slot | (j, s) in t.inbox - {(k, TerminalSlot)}
      ensures j != k
    {
      assert s == PromptSlot || s == TerminalSlot;
    }
  }

  /** The summary table after the fold is rebuilt from the new rounds. */
  lemma FoldedSummaries(t: Tables, k: Key)
    requires Unsettled(t, k) && Folds(t, k)
    ensures SummariesInv(RoundsAfter(t, k), FoldTerminal(t, k).0.summaries)
  {
    RoundsAfterKeep(t, k);
    var session := t.rounds[FindRound(t.rounds, k).value].session;
    ResummarizeKeeps(t.rounds, RoundsAfter(t, k), t.summaries, session);
  }

  lemma FoldedTerminalKeeps(t: Tables, k: Key)
    requires Unsettled(t, k) && Folds(t, k) && (k, PromptSlot) !in t.inbox && |t.inbox| <= MAX_INBOX_ITEMS
    ensures Inv(FoldTerminal(t, k).0)
  {
    RoundsAfterKeep(t, k);
    FoldedReceipts(t, k);
    FoldedInbox(t, k);
    FoldedSummaries(t, k);
    FoldedFields(t, k);
    assert |t.inbox - {(k, TerminalSlot)}| <= |t.inbox| by {
      assert (t.inbox - {(k, TerminalSlot)}).Keys == t.inbox.Keys - {(k, TerminalSlot)};
    }
  }

  lemma FoldedFields(t: Tables, k: Key)
    requires Folds(t, k)
    ensures
      var done := FoldTerminal(t, k).0;
      && done.rounds == RoundsAfter(t, k) && done.sessions == t.sessions
      && done.inbox == t.inbox - {(k, TerminalSlot)}
  {
  }

  /** Adding to a duplicate counter changes nothing that matters. */
  lemma SettledReceipts(t: Tables, key: (Key, Slot), more: nat)
    requires ReceiptsInv(t.sessions, t.rounds, t.receipts) && key in t.receipts
    ensures ReceiptsInv(t.sessions, t.rounds,
                        t.receipts[key := t.receipts[key].(duplicates := t.receipts[key].duplicates + more)])
  {
    var receipts := t.receipts[key := t.receipts[key].(duplicates := t.receipts[key].duplicates + more)];
    assert ReceiptOk(t.sessions, t.rounds, key.0, key.1, t.receipts[key]);
    forall j: Key
      ensures Receipted(t.rounds, receipts, j)
    {
      assert Receipted(t.rounds, t.receipts, j);
    }
  }

  /** A session is found or appended, and sessions stay distinct. */
  lemma EnsureSessionKeeps(t: Tables, thread: Key)
    requires RoundsInv(t.sessions, t.rounds)
    ensures
      var (based, session) := EnsureSession(t, thread);
      && t.sessions <= based.sessions && session < |based.sessions| && based.sessions[session] == thread
      && based == t.(sessions := based.sessions)
      && RoundsInv(based.sessions, t.rounds)
  {
  }

  lemma SessionsGrow(t: Tables, sessions: seq<Key>, except: set<Key>)
    requires t.sessions <= sessions && RoundsInv(t.sessions, t.rounds)
    requires ReceiptsInv(t.sessions, t.rounds, t.receipts) && InboxInv(t.sessions, t.rounds, t.inbox, except)
    ensures ReceiptsInv(sessions, t.rounds, t.receipts) && InboxInv(sessions, t.rounds, t.inbox, except)
  {
    forall k: Key, s: Slot | (k, s) in t.receipts
      ensures ReceiptOk(sessions, t.rounds, k, s, t.receipts[(k, s)])
    {
      assert ReceiptOk(t.sessions, t.rounds, k, s, t.receipts[(k, s)]);
    }
    forall k: Key, s: Slot | (k, s) in t.inbox && k !in except
      ensures s.TerminalSlot? && RowWaits(sessions, t.rounds, k, t.inbox[(k, s)])
    {
      assert RowWaits(t.sessions, t.rounds, k, t.inbox[(k, s)]);
    }
  }

  /** A stored prompt row ready to fold. */
  ghost predicate PromptReady(t: Tables, k: Key) {
    && Unsettled(t, k) && (k, PromptSlot) in t.inbox && FindRound(t.rounds, k).None?
    && t.inbox[(k, PromptSlot)].text.Some? && t.inbox[(k, PromptSlot)].text.value != ""
  }

  lemma PromptRoundsKeep(t: Tables, k: Key)
    requires PromptReady(t, k)
    ensures
      var row, rounds' := t.inbox[(k, PromptSlot)], PromptRounds(t, k);
      var (based, session) := EnsureSession(t, row.thread);
      && RoundsInv(based.sessions, rounds') && |rounds'| == |t.rounds| + 1
      && (forall j: Key :: FindRound(rounds', j) == if j == k then Some(|t.rounds|) else FindRound(t.rounds, j))
      && (forall s: nat :: s != session ==> OfSession(rounds', s) == OfSession(t.rounds, s))
      && (forall j :: 0 <= j < |t.rounds| ==> rounds'[j] == t.rounds[j] || UpdateAllowed(t.rounds[j], rounds'[j]))
      && RoundMatches(based.sessions, rounds'[|t.rounds|], row.thread, row.who.device)
      && rounds'[|t.rounds|].State().Pending?
  {
    var row := t.inbox[(k, PromptSlot)];
    EnsureSessionKeeps(t, row.thread);
    var (based, session) := EnsureSession(t, row.thread);
    SupersedeKeepsRounds(based.sessions, t.rounds, session, row.at);
    AppendKeepsRounds(based.sessions, Supersede(t.rounds, session, row.at), session, k, row);
  }

  lemma PromptedReceipts(t: Tables, k: Key)
    requires PromptReady(t, k)
    ensures ReceiptsInv(Prompted(t, k).sessions, PromptRounds(t, k), Prompted(t, k).receipts)
  {
    var row := t.inbox[(k, PromptSlot)];
    EnsureSessionKeeps(t, row.thread);
    var (based, session) := EnsureSession(t, row.thread);
    SessionsGrow(t, based.sessions, {k});
    PromptRoundsKeep(t, k);
    var appended := based.(rounds := PromptRounds(t, k));
    ReceiptsFrame(based.sessions, t.rounds, appended.rounds, t.receipts, Some(k));
    ReceiptKeeps(appended, k, PromptSlot, Prompt, row.thread, row.who.device, row.at, false, false);
  }

  lemma PromptedInbox(t: Tables, k: Key)
    requires PromptReady(t, k)
    ensures InboxInv(Prompted(t, k).sessions, PromptRounds(t, k), Prompted(t, k).inbox, {k})
  {
    var row := t.inbox[(k, PromptSlot)];
    EnsureSessionKeeps(t, row.thread);
    var (based, session) := EnsureSession(t, row.thread);
    SessionsGrow(t, based.sessions, {k});
    PromptRoundsKeep(t, k);
    InboxFrame(based.sessions, t.rounds, PromptRounds(t, k), t.inbox, {k});
  }

  lemma PromptedFields(t: Tables, k: Key)
    requires (k, PromptSlot) in t.inbox
    ensures
      var ready := Prompted(t, k);
      var (based, session) := EnsureSession(t, t.inbox[(k, PromptSlot)].thread);
      && ready.sessions == based.sessions && ready.rounds == PromptRounds(t, k)
      && ready.inbox == t.inbox - {(k, PromptSlot)}
      && ready.summaries == Resummarize(PromptRounds(t, k), t.summaries, session)
  {
  }

  lemma PromptedSummaries(t: Tables, k: Key)
    requires PromptReady(t, k)
    ensures SummariesInv(PromptRounds(t, k), Prompted(t, k).summaries)
  {
    PromptRoundsKeep(t, k);
    PromptedFields(t, k);
    var session := EnsureSession(t, t.inbox[(k, PromptSlot)].thread).1;
    ResummarizeKeeps(t.rounds, PromptRounds(t, k), t.summaries, session);
  }

  lemma PromptedKeeps(t: Tables, k: Key)
    requires PromptReady(t, k)
    ensures Unsettled(Prompted(t, k), k) && (k, PromptSlot) !in Prompted(t, k).inbox
  {
    PromptRoundsKeep(t, k);
    PromptedReceipts(t, k);
    PromptedInbox(t, k);
    PromptedSummaries(t, k);
    PromptedFields(t, k);
  }

  lemma FoldPromptKeeps(t: Tables, k: Key)
    requires PromptReady(t, k) && |t.inbox| <= MAX_INBOX_ITEMS + 1
    ensures Inv(FoldPrompt(t, k).0) && !FoldPrompt(t, k).1.Broken?
  {
    hide Prompted;
    hide PromptRounds;
    hide FoldTerminal;
    PromptedKeeps(t, k);
    PromptedFields(t, k);
    assert (t.inbox - {(k, PromptSlot)}).Keys == t.inbox.Keys - {(k, PromptSlot)};
    FoldTerminalKeeps(Prompted(t, k), k);
  }

  // ----- Every transaction and every run -----

  lemma RecordKeepsInv(t: Tables, e: Event)
    requires Inv(t)
    ensures Inv(Record(t, e).0)
  {
    var (kept, persisted) := Persist(t, e);
    if e.kind.Prompt? {
      PersistPrompt(t, e);
      if persisted.Stored? {
        FoldPromptKeeps(kept, e.prompt);
      }
    } else {
      PersistTerminal(t, e);
      if persisted.Stored? || persisted.Revision? {
        FoldTerminalKeeps(kept, e.prompt);
      }
    }
  }

  /** The gateway's own conversation pairs add sessions to the same table. */
  datatype Action = Hook(event: Event) | Gateway(thread: Key)

  ghost function Act(t: Tables, a: Action): Tables {
    match a
    case Hook(event) => Record(t, event).0
    case Gateway(thread) => EnsureSession(t, thread).0
  }

  ghost function Run(t: Tables, actions: seq<Action>): Tables
    decreases |actions|
  {
    if actions == [] then t else Run(Act(t, actions[0]), actions[1..])
  }

  lemma ActKeepsInv(t: Tables, a: Action)
    requires Inv(t)
    ensures Inv(Act(t, a))
  {
    match a {
      case Hook(event) => RecordKeepsInv(t, event);
      case Gateway(thread) =>
        EnsureSessionKeeps(t, thread);
        SessionsGrow(t, Act(t, a).sessions, {});
    }
  }

  lemma {:induction false} RunKeepsInv(t: Tables, actions: seq<Action>)
    requires Inv(t)
    ensures Inv(Run(t, actions))
    decreases |actions|
  {
    if actions != [] {
      ActKeepsInv(t, actions[0]);
      RunKeepsInv(Act(t, actions[0]), actions[1..]);
    }
  }

  /** Every state that events in any order and number lead to from an empty database. */
  lemma EveryArchive(actions: seq<Action>)
    ensures var t := Run(EMPTY, actions);
      // Turns are exactly 1..n in each session; at most the last of its rounds is pending.
      && (forall s: nat :: SessionInv(OfSession(t.rounds, s)))
      // No prompt waits in the inbox, nothing waits for a round that exists, and the inbox is bounded.
      && (forall k: Key :: (k, PromptSlot) !in t.inbox)
      && (forall k: Key, i :: (k, TerminalSlot) in t.inbox && 0 <= i < |t.rounds| && t.rounds[i].prompt == k ==>
            !RoundMatches(t.sessions, t.rounds[i], t.inbox[(k, TerminalSlot)].thread,
              t.inbox[(k, TerminalSlot)].who.device))
      && |t.inbox| <= MAX_INBOX_ITEMS
      // A round exists exactly when its prompt receipt does, and prompt keys are unique.
      && (forall k: Key :: (k, PromptSlot) in t.receipts <==>
        exists i :: 0 <= i < |t.rounds| && t.rounds[i].prompt == k)
      && (forall i, j :: 0 <= i < j < |t.rounds| ==> t.rounds[i].prompt != t.rounds[j].prompt)
      // The summary table is what recomputing it from the rounds gives.
      && (forall s: nat :: SummaryOk(t.rounds, t.summaries, s))
  {
    EmptyInv();
    RunKeepsInv(EMPTY, actions);
    var t := Run(EMPTY, actions);
    forall k: Key, i | 0 <= i < |t.rounds| && t.rounds[i].prompt == k
      ensures FindRound(t.rounds, k) == Some(i)
    {
      assert FindRound(t.rounds, k).Some?;
    }
    forall k: Key
      ensures (k, PromptSlot) in t.receipts <==> exists i :: 0 <= i < |t.rounds| && t.rounds[i].prompt == k
    {
      assert Receipted(t.rounds, t.receipts, k);
      if (k, PromptSlot) in t.receipts {
        assert ReceiptOk(t.sessions, t.rounds, k, PromptSlot, t.receipts[(k, PromptSlot)]);
      }
    }
    forall k: Key, i | (k, TerminalSlot) in t.inbox && 0 <= i < |t.rounds| && t.rounds[i].prompt == k
      ensures !RoundMatches(t.sessions, t.rounds[i], t.inbox[(k, TerminalSlot)].thread,
        t.inbox[(k, TerminalSlot)].who.device)
    {
      assert RowWaits(t.sessions, t.rounds, k, t.inbox[(k, TerminalSlot)]);
    }
  }

  lemma EmptyInv()
    ensures Inv(EMPTY)
  {
    assert forall s: nat :: OfSession(EMPTY.rounds, s) == [];
  }

  // ----- Rounds are permanent -----

  /** Every round is still there, and changed only as the triggers allow. */
  ghost predicate RoundsEvolve(before: seq<Round>, after: seq<Round>) {
    && |before| <= |after|
    && forall i :: 0 <= i < |before| ==> after[i] == before[i] || UpdateAllowed(before[i], after[i])
  }

  /** The rounds of a new prompt's transaction between its insert and the fold of a waiting terminal. */
  ghost predicate EvolvesByInsert(t: Tables, e: Event) {
    var kept := Persist(t, e).0;
    && (e.prompt, PromptSlot) in kept.inbox
    && RoundsEvolve(t.rounds, PromptRounds(kept, e.prompt))
    && RoundsEvolve(PromptRounds(kept, e.prompt), Record(t, e).0.rounds)
  }

  /**
   * No event deletes a round or rewrites what is settled, the round that it inserts itself
   * included, so no trigger ever aborts a transaction.
   */
  lemma RecordEvolves(t: Tables, e: Event)
    requires Inv(t)
    ensures RoundsEvolve(t.rounds, Record(t, e).0.rounds)
    ensures e.kind.Prompt? && Persist(t, e).1.Stored? ==> EvolvesByInsert(t, e)
  {
    hide FoldPrompt;
    hide FoldTerminal;
    hide RoundsAfter;
    var (kept, persisted) := Persist(t, e);
    if e.kind.Prompt? {
      PersistPrompt(t, e);
      if persisted.Stored? {
        PromptedEvolves(kept, e.prompt);
        FoldPromptKeeps(kept, e.prompt);
        assert kept.rounds == t.rounds && Record(t, e).0 == FoldPrompt(kept, e.prompt).0;
      }
    } else {
      PersistTerminal(t, e);
      if persisted.Stored? || persisted.Revision? {
        FoldEvolves(kept, e.prompt);
      }
    }
  }

  lemma FoldPromptIs(t: Tables, k: Key)
    requires PromptReady(t, k)
    ensures FoldPrompt(t, k).0 == FoldTerminal(Prompted(t, k), k).0
  {
    hide Prompted;
    hide FoldTerminal;
  }

  /** A fold updates no round but the one of its prompt, and that as the triggers allow. */
  lemma FoldEvolves(t: Tables, k: Key)
    requires RoundsInv(t.sessions, t.rounds)
    requires (k, TerminalSlot) in t.inbox ==> !t.inbox[(k, TerminalSlot)].kind.Prompt?
    ensures var done := FoldTerminal(t, k).0.rounds;
      && RoundsEvolve(t.rounds, done) && |done| == |t.rounds|
      && forall j :: 0 <= j < |t.rounds| && FindRound(t.rounds, k) != Some(j) ==> done[j] == t.rounds[j]
  {
    hide UpdateAllowed;
    hide RoundsInv;
    if Folds(t, k) {
      RoundsAfterKeep(t, k);
      FoldedFields(t, k);
      hide FoldTerminal;
    }
  }

  lemma PromptedEvolves(t: Tables, k: Key)
    requires PromptReady(t, k)
    ensures RoundsEvolve(t.rounds, FoldPrompt(t, k).0.rounds)
    ensures RoundsEvolve(t.rounds, PromptRounds(t, k)) && RoundsEvolve(PromptRounds(t, k), FoldPrompt(t, k).0.rounds)
  {
    hide Prompted;
    hide PromptRounds;
    hide FoldTerminal;
    hide UpdateAllowed;
    hide RoundsInv;
    PromptRoundsKeep(t, k);
    PromptedFields(t, k);
    FoldPromptIs(t, k);
    hide FoldPrompt;
    FoldEvolves(Prompted(t, k), k);
    assert FindRound(Prompted(t, k).rounds, k) == Some(|t.rounds|);
  }
}
