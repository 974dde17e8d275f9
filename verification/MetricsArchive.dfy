/**
 * The archive as the store keeps it: one object whose tables every hook event updates in
 * place inside a transaction. Each method is proved against the functions of `HookArchive`.
 */
module MetricsArchive {
  import opened Options
  import H = HookArchive
  import I = ArchiveInvariants
  import R = RecordedReceipts

  class Archive {
    var sessions: seq<H.Key>
    var rounds: seq<H.Round>
    var inbox: map<(H.Key, H.Slot), H.InboxRow>
    var receipts: map<(H.Key, H.Slot), H.Receipt>
    var summaries: map<nat, H.Summary>

    var enqueued: nat
    var written: nat
    var dropped: nat
    var failed: nat

    function Contents(): H.Tables
      reads this
    {
      H.Tables(sessions, rounds, inbox, receipts, summaries)
    }

    constructor ()
      ensures Contents() == H.EMPTY && I.Inv(Contents())
      ensures enqueued == written == dropped == failed == 0
    {
      sessions, rounds, inbox, receipts, summaries := [], [], map[], map[], map[];
      enqueued, written, dropped, failed := 0, 0, 0, 0;
      new;
      I.EmptyInv();
    }

    method HasCapacity(e: H.Event) returns (ok: bool)
      ensures ok == H.HasCapacity(inbox, e)
    {
      var keys, retained: nat := inbox.Keys, 0;
      while keys != {}
        invariant keys <= inbox.Keys
        invariant retained + H.RetainedBytes(inbox, keys) == H.RetainedBytes(inbox, inbox.Keys)
        decreases |keys|
      {
        var k :| k in keys;
        RetainedWithout(inbox, keys, k);
        retained := retained + inbox[k].bytes + H.OVERHEAD_BYTES;
        keys := keys - {k};
      }
      ok := |inbox| < H.MAX_INBOX_ITEMS && retained + e.bytes + H.OVERHEAD_BYTES <= H.MAX_INBOX_BYTES;
    }

    method RecordReceipt(prompt: H.Key, slot: H.Slot, kind: H.Kind, thread: H.Key, device: string, at: nat,
                         duplicate: bool, revision: bool)
      modifies this`receipts
      ensures Contents() == H.RecordReceipt(old(Contents()), prompt, slot, kind, thread, device, at, duplicate,
        revision)
    {
      var key := (prompt, slot);
      var dup, rev := if duplicate then 1 else 0, if revision then 1 else 0;
      if key in receipts {
        var r := receipts[key];
        if revision {
          r := r.(kind := kind, at := at);
        }
        receipts := receipts[key := r.(duplicates := r.duplicates + dup, revisions := r.revisions + rev)];
      } else {
        receipts := receipts[key := H.Receipt(kind, thread, device, at, dup, rev)];
      }
    }

    method RebuildSummary(session: nat)
      modifies this`summaries
      ensures summaries == H.Resummarize(rounds, old(summaries), session)
    {
      hide H.OfSession;
      hide H.Summarize;
      summaries := summaries - {session};
      var rows := H.OfSession(rounds, session);
      if rows != [] {
        summaries := summaries[session := H.Summarize(rows)];
        assert summaries == old(summaries)[session := H.Summarize(rows)];
      }
    }

    /** `Mismatch` stands for the exceptions. */
    method PersistInbox(e: H.Event) returns (status: H.Persisted)
      modifies this`inbox, this`receipts
      ensures (Contents(), status) == H.Persist(old(Contents()), e)
    {
      var slot := e.Slot();
      var key := (e.prompt, slot);
      var keyed := H.FindRound(rounds, e.prompt);
      if keyed.Some? && !H.RoundMatches(sessions, rounds[keyed.value], e.thread, e.who.device) {
        return H.Mismatch;
      }
      if key in receipts {
        var receipt := receipts[key];
        if receipt.thread != e.thread || receipt.device != e.who.device {
          return H.Mismatch;
        }
        if slot.PromptSlot? || !receipt.kind.Stop? {
          RecordReceipt(e.prompt, slot, e.kind, e.thread, e.who.device, e.at, true, false);
          return H.Duplicate;
        }
      }
      if key in inbox {
        var row := inbox[key];
        if row.thread != e.thread || row.who.device != e.who.device {
          return H.Mismatch;
        }
        var same := row.kind == e.kind && row.text == e.text && row.truncated == e.truncated
          && row.failureCode == e.failureCode;
        if same || !row.kind.Stop? || !e.kind.Stop? || e.at <= row.at {
          inbox := inbox[key := row.(duplicates := row.duplicates + 1)];
          return H.Duplicate;
        }
        inbox := inbox[key := row.(at := e.at, text := e.text, bytes := e.bytes, truncated := e.truncated,
                                   duplicates := row.duplicates + 1)];
        return H.Revision;
      }
      if slot.TerminalSlot? {
        var room := HasCapacity(e);
        if !room {
          return H.Full;
        }
      }
      inbox := inbox[key := H.RowOf(e)];
      return H.Stored;
    }

    /** The round takes the response of the waiting terminal row, and the receipt says what became of it. */
    method Answer(prompt: H.Key) returns (result: H.Folded)
      requires H.Folds(Contents(), prompt)
      modifies this`rounds, this`receipts
      ensures Contents() == I.Noted(old(Contents()), prompt) && result == H.FoldTerminal(old(Contents()), prompt).1
    {
      hide H.Resummarize;
      var row, i := inbox[(prompt, H.TerminalSlot)], H.FindRound(rounds, prompt).value;
      var round := rounds[i];
      result := H.Redundant;
      if round.State().Pending? {
        rounds := rounds[i := round.(response := H.Terminated(row))];
        result := H.Applied;
        RecordReceipt(prompt, H.TerminalSlot, row.kind, row.thread, row.who.device, row.at, false, false);
      } else if round.State().Complete? && row.kind.Stop? {
        var same := round.response.text == H.TextOf(row) && round.response.truncated == row.truncated;
        if !same && round.response.completedAt.Some? && row.at > round.response.completedAt.value {
          rounds := rounds[i := round.(response := H.Terminated(row))];
          result := H.Revised;
        } else {
          assert rounds == rounds[i := round.(response := round.response)];
        }
        RecordReceipt(prompt, H.TerminalSlot, H.Stop, row.thread, row.who.device, row.at, result.Redundant?,
          result.Revised?);
      } else {
        assert rounds == rounds[i := round.(response := round.response)];
        RecordReceipt(prompt, H.TerminalSlot, row.kind, row.thread, row.who.device, row.at, true, false);
      }
    }

    /** The waiting terminal row is answered, adds its duplicates to the receipt, and goes. */
    method TakeRow(prompt: H.Key) returns (result: H.Folded)
      requires H.Folds(Contents(), prompt)
      modifies this`rounds, this`inbox, this`receipts, this`summaries
      ensures (Contents(), result) == H.FoldTerminal(old(Contents()), prompt)
    {
      hide H.Resummarize;
      hide H.Respond;
      var key := (prompt, H.TerminalSlot);
      var row, session := inbox[key], rounds[H.FindRound(rounds, prompt).value].session;
      result := Answer(prompt);
      if row.duplicates > 0 {
        var receipt := receipts[key];
        receipts := receipts[key := receipt.(duplicates := receipt.duplicates + row.duplicates)];
      } else {
        assert receipts == receipts[key := receipts[key]];
      }
      inbox := inbox - {key};
      RebuildSummary(session);
    }

    method FoldTerminal(prompt: H.Key) returns (result: H.Folded)
      modifies this`rounds, this`inbox, this`receipts, this`summaries
      ensures (Contents(), result) == H.FoldTerminal(old(Contents()), prompt)
      ensures R.FoldedExactly(old(Contents()), prompt, Contents(), result)
    {
      ghost var before := Contents();
      R.FoldExactly(before, prompt);
      hide R.FoldedExactly;
      var key := (prompt, H.TerminalSlot);
      if key !in inbox {
        return H.NoRow;
      }
      var row := inbox[key];
      var found := H.FindRound(rounds, prompt);
      if found.None? || !H.RoundMatches(sessions, rounds[found.value], row.thread, row.who.device) {
        return H.Orphan;
      }
      hide H.FoldTerminal;
      result := TakeRow(prompt);
    }

    method EnsureSession(thread: H.Key) returns (session: nat)
      modifies this`sessions
      ensures (Contents(), session) == H.EnsureSession(old(Contents()), thread)
    {
      var found := H.FindSession(sessions, thread);
      if found.Some? {
        return found.value;
      }
      session := |sessions|;
      sessions := sessions + [thread];
    }

    method OpenRound(prompt: H.Key)
      requires (prompt, H.PromptSlot) in inbox
      modifies this`sessions, this`rounds, this`inbox, this`receipts, this`summaries
      ensures Contents() == H.Prompted(old(Contents()), prompt)
    {
      hide H.LatestPending;
      hide H.Resummarize;
      hide H.NewRound;
      hide H.Ended;
      var key := (prompt, H.PromptSlot);
      var row := inbox[key];
      var session := EnsureSession(row.thread);
      var pending := H.LatestPending(rounds, session);
      if pending.Some? {
        rounds := rounds[pending.value := H.Ended(rounds[pending.value], row.at)];
      }
      rounds := rounds + [H.NewRound(rounds, session, prompt, row)];
      RecordReceipt(prompt, H.PromptSlot, H.Prompt, row.thread, row.who.device, row.at, false, false);
      inbox := inbox - {key};
      RebuildSummary(session);
    }

    /** `Broken` stands for the exception. */
    method FoldPrompt(prompt: H.Key) returns (result: H.Folded)
      modifies this`sessions, this`rounds, this`inbox, this`receipts, this`summaries
      ensures (Contents(), result) == H.FoldPrompt(old(Contents()), prompt)
    {
      var key := (prompt, H.PromptSlot);
      if key !in inbox {
        return H.NoRow;
      }
      var row := inbox[key];
      var found := H.FindRound(rounds, prompt);
      if found.Some? {
        if !H.RoundMatches(sessions, rounds[found.value], row.thread, row.who.device) {
          return H.Broken;
        }
        RecordReceipt(prompt, H.PromptSlot, H.Prompt, row.thread, row.who.device, row.at, true, false);
        inbox := inbox - {key};
        result := FoldTerminal(prompt);
        return;
      }
      OpenRound(prompt);
      result := FoldTerminal(prompt);
      if result.NoRow? || result.Orphan? {
        result := H.Applied;
      }
    }

    method Rollback(begin: H.Tables)
      modifies this`sessions, this`rounds, this`inbox, this`receipts, this`summaries
      ensures Contents() == begin
    {
      sessions, rounds, inbox, receipts, summaries :=
        begin.sessions, begin.rounds, begin.inbox, begin.receipts, begin.summaries;
    }

    /** The transaction of one event: what it wrote is kept or rolled back as a whole. */
    method Transact(e: H.Event) returns (outcome: H.Outcome)
      modifies this`sessions, this`rounds, this`inbox, this`receipts, this`summaries
      ensures (Contents(), outcome) == H.Record(old(Contents()), e)
    {
      hide H.Persist;
      hide H.FoldPrompt;
      hide H.FoldTerminal;
      var begin := Contents();
      var persisted := PersistInbox(e);
      match persisted {
        case Full =>
          Rollback(begin);
          return H.RefusedFull;
        case Mismatch =>
          Rollback(begin);
          return H.RolledBack;
        case Duplicate =>
          return H.Accepted(persisted, H.NoRow);
        case _ =>
          var folded;
          if e.kind.Prompt? {
            folded := FoldPrompt(e.prompt);
          } else {
            folded := FoldTerminal(e.prompt);
          }
          if folded.Broken? {
            Rollback(begin);
            return H.RolledBack;
          }
          return H.Accepted(persisted, folded);
      }
    }

    /** One normalized event; the counters tell accepted, written, refused and failed events apart. */
    method RecordEvent(e: H.Event) returns (ok: bool)
      modifies this
      ensures Contents() == H.Record(old(Contents()), e).0
      ensures old(I.Inv(Contents())) ==> I.Inv(Contents())
      ensures old(I.Inv(Contents())) ==>
        var before := old(Contents());
        && ok == (!R.Foreign(before, e) && !R.NoRoom(before, e))
        && (if ok then R.Recorded(before, e, Contents()) else Contents() == before)
        && enqueued == old(enqueued) + (if ok then 1 else 0)
        && written == old(written) + (if rounds != before.rounds then 1 else 0)
        && failed == old(failed) + (if R.Foreign(before, e) then 1 else 0)
        && dropped == old(dropped) + (if !R.Foreign(before, e) && R.NoRoom(before, e) then 1 else 0)
      ensures var outcome := H.Record(old(Contents()), e).1;
        && ok == outcome.Accepted?
        && enqueued == old(enqueued) + (if outcome.Accepted? then 1 else 0)
        && written == old(written) +
          (if outcome.Accepted? && (outcome.folded.Applied? || outcome.folded.Revised?) then 1 else 0)
        && dropped == old(dropped) + (if outcome.RefusedFull? then 1 else 0)
        && failed == old(failed) + (if outcome.RolledBack? then 1 else 0)
    {
      hide H.Record;
      hide I.Inv;
      ghost var before := Contents();
      if I.Inv(before) {
        I.RecordKeepsInv(before, e);
        R.RecordExactly(before, e);
      }
      hide R.Recorded;
      hide R.Foreign;
      hide R.NoRoom;
      var outcome := Transact(e);
      match outcome
      case Accepted(_, folded) =>
        enqueued := enqueued + 1;
        if folded.Applied? || folded.Revised? {
          written := written + 1;
        }
        ok := true;
      case RefusedFull =>
        dropped := dropped + 1;
        ok := false;
      case RolledBack =>
        failed := failed + 1;
        ok := false;
    }
  }

  /** The retained bytes do not depend on the order in which rows are added up. */
  lemma {:induction false} RetainedWithout(inbox: map<(H.Key, H.Slot), H.InboxRow>, keys: set<(H.Key, H.Slot)>,
      k: (H.Key, H.Slot))
    requires keys <= inbox.Keys && k in keys
    ensures H.RetainedBytes(inbox, keys) == inbox[k].bytes + 4096 + H.RetainedBytes(inbox, keys - {k})
    decreases |keys|
  {
    var j :|
      && j in keys
      && H.RetainedBytes(inbox, keys) == inbox[j].bytes + H.OVERHEAD_BYTES + H.RetainedBytes(inbox, keys - {j});
    if j != k {
      RetainedWithout(inbox, keys - {j}, k);
      RetainedWithout(inbox, keys - {k}, j);
      assert keys - {j} - {k} == keys - {k} - {j};
    }
  }
}
