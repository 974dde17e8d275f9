/**
 * The archive follows the state of a single prompt key, whatever else arrives meanwhile, so
 * the final round is a function of the terminal order alone; and redelivery changes no round.
 */
module PromptInArchive {
  import opened Options
  import opened HookArchive
  import opened ArchiveInvariants
  import opened PromptPosition

  // ----- The archive follows the key -----

  /** Whatever the archive holds of the key belongs to this thread and device. */
  ghost predicate Consistent(t: Tables, k: Key, thread: Key, device: string) {
    && ((k, TerminalSlot) in t.inbox ==>
          t.inbox[(k, TerminalSlot)].thread == thread && t.inbox[(k, TerminalSlot)].who.device == device)
    && (FindRound(t.rounds, k).Some? ==>
      RoundMatches(t.sessions, t.rounds[FindRound(t.rounds, k).value], thread, device))
  }

  /** No other prompt has a round in the session of this thread. */
  ghost predicate Alone(sessions: seq<Key>, rounds: seq<Round>, k: Key, thread: Key) {
    forall i :: 0 <= i < |rounds| && rounds[i].session < |sessions| && sessions[rounds[i].session] == thread ==>
      rounds[i].prompt == k
  }

  ghost predicate Tracks(t: Tables, k: Key, thread: Key, device: string, v: KeyState) {
    Consistent(t, k, thread, device) && Alone(t.sessions, t.rounds, k, thread) && StateOf(t, k) == v
  }

  /** The event is one of the key's own. */
  ghost predicate Own(e: Event, k: Key, thread: Key, device: string) {
    e.prompt == k && e.thread == thread && e.who.device == device
  }

  /** A settled round does not respond to what its receipt makes a duplicate. */
  lemma ReceiptSilences(t: Tables, e: Event)
    requires Inv(t) && !e.kind.Prompt? && FindRound(t.rounds, e.prompt).Some?
    requires (e.prompt, TerminalSlot) in t.receipts && !t.receipts[(e.prompt, TerminalSlot)].kind.Stop?
    ensures var r := t.rounds[FindRound(t.rounds, e.prompt).value].response; Respond(r, RowOf(e)) == r
  {
    assert Receipted(t.rounds, t.receipts, e.prompt);
    assert ReceiptOk(t.sessions, t.rounds, e.prompt, TerminalSlot, t.receipts[(e.prompt, TerminalSlot)]);
  }

  lemma NoReceiptYet(t: Tables, k: Key, slot: Slot)
    requires Inv(t) && FindRound(t.rounds, k).None?
    ensures (k, slot) !in t.receipts
  {
  }

  lemma NothingWaits(t: Tables, k: Key, thread: Key, device: string)
    requires Inv(t) && Consistent(t, k, thread, device) && FindRound(t.rounds, k).Some?
    ensures (k, TerminalSlot) !in t.inbox
  {
  }

  /** A terminal event whose round is not there yet. */
  lemma OwnTerminalWaits(t: Tables, e: Event, thread: Key, device: string, v: KeyState)
    requires Inv(t) && Tracks(t, e.prompt, thread, device, v) && Own(e, e.prompt, thread, device) && !e.kind.Prompt?
    requires !Record(t, e).1.RefusedFull? && v.response.None?
    ensures Tracks(Record(t, e).0, e.prompt, thread, device, KeyStep(v, e))
  {
    var key := (e.prompt, TerminalSlot);
    NoReceiptYet(t, e.prompt, TerminalSlot);
    var (kept, persisted) := Persist(t, e);
    assert kept == t.(inbox := t.inbox[key := if key in t.inbox then Merge(t.inbox[key], e) else RowOf(e)]);
    assert !Folds(kept, e.prompt);
    assert Record(t, e).0 == kept;
  }

  /** A terminal event whose round exists. */
  lemma OwnTerminalAnswers(t: Tables, e: Event, thread: Key, device: string, v: KeyState)
    requires Inv(t) && Tracks(t, e.prompt, thread, device, v) && Own(e, e.prompt, thread, device) && !e.kind.Prompt?
    requires !Record(t, e).1.RefusedFull? && v.response.Some?
    ensures Tracks(Record(t, e).0, e.prompt, thread, device, KeyStep(v, e))
  {
    var key := (e.prompt, TerminalSlot);
    var i := FindRound(t.rounds, e.prompt).value;
    NothingWaits(t, e.prompt, thread, device);
    if key in t.receipts {
      assert ReceiptOk(t.sessions, t.rounds, e.prompt, TerminalSlot, t.receipts[key]);
    }
    var (kept, persisted) := Persist(t, e);
    if persisted.Duplicate? {
      ReceiptSilences(t, e);
    } else {
      assert kept == t.(inbox := t.inbox[key := RowOf(e)]);
      assert Folds(kept, e.prompt);
      AnswersInPlace(kept, e.prompt, thread, device);
    }
  }

  lemma AnswersInPlace(t: Tables, k: Key, thread: Key, device: string)
    requires Folds(t, k) && Consistent(t, k, thread, device) && Alone(t.sessions, t.rounds, k, thread)
    ensures
      var row := t.inbox[(k, TerminalSlot)];
      var response := Respond(t.rounds[FindRound(t.rounds, k).value].response, row);
      Tracks(FoldTerminal(t, k).0, k, thread, device, KeyState(None, Some(response)))
  {
    FoldedFields(t, k);
    var i := FindRound(t.rounds, k).value;
    FindRoundUpdate(t.rounds, i, RoundsAfter(t, k)[i], k);
  }

  /** A prompt whose round exists is a duplicate. */
  lemma OwnPromptAgain(t: Tables, e: Event, thread: Key, device: string, v: KeyState)
    requires Inv(t) && Tracks(t, e.prompt, thread, device, v) && Own(e, e.prompt, thread, device) && e.kind.Prompt?
    requires v.response.Some?
    ensures Tracks(Record(t, e).0, e.prompt, thread, device, v)
  {
    var key := (e.prompt, PromptSlot);
    assert Receipted(t.rounds, t.receipts, e.prompt);
    assert ReceiptOk(t.sessions, t.rounds, e.prompt, PromptSlot, t.receipts[key]);
  }

  /** A prompt alone in its session supersedes nothing. */
  lemma PromptOpens(t: Tables, k: Key, thread: Key, device: string)
    requires (k, PromptSlot) in t.inbox && t.inbox[(k, PromptSlot)].thread == thread
    requires t.inbox[(k, PromptSlot)].who.device == device
    requires RoundsInv(t.sessions, t.rounds) && Alone(t.sessions, t.rounds, k, thread) && FindRound(t.rounds, k).None?
    ensures
      var rounds' := PromptRounds(t, k);
      && |rounds'| == |t.rounds| + 1 && rounds'[..|t.rounds|] == t.rounds
      && rounds'[|t.rounds|].prompt == k && rounds'[|t.rounds|].response == UNANSWERED
      && RoundMatches(EnsureSession(t, thread).0.sessions, rounds'[|t.rounds|], thread, device)
  {
    EnsureSessionKeeps(t, thread);
    var session := EnsureSession(t, thread).1;
    assert forall i :: 0 <= i < |t.rounds| ==> t.rounds[i].session != session;
    assert Supersede(t.rounds, session, t.inbox[(k, PromptSlot)].at) == t.rounds;
  }

  lemma AloneAppended(sessions: seq<Key>, sessions': seq<Key>, rounds: seq<Round>, rounds': seq<Round>, k: Key,
      thread: Key)
    requires RowsInv(sessions, rounds) && Alone(sessions, rounds, k, thread) && sessions <= sessions'
    requires |rounds'| == |rounds| + 1 && rounds'[..|rounds|] == rounds && rounds'[|rounds|].prompt == k
    ensures Alone(sessions', rounds', k, thread)
  {
    assert forall i :: 0 <= i < |rounds| ==> rounds'[i] == rounds'[..|rounds|][i] && rounds[i].session < |sessions|;
  }

  lemma PromptedTracks(t: Tables, k: Key, thread: Key, device: string)
    requires PromptReady(t, k)
    requires Consistent(t, k, thread, device) && Alone(t.sessions, t.rounds, k, thread)
    requires t.inbox[(k, PromptSlot)].thread == thread && t.inbox[(k, PromptSlot)].who.device == device
    ensures Tracks(Prompted(t, k), k, thread, device, KeyState(StateOf(t, k).row, Some(UNANSWERED)))
  {
    hide Prompted;
    hide PromptRounds;
    hide EnsureSession;
    EnsureSessionKeeps(t, thread);
    PromptOpens(t, k, thread, device);
    PromptedFields(t, k);
    PromptRoundsKeep(t, k);
    var ready := Prompted(t, k);
    AloneAppended(t.sessions, ready.sessions, t.rounds, ready.rounds, k, thread);
    assert FindRound(ready.rounds, k) == Some(|t.rounds|);
  }

  /** The first prompt opens the round and answers it with what waits in the inbox. */
  lemma OwnPromptFirst(t: Tables, e: Event, thread: Key, device: string, v: KeyState)
    requires Inv(t) && Tracks(t, e.prompt, thread, device, v) && Own(e, e.prompt, thread, device) && e.kind.Prompt?
    requires v.response.None?
    ensures Tracks(Record(t, e).0, e.prompt, thread, device, KeyStep(v, e))
  {
    hide Prompted;
    hide RoundsAfter;
    PersistPrompt(t, e);
    var (kept, persisted) := Persist(t, e);
    NoReceiptYet(t, e.prompt, PromptSlot);
    assert (e.prompt, PromptSlot) !in t.inbox && persisted.Stored?;
    PromptedTracks(kept, e.prompt, thread, device);
    FoldPromptKeeps(kept, e.prompt);
    var ready := Prompted(kept, e.prompt);
    assert Record(t, e).0 == FoldTerminal(ready, e.prompt).0;
    if Folds(ready, e.prompt) {
      AnswersInPlace(ready, e.prompt, thread, device);
    }
  }

  lemma OwnStep(t: Tables, e: Event, thread: Key, device: string, v: KeyState)
    requires Inv(t) && Tracks(t, e.prompt, thread, device, v) && Own(e, e.prompt, thread, device)
    requires !Record(t, e).1.RefusedFull?
    ensures Tracks(Record(t, e).0, e.prompt, thread, device, KeyStep(v, e))
  {
    if e.kind.Prompt? {
      if v.response.Some? {
        OwnPromptAgain(t, e, thread, device, v);
      } else {
        OwnPromptFirst(t, e, thread, device, v);
      }
    } else if v.response.Some? {
      OwnTerminalAnswers(t, e, thread, device, v);
    } else {
      OwnTerminalWaits(t, e, thread, device, v);
    }
  }

  // ----- Everything else that happens meanwhile -----

  /** The action has nothing to do with the key, and opens no round in its session. */
  ghost predicate Elsewhere(a: Action, k: Key, thread: Key) {
    a.Hook? ==> a.event.prompt != k && (a.event.kind.Prompt? ==> a.event.thread != thread)
  }

  /** Rounds only grow, keep their owner, and those of the key and its session stay as they are. */
  ghost predicate RoundsStand(rounds: seq<Round>, rounds': seq<Round>, sessions': seq<Key>, k: Key, thread: Key) {
    && |rounds| <= |rounds'| && FindRound(rounds', k) == FindRound(rounds, k)
    && (forall i :: 0 <= i < |rounds| ==>
          && rounds'[i].prompt == rounds[i].prompt && rounds'[i].session == rounds[i].session
          && rounds'[i].who == rounds[i].who && (rounds[i].prompt == k ==> rounds'[i] == rounds[i]))
    && (forall i :: |rounds| <= i < |rounds'| ==>
          rounds'[i].session < |sessions'| && sessions'[rounds'[i].session] != thread)
  }

  lemma TracksFrame(t: Tables, t': Tables, k: Key, thread: Key, device: string, v: KeyState)
    requires RowsInv(t.sessions, t.rounds) && Tracks(t, k, thread, device, v)
    requires t.sessions <= t'.sessions && RoundsStand(t.rounds, t'.rounds, t'.sessions, k, thread)
    requires (k, TerminalSlot) in t'.inbox <==> (k, TerminalSlot) in t.inbox
    requires (k, TerminalSlot) in t.inbox ==> t'.inbox[(k, TerminalSlot)] == t.inbox[(k, TerminalSlot)]
    ensures Tracks(t', k, thread, device, v)
  {
  }

  /** Folding the terminal row of another key. */
  lemma OtherFold(t: Tables, j: Key, k: Key, thread: Key, device: string, v: KeyState)
    requires RowsInv(t.sessions, t.rounds) && Tracks(t, k, thread, device, v) && j != k
    ensures Tracks(FoldTerminal(t, j).0, k, thread, device, v)
  {
    if Folds(t, j) {
      var i := FindRound(t.rounds, j).value;
      FindRoundUpdate(t.rounds, i, RoundsAfter(t, j)[i], k);
      FoldedFields(t, j);
      TracksFrame(t, FoldTerminal(t, j).0, k, thread, device, v);
    }
  }

  /** The prompt of another thread supersedes only rounds of its own session. */
  lemma OtherRounds(t: Tables, j: Key, thread: Key)
    requires PromptReady(t, j) && t.inbox[(j, PromptSlot)].thread != thread
    ensures
      var rounds', sessions' := PromptRounds(t, j), EnsureSession(t, t.inbox[(j, PromptSlot)].thread).0.sessions;
      && |rounds'| == |t.rounds| + 1
      && (forall i :: 0 <= i < |t.rounds| && t.sessions[t.rounds[i].session] == thread ==> rounds'[i] == t.rounds[i])
      && rounds'[|t.rounds|].session < |sessions'| && sessions'[rounds'[|t.rounds|].session] != thread
  {
    EnsureSessionKeeps(t, t.inbox[(j, PromptSlot)].thread);
  }

  /** What the triggers allow leaves a round with its prompt, session and owner. */
  lemma OwnersKept(before: seq<Round>, after: seq<Round>)
    requires |before| <= |after|
    requires forall i :: 0 <= i < |before| ==> after[i] == before[i] || UpdateAllowed(before[i], after[i])
    ensures forall i :: 0 <= i < |before| ==>
      after[i].prompt == before[i].prompt && after[i].session == before[i].session && after[i].who == before[i].who
  {
  }

  lemma UnsettledRows(t: Tables, k: Key)
    requires Unsettled(t, k)
    ensures RoundsInv(t.sessions, t.rounds) && RowsInv(t.sessions, t.rounds)
  {
  }

  /** The round of the key stands, because its session is another one. */
  lemma OwnRoundStands(t: Tables, j: Key, k: Key, thread: Key, device: string)
    requires PromptReady(t, j) && Consistent(t, k, thread, device) && Alone(t.sessions, t.rounds, k, thread)
    requires t.inbox[(j, PromptSlot)].thread != thread
    ensures |PromptRounds(t, j)| == |t.rounds| + 1
    ensures forall i :: 0 <= i < |t.rounds| && t.rounds[i].prompt == k ==> PromptRounds(t, j)[i] == t.rounds[i]
  {
    hide PromptRounds;
    hide EnsureSession;
    hide SessionInv;
    OtherRounds(t, j, thread);
    forall i | 0 <= i < |t.rounds| && t.rounds[i].prompt == k
      ensures t.sessions[t.rounds[i].session] == thread
    {
      assert FindRound(t.rounds, k).Some?;
    }
  }

  lemma PromptedRoundsStand(t: Tables, j: Key, k: Key, thread: Key, device: string)
    requires PromptReady(t, j) && Consistent(t, k, thread, device) && Alone(t.sessions, t.rounds, k, thread)
    requires t.inbox[(j, PromptSlot)].thread != thread && j != k
    ensures RoundsStand(t.rounds, PromptRounds(t, j), EnsureSession(t, t.inbox[(j, PromptSlot)].thread).0.sessions, k,
      thread)
  {
    OwnRoundStands(t, j, k, thread, device);
    OtherRounds(t, j, thread);
    hide PromptRounds;
    hide EnsureSession;
    hide UpdateAllowed;
    hide OfSession;
    PromptRoundsKeep(t, j);
    OwnersKept(t.rounds, PromptRounds(t, j));
  }

  lemma OtherPrompted(t: Tables, j: Key, k: Key, thread: Key, device: string, v: KeyState)
    requires PromptReady(t, j) && Tracks(t, k, thread, device, v) && j != k && t.inbox[(j, PromptSlot)].thread != thread
    ensures Tracks(Prompted(t, j), k, thread, device, v)
  {
    hide Prompted;
    hide PromptRounds;
    hide EnsureSession;
    hide RoundsStand;
    PromptedRoundsStand(t, j, k, thread, device);
    UnsettledRows(t, j);
    EnsureSessionKeeps(t, t.inbox[(j, PromptSlot)].thread);
    PromptedFields(t, j);
    TracksFrame(t, Prompted(t, j), k, thread, device, v);
  }

  lemma PersistElsewhere(t: Tables, e: Event, k: Key, thread: Key, device: string, v: KeyState)
    requires Tracks(t, k, thread, device, v) && e.prompt != k
    ensures Tracks(Persist(t, e).0, k, thread, device, v)
  {
    hide RoundMatches;
    hide HasCapacity;
    hide Merge;
    hide Absorbs;
  }

  lemma OtherPrompt(t: Tables, e: Event, k: Key, thread: Key, device: string, v: KeyState)
    requires Inv(t) && Tracks(t, k, thread, device, v) && Elsewhere(Hook(e), k, thread) && e.kind.Prompt?
    ensures Tracks(Record(t, e).0, k, thread, device, v)
  {
    hide FoldTerminal;
    hide Prompted;
    var (kept, persisted) := Persist(t, e);
    PersistElsewhere(t, e, k, thread, device, v);
    PersistPrompt(t, e);
    if persisted.Stored? {
      OtherPrompted(kept, e.prompt, k, thread, device, v);
      PromptedKeeps(kept, e.prompt);
      var ready := Prompted(kept, e.prompt);
      OtherFold(ready, e.prompt, k, thread, device, v);
    }
  }

  lemma OtherTerminal(t: Tables, e: Event, k: Key, thread: Key, device: string, v: KeyState)
    requires Inv(t) && Tracks(t, k, thread, device, v) && Elsewhere(Hook(e), k, thread) && !e.kind.Prompt?
    ensures Tracks(Record(t, e).0, k, thread, device, v)
  {
    hide FoldTerminal;
    hide Persist;
    var (kept, persisted) := Persist(t, e);
    PersistElsewhere(t, e, k, thread, device, v);
    PersistTerminal(t, e);
    if persisted.Stored? || persisted.Revision? {
      OtherFold(kept, e.prompt, k, thread, device, v);
    }
  }

  // ----- Whole runs -----

  function OwnEvent(a: Action, k: Key): seq<Event> {
    if a.Hook? && a.event.prompt == k then [a.event] else []
  }

  /** The events of the key, in order of arrival. */
  function OwnEvents(actions: seq<Action>, k: Key): seq<Event>
    decreases |actions|
  {
    if actions == [] then [] else OwnEvent(actions[0], k) + OwnEvents(actions[1..], k)
  }

  /** The key determines thread and device, and no other prompt of its thread ever arrives. */
  ghost predicate Solitary(actions: seq<Action>, k: Key, thread: Key, device: string) {
    forall i :: 0 <= i < |actions| ==>
      (actions[i].Hook? && Own(actions[i].event, k, thread, device)) || Elsewhere(actions[i], k, thread)
  }

  /** No event of the key finds the inbox full. */
  ghost predicate NoneRefused(t: Tables, actions: seq<Action>, k: Key)
    decreases |actions|
  {
    actions == [] || (
      && (actions[0].Hook? && actions[0].event.prompt == k ==> !Record(t, actions[0].event).1.RefusedFull?)
      && NoneRefused(Act(t, actions[0]), actions[1..], k))
  }

  lemma ElsewhereStep(t: Tables, a: Action, k: Key, thread: Key, device: string, v: KeyState)
    requires Inv(t) && Tracks(t, k, thread, device, v) && Elsewhere(a, k, thread)
    ensures Tracks(Act(t, a), k, thread, device, v)
  {
    match a
    case Hook(e) =>
      if e.kind.Prompt? {
        OtherPrompt(t, e, k, thread, device, v);
      } else {
        OtherTerminal(t, e, k, thread, device, v);
      }
    case Gateway(other) =>
      EnsureSessionKeeps(t, other);
      TracksFrame(t, Act(t, a), k, thread, device, v);
  }

  lemma ActTracks(t: Tables, past: seq<Event>, a: Action, k: Key, thread: Key, device: string)
    requires Inv(t) && Tracks(t, k, thread, device, KeySteps(past)) && Solitary([a], k, thread, device)
    requires a.Hook? && a.event.prompt == k ==> !Record(t, a.event).1.RefusedFull?
    ensures Tracks(Act(t, a), k, thread, device, KeySteps(past + OwnEvent(a, k)))
  {
    hide Record;
    hide Inv;
    hide Tracks;
    assert a == [a][0];
    if a.Hook? && a.event.prompt == k {
      OwnStep(t, a.event, thread, device, KeySteps(past));
      OneMore(past, a.event);
    } else {
      ElsewhereStep(t, a, k, thread, device, KeySteps(past));
      assert past + OwnEvent(a, k) == past;
    }
  }

  lemma {:induction false} RunTracks(t: Tables, past: seq<Event>, actions: seq<Action>, k: Key, thread: Key,
      device: string)
    requires Inv(t) && Tracks(t, k, thread, device, KeySteps(past))
    requires Solitary(actions, k, thread, device) && NoneRefused(t, actions, k)
    ensures Tracks(Run(t, actions), k, thread, device, KeySteps(past + OwnEvents(actions, k)))
    decreases |actions|
  {
    hide Record;
    hide Inv;
    hide Tracks;
    hide Act;
    hide KeySteps;
    if actions == [] {
      assert past + OwnEvents(actions, k) == past;
    } else {
      var a, rest := actions[0], actions[1..];
      var done := past + OwnEvent(a, k);
      ActKeepsInv(t, a);
      ActTracks(t, past, a, k, thread, device);
      RunTracks(Act(t, a), done, rest, k, thread, device);
      assert done + OwnEvents(rest, k) == past + OwnEvents(actions, k);
    }
  }

  lemma EmptyTracks(k: Key, thread: Key, device: string)
    ensures Tracks(EMPTY, k, thread, device, KeySteps([]))
  {
  }

  /**
   * What the archive holds of a prompt alone in its session is a function of the order of its
   * terminal events, wherever its prompt arrived and whatever happened in other sessions.
   */
  lemma RoundFollowsTerminals(actions: seq<Action>, k: Key, thread: Key, device: string)
    requires Solitary(actions, k, thread, device) && NoneRefused(EMPTY, actions, k)
    requires !Confused(Terminals(OwnEvents(actions, k)))
    ensures StateOf(Run(EMPTY, actions), k) == Settled(OwnEvents(actions, k))
    ensures var ts, response := Terminals(OwnEvents(actions, k)), StateOf(Run(EMPTY, actions), k).response;
      && (response.Some? <==> HasPrompt(OwnEvents(actions, k)))
      && (response.Some? && ts == [] ==> response.value == Response("", 0, false, Pending, None, None))
      && (response.Some? && ts != [] ==> Says(response.value, ts[0], ts[Shown(ts)]))
  {
    SettledSays(OwnEvents(actions, k));
    hide Record;
    hide Says;
    hide Shown;
    hide Inv;
    hide Run;
    hide Settled;
    hide KeySteps;
    hide Confused;
    EmptyInv();
    EmptyTracks(k, thread, device);
    assert [] + OwnEvents(actions, k) == OwnEvents(actions, k);
    RunTracks(EMPTY, [], actions, k, thread, device);
    KeyStepsResult(OwnEvents(actions, k));
  }

  lemma SettledSays(es: seq<Event>)
    ensures var ts, response := Terminals(es), Settled(es).response;
      && (response.Some? <==> HasPrompt(es))
      && (response.Some? && ts == [] ==> response.value == Response("", 0, false, Pending, None, None))
      && (response.Some? && ts != [] ==> Says(response.value, ts[0], ts[Shown(ts)]))
  {
    TerminalsAreTerminal(es);
    if Terminals(es) != [] {
      ResponsesSay(Terminals(es));
    }
  }

  /** Two histories with the same terminal order end with the same response. */
  lemma SameTerminalsSameResponse(a: seq<Action>, b: seq<Action>, k: Key, thread: Key, device: string)
    requires Solitary(a, k, thread, device) && NoneRefused(EMPTY, a, k) && HasPrompt(OwnEvents(a, k))
    requires Solitary(b, k, thread, device) && NoneRefused(EMPTY, b, k) && HasPrompt(OwnEvents(b, k))
    requires Terminals(OwnEvents(a, k)) == Terminals(OwnEvents(b, k)) && !Confused(Terminals(OwnEvents(a, k)))
    ensures StateOf(Run(EMPTY, a), k) == StateOf(Run(EMPTY, b), k)
    ensures StateOf(Run(EMPTY, a), k) == KeyState(None, Some(Responses(Terminals(OwnEvents(a, k)))))
  {
    RoundFollowsTerminals(a, k, thread, device);
    RoundFollowsTerminals(b, k, thread, device);
  }

  // ----- Redelivery -----

  /** The inbox is not the rounds table. */
  lemma PersistRounds(t: Tables, e: Event)
    ensures Persist(t, e).0.rounds == t.rounds && Persist(t, e).0.sessions == t.sessions
  {
    hide FindRound;
    hide Merge;
    hide HasCapacity;
  }

  /** Without a round of the prompt there is nothing to fold into. */
  lemma FoldNowhere(t: Tables, k: Key)
    requires FindRound(t.rounds, k).None?
    ensures FoldTerminal(t, k).0 == t
  {
    hide FindRound;
  }

  lemma RecordTerminalIs(t: Tables, e: Event)
    requires !e.kind.Prompt?
    ensures
      var (kept, persisted) := Persist(t, e);
      && (Record(t, e).1.Accepted? <==> !persisted.Mismatch? && !persisted.Full?)
      && Record(t, e).0 ==
         if persisted.Mismatch? || persisted.Full? then t
         else if persisted.Duplicate? then kept
         else FoldTerminal(kept, e.prompt).0
  {
    hide Persist;
    assert !FoldTerminal(Persist(t, e).0, e.prompt).1.Broken?;
    hide FoldTerminal;
  }

  /** What a terminal event does to the rounds table. */
  lemma TerminalRounds(t: Tables, e: Event)
    requires Inv(t) && !e.kind.Prompt?
    ensures
      var done, found := Record(t, e).0, FindRound(t.rounds, e.prompt);
      && done.sessions == t.sessions
      && (found.None? ==> done.rounds == t.rounds)
      && (found.Some? && !Record(t, e).1.Accepted? ==> done == t)
      && (found.Some? && Record(t, e).1.Accepted? ==>
            done.rounds == t.rounds[found.value :=
              t.rounds[found.value].(response := Respond(t.rounds[found.value].response, RowOf(e)))])
  {
    hide Respond;
    hide Inv;
    hide Persist;
    hide FoldTerminal;
    hide FindRound;
    var found := FindRound(t.rounds, e.prompt);
    var persisted := Persist(t, e).1;
    RecordTerminalIs(t, e);
    PersistRounds(t, e);
    hide Record;
    if found.None? {
      FoldNowhere(Persist(t, e).0, e.prompt);
    } else if persisted.Duplicate? {
      DuplicateRounds(t, e);
      var r := t.rounds[found.value];
      assert r.(response := r.response) == r && t.rounds[found.value := r] == t.rounds;
    } else if persisted.Stored? || persisted.Revision? {
      AnsweredRounds(t, e);
    }
  }

  /** The round of the prompt takes the event in. */
  lemma AnsweredRounds(t: Tables, e: Event)
    requires Inv(t) && !e.kind.Prompt? && FindRound(t.rounds, e.prompt).Some?
    requires Persist(t, e).1.Stored? || Persist(t, e).1.Revision?
    ensures
      var done, i := FoldTerminal(Persist(t, e).0, e.prompt).0, FindRound(t.rounds, e.prompt).value;
      && done.sessions == t.sessions
      && done.rounds == t.rounds[i := t.rounds[i].(response := Respond(t.rounds[i].response, RowOf(e)))]
  {
    hide Respond;
    hide FoldTerminal;
    var kept := Persist(t, e).0;
    NothingWaits(t, e.prompt, e.thread, e.who.device);
    assert kept == t.(inbox := t.inbox[(e.prompt, TerminalSlot) := RowOf(e)]);
    assert Folds(kept, e.prompt);
    FoldedFields(kept, e.prompt);
  }

  lemma DuplicateRounds(t: Tables, e: Event)
    requires Inv(t) && !e.kind.Prompt? && FindRound(t.rounds, e.prompt).Some? && Persist(t, e).1.Duplicate?
    ensures Persist(t, e).0.rounds == t.rounds && Persist(t, e).0.sessions == t.sessions
    ensures var r := t.rounds[FindRound(t.rounds, e.prompt).value].response; Respond(r, RowOf(e)) == r
  {
    if (e.prompt, TerminalSlot) !in t.receipts || t.receipts[(e.prompt, TerminalSlot)].kind.Stop? {
      NothingWaits(t, e.prompt, e.thread, e.who.device);
    } else {
      ReceiptSilences(t, e);
    }
  }

  /** Once a prompt has its round, its prompt event changes no round. */
  lemma PromptAgain(t: Tables, e: Event)
    requires Inv(t) && e.kind.Prompt? && FindRound(t.rounds, e.prompt).Some?
    ensures Record(t, e).0.rounds == t.rounds && Record(t, e).0.sessions == t.sessions
  {
    assert Receipted(t.rounds, t.receipts, e.prompt);
  }

  lemma FoldedPromptHasRound(t: Tables, k: Key)
    requires PromptReady(t, k)
    ensures FindRound(FoldPrompt(t, k).0.rounds, k).Some?
  {
    hide Prompted;
    hide PromptRounds;
    hide FoldTerminal;
    hide RoundsAfter;
    hide SessionInv;
    PromptRoundsKeep(t, k);
    PromptedFields(t, k);
    var ready := Prompted(t, k);
    if Folds(ready, k) {
      RoundsAfterKeep(ready, k);
      FoldedFields(ready, k);
    }
  }

  lemma PromptGetsRound(t: Tables, e: Event)
    requires Inv(t) && e.kind.Prompt?
    ensures Record(t, e).0 == t || FindRound(Record(t, e).0.rounds, e.prompt).Some?
  {
    hide FoldPrompt;
    PersistPrompt(t, e);
    var (kept, persisted) := Persist(t, e);
    if persisted.Stored? {
      FoldedPromptHasRound(kept, e.prompt);
    } else if persisted.Duplicate? {
      assert ReceiptOk(t.sessions, t.rounds, e.prompt, PromptSlot, t.receipts[(e.prompt, PromptSlot)]);
    }
  }

  lemma RespondTwice(r: Response, row: InboxRow)
    ensures Respond(Respond(r, row), row) == Respond(r, row)
  {
  }

  lemma SummariesDetermined(rounds: seq<Round>, a: map<nat, Summary>, b: map<nat, Summary>)
    requires SummariesInv(rounds, a) && SummariesInv(rounds, b)
    ensures a == b
  {
    forall s: nat
      ensures s in a <==> s in b
      ensures s in a ==> a[s] == b[s]
    {
      assert SummaryOk(rounds, a, s) && SummaryOk(rounds, b, s);
    }
  }

  /** An event delivered again at once changes no session, round or summary. */
  lemma RedeliveryChangesNoRound(t: Tables, e: Event)
    requires Inv(t)
    ensures
      var once := Record(t, e).0;
      var twice := Record(once, e).0;
      twice.sessions == once.sessions && twice.rounds == once.rounds && twice.summaries == once.summaries
  {
    hide Record;
    var once := Record(t, e).0;
    var twice := Record(once, e).0;
    RecordKeepsInv(t, e);
    RecordKeepsInv(once, e);
    if once != t {
      if e.kind.Prompt? {
        PromptGetsRound(t, e);
        PromptAgain(once, e);
      } else {
        TerminalRounds(t, e);
        TerminalRounds(once, e);
        var found := FindRound(t.rounds, e.prompt);
        if found.Some? {
          var r := t.rounds[found.value];
          FindRoundUpdate(t.rounds, found.value, r.(response := Respond(r.response, RowOf(e))), e.prompt);
          RespondTwice(r.response, RowOf(e));
        }
      }
      assert twice.rounds == once.rounds;
      SummariesDetermined(once.rounds, once.summaries, twice.summaries);
    }
  }
}
