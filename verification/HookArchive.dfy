/**
 * The conversation-hook archive: prompt and terminal events arrive at least once and in
 * any order, wait in an inbox until they can be paired, and become rounds of a session.
 *
 * The tables are values here and every operation is a function from tables to tables; the
 * class in `MetricsArchive` performs the same operations by updating its tables in place.
 */
module HookArchive {
  import opened Options

  const OVERHEAD_BYTES: nat := 4 * 1024
  const MAX_INBOX_ITEMS: nat := 1024
  const MAX_INBOX_BYTES: nat := 16 * 1024 * 1024

  type Key = string

  datatype Kind = Prompt | Stop | Failure | SessionEnd

  datatype Slot = PromptSlot | TerminalSlot

  datatype ResponseState = Pending | Complete | Failed | Unavailable

  datatype Attribution = Attribution(
    device: string, machine: Option<string>, member: string, account: string, alias: string, model: Option<string>)

  datatype EventRecord = EventRecord(
    kind: Kind, thread: Key, prompt: Key, at: nat, text: Option<string>, bytes: nat,
    truncated: bool, failureCode: Option<string>, who: Attribution)
  {
    function Slot(): Slot {
      if kind.Prompt? then PromptSlot else TerminalSlot
    }
  }

  /** What the normalizer lets through: a prompt has text, and failures alone carry a code. */
  type Event = e: EventRecord |
    (e.kind.Prompt? ==> e.text.Some? && e.text.value != "") && (e.kind.Failure? <==> e.failureCode.Some?)
    witness EventRecord(Stop, "", "", 0, None, 0, false, None, Attribution("", None, "", "", "", None))

  datatype InboxRow = InboxRow(
    kind: Kind, thread: Key, at: nat, text: Option<string>, bytes: nat,
    truncated: bool, failureCode: Option<string>, who: Attribution, duplicates: nat)

  datatype Receipt = Receipt(kind: Kind, thread: Key, device: string, at: nat, duplicates: nat, revisions: nat)

  /** What terminal events write into a round. */
  datatype Response = Response(
    text: string, bytes: nat, truncated: bool, state: ResponseState, failureCode: Option<string>,
    completedAt: Option<nat>)

  const UNANSWERED: Response := Response("", 0, false, Pending, None, None)

  /** `session` is the position of the session row; its id is one more. */
  datatype Round = Round(
    id: nat, session: nat, turn: nat, prompt: Key,
    promptText: string, promptBytes: nat, promptTruncated: bool, promptAt: nat, who: Attribution, response: Response)
  {
    function State(): ResponseState {
      response.state
    }

    /** `COALESCE(completed_at_ms, prompt_at_ms)` */
    function Activity(): nat {
      if response.completedAt.Some? then response.completedAt.value else promptAt
    }
  }

  datatype Summary = Summary(
    turns: nat, pending: nat, complete: nat, failed: nat, unavailable: nat,
    firstRound: nat, latestRound: nat, firstPromptAt: nat, lastActivity: nat, who: Attribution)

  datatype Tables = Tables(
    sessions: seq<Key>,
    rounds: seq<Round>,
    inbox: map<(Key, Slot), InboxRow>,
    receipts: map<(Key, Slot), Receipt>,
    summaries: map<nat, Summary>)

  const EMPTY: Tables := Tables([], [], map[], map[], map[])

  // ----- Reading the tables -----

  /** The round of a prompt key, which is unique. */
  function FindRound(rounds: seq<Round>, prompt: Key): (found: Option<nat>)
    ensures found.Some? ==> found.value < |rounds| && rounds[found.value].prompt == prompt
    ensures found.None? ==> forall i :: 0 <= i < |rounds| ==> rounds[i].prompt != prompt
  {
    if rounds == [] then None
    else
      var last := |rounds| - 1;
      if rounds[last].prompt == prompt then Some(last) else FindRound(rounds[..last], prompt)
  }

  function FindSession(sessions: seq<Key>, thread: Key): (found: Option<nat>)
    ensures found.Some? ==> found.value < |sessions| && sessions[found.value] == thread
    ensures found.None? ==> thread !in sessions
  {
    if sessions == [] then None
    else
      var last := |sessions| - 1;
      if sessions[last] == thread then Some(last) else FindSession(sessions[..last], thread)
  }

  /** The rounds of one session, in insertion order. */
  function OfSession(rounds: seq<Round>, session: nat): seq<Round> {
    if rounds == [] then []
    else
      var last := |rounds| - 1;
      OfSession(rounds[..last], session) + (if rounds[last].session == session then [rounds[last]] else [])
  }

  /** `COALESCE(MAX(turn_index), 0)` of a session. */
  function MaxTurn(rows: seq<Round>): (turn: nat)
    ensures forall r :: r in rows ==> r.turn <= turn
    ensures turn > 0 ==> exists r :: r in rows && r.turn == turn
  {
    if rows == [] then 0
    else
      var rest := MaxTurn(rows[..|rows| - 1]);
      if rows[|rows| - 1].turn > rest then rows[|rows| - 1].turn else rest
  }

  /** The position of the pending round of a session with the greatest turn and then id. */
  function LatestPending(rounds: seq<Round>, session: nat): (found: Option<nat>)
    ensures found.Some? ==>
      && found.value < |rounds| && rounds[found.value].session == session && rounds[found.value].State().Pending?
      && forall i :: 0 <= i < |rounds| && rounds[i].session == session && rounds[i].State().Pending? ==>
           rounds[i].turn < rounds[found.value].turn || (rounds[i].turn == rounds[found.value].turn && i <= found.value)
    ensures found.None? ==>
      forall i :: 0 <= i < |rounds| && rounds[i].session == session ==> !rounds[i].State().Pending?
  {
    if rounds == [] then None
    else
      var last := |rounds| - 1;
      var rest := LatestPending(rounds[..last], session);
      if rounds[last].session == session && rounds[last].State().Pending?
         && (rest.None? || rounds[rest.value].turn <= rounds[last].turn)
      then Some(last) else rest
  }

  /** `SUM(text_bytes + overhead)` over the inbox rows with these keys. */
  ghost function RetainedBytes(inbox: map<(Key, Slot), InboxRow>, keys: set<(Key, Slot)>): nat
    requires keys <= inbox.Keys
  {
    if keys == {} then 0
    else
      var k :| k in keys;
      inbox[k].bytes + OVERHEAD_BYTES + RetainedBytes(inbox, keys - {k})
  }

  ghost predicate HasCapacity(inbox: map<(Key, Slot), InboxRow>, e: Event) {
    && |inbox| < MAX_INBOX_ITEMS
    && RetainedBytes(inbox, inbox.Keys) + e.bytes + OVERHEAD_BYTES <= MAX_INBOX_BYTES
  }

  // ----- Summaries -----

  function CountState(rows: seq<Round>, state: ResponseState): nat {
    if rows == [] then 0
    else CountState(rows[..|rows| - 1], state) + (if rows[|rows| - 1].State() == state then 1 else 0)
  }

  /** Ranks first by prompt time and then id. */
  predicate Earlier(a: Round, b: Round) {
    a.promptAt < b.promptAt || (a.promptAt == b.promptAt && a.id < b.id)
  }

  /** Ranks first by activity, latest first, and then id. */
  predicate Newer(a: Round, b: Round) {
    a.Activity() > b.Activity() || (a.Activity() == b.Activity() && a.id > b.id)
  }

  /** The round with `first_rank = 1`. */
  function FirstOf(rows: seq<Round>): (r: Round)
    requires rows != []
    ensures r in rows && forall o :: o in rows ==> o == r || !Earlier(o, r)
  {
    if |rows| == 1 then rows[0]
    else
      assert rows == rows[..|rows| - 1] + [rows[|rows| - 1]];
      var rest := FirstOf(rows[..|rows| - 1]);
      if Earlier(rows[|rows| - 1], rest) then rows[|rows| - 1] else rest
  }

  /** The round with `latest_rank = 1`. */
  function LatestOf(rows: seq<Round>): (r: Round)
    requires rows != []
    ensures r in rows && forall o :: o in rows ==> o == r || !Newer(o, r)
  {
    if |rows| == 1 then rows[0]
    else
      assert rows == rows[..|rows| - 1] + [rows[|rows| - 1]];
      var rest := LatestOf(rows[..|rows| - 1]);
      if Newer(rows[|rows| - 1], rest) then rows[|rows| - 1] else rest
  }

  /** `MIN(prompt_at_ms)` */
  function MinPromptAt(rows: seq<Round>): (at: nat)
    requires rows != []
    ensures forall r :: r in rows ==> at <= r.promptAt
    ensures exists r :: r in rows && r.promptAt == at
  {
    var last := rows[|rows| - 1];
    if |rows| == 1 then last.promptAt
    else
      assert rows == rows[..|rows| - 1] + [last];
      var rest := MinPromptAt(rows[..|rows| - 1]);
      if last.promptAt < rest then last.promptAt else rest
  }

  /** `MAX(activity_at_ms)` */
  function MaxActivity(rows: seq<Round>): (at: nat)
    requires rows != []
    ensures forall r :: r in rows ==> r.Activity() <= at
    ensures exists r :: r in rows && r.Activity() == at
  {
    var last := rows[|rows| - 1];
    if |rows| == 1 then last.Activity()
    else
      assert rows == rows[..|rows| - 1] + [last];
      var rest := MaxActivity(rows[..|rows| - 1]);
      if last.Activity() > rest then last.Activity() else rest
  }

  function Summarize(rows: seq<Round>): Summary
    requires rows != []
  {
    Summary(|rows|, CountState(rows, Pending), CountState(rows, Complete), CountState(rows, Failed),
            CountState(rows, Unavailable), FirstOf(rows).id, LatestOf(rows).id,
            MinPromptAt(rows), MaxActivity(rows), LatestOf(rows).who)
  }

  /** `rebuildConversationRoundSessionSummaries` for one session. */
  function Resummarize(rounds: seq<Round>, summaries: map<nat, Summary>, session: nat): map<nat, Summary> {
    var rows := OfSession(rounds, session);
    if rows == [] then summaries - {session} else summaries[session := Summarize(rows)]
  }

  // ----- Receipts -----

  function RecordReceipt(t: Tables, prompt: Key, slot: Slot, kind: Kind, thread: Key, device: string, at: nat,
                         duplicate: bool, revision: bool): Tables {
    var key := (prompt, slot);
    var dup, rev := if duplicate then 1 else 0, if revision then 1 else 0;
    var receipt :=
      if key in t.receipts then
        var r := t.receipts[key];
        r.(kind := if revision then kind else r.kind, at := if revision then at else r.at,
           duplicates := r.duplicates + dup, revisions := r.revisions + rev)
      else
        Receipt(kind, thread, device, at, dup, rev);
    t.(receipts := t.receipts[key := receipt])
  }

  // ----- The inbox -----

  datatype Persisted = Stored | Duplicate | Revision | Full | Mismatch

  function RowOf(e: Event): InboxRow {
    InboxRow(e.kind, e.thread, e.at, e.text, e.bytes, e.truncated, e.failureCode, e.who, 0)
  }

  /** Whether an inbox row absorbs an event of its slot without taking over its text. */
  predicate Absorbs(row: InboxRow, e: Event) {
    var same := row.kind == e.kind && row.text == e.text && row.truncated == e.truncated
      && row.failureCode == e.failureCode;
    same || !row.kind.Stop? || !e.kind.Stop? || e.at <= row.at
  }

  /** What becomes of an inbox row that is already there. */
  function Merge(row: InboxRow, e: Event): InboxRow {
    if Absorbs(row, e) then row.(duplicates := row.duplicates + 1)
    else row.(at := e.at, text := e.text, bytes := e.bytes, truncated := e.truncated, duplicates := row.duplicates + 1)
  }

  ghost function Persist(t: Tables, e: Event): (Tables, Persisted) {
    var key := (e.prompt, e.Slot());
    var keyed := FindRound(t.rounds, e.prompt);
    if keyed.Some? && !RoundMatches(t.sessions, t.rounds[keyed.value], e.thread, e.who.device) then
      (t, Mismatch)
    else if key in t.receipts && (t.receipts[key].thread != e.thread || t.receipts[key].device != e.who.device) then
      (t, Mismatch)
    else if key in t.receipts && (e.kind.Prompt? || !t.receipts[key].kind.Stop?) then
      (RecordReceipt(t, e.prompt, e.Slot(), e.kind, e.thread, e.who.device, e.at, true, false), Duplicate)
    else if key in t.inbox then
      var row := t.inbox[key];
      if row.thread != e.thread || row.who.device != e.who.device then (t, Mismatch)
      else (t.(inbox := t.inbox[key := Merge(row, e)]), if Absorbs(row, e) then Duplicate else Revision)
    else if !e.kind.Prompt? && !HasCapacity(t.inbox, e) then
      (t, Full)
    else
      (t.(inbox := t.inbox[key := RowOf(e)]), Stored)
  }

  /** The round belongs to this thread and device. */
  predicate RoundMatches(sessions: seq<Key>, r: Round, thread: Key, device: string) {
    r.session < |sessions| && sessions[r.session] == thread && r.who.device == device
  }

  // ----- Folding -----

  datatype Folded = NoRow | Orphan | Applied | Revised | Redundant | Broken

  /** The text of a terminal event as a round stores it. */
  function TextOf(row: InboxRow): string {
    if row.text.Some? then row.text.value else ""
  }

  /** The response once its first terminal event is applied. */
  function Terminated(row: InboxRow): Response {
    Response(TextOf(row), row.bytes, row.truncated,
             match row.kind
             case Stop => Complete
             case Failure => Failed
             case _ => Unavailable,
             match row.kind
             case Failure => Some(if row.failureCode.Some? then row.failureCode.value else "unknown")
             case SessionEnd => Some("session_end")
             case _ => None,
             Some(row.at))
  }

  /** A later stop with another text takes over a completed response. */
  predicate Revises(r: Response, row: InboxRow) {
    && r.state.Complete? && row.kind.Stop? && r.completedAt.Some?
    && !(r.text == TextOf(row) && r.truncated == row.truncated)
    && row.at > r.completedAt.value
  }

  /** The response after a terminal event, whatever state it is in. */
  function Respond(r: Response, row: InboxRow): Response {
    if r.state.Pending? || Revises(r, row) then Terminated(row) else r
  }

  /** A terminal row of `prompt` waits and its round exists. */
  predicate Folds(t: Tables, prompt: Key) {
    && (prompt, TerminalSlot) in t.inbox
    && var row, found := t.inbox[(prompt, TerminalSlot)], FindRound(t.rounds, prompt);
       found.Some? && RoundMatches(t.sessions, t.rounds[found.value], row.thread, row.who.device)
  }

  /** The rounds after folding the terminal row of `prompt`. */
  function RoundsAfter(t: Tables, prompt: Key): seq<Round>
    requires Folds(t, prompt)
  {
    var i := FindRound(t.rounds, prompt).value;
    t.rounds[i := t.rounds[i].(response := Respond(t.rounds[i].response, t.inbox[(prompt, TerminalSlot)]))]
  }

  function FoldTerminal(t: Tables, prompt: Key): (r: (Tables, Folded))
    ensures !Folds(t, prompt) ==> r.0 == t
    ensures Folds(t, prompt) ==> r.0.rounds == RoundsAfter(t, prompt) && r.0.sessions == t.sessions
    ensures !r.1.Broken?
  {
    var key := (prompt, TerminalSlot);
    if key !in t.inbox then (t, NoRow)
    else if !Folds(t, prompt) then (t, Orphan)
    else
      var row, r := t.inbox[key], t.rounds[FindRound(t.rounds, prompt).value];
      var result := if r.State().Pending? then Applied else if Revises(r.response, row) then Revised else Redundant;
      var written := t.(rounds := RoundsAfter(t, prompt));
      var noted := RecordReceipt(written, prompt, TerminalSlot, row.kind, row.thread, row.who.device, row.at,
                                 result.Redundant?, result.Revised?);
      var receipt := noted.receipts[key];
      (noted.(receipts := noted.receipts[key := receipt.(duplicates := receipt.duplicates + row.duplicates)],
              inbox := t.inbox - {key},
              summaries := Resummarize(written.rounds, t.summaries, r.session)),
       result)
  }

  /** The session of a thread, created when there is none. */
  function EnsureSession(t: Tables, thread: Key): (Tables, nat) {
    var found := FindSession(t.sessions, thread);
    if found.Some? then (t, found.value) else (t.(sessions := t.sessions + [thread]), |t.sessions|)
  }

  /** The round, ended without a response. */
  function Ended(r: Round, at: nat): Round {
    r.(response := r.response.(state := Unavailable, failureCode := Some("unavailable"), completedAt := Some(at)))
  }

  /** A new prompt ends the pending round of its session without a response. */
  function Supersede(rounds: seq<Round>, session: nat, at: nat): seq<Round> {
    var pending := LatestPending(rounds, session);
    if pending.None? then rounds
    else rounds[pending.value := Ended(rounds[pending.value], at)]
  }

  function NewRound(rounds: seq<Round>, session: nat, prompt: Key, row: InboxRow): Round {
    Round(|rounds| + 1, session, MaxTurn(OfSession(rounds, session)) + 1, prompt,
          TextOf(row), row.bytes, row.truncated, row.at, row.who, UNANSWERED)
  }

  /** The rounds after a new prompt opened its own. */
  function PromptRounds(t: Tables, prompt: Key): seq<Round>
    requires (prompt, PromptSlot) in t.inbox
  {
    var row := t.inbox[(prompt, PromptSlot)];
    var session := EnsureSession(t, row.thread).1;
    var superseded := Supersede(t.rounds, session, row.at);
    superseded + [NewRound(superseded, session, prompt, row)]
  }

  /** The tables once the prompt has its round and before a waiting terminal is folded into it. */
  function Prompted(t: Tables, prompt: Key): Tables
    requires (prompt, PromptSlot) in t.inbox
  {
    var row := t.inbox[(prompt, PromptSlot)];
    var (based, session) := EnsureSession(t, row.thread);
    var appended := based.(rounds := PromptRounds(t, prompt));
    var noted := RecordReceipt(appended, prompt, PromptSlot, Prompt, row.thread, row.who.device, row.at, false, false);
    noted.(inbox := t.inbox - {(prompt, PromptSlot)},
           summaries := Resummarize(appended.rounds, t.summaries, session))
  }

  function FoldPrompt(t: Tables, prompt: Key): (Tables, Folded) {
    var key := (prompt, PromptSlot);
    if key !in t.inbox then (t, NoRow)
    else
      var row := t.inbox[key];
      var found := FindRound(t.rounds, prompt);
      if found.Some? then
        if !RoundMatches(t.sessions, t.rounds[found.value], row.thread, row.who.device) then (t, Broken)
        else
          var noted := RecordReceipt(t, prompt, PromptSlot, Prompt, row.thread, row.who.device, row.at, true, false);
          FoldTerminal(noted.(inbox := noted.inbox - {key}), prompt)
      else
        var (done, result) := FoldTerminal(Prompted(t, prompt), prompt);
        (done, if result.NoRow? || result.Orphan? then Applied else result)
  }

  // ----- One event, one transaction -----

  datatype Outcome = Accepted(persisted: Persisted, folded: Folded) | RefusedFull | RolledBack

  /** `recordConversationHookEvent` for a normalized event; a refused or failed event changes nothing. */
  ghost function Record(t: Tables, e: Event): (Tables, Outcome) {
    var (kept, persisted) := Persist(t, e);
    match persisted
    case Full => (t, RefusedFull)
    case Mismatch => (t, RolledBack)
    case Duplicate => (kept, Accepted(Duplicate, NoRow))
    case _ =>
      var (folded, result) := if e.kind.Prompt? then FoldPrompt(kept, e.prompt) else FoldTerminal(kept, e.prompt);
      if result.Broken? then (t, RolledBack) else (folded, Accepted(persisted, result))
  }
}
