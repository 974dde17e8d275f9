/**
 * The summary table of every archive, in terms of the rounds table alone.
 */
module ArchiveSummaries {
  import opened Options
  import opened HookArchive
  import opened ArchiveInvariants

  /** The rounds of a session whose response is in one of these states. */
  ghost function InStates(rounds: seq<Round>, session: nat, states: set<ResponseState>): set<int> {
    set i | 0 <= i < |rounds| && rounds[i].session == session && rounds[i].response.state in states
  }

  const ALL_STATES: set<ResponseState> := {Pending, Complete, Failed, Unavailable}

  /** When something last happened in a round. */
  function LastTouched(r: Round): nat {
    match r.response.completedAt
    case Some(at) => at
    case None => r.promptAt
  }

  /** The round `i` is of the session, and the first of it by prompt time and then id. */
  ghost predicate IsFirst(rounds: seq<Round>, session: nat, i: int) {
    && 0 <= i < |rounds| && rounds[i].session == session
    && forall j :: 0 <= j < |rounds| && rounds[j].session == session && j != i ==>
         rounds[i].promptAt < rounds[j].promptAt
         || (rounds[i].promptAt == rounds[j].promptAt && rounds[i].id < rounds[j].id)
  }

  /** The round `i` is of the session, and the last of it by activity and then id. */
  ghost predicate IsLatest(rounds: seq<Round>, session: nat, i: int) {
    && 0 <= i < |rounds| && rounds[i].session == session
    && forall j :: 0 <= j < |rounds| && rounds[j].session == session && j != i ==>
         LastTouched(rounds[i]) > LastTouched(rounds[j])
         || (LastTouched(rounds[i]) == LastTouched(rounds[j]) && rounds[i].id > rounds[j].id)
  }

  /** What a summary row says about the rounds of its session. */
  ghost predicate Describes(rounds: seq<Round>, session: nat, s: Summary) {
    && s.turns == |InStates(rounds, session, ALL_STATES)|
    && s.pending == |InStates(rounds, session, {Pending})| && s.complete == |InStates(rounds, session, {Complete})|
    && s.failed == |InStates(rounds, session, {Failed})|
    && s.unavailable == |InStates(rounds, session, {Unavailable})|
    && (exists i :: IsFirst(rounds, session, i) && s.firstRound == rounds[i].id
                    && s.firstPromptAt == rounds[i].promptAt)
    && (exists i :: IsLatest(rounds, session, i) && s.latestRound == rounds[i].id && s.who == rounds[i].who
                    && s.lastActivity == LastTouched(rounds[i]))
  }

  lemma InStatesGrow(rounds: seq<Round>, session: nat, states: set<ResponseState>)
    requires rounds != []
    ensures var last := |rounds| - 1;
      InStates(rounds, session, states) == InStates(rounds[..last], session, states)
        + (if rounds[last].session == session && rounds[last].response.state in states then {last} else {})
    ensures var last := |rounds| - 1;
      |InStates(rounds, session, states)| == |InStates(rounds[..last], session, states)|
        + (if rounds[last].session == session && rounds[last].response.state in states then 1 else 0)
  {
    var last := |rounds| - 1;
    assert forall i :: 0 <= i < last ==> rounds[..last][i] == rounds[i];
    var front := InStates(rounds[..last], session, states);
    assert InStates(rounds, session, states)
        == if rounds[last].session == session && rounds[last].response.state in states then front + {last} else front;
    assert last !in front;
  }

  lemma {:induction false} CountsState(rounds: seq<Round>, session: nat, state: ResponseState)
    ensures CountState(OfSession(rounds, session), state) == |InStates(rounds, session, {state})|
  {
    if rounds == [] {
      assert InStates(rounds, session, {state}) == {};
    } else {
      var last := |rounds| - 1;
      CountsState(rounds[..last], session, state);
      InStatesGrow(rounds, session, {state});
      var front := OfSession(rounds[..last], session);
      assert (front + [rounds[last]])[..|front|] == front && front + [] == front;
    }
  }

  lemma {:induction false} CountsTurns(rounds: seq<Round>, session: nat)
    ensures |OfSession(rounds, session)| == |InStates(rounds, session, ALL_STATES)|
  {
    if rounds == [] {
      assert InStates(rounds, session, ALL_STATES) == {};
    } else {
      var state := rounds[|rounds| - 1].response.state;
      assert state.Pending? || state.Complete? || state.Failed? || state.Unavailable?;
      CountsTurns(rounds[..|rounds| - 1], session);
      InStatesGrow(rounds, session, ALL_STATES);
    }
  }

  /** The rows of a session are the rounds of it. */
  lemma RowsAreRounds(sessions: seq<Key>, rounds: seq<Round>, session: nat)
    requires RowsInv(sessions, rounds)
    ensures forall r :: r in OfSession(rounds, session) ==>
      0 < r.id <= |rounds| && rounds[r.id - 1] == r && r.session == session
    ensures forall i :: 0 <= i < |rounds| ==> rounds[i].id == i + 1
    ensures forall i :: 0 <= i < |rounds| && rounds[i].session == session ==> rounds[i] in OfSession(rounds, session)
  {
    var rows := OfSession(rounds, session);
    OfSessionRows(rounds, session);
    forall i | 0 <= i < |rounds| && rounds[i].session == session
      ensures rounds[i] in rows
    {
      OfSessionMember(rounds, session, i);
    }
  }

  lemma MinIsFirst(rows: seq<Round>)
    requires rows != []
    ensures MinPromptAt(rows) == FirstOf(rows).promptAt
  {
    hide MinPromptAt;
    hide FirstOf;
    assert FirstOf(rows) in rows;
  }

  lemma NotEarlier(a: Round, b: Round)
    requires !Earlier(b, a) && a.id != b.id
    ensures a.promptAt < b.promptAt || (a.promptAt == b.promptAt && a.id < b.id)
  {
  }

  lemma NotNewer(a: Round, b: Round)
    requires !Newer(b, a) && a.id != b.id
    ensures LastTouched(a) > LastTouched(b) || (LastTouched(a) == LastTouched(b) && a.id > b.id)
  {
  }

  lemma FirstExactly(rounds: seq<Round>, session: nat, rows: seq<Round>, i: nat)
    requires forall j :: 0 <= j < |rounds| ==> rounds[j].id == j + 1
    requires forall j :: 0 <= j < |rounds| && rounds[j].session == session ==> rounds[j] in rows
    requires i < |rounds| && rounds[i].session == session
    requires forall r :: r in rows ==> r == rounds[i] || !Earlier(r, rounds[i])
    ensures IsFirst(rounds, session, i)
  {
    forall j | 0 <= j < |rounds| && rounds[j].session == session && j != i
      ensures rounds[i].promptAt < rounds[j].promptAt
        || (rounds[i].promptAt == rounds[j].promptAt && rounds[i].id < rounds[j].id)
    {
      NotEarlier(rounds[i], rounds[j]);
    }
    hide Earlier;
  }

  lemma LatestExactly(rounds: seq<Round>, session: nat, rows: seq<Round>, i: nat)
    requires forall j :: 0 <= j < |rounds| ==> rounds[j].id == j + 1
    requires forall j :: 0 <= j < |rounds| && rounds[j].session == session ==> rounds[j] in rows
    requires i < |rounds| && rounds[i].session == session
    requires forall r :: r in rows ==> r == rounds[i] || !Newer(r, rounds[i])
    ensures IsLatest(rounds, session, i)
  {
    forall j | 0 <= j < |rounds| && rounds[j].session == session && j != i
      ensures LastTouched(rounds[i]) > LastTouched(rounds[j])
        || (LastTouched(rounds[i]) == LastTouched(rounds[j]) && rounds[i].id > rounds[j].id)
    {
      NotNewer(rounds[i], rounds[j]);
    }
    hide Newer;
    hide LastTouched;
  }

  lemma FirstFacts(rows: seq<Round>)
    requires rows != []
    ensures var r := FirstOf(rows); r in rows && forall o :: o in rows ==> o == r || !Earlier(o, r)
  {
    hide FirstOf;
    hide Earlier;
  }

  lemma LatestFacts(rows: seq<Round>)
    requires rows != []
    ensures var r := LatestOf(rows); r in rows && forall o :: o in rows ==> o == r || !Newer(o, r)
  {
    hide LatestOf;
    hide Newer;
  }

  lemma FirstIsFirst(sessions: seq<Key>, rounds: seq<Round>, session: nat)
    requires RowsInv(sessions, rounds) && OfSession(rounds, session) != []
    ensures var rows := OfSession(rounds, session);
      var i := FirstOf(rows).id - 1;
      IsFirst(rounds, session, i) && rounds[i] == FirstOf(rows) && MinPromptAt(rows) == rounds[i].promptAt
  {
    hide *;
    var rows := OfSession(rounds, session);
    RowsAreRounds(sessions, rounds, session);
    MinIsFirst(rows);
    FirstFacts(rows);
    FirstExactly(rounds, session, rows, FirstOf(rows).id - 1);
  }

  lemma MaxIsLatest(rows: seq<Round>)
    requires rows != []
    ensures MaxActivity(rows) == LatestOf(rows).Activity()
  {
    hide MaxActivity;
    hide LatestOf;
    assert LatestOf(rows) in rows;
  }

  lemma TouchedIsActivity(r: Round)
    ensures LastTouched(r) == r.Activity()
  {
  }

  lemma LatestIsLatest(sessions: seq<Key>, rounds: seq<Round>, session: nat)
    requires RowsInv(sessions, rounds) && OfSession(rounds, session) != []
    ensures var rows := OfSession(rounds, session);
      var i := LatestOf(rows).id - 1;
      IsLatest(rounds, session, i) && rounds[i] == LatestOf(rows) && MaxActivity(rows) == LastTouched(rounds[i])
  {
    hide *;
    var rows := OfSession(rounds, session);
    RowsAreRounds(sessions, rounds, session);
    MaxIsLatest(rows);
    LatestFacts(rows);
    TouchedIsActivity(LatestOf(rows));
    LatestExactly(rounds, session, rows, LatestOf(rows).id - 1);
  }

  lemma SummaryDescribes(sessions: seq<Key>, rounds: seq<Round>, session: nat)
    requires RowsInv(sessions, rounds) && OfSession(rounds, session) != []
    ensures Describes(rounds, session, Summarize(OfSession(rounds, session)))
  {
    CountsTurns(rounds, session);
    CountsState(rounds, session, Pending);
    CountsState(rounds, session, Complete);
    CountsState(rounds, session, Failed);
    CountsState(rounds, session, Unavailable);
    FirstIsFirst(sessions, rounds, session);
    LatestIsLatest(sessions, rounds, session);
    hide OfSession;
    hide CountState;
    hide FirstOf;
    hide LatestOf;
    hide MinPromptAt;
    hide MaxActivity;
    hide IsFirst;
    hide IsLatest;
  }

  /** In every archive, a session has a summary exactly when it has rounds, and the summary describes them. */
  lemma EverySummary(actions: seq<Action>, session: nat)
    ensures var t := Run(EMPTY, actions);
      && (session in t.summaries <==> exists i :: 0 <= i < |t.rounds| && t.rounds[i].session == session)
      && (session in t.summaries ==> Describes(t.rounds, session, t.summaries[session]))
  {
    EmptyInv();
    RunKeepsInv(EMPTY, actions);
    var t := Run(EMPTY, actions);
    assert SummaryOk(t.rounds, t.summaries, session);
    RowsAreRounds(t.sessions, t.rounds, session);
    var rows := OfSession(t.rounds, session);
    if rows != [] {
      SummaryDescribes(t.sessions, t.rounds, session);
      assert rows[0] in rows;
    }
    hide Run;
    hide OfSession;
    hide Describes;
  }
}
