/**
 * Searching the archive: rounds under filters, and sessions either from the summary table or,
 * under filters, from the rounds. Text search is a predicate on rounds.
 */
module ArchiveSearch {
  import opened Options
  import opened HookArchive
  import opened ArchiveInvariants
  import opened ArchiveSummaries
  import opened KeysetPaging

  datatype Filters = Filters(
    from: Option<nat>, to: Option<nat>, device: Option<string>, machine: Option<string>, unattributed: bool,
    member: Option<string>, account: Option<string>, model: Option<string>, state: Option<ResponseState>)

  type Text = Option<Round -> bool>

  predicate Admits(f: Option<string>, v: Option<string>) {
    f.None? || f == v
  }

  predicate Matches(f: Filters, text: Text, r: Round) {
    && (text.None? || text.value(r))
    && (f.from.None? || r.promptAt >= f.from.value)
    && (f.to.None? || r.promptAt < f.to.value)
    && Admits(f.device, Some(r.who.device))
    && Admits(f.machine, r.who.machine)
    && (!f.unattributed || r.who.machine.None?)
    && Admits(f.member, Some(r.who.member))
    && Admits(f.account, Some(r.who.account))
    && Admits(f.model, r.who.model)
    && (f.state.None? || r.State() == f.state.value)
  }

  /** A filter that is set rejects the round. */
  ghost predicate LeftOut(f: Filters, text: Text, r: Round) {
    || (text.Some? && !text.value(r))
    || (f.from.Some? && r.promptAt < f.from.value) || (f.to.Some? && f.to.value <= r.promptAt)
    || (f.device.Some? && f.device.value != r.who.device) || (f.member.Some? && f.member.value != r.who.member)
    || (f.account.Some? && f.account.value != r.who.account)
    || (f.machine.Some? && (r.who.machine.None? || f.machine.value != r.who.machine.value))
    || (f.unattributed && r.who.machine.Some?)
    || (f.model.Some? && (r.who.model.None? || f.model.value != r.who.model.value))
    || (f.state.Some? && f.state.value != r.response.state)
  }

  lemma MatchesExactly(f: Filters, text: Text, r: Round)
    ensures Matches(f, text, r) <==> !LeftOut(f, text, r)
  {
  }

  function Matching(rounds: seq<Round>, f: Filters, text: Text): (rows: seq<Round>)
    ensures forall r :: r in rows <==> r in rounds && Matches(f, text, r)
  {
    if rounds == [] then []
    else
      var last := rounds[|rounds| - 1];
      assert rounds == rounds[..|rounds| - 1] + [last];
      Matching(rounds[..|rounds| - 1], f, text) + (if Matches(f, text, last) then [last] else [])
  }

  // ----- Rounds -----

  function RoundRows(rounds: seq<Round>): seq<Row<Round>> {
    seq(|rounds|, i requires 0 <= i < |rounds| => Row(rounds[i].Activity(), rounds[i].id, rounds[i]))
  }

  function SearchRounds(t: Tables, f: Filters, text: Text, c: Option<Cursor>, limit: nat): Page<Round> {
    Fetch(RoundRows(Matching(t.rounds, f, text)), c, limit)
  }

  /** The pages of a round search, by cursor. */
  function RoundPages(t: Tables, f: Filters, text: Text, limit: nat): Option<Cursor> -> Page<Round> {
    c => SearchRounds(t, f, text, c, limit)
  }

  lemma {:induction false} MatchingDistinct(rounds: seq<Round>, f: Filters, text: Text)
    requires forall i, j :: 0 <= i < j < |rounds| ==> rounds[i].id != rounds[j].id
    ensures DistinctIds(RoundRows(Matching(rounds, f, text)))
  {
    if rounds != [] {
      var init, last := rounds[..|rounds| - 1], rounds[|rounds| - 1];
      MatchingDistinct(init, f, text);
      var rows := Matching(init, f, text);
      forall i | 0 <= i < |rows|
        ensures rows[i].id != last.id
      {
        assert rows[i] in init;
      }
      assert forall i :: 0 <= i < |rows| ==> RoundRows(rows)[i].id == rows[i].id;
    }
  }

  /** What the filters let through is a result row, with its last activity. */
  lemma MatchingRow(rounds: seq<Round>, f: Filters, text: Text, i: nat)
    requires i < |rounds|
    ensures !LeftOut(f, text, rounds[i]) <==>
      Row(LastTouched(rounds[i]), rounds[i].id, rounds[i]) in RoundRows(Matching(rounds, f, text))
  {
    var r, matching := rounds[i], Matching(rounds, f, text);
    if r in matching {
      var k :| 0 <= k < |matching| && matching[k] == r;
      assert RoundRows(matching)[k] == Row(r.Activity(), r.id, r);
    }
  }

  lemma RoundWalk(t: Tables, f: Filters, text: Text, limit: nat)
    requires limit > 0
    ensures IsWalk(Pages(RoundRows(Matching(t.rounds, f, text)), None, limit), None, RoundPages(t, f, text, limit))
  {
    var rows := RoundRows(Matching(t.rounds, f, text));
    assert forall c: Option<Cursor> :: RoundPages(t, f, text, limit)(c) == Fetch(rows, c, limit);
    hide *;
    PagesWalk(rows, None, limit, RoundPages(t, f, text, limit));
  }

  /** Whatever the filters and the page size, a walk visits every matching round once, latest first. */
  lemma EveryMatchingRoundOnce(t: Tables, f: Filters, text: Text, limit: nat)
    requires Inv(t) && limit > 0
    ensures
      var visited := Visited(Pages(RoundRows(Matching(t.rounds, f, text)), None, limit));
      && (forall i :: 0 <= i < |t.rounds| ==>
            (!LeftOut(f, text, t.rounds[i]) <==> Row(LastTouched(t.rounds[i]), t.rounds[i].id, t.rounds[i]) in visited))
      && (forall v :: v in visited ==> v.item in t.rounds && v.at == LastTouched(v.item) && v.id == v.item.id)
      && Descending(visited) && |visited| == SearchRounds(t, f, text, None, limit).total
      && IsWalk(Pages(RoundRows(Matching(t.rounds, f, text)), None, limit), None, RoundPages(t, f, text, limit))
  {
    RoundWalk(t, f, text, limit);
    hide IsWalk;
    hide Pages;
    hide Visited;
    var matching := Matching(t.rounds, f, text);
    var rows := RoundRows(matching);
    MatchingDistinct(t.rounds, f, text);
    PagesVisitAll(rows, limit);
    forall i | 0 <= i < |t.rounds|
      ensures !LeftOut(f, text, t.rounds[i]) <==> Row(LastTouched(t.rounds[i]), t.rounds[i].id, t.rounds[i]) in rows
    {
      MatchingRow(t.rounds, f, text, i);
    }
    hide LeftOut;
    hide Inv;
  }

  // ----- Sessions -----

  datatype Session = Session(
    turns: nat, pending: nat, complete: nat, failed: nat, unavailable: nat, firstPromptAt: nat, lastActivity: nat,
    firstPrompt: string, latestPrompt: string, latestResponse: string, latestState: ResponseState, who: Attribution)

  /** Ranks a matching round before the others, and then the newer first. */
  predicate Previews(f: Filters, text: Text, a: Round, b: Round) {
    if Matches(f, text, a) == Matches(f, text, b) then Newer(a, b) else Matches(f, text, a)
  }

  /** The round with `preview_rank = 1`. */
  function PreviewOf(rows: seq<Round>, f: Filters, text: Text): (r: Round)
    requires rows != []
    ensures r in rows && forall o :: o in rows ==> o == r || !Previews(f, text, o, r)
  {
    var last := rows[|rows| - 1];
    if |rows| == 1 then last
    else
      assert rows == rows[..|rows| - 1] + [last];
      var rest := PreviewOf(rows[..|rows| - 1], f, text);
      if Previews(f, text, last, rest) then last else rest
  }

  /** A session with a match, as the general query aggregates it from its rounds. */
  function Aggregate(rows: seq<Round>, f: Filters, text: Text): Session
    requires rows != []
  {
    var preview := PreviewOf(rows, f, text);
    Session(|rows|, CountState(rows, Pending), CountState(rows, Complete), CountState(rows, Failed),
            CountState(rows, Unavailable), MinPromptAt(rows), MaxActivity(rows),
            FirstOf(rows).promptText, preview.promptText, preview.response.text, preview.State(), preview.who)
  }

  predicate HasMatch(rounds: seq<Round>, s: nat, f: Filters, text: Text) {
    Matching(OfSession(rounds, s), f, text) != []
  }

  /** The result rows of the general query over the first `n` sessions. */
  function GeneralRows(rounds: seq<Round>, n: nat, f: Filters, text: Text): seq<Row<Session>> {
    if n == 0 then []
    else
      var s := n - 1;
      GeneralRows(rounds, s, f, text) +
        (if HasMatch(rounds, s, f, text) then
           var item := Aggregate(OfSession(rounds, s), f, text);
           [Row(item.lastActivity, s + 1, item)]
         else [])
  }

  function GeneralSearch(t: Tables, f: Filters, text: Text, c: Option<Cursor>, limit: nat): Page<Session> {
    Fetch(GeneralRows(t.rounds, |t.sessions|, f, text), c, limit)
  }

  function ById(rounds: seq<Round>, id: nat): Option<Round> {
    if rounds == [] then None
    else if rounds[|rounds| - 1].id == id then Some(rounds[|rounds| - 1])
    else ById(rounds[..|rounds| - 1], id)
  }

  /** A summary row joined with its first and its latest round. */
  function Joined(rounds: seq<Round>, s: nat, summary: Summary): seq<Row<Session>> {
    var first, latest := ById(rounds, summary.firstRound), ById(rounds, summary.latestRound);
    if first.None? || latest.None? then []
    else
      [Row(summary.lastActivity, s + 1,
           Session(summary.turns, summary.pending, summary.complete, summary.failed, summary.unavailable,
                   summary.firstPromptAt, summary.lastActivity, first.value.promptText, latest.value.promptText,
                   latest.value.response.text, latest.value.State(), summary.who))]
  }

  function SummaryRows(rounds: seq<Round>, summaries: map<nat, Summary>, n: nat): seq<Row<Session>> {
    if n == 0 then []
    else
      var s := n - 1;
      SummaryRows(rounds, summaries, s) + (if s in summaries then Joined(rounds, s, summaries[s]) else [])
  }

  /** The fast path reads the summary table only; its total is the number of summary rows. */
  function SummarySearch(t: Tables, c: Option<Cursor>, limit: nat): Page<Session> {
    Fetch(SummaryRows(t.rounds, t.summaries, |t.sessions|), c, limit).(total := |t.summaries|)
  }

  predicate SummaryOnly(f: Filters, text: Text) {
    text.None? && f == Filters(None, None, None, None, false, None, None, None, None)
  }

  function SearchSessions(t: Tables, f: Filters, text: Text, c: Option<Cursor>, limit: nat): Page<Session> {
    if SummaryOnly(f, text) then SummarySearch(t, c, limit) else GeneralSearch(t, f, text, c, limit)
  }

  /** The pages of a session search, by cursor. */
  function SessionPages(t: Tables, f: Filters, text: Text, limit: nat): Option<Cursor> -> Page<Session> {
    c => SearchSessions(t, f, text, c, limit)
  }

  lemma {:induction false} ByIdFinds(rounds: seq<Round>, r: Round)
    requires forall i :: 0 <= i < |rounds| ==> rounds[i].id == i + 1
    requires r in rounds
    ensures ById(rounds, r.id) == Some(r)
  {
    if rounds[|rounds| - 1] != r {
      ByIdFinds(rounds[..|rounds| - 1], r);
    }
  }

  /** Without filters the preview is the latest round. */
  lemma SameLatest(rows: seq<Round>, f: Filters, text: Text)
    requires SummaryOnly(f, text) && rows != [] && forall a, b :: a in rows && b in rows && a.id == b.id ==> a == b
    ensures PreviewOf(rows, f, text) == LatestOf(rows)
  {
    var a, b := PreviewOf(rows, f, text), LatestOf(rows);
    assert !Newer(a, b) || a == b;
    assert !Newer(b, a) || a == b;
  }

  lemma EverythingMatches(rows: seq<Round>, f: Filters, text: Text)
    requires SummaryOnly(f, text) && rows != []
    ensures Matching(rows, f, text) != []
  {
    assert rows[0] in Matching(rows, f, text);
  }

  /** A summary row, joined with its two rounds, says what the rounds of the session say. */
  lemma JoinedIsAggregate(rounds: seq<Round>, s: nat, rows: seq<Round>, f: Filters, text: Text)
    requires SummaryOnly(f, text) && rows != [] && forall r :: r in rows ==> r in rounds
    requires forall i :: 0 <= i < |rounds| ==> rounds[i].id == i + 1
    ensures var item := Aggregate(rows, f, text);
      Joined(rounds, s, Summarize(rows)) == [Row(item.lastActivity, s + 1, item)]
  {
    hide CountState;
    hide Matches;
    ByIdFinds(rounds, FirstOf(rows));
    ByIdFinds(rounds, LatestOf(rows));
    SameLatest(rows, f, text);
  }

  lemma SummaryIsAggregate(t: Tables, s: nat, f: Filters, text: Text)
    requires Inv(t) && SummaryOnly(f, text) && s in t.summaries
    ensures HasMatch(t.rounds, s, f, text)
    ensures var item := Aggregate(OfSession(t.rounds, s), f, text);
      Joined(t.rounds, s, t.summaries[s]) == [Row(item.lastActivity, s + 1, item)]
  {
    hide Aggregate;
    hide Joined;
    hide Summarize;
    var rows := OfSession(t.rounds, s);
    assert SummaryOk(t.rounds, t.summaries, s);
    EverythingMatches(rows, f, text);
    OfSessionRows(t.rounds, s);
    JoinedIsAggregate(t.rounds, s, rows, f, text);
  }

  lemma NoSummaryNoMatch(t: Tables, s: nat, f: Filters, text: Text)
    requires Inv(t) && s !in t.summaries
    ensures !HasMatch(t.rounds, s, f, text)
  {
    assert SummaryOk(t.rounds, t.summaries, s);
  }

  lemma {:induction false} SameRows(t: Tables, f: Filters, text: Text, n: nat)
    requires Inv(t) && SummaryOnly(f, text)
    ensures SummaryRows(t.rounds, t.summaries, n) == GeneralRows(t.rounds, n, f, text)
    ensures |SummaryRows(t.rounds, t.summaries, n)| == |set s | s in t.summaries && s < n|
  {
    hide Inv;
    hide Aggregate;
    hide Joined;
    hide HasMatch;
    var present := set s | s in t.summaries && s < n;
    if n == 0 {
      assert present == {};
    } else {
      var s := n - 1;
      SameRows(t, f, text, s);
      var earlier := set x | x in t.summaries && x < s;
      if s in t.summaries {
        SummaryIsAggregate(t, s, f, text);
        assert present == earlier + {s};
      } else {
        NoSummaryNoMatch(t, s, f, text);
        assert present == earlier;
      }
    }
  }

  /** The summary table answers an unfiltered search exactly as the rounds would: items, order, cursor and total. */
  lemma FastPathIsGeneral(t: Tables, f: Filters, text: Text, c: Option<Cursor>, limit: nat)
    requires Inv(t) && SummaryOnly(f, text)
    ensures SearchSessions(t, f, text, c, limit) == GeneralSearch(t, f, text, c, limit)
  {
    SameRows(t, f, text, |t.sessions|);
    forall s | s in t.summaries
      ensures s < |t.sessions|
    {
      assert SummaryOk(t.rounds, t.summaries, s);
      OfSessionRows(t.rounds, s);
      assert OfSession(t.rounds, s)[0] in t.rounds;
    }
    assert (set s | s in t.summaries && s < |t.sessions|) == t.summaries.Keys;
  }

  /** A result row is the aggregate of its session. */
  ghost predicate RowOfSession(rounds: seq<Round>, r: Row<Session>, f: Filters, text: Text) {
    && 0 < r.id && HasMatch(rounds, r.id - 1, f, text)
    && OfSession(rounds, r.id - 1) != [] && r.item == Aggregate(OfSession(rounds, r.id - 1), f, text)
    && r.at == r.item.lastActivity
  }

  /** The round `i` is of the session and passes the filters. */
  ghost predicate IsMatch(rounds: seq<Round>, session: int, f: Filters, text: Text, i: int) {
    0 <= i < |rounds| && rounds[i].session == session && !LeftOut(f, text, rounds[i])
  }

  ghost predicate SomeMatch(rounds: seq<Round>, session: int, f: Filters, text: Text) {
    exists i :: IsMatch(rounds, session, f, text, i)
  }

  /** The session has its row. */
  ghost predicate Listed(rows: seq<Row<Session>>, session: int) {
    exists v :: v in rows && v.id == session + 1
  }

  /** And the last of those that do, by activity and then id. */
  ghost predicate IsNewestMatch(rounds: seq<Round>, session: nat, f: Filters, text: Text, i: int) {
    && IsMatch(rounds, session, f, text, i)
    && forall j :: IsMatch(rounds, session, f, text, j) && j != i ==>
         LastTouched(rounds[i]) > LastTouched(rounds[j])
         || (LastTouched(rounds[i]) == LastTouched(rounds[j]) && rounds[i].id > rounds[j].id)
  }

  /** A result row counts the rounds of its session, and those in each state. */
  ghost predicate Tallies(rounds: seq<Round>, session: nat, item: Session) {
    && item.turns == |InStates(rounds, session, ALL_STATES)|
    && item.pending == |InStates(rounds, session, {Pending})|
    && item.complete == |InStates(rounds, session, {Complete})|
    && item.failed == |InStates(rounds, session, {Failed})|
    && item.unavailable == |InStates(rounds, session, {Unavailable})|
  }

  /** What a result row says of its session: how many rounds there are, its first round and its newest match. */
  ghost predicate Shows(rounds: seq<Round>, session: nat, f: Filters, text: Text, item: Session) {
    && Tallies(rounds, session, item)
    && (exists i :: IsFirst(rounds, session, i) && item.firstPromptAt == rounds[i].promptAt
                    && item.firstPrompt == rounds[i].promptText)
    && (exists i :: IsLatest(rounds, session, i) && item.lastActivity == LastTouched(rounds[i]))
    && (exists i :: IsNewestMatch(rounds, session, f, text, i) && item.latestPrompt == rounds[i].promptText
                    && item.latestResponse == rounds[i].response.text && item.latestState == rounds[i].response.state
                    && item.who == rounds[i].who)
  }

  lemma MatchExactly(sessions: seq<Key>, rounds: seq<Round>, s: nat, f: Filters, text: Text)
    requires RowsInv(sessions, rounds)
    ensures HasMatch(rounds, s, f, text) <==> SomeMatch(rounds, s, f, text)
  {
    RowsAreRounds(sessions, rounds, s);
    var rows := OfSession(rounds, s);
    var matching := Matching(rows, f, text);
    hide OfSession;
    hide Matching;
    hide Matches;
    hide LeftOut;
    if matching != [] {
      assert matching[0] in matching;
      MatchesExactly(f, text, matching[0]);
      assert IsMatch(rounds, s, f, text, matching[0].id - 1);
    }
    if i :| IsMatch(rounds, s, f, text, i) {
      MatchesExactly(f, text, rounds[i]);
      assert rounds[i] in matching;
    }
  }

  lemma NewestExactly(rounds: seq<Round>, s: nat, f: Filters, text: Text, matching: seq<Round>, i: nat)
    requires forall j :: 0 <= j < |rounds| ==> rounds[j].id == j + 1
    requires forall j :: 0 <= j < |rounds| && rounds[j].session == s && Matches(f, text, rounds[j]) ==>
      rounds[j] in matching
    requires i < |rounds| && rounds[i].session == s && Matches(f, text, rounds[i])
    requires forall r :: r in matching ==> r == rounds[i] || !Newer(r, rounds[i])
    ensures IsNewestMatch(rounds, s, f, text, i)
  {
    MatchesExactly(f, text, rounds[i]);
    hide Matches;
    hide LeftOut;
    forall j | IsMatch(rounds, s, f, text, j) && j != i
      ensures LastTouched(rounds[i]) > LastTouched(rounds[j])
        || (LastTouched(rounds[i]) == LastTouched(rounds[j]) && rounds[i].id > rounds[j].id)
    {
      MatchesExactly(f, text, rounds[j]);
      NotNewer(rounds[i], rounds[j]);
    }
    hide Newer;
    hide LastTouched;
  }

  lemma PreviewFacts(rows: seq<Round>, f: Filters, text: Text)
    requires Matching(rows, f, text) != [] && rows != []
    ensures var preview, matching := PreviewOf(rows, f, text), Matching(rows, f, text);
      && preview in rows && Matches(f, text, preview)
      && (forall r :: r in matching ==> r == preview || !Newer(r, preview))
      && (forall r :: r in rows && Matches(f, text, r) ==> r in matching)
  {
    PreviewIsNewestMatch(rows, f, text);
    hide PreviewOf;
    hide Newer;
    hide Matches;
  }

  lemma PreviewExactly(sessions: seq<Key>, rounds: seq<Round>, s: nat, rows: seq<Round>, f: Filters, text: Text)
    requires RowsInv(sessions, rounds) && rows == OfSession(rounds, s)
    requires rows != [] && Matching(rows, f, text) != []
    ensures var preview := PreviewOf(rows, f, text);
      && 0 < preview.id <= |rounds| && rounds[preview.id - 1] == preview
      && IsNewestMatch(rounds, s, f, text, preview.id - 1)
  {
    hide *;
    RowsAreRounds(sessions, rounds, s);
    PreviewFacts(rows, f, text);
    NewestExactly(rounds, s, f, text, Matching(rows, f, text), PreviewOf(rows, f, text).id - 1);
  }

  lemma AggregateTallies(rounds: seq<Round>, s: nat, f: Filters, text: Text)
    requires OfSession(rounds, s) != []
    ensures Tallies(rounds, s, Aggregate(OfSession(rounds, s), f, text))
  {
    CountsTurns(rounds, s);
    CountsState(rounds, s, Pending);
    CountsState(rounds, s, Complete);
    CountsState(rounds, s, Failed);
    CountsState(rounds, s, Unavailable);
    hide OfSession;
    hide CountState;
    hide InStates;
    hide PreviewOf;
    hide FirstOf;
    hide MinPromptAt;
    hide MaxActivity;
  }

  lemma AggregateShows(sessions: seq<Key>, rounds: seq<Round>, s: nat, f: Filters, text: Text)
    requires RowsInv(sessions, rounds) && HasMatch(rounds, s, f, text) && OfSession(rounds, s) != []
    ensures Shows(rounds, s, f, text, Aggregate(OfSession(rounds, s), f, text))
  {
    AggregateTallies(rounds, s, f, text);
    FirstIsFirst(sessions, rounds, s);
    LatestIsLatest(sessions, rounds, s);
    PreviewExactly(sessions, rounds, s, OfSession(rounds, s), f, text);
    hide Tallies;
    hide OfSession;
    hide CountState;
    hide FirstOf;
    hide LatestOf;
    hide PreviewOf;
    hide MinPromptAt;
    hide MaxActivity;
    hide IsFirst;
    hide IsLatest;
    hide IsNewestMatch;
    hide Matching;
    hide RowsInv;
  }

  lemma {:induction false} GeneralDistinct(rounds: seq<Round>, n: nat, f: Filters, text: Text)
    ensures DistinctIds(GeneralRows(rounds, n, f, text))
    ensures forall i :: 0 <= i < |GeneralRows(rounds, n, f, text)| ==> GeneralRows(rounds, n, f, text)[i].id <= n
  {
    hide Aggregate;
    hide HasMatch;
    if n > 0 {
      GeneralDistinct(rounds, n - 1, f, text);
    }
  }

  lemma MatchHasRounds(rounds: seq<Round>, s: nat, f: Filters, text: Text)
    requires HasMatch(rounds, s, f, text)
    ensures OfSession(rounds, s) != []
  {
    hide OfSession;
  }

  lemma {:induction false} GeneralMembers(rounds: seq<Round>, n: nat, f: Filters, text: Text)
    ensures forall i :: 0 <= i < |GeneralRows(rounds, n, f, text)| ==>
              RowOfSession(rounds, GeneralRows(rounds, n, f, text)[i], f, text)
  {
    hide Aggregate;
    hide Matching;
    hide OfSession;
    hide HasMatch;
    if n > 0 {
      GeneralMembers(rounds, n - 1, f, text);
      if HasMatch(rounds, n - 1, f, text) {
        MatchHasRounds(rounds, n - 1, f, text);
      }
    }
  }

  lemma {:induction false} GeneralHas(rounds: seq<Round>, n: nat, f: Filters, text: Text, s: nat)
    returns (r: Row<Session>)
    requires s < n && HasMatch(rounds, s, f, text)
    ensures r in GeneralRows(rounds, n, f, text) && r.id == s + 1
  {
    hide Aggregate;
    hide Matching;
    hide OfSession;
    if s < n - 1 {
      r := GeneralHas(rounds, n - 1, f, text, s);
    } else {
      MatchHasRounds(rounds, s, f, text);
      var item := Aggregate(OfSession(rounds, s), f, text);
      r := Row(item.lastActivity, s + 1, item);
    }
  }

  /** What a session shows is its newest matching round. */
  lemma PreviewIsNewestMatch(rows: seq<Round>, f: Filters, text: Text)
    requires Matching(rows, f, text) != []
    ensures
      var preview := PreviewOf(rows, f, text);
      && preview in Matching(rows, f, text)
      && forall r :: r in Matching(rows, f, text) ==> r == preview || !Newer(r, preview)
  {
    assert Matching(rows, f, text)[0] in rows;
  }

  /** A walk through a session search visits exactly the sessions with a matching round, once each, latest first. */
  lemma EveryMatchingSessionOnce(t: Tables, f: Filters, text: Text, limit: nat)
    requires Inv(t) && limit > 0
    ensures
      var visited := Visited(Pages(GeneralRows(t.rounds, |t.sessions|, f, text), None, limit));
      && (forall s: nat :: s < |t.sessions| ==> (SomeMatch(t.rounds, s, f, text) <==> Listed(visited, s)))
      && (forall v :: v in visited ==>
            0 < v.id && v.at == v.item.lastActivity && Shows(t.rounds, v.id - 1, f, text, v.item))
      && Descending(visited) && |visited| == SearchSessions(t, f, text, None, limit).total
      && IsWalk(Pages(GeneralRows(t.rounds, |t.sessions|, f, text), None, limit), None,
                SessionPages(t, f, text, limit))
  {
    SessionWalk(t, f, text, limit);
    hide IsWalk;
    hide Inv;
    hide Aggregate;
    hide OfSession;
    hide GeneralRows;
    hide Pages;
    hide Visited;
    hide Descending;
    hide DistinctIds;
    hide PageCount;
    hide Shows;
    hide SomeMatch;
    var rows := GeneralRows(t.rounds, |t.sessions|, f, text);
    GeneralDistinct(t.rounds, |t.sessions|, f, text);
    PagesVisitAll(rows, limit);
    if SummaryOnly(f, text) {
      FastPathIsGeneral(t, f, text, None, limit);
    }
    MatchingSessions(t, f, text);
    GeneralShows(t, f, text);
  }

  lemma SessionWalk(t: Tables, f: Filters, text: Text, limit: nat)
    requires Inv(t) && limit > 0
    ensures
      IsWalk(Pages(GeneralRows(t.rounds, |t.sessions|, f, text), None, limit), None, SessionPages(t, f, text, limit))
  {
    var rows := GeneralRows(t.rounds, |t.sessions|, f, text);
    forall c: Option<Cursor>
      ensures SessionPages(t, f, text, limit)(c) == Fetch(rows, c, limit)
    {
      if SummaryOnly(f, text) {
        FastPathIsGeneral(t, f, text, c, limit);
      }
    }
    hide *;
    PagesWalk(rows, None, limit, SessionPages(t, f, text, limit));
  }

  lemma MatchingSessions(t: Tables, f: Filters, text: Text)
    requires Inv(t)
    ensures var rows := GeneralRows(t.rounds, |t.sessions|, f, text);
      forall s: nat :: s < |t.sessions| ==> (SomeMatch(t.rounds, s, f, text) <==> Listed(rows, s))
  {
    hide GeneralRows;
    forall s: nat | s < |t.sessions|
      ensures SomeMatch(t.rounds, s, f, text) <==> Listed(GeneralRows(t.rounds, |t.sessions|, f, text), s)
    {
      MatchExactly(t.sessions, t.rounds, s, f, text);
      ListedExactly(t.rounds, |t.sessions|, f, text, s);
    }
  }

  lemma ListedExactly(rounds: seq<Round>, n: nat, f: Filters, text: Text, s: nat)
    requires s < n
    ensures HasMatch(rounds, s, f, text) <==> Listed(GeneralRows(rounds, n, f, text), s)
  {
    var rows := GeneralRows(rounds, n, f, text);
    GeneralMembers(rounds, n, f, text);
    hide GeneralRows;
    hide HasMatch;
    hide Aggregate;
    hide OfSession;
    if HasMatch(rounds, s, f, text) {
      var v := GeneralHas(rounds, n, f, text, s);
    }
    if v :| v in rows && v.id == s + 1 {
      assert RowOfSession(rounds, v, f, text);
    }
  }

  lemma RowShows(sessions: seq<Key>, rounds: seq<Round>, v: Row<Session>, f: Filters, text: Text)
    requires RowsInv(sessions, rounds) && RowOfSession(rounds, v, f, text)
    ensures 0 < v.id && v.at == v.item.lastActivity && Shows(rounds, v.id - 1, f, text, v.item)
  {
    AggregateShows(sessions, rounds, v.id - 1, f, text);
    hide Shows;
    hide Aggregate;
    hide OfSession;
    hide HasMatch;
  }

  lemma GeneralShows(t: Tables, f: Filters, text: Text)
    requires Inv(t)
    ensures forall v :: v in GeneralRows(t.rounds, |t.sessions|, f, text) ==>
      0 < v.id && v.at == v.item.lastActivity && Shows(t.rounds, v.id - 1, f, text, v.item)
  {
    var rows := GeneralRows(t.rounds, |t.sessions|, f, text);
    GeneralMembers(t.rounds, |t.sessions|, f, text);
    assert RowsInv(t.sessions, t.rounds);
    hide *;
    forall v | v in rows
      ensures 0 < v.id && v.at == v.item.lastActivity && Shows(t.rounds, v.id - 1, f, text, v.item)
    {
      assert RowOfSession(t.rounds, v, f, text);
      RowShows(t.sessions, t.rounds, v, f, text);
    }
  }
}
