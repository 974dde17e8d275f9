/**
 * Delivery order of one prompt's events: the inbox merges terminal events exactly as a round
 * does, so it does not matter how many of them arrive before their prompt.
 */
module PromptPosition {
  import opened Options
  import opened HookArchive
  import opened ArchiveInvariants

  /** All that the archive knows about one prompt key, but for counters. */
  datatype KeyState = KeyState(row: Option<InboxRow>, response: Option<Response>)

  const UNSEEN: KeyState := KeyState(None, None)

  ghost function StateOf(t: Tables, k: Key): KeyState {
    var found := FindRound(t.rounds, k);
    KeyState(if (k, TerminalSlot) in t.inbox then Some(t.inbox[(k, TerminalSlot)]) else None,
             if found.Some? then Some(t.rounds[found.value].response) else None)
  }

  /** What an event of the key does to that. */
  function KeyStep(v: KeyState, e: Event): KeyState {
    if e.kind.Prompt? then
      if v.response.Some? then v
      else KeyState(None, Some(if v.row.Some? then Respond(UNANSWERED, v.row.value) else UNANSWERED))
    else if v.response.Some? then
      KeyState(None, Some(Respond(v.response.value, RowOf(e))))
    else
      KeyState(Some(if v.row.Some? then Merge(v.row.value, e) else RowOf(e)), None)
  }

  function KeySteps(es: seq<Event>): KeyState {
    if es == [] then UNSEEN else KeyStep(KeySteps(es[..|es| - 1]), es[|es| - 1])
  }

  // ----- One merge, two places -----

  /** The response after the terminal events of a round, in order. */
  function Responses(ts: seq<Event>): Response {
    if ts == [] then UNANSWERED else Respond(Responses(ts[..|ts| - 1]), RowOf(ts[|ts| - 1]))
  }

  // ----- What a response says of its events -----

  /** The text of an event, where a missing one is empty. */
  function PlainText(e: Event): string {
    if e.text.Some? then e.text.value else ""
  }

  /** A later stop with another text or another cut. */
  predicate Supplants(later: Event, shown: Event) {
    && later.kind.Stop? && later.at > shown.at
    && (PlainText(later) != PlainText(shown) || later.truncated != shown.truncated)
  }

  /** The event whose text the response shows: the first, or behind a first stop the last stop that supplants it. */
  function Shown(ts: seq<Event>): (i: nat)
    requires ts != []
    ensures i < |ts|
  {
    if |ts| == 1 then 0
    else
      var i, last := Shown(ts[..|ts| - 1]), |ts| - 1;
      if ts[0].kind.Stop? && Supplants(ts[last], ts[i]) then last else i
  }

  /** The first terminal event decides how the round ends, and one of them lends it its text and time. */
  ghost predicate Says(r: Response, first: Event, shown: Event) {
    && r.text == PlainText(shown) && r.bytes == shown.bytes && r.truncated == shown.truncated
    && r.completedAt == Some(shown.at)
    && (first.kind.Stop? ==> r.state == Complete && r.failureCode == None)
    && (first.kind.Failure? ==> r.state == Failed && r.failureCode == first.failureCode)
    && (first.kind.SessionEnd? ==> r.state == Unavailable && r.failureCode == Some("session_end"))
  }

  lemma {:induction false} ResponsesSay(ts: seq<Event>)
    requires ts != [] && AllTerminal(ts)
    ensures Says(Responses(ts), ts[0], ts[Shown(ts)])
    ensures !ts[0].kind.Stop? ==> Shown(ts) == 0
  {
    var init, last := ts[..|ts| - 1], ts[|ts| - 1];
    if |ts| > 1 {
      assert AllTerminal(init);
      ResponsesSay(init);
      assert ts[Shown(init)] == init[Shown(init)];
    } else {
      assert Responses(init) == UNANSWERED;
    }
  }

  /** After a first stop, no later stop supplants the one that is shown. */
  lemma {:induction false} NothingSupplantsShown(ts: seq<Event>, j: nat)
    requires ts != [] && ts[0].kind.Stop? && Shown(ts) < j < |ts|
    ensures !Supplants(ts[j], ts[Shown(ts)]) && ts[Shown(ts)].kind.Stop? && ts[0].at <= ts[Shown(ts)].at
  {
    ShownIsStop(ts);
    if j < |ts| - 1 {
      NothingSupplantsShown(ts[..|ts| - 1], j);
    }
  }

  lemma {:induction false} ShownIsStop(ts: seq<Event>)
    requires ts != [] && ts[0].kind.Stop?
    ensures ts[Shown(ts)].kind.Stop? && ts[0].at <= ts[Shown(ts)].at
  {
    if |ts| > 1 {
      ShownIsStop(ts[..|ts| - 1]);
    }
  }

  // ----- One merge in the inbox -----

  /** The inbox row after the terminal events of a prompt that has not arrived, in order. */
  function MergeAll(ts: seq<Event>): InboxRow
    requires ts != []
  {
    if |ts| == 1 then RowOf(ts[0]) else Merge(MergeAll(ts[..|ts| - 1]), ts[|ts| - 1])
  }

  ghost predicate AllTerminal(ts: seq<Event>) {
    forall i :: 0 <= i < |ts| ==> !ts[i].kind.Prompt?
  }

  function Terminals(es: seq<Event>): seq<Event> {
    if es == [] then []
    else Terminals(es[..|es| - 1]) + (if es[|es| - 1].kind.Prompt? then [] else [es[|es| - 1]])
  }

  /**
   * The one case in which inbox and round disagree: a later stop whose text is missing where
   * the earlier one is empty, or the other way round.
   */
  predicate Confuses(row: InboxRow, e: Event) {
    && row.kind.Stop? && e.kind.Stop? && row.text != e.text && TextOf(row) == TextOf(RowOf(e))
    && row.truncated == e.truncated && row.failureCode == e.failureCode && e.at > row.at
  }

  /** Some event of the list meets that case. */
  ghost predicate Confused(ts: seq<Event>) {
    exists j :: 0 < j < |ts| && Confuses(MergeAll(ts[..j]), ts[j])
  }

  lemma {:induction false} TerminalsAreTerminal(es: seq<Event>)
    ensures AllTerminal(Terminals(es))
  {
    if es != [] {
      TerminalsAreTerminal(es[..|es| - 1]);
    }
  }

  lemma {:induction false} MergedRow(ts: seq<Event>)
    requires ts != [] && AllTerminal(ts)
    ensures !MergeAll(ts).kind.Prompt? && (MergeAll(ts).kind.Stop? ==> MergeAll(ts).failureCode.None?)
  {
    if |ts| > 1 {
      MergedRow(ts[..|ts| - 1]);
    }
  }

  /** Merging in the inbox and answering in the round come to the same. */
  lemma MergeIsRespond(row: InboxRow, e: Event)
    requires !row.kind.Prompt? && !e.kind.Prompt? && (row.kind.Stop? ==> row.failureCode.None?)
    ensures Terminated(Merge(row, e)) == Respond(Terminated(row), RowOf(e)) <==> !Confuses(row, e)
  {
  }

  /** No stop lacks its text, or none has an empty one. */
  ghost predicate PlainTexts(ts: seq<Event>) {
    || (forall i :: 0 <= i < |ts| && ts[i].kind.Stop? ==> ts[i].text.Some?)
    || (forall i :: 0 <= i < |ts| && ts[i].kind.Stop? ==> ts[i].text != Some(""))
  }

  /** What the inbox holds is one of the events. */
  lemma {:induction false} MergedFrom(ts: seq<Event>) returns (i: nat)
    requires ts != []
    ensures i < |ts| && MergeAll(ts).kind == ts[0].kind
    ensures MergeAll(ts).kind.Stop? ==> ts[i].kind.Stop? && MergeAll(ts).text == ts[i].text
  {
    i := 0;
    if |ts| > 1 {
      var last := |ts| - 1;
      i := MergedFrom(ts[..last]);
      if !Absorbs(MergeAll(ts[..last]), ts[last]) {
        i := last;
      }
    }
  }

  /** Where every stop has a text, or none an empty one, nothing is confused. */
  lemma PlainTextsAreUnconfused(ts: seq<Event>)
    requires PlainTexts(ts)
    ensures !Confused(ts)
  {
    forall j | 0 < j < |ts|
      ensures !Confuses(MergeAll(ts[..j]), ts[j])
    {
      var i := MergedFrom(ts[..j]);
      assert ts[..j][i] == ts[i];
    }
  }

  /** A stop without a text after one with an empty text. */
  lemma ConfusedExample(first: Event, later: Event)
    requires first.kind.Stop? && later.kind.Stop? && first.text == Some("") && later.text == None
    requires !first.truncated && !later.truncated && first.at < later.at
    ensures Confused([first, later])
  {
    var ts := [first, later];
    assert ts[..1] == [first] && ts[1] == later;
    assert Confuses(MergeAll(ts[..1]), ts[1]);
  }

  lemma {:induction false} MergeAllResponds(ts: seq<Event>)
    requires ts != [] && !Confused(ts) && AllTerminal(ts)
    ensures Terminated(MergeAll(ts)) == Responses(ts)
  {
    var before := ts[..|ts| - 1];
    if |ts| > 1 {
      forall j | 0 < j < |before|
        ensures before[..j] == ts[..j] && before[j] == ts[j]
      {
      }
      MergeAllResponds(before);
      MergedRow(before);
      MergeIsRespond(MergeAll(before), ts[|ts| - 1]);
    } else {
      assert before == [];
    }
  }

  /** A prefix of an unconfused list is unconfused. */
  lemma ConfusedPrefix(ts: seq<Event>, n: nat)
    requires n <= |ts| && Confused(ts[..n])
    ensures Confused(ts)
  {
    var j :| 0 < j < n && Confuses(MergeAll(ts[..n][..j]), ts[..n][j]);
    assert ts[..n][..j] == ts[..j];
  }

  ghost predicate HasPrompt(es: seq<Event>) {
    exists e :: e in es && e.kind.Prompt?
  }

  /** The state that a list of events comes to, when nothing in it is confused. */
  ghost function Settled(es: seq<Event>): KeyState {
    var ts := Terminals(es);
    if HasPrompt(es) then KeyState(None, Some(Responses(ts)))
    else KeyState(if ts == [] then None else Some(MergeAll(ts)), None)
  }

  lemma SettledPrompt(before: seq<Event>, e: Event)
    requires e.kind.Prompt? && !Confused(Terminals(before))
    ensures Settled(before + [e]) == KeyStep(Settled(before), e)
  {
    var es, ts := before + [e], Terminals(before);
    assert es[..|before|] == before && es[|before|] == e;
    assert HasPrompt(es) && Terminals(es) == ts;
    assert HasPrompt(before) ==> KeyStep(Settled(before), e) == Settled(before);
    if !HasPrompt(before) && ts != [] {
      TerminalsAreTerminal(before);
      MergeAllResponds(ts);
      MergedRow(ts);
    }
  }

  lemma SettledTerminal(before: seq<Event>, e: Event)
    requires !e.kind.Prompt?
    ensures Settled(before + [e]) == KeyStep(Settled(before), e)
  {
    var es, ts := before + [e], Terminals(before);
    assert es[..|before|] == before;
    assert HasPrompt(es) <==> HasPrompt(before);
    assert Terminals(es) == ts + [e] && (ts + [e])[..|ts|] == ts;
  }

  /** The state of a key is a function of its terminal events and of whether its prompt came. */
  lemma {:induction false} KeyStepsResult(es: seq<Event>)
    requires !Confused(Terminals(es))
    ensures KeySteps(es) == Settled(es)
  {
    if es != [] {
      var before, e := es[..|es| - 1], es[|es| - 1];
      assert es == before + [e];
      assert Terminals(es)[..|Terminals(before)|] == Terminals(before);
      if Confused(Terminals(before)) {
        ConfusedPrefix(Terminals(es), |Terminals(before)|);
      }
      KeyStepsResult(before);
      if e.kind.Prompt? {
        SettledPrompt(before, e);
      } else {
        SettledTerminal(before, e);
      }
    }
  }

  lemma OneMore(es: seq<Event>, e: Event)
    ensures KeySteps(es + [e]) == KeyStep(KeySteps(es), e)
    ensures Terminals(es + [e]) == Terminals(es) + (if e.kind.Prompt? then [] else [e])
  {
    assert (es + [e])[..|es|] == es;
  }

  // ----- When the position of the prompt matters -----

  /** The events with the prompt at position `i`. */
  function PromptAt(ts: seq<Event>, p: Event, i: nat): seq<Event>
    requires i <= |ts|
  {
    ts[..i] + [p] + ts[i..]
  }

  lemma {:induction false} TerminalsOfAll(ts: seq<Event>)
    requires AllTerminal(ts)
    ensures Terminals(ts) == ts
  {
    if ts != [] {
      TerminalsOfAll(ts[..|ts| - 1]);
      assert ts == ts[..|ts| - 1] + [ts[|ts| - 1]];
    }
  }

  lemma {:induction false} TerminalsJoin(a: seq<Event>, b: seq<Event>)
    ensures Terminals(a + b) == Terminals(a) + Terminals(b)
  {
    if b == [] {
      assert a + b == a;
    } else {
      var before, e := b[..|b| - 1], b[|b| - 1];
      assert a + b == (a + before) + [e];
      OneMore(a + before, e);
      TerminalsJoin(a, before);
    }
  }

  lemma TerminalsPromptAt(ts: seq<Event>, p: Event, i: nat)
    requires i <= |ts| && p.kind.Prompt? && AllTerminal(ts)
    ensures Terminals(PromptAt(ts, p, i)) == ts && HasPrompt(PromptAt(ts, p, i))
  {
    TerminalsJoin(ts[..i] + [p], ts[i..]);
    OneMore(ts[..i], p);
    TerminalsOfAll(ts[..i]);
    TerminalsOfAll(ts[i..]);
    assert PromptAt(ts, p, i)[i] == p;
  }

  /** Wherever the prompt arrives, the response is the same, after these events and any fewer. */
  ghost predicate PositionFree(ts: seq<Event>, p: Event) {
    forall n: nat, i: nat, j: nat :: i <= n <= |ts| && j <= n ==>
      KeySteps(PromptAt(ts[..n], p, i)).response == KeySteps(PromptAt(ts[..n], p, j)).response
  }

  /** The position of the prompt does not matter exactly when no stop confuses a missing text with an empty one. */
  lemma PositionFreeExactly(ts: seq<Event>, p: Event)
    requires p.kind.Prompt? && AllTerminal(ts)
    ensures PositionFree(ts, p) <==> !Confused(ts)
  {
    if Confused(ts) {
      ConfusedPositionMatters(ts, p);
    } else {
      forall n: nat, i: nat, j: nat | i <= n <= |ts| && j <= n
        ensures KeySteps(PromptAt(ts[..n], p, i)).response == KeySteps(PromptAt(ts[..n], p, j)).response
      {
        if Confused(ts[..n]) {
          ConfusedPrefix(ts, n);
        }
        UnconfusedPosition(ts, p, n, i);
        UnconfusedPosition(ts, p, n, j);
      }
    }
  }

  lemma UnconfusedPosition(ts: seq<Event>, p: Event, n: nat, i: nat)
    requires p.kind.Prompt? && AllTerminal(ts) && i <= n <= |ts| && !Confused(ts[..n])
    ensures KeySteps(PromptAt(ts[..n], p, i)).response == Some(Responses(ts[..n]))
  {
    TerminalsPromptAt(ts[..n], p, i);
    KeyStepsResult(PromptAt(ts[..n], p, i));
  }

  /** What one more terminal event does to a response whose prompt came first. */
  lemma PromptFirst(before: seq<Event>, e: Event, p: Event)
    requires p.kind.Prompt? && !e.kind.Prompt? && AllTerminal(before) && !Confused(before)
    ensures KeySteps(PromptAt(before + [e], p, 0)).response == Some(Respond(Responses(before), RowOf(e)))
  {
    assert before[..|before|] == before;
    UnconfusedPosition(before, p, |before|, 0);
    assert PromptAt(before + [e], p, 0) == PromptAt(before, p, 0) + [e];
    OneMore(PromptAt(before, p, 0), e);
  }

  lemma PendingResponds(row: InboxRow)
    ensures Respond(UNANSWERED, row) == Terminated(row)
  {
  }

  /** What a prompt that comes last finds in the inbox. */
  lemma PromptLast(ts: seq<Event>, p: Event)
    requires ts != [] && p.kind.Prompt? && AllTerminal(ts)
    ensures KeySteps(PromptAt(ts, p, |ts|)).response == Some(Terminated(MergeAll(ts)))
  {
    hide Merge;
    hide Respond;
    hide Terminated;
    assert PromptAt(ts, p, |ts|) == ts + [p] && ts[..|ts|] == ts;
    OneMore(ts, p);
    TerminalsOnly(ts, |ts|);
    PendingResponds(MergeAll(ts));
  }

  lemma ResponsesDiffer(before: seq<Event>, e: Event)
    requires before != [] && AllTerminal(before + [e]) && !Confused(before) && Confuses(MergeAll(before), e)
    ensures Respond(Responses(before), RowOf(e)) != Terminated(MergeAll(before + [e]))
  {
    assert (before + [e])[|before|] == e && (before + [e])[..|before|] == before;
    assert forall i :: 0 <= i < |before| ==> (before + [e])[i] == before[i];
    assert AllTerminal(before);
    MergedRow(before);
    MergeAllResponds(before);
    MergeIsRespond(MergeAll(before), e);
  }

  /** At the first confusing event, a prompt that came first and one that comes last see different times. */
  lemma ConfusedPositionMatters(ts: seq<Event>, p: Event)
    requires p.kind.Prompt? && AllTerminal(ts) && Confused(ts)
    ensures !PositionFree(ts, p)
  {
    assert ts[..|ts|] == ts;
    var j := FirstConfusion(ts, |ts|);
    var n := j + 1;
    assert ts[..n] == ts[..j] + [ts[j]];
    PromptFirst(ts[..j], ts[j], p);
    PromptLast(ts[..n], p);
    ResponsesDiffer(ts[..j], ts[j]);
  }

  lemma ConfusedAt(ts: seq<Event>, j: nat, n: nat)
    requires 0 < j < n <= |ts| && Confuses(MergeAll(ts[..j]), ts[j])
    ensures Confused(ts[..n])
  {
    hide Confuses;
    hide MergeAll;
    assert ts[..n][..j] == ts[..j] && ts[..n][j] == ts[j];
  }

  lemma {:induction false} FirstConfusion(ts: seq<Event>, n: nat) returns (j: nat)
    requires n <= |ts| && Confused(ts[..n])
    ensures 0 < j < n && Confuses(MergeAll(ts[..j]), ts[j]) && !Confused(ts[..j])
  {
    if Confused(ts[..n - 1]) {
      j := FirstConfusion(ts, n - 1);
    } else {
      hide Confuses;
      hide MergeAll;
      j :| 0 < j < n && Confuses(MergeAll(ts[..n][..j]), ts[..n][j]);
      assert ts[..n][..j] == ts[..j];
      if j < n - 1 {
        ConfusedAt(ts, j, n - 1);
      }
    }
  }

  lemma {:induction false} TerminalsOnly(ts: seq<Event>, n: nat)
    requires n <= |ts| && AllTerminal(ts)
    ensures KeySteps(ts[..n]) == KeyState(if n == 0 then None else Some(MergeAll(ts[..n])), None)
  {
    if n > 0 {
      TerminalsOnly(ts, n - 1);
      assert ts[..n][..n - 1] == ts[..n - 1] && ts[n - 1] in ts;
    }
  }
}
