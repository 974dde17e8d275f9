/**
 * The event stream as sections 9.2.5 and 9.2.6 of the WHATWG HTML Standard interpret it, for
 * `data` fields, and the agreement of the usage parser with it.
 */
module SseAgreement {
  import opened CodexUsage
  import opened Incremental
  import opened Options
  import opened Utf8

  /** Lines end with CR LF, LF or CR; what follows the last end is no line. */
  function StreamLines(text: Text): seq<Text>
    decreases |text|
  {
    var i := LineEnd(text);
    if i == |text| then []
    else
      var next := if text[i] == CR && i + 1 < |text| && text[i + 1] == LF then i + 2 else i + 1;
      [text[..i]] + StreamLines(text[next..])
  }

  function LineEnd(text: Text): (i: nat)
    ensures i <= |text| && (i < |text| ==> text[i] == LF || text[i] == CR)
    ensures forall k :: 0 <= k < i ==> text[k] != LF && text[k] != CR
  {
    if text == [] || text[0] == LF || text[0] == CR then 0 else LineEnd(text[1..]) + 1
  }

  /** The event that a line dispatches, given the data buffer. */
  function Dispatched(line: Text, buffer: Text): seq<Text> {
    if line == [] && buffer != [] then [buffer[..|buffer| - 1]] else []
  }

  /** The data buffer behind a line. */
  function Buffered(line: Text, buffer: Text): Text {
    if line == [] then []
    else if line[0] == COLON then buffer
    else
      var colon := IndexOf(line, COLON);
      var rest := if colon < |line| then line[colon + 1..] else [];
      var value := if rest != [] && rest[0] == SPACE then rest[1..] else rest;
      if line[..colon] == DATA then buffer + value + [LF] else buffer
  }

  /** The data of the events that the lines dispatch, with the data buffer as it is before them. */
  function StreamEvents(lines: seq<Text>, buffer: Text): seq<Text> {
    if lines == [] then [] else Dispatched(lines[0], buffer) + StreamEvents(lines[1..], Buffered(lines[0], buffer))
  }

  /** The data buffer behind the lines. */
  function StreamBuffer(lines: seq<Text>, buffer: Text): Text {
    if lines == [] then buffer else StreamBuffer(lines[1..], Buffered(lines[0], buffer))
  }

  predicate LoneCr(text: Text, i: nat)
    requires i < |text|
  {
    text[i] == CR && (i + 1 == |text| || text[i + 1] != LF)
  }

  /** Every CR is part of a CR LF. */
  ghost predicate NoLoneCr(text: Text) {
    forall i: nat :: i < |text| ==> !LoneCr(text, i)
  }

  // ----- The limits of the parser -----

  /** The event is within the limit for one event, where its last line counts an end as well. */
  predicate Fits(c: Config, event: Text) {
    |Units(event)| + 1 <= c.maxEventBytes
  }

  /** Of the first `room` events those that fit, without the sentinel that ends the stream. */
  function Accepted(c: Config, events: seq<Text>, room: nat): seq<Text> {
    if events == [] || room == 0 then []
    else (if Fits(c, events[0]) && events[0] != DONE then [events[0]] else []) + Accepted(c, events[1..], room - 1)
  }

  /** An event that fits follows the first `room`. */
  ghost predicate Overruns(c: Config, events: seq<Text>, room: nat) {
    exists i :: room <= i < |events| && Fits(c, events[i])
  }

  /** How many more events the parser looks at. */
  function Room(c: Config, a: Assembly): nat {
    if a.eventsSeen <= c.maxEvents then c.maxEvents - a.eventsSeen else 0
  }

  function TrimLines(lines: seq<Text>): seq<Text> {
    if lines == [] then [] else [Trimmed(lines[0])] + TrimLines(lines[1..])
  }

  /** The lines that the parser completes: LF ends one, and a CR before it is not part of it. */
  function LfLines(text: Text): seq<Text> {
    LinesAreStable();
    TrimLines(Drain(Lines(), text).items)
  }

  // ----- Lines -----

  lemma LfStep(text: Text)
    ensures var i := IndexOf(text, LF);
      LfLines(text) == if i == |text| then [] else [Trimmed(text[..i])] + LfLines(text[i + 1..])
  {
    hide IndexOf;
    hide Productive;
    hide Stable;
    hide Drain;
    hide Trimmed;
    LinesAreStable();
    DrainStep(Lines(), text);
    var i := IndexOf(text, LF);
    if i < |text| {
      var rest := Drain(Lines(), text[i + 1..]).items;
      assert ([text[..i]] + rest)[1..] == rest;
    }
  }

  lemma RestHasNoLoneCr(text: Text, k: nat)
    requires NoLoneCr(text) && k <= |text|
    ensures NoLoneCr(text[k..])
  {
    var rest := text[k..];
    forall j: nat | j < |rest|
      ensures !LoneCr(rest, j)
    {
      assert !LoneCr(text, k + j);
    }
  }

  /** The first line is up to the LF, or up to the CR before it. */
  lemma FirstEndOf(text: Text)
    requires NoLoneCr(text) && IndexOf(text, LF) < |text|
    ensures var i, e := IndexOf(text, LF), LineEnd(text);
      && e < |text| && (text[e] == CR <==> e < i) && text[e + (if e < i then 1 else 0)] == LF
      && (e == i || e + 1 == i) && Trimmed(text[..i]) == text[..e]
  {
    hide IndexOf;
    hide LineEnd;
    var i, e := IndexOf(text, LF), LineEnd(text);
    assert e <= i;
    assert !LoneCr(text, e);
    assert i > 0 ==> !LoneCr(text, i - 1);
    assert e == i || (e + 1 == i && text[e] == CR);
  }

  lemma StreamStep(text: Text)
    requires LineEnd(text) < |text|
    ensures var e := LineEnd(text);
      var next := if text[e] == CR && e + 1 < |text| && text[e + 1] == LF then e + 2 else e + 1;
      StreamLines(text) == [text[..e]] + StreamLines(text[next..])
  {
    hide LineEnd;
  }

  /** Up to the first LF both see the same line. */
  lemma SameFirstLine(text: Text)
    requires NoLoneCr(text) && IndexOf(text, LF) < |text|
    ensures var i := IndexOf(text, LF);
      NoLoneCr(text[i + 1..]) && StreamLines(text) == [Trimmed(text[..i])] + StreamLines(text[i + 1..])
  {
    hide IndexOf;
    hide LineEnd;
    hide Trimmed;
    FirstEndOf(text);
    RestHasNoLoneCr(text, IndexOf(text, LF) + 1);
    hide NoLoneCr;
    StreamStep(text);
    hide StreamLines;
  }

  lemma SameNoLine(text: Text)
    requires NoLoneCr(text) && IndexOf(text, LF) == |text|
    ensures StreamLines(text) == []
  {
    hide IndexOf;
    hide LineEnd;
    var e := LineEnd(text);
    assert e < |text| ==> !LoneCr(text, e);
    assert e == |text|;
  }

  lemma {:induction false} NoLoneCrSameLines(text: Text)
    requires NoLoneCr(text)
    ensures LfLines(text) == StreamLines(text)
    decreases |text|
  {
    hide IndexOf;
    hide NoLoneCr;
    hide StreamLines;
    hide LfLines;
    hide Trimmed;
    LfStep(text);
    if IndexOf(text, LF) == |text| {
      SameNoLine(text);
    } else {
      SameFirstLine(text);
      NoLoneCrSameLines(text[IndexOf(text, LF) + 1..]);
    }
  }

  lemma {:induction false} IndexOfSkip(text: Text, k: nat)
    requires k <= |text| && forall j :: 0 <= j < k ==> text[j] != LF
    ensures IndexOf(text, LF) == k + IndexOf(text[k..], LF)
  {
    if k > 0 {
      IndexOfSkip(text[1..], k - 1);
      assert text[1..][k - 1..] == text[k..];
    } else {
      assert text[0..] == text;
    }
  }

  /** What no LF ends makes no line of the parser. */
  lemma SkipOpen(text: Text, k: nat)
    requires k <= |text| && forall j :: 0 <= j < k ==> text[j] != LF
    ensures |LfLines(text[k..])| == |LfLines(text)|
  {
    hide IndexOf;
    hide LfLines;
    hide Trimmed;
    IndexOfSkip(text, k);
    LfStep(text);
    LfStep(text[k..]);
    var i := IndexOf(text, LF);
    if i < |text| {
      assert text[k..][i - k + 1..] == text[i + 1..];
    }
  }

  /** Where the first line of the standard ends, and where the next one begins. */
  lemma FirstStreamLine(text: Text) returns (e: nat, next: nat)
    ensures e <= |text| && (e == |text| ==> next == e && StreamLines(text) == [])
    ensures e < |text| ==>
      && e < next <= |text| && (text[e] == LF || text[e] == CR)
      && |StreamLines(text)| == 1 + |StreamLines(text[next..])|
      && next == if !LoneCr(text, e) && text[e] == CR then e + 2 else e + 1
    ensures forall j :: 0 <= j < e ==> text[j] != LF && text[j] != CR
  {
    e := LineEnd(text);
    hide LineEnd;
    next := if e == |text| then e else if !LoneCr(text, e) && text[e] == CR then e + 2 else e + 1;
    if e < |text| {
      StreamStep(text);
      hide StreamLines;
    }
  }

  lemma LoneBehind(text: Text, e: nat, next: nat)
    requires e < next <= |text| && forall j :: 0 <= j < e ==> text[j] != CR
    requires !LoneCr(text, e) && next == if text[e] == CR then e + 2 else e + 1
    ensures NoLoneCr(text[next..]) ==> NoLoneCr(text)
  {
    if NoLoneCr(text[next..]) {
      forall k: nat | k < |text|
        ensures !LoneCr(text, k)
      {
        if k >= next {
          assert !LoneCr(text[next..], k - next);
        }
      }
    }
  }

  /** Every lone CR ends one more line of the standard. */
  lemma {:induction false} LoneCrAddsLines(text: Text)
    ensures |LfLines(text)| <= |StreamLines(text)| && (!NoLoneCr(text) ==> |LfLines(text)| < |StreamLines(text)|)
    decreases |text|
  {
    hide IndexOf;
    hide StreamLines;
    hide LfLines;
    hide Trimmed;
    hide NoLoneCr;
    LfStep(text);
    var e, next := FirstStreamLine(text);
    if e == |text| {
      IndexOfSkip(text, e);
      NothingLone(text);
    } else {
      LoneCrAddsLines(text[next..]);
      if LoneCr(text, e) {
        SkipOpen(text, next);
      } else {
        IndexOfSkip(text, next - 1);
        assert text[next - 1..][0] == LF;
        assert IndexOf(text[next - 1..], LF) == 0;
        LoneBehind(text, e, next);
      }
    }
  }

  lemma NothingLone(text: Text)
    requires forall j :: 0 <= j < |text| ==> text[j] != CR
    ensures NoLoneCr(text)
  {
  }

  /** The lines of the parser are those of the standard exactly when every CR belongs to a CR LF. */
  lemma SameLines(text: Text)
    ensures LfLines(text) == StreamLines(text) <==> NoLoneCr(text)
  {
    hide LfLines;
    hide StreamLines;
    hide NoLoneCr;
    LoneCrAddsLines(text);
    if NoLoneCr(text) {
      NoLoneCrSameLines(text);
    }
  }

  // ----- Events -----

  function BufferOf(parts: seq<Text>): Text {
    if parts == [] then [] else Join(parts) + [LF]
  }

  lemma {:induction false} JoinSnoc(parts: seq<Text>, value: Text)
    requires parts != []
    ensures Join(parts + [value]) == Join(parts) + [LF] + value
  {
    assert (parts + [value])[1..] == parts[1..] + [value];
    if |parts| == 1 {
      assert parts[1..] + [value] == [value];
    } else {
      JoinSnoc(parts[1..], value);
      assert parts[0] + [LF] + (Join(parts[1..]) + [LF] + value) == (parts[0] + [LF] + Join(parts[1..])) + [LF] + value;
    }
  }

  lemma BufferSnoc(parts: seq<Text>, value: Text)
    ensures BufferOf(parts + [value]) == BufferOf(parts) + value + [LF]
  {
    if parts == [] {
      assert parts + [value] == [value];
    } else {
      JoinSnoc(parts, value);
      assert (Join(parts) + [LF] + value) + [LF] == (Join(parts) + [LF]) + value + [LF];
    }
  }

  lemma {:induction false} UnitsJoin(a: Text, b: Text)
    ensures |Units(a + b)| == |Units(a)| + |Units(b)|
  {
    if a == [] {
      assert a + b == b;
    } else {
      assert (a + b)[0] == a[0] && (a + b)[1..] == a[1..] + b;
      UnitsJoin(a[1..], b);
    }
  }

  lemma UnitsEnded(text: Text)
    ensures |Units(text + [LF])| == |Units(text)| + 1
  {
    UnitsJoin(text, [LF]);
    assert Units([LF]) == UnitsOf(LF) + Units([]);
  }

  /** The assembly stands for the data buffer; of an oversized event only the size is known. */
  ghost predicate Tracks(c: Config, a: Assembly, buffer: Text) {
    && a.eventBytes == |Units(buffer)| && a.oversized == (|Units(buffer)| > c.maxEventBytes)
    && (buffer != [] ==> buffer[|buffer| - 1] == LF)
    && (if a.oversized then a.parts == [] else BufferOf(a.parts) == buffer)
  }

  /** From one state to another the parser accounts for these events. */
  ghost predicate Accounts(c: Config, a: Assembly, events: seq<Text>, b: Assembly) {
    && b.eventsSeen == a.eventsSeen + |events|
    && b.payloads == a.payloads + Accepted(c, events, Room(c, a))
    && (b.limit <==> a.limit || Overruns(c, events, Room(c, a)))
  }

  lemma OneAccepted(c: Config, event: Text, room: nat)
    ensures Accepted(c, [event], room) == if room > 0 && Fits(c, event) && event != DONE then [event] else []
    ensures Overruns(c, [event], room) <==> room == 0 && Fits(c, event)
  {
    hide Fits;
    assert [event][0] == event && [event][1..] == [];
  }

  lemma SameDispatch(c: Config, a: Assembly, buffer: Text)
    requires Tracks(c, a, buffer)
    ensures Tracks(c, Dispatch(c, a), []) && Accounts(c, a, Dispatched([], buffer), Dispatch(c, a))
  {
    assert Units([]) == [] && BufferOf([]) == [];
    hide Units;
    if buffer == [] {
      NoneAccepted(c, Room(c, a));
    } else {
      assert buffer == buffer[..|buffer| - 1] + [LF];
      DispatchAccounts(c, a, buffer[..|buffer| - 1]);
    }
  }

  lemma DispatchAccounts(c: Config, a: Assembly, event: Text)
    requires Tracks(c, a, event + [LF])
    ensures Accounts(c, a, [event], Dispatch(c, a))
  {
    UnitsEnded(event);
    OneAccepted(c, event, Room(c, a));
    hide Units;
    hide Accepted;
    hide Overruns;
    if !a.oversized {
      EndsAgree(Join(a.parts), event);
      hide Join;
    }
  }

  lemma EndsAgree(a: Text, b: Text)
    requires a + [LF] == b + [LF]
    ensures a == b
  {
    assert a == (a + [LF])[..|a|] && b == (b + [LF])[..|b|];
  }

  lemma SameData(c: Config, a: Assembly, buffer: Text, raw: Text)
    requires Tracks(c, a, buffer) && Trimmed(raw) != [] && DataValue(Trimmed(raw)).Some?
    ensures var b := TakeLine(c, a, raw);
      && Tracks(c, b, buffer + DataValue(Trimmed(raw)).value + [LF])
      && b.eventsSeen == a.eventsSeen && b.payloads == a.payloads && b.limit == a.limit
  {
    hide Units;
    hide Trimmed;
    hide DataValue;
    hide BufferOf;
    var value := DataValue(Trimmed(raw)).value;
    UnitsEnded(buffer + value);
    UnitsJoin(buffer, value);
    BufferSnoc(a.parts, value);
  }

  /** One line does to the event being assembled what the standard does to the data buffer. */
  lemma SameLine(c: Config, a: Assembly, buffer: Text, raw: Text)
    requires Tracks(c, a, buffer)
    ensures Tracks(c, TakeLine(c, a, raw), Buffered(Trimmed(raw), buffer))
    ensures Accounts(c, a, Dispatched(Trimmed(raw), buffer), TakeLine(c, a, raw))
  {
    hide Units;
    hide Trimmed;
    var line := Trimmed(raw);
    if line == [] {
      SameDispatch(c, a, buffer);
    } else {
      if DataValue(line).Some? {
        SameData(c, a, buffer, raw);
      }
      NoneAccepted(c, Room(c, a));
    }
  }

  lemma NoneAccepted(c: Config, room: nat)
    ensures Accepted(c, [], room) == [] && !Overruns(c, [], room)
  {
  }

  lemma {:induction false} AcceptedJoin(c: Config, x: seq<Text>, y: seq<Text>, room: nat)
    ensures var left := if |x| <= room then room - |x| else 0;
      && Accepted(c, x + y, room) == Accepted(c, x, room) + Accepted(c, y, left)
      && (Overruns(c, x + y, room) <==> Overruns(c, x, room) || Overruns(c, y, left))
  {
    hide Fits;
    var left := if |x| <= room then room - |x| else 0;
    forall i | left <= i < |y| && Fits(c, y[i])
      ensures Overruns(c, x + y, room)
    {
      assert (x + y)[|x| + i] == y[i];
    }
    forall i | room <= i < |x| && Fits(c, x[i])
      ensures Overruns(c, x + y, room)
    {
      assert (x + y)[i] == x[i];
    }
    if x == [] {
      assert x + y == y;
    } else if room > 0 {
      assert (x + y)[0] == x[0] && (x + y)[1..] == x[1..] + y;
      AcceptedJoin(c, x[1..], y, room - 1);
    }
  }

  lemma AccountsJoin(c: Config, a: Assembly, x: seq<Text>, b: Assembly, y: seq<Text>, d: Assembly)
    requires Accounts(c, a, x, b) && Accounts(c, b, y, d)
    ensures Accounts(c, a, x + y, d)
  {
    hide Accepted;
    hide Overruns;
    AcceptedJoin(c, x, y, Room(c, a));
  }

  /** The lines do to the parser what their events amount to. */
  lemma {:induction false} SameEvents(c: Config, a: Assembly, buffer: Text, lines: seq<Text>)
    requires Tracks(c, a, buffer)
    ensures Tracks(c, TakeLines(c, a, lines), StreamBuffer(TrimLines(lines), buffer))
    ensures Accounts(c, a, StreamEvents(TrimLines(lines), buffer), TakeLines(c, a, lines))
    decreases |lines|
  {
    hide TakeLine;
    hide Tracks;
    hide Accounts;
    hide Buffered;
    hide Dispatched;
    hide Trimmed;
    if lines == [] {
      NothingAccounted(c, a);
    } else {
      var line, b := Trimmed(lines[0]), TakeLine(c, a, lines[0]);
      SameLine(c, a, buffer, lines[0]);
      SameEvents(c, b, Buffered(line, buffer), lines[1..]);
      assert TrimLines(lines)[1..] == TrimLines(lines[1..]);
      AccountsJoin(c, a, Dispatched(line, buffer), b,
                   StreamEvents(TrimLines(lines[1..]), Buffered(line, buffer)), TakeLines(c, a, lines));
    }
  }

  lemma NothingAccounted(c: Config, a: Assembly)
    ensures Accounts(c, a, [], a)
  {
    NoneAccepted(c, Room(c, a));
  }

  // ----- The parser -----

  /** Whatever the text, the parser reads its LF lines, less a CR at their end, as the standard reads lines. */
  lemma ReadsLines(c: Config, text: Text)
    requires Decide(c, text).Some? && !Decide(c, text).value.Json?
    ensures var lines := LfLines(text);
      && Tracks(c, Read(c, text).assembly, StreamBuffer(lines, []))
      && Accounts(c, NO_EVENT, StreamEvents(lines, []), Read(c, text).assembly)
  {
    hide Decide;
    hide Productive;
    hide Drain;
    hide TakeLines;
    hide StreamEvents;
    hide StreamBuffer;
    hide Accounts;
    hide Read;
    ReadWhole(c, text);
    SameEvents(c, NO_EVENT, [], Drain(Lines(), text).items);
  }

  lemma Agreement(c: Config, text: Text)
    requires Decide(c, text).Some? && !Decide(c, text).value.Json? && NoLoneCr(text)
    ensures Tracks(c, Read(c, text).assembly, StreamBuffer(StreamLines(text), []))
    ensures Accounts(c, NO_EVENT, StreamEvents(StreamLines(text), []), Read(c, text).assembly)
  {
    hide Decide;
    hide Productive;
    hide Drain;
    hide StreamEvents;
    hide StreamBuffer;
    hide Accounts;
    hide Tracks;
    hide Read;
    ReadsLines(c, text);
    SameLines(text);
  }

  /**
   * The payloads are the first `maxEvents` events that the standard dispatches, without the
   * oversized ones, and the limit is exceeded exactly when a later event fits.
   */
  lemma AgreesWithTheStandard(c: Config, text: Text)
    requires Decide(c, text).Some? && !Decide(c, text).value.Json? && NoLoneCr(text)
    ensures var events, assembly := StreamEvents(StreamLines(text), []), Read(c, text).assembly;
      && assembly.payloads == Accepted(c, events, c.maxEvents)
      && (assembly.limit <==> exists i :: c.maxEvents <= i < |events| && Fits(c, events[i]))
  {
    hide Fits;
    hide StreamEvents;
    hide Accepted;
    Agreement(c, text);
    var events := StreamEvents(StreamLines(text), []);
    assert [] + Accepted(c, events, c.maxEvents) == Accepted(c, events, c.maxEvents);
  }

  /** A lone CR ends a line of the standard but none of the parser: here an event is missed. */
  lemma LoneCrDiffers(c: Config) returns (text: Text)
    requires c.format.Sse? && c.maxEvents > 0 && c.maxEventBytes > 0
    ensures Read(c, text).assembly.payloads != Accepted(c, StreamEvents(StreamLines(text), []), c.maxEvents)
  {
    hide StreamLines;
    hide StreamEvents;
    text := DATA + [CR, CR];
    NothingRead(c, text);
    TwoCrLines();
    OneEmptyEvent();
    OneAccepted(c, [], c.maxEvents);
    assert Units([]) == [];
  }

  lemma NothingRead(c: Config, text: Text)
    requires c.format.Sse? && forall k :: 0 <= k < |text| ==> text[k] != LF
    ensures Read(c, text).assembly.payloads == []
  {
    hide TakeLine;
    hide IndexOf;
    LinesAreStable();
    var i := IndexOf(text, LF);
    assert Lines()(text).More?;
    DrainStep(Lines(), text);
  }

  lemma OneEmptyEvent()
    ensures StreamEvents([DATA, []], []) == [[]]
  {
    var lines: seq<Text>, last: seq<Text>, none: seq<Text> := [DATA, []], [[]], [];
    assert lines[1..] == last && last[1..] == none;
    var colon := IndexOf(DATA, COLON);
    assert DATA[..4] == DATA;
    assert Buffered(DATA, []) == [] + [] + [LF] == [LF];
    assert [LF][..0] == [];
    assert StreamEvents(none, []) == [];
  }

  lemma TwoCrLines()
    ensures StreamLines(DATA + [CR, CR]) == [DATA, []]
  {
    var text, one, none: Text := DATA + [CR, CR], [CR], [];
    var i, j := LineEnd(text), LineEnd(one);
    hide LineEnd;
    assert one[0] == CR && text[4] == CR;
    assert j == 0 && i == 4;
    assert text[..4] == DATA && text[5..] == one;
    assert one[..0] == none && one[1..] == none;
    assert StreamLines(none) == [];
    assert StreamLines(one) == [none] + [];
  }

  /** At its end the parser treats the stream as if an empty line followed; the standard discards what is left. */
  lemma EndIsAnEmptyLine(c: Config, text: Text)
    requires Decide(c, text).Some? && !Decide(c, text).value.Json?
    ensures Flush(c, Read(c, text)) == Read(c, text + [LF, LF]).assembly
  {
    hide Drain;
    hide Read;
    hide Decide;
    hide Productive;
    hide TakeLines;
    hide Stable;
    var r := Read(c, text);
    ReadSseOn(c, text, [LF, LF]);
    ReadWhole(c, text);
    LastLineOpen(text);
    TwoEnds(r.line);
    TwoLines(c, r.assembly, r.line);
  }

  /** What would be in the data buffer if the unfinished line were finished. */
  function LeftOver(buffer: Text, line: Text): Text {
    if line == [] then buffer else Buffered(line, buffer)
  }

  lemma NothingLeftExactly(buffer: Text, line: Text)
    ensures LeftOver(buffer, line) == [] <==> buffer == [] && DataValue(line).None?
  {
    hide IndexOf;
  }

  lemma FlushAccounts(c: Config, a: Assembly, buffer: Text, line: Text)
    requires Tracks(c, a, buffer) && Trimmed(line) == line
    ensures Accounts(c, a, Dispatched([], LeftOver(buffer, line)),
      Dispatch(c, if line == [] then a else TakeLine(c, a, line)))
  {
    hide Tracks;
    hide Accounts;
    hide Dispatch;
    hide Buffered;
    if line == [] {
      SameDispatch(c, a, buffer);
    } else {
      var b := TakeLine(c, a, line);
      hide TakeLine;
      SameLine(c, a, buffer, line);
      SameDispatch(c, b, Buffered(line, buffer));
      AccountsJoin(c, a, [], b, Dispatched([], Buffered(line, buffer)), Dispatch(c, b));
      assert [] + Dispatched([], Buffered(line, buffer)) == Dispatched([], Buffered(line, buffer));
    }
  }

  /** The left-over data makes one more event to account for. */
  predicate OneMore(c: Config, left: Text, seen: nat) {
    left != [] && seen < c.maxEvents && Fits(c, left[..|left| - 1]) && left[..|left| - 1] != DONE
  }

  lemma FlushAddsExactly(c: Config, a: Assembly, buffer: Text, line: Text)
    requires Tracks(c, a, buffer) && Trimmed(line) == line
    ensures var b := Dispatch(c, if line == [] then a else TakeLine(c, a, line));
      b.payloads != a.payloads <==> OneMore(c, LeftOver(buffer, line), a.eventsSeen)
  {
    hide Tracks;
    hide Dispatch;
    hide TakeLine;
    hide Trimmed;
    hide Fits;
    FlushAccounts(c, a, buffer, line);
    var left := LeftOver(buffer, line);
    hide LeftOver;
    hide Overruns;
    if left == [] {
      NoneAccepted(c, Room(c, a));
    } else {
      OneAccepted(c, left[..|left| - 1], Room(c, a));
    }
    hide Accepted;
  }

  /**
   * At its end the parser departs from the standard exactly when data is left over, in the buffer
   * or in an unfinished line, that makes one more event to account for.
   */
  lemma EndAgreesExactly(c: Config, text: Text)
    requires Decide(c, text).Some? && !Decide(c, text).value.Json? && NoLoneCr(text)
    ensures var r, events := Read(c, text), StreamEvents(StreamLines(text), []);
      Flush(c, r).payloads != Accepted(c, events, c.maxEvents) <==>
      OneMore(c, LeftOver(StreamBuffer(StreamLines(text), []), r.line), |events|)
  {
    hide Drain;
    hide Read;
    hide Decide;
    hide Productive;
    hide TakeLines;
    hide TakeLine;
    hide Dispatch;
    hide StreamLines;
    hide StreamEvents;
    hide StreamBuffer;
    hide Accepted;
    hide Overruns;
    hide Tracks;
    hide LeftOver;
    hide OneMore;
    Agreement(c, text);
    AgreesWithTheStandard(c, text);
    ReadWhole(c, text);
    OpenLineClean(text);
    hide Trimmed;
    FlushAddsExactly(c, Read(c, text).assembly, StreamBuffer(StreamLines(text), []), Read(c, text).line);
  }

  /** The unfinished line has no CR to trim. */
  lemma {:induction false} OpenLineClean(text: Text)
    requires NoLoneCr(text)
    ensures Productive(Lines()) && Trimmed(Drain(Lines(), text).rest) == Drain(Lines(), text).rest
    decreases |text|
  {
    hide IndexOf;
    hide Productive;
    hide Stable;
    hide Drain;
    hide StreamLines;
    LinesAreStable();
    DrainStep(Lines(), text);
    var i := IndexOf(text, LF);
    if i < |text| {
      SameFirstLine(text);
      OpenLineClean(text[i + 1..]);
    } else if text != [] {
      assert !LoneCr(text, |text| - 1);
    }
  }

  lemma OneEnd(line: Text, rest: Text)
    requires forall k :: 0 <= k < |line| ==> line[k] != LF
    ensures Productive(Lines())
    ensures var d := Drain(Lines(), rest);
      Drain(Lines(), line + [LF] + rest) == Drained([line] + d.items, d.rest, d.bad)
  {
    hide IndexOf;
    hide Productive;
    hide Stable;
    hide Drain;
    LinesAreStable();
    var text := line + [LF] + rest;
    FirstEnd(line, rest);
    assert text[..|line|] == line && text[|line| + 1..] == rest;
    DrainStep(Lines(), text);
  }

  lemma TwoEnds(line: Text)
    requires forall k :: 0 <= k < |line| ==> line[k] != LF
    ensures Productive(Lines()) && Drain(Lines(), line + [LF, LF]) == Drained([line, []], [], false)
  {
    hide Productive;
    hide Stable;
    hide Drain;
    hide Lines;
    LinesAreStable();
    DrainStep(Lines(), []);
    OneEnd([], []);
    OneEnd(line, [LF]);
    assert [] + [LF] + [] == [LF] && line + [LF, LF] == line + [LF] + [LF];
    assert [line] + ([[]] + []) == [line, []];
  }

  lemma {:induction false} FirstEnd(line: Text, rest: Text)
    requires forall k :: 0 <= k < |line| ==> line[k] != LF
    ensures IndexOf(line + [LF] + rest, LF) == |line|
  {
    var text := line + [LF] + rest;
    if line != [] {
      FirstEnd(line[1..], rest);
      assert text[0] == line[0] && text[1..] == line[1..] + [LF] + rest;
    }
  }

  lemma TwoLines(c: Config, a: Assembly, line: Text)
    ensures TakeLines(c, a, [line, []]) == Dispatch(c, if line == [] then a else TakeLine(c, a, line))
  {
    var two: seq<Text> := [line, []];
    var one: seq<Text> := [[]];
    var b := TakeLine(c, a, line);
    assert two[1..] == one && one[1..] == [];
    assert TakeLines(c, a, two) == TakeLines(c, b, one) == TakeLines(c, TakeLine(c, b, []), []) == Dispatch(c, b);
    assert line == [] ==> Dispatch(c, b) == b;
  }

  lemma {:induction false} LastLineOpen(text: Text)
    ensures Productive(Lines())
    ensures var line := Drain(Lines(), text).rest; forall k :: 0 <= k < |line| ==> line[k] != LF
    decreases |text|
  {
    hide IndexOf;
    hide Productive;
    hide Stable;
    hide Drain;
    LinesAreStable();
    DrainStep(Lines(), text);
    match NextLine(text)
    case Item(size, _) =>
      LastLineOpen(text[size..]);
    case More =>
      assert IndexOf(text, LF) == |text|;
  }
}
