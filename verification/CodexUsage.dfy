/**
 * Token usage from a Codex response, as one JSON body or as server-sent events: what the
 * parser makes of the whole of it, as functions of the bytes received.
 *
 * JSON is a pair of functions on text; the strict UTF-8 decoder is the one of `Utf8`.
 */
module CodexUsage {
  import opened ByteStrings
  import opened Incremental
  import opened Options
  import opened Utf8

  type Text = seq<Scalar>

  const LF: Scalar := 10
  const CR: Scalar := 13
  const COLON: Scalar := 58
  const SPACE: Scalar := 32
  const BOM: Scalar := 0xFEFF
  const DATA: Text := [100, 97, 116, 97]
  const DONE: Text := [91, 68, 79, 78, 69, 93]
  const AUTO_DETECT_CHARS: nat := 256

  // ----- Usage -----

  /** The token counts of a usage record; what is no token count is absent. */
  datatype RawUsage = RawUsage(
    input: Option<nat>, readFlat: Option<nat>, readNested: Option<nat>,
    writeFlat: Option<nat>, writeNested: Option<nat>, output: Option<nat>, total: Option<nat>)

  datatype Usage = Usage(input: Option<nat>, write: Option<nat>, read: Option<nat>, output: Option<nat>)

  function OrElse(a: Option<nat>, b: Option<nat>): Option<nat> {
    if a.Some? then a else b
  }

  function OrZero(a: Option<nat>): nat {
    if a.Some? then a.value else 0
  }

  /** OpenAI counts the cached tokens within the input, the stored columns count them beside it. */
  function NormalizeCodexUsage(raw: RawUsage): Option<Usage> {
    var read, write := OrElse(raw.readFlat, raw.readNested), OrElse(raw.writeFlat, raw.writeNested);
    if raw.input.None? && read.None? && write.None? && raw.output.None? then None
    else
      var parts := OrZero(read) + OrZero(write);
      Some(Usage(if raw.input.None? then None else Some(if raw.input.value < parts then 0 else raw.input.value - parts),
                 write, read, raw.output))
  }

  /** Every input token is counted once, unless the parts exceed the whole. */
  lemma InputCountedOnce(raw: RawUsage)
    requires raw.input.Some?
    ensures NormalizeCodexUsage(raw).Some?
    ensures var u := NormalizeCodexUsage(raw).value;
      var sum := OrZero(u.input) + OrZero(u.read) + OrZero(u.write);
      && sum >= raw.input.value
      && (sum == raw.input.value <==> OrZero(u.read) + OrZero(u.write) <= raw.input.value)
  {
  }

  datatype Parsed = Unparsable | NoRecord | Record(terminal: bool, usage: Option<RawUsage>)

  datatype Account = Account(usage: Usage, sawUsage: bool, sawTerminal: bool, inconsistent: bool)

  const NO_ACCOUNT: Account := Account(Usage(None, None, None, None), false, false, false)

  function ApplyUsage(a: Account, raw: RawUsage): Account {
    var n := NormalizeCodexUsage(raw);
    if n.None? then a
    else
      var u, v := a.usage, n.value;
      a.(usage := Usage(OrElse(v.input, u.input), OrElse(v.write, u.write),
                        OrElse(v.read, u.read), OrElse(v.output, u.output)),
         sawUsage := true,
         inconsistent := a.inconsistent ||
           (raw.total.Some? && raw.input.Some? && raw.output.Some?
             && raw.total.value != raw.input.value + raw.output.value))
  }

  function Consume(a: Account, event: Parsed): Account {
    match event
    case Record(terminal, usage) =>
      var applied := if usage.Some? then ApplyUsage(a, usage.value) else a;
      applied.(sawTerminal := a.sawTerminal || terminal)
    case _ => a
  }

  // ----- Configuration -----

  datatype Format = Auto | Sse | Json

  datatype Config = Config(
    format: Format, maxBytes: nat, maxEvents: nat, maxEventBytes: nat,
    parseEvent: Text -> Parsed, parseBody: Text -> Parsed)

  // ----- Lines and events -----

  function IndexOf(text: Text, c: Scalar): (i: nat)
    ensures i <= |text| && (i < |text| ==> text[i] == c) && forall k :: 0 <= k < i ==> text[k] != c
  {
    if text == [] || text[0] == c then 0 else IndexOf(text[1..], c) + 1
  }

  function NextLine(text: Text): Step<Text> {
    var i := IndexOf(text, LF);
    if i < |text| then Item(i + 1, text[..i]) else More
  }

  function Lines(): Text -> Step<Text> {
    text => NextLine(text)
  }

  lemma {:induction false} IndexOfJoin(a: Text, b: Text, c: Scalar)
    requires IndexOf(a, c) < |a|
    ensures IndexOf(a + b, c) == IndexOf(a, c)
  {
    if a[0] != c {
      IndexOfJoin(a[1..], b, c);
      assert (a + b)[0] == a[0] && (a + b)[1..] == a[1..] + b;
    }
  }

  lemma LinesAreStable()
    ensures Productive(Lines()) && Stable(Lines()) && Lines()([]).More?
  {
    forall a: Text, b: Text | !NextLine(a).More?
      ensures NextLine(a + b) == NextLine(a)
    {
      var i := IndexOf(a, LF);
      IndexOfJoin(a, b, LF);
      assert (a + b)[..i] == a[..i];
    }
  }

  function Trimmed(raw: Text): Text {
    if raw != [] && raw[|raw| - 1] == CR then raw[..|raw| - 1] else raw
  }

  /** The value of a `data` line; nothing for comments and other fields. */
  function DataValue(line: Text): Option<Text> {
    if line != [] && line[0] == COLON then None
    else
      var colon := IndexOf(line, COLON);
      if line[..colon] != DATA then None
      else
        var value := if colon == |line| then [] else line[colon + 1..];
        Some(if value != [] && value[0] == SPACE then value[1..] else value)
  }

  function Join(parts: seq<Text>): Text {
    if parts == [] then []
    else if |parts| == 1 then parts[0]
    else parts[0] + [LF] + Join(parts[1..])
  }

  /** The event being assembled, and the payloads handed to the JSON parser so far. */
  datatype Assembly = Assembly(
    parts: seq<Text>, eventBytes: nat, oversized: bool, eventsSeen: nat, limit: bool, payloads: seq<Text>)

  const NO_EVENT: Assembly := Assembly([], 0, false, 0, false, [])

  function Dispatch(c: Config, a: Assembly): Assembly {
    if a.oversized then a.(oversized := false, eventBytes := 0, parts := [], eventsSeen := a.eventsSeen + 1)
    else if a.parts == [] then a
    else
      var b := a.(parts := [], eventBytes := 0, eventsSeen := a.eventsSeen + 1);
      if b.eventsSeen > c.maxEvents then b.(limit := true)
      else if Join(a.parts) == DONE then b
      else b.(payloads := a.payloads + [Join(a.parts)])
  }

  function TakeLine(c: Config, a: Assembly, raw: Text): Assembly {
    var line := Trimmed(raw);
    if line == [] then Dispatch(c, a)
    else
      var value := DataValue(line);
      if value.None? then a
      else
        var bytes := a.eventBytes + |Units(value.value)| + 1;
        if bytes > c.maxEventBytes then a.(eventBytes := bytes, oversized := true, parts := [])
        else a.(eventBytes := bytes, parts := a.parts + [value.value])
  }

  function TakeLines(c: Config, a: Assembly, lines: seq<Text>): Assembly
    decreases |lines|
  {
    if lines == [] then a else TakeLines(c, TakeLine(c, a, lines[0]), lines[1..])
  }

  function Accounted(c: Config, payloads: seq<Text>): Account {
    if payloads == [] then NO_ACCOUNT
    else Consume(Accounted(c, payloads[..|payloads| - 1]), c.parseEvent(payloads[|payloads| - 1]))
  }

  // ----- Format detection -----

  predicate IsSpace(c: Scalar) {
    9 <= c <= 13 || c in {32, 0xA0, 0x1680, 0x2028, 0x2029, 0x202F, 0x205F, 0x3000, BOM} || 0x2000 <= c <= 0x200A
  }

  function TrimStart(text: Text): Text {
    if text != [] && IsSpace(text[0]) then TrimStart(text[1..]) else text
  }

  function TrimEnd(text: Text): Text {
    if text != [] && IsSpace(text[|text| - 1]) then TrimEnd(text[..|text| - 1]) else text
  }

  /** White space, the byte order mark included, is one UTF-16 unit each, so code points count as units here. */
  function ProbeMode(text: Text): Option<Format> {
    var probe := TrimStart(text);
    if probe == [] then None else Some(if probe[0] == 123 || probe[0] == 91 then Json else Sse)
  }

  function Prefix(text: Text, n: nat): Text {
    if |text| <= n then text else text[..n]
  }

  function Decide(c: Config, text: Text): Option<Format> {
    if c.format.Auto? then ProbeMode(Prefix(text, AUTO_DETECT_CHARS)) else Some(c.format)
  }

  // ----- The parser as a function of all it received -----

  /** The state after a text; `line` is the unfinished line, `probe` what no format is decided for. */
  datatype Reading = Reading(mode: Option<Format>, probe: Text, json: Text, line: Text, assembly: Assembly)

  function Read(c: Config, text: Text): Reading {
    LinesAreStable();
    match Decide(c, text)
    case None => Reading(None, text, [], [], NO_EVENT)
    case Some(Json) => Reading(Some(Json), [], text, [], NO_EVENT)
    case Some(mode) =>
      var d := Drain(Lines(), text);
      Reading(Some(mode), [], [], d.rest, TakeLines(c, NO_EVENT, d.items))
  }

  function StripMark(text: Text): Text {
    if text != [] && text[0] == BOM then text[1..] else text
  }

  function Decoding(c: Config, received: Bytes): Drained<Byte, Scalar> {
    ScalarsAreStable();
    Drain(Scalars(), if |received| <= c.maxBytes then received else received[..c.maxBytes])
  }

  datatype ParseState = Invalid | LimitExceeded | Truncated | Complete | Partial

  datatype UsageState = UsageUnavailable | UsagePartial | UsageComplete

  datatype Snapshot = Snapshot(usage: Usage, usageState: UsageState, parseState: ParseState)

  function SnapshotOf(a: Account, parseState: ParseState): Snapshot {
    Snapshot(a.usage,
             if !a.sawUsage then UsageUnavailable
             else if a.inconsistent then UsagePartial
             else if parseState.Complete? && a.usage.input.Some? && a.usage.output.Some? then UsageComplete
             else UsagePartial,
             parseState)
  }

  /** The end of the event stream: an unfinished line and an undispatched event still count. */
  function Flush(c: Config, r: Reading): Assembly {
    Dispatch(c, if r.line == [] then r.assembly else TakeLine(c, r.assembly, r.line))
  }

  function Ended(c: Config, r: Reading): (Account, bool) {
    if r.mode == Some(Json) then
      var text := TrimEnd(TrimStart(r.json));
      if text == [] then (NO_ACCOUNT, false)
      else
        match c.parseBody(text)
        case Unparsable => (NO_ACCOUNT, true)
        case NoRecord => (NO_ACCOUNT, false)
        case Record(_, usage) => (Consume(NO_ACCOUNT, Record(true, usage)), false)
    else
      (Accounted(c, Flush(c, r).payloads), false)
  }

  /** What the parser reports about a stream that begins as UTF-8 does. */
  function Report(c: Config, received: Bytes, cut: bool): Snapshot {
    var d := Decoding(c, received);
    var r := Read(c, StripMark(d.items));
    var sofar := Accounted(c, r.assembly.payloads);
    if r.assembly.limit then SnapshotOf(sofar, LimitExceeded)
    else if cut || |received| > c.maxBytes then SnapshotOf(sofar, Truncated)
    else if d.rest != [] then SnapshotOf(sofar, Invalid)
    else
      var (account, invalid) := Ended(c, r);
      SnapshotOf(account,
                 if invalid then Invalid
                 else if !r.mode.Some? || r.mode.value.Json? || !Flush(c, r).limit then
                   if account.sawTerminal then Complete else Partial
                 else LimitExceeded)
  }

  // ----- Lemmas on lines -----

  lemma {:induction false} TakeLinesJoin(c: Config, a: Assembly, x: seq<Text>, y: seq<Text>)
    ensures TakeLines(c, a, x + y) == TakeLines(c, TakeLines(c, a, x), y)
    decreases |x|
  {
    hide TakeLine;
    if x == [] {
      assert x + y == y;
    } else {
      assert (x + y)[0] == x[0] && (x + y)[1..] == x[1..] + y;
      TakeLinesJoin(c, TakeLine(c, a, x[0]), x[1..], y);
    }
  }

  /** After the limit no payload is taken. */
  lemma {:induction false} LimitHolds(c: Config, a: Assembly, lines: seq<Text>)
    requires a.limit && a.eventsSeen > c.maxEvents
    ensures var b := TakeLines(c, a, lines); b.limit && b.payloads == a.payloads
    decreases |lines|
  {
    if lines != [] {
      LimitHolds(c, TakeLine(c, a, lines[0]), lines[1..]);
    }
  }

  lemma {:induction false} LimitMeansMany(c: Config, a: Assembly, lines: seq<Text>)
    requires a.limit ==> a.eventsSeen > c.maxEvents
    ensures var b := TakeLines(c, a, lines); b.limit ==> b.eventsSeen > c.maxEvents
    decreases |lines|
  {
    if lines != [] {
      LimitMeansMany(c, TakeLine(c, a, lines[0]), lines[1..]);
    }
  }

  lemma {:induction false} TrimStartJoin(a: Text, b: Text)
    ensures TrimStart(a) != [] ==> TrimStart(a + b) == TrimStart(a) + b
    ensures TrimStart(a) == [] ==> TrimStart(a + b) == TrimStart(b)
  {
    if a == [] {
      assert a + b == b;
    } else {
      assert (a + b)[0] == a[0] && (a + b)[1..] == a[1..] + b;
      if IsSpace(a[0]) {
        TrimStartJoin(a[1..], b);
      }
    }
  }

  /** A format once decided stays. */
  lemma DecisionStays(c: Config, a: Text, b: Text)
    requires Decide(c, a).Some?
    ensures Decide(c, a + b) == Decide(c, a)
  {
    var p, q := Prefix(a, AUTO_DETECT_CHARS), Prefix(a + b, AUTO_DETECT_CHARS);
    assert q == p + q[|p|..];
    TrimStartJoin(p, q[|p|..]);
  }

  /** Reading on from a text in event-stream format. */
  lemma ReadSseOn(c: Config, a: Text, b: Text)
    requires Decide(c, a).Some? && !Decide(c, a).value.Json?
    ensures Productive(Lines())
    ensures var d := Drain(Lines(), Read(c, a).line + b);
      Read(c, a + b) == Reading(Read(c, a).mode, [], [], d.rest, TakeLines(c, Read(c, a).assembly, d.items))
  {
    hide TakeLines;
    LinesAreStable();
    DecisionStays(c, a, b);
    DrainJoin(Lines(), a, b);
    LinesNeverBad(a);
    TakeLinesJoin(c, NO_EVENT, Drain(Lines(), a).items, Drain(Lines(), Read(c, a).line + b).items);
  }

  lemma {:induction false} LinesNeverBad(text: Text)
    ensures Productive(Lines()) && !Drain(Lines(), text).bad
    decreases |text|
  {
    LinesAreStable();
    match NextLine(text)
    case Item(size, _) => LinesNeverBad(text[size..]);
    case _ =>
  }

  /** What the parser has of a text, by the format it is in. */
  lemma ReadWhole(c: Config, text: Text)
    ensures Productive(Lines())
    ensures var r, mode := Read(c, text), Decide(c, text);
      if mode.None? then r == Reading(None, text, [], [], NO_EVENT)
      else if mode.value.Json? then r == Reading(mode, [], text, [], NO_EVENT)
      else
        var d := Drain(Lines(), text);
        r == Reading(mode, [], [], d.rest, TakeLines(c, NO_EVENT, d.items))
  {
    hide ProbeMode;
    hide TakeLines;
    hide Productive;
    hide Drain;
    LinesAreStable();
  }

  lemma ReadUndecided(c: Config, text: Text)
    requires Read(c, text).mode.None?
    ensures c.format.Auto? && Read(c, text) == Reading(None, text, [], [], NO_EVENT)
  {
  }

  /** Once the limit is passed, more text changes neither that nor the payloads. */
  lemma LimitStays(c: Config, a: Text, b: Text)
    requires Read(c, a).assembly.limit
    ensures Read(c, a + b).assembly.limit && Read(c, a + b).assembly.payloads == Read(c, a).assembly.payloads
  {
    hide TakeLines;
    ReadSseOn(c, a, b);
    LimitMeansMany(c, NO_EVENT, Drain(Lines(), a).items);
    LimitHolds(c, Read(c, a).assembly, Drain(Lines(), Read(c, a).line + b).items);
  }

  lemma EmptyReading(c: Config)
    ensures Decoding(c, []) == Drained([], [], false)
    ensures Read(c, []) == Reading(if c.format.Auto? then None else Some(c.format), [], [], [], NO_EVENT)
  {
    hide TakeLine;
    hide IsSpace;
    hide NextScalar;
    hide IndexOf;
    hide Productive;
    hide Stable;
    LinesAreStable();
    ScalarsAreStable();
    assert Lines()([]).More? && Scalars()([]).More?;
  }

  /** Nothing UTF-8 is ever bad, cut off at the byte limit or not. */
  lemma Utf8IsNeverBad(c: Config, text: Text)
    ensures !Decoding(c, Encode(text)).bad
    ensures |Encode(text)| <= c.maxBytes ==> Decoding(c, Encode(text)) == Drained(text, [], false)
  {
    var end := if |Encode(text)| <= c.maxBytes then |Encode(text)| else c.maxBytes;
    var k := CutDecodes(text, end);
    assert Encode(text)[..|Encode(text)|] == Encode(text) && text[..|text|] == text;
  }

  /** What more bytes do to the decoding. */
  lemma DecodingGrows(c: Config, received: Bytes, chunk: Bytes)
    ensures var d, d' := Decoding(c, received), Decoding(c, received + chunk);
      && (d.bad ==> d'.bad)
      && (!d'.bad ==> d.items <= d'.items && StripMark(d.items) <= StripMark(d'.items))
      && (|received| >= c.maxBytes ==> d' == d)
  {
    if |received| >= c.maxBytes {
      assert (received + chunk)[..c.maxBytes] == received[..c.maxBytes];
      assert |received| == c.maxBytes ==> received[..c.maxBytes] == received;
      assert |received + chunk| == c.maxBytes ==> received + chunk == received;
    } else {
      var accepted := if |chunk| > c.maxBytes - |received| then chunk[..c.maxBytes - |received|] else chunk;
      DecodingOn(c, received, chunk, accepted);
      MarkStrippedOnce(Decoding(c, received).items, Drain(Scalars(), Decoding(c, received).rest + accepted).items);
    }
  }

  lemma MarkStrippedOnce(a: Text, b: Text)
    ensures StripMark(a + b) == StripMark(a) + (if a != [] then b else StripMark(b))
  {
    if a == [] {
      assert a + b == b;
    }
  }

  lemma DecodingOn(c: Config, received: Bytes, chunk: Bytes, accepted: Bytes)
    requires |received| <= c.maxBytes
    requires accepted == if |chunk| > c.maxBytes - |received| then chunk[..c.maxBytes - |received|] else chunk
    ensures Productive(Scalars())
    ensures Decoding(c, received + chunk) == Feed(Scalars(), Decoding(c, received), accepted)
  {
    ScalarsAreStable();
    DrainJoin(Scalars(), received, accepted);
    assert if |received + chunk| <= c.maxBytes then received + chunk == received + accepted
           else (received + chunk)[..c.maxBytes] == received + accepted;
  }
}
