/**
 * The Codex usage parser, which is pushed the response piece by piece. What it reports is a
 * function of the bytes received, whatever pieces they came in.
 */
module CodexParser {
  import opened ByteStrings
  import opened CodexUsage
  import opened Incremental
  import opened Options
  import opened Utf8
  import R = CodexReport

  class CodexUsageParser {
    const c: Config

    var mode: Option<Format>
    /** The decoder: bytes of an unfinished code point, and whether it has delivered anything. */
    var pending: Bytes
    var started: bool
    var account: Account
    var bytesSeen: nat
    var eventsSeen: nat
    var autoProbe: Text
    var jsonText: Text
    var sseLine: Text
    var dataParts: seq<Text>
    var eventBytes: nat
    var eventOversized: bool
    var invalid: bool
    var truncated: bool
    var limitExceeded: bool
    var finished: bool

    ghost var received: Bytes
    ghost var payloads: seq<Text>

    ghost function EventNow(): Assembly
      reads this
    {
      Assembly(dataParts, eventBytes, eventOversized, eventsSeen, limitExceeded, payloads)
    }

    ghost function ReadingNow(): Reading
      reads this
    {
      Reading(mode, autoProbe, jsonText, sseLine, EventNow())
    }

    /** The parser has read this text and holds these bytes. */
    ghost predicate Tracks(text: Text, rest: Bytes)
      reads this
    {
      var r := Read(c, text);
      && account == Accounted(c, payloads)
      && payloads == r.assembly.payloads && limitExceeded == r.assembly.limit
      && truncated == (!limitExceeded && |received| > c.maxBytes)
      && (!limitExceeded ==> ReadingNow() == r && pending == rest)
    }

    ghost predicate Valid()
      reads this
    {
      var d := Decoding(c, received);
      && (d.bad ==> invalid || limitExceeded) && (invalid ==> d.bad)
      && (!d.bad ==> Tracks(StripMark(d.items), d.rest) && (!limitExceeded ==> started == (d.items != [])))
      && (!invalid && !limitExceeded && !truncated ==> bytesSeen == |received| <= c.maxBytes)
    }

    constructor (c: Config)
      ensures this.c == c && Valid() && !finished && received == []
    {
      this.c := c;
      mode := if c.format.Auto? then None else Some(c.format);
      pending, started, account, bytesSeen, eventsSeen := [], false, NO_ACCOUNT, 0, 0;
      autoProbe, jsonText, sseLine, dataParts, eventBytes, eventOversized := [], [], [], [], 0, false;
      invalid, truncated, limitExceeded, finished := false, false, false, false;
      received, payloads := [], [];
      new;
      EmptyReading(c);
    }

    method DispatchSseEvent()
      requires account == Accounted(c, payloads)
      modifies this`dataParts, this`eventBytes, this`eventOversized, this`eventsSeen, this`limitExceeded, this`account,
               this`payloads
      ensures EventNow() == Dispatch(c, old(EventNow())) && account == Accounted(c, payloads)
    {
      if eventOversized {
        eventOversized, eventBytes, dataParts := false, 0, [];
        eventsSeen := eventsSeen + 1;
        return;
      }
      if |dataParts| == 0 {
        return;
      }
      var payload := Join(dataParts);
      dataParts, eventBytes := [], 0;
      eventsSeen := eventsSeen + 1;
      if eventsSeen > c.maxEvents {
        limitExceeded := true;
        return;
      }
      if payload == DONE {
        return;
      }
      account := Consume(account, c.parseEvent(payload));
      assert (payloads + [payload])[..|payloads|] == payloads;
      payloads := payloads + [payload];
    }

    method ReadLine(rawLine: Text)
      requires account == Accounted(c, payloads)
      modifies this`dataParts, this`eventBytes, this`eventOversized, this`eventsSeen, this`limitExceeded, this`account,
               this`payloads
      ensures EventNow() == TakeLine(c, old(EventNow()), rawLine) && account == Accounted(c, payloads)
    {
      var line := Trimmed(rawLine);
      if line == [] {
        DispatchSseEvent();
        return;
      }
      var value := DataValue(line);
      if value.None? {
        return;
      }
      eventBytes := eventBytes + |Units(value.value)| + 1;
      if eventBytes > c.maxEventBytes {
        eventOversized, dataParts := true, [];
        return;
      }
      dataParts := dataParts + [value.value];
    }

    method FeedSse(text: Text)
      requires account == Accounted(c, payloads)
      modifies this`sseLine, this`dataParts, this`eventBytes, this`eventOversized, this`eventsSeen, this`limitExceeded,
               this`account, this`payloads
      ensures Productive(Lines())
      ensures var d := Drain(Lines(), old(sseLine) + text);
        sseLine == d.rest && EventNow() == TakeLines(c, old(EventNow()), d.items)
      ensures account == Accounted(c, payloads)
    {
      hide TakeLine;
      hide Accounted;
      hide Productive;
      hide Stable;
      LinesAreStable();
      sseLine := sseLine + text;
      ghost var all := Drain(Lines(), sseLine);
      ghost var end := TakeLines(c, EventNow(), all.items);
      var index := IndexOf(sseLine, LF);
      while index < |sseLine|
        invariant account == Accounted(c, payloads) && index == IndexOf(sseLine, LF)
        invariant Drain(Lines(), sseLine).rest == all.rest
        invariant TakeLines(c, EventNow(), Drain(Lines(), sseLine).items) == end
        decreases |sseLine|
      {
        var rawLine := sseLine[..index];
        assert Lines()(sseLine) == Item(index + 1, rawLine);
        sseLine := sseLine[index + 1..];
        ReadLine(rawLine);
        index := IndexOf(sseLine, LF);
      }
      assert Lines()(sseLine).More?;
    }

    /** Keeps the text until it shows the format, and then reads all of it. */
    method ProbeText(text: Text, ghost before: Text)
      requires account == Accounted(c, payloads) && ReadingNow() == Read(c, before) && mode.None?
      modifies this`mode, this`autoProbe, this`jsonText, this`sseLine, this`dataParts, this`eventBytes,
               this`eventOversized, this`eventsSeen, this`limitExceeded, this`account, this`payloads
      ensures ReadingNow() == Read(c, before + text) && account == Accounted(c, payloads)
    {
      hide TakeLines;
      hide Accounted;
      hide Productive;
      hide Stable;
      hide Dispatch;
      hide ProbeMode;
      hide Prefix;
      hide Drain;
      hide Read;
      LinesAreStable();
      ReadUndecided(c, before);
      autoProbe := autoProbe + text;
      var found := ProbeMode(Prefix(autoProbe, AUTO_DETECT_CHARS));
      assert autoProbe == before + text && Decide(c, before + text) == found;
      ReadWhole(c, autoProbe);
      hide Decide;
      if found.None? {
        return;
      }
      mode := found;
      var all := autoProbe;
      autoProbe := [];
      assert sseLine + all == all && jsonText + all == all;
      if found.value.Json? {
        jsonText := jsonText + all;
      } else {
        FeedSse(all);
      }
    }

    method FeedText(text: Text, ghost before: Text)
      requires account == Accounted(c, payloads) && ReadingNow() == Read(c, before)
      modifies this`mode, this`autoProbe, this`jsonText, this`sseLine, this`dataParts, this`eventBytes,
               this`eventOversized, this`eventsSeen, this`limitExceeded, this`account, this`payloads
      ensures ReadingNow() == Read(c, before + text) && account == Accounted(c, payloads)
    {
      hide TakeLines;
      hide Accounted;
      hide Productive;
      hide Stable;
      hide Decide;
      if |text| == 0 {
        assert before + text == before;
        return;
      }
      LinesAreStable();
      if mode.None? {
        ProbeText(text, before);
        return;
      }
      DecisionStays(c, before, text);
      if mode.value.Json? {
        jsonText := jsonText + text;
      } else {
        ReadSseOn(c, before, text);
        FeedSse(text);
      }
    }

    /** Once the parser has stopped, more bytes change nothing. */
    ghost method IgnoreChunk(chunk: Bytes)
      requires Valid() && (invalid || truncated || limitExceeded)
      modifies this`received
      ensures Valid() && received == old(received) + chunk
    {
      hide Read;
      hide Decoding;
      hide Accounted;
      var d, d' := Decoding(c, received), Decoding(c, received + chunk);
      DecodingGrows(c, received, chunk);
      if limitExceeded && !d'.bad {
        var text := StripMark(d.items);
        LimitStays(c, text, StripMark(d'.items)[|text|..]);
        assert text + StripMark(d'.items)[|text|..] == StripMark(d'.items);
      }
      received := received + chunk;
    }

    /** What the decoder makes of the next bytes; nothing if they cannot be UTF-8. */
    method DecodeChunk(accepted: Bytes, ghost chunk: Bytes) returns (text: Option<Text>)
      requires |received| <= c.maxBytes && !Decoding(c, received).bad
      requires accepted == if |chunk| > c.maxBytes - |received| then chunk[..c.maxBytes - |received|] else chunk
      requires pending == Decoding(c, received).rest && started == (Decoding(c, received).items != [])
      modifies this`pending, this`started
      ensures var d, d' := Decoding(c, received), Decoding(c, received + chunk);
        if d'.bad then text.None?
        else
          && text.Some? && StripMark(d'.items) == StripMark(d.items) + text.value
          && pending == d'.rest && started == (d'.items != [])
    {
      hide Decoding;
      hide Drain;
      hide StripMark;
      DecodingOn(c, received, chunk, accepted);
      ScalarsAreStable();
      var d := Drain(Scalars(), pending + accepted);
      MarkStrippedOnce(Decoding(c, received).items, d.items);
      if d.bad {
        return None;
      }
      text := Some(if started then d.items else StripMark(d.items));
      started := started || d.items != [];
      pending := d.rest;
    }

    /** Bytes after the first `maxBytes` are not read; a byte that cannot be UTF-8 ends the reading. */
    method Push(chunk: Bytes)
      requires Valid() && !finished
      modifies this
      ensures Valid() && !finished && received == old(received) + chunk
    {
      hide Read;
      hide Decoding;
      hide Accounted;
      hide Drain;
      hide StripMark;
      hide Productive;
      hide Stable;
      if invalid || truncated || limitExceeded {
        IgnoreChunk(chunk);
        return;
      }
      if |chunk| == 0 {
        assert received + chunk == received;
        return;
      }
      var remaining := c.maxBytes - bytesSeen;
      if remaining <= 0 {
        DecodingGrows(c, received, chunk);
        received := received + chunk;
        truncated := true;
        return;
      }
      var accepted := if |chunk| > remaining then chunk[..remaining] else chunk;
      ReadChunk(accepted, chunk);
    }

    /** Decodes and reads the accepted part of a chunk. */
    method ReadChunk(accepted: Bytes, chunk: Bytes)
      requires Valid() && !finished && !invalid && !truncated && !limitExceeded
      requires accepted == if |chunk| > c.maxBytes - bytesSeen then chunk[..c.maxBytes - bytesSeen] else chunk
      modifies this
      ensures Valid() && !finished && received == old(received) + chunk
    {
      hide Read;
      hide Decoding;
      hide Accounted;
      hide Drain;
      hide StripMark;
      hide Productive;
      hide Stable;
      ghost var d, d' := Decoding(c, received), Decoding(c, received + chunk);
      ghost var before := StripMark(d.items);
      assert Tracks(before, d.rest) && account == Accounted(c, payloads) && ReadingNow() == Read(c, before)
        && pending == d.rest;
      hide Tracks;
      assert !d.bad && started == (d.items != []) && bytesSeen == |received| <= c.maxBytes;
      hide Valid;
      bytesSeen := bytesSeen + |accepted|;
      var text := DecodeChunk(accepted, chunk);
      received := received + chunk;
      if text.None? {
        invalid := true;
        ValidBad();
        return;
      }
      ReadText(text.value, |accepted| < |chunk|, before);
    }

    /** Reads what a chunk decoded to, and notes whether the chunk was cut. */
    method ReadText(text: Text, cut: bool, ghost before: Text)
      requires !finished && !invalid && !truncated && account == Accounted(c, payloads)
        && ReadingNow() == Read(c, before)
      requires var d := Decoding(c, received);
        !d.bad && StripMark(d.items) == before + text && pending == d.rest && started == (d.items != [])
      requires cut == (|received| > c.maxBytes) && (!cut ==> bytesSeen == |received|)
      modifies this
      ensures Valid() && !finished && received == old(received)
    {
      hide Read;
      hide Decoding;
      hide Accounted;
      hide StripMark;
      FeedText(text, before);
      if cut && !limitExceeded {
        truncated := true;
      }
      ValidNow();
    }

    lemma ValidBad()
      requires invalid && Decoding(c, received).bad
      ensures Valid()
    {
    }

    lemma ValidNow()
      requires !invalid && account == Accounted(c, payloads) && truncated == (!limitExceeded && |received| > c.maxBytes)
      requires !limitExceeded && !truncated ==> bytesSeen == |received| <= c.maxBytes
      requires var d := Decoding(c, received);
        && !d.bad && ReadingNow() == Read(c, StripMark(d.items)) && pending == d.rest && started == (d.items != [])
      ensures Valid()
    {
    }

    method FinishSse()
      requires account == Accounted(c, payloads)
      modifies this`sseLine, this`dataParts, this`eventBytes, this`eventOversized, this`eventsSeen, this`limitExceeded,
               this`account, this`payloads
      ensures EventNow() == Flush(c, old(ReadingNow())) && account == Accounted(c, payloads)
    {
      if |sseLine| > 0 {
        ReadLine(sseLine);
        sseLine := [];
      }
      DispatchSseEvent();
    }

    /** The last report, which further pushes no longer change. */
    method Finish(cut: bool) returns (s: Snapshot)
      requires Valid() && !finished
      modifies this
      ensures finished
      ensures !Decoding(c, old(received)).bad ==>
        && R.Tells(s, R.Usages(R.Events(c, old(received), cut)))
        && R.EndedAs(c, old(received), cut, s.parseState)
      ensures !Decoding(c, old(received)).bad ==> s == Report(c, old(received), cut)
      ensures Decoding(c, old(received)).bad ==> s.parseState.Invalid? || s.parseState.LimitExceeded?
    {
      R.ReportExactly(c, received, cut);
      hide R.Tells;
      hide R.EndedAs;
      hide R.Events;
      hide R.Usages;
      hide TakeLines;
      hide Decoding;
      hide Decide;
      hide Drain;
      if cut && !invalid && !limitExceeded {
        truncated := true;
      }
      if !invalid && !truncated && !limitExceeded {
        if pending != [] {
          invalid := true;
        } else if mode == Some(Json) {
          var text := TrimEnd(TrimStart(jsonText));
          if text != [] {
            match c.parseBody(text)
            case Unparsable => invalid := true;
            case NoRecord =>
            case Record(_, usage) => account := Consume(account, Record(true, usage));
          }
        } else {
          FinishSse();
        }
      }
      finished := true;
      var parseState :=
        if invalid then Invalid
        else if limitExceeded then LimitExceeded
        else if truncated then Truncated
        else if account.sawTerminal then Complete
        else Partial;
      s := SnapshotOf(account, parseState);
    }
  }

  /** The report on a response, which does not depend on the pieces it came in. */
  method ParseResponse(c: Config, chunks: seq<Bytes>, cut: bool) returns (s: Snapshot)
    ensures !Decoding(c, Concat(chunks)).bad ==>
      && R.Tells(s, R.Usages(R.Events(c, Concat(chunks), cut)))
      && R.EndedAs(c, Concat(chunks), cut, s.parseState)
    ensures !Decoding(c, Concat(chunks)).bad ==> s == Report(c, Concat(chunks), cut)
    ensures Decoding(c, Concat(chunks)).bad ==> s.parseState.Invalid? || s.parseState.LimitExceeded?
  {
    var parser := new CodexUsageParser(c);
    for i := 0 to |chunks|
      invariant fresh(parser) && parser.c == c && parser.Valid() && !parser.finished
      invariant parser.received == Concat(chunks[..i])
    {
      assert chunks[..i + 1][..i] == chunks[..i];
      parser.Push(chunks[i]);
    }
    assert chunks[..|chunks|] == chunks;
    hide R.Tells;
    hide R.EndedAs;
    hide Report;
    s := parser.Finish(cut);
  }
}
