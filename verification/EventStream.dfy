/**
 * Bedrock's event-stream framing: length-prefixed frames with typed headers, of which only the
 * chunk events matter. CRCs are carried and not checked.
 */
module EventStream {
  import opened ByteStrings
  import opened Incremental
  import opened Options

  const PRELUDE_BYTES: nat := 12
  const MIN_FRAME_BYTES: nat := 16
  const MAX_FRAME_BYTES: nat := 16 * 1024 * 1024

  const MESSAGE_TYPE: Bytes := [58, 109, 101, 115, 115, 97, 103, 101, 45, 116, 121, 112, 101]
  const EVENT_TYPE: Bytes := [58, 101, 118, 101, 110, 116, 45, 116, 121, 112, 101]
  const EVENT: Bytes := [101, 118, 101, 110, 116]
  const CHUNK: Bytes := [99, 104, 117, 110, 107]

  type Headers = map<Bytes, Bytes>

  /** What JSON and base64 make of a payload. */
  datatype Decoded = Malformed | Nothing | Text(text: string)

  type Decode = Bytes -> Decoded

  function U16(b: Bytes): nat
    requires |b| >= 2
  {
    b[0] as nat * 256 + b[1]
  }

  function U32(b: Bytes): nat
    requires |b| >= 4
  {
    ((b[0] as nat * 256 + b[1]) * 256 + b[2]) * 256 + b[3]
  }

  /** `toString` and `subarray` stop at the end of the buffer. */
  function Clip(b: Bytes, from: nat, to: nat): Bytes
    requires from <= to
  {
    var end := if to < |b| then to else |b|;
    if from < end then b[from..end] else []
  }

  function FixedSize(kind: Byte): Option<nat> {
    match kind
    case 0 => Some(0)
    case 1 => Some(0)
    case 2 => Some(1)
    case 3 => Some(2)
    case 4 => Some(4)
    case 5 => Some(8)
    case 8 => Some(8)
    case 9 => Some(16)
    case _ => None
  }

  /** One header from `offset` on: where the next one starts, and the string it holds. */
  datatype HeaderStep = Unreadable | Skip(next: nat) | Named(next: nat, name: Bytes, value: Bytes)

  function ReadHeader(b: Bytes, offset: nat): (r: HeaderStep)
    requires offset < |b|
    ensures !r.Unreadable? ==> offset < r.next
  {
    var at := offset + 1 + b[offset];
    if at >= |b| then Unreadable
    else if b[at] == 6 || b[at] == 7 then
      if at + 3 > |b| then Unreadable
      else
        var next := at + 3 + U16(b[at + 1..at + 3]);
        if b[at] == 7 then Named(next, Clip(b, offset + 1, at), Clip(b, at + 3, next)) else Skip(next)
    else if FixedSize(b[at]).Some? then Skip(at + 1 + FixedSize(b[at]).value)
    else Unreadable
  }

  /** The string-valued headers from `offset` on; a later one of the same name wins. */
  function HeadersFrom(b: Bytes, offset: nat, headers: Headers): Option<Headers>
    decreases |b| - offset
  {
    if offset >= |b| then Some(headers)
    else
      match ReadHeader(b, offset)
      case Unreadable => None
      case Skip(next) => HeadersFrom(b, next, headers)
      case Named(next, name, value) => HeadersFrom(b, next, headers[name := value])
  }

  lemma HeadersStep(b: Bytes, offset: nat, headers: Headers)
    requires offset < |b|
    ensures ReadHeader(b, offset).Unreadable? ==> HeadersFrom(b, offset, headers) == None
    ensures ReadHeader(b, offset).Skip? ==>
      HeadersFrom(b, offset, headers) == HeadersFrom(b, ReadHeader(b, offset).next, headers)
    ensures ReadHeader(b, offset).Named? ==>
      var h := ReadHeader(b, offset);
      HeadersFrom(b, offset, headers) == HeadersFrom(b, h.next, headers[h.name := h.value])
  {
    hide ReadHeader;
  }

  method EventStreamHeaders(buffer: Bytes) returns (r: Option<Headers>)
    ensures r == HeadersFrom(buffer, 0, map[])
  {
    hide HeadersFrom;
    hide Clip;
    hide U16;
    hide FixedSize;
    var headers: Headers := map[];
    var offset := 0;
    while offset < |buffer|
      invariant HeadersFrom(buffer, offset, headers) == HeadersFrom(buffer, 0, map[])
      decreases |buffer| - offset
    {
      HeadersStep(buffer, offset, headers);
      var nameLength := buffer[offset];
      var at := offset + 1 + nameLength;
      var name := Clip(buffer, offset + 1, at);
      if at >= |buffer| {
        return None;
      }
      var kind := buffer[at];
      if kind == 6 || kind == 7 {
        if at + 3 > |buffer| {
          return None;
        }
        var length := U16(buffer[at + 1..at + 3]);
        if kind == 7 {
          headers := headers[name := Clip(buffer, at + 3, at + 3 + length)];
        }
        offset := at + 3 + length;
      } else {
        var size := FixedSize(kind);
        if size.None? {
          return None;
        }
        offset := at + 1 + size.value;
      }
    }
    HeadersEnd(buffer, offset, headers);
    return Some(headers);
  }

  lemma HeadersEnd(b: Bytes, offset: nat, headers: Headers)
    requires offset >= |b|
    ensures HeadersFrom(b, offset, headers) == Some(headers)
  {
  }

  predicate IsChunk(headers: Headers) {
    && MESSAGE_TYPE in headers && headers[MESSAGE_TYPE] == EVENT
    && EVENT_TYPE in headers && headers[EVENT_TYPE] == CHUNK
  }

  /** `replace(/\r?\n/g, ' ')` */
  function OneLine(text: string): (line: string)
    ensures '\n' !in line
  {
    if text == [] then []
    else if |text| >= 2 && text[0] == '\r' && text[1] == '\n' then [' '] + OneLine(text[2..])
    else if text[0] == '\n' then [' '] + OneLine(text[1..])
    else [text[0]] + OneLine(text[1..])
  }

  /** What holds no line end stays, whatever follows it. */
  lemma {:induction false} OneLineOver(line: string, more: string)
    requires '\n' !in line && (line == "" || line[|line| - 1] != '\r' || more == "" || more[0] != '\n')
    ensures OneLine(line + more) == line + OneLine(more)
  {
    if line == "" {
      assert line + more == more && line + OneLine(more) == OneLine(more);
    } else {
      var tail := line[1..];
      OneLineOver(tail, more);
      assert (line + more)[0] == line[0] && (line + more)[1..] == tail + more;
      assert line + OneLine(more) == [line[0]] + (tail + OneLine(more));
    }
  }

  /** Each line end becomes one space, and what is between line ends stays. */
  lemma OneLineExactly(line: string, rest: string)
    requires '\n' !in line
    ensures OneLine(line) == line
    ensures OneLine(line + ("\r\n" + rest)) == line + (" " + OneLine(rest))
    ensures line == "" || line[|line| - 1] != '\r' ==> OneLine(line + ("\n" + rest)) == line + (" " + OneLine(rest))
  {
    OneLineOver(line, "");
    assert line + "" == line;
    OneLineOver(line, "\r\n" + rest);
    assert ("\r\n" + rest)[2..] == rest;
    if line == "" || line[|line| - 1] != '\r' {
      OneLineOver(line, "\n" + rest);
      assert ("\n" + rest)[1..] == rest;
    }
  }

  /** What one whole frame hands on: nothing readable, no event, or the line of one event. */
  function FrameLines(frame: Bytes, headersLength: nat, decode: Decode): Option<seq<string>>
    requires headersLength + MIN_FRAME_BYTES <= |frame|
  {
    var headers := HeadersFrom(frame[PRELUDE_BYTES..PRELUDE_BYTES + headersLength], 0, map[]);
    if headers.None? then None
    else if !IsChunk(headers.value) then Some([])
    else
      match decode(frame[PRELUDE_BYTES + headersLength..|frame| - 4])
      case Malformed => None
      case Nothing => Some([])
      case Text(text) => Some([OneLine(text)])
  }

  /** One frame at the front of the buffer. */
  function NextFrame(decode: Decode, b: Bytes): Step<seq<string>> {
    if |b| < PRELUDE_BYTES then More
    else
      var total, headersLength := U32(b), U32(b[4..]);
      if total < MIN_FRAME_BYTES || total > MAX_FRAME_BYTES || headersLength > total - MIN_FRAME_BYTES then Bad
      else if |b| < total then More
      else
        var lines := FrameLines(b[..total], headersLength, decode);
        if lines.None? then Bad else Item(total, lines.value)
  }

  function Reader(decode: Decode): Bytes -> Step<seq<string>> {
    b => NextFrame(decode, b)
  }

  lemma ReaderIsStable(decode: Decode)
    ensures Productive(Reader(decode)) && Stable(Reader(decode)) && Reader(decode)([]).More?
  {
    hide FrameLines;
    hide U32;
    forall a: Bytes, b: Bytes | !NextFrame(decode, a).More?
      ensures NextFrame(decode, a + b) == NextFrame(decode, a)
    {
      NextFrameStable(decode, a, b);
    }
  }

  lemma NextFrameStable(decode: Decode, a: Bytes, b: Bytes)
    requires !NextFrame(decode, a).More?
    ensures NextFrame(decode, a + b) == NextFrame(decode, a)
  {
    hide FrameLines;
    assert U32(a + b) == U32(a) && U32((a + b)[4..]) == U32(a[4..]);
    hide U32;
    if U32(a) <= |a| {
      assert (a + b)[..U32(a)] == a[..U32(a)];
    }
  }

  /**
   * A frame is refused as soon as its prelude shows that it cannot be one, and read as soon as all
   * of it is there; the numbers are big endian.
   */
  lemma FrameDecisions(decode: Decode, b: Bytes)
    ensures |b| < 12 ==> NextFrame(decode, b).More?
    ensures |b| >= 12 ==>
      var total := b[0] as nat * 0x100_0000 + b[1] as nat * 0x1_0000 + b[2] as nat * 0x100 + b[3];
      var headers := b[4] as nat * 0x100_0000 + b[5] as nat * 0x1_0000 + b[6] as nat * 0x100 + b[7];
      if 16 <= total <= 0x100_0000 && headers + 16 <= total then
        && (|b| < total <==> NextFrame(decode, b).More?)
        && (NextFrame(decode, b).Item? ==> NextFrame(decode, b).size == total)
      else NextFrame(decode, b).Bad?
  {
    hide FrameLines;
  }

  lemma ShortBufferWaits(decode: Decode, b: Bytes)
    ensures |b| < PRELUDE_BYTES ==> NextFrame(decode, b).More?
  {
  }

  class BedrockParser {
    const decode: Decode
    /** The event lines handed to the inner parser. */
    var inner: seq<string>
    var pending: Bytes
    var invalid: bool

    constructor (decode: Decode)
      ensures this.decode == decode && inner == [] && pending == [] && !invalid
    {
      this.decode := decode;
      inner, pending, invalid := [], [], false;
    }

    method MarkInvalid()
      modifies this`invalid, this`pending
      ensures invalid && pending == []
    {
      invalid, pending := true, [];
    }

    /** `false` stands for the exceptions. */
    method Frame(frame: Bytes, headersLength: nat) returns (ok: bool)
      requires headersLength + MIN_FRAME_BYTES <= |frame|
      modifies this`inner
      ensures var lines := FrameLines(frame, headersLength, decode);
        ok == lines.Some? && inner == old(inner) + (if ok then lines.value else [])
    {
      var headers := EventStreamHeaders(frame[PRELUDE_BYTES..PRELUDE_BYTES + headersLength]);
      if headers.None? {
        return false;
      }
      if !IsChunk(headers.value) {
        return true;
      }
      match decode(frame[PRELUDE_BYTES + headersLength..|frame| - 4])
      case Malformed => ok := false;
      case Nothing => ok := true;
      case Text(text) =>
        inner := inner + [OneLine(text)];
        ok := true;
    }

    /** Takes one frame from the buffer: `more` as long as there may be another. */
    method TakeFrame() returns (more: bool)
      requires |pending| >= PRELUDE_BYTES && !invalid
      modifies this
      ensures
        match NextFrame(decode, old(pending))
        case More => !more && inner == old(inner) && pending == old(pending) && !invalid
        case Bad => !more && inner == old(inner) && pending == [] && invalid
        case Item(size, lines) =>
          && more && 0 < size <= |old(pending)| && !invalid
          && inner == old(inner) + lines && pending == old(pending)[size..]
    {
      hide FrameLines;
      hide U32;
      var total, headersLength := U32(pending), U32(pending[4..]);
      if total < MIN_FRAME_BYTES || total > MAX_FRAME_BYTES || headersLength > total - MIN_FRAME_BYTES {
        MarkInvalid();
        return false;
      }
      if |pending| < total {
        return false;
      }
      var frame := pending[..total];
      pending := pending[total..];
      more := Frame(frame, headersLength);
      if !more {
        MarkInvalid();
      }
    }

    /** The buffered bytes and the chunk are read as far as they go. */
    method Push(chunk: Bytes)
      modifies this
      ensures Productive(Reader(decode))
      ensures old(invalid) ==> inner == old(inner) && pending == old(pending) && invalid
      ensures !old(invalid) ==>
        var d := Drain(Reader(decode), old(pending) + chunk);
        inner == old(inner) + Flat(d.items) && pending == d.rest && invalid == d.bad
    {
      hide NextFrame;
      hide Productive;
      hide Stable;
      hide Flat;
      ReaderIsStable(decode);
      if invalid {
        return;
      }
      pending := pending + chunk;
      ghost var all := Drain(Reader(decode), pending);
      ghost var read: seq<seq<string>> := [];
      FlatNil<string>();
      var more := true;
      while more && |pending| >= PRELUDE_BYTES
        invariant inner == old(inner) + Flat(read)
        invariant invalid ==> !more && pending == [] && all == Drained(read, [], true)
        invariant !invalid ==>
          var d := Drain(Reader(decode), pending);
          all == Drained(read + d.items, d.rest, d.bad)
        invariant !invalid && !more ==> NextFrame(decode, pending).More?
        decreases |pending|, more
      {
        ghost var step := NextFrame(decode, pending);
        ghost var d := Drain(Reader(decode), pending);
        assert step == Reader(decode)(pending);
        more := TakeFrame();
        if step.Item? {
          FlatSnoc(read, step.item);
          AppendAssociates(read, [step.item], Drain(Reader(decode), pending).items);
          read := read + [step.item];
        }
      }
      ShortBufferWaits(decode, pending);
      assert !invalid ==> Reader(decode)(pending).More?;
      assert read + [] == read;
    }

    /** What the inner parser is told at the end. */
    function Truncated(truncated: bool): (cut: bool)
      reads this
      ensures !cut <==> !truncated && !invalid && pending == []
    {
      truncated || invalid || |pending| > 0
    }
  }

  lemma FlatNil<B>()
    ensures Flat<B>([]) == []
  {
  }

  lemma {:induction false} FlatSnoc<B>(parts: seq<seq<B>>, last: seq<B>)
    ensures Flat(parts + [last]) == Flat(parts) + last
  {
    if parts == [] {
      assert parts + [last] == [last] && [last][1..] == [];
    } else {
      FlatSnoc(parts[1..], last);
      assert (parts + [last])[1..] == parts[1..] + [last];
    }
  }

  // ----- Encoding -----

  datatype HeaderValue = Fixed(kind: Byte, bytes: Bytes) | Blob(bytes: Bytes) | Str(bytes: Bytes)

  datatype Header = Header(name: Bytes, value: HeaderValue)

  /** The two CRCs are whatever the sender computed. */
  datatype Message = Message(headers: seq<Header>, payload: Bytes, preludeCrc: Bytes, crc: Bytes)

  predicate ValidHeader(h: Header) {
    && |h.name| < 256
    && match h.value
       case Fixed(kind, bytes) =>
         (kind, |bytes|) in {(0, 0), (1, 0), (2, 1), (3, 2), (4, 4), (5, 8), (8, 8), (9, 16)}
       case Blob(bytes) => |bytes| < 65536
       case Str(bytes) => |bytes| < 65536
  }

  ghost predicate ValidHeaders(headers: seq<Header>) {
    forall i :: 0 <= i < |headers| ==> ValidHeader(headers[i])
  }

  function EncodeU16(n: nat): Bytes
    requires n < 65536
  {
    [n / 256, n % 256]
  }

  function EncodeU32(n: nat): (b: Bytes)
    requires n < 0x1_0000_0000
    ensures |b| == 4 && U32(b) == n
  {
    var a, b := n / 256, n / 256 / 256;
    [b / 256, b % 256, a % 256, n % 256]
  }

  function EncodeHeader(h: Header): Bytes
    requires ValidHeader(h)
  {
    [|h.name|] + h.name +
    match h.value
    case Fixed(kind, bytes) => [kind] + bytes
    case Blob(bytes) => [6] + EncodeU16(|bytes|) + bytes
    case Str(bytes) => [7] + EncodeU16(|bytes|) + bytes
  }

  function EncodeHeaders(headers: seq<Header>): Bytes
    requires ValidHeaders(headers)
  {
    if headers == [] then [] else EncodeHeader(headers[0]) + EncodeHeaders(headers[1..])
  }

  ghost predicate ValidMessage(m: Message) {
    && ValidHeaders(m.headers) && |m.preludeCrc| == 4 && |m.crc| == 4
    && |EncodeHeaders(m.headers)| + |m.payload| + MIN_FRAME_BYTES <= MAX_FRAME_BYTES
  }

  function Encode(m: Message): Bytes
    requires ValidMessage(m)
  {
    var headers := EncodeHeaders(m.headers);
    EncodeU32(|headers| + |m.payload| + MIN_FRAME_BYTES) + EncodeU32(|headers|) + m.preludeCrc + headers + m.payload
    + m.crc
  }

  /** The string headers of a message. */
  function StringHeaders(headers: seq<Header>, before: Headers): Headers {
    if headers == [] then before
    else
      var h := headers[0];
      StringHeaders(headers[1..], if h.value.Str? then before[h.name := h.value.bytes] else before)
  }

  function Ascii(s: string): Bytes {
    seq(|s|, i requires 0 <= i < |s| => s[i] as int % 256)
  }

  /** The last string header of this name has this value. */
  predicate Carries(headers: seq<Header>, name: Bytes, value: Bytes) {
    exists i :: 0 <= i < |headers| && headers[i] == Header(name, Str(value))
                && forall j :: i < j < |headers| ==> headers[j].name != name || !headers[j].value.Str?
  }

  lemma {:induction false} CarriesExactly(headers: seq<Header>, before: Headers, name: Bytes, value: Bytes)
    ensures var found := StringHeaders(headers, before);
      name in found && found[name] == value <==>
        || Carries(headers, name, value)
        || (name in before && before[name] == value
            && forall j :: 0 <= j < |headers| ==> headers[j].name != name || !headers[j].value.Str?)
  {
    if headers != [] {
      var h, rest := headers[0], headers[1..];
      var next := if h.value.Str? then before[h.name := h.value.bytes] else before;
      CarriesExactly(rest, next, name, value);
      assert forall j :: 0 <= j < |rest| ==> rest[j] == headers[j + 1];
      if i :| 0 <= i < |headers| && headers[i] == Header(name, Str(value))
              && forall j :: i < j < |headers| ==> headers[j].name != name || !headers[j].value.Str? {
        assert i > 0 ==> rest[i - 1] == headers[i];
      }
      if i :| 0 <= i < |rest| && rest[i] == Header(name, Str(value))
              && forall j :: i < j < |rest| ==> rest[j].name != name || !rest[j].value.Str? {
        assert headers[i + 1] == rest[i];
      }
    }
  }

  /** The message is an event, and its event a chunk. */
  predicate ChunkEvent(m: Message) {
    && Carries(m.headers, Ascii(":message-type"), Ascii("event"))
    && Carries(m.headers, Ascii(":event-type"), Ascii("chunk"))
  }

  lemma ChunkExactly(m: Message)
    ensures IsChunk(StringHeaders(m.headers, map[])) <==> ChunkEvent(m)
  {
    CarriesExactly(m.headers, map[], MESSAGE_TYPE, EVENT);
    CarriesExactly(m.headers, map[], EVENT_TYPE, CHUNK);
    NamesInAscii();
    hide Carries;
    hide StringHeaders;
    hide Ascii;
  }

  lemma NamesInAscii()
    ensures MESSAGE_TYPE == Ascii(":message-type") && EVENT == Ascii("event")
    ensures EVENT_TYPE == Ascii(":event-type") && CHUNK == Ascii("chunk")
  {
  }

  /** The event line a message carries, when its payload can be read. */
  function MessageLines(m: Message, decode: Decode): Option<seq<string>> {
    if !ChunkEvent(m) then Some([])
    else
      match decode(m.payload)
      case Malformed => None
      case Nothing => Some([])
      case Text(text) => Some([OneLine(text)])
  }

  lemma HeaderReadsBack(before: Bytes, h: Header, after: Bytes)
    requires ValidHeader(h)
    ensures
      var next := |before| + |EncodeHeader(h)|;
      ReadHeader(before + EncodeHeader(h) + after, |before|) ==
        if h.value.Str? then Named(next, h.name, h.value.bytes) else Skip(next)
  {
    var b := before + EncodeHeader(h) + after;
    var at := |before| + 1 + |h.name|;
    assert b[|before|] == |h.name|;
    assert b[|before| + 1..at] == h.name;
    if !h.value.Fixed? {
      var n := |h.value.bytes|;
      assert b[at + 1..at + 3] == EncodeU16(n);
      assert b[at + 3..at + 3 + n] == h.value.bytes;
    }
  }

  lemma {:induction false} HeadersReadBack(before: Bytes, headers: seq<Header>, found: Headers)
    requires ValidHeaders(headers)
    ensures HeadersFrom(before + EncodeHeaders(headers), |before|, found) == Some(StringHeaders(headers, found))
    decreases |headers|
  {
    hide ReadHeader;
    hide EncodeHeader;
    if headers != [] {
      var h, rest := headers[0], headers[1..];
      HeaderReadsBack(before, h, EncodeHeaders(rest));
      var next := before + EncodeHeader(h);
      assert before + EncodeHeaders(headers) == next + EncodeHeaders(rest);
      HeadersReadBack(next, rest, if h.value.Str? then found[h.name := h.value.bytes] else found);
    }
  }

  /** Where the parts of an encoded message are. */
  lemma FrameLayout(m: Message, after: Bytes)
    requires ValidMessage(m)
    ensures var headers, b := EncodeHeaders(m.headers), Encode(m) + after;
      var total := |headers| + |m.payload| + MIN_FRAME_BYTES;
      && |Encode(m)| == total && U32(b) == total && U32(b[4..]) == |headers| && b[..total] == Encode(m)
      && Encode(m)[PRELUDE_BYTES..PRELUDE_BYTES + |headers|] == headers
      && Encode(m)[PRELUDE_BYTES + |headers|..total - 4] == m.payload
  {
    hide EncodeHeaders;
    var headers, b := EncodeHeaders(m.headers), Encode(m) + after;
    assert b[..4] == EncodeU32(|headers| + |m.payload| + MIN_FRAME_BYTES) && b[4..8] == EncodeU32(|headers|);
  }

  lemma FrameReadsBack(decode: Decode, m: Message, after: Bytes)
    requires ValidMessage(m)
    ensures NextFrame(decode, Encode(m) + after) ==
      var lines := MessageLines(m, decode); if lines.None? then Bad else Item(|Encode(m)|, lines.value)
  {
    hide HeadersFrom;
    hide EncodeHeaders;
    FrameLayout(m, after);
    hide Encode;
    hide U32;
    HeadersReadBack([], m.headers, map[]);
    ChunkExactly(m);
    hide ChunkEvent;
    hide StringHeaders;
    assert [] + EncodeHeaders(m.headers) == EncodeHeaders(m.headers);
  }

  function Encodings(ms: seq<Message>): seq<Bytes>
    requires forall i :: 0 <= i < |ms| ==> ValidMessage(ms[i])
  {
    seq(|ms|, i requires 0 <= i < |ms| => Encode(ms[i]))
  }

  function Lines(ms: seq<Message>, decode: Decode): seq<seq<string>>
    requires forall i :: 0 <= i < |ms| ==> MessageLines(ms[i], decode).Some?
  {
    seq(|ms|, i requires 0 <= i < |ms| => MessageLines(ms[i], decode).value)
  }

  /** Encoding any valid messages and pushing them in any split recovers the chunk payloads in order. */
  lemma AnySplitReadsBack(decode: Decode, ms: seq<Message>, chunks: seq<Bytes>)
    requires forall i :: 0 <= i < |ms| ==> ValidMessage(ms[i]) && MessageLines(ms[i], decode).Some?
    requires Concat(chunks) == Flat(Encodings(ms))
    ensures Productive(Reader(decode))
    ensures FeedAll(Reader(decode), chunks) == Drained(Lines(ms, decode), [], false)
  {
    hide Productive;
    hide Stable;
    hide Drain;
    hide Flat;
    hide NextFrame;
    hide ValidMessage;
    hide MessageLines;
    hide Encode;
    ReaderIsStable(decode);
    AnySplit(Reader(decode), chunks);
    forall i, rest: Bytes | 0 <= i < |ms|
      ensures Reader(decode)(Encodings(ms)[i] + rest) == Item(|Encodings(ms)[i]|, Lines(ms, decode)[i])
    {
      FrameReadsBack(decode, ms[i], rest);
    }
    DrainEncoded(Reader(decode), Encodings(ms), Lines(ms, decode));
  }

  // ----- Whole runs of the parser -----

  /** Pushes a stream in the given pieces. */
  method PushAll(parser: BedrockParser, chunks: seq<Bytes>)
    requires parser.inner == [] && parser.pending == [] && !parser.invalid
    modifies parser
    ensures Productive(Reader(parser.decode))
    ensures var d := Drain(Reader(parser.decode), Concat(chunks));
      && parser.inner == Flat(d.items) && parser.pending == d.rest && parser.invalid == d.bad
      && (parser.Truncated(false) <==> d.bad || d.rest != [])
  {
    hide NextFrame;
    hide Drain;
    hide Productive;
    hide Stable;
    hide Flat;
    ReaderIsStable(parser.decode);
    AnySplit(Reader(parser.decode), chunks);
    FlatNil<string>();
    for i := 0 to |chunks|
      invariant var d := FeedAll(Reader(parser.decode), chunks[..i]);
        parser.inner == Flat(d.items) && parser.pending == d.rest && parser.invalid == d.bad
    {
      ghost var d := FeedAll(Reader(parser.decode), chunks[..i]);
      assert chunks[..i + 1][..i] == chunks[..i];
      FlatJoin(d.items, Drain(Reader(parser.decode), d.rest + chunks[i]).items);
      parser.Push(chunks[i]);
    }
    assert chunks[..|chunks|] == chunks;
  }

  lemma {:induction false} FlatJoin<B>(a: seq<seq<B>>, b: seq<seq<B>>)
    ensures Flat(a + b) == Flat(a) + Flat(b)
  {
    if a == [] {
      assert a + b == b;
    } else {
      FlatJoin(a[1..], b);
      assert (a + b)[0] == a[0] && (a + b)[1..] == a[1..] + b;
      AppendAssociates(a[0], Flat(a[1..]), Flat(b));
    }
  }
}
