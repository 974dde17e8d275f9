/**
 * What the usage parser reports, in terms of the usage records of the response: each count by
 * itself, the state of the usage, and how the response ended.
 */
module CodexReport {
  import opened ByteStrings
  import opened CodexUsage
  import opened Incremental
  import opened Options
  import opened Utf8

  // ----- The counts of one record -----

  datatype Column = Input | CacheWrite | CacheRead | Output

  /** The cached tokens of a record, by the flat field or else by the nested one. */
  function CachedTokens(raw: RawUsage): nat {
    match raw.readFlat
    case Some(n) => n
    case None => match raw.readNested { case Some(n) => n case None => 0 }
  }

  /** The tokens written to the cache, likewise. */
  function WrittenTokens(raw: RawUsage): nat {
    match raw.writeFlat
    case Some(n) => n
    case None => match raw.writeNested { case Some(n) => n case None => 0 }
  }

  /** The record has this column, and this is its count. */
  predicate Says(raw: RawUsage, column: Column, n: nat) {
    match column
    case Input =>
      && raw.input.Some?
      && if raw.input.value >= CachedTokens(raw) + WrittenTokens(raw)
         then n + CachedTokens(raw) + WrittenTokens(raw) == raw.input.value
         else n == 0
    case CacheWrite => raw.writeFlat == Some(n) || (raw.writeFlat.None? && raw.writeNested == Some(n))
    case CacheRead => raw.readFlat == Some(n) || (raw.readFlat.None? && raw.readNested == Some(n))
    case Output => raw.output == Some(n)
  }

  /** The record has some count. */
  ghost predicate Counts(raw: RawUsage) {
    exists column: Column, n: nat :: Says(raw, column, n)
  }

  /** The totals of the record do not add up. */
  predicate Disagrees(raw: RawUsage) {
    && raw.total.Some? && raw.input.Some? && raw.output.Some?
    && raw.total.value != raw.input.value + raw.output.value
  }

  function Field(u: Usage, column: Column): Option<nat> {
    match column
    case Input => u.input
    case CacheWrite => u.write
    case CacheRead => u.read
    case Output => u.output
  }

  /** What a record is reported as, column by column. */
  lemma EachCount(raw: RawUsage, column: Column, n: nat)
    ensures var u := NormalizeCodexUsage(raw); Says(raw, column, n) <==> u.Some? && Field(u.value, column) == Some(n)
  {
  }

  // ----- The records of a response -----

  /** The usage records of the events, in order. */
  function Usages(events: seq<Parsed>): seq<RawUsage> {
    if events == [] then []
    else
      var e := events[|events| - 1];
      Usages(events[..|events| - 1]) + (if e.Record? && e.usage.Some? then [e.usage.value] else [])
  }

  /** The count of the last record that has the column. */
  ghost predicate LastSaid(records: seq<RawUsage>, column: Column, reported: Option<nat>) {
    match reported
    case None => forall i, n: nat :: 0 <= i < |records| ==> !Says(records[i], column, n)
    case Some(n) =>
      exists i :: 0 <= i < |records| && Says(records[i], column, n)
                  && forall j, m: nat :: i < j < |records| ==> !Says(records[j], column, m)
  }

  predicate EndsTurn(e: Parsed) {
    e.Record? && e.terminal
  }

  ghost predicate SomeCounts(records: seq<RawUsage>) {
    exists raw :: raw in records && Counts(raw)
  }

  ghost predicate SomeDisagrees(records: seq<RawUsage>) {
    exists raw :: raw in records && Disagrees(raw)
  }

  ghost predicate SomeEndsTurn(events: seq<Parsed>) {
    exists e :: e in events && EndsTurn(e)
  }

  /** What an account of these records says. */
  ghost predicate SaysAll(a: Account, records: seq<RawUsage>) {
    && (forall column: Column :: LastSaid(records, column, Field(a.usage, column)))
    && a.sawUsage == SomeCounts(records) && a.inconsistent == SomeDisagrees(records)
  }

  /** What an account of these events says. */
  ghost predicate AccountsFor(a: Account, events: seq<Parsed>) {
    SaysAll(a, Usages(events)) && a.sawTerminal == SomeEndsTurn(events)
  }

  lemma LastSaidOn(records: seq<RawUsage>, raw: RawUsage, column: Column, before: Option<nat>, after: Option<nat>)
    requires LastSaid(records, column, before)
    requires forall n: nat :: Says(raw, column, n) ==> after == Some(n)
    requires (forall n: nat :: !Says(raw, column, n)) ==> after == before
    ensures LastSaid(records + [raw], column, after)
  {
    hide Says;
    var all := records + [raw];
    if n: nat :| Says(raw, column, n) {
      assert Says(all[|records|], column, n);
    } else if before.Some? {
      var i :| 0 <= i < |records| && Says(records[i], column, before.value)
               && forall j, m: nat :: i < j < |records| ==> !Says(records[j], column, m);
      assert Says(all[i], column, before.value);
      forall j, m: nat | i < j < |all|
        ensures !Says(all[j], column, m)
      {
        assert j < |records| ==> all[j] == records[j];
      }
    } else {
      forall i, n: nat | 0 <= i < |all|
        ensures !Says(all[i], column, n)
      {
        assert i < |records| ==> all[i] == records[i];
      }
    }
  }

  lemma UsagesOn(events: seq<Parsed>, e: Parsed)
    ensures Usages(events + [e]) == Usages(events) + (if e.Record? && e.usage.Some? then [e.usage.value] else [])
  {
    assert (events + [e])[..|events|] == events;
  }

  /** What one more record does to the account. */
  lemma AppliedExactly(a: Account, raw: RawUsage, column: Column)
    ensures var b := ApplyUsage(a, raw);
      && (forall n: nat :: Says(raw, column, n) ==> Field(b.usage, column) == Some(n))
      && ((forall n: nat :: !Says(raw, column, n)) ==> Field(b.usage, column) == Field(a.usage, column))
      && b.sawUsage == (a.sawUsage || Counts(raw)) && b.inconsistent == (a.inconsistent || Disagrees(raw))
      && b.sawTerminal == a.sawTerminal
  {
    var n := NormalizeCodexUsage(raw);
    forall c: Column, m: nat
      ensures Says(raw, c, m) <==> n.Some? && Field(n.value, c) == Some(m)
    {
      EachCount(raw, c, m);
    }
    if n.Some? {
      var c := if n.value.input.Some? then Input else if n.value.write.Some? then CacheWrite
               else if n.value.read.Some? then CacheRead else Output;
      assert Says(raw, c, Field(n.value, c).value);
    }
    hide Says;
  }

  lemma SomeOn(records: seq<RawUsage>, raw: RawUsage)
    ensures SomeCounts(records + [raw]) == (SomeCounts(records) || Counts(raw))
    ensures SomeDisagrees(records + [raw]) == (SomeDisagrees(records) || Disagrees(raw))
  {
    hide Counts;
    hide Disagrees;
    assert forall r: RawUsage :: r in records + [raw] <==> r in records || r == raw;
  }

  lemma EndsOn(events: seq<Parsed>, e: Parsed)
    ensures SomeEndsTurn(events + [e]) == (SomeEndsTurn(events) || EndsTurn(e))
  {
    assert forall p: Parsed :: p in events + [e] <==> p in events || p == e;
  }

  lemma AppliedOn(a: Account, records: seq<RawUsage>, raw: RawUsage)
    requires SaysAll(a, records)
    ensures SaysAll(ApplyUsage(a, raw), records + [raw]) && ApplyUsage(a, raw).sawTerminal == a.sawTerminal
  {
    var b := ApplyUsage(a, raw);
    SomeOn(records, raw);
    AppliedExactly(a, raw, Input);
    hide ApplyUsage;
    hide SomeCounts;
    hide SomeDisagrees;
    forall column: Column
      ensures LastSaid(records + [raw], column, Field(b.usage, column))
    {
      AppliedExactly(a, raw, column);
      LastSaidOn(records, raw, column, Field(a.usage, column), Field(b.usage, column));
    }
    hide LastSaid;
    hide Says;
    hide Field;
  }

  lemma ConsumedOn(a: Account, events: seq<Parsed>, e: Parsed)
    requires AccountsFor(a, events)
    ensures AccountsFor(Consume(a, e), events + [e])
  {
    UsagesOn(events, e);
    EndsOn(events, e);
    if e.Record? && e.usage.Some? {
      AppliedOn(a, Usages(events), e.usage.value);
    } else {
      assert Usages(events) + [] == Usages(events);
    }
    hide ApplyUsage;
    hide LastSaid;
    hide Usages;
    hide SomeEndsTurn;
    hide SomeCounts;
    hide SomeDisagrees;
  }

  lemma NothingAccounted()
    ensures AccountsFor(NO_ACCOUNT, [])
  {
  }

  // ----- The format -----

  /** The first 256 characters show it: JSON begins with a brace or a bracket after white space. */
  lemma FormatExactly(c: Config, text: Text)
    ensures var shown := if |text| < AUTO_DETECT_CHARS then |text| else AUTO_DETECT_CHARS;
      && (!c.format.Auto? ==> Decide(c, text) == Some(c.format))
      && (c.format.Auto? ==>
            && (Decide(c, text).None? <==> forall i :: 0 <= i < shown ==> IsSpace(text[i]))
            && (Decide(c, text) == Some(Json) <==>
                  exists i :: 0 <= i < shown && text[i] in {123, 91} && forall j :: 0 <= j < i ==> IsSpace(text[j])))
  {
    var n := SpacesBefore(Prefix(text, AUTO_DETECT_CHARS));
  }

  lemma {:induction false} SpacesBefore(text: Text) returns (n: nat)
    ensures n <= |text| && TrimStart(text) == text[n..] && forall j :: 0 <= j < n ==> IsSpace(text[j])
    ensures n < |text| ==> !IsSpace(text[n])
  {
    n := 0;
    if text != [] && IsSpace(text[0]) {
      var m := SpacesBefore(text[1..]);
      n := m + 1;
    }
  }

  // ----- The report -----

  /** The events that are accounted for; without the end of the response, only those that were complete. */
  ghost function Events(c: Config, received: Bytes, cut: bool): seq<Parsed> {
    var r := Whole(c, received);
    if r.assembly.limit || Unended(c, received, cut) then Parse(c, r.assembly.payloads)
    else if r.mode == Some(Json) then
      var text := TrimEnd(TrimStart(r.json));
      if text == [] then [] else [c.parseBody(text)]
    else Parse(c, Flush(c, r).payloads)
  }

  ghost function Whole(c: Config, received: Bytes): Reading {
    Read(c, StripMark(Decoding(c, received).items))
  }

  /** Not everything was received, or it breaks off within a code point. */
  ghost predicate Unended(c: Config, received: Bytes, cut: bool) {
    cut || |received| > c.maxBytes || Decoding(c, received).rest != []
  }

  function Parse(c: Config, payloads: seq<Text>): (events: seq<Parsed>)
    ensures |events| == |payloads| && forall i :: 0 <= i < |payloads| ==> events[i] == c.parseEvent(payloads[i])
  {
    seq(|payloads|, i requires 0 <= i < |payloads| => c.parseEvent(payloads[i]))
  }

  /** How the response ended. */
  ghost predicate EndedAs(c: Config, received: Bytes, cut: bool, state: ParseState) {
    var r, events := Whole(c, received), Events(c, received, cut);
    if r.assembly.limit then state == LimitExceeded
    else if cut || |received| > c.maxBytes then state == Truncated
    else if Decoding(c, received).rest != [] then state == Invalid
    else if r.mode == Some(Json) then
      if events == [] || events[0].NoRecord? then state == Partial
      else state == if events[0].Unparsable? then Invalid else Complete
    else if Flush(c, r).limit then state == LimitExceeded
    else state == if SomeEndsTurn(events) then Complete else Partial
  }

  /** The report says the counts of the last record that has them, and how far they can be trusted. */
  ghost predicate Tells(s: Snapshot, records: seq<RawUsage>) {
    && (forall column: Column :: LastSaid(records, column, Field(s.usage, column)))
    && (s.usageState == UsageUnavailable <==> !SomeCounts(records))
    && (s.usageState == UsageComplete <==>
          && s.parseState == Complete && s.usage.input.Some? && s.usage.output.Some?
          && !SomeDisagrees(records))
  }

  lemma {:induction false} AccountedFor(c: Config, payloads: seq<Text>)
    ensures AccountsFor(Accounted(c, payloads), Parse(c, payloads))
  {
    if payloads != [] {
      var last := |payloads| - 1;
      AccountedFor(c, payloads[..last]);
      assert Parse(c, payloads) == Parse(c, payloads[..last]) + [c.parseEvent(payloads[last])];
      ConsumedOn(Accounted(c, payloads[..last]), Parse(c, payloads[..last]), c.parseEvent(payloads[last]));
      hide Consume;
      hide AccountsFor;
    }
  }

  lemma SnapshotTells(a: Account, events: seq<Parsed>, state: ParseState)
    requires AccountsFor(a, events)
    ensures Tells(SnapshotOf(a, state), Usages(events)) && SnapshotOf(a, state).parseState == state
  {
    hide Says;
    hide Disagrees;
    assert Field(a.usage, Input) == a.usage.input;
    if a.usage.input.Some? {
      assert LastSaid(Usages(events), Input, a.usage.input);
      var i :| 0 <= i < |Usages(events)| && Says(Usages(events)[i], Input, a.usage.input.value);
      assert Counts(Usages(events)[i]);
    }
  }

  lemma UsagesOne(e: Parsed)
    ensures Usages([e]) == if e.Record? && e.usage.Some? then [e.usage.value] else []
  {
    assert [e][..0] == [];
  }

  lemma BodyAccounted(e: Parsed, a: Account, state: ParseState)
    requires a == if e.Record? then Consume(NO_ACCOUNT, Record(true, e.usage)) else NO_ACCOUNT
    ensures Tells(SnapshotOf(a, state), Usages([e])) && SnapshotOf(a, state).parseState == state
  {
    NothingAccounted();
    UsagesOne(e);
    if e.Record? {
      var body := Record(true, e.usage);
      UsagesOne(body);
      ConsumedOn(NO_ACCOUNT, [], body);
      assert [] + [body] == [body];
      hide Consume;
      hide AccountsFor;
      hide Tells;
      hide SnapshotOf;
      SnapshotTells(a, [body], state);
    } else {
      hide AccountsFor;
      hide Tells;
      hide SnapshotOf;
      SnapshotTells(a, [], state);
      assert Usages([]) == [];
    }
  }

  lemma UndecidedFlush(c: Config, text: Text)
    requires Read(c, text).mode.None?
    ensures !Flush(c, Read(c, text)).limit
  {
    ReadUndecided(c, text);
  }

  /** The report on every response, count by count. */
  lemma ReportExactly(c: Config, received: Bytes, cut: bool)
    ensures var s := Report(c, received, cut);
      && Tells(s, Usages(Events(c, received, cut))) && EndedAs(c, received, cut, s.parseState)
  {
    if Whole(c, received).mode.None? {
      UndecidedFlush(c, StripMark(Decoding(c, received).items));
    }
    hide Decoding;
    hide Read;
    hide Flush;
    hide Tells;
    hide AccountsFor;
    hide Accounted;
    var r := Whole(c, received);
    var s := Report(c, received, cut);
    if r.assembly.limit || Unended(c, received, cut) {
      AccountedFor(c, r.assembly.payloads);
      SnapshotTells(Accounted(c, r.assembly.payloads), Parse(c, r.assembly.payloads), s.parseState);
    } else if r.mode == Some(Json) {
      var text := TrimEnd(TrimStart(r.json));
      if text == [] {
        NothingAccounted();
        SnapshotTells(NO_ACCOUNT, [], s.parseState);
      } else {
        var e := c.parseBody(text);
        BodyAccounted(e, if e.Record? then Consume(NO_ACCOUNT, Record(true, e.usage)) else NO_ACCOUNT, s.parseState);
      }
    } else {
      AccountedFor(c, Flush(c, r).payloads);
      SnapshotTells(Accounted(c, Flush(c, r).payloads), Parse(c, Flush(c, r).payloads), s.parseState);
    }
  }
}
