/**
 * Assembling the visible text of a Codex response from its part events, within a byte limit and
 * a limit on parts. Texts are JavaScript strings, which may hold unpaired surrogates.
 */
module ResponseContent {
  import opened Options
  import opened Utf8

  type Text = seq<Unit>

  /** `Buffer.byteLength(text, 'utf8')`: an unpaired surrogate counts as the replacement character. */
  function ByteLength(s: Text): nat {
    if s == [] then 0
    else if IsHigh(s[0]) && |s| > 1 && IsLow(s[1]) then 4 + ByteLength(s[2..])
    else (if s[0] < 0x80 then 1 else if s[0] < 0x800 then 2 else 3) + ByteLength(s[1..])
  }

  /** The first text ends with one half of a surrogate pair and the second begins with the other. */
  predicate SplitsPair(a: Text, b: Text) {
    a != [] && b != [] && IsHigh(a[|a| - 1]) && IsLow(b[0])
  }

  /** Joining two texts saves the two bytes of a pair they split, and nothing else. */
  lemma {:induction false} ByteLengthJoin(a: Text, b: Text)
    ensures ByteLength(a + b) + (if SplitsPair(a, b) then 2 else 0) == ByteLength(a) + ByteLength(b)
    decreases |a|
  {
    if a == [] {
      assert a + b == b;
    } else if |a| == 1 {
      assert a + b == [a[0]] + b && (a + b)[1..] == b && a[1..] == [];
      if SplitsPair(a, b) {
        assert (a + b)[2..] == b[1..];
      }
    } else {
      var n := if IsHigh(a[0]) && IsLow(a[1]) then 2 else 1;
      assert (a + b)[0] == a[0] && (a + b)[1] == a[1] && (a + b)[n..] == a[n..] + b;
      ByteLengthJoin(a[n..], b);
      if n == 2 && |a| == 2 {
        assert a[n..] == [] && a[n..] + b == b;
      }
    }
  }

  /** Of a well-formed text it is the length of its UTF-8 encoding. */
  lemma {:induction false} ByteLengthIsUtf8(cs: seq<Scalar>)
    ensures ByteLength(Units(cs)) == |Encode(cs)|
  {
    if cs != [] {
      var s, n := Units(cs), |UnitsOf(cs[0])|;
      ByteLengthIsUtf8(cs[1..]);
      assert s[n..] == Units(cs[1..]);
    }
  }

  // ----- The assembled reply -----

  datatype Part = Part(text: Text, done: bool)

  datatype Event = Delta(key: string, text: Text) | Done(key: string, text: Text) | Terminal | Other

  datatype Limits = Limits(maxBytes: nat, maxParts: nat)

  datatype Reply = Reply(parts: map<string, Part>, order: seq<string>, textBytes: int, sawTerminal: bool,
      truncated: bool)

  const NO_REPLY: Reply := Reply(map[], [], 0, false, false)

  /** The part of a key, if there is one or room for one. */
  function Slotted(l: Limits, r: Reply, key: string): Option<Reply> {
    if key in r.parts then Some(r)
    else if |r.parts| >= l.maxParts then None
    else Some(r.(parts := r.parts[key := Part([], false)], order := r.order + [key]))
  }

  function Appended(l: Limits, r: Reply, key: string, text: Text): Reply {
    if text == [] then r
    else
      match Slotted(l, r, key)
      case None => r
      case Some(s) =>
        var part := s.parts[key];
        if part.done then s
        else if s.textBytes + ByteLength(text) > l.maxBytes then s.(truncated := true)
        else s.(parts := s.parts[key := part.(text := part.text + text)], textBytes := s.textBytes + ByteLength(text))
  }

  function SettledWith(l: Limits, r: Reply, key: string, text: Text): Reply {
    match Slotted(l, r, key)
    case None => r
    case Some(s) =>
      var part := s.parts[key];
      var bytes := s.textBytes - ByteLength(part.text) + ByteLength(text);
      if bytes > l.maxBytes then s.(parts := s.parts[key := part.(done := true)], truncated := true)
      else s.(parts := s.parts[key := Part(text, true)], textBytes := bytes)
  }

  function Consumed(l: Limits, r: Reply, e: Event): Reply {
    match e
    case Delta(key, text) => Appended(l, r, key, text)
    case Done(key, text) => SettledWith(l, r, key, text)
    case Terminal => r.(sawTerminal := true)
    case Other => r
  }

  function Assembled(l: Limits, es: seq<Event>): Reply {
    if es == [] then NO_REPLY else Consumed(l, Assembled(l, es[..|es| - 1]), es[|es| - 1])
  }

  function TextIn(parts: map<string, Part>, order: seq<string>): Text {
    if order == [] then []
    else
      var key := order[|order| - 1];
      TextIn(parts, order[..|order| - 1]) + if key in parts then parts[key].text else []
  }

  class Assembler {
    const limits: Limits
    var parts: map<string, Part>
    var order: seq<string>
    var textBytes: int
    var sawTerminal: bool
    var truncated: bool

    predicate Holds(r: Reply)
      reads this
    {
      && parts == r.parts && order == r.order && textBytes == r.textBytes
      && sawTerminal == r.sawTerminal && truncated == r.truncated
    }

    constructor (limits: Limits)
      ensures this.limits == limits && Holds(NO_REPLY)
    {
      this.limits := limits;
      parts, order, textBytes, sawTerminal, truncated := map[], [], 0, false, false;
    }

    method Slot(key: string, ghost before: Reply) returns (ok: bool)
      requires Holds(before)
      modifies this`parts, this`order
      ensures var s := Slotted(limits, before, key); ok == s.Some? && Holds(if ok then s.value else before)
    {
      if key !in parts {
        if |parts| >= limits.maxParts {
          return false;
        }
        parts := parts[key := Part([], false)];
        order := order + [key];
      }
      return true;
    }

    method Append(key: string, text: Text, ghost before: Reply)
      requires Holds(before)
      modifies this`parts, this`order, this`textBytes, this`truncated
      ensures Holds(Appended(limits, before, key, text))
    {
      if |text| == 0 {
        return;
      }
      var ok := Slot(key, before);
      if !ok || parts[key].done {
        return;
      }
      var bytes := ByteLength(text);
      if textBytes + bytes > limits.maxBytes {
        truncated := true;
        return;
      }
      parts := parts[key := parts[key].(text := parts[key].text + text)];
      textBytes := textBytes + bytes;
    }

    method Settle(key: string, text: Text, ghost before: Reply)
      requires Holds(before)
      modifies this`parts, this`order, this`textBytes, this`truncated
      ensures Holds(SettledWith(limits, before, key, text))
    {
      var ok := Slot(key, before);
      if !ok {
        return;
      }
      var bytes := ByteLength(text);
      var previous := ByteLength(parts[key].text);
      if textBytes - previous + bytes > limits.maxBytes {
        truncated := true;
        parts := parts[key := parts[key].(done := true)];
        return;
      }
      textBytes := textBytes - previous + bytes;
      parts := parts[key := Part(text, true)];
    }

    method Consume(e: Event, ghost es: seq<Event>)
      requires Holds(Assembled(limits, es))
      modifies this`parts, this`order, this`textBytes, this`truncated, this`sawTerminal
      ensures Holds(Assembled(limits, es + [e]))
    {
      assert (es + [e])[..|es|] == es;
      match e
      case Delta(key, text) => Append(key, text, Assembled(limits, es));
      case Done(key, text) => Settle(key, text, Assembled(limits, es));
      case Terminal => sawTerminal := true;
      case Other =>
    }

    function Text(): Text
      reads this
    {
      TextIn(parts, order)
    }
  }

  // ----- What the counter counts -----

  function PartBytes(parts: map<string, Part>, key: string): nat {
    if key in parts then ByteLength(parts[key].text) else 0
  }

  function SumBytes(parts: map<string, Part>, order: seq<string>): nat {
    if order == [] then 0
    else SumBytes(parts, order[..|order| - 1]) + PartBytes(parts, order[|order| - 1])
  }

  /** The parts are exactly those in order, each once, and there are not too many. */
  ghost predicate InOrder(parts: map<string, Part>, order: seq<string>, l: Limits) {
    && (forall key :: key in parts <==> key in order)
    && (forall i, j :: 0 <= i < j < |order| ==> order[i] != order[j])
    && |parts| == |order| <= l.maxParts
  }

  /** A delta that is appended and completes a surrogate pair. */
  predicate Joins(l: Limits, r: Reply, e: Event) {
    && e.Delta? && e.key in r.parts && !r.parts[e.key].done && SplitsPair(r.parts[e.key].text, e.text)
    && r.textBytes + ByteLength(e.text) <= l.maxBytes
  }

  function JoinCount(l: Limits, es: seq<Event>): nat {
    if es == [] then 0
    else
      var init, last := es[..|es| - 1], es[|es| - 1];
      JoinCount(l, init) + if Joins(l, Assembled(l, init), last) then 1 else 0
  }

  /** Changing one part changes the sum by as much. */
  lemma {:induction false} SumUpdate(parts: map<string, Part>, order: seq<string>, key: string, part: Part)
    requires forall i, j :: 0 <= i < j < |order| ==> order[i] != order[j]
    ensures key !in order ==> SumBytes(parts[key := part], order) == SumBytes(parts, order)
    ensures key in order ==>
      SumBytes(parts[key := part], order) + PartBytes(parts, key) == SumBytes(parts, order) + ByteLength(part.text)
  {
    if order != [] {
      var init, last := order[..|order| - 1], order[|order| - 1];
      assert order == init + [last];
      assert forall i :: 0 <= i < |init| ==> init[i] == order[i];
      SumUpdate(parts, init, key, part);
    }
  }

  /** A part gets another text or is settled. */
  lemma PartUpdates(l: Limits, r: Reply, key: string, part: Part)
    requires InOrder(r.parts, r.order, l) && key in r.parts
    ensures var parts := r.parts[key := part];
      && InOrder(parts, r.order, l)
      && SumBytes(parts, r.order) == SumBytes(r.parts, r.order) - ByteLength(r.parts[key].text) + ByteLength(part.text)
  {
    hide ByteLength;
    SumUpdate(r.parts, r.order, key, part);
    assert r.parts[key := part].Keys == r.parts.Keys;
  }

  lemma EmptyPart()
    ensures ByteLength([]) == 0
  {
  }

  lemma SlotKeeps(l: Limits, r: Reply, key: string)
    requires InOrder(r.parts, r.order, l)
    ensures var s := Slotted(l, r, key); s.Some? ==>
      && InOrder(s.value.parts, s.value.order, l) && key in s.value.parts
      && s.value.textBytes == r.textBytes && SumBytes(s.value.parts, s.value.order) == SumBytes(r.parts, r.order)
  {
    hide InOrder;
    hide SumBytes;
    if key !in r.parts && |r.parts| < l.maxParts {
      NewPart(l, r.parts, r.order, key);
    }
  }

  lemma NewPart(l: Limits, parts: map<string, Part>, order: seq<string>, key: string)
    requires InOrder(parts, order, l) && key !in parts && |parts| < l.maxParts
    ensures var parts' := parts[key := Part([], false)];
      InOrder(parts', order + [key], l) && SumBytes(parts', order + [key]) == SumBytes(parts, order)
  {
    hide ByteLength;
    var parts' := parts[key := Part([], false)];
    SumUpdate(parts, order, key, Part([], false));
    assert (order + [key])[..|order|] == order;
    EmptyPart();
    NewKey(parts, order, key);
  }

  lemma NewKey(parts: map<string, Part>, order: seq<string>, key: string)
    requires key !in parts && forall k :: k in parts <==> k in order
    ensures var parts' := parts[key := Part([], false)];
      |parts'| == |parts| + 1 && forall k :: k in parts' <==> k in order + [key]
  {
    assert parts[key := Part([], false)].Keys == parts.Keys + {key};
  }

  lemma DeltaCounts(l: Limits, r: Reply, e: Event)
    requires InOrder(r.parts, r.order, l) && r.textBytes <= l.maxBytes && e.Delta?
    ensures var after := Consumed(l, r, e);
      && InOrder(after.parts, after.order, l) && after.textBytes <= l.maxBytes
      && after.textBytes - SumBytes(after.parts, after.order)
         == r.textBytes - SumBytes(r.parts, r.order) + if Joins(l, r, e) then 2 else 0
  {
    hide ByteLength;
    hide InOrder;
    hide SumBytes;
    SlotKeeps(l, r, e.key);
    var slot := Slotted(l, r, e.key);
    if e.text != [] && slot.Some? {
      var s := slot.value;
      var part := s.parts[e.key];
      ByteLengthJoin(part.text, e.text);
      PartUpdates(l, s, e.key, part.(text := part.text + e.text));
    }
  }

  lemma DoneCounts(l: Limits, r: Reply, e: Event)
    requires InOrder(r.parts, r.order, l) && r.textBytes <= l.maxBytes && e.Done?
    ensures var after := Consumed(l, r, e);
      && InOrder(after.parts, after.order, l) && after.textBytes <= l.maxBytes
      && after.textBytes - SumBytes(after.parts, after.order) == r.textBytes - SumBytes(r.parts, r.order)
  {
    hide ByteLength;
    hide InOrder;
    hide SumBytes;
    SlotKeeps(l, r, e.key);
    var slot := Slotted(l, r, e.key);
    if slot.Some? {
      var s := slot.value;
      PartUpdates(l, s, e.key, s.parts[e.key].(done := true));
      PartUpdates(l, s, e.key, Part(e.text, true));
    }
  }

  lemma EventCounts(l: Limits, r: Reply, e: Event)
    requires InOrder(r.parts, r.order, l) && r.textBytes <= l.maxBytes
    ensures var after := Consumed(l, r, e);
      && InOrder(after.parts, after.order, l) && after.textBytes <= l.maxBytes
      && after.textBytes - SumBytes(after.parts, after.order)
         == r.textBytes - SumBytes(r.parts, r.order) + if Joins(l, r, e) then 2 else 0
  {
    match e
    case Delta(_, _) => DeltaCounts(l, r, e);
    case Done(_, _) => DoneCounts(l, r, e);
    case _ =>
  }

  /**
   * In every run the byte counter is the size of the parts, plus two for each surrogate pair that
   * was completed by a later delta, and the parts stay within the limit always.
   */
  lemma {:induction false} CounterExactly(l: Limits, es: seq<Event>)
    ensures var r := Assembled(l, es);
      && InOrder(r.parts, r.order, l) && r.textBytes == SumBytes(r.parts, r.order) + 2 * JoinCount(l, es) <= l.maxBytes
  {
    if es != [] {
      var init, last := es[..|es| - 1], es[|es| - 1];
      CounterExactly(l, init);
      EventCounts(l, Assembled(l, init), last);
    }
  }

  /** So it is exact where every delta is well formed: none completes the pair of another. */
  lemma {:induction false} WellFormedCountsExactly(l: Limits, es: seq<Event>)
    requires forall i :: 0 <= i < |es| && es[i].Delta? ==> CodePoints(es[i].text).Some?
    ensures JoinCount(l, es) == 0
    ensures var r := Assembled(l, es); r.textBytes == SumBytes(r.parts, r.order)
  {
    hide Assembled;
    CounterExactly(l, es);
    if es != [] {
      assert es[|es| - 1].Delta? ==> CodePoints(es[|es| - 1].text).Some?;
      WellFormedCountsExactly(l, es[..|es| - 1]);
    }
  }

  /** A pair in two deltas is four bytes of text and counts as six. */
  lemma SplitPairCountsSix(l: Limits, key: string, high: Unit, low: Unit)
    requires IsHigh(high) && IsLow(low) && l.maxBytes >= 6 && l.maxParts > 0
    ensures var r := Assembled(l, [Delta(key, [high]), Delta(key, [low])]);
      r.textBytes == 6 && SumBytes(r.parts, r.order) == 4
  {
    var first: Text, second: Text := [high], [low];
    var one := [Delta(key, first)];
    var es := one + [Delta(key, second)];
    assert es == [Delta(key, first), Delta(key, second)] && es[..1] == one && one[..0] == [];
    assert first[1..] == [] && second[1..] == [] && [] + first == first;
    assert ByteLength(first) == 3 && ByteLength(second) == 3;
    assert Assembled(l, one[..0]) == NO_REPLY;
    var r := Assembled(l, one);
    assert r == Consumed(l, NO_REPLY, one[0]);
    assert r.parts[key] == Part(first, false) && r.textBytes == 3;
    assert Joins(l, r, es[1]);
    assert JoinCount(l, one) == 0;
    CounterExactly(l, es);
  }

  // ----- What a part says -----

  /** The part that the events of one key amount to: deltas add up until a done event has the last word. */
  function PartOf(es: seq<Event>, key: string): Part {
    if es == [] then Part([], false)
    else
      var part, last := PartOf(es[..|es| - 1], key), es[|es| - 1];
      if last.Done? && last.key == key then Part(last.text, true)
      else if last.Delta? && last.key == key && !part.done then part.(text := part.text + last.text)
      else part
  }

  /** Parts stay, and a cut is remembered. */
  lemma EventKeeps(l: Limits, r: Reply, e: Event, key: string)
    ensures var after := Consumed(l, r, e);
      && |r.parts| <= |after.parts| && (key in r.parts ==> key in after.parts) && (r.truncated ==> after.truncated)
      && (key !in after.parts && |r.parts| < l.maxParts ==>
        !(e.Done? && e.key == key) && !(e.Delta? && e.key == key && e.text != []))
  {
    hide ByteLength;
  }

  lemma {:induction false} UntouchedPart(l: Limits, es: seq<Event>, key: string)
    requires key !in Assembled(l, es).parts && |Assembled(l, es).parts| < l.maxParts
    ensures PartOf(es, key) == Part([], false)
  {
    hide Consumed;
    if es != [] {
      var init := es[..|es| - 1];
      EventKeeps(l, Assembled(l, init), es[|es| - 1], key);
      UntouchedPart(l, init, key);
    }
  }

  /** Unless something was cut, a part is what its events amount to, so a settled part ignores every delta. */
  lemma {:induction false} PartsAreExact(l: Limits, es: seq<Event>, key: string)
    requires key in Assembled(l, es).parts && !Assembled(l, es).truncated
    ensures Assembled(l, es).parts[key] == PartOf(es, key)
  {
    var init, last := es[..|es| - 1], es[|es| - 1];
    if key in Assembled(l, init).parts {
      PartsAreExact(l, init, key);
    } else {
      UntouchedPart(l, init, key);
    }
  }

  /** Once settled, a part changes only by another done event of its key. */
  lemma SettledIgnoresDeltas(l: Limits, r: Reply, e: Event, key: string)
    requires key in r.parts && r.parts[key].done && !(e.Done? && e.key == key)
    ensures key in Consumed(l, r, e).parts && Consumed(l, r, e).parts[key] == r.parts[key]
  {
  }

  // ----- The order of the parts, and the visible text -----

  /** The event opens the part of its key, if that is not there yet and there is room. */
  predicate OpensPart(e: Event, key: string) {
    (e.Done? && e.key == key) || (e.Delta? && e.key == key && e.text != [])
  }

  /** Where a key first appears, or behind the last event. */
  function FirstSeen(es: seq<Event>, key: string): (i: nat)
    ensures i <= |es| && (i < |es| ==> OpensPart(es[i], key)) && forall j :: 0 <= j < i ==> !OpensPart(es[j], key)
  {
    if es == [] then 0
    else
      var init := es[..|es| - 1];
      assert forall j :: 0 <= j < |init| ==> init[j] == es[j];
      if FirstSeen(init, key) < |init| || OpensPart(es[|es| - 1], key) then FirstSeen(init, key) else |es|
  }

  /** The parts are in the order in which their keys appeared; one that is missing appeared when there was no room. */
  ghost predicate AsTheyAppeared(l: Limits, es: seq<Event>, order: seq<string>) {
    && (forall i, j :: 0 <= i < j < |order| ==> FirstSeen(es, order[i]) < FirstSeen(es, order[j]))
    && (forall key :: key in order ==> FirstSeen(es, key) < |es|)
    && (forall key :: FirstSeen(es, key) < |es| && key !in order ==>
          |order| == l.maxParts && forall other :: other in order ==> FirstSeen(es, other) < FirstSeen(es, key))
  }

  lemma SeenOn(es: seq<Event>, e: Event, key: string)
    ensures FirstSeen(es + [e], key) ==
      if FirstSeen(es, key) < |es| || OpensPart(e, key) then FirstSeen(es, key) else |es| + 1
  {
    assert (es + [e])[..|es|] == es;
  }

  /** What one event does to the order. */
  lemma OrderOn(l: Limits, r: Reply, e: Event)
    requires InOrder(r.parts, r.order, l)
    ensures var after := Consumed(l, r, e).order;
      after == if (e.Delta? || e.Done?) && OpensPart(e, e.key) && e.key !in r.order && |r.order| < l.maxParts
               then r.order + [e.key] else r.order
  {
    hide ByteLength;
  }

  lemma AppearedOn(l: Limits, es: seq<Event>, e: Event, order: seq<string>, after: seq<string>)
    requires AsTheyAppeared(l, es, order) && |order| <= l.maxParts
    requires after == if (e.Delta? || e.Done?) && OpensPart(e, e.key) && e.key !in order && |order| < l.maxParts
                      then order + [e.key] else order
    ensures AsTheyAppeared(l, es + [e], after)
  {
    forall key: string
      ensures FirstSeen(es + [e], key) ==
        if FirstSeen(es, key) < |es| || OpensPart(e, key) then FirstSeen(es, key) else |es| + 1
      ensures FirstSeen(es, key) <= |es|
      ensures OpensPart(e, key) ==> (e.Delta? || e.Done?) && e.key == key
    {
      SeenOn(es, e, key);
    }
    hide FirstSeen;
    hide OpensPart;
    if after != order {
      assert forall key :: key in after <==> key in order || key == e.key;
    }
  }

  lemma NothingAppeared(l: Limits)
    ensures AsTheyAppeared(l, [], Assembled(l, []).order)
    ensures !Assembled(l, []).truncated && !Assembled(l, []).sawTerminal
  {
  }

  lemma AssembledOn(l: Limits, es: seq<Event>, e: Event)
    ensures Assembled(l, es + [e]) == Consumed(l, Assembled(l, es), e)
  {
    assert (es + [e])[..|es|] == es;
  }

  lemma OrderAppeared(l: Limits, es: seq<Event>, e: Event)
    requires AsTheyAppeared(l, es, Assembled(l, es).order)
    ensures AsTheyAppeared(l, es + [e], Assembled(l, es + [e]).order)
  {
    var r := Assembled(l, es);
    CounterExactly(l, es);
    OrderOn(l, r, e);
    AssembledOn(l, es, e);
    assert |r.order| <= l.maxParts;
    hide *;
    AppearedOn(l, es, e, r.order, Consumed(l, r, e).order);
  }

  lemma {:induction false} OrderOfAppearance(l: Limits, es: seq<Event>)
    ensures AsTheyAppeared(l, es, Assembled(l, es).order)
  {
    hide *;
    if es == [] {
      NothingAppeared(l);
    } else {
      var init, last := es[..|es| - 1], es[|es| - 1];
      OrderOfAppearance(l, init);
      OrderAppeared(l, init, last);
      assert es == init + [last];
    }
  }

  /** The text is the parts one behind the other: each stands where those before it end. */
  lemma {:induction false} TextSlices(parts: map<string, Part>, order: seq<string>, i: nat)
    requires i < |order| && order[i] in parts
    ensures var start, end := |TextIn(parts, order[..i])|, |TextIn(parts, order[..i + 1])|;
      && start <= end <= |TextIn(parts, order)| && TextIn(parts, order)[start..end] == parts[order[i]].text
      && (i == 0 ==> start == 0) && (i + 1 == |order| ==> end == |TextIn(parts, order)|)
  {
    var init := order[..|order| - 1];
    if i < |init| {
      TextSlices(parts, init, i);
      assert init[..i] == order[..i] && init[..i + 1] == order[..i + 1];
    } else {
      assert order[..i] == init && order[..i + 1] == order;
    }
  }

  // ----- What is cut -----

  /** The event does not fit: its part is open or has room to open, and the text would pass the limit. */
  predicate Overruns(l: Limits, r: Reply, e: Event) {
    match e
    case Delta(key, text) =>
      && text != [] && (if key in r.parts then !r.parts[key].done else |r.parts| < l.maxParts)
      && r.textBytes + ByteLength(text) > l.maxBytes
    case Done(key, text) =>
      && (key in r.parts || |r.parts| < l.maxParts)
      && r.textBytes + ByteLength(text) > l.maxBytes + PartBytes(r.parts, key)
    case _ => false
  }

  lemma EventCuts(l: Limits, r: Reply, e: Event)
    ensures Consumed(l, r, e).truncated == (r.truncated || Overruns(l, r, e))
    ensures Consumed(l, r, e).sawTerminal == (r.sawTerminal || e.Terminal?)
  {
    EmptyPart();
    hide ByteLength;
  }

  /** Some event did not fit when it came. */
  ghost predicate SomeOverran(l: Limits, es: seq<Event>) {
    exists i :: 0 <= i < |es| && Overruns(l, Assembled(l, es[..i]), es[i])
  }

  lemma OverranOn(l: Limits, es: seq<Event>, e: Event)
    ensures SomeOverran(l, es + [e]) == (SomeOverran(l, es) || Overruns(l, Assembled(l, es), e))
  {
    hide Overruns;
    hide Assembled;
    var all := es + [e];
    assert all[..|es|] == es && all[|es|] == e;
    assert forall i :: 0 <= i < |es| ==> all[..i] == es[..i] && all[i] == es[i];
    if i :| 0 <= i < |es| && Overruns(l, Assembled(l, es[..i]), es[i]) {
      assert Overruns(l, Assembled(l, all[..i]), all[i]);
    }
    if i :| 0 <= i < |all| && Overruns(l, Assembled(l, all[..i]), all[i]) {
      if i < |es| {
        assert Overruns(l, Assembled(l, es[..i]), es[i]);
      }
    }
  }

  /** The reply counts as cut exactly when some event did not fit, and as ended exactly when it was told so. */
  lemma {:induction false} TruncatedExactly(l: Limits, es: seq<Event>)
    ensures Assembled(l, es).truncated == SomeOverran(l, es)
    ensures Assembled(l, es).sawTerminal == (Terminal in es)
  {
    if es == [] {
      NothingAppeared(l);
    } else {
      hide *;
      var init, last := es[..|es| - 1], es[|es| - 1];
      TruncatedExactly(l, init);
      TruncatedOn(l, init, last);
      assert es == init + [last];
    }
  }

  lemma TruncatedOn(l: Limits, es: seq<Event>, e: Event)
    requires Assembled(l, es).truncated == SomeOverran(l, es)
    requires Assembled(l, es).sawTerminal == (Terminal in es)
    ensures Assembled(l, es + [e]).truncated == SomeOverran(l, es + [e])
    ensures Assembled(l, es + [e]).sawTerminal == (Terminal in es + [e])
  {
    hide *;
    EventCuts(l, Assembled(l, es), e);
    OverranOn(l, es, e);
    AssembledOn(l, es, e);
  }

  /** An event that does not fit leaves the text as it is; a done event settles its part all the same. */
  lemma OverrunKeepsText(l: Limits, r: Reply, e: Event)
    requires Overruns(l, r, e)
    ensures var after := Consumed(l, r, e);
      && e.key in after.parts && after.textBytes == r.textBytes
      && after.parts == r.parts[e.key := after.parts[e.key]]
      && after.parts[e.key] == Part(if e.key in r.parts then r.parts[e.key].text else [],
                                    e.Done? || (e.key in r.parts && r.parts[e.key].done))
  {
    EmptyPart();
    hide ByteLength;
  }
}
