/**
 * Decoders that read a stream piece by piece: a step function takes one item from the front of
 * the buffer, asks for more, or gives up for good. What such a decoder delivers does not depend
 * on how the stream was cut into pieces.
 */
module Incremental {
  datatype Step<I> = More | Bad | Item(size: nat, item: I)

  /** Every item takes something from the buffer. */
  ghost predicate Productive<B(!new), I>(step: seq<B> -> Step<I>) {
    forall s :: step(s).Item? ==> 0 < step(s).size <= |s|
  }

  /** What is decided does not change when more arrives. */
  ghost predicate Stable<B(!new), I>(step: seq<B> -> Step<I>) {
    forall a, b {:trigger step(a + b)} :: !step(a).More? ==> step(a + b) == step(a)
  }

  datatype Drained<B, I> = Drained(items: seq<I>, rest: seq<B>, bad: bool)

  /** All the items at the front of a buffer; a bad one empties it. */
  function Drain<B(!new), I>(step: seq<B> -> Step<I>, buffer: seq<B>): Drained<B, I>
    requires Productive(step)
    decreases |buffer|
  {
    match step(buffer)
    case More => Drained([], buffer, false)
    case Bad => Drained([], [], true)
    case Item(size, item) =>
      var tail := Drain(step, buffer[size..]);
      Drained([item] + tail.items, tail.rest, tail.bad)
  }

  /** One more chunk; nothing is read after a bad item. */
  function Feed<B(!new), I>(step: seq<B> -> Step<I>, s: Drained<B, I>, chunk: seq<B>): Drained<B, I>
    requires Productive(step)
  {
    if s.bad then s
    else
      var d := Drain(step, s.rest + chunk);
      Drained(s.items + d.items, d.rest, d.bad)
  }

  function FeedAll<B(!new), I>(step: seq<B> -> Step<I>, chunks: seq<seq<B>>): Drained<B, I>
    requires Productive(step)
  {
    if chunks == [] then Drained([], [], false)
    else Feed(step, FeedAll(step, chunks[..|chunks| - 1]), chunks[|chunks| - 1])
  }

  function Concat<B>(chunks: seq<seq<B>>): seq<B> {
    if chunks == [] then [] else Concat(chunks[..|chunks| - 1]) + chunks[|chunks| - 1]
  }

  /** How far one step takes the decoder. */
  lemma DrainStep<B(!new), I>(step: seq<B> -> Step<I>, buffer: seq<B>)
    requires Productive(step)
    ensures step(buffer).More? ==> Drain(step, buffer) == Drained([], buffer, false)
    ensures step(buffer).Bad? ==> Drain(step, buffer) == Drained([], [], true)
    ensures step(buffer).Item? ==>
      var tail := Drain(step, buffer[step(buffer).size..]);
      Drain(step, buffer) == Drained([step(buffer).item] + tail.items, tail.rest, tail.bad)
  {
  }

  /** Draining a longer buffer continues where draining its beginning stopped. */
  lemma {:induction false} DrainJoin<B(!new), I>(step: seq<B> -> Step<I>, a: seq<B>, b: seq<B>)
    requires Productive(step) && Stable(step)
    ensures Drain(step, a + b) == Feed(step, Drain(step, a), b)
    decreases |a|
  {
    assert !step(a).More? ==> step(a + b) == step(a);
    match step(a)
    case More =>
      assert Drain(step, a) == Drained([], a, false);
    case Bad =>
    case Item(size, item) =>
      assert (a + b)[size..] == a[size..] + b;
      DrainJoin(step, a[size..], b);
      var tail := Drain(step, a[size..]);
      assert Drain(step, a) == Drained([item] + tail.items, tail.rest, tail.bad);
      assert Drain(step, a + b) ==
        Drained([item] + Feed(step, tail, b).items, Feed(step, tail, b).rest, Feed(step, tail, b).bad);
      if !tail.bad {
        AppendAssociates([item], tail.items, Drain(step, tail.rest + b).items);
      }
  }

  lemma AppendAssociates<I>(a: seq<I>, b: seq<I>, c: seq<I>)
    ensures a + (b + c) == (a + b) + c
  {
  }

  /** However a stream is cut into chunks, the decoder ends as if it had come in one piece. */
  lemma {:induction false} AnySplit<B(!new), I>(step: seq<B> -> Step<I>, chunks: seq<seq<B>>)
    requires Productive(step) && Stable(step) && step([]).More?
    ensures FeedAll(step, chunks) == Drain(step, Concat(chunks))
  {
    if chunks != [] {
      var init := chunks[..|chunks| - 1];
      AnySplit(step, init);
      DrainJoin(step, Concat(init), chunks[|chunks| - 1]);
    }
  }

  /** The items of a stream made of encodings that the step function reads back. */
  lemma {:induction false} DrainEncoded<B(!new), I>(step: seq<B> -> Step<I>, encodings: seq<seq<B>>, items: seq<I>)
    requires Productive(step) && step([]).More? && |encodings| == |items|
    requires forall i, rest {:trigger step(encodings[i] + rest)} :: 0 <= i < |items| ==>
               step(encodings[i] + rest) == Item(|encodings[i]|, items[i])
    ensures Drain(step, Flat(encodings)) == Drained(items, [], false)
  {
    if encodings != [] {
      var rest := Flat(encodings[1..]);
      assert step(encodings[0] + rest) == Item(|encodings[0]|, items[0]);
      assert (encodings[0] + rest)[|encodings[0]|..] == rest;
      forall i, r | 0 <= i < |items[1..]|
        ensures step(encodings[1..][i] + r) == Item(|encodings[1..][i]|, items[1..][i])
      {
        assert step(encodings[i + 1] + r) == Item(|encodings[i + 1]|, items[i + 1]);
      }
      DrainEncoded(step, encodings[1..], items[1..]);
      assert items == [items[0]] + items[1..];
    }
  }

  function Flat<B>(parts: seq<seq<B>>): seq<B> {
    if parts == [] then [] else parts[0] + Flat(parts[1..])
  }
}
