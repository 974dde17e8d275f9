/**
 * The gateway's memory of quota refusals: an expiring cache of at most 256 entries per map, in
 * the order of their last mark, that agrees with a simple rule about the history of calls.
 */
module QuotaExhaustion {
  import opened Options

  const UNKNOWN_RESET_MS: int := 15 * 60_000
  const MAX_EXHAUSTION_MS: int := 8 * 24 * 60 * 60_000
  const MAX_TRACKED: nat := 256

  /** One entry of an insertion-ordered map. */
  datatype Slot<+K, +V> = Slot(key: K, value: V)

  datatype Refusal = Refusal(until: int, claim: Option<string>, reply: Option<string>, markedAt: int, checkedAt: int)

  /** A refusal is believed until the reset it announces, at most eight days; without one, a quarter of an hour. */
  ghost predicate BelievedUntil(resetsAt: Option<int>, now: int, until: int) {
    && (resetsAt.None? || resetsAt.value <= now ==> until == now + 900_000)
    && (resetsAt.Some? && now < resetsAt.value <= now + 691_200_000 ==> until == resetsAt.value)
    && (resetsAt.Some? && now + 691_200_000 < resetsAt.value ==> until == now + 691_200_000)
  }

  function RefusalOf(resetsAt: Option<int>, claim: Option<string>, reply: Option<string>, now: int): (r: Refusal)
    ensures BelievedUntil(resetsAt, now, r.until) && now < r.until <= now + MAX_EXHAUSTION_MS
    ensures r.claim == claim && r.reply == reply && r.markedAt == now && r.checkedAt == now
  {
    var until :=
      if resetsAt.Some? && resetsAt.value > now then
        if resetsAt.value < now + MAX_EXHAUSTION_MS then resetsAt.value else now + MAX_EXHAUSTION_MS
      else now + UNKNOWN_RESET_MS;
    Refusal(until, claim, reply, now, now)
  }

  // ----- Insertion-ordered maps -----

  function Find<K(==), V>(m: seq<Slot<K, V>>, key: K): Option<V> {
    if m == [] then None else if m[0].key == key then Some(m[0].value) else Find(m[1..], key)
  }

  function Without<K(==), V>(m: seq<Slot<K, V>>, key: K): (rest: seq<Slot<K, V>>)
    ensures |rest| <= |m|
  {
    if m == [] then []
    else if m[0].key == key then Without(m[1..], key)
    else [m[0]] + Without(m[1..], key)
  }

  /** `delete` and `set` move a key to the end; the keys in front make room. */
  function Put<K(==), V>(m: seq<Slot<K, V>>, key: K, value: V): seq<Slot<K, V>> {
    var all := Without(m, key) + [Slot(key, value)];
    if |all| > MAX_TRACKED then all[|all| - MAX_TRACKED..] else all
  }

  function Keys<K, V>(m: seq<Slot<K, V>>): set<K> {
    if m == [] then {} else {m[0].key} + Keys(m[1..])
  }

  predicate Distinct<K(==), V>(m: seq<Slot<K, V>>) {
    m == [] || (m[0].key !in Keys(m[1..]) && Distinct(m[1..]))
  }

  /** The entries marked after the one of `key`. */
  function Behind<K(==), V>(m: seq<Slot<K, V>>, key: K): seq<Slot<K, V>> {
    if m == [] then [] else if m[0].key == key then m[1..] else Behind(m[1..], key)
  }

  lemma {:induction false} FindKeys<K, V>(m: seq<Slot<K, V>>, key: K)
    ensures Find(m, key).Some? <==> key in Keys(m)
  {
    if m != [] {
      FindKeys(m[1..], key);
    }
  }

  lemma {:induction false} DistinctSize<K, V>(m: seq<Slot<K, V>>)
    requires Distinct(m)
    ensures |Keys(m)| == |m|
  {
    if m != [] {
      DistinctSize(m[1..]);
    }
  }

  lemma {:induction false} WithoutLaws<K, V>(m: seq<Slot<K, V>>, j: K, key: K)
    ensures Find(Without(m, j), key) == if key == j then None else Find(m, key)
    ensures Keys(Without(m, j)) == Keys(m) - {j}
    ensures Distinct(m) ==> Distinct(Without(m, j))
    ensures key != j ==> Behind(Without(m, j), key) == Without(Behind(m, key), j)
  {
    if m != [] {
      WithoutLaws(m[1..], j, key);
      if m[0].key != j {
        var rest := Without(m[1..], j);
        assert ([m[0]] + rest)[1..] == rest;
      }
    }
  }

  lemma {:induction false} AppendLaws<K, V>(m: seq<Slot<K, V>>, s: Slot<K, V>, key: K)
    requires Distinct(m) && s.key !in Keys(m)
    ensures Find(m + [s], key) == if key == s.key then Some(s.value) else Find(m, key)
    ensures Keys(m + [s]) == Keys(m) + {s.key} && Distinct(m + [s])
    ensures key in Keys(m) ==> Behind(m + [s], key) == Behind(m, key) + [s]
    ensures key == s.key ==> Behind(m + [s], key) == []
  {
    if m == [] {
      assert [] + [s] == [s] && [s][1..] == [];
    } else {
      AppendLaws(m[1..], s, key);
      assert (m + [s])[0] == m[0] && (m + [s])[1..] == m[1..] + [s];
    }
  }

  lemma {:induction false} BehindKeys<K, V>(m: seq<Slot<K, V>>, key: K)
    requires Distinct(m)
    ensures Keys(Behind(m, key)) <= Keys(m) - {key} && Distinct(Behind(m, key))
  {
    if m != [] && m[0].key != key {
      BehindKeys(m[1..], key);
    }
  }

  /** Putting a key keeps at most 256 entries, and loses only the one in front. */
  lemma PutLaws<K, V>(m: seq<Slot<K, V>>, j: K, value: V, key: K)
    requires Distinct(m) && |m| <= MAX_TRACKED
    ensures Distinct(Put(m, j, value)) && |Put(m, j, value)| <= MAX_TRACKED
    ensures Find(Put(m, j, value), j) == Some(value) && Behind(Put(m, j, value), j) == []
    ensures key != j && key in Keys(m) ==>
      var behind := Without(Behind(m, key), j) + [Slot(j, value)];
      if |behind| < MAX_TRACKED then
        Find(Put(m, j, value), key) == Find(m, key) && Behind(Put(m, j, value), key) == behind
      else Find(Put(m, j, value), key).None?
  {
    var all := Without(m, j) + [Slot(j, value)];
    WithoutLaws(m, j, key);
    WithoutLaws(m, j, j);
    AppendLaws(Without(m, j), Slot(j, value), key);
    AppendLaws(Without(m, j), Slot(j, value), j);
    FindKeys(all, key);
    FindKeys(all, j);
    FindKeys(m, key);
    if |all| > MAX_TRACKED {
      assert all[|all| - MAX_TRACKED..] == all[1..];
      FindKeys(all[1..], key);
      FindKeys(all[1..], j);
    }
    if key in Keys(all) {
      BehindLength(all, key);
    }
  }

  lemma {:induction false} BehindLength<K, V>(m: seq<Slot<K, V>>, key: K)
    requires key in Keys(m)
    ensures |Behind(m, key)| < |m|
    ensures |Behind(m, key)| == |m| - 1 <==> m[0].key == key
  {
    if m[0].key != key {
      BehindLength(m[1..], key);
    }
  }

  // ----- Rechecks -----

  datatype Due<+K> = Due(key: K, claim: Option<string>, until: int)

  /** Expired entries are forgotten; those due are claimed by a new check time. */
  function Swept<K>(m: seq<Slot<K, Refusal>>, now: int, interval: int): seq<Slot<K, Refusal>> {
    if m == [] then []
    else if m[0].value.until <= now then Swept(m[1..], now, interval)
    else [m[0].(value := Checked(m[0].value, now, interval))] + Swept(m[1..], now, interval)
  }

  function Checked(r: Refusal, now: int, interval: int): Refusal {
    if now - r.checkedAt < interval then r else r.(checkedAt := now)
  }

  function DueNow<K>(m: seq<Slot<K, Refusal>>, now: int, interval: int): seq<Due<K>> {
    if m == [] then []
    else
      var r := m[0].value;
      (if r.until > now && now - r.checkedAt >= interval then [Due(m[0].key, r.claim, r.until)] else [])
      + DueNow(m[1..], now, interval)
  }

  lemma {:induction false} SweptLaws<K>(m: seq<Slot<K, Refusal>>, now: int, interval: int, key: K)
    requires Distinct(m)
    ensures Keys(Swept(m, now, interval)) <= Keys(m) && Distinct(Swept(m, now, interval))
      && |Swept(m, now, interval)| <= |m|
    ensures Find(Swept(m, now, interval), key) ==
      if Find(m, key).Some? && Find(m, key).value.until > now then Some(Checked(Find(m, key).value, now, interval))
      else None
    ensures Find(m, key).Some? && Find(m, key).value.until > now ==>
      Behind(Swept(m, now, interval), key) == Swept(Behind(m, key), now, interval)
  {
    if m != [] {
      SweptLaws(m[1..], now, interval, key);
      FindKeys(m[1..], key);
      if m[0].value.until > now {
        assert Swept(m, now, interval)[1..] == Swept(m[1..], now, interval);
      }
    }
  }

  /** A key is due exactly when its refusal is in force and was not checked within the interval. */
  lemma {:induction false} DueExactly<K>(m: seq<Slot<K, Refusal>>, now: int, interval: int, key: K)
    requires Distinct(m)
    ensures (exists d :: d in DueNow(m, now, interval) && d.key == key) <==>
      var r := Find(m, key); r.Some? && r.value.until > now && now - r.value.checkedAt >= interval
  {
    if m != [] {
      DueExactly(m[1..], now, interval, key);
      FindKeys(m[1..], key);
      var r, rest := m[0].value, DueNow(m[1..], now, interval);
      var first := if r.until > now && now - r.checkedAt >= interval then [Due(m[0].key, r.claim, r.until)] else [];
      assert DueNow(m, now, interval) == first + rest;
      if d :| d in rest && d.key == key {
        assert d in first + rest;
      }
      if first != [] {
        assert first[0] in first + rest;
      }
    }
  }

  /** A refusal claimed by one sweep is not claimed by another before the interval is over. */
  lemma NoDoubleRecheck<K>(m: seq<Slot<K, Refusal>>, first: int, second: int, interval: int, d: Due<K>)
    requires Distinct(m) && second - first < interval && d in DueNow(m, first, interval)
    ensures forall e :: e in DueNow(Swept(m, first, interval), second, interval) ==> e.key != d.key
  {
    DueExactly(m, first, interval, d.key);
    SweptLaws(m, first, interval, d.key);
    DueExactly(Swept(m, first, interval), second, interval, d.key);
  }

  // ----- The history rule -----

  /** What can happen to one of the two refusal maps. */
  datatype Call<K> = Mark(key: K, refusal: Refusal) | Clear(key: K) | Ask(key: K, now: int)
    | Recheck(now: int, interval: int)

  /** An entry is forgotten when it is asked for after its reset. */
  function Asked<K(==)>(m: seq<Slot<K, Refusal>>, key: K, now: int): seq<Slot<K, Refusal>> {
    var r := Find(m, key);
    if r.Some? && r.value.until <= now then Without(m, key) else m
  }

  function InForce<K(==)>(m: seq<Slot<K, Refusal>>, key: K, now: int): Option<Refusal> {
    var r := Find(m, key);
    if r.Some? && r.value.until > now then r else None
  }

  function After<K(==)>(m: seq<Slot<K, Refusal>>, call: Call<K>): seq<Slot<K, Refusal>> {
    match call
    case Mark(key, refusal) => Put(m, key, refusal)
    case Clear(key) => Without(m, key)
    case Ask(key, now) => Asked(m, key, now)
    case Recheck(now, interval) => Swept(m, now, interval)
  }

  /** The map after a history of calls. */
  function Cache<K(==)>(calls: seq<Call<K>>): seq<Slot<K, Refusal>> {
    if calls == [] then [] else After(Cache(calls[..|calls| - 1]), calls[|calls| - 1])
  }

  /** The last mark of the key that no clear follows. */
  function LastMark<K(==)>(calls: seq<Call<K>>, key: K): Option<Refusal> {
    if calls == [] then None
    else
      match calls[|calls| - 1]
      case Mark(k, refusal) => if k == key then Some(refusal) else LastMark(calls[..|calls| - 1], key)
      case Clear(k) => if k == key then None else LastMark(calls[..|calls| - 1], key)
      case _ => LastMark(calls[..|calls| - 1], key)
  }

  /** The other keys marked since the last mark of the key. */
  function MarkedSince<K(==)>(calls: seq<Call<K>>, key: K): set<K> {
    if calls == [] then {}
    else
      var rest, last := calls[..|calls| - 1], calls[|calls| - 1];
      if last.Mark? then (if last.key == key then {} else MarkedSince(rest, key) + {last.key})
      else MarkedSince(rest, key)
  }

  /** The clock has not passed `now` in any call. */
  ghost predicate NotAfter<K>(calls: seq<Call<K>>, now: int) {
    forall i :: 0 <= i < |calls| ==>
      match calls[i]
      case Ask(_, t) => t <= now
      case Recheck(t, _) => t <= now
      case _ => true
  }

  /** The same refusal, whenever it was checked. */
  predicate SameRefusal(a: Refusal, b: Refusal) {
    a == b.(checkedAt := a.checkedAt)
  }

  lemma {:induction false} CacheBounded<K>(calls: seq<Call<K>>)
    ensures Distinct(Cache(calls)) && |Cache(calls)| <= MAX_TRACKED
  {
    if calls != [] {
      var m, last := Cache(calls[..|calls| - 1]), calls[|calls| - 1];
      CacheBounded(calls[..|calls| - 1]);
      match last
      case Mark(key, refusal) => PutLaws(m, key, refusal, key);
      case Clear(key) => WithoutLaws(m, key, key);
      case Ask(key, now) => WithoutLaws(m, key, key);
      case Recheck(now, interval) =>
        if m != [] {
          SweptLaws(m, now, interval, m[0].key);
        }
    }
  }

  /** What the cache holds of a key is its last mark, whatever the clock did. */
  ghost predicate HoldsOnly<K>(m: seq<Slot<K, Refusal>>, key: K, last: Option<Refusal>) {
    var r := Find(m, key); r.Some? ==> last.Some? && SameRefusal(r.value, last.value)
  }

  lemma AfterHoldsOnly<K>(m: seq<Slot<K, Refusal>>, call: Call<K>, key: K, last: Option<Refusal>)
    requires Distinct(m) && |m| <= MAX_TRACKED && HoldsOnly(m, key, last)
    ensures HoldsOnly(After(m, call), key,
      if call.Mark? && call.key == key then Some(call.refusal)
      else if call.Clear? && call.key == key then None
      else last)
  {
    match call
    case Mark(k, refusal) =>
      PutLaws(m, k, refusal, key);
      if k != key {
        PutAdds(m, k, refusal, key);
      }
    case Clear(k) => WithoutLaws(m, k, key);
    case Ask(k, now) => WithoutLaws(m, k, key);
    case Recheck(now, interval) => SweptLaws(m, now, interval, key);
  }

  lemma {:induction false} PutAdds<K, V>(m: seq<Slot<K, V>>, j: K, value: V, key: K)
    requires Distinct(m) && |m| <= MAX_TRACKED && key != j
    ensures Find(Put(m, j, value), key).Some? ==> Find(Put(m, j, value), key) == Find(m, key)
  {
    hide Find;
    hide Without;
    hide Distinct;
    hide Keys;
    var all := Without(m, j) + [Slot(j, value)];
    WithoutLaws(m, j, key);
    AppendLaws(Without(m, j), Slot(j, value), key);
    if |all| > MAX_TRACKED {
      assert all[|all| - MAX_TRACKED..] == all[1..];
      FindRest(all, key);
    }
  }

  lemma FindRest<K, V>(m: seq<Slot<K, V>>, key: K)
    requires m != [] && Distinct(m)
    ensures Find(m[1..], key).Some? ==> Find(m[1..], key) == Find(m, key)
  {
    FindKeys(m[1..], key);
  }

  lemma {:induction false} CacheHoldsOnly<K>(calls: seq<Call<K>>, key: K)
    ensures HoldsOnly(Cache(calls), key, LastMark(calls, key))
  {
    if calls != [] {
      var init := calls[..|calls| - 1];
      CacheHoldsOnly(init, key);
      CacheBounded(init);
      AfterHoldsOnly(Cache(init), calls[|calls| - 1], key, LastMark(init, key));
    }
  }

  /** The key is held, and whatever was put after it is known. */
  ghost predicate Held<K, V>(m: seq<Slot<K, V>>, key: K, others: set<K>) {
    Find(m, key).Some? && Keys(Behind(m, key)) <= others
  }

  /** Another key put behind it leaves it held, unless that is the 256th. */
  lemma PutHeld<K, V>(m: seq<Slot<K, V>>, k: K, value: V, key: K, others: set<K>)
    requires Distinct(m) && |m| <= MAX_TRACKED && Held(m, key, others) && k != key
    ensures |others + {k}| >= MAX_TRACKED || Held(Put(m, k, value), key, others + {k})
  {
    FindKeys(m, key);
    BehindKeys(m, key);
    PutLaws(m, k, value, key);
    WithoutLaws(Behind(m, key), k, k);
    AppendLaws(Without(Behind(m, key), k), Slot(k, value), k);
    var behind := Without(Behind(m, key), k) + [Slot(k, value)];
    DistinctSize(behind);
    SubsetSize(Keys(behind), others + {k});
  }

  /** A key that is held stays held until it is cleared, expires or 256 others are marked. */
  lemma {:induction false} AfterHeld<K>(m: seq<Slot<K, Refusal>>, call: Call<K>, key: K, others: set<K>, now: int)
    requires Distinct(m) && |m| <= MAX_TRACKED && Held(m, key, others) && Find(m, key).value.until > now
    requires NotAfter([call], now) && !(call.Mark? && call.key == key) && !(call.Clear? && call.key == key)
    ensures var others' := if call.Mark? then others + {call.key} else others;
      |others'| >= MAX_TRACKED || Held(After(m, call), key, others')
  {
    FindKeys(m, key);
    BehindKeys(m, key);
    assert [call][0] == call;
    match call
    case Mark(k, refusal) => PutHeld(m, k, refusal, key, others);
    case Clear(k) => WithoutLaws(m, k, key); WithoutLaws(Behind(m, key), k, k);
    case Ask(k, t) => WithoutLaws(m, k, key); WithoutLaws(Behind(m, key), k, k);
    case Recheck(t, interval) =>
      SweptLaws(m, t, interval, key);
      SweptLaws(Behind(m, key), t, interval, key);
  }

  lemma SubsetSize<K>(a: set<K>, b: set<K>)
    requires a <= b
    ensures |a| <= |b|
  {
    assert b == a + (b - a);
  }

  lemma {:induction false} CacheHolds<K>(calls: seq<Call<K>>, key: K, now: int)
    requires LastMark(calls, key).Some? && LastMark(calls, key).value.until > now && NotAfter(calls, now)
    ensures |MarkedSince(calls, key)| >= MAX_TRACKED || Held(Cache(calls), key, MarkedSince(calls, key))
  {
    var init, last := calls[..|calls| - 1], calls[|calls| - 1];
    var m := Cache(init);
    CacheBounded(init);
    if last.Mark? && last.key == key {
      PutLaws(m, key, last.refusal, key);
    } else {
      CacheHolds(init, key, now);
      if |MarkedSince(init, key)| >= MAX_TRACKED {
        SubsetSize(MarkedSince(init, key), MarkedSince(calls, key));
      } else {
        CacheHoldsOnly(init, key);
        assert [last][0] == calls[|calls| - 1];
        AfterHeld(m, last, key, MarkedSince(init, key), now);
      }
    }
  }

  /** The rule: the last mark was not cleared and its reset is still ahead. */
  predicate Rule<K(==)>(calls: seq<Call<K>>, key: K, now: int) {
    LastMark(calls, key).Some? && LastMark(calls, key).value.until > now
  }

  lemma CacheSnoc<K>(calls: seq<Call<K>>, call: Call<K>)
    ensures Cache(calls + [call]) == After(Cache(calls), call)
  {
    assert (calls + [call])[..|calls|] == calls;
  }

  /**
   * A refusal reported is the last one marked, not cleared and not reset, whatever the clock did;
   * and with a clock that does not run back, one that is not reported although it is in force by
   * the rule has 256 other keys marked behind it.
   */
  lemma AgreesWithHistory<K>(calls: seq<Call<K>>, key: K, now: int)
    ensures var r := InForce(Cache(calls), key, now);
      && (r.Some? ==> Rule(calls, key, now) && SameRefusal(r.value, LastMark(calls, key).value))
      && (NotAfter(calls, now) && Rule(calls, key, now) && r.None? ==> |MarkedSince(calls, key)| >= 256)
  {
    CacheHoldsOnly(calls, key);
    if NotAfter(calls, now) && Rule(calls, key, now) {
      CacheHolds(calls, key, now);
    }
  }

  /** Nothing marks or clears the key, fewer than 256 others are marked, and the clock has not passed `t`. */
  ghost predicate LeavesAlone<K>(later: seq<Call<K>>, key: K, t: int) {
    && NotAfter(later, t) && |MarkedSince(later, key)| < MAX_TRACKED
    && forall i :: 0 <= i < |later| ==>
         !(later[i].Mark? && later[i].key == key) && !(later[i].Clear? && later[i].key == key)
  }

  lemma {:induction false} StillHeld<K>(calls: seq<Call<K>>, key: K, refusal: Refusal, later: seq<Call<K>>, t: int)
    requires LeavesAlone(later, key, t)
    ensures var m := Cache(calls + [Call.Mark(key, refusal)] + later);
      HoldsOnly(m, key, Some(refusal)) && (t < refusal.until ==> Held(m, key, MarkedSince(later, key)))
    decreases |later|
  {
    var marked := calls + [Call.Mark(key, refusal)];
    if later == [] {
      CacheBounded(calls);
      CacheSnoc(calls, Call.Mark(key, refusal));
      PutLaws(Cache(calls), key, refusal, key);
      assert marked + later == marked;
    } else {
      var init, last := later[..|later| - 1], later[|later| - 1];
      SubsetSize(MarkedSince(init, key), MarkedSince(later, key));
      StillHeld(calls, key, refusal, init, t);
      assert marked + later == (marked + init) + [last] && [last][0] == later[|later| - 1];
      var m := Cache(marked + init);
      CacheSnoc(marked + init, last);
      CacheBounded(marked + init);
      AfterHoldsOnly(m, last, key, Some(refusal));
      if t < refusal.until {
        AfterHeld(m, last, key, MarkedSince(init, key), t);
      }
    }
  }

  /** What an answer about a refusal marked at `now` says at `t`. */
  ghost predicate Believed(entry: Option<Refusal>, resetsAt: Option<int>, claim: Option<string>, reply: Option<string>,
                           now: int, t: int)
  {
    && (resetsAt.Some? && now < resetsAt.value <= now + 691_200_000 ==> (entry.Some? <==> t < resetsAt.value))
    && (resetsAt.Some? && now + 691_200_000 < resetsAt.value ==> (entry.Some? <==> t < now + 691_200_000))
    && (resetsAt.None? || resetsAt.value <= now ==> (entry.Some? <==> t < now + 900_000))
    && (entry.Some? ==> entry.value.claim == claim && entry.value.reply == reply && entry.value.markedAt == now)
  }

  /**
   * A refusal that was marked, and that nothing marked or cleared since, is in force exactly until
   * the end it is believed to have, and then with the claim and the reply it was marked with.
   */
  lemma MarkIsBelieved<K>(calls: seq<Call<K>>, key: K, resetsAt: Option<int>, claim: Option<string>,
      reply: Option<string>, now: int, later: seq<Call<K>>, t: int)
    requires LeavesAlone(later, key, t)
    ensures
      var r := InForce(Cache(calls + [Call.Mark(key, RefusalOf(resetsAt, claim, reply, now))] + later), key, t);
      Believed(r, resetsAt, claim, reply, now, t)
  {
    StillHeld(calls, key, RefusalOf(resetsAt, claim, reply, now), later, t);
    hide Cache;
  }

  function MarkAll<K(==)>(m: seq<Slot<K, Refusal>>, keys: seq<K>, refusal: Refusal): seq<Slot<K, Refusal>> {
    if keys == [] then m else Put(MarkAll(m, keys[..|keys| - 1], refusal), keys[|keys| - 1], refusal)
  }

  lemma {:induction false} WithoutAbsent<K, V>(m: seq<Slot<K, V>>, key: K)
    requires key !in Keys(m)
    ensures Without(m, key) == m
  {
    if m != [] {
      WithoutAbsent(m[1..], key);
    }
  }

  /** A key just marked is forgotten by the 256th other key marked after it, and not before. */
  lemma {:induction false} CrowdedOut<K>(m: seq<Slot<K, Refusal>>, key: K, keys: seq<K>, refusal: Refusal)
    requires Distinct(m) && |m| <= MAX_TRACKED && Find(m, key).Some? && Behind(m, key) == []
    requires key !in keys && forall i, j :: 0 <= i < j < |keys| ==> keys[i] != keys[j]
    ensures Distinct(MarkAll(m, keys, refusal)) && |MarkAll(m, keys, refusal)| <= MAX_TRACKED
    ensures Find(MarkAll(m, keys, refusal), key).None? <==> |keys| >= 256
    ensures |keys| < MAX_TRACKED ==>
      var behind := Behind(MarkAll(m, keys, refusal), key);
      |behind| == |keys| && Keys(behind) == set k | k in keys
  {
    hide Find;
    hide Behind;
    hide Put;
    hide Distinct;
    if keys == [] {
      NoKeys<K, Refusal>();
    } else {
      var init, last := keys[..|keys| - 1], keys[|keys| - 1];
      var before := MarkAll(m, init, refusal);
      assert keys == init + [last];
      assert last !in init by {
        assert forall i :: 0 <= i < |init| ==> init[i] == keys[i];
      }
      CrowdedOut(m, key, init, refusal);
      CrowdStep(before, key, last, refusal);
      assert (set k | k in keys) == (set k | k in init) + {last};
    }
  }

  lemma NoKeys<K, V>()
    ensures Keys<K, V>([]) == {}
  {
  }

  lemma {:induction false} CrowdStep<K>(m: seq<Slot<K, Refusal>>, key: K, j: K, refusal: Refusal)
    requires Distinct(m) && |m| <= MAX_TRACKED && j != key && (Find(m, key).Some? ==> j !in Keys(Behind(m, key)))
    ensures var m' := Put(m, j, refusal);
      && Distinct(m') && |m'| <= MAX_TRACKED
      && (Find(m', key).None? <==> Find(m, key).None? || |Behind(m, key)| >= MAX_TRACKED - 1)
      && (Find(m', key).Some? ==>
        |Behind(m', key)| == |Behind(m, key)| + 1 && Keys(Behind(m', key)) == Keys(Behind(m, key)) + {j})
  {
    hide Find;
    hide Behind;
    hide Without;
    hide Put;
    hide Keys;
    hide Distinct;
    PutLaws(m, j, refusal, key);
    PutAdds(m, j, refusal, key);
    FindKeys(m, key);
    if Find(m, key).Some? {
      BehindKeys(m, key);
      WithoutAbsent(Behind(m, key), j);
      AppendLaws(Behind(m, key), Slot(j, refusal), j);
    }
  }

  // ----- Answers -----

  /** An account and when it answered. */
  type Answer = Slot<string, int>

  /** What is remembered of a history of answers. */
  function Remembered(answers: seq<Answer>): seq<Answer> {
    if answers == [] then []
    else
      var last := answers[|answers| - 1];
      Put(Remembered(answers[..|answers| - 1]), last.key, last.value)
  }

  function LastAnswer(answers: seq<Answer>, account: string): Option<int> {
    if answers == [] then None
    else
      var last := answers[|answers| - 1];
      if last.key == account then Some(last.value) else LastAnswer(answers[..|answers| - 1], account)
  }

  /** The other accounts that answered since the last answer of the account. */
  function AnsweredSince(answers: seq<Answer>, account: string): set<string> {
    if answers == [] then {}
    else
      var last := answers[|answers| - 1];
      if last.key == account then {} else AnsweredSince(answers[..|answers| - 1], account) + {last.key}
  }

  /** What is remembered of an account is its last answer; it is forgotten only for 256 others. */
  lemma {:induction false} RemembersLast(answers: seq<Answer>, account: string)
    ensures var m := Remembered(answers);
      && Distinct(m) && |m| <= MAX_TRACKED
      && (Find(m, account).Some? ==> Find(m, account) == LastAnswer(answers, account))
      && (LastAnswer(answers, account).Some? ==>
            |AnsweredSince(answers, account)| >= MAX_TRACKED || Held(m, account, AnsweredSince(answers, account)))
  {
    hide Find;
    hide Put;
    hide Distinct;
    if answers == [] {
      assert Find<string, int>([], account).None? && Distinct<string, int>([]) by {
        NothingFound<string, int>(account);
      }
    } else {
      var init, last := answers[..|answers| - 1], answers[|answers| - 1];
      RemembersLast(init, account);
      PutLaws(Remembered(init), last.key, last.value, account);
      if last.key != account {
        PutAdds(Remembered(init), last.key, last.value, account);
        if LastAnswer(init, account).Some? {
          if |AnsweredSince(init, account)| >= MAX_TRACKED {
            SubsetSize(AnsweredSince(init, account), AnsweredSince(answers, account));
          } else {
            PutHeld(Remembered(init), last.key, last.value, account, AnsweredSince(init, account));
          }
        }
      }
    }
  }

  lemma NothingFound<K, V>(key: K)
    ensures Find<K, V>([], key).None? && Distinct<K, V>([])
  {
  }

  /** The account is remembered to have answered later than `since`. */
  predicate AnsweredLater(answers: seq<Answer>, account: string, since: int) {
    var at := Find(Remembered(answers), account);
    at.Some? && at.value > since
  }

  /** That is so exactly when its last answer is later, unless 256 others answered after it. */
  lemma AnsweredLaterExactly(answers: seq<Answer>, account: string, since: int)
    ensures AnsweredLater(answers, account, since) ==>
      LastAnswer(answers, account).Some? && LastAnswer(answers, account).value > since
    ensures LastAnswer(answers, account).Some? && LastAnswer(answers, account).value > since ==>
      AnsweredLater(answers, account, since) || |AnsweredSince(answers, account)| >= 256
  {
    RemembersLast(answers, account);
  }

  // ----- The tracker -----

  type ModelKey = (string, string)

  class Tracker {
    var accounts: seq<Slot<string, Refusal>>
    /** Refusals of one model family on an account. */
    var models: seq<Slot<ModelKey, Refusal>>
    var succeededAt: seq<Slot<string, int>>

    /** The history of both refusal maps, and of answers. */
    ghost var accountCalls: seq<Call<string>>
    ghost var modelCalls: seq<Call<ModelKey>>
    ghost var answers: seq<Answer>

    ghost predicate Valid()
      reads this
    {
      accounts == Cache(accountCalls) && models == Cache(modelCalls) && succeededAt == Remembered(answers)
    }

    constructor ()
      ensures Valid() && accountCalls == [] && modelCalls == [] && answers == []
    {
      accounts, models, succeededAt, accountCalls, modelCalls, answers := [], [], [], [], [], [];
    }

    static method Remember<K(==)>(m: seq<Slot<K, Refusal>>, key: K, refusal: Refusal)
      returns (after: seq<Slot<K, Refusal>>)
      ensures after == Put(m, key, refusal)
    {
      after := Without(m, key) + [Slot(key, refusal)];
      ghost var all := after;
      while |after| > MAX_TRACKED
        invariant |after| <= |all| && after == all[|all| - |after|..]
        invariant |all| > MAX_TRACKED ==> |after| >= MAX_TRACKED
        invariant |all| <= MAX_TRACKED ==> after == all
      {
        after := after[1..];
      }
    }

    method Mark(account: string, resetsAt: Option<int>, claim: Option<string>, reply: Option<string>, now: int)
      returns (entry: Option<Refusal>)
      requires Valid()
      modifies this`accounts, this`accountCalls
      ensures Valid()
      ensures account == "" ==> entry.None? && accountCalls == old(accountCalls)
      ensures account != "" ==>
        && entry == Some(RefusalOf(resetsAt, claim, reply, now)) && BelievedUntil(resetsAt, now, entry.value.until)
        && accountCalls == old(accountCalls) + [Call.Mark(account, entry.value)]
    {
      if account == "" {
        return None;
      }
      var refusal := RefusalOf(resetsAt, claim, reply, now);
      CacheSnoc(accountCalls, Call.Mark(account, refusal));
      accountCalls := accountCalls + [Call.Mark(account, refusal)];
      accounts := Remember(accounts, account, refusal);
      return Some(refusal);
    }

    method MarkModel(account: string, family: string, resetsAt: Option<int>, claim: Option<string>,
        reply: Option<string>, now: int)
      returns (entry: Option<Refusal>)
      requires Valid()
      modifies this`models, this`modelCalls
      ensures Valid()
      ensures account == "" || family == "" ==> entry.None? && modelCalls == old(modelCalls)
      ensures account != "" && family != "" ==>
        && entry == Some(RefusalOf(resetsAt, claim, reply, now)) && BelievedUntil(resetsAt, now, entry.value.until)
        && modelCalls == old(modelCalls) + [Call.Mark((account, family), entry.value)]
    {
      if account == "" || family == "" {
        return None;
      }
      var refusal := RefusalOf(resetsAt, claim, reply, now);
      CacheSnoc(modelCalls, Call.Mark((account, family), refusal));
      modelCalls := modelCalls + [Call.Mark((account, family), refusal)];
      models := Remember(models, (account, family), refusal);
      return Some(refusal);
    }

    /** The refusal while it is in force; otherwise it is forgotten. */
    method Exhausted(account: string, now: int) returns (entry: Option<Refusal>)
      requires Valid()
      modifies this`accounts, this`accountCalls
      ensures Valid() && accountCalls == old(accountCalls) + [Ask(account, now)]
      ensures entry == InForce(old(accounts), account, now)
      ensures entry.Some? ==>
        Rule(old(accountCalls), account, now) && SameRefusal(entry.value, LastMark(old(accountCalls), account).value)
      ensures NotAfter(old(accountCalls), now) && Rule(old(accountCalls), account, now) && entry.None? ==>
        |MarkedSince(old(accountCalls), account)| >= MAX_TRACKED
    {
      AgreesWithHistory(accountCalls, account, now);
      CacheSnoc(accountCalls, Ask(account, now));
      accountCalls := accountCalls + [Ask(account, now)];
      entry := Find(accounts, account);
      if entry.Some? && entry.value.until <= now {
        accounts := Without(accounts, account);
        return None;
      }
    }

    method ModelExhausted(account: string, family: string, now: int) returns (entry: Option<Refusal>)
      requires Valid()
      modifies this`models, this`modelCalls
      ensures Valid()
      ensures family == "" ==> entry.None? && modelCalls == old(modelCalls)
      ensures family != "" ==> modelCalls == old(modelCalls) + [Ask((account, family), now)]
      ensures family != "" ==> entry == InForce(old(models), (account, family), now)
      ensures entry.Some? ==>
        && Rule(old(modelCalls), (account, family), now)
        && SameRefusal(entry.value, LastMark(old(modelCalls), (account, family)).value)
      ensures
        && family != "" && NotAfter(old(modelCalls), now)
        && Rule(old(modelCalls), (account, family), now) && entry.None? ==>
        |MarkedSince(old(modelCalls), (account, family))| >= MAX_TRACKED
    {
      if family == "" {
        return None;
      }
      AgreesWithHistory(modelCalls, (account, family), now);
      CacheSnoc(modelCalls, Ask((account, family), now));
      modelCalls := modelCalls + [Ask((account, family), now)];
      entry := Find(models, (account, family));
      if entry.Some? && entry.value.until <= now {
        models := Without(models, (account, family));
        return None;
      }
    }

    method Forget(account: string)
      requires Valid()
      modifies this`accounts, this`accountCalls
      ensures Valid() && accountCalls == old(accountCalls) + [Call.Clear(account)]
    {
      CacheSnoc(accountCalls, Call.Clear(account));
      accountCalls := accountCalls + [Call.Clear(account)];
      accounts := Without(accounts, account);
    }

    method ForgetModel(account: string, family: string)
      requires Valid()
      modifies this`models, this`modelCalls
      ensures Valid() && modelCalls == old(modelCalls) + [Call.Clear((account, family))]
    {
      CacheSnoc(modelCalls, Call.Clear((account, family)));
      modelCalls := modelCalls + [Call.Clear((account, family))];
      models := Without(models, (account, family));
    }

    /** An answer outranks every refusal of the account, and of the family it answered for. */
    method Succeeded(account: string, family: string, now: int)
      requires Valid()
      modifies this
      ensures Valid()
      ensures account == "" ==> (accountCalls, modelCalls, answers) == old((accountCalls, modelCalls, answers))
      ensures account != "" ==>
        && accountCalls == old(accountCalls) + [Call.Clear(account)]
        && modelCalls == old(modelCalls) + (if family == "" then [] else [Call.Clear((account, family))])
        && answers == old(answers) + [Slot(account, now)]
    {
      if account == "" {
        return;
      }
      Forget(account);
      if family != "" {
        ForgetModel(account, family);
      }
      assert (answers + [Slot(account, now)])[..|answers|] == answers;
      answers := answers + [Slot(account, now)];
      succeededAt := Put(succeededAt, account, now);
    }

    /** Whether the account has answered since. */
    function SucceededSince(account: string, since: int): (succeeded: bool)
      requires Valid()
      reads this
      ensures succeeded == AnsweredLater(answers, account, since)
    {
      var at := Find(succeededAt, account);
      at.Some? && at.value > since
    }

    static method SweepMap<K(==)>(m: seq<Slot<K, Refusal>>, now: int, interval: int)
      returns (kept: seq<Slot<K, Refusal>>, due: seq<Due<K>>)
      ensures kept == Swept(m, now, interval) && due == DueNow(m, now, interval)
    {
      kept, due := [], [];
      var i := 0;
      while i < |m|
        invariant i <= |m|
        invariant kept + Swept(m[i..], now, interval) == Swept(m, now, interval)
        invariant due + DueNow(m[i..], now, interval) == DueNow(m, now, interval)
      {
        var r := m[i].value;
        assert m[i..][0] == m[i] && m[i..][1..] == m[i + 1..];
        if r.until > now {
          if now - r.checkedAt < interval {
            kept := kept + [m[i]];
          } else {
            kept := kept + [m[i].(value := r.(checkedAt := now))];
            due := due + [Due(m[i].key, r.claim, r.until)];
          }
        }
        i := i + 1;
      }
      assert m[i..] == [];
    }

    /** The refused accounts and model families due an early recovery check, which are claimed by it. */
    method DueForRecheck(now: int, interval: int) returns (due: seq<Due<string>>, dueModels: seq<Due<ModelKey>>)
      requires Valid()
      modifies this`accounts, this`models, this`accountCalls, this`modelCalls
      ensures Valid()
      ensures accountCalls == old(accountCalls) + [Recheck(now, interval)]
        && due == DueNow(old(accounts), now, interval)
      ensures modelCalls == old(modelCalls) + [Recheck(now, interval)]
        && dueModels == DueNow(old(models), now, interval)
    {
      CacheSnoc(accountCalls, Recheck(now, interval));
      CacheSnoc(modelCalls, Recheck(now, interval));
      accountCalls, modelCalls := accountCalls + [Recheck(now, interval)], modelCalls + [Recheck(now, interval)];
      accounts, due := SweepMap(accounts, now, interval);
      models, dueModels := SweepMap(models, now, interval);
    }
  }

  /** A refusal of an account, and what the tracker says of it later. */
  method MarkThenAsk(tracker: Tracker, account: string, resetsAt: Option<int>, claim: Option<string>,
      reply: Option<string>, now: int, t: int)
    returns (entry: Option<Refusal>)
    requires tracker.Valid() && account != ""
    modifies tracker
    ensures tracker.Valid() && Believed(entry, resetsAt, claim, reply, now, t)
  {
    MarkIsBelieved(tracker.accountCalls, account, resetsAt, claim, reply, now, [], t);
    entry := tracker.Mark(account, resetsAt, claim, reply, now);
    assert tracker.accountCalls + [] == tracker.accountCalls;
    entry := tracker.Exhausted(account, t);
  }

  /** The same of one model family on an account. */
  method MarkModelThenAsk(tracker: Tracker, account: string, family: string, resetsAt: Option<int>,
      claim: Option<string>, reply: Option<string>, now: int, t: int)
    returns (entry: Option<Refusal>)
    requires tracker.Valid() && account != "" && family != ""
    modifies tracker
    ensures tracker.Valid() && Believed(entry, resetsAt, claim, reply, now, t)
  {
    MarkIsBelieved(tracker.modelCalls, (account, family), resetsAt, claim, reply, now, [], t);
    entry := tracker.MarkModel(account, family, resetsAt, claim, reply, now);
    assert tracker.modelCalls + [] == tracker.modelCalls;
    entry := tracker.ModelExhausted(account, family, t);
  }
}
