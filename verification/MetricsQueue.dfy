/**
 * The gateway's metrics queue: rows wait in memory, with or without a captured conversation,
 * and are written in batches that are retried a few times while the database is busy.
 *
 * `Valid()` holds the conservation laws; every method keeps it, so it holds in every run.
 */
module MetricsQueue {
  const MAX_FLUSH_PAIRS: nat := 4
  const MAX_RETRIES: nat := 3

  /** A queued row. The stamp is the number of rows accepted before it; a row alone has no bytes. */
  datatype Entry = Entry(stamp: nat, retries: nat, bytes: nat)

  /** What the database does with a batch; in a commit each conversation is stored or left out. */
  datatype Write = Commit(stores: nat -> bool) | Failure(transient: bool)

  datatype Completion = NoConversation | Invalid | Captured(bytes: nat)

  datatype Totals = Totals(written: nat, dropped: nat, failed: nat)

  function Bytes(entries: seq<Entry>): nat {
    if entries == [] then 0 else entries[0].bytes + Bytes(entries[1..])
  }

  function Stamps(entries: seq<Entry>): (stamps: seq<nat>)
    ensures |stamps| == |entries| && forall i :: 0 <= i < |entries| ==> stamps[i] == entries[i].stamp
  {
    seq(|entries|, i requires 0 <= i < |entries| => entries[i].stamp)
  }

  /** The entries of a batch that get another try. */
  function Retried(batch: seq<Entry>): (again: seq<Entry>)
    ensures |again| <= |batch|
  {
    if batch == [] then []
    else
      (if batch[0].retries < MAX_RETRIES then [batch[0].(retries := batch[0].retries + 1)] else [])
      + Retried(batch[1..])
  }

  function StoredCount(stores: nat -> bool, n: nat): (count: nat)
    ensures count <= n && count == |StoredAmong(stores, n)|
  {
    if n > 0 then
      assert StoredAmong(stores, n) ==
        if stores(n - 1) then StoredAmong(stores, n - 1) + {n - 1} else StoredAmong(stores, n - 1);
      assert n - 1 !in StoredAmong(stores, n - 1);
      StoredCount(stores, n - 1) + (if stores(n - 1) then 1 else 0)
    else 0
  }

  /** The conversations of a batch that the database stores. */
  ghost function StoredAmong(stores: nat -> bool, n: nat): set<nat> {
    set i: nat | i < n && stores(i)
  }

  function Min(a: nat, b: nat): nat {
    if a < b then a else b
  }

  ghost predicate RetriesBounded(entries: seq<Entry>) {
    forall i :: 0 <= i < |entries| ==> entries[i].retries <= MAX_RETRIES
  }

  ghost predicate Ordered(entries: seq<Entry>) {
    forall i, j :: 0 <= i < j < |entries| ==> entries[i].stamp < entries[j].stamp
  }

  ghost predicate StampsWithin(entries: seq<Entry>, low: nat, high: nat) {
    forall i :: 0 <= i < |entries| ==> low <= entries[i].stamp < high
  }

  /** The stamps written are ascending, and those of the queue follow them. */
  ghost predicate Follows(done: seq<nat>, queue: seq<Entry>, enqueued: nat) {
    && (forall i, j :: 0 <= i < j < |done| ==> done[i] < done[j])
    && Next(done) <= enqueued && Ordered(queue) && StampsWithin(queue, Next(done), enqueued)
  }

  function Next(done: seq<nat>): nat {
    if done == [] then 0 else done[|done| - 1] + 1
  }

  class MetricsStore {
    const batchSize: nat
    const maxQueue: nat
    const maxConversationItems: nat
    const maxConversationBytes: nat

    var queue: seq<Entry>
    var conversationQueue: seq<Entry>
    var conversationBytes: nat
    var connected: bool
    var closing: bool
    var closed: bool

    var enqueued: nat
    var written: nat
    var dropped: nat
    var failed: nat
    var conversationEnqueued: nat
    var conversationWritten: nat
    var conversationDropped: nat
    var conversationFailed: nat

    /** The stamps of the rows in the database, from either queue, in the order written. */
    ghost var rows: seq<nat>
    ghost var pairRows: seq<nat>
    /** All calls, and those that carried a conversation with a valid row. */
    ghost var calls: nat
    ghost var conversationCalls: nat

    /** Nothing is lost without being counted, whatever the run. */
    ghost predicate Conserved()
      reads this`calls, this`written, this`dropped, this`queue, this`conversationQueue, this`conversationCalls,
            this`conversationWritten, this`conversationDropped, this`rows, this`pairRows
    {
      && calls == written + dropped + |queue| + |conversationQueue|
      && conversationCalls == conversationWritten + conversationDropped + |conversationQueue|
      && written == |rows| + |pairRows|
    }

    ghost predicate WithinBudget()
      reads this`queue, this`conversationQueue, this`conversationBytes
    {
      && batchSize > 0 && maxQueue > 0 && maxConversationItems > 0
      && |queue| + |conversationQueue| <= maxQueue
      && |conversationQueue| <= maxConversationItems
      && conversationBytes == Bytes(conversationQueue) <= maxConversationBytes
      && RetriesBounded(queue) && RetriesBounded(conversationQueue)
    }

    /** Rows reach the database in the order accepted, and none of them twice. */
    ghost predicate InOrder()
      reads this`rows, this`pairRows, this`queue, this`conversationQueue, this`enqueued
    {
      Follows(rows, queue, enqueued) && Follows(pairRows, conversationQueue, enqueued)
    }

    ghost predicate Valid()
      reads this
    {
      Conserved() && WithinBudget() && InOrder() && (closed ==> |queue| + |conversationQueue| == 0)
    }

    constructor (batchSize: nat, maxQueue: nat, maxConversationItems: nat, maxConversationBytes: nat)
      requires batchSize > 0 && maxQueue > 0 && maxConversationItems > 0 && maxConversationBytes > 0
      ensures Valid() && calls == conversationCalls == 0 && connected && !closing && !closed
    {
      this.batchSize, this.maxQueue := batchSize, maxQueue;
      this.maxConversationItems, this.maxConversationBytes := maxConversationItems, maxConversationBytes;
      queue, conversationQueue, conversationBytes := [], [], 0;
      connected, closing, closed := true, false, false;
      enqueued, written, dropped, failed := 0, 0, 0, 0;
      conversationEnqueued, conversationWritten, conversationDropped, conversationFailed := 0, 0, 0, 0;
      rows, pairRows, calls, conversationCalls := [], [], 0, 0;
    }

    predicate HasCapacity()
      reads this
    {
      |queue| + |conversationQueue| < maxQueue
    }

    predicate Accepts()
      reads this
    {
      !closed && !closing && HasCapacity()
    }

    method EnqueueMetricOnly() returns (ok: bool)
      requires Valid()
      modifies this`queue, this`enqueued, this`dropped, this`calls
      ensures Valid() && calls == old(calls) + 1
      ensures ok <==> !closed && !closing && old(|queue| + |conversationQueue|) < maxQueue
      ensures queue == if ok then old(queue) + [Entry(old(enqueued), 0, 0)] else old(queue)
      ensures enqueued == old(enqueued) + (if ok then 1 else 0) && dropped == old(dropped) + (if ok then 0 else 1)
    {
      hide Follows;
      calls := calls + 1;
      if !Accepts() {
        dropped := dropped + 1;
        return false;
      }
      FollowsArrival(rows, queue, enqueued);
      FollowsArrival(pairRows, conversationQueue, enqueued);
      queue := queue + [Entry(enqueued, 0, 0)];
      enqueued := enqueued + 1;
      return true;
    }

    /** A row the normalizer rejects is a dropped call. */
    method EnqueueRequest(wellFormed: bool) returns (ok: bool)
      requires Valid()
      modifies this`queue, this`enqueued, this`dropped, this`calls
      ensures Valid() && calls == old(calls) + 1
      ensures ok <==> wellFormed && !closed && !closing && old(|queue| + |conversationQueue|) < maxQueue
      ensures queue == if ok then old(queue) + [Entry(old(enqueued), 0, 0)] else old(queue)
      ensures enqueued == old(enqueued) + (if ok then 1 else 0) && dropped == old(dropped) + (if ok then 0 else 1)
    {
      if !wellFormed {
        calls, dropped := calls + 1, dropped + 1;
        return false;
      }
      ok := EnqueueMetricOnly();
    }

    /** The conversation fits the queue's own limits. */
    predicate Fits(bytes: nat)
      reads this
    {
      |conversationQueue| < maxConversationItems && conversationBytes + bytes <= maxConversationBytes
    }

    /** The pair is queued if there is room; otherwise its row goes on without the conversation. */
    method EnqueueCompletion(wellFormed: bool, c: Completion) returns (ok: bool)
      requires Valid()
      modifies this
      ensures Valid() && calls == old(calls) + 1
      ensures ok <==> wellFormed && !old(closed) && !old(closing) && old(|queue| + |conversationQueue|) < maxQueue
      ensures conversationCalls == old(conversationCalls) + (if wellFormed && !c.NoConversation? then 1 else 0)
      ensures
        var paired := ok && c.Captured? && old(|conversationQueue|) < maxConversationItems
          && old(conversationBytes) + c.bytes <= maxConversationBytes;
        && conversationQueue ==
           (if paired then old(conversationQueue) + [Entry(old(enqueued), 0, c.bytes)] else old(conversationQueue))
        && queue == (if ok && !paired then old(queue) + [Entry(old(enqueued), 0, 0)] else old(queue))
        && conversationEnqueued == old(conversationEnqueued) + (if paired then 1 else 0)
        && conversationDropped ==
          old(conversationDropped) + (if wellFormed && !c.NoConversation? && !paired then 1 else 0)
      ensures enqueued == old(enqueued) + (if ok then 1 else 0) && dropped == old(dropped) + (if ok then 0 else 1)
      ensures (closing, closed, connected, written, rows, pairRows) ==
        old((closing, closed, connected, written, rows, pairRows))
    {
      hide WithinBudget;
      hide InOrder;
      if !wellFormed {
        calls, dropped := calls + 1, dropped + 1;
        return false;
      }
      if c.NoConversation? {
        ok := EnqueueMetricOnly();
        return;
      }
      conversationCalls := conversationCalls + 1;
      if c.Invalid? {
        conversationDropped := conversationDropped + 1;
        ok := EnqueueMetricOnly();
        return;
      }
      if !Accepts() {
        calls, dropped := calls + 1, dropped + 1;
        conversationDropped := conversationDropped + 1;
        return false;
      }
      if !Fits(c.bytes) {
        conversationDropped := conversationDropped + 1;
        ok := EnqueueMetricOnly();
        return;
      }
      EnqueuePair(c.bytes);
      return true;
    }

    method EnqueuePair(bytes: nat)
      requires WithinBudget() && InOrder() && Accepts() && Fits(bytes)
      modifies this`conversationQueue, this`conversationBytes, this`enqueued, this`conversationEnqueued, this`calls
      ensures WithinBudget() && InOrder()
      ensures conversationQueue == old(conversationQueue) + [Entry(old(enqueued), 0, bytes)]
      ensures enqueued == old(enqueued) + 1 && conversationEnqueued == old(conversationEnqueued) + 1
        && calls == old(calls) + 1
    {
      hide Follows;
      var entry := Entry(enqueued, 0, bytes);
      BytesSnoc(conversationQueue, entry);
      FollowsArrival(rows, queue, enqueued);
      FollowsArrival(pairRows, conversationQueue, enqueued);
      conversationQueue := conversationQueue + [entry];
      conversationBytes := conversationBytes + bytes;
      enqueued := enqueued + 1;
      conversationEnqueued := conversationEnqueued + 1;
      calls := calls + 1;
    }

    /** The numbers of rows and of pairs in the next batch. */
    function Batch(): (nat, nat)
      reads this
    {
      (Min(|queue|, batchSize), Min(|conversationQueue|, Min(batchSize, MAX_FLUSH_PAIRS)))
    }

    /** The pairs of a failed batch go back to the front, as many as fit. */
    method RetryPairs(retryable: seq<Entry>) returns (kept: seq<Entry>)
      requires |conversationQueue| + |retryable| <= maxConversationItems
      requires conversationBytes + Bytes(retryable) <= maxConversationBytes
      modifies this`conversationQueue, this`conversationBytes
      ensures kept == retryable
      ensures conversationQueue == retryable + old(conversationQueue)
      ensures conversationBytes == old(conversationBytes) + Bytes(retryable)
    {
      kept := [];
      var keptBytes, i := 0, 0;
      while i < |retryable|
        invariant i <= |retryable| && kept == retryable[..i] && keptBytes == Bytes(kept)
        invariant conversationQueue == old(conversationQueue) && conversationBytes == old(conversationBytes)
      {
        if |conversationQueue| + |kept| >= maxConversationItems {
          break;
        }
        BytesSnoc(retryable[..i], retryable[i]);
        BytesAppend(retryable[..i + 1], retryable[i + 1..]);
        assert retryable[..i + 1] + retryable[i + 1..] == retryable
          && retryable[..i + 1] == retryable[..i] + [retryable[i]];
        if conversationBytes + keptBytes + retryable[i].bytes <= maxConversationBytes {
          kept := kept + [retryable[i]];
          keptBytes := keptBytes + retryable[i].bytes;
        }
        i := i + 1;
      }
      assert retryable[..i] == retryable;
      if kept != [] {
        conversationQueue := kept + conversationQueue;
        conversationBytes := conversationBytes + keptBytes;
      }
    }

    /** `Valid()` while a batch is out of the queues. */
    ghost predicate Taken(batch: seq<Entry>, pairs: seq<Entry>)
      reads this
    {
      && calls == written + dropped + |queue| + |conversationQueue| + |batch| + |pairs|
      && conversationCalls == conversationWritten + conversationDropped + |conversationQueue| + |pairs|
      && written == |rows| + |pairRows|
      && batchSize > 0 && maxQueue > 0 && maxConversationItems > 0
      && |queue| + |conversationQueue| + |batch| + |pairs| <= maxQueue
      && |conversationQueue| + |pairs| <= maxConversationItems
      && conversationBytes == Bytes(conversationQueue) && conversationBytes + Bytes(pairs) <= maxConversationBytes
      && RetriesBounded(queue) && RetriesBounded(conversationQueue)
      && Follows(rows, batch + queue, enqueued) && Follows(pairRows, pairs + conversationQueue, enqueued)
      && !closed
    }

    method CommitBatch(batch: seq<Entry>, pairs: seq<Entry>, stores: nat -> bool)
      requires Taken(batch, pairs)
      modifies this`written, this`conversationWritten, this`conversationDropped, this`rows, this`pairRows
      ensures Valid()
      ensures rows == old(rows) + Stamps(batch) && pairRows == old(pairRows) + Stamps(pairs)
      ensures written == old(written) + |batch| + |pairs|
      ensures conversationWritten == old(conversationWritten) + StoredCount(stores, |pairs|)
      ensures conversationDropped == old(conversationDropped) + |pairs| - StoredCount(stores, |pairs|)
    {
      hide Follows;
      FollowsCommit(rows, batch, queue, enqueued);
      FollowsCommit(pairRows, pairs, conversationQueue, enqueued);
      rows, pairRows := rows + Stamps(batch), pairRows + Stamps(pairs);
      written := written + |batch| + |pairs|;
      var stored := CountStored(stores, |pairs|);
      conversationWritten := conversationWritten + stored;
      conversationDropped := conversationDropped + |pairs| - stored;
    }

    /** The rows of a failed batch go back to the front, as many as fit. */
    method RetryRows(batch: seq<Entry>, transient: bool) returns (again: seq<Entry>)
      requires |queue| + |batch| <= maxQueue && RetriesBounded(queue) && Follows(rows, batch + queue, enqueued)
      modifies this`queue, this`dropped
      ensures again == (if transient then Retried(batch) else []) && |again| <= |batch|
      ensures queue == again + old(queue) && dropped == old(dropped) + |batch| - |again|
      ensures RetriesBounded(queue) && Follows(rows, queue, enqueued)
    {
      hide Follows;
      hide Retried;
      hide RetriesBounded;
      BatchReturns(rows, batch, queue, enqueued, transient);
      var retryable := if transient then Retried(batch) else [];
      var capacity := if maxQueue < |queue| then 0 else maxQueue - |queue|;
      again := retryable[..Min(|retryable|, capacity)];
      assert again == retryable;
      queue := again + queue;
      dropped := dropped + |batch| - |again|;
    }

    /** So do its pairs. */
    method ReturnPairs(pairs: seq<Entry>, transient: bool) returns (again: seq<Entry>)
      requires |conversationQueue| + |pairs| <= maxConversationItems
      requires conversationBytes == Bytes(conversationQueue) && conversationBytes + Bytes(pairs) <= maxConversationBytes
      requires RetriesBounded(conversationQueue) && Follows(pairRows, pairs + conversationQueue, enqueued)
      modifies this`conversationQueue, this`conversationBytes, this`dropped, this`conversationDropped
      ensures again == (if transient then Retried(pairs) else []) && |again| <= |pairs|
      ensures conversationQueue == again + old(conversationQueue)
      ensures dropped == old(dropped) + |pairs| - |again|
      ensures conversationDropped == old(conversationDropped) + |pairs| - |again|
      ensures conversationBytes == Bytes(conversationQueue) <= maxConversationBytes
      ensures RetriesBounded(conversationQueue) && Follows(pairRows, conversationQueue, enqueued)
    {
      hide Follows;
      hide Retried;
      hide Bytes;
      hide RetriesBounded;
      BatchReturns(pairRows, pairs, conversationQueue, enqueued, transient);
      again := RetryPairs(if transient then Retried(pairs) else []);
      conversationDropped := conversationDropped + |pairs| - |again|;
      dropped := dropped + |pairs| - |again|;
    }

    method FailBatch(batch: seq<Entry>, pairs: seq<Entry>, transient: bool) returns (lost: nat)
      requires Taken(batch, pairs)
      modifies this`queue, this`conversationQueue, this`conversationBytes, this`dropped, this`failed,
               this`conversationDropped, this`conversationFailed
      ensures Valid()
      ensures var again, pairsAgain :=
        if transient then Retried(batch) else [], if transient then Retried(pairs) else [];
        && queue == again + old(queue) && conversationQueue == pairsAgain + old(conversationQueue)
        && lost == |batch| - |again| + (|pairs| - |pairsAgain|) && dropped == old(dropped) + lost
        && conversationDropped == old(conversationDropped) + |pairs| - |pairsAgain|
        && failed == old(failed) + |batch| + |pairs| && conversationFailed == old(conversationFailed) + |pairs|
    {
      hide Follows;
      hide Retried;
      hide Bytes;
      hide RetriesBounded;
      failed, conversationFailed := failed + |batch| + |pairs|, conversationFailed + |pairs|;
      var again := RetryRows(batch, transient);
      var pairsAgain := ReturnPairs(pairs, transient);
      lost := |batch| - |again| + (|pairs| - |pairsAgain|);
    }

    method TakeBatch(n: nat, m: nat) returns (batch: seq<Entry>, pairs: seq<Entry>)
      requires Valid() && !closed && n <= |queue| && m <= |conversationQueue|
      modifies this`queue, this`conversationQueue, this`conversationBytes
      ensures Taken(batch, pairs) && batch == old(queue)[..n] && pairs == old(conversationQueue)[..m]
      ensures queue == old(queue)[n..] && conversationQueue == old(conversationQueue)[m..]
    {
      hide Follows;
      hide Bytes;
      hide RetriesBounded;
      BatchSplits(queue, n);
      BatchSplits(conversationQueue, m);
      batch, pairs := queue[..n], conversationQueue[..m];
      queue, conversationQueue := queue[n..], conversationQueue[m..];
      conversationBytes := conversationBytes - Bytes(pairs);
    }

    /** Nothing to write, or nowhere to write it. */
    predicate Idle()
      reads this
    {
      |queue| + |conversationQueue| == 0 || !connected || closed
    }

    /** One transaction for one batch. A busy database costs only the rows already retried three times. */
    method Flush(w: Write) returns (t: Totals)
      requires Valid()
      modifies this`queue, this`conversationQueue, this`conversationBytes, this`written, this`dropped, this`failed,
               this`conversationWritten, this`conversationDropped, this`conversationFailed, this`rows, this`pairRows
      ensures Valid()
      ensures old(Idle()) ==>
        && t == Totals(0, 0, 0)
        && (queue, conversationQueue, rows, pairRows, written, dropped, failed)
           == old((queue, conversationQueue, rows, pairRows, written, dropped, failed))
        && (conversationWritten, conversationDropped, conversationFailed)
           == old((conversationWritten, conversationDropped, conversationFailed))
      ensures var (n, m) := old(Batch());
        && n <= |old(queue)| && n <= batchSize && (n == |old(queue)| || n == batchSize)
        && m <= |old(conversationQueue)| && m <= batchSize && m <= 4
        && (m == |old(conversationQueue)| || m == batchSize || m == 4)
      ensures var (n, m) := old(Batch());
        !old(Idle()) ==>
        && n + m > 0
        && if w.Commit? then
          && t == Totals(n + m, 0, 0)
          && queue == old(queue)[n..] && conversationQueue == old(conversationQueue)[m..]
          && rows == old(rows) + Stamps(old(queue)[..n])
          && pairRows == old(pairRows) + Stamps(old(conversationQueue)[..m])
          && written == old(written) + n + m && dropped == old(dropped) && failed == old(failed)
          && conversationWritten == old(conversationWritten) + StoredCount(w.stores, m)
          && conversationDropped == old(conversationDropped) + m - StoredCount(w.stores, m)
          && conversationFailed == old(conversationFailed)
        else
          var again, pairsAgain :=
            if w.transient then Retried(old(queue)[..n]) else [],
            if w.transient then Retried(old(conversationQueue)[..m]) else [];
          && t == Totals(0, n - |again| + (m - |pairsAgain|), n + m)
          && queue == again + old(queue)[n..] && conversationQueue == pairsAgain + old(conversationQueue)[m..]
          && rows == old(rows) && pairRows == old(pairRows) && written == old(written)
          && dropped == old(dropped) + t.dropped && failed == old(failed) + n + m
          && conversationWritten == old(conversationWritten)
          && conversationDropped == old(conversationDropped) + m - |pairsAgain|
          && conversationFailed == old(conversationFailed) + m
    {
      hide Retried;
      hide StoredCount;
      hide Stamps;
      hide WithinBudget;
      hide InOrder;
      hide Conserved;
      hide Min;
      BatchSizes();
      if |queue| == 0 && |conversationQueue| == 0 {
        return Totals(0, 0, 0);
      }
      if !connected || closed {
        return Totals(0, 0, 0);
      }
      var (n, m) := Batch();
      SomethingTaken();
      var batch, pairs := TakeBatch(n, m);
      hide Taken;
      match w
      case Commit(stores) =>
        CommitBatch(batch, pairs, stores);
        t := Totals(n + m, 0, 0);
      case Failure(transient) =>
        var lost := FailBatch(batch, pairs, transient);
        t := Totals(0, lost, n + m);
    }

    lemma BatchSizes()
      ensures var (n, m) := Batch();
        && n <= |queue| && n <= batchSize && (n == |queue| || n == batchSize)
        && m <= |conversationQueue| && m <= batchSize && m <= 4
        && (m == |conversationQueue| || m == batchSize || m == 4)
    {
    }

    lemma SomethingTaken()
      requires Valid() && |queue| + |conversationQueue| > 0
      ensures Batch().0 + Batch().1 > 0
    {
    }

    /** The part of `Flush` that a final drain needs. */
    method FlushRest(w: Write) returns (t: Totals)
      requires Valid() && !closed && |queue| + |conversationQueue| > 0
      modifies this`queue, this`conversationQueue, this`conversationBytes, this`written, this`dropped, this`failed,
               this`conversationWritten, this`conversationDropped, this`conversationFailed, this`rows, this`pairRows
      ensures Valid()
      ensures written == old(written) + t.written && dropped == old(dropped) + t.dropped
        && failed == old(failed) + t.failed
      ensures !connected ==> t == Totals(0, 0, 0) && queue == old(queue) && conversationQueue == old(conversationQueue)
      ensures connected && w.Commit? ==>
        && t.dropped == 0 && |queue| + |conversationQueue| < old(|queue| + |conversationQueue|)
        && rows + Stamps(queue) == old(rows + Stamps(queue))
        && pairRows + Stamps(conversationQueue) == old(pairRows + Stamps(conversationQueue))
    {
      hide Follows;
      hide Retried;
      hide StoredCount;
      hide Bytes;
      hide RetriesBounded;
      hide Stamps;
      hide InOrder;
      hide Conserved;
      var (n, m) := Batch();
      StampsSplit(rows, queue, n);
      StampsSplit(pairRows, conversationQueue, m);
      t := Flush(w);
    }

    /** Flushes until nothing is left or nothing moves. */
    method Drain(writes: nat -> Write) returns (t: Totals)
      requires Valid() && !closed
      modifies this`queue, this`conversationQueue, this`conversationBytes, this`written, this`dropped, this`failed,
               this`conversationWritten, this`conversationDropped, this`conversationFailed, this`rows, this`pairRows
      ensures Valid()
      ensures written == old(written) + t.written && dropped == old(dropped) + t.dropped
        && failed == old(failed) + t.failed
      ensures !connected ==> t == Totals(0, 0, 0) && queue == old(queue) && conversationQueue == old(conversationQueue)
      ensures connected && (forall i: nat :: writes(i).Commit?) ==>
        && t.dropped == 0 && |queue| + |conversationQueue| == 0
        && rows == old(rows + Stamps(queue)) && pairRows == old(pairRows + Stamps(conversationQueue))
    {
      hide Valid;
      ghost var smooth := connected && forall i: nat :: writes(i).Commit?;
      t := Totals(0, 0, 0);
      var i := 0;
      while |queue| > 0 || |conversationQueue| > 0
        invariant Valid()
        invariant written == old(written) + t.written && dropped == old(dropped) + t.dropped
          && failed == old(failed) + t.failed
        invariant !connected ==>
          t == Totals(0, 0, 0) && queue == old(queue) && conversationQueue == old(conversationQueue)
        invariant smooth ==> t.dropped == 0
        invariant smooth ==> rows + Stamps(queue) == old(rows + Stamps(queue))
        invariant smooth ==> pairRows + Stamps(conversationQueue) == old(pairRows + Stamps(conversationQueue))
        decreases |queue| + |conversationQueue|
      {
        var pending := |queue| + |conversationQueue|;
        var result := FlushRest(writes(i));
        i := i + 1;
        t := Totals(t.written + result.written, t.dropped + result.dropped, t.failed + result.failed);
        if |queue| + |conversationQueue| >= pending {
          break;
        }
      }
      if smooth {
        assert rows + Stamps(queue) == rows && pairRows + Stamps(conversationQueue) == pairRows;
      }
    }

    method DropRest() returns (lost: nat)
      requires Conserved() && WithinBudget() && InOrder()
      modifies this`queue, this`conversationQueue, this`conversationBytes, this`dropped, this`conversationDropped
      ensures Conserved() && WithinBudget() && InOrder()
      ensures queue == [] && conversationQueue == [] && lost == old(|queue| + |conversationQueue|)
      ensures dropped == old(dropped) + lost
        && conversationDropped == old(conversationDropped) + |old(conversationQueue)|
    {
      lost := |queue| + |conversationQueue|;
      dropped := dropped + |queue|;
      queue := [];
      conversationDropped := conversationDropped + |conversationQueue|;
      dropped := dropped + |conversationQueue|;
      conversationQueue, conversationBytes := [], 0;
    }

    /** A last drain; what it leaves is dropped and counted. */
    method Close(writes: nat -> Write) returns (t: Totals)
      requires Valid()
      modifies this
      ensures Valid() && calls == old(calls) && conversationCalls == old(conversationCalls)
      ensures written == old(written) + t.written && dropped == old(dropped) + t.dropped
        && failed == old(failed) + t.failed
      ensures old(closed || closing) ==>
        && t == Totals(0, 0, 0)
        && (queue, conversationQueue, rows, pairRows) == old((queue, conversationQueue, rows, pairRows))
      ensures !old(closed || closing) ==>
        && closed && !closing && !connected && |queue| + |conversationQueue| == 0
        && (old(connected) && (forall i: nat :: writes(i).Commit?) ==>
              && t.dropped == 0 && rows == old(rows + Stamps(queue))
              && pairRows == old(pairRows + Stamps(conversationQueue)))
        && (!old(connected) ==> t == Totals(0, |old(queue)| + |old(conversationQueue)|, 0))
    {
      hide WithinBudget;
      hide InOrder;
      hide Stamps;
      if closed || closing {
        return Totals(0, 0, 0);
      }
      closing := true;
      t := Drain(writes);
      connected, closed, closing := false, true, false;
      var rest := DropRest();
      t := t.(dropped := t.dropped + rest);
    }

    method CountStored(stores: nat -> bool, m: nat) returns (stored: nat)
      ensures stored == StoredCount(stores, m)
    {
      stored := 0;
      for i := 0 to m
        invariant stored == StoredCount(stores, i)
      {
        if stores(i) {
          stored := stored + 1;
        }
      }
    }
  }

  // ----- Sums, orders and slices -----

  lemma {:induction false} BytesAppend(a: seq<Entry>, b: seq<Entry>)
    ensures Bytes(a + b) == Bytes(a) + Bytes(b)
  {
    if a == [] {
      assert a + b == b;
    } else {
      BytesAppend(a[1..], b);
      assert (a + b)[1..] == a[1..] + b;
    }
  }

  lemma BytesSnoc(a: seq<Entry>, e: Entry)
    ensures Bytes(a + [e]) == Bytes(a) + e.bytes
  {
    BytesAppend(a, [e]);
    assert [e][1..] == [];
  }

  /** A retried batch is no larger than the batch. */
  lemma {:induction false} RetriedFits(batch: seq<Entry>)
    ensures Bytes(Retried(batch)) <= Bytes(batch)
  {
    if batch != [] {
      RetriedFits(batch[1..]);
      if batch[0].retries < MAX_RETRIES {
        assert Retried(batch)[1..] == Retried(batch[1..]);
      } else {
        assert Retried(batch) == Retried(batch[1..]);
      }
    }
  }

  /** The entry is the one at this place with one try more, and had one left. */
  predicate TriesAgain(batch: seq<Entry>, i: int, e: Entry) {
    0 <= i < |batch| && batch[i].retries < 3 && e == batch[i].(retries := batch[i].retries + 1)
  }

  /** Only the entries already retried three times are missing, and the others have one try more. */
  lemma {:induction false} RetriedExactly(batch: seq<Entry>, e: Entry)
    ensures e in Retried(batch) <==> exists i :: TriesAgain(batch, i, e)
  {
    if batch != [] {
      RetriedExactly(batch[1..], e);
      if e in Retried(batch[1..]) {
        var i :| TriesAgain(batch[1..], i, e);
        assert TriesAgain(batch, i + 1, e);
      } else if exists i :: TriesAgain(batch, i, e) {
        var i :| TriesAgain(batch, i, e);
        if i > 0 {
          assert TriesAgain(batch[1..], i - 1, e);
        }
      }
      if batch[0].retries < MAX_RETRIES && e == batch[0].(retries := batch[0].retries + 1) {
        assert TriesAgain(batch, 0, e);
      }
    }
  }

  lemma {:induction false} RetriedBounded(batch: seq<Entry>)
    ensures RetriesBounded(Retried(batch))
  {
    if batch != [] {
      RetriedBounded(batch[1..]);
    }
  }

  lemma OrderedTail(batch: seq<Entry>, low: nat, high: nat)
    requires batch != [] && Ordered(batch) && StampsWithin(batch, low, high)
    ensures Ordered(batch[1..]) && StampsWithin(batch[1..], batch[0].stamp + 1, high) && low <= batch[0].stamp < high
  {
  }

  lemma OrderedCons(e: Entry, rest: seq<Entry>, low: nat, high: nat)
    requires Ordered(rest) && StampsWithin(rest, e.stamp + 1, high) && low <= e.stamp < high
    ensures Ordered([e] + rest) && StampsWithin([e] + rest, low, high)
  {
  }

  lemma {:induction false} RetriedOrder(batch: seq<Entry>, low: nat, high: nat)
    requires Ordered(batch) && StampsWithin(batch, low, high)
    ensures Ordered(Retried(batch)) && StampsWithin(Retried(batch), low, high)
  {
    if batch != [] {
      OrderedTail(batch, low, high);
      RetriedOrder(batch[1..], batch[0].stamp + 1, high);
      if batch[0].retries < MAX_RETRIES {
        OrderedCons(batch[0].(retries := batch[0].retries + 1), Retried(batch[1..]), low, high);
      }
    }
  }

  /** The next row accepted goes to the end of the queue. */
  lemma FollowsArrival(done: seq<nat>, queue: seq<Entry>, enqueued: nat)
    requires Follows(done, queue, enqueued)
    ensures Follows(done, queue, enqueued + 1)
    ensures forall bytes: nat :: Follows(done, queue + [Entry(enqueued, 0, bytes)], enqueued + 1)
  {
  }

  lemma {:induction false} FollowsCommit(done: seq<nat>, batch: seq<Entry>, rest: seq<Entry>, enqueued: nat)
    requires Follows(done, batch + rest, enqueued)
    ensures Follows(done + Stamps(batch), rest, enqueued)
    decreases |batch|
  {
    if batch == [] {
      assert batch + rest == rest && done + Stamps(batch) == done;
    } else {
      assert batch + rest == [batch[0]] + (batch[1..] + rest);
      FollowsCommitOne(done, batch[0], batch[1..] + rest, enqueued);
      FollowsCommit(done + [batch[0].stamp], batch[1..], rest, enqueued);
      assert done + [batch[0].stamp] + Stamps(batch[1..]) == done + Stamps(batch);
    }
  }

  lemma FollowsCommitOne(done: seq<nat>, e: Entry, rest: seq<Entry>, enqueued: nat)
    requires Follows(done, [e] + rest, enqueued)
    ensures Follows(done + [e.stamp], rest, enqueued)
  {
    var queue := [e] + rest;
    assert queue[0] == e && forall i :: 0 <= i < |rest| ==> queue[1 + i] == rest[i];
    assert done != [] ==> done[|done| - 1] < e.stamp;
  }

  lemma FollowsDrop(done: seq<nat>, batch: seq<Entry>, rest: seq<Entry>, enqueued: nat)
    requires Follows(done, batch + rest, enqueued)
    ensures Follows(done, rest, enqueued) && Ordered(batch)
    ensures StampsWithin(batch, Next(done), if rest == [] then enqueued else rest[0].stamp)
  {
    var queue := batch + rest;
    assert forall i :: 0 <= i < |batch| ==> queue[i] == batch[i];
    assert forall i :: 0 <= i < |rest| ==> queue[|batch| + i] == rest[i];
  }

  lemma FollowsRetry(done: seq<nat>, batch: seq<Entry>, rest: seq<Entry>, enqueued: nat)
    requires Follows(done, batch + rest, enqueued)
    ensures Follows(done, Retried(batch) + rest, enqueued)
  {
    FollowsDrop(done, batch, rest, enqueued);
    RetriedOrder(batch, Next(done), if rest == [] then enqueued else rest[0].stamp);
  }

  lemma StampsSplit(done: seq<nat>, queue: seq<Entry>, n: nat)
    requires n <= |queue|
    ensures done + Stamps(queue) == (done + Stamps(queue[..n])) + Stamps(queue[n..])
  {
  }

  lemma BatchSplits(queue: seq<Entry>, n: nat)
    requires n <= |queue| && RetriesBounded(queue)
    ensures queue[..n] + queue[n..] == queue && RetriesBounded(queue[n..])
    ensures Bytes(queue) == Bytes(queue[..n]) + Bytes(queue[n..])
  {
    assert queue[..n] + queue[n..] == queue;
    BytesAppend(queue[..n], queue[n..]);
  }

  /** What goes back in front of the queue still follows what is written. */
  lemma BatchReturns(done: seq<nat>, batch: seq<Entry>, rest: seq<Entry>, enqueued: nat, transient: bool)
    requires Follows(done, batch + rest, enqueued) && RetriesBounded(rest)
    ensures var again := if transient then Retried(batch) else [];
      && Follows(done, again + rest, enqueued) && RetriesBounded(again + rest)
      && Bytes(again + rest) == Bytes(again) + Bytes(rest) && Bytes(again) <= Bytes(batch)
  {
    hide Follows;
    hide Retried;
    var again := if transient then Retried(batch) else [];
    BytesAppend(again, rest);
    RetriedFits(batch);
    RetriedBounded(batch);
    FollowsDrop(done, batch, rest, enqueued);
    FollowsRetry(done, batch, rest, enqueued);
    assert [] + rest == rest;
  }
}
