/**
 * Which backup a refused request moves to: an ordered chain, what the store and the refusal
 * cache say about each account at the time, and the accounts this request has tried.
 */
module Failover {
  import opened Options
  import Q = QuotaExhaustion

  const MAX_BACKUPS: nat := 8

  type Id = string

  // ----- The stored policy -----

  predicate ValidId(id: Id) {
    0 < |id| <= 128
  }

  /** Where an id is first in the list, or behind its end. */
  function FirstAt(ids: seq<Id>, id: Id): (i: nat)
    ensures i <= |ids| && (i < |ids| <==> id in ids) && (i < |ids| ==> ids[i] == id)
    ensures forall k :: 0 <= k < i ==> ids[k] != id
  {
    if ids == [] then 0
    else
      var init := ids[..|ids| - 1];
      assert ids == init + [ids[|ids| - 1]];
      if id in init then FirstAt(init, id) else if ids[|ids| - 1] == id then |ids| - 1 else |ids|
  }

  ghost predicate InListOrder(ids: seq<Id>, chain: seq<Id>) {
    forall i, j :: 0 <= i < j < |chain| ==> FirstAt(ids, chain[i]) < FirstAt(ids, chain[j])
  }

  /** A valid id that is left out comes behind all that are taken. */
  ghost predicate TakesEarliest(ids: seq<Id>, chain: seq<Id>) {
    forall id, other :: id in chain && other in ids && ValidId(other) && other !in chain ==>
      FirstAt(ids, id) < FirstAt(ids, other)
  }

  /** The first eight distinct valid ids, in the order of the list (`ChainIsFirstEight`). */
  function NormalizeIds(ids: seq<Id>): (chain: seq<Id>)
    ensures |chain| <= MAX_BACKUPS && forall i, j :: 0 <= i < j < |chain| ==> chain[i] != chain[j]
    ensures forall id :: id in chain ==> id in ids && ValidId(id)
    ensures |chain| < MAX_BACKUPS ==> forall id :: id in ids && ValidId(id) ==> id in chain
  {
    if ids == [] then []
    else
      var rest, last := NormalizeIds(ids[..|ids| - 1]), ids[|ids| - 1];
      assert ids == ids[..|ids| - 1] + [last];
      if ValidId(last) && last !in rest && |rest| < MAX_BACKUPS then rest + [last] else rest
  }

  lemma FirstAtSnoc(init: seq<Id>, last: Id)
    ensures forall id :: id in init ==> FirstAt(init + [last], id) == FirstAt(init, id) < |init|
    ensures last !in init ==> FirstAt(init + [last], last) == |init|
  {
    assert (init + [last])[..|init|] == init;
  }

  lemma OrderGrows(init: seq<Id>, last: Id, rest: seq<Id>)
    requires InListOrder(init, rest) && forall k :: 0 <= k < |rest| ==> rest[k] in init
    ensures InListOrder(init + [last], rest)
    ensures last !in init ==> InListOrder(init + [last], rest + [last])
  {
    FirstAtSnoc(init, last);
    hide FirstAt;
  }

  lemma EarliestGrows(init: seq<Id>, last: Id, rest: seq<Id>)
    requires TakesEarliest(init, rest) && forall id :: id in rest ==> id in init
    requires |rest| < MAX_BACKUPS ==> forall id :: id in init && ValidId(id) ==> id in rest
    ensures TakesEarliest(
              init + [last], if ValidId(last) && last !in init && |rest| < MAX_BACKUPS then rest + [last] else rest)
  {
    FirstAtSnoc(init, last);
    hide FirstAt;
    hide ValidId;
    assert forall id :: id in init + [last] ==> id in init || id == last;
  }

  /** The chain keeps the order of the list, and takes of its valid ids those that come first. */
  lemma {:induction false} ChainIsFirstEight(ids: seq<Id>)
    ensures InListOrder(ids, NormalizeIds(ids)) && TakesEarliest(ids, NormalizeIds(ids))
    ensures |NormalizeIds(ids)| <= 8
    ensures |NormalizeIds(ids)| < 8 ==> forall id :: id in ids && 0 < |id| <= 128 ==> id in NormalizeIds(ids)
  {
    if ids != [] {
      var init, last := ids[..|ids| - 1], ids[|ids| - 1];
      var rest := NormalizeIds(init);
      ChainIsFirstEight(init);
      assert ids == init + [last];
      OrderGrows(init, last, rest);
      EarliestGrows(init, last, rest);
      assert NormalizeIds(ids) ==
        if ValidId(last) && last !in init && |rest| < MAX_BACKUPS then rest + [last] else rest;
    }
  }

  /** A longer list only adds behind what is there. */
  lemma {:induction false} NormalizePrefix(ids: seq<Id>, n: nat)
    requires n <= |ids|
    ensures NormalizeIds(ids[..n]) <= NormalizeIds(ids)
    ensures |NormalizeIds(ids[..n])| == MAX_BACKUPS ==> NormalizeIds(ids[..n]) == NormalizeIds(ids)
  {
    if n < |ids| {
      NormalizePrefix(ids[..|ids| - 1], n);
      assert ids[..|ids| - 1][..n] == ids[..n];
    } else {
      assert ids[..n] == ids;
    }
  }

  datatype Policy = Policy(enabled: bool, chain: seq<Id>)

  method NormalizeAccountFailover(enabled: bool, ids: seq<Id>) returns (p: Policy)
    ensures p == Policy(enabled, NormalizeIds(ids))
  {
    var chain: seq<Id> := [];
    for i := 0 to |ids|
      invariant chain == NormalizeIds(ids[..i]) && |chain| < MAX_BACKUPS
    {
      assert ids[..i + 1][..i] == ids[..i];
      if !ValidId(ids[i]) || ids[i] in chain {
        continue;
      }
      chain := chain + [ids[i]];
      if |chain| == MAX_BACKUPS {
        NormalizePrefix(ids, i + 1);
        return Policy(enabled, chain);
      }
    }
    assert ids[..|ids|] == ids;
    return Policy(enabled, chain);
  }

  // ----- What is known of an account at one moment -----

  /** `refused` and `modelRefused` are what the cache reports, `usageDoubts` what the readings do (`FailoverViews`). */
  datatype Standing = Standing(
    failover: Policy, provider: string, usable: bool, permitted: bool, accepted: bool,
    refused: Option<Q.Refusal>, modelRefused: Option<Q.Refusal>, usageDoubts: bool, modelDoubts: bool)
  {
    predicate KnownExhausted() {
      refused.Some? || usageDoubts
    }
  }

  /** The store, the readings and the refusal cache at one moment; accounts that are gone are absent. */
  type View = map<Id, Standing>

  /** A backup that could be asked: usable, of the same provider, not tried and not refused by the upstream. */
  predicate Eligible(view: View, home: Id, provider: string, tried: seq<Id>, id: Id) {
    && id != home && id !in tried && id in view
    && var s := view[id];
       s.provider == provider && s.usable && s.permitted && s.accepted && s.refused.None? && s.modelRefused.None?
  }

  /** A backup believed usable. */
  predicate Believed(view: View, home: Id, provider: string, tried: seq<Id>, id: Id) {
    && Eligible(view, home, provider, tried, id)
    && view[id].refused.None? && !view[id].usageDoubts && !view[id].modelDoubts
  }

  predicate NoneBelieved(view: View, home: Id, provider: string, tried: seq<Id>, chain: seq<Id>) {
    forall id :: id in chain ==> !Believed(view, home, provider, tried, id)
  }

  predicate NoneEligible(view: View, home: Id, provider: string, tried: seq<Id>, chain: seq<Id>) {
    forall id :: id in chain ==> !Eligible(view, home, provider, tried, id)
  }

  /** The choice stands at `k`, and nothing better stands before it. */
  ghost predicate First(chain: seq<Id>, home: Id, provider: string, tried: seq<Id>, view: View, lastResort: bool,
                        choice: Id, k: nat)
  {
    && k < |chain| && chain[k] == choice && Eligible(view, home, provider, tried, choice)
    && if Believed(view, home, provider, tried, choice) then
         forall j :: 0 <= j < k ==> !Believed(view, home, provider, tried, chain[j])
       else
         && lastResort && NoneBelieved(view, home, provider, tried, chain)
         && forall j :: 0 <= j < k ==> !Eligible(view, home, provider, tried, chain[j])
  }

  /** The backup to ask next. */
  ghost predicate IsNext(chain: seq<Id>, home: Id, provider: string, tried: seq<Id>, view: View, lastResort: bool,
                         choice: Id)
  {
    exists k :: First(chain, home, provider, tried, view, lastResort, choice, k)
  }

  /** The first of the chain believed usable; failing that, if wanted, the first that could be asked. */
  method ChooseFailoverAccount(policy: Policy, home: Id, provider: string, tried: seq<Id>, view: View, lastResort: bool)
    returns (choice: Option<Id>)
    ensures choice.Some? ==>
      policy.enabled && IsNext(policy.chain, home, provider, tried, view, lastResort, choice.value)
    ensures choice.None? <==>
      || !policy.enabled
      || (NoneBelieved(view, home, provider, tried, policy.chain)
          && (lastResort ==> NoneEligible(view, home, provider, tried, policy.chain)))
  {
    if !policy.enabled {
      return None;
    }
    var doubted: Option<nat> := None;
    for i := 0 to |policy.chain|
      invariant forall j :: 0 <= j < i ==> !Believed(view, home, provider, tried, policy.chain[j])
      invariant doubted.None? ==> forall j :: 0 <= j < i ==> !Eligible(view, home, provider, tried, policy.chain[j])
      invariant doubted.Some? ==>
        && doubted.value < i && Eligible(view, home, provider, tried, policy.chain[doubted.value])
        && forall j :: 0 <= j < doubted.value ==> !Eligible(view, home, provider, tried, policy.chain[j])
    {
      var id := policy.chain[i];
      if id == home || id in tried || id !in view {
        continue;
      }
      var s := view[id];
      if s.provider != provider || !s.usable || !s.permitted || !s.accepted {
        continue;
      }
      if s.refused.Some? || s.modelRefused.Some? {
        continue;
      }
      if s.KnownExhausted() || s.modelDoubts {
        if doubted.None? {
          doubted := Some(i);
        }
        continue;
      }
      assert First(policy.chain, home, provider, tried, view, lastResort, id, i);
      return Some(id);
    }
    assert doubted.Some? && lastResort ==>
        First(policy.chain, home, provider, tried, view, lastResort, policy.chain[doubted.value], doubted.value);
    return if lastResort && doubted.Some? then Some(policy.chain[doubted.value]) else None;
  }

  // ----- One request -----

  /** The device: the account it is on, and the move the gateway made, if it made one. */
  datatype Device = Device(account: Id, movedTo: Option<Id>, movedFrom: Id)

  /** One request's choice of accounts. */
  class Attempt {
    const provider: string
    const home: Id
    const policy: Policy
    /** The account the request starts on, before a preflight move. */
    const start: Id

    var tried: seq<Id>
    var account: Id
    var failedOverFrom: Option<Id>
    var accountWide: bool
    var preflight: bool
    /** The cached refusal that answers the request instead of the upstream. */
    var refusal: Option<Q.Refusal>

    ghost predicate Valid()
      reads this
    {
      && |policy.chain| <= MAX_BACKUPS
      && start in tried && account in tried
      && (forall i, j :: 0 <= i < j < |tried| ==> tried[i] != tried[j])
      && (forall id :: id in tried && id != start ==> id in policy.chain && id != home)
    }

    /**
     * Where a request starts. A moved device goes home if its home is usable and not exhausted; an
     * exhausted account is left for a backup at once; and a refusal the cache kept is the answer
     * when the request would only collect it again. Each reading has its own view, as time goes on
     * between them, but the store keeps its accounts.
     */
    constructor (device: Device, views: nat -> View)
      requires device.account in views(0) && forall k: nat :: views(k).Keys == views(0).Keys
      ensures Valid()
      ensures home == HomeOf(device, views(0)) && provider == views(0)[device.account].provider
      ensures
        if device.movedTo == Some(device.account) && device.movedFrom in views(0)
           && views(0)[device.movedFrom].provider == provider
        then home == device.movedFrom else home == device.account
      ensures policy == Policy(views(0)[home].failover.enabled, NormalizeIds(views(0)[home].failover.chain))
      ensures
        if device.movedTo == Some(device.account) && home == device.movedFrom && MayReturn(views(0)[home])
        then start == home else start == device.account
      ensures
        var replay := Refusal(views(1)[start], views(2)[start]);
        refusal.Some? <==>
          && replay.Some? && replay.value.reply.Some?
          && (policy.enabled ==> NoneEligible(views(5), home, provider, [start], policy.chain))
      ensures refusal.Some? ==> account == start && refusal == Refusal(views(1)[start], views(2)[start])
      ensures
        var first, third := views(1)[start], views(3)[start];
        Begun(first.refused, views(2)[start].modelRefused, third.refused.Some? || third.usageDoubts,
              views(4)[start].modelDoubts, views(5))
    {
      var view := views(0);
      var current := if GoesHome(device, view) then device.movedFrom else device.account;
      var h := HomeOf(device, view);
      provider, home, start := view[device.account].provider, h, current;
      policy := Policy(view[h].failover.enabled, NormalizeIds(view[h].failover.chain));
      tried, account, failedOverFrom, accountWide, preflight, refusal := [current], current, None, false, false, None;
      new;
      assert forall k: nat :: current in views(k).Keys;
      hide NoneEligible;
      Preflight(views(1)[current].refused, views(2)[current].modelRefused, views(3)[current].KnownExhausted(),
                views(4)[current].modelDoubts, views(5));
    }

    /** Where a request begins: the start is left exactly when a backup is wanted and there is one. */
    ghost predicate Begun(refused: Option<Q.Refusal>, refusedForModel: Option<Q.Refusal>, known: bool,
                          modelDoubts: bool, view: View)
      reads this
    {
      var certain := refused.Some? || refusedForModel.Some?;
      var there := if certain then !NoneEligible(view, home, provider, [start], policy.chain)
                   else !NoneBelieved(view, home, provider, [start], policy.chain);
      && (account != start <==> policy.enabled && (certain || known || modelDoubts) && there)
      && (account != start ==> IsNext(policy.chain, home, provider, [start], view, certain, account))
      && tried == (if account != start then [start, account] else [start])
      && preflight == (account != start) && accountWide == (account != start && (refused.Some? || known))
      && failedOverFrom == if account != start then Some(start) else None
    }

    /** An exhausted account is left for a backup; a kept refusal answers a request that stays. */
    method Preflight(refused: Option<Q.Refusal>, refusedForModel: Option<Q.Refusal>, known: bool, modelDoubts: bool,
        view: View)
      requires Valid() && account == start && tried == [start] && !preflight && !accountWide && refusal.None?
      requires failedOverFrom.None?
      modifies this
      ensures Valid() && Begun(refused, refusedForModel, known, modelDoubts, view)
      ensures
        var replay := if refused.Some? then refused else refusedForModel;
        refusal == if replay.Some? && replay.value.reply.Some?
                      && (policy.enabled ==> NoneEligible(view, home, provider, [start], policy.chain))
                   then replay else None
      ensures refusal.Some? ==> account == start
    {
      BelievedIsEligible(view, [start]);
      hide NoneEligible;
      hide NoneBelieved;
      hide Eligible;
      hide IsNext;
      var accountDoubted := refused.Some? || known;
      var modelDoubted := refusedForModel.Some? || modelDoubts;
      if policy.enabled && (accountDoubted || modelDoubted) {
        var backup := NextBackup(view, refused.Some? || refusedForModel.Some?);
        if backup.Some? {
          Suits(view, [start], backup.value);
          MoveTo(backup.value, accountDoubted);
          preflight := true;
        }
      }
      var replay := if refused.Some? then refused else refusedForModel;
      if replay.Some? && replay.value.reply.Some? && account == start {
        refusal := replay;
      }
    }

    lemma BelievedIsEligible(view: View, before: seq<Id>)
      ensures NoneEligible(view, home, provider, before, policy.chain) ==>
        NoneBelieved(view, home, provider, before, policy.chain)
    {
    }

    lemma Suits(view: View, before: seq<Id>, id: Id)
      requires id in policy.chain && Eligible(view, home, provider, before, id)
      ensures !NoneEligible(view, home, provider, before, policy.chain)
    {
    }

    /** Hands out a backup that was not tried yet, and notes it as tried. */
    method NextBackup(view: View, lastResort: bool) returns (backup: Option<Id>)
      requires Valid()
      modifies this`tried
      ensures Valid()
      ensures backup.None? ==> tried == old(tried)
      ensures backup.Some? ==>
        && tried == old(tried) + [backup.value] && backup.value !in old(tried)
        && backup.value in policy.chain && backup.value != home && backup.value != start
        && Eligible(view, home, provider, old(tried), backup.value)
        && IsNext(policy.chain, home, provider, old(tried), view, lastResort, backup.value)
      ensures backup.None? <==>
        || !policy.enabled
        || (NoneBelieved(view, home, provider, old(tried), policy.chain)
            && (lastResort ==> NoneEligible(view, home, provider, old(tried), policy.chain)))
    {
      backup := ChooseFailoverAccount(policy, home, provider, tried, view, lastResort);
      if backup.Some? {
        tried := tried + [backup.value];
      }
    }

    method MoveTo(backup: Id, wide: bool)
      requires Valid() && backup in tried
      modifies this`failedOverFrom, this`accountWide, this`account
      ensures Valid() && account == backup && accountWide == (old(accountWide) || wide)
      ensures failedOverFrom == if old(failedOverFrom).Some? then old(failedOverFrom) else Some(old(account))
    {
      if failedOverFrom.None? {
        failedOverFrom := Some(account);
      }
      accountWide := accountWide || wide;
      account := backup;
    }
  }

  /**
   * The account whose chain governs: the one a moved device came from, if it is still there and of
   * the same provider.
   */
  function HomeOf(device: Device, view: View): (id: Id)
    requires device.account in view
    ensures id in view
  {
    if device.movedTo == Some(device.account) && device.movedFrom in view
       && view[device.movedFrom].provider == view[device.account].provider
    then device.movedFrom
    else device.account
  }

  /** The refusal that answers a request: of the account at one moment, failing that of the model at the next. */
  function Refusal(first: Standing, second: Standing): Option<Q.Refusal> {
    if first.refused.Some? then first.refused else second.modelRefused
  }

  /** An account that a device may return to: usable, permitted and not known to be exhausted. */
  predicate MayReturn(s: Standing) {
    s.usable && s.permitted && s.refused.None? && !s.usageDoubts
  }

  predicate GoesHome(device: Device, view: View)
    requires device.account in view
  {
    && device.movedTo == Some(device.account) && HomeOf(device, view) == device.movedFrom && device.movedFrom in view
    && view[device.movedFrom].usable && view[device.movedFrom].permitted && !view[device.movedFrom].KnownExhausted()
  }

  /** What was handed out since `before` is distinct and of the chain, so it is no more than the chain. */
  lemma HandedOut(attempt: Attempt, before: seq<Id>, handed: seq<Id>)
    requires attempt.Valid() && attempt.start in before && attempt.tried == before + handed
    ensures |handed| <= |attempt.policy.chain|
    ensures forall i, j :: 0 <= i < j < |handed| ==> handed[i] != handed[j]
    ensures forall id :: id in handed ==>
      id in attempt.policy.chain && id != attempt.home && id != attempt.start && id !in before
  {
    var tried := attempt.tried;
    assert forall i :: 0 <= i < |handed| ==> tried[|before| + i] == handed[i];
    assert forall i :: 0 <= i < |before| ==> tried[i] == before[i];
    forall i, j | 0 <= i < j < |handed|
      ensures handed[i] != handed[j]
    {
      assert tried[|before| + i] != tried[|before| + j];
    }
    Pigeons(handed, attempt.policy.chain);
  }

  /** Asks for backups as long as there is one, under whatever the world is at each call. */
  method Exhaust(attempt: Attempt, views: nat -> View, lastResorts: nat -> bool) returns (handed: seq<Id>)
    requires attempt.Valid()
    modifies attempt
    ensures attempt.Valid() && |handed| <= |attempt.policy.chain|
    ensures forall i, j :: 0 <= i < j < |handed| ==> handed[i] != handed[j]
    ensures forall id :: id in handed ==>
      id in attempt.policy.chain && id != attempt.home && id != attempt.start && id !in old(attempt.tried)
  {
    handed := [];
    var backup := attempt.NextBackup(views(0), lastResorts(0));
    while backup.Some?
      invariant attempt.Valid() && attempt.start in old(attempt.tried)
      invariant attempt.tried == old(attempt.tried) + (handed + if backup.Some? then [backup.value] else [])
      decreases |attempt.policy.chain| - |handed|
    {
      handed := handed + [backup.value];
      HandedOut(attempt, old(attempt.tried), handed);
      backup := attempt.NextBackup(views(|handed|), lastResorts(|handed|));
    }
    HandedOut(attempt, old(attempt.tried), handed);
  }

  lemma {:induction false} Pigeons(handed: seq<Id>, chain: seq<Id>)
    requires forall i, j :: 0 <= i < j < |handed| ==> handed[i] != handed[j]
    requires forall id :: id in handed ==> id in chain
    ensures |handed| <= |chain|
  {
    var a, b := set id | id in handed, set id | id in chain;
    SetSize(handed);
    ListSize(chain);
    assert a <= b;
    assert |a| <= |b| by {
      assert b == a + (b - a);
    }
  }

  lemma {:induction false} SetSize(ids: seq<Id>)
    requires forall i, j :: 0 <= i < j < |ids| ==> ids[i] != ids[j]
    ensures |set id | id in ids| == |ids|
  {
    if ids != [] {
      var init, last := ids[..|ids| - 1], ids[|ids| - 1];
      SetSize(init);
      assert ids == init + [last];
      assert (set id | id in ids) == (set id | id in init) + {last};
    }
  }

  lemma {:induction false} ListSize(ids: seq<Id>)
    ensures |set id | id in ids| <= |ids|
  {
    if ids != [] {
      var init, last := ids[..|ids| - 1], ids[|ids| - 1];
      ListSize(init);
      assert ids == init + [last];
      assert (set id | id in ids) == (set id | id in init) + {last};
    }
  }
}
