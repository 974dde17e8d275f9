/**
 * What a request sees of the accounts: the store, the usage readings, and what the tracker of
 * refusals and answers has kept of its history. What a request decides on these views is tied here
 * to the rule about that history.
 */
module FailoverViews {
  import opened Failover
  import opened Options
  import Q = QuotaExhaustion

  /** An account of the store, with what the caller says of it as a candidate. */
  datatype Account = Account(failover: Policy, provider: string, usable: bool, permitted: bool, accepted: bool)

  /** A usage reading: whether it shows the account, or the model family, used up, and when it was taken. */
  datatype Reading = Reading(exhausted: bool, takenAt: Option<int>, modelExhausted: bool)

  /** The history of the tracker, the readings and the clock at one moment. */
  datatype Moment = Moment(
    accountCalls: seq<Q.Call<string>>, modelCalls: seq<Q.Call<Q.ModelKey>>, answers: seq<Q.Answer>,
    readings: map<Id, Reading>, now: int)

  function ReadingOf(m: Moment, id: Id): Reading {
    if id in m.readings then m.readings[id] else Reading(false, None, false)
  }

  /** A reading is not believed once the account has answered after it; the empty family is none. */
  function StandingOf(a: Account, m: Moment, family: string, id: Id): Standing {
    var r := ReadingOf(m, id);
    Standing(a.failover, a.provider, a.usable, a.permitted, a.accepted,
             Q.InForce(Q.Cache(m.accountCalls), id, m.now),
             if family == "" then None else Q.InForce(Q.Cache(m.modelCalls), (id, family), m.now),
             r.exhausted && !(r.takenAt.Some? && Q.AnsweredLater(m.answers, id, r.takenAt.value)),
             family != "" && r.modelExhausted)
  }

  function ViewOf(store: map<Id, Account>, m: Moment, family: string): View {
    map id | id in store :: StandingOf(store[id], m, family, id)
  }

  ghost function MomentOf(t: Q.Tracker, readings: map<Id, Reading>, now: int): Moment
    reads t
  {
    Moment(t.accountCalls, t.modelCalls, t.answers, readings, now)
  }

  /** A view shows what the tracker holds. */
  lemma ViewShowsTracker(t: Q.Tracker, readings: map<Id, Reading>, now: int, a: Account, family: string, id: Id)
    requires t.Valid()
    ensures var m := MomentOf(t, readings, now); var s, r := StandingOf(a, m, family, id), ReadingOf(m, id);
      && s.refused == Q.InForce(t.accounts, id, now)
      && (family != "" ==> s.modelRefused == Q.InForce(t.models, (id, family), now))
      && s.usageDoubts == (r.exhausted && !(r.takenAt.Some? && t.SucceededSince(id, r.takenAt.value)))
      && s.modelDoubts == (family != "" && r.modelExhausted) && (family == "" ==> s.modelRefused.None?)
      && (if id in readings then r == readings[id] else !r.exhausted && !r.modelExhausted)
      && s.failover == a.failover && s.provider == a.provider
      && (s.usable, s.permitted, s.accepted) == (a.usable, a.permitted, a.accepted)
  {
  }

  // ----- By the rule -----

  /** The refusal that the history says is in force: of the account at one moment, or of the model at the next. */
  function RuleRefusal(first: Moment, second: Moment, family: string, id: Id): Option<Q.Refusal> {
    if Q.Rule(first.accountCalls, id, first.now) then Q.LastMark(first.accountCalls, id)
    else if family != "" && Q.Rule(second.modelCalls, (id, family), second.now) then
      Q.LastMark(second.modelCalls, (id, family))
    else None
  }

  predicate RefusedByRule(m: Moment, family: string, id: Id) {
    RuleRefusal(m, m, family, id).Some?
  }

  /** The clock did not run back, and fewer than 256 others were marked after a refusal that is in force. */
  ghost predicate Remembers(m: Moment, family: string, id: Id) {
    && Q.NotAfter(m.accountCalls, m.now) && Q.NotAfter(m.modelCalls, m.now)
    && (Q.Rule(m.accountCalls, id, m.now) ==> |Q.MarkedSince(m.accountCalls, id)| < Q.MAX_TRACKED)
    && (Q.Rule(m.modelCalls, (id, family), m.now) ==> |Q.MarkedSince(m.modelCalls, (id, family))| < Q.MAX_TRACKED)
  }

  /** What a view reports of refusals is in force by the rule; and where the tracker remembers, it reports them all. */
  lemma ViewAgrees(a: Account, m: Moment, family: string, id: Id)
    ensures var s := StandingOf(a, m, family, id);
      && (s.refused.Some? ==>
            && s.refused.value.until > m.now && Q.Rule(m.accountCalls, id, m.now)
            && Q.SameRefusal(s.refused.value, Q.LastMark(m.accountCalls, id).value))
      && (s.modelRefused.Some? ==>
            && s.modelRefused.value.until > m.now && family != "" && Q.Rule(m.modelCalls, (id, family), m.now)
            && Q.SameRefusal(s.modelRefused.value, Q.LastMark(m.modelCalls, (id, family)).value))
      && (Remembers(m, family, id) ==>
            && (s.refused.Some? <==> Q.Rule(m.accountCalls, id, m.now))
            && (s.modelRefused.Some? <==> family != "" && Q.Rule(m.modelCalls, (id, family), m.now)))
  {
    hide Q.Rule;
    hide Q.Cache;
    hide Q.NotAfter;
    Q.AgreesWithHistory(m.accountCalls, id, m.now);
    Q.AgreesWithHistory(m.modelCalls, (id, family), m.now);
  }

  /** A backup that could be asked by the store and the rule. */
  predicate CouldBeAsked(
    store: map<Id, Account>, m: Moment, family: string, home: Id, provider: string, tried: seq<Id>, id: Id)
  {
    && id != home && id !in tried && id in store
    && var a := store[id];
       a.provider == provider && a.usable && a.permitted && a.accepted && !RefusedByRule(m, family, id)
  }

  lemma EligibleByRule(
    store: map<Id, Account>, m: Moment, family: string, home: Id, provider: string, tried: seq<Id>, id: Id)
    ensures CouldBeAsked(store, m, family, home, provider, tried, id) ==>
      Eligible(ViewOf(store, m, family), home, provider, tried, id)
    ensures Eligible(ViewOf(store, m, family), home, provider, tried, id) && Remembers(m, family, id) ==>
      CouldBeAsked(store, m, family, home, provider, tried, id)
  {
    hide Remembers;
    hide Q.Cache;
    if id in store {
      ViewAgrees(store[id], m, family, id);
    }
  }

  // ----- Requests -----

  /** A refusal was the last one marked, was not cleared since and had not reset. */
  ghost predicate InForceByRule(r: Q.Refusal, first: Moment, second: Moment, family: string, id: Id) {
    || (r.until > first.now && Q.Rule(first.accountCalls, id, first.now)
        && Q.SameRefusal(r, Q.LastMark(first.accountCalls, id).value))
    || (r.until > second.now && family != "" && Q.Rule(second.modelCalls, (id, family), second.now)
        && Q.SameRefusal(r, Q.LastMark(second.modelCalls, (id, family)).value))
  }

  /** Whether the history has a refusal to answer the request with, and no backup that could be asked. */
  ghost predicate AnswersByRule(
    store: map<Id, Account>, first: Moment, second: Moment, later: Moment, family: string,
    home: Id, provider: string, policy: Policy, id: Id)
  {
    var r := RuleRefusal(first, second, family, id);
    && r.Some? && r.value.reply.Some?
    && (policy.enabled ==>
          forall backup :: backup in policy.chain ==> !CouldBeAsked(store, later, family, home, provider, [id], backup))
  }

  /** The tracker remembers what it takes to decide on the answer. */
  ghost predicate RemembersAll(first: Moment, second: Moment, later: Moment, family: string, policy: Policy, id: Id) {
    && Remembers(first, family, id) && Remembers(second, family, id)
    && forall backup :: backup in policy.chain ==> Remembers(later, family, backup)
  }

  /** Where a request starts on what the tracker has of its history; each reading has its own moment. */
  method Begin(device: Device, store: map<Id, Account>, family: string, moments: nat -> Moment)
    returns (attempt: Attempt)
    requires device.account in store
    ensures fresh(attempt) && attempt.Valid() && attempt.start in store
    ensures attempt.refusal.Some? ==>
      attempt.account == attempt.start
        && InForceByRule(attempt.refusal.value, moments(1), moments(2), family, attempt.start)
    ensures RemembersAll(moments(1), moments(2), moments(5), family, attempt.policy, attempt.start) ==>
      (attempt.refusal.Some? <==>
         AnswersByRule(store, moments(1), moments(2), moments(5), family, attempt.home, attempt.provider,
                       attempt.policy, attempt.start))
    ensures attempt.account != attempt.start ==> NotKnownRefused(moments(5), family, attempt.account)
  {
    hide StandingOf;
    var views := (k: nat) => ViewOf(store, moments(k), family);
    forall k: nat
      ensures views(k).Keys == store.Keys
    {
      assert views(k) == ViewOf(store, moments(k), family);
    }
    attempt := new Attempt(device, views);
    hide ViewOf;
    hide Eligible;
    hide NoneEligible;
    hide GoesHome;
    hide HomeOf;
    hide Refusal;
    RefusalAgrees(store, moments(1), moments(2), moments(5), family, attempt.home, attempt.provider, attempt.policy,
                  attempt.start, attempt.refusal);
    if attempt.account != attempt.start {
      BackupNotRefused(store, moments(5), family, attempt.home, attempt.provider, [attempt.start], attempt.account);
    }
  }

  lemma RefusalAgrees(
    store: map<Id, Account>, first: Moment, second: Moment, later: Moment, family: string,
    home: Id, provider: string, policy: Policy, id: Id, refusal: Option<Q.Refusal>)
    requires id in store
    requires
      var replay := Refusal(ViewOf(store, first, family)[id], ViewOf(store, second, family)[id]);
      && (refusal.Some? ==> refusal == replay)
      && (refusal.Some? <==>
            && replay.Some? && replay.value.reply.Some?
            && (policy.enabled ==> NoneEligible(ViewOf(store, later, family), home, provider, [id], policy.chain)))
    ensures refusal.Some? ==> InForceByRule(refusal.value, first, second, family, id)
    ensures RemembersAll(first, second, later, family, policy, id) ==>
      (refusal.Some? <==> AnswersByRule(store, first, second, later, family, home, provider, policy, id))
  {
    hide StandingOf;
    ViewAgrees(store[id], first, family, id);
    ViewAgrees(store[id], second, family, id);
    if RemembersAll(first, second, later, family, policy, id) {
      NobodyByRule(store, later, family, home, provider, [id], policy.chain);
    }
    hide NoneEligible;
    hide CouldBeAsked;
    hide Remembers;
  }

  lemma NobodyByRule(
    store: map<Id, Account>, m: Moment, family: string, home: Id, provider: string, tried: seq<Id>, chain: seq<Id>)
    requires forall id :: id in chain ==> Remembers(m, family, id)
    ensures NoneEligible(ViewOf(store, m, family), home, provider, tried, chain) <==>
      forall id :: id in chain ==> !CouldBeAsked(store, m, family, home, provider, tried, id)
  {
    forall id | id in chain
      ensures Eligible(ViewOf(store, m, family), home, provider, tried, id) <==>
        CouldBeAsked(store, m, family, home, provider, tried, id)
    {
      EligibleByRule(store, m, family, home, provider, tried, id);
    }
  }

  /** With a clock that does not run back, a refusal in force was crowded out by 256 others. */
  ghost predicate NotKnownRefused(m: Moment, family: string, id: Id) {
    && (Q.NotAfter(m.accountCalls, m.now) && Q.Rule(m.accountCalls, id, m.now) ==>
          |Q.MarkedSince(m.accountCalls, id)| >= Q.MAX_TRACKED)
    && (family != "" && Q.NotAfter(m.modelCalls, m.now) && Q.Rule(m.modelCalls, (id, family), m.now) ==>
          |Q.MarkedSince(m.modelCalls, (id, family))| >= Q.MAX_TRACKED)
  }

  lemma BackupNotRefused(
    store: map<Id, Account>, m: Moment, family: string, home: Id, provider: string, tried: seq<Id>, id: Id)
    requires Eligible(ViewOf(store, m, family), home, provider, tried, id)
    ensures id in store && NotKnownRefused(m, family, id)
  {
    Q.AgreesWithHistory(m.accountCalls, id, m.now);
    Q.AgreesWithHistory(m.modelCalls, (id, family), m.now);
  }

  /** A backup handed out is not refused at that moment, unless 256 others were marked since. */
  method Backup(attempt: Attempt, store: map<Id, Account>, family: string, m: Moment, lastResort: bool)
    returns (backup: Option<Id>)
    requires attempt.Valid()
    modifies attempt`tried
    ensures attempt.Valid()
    ensures backup.Some? ==>
      && attempt.tried == old(attempt.tried) + [backup.value] && backup.value !in old(attempt.tried)
      && backup.value in attempt.policy.chain && backup.value != attempt.home
      && backup.value in store && store[backup.value].usable && store[backup.value].provider == attempt.provider
      && NotKnownRefused(m, family, backup.value)
    ensures backup.None? && lastResort && attempt.policy.enabled ==>
      attempt.tried == old(attempt.tried)
      && forall id :: id in attempt.policy.chain ==>
           !CouldBeAsked(store, m, family, attempt.home, attempt.provider, attempt.tried, id)
  {
    backup := attempt.NextBackup(ViewOf(store, m, family), lastResort);
    if backup.Some? {
      BackupNotRefused(store, m, family, attempt.home, attempt.provider, old(attempt.tried), backup.value);
    } else if lastResort && attempt.policy.enabled {
      forall id | id in attempt.policy.chain
        ensures !CouldBeAsked(store, m, family, attempt.home, attempt.provider, attempt.tried, id)
      {
        EligibleByRule(store, m, family, attempt.home, attempt.provider, attempt.tried, id);
      }
    }
  }
}
