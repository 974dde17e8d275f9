/**
 * The upstream sends of one proxied Claude request: the first one streams the upload, overload
 * answers are retried, and quota and burst refusals move to a backup with a replay of the whole
 * upload. Whatever the upstream answers, this ends.
 */
module ProxyAttempts {
  import opened ByteStrings
  import opened Failover
  import opened Incremental
  import opened Options

  const MAX_UPSTREAM_ATTEMPTS: nat := 3
  const MAX_FAILOVERS: nat := 8

  type Token = string

  /** One request to the upstream; without a buffered body the upload is streamed to it. */
  datatype Send = Send(account: Id, token: Token, body: Option<Bytes>)

  /** What an answer's status and rate-limit headers amount to. */
  datatype Answer = QuotaRefused(accountWide: bool) | BurstLimited | Overloaded | Final

  /** Where the request is: at the upstream, waiting to be sent again, or with nothing left to send. */
  datatype Phase = InFlight | AwaitsUpload | AwaitsRetry | Settled

  /** The account credentials that can be read at one moment. */
  type Credentials = map<Id, Token>

  /** The account and its token could be read at some moment. */
  ghost predicate ReadFrom(credentials: nat -> Credentials, read: (Id, Token)) {
    exists k: nat :: read.0 in credentials(k) && credentials(k)[read.0] == read.1
  }

  /** The accounts were asked in turn: each was next at its moment, and none could be read. */
  ghost predicate Passed(f: Attempt, tried: seq<Id>, asked: seq<Id>, views: nat -> View,
                         credentials: nat -> Credentials)
  {
    forall i: nat :: i < |asked| ==>
      IsNext(f.policy.chain, f.home, f.provider, tried + asked[..i], views(i), true, asked[i])
      && asked[i] !in credentials(i)
  }

  /**
   * A search that asked these accounts in turn. None could be read but the last, if one was found;
   * if none was found, nobody is left to ask.
   */
  ghost predicate Searched(f: Attempt, tried: seq<Id>, asked: seq<Id>, views: nat -> View,
                           credentials: nat -> Credentials, found: Option<(Id, Token)>)
  {
    match found
    case Some((id, token)) =>
      var k := |asked| - 1;
      && asked != [] && asked[k] == id && Passed(f, tried, asked[..k], views, credentials)
      && IsNext(f.policy.chain, f.home, f.provider, tried + asked[..k], views(k), true, id)
      && id in credentials(k) && credentials(k)[id] == token
    case None =>
      && Passed(f, tried, asked, views, credentials)
      && NoneEligible(views(|asked|), f.home, f.provider, tried + asked, f.policy.chain)
  }

  lemma PassedOn(f: Attempt, tried: seq<Id>, asked: seq<Id>, id: Id, views: nat -> View,
      credentials: nat -> Credentials)
    requires Passed(f, tried, asked, views, credentials) && id !in credentials(|asked|)
    requires IsNext(f.policy.chain, f.home, f.provider, tried + asked, views(|asked|), true, id)
    ensures Passed(f, tried, asked + [id], views, credentials)
  {
    hide IsNext;
    var all := asked + [id];
    assert forall i: nat :: i <= |asked| ==> all[..i] == if i == |asked| then asked else asked[..i];
    assert asked[..|asked|] == asked;
  }

  lemma FoundOne(f: Attempt, tried: seq<Id>, asked: seq<Id>, id: Id, views: nat -> View,
      credentials: nat -> Credentials)
    requires Passed(f, tried, asked, views, credentials) && id in credentials(|asked|)
    requires IsNext(f.policy.chain, f.home, f.provider, tried + asked, views(|asked|), true, id)
    ensures Searched(f, tried, asked + [id], views, credentials, Some((id, credentials(|asked|)[id])))
  {
    hide IsNext;
    hide Passed;
    assert (asked + [id])[..|asked|] == asked;
  }

  lemma FoundNone(f: Attempt, tried: seq<Id>, asked: seq<Id>, views: nat -> View, credentials: nat -> Credentials)
    requires Passed(f, tried, asked, views, credentials)
    requires NoneEligible(views(|asked|), f.home, f.provider, tried + asked, f.policy.chain)
    ensures Searched(f, tried, asked, views, credentials, None)
  {
  }

  lemma TailOf(tried: seq<Id>, asked: seq<Id>)
    ensures tried <= tried + asked && (tried + asked)[|tried|..] == asked && tried + [] == tried
  {
  }

  lemma AskedOneMore(tried: seq<Id>, asked: seq<Id>, id: Id)
    ensures tried + asked + [id] == tried + (asked + [id]) && |asked + [id]| == |asked| + 1
    ensures (tried + asked + [id])[|tried|..] == asked + [id] && tried <= tried + asked + [id]
  {
  }

  /** At every moment the account could be asked, and its credential read. */
  ghost predicate AlwaysReady(f: Attempt, tried: seq<Id>, views: nat -> View, credentials: nat -> Credentials, id: Id) {
    && id in f.policy.chain
    && forall k: nat :: Eligible(views(k), f.home, f.provider, tried, id) && id in credentials(k)
  }

  lemma NoneLeftIsAsked(f: Attempt, tried: seq<Id>, asked: seq<Id>, view: View, id: Id)
    requires NoneEligible(view, f.home, f.provider, tried + asked, f.policy.chain)
    requires id in f.policy.chain && Eligible(view, f.home, f.provider, tried, id)
    ensures id in asked
  {
  }

  /** A backup that is always ready is not missed. */
  lemma ReadyIsFound(f: Attempt, tried: seq<Id>, asked: seq<Id>, views: nat -> View, credentials: nat -> Credentials,
      found: Option<(Id, Token)>, id: Id)
    requires Searched(f, tried, asked, views, credentials, found) && AlwaysReady(f, tried, views, credentials, id)
    ensures found.Some?
  {
    hide Eligible;
    if found.None? {
      NoneLeftIsAsked(f, tried, asked, views(|asked|), id);
    }
  }

  class Exchange {
    const failover: Attempt

    var account: Id
    var authorization: Token
    var bodyChunks: seq<Bytes>
    var requestBodyFinished: bool
    var attemptsUsed: nat
    var failoversUsed: nat
    var phase: Phase
    /** The client is gone, or the outcome is recorded: nothing is sent any more. */
    var clientAborted: bool
    var metricFinalized: bool
    /** What the request in flight was sent with, if not with the stream, and what a retry sends. */
    var bodyBuffer: Option<Bytes>
    var retryBody: Bytes

    ghost var sends: seq<Send>
    ghost var retriesUsed: nat
    /** Every credential that was read, with its account. */
    ghost var credentialsRead: set<(Id, Token)>

    /** A send that was decided on and has not been made is counted among the retries and failovers. */
    ghost predicate Bounded()
      reads this
    {
      && attemptsUsed == |sends| && retriesUsed < MAX_UPSTREAM_ATTEMPTS && failoversUsed <= MAX_FAILOVERS
      && match phase
         case InFlight => attemptsUsed == 1 + retriesUsed + failoversUsed
         case Settled => attemptsUsed <= 1 + retriesUsed + failoversUsed
         case _ => attemptsUsed == retriesUsed + failoversUsed
    }

    /** What is sent after the first send is the whole upload, with the credential of its account. */
    ghost predicate Faithful()
      reads this`account, this`authorization, this`credentialsRead, this`sends, this`requestBodyFinished,
            this`bodyChunks, this`bodyBuffer
    {
      && (account, authorization) in credentialsRead
      && (forall i :: 0 <= i < |sends| ==> (sends[i].account, sends[i].token) in credentialsRead)
      && 0 < |sends| && sends[0].body.None? && (1 < |sends| ==> requestBodyFinished)
      && (forall i :: 1 <= i < |sends| ==> sends[i].body == Some(Concat(bodyChunks)))
      && (bodyBuffer.Some? ==> requestBodyFinished && bodyBuffer.value == Concat(bodyChunks))
    }

    ghost predicate Valid()
      reads this, failover
    {
      && Bounded() && Faithful() && failover.Valid() && account in failover.tried
      && (phase.AwaitsRetry? ==> requestBodyFinished && retryBody == Concat(bodyChunks))
      && (phase.AwaitsUpload? ==> !requestBodyFinished)
    }

    /** How many more retries and failovers there can be. */
    ghost function Budget(): nat
      reads this
      requires Bounded()
    {
      MAX_UPSTREAM_ATTEMPTS - 1 - retriesUsed + (MAX_FAILOVERS - failoversUsed)
    }

    /**
     * Sends the request with the credential of the account it starts on; the upload streams to it.
     * Only a message, not a count of tokens, is answered with a cached refusal instead.
     */
    constructor (failover: Attempt, credentials: Credentials, ghost isMessage: bool)
      requires failover.Valid() && failover.account in credentials && !(isMessage && failover.refusal.Some?)
      ensures Valid() && this.failover == failover && phase.InFlight? && !requestBodyFinished && bodyChunks == []
      ensures sends == [Send(failover.account, credentials[failover.account], None)]
    {
      this.failover := failover;
      account, authorization := failover.account, credentials[failover.account];
      bodyChunks, requestBodyFinished, bodyBuffer, retryBody := [], false, None, [];
      attemptsUsed, failoversUsed, phase := 1, 0, InFlight;
      clientAborted, metricFinalized := false, false;
      sends := [Send(failover.account, credentials[failover.account], None)];
      retriesUsed := 0;
      credentialsRead := {(failover.account, credentials[failover.account])};
    }

    /** At most eleven sends: the first, two overload retries and eight failovers. */
    lemma AtMostElevenSends()
      requires Valid()
      ensures |sends| + Budget() <= 1 + (MAX_UPSTREAM_ATTEMPTS - 1) + MAX_FAILOVERS == 11
    {
    }

    method SendUpstream(body: Bytes)
      requires Bounded() && Faithful() && failover.Valid() && account in failover.tried
        && (phase.AwaitsUpload? || phase.AwaitsRetry?)
      requires requestBodyFinished && body == Concat(bodyChunks)
      modifies this`attemptsUsed, this`phase, this`sends, this`bodyBuffer
      ensures Valid()
      ensures if clientAborted || metricFinalized then phase.Settled? && sends == old(sends)
              else phase.InFlight? && sends == old(sends) + [Send(account, authorization, Some(body))]
    {
      if clientAborted || metricFinalized {
        phase := Settled;
        return;
      }
      attemptsUsed := attemptsUsed + 1;
      sends := sends + [Send(account, authorization, Some(body))];
      bodyBuffer := Some(body);
      phase := InFlight;
    }

    /** More of the upload; it is kept for a replay. */
    method Upload(chunk: Bytes)
      requires Valid() && !requestBodyFinished
      modifies this`bodyChunks
      ensures Valid() && bodyChunks == old(bodyChunks) + [chunk]
    {
      bodyChunks := bodyChunks + [chunk];
    }

    /** The upload is complete; a replay that waited for it goes out. */
    method FinishUpload()
      requires Valid() && !requestBodyFinished
      modifies this`requestBodyFinished, this`attemptsUsed, this`phase, this`sends, this`bodyBuffer
      ensures Valid() && requestBodyFinished
      ensures if old(phase).AwaitsUpload? && !clientAborted && !metricFinalized
              then phase.InFlight? && sends == old(sends) + [Send(account, authorization, Some(Concat(bodyChunks)))]
              else sends == old(sends) && phase == if old(phase).AwaitsUpload? then Settled else old(phase)
    {
      requestBodyFinished := true;
      if phase.AwaitsUpload? {
        SendUpstream(Concat(bodyChunks));
      }
    }

    /** The next backup whose credential can be read; the others are passed over as tried. */
    method BackupWithCredential(views: nat -> View, credentials: nat -> Credentials)
      returns (found: Option<(Id, Token)>)
      requires failover.Valid()
      modifies failover`tried, this`credentialsRead
      ensures failover.Valid() && old(failover.tried) <= failover.tried
      ensures credentialsRead == old(credentialsRead) + if found.Some? then {found.value} else {}
      ensures found.Some? ==>
        && found.value.0 !in old(failover.tried) && found.value.0 in failover.tried
        && found.value.0 in failover.policy.chain
      ensures failover.policy.enabled ==>
        Searched(failover, old(failover.tried), failover.tried[|old(failover.tried)|..], views, credentials, found)
      ensures !failover.policy.enabled ==> found.None? && failover.tried == old(failover.tried)
    {
      ghost var f, before, passed: seq<Id> := failover, failover.tried, [];
      assert Passed(f, before, passed, views, credentials) && f.start in before;
      TailOf(before, passed);
      hide NoneEligible;
      hide Eligible;
      hide IsNext;
      hide Passed;
      hide Searched;
      hide Attempt.Valid;
      var k := 0;
      var backup := failover.NextBackup(views(0), true);
      while backup.Some?
        invariant failover.Valid() && failover.start in before && credentialsRead == old(credentialsRead)
        invariant k == |passed| && Passed(f, before, passed, views, credentials)
        invariant failover.tried == if backup.Some? then before + passed + [backup.value] else before + passed
        invariant backup.Some? ==>
          && f.policy.enabled && backup.value !in before && backup.value in f.policy.chain
          && IsNext(f.policy.chain, f.home, f.provider, before + passed, views(k), true, backup.value)
        invariant backup.None? ==>
          if f.policy.enabled then NoneEligible(views(k), f.home, f.provider, before + passed, f.policy.chain)
          else passed == []
        decreases |f.policy.chain| - |passed|
      {
        ghost var asked := passed + [backup.value];
        AskedOneMore(before, passed, backup.value);
        var readable := credentials(k);
        if backup.value in readable {
          found := Some((backup.value, readable[backup.value]));
          credentialsRead := credentialsRead + {found.value};
          FoundOne(f, before, passed, backup.value, views, credentials);
          return;
        }
        HandedOut(failover, before, asked);
        PassedOn(f, before, passed, backup.value, views, credentials);
        k := k + 1;
        passed := asked;
        backup := failover.NextBackup(views(k), true);
      }
      if f.policy.enabled {
        FoundNone(f, before, passed, views, credentials);
      }
      TailOf(before, passed);
      return None;
    }

    /** A backup, if one more failover is allowed and the client is there to wait for it. */
    method FindBackup(views: nat -> View, credentials: nat -> Credentials) returns (found: Option<(Id, Token)>)
      requires Valid()
      modifies failover`tried, this`credentialsRead
      ensures Valid() && old(failover.tried) <= failover.tried
      ensures credentialsRead == old(credentialsRead) + if found.Some? then {found.value} else {}
      ensures found.Some? ==>
        && found.value.0 !in old(failover.tried) && found.value.0 in failover.tried
        && found.value.0 in failover.policy.chain
      ensures
        if failover.policy.enabled && !clientAborted && failoversUsed < MAX_FAILOVERS then
          Searched(failover, old(failover.tried), failover.tried[|old(failover.tried)|..], views, credentials, found)
        else found.None? && failover.tried == old(failover.tried)
    {
      hide Concat;
      hide Searched;
      found := None;
      if failover.policy.enabled && !clientAborted && failoversUsed < MAX_FAILOVERS {
        found := BackupWithCredential(views, credentials);
      }
    }

    /**
     * Another account takes the request over, the first that can be read; the replay waits for the
     * whole upload. Without one the request is settled. A refusal moves the attempt too, a burst
     * limit only this request.
     */
    method FailOver(answer: Answer, views: nat -> View, credentials: nat -> Credentials)
      requires Valid() && phase.InFlight? && (answer.QuotaRefused? || answer.BurstLimited?)
      modifies this`account, this`authorization, this`attemptsUsed, this`failoversUsed, this`phase, this`sends,
               this`bodyBuffer, this`credentialsRead, failover
      ensures Valid() && Budget() <= old(Budget()) && (phase.Settled? || Budget() < old(Budget()))
      ensures old(failover.tried) <= failover.tried
      ensures account == old(account) ==> Stays(answer, views, credentials)
      ensures account != old(account) ==> Moves(answer, views, credentials)
    {
      hide Concat;
      hide Faithful;
      hide Searched;
      var found := FindBackup(views, credentials);
      if found.None? {
        phase := Settled;
        return;
      }
      if answer.QuotaRefused? {
        failover.MoveTo(found.value.0, answer.accountWide);
      }
      Replay(found.value.0, found.value.1);
    }

    /** What a refused answer left: nobody could take the request over, or nobody may, and it is settled. */
    twostate predicate Stays(answer: Answer, views: nat -> View, credentials: nat -> Credentials)
      reads this, failover
    {
      && phase.Settled? && sends == old(sends) && authorization == old(authorization)
      && failoversUsed == old(failoversUsed) && credentialsRead == old(credentialsRead)
      && unchanged(failover`account, failover`accountWide, failover`failedOverFrom)
      && if failover.policy.enabled && !clientAborted && failoversUsed < MAX_FAILOVERS then
           && |old(failover.tried)| <= |failover.tried|
           && Searched(failover, old(failover.tried), failover.tried[|old(failover.tried)|..], views, credentials, None)
         else failover.tried == old(failover.tried)
    }

    /** What a refused answer left: the backup found has the request, and the whole upload goes to it. */
    twostate predicate Moves(answer: Answer, views: nat -> View, credentials: nat -> Credentials)
      reads this, failover
    {
      && failover.policy.enabled && !clientAborted && old(failoversUsed) < MAX_FAILOVERS
      && failoversUsed == old(failoversUsed) + 1 && credentialsRead == old(credentialsRead) + {(account, authorization)}
      && account in failover.policy.chain && account !in old(failover.tried)
      && |old(failover.tried)| <= |failover.tried|
      && Searched(failover, old(failover.tried), failover.tried[|old(failover.tried)|..], views, credentials,
                  Some((account, authorization)))
      && (if requestBodyFinished && !metricFinalized then
            phase == InFlight && sends == old(sends) + [Send(account, authorization, Some(Concat(bodyChunks)))]
          else sends == old(sends) && phase == if requestBodyFinished then Settled else AwaitsUpload)
      && (if answer.QuotaRefused? then
            && failover.account == account && failover.accountWide == (old(failover.accountWide) || answer.accountWide)
            && failover.failedOverFrom ==
               if old(failover.failedOverFrom).Some? then old(failover.failedOverFrom) else Some(old(failover.account))
          else unchanged(failover`account, failover`accountWide, failover`failedOverFrom))
    }

    /** The request goes on with another account, at once if the upload is complete. */
    method Replay(backup: Id, token: Token)
      requires Valid() && phase.InFlight? && failoversUsed < MAX_FAILOVERS
      requires backup in failover.tried && (backup, token) in credentialsRead
      modifies this`account, this`authorization, this`attemptsUsed, this`failoversUsed, this`phase, this`sends,
               this`bodyBuffer
      ensures Valid() && account == backup && authorization == token && failoversUsed == old(failoversUsed) + 1
      ensures
        if requestBodyFinished && !clientAborted && !metricFinalized then
          phase == InFlight && sends == old(sends) + [Send(account, authorization, Some(Concat(bodyChunks)))]
        else sends == old(sends) && phase == if requestBodyFinished then Settled else AwaitsUpload
    {
      hide Concat;
      failoversUsed := failoversUsed + 1;
      account, authorization := backup, token;
      phase := AwaitsUpload;
      if requestBodyFinished {
        SendUpstream(Concat(bodyChunks));
      }
    }

    /** The upstream answers the request in flight. */
    method Answered(answer: Answer, views: nat -> View, credentials: nat -> Credentials)
      requires Valid() && phase.InFlight?
      modifies this`account, this`authorization, this`attemptsUsed, this`failoversUsed, this`phase, this`sends,
               this`bodyBuffer, this`credentialsRead, this`retriesUsed, this`retryBody, failover
      ensures Valid() && Budget() <= old(Budget()) && (phase.Settled? || Budget() < old(Budget()))
      ensures old(failover.tried) <= failover.tried
      ensures answer.Final? ==> phase.Settled?
      ensures answer.Overloaded? ==>
        phase == if old(attemptsUsed) < MAX_UPSTREAM_ATTEMPTS && requestBodyFinished && !clientAborted then AwaitsRetry
                 else Settled
      ensures answer.Final? || answer.Overloaded? ==>
        && sends == old(sends) && account == old(account) && authorization == old(authorization)
        && failoversUsed == old(failoversUsed) && credentialsRead == old(credentialsRead) && unchanged(failover)
      ensures answer.QuotaRefused? || answer.BurstLimited? ==>
        && (account == old(account) ==> Stays(answer, views, credentials))
        && (account != old(account) ==> Moves(answer, views, credentials))
      ensures answer.QuotaRefused? || answer.BurstLimited? ==>
        forall id :: AlwaysReady(failover, old(failover.tried), views, credentials, id) ==>
          failover.policy.enabled && !clientAborted && old(failoversUsed) < MAX_FAILOVERS ==> account != old(account)
    {
      hide Concat;
      hide Searched;
      hide AlwaysReady;
      match answer
      case Final =>
        phase := Settled;
      case Overloaded =>
        if attemptsUsed < MAX_UPSTREAM_ATTEMPTS && requestBodyFinished && !clientAborted {
          retriesUsed := retriesUsed + 1;
          retryBody := if bodyBuffer.Some? then bodyBuffer.value else Concat(bodyChunks);
          phase := AwaitsRetry;
        } else {
          phase := Settled;
        }
      case _ =>
        ghost var before := failover.tried;
        FailOver(answer, views, credentials);
        forall id | account == old(account) && AlwaysReady(failover, before, views, credentials, id)
          ensures !(failover.policy.enabled && !clientAborted && old(failoversUsed) < MAX_FAILOVERS)
        {
          if failover.policy.enabled && !clientAborted && failoversUsed < MAX_FAILOVERS {
            ReadyIsFound(failover, before, failover.tried[|before|..], views, credentials, None, id);
          }
        }
    }

    /** The delay before a retry is over. */
    method RetryTimer()
      requires Valid() && phase.AwaitsRetry?
      modifies this`attemptsUsed, this`phase, this`sends, this`bodyBuffer
      ensures Valid()
      ensures if clientAborted || metricFinalized then phase.Settled? && sends == old(sends)
              else phase.InFlight? && sends == old(sends) + [Send(account, authorization, Some(Concat(bodyChunks)))]
    {
      SendUpstream(retryBody);
    }

    /** The client leaves, or the outcome is recorded; a pending retry is cancelled. */
    method Close(aborted: bool)
      requires Valid()
      modifies this`clientAborted, this`metricFinalized, this`phase
      ensures Valid() && metricFinalized && clientAborted == (old(clientAborted) || aborted)
      ensures phase == if old(phase).AwaitsRetry? then Settled else old(phase)
    {
      clientAborted := clientAborted || aborted;
      metricFinalized := true;
      if phase.AwaitsRetry? {
        phase := Settled;
      }
    }
  }

  /** What can happen to a request, in any order. */
  datatype Happening =
    | Chunk(bytes: Bytes)
    | UploadEnds
    | Answers(answer: Answer, views: nat -> View, credentials: nat -> Credentials)
    | TimerFires
    | Closes(aborted: bool)

  /** One thing happens, if it can; an answer needs a request in flight. */
  method Happen(x: Exchange, h: Happening) returns (answered: bool)
    requires x.Valid()
    modifies x, x.failover
    ensures x.Valid() && old(x.sends) <= x.sends
    ensures x.bodyChunks == old(x.bodyChunks) + (if h.Chunk? && !old(x.requestBodyFinished) then [h.bytes] else [])
    ensures x.requestBodyFinished == (old(x.requestBodyFinished) || h.UploadEnds?)
    ensures answered == (h.Answers? && old(x.phase).InFlight?)
    ensures answered && (h.answer.QuotaRefused? || h.answer.BurstLimited?) ==>
      if x.account == old(x.account) then x.Stays(h.answer, h.views, h.credentials)
      else x.Moves(h.answer, h.views, h.credentials)
    ensures !answered ==>
      && x.account == old(x.account) && x.authorization == old(x.authorization)
      && x.credentialsRead == old(x.credentialsRead)
    ensures !answered && x.sends != old(x.sends) ==>
      && ((h.UploadEnds? && old(x.phase).AwaitsUpload?) || (h.TimerFires? && old(x.phase).AwaitsRetry?))
      && x.sends == old(x.sends) + [Send(x.account, x.authorization, Some(Concat(x.bodyChunks)))]
    ensures old(x.phase).AwaitsUpload? && h.UploadEnds? && !x.clientAborted && !x.metricFinalized ==>
      x.sends != old(x.sends)
    ensures forall read :: read in x.credentialsRead ==>
      read in old(x.credentialsRead) || (h.Answers? && ReadFrom(h.credentials, read))
    ensures old(x.clientAborted || x.metricFinalized) ==>
      x.sends == old(x.sends) && (x.clientAborted || x.metricFinalized)
    ensures h.Closes? ==> x.metricFinalized
    ensures old(x.phase).Settled? ==> x.phase.Settled? && x.Budget() == old(x.Budget()) && !answered
    ensures x.Budget() + (if answered && !x.phase.Settled? then 1 else 0) <= old(x.Budget())
  {
    hide Concat;
    hide Passed;
    hide IsNext;
    hide NoneEligible;
    hide Attempt.Valid;
    answered := false;
    match h
    case Chunk(bytes) =>
      if !x.requestBodyFinished {
        x.Upload(bytes);
      }
    case UploadEnds =>
      if !x.requestBodyFinished {
        x.FinishUpload();
      }
    case Answers(answer, views, credentials) =>
      if x.phase.InFlight? {
        x.Answered(answer, views, credentials);
        answered := true;
      }
    case TimerFires =>
      if x.phase.AwaitsRetry? {
        x.RetryTimer();
      }
    case Closes(aborted) =>
      x.Close(aborted);
  }

  predicate UploadEnded(schedule: seq<Happening>) {
    exists i :: 0 <= i < |schedule| && schedule[i].UploadEnds?
  }

  /** The chunks that come before the upload ends. */
  function Uploaded(schedule: seq<Happening>): seq<Bytes> {
    if schedule == [] then []
    else
      var front, last := schedule[..|schedule| - 1], schedule[|schedule| - 1];
      Uploaded(front) + (if last.Chunk? && !UploadEnded(front) then [last.bytes] else [])
  }

  lemma EndedOn(schedule: seq<Happening>, h: Happening)
    ensures UploadEnded(schedule + [h]) == (UploadEnded(schedule) || h.UploadEnds?)
    ensures Uploaded(schedule + [h]) ==
      Uploaded(schedule) + (if h.Chunk? && !UploadEnded(schedule) then [h.bytes] else [])
  {
    var all := schedule + [h];
    assert all[..|schedule|] == schedule && all[|schedule|] == h;
    if i :| 0 <= i < |schedule| && schedule[i].UploadEnds? {
      assert all[i].UploadEnds?;
    }
  }

  /** Some answer of the schedule read this credential. */
  ghost predicate ReadDuring(schedule: seq<Happening>, read: (Id, Token)) {
    exists n :: 0 <= n < |schedule| && schedule[n].Answers? && ReadFrom(schedule[n].credentials, read)
  }

  lemma ReadOn(schedule: seq<Happening>, h: Happening, read: (Id, Token))
    requires ReadDuring(schedule, read) || (h.Answers? && ReadFrom(h.credentials, read))
    ensures ReadDuring(schedule + [h], read)
  {
    var all := schedule + [h];
    if ReadDuring(schedule, read) {
      var n :| 0 <= n < |schedule| && schedule[n].Answers? && ReadFrom(schedule[n].credentials, read);
      assert all[n] == schedule[n];
    } else {
      assert all[|schedule|] == h;
    }
  }

  /**
   * In whatever order chunks, answers, timers and the end of upload and client come, there are at
   * most eleven sends and eleven answers, each replay is the whole upload with a credential of
   * its account, and nothing is sent once the client is gone.
   */
  method Drive(x: Exchange, schedule: seq<Happening>) returns (answers: nat)
    requires x.Valid()
    modifies x, x.failover
    ensures x.Valid() && |x.sends| <= 11 && old(x.sends) <= x.sends
    ensures x.bodyChunks == old(x.bodyChunks) + (if old(x.requestBodyFinished) then [] else Uploaded(schedule))
    ensures x.requestBodyFinished == (old(x.requestBodyFinished) || UploadEnded(schedule))
    ensures forall i :: 1 <= i < |x.sends| ==> x.requestBodyFinished && x.sends[i].body == Some(Concat(x.bodyChunks))
    ensures forall i :: 0 <= i < |x.sends| ==>
      var read := (x.sends[i].account, x.sends[i].token);
      read in old(x.credentialsRead) || ReadDuring(schedule, read)
    ensures old(x.clientAborted || x.metricFinalized) ==> x.sends == old(x.sends)
    ensures answers + x.Budget() <= old(x.Budget()) + (if x.phase.Settled? then 1 else 0) && answers <= 11
  {
    hide Concat;
    hide ReadFrom;
    hide Uploaded;
    hide UploadEnded;
    answers := 0;
    x.AtMostElevenSends();
    assert Uploaded([]) == [] && !UploadEnded([]) by {
      NothingUploaded();
    }
    assert schedule[..0] == [];
    for n := 0 to |schedule|
      invariant x.Valid() && old(x.sends) <= x.sends
      invariant x.bodyChunks == old(x.bodyChunks)
        + (if old(x.requestBodyFinished) then [] else Uploaded(schedule[..n]))
      invariant x.requestBodyFinished == (old(x.requestBodyFinished) || UploadEnded(schedule[..n]))
      invariant forall read :: read in x.credentialsRead ==>
        read in old(x.credentialsRead) || ReadDuring(schedule[..n], read)
      invariant old(x.clientAborted || x.metricFinalized) ==>
        x.sends == old(x.sends) && (x.clientAborted || x.metricFinalized)
      invariant answers + x.Budget() <= old(x.Budget()) + (if x.phase.Settled? then 1 else 0)
    {
      assert schedule[..n + 1] == schedule[..n] + [schedule[n]];
      EndedOn(schedule[..n], schedule[n]);
      var answered := Happen(x, schedule[n]);
      forall read | read in x.credentialsRead && read !in old(x.credentialsRead)
        ensures ReadDuring(schedule[..n + 1], read)
      {
        ReadOn(schedule[..n], schedule[n], read);
      }
      if answered {
        answers := answers + 1;
      }
    }
    assert schedule[..|schedule|] == schedule;
    x.AtMostElevenSends();
  }

  lemma NothingUploaded()
    ensures Uploaded([]) == [] && !UploadEnded([])
  {
  }

  /** Why a request is settled after its last answer. */
  ghost predicate Exhausted(x: Exchange, answer: Answer, views: nat -> View)
    reads x, x.failover
  {
    match answer
    case Final => true
    case Overloaded => !x.requestBodyFinished || x.attemptsUsed >= MAX_UPSTREAM_ATTEMPTS
    case _ =>
      || !x.failover.policy.enabled || x.failoversUsed == MAX_FAILOVERS
      || exists k: nat ::
           NoneEligible(views(k), x.failover.home, x.failover.provider, x.failover.tried, x.failover.policy.chain)
  }

  /** One answer; if the client waits and the request is settled by it, there is nothing left to try. */
  method AnswerOnce(x: Exchange, answer: Answer, views: nat -> View, credentials: nat -> Credentials)
    requires x.Valid() && x.phase.InFlight?
    modifies x, x.failover
    ensures x.Valid() && x.bodyChunks == old(x.bodyChunks) && old(x.sends) <= x.sends
    ensures x.clientAborted == old(x.clientAborted) && x.metricFinalized == old(x.metricFinalized)
    ensures x.Budget() <= old(x.Budget()) && (x.phase.Settled? || x.Budget() < old(x.Budget()))
    ensures x.phase.Settled? && !x.clientAborted && !x.metricFinalized ==> Exhausted(x, answer, views)
  {
    hide Concat;
    hide Attempt.Valid;
    hide Passed;
    hide IsNext;
    hide NoneEligible;
    ghost var before := x.failover.tried;
    x.Answered(answer, views, credentials);
    assert before + x.failover.tried[|before|..] == x.failover.tried;
  }

  /**
   * A request whose answers keep coming, and whose upload ends, is settled; if the client waits,
   * not before it has an answer that is final, or three overloads, or nobody left to ask.
   */
  method Serve(x: Exchange, answers: nat -> Answer, views: nat -> nat -> View, credentials: nat -> nat -> Credentials)
    returns (used: nat)
    requires x.Valid()
    modifies x, x.failover
    ensures x.Valid() && x.phase.Settled? && |x.sends| <= 11
    ensures old(x.sends) <= x.sends && x.bodyChunks == old(x.bodyChunks)
    ensures forall i :: 1 <= i < |x.sends| ==> x.sends[i].body == Some(Concat(x.bodyChunks))
    ensures forall i :: 0 <= i < |x.sends| ==> (x.sends[i].account, x.sends[i].token) in x.credentialsRead
    ensures !old(x.phase).Settled? && !old(x.clientAborted) && !old(x.metricFinalized) ==>
      used > 0 && Exhausted(x, answers(used - 1), views(used - 1))
  {
    hide Concat;
    hide Attempt.Valid;
    hide Exhausted;
    used := 0;
    while !x.phase.Settled?
      invariant x.Valid() && x.bodyChunks == old(x.bodyChunks) && old(x.sends) <= x.sends
      invariant x.clientAborted == old(x.clientAborted) && x.metricFinalized == old(x.metricFinalized)
      invariant x.phase.Settled? && !old(x.phase).Settled? && !x.clientAborted && !x.metricFinalized ==>
        used > 0 && Exhausted(x, answers(used - 1), views(used - 1))
      decreases x.Budget(), match x.phase case Settled => 0 case InFlight => 1 case _ => 2
    {
      if x.phase.AwaitsUpload? {
        x.FinishUpload();
      } else if x.phase.AwaitsRetry? {
        x.RetryTimer();
      } else {
        AnswerOnce(x, answers(used), views(used), credentials(used));
        used := used + 1;
      }
    }
    x.AtMostElevenSends();
  }
}
