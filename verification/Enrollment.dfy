/**
 * The token dispenser's client registry: enrollments read, change and write it one at a time,
 * revoke the rows their machine proves or claims, and leave every other token working.
 *
 * Tokens enter by their digest; a minted digest is one that no row carries yet.
 */
module Enrollment {
  import opened Options

  type Digest = string

  datatype Client = Client(name: string, handle: Option<string>, digest: Digest, revoked: bool)

  /** A valid enrollment request, with the digest of the token it will be given. */
  datatype Request = Request(name: string, handle: Option<string>, previous: Option<Digest>, minted: Digest)

  // ----- The two rules -----

  /** Only the holder of a token can name its digest. */
  predicate Proves(r: Request, c: Client) {
    r.previous == Some(c.digest)
  }

  /** A row of the same name without a handle, or with the caller's. */
  predicate Claims(r: Request, c: Client) {
    c.name == r.name && (c.handle.None? || c.handle == r.handle)
  }

  predicate Retires(r: Request, c: Client) {
    !c.revoked && (Proves(r, c) || Claims(r, c))
  }

  /** A row inherited from before machines reported handles. */
  predicate Inherits(r: Request, c: Client) {
    Retires(r, c) && !Proves(r, c) && c.handle.None? && r.handle.Some?
  }

  /** Another machine that answers to the same name. */
  predicate Namesake(r: Request, c: Client) {
    !c.revoked && !Retires(r, c) && c.name == r.name
  }

  function Retired(r: Request, c: Client): Client {
    if Retires(r, c) then c.(revoked := true) else c
  }

  function RetireAll(clients: seq<Client>, r: Request): (after: seq<Client>)
    ensures |after| == |clients| && forall i :: 0 <= i < |clients| ==> after[i] == Retired(r, clients[i])
  {
    seq(|clients|, i requires 0 <= i < |clients| => Retired(r, clients[i]))
  }

  function Row(r: Request): Client {
    Client(r.name, r.handle, r.minted, false)
  }

  function Enrolled(clients: seq<Client>, r: Request): seq<Client> {
    RetireAll(clients, r) + [Row(r)]
  }

  /** The name that a presented token answers to. */
  function Authenticated(clients: seq<Client>, digest: Digest): Option<string> {
    if clients == [] then None
    else if !clients[0].revoked && clients[0].digest == digest then Some(clients[0].name)
    else Authenticated(clients[1..], digest)
  }

  // ----- The registry -----

  datatype Kind = Replaced | ByToken | Legacy | KeptSameName

  predicate IsKind(kind: Kind, r: Request, c: Client) {
    match kind
    case Replaced => Retires(r, c)
    case ByToken => !c.revoked && Proves(r, c)
    case Legacy => Inherits(r, c)
    case KeptSameName => Namesake(r, c)
  }

  function Count(clients: seq<Client>, kind: Kind, r: Request): nat {
    if clients == [] then 0
    else Count(clients[..|clients| - 1], kind, r) + (if IsKind(kind, r, clients[|clients| - 1]) then 1 else 0)
  }

  /** The first active row with the digest. */
  ghost predicate IsFirst(clients: seq<Client>, digest: Digest, i: int) {
    && 0 <= i < |clients| && !clients[i].revoked && clients[i].digest == digest
    && forall j :: 0 <= j < i ==> clients[j].revoked || clients[j].digest != digest
  }

  /** The request carries the token of the row. */
  predicate ByDigest(r: Request, c: Client) {
    r.previous == Some(c.digest)
  }

  /** The row is of the same name, and of no machine or the same. */
  predicate ByName(r: Request, c: Client) {
    c.name == r.name && (c.handle.None? || c.handle == r.handle)
  }

  /** The rows after an enrollment: what is named is revoked, all else stays, and the new row is behind them. */
  ghost predicate Enrolls(before: seq<Client>, r: Request, after: seq<Client>) {
    && |after| == |before| + 1 && after[|before|] == Client(r.name, r.handle, r.minted, false)
    && forall i :: 0 <= i < |before| ==>
         after[i] == before[i].(revoked := before[i].revoked || ByDigest(r, before[i]) || ByName(r, before[i]))
  }

  /** The active rows that an enrollment counts under one heading of its log line. */
  ghost function Counted(clients: seq<Client>, kind: Kind, r: Request): set<int> {
    match kind
    case Replaced =>
      set i | 0 <= i < |clients| && !clients[i].revoked && (ByDigest(r, clients[i]) || ByName(r, clients[i]))
    case ByToken => set i | 0 <= i < |clients| && !clients[i].revoked && ByDigest(r, clients[i])
    case Legacy =>
      set i | 0 <= i < |clients| && !clients[i].revoked && !ByDigest(r, clients[i])
              && clients[i].name == r.name && clients[i].handle.None? && r.handle.Some?
    case KeptSameName =>
      set i | 0 <= i < |clients| && !clients[i].revoked && !ByDigest(r, clients[i])
              && clients[i].name == r.name && clients[i].handle.Some? && clients[i].handle != r.handle
  }

  lemma CountedOn(clients: seq<Client>, kind: Kind, r: Request)
    requires clients != []
    ensures var last := |clients| - 1;
      Counted(clients, kind, r) == Counted(clients[..last], kind, r)
        + if IsKind(kind, r, clients[last]) then {last} else {}
  {
    var last := |clients| - 1;
    assert forall i :: 0 <= i < last ==> clients[..last][i] == clients[i];
  }

  /** The count of a kind is the number of those rows. */
  lemma {:induction false} CountExactly(clients: seq<Client>, kind: Kind, r: Request)
    ensures Count(clients, kind, r) == |Counted(clients, kind, r)|
  {
    if clients == [] {
      assert Counted(clients, kind, r) == {};
    } else {
      var last := |clients| - 1;
      CountExactly(clients[..last], kind, r);
      CountedOn(clients, kind, r);
      assert last !in Counted(clients[..last], kind, r);
      assert Counted(clients, kind, r) == if IsKind(kind, r, clients[last])
        then Counted(clients[..last], kind, r) + {last} else Counted(clients[..last], kind, r);
    }
  }

  lemma EnrolledEnrolls(clients: seq<Client>, r: Request)
    ensures Enrolls(clients, r, Enrolled(clients, r))
  {
  }

  class Registry {
    var clients: seq<Client>

    constructor ()
      ensures clients == []
    {
      clients := [];
    }

    method Authenticate(digest: Digest) returns (name: Option<string>)
      ensures name == Authenticated(clients, digest)
      ensures name.Some? ==> exists i :: IsFirst(clients, digest, i) && name.value == clients[i].name
      ensures name.None? ==> forall i :: 0 <= i < |clients| ==> clients[i].revoked || clients[i].digest != digest
    {
      for i := 0 to |clients|
        invariant Authenticated(clients, digest) == Authenticated(clients[i..], digest)
        invariant forall j :: 0 <= j < i ==> clients[j].revoked || clients[j].digest != digest
      {
        assert clients[i..][0] == clients[i] && clients[i..][1..] == clients[i + 1..];
        if !clients[i].revoked && clients[i].digest == digest {
          assert IsFirst(clients, digest, i);
          return Some(clients[i].name);
        }
      }
      return None;
    }

    /** Revokes in place what the request proves or claims, and adds its row; the counts are those of the log. */
    method Enroll(r: Request) returns (replaced: nat, byToken: nat, legacy: nat, keptSameName: nat)
      modifies this`clients
      ensures clients == Enrolled(old(clients), r) && Enrolls(old(clients), r, clients)
      ensures replaced == |Counted(old(clients), Replaced, r)| && byToken == |Counted(old(clients), ByToken, r)|
      ensures legacy == |Counted(old(clients), Legacy, r)|
        && keptSameName == |Counted(old(clients), KeptSameName, r)|
    {
      replaced, byToken, legacy, keptSameName := 0, 0, 0, 0;
      ghost var before := clients;
      for i := 0 to |clients|
        invariant |clients| == |before|
        invariant forall j :: 0 <= j < |before| ==> clients[j] == if j < i then Retired(r, before[j]) else before[j]
        invariant replaced == Count(before[..i], Replaced, r) && byToken == Count(before[..i], ByToken, r)
        invariant legacy == Count(before[..i], Legacy, r) && keptSameName == Count(before[..i], KeptSameName, r)
      {
        assert before[..i + 1][..i] == before[..i];
        var client := clients[i];
        if client.revoked {
          continue;
        }
        if r.previous == Some(client.digest) {
          clients := clients[i := client.(revoked := true)];
          byToken := byToken + 1;
          replaced := replaced + 1;
          continue;
        }
        if client.name != r.name {
          continue;
        }
        if client.handle.Some? && client.handle != r.handle {
          keptSameName := keptSameName + 1;
          continue;
        }
        if client.handle.None? && r.handle.Some? {
          legacy := legacy + 1;
        }
        clients := clients[i := client.(revoked := true)];
        replaced := replaced + 1;
      }
      assert before[..|before|] == before;
      clients := clients + [Row(r)];
      EnrolledEnrolls(before, r);
      CountExactly(before, Replaced, r);
      CountExactly(before, ByToken, r);
      CountExactly(before, Legacy, r);
      CountExactly(before, KeptSameName, r);
    }
  }

  // ----- What one enrollment does -----

  ghost predicate Fresh(clients: seq<Client>, digest: Digest) {
    forall i :: 0 <= i < |clients| ==> clients[i].digest != digest
  }

  ghost predicate DistinctDigests(clients: seq<Client>) {
    forall i, j :: 0 <= i < j < |clients| ==> clients[i].digest != clients[j].digest
  }

  /** No two active rows have both name and handle in common. */
  ghost predicate OnePerMachine(clients: seq<Client>) {
    forall i, j :: 0 <= i < j < |clients| && !clients[i].revoked && !clients[j].revoked ==>
      clients[i].name != clients[j].name || clients[i].handle != clients[j].handle
  }

  lemma EnrollKeeps(clients: seq<Client>, r: Request)
    ensures OnePerMachine(clients) ==> OnePerMachine(Enrolled(clients, r))
    ensures DistinctDigests(clients) && Fresh(clients, r.minted) ==> DistinctDigests(Enrolled(clients, r))
  {
  }

  /** The token of a row answers exactly while the row is active. */
  lemma {:induction false} AuthenticatedExactly(clients: seq<Client>, i: nat)
    requires i < |clients| && DistinctDigests(clients)
    ensures Authenticated(clients, clients[i].digest) == if clients[i].revoked then None else Some(clients[i].name)
  {
    if i > 0 {
      AuthenticatedExactly(clients[1..], i - 1);
    } else if clients[0].revoked {
      NobodyAuthenticates(clients[1..], clients[0].digest);
    }
  }

  lemma {:induction false} NobodyAuthenticates(clients: seq<Client>, digest: Digest)
    requires Fresh(clients, digest)
    ensures Authenticated(clients, digest).None?
  {
    if clients != [] {
      NobodyAuthenticates(clients[1..], digest);
    }
  }

  // ----- What a history of enrollments leaves -----

  function EnrollAll(clients: seq<Client>, rs: seq<Request>): seq<Client> {
    if rs == [] then clients else Enrolled(EnrollAll(clients, rs[..|rs| - 1]), rs[|rs| - 1])
  }

  /** Every token is minted once. */
  ghost predicate AllFresh(clients: seq<Client>, rs: seq<Request>) {
    && DistinctDigests(clients)
    && (forall k :: 0 <= k < |rs| ==> Fresh(clients, rs[k].minted))
    && (forall j, k :: 0 <= j < k < |rs| ==> rs[j].minted != rs[k].minted)
  }

  /** One of the requests names the row, by its digest or by its name and handle. */
  ghost predicate Named(c: Client, rs: seq<Request>) {
    exists k :: 0 <= k < |rs| && (ByDigest(rs[k], c) || ByName(rs[k], c))
  }

  lemma NamedSnoc(c: Client, rs: seq<Request>, r: Request)
    ensures Named(c, rs + [r]) <==> Named(c, rs) || ByDigest(r, c) || ByName(r, c)
  {
    assert (rs + [r])[|rs|] == r;
    if k :| 0 <= k < |rs| && (ByDigest(rs[k], c) || ByName(rs[k], c)) {
      assert (rs + [r])[k] == rs[k];
    }
  }

  /** Rows keep their place, name, handle and digest, and are revoked exactly when a request names them. */
  lemma {:induction false} RowAfter(clients: seq<Client>, rs: seq<Request>, i: nat)
    requires i < |clients|
    ensures |EnrollAll(clients, rs)| == |clients| + |rs|
    ensures EnrollAll(clients, rs)[i] == clients[i].(revoked := clients[i].revoked || Named(clients[i], rs))
  {
    if rs == [] {
      assert clients[i] == clients[i].(revoked := clients[i].revoked);
    } else {
      var init, last := rs[..|rs| - 1], rs[|rs| - 1];
      RowAfter(clients, init, i);
      NamedSnoc(clients[i], init, last);
      assert rs == init + [last];
    }
  }

  lemma EnrolledDigests(clients: seq<Client>, r: Request)
    ensures |Enrolled(clients, r)| == |clients| + 1
    ensures forall k :: 0 <= k <= |clients| ==>
      Enrolled(clients, r)[k].digest == if k < |clients| then clients[k].digest else r.minted
  {
  }

  lemma {:induction false} EnrollAllDigests(clients: seq<Client>, rs: seq<Request>)
    ensures |EnrollAll(clients, rs)| == |clients| + |rs|
    ensures forall k :: 0 <= k < |clients| + |rs| ==>
      EnrollAll(clients, rs)[k].digest == if k < |clients| then clients[k].digest else rs[k - |clients|].minted
  {
    hide Enrolled;
    if rs != [] {
      var init, last := rs[..|rs| - 1], rs[|rs| - 1];
      EnrollAllDigests(clients, init);
      EnrolledDigests(EnrollAll(clients, init), last);
    }
  }

  lemma {:induction false} EnrollAllKeepsMachines(clients: seq<Client>, rs: seq<Request>)
    requires OnePerMachine(clients)
    ensures OnePerMachine(EnrollAll(clients, rs))
  {
    hide Enrolled;
    hide OnePerMachine;
    if rs != [] {
      EnrollAllKeepsMachines(clients, rs[..|rs| - 1]);
      EnrollKeeps(EnrollAll(clients, rs[..|rs| - 1]), rs[|rs| - 1]);
    }
  }

  lemma EnrollAllKeeps(clients: seq<Client>, rs: seq<Request>)
    requires AllFresh(clients, rs)
    ensures DistinctDigests(EnrollAll(clients, rs)) && |EnrollAll(clients, rs)| == |clients| + |rs|
    ensures OnePerMachine(clients) ==> OnePerMachine(EnrollAll(clients, rs))
  {
    hide EnrollAll;
    hide OnePerMachine;
    EnrollAllDigests(clients, rs);
    if OnePerMachine(clients) {
      EnrollAllKeepsMachines(clients, rs);
    }
  }

  lemma {:induction false} EnrollAllJoin(clients: seq<Client>, a: seq<Request>, b: seq<Request>)
    ensures EnrollAll(clients, a + b) == EnrollAll(EnrollAll(clients, a), b)
  {
    if b == [] {
      assert a + b == a;
    } else {
      assert (a + b)[..|a + b| - 1] == a + b[..|b| - 1];
      EnrollAllJoin(clients, a, b[..|b| - 1]);
    }
  }

  lemma LastRow(clients: seq<Client>, r: Request)
    ensures |Enrolled(clients, r)| == |clients| + 1 && Enrolled(clients, r)[|clients|] == Row(r)
  {
  }

  /**
   * The token of an accepted enrollment answers to its name for as long as no later enrollment
   * proves or claims its row, and from then on to nothing.
   */
  lemma AcceptedAnswersExactly(clients: seq<Client>, rs: seq<Request>, k: nat)
    requires AllFresh(clients, rs) && k < |rs|
    ensures Authenticated(EnrollAll(clients, rs), rs[k].minted) ==
      if Named(Row(rs[k]), rs[k + 1..]) then None else Some(rs[k].name)
  {
    hide Enrolled;
    hide Named;
    hide Authenticated;
    hide DistinctDigests;
    EnrollAllKeeps(clients, rs);
    EnrolledRow(clients, rs, k);
    AuthenticatedExactly(EnrollAll(clients, rs), |clients| + k);
  }

  /** The row of the k-th enrollment, revoked exactly when a later one names it. */
  lemma EnrolledRow(clients: seq<Client>, rs: seq<Request>, k: nat)
    requires k < |rs|
    ensures |EnrollAll(clients, rs)| == |clients| + |rs|
    ensures EnrollAll(clients, rs)[|clients| + k] == Row(rs[k]).(revoked := Named(Row(rs[k]), rs[k + 1..]))
  {
    hide Enrolled;
    hide Named;
    var first, rest := rs[..k + 1], rs[k + 1..];
    assert rs == first + rest && first[..k] == rs[..k];
    EnrollAllJoin(clients, first, rest);
    EnrollAllDigests(clients, first[..k]);
    LastRow(EnrollAll(clients, first[..k]), rs[k]);
    RowAfter(EnrollAll(clients, first), rest, |clients| + k);
  }

  // ----- Enrollments that arrive concurrently -----

  /** Behind the promise before it, with the registry it has read, with it written back, or settled. */
  datatype Phase = Waiting | HasRead(read: seq<Client>) | Wrote | Settled

  /** One enrollment; the promise it runs behind is that of the task before it. */
  datatype Task = Task(request: Request, phase: Phase)

  /** The registry file and the chain of tasks; `written` is what the file took in, `replied` who got their token. */
  datatype Server = Server(file: seq<Client>, tasks: seq<Task>, written: seq<Request>, replied: seq<Request>)
  {
    function To(i: nat, phase: Phase): Server
      requires i < |tasks|
    {
      this.(tasks := tasks[i := tasks[i].(phase := phase)])
    }
  }

  /** Nobody has asked to enroll yet. */
  function AtRest(file: seq<Client>): Server {
    Server(file, [], [], [])
  }

  /** A task that fails settles without a reply, before or after its write, and the next one runs either way. */
  datatype Step = Arrive(request: Request) | Start(i: nat) | Write(i: nat) | Reply(i: nat) | Fail(i: nat)

  predicate Enabled(s: Server, step: Step) {
    match step
    case Arrive(_) => true
    case Start(i) => i < |s.tasks| && s.tasks[i].phase.Waiting? && (i > 0 ==> s.tasks[i - 1].phase.Settled?)
    case Write(i) => i < |s.tasks| && s.tasks[i].phase.HasRead?
    case Reply(i) => i < |s.tasks| && s.tasks[i].phase.Wrote?
    case Fail(i) => i < |s.tasks| && (s.tasks[i].phase.HasRead? || s.tasks[i].phase.Wrote?)
  }

  function Do(s: Server, step: Step): Server
    requires Enabled(s, step)
  {
    match step
    case Arrive(r) => s.(tasks := s.tasks + [Task(r, Waiting)])
    case Start(i) => s.To(i, HasRead(s.file))
    case Write(i) =>
      var r := s.tasks[i].request;
      s.To(i, Wrote).(file := Enrolled(s.tasks[i].phase.read, r), written := s.written + [r])
    case Reply(i) => s.To(i, Settled).(replied := s.replied + [s.tasks[i].request])
    case Fail(i) => s.To(i, Settled)
  }

  ghost predicate Run(s: Server, steps: seq<Step>, t: Server) {
    if steps == [] then s == t
    else
      var last := steps[|steps| - 1];
      exists m :: Run(s, steps[..|steps| - 1], m) && Enabled(m, last) && Do(m, last) == t
  }

  // ----- One task at a time -----

  /** Whoever has started found the task before it settled. */
  ghost predicate Chained(tasks: seq<Task>) {
    forall i :: 0 < i < |tasks| && !tasks[i].phase.Waiting? ==> tasks[i - 1].phase.Settled?
  }

  lemma {:induction false} SettledBefore(tasks: seq<Task>, i: nat, j: nat)
    requires Chained(tasks) && i < j < |tasks| && !tasks[j].phase.Waiting?
    ensures tasks[i].phase.Settled?
    decreases j
  {
    if i < j - 1 {
      SettledBefore(tasks, i, j - 1);
    }
  }

  /** Between its read and its end a task is the only one. */
  lemma OneAtATime(tasks: seq<Task>, i: nat, j: nat)
    requires Chained(tasks) && i < |tasks| && j < |tasks|
    requires tasks[i].phase.HasRead? || tasks[i].phase.Wrote?
    requires tasks[j].phase.HasRead? || tasks[j].phase.Wrote?
    ensures i == j
  {
    if i < j {
      SettledBefore(tasks, i, j);
    } else if j < i {
      SettledBefore(tasks, j, i);
    }
  }

  lemma StepKeepsChain(s: Server, step: Step)
    requires Chained(s.tasks) && Enabled(s, step)
    ensures Chained(Do(s, step).tasks)
  {
    hide Enrolled;
    var tasks, after := s.tasks, Do(s, step).tasks;
    forall k | 0 < k < |after| && !after[k].phase.Waiting?
      ensures after[k - 1].phase.Settled?
    {
      if step.Arrive? || k != step.i {
        assert tasks[k - 1].phase.Settled?;
      }
    }
  }

  // ----- Sequential in effect -----

  ghost predicate TaskOk(s: Server, task: Task) {
    match task.phase
    case HasRead(read) => read == s.file
    case Wrote => task.request in s.written
    case _ => true
  }

  /** The file is what the written enrollments make of it one after the other, and a task under way has read it. */
  ghost predicate Sequential(start: seq<Client>, s: Server) {
    && s.file == EnrollAll(start, s.written)
    && Chained(s.tasks)
    && (forall k :: 0 <= k < |s.tasks| ==> TaskOk(s, s.tasks[k]))
    && (forall k :: 0 <= k < |s.replied| ==> s.replied[k] in s.written)
  }

  lemma StepKeepsTasks(s: Server, step: Step, k: nat)
    requires Chained(s.tasks) && Enabled(s, step) && k < |Do(s, step).tasks|
    requires forall j :: 0 <= j < |s.tasks| ==> TaskOk(s, s.tasks[j])
    ensures TaskOk(Do(s, step), Do(s, step).tasks[k])
  {
    hide Enrolled;
    if k < |s.tasks| {
      assert TaskOk(s, s.tasks[k]);
      if step.Write? && s.tasks[k].phase.HasRead? {
        OneAtATime(s.tasks, k, step.i);
      }
    }
  }

  lemma StepKeepsSequential(start: seq<Client>, s: Server, step: Step)
    requires Sequential(start, s) && Enabled(s, step)
    ensures Sequential(start, Do(s, step))
  {
    hide Enrolled;
    hide Chained;
    StepKeepsChain(s, step);
    forall k | 0 <= k < |Do(s, step).tasks|
      ensures TaskOk(Do(s, step), Do(s, step).tasks[k])
    {
      StepKeepsTasks(s, step, k);
    }
    if step.Write? || step.Reply? {
      assert TaskOk(s, s.tasks[step.i]);
      assert Do(s, step).written[..|s.written|] == s.written;
    }
  }

  lemma {:induction false} RunIsSequential(start: seq<Client>, steps: seq<Step>, t: Server)
    requires Run(AtRest(start), steps, t)
    ensures Sequential(start, t)
  {
    if steps != [] {
      var init, last := steps[..|steps| - 1], steps[|steps| - 1];
      var m :| Run(AtRest(start), init, m) && Enabled(m, last) && Do(m, last) == t;
      hide Run;
      hide Do;
      hide Enabled;
      hide Sequential;
      RunIsSequential(start, init, m);
      StepKeepsSequential(start, m, last);
    }
  }

  /** The token written at `k` answers exactly while nothing written later names its row. */
  ghost predicate AnswersUntilNamed(t: Server, k: nat)
    requires k < |t.written|
  {
    var r := t.written[k];
    Authenticated(t.file, r.minted) == if Named(Row(r), t.written[k + 1..]) then None else Some(r.name)
  }

  /**
   * However enrollments arrive and fail, a token that was handed out works until a later
   * enrollment proves or claims its row, and the registry never has two active rows for a machine.
   */
  lemma NoAcceptedEnrollmentIsLost(start: seq<Client>, steps: seq<Step>, t: Server, r: Request)
    requires Run(AtRest(start), steps, t) && AllFresh(start, t.written) && r in t.replied
    ensures exists k :: 0 <= k < |t.written| && t.written[k] == r && AnswersUntilNamed(t, k)
    ensures OnePerMachine(start) ==> OnePerMachine(t.file)
  {
    RunIsSequential(start, steps, t);
    EnrollAllKeeps(start, t.written);
    hide Run;
    var k :| 0 <= k < |t.written| && t.written[k] == r;
    AcceptedAnswersExactly(start, t.written, k);
  }

  /** Without the queue: of two tasks that have read the same registry, the first to write loses its token. */
  lemma OverlapLosesTheFirst(s: Server, i: nat, j: nat)
    requires i < |s.tasks| && j < |s.tasks| && i != j
    requires s.tasks[i].phase == s.tasks[j].phase == HasRead(s.file)
    requires AllFresh(s.file, [s.tasks[i].request, s.tasks[j].request])
    ensures var first := s.tasks[i].request;
      && Enabled(s, Write(i))
      && var one := Do(s, Write(i));
         && Authenticated(one.file, first.minted) == Some(first.name)
         && Enabled(one, Write(j)) && Authenticated(Do(one, Write(j)).file, first.minted).None?
  {
    var file, first, second := s.file, s.tasks[i].request, s.tasks[j].request;
    assert [first, second][0] == first && [first, second][1] == second;
    EnrollKeeps(file, first);
    AuthenticatedExactly(Enrolled(file, first), |file|);
    NobodyAuthenticates(Enrolled(file, second), first.minted);
  }
}
