/**
 Release qualification: one run and attempt of the trusted workflow, with every required job, read twice.
 */
module CiQualification {
  import opened Wrappers
  import opened CiListings

  const REQUIRED_JOBS := {Backend, Frontend, Postgres, Docker}

  datatype Identity = Identity(run: int, attempt: int, number: int)

  datatype Verdict = Verdict(run: int, attempt: int, qualified: bool)

  predicate PositiveInteger(value: Value) {
    value.Whole? && 0 < value.n < 0x8000_0000_0000_0000
  }

  predicate PublicHere(repository: Repository) {
    repository == Repository(Text(TrustedRepository), Flag(false))
  }

  predicate OurRun(run: Row, sha: string, workflow: int) {
    && run.event == Text(PushEvent) && run.headSha == Text(Other(sha)) && run.headBranch == Text(MainBranch)
    && run.name == Text(CheckName)
    && (run.path == Text(CheckPath) || run.path == Text(CheckPathAtMain)
        || run.path == Text(CheckPathAtRef))
    && run.workflowId == Whole(workflow)
    && PublicHere(run.repository) && PublicHere(run.headRepository)
  }

  function RunIdentity(run: Row, sha: string, workflow: int): Result<Identity, CiError> {
    if !OurRun(run, sha, workflow) then Failure(RunIdentityMismatch)
    else if !PositiveInteger(run.id) || !PositiveInteger(run.runAttempt) || !PositiveInteger(run.runNumber)
    then Failure(MetadataInvalid)
    else Success(Identity(run.id.n, run.runAttempt.n, run.runNumber.n))
  }

  /** A push run of the workflow on the trusted repository's main branch, at this commit and under this identity. */
  ghost predicate IsRun(run: Row, sha: string, workflow: int, identity: Identity) {
    var here := Repository(Text(TrustedRepository), Flag(false));
    && run == Row(Whole(identity.run), run.runId, Whole(identity.attempt), Whole(identity.number), Whole(workflow),
                  Text(PushEvent), Text(Other(sha)), Text(MainBranch), Text(CheckName), run.path, here, here,
                  run.status, run.conclusion)
    && run.path in {Text(CheckPath), Text(CheckPathAtMain), Text(CheckPathAtRef)}
    && 0 < identity.run < 0x8000_0000_0000_0000 && 0 < identity.attempt < 0x8000_0000_0000_0000
    && 0 < identity.number < 0x8000_0000_0000_0000
  }

  /** The checks of `_run_identity` accept exactly these runs. */
  lemma IdentityIsThatOfTheRun(run: Row, sha: string, workflow: int)
    ensures forall identity :: RunIdentity(run, sha, workflow) == Success(identity) <==>
                               IsRun(run, sha, workflow, identity)
  {
  }

  predicate Succeeded(fields: Row) {
    fields.status == Text(Completed) && fields.conclusion == Text(Successful)
  }

  function RequireSuccess(run: Row): Option<CiError> {
    if run.status != Text(Completed) then Some(RunPending)
    else if !Succeeded(run) then Some(RunFailed)
    else None
  }

  // ---------------------------------------------------------------- The latest run

  /** The identities in order, or the first refusal. */
  function Identities(runs: seq<Row>, sha: string, workflow: int): (r: Result<seq<Identity>, CiError>)
    ensures r.Success? <==> forall i :: 0 <= i < |runs| ==> RunIdentity(runs[i], sha, workflow).Success?
    ensures r.Success? ==> |r.value| == |runs| && forall i :: 0 <= i < |runs| ==>
      RunIdentity(runs[i], sha, workflow) == Success(r.value[i])
  {
    if runs == [] then Success([])
    else
      var before := Identities(runs[..|runs| - 1], sha, workflow);
      if before.Failure? then before
      else
        var last := RunIdentity(runs[|runs| - 1], sha, workflow);
        if last.Failure? then Failure(last.error) else Success(before.value + [last.value])
  }

  function Elements(xs: seq<int>): set<int> {
    set x | x in xs
  }

  /** Counting the elements tells whether there are repetitions. */
  lemma {:induction false} DistinctIff(xs: seq<int>)
    ensures |Elements(xs)| <= |xs|
    ensures |Elements(xs)| == |xs| <==> forall i, j :: 0 <= i < j < |xs| ==> xs[i] != xs[j]
  {
    if xs == [] {
      assert Elements(xs) == {};
    } else {
      var n := |xs| - 1;
      DistinctIff(xs[..n]);
      assert xs == xs[..n] + [xs[n]];
      assert Elements(xs) == Elements(xs[..n]) + {xs[n]};
      if xs[n] in xs[..n] {
        assert Elements(xs) == Elements(xs[..n]);
        var i :| 0 <= i < n && xs[i] == xs[n];
      }
    }
  }

  function RunIds(identities: seq<Identity>): seq<int> {
    seq(|identities|, i requires 0 <= i < |identities| => identities[i].run)
  }

  function RunNumbers(identities: seq<Identity>): seq<int> {
    seq(|identities|, i requires 0 <= i < |identities| => identities[i].number)
  }

  /** The first run with the greatest number. */
  function Greatest(identities: seq<Identity>): (best: nat)
    requires identities != []
    ensures best < |identities|
    ensures forall i :: 0 <= i < |identities| ==> identities[i].number <= identities[best].number
  {
    var n := |identities| - 1;
    if n == 0 then 0
    else
      var best := Greatest(identities[..n]);
      if identities[n].number > identities[best].number then n else best
  }

  /** The selection of `_latest_run` from a complete listing. */
  function LatestOf(runs: seq<Row>, sha: string, workflow: int): Result<Row, CiError> {
    if runs == [] then Failure(RunMissing)
    else
      var identities := Identities(runs, sha, workflow);
      if identities.Failure? then Failure(identities.error)
      else if |Elements(RunIds(identities.value))| != |runs| || |Elements(RunNumbers(identities.value))| != |runs| then
        Failure(MetadataInvalid)
      else Success(runs[Greatest(identities.value)])
  }

  function IdOf(run: Row): int {
    if run.id.Whole? then run.id.n else 0
  }

  function NumberOf(run: Row): int {
    if run.runNumber.Whole? then run.runNumber.n else 0
  }

  function AttemptOf(run: Row): int {
    if run.runAttempt.Whole? then run.runAttempt.n else 0
  }

  ghost predicate DifferentRuns(runs: seq<Row>) {
    forall i, j :: 0 <= i < j < |runs| ==> IdOf(runs[i]) != IdOf(runs[j]) && NumberOf(runs[i]) != NumberOf(runs[j])
  }

  ghost predicate Ours(run: Row, sha: string, workflow: int) {
    IsRun(run, sha, workflow, Identity(IdOf(run), AttemptOf(run), NumberOf(run)))
  }

  /** Every run is ours, no two share an id or a number, and `runs[k]` has the greatest number. */
  ghost predicate LatestAt(runs: seq<Row>, sha: string, workflow: int, k: nat) {
    && k < |runs| && DifferentRuns(runs)
    && (forall i :: 0 <= i < |runs| ==> Ours(runs[i], sha, workflow))
    && (forall i :: 0 <= i < |runs| ==> NumberOf(runs[i]) <= NumberOf(runs[k]))
  }

  lemma IdentityOf(run: Row, sha: string, workflow: int)
    ensures RunIdentity(run, sha, workflow).Success? <==> Ours(run, sha, workflow)
    ensures Ours(run, sha, workflow) ==>
      RunIdentity(run, sha, workflow) == Success(Identity(IdOf(run), AttemptOf(run), NumberOf(run)))
    ensures Ours(run, sha, workflow) ==> IdOf(run) > 0 && AttemptOf(run) > 0 && NumberOf(run) > 0
  {
  }

  lemma IdentitiesOf(runs: seq<Row>, sha: string, workflow: int)
    requires Identities(runs, sha, workflow).Success?
    ensures var ids := Identities(runs, sha, workflow).value;
            |ids| == |runs| && forall i :: 0 <= i < |runs| ==>
              ids[i] == Identity(IdOf(runs[i]), AttemptOf(runs[i]), NumberOf(runs[i]))
  {
    forall i | 0 <= i < |runs|
      ensures Identities(runs, sha, workflow).value[i] == Identity(IdOf(runs[i]), AttemptOf(runs[i]), NumberOf(runs[i]))
    {
      IdentityOf(runs[i], sha, workflow);
    }
  }

  lemma DistinctRuns(runs: seq<Row>, identities: seq<Identity>)
    requires |identities| == |runs|
    requires forall i :: 0 <= i < |runs| ==>
      identities[i] == Identity(IdOf(runs[i]), AttemptOf(runs[i]), NumberOf(runs[i]))
    ensures |Elements(RunIds(identities))| == |runs| && |Elements(RunNumbers(identities))| == |runs| <==>
      DifferentRuns(runs)
  {
    var ids, numbers := RunIds(identities), RunNumbers(identities);
    DistinctIff(ids);
    DistinctIff(numbers);
    assert forall i :: 0 <= i < |runs| ==> ids[i] == IdOf(runs[i]) && numbers[i] == NumberOf(runs[i]);
  }

  ghost predicate IsLatest(runs: seq<Row>, sha: string, workflow: int, run: Row) {
    exists k: nat {:trigger LatestAt(runs, sha, workflow, k)} :: LatestAt(runs, sha, workflow, k) && runs[k] == run
  }

  /** A run is selected exactly when it is the newest of a listing of distinct runs of ours. */
  lemma LatestIsNewest(runs: seq<Row>, sha: string, workflow: int)
    ensures forall run :: LatestOf(runs, sha, workflow) == Success(run) <==> IsLatest(runs, sha, workflow, run)
  {
    var r := Identities(runs, sha, workflow);
    if runs != [] && r.Success? {
      IdentitiesOf(runs, sha, workflow);
      DistinctRuns(runs, r.value);
      var best := Greatest(r.value);
      assert forall i :: 0 <= i < |runs| ==> r.value[i].number <= r.value[best].number;
      assert DifferentRuns(runs) ==> LatestAt(runs, sha, workflow, best);
      forall k: nat | LatestAt(runs, sha, workflow, k)
        ensures k == best
      {
        assert NumberOf(runs[k]) <= NumberOf(runs[best]) <= NumberOf(runs[k]);
      }
    }
  }

  /** `_latest_run`. */
  method LatestRun(server: Server, now: nat, sha: string, workflow: int)
    returns (result: Result<Row, CiError>, later: nat, ghost runs: seq<Row>)
    ensures now < later
    ensures result.Success? ==>
      Lists(server, now, RunsOf(workflow, sha), runs, later) && IsLatest(runs, sha, workflow, result.value)
    ensures forall listed, end, run ::
      Lists(server, now, RunsOf(workflow, sha), listed, end) && IsLatest(listed, sha, workflow, run) ==>
      later == end && result == Success(run)
  {
    var items, after := ReadItems(server, now, RunsOf(workflow, sha));
    later, runs := after, [];
    if items.Failure? {
      return Failure(items.error), later, runs;
    }
    runs := items.value;
    LatestIsNewest(items.value, sha, workflow);
    return LatestOf(items.value, sha, workflow), later, runs;
  }

  // ---------------------------------------------------------------- Jobs

  predicate RightAttempt(job: Row, run: int, attempt: int, sha: string) {
    && job.runId == Whole(run) && job.headSha == Text(Other(sha))
    && (job.runAttempt == Missing || job.runAttempt == Whole(attempt))
  }

  /** A named job of this attempt and commit, which has succeeded if it is a required one. */
  ghost predicate Acceptable(job: Row, run: int, attempt: int, sha: string) {
    && job.id.Whole? && 0 < job.id.n < 0x8000_0000_0000_0000 && job.name.Text?
    && job.runId == Whole(run) && job.headSha == Text(Other(sha)) && job.runAttempt in {Missing, Whole(attempt)}
    && (job.name.word in {Backend, Frontend, Postgres, Docker} ==>
          job.status == Text(Completed) && job.conclusion == Text(Successful))
  }

  /** The checks of one job, apart from repetitions. */
  lemma JobChecks(job: Row, run: int, attempt: int, sha: string)
    ensures Acceptable(job, run, attempt, sha) <==>
            && PositiveInteger(job.id) && RightAttempt(job, run, attempt, sha) && job.name.Text?
            && (job.name.word in REQUIRED_JOBS ==> Succeeded(job))
  {
  }

  ghost predicate Present(jobs: seq<Row>, name: Word) {
    exists i :: 0 <= i < |jobs| && jobs[i].name == Text(name)
  }

  lemma MissingJob(seen: set<Word>) returns (name: Word)
    requires seen <= REQUIRED_JOBS && seen != REQUIRED_JOBS
    ensures name in REQUIRED_JOBS && name !in seen
  {
    name := if Backend !in seen then Backend else if Frontend !in seen then Frontend
            else if Postgres !in seen then Postgres else Docker;
    assert !(REQUIRED_JOBS <= seen);
  }

  /** The jobs have an id and a name. */
  predicate Typed(jobs: seq<Row>) {
    forall k :: 0 <= k < |jobs| ==> jobs[k].name.Text? && jobs[k].id.Whole?
  }

  ghost predicate Seen(jobs: seq<Row>, ids: set<int>, names: set<Word>, required: set<Word>)
    requires Typed(jobs)
  {
    && (forall k :: 0 <= k < |jobs| ==> jobs[k].id.n in ids)
    && (forall id :: id in ids ==> exists k :: 0 <= k < |jobs| && jobs[k].id.n == id)
    && names <= required
    && (forall k :: 0 <= k < |jobs| && jobs[k].name.word in required ==> jobs[k].name.word in names)
    && (forall name :: name in names ==> Present(jobs, name))
  }

  /** No id twice, no required name twice. */
  ghost predicate Different(jobs: seq<Row>, required: set<Word>)
    requires Typed(jobs)
  {
    && (forall i, j :: 0 <= i < j < |jobs| ==> jobs[i].id.n != jobs[j].id.n)
    && (forall i, j :: 0 <= i < j < |jobs| && jobs[i].name.word in required ==> jobs[i].name.word != jobs[j].name.word)
  }

  ghost predicate AllAcceptable(jobs: seq<Row>, run: int, attempt: int, sha: string) {
    forall i :: 0 <= i < |jobs| ==> Acceptable(jobs[i], run, attempt, sha)
  }

  /** Each required job is there exactly once, and succeeded. */
  ghost predicate JobsQualify(jobs: seq<Row>, run: int, attempt: int, sha: string) {
    && AllAcceptable(jobs, run, attempt, sha) && Typed(jobs) && Different(jobs, {Backend, Frontend, Postgres, Docker})
    && Present(jobs, Backend) && Present(jobs, Frontend) && Present(jobs, Postgres) && Present(jobs, Docker)
  }

  lemma OneMoreJobIsSeen(jobs: seq<Row>, job: Row, ids: set<int>, names: set<Word>, required: set<Word>)
    requires Typed(jobs) && job.name.Text? && job.id.Whole? && Seen(jobs, ids, names, required)
    ensures Typed(jobs + [job])
    ensures var name := job.name.word;
            Seen(jobs + [job], ids + {job.id.n}, if name in required then names + {name} else names, required)
  {
    var longer, n := jobs + [job], |jobs|;
    assert longer[n] == job && forall k :: 0 <= k < n ==> longer[k] == jobs[k];
    forall name | name in names
      ensures Present(longer, name)
    {
      var k :| 0 <= k < n && jobs[k].name == Text(name);
      assert longer[k].name == Text(name);
    }
    assert longer[n].name == Text(job.name.word);
    forall id | id in ids
      ensures exists k :: 0 <= k < |longer| && longer[k].id.n == id
    {
      var k :| 0 <= k < n && jobs[k].id.n == id;
      assert longer[k].id.n == id;
    }
  }

  lemma OneMoreJobIsDifferent(jobs: seq<Row>, job: Row, ids: set<int>, names: set<Word>, required: set<Word>)
    requires Typed(jobs) && job.name.Text? && job.id.Whole? && Seen(jobs, ids, names, required)
    requires Different(jobs, required)
    ensures Typed(jobs + [job])
    ensures Different(jobs + [job], required) <==> job.id.n !in ids && job.name.word !in names
  {
    var longer, n := jobs + [job], |jobs|;
    assert longer[n] == job && forall k :: 0 <= k < n ==> longer[k] == jobs[k];
    if job.id.n in ids {
      var k :| 0 <= k < n && jobs[k].id.n == job.id.n;
      assert longer[k].id.n == longer[n].id.n;
    } else if job.name.word in names {
      var k :| 0 <= k < n && jobs[k].name == Text(job.name.word);
      assert longer[k].name.word == longer[n].name.word;
    }
  }

  lemma PrefixQualifies(jobs: seq<Row>, run: int, attempt: int, sha: string, n: nat)
    requires n < |jobs| && JobsQualify(jobs, run, attempt, sha)
    ensures Acceptable(jobs[n], run, attempt, sha) && Different(jobs[..n + 1], REQUIRED_JOBS)
  {
  }

  /** The loop of `_qualify_jobs`. */
  method CheckJobs(jobs: seq<Row>, run: int, attempt: int, sha: string) returns (refusal: Option<CiError>)
    ensures refusal.None? <==> JobsQualify(jobs, run, attempt, sha)
    ensures refusal == Some(JobsMissing) ==> exists name :: name in REQUIRED_JOBS && !Present(jobs, name)
  {
    hide Acceptable;
    var seenIds: set<int>, seenRequired: set<Word> := {}, {};
    for i := 0 to |jobs|
      invariant AllAcceptable(jobs[..i], run, attempt, sha) && Typed(jobs[..i])
      invariant Seen(jobs[..i], seenIds, seenRequired, REQUIRED_JOBS) && Different(jobs[..i], REQUIRED_JOBS)
    {
      var job := jobs[i];
      assert jobs[..i + 1] == jobs[..i] + [job];
      JobChecks(job, run, attempt, sha);
      if Acceptable(job, run, attempt, sha) {
        OneMoreJobIsSeen(jobs[..i], job, seenIds, seenRequired, REQUIRED_JOBS);
        OneMoreJobIsDifferent(jobs[..i], job, seenIds, seenRequired, REQUIRED_JOBS);
      }
      if JobsQualify(jobs, run, attempt, sha) {
        PrefixQualifies(jobs, run, attempt, sha, i);
      }
      if !PositiveInteger(job.id) {
        return Some(MetadataInvalid);
      }
      if job.id.n in seenIds {
        return Some(MetadataInvalid);
      }
      seenIds := seenIds + {job.id.n};
      if !RightAttempt(job, run, attempt, sha) {
        return Some(RunIdentityMismatch);
      }
      var name := job.name;
      if !name.Text? {
        return Some(MetadataInvalid);
      }
      if name.word in REQUIRED_JOBS {
        if name.word in seenRequired {
          return Some(MetadataInvalid);
        }
        seenRequired := seenRequired + {name.word};
        if !Succeeded(job) {
          return Some(JobFailed);
        }
      }
    }
    assert jobs[..|jobs|] == jobs;
    if seenRequired != REQUIRED_JOBS {
      ghost var missing := MissingJob(seenRequired);
      assert !Present(jobs, missing);
      return Some(JobsMissing);
    }
    return None;
  }

  /** The complete job listing read from `now` to `later` qualifies. */
  ghost predicate Worked(server: Server, now: nat, sha: string, identity: Identity, jobs: seq<Row>, later: nat) {
    && Lists(server, now, JobsOf(identity.run, identity.attempt), jobs, later)
    && JobsQualify(jobs, identity.run, identity.attempt, sha)
  }

  /** `_qualify_jobs`. */
  method QualifyJobs(server: Server, now: nat, identity: Identity, sha: string)
    returns (refusal: Option<CiError>, later: nat, ghost jobs: seq<Row>)
    ensures refusal.None? ==> Worked(server, now, sha, identity, jobs, later)
    ensures forall listed, end :: Worked(server, now, sha, identity, listed, end) ==> refusal.None? && later == end
  {
    var items, after := ReadItems(server, now, JobsOf(identity.run, identity.attempt));
    later, jobs := after, [];
    if items.Failure? {
      return Some(items.error), later, jobs;
    }
    jobs := items.value;
    refusal := CheckJobs(items.value, identity.run, identity.attempt, sha);
  }

  // ---------------------------------------------------------------- Qualification

  predicate IsSha(sha: string) {
    |sha| == 40 && forall i :: 0 <= i < 40 ==> '0' <= sha[i] <= '9' || 'a' <= sha[i] <= 'f'
  }

  predicate OurWorkflow(workflow: Workflow)
    requires PositiveInteger(workflow.id)
  {
    && workflow.name == Text(CheckName) && workflow.path == Text(CheckPath)
    && workflow.state == Text(Active)
    && workflow.url == Text(WorkflowUrl(workflow.id.n))
  }

  function WorkflowOf(answer: Result<Workflow, CiError>): Result<int, CiError> {
    if answer.Failure? then Failure(Transport)
    else if !PositiveInteger(answer.value.id) then Failure(MetadataInvalid)
    else if !OurWorkflow(answer.value) then Failure(WorkflowMismatch)
    else Success(answer.value.id.n)
  }

  /** The run is ours, its identity is `identity` and it succeeded. */
  ghost predicate Confirms(run: Row, sha: string, workflow: int, identity: Identity) {
    && IsRun(run, sha, workflow, identity)
    && run.status == Text(Completed) && run.conclusion == Text(Successful)
  }

  lemma RunChecks(run: Row, sha: string, workflow: int)
    ensures forall identity :: Confirms(run, sha, workflow, identity) <==>
                               RunIdentity(run, sha, workflow) == Success(identity) && RequireSuccess(run).None?
  {
    IdentityIsThatOfTheRun(run, sha, workflow);
  }

  /** The answer describes the active workflow that the release trusts. */
  ghost predicate IsWorkflow(answer: Result<Workflow, CiError>, workflow: int) {
    && answer == Success(Workflow(Whole(workflow), Text(CheckName), Text(CheckPath), Text(Active),
                                  Text(WorkflowUrl(workflow))))
    && 0 < workflow < 0x8000_0000_0000_0000
  }

  lemma WorkflowChecks(answer: Result<Workflow, CiError>)
    ensures forall workflow :: WorkflowOf(answer) == Success(workflow) <==> IsWorkflow(answer, workflow)
  {
  }

  ghost predicate HexDigit(c: char) {
    c in {'0', '1', '2', '3', '4', '5', '6', '7', '8', '9', 'a', 'b', 'c', 'd', 'e', 'f'}
  }

  /** Forty lower-case hexadecimal digits. */
  ghost predicate IsCommit(sha: string) {
    |sha| == 40 && forall i :: 0 <= i < 40 ==> HexDigit(sha[i])
  }

  lemma ShaChecks(sha: string)
    ensures IsSha(sha) <==> IsCommit(sha)
  {
    forall i | 0 <= i < |sha| ensures HexDigit(sha[i]) <==> '0' <= sha[i] <= '9' || 'a' <= sha[i] <= 'f' {
    }
  }

  /** The newest of the runs has the identity and succeeded. */
  ghost predicate Newest(runs: seq<Row>, sha: string, workflow: int, identity: Identity) {
    exists run :: IsLatest(runs, sha, workflow, run) && Confirms(run, sha, workflow, identity)
  }

  ghost predicate ConfirmsListing(server: Server, now: nat, sha: string, workflow: int, identity: Identity,
                                  runs: seq<Row>, later: nat) {
    Lists(server, now, RunsOf(workflow, sha), runs, later) && Newest(runs, sha, workflow, identity)
  }

  ghost predicate ConfirmsRun(server: Server, now: nat, sha: string, workflow: int, identity: Identity) {
    var answer := server.run(now, identity.run);
    answer.Success? && Confirms(answer.value, sha, workflow, identity)
  }

  /** The listing is read from `now` to just before `readAt`, and the run itself at `readAt`. */
  ghost predicate Reads(server: Server, now: nat, sha: string, workflow: int, identity: Identity, runs: seq<Row>,
                        readAt: nat) {
    ConfirmsListing(server, now, sha, workflow, identity, runs, readAt)
      && ConfirmsRun(server, readAt, sha, workflow, identity)
  }

  /** What one qualification reads: the run listing, the run, its jobs, the listing again, the run again. */
  datatype Observed = Observed(
    identity: Identity, listed: seq<Row>, readAt: nat, jobs: seq<Row>, relistedAt: nat, relisted: seq<Row>,
    rereadAt: nat)

  ghost predicate ReadsTwice(server: Server, now: nat, sha: string, workflow: int, o: Observed) {
    && Reads(server, now, sha, workflow, o.identity, o.listed, o.readAt)
    && Worked(server, o.readAt + 1, sha, o.identity, o.jobs, o.relistedAt)
    && Reads(server, o.relistedAt, sha, workflow, o.identity, o.relisted, o.rereadAt)
  }

  /** The observation supports the qualification of `sha` by requests from `now` on. */
  ghost predicate Supports(server: Server, now: nat, sha: string, workflow: int, o: Observed) {
    IsCommit(sha) && IsWorkflow(server.workflow(now), workflow) && ReadsTwice(server, now + 1, sha, workflow, o)
  }

  /**
   `_latest_run` with the checks that follow it: the identity, which must be the expected one if there is one, and
   success.
   */
  method ListedIdentity(server: Server, now: nat, sha: string, workflow: int, expected: Option<Identity>)
    returns (result: Result<Identity, CiError>, later: nat, ghost runs: seq<Row>)
    ensures now < later
    ensures result.Success? ==> ConfirmsListing(server, now, sha, workflow, result.value, runs, later)
    ensures result.Success? && expected.Some? ==> result == Success(expected.value)
    ensures forall listed, identity, end :: ConfirmsListing(server, now, sha, workflow, identity, listed, end) ==>
      later == end && (expected == None || expected == Some(identity) ==> result == Success(identity))
  {
    var listed, after, seen := LatestRun(server, now, sha, workflow);
    later, runs := after, seen;
    if listed.Failure? {
      return Failure(listed.error), later, runs;
    }
    var identity := RunIdentity(listed.value, sha, workflow).value;
    if expected.Some? && identity != expected.value {
      return Failure(MetadataChanged), later, runs;
    }
    var refusal := RequireSuccess(listed.value);
    if refusal.Some? {
      return Failure(refusal.value), later, runs;
    }
    return Success(identity), later, runs;
  }

  /** One reading of the run, which must still have the identity. */
  method Reread(server: Server, now: nat, sha: string, workflow: int, identity: Identity)
    returns (refusal: Option<CiError>)
    ensures refusal.None? <==> ConfirmsRun(server, now, sha, workflow, identity)
  {
    var current := server.run(now, identity.run);
    if current.Failure? {
      return Some(Transport);
    }
    var reread := RunIdentity(current.value, sha, workflow);
    if reread.Failure? {
      return Some(reread.error);
    }
    if reread.value != identity {
      return Some(MetadataChanged);
    }
    return RequireSuccess(current.value);
  }

  /** The listing and then the run itself, under one identity: the expected one if there is one. */
  method ReadRun(server: Server, now: nat, sha: string, workflow: int, expected: Option<Identity>)
    returns (result: Result<Identity, CiError>, readAt: nat, ghost runs: seq<Row>)
    ensures result.Success? ==> Reads(server, now, sha, workflow, result.value, runs, readAt)
    ensures result.Success? && expected.Some? ==> result == Success(expected.value)
    ensures forall listed, identity, end :: Reads(server, now, sha, workflow, identity, listed, end) ==>
      readAt == end && (expected == None || expected == Some(identity) ==> result == Success(identity))
  {
    var listed, later, seen := ListedIdentity(server, now, sha, workflow, expected);
    readAt, runs := later, seen;
    if listed.Failure? {
      return listed, readAt, runs;
    }
    var refusal := Reread(server, readAt, sha, workflow, listed.value);
    if refusal.Some? {
      return Failure(refusal.value), readAt, runs;
    }
    return listed, readAt, runs;
  }

  ghost predicate NeverSupports(server: Server, now: nat, sha: string) {
    forall w, o :: !Supports(server, now, sha, w, o)
  }

  lemma NothingToRead(server: Server, now: nat, sha: string, workflow: int, listedAt: nat)
    requires IsWorkflow(server.workflow(now), workflow) && listedAt == now + 1
    requires forall identity, runs, end :: !Reads(server, listedAt, sha, workflow, identity, runs, end)
    ensures NeverSupports(server, now, sha)
  {
    hide Reads, Worked;
  }

  lemma NothingWorked(server: Server, now: nat, sha: string, workflow: int, identity: Identity, listedAt: nat,
                      jobsAt: nat)
    requires IsWorkflow(server.workflow(now), workflow) && listedAt == now + 1
    requires forall other, runs, end: nat :: Reads(server, listedAt, sha, workflow, other, runs, end) ==>
      other == identity && end + 1 == jobsAt
    requires forall jobs, end :: !Worked(server, jobsAt, sha, identity, jobs, end)
    ensures NeverSupports(server, now, sha)
  {
    hide Reads, Worked;
  }

  lemma NothingToReread(server: Server, now: nat, sha: string, workflow: int, identity: Identity,
                        listedAt: nat, jobsAt: nat, relistedAt: nat)
    requires IsWorkflow(server.workflow(now), workflow) && listedAt == now + 1
    requires forall other, runs, end: nat :: Reads(server, listedAt, sha, workflow, other, runs, end) ==>
      other == identity && end + 1 == jobsAt
    requires forall jobs, end :: Worked(server, jobsAt, sha, identity, jobs, end) ==> end == relistedAt
    requires forall runs, end :: !Reads(server, relistedAt, sha, workflow, identity, runs, end)
    ensures NeverSupports(server, now, sha)
  {
    hide Reads, Worked;
  }

  /** `qualify_ci`: a commit qualifies exactly when the server's answers support it. */
  method QualifyCi(server: Server, now: nat, sha: string)
    returns (result: Result<Verdict, CiError>, ghost workflow: int, ghost observed: Observed)
    ensures result.Success? ==> Supports(server, now, sha, workflow, observed)
    ensures result.Success? ==> result.value == Verdict(observed.identity.run, observed.identity.attempt, true)
    ensures result.Failure? ==> NeverSupports(server, now, sha)
  {
    hide Worked, Reads;
    workflow, observed := 0, Observed(Identity(0, 0, 0), [], 0, [], 0, [], 0);
    ShaChecks(sha);
    if !IsSha(sha) {
      return Failure(TargetInvalid), workflow, observed;
    }
    var id := WorkflowOf(server.workflow(now));
    WorkflowChecks(server.workflow(now));
    if id.Failure? {
      return Failure(id.error), workflow, observed;
    }
    workflow := id.value;
    var read, readAt, runs := ReadRun(server, now + 1, sha, id.value, None);
    if read.Failure? {
      NothingToRead(server, now, sha, workflow, now + 1);
      return Failure(read.error), workflow, observed;
    }
    var refusal, relistedAt, jobs := QualifyJobs(server, readAt + 1, read.value, sha);
    if refusal.Some? {
      NothingWorked(server, now, sha, workflow, read.value, now + 1, readAt + 1);
      return Failure(refusal.value), workflow, observed;
    }
    var reread, rereadAt, again := ReadRun(server, relistedAt, sha, id.value, Some(read.value));
    if reread.Failure? {
      NothingToReread(server, now, sha, workflow, read.value, now + 1, readAt + 1, relistedAt);
      return Failure(reread.error), workflow, observed;
    }
    observed := Observed(read.value, runs, readAt, jobs, relistedAt, again, rereadAt);
    return Success(Verdict(read.value.run, read.value.attempt, true)), workflow, observed;
  }
}
