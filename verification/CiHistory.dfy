/**
 What a qualification tells about the server's history.
 `history(t)` lists the push runs of the commit at time `t`, newest first, and request `i` is answered at time
 `when(i)`.
 */
module CiHistory {
  import opened Wrappers
  import opened CiListings
  import opened CiQualification

  /** Successful answers show the state of their time. */
  ghost predicate Honest(server: Server, what: Listing, history: nat -> seq<Row>, when: nat -> nat) {
    && (forall i, j :: i <= j ==> when(i) <= when(j))
    && (forall call: nat, page: nat :: page > 0 && server.page(call, what, page).Success? ==>
          Shows(server.page(call, what, page), |history(when(call))|, PageOf(history(when(call)), page)))
    && (forall call, id :: server.run(call, id).Success? ==>
          server.run(call, id).value in history(when(call)) && IdOf(server.run(call, id).value) == id)
  }

  /** Run numbers and attempts only grow, and a run keeps its id and its number. */
  ghost predicate Growing(history: nat -> seq<Row>) {
    && (forall t, i, j :: 0 <= i < j < |history(t)| ==> NumberOf(history(t)[i]) > NumberOf(history(t)[j]))
    && (forall s, t :: s <= t && history(s) != [] ==>
          history(t) != [] && NumberOf(history(s)[0]) <= NumberOf(history(t)[0]))
    && (forall s, t, i, j :: s <= t && 0 <= i < |history(s)| && 0 <= j < |history(t)| ==>
          Continues(history(s)[i], history(t)[j]))
  }

  /** The later row shows another run, or the same run at no earlier attempt. */
  ghost predicate Continues(earlier: Row, later: Row) {
    && (IdOf(earlier) == IdOf(later) <==> NumberOf(earlier) == NumberOf(later))
    && (IdOf(earlier) == IdOf(later) ==> AttemptOf(earlier) <= AttemptOf(later))
  }

  ghost predicate Has(run: Row, identity: Identity) {
    Identity(IdOf(run), AttemptOf(run), NumberOf(run)) == identity
  }

  /** Row `k` of a listing is row `k` of the state at the time of its page. */
  lemma RowComesFromHistory(server: Server, what: Listing, history: nat -> seq<Row>, when: nat -> nat,
                            now: nat, rows: seq<Row>, later: nat, k: nat) returns (call: nat)
    requires Honest(server, what, history, when) && Lists(server, now, what, rows, later) && k < |rows|
    ensures now <= call < later && (k < 100 ==> call == now)
    ensures k < |history(when(call))| && history(when(call))[k] == rows[k]
  {
    var page := k / 100 + 1;
    call := now + k / 100;
    assert Answers(server, now, what, |rows|, rows, page);
    var there := history(when(call));
    assert |there| == |rows| && PageOf(there, page) == PageOf(rows, page);
    assert PageOf(there, page)[k - 100 * (page - 1)] == there[k];
    assert PageOf(rows, page)[k - 100 * (page - 1)] == rows[k];
  }

  /** The confirmed number bounds the newest number before the listing and is bounded by the newest number after it. */
  lemma ListingBoundsNewest(server: Server, now: nat, sha: string, workflow: int, identity: Identity, runs: seq<Row>,
                            later: nat,
                            history: nat -> seq<Row>, when: nat -> nat) returns (call: nat, k: nat)
    requires Honest(server, RunsOf(workflow, sha), history, when) && Growing(history)
    requires ConfirmsListing(server, now, sha, workflow, identity, runs, later)
    ensures now <= call < later && k < |history(when(call))| && Has(history(when(call))[k], identity)
    ensures history(when(now)) != [] && NumberOf(history(when(now))[0]) <= identity.number
    ensures history(when(later - 1)) != [] && identity.number <= NumberOf(history(when(later - 1))[0])
  {
    var run :| IsLatest(runs, sha, workflow, run) && Confirms(run, sha, workflow, identity);
    k :| LatestAt(runs, sha, workflow, k) && runs[k] == run;
    IdentityOf(run, sha, workflow);
    call := RowComesFromHistory(server, RunsOf(workflow, sha), history, when, now, runs, later, k);
    var first := RowComesFromHistory(server, RunsOf(workflow, sha), history, when, now, runs, later, 0);
    assert NumberOf(runs[0]) <= NumberOf(runs[k]);
    assert k > 0 ==> NumberOf(history(when(call))[0]) > NumberOf(history(when(call))[k]);
    assert when(call) <= when(later - 1);
  }

  /** From the end of the first listing to the start of the second, the qualified run and attempt is the newest. */
  lemma OneRunIsNewestThroughout(server: Server, now: nat, sha: string, workflow: int, o: Observed,
                                 history: nat -> seq<Row>, when: nat -> nat, t: nat)
    requires Honest(server, RunsOf(workflow, sha), history, when) && Growing(history)
    requires Supports(server, now, sha, workflow, o)
    requires when(o.readAt - 1) <= t <= when(o.relistedAt)
    ensures history(t) != [] && Has(history(t)[0], o.identity)
  {
    hide Lists, Newest, Worked, RequireSuccess;
    var call, k := ListingBoundsNewest(server, now + 1, sha, workflow, o.identity, o.listed, o.readAt, history, when);
    var again, l := ListingBoundsNewest(server, o.relistedAt, sha, workflow, o.identity, o.relisted, o.rereadAt,
      history, when);
    assert NumberOf(history(when(o.readAt - 1))[0]) <= NumberOf(history(t)[0]);
    assert NumberOf(history(t)[0]) <= NumberOf(history(when(o.relistedAt))[0]);
    assert Continues(history(when(call))[k], history(t)[0]) && Continues(history(t)[0], history(when(again))[l]);
  }

  /** The qualified attempt is the only one that the run shows until the last request. */
  lemma TheAttemptStands(server: Server, now: nat, sha: string, workflow: int, o: Observed,
                         history: nat -> seq<Row>, when: nat -> nat, t: nat, i: nat)
    requires Honest(server, RunsOf(workflow, sha), history, when) && Growing(history)
    requires Supports(server, now, sha, workflow, o)
    requires when(o.readAt - 1) <= t <= when(o.rereadAt) && i < |history(t)| && IdOf(history(t)[i]) == o.identity.run
    ensures Has(history(t)[i], o.identity)
  {
    hide Lists, Newest, Worked, RequireSuccess;
    var call, k := ListingBoundsNewest(server, now + 1, sha, workflow, o.identity, o.listed, o.readAt, history, when);
    var last := server.run(o.rereadAt, o.identity.run).value;
    IdentityOf(last, sha, workflow);
    var j :| 0 <= j < |history(when(o.rereadAt))| && history(when(o.rereadAt))[j] == last;
    assert Continues(history(when(call))[k], history(t)[i]) && Continues(history(t)[i], history(when(o.rereadAt))[j]);
  }

  lemma RequestsAreOrdered(server: Server, now: nat, sha: string, workflow: int, o: Observed)
    requires Supports(server, now, sha, workflow, o)
    ensures now < o.readAt < o.relistedAt < o.rereadAt
  {
    hide Confirms, JobsQualify, Newest;
  }

  ghost predicate Heads(history: nat -> seq<Row>, t: nat, identity: Identity) {
    history(t) != [] && Has(history(t)[0], identity)
  }

  /**
   The qualified run and attempt was the newest up to the last request exactly if the newest run at that moment still
   has its number.
   */
  lemma NewestUntilTheLastRequestIff(server: Server, now: nat, sha: string, workflow: int, o: Observed,
                                     history: nat -> seq<Row>, when: nat -> nat)
    requires Honest(server, RunsOf(workflow, sha), history, when) && Growing(history)
    requires Supports(server, now, sha, workflow, o)
    ensures (forall t :: when(o.readAt - 1) <= t <= when(o.rereadAt) ==> Heads(history, t, o.identity))
       <==> (history(when(o.rereadAt)) != [] && NumberOf(history(when(o.rereadAt))[0]) == o.identity.number)
  {
    hide Lists, Newest, Worked, RequireSuccess, JobsQualify, Honest;
    RequestsAreOrdered(server, now, sha, workflow, o);
    TimesGrow(server, RunsOf(workflow, sha), history, when, o.readAt - 1, o.rereadAt);
    if history(when(o.rereadAt)) != [] && NumberOf(history(when(o.rereadAt))[0]) == o.identity.number {
      var call, k := ListingBoundsNewest(server, now + 1, sha, workflow, o.identity, o.listed, o.readAt, history, when);
      TimesGrow(server, RunsOf(workflow, sha), history, when, call, o.readAt - 1);
      forall t | when(o.readAt - 1) <= t <= when(o.rereadAt)
        ensures Heads(history, t, o.identity)
      {
        assert NumberOf(history(when(o.readAt - 1))[0]) <= NumberOf(history(t)[0]);
        assert NumberOf(history(t)[0]) <= NumberOf(history(when(o.rereadAt))[0]);
        assert Continues(history(when(call))[k], history(t)[0]);
        TheAttemptStands(server, now, sha, workflow, o, history, when, t, 0);
      }
    } else {
      assert !Heads(history, when(o.rereadAt), o.identity);
    }
  }

  lemma TimesGrow(server: Server, what: Listing, history: nat -> seq<Row>, when: nat -> nat, i: nat, j: nat)
    requires Honest(server, what, history, when) && i <= j
    ensures when(i) <= when(j)
  {
  }

  /** A server whose listing stands still while it is read lists it, provided that it has at most 500 rows. */
  lemma StandingListingsAreRead(server: Server, what: Listing, history: nat -> seq<Row>, when: nat -> nat,
                                now: nat, rows: seq<Row>, later: nat)
    requires Honest(server, what, history, when) && |rows| <= 500
    requires now < later && |rows| <= 100 * (later - now) && (later == now + 1 || 100 * (later - now - 1) < |rows|)
    requires forall call :: now <= call < later ==> history(when(call)) == rows
    requires forall call: nat, page: nat :: now <= call < later ==> server.page(call, what, page).Success?
    ensures Lists(server, now, what, rows, later)
  {
    forall page | 1 <= page <= later - now
      ensures Answers(server, now, what, |rows|, rows, page)
    {
      var call := now + page - 1;
      assert server.page(call, what, page).Success? && history(when(call)) == rows;
    }
  }

  // ---------------------------------------------------------------- The last request watches only the run

  function Sha(): string {
    seq(40, i => 'a')
  }

  function Run(number: int): Row {
    var here := Repository(Text(TrustedRepository), Flag(false));
    Row(Whole(number), Missing, Whole(1), Whole(number), Whole(7), Text(PushEvent), Text(Other(Sha())),
        Text(MainBranch), Text(CheckName), Text(CheckPath), here, here, Text(Completed), Text(Successful))
  }

  function Job(id: int, name: Word): Row {
    Row(Whole(id), Whole(1), Missing, Missing, Missing, Missing, Text(Other(Sha())), Missing,
        Text(name), Missing, NoRepository, NoRepository, Text(Completed), Text(Successful))
  }

  function AllJobs(): seq<Row> {
    [Job(1, Backend), Job(2, Frontend), Job(3, Postgres), Job(4, Docker)]
  }

  /** A second run appears at time 5. */
  function LateRun(t: nat): seq<Row> {
    if t < 5 then [Run(1)] else [Run(2), Run(1)]
  }

  function LateServer(): Server {
    Server(t => Success(Workflow(Whole(7), Text(CheckName), Text(CheckPath), Text(Active), Text(WorkflowUrl(7)))),
           (t, id) => if id == 1 then Success(Run(1)) else Failure(Transport),
           (t: nat, what: Listing, page: nat) =>
             if page == 0 then Failure(Transport)
             else
               var rows := if what.RunsOf? then LateRun(t) else AllJobs();
               Success(Page(Whole(|rows|), List(PageOf(rows, page)))))
  }

  lemma JobIsAcceptable(id: int, name: Word)
    requires 0 < id < 5
    ensures Acceptable(Job(id, name), 1, 1, Sha())
  {
  }

  lemma AllJobsQualify()
    ensures JobsQualify(AllJobs(), 1, 1, Sha())
  {
    hide Acceptable;
    var jobs, names := AllJobs(), [Backend, Frontend, Postgres, Docker];
    forall i | 0 <= i < 4
      ensures jobs[i] == Job(i + 1, names[i]) && Acceptable(jobs[i], 1, 1, Sha())
    {
      JobIsAcceptable(i + 1, names[i]);
    }
    assert names[0] == Backend && names[1] == Frontend && names[2] == Postgres && names[3] == Docker;
    forall name | name in REQUIRED_JOBS
      ensures Present(jobs, name)
    {
      var i := if name == Backend then 0 else if name == Frontend then 1 else if name == Postgres then 2 else 3;
      assert jobs[i].name == Text(name);
    }
    assert forall i, j :: 0 <= i < j < 4 ==> names[i] != names[j];
  }

  lemma OneRunIsListed(server: Server, now: nat)
    requires server.page(now, RunsOf(7, Sha()), 1) == Success(Page(Whole(1), List([Run(1)])))
    ensures ConfirmsListing(server, now, Sha(), 7, Identity(1, 1, 1), [Run(1)], now + 1)
  {
    assert PageOf([Run(1)], 1) == [Run(1)];
    assert LatestAt([Run(1)], Sha(), 7, 0);
    assert IsLatest([Run(1)], Sha(), 7, Run(1)) && Confirms(Run(1), Sha(), 7, Identity(1, 1, 1));
  }

  function LateObservation(): Observed {
    Observed(Identity(1, 1, 1), [Run(1)], 2, AllJobs(), 4, [Run(1)], 5)
  }

  lemma RunIsConfirmed()
    ensures Confirms(Run(1), Sha(), 7, Identity(1, 1, 1))
  {
  }

  lemma LateServerSupports()
    ensures Supports(LateServer(), 0, Sha(), 7, LateObservation())
  {
    hide JobsQualify, ConfirmsListing, Confirms;
    var server := LateServer();
    assert PageOf(AllJobs(), 1) == AllJobs() && |AllJobs()| == 4;
    assert PageOf(LateRun(1), 1) == [Run(1)] && PageOf(LateRun(4), 1) == [Run(1)];
    OneRunIsListed(server, 1);
    OneRunIsListed(server, 4);
    AllJobsQualify();
    RunIsConfirmed();
    assert Answers(server, 3, JobsOf(1, 1), 4, AllJobs(), 1);
  }

  lemma LateServerIsHonest()
    ensures Honest(LateServer(), RunsOf(7, Sha()), LateRun, i => i)
  {
    var server := LateServer();
    forall call: nat, id | server.run(call, id).Success?
      ensures server.run(call, id).value in LateRun(call) && IdOf(server.run(call, id).value) == id
    {
      assert LateRun(call)[|LateRun(call)| - 1] == Run(1);
    }
  }

  /** The bound of `OneRunIsNewestThroughout` is sharp: a run that appears after the second listing goes unnoticed. */
  lemma ALaterRunGoesUnnoticed() returns (o: Observed)
    ensures Supports(LateServer(), 0, Sha(), 7, o) && Honest(LateServer(), RunsOf(7, Sha()), LateRun, i => i)
    ensures Growing(LateRun)
    ensures LateRun(o.rereadAt) != [] && !Has(LateRun(o.rereadAt)[0], o.identity)
  {
    hide Supports, Honest;
    o := LateObservation();
    LateServerSupports();
    LateServerIsHonest();
  }
}
