/**
 The operator's update: everything it must establish before it hands over to the guarded upgrade, and what it does
 with the outcome. Replies from outside are arbitrary; the upgrade itself runs in a fresh deployment pinned to the
 built image.
 */
module Manager {
  import opened Wrappers
  import U = UpgradeLog
  import S = UpgradeScripts
  import D = Upgrade
  import opened UpgradeSafety

  datatype App = App(release: int, image: U.Image, healthy: bool)

  /** `licenceOnly` says that every readiness check but the licence passed and the licence did not. */
  datatype Report = Report(
    docker: bool, clean: bool, app: Option<App>, database: Option<bool>, ready: bool, health: bool,
    licenceOnly: bool, public: Option<bool>)

  datatype Question =
    | Status | QualifySource(target: int, running: int) | QualifyCi(target: int) | Approve(target: int) | AskKey
    | SourceState | Checkout(target: int) | ReleaseSource(target: int) | Build(target: int)
    | RunUpgrade(target: int, image: U.Image) | StopFailedTarget(target: int, image: U.Image)

  datatype Answer =
    | Refused | Done | State(report: Report) | Source(release: int, clean: bool) | Built(image: U.Image)

  datatype Exchange = Exchange(question: Question, answer: Answer)

  type World = (seq<Exchange>, Question) -> Answer

  datatype Fault =
    | LocalQualificationFailed | IdentityMismatch | SourceRefused | CiRefused | Cancelled | KeyRequired | SourceChanged
    | CheckoutFailed | BuildFailed | UpgradeFailed | LicenceFailedApplicationPreserved | StopFailed | PublicFailed

  /** The conditions of `require_local`. */
  predicate Qualified(r: Report) {
    && r.docker && r.clean && r.app.Some? && r.database.Some? && r.app.value.healthy && r.database.value
    && r.ready && r.health
  }

  predicate Runs(r: Report, release: int, image: U.Image) {
    r.app.Some? && r.app.value.release == release && r.app.value.image == image
  }

  function RequireLocal(r: Report, expected: Option<(int, U.Image)>): Option<Fault> {
    if !Qualified(r) then Some(LocalQualificationFailed)
    else if expected.Some? && !Runs(r, expected.value.0, expected.value.1) then Some(IdentityMismatch)
    else None
  }

  // ---------------------------------------------------------------- The script of an update

  /** Everything is in order, and this application runs. */
  ghost predicate InOrder(r: Report, release: int, image: U.Image) {
    r == Report(true, true, Some(App(release, image, true)), Some(true), true, true, r.licenceOnly, r.public)
  }

  /** Everything but the readiness is in order, which only the licence prevents. */
  ghost predicate OnlyUnlicensed(r: Report, release: int, image: U.Image) {
    && r == Report(true, true, Some(App(release, image, true)), Some(true), r.ready, true, true, r.public)
    && !r.ready
  }

  /** What an uneventful update comes across: the running release, its three reports and the built image. */
  datatype Course = Course(
    release: int, running: U.Image, first: Report, second: Report, image: U.Image, third: Report, final: Report)

  ghost predicate Sound(c: Course) {
    && InOrder(c.first, c.release, c.running) && InOrder(c.second, c.release, c.running)
    && InOrder(c.third, c.release, c.running) && c.image.Image?
  }

  /** The running release was in order three times; the commit qualified before the approval and after the build. */
  function Preparing(target: int, c: Course): seq<Exchange> {
    [Exchange(Status, State(c.first)),
     Exchange(QualifySource(target, c.release), Source(c.release, true)),
     Exchange(QualifyCi(target), Done),
     Exchange(Approve(target), Done),
     Exchange(AskKey, Done),
     Exchange(SourceState, Source(c.release, true)),
     Exchange(Status, State(c.second)),
     Exchange(Checkout(target), Done),
     Exchange(ReleaseSource(target), Done),
     Exchange(Build(target), Built(c.image)),
     Exchange(Status, State(c.third)),
     Exchange(QualifyCi(target), Done)]
  }

  function UpdateScript(target: int, c: Course): seq<Exchange> {
    Preparing(target, c) + [Exchange(RunUpgrade(target, c.image), Done), Exchange(Status, State(c.final))]
  }

  ghost predicate Successful(target: int, c: Course) {
    Sound(c) && InOrder(c.final, target, c.image) && c.final.public != Some(false)
  }

  /** One of the two goes on where the other ends. */
  ghost predicate Follows(log: seq<Exchange>, script: seq<Exchange>) {
    log <= script || script <= log
  }

  ghost predicate Departs(log: seq<Exchange>, target: int) {
    forall c :: Successful(target, c) ==> !Follows(log, UpdateScript(target, c))
  }

  predicate Harmless(question: Question) {
    !question.RunUpgrade? && !question.StopFailedTarget?
  }

  ghost predicate HarmlessFrom(log: seq<Exchange>, start: nat) {
    forall k :: start <= k < |log| ==> Harmless(log[k].question)
  }

  ghost predicate IsPrepared(log: seq<Exchange>, target: int, image: U.Image) {
    exists c :: Sound(c) && c.image == image && log == Preparing(target, c)
  }

  /**
   At most one upgrade, after exactly the preparations; at most one stop, of the same image after that upgrade and a
   failed qualification that the licence does not excuse.
   */
  ghost predicate Careful(log: seq<Exchange>, target: int) {
    && (forall k :: 0 <= k < |log| && log[k].question.RunUpgrade? ==>
          log[k].question.target == target && IsPrepared(log[..k], target, log[k].question.image))
    && (forall k :: 0 <= k < |log| && log[k].question.StopFailedTarget? ==> StopIsJustified(log, k))
  }

  ghost predicate StopIsJustified(log: seq<Exchange>, k: nat)
    requires k < |log| && log[k].question.StopFailedTarget?
  {
    var q := log[k].question;
    && k >= 2 && log[k - 2] == Exchange(RunUpgrade(q.target, q.image), Done)
    && log[k - 1].question == Status && log[k - 1].answer.State?
    && !InOrder(log[k - 1].answer.report, q.target, q.image)
    && !OnlyUnlicensed(log[k - 1].answer.report, q.target, q.image)
  }

  /** Only the licence check failed: the running application is kept. */
  predicate LicenceExcuses(r: Report, target: int, image: U.Image) {
    r.licenceOnly && RequireLocal(r.(ready := true), Some((target, image))).None?
  }

  lemma RequiredIsInOrder(r: Report)
    ensures Qualified(r) <==> r.app.Some? && InOrder(r, r.app.value.release, r.app.value.image)
    ensures RequireLocal(r, None).None? <==> Qualified(r)
    ensures forall release, image :: RequireLocal(r, Some((release, image))).None? <==> InOrder(r, release, image)
    ensures forall release, image ::
      (LicenceExcuses(r, release, image) && !InOrder(r, release, image)) <==> OnlyUnlicensed(r, release, image)
  {
  }

  /** What follows from the last look: success, a kept application, or a stop of the target. */
  ghost predicate Concluded(final: Report, target: int, image: U.Image, fault: Option<Fault>, stopped: bool) {
    if InOrder(final, target, image) then
      !stopped && fault == (if final.public == Some(false) then Some(PublicFailed) else None)
    else if OnlyUnlicensed(final, target, image) then !stopped && fault == Some(LicenceFailedApplicationPreserved)
    else stopped && fault.Some?
  }

  lemma PreparingIsHarmless(target: int, c: Course)
    ensures HarmlessFrom(Preparing(target, c), 0)
  {
  }

  lemma HarmlessIsCareful(log: seq<Exchange>, target: int)
    requires HarmlessFrom(log, 0)
    ensures Careful(log, target) && forall k :: 0 <= k < |log| ==> !log[k].question.RunUpgrade?
  {
  }

  lemma CarefulUpgrade(log: seq<Exchange>, target: int, image: U.Image, answer: Answer)
    requires HarmlessFrom(log, 0) && IsPrepared(log, target, image)
    ensures Careful(log + [Exchange(RunUpgrade(target, image), answer)], target)
  {
    hide IsPrepared;
    var longer := log + [Exchange(RunUpgrade(target, image), answer)];
    assert longer[..|log|] == log;
  }

  lemma CarefulStep(log: seq<Exchange>, exchange: Exchange, target: int)
    requires Careful(log, target)
    requires (Harmless(exchange.question)
             || (exchange.question.StopFailedTarget? && StopIsJustified(log + [exchange], |log|)))
    ensures Careful(log + [exchange], target)
  {
    hide IsPrepared;
    var longer := log + [exchange];
    forall k | 0 <= k < |log|
      ensures longer[k] == log[k] && longer[..k] == log[..k]
    {
    }
    forall k | 0 <= k < |log| && log[k].question.StopFailedTarget?
      ensures StopIsJustified(longer, k)
    {
      assert StopIsJustified(log, k);
    }
  }

  // ---------------------------------------------------------------- The operator

  class Operator {
    const world: World
    const hostWorld: U.Environment
    const baselineImage: U.Image
    const baselineRelease: int
    const baselineRevision: int
    const actor: int
    var log: seq<Exchange>
    /** The external commands of the deployments run so far. */
    var host: seq<U.Event>

    constructor (world: World, hostWorld: U.Environment, actor: int, baselineImage: U.Image, baselineRelease: int,
                 baselineRevision: int)
      ensures log == [] && host == [] && this.world == world && this.hostWorld == hostWorld && this.actor == actor
      ensures this.baselineImage == baselineImage && this.baselineRelease == baselineRelease
      ensures this.baselineRevision == baselineRevision
    {
      this.world, this.hostWorld, this.actor := world, hostWorld, actor;
      this.baselineImage, this.baselineRelease, this.baselineRevision := baselineImage, baselineRelease,
        baselineRevision;
      log, host := [], [];
    }

    method Ask(question: Question) returns (answer: Answer)
      modifies `log
      ensures log == old(log) + [Exchange(question, answer)]
    {
      answer := world(log, question);
      log := log + [Exchange(question, answer)];
    }

    /** The terms of a child's operation: pinned to the image, and never the repair of the baseline. */
    ghost function Pinned(target: int, selected: U.Image, image: U.Image): S.Terms {
      S.Terms(selected, Some(image), target, baselineImage, baselineRelease, baselineRevision, actor, false)
    }

    /** A fresh deployment, pinned to the image. */
    method Child(target: int, image: U.Image) returns (child: D.Deployment)
      ensures fresh(child) && child.log == []
      ensures child.Given(actor, false) == Pinned(target, U.NoImage, image)
    {
      var before := host;
      child := new D.Deployment((l, c, i) => hostWorld(before + l, c, i), Some(image), target, baselineImage,
        baselineRelease, baselineRevision);
    }

    /** The child validates twice, first without and then with its image selected, and upgrades. */
    ghost predicate UpgradedByScript(target: int, image: U.Image, v: S.Course, c: S.Course)
      reads `host
    {
      && v.target == image && S.Admissible(Pinned(target, image, image), c)
      && host == S.Validating(Pinned(target, U.NoImage, image), v) + S.UpgradeScript(Pinned(target, image, image), c)
    }

    /** The commands follow no such script. */
    ghost predicate DepartsOnHost(target: int, image: U.Image)
      reads `host
    {
      forall v: S.Course, c: S.Course :: v.target == image && S.Admissible(Pinned(target, image, image), c) ==>
        !S.Follows(host, 0, S.Validating(Pinned(target, U.NoImage, image), v)
                            + S.UpgradeScript(Pinned(target, image, image), c))
    }

    /** The executor's "upgrade"; its answer counts as done only if the deployment succeeded and the receipt is good. */
    method ExecuteUpgrade(target: int, image: U.Image, keyPresent: bool, directoryUsable: bool)
      returns (done: bool, ghost v: S.Course, ghost c: S.Course)
      requires host == [] && image.Image?
      modifies `log, `host
      ensures log == old(log) + [Exchange(RunUpgrade(target, image), if done then Done else Refused)]
      ensures U.Safe(host, image)
      ensures done ==>
        && keyPresent && directoryUsable && world(old(log), RunUpgrade(target, image)) == Done
        && UpgradedByScript(target, image, v, c)
      ensures !done && keyPresent && directoryUsable && world(old(log), RunUpgrade(target, image)) == Done ==>
        DepartsOnHost(target, image)
    {
      hide U.Safe, U.Passively, S.Validating, S.UpgradeScript, S.Follows, S.Admissible, S.DepartsFromUpgrade;
      var child := Child(target, image);
      ghost var t, u := Pinned(target, U.NoImage, image), Pinned(target, image, image);
      var invalid;
      invalid, v := child.Validate(t);
      c := v;
      U.PassiveFromNothing(child.log, image);
      done := false;
      if invalid.None? && child.image == image {
        ghost var validated := child.log;
        assert child.Given(actor, false) == u;
        var result;
        result, c := child.Upgrade(actor, keyPresent, directoryUsable, false);
        done := result.Success? && world(log, RunUpgrade(target, image)) == Done;
        if result.Failure? && keyPresent && directoryUsable {
          UpgradeDeparts(child.log, validated, t, u, v);
        }
      } else {
        InvalidDeparts(child.log, t, u);
      }
      host := child.log;
      log := log + [Exchange(RunUpgrade(target, image), if done then Done else Refused)];
    }

    /** The executor's "stop_failed_target": only where the container still has the target image. */
    method ExecuteStop(target: int, image: U.Image) returns (done: bool, ghost v: S.Course)
      requires U.Safe(host, image) && image.Image?
      modifies `log, `host
      ensures log == old(log) + [Exchange(StopFailedTarget(target, image), if done then Done else Refused)]
      ensures U.Quietly(old(host), host) && U.Safe(host, image)
      ensures done ==>
        && v.target == image && world(old(log), StopFailedTarget(target, image)) == Done
        && host == old(host) + StopScript(Pinned(target, U.NoImage, image), v)
      ensures !done && world(old(log), StopFailedTarget(target, image)) == Done ==>
        StopDeparts(host, |old(host)|, Pinned(target, U.NoImage, image))
    {
      hide S.Validating, S.Follows, U.Safe, U.Passively, StopDeparts;
      ghost var t, before := Pinned(target, U.NoImage, image), host;
      var child := Child(target, image);
      ghost var container;
      var invalid, current;
      invalid, v := child.Validate(t);
      U.PassiveFromNothing(child.log, image);
      done := false;
      if invalid.None? {
        ghost var validated := child.log;
        current, container := child.CurrentImage(false);
        U.PassivelyOn([], validated, child.log);
        U.PassiveFromNothing(child.log, image);
        if current == Success(image) {
          S.PiecesDependOn(t, v, v.(container := container));
          v := v.(container := container);
          ghost var found := child.log;
          var stopped := child.IssueQuietly(U.StopApp);
          done := stopped == U.Done && world(log, StopFailedTarget(target, image)) == Done;
          if stopped != U.Done {
            UnstoppedDeparts(child.log, found, before, t, v);
          }
        } else {
          S.NotThisOne(child.log, validated, image, current, container);
          NotFoundDeparts(child.log, before, t, v);
        }
      } else {
        InvalidStopDeparts(child.log, before, t);
      }
      host := host + child.log;
      U.SafeStays(old(host), host, image);
      log := log + [Exchange(StopFailedTarget(target, image), if done then Done else Refused)];
    }

    /** One look at the installation. */
    method Look(expected: Option<(int, U.Image)>) returns (result: Result<Report, Fault>)
      modifies `log
      ensures |log| == |old(log)| + 1 && old(log) <= log && log[|old(log)|].question == Status
      ensures result.Success? ==>
        log[|old(log)|].answer == State(result.value) && RequireLocal(result.value, expected).None?
      ensures result.Failure? && log[|old(log)|].answer.State? ==>
        RequireLocal(log[|old(log)|].answer.report, expected).Some?
    {
      var answer := Ask(Status);
      if !answer.State? {
        return Failure(LocalQualificationFailed);
      }
      var fault := RequireLocal(answer.report, expected);
      return if fault.Some? then Failure(fault.value) else Success(answer.report);
    }

    /** From the first look to the operator's key; nothing is changed yet. */
    method Approval(target: int) returns (result: Result<App, Fault>, ghost c: Course)
      requires log == []
      modifies `log
      ensures HarmlessFrom(log, 0)
      ensures result.Success? ==>
        && InOrder(c.first, c.release, c.running) && result.value == App(c.release, c.running, true)
        && log == Preparing(target, c)[..5]
      ensures result.Failure? ==> Departs(log, target)
    {
      hide Departs;
      c := NoCourse();
      var first := Look(None);
      RequiredIsInOrder(if log[0].answer.State? then log[0].answer.report else c.first);
      if first.Failure? {
        Strays(log, target, c, 0);
        return Failure(first.error), c;
      }
      var app := first.value.app.value;
      c := c.(release := app.release, running := app.image, first := first.value);
      var source := Ask(QualifySource(target, app.release));
      if source != Source(app.release, true) {
        Strays(log, target, c, 1);
        return Failure(SourceRefused), c;
      }
      var ci := Ask(QualifyCi(target));
      if ci != Done {
        Strays(log, target, c, 2);
        return Failure(CiRefused), c;
      }
      var approved := Ask(Approve(target));
      if approved != Done {
        Strays(log, target, c, 3);
        return Failure(Cancelled), c;
      }
      var key := Ask(AskKey);
      if key != Done {
        Strays(log, target, c, 4);
        return Failure(KeyRequired), c;
      }
      return Success(app), c;
    }

    /**
     After the approval: the installation is looked at again, the release checked out and built, and all of it checked
     once more.
     */
    method Preparation(target: int, app: App, ghost before: Course)
      returns (result: Result<U.Image, Fault>, ghost c: Course)
      requires InOrder(before.first, before.release, before.running)
      requires app == App(before.release, before.running, true) && log == Preparing(target, before)[..5]
      modifies `log
      ensures HarmlessFrom(log, 0)
      ensures result.Success? ==> Sound(c) && c.image == result.value && log == Preparing(target, c)
      ensures result.Failure? ==> Departs(log, target)
    {
      hide Departs, InOrder;
      c := before;
      var state := Ask(SourceState);
      if state != Source(app.release, true) {
        Strays(log, target, c, 5);
        return Failure(SourceChanged), c;
      }
      var second := Look(Some((app.release, app.image)));
      RequiredIsInOrder(if log[6].answer.State? then log[6].answer.report else c.first);
      if second.Failure? {
        Strays(log, target, c, 6);
        return Failure(second.error), c;
      }
      assert InOrder(second.value, c.release, c.running);
      c := c.(second := second.value);
      var checkedOut := Ask(Checkout(target));
      if checkedOut != Done {
        Strays(log, target, c, 7);
        return Failure(CheckoutFailed), c;
      }
      var released := Ask(ReleaseSource(target));
      if released != Done {
        Strays(log, target, c, 8);
        return Failure(SourceRefused), c;
      }
      var built := Ask(Build(target));
      if !built.Built? || !built.image.Image? {
        Strays(log, target, c, 9);
        return Failure(BuildFailed), c;
      }
      c := c.(image := built.image);
      var third := Look(Some((app.release, app.image)));
      RequiredIsInOrder(if log[10].answer.State? then log[10].answer.report else c.first);
      if third.Failure? {
        Strays(log, target, c, 10);
        return Failure(third.error), c;
      }
      assert InOrder(third.value, c.release, c.running);
      c := c.(third := third.value);
      var again := Ask(QualifyCi(target));
      if again != Done {
        Strays(log, target, c, 11);
        return Failure(CiRefused), c;
      }
      assert log == Preparing(target, c);
      PreparingIsHarmless(target, c);
      return Success(built.image), c;
    }

    /**
     After a successful upgrade: success only for a qualified target, and a stop only if more than the licence fails.
     */
    method Conclude(target: int, image: U.Image, ghost before: Course) returns (fault: Option<Fault>, ghost c: Course)
      requires Careful(log, target) && Sound(before) && before.image == image
      requires log == Preparing(target, before) + [Exchange(RunUpgrade(target, image), Done)]
      requires U.Safe(host, image)
      modifies `log, `host
      ensures Careful(log, target) && U.Safe(host, image) && old(log) <= log
      ensures forall k :: |old(log)| <= k < |log| ==> !log[k].question.RunUpgrade?
      ensures c == before.(final := c.final)
      ensures fault.None? ==> host == old(host) && Successful(target, c) && log == UpdateScript(target, c)
      ensures fault.Some? ==> Departs(log, target)
      ensures fault in {Some(LicenceFailedApplicationPreserved), Some(PublicFailed)} ==> host == old(host)
      ensures |log| > |old(log)| && log[|old(log)|].question == Status && (log[|old(log)|].answer.State? ==>
        Concluded(log[|old(log)|].answer.report, target, image, fault,
                  |log| > |old(log)| + 1 && log[|old(log)| + 1].question == StopFailedTarget(target, image)))
    {
      hide U.Safe, Careful, InOrder, Departs, LicenceExcuses, OnlyUnlicensed;
      c := before;
      var answer := Ask(Status);
      CarefulStep(old(log), Exchange(Status, answer), target);
      if !answer.State? {
        Strays(log, target, c, 13);
        return Some(LocalQualificationFailed), c;
      }
      var final := answer.report;
      RequiredIsInOrder(final);
      fault := RequireLocal(final, Some((target, image)));
      if fault.Some? {
        Strays(log, target, c, 13);
        if LicenceExcuses(final, target, image) {
          return Some(LicenceFailedApplicationPreserved), c;
        }
        ghost var looked := log;
        var stopped;
        ghost var v;
        stopped, v := ExecuteStop(target, image);
        CarefulStep(looked, log[|looked|], target);
        StillDeparts(looked, log, target);
        return if stopped then fault else Some(StopFailed), c;
      }
      if final.public.Some? && !final.public.value {
        Strays(log, target, c, 13);
        return Some(PublicFailed), c;
      }
      c := c.(final := final);
    }

    /**
     `update`: it succeeds exactly by the script of some course, whose child deployment succeeds by its own; otherwise
     some answer is not the script's.
     */
    method Update(target: int, directoryUsable: bool)
      returns (fault: Option<Fault>, ghost c: Course, ghost v: S.Course, ghost u: S.Course)
      requires log == [] && host == []
      modifies `log, `host
      ensures Careful(log, target)
      ensures forall k :: 0 <= k < |log| && log[k].question.RunUpgrade? ==> U.Safe(host, log[k].question.image)
      ensures HarmlessFrom(log, 0) ==> host == []
      ensures fault.None? ==>
        && Successful(target, c) && log == UpdateScript(target, c)
        && directoryUsable && UpgradedByScript(target, c.image, v, u)
      ensures fault.Some? ==> Departs(log, target)
    {
      hide U.Safe, Qualified, Careful, HarmlessFrom, Concluded, Departs, Sound, Preparing, Follows;
      var app;
      v, u := S.NoCourse(), S.NoCourse();
      app, c := Approval(target);
      HarmlessIsCareful(log, target);
      if app.Failure? {
        return Some(app.error), c, v, u;
      }
      var image;
      image, c := Preparation(target, app.value, c);
      HarmlessIsCareful(log, target);
      if image.Failure? {
        return Some(image.error), c, v, u;
      }
      ghost var prepared := log;
      var done;
      SoundImage(target, c, log);
      done, v, u := ExecuteUpgrade(target, image.value, true, directoryUsable);
      CarefulUpgrade(prepared, target, image.value, if done then Done else Refused);
      OnlyOneUpgrade(prepared, log, log, target, image.value);
      if !done {
        RefusedUpgrade(log, target, c);
        return Some(UpgradeFailed), c, v, u;
      }
      ghost var upgraded := log;
      fault, c := Conclude(target, image.value, c);
      OnlyOneUpgrade(prepared, upgraded, log, target, image.value);
    }
  }

  lemma SoundImage(target: int, c: Course, log: seq<Exchange>)
    requires Sound(c) && log == Preparing(target, c)
    ensures c.image.Image? && IsPrepared(log, target, c.image)
  {
  }

  lemma RefusedUpgrade(log: seq<Exchange>, target: int, c: Course)
    requires Sound(c) && log == Preparing(target, c) + [Exchange(RunUpgrade(target, c.image), Refused)]
    ensures Departs(log, target)
  {
    hide InOrder, Departs;
    Strays(log, target, c, 12);
  }

  lemma OnlyOneUpgrade(prepared: seq<Exchange>, upgraded: seq<Exchange>, log: seq<Exchange>, target: int,
                       image: U.Image)
    requires HarmlessFrom(prepared, 0) && upgraded <= log
    requires |upgraded| == |prepared| + 1 && prepared <= upgraded
    requires upgraded[|prepared|].question == RunUpgrade(target, image)
    requires forall k :: |upgraded| <= k < |log| ==> !log[k].question.RunUpgrade?
    ensures forall k :: 0 <= k < |log| && log[k].question.RunUpgrade? ==> log[k].question == RunUpgrade(target, image)
    ensures !HarmlessFrom(log, 0)
  {
    assert log[|prepared|] == upgraded[|prepared|];
  }



  /** The target is validated, found in the container and stopped. */
  function StopScript(t: S.Terms, v: S.Course): seq<U.Event> {
    S.Validating(t, v) + (S.Finding(v.target, false, v.container, v.target) + [U.Event(U.StopApp, v.target, U.Done)])
  }

  ghost predicate StopDeparts(host: seq<U.Event>, start: nat, t: S.Terms) {
    forall v: S.Course :: S.GoodTarget(t, v.target) ==> !S.Follows(host, start, StopScript(t, v))
  }

  lemma InvalidStopDeparts(tail: seq<U.Event>, before: seq<U.Event>, t: S.Terms)
    requires S.Invalid(tail, 0, t)
    ensures StopDeparts(before + tail, |before|, t)
  {
    hide S.Validating, S.Finding, S.Follows;
    forall v: S.Course | S.GoodTarget(t, v.target) && S.Follows(before + tail, |before|, StopScript(t, v))
      ensures false
    {
      S.FollowsAlone(before, tail, StopScript(t, v));
      S.FollowsFirst(tail, 0, S.Validating(t, v),
        S.Finding(v.target, false, v.container, v.target) + [U.Event(U.StopApp, v.target, U.Done)]);
    }
  }

  lemma NotFoundDeparts(tail: seq<U.Event>, before: seq<U.Event>, t: S.Terms, c: S.Course)
    requires S.Validating(t, c) <= tail
    requires forall k: int :: !S.Follows(tail, |S.Validating(t, c)|, S.Finding(c.target, false, k, c.target))
    ensures StopDeparts(before + tail, |before|, t)
  {
    hide S.Validating, S.Finding, S.Follows;
    forall v: S.Course | S.GoodTarget(t, v.target) && S.Follows(before + tail, |before|, StopScript(t, v))
      ensures false
    {
      var found, stopped :=
        S.Finding(v.target, false, v.container, v.target), [U.Event(U.StopApp, v.target, U.Done)];
      S.FollowsAlone(before, tail, StopScript(t, v));
      assert [] + S.Validating(t, c) == S.Validating(t, c);
      S.AfterValidating(tail, [], t, c, v, found + stopped);
      S.FollowsFirst(tail, |S.Validating(t, c)|, found, stopped);
    }
  }

  lemma UnstoppedDeparts(tail: seq<U.Event>, found: seq<U.Event>, before: seq<U.Event>, t: S.Terms, c: S.Course)
    requires found == S.Validating(t, c) + S.Finding(c.target, false, c.container, c.target)
    requires found < tail && tail[|found|].reply != U.Done
    ensures StopDeparts(before + tail, |before|, t)
  {
    hide S.Validating, S.Finding, S.Follows;
    forall v: S.Course | S.GoodTarget(t, v.target) && S.Follows(before + tail, |before|, StopScript(t, v))
      ensures false
    {
      var stopped := [U.Event(U.StopApp, v.target, U.Done)];
      S.FollowsAlone(before, tail, StopScript(t, v));
      assert [] + S.Validating(t, c) + S.Finding(c.target, false, c.container, c.target) == found;
      S.FoundFollows(tail, [], t, c, v, stopped);
      assert stopped == stopped + [];
      S.FirstFollows(tail, |found|, stopped, []);
    }
  }

  lemma StillDeparts(log: seq<Exchange>, longer: seq<Exchange>, target: int)
    requires Departs(log, target) && log <= longer
    ensures Departs(longer, target)
  {
  }

  ghost function NoCourse(): Course {
    var nothing := Report(false, false, None, None, false, false, false, None);
    Course(0, U.NoImage, nothing, nothing, U.NoImage, nothing, nothing)
  }

  /** The answer with which the update goes on after the first `i` exchanges of the course. */
  ghost predicate Acceptable(target: int, c: Course, i: nat, answer: Answer) {
    match i
    case 0 => answer.State? && exists release, image :: InOrder(answer.report, release, image)
    case 1 => answer == Source(c.release, true)
    case 5 => answer == Source(c.release, true)
    case 6 => answer.State? && InOrder(answer.report, c.release, c.running)
    case 9 => answer.Built? && answer.image.Image?
    case 10 => answer.State? && InOrder(answer.report, c.release, c.running)
    case 13 => answer.State? && InOrder(answer.report, target, c.image) && answer.report.public != Some(false)
    case _ => answer == Done
  }

  lemma ScriptIsAcceptable(target: int, c: Course, i: nat)
    requires Successful(target, c) && i < 14
    ensures |UpdateScript(target, c)| == 14 && Acceptable(target, c, i, UpdateScript(target, c)[i].answer)
  {
  }

  lemma SameBeginning(target: int, c: Course, d: Course, i: nat)
    requires Successful(target, c) && 0 < i < 14 && InOrder(d.first, d.release, d.running)
    requires forall j :: 0 <= j < i ==> UpdateScript(target, c)[j] == UpdateScript(target, d)[j]
    ensures c.release == d.release && c.running == d.running && (i > 9 ==> c.image == d.image)
  {
    assert UpdateScript(target, c)[0] == UpdateScript(target, d)[0];
    if i > 9 {
      assert UpdateScript(target, c)[9] == UpdateScript(target, d)[9];
    }
  }

  /** An answer with which no script goes on. */
  lemma Strays(log: seq<Exchange>, target: int, d: Course, i: nat)
    requires i < 14 && i < |log| && log[..i] == UpdateScript(target, d)[..i]
    requires i > 0 ==> InOrder(d.first, d.release, d.running)
    requires !Acceptable(target, d, i, log[i].answer)
    ensures Departs(log, target)
  {
    hide Successful, InOrder;
    forall c: Course | Successful(target, c) && Follows(log, UpdateScript(target, c)) ensures false {
      var script := UpdateScript(target, c);
      ScriptIsAcceptable(target, c, i);
      forall j | 0 <= j <= i ensures script[j] == log[j] {
      }
      forall j | 0 <= j < i ensures script[j] == UpdateScript(target, d)[j] {
        assert log[..i][j] == UpdateScript(target, d)[..i][j];
      }
      if i > 0 {
        SameBeginning(target, c, d, i);
      }
    }
  }

  lemma InvalidDeparts(host: seq<U.Event>, t: S.Terms, u: S.Terms)
    requires S.Invalid(host, 0, t)
    ensures forall v: S.Course, c: S.Course :: S.GoodTarget(t, v.target) && S.Admissible(u, c) ==>
        !S.Follows(host, 0, S.Validating(t, v) + S.UpgradeScript(u, c))
  {
    hide S.Validating, S.UpgradeScript, S.Follows, S.Admissible;
    forall v: S.Course, c: S.Course | S.GoodTarget(t, v.target) && S.Admissible(u, c)
        && S.Follows(host, 0, S.Validating(t, v) + S.UpgradeScript(u, c))
      ensures false
    {
      S.FollowsFirst(host, 0, S.Validating(t, v), S.UpgradeScript(u, c));
    }
  }

  lemma UpgradeDeparts(host: seq<U.Event>, validated: seq<U.Event>, t: S.Terms, u: S.Terms, d: S.Course)
    requires validated == S.Validating(t, d) <= host && S.DepartsFromUpgrade(host, |validated|, u)
    ensures forall v: S.Course, c: S.Course :: S.GoodTarget(t, v.target) && S.Admissible(u, c) ==>
        !S.Follows(host, 0, S.Validating(t, v) + S.UpgradeScript(u, c))
  {
    hide S.Validating, S.UpgradeScript, S.Follows, S.Admissible;
    forall v: S.Course, c: S.Course | S.GoodTarget(t, v.target) && S.Admissible(u, c)
        && S.Follows(host, 0, S.Validating(t, v) + S.UpgradeScript(u, c))
      ensures false
    {
      assert [] + S.Validating(t, d) == validated;
      S.AfterValidating(host, [], t, d, v, S.UpgradeScript(u, c));
    }
  }

  /** The whole update: whatever fails, after a migration only the image that was built and approved may run. */
  lemma UpdateRunsOnlyTheBuiltImage(log: seq<Exchange>, host: seq<U.Event>, target: int, image: U.Image,
                                    initial: set<U.Image>, k: nat, n: nat)
    requires Careful(log, target) && U.Safe(host, image)
    requires exists i :: 0 <= i < |log| && log[i].question == RunUpgrade(target, image)
    requires k < n <= |host| && host[k].command == U.Migrate
    ensures MayRun(host[..n], initial) <= {image}
    ensures exists i, c :: 0 <= i < |log| && Sound(c) && c.image == image && log[..i] == Preparing(target, c)
  {
    OnlyTheTargetRunsAfterMigration(host, image, initial, k, n);
    var i :| 0 <= i < |log| && log[i].question == RunUpgrade(target, image);
    var c :| Sound(c) && c.image == image && log[..i] == Preparing(target, c);
  }
}
