/**
 The fail-closed production upgrade. A deployment issues external commands one after the other; what each of
 them answers, and whether it fails, is up to an arbitrary environment that may depend on all that came before.
 */
module Upgrade {
  import opened Wrappers
  import opened UpgradeLog
  import opened UpgradeScripts

  datatype Plan = Plan(previous: Image, facts: Facts, backupImage: Image, directory: int)

  class Deployment {
    const environment: Environment
    const expected: Option<Image>
    const baselineImage: Image
    const baselineRelease: int
    const baselineRevision: int
    const release: int
    var stage: Stage
    var image: Image
    var selected: Image
    var log: seq<Event>

    constructor (environment: Environment, expected: Option<Image>, release: int, baselineImage: Image,
                 baselineRelease: int, baselineRevision: int)
      ensures log == [] && image == NoImage && selected == NoImage && stage == ReleaseValidation
      ensures this.environment == environment && this.expected == expected && this.release == release
      ensures this.baselineImage == baselineImage && this.baselineRelease == baselineRelease
      ensures this.baselineRevision == baselineRevision
    {
      this.environment, this.expected, this.release := environment, expected, release;
      this.baselineImage, this.baselineRelease, this.baselineRevision := baselineImage, baselineRelease,
        baselineRevision;
      stage, image, selected, log := ReleaseValidation, NoImage, NoImage, [];
    }

    /** The terms of an operation that begins now. */
    ghost function Given(actor: int, bridge: bool): Terms
      reads this
    {
      Terms(selected, expected, release, baselineImage, baselineRelease, baselineRevision, actor, bridge)
    }

    /** The terms are those of this deployment. */
    ghost predicate Under(t: Terms) {
      && t.expected == expected && t.release == release
      && t.baselineImage == baselineImage && t.baselineRelease == baselineRelease
      && t.baselineRevision == baselineRevision
    }

    /** One external command. */
    method Issue(command: Command) returns (reply: Reply)
      modifies `log
      ensures log == old(log) + [Event(command, selected, reply)] && reply == environment(old(log), command, selected)
    {
      reply := environment(log, command, selected);
      log := log + [Event(command, selected, reply)];
    }

    /** A command that only looks. */
    method IssuePassively(command: Command) returns (reply: Reply)
      requires Passive(command)
      modifies `log
      ensures log == old(log) + [Event(command, selected, reply)] && Passively(old(log), log)
    {
      reply := Issue(command);
    }

    /** A command that neither starts the application nor migrates. */
    method IssueQuietly(command: Command) returns (reply: Reply)
      requires Quiet(command)
      modifies `log
      ensures log == old(log) + [Event(command, selected, reply)] && Quietly(old(log), log)
    {
      reply := Issue(command);
    }

    /** `image_identity`, pinned to the expected image if there is one. */
    method ImageIdentity(ghost t: Terms) returns (result: Result<Image, Fault>)
      requires Under(t) && t.selected == selected
      modifies `log
      ensures Passively(old(log), log)
      ensures result.Success? ==> GoodTarget(t, result.value) && log == old(log) + Identifying(t, result.value)
      ensures result.Failure? ==>
        forall target: Image :: GoodTarget(t, target) ==> !Follows(log, |old(log)|, Identifying(t, target))
    {
      var reply := IssuePassively(InspectTarget);
      assert log[|old(log)|] == Event(InspectTarget, selected, reply);
      if reply == Failed {
        return Failure(CommandFailed);
      }
      if !reply.Identity? || !reply.image.Image? {
        return Failure(InvalidImage);
      }
      var revision := IssuePassively(InspectRevision(reply.image));
      assert log[|old(log)|] == Event(InspectTarget, selected, reply);
      assert log[|old(log)| + 1] == Event(InspectRevision(reply.image), selected, revision);
      if revision != Revision(release) {
        return Failure(RevisionMismatch);
      }
      if expected.Some? && reply.image != expected.value {
        return Failure(ImmutableTargetChanged);
      }
      return Success(reply.image);
    }

    method Validate(ghost t: Terms) returns (fault: Option<Fault>, ghost c: Course)
      requires Under(t) && t.selected == selected
      modifies `log, `image, `selected
      ensures Passively(old(log), log)
      ensures fault.None? ==>
        selected == image == c.target && GoodTarget(t, c.target) && log == old(log) + Validating(t, c)
      ensures fault.Some? ==> Invalid(log, |old(log)|, t)
      ensures image == old(image) || GoodTarget(t, image)
    {
      hide Validating, Identifying, Follows, GoodTarget, Passively;
      c := NoCourse();
      ghost var before := log;
      var source := IssuePassively(ReleaseSource);
      ghost var sourced := log;
      if source != Done {
        UnsourcedDeparts(log, before, t, source);
        return Some(CommandFailed), c;
      }
      var identity := ImageIdentity(t);
      PassivelyOn(before, sourced, log);
      if identity.Failure? {
        UnidentifiedDeparts(log, before, t);
        return Some(identity.error), c;
      }
      image := identity.value;
      selected := image;
      ghost var identified := log;
      var configuration := IssuePassively(CheckConfiguration);
      PassivelyOn(before, identified, log);
      c := c.(target := image);
      if configuration != Done {
        UnconfiguredDeparts(before, sourced, identified, log, t, image, configuration);
        return Some(CommandFailed), c;
      }
      ValidatedTogether(before, sourced, identified, log, t, c);
      return None, c;
    }

    /** `current_image`: the image of the only application container. */
    method CurrentImage(running: bool) returns (result: Result<Image, Fault>, ghost container: int)
      modifies `log
      ensures Passively(old(log), log)
      ensures result.Success? ==>
        result.value.Image? && log == old(log) + Finding(selected, running, container, result.value)
      ensures result.Failure? ==>
        forall k: int, image: Image :: image.Image? ==> !Follows(log, |old(log)|, Finding(selected, running, k, image))
    {
      container := 0;
      var listed := IssuePassively(ListApp(!running));
      assert log[|old(log)|] == Event(ListApp(!running), selected, listed);
      if listed == Failed {
        return Failure(CommandFailed), container;
      }
      if !listed.Containers? || |listed.containers| != 1 {
        return Failure(OneAppContainerRequired), container;
      }
      container := listed.containers[0];
      assert listed.containers == [container];
      var identity := IssuePassively(InspectContainer(listed.containers[0]));
      assert log[|old(log)| + 1] == Event(InspectContainer(container), selected, identity);
      if identity == Failed {
        return Failure(CommandFailed), container;
      }
      if !identity.Identity? || !identity.image.Image? {
        return Failure(InvalidImage), container;
      }
      return Success(identity.image), container;
    }

    /** The image that makes the backup: the previous one, or the target for the one admitted repair of the baseline. */
    method BackupImage(previous: Image, revision: int, bridge: bool, ghost t: Terms, ghost c: Course)
      returns (result: Result<Image, Fault>)
      requires Under(t) && t.bridge == bridge && c.target == selected == image
      requires c.previous == previous && previous.Image? && c.facts.revision == revision
      modifies `log
      ensures Passively(old(log), log)
      ensures result.Success? ==>
        && result.value == BackupOf(t, c) && GoodBackup(t, c.previous, c.facts.revision)
        && log == old(log) + Bridging(t, c)
      ensures result.Failure? && GoodBackup(t, c.previous, c.facts.revision) ==>
        !Follows(log, |old(log)|, Bridging(t, c))
    {
      if !bridge {
        return Success(previous);
      }
      if previous != baselineImage {
        return Failure(BridgeRefused);
      }
      var inspected := IssuePassively(InspectRevision(previous));
      assert log[|old(log)|] == Event(InspectRevision(previous), selected, inspected);
      if inspected != Revision(baselineRelease) || revision != baselineRevision {
        return Failure(if inspected == Failed then CommandFailed else BridgeRefused);
      }
      var ancestor := IssuePassively(CheckAncestor);
      assert log[|old(log)| + 1] == Event(CheckAncestor, selected, ancestor);
      if ancestor != Done {
        return Failure(if ancestor == Failed then CommandFailed else BridgeRefused);
      }
      var untouched := IssuePassively(CheckUnchangedPaths);
      assert log[|old(log)| + 2] == Event(CheckUnchangedPaths, selected, untouched);
      if untouched != Done {
        return Failure(if untouched == Failed then CommandFailed else BridgeRefused);
      }
      return Success(image);
    }

    /** `toolchain_preflight`: the selection is put back whatever happens. */
    method Preflight(candidate: Image) returns (fault: Option<Fault>)
      modifies `log, `selected
      ensures Passively(old(log), log) && selected == image
      ensures |log| == |old(log)| + 1 && log == old(log) + [Event(CheckToolchain, candidate, log[|old(log)|].reply)]
      ensures fault.None? <==> log[|old(log)|].reply == Done
    {
      selected := candidate;
      var reply := IssuePassively(CheckToolchain);
      fault := if reply == Done then None else Some(CommandFailed);
      selected := image;
    }

    /** `qualify_recovery_directory`: the probe file is removed whatever happens. */
    method QualifyDirectory(directory: int, candidate: Image) returns (fault: Option<Fault>)
      modifies `log
      ensures Passively(old(log), log) && |log| == |old(log)| + 2
      ensures log == old(log) + [Event(ProbeMount(directory, candidate), selected, log[|old(log)|].reply),
                                 Event(RemoveProbe(directory), selected, log[|old(log)| + 1].reply)]
      ensures fault.None? <==> log[|old(log)|].reply == Done && log[|old(log)| + 1].reply == Done
    {
      var probed := IssuePassively(ProbeMount(directory, candidate));
      var removed := IssuePassively(RemoveProbe(directory));
      return if probed == Done && removed == Done then None else Some(CommandFailed);
    }

    method Save(directory: int, status: RecordStatus) returns (fault: Option<Fault>)
      modifies `log
      ensures Passively(old(log), log) && |log| == |old(log)| + 1
      ensures log == old(log) + [Event(WriteRecord(directory, status, stage), selected, log[|old(log)|].reply)]
      ensures fault.None? <==> log[|old(log)|].reply == Done
    {
      var reply := IssuePassively(WriteRecord(directory, status, stage));
      return if reply == Done then None else Some(CommandFailed);
    }

    /** `probe`, whose output must be a report. */
    method Probe(mode: Mode, running: bool) returns (result: Result<Facts, Fault>)
      modifies `log
      ensures Passively(old(log), log) && |log| == |old(log)| + 1
      ensures var command := if running then ProbeRunning(mode) else ProbeOnce(mode);
              log == old(log) + [Event(command, selected, log[|old(log)|].reply)]
      ensures result.Success? ==> log[|old(log)|].reply == Report(result.value)
      ensures result.Failure? ==> !log[|old(log)|].reply.Report?
    {
      var reply := IssuePassively(if running then ProbeRunning(mode) else ProbeOnce(mode));
      return if reply.Report? then Success(reply.facts) else Failure(CommandFailed);
    }

    method Prepare() returns (fault: Option<Fault>)
      modifies `log, `stage
      ensures |log| == |old(log)| + 1 && log == old(log) + [Event(Migrate, selected, log[|old(log)|].reply)]
      ensures stage == PrepareStage && (fault.None? <==> log[|old(log)|].reply == Done)
    {
      stage := PrepareStage;
      var reply := Issue(Migrate);
      return if reply == Done then None else Some(CommandFailed);
    }

    /** `start`: when readiness or the smoke probe fails the application is stopped again, and the failure stands. */
    method Start(ghost c: Course) returns (fault: Option<Fault>, ghost later: Facts)
      requires selected == c.target
      modifies `log, `stage
      ensures |old(log)| < |log| && Quietly(old(log) + [Event(UpApp, selected, log[|old(log)|].reply)], log)
      ensures fault.Some? ==> log[|log| - 1].command == StopApp && stage in {StartAndReadiness, PostDeploySmoke}
      ensures fault.None? ==> stage == PostDeploySmoke && log == old(log) + Starting(c.(later := later))
      ensures fault.Some? ==>
        forall w: Course :: w.target == c.target ==> !Follows(log, |old(log)|, Starting(w))
    {
      stage := StartAndReadiness;
      later := c.later;
      var reply := Issue(UpApp);
      assert log[|old(log)|] == Event(UpApp, selected, reply);
      fault := if reply == Done then None else Some(CommandFailed);
      if fault.None? {
        stage := PostDeploySmoke;
        var smoke := Probe(Smoke, true);
        assert log[|old(log)| + 1].command == ProbeRunning(Smoke);
        fault := if smoke.Success? then None else Some(smoke.error);
        if smoke.Success? {
          later := smoke.value;
        }
      }
      if fault.Some? {
        ghost var before := log;
        reply := IssueQuietly(StopApp);
        assert log[|old(log)|] == before[|old(log)|];
        assert stage == PostDeploySmoke ==> log[|old(log)| + 1] == before[|old(log)| + 1];
      }
    }

    /** The running release and its database, which must look the same to the target image. */
    method ProbeCurrent(actor: int, ghost t: Terms, ghost before: Course)
      returns (result: Result<(Image, Facts), Fault>, ghost c: Course)
      requires t.actor == actor && before.target == selected
      modifies `log, `stage
      ensures Passively(old(log), log)
      ensures result.Success? ==>
        && c.target == before.target && c.previous.Image? && result.value == (c.previous, c.facts)
        && log == old(log) + Looking(t, c)
      ensures result.Failure? ==>
        forall w: Course :: w.target == before.target && w.previous.Image? ==> !Follows(log, |old(log)|, Looking(t, w))
    {
      c := before;
      stage := CurrentState;
      ghost var start := log;
      var previous, container := CurrentImage(true);
      forall w: Course | w.target == c.target && w.previous.Image? && Follows(log, |start|, Looking(t, w))
        ensures previous.Success?
      {
        FollowsFirst(log, |start|, Finding(w.target, true, w.container, w.previous), Looking(t, w)[2..]);
        assert Looking(t, w) == Finding(w.target, true, w.container, w.previous) + Looking(t, w)[2..];
      }
      if previous.Failure? {
        return Failure(previous.error), c;
      }
      var smoke := Probe(Smoke, true);
      assert log[|start| + 2].command == ProbeRunning(Smoke);
      if smoke.Failure? {
        return Failure(smoke.error), c;
      }
      var facts := Probe(Existing(actor), true);
      assert log[|start| + 3].command == ProbeRunning(Existing(actor));
      if facts.Failure? {
        return Failure(facts.error), c;
      }
      var again := Probe(Existing(actor), false);
      assert log[|start| + 4].command == ProbeOnce(Existing(actor));
      if again.Failure? {
        return Failure(again.error), c;
      }
      if again.value != facts.value {
        assert log[|start| + 3].reply == Report(facts.value);
        return Failure(DatabaseMustMatch), c;
      }
      c := c.(container := container, previous := previous.value, smoke := smoke.value, facts := facts.value);
      return Success((previous.value, facts.value)), c;
    }

    /** The backup image, with the tools of it and of the target checked. */
    method ChooseBackupImage(previous: Image, revision: int, bridge: bool, ghost t: Terms, ghost c: Course)
      returns (result: Result<Image, Fault>)
      requires Under(t) && t.bridge == bridge && c.target == selected == image
      requires c.previous == previous && previous.Image? && c.facts.revision == revision
      modifies `log, `selected, `stage
      ensures Passively(old(log), log) && selected == image
      ensures result.Success? ==>
        && result.value == BackupOf(t, c) && GoodBackup(t, c.previous, c.facts.revision)
        && log == old(log) + Choosing(t, c)
      ensures result.Failure? && GoodBackup(t, c.previous, c.facts.revision) ==>
        !Follows(log, |old(log)|, Choosing(t, c))
    {
      hide Bridging, Tooling, Follows, Passively;
      stage := ToolchainPreflight;
      ghost var start := log;
      var chosen := BackupImage(previous, revision, bridge, t, c);
      if chosen.Failure? {
        if Follows(log, |start|, Choosing(t, c)) {
          FollowsFirst(log, |start|, Bridging(t, c), Tooling(t, c));
        }
        return chosen;
      }
      ghost var bridged := log;
      var unfit := CheckTools(chosen.value, t, c);
      PassivelyOn(start, bridged, log);
      if unfit.Some? {
        if Follows(log, |start|, Choosing(t, c)) {
          Peel(log, start, Bridging(t, c), Bridging(t, c), Tooling(t, c));
        }
        return Failure(unfit.value);
      }
      assert log == start + Choosing(t, c);
      return chosen;
    }

    /** The tools of the backup image and, if it is another, of the target. */
    method CheckTools(backupImage: Image, ghost t: Terms, ghost c: Course) returns (unfit: Option<Fault>)
      requires backupImage == BackupOf(t, c) && c.target == image
      modifies `log, `selected
      ensures Passively(old(log), log) && selected == image
      ensures unfit.None? ==> log == old(log) + Tooling(t, c)
      ensures unfit.Some? ==> !Follows(log, |old(log)|, Tooling(t, c))
    {
      ghost var n := |log|;
      unfit := Preflight(backupImage);
      assert log[n].command == CheckToolchain;
      if unfit.None? && backupImage != image {
        unfit := Preflight(image);
        assert log[n + 1].command == CheckToolchain;
      }
    }

    /** A new recovery directory that the backup image can write, with its record begun. */
    method MakeRecoveryDirectory(backupImage: Image, ghost t: Terms, ghost before: Course)
      returns (result: Result<int, Fault>, ghost c: Course)
      requires before.target == selected && backupImage == BackupOf(t, before)
      modifies `log, `stage
      ensures Passively(old(log), log)
      ensures result.Success? ==>
        c == before.(directory := result.value) && log == old(log) + Opening(t, c)
      ensures result.Failure? ==>
        forall w: Course :: w.target == before.target && w.previous == before.previous ==>
          !Follows(log, |old(log)|, Opening(t, w))
    {
      c := before;
      stage := DirectoryCreation;
      ghost var n := |log|;
      var reply := IssuePassively(MakeDirectory);
      assert log[n] == Event(MakeDirectory, selected, reply);
      if !reply.Directory? {
        return Failure(CommandFailed), c;
      }
      c := c.(directory := reply.directory);
      stage := DirectoryQualification;
      var unfit := QualifyDirectory(reply.directory, backupImage);
      assert log[n + 1].command.ProbeMount? && log[n + 2].command.RemoveProbe?;
      if unfit.None? {
        unfit := Save(reply.directory, Started);
        assert log[n + 3].command.WriteRecord?;
      }
      return if unfit.Some? then Failure(unfit.value) else Success(reply.directory), c;
    }

    /** The upgrade up to the creation of the record; nothing has been stopped yet. */
    method Observe(actor: int, keyPresent: bool, directoryUsable: bool, bridge: bool, ghost t: Terms)
      returns (result: Result<Plan, Fault>, ghost c: Course)
      requires t == Given(actor, bridge)
      modifies `log, `image, `selected, `stage
      ensures Passively(old(log), log) && (image == old(image) || GoodTarget(t, image))
      ensures result.Success? ==>
        && selected == image == c.target && Admissible(t, c) && keyPresent && directoryUsable
        && result.value == Plan(c.previous, c.facts, BackupOf(t, c), c.directory)
        && log == old(log) + Observing(t, c)
      ensures result.Failure? && keyPresent && directoryUsable ==> Unobserved(log, |old(log)|, t)
    {
      hide Validating, Looking, Choosing, Opening, BackupOf, Follows, Unobserved, Passively, GoodTarget, GoodBackup;
      ghost var start := log;
      var invalid;
      invalid, c := Validate(t);
      if invalid.Some? {
        NotValidated(log, start, t);
        return Failure(invalid.value), c;
      }
      if actor < 1 || !keyPresent {
        if actor < 1 {
          NoActor(log, |start|, t);
        }
        return Failure(ActorAndKeyRequired), c;
      }
      if !directoryUsable {
        return Failure(BackupDirectoryRequired), c;
      }
      ghost var validated, earlier := c, log;
      var current;
      current, c := ProbeCurrent(actor, t, c);
      PassivelyOn(start, earlier, log);
      PiecesDependOn(t, validated, c);
      if current.Failure? {
        NotLooked(log, start, t, validated);
        return Failure(current.error), c;
      }
      ghost var looked := c;
      earlier := log;
      var (previous, facts) := current.value;
      var backupImage := ChooseBackupImage(previous, facts.revision, bridge, t, c);
      PassivelyOn(start, earlier, log);
      if backupImage.Failure? {
        NotChosen(log, start, t, c);
        return Failure(backupImage.error), c;
      }
      earlier := log;
      var directory;
      directory, c := MakeRecoveryDirectory(backupImage.value, t, c);
      PassivelyOn(start, earlier, log);
      if directory.Failure? {
        NotOpened(log, start, t, looked);
        return Failure(directory.error), c;
      }
      PiecesDependOn(t, looked, c);
      assert log == start + Observing(t, c);
      return Success(Plan(previous, facts, backupImage.value, directory.value)), c;
    }

    /** Stops the application and probes the database again with the backup image. */
    method StopWriters(actor: int, plan: Plan, ghost t: Terms, ghost c: Course) returns (fault: Option<Fault>)
      requires c.target == selected && t.actor == actor
      requires plan.backupImage == BackupOf(t, c) && plan.facts == c.facts
      modifies `log, `selected, `stage
      ensures Quietly(old(log), log)
      ensures fault.None? ==> selected == plan.backupImage && log == old(log) + Stopping(t, c)
      ensures fault.Some? ==> FailedUnder(log, stage) && !Follows(log, |old(log)|, Stopping(t, c))
    {
      hide FailedUnder;
      ghost var n := |log|;
      stage := Stage.StopWriters;
      var stopped := IssueQuietly(StopApp);
      assert log[n] == Event(StopApp, c.target, stopped);
      LastIsUnder(log, stage);
      if stopped != Done {
        return Some(CommandFailed);
      }
      selected := plan.backupImage;
      stage := StoppedStateValidation;
      var facts := Probe(Existing(actor), false);
      assert log[n + 1].command == ProbeOnce(Existing(actor));
      LastIsUnder(log, stage);
      if facts.Failure? {
        return Some(facts.error);
      }
      return if facts.value == plan.facts then None else Some(DatabaseChanged);
    }

    /** Makes the backup and finds it as the only one of its directory. */
    method MakeBackup(actor: int, plan: Plan, ghost t: Terms, ghost before: Course)
      returns (fault: Option<Fault>, file: int, ghost c: Course)
      requires selected == BackupOf(t, before) && t.actor == actor && before.directory == plan.directory
      modifies `log, `stage
      ensures Quietly(old(log), log) && stage == BackupStage
      ensures fault.None? ==> c == before.(file := file) && log == old(log) + BackingUp(t, c)
      ensures fault.Some? ==> FailedUnder(log, stage)
      ensures fault.Some? ==>
        forall w: Course :: BackupOf(t, w) == BackupOf(t, before) && w.directory == before.directory ==>
          !Follows(log, |old(log)|, BackingUp(t, w))
    {
      ghost var n := |log|;
      stage := BackupStage;
      file, c := 0, before;
      var made := IssueQuietly(BackUp(plan.directory, actor));
      assert log[n] == Event(BackUp(plan.directory, actor), selected, made);
      if made != Done {
        return Some(CommandFailed), file, c;
      }
      var listed := IssuePassively(ListBackups(plan.directory));
      assert log[n + 1] == Event(ListBackups(plan.directory), selected, listed);
      if !listed.Backups? || |listed.backups| != 1 || !listed.backups[0].Regular? {
        return Some(OneBackupRequired), file, c;
      }
      file := listed.backups[0].file;
      c := before.(file := file);
      assert listed.backups == [Regular(file)];
      return None, file, c;
    }

    /** Verifies the backup with the target image, between two equal digests. */
    method Verify(plan: Plan, file: int, ghost t: Terms, ghost before: Course)
      returns (fault: Option<Fault>, ghost c: Course)
      requires stage == BackupStage && selected == BackupOf(t, before) && image == before.target
      requires before.directory == plan.directory && before.file == file
      modifies `log, `selected, `stage
      ensures Passively(old(log), log) && c == before.(digest := c.digest)
      ensures fault.None? ==> stage == VerifyStage && selected == image && log == old(log) + Verifying(t, c)
      ensures fault.Some? ==> FailedUnder(log, stage)
      ensures fault.Some? ==>
        forall w: Course :: Alike(before, w) && w.file == before.file ==>
          !Follows(log, |old(log)|, Verifying(t, w))
    {
      c := before;
      ghost var n := |log|;
      var digest := IssuePassively(Digest(plan.directory, file));
      assert log[n] == Event(Digest(plan.directory, file), BackupOf(t, c), digest);
      if !digest.Hash? {
        return Some(CommandFailed), c;
      }
      c := c.(digest := digest.digest);
      stage := VerifyStage;
      selected := image;
      var verified := IssuePassively(VerifyBackup(plan.directory, file));
      assert log[n + 1] == Event(VerifyBackup(plan.directory, file), c.target, verified);
      if verified != Done {
        return Some(CommandFailed), c;
      }
      var redigest := IssuePassively(Digest(plan.directory, file));
      assert log[n + 2] == Event(Digest(plan.directory, file), c.target, redigest);
      if !redigest.Hash? {
        return Some(CommandFailed), c;
      }
      if redigest.digest != digest.digest {
        assert log[n].reply == Hash(digest.digest);
        return Some(BackupChanged), c;
      }
      return None, c;
    }

    /** Stops the application and makes, counts and verifies the backup. */
    method StopAndBackUp(actor: int, plan: Plan, ghost t: Terms, ghost before: Course)
      returns (fault: Option<Fault>, ghost c: Course)
      requires before.target == selected == image && t.actor == actor
      requires plan == Plan(before.previous, before.facts, BackupOf(t, before), before.directory)
      modifies `log, `selected, `stage
      ensures Quietly(old(log), log)
      ensures fault.None? ==>
        && stage == VerifyStage && selected == image && c == before.(file := c.file, digest := c.digest)
        && log == old(log) + Securing(t, c)
      ensures fault.Some? ==> FailedUnder(log, stage) && Unsecured(log, |old(log)|, t, before)
    {
      hide FailedUnder, Unsecured, Stopping, BackingUp, Verifying, Quietly, Passively, Follows;
      ghost var start := log;
      c := before;
      fault := StopWriters(actor, plan, t, c);
      if fault.Some? {
        NotStopped(log, start, t, before);
        return;
      }
      ghost var earlier := log;
      var file;
      fault, file, c := MakeBackup(actor, plan, t, c);
      QuietlyOn(start, earlier, log);
      if fault.Some? {
        NotBackedUp(log, start, t, before);
        return;
      }
      ghost var backedUp := c;
      SecuringDependsOn(t, before, c);
      earlier := log;
      fault, c := Verify(plan, file, t, c);
      QuietlyOn(start, earlier, log);
      if fault.Some? {
        NotVerified(log, start, t, backedUp);
        UnsecuredAlike(log, |start|, t, backedUp, before);
        return;
      }
      SecuringDependsOn(t, backedUp, c);
      assert log == start + Securing(t, c);
    }

    /** Records the verified backup, selects the target and looks at the sources once more. */
    method RecordBackup(directory: int, ghost c: Course) returns (fault: Option<Fault>)
      requires stage == VerifyStage && c.directory == directory && selected == image == c.target
      modifies `log, `selected
      ensures Passively(old(log), log)
      ensures fault.None? ==> selected == image && log == old(log) + Recording(c)
      ensures fault.Some? ==> FailedUnder(log, stage) && !Follows(log, |old(log)|, Recording(c))
    {
      hide FailedUnder;
      ghost var n := |log|;
      fault := Save(directory, BackupVerified);
      assert log[n].command == WriteRecord(directory, BackupVerified, VerifyStage);
      LastIsUnder(log, stage);
      if fault.Some? {
        return;
      }
      selected := image;
      var source := IssuePassively(ReleaseSource);
      assert log[n + 1] == Event(ReleaseSource, image, source);
      LastIsUnder(log, stage);
      return if source == Done then None else Some(CommandFailed);
    }

    /** A migration with its evidence keeps the log safe. */
    method PrepareSafely(ghost e: Evidence) returns (fault: Option<Fault>)
      requires Shows(log, e, image) && SourcesConfirmed(log, image) && Safe(log, image) && selected == image
      modifies `log, `stage
      ensures |log| == |old(log)| + 1 && log == old(log) + [Event(Migrate, image, log[|old(log)|].reply)]
      ensures Safe(log, image) && (fault.None? <==> log[|old(log)|].reply == Done)
      ensures fault.Some? ==> FailedUnder(log, stage)
    {
      hide Shows, Safe, SourcesConfirmed, FailedUnder;
      fault := Prepare();
      LastIsUnder(log, stage);
      SafeStep(old(log), log[|old(log)|], image);
    }

    method StartSafely(ghost c: Course) returns (fault: Option<Fault>, ghost later: Facts)
      requires Safe(log, image) && selected == image == c.target
      modifies `log, `stage
      ensures Safe(log, image) && old(log) <= log && NoMigration(log, |old(log)|)
      ensures fault.None? ==> stage == PostDeploySmoke && log == old(log) + Starting(c.(later := later))
      ensures fault.Some? ==> FailedUnder(log, stage)
      ensures fault.Some? ==>
        forall w: Course :: w.target == c.target ==> !Follows(log, |old(log)|, Starting(w))
    {
      hide Shows, Safe, SourcesConfirmed, FailedUnder, Follows, Starting;
      fault, later := Start(c);
      if fault.Some? {
        LastIsUnder(log, stage);
      }
      ghost var started := Event(UpApp, image, log[|old(log)|].reply);
      SafeStep(old(log), started, image);
      SafeStays(old(log) + [started], log, image);
    }

    /** From the verified backup to the running target. */
    method PrepareAndStart(plan: Plan, ghost t: Terms, ghost before: Course, ghost start: seq<Event>)
      returns (fault: Option<Fault>, ghost c: Course)
      requires Safe(log, image) && NoMigration(log, |start|) && stage == VerifyStage && image == before.target
      requires before.directory == plan.directory && log == start + (Observing(t, before) + Securing(t, before))
      requires Admissible(t, before) && selected == image
      modifies `log, `selected, `stage
      ensures old(log) <= log && Safe(log, image) && MigratesByScript(log, start, t)
      ensures fault.None? ==>
        c == before.(later := c.later) && log == old(log) + (Recording(c) + Completing(c))
      ensures fault.Some? ==> FailedUnder(log, stage) && Uncompleted(log, |old(log)|, before)
    {
      hide Safe, Shows, SourcesConfirmed, FailedUnder, Uncompleted, Observing, Securing, Recording, Starting, Follows,
        Passively, Admissible, UntilMigration, MigratesByScript;
      c := before;
      ghost var backedUp := log;
      fault := RecordBackup(plan.directory, c);
      PassiveIsSafe(backedUp, log, image);
      NoneByScript(log, start, t);
      if fault.Some? {
        NotRecorded(log, backedUp, c);
        return;
      }
      ghost var recorded := log;
      RecordedIsScript(start, t, c, log);
      ScriptIsEvidence(start, t, c);
      fault := PrepareSafely(EvidenceOf(|start|, t, c));
      ghost var prepared := log;
      OneMigrationByScript(recorded, log[|recorded|], start, t, c);
      if fault.Some? {
        NotMigrated(log, |recorded|, c);
        NotCompleted(log, backedUp, c);
        return;
      }
      ghost var later;
      fault, later := StartSafely(c);
      StillByScript(prepared, log, start, t);
      if fault.Some? {
        NotStarted(log, prepared, c);
        NotCompleted(log, backedUp, c);
        return;
      }
      c := c.(later := later);
      ghost var running := log;
      fault := Save(plan.directory, RuntimeReady);
      PassiveIsSafe(running, log, image);
      StillByScript(running, log, start, t);
      LastIsUnder(log, stage);
      CompletedIsScript(backedUp, recorded, prepared, running, log, before, c);
      if fault.Some? {
        NotFinished(log, |recorded|, before);
        NotCompleted(log, backedUp, before);
      }
    }

    /** From the first stop to the running target, when all has been observed. */
    method SecureAndComplete(actor: int, plan: Plan, ghost t: Terms, ghost observed: Course, ghost start: seq<Event>)
      returns (fault: Option<Fault>, ghost c: Course)
      requires t.actor == actor && selected == image == observed.target && Admissible(t, observed)
      requires plan == Plan(observed.previous, observed.facts, BackupOf(t, observed), observed.directory)
      requires log == start + Observing(t, observed) && QuietFrom(log, 0)
      modifies `log, `selected, `stage
      ensures old(log) <= log && Safe(log, image) && MigratesByScript(log, start, t)
      ensures fault.None? ==>
        && Admissible(t, c) && c.target == observed.target && c.directory == observed.directory
        && log == start + UpgradeScript(t, c)
      ensures fault.Some? ==> FailedUnder(log, stage) && DepartsFromUpgrade(log, |start|, t)
    {
      hide Safe, Passively, Quietly, QuietFrom, Admissible, Observing, Securing, Recording, Completing, UpgradeScript,
        Follows, DepartsFromUpgrade, Unsecured, Uncompleted, MigratesByScript, NoMigration, FailedUnder;
      ghost var seen := log;
      fault, c := StopAndBackUp(actor, plan, t, observed);
      SoFarNothing(start, seen, log, image, t);
      if fault.Some? {
        UnsecuredDeparts(log, log, start, t, observed);
        return;
      }
      ghost var backedUp, secured := c, log;
      ObservingDependsOn(t, observed, c);
      SameTerms(t, observed, c);
      assert log == start + (Observing(t, c) + Securing(t, c));
      fault, c := PrepareAndStart(plan, t, c, start);
      if fault.Some? {
        assert secured == start + Observing(t, backedUp) + Securing(t, backedUp);
        UncompletedDeparts(log, log, start, t, backedUp);
        return;
      }
      ObservingTogether(start, t, backedUp, c, log);
      SameTerms(t, backedUp, c);
    }

    /**
     `upgrade`: it succeeds exactly by the script of some course, and otherwise some reply is not the script's. Whatever
     fails, a migration comes only after all that the script has before it, nothing but the target is ever started, and
     nothing is started again after a failure. Once the record exists a failure is recorded with the stage of the
     command that was issued last.
     */
    method Upgrade(actor: int, keyPresent: bool, directoryUsable: bool, bridge: bool)
      returns (result: Result<int, Fault>, ghost c: Course)
      requires QuietFrom(log, 0)
      modifies `log, `image, `selected, `stage
      ensures old(log) <= log && Safe(log, image)
      ensures MigratesByScript(log, old(log), old(Given(actor, bridge)))
      ensures var t := old(Given(actor, bridge));
              result.Success? ==>
                && keyPresent && directoryUsable && Admissible(t, c) && log == old(log) + UpgradeScript(t, c)
                && selected == image == c.target && result.value == c.directory
      ensures var t := old(Given(actor, bridge));
              result.Failure? && keyPresent && directoryUsable ==> DepartsFromUpgrade(log, |old(log)|, t)
      ensures result.Failure? ==> Passively(old(log), log) || EndsInFailureRecord(log, stage)
      ensures image == old(image) || GoodTarget(old(Given(actor, bridge)), image)
    {
      hide Safe, Passively, QuietFrom, Admissible, Observing, UpgradeScript, Follows, DepartsFromUpgrade, Unobserved,
        MigratesByScript, NoMigration, FailedUnder, EndsInFailureRecord;
      ghost var t, start := Given(actor, bridge), log;
      var plan;
      plan, c := Observe(actor, keyPresent, directoryUsable, bridge, t);
      InertSoFar(start, log, image, t);
      if plan.Failure? {
        if keyPresent && directoryUsable {
          UnobservedDeparts(log, log, |start|, t);
        }
        return Failure(plan.error), c;
      }
      var fault;
      fault, c := SecureAndComplete(actor, plan.value, t, c, start);
      if fault.Some? {
        ghost var failed := log;
        var unsaved := Save(plan.value.directory, FailedOperatorRecoveryRequired);
        PassiveIsSafe(failed, log, image);
        StillByScript(failed, log, start, t);
        EndsSo(failed, log, plan.value.directory, stage);
        StillDeparts(failed, log, |start|, t);
        selected := image;
        return Failure(if unsaved.Some? then unsaved.value else fault.value), c;
      }
      selected := image;
      return Success(plan.value.directory), c;
    }

    /** Finds no application container and, with the target image, an empty database. */
    method FindEmpty(ghost t: Terms) returns (fault: Option<Fault>, ghost c: Course)
      requires t == Given(0, false)
      modifies `log, `image, `selected, `stage
      ensures Passively(old(log), log) && (image == old(image) || GoodTarget(t, image))
      ensures fault.None? ==>
        selected == image == c.target && GoodTarget(t, image) && log == old(log) + InitializedFrom(t, c)
      ensures fault.Some? ==> DepartsFromInitialize(log, |old(log)|, t)
    {
      hide Validating, Follows, DepartsFromInitialize;
      ghost var start := log;
      fault, c := Validate(t);
      if fault.Some? {
        InvalidNeverInitializes(log, start, t);
        return;
      }
      ghost var validated := log;
      fault, c := SeeEmpty(t, c);
      PassivelyOn(start, validated, log);
      if fault.Some? {
        NotEmptyNeverInitializes(log, start, t, c);
        return;
      }
    }

    method SeeEmpty(ghost t: Terms, ghost before: Course) returns (fault: Option<Fault>, ghost c: Course)
      requires selected == before.target
      modifies `log, `stage
      ensures Passively(old(log), log) && c == before.(facts := c.facts) && Validating(t, c) == Validating(t, before)
      ensures fault.None? ==> log == old(log) + FindingEmpty(c)
      ensures fault.Some? ==>
        forall w: Course :: w.target == c.target ==> !Follows(log, |old(log)|, FindingEmpty(w))
    {
      c := before;
      ghost var n := |log|;
      var listed := IssuePassively(ListApp(true));
      assert log[n] == Event(ListApp(true), selected, listed);
      if listed != Containers([]) {
        return Some(if listed == Failed then CommandFailed else ExistingApp), c;
      }
      stage := EmptyDatabaseValidation;
      var up := IssuePassively(UpDatabase);
      assert log[n + 1] == Event(UpDatabase, selected, up);
      if up != Done {
        return Some(CommandFailed), c;
      }
      var empty := Probe(EmptyDatabase, false);
      assert log[n + 2].command == ProbeOnce(EmptyDatabase);
      if empty.Failure? {
        return Some(empty.error), c;
      }
      c := c.(facts := empty.value);
      return None, c;
    }

    /** `initialize`: only where no application container exists and the target finds the database empty. */
    method Initialize() returns (fault: Option<Fault>, ghost c: Course)
      modifies `log, `image, `selected, `stage
      ensures var t := old(Given(0, false));
              && InitializesByScript(log, old(log), t, c) && old(log) <= log
              && (fault.None? ==>
                    image == c.target && GoodTarget(t, image) && log == old(log) + InitializeScript(t, c))
              && (fault.Some? ==> DepartsFromInitialize(log, |old(log)|, t))
    {
      hide InitializesByScript, InitializedFrom, InitializeScript, DepartsFromInitialize, Passively, Quietly, Starting,
        Follows;
      ghost var t, start := Given(0, false), log;
      fault, c := FindEmpty(t);
      PassiveIsQuiet(start, log);
      ByScriptSoFar(log, start, t, c);
      if fault.Some? {
        return;
      }
      ghost var found := log;
      fault := Prepare();
      MigratedByScript(found, log[|found|], start, t, c);
      if fault.Some? {
        UnpreparedNeverInitializes(log, found, start, t, c);
        return;
      }
      ghost var prepared := log;
      ghost var later;
      fault, later := Start(c);
      StartedByScript(found, log[|prepared|], log, start, t, c);
      if fault.Some? {
        UnstartedNeverInitializes(log, found, start, t, c);
        return;
      }
      StartedIsInitialized(start, t, c, c.(later := later), log);
      ByTheSameScript(log, start, t, c, c.(later := later));
      c := c.(later := later);
    }

    /** `restart`: starts the image that the existing container has, and never migrates. */
    method Restart(patience: nat) returns (fault: Option<Fault>, ghost c: Course)
      modifies `log, `image, `selected, `stage
      ensures old(log) <= log && NoMigration(log, |old(log)|)
      ensures var t := old(Given(0, false));
              && (forall k :: |old(log)| <= k < |log| && log[k].command == UpApp ==>
                    log[..k] == old(log) + Checked(t, c) && log[k].image == c.target)
              && (fault.None? ==>
                    && GoodTarget(t, c.target) && c.polls <= patience
                    && log == old(log) + RestartScript(t, c))
              && (fault.Some? ==> DepartsFromRestart(log, |old(log)|, t, patience))
    {
      hide Passively, Quietly, QuietFrom, Checked, RestartScript, Starting, DepartsFromRestart, Follows;
      ghost var t, start := Given(0, false), log;
      fault, c := CheckExisting(patience, t);
      NoStarts(start, log);
      if fault.Some? {
        return;
      }
      ghost var ready, later := log, c.later;
      fault, later := Start(c);
      OneStart(start, ready, Event(UpApp, c.target, log[|ready|].reply), log);
      if fault.Some? {
        UnstartedNeverRestarts(log, start, t, c, patience);
        return;
      }
      StartedIsRestarted(start, t, c, c.(later := later), log);
      c := c.(later := later);
    }

    /** Everything of `restart` before the start. */
    method CheckExisting(patience: nat, ghost t: Terms) returns (fault: Option<Fault>, ghost c: Course)
      requires t == Given(0, false)
      modifies `log, `image, `selected, `stage
      ensures Passively(old(log), log)
      ensures fault.None? ==>
        selected == image == c.target && GoodTarget(t, image) && c.polls <= patience && log == old(log) + Checked(t, c)
      ensures fault.Some? ==> DepartsFromRestart(log, |old(log)|, t, patience)
    {
      hide Passively, Validating, Finding, StartingDatabase, DepartsFromRestart, NeverHealthy, Follows, Checked;
      ghost var start := log;
      fault, c := Validate(t);
      if fault.Some? {
        InvalidNeverRestarts(log, start, t, patience);
        return;
      }
      ghost var valid, validated := c, log;
      var current;
      ghost var container;
      current, container := CurrentImage(false);
      PassivelyOn(start, validated, log);
      if current.Failure? || current.value != image {
        NotThisOne(log, validated, c.target, current, container);
        NotFoundNeverRestarts(log, start, t, c, patience);
        return Some(if current.Failure? then current.error else ReleaseChange), c;
      }
      c := c.(container := container);
      PiecesDependOn(t, valid, c);
      ghost var found, before := c, log;
      fault, c := StartExistingDatabase(patience, c);
      PassivelyOn(start, before, log);
      PiecesDependOn(t, found, c);
      if fault.Some? {
        UnhealthyNeverRestarts(log, start, t, found, patience);
        return;
      }
      ghost var healthy := log;
      fault, c := AcceptConfiguration(t, c, start, patience);
      PassivelyOn(start, healthy, log);
    }

    /** The existing database is probed with the configuration of the target. */
    method AcceptConfiguration(ghost t: Terms, ghost given: Course, ghost start: seq<Event>, ghost patience: nat)
      returns (fault: Option<Fault>, ghost c: Course)
      requires selected == given.target
      requires log == start + Validating(t, given) + Finding(given.target, false, given.container, given.target)
                      + StartingDatabase(given)
      modifies `log
      ensures Passively(old(log), log)
      ensures fault.None? ==> c == given.(facts := c.facts) && log == start + Checked(t, c)
      ensures fault.Some? ==> DepartsFromRestart(log, |start|, t, patience)
    {
      hide Passively, Validating, Finding, StartingDatabase, DepartsFromRestart, Follows;
      c := given;
      ghost var healthy := log;
      var existing := Probe(ExistingConfiguration, false);
      if existing.Failure? {
        UnfitNeverRestarts(log, start, t, c, patience, |healthy|);
        return Some(existing.error), c;
      }
      PiecesDependOn(t, given, given.(facts := existing.value));
      c := given.(facts := existing.value);
      return None, c;
    }

    /** Starts the only database container and polls its state until it is healthy. */
    method StartExistingDatabase(patience: nat, ghost given: Course) returns (fault: Option<Fault>, ghost c: Course)
      requires selected == given.target
      modifies `log, `stage
      ensures Passively(old(log), log) && c == given.(database := c.database, polls := c.polls)
      ensures fault.None? ==> c.polls <= patience && log == old(log) + StartingDatabase(c)
      ensures fault.Some? ==> NeverHealthy(log, |old(log)|, given.target, patience)
    {
      hide Passively, StartingDatabase, NeverHealthy, Asking;
      stage := DatabaseStartAndReadiness;
      c := given;
      ghost var start, n := log, |log|;
      var listed := IssuePassively(ListDatabase);
      assert log[n] == Event(ListDatabase, selected, listed);
      if !listed.Containers? || |listed.containers| != 1 {
        DatabaseMissing(log, n, given.target, patience);
        return Some(if listed == Failed then CommandFailed else OneDatabaseContainerRequired), c;
      }
      c := c.(database := listed.containers[0]);
      assert listed.containers == [c.database];
      ghost var before := log;
      var started := IssuePassively(StartDatabase);
      PassivelyOn(start, before, log);
      assert log[n + 1] == Event(StartDatabase, selected, started);
      if started != Done {
        DatabaseNotStarted(log, n, c.target, patience);
        return Some(CommandFailed), c;
      }
      var polls := 0;
      StartsAsking(log, n, c);
      while true
        invariant Passively(start, log) && polls <= patience && Asking(log, n, c, polls)
        decreases patience - polls
      {
        before := log;
        var state := IssuePassively(DatabaseState(listed.containers[0]));
        PassivelyOn(start, before, log);
        AskedAgain(before, log, n, c, polls, state);
        if state == Health(true, true) {
          c := c.(polls := polls);
          assert before[..n] == start;
          return None, c;
        }
        if state != Health(true, false) {
          StillUnhealthy(before, log, n, c, patience, polls, state);
          return Some(if state == Failed then CommandFailed else DatabaseNotHealthy), c;
        }
        if polls == patience {
          StillUnhealthy(before, log, n, c, patience, polls, state);
          return Some(DatabaseTimedOut), c;
        }
        polls := polls + 1;
      }
    }
  }
}
