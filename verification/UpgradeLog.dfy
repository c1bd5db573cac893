/**
 The external commands of a production deployment, the log of those issued, and what a log shows.
 */
module UpgradeLog {
  import opened Wrappers

  datatype Image = NoImage | Image(id: int)

  datatype Mode = Smoke | Existing(actor: int) | ExistingConfiguration | EmptyDatabase

  datatype RecordStatus = Started | BackupVerified | RuntimeReady | FailedOperatorRecoveryRequired

  datatype Stage =
    | ReleaseValidation | CurrentState | ToolchainPreflight | DirectoryCreation | DirectoryQualification | StopWriters
    | StoppedStateValidation | BackupStage | VerifyStage | PrepareStage | StartAndReadiness | PostDeploySmoke
    | EmptyDatabaseValidation | DatabaseStartAndReadiness

  /** External commands. Those marked "selected" run the image that the environment selects. */
  datatype Command =
    | ReleaseSource                               // the checkout is exactly the approved commit
    | InspectTarget                               // identity of the image tagged with the commit
    | InspectRevision(image: Image)               // revision label of an image
    | CheckConfiguration
    | ListApp(all: bool) | ListDatabase
    | InspectContainer(container: int)
    | CheckAncestor | CheckUnchangedPaths
    | ProbeRunning(mode: Mode)                    // inside the running application
    | ProbeOnce(mode: Mode)                       // in a throw-away container (selected)
    | CheckToolchain                              // (selected)
    | MakeDirectory | ProbeMount(directory: int, image: Image) | RemoveProbe(directory: int)
    | WriteRecord(directory: int, status: RecordStatus, stage: Stage)
    | StopApp
    | BackUp(directory: int, actor: int)          // dumps the database, then records the backup in it (selected)
    | ListBackups(directory: int) | Digest(directory: int, file: int)
    | VerifyBackup(directory: int, file: int)     // (selected)
    | Migrate                                     // "prepare" (selected)
    | UpApp                                       // (selected)
    | UpDatabase | StartDatabase | DatabaseState(container: int)

  /** A probe's report on the database: its schema revision, and which database of which server it is. */
  datatype Facts = Facts(revision: int, identity: int)

  datatype Backup = Regular(file: int) | Irregular

  datatype Reply =
    | Failed
    | Done
    | Identity(image: Image)
    | Revision(revision: int)
    | Containers(containers: seq<int>)
    | Report(facts: Facts)
    | Directory(directory: int)
    | Backups(backups: seq<Backup>)
    | Hash(digest: int)
    | Health(running: bool, healthy: bool)

  /** A command, the image selected when it was issued, and the reply. */
  datatype Event = Event(command: Command, image: Image, reply: Reply)

  datatype Fault =
    | CommandFailed | InvalidImage | ImmutableTargetChanged | RevisionMismatch | OneAppContainerRequired
    | ActorAndKeyRequired | BackupDirectoryRequired | DatabaseMustMatch | BridgeRefused | DatabaseChanged
    | OneBackupRequired | BackupChanged | ExistingApp | ReleaseChange | OneDatabaseContainerRequired
    | DatabaseNotHealthy | DatabaseTimedOut

  type Environment = (seq<Event>, Command, Image) -> Reply

  // ---------------------------------------------------------------- What a log shows

  /** The command neither starts the application nor migrates the database. */
  predicate Quiet(command: Command) {
    command != UpApp && command != Migrate
  }

  /** The command moreover neither stops the application nor makes a backup. */
  predicate Passive(command: Command) {
    Quiet(command) && command != StopApp && !command.BackUp?
  }

  ghost predicate QuietFrom(log: seq<Event>, start: nat) {
    forall k :: start <= k < |log| ==> Quiet(log[k].command)
  }

  /** Where in a log the evidence stands that must precede a migration. */
  datatype Evidence = Evidence(
    actor: int, facts: Facts, previous: Image, backupImage: Image, directory: int, file: int, digest: int,
    inspected: nat, probed: nat, made: nat, stopped: nat, reprobed: nat, backedUp: nat, listed: nat, digested: nat,
    verified: nat, redigested: nat)

  ghost predicate At(log: seq<Event>, k: nat, command: Command, reply: Reply) {
    k < |log| && log[k].command == command && log[k].reply == reply
  }

  ghost predicate AtUnder(log: seq<Event>, k: nat, command: Command, image: Image, reply: Reply) {
    k < |log| && log[k] == Event(command, image, reply)
  }

  ghost predicate Shown(event: Event, image: Image) {
    event.command.InspectContainer? && event.reply == Identity(image)
  }

  /** The image of the running application was inspected, its database was probed and a directory made. */
  ghost predicate Prepared(log: seq<Event>, e: Evidence) {
    && e.inspected < e.probed < |log| && Shown(log[e.inspected], e.previous)
    && At(log, e.probed, ProbeRunning(Existing(e.actor)), Report(e.facts))
    && e.probed < e.made && At(log, e.made, MakeDirectory, Directory(e.directory))
  }

  /** The application was stopped and nothing started it since; the database was still the one probed before. */
  ghost predicate Stopped(log: seq<Event>, e: Evidence) {
    && e.made < e.stopped < e.reprobed && At(log, e.stopped, StopApp, Done)
    && AtUnder(log, e.reprobed, ProbeOnce(Existing(e.actor)), e.backupImage, Report(e.facts))
    && QuietFrom(log, e.stopped)
  }

  /** The backup image made the only backup of the new directory. */
  ghost predicate BackedUp(log: seq<Event>, e: Evidence) {
    && e.reprobed < e.backedUp < e.listed && AtUnder(log, e.backedUp, BackUp(e.directory, e.actor), e.backupImage, Done)
    && At(log, e.listed, ListBackups(e.directory), Backups([Regular(e.file)]))
  }

  /** The target image verified the backup, which has the same digest before and after. */
  ghost predicate Verified(log: seq<Event>, e: Evidence, target: Image) {
    && e.listed < e.digested < e.verified < e.redigested
    && At(log, e.digested, Digest(e.directory, e.file), Hash(e.digest))
    && AtUnder(log, e.verified, VerifyBackup(e.directory, e.file), target, Done)
    && At(log, e.redigested, Digest(e.directory, e.file), Hash(e.digest))
  }

  /** From the stop on, the backup of the evidence is the only one attempted. */
  ghost predicate OnlyBackup(log: seq<Event>, e: Evidence) {
    forall k :: e.stopped <= k < |log| && log[k].command.BackUp? ==> k == e.backedUp
  }

  ghost predicate ToolsChecked(log: seq<Event>, image: Image) {
    exists k :: 0 <= k < |log| && log[k] == Event(CheckToolchain, image, Done)
  }

  lemma ToolsStayChecked(before: seq<Event>, after: seq<Event>, image: Image)
    requires before <= after && ToolsChecked(before, image)
    ensures ToolsChecked(after, image)
  {
    var k :| 0 <= k < |before| && before[k] == Event(CheckToolchain, image, Done);
    assert after[k] == before[k];
  }

  /** The target reported the same database, and the backup tools of the backup image and of the target were checked. */
  ghost predicate Equipped(log: seq<Event>, e: Evidence, target: Image) {
    && AtUnder(log, e.probed + 1, ProbeOnce(Existing(e.actor)), target, Report(e.facts))
    && ToolsChecked(log, e.backupImage) && ToolsChecked(log, target)
  }

  ghost predicate Shows(log: seq<Event>, e: Evidence, target: Image) {
    && Equipped(log, e, target)
    && Prepared(log, e) && Stopped(log, e) && BackedUp(log, e) && Verified(log, e, target) && OnlyBackup(log, e)
    && (e.backupImage == e.previous || e.backupImage == target)
  }

  /** The last command was a look at the sources of the release, and they were still those of the commit. */
  ghost predicate SourcesConfirmed(log: seq<Event>, target: Image) {
    |log| > 0 && log[|log| - 1] == Event(ReleaseSource, target, Done)
  }

  /**
   Every migration runs the target, directly after the sources were confirmed, and on complete evidence; every start
   runs the target.
   */
  ghost predicate Safe(log: seq<Event>, target: Image) {
    && (forall k :: 0 <= k < |log| && log[k].command == Migrate ==>
          && log[k].image == target && SourcesConfirmed(log[..k], target)
          && exists e :: Shows(log[..k], e, target))
    && (forall k :: 0 <= k < |log| && log[k].command == UpApp ==> log[k].image == target)
  }

  /** `after` continues `before` without starting the application or migrating the database. */
  ghost predicate Quietly(before: seq<Event>, after: seq<Event>) {
    before <= after && QuietFrom(after, |before|)
  }

  ghost predicate Passively(before: seq<Event>, after: seq<Event>)
    ensures Passively(before, after) ==> Quietly(before, after)
  {
    before <= after && forall k :: |before| <= k < |after| ==> Passive(after[k].command)
  }

  lemma PassivelyOn(start: seq<Event>, before: seq<Event>, after: seq<Event>)
    requires Passively(start, before) && Passively(before, after)
    ensures Passively(start, after) && before <= after
  {
  }

  ghost predicate NoMigration(log: seq<Event>, start: nat) {
    forall k :: start <= k < |log| ==> log[k].command != Migrate
  }

  lemma QuietlyOn(start: seq<Event>, before: seq<Event>, after: seq<Event>)
    requires Quietly(start, before) && (Quietly(before, after) || Passively(before, after))
    ensures Quietly(start, after) && before <= after
  {
  }

  lemma PassiveIsQuiet(before: seq<Event>, after: seq<Event>)
    requires Passively(before, after)
    ensures Quietly(before, after)
  {
  }

  lemma StillQuiet(before: seq<Event>, after: seq<Event>)
    requires QuietFrom(before, 0) && Quietly(before, after)
    ensures QuietFrom(after, 0) && before <= after
  {
  }

  lemma QuietExtends(before: seq<Event>, after: seq<Event>)
    requires Quietly(before, after)
    ensures before <= after
  {
  }

  /** Evidence is not lost while nothing starts. */
  lemma EvidenceStays(before: seq<Event>, after: seq<Event>, e: Evidence, target: Image)
    requires Quietly(before, after)
    ensures Prepared(before, e) ==> Prepared(after, e)
    ensures Stopped(before, e) ==> Stopped(after, e)
    ensures BackedUp(before, e) ==> BackedUp(after, e)
    ensures Verified(before, e, target) ==> Verified(after, e, target)
    ensures Equipped(before, e, target) ==> Equipped(after, e, target)
    ensures OnlyBackup(before, e) && Passively(before, after) ==> OnlyBackup(after, e)
    ensures Shows(before, e, target) && Passively(before, after) ==> Shows(after, e, target)
  {
    if Equipped(before, e, target) {
      ToolsStayChecked(before, after, e.backupImage);
      ToolsStayChecked(before, after, target);
    }
    hide ToolsChecked;
  }

  lemma SafeStays(before: seq<Event>, after: seq<Event>, target: Image)
    requires Safe(before, target) && Quietly(before, after)
    ensures Safe(after, target)
  {
    hide Shows, SourcesConfirmed;
    forall k | 0 <= k < |before|
      ensures after[..k] == before[..k]
    {
    }
  }

  lemma SafeStep(log: seq<Event>, event: Event, target: Image)
    requires Safe(log, target) && event.image == target
    requires event.command == Migrate ==> SourcesConfirmed(log, target) && exists e :: Shows(log, e, target)
    ensures Safe(log + [event], target)
  {
    hide Shows, SourcesConfirmed;
    var longer := log + [event];
    forall k | 0 <= k < |longer|
      ensures longer[..k] == log[..k] && (k < |log| ==> longer[k] == log[k])
    {
    }
    assert longer[..|log|] == log;
  }

  lemma PassiveFromNothing(log: seq<Event>, target: Image)
    requires Passively([], log)
    ensures QuietFrom(log, 0) && Safe(log, target)
  {
  }

  lemma PassiveIsSafe(before: seq<Event>, after: seq<Event>, target: Image)
    requires Safe(before, target) && Passively(before, after)
    ensures Safe(after, target) && before <= after && NoMigration(after, |before|)
    ensures forall n: nat :: n <= |before| && NoMigration(before, n) ==> NoMigration(after, n)
  {
    hide Safe;
    SafeStays(before, after, target);
  }

  lemma InertIsSafe(log: seq<Event>, target: Image)
    requires QuietFrom(log, 0)
    ensures Safe(log, target)
  {
  }

  /** The commands that come last when an upgrade fails in a stage from the stop on. */
  predicate IssuedUnder(command: Command, stage: Stage) {
    match stage
    case StopWriters => command == StopApp
    case StoppedStateValidation => command.ProbeOnce?
    case BackupStage => command.BackUp? || command.ListBackups? || command.Digest?
    case VerifyStage => command.VerifyBackup? || command.Digest? || command.WriteRecord? || command == ReleaseSource
    case PrepareStage => command == Migrate
    case StartAndReadiness => command == StopApp
    case PostDeploySmoke => command == StopApp || command.WriteRecord?
    case _ => false
  }

  ghost predicate FailedUnder(log: seq<Event>, stage: Stage) {
    |log| > 0 && IssuedUnder(log[|log| - 1].command, stage)
  }

  lemma LastIsUnder(log: seq<Event>, stage: Stage)
    requires |log| > 0 && IssuedUnder(log[|log| - 1].command, stage)
    ensures FailedUnder(log, stage)
  {
  }

  /** The last thing attempted was the record that an operator must recover; it names the stage of the failure. */
  ghost predicate EndsInFailureRecord(log: seq<Event>, stage: Stage) {
    && |log| > 0 && FailedUnder(log[..|log| - 1], stage)
    && log[|log| - 1].command.WriteRecord? && log[|log| - 1].command.status == FailedOperatorRecoveryRequired
    && log[|log| - 1].command.stage == stage
  }

  lemma NoStarts(before: seq<Event>, after: seq<Event>)
    requires Passively(before, after)
    ensures before <= after && NoMigration(after, |before|)
    ensures forall k :: |before| <= k < |after| ==> after[k].command != UpApp
  {
  }

  /** After commands that only look comes one start, and quiet commands again. */
  lemma OneStart(before: seq<Event>, ready: seq<Event>, start: Event, after: seq<Event>)
    requires Passively(before, ready) && start.command == UpApp && Quietly(ready + [start], after)
    ensures before <= after && NoMigration(after, |before|)
    ensures forall k :: |before| <= k < |after| && after[k].command == UpApp ==>
      after[..k] == ready && after[k] == start
  {
    assert forall k :: 0 <= k < |ready| ==> after[k] == ready[k];
    assert after[|ready|] == start && after[..|ready|] == ready;
    forall k | |before| <= k < |after| && after[k].command == UpApp
      ensures k == |ready|
    {
    }
  }
}
