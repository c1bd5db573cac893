/**
 The commands of uneventful operations, in order and with their replies: what a successful upgrade, initialization or
 restart has issued, and nothing else. An operation fails exactly when some reply is not that of its script.
 */
module UpgradeScripts {
  import opened Wrappers
  import opened UpgradeLog

  /** What is fixed when an operation begins. */
  datatype Terms = Terms(
    selected: Image, expected: Option<Image>, release: int, baselineImage: Image, baselineRelease: int,
    baselineRevision: int, actor: int, bridge: bool)

  /** What an uneventful operation comes across. */
  datatype Course = Course(
    target: Image, container: int, previous: Image, smoke: Facts, facts: Facts, directory: int, file: int, digest: int,
    database: int, polls: nat, later: Facts)

  ghost function NoCourse(): Course {
    Course(NoImage, 0, NoImage, Facts(0, 0), Facts(0, 0), 0, 0, 0, 0, 0, Facts(0, 0))
  }

  /** The target must be an image, and the pinned one if there is a pin. */
  ghost predicate GoodTarget(t: Terms, target: Image) {
    target.Image? && (t.expected.Some? ==> target == t.expected.value)
  }

  /** The one admitted repair makes its backup with the target, and only for the exact baseline. */
  ghost predicate GoodBackup(t: Terms, previous: Image, revision: int) {
    previous.Image? && (t.bridge ==> previous == t.baselineImage && revision == t.baselineRevision)
  }

  ghost predicate Admissible(t: Terms, c: Course) {
    t.actor >= 1 && GoodTarget(t, c.target) && GoodBackup(t, c.previous, c.facts.revision)
  }

  function BackupOf(t: Terms, c: Course): Image {
    if t.bridge then c.target else c.previous
  }

  // ---------------------------------------------------------------- The pieces

  function Identifying(t: Terms, target: Image): seq<Event> {
    [Event(InspectTarget, t.selected, Identity(target)),
     Event(InspectRevision(target), t.selected, Revision(t.release))]
  }

  /** The sources are those of the commit, and so is the image; from here on the image is selected. */
  function Validating(t: Terms, c: Course): seq<Event> {
    [Event(ReleaseSource, t.selected, Done)] + Identifying(t, c.target) + [Event(CheckConfiguration, c.target, Done)]
  }

  /** One application container, and the image it has. */
  function Finding(selected: Image, running: bool, container: int, image: Image): seq<Event> {
    [Event(ListApp(!running), selected, Containers([container])),
     Event(InspectContainer(container), selected, Identity(image))]
  }

  /** The running release answers, and the target finds the same database. */
  function Looking(t: Terms, c: Course): seq<Event> {
    Finding(c.target, true, c.container, c.previous) +
    [Event(ProbeRunning(Smoke), c.target, Report(c.smoke)),
     Event(ProbeRunning(Existing(t.actor)), c.target, Report(c.facts)),
     Event(ProbeOnce(Existing(t.actor)), c.target, Report(c.facts))]
  }

  function Bridging(t: Terms, c: Course): seq<Event> {
    if !t.bridge then []
    else
      [Event(InspectRevision(c.previous), c.target, Revision(t.baselineRelease)),
       Event(CheckAncestor, c.target, Done),
       Event(CheckUnchangedPaths, c.target, Done)]
  }

  function Tooling(t: Terms, c: Course): seq<Event> {
    [Event(CheckToolchain, BackupOf(t, c), Done)]
    + if BackupOf(t, c) == c.target then [] else [Event(CheckToolchain, c.target, Done)]
  }

  /** The backup image is chosen, and the tools of it and of the target are checked. */
  function Choosing(t: Terms, c: Course): seq<Event> {
    Bridging(t, c) + Tooling(t, c)
  }

  /** A new directory that the backup image can write, with its record begun. */
  function Opening(t: Terms, c: Course): seq<Event> {
    [Event(MakeDirectory, c.target, Directory(c.directory)),
     Event(ProbeMount(c.directory, BackupOf(t, c)), c.target, Done),
     Event(RemoveProbe(c.directory), c.target, Done),
     Event(WriteRecord(c.directory, Started, DirectoryQualification), c.target, Done)]
  }

  /** Nothing writes any more, and the database is still the one probed. */
  function Stopping(t: Terms, c: Course): seq<Event> {
    [Event(StopApp, c.target, Done),
     Event(ProbeOnce(Existing(t.actor)), BackupOf(t, c), Report(c.facts))]
  }

  function BackingUp(t: Terms, c: Course): seq<Event> {
    [Event(BackUp(c.directory, t.actor), BackupOf(t, c), Done),
     Event(ListBackups(c.directory), BackupOf(t, c), Backups([Regular(c.file)]))]
  }

  /** The target verifies the backup, which stays what it is. */
  function Verifying(t: Terms, c: Course): seq<Event> {
    [Event(Digest(c.directory, c.file), BackupOf(t, c), Hash(c.digest)),
     Event(VerifyBackup(c.directory, c.file), c.target, Done),
     Event(Digest(c.directory, c.file), c.target, Hash(c.digest))]
  }

  function Recording(c: Course): seq<Event> {
    [Event(WriteRecord(c.directory, BackupVerified, VerifyStage), c.target, Done),
     Event(ReleaseSource, c.target, Done)]
  }

  function Starting(c: Course): seq<Event> {
    [Event(UpApp, c.target, Done), Event(ProbeRunning(Smoke), c.target, Report(c.later))]
  }

  // ---------------------------------------------------------------- The scripts

  function Observing(t: Terms, c: Course): seq<Event> {
    Validating(t, c) + (Looking(t, c) + (Choosing(t, c) + Opening(t, c)))
  }

  function Securing(t: Terms, c: Course): seq<Event> {
    Stopping(t, c) + (BackingUp(t, c) + Verifying(t, c))
  }

  function UntilMigration(t: Terms, c: Course): seq<Event> {
    Observing(t, c) + (Securing(t, c) + Recording(c))
  }

  function Completing(c: Course): seq<Event> {
    [Event(Migrate, c.target, Done)]
    + (Starting(c) + [Event(WriteRecord(c.directory, RuntimeReady, PostDeploySmoke), c.target, Done)])
  }

  function UpgradeScript(t: Terms, c: Course): seq<Event> {
    Observing(t, c) + (Securing(t, c) + (Recording(c) + Completing(c)))
  }

  /** No application container, and a database that the target finds empty. */
  function FindingEmpty(c: Course): seq<Event> {
    [Event(ListApp(true), c.target, Containers([])),
     Event(UpDatabase, c.target, Done),
     Event(ProbeOnce(EmptyDatabase), c.target, Report(c.facts))]
  }

  function InitializeScript(t: Terms, c: Course): seq<Event> {
    Validating(t, c) + (FindingEmpty(c) + ([Event(Migrate, c.target, Done)] + Starting(c)))
  }

  /** The only database container, started and asked until it is healthy. */
  function StartingDatabase(c: Course): seq<Event> {
    [Event(ListDatabase, c.target, Containers([c.database])), Event(StartDatabase, c.target, Done)] + Polling(c)
  }

  function Polling(c: Course): seq<Event> {
    seq(c.polls + 1, i => Event(DatabaseState(c.database), c.target, Health(true, i == c.polls)))
  }

  function ProbingConfiguration(c: Course): seq<Event> {
    [Event(ProbeOnce(ExistingConfiguration), c.target, Report(c.facts))]
  }

  /** The existing container has the target image, its database gets healthy and the configuration is accepted. */
  function Checked(t: Terms, c: Course): seq<Event> {
    Validating(t, c) + Finding(c.target, false, c.container, c.target) + StartingDatabase(c) + ProbingConfiguration(c)
  }

  function RestartScript(t: Terms, c: Course): seq<Event> {
    Validating(t, c) + (Finding(c.target, false, c.container, c.target)
    + (StartingDatabase(c) + (ProbingConfiguration(c) + Starting(c))))
  }

  // ---------------------------------------------------------------- Keeping to a script

  /** From `start` on, the log is the script as far as both go. */
  ghost predicate Follows(log: seq<Event>, start: nat, script: seq<Event>) {
    forall k :: start <= k < |log| && k < start + |script| ==> log[k] == script[k - start]
  }

  /** A log that follows one piece and the rest follows the rest from there, if it has the first piece. */
  lemma Peel(log: seq<Event>, before: seq<Event>, piece: seq<Event>, other: seq<Event>, rest: seq<Event>)
    requires before + piece <= log && |other| == |piece| && Follows(log, |before|, other + rest)
    ensures other == piece && Follows(log, |before| + |piece|, rest)
  {
    forall i | 0 <= i < |piece| ensures other[i] == piece[i] {
      assert log[|before| + i] == (before + piece)[|before| + i];
      assert log[|before| + i] == (other + rest)[i];
    }
    forall k | |before| + |piece| <= k < |log| && k < |before| + |piece| + |rest|
      ensures log[k] == rest[k - |before| - |piece|]
    {
      assert log[k] == (other + rest)[k - |before|];
    }
  }

  lemma FollowsFirst(log: seq<Event>, start: nat, piece: seq<Event>, rest: seq<Event>)
    requires Follows(log, start, piece + rest)
    ensures Follows(log, start, piece)
  {
    forall k | start <= k < |log| && k < start + |piece| ensures log[k] == piece[k - start] {
      assert log[k] == (piece + rest)[k - start];
    }
  }

  lemma FollowsAlone(before: seq<Event>, tail: seq<Event>, script: seq<Event>)
    requires Follows(before + tail, |before|, script)
    ensures Follows(tail, 0, script)
  {
    forall k | 0 <= k < |tail| && k < |script| ensures tail[k] == script[k] {
      assert (before + tail)[|before| + k] == tail[k];
    }
  }

  lemma ShorterFollows(log: seq<Event>, longer: seq<Event>, start: nat, script: seq<Event>)
    requires log <= longer && Follows(longer, start, script)
    ensures Follows(log, start, script)
  {
  }

  // ---------------------------------------------------------------- A validation that fails

  /** No target of these terms has a validation that the log follows. */
  ghost predicate Invalid(log: seq<Event>, start: nat, t: Terms) {
    forall w: Course :: GoodTarget(t, w.target) ==> !Follows(log, start, Validating(t, w))
  }

  lemma ValidatedInParts(t: Terms, c: Course)
    ensures Validating(t, c) == [Event(ReleaseSource, t.selected, Done)]
                                + (Identifying(t, c.target) + [Event(CheckConfiguration, c.target, Done)])
  {
  }

  lemma UnsourcedDeparts(log: seq<Event>, before: seq<Event>, t: Terms, reply: Reply)
    requires log == before + [Event(ReleaseSource, t.selected, reply)] && reply != Done
    ensures Invalid(log, |before|, t)
  {
    assert log[|before|].reply == reply;
    forall w: Course ensures Validating(t, w)[0].reply == Done {
    }
  }

  lemma UnidentifiedDeparts(log: seq<Event>, before: seq<Event>, t: Terms)
    requires before + [Event(ReleaseSource, t.selected, Done)] <= log
    requires forall target: Image :: GoodTarget(t, target) ==> !Follows(log, |before| + 1, Identifying(t, target))
    ensures Invalid(log, |before|, t)
  {
    hide Identifying, Follows;
    var source := [Event(ReleaseSource, t.selected, Done)];
    forall w: Course | GoodTarget(t, w.target) && Follows(log, |before|, Validating(t, w)) ensures false {
      var configured := [Event(CheckConfiguration, w.target, Done)];
      ValidatedInParts(t, w);
      Peel(log, before, source, source, Identifying(t, w.target) + configured);
      FollowsFirst(log, |before| + 1, Identifying(t, w.target), configured);
    }
  }

  lemma ValidatedTogether(before: seq<Event>, sourced: seq<Event>, identified: seq<Event>, log: seq<Event>, t: Terms,
                          c: Course)
    requires sourced == before + [Event(ReleaseSource, t.selected, Done)]
    requires identified == sourced + Identifying(t, c.target)
    requires log == identified + [Event(CheckConfiguration, c.target, Done)]
    ensures log == before + Validating(t, c)
  {
  }

  lemma UnconfiguredDeparts(before: seq<Event>, sourced: seq<Event>, identified: seq<Event>, log: seq<Event>, t: Terms,
                            target: Image, reply: Reply)
    requires sourced == before + [Event(ReleaseSource, t.selected, Done)]
    requires identified == sourced + Identifying(t, target)
    requires log == identified + [Event(CheckConfiguration, target, reply)] && reply != Done
    ensures Invalid(log, |before|, t)
  {
    assert |log| == |before| + 4 && log[|before| + 3].reply == reply;
    forall w: Course ensures |Validating(t, w)| == 4 && Validating(t, w)[3].reply == Done {
    }
  }

  // ---------------------------------------------------------------- What the pieces tell of a course

  /** A piece speaks of what the course has shown by then. */
  lemma PiecesDependOn(t: Terms, c: Course, w: Course)
    ensures w.target == c.target ==> Validating(t, w) == Validating(t, c)
    ensures w == c.(directory := w.directory) ==> Looking(t, w) == Looking(t, c)
    ensures w == c.(facts := w.facts, later := w.later) ==> StartingDatabase(w) == StartingDatabase(c)
    ensures w.target == c.target && w.previous == c.previous ==>
      Choosing(t, w) == Choosing(t, c) && BackupOf(t, w) == BackupOf(t, c)
  {
  }

  lemma AfterValidating(log: seq<Event>, start: seq<Event>, t: Terms, c: Course, w: Course, rest: seq<Event>)
    requires start + Validating(t, c) <= log && Follows(log, |start|, Validating(t, w) + rest)
    ensures w.target == c.target && Follows(log, |start + Validating(t, c)|, rest)
  {
    Peel(log, start, Validating(t, c), Validating(t, w), rest);
    assert Validating(t, c)[1] == Validating(t, w)[1];
  }

  lemma AfterLooking(log: seq<Event>, start: seq<Event>, t: Terms, c: Course, w: Course, rest: seq<Event>)
    requires start + Looking(t, c) <= log && Follows(log, |start|, Looking(t, w) + rest)
    ensures w.previous == c.previous && w.facts == c.facts && Follows(log, |start + Looking(t, c)|, rest)
  {
    Peel(log, start, Looking(t, c), Looking(t, w), rest);
    assert Looking(t, c)[1] == Looking(t, w)[1] && Looking(t, c)[3] == Looking(t, w)[3];
  }

  lemma AfterChoosing(log: seq<Event>, start: seq<Event>, t: Terms, c: Course, w: Course, rest: seq<Event>)
    requires start + Choosing(t, c) <= log && Follows(log, |start|, Choosing(t, w) + rest)
    requires w.target == c.target && w.previous == c.previous
    ensures Follows(log, |start + Choosing(t, c)|, rest)
  {
    Peel(log, start, Choosing(t, c), Choosing(t, w), rest);
  }

  /** No course of these terms has a script that the log follows. */
  ghost predicate Unobserved(log: seq<Event>, start: nat, t: Terms) {
    forall w: Course :: Admissible(t, w) ==> !Follows(log, start, Observing(t, w))
  }

  lemma NoActor(log: seq<Event>, start: nat, t: Terms)
    requires t.actor < 1
    ensures Unobserved(log, start, t)
  {
  }

  lemma NotValidated(log: seq<Event>, start: seq<Event>, t: Terms)
    requires Invalid(log, |start|, t)
    ensures Unobserved(log, |start|, t)
  {
    hide Validating, Looking, Choosing, Opening, Follows;
    forall w: Course | Admissible(t, w) && Follows(log, |start|, Observing(t, w)) ensures false {
      FollowsFirst(log, |start|, Validating(t, w), Looking(t, w) + (Choosing(t, w) + Opening(t, w)));
    }
  }

  lemma NotLooked(log: seq<Event>, start: seq<Event>, t: Terms, c: Course)
    requires start + Validating(t, c) <= log
    requires forall w: Course :: w.target == c.target && w.previous.Image? ==>
      !Follows(log, |start + Validating(t, c)|, Looking(t, w))
    ensures Unobserved(log, |start|, t)
  {
    hide Validating, Looking, Choosing, Opening, Follows;
    forall w: Course | Admissible(t, w) && Follows(log, |start|, Observing(t, w)) ensures false {
      AfterValidating(log, start, t, c, w, Looking(t, w) + (Choosing(t, w) + Opening(t, w)));
      FollowsFirst(log, |start + Validating(t, c)|, Looking(t, w), Choosing(t, w) + Opening(t, w));
    }
  }

  lemma NotChosen(log: seq<Event>, start: seq<Event>, t: Terms, c: Course)
    requires start + Validating(t, c) + Looking(t, c) <= log
    requires GoodBackup(t, c.previous, c.facts.revision) ==>
      !Follows(log, |start + Validating(t, c) + Looking(t, c)|, Choosing(t, c))
    ensures Unobserved(log, |start|, t)
  {
    hide Validating, Looking, Choosing, Opening, Follows;
    forall w: Course | Admissible(t, w) && Follows(log, |start|, Observing(t, w)) ensures false {
      AfterValidating(log, start, t, c, w, Looking(t, w) + (Choosing(t, w) + Opening(t, w)));
      AfterLooking(log, start + Validating(t, c), t, c, w, Choosing(t, w) + Opening(t, w));
      PiecesDependOn(t, c, w);
      FollowsFirst(log, |start + Validating(t, c) + Looking(t, c)|, Choosing(t, w), Opening(t, w));
    }
  }

  lemma NotOpened(log: seq<Event>, start: seq<Event>, t: Terms, c: Course)
    requires start + Validating(t, c) + Looking(t, c) + Choosing(t, c) <= log
    requires forall w: Course :: w.target == c.target && w.previous == c.previous ==>
      !Follows(log, |start + Validating(t, c) + Looking(t, c) + Choosing(t, c)|, Opening(t, w))
    ensures Unobserved(log, |start|, t)
  {
    hide Validating, Looking, Choosing, Opening, Follows;
    var looking := start + Validating(t, c);
    forall w: Course | Admissible(t, w) && Follows(log, |start|, Observing(t, w)) ensures false {
      AfterValidating(log, start, t, c, w, Looking(t, w) + (Choosing(t, w) + Opening(t, w)));
      AfterLooking(log, looking, t, c, w, Choosing(t, w) + Opening(t, w));
      AfterChoosing(log, looking + Looking(t, c), t, c, w, Opening(t, w));
    }
  }

  /** The two courses agree on all that the observation shows. */
  ghost predicate Alike(c: Course, w: Course) {
    w.target == c.target && w.previous == c.previous && w.facts == c.facts && w.directory == c.directory
  }

  lemma AfterObserving(log: seq<Event>, start: seq<Event>, t: Terms, c: Course, w: Course, rest: seq<Event>)
    requires start + Observing(t, c) <= log && Follows(log, |start|, Observing(t, w) + rest)
    ensures Alike(c, w) && Follows(log, |start + Observing(t, c)|, rest)
  {
    hide Validating, Looking, Choosing, Follows;
    var looking := start + Validating(t, c);
    var choosing := looking + Looking(t, c);
    var opening := choosing + Choosing(t, c);
    assert opening + Opening(t, c) == start + Observing(t, c);
    assert Observing(t, w) + rest
        == Validating(t, w) + (Looking(t, w) + (Choosing(t, w) + (Opening(t, w) + rest)));
    AfterValidating(log, start, t, c, w, Looking(t, w) + (Choosing(t, w) + (Opening(t, w) + rest)));
    AfterLooking(log, looking, t, c, w, Choosing(t, w) + (Opening(t, w) + rest));
    AfterChoosing(log, choosing, t, c, w, Opening(t, w) + rest);
    Peel(log, opening, Opening(t, c), Opening(t, w), rest);
    assert Opening(t, c)[0] == Opening(t, w)[0];
  }

  ghost predicate Unsecured(log: seq<Event>, start: nat, t: Terms, c: Course) {
    forall w: Course :: Alike(c, w) ==> !Follows(log, start, Securing(t, w))
  }

  lemma UnsecuredAlike(log: seq<Event>, start: nat, t: Terms, c: Course, d: Course)
    requires Unsecured(log, start, t, c) && Alike(c, d)
    ensures Unsecured(log, start, t, d)
  {
  }

  lemma SecuringDependsOn(t: Terms, c: Course, w: Course)
    ensures Alike(c, w) ==> BackupOf(t, w) == BackupOf(t, c) && Stopping(t, w) == Stopping(t, c)
    ensures Alike(c, w) && w.file == c.file ==> BackingUp(t, w) == BackingUp(t, c)
  {
  }

  lemma NotStopped(log: seq<Event>, start: seq<Event>, t: Terms, c: Course)
    requires !Follows(log, |start|, Stopping(t, c))
    ensures Unsecured(log, |start|, t, c)
  {
    hide BackingUp, Verifying, Follows;
    forall w: Course | Alike(c, w) && Follows(log, |start|, Securing(t, w)) ensures false {
      FollowsFirst(log, |start|, Stopping(t, w), BackingUp(t, w) + Verifying(t, w));
    }
  }

  lemma NotBackedUp(log: seq<Event>, start: seq<Event>, t: Terms, c: Course)
    requires start + Stopping(t, c) <= log
    requires forall w: Course :: BackupOf(t, w) == BackupOf(t, c) && w.directory == c.directory ==>
      !Follows(log, |start + Stopping(t, c)|, BackingUp(t, w))
    ensures Unsecured(log, |start|, t, c)
  {
    hide Verifying, BackingUp, Follows;
    forall w: Course | Alike(c, w) && Follows(log, |start|, Securing(t, w)) ensures false {
      Peel(log, start, Stopping(t, c), Stopping(t, w), BackingUp(t, w) + Verifying(t, w));
      FollowsFirst(log, |start + Stopping(t, c)|, BackingUp(t, w), Verifying(t, w));
    }
  }

  lemma NotVerified(log: seq<Event>, start: seq<Event>, t: Terms, c: Course)
    requires start + Stopping(t, c) + BackingUp(t, c) <= log
    requires forall w: Course :: Alike(c, w) && w.file == c.file ==>
      !Follows(log, |start + Stopping(t, c) + BackingUp(t, c)|, Verifying(t, w))
    ensures Unsecured(log, |start|, t, c)
  {
    hide Verifying, Follows;
    forall w: Course | Alike(c, w) && Follows(log, |start|, Securing(t, w)) ensures false {
      Peel(log, start, Stopping(t, c), Stopping(t, w), BackingUp(t, w) + Verifying(t, w));
      assert BackingUp(t, c)[1] == BackingUp(t, w)[1] ==> w.file == c.file;
      Peel(log, start + Stopping(t, c), BackingUp(t, c), BackingUp(t, w), Verifying(t, w));
    }
  }

  lemma ObservingDependsOn(t: Terms, c: Course, w: Course)
    requires w == c.(file := w.file, digest := w.digest, later := w.later)
    ensures Observing(t, w) == Observing(t, c)
  {
  }

  ghost predicate Uncompleted(log: seq<Event>, start: nat, c: Course) {
    forall w: Course :: Alike(c, w) ==> !Follows(log, start, Recording(w) + Completing(w))
  }

  lemma NotRecorded(log: seq<Event>, start: seq<Event>, c: Course)
    requires !Follows(log, |start|, Recording(c))
    ensures Uncompleted(log, |start|, c)
  {
    hide Completing, Follows;
    forall w: Course | Alike(c, w) && Follows(log, |start|, Recording(w) + Completing(w)) ensures false {
      FollowsFirst(log, |start|, Recording(w), Completing(w));
    }
  }

  /** A log that has the record follows no script from there on whose migration, start or last record failed. */
  lemma NotCompleted(log: seq<Event>, start: seq<Event>, c: Course)
    requires start + Recording(c) <= log
    requires forall w: Course :: Alike(c, w) ==> !Follows(log, |start + Recording(c)|, Completing(w))
    ensures Uncompleted(log, |start|, c)
  {
    hide Completing, Follows;
    forall w: Course | Alike(c, w) && Follows(log, |start|, Recording(w) + Completing(w)) ensures false {
      Peel(log, start, Recording(c), Recording(w), Completing(w));
    }
  }

  lemma NotMigrated(log: seq<Event>, n: nat, c: Course)
    requires n < |log| && log[n].reply != Done
    ensures forall w: Course :: Alike(c, w) ==> !Follows(log, n, Completing(w))
  {
  }

  lemma NotStarted(log: seq<Event>, migrated: seq<Event>, c: Course)
    requires migrated <= log && |migrated| > 0 && migrated[|migrated| - 1] == Event(Migrate, c.target, Done)
    requires forall w: Course :: w.target == c.target ==> !Follows(log, |migrated|, Starting(w))
    ensures forall w: Course :: Alike(c, w) ==> !Follows(log, |migrated| - 1, Completing(w))
  {
    hide Starting, Follows;
    var before := migrated[..|migrated| - 1];
    var migration := [Event(Migrate, c.target, Done)];
    forall w: Course | Alike(c, w) && Follows(log, |before|, Completing(w)) ensures false {
      var last := [Event(WriteRecord(w.directory, RuntimeReady, PostDeploySmoke), w.target, Done)];
      assert before + migration == migrated;
      Peel(log, before, migration, migration, Starting(w) + last);
      FollowsFirst(log, |migrated|, Starting(w), last);
    }
  }

  lemma NotFinished(log: seq<Event>, n: nat, c: Course)
    requires n + 3 < |log| && log[n + 3].reply != Done
    ensures forall w: Course :: Alike(c, w) ==> !Follows(log, n, Completing(w))
  {
    assert forall w: Course :: |Completing(w)| == 4 && Completing(w)[3].reply == Done;
  }

  /** Every migration from `start` on comes directly after all that the script of some course has before it. */
  ghost predicate MigratesByScript(log: seq<Event>, start: seq<Event>, t: Terms) {
    forall k :: |start| <= k < |log| && log[k].command == Migrate ==> MigrationByScript(log, k, start, t)
  }

  ghost predicate MigrationByScript(log: seq<Event>, k: nat, start: seq<Event>, t: Terms)
    requires k < |log|
  {
    exists c :: Admissible(t, c) && log[..k] == start + UntilMigration(t, c) && log[k].image == c.target
  }

  lemma RecordedIsScript(start: seq<Event>, t: Terms, c: Course, log: seq<Event>)
    requires log == start + (Observing(t, c) + Securing(t, c)) + Recording(c)
    ensures log == start + UntilMigration(t, c)
  {
  }

  lemma CompletedIsScript(backedUp: seq<Event>, recorded: seq<Event>, prepared: seq<Event>, running: seq<Event>,
                          log: seq<Event>, before: Course, c: Course)
    requires c == before.(later := c.later) && recorded == backedUp + Recording(before)
    requires prepared == recorded + [Event(Migrate, c.target, Done)] && running == prepared + Starting(c)
    requires |log| == |running| + 1 && running < log
    ensures |running| == |recorded| + 3 && recorded <= log
    ensures log[|running|] == Event(WriteRecord(c.directory, RuntimeReady, PostDeploySmoke), c.target, Done) ==>
      log == backedUp + (Recording(c) + Completing(c))
  {
  }

  lemma OneMigrationByScript(before: seq<Event>, event: Event, start: seq<Event>, t: Terms, c: Course)
    requires before == start + UntilMigration(t, c) && Admissible(t, c)
    requires NoMigration(before, |start|) && event.command == Migrate && event.image == c.target
    ensures MigratesByScript(before + [event], start, t)
  {
    hide UntilMigration, Admissible;
    var log := before + [event];
    assert log[..|before|] == before;
    assert MigrationByScript(log, |before|, start, t);
    assert forall k :: |start| <= k < |before| ==> log[k] == before[k] && log[k].command != Migrate;
  }

  lemma StillByScript(before: seq<Event>, after: seq<Event>, start: seq<Event>, t: Terms)
    requires MigratesByScript(before, start, t) && before <= after && NoMigration(after, |before|)
    ensures MigratesByScript(after, start, t)
  {
    hide UntilMigration, Admissible;
    forall k | |start| <= k < |after| && after[k].command == Migrate ensures MigrationByScript(after, k, start, t) {
      assert k < |before| && after[k] == before[k] && after[..k] == before[..k];
      assert MigrationByScript(before, k, start, t);
    }
  }

  lemma NoneByScript(log: seq<Event>, start: seq<Event>, t: Terms)
    requires NoMigration(log, |start|)
    ensures MigratesByScript(log, start, t)
  {
  }

  // ---------------------------------------------------------------- The whole upgrade

  /** No script of these terms is followed by the log: some reply is not what it has to be. */
  ghost predicate DepartsFromUpgrade(log: seq<Event>, start: nat, t: Terms) {
    forall c :: Admissible(t, c) ==> !Follows(log, start, UpgradeScript(t, c))
  }

  lemma UnobservedDeparts(log: seq<Event>, longer: seq<Event>, start: nat, t: Terms)
    requires Unobserved(log, start, t) && log <= longer
    ensures DepartsFromUpgrade(longer, start, t)
  {
    hide Observing, Securing, Recording, Completing, Follows, Admissible;
    forall w: Course | Admissible(t, w) && Follows(longer, start, UpgradeScript(t, w)) ensures false {
      ShorterFollows(log, longer, start, UpgradeScript(t, w));
      FollowsFirst(log, start, Observing(t, w), Securing(t, w) + (Recording(w) + Completing(w)));
    }
  }

  lemma UnsecuredDeparts(log: seq<Event>, longer: seq<Event>, start: seq<Event>, t: Terms, c: Course)
    requires start + Observing(t, c) <= log <= longer && Unsecured(log, |start + Observing(t, c)|, t, c)
    ensures DepartsFromUpgrade(longer, |start|, t)
  {
    hide Observing, Securing, Recording, Completing, Follows, Admissible;
    forall w: Course | Admissible(t, w) && Follows(longer, |start|, UpgradeScript(t, w)) ensures false {
      ShorterFollows(log, longer, |start|, UpgradeScript(t, w));
      AfterObserving(log, start, t, c, w, Securing(t, w) + (Recording(w) + Completing(w)));
      FollowsFirst(log, |start + Observing(t, c)|, Securing(t, w), Recording(w) + Completing(w));
    }
  }

  lemma UncompletedDeparts(log: seq<Event>, longer: seq<Event>, start: seq<Event>, t: Terms, c: Course)
    requires start + Observing(t, c) + Securing(t, c) <= log <= longer
    requires Uncompleted(log, |start + Observing(t, c) + Securing(t, c)|, c)
    ensures DepartsFromUpgrade(longer, |start|, t)
  {
    hide Observing, Recording, Completing, Follows, Admissible;
    forall w: Course | Admissible(t, w) && Follows(longer, |start|, UpgradeScript(t, w)) ensures false {
      ShorterFollows(log, longer, |start|, UpgradeScript(t, w));
      AfterObserving(log, start, t, c, w, Securing(t, w) + (Recording(w) + Completing(w)));
      Peel(log, start + Observing(t, c), Securing(t, c), Securing(t, w), Recording(w) + Completing(w));
    }
  }

  lemma InertSoFar(start: seq<Event>, log: seq<Event>, target: Image, t: Terms)
    requires QuietFrom(start, 0) && (Quietly(start, log) || Passively(start, log))
    ensures QuietFrom(log, 0) && start <= log && NoMigration(log, |start|)
    ensures Safe(log, target) && MigratesByScript(log, start, t)
  {
  }

  /** A log without starts and migrations that has been continued without any. */
  lemma SoFarNothing(start: seq<Event>, seen: seq<Event>, log: seq<Event>, target: Image, t: Terms)
    requires start <= seen && QuietFrom(seen, 0) && Quietly(seen, log)
    ensures seen <= log && Safe(log, target) && NoMigration(log, |start|) && MigratesByScript(log, start, t)
  {
    hide Safe, MigratesByScript;
    InertSoFar(seen, log, target, t);
    NoneByScript(log, start, t);
  }

  lemma StillDeparts(log: seq<Event>, longer: seq<Event>, start: nat, t: Terms)
    requires DepartsFromUpgrade(log, start, t) && log <= longer
    ensures DepartsFromUpgrade(longer, start, t)
  {
    hide UpgradeScript, Follows;
    forall c | Admissible(t, c) && Follows(longer, start, UpgradeScript(t, c)) ensures false {
      ShorterFollows(log, longer, start, UpgradeScript(t, c));
    }
  }

  lemma SameTerms(t: Terms, c: Course, d: Course)
    requires Admissible(t, c) && d == c.(file := d.file, digest := d.digest, later := d.later)
    ensures Admissible(t, d)
  {
  }

  lemma EndsSo(before: seq<Event>, log: seq<Event>, directory: int, stage: Stage)
    requires |log| == |before| + 1 && before <= log && FailedUnder(before, stage)
    requires log[|before|].command == WriteRecord(directory, FailedOperatorRecoveryRequired, stage)
    ensures EndsInFailureRecord(log, stage)
  {
    assert log[..|log| - 1] == before;
  }

  lemma ObservingTogether(start: seq<Event>, t: Terms, c: Course, d: Course, log: seq<Event>)
    requires d == c.(later := d.later)
    requires log == start + Observing(t, c) + Securing(t, c) + (Recording(d) + Completing(d))
    ensures log == start + UpgradeScript(t, d)
  {
    ObservingDependsOn(t, c, d);
    hide Observing;
  }

  // ---------------------------------------------------------------- Initialization

  ghost predicate DepartsFromInitialize(log: seq<Event>, start: nat, t: Terms) {
    forall w: Course :: GoodTarget(t, w.target) ==> !Follows(log, start, InitializeScript(t, w))
  }

  function InitializedFrom(t: Terms, c: Course): seq<Event> {
    Validating(t, c) + FindingEmpty(c)
  }

  /** A migration comes directly after the proof of an empty database, a start directly after its migration. */
  ghost predicate InitializesByScript(log: seq<Event>, start: seq<Event>, t: Terms, c: Course) {
    && (forall k :: |start| <= k < |log| && log[k].command == Migrate ==>
          log[..k] == start + InitializedFrom(t, c) && log[k].image == c.target)
    && (forall k :: |start| <= k < |log| && log[k].command == UpApp ==>
          log[..k] == start + InitializedFrom(t, c) + [Event(Migrate, c.target, Done)] && log[k].image == c.target)
  }

  lemma InvalidNeverInitializes(log: seq<Event>, start: seq<Event>, t: Terms)
    requires Invalid(log, |start|, t)
    ensures DepartsFromInitialize(log, |start|, t)
  {
    hide Validating, FindingEmpty, Starting, Follows;
    forall w: Course | GoodTarget(t, w.target) && Follows(log, |start|, InitializeScript(t, w)) ensures false {
      FollowsFirst(log, |start|, Validating(t, w), FindingEmpty(w) + ([Event(Migrate, w.target, Done)] + Starting(w)));
    }
  }

  lemma NotEmptyNeverInitializes(log: seq<Event>, start: seq<Event>, t: Terms, c: Course)
    requires start + Validating(t, c) <= log
    requires forall w: Course :: w.target == c.target ==> !Follows(log, |start + Validating(t, c)|, FindingEmpty(w))
    ensures DepartsFromInitialize(log, |start|, t)
  {
    hide Validating, FindingEmpty, Starting, Follows;
    forall w: Course | GoodTarget(t, w.target) && Follows(log, |start|, InitializeScript(t, w)) ensures false {
      var rest := [Event(Migrate, w.target, Done)] + Starting(w);
      AfterValidating(log, start, t, c, w, FindingEmpty(w) + rest);
      FollowsFirst(log, |start + Validating(t, c)|, FindingEmpty(w), rest);
    }
  }

  lemma FoundEmpty(log: seq<Event>, start: seq<Event>, t: Terms, c: Course, w: Course, rest: seq<Event>)
    requires start + InitializedFrom(t, c) <= log
    requires Follows(log, |start|, Validating(t, w) + (FindingEmpty(w) + rest))
    ensures w.target == c.target && Follows(log, |start + InitializedFrom(t, c)|, rest)
  {
    hide Validating, Follows;
    assert start + InitializedFrom(t, c) == start + Validating(t, c) + FindingEmpty(c);
    AfterValidating(log, start, t, c, w, FindingEmpty(w) + rest);
    Peel(log, start + Validating(t, c), FindingEmpty(c), FindingEmpty(w), rest);
  }

  lemma UnpreparedNeverInitializes(log: seq<Event>, found: seq<Event>, start: seq<Event>, t: Terms, c: Course)
    requires found == start + InitializedFrom(t, c) && found < log && log[|found|].reply != Done
    ensures DepartsFromInitialize(log, |start|, t)
  {
    hide Validating, FindingEmpty, Starting, InitializedFrom, Follows;
    forall w: Course | GoodTarget(t, w.target) && Follows(log, |start|, InitializeScript(t, w)) ensures false {
      FoundEmpty(log, start, t, c, w, [Event(Migrate, w.target, Done)] + Starting(w));
      FirstFollows(log, |found|, [Event(Migrate, w.target, Done)], Starting(w));
    }
  }

  lemma FirstFollows(log: seq<Event>, n: nat, first: seq<Event>, rest: seq<Event>)
    requires n < |log| && |first| == 1 && Follows(log, n, first + rest)
    ensures log[n] == first[0]
  {
    assert (first + rest)[0] == first[0];
  }

  lemma UnstartedNeverInitializes(log: seq<Event>, found: seq<Event>, start: seq<Event>, t: Terms, c: Course)
    requires found == start + InitializedFrom(t, c) && found + [Event(Migrate, c.target, Done)] <= log
    requires forall w: Course :: w.target == c.target ==> !Follows(log, |found| + 1, Starting(w))
    ensures DepartsFromInitialize(log, |start|, t)
  {
    hide Validating, FindingEmpty, Starting, InitializedFrom, Follows;
    var migration := [Event(Migrate, c.target, Done)];
    forall w: Course | GoodTarget(t, w.target) && Follows(log, |start|, InitializeScript(t, w)) ensures false {
      FoundEmpty(log, start, t, c, w, [Event(Migrate, w.target, Done)] + Starting(w));
      Peel(log, found, migration, migration, Starting(w));
    }
  }

  lemma StartedIsInitialized(start: seq<Event>, t: Terms, c: Course, d: Course, log: seq<Event>)
    requires d == c.(later := d.later)
    requires log == start + InitializedFrom(t, c) + [Event(Migrate, c.target, Done)] + Starting(d)
    ensures log == start + InitializeScript(t, d) && InitializedFrom(t, c) == InitializedFrom(t, d)
  {
    hide Starting;
    assert Validating(t, c) == Validating(t, d) && FindingEmpty(c) == FindingEmpty(d);
    hide Validating, FindingEmpty;
  }

  lemma ByScriptSoFar(log: seq<Event>, start: seq<Event>, t: Terms, c: Course)
    requires Quietly(start, log)
    ensures InitializesByScript(log, start, t, c) && start <= log
  {
  }

  lemma MigratedByScript(found: seq<Event>, event: Event, start: seq<Event>, t: Terms, c: Course)
    requires Quietly(start, found) && found == start + InitializedFrom(t, c)
    requires event.command == Migrate && event.image == c.target
    ensures InitializesByScript(found + [event], start, t, c)
  {
    hide InitializedFrom;
    assert (found + [event])[..|found|] == found;
    assert forall k :: |start| <= k < |found| ==> (found + [event])[k] == found[k];
  }

  lemma StartedByScript(found: seq<Event>, up: Event, log: seq<Event>, start: seq<Event>, t: Terms, c: Course)
    requires Quietly(start, found) && found == start + InitializedFrom(t, c)
    requires Quietly(found + [Event(Migrate, c.target, Done)] + [up], log)
    requires up.command == UpApp && up.image == c.target
    ensures InitializesByScript(log, start, t, c) && start <= log
  {
    hide InitializedFrom;
    var migrated := found + [Event(Migrate, c.target, Done)];
    assert log[..|found|] == found && log[..|migrated|] == migrated;
    assert log[|found|] == Event(Migrate, c.target, Done) && log[|migrated|] == up;
    assert forall k :: |start| <= k < |found| ==> log[k] == found[k];
  }

  lemma ByTheSameScript(log: seq<Event>, start: seq<Event>, t: Terms, c: Course, d: Course)
    requires InitializesByScript(log, start, t, c) && InitializedFrom(t, c) == InitializedFrom(t, d)
    requires c.target == d.target
    ensures InitializesByScript(log, start, t, d)
  {
    hide InitializedFrom;
  }

  // ---------------------------------------------------------------- Restart

  ghost predicate DepartsFromRestart(log: seq<Event>, start: nat, t: Terms, patience: nat) {
    forall w: Course :: GoodTarget(t, w.target) && w.polls <= patience ==> !Follows(log, start, RestartScript(t, w))
  }

  lemma InvalidNeverRestarts(log: seq<Event>, start: seq<Event>, t: Terms, patience: nat)
    requires Invalid(log, |start|, t)
    ensures DepartsFromRestart(log, |start|, t, patience)
  {
    hide Validating, Finding, StartingDatabase, ProbingConfiguration, Starting, Follows;
    forall w: Course | GoodTarget(t, w.target) && Follows(log, |start|, RestartScript(t, w)) ensures false {
      FollowsFirst(log, |start|, Validating(t, w), Finding(w.target, false, w.container, w.target)
        + (StartingDatabase(w) + (ProbingConfiguration(w) + Starting(w))));
    }
  }

  lemma NotFoundNeverRestarts(log: seq<Event>, start: seq<Event>, t: Terms, c: Course, patience: nat)
    requires start + Validating(t, c) <= log
    requires forall k: int :: !Follows(log, |start + Validating(t, c)|, Finding(c.target, false, k, c.target))
    ensures DepartsFromRestart(log, |start|, t, patience)
  {
    hide Validating, Finding, StartingDatabase, ProbingConfiguration, Starting, Follows;
    forall w: Course | GoodTarget(t, w.target) && Follows(log, |start|, RestartScript(t, w)) ensures false {
      var rest := StartingDatabase(w) + (ProbingConfiguration(w) + Starting(w));
      AfterValidating(log, start, t, c, w, Finding(w.target, false, w.container, w.target) + rest);
      FollowsFirst(log, |start + Validating(t, c)|, Finding(w.target, false, w.container, w.target), rest);
    }
  }

  lemma FoundFollows(log: seq<Event>, start: seq<Event>, t: Terms, c: Course, w: Course, rest: seq<Event>)
    requires start + Validating(t, c) + Finding(c.target, false, c.container, c.target) <= log
    requires Follows(log, |start|, Validating(t, w) + (Finding(w.target, false, w.container, w.target) + rest))
    ensures w.target == c.target
    ensures Follows(log, |start + Validating(t, c) + Finding(c.target, false, c.container, c.target)|, rest)
  {
    hide Validating, Follows;
    AfterValidating(log, start, t, c, w, Finding(w.target, false, w.container, w.target) + rest);
    Peel(log, start + Validating(t, c), Finding(c.target, false, c.container, c.target),
      Finding(w.target, false, w.container, w.target), rest);
  }

  /** No script has the states that the database container has shown. */
  ghost predicate NeverHealthy(log: seq<Event>, start: nat, target: Image, patience: nat) {
    forall w: Course :: w.target == target && w.polls <= patience ==> !Follows(log, start, StartingDatabase(w))
  }

  lemma UnhealthyNeverRestarts(log: seq<Event>, start: seq<Event>, t: Terms, c: Course, patience: nat)
    requires start + Validating(t, c) + Finding(c.target, false, c.container, c.target) <= log
    requires NeverHealthy(log, |start + Validating(t, c) + Finding(c.target, false, c.container, c.target)|, c.target,
                          patience)
    ensures DepartsFromRestart(log, |start|, t, patience)
  {
    hide Validating, Finding, StartingDatabase, ProbingConfiguration, Starting, Follows;
    forall w: Course | GoodTarget(t, w.target) && w.polls <= patience && Follows(log, |start|, RestartScript(t, w))
      ensures false
    {
      FoundFollows(log, start, t, c, w, StartingDatabase(w) + (ProbingConfiguration(w) + Starting(w)));
      FollowsFirst(log, |start + Validating(t, c) + Finding(c.target, false, c.container, c.target)|,
        StartingDatabase(w), ProbingConfiguration(w) + Starting(w));
    }
  }

  /** The database container was found and started and has answered `polls` times that it is starting. */
  ghost predicate Asking(log: seq<Event>, n: nat, c: Course, polls: nat) {
    && |log| == n + 2 + polls
    && log[n] == Event(ListDatabase, c.target, Containers([c.database]))
    && log[n + 1] == Event(StartDatabase, c.target, Done)
    && forall i :: n + 2 <= i < |log| ==> log[i] == Event(DatabaseState(c.database), c.target, Health(true, false))
  }

  lemma StartsAsking(log: seq<Event>, n: nat, c: Course)
    requires |log| == n + 2 && log[n] == Event(ListDatabase, c.target, Containers([c.database]))
    requires log[n + 1] == Event(StartDatabase, c.target, Done)
    ensures Asking(log, n, c, 0)
  {
  }

  lemma AskedAgain(before: seq<Event>, log: seq<Event>, n: nat, c: Course, polls: nat, reply: Reply)
    requires Asking(before, n, c, polls)
    requires log == before + [Event(DatabaseState(c.database), c.target, reply)]
    ensures reply == Health(true, false) ==> Asking(log, n, c, polls + 1)
    ensures reply == Health(true, true) ==> log == before[..n] + StartingDatabase(c.(polls := polls))
  {
    if reply == Health(true, true) {
      var script := StartingDatabase(c.(polls := polls));
      assert |log| == n + |script|;
      forall i | n <= i < |log| ensures log[i] == script[i - n] {
      }
    }
  }

  lemma StateAt(w: Course, i: nat)
    requires i <= w.polls
    ensures |StartingDatabase(w)| == w.polls + 3 && StartingDatabase(w)[2 + i].reply == Health(true, i == w.polls)
  {
  }

  lemma FollowsAt(log: seq<Event>, n: nat, script: seq<Event>, i: nat)
    requires Follows(log, n, script) && i < |script| && n + i < |log|
    ensures log[n + i] == script[i]
  {
  }

  /** After `polls` starting states the last state is neither healthy nor, with patience left, starting. */
  lemma StillUnhealthy(before: seq<Event>, log: seq<Event>, n: nat, c: Course, patience: nat, polls: nat, reply: Reply)
    requires Asking(before, n, c, polls) && polls <= patience
    requires log == before + [Event(DatabaseState(c.database), c.target, reply)]
    requires reply != Health(true, true) && (reply == Health(true, false) ==> polls == patience)
    ensures NeverHealthy(log, n, c.target, patience)
  {
    hide Follows, StartingDatabase;
    forall w: Course | w.target == c.target && w.polls <= patience && Follows(log, n, StartingDatabase(w))
      ensures false
    {
      var last := if w.polls <= polls then w.polls else polls;
      StateAt(w, last);
      FollowsAt(log, n, StartingDatabase(w), 2 + last);
    }
  }

  lemma DatabaseMissing(log: seq<Event>, n: nat, target: Image, patience: nat)
    requires n < |log| && !(log[n].reply.Containers? && |log[n].reply.containers| == 1)
    ensures NeverHealthy(log, n, target, patience)
  {
    hide Polling;
  }

  lemma DatabaseNotStarted(log: seq<Event>, n: nat, target: Image, patience: nat)
    requires n + 1 < |log| && log[n + 1].reply != Done
    ensures NeverHealthy(log, n, target, patience)
  {
    hide Polling;
  }

  /** Another image, or none, is not what the script finds. */
  lemma NotThisOne(log: seq<Event>, before: seq<Event>, target: Image, found: Result<Image, Fault>, container: int)
    requires before <= log && target.Image? && (found.Success? ==> found.value != target)
    requires found.Success? ==> log == before + Finding(target, false, container, found.value)
    requires found.Failure? ==>
      forall k: int, image: Image :: image.Image? ==> !Follows(log, |before|, Finding(target, false, k, image))
    ensures forall k: int :: !Follows(log, |before|, Finding(target, false, k, target))
  {
    if found.Success? {
      assert log[|before| + 1] == Finding(target, false, container, found.value)[1];
      assert forall k: int :: Finding(target, false, k, target)[1].reply == Identity(target);
    }
  }

  /** The first healthy answer tells how often the state was asked for. */
  lemma PollsAgree(c: Course, w: Course)
    requires forall i :: 0 <= i < |StartingDatabase(c)| && i < |StartingDatabase(w)| ==>
      StartingDatabase(c)[i] == StartingDatabase(w)[i]
    ensures c.polls == w.polls
  {
    var last := 2 + if c.polls <= w.polls then c.polls else w.polls;
    assert StartingDatabase(c)[last].reply == Health(true, last - 2 == c.polls);
    assert StartingDatabase(w)[last].reply == Health(true, last - 2 == w.polls);
  }

  lemma AfterStartingDatabase(log: seq<Event>, start: seq<Event>, c: Course, w: Course, rest: seq<Event>)
    requires start + StartingDatabase(c) <= log && Follows(log, |start|, StartingDatabase(w) + rest)
    requires w.target == c.target
    ensures Follows(log, |start + StartingDatabase(c)|, rest)
  {
    var mine, other := StartingDatabase(c), StartingDatabase(w);
    forall i | 0 <= i < |mine| && i < |other| ensures mine[i] == other[i] {
      assert log[|start| + i] == (start + mine)[|start| + i];
      assert log[|start| + i] == (other + rest)[i];
    }
    PollsAgree(c, w);
    Peel(log, start, mine, other, rest);
  }

  lemma CheckedFollows(log: seq<Event>, start: seq<Event>, t: Terms, c: Course, w: Course, rest: seq<Event>)
    requires start + Validating(t, c) + Finding(c.target, false, c.container, c.target) + StartingDatabase(c) <= log
    requires Follows(log, |start|, Validating(t, w) + (Finding(w.target, false, w.container, w.target)
                     + (StartingDatabase(w) + rest)))
    ensures w.target == c.target
    ensures Follows(log, |start + Validating(t, c) + Finding(c.target, false, c.container, c.target)
                          + StartingDatabase(c)|, rest)
  {
    hide Validating, Finding, StartingDatabase, Follows;
    FoundFollows(log, start, t, c, w, StartingDatabase(w) + rest);
    AfterStartingDatabase(log, start + Validating(t, c) + Finding(c.target, false, c.container, c.target), c, w, rest);
  }

  lemma UnfitNeverRestarts(log: seq<Event>, start: seq<Event>, t: Terms, c: Course, patience: nat, n: nat)
    requires start + Validating(t, c) + Finding(c.target, false, c.container, c.target) + StartingDatabase(c) <= log
    requires n == |start + Validating(t, c) + Finding(c.target, false, c.container, c.target) + StartingDatabase(c)|
    requires n < |log| && !log[n].reply.Report?
    ensures DepartsFromRestart(log, |start|, t, patience)
  {
    hide Validating, Finding, StartingDatabase, Starting, Follows;
    forall w: Course | GoodTarget(t, w.target) && Follows(log, |start|, RestartScript(t, w)) ensures false {
      CheckedFollows(log, start, t, c, w, ProbingConfiguration(w) + Starting(w));
      FirstFollows(log, n, ProbingConfiguration(w), Starting(w));
    }
  }

  lemma UnstartedNeverRestarts(log: seq<Event>, start: seq<Event>, t: Terms, c: Course, patience: nat)
    requires start + Checked(t, c) <= log
    requires forall w: Course :: w.target == c.target ==> !Follows(log, |start + Checked(t, c)|, Starting(w))
    ensures DepartsFromRestart(log, |start|, t, patience)
  {
    hide Validating, Finding, StartingDatabase, Starting, Follows;
    var ready := start + Validating(t, c) + Finding(c.target, false, c.container, c.target) + StartingDatabase(c);
    assert start + Checked(t, c) == ready + ProbingConfiguration(c);
    forall w: Course | GoodTarget(t, w.target) && Follows(log, |start|, RestartScript(t, w)) ensures false {
      CheckedFollows(log, start, t, c, w, ProbingConfiguration(w) + Starting(w));
      Peel(log, ready, ProbingConfiguration(c), ProbingConfiguration(w), Starting(w));
    }
  }

  lemma StartedIsRestarted(start: seq<Event>, t: Terms, c: Course, d: Course, log: seq<Event>)
    requires d == c.(later := d.later) && log == start + Checked(t, c) + Starting(d)
    ensures log == start + RestartScript(t, d) && Checked(t, c) == Checked(t, d)
  {
    hide Starting;
    assert Validating(t, c) == Validating(t, d) && StartingDatabase(c) == StartingDatabase(d);
    assert ProbingConfiguration(c) == ProbingConfiguration(d);
    hide Validating, Finding, StartingDatabase, ProbingConfiguration;
  }

  // ---------------------------------------------------------------- A script is evidence

  /** Where the evidence stands in a log that follows the script from place `n` on. */
  ghost function EvidenceOf(n: nat, t: Terms, c: Course): Evidence {
    var m := n + 9 + |Bridging(t, c)| + |Tooling(t, c)|;
    Evidence(t.actor, c.facts, c.previous, BackupOf(t, c), c.directory, c.file, c.digest,
             n + 5, n + 7, m, m + 4, m + 5, m + 6, m + 7, m + 8, m + 9, m + 10)
  }

  lemma Place(before: seq<Event>, piece: seq<Event>, after: seq<Event>, log: seq<Event>, i: nat)
    requires log == before + piece + after && i < |piece|
    ensures log[|before| + i] == piece[i]
  {
  }

  lemma ToolsAreChecked(before: seq<Event>, t: Terms, c: Course, log: seq<Event>)
    requires before + Tooling(t, c) <= log
    ensures ToolsChecked(log, BackupOf(t, c)) && ToolsChecked(log, c.target)
  {
    var tools := Tooling(t, c);
    assert log[|before|] == (before + tools)[|before|] == Event(CheckToolchain, BackupOf(t, c), Done);
    if BackupOf(t, c) != c.target {
      assert log[|before| + 1] == (before + tools)[|before| + 1] == Event(CheckToolchain, c.target, Done);
    }
  }

  lemma ObservedIsEvidence(before: seq<Event>, t: Terms, c: Course)
    ensures var log, e := before + Observing(t, c), EvidenceOf(|before|, t, c);
            Prepared(log, e) && Equipped(log, e, c.target) && |log| == e.stopped
  {
    var log, e := before + Observing(t, c), EvidenceOf(|before|, t, c);
    var looking, tools := before + Validating(t, c), Choosing(t, c);
    assert log == looking + Looking(t, c) + (tools + Opening(t, c));
    ObservedPlaces(looking, t, c, log);
    hide ToolsChecked;
  }

  lemma ObservedPlaces(looking: seq<Event>, t: Terms, c: Course, log: seq<Event>)
    requires log == looking + Looking(t, c) + (Bridging(t, c) + Tooling(t, c) + Opening(t, c))
    ensures log[|looking| + 1] == Event(InspectContainer(c.container), c.target, Identity(c.previous))
    ensures log[|looking| + 3] == Event(ProbeRunning(Existing(t.actor)), c.target, Report(c.facts))
    ensures log[|looking| + 4] == Event(ProbeOnce(Existing(t.actor)), c.target, Report(c.facts))
    ensures var made := |looking| + 5 + |Bridging(t, c)| + |Tooling(t, c)|;
            && |log| == made + 4
            && log[made] == Event(MakeDirectory, c.target, Directory(c.directory))
    ensures ToolsChecked(log, BackupOf(t, c)) && ToolsChecked(log, c.target)
  {
    hide Bridging, Tooling, ToolsChecked;
    var tools := Bridging(t, c) + Tooling(t, c);
    Place(looking, Looking(t, c), tools + Opening(t, c), log, 1);
    Place(looking, Looking(t, c), tools + Opening(t, c), log, 3);
    Place(looking, Looking(t, c), tools + Opening(t, c), log, 4);
    assert log == (looking + Looking(t, c) + tools) + Opening(t, c) + [];
    Place(looking + Looking(t, c) + tools, Opening(t, c), [], log, 0);
    assert log == (looking + Looking(t, c) + Bridging(t, c)) + Tooling(t, c) + Opening(t, c);
    ToolsAreChecked(looking + Looking(t, c) + Bridging(t, c), t, c, log);
  }

  lemma SecuredIsEvidence(observed: seq<Event>, t: Terms, c: Course, n: nat)
    requires EvidenceOf(n, t, c).stopped == |observed|
    ensures var log, e := observed + Securing(t, c), EvidenceOf(n, t, c);
            Stopped(log, e) && BackedUp(log, e) && Verified(log, e, c.target) && OnlyBackup(log, e)
  {
    var log, e := observed + Securing(t, c), EvidenceOf(n, t, c);
    assert |log| == |observed| + 7;
    assert log[e.stopped] == Stopping(t, c)[0] && log[e.reprobed] == Stopping(t, c)[1];
    assert log[e.backedUp] == BackingUp(t, c)[0] && log[e.listed] == BackingUp(t, c)[1];
    assert log[e.digested] == Verifying(t, c)[0] && log[e.verified] == Verifying(t, c)[1];
    assert log[e.redigested] == Verifying(t, c)[2];
  }

  lemma SecuringIsQuiet(observed: seq<Event>, t: Terms, c: Course)
    ensures Quietly(observed, observed + Securing(t, c))
  {
  }

  lemma RecordingIsPassive(secured: seq<Event>, c: Course)
    ensures Passively(secured, secured + Recording(c))
    ensures SourcesConfirmed(secured + Recording(c), c.target)
  {
  }

  /** A log that follows the script up to the migration holds all the evidence, and the sources are confirmed. */
  lemma ScriptIsEvidence(before: seq<Event>, t: Terms, c: Course)
    ensures var log := before + UntilMigration(t, c);
            SourcesConfirmed(log, c.target) && Shows(log, EvidenceOf(|before|, t, c), c.target)
  {
    hide Observing, Securing, Recording, Prepared, Equipped, Stopped, BackedUp, Verified, OnlyBackup;
    hide Quietly, Passively, SourcesConfirmed;
    var e := EvidenceOf(|before|, t, c);
    var observed := before + Observing(t, c);
    var secured := observed + Securing(t, c);
    assert before + UntilMigration(t, c) == secured + Recording(c);
    ObservedIsEvidence(before, t, c);
    SecuredIsEvidence(observed, t, c, |before|);
    SecuringIsQuiet(observed, t, c);
    RecordingIsPassive(secured, c);
    EvidenceStays(observed, secured, e, c.target);
    EvidenceStays(secured, secured + Recording(c), e, c.target);
  }
}
