/**
 What a safe upgrade log means for the running application and for the database.
 */
module UpgradeSafety {
  import opened UpgradeLog

  /**
   The images the application may be running after a log: a failed start or stop may or may not have had its effect.
   */
  function MayRun(log: seq<Event>, initial: set<Image>): set<Image> {
    if log == [] then initial
    else
      var before, last := MayRun(log[..|log| - 1], initial), log[|log| - 1];
      if last.command == UpApp then if last.reply == Done then {last.image} else before + {last.image}
      else if last.command == StopApp && last.reply == Done then {}
      else before
  }

  lemma MayRunStep(log: seq<Event>, n: nat, initial: set<Image>)
    requires n < |log|
    ensures log[n].command != UpApp && log[n].command != StopApp ==>
      MayRun(log[..n + 1], initial) == MayRun(log[..n], initial)
    ensures log[n].command == StopApp ==> MayRun(log[..n + 1], initial) <= MayRun(log[..n], initial)
    ensures log[n].command == UpApp ==> MayRun(log[..n + 1], initial) <= MayRun(log[..n], initial) + {log[n].image}
    ensures log[n].command == StopApp && log[n].reply == Done ==> MayRun(log[..n + 1], initial) == {}
  {
    assert log[..n + 1][..n] == log[..n] && log[..n + 1][n] == log[n];
  }

  /** From the recorded stop to the migration nothing runs. */
  lemma {:induction false} NothingRunsMeanwhile(log: seq<Event>, e: Evidence, initial: set<Image>, k: nat, n: nat)
    requires k <= |log| && Stopped(log[..k], e) && e.stopped < n <= k
    ensures MayRun(log[..n], initial) == {}
  {
    MayRunStep(log, n - 1, initial);
    assert log[..k][n - 1] == log[n - 1] && log[..k][e.stopped] == log[e.stopped];
    if n > e.stopped + 1 {
      NothingRunsMeanwhile(log, e, initial, k, n - 1);
    }
  }

  predicate ProbesExisting(command: Command) {
    (command.ProbeOnce? || command.ProbeRunning?) && command.mode.Existing?
  }

  lemma EvidenceIsInOrder(log: seq<Event>, e: Evidence, target: Image, k: nat)
    requires k <= |log| && Shows(log[..k], e, target)
    ensures e.probed < e.stopped < e.reprobed < e.backedUp < e.verified < k
    ensures log[e.probed].reply == log[e.reprobed].reply == Report(e.facts)
    ensures ProbesExisting(log[e.probed].command) && ProbesExisting(log[e.reprobed].command)
  {
    hide QuietFrom;
    assert log[..k][e.probed] == log[e.probed] && log[..k][e.reprobed] == log[e.reprobed];
  }

  lemma StartsRunTheTarget(log: seq<Event>, target: Image, n: nat)
    requires Safe(log, target) && n < |log| && log[n].command == UpApp
    ensures log[n].image == target
  {
    hide Shows;
  }

  lemma NothingRunsAtMigration(log: seq<Event>, target: Image, initial: set<Image>, k: nat)
    requires Safe(log, target) && k < |log| && log[k].command == Migrate
    ensures MayRun(log[..k], initial) == {}
  {
    hide Prepared, Equipped, Stopped, BackedUp, Verified, MayRun;
    var e :| Shows(log[..k], e, target);
    EvidenceIsInOrder(log, e, target, k);
    NothingRunsMeanwhile(log, e, initial, k, k);
  }

  /** Once a migration was issued, only the target ever runs, whatever failed before or fails later. */
  lemma {:induction false} OnlyTheTargetRunsAfterMigration(log: seq<Event>, target: Image, initial: set<Image>,
                                        k: nat, n: nat)
    requires Safe(log, target) && k < n <= |log| && log[k].command == Migrate
    ensures MayRun(log[..n], initial) <= {target}
  {
    hide Safe, MayRun;
    MayRunStep(log, n - 1, initial);
    if log[n - 1].command == UpApp {
      StartsRunTheTarget(log, target, n - 1);
    }
    if n == k + 1 {
      NothingRunsAtMigration(log, target, initial, k);
    } else {
      OnlyTheTargetRunsAfterMigration(log, target, initial, k, n - 1);
    }
  }

  // ---------------------------------------------------------------- The databases behind the commands

  /** A committed change: of the schema, the entry by which a backup records itself, or any other. */
  datatype Write = Schema(revision: int) | BackupEntry(actor: int) | Row(id: int)

  /** The changes committed before a command, in the database of a given identity. */
  type Contents = (nat, int) -> seq<Write>

  function RevisionOf(writes: seq<Write>): int {
    if writes == [] then 0
    else if writes[|writes| - 1].Schema? then writes[|writes| - 1].revision
    else RevisionOf(writes[..|writes| - 1])
  }

  /** The application may be writing during the command, or the command migrates. */
  ghost predicate MayWrite(log: seq<Event>, initial: set<Image>, i: nat)
    requires i < |log|
  {
    MayRun(log[..i], initial) != {} || MayRun(log[..i + 1], initial) != {} || log[i].command == Migrate
  }

  /** A backup adds its own entry after the dump, surely so if it succeeds; no other command by itself writes. */
  predicate Alone(event: Event, sees: Image -> int, d: int, before: seq<Write>, after: seq<Write>) {
    if event.command.BackUp? && d == sees(event.image) then
      after == before + [BackupEntry(event.command.actor)] || (event.reply != Done && after == before)
    else after == before
  }

  /** A probe reports the revision and the identity of a database, and nothing else about what it holds. */
  predicate Truthful(event: Event, sees: Image -> int, i: nat, contents: Contents) {
    event.reply.Report? && ProbesExisting(event.command) ==>
      && event.reply.facts.revision == RevisionOf(contents(i, event.reply.facts.identity))
      && (event.command.ProbeOnce? ==> event.reply.facts.identity == sees(event.image))
  }

  /**
   How databases behave: nothing committed is lost, and without the application and outside a migration only backups
   write. `sees` tells which database a throw-away container of an image is connected to.
   */
  ghost predicate Faithful(log: seq<Event>, initial: set<Image>, sees: Image -> int, contents: Contents) {
    && (forall i, d :: 0 <= i < |log| ==> contents(i, d) <= contents(i + 1, d))
    && (forall i, d :: 0 <= i < |log| && !MayWrite(log, initial, i) ==>
          Alone(log[i], sees, d, contents(i, d), contents(i + 1, d)))
    && (forall i :: 0 <= i < |log| ==> Truthful(log[i], sees, i, contents))
  }

  lemma {:induction false} NothingIsLost(log: seq<Event>, initial: set<Image>, sees: Image -> int, contents: Contents,
                                         d: int, i: nat, j: nat)
    requires Faithful(log, initial, sees, contents) && i <= j <= |log|
    ensures contents(i, d) <= contents(j, d)
    decreases j
  {
    if i < j {
      NothingIsLost(log, initial, sees, contents, d, i, j - 1);
      assert contents(j - 1, d) <= contents(j - 1 + 1, d);
    }
  }

  /** After the recorded stop only the backup writes, and only its own entry. */
  lemma OneStepAlone(log: seq<Event>, e: Evidence, initial: set<Image>, sees: Image -> int, contents: Contents, k: nat,
                     i: nat, d: int)
    requires k <= |log| && Stopped(log[..k], e) && Faithful(log, initial, sees, contents) && e.stopped < i < k
    ensures Alone(log[i], sees, d, contents(i, d), contents(i + 1, d))
  {
    NothingRunsMeanwhile(log, e, initial, k, i);
    NothingRunsMeanwhile(log, e, initial, k, i + 1);
    assert log[..k][i] == log[i];
    assert !MayWrite(log, initial, i);
    hide MayWrite, Alone, Truthful;
  }

  lemma {:induction false} ContentsStand(log: seq<Event>, e: Evidence, initial: set<Image>, sees: Image -> int,
                                         contents: Contents, k: nat, i: nat, j: nat, d: int)
    requires k <= |log| && Stopped(log[..k], e) && OnlyBackup(log[..k], e) && Faithful(log, initial, sees, contents)
    requires e.stopped < i <= j <= k && !(i <= e.backedUp < j)
    ensures contents(i, d) == contents(j, d)
    decreases j
  {
    hide Stopped, Faithful;
    if i < j {
      ContentsStand(log, e, initial, sees, contents, k, i, j - 1, d);
      OneStepAlone(log, e, initial, sees, contents, k, j - 1, d);
      assert log[..k][j - 1] == log[j - 1];
    }
  }

  /** Both images are connected to the probed database, at the probed revision. */
  lemma SameDatabase(log: seq<Event>, e: Evidence, target: Image, initial: set<Image>, sees: Image -> int,
                     contents: Contents, k: nat)
    requires k <= |log| && Shows(log[..k], e, target) && Faithful(log, initial, sees, contents)
    ensures sees(target) == sees(e.backupImage) == e.facts.identity
    ensures RevisionOf(contents(e.probed, e.facts.identity)) == e.facts.revision
    ensures RevisionOf(contents(e.reprobed, e.facts.identity)) == e.facts.revision
  {
    hide QuietFrom, ToolsChecked, OnlyBackup, BackedUp, Verified, MayWrite, Alone;
    var shown := log[..k];
    assert shown[e.probed] == log[e.probed] && shown[e.probed + 1] == log[e.probed + 1]
      && shown[e.reprobed] == log[e.reprobed];
    assert Truthful(log[e.probed], sees, e.probed, contents);
    assert Truthful(log[e.probed + 1], sees, e.probed + 1, contents);
    assert Truthful(log[e.reprobed], sees, e.reprobed, contents);
  }

  lemma BackupIsRecorded(log: seq<Event>, e: Evidence, target: Image, initial: set<Image>, sees: Image -> int,
                         contents: Contents, k: nat)
    requires k <= |log| && Shows(log[..k], e, target) && Faithful(log, initial, sees, contents)
    ensures contents(e.backedUp + 1, sees(e.backupImage))
         == contents(e.backedUp, sees(e.backupImage)) + [BackupEntry(e.actor)]
  {
    EvidenceIsInOrder(log, e, target, k);
    OneStepAlone(log, e, initial, sees, contents, k, e.backedUp, sees(e.backupImage));
    assert log[..k][e.backedUp] == log[e.backedUp];
    hide Faithful;
  }

  /**
   A migration starts from what was backed up and verified and the backup's own entry, in the one database that the old
   release, the backup and the target are connected to. It holds whatever the stopped application left, which is all
   that the probe found and possibly more.
   */
  lemma WhatIsMigratedIsBackedUp(log: seq<Event>, target: Image, initial: set<Image>, sees: Image -> int,
                                 contents: Contents, k: nat) returns (e: Evidence)
    requires Safe(log, target) && k < |log| && log[k].command == Migrate
    requires Faithful(log, initial, sees, contents)
    ensures Shows(log[..k], e, target)
    ensures sees(target) == sees(e.backupImage) == e.facts.identity
    ensures var d := e.facts.identity;
            && contents(e.probed, d) <= contents(e.stopped + 1, d) == contents(e.backedUp, d)
            && contents(k, d) == contents(e.verified, d) == contents(e.backedUp, d) + [BackupEntry(e.actor)]
            && RevisionOf(contents(k, d)) == RevisionOf(contents(e.backedUp, d)) == e.facts.revision
  {
    hide Prepared, Stopped, BackedUp, Verified, OnlyBackup, Equipped, Faithful, MayRun;
    e :| Shows(log[..k], e, target);
    var d := e.facts.identity;
    EvidenceIsInOrder(log, e, target, k);
    SameDatabase(log, e, target, initial, sees, contents, k);
    NothingIsLost(log, initial, sees, contents, d, e.probed, e.stopped + 1);
    ContentsStand(log, e, initial, sees, contents, k, e.stopped + 1, e.reprobed, d);
    ContentsStand(log, e, initial, sees, contents, k, e.reprobed, e.backedUp, d);
    BackupIsRecorded(log, e, target, initial, sees, contents, k);
    ContentsStand(log, e, initial, sees, contents, k, e.backedUp + 1, e.verified, d);
    ContentsStand(log, e, initial, sees, contents, k, e.verified, k, d);
    EntryKeepsRevision(contents(e.backedUp, d), e.actor);
  }

  lemma EntryKeepsRevision(writes: seq<Write>, actor: int)
    ensures RevisionOf(writes + [BackupEntry(actor)]) == RevisionOf(writes)
  {
    assert (writes + [BackupEntry(actor)])[..|writes|] == writes;
  }

  // ---------------------------------------------------------------- What equal probes do not tell

  lemma {:induction false} SameMeansUnwritten(log: seq<Event>, initial: set<Image>, sees: Image -> int,
                                              contents: Contents, d: int, i: nat, j: nat)
    requires Faithful(log, initial, sees, contents) && i <= j <= |log|
    ensures contents(i, d) == contents(j, d) <==> (forall n :: i <= n < j ==> contents(n, d) == contents(n + 1, d))
    decreases j
  {
    hide Faithful;
    if i < j {
      SameMeansUnwritten(log, initial, sees, contents, d, i, j - 1);
      NothingIsLost(log, initial, sees, contents, d, i, j - 1);
      NothingIsLost(log, initial, sees, contents, d, j - 1, j);
      assert contents(j - 1 + 1, d) == contents(j, d);
    }
  }

  /** The probed contents are those backed up exactly if no command from the probe to the stop saw a write. */
  lemma BackedUpAsProbedIff(log: seq<Event>, e: Evidence, target: Image, initial: set<Image>, sees: Image -> int,
                            contents: Contents, k: nat)
    requires k <= |log| && Shows(log[..k], e, target) && Faithful(log, initial, sees, contents)
    ensures var d := e.facts.identity;
            (contents(e.backedUp, d) == contents(e.probed, d)
             <==> forall n :: e.probed <= n <= e.stopped ==> contents(n, d) == contents(n + 1, d))
  {
    hide Prepared, Stopped, BackedUp, Verified, OnlyBackup, Equipped, Faithful;
    var d := e.facts.identity;
    EvidenceIsInOrder(log, e, target, k);
    ContentsStand(log, e, initial, sees, contents, k, e.stopped + 1, e.backedUp, d);
    SameMeansUnwritten(log, initial, sees, contents, d, e.probed, e.stopped + 1);
  }

  const OLD := Image(1)
  const NEW := Image(2)
  const PROBED := Facts(7, 5)

  /** An upgrade up to its migration. */
  function WrittenLog(): (log: seq<Event>)
    ensures |log| == 15
  {
    [Event(InspectContainer(0), NEW, Identity(OLD)),
     Event(ProbeRunning(Existing(1)), NEW, Report(PROBED)),
     Event(ProbeOnce(Existing(1)), NEW, Report(PROBED)),
     Event(CheckToolchain, OLD, Done),
     Event(CheckToolchain, NEW, Done),
     Event(MakeDirectory, NEW, Directory(0)),
     Event(StopApp, NEW, Done),
     Event(ProbeOnce(Existing(1)), OLD, Report(PROBED)),
     Event(BackUp(0, 1), OLD, Done),
     Event(ListBackups(0), OLD, Backups([Regular(0)])),
     Event(Digest(0, 0), OLD, Hash(0)),
     Event(VerifyBackup(0, 0), NEW, Done),
     Event(Digest(0, 0), NEW, Hash(0)),
     Event(ReleaseSource, NEW, Done),
     Event(Migrate, NEW, Done)]
  }

  /** The old release commits a row while the directory is made, after both probes. */
  function WrittenContents(i: nat, d: int): seq<Write> {
    if d != 5 then []
    else [Schema(7)] + (if i > 5 then [Row(1)] else []) + if i > 8 then [BackupEntry(1)] else []
  }

  function OneDatabase(image: Image): int {
    5
  }

  function WrittenEvidence(): Evidence {
    Evidence(1, PROBED, OLD, OLD, 0, 0, 0, 0, 1, 5, 6, 7, 8, 9, 10, 11, 12)
  }

  lemma WrittenPrefix(i: nat)
    requires i < 14
    ensures |WrittenLog()[..14]| == 14 && WrittenLog()[..14][i] == WrittenLog()[i]
  {
  }

  lemma WrittenIsObserved()
    ensures Prepared(WrittenLog()[..14], WrittenEvidence()) && Equipped(WrittenLog()[..14], WrittenEvidence(), NEW)
  {
    var log := WrittenLog()[..14];
    WrittenPrefix(0);
    WrittenPrefix(1);
    WrittenPrefix(2);
    WrittenPrefix(5);
    assert ToolsChecked(log, OLD) && ToolsChecked(log, NEW) by {
      WrittenPrefix(3);
      WrittenPrefix(4);
    }
    hide ToolsChecked;
  }

  lemma WrittenIsStopped()
    ensures Stopped(WrittenLog()[..14], WrittenEvidence()) && OnlyBackup(WrittenLog()[..14], WrittenEvidence())
  {
    WrittenPrefix(6);
    WrittenPrefix(7);
    forall k | 6 <= k < 14
      ensures Quiet(WrittenLog()[..14][k].command) && (WrittenLog()[..14][k].command.BackUp? ==> k == 8)
    {
      WrittenPrefix(k);
    }
    hide WrittenLog, Quiet;
  }

  lemma WrittenIsBackedUp()
    ensures BackedUp(WrittenLog()[..14], WrittenEvidence()) && Verified(WrittenLog()[..14], WrittenEvidence(), NEW)
  {
    WrittenPrefix(8);
    WrittenPrefix(9);
    WrittenPrefix(10);
    WrittenPrefix(11);
    WrittenPrefix(12);
  }

  lemma WrittenIsConfirmed()
    ensures SourcesConfirmed(WrittenLog()[..14], NEW)
  {
    WrittenPrefix(13);
  }

  lemma WrittenLogShows()
    ensures Shows(WrittenLog()[..14], WrittenEvidence(), NEW)
  {
    hide Prepared, Equipped, Stopped, OnlyBackup, BackedUp, Verified, WrittenLog;
    WrittenIsObserved();
    WrittenIsStopped();
    WrittenIsBackedUp();
  }

  lemma WrittenIsAlone(i: nat, d: int)
    requires i < 15 && !MayWrite(WrittenLog(), {OLD}, i)
    ensures Alone(WrittenLog()[i], OneDatabase, d, WrittenContents(i, d), WrittenContents(i + 1, d))
  {
    var log := WrittenLog();
    assert i != 5 by {
      RunsUntilStopped(log, 5);
    }
    hide MayWrite;
  }

  lemma WrittenIsTruthful(i: nat)
    requires i < 15
    ensures Truthful(WrittenLog()[i], OneDatabase, i, WrittenContents)
  {
    assert RevisionOf([Schema(7)]) == 7;
    assert RevisionOf([Schema(7), Row(1)]) == 7 by {
      assert [Schema(7), Row(1)][..1] == [Schema(7)];
    }
    assert WrittenContents(1, 5) == WrittenContents(2, 5) == [Schema(7)]
      && WrittenContents(7, 5) == [Schema(7), Row(1)];
    assert WrittenLog()[i].reply.Report? ==> i == 1 || i == 2 || i == 7;
    hide RevisionOf, WrittenContents;
  }

  lemma WrittenLogIsFaithful()
    ensures Faithful(WrittenLog(), {OLD}, OneDatabase, WrittenContents)
  {
    forall i, d | 0 <= i < 15 && !MayWrite(WrittenLog(), {OLD}, i)
      ensures Alone(WrittenLog()[i], OneDatabase, d, WrittenContents(i, d), WrittenContents(i + 1, d))
    {
      WrittenIsAlone(i, d);
    }
    forall i | 0 <= i < 15
      ensures Truthful(WrittenLog()[i], OneDatabase, i, WrittenContents)
    {
      WrittenIsTruthful(i);
    }
    hide WrittenLog, MayWrite, Alone, Truthful;
  }

  lemma {:induction false} RunsUntilStopped(log: seq<Event>, n: nat)
    requires n <= |log| && forall i :: 0 <= i < n ==> log[i].command != StopApp && log[i].command != UpApp
    ensures MayRun(log[..n], {OLD}) == {OLD}
  {
    if n > 0 {
      RunsUntilStopped(log, n - 1);
      MayRunStep(log, n - 1, {OLD});
    }
  }

  /** Equal probes do not exclude a write in between: a row that no probe saw is backed up and migrated. */
  lemma AnUnseenWriteIsMigrated()
    ensures Safe(WrittenLog(), NEW) && WrittenLog()[14].command == Migrate
    ensures Shows(WrittenLog()[..14], WrittenEvidence(), NEW)
    ensures Faithful(WrittenLog(), {OLD}, OneDatabase, WrittenContents)
    ensures Row(1) !in WrittenContents(WrittenEvidence().probed, 5) && Row(1) in WrittenContents(14, 5)
  {
    WrittenLogShows();
    WrittenLogIsFaithful();
    WrittenIsConfirmed();
    hide Shows, Faithful, SourcesConfirmed;
    assert forall k :: 0 <= k < 15 && WrittenLog()[k].command == Migrate ==> k == 14;
    assert WrittenContents(14, 5)[1] == Row(1);
  }
}
