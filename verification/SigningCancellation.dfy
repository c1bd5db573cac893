/**
 One cancelled signing session beside the rest of the document's life.

 `cancel_signature_session` locks the row of its session but not the document. It reads the participant's signature,
 and when it commits it deletes the row it read if that was still pending. In between every handler may commit that
 does not need the locked session.
 */
module SigningCancellation {
  import opened Wrappers
  import opened SigningModel
  import opened SigningInvariant
  import opened SigningHistory
  import opened SigningLiveness

  predicate Names(step: Step, sid: nat) {
    (step.SubmitStep? || step.ConfirmStep? || step.RejectStep? || step.CancelSessionStep?) && step.sid == sid
  }

  /** The step commits while the session row is locked: it neither locks nor writes that row. */
  predicate Spares(slots: Slots, d: Dossier, step: Step, sid: nat)
    requires d.current < |d.versions| && WellFormed(step) && sid < |d.sessions|
  {
    var e := Next(slots, d, step);
    !Names(step, sid) && sid < |e.sessions| && e.sessions[sid] == d.sessions[sid]
  }

  /** Steps that commit between the read and the commit of a cancel, one after the other. */
  predicate Window(slots: Slots, d: Dossier, steps: seq<Step>, sid: nat)
    requires d.current < |d.versions| && sid < |d.sessions|
    decreases |steps|
  {
    && WellFormedRun(steps)
    && (steps != [] ==>
          && Window(slots, d, steps[..|steps| - 1], sid)
          && sid < |Run(slots, d, steps[..|steps| - 1]).sessions|
          && Spares(slots, Run(slots, d, steps[..|steps| - 1]), steps[|steps| - 1], sid))
  }

  /** The row that was read is still there: no step has deleted it. */
  predicate RowStands(slots: Slots, d: Dossier, steps: seq<Step>, p: nat)
    requires d.current < |d.versions| && WellFormedRun(steps)
    decreases |steps|
  {
    p in Run(slots, d, steps).signatures && (steps != [] ==> RowStands(slots, d, steps[..|steps| - 1], p))
  }

  predicate Live(s: Session) {
    s.consumedAt.None? && s.rejectedAt.None?
  }

  /** The rows after a cancel that read `d` and commits after `steps`. */
  function CancelledLate(slots: Slots, d: Dossier, steps: seq<Step>, sid: nat, now: int): Dossier
    requires d.current < |d.versions| && WellFormedRun(steps) && sid < |d.sessions|
    requires sid < |Run(slots, d, steps).sessions|
  {
    var e, p := Run(slots, d, steps), d.sessions[sid].participant;
    e.(sessions := e.sessions[sid := e.sessions[sid].(rejectedAt := Some(now))],
       signatures := if Pending(d, p) && RowStands(slots, d, steps, p) then e.signatures - {p} else e.signatures)
  }

  /** The signature was read as pending and has been confirmed since. */
  predicate Overtaken(slots: Slots, d: Dossier, steps: seq<Step>, p: nat)
    requires d.current < |d.versions| && WellFormedRun(steps)
  {
    Pending(d, p) && RowStands(slots, d, steps, p) && Confirmed(Run(slots, d, steps), p)
  }

  // ---------------------------------------------------------------- The locked session

  lemma {:induction false} LockedSessionStays(slots: Slots, d: Dossier, steps: seq<Step>, sid: nat)
    requires d.current < |d.versions| && sid < |d.sessions| && Window(slots, d, steps, sid)
    ensures sid < |Run(slots, d, steps).sessions| && Run(slots, d, steps).sessions[sid] == d.sessions[sid]
    decreases |steps|
  {
    if steps != [] {
      LockedSessionStays(slots, d, steps[..|steps| - 1], sid);
    }
  }

  /** A session of the participant, other than the one being cancelled, that is neither consumed nor rejected. */
  ghost predicate LiveElsewhere(d: Dossier, p: nat, sid: nat) {
    exists s :: 0 <= s < |d.sessions| && s != sid && d.sessions[s].participant == p && Live(d.sessions[s])
  }

  /** A pending signature on the current version that the cancel will not delete has a session of its own. */
  ghost predicate KeptIsLive(d: Dossier, p: nat, sid: nat)
    requires d.current < |d.versions|
  {
    Signable(d.versions[d.current].status) && InVersion(d, d.current, p) && Pending(d, p) ==> LiveElsewhere(d, p, sid)
  }

  lemma SubmitIsLiveElsewhere(slots: Slots, d: Dossier, step: Step, p: nat, sid: nat)
    requires References(d) && WellFormed(step) && !Names(step, sid)
    requires p !in d.signatures && Pending(Next(slots, d, step), p)
    ensures LiveElsewhere(Next(slots, d, step), p, sid)
  {
    assert step.SubmitStep? && Do(slots, d, step).Success?;
    assert d.sessions[step.sid].participant == p && Live(d.sessions[step.sid]);
  }

  lemma PendingStaysLive(slots: Slots, d: Dossier, step: Step, p: nat, sid: nat)
    requires References(d) && Chain(d) && Roster(slots, d) && WellFormed(step) && p in d.signatures
    requires KeptIsLive(d, p, sid)
    ensures KeptIsLive(Next(slots, d, step), p, sid)
  {
    hide Next, Do, Chain, Roster, VersionsEvolve, SignaturesEvolve;
    var e := Next(slots, d, step);
    if Signable(e.versions[e.current].status) && InVersion(e, e.current, p) && Pending(e, p) {
      StepVersions(slots, d, step);
      StepSignatures(slots, d, step);
      PendingWasPending(slots, d, e, p);
      var s :| 0 <= s < |d.sessions| && s != sid && d.sessions[s].participant == p && Live(d.sessions[s]);
      LiveUnlessDropped(slots, d, step, p, s);
    }
  }

  /** A pending signature on the current version was pending there before. */
  lemma PendingWasPending(slots: Slots, d: Dossier, e: Dossier, p: nat)
    requires References(d) && Chain(d) && Roster(slots, d) && e.current < |e.versions| && p in d.signatures
    requires VersionsEvolve(d, e) && SignaturesEvolve(d, e)
    requires Signable(e.versions[e.current].status) && InVersion(e, e.current, p) && Pending(e, p)
    ensures Signable(d.versions[d.current].status) && InVersion(d, d.current, p) && Pending(d, p)
  {
    hide SlotAccepted, RequiredCodes;
    assert InVersion(d, d.participants[p].version, p);
    assert HasParticipants(d, d.participants[p].version);
  }

  lemma LiveUnlessDropped(slots: Slots, d: Dossier, step: Step, p: nat, s: nat)
    requires References(d) && WellFormed(step) && p in d.signatures
    requires s < |d.sessions| && d.sessions[s].participant == p && Live(d.sessions[s])
    requires var e := Next(slots, d, step);
             Signable(e.versions[e.current].status) && InVersion(e, e.current, p) && Pending(e, p)
    ensures var e := Next(slots, d, step);
            s < |e.sessions| && e.sessions[s].participant == p && Live(e.sessions[s])
  {
    hide StatusOf, SequenceOpen, RequiredCodes, SlotAccepted;
  }

  /** Either the row that was read is still there, or a pending signature has a live session of its own. */
  lemma {:induction false} KeptStaysLive(slots: Slots, d: Dossier, steps: seq<Step>, sid: nat, p: nat)
    requires Inv(slots, d) && sid < |d.sessions| && Window(slots, d, steps, sid)
    ensures (Pending(d, p) && RowStands(slots, d, steps, p)) || KeptIsLive(Run(slots, d, steps), p, sid)
    decreases |steps|
  {
    hide KeptIsLive, LiveElsewhere, Chain, Roster, StatusAgrees, Ordered, PendingIsLive, DigestsHold, ImagesDistinct;
    if steps == [] {
      NothingPending(d, p, sid);
    } else {
      var before, last := steps[..|steps| - 1], steps[|steps| - 1];
      var e := Run(slots, d, before);
      RunKeeps(slots, d, before);
      KeptStaysLive(slots, d, before, sid, p);
      NothingPending(Next(slots, e, last), p, sid);
      if !(Pending(d, p) && RowStands(slots, d, before, p)) {
        if p in e.signatures {
          PendingStaysLive(slots, e, last, p, sid);
        } else if Pending(Next(slots, e, last), p) {
          SubmitIsLiveElsewhere(slots, e, last, p, sid);
          LiveElsewhereIsEnough(Next(slots, e, last), p, sid);
        }
      }
    }
  }

  lemma NothingPending(d: Dossier, p: nat, sid: nat)
    requires d.current < |d.versions|
    ensures !Pending(d, p) ==> KeptIsLive(d, p, sid)
  {
  }

  lemma LiveElsewhereIsEnough(d: Dossier, p: nat, sid: nat)
    requires d.current < |d.versions| && LiveElsewhere(d, p, sid)
    ensures KeptIsLive(d, p, sid)
  {
  }

  // ---------------------------------------------------------------- When a late cancel is harmless

  /** The session is rejected and the signature stays: what a cancel does that has read no pending row. */
  function OnlyRejected(d: Dossier, sid: nat, now: int): Dossier
    requires sid < |d.sessions|
  {
    d.(sessions := d.sessions[sid := d.sessions[sid].(rejectedAt := Some(now))])
  }

  lemma OtherSession(d: Dossier, p: nat, sid: nat, q: nat) returns (s: nat)
    requires sid < |d.sessions| && d.sessions[sid].participant == p
    requires if q == p then LiveElsewhere(d, p, sid) else HasLiveSession(d, q)
    ensures s < |d.sessions| && s != sid && d.sessions[s].participant == q
    ensures d.sessions[s].consumedAt.None? && d.sessions[s].rejectedAt.None?
  {
    if q == p {
      s :| 0 <= s < |d.sessions| && s != sid && d.sessions[s].participant == p && Live(d.sessions[s]);
    } else {
      s :| 0 <= s < |d.sessions| && d.sessions[s].participant == q && d.sessions[s].consumedAt.None?
        && d.sessions[s].rejectedAt.None?;
    }
  }

  lemma OnlyRejectedIsLive(d: Dossier, sid: nat, now: int)
    requires References(d) && PendingIsLive(d) && sid < |d.sessions| && KeptIsLive(d, d.sessions[sid].participant, sid)
    ensures PendingIsLive(OnlyRejected(d, sid, now))
  {
    var e, p := OnlyRejected(d, sid, now), d.sessions[sid].participant;
    forall q | 0 <= q < |e.participants| && InVersion(e, e.current, q) && Pending(e, q)
      && Signable(e.versions[e.current].status)
      ensures HasLiveSession(e, q)
    {
      assert InVersion(d, d.current, q) && Pending(d, q) && HasLiveSession(d, q);
      var s := OtherSession(d, p, sid, q);
      assert e.sessions[s] == d.sessions[s];
    }
  }

  lemma OnlyRejectedKeeps(slots: Slots, d: Dossier, sid: nat, now: int)
    requires Inv(slots, d) && sid < |d.sessions| && KeptIsLive(d, d.sessions[sid].participant, sid)
    ensures Inv(slots, OnlyRejected(d, sid, now))
  {
    hide Roster, Ordered, StatusOf, PendingIsLive, KeptIsLive, VersionDigests;
    var e := OnlyRejected(d, sid, now);
    OnlyRejectedIsLive(d, sid, now);
    SameStatus(slots, d, e, d.current);
    OrderedStays(slots, d, e);
    RosterStays(slots, d, e);
    DigestsStay(d, e);
  }

  lemma OnlyRejectedEvolves(d: Dossier, sid: nat, now: int)
    requires References(d) && sid < |d.sessions| && Live(d.sessions[sid])
    ensures Evolves(d, OnlyRejected(d, sid, now))
  {
  }

  /** A late cancel is a cancel at the time of its commit, or one that leaves the signature alone. */
  lemma LateCancelCases(slots: Slots, d: Dossier, steps: seq<Step>, sid: nat, now: int)
    requires d.current < |d.versions| && sid < |d.sessions| && Live(d.sessions[sid]) && Window(slots, d, steps, sid)
    requires !Overtaken(slots, d, steps, d.sessions[sid].participant)
    ensures sid < |Run(slots, d, steps).sessions|
    ensures var e, p := Run(slots, d, steps), d.sessions[sid].participant;
            if Pending(d, p) && RowStands(slots, d, steps, p)
            then CancelSession(e, sid, now) == Success(CancelledLate(slots, d, steps, sid, now))
            else CancelledLate(slots, d, steps, sid, now) == OnlyRejected(e, sid, now)
  {
    LockedSessionStays(slots, d, steps, sid);
  }

  /** The late cancel keeps the invariant, and with it no confirmed signature is lost. */
  ghost predicate Harmless(slots: Slots, d: Dossier, steps: seq<Step>, sid: nat, now: int)
    requires d.current < |d.versions| && sid < |d.sessions| && Window(slots, d, steps, sid)
  {
    LockedSessionStays(slots, d, steps, sid);
    var after := CancelledLate(slots, d, steps, sid, now);
    Inv(slots, after) && Evolves(Run(slots, d, steps), after)
  }

  /** A late cancel is harmless unless it has been overtaken. */
  lemma HarmlessIff(slots: Slots, d: Dossier, steps: seq<Step>, sid: nat, now: int)
    requires Inv(slots, d) && sid < |d.sessions| && Live(d.sessions[sid]) && Window(slots, d, steps, sid)
    ensures Harmless(slots, d, steps, sid, now) <==> !Overtaken(slots, d, steps, d.sessions[sid].participant)
  {
    hide Chain, Roster, StatusAgrees, Ordered, PendingIsLive, DigestsHold, ImagesDistinct, Evolves, RowStands,
      KeptIsLive;
    var e, p := Run(slots, d, steps), d.sessions[sid].participant;
    LockedSessionStays(slots, d, steps, sid);
    if Overtaken(slots, d, steps, p) {
      LostConfirmation(e, CancelledLate(slots, d, steps, sid, now), p);
    } else {
      LateCancelCases(slots, d, steps, sid, now);
      RunKeeps(slots, d, steps);
      if Pending(d, p) && RowStands(slots, d, steps, p) {
        CancelKeeps(slots, e, sid, now);
      } else {
        KeptStaysLive(slots, d, steps, sid, p);
        OnlyRejectedIsFine(slots, e, sid, now);
      }
    }
  }

  lemma LostConfirmation(e: Dossier, f: Dossier, p: nat)
    requires Confirmed(e, p) && p !in f.signatures
    ensures !Evolves(e, f)
  {
  }

  lemma CancelKeeps(slots: Slots, d: Dossier, sid: nat, now: int)
    requires Inv(slots, d) && CancelSession(d, sid, now).Success?
    ensures Inv(slots, CancelSession(d, sid, now).value) && Evolves(d, CancelSession(d, sid, now).value)
  {
    hide Roster, Ordered, StatusAgrees, PendingIsLive, DigestsHold, ImagesDistinct;
    StepKeeps(slots, d, CancelSessionStep(sid, now));
    StepEvolves(slots, d, CancelSessionStep(sid, now));
  }

  lemma OnlyRejectedIsFine(slots: Slots, d: Dossier, sid: nat, now: int)
    requires Inv(slots, d) && sid < |d.sessions| && Live(d.sessions[sid])
    requires KeptIsLive(d, d.sessions[sid].participant, sid)
    ensures Inv(slots, OnlyRejected(d, sid, now)) && Evolves(d, OnlyRejected(d, sid, now))
  {
    OnlyRejectedKeeps(slots, d, sid, now);
    OnlyRejectedEvolves(d, sid, now);
  }

  // ---------------------------------------------------------------- When a cancel can be overtaken

  lemma InvReferences(slots: Slots, d: Dossier)
    requires Inv(slots, d)
    ensures References(d) && d.current < |d.versions|
  {
  }

  /** Another session of the participant that is open at that time. */
  ghost predicate OpenElsewhere(d: Dossier, p: nat, sid: nat, time: int) {
    exists s :: 0 <= s < |d.sessions| && s != sid && d.sessions[s].participant == p
      && SessionIsOpen(d.sessions[s], time)
  }

  /** The one way to overtake: another open session of the participant, while the version can be signed. */
  ghost predicate Exposed(d: Dossier, sid: nat, readAt: int)
    requires References(d) && sid < |d.sessions|
  {
    var p := d.sessions[sid].participant;
    Pending(d, p) && OpenElsewhere(d, p, sid, readAt) && CurrentSignable(d, d.participants[p].version)
  }

  predicate NotBefore(step: Step, time: int) {
    step.AssignStep? || step.now >= time
  }

  ghost predicate Since(steps: seq<Step>, time: int) {
    forall i :: 0 <= i < |steps| ==> NotBefore(steps[i], time)
  }

  lemma OnlySessionIsNotOvertaken(slots: Slots, d: Dossier, step: Step, p: nat, sid: nat, time: int)
    requires References(d) && WellFormed(step) && !Names(step, sid) && NotBefore(step, time)
    requires Pending(d, p) && !OpenElsewhere(d, p, sid, time) && p in Next(slots, d, step).signatures
    ensures Pending(Next(slots, d, step), p) && !OpenElsewhere(Next(slots, d, step), p, sid, time)
  {
    hide StatusOf, SequenceOpen, SlotAccepted, RequiredCodes;
    var e := Next(slots, d, step);
    forall s | 0 <= s < |e.sessions| && s != sid && e.sessions[s].participant == p
      ensures !SessionIsOpen(e.sessions[s], time)
    {
      assert s < |d.sessions| ==> d.sessions[s].participant == p && !SessionIsOpen(d.sessions[s], time);
    }
  }

  lemma {:induction false} OnlySessionsAreNeverOvertaken(slots: Slots, d: Dossier, steps: seq<Step>, sid: nat, p: nat,
    time: int)
    requires Inv(slots, d) && sid < |d.sessions| && Window(slots, d, steps, sid) && Since(steps, time)
    requires Pending(d, p) && !OpenElsewhere(d, p, sid, time) && RowStands(slots, d, steps, p)
    ensures Pending(Run(slots, d, steps), p) && !OpenElsewhere(Run(slots, d, steps), p, sid, time)
    decreases |steps|
  {
    hide OpenElsewhere, NotBefore, Chain, Roster, StatusAgrees, Ordered, PendingIsLive, DigestsHold, ImagesDistinct;
    if steps != [] {
      var before := steps[..|steps| - 1];
      RunKeeps(slots, d, before);
      OnlySessionsAreNeverOvertaken(slots, d, before, sid, p, time);
      OnlySessionIsNotOvertaken(slots, Run(slots, d, before), steps[|steps| - 1], p, sid, time);
    }
  }

  lemma OvertakenIsSignable(slots: Slots, d: Dossier, steps: seq<Step>, p: nat)
    requires Inv(slots, d) && WellFormedRun(steps) && Pending(d, p) && Confirmed(Run(slots, d, steps), p)
    ensures p < |d.participants| && CurrentSignable(d, d.participants[p].version)
  {
    hide Ordered, StatusAgrees, PendingIsLive, DigestsHold, ImagesDistinct;
    RunEvolves(slots, d, steps);
    assert InVersion(d, d.participants[p].version, p);
    assert HasParticipants(d, d.participants[p].version);
  }

  lemma OvertakenIsExposed(slots: Slots, d: Dossier, steps: seq<Step>, sid: nat, readAt: int)
    requires Inv(slots, d) && sid < |d.sessions| && Window(slots, d, steps, sid) && Since(steps, readAt)
    requires Overtaken(slots, d, steps, d.sessions[sid].participant)
    ensures Exposed(d, sid, readAt)
  {
    hide Ordered, StatusAgrees, PendingIsLive, DigestsHold, ImagesDistinct, Chain, Roster, RowStands, OpenElsewhere,
      CurrentSignable, Run;
    var p := d.sessions[sid].participant;
    OvertakenIsSignable(slots, d, steps, p);
    if !OpenElsewhere(d, p, sid, readAt) {
      OnlySessionsAreNeverOvertaken(slots, d, steps, sid, p, readAt);
      assert false;
    }
  }

  lemma ExposedIsOvertaken(slots: Slots, d: Dossier, sid: nat, readAt: int) returns (steps: seq<Step>)
    requires References(d) && sid < |d.sessions| && Exposed(d, sid, readAt)
    ensures Window(slots, d, steps, sid) && Since(steps, readAt)
    ensures Overtaken(slots, d, steps, d.sessions[sid].participant)
  {
    hide References, Window, Overtaken, CurrentSignable;
    var p := d.sessions[sid].participant;
    var s :| 0 <= s < |d.sessions| && s != sid && d.sessions[s].participant == p
      && SessionIsOpen(d.sessions[s], readAt);
    var confirm := ConfirmStep(s, Rendering("docx", None, "pdf"), readAt);
    ConfirmOvertakes(slots, d, sid, s, confirm);
    steps := [confirm];
  }

  /**
   A cancel keeps the invariant and every confirmation, whatever commits from its read until its own commit, exactly
   when it is not exposed at its read.
   */
  lemma CancelIsSafeIff(slots: Slots, d: Dossier, sid: nat, readAt: int, now: int)
    requires Inv(slots, d) && sid < |d.sessions| && Live(d.sessions[sid])
    ensures (forall steps :: Window(slots, d, steps, sid) && Since(steps, readAt) ==>
      Harmless(slots, d, steps, sid, now))
       <==> !Exposed(d, sid, readAt)
  {
    hide Inv, Overtaken, Exposed, Harmless, References, Live, Since;
    InvReferences(slots, d);
    if Exposed(d, sid, readAt) {
      var steps := ExposedIsOvertaken(slots, d, sid, readAt);
      HarmlessIff(slots, d, steps, sid, now);
    } else {
      forall steps | Window(slots, d, steps, sid) && Since(steps, readAt)
        ensures Harmless(slots, d, steps, sid, now)
      {
        HarmlessIff(slots, d, steps, sid, now);
        if Overtaken(slots, d, steps, d.sessions[sid].participant) {
          OvertakenIsExposed(slots, d, steps, sid, readAt);
        }
      }
    }
  }

  /** The other session confirms the signature while the cancel is under way. */
  lemma ConfirmOvertakes(slots: Slots, d: Dossier, sid: nat, s: nat, confirm: Step)
    requires References(d) && sid < |d.sessions| && s < |d.sessions| && s != sid
    requires confirm.ConfirmStep? && confirm.sid == s && Exposed(d, sid, confirm.now)
    requires d.sessions[s].participant == d.sessions[sid].participant && SessionIsOpen(d.sessions[s], confirm.now)
    ensures Window(slots, d, [confirm], sid) && Overtaken(slots, d, [confirm], d.sessions[sid].participant)
    ensures Run(slots, d, [confirm]) == Next(slots, d, confirm)
  {
    assert [confirm][..0] == [];
    assert Run(slots, d, []) == d;
  }

  // ---------------------------------------------------------------- A signed version without its signer

  /** The version is signed although a required signer has no signature. */
  ghost predicate SignedWithout(slots: Slots, d: Dossier, p: nat) {
    && d.current < |d.versions| && d.versions[d.current].status == Signed
    && p < |d.participants| && RequiredSigner(slots, d, d.current, p) && p !in d.signatures
  }

  /**
   Whoever signs last can have two sessions, and cancelling one while the other confirms leaves the version signed
   without that signature.
   */
  lemma LastSignatureCanBeErased(slots: Slots, d: Dossier, p: nat, elsewhere: set<nat>, now: int)
    returns (before: seq<Step>, sid: nat, overtaking: seq<Step>)
    requires ReadyToSign(slots, d, p) && p !in d.signatures && RequiredSigner(slots, d, d.current, p)
    requires forall q :: 0 <= q < |d.participants| && RequiredSigner(slots, d, d.current, q) && q != p ==>
      Confirmed(d, q)
    ensures WellFormedRun(before) && sid < |Run(slots, d, before).sessions|
    ensures var e := Run(slots, d, before);
            && Window(slots, e, overtaking, sid) && Since(overtaking, now) && sid < |Run(slots, e, overtaking).sessions|
            && SignedWithout(slots, CancelledLate(slots, e, overtaking, sid, now), p)
  {
    hide Chain, Roster, StatusAgrees, Ordered, PendingIsLive, DigestsHold, ImagesDistinct, SequenceOpen, StatusOf,
      RequiredSigner, Next, Run;
    var image := FreshImage(Images(d) + elsewhere);
    var open := OpenSessionStep(p, 30, now);
    var submit := SubmitStep(|d.sessions|, Drawing(image, true, true), elsewhere, now);
    var confirm := ConfirmStep(|d.sessions|, Rendering("docx", None, "pdf"), now);
    before, sid, overtaking := [open, open, submit], |d.sessions| + 1, [confirm];
    var e := TwoSessions(slots, d, p, image, elsewhere, now);
    ThreeSteps(slots, d, open, open, submit);
    TwoSessionsExpose(e, |d.sessions|, p, now);
    ConfirmOvertakes(slots, e, sid, |d.sessions|, confirm);
    ConfirmStepSucceeds(slots, e, p, |d.sessions|, confirm.rendering, now);
    EverybodySigned(slots, d, e, Next(slots, e, confirm), p);
    LockedSessionStays(slots, e, overtaking, sid);
    ErasedFromSigned(slots, e, overtaking, sid, now, p);
  }

  lemma TwoSessionsExpose(d: Dossier, sid: nat, p: nat, now: int)
    requires References(d) && OwnSession(d, sid, p, now) && OwnSession(d, sid + 1, p, now) && Pending(d, p)
    requires InVersion(d, d.current, p) && Signable(d.versions[d.current].status)
    ensures Exposed(d, sid + 1, now)
  {
  }

  lemma ErasedFromSigned(slots: Slots, d: Dossier, steps: seq<Step>, sid: nat, now: int, p: nat)
    requires d.current < |d.versions| && WellFormedRun(steps) && sid < |d.sessions|
    requires sid < |Run(slots, d, steps).sessions|
    requires d.sessions[sid].participant == p && Overtaken(slots, d, steps, p)
    requires var f := Run(slots, d, steps);
             f.versions[f.current].status == Signed && p < |f.participants| && RequiredSigner(slots, f, f.current, p)
    ensures SignedWithout(slots, CancelledLate(slots, d, steps, sid, now), p)
  {
  }

  /** One participant with two sessions and a submitted signature. */
  lemma TwoSessions(slots: Slots, d: Dossier, p: nat, image: nat, elsewhere: set<nat>, now: int) returns (e: Dossier)
    requires ReadyToSign(slots, d, p) && p !in d.signatures && image !in Images(d) && image !in elsewhere
    ensures e == Next(slots, OpenTwice(slots, d, p, now),
            SubmitStep(|d.sessions|, Drawing(image, true, true), elsewhere, now))
    ensures ReadyToSign(slots, e, p) && Carries(d, e) && Pending(e, p) && OwnSession(e, |d.sessions|, p, now)
    ensures OwnSession(e, |d.sessions| + 1, p, now)
  {
    hide Chain, Roster, StatusAgrees, Ordered, PendingIsLive, DigestsHold, ImagesDistinct, SequenceOpen;
    var d1 := Next(slots, d, OpenSessionStep(p, 30, now));
    var d2 := OpenTwice(slots, d, p, now);
    OpenStep(slots, d, p, now);
    OpenStep(slots, d1, p, now);
    SubmitStepSucceeds(slots, d2, p, |d.sessions|, Drawing(image, true, true), elsewhere, now);
    e := Next(slots, d2, SubmitStep(|d.sessions|, Drawing(image, true, true), elsewhere, now));
  }

  function OpenTwice(slots: Slots, d: Dossier, p: nat, now: int): Dossier
    requires d.current < |d.versions|
  {
    Next(slots, Next(slots, d, OpenSessionStep(p, 30, now)), OpenSessionStep(p, 30, now))
  }

  lemma EverybodySigned(slots: Slots, d: Dossier, e: Dossier, f: Dossier, p: nat)
    requires Carries(d, e) && Advanced(slots, e, f, p) && p < |d.participants| && RequiredSigner(slots, d, d.current, p)
    requires forall q :: 0 <= q < |d.participants| && RequiredSigner(slots, d, d.current, q) && q != p ==>
      Confirmed(d, q)
    ensures f.current < |f.versions| && f.versions[f.current].status == Signed
    ensures p < |f.participants| && RequiredSigner(slots, f, f.current, p)
  {
    hide Roster, Ordered, PendingIsLive, DigestsHold, ImagesDistinct, Chain;
    assert RequiredSigner(slots, f, f.current, p);
    forall q | 0 <= q < |f.participants| && RequiredSigner(slots, f, f.current, q)
      ensures Confirmed(f, q)
    {
      assert RequiredSigner(slots, d, d.current, q);
    }
    assert AllRequiredConfirmed(slots, f, f.current);
  }

  const SOLE_APPROVER: Slots := map["APPROVER" := Slot(true, AnyKind, 1, Parallel, true)]

  lemma SoleApproverIsAccepted()
    ensures BuildParticipants(SOLE_APPROVER, 0, ONE_APPROVER) == Success([Participant(0, "APPROVER", Internal)])
    ensures RequiredCodes(SOLE_APPROVER) == {"APPROVER"}
  {
    var slots, inputs := SOLE_APPROVER, ONE_APPROVER;
    assert inputs[0].slot == "APPROVER" && inputs[..0] == [];
    assert CheckedParticipants(slots, 0, []) == Success([]);
    assert "APPROVER" in Configured(slots);
    assert [] + [Participant(0, "APPROVER", Internal)] == [Participant(0, "APPROVER", Internal)];
  }

  /** A document with one approver that ends up signed without a signature. */
  lemma SoleSignatureIsErased(content: Content) returns (before: seq<Step>, sid: nat, overtaking: seq<Step>)
    ensures var created := Create(SOLE_APPROVER, "DOC-1", "REPORT", content, ONE_APPROVER);
            && created.Success? && created.value.current < |created.value.versions| && WellFormedRun(before)
            && var e := Run(SOLE_APPROVER, created.value, before);
               && sid < |e.sessions| && Window(SOLE_APPROVER, e, overtaking, sid)
               && sid < |Run(SOLE_APPROVER, e, overtaking).sessions|
               && SignedWithout(SOLE_APPROVER, CancelledLate(SOLE_APPROVER, e, overtaking, sid, 0), 0)
  {
    var slots := SOLE_APPROVER;
    SoleApproverIsAccepted();
    var d := Create(slots, "DOC-1", "REPORT", content, ONE_APPROVER).value;
    CreateEstablishes(slots, "DOC-1", "REPORT", content, ONE_APPROVER);
    ReadyWhenParallel(slots, d);
    before, sid, overtaking := LastSignatureCanBeErased(slots, d, 0, {}, 0);
  }

  lemma ReadyWhenParallel(slots: Slots, d: Dossier)
    requires slots == SOLE_APPROVER && Inv(slots, d) && d.participants == [Participant(0, "APPROVER", Internal)]
    requires d.current == 0 && d.versions[0].status == Ready && RequiredCodes(slots) == {"APPROVER"}
    ensures ReadyToSign(slots, d, 0) && RequiredSigner(slots, d, 0, 0)
  {
    assert slots["APPROVER"].mode == Parallel;
  }
}
