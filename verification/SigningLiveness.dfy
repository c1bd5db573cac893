/**
 Exactly when a version open for signing can still be signed.

 `_ensure_sequence` waits for every required lower slot, active or not, while participants can only take
 active slots. A required signer whose sequential slot waits for a slot nobody holds is therefore stuck for
 good; without such a signer a finite run signs the version from every reachable state.
 */
module SigningLiveness {
  import opened Wrappers
  import opened SigningModel
  import opened SigningInvariant
  import opened SigningHistory

  /** A required signer of the current version waits for a slot that none of its participants holds. */
  ghost predicate Stuck(slots: Slots, d: Dossier) {
    exists p, before :: 0 <= p < |d.participants| && WaitsForNobody(slots, d, p, before)
  }

  ghost predicate WaitsForNobody(slots: Slots, d: Dossier, p: nat, before: string) {
    RequiredSigner(slots, d, d.current, p) && Precedes(slots, before, d.participants[p].slot)
      && !HasCode(d, d.current, before)
  }

  ghost predicate SignedBy(slots: Slots, d: Dossier, v: nat, steps: seq<Step>)
    requires d.current < |d.versions|
  {
    && WellFormedRun(steps)
    && v < |Run(slots, d, steps).versions| && Run(slots, d, steps).versions[v].status == Signed
  }

  /** Some finite run signs the current version. */
  ghost predicate CanBeSigned(slots: Slots, d: Dossier)
    requires d.current < |d.versions|
  {
    exists steps :: SignedBy(slots, d, d.current, steps)
  }

  lemma {:induction false} RunConcat(slots: Slots, d: Dossier, a: seq<Step>, b: seq<Step>)
    requires d.current < |d.versions| && WellFormedRun(a) && WellFormedRun(b)
    ensures WellFormedRun(a + b) && Run(slots, d, a + b) == Run(slots, Run(slots, d, a), b)
    decreases |b|
  {
    if b == [] {
      assert a + b == a;
    } else {
      var c := b[..|b| - 1];
      RunConcat(slots, d, a, c);
      assert (a + b)[..|a + b| - 1] == a + c;
    }
  }

  // ---------------------------------------------------------------- Choosing the next signer

  function Rank(slots: Slots, code: string): nat {
    if code in slots then slots[code].sequence else 0
  }

  /** Some unconfirmed required signer is next in sequence. */
  lemma {:induction false} NextSigner(slots: Slots, d: Dossier, p: nat) returns (q: nat)
    requires References(d) && Roster(slots, d) && !Stuck(slots, d)
    requires p < |d.participants| && RequiredUnconfirmed(slots, d, p)
    ensures q < |d.participants| && RequiredUnconfirmed(slots, d, q)
    ensures SequenceOpen(slots, d, d.current, d.participants[q].slot)
    decreases Rank(slots, d.participants[p].slot)
  {
    var code := d.participants[p].slot;
    if SequenceOpen(slots, d, d.current, code) {
      q := p;
    } else {
      var before :| before in slots && Precedes(slots, before, code) && !CodeConfirmed(d, d.current, before);
      assert !WaitsForNobody(slots, d, p, before);
      var r :| 0 <= r < |d.participants| && InVersion(d, d.current, r) && d.participants[r].slot == before;
      HolderIsRequired(slots, d, r);
      q := NextSigner(slots, d, r);
    }
  }

  /** Whoever holds a required slot is a required signer, active slot or not. */
  lemma HolderIsRequired(slots: Slots, d: Dossier, r: nat)
    requires Roster(slots, d) && r < |d.participants| && InVersion(d, d.current, r)
    requires d.participants[r].slot in slots && slots[d.participants[r].slot].required
    ensures RequiredSigner(slots, d, d.current, r)
  {
    if RequiredCodes(slots) != {} {
      var code :| code in RequiredCodes(slots);
      assert code in Configured(slots);
      assert SlotAccepted(slots, d.participants[r].slot);
    }
  }

  // ---------------------------------------------------------------- One more signature

  /** The same version with the same participants, and no confirmation lost. */
  ghost predicate Carries(d: Dossier, e: Dossier) {
    && e.current == d.current && e.participants == d.participants
    && (forall q :: Confirmed(d, q) ==> Confirmed(e, q))
  }

  /** What a round of signing leaves: a good state of the same version in which `p` is confirmed. */
  ghost predicate Advanced(slots: Slots, d: Dossier, e: Dossier, p: nat) {
    && Inv(slots, e) && Carries(d, e) && Confirmed(e, p)
    && (Signable(e.versions[e.current].status) || e.versions[e.current].status == Signed)
  }

  ghost predicate ReadyToSign(slots: Slots, d: Dossier, p: nat) {
    && Inv(slots, d) && Signable(d.versions[d.current].status)
    && p < |d.participants| && InVersion(d, d.current, p) && SequenceOpen(slots, d, d.current, d.participants[p].slot)
  }

  lemma FreshImage(used: set<nat>) returns (image: nat)
    ensures image !in used
  {
    image := 0;
    var rest := used;
    while rest != {}
      invariant rest <= used && forall u :: u in used && u !in rest ==> u < image
      decreases rest
    {
      var u :| u in rest;
      rest := rest - {u};
      image := if u < image then image else u + 1;
    }
  }

  /** The participant's own open session. */
  ghost predicate OwnSession(d: Dossier, sid: nat, p: nat, now: int) {
    sid < |d.sessions| && d.sessions[sid].participant == p && SessionIsOpen(d.sessions[sid], now)
  }

  lemma OpenStep(slots: Slots, d: Dossier, p: nat, now: int)
    requires ReadyToSign(slots, d, p) && p !in d.signatures
    ensures var e := Next(slots, d, OpenSessionStep(p, 30, now));
            && ReadyToSign(slots, e, p) && Carries(d, e) && OwnSession(e, |d.sessions|, p, now)
            && p !in e.signatures && Images(e) == Images(d)
  {
    var e := Next(slots, d, OpenSessionStep(p, 30, now));
    StepKeeps(slots, d, OpenSessionStep(p, 30, now));
    SameSequence(slots, d, e, d.current, d.participants[p].slot);
  }

  lemma SubmitStepSucceeds(slots: Slots, d: Dossier, p: nat, sid: nat, drawing: Drawing, elsewhere: set<nat>, now: int)
    requires ReadyToSign(slots, d, p) && p !in d.signatures && OwnSession(d, sid, p, now)
    requires drawing.validPng && drawing.consentMatches && drawing.image !in Images(d) && drawing.image !in elsewhere
    ensures var e := Next(slots, d, SubmitStep(sid, drawing, elsewhere, now));
            && ReadyToSign(slots, e, p) && Carries(d, e) && OwnSession(e, sid, p, now) && p in e.signatures
  {
    hide Roster, StatusAgrees, DigestsHold, PendingIsLive, Chain;
    var e := Next(slots, d, SubmitStep(sid, drawing, elsewhere, now));
    StepKeeps(slots, d, SubmitStep(sid, drawing, elsewhere, now));
    SequenceStaysOpen(slots, d, e, d.current, d.participants[p].slot);
  }

  lemma ConfirmStepSucceeds(slots: Slots, d: Dossier, p: nat, sid: nat, rendering: Rendering, now: int)
    requires ReadyToSign(slots, d, p) && p in d.signatures && OwnSession(d, sid, p, now)
    ensures Advanced(slots, d, Next(slots, d, ConfirmStep(sid, rendering, now)), p)
  {
    hide Roster, StatusAgrees, DigestsHold, PendingIsLive, Chain, Ordered, SequenceOpen;
    ConfirmShape(slots, d, p, sid, rendering, now);
    ConfirmStatus(slots, d, sid, rendering, now);
    ConfirmKeeps(slots, d, sid, rendering, now);
  }

  lemma ConfirmShape(slots: Slots, d: Dossier, p: nat, sid: nat, rendering: Rendering, now: int)
    requires d.current < |d.versions| && Signable(d.versions[d.current].status) && InVersion(d, d.current, p)
    requires p in d.signatures && OwnSession(d, sid, p, now)
    ensures Confirm(slots, d, sid, rendering, now).Success?
    ensures var e := Confirm(slots, d, sid, rendering, now).value;
            Carries(d, e) && Confirmed(e, p)
  {
  }

  lemma CarriesTransitive(d: Dossier, e: Dossier, f: Dossier)
    requires Carries(d, e) && Carries(e, f)
    ensures Carries(d, f)
  {
  }

  function OpenThenSubmit(slots: Slots, d: Dossier, p: nat, image: nat, elsewhere: set<nat>, now: int): Dossier
    requires d.current < |d.versions|
  {
    Next(slots, Next(slots, d, OpenSessionStep(p, 30, now)),
      SubmitStep(|d.sessions|, Drawing(image, true, true), elsewhere, now))
  }

  lemma OpenThenSubmitSucceeds(slots: Slots, d: Dossier, p: nat, image: nat, elsewhere: set<nat>, now: int)
    requires ReadyToSign(slots, d, p) && p !in d.signatures && image !in Images(d) && image !in elsewhere
    ensures var e := OpenThenSubmit(slots, d, p, image, elsewhere, now);
            ReadyToSign(slots, e, p) && Carries(d, e) && OwnSession(e, |d.sessions|, p, now) && p in e.signatures
  {
    OpenStep(slots, d, p, now);
    var d1 := Next(slots, d, OpenSessionStep(p, 30, now));
    SubmitStepSucceeds(slots, d1, p, |d.sessions|, Drawing(image, true, true), elsewhere, now);
    CarriesTransitive(d, d1, OpenThenSubmit(slots, d, p, image, elsewhere, now));
  }

  /** A participant without a signature gets one through a new session, at any time `now`. */
  lemma SignOnce(slots: Slots, d: Dossier, p: nat, elsewhere: set<nat>, now: int) returns (steps: seq<Step>)
    requires ReadyToSign(slots, d, p) && p !in d.signatures
    ensures WellFormedRun(steps) && Advanced(slots, d, Run(slots, d, steps), p)
  {
    hide Run, Next, Advanced, Carries, OwnSession, SequenceOpen, Chain, Roster, StatusAgrees, Ordered, PendingIsLive,
      DigestsHold, ImagesDistinct;
    var image := FreshImage(Images(d) + elsewhere);
    var sid := |d.sessions|;
    var submit := SubmitStep(sid, Drawing(image, true, true), elsewhere, now);
    var confirm := ConfirmStep(sid, Rendering("docx", None, "pdf"), now);
    steps := [OpenSessionStep(p, 30, now), submit, confirm];
    ThreeSteps(slots, d, OpenSessionStep(p, 30, now), submit, confirm);
    OpenThenSubmitSucceeds(slots, d, p, image, elsewhere, now);
    var d2 := OpenThenSubmit(slots, d, p, image, elsewhere, now);
    ConfirmStepSucceeds(slots, d2, p, sid, confirm.rendering, now);
    AdvancedFrom(slots, d, d2, Next(slots, d2, confirm), p);
  }

  lemma AdvancedFrom(slots: Slots, d: Dossier, e: Dossier, f: Dossier, p: nat)
    requires Carries(d, e) && Advanced(slots, e, f, p)
    ensures Advanced(slots, d, f, p)
  {
    hide Inv;
    CarriesTransitive(d, e, f);
  }

  lemma ThreeSteps(slots: Slots, d: Dossier, a: Step, b: Step, c: Step)
    requires d.current < |d.versions| && WellFormed(a) && WellFormed(b) && WellFormed(c)
    ensures Run(slots, d, [a, b, c]) == Next(slots, Next(slots, Next(slots, d, a), b), c)
  {
    hide Next;
    assert [a][..0] == [];
    assert Run(slots, d, [a]) == Next(slots, d, a);
    assert [a, b][..1] == [a];
    assert Run(slots, d, [a, b]) == Next(slots, Next(slots, d, a), b);
    assert [a, b, c][..2] == [a, b];
  }

  /** A pending signature is dropped by cancelling its live session, which may have expired. */
  lemma DropPending(slots: Slots, d: Dossier, p: nat, now: int) returns (cancel: Step)
    requires ReadyToSign(slots, d, p) && Pending(d, p)
    ensures WellFormed(cancel)
    ensures var e := Next(slots, d, cancel);
            && ReadyToSign(slots, e, p) && p !in e.signatures && Carries(d, e)
  {
    assert HasLiveSession(d, p);
    var s :| 0 <= s < |d.sessions| && d.sessions[s].participant == p && d.sessions[s].consumedAt.None?
      && d.sessions[s].rejectedAt.None?;
    cancel := CancelSessionStep(s, now);
    StepKeeps(slots, d, cancel);
    DropKeepsOthers(slots, d, s, now);
  }

  lemma DropKeepsOthers(slots: Slots, d: Dossier, s: nat, now: int)
    requires s < |d.sessions| && d.sessions[s].consumedAt.None? && d.sessions[s].rejectedAt.None?
    requires d.current < |d.versions|
    requires var p := d.sessions[s].participant;
             p < |d.participants| && Pending(d, p) && SequenceOpen(slots, d, d.current, d.participants[p].slot)
    ensures var e, p := Next(slots, d, CancelSessionStep(s, now)), d.sessions[s].participant;
            && p !in e.signatures && SequenceOpen(slots, e, d.current, d.participants[p].slot)
            && e == d.(sessions := e.sessions, signatures := e.signatures)
            && forall q :: Confirmed(d, q) ==> Confirmed(e, q)
  {
    var e, p := Next(slots, d, CancelSessionStep(s, now)), d.sessions[s].participant;
    assert e.signatures == d.signatures - {p};
    SequenceStaysOpen(slots, d, e, d.current, d.participants[p].slot);
  }

  lemma SignNext(slots: Slots, d: Dossier, p: nat, elsewhere: set<nat>, now: int) returns (steps: seq<Step>)
    requires ReadyToSign(slots, d, p) && !Confirmed(d, p)
    ensures WellFormedRun(steps) && Advanced(slots, d, Run(slots, d, steps), p)
  {
    if p in d.signatures {
      var cancel := DropPending(slots, d, p, now);
      var rest := SignOnce(slots, Next(slots, d, cancel), p, elsewhere, now);
      steps := [cancel] + rest;
      RunConcat(slots, d, [cancel], rest);
      assert [cancel][..0] == [];
      assert Run(slots, d, [cancel]) == Next(slots, d, cancel);
      CarriesTransitive(d, Next(slots, d, cancel), Run(slots, d, steps));
    } else {
      steps := SignOnce(slots, d, p, elsewhere, now);
    }
  }

  // ---------------------------------------------------------------- All signatures

  ghost function Unconfirmed(slots: Slots, d: Dossier): set<nat> {
    set p: nat | 0 <= p < |d.participants| && RequiredUnconfirmed(slots, d, p)
  }

  lemma StuckIsStatic(slots: Slots, d: Dossier, e: Dossier)
    requires e.current == d.current && e.participants == d.participants && !Stuck(slots, d)
    ensures !Stuck(slots, e)
  {
    if Stuck(slots, e) {
      var p, before :| 0 <= p < |e.participants| && WaitsForNobody(slots, e, p, before);
      assert !HasCode(d, d.current, before) by {
        if HasCode(d, d.current, before) {
          var q :| 0 <= q < |d.participants| && InVersion(d, d.current, q) && d.participants[q].slot == before;
          assert InVersion(e, e.current, q);
        }
      }
      assert RequiredSigner(slots, d, d.current, p);
      assert WaitsForNobody(slots, d, p, before);
    }
  }

  /** No stuck signer: while anyone is unconfirmed one more can be confirmed, until the version is signed. */
  lemma {:induction false} SignersFinish(slots: Slots, d: Dossier, elsewhere: set<nat>, now: int)
    returns (steps: seq<Step>)
    requires Inv(slots, d) && Signable(d.versions[d.current].status) && !Stuck(slots, d)
    ensures SignedBy(slots, d, d.current, steps)
    decreases Unconfirmed(slots, d)
  {
    SomeoneIsRequired(slots, d);
    assert !AllRequiredConfirmed(slots, d, d.current);
    var p :| 0 <= p < |d.participants| && RequiredSigner(slots, d, d.current, p) && !Confirmed(d, p);
    assert RequiredUnconfirmed(slots, d, p);
    var q := NextSigner(slots, d, p);
    steps := SignNext(slots, d, q, elsewhere, now);
    var e := Run(slots, d, steps);
    if e.versions[e.current].status != Signed {
      StuckIsStatic(slots, d, e);
      FewerUnconfirmed(slots, d, e, q);
      var rest := SignersFinish(slots, e, elsewhere, now);
      RunConcat(slots, d, steps, rest);
      steps := steps + rest;
    }
  }

  lemma FewerUnconfirmed(slots: Slots, d: Dossier, e: Dossier, q: nat)
    requires Advanced(slots, d, e, q) && q < |d.participants| && RequiredUnconfirmed(slots, d, q)
    ensures Unconfirmed(slots, e) < Unconfirmed(slots, d)
  {
    assert q in Unconfirmed(slots, d) && q !in Unconfirmed(slots, e);
    forall r | r in Unconfirmed(slots, e) ensures r in Unconfirmed(slots, d) {
      assert RequiredSigner(slots, e, e.current, r);
      assert RequiredSigner(slots, d, d.current, r);
    }
  }

  /** If a run signs the version, every slot a required signer waits for was held from the start. */
  lemma SignedVersionsWereCovered(slots: Slots, d: Dossier, steps: seq<Step>, p: nat, before: string)
    requires Inv(slots, d) && Signable(d.versions[d.current].status) && SignedBy(slots, d, d.current, steps)
    requires p < |d.participants| && RequiredSigner(slots, d, d.current, p)
    requires Precedes(slots, before, d.participants[p].slot)
    ensures HasCode(d, d.current, before)
  {
    var v := d.current;
    var e := Run(slots, d, steps);
    RunKeeps(slots, d, steps);
    RunEvolves(slots, d, steps);
    assert e.current == v;
    CoveredWhenSigned(slots, d, e, p, before);
  }

  lemma CoveredWhenSigned(slots: Slots, d: Dossier, e: Dossier, p: nat, before: string)
    requires References(d) && VersionsEvolve(d, e) && e.current == d.current
    requires d.versions[d.current].status != Draft
    requires AllRequiredConfirmed(slots, e, e.current) && Ordered(slots, e)
    requires RequiredSigner(slots, d, d.current, p) && Precedes(slots, before, d.participants[p].slot)
    ensures HasCode(d, d.current, before)
  {
    var v := d.current;
    assert RequiredSigner(slots, e, v, p);
    assert Confirmed(e, p);
    assert SequenceOpen(slots, e, e.participants[p].version, e.participants[p].slot);
    assert CodeConfirmed(e, v, before);
    var q :| 0 <= q < |e.participants| && InVersion(e, v, q) && e.participants[q].slot == before && Confirmed(e, q);
    assert InVersion(d, v, q);
  }

  /** A stuck signer is never confirmed, so the version is never signed, whatever the run. */
  lemma StuckIsForever(slots: Slots, d: Dossier, steps: seq<Step>)
    requires Inv(slots, d) && Signable(d.versions[d.current].status) && Stuck(slots, d) && WellFormedRun(steps)
    ensures !SignedBy(slots, d, d.current, steps)
  {
    var p, before :| 0 <= p < |d.participants| && WaitsForNobody(slots, d, p, before);
    if SignedBy(slots, d, d.current, steps) {
      SignedVersionsWereCovered(slots, d, steps, p, before);
      assert false;
    }
  }

  /** The exact condition. */
  lemma CanBeSignedIffNotStuck(slots: Slots, d: Dossier)
    requires Reachable(slots, d) && d.current < |d.versions| && Signable(d.versions[d.current].status)
    ensures CanBeSigned(slots, d) <==> !Stuck(slots, d)
  {
    ReachableInv(slots, d);
    if Stuck(slots, d) {
      forall steps | WellFormedRun(steps) ensures !SignedBy(slots, d, d.current, steps) {
        StuckIsForever(slots, d, steps);
      }
    } else {
      var steps := SignersFinish(slots, d, {}, 0);
      assert SignedBy(slots, d, d.current, steps);
    }
  }

  /** With every required slot active, nobody is ever stuck. */
  lemma ActiveRequiredSlotsNeverStick(slots: Slots, d: Dossier)
    requires Reachable(slots, d) && d.current < |d.versions| && Signable(d.versions[d.current].status)
    requires forall code :: code in slots && slots[code].required ==> slots[code].active
    ensures CanBeSigned(slots, d)
  {
    ReachableInv(slots, d);
    assert !Stuck(slots, d) by {
      forall p: nat, before | 0 <= p < |d.participants| && RequiredSigner(slots, d, d.current, p)
        && Precedes(slots, before, d.participants[p].slot)
        ensures HasCode(d, d.current, before)
      {
        assert before in RequiredCodes(slots);
        assert InVersion(d, d.current, p);
      }
    }
    CanBeSignedIffNotStuck(slots, d);
  }

  const RETIRED_PREPARER: Slots :=
    map["PREPARER" := Slot(true, AnyKind, 1, Parallel, false), "APPROVER" := Slot(true, AnyKind, 2, Sequential, true)]

  const ONE_APPROVER: seq<Input> := [Input("APPROVER", Internal, true)]

  lemma OneApproverIsAccepted()
    ensures BuildParticipants(RETIRED_PREPARER, 0, ONE_APPROVER) == Success([Participant(0, "APPROVER", Internal)])
  {
    var slots, inputs := RETIRED_PREPARER, ONE_APPROVER;
    assert inputs[0].slot == "APPROVER";
    assert RequiredCodes(slots) == {"APPROVER"};
    assert inputs[..0] == [];
    assert CheckedParticipants(slots, 0, []) == Success([]);
    assert "APPROVER" in Configured(slots);
    assert [] + [Participant(0, "APPROVER", Internal)] == [Participant(0, "APPROVER", Internal)];
  }

  /** An inactive required slot below a sequential one does get a version stuck. */
  lemma InactiveSlotSticks(content: Content)
    ensures var created := Create(RETIRED_PREPARER, "DOC-1", "REPORT", content, ONE_APPROVER);
            && created.Success? && created.value.current < |created.value.versions|
            && created.value.versions[0].status == Ready
            && !CanBeSigned(RETIRED_PREPARER, created.value)
  {
    var slots := RETIRED_PREPARER;
    OneApproverIsAccepted();
    var d := Create(slots, "DOC-1", "REPORT", content, ONE_APPROVER).value;
    CreateEstablishes(slots, "DOC-1", "REPORT", content, ONE_APPROVER);
    NobodyPrepares(d);
    forall steps | WellFormedRun(steps) ensures !SignedBy(slots, d, d.current, steps) {
      StuckIsForever(slots, d, steps);
    }
  }

  lemma NobodyPrepares(d: Dossier)
    requires d.participants == [Participant(0, "APPROVER", Internal)] && d.current == 0
    ensures Stuck(RETIRED_PREPARER, d)
  {
    assert RequiredCodes(RETIRED_PREPARER) == {"APPROVER"};
    assert InVersion(d, 0, 0);
    assert WaitsForNobody(RETIRED_PREPARER, d, 0, "PREPARER");
  }
}
