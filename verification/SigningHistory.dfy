/**
 What a run can never undo: closed versions, closed sessions, confirmed signatures and signing digests.
 */
module SigningHistory {
  import opened Wrappers
  import opened SigningModel
  import opened SigningInvariant

  predicate Closed(status: Status) {
    status in {Signed, Superseded, Cancelled}
  }

  /** How the status of one version may change over time: signing only advances, and what is over stays over. */
  predicate MayBecome(before: Status, after: Status) {
    match before
    case Draft => true
    case Ready => after != Draft
    case PartiallySigned => after != Draft && after != Ready
    case Signed => after == Signed || after == Superseded
    case Superseded => after == Superseded
    case Cancelled => after == Cancelled
  }

  predicate SpentSession(s: Session) {
    s.consumedAt.Some? || s.rejectedAt.Some?
  }

  ghost predicate SameIdentity(v: Version, w: Version) {
    && w.number == v.number && w.supersedes == v.supersedes && w.snapshot == v.snapshot
    && w.snapshotSha == v.snapshotSha && w.signingSha == v.signingSha
  }

  /** Versions keep their identity and never leave a closed status; only drafts gain participants. */
  ghost predicate VersionsEvolve(d: Dossier, e: Dossier) {
    && e.number == d.number && e.docType == d.docType
    && |d.versions| <= |e.versions|
    && (forall i :: 0 <= i < |d.versions| ==>
          && SameIdentity(d.versions[i], e.versions[i])
          && (Closed(d.versions[i].status) ==> Closed(e.versions[i].status))
          && MayBecome(d.versions[i].status, e.versions[i].status)
          && (d.versions[i].status == Cancelled ==> e.versions[i] == d.versions[i]))
    && |d.participants| <= |e.participants|
    && (forall p :: 0 <= p < |d.participants| ==> e.participants[p] == d.participants[p])
    && (forall p :: |d.participants| <= p < |e.participants| ==>
          var v := e.participants[p].version; v < |d.versions| ==> d.versions[v].status == Draft)
  }

  /** A session keeps its participant and expiry, and once spent its row is frozen. */
  ghost predicate SessionsEvolve(d: Dossier, e: Dossier) {
    && |d.sessions| <= |e.sessions|
    && (forall s :: 0 <= s < |d.sessions| ==>
          && e.sessions[s].participant == d.sessions[s].participant
          && e.sessions[s].expiresAt == d.sessions[s].expiresAt
          && (SpentSession(d.sessions[s]) ==> e.sessions[s] == d.sessions[s]))
  }

  /** The participant belongs to a closed version. */
  predicate InClosed(d: Dossier, p: nat)
    requires p < |d.participants|
  {
    d.participants[p].version < |d.versions| && Closed(d.versions[d.participants[p].version].status)
  }

  /**
   A confirmed signature stays, with its image, digest and signing time. On a closed version the confirmed
   signatures are frozen: none changes and none is added.
   */
  ghost predicate SignaturesEvolve(d: Dossier, e: Dossier) {
    && (forall p :: Confirmed(d, p) ==>
          Confirmed(e, p) && e.signatures[p] == d.signatures[p].(confirmedAt := e.signatures[p].confirmedAt))
    && (forall p :: 0 <= p < |d.participants| && InClosed(d, p) ==>
          && (Confirmed(d, p) ==> e.signatures[p] == d.signatures[p])
          && (Confirmed(e, p) ==> Confirmed(d, p)))
  }

  ghost predicate Evolves(d: Dossier, e: Dossier) {
    VersionsEvolve(d, e) && SessionsEvolve(d, e) && SignaturesEvolve(d, e)
  }

  lemma AssignVersions(slots: Slots, d: Dossier, inputs: seq<Input>)
    requires References(d) && Chain(d) && inputs != [] && Assign(slots, d, inputs).Success?
    ensures VersionsEvolve(d, Assign(slots, d, inputs).value)
  {
    BuildParticipantsIsGood(slots, d.current, inputs);
  }

  lemma SupersedeVersions(slots: Slots, d: Dossier, approved: bool, content: Content, inputs: seq<Input>, now: int)
    requires References(d) && Chain(d) && Supersede(slots, d, approved, content, inputs, now).Success?
    ensures VersionsEvolve(d, Supersede(slots, d, approved, content, inputs, now).value)
  {
    BuildParticipantsIsGood(slots, |d.versions|, inputs);
  }

  lemma ConfirmVersions(slots: Slots, d: Dossier, sid: nat, rendering: Rendering, now: int)
    requires References(d) && Chain(d) && Confirm(slots, d, sid, rendering, now).Success?
    ensures VersionsEvolve(d, Confirm(slots, d, sid, rendering, now).value)
  {
    ConfirmStatus(slots, d, sid, rendering, now);
  }

  lemma StepVersions(slots: Slots, d: Dossier, step: Step)
    requires References(d) && Chain(d) && WellFormed(step)
    ensures VersionsEvolve(d, Next(slots, d, step))
  {
    if Do(slots, d, step).Success? {
      match step
      case AssignStep(inputs) => AssignVersions(slots, d, inputs);
      case SupersedeStep(approved, content, inputs, now) => SupersedeVersions(slots, d, approved, content, inputs, now);
      case ConfirmStep(sid, rendering, now) => ConfirmVersions(slots, d, sid, rendering, now);
      case _ =>
    }
  }

  lemma StepSessions(slots: Slots, d: Dossier, step: Step)
    requires d.current < |d.versions| && WellFormed(step)
    ensures SessionsEvolve(d, Next(slots, d, step))
  {
  }

  /** Only pending signatures are dropped, only open versions are signed. */
  lemma StepSignatures(slots: Slots, d: Dossier, step: Step)
    requires References(d) && Chain(d) && WellFormed(step)
    ensures SignaturesEvolve(d, Next(slots, d, step))
  {
    if Do(slots, d, step).Success? {
      match step
      case SubmitStep(sid, drawing, elsewhere, now) => SubmitSignatures(slots, d, sid, drawing, elsewhere, now);
      case ConfirmStep(sid, rendering, now) => ConfirmSignatures(slots, d, sid, rendering, now);
      case _ =>
    }
  }

  lemma SubmitSignatures(slots: Slots, d: Dossier, sid: nat, drawing: Drawing, elsewhere: set<nat>, now: int)
    requires References(d) && Submit(slots, d, sid, drawing, elsewhere, now).Success?
    ensures SignaturesEvolve(d, Submit(slots, d, sid, drawing, elsewhere, now).value)
  {
  }

  lemma ConfirmSignatures(slots: Slots, d: Dossier, sid: nat, rendering: Rendering, now: int)
    requires References(d) && Confirm(slots, d, sid, rendering, now).Success?
    ensures SignaturesEvolve(d, Confirm(slots, d, sid, rendering, now).value)
  {
    var p := d.sessions[sid].participant;
    var e := Confirm(slots, d, sid, rendering, now).value;
    assert e.signatures == d.signatures[p := d.signatures[p].(confirmedAt := Some(now))];
    assert !Closed(d.versions[d.participants[p].version].status);
  }

  lemma StepEvolves(slots: Slots, d: Dossier, step: Step)
    requires References(d) && Chain(d) && WellFormed(step)
    ensures Evolves(d, Next(slots, d, step))
  {
    StepVersions(slots, d, step);
    StepSessions(slots, d, step);
    StepSignatures(slots, d, step);
  }

  lemma EvolvesTransitive(d: Dossier, e: Dossier, f: Dossier)
    requires References(d) && Evolves(d, e) && Evolves(e, f)
    ensures Evolves(d, f)
  {
    forall p | Confirmed(d, p)
      ensures Confirmed(f, p) && f.signatures[p] == d.signatures[p].(confirmedAt := f.signatures[p].confirmedAt)
    {
      assert Confirmed(e, p);
    }
  }

  /** Over any run: versions, spent sessions and confirmed signatures evolve only as `Evolves` allows. */
  lemma {:induction false} RunEvolves(slots: Slots, d: Dossier, steps: seq<Step>)
    requires Inv(slots, d) && WellFormedRun(steps)
    ensures Evolves(d, Run(slots, d, steps))
    decreases |steps|
  {
    if steps != [] {
      var before := steps[..|steps| - 1];
      RunEvolves(slots, d, before);
      RunKeeps(slots, d, before);
      StepEvolves(slots, Run(slots, d, before), steps[|steps| - 1]);
      EvolvesTransitive(d, Run(slots, d, before), Run(slots, d, steps));
    }
  }

  // ---------------------------------------------------------------- Theorems over every run of a created document

  /** Every state a document created with a fixed slot configuration can reach. */
  ghost predicate Reachable(slots: Slots, d: Dossier) {
    exists number, docType, content, inputs, steps :: ReachedBy(slots, number, docType, content, inputs, steps, d)
  }

  ghost predicate ReachedBy(slots: Slots, number: string, docType: string, content: Content, inputs: seq<Input>,
                            steps: seq<Step>, d: Dossier) {
    && Create(slots, number, docType, content, inputs).Success? && WellFormedRun(steps)
    && d == Run(slots, Create(slots, number, docType, content, inputs).value, steps)
  }

  lemma ReachableInv(slots: Slots, d: Dossier)
    requires Reachable(slots, d)
    ensures Inv(slots, d)
  {
    var number, docType, content, inputs, steps :| ReachedBy(slots, number, docType, content, inputs, steps, d);
    CreateEstablishes(slots, number, docType, content, inputs);
    RunKeeps(slots, Create(slots, number, docType, content, inputs).value, steps);
  }

  ghost predicate RequiredUnconfirmed(slots: Slots, d: Dossier, p: nat) {
    RequiredSigner(slots, d, d.current, p) && !Confirmed(d, p)
  }

  /** The status of the current version tells exactly how far signing has come. */
  lemma StatusTellsProgress(slots: Slots, d: Dossier)
    requires Reachable(slots, d)
    ensures d.current < |d.versions|
    ensures var status := d.versions[d.current].status;
            && (status == Draft ==> forall p :: 0 <= p < |d.participants| ==> !InVersion(d, d.current, p))
            && (status == Ready ==> forall p :: 0 <= p < |d.participants| && InVersion(d, d.current, p) ==>
                  !Confirmed(d, p))
            && (status == PartiallySigned ==>
                  && (exists p :: 0 <= p < |d.participants| && InVersion(d, d.current, p) && Confirmed(d, p))
                  && (exists p :: 0 <= p < |d.participants| && RequiredUnconfirmed(slots, d, p)))
            && (status == Signed ==>
                  && (exists p :: 0 <= p < |d.participants| && RequiredSigner(slots, d, d.current, p))
                  && (forall p :: 0 <= p < |d.participants| ==> !RequiredUnconfirmed(slots, d, p)))
  {
    ReachableInv(slots, d);
    var v := d.current;
    var status := d.versions[v].status;
    SomeConfirmedMeans(d, v);
    if status == Draft {
      assert !HasParticipants(d, v);
    } else if Signable(status) {
      SomeoneIsRequired(slots, d);
      var q :| 0 <= q < |d.participants| && RequiredSigner(slots, d, v, q);
      assert !AllRequiredConfirmed(slots, d, v);
      var p :| 0 <= p < |d.participants| && RequiredSigner(slots, d, v, p) && !Confirmed(d, p);
      assert RequiredUnconfirmed(slots, d, p);
    }
  }

  lemma SomeoneIsRequired(slots: Slots, d: Dossier)
    requires References(d) && Roster(slots, d)
    requires (Signable(d.versions[d.current].status) || d.versions[d.current].status == Signed)
    ensures exists p :: 0 <= p < |d.participants| && RequiredSigner(slots, d, d.current, p)
  {
    var v := d.current;
    assert HasParticipants(d, v);
    if RequiredCodes(slots) == {} {
      var p :| 0 <= p < |d.participants| && InVersion(d, v, p);
      assert RequiredSigner(slots, d, v, p);
    } else {
      var code :| code in RequiredCodes(slots);
      assert HasCode(d, v, code);
      var p :| 0 <= p < |d.participants| && InVersion(d, v, p) && d.participants[p].slot == code;
      assert RequiredSigner(slots, d, v, p);
    }
  }

  /** Whoever holds a signature, confirmed or not, has every required lower slot confirmed if the slot is sequential. */
  lemma SignedInOrder(slots: Slots, d: Dossier, p: nat, before: string)
    requires Reachable(slots, d) && p in d.signatures && p < |d.participants|
    requires Precedes(slots, before, d.participants[p].slot)
    ensures CodeConfirmed(d, d.participants[p].version, before)
  {
    ReachableInv(slots, d);
    assert SequenceOpen(slots, d, d.participants[p].version, d.participants[p].slot);
  }

  /** The version chain, spelled out. */
  lemma VersionsFormAChain(slots: Slots, d: Dossier)
    requires Reachable(slots, d)
    ensures d.current == |d.versions| - 1
    ensures forall i :: 0 <= i < |d.versions| ==>
              && d.versions[i].number == i + 1
              && d.versions[i].supersedes == (if i == 0 then None else Some((i - 1) as nat))
              && (d.versions[i].status == Superseded <==> i < d.current)
  {
    ReachableInv(slots, d);
  }

  /** `verify_official_document_hashes`: the three checks on the current version. */
  predicate VerifyHashes(d: Dossier)
    requires d.current < |d.versions|
  {
    var v := d.versions[d.current];
    && OfSnapshot(v.snapshot) == v.snapshotSha
    && (v.docx.None? || Some(OfFile(v.docx.value)) == v.docxSha)
    && (v.pdf.None? || Some(OfFile(v.pdf.value)) == v.pdfSha)
  }

  lemma HashesAlwaysVerify(slots: Slots, d: Dossier)
    requires Reachable(slots, d)
    ensures d.current < |d.versions| && VerifyHashes(d)
  {
    ReachableInv(slots, d);
    assert VersionDigests(d, d.versions[d.current]);
  }

  /**
   Every signature binds the document's number and type, its version's number and the digests the files had
   when the version was created, even after finalisation has rewritten the files.
   */
  lemma SignaturesBindTheOriginalFiles(slots: Slots, d: Dossier, v: nat, steps: seq<Step>, p: nat)
    requires Inv(slots, d) && v < |d.versions| && d.versions[v].finalizedAt.None? && WellFormedRun(steps)
    requires var e := Run(slots, d, steps); p in e.signatures && e.signatures[p].version == v
    ensures Run(slots, d, steps).signatures[p].documentSha
         == OfSigning(d.number, d.docType, v + 1, OfSnapshot(d.versions[v].snapshot), FileSha(d.versions[v].docx),
           FileSha(d.versions[v].pdf))
  {
    RunKeeps(slots, d, steps);
    RunEvolves(slots, d, steps);
    assert VersionDigests(d, d.versions[v]);
  }

  /**
   The confirmed signatures of a signed, superseded or cancelled version never change again, and no run cancels a
   signed version or reopens a closed one.
   */
  lemma ClosedVersionsAreFrozen(slots: Slots, d: Dossier, steps: seq<Step>, p: nat)
    requires Inv(slots, d) && WellFormedRun(steps) && p < |d.participants|
    requires Closed(d.versions[d.participants[p].version].status)
    ensures var e := Run(slots, d, steps);
            && |d.versions| <= |e.versions|
            && Closed(e.versions[d.participants[p].version].status)
            && (d.versions[d.participants[p].version].status == Signed ==>
                  e.versions[d.participants[p].version].status in {Signed, Superseded})
            && (Confirmed(d, p) <==> Confirmed(e, p))
            && (Confirmed(d, p) ==> e.signatures[p] == d.signatures[p])
  {
    RunEvolves(slots, d, steps);
  }

  /**
   No run takes back what was reached: in particular a signed version is never cancelled, it stays signed or is
   superseded, and no run reopens a superseded or cancelled version.
   */
  lemma StatusesOnlyAdvance(slots: Slots, d: Dossier, steps: seq<Step>, v: nat)
    requires Inv(slots, d) && WellFormedRun(steps) && v < |d.versions|
    ensures v < |Run(slots, d, steps).versions|
    ensures MayBecome(d.versions[v].status, Run(slots, d, steps).versions[v].status)
    ensures d.versions[v].status == Signed ==> Run(slots, d, steps).versions[v].status in {Signed, Superseded}
  {
    RunEvolves(slots, d, steps);
  }

  /** A consumed, rejected or expired token is refused by submit, confirm and reject for ever after. */
  lemma DeadTokensStayDead(slots: Slots, d: Dossier, sid: nat, steps: seq<Step>, step: Step)
    requires Inv(slots, d) && WellFormedRun(steps) && sid < |d.sessions|
    requires step.SubmitStep? || step.ConfirmStep? || step.RejectStep?
    requires step.sid == sid
    requires SpentSession(d.sessions[sid]) || d.sessions[sid].expiresAt < step.now
    ensures Do(slots, Run(slots, d, steps), step) == Failure(SessionClosed)
  {
    RunEvolves(slots, d, steps);
  }

  /** A token spends at most one confirmation: after it, the same token is refused for every purpose and for ever. */
  lemma ConfirmSpendsTheToken(slots: Slots, d: Dossier, sid: nat, rendering: Rendering, now: int, steps: seq<Step>,
    step: Step)
    requires Inv(slots, d) && Confirm(slots, d, sid, rendering, now).Success? && WellFormedRun(steps)
    requires step.SubmitStep? || step.ConfirmStep? || step.RejectStep?
    requires step.sid == sid
    ensures Do(slots, Run(slots, Confirm(slots, d, sid, rendering, now).value, steps), step) == Failure(SessionClosed)
  {
    assert d.current < |d.versions|;
    hide Inv, Confirm, Do, Run, SpentSession;
    ConfirmKeeps(slots, d, sid, rendering, now);
    ConfirmSpends(slots, d, sid, rendering, now);
    DeadTokensStayDead(slots, Confirm(slots, d, sid, rendering, now).value, sid, steps, step);
  }

  lemma ConfirmSpends(slots: Slots, d: Dossier, sid: nat, rendering: Rendering, now: int)
    requires Inv(slots, d) && Confirm(slots, d, sid, rendering, now).Success?
    ensures var e := Confirm(slots, d, sid, rendering, now).value; sid < |e.sessions| && SpentSession(e.sessions[sid])
  {
  }
}
