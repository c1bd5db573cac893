/**
 When exactly each signing handler is accepted, and which rows it then writes, said on the rows alone.
 */
module SigningEffects {
  import opened Wrappers
  import opened SigningModel
  import opened SigningInvariant
  import opened SigningHistory

  // ---------------------------------------------------------------- Participants

  /** No slot of the document type is active, so that any slot code will do. */
  ghost predicate NoActiveSlot(slots: Slots) {
    forall code :: code in slots ==> !slots[code].active
  }

  ghost predicate FitsSlot(slots: Slots, input: Input) {
    && input.slot in slots && slots[input.slot].active
    && slots[input.slot].allowed in {AnyKind, Only(input.kind)}
  }

  /** The participants exist and fit their slots, no slot is taken twice and every active required slot is taken. */
  ghost predicate GoodInputs(slots: Slots, inputs: seq<Input>) {
    && (forall i :: 0 <= i < |inputs| ==> inputs[i].found && (NoActiveSlot(slots) || FitsSlot(slots, inputs[i])))
    && (forall i, j :: 0 <= i < j < |inputs| ==> inputs[i].slot != inputs[j].slot)
    && (forall code :: code in slots && slots[code].active && slots[code].required ==>
          exists i :: 0 <= i < |inputs| && inputs[i].slot == code)
  }

  /** The rows of the participants, in order. */
  ghost predicate RowsOf(added: seq<Participant>, v: nat, inputs: seq<Input>) {
    |added| == |inputs|
    && forall i :: 0 <= i < |inputs| ==> added[i] == Participant(v, inputs[i].slot, inputs[i].kind)
  }

  lemma ConfiguredIsEmptyIff(slots: Slots)
    ensures Configured(slots) == map[] <==> NoActiveSlot(slots)
  {
    if !NoActiveSlot(slots) {
      var code :| code in slots && slots[code].active;
      assert code in Configured(slots);
    }
  }

  lemma OneIsChecked(slots: Slots, input: Input)
    ensures var configured := Configured(slots);
            && SlotAccepted(slots, input.slot) && input.found
            && !(input.slot in configured && configured[input.slot].allowed.Only?
                 && configured[input.slot].allowed.kind != input.kind)
            <==> input.found && (NoActiveSlot(slots) || FitsSlot(slots, input))
  {
    ConfiguredIsEmptyIff(slots);
    if input.slot in slots && slots[input.slot].active {
      assert input.slot in Configured(slots);
    }
  }

  lemma {:induction false} CheckedExactly(slots: Slots, v: nat, inputs: seq<Input>)
    ensures CheckedParticipants(slots, v, inputs).Success? <==>
            forall i :: 0 <= i < |inputs| ==> inputs[i].found && (NoActiveSlot(slots) || FitsSlot(slots, inputs[i]))
    ensures CheckedParticipants(slots, v, inputs).Success? ==>
              RowsOf(CheckedParticipants(slots, v, inputs).value, v, inputs)
  {
    if inputs != [] {
      var n := |inputs| - 1;
      CheckedExactly(slots, v, inputs[..n]);
      OneIsChecked(slots, inputs[n]);
      hide NoActiveSlot, FitsSlot, Configured, SlotAccepted;
      assert forall i :: 0 <= i < n ==> inputs[..n][i] == inputs[i];
    }
  }

  /** `_build_participants` accepts no participants at all, or good ones. */
  lemma ParticipantsAreBuiltExactly(slots: Slots, v: nat, inputs: seq<Input>)
    ensures BuildParticipants(slots, v, inputs).Success? <==> inputs == [] || GoodInputs(slots, inputs)
    ensures BuildParticipants(slots, v, inputs).Success? ==>
              RowsOf(BuildParticipants(slots, v, inputs).value, v, inputs)
  {
    CheckedExactly(slots, v, inputs);
    forall code ensures code in RequiredCodes(slots) <==> code in slots && slots[code].active && slots[code].required {
    }
    hide RequiredCodes, CheckedParticipants, NoActiveSlot, FitsSlot;
    assert forall code :: Supplied(inputs, code) <==> exists i :: 0 <= i < |inputs| && inputs[i].slot == code;
    assert (exists code :: code in RequiredCodes(slots) && !Supplied(inputs, code)) <==>
           !(forall code :: code in RequiredCodes(slots) ==> Supplied(inputs, code));
  }

  // ---------------------------------------------------------------- Versions

  /** A version as it is created: exactly the content supplied, and nothing final. */
  ghost predicate Created(version: Version, n: nat, supersedes: Option<nat>, content: Content, inputs: seq<Input>) {
    && version.number == n && version.supersedes == supersedes && version.finalizedAt == None
    && version.status == (if inputs == [] then Draft else Ready)
    && Content(version.snapshot, version.docx, version.pdf) == content
  }

  /** A document is created exactly for good participants or none, and then has one version and nothing signed. */
  lemma CreatesExactly(slots: Slots, number: string, docType: string, content: Content, inputs: seq<Input>)
    ensures var outcome := Create(slots, number, docType, content, inputs);
            && (outcome.Success? <==> inputs == [] || GoodInputs(slots, inputs))
            && (outcome.Success? ==>
                  var d := outcome.value;
                  && d.number == number && d.docType == docType && d.current == 0 && |d.versions| == 1
                  && Created(d.versions[0], 1, None, content, inputs) && RowsOf(d.participants, 0, inputs)
                  && d.sessions == [] && d.signatures == map[])
  {
    ParticipantsAreBuiltExactly(slots, 0, inputs);
  }

  /** The dossier differs at most in the version, the added participants, the sessions and the signatures named. */
  ghost predicate Becomes(d: Dossier, e: Dossier, v: nat, version: Version, sessions: seq<Session>,
                          signatures: map<nat, Signature>)
    requires v < |d.versions|
  {
    && e.number == d.number && e.docType == d.docType && e.current == d.current
    && e.versions == d.versions[v := version] && e.participants == d.participants
    && e.sessions == sessions && e.signatures == signatures
  }

  /** Participants are assigned exactly to a draft without participants, which then is ready. */
  lemma AssignsExactly(slots: Slots, d: Dossier, inputs: seq<Input>)
    requires d.current < |d.versions| && inputs != []
    ensures var outcome, v := Assign(slots, d, inputs), d.current;
            && (outcome.Success? <==>
                  && d.versions[v].status == Draft && GoodInputs(slots, inputs)
                  && (forall p :: 0 <= p < |d.participants| ==> d.participants[p].version != v))
            && (outcome.Success? ==>
                  var e := outcome.value;
                  && |d.participants| <= |e.participants| && e.participants[..|d.participants|] == d.participants
                  && RowsOf(e.participants[|d.participants|..], v, inputs)
                  && Becomes(d, e.(participants := d.participants), v, d.versions[v].(status := Ready), d.sessions,
                             d.signatures))
  {
    ParticipantsAreBuiltExactly(slots, d.current, inputs);
    assert forall p :: 0 <= p < |d.participants| ==> (InVersion(d, d.current, p) <==>
                                                      d.participants[p].version == d.current);
  }

  /**
   A version is superseded exactly if no approval carries the number and it is neither superseded nor cancelled. The
   old version keeps all but its status and the time it was closed; sessions and signatures stay.
   */
  lemma SupersedesExactly(slots: Slots, d: Dossier, approved: bool, content: Content, inputs: seq<Input>, now: int)
    requires d.current < |d.versions|
    ensures var outcome, v, n := Supersede(slots, d, approved, content, inputs, now), d.current, |d.versions|;
            && (outcome.Success? <==>
                  && !approved && d.versions[v].status in {Draft, Ready, PartiallySigned, Signed}
                  && (inputs == [] || GoodInputs(slots, inputs)))
            && (outcome.Success? ==>
                  var e := outcome.value;
                  && e.number == d.number && e.docType == d.docType && e.current == n && |e.versions| == n + 1
                  && (forall i :: 0 <= i < n && i != v ==> e.versions[i] == d.versions[i])
                  && e.versions[v] == d.versions[v].(status := Superseded, finalizedAt := e.versions[v].finalizedAt)
                  && (e.versions[v].finalizedAt ==
                        if d.versions[v].finalizedAt == None then Some(now) else d.versions[v].finalizedAt)
                  && Created(e.versions[n], d.versions[v].number + 1, Some(v), content, inputs)
                  && |d.participants| <= |e.participants| && e.participants[..|d.participants|] == d.participants
                  && RowsOf(e.participants[|d.participants|..], n, inputs)
                  && e.sessions == d.sessions && e.signatures == d.signatures)
  {
    ParticipantsAreBuiltExactly(slots, |d.versions|, inputs);
  }

  /** The session, closed at `now` if it was open and belongs to the version. */
  ghost predicate ClosedWith(d: Dossier, v: nat, before: Session, after: Session, now: int) {
    if before.participant < |d.participants| && d.participants[before.participant].version == v
       && before.consumedAt == None && before.rejectedAt == None
    then after == Session(before.participant, before.expiresAt, None, Some(now))
    else after == before
  }

  /** A document is cancelled exactly if no approval carries its number and its version is not signed or closed. */
  lemma CancelsExactly(d: Dossier, approved: bool, now: int)
    requires d.current < |d.versions|
    ensures var outcome, v := CancelDocument(d, approved, now), d.current;
            && (outcome.Success? <==> !approved && d.versions[v].status in {Draft, Ready, PartiallySigned})
            && (outcome.Success? ==>
                  var e := outcome.value;
                  && Becomes(d, e, v, d.versions[v].(status := Cancelled, finalizedAt := Some(now)), e.sessions,
                             d.signatures)
                  && |e.sessions| == |d.sessions|
                  && forall s :: 0 <= s < |d.sessions| ==> ClosedWith(d, v, d.sessions[s], e.sessions[s], now))
  {
    var v := d.current;
    var status := d.versions[v].status;
    assert status == Draft || status == Ready || status == PartiallySigned || status == Signed || status == Superseded
      || status == Cancelled;
    var closed := RejectOpenSessions(d, v, now);
    forall s | 0 <= s < |d.sessions| ensures ClosedWith(d, v, d.sessions[s], closed[s], now) {
      assert InVersion(d, v, d.sessions[s].participant) <==>
          d.sessions[s].participant < |d.participants| && d.participants[d.sessions[s].participant].version == v;
    }
  }

  // ---------------------------------------------------------------- Sessions and signatures

  /** The version of the participant is current and open for signing. */
  ghost predicate OnTheTable(d: Dossier, p: nat)
    requires d.current < |d.versions|
  {
    && p < |d.participants| && d.participants[p].version == d.current
    && d.versions[d.current].status in {Ready, PartiallySigned}
  }

  ghost predicate HasSigned(d: Dossier, v: nat, code: string) {
    exists p :: 0 <= p < |d.participants| && SignedAs(d, v, p, code)
  }

  ghost predicate SignedAs(d: Dossier, v: nat, p: nat, code: string) {
    && p < |d.participants| && d.participants[p].version == v && d.participants[p].slot == code
    && p in d.signatures && d.signatures[p].confirmedAt != None
  }

  /** A sequential slot's turn has come when every required slot before it has signed, active or not. */
  ghost predicate TurnHasCome(slots: Slots, d: Dossier, v: nat, code: string) {
    code in slots && slots[code].mode == Sequential ==>
      forall before :: before in slots && slots[before].required && slots[before].sequence < slots[code].sequence ==>
        HasSigned(d, v, before)
  }

  lemma TurnsAreOpenExactly(slots: Slots, d: Dossier, v: nat, code: string)
    ensures SequenceOpen(slots, d, v, code) <==> TurnHasCome(slots, d, v, code)
  {
    forall before | before in slots ensures CodeConfirmed(d, v, before) <==> HasSigned(d, v, before) {
      if CodeConfirmed(d, v, before) {
        var p :| 0 <= p < |d.participants| && InVersion(d, v, p) && d.participants[p].slot == before && Confirmed(d, p);
        assert SignedAs(d, v, p, before);
      }
      if HasSigned(d, v, before) {
        var p :| 0 <= p < |d.participants| && SignedAs(d, v, p, before);
        assert InVersion(d, v, p) && Confirmed(d, p);
      }
    }
    hide CodeConfirmed, HasSigned;
    if SequenceOpen(slots, d, v, code) {
      forall before | before in slots && Precedes(slots, before, code) ensures HasSigned(d, v, before) {
        assert CodeConfirmed(d, v, before);
      }
    }
  }

  /** A session opens exactly for a participant of the version on the table without a signature whose turn it is. */
  lemma OpensExactly(slots: Slots, d: Dossier, p: nat, minutes: nat, now: int)
    requires References(d)
    ensures var outcome := OpenSession(slots, d, p, minutes, now);
            && (outcome.Success? <==>
                  && OnTheTable(d, p) && p !in d.signatures
                  && TurnHasCome(slots, d, d.current, d.participants[p].slot))
            && (outcome.Success? ==>
                  outcome.value == d.(sessions := d.sessions +
                    [Session(p, now + minutes * 60 * 1_000_000, None, None)]))
  {
    if p < |d.participants| {
      TurnsAreOpenExactly(slots, d, d.participants[p].version, d.participants[p].slot);
    }
  }

  /** Only the unconfirmed signature of the participant is gone. */
  ghost predicate Withdrawn(before: map<nat, Signature>, after: map<nat, Signature>, p: nat) {
    && (forall q :: q in after <==> q in before && (q != p || before[q].confirmedAt != None))
    && (forall q :: q in after ==> after[q] == before[q])
  }

  /** A session is cancelled exactly if it has been neither used nor rejected, whatever its time and its version. */
  lemma CancelsSessionExactly(d: Dossier, sid: nat, now: int)
    requires d.current < |d.versions|
    ensures var outcome := CancelSession(d, sid, now);
            && (outcome.Success? <==>
                  sid < |d.sessions| && d.sessions[sid].consumedAt == None && d.sessions[sid].rejectedAt == None)
            && (outcome.Success? ==>
                  var e := outcome.value;
                  && Becomes(d, e, d.current, d.versions[d.current],
                             d.sessions[sid := d.sessions[sid].(rejectedAt := Some(now))], e.signatures)
                  && Withdrawn(d.signatures, e.signatures, d.sessions[sid].participant))
  {
  }

  /** The token is still good: neither used nor rejected, in time, and for the version on the table. */
  ghost predicate TokenIsGood(d: Dossier, sid: nat, now: int)
    requires d.current < |d.versions|
  {
    && sid < |d.sessions| && d.sessions[sid].consumedAt == None && d.sessions[sid].rejectedAt == None
    && now <= d.sessions[sid].expiresAt && OnTheTable(d, d.sessions[sid].participant)
  }

  lemma ContextExactly(d: Dossier, sid: nat, now: int)
    requires d.current < |d.versions|
    ensures SigningContext(d, sid, now).Success? <==> TokenIsGood(d, sid, now)
    ensures TokenIsGood(d, sid, now) ==> SigningContext(d, sid, now) == Success(d.sessions[sid].participant)
  {
  }

  /** A signature is stored exactly once, in turn, from a good drawing that was stored nowhere before. */
  lemma SubmitsExactly(slots: Slots, d: Dossier, sid: nat, drawing: Drawing, elsewhere: set<nat>, now: int)
    requires d.current < |d.versions|
    ensures var outcome := Submit(slots, d, sid, drawing, elsewhere, now);
            && (outcome.Success? <==>
                  && TokenIsGood(d, sid, now)
                  && d.sessions[sid].participant !in d.signatures
                  && TurnHasCome(slots, d, d.current, d.participants[d.sessions[sid].participant].slot)
                  && drawing.validPng && drawing.consentMatches && drawing.image !in elsewhere
                  && forall p :: p in d.signatures ==> d.signatures[p].image != drawing.image)
            && (outcome.Success? ==>
                  var p, version := d.sessions[sid].participant, d.versions[d.current];
                  outcome.value == d.(signatures := d.signatures[p :=
                    Signature(d.current, version.signingSha, drawing.image, now, None)]))
  {
    ContextExactly(d, sid, now);
    if TokenIsGood(d, sid, now) {
      TurnsAreOpenExactly(slots, d, d.current, d.participants[d.sessions[sid].participant].slot);
    }
    assert drawing.image in Images(d) <==> exists p :: p in d.signatures && d.signatures[p].image == drawing.image;
    hide SequenceOpen, TurnHasCome;
  }

  /** A rejection withdraws what is not confirmed and closes the session. */
  lemma RejectsExactly(d: Dossier, sid: nat, now: int)
    requires d.current < |d.versions|
    ensures var outcome := Reject(d, sid, now);
            && (outcome.Success? <==> TokenIsGood(d, sid, now))
            && (outcome.Success? ==>
                  var e := outcome.value;
                  && Becomes(d, e, d.current, d.versions[d.current],
                             d.sessions[sid := d.sessions[sid].(rejectedAt := Some(now))], e.signatures)
                  && Withdrawn(d.signatures, e.signatures, d.sessions[sid].participant))
  {
    ContextExactly(d, sid, now);
  }

  /** The participant has to sign: its slot is active and required, or no slot is. */
  ghost predicate MustSign(slots: Slots, d: Dossier, p: nat) {
    && p < |d.participants| && d.participants[p].version == d.current
    && ((forall code :: code in slots ==> !(slots[code].active && slots[code].required))
        || (d.participants[p].slot in slots && slots[d.participants[p].slot].active
            && slots[d.participants[p].slot].required))
  }

  /**
   The files of a signed version: the DOCX with the signatures if there was one; the PDF made from it, or else the old
   PDF with the signatures appended. Digests follow the files.
   */
  ghost predicate Finalized(before: Version, after: Version, r: Rendering, now: int) {
    && after.status == Signed && after.finalizedAt == Some(now)
    && after.(status := before.status, finalizedAt := before.finalizedAt, docx := before.docx,
              docxSha := before.docxSha, pdf := before.pdf, pdfSha := before.pdfSha) == before
    && after.docx == (if before.docx == None then None else Some(r.stampedDocx))
    && after.docxSha == (if before.docx == None then before.docxSha else Some(OfFile(r.stampedDocx)))
    && (before.docx != None && r.converted != None ==>
          after.pdf == r.converted && after.pdfSha == Some(OfFile(r.converted.value)))
    && ((before.docx == None || r.converted == None) && before.pdf != None ==>
          after.pdf == Some(r.annexedPdf) && after.pdfSha == Some(OfFile(r.annexedPdf)))
    && ((before.docx == None || r.converted == None) && before.pdf == None ==>
          after.pdf == None && after.pdfSha == before.pdfSha)
  }

  /** The version after a confirmation of the participant `p`. */
  ghost predicate Advanced(slots: Slots, d: Dossier, p: nat, before: Version, after: Version, r: Rendering, now: int) {
    if OthersHaveSigned(slots, d, p) then Finalized(before, after, r, now)
    else after == before.(status := PartiallySigned)
  }

  lemma MustSignIsRequired(slots: Slots, d: Dossier, p: nat)
    requires d.current < |d.versions|
    ensures MustSign(slots, d, p) <==> RequiredSigner(slots, d, d.current, p)
  {
    forall code
      ensures code in RequiredCodes(slots) <==> code in slots && slots[code].active && slots[code].required
    {
    }
  }

  lemma FinalizesExactly(before: Version, r: Rendering, now: int)
    ensures Finalized(before, FinalizeFiles(before.(status := Signed, finalizedAt := Some(now)), r), r, now)
  {
  }

  /** Everyone else who must sign has signed. */
  ghost predicate OthersHaveSigned(slots: Slots, d: Dossier, p: nat) {
    forall q :: 0 <= q < |d.participants| && MustSign(slots, d, q) && q != p ==>
      q in d.signatures && d.signatures[q].confirmedAt != None
  }

  lemma StatusAfterConfirming(slots: Slots, d: Dossier, sid: nat, p: nat, now: int)
    requires References(d) && Roster(slots, d) && sid < |d.sessions| && p in d.signatures && OnTheTable(d, p)
    ensures StatusOf(slots, MarkConfirmed(d, sid, p, now), d.current)
         == if OthersHaveSigned(slots, d, p) then Signed else PartiallySigned
  {
    var e, v := MarkConfirmed(d, sid, p, now), d.current;
    assert Confirmed(e, p) && e.signatures[p].version == v;
    SomeoneIsRequired(slots, d);
    var someone: nat :| someone < |d.participants| && RequiredSigner(slots, d, v, someone);
    assert RequiredSigner(slots, e, v, someone);
    forall q: nat | q < |d.participants|
      ensures RequiredSigner(slots, e, v, q) <==> MustSign(slots, d, q)
      ensures Confirmed(e, q) <==> q == p || (q in d.signatures && d.signatures[q].confirmedAt != None)
    {
      MustSignIsRequired(slots, d, q);
      assert RequiredSigner(slots, e, v, q) <==> RequiredSigner(slots, d, v, q);
    }
    hide MustSign, RequiredSigner, Roster;
  }

  /**
   A confirmation is accepted exactly with a good token and a submitted signature. It uses up the session, confirms the
   signature, and signs the version exactly if everyone else who must sign has done so.
   */
  lemma ConfirmsExactly(slots: Slots, d: Dossier, sid: nat, r: Rendering, now: int)
    requires References(d) && Roster(slots, d)
    ensures var outcome := Confirm(slots, d, sid, r, now);
            && (outcome.Success? <==> TokenIsGood(d, sid, now) && d.sessions[sid].participant in d.signatures)
            && (outcome.Success? ==>
                  var e, p, v := outcome.value, d.sessions[sid].participant, d.current;
                  && Becomes(d, e, v, e.versions[v], d.sessions[sid := d.sessions[sid].(consumedAt := Some(now))],
                             d.signatures[p := d.signatures[p].(confirmedAt := Some(now))])
                  && Advanced(slots, d, p, d.versions[v], e.versions[v], r, now))
  {
    ContextExactly(d, sid, now);
    if TokenIsGood(d, sid, now) && d.sessions[sid].participant in d.signatures {
      var p, v := d.sessions[sid].participant, d.current;
      var e := MarkConfirmed(d, sid, p, now);
      FinalizesExactly(d.versions[v], r, now);
      StatusAfterConfirming(slots, d, sid, p, now);
      hide MustSign, StatusOf, Finalized, FinalizeFiles, Roster;
    }
  }

  // ---------------------------------------------------------------- Which refusal

  /** A dead token is refused first, then an early turn, a second signature, a bad image or consent, a used image. */
  lemma SubmitRefusesWith(slots: Slots, d: Dossier, sid: nat, drawing: Drawing, elsewhere: set<nat>, now: int)
    requires d.current < |d.versions|
    ensures var outcome := Submit(slots, d, sid, drawing, elsewhere, now);
            if sid >= |d.sessions| then outcome == Failure(SessionNotFound)
            else if !TokenIsGood(d, sid, now) then outcome == Failure(SessionClosed)
            else
              var p := d.sessions[sid].participant;
              if !TurnHasCome(slots, d, d.current, d.participants[p].slot) then outcome == Failure(SequenceBlocked)
              else if p in d.signatures then outcome == Failure(AlreadySigned)
              else if !drawing.validPng then outcome == Failure(InvalidImage)
              else if !drawing.consentMatches then outcome == Failure(ConsentMismatch)
              else outcome.Failure? ==> outcome == Failure(ImageReused)
  {
    ContextExactly(d, sid, now);
    if TokenIsGood(d, sid, now) {
      TurnsAreOpenExactly(slots, d, d.current, d.participants[d.sessions[sid].participant].slot);
    }
    hide SequenceOpen, TurnHasCome;
  }

  /** Confirming and rejecting refuse a dead token alike; only a confirmation needs a submitted signature. */
  lemma TokensAreRefusedWith(slots: Slots, d: Dossier, sid: nat, r: Rendering, now: int)
    requires d.current < |d.versions|
    ensures var confirmed, rejected := Confirm(slots, d, sid, r, now), Reject(d, sid, now);
            if sid >= |d.sessions| then confirmed == rejected == Failure(SessionNotFound)
            else if !TokenIsGood(d, sid, now) then confirmed == rejected == Failure(SessionClosed)
            else confirmed.Failure? ==> confirmed == Failure(NotSubmitted)
  {
    ContextExactly(d, sid, now);
    hide StatusOf, FinalizeFiles;
  }

  /** A session is refused for its participant, then for the version, for a signature and for the turn. */
  lemma OpeningIsRefusedWith(slots: Slots, d: Dossier, p: nat, minutes: nat, now: int)
    requires References(d)
    ensures var outcome := OpenSession(slots, d, p, minutes, now);
            if p >= |d.participants| then outcome == Failure(ParticipantNotFound)
            else if !OnTheTable(d, p) then outcome == Failure(NotSignable)
            else if p in d.signatures then outcome == Failure(AlreadySigned)
            else outcome.Failure? ==> outcome == Failure(SequenceBlocked)
  {
    hide SequenceOpen;
  }

  /** Approved documents are refused before closed versions; participants last. */
  lemma ChangesAreRefusedWith(slots: Slots, d: Dossier, approved: bool, content: Content, inputs: seq<Input>, now: int)
    requires d.current < |d.versions|
    ensures var cancelled, superseded := CancelDocument(d, approved, now),
              Supersede(slots, d, approved, content, inputs, now);
            var status := d.versions[d.current].status;
            if approved then cancelled == superseded == Failure(ApprovedRequestImmutable)
            else
              && (cancelled.Failure? ==> cancelled == Failure(DocumentImmutable))
              && (status == Superseded || status == Cancelled ==> superseded == Failure(NotCurrent))
              && (superseded.Failure? && status != Superseded && status != Cancelled ==>
                    BuildParticipants(slots, |d.versions|, inputs) == Failure(superseded.error))
  {
  }
}
