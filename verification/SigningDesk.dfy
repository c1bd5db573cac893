/**
 The signing handlers as they run: they read and update the rows of one document in place, under its row
 lock, and either commit or roll back. Every handler is proved to commit exactly the rows, or to return
 exactly the refusal, of its pure step in `SigningModel`, about which the invariants are proved.
 */
module SigningDesk {
  import opened Wrappers
  import opened SigningModel

  /** A handler ends with the rows of an accepted step, or with the rows untouched and the refusal. */
  ghost predicate Outcome(before: Dossier, expected: Result<Dossier, Refusal>, after: Dossier,
                          refusal: Option<Refusal>) {
    match expected
    case Success(rows) => refusal == None && after == rows
    case Failure(error) => refusal == Some(error) && after == before
  }

  class Desk {
    const slots: Slots
    const number: string
    const docType: string
    var current: nat
    var versions: seq<Version>
    var participants: seq<Participant>
    var sessions: seq<Session>
    var signatures: map<nat, Signature>

    /** The committed rows as a value. */
    function Rows(): Dossier
      reads this
    {
      Dossier(number, docType, current, versions, participants, sessions, signatures)
    }

    ghost predicate Valid()
      reads this
    {
      current < |versions|
    }

    /** A new document, when the participants supplied with it are accepted. */
    constructor (slots: Slots, number: string, docType: string, content: Content, added: seq<Participant>,
                 inputs: seq<Input>)
      requires BuildParticipants(slots, 0, inputs) == Success(added)
      ensures Valid() && this.slots == slots
      ensures Create(slots, number, docType, content, inputs) == Success(Rows())
    {
      this.slots, this.number, this.docType := slots, number, docType;
      current := 0;
      versions := [NewVersion(number, docType, 1, None, content, inputs != [])];
      participants := added;
      sessions, signatures := [], map[];
    }

    method AssignParticipants(inputs: seq<Input>) returns (refusal: Option<Refusal>)
      requires Valid() && inputs != []
      modifies this
      ensures Valid() && Outcome(old(Rows()), Assign(slots, old(Rows()), inputs), Rows(), refusal)
    {
      var v := current;
      if versions[v].status != Draft {
        return Some(ParticipantsImmutable);
      }
      var existing := CountParticipants(v);
      if existing != 0 {
        return Some(ParticipantsAlreadyAssigned);
      }
      assert !exists p :: 0 <= p < |participants| && InVersion(Rows(), v, p);
      var built := BuildRows(slots, v, inputs);
      if built.Failure? {
        return Some(built.error);
      }
      versions := versions[v := versions[v].(status := Ready)];
      participants := participants + built.value;
      return None;
    }

    method CountParticipants(v: nat) returns (count: nat)
      ensures count == 0 <==> forall p :: 0 <= p < |participants| ==> !InVersion(Rows(), v, p)
    {
      count := 0;
      for p := 0 to |participants|
        invariant count == 0 <==> forall q :: 0 <= q < p ==> !InVersion(Rows(), v, q)
      {
        if participants[p].version == v {
          assert InVersion(Rows(), v, p);
          count := count + 1;
        }
      }
    }

    method SupersedeVersion(approved: bool, content: Content, inputs: seq<Input>, now: int)
      returns (refusal: Option<Refusal>)
      requires Valid()
      modifies this
      ensures Valid()
      ensures Outcome(old(Rows()), Supersede(slots, old(Rows()), approved, content, inputs, now), Rows(), refusal)
    {
      if approved {
        return Some(ApprovedRequestImmutable);
      }
      var v := current;
      var previous := versions[v];
      if previous.status == Superseded || previous.status == Cancelled {
        return Some(NotCurrent);
      }
      var next := |versions|;
      var version := NewVersion(number, docType, previous.number + 1, Some(v), content, inputs != []);
      var built := BuildRows(slots, next, inputs);
      if built.Failure? {
        return Some(built.error);
      }
      versions := versions + [version];
      participants := participants + built.value;
      previous := previous.(status := Superseded);
      if previous.finalizedAt.None? {
        previous := previous.(finalizedAt := Some(now));
      }
      versions := versions[v := previous];
      current := next;
      assert versions == old(versions)[v := previous] + [version];
      return None;
    }

    method CancelVersion(approved: bool, now: int) returns (refusal: Option<Refusal>)
      requires Valid()
      modifies this
      ensures Valid() && Outcome(old(Rows()), CancelDocument(old(Rows()), approved, now), Rows(), refusal)
    {
      if approved {
        return Some(ApprovedRequestImmutable);
      }
      var v := current;
      if versions[v].status in {Signed, Superseded, Cancelled} {
        return Some(DocumentImmutable);
      }
      ghost var expected := RejectOpenSessions(Rows(), v, now);
      for i := 0 to |sessions|
        invariant current == old(current) && versions == old(versions) && participants == old(participants)
        invariant signatures == old(signatures)
        invariant |sessions| == |old(sessions)|
        invariant forall j :: 0 <= j < i ==> sessions[j] == expected[j]
        invariant forall j :: i <= j < |sessions| ==> sessions[j] == old(sessions)[j]
      {
        var s := sessions[i];
        if s.participant < |participants| && participants[s.participant].version == v && s.consumedAt.None?
          && s.rejectedAt.None? {
          sessions := sessions[i := s.(rejectedAt := Some(now))];
        }
      }
      assert sessions == expected;
      versions := versions[v := versions[v].(status := Cancelled, finalizedAt := Some(now))];
      return None;
    }

    method CreateSession(p: nat, minutes: nat, now: int) returns (refusal: Option<Refusal>)
      requires Valid()
      modifies this
      ensures Valid() && Outcome(old(Rows()), OpenSession(slots, old(Rows()), p, minutes, now), Rows(), refusal)
    {
      if p >= |participants| {
        return Some(ParticipantNotFound);
      }
      var v := participants[p].version;
      if !(current == v && Signable(versions[v].status)) {
        return Some(NotSignable);
      }
      if p in signatures {
        return Some(AlreadySigned);
      }
      var free := EnsureSequence(v, participants[p].slot);
      if !free {
        return Some(SequenceBlocked);
      }
      sessions := sessions + [Session(p, now + minutes * 60_000_000, None, None)];
      return None;
    }

    /** The codes still missing before a sequential slot may be signed. */
    method EnsureSequence(v: nat, code: string) returns (free: bool)
      ensures free == SequenceOpen(slots, Rows(), v, code)
    {
      if code !in slots || slots[code].mode != Sequential {
        return true;
      }
      var previous := set before | before in slots && slots[before].required
        && slots[before].sequence < slots[code].sequence;
      var signed: set<string> := {};
      for p := 0 to |participants|
        invariant forall c :: c in signed <==>
          exists q :: 0 <= q < p && InVersion(Rows(), v, q) && participants[q].slot == c && Confirmed(Rows(), q)
      {
        if participants[p].version == v && p in signatures && signatures[p].confirmedAt.Some? {
          assert InVersion(Rows(), v, p) && Confirmed(Rows(), p);
          signed := signed + {participants[p].slot};
        }
      }
      assert forall before :: before in slots && Precedes(slots, before, code) <==> before in previous;
      free := previous <= signed;
      assert forall c :: c in signed <==> CodeConfirmed(Rows(), v, c);
    }

    method CancelOneSession(sid: nat, now: int) returns (refusal: Option<Refusal>)
      requires Valid()
      modifies this
      ensures Valid() && Outcome(old(Rows()), CancelSession(old(Rows()), sid, now), Rows(), refusal)
    {
      if sid >= |sessions| {
        return Some(SessionNotFound);
      }
      var item := sessions[sid];
      if item.consumedAt.Some? || item.rejectedAt.Some? {
        return Some(SessionClosed);
      }
      DropPending(item.participant);
      sessions := sessions[sid := item.(rejectedAt := Some(now))];
      return None;
    }

    method DropPending(p: nat)
      modifies this`signatures
      ensures signatures == WithoutPending(old(Rows()), p)
    {
      if p in signatures && signatures[p].confirmedAt.None? {
        signatures := signatures - {p};
      }
    }

    /** Admits the participant of an open session on the current version while that version can be signed. */
    method Context(sid: nat, now: int) returns (r: Result<nat, Refusal>)
      requires Valid()
      ensures r == SigningContext(Rows(), sid, now)
      ensures r.Success? <==>
              sid < |sessions| && SessionIsOpen(sessions[sid], now)
              && InVersion(Rows(), current, sessions[sid].participant) && Signable(versions[current].status)
      ensures r.Success? ==> r.value == sessions[sid].participant
      ensures r == Failure(SessionNotFound) <==> sid >= |sessions|
      ensures r.Failure? && sid < |sessions| ==> r.error == SessionClosed
    {
      if sid >= |sessions| {
        return Failure(SessionNotFound);
      }
      var session := sessions[sid];
      if session.expiresAt < now || session.consumedAt.Some? || session.rejectedAt.Some? {
        return Failure(SessionClosed);
      }
      var p := session.participant;
      if p >= |participants| || current != participants[p].version || !Signable(versions[current].status) {
        return Failure(SessionClosed);
      }
      return Success(p);
    }

    method SubmitSignature(sid: nat, drawing: Drawing, elsewhere: set<nat>, now: int) returns (refusal: Option<Refusal>)
      requires Valid()
      modifies this
      ensures Valid() && Outcome(old(Rows()), Submit(slots, old(Rows()), sid, drawing, elsewhere, now), Rows(), refusal)
    {
      var context := Context(sid, now);
      if context.Failure? {
        return Some(context.error);
      }
      var p := context.value;
      var free := EnsureSequence(current, participants[p].slot);
      if !free {
        return Some(SequenceBlocked);
      }
      if p in signatures {
        return Some(AlreadySigned);
      }
      if !drawing.validPng {
        return Some(InvalidImage);
      }
      if !drawing.consentMatches {
        return Some(ConsentMismatch);
      }
      if drawing.image in elsewhere || exists q :: q in signatures && signatures[q].image == drawing.image {
        return Some(ImageReused);
      }
      signatures := signatures[p := Signature(current, versions[current].signingSha, drawing.image, now, None)];
      return None;
    }

    method ConfirmSignature(sid: nat, rendering: Rendering, now: int) returns (refusal: Option<Refusal>)
      requires Valid()
      modifies this
      ensures Valid() && Outcome(old(Rows()), Confirm(slots, old(Rows()), sid, rendering, now), Rows(), refusal)
    {
      var context := Context(sid, now);
      if context.Failure? {
        return Some(context.error);
      }
      var p := context.value;
      if p !in signatures {
        return Some(NotSubmitted);
      }
      signatures := signatures[p := signatures[p].(confirmedAt := Some(now))];
      sessions := sessions[sid := sessions[sid].(consumedAt := Some(now))];
      RefreshStatus(current, rendering, now);
      return None;
    }

    /** Recompute the status from the confirmed set; finalise the files when it becomes SIGNED. */
    method RefreshStatus(v: nat, rendering: Rendering, now: int)
      requires Valid() && v < |versions|
      modifies this`versions
      ensures Valid() && Rows() == Refresh(slots, old(Rows()), v, rendering, now)
    {
      var requiredCodes := RequiredCodes(slots);
      var confirmedIds := set p | p in signatures && signatures[p].version == v && signatures[p].confirmedAt.Some?;
      var anyRequired, allConfirmed := false, true;
      ghost var d := Rows();
      for p := 0 to |participants|
        invariant anyRequired == exists q :: 0 <= q < p && RequiredSigner(slots, d, v, q)
        invariant allConfirmed == forall q :: 0 <= q < p && RequiredSigner(slots, d, v, q) ==> Confirmed(d, q)
      {
        if participants[p].version == v && (requiredCodes == {} || participants[p].slot in requiredCodes) {
          assert RequiredSigner(slots, d, v, p);
          anyRequired := true;
          if !(p in signatures && signatures[p].confirmedAt.Some?) {
            assert !Confirmed(d, p);
            allConfirmed := false;
          }
        }
      }
      if anyRequired && allConfirmed {
        versions := versions[v := FinalizeFiles(versions[v].(status := Signed, finalizedAt := Some(now)), rendering)];
      } else if confirmedIds != {} {
        var someone :| someone in confirmedIds;
        assert Confirmed(d, someone);
        versions := versions[v := versions[v].(status := PartiallySigned)];
      } else {
        assert forall p :: p in d.signatures && d.signatures[p].version == v && Confirmed(d, p) ==> p in confirmedIds;
        versions := versions[v := versions[v].(status := Ready)];
      }
    }

    method RejectSignature(sid: nat, now: int) returns (refusal: Option<Refusal>)
      requires Valid()
      modifies this
      ensures Valid() && Outcome(old(Rows()), Reject(old(Rows()), sid, now), Rows(), refusal)
    {
      var context := Context(sid, now);
      if context.Failure? {
        return Some(context.error);
      }
      DropPending(context.value);
      sessions := sessions[sid := sessions[sid].(rejectedAt := Some(now))];
      return None;
    }
  }

  // ---------------------------------------------------------------- Building participants

  lemma {:induction false} FirstFailureDecides(slots: Slots, v: nat, inputs: seq<Input>, i: nat)
    requires i <= |inputs| && CheckedParticipants(slots, v, inputs[..i]).Failure?
    ensures CheckedParticipants(slots, v, inputs) == Failure(CheckedParticipants(slots, v, inputs[..i]).error)
    decreases |inputs|
  {
    if i == |inputs| {
      assert inputs[..i] == inputs;
    } else {
      var shorter := inputs[..|inputs| - 1];
      assert shorter[..i] == inputs[..i];
      FirstFailureDecides(slots, v, shorter, i);
    }
  }

  /** `_build_participants`: required slots first, then the inputs in order, then the unique constraint. */
  method BuildRows(slots: Slots, v: nat, inputs: seq<Input>) returns (r: Result<seq<Participant>, Refusal>)
    ensures r == BuildParticipants(slots, v, inputs)
  {
    if inputs == [] {
      return Success([]);
    }
    var missing := MissingRequired(slots, inputs);
    if missing != {} {
      return Failure(RequiredSlotsMissing);
    }
    r := CheckRows(slots, v, inputs);
    if r.Success? && !DistinctSlots(inputs) {
      return Failure(DuplicateSlot);
    }
  }

  method MissingRequired(slots: Slots, inputs: seq<Input>) returns (missing: set<string>)
    ensures missing == set code | code in RequiredCodes(slots) && !Supplied(inputs, code)
    ensures missing == {} <==> forall code :: code in RequiredCodes(slots) ==> Supplied(inputs, code)
  {
    var supplied: set<string> := {};
    for i := 0 to |inputs|
      invariant forall code :: code in supplied <==> exists j :: 0 <= j < i && inputs[j].slot == code
    {
      supplied := supplied + {inputs[i].slot};
    }
    assert forall code :: code in supplied <==> Supplied(inputs, code);
    missing := set code | code in slots && slots[code].active && slots[code].required && code !in supplied;
    forall code | code in RequiredCodes(slots) && !Supplied(inputs, code) ensures code in missing {
    }
  }

  method CheckRows(slots: Slots, v: nat, inputs: seq<Input>) returns (r: Result<seq<Participant>, Refusal>)
    ensures r == CheckedParticipants(slots, v, inputs)
  {
    var configured := Configured(slots);
    var added: seq<Participant> := [];
    for i := 0 to |inputs|
      invariant CheckedParticipants(slots, v, inputs[..i]) == Success(added)
    {
      var input := inputs[i];
      assert inputs[..i + 1][..i] == inputs[..i];
      if configured != map[] && input.slot !in configured {
        FirstFailureDecides(slots, v, inputs, i + 1);
        return Failure(UnknownSlot);
      }
      if !input.found {
        FirstFailureDecides(slots, v, inputs, i + 1);
        return Failure(ParticipantNotFound);
      }
      if input.slot in configured && configured[input.slot].allowed.Only?
        && configured[input.slot].allowed.kind != input.kind {
        FirstFailureDecides(slots, v, inputs, i + 1);
        return Failure(KindNotAllowed);
      }
      added := added + [Participant(v, input.slot, input.kind)];
    }
    assert inputs[..|inputs|] == inputs;
    return Success(added);
  }
}
