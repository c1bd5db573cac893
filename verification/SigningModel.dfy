/**
 The official-document signing protocol, as pure steps on one document.

 A `Dossier` holds every row that belongs to one official document: its numbered versions, the
 participants of those versions, their one-time signing sessions and their signatures. Rows are never
 deleted except pending signatures, so a row's id is its index; signatures are keyed by participant,
 which is their unique constraint. SHA-256 is modelled by free (injective) constructors.

 Each handler is a function from the committed rows to the rows it commits, or to its refusal.
 `SigningDesk` runs the same handlers imperatively.
 */
module SigningModel {
  import opened Wrappers

  datatype Mode = Parallel | Sequential
  datatype Kind = Internal | External
  datatype Allowed = AnyKind | Only(kind: Kind)

  datatype Slot = Slot(required: bool, allowed: Allowed, sequence: nat, mode: Mode, active: bool)

  /** The slots configured for one document type, by their unique code. */
  type Slots = map<string, Slot>

  datatype Digest =
    | OfFile(content: string)
    | OfSnapshot(snapshot: string)
    | OfSigning(number: string, docType: string, version: nat, snapshotSha: Digest,
                docxSha: Option<Digest>, pdfSha: Option<Digest>)

  datatype Status = Draft | Ready | PartiallySigned | Signed | Superseded | Cancelled

  datatype Version = Version(
    number: nat, status: Status, supersedes: Option<nat>,
    snapshot: string, snapshotSha: Digest, signingSha: Digest,
    docx: Option<string>, docxSha: Option<Digest>, pdf: Option<string>, pdfSha: Option<Digest>,
    finalizedAt: Option<int>)

  datatype Participant = Participant(version: nat, slot: string, kind: Kind)

  datatype Session = Session(participant: nat, expiresAt: int, consumedAt: Option<int>, rejectedAt: Option<int>)

  datatype Signature = Signature(version: nat, documentSha: Digest, image: nat, signedAt: int, confirmedAt: Option<int>)

  datatype Dossier = Dossier(
    number: string, docType: string, current: nat,
    versions: seq<Version>, participants: seq<Participant>,
    sessions: seq<Session>, signatures: map<nat, Signature>)

  /** A participant as supplied by the caller; `found` says that the user or signer exists and is active. */
  datatype Input = Input(slot: string, kind: Kind, found: bool)

  datatype Content = Content(snapshot: string, docx: Option<string>, pdf: Option<string>)

  /** What the document tool chain returns when the signed files are rendered. */
  datatype Rendering = Rendering(stampedDocx: string, converted: Option<string>, annexedPdf: string)

  /** A submitted drawing: its image digest and whether the image and the consent text are acceptable. */
  datatype Drawing = Drawing(image: nat, validPng: bool, consentMatches: bool)

  datatype Refusal =
    | RequiredSlotsMissing | UnknownSlot | ParticipantNotFound | KindNotAllowed | DuplicateSlot
    | ParticipantsImmutable | ParticipantsAlreadyAssigned
    | ApprovedRequestImmutable | NotCurrent | DocumentImmutable
    | NotSignable | AlreadySigned | SequenceBlocked
    | SessionNotFound | SessionClosed
    | InvalidImage | ConsentMismatch | ImageReused | NotSubmitted

  // ---------------------------------------------------------------- Row queries

  predicate Signable(status: Status) {
    status == Ready || status == PartiallySigned
  }

  predicate InVersion(d: Dossier, v: nat, p: nat) {
    p < |d.participants| && d.participants[p].version == v
  }

  predicate Confirmed(d: Dossier, p: nat) {
    p in d.signatures && d.signatures[p].confirmedAt.Some?
  }

  predicate Pending(d: Dossier, p: nat) {
    p in d.signatures && d.signatures[p].confirmedAt.None?
  }

  predicate CodeConfirmed(d: Dossier, v: nat, code: string) {
    exists p :: 0 <= p < |d.participants| && InVersion(d, v, p) && d.participants[p].slot == code && Confirmed(d, p)
  }

  function Configured(slots: Slots): Slots {
    map code | code in slots && slots[code].active :: slots[code]
  }

  function RequiredCodes(slots: Slots): set<string> {
    set code | code in slots && slots[code].required && slots[code].active
  }

  /** Without a single active required slot, every participant counts as required. */
  predicate RequiredSigner(slots: Slots, d: Dossier, v: nat, p: nat) {
    InVersion(d, v, p) && (RequiredCodes(slots) == {} || d.participants[p].slot in RequiredCodes(slots))
  }

  /** The lower required slots a sequential slot waits for. Inactive slots are not exempt. */
  predicate Precedes(slots: Slots, before: string, code: string) {
    && code in slots && slots[code].mode == Sequential
    && before in slots && slots[before].required && slots[before].sequence < slots[code].sequence
  }

  predicate SequenceOpen(slots: Slots, d: Dossier, v: nat, code: string) {
    forall before {:trigger CodeConfirmed(d, v, before)} :: before in slots && Precedes(slots, before, code) ==>
      CodeConfirmed(d, v, before)
  }

  predicate SessionIsOpen(s: Session, now: int) {
    s.expiresAt >= now && s.consumedAt.None? && s.rejectedAt.None?
  }

  predicate AllRequiredConfirmed(slots: Slots, d: Dossier, v: nat) {
    && (exists p :: 0 <= p < |d.participants| && RequiredSigner(slots, d, v, p))
    && (forall p :: 0 <= p < |d.participants| && RequiredSigner(slots, d, v, p) ==> Confirmed(d, p))
  }

  predicate SomeConfirmed(d: Dossier, v: nat) {
    exists p :: p in d.signatures && d.signatures[p].version == v && Confirmed(d, p)
  }

  /** The status the confirmed set of a version calls for. */
  function StatusOf(slots: Slots, d: Dossier, v: nat): Status {
    if AllRequiredConfirmed(slots, d, v) then Signed
    else if SomeConfirmed(d, v) then PartiallySigned
    else Ready
  }

  // ---------------------------------------------------------------- Participants and versions

  /** Without a single active slot, any slot code is accepted. */
  predicate SlotAccepted(slots: Slots, code: string) {
    Configured(slots) == map[] || code in Configured(slots)
  }

  function CheckedParticipants(slots: Slots, v: nat, inputs: seq<Input>): (r: Result<seq<Participant>, Refusal>)
    ensures r.Success? ==> |r.value| == |inputs|
  {
    if inputs == [] then Success([])
    else
      var earlier :- CheckedParticipants(slots, v, inputs[..|inputs| - 1]);
      var input := inputs[|inputs| - 1];
      var configured := Configured(slots);
      if !SlotAccepted(slots, input.slot) then Failure(UnknownSlot)
      else if !input.found then Failure(ParticipantNotFound)
      else if input.slot in configured && configured[input.slot].allowed.Only?
        && configured[input.slot].allowed.kind != input.kind
      then Failure(KindNotAllowed)
      else Success(earlier + [Participant(v, input.slot, input.kind)])
  }

  predicate Supplied(inputs: seq<Input>, code: string) {
    exists i :: 0 <= i < |inputs| && inputs[i].slot == code
  }

  predicate DistinctSlots(inputs: seq<Input>) {
    forall i, j :: 0 <= i < j < |inputs| ==> inputs[i].slot != inputs[j].slot
  }

  /** The rows `_build_participants` adds; the unique constraint on (version, slot) is checked last, by the flush. */
  function BuildParticipants(slots: Slots, v: nat, inputs: seq<Input>): Result<seq<Participant>, Refusal> {
    if inputs == [] then Success([])
    else if exists code :: code in RequiredCodes(slots) && !Supplied(inputs, code) then Failure(RequiredSlotsMissing)
    else
      var added :- CheckedParticipants(slots, v, inputs);
      if DistinctSlots(inputs) then Success(added) else Failure(DuplicateSlot)
  }

  function FileSha(content: Option<string>): Option<Digest> {
    if content.Some? then Some(OfFile(content.value)) else None
  }

  function NewVersion(number: string, docType: string, n: nat, supersedes: Option<nat>, content: Content,
                      ready: bool): Version {
    var docxSha, pdfSha := FileSha(content.docx), FileSha(content.pdf);
    Version(n, if ready then Ready else Draft, supersedes,
            content.snapshot, OfSnapshot(content.snapshot),
            OfSigning(number, docType, n, OfSnapshot(content.snapshot), docxSha, pdfSha),
            content.docx, docxSha, content.pdf, pdfSha, None)
  }

  function SetVersion(d: Dossier, v: nat, version: Version): Dossier
    requires v < |d.versions|
  {
    d.(versions := d.versions[v := version])
  }

  // ---------------------------------------------------------------- Handlers

  /** `create_official_document`, after the checks on the document number and type. */
  function Create(slots: Slots, number: string, docType: string, content: Content,
                  inputs: seq<Input>): Result<Dossier, Refusal> {
    var added :- BuildParticipants(slots, 0, inputs);
    var first := NewVersion(number, docType, 1, None, content, inputs != []);
    Success(Dossier(number, docType, 0, [first], added, [], map[]))
  }

  /** `assign_document_participants`. The request schema demands at least one participant. */
  function Assign(slots: Slots, d: Dossier, inputs: seq<Input>): Result<Dossier, Refusal>
    requires d.current < |d.versions|
    requires inputs != []
  {
    var v := d.current;
    if d.versions[v].status != Draft then Failure(ParticipantsImmutable)
    else if exists p :: 0 <= p < |d.participants| && InVersion(d, v, p) then Failure(ParticipantsAlreadyAssigned)
    else
      var added :- BuildParticipants(slots, v, inputs);
      Success(SetVersion(d, v, d.versions[v].(status := Ready)).(participants := d.participants + added))
  }

  /** `supersede_document`; `approved` says that an approval snapshot carries this document number. */
  function Supersede(slots: Slots, d: Dossier, approved: bool, content: Content, inputs: seq<Input>,
                     now: int): Result<Dossier, Refusal>
    requires d.current < |d.versions|
  {
    var v := d.current;
    var previous := d.versions[v];
    if approved then Failure(ApprovedRequestImmutable)
    else if previous.status == Superseded || previous.status == Cancelled then Failure(NotCurrent)
    else
      var added :- BuildParticipants(slots, |d.versions|, inputs);
      var finalizedAt := if previous.finalizedAt.Some? then previous.finalizedAt else Some(now);
      var closed := previous.(status := Superseded, finalizedAt := finalizedAt);
      var next := NewVersion(d.number, d.docType, previous.number + 1, Some(v), content, inputs != []);
      Success(d.(current := |d.versions|,
                 versions := d.versions[v := closed] + [next],
                 participants := d.participants + added))
  }

  function RejectOpenSessions(d: Dossier, v: nat, now: int): (r: seq<Session>)
    ensures |r| == |d.sessions|
  {
    seq(|d.sessions|, i requires 0 <= i < |d.sessions| =>
      var s := d.sessions[i];
      if InVersion(d, v, s.participant) && s.consumedAt.None? && s.rejectedAt.None?
      then s.(rejectedAt := Some(now))
      else s)
  }

  /** `cancel_document`. */
  function CancelDocument(d: Dossier, approved: bool, now: int): Result<Dossier, Refusal>
    requires d.current < |d.versions|
  {
    var v := d.current;
    var version := d.versions[v];
    if approved then Failure(ApprovedRequestImmutable)
    else if version.status in {Signed, Superseded, Cancelled} then Failure(DocumentImmutable)
    else
      Success(SetVersion(d, v, version.(status := Cancelled, finalizedAt := Some(now)))
              .(sessions := RejectOpenSessions(d, v, now)))
  }

  predicate CurrentSignable(d: Dossier, v: nat)
    requires d.current < |d.versions|
  {
    d.current == v && Signable(d.versions[v].status)
  }

  /** `create_signature_session`. */
  function OpenSession(slots: Slots, d: Dossier, p: nat, minutes: nat, now: int): Result<Dossier, Refusal>
    requires d.current < |d.versions|
  {
    if p >= |d.participants| then Failure(ParticipantNotFound)
    else
      var v := d.participants[p].version;
      if !CurrentSignable(d, v) then Failure(NotSignable)
      else if p in d.signatures then Failure(AlreadySigned)
      else if !SequenceOpen(slots, d, v, d.participants[p].slot) then Failure(SequenceBlocked)
      else Success(d.(sessions := d.sessions + [Session(p, now + minutes * 60_000_000, None, None)]))
  }

  /** `cancel_signature_session`: neither the expiry nor the version is looked at. */
  function CancelSession(d: Dossier, sid: nat, now: int): Result<Dossier, Refusal> {
    if sid >= |d.sessions| then Failure(SessionNotFound)
    else
      var s := d.sessions[sid];
      if s.consumedAt.Some? || s.rejectedAt.Some? then Failure(SessionClosed)
      else
        Success(d.(sessions := d.sessions[sid := s.(rejectedAt := Some(now))],
                   signatures := WithoutPending(d, s.participant)))
  }

  function WithoutPending(d: Dossier, p: nat): map<nat, Signature> {
    if Pending(d, p) then d.signatures - {p} else d.signatures
  }

  /** `_signing_context`: the session must be open and its version current and signable. */
  function SigningContext(d: Dossier, sid: nat, now: int): (r: Result<nat, Refusal>)
    requires d.current < |d.versions|
    ensures r.Success? ==>
              && sid < |d.sessions| && SessionIsOpen(d.sessions[sid], now)
              && r.value == d.sessions[sid].participant && r.value < |d.participants|
              && d.participants[r.value].version == d.current
              && Signable(d.versions[d.current].status)
  {
    if sid >= |d.sessions| then Failure(SessionNotFound)
    else if !SessionIsOpen(d.sessions[sid], now) then Failure(SessionClosed)
    else
      var p := d.sessions[sid].participant;
      if p >= |d.participants| || !CurrentSignable(d, d.participants[p].version) then Failure(SessionClosed)
      else Success(p)
  }

  function Images(d: Dossier): set<nat> {
    set p | p in d.signatures :: d.signatures[p].image
  }

  /** `submit_signature`; `elsewhere` holds the image digests stored for other documents. */
  function Submit(slots: Slots, d: Dossier, sid: nat, drawing: Drawing, elsewhere: set<nat>,
                  now: int): Result<Dossier, Refusal>
    requires d.current < |d.versions|
  {
    var p :- SigningContext(d, sid, now);
    if !SequenceOpen(slots, d, d.current, d.participants[p].slot) then Failure(SequenceBlocked)
    else if p in d.signatures then Failure(AlreadySigned)
    else if !drawing.validPng then Failure(InvalidImage)
    else if !drawing.consentMatches then Failure(ConsentMismatch)
    else if drawing.image in Images(d) || drawing.image in elsewhere then Failure(ImageReused)
    else
      var signature := Signature(d.current, d.versions[d.current].signingSha, drawing.image, now, None);
      Success(d.(signatures := d.signatures[p := signature]))
  }

  /** `_finalize_signed_files`: the digests follow the rewritten files, the signing digest stays. */
  function FinalizeFiles(version: Version, r: Rendering): Version {
    var docx := if version.docx.Some? then Some(r.stampedDocx) else None;
    var docxSha := if version.docx.Some? then Some(OfFile(r.stampedDocx)) else version.docxSha;
    var pdf :=
      if docx.Some? && r.converted.Some? then r.converted
      else if version.pdf.Some? then Some(r.annexedPdf)
      else None;
    version.(docx := docx, docxSha := docxSha, pdf := pdf, pdfSha := if pdf.Some? then FileSha(pdf) else version.pdfSha)
  }

  /** `_refresh_document_status`: recompute the status and, when it becomes SIGNED, finalise the files. */
  function Refresh(slots: Slots, d: Dossier, v: nat, rendering: Rendering, now: int): Dossier
    requires v < |d.versions|
  {
    var status := StatusOf(slots, d, v);
    var version := d.versions[v].(status := status);
    SetVersion(d, v, if status == Signed then FinalizeFiles(version.(finalizedAt := Some(now)), rendering) else version)
  }

  /** `confirm_signature`. */
  function Confirm(slots: Slots, d: Dossier, sid: nat, rendering: Rendering, now: int): Result<Dossier, Refusal>
    requires d.current < |d.versions|
  {
    var p :- SigningContext(d, sid, now);
    if p !in d.signatures then Failure(NotSubmitted)
    else Success(Refresh(slots, MarkConfirmed(d, sid, p, now), d.current, rendering, now))
  }

  function MarkConfirmed(d: Dossier, sid: nat, p: nat, now: int): Dossier
    requires sid < |d.sessions| && p in d.signatures
  {
    d.(sessions := d.sessions[sid := d.sessions[sid].(consumedAt := Some(now))],
       signatures := d.signatures[p := d.signatures[p].(confirmedAt := Some(now))])
  }

  /** `reject_signature`. */
  function Reject(d: Dossier, sid: nat, now: int): Result<Dossier, Refusal>
    requires d.current < |d.versions|
  {
    var p :- SigningContext(d, sid, now);
    Success(d.(sessions := d.sessions[sid := d.sessions[sid].(rejectedAt := Some(now))],
               signatures := WithoutPending(d, p)))
  }

  // ---------------------------------------------------------------- Steps and runs

  datatype Step =
    | AssignStep(inputs: seq<Input>)
    | SupersedeStep(approved: bool, content: Content, inputs: seq<Input>, now: int)
    | CancelDocumentStep(approved: bool, now: int)
    | OpenSessionStep(participant: nat, minutes: nat, now: int)
    | CancelSessionStep(sid: nat, now: int)
    | SubmitStep(sid: nat, drawing: Drawing, elsewhere: set<nat>, now: int)
    | ConfirmStep(sid: nat, rendering: Rendering, now: int)
    | RejectStep(sid: nat, now: int)

  /** What the request schemas let through: a non-empty participant list for an assignment. */
  predicate WellFormed(step: Step) {
    step.AssignStep? ==> step.inputs != []
  }

  function Do(slots: Slots, d: Dossier, step: Step): Result<Dossier, Refusal>
    requires d.current < |d.versions| && WellFormed(step)
  {
    match step
    case AssignStep(inputs) => Assign(slots, d, inputs)
    case SupersedeStep(approved, content, inputs, now) => Supersede(slots, d, approved, content, inputs, now)
    case CancelDocumentStep(approved, now) => CancelDocument(d, approved, now)
    case OpenSessionStep(p, minutes, now) => OpenSession(slots, d, p, minutes, now)
    case CancelSessionStep(sid, now) => CancelSession(d, sid, now)
    case SubmitStep(sid, drawing, elsewhere, now) => Submit(slots, d, sid, drawing, elsewhere, now)
    case ConfirmStep(sid, rendering, now) => Confirm(slots, d, sid, rendering, now)
    case RejectStep(sid, now) => Reject(d, sid, now)
  }

  /** A refused step rolls back. */
  function Next(slots: Slots, d: Dossier, step: Step): (r: Dossier)
    requires d.current < |d.versions| && WellFormed(step)
    ensures r.current < |r.versions|
  {
    var outcome := Do(slots, d, step);
    if outcome.Success? then outcome.value else d
  }

  predicate WellFormedRun(steps: seq<Step>) {
    forall i :: 0 <= i < |steps| ==> WellFormed(steps[i])
  }

  function Run(slots: Slots, d: Dossier, steps: seq<Step>): (r: Dossier)
    requires d.current < |d.versions| && WellFormedRun(steps)
    ensures r.current < |r.versions|
    decreases |steps|
  {
    if steps == [] then d else Next(slots, Run(slots, d, steps[..|steps| - 1]), steps[|steps| - 1])
  }
}
