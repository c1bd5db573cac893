/**
 What every reachable dossier satisfies, for a fixed slot configuration.
 */
module SigningInvariant {
  import opened Wrappers
  import opened SigningModel

  /** Foreign keys point at rows, and a signature names its participant's version. */
  ghost predicate References(d: Dossier) {
    && d.current < |d.versions|
    && (forall p :: 0 <= p < |d.participants| ==> d.participants[p].version < |d.versions|)
    && (forall s :: 0 <= s < |d.sessions| ==> d.sessions[s].participant < |d.participants|)
    && (forall p :: p in d.signatures ==> p < |d.participants| && d.signatures[p].version == d.participants[p].version)
  }

  /** Versions are numbered 1..n, the last one is current, exactly the others are superseded, each by the next. */
  ghost predicate Chain(d: Dossier) {
    && d.current == |d.versions| - 1
    && (forall i :: 0 <= i < |d.versions| ==>
          && d.versions[i].number == i + 1
          && d.versions[i].supersedes == (if i == 0 then None else Some((i - 1) as nat))
          && (d.versions[i].status == Superseded <==> i < |d.versions| - 1)
          && (d.versions[i].finalizedAt.Some? <==> d.versions[i].status in {Signed, Superseded, Cancelled}))
  }

  ghost predicate HasParticipants(d: Dossier, v: nat) {
    exists p :: 0 <= p < |d.participants| && InVersion(d, v, p)
  }

  ghost predicate HasCode(d: Dossier, v: nat, code: string) {
    exists p :: 0 <= p < |d.participants| && InVersion(d, v, p) && d.participants[p].slot == code
  }

  ghost predicate SamePlace(d: Dossier, p: nat, q: nat) {
    && p < |d.participants| && q < |d.participants|
    && d.participants[p].version == d.participants[q].version && d.participants[p].slot == d.participants[q].slot
  }

  /** One participant per slot; all accepted; every active required slot taken; drafts empty, opened versions not. */
  ghost predicate Roster(slots: Slots, d: Dossier) {
    && (forall p, q {:trigger SamePlace(d, p, q)} :: 0 <= p < q < |d.participants| ==> !SamePlace(d, p, q))
    && (forall p {:trigger SlotAccepted(slots, d.participants[p].slot)} ::
          0 <= p < |d.participants| ==> SlotAccepted(slots, d.participants[p].slot))
    && (forall v, code {:trigger HasCode(d, v, code)} ::
          0 <= v < |d.versions| && HasParticipants(d, v) && code in RequiredCodes(slots) ==> HasCode(d, v, code))
    && (forall v {:trigger HasParticipants(d, v)} :: 0 <= v < |d.versions| && d.versions[v].status == Draft ==>
          !HasParticipants(d, v))
    && (forall v {:trigger HasParticipants(d, v)} ::
          0 <= v < |d.versions| && (Signable(d.versions[v].status) || d.versions[v].status == Signed) ==>
            HasParticipants(d, v))
  }

  /** An open or signed current version carries the status its confirmed set calls for. */
  ghost predicate StatusAgrees(slots: Slots, d: Dossier)
    requires d.current < |d.versions|
  {
    var status := d.versions[d.current].status;
    Signable(status) || status == Signed ==> status == StatusOf(slots, d, d.current)
  }

  /** A participant holding a signature, confirmed or not, has every slot it waits for confirmed. */
  ghost predicate Ordered(slots: Slots, d: Dossier) {
    forall p {:trigger SequenceOpen(slots, d, d.participants[p].version, d.participants[p].slot)} ::
      p in d.signatures && p < |d.participants| ==>
        SequenceOpen(slots, d, d.participants[p].version, d.participants[p].slot)
  }

  ghost predicate HasLiveSession(d: Dossier, p: nat) {
    exists s :: 0 <= s < |d.sessions| && d.sessions[s].participant == p && d.sessions[s].consumedAt.None?
      && d.sessions[s].rejectedAt.None?
  }

  /** A pending signature on a version open for signing still has a live, possibly expired, session. */
  ghost predicate PendingIsLive(d: Dossier)
    requires d.current < |d.versions|
  {
    Signable(d.versions[d.current].status) ==>
      forall p {:trigger HasLiveSession(d, p)} ::
        0 <= p < |d.participants| && InVersion(d, d.current, p) && Pending(d, p) ==> HasLiveSession(d, p)
  }

  /** Stored digests match stored content, and signing digests bind number, type, version and original files. */
  ghost predicate DigestsHold(d: Dossier) {
    && (forall i {:trigger VersionDigests(d, d.versions[i])} :: 0 <= i < |d.versions| ==>
          VersionDigests(d, d.versions[i]))
    && (forall p :: p in d.signatures && d.signatures[p].version < |d.versions|
          ==> d.signatures[p].documentSha == d.versions[d.signatures[p].version].signingSha)
  }

  ghost predicate VersionDigests(d: Dossier, v: Version) {
    && v.snapshotSha == OfSnapshot(v.snapshot)
    && v.docxSha == FileSha(v.docx)
    && v.pdfSha == FileSha(v.pdf)
    && v.signingSha.OfSigning?
    && v.signingSha.number == d.number && v.signingSha.docType == d.docType && v.signingSha.version == v.number
    && v.signingSha.snapshotSha == v.snapshotSha
    && (v.finalizedAt.None? ==> v.signingSha.docxSha == v.docxSha && v.signingSha.pdfSha == v.pdfSha)
  }

  /** No two signatures of the document share an image. */
  ghost predicate ImagesDistinct(d: Dossier) {
    forall p, q :: p in d.signatures && q in d.signatures && p != q ==> d.signatures[p].image != d.signatures[q].image
  }

  ghost predicate Inv(slots: Slots, d: Dossier) {
    && References(d) && Chain(d) && Roster(slots, d) && StatusAgrees(slots, d)
    && Ordered(slots, d) && PendingIsLive(d) && DigestsHold(d) && ImagesDistinct(d)
  }

  // ---------------------------------------------------------------- Building participants

  lemma {:induction false} CheckedParticipantsShape(slots: Slots, v: nat, inputs: seq<Input>)
    requires CheckedParticipants(slots, v, inputs).Success?
    ensures var added := CheckedParticipants(slots, v, inputs).value;
            forall i :: 0 <= i < |added| ==>
              && added[i] == Participant(v, inputs[i].slot, inputs[i].kind)
              && SlotAccepted(slots, inputs[i].slot)
  {
    if inputs != [] {
      CheckedParticipantsShape(slots, v, inputs[..|inputs| - 1]);
    }
  }

  /** The participants of one opened version: one per slot, all configured, every active required slot taken. */
  ghost predicate GoodRoster(slots: Slots, v: nat, added: seq<Participant>) {
    && (forall i :: 0 <= i < |added| ==> added[i].version == v && SlotAccepted(slots, added[i].slot))
    && (forall i, j :: 0 <= i < j < |added| ==> added[i].slot != added[j].slot)
    && (added != [] ==> forall code :: code in RequiredCodes(slots) ==>
          exists i :: 0 <= i < |added| && added[i].slot == code)
  }

  lemma BuildParticipantsIsGood(slots: Slots, v: nat, inputs: seq<Input>)
    requires BuildParticipants(slots, v, inputs).Success?
    ensures GoodRoster(slots, v, BuildParticipants(slots, v, inputs).value)
    ensures |BuildParticipants(slots, v, inputs).value| == |inputs|
  {
    if inputs != [] {
      CheckedParticipantsShape(slots, v, inputs);
      var added := BuildParticipants(slots, v, inputs).value;
      forall code | code in RequiredCodes(slots) ensures exists i :: 0 <= i < |added| && added[i].slot == code {
        assert Supplied(inputs, code);
        var i :| 0 <= i < |inputs| && inputs[i].slot == code;
        assert added[i].slot == code;
      }
    }
  }

  // ---------------------------------------------------------------- Frames

  /** Queries on a version look only at its participants and their signatures. */
  ghost predicate SameSigners(d: Dossier, e: Dossier, v: nat) {
    && |d.participants| <= |e.participants|
    && (forall p :: 0 <= p < |d.participants| ==> e.participants[p] == d.participants[p])
    && (forall p :: |d.participants| <= p < |e.participants| ==> e.participants[p].version != v)
    && (forall p :: 0 <= p < |d.participants| && InVersion(d, v, p) ==>
          (p in d.signatures <==> p in e.signatures) && (p in d.signatures ==> d.signatures[p] == e.signatures[p]))
  }

  lemma SameCode(d: Dossier, e: Dossier, v: nat, code: string)
    requires SameSigners(d, e, v)
    ensures CodeConfirmed(d, v, code) <==> CodeConfirmed(e, v, code)
  {
    if CodeConfirmed(d, v, code) {
      var p :| 0 <= p < |d.participants| && InVersion(d, v, p) && d.participants[p].slot == code && Confirmed(d, p);
      assert InVersion(e, v, p) && Confirmed(e, p);
    }
    if CodeConfirmed(e, v, code) {
      var p :| 0 <= p < |e.participants| && InVersion(e, v, p) && e.participants[p].slot == code && Confirmed(e, p);
      assert InVersion(d, v, p) && Confirmed(d, p);
    }
  }

  lemma SameSequence(slots: Slots, d: Dossier, e: Dossier, v: nat, code: string)
    requires SameSigners(d, e, v)
    ensures SequenceOpen(slots, d, v, code) <==> SequenceOpen(slots, e, v, code)
  {
    forall before | before in slots ensures CodeConfirmed(d, v, before) <==> CodeConfirmed(e, v, before) {
      SameCode(d, e, v, before);
    }
  }

  /** The confirmed participants of a version, which is all its status depends on. */
  ghost predicate SameConfirmed(d: Dossier, e: Dossier, v: nat) {
    && d.participants == e.participants
    && (forall p :: 0 <= p < |d.participants| && InVersion(d, v, p) ==> (Confirmed(d, p) <==> Confirmed(e, p)))
  }

  lemma SomeConfirmedMeans(d: Dossier, v: nat)
    requires References(d)
    ensures SomeConfirmed(d, v) <==> exists p :: 0 <= p < |d.participants| && InVersion(d, v, p) && Confirmed(d, p)
  {
    if SomeConfirmed(d, v) {
      var p :| p in d.signatures && d.signatures[p].version == v && Confirmed(d, p);
      assert InVersion(d, v, p);
    }
  }

  lemma SameStatus(slots: Slots, d: Dossier, e: Dossier, v: nat)
    requires References(d) && References(e) && SameConfirmed(d, e, v)
    ensures StatusOf(slots, d, v) == StatusOf(slots, e, v)
  {
    SomeConfirmedMeans(d, v);
    SomeConfirmedMeans(e, v);
    assert forall p :: 0 <= p < |d.participants| ==>
      (RequiredSigner(slots, d, v, p) <==> RequiredSigner(slots, e, v, p));
    assert AllRequiredConfirmed(slots, d, v) <==> AllRequiredConfirmed(slots, e, v);
    assert (exists p :: 0 <= p < |d.participants| && InVersion(d, v, p) && Confirmed(d, p)) <==>
           (exists p :: 0 <= p < |e.participants| && InVersion(e, v, p) && Confirmed(e, p));
  }

  /** Signatures may be added and confirmed; what was confirmed stays, so what was open in sequence stays open. */
  lemma SequenceStaysOpen(slots: Slots, d: Dossier, e: Dossier, v: nat, code: string)
    requires |d.participants| <= |e.participants|
    requires forall p :: 0 <= p < |d.participants| ==> e.participants[p] == d.participants[p]
    requires forall p :: Confirmed(d, p) ==> Confirmed(e, p)
    requires SequenceOpen(slots, d, v, code)
    ensures SequenceOpen(slots, e, v, code)
  {
    forall before | before in slots && Precedes(slots, before, code) ensures CodeConfirmed(e, v, before) {
      assert CodeConfirmed(d, v, before);
      var p :| 0 <= p < |d.participants| && InVersion(d, v, p) && d.participants[p].slot == before && Confirmed(d, p);
      assert InVersion(e, v, p) && Confirmed(e, p);
    }
  }

  lemma OrderedStays(slots: Slots, d: Dossier, e: Dossier)
    requires References(d) && Ordered(slots, d)
    requires |d.participants| <= |e.participants|
    requires forall p :: 0 <= p < |d.participants| ==> e.participants[p] == d.participants[p]
    requires forall p :: Confirmed(d, p) ==> Confirmed(e, p)
    requires e.signatures.Keys <= d.signatures.Keys
    ensures Ordered(slots, e)
  {
    forall p | p in e.signatures && p < |e.participants|
      ensures SequenceOpen(slots, e, e.participants[p].version, e.participants[p].slot)
    {
      SequenceStaysOpen(slots, d, e, d.participants[p].version, d.participants[p].slot);
    }
  }

  /** Steps that touch only sessions, pending signatures and confirmations keep the roster. */
  lemma RosterStays(slots: Slots, d: Dossier, e: Dossier)
    requires Roster(slots, d)
    requires e.participants == d.participants && |e.versions| == |d.versions|
    requires forall v :: 0 <= v < |d.versions| ==>
               && (e.versions[v].status == Draft ==> d.versions[v].status == Draft)
               && (Signable(e.versions[v].status) || e.versions[v].status == Signed ==>
                     Signable(d.versions[v].status) || d.versions[v].status == Signed)
    ensures Roster(slots, e)
  {
    forall p: nat, q: nat | 0 <= p < q < |e.participants| ensures !SamePlace(e, p, q) {
      assert !SamePlace(d, p, q);
    }
    forall p | 0 <= p < |e.participants| ensures SlotAccepted(slots, e.participants[p].slot) {
      assert SlotAccepted(slots, d.participants[p].slot);
    }
    forall v | 0 <= v < |d.versions| ensures HasParticipants(d, v) <==> HasParticipants(e, v) {
      if HasParticipants(d, v) {
        var p :| 0 <= p < |d.participants| && InVersion(d, v, p);
        assert InVersion(e, v, p);
      }
      if HasParticipants(e, v) {
        var p :| 0 <= p < |e.participants| && InVersion(e, v, p);
        assert InVersion(d, v, p);
      }
    }
    forall v, code | 0 <= v < |e.versions| && HasParticipants(e, v) && code in RequiredCodes(slots)
      ensures HasCode(e, v, code)
    {
      assert HasCode(d, v, code);
      var p :| 0 <= p < |d.participants| && InVersion(d, v, p) && d.participants[p].slot == code;
      assert InVersion(e, v, p);
    }
  }

  /** Adding the participants of a version that had none. */
  lemma RosterGrows(slots: Slots, d: Dossier, v: nat, added: seq<Participant>, e: Dossier)
    requires References(d) && Roster(slots, d) && GoodRoster(slots, v, added)
    requires !HasParticipants(d, v)
    requires e.participants == d.participants + added && |d.versions| <= |e.versions| && v < |e.versions|
    requires forall u :: 0 <= u < |d.versions| && u != v ==>
      e.versions[u] == d.versions[u] || e.versions[u].status == Superseded
    requires |e.versions| <= |d.versions| + 1 && (|e.versions| == |d.versions| + 1 ==> v == |d.versions|)
    requires e.versions[v].status == (if added == [] then Draft else Ready)
    ensures Roster(slots, e)
  {
    forall u | 0 <= u < |e.versions|
      ensures HasParticipants(e, u) <==> (if u == v then added != [] else HasParticipants(d, u))
    {
      GrownParticipants(d, v, added, e, u);
    }
    GrownSlots(slots, d, v, added, e);
    forall u, code | 0 <= u < |e.versions| && HasParticipants(e, u) && code in RequiredCodes(slots)
      ensures HasCode(e, u, code)
    {
      GrownCode(slots, d, v, added, e, u, code);
    }
  }

  lemma GrownParticipants(d: Dossier, v: nat, added: seq<Participant>, e: Dossier, u: nat)
    requires !HasParticipants(d, v) && e.participants == d.participants + added
    requires forall i :: 0 <= i < |added| ==> added[i].version == v
    ensures HasParticipants(e, u) <==> (if u == v then added != [] else HasParticipants(d, u))
  {
    if HasParticipants(e, u) {
      var p :| 0 <= p < |e.participants| && InVersion(e, u, p);
      assert p < |d.participants| ==> InVersion(d, u, p);
    }
    if u == v && added != [] {
      assert InVersion(e, u, |d.participants|);
    }
    if u != v && HasParticipants(d, u) {
      var p :| 0 <= p < |d.participants| && InVersion(d, u, p);
      assert InVersion(e, u, p);
    }
  }

  lemma GrownSlots(slots: Slots, d: Dossier, v: nat, added: seq<Participant>, e: Dossier)
    requires Roster(slots, d) && GoodRoster(slots, v, added)
    requires !HasParticipants(d, v) && e.participants == d.participants + added
    ensures forall p, q :: 0 <= p < q < |e.participants| ==> !SamePlace(e, p, q)
    ensures forall p :: 0 <= p < |e.participants| ==> SlotAccepted(slots, e.participants[p].slot)
  {
    forall p: nat, q: nat | 0 <= p < q < |e.participants| ensures !SamePlace(e, p, q) {
      if q < |d.participants| {
        assert !SamePlace(d, p, q);
      } else {
        assert p < |d.participants| ==> !InVersion(d, v, p);
      }
    }
    forall p | 0 <= p < |e.participants| ensures SlotAccepted(slots, e.participants[p].slot) {
      assert p < |d.participants| ==> SlotAccepted(slots, d.participants[p].slot);
    }
  }

  lemma GrownCode(slots: Slots, d: Dossier, v: nat, added: seq<Participant>, e: Dossier, u: nat, code: string)
    requires Roster(slots, d) && GoodRoster(slots, v, added)
    requires e.participants == d.participants + added && code in RequiredCodes(slots)
    requires if u == v then added != [] else u < |d.versions| && HasParticipants(d, u)
    ensures HasCode(e, u, code)
  {
    if u == v {
      var i :| 0 <= i < |added| && added[i].slot == code;
      assert InVersion(e, v, |d.participants| + i);
    } else {
      assert HasCode(d, u, code);
      var p :| 0 <= p < |d.participants| && InVersion(d, u, p) && d.participants[p].slot == code;
      assert InVersion(e, u, p);
    }
  }

  ghost predicate KeepsDigests(v: Version, w: Version) {
    && w.number == v.number && w.snapshot == v.snapshot && w.snapshotSha == v.snapshotSha
       && w.signingSha == v.signingSha
    && (w.finalizedAt.None? ==> v.finalizedAt.None?)
    && ((w.docx, w.docxSha, w.pdf, w.pdfSha) == (v.docx, v.docxSha, v.pdf, v.pdfSha)
        || (w.finalizedAt.Some? && w.docxSha == FileSha(w.docx) && w.pdfSha == FileSha(w.pdf)))
  }

  lemma DigestsStay(d: Dossier, e: Dossier)
    requires DigestsHold(d) && e.number == d.number && e.docType == d.docType && |d.versions| <= |e.versions|
    requires forall i :: 0 <= i < |d.versions| ==> KeepsDigests(d.versions[i], e.versions[i])
    requires forall i :: |d.versions| <= i < |e.versions| ==> VersionDigests(e, e.versions[i])
    requires forall p :: p in e.signatures && e.signatures[p].version < |e.versions|
               ==> e.signatures[p].documentSha == e.versions[e.signatures[p].version].signingSha
    ensures DigestsHold(e)
  {
    forall i | 0 <= i < |e.versions| ensures VersionDigests(e, e.versions[i]) {
      assert i < |d.versions| ==> VersionDigests(d, d.versions[i]);
    }
  }

  /** Sessions change freely and pending signatures may go; nothing else moves. */
  ghost predicate OnlyCloses(d: Dossier, e: Dossier) {
    && e == d.(sessions := e.sessions, signatures := e.signatures)
    && e.signatures.Keys <= d.signatures.Keys
    && (forall p :: p in e.signatures ==> e.signatures[p] == d.signatures[p])
    && (forall p :: Confirmed(d, p) ==> p in e.signatures)
  }

  lemma ClosingFrame(slots: Slots, d: Dossier, e: Dossier)
    requires References(d) && Chain(d) && Roster(slots, d) && Ordered(slots, d) && DigestsHold(d) && ImagesDistinct(d)
    requires OnlyCloses(d, e)
    requires forall s :: 0 <= s < |e.sessions| ==> e.sessions[s].participant < |d.participants|
    ensures References(e) && Chain(e) && Roster(slots, e) && Ordered(slots, e) && DigestsHold(e) && ImagesDistinct(e)
  {
    DigestsStay(d, e);
    RosterStays(slots, d, e);
    OrderedStays(slots, d, e);
  }

  lemma ClosingStatus(slots: Slots, d: Dossier, e: Dossier)
    requires References(d) && References(e) && StatusAgrees(slots, d) && OnlyCloses(d, e)
    ensures StatusAgrees(slots, e)
  {
    SameStatus(slots, d, e, d.current);
  }

  /** Sessions may be added, and those of the participants in `gone` may close. */
  lemma LiveSessionsStay(d: Dossier, e: Dossier, gone: set<nat>)
    requires References(d) && PendingIsLive(d) && e.current == d.current < |e.versions|
    requires e.participants == d.participants
    requires Signable(e.versions[e.current].status) ==> Signable(d.versions[d.current].status)
    requires |d.sessions| <= |e.sessions|
    requires forall s :: 0 <= s < |d.sessions| && d.sessions[s].participant !in gone ==> e.sessions[s] == d.sessions[s]
    requires forall p :: 0 <= p < |d.participants| && Pending(e, p) ==> p !in gone && Pending(d, p)
    ensures PendingIsLive(e)
  {
    if Signable(e.versions[e.current].status) {
      forall p | 0 <= p < |e.participants| && InVersion(e, e.current, p) && Pending(e, p) ensures HasLiveSession(e, p) {
        assert InVersion(d, d.current, p);
        assert HasLiveSession(d, p);
        var s :| 0 <= s < |d.sessions| && d.sessions[s].participant == p && d.sessions[s].consumedAt.None?
          && d.sessions[s].rejectedAt.None?;
        assert e.sessions[s] == d.sessions[s];
      }
    }
  }

  /** A version none of whose participants is confirmed calls for READY. */
  lemma NothingConfirmed(slots: Slots, d: Dossier, v: nat)
    requires References(d)
    requires forall p :: 0 <= p < |d.participants| && InVersion(d, v, p) ==> !Confirmed(d, p)
    ensures StatusOf(slots, d, v) == Ready
  {
    SomeConfirmedMeans(d, v);
  }

  // ---------------------------------------------------------------- Each step keeps the invariant

  lemma CreateEstablishes(slots: Slots, number: string, docType: string, content: Content, inputs: seq<Input>)
    requires Create(slots, number, docType, content, inputs).Success?
    ensures Inv(slots, Create(slots, number, docType, content, inputs).value)
  {
    var d := Create(slots, number, docType, content, inputs).value;
    var added := BuildParticipants(slots, 0, inputs).value;
    BuildParticipantsIsGood(slots, 0, inputs);
    CreateRoster(slots, added, d);
    NothingConfirmed(slots, d, 0);
  }

  lemma CreateRoster(slots: Slots, added: seq<Participant>, d: Dossier)
    requires GoodRoster(slots, 0, added) && d.participants == added && |d.versions| == 1
    requires d.versions[0].status == (if added == [] then Draft else Ready)
    ensures Roster(slots, d)
  {
    if added != [] {
      assert InVersion(d, 0, 0);
    }
    forall code | HasParticipants(d, 0) && code in RequiredCodes(slots) ensures HasCode(d, 0, code) {
      var i :| 0 <= i < |added| && added[i].slot == code;
      assert InVersion(d, 0, i);
    }
  }

  lemma AssignKeeps(slots: Slots, d: Dossier, inputs: seq<Input>)
    requires Inv(slots, d) && inputs != [] && Assign(slots, d, inputs).Success?
    ensures Inv(slots, Assign(slots, d, inputs).value)
  {
    var e := Assign(slots, d, inputs).value;
    var v := d.current;
    BuildParticipantsIsGood(slots, v, inputs);
    var added := BuildParticipants(slots, v, inputs).value;
    assert !HasParticipants(d, v);
    RosterGrows(slots, d, v, added, e);
    NoSignatures(d, e, v);
    OrderedStays(slots, d, e);
    DigestsStay(d, e);
    NothingConfirmed(slots, e, v);
  }

  /** A version that had no participants has no signatures either, and none pending. */
  lemma NoSignatures(d: Dossier, e: Dossier, v: nat)
    requires References(d) && !HasParticipants(d, v)
    requires |d.participants| <= |e.participants| && e.signatures == d.signatures && e.current == v < |e.versions|
    requires forall p :: 0 <= p < |d.participants| ==> e.participants[p] == d.participants[p]
    ensures forall p :: 0 <= p < |e.participants| && InVersion(e, v, p) ==> !Confirmed(e, p)
    ensures PendingIsLive(e)
  {
    forall p | 0 <= p < |e.participants| && InVersion(e, v, p) ensures p !in e.signatures {
      if p in d.signatures {
        assert InVersion(d, v, p);
      }
    }
  }

  lemma SupersedeKeeps(slots: Slots, d: Dossier, approved: bool, content: Content, inputs: seq<Input>, now: int)
    requires Inv(slots, d) && Supersede(slots, d, approved, content, inputs, now).Success?
    ensures Inv(slots, Supersede(slots, d, approved, content, inputs, now).value)
  {
    var e := Supersede(slots, d, approved, content, inputs, now).value;
    var v := |d.versions|;
    var added := BuildParticipants(slots, v, inputs).value;
    BuildParticipantsIsGood(slots, v, inputs);
    assert !HasParticipants(d, v);
    SupersedeRows(slots, d, approved, content, inputs, now);
    RosterGrows(slots, d, v, added, e);
    NoSignatures(d, e, v);
    OrderedStays(slots, d, e);
    NothingConfirmed(slots, e, v);
  }

  lemma SupersedeRows(slots: Slots, d: Dossier, approved: bool, content: Content, inputs: seq<Input>, now: int)
    requires References(d) && Chain(d) && DigestsHold(d) && ImagesDistinct(d)
    requires Supersede(slots, d, approved, content, inputs, now).Success?
    requires GoodRoster(slots, |d.versions|, BuildParticipants(slots, |d.versions|, inputs).value)
    ensures var e := Supersede(slots, d, approved, content, inputs, now).value;
            References(e) && Chain(e) && DigestsHold(e) && ImagesDistinct(e)
  {
    var e := Supersede(slots, d, approved, content, inputs, now).value;
    assert VersionDigests(e, e.versions[|d.versions|]);
    DigestsStay(d, e);
  }

  lemma CancelDocumentKeeps(slots: Slots, d: Dossier, approved: bool, now: int)
    requires Inv(slots, d) && CancelDocument(d, approved, now).Success?
    ensures Inv(slots, CancelDocument(d, approved, now).value)
  {
    var e := CancelDocument(d, approved, now).value;
    RosterStays(slots, d, e);
    DigestsStay(d, e);
    OrderedStays(slots, d, e);
  }

  lemma OpenSessionKeeps(slots: Slots, d: Dossier, p: nat, minutes: nat, now: int)
    requires Inv(slots, d) && OpenSession(slots, d, p, minutes, now).Success?
    ensures Inv(slots, OpenSession(slots, d, p, minutes, now).value)
  {
    var e := OpenSession(slots, d, p, minutes, now).value;
    ClosingFrame(slots, d, e);
    ClosingStatus(slots, d, e);
    LiveSessionsStay(d, e, {});
  }

  /** Closing a session together with its participant's pending signature. */
  lemma ClosingKeeps(slots: Slots, d: Dossier, sid: nat, closed: Session, e: Dossier)
    requires Inv(slots, d) && sid < |d.sessions| && closed.participant == d.sessions[sid].participant
    requires e == d.(sessions := d.sessions[sid := closed], signatures := WithoutPending(d, closed.participant))
    ensures Inv(slots, e)
  {
    ClosingShape(d, sid, closed, e);
    ClosingFrame(slots, d, e);
    ClosingStatus(slots, d, e);
  }

  lemma ClosingShape(d: Dossier, sid: nat, closed: Session, e: Dossier)
    requires References(d) && PendingIsLive(d) && sid < |d.sessions|
    requires closed.participant == d.sessions[sid].participant
    requires e == d.(sessions := d.sessions[sid := closed], signatures := WithoutPending(d, closed.participant))
    ensures OnlyCloses(d, e) && PendingIsLive(e)
    ensures forall s :: 0 <= s < |e.sessions| ==> e.sessions[s].participant < |d.participants|
  {
    LiveSessionsStay(d, e, {closed.participant});
  }

  lemma CancelSessionKeeps(slots: Slots, d: Dossier, sid: nat, now: int)
    requires Inv(slots, d) && CancelSession(d, sid, now).Success?
    ensures Inv(slots, CancelSession(d, sid, now).value)
  {
    ClosingKeeps(slots, d, sid, d.sessions[sid].(rejectedAt := Some(now)), CancelSession(d, sid, now).value);
  }

  lemma RejectKeeps(slots: Slots, d: Dossier, sid: nat, now: int)
    requires Inv(slots, d) && Reject(d, sid, now).Success?
    ensures Inv(slots, Reject(d, sid, now).value)
  {
    ClosingKeeps(slots, d, sid, d.sessions[sid].(rejectedAt := Some(now)), Reject(d, sid, now).value);
  }

  lemma SubmitKeeps(slots: Slots, d: Dossier, sid: nat, drawing: Drawing, elsewhere: set<nat>, now: int)
    requires Inv(slots, d) && Submit(slots, d, sid, drawing, elsewhere, now).Success?
    ensures Inv(slots, Submit(slots, d, sid, drawing, elsewhere, now).value)
  {
    var e := Submit(slots, d, sid, drawing, elsewhere, now).value;
    SubmitRows(slots, d, sid, drawing, elsewhere, now);
    SubmitOpen(slots, d, sid, drawing, elsewhere, now);
    SubmitOrdered(slots, d, sid, drawing, elsewhere, now);
    SubmitLive(slots, d, sid, drawing, elsewhere, now);
  }

  lemma SubmitOpen(slots: Slots, d: Dossier, sid: nat, drawing: Drawing, elsewhere: set<nat>, now: int)
    requires References(d) && Chain(d) && Roster(slots, d) && StatusAgrees(slots, d)
    requires Submit(slots, d, sid, drawing, elsewhere, now).Success?
    ensures var e := Submit(slots, d, sid, drawing, elsewhere, now).value;
            References(e) && Chain(e) && Roster(slots, e) && StatusAgrees(slots, e)
  {
    var e := Submit(slots, d, sid, drawing, elsewhere, now).value;
    RosterStays(slots, d, e);
    SameStatus(slots, d, e, d.current);
  }

  lemma SubmitRows(slots: Slots, d: Dossier, sid: nat, drawing: Drawing, elsewhere: set<nat>, now: int)
    requires References(d) && DigestsHold(d) && ImagesDistinct(d)
    requires Submit(slots, d, sid, drawing, elsewhere, now).Success?
    ensures var e := Submit(slots, d, sid, drawing, elsewhere, now).value;
            References(e) && DigestsHold(e) && ImagesDistinct(e)
  {
    DigestsStay(d, Submit(slots, d, sid, drawing, elsewhere, now).value);
    assert forall q :: q in d.signatures ==> d.signatures[q].image in Images(d);
  }

  lemma SubmitOrdered(slots: Slots, d: Dossier, sid: nat, drawing: Drawing, elsewhere: set<nat>, now: int)
    requires References(d) && Ordered(slots, d)
    requires Submit(slots, d, sid, drawing, elsewhere, now).Success?
    ensures Ordered(slots, Submit(slots, d, sid, drawing, elsewhere, now).value)
  {
    var e := Submit(slots, d, sid, drawing, elsewhere, now).value;
    forall q | q in e.signatures && q < |e.participants|
      ensures SequenceOpen(slots, e, e.participants[q].version, e.participants[q].slot)
    {
      SequenceStaysOpen(slots, d, e, d.participants[q].version, d.participants[q].slot);
    }
  }

  lemma SubmitLive(slots: Slots, d: Dossier, sid: nat, drawing: Drawing, elsewhere: set<nat>, now: int)
    requires References(d) && PendingIsLive(d)
    requires Submit(slots, d, sid, drawing, elsewhere, now).Success?
    ensures PendingIsLive(Submit(slots, d, sid, drawing, elsewhere, now).value)
  {
    var e := Submit(slots, d, sid, drawing, elsewhere, now).value;
    forall q | 0 <= q < |e.participants| && InVersion(e, e.current, q) && Pending(e, q) ensures HasLiveSession(e, q) {
      if q == d.sessions[sid].participant {
        assert e.sessions[sid].participant == q;
      } else {
        assert InVersion(d, d.current, q) && Pending(d, q);
        assert HasLiveSession(d, q);
      }
    }
  }

  lemma ConfirmKeeps(slots: Slots, d: Dossier, sid: nat, rendering: Rendering, now: int)
    requires Inv(slots, d) && Confirm(slots, d, sid, rendering, now).Success?
    ensures Inv(slots, Confirm(slots, d, sid, rendering, now).value)
  {
    ConfirmChain(slots, d, sid, rendering, now);
    ConfirmDigests(slots, d, sid, rendering, now);
    ConfirmImages(slots, d, sid, rendering, now);
    ConfirmStatus(slots, d, sid, rendering, now);
    ConfirmRoster(slots, d, sid, rendering, now);
    ConfirmLive(slots, d, sid, rendering, now);
  }

  lemma ConfirmRoster(slots: Slots, d: Dossier, sid: nat, rendering: Rendering, now: int)
    requires References(d) && Roster(slots, d) && Ordered(slots, d)
    requires Confirm(slots, d, sid, rendering, now).Success?
    ensures Roster(slots, Confirm(slots, d, sid, rendering, now).value)
    ensures Ordered(slots, Confirm(slots, d, sid, rendering, now).value)
  {
    var e := Confirm(slots, d, sid, rendering, now).value;
    ConfirmStatus(slots, d, sid, rendering, now);
    RosterStays(slots, d, e);
    OrderedStays(slots, d, e);
  }

  lemma ConfirmLive(slots: Slots, d: Dossier, sid: nat, rendering: Rendering, now: int)
    requires References(d) && PendingIsLive(d)
    requires Confirm(slots, d, sid, rendering, now).Success?
    ensures PendingIsLive(Confirm(slots, d, sid, rendering, now).value)
  {
    LiveSessionsStay(d, Confirm(slots, d, sid, rendering, now).value, {d.sessions[sid].participant});
  }

  lemma ConfirmStatus(slots: Slots, d: Dossier, sid: nat, rendering: Rendering, now: int)
    requires References(d) && Confirm(slots, d, sid, rendering, now).Success?
    ensures var e := Confirm(slots, d, sid, rendering, now).value;
            && References(e)
            && e.versions[e.current].status == StatusOf(slots, e, e.current)
            && e.versions[e.current].status in {Signed, PartiallySigned}
  {
    var p := d.sessions[sid].participant;
    var m := MarkConfirmed(d, sid, p, now);
    var e := Refresh(slots, m, d.current, rendering, now);
    assert Confirmed(m, p) && m.signatures[p].version == d.current;
    SameStatus(slots, m, e, d.current);
  }

  lemma ConfirmChain(slots: Slots, d: Dossier, sid: nat, rendering: Rendering, now: int)
    requires References(d) && Chain(d) && Confirm(slots, d, sid, rendering, now).Success?
    ensures Chain(Confirm(slots, d, sid, rendering, now).value)
  {
    hide StatusOf;
    ConfirmStatus(slots, d, sid, rendering, now);
  }

  lemma ConfirmDigests(slots: Slots, d: Dossier, sid: nat, rendering: Rendering, now: int)
    requires References(d) && DigestsHold(d) && Confirm(slots, d, sid, rendering, now).Success?
    ensures DigestsHold(Confirm(slots, d, sid, rendering, now).value)
  {
    hide StatusOf;
    var e := Confirm(slots, d, sid, rendering, now).value;
    assert VersionDigests(d, d.versions[d.current]);
    DigestsStay(d, e);
  }

  lemma ConfirmImages(slots: Slots, d: Dossier, sid: nat, rendering: Rendering, now: int)
    requires References(d) && ImagesDistinct(d) && Confirm(slots, d, sid, rendering, now).Success?
    ensures ImagesDistinct(Confirm(slots, d, sid, rendering, now).value)
  {
    hide StatusOf;
  }

  /** Every step, accepted or refused, keeps the invariant. */
  lemma StepKeeps(slots: Slots, d: Dossier, step: Step)
    requires Inv(slots, d) && WellFormed(step)
    ensures Inv(slots, Next(slots, d, step))
  {
    if Do(slots, d, step).Success? {
      match step
      case AssignStep(inputs) => AssignKeeps(slots, d, inputs);
      case SupersedeStep(approved, content, inputs, now) => SupersedeKeeps(slots, d, approved, content, inputs, now);
      case CancelDocumentStep(approved, now) => CancelDocumentKeeps(slots, d, approved, now);
      case OpenSessionStep(p, minutes, now) => OpenSessionKeeps(slots, d, p, minutes, now);
      case CancelSessionStep(sid, now) => CancelSessionKeeps(slots, d, sid, now);
      case SubmitStep(sid, drawing, elsewhere, now) => SubmitKeeps(slots, d, sid, drawing, elsewhere, now);
      case ConfirmStep(sid, rendering, now) => ConfirmKeeps(slots, d, sid, rendering, now);
      case RejectStep(sid, now) => RejectKeeps(slots, d, sid, now);
    }
  }

  lemma {:induction false} RunKeeps(slots: Slots, d: Dossier, steps: seq<Step>)
    requires Inv(slots, d) && WellFormedRun(steps)
    ensures Inv(slots, Run(slots, d, steps))
    decreases |steps|
  {
    if steps != [] {
      RunKeeps(slots, d, steps[..|steps| - 1]);
      StepKeeps(slots, Run(slots, d, steps[..|steps| - 1]), steps[|steps| - 1]);
    }
  }
}
