/**
 All documents together, and transactions that interleave.

 Every transaction on a document runs as the handlers do: read the session without a lock, wait for the
 document's row lock, read again under the lock, act, commit. Between any two of those points every other
 transaction may move. The main result is that an interleaved run commits exactly what its committed
 transactions commit one after the other, so whatever every sequential state satisfies holds at every moment
 of every interleaving.
 */
module SigningRegistry {
  import opened Wrappers
  import opened SigningModel
  import opened SigningInvariant
  import opened SigningHistory
  import opened SigningEffects

  type Registry = map<nat, Dossier>

  /** The slots of every document type. */
  type Configuration = map<string, Slots>

  function SlotsFor(config: Configuration, docType: string): Slots {
    if docType in config then config[docType] else map[]
  }

  predicate Known(reg: Registry, doc: nat) {
    doc in reg && reg[doc].current < |reg[doc].versions|
  }

  /** The image digests stored for every other document. */
  function ImagesElsewhere(reg: Registry, doc: nat): set<nat> {
    set other, p | other in reg && other != doc && p in reg[other].signatures :: reg[other].signatures[p].image
  }

  function Against(step: Step, elsewhere: set<nat>): Step {
    if step.SubmitStep? then step.(elsewhere := elsewhere) else step
  }

  /** One transaction, alone: a handler against the committed rows. */
  function Apply(config: Configuration, reg: Registry, doc: nat, step: Step): Result<Registry, Refusal>
    requires Known(reg, doc) && WellFormed(step)
  {
    var d :- Do(SlotsFor(config, reg[doc].docType), reg[doc], Against(step, ImagesElsewhere(reg, doc)));
    Success(reg[doc := d])
  }

  predicate TransferType(docType: string) {
    docType == "TRANSFER_ISSUE" || docType == "TRANSFER_RETURN"
  }

  /** The whitespace of Python's `str.strip` and of `\s`. */
  predicate Blank(c: char) {
    var n := c as int;
    || 9 <= n <= 13 || 28 <= n <= 32 || n == 133 || n == 160 || n == 5760 || 8192 <= n <= 8202
    || n == 8232 || n == 8233 || n == 8239 || n == 8287 || n == 12288
  }

  function AfterBlanks(text: string): string {
    if text != "" && Blank(text[0]) then AfterBlanks(text[1..]) else text
  }

  /** The letter K in any case; ignoring case, the Kelvin sign is one too. */
  predicate LetterK(c: char) {
    c == 'K' || c == 'k' || c as int == 8490
  }

  /** A number in the series that only the approval of a part request may issue: two K, then a digit. */
  predicate RequestSeries(number: string) {
    var text := AfterBlanks(number);
    && |text| >= 2 && LetterK(text[0]) && LetterK(text[1])
    && (var rest := AfterBlanks(text[2..]); rest != "" && '0' <= rest[0] <= '9')
  }

  /** `create_official_document`, with its checks on number and type; `None` when it is refused. */
  function Register(config: Configuration, reg: Registry, id: nat, number: string, docType: string, content: Content,
                    inputs: seq<Input>): Option<Registry>
    requires id !in reg
  {
    if RequestSeries(number) || TransferType(docType) then None
    else if exists doc :: doc in reg && reg[doc].number == number then None
    else
      var created := Create(SlotsFor(config, docType), number, docType, content, inputs);
      if created.Failure? then None else Some(reg[id := created.value])
  }

  /** The code points of the blanks. */
  const BLANKS: set<int> := {
    9, 10, 11, 12, 13, 28, 29, 30, 31, 32, 133, 160, 5760, 8192, 8193, 8194, 8195, 8196, 8197, 8198, 8199, 8200, 8201,
    8202, 8232, 8233, 8239, 8287, 12288}

  lemma BlanksExactly(c: char)
    ensures Blank(c) <==> c as int in BLANKS
  {
  }

  ghost predicate AllBlank(text: string) {
    forall i :: 0 <= i < |text| ==> text[i] as int in BLANKS
  }

  /** Blanks, two letters K from place `i` on, blanks again, and a digit at place `j`. */
  ghost predicate TwoKsAndADigit(number: string, i: nat, j: nat) {
    && i + 2 <= j < |number| && AllBlank(number[..i]) && AllBlank(number[i + 2..j])
    && number[i] in {'K', 'k', 8490 as char} && number[i + 1] in {'K', 'k', 8490 as char}
    && number[j] in {'0', '1', '2', '3', '4', '5', '6', '7', '8', '9'}
  }

  lemma {:induction false} BlanksAreSkipped(text: string, i: nat)
    requires i < |text| && AllBlank(text[..i]) && !Blank(text[i])
    ensures AfterBlanks(text) == text[i..]
  {
    hide Blank;
    if i > 0 {
      BlanksExactly(text[0]);
      assert text[0] == text[..i][0];
      var rest := text[1..][..i - 1];
      forall k | 0 <= k < |rest| ensures rest[k] as int in BLANKS {
        assert rest[k] == text[..i][k + 1];
      }
      BlanksAreSkipped(text[1..], i - 1);
      assert text[1..][i - 1..] == text[i..];
    }
  }

  lemma {:induction false} WhereBlanksEnd(text: string) returns (i: nat)
    ensures i <= |text| && AllBlank(text[..i]) && AfterBlanks(text) == text[i..]
  {
    hide Blank;
    if text != "" && Blank(text[0]) {
      BlanksExactly(text[0]);
      var k := WhereBlanksEnd(text[1..]);
      i := k + 1;
      forall j | 0 <= j < i ensures text[..i][j] as int in BLANKS {
        assert j > 0 ==> text[..i][j] == text[1..][..k][j - 1];
      }
      assert text[1..][k..] == text[i..];
    } else {
      i := 0;
    }
  }

  ghost predicate Reserved(number: string) {
    exists i: nat, j: nat :: TwoKsAndADigit(number, i, j)
  }

  /** The numbers of the reserved series are exactly those that begin so. */
  lemma RequestSeriesExactly(number: string)
    ensures RequestSeries(number) <==> Reserved(number)
  {
    hide AfterBlanks;
    if RequestSeries(number) {
      var i := WhereBlanksEnd(number);
      var k := WhereBlanksEnd(number[i..][2..]);
      assert number[i..][2..] == number[i + 2..];
      assert number[i + 2..][..k] == number[i + 2..i + 2 + k];
      assert TwoKsAndADigit(number, i, i + 2 + k);
    }
    if Reserved(number) {
      var i: nat, j: nat :| TwoKsAndADigit(number, i, j);
      BlanksAreSkipped(number, i);
      var rest := number[i..][2..];
      assert rest == number[i + 2..] && rest[..j - i - 2] == number[i + 2..j];
      BlanksAreSkipped(rest, j - i - 2);
    }
  }

  /** A document is registered exactly with a free number outside the reserved series, of a type that is no transfer. */
  lemma RegistersExactly(config: Configuration, reg: Registry, id: nat, number: string, docType: string,
                         content: Content, inputs: seq<Input>)
    requires id !in reg
    ensures Register(config, reg, id, number, docType, content, inputs).Some? <==>
            && !Reserved(number) && docType !in {"TRANSFER_ISSUE", "TRANSFER_RETURN"}
            && (forall doc :: doc in reg ==> reg[doc].number != number)
            && (inputs == [] || GoodInputs(SlotsFor(config, docType), inputs))
    ensures var after := Register(config, reg, id, number, docType, content, inputs);
            after.Some? ==>
              && after.value.Keys == reg.Keys + {id} && (forall doc :: doc in reg ==> after.value[doc] == reg[doc])
              && Create(SlotsFor(config, docType), number, docType, content, inputs) == Success(after.value[id])
  {
    RequestSeriesExactly(number);
    CreatesExactly(SlotsFor(config, docType), number, docType, content, inputs);
    hide RequestSeries, Create, Reserved;
  }

  ghost predicate ImagesApart(reg: Registry) {
    forall a, b, p, q :: a in reg && b in reg && a != b && p in reg[a].signatures && q in reg[b].signatures
      ==> reg[a].signatures[p].image != reg[b].signatures[q].image
  }

  ghost predicate NumbersApart(reg: Registry) {
    forall a, b :: a in reg && b in reg && a != b ==> reg[a].number != reg[b].number
  }

  ghost predicate RegistryInv(config: Configuration, reg: Registry) {
    && (forall doc {:trigger doc in reg} :: doc in reg ==>
          Known(reg, doc) && Inv(SlotsFor(config, reg[doc].docType), reg[doc]))
    && ImagesApart(reg) && NumbersApart(reg)
  }

  lemma RegisterKeeps(config: Configuration, reg: Registry, id: nat, number: string, docType: string,
                      content: Content, inputs: seq<Input>)
    requires RegistryInv(config, reg) && id !in reg
    requires Register(config, reg, id, number, docType, content, inputs).Some?
    ensures RegistryInv(config, Register(config, reg, id, number, docType, content, inputs).value)
  {
    CreateEstablishes(SlotsFor(config, docType), number, docType, content, inputs);
    RegisterKeepsApart(config, reg, id, number, docType, content, inputs);
  }

  lemma RegisterKeepsApart(config: Configuration, reg: Registry, id: nat, number: string, docType: string,
                           content: Content, inputs: seq<Input>)
    requires ImagesApart(reg) && NumbersApart(reg) && id !in reg
    requires Register(config, reg, id, number, docType, content, inputs).Some?
    ensures ImagesApart(Register(config, reg, id, number, docType, content, inputs).value)
    ensures NumbersApart(Register(config, reg, id, number, docType, content, inputs).value)
  {
  }

  /** A step stores no image but the submitted one, which no other document holds. */
  lemma StepImages(slots: Slots, d: Dossier, step: Step, p: nat)
    requires References(d) && WellFormed(step) && Do(slots, d, step).Success?
    requires p in Do(slots, d, step).value.signatures
    ensures var image := Do(slots, d, step).value.signatures[p].image;
            image in Images(d) || (step.SubmitStep? && image == step.drawing.image && image !in step.elsewhere)
  {
    var e := Do(slots, d, step).value;
    if p in d.signatures {
      assert d.signatures[p].image in Images(d);
    }
  }

  lemma ApplyKeeps(config: Configuration, reg: Registry, doc: nat, step: Step)
    requires RegistryInv(config, reg) && Known(reg, doc) && WellFormed(step) && Apply(config, reg, doc, step).Success?
    ensures RegistryInv(config, Apply(config, reg, doc, step).value)
  {
    hide Do, SlotsFor, Ordered, PendingIsLive, StatusAgrees, Roster, DigestsHold, ImagesDistinct;
    var slots := SlotsFor(config, reg[doc].docType);
    var actual := Against(step, ImagesElsewhere(reg, doc));
    StepKeeps(slots, reg[doc], actual);
    StepVersions(slots, reg[doc], actual);
    ApplyImages(config, reg, doc, step);
  }

  lemma ApplyImages(config: Configuration, reg: Registry, doc: nat, step: Step)
    requires ImagesApart(reg) && Known(reg, doc) && References(reg[doc]) && WellFormed(step)
    requires Apply(config, reg, doc, step).Success?
    ensures ImagesApart(Apply(config, reg, doc, step).value)
  {
    var next := Apply(config, reg, doc, step).value;
    var slots := SlotsFor(config, reg[doc].docType);
    var elsewhere := ImagesElsewhere(reg, doc);
    forall b, p, q | b in next && b != doc && p in next[doc].signatures && q in next[b].signatures
      ensures next[doc].signatures[p].image != next[b].signatures[q].image
    {
      assert reg[b].signatures[q].image in elsewhere;
      StepImages(slots, reg[doc], Against(step, elsewhere), p);
    }
  }

  // ---------------------------------------------------------------- Serial runs

  datatype Creation = Creation(number: string, docType: string, content: Content, inputs: seq<Input>)

  /** What was committed: a handler on a document, or the creation of one. */
  datatype Entry = Handled(doc: nat, step: Step) | Created(doc: nat, creation: Creation)

  /** One entry, alone; `None` if it is refused. */
  function Perform(config: Configuration, reg: Registry, entry: Entry): Option<Registry> {
    match entry
    case Handled(doc, step) =>
      if !Known(reg, doc) || !WellFormed(step) then None
      else
        var done := Apply(config, reg, doc, step);
        if done.Failure? then None else Some(done.value)
    case Created(doc, c) =>
      if doc in reg then None else Register(config, reg, doc, c.number, c.docType, c.content, c.inputs)
  }

  /** A log in which every entry is accepted when run alone, one after the other. */
  ghost predicate Serial(config: Configuration, reg: Registry, log: seq<Entry>, end: Registry)
    decreases |log|
  {
    if log == [] then reg == end
    else
      var last := log[|log| - 1];
      exists mid: Registry :: Serial(config, reg, log[..|log| - 1], mid) && Perform(config, mid, last) == Some(end)
  }

  lemma PerformKeeps(config: Configuration, reg: Registry, entry: Entry)
    requires RegistryInv(config, reg) && Perform(config, reg, entry).Some?
    ensures RegistryInv(config, Perform(config, reg, entry).value)
  {
    hide RegistryInv, Register;
    match entry
    case Handled(doc, step) => ApplyKeeps(config, reg, doc, step);
    case Created(doc, c) => RegisterKeeps(config, reg, doc, c.number, c.docType, c.content, c.inputs);
  }

  lemma {:induction false} SerialKeeps(config: Configuration, reg: Registry, log: seq<Entry>, end: Registry)
    requires RegistryInv(config, reg) && Serial(config, reg, log, end)
    ensures RegistryInv(config, end)
    decreases |log|
  {
    if log != [] {
      var mid: Registry :| Serial(config, reg, log[..|log| - 1], mid)
        && Perform(config, mid, log[|log| - 1]) == Some(end);
      SerialKeeps(config, reg, log[..|log| - 1], mid);
      PerformKeeps(config, mid, log[|log| - 1]);
    }
  }

  lemma NothingIsRegistered(config: Configuration)
    ensures RegistryInv(config, map[])
  {
  }

  /** Everything registered and handled from an empty registry on satisfies the invariant. */
  lemma RegistriesAreSound(config: Configuration, log: seq<Entry>, end: Registry)
    requires Serial(config, map[], log, end)
    ensures RegistryInv(config, end)
  {
    NothingIsRegistered(config);
    SerialKeeps(config, map[], log, end);
  }

  ghost predicate Spent(reg: Registry, doc: nat, sid: nat) {
    doc in reg && sid < |reg[doc].sessions| && SpentSession(reg[doc].sessions[sid])
  }

  predicate Confirms(entry: Entry, doc: nat, sid: nat) {
    entry.Handled? && entry.doc == doc && entry.step.ConfirmStep? && entry.step.sid == sid
  }

  lemma PerformKeepsSpent(config: Configuration, reg: Registry, entry: Entry, end: Registry, doc: nat, sid: nat)
    requires Perform(config, reg, entry) == Some(end)
    requires Spent(reg, doc, sid) || Confirms(entry, doc, sid)
    ensures Spent(end, doc, sid)
  {
    if entry.Handled? {
      var d := reg[entry.doc];
      StepSessions(SlotsFor(config, d.docType), d, Against(entry.step, ImagesElsewhere(reg, entry.doc)));
    }
  }

  lemma {:induction false} ConfirmedTokensAreSpent(config: Configuration, reg: Registry, log: seq<Entry>, end: Registry,
                                        i: nat, doc: nat, sid: nat)
    requires Serial(config, reg, log, end) && i < |log| && Confirms(log[i], doc, sid)
    ensures Spent(end, doc, sid)
    decreases |log|
  {
    hide Perform, Spent, Confirms;
    var last := log[|log| - 1];
    var mid: Registry :| Serial(config, reg, log[..|log| - 1], mid) && Perform(config, mid, last) == Some(end);
    if i < |log| - 1 {
      ConfirmedTokensAreSpent(config, reg, log[..|log| - 1], mid, i, doc, sid);
    }
    PerformKeepsSpent(config, mid, last, end, doc, sid);
  }

  lemma SpentTokensDoNotConfirm(config: Configuration, reg: Registry, entry: Entry, doc: nat, sid: nat)
    requires Confirms(entry, doc, sid) && Perform(config, reg, entry).Some?
    ensures !Spent(reg, doc, sid)
  {
  }

  /** In any accepted log, a token confirms at most once. */
  lemma {:induction false} TokensConfirmOnce(config: Configuration, reg: Registry, log: seq<Entry>, end: Registry,
                                        i: nat, j: nat, doc: nat, sid: nat)
    requires Serial(config, reg, log, end) && i < j < |log| && Confirms(log[i], doc, sid)
    ensures !Confirms(log[j], doc, sid)
    decreases |log|
  {
    hide Perform, Spent, Confirms;
    var last := log[|log| - 1];
    var mid: Registry :| Serial(config, reg, log[..|log| - 1], mid) && Perform(config, mid, last) == Some(end);
    if j < |log| - 1 {
      TokensConfirmOnce(config, reg, log[..|log| - 1], mid, i, j, doc, sid);
    } else {
      ConfirmedTokensAreSpent(config, reg, log[..|log| - 1], mid, i, doc, sid);
      if Confirms(last, doc, sid) {
        SpentTokensDoNotConfirm(config, mid, last, doc, sid);
        assert false;
      }
    }
  }

  // ---------------------------------------------------------------- Interleaved transactions

  datatype Phase =
    | Waiting                                        // the unlocked read passed; the document lock is not held yet
    | Locked                                         // the document lock is held
    | Reread(view: Dossier)                          // the rows were read again under the lock
    | Acted(result: Dossier, elsewhere: set<nat>)    // the writes are flushed but not committed

  datatype Transaction = Transaction(doc: nat, step: Step, phase: Phase)

  datatype System = System(committed: Registry, locks: map<nat, nat>, running: map<nat, Transaction>)

  /** Creation is one action: the unique number index decides when it commits. */
  datatype Action =
    | Open(doc: nat, creation: Creation)
    | Begin(txn: nat, doc: nat, step: Step, readAt: int)
    | Acquire(txn: nat)
    | ReadAgain(txn: nat)
    | Act(txn: nat)
    | Commit(txn: nat)
    | Abort(txn: nat)    // a refusal, a violated unique index, or a crash

  /** What the handler checks before it waits for the lock. Cancelling a session takes no document lock. */
  predicate UnlockedRead(d: Dossier, step: Step, readAt: int) {
    match step
    case SubmitStep(sid, _, _, _) => sid < |d.sessions| && SessionIsOpen(d.sessions[sid], readAt)
    case ConfirmStep(sid, _, _) => sid < |d.sessions| && SessionIsOpen(d.sessions[sid], readAt)
    case RejectStep(sid, _) => sid < |d.sessions| && SessionIsOpen(d.sessions[sid], readAt)
    case OpenSessionStep(p, _, _) => p < |d.participants|
    case CancelSessionStep(_, _) => false
    case _ => true
  }

  function Move(config: Configuration, s: System, action: Action): Option<System> {
    match action
    case Open(doc, c) =>
      var created := Perform(config, s.committed, Created(doc, c));
      if created.None? then None else Some(s.(committed := created.value))
    case Begin(t, doc, step, readAt) =>
      if t in s.running || !Known(s.committed, doc) || !WellFormed(step)
        || !UnlockedRead(s.committed[doc], step, readAt) then None
      else Some(s.(running := s.running[t := Transaction(doc, step, Waiting)]))
    case Acquire(t) =>
      if t !in s.running || !s.running[t].phase.Waiting? || s.running[t].doc in s.locks then None
      else Some(s.(locks := s.locks[s.running[t].doc := t], running := s.running[t := s.running[t].(phase := Locked)]))
    case ReadAgain(t) =>
      if t !in s.running || !s.running[t].phase.Locked? || s.running[t].doc !in s.committed then None
      else Some(s.(running := s.running[t := s.running[t].(phase := Reread(s.committed[s.running[t].doc]))]))
    case Act(t) =>
      if t !in s.running || !s.running[t].phase.Reread? then None
      else
        var txn := s.running[t];
        var view, elsewhere := txn.phase.view, ImagesElsewhere(s.committed, txn.doc);
        if view.current >= |view.versions| || !WellFormed(txn.step) then None
        else
          var done := Do(SlotsFor(config, view.docType), view, Against(txn.step, elsewhere));
          if done.Failure? then None
          else Some(s.(running := s.running[t := txn.(phase := Acted(done.value, elsewhere))]))
    case Commit(t) =>
      if t !in s.running || !s.running[t].phase.Acted? then None
      else
        var txn := s.running[t];
        if txn.step.SubmitStep? && txn.step.drawing.image in ImagesElsewhere(s.committed, txn.doc) then None
        else Some(System(s.committed[txn.doc := txn.phase.result], s.locks - {txn.doc}, s.running - {t}))
    case Abort(t) =>
      if t !in s.running then None
      else
        var txn := s.running[t];
        Some(s.(locks := if txn.phase.Waiting? then s.locks else s.locks - {txn.doc}, running := s.running - {t}))
  }

  /** What a running transaction may rely on: its lock, and rows nobody else can have touched. */
  ghost predicate TransactionInv(config: Configuration, s: System, t: nat)
    requires t in s.running
  {
    var txn := s.running[t];
    && Known(s.committed, txn.doc) && WellFormed(txn.step)
    && (!txn.phase.Waiting? ==> txn.doc in s.locks && s.locks[txn.doc] == t)
    && (txn.phase.Reread? ==> txn.phase.view == s.committed[txn.doc])
    && (txn.phase.Acted? ==>
          Do(SlotsFor(config, s.committed[txn.doc].docType), s.committed[txn.doc],
            Against(txn.step, txn.phase.elsewhere))
          == Success(txn.phase.result))
  }

  /** Locks and running transactions agree. */
  ghost predicate LockInv(config: Configuration, s: System) {
    && (forall t {:trigger t in s.running} :: t in s.running ==> TransactionInv(config, s, t))
    && (forall doc {:trigger doc in s.locks} :: doc in s.locks ==>
          s.locks[doc] in s.running && s.running[s.locks[doc]].doc == doc && !s.running[s.locks[doc]].phase.Waiting?)
  }

  /** The submitted image decides only between acceptance and refusal. */
  lemma ElsewhereOnlyRefuses(slots: Slots, d: Dossier, step: Step, a: set<nat>, b: set<nat>)
    requires d.current < |d.versions| && WellFormed(step)
    requires Do(slots, d, Against(step, a)).Success?
    requires step.SubmitStep? ==> step.drawing.image !in b
    ensures Do(slots, d, Against(step, b)) == Do(slots, d, Against(step, a))
  {
  }

  /** A commit publishes exactly what the transaction would do alone on the rows committed at that moment. */
  lemma CommitIsSerial(config: Configuration, s: System, t: nat)
    requires LockInv(config, s) && Move(config, s, Commit(t)).Some?
    ensures var txn := s.running[t];
            Perform(config, s.committed, Handled(txn.doc, txn.step)) == Some(Move(config, s, Commit(t)).value.committed)
  {
    var txn := s.running[t];
    assert TransactionInv(config, s, t);
    var d := s.committed[txn.doc];
    ElsewhereOnlyRefuses(SlotsFor(config, d.docType), d, txn.step, txn.phase.elsewhere,
      ImagesElsewhere(s.committed, txn.doc));
  }

  /** A move that commits nothing leaves every transaction where its rule allows. */
  lemma TransactionKeeps(config: Configuration, s: System, action: Action, u: nat)
    requires LockInv(config, s) && !action.Commit? && Move(config, s, action).Some?
    requires u in Move(config, s, action).value.running
    ensures TransactionInv(config, Move(config, s, action).value, u)
  {
    hide Do, WellFormed;
    assert u in s.running ==> TransactionInv(config, s, u);
  }

  lemma MoveKeeps(config: Configuration, s: System, action: Action)
    requires LockInv(config, s) && Move(config, s, action).Some?
    ensures LockInv(config, Move(config, s, action).value)
  {
    hide TransactionInv;
    var e := Move(config, s, action).value;
    if action.Commit? {
      CommitKeeps(config, s, action.txn);
    } else {
      forall u | u in e.running ensures TransactionInv(config, e, u) {
        TransactionKeeps(config, s, action, u);
      }
    }
  }

  lemma CommitKeeps(config: Configuration, s: System, t: nat)
    requires LockInv(config, s) && Move(config, s, Commit(t)).Some?
    ensures LockInv(config, Move(config, s, Commit(t)).value)
  {
    var e := Move(config, s, Commit(t)).value;
    assert TransactionInv(config, s, t);
    var txn := s.running[t];
    var d := s.committed[txn.doc];
    assert Next(SlotsFor(config, d.docType), d, Against(txn.step, txn.phase.elsewhere)) == txn.phase.result;
    forall u | u in e.running ensures TransactionInv(config, e, u) {
      assert TransactionInv(config, s, u);
    }
  }

  /** The state after a run of moves that were all possible; `None` if one was not. */
  function RunSystem(config: Configuration, s: System, actions: seq<Action>): Option<System>
    decreases |actions|
  {
    if actions == [] then Some(s)
    else
      var before := RunSystem(config, s, actions[..|actions| - 1]);
      if before.None? then None else Move(config, before.value, actions[|actions| - 1])
  }

  /** The transactions a run commits, in the order of their commits. */
  function CommitLog(config: Configuration, s: System, actions: seq<Action>): seq<Entry>
    requires RunSystem(config, s, actions).Some?
    decreases |actions|
  {
    if actions == [] then []
    else
      var before := actions[..|actions| - 1];
      var last := actions[|actions| - 1];
      var earlier := CommitLog(config, s, before);
      if last.Commit? then
        var txn := RunSystem(config, s, before).value.running[last.txn];
        earlier + [Handled(txn.doc, txn.step)]
      else if last.Open? then earlier + [Created(last.doc, last.creation)]
      else earlier
  }

  lemma {:induction false} RunKeepsLocks(config: Configuration, s: System, actions: seq<Action>)
    requires LockInv(config, s) && RunSystem(config, s, actions).Some?
    ensures LockInv(config, RunSystem(config, s, actions).value)
    decreases |actions|
  {
    if actions != [] {
      RunKeepsLocks(config, s, actions[..|actions| - 1]);
      MoveKeeps(config, RunSystem(config, s, actions[..|actions| - 1]).value, actions[|actions| - 1]);
    }
  }

  lemma SerialExtends(config: Configuration, reg: Registry, log: seq<Entry>, mid: Registry, entry: Entry, end: Registry)
    requires Serial(config, reg, log, mid) && Perform(config, mid, entry) == Some(end)
    ensures Serial(config, reg, log + [entry], end)
  {
    var longer := log + [entry];
    assert longer[..|longer| - 1] == log && longer[|longer| - 1] == entry;
    assert Serial(config, reg, longer[..|longer| - 1], mid);
  }

  /** Every interleaving is serialisable in commit order. */
  lemma {:induction false} InterleavingIsSerial(config: Configuration, s: System, actions: seq<Action>)
    requires LockInv(config, s) && RunSystem(config, s, actions).Some?
    ensures Serial(config, s.committed, CommitLog(config, s, actions), RunSystem(config, s, actions).value.committed)
    decreases |actions|
  {
    if actions != [] {
      var before, last := actions[..|actions| - 1], actions[|actions| - 1];
      InterleavingIsSerial(config, s, before);
      RunKeepsLocks(config, s, before);
      var mid := RunSystem(config, s, before).value;
      if last.Commit? {
        CommitIsSerial(config, mid, last.txn);
        var txn := mid.running[last.txn];
        SerialExtends(config, s.committed, CommitLog(config, s, before), mid.committed, Handled(txn.doc, txn.step),
                      Move(config, mid, last).value.committed);
      } else if last.Open? {
        SerialExtends(config, s.committed, CommitLog(config, s, before), mid.committed,
          Created(last.doc, last.creation),
                      Move(config, mid, last).value.committed);
      } else {
        OnlyCommitsPublish(config, mid, last);
      }
    }
  }

  lemma OnlyCommitsPublish(config: Configuration, s: System, action: Action)
    requires Move(config, s, action).Some? && !action.Commit? && !action.Open?
    ensures Move(config, s, action).value.committed == s.committed
  {
  }

  const NOTHING := System(map[], map[], map[])

  // ---------------------------------------------------------------- Every serial run is an interleaving

  /** When the step looks at the clock. */
  function TimeOf(step: Step): int {
    match step
    case SubmitStep(_, _, _, now) => now
    case ConfirmStep(_, _, now) => now
    case RejectStep(_, now) => now
    case _ => 0
  }

  /** One transaction from beginning to end, or one creation. */
  function Alone(entry: Entry): seq<Action> {
    match entry
    case Created(doc, creation) => [Open(doc, creation)]
    case Handled(doc, step) => [Begin(0, doc, step, TimeOf(step)), Acquire(0), ReadAgain(0), Act(0), Commit(0)]
  }

  /** The document lock is taken by every handler but the cancel of a session. */
  predicate TakesLock(entry: Entry) {
    entry.Handled? ==> !entry.step.CancelSessionStep?
  }

  lemma AcceptedStepsPassTheFirstRead(slots: Slots, d: Dossier, step: Step)
    requires d.current < |d.versions| && WellFormed(step) && Do(slots, d, step).Success? && !step.CancelSessionStep?
    ensures UnlockedRead(d, step, TimeOf(step))
  {
  }

  lemma RunOneMore(config: Configuration, s: System, actions: seq<Action>, action: Action)
    requires RunSystem(config, s, actions).Some?
    ensures var middle, longer := RunSystem(config, s, actions).value, actions + [action];
            && RunSystem(config, s, longer) == Move(config, middle, action)
            && (Move(config, middle, action).Some? ==>
                  CommitLog(config, s, longer) == CommitLog(config, s, actions) +
                    (if action.Commit? then [Handled(middle.running[action.txn].doc, middle.running[action.txn].step)]
                     else if action.Open? then [Created(action.doc, action.creation)] else []))
  {
    assert (actions + [action])[..|actions|] == actions;
  }

  /** A transaction that runs alone, in each of its phases. */
  function Phased(reg: Registry, locks: map<nat, nat>, doc: nat, step: Step, phase: Phase): System {
    System(reg, locks, map[0 := Transaction(doc, step, phase)])
  }

  lemma AloneMoves(config: Configuration, reg: Registry, doc: nat, step: Step, end: Registry)
    requires Perform(config, reg, Handled(doc, step)) == Some(end) && !step.CancelSessionStep?
    ensures Known(reg, doc) && doc in end
    ensures var elsewhere := ImagesElsewhere(reg, doc);
            && Move(config, System(reg, map[], map[]), Begin(0, doc, step, TimeOf(step)))
               == Some(Phased(reg, map[], doc, step, Waiting))
            && Move(config, Phased(reg, map[], doc, step, Waiting), Acquire(0))
               == Some(Phased(reg, map[doc := 0], doc, step, Locked))
            && Move(config, Phased(reg, map[doc := 0], doc, step, Locked), ReadAgain(0))
               == Some(Phased(reg, map[doc := 0], doc, step, Reread(reg[doc])))
            && Move(config, Phased(reg, map[doc := 0], doc, step, Reread(reg[doc])), Act(0))
               == Some(Phased(reg, map[doc := 0], doc, step, Acted(end[doc], elsewhere)))
            && Move(config, Phased(reg, map[doc := 0], doc, step, Acted(end[doc], elsewhere)), Commit(0))
               == Some(System(end, map[], map[]))
  {
    var slots, elsewhere := SlotsFor(config, reg[doc].docType), ImagesElsewhere(reg, doc);
    AcceptedStepsPassTheFirstRead(slots, reg[doc], Against(step, elsewhere));
    hide ImagesElsewhere;
    assert step.SubmitStep? ==> step.drawing.image !in elsewhere;
    hide Do, UnlockedRead;
    assert map[doc := 0] - {doc} == map[];
    var txn := Transaction(doc, step, Acted(end[doc], elsewhere));
    assert map[0 := txn] - {0} == map[];
    var none: map<nat, nat> := map[];
    assert none[doc := 0] == map[doc := 0];
    forall before: Transaction, after: Transaction ensures map[0 := before][0 := after] == map[0 := after] {
    }
  }

  lemma CreatedAlone(config: Configuration, s: System, done: seq<Action>, reg: Registry, doc: nat, creation: Creation,
                     end: Registry)
    requires RunSystem(config, s, done) == Some(System(reg, map[], map[]))
    requires Perform(config, reg, Created(doc, creation)) == Some(end)
    ensures RunSystem(config, s, done + Alone(Created(doc, creation))) == Some(System(end, map[], map[]))
    ensures CommitLog(config, s, done + Alone(Created(doc, creation)))
         == CommitLog(config, s, done) + [Created(doc, creation)]
  {
    hide RunSystem, CommitLog, Perform;
    RunOneMore(config, s, done, Open(doc, creation));
  }

  /** A handler that is accepted alone goes through all the moves of its transaction. */
  lemma HandledAlone(config: Configuration, s: System, done: seq<Action>, reg: Registry, doc: nat, step: Step,
                     end: Registry)
    requires RunSystem(config, s, done) == Some(System(reg, map[], map[]))
    requires Perform(config, reg, Handled(doc, step)) == Some(end) && !step.CancelSessionStep?
    ensures RunSystem(config, s, done + Alone(Handled(doc, step))) == Some(System(end, map[], map[]))
    ensures CommitLog(config, s, done + Alone(Handled(doc, step))) == CommitLog(config, s, done) + [Handled(doc, step)]
  {
    AloneMoves(config, reg, doc, step, end);
    var begun := done + [Begin(0, doc, step, TimeOf(step))];
    assert done + Alone(Handled(doc, step)) == begun + [Acquire(0)] + [ReadAgain(0)] + [Act(0)] + [Commit(0)] by {
      hide Perform, RunSystem, CommitLog, Move;
    }
    hide *;
    RunOneMore(config, s, done, Begin(0, doc, step, TimeOf(step)));
    RunOneMore(config, s, begun, Acquire(0));
    RunOneMore(config, s, begun + [Acquire(0)], ReadAgain(0));
    RunOneMore(config, s, begun + [Acquire(0)] + [ReadAgain(0)], Act(0));
    RunOneMore(config, s, begun + [Acquire(0)] + [ReadAgain(0)] + [Act(0)], Commit(0));
  }

  lemma EntryAlone(config: Configuration, s: System, done: seq<Action>, reg: Registry, entry: Entry, end: Registry)
    requires RunSystem(config, s, done) == Some(System(reg, map[], map[]))
    requires Perform(config, reg, entry) == Some(end) && TakesLock(entry)
    ensures RunSystem(config, s, done + Alone(entry)) == Some(System(end, map[], map[]))
    ensures CommitLog(config, s, done + Alone(entry)) == CommitLog(config, s, done) + [entry]
  {
    hide Perform, RunSystem, CommitLog, Alone;
    match entry
    case Handled(doc, step) => HandledAlone(config, s, done, reg, doc, step, end);
    case Created(doc, creation) => CreatedAlone(config, s, done, reg, doc, creation, end);
  }

  lemma BeforeTheLast(config: Configuration, reg: Registry, log: seq<Entry>, end: Registry) returns (mid: Registry)
    requires Serial(config, reg, log, end) && log != []
    ensures Serial(config, reg, log[..|log| - 1], mid) && Perform(config, mid, log[|log| - 1]) == Some(end)
  {
    var last := log[|log| - 1];
    mid :| Serial(config, reg, log[..|log| - 1], mid) && Perform(config, mid, last) == Some(end);
  }

  lemma NothingDone(config: Configuration, end: Registry)
    requires Serial(config, map[], [], end)
    ensures RunSystem(config, NOTHING, []) == Some(System(end, map[], map[])) && CommitLog(config, NOTHING, []) == []
  {
  }

  /**
   The other direction of `InterleavingIsSerial`: every log of handlers that take the lock and of creations, accepted
   one after the other, is the commit log of some run of the system.
   */
  lemma {:induction false} SerialIsInterleaved(config: Configuration, log: seq<Entry>, end: Registry)
    returns (actions: seq<Action>)
    requires Serial(config, map[], log, end) && forall i :: 0 <= i < |log| ==> TakesLock(log[i])
    ensures RunSystem(config, NOTHING, actions) == Some(System(end, map[], map[]))
    ensures CommitLog(config, NOTHING, actions) == log
    decreases |log|
  {
    hide *;
    if log == [] {
      NothingDone(config, end);
      actions := [];
    } else {
      var before, last := log[..|log| - 1], log[|log| - 1];
      var mid := BeforeTheLast(config, map[], log, end);
      assert forall i :: 0 <= i < |before| ==> before[i] == log[i];
      var done := SerialIsInterleaved(config, before, mid);
      actions := done + Alone(last);
      EntryAlone(config, NOTHING, done, mid, last, end);
      assert log == before + [last];
    }
  }

  /** The committed registry at any moment of any interleaving, from an empty database on. */
  lemma InterleavingsAreSound(config: Configuration, actions: seq<Action>)
    requires RunSystem(config, NOTHING, actions).Some?
    ensures RegistryInv(config, RunSystem(config, NOTHING, actions).value.committed)
  {
    hide RunSystem, Serial, CommitLog, RegistryInv;
    InterleavingIsSerial(config, NOTHING, actions);
    RegistriesAreSound(config, CommitLog(config, NOTHING, actions),
      RunSystem(config, NOTHING, actions).value.committed);
  }

  /**
   Concurrent confirmation loses nothing: at every moment of every interleaving of creations and handlers that take the
   document lock, the current version of every document that is open for signing or signed carries the status its
   confirmed set calls for. Cancelling a session takes no document lock and is no action here; beside it the claim can
   fail, as `SigningCancellation` shows.
   */
  lemma ConfirmationsAreNeverLost(config: Configuration, actions: seq<Action>, doc: nat)
    requires RunSystem(config, NOTHING, actions).Some?
    requires doc in RunSystem(config, NOTHING, actions).value.committed
    ensures var d := RunSystem(config, NOTHING, actions).value.committed[doc];
            var slots := SlotsFor(config, d.docType);
            && d.current < |d.versions|
            && (Signable(d.versions[d.current].status) || d.versions[d.current].status == Signed ==>
                  && d.versions[d.current].status == StatusOf(slots, d, d.current)
                  && (AllRequiredConfirmed(slots, d, d.current) ==> d.versions[d.current].status == Signed))
  {
    hide RunSystem, Chain, Ordered, PendingIsLive, Roster, DigestsHold, ImagesDistinct;
    InterleavingsAreSound(config, actions);
  }

  /** However requests race, one token never commits two confirmations. */
  lemma RacingConfirmationsCommitOnce(config: Configuration, s: System, actions: seq<Action>, i: nat, j: nat, doc: nat,
                                      sid: nat)
    requires LockInv(config, s) && RunSystem(config, s, actions).Some?
    requires i < j < |CommitLog(config, s, actions)| && Confirms(CommitLog(config, s, actions)[i], doc, sid)
    ensures !Confirms(CommitLog(config, s, actions)[j], doc, sid)
  {
    InterleavingIsSerial(config, s, actions);
    TokensConfirmOnce(config, s.committed, CommitLog(config, s, actions), RunSystem(config, s, actions).value.committed,
      i, j, doc, sid);
  }

  lemma ImagesDiffer(config: Configuration, reg: Registry, a: nat, p: nat, b: nat, q: nat)
    requires RegistryInv(config, reg) && a in reg && p in reg[a].signatures && b in reg && q in reg[b].signatures
    requires reg[a].signatures[p].image == reg[b].signatures[q].image
    ensures a == b && p == q
  {
    hide Chain, Ordered, PendingIsLive, Roster, StatusAgrees, DigestsHold;
  }

  /** No image is ever stored twice, within a document or across documents, in any interleaving. */
  lemma NoImageIsStoredTwice(config: Configuration, actions: seq<Action>, a: nat, p: nat, b: nat, q: nat)
    requires RunSystem(config, NOTHING, actions).Some?
    requires var end := RunSystem(config, NOTHING, actions).value.committed;
             && a in end && p in end[a].signatures && b in end && q in end[b].signatures
             && end[a].signatures[p].image == end[b].signatures[q].image
    ensures a == b && p == q
  {
    hide RunSystem, RegistryInv;
    InterleavingsAreSound(config, actions);
    ImagesDiffer(config, RunSystem(config, NOTHING, actions).value.committed, a, p, b, q);
  }

  /** No two documents ever have the same number. */
  lemma NumbersStayApart(config: Configuration, actions: seq<Action>, a: nat, b: nat)
    requires RunSystem(config, NOTHING, actions).Some?
    requires var end := RunSystem(config, NOTHING, actions).value.committed;
             a in end && b in end && end[a].number == end[b].number
    ensures a == b
  {
    hide RunSystem;
    InterleavingsAreSound(config, actions);
  }

  /** A document is touched only by the holder of its lock: while the lock is held, its rows stand still. */
  lemma LockedRowsStandStill(config: Configuration, s: System, action: Action, doc: nat)
    requires LockInv(config, s) && doc in s.locks && Move(config, s, action).Some?
    requires action.Open? || action.txn != s.locks[doc]
    ensures var e := Move(config, s, action).value;
            doc in e.locks && e.locks[doc] == s.locks[doc] && doc in e.committed && e.committed[doc] == s.committed[doc]
  {
    assert TransactionInv(config, s, s.locks[doc]);
    if !action.Open? && action.txn in s.running {
      assert TransactionInv(config, s, action.txn);
    }
  }
}
