/**
 Recording the fulfilment of a part request: `update_part_request_fulfillment`, for requests approved before
 and after approval snapshots existed. Quantities are exact decimals; the handler only ever supplies integer
 targets.
 */
module Fulfilment {
  import opened Wrappers

  datatype Status = Approved | Ordered | PartiallyDelivered | Delivered | Cancelled | Undecided

  /** `countable` says that the unit of the line admits only whole amounts. */
  datatype Line = Line(id: nat, quantity: real, delivered: real, countable: bool)

  datatype Update = Update(line: nat, target: nat)

  /** What one delivery brings for one line; any positive decimal. */
  datatype Amount = Amount(line: nat, quantity: real)

  /**
   What was delivered line by line, or the same amounts taken back; `of` is the place of the receipt that was wrong.
   */
  datatype DeliveryEvent = Receipt(amounts: map<nat, real>) | Correction(amounts: map<nat, real>, of: nat)

  /** A request. With an approval snapshot, deliveries are appended events and its lines never change. */
  datatype Request = Request(
    status: Status, snapshot: bool, freeForm: bool, ordered: bool,
    lines: seq<Line>, events: seq<DeliveryEvent>)

  datatype Payload = Payload(status: Status, updates: seq<Update>, confirmed: bool, note: bool)

  datatype Refusal =
    | TransitionNotAllowed | LineMismatch | InvalidQuantity | PartialInvalid | Incomplete
    | LegacyFractional | IndivisibleUnit | ConfirmationRequired | NotCancellable | CancellationWithLines
    | NotDeliverable | ExceedsRequested | DeliveryLocked | NotReversible

  /** The request schema: one of four target statuses, no line twice. */
  predicate WellFormed(payload: Payload) {
    && payload.status in {Ordered, PartiallyDelivered, Delivered, Cancelled}
    && forall i, j :: 0 <= i < j < |payload.updates| ==> payload.updates[i].line != payload.updates[j].line
  }

  predicate Whole(x: real) {
    x == x.Floor as real
  }

  // ---------------------------------------------------------------- Quantities

  function Share(amounts: map<nat, real>, id: nat): real {
    if id in amounts then amounts[id] else 0.0
  }

  function EventSum(events: seq<DeliveryEvent>, id: nat): real {
    if events == [] then 0.0 else EventSum(events[..|events| - 1], id) + Share(events[|events| - 1].amounts, id)
  }

  /** What has been received on a line. */
  function Received(r: Request, line: Line): real {
    line.delivered + EventSum(r.events, line.id)
  }

  function Find(lines: seq<Line>, id: nat): (i: nat)
    ensures i <= |lines|
    ensures i < |lines| ==> lines[i].id == id
    ensures i == |lines| <==> forall j :: 0 <= j < |lines| ==> lines[j].id != id
  {
    if lines == [] then 0
    else if lines[0].id == id then 0
    else 1 + Find(lines[1..], id)
  }

  function Lookup(updates: seq<Update>, id: nat): (target: Option<nat>)
    ensures target.Some? ==> Update(id, target.value) in updates
    ensures target.None? <==> forall u :: u in updates ==> u.line != id
  {
    if updates == [] then None
    else if updates[0].line == id then Some(updates[0].target)
    else Lookup(updates[1..], id)
  }

  function Prospective(r: Request, updates: seq<Update>, line: Line): real {
    var target := Lookup(updates, line.id);
    if target.Some? then target.value as real else Received(r, line)
  }

  predicate AllFull(r: Request, updates: seq<Update>) {
    forall i :: 0 <= i < |r.lines| ==> Prospective(r, updates, r.lines[i]) == r.lines[i].quantity
  }

  predicate AnyReceived(r: Request, updates: seq<Update>) {
    exists i :: 0 <= i < |r.lines| && Prospective(r, updates, r.lines[i]) != 0.0
  }

  function Sum(values: seq<real>): real {
    if values == [] then 0.0 else Sum(values[..|values| - 1]) + values[|values| - 1]
  }

  function Quantities(lines: seq<Line>): seq<real> {
    seq(|lines|, i requires 0 <= i < |lines| => lines[i].quantity)
  }

  function Deliveries(lines: seq<Line>): seq<real> {
    seq(|lines|, i requires 0 <= i < |lines| => lines[i].delivered)
  }

  predicate Indivisible(r: Request, line: Line) {
    !r.freeForm || line.countable
  }

  predicate LegacyFractionalLines(r: Request) {
    !r.freeForm && exists i :: 0 <= i < |r.lines| && (!Whole(r.lines[i].quantity) || !Whole(r.lines[i].delivered))
  }

  // ---------------------------------------------------------------- The handler as a function

  predicate TransitionAllowed(from: Status, to: Status) {
    || (from == Approved && to == Ordered)
    || (from in {Ordered, PartiallyDelivered} && to in {PartiallyDelivered, Delivered})
  }

  /** The first refusal the updates meet, in order. */
  function CheckUpdates(r: Request, updates: seq<Update>): Option<Refusal> {
    if updates == [] then None
    else
      var earlier := CheckUpdates(r, updates[..|updates| - 1]);
      var u := updates[|updates| - 1];
      if earlier.Some? then earlier
      else if Find(r.lines, u.line) == |r.lines| then Some(LineMismatch)
      else
        var line := r.lines[Find(r.lines, u.line)];
        if u.target as real < Received(r, line) || u.target as real > line.quantity then Some(InvalidQuantity) else None
  }

  /** What the updates add, line by line. */
  function Deltas(r: Request, updates: seq<Update>): map<nat, real> {
    if updates == [] then map[]
    else
      var earlier := Deltas(r, updates[..|updates| - 1]);
      var u := updates[|updates| - 1];
      var i := Find(r.lines, u.line);
      if i < |r.lines| && u.target as real > Received(r, r.lines[i])
      then earlier[u.line := u.target as real - Received(r, r.lines[i])]
      else earlier
  }

  predicate DeltasDivisible(r: Request, deltas: map<nat, real>) {
    forall id :: id in deltas && Find(r.lines, id) < |r.lines| && Indivisible(r, r.lines[Find(r.lines, id)]) ==>
      Whole(deltas[id])
  }

  /** `_status`: the status the received quantities call for. */
  function StatusOf(r: Request): Status {
    if r.status == Cancelled then Cancelled
    else if AllFull(r, []) then Delivered
    else if AnyReceived(r, []) then PartiallyDelivered
    else if r.ordered then Ordered
    else Approved
  }

  function FulfilSnapshot(r: Request, p: Payload): Result<Request, Refusal> {
    if !TransitionAllowed(r.status, p.status) then Failure(TransitionNotAllowed)
    else
      var refusal := CheckUpdates(r, p.updates);
      if refusal.Some? then Failure(refusal.value)
      else
        var deltas := Deltas(r, p.updates);
        if p.status == Ordered then
          if deltas != map[] then Failure(InvalidQuantity) else Success(r.(status := Ordered, ordered := true))
        else if p.status == Delivered && !AllFull(r, p.updates) then Failure(Incomplete)
        else if p.status == PartiallyDelivered && (AllFull(r, p.updates) || !AnyReceived(r, p.updates)) then
          Failure(PartialInvalid)
        else if !DeltasDivisible(r, deltas) then Failure(IndivisibleUnit)
        else
          var received := if deltas == map[] then r else r.(events := r.events + [Receipt(deltas)]);
          Success(received.(status := StatusOf(received)))
  }

  function WithTargets(r: Request, updates: seq<Update>): seq<Line> {
    seq(|r.lines|, i requires 0 <= i < |r.lines| => r.lines[i].(delivered := Prospective(r, updates, r.lines[i])))
  }

  function FulfilLegacy(r: Request, p: Payload): Result<Request, Refusal> {
    if !TransitionAllowed(r.status, p.status) then Failure(TransitionNotAllowed)
    else if LegacyFractionalLines(r) then Failure(LegacyFractional)
    else if exists u :: u in p.updates && Find(r.lines, u.line) == |r.lines| then Failure(LineMismatch)
    else
      var refusal := CheckUpdates(r, p.updates);
      if refusal.Some? then Failure(refusal.value)
      else
        var lines := WithTargets(r, p.updates);
        if p.status == PartiallyDelivered && !(0.0 < Sum(Deliveries(lines)) < Sum(Quantities(lines))) then
          Failure(PartialInvalid)
        else if p.status == Delivered && exists i :: 0 <= i < |lines| && lines[i].delivered != lines[i].quantity then
          Failure(Incomplete)
        else Success(r.(status := p.status, lines := lines, ordered := r.ordered || p.status == Ordered))
  }

  function Cancel(r: Request, p: Payload): Result<Request, Refusal> {
    if p.updates != [] && LegacyFractionalLines(r) then Failure(CancellationWithLines)
    else if !p.confirmed || !p.note || p.updates != [] then Failure(ConfirmationRequired)
    else if r.status !in {Approved, Ordered, PartiallyDelivered} then Failure(NotCancellable)
    else Success(r.(status := Cancelled))
  }

  function Fulfil(r: Request, p: Payload): Result<Request, Refusal> {
    if p.status == Cancelled then Cancel(r, p)
    else if r.snapshot then FulfilSnapshot(r, p)
    else FulfilLegacy(r, p)
  }

  function Next(r: Request, p: Payload): Request {
    var done := Fulfil(r, p);
    if done.Success? then done.value else r
  }

  function Run(r: Request, payloads: seq<Payload>): Request
    decreases |payloads|
  {
    if payloads == [] then r else Run(Next(r, payloads[0]), payloads[1..])
  }

  // ---------------------------------------------------------------- Deliveries by amount

  /** `record_receipt`: the first refusal the amounts meet, in order. */
  function CheckAmounts(r: Request, amounts: seq<Amount>): Option<Refusal> {
    if amounts == [] then None
    else
      var earlier := CheckAmounts(r, amounts[..|amounts| - 1]);
      var a := amounts[|amounts| - 1];
      if earlier.Some? then earlier
      else if Find(r.lines, a.line) == |r.lines| then Some(LineMismatch)
      else
        var line := r.lines[Find(r.lines, a.line)];
        if a.quantity <= 0.0 then Some(InvalidQuantity)
        else if Indivisible(r, line) && !Whole(a.quantity) then Some(IndivisibleUnit)
        else if Received(r, line) + a.quantity > line.quantity then Some(ExceedsRequested)
        else None
  }

  function Brought(amounts: seq<Amount>): map<nat, real> {
    if amounts == [] then map[]
    else
      var a := amounts[|amounts| - 1];
      Brought(amounts[..|amounts| - 1])[a.line := a.quantity]
  }

  /** `add_delivery`, with a key that was not used before. */
  function Deliver(r: Request, amounts: seq<Amount>): Result<Request, Refusal> {
    if !r.snapshot || r.status !in {Approved, Ordered, PartiallyDelivered} then Failure(NotDeliverable)
    else
      var refusal := CheckAmounts(r, amounts);
      if refusal.Some? then Failure(refusal.value)
      else
        var received := r.(events := r.events + [Receipt(Brought(amounts))]);
        Success(received.(status := StatusOf(received)))
  }

  // ---------------------------------------------------------------- Reversals

  function TakenBack(amounts: map<nat, real>): map<nat, real> {
    map id | id in amounts :: 0.0 - amounts[id]
  }

  predicate Corrected(events: seq<DeliveryEvent>, i: nat) {
    exists j :: 0 <= j < |events| && events[j].Correction? && events[j].of == i
  }

  /** `reverse_delivery`, with a key that was not used before; `i` is the place of the event that is taken back. */
  function Reverse(r: Request, i: nat): Result<Request, Refusal> {
    if r.status == Cancelled then Failure(DeliveryLocked)
    else if i >= |r.events| || !r.events[i].Receipt? || Corrected(r.events, i) then Failure(NotReversible)
    else
      var reversed := r.(events := r.events + [Correction(TakenBack(r.events[i].amounts), i)]);
      Success(reversed.(status := StatusOf(reversed)))
  }
}
