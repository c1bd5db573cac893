/** The fulfilment handler as it runs: it updates lines and status in place, and rolls back when it refuses. */
module FulfilmentDesk {
  import opened Wrappers
  import opened Fulfilment
  import opened FulfilmentProofs

  class PartRequest {
    const snapshot: bool
    const freeForm: bool
    var status: Status
    var ordered: bool
    var lines: seq<Line>
    var events: seq<DeliveryEvent>

    function Value(): Request
      reads this
    {
      Request(status, snapshot, freeForm, ordered, lines, events)
    }

    ghost predicate Valid()
      reads this
    {
      DistinctLines(lines) && (!snapshot ==> events == [])
    }

    method UpdateFulfilment(p: Payload) returns (refusal: Option<Refusal>)
      requires Valid() && WellFormed(p)
      modifies this
      ensures match Fulfil(old(Value()), p)
              case Success(value) => refusal == None && Value() == value
              case Failure(error) => refusal == Some(error) && Value() == old(Value())
    {
      if p.status == Cancelled {
        refusal := CancelRequest(p);
      } else if snapshot {
        refusal := DeliverOnSnapshot(p);
      } else {
        refusal := DeliverOnLines(p);
      }
    }

    method CancelRequest(p: Payload) returns (refusal: Option<Refusal>)
      modifies this`status
      ensures match Cancel(old(Value()), p)
              case Success(value) => refusal == None && Value() == value
              case Failure(error) => refusal == Some(error) && Value() == old(Value())
    {
      if p.updates != [] && LegacyFractionalLines(Value()) {
        return Some(CancellationWithLines);
      }
      if !p.confirmed || !p.note || p.updates != [] {
        return Some(ConfirmationRequired);
      }
      if status !in {Approved, Ordered, PartiallyDelivered} {
        return Some(NotCancellable);
      }
      status := Cancelled;
      return None;
    }

    /** Check the cumulative targets and turn them into the deltas of one receipt. */
    method CollectDeltas(updates: seq<Update>) returns (r: Result<map<nat, real>, Refusal>)
      requires Valid() && DistinctUpdates(updates)
      ensures r == match CheckUpdates(Value(), updates)
                   case Some(error) => Failure(error)
                   case None => Success(Deltas(Value(), updates))
    {
      var deltas: map<nat, real> := map[];
      for i := 0 to |updates|
        invariant CheckUpdates(Value(), updates[..i]).None? && deltas == Deltas(Value(), updates[..i])
      {
        assert updates[..i + 1][..i] == updates[..i];
        var u := updates[i];
        var k := Find(lines, u.line);
        if k == |lines| {
          FirstRefusalDecides(Value(), updates, i + 1);
          return Failure(LineMismatch);
        }
        var total := Received(Value(), lines[k]);
        if u.target as real < total || u.target as real > lines[k].quantity {
          FirstRefusalDecides(Value(), updates, i + 1);
          return Failure(InvalidQuantity);
        }
        if u.target as real > total {
          deltas := deltas[u.line := u.target as real - total];
        }
      }
      assert updates[..|updates|] == updates;
      return Success(deltas);
    }

    /** The sums over the lines as they are now. */
    method Totals() returns (deliveredTotal: real, orderedTotal: real)
      ensures deliveredTotal == Sum(Deliveries(lines)) && orderedTotal == Sum(Quantities(lines))
    {
      deliveredTotal, orderedTotal := 0.0, 0.0;
      for i := 0 to |lines|
        invariant deliveredTotal == Sum(Deliveries(lines)[..i]) && orderedTotal == Sum(Quantities(lines)[..i])
      {
        assert Deliveries(lines)[..i + 1][..i] == Deliveries(lines)[..i]
          && Quantities(lines)[..i + 1][..i] == Quantities(lines)[..i];
        deliveredTotal := deliveredTotal + lines[i].delivered;
        orderedTotal := orderedTotal + lines[i].quantity;
      }
      assert Deliveries(lines)[..|lines|] == Deliveries(lines) && Quantities(lines)[..|lines|] == Quantities(lines);
    }

    /** Whether every line would be full and whether anything would have been received. */
    method Measure(updates: seq<Update>) returns (complete: bool, any: bool)
      ensures complete == AllFull(Value(), updates) && any == AnyReceived(Value(), updates)
    {
      complete, any := true, false;
      for i := 0 to |lines|
        invariant complete == forall j :: 0 <= j < i ==> Prospective(Value(), updates, lines[j]) == lines[j].quantity
        invariant any == exists j :: 0 <= j < i && Prospective(Value(), updates, lines[j]) != 0.0
      {
        var prospective := Prospective(Value(), updates, lines[i]);
        complete := complete && prospective == lines[i].quantity;
        any := any || prospective != 0.0;
      }
    }

    method DeliverOnSnapshot(p: Payload) returns (refusal: Option<Refusal>)
      requires Valid() && WellFormed(p)
      modifies this
      ensures match FulfilSnapshot(old(Value()), p)
              case Success(value) => refusal == None && Value() == value
              case Failure(error) => refusal == Some(error) && Value() == old(Value())
    {
      if !TransitionAllowed(status, p.status) {
        return Some(TransitionNotAllowed);
      }
      var collected := CollectDeltas(p.updates);
      if collected.Failure? {
        return Some(collected.error);
      }
      var deltas := collected.value;
      if p.status == Ordered {
        if deltas != map[] {
          return Some(InvalidQuantity);
        }
        status, ordered := Ordered, true;
        return None;
      }
      var complete, any := Measure(p.updates);
      if p.status == Delivered && !complete {
        return Some(Incomplete);
      }
      if p.status == PartiallyDelivered && (complete || !any) {
        return Some(PartialInvalid);
      }
      if !DeltasDivisible(Value(), deltas) {
        return Some(IndivisibleUnit);
      }
      if deltas != map[] {
        events := events + [Receipt(deltas)];
      }
      status := StatusOf(Value());
      return None;
    }

    /** `add_delivery`: check every amount against the sums so far, append one event, set the status. */
    method AddDelivery(amounts: seq<Amount>) returns (refusal: Option<Refusal>)
      requires Valid()
      modifies this
      ensures match Deliver(old(Value()), amounts)
              case Success(value) => refusal == None && Value() == value
              case Failure(error) => refusal == Some(error) && Value() == old(Value())
    {
      hide StatusOf, Received, Find, Indivisible, Whole;
      if !snapshot || status !in {Approved, Ordered, PartiallyDelivered} {
        return Some(NotDeliverable);
      }
      var brought: map<nat, real> := map[];
      for i := 0 to |amounts|
        invariant CheckAmounts(Value(), amounts[..i]).None? && brought == Brought(amounts[..i])
        invariant Value() == old(Value())
      {
        assert amounts[..i + 1][..i] == amounts[..i];
        refusal := CheckAmount(amounts[i]);
        assert [amounts[i]][..0] == [];
        if refusal.Some? {
          FirstAmountDecides(Value(), amounts, i + 1);
          return;
        }
        brought := brought[amounts[i].line := amounts[i].quantity];
      }
      assert amounts[..|amounts|] == amounts;
      events := events + [Receipt(brought)];
      status := StatusOf(Value());
      return None;
    }

    /** `reverse_delivery`: a receipt that no event corrects yet is taken back by one, and the status is set again. */
    method ReverseDelivery(i: nat) returns (refusal: Option<Refusal>)
      modifies this
      ensures match Reverse(old(Value()), i)
              case Success(value) => refusal == None && Value() == value
              case Failure(error) => refusal == Some(error) && Value() == old(Value())
    {
      if status == Cancelled {
        return Some(DeliveryLocked);
      }
      if i >= |events| || !events[i].Receipt? {
        return Some(NotReversible);
      }
      for j := 0 to |events|
        invariant forall k :: 0 <= k < j ==> !(events[k].Correction? && events[k].of == i)
        invariant Value() == old(Value())
      {
        if events[j].Correction? && events[j].of == i {
          return Some(NotReversible);
        }
      }
      events := events + [Correction(TakenBack(events[i].amounts), i)];
      status := StatusOf(Value());
      return None;
    }

    method CheckAmount(a: Amount) returns (refusal: Option<Refusal>)
      ensures refusal == CheckAmounts(Value(), [a])
    {
      var k := Find(lines, a.line);
      assert [a][..0] == [] && CheckAmounts(Value(), []).None?;
      if k == |lines| {
        return Some(LineMismatch);
      }
      if a.quantity <= 0.0 {
        return Some(InvalidQuantity);
      }
      if Indivisible(Value(), lines[k]) && !Whole(a.quantity) {
        return Some(IndivisibleUnit);
      }
      if Received(Value(), lines[k]) + a.quantity > lines[k].quantity {
        return Some(ExceedsRequested);
      }
      return None;
    }

    method DeliverOnLines(p: Payload) returns (refusal: Option<Refusal>)
      requires Valid() && !snapshot && WellFormed(p)
      modifies this
      ensures match FulfilLegacy(old(Value()), p)
              case Success(value) => refusal == None && Value() == value
              case Failure(error) => refusal == Some(error) && Value() == old(Value())
    {
      if !TransitionAllowed(status, p.status) {
        return Some(TransitionNotAllowed);
      }
      if LegacyFractionalLines(Value()) {
        return Some(LegacyFractional);
      }
      if exists u :: u in p.updates && Find(lines, u.line) == |lines| {
        return Some(LineMismatch);
      }
      var before := lines;
      var valid := StoreTargets(p.updates);
      if !valid {
        lines := before;
        return Some(InvalidQuantity);
      }
      var deliveredTotal, orderedTotal := Totals();
      if p.status == PartiallyDelivered && !(0.0 < deliveredTotal < orderedTotal) {
        lines := before;
        return Some(PartialInvalid);
      }
      if p.status == Delivered && exists i :: 0 <= i < |lines| && lines[i].delivered != lines[i].quantity {
        lines := before;
        return Some(Incomplete);
      }
      status := p.status;
      if p.status == Ordered {
        ordered := true;
      }
      return None;
    }

    /** Store each target on its line, stopping at the first that lowers or exceeds its line. */
    method StoreTargets(updates: seq<Update>) returns (valid: bool)
      requires Valid() && !snapshot && DistinctUpdates(updates)
      requires forall u :: u in updates ==> Find(lines, u.line) < |lines|
      modifies this`lines
      ensures valid <==> CheckUpdates(old(Value()), updates).None?
      ensures !valid ==> CheckUpdates(old(Value()), updates) == Some(InvalidQuantity)
      ensures valid ==> lines == WithTargets(old(Value()), updates)
    {
      ghost var r := Value();
      for i := 0 to |updates|
        invariant CheckUpdates(r, updates[..i]).None? && Stored(r, updates[..i], lines)
      {
        assert updates[..i + 1][..i] == updates[..i];
        var u := updates[i];
        assert u in updates;
        var k := Find(lines, u.line);
        StoredLine(r, updates, i, lines);
        if u.target as real < lines[k].delivered || u.target as real > lines[k].quantity {
          FirstRefusalDecides(r, updates, i + 1);
          return false;
        }
        StoreOne(r, updates, i, lines);
        lines := lines[k := lines[k].(delivered := u.target as real)];
      }
      assert updates[..|updates|] == updates;
      return true;
    }
  }

  /** The lines with the targets of `updates` stored on them. */
  ghost predicate Stored(r: Request, updates: seq<Update>, lines: seq<Line>) {
    && |lines| == |r.lines|
    && forall j {:trigger lines[j]} :: 0 <= j < |lines| ==>
       lines[j] == r.lines[j].(delivered := Prospective(r, updates, r.lines[j]))
  }

  lemma StoredLine(r: Request, updates: seq<Update>, i: nat, lines: seq<Line>)
    requires DistinctUpdates(updates) && i < |updates| && Stored(r, updates[..i], lines)
    requires Find(r.lines, updates[i].line) < |r.lines|
    ensures var k := Find(lines, updates[i].line);
            k == Find(r.lines, updates[i].line) && lines[k].delivered == Received(r, r.lines[k])
  {
    assert SameIds(r.lines, lines);
    SameFind(r.lines, lines, updates[i].line);
    NotYetNamed(updates, i);
  }

  lemma StoreOne(r: Request, updates: seq<Update>, i: nat, lines: seq<Line>)
    requires DistinctLines(r.lines) && DistinctUpdates(updates) && i < |updates| && Stored(r, updates[..i], lines)
    requires Find(r.lines, updates[i].line) < |r.lines|
    ensures var k := Find(r.lines, updates[i].line);
            Stored(r, updates[..i + 1], lines[k := lines[k].(delivered := updates[i].target as real)])
  {
    var u, k := updates[i], Find(r.lines, updates[i].line);
    assert updates[..i + 1] == updates[..i] + [u];
    LookupIsUnique(updates[..i + 1], u);
    forall j | 0 <= j < |lines| && j != k
      ensures Prospective(r, updates[..i + 1], r.lines[j]) == Prospective(r, updates[..i], r.lines[j])
    {
      SameLookup(updates[..i], u, r.lines[j].id);
    }
  }

  // ---------------------------------------------------------------- Helpers

  ghost predicate SameIds(a: seq<Line>, b: seq<Line>) {
    |a| == |b| && forall i :: 0 <= i < |a| ==> a[i].id == b[i].id
  }

  lemma {:induction false} SameFind(a: seq<Line>, b: seq<Line>, id: nat)
    requires SameIds(a, b)
    ensures Find(a, id) == Find(b, id)
  {
    if a != [] && a[0].id != id {
      SameFind(a[1..], b[1..], id);
    }
  }

  lemma NotYetNamed(updates: seq<Update>, i: nat)
    requires DistinctUpdates(updates) && i < |updates|
    ensures Lookup(updates[..i], updates[i].line).None?
  {
    forall w | w in updates[..i] ensures w.line != updates[i].line {
      var k :| 0 <= k < i && updates[k] == w;
    }
  }

  lemma {:induction false} FirstRefusalDecides(r: Request, updates: seq<Update>, i: nat)
    requires i <= |updates| && CheckUpdates(r, updates[..i]).Some?
    ensures CheckUpdates(r, updates) == CheckUpdates(r, updates[..i])
    decreases |updates|
  {
    if i == |updates| {
      assert updates[..i] == updates;
    } else {
      var shorter := updates[..|updates| - 1];
      assert shorter[..i] == updates[..i];
      FirstRefusalDecides(r, shorter, i);
    }
  }

  lemma {:induction false} FirstAmountDecides(r: Request, amounts: seq<Amount>, i: nat)
    requires i <= |amounts| && CheckAmounts(r, amounts[..i]).Some?
    ensures CheckAmounts(r, amounts) == CheckAmounts(r, amounts[..i])
    decreases |amounts|
  {
    if i == |amounts| {
      assert amounts[..i] == amounts;
    } else {
      var shorter := amounts[..|amounts| - 1];
      assert shorter[..i] == amounts[..i];
      FirstAmountDecides(r, shorter, i);
    }
  }
}
