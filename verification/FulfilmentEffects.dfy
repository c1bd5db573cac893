/**
 When exactly each fulfilment handler accepts, and what its request then is, said line by line.
 */
module FulfilmentEffects {
  import opened Wrappers
  import opened Fulfilment
  import opened FulfilmentProofs
  import opened FulfilmentReceipts

  /** What a line will have received: the target that names it, or what it has. */
  ghost predicate Gets(r: Request, updates: seq<Update>, line: Line, amount: real) {
    || (exists k :: 0 <= k < |updates| && updates[k].line == line.id && amount == updates[k].target as real)
    || ((forall k :: 0 <= k < |updates| ==> updates[k].line != line.id) && amount == Received(r, line))
  }

  /** Every line gets what its target says, none less than it has and none more than was ordered. */
  ghost predicate GoodTargets(r: Request, updates: seq<Update>) {
    forall k :: 0 <= k < |updates| ==> GoodTarget(r, updates[k])
  }

  ghost predicate GoodTarget(r: Request, u: Update) {
    exists i :: 0 <= i < |r.lines| && r.lines[i].id == u.line
      && Received(r, r.lines[i]) <= u.target as real <= r.lines[i].quantity
  }

  lemma LookupGets(r: Request, updates: seq<Update>, line: Line, amount: real)
    requires DistinctUpdates(updates)
    ensures Gets(r, updates, line, amount) <==> Prospective(r, updates, line) == amount
  {
    var target := Lookup(updates, line.id);
    if target.Some? {
      var k :| 0 <= k < |updates| && updates[k] == Update(line.id, target.value);
      assert forall j :: 0 <= j < |updates| && updates[j].line == line.id ==> j == k;
    } else {
      assert forall k :: 0 <= k < |updates| ==> updates[k] in updates;
    }
  }

  lemma OneGoodTarget(r: Request, u: Update)
    requires DistinctLines(r.lines)
    ensures var i := Find(r.lines, u.line);
            GoodTarget(r, u) <==>
              i < |r.lines| && Received(r, r.lines[i]) <= u.target as real <= r.lines[i].quantity
  {
    hide Received;
    if GoodTarget(r, u) {
      var j :| 0 <= j < |r.lines| && r.lines[j].id == u.line
        && Received(r, r.lines[j]) <= u.target as real <= r.lines[j].quantity;
      FindIsThere(r.lines, j);
    }
  }

  lemma {:induction false} ChecksAreGoodTargets(r: Request, updates: seq<Update>)
    requires DistinctLines(r.lines)
    ensures CheckUpdates(r, updates).None? <==> GoodTargets(r, updates)
  {
    hide Received, GoodTarget, DistinctLines;
    if updates != [] {
      var n := |updates| - 1;
      ChecksAreGoodTargets(r, updates[..n]);
      OneGoodTarget(r, updates[n]);
      assert forall k :: 0 <= k < n ==> updates[..n][k] == updates[k];
    }
  }

  /** The order is the first step, and then deliveries may be recorded until everything is delivered. */
  ghost predicate GoesOn(before: Status, after: Status) {
    || (before == Approved && after == Ordered)
    || (before == Ordered && (after == PartiallyDelivered || after == Delivered))
    || (before == PartiallyDelivered && (after == PartiallyDelivered || after == Delivered))
  }

  /** The status a delivery is recorded under: everything received, or something but not everything. */
  ghost predicate StatusFits(r: Request, p: Payload) {
    && (p.status == Delivered ==>
          forall i :: 0 <= i < |r.lines| ==> Gets(r, p.updates, r.lines[i], r.lines[i].quantity))
    && (p.status == PartiallyDelivered ==>
          && (exists i :: 0 <= i < |r.lines| && !Gets(r, p.updates, r.lines[i], 0.0))
          && (exists i :: 0 <= i < |r.lines| && !Gets(r, p.updates, r.lines[i], r.lines[i].quantity)))
  }

  lemma FittingExactly(r: Request, p: Payload)
    requires DistinctLines(r.lines) && WellFormed(p)
    ensures Fitting(r, p) <==> GoesOn(r.status, p.status) && GoodTargets(r, p.updates) && StatusFits(r, p)
  {
    ChecksAreGoodTargets(r, p.updates);
    forall i, amount | 0 <= i < |r.lines|
      ensures Gets(r, p.updates, r.lines[i], amount) <==> Prospective(r, p.updates, r.lines[i]) == amount
    {
      LookupGets(r, p.updates, r.lines[i], amount);
    }
    hide Gets, Prospective, GoodTargets, CheckUpdates;
  }

  /** Whole amounts of what is counted: all lines of requests that are not free-form, and countable lines of those. */
  ghost predicate AddsWholeWhereCounted(r: Request, updates: seq<Update>) {
    forall i, amount ::
      (0 <= i < |r.lines| && (!r.freeForm || r.lines[i].countable) && Gets(r, updates, r.lines[i], amount)) ==>
        Whole(amount - Received(r, r.lines[i]))
  }

  /** What the deltas tell of one line. */
  lemma DeltaTells(r: Request, updates: seq<Update>, i: nat)
    requires DistinctLines(r.lines) && DistinctUpdates(updates) && CheckUpdates(r, updates).None?
    requires i < |r.lines| && LineFits(r, r.lines[i])
    ensures Find(r.lines, r.lines[i].id) == i
    ensures forall amount :: Gets(r, updates, r.lines[i], amount) <==> Prospective(r, updates, r.lines[i]) == amount
    ensures var deltas, delta := Deltas(r, updates), Prospective(r, updates, r.lines[i]) - Received(r, r.lines[i]);
            && (r.lines[i].id in deltas <==> delta != 0.0) && (delta != 0.0 ==> deltas[r.lines[i].id] == delta)
  {
    FindIsThere(r.lines, i);
    DeltaOf(r, updates, i);
    ProspectiveFits(r, updates, i);
    forall amount ensures Gets(r, updates, r.lines[i], amount) <==> Prospective(r, updates, r.lines[i]) == amount {
      LookupGets(r, updates, r.lines[i], amount);
    }
  }

  lemma NoDeltaExactly(r: Request, updates: seq<Update>)
    requires DistinctLines(r.lines) && DistinctUpdates(updates) && CheckUpdates(r, updates).None?
    requires forall i :: 0 <= i < |r.lines| ==> LineFits(r, r.lines[i])
    ensures Deltas(r, updates) == map[] <==> forall i :: 0 <= i < |r.lines| ==>
              Gets(r, updates, r.lines[i], Received(r, r.lines[i]))
  {
    forall i | 0 <= i < |r.lines|
      ensures r.lines[i].id !in Deltas(r, updates) <==> Gets(r, updates, r.lines[i], Received(r, r.lines[i]))
    {
      DeltaTells(r, updates, i);
    }
    DeltasNameLines(r, updates);
    hide Gets, Received, Deltas, Find;
    if forall i :: 0 <= i < |r.lines| ==> Gets(r, updates, r.lines[i], Received(r, r.lines[i])) {
      assert forall id :: id !in Deltas(r, updates);
    }
  }

  lemma DivisibleExactly(r: Request, updates: seq<Update>)
    requires DistinctLines(r.lines) && DistinctUpdates(updates) && CheckUpdates(r, updates).None?
    requires forall i :: 0 <= i < |r.lines| ==> LineFits(r, r.lines[i])
    ensures DeltasDivisible(r, Deltas(r, updates)) <==> AddsWholeWhereCounted(r, updates)
  {
    hide Gets, Received, Deltas, Find, Prospective, CheckUpdates, LineFits;
    var deltas := Deltas(r, updates);
    DeltasNameLines(r, updates);
    if AddsWholeWhereCounted(r, updates) {
      forall id | id in deltas && Find(r.lines, id) < |r.lines| && Indivisible(r, r.lines[Find(r.lines, id)])
        ensures Whole(deltas[id])
      {
        var i := Find(r.lines, id);
        DeltaTells(r, updates, i);
        assert Gets(r, updates, r.lines[i], Prospective(r, updates, r.lines[i]));
      }
    }
    if DeltasDivisible(r, deltas) {
      forall i, amount | 0 <= i < |r.lines| && (!r.freeForm || r.lines[i].countable)
          && Gets(r, updates, r.lines[i], amount)
        ensures Whole(amount - Received(r, r.lines[i]))
      {
        DeltaTells(r, updates, i);
        assert amount == Prospective(r, updates, r.lines[i]);
        assert Whole(0.0);
      }
    }
  }

  lemma {:induction false} DeltasNameLines(r: Request, updates: seq<Update>)
    ensures forall id :: id in Deltas(r, updates) ==>
              Find(r.lines, id) < |r.lines| && r.lines[Find(r.lines, id)].id == id
  {
    if updates != [] {
      DeltasNameLines(r, updates[..|updates| - 1]);
    }
  }

  /** Some quantity of a request that is not free-form is not whole. */
  ghost predicate HasFractions(r: Request) {
    !r.freeForm && exists i :: 0 <= i < |r.lines| && !(Whole(r.lines[i].quantity) && Whole(r.lines[i].delivered))
  }

  /**
   When an update is accepted. With an approval snapshot an order must bring nothing and a delivery only whole amounts
   where pieces are counted; without one the request must not have fractions.
   */
  lemma UpdatesExactly(r: Request, p: Payload)
    requires Sound(r) && WellFormed(p) && p.status != Cancelled
    ensures Fulfil(r, p).Success? <==>
            && GoesOn(r.status, p.status) && GoodTargets(r, p.updates) && StatusFits(r, p)
            && (if !r.snapshot then !HasFractions(r)
                else if p.status == Ordered then
                  forall i :: 0 <= i < |r.lines| ==> Gets(r, p.updates, r.lines[i], Received(r, r.lines[i]))
                else AddsWholeWhereCounted(r, p.updates))
  {
    FittingExactly(r, p);
    if r.snapshot {
      SnapshotAcceptsIff(r, p);
      if Fitting(r, p) {
        NoDeltaExactly(r, p.updates);
        DivisibleExactly(r, p.updates);
      }
    } else {
      LegacyAcceptsIff(r, p);
    }
    hide GoodTargets, StatusFits, AddsWholeWhereCounted, FulfilSnapshot, FulfilLegacy, Gets;
  }

  /** The confirmation, the reason, and a request on its way: nothing else is asked of a cancellation. */
  lemma CancelsExactly(r: Request, p: Payload)
    requires p.status == Cancelled
    ensures Fulfil(r, p).Success? <==>
            && p.confirmed && p.note && p.updates == []
            && (r.status == Approved || r.status == Ordered || r.status == PartiallyDelivered)
    ensures Fulfil(r, p).Success? ==>
            Fulfil(r, p).value == Request(Cancelled, r.snapshot, r.freeForm, r.ordered, r.lines, r.events)
  {
  }

  /** An accepted update takes the status asked for and gives each line what it gets, and changes nothing else. */
  lemma UpdatesGive(r: Request, p: Payload)
    requires Sound(r) && WellFormed(p) && p.status != Cancelled && Fulfil(r, p).Success?
    ensures var e := Fulfil(r, p).value;
            && e.status == p.status && e.ordered == (r.ordered || p.status == Ordered)
            && e.snapshot == r.snapshot && e.freeForm == r.freeForm && |e.lines| == |r.lines|
            && (r.snapshot ==> e.lines == r.lines) && (!r.snapshot ==> e.events == r.events)
            && forall i :: 0 <= i < |r.lines| ==>
                 && e.lines[i] == Line(r.lines[i].id, r.lines[i].quantity, e.lines[i].delivered, r.lines[i].countable)
                 && Gets(r, p.updates, r.lines[i], Received(e, e.lines[i]))
  {
    hide Gets, Fulfil, Received, Prospective, CheckUpdates, AllFull, AnyReceived, Sound;
    AcceptedMeans(r, p);
    OrUnchanged(r, p);
    forall i | 0 <= i < |r.lines| ensures Gets(r, p.updates, r.lines[i], Prospective(r, p.updates, r.lines[i])) {
      LookupGets(r, p.updates, r.lines[i], Prospective(r, p.updates, r.lines[i]));
    }
  }

  /** With a snapshot the lines stay, without one the events. */
  lemma OrUnchanged(r: Request, p: Payload)
    requires Fulfil(r, p).Success?
    ensures r.snapshot ==> Fulfil(r, p).value.lines == r.lines
    ensures !r.snapshot ==> Fulfil(r, p).value.events == r.events
  {
    hide CheckUpdates, Deltas, AllFull, AnyReceived, DeltasDivisible, StatusOf, WithTargets, Sum, Find;
  }

  // ---------------------------------------------------------------- Deliveries and reversals

  /** The status that the received quantities call for. */
  ghost predicate StatusIs(r: Request, status: Status) {
    if forall i :: 0 <= i < |r.lines| ==> Received(r, r.lines[i]) == r.lines[i].quantity then status == Delivered
    else if exists i :: 0 <= i < |r.lines| && Received(r, r.lines[i]) != 0.0 then status == PartiallyDelivered
    else status == if r.ordered then Ordered else Approved
  }

  lemma StatusOfIs(r: Request)
    requires r.status != Cancelled
    ensures StatusIs(r, StatusOf(r))
    ensures StatusIs(r.(status := StatusOf(r)), StatusOf(r))
  {
    var e := r.(status := StatusOf(r));
    forall i | 0 <= i < |r.lines|
      ensures Received(e, r.lines[i]) == Received(r, r.lines[i]) == Prospective(r, [], r.lines[i])
    {
    }
    hide Received, Prospective;
    assert AnyReceived(r, []) <==> exists i :: 0 <= i < |r.lines| && Prospective(r, [], r.lines[i]) != 0.0;
    if exists i :: 0 <= i < |r.lines| && Received(r, r.lines[i]) != 0.0 {
      var i :| 0 <= i < |r.lines| && Received(r, r.lines[i]) != 0.0;
      assert Prospective(r, [], r.lines[i]) != 0.0 && Received(e, e.lines[i]) != 0.0;
    }
    if AnyReceived(r, []) {
      var i :| 0 <= i < |r.lines| && Prospective(r, [], r.lines[i]) != 0.0;
      assert Received(r, r.lines[i]) != 0.0 && Received(e, e.lines[i]) != 0.0;
    }
  }

  /** A positive amount, whole where pieces are counted, that the line has room for. */
  ghost predicate GoodAmount(r: Request, a: Amount) {
    exists i :: 0 <= i < |r.lines| && r.lines[i].id == a.line && a.quantity > 0.0
      && (!r.freeForm || r.lines[i].countable ==> Whole(a.quantity))
      && Received(r, r.lines[i]) + a.quantity <= r.lines[i].quantity
  }

  lemma {:induction false} ChecksAreGoodAmounts(r: Request, amounts: seq<Amount>)
    requires DistinctLines(r.lines)
    ensures CheckAmounts(r, amounts).None? <==> forall k :: 0 <= k < |amounts| ==> GoodAmount(r, amounts[k])
  {
    hide Received, GoodAmount, DistinctLines;
    if amounts != [] {
      var n := |amounts| - 1;
      ChecksAreGoodAmounts(r, amounts[..n]);
      OneGoodAmount(r, amounts[n]);
      assert forall k :: 0 <= k < n ==> amounts[..n][k] == amounts[k];
    }
  }

  lemma OneGoodAmount(r: Request, a: Amount)
    requires DistinctLines(r.lines)
    ensures var i := Find(r.lines, a.line);
            GoodAmount(r, a) <==>
              && i < |r.lines| && a.quantity > 0.0 && (Indivisible(r, r.lines[i]) ==> Whole(a.quantity))
              && Received(r, r.lines[i]) + a.quantity <= r.lines[i].quantity
  {
    hide Received;
    if GoodAmount(r, a) {
      var i :| 0 <= i < |r.lines| && r.lines[i].id == a.line && a.quantity > 0.0
        && (!r.freeForm || r.lines[i].countable ==> Whole(a.quantity))
        && Received(r, r.lines[i]) + a.quantity <= r.lines[i].quantity;
      FindIsThere(r.lines, i);
    }
  }

  /** What the amounts bring for a line: the one that names it, or nothing. */
  ghost predicate Brings(amounts: seq<Amount>, id: nat, quantity: real) {
    || (exists k :: 0 <= k < |amounts| && amounts[k] == Amount(id, quantity))
    || ((forall k :: 0 <= k < |amounts| ==> amounts[k].line != id) && quantity == 0.0)
  }

  lemma {:induction false} ShareIsBrought(amounts: seq<Amount>, id: nat)
    ensures Brings(amounts, id, Share(Brought(amounts), id))
    ensures id in Brought(amounts) <==> exists k :: 0 <= k < |amounts| && amounts[k].line == id
  {
    if amounts != [] {
      var n := |amounts| - 1;
      ShareIsBrought(amounts[..n], id);
      assert forall k :: 0 <= k < n ==> amounts[..n][k] == amounts[k];
      if amounts[n].line == id {
        assert amounts[n] == Amount(id, Share(Brought(amounts), id));
      } else if id in Brought(amounts[..n]) {
        var k :| 0 <= k < n && amounts[..n][k] == Amount(id, Share(Brought(amounts[..n]), id));
        assert amounts[k] == Amount(id, Share(Brought(amounts), id));
      }
    }
  }

  /** A delivery is accepted exactly on an approved request with a snapshot, and adds its amounts as one event. */
  lemma DeliversExactly(r: Request, amounts: seq<Amount>)
    requires Sound(r)
    ensures Deliver(r, amounts).Success? <==>
            && r.snapshot && (r.status == Approved || r.status == Ordered || r.status == PartiallyDelivered)
            && forall k :: 0 <= k < |amounts| ==> GoodAmount(r, amounts[k])
    ensures Deliver(r, amounts).Success? ==>
              var e := Deliver(r, amounts).value;
              && e.lines == r.lines && e.snapshot == r.snapshot && e.freeForm == r.freeForm && e.ordered == r.ordered
              && StatusIs(e, e.status) && |e.events| == |r.events| + 1 && e.events[..|r.events|] == r.events
              && e.events[|r.events|].Receipt?
              && forall i :: 0 <= i < |r.lines| ==>
                   Brings(amounts, r.lines[i].id, Received(e, r.lines[i]) - Received(r, r.lines[i]))
  {
    ChecksAreGoodAmounts(r, amounts);
    if Deliver(r, amounts).Success? {
      var received := r.(events := r.events + [Receipt(Brought(amounts))]);
      StatusOfIs(received);
      DeliveredRows(r, amounts);
      forall i | 0 <= i < |r.lines|
        ensures Brings(amounts, r.lines[i].id, Share(Brought(amounts), r.lines[i].id))
      {
        ShareIsBrought(amounts, r.lines[i].id);
      }
    }
    hide GoodAmount, CheckAmounts, StatusIs, Received, Brings, Sound;
  }

  lemma OneMoreEvent(r: Request, event: DeliveryEvent, line: Line)
    ensures var e := r.(events := r.events + [event]);
            Received(e, line) == Received(r, line) + Share(event.amounts, line.id)
  {
    assert (r.events + [event])[..|r.events|] == r.events;
  }

  /** A receipt is reversed exactly once, on a request that is not cancelled, and its amounts are taken off again. */
  lemma ReversesExactly(r: Request, i: nat)
    ensures Reverse(r, i).Success? <==>
            && r.status != Cancelled && i < |r.events| && r.events[i].Receipt?
            && forall j :: 0 <= j < |r.events| ==> r.events[j].Receipt? || r.events[j].of != i
    ensures Reverse(r, i).Success? ==>
              var e := Reverse(r, i).value;
              && e.lines == r.lines && e.snapshot == r.snapshot && e.freeForm == r.freeForm && e.ordered == r.ordered
              && StatusIs(e, e.status) && |e.events| == |r.events| + 1 && e.events[..|r.events|] == r.events
              && e.events[|r.events|].Correction? && e.events[|r.events|].of == i
              && forall l :: 0 <= l < |r.lines| ==>
                   Received(e, r.lines[l]) == Received(r, r.lines[l]) - Share(r.events[i].amounts, r.lines[l].id)
  {
    if Reverse(r, i).Success? {
      var event := Correction(TakenBack(r.events[i].amounts), i);
      var reversed := r.(events := r.events + [event]);
      StatusOfIs(reversed);
      forall l | 0 <= l < |r.lines|
        ensures Received(reversed, r.lines[l]) == Received(r, r.lines[l]) - Share(r.events[i].amounts, r.lines[l].id)
      {
        OneMoreEvent(r, event, r.lines[l]);
      }
    }
    hide StatusIs, StatusOf;
  }
}
