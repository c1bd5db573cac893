/**
 Deliveries that can be taken back, mixed with updates and further deliveries.
 */
module FulfilmentReversals {
  import opened Wrappers
  import opened Fulfilment
  import opened FulfilmentProofs
  import opened FulfilmentReceipts

  datatype Step = Moving(move: Move) | Reversing(i: nat)

  function Stepped(r: Request, step: Step): Request {
    match step
    case Moving(move) => Moved(r, move)
    case Reversing(i) => var done := Reverse(r, i); if done.Success? then done.value else r
  }

  function RunSteps(r: Request, steps: seq<Step>): Request
    decreases |steps|
  {
    if steps == [] then r else RunSteps(Stepped(r, steps[0]), steps[1..])
  }

  ghost predicate WellFormedSteps(steps: seq<Step>) {
    forall i :: 0 <= i < |steps| && steps[i].Moving? ==> WellFormedMove(steps[i].move)
  }

  // ---------------------------------------------------------------- What the events of a request look like

  ghost predicate TakesBack(events: seq<DeliveryEvent>, i: nat)
    requires i < |events| && events[i].Correction?
  {
    && events[i].of < i && events[events[i].of].Receipt?
    && events[i].amounts == TakenBack(events[events[i].of].amounts)
  }

  ghost predicate Positive(amounts: map<nat, real>) {
    forall id :: id in amounts ==> amounts[id] > 0.0
  }

  /** Receipts are positive; each correction takes back an earlier receipt, and no receipt is taken back twice. */
  ghost predicate Ledger(events: seq<DeliveryEvent>) {
    && (forall i :: 0 <= i < |events| && events[i].Correction? ==> TakesBack(events, i))
    && (forall i, j :: 0 <= i < j < |events| && events[i].Correction? && events[j].Correction? ==>
          events[i].of != events[j].of)
    && (forall i :: 0 <= i < |events| && events[i].Receipt? ==> Positive(events[i].amounts))
  }

  ghost predicate Kept(r: Request) {
    Sound(r) && Ledger(r.events) && forall i {:trigger r.lines[i]} :: 0 <= i < |r.lines| ==> r.lines[i].delivered >= 0.0
  }

  /** The receipts among the first `n` events that no event takes back. */
  function Standing(events: seq<DeliveryEvent>, n: nat, id: nat): real
    requires n <= |events|
  {
    if n == 0 then 0.0
    else
      Standing(events, n - 1, id)
      + if events[n - 1].Receipt? && !Corrected(events, n - 1) then Share(events[n - 1].amounts, id) else 0.0
  }

  lemma {:induction false} StandingAfterReceipt(events: seq<DeliveryEvent>, amounts: map<nat, real>, n: nat, id: nat)
    requires n <= |events|
    ensures Standing(events + [Receipt(amounts)], n, id) == Standing(events, n, id)
  {
    if n > 0 {
      StandingAfterReceipt(events, amounts, n - 1, id);
      ReceiptCorrectsNothing(events, amounts, n - 1);
    }
  }

  lemma ReceiptCorrectsNothing(events: seq<DeliveryEvent>, amounts: map<nat, real>, i: nat)
    ensures Corrected(events + [Receipt(amounts)], i) <==> Corrected(events, i)
  {
    var longer := events + [Receipt(amounts)];
    if Corrected(events, i) {
      var j :| 0 <= j < |events| && events[j].Correction? && events[j].of == i;
      assert longer[j] == events[j];
    }
    if Corrected(longer, i) {
      var j :| 0 <= j < |longer| && longer[j].Correction? && longer[j].of == i;
      assert events[j] == longer[j];
    }
  }

  lemma CorrectionCorrects(events: seq<DeliveryEvent>, last: DeliveryEvent, i: nat)
    requires last.Correction?
    ensures Corrected(events + [last], i) <==> Corrected(events, i) || last.of == i
  {
    var longer := events + [last];
    if Corrected(events, i) {
      var j :| 0 <= j < |events| && events[j].Correction? && events[j].of == i;
      assert longer[j] == events[j];
    }
    if last.of == i {
      assert longer[|events|] == last;
    }
    if Corrected(longer, i) {
      var j :| 0 <= j < |longer| && longer[j].Correction? && longer[j].of == i;
      assert j < |events| ==> events[j] == longer[j];
    }
  }

  lemma {:induction false} StandingAfterCorrection(events: seq<DeliveryEvent>, last: DeliveryEvent, n: nat, id: nat)
    requires n <= |events| && last.Correction? && last.of < |events| && events[last.of].Receipt?
    requires !Corrected(events, last.of)
    ensures Standing(events + [last], n, id)
         == Standing(events, n, id) - if last.of < n then Share(events[last.of].amounts, id) else 0.0
  {
    if n > 0 {
      StandingAfterCorrection(events, last, n - 1, id);
      CorrectionCorrects(events, last, n - 1);
    }
  }

  lemma LedgerPrefix(events: seq<DeliveryEvent>)
    requires Ledger(events) && events != []
    ensures Ledger(events[..|events| - 1])
    ensures var last := events[|events| - 1]; last.Correction? ==> !Corrected(events[..|events| - 1], last.of)
    ensures !Corrected(events, |events| - 1)
  {
    var shorter := events[..|events| - 1];
    forall i | 0 <= i < |shorter| && shorter[i].Correction?
      ensures TakesBack(shorter, i)
    {
      assert TakesBack(events, i);
    }
    forall j | 0 <= j < |events| && events[j].Correction?
      ensures events[j].of < j
    {
      assert TakesBack(events, j);
    }
  }

  /** The sum over all events is the sum over the receipts that stand. */
  lemma {:induction false} SumIsStanding(events: seq<DeliveryEvent>, id: nat)
    requires Ledger(events)
    ensures EventSum(events, id) == Standing(events, |events|, id)
    decreases |events|
  {
    if events != [] {
      var n := |events| - 1;
      var shorter, last := events[..n], events[n];
      assert shorter + [last] == events;
      LedgerPrefix(events);
      SumIsStanding(shorter, id);
      if last.Receipt? {
        StandingAfterReceipt(shorter, last.amounts, n, id);
      } else {
        assert TakesBack(events, n);
        StandingAfterCorrection(shorter, last, n, id);
      }
    }
  }

  lemma {:induction false} StandingIsNotNegative(events: seq<DeliveryEvent>, n: nat, id: nat)
    requires Ledger(events) && n <= |events|
    ensures Standing(events, n, id) >= 0.0
  {
    if n > 0 {
      StandingIsNotNegative(events, n - 1, id);
      assert events[n - 1].Receipt? ==> Positive(events[n - 1].amounts);
    }
  }

  /** What a line has received is what it had before there were events and the receipts that stand. */
  lemma ReceivedIsStanding(r: Request, line: Line)
    requires Ledger(r.events)
    ensures Received(r, line) == line.delivered + Standing(r.events, |r.events|, line.id)
    ensures Received(r, line) >= line.delivered
  {
    SumIsStanding(r.events, line.id);
    StandingIsNotNegative(r.events, |r.events|, line.id);
  }

  // ---------------------------------------------------------------- Every step keeps it

  lemma LedgerTakesReceipt(events: seq<DeliveryEvent>, amounts: map<nat, real>)
    requires Ledger(events) && Positive(amounts)
    ensures Ledger(events + [Receipt(amounts)])
  {
    var longer := events + [Receipt(amounts)];
    forall i | 0 <= i < |longer| && longer[i].Correction?
      ensures TakesBack(longer, i)
    {
      assert TakesBack(events, i);
    }
  }

  lemma LedgerTakesCorrection(events: seq<DeliveryEvent>, i: nat)
    requires Ledger(events) && i < |events| && events[i].Receipt? && !Corrected(events, i)
    ensures Ledger(events + [Correction(TakenBack(events[i].amounts), i)])
  {
    var longer := events + [Correction(TakenBack(events[i].amounts), i)];
    forall j | 0 <= j < |longer| && longer[j].Correction?
      ensures TakesBack(longer, j)
    {
      assert j < |events| ==> TakesBack(events, j);
    }
  }

  lemma {:induction false} DeltasArePositive(r: Request, updates: seq<Update>)
    ensures Positive(Deltas(r, updates))
  {
    if updates != [] {
      DeltasArePositive(r, updates[..|updates| - 1]);
    }
  }

  lemma {:induction false} BroughtIsPositive(r: Request, amounts: seq<Amount>)
    requires CheckAmounts(r, amounts).None?
    ensures Positive(Brought(amounts))
  {
    if amounts != [] {
      BroughtIsPositive(r, amounts[..|amounts| - 1]);
    }
  }

  lemma MoveAppends(r: Request, move: Move)
    requires Ledger(r.events)
    ensures Ledger(Moved(r, move).events) && r.events <= Moved(r, move).events
  {
    match move
    case Updating(payload) =>
      DeltasArePositive(r, payload.updates);
      LedgerTakesReceipt(r.events, Deltas(r, payload.updates));
    case Delivering(amounts) =>
      if CheckAmounts(r, amounts).None? {
        BroughtIsPositive(r, amounts);
        LedgerTakesReceipt(r.events, Brought(amounts));
      }
  }

  lemma MoveKeeps(r: Request, move: Move)
    requires Kept(r) && WellFormedMove(move)
    ensures Kept(Moved(r, move))
  {
    MovedKeeps(r, move);
    MoveAppends(r, move);
    MoveKeepsDelivered(r, move);
  }

  lemma MoveKeepsDelivered(r: Request, move: Move)
    requires Kept(r) && Sound(Moved(r, move)) && WellFormedMove(move)
    ensures forall i :: 0 <= i < |Moved(r, move).lines| ==> Moved(r, move).lines[i].delivered >= 0.0
  {
    var e := Moved(r, move);
    if move.Updating? && !r.snapshot {
      EventsStay(r, move.payload);
      forall i | 0 <= i < |e.lines|
        ensures e.lines[i].delivered >= 0.0
      {
        assert LineFits(e, e.lines[i]);
      }
    } else if move.Updating? {
      SnapshotLinesStay(r, move.payload);
    }
  }

  lemma EventsStay(r: Request, payload: Payload)
    requires Sound(r) && !r.snapshot
    ensures Next(r, payload).events == []
  {
  }

  /** A reversal lowers each line by what the receipt had brought, never below what was there before all events. */
  lemma ReversedRows(r: Request, i: nat)
    requires Kept(r) && Reverse(r, i).Success?
    ensures var e := Reverse(r, i).value;
            && Ledger(e.events) && r.events <= e.events && e.lines == r.lines && e.snapshot == r.snapshot
            && forall j {:trigger r.lines[j]} :: 0 <= j < |r.lines| ==>
                 && Received(e, r.lines[j]) == Received(r, r.lines[j]) - Share(r.events[i].amounts, r.lines[j].id)
                 && 0.0 <= r.lines[j].delivered <= Received(e, r.lines[j]) <= Received(r, r.lines[j])
  {
    var e := Reverse(r, i).value;
    LedgerTakesCorrection(r.events, i);
    assert e.events[..|e.events| - 1] == r.events;
    forall j | 0 <= j < |r.lines|
      ensures Received(e, r.lines[j]) == Received(r, r.lines[j]) - Share(r.events[i].amounts, r.lines[j].id)
      ensures 0.0 <= r.lines[j].delivered <= Received(e, r.lines[j]) <= Received(r, r.lines[j])
    {
      assert Positive(r.events[i].amounts);
      ReceivedIsStanding(e, r.lines[j]);
    }
  }

  lemma ReverseKeeps(r: Request, i: nat)
    requires Kept(r) && Reverse(r, i).Success?
    ensures Kept(Reverse(r, i).value)
  {
    var e := Reverse(r, i).value;
    ReversedRows(r, i);
    var reversed := r.(events := e.events);
    SameRows(reversed, e);
    forall j | 0 <= j < |r.lines|
      ensures LineFits(e, r.lines[j])
    {
      assert LineFits(r, r.lines[j]);
    }
    hide Ledger;
  }

  lemma StepKeeps(r: Request, step: Step)
    requires Kept(r) && (step.Moving? ==> WellFormedMove(step.move))
    ensures Kept(Stepped(r, step)) && r.events <= Stepped(r, step).events
  {
    match step
    case Moving(move) =>
      MoveKeeps(r, move);
      MoveAppends(r, move);
    case Reversing(i) =>
      if Reverse(r, i).Success? {
        ReverseKeeps(r, i);
        ReversedRows(r, i);
      }
  }

  /**
   Over every run of updates, deliveries and reversals each line stays between zero and its quantity, the status agrees
   with the lines, no event goes, and no receipt is taken back twice.
   */
  lemma {:induction false} StepsKeep(r: Request, steps: seq<Step>)
    requires Kept(r) && WellFormedSteps(steps)
    ensures Kept(RunSteps(r, steps)) && r.events <= RunSteps(r, steps).events
    decreases |steps|
  {
    hide Kept;
    if steps != [] {
      StepKeeps(r, steps[0]);
      StepsKeep(Stepped(r, steps[0]), steps[1..]);
    }
  }

  lemma CorrectedStays(before: seq<DeliveryEvent>, after: seq<DeliveryEvent>, i: nat)
    requires before <= after && Corrected(before, i)
    ensures Corrected(after, i)
  {
    var j :| 0 <= j < |before| && before[j].Correction? && before[j].of == i;
    assert after[j] == before[j];
  }

  /** What was taken back once is refused after every run. */
  lemma ReversedOnce(r: Request, i: nat, steps: seq<Step>)
    requires Kept(r) && WellFormedSteps(steps) && Reverse(r, i).Success?
    ensures Reverse(RunSteps(Reverse(r, i).value, steps), i).Failure?
  {
    var e := Reverse(r, i).value;
    ReverseKeeps(r, i);
    CorrectionCorrects(r.events, e.events[|r.events|], i);
    assert e.events == r.events + [e.events[|r.events|]];
    StepsKeep(e, steps);
    CorrectedStays(e.events, RunSteps(e, steps).events, i);
  }

  /** Taking back the last delivery restores what every line had received, and the status that calls for. */
  lemma ReversalUndoesDelivery(r: Request, amounts: seq<Amount>)
    requires Kept(r) && WellFormedMove(Delivering(amounts)) && Deliver(r, amounts).Success?
    ensures var e := Deliver(r, amounts).value;
            Reverse(e, |r.events|).Success?
            && var u := Reverse(e, |r.events|).value;
               && u.status == StatusOf(r)
               && u.lines == r.lines && forall i :: 0 <= i < |r.lines| ==>
                  Received(u, r.lines[i]) == Received(r, r.lines[i])
  {
    var e := Deliver(r, amounts).value;
    MoveKeeps(r, Delivering(amounts));
    DeliveredRows(r, amounts);
    ReceiptIsNew(r.events, Brought(amounts));
    var u := Reverse(e, |r.events|).value;
    ReversedRows(e, |r.events|);
    SameStatus(r, u, e);
  }

  lemma ReceiptIsNew(events: seq<DeliveryEvent>, amounts: map<nat, real>)
    requires Ledger(events)
    ensures !Corrected(events + [Receipt(amounts)], |events|)
  {
    ReceiptCorrectsNothing(events, amounts, |events|);
    forall j | 0 <= j < |events| && events[j].Correction?
      ensures events[j].of < j
    {
      assert TakesBack(events, j);
    }
  }

  lemma SameStatus(r: Request, u: Request, e: Request)
    requires u.lines == r.lines && u.ordered == r.ordered && r.status != Cancelled
    requires u.status == StatusOf(u.(status := e.status))
    requires e.status != Cancelled
    requires forall i :: 0 <= i < |r.lines| ==> Received(u, r.lines[i]) == Received(r, r.lines[i])
    ensures u.status == StatusOf(r)
  {
    var v := u.(status := e.status);
    SameRows(u, v);
    forall i | 0 <= i < |r.lines|
      ensures Prospective(v, [], v.lines[i]) == Prospective(r, [], r.lines[i])
    {
    }
    assert AllFull(v, []) == AllFull(r, []);
    assert AnyReceived(v, []) == AnyReceived(r, []) by {
      if AnyReceived(v, []) {
        var i :| 0 <= i < |v.lines| && Prospective(v, [], v.lines[i]) != 0.0;
        assert Prospective(r, [], r.lines[i]) != 0.0;
      }
      if AnyReceived(r, []) {
        var i :| 0 <= i < |r.lines| && Prospective(r, [], r.lines[i]) != 0.0;
        assert Prospective(v, [], v.lines[i]) != 0.0;
      }
    }
  }

  // ---------------------------------------------------------------- Everything can be taken back

  lemma {:induction false} RunStepsConcat(r: Request, a: seq<Step>, b: seq<Step>)
    ensures RunSteps(r, a + b) == RunSteps(RunSteps(r, a), b)
    decreases |a|
  {
    if a == [] {
      assert a + b == b;
    } else {
      assert (a + b)[1..] == a[1..] + b;
      RunStepsConcat(Stepped(r, a[0]), a[1..], b);
    }
  }

  /** `e` continues `r` by corrections alone, and every receipt before place `n` is taken back. */
  ghost predicate TakenBackUpTo(r: Request, e: Request, n: nat) {
    && Kept(e) && e.status != Cancelled && e.lines == r.lines && r.events <= e.events
    && (forall k :: |r.events| <= k < |e.events| ==> e.events[k].Correction?)
    && (forall k :: 0 <= k < n && k < |e.events| && e.events[k].Receipt? ==> Corrected(e.events, k))
  }

  lemma {:induction false} TakeBack(r: Request, n: nat) returns (steps: seq<Step>)
    requires Kept(r) && r.status != Cancelled && n <= |r.events|
    ensures WellFormedSteps(steps) && TakenBackUpTo(r, RunSteps(r, steps), n)
  {
    hide Kept, Corrected, StatusOf;
    if n == 0 {
      steps := [];
    } else {
      var earlier := TakeBack(r, n - 1);
      var e := RunSteps(r, earlier);
      assert e.events[n - 1] == r.events[n - 1];
      if Reverse(e, n - 1).Success? {
        var last := [Reversing(n - 1)];
        assert last[1..] == [] && RunSteps(e, last) == Reverse(e, n - 1).value;
        steps := earlier + last;
        RunStepsConcat(r, earlier, last);
        OneMoreTakenBack(r, e, n);
      } else {
        steps := earlier;
      }
    }
  }

  lemma OneMoreTakenBack(r: Request, e: Request, n: nat)
    requires 0 < n <= |r.events| && TakenBackUpTo(r, e, n - 1) && Reverse(e, n - 1).Success?
    ensures TakenBackUpTo(r, Reverse(e, n - 1).value, n)
  {
    var f := Reverse(e, n - 1).value;
    ReverseKeeps(e, n - 1);
    forall k | 0 <= k < n && f.events[k].Receipt?
      ensures Corrected(f.events, k)
    {
      CorrectionCorrects(e.events, f.events[|e.events|], k);
      assert f.events == e.events + [f.events[|e.events|]];
    }
    hide Kept, Corrected;
  }

  lemma {:induction false} NothingStands(events: seq<DeliveryEvent>, n: nat, id: nat)
    requires n <= |events| && forall k :: 0 <= k < n && events[k].Receipt? ==> Corrected(events, k)
    ensures Standing(events, n, id) == 0.0
  {
    if n > 0 {
      NothingStands(events, n - 1, id);
    }
  }

  /** Unless it is cancelled, a request can be brought back to what its lines had received before all deliveries. */
  lemma EverythingCanBeTakenBack(r: Request) returns (steps: seq<Step>)
    requires Kept(r) && r.status != Cancelled
    ensures WellFormedSteps(steps)
    ensures var e := RunSteps(r, steps);
            e.lines == r.lines && forall i :: 0 <= i < |r.lines| ==> Received(e, r.lines[i]) == r.lines[i].delivered
  {
    steps := TakeBack(r, |r.events|);
    var e := RunSteps(r, steps);
    forall i | 0 <= i < |r.lines|
      ensures Received(e, r.lines[i]) == r.lines[i].delivered
    {
      ReceivedIsStanding(e, r.lines[i]);
      NothingStands(e.events, |e.events|, r.lines[i].id);
    }
  }
}
