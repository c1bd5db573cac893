/**
 Fulfilment updates mixed with deliveries by amount, and exactly when the two together can deliver a request in full.
 */
module FulfilmentReceipts {
  import opened Wrappers
  import opened Fulfilment
  import opened FulfilmentProofs

  datatype Move = Updating(payload: Payload) | Delivering(amounts: seq<Amount>)

  predicate Distinct(amounts: seq<Amount>) {
    forall i, j :: 0 <= i < j < |amounts| ==> amounts[i].line != amounts[j].line
  }

  predicate SixDecimals(x: real) {
    Whole(x * 1_000_000.0)
  }

  predicate WithinLimits(a: Amount) {
    0.0 < a.quantity < 1_000_000_000.0 && SixDecimals(a.quantity)
  }

  /**
   The request schemas: a delivery names between one and 500 lines, none twice, with positive amounts below 10^9 of at
   most six decimals.
   */
  ghost predicate WellFormedMove(move: Move) {
    match move
    case Updating(payload) => WellFormed(payload)
    case Delivering(amounts) => 1 <= |amounts| <= 500 && Distinct(amounts) && forall a :: a in amounts ==>
      WithinLimits(a)
  }

  function Moved(r: Request, move: Move): Request {
    match move
    case Updating(payload) => Next(r, payload)
    case Delivering(amounts) => var done := Deliver(r, amounts); if done.Success? then done.value else r
  }

  function RunMoves(r: Request, moves: seq<Move>): Request
    decreases |moves|
  {
    if moves == [] then r else RunMoves(Moved(r, moves[0]), moves[1..])
  }

  ghost predicate WellFormedMoves(moves: seq<Move>) {
    forall i :: 0 <= i < |moves| ==> WellFormedMove(moves[i])
  }

  // ---------------------------------------------------------------- Deliveries keep the invariant

  /** Every amount belongs to a line, is positive, fits, and is whole where it has to be. */
  lemma {:induction false} BroughtFits(r: Request, amounts: seq<Amount>, i: nat)
    requires DistinctLines(r.lines) && CheckAmounts(r, amounts).None? && i < |r.lines|
    requires r.lines[i].id in Brought(amounts)
    ensures var amount := Brought(amounts)[r.lines[i].id];
            && 0.0 < amount && Received(r, r.lines[i]) + amount <= r.lines[i].quantity
            && (Indivisible(r, r.lines[i]) ==> Whole(amount))
    decreases |amounts|
  {
    hide Received, Indivisible;
    FindIsThere(r.lines, i);
    if amounts[|amounts| - 1].line != r.lines[i].id {
      BroughtFits(r, amounts[..|amounts| - 1], i);
    }
  }

  /** A delivery adds its amounts to the lines. */
  lemma DeliveredRows(r: Request, amounts: seq<Amount>)
    requires Sound(r) && Deliver(r, amounts).Success?
    ensures var e := Deliver(r, amounts).value;
            && e.lines == r.lines && e.snapshot == r.snapshot && e.freeForm == r.freeForm && e.ordered == r.ordered
            && (forall i {:trigger r.lines[i]} :: 0 <= i < |r.lines| ==>
                  && Received(e, r.lines[i]) == Received(r, r.lines[i]) + Share(Brought(amounts), r.lines[i].id)
                  && Received(r, r.lines[i]) <= Received(e, r.lines[i]) <= r.lines[i].quantity)
  {
    var e := Deliver(r, amounts).value;
    assert e.events[..|e.events| - 1] == r.events;
    forall i | 0 <= i < |r.lines|
      ensures Received(e, r.lines[i]) == Received(r, r.lines[i]) + Share(Brought(amounts), r.lines[i].id)
      ensures Received(r, r.lines[i]) <= Received(e, r.lines[i]) <= r.lines[i].quantity
    {
      assert LineFits(r, r.lines[i]);
      if r.lines[i].id in Brought(amounts) {
        BroughtFits(r, amounts, i);
      }
    }
  }

  lemma DeliverKeeps(r: Request, amounts: seq<Amount>)
    requires Sound(r) && Deliver(r, amounts).Success?
    ensures Sound(Deliver(r, amounts).value) && NeverLowers(r, Deliver(r, amounts).value)
  {
    var e := Deliver(r, amounts).value;
    DeliveredRows(r, amounts);
    var received := r.(events := r.events + [Receipt(Brought(amounts))]);
    SameRows(received, e);
  }

  lemma MovedKeeps(r: Request, move: Move)
    requires Sound(r) && WellFormedMove(move)
    ensures Sound(Moved(r, move)) && NeverLowers(r, Moved(r, move))
  {
    match move
    case Updating(payload) =>
      NextKeeps(r, payload);
    case Delivering(amounts) =>
      if Deliver(r, amounts).Success? {
        DeliverKeeps(r, amounts);
      }
  }

  /**
   Updates and deliveries in any order keep each line within its quantity, never lower it, and keep the status honest.
   */
  lemma {:induction false} MovesKeep(r: Request, moves: seq<Move>)
    requires Sound(r) && WellFormedMoves(moves)
    ensures Sound(RunMoves(r, moves)) && NeverLowers(r, RunMoves(r, moves))
    decreases |moves|
  {
    hide Sound, NeverLowers, WellFormedMove;
    if moves == [] {
      Unmoved(r);
    } else {
      MovedKeeps(r, moves[0]);
      MovesKeep(Moved(r, moves[0]), moves[1..]);
      Transitive(r, Moved(r, moves[0]), RunMoves(r, moves));
    }
  }

  lemma Unmoved(r: Request)
    ensures NeverLowers(r, r)
  {
  }

  // ---------------------------------------------------------------- Lines that can be completed

  function Remainder(r: Request, i: nat): real
    requires i < |r.lines|
  {
    r.lines[i].quantity - Received(r, r.lines[i])
  }

  /**
   What is missing from a countable line is whole. From any other line it has at most six decimals, or the quantity has,
   and an integer target lies between what was received and the quantity.
   */
  ghost predicate Completable(r: Request, i: nat)
    requires i < |r.lines|
  {
    var line := r.lines[i];
    if Indivisible(r, line) then Whole(Remainder(r, i))
    else
      || SixDecimals(Remainder(r, i))
      || (SixDecimals(line.quantity) && line.quantity.Floor as real >= Received(r, line))
  }

  lemma WholePlusWhole(x: real, y: real)
    ensures Whole(x) && Whole(y) ==> Whole(x + y)
  {
    WholeMinusWhole(0.0, y);
    WholeMinusWhole(x, 0.0 - y);
    assert x - (0.0 - y) == x + y;
    hide Whole;
  }

  lemma SixDecimalsAdd(x: real, y: real)
    ensures SixDecimals(x) && SixDecimals(y) ==> SixDecimals(x + y) && SixDecimals(x - y)
  {
    WholePlusWhole(x * 1_000_000.0, y * 1_000_000.0);
    WholeMinusWhole(x * 1_000_000.0, y * 1_000_000.0);
    assert (x + y) * 1_000_000.0 == x * 1_000_000.0 + y * 1_000_000.0;
    assert (x - y) * 1_000_000.0 == x * 1_000_000.0 - y * 1_000_000.0;
    hide Whole;
  }

  lemma WholeHasSixDecimals(x: real)
    requires Whole(x)
    ensures SixDecimals(x)
  {
    assert x * 1_000_000.0 == (x.Floor * 1_000_000) as real;
  }

  // ---------------------------------------------------------------- A line that cannot be completed never is

  lemma {:induction false} ShareIsWithinLimits(amounts: seq<Amount>, id: nat)
    requires forall a :: a in amounts ==> WithinLimits(a)
    ensures SixDecimals(Share(Brought(amounts), id))
  {
    hide SixDecimals;
    if amounts != [] {
      ShareIsWithinLimits(amounts[..|amounts| - 1], id);
      assert WithinLimits(amounts[|amounts| - 1]);
    } else {
      WholeHasSixDecimals(0.0);
    }
  }

  /** The line has received `added` more, by a delivery or by a target that is an integer. */
  lemma CompletableBefore(r: Request, e: Request, i: nat)
    requires i < |r.lines| && e.lines == r.lines && e.freeForm == r.freeForm && LineFits(r, r.lines[i])
    requires LineFits(e, r.lines[i])
    requires var added := Received(e, r.lines[i]) - Received(r, r.lines[i]);
             && added >= 0.0 && (Indivisible(r, r.lines[i]) ==> Whole(added))
             && (SixDecimals(added) || Whole(Received(e, r.lines[i])))
    requires Completable(e, i)
    ensures Completable(r, i)
  {
    hide Received, Whole, SixDecimals, Indivisible;
    var line := r.lines[i];
    var added := Received(e, line) - Received(r, line);
    assert Remainder(r, i) == Remainder(e, i) + added;
    if Indivisible(r, line) {
      WholePlusWhole(Remainder(e, i), added);
      assert Indivisible(e, line) by { SameDivisibility(r, e, line); }
    } else {
      assert !Indivisible(e, line) by { SameDivisibility(r, e, line); }
      SixDecimalsAdd(Remainder(e, i), added);
      if Whole(Received(e, line)) {
        WholeHasSixDecimals(Received(e, line));
        SixDecimalsAdd(Remainder(e, i), Received(e, line));
        assert Remainder(e, i) + Received(e, line) == line.quantity;
        IntegerBetween(Received(e, line), line.quantity);
      }
    }
  }

  lemma SameDivisibility(r: Request, e: Request, line: Line)
    requires e.freeForm == r.freeForm
    ensures Indivisible(r, line) == Indivisible(e, line)
  {
  }

  lemma IntegerBetween(x: real, quantity: real)
    requires Whole(x) && x <= quantity
    ensures quantity.Floor as real >= x
  {
  }

  lemma CompletableBeforeMove(r: Request, move: Move, i: nat)
    requires Sound(r) && r.snapshot && WellFormedMove(move) && i < |r.lines|
    requires i < |Moved(r, move).lines| && Completable(Moved(r, move), i)
    ensures Completable(r, i)
  {
    match move
    case Updating(payload) =>
      CompletableBeforeUpdate(r, payload, i);
    case Delivering(amounts) =>
      CompletableBeforeDelivery(r, amounts, i);
  }

  lemma CompletableBeforeDelivery(r: Request, amounts: seq<Amount>, i: nat)
    requires Sound(r) && WellFormedMove(Delivering(amounts)) && i < |r.lines|
    requires i < |Moved(r, Delivering(amounts)).lines| && Completable(Moved(r, Delivering(amounts)), i)
    ensures Completable(r, i)
  {
    hide Received, Whole, SixDecimals, Indivisible, Completable, CheckAmounts, Brought;
    if Deliver(r, amounts).Success? {
      var e := Deliver(r, amounts).value;
      DeliveredRows(r, amounts);
      DeliverKeeps(r, amounts);
      ShareIsWithinLimits(amounts, r.lines[i].id);
      ShareIsWhole(r, amounts, i);
      assert LineFits(r, r.lines[i]) && LineFits(e, r.lines[i]);
      CompletableBefore(r, e, i);
    }
  }

  lemma ShareIsWhole(r: Request, amounts: seq<Amount>, i: nat)
    requires DistinctLines(r.lines) && CheckAmounts(r, amounts).None? && i < |r.lines|
    ensures Indivisible(r, r.lines[i]) ==> Whole(Share(Brought(amounts), r.lines[i].id))
  {
    if r.lines[i].id in Brought(amounts) {
      BroughtFits(r, amounts, i);
    } else {
      WholeZero(Share(Brought(amounts), r.lines[i].id));
    }
  }

  /** An accepted update adds nothing to a countable line, or a whole amount. */
  lemma UpdateAddsWhole(r: Request, payload: Payload, i: nat)
    requires Sound(r) && r.snapshot && WellFormed(payload) && i < |r.lines| && Indivisible(r, r.lines[i])
    requires payload.status != Cancelled && Fulfil(r, payload).Success?
    ensures Whole(Prospective(r, payload.updates, r.lines[i]) - Received(r, r.lines[i]))
  {
    hide Fulfil, Prospective, Received, Whole, CheckUpdates, DeltasDivisible, Deltas, AllFull, AnyReceived, Indivisible;
    var before, after := Received(r, r.lines[i]), Prospective(r, payload.updates, r.lines[i]);
    AcceptedMeans(r, payload);
    AcceptedIsDivisible(r, payload);
    ProspectiveFits(r, payload.updates, i);
    if after > before {
      WholeDeltas(r, payload.updates, i);
    } else {
      WholeZero(after - before);
    }
  }

  lemma WholeZero(x: real)
    requires x == 0.0
    ensures Whole(x)
  {
  }

  lemma SnapshotLinesStay(r: Request, payload: Payload)
    requires r.snapshot
    ensures Next(r, payload).lines == r.lines && Next(r, payload).freeForm == r.freeForm
  {
  }

  lemma CompletableBeforeUpdate(r: Request, payload: Payload, i: nat)
    requires Sound(r) && r.snapshot && WellFormed(payload) && i < |r.lines|
    requires i < |Next(r, payload).lines| && Completable(Next(r, payload), i)
    ensures Completable(r, i)
  {
    hide Fulfil, Received, Whole, SixDecimals, Indivisible, Completable, AllFull, AnyReceived;
    var e := Next(r, payload);
    NextKeeps(r, payload);
    SnapshotLinesStay(r, payload);
    assert LineFits(r, r.lines[i]) && LineFits(e, r.lines[i]);
    if Fulfil(r, payload).Success? && payload.status != Cancelled {
      AcceptedMeans(r, payload);
      if Indivisible(r, r.lines[i]) {
        UpdateAddsWhole(r, payload, i);
      }
      TargetIsWhole(r, payload.updates, i);
      CompletableBefore(r, e, i);
    } else {
      NothingAdded(r, payload);
      WholeZero(Received(e, r.lines[i]) - Received(r, r.lines[i]));
      WholeHasSixDecimals(Received(e, r.lines[i]) - Received(r, r.lines[i]));
      CompletableBefore(r, e, i);
    }
  }

  /** A target is an integer; without one the line stays as it is. */
  lemma TargetIsWhole(r: Request, updates: seq<Update>, i: nat)
    requires i < |r.lines|
    ensures var after := Prospective(r, updates, r.lines[i]);
            SixDecimals(after - Received(r, r.lines[i])) || Whole(after)
  {
    if Lookup(updates, r.lines[i].id).None? {
      WholeZero(Prospective(r, updates, r.lines[i]) - Received(r, r.lines[i]));
      WholeHasSixDecimals(Prospective(r, updates, r.lines[i]) - Received(r, r.lines[i]));
    }
  }

  lemma NothingAdded(r: Request, payload: Payload)
    requires payload.status == Cancelled || Fulfil(r, payload).Failure?
    ensures forall i :: 0 <= i < |r.lines| ==> Received(Next(r, payload), r.lines[i]) == Received(r, r.lines[i])
  {
  }

  lemma SnapshotStays(r: Request, move: Move)
    ensures Moved(r, move).snapshot == r.snapshot && |Moved(r, move).lines| == |r.lines|
  {
  }

  lemma DeliveredIsCompletable(r: Request, i: nat)
    requires Sound(r) && i < |r.lines| && r.status == Delivered
    ensures Completable(r, i)
  {
    assert Prospective(r, [], r.lines[i]) == r.lines[i].quantity;
    WholeZero(Remainder(r, i));
    WholeHasSixDecimals(Remainder(r, i));
  }

  lemma {:induction false} DeliveredLinesWereCompletable(r: Request, moves: seq<Move>, i: nat)
    requires Sound(r) && r.snapshot && WellFormedMoves(moves) && i < |r.lines| && RunMoves(r, moves).status == Delivered
    ensures Completable(r, i)
    decreases |moves|
  {
    hide Sound, Completable, WellFormedMove;
    if moves == [] {
      DeliveredIsCompletable(r, i);
    } else {
      MovedKeeps(r, moves[0]);
      SnapshotStays(r, moves[0]);
      DeliveredLinesWereCompletable(Moved(r, moves[0]), moves[1..], i);
      CompletableBeforeMove(r, moves[0], i);
    }
  }

  // ---------------------------------------------------------------- Completing line by line

  /** The request is open, and line `i` may have received more than in `r`. */
  ghost predicate OnlyLine(r: Request, e: Request, i: nat) {
    && Sound(e) && e.snapshot && e.lines == r.lines && e.freeForm == r.freeForm
    && e.status in {Ordered, PartiallyDelivered, Delivered}
    && (forall j {:trigger r.lines[j]} :: 0 <= j < |r.lines| && j != i ==>
          Received(e, r.lines[j]) == Received(r, r.lines[j]))
  }

  ghost predicate Open(r: Request) {
    Sound(r) && r.snapshot && r.status in {Ordered, PartiallyDelivered}
  }

  lemma {:induction false} RunMovesConcat(r: Request, a: seq<Move>, b: seq<Move>)
    ensures RunMoves(r, a + b) == RunMoves(RunMoves(r, a), b)
    decreases |a|
  {
    if a == [] {
      assert a + b == b;
    } else {
      assert (a + b)[1..] == a[1..] + b;
      RunMovesConcat(Moved(r, a[0]), a[1..], b);
    }
  }

  lemma OneMove(r: Request, move: Move)
    requires WellFormedMove(move)
    ensures RunMoves(r, [move]) == Moved(r, move) && WellFormedMoves([move])
  {
    assert [move][1..] == [];
  }

  lemma DeliverOne(r: Request, i: nat, x: real)
    requires Open(r) && i < |r.lines| && 0.0 < x <= Remainder(r, i) && WithinLimits(Amount(r.lines[i].id, x))
    requires Indivisible(r, r.lines[i]) ==> Whole(x)
    ensures var move := Delivering([Amount(r.lines[i].id, x)]);
            && WellFormedMove(move) && OnlyLine(r, Moved(r, move), i)
            && Remainder(Moved(r, move), i) == Remainder(r, i) - x
  {
    var a := Amount(r.lines[i].id, x);
    FindIsThere(r.lines, i);
    assert [a][..0] == [];
    assert CheckAmounts(r, [a]).None?;
    assert Brought([a]) == map[a.line := x];
    DeliveredRows(r, [a]);
    DeliverKeeps(r, [a]);
    DeliveryOpens(r, [a], i);
  }

  lemma DeliveryOpens(r: Request, amounts: seq<Amount>, i: nat)
    requires Sound(r) && Deliver(r, amounts).Success? && i < |r.lines| && Share(Brought(amounts), r.lines[i].id) > 0.0
    ensures Deliver(r, amounts).value.status in {PartiallyDelivered, Delivered}
  {
    DeliveredRows(r, amounts);
    var received := r.(events := r.events + [Receipt(Brought(amounts))]);
    assert LineFits(r, r.lines[i]);
    assert Prospective(received, [], received.lines[i]) != 0.0;
  }

  lemma OnlyLineTwice(r: Request, e: Request, f: Request, i: nat)
    requires OnlyLine(r, e, i) && OnlyLine(e, f, i)
    ensures OnlyLine(r, f, i)
  {
    hide Sound, Received;
  }

  lemma NotFull(r: Request, i: nat)
    requires Sound(r) && i < |r.lines| && Remainder(r, i) != 0.0
    ensures r.status != Delivered
  {
    assert Prospective(r, [], r.lines[i]) == Received(r, r.lines[i]);
  }

  /** Below 10^9 one delivery completes the line; a larger remainder takes several. */
  lemma {:induction false} FillByAmounts(r: Request, i: nat) returns (moves: seq<Move>)
    requires Open(r) && i < |r.lines| && Remainder(r, i) > 0.0 && SixDecimals(Remainder(r, i))
    requires Indivisible(r, r.lines[i]) ==> Whole(Remainder(r, i))
    ensures WellFormedMoves(moves) && OnlyLine(r, RunMoves(r, moves), i) && Remainder(RunMoves(r, moves), i) == 0.0
    decreases Remainder(r, i).Floor
  {
    var rem := Remainder(r, i);
    var x := if rem < 1_000_000_000.0 then rem else 100_000_000.0;
    Portion(rem);
    var move := Delivering([Amount(r.lines[i].id, x)]);
    DeliverOne(r, i, x);
    var e := Moved(r, move);
    hide Whole, SixDecimals, Sound, Received, WellFormedMove, Moved, Indivisible;
    OneMove(r, move);
    if x == rem {
      moves := [move];
    } else {
      NotFull(e, i);
      SameDivisibility(r, e, r.lines[i]);
      var rest := FillByAmounts(e, i);
      moves := [move] + rest;
      RunMovesConcat(r, [move], rest);
      OnlyLineTwice(r, e, RunMoves(r, moves), i);
    }
  }

  lemma Portion(rem: real)
    requires rem > 0.0 && SixDecimals(rem)
    ensures SixDecimals(100_000_000.0) && Whole(100_000_000.0) && SixDecimals(rem - 100_000_000.0)
    ensures Whole(rem) ==> Whole(rem - 100_000_000.0)
    ensures rem >= 1_000_000_000.0 ==> 0 <= (rem - 100_000_000.0).Floor < rem.Floor
  {
    assert Whole(100_000_000.0);
    WholeHasSixDecimals(100_000_000.0);
    SixDecimalsAdd(rem, 100_000_000.0);
    WholeMinusWhole(rem, 100_000_000.0);
    hide SixDecimals;
  }

  /** An integer target for one line that is not countable. */
  lemma UpdateOne(r: Request, i: nat, target: nat) returns (move: Move)
    requires Open(r) && i < |r.lines| && !Indivisible(r, r.lines[i])
    requires Received(r, r.lines[i]) < target as real <= r.lines[i].quantity
    ensures WellFormedMove(move) && OnlyLine(r, Moved(r, move), i)
    ensures Received(Moved(r, move), r.lines[i]) == target as real
  {
    var u := Update(r.lines[i].id, target);
    var status := if AllFull(r, [u]) then Delivered else PartiallyDelivered;
    var payload := Payload(status, [u], false, false);
    move := Updating(payload);
    OneUpdate(r, i, u);
    assert LineFits(r, r.lines[i]);
    assert AnyReceived(r, [u]) by {
      assert Prospective(r, [u], r.lines[i]) == target as real;
    }
    assert Fulfil(r, payload).Success?;
    AcceptedMeans(r, payload);
    SnapshotLinesStay(r, payload);
    NextKeeps(r, payload);
  }

  lemma OneUpdate(r: Request, i: nat, u: Update)
    requires DistinctLines(r.lines) && i < |r.lines| && u.line == r.lines[i].id && !Indivisible(r, r.lines[i])
    requires Received(r, r.lines[i]) < u.target as real <= r.lines[i].quantity
    ensures CheckUpdates(r, [u]).None? && DeltasDivisible(r, Deltas(r, [u]))
    ensures forall j :: 0 <= j < |r.lines| ==>
              Prospective(r, [u], r.lines[j]) == if j == i then u.target as real else Received(r, r.lines[j])
  {
    FindIsThere(r.lines, i);
    assert [u][..0] == [] && [u][1..] == [];
  }

  lemma FillLine(r: Request, i: nat) returns (moves: seq<Move>)
    requires Open(r) && i < |r.lines| && Completable(r, i) && Remainder(r, i) > 0.0
    ensures WellFormedMoves(moves) && OnlyLine(r, RunMoves(r, moves), i) && Remainder(RunMoves(r, moves), i) == 0.0
  {
    var line := r.lines[i];
    if Indivisible(r, line) {
      WholeHasSixDecimals(Remainder(r, i));
    }
    if SixDecimals(Remainder(r, i)) {
      moves := FillByAmounts(r, i);
    } else {
      moves := FillThroughInteger(r, i);
    }
  }

  lemma FillThroughInteger(r: Request, i: nat) returns (moves: seq<Move>)
    requires Open(r) && i < |r.lines| && Remainder(r, i) > 0.0 && !Indivisible(r, r.lines[i])
    requires !SixDecimals(Remainder(r, i)) && SixDecimals(r.lines[i].quantity)
    requires r.lines[i].quantity.Floor as real >= Received(r, r.lines[i])
    ensures WellFormedMoves(moves) && OnlyLine(r, RunMoves(r, moves), i) && Remainder(RunMoves(r, moves), i) == 0.0
  {
    var line := r.lines[i];
    assert LineFits(r, line);
    IntegerTarget(r, i);
    var move := UpdateOne(r, i, line.quantity.Floor);
    var e := Moved(r, move);
    hide Whole, SixDecimals, Sound, Received, WellFormedMove, Moved, Indivisible;
    OneMove(r, move);
    if Remainder(e, i) == 0.0 {
      moves := [move];
    } else {
      NotFull(e, i);
      SameDivisibility(r, e, line);
      var rest := FillByAmounts(e, i);
      moves := [move] + rest;
      RunMovesConcat(r, [move], rest);
      OnlyLineTwice(r, e, RunMoves(r, moves), i);
    }
  }

  /** The target lies strictly above what was received, and what is missing from it has six decimals. */
  lemma IntegerTarget(r: Request, i: nat)
    requires i < |r.lines| && 0.0 <= Received(r, r.lines[i]) <= r.lines[i].quantity
    requires !SixDecimals(Remainder(r, i)) && SixDecimals(r.lines[i].quantity)
    requires r.lines[i].quantity.Floor as real >= Received(r, r.lines[i])
    ensures var q := r.lines[i].quantity;
            q.Floor >= 0 && Received(r, r.lines[i]) < q.Floor as real <= q && SixDecimals(q - q.Floor as real)
  {
    var q := r.lines[i].quantity;
    WholeHasSixDecimals(q.Floor as real);
    SixDecimalsAdd(q, q.Floor as real);
    hide SixDecimals;
  }

  ghost predicate DeliveredByMoves(r: Request, moves: seq<Move>) {
    WellFormedMoves(moves) && RunMoves(r, moves).status == Delivered
  }

  lemma OthersStayCompletable(r: Request, e: Request, i: nat, j: nat)
    requires OnlyLine(r, e, i) && j < |r.lines| && j != i
    ensures Remainder(e, j) == Remainder(r, j) && (Completable(r, j) ==> Completable(e, j))
  {
    hide Received, Sound;
    assert Received(e, r.lines[j]) == Received(r, r.lines[j]);
    SameDivisibility(r, e, r.lines[j]);
  }

  lemma {:induction false} FillFrom(r: Request, i: nat) returns (moves: seq<Move>)
    requires Open(r) && i <= |r.lines|
    requires forall j :: 0 <= j < i ==> Remainder(r, j) == 0.0
    requires forall j :: i <= j < |r.lines| ==> Completable(r, j)
    ensures DeliveredByMoves(r, moves)
    decreases |r.lines| - i
  {
    hide Sound, Completable, Remainder;
    if i == |r.lines| {
      moves := FinishFull(r);
    } else if Remainder(r, i) == 0.0 {
      moves := FillFrom(r, i + 1);
    } else {
      RemaindersFit(r, i);
      var first := FillLine(r, i);
      var e := RunMoves(r, first);
      if e.status == Delivered {
        moves := first;
      } else {
        forall j | 0 <= j < |r.lines| && j != i
          ensures Remainder(e, j) == Remainder(r, j) && (Completable(r, j) ==> Completable(e, j))
        {
          OthersStayCompletable(r, e, i, j);
        }
        var rest := FillFrom(e, i + 1);
        moves := first + rest;
        RunMovesConcat(r, first, rest);
      }
    }
  }

  lemma RemaindersFit(r: Request, i: nat)
    requires Sound(r) && i < |r.lines|
    ensures Remainder(r, i) >= 0.0
  {
    assert LineFits(r, r.lines[i]);
  }

  lemma FinishFull(r: Request) returns (moves: seq<Move>)
    requires Open(r) && forall j :: 0 <= j < |r.lines| ==> Remainder(r, j) == 0.0
    ensures DeliveredByMoves(r, moves)
  {
    var finish := Updating(Payload(Delivered, [], false, false));
    forall i | 0 <= i < |r.lines|
      ensures Prospective(r, [], r.lines[i]) == r.lines[i].quantity
    {
      assert Remainder(r, i) == 0.0;
    }
    moves := [finish];
    OneMove(r, finish);
  }

  /** An approved request can be marked as ordered first. */
  lemma OrderFirst(r: Request) returns (moves: seq<Move>)
    requires Sound(r) && r.snapshot && r.status in {Approved, Ordered, PartiallyDelivered}
    ensures WellFormedMoves(moves)
    ensures var e := RunMoves(r, moves);
            Open(e) && e.lines == r.lines && forall i :: 0 <= i < |r.lines| && Completable(r, i) ==> Completable(e, i)
  {
    if r.status == Approved {
      var order := Updating(Payload(Ordered, [], false, false));
      moves := [order];
      OneMove(r, order);
      MovedKeeps(r, order);
      assert Moved(r, order) == r.(status := Ordered, ordered := true);
    } else {
      moves := [];
    }
  }

  /**
   With deliveries by amount beside the fulfilment updates, full delivery of an approved request stays reachable exactly
   when every line can be completed.
   */
  lemma FullDeliveryByAmountsIff(r: Request)
    requires Sound(r) && r.snapshot && r.status in {Approved, Ordered, PartiallyDelivered}
    ensures (exists moves :: DeliveredByMoves(r, moves)) <==> forall i :: 0 <= i < |r.lines| ==> Completable(r, i)
  {
    hide Sound, Completable;
    if i :| 0 <= i < |r.lines| && !Completable(r, i) {
      forall moves | WellFormedMoves(moves)
        ensures !DeliveredByMoves(r, moves)
      {
        if RunMoves(r, moves).status == Delivered {
          DeliveredLinesWereCompletable(r, moves, i);
        }
      }
    } else {
      var order := OrderFirst(r);
      var rest := FillFrom(RunMoves(r, order), 0);
      RunMovesConcat(r, order, rest);
      assert DeliveredByMoves(r, order + rest);
    }
  }

  /** Two and a half metres cannot be recorded as delivered by updates, but by a delivery they can. */
  lemma HalfMetresNeedADelivery() returns (r: Request)
    ensures Sound(r) && r.status == Ordered && r.snapshot
    ensures !exists payloads :: DeliveredBy(r, payloads)
    ensures exists moves :: DeliveredByMoves(r, moves)
  {
    var line := Line(1, 2.5, 0.0, false);
    r := Request(Ordered, true, true, true, [line], []);
    assert r.lines[0] == line && Received(r, line) == 0.0 && (2.5).Floor == 2;
    assert !Fillable(r, r.lines[0]);
    FullDeliveryReachableIff(r);
    assert SixDecimals(2.5);
    FullDeliveryByAmountsIff(r);
  }

  /** Seven decimals, as a quantity stored before there were exact ones may have, are never completed. */
  lemma SevenDecimalsAreNeverCompleted() returns (r: Request)
    ensures Sound(r) && r.status == Ordered && r.snapshot
    ensures !exists moves :: DeliveredByMoves(r, moves)
  {
    var line := Line(1, 0.1234567, 0.0, false);
    r := Request(Ordered, true, true, true, [line], []);
    assert r.lines[0] == line && Received(r, line) == 0.0;
    assert 0.1234567 * 1_000_000.0 == 123_456.7;
    assert !Completable(r, 0);
    FullDeliveryByAmountsIff(r);
  }
}
