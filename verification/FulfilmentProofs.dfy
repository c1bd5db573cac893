/**
 What every run of fulfilment updates keeps, and exactly when full delivery can be recorded.
 */
module FulfilmentProofs {
  import opened Wrappers
  import opened Fulfilment

  ghost predicate DistinctLines(lines: seq<Line>) {
    forall i, j :: 0 <= i < j < |lines| ==> lines[i].id != lines[j].id
  }

  ghost predicate LineFits(r: Request, line: Line) {
    0.0 <= Received(r, line) <= line.quantity
  }

  /** Received quantities stay within what was ordered, and the status tells how much was received. */
  ghost predicate Sound(r: Request) {
    && DistinctLines(r.lines)
    && (!r.snapshot ==> r.events == [])
    && (forall i {:trigger r.lines[i]} :: 0 <= i < |r.lines| ==> LineFits(r, r.lines[i]))
    && (r.status == Delivered ==> AllFull(r, []))
    && (r.status == PartiallyDelivered ==> AnyReceived(r, []) && !AllFull(r, []))
  }

  /** Without deliveries by amount, only what was ordered is delivered. */
  ghost predicate Inv(r: Request) {
    Sound(r) && (r.status in {Ordered, PartiallyDelivered, Delivered} ==> r.ordered)
  }

  // ---------------------------------------------------------------- Updates

  lemma FindIsThere(lines: seq<Line>, i: nat)
    requires DistinctLines(lines) && i < |lines|
    ensures Find(lines, lines[i].id) == i
  {
    var j := Find(lines, lines[i].id);
    assert j < |lines| && lines[j].id == lines[i].id;
  }

  lemma {:induction false} CheckedUpdate(r: Request, updates: seq<Update>, u: Update)
    requires CheckUpdates(r, updates).None? && u in updates
    ensures Find(r.lines, u.line) < |r.lines|
    ensures Received(r, r.lines[Find(r.lines, u.line)]) <= u.target as real <= r.lines[Find(r.lines, u.line)].quantity
  {
    if u != updates[|updates| - 1] {
      assert u in updates[..|updates| - 1];
      CheckedUpdate(r, updates[..|updates| - 1], u);
    }
  }

  lemma ProspectiveFits(r: Request, updates: seq<Update>, i: nat)
    requires DistinctLines(r.lines) && CheckUpdates(r, updates).None? && i < |r.lines| && LineFits(r, r.lines[i])
    ensures Received(r, r.lines[i]) <= Prospective(r, updates, r.lines[i]) <= r.lines[i].quantity
  {
    var target := Lookup(updates, r.lines[i].id);
    if target.Some? {
      CheckedUpdate(r, updates, Update(r.lines[i].id, target.value));
      FindIsThere(r.lines, i);
    }
  }

  ghost predicate DistinctUpdates(updates: seq<Update>) {
    forall i, j :: 0 <= i < j < |updates| ==> updates[i].line != updates[j].line
  }

  lemma {:induction false} LookupIsUnique(updates: seq<Update>, u: Update)
    requires DistinctUpdates(updates) && u in updates
    ensures Lookup(updates, u.line) == Some(u.target)
  {
    if updates[0] != u {
      assert u in updates[1..];
      var k :| 0 <= k < |updates| && updates[k] == u;
      assert updates[0].line != updates[k].line;
      LookupIsUnique(updates[1..], u);
    }
  }

  lemma NotNamedBefore(updates: seq<Update>)
    requires DistinctUpdates(updates) && updates != []
    ensures Lookup(updates[..|updates| - 1], updates[|updates| - 1].line).None?
  {
    var shorter := updates[..|updates| - 1];
    forall w | w in shorter ensures w.line != updates[|updates| - 1].line {
      var k :| 0 <= k < |shorter| && shorter[k] == w;
      assert updates[k] == w;
    }
  }

  /** The delta of a line is exactly what its target adds. */
  lemma {:induction false} DeltaOf(r: Request, updates: seq<Update>, i: nat)
    requires DistinctLines(r.lines) && DistinctUpdates(updates) && i < |r.lines|
    ensures var id, delta := r.lines[i].id, Prospective(r, updates, r.lines[i]) - Received(r, r.lines[i]);
            && (id in Deltas(r, updates) <==> delta > 0.0)
            && (id in Deltas(r, updates) ==> Deltas(r, updates)[id] == delta)
  {
    hide Received;
    if updates != [] {
      var shorter, u := updates[..|updates| - 1], updates[|updates| - 1];
      DeltaOf(r, shorter, i);
      var id := r.lines[i].id;
      FindIsThere(r.lines, i);
      if u.line == id {
        LookupIsUnique(updates, u);
        NotNamedBefore(updates);
      } else {
        SameLookup(shorter, u, id);
        assert shorter + [u] == updates;
      }
    }
  }

  lemma {:induction false} SameLookup(shorter: seq<Update>, u: Update, id: nat)
    requires u.line != id
    ensures Lookup(shorter + [u], id) == Lookup(shorter, id)
  {
    if shorter != [] {
      assert (shorter + [u])[1..] == shorter[1..] + [u];
      SameLookup(shorter[1..], u, id);
    }
  }

  lemma SameRows(r: Request, e: Request)
    requires e.lines == r.lines && e.events == r.events
    ensures AllFull(e, []) == AllFull(r, []) && AnyReceived(e, []) == AnyReceived(r, [])
    ensures forall i :: 0 <= i < |r.lines| ==> Received(e, e.lines[i]) == Received(r, r.lines[i])
  {
    forall i | 0 <= i < |r.lines| ensures Prospective(e, [], e.lines[i]) == Prospective(r, [], r.lines[i]) {
    }
  }

  /** After an accepted delivery each line has received exactly what was prospective. */
  ghost predicate Takes(r: Request, updates: seq<Update>, e: Request) {
    && |e.lines| == |r.lines|
    && (forall i {:trigger e.lines[i]} {:trigger r.lines[i]} :: 0 <= i < |r.lines| ==>
          && e.lines[i] == r.lines[i].(delivered := e.lines[i].delivered)
          && Received(e, e.lines[i]) == Prospective(r, updates, r.lines[i]))
  }

  lemma TakesVector(r: Request, updates: seq<Update>, e: Request)
    requires Takes(r, updates, e)
    ensures AllFull(e, []) == AllFull(r, updates)
    ensures AnyReceived(e, []) == AnyReceived(r, updates)
  {
    forall i | 0 <= i < |r.lines| ensures Prospective(e, [], e.lines[i]) == Prospective(r, updates, r.lines[i]) {
    }
    if AnyReceived(e, []) {
      var i :| 0 <= i < |e.lines| && Prospective(e, [], e.lines[i]) != 0.0;
      assert Prospective(r, updates, r.lines[i]) != 0.0;
    }
    if AnyReceived(r, updates) {
      var i :| 0 <= i < |r.lines| && Prospective(r, updates, r.lines[i]) != 0.0;
      assert Prospective(e, [], e.lines[i]) != 0.0;
    }
    if AllFull(e, []) {
      forall i | 0 <= i < |r.lines| ensures Prospective(r, updates, r.lines[i]) == r.lines[i].quantity {
        assert Prospective(e, [], e.lines[i]) == e.lines[i].quantity;
      }
    }
    if AllFull(r, updates) {
      forall i | 0 <= i < |e.lines| ensures Prospective(e, [], e.lines[i]) == e.lines[i].quantity {
        assert Prospective(r, updates, r.lines[i]) == r.lines[i].quantity;
      }
    }
  }

  // ---------------------------------------------------------------- The two delivery tests

  lemma {:induction false} SumsCompare(low: seq<real>, high: seq<real>)
    requires |low| == |high| && forall i :: 0 <= i < |low| ==> low[i] <= high[i]
    ensures Sum(low) <= Sum(high)
    ensures Sum(low) == Sum(high) <==> low == high
  {
    if low != [] {
      var n := |low| - 1;
      SumsCompare(low[..n], high[..n]);
      assert low == low[..n] + [low[n]] && high == high[..n] + [high[n]];
    }
  }

  function Zeros(n: nat): seq<real> {
    seq(n, i => 0.0)
  }

  lemma {:induction false} SumOfZeros(n: nat)
    ensures Sum(Zeros(n)) == 0.0
  {
    if n > 0 {
      SumOfZeros(n - 1);
      assert Zeros(n)[..n - 1] == Zeros(n - 1);
    }
  }

  /** The test on totals and the test line by line accept the same delivery vectors. */
  lemma TotalTestIsLineTest(lines: seq<Line>)
    requires forall i :: 0 <= i < |lines| ==> 0.0 <= lines[i].delivered <= lines[i].quantity
    ensures 0.0 < Sum(Deliveries(lines)) < Sum(Quantities(lines)) <==>
            && (exists i :: 0 <= i < |lines| && lines[i].delivered != 0.0)
            && (exists i :: 0 <= i < |lines| && lines[i].delivered != lines[i].quantity)
  {
    var d, q, z := Deliveries(lines), Quantities(lines), Zeros(|lines|);
    SumOfZeros(|lines|);
    SumsCompare(z, d);
    SumsCompare(d, q);
    assert (z == d) <==> forall i :: 0 <= i < |lines| ==> lines[i].delivered == 0.0 by {
      assert forall i :: 0 <= i < |lines| ==> d[i] == lines[i].delivered && z[i] == 0.0;
    }
    assert (d == q) <==> forall i :: 0 <= i < |lines| ==> lines[i].delivered == lines[i].quantity by {
      assert forall i :: 0 <= i < |lines| ==> d[i] == lines[i].delivered && q[i] == lines[i].quantity;
    }
  }

  // ---------------------------------------------------------------- Every accepted update

  lemma SnapshotTakes(r: Request, updates: seq<Update>)
    requires DistinctLines(r.lines) && DistinctUpdates(updates) && CheckUpdates(r, updates).None?
    requires forall i :: 0 <= i < |r.lines| ==> LineFits(r, r.lines[i])
    ensures Takes(r, updates, r.(events := r.events + [Receipt(Deltas(r, updates))]))
    ensures Deltas(r, updates) == map[] ==> Takes(r, updates, r)
  {
    var e := r.(events := r.events + [Receipt(Deltas(r, updates))]);
    assert e.events[..|e.events| - 1] == r.events;
    forall i | 0 <= i < |r.lines|
      ensures Received(e, e.lines[i]) == Prospective(r, updates, r.lines[i])
      ensures Deltas(r, updates) == map[] ==> Received(r, r.lines[i]) == Prospective(r, updates, r.lines[i])
    {
      DeltaOf(r, updates, i);
      ProspectiveFits(r, updates, i);
    }
  }

  lemma LegacyTakes(r: Request, updates: seq<Update>)
    requires r.events == []
    ensures Takes(r, updates, r.(lines := WithTargets(r, updates)))
  {
  }

  /** An accepted payload moves the request to its status and each line to its prospective quantity. */
  lemma AcceptedMeans(r: Request, p: Payload)
    requires Sound(r) && WellFormed(p) && p.status != Cancelled && Fulfil(r, p).Success?
    ensures var e := Fulfil(r, p).value;
            && e.status == p.status && Takes(r, p.updates, e) && CheckUpdates(r, p.updates).None?
            && e.snapshot == r.snapshot && e.freeForm == r.freeForm && e.ordered == (r.ordered || p.status == Ordered)
            && (!r.snapshot ==> e.events == [])
            && (p.status == Delivered ==> AllFull(r, p.updates))
            && (p.status == PartiallyDelivered ==> AnyReceived(r, p.updates) && !AllFull(r, p.updates))
  {
    if r.snapshot {
      SnapshotAccepted(r, p);
    } else {
      LegacyAccepted(r, p);
    }
  }

  lemma TakesIgnoresStatus(r: Request, updates: seq<Update>, e: Request, f: Request)
    requires Takes(r, updates, e) && f.lines == e.lines && f.events == e.events
    ensures Takes(r, updates, f)
  {
  }

  lemma SnapshotAccepted(r: Request, p: Payload)
    requires Sound(r) && r.snapshot && WellFormed(p) && p.status != Cancelled && FulfilSnapshot(r, p).Success?
    ensures var e := FulfilSnapshot(r, p).value;
            && e.status == p.status && Takes(r, p.updates, e) && CheckUpdates(r, p.updates).None?
            && e.snapshot == r.snapshot && e.freeForm == r.freeForm && e.ordered == (r.ordered || p.status == Ordered)
            && (p.status == Delivered ==> AllFull(r, p.updates))
            && (p.status == PartiallyDelivered ==> AnyReceived(r, p.updates) && !AllFull(r, p.updates))
  {
    hide DeltasDivisible, AllFull, AnyReceived, Takes, Prospective, Received;
    SnapshotTakes(r, p.updates);
    var deltas := Deltas(r, p.updates);
    var received := if deltas == map[] then r else r.(events := r.events + [Receipt(deltas)]);
    assert Takes(r, p.updates, received);
    TakesVector(r, p.updates, received);
    TakesIgnoresStatus(r, p.updates, received, FulfilSnapshot(r, p).value);
  }

  lemma LegacyAccepted(r: Request, p: Payload)
    requires Sound(r) && !r.snapshot && WellFormed(p) && p.status != Cancelled && FulfilLegacy(r, p).Success?
    ensures var e := FulfilLegacy(r, p).value;
            && e.status == p.status && Takes(r, p.updates, e) && CheckUpdates(r, p.updates).None?
            && e.snapshot == r.snapshot && e.freeForm == r.freeForm && e.ordered == (r.ordered || p.status == Ordered)
               && e.events == []
            && (p.status == Delivered ==> AllFull(r, p.updates))
            && (p.status == PartiallyDelivered ==> AnyReceived(r, p.updates) && !AllFull(r, p.updates))
  {
    var lines := WithTargets(r, p.updates);
    LegacyTakes(r, p.updates);
    forall i | 0 <= i < |lines| ensures 0.0 <= lines[i].delivered <= lines[i].quantity {
      ProspectiveFits(r, p.updates, i);
    }
    TotalTestIsLineTest(lines);
    LegacyVector(r, p.updates);
  }

  lemma LegacyVector(r: Request, updates: seq<Update>)
    ensures var lines := WithTargets(r, updates);
            && (AllFull(r, updates) <==> forall i :: 0 <= i < |lines| ==> lines[i].delivered == lines[i].quantity)
            && (AnyReceived(r, updates) <==> exists i :: 0 <= i < |lines| && lines[i].delivered != 0.0)
  {
    var lines := WithTargets(r, updates);
    assert |lines| == |r.lines|;
    assert forall i :: 0 <= i < |lines| ==>
      lines[i].delivered == Prospective(r, updates, r.lines[i]) && lines[i].quantity == r.lines[i].quantity;
    if AnyReceived(r, updates) {
      var i :| 0 <= i < |r.lines| && Prospective(r, updates, r.lines[i]) != 0.0;
      assert lines[i].delivered != 0.0;
    }
    if exists i :: 0 <= i < |lines| && lines[i].delivered != 0.0 {
      var i :| 0 <= i < |lines| && lines[i].delivered != 0.0;
      assert Prospective(r, updates, r.lines[i]) != 0.0;
    }
  }

  /** What both branches ask of a delivery: the transition, each target, and the status against the lines. */
  ghost predicate Fitting(r: Request, p: Payload) {
    && TransitionAllowed(r.status, p.status) && CheckUpdates(r, p.updates).None?
    && (p.status == Delivered ==> AllFull(r, p.updates))
    && (p.status == PartiallyDelivered ==> AnyReceived(r, p.updates) && !AllFull(r, p.updates))
  }

  lemma LegacyAcceptsIff(r: Request, p: Payload)
    requires Sound(r) && p.status in {Ordered, PartiallyDelivered, Delivered}
    ensures FulfilLegacy(r, p).Success? <==> Fitting(r, p) && !LegacyFractionalLines(r)
  {
    hide AllFull, AnyReceived, CheckUpdates, Sound, Sum, Deliveries, Quantities, Prospective, DistinctLines,
      LegacyFractionalLines;
    if CheckUpdates(r, p.updates).None? {
      forall u | u in p.updates
        ensures Find(r.lines, u.line) < |r.lines|
      {
        CheckedUpdate(r, p.updates, u);
      }
      LegacyTests(r, p.updates);
    }
  }

  lemma SnapshotAcceptsIff(r: Request, p: Payload)
    requires p.status in {Ordered, PartiallyDelivered, Delivered}
    ensures var deltas := Deltas(r, p.updates);
            FulfilSnapshot(r, p).Success? <==>
              Fitting(r, p) && if p.status == Ordered then deltas == map[] else DeltasDivisible(r, deltas)
  {
    hide AllFull, AnyReceived, CheckUpdates, Deltas, DeltasDivisible;
  }

  /**
   How the branch with an approval snapshot and the branch without differ, for all quantities. On a free-form request
   the first refuses besides exactly the fractional deltas of countable lines; on any other request the second refuses
   besides exactly the requests with a fractional line. When a request is only marked as ordered the first refuses any
   delta.
   */
  lemma BranchesCompared(r: Request, p: Payload)
    requires Sound(r) && r.events == [] && WellFormed(p) && p.status in {Ordered, PartiallyDelivered, Delivered}
    ensures var snapshot, legacy := FulfilSnapshot(r, p).Success?, FulfilLegacy(r, p).Success?;
            var deltas := Deltas(r, p.updates);
            if p.status == Ordered then snapshot && !LegacyFractionalLines(r) <==> legacy && deltas == map[]
            else if r.freeForm then snapshot <==> legacy && DeltasDivisible(r, deltas)
            else legacy <==> snapshot && !LegacyFractionalLines(r)
  {
    hide AllFull, AnyReceived, CheckUpdates, Fitting;
    LegacyAcceptsIff(r, p);
    SnapshotAcceptsIff(r, p);
    if !r.freeForm && !LegacyFractionalLines(r) {
      WholeTargetsAreDivisible(r, p.updates);
    }
  }

  /** With whole quantities both branches accept the same deliveries. */
  lemma BranchesAcceptTheSame(r: Request, p: Payload)
    requires Sound(r) && r.events == [] && WellFormed(p) && p.status in {PartiallyDelivered, Delivered}
    requires forall i {:trigger r.lines[i]} :: 0 <= i < |r.lines| ==>
      Whole(r.lines[i].quantity) && Whole(r.lines[i].delivered)
    ensures FulfilSnapshot(r, p).Success? <==> FulfilLegacy(r, p).Success?
  {
    hide FulfilSnapshot, FulfilLegacy;
    BranchesCompared(r, p);
    WholeTargetsAreDivisible(r, p.updates);
  }

  /** The tests of the legacy branch, on the lines as updated, are the tests line by line. */
  lemma LegacyTests(r: Request, updates: seq<Update>)
    requires Sound(r) && CheckUpdates(r, updates).None?
    ensures var lines := WithTargets(r, updates);
            && (0.0 < Sum(Deliveries(lines)) < Sum(Quantities(lines)) <==>
                  AnyReceived(r, updates) && !AllFull(r, updates))
            && ((exists i :: 0 <= i < |lines| && lines[i].delivered != lines[i].quantity) <==> !AllFull(r, updates))
  {
    var lines := WithTargets(r, updates);
    forall i | 0 <= i < |lines| ensures 0.0 <= lines[i].delivered <= lines[i].quantity {
      ProspectiveFits(r, updates, i);
    }
    TotalTestIsLineTest(lines);
    LegacyVector(r, updates);
  }

  lemma WholeTargetsAreDivisible(r: Request, updates: seq<Update>)
    requires DistinctLines(r.lines) && DistinctUpdates(updates) && r.events == []
    requires forall i {:trigger r.lines[i]} :: 0 <= i < |r.lines| ==> Whole(r.lines[i].delivered)
    ensures DeltasDivisible(r, Deltas(r, updates))
  {
    forall id | id in Deltas(r, updates) && Find(r.lines, id) < |r.lines| ensures Whole(Deltas(r, updates)[id]) {
      var i := Find(r.lines, id);
      DeltaOf(r, updates, i);
      WholeMinusWhole(Prospective(r, updates, r.lines[i]), Received(r, r.lines[i]));
    }
  }

  /** Lines keep their order quantities and never lose what was received. */
  ghost predicate NeverLowers(r: Request, e: Request) {
    && |e.lines| == |r.lines| && e.snapshot == r.snapshot && e.freeForm == r.freeForm
    && (forall i {:trigger e.lines[i]} {:trigger r.lines[i]} :: 0 <= i < |r.lines| ==>
          && e.lines[i] == r.lines[i].(delivered := e.lines[i].delivered)
          && Received(r, r.lines[i]) <= Received(e, e.lines[i]))
  }

  lemma NextKeeps(r: Request, p: Payload)
    requires Sound(r) && WellFormed(p)
    ensures Sound(Next(r, p)) && NeverLowers(r, Next(r, p)) && (Inv(r) ==> Inv(Next(r, p)))
  {
    if Fulfil(r, p).Success? {
      var e := Fulfil(r, p).value;
      if p.status == Cancelled {
        SameRows(r, e);
      } else {
        AcceptedMeans(r, p);
        TakesVector(r, p.updates, e);
        forall i | 0 <= i < |r.lines|
          ensures Received(r, r.lines[i]) <= Received(e, e.lines[i]) <= r.lines[i].quantity
        {
          ProspectiveFits(r, p.updates, i);
        }
      }
    }
  }

  predicate WellFormedRun(payloads: seq<Payload>) {
    forall i :: 0 <= i < |payloads| ==> WellFormed(payloads[i])
  }

  /** Every run keeps 0 <= received <= ordered on every line, never lowers it, and keeps the status honest. */
  lemma {:induction false} RunKeeps(r: Request, payloads: seq<Payload>)
    requires Sound(r) && WellFormedRun(payloads)
    ensures Sound(Run(r, payloads)) && NeverLowers(r, Run(r, payloads)) && (Inv(r) ==> Inv(Run(r, payloads)))
    decreases |payloads|
  {
    if payloads != [] {
      NextKeeps(r, payloads[0]);
      RunKeeps(Next(r, payloads[0]), payloads[1..]);
      Transitive(r, Next(r, payloads[0]), Run(r, payloads));
    }
  }

  lemma Transitive(a: Request, b: Request, c: Request)
    requires NeverLowers(a, b) && NeverLowers(b, c)
    ensures NeverLowers(a, c)
  {
    forall i | 0 <= i < |a.lines|
      ensures c.lines[i] == a.lines[i].(delivered := c.lines[i].delivered)
      ensures Received(a, a.lines[i]) <= Received(c, c.lines[i])
    {
      assert b.lines[i] == a.lines[i].(delivered := b.lines[i].delivered);
    }
  }

  // ---------------------------------------------------------------- When full delivery can be recorded

  /** A line is full, or an integer target can fill it. */
  ghost predicate Fillable(r: Request, line: Line) {
    || Received(r, line) == line.quantity
    || (Whole(line.quantity) && (r.snapshot && Indivisible(r, line) ==> Whole(line.quantity - Received(r, line))))
  }

  /**
   The condition a caller can check: no fractional order left open, and no fractional remainder of a countable unit.
   */
  ghost predicate Deliverable(r: Request) {
    && (forall i {:trigger r.lines[i]} :: 0 <= i < |r.lines| ==> Fillable(r, r.lines[i]))
    && (!r.snapshot ==> !LegacyFractionalLines(r))
  }

  function FillingUpdates(r: Request, n: nat): (updates: seq<Update>)
    requires n <= |r.lines|
  {
    if n == 0 then []
    else
      var earlier := FillingUpdates(r, n - 1);
      var line := r.lines[n - 1];
      if Received(r, line) == line.quantity || line.quantity < 0.0 then earlier
      else earlier + [Update(line.id, line.quantity.Floor)]
  }

  /** Updates that name only lines before `n`, are accepted, and fill those lines. */
  ghost predicate Fills(r: Request, n: nat, updates: seq<Update>)
    requires n <= |r.lines|
  {
    && DistinctUpdates(updates) && CheckUpdates(r, updates).None?
    && (forall u :: u in updates ==> exists i :: 0 <= i < n && u.line == r.lines[i].id)
    && (forall i :: 0 <= i < n ==> Prospective(r, updates, r.lines[i]) == r.lines[i].quantity)
  }

  lemma FillableUpwards(r: Request, line: Line)
    requires LineFits(r, line) && Fillable(r, line) && Received(r, line) != line.quantity
    ensures line.quantity.Floor >= 0 && line.quantity.Floor as real == line.quantity && line.quantity >= 0.0
  {
  }

  lemma {:induction false} FillingUpdatesFill(r: Request, n: nat)
    requires Sound(r) && n <= |r.lines|
    requires forall i {:trigger r.lines[i]} :: 0 <= i < |r.lines| ==> Fillable(r, r.lines[i])
    ensures Fills(r, n, FillingUpdates(r, n))
  {
    hide Fills, AllFull, AnyReceived;
    if n == 0 {
      FillsNothing(r);
    } else {
      FillingUpdatesFill(r, n - 1);
      FillsOneMore(r, n, FillingUpdates(r, n - 1));
    }
  }

  lemma FillsNothing(r: Request)
    ensures Fills(r, 0, [])
  {
  }

  /** One step of `FillingUpdates`. */
  lemma FillsOneMore(r: Request, n: nat, earlier: seq<Update>)
    requires Sound(r) && 0 < n <= |r.lines| && Fills(r, n - 1, earlier) && Fillable(r, r.lines[n - 1])
    ensures var line := r.lines[n - 1];
            Fills(r, n, if Received(r, line) == line.quantity || line.quantity < 0.0 then earlier
                        else earlier + [Update(line.id, line.quantity.Floor)])
  {
    var line := r.lines[n - 1];
    assert LineFits(r, line);
    NotNamedYet(r, n, earlier);
    hide Fills, Fillable, LineFits, Received, Sound;
    if Received(r, line) == line.quantity {
      FillNone(r, n, earlier);
    } else {
      FillableUpwards(r, line);
      FillOne(r, n, earlier, line.quantity.Floor);
    }
  }

  lemma FillNone(r: Request, n: nat, earlier: seq<Update>)
    requires 0 < n <= |r.lines| && Fills(r, n - 1, earlier) && Received(r, r.lines[n - 1]) == r.lines[n - 1].quantity
    requires Lookup(earlier, r.lines[n - 1].id).None?
    ensures Fills(r, n, earlier)
  {
    hide Received, CheckUpdates, DistinctUpdates;
  }

  lemma NotNamedYet(r: Request, n: nat, updates: seq<Update>)
    requires DistinctLines(r.lines) && 0 < n <= |r.lines| && Fills(r, n - 1, updates)
    ensures Lookup(updates, r.lines[n - 1].id).None?
  {
    forall u | u in updates ensures u.line != r.lines[n - 1].id {
      var i :| 0 <= i < n - 1 && u.line == r.lines[i].id;
    }
  }

  lemma FillOne(r: Request, n: nat, earlier: seq<Update>, target: nat)
    requires DistinctLines(r.lines) && 0 < n <= |r.lines| && Fills(r, n - 1, earlier) && LineFits(r, r.lines[n - 1])
    requires target as real == r.lines[n - 1].quantity && Lookup(earlier, r.lines[n - 1].id).None?
    ensures Fills(r, n, earlier + [Update(r.lines[n - 1].id, target)])
  {
    var u := Update(r.lines[n - 1].id, target);
    var updates := earlier + [u];
    OneMoreIsAccepted(r, n, earlier, u);
    LookupIsUnique(updates, u);
    forall i | 0 <= i < n - 1 ensures Prospective(r, updates, r.lines[i]) == r.lines[i].quantity {
      SameLookup(earlier, u, r.lines[i].id);
    }
    forall w | w in updates ensures exists i :: 0 <= i < n && w.line == r.lines[i].id {
      if w in earlier {
        var i :| 0 <= i < n - 1 && w.line == r.lines[i].id;
      }
    }
  }

  lemma OneMoreIsAccepted(r: Request, n: nat, earlier: seq<Update>, u: Update)
    requires DistinctLines(r.lines) && 0 < n <= |r.lines| && LineFits(r, r.lines[n - 1])
    requires DistinctUpdates(earlier) && CheckUpdates(r, earlier).None?
    requires u.line == r.lines[n - 1].id && u.target as real == r.lines[n - 1].quantity && Lookup(earlier, u.line).None?
    ensures DistinctUpdates(earlier + [u]) && CheckUpdates(r, earlier + [u]).None?
  {
    hide Received;
    FindIsThere(r.lines, n - 1);
    assert (earlier + [u])[..|earlier + [u]| - 1] == earlier;
    assert forall w :: w in earlier ==> w.line != u.line;
    assert forall k :: 0 <= k < |earlier| ==> earlier[k] in earlier;
  }

  /** One payload records full delivery of a deliverable request. */
  lemma FullDeliveryIsAccepted(r: Request)
    requires Sound(r) && r.status in {Ordered, PartiallyDelivered} && Deliverable(r)
    ensures var p := Payload(Delivered, FillingUpdates(r, |r.lines|), false, false);
            WellFormed(p) && Fulfil(r, p).Success? && Fulfil(r, p).value.status == Delivered
  {
    var updates := FillingUpdates(r, |r.lines|);
    var p := Payload(Delivered, updates, false, false);
    FillingUpdatesFill(r, |r.lines|);
    hide FillingUpdates, Deltas, DeltasDivisible;
    if r.snapshot {
      FillingIsDivisible(r);
      SnapshotFillIsAccepted(r, p);
    } else {
      LegacyFillIsAccepted(r, p);
    }
    hide FulfilSnapshot, FulfilLegacy, Takes, AllFull, AnyReceived;
    AcceptedMeans(r, p);
  }

  lemma SnapshotFillIsAccepted(r: Request, p: Payload)
    requires r.status in {Ordered, PartiallyDelivered} && p.status == Delivered
    requires Fills(r, |r.lines|, p.updates) && DeltasDivisible(r, Deltas(r, p.updates))
    ensures FulfilSnapshot(r, p).Success?
  {
    hide Deltas, DeltasDivisible, Prospective, CheckUpdates;
  }

  lemma LegacyFillIsAccepted(r: Request, p: Payload)
    requires r.status in {Ordered, PartiallyDelivered} && !LegacyFractionalLines(r) && p.status == Delivered
    requires Fills(r, |r.lines|, p.updates)
    ensures FulfilLegacy(r, p).Success?
  {
    hide CheckUpdates, Received;
    forall u | u in p.updates ensures Find(r.lines, u.line) < |r.lines| {
      CheckedUpdate(r, p.updates, u);
    }
    LegacyVector(r, p.updates);
  }

  lemma {:induction false} DeltasNameLines(r: Request, updates: seq<Update>, id: nat)
    requires id in Deltas(r, updates)
    ensures Find(r.lines, id) < |r.lines|
  {
    if updates != [] && id in Deltas(r, updates[..|updates| - 1]) {
      DeltasNameLines(r, updates[..|updates| - 1], id);
    }
  }

  lemma FillingIsDivisible(r: Request)
    requires Sound(r) && r.snapshot && Deliverable(r)
    ensures DeltasDivisible(r, Deltas(r, FillingUpdates(r, |r.lines|)))
  {
    var updates := FillingUpdates(r, |r.lines|);
    FillingUpdatesFill(r, |r.lines|);
    forall id | id in Deltas(r, updates) && Find(r.lines, id) < |r.lines| && Indivisible(r, r.lines[Find(r.lines, id)])
      ensures Whole(Deltas(r, updates)[id])
    {
      FilledDeltaIsWhole(r, updates, Find(r.lines, id));
    }
  }

  lemma FilledDeltaIsWhole(r: Request, updates: seq<Update>, i: nat)
    requires DistinctLines(r.lines) && r.snapshot && i < |r.lines| && Fills(r, |r.lines|, updates)
    requires Fillable(r, r.lines[i]) && Indivisible(r, r.lines[i]) && r.lines[i].id in Deltas(r, updates)
    ensures Whole(Deltas(r, updates)[r.lines[i].id])
  {
    hide Deltas, Received, CheckUpdates, Prospective, Whole, Indivisible;
    DeltaOf(r, updates, i);
    assert Prospective(r, updates, r.lines[i]) == r.lines[i].quantity;
  }

  lemma WholeDifference(t: int, x: real)
    ensures Whole(t as real - x) ==> Whole(x)
    ensures Whole(x - t as real) ==> Whole(x)
  {
    if Whole(t as real - x) {
      assert x == (t - (t as real - x).Floor) as real;
    }
    if Whole(x - t as real) {
      assert x == (t + (x - t as real).Floor) as real;
    }
  }

  /** A line that cannot be filled keeps that defect under every accepted update. */
  lemma UnfillableStays(r: Request, p: Payload, i: nat)
    requires Sound(r) && WellFormed(p) && i < |r.lines| && !Fillable(r, r.lines[i])
    ensures i < |Next(r, p).lines| && !Fillable(Next(r, p), Next(r, p).lines[i])
  {
    hide FulfilLegacy, FulfilSnapshot, AllFull, AnyReceived, Inv, CheckUpdates, DeltasDivisible, Received;
    var e := Next(r, p);
    NextKeeps(r, p);
    if Fulfil(r, p).Success? && p.status != Cancelled {
      AcceptedMeans(r, p);
      var line := r.lines[i];
      assert e.lines[i].quantity == line.quantity && Received(e, e.lines[i]) == Prospective(r, p.updates, line);
      var target := Lookup(p.updates, line.id);
      if target.Some? && Whole(line.quantity) {
        AcceptedIsDivisible(r, p);
        FractionalRemainderIsRefused(r, p.updates, i);
      }
    } else if Fulfil(r, p).Success? {
      SameRows(r, e);
    }
  }

  lemma AcceptedIsDivisible(r: Request, p: Payload)
    requires r.snapshot && p.status != Cancelled && Fulfil(r, p).Success?
    ensures CheckUpdates(r, p.updates).None? && DeltasDivisible(r, Deltas(r, p.updates))
  {
  }

  /** With a whole order and a fractional remainder of a countable unit, no integer target is accepted. */
  lemma FractionalRemainderIsRefused(r: Request, updates: seq<Update>, i: nat)
    requires DistinctLines(r.lines) && DistinctUpdates(updates) && i < |r.lines| && LineFits(r, r.lines[i])
    requires CheckUpdates(r, updates).None? && DeltasDivisible(r, Deltas(r, updates))
    requires Whole(r.lines[i].quantity) && Indivisible(r, r.lines[i])
    requires !Whole(r.lines[i].quantity - Received(r, r.lines[i]))
    ensures Prospective(r, updates, r.lines[i]) == Received(r, r.lines[i])
  {
    ProspectiveFits(r, updates, i);
    if Prospective(r, updates, r.lines[i]) != Received(r, r.lines[i]) {
      FractionalDelta(r, updates, r.lines[i]);
      WholeDeltas(r, updates, i);
      assert false;
    }
  }

  lemma WholeDeltas(r: Request, updates: seq<Update>, i: nat)
    requires DistinctLines(r.lines) && DistinctUpdates(updates) && i < |r.lines|
    requires DeltasDivisible(r, Deltas(r, updates))
    requires Indivisible(r, r.lines[i]) && Prospective(r, updates, r.lines[i]) > Received(r, r.lines[i])
    ensures Whole(Prospective(r, updates, r.lines[i]) - Received(r, r.lines[i]))
  {
    DeltaOf(r, updates, i);
    DivisibleDelta(r, Deltas(r, updates), i);
  }

  lemma DivisibleDelta(r: Request, deltas: map<nat, real>, i: nat)
    requires DistinctLines(r.lines) && i < |r.lines| && DeltasDivisible(r, deltas)
    requires Indivisible(r, r.lines[i]) && r.lines[i].id in deltas
    ensures Whole(deltas[r.lines[i].id])
  {
    FindIsThere(r.lines, i);
  }

  /** An integer target leaves a fractional delta on a fractional receipt. */
  lemma FractionalDelta(r: Request, updates: seq<Update>, line: Line)
    requires Whole(line.quantity) && !Whole(line.quantity - Received(r, line))
    requires Prospective(r, updates, line) != Received(r, line)
    ensures !Whole(Prospective(r, updates, line) - Received(r, line))
  {
    var x := Received(r, line);
    WholeMinusWhole(line.quantity, x);
    var target := Lookup(updates, line.id).value;
    WholeDifference(target, x);
  }

  lemma WholeMinusWhole(q: real, x: real)
    ensures Whole(q) && Whole(x) ==> Whole(q - x)
  {
    if Whole(q) && Whole(x) {
      assert q - x == (q.Floor - x.Floor) as real;
    }
  }

  lemma {:induction false} UnfillableForever(r: Request, payloads: seq<Payload>, i: nat)
    requires Sound(r) && WellFormedRun(payloads) && i < |r.lines| && !Fillable(r, r.lines[i])
    ensures Run(r, payloads).status != Delivered
    decreases |payloads|
  {
    if payloads != [] {
      NextKeeps(r, payloads[0]);
      UnfillableStays(r, payloads[0], i);
      UnfillableForever(Next(r, payloads[0]), payloads[1..], i);
    } else {
      assert Prospective(r, [], r.lines[i]) != r.lines[i].quantity;
    }
  }

  lemma {:induction false} LegacyFractionForever(r: Request, payloads: seq<Payload>)
    requires Sound(r) && WellFormedRun(payloads) && !r.snapshot && LegacyFractionalLines(r) && r.status != Delivered
    ensures Run(r, payloads).status != Delivered
    decreases |payloads|
  {
    if payloads != [] {
      NextKeeps(r, payloads[0]);
      LegacyFractionForever(Next(r, payloads[0]), payloads[1..]);
    }
  }

  ghost predicate DeliveredBy(r: Request, payloads: seq<Payload>) {
    WellFormedRun(payloads) && Run(r, payloads).status == Delivered
  }

  /** Full delivery stays reachable from an ordered request exactly when integer targets can fill every line. */
  lemma FullDeliveryReachableIff(r: Request)
    requires Sound(r) && r.status in {Ordered, PartiallyDelivered}
    ensures (exists payloads :: DeliveredBy(r, payloads)) <==> Deliverable(r)
  {
    if Deliverable(r) {
      FullDeliveryIsAccepted(r);
      var p := Payload(Delivered, FillingUpdates(r, |r.lines|), false, false);
      assert Run(r, [p]) == Next(r, p) by {
        assert [p][1..] == [];
      }
      assert DeliveredBy(r, [p]);
    } else {
      forall payloads | WellFormedRun(payloads) ensures !DeliveredBy(r, payloads) {
        if i :| 0 <= i < |r.lines| && !Fillable(r, r.lines[i]) {
          UnfillableForever(r, payloads, i);
        } else {
          LegacyFractionForever(r, payloads);
        }
      }
    }
  }

  /** With whole quantities on every line, full delivery is always within reach. */
  lemma WholeOrdersCanBeDelivered(r: Request)
    requires Sound(r) && r.status in {Ordered, PartiallyDelivered}
    requires forall i {:trigger r.lines[i]} :: 0 <= i < |r.lines| ==>
               Whole(r.lines[i].quantity) && Whole(r.lines[i].delivered) && Whole(Received(r, r.lines[i]))
    ensures exists payloads :: DeliveredBy(r, payloads)
  {
    forall i | 0 <= i < |r.lines| ensures Fillable(r, r.lines[i]) {
      var line := r.lines[i];
      WholeMinusWhole(line.quantity, Received(r, line));
    }
    FullDeliveryReachableIff(r);
  }
}
