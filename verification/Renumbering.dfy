/**
 The approved correction of inventory numbers: a chain of machines each of which takes over its predecessor's number.
 */
module Renumbering {
  import opened Wrappers

  type Number = string

  /** The machine's name, when it is the one derived from an inventory number, and any other name. */
  datatype Name = Derived(number: Number) | Free(text: string)

  /** `verified` stands for the brand, model, pressure and category of the correction list. */
  datatype Machine = Machine(serial: Option<string>, number: Number, name: Name, verified: bool, rest: int)

  type Machines = map<int, Machine>

  datatype Correction = Correction(serial: string, was: Number, becomes: Number)

  datatype Change = Change(id: int, serial: string, was: Number, becomes: Number)

  datatype PreflightError =
    | DuplicateNumbers | SerialNotUnique(serial: string) | IdentityMismatch(serial: string)
    | UnexpectedNumber(serial: string) | InventoryConflict(number: Number) | MixedState

  datatype Report = Report(changes: seq<Change>, errors: seq<PreflightError>, ready: bool, alreadyCorrected: bool)

  const FALCH_500_CORRECTIONS: seq<Correction> := [
    Correction("G39300296", "9", "8"), Correction("G39300297", "10", "9"),
    Correction("G39300298", "11", "10"), Correction("G39300299", "12", "11")]

  // ---------------------------------------------------------------- What the preflight establishes

  predicate Distinct(m: Machines) {
    forall a, b :: a in m && b in m && a != b ==> m[a].number != m[b].number
  }

  /** The only machine with the serial number. */
  predicate Target(m: Machines, serial: string, id: int) {
    id in m && m[id].serial == Some(serial) && forall other :: other in m && m[other].serial == Some(serial) ==>
      other == id
  }

  predicate ChangeFits(m: Machines, c: Correction, change: Change) {
    && Target(m, c.serial, change.id) && change.serial == c.serial
    && m[change.id].verified && change.was == m[change.id].number && change.becomes == c.becomes
    && (change.was == c.was || change.was == c.becomes)
  }

  predicate IsTarget(changes: seq<Change>, id: int) {
    exists i :: 0 <= i < |changes| && changes[i].id == id
  }

  predicate Unoccupied(m: Machines, changes: seq<Change>, number: Number) {
    forall id :: id in m && m[id].number == number ==> IsTarget(changes, id)
  }

  predicate AllCorrected(changes: seq<Change>) {
    forall i :: 0 <= i < |changes| ==> changes[i].was == changes[i].becomes
  }

  predicate NoneCorrected(changes: seq<Change>) {
    forall i :: 0 <= i < |changes| ==> changes[i].was != changes[i].becomes
  }

  ghost predicate AllFit(m: Machines, cs: seq<Correction>, changes: seq<Change>) {
    |changes| == |cs| && forall i :: 0 <= i < |cs| ==> ChangeFits(m, cs[i], changes[i])
  }

  ghost predicate NoConflict(m: Machines, changes: seq<Change>) {
    forall i :: 0 <= i < |changes| ==> Unoccupied(m, changes, changes[i].becomes)
  }

  ghost predicate Passes(m: Machines, cs: seq<Correction>, changes: seq<Change>) {
    && Distinct(m) && AllFit(m, cs, changes) && NoConflict(m, changes)
    && (AllCorrected(changes) || NoneCorrected(changes))
  }

  ghost predicate SerialsDiffer(cs: seq<Correction>) {
    forall i, j :: 0 <= i < j < |cs| ==> cs[i].serial != cs[j].serial
  }

  /** Every destination is free of the numbers that later corrections still hold or will take. */
  ghost predicate Orderly(cs: seq<Correction>) {
    forall i, j :: 0 <= i < j < |cs| ==> cs[i].becomes != cs[j].was && cs[i].becomes != cs[j].becomes
  }

  /** Each machine takes over the number before its own in a list of different numbers. */
  ghost predicate ShiftChain(cs: seq<Correction>, numbers: seq<Number>) {
    && |numbers| == |cs| + 1 && (forall i, j :: 0 <= i < j < |numbers| ==> numbers[i] != numbers[j])
    && (forall i :: 0 <= i < |cs| ==> cs[i].becomes == numbers[i] && cs[i].was == numbers[i + 1])
  }

  lemma ShiftChainsAreOrderly(cs: seq<Correction>, numbers: seq<Number>)
    requires ShiftChain(cs, numbers)
    ensures Orderly(cs)
  {
    forall i, j | 0 <= i < j < |cs|
      ensures cs[i].becomes != cs[j].was && cs[i].becomes != cs[j].becomes
    {
      assert numbers[i] != numbers[j + 1] && numbers[i] != numbers[j];
    }
  }

  /** Taken from the other end, a chain of at least two is not orderly. */
  lemma DescendingChainsAreNotOrderly(cs: seq<Correction>, descending: seq<Correction>, numbers: seq<Number>)
    requires ShiftChain(cs, numbers) && |descending| == |cs| >= 2
    requires forall i :: 0 <= i < |cs| ==> descending[i] == cs[|cs| - 1 - i]
    ensures !Orderly(descending)
  {
    var n := |cs|;
    assert descending[n - 2] == cs[1] && descending[n - 1] == cs[0];
    assert descending[n - 2].becomes == numbers[1] == descending[n - 1].was;
  }

  lemma FalchIsAShiftChain()
    ensures ShiftChain(FALCH_500_CORRECTIONS, ["8", "9", "10", "11", "12"]) && SerialsDiffer(FALCH_500_CORRECTIONS)
  {
    var cs, numbers := FALCH_500_CORRECTIONS, ["8", "9", "10", "11", "12"];
    assert numbers[0] == "8" && numbers[1] == "9" && numbers[2] == "10" && numbers[3] == "11" && numbers[4] == "12";
    assert numbers[0][0] == '8' && numbers[1][0] == '9';
    assert |numbers[0]| == |numbers[1]| == 1 && |numbers[2]| == |numbers[3]| == |numbers[4]| == 2;
    assert numbers[2][1] == '0' && numbers[3][1] == '1' && numbers[4][1] == '2';
    assert numbers[0] != numbers[1] && numbers[2] != numbers[3] && numbers[2] != numbers[4] && numbers[3] != numbers[4];
    forall i, j | 0 <= i < j < |numbers|
      ensures numbers[i] != numbers[j]
    {
      assert |numbers[i]| != |numbers[j]| || (i == 0 && j == 1) || (2 <= i < j <= 4);
    }
    assert cs[0].serial[8] == '6' && cs[1].serial[8] == '7' && cs[2].serial[8] == '8' && cs[3].serial[8] == '9';
    forall i, j | 0 <= i < j < |cs|
      ensures cs[i].serial != cs[j].serial
    {
      assert cs[i].serial[8] != cs[j].serial[8];
    }
  }

  // ---------------------------------------------------------------- Applying the changes

  function Renumbered(machine: Machine, number: Number): Machine {
    machine.(number := number, name := if machine.name == Derived(machine.number) then Derived(number)
      else machine.name)
  }

  /** The registry after the first `k` changes. */
  function Corrected(m: Machines, changes: seq<Change>, k: nat): (r: Machines)
    requires k <= |changes|
    ensures r.Keys == m.Keys
  {
    if k == 0 then m
    else
      var before, change := Corrected(m, changes, k - 1), changes[k - 1];
      if change.id in before then before[change.id := Renumbered(before[change.id], change.becomes)] else before
  }

  lemma TargetsDiffer(m: Machines, cs: seq<Correction>, changes: seq<Change>)
    requires AllFit(m, cs, changes) && SerialsDiffer(cs)
    ensures forall i, j :: 0 <= i < j < |changes| ==> changes[i].id != changes[j].id
  {
    forall i, j | 0 <= i < j < |changes|
      ensures changes[i].id != changes[j].id
    {
      assert ChangeFits(m, cs[i], changes[i]) && ChangeFits(m, cs[j], changes[j]);
    }
  }

  /** After `k` changes the first `k` targets have their new number, and nothing else has changed. */
  lemma {:induction false} CorrectedSoFar(m: Machines, changes: seq<Change>, k: nat)
    requires k <= |changes| && (forall i :: 0 <= i < |changes| ==> changes[i].id in m)
    requires forall i, j :: 0 <= i < j < |changes| ==> changes[i].id != changes[j].id
    ensures forall i :: 0 <= i < |changes| ==>
      Corrected(m, changes, k)[changes[i].id] == if i < k then Renumbered(m[changes[i].id], changes[i].becomes)
        else m[changes[i].id]
    ensures forall id :: id in m && !IsTarget(changes, id) ==> Corrected(m, changes, k)[id] == m[id]
  {
    if k > 0 {
      CorrectedSoFar(m, changes, k - 1);
      forall id | id in m && !IsTarget(changes, id)
        ensures id != changes[k - 1].id
      {
      }
    }
  }

  lemma TargetsStayApart(m: Machines, cs: seq<Correction>, changes: seq<Change>, k: nat, i: nat, j: nat)
    requires AllFit(m, cs, changes) && NoneCorrected(changes) && SerialsDiffer(cs) && Orderly(cs) && Distinct(m)
    requires k <= |changes| && i < j < |changes|
    ensures Corrected(m, changes, k)[changes[i].id].number != Corrected(m, changes, k)[changes[j].id].number
  {
    TargetsDiffer(m, cs, changes);
    CorrectedSoFar(m, changes, k);
    assert ChangeFits(m, cs[i], changes[i]) && ChangeFits(m, cs[j], changes[j]);
    assert changes[i].was == cs[i].was && changes[j].was == cs[j].was;
  }

  /** The numbers of an orderly correction are different after every single change. */
  lemma NumbersStayDistinct(m: Machines, cs: seq<Correction>, changes: seq<Change>, k: nat)
    requires Passes(m, cs, changes) && SerialsDiffer(cs) && Orderly(cs) && k <= |changes|
    ensures Distinct(Corrected(m, changes, k))
  {
    hide AllFit, NoConflict, Orderly, SerialsDiffer, Corrected;
    forall a, b | a in m && b in m && a != b
      ensures Corrected(m, changes, k)[a].number != Corrected(m, changes, k)[b].number
    {
      if AllCorrected(changes) {
        SameNumberWhenCorrected(m, cs, changes, k, a);
        SameNumberWhenCorrected(m, cs, changes, k, b);
      } else if IsTarget(changes, a) && IsTarget(changes, b) {
        var i :| 0 <= i < |changes| && changes[i].id == a;
        var j :| 0 <= j < |changes| && changes[j].id == b;
        TargetsStayApart(m, cs, changes, k, if i < j then i else j, if i < j then j else i);
      } else if IsTarget(changes, a) {
        OutsidersStayApart(m, cs, changes, k, a, b);
      } else if IsTarget(changes, b) {
        OutsidersStayApart(m, cs, changes, k, b, a);
      } else {
        OutsiderStays(m, cs, changes, k, a);
        OutsiderStays(m, cs, changes, k, b);
      }
    }
  }

  lemma OutsiderStays(m: Machines, cs: seq<Correction>, changes: seq<Change>, k: nat, id: int)
    requires AllFit(m, cs, changes) && SerialsDiffer(cs) && k <= |changes| && id in m && !IsTarget(changes, id)
    ensures Corrected(m, changes, k)[id] == m[id]
  {
    TargetsDiffer(m, cs, changes);
    CorrectedSoFar(m, changes, k);
  }

  lemma SameNumberWhenCorrected(m: Machines, cs: seq<Correction>, changes: seq<Change>, k: nat, id: int)
    requires AllFit(m, cs, changes) && SerialsDiffer(cs) && AllCorrected(changes) && k <= |changes| && id in m
    ensures Corrected(m, changes, k)[id].number == m[id].number
  {
    TargetsDiffer(m, cs, changes);
    CorrectedSoFar(m, changes, k);
    if IsTarget(changes, id) {
      var i :| 0 <= i < |changes| && changes[i].id == id;
      assert ChangeFits(m, cs[i], changes[i]);
    }
  }

  lemma OutsidersStayApart(m: Machines, cs: seq<Correction>, changes: seq<Change>, k: nat, target: int, other: int)
    requires Passes(m, cs, changes) && SerialsDiffer(cs) && k <= |changes|
    requires target in m && other in m && IsTarget(changes, target) && !IsTarget(changes, other)
    ensures Corrected(m, changes, k)[target].number != Corrected(m, changes, k)[other].number
  {
    TargetsDiffer(m, cs, changes);
    CorrectedSoFar(m, changes, k);
    var i :| 0 <= i < |changes| && changes[i].id == target;
    assert Unoccupied(m, changes, changes[i].becomes);
    assert target != other;
  }

  /**
   Exactly the orderly corrections keep the numbers different throughout, for a registry that still has the old ones.
   */
  lemma DistinctThroughoutIff(m: Machines, cs: seq<Correction>, changes: seq<Change>)
    requires Passes(m, cs, changes) && SerialsDiffer(cs) && NoneCorrected(changes)
    ensures (forall k :: 0 <= k <= |changes| ==> Distinct(Corrected(m, changes, k))) <==> Orderly(cs)
  {
    hide NoConflict, AllFit, Distinct, SerialsDiffer, Corrected, NoneCorrected, AllCorrected;
    if Orderly(cs) {
      forall k | 0 <= k <= |changes|
        ensures Distinct(Corrected(m, changes, k))
      {
        NumbersStayDistinct(m, cs, changes, k);
      }
    } else {
      var i, j :| 0 <= i < j < |cs| && (cs[i].becomes == cs[j].was || cs[i].becomes == cs[j].becomes);
      CollisionShows(m, cs, changes, i, j);
    }
  }

  lemma CollisionShows(m: Machines, cs: seq<Correction>, changes: seq<Change>, i: nat, j: nat)
    requires AllFit(m, cs, changes) && SerialsDiffer(cs) && NoneCorrected(changes) && i < j < |cs|
    requires cs[i].becomes == cs[j].was || cs[i].becomes == cs[j].becomes
    ensures exists k :: 0 <= k <= |changes| && !Distinct(Corrected(m, changes, k))
  {
    var k := if cs[i].becomes == cs[j].was then i + 1 else j + 1;
    TargetsDiffer(m, cs, changes);
    CorrectedSoFar(m, changes, k);
    assert ChangeFits(m, cs[i], changes[i]) && ChangeFits(m, cs[j], changes[j]);
    assert Corrected(m, changes, k)[changes[i].id].number == Corrected(m, changes, k)[changes[j].id].number;
    assert !Distinct(Corrected(m, changes, k));
  }

  /** The changes a preflight reports once the correction has been made. */
  function Settled(changes: seq<Change>): (r: seq<Change>)
    ensures |r| == |changes|
    ensures forall i :: 0 <= i < |changes| ==> r[i] == changes[i].(was := changes[i].becomes)
  {
    seq(|changes|, i requires 0 <= i < |changes| => changes[i].(was := changes[i].becomes))
  }

  /** A correction changes only numbers and names. */
  lemma IdentitiesStay(m: Machines, cs: seq<Correction>, changes: seq<Change>, id: int)
    requires AllFit(m, cs, changes) && SerialsDiffer(cs) && id in m
    ensures var done := Corrected(m, changes, |changes|)[id];
            done.serial == m[id].serial && done.verified == m[id].verified && done.rest == m[id].rest
  {
    TargetsDiffer(m, cs, changes);
    CorrectedSoFar(m, changes, |changes|);
    if IsTarget(changes, id) {
      var i :| 0 <= i < |changes| && changes[i].id == id;
    }
  }

  /**
   What a report that passes says, on the machines: one verified machine for each serial number, with its old or its new
   number, and nobody else's number in the way; all of them have the new number already, or none has.
   */
  lemma PassingMeans(m: Machines, cs: seq<Correction>, changes: seq<Change>, i: nat)
    requires Passes(m, cs, changes) && i < |cs|
    ensures |changes| == |cs| && changes[i].id in m
    ensures var id, machine := changes[i].id, m[changes[i].id];
            && changes[i] == Change(id, cs[i].serial, machine.number, cs[i].becomes)
            && machine == Machine(Some(cs[i].serial), machine.number, machine.name, true, machine.rest)
            && (machine.number == cs[i].was || machine.number == cs[i].becomes)
            && (forall other :: other in m && m[other].serial == Some(cs[i].serial) ==> other == id)
            && (forall other :: other in m && m[other].number == cs[i].becomes ==>
                  exists j :: 0 <= j < |changes| && changes[j].id == other)
    ensures forall a, b :: a in m && b in m && m[a].number == m[b].number ==> a == b
    ensures || (forall j :: 0 <= j < |cs| ==> changes[j].id in m && m[changes[j].id].number == cs[j].becomes)
            || (forall j :: 0 <= j < |cs| ==> changes[j].id in m && m[changes[j].id].number != cs[j].becomes)
  {
    assert ChangeFits(m, cs[i], changes[i]) && Unoccupied(m, changes, changes[i].becomes);
    forall j | 0 <= j < |cs| ensures ChangeFits(m, cs[j], changes[j]) {
    }
  }

  /** Each corrected machine ends with its new number; a name made from the old one is made from the new one. */
  lemma CorrectionGives(m: Machines, cs: seq<Correction>, changes: seq<Change>, i: nat, other: int)
    requires Passes(m, cs, changes) && SerialsDiffer(cs) && i < |cs|
    ensures |changes| == |cs| && changes[i].id in m
    ensures var before, after := m[changes[i].id], Corrected(m, changes, |changes|)[changes[i].id];
            && after.number == cs[i].becomes
            && after.name == (if before.name == Derived(before.number) then Derived(cs[i].becomes) else before.name)
    ensures other in m && (forall j :: 0 <= j < |changes| ==> changes[j].id != other) ==>
              Corrected(m, changes, |changes|)[other] == m[other]
  {
    TargetsDiffer(m, cs, changes);
    CorrectedSoFar(m, changes, |changes|);
    assert ChangeFits(m, cs[i], changes[i]);
  }

  lemma SettledFits(m: Machines, cs: seq<Correction>, changes: seq<Change>, i: nat)
    requires AllFit(m, cs, changes) && SerialsDiffer(cs) && i < |cs|
    ensures ChangeFits(Corrected(m, changes, |changes|), cs[i], Settled(changes)[i])
  {
    var done := Corrected(m, changes, |changes|);
    assert ChangeFits(m, cs[i], changes[i]);
    TargetsDiffer(m, cs, changes);
    CorrectedSoFar(m, changes, |changes|);
    forall id | id in m
      ensures done[id].serial == m[id].serial && done[id].verified == m[id].verified
    {
      IdentitiesStay(m, cs, changes, id);
    }
  }

  /** A corrected registry passes the preflight again, as already corrected. */
  lemma CorrectedPassesAgain(m: Machines, cs: seq<Correction>, changes: seq<Change>)
    requires Passes(m, cs, changes) && SerialsDiffer(cs) && Orderly(cs)
    ensures Passes(Corrected(m, changes, |changes|), cs, Settled(changes)) && AllCorrected(Settled(changes))
  {
    var done, settled := Corrected(m, changes, |changes|), Settled(changes);
    NumbersStayDistinct(m, cs, changes, |changes|);
    hide Orderly, SerialsDiffer, Corrected;
    forall i | 0 <= i < |cs|
      ensures ChangeFits(done, cs[i], settled[i])
    {
      SettledFits(m, cs, changes, i);
    }
    forall i | 0 <= i < |settled|
      ensures Unoccupied(done, settled, settled[i].becomes)
    {
      assert ChangeFits(done, cs[i], settled[i]);
      forall id | id in done && done[id].number == settled[i].becomes
        ensures IsTarget(settled, id)
      {
        assert id == settled[i].id;
      }
    }
  }

  // ---------------------------------------------------------------- The preflight

  /** The rows of a registry, in the order of their primary keys. */
  ghost predicate Listing(m: Machines, ids: seq<int>) {
    && (forall i :: 0 <= i < |ids| ==> ids[i] in m) && (forall id :: id in m ==> id in ids)
    && (forall i, j :: 0 <= i < j < |ids| ==> ids[i] < ids[j])
  }

  method AnyDuplicate(m: Machines, ids: seq<int>) returns (found: bool)
    requires Listing(m, ids)
    ensures found <==> !Distinct(m)
  {
    for i := 0 to |ids|
      invariant forall a, b :: 0 <= a < b < i ==> m[ids[a]].number != m[ids[b]].number
    {
      for j := 0 to i
        invariant forall a :: 0 <= a < j ==> m[ids[a]].number != m[ids[i]].number
      {
        if m[ids[j]].number == m[ids[i]].number {
          assert ids[j] in m && ids[i] in m && ids[j] != ids[i];
          return true;
        }
      }
    }
    forall a, b | a in m && b in m && a != b
      ensures m[a].number != m[b].number
    {
      var i :| 0 <= i < |ids| && ids[i] == a;
      var j :| 0 <= j < |ids| && ids[j] == b;
    }
    return false;
  }

  /** The machines with a serial number. */
  method Matches(m: Machines, ids: seq<int>, serial: string) returns (matches: seq<int>)
    requires Listing(m, ids)
    ensures forall id :: Target(m, serial, id) ==> matches == [id]
    ensures |matches| == 1 ==> Target(m, serial, matches[0])
  {
    matches := [];
    for i := 0 to |ids|
      invariant matches == WithSerial(m, ids[..i], serial)
    {
      assert ids[..i + 1][..i] == ids[..i];
      if m[ids[i]].serial == Some(serial) {
        matches := matches + [ids[i]];
      }
    }
    assert ids[..|ids|] == ids;
    WithSerialFinds(m, ids, serial);
  }

  function WithSerial(m: Machines, ids: seq<int>, serial: string): seq<int>
    requires forall i :: 0 <= i < |ids| ==> ids[i] in m
  {
    if ids == [] then []
    else
      var last, before := ids[|ids| - 1], WithSerial(m, ids[..|ids| - 1], serial);
      if m[last].serial == Some(serial) then before + [last] else before
  }

  lemma {:induction false} WithSerialHas(m: Machines, ids: seq<int>, serial: string)
    requires forall i :: 0 <= i < |ids| ==> ids[i] in m
    ensures forall id :: id in WithSerial(m, ids, serial) <==> id in ids && m[id].serial == Some(serial)
  {
    if ids != [] {
      WithSerialHas(m, ids[..|ids| - 1], serial);
      assert ids == ids[..|ids| - 1] + [ids[|ids| - 1]];
    }
  }

  lemma EmptyOrNot(s: seq<int>)
    ensures s == [] || s[0] in s
  {
  }

  /** The last machine with the serial is the only one exactly when the ones before it have none. */
  lemma {:induction false} WithSerialIsShort(m: Machines, ids: seq<int>, serial: string, id: int)
    requires forall i :: 0 <= i < |ids| ==> ids[i] in m
    requires forall i, j :: 0 <= i < j < |ids| ==> ids[i] < ids[j]
    requires id in ids && forall i :: 0 <= i < |ids| && m[ids[i]].serial == Some(serial) ==> ids[i] == id
    requires m[id].serial == Some(serial)
    ensures WithSerial(m, ids, serial) == [id]
  {
    var n := |ids| - 1;
    WithSerialHas(m, ids[..n], serial);
    if ids[n] == id {
      var before := WithSerial(m, ids[..n], serial);
      forall j | 0 <= j < n
        ensures m[ids[j]].serial != Some(serial)
      {
      }
      assert forall w :: w !in before;
      EmptyOrNot(before);
    } else {
      WithSerialIsShort(m, ids[..n], serial, id);
    }
  }

  lemma WithSerialFinds(m: Machines, ids: seq<int>, serial: string)
    requires Listing(m, ids)
    ensures forall id :: Target(m, serial, id) ==> WithSerial(m, ids, serial) == [id]
    ensures |WithSerial(m, ids, serial)| == 1 ==> Target(m, serial, WithSerial(m, ids, serial)[0])
  {
    var found := WithSerial(m, ids, serial);
    WithSerialHas(m, ids, serial);
    forall id | Target(m, serial, id)
      ensures found == [id]
    {
      WithSerialIsShort(m, ids, serial, id);
    }
    if |found| == 1 {
      assert found[0] in found;
      assert forall other :: other in m && m[other].serial == Some(serial) ==> other in found;
    }
  }

  method Conflicts(m: Machines, ids: seq<int>, changes: seq<Change>, number: Number) returns (found: bool)
    requires Listing(m, ids)
    ensures found <==> !Unoccupied(m, changes, number)
  {
    for i := 0 to |ids|
      invariant forall a :: 0 <= a < i && m[ids[a]].number == number ==> IsTarget(changes, ids[a])
    {
      if m[ids[i]].number == number && !IsTarget(changes, ids[i]) {
        return true;
      }
    }
    return false;
  }

  /** The checks of one correction. */
  method CheckOne(m: Machines, ids: seq<int>, c: Correction)
    returns (change: Option<Change>, errors: seq<PreflightError>)
    requires Listing(m, ids)
    ensures errors == [] ==> change.Some? && ChangeFits(m, c, change.value)
    ensures forall expected :: ChangeFits(m, c, expected) ==> errors == [] && change == Some(expected)
  {
    var matches := Matches(m, ids, c.serial);
    if |matches| != 1 {
      return None, [SerialNotUnique(c.serial)];
    }
    var machine := m[matches[0]];
    errors := [];
    if !machine.verified {
      errors := errors + [IdentityMismatch(c.serial)];
    }
    if machine.number != c.was && machine.number != c.becomes {
      errors := errors + [UnexpectedNumber(c.serial)];
    }
    change := Some(Change(matches[0], c.serial, machine.number, c.becomes));
  }

  method CheckAll(m: Machines, ids: seq<int>, cs: seq<Correction>)
    returns (changes: seq<Change>, errors: seq<PreflightError>)
    requires Listing(m, ids)
    ensures errors == [] ==> AllFit(m, cs, changes)
    ensures forall full :: AllFit(m, cs, full) ==> errors == [] && changes == full
  {
    changes, errors := [], [];
    for i := 0 to |cs|
      invariant errors == [] ==> AllFit(m, cs[..i], changes)
      invariant forall full :: AllFit(m, cs, full) ==> errors == [] && changes == full[..i]
    {
      var change, found := CheckOne(m, ids, cs[i]);
      errors := errors + found;
      if change.Some? {
        changes := changes + [change.value];
      }
    }
    assert cs[..|cs|] == cs;
  }

  method CheckConflicts(m: Machines, ids: seq<int>, changes: seq<Change>) returns (errors: seq<PreflightError>)
    requires Listing(m, ids)
    ensures errors == [] <==> NoConflict(m, changes)
  {
    errors := [];
    for i := 0 to |changes|
      invariant errors == [] <==> forall k :: 0 <= k < i ==> Unoccupied(m, changes, changes[k].becomes)
    {
      var found := Conflicts(m, ids, changes, changes[i].becomes);
      if found {
        errors := errors + [InventoryConflict(changes[i].becomes)];
      }
    }
  }

  /** The set of correction states, as two flags. */
  method States(changes: seq<Change>) returns (corrected: bool, legacy: bool)
    ensures !corrected <==> NoneCorrected(changes)
    ensures !legacy <==> AllCorrected(changes)
  {
    corrected, legacy := false, false;
    for i := 0 to |changes|
      invariant !corrected <==> NoneCorrected(changes[..i])
      invariant !legacy <==> AllCorrected(changes[..i])
    {
      assert changes[..i + 1] == changes[..i] + [changes[i]];
      if changes[i].was == changes[i].becomes {
        corrected := true;
        assert changes[..i + 1][i] == changes[i];
      } else {
        legacy := true;
        assert changes[..i + 1][i] == changes[i];
      }
    }
    assert changes[..|changes|] == changes;
  }

  /** `preflight`: it is ready exactly for the registries that pass, and then reports their changes. */
  method Preflight(m: Machines, ids: seq<int>, cs: seq<Correction>) returns (report: Report)
    requires Listing(m, ids)
    ensures report.ready ==> Passes(m, cs, report.changes)
    ensures forall changes :: Passes(m, cs, changes) ==> report.ready && report.changes == changes
    ensures report.ready <==> report.errors == []
    ensures report.alreadyCorrected <==> report.ready && report.changes != [] && AllCorrected(report.changes)
  {
    var errors: seq<PreflightError> := [];
    var duplicate := AnyDuplicate(m, ids);
    if duplicate {
      errors := [DuplicateNumbers];
    }
    var changes, unfit := CheckAll(m, ids, cs);
    errors := errors + unfit;
    var conflicts := CheckConflicts(m, ids, changes);
    errors := errors + conflicts;
    var corrected, legacy := States(changes);
    if corrected && legacy {
      errors := errors + [MixedState];
    }
    assert errors == [] <==> !duplicate && unfit == [] && conflicts == [] && !(corrected && legacy);
    forall full | Passes(m, cs, full)
      ensures changes == full && errors == []
    {
    }
    assert changes != [] && AllCorrected(changes) ==> changes[0].was == changes[0].becomes;
    return Report(changes, errors, errors == [], corrected && !legacy && errors == []);
  }

  // ---------------------------------------------------------------- The correction

  /** The registry after each of the first `k` changes. */
  function Flushes(m: Machines, changes: seq<Change>, k: nat): (r: seq<Machines>)
    requires k <= |changes|
    ensures |r| == k && forall i :: 0 <= i < k ==> r[i] == Corrected(m, changes, i + 1)
  {
    if k == 0 then [] else Flushes(m, changes, k - 1) + [Corrected(m, changes, k)]
  }

  function Audits(actor: int, changes: seq<Change>): (r: seq<Audit>)
    ensures |r| == |changes| && forall i :: 0 <= i < |r| ==> r[i] == Audit(actor, changes[i])
  {
    if changes == [] then [] else Audits(actor, changes[..|changes| - 1]) + [Audit(actor, changes[|changes| - 1])]
  }

  datatype Refusal = NotPermitted | ApprovalAndReasonRequired | RegistryChanged

  datatype Audit = Audit(actor: int, change: Change)

  lemma ChangedMachineExists(m: Machines, cs: seq<Correction>, changes: seq<Change>, k: nat)
    requires Passes(m, cs, changes) && k < |changes|
    ensures changes[k].id in Corrected(m, changes, k)
  {
    assert ChangeFits(m, cs[k], changes[k]);
  }

  /** No flush of an orderly correction sees the same number twice. */
  lemma EveryFlushIsDistinct(m: Machines, cs: seq<Correction>, changes: seq<Change>)
    requires Passes(m, cs, changes) && SerialsDiffer(cs) && Orderly(cs)
    ensures forall i :: 0 <= i < |changes| ==> Distinct(Flushes(m, changes, |changes|)[i])
  {
    hide Passes, Orderly, SerialsDiffer, Distinct, Corrected, Flushes;
    forall i | 0 <= i < |changes|
      ensures Distinct(Flushes(m, changes, |changes|)[i])
    {
      NumbersStayDistinct(m, cs, changes, i + 1);
    }
  }

  class Registry {
    var machines: Machines
    var audit: seq<Audit>
    /** The registry at every flush. */
    var flushed: seq<Machines>

    /** `apply_correction`; the approval is the report itself, in place of its fingerprint. */
    method ApplyCorrection(ids: seq<int>, cs: seq<Correction>, actor: int, permitted: bool, reasonGiven: bool,
                           approved: Option<Report>)
      returns (result: Result<Report, Refusal>)
      requires Listing(machines, ids) && SerialsDiffer(cs)
      modifies this
      ensures result.Failure? ==> machines == old(machines) && audit == old(audit) && flushed == old(flushed)
      ensures result.Success? ==>
        approved == Some(result.value) && permitted && reasonGiven && Passes(old(machines), cs, result.value.changes)
      ensures forall changes ::
        (permitted && reasonGiven && Passes(old(machines), cs, changes)
         && approved == Some(Report(changes, [], true, changes != [] && AllCorrected(changes)))) ==> result.Success?
      ensures result.Success? && !result.value.alreadyCorrected ==>
        var changes := result.value.changes;
        && machines == Corrected(old(machines), changes, |changes|)
        && flushed == old(flushed) + Flushes(old(machines), changes, |changes|)
        && audit == old(audit) + Audits(actor, changes)
      ensures result.Success? && Orderly(cs) ==>
        && Distinct(machines)
        && forall i :: |old(flushed)| <= i < |flushed| ==> Distinct(flushed[i])
      ensures result.Success? && result.value.alreadyCorrected ==>
        machines == old(machines) && flushed == old(flushed) && audit == old(audit)
    {
      hide Passes, Listing, SerialsDiffer, Corrected, Flushes, Audits;
      if !permitted {
        return Failure(NotPermitted);
      }
      if !reasonGiven || approved.None? {
        return Failure(ApprovalAndReasonRequired);
      }
      var report := Preflight(machines, ids, cs);
      if !report.ready || report != approved.value {
        return Failure(RegistryChanged);
      }
      if report.alreadyCorrected {
        return Success(report);
      }
      if Orderly(cs) {
        EveryFlushIsDistinct(machines, cs, report.changes);
        NumbersStayDistinct(machines, cs, report.changes, |report.changes|);
      }
      Rewrite(cs, report.changes, actor);
      return Success(report);
    }

    /** One machine takes its new number, and its name follows if it was derived from the old one. */
    method Renumber(change: Change)
      requires change.id in machines
      modifies `machines
      ensures machines == old(machines)[change.id := Renumbered(old(machines)[change.id], change.becomes)]
    {
      var machine := machines[change.id];
      var before := machine.number;
      machine := machine.(number := change.becomes);
      if machine.name == Derived(before) {
        machine := machine.(name := Derived(machine.number));
      }
      machines := machines[change.id := machine];
    }

    /** The loop over the approved changes, with a flush after each. */
    method Rewrite(cs: seq<Correction>, changes: seq<Change>, actor: int)
      requires Passes(machines, cs, changes)
      modifies this
      ensures machines == Corrected(old(machines), changes, |changes|)
      ensures flushed == old(flushed) + Flushes(old(machines), changes, |changes|)
      ensures audit == old(audit) + Audits(actor, changes)
    {
      hide Passes;
      for k := 0 to |changes|
        invariant machines == Corrected(old(machines), changes, k)
        invariant flushed == old(flushed) + Flushes(old(machines), changes, k)
        invariant audit == old(audit) + Audits(actor, changes[..k])
      {
        ChangedMachineExists(old(machines), cs, changes, k);
        Renumber(changes[k]);
        assert changes[..k + 1][..k] == changes[..k];
        audit := audit + [Audit(actor, changes[k])];
        flushed := flushed + [machines];
      }
      assert changes[..|changes|] == changes;
    }
  }
}
