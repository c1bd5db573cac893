/**
 The comparison of extracted catalogue rows with their verified control rows: two greedy matchings that consume
 each candidate once.
 */
module RowMatching {
  import opened Wrappers

  type Cell = Option<string>

  /** A parsed decimal; a NaN equals nothing, and two values that cannot be parsed are equal. */
  datatype Quantity = Unparsed | Number(value: real) | Infinite(positive: bool) | NaN

  datatype Control = Control(position: Cell, partNumber: Cell, quantity: Quantity, quantityRaw: Cell, names: set<Cell>)

  datatype Candidate = Candidate(position: Cell, partNumber: Cell, quantity: Quantity, quantityRaw: Cell,
    description: Cell)

  predicate SameQuantity(a: Quantity, b: Quantity) {
    a == b && !a.NaN?
  }

  predicate Described(row: Control, value: Candidate) {
    value.description.Some? && value.description.value != "" && value.description in row.names
  }

  predicate SameKey(row: Control, value: Candidate) {
    value.position == row.position && value.partNumber == row.partNumber
  }

  predicate SameRow(row: Control, value: Candidate) {
    && SameKey(row, value) && SameQuantity(value.quantity, row.quantity)
    && value.quantityRaw == row.quantityRaw && Described(row, value)
  }

  /** The five fields, one by one: what is NaN agrees with nothing, and an empty description is no name. */
  lemma RowsAgreeExactly(row: Control, value: Candidate)
    ensures SameRow(row, value) <==>
            && value.position == row.position && value.partNumber == row.partNumber
            && value.quantityRaw == row.quantityRaw
            && (match (row.quantity, value.quantity)
                case (Unparsed, Unparsed) => true
                case (Number(x), Number(y)) => x == y
                case (Infinite(x), Infinite(y)) => x == y
                case _ => false)
            && (exists name :: name != "" && value.description == Some(name) && Some(name) in row.names)
  {
  }

  type Rule = (Control, Candidate) -> bool

  function Without<T>(s: seq<T>, i: nat): seq<T>
    requires i < |s|
  {
    s[..i] + s[i + 1..]
  }

  lemma WithoutIsRemoval<T>(s: seq<T>, i: nat)
    requires i < |s|
    ensures multiset(Without(s, i)) == multiset(s) - multiset{s[i]}
    ensures |Without(s, i)| == |s| - 1
  {
    assert s == s[..i] + [s[i]] + s[i + 1..];
  }

  lemma WithoutTail<T>(s: seq<T>, i: nat)
    requires i < |s|
    ensures |Without(s, i)| == |s| - 1
    ensures i == 0 ==> Without(s, i) == s[1..]
    ensures i > 0 ==> Without(s, i)[0] == s[0] && Without(s, i)[1..] == Without(s[1..], i - 1)
  {
  }

  // ---------------------------------------------------------------- The matchings as functions

  /** The first candidate that fits, or the number of candidates. */
  function FirstFit(row: Control, values: seq<Candidate>, rule: Rule): (i: nat)
    ensures i <= |values|
    ensures i < |values| ==> rule(row, values[i])
    ensures forall j :: 0 <= j < i ==> !rule(row, values[j])
  {
    if values == [] || rule(row, values[0]) then 0 else 1 + FirstFit(row, values[1..], rule)
  }

  /** What is left of the candidates after the rows have consumed theirs, in order. */
  function Leftover(rows: seq<Control>, values: seq<Candidate>, rule: Rule): (left: seq<Candidate>)
    ensures |left| <= |values|
    decreases |rows|
  {
    if rows == [] then values
    else
      var i := FirstFit(rows[0], values, rule);
      Leftover(rows[1..], if i < |values| then Without(values, i) else values, rule)
  }

  function Matched(rows: seq<Control>, values: seq<Candidate>, rule: Rule): nat {
    |values| - |Leftover(rows, values, rule)|
  }

  lemma LeftoverAppend(rows: seq<Control>, row: Control, values: seq<Candidate>, rule: Rule)
    ensures var left := Leftover(rows, values, rule); var i := FirstFit(row, left, rule);
            Leftover(rows + [row], values, rule) == if i < |left| then Without(left, i) else left
    decreases |rows|
  {
    if rows == [] {
      assert rows + [row] == [row] && [row][1..] == [];
    } else {
      var i := FirstFit(rows[0], values, rule);
      assert (rows + [row])[1..] == rows[1..] + [row];
      LeftoverAppend(rows[1..], row, if i < |values| then Without(values, i) else values, rule);
    }
  }

  // ---------------------------------------------------------------- The loops

  method FindFirst(row: Control, values: seq<Candidate>, rule: Rule) returns (i: nat)
    ensures i == FirstFit(row, values, rule)
  {
    i := 0;
    while i < |values| && !rule(row, values[i])
      invariant i <= |values| && FirstFit(row, values, rule) == i + FirstFit(row, values[i..], rule)
    {
      assert values[i..][1..] == values[i + 1..] && values[i..][0] == values[i];
      i := i + 1;
    }
    assert i < |values| ==> values[i..][0] == values[i];
  }

  datatype Paired = Paired(keys: nat, numeric: nat, raw: nat, described: nat)

  predicate SameNumber(row: Control, value: Candidate) {
    SameQuantity(value.quantity, row.quantity)
  }

  predicate SameRaw(row: Control, value: Candidate) {
    value.quantityRaw == row.quantityRaw
  }

  datatype Pair = Pair(row: Control, value: Candidate)

  /** The pairs on which a test holds. */
  ghost function Agreeing(pairs: seq<Pair>, test: Rule): (count: nat)
    ensures count <= |pairs|
  {
    if pairs == [] then 0
    else
      var n := |pairs| - 1;
      Agreeing(pairs[..n], test) + if test(pairs[n].row, pairs[n].value) then 1 else 0
  }

  /** The counts are those of the pairs, which agree in the key. */
  ghost predicate Counts(paired: Paired, pairs: seq<Pair>) {
    && |pairs| == paired.keys && paired.numeric == Agreeing(pairs, SameNumber)
    && paired.raw == Agreeing(pairs, SameRaw) && paired.described == Agreeing(pairs, Described)
    && forall k :: 0 <= k < |pairs| ==> SameKey(pairs[k].row, pairs[k].value)
  }

  lemma OneMorePair(before: Paired, after: Paired, pairs: seq<Pair>, row: Control, value: Candidate)
    requires Counts(before, pairs) && SameKey(row, value)
    requires after.keys == before.keys + 1
    requires after.numeric == before.numeric + if SameQuantity(value.quantity, row.quantity) then 1 else 0
    requires after.raw == before.raw + if value.quantityRaw == row.quantityRaw then 1 else 0
    requires after.described == before.described + if Described(row, value) then 1 else 0
    ensures Counts(after, pairs + [Pair(row, value)])
  {
    assert (pairs + [Pair(row, value)])[..|pairs|] == pairs;
  }

  /** The pairing by position and part number, with the fields on which the pairs agree. */
  method PairByKey(rows: seq<Control>, values: seq<Candidate>)
    returns (paired: Paired, unused: seq<Candidate>, ghost pairs: seq<Pair>)
    ensures unused == Leftover(rows, values, SameKey) && paired.keys == Matched(rows, values, SameKey)
    ensures Counts(paired, pairs)
  {
    hide Counts, Described, SameQuantity, Leftover, FirstFit, SameKey;
    assert Leftover([], values, SameKey) == values by {
      NothingConsumed(values, SameKey);
    }
    assert rows[..0] == [];
    unused, paired, pairs := values, Paired(0, 0, 0, 0), [];
    NoPairs();
    for n := 0 to |rows|
      invariant unused == Leftover(rows[..n], values, SameKey) && |unused| + paired.keys == |values|
      invariant Counts(paired, pairs)
    {
      var row := rows[n];
      assert rows[..n + 1] == rows[..n] + [row];
      LeftoverAppend(rows[..n], row, values, SameKey);
      var i := FindFirst(row, unused, SameKey);
      if i == |unused| {
        continue;
      }
      var value := unused[i];
      unused := unused[..i] + unused[i + 1..];
      ghost var before := paired;
      paired := Paired(
        paired.keys + 1,
        paired.numeric + if SameQuantity(value.quantity, row.quantity) then 1 else 0,
        paired.raw + if value.quantityRaw == row.quantityRaw then 1 else 0,
        paired.described + if Described(row, value) then 1 else 0);
      OneMorePair(before, paired, pairs, row, value);
      pairs := pairs + [Pair(row, value)];
    }
    assert rows[..|rows|] == rows;
  }

  lemma NothingConsumed(values: seq<Candidate>, rule: Rule)
    ensures Leftover([], values, rule) == values
  {
  }

  lemma NoPairs()
    ensures Counts(Paired(0, 0, 0, 0), [])
  {
  }

  /** The rows that find a candidate equal in all five fields. */
  method CountExactRows(rows: seq<Control>, values: seq<Candidate>) returns (exact: nat)
    ensures exact == Matched(rows, values, SameRow)
  {
    hide Leftover, FirstFit, SameRow;
    NothingConsumed(values, SameRow);
    assert rows[..0] == [];
    var remaining := values;
    exact := 0;
    for n := 0 to |rows|
      invariant remaining == Leftover(rows[..n], values, SameRow) && |remaining| + exact == |values|
    {
      assert rows[..n + 1] == rows[..n] + [rows[n]];
      LeftoverAppend(rows[..n], rows[n], values, SameRow);
      var i := FindFirst(rows[n], remaining, SameRow);
      if i < |remaining| {
        remaining := remaining[..i] + remaining[i + 1..];
        exact := exact + 1;
      }
    }
    assert rows[..|rows|] == rows;
  }

  datatype Verdict = Verdict(pairs: nat, missing: int, additional: nat, exact: nat, accepted: bool)

  /** The counts of `compare` for one page. */
  method ComparePage(rows: seq<Control>, values: seq<Candidate>, provenance: bool, error: bool) returns (v: Verdict)
    ensures v.pairs == |Keys(rows) * CandidateKeys(values)|
    ensures v.missing == |Keys(rows) - CandidateKeys(values)| && v.additional == |CandidateKeys(values) - Keys(rows)|
    ensures v.exact == Matched(rows, values, SameRow)
    ensures v.accepted <==> v.exact == |rows| == |values| && provenance && !error
    ensures v.accepted ==> Perfect(rows, multiset(values), SameRow)
    ensures Nested(rows) && Perfect(rows, multiset(values), SameRow) && provenance && !error ==> v.accepted
  {
    var paired, unused;
    ghost var pairs;
    paired, unused, pairs := PairByKey(rows, values);
    var exact := CountExactRows(rows, values);
    PairsAreTheIntersection(rows, values);
    AcceptedIsPerfect(rows, values, SameRow);
    if Nested(rows) && Perfect(rows, multiset(values), SameRow) {
      PerfectIsFittable(rows, multiset(values), SameRow);
      NestedIsUniform(rows);
      PerfectIsAccepted(rows, values, SameRow);
    }
    v := Verdict(paired.keys, |rows| - paired.keys, |unused|, exact,
                 exact == |rows| == |values| && provenance && !error);
  }

  // ---------------------------------------------------------------- Pairing by key is an intersection

  datatype RowKey = RowKey(position: Cell, partNumber: Cell)

  function Keys(rows: seq<Control>): multiset<RowKey> {
    if rows == [] then multiset{} else multiset{RowKey(rows[0].position, rows[0].partNumber)} + Keys(rows[1..])
  }

  function CandidateKeys(values: seq<Candidate>): multiset<RowKey> {
    if values == [] then multiset{}
    else multiset{RowKey(values[0].position, values[0].partNumber)} + CandidateKeys(values[1..])
  }

  lemma {:induction false} KeysCount(rows: seq<Control>, values: seq<Candidate>)
    ensures |Keys(rows)| == |rows| && |CandidateKeys(values)| == |values|
    decreases |rows| + |values|
  {
    if rows != [] {
      KeysCount(rows[1..], []);
    }
    if values != [] {
      KeysCount([], values[1..]);
    }
  }

  lemma {:induction false} CandidateKeysWithout(values: seq<Candidate>, i: nat)
    requires i < |values|
    ensures CandidateKeys(values)
         == CandidateKeys(Without(values, i)) + multiset{RowKey(values[i].position, values[i].partNumber)}
  {
    hide Without;
    WithoutTail(values, i);
    if i > 0 {
      CandidateKeysWithout(values[1..], i - 1);
      assert values[1..][i - 1] == values[i];
    }
  }

  lemma {:induction false} KeyFits(row: Control, values: seq<Candidate>)
    ensures FirstFit(row, values, SameKey) < |values| <==> RowKey(row.position, row.partNumber) in CandidateKeys(values)
  {
    if values != [] {
      KeyFits(row, values[1..]);
    }
  }

  /** The candidates left over have exactly the keys that the controls do not use up. */
  lemma {:induction false} LeftoverKeys(rows: seq<Control>, values: seq<Candidate>)
    ensures CandidateKeys(Leftover(rows, values, SameKey)) == CandidateKeys(values) - Keys(rows)
    decreases |rows|
  {
    if rows != [] {
      var key, i := RowKey(rows[0].position, rows[0].partNumber), FirstFit(rows[0], values, SameKey);
      KeyFits(rows[0], values);
      if i < |values| {
        CandidateKeysWithout(values, i);
        LeftoverKeys(rows[1..], Without(values, i));
      } else {
        LeftoverKeys(rows[1..], values);
      }
    }
  }

  /** The number of pairs is the size of the intersection of the two key lists, whatever their order. */
  lemma PairsAreTheIntersection(rows: seq<Control>, values: seq<Candidate>)
    ensures Matched(rows, values, SameKey) == |Keys(rows) * CandidateKeys(values)|
    ensures |Leftover(rows, values, SameKey)| == |CandidateKeys(values) - Keys(rows)|
    ensures |rows| - Matched(rows, values, SameKey) == |Keys(rows) - CandidateKeys(values)|
  {
    var left := Leftover(rows, values, SameKey);
    LeftoverKeys(rows, values);
    KeysCount(rows, values);
    KeysCount(rows, left);
    SplitSizes(Keys(rows), CandidateKeys(values));
  }

  lemma SplitSizes(r: multiset<RowKey>, v: multiset<RowKey>)
    ensures |v| == |v - r| + |r * v| && |r| == |r - v| + |r * v|
  {
    assert v == (v - r) + (r * v);
    assert r == (r - v) + (r * v);
  }

  /** Reordering the controls or the candidates does not change the counts. */
  lemma PairsIgnoreOrder(rows: seq<Control>, values: seq<Candidate>, others: seq<Control>, candidates: seq<Candidate>)
    requires multiset(rows) == multiset(others) && multiset(values) == multiset(candidates)
    ensures Matched(rows, values, SameKey) == Matched(others, candidates, SameKey)
    ensures |Leftover(rows, values, SameKey)| == |Leftover(others, candidates, SameKey)|
  {
    KeysIgnoreOrder(rows, others);
    CandidateKeysIgnoreOrder(values, candidates);
    PairsAreTheIntersection(rows, values);
    PairsAreTheIntersection(others, candidates);
  }

  lemma {:induction false} KeysWithout(rows: seq<Control>, i: nat)
    requires i < |rows|
    ensures Keys(rows) == Keys(Without(rows, i)) + multiset{RowKey(rows[i].position, rows[i].partNumber)}
  {
    hide Without;
    WithoutTail(rows, i);
    if i > 0 {
      KeysWithout(rows[1..], i - 1);
      assert rows[1..][i - 1] == rows[i];
    }
  }

  lemma {:induction false} KeysIgnoreOrder(rows: seq<Control>, others: seq<Control>)
    requires multiset(rows) == multiset(others)
    ensures Keys(rows) == Keys(others)
    decreases |rows|
  {
    if rows == [] {
      assert |multiset(others)| == 0;
    } else {
      assert rows[0] in multiset(others);
      var i :| 0 <= i < |others| && others[i] == rows[0];
      WithoutIsRemoval(others, i);
      WithoutIsRemoval(rows, 0);
      assert Without(rows, 0) == rows[1..];
      KeysIgnoreOrder(rows[1..], Without(others, i));
      KeysWithout(others, i);
    }
  }

  lemma {:induction false} CandidateKeysIgnoreOrder(values: seq<Candidate>, others: seq<Candidate>)
    requires multiset(values) == multiset(others)
    ensures CandidateKeys(values) == CandidateKeys(others)
    decreases |values|
  {
    if values == [] {
      assert |multiset(others)| == 0;
    } else {
      assert values[0] in multiset(others);
      var i :| 0 <= i < |others| && others[i] == values[0];
      WithoutIsRemoval(others, i);
      WithoutIsRemoval(values, 0);
      assert Without(values, 0) == values[1..];
      CandidateKeysIgnoreOrder(values[1..], Without(others, i));
      CandidateKeysWithout(others, i);
    }
  }

  // ---------------------------------------------------------------- Acceptance and bijections

  /** The rows and the candidates can be paired off completely. */
  ghost predicate Perfect(rows: seq<Control>, values: multiset<Candidate>, rule: Rule)
    decreases |rows|
  {
    if rows == [] then values == multiset{}
    else exists value :: value in values && rule(rows[0], value) && Perfect(rows[1..], values - multiset{value}, rule)
  }

  /** `pairing` is a bijection from the rows to the candidates that respects the rule. */
  ghost predicate Bijection(rows: seq<Control>, values: seq<Candidate>, rule: Rule, pairing: seq<nat>) {
    && |pairing| == |rows| == |values|
    && (forall i :: 0 <= i < |rows| ==> pairing[i] < |values| && rule(rows[i], values[pairing[i]]))
    && (forall i, j :: 0 <= i < j < |rows| ==> pairing[i] != pairing[j])
  }

  lemma {:induction false} AcceptedIsPerfect(rows: seq<Control>, values: seq<Candidate>, rule: Rule)
    ensures Matched(rows, values, rule) <= |rows|
    ensures Matched(rows, values, rule) == |rows| == |values| ==> Perfect(rows, multiset(values), rule)
    decreases |rows|
  {
    if rows != [] {
      var i := FirstFit(rows[0], values, rule);
      if i < |values| {
        WithoutIsRemoval(values, i);
        AcceptedIsPerfect(rows[1..], Without(values, i), rule);
      } else {
        AcceptedIsPerfect(rows[1..], values, rule);
      }
    }
  }

  /** Places among the remaining candidates as places among all of them. */
  function Shift(i: nat, rest: seq<nat>): (r: seq<nat>)
    ensures |r| == |rest| && forall k :: 0 <= k < |rest| ==> r[k] == if rest[k] < i then rest[k] else rest[k] + 1
  {
    seq(|rest|, k requires 0 <= k < |rest| => if rest[k] < i then rest[k] else rest[k] + 1)
  }

  lemma BijectionExtends(rows: seq<Control>, values: seq<Candidate>, rule: Rule, i: nat, rest: seq<nat>)
    requires rows != [] && i < |values| && rule(rows[0], values[i])
    requires Bijection(rows[1..], Without(values, i), rule, rest)
    ensures Bijection(rows, values, rule, [i] + Shift(i, rest))
  {
    var pairing, left := [i] + Shift(i, rest), Without(values, i);
    assert |left| == |values| - 1;
    forall k | 1 <= k < |rows|
      ensures pairing[k] < |values| && rule(rows[k], values[pairing[k]]) && pairing[k] != i
    {
      assert rows[1..][k - 1] == rows[k] && rule(rows[1..][k - 1], left[rest[k - 1]]);
      assert left[rest[k - 1]] == values[pairing[k]];
    }
    forall j, k | 1 <= j < k < |rows|
      ensures pairing[j] != pairing[k]
    {
      assert rest[j - 1] != rest[k - 1];
    }
  }

  /** A complete pairing of the rows is a bijection between their places and the candidates' places. */
  lemma {:induction false} PerfectIsBijection(rows: seq<Control>, values: seq<Candidate>, rule: Rule)
    returns (pairing: seq<nat>)
    requires Perfect(rows, multiset(values), rule)
    ensures Bijection(rows, values, rule, pairing)
    decreases |rows|
  {
    hide Perfect, Shift, Without;
    if rows == [] {
      PerfectBase(rows, values, rule);
      return [];
    }
    var value := PerfectStep(rows, multiset(values), rule);
    var i :| 0 <= i < |values| && values[i] == value;
    WithoutIsRemoval(values, i);
    var rest := PerfectIsBijection(rows[1..], Without(values, i), rule);
    pairing := [i] + Shift(i, rest);
    BijectionExtends(rows, values, rule, i, rest);
  }

  lemma NoneLeft(rows: seq<Control>, values: multiset<Candidate>, rule: Rule)
    requires rows == [] && Perfect(rows, values, rule)
    ensures values == multiset{}
  {
  }

  lemma PerfectBase(rows: seq<Control>, values: seq<Candidate>, rule: Rule)
    requires rows == [] && Perfect(rows, multiset(values), rule)
    ensures values == []
  {
    assert |values| == |multiset(values)| == 0;
  }

  lemma PerfectStep(rows: seq<Control>, values: multiset<Candidate>, rule: Rule) returns (value: Candidate)
    requires rows != [] && Perfect(rows, values, rule)
    ensures value in values && rule(rows[0], value) && Perfect(rows[1..], values - multiset{value}, rule)
  {
    value :| value in values && rule(rows[0], value) && Perfect(rows[1..], values - multiset{value}, rule);
  }

  lemma PerfectFrom(rows: seq<Control>, values: multiset<Candidate>, rule: Rule, value: Candidate)
    requires rows != [] && value in values && rule(rows[0], value) && Perfect(rows[1..], values - multiset{value}, rule)
    ensures Perfect(rows, values, rule)
  {
  }

  /** If the rows share a candidate, whatever fits the first fits the second. */
  ghost predicate Alike(one: Control, other: Control, rule: Rule) {
    forall shared, value :: rule(one, shared) && rule(other, shared) && rule(one, value) ==> rule(other, value)
  }

  /** Every row is alike to the rows after it, in this direction only. */
  ghost predicate Uniform(rows: seq<Control>, rule: Rule) {
    forall i, j :: 0 <= i < j < |rows| ==> Alike(rows[i], rows[j], rule)
  }

  /** A candidate may be replaced by another that fits wherever it does. */
  lemma {:induction false} PerfectExchange(rows: seq<Control>, values: multiset<Candidate>, rule: Rule,
                                        gone: Candidate, instead: Candidate)
    requires Perfect(rows, values, rule) && gone in values
    requires forall i :: 0 <= i < |rows| && rule(rows[i], gone) ==> rule(rows[i], instead)
    ensures Perfect(rows, values - multiset{gone} + multiset{instead}, rule)
    decreases |rows|
  {
    hide Perfect;
    if rows == [] {
      NoneLeft(rows, values, rule);
      assert false;
    } else {
      var changed := values - multiset{gone} + multiset{instead};
      var value := PerfectStep(rows, values, rule);
      if value == gone {
        assert changed - multiset{instead} == values - multiset{value};
        PerfectFrom(rows, changed, rule, instead);
      } else {
        PerfectExchange(rows[1..], values - multiset{value}, rule, gone, instead);
        assert values - multiset{value} - multiset{gone} + multiset{instead} == changed - multiset{value};
        PerfectFrom(rows, changed, rule, value);
      }
    }
  }

  lemma Likewise(one: Control, other: Control, rule: Rule, shared: Candidate, value: Candidate)
    requires Alike(one, other, rule) && rule(one, shared) && rule(other, shared) && rule(one, value)
    ensures rule(other, value)
  {
  }

  /**
   Where later rows that share a candidate take whatever the first one takes, the first candidate that fits leaves a
   complete pairing of the rest.
   */
  lemma FirstFitIsSafe(rows: seq<Control>, values: seq<Candidate>, rule: Rule)
    requires rows != [] && Uniform(rows, rule) && Perfect(rows, multiset(values), rule)
    ensures var i := FirstFit(rows[0], values, rule);
            i < |values| && Perfect(rows[1..], multiset(Without(values, i)), rule)
  {
    hide Perfect, Alike;
    var all := multiset(values);
    var value := PerfectStep(rows, all, rule);
    var i := FirstFit(rows[0], values, rule);
    var at :| 0 <= at < |values| && values[at] == value;
    var first := values[i];
    WithoutIsRemoval(values, i);
    if first != value {
      assert first in all - multiset{value};
      forall k | 0 <= k < |rows[1..]| && rule(rows[1..][k], first)
        ensures rule(rows[1..][k], value)
      {
        Likewise(rows[0], rows[k + 1], rule, first, value);
      }
      PerfectExchange(rows[1..], all - multiset{value}, rule, first, value);
      assert all - multiset{value} - multiset{first} + multiset{value} == all - multiset{first};
    }
  }

  lemma {:induction false} PerfectIsAccepted(rows: seq<Control>, values: seq<Candidate>, rule: Rule)
    requires Uniform(rows, rule) && Perfect(rows, multiset(values), rule)
    ensures Matched(rows, values, rule) == |rows| == |values|
    decreases |rows|
  {
    hide Perfect, Alike;
    if rows == [] {
      PerfectBase(rows, values, rule);
    } else {
      FirstFitIsSafe(rows, values, rule);
      assert Uniform(rows[1..], rule) by {
        assert forall k :: 0 <= k < |rows[1..]| ==> rows[1..][k] == rows[k + 1];
      }
      PerfectIsAccepted(rows[1..], Without(values, FirstFit(rows[0], values, rule)), rule);
    }
  }

  // ---------------------------------------------------------------- Exactly when pairing off means acceptance

  ghost predicate FitsSome(row: Control, rule: Rule) {
    exists value :: rule(row, value)
  }

  /** Each row by itself has some candidate that would fit it. */
  ghost predicate Fittable(rows: seq<Control>, rule: Rule) {
    forall i :: 0 <= i < |rows| ==> FitsSome(rows[i], rule)
  }

  /** Every list of candidates that pairs off with the rows, in whatever order, is matched completely. */
  ghost predicate AlwaysAccepted(rows: seq<Control>, rule: Rule) {
    forall values: seq<Candidate> :: Perfect(rows, multiset(values), rule) ==>
      Matched(rows, values, rule) == |rows| == |values|
  }

  lemma {:induction false} PerfectIsFittable(rows: seq<Control>, values: multiset<Candidate>, rule: Rule)
    requires Perfect(rows, values, rule)
    ensures Fittable(rows, rule)
    decreases |rows|
  {
    hide Perfect;
    if rows != [] {
      var value := PerfectStep(rows, values, rule);
      PerfectIsFittable(rows[1..], values - multiset{value}, rule);
      assert FitsSome(rows[0], rule);
      assert forall i :: 0 < i < |rows| ==> rows[i] == rows[1..][i - 1];
    }
  }

  /** A candidate for every row. */
  ghost predicate Partners(rows: seq<Control>, picks: seq<Candidate>, rule: Rule) {
    |picks| == |rows| && forall k :: 0 <= k < |rows| ==> rule(rows[k], picks[k])
  }

  lemma {:induction false} PickPartners(rows: seq<Control>, rule: Rule) returns (picks: seq<Candidate>)
    requires Fittable(rows, rule)
    ensures Partners(rows, picks, rule)
    decreases |rows|
  {
    picks := [];
    if rows != [] {
      assert FitsSome(rows[0], rule);
      var value :| rule(rows[0], value);
      assert forall i :: 0 <= i < |rows[1..]| ==> rows[1..][i] == rows[i + 1];
      var rest := PickPartners(rows[1..], rule);
      picks := [value] + rest;
      assert forall k :: 0 < k < |rows| ==> rows[k] == rows[1..][k - 1];
    }
  }

  lemma {:induction false} PartnersArePerfect(rows: seq<Control>, picks: seq<Candidate>, rule: Rule)
    requires Partners(rows, picks, rule)
    ensures Perfect(rows, multiset(picks), rule)
    decreases |rows|
  {
    if rows != [] {
      hide Perfect;
      assert Partners(rows[1..], picks[1..], rule);
      PartnersArePerfect(rows[1..], picks[1..], rule);
      assert picks == [picks[0]] + picks[1..];
      assert multiset(picks) - multiset{picks[0]} == multiset(picks[1..]);
      PerfectFrom(rows, multiset(picks), rule, picks[0]);
    }
  }

  /** Rows whose partners stand in front, in the order of the rows, take them. */
  lemma {:induction false} FrontIsConsumed(rows: seq<Control>, front: seq<Candidate>, rest: seq<Candidate>, rule: Rule)
    requires |front| <= |rows| && Partners(rows[..|front|], front, rule)
    ensures Leftover(rows, front + rest, rule) == Leftover(rows[|front|..], rest, rule)
    decreases |rows|
  {
    if front == [] {
      assert rows[0..] == rows && front + rest == rest;
    } else {
      var all := front + rest;
      assert rows[..|front|][0] == rows[0] && all[0] == front[0];
      assert Without(all, 0) == front[1..] + rest;
      assert rows[1..][..|front[1..]|] == rows[..|front|][1..];
      FrontIsConsumed(rows[1..], front[1..], rest, rule);
      assert rows[1..][|front[1..]|..] == rows[|front|..];
    }
  }

  /** The rows that the candidate fits. */
  function Takers(rows: seq<Control>, value: Candidate, rule: Rule): nat {
    if rows == [] then 0 else (if rule(rows[0], value) then 1 else 0) + Takers(rows[1..], value, rule)
  }

  /** Only its takers can consume copies of a candidate. */
  lemma {:induction false} CopiesRemain(rows: seq<Control>, values: seq<Candidate>, rule: Rule, value: Candidate)
    ensures multiset(values)[value] <= multiset(Leftover(rows, values, rule))[value] + Takers(rows, value, rule)
    decreases |rows|
  {
    if rows != [] {
      var i := FirstFit(rows[0], values, rule);
      if i < |values| {
        WithoutIsRemoval(values, i);
        CopiesRemain(rows[1..], Without(values, i), rule, value);
      } else {
        CopiesRemain(rows[1..], values, rule, value);
      }
    }
  }

  lemma {:induction false} EveryTakerHasACopy(rows: seq<Control>, picks: seq<Candidate>, rule: Rule, value: Candidate)
    requires |picks| == |rows| && forall k :: 0 <= k < |rows| && rule(rows[k], value) ==> picks[k] == value
    ensures Takers(rows, value, rule) <= multiset(picks)[value]
    decreases |rows|
  {
    if rows != [] {
      assert picks == [picks[0]] + picks[1..];
      EveryTakerHasACopy(rows[1..], picks[1..], rule, value);
    }
  }

  /** `late` gives partners to the rows after row `i`: `first` to row `j`, and `other` to all whom it fits. */
  ghost predicate LatePartners(rows: seq<Control>, late: seq<Candidate>, rule: Rule, i: nat, j: nat, first: Candidate,
                               other: Candidate) {
    && i < j < |rows| && Partners(rows[i + 1..], late, rule) && late[j - i - 1] == first
    && (forall k :: 0 <= k < |late| && rule(rows[i + 1..][k], other) ==> late[k] == other)
  }

  lemma LatePartnersExist(rows: seq<Control>, picks: seq<Candidate>, rule: Rule, i: nat, j: nat, first: Candidate,
                          other: Candidate) returns (late: seq<Candidate>)
    requires Partners(rows, picks, rule) && i < j < |rows| && rule(rows[j], first) && !rule(rows[j], other)
    ensures LatePartners(rows, late, rule, i, j, first, other)
  {
    var rest := rows[i + 1..];
    assert rest[j - i - 1] == rows[j] && forall k :: 0 <= k < |rest| ==> rule(rest[k], picks[i + 1 + k]);
    late := seq(|rest|, k requires 0 <= k < |rest| =>
      if k == j - i - 1 then first else if rule(rest[k], other) then other else picks[i + 1 + k]);
  }

  lemma MoveToFront<T>(front: seq<T>, first: T, other: T, late: seq<T>, at: nat)
    requires at < |late| && late[at] == first
    ensures multiset(front + [first] + ([other] + Without(late, at))) == multiset(front + [other] + late)
  {
    WithoutIsRemoval(late, at);
  }

  /**
   In front the partners of the rows before row `i`, then `first`, then `other`, then the late ones but for `first`.
   */
  lemma MisleadingPairsOff(rows: seq<Control>, front: seq<Candidate>, late: seq<Candidate>, rule: Rule, i: nat, j: nat,
                           first: Candidate, other: Candidate)
    requires LatePartners(rows, late, rule, i, j, first, other)
    requires Partners(rows[..i], front, rule) && rule(rows[i], other)
    ensures Perfect(rows, multiset(front + [first] + ([other] + Without(late, j - i - 1))), rule)
  {
    hide Perfect, Without;
    MoveToFront(front, first, other, late, j - i - 1);
    var partners := front + [other] + late;
    forall k | 0 <= k < |rows|
      ensures rule(rows[k], partners[k])
    {
      assert k < i ==> rows[..i][k] == rows[k];
      assert k > i ==> rows[i + 1..][k - i - 1] == rows[k];
    }
    PartnersArePerfect(rows, partners, rule);
  }

  /**
   Row `i` is led to take the candidate that row `j` needs, and every later row that could use the other candidate has a
   copy of its own, so one copy stays behind.
   */
  lemma MisleadingIsRefused(rows: seq<Control>, front: seq<Candidate>, late: seq<Candidate>, rule: Rule, i: nat, j: nat,
                            first: Candidate, other: Candidate)
    requires LatePartners(rows, late, rule, i, j, first, other) && first != other
    requires Partners(rows[..i], front, rule) && rule(rows[i], first)
    ensures Leftover(rows, front + [first] + ([other] + Without(late, j - i - 1)), rule) != []
  {
    hide Leftover, Without;
    var rest, spare := rows[i + 1..], [other] + Without(late, j - i - 1);
    assert rows[..i + 1] == rows[..i] + [rows[i]];
    FrontIsConsumed(rows, front + [first], spare, rule);
    EveryTakerHasACopy(rest, late, rule, other);
    WithoutIsRemoval(late, j - i - 1);
    CopiesRemain(rest, spare, rule, other);
  }

  /** A list that pairs off and is refused. */
  lemma MisledRowFails(rows: seq<Control>, picks: seq<Candidate>, rule: Rule, i: nat, j: nat, first: Candidate,
                       other: Candidate)
    requires Partners(rows, picks, rule) && i < j < |rows|
    requires rule(rows[i], first) && rule(rows[j], first) && rule(rows[i], other) && !rule(rows[j], other)
    ensures !AlwaysAccepted(rows, rule)
  {
    hide Perfect, Leftover;
    var late := LatePartnersExist(rows, picks, rule, i, j, first, other);
    var values := picks[..i] + [first] + ([other] + Without(late, j - i - 1));
    MisleadingPairsOff(rows, picks[..i], late, rule, i, j, first, other);
    MisleadingIsRefused(rows, picks[..i], late, rule, i, j, first, other);
    assert Perfect(rows, multiset(values), rule) && Matched(rows, values, rule) < |values|;
  }

  /** The greedy matching accepts every list that pairs off exactly if each row is alike to the later ones. */
  lemma AcceptanceIff(rows: seq<Control>, rule: Rule)
    ensures AlwaysAccepted(rows, rule) <==> (Fittable(rows, rule) ==> Uniform(rows, rule))
  {
    hide Perfect, Leftover, Partners;
    if Fittable(rows, rule) && !Uniform(rows, rule) {
      var i, j :| 0 <= i < j < |rows| && !Alike(rows[i], rows[j], rule);
      var first, other :| rule(rows[i], first) && rule(rows[j], first) && rule(rows[i], other) && !rule(rows[j], other);
      var picks := PickPartners(rows, rule);
      MisledRowFails(rows, picks, rule, i, j, first, other);
    } else {
      forall values: seq<Candidate> | Perfect(rows, multiset(values), rule)
        ensures Matched(rows, values, rule) == |rows| == |values|
      {
        PerfectIsFittable(rows, multiset(values), rule);
        PerfectIsAccepted(rows, values, rule);
      }
    }
  }

  /** A description can equal the name. */
  predicate Named(row: Control, name: Cell) {
    name in row.names && name.Some? && name.value != ""
  }

  /** Some candidate agrees with the row in all five fields. */
  predicate Describable(row: Control) {
    !row.quantity.NaN? && exists name :: name in row.names && Named(row, name)
  }

  predicate SamePlainFields(one: Control, other: Control) {
    && one.position == other.position && one.partNumber == other.partNumber
    && one.quantity == other.quantity && one.quantityRaw == other.quantityRaw
  }

  predicate ShareName(one: Control, other: Control) {
    exists name :: name in one.names && Named(one, name) && Named(other, name)
  }

  predicate Includes(one: Control, other: Control) {
    forall name :: name in other.names && Named(other, name) ==> Named(one, name)
  }

  /** Of two rows that agree on the four plain fields and share a name, the later one has all names of the earlier. */
  predicate Nested(rows: seq<Control>) {
    forall i, j :: 0 <= i < j < |rows| && SamePlainFields(rows[i], rows[j]) && ShareName(rows[i], rows[j])
      ==> Includes(rows[j], rows[i])
  }

  function Copy(row: Control, name: Cell): Candidate {
    Candidate(row.position, row.partNumber, row.quantity, row.quantityRaw, name)
  }

  lemma CopyFits(row: Control, other: Control, name: Cell)
    requires !row.quantity.NaN? && SamePlainFields(row, other)
    ensures SameRow(other, Copy(row, name)) <==> Named(other, name)
  {
  }

  lemma DescribableIsFittable(row: Control)
    ensures Describable(row) <==> FitsSome(row, SameRow)
  {
    if Describable(row) {
      var name :| name in row.names && Named(row, name);
      CopyFits(row, row, name);
    } else if value :| SameRow(row, value) {
      assert Named(row, value.description);
    }
  }

  lemma AlikeIsIncluding(one: Control, other: Control)
    requires Describable(one) && Alike(one, other, SameRow) && SamePlainFields(one, other) && ShareName(one, other)
    ensures Includes(other, one)
  {
    hide Named;
    var shared :| shared in one.names && Named(one, shared) && Named(other, shared);
    CopyFits(one, one, shared);
    CopyFits(one, other, shared);
    forall name | name in one.names && Named(one, name)
      ensures Named(other, name)
    {
      CopyFits(one, one, name);
      CopyFits(one, other, name);
      Likewise(one, other, SameRow, Copy(one, shared), Copy(one, name));
    }
  }

  lemma IncludingIsAlike(one: Control, other: Control)
    requires SamePlainFields(one, other) && ShareName(one, other) ==> Includes(other, one)
    ensures Alike(one, other, SameRow)
  {
    forall shared, value | SameRow(one, shared) && SameRow(other, shared) && SameRow(one, value)
      ensures SameRow(other, value)
    {
      BothFit(one, other, shared);
      assert Named(one, value.description);
    }
  }

  lemma BothFit(one: Control, other: Control, shared: Candidate)
    requires SameRow(one, shared) && SameRow(other, shared)
    ensures SamePlainFields(one, other) && ShareName(one, other)
  {
    assert Named(one, shared.description) && Named(other, shared.description);
  }

  lemma NestedIsUniform(rows: seq<Control>)
    requires Fittable(rows, SameRow)
    ensures Nested(rows) <==> Uniform(rows, SameRow)
  {
    hide Alike, Named, ShareName, Includes, SamePlainFields, SameRow, Describable, FitsSome;
    forall i, j | 0 <= i < j < |rows|
      ensures Alike(rows[i], rows[j], SameRow) <==>
              (SamePlainFields(rows[i], rows[j]) && ShareName(rows[i], rows[j]) ==> Includes(rows[j], rows[i]))
    {
      DescribableIsFittable(rows[i]);
      if SamePlainFields(rows[i], rows[j]) && ShareName(rows[i], rows[j]) {
        if Alike(rows[i], rows[j], SameRow) {
          AlikeIsIncluding(rows[i], rows[j]);
        } else if Includes(rows[j], rows[i]) {
          IncludingIsAlike(rows[i], rows[j]);
        }
      } else {
        IncludingIsAlike(rows[i], rows[j]);
      }
    }
  }

  /**
   Which control rows make every page that pairs off with them acceptable: those whose names are nested in the order of
   the rows. Rows of which one fits no candidate at all pair off with nothing.
   */
  lemma PagesAreAcceptedIff(rows: seq<Control>)
    ensures AlwaysAccepted(rows, SameRow)
       <==> ((forall i :: 0 <= i < |rows| ==> Describable(rows[i])) ==> Nested(rows))
  {
    hide AlwaysAccepted, Nested, Uniform, Describable, SameRow, FitsSome;
    forall i | 0 <= i < |rows|
      ensures Describable(rows[i]) <==> FitsSome(rows[i], SameRow)
    {
      DescribableIsFittable(rows[i]);
    }
    if Fittable(rows, SameRow) {
      NestedIsUniform(rows);
    }
    AcceptanceIff(rows, SameRow);
  }

  /** Two rows of which the second needs the candidate that the first takes when it comes first. */
  lemma OrderDecides(wide: Control, narrow: Control, first: Candidate, second: Candidate, rule: Rule)
    requires rule(wide, first) && rule(narrow, first) && rule(wide, second) && !rule(narrow, second)
    ensures Perfect([wide, narrow], multiset([first, second]), rule)
    ensures Matched([wide, narrow], [first, second], rule) == 1
    ensures Matched([wide, narrow], [second, first], rule) == 2
  {
    hide Perfect;
    assert [wide, narrow][1..] == [narrow] && [narrow][1..] == [];
    assert Without([first, second], 0) == [second] && Without([second, first], 0) == [first]
      && Without([first], 0) == [];
    assert Leftover([narrow], [second], rule) == [second];
    assert Leftover([narrow], [first], rule) == [];
    PartnersArePerfect([wide, narrow], [second, first], rule);
    assert multiset([second, first]) == multiset([first, second]);
  }

  /** Without nesting the order of the candidates can spoil the acceptance of rows that do pair off. */
  lemma OverlappingNamesMayFail() returns (rows: seq<Control>, values: seq<Candidate>)
    ensures !Nested(rows) && |rows| == |values| == 2
    ensures Perfect(rows, multiset(values), SameRow) && Matched(rows, values, SameRow) == 1
    ensures Matched(rows, [values[1], values[0]], SameRow) == 2
    ensures Nested([rows[1], rows[0]])
  {
    hide Perfect, Leftover;
    var a, b: Cell := Some("a"), Some("b");
    var wide, narrow := Control(None, None, Unparsed, None, {a, b}), Control(None, None, Unparsed, None, {a});
    var first, second := Copy(narrow, a), Copy(wide, b);
    rows, values := [wide, narrow], [first, second];
    assert Named(wide, a) && Named(narrow, a) && Named(wide, b) && !Named(narrow, b);
    OrderDecides(wide, narrow, first, second, SameRow);
    assert !Nested(rows) by {
      assert rows[0] == wide && rows[1] == narrow;
    }
    assert Includes(wide, narrow);
  }
}
