/**
 The import of assets: records are validated, shown as a signed preview, and validated again when the preview is
 confirmed.
 */
module ImportPreview {
  import opened Wrappers
  import Tokens

  datatype Field =
    | InventoryNumber | Name | CategoryCode | Brand | Model | PressureBar | SerialNumber | Notes
    | CategoryId | OtherField(key: string)

  datatype Value = Nil | Text(text: string) | Whole(n: int) | Other(value: int)

  type Record = map<Field, Value>

  const ALLOWED: set<Field> := {InventoryNumber, Name, CategoryCode, Brand, Model, PressureBar, SerialNumber, Notes}

  datatype Reason =
    | MissingNumber | DuplicateNumber | NumberExists | ProtectedRegister | MissingFields(fields: seq<Field>)
    | UnknownCategory | PressureNotWhole | FieldNotSupported

  datatype RowError = RowError(row: nat, reason: Reason)

  /**
   The library functions and the unchanging part of the database. `render` is the text of any value, `whole` its
   conversion to an integer, `strip` removes surrounding blanks, `hpwj` says whether the upper-cased text is HPWJ.
   */
  datatype World = World(
    render: Value -> string, whole: Value -> Option<int>, strip: string -> string, hpwj: string -> bool,
    protectedNumbers: set<string>, existing: set<string>, categories: map<string, int>,
    supports: (string, Option<int>) -> bool)

  /** Stripping twice strips once, and rendering a text or reading an integer gives it back. */
  ghost predicate Sound(w: World) {
    && (forall s :: w.strip(w.strip(s)) == w.strip(s))
    && (forall s :: w.render(Text(s)) == s)
    && (forall n :: w.whole(Whole(n)) == Some(n))
  }

  // ---------------------------------------------------------------- One record

  function Lookup(record: Record, field: Field, default: Value): Value {
    if field in record then record[field] else default
  }

  function Stripped(w: World, record: Record, field: Field): string {
    w.strip(w.render(Lookup(record, field, Text(""))))
  }

  function Admitted(source: Record): Record {
    map field | field in source && field in ALLOWED :: source[field]
  }

  function MissingOf(w: World, record: Record, fields: seq<Field>): seq<Field> {
    if fields == [] then []
    else (if Stripped(w, record, fields[0]) == "" then [fields[0]] else []) + MissingOf(w, record, fields[1..])
  }

  /** The pressure, if there is one; None where its conversion fails. */
  function PressureOf(w: World, record: Record): Option<Option<int>> {
    var value := Lookup(record, PressureBar, Nil);
    if value == Nil || value == Text("") then Some(None)
    else
      var n := w.whole(value);
      if n.None? then None else Some(n)
  }

  function PressureValue(pressure: Option<int>): Value {
    if pressure.Some? then Whole(pressure.value) else Nil
  }

  function NumberOf(w: World, source: Record): string {
    Stripped(w, Admitted(source), InventoryNumber)
  }

  /** What becomes of a record when the numbers in `seen` came before it. */
  function Judge(w: World, seen: set<string>, source: Record): Result<Record, Reason> {
    var record, number := Admitted(source), NumberOf(w, source);
    var category := Stripped(w, record, CategoryCode);
    var missing := MissingOf(w, record, [Name, CategoryCode, Brand]);
    var pressure := PressureOf(w, record);
    if number == "" then Failure(MissingNumber)
    else if number in seen then Failure(DuplicateNumber)
    else if number in w.existing then Failure(NumberExists)
    else if w.hpwj(category) || number in w.protectedNumbers then Failure(ProtectedRegister)
    else if missing != [] then Failure(MissingFields(missing))
    else if category !in w.categories then Failure(UnknownCategory)
    else if pressure.None? then Failure(PressureNotWhole)
    else if !w.supports(category, pressure.value) then Failure(FieldNotSupported)
    else
      var numbered := record[InventoryNumber := Text(number)][CategoryId := Whole(w.categories[category])];
      Success(numbered[PressureBar := PressureValue(pressure.value)])
  }

  // ---------------------------------------------------------------- All records

  datatype Outcome = Outcome(seen: set<string>, valid: seq<Record>, errors: seq<RowError>)

  function Step(w: World, o: Outcome, source: Record, row: nat): Outcome {
    var number, judged := NumberOf(w, source), Judge(w, o.seen, source);
    Outcome(
      if number == "" then o.seen else o.seen + {number},
      if judged.Success? then o.valid + [judged.value] else o.valid,
      if judged.Failure? then o.errors + [RowError(row, judged.error)] else o.errors)
  }

  function Validated(w: World, records: seq<Record>): (o: Outcome)
    ensures |o.valid| + |o.errors| == |records|
  {
    if records == [] then Outcome({}, [], [])
    else Step(w, Validated(w, records[..|records| - 1]), records[|records| - 1], |records|)
  }

  /** Where the number is new, the rest of the judgement needs only the admitted fields. */
  lemma JudgedAlone(w: World, seen: set<string>, source: Record)
    requires NumberOf(w, source) !in seen
    ensures Judge(w, {}, Admitted(source)) == Judge(w, seen, source)
  {
    assert Admitted(Admitted(source)) == Admitted(source);
  }

  /** `_validate_import_records`. */
  method ValidateRecords(w: World, records: seq<Record>) returns (valid: seq<Record>, errors: seq<RowError>)
    ensures valid == Validated(w, records).valid && errors == Validated(w, records).errors
  {
    hide MissingOf, PressureOf;
    var seen: set<string> := {};
    valid, errors := [], [];
    for index := 0 to |records|
      invariant Outcome(seen, valid, errors) == Validated(w, records[..index])
    {
      assert records[..index + 1][..index] == records[..index];
      var record := Admitted(records[index]);
      var number := Stripped(w, record, InventoryNumber);
      if number == "" {
        errors := errors + [RowError(index + 1, MissingNumber)];
        continue;
      }
      if number in seen {
        errors := errors + [RowError(index + 1, DuplicateNumber)];
        assert seen + {number} == seen;
        continue;
      }
      JudgedAlone(w, seen, records[index]);
      seen := seen + {number};
      var judged := JudgeFresh(w, record, number);
      if judged.Failure? {
        errors := errors + [RowError(index + 1, judged.error)];
      } else {
        valid := valid + [judged.value];
      }
    }
    assert records[..|records|] == records;
  }

  /** The checks that follow once the number is known to be new in the file. */
  method JudgeFresh(w: World, record: Record, number: string) returns (r: Result<Record, Reason>)
    requires number == Stripped(w, record, InventoryNumber) && number != "" && record == Admitted(record)
    ensures r == Judge(w, {}, record)
  {
    if number in w.existing {
      return Failure(NumberExists);
    }
    var category := Stripped(w, record, CategoryCode);
    if w.hpwj(category) || number in w.protectedNumbers {
      return Failure(ProtectedRegister);
    }
    var missing := MissingOf(w, record, [Name, CategoryCode, Brand]);
    if missing != [] {
      return Failure(MissingFields(missing));
    }
    if category !in w.categories {
      return Failure(UnknownCategory);
    }
    var pressure := PressureOf(w, record);
    if pressure.None? {
      return Failure(PressureNotWhole);
    }
    if !w.supports(category, pressure.value) {
      return Failure(FieldNotSupported);
    }
    var complete := record[InventoryNumber := Text(number)];
    complete := complete[CategoryId := Whole(w.categories[category])];
    complete := complete[PressureBar := PressureValue(pressure.value)];
    return Success(complete);
  }

  // ---------------------------------------------------------------- Validating again

  /** The record is accepted as it is, wherever its number has not come before. */
  ghost predicate Settled(w: World, record: Record) {
    && NumberOf(w, record) != ""
    && forall seen :: NumberOf(w, record) !in seen ==> Judge(w, seen, record) == Success(record)
  }

  /** The fields that decide about an accepted record are those of its source. */
  lemma AcceptedLooksTheSame(w: World, seen: set<string>, source: Record)
    requires Sound(w) && Judge(w, seen, source).Success?
    ensures var r := Judge(w, seen, source).value; var from := Admitted(source);
            && NumberOf(w, r) == NumberOf(w, source)
            && (forall field :: field in {Name, CategoryCode, Brand} ==>
                  Stripped(w, Admitted(r), field) == Stripped(w, from, field))
            && PressureOf(w, Admitted(r)) == PressureOf(w, from)
  {
    var r, from := Judge(w, seen, source).value, Admitted(source);
    var number := NumberOf(w, source);
    assert Admitted(r)[InventoryNumber] == Text(number);
    assert w.strip(w.render(Text(number))) == number;
    forall field | field in {Name, CategoryCode, Brand}
      ensures Lookup(Admitted(r), field, Text("")) == Lookup(from, field, Text(""))
    {
    }
    assert Admitted(r)[PressureBar] == PressureValue(PressureOf(w, from).value);
  }

  /** Adding what is already there changes nothing. */
  lemma CompletedAgain(w: World, seen: set<string>, source: Record)
    requires Sound(w) && Judge(w, seen, source).Success?
    ensures var r := Judge(w, seen, source).value;
            var number, category, pressure := NumberOf(w, source), Stripped(w, Admitted(source), CategoryCode),
              PressureOf(w, Admitted(source));
            category in w.categories && pressure.Some?
            && Admitted(r)[InventoryNumber := Text(number)][CategoryId := Whole(w.categories[category])]
                          [PressureBar := PressureValue(pressure.value)] == r
  {
    var r, from := Judge(w, seen, source).value, Admitted(source);
    var numbered := Admitted(r)[InventoryNumber := r[InventoryNumber]][CategoryId := r[CategoryId]];
    var again := numbered[PressureBar := r[PressureBar]];
    assert forall field :: field in r <==> field in again;
    assert forall field :: field in r ==> again[field] == r[field];
    assert again == r;
    assert r[InventoryNumber] == Text(NumberOf(w, source))
      && r[PressureBar] == PressureValue(PressureOf(w, from).value);
    assert r[CategoryId] == Whole(w.categories[Stripped(w, from, CategoryCode)]);
  }

  lemma SameMissing(w: World, a: Record, b: Record)
    requires forall field :: field in {Name, CategoryCode, Brand} ==> Stripped(w, a, field) == Stripped(w, b, field)
    ensures MissingOf(w, a, [Name, CategoryCode, Brand]) == MissingOf(w, b, [Name, CategoryCode, Brand])
  {
    assert [Name, CategoryCode, Brand][1..] == [CategoryCode, Brand] && [CategoryCode, Brand][1..] == [Brand]
      && [Brand][1..] == [];
    hide Stripped;
    assert MissingOf(w, a, [Brand]) == MissingOf(w, b, [Brand]);
    assert MissingOf(w, a, [CategoryCode, Brand]) == MissingOf(w, b, [CategoryCode, Brand]);
  }

  /** An accepted record is accepted unchanged ever after. */
  lemma AcceptedIsSettled(w: World, seen: set<string>, source: Record)
    requires Sound(w) && Judge(w, seen, source).Success?
    ensures Settled(w, Judge(w, seen, source).value)
    ensures NumberOf(w, Judge(w, seen, source).value) == NumberOf(w, source)
  {
    var r := Judge(w, seen, source).value;
    AcceptedLooksTheSame(w, seen, source);
    CompletedAgain(w, seen, source);
    SameMissing(w, Admitted(r), Admitted(source));
    hide Admitted, Stripped, PressureOf, MissingOf, PressureValue;
    forall other: set<string> | NumberOf(w, r) !in other
      ensures Judge(w, other, r) == Success(r)
    {
    }
  }

  lemma AcceptedIsNew(w: World, seen: set<string>, source: Record)
    requires Judge(w, seen, source).Success?
    ensures NumberOf(w, source) !in seen && NumberOf(w, source) != ""
  {
  }

  ghost predicate Fresh(w: World, records: seq<Record>) {
    && (forall i :: 0 <= i < |records| ==> Settled(w, records[i]))
    && (forall i, j :: 0 <= i < j < |records| ==> NumberOf(w, records[i]) != NumberOf(w, records[j]))
  }

  /** The valid rows of a validation are settled and have different numbers, all of them seen. */
  lemma {:induction false} ValidRowsAreFresh(w: World, records: seq<Record>)
    requires Sound(w)
    ensures Fresh(w, Validated(w, records).valid)
    ensures forall i :: 0 <= i < |Validated(w, records).valid| ==>
      NumberOf(w, Validated(w, records).valid[i]) in Validated(w, records).seen
  {
    hide Settled, Judge, NumberOf;
    if records != [] {
      var before, source := Validated(w, records[..|records| - 1]), records[|records| - 1];
      ValidRowsAreFresh(w, records[..|records| - 1]);
      if Judge(w, before.seen, source).Success? {
        AcceptedIsSettled(w, before.seen, source);
        AcceptedIsNew(w, before.seen, source);
      }
    }
  }

  function Numbers(w: World, records: seq<Record>): set<string> {
    set i | 0 <= i < |records| :: NumberOf(w, records[i])
  }

  lemma NumbersGrow(w: World, records: seq<Record>)
    requires records != []
    ensures Numbers(w, records) == Numbers(w, records[..|records| - 1]) + {NumberOf(w, records[|records| - 1])}
  {
    hide NumberOf;
    var before := records[..|records| - 1];
    forall number | number in Numbers(w, records)
      ensures number in Numbers(w, before) || number == NumberOf(w, records[|records| - 1])
    {
      var i :| 0 <= i < |records| && NumberOf(w, records[i]) == number;
      assert i < |before| ==> before[i] == records[i];
    }
    forall number | number in Numbers(w, before)
      ensures number in Numbers(w, records)
    {
      var i :| 0 <= i < |before| && NumberOf(w, before[i]) == number;
      assert before[i] == records[i];
    }
  }

  lemma LastIsNew(w: World, records: seq<Record>)
    requires Fresh(w, records) && records != []
    ensures var before, last := records[..|records| - 1], records[|records| - 1];
            Fresh(w, before) && NumberOf(w, last) != "" && Judge(w, Numbers(w, before), last) == Success(last)
  {
    hide NumberOf, Judge;
    assert NumberOf(w, records[|records| - 1]) !in Numbers(w, records[..|records| - 1]);
  }

  lemma {:induction false} FreshRowsAreValid(w: World, records: seq<Record>)
    requires Fresh(w, records)
    ensures Validated(w, records) == Outcome(Numbers(w, records), records, [])
  {
    hide Fresh, NumberOf, Judge;
    if records == [] {
      assert Numbers(w, records) == {};
    } else {
      LastIsNew(w, records);
      FreshRowsAreValid(w, records[..|records| - 1]);
      NumbersGrow(w, records);
      assert records == records[..|records| - 1] + [records[|records| - 1]];
    }
  }

  /** Validating the valid rows again, on an unchanged database, gives the same rows and no error. */
  lemma ValidationIsIdempotent(w: World, records: seq<Record>)
    requires Sound(w)
    ensures var again := Validated(w, Validated(w, records).valid);
            again.valid == Validated(w, records).valid && again.errors == []
  {
    ValidRowsAreFresh(w, records);
    FreshRowsAreValid(w, Validated(w, records).valid);
  }

  // ---------------------------------------------------------------- Exactly which rows are valid

  /** The text of a column, without the blanks around it; an absent column has none. */
  ghost function TextOf(w: World, source: Record, field: Field): string {
    w.strip(w.render(if field in source then source[field] else Text("")))
  }

  /** No pressure, or one that converts to an integer. */
  ghost predicate PressureIs(w: World, source: Record, pressure: Option<int>) {
    if PressureBar !in source || source[PressureBar] == Nil || source[PressureBar] == Text("") then pressure == None
    else pressure != None && w.whole(source[PressureBar]) == pressure
  }

  /** A number that is new in the file and in the database and not protected, the other columns, and a fit category. */
  ghost predicate ValidRow(w: World, seen: set<string>, source: Record) {
    var number, category := TextOf(w, source, InventoryNumber), TextOf(w, source, CategoryCode);
    && number != "" && number !in seen && number !in w.existing && number !in w.protectedNumbers
    && !w.hpwj(category) && category != "" && category in w.categories
    && TextOf(w, source, Name) != "" && TextOf(w, source, Brand) != ""
    && exists pressure :: PressureIs(w, source, pressure) && w.supports(category, pressure)
  }

  /** The supported columns of the row, with the stripped number, the category's id and the pressure. */
  ghost predicate IsRowOf(w: World, source: Record, row: Record) {
    && row.Keys == (source.Keys
                    * {InventoryNumber, Name, CategoryCode, Brand, Model, PressureBar, SerialNumber, Notes})
                   + {InventoryNumber, CategoryId, PressureBar}
    && row[InventoryNumber] == Text(TextOf(w, source, InventoryNumber))
    && TextOf(w, source, CategoryCode) in w.categories
    && row[CategoryId] == Whole(w.categories[TextOf(w, source, CategoryCode)])
    && (row[PressureBar] == Nil || row[PressureBar].Whole?)
    && PressureIs(w, source, if row[PressureBar].Whole? then Some(row[PressureBar].n) else None)
    && forall field :: field in {Name, CategoryCode, Brand, Model, SerialNumber, Notes} && field in source ==>
         row[field] == source[field]
  }

  lemma TextsOfRow(w: World, source: Record)
    ensures NumberOf(w, source) == TextOf(w, source, InventoryNumber)
    ensures forall field :: field in {Name, CategoryCode, Brand} ==>
              Stripped(w, Admitted(source), field) == TextOf(w, source, field)
    ensures forall pressure :: PressureOf(w, Admitted(source)) == Some(pressure) <==> PressureIs(w, source, pressure)
  {
  }

  lemma NothingIsMissing(w: World, record: Record)
    ensures MissingOf(w, record, [Name, CategoryCode, Brand]) == [] <==>
            forall field :: field in {Name, CategoryCode, Brand} ==> Stripped(w, record, field) != ""
  {
    assert [Name, CategoryCode, Brand][1..] == [CategoryCode, Brand] && [CategoryCode, Brand][1..] == [Brand]
      && [Brand][1..] == [];
    hide Stripped;
    assert MissingOf(w, record, [Brand]) == [] <==> Stripped(w, record, Brand) != "";
    assert MissingOf(w, record, [CategoryCode, Brand]) == [] <==>
        Stripped(w, record, CategoryCode) != "" && Stripped(w, record, Brand) != "";
  }

  lemma RowsAreJudgedExactly(w: World, seen: set<string>, source: Record)
    ensures Judge(w, seen, source).Success? <==> ValidRow(w, seen, source)
    ensures Judge(w, seen, source).Success? ==> IsRowOf(w, source, Judge(w, seen, source).value)
  {
    TextsOfRow(w, source);
    NothingIsMissing(w, Admitted(source));
    hide Stripped, PressureOf, MissingOf, TextOf;
  }

  /** The numbers of the rows before row `i`, blank ones apart. */
  ghost function SeenBefore(w: World, records: seq<Record>, i: nat): set<string>
    requires i <= |records|
  {
    set k | 0 <= k < i && TextOf(w, records[k], InventoryNumber) != "" :: TextOf(w, records[k], InventoryNumber)
  }

  lemma {:induction false} SeenIsBefore(w: World, records: seq<Record>)
    ensures Validated(w, records).seen == SeenBefore(w, records, |records|)
  {
    hide Judge;
    if records == [] {
    } else {
      var n := |records| - 1;
      SeenIsBefore(w, records[..n]);
      TextsOfRow(w, records[n]);
      hide TextOf, NumberOf;
      assert forall k :: 0 <= k < n ==> records[..n][k] == records[k];
      assert SeenBefore(w, records[..n], n) == SeenBefore(w, records, n);
      var number := TextOf(w, records[n], InventoryNumber);
      assert SeenBefore(w, records, n + 1)
          == SeenBefore(w, records, n) + (if number == "" then {} else {number});
    }
  }

  /** Each row is answered once, in order: by a valid row, or by an error under its number in the file. */
  lemma {:induction false} EveryRowIsAnswered(w: World, records: seq<Record>, i: nat) returns (valid: nat, wrong: nat)
    requires i < |records|
    ensures var o := Validated(w, records);
            && valid <= |o.valid| && wrong <= |o.errors| && valid + wrong == i
            && if ValidRow(w, SeenBefore(w, records, i), records[i]) then
                 valid < |o.valid| && IsRowOf(w, records[i], o.valid[valid])
               else wrong < |o.errors| && o.errors[wrong].row == i + 1
  {
    hide Judge, ValidRow, IsRowOf, SeenBefore, NumberOf;
    var n := |records| - 1;
    var before := Validated(w, records[..n]);
    if i == n {
      SeenIsBefore(w, records[..n]);
      SameSeen(w, records, n);
      RowsAreJudgedExactly(w, before.seen, records[n]);
      valid, wrong := |before.valid|, |before.errors|;
    } else {
      SameSeen(w, records, i);
      valid, wrong := EveryRowIsAnswered(w, records[..n], i);
      SameSeenEarlier(w, records, n, i);
    }
  }

  lemma SameSeen(w: World, records: seq<Record>, n: nat)
    requires n <= |records|
    ensures SeenBefore(w, records[..n], n) == SeenBefore(w, records, n)
  {
    assert forall k :: 0 <= k < n ==> records[..n][k] == records[k];
    hide TextOf;
  }

  lemma SameSeenEarlier(w: World, records: seq<Record>, n: nat, i: nat)
    requires i <= n <= |records|
    ensures SeenBefore(w, records[..n], i) == SeenBefore(w, records, i)
  {
    assert forall k :: 0 <= k < i ==> records[..n][k] == records[k];
    hide TextOf;
  }

  // ---------------------------------------------------------------- Preview and confirmation

  const PREVIEW_SECONDS := 900

  datatype Confirmation = InvalidPreview | ChangedSincePreview(errors: seq<RowError>) | Created(records: seq<Record>)

  /** `import_preview`: the token, if every row is valid. */
  method Preview(w: World, codec: Tokens.Codec<seq<Record>>, records: seq<Record>, now: int)
    returns (token: Option<string>)
    ensures token == var o := Validated(w, records);
                     if o.valid != [] && o.errors == [] then
                       Some(Tokens.Issue(codec, Tokens.Preview, o.valid, now, 900)) else None
  {
    var valid, errors := ValidateRecords(w, records);
    token := if valid != [] && errors == [] then Some(Tokens.Issue(codec, Tokens.Preview, valid, now, PREVIEW_SECONDS))
      else None;
  }

  function Confirmed(w: World, codec: Tokens.Codec<seq<Record>>, token: string, now: int): Confirmation {
    var records := Tokens.Read(codec, Tokens.Preview, token, now);
    if records.None? then InvalidPreview
    else
      var o := Validated(w, records.value);
      if o.errors != [] || |o.valid| != |records.value| then ChangedSincePreview(o.errors) else Created(o.valid)
  }

  /** `import_confirm`, up to the creation of the machines. */
  method Confirm(w: World, codec: Tokens.Codec<seq<Record>>, token: string, now: int) returns (c: Confirmation)
    ensures c == Confirmed(w, codec, token, now)
  {
    var records := Tokens.Read(codec, Tokens.Preview, token, now);
    if records.None? {
      return InvalidPreview;
    }
    var valid, errors := ValidateRecords(w, records.value);
    if errors != [] || |valid| != |records.value| {
      return ChangedSincePreview(errors);
    }
    return Created(valid);
  }

  /**
   On an unchanged database a preview confirmed in time creates exactly the rows it showed, and later it creates
   nothing.
   */
  lemma ConfirmationCreatesThePreview(w: World, codec: Tokens.Codec<seq<Record>>, records: seq<Record>, issued: int,
                                      now: int)
    requires Sound(w) && Tokens.Faithful(codec)
    ensures var valid := Validated(w, records).valid;
            Confirmed(w, codec, Tokens.Issue(codec, Tokens.Preview, valid, issued, 900), now)
            == if now <= issued + 900 then Created(valid) else InvalidPreview
  {
    var valid := Validated(w, records).valid;
    Tokens.IssuedTokensReadBack(codec, Tokens.Preview, valid, issued, PREVIEW_SECONDS, now);
    ValidationIsIdempotent(w, records);
  }

  /** Whatever changed since the preview, rows are created all or not at all, and only rows that are valid now. */
  lemma NothingInvalidIsCreated(w: World, codec: Tokens.Codec<seq<Record>>, token: string, now: int)
    ensures var outcome := Confirmed(w, codec, token, now);
            && (outcome == InvalidPreview <==> Tokens.Read(codec, Tokens.Preview, token, now) == None)
            && (outcome.Created? <==>
                  exists records :: Tokens.Read(codec, Tokens.Preview, token, now) == Some(records)
                                    && AllValid(w, records))
            && (outcome.Created? ==>
                  var shown := Tokens.Read(codec, Tokens.Preview, token, now).value;
                  |outcome.records| == |shown|
                  && forall i :: 0 <= i < |shown| ==> IsRowOf(w, shown[i], outcome.records[i]))
  {
    var shown := Tokens.Read(codec, Tokens.Preview, token, now);
    if shown.Some? {
      AcceptedWhole(w, shown.value);
    }
    hide AllValid, Validated;
  }

  ghost predicate AllValid(w: World, records: seq<Record>) {
    forall i :: 0 <= i < |records| ==> ValidRow(w, SeenBefore(w, records, i), records[i])
  }

  lemma {:induction false} AcceptedWhole(w: World, records: seq<Record>)
    ensures AllValid(w, records) <==> Validated(w, records).errors == []
    ensures AllValid(w, records) ==>
              |Validated(w, records).valid| == |records|
              && forall i :: 0 <= i < |records| ==> IsRowOf(w, records[i], Validated(w, records).valid[i])
  {
    hide Judge, ValidRow, IsRowOf, SeenBefore, NumberOf, TextOf;
    if records != [] {
      var n := |records| - 1;
      AcceptedWhole(w, records[..n]);
      SeenIsBefore(w, records[..n]);
      SameSeen(w, records, n);
      RowsAreJudgedExactly(w, SeenBefore(w, records, n), records[n]);
      forall i | 0 <= i < n ensures SeenBefore(w, records[..n], i) == SeenBefore(w, records, i) {
        SameSeenEarlier(w, records, n, i);
      }
    }
  }
}
