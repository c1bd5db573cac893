/**
 The bounded, anonymous reader of continuous-integration metadata, against a server that keeps changing.
 Every request is one instant, and the server's answers depend on the instant.
 */
module CiListings {
  import opened Wrappers

  const PAGE_SIZE := 100
  const MAX_ITEMS := 500

  /** The texts that the reader compares with, and every other text. */
  datatype Word =
    | PushEvent            // push
    | MainBranch           // main
    | CheckName            // Build check
    | CheckPath            // .github/workflows/check.yml
    | CheckPathAtMain      // the same path with the suffix @main
    | CheckPathAtRef       // the same path with the suffix @refs/heads/main
    | TrustedRepository    // djebedaq/AssetCore
    | WorkflowUrl(id: int) // https://api.github.com/repos/djebedaq/AssetCore/actions/workflows/<id>
    | Active | Completed | Successful
    | Backend | Frontend | Postgres | Docker
    | Other(text: string)

  /** A field of a decoded JSON object, by its type; truth values are not whole numbers. */
  datatype Value = Missing | Whole(n: int) | Flag(b: bool) | Text(word: Word) | Otherwise

  datatype Repository = Repository(fullName: Value, isPrivate: Value) | NoRepository

  /** The fields read from a run or a job. */
  datatype Row = Row(
    id: Value, runId: Value, runAttempt: Value, runNumber: Value, workflowId: Value, event: Value, headSha: Value,
    headBranch: Value, name: Value, path: Value, repository: Repository, headRepository: Repository,
    status: Value, conclusion: Value)

  /** A list of objects, a list with something else in it, or no list at all. */
  datatype Rows = List(rows: seq<Row>) | Mixed(length: nat) | NotAList

  datatype Page = Page(totalCount: Value, rows: Rows)

  datatype Workflow = Workflow(id: Value, name: Value, path: Value, state: Value, url: Value)

  datatype CiError =
    | TargetInvalid | Transport | MetadataInvalid | MetadataLimit | MetadataChanged | WorkflowMismatch
    | RunIdentityMismatch | RunPending | RunFailed | RunMissing | JobFailed | JobsMissing

  datatype Listing = RunsOf(workflow: int, sha: string) | JobsOf(run: int, attempt: int)

  /** What the server answers at each instant; a failed request, refused redirect or unreadable body is a failure. */
  datatype Server = Server(
    workflow: nat -> Result<Workflow, CiError>,
    run: (nat, int) -> Result<Row, CiError>,
    page: (nat, Listing, nat) -> Result<Page, CiError>)

  function Min(a: int, b: int): int {
    if a < b then a else b
  }

  // ---------------------------------------------------------------- Paginated listings

  function PageOf(rows: seq<Row>, page: nat): seq<Row>
    requires page > 0
  {
    if |rows| <= 100 * (page - 1) then []
    else if |rows| <= 100 * page then rows[100 * (page - 1)..]
    else rows[100 * (page - 1)..100 * page]
  }

  /** The answer says that there are `total` rows and shows `page` of them. */
  ghost predicate Shows(answer: Result<Page, CiError>, total: nat, page: seq<Row>) {
    answer.Success? && answer.value.totalCount == Whole(total) && answer.value.rows == List(page)
  }

  ghost predicate Answers(server: Server, now: nat, what: Listing, total: nat, rows: seq<Row>, page: nat)
    requires page > 0
  {
    Shows(server.page(now + page - 1, what, page), total, PageOf(rows, page))
  }

  /** From `now` to just before `later` the server answers the pages of `rows`; an empty listing still has one page. */
  ghost predicate Lists(server: Server, now: nat, what: Listing, rows: seq<Row>, later: nat) {
    && now < later && |rows| <= 500
    && |rows| <= 100 * (later - now) && (later == now + 1 || 100 * (later - now - 1) < |rows|)
    && AllAnswer(server, now, what, |rows|, rows, later - now)
  }

  ghost predicate AllAnswer(server: Server, now: nat, what: Listing, total: nat, rows: seq<Row>, pages: nat) {
    forall page :: 1 <= page <= pages ==> Answers(server, now, what, total, rows, page)
  }

  /** What the reader accepts as the next page after `have` rows. */
  ghost predicate Fits(answer: Result<Page, CiError>, known: Option<nat>, have: nat, total: nat, page: seq<Row>) {
    && Shows(answer, total, page)
    && total <= MAX_ITEMS && (known == None || known == Some(total)) && |page| == Min(PAGE_SIZE, total - have)
  }

  ghost predicate TooLong(answer: Result<Page, CiError>) {
    answer.Success? && answer.value.totalCount.Whole? && answer.value.totalCount.n > 500
  }

  ghost predicate TooLongAt(server: Server, now: nat, what: Listing, page: nat)
    requires page > 0
  {
    TooLong(server.page(now + page - 1, what, page))
  }

  /** The checks on one page. */
  method ReadPage(answer: Result<Page, CiError>, known: Option<nat>, have: nat)
    returns (result: Result<seq<Row>, CiError>, total: nat)
    ensures result.Success? ==> Fits(answer, known, have, total, result.value)
    ensures forall n, page :: Fits(answer, known, have, n, page) ==> result == Success(page) && total == n
    ensures result == Failure(MetadataLimit) ==> TooLong(answer)
  {
    total := 0;
    if answer.Failure? {
      return Failure(Transport), total;
    }
    var count, rows := answer.value.totalCount, answer.value.rows;
    if !count.Whole? || count.n < 0 || rows.NotAList? {
      return Failure(MetadataInvalid), total;
    }
    if count.n > MAX_ITEMS {
      return Failure(MetadataLimit), total;
    }
    if known.Some? && count.n != known.value {
      return Failure(MetadataChanged), total;
    }
    total := count.n;
    var length := if rows.List? then |rows.rows| else rows.length;
    if length != Min(PAGE_SIZE, total - have) {
      return Failure(MetadataInvalid), total;
    }
    if rows.Mixed? {
      return Failure(MetadataInvalid), total;
    }
    return Success(rows.rows), total;
  }

  ghost predicate Prefix(items: seq<Row>, rows: seq<Row>, total: nat) {
    |rows| == total && items <= rows
  }

  lemma NextPageFits(server: Server, now: nat, what: Listing, rows: seq<Row>, known: Option<nat>, have: nat,
                     page: nat, later: nat)
    requires Lists(server, now, what, rows, later) && page > 0 && have == 100 * (page - 1)
    requires page > 1 ==> known == Some(|rows|) && have < |rows|
    requires page == 1 ==> known == None
    ensures Fits(server.page(now + page - 1, what, page), known, have, |rows|, PageOf(rows, page))
  {
    assert page <= later - now;
    assert Answers(server, now, what, |rows|, rows, page);
  }

  lemma PagesGrow(items: seq<Row>, next: seq<Row>, page: nat, p: nat)
    requires 1 <= p <= page && |items| == 100 * (page - 1) && |next| <= 100
    ensures PageOf(items + next, p) == if p < page then PageOf(items, p) else next
  {
    if p < page {
      assert 100 * p <= |items|;
      assert (items + next)[..|items|] == items;
      assert (items + next)[100 * (p - 1)..100 * p] == (items + next)[..|items|][100 * (p - 1)..100 * p];
    }
  }

  lemma ListingGrows(server: Server, now: nat, what: Listing, total: nat, items: seq<Row>, next: seq<Row>, page: nat)
    requires page > 0 && |items| == 100 * (page - 1) && |next| <= 100
    requires page > 1 ==> AllAnswer(server, now, what, total, items, page - 1)
    requires Shows(server.page(now + page - 1, what, page), total, next)
    ensures AllAnswer(server, now, what, total, items + next, page)
  {
    forall p | 1 <= p <= page
      ensures Answers(server, now, what, total, items + next, p)
    {
      PagesGrow(items, next, page, p);
      assert p < page ==> Answers(server, now, what, total, items, p);
    }
  }

  lemma PrefixGrows(server: Server, now: nat, what: Listing, items: seq<Row>, next: seq<Row>, whole: seq<Row>,
                    page: nat)
    requires page > 0 && |items| == 100 * (page - 1) && items <= whole && PageOf(whole, page) == next
    ensures items + next <= whole
    ensures |items + next| == |whole| ==> items + next == whole
  {
  }

  /** After `pages` pages: what was read, and that every listing must begin with it. */
  ghost predicate Progress(server: Server, now: nat, what: Listing, items: seq<Row>, known: Option<nat>, pages: nat) {
    && |items| == 100 * pages && (known.None? <==> pages == 0)
    && (pages > 0 ==>
          && |items| < known.value <= MAX_ITEMS && AllAnswer(server, now, what, known.value, items, pages)
          && forall rows, later :: Lists(server, now, what, rows, later) ==> Prefix(items, rows, known.value))
  }

  lemma MustContinueWith(server: Server, now: nat, what: Listing, items: seq<Row>, known: Option<nat>, page: nat,
                         next: seq<Row>, total: nat, rows: seq<Row>, later: nat)
    requires page > 0 && Progress(server, now, what, items, known, page - 1) && Lists(server, now, what, rows, later)
    requires Fits(server.page(now + page - 1, what, page), known, |items|, total, next)
    ensures Prefix(items + next, rows, total)
  {
    NextPageFits(server, now, what, rows, known, |items|, page, later);
    PrefixGrows(server, now, what, items, next, rows, page);
  }

  /** One turn of the loop of `_items`. */
  method ReadNext(server: Server, now: nat, what: Listing, items: seq<Row>, known: Option<nat>, page: nat)
    returns (result: Result<seq<Row>, CiError>, total: nat)
    requires page > 0 && Progress(server, now, what, items, known, page - 1)
    ensures result.Failure? ==> forall rows, later :: !Lists(server, now, what, rows, later)
    ensures result == Failure(MetadataLimit) ==> TooLongAt(server, now, what, page)
    ensures result.Success? && |result.value| == total ==>
      && Lists(server, now, what, result.value, now + page)
      && forall rows, later :: Lists(server, now, what, rows, later) ==> rows == result.value && later == now + page
    ensures result.Success? && |result.value| != total ==> Progress(server, now, what, result.value, Some(total), page)
  {
    var answer := server.page(now + page - 1, what, page);
    var next, n := ReadPage(answer, known, |items|);
    total := n;
    if next.Failure? {
      forall rows, later
        ensures !Lists(server, now, what, rows, later)
      {
        if Lists(server, now, what, rows, later) {
          NextPageFits(server, now, what, rows, known, |items|, page, later);
        }
      }
      return Failure(next.error), total;
    }
    var longer := items + next.value;
    ListingGrows(server, now, what, total, items, next.value, page);
    forall rows, later | Lists(server, now, what, rows, later)
      ensures Prefix(longer, rows, total)
    {
      MustContinueWith(server, now, what, items, known, page, next.value, total, rows, later);
    }
    return Success(longer), total;
  }

  /**
   `_items`: every listing of at most 500 rows is returned whole, nothing else is, and the last branch is never taken.
   */
  method ReadItems(server: Server, now: nat, what: Listing) returns (result: Result<seq<Row>, CiError>, later: nat)
    ensures now < later
    ensures result.Success? ==> Lists(server, now, what, result.value, later)
    ensures forall rows, end :: Lists(server, now, what, rows, end) ==> result == Success(rows) && later == end
    ensures result == Failure(MetadataLimit) ==>
      exists page :: 1 <= page <= later - now && TooLongAt(server, now, what, page)
  {
    var items: seq<Row> := [];
    var known: Option<nat> := None;
    later := now;
    for page := 1 to 6
      invariant later == now + page - 1
      invariant Progress(server, now, what, items, known, page - 1)
    {
      var longer, total := ReadNext(server, now, what, items, known, page);
      later := later + 1;
      if longer.Failure? {
        return Failure(longer.error), later;
      }
      items, known := longer.value, Some(total);
      if |items| == total {
        return Success(items), later;
      }
    }
    return Failure(MetadataLimit), later;
  }
}
