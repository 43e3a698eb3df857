/** `parse_api` and `main`: one job per product link (two dependent fetches, then the
    flattening), and the coordinator that gathers the jobs' results in task order and
    concatenates the rows of the truthy ones. */
module Pipeline {
  import opened Values
  import opened Retrying
  import opened Photos
  import opened Product
  import opened Variants

  /** The decoded product response: an empty JSON object (falsy) or a product. */
  datatype ProductBody = EmptyObject | Detail(product: ProductDetail)

  /** What the network does for one job: the outcome of each attempt of the product
      request and of each attempt of the prices request (whose query is the product id). */
  datatype Job = Job(
    productAttempts: nat -> Attempt<ProductBody>,
    priceAttempts: nat -> Attempt<seq<PriceEntry>>)

  /** What one `parse_api` call ends with: `None`, a list of rows, or an exception. */
  type JobResult = Outcome<Option<seq<Variant>>>

  /** Python truth of the fetched product: neither `None` nor `{}`. */
  predicate ProductFound(body: Option<ProductBody>) {
    body.Some? && body.value.Detail?
  }

  /** Python truth of the fetched price list: neither `None` nor `[]`. */
  predicate PricesFound(body: Option<seq<PriceEntry>>) {
    body.Some? && body.value != []
  }

  /** Reference definition of `parse_api`. */
  function JobOutcome(job: Job): JobResult {
    var product := Retry(job.productAttempts, RETRIES).body;
    if !ProductFound(product) then Value(None)
    else
      var prices := Retry(job.priceAttempts, RETRIES).body;
      if !PricesFound(prices) then Value(Some([]))
      else match BaseOf(product.value.product)
        case Raised(e) => Raised(e)
        case Value(base) => Value(Some(Flatten(base, prices.value)))
  }

  /** `parse_api`: a falsy product returns `None` before the prices are asked for; a
      falsy price list returns an empty list; otherwise the base record is built (which
      may raise) and the price list is flattened. */
  method ParseApi(job: Job) returns (r: JobResult)
    ensures r == JobOutcome(job)
    ensures !ProductFound(Retry(job.productAttempts, RETRIES).body) ==> r == Value(None)
    ensures (ProductFound(Retry(job.productAttempts, RETRIES).body)
             && !PricesFound(Retry(job.priceAttempts, RETRIES).body)) ==> r == Value(Some([]))
  {
    var product, _ := FetchWithRetry(job.productAttempts, RETRIES);
    if !ProductFound(product) {
      return Value(None);
    }
    var p := product.value.product;
    var prices, _ := FetchWithRetry(job.priceAttempts, RETRIES);
    var rows := [];
    if PricesFound(prices) {
      var photo := GetPhoto(p.pictures, PHOTO_INDEX);
      if photo.Raised? {
        return Raised(photo.error);
      }
      var base := BaseRecordOf(p, photo.value);
      rows := FlattenPrices(base, prices.value);
    }
    return Value(Some(rows));
  }

  /** A job whose product request times out on every attempt returns `None`. */
  lemma JobSkippedOnTimeouts(job: Job)
    requires TimedOutBefore(job.productAttempts, 0, RETRIES)
    ensures JobOutcome(job) == Value(None)
  {
    RetryAllTimeouts(job.productAttempts, RETRIES);
  }

  /** A job whose product is found but whose price request is rejected, possibly after
      some timeouts, returns an empty list. */
  lemma JobEmptyOnRejectedPrices(job: Job, k: nat)
    requires ProductFound(Retry(job.productAttempts, RETRIES).body)
    requires k < RETRIES && TimedOutBefore(job.priceAttempts, 0, k)
    requires job.priceAttempts(k).Response? && job.priceAttempts(k).status != OK
    ensures JobOutcome(job) == Value(Some([]))
  {
    RetryStopsOnRejection(job.priceAttempts, RETRIES, k);
  }

  /** `asyncio.gather`: the results in task order, or the exception of a task that
      raised. */
  function Gather(outs: seq<JobResult>): Outcome<seq<Option<seq<Variant>>>> {
    if outs == [] then Value([])
    else match outs[0]
      case Raised(e) => Raised(e)
      case Value(v) =>
        match Gather(outs[1..])
        case Raised(e) => Raised(e)
        case Value(vs) => Value([v] + vs)
  }

  /** Gathering raises exactly when some task raised; otherwise it gives each task's
      value at the task's own position. */
  lemma {:induction false} GatherShape(outs: seq<JobResult>)
    ensures Gather(outs).Raised? <==> exists j :: 0 <= j < |outs| && outs[j].Raised?
    ensures Gather(outs).Value? ==>
      |Gather(outs).value| == |outs|
      && forall j :: 0 <= j < |outs| ==> outs[j] == Value(Gather(outs).value[j])
  {
    if outs != [] {
      GatherShape(outs[1..]);
      assert forall j :: 1 <= j < |outs| ==> outs[j] == outs[1..][j - 1];
    }
  }

  /** The rows of the gathered results, in order, skipping the falsy ones (`None` and
      the empty list). */
  function Concat<T>(results: seq<Option<seq<T>>>): seq<T> {
    if results == [] then []
    else
      var last := results[|results| - 1];
      Concat(results[..|results| - 1]) + (if last.Some? && last.value != [] then last.value else [])
  }

  /** The rows a single result contributes. */
  function RowsOf<T>(result: Option<seq<T>>): seq<T> {
    if result.Some? then result.value else []
  }

  /** The loop of `main`: `all_results.extend(res)` for every truthy result. */
  method Collect(results: seq<Option<seq<Variant>>>) returns (all: seq<Variant>)
    ensures all == Concat(results)
  {
    all := [];
    for i := 0 to |results|
      invariant all == Concat(results[..i])
    {
      var res := results[i];
      assert results[..i + 1][..i] == results[..i];
      if res.Some? && res.value != [] {
        all := all + res.value;
      }
    }
    assert results[..|results|] == results;
  }

  /** Concatenating two runs of results concatenates their rows. */
  lemma {:induction false} ConcatAppend<T>(a: seq<Option<seq<T>>>, b: seq<Option<seq<T>>>)
    ensures Concat(a + b) == Concat(a) + Concat(b)
    decreases |b|
  {
    if b != [] {
      var init, last := b[..|b| - 1], b[|b| - 1];
      ConcatAppend(a, init);
      var t := a + b;
      assert t != [] && t[..|t| - 1] == a + init && t[|t| - 1] == last;
      assert Concat(t) == Concat(a + init) + RowsOf(last) by {
        if last.Some? && last.value == [] {
          assert Concat(a + init) + [] == Concat(a + init);
        }
      }
      assert Concat(b) == Concat(init) + RowsOf(last) by {
        if last.Some? && last.value == [] {
          assert Concat(init) + [] == Concat(init);
        }
      }
    } else {
      assert a + b == a;
    }
  }

  /** The rows of a result sit between those of the results before it and those of
      the results after it: the output is the in-order concatenation. */
  lemma ConcatAround<T>(before: seq<Option<seq<T>>>, x: Option<seq<T>>, after: seq<Option<seq<T>>>)
    ensures Concat(before + [x] + after) == Concat(before) + RowsOf(x) + Concat(after)
  {
    ConcatAppend(before + [x], after);
    ConcatAppend(before, [x]);
    ConcatSingle(x);
  }

  lemma ConcatSingle<T>(result: Option<seq<T>>)
    ensures Concat([result]) == RowsOf(result)
  {
    assert [result][..0] == [];
  }

  /** A row is in the output exactly when some result holds it. */
  lemma {:induction false} ConcatMembership<T>(results: seq<Option<seq<T>>>, x: T)
    ensures x in Concat(results) <==> exists j :: 0 <= j < |results| && x in RowsOf(results[j])
  {
    if results != [] {
      var init := results[..|results| - 1];
      ConcatMembership(init, x);
      assert forall j :: 0 <= j < |init| ==> init[j] == results[j];
    }
  }

  /** The results of the jobs, in task order. */
  function Outcomes(jobs: seq<Job>): (outs: seq<JobResult>)
    ensures |outs| == |jobs|
  {
    seq(|jobs|, j requires 0 <= j < |jobs| => JobOutcome(jobs[j]))
  }

  /** What the gathered task results come to: the exception that aborts the run, or
      the rows of the truthy results in task order. */
  function Finish(outs: seq<JobResult>): Outcome<seq<Variant>> {
    match Gather(outs)
    case Raised(e) => Raised(e)
    case Value(results) => Value(Concat(results))
  }

  /** Reference definition of `main` without its file input and output. */
  function MainResult(jobs: seq<Job>): Outcome<seq<Variant>> {
    Finish(Outcomes(jobs))
  }

  /** `main`: one `parse_api` task per link, gathered in task order, then the rows of
      the truthy results collected. */
  method Run(jobs: seq<Job>) returns (r: Outcome<seq<Variant>>)
    ensures r == MainResult(jobs)
  {
    var outs: seq<JobResult> := [];
    for i := 0 to |jobs|
      invariant outs == Outcomes(jobs[..i])
    {
      var o := ParseApi(jobs[i]);
      outs := outs + [o];
    }
    assert jobs[..|jobs|] == jobs;
    match Gather(outs)
    case Raised(e) =>
      return Raised(e);
    case Value(results) =>
      var all := Collect(results);
      return Value(all);
  }

  /** A first task that returns puts its rows before those of the other tasks. */
  lemma FinishCons(v: Option<seq<Variant>>, outs: seq<JobResult>)
    ensures Finish([Value(v)] + outs) == match Finish(outs)
                                        case Raised(e) => Raised(e)
                                        case Value(rows) => Value(RowsOf(v) + rows)
  {
    assert ([Value(v)] + outs)[1..] == outs;
    if Gather(outs).Value? {
      ConcatAppend([v], Gather(outs).value);
      ConcatSingle(v);
    }
  }

  /** Removing a task that returned `None` or an empty list changes nothing. */
  lemma {:induction false} FinishDropsEmpty(outs: seq<JobResult>, j: nat)
    requires j < |outs| && (outs[j] == Value(None) || outs[j] == Value(Some([])))
    ensures Finish(outs) == Finish(outs[..j] + outs[j + 1..])
  {
    var rest := outs[..j] + outs[j + 1..];
    if j == 0 {
      assert rest == outs[1..] && outs == [outs[0]] + rest;
      FinishCons(outs[0].value, rest);
      assert RowsOf(outs[0].value) == [];
      if Finish(rest).Value? {
        assert [] + Finish(rest).value == Finish(rest).value;
      }
    } else {
      var tail := outs[1..];
      FinishDropsEmpty(tail, j - 1);
      assert rest == [outs[0]] + (tail[..j - 1] + tail[j..]);
      assert outs == [outs[0]] + tail;
      if outs[0].Value? {
        FinishCons(outs[0].value, tail);
        FinishCons(outs[0].value, tail[..j - 1] + tail[j..]);
      }
    }
  }

  /** A job that returns `None` or an empty list leaves the run's result as if the job
      had not been launched. */
  lemma JobWithoutRowsContributesNothing(jobs: seq<Job>, j: nat)
    requires j < |jobs|
    requires JobOutcome(jobs[j]) == Value(None) || JobOutcome(jobs[j]) == Value(Some([]))
    ensures MainResult(jobs) == MainResult(jobs[..j] + jobs[j + 1..])
  {
    var outs := Outcomes(jobs);
    FinishDropsEmpty(outs, j);
    assert Outcomes(jobs[..j] + jobs[j + 1..]) == outs[..j] + outs[j + 1..];
  }

  /** In particular, a job whose product request times out on every attempt adds no
      rows to the run. */
  lemma TimedOutJobContributesNothing(jobs: seq<Job>, j: nat)
    requires j < |jobs| && TimedOutBefore(jobs[j].productAttempts, 0, RETRIES)
    ensures MainResult(jobs) == MainResult(jobs[..j] + jobs[j + 1..])
  {
    JobSkippedOnTimeouts(jobs[j]);
    JobWithoutRowsContributesNothing(jobs, j);
  }

  /** Three price entries over two sizes give two rows: one for the first entry and one
      for the second; the third repeats the first size and is skipped. */
  lemma ThreeEntriesTwoSizes(base: BaseRecord, a: PriceEntry, b: PriceEntry, c: PriceEntry)
    requires a.size != b.size && c.size == a.size
    ensures Flatten(base, [a, b, c]) == [MakeVariant(base, 0, a), MakeVariant(base, 1, b)]
  {
    assert Flatten(base, []) == [];
    FlattenAppend(base, [], a);
    assert [] + [a] == [a];
    FlattenAppend(base, [a], b);
    assert [a] + [b] == [a, b];
    SizesAppend([], a);
    assert Sizes([]) == {};
    FlattenAppend(base, [a, b], c);
    assert [a, b] + [c] == [a, b, c];
    SizesAppend([a], b);
  }

  /** A job whose product and price list both come back on the first attempt, with a
      product whose photo column can be built, returns the flattened price list. */
  lemma FoundJobRows(job: Job, p: ProductDetail, prices: seq<PriceEntry>)
    requires job.productAttempts(0) == Response(OK, Detail(p))
    requires job.priceAttempts(0) == Response(OK, prices) && prices != []
    requires p.pictures == [] || |p.pictures| >= 3
    ensures BaseOf(p).Value?
    ensures JobOutcome(job) == Value(Some(Flatten(BaseOf(p).value, prices)))
  {
    RetryReturnsFirstOk(job.productAttempts, RETRIES, 0);
    RetryReturnsFirstOk(job.priceAttempts, RETRIES, 0);
  }

  /** Two links: the first product is found at once and its price list has three
      entries over two sizes; every product request of the second times out. The run
      yields two rows, both of the first product, the first with the product SKU. */
  lemma TwoLinkRun(found: Job, lost: Job, p: ProductDetail, a: PriceEntry, b: PriceEntry, c: PriceEntry)
    requires found.productAttempts(0) == Response(OK, Detail(p))
    requires found.priceAttempts(0) == Response(OK, [a, b, c])
    requires TimedOutBefore(lost.productAttempts, 0, RETRIES)
    requires p.pictures == [] || |p.pictures| >= 3
    requires a.size != b.size && c.size == a.size
    ensures var r := MainResult([found, lost]);
      && r.Value? && |r.value| == 2
      && r.value[0].sku == p.sku && r.value[0].size == a.size && r.value[1].size == b.size
      && forall k :: 0 <= k < 2 ==> r.value[k].base.parentSku == p.sku
  {
    FoundJobRows(found, p, [a, b, c]);
    JobSkippedOnTimeouts(lost);
    var base := BaseOf(p).value;
    var rows := Flatten(base, [a, b, c]);
    ThreeEntriesTwoSizes(base, a, b, c);
    var none: JobResult := Value(None);
    var outs := [Value(Some(rows)), none];
    assert Outcomes([found, lost]) == outs;
    FinishCons(Some(rows), [none]);
    FinishCons(None, []);
    assert [Value(Some(rows))] + [none] == outs;
    assert [none] + [] == [none];
    assert rows + ([] + []) == rows;
  }

  /** `parse_api` with the fetch as written, where a timeout is not caught: a timeout on
      the first product attempt, or on the first price attempt of a found product, makes
      the job raise; otherwise the job ends as the reference definition says. */
  function JobOutcomeAsWritten(job: Job): (r: JobResult)
    ensures job.productAttempts(0).Timeout? ==> r == Raised(ClientTimeout)
    ensures r.Raised? <==> job.productAttempts(0).Timeout?
                           || (ProductFound(Retry(job.productAttempts, RETRIES).body)
                               && job.priceAttempts(0).Timeout?)
                           || JobOutcome(job).Raised?
    ensures r != JobOutcome(job) ==> r == Raised(ClientTimeout)
  {
    match RetryAsWritten(job.productAttempts, RETRIES)
    case Raised(e) => Raised(e)
    case Value(product) =>
      if !ProductFound(product.body) then Value(None)
      else match RetryAsWritten(job.priceAttempts, RETRIES)
        case Raised(e) => Raised(e)
        case Value(_) => JobOutcome(job)
  }

  /** `main` with the fetch as written. */
  function MainResultAsWritten(jobs: seq<Job>): Outcome<seq<Variant>> {
    Finish(seq(|jobs|, j requires 0 <= j < |jobs| => JobOutcomeAsWritten(jobs[j])))
  }

  /** The run of `TwoLinkRun` with the fetch as written: the second link's first
      timeout is not caught, `gather` re-raises it and the run ends without rows, where
      the intended fetch yields the first product's two rows. */
  lemma TwoLinkRunAsWritten(found: Job, lost: Job, p: ProductDetail, a: PriceEntry, b: PriceEntry, c: PriceEntry)
    requires found.productAttempts(0) == Response(OK, Detail(p))
    requires found.priceAttempts(0) == Response(OK, [a, b, c])
    requires TimedOutBefore(lost.productAttempts, 0, RETRIES)
    requires p.pictures == [] || |p.pictures| >= 3
    requires a.size != b.size && c.size == a.size
    ensures MainResult([found, lost]).Value? && |MainResult([found, lost]).value| == 2
    ensures MainResultAsWritten([found, lost]) == Raised(ClientTimeout)
  {
    TwoLinkRun(found, lost, p, a, b, c);
    FoundJobRows(found, p, [a, b, c]);
    assert lost.productAttempts(0).Timeout?;
    var outs := seq(2, j requires 0 <= j < 2 => JobOutcomeAsWritten([found, lost][j]));
    assert outs[0] == JobOutcome(found) && outs[0].Value?;
    assert outs[1] == Raised(ClientTimeout);
    assert MainResultAsWritten([found, lost]) == Finish(outs);
    var rest := outs[1..];
    assert rest == [Raised(ClientTimeout)] && rest[0].Raised?;
    assert Gather(rest) == Raised(ClientTimeout);
    assert Gather(outs) == Raised(ClientTimeout);
  }
}
