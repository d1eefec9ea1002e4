/** The script's global state and `steprunner`: a timer tick runs the next
    entry of `steps` only while no page load is in progress and no fetch is in
    flight. Browser work (opening pages, filling the login form, the captcha
    prompt, reading the anti-forgery token) changes none of the state modelled
    here; its effects arrive as the load and callback events below. */
module Scheduler {
  import opened Wrappers
  import opened Books
  import opened Plan
  import opened Args
  import opened Fetch
  import Csv

  /** `steps[0]` .. `steps[5]`. */
  const StepCount: nat := 6
  /** `steps[4]` starts the fetch, `steps[5]` exits. */
  const FetchStep: nat := 4
  const ExitStep: nat := 5

  class Runner {
    const config: Config
    var stepIndex: nat
    var loadInProgress: bool
    var multiLoad: bool
    /** `phantom.exit()` has been called. */
    var exited: bool
    /** The arguments of the `getbookbatch` call whose response is awaited. */
    var batch: Option<Batch>
    /** What was written to `booklist.txt` and `booklist.csv`. */
    var txtOutput: Option<seq<Book>>
    var csvOutput: Option<string>
    /** Every request sent to the ownership endpoint so far. */
    ghost var requests: seq<Request>

    ghost predicate Valid()
      reads this
    {
      stepIndex <= StepCount &&
      (stepIndex == StepCount ==> exited) &&
      (multiLoad <==> batch.Some?) &&
      (batch.Some? ==>
         stepIndex == ExitStep && |batch.value.plan| > 0 && batch.value.bsize == BatchSize &&
         batch.value.start < Ceiling && |requests| > 0 && requests[|requests| - 1] == RequestOf(batch.value)) &&
      (stepIndex <= FetchStep ==> requests == [] && !multiLoad && txtOutput.None?) &&
      (stepIndex > FetchStep && !multiLoad <==> txtOutput.Some?) &&
      (txtOutput.Some? <==> csvOutput.Some?) &&
      (txtOutput.Some? ==> NoDupKeys(txtOutput.value) && csvOutput.value == Csv.CsvText(txtOutput.value)) &&
      (forall r :: r in requests ==> r.start < Ceiling && r.batchSize == BatchSize)
    }

    /** The state after argument checking: no step run, both flags clear. */
    constructor (config: Config)
      ensures Valid() && this.config == config
      ensures stepIndex == 0 && !loadInProgress && !multiLoad && !exited
      ensures batch.None? && txtOutput.None? && csvOutput.None? && requests == []
    {
      this.config := config;
      stepIndex, loadInProgress, multiLoad, exited := 0, false, false, false;
      batch, txtOutput, csvOutput := None, None, None;
      requests := [];
    }

    /** `page.onLoadStarted`. */
    method OnLoadStarted()
      requires Valid() && !exited
      modifies this
      ensures Valid() && loadInProgress
      ensures stepIndex == old(stepIndex) && multiLoad == old(multiLoad) && exited == old(exited)
      ensures batch == old(batch) && txtOutput == old(txtOutput) && csvOutput == old(csvOutput)
      ensures requests == old(requests)
    {
      loadInProgress := true;
    }

    /** `page.onLoadFinished`. */
    method OnLoadFinished()
      requires Valid() && !exited
      modifies this
      ensures Valid() && !loadInProgress
      ensures stepIndex == old(stepIndex) && multiLoad == old(multiLoad) && exited == old(exited)
      ensures batch == old(batch) && txtOutput == old(txtOutput) && csvOutput == old(csvOutput)
      ensures requests == old(requests)
    {
      loadInProgress := false;
    }

    /** The `page.open` callbacks of steps 0 and 3 with a status other than
        success: the run ends, nothing is written. */
    method OnNavigationFailed()
      requires Valid() && !exited
      modifies this
      ensures Valid() && exited
      ensures stepIndex == old(stepIndex) && multiLoad == old(multiLoad) && loadInProgress == old(loadInProgress)
      ensures batch == old(batch) && txtOutput == old(txtOutput) && csvOutput == old(csvOutput)
      ensures requests == old(requests)
    {
      exited := true;
    }

    /** `steprunner`: with both flags clear, run `steps[stepIndex]` and move
        to the next step; otherwise change nothing. Step 4 selects the plan
        and sends the first request with `multiLoad` raised; step 5 exits. */
    method Tick()
      requires Valid() && !exited
      modifies this
      ensures Valid()
      ensures old(loadInProgress) || old(multiLoad) ==> unchanged(this)
      ensures !old(loadInProgress) && !old(multiLoad) ==>
                stepIndex == old(stepIndex) + 1 && loadInProgress == old(loadInProgress) &&
                txtOutput == old(txtOutput) && csvOutput == old(csvOutput) &&
                (old(stepIndex) < FetchStep ==>
                   !multiLoad && !exited && batch == old(batch) && requests == old(requests)) &&
                (old(stepIndex) == FetchStep ==>
                   var b := Batch(0, BatchSize, [], FetchPlan(config.latest));
                   multiLoad && !exited && batch == Some(b) && requests == old(requests) + [RequestOf(b)]) &&
                (old(stepIndex) == ExitStep ==>
                   exited && multiLoad == old(multiLoad) && batch == old(batch) && requests == old(requests))
    {
      if !loadInProgress && !multiLoad {
        if stepIndex == FetchStep {
          StartFetch();
        } else if stepIndex == ExitStep {
          exited := true;
        }
        stepIndex := stepIndex + 1;
      }
    }

    /** Step 4: batch size 50, the plan for `-latest` or the full plan, and the
        first `getbookbatch` call, which raises `multiLoad` and sends a
        request. */
    method StartFetch()
      requires Valid() && !exited && stepIndex == FetchStep && !loadInProgress && !multiLoad
      modifies this
      ensures var b := Batch(0, BatchSize, [], FetchPlan(config.latest));
              multiLoad && batch == Some(b) && requests == old(requests) + [RequestOf(b)]
      ensures stepIndex == old(stepIndex) && loadInProgress == old(loadInProgress) && exited == old(exited)
      ensures txtOutput == old(txtOutput) && csvOutput == old(csvOutput)
    {
      var bs := BatchSize;
      var methods := FetchPlan(config.latest);
      var b := Batch(0, bs, [], methods);
      multiLoad := true;
      batch := Some(b);
      requests := requests + [RequestOf(b)];
    }

    /** The response callback of `getbookbatch`: on a failure the run ends
        with nothing written and `multiLoad` still raised; on success the
        page is appended and either the next request goes out or, after the
        last order, the deduplicated list is written and `multiLoad`
        cleared. */
    method OnBatchResponse(resp: Response)
      requires Valid() && !exited && batch.Some?
      modifies this
      ensures Valid()
      ensures stepIndex == old(stepIndex) && loadInProgress == old(loadInProgress)
      ensures match Advance(old(batch).value, resp)
              case Failed(_) =>
                exited && multiLoad && batch == old(batch) && requests == old(requests) &&
                txtOutput.None? && csvOutput.None?
              case Continue(next) =>
                !exited && multiLoad && batch == Some(next) && requests == old(requests) + [RequestOf(next)] &&
                txtOutput.None? && csvOutput.None?
              case Finished(books) =>
                !exited && !multiLoad && batch.None? && requests == old(requests) &&
                txtOutput == Some(books) && csvOutput == Some(Csv.CsvText(books))
    {
      match Advance(batch.value, resp)
      case Failed(_) =>
        exited := true;
      case Continue(next) =>
        batch := Some(next);
        requests := requests + [RequestOf(next)];
      case Finished(books) =>
        txtOutput := Some(books);
        var out := Csv.WriteCsv(books);
        csvOutput := Some(out);
        batch := None;
        multiLoad := false;
    }
  }
}

/** A `-latest` run against an endpoint whose first page is also its last:
    steps 0-3 pass, step 4 sends one request, ticks do nothing while the
    fetch is in flight, the callback writes the deduplicated page, and step 5
    exits. */
module SchedulerScenario {
  import opened Wrappers
  import opened Books
  import opened Plan
  import opened Args
  import opened Fetch
  import opened Scheduler

  method LatestRunScenario(items: seq<Book>)
  {
    var r := new Runner(Config("user@example.com", "secret", true));
    r.Tick(); r.Tick(); r.Tick(); r.Tick();
    assert r.stepIndex == FetchStep && !r.multiLoad;
    r.Tick();
    assert r.multiLoad && r.batch == Some(Batch(0, 50, [], [SortOrder(Descending, Date)]));
    r.Tick();
    assert r.stepIndex == ExitStep && r.multiLoad;
    r.OnBatchResponse(Reply(true, items, false));
    assert !r.multiLoad && r.txtOutput == Some(Dedup([] + items));
    r.Tick();
    assert r.exited && r.stepIndex == StepCount;
  }
}
