/** `getbookbatch` of amazon.js: pages through one sort order after another
    against the ownership endpoint, appending every page, deduplicating the
    accumulator whenever an order is finished. The endpoint is a function
    from request to already-parsed response; the HTTP exchange, its JSON
    body and the anti-forgery token are not part of this model. */
module Fetch {
  import opened Books
  import opened Plan

  /** The varying part of a request body: `sortOrder`/`sortIndex`,
      `startIndex` and `batchSize`. */
  datatype Request = Request(order: SortOrder, start: nat, batchSize: nat)

  /** `LoadFailed`: the page load reported a status other than success.
      `Reply`: the parsed `OwnershipData`; `success` is false whenever the
      flag is missing or not exactly `true`. */
  datatype Response = LoadFailed | Reply(success: bool, items: seq<Book>, hasMoreItems: bool)

  datatype Failure = LoadFailure | EndpointFailure

  datatype Outcome = Done(books: seq<Book>) | Aborted(failure: Failure)

  /** The requests issued, in order, and how the run ended. */
  datatype Trace = Trace(requests: seq<Request>, outcome: Outcome)

  type Endpoint = Request -> Response

  predicate Succeeded(r: Response)
  {
    r.Reply? && r.success
  }

  predicate HasMore(r: Response)
  {
    r.Reply? && r.hasMoreItems
  }

  function FailureOf(r: Response): Failure
  {
    if r.LoadFailed? then LoadFailure else EndpointFailure
  }

  /** The items a response contributes (none unless it is a reply). */
  function ItemsOf(r: Response): seq<Book>
  {
    if r.Reply? then r.items else []
  }

  /** Every page's items, concatenated in request order. */
  function PageItems(e: Endpoint, reqs: seq<Request>): seq<Book>
  {
    if reqs == [] then [] else ItemsOf(e(reqs[0])) + PageItems(e, reqs[1..])
  }

  // ---- The specification: one order at a time ----

  /** Paginating one sort order from `start`: request a page; stop on a
      failure; ask for the next page only if the endpoint says there are more
      AND the next offset stays below the ceiling. */
  function FetchOrder(e: Endpoint, order: SortOrder, start: nat, bsize: nat): (t: Trace)
    requires bsize > 0
    ensures |t.requests| >= 1 && t.requests[0] == Request(order, start, bsize)
    decreases Ceiling - start
  {
    var req := Request(order, start, bsize);
    var resp := e(req);
    if !Succeeded(resp) then Trace([req], Aborted(FailureOf(resp)))
    else if resp.hasMoreItems && start + bsize < Ceiling then
      var rest := FetchOrder(e, order, start + bsize, bsize);
      Trace([req] + rest.requests,
            if rest.outcome.Done? then Done(resp.items + rest.outcome.books) else rest.outcome)
    else Trace([req], Done(resp.items))
  }

  /** Running the plan: each order's items are appended to the accumulator,
      which is then deduplicated; a failure ends the run. */
  function MergeOrders(e: Endpoint, plan: seq<SortOrder>, bsize: nat, acc: seq<Book>): Trace
    requires bsize > 0
    decreases |plan|
  {
    if plan == [] then Trace([], Done(acc))
    else
      var t := FetchOrder(e, plan[0], 0, bsize);
      match t.outcome
      case Aborted(_) => t
      case Done(items) =>
        var rest := MergeOrders(e, plan[1..], bsize, Dedup(acc + items));
        Trace(t.requests + rest.requests, rest.outcome)
  }

  /** A whole fetch, as step 4 starts it: empty accumulator, offset 0. */
  function Run(e: Endpoint, plan: seq<SortOrder>, bsize: nat): Trace
    requires bsize > 0
  {
    MergeOrders(e, plan, bsize, [])
  }

  // ---- One callback of the recursion ----

  /** The arguments of one `getbookbatch` call. */
  datatype Batch = Batch(start: nat, bsize: nat, books: seq<Book>, plan: seq<SortOrder>)

  function RequestOf(b: Batch): Request
    requires |b.plan| > 0
  {
    Request(b.plan[0], b.start, b.bsize)
  }

  /** What the response callback does next: call `getbookbatch` again with
      new arguments, write the final list, or exit. */
  datatype Next = Continue(batch: Batch) | Finished(books: seq<Book>) | Failed(failure: Failure)

  /** One response callback, lines 298-331. */
  function Advance(b: Batch, resp: Response): (n: Next)
    requires |b.plan| > 0
    ensures n.Failed? <==> !Succeeded(resp)
    ensures n.Continue? ==> 0 < |n.batch.plan| && n.batch.bsize == b.bsize && n.batch.start < Ceiling
    ensures n.Continue? && n.batch.plan == b.plan ==>
              n.batch.start == b.start + b.bsize && n.batch.books == b.books + ItemsOf(resp)
    ensures n.Continue? && n.batch.plan != b.plan ==>
              n.batch.plan == b.plan[1..] && n.batch.start == 0 && NoDupKeys(n.batch.books)
    ensures n.Finished? ==> |b.plan| == 1 && NoDupKeys(n.books)
  {
    if !Succeeded(resp) then Failed(FailureOf(resp))
    else
      var books := b.books + resp.items;
      if resp.hasMoreItems && b.start + b.bsize < Ceiling then
        Continue(Batch(b.start + b.bsize, b.bsize, books, b.plan))
      else
        DedupDistinct(books);
        if |b.plan| > 1 then Continue(Batch(0, b.bsize, Dedup(books), b.plan[1..]))
        else Finished(Dedup(books))
  }

  /** When an order's pagination ends successfully, the accumulator passed on
      (to the next order, or to the output) is the deduplication of the old
      accumulator followed by the last page: no book key is lost, none repeats. */
  lemma AdvanceOrderEnd(b: Batch, resp: Response)
    requires |b.plan| > 0 && Succeeded(resp) && !(HasMore(resp) && b.start + b.bsize < Ceiling)
    ensures var all := b.books + ItemsOf(resp);
            var n := Advance(b, resp);
            (if |b.plan| > 1 then n == Continue(Batch(0, b.bsize, Dedup(all), b.plan[1..]))
             else n == Finished(Dedup(all))) &&
            Keys(Dedup(all)) == Keys(all) && NoDupKeys(Dedup(all))
  {
    DedupKeys(b.books + ItemsOf(resp));
    DedupDistinct(b.books + ItemsOf(resp));
  }

  /** What the rest of a run yields from the arguments of a pending call:
      finish this order from `b.start`, then merge the remaining orders. */
  function Resume(e: Endpoint, b: Batch): Trace
    requires |b.plan| > 0 && b.bsize > 0
  {
    var t := FetchOrder(e, b.plan[0], b.start, b.bsize);
    match t.outcome
    case Aborted(_) => t
    case Done(items) =>
      var rest := MergeOrders(e, b.plan[1..], b.bsize, Dedup(b.books + items));
      Trace(t.requests + rest.requests, rest.outcome)
  }

  /** One callback agrees with the specification: the rest of the run from
      `b` is its request followed by the rest of the run from the next call. */
  lemma ResumeStep(e: Endpoint, b: Batch)
    requires |b.plan| > 0 && b.bsize > 0
    ensures var req := RequestOf(b);
            match Advance(b, e(req))
            case Failed(f) => Resume(e, b) == Trace([req], Aborted(f))
            case Finished(books) => Resume(e, b) == Trace([req], Done(books))
            case Continue(next) =>
              next.bsize > 0 &&
              Resume(e, b) == Trace([req] + Resume(e, next).requests, Resume(e, next).outcome)
  {
    var resp := e(RequestOf(b));
    if Succeeded(resp) && resp.hasMoreItems && b.start + b.bsize < Ceiling {
      ResumeNextPage(e, b);
    }
  }

  /** The "next page" case of `ResumeStep`. */
  lemma ResumeNextPage(e: Endpoint, b: Batch)
    requires |b.plan| > 0 && b.bsize > 0
    requires var resp := e(RequestOf(b));
             Succeeded(resp) && resp.hasMoreItems && b.start + b.bsize < Ceiling
    ensures var req, resp := RequestOf(b), e(RequestOf(b));
            var next := Batch(b.start + b.bsize, b.bsize, b.books + resp.items, b.plan);
            Resume(e, b) == Trace([req] + Resume(e, next).requests, Resume(e, next).outcome)
  {
    var req, resp := RequestOf(b), e(RequestOf(b));
    var next := Batch(b.start + b.bsize, b.bsize, b.books + resp.items, b.plan);
    var rest := FetchOrder(e, b.plan[0], b.start + b.bsize, b.bsize);
    assert FetchOrder(e, b.plan[0], b.start, b.bsize) ==
           Trace([req] + rest.requests,
                 if rest.outcome.Done? then Done(resp.items + rest.outcome.books) else rest.outcome);
    if rest.outcome.Done? {
      var later := rest.outcome.books;
      assert b.books + (resp.items + later) == next.books + later;
      var m := MergeOrders(e, b.plan[1..], b.bsize, Dedup(next.books + later));
      assert Resume(e, next) == Trace(rest.requests + m.requests, m.outcome);
      assert Resume(e, b) == Trace([req] + rest.requests + m.requests, m.outcome);
      assert [req] + rest.requests + m.requests == [req] + (rest.requests + m.requests);
    }
  }

  /** The loop invariant of `GetBookBatch`: the requests made so far followed
      by the rest of the run from the pending call are the whole run. */
  ghost predicate OnTrack(e: Endpoint, plan: seq<SortOrder>, bsize: nat,
                          requests: seq<Request>, b: Batch)
    requires bsize > 0
  {
    |b.plan| > 0 && b.bsize == bsize && b.start < Ceiling &&
    var rest := Resume(e, b);
    Trace(requests + rest.requests, rest.outcome) == Run(e, plan, bsize)
  }

  /** A callback that calls `getbookbatch` again keeps the loop on track. */
  lemma KeepsTrack(e: Endpoint, plan: seq<SortOrder>, bsize: nat,
                   requests: seq<Request>, b: Batch, n: Batch)
    requires bsize > 0 && OnTrack(e, plan, bsize, requests, b)
    requires Advance(b, e(RequestOf(b))) == Continue(n)
    ensures OnTrack(e, plan, bsize, requests + [RequestOf(b)], n)
  {
    ResumeStep(e, b);
    var rest := Resume(e, n);
    assert requests + [RequestOf(b)] + rest.requests == requests + ([RequestOf(b)] + rest.requests);
  }

  /** A callback that exits or writes the output ends the run. */
  lemma EndsTrack(e: Endpoint, plan: seq<SortOrder>, bsize: nat,
                  requests: seq<Request>, b: Batch, outcome: Outcome)
    requires bsize > 0 && OnTrack(e, plan, bsize, requests, b)
    requires var n := Advance(b, e(RequestOf(b)));
             (n.Failed? && outcome == Aborted(n.failure)) || (n.Finished? && outcome == Done(n.books))
    ensures Trace(requests + [RequestOf(b)], outcome) == Run(e, plan, bsize)
  {
    ResumeStep(e, b);
  }

  /** The loop form of `getbookbatch`'s recursion over the endpoint oracle:
      each iteration is one request and its callback. `books` grows by each
      page and is replaced by its deduplication when an order ends; `steps`
      loses its head (`steps.shift()`). */
  method GetBookBatch(e: Endpoint, plan: seq<SortOrder>, bsize: nat)
    returns (requests: seq<Request>, outcome: Outcome)
    requires |plan| > 0 && bsize > 0
    ensures Trace(requests, outcome) == Run(e, plan, bsize)
  {
    var start: nat, books: seq<Book>, steps := 0, [], plan;
    requests := [];
    assert Resume(e, Batch(0, bsize, [], plan)) == Run(e, plan, bsize);
    while true
      invariant OnTrack(e, plan, bsize, requests, Batch(start, bsize, books, steps))
      decreases |steps|, Ceiling - start
    {
      ghost var b, before := Batch(start, bsize, books, steps), requests;
      var req := Request(steps[0], start, bsize);
      requests := requests + [req];
      var resp := e(req);
      if !(resp.Reply? && resp.success) {
        outcome := Aborted(if resp.LoadFailed? then LoadFailure else EndpointFailure);
        EndsTrack(e, plan, bsize, before, b, outcome);
        return;
      }
      books := books + resp.items;
      if resp.hasMoreItems && start + bsize < Ceiling {
        start := start + bsize;
      } else {
        steps := steps[1..];
        books := Uniq(books);
        if |steps| > 0 {
          start := 0;
        } else {
          outcome := Done(books);
          EndsTrack(e, plan, bsize, before, b, outcome);
          return;
        }
      }
      assert Advance(b, resp) == Continue(Batch(start, bsize, books, steps));
      KeepsTrack(e, plan, bsize, before, b, Batch(start, bsize, books, steps));
    }
  }

  // ---- Properties of the specification ----

  lemma {:induction false} PageItemsAppend(e: Endpoint, r1: seq<Request>, r2: seq<Request>)
    ensures PageItems(e, r1 + r2) == PageItems(e, r1) + PageItems(e, r2)
  {
    if r1 != [] {
      assert (r1 + r2)[0] == r1[0];
      assert (r1 + r2)[1..] == r1[1..] + r2;
      PageItemsAppend(e, r1[1..], r2);
      assert PageItems(e, r1 + r2) == ItemsOf(e(r1[0])) + PageItems(e, r1[1..] + r2);
    } else {
      assert r1 + r2 == r2;
    }
  }

  /** Pagination of one order: offsets start at `start` and grow by `bsize`,
      all below the ceiling; a next page is requested only after a successful
      response that says there are more items and whose next offset is below
      the ceiling; the order fails exactly when its last response did; and its
      items are every page's items in response order. */
  lemma {:induction false} FetchOrderShape(e: Endpoint, order: SortOrder, start: nat, bsize: nat)
    requires bsize > 0 && start < Ceiling
    ensures var t := FetchOrder(e, order, start, bsize);
            var reqs, last := t.requests, t.requests[|t.requests| - 1];
            (forall k :: 0 <= k < |reqs| ==>
               reqs[k].order == order && reqs[k].batchSize == bsize && reqs[k].start < Ceiling) &&
            (forall k :: 0 <= k < |reqs| - 1 ==>
               Succeeded(e(reqs[k])) && e(reqs[k]).hasMoreItems && reqs[k].start + bsize < Ceiling &&
               reqs[k + 1] == Request(order, reqs[k].start + bsize, bsize)) &&
            (t.outcome.Aborted? <==> !Succeeded(e(last))) &&
            (t.outcome.Aborted? ==> t.outcome.failure == FailureOf(e(last))) &&
            (t.outcome.Done? ==>
               t.outcome.books == PageItems(e, reqs) &&
               !(e(last).hasMoreItems && last.start + bsize < Ceiling))
    decreases Ceiling - start
  {
    var t := FetchOrder(e, order, start, bsize);
    var req := Request(order, start, bsize);
    var resp := e(req);
    if Succeeded(resp) && resp.hasMoreItems && start + bsize < Ceiling {
      FetchOrderShape(e, order, start + bsize, bsize);
      var rest := FetchOrder(e, order, start + bsize, bsize);
      assert t.requests == [req] + rest.requests;
      assert t.requests[1..] == rest.requests;
      assert t.requests[1] == rest.requests[0];
    } else {
      assert t.requests[1..] == [];
    }
  }

  /** Every request uses the batch size at an offset below the ceiling, and
      its order is the plan entry at its position in `pos`. */
  predicate Placed(reqs: seq<Request>, pos: seq<nat>, plan: seq<SortOrder>, bsize: nat)
  {
    |pos| == |reqs| &&
    forall k :: 0 <= k < |reqs| ==>
      pos[k] < |plan| && reqs[k].order == plan[pos[k]] &&
      reqs[k].batchSize == bsize && reqs[k].start < Ceiling
  }

  /** Request `r'` at plan position `p'` follows request `r` at position `p`:
      the next page of the same plan entry if the response said "more" and the
      next offset is below the ceiling, and otherwise offset 0 of the next
      plan entry (`steps.shift()`). */
  predicate Follows(e: Endpoint, plan: seq<SortOrder>, bsize: nat,
                    r: Request, p: nat, r': Request, p': nat)
  {
    if HasMore(e(r)) && r.start + bsize < Ceiling
    then r' == Request(r.order, r.start + bsize, bsize) && p' == p
    else p' == p + 1 && p' < |plan| && r' == Request(plan[p'], 0, bsize)
  }

  /** Each request but the last got a successful response and is followed
      as `Follows` says. */
  predicate Chained(e: Endpoint, reqs: seq<Request>, pos: seq<nat>, plan: seq<SortOrder>, bsize: nat)
  {
    |pos| == |reqs| &&
    forall k :: 0 <= k < |reqs| - 1 ==>
      Succeeded(e(reqs[k])) && Follows(e, plan, bsize, reqs[k], pos[k], reqs[k + 1], pos[k + 1])
  }

  /** The plan position of every request a merge from plan entry `i` makes:
      each order's requests at its own position, and the next position only
      once the order completed. */
  ghost function Positions(e: Endpoint, plan: seq<SortOrder>, bsize: nat, i: nat): seq<nat>
    requires bsize > 0 && i <= |plan|
    decreases |plan| - i
  {
    if i == |plan| then []
    else
      var t := FetchOrder(e, plan[i], 0, bsize);
      seq(|t.requests|, _ => i) + (if t.outcome.Done? then Positions(e, plan, bsize, i + 1) else [])
  }

  lemma TraversalAppend(e: Endpoint, plan: seq<SortOrder>, bsize: nat,
                        r1: seq<Request>, p1: seq<nat>, r2: seq<Request>, p2: seq<nat>)
    requires |r1| > 0 && |r2| > 0
    requires Placed(r1, p1, plan, bsize) && Chained(e, r1, p1, plan, bsize)
    requires Placed(r2, p2, plan, bsize) && Chained(e, r2, p2, plan, bsize)
    requires Succeeded(e(r1[|r1| - 1])) &&
             Follows(e, plan, bsize, r1[|r1| - 1], p1[|p1| - 1], r2[0], p2[0])
    ensures Placed(r1 + r2, p1 + p2, plan, bsize) && Chained(e, r1 + r2, p1 + p2, plan, bsize)
  {
    var reqs, pos := r1 + r2, p1 + p2;
    forall k | 0 <= k < |reqs|
      ensures pos[k] < |plan| && reqs[k].order == plan[pos[k]] &&
              reqs[k].batchSize == bsize && reqs[k].start < Ceiling
    {
      if k >= |r1| {
        assert reqs[k] == r2[k - |r1|] && pos[k] == p2[k - |r1|];
      } else {
        assert reqs[k] == r1[k] && pos[k] == p1[k];
      }
    }
    forall k | 0 <= k < |reqs| - 1
      ensures Succeeded(e(reqs[k])) && Follows(e, plan, bsize, reqs[k], pos[k], reqs[k + 1], pos[k + 1])
    {
      if k >= |r1| {
        assert reqs[k] == r2[k - |r1|] && reqs[k + 1] == r2[k + 1 - |r1|];
        assert pos[k] == p2[k - |r1|] && pos[k + 1] == p2[k + 1 - |r1|];
      } else if k == |r1| - 1 {
        assert reqs[k] == r1[k] && reqs[k + 1] == r2[0];
        assert pos[k] == p1[k] && pos[k + 1] == p2[0];
      } else {
        assert reqs[k] == r1[k] && reqs[k + 1] == r1[k + 1];
        assert pos[k] == p1[k] && pos[k + 1] == p1[k + 1];
      }
    }
  }

  /** The requests of the order at plan position `i`, all at that position. */
  lemma FetchOrderChained(e: Endpoint, plan: seq<SortOrder>, bsize: nat, i: nat)
    requires i < |plan| && bsize > 0
    ensures var t := FetchOrder(e, plan[i], 0, bsize);
            var pos := seq(|t.requests|, _ => i);
            Placed(t.requests, pos, plan, bsize) && Chained(e, t.requests, pos, plan, bsize) &&
            (t.outcome.Done? ==> !(HasMore(e(t.requests[|t.requests| - 1])) &&
                                   t.requests[|t.requests| - 1].start + bsize < Ceiling))
  {
    var t := FetchOrder(e, plan[i], 0, bsize);
    var reqs, pos := t.requests, seq(|t.requests|, _ => i);
    FetchOrderShape(e, plan[i], 0, bsize);
    forall k | 0 <= k < |reqs|
      ensures pos[k] < |plan| && reqs[k].order == plan[pos[k]] &&
              reqs[k].batchSize == bsize && reqs[k].start < Ceiling
    {
      assert pos[k] == i;
    }
    forall k | 0 <= k < |reqs| - 1
      ensures Succeeded(e(reqs[k])) && Follows(e, plan, bsize, reqs[k], pos[k], reqs[k + 1], pos[k + 1])
    {
      assert HasMore(e(reqs[k])) && reqs[k].start + bsize < Ceiling;
      assert pos[k] == i && pos[k + 1] == i;
    }
  }

  /** What the requests of a merge from plan entry `i` look like: the first
      is entry `i` at offset 0; each has the batch size, an offset below the
      ceiling and the order of its plan position; each after the first
      follows a successful response as `Follows` says; a completed merge ends
      on the last entry, after a response with no more items or no room
      below the ceiling; and it fails exactly when, and as, its last
      response did. */
  ghost predicate Traversed(e: Endpoint, plan: seq<SortOrder>, bsize: nat, i: nat, t: Trace, pos: seq<nat>)
    requires i < |plan|
  {
    |t.requests| > 0 && t.requests[0] == Request(plan[i], 0, bsize) &&
    Placed(t.requests, pos, plan, bsize) && pos[0] == i && Chained(e, t.requests, pos, plan, bsize) &&
    (t.outcome.Done? ==> pos[|pos| - 1] == |plan| - 1) &&
    (t.outcome.Done? ==> !(HasMore(e(t.requests[|t.requests| - 1])) &&
                           t.requests[|t.requests| - 1].start + bsize < Ceiling)) &&
    (t.outcome.Aborted? <==> !Succeeded(e(t.requests[|t.requests| - 1]))) &&
    (t.outcome.Aborted? ==> t.outcome.failure == FailureOf(e(t.requests[|t.requests| - 1])))
  }

  /** Merging the plan from entry `i` visits the plan in order: its requests
      and their plan positions (`Positions`) are `Traversed`. */
  lemma {:induction false} MergeOrdersRequests(e: Endpoint, plan: seq<SortOrder>, bsize: nat,
                                               i: nat, acc: seq<Book>)
    requires i < |plan| && bsize > 0
    ensures Traversed(e, plan, bsize, i, MergeOrders(e, plan[i..], bsize, acc), Positions(e, plan, bsize, i))
    decreases |plan| - i
  {
    var head := FetchOrder(e, plan[i], 0, bsize);
    assert plan[i..][0] == plan[i] && plan[i..][1..] == plan[i + 1..];
    if head.outcome.Done? && i + 1 < |plan| {
      var acc' := Dedup(acc + head.outcome.books);
      MergeOrdersRequests(e, plan, bsize, i + 1, acc');
      MergeNextOrder(e, plan, bsize, i, MergeOrders(e, plan[i + 1..], bsize, acc'));
    } else {
      MergeLastOrder(e, plan, bsize, i, acc);
    }
  }

  /** The case of `MergeOrdersRequests` where the order at `i` fails or is
      the last one. */
  lemma MergeLastOrder(e: Endpoint, plan: seq<SortOrder>, bsize: nat, i: nat, acc: seq<Book>)
    requires i < |plan| && bsize > 0
    requires var head := FetchOrder(e, plan[i], 0, bsize); head.outcome.Aborted? || i + 1 == |plan|
    ensures Traversed(e, plan, bsize, i, MergeOrders(e, plan[i..], bsize, acc), Positions(e, plan, bsize, i))
  {
    var t, pos := MergeOrders(e, plan[i..], bsize, acc), Positions(e, plan, bsize, i);
    var head := FetchOrder(e, plan[i], 0, bsize);
    var hp := seq(|head.requests|, _ => i);
    FetchOrderShape(e, plan[i], 0, bsize);
    FetchOrderChained(e, plan, bsize, i);
    assert plan[i..][0] == plan[i] && plan[i..][1..] == plan[i + 1..];
    if head.outcome.Done? {
      assert plan[i + 1..] == [];
      assert t.requests == head.requests + [] == head.requests;
    } else {
      assert t == head;
    }
    assert pos == hp + [] == hp;
  }

  /** The case of `MergeOrdersRequests` where the order at `i` completes and
      the merge goes on from entry `i + 1`. */
  lemma MergeNextOrder(e: Endpoint, plan: seq<SortOrder>, bsize: nat, i: nat, rest: Trace)
    requires i + 1 < |plan| && bsize > 0
    requires FetchOrder(e, plan[i], 0, bsize).outcome.Done?
    requires Traversed(e, plan, bsize, i + 1, rest, Positions(e, plan, bsize, i + 1))
    ensures var hr := FetchOrder(e, plan[i], 0, bsize).requests;
            Traversed(e, plan, bsize, i, Trace(hr + rest.requests, rest.outcome), Positions(e, plan, bsize, i))
  {
    var head := FetchOrder(e, plan[i], 0, bsize);
    var hr, hp := head.requests, seq(|head.requests|, _ => i);
    var rr, rp := rest.requests, Positions(e, plan, bsize, i + 1);
    FetchOrderShape(e, plan[i], 0, bsize);
    FetchOrderChained(e, plan, bsize, i);
    assert Positions(e, plan, bsize, i) == hp + rp;
    var last := hr[|hr| - 1];
    assert Succeeded(e(last)) && !(HasMore(e(last)) && last.start + bsize < Ceiling);
    assert hp[|hp| - 1] == i && rp[0] == i + 1 && rr[0] == Request(plan[i + 1], 0, bsize);
    assert Follows(e, plan, bsize, last, i, rr[0], rp[0]);
    TraversalAppend(e, plan, bsize, hr, hp, rr, rp);
    assert (hr + rr)[0] == hr[0] && (hp + rp)[0] == hp[0];
    assert (hr + rr)[|hr + rr| - 1] == rr[|rr| - 1];
    assert (hp + rp)[|hp + rp| - 1] == rp[|rp| - 1];
  }

  /** A completed order's items are its pages' items in request order. */
  lemma FetchOrderItems(e: Endpoint, order: SortOrder, bsize: nat)
    requires bsize > 0
    ensures var t := FetchOrder(e, order, 0, bsize);
            t.outcome.Done? ==> t.outcome.books == PageItems(e, t.requests)
  {
    FetchOrderShape(e, order, 0, bsize);
  }

  /** Merging a plan, its result: the deduplication of the accumulator
      followed by every page's items in request order. */
  lemma {:induction false} MergeOrdersBooks(e: Endpoint, plan: seq<SortOrder>, bsize: nat, acc: seq<Book>)
    requires |plan| > 0 && bsize > 0
    ensures var t := MergeOrders(e, plan, bsize, acc);
            t.outcome.Done? ==> t.outcome.books == Dedup(acc + PageItems(e, t.requests))
    decreases |plan|
  {
    var t := MergeOrders(e, plan, bsize, acc);
    var head := FetchOrder(e, plan[0], 0, bsize);
    if head.outcome.Done? {
      FetchOrderItems(e, plan[0], bsize);
      var hr, items := head.requests, head.outcome.books;
      var acc' := Dedup(acc + items);
      var rest := MergeOrders(e, plan[1..], bsize, acc');
      assert t == Trace(hr + rest.requests, rest.outcome);
      if |plan| == 1 {
        assert plan[1..] == [];
        assert rest == Trace([], Done(acc'));
        assert hr + rest.requests == hr;
      } else if rest.outcome.Done? {
        MergeOrdersBooks(e, plan[1..], bsize, acc');
        PageItemsAppend(e, hr, rest.requests);
        AbsorbOrder(acc, items, PageItems(e, rest.requests));
      }
    }
  }

  /** The algebra of one merge step: deduplicating after this order's items
      and again after the rest equals one deduplication of everything. */
  lemma AbsorbOrder(acc: seq<Book>, items: seq<Book>, later: seq<Book>)
    ensures Dedup(Dedup(acc + items) + later) == Dedup(acc + (items + later))
  {
    var x, y := acc + items + later, acc + (items + later);
    assert x == y;
    DedupAbsorb(acc + items, later);
    assert Dedup(x) == Dedup(y);
  }

  /** Every request of a run has an offset below the ceiling, the run's batch
      size and an order of the plan. */
  lemma RunRequestsBelowCeiling(e: Endpoint, plan: seq<SortOrder>, bsize: nat)
    requires |plan| > 0 && bsize > 0
    ensures forall r :: r in Run(e, plan, bsize).requests ==>
              r.start < Ceiling && r.batchSize == bsize && r.order in plan
  {
    MergeOrdersRequests(e, plan, bsize, 0, []);
    assert plan[0..] == plan;
    var t, pos := Run(e, plan, bsize), Positions(e, plan, bsize, 0);
    forall r | r in t.requests ensures r.start < Ceiling && r.batchSize == bsize && r.order in plan {
      var k :| 0 <= k < |t.requests| && t.requests[k] == r;
      assert r.order == plan[pos[k]];
    }
  }

  /** A run walks the plan in order: it starts at offset 0 of the plan head,
      pages through an order while there are more items below the ceiling,
      then moves to offset 0 of the next plan entry, and when it completes
      it has reached the last entry. */
  lemma RunVisitsPlanInOrder(e: Endpoint, plan: seq<SortOrder>, bsize: nat)
    requires |plan| > 0 && bsize > 0
    ensures Traversed(e, plan, bsize, 0, Run(e, plan, bsize), Positions(e, plan, bsize, 0))
  {
    MergeOrdersRequests(e, plan, bsize, 0, []);
    assert plan[0..] == plan;
  }

  /** A run that completes returns, with no duplicate key, exactly the keys of
      every item any page returned, each represented by its first occurrence:
      deduplicating after each order is the same as deduplicating all pages
      once at the end. A run fails exactly when its last response failed,
      after which nothing more is requested. */
  lemma RunResult(e: Endpoint, plan: seq<SortOrder>, bsize: nat)
    requires |plan| > 0 && bsize > 0
    ensures var t := Run(e, plan, bsize);
            |t.requests| > 0 &&
            (forall k :: 0 <= k < |t.requests| - 1 ==> Succeeded(e(t.requests[k]))) &&
            (t.outcome.Aborted? <==> !Succeeded(e(t.requests[|t.requests| - 1]))) &&
            (t.outcome.Done? ==>
               t.outcome.books == Dedup(PageItems(e, t.requests)) &&
               NoDupKeys(t.outcome.books) &&
               Keys(t.outcome.books) == Keys(PageItems(e, t.requests)))
  {
    var t := Run(e, plan, bsize);
    MergeOrdersRequests(e, plan, bsize, 0, []);
    assert plan[0..] == plan;
    MergeOrdersBooks(e, plan, bsize, []);
    assert [] + PageItems(e, t.requests) == PageItems(e, t.requests);
    DedupDistinct(PageItems(e, t.requests));
    DedupKeys(PageItems(e, t.requests));
  }

  /** A one-order plan is one pagination followed by one deduplication. */
  lemma SingleOrderPlan(e: Endpoint, order: SortOrder, bsize: nat)
    requires bsize > 0
    ensures var t, f := Run(e, [order], bsize), FetchOrder(e, order, 0, bsize);
            t.requests == f.requests &&
            t.outcome == (if f.outcome.Done? then Done(Dedup(f.outcome.books)) else f.outcome)
  {
    assert [order][1..] == [];
    var f := FetchOrder(e, order, 0, bsize);
    if f.outcome.Done? {
      var rest := MergeOrders(e, [], bsize, Dedup([] + f.outcome.books));
      assert [] + f.outcome.books == f.outcome.books;
      assert rest == Trace([], Done(Dedup(f.outcome.books)));
      assert f.requests + [] == f.requests;
    }
  }

  /** One page that says there is nothing more: exactly one request, and its
      items come back deduplicated. */
  lemma SinglePageScenario(e: Endpoint, order: SortOrder, bsize: nat, items: seq<Book>)
    requires bsize > 0
    requires e(Request(order, 0, bsize)) == Reply(true, items, false)
    ensures Run(e, [order], bsize) == Trace([Request(order, 0, bsize)], Done(Dedup(items)))
  {
    SingleOrderPlan(e, order, bsize);
  }

  /** An endpoint that always says "more" for this order and fills every page:
      from offset `50 * m` there are `20 - m` requests at consecutive multiples
      of 50, and `50 * (20 - m)` items. */
  lemma {:induction false} AlwaysMoreFrom(e: Endpoint, order: SortOrder, m: nat)
    requires m < 20
    requires forall r: Request :: r.order == order ==>
               Succeeded(e(r)) && e(r).hasMoreItems && |e(r).items| == r.batchSize
    ensures var t := FetchOrder(e, order, 50 * m, 50);
            |t.requests| == 20 - m &&
            (forall k :: 0 <= k < |t.requests| ==> t.requests[k] == Request(order, 50 * (m + k), 50)) &&
            t.outcome.Done? && |t.outcome.books| == 50 * (20 - m)
    decreases 20 - m
  {
    var t := FetchOrder(e, order, 50 * m, 50);
    var req := Request(order, 50 * m, 50);
    assert Succeeded(e(req)) && e(req).hasMoreItems && |e(req).items| == 50;
    if m < 19 {
      AlwaysMoreFrom(e, order, m + 1);
      var rest := FetchOrder(e, order, 50 * m + 50, 50);
      assert 50 * (m + 1) == 50 * m + 50;
      assert t.requests == [req] + rest.requests;
      forall k | 0 <= k < |t.requests| ensures t.requests[k] == Request(order, 50 * (m + k), 50) {
        if k > 0 {
          assert t.requests[k] == rest.requests[k - 1];
        }
      }
    }
  }

  /** With a batch size of 50 and an endpoint that always says "more", one
      order makes exactly 20 requests, at offsets 0, 50, ..., 950, and stops
      before 1000 with 1000 items. */
  lemma AlwaysMoreScenario(e: Endpoint, order: SortOrder)
    requires forall r: Request :: r.order == order ==>
               Succeeded(e(r)) && e(r).hasMoreItems && |e(r).items| == r.batchSize
    ensures var t := FetchOrder(e, order, 0, BatchSize);
            |t.requests| == 20 &&
            (forall k :: 0 <= k < 20 ==> t.requests[k] == Request(order, 50 * k, 50)) &&
            t.outcome.Done? && |t.outcome.books| == 1000
  {
    AlwaysMoreFrom(e, order, 0);
  }

  /** Two orders that return the same items (no new key in the second) merge
      into the first order's items: e.g. 3 items twice give 3 items, not 6. */
  lemma RepeatedItemsMergeOnce(e: Endpoint, o1: SortOrder, o2: SortOrder, bsize: nat)
    requires bsize > 0
    requires FetchOrder(e, o1, 0, bsize).outcome.Done?
    requires FetchOrder(e, o2, 0, bsize).outcome.Done?
    requires NoDupKeys(FetchOrder(e, o1, 0, bsize).outcome.books)
    requires Keys(FetchOrder(e, o2, 0, bsize).outcome.books)
             <= Keys(FetchOrder(e, o1, 0, bsize).outcome.books)
    ensures Run(e, [o1, o2], bsize).outcome == Done(FetchOrder(e, o1, 0, bsize).outcome.books)
  {
    var a := FetchOrder(e, o1, 0, bsize).outcome.books;
    var b := FetchOrder(e, o2, 0, bsize).outcome.books;
    assert [o1, o2][0] == o1 && [o1, o2][1..] == [o2];
    assert [o2][0] == o2 && [o2][1..] == [];
    assert [] + a == a;
    DedupOfDistinct(a);
    DedupAppendSeen(a, b);
    var last := MergeOrders(e, [], bsize, Dedup(a + b));
    assert last.outcome == Done(a);
    var second := MergeOrders(e, [o2], bsize, a);
    assert second.outcome == Done(a);
  }
}
