/**
 * `get_next_batch_of_items`: collects a cursor-paginated listing by
 * requesting a page, appending its `items` to an accumulator, and following
 * `next` until a page has none; the terminal page's `total` is only
 * compared against the count for a warning.
 *
 * The server is abstracted as the sequence of responses the successive page
 * requests receive. A request whose response is missing (the sequence ran
 * out) or failed never reaches the `success` callback, so the chain stops
 * without calling `on_finished`.
 */
module Pagination {

  /** A page as the endpoint returns it: `items`, whether `next` is set, and `total`. */
  datatype Page<T> = Page(items: seq<T>, hasNext: bool, total: int)

  /** What one page request receives: a page, or an HTTP/network failure. */
  datatype Response<T> = Delivered(page: Page<T>) | Failed

  /**
   * How a fetch chain ends: `on_finished` is called with the accumulated
   * items (and a warning is logged when their count differs from the
   * terminal page's `total`), or the chain stalls and nothing is called.
   */
  datatype FetchResult<T> = Finished(items: seq<T>, countMismatch: bool) | Stalled

  /** `get_next_batch_of_items(items, url, ...)` where `responses` answer this request and the ones after it. */
  function GetNextBatchOfItems<T>(items: seq<T>, responses: seq<Response<T>>): (r: FetchResult<T>)
    ensures r.Finished? ==> |items| <= |r.items| && r.items[..|items|] == items
    ensures r.Finished? ==> r.countMismatch == (|r.items| != TerminalTotal(responses))
    decreases |responses|
  {
    if |responses| == 0 then Stalled
    else match responses[0]
      case Failed => Stalled
      case Delivered(page) =>
        var acc := items + page.items;
        if page.hasNext then GetNextBatchOfItems(acc, responses[1..])
        else Finished(acc, |acc| != page.total)
  }

  /** The `total` of the first delivered page without `next` (0 when there is none). */
  function TerminalTotal<T>(responses: seq<Response<T>>): int
    decreases |responses|
  {
    if |responses| == 0 then 0
    else match responses[0]
      case Failed => 0
      case Delivered(page) => if page.hasNext then TerminalTotal(responses[1..]) else page.total
  }

  /** Response `t` is a delivered page without `next`, and every response before it a delivered page with `next`. */
  predicate TerminalAt<T>(responses: seq<Response<T>>, t: nat)
  {
    t < |responses| &&
    responses[t].Delivered? && !responses[t].page.hasNext &&
    forall j :: 0 <= j < t ==> responses[j].Delivered? && responses[j].page.hasNext
  }

  /** The items of the delivered pages, in page order. */
  function AllItems<T>(responses: seq<Response<T>>): seq<T>
    decreases |responses|
  {
    if |responses| == 0 then []
    else (if responses[0].Delivered? then responses[0].page.items else []) + AllItems(responses[1..])
  }

  /**
   * When page `t` is the first page without `next`, the chain finishes with
   * the initial accumulator followed by the items of pages 0..t in order,
   * and the warning depends only on that count and page t's `total`.
   */
  lemma {:induction false} FinishesAtTerminalPage<T>(items: seq<T>, responses: seq<Response<T>>, t: nat)
    requires TerminalAt(responses, t)
    ensures GetNextBatchOfItems(items, responses)
         == Finished(items + AllItems(responses[..t + 1]),
                     |items + AllItems(responses[..t + 1])| != responses[t].page.total)
    decreases t
  {
    var page := responses[0].page;
    if t == 0 {
      assert responses[..1] == [responses[0]];
      assert AllItems(responses[..1]) == page.items + AllItems(responses[..1][1..]);
      assert responses[..1][1..] == [];
    } else {
      var rest := responses[1..];
      assert TerminalAt(rest, t - 1) by {
        forall j | 0 <= j < t - 1 ensures rest[j].Delivered? && rest[j].page.hasNext {
          assert rest[j] == responses[j + 1];
        }
      }
      FinishesAtTerminalPage(items + page.items, rest, t - 1);
      assert responses[..t + 1][1..] == rest[..t];
      assert AllItems(responses[..t + 1]) == page.items + AllItems(rest[..t]);
      assert items + page.items + AllItems(rest[..t]) == items + AllItems(responses[..t + 1]);
    }
  }

  /** The chain finishes exactly when some page is terminal in the sense of `TerminalAt`; otherwise it stalls. */
  lemma {:induction false} FinishedIffTerminal<T>(items: seq<T>, responses: seq<Response<T>>)
    ensures GetNextBatchOfItems(items, responses).Finished? <==> exists t: nat :: TerminalAt(responses, t)
    decreases |responses|
  {
    if |responses| == 0 {
      assert forall t: nat :: !TerminalAt(responses, t);
    } else if responses[0].Failed? {
      assert forall t: nat :: !TerminalAt(responses, t);
    } else if !responses[0].page.hasNext {
      assert TerminalAt(responses, 0);
    } else {
      var rest := responses[1..];
      FinishedIffTerminal(items + responses[0].page.items, rest);
      if t: nat :| TerminalAt(rest, t) {
        assert TerminalAt(responses, t + 1) by {
          forall j | 0 <= j < t + 1 ensures responses[j].Delivered? && responses[j].page.hasNext {
            if j > 0 { assert responses[j] == rest[j - 1]; }
          }
        }
      }
      if t: nat :| TerminalAt(responses, t) {
        assert t > 0;
        assert TerminalAt(rest, t - 1) by {
          forall j | 0 <= j < t - 1 ensures rest[j].Delivered? && rest[j].page.hasNext {
            assert rest[j] == responses[j + 1];
          }
        }
      }
    }
  }

  /** Pages after the terminal one are never requested: appending more responses changes nothing. */
  lemma {:induction false} LaterResponsesIgnored<T>(items: seq<T>, responses: seq<Response<T>>, more: seq<Response<T>>)
    requires GetNextBatchOfItems(items, responses).Finished?
    ensures GetNextBatchOfItems(items, responses + more) == GetNextBatchOfItems(items, responses)
    decreases |responses|
  {
    assert (responses + more)[0] == responses[0];
    if responses[0].page.hasNext {
      assert (responses + more)[1..] == responses[1..] + more;
      LaterResponsesIgnored(items + responses[0].page.items, responses[1..], more);
    }
  }

  /** The accumulator only prefixes the result: starting from `items` is starting from `[]` and prepending `items`. */
  lemma {:induction false} AccumulatorPrefixes<T>(items: seq<T>, responses: seq<Response<T>>)
    ensures GetNextBatchOfItems([], responses).Stalled? <==> GetNextBatchOfItems(items, responses).Stalled?
    ensures GetNextBatchOfItems(items, responses).Finished? ==>
              GetNextBatchOfItems(items, responses).items == items + GetNextBatchOfItems([], responses).items
    decreases |responses|
  {
    if |responses| > 0 && responses[0].Delivered? {
      var page := responses[0].page;
      if page.hasNext {
        AccumulatorPrefixes(items + page.items, responses[1..]);
        AccumulatorPrefixes(page.items, responses[1..]);
        assert [] + page.items == page.items;
      } else {
        assert [] + page.items == page.items;
      }
    }
  }

  /** The rule of the terminal page written out for N pages all delivered: the result is their items concatenated. */
  lemma ConcatenatesAllPages<T>(responses: seq<Response<T>>)
    requires |responses| >= 1
    requires forall j :: 0 <= j < |responses| ==> responses[j].Delivered?
    requires forall j :: 0 <= j < |responses| ==> responses[j].page.hasNext <==> j < |responses| - 1
    ensures GetNextBatchOfItems([], responses).Finished?
    ensures GetNextBatchOfItems([], responses).items == AllItems(responses)
  {
    var t := |responses| - 1;
    assert TerminalAt(responses, t);
    FinishesAtTerminalPage([], responses, t);
    assert responses[..t + 1] == responses;
  }
}
