/**
 * Paging through a channel's history (`history`): one `conversations_history`
 * request per page, the cursor of each request taken from the previous
 * response, every message of a successful page delivered in order, and a stop
 * after the first response that failed or said there is nothing more.
 *
 * The chat service is not modelled: `responses[k]` is what it answers to the
 * k-th request, and the method returns the requests it made.
 */
module Pagination {
  import opened Wrappers

  /** A history record: both fields may be missing on the wire. */
  datatype Message = Message(text: Option<string>, user: Option<string>)

  /** One `conversations_history` answer (`ok`, `messages`, `has_more`,
      `response_metadata.next_cursor`). */
  datatype Response = Response(ok: bool, messages: seq<Message>, hasMore: bool, nextCursor: Option<string>)

  /** The arguments of one `conversations_history` request. */
  datatype Request = Request(channel: string, cursor: Option<string>, limit: nat)

  /** Page size asked for on every request. */
  const PageLimit: nat := 1000

  /** The loop leaves after this response. */
  predicate Stops(r: Response)
  {
    !r.ok || !r.hasMore
  }

  /** The service eventually answers with a response that ends the loop. */
  ghost predicate Ends(rs: seq<Response>)
  {
    exists k :: 0 <= k < |rs| && Stops(rs[k])
  }

  /** Index of the response that ends the loop. */
  ghost function FirstStop(rs: seq<Response>): (k: nat)
    requires Ends(rs)
    ensures k < |rs| && Stops(rs[k])
    ensures forall j :: 0 <= j < k ==> !Stops(rs[j])
  {
    if Stops(rs[0]) then 0
    else
      assert Ends(rs[1..]) by {
        var k :| 0 <= k < |rs| && Stops(rs[k]);
        assert rs[1..][k - 1] == rs[k];
      }
      1 + FirstStop(rs[1..])
  }

  /** The messages of `pages`, page after page, each page in its own order. */
  function Pages(pages: seq<Response>): (ms: seq<Message>)
  {
    if pages == [] then [] else Pages(pages[..|pages| - 1]) + pages[|pages| - 1].messages
  }

  /** Number of requests one `history` pass makes. */
  ghost function FetchCount(rs: seq<Response>): (n: nat)
    requires Ends(rs)
  {
    FirstStop(rs) + 1
  }

  /** Messages one `history` pass delivers: those of every page up to the last
      one fetched, the last one only if it succeeded. */
  ghost function Delivered(rs: seq<Response>): (ms: seq<Message>)
    requires Ends(rs)
  {
    var n := FirstStop(rs);
    if rs[n].ok then Pages(rs[..n + 1]) else Pages(rs[..n])
  }

  /** `response["messages"].each { |m| yield m }`: one page handed on
      message by message, in order. */
  method YieldAll(yielded: seq<Message>, page: seq<Message>) returns (r: seq<Message>)
    ensures r == yielded + page
  {
    r := yielded;
    for j := 0 to |page|
      invariant r == yielded + page[..j]
    {
      r := r + [page[j]];
    }
    assert page[..|page|] == page;
  }

  /** `history(channel)`: requests page after page until a response failed or
      said there is nothing more; `yielded` is what the enumerator produced. */
  method History(channel: string, responses: seq<Response>) returns (requests: seq<Request>, yielded: seq<Message>)
    requires Ends(responses)
    ensures |requests| == FetchCount(responses)
    ensures forall k :: 0 <= k < |requests| ==> requests[k].channel == channel && requests[k].limit == PageLimit
    ensures requests[0].cursor == None
    ensures forall k :: 0 < k < |requests| ==> requests[k].cursor == responses[k - 1].nextCursor
    ensures yielded == Delivered(responses)
  {
    ghost var stop := FirstStop(responses);
    var cursor: Option<string> := None;
    var i := 0;
    requests, yielded := [], [];
    while true
      invariant i <= stop
      invariant |requests| == i
      invariant forall k :: 0 <= k < i ==> requests[k].channel == channel && requests[k].limit == PageLimit
      invariant i == 0 ==> cursor == None
      invariant i > 0 ==> cursor == responses[i - 1].nextCursor
      invariant forall k :: 0 < k < i ==> requests[k].cursor == responses[k - 1].nextCursor
      invariant i > 0 ==> requests[0].cursor == None
      invariant yielded == Pages(responses[..i])
      decreases stop - i
    {
      requests := requests + [Request(channel, cursor, PageLimit)];
      var response := responses[i];
      if !response.ok {
        break;
      }
      yielded := YieldAll(yielded, response.messages);
      assert responses[..i + 1][..i] == responses[..i];
      if !response.hasMore {
        break;
      }
      cursor := response.nextCursor;
      i := i + 1;
    }
  }

  /** N pages that say there is more, then a last page: N + 1 requests, and
      every page's messages delivered when the last page succeeded. */
  lemma FetchesOnePerPage(rs: seq<Response>, n: nat)
    requires n < |rs|
    requires forall k :: 0 <= k < n ==> rs[k].ok && rs[k].hasMore
    requires Stops(rs[n])
    ensures Ends(rs)
    ensures FetchCount(rs) == n + 1
    ensures Delivered(rs) == if rs[n].ok then Pages(rs[..n + 1]) else Pages(rs[..n])
  {
  }

  /** A first response that failed: one request, nothing delivered. */
  lemma FailedFirstPage(rs: seq<Response>)
    requires rs != [] && !rs[0].ok
    ensures Ends(rs)
    ensures FetchCount(rs) == 1 && Delivered(rs) == []
  {
    assert Stops(rs[0]);
  }

  /** Pages are delivered whole and in order: the messages of fewer pages are a
      prefix of the messages of more pages. */
  lemma {:induction false} PagesPrefix(pages: seq<Response>, j: nat)
    requires j <= |pages|
    ensures Pages(pages[..j]) <= Pages(pages)
    decreases |pages|
  {
    if j < |pages| {
      var init := pages[..|pages| - 1];
      assert pages[..j] == init[..j];
      PagesPrefix(init, j);
    } else {
      assert pages[..j] == pages;
    }
  }

  /** A message is among those of some pages exactly when one of those pages holds it. */
  lemma {:induction false} InPages(pages: seq<Response>, m: Message)
    ensures m in Pages(pages) <==> exists k :: 0 <= k < |pages| && m in pages[k].messages
    decreases |pages|
  {
    if pages != [] {
      var init := pages[..|pages| - 1];
      InPages(init, m);
      if m in Pages(pages) && m !in pages[|pages| - 1].messages {
        var k :| 0 <= k < |init| && m in init[k].messages;
        assert pages[k] == init[k];
      }
      if exists k :: 0 <= k < |pages| && m in pages[k].messages {
        var k :| 0 <= k < |pages| && m in pages[k].messages;
        if k < |init| {
          assert init[k] == pages[k];
        }
      }
    }
  }

  /** A message is delivered exactly when a successful page that was fetched holds it. */
  lemma DeliveredFromFetchedPages(rs: seq<Response>, m: Message)
    requires Ends(rs)
    ensures m in Delivered(rs) <==>
      exists k :: 0 <= k < FetchCount(rs) && rs[k].ok && m in rs[k].messages
  {
    var n := FirstStop(rs);
    var fetched := if rs[n].ok then rs[..n + 1] else rs[..n];
    InPages(fetched, m);
    if m in Delivered(rs) {
      var k :| 0 <= k < |fetched| && m in fetched[k].messages;
      assert fetched[k] == rs[k];
      assert k < n ==> !Stops(rs[k]);
    }
    if exists k :: 0 <= k < FetchCount(rs) && rs[k].ok && m in rs[k].messages {
      var k :| 0 <= k < FetchCount(rs) && rs[k].ok && m in rs[k].messages;
      assert fetched[k] == rs[k];
    }
  }
}
