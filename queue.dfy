/**
 * The publishing queue route: a module-level array of items with `POST`
 * (validated push), `GET` (peek) and `DELETE` (shift).
 */
module PublishQueue {
  import opened Json

  /** `{ website_id, article_url, budget }`, stored as received. */
  datatype QueueItem = QueueItem(websiteId: JsonValue, articleUrl: JsonValue, budget: JsonValue)

  /** The JSON body of a reply: a message string or the head item. */
  datatype Reply = Message(text: string) | Head(item: QueueItem)

  datatype Response = Response(status: int, body: Reply)

  const MISSING := "Missing parameters"
  const ADDED := "Item added to queue"
  const EMPTY := "Queue is empty"
  const REMOVED := "Item removed from queue"

  datatype Request = Post(item: QueueItem) | Get | Delete

  datatype Handled = Handled(queue: seq<QueueItem>, response: Response)

  /** `!website_id || !article_url || !budget`. */
  predicate Incomplete(item: QueueItem) {
    Falsy(item.websiteId) || Falsy(item.articleUrl) || Falsy(item.budget)
  }

  /** What one request does to the queue and what it answers. */
  function Step(q: seq<QueueItem>, req: Request): (h: Handled)
    ensures h.response.status == 400 <==> req.Post? && Incomplete(req.item)
    ensures h.response.status != 400 ==> h.response.status == 200
    ensures req.Get? ==> h.queue == q
    ensures req.Post? ==> h.queue == if Incomplete(req.item) then q else q + [req.item]
    ensures req.Delete? ==> h.queue == if q == [] then [] else q[1..]
    ensures h.response.body.Head? <==> req.Get? && q != []
  {
    match req
    case Post(item) =>
      if Incomplete(item) then Handled(q, Response(400, Message(MISSING)))
      else Handled(q + [item], Response(200, Message(ADDED)))
    case Get =>
      if |q| == 0 then Handled(q, Response(200, Message(EMPTY)))
      else Handled(q, Response(200, Head(q[0])))
    case Delete =>
      if |q| == 0 then Handled(q, Response(200, Message(EMPTY)))
      else Handled(q[1..], Response(200, Message(REMOVED)))
  }

  /**
   * What each handler answers: the rejection or confirmation of a `POST`, the
   * empty-queue message, the head `q[0]` for a `GET` and the removal message
   * for a `DELETE`.
   */
  lemma StepReplies(q: seq<QueueItem>, req: Request)
    ensures var body := Step(q, req).response.body;
      && (req.Post? ==> body == Message(if Incomplete(req.item) then MISSING else ADDED))
      && (!req.Post? && q == [] ==> body == Message(EMPTY))
      && (req.Get? && q != [] ==> body == Head(q[0]))
      && (req.Delete? && q != [] ==> body == Message(REMOVED))
  {
  }

  /** The module-level `queue` array shared by the three handlers. */
  class Queue {
    var items: seq<QueueItem>

    constructor ()
      ensures items == []
    {
      items := [];
    }

    method HandlePost(item: QueueItem) returns (r: Response)
      modifies this
      ensures Handled(items, r) == Step(old(items), Post(item))
    {
      if Falsy(item.websiteId) || Falsy(item.articleUrl) || Falsy(item.budget) {
        return Response(400, Message(MISSING));
      }
      items := items + [item];
      r := Response(200, Message(ADDED));
    }

    method HandleGet() returns (r: Response)
      ensures r.status == 200
      ensures items == [] ==> r.body == Message(EMPTY)
      ensures items != [] ==> r.body == Head(items[0])
    {
      if |items| == 0 {
        return Response(200, Message(EMPTY));
      }
      r := Response(200, Head(items[0]));
    }

    method HandleDelete() returns (r: Response)
      modifies this
      ensures Handled(items, r) == Step(old(items), Delete)
    {
      if |items| == 0 {
        return Response(200, Message(EMPTY));
      }
      items := items[1..];
      r := Response(200, Message(REMOVED));
    }
  }

  // ---------------------------------------------------------------------------
  // FIFO order over a run of requests

  /** The final queue and the items `DELETE` removed, in removal order. */
  datatype Trace = Trace(queue: seq<QueueItem>, removed: seq<QueueItem>)

  function Run(q: seq<QueueItem>, reqs: seq<Request>): Trace
    decreases |reqs|
  {
    if reqs == [] then Trace(q, [])
    else
      var h := Step(q, reqs[0]);
      var rest := Run(h.queue, reqs[1..]);
      Trace(rest.queue, Gone(q, reqs[0]) + rest.removed)
  }

  /** The items the `POST` requests of `reqs` accept, in request order. */
  function Accepted(reqs: seq<Request>): (r: seq<QueueItem>)
    ensures forall x :: x in r ==> !Incomplete(x)
  {
    if reqs == [] then []
    else if reqs[0].Post? && !Incomplete(reqs[0].item) then [reqs[0].item] + Accepted(reqs[1..])
    else Accepted(reqs[1..])
  }

  /**
   * FIFO: the removed items followed by what is still queued are exactly the
   * initial queue followed by the accepted items, in order. So items leave
   * in the order they arrived, and nothing is lost or invented.
   */
  lemma {:induction false} RunIsFifo(q: seq<QueueItem>, reqs: seq<Request>)
    ensures Run(q, reqs).removed + Run(q, reqs).queue == q + Accepted(reqs)
    decreases |reqs|
  {
    if reqs != [] {
      var h := Step(q, reqs[0]);
      RunIsFifo(h.queue, reqs[1..]);
      var rest := Run(h.queue, reqs[1..]);
      RunCons(q, reqs);
      match reqs[0]
      case Post(item) =>
        if !Incomplete(item) {
          assert Accepted(reqs) == [item] + Accepted(reqs[1..]);
          assert (q + [item]) + Accepted(reqs[1..]) == q + ([item] + Accepted(reqs[1..]));
        }
      case Get =>
      case Delete =>
        if q != [] {
          assert q == [q[0]] + q[1..];
          assert [q[0]] + (rest.removed + rest.queue) == q + Accepted(reqs[1..]);
        }
    }
  }

  /** The item a request takes off the front of `q`: the head for a `DELETE` on a non-empty queue. */
  function Gone(q: seq<QueueItem>, req: Request): (g: seq<QueueItem>)
    ensures g != [] <==> req.Delete? && q != []
    ensures g != [] ==> g == [q[0]]
  {
    if req.Delete? && q != [] then [q[0]] else []
  }

  /** A rejected `POST` changes nothing for the rest of the run. */
  lemma RejectedPostIsInvisible(q: seq<QueueItem>, item: QueueItem, reqs: seq<Request>)
    requires Incomplete(item)
    ensures Run(q, [Post(item)] + reqs) == Run(q, reqs)
  {
    assert ([Post(item)] + reqs)[1..] == reqs;
  }

  /** Pushing `xs` onto an empty queue and deleting `|xs|` times removes `xs` in order. */
  lemma DrainInOrder(xs: seq<QueueItem>)
    requires forall x :: x in xs ==> !Incomplete(x)
    ensures Run([], Posts(xs) + Deletes(|xs|)) == Trace([], xs)
  {
    RunAppend([], Posts(xs), Deletes(|xs|));
    RunPosts([], xs);
    assert [] + xs == xs;
    RunDeletes(xs, |xs|);
    assert xs[|xs|..] == [] && xs[..|xs|] == xs;
  }

  function Posts(xs: seq<QueueItem>): (r: seq<Request>)
    ensures |r| == |xs| && forall i :: 0 <= i < |xs| ==> r[i] == Post(xs[i])
  {
    seq(|xs|, i requires 0 <= i < |xs| => Post(xs[i]))
  }

  function Deletes(n: nat): (r: seq<Request>)
    ensures |r| == n && forall i :: 0 <= i < n ==> r[i] == Delete
  {
    seq(n, i => Delete)
  }

  /** A run split in two is the second part run on the first part's queue. */
  lemma {:induction false} RunAppend(q: seq<QueueItem>, a: seq<Request>, b: seq<Request>)
    ensures var first := Run(q, a);
      var second := Run(first.queue, b);
      Run(q, a + b) == Trace(second.queue, first.removed + second.removed)
    decreases |a|
  {
    if a != [] {
      assert (a + b)[0] == a[0];
      assert (a + b)[1..] == a[1..] + b;
      var h := Step(q, a[0]);
      RunAppend(h.queue, a[1..], b);
      var gone := Gone(q, a[0]);
      var first := Run(h.queue, a[1..]);
      var second := Run(first.queue, b);
      RunCons(q, a);
      RunCons(q, a + b);
      assert gone + (first.removed + second.removed) == (gone + first.removed) + second.removed;
    } else {
      assert a + b == b;
      assert [] + Run(q, b).removed == Run(q, b).removed;
    }
  }

  /** One unfolding of `Run`. */
  lemma RunCons(q: seq<QueueItem>, reqs: seq<Request>)
    requires reqs != []
    ensures var rest := Run(Step(q, reqs[0]).queue, reqs[1..]);
      Run(q, reqs) == Trace(rest.queue, Gone(q, reqs[0]) + rest.removed)
  {
  }

  lemma {:induction false} RunPosts(q: seq<QueueItem>, xs: seq<QueueItem>)
    requires forall x :: x in xs ==> !Incomplete(x)
    ensures Run(q, Posts(xs)) == Trace(q + xs, [])
    decreases |xs|
  {
    if xs != [] {
      assert xs[0] in xs;
      assert Posts(xs)[1..] == Posts(xs[1..]);
      RunPosts(q + [xs[0]], xs[1..]);
      assert (q + [xs[0]]) + xs[1..] == q + xs;
    }
  }

  lemma {:induction false} RunDeletes(q: seq<QueueItem>, n: nat)
    requires n <= |q|
    ensures Run(q, Deletes(n)) == Trace(q[n..], q[..n])
    decreases n
  {
    if n > 0 {
      assert Deletes(n)[1..] == Deletes(n - 1);
      RunDeletes(q[1..], n - 1);
      assert q[1..][n - 1..] == q[n..];
      assert [q[0]] + q[1..][..n - 1] == q[..n];
    }
  }
}
