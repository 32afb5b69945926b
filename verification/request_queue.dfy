/** Flounder's RequestQueue: resource requests waiting in a list, taken from
    the front in the order they were added. */
module RequestQueues {
  import opened Wrappers

  /** The queue's list, front first. */
  datatype Queue<T> = Queue(items: seq<T>)

  /** acceptNextRequest on an empty queue: `remove(0)` throws
      IndexOutOfBoundsException. */
  datatype QueueEmpty = QueueEmpty

  /** The request taken from the front and the queue left behind. */
  datatype Accepted<T> = Accepted(request: T, rest: Queue<T>)

  /** `new RequestQueue()`. */
  function New<T>(): (q: Queue<T>)
    ensures Count(q) == 0 && !HasRequests(q)
  {
    Queue([])
  }

  /** count(): the number of waiting requests. */
  function Count<T>(q: Queue<T>): nat {
    |q.items|
  }

  /** hasRequests(): the list is not empty. */
  function HasRequests<T>(q: Queue<T>): (b: bool)
    ensures b <==> Count(q) > 0
  {
    q.items != []
  }

  /** addRequest: the request goes to the back, the others keep their
      places. */
  function Add<T>(q: Queue<T>, request: T): (r: Queue<T>)
    ensures Count(r) == Count(q) + 1
    ensures r.items[..Count(q)] == q.items && r.items[Count(q)] == request
    ensures HasRequests(r)
  {
    Queue(q.items + [request])
  }

  /** acceptNextRequest: the front request, and the queue without it. */
  function Accept<T>(q: Queue<T>): (r: Result<Accepted<T>, QueueEmpty>)
    ensures r.Err? <==> !HasRequests(q)
    ensures r.Ok? ==> [r.value.request] + r.value.rest.items == q.items
    ensures r.Ok? ==> Count(r.value.rest) == Count(q) - 1
  {
    if q.items == [] then Err(QueueEmpty)
    else Ok(Accepted(q.items[0], Queue(q.items[1..])))
  }

  /** clear(). */
  function Clear<T>(q: Queue<T>): (r: Queue<T>)
    ensures Count(r) == 0 && !HasRequests(r)
  {
    Queue([])
  }

  /** addRequest for each of `requests`, in order. */
  function AddAll<T>(q: Queue<T>, requests: seq<T>): (r: Queue<T>)
    ensures r.items == q.items + requests
    ensures Count(r) == Count(q) + |requests|
    decreases |requests|
  {
    if |requests| == 0 then q
    else
      var r := AddAll(Add(q, requests[0]), requests[1..]);
      assert q.items + [requests[0]] + requests[1..] == q.items + requests;
      r
  }

  /** The consumer's loop: accept while hasRequests, collecting what comes
      out. */
  method Drain<T>(q: Queue<T>) returns (taken: seq<T>, left: Queue<T>)
    ensures taken == q.items
    ensures !HasRequests(left)
  {
    taken := [];
    left := q;
    while HasRequests(left)
      invariant taken + left.items == q.items
      decreases Count(left)
    {
      var next := Accept(left);
      assert next.Ok?;
      taken := taken + [next.value.request];
      left := next.value.rest;
    }
  }

  // ---------------------------------------------------------------------
  // Properties
  // ---------------------------------------------------------------------

  /** First in, first out: accepting after an add takes the same request as
      before the add, and the new request waits at the back of the rest. */
  lemma AcceptAfterAdd<T>(q: Queue<T>, request: T)
    requires HasRequests(q)
    ensures Accept(Add(q, request)).Ok?
    ensures Accept(Add(q, request)).value.request == Accept(q).value.request
    ensures Accept(Add(q, request)).value.rest == Add(Accept(q).value.rest, request)
  {
    assert (q.items + [request])[1..] == q.items[1..] + [request];
  }

  /** On an empty queue the added request is the next one accepted, and the
      queue is empty again. */
  lemma AcceptOnlyRequest<T>(q: Queue<T>, request: T)
    requires !HasRequests(q)
    ensures Accept(Add(q, request)) == Ok(Accepted(request, New()))
  {
    assert q.items == [];
  }

  /** Requests added to a new queue come out in the order they went in. */
  method AddThenDrain<T>(requests: seq<T>) returns (taken: seq<T>)
    ensures taken == requests
  {
    var q := AddAll(New(), requests);
    var left;
    taken, left := Drain(q);
  }

  /** Clearing forgets everything: a cleared queue is a new one. */
  lemma ClearIsNew<T>(q: Queue<T>)
    ensures Clear(q) == New()
    ensures Accept(Clear(q)).Err?
  {
  }
}
