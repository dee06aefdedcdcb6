/**
 * The bounded ring buffer shared by the crawlers and the classifier
 * (class Buffer in main.cpp). The buffer itself is a class over a fixed
 * array with wraparound cursors; its abstract view is a sequence, and the
 * pure functions EnqueueSpec and DequeueSpec give the meaning of one call
 * on that sequence. The lemmas about traces of calls (FIFO order, size
 * bounds, occupancy) are stated on those functions.
 */
module Ring {
  import opened Wrappers

  /** BUFFER_SIZE: the capacity of the shared buffer. */
  const BufferSize: nat := 12

  /** Abstract effect of `enqueue`: append at the tail, or nothing when full. */
  function EnqueueSpec<T>(q: seq<T>, x: T): (q': seq<T>)
    ensures q' == q <==> |q| == BufferSize
    ensures q' != q ==> q' == q + [x]
    ensures |q| <= BufferSize ==> |q'| <= BufferSize
  {
    if |q| == BufferSize then q else q + [x]
  }

  /** Abstract effect of `dequeue`: the head and the rest, or NULL and nothing when empty. */
  function DequeueSpec<T>(q: seq<T>): (r: (Option<T>, seq<T>))
    ensures r.0 == None <==> q == []
    ensures r.0 == None ==> r.1 == q
    ensures r.0.Some? ==> [r.0.value] + r.1 == q
  {
    if |q| == 0 then (None, q) else (Some(q[0]), q[1..])
  }

  /** One buffer call, as performed under the mutex by a crawler or the classifier. */
  datatype Op<T> = Enq(item: T) | Deq

  /** The items a trace of calls offers to the buffer, in order. */
  function Offered<T>(ops: seq<Op<T>>): seq<T>
  {
    if ops == [] then []
    else (if ops[0].Enq? then [ops[0].item] else []) + Offered(ops[1..])
  }

  /** Number of `dequeue` calls in a trace. */
  function Dequeues<T>(ops: seq<Op<T>>): nat
  {
    if ops == [] then 0 else (if ops[0].Deq? then 1 else 0) + Dequeues(ops[1..])
  }

  /**
   * Runs a trace of calls from contents q; yields the items the dequeues
   * returned (NULL results are dropped) and the final contents.
   */
  function Run<T>(q: seq<T>, ops: seq<Op<T>>): (r: (seq<T>, seq<T>))
    ensures |r.0| <= Dequeues(ops)
    ensures |q| <= BufferSize ==> |r.1| <= BufferSize
    decreases |ops|
  {
    if ops == [] then ([], q)
    else match ops[0]
      case Enq(x) => Run(EnqueueSpec(q, x), ops[1..])
      case Deq =>
        var (r, q') := DequeueSpec(q);
        var (out, fin) := Run(q', ops[1..]);
        ((if r.Some? then [r.value] else []) + out, fin)
  }

  /**
   * The trace respects capacity: no enqueue meets a full buffer and no
   * dequeue meets an empty one (what the two semaphores guarantee).
   */
  predicate Respects<T>(q: seq<T>, ops: seq<Op<T>>)
    decreases |ops|
  {
    ops == [] ||
    match ops[0]
    case Enq(x) => |q| < BufferSize && Respects(q + [x], ops[1..])
    case Deq => |q| > 0 && Respects(q[1..], ops[1..])
  }

  /** Every call keeps the contents within capacity, whatever the trace. */
  lemma {:induction false} RunKeepsBound<T>(q: seq<T>, ops: seq<Op<T>>)
    requires |q| <= BufferSize
    ensures |Run(q, ops).1| <= BufferSize
    decreases |ops|
  {
    if ops != [] {
      match ops[0]
      case Enq(x) => RunKeepsBound(EnqueueSpec(q, x), ops[1..]);
      case Deq => RunKeepsBound(DequeueSpec(q).1, ops[1..]);
    }
  }

  /**
   * FIFO: on a trace that respects capacity, the items dequeued followed by
   * what is left are exactly the initial contents followed by the items
   * enqueued, in order; so items come out in the order they went in, and
   * none is lost or duplicated.
   */
  lemma {:induction false} FifoOrder<T>(q: seq<T>, ops: seq<Op<T>>)
    requires Respects(q, ops)
    ensures Run(q, ops).0 + Run(q, ops).1 == q + Offered(ops)
    decreases |ops|
  {
    if ops != [] {
      match ops[0]
      case Enq(x) =>
        FifoOrder(q + [x], ops[1..]);
        assert q + [x] + Offered(ops[1..]) == q + ([x] + Offered(ops[1..]));
      case Deq =>
        FifoOrder(q[1..], ops[1..]);
        assert q == [q[0]] + q[1..];
        assert [q[0]] + Run(q[1..], ops[1..]).0 + Run(q[1..], ops[1..]).1
            == [q[0]] + (Run(q[1..], ops[1..]).0 + Run(q[1..], ops[1..]).1);
    }
  }

  /**
   * Occupancy: on a trace that respects capacity, every dequeue returns an
   * item, and the final count is the initial count plus enqueues minus dequeues.
   */
  lemma {:induction false} Occupancy<T>(q: seq<T>, ops: seq<Op<T>>)
    requires Respects(q, ops)
    ensures |Run(q, ops).0| == Dequeues(ops)
    ensures |Run(q, ops).1| == |q| + |Offered(ops)| - Dequeues(ops)
    decreases |ops|
  {
    if ops != [] {
      match ops[0]
      case Enq(x) => Occupancy(q + [x], ops[1..]);
      case Deq => Occupancy(q[1..], ops[1..]);
    }
  }

  /**
   * The ring buffer of main.cpp. `articles` is the fixed array of item
   * handles, `front` the slot of the head, `rear` the slot of the tail
   * (-1 before the first enqueue) and `size` the number of items held.
   */
  class Buffer<T(0)> {
    var articles: array<T>
    var capacity: int
    var size: int
    var front: int
    var rear: int

    /** The items held, head first. */
    ghost var Contents: seq<T>

    ghost predicate Valid()
      reads this, articles
    {
      && capacity == BufferSize
      && articles.Length == capacity
      && 0 <= size <= capacity
      && 0 <= front < capacity
      && -1 <= rear < capacity
      && (rear + 1) % capacity == Wrap(front + size)
      && |Contents| == size
      && forall k :: 0 <= k < size ==> Contents[k] == articles[Wrap(front + k)]
    }

    constructor ()
      ensures Valid() && fresh(articles)
      ensures Contents == []
      ensures size == 0 && front == 0 && rear == -1
    {
      articles := new T[BufferSize];
      capacity := BufferSize;
      size := 0;
      front := 0;
      rear := -1;
      Contents := [];
    }

    /** `full()`: no slot is free. */
    function Full(): (r: bool)
      reads this, articles
      requires Valid()
      ensures r <==> |Contents| == BufferSize
    {
      size == capacity
    }

    /** `empty()`: no item is held. */
    function Empty(): (r: bool)
      reads this, articles
      requires Valid()
      ensures r <==> Contents == []
    {
      size == 0
    }

    /**
     * `enqueue`: on a buffer with a free slot the item goes into the slot
     * after `rear` and becomes the new tail; on a full buffer nothing changes.
     */
    method Enqueue(article: T)
      requires Valid()
      modifies this, articles
      ensures Valid() && articles == old(articles)
      ensures Contents == EnqueueSpec(old(Contents), article)
      ensures old(size) == capacity ==> unchanged(this) && unchanged(articles)
      ensures old(size) < capacity ==>
        && rear == (old(rear) + 1) % capacity && articles[rear] == article
        && size == old(size) + 1 && front == old(front)
        && forall k :: 0 <= k < capacity && k != rear ==> articles[k] == old(articles[k])
    {
      if Full() { return; }
      rear := (rear + 1) % capacity;
      articles[rear] := article;
      size := size + 1;
      Contents := Contents + [article];
    }

    /**
     * `dequeue`: on a non-empty buffer returns the item at `front` and
     * advances `front`; on an empty buffer returns NULL and changes nothing.
     * The array itself is never written.
     */
    method Dequeue() returns (r: Option<T>)
      requires Valid()
      modifies this
      ensures Valid() && articles == old(articles) && unchanged(articles)
      ensures (r, Contents) == DequeueSpec(old(Contents))
      ensures old(size) == 0 ==> unchanged(this)
      ensures old(size) > 0 ==>
        && front == (old(front) + 1) % capacity
        && size == old(size) - 1 && rear == old(rear)
    {
      if Empty() { return None; }
      var article := articles[front];
      front := (front + 1) % capacity;
      size := size - 1;
      Contents := Contents[1..];
      return Some(article);
    }
  }

  /**
   * The array slot of the k-th position counted from slot 0, for the
   * positions a cursor plus an offset can reach (below twice the capacity).
   */
  function Wrap(i: int): (slot: int)
    requires 0 <= i < 2 * BufferSize
    ensures 0 <= slot < BufferSize && slot == i % BufferSize
  {
    if i < BufferSize then i else i - BufferSize
  }
}
