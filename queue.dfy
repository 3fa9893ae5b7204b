/** The unbounded FIFO queue of queue.py: a named list of items, oldest to
    newest, consumed from the front. */
module Queues {
  import opened Failures

  /** The value of a queue at one moment: its items oldest to newest. The
      member functions say what each operation does to that value; the class
      Queue below is proved to behave as they say. */
  datatype QueueState<T> = QueueState(items: seq<T>)
  {
    /** enqueue: never refuses; the item joins at the rear. */
    function Enqueue(item: T): QueueState<T>
    {
      QueueState(items + [item])
    }

    /** dequeue: refuses on an empty queue; otherwise removes and yields the
        front item. */
    function Dequeue(): (QueueState<T>, Result<T>)
    {
      if |items| == 0 then (this, Err(Empty))
      else (QueueState(items[1..]), Ok(items[0]))
    }

    /** peek: refuses on an empty queue; otherwise yields the front item. */
    function Peek(): Result<T>
    {
      if |items| == 0 then Err(Empty) else Ok(items[0])
    }

    /** clear: discards every item. */
    function Clear(): QueueState<T>
    {
      QueueState([])
    }

    /** The state after enqueuing xs[0], xs[1], ... in that order. */
    function EnqueueAll(xs: seq<T>): QueueState<T>
      decreases |xs|
    {
      if xs == [] then this else Enqueue(xs[0]).EnqueueAll(xs[1..])
    }

    /** Dequeues n times, stopping at the first refusal; yields the state
        after the dequeues and the items in the order they came out. */
    function DequeueN(n: nat): (QueueState<T>, seq<T>)
      decreases n
    {
      if n == 0 then (this, [])
      else
        match Dequeue()
        case (rest, Ok(x)) =>
          var (after, taken) := rest.DequeueN(n - 1);
          (after, [x] + taken)
        case (_, Err(_)) => (this, [])
    }
  }

  /** Enqueuing puts the new items behind the ones already waiting, in the
      order they were enqueued. */
  lemma {:induction false} EnqueueAllAppends<T>(q: QueueState<T>, xs: seq<T>)
    ensures q.EnqueueAll(xs) == QueueState(q.items + xs)
    decreases |xs|
  {
    if xs != [] {
      EnqueueAllAppends(q.Enqueue(xs[0]), xs[1..]);
      assert q.items + [xs[0]] + xs[1..] == q.items + xs;
    }
  }

  /** Dequeuing n times from a queue of at least n items yields its first n
      items, front first, and leaves the rest in order. */
  lemma {:induction false} DequeueNTakesFront<T>(q: QueueState<T>, n: nat)
    requires n <= |q.items|
    ensures q.DequeueN(n) == (QueueState(q.items[n..]), q.items[..n])
    decreases n
  {
    if n > 0 {
      var rest := QueueState(q.items[1..]);
      DequeueNTakesFront(rest, n - 1);
      assert rest.items[n - 1..] == q.items[n..];
      assert [q.items[0]] + rest.items[..n - 1] == q.items[..n];
    }
  }

  /** FIFO order: after enqueuing xs, dequeuing until the queue is empty
      yields the items that were waiting and then xs, each in arrival order.
      From an empty queue, enqueuing x1..xn and dequeuing n times yields
      x1..xn. */
  lemma FifoOrder<T>(q: QueueState<T>, xs: seq<T>)
    ensures q.EnqueueAll(xs).DequeueN(|q.items| + |xs|) == (QueueState([]), q.items + xs)
  {
    EnqueueAllAppends(q, xs);
    DequeueNTakesFront(QueueState(q.items + xs), |q.items| + |xs|);
    assert (q.items + xs)[|q.items| + |xs|..] == [];
    assert (q.items + xs)[..|q.items| + |xs|] == q.items + xs;
  }

  /** Enqueuing never changes which item is at the front of a non-empty
      queue: dequeue after enqueue yields the same item as dequeue before. */
  lemma EnqueueKeepsFront<T>(q: QueueState<T>, x: T)
    requires |q.items| > 0
    ensures q.Enqueue(x).Dequeue().1 == q.Dequeue().1
    ensures q.Enqueue(x).Dequeue().0 == q.Dequeue().0.Enqueue(x)
  {
    assert (q.items + [x])[1..] == q.items[1..] + [x];
  }

  /** A named FIFO queue with no capacity limit. The Python list behind it
      is the field items, oldest to newest, which the methods reassign. */
  class Queue<T> {
    var items: seq<T>
    var name: string

    /** The value this queue stands for. */
    ghost function State(): QueueState<T>
      reads this
    {
      QueueState(items)
    }

    /** A new queue is empty and records its name. */
    constructor (name: string := "Queue")
      ensures items == [] && this.name == name
      ensures State() == QueueState([])
    {
      this.items := [];
      this.name := name;
    }

    /** Adds item at the rear; never fails. */
    method Enqueue(item: T)
      modifies this`items
      ensures items == old(items) + [item]
      ensures State() == old(State()).Enqueue(item)
    {
      items := items + [item];
    }

    /** Removes and returns the oldest item, or fails with Empty and changes
        nothing when the queue is empty. */
    method Dequeue() returns (r: Result<T>)
      modifies this`items
      ensures r.Ok? <==> old(|items|) > 0
      ensures r.Ok? ==> r.value == old(items)[0] && items == old(items)[1..]
      ensures r.Err? ==> r.error == Empty && items == old(items)
      ensures (State(), r) == old(State()).Dequeue()
    {
      var empty := IsEmpty();
      if empty {
        return Err(Empty);
      }
      r := Ok(items[0]);
      items := items[1..];
    }

    /** Returns the oldest item without removing it, or fails with Empty
        when the queue is empty. */
    method Peek() returns (r: Result<T>)
      ensures r.Ok? <==> |items| > 0
      ensures r.Ok? ==> r.value == items[0]
      ensures r.Err? ==> r.error == Empty
      ensures r == State().Peek()
    {
      var empty := IsEmpty();
      if empty {
        return Err(Empty);
      }
      r := Ok(items[0]);
    }

    /** True exactly when the queue holds no item. */
    method IsEmpty() returns (empty: bool)
      ensures empty <==> |items| == 0
      ensures empty <==> State().Dequeue().1.Err?
    {
      empty := |items| == 0;
    }

    /** The number of items waiting. */
    method Size() returns (n: nat)
      ensures n == |items|
    {
      n := |items|;
    }

    /** Discards every item; the name stays. */
    method Clear()
      modifies this`items
      ensures items == []
      ensures State() == old(State()).Clear()
    {
      items := [];
    }

    /** A copy of the items, oldest to newest. The copy is a value: later
        changes to the queue do not reach it. */
    method GetItems() returns (r: seq<T>)
      ensures r == items
    {
      r := items;
    }
  }
}
