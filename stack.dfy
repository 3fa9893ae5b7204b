/** The bounded LIFO stack of stack.py: a named list of items, bottom to top,
    with a capacity maxSize that push refuses to exceed. */
module Stacks {
  import opened Failures

  /** The value of a stack at one moment: its items bottom to top and its
      capacity. The member functions say what each operation does to that
      value; the class Stack below is proved to behave as they say. */
  datatype StackState<T> = StackState(items: seq<T>, maxSize: int)
  {
    /** push: refuses once the stack holds maxSize items or more, and then
        leaves it as it was; otherwise the item goes on top. */
    function Push(item: T): (StackState<T>, Outcome)
    {
      if |items| >= maxSize then (this, Fail(Full))
      else (this.(items := items + [item]), Pass)
    }

    /** pop: refuses on an empty stack; otherwise removes and yields the top. */
    function Pop(): (StackState<T>, Result<T>)
    {
      if |items| == 0 then (this, Err(Empty))
      else (this.(items := items[..|items| - 1]), Ok(items[|items| - 1]))
    }

    /** peek: refuses on an empty stack; otherwise yields the top. */
    function Peek(): Result<T>
    {
      if |items| == 0 then Err(Empty) else Ok(items[|items| - 1])
    }

    /** clear: discards every item and keeps the capacity. */
    function Clear(): StackState<T>
    {
      this.(items := [])
    }

    /** The state after one operation, whether it succeeds or refuses. */
    function Apply(op: StackOp<T>): StackState<T>
    {
      match op
      case PushOp(x) => Push(x).0
      case PopOp => Pop().0
      case PeekOp => this
      case ClearOp => Clear()
    }

    /** The state after a sequence of operations, first to last. */
    function Run(ops: seq<StackOp<T>>): StackState<T>
      decreases |ops|
    {
      if ops == [] then this else Apply(ops[0]).Run(ops[1..])
    }

    /** The state after pushing xs[0], xs[1], ... in that order. */
    function PushAll(xs: seq<T>): StackState<T>
      decreases |xs|
    {
      if xs == [] then this else PushAll(xs[..|xs| - 1]).Push(xs[|xs| - 1]).0
    }

    /** Pops n times, stopping at the first refusal; yields the state after
        the pops and the popped items in the order they came off. */
    function PopN(n: nat): (StackState<T>, seq<T>)
      decreases n
    {
      if n == 0 then (this, [])
      else
        match Pop()
        case (rest, Ok(x)) =>
          var (after, popped) := rest.PopN(n - 1);
          (after, [x] + popped)
        case (_, Err(_)) => (this, [])
    }
  }

  /** The operations that change, or may change, a stack's state. */
  datatype StackOp<T> = PushOp(item: T) | PopOp | PeekOp | ClearOp

  /** On a stack that is not full, push puts the item on top and grows the
      stack by one; popping straight after yields that item and restores the
      stack as it was. */
  lemma PushThenPop<T>(s: StackState<T>, x: T)
    requires |s.items| < s.maxSize
    ensures s.Push(x) == (StackState(s.items + [x], s.maxSize), Pass)
    ensures |s.Push(x).0.items| == |s.items| + 1
    ensures s.Push(x).0.Pop() == (s, Ok(x))
  {
    assert (s.items + [x])[..|s.items|] == s.items;
  }

  /** Capacity is never exceeded: from a stack within its capacity, any
      sequence of operations leaves a stack within the same capacity. */
  lemma {:induction false} RunKeepsCapacity<T>(s: StackState<T>, ops: seq<StackOp<T>>)
    requires |s.items| <= s.maxSize
    ensures s.Run(ops).maxSize == s.maxSize
    ensures |s.Run(ops).items| <= s.maxSize
    decreases |ops|
  {
    if ops != [] {
      RunKeepsCapacity(s.Apply(ops[0]), ops[1..]);
    }
  }

  /** Pushing items for which there is room puts them on top in order. */
  lemma {:induction false} PushAllAppends<T>(s: StackState<T>, xs: seq<T>)
    requires |s.items| + |xs| <= s.maxSize
    ensures s.PushAll(xs) == StackState(s.items + xs, s.maxSize)
    decreases |xs|
  {
    if xs != [] {
      var init, last := xs[..|xs| - 1], xs[|xs| - 1];
      PushAllAppends(s, init);
      assert s.items + init + [last] == s.items + xs;
    }
  }

  /** Popping n + 1 times just after a successful push yields the pushed
      item first, then what n pops of the earlier stack yield. */
  lemma PopNAfterPush<T>(s: StackState<T>, x: T, n: nat)
    requires |s.items| < s.maxSize
    ensures s.Push(x).0.PopN(n + 1) == (s.PopN(n).0, [x] + s.PopN(n).1)
  {
    PushThenPop(s, x);
  }

  /** LIFO order: after pushing xs onto a stack with room for them, popping
      |xs| times yields xs last-pushed first and restores the stack. */
  lemma {:induction false} LifoOrder<T>(s: StackState<T>, xs: seq<T>)
    requires |s.items| + |xs| <= s.maxSize
    ensures s.PushAll(xs).PopN(|xs|).0 == s
    ensures |s.PushAll(xs).PopN(|xs|).1| == |xs|
    ensures forall k :: 0 <= k < |xs| ==> s.PushAll(xs).PopN(|xs|).1[k] == xs[|xs| - 1 - k]
    decreases |xs|
  {
    if xs != [] {
      var init, last := xs[..|xs| - 1], xs[|xs| - 1];
      var t := s.PushAll(init);
      assert s.PushAll(xs) == t.Push(last).0;
      PushAllAppends(s, init);
      PopNAfterPush(t, last, |init|);
      LifoOrder(s, init);
      var earlier := t.PopN(|init|).1;
      var popped := [last] + earlier;
      assert s.PushAll(xs).PopN(|xs|) == (s, popped);
      forall k | 0 <= k < |xs|
        ensures popped[k] == xs[|xs| - 1 - k]
      {
        if k > 0 {
          assert popped[k] == earlier[k - 1] == init[|init| - 1 - (k - 1)];
        }
      }
    }
  }

  /** A named stack with a fixed capacity. The Python list behind it is the
      field items, bottom to top, which the methods reassign. */
  class Stack<T> {
    var items: seq<T>
    var name: string
    var maxSize: int

    /** The value this stack stands for. */
    ghost function State(): StackState<T>
      reads this
    {
      StackState(items, maxSize)
    }

    /** The stack holds no more than its capacity. */
    ghost predicate WithinCapacity()
      reads this
    {
      |items| <= maxSize
    }

    /** A new stack is empty and records its name and capacity. */
    constructor (name: string, maxSize: int)
      ensures items == [] && this.name == name && this.maxSize == maxSize
      ensures 0 <= maxSize ==> WithinCapacity()
      ensures State() == StackState([], maxSize)
    {
      this.items := [];
      this.name := name;
      this.maxSize := maxSize;
    }

    /** Puts item on top, or fails with Full and changes nothing when the
        stack already holds maxSize items or more. */
    method Push(item: T) returns (outcome: Outcome)
      modifies this`items
      ensures outcome == Fail(Full) <==> old(|items|) >= maxSize
      ensures outcome == Pass <==> old(|items|) < maxSize
      ensures outcome == Pass ==> items == old(items) + [item]
      ensures outcome != Pass ==> items == old(items)
      ensures old(WithinCapacity()) ==> WithinCapacity()
      ensures (State(), outcome) == old(State()).Push(item)
    {
      var full := IsFull();
      if full {
        return Fail(Full);
      }
      items := items + [item];
      outcome := Pass;
    }

    /** Removes and returns the most recently pushed item, or fails with
        Empty and changes nothing when the stack is empty. */
    method Pop() returns (r: Result<T>)
      modifies this`items
      ensures r.Ok? <==> old(|items|) > 0
      ensures r.Ok? ==> r.value == old(items)[old(|items|) - 1] && items == old(items)[..old(|items|) - 1]
      ensures r.Err? ==> r.error == Empty && items == old(items)
      ensures old(WithinCapacity()) ==> WithinCapacity()
      ensures (State(), r) == old(State()).Pop()
    {
      var empty := IsEmpty();
      if empty {
        return Err(Empty);
      }
      r := Ok(items[|items| - 1]);
      items := items[..|items| - 1];
    }

    /** Returns the top item without removing it, or fails with Empty when
        the stack is empty. */
    method Peek() returns (r: Result<T>)
      ensures r.Ok? <==> |items| > 0
      ensures r.Ok? ==> r.value == items[|items| - 1]
      ensures r.Err? ==> r.error == Empty
      ensures r == State().Peek()
    {
      var empty := IsEmpty();
      if empty {
        return Err(Empty);
      }
      r := Ok(items[|items| - 1]);
    }

    /** True exactly when the stack holds no item. */
    method IsEmpty() returns (empty: bool)
      ensures empty <==> |items| == 0
      ensures empty <==> State().Pop().1.Err?
    {
      empty := |items| == 0;
    }

    /** True exactly when push would be refused. */
    method IsFull() returns (full: bool)
      ensures full <==> |items| >= maxSize
      ensures forall x: T :: full <==> State().Push(x).1 == Fail(Full)
    {
      full := |items| >= maxSize;
    }

    /** The number of items held. */
    method Size() returns (n: nat)
      ensures n == |items|
    {
      n := |items|;
    }

    /** Discards every item; the capacity and name stay. */
    method Clear()
      modifies this`items
      ensures items == []
      ensures State() == old(State()).Clear()
    {
      items := [];
    }

    /** A copy of the items, bottom to top. The copy is a value: later
        changes to the stack do not reach it. */
    method GetItems() returns (r: seq<T>)
      ensures r == items
    {
      r := items;
    }
  }
}
