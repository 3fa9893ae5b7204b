# Restaurant queue management: the container layer

This project models the two containers that the restaurant simulation is built on:

- `Stack` (stack.py): a named LIFO stack with a fixed capacity `maxSize`. The simulation uses it for station slots, the reserve buffer and order references. `push` refuses to go beyond capacity. `pop` and `peek` refuse to work on an empty stack.
- `Queue` (queue.py): a named FIFO queue with no capacity limit. The simulation uses it for the customer line and the ingredient conveyor belt. `dequeue` and `peek` refuse to work on an empty queue.

Each container wraps one private Python list that its methods change in place. In Dafny each is a class (`Stacks.Stack`, `Queues.Queue`). The list is a `seq` field `items`, which the methods reassign. Every mutating method says exactly what `items` is afterwards.

Each class is also tied to a value model: `Stacks.StackState` or `Queues.QueueState`. This is a datatype whose member functions give the state after each operation. The constructors, the mutating methods (`Push`, `Pop`, `Clear`, `Enqueue`, `Dequeue`), `Peek`, `IsEmpty` and `IsFull` each have an `ensures` that matches them to the value model, for example `(State(), r) == old(State()).Pop()`. `Size` and `GetItems` are stated directly on `items`. The properties that span several operations are lemmas about the value model: the capacity bound over any run of operations, LIFO order and FIFO order.

A raised exception is modelled as a failure value. `Failures.Outcome` is `Pass | Fail(error)` and `Failures.Result<T>` is `Ok(value) | Err(error)`. The error is `Full` or `Empty`. Python raises before it touches the list, so a failed operation leaves the contents unchanged, and every contract says so.

`getItems` returns a copy of the list. A Dafny `seq` is a value, so the copy that `GetItems` returns cannot be changed by later operations on the container.

`push` refuses whenever the stack holds `maxSize` items or more (`len(items) >= maxSize`, stack.py:41-43), not only when it holds exactly `maxSize`. `maxSize` can be any integer, so it is modelled as an `int`; with `maxSize <= 0` a new stack already refuses every push.

## Model

| member | source | states |
|---|---|---|
| `Stacks.Stack.constructor` | stack.py:13-17 | a new stack is empty and records the given name and `maxSize` (its value is `StackState([], maxSize)`); it is within capacity whenever `maxSize` is not negative |
| `Stacks.Stack.Push` | stack.py:19-23 | fails with `Full` exactly when the stack holds `maxSize` items or more, and then leaves the items unchanged; otherwise the items become `old(items) + [item]`; it keeps the stack within capacity; it agrees with `StackState.Push` |
| `Stacks.Stack.Pop` | stack.py:25-29 | fails with `Empty` exactly when the stack is empty, and then leaves it unchanged; otherwise it returns the last item and leaves every item before it |
| `Stacks.Stack.Peek` | stack.py:31-35 | fails with `Empty` exactly when the stack is empty; otherwise it returns the top item `items[|items|-1]`; it modifies nothing |
| `Stacks.Stack.IsEmpty` | stack.py:37-39 | true exactly when the stack holds no item, which is exactly when pop would fail |
| `Stacks.Stack.IsFull` | stack.py:41-43 | true exactly when the size is at least `maxSize`, and exactly when pushing any item would fail with `Full` |
| `Stacks.Stack.Size` | stack.py:45-47 | returns the number of items held |
| `Stacks.Stack.Clear` | stack.py:49-51 | the stack becomes empty; the capacity and name stay |
| `Stacks.Stack.GetItems` | stack.py:53-55 | returns exactly the items, bottom to top, as a value that later mutations of the stack cannot change |
| `Stacks.PushThenPop` | stack.py:19-29 | on a stack that is not full, push appends the item and grows the size by exactly one; a pop straight after returns that item and restores the original stack |
| `Stacks.RunKeepsCapacity` | stack.py:19-51 | from a stack with size at most `maxSize`, any sequence of push, pop, peek and clear leaves the size at most `maxSize`, and the capacity unchanged |
| `Stacks.PushAllAppends` | stack.py:19-23 | pushing items for which there is room puts them on top, in push order |
| `Stacks.PopNAfterPush` | stack.py:19-29 | popping n + 1 times just after a successful push returns the pushed item first and then exactly what n pops of the earlier stack return, leaving the same stack |
| `Stacks.LifoOrder` | stack.py:19-29 | after items are pushed onto a stack with room for them, popping as many times returns them last-pushed first and restores the original stack |
| `Queues.Queue.constructor` | queue.py:13-16 | a new queue is empty (its value is `QueueState([])`) and records its name, `"Queue"` by default |
| `Queues.Queue.Enqueue` | queue.py:18-20 | always succeeds, and the items become `old(items) + [item]` |
| `Queues.Queue.Dequeue` | queue.py:22-26 | fails with `Empty` exactly when the queue is empty, and then leaves it unchanged; otherwise it returns `old(items)[0]` and leaves `old(items)[1..]` |
| `Queues.Queue.Peek` | queue.py:28-32 | fails with `Empty` exactly when the queue is empty; otherwise it returns the front item `items[0]`; it modifies nothing |
| `Queues.Queue.IsEmpty` | queue.py:34-36 | true exactly when the queue holds no item, which is exactly when dequeue would fail |
| `Queues.Queue.Size` | queue.py:38-40 | returns the number of items waiting |
| `Queues.Queue.Clear` | queue.py:42-44 | the queue becomes empty |
| `Queues.Queue.GetItems` | queue.py:54-56 | returns exactly the items, oldest to newest, as a value that later mutations of the queue cannot change |
| `Queues.EnqueueAllAppends` | queue.py:18-20 | enqueuing items puts them behind those already waiting, in enqueue order |
| `Queues.DequeueNTakesFront` | queue.py:22-26 | dequeuing n times from a queue of at least n items returns its first n items, front first, and leaves the rest in order |
| `Queues.FifoOrder` | queue.py:18-26 | after `xs` is enqueued, dequeuing until empty returns the items already waiting and then `xs`, each in arrival order; from an empty queue, enqueuing x1..xn and dequeuing n times returns x1..xn |
| `Queues.EnqueueKeepsFront` | queue.py:18-26 | on a non-empty queue, enqueuing does not change the front: dequeue after enqueue returns the same item as dequeue before, and leaves the same queue with the new item at the rear |

## Left out

- `Queue.show` (queue.py:46-48) is not modelled. It prints the list to standard output, which is pure I/O.
- `Queue.__str__` (queue.py:50-52) is not modelled. It depends on how Python formats a list as text.
- The message texts of the raised exceptions are not modelled. The model keeps only the fact of failure and its kind (`Full` or `Empty`).
- The `name` field is carried along, but no property depends on it.
- The cost of `pop(0)` in `dequeue` is not modelled. It is a performance detail, not behaviour.
- The model covers only operations that run to completion. Nothing else writes to the container, which matches the simulation's single-threaded use. Outside code could reassign the public `maxSize` attribute, and the model leaves that out.
- The simulation built on these containers is not part of this model. That covers ingredient routing, station matching, priority rotation, parsing of the customer and ingredient files, shuffling of the belt, terminal rendering and session logging. Its source files are not among those modelled here.
