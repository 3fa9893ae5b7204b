/** The two ways a container operation can refuse to work. Each stands for
    one of the exceptions the containers raise; the text of the message is
    not modelled. */
module Failures {

  /** Full: push onto a stack at capacity. Empty: pop, peek or dequeue on an
      empty container. */
  datatype ContainerError = Full | Empty

  /** The result of an operation that returns an item or raises. */
  datatype Result<T> = Ok(value: T) | Err(error: ContainerError)

  /** The result of an operation that returns nothing or raises. */
  datatype Outcome = Pass | Fail(error: ContainerError)
}
