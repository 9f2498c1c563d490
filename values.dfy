/** The values the store model passes around: JavaScript values as far as the
    store inspects them, subscriber callbacks as opaque tokens, the record of
    one callback invocation, and how an operation completed. */
module Values {

  /** A JavaScript value as far as a store looks into it. `Atom` stands for any
      value whose inside the store never inspects; `List` is an array; `Indexed`
      is the `{ value, idx }` object that the list events carry. */
  datatype Value =
    | Undefined
    | Null
    | Atom(id: int)
    | List(items: seq<Value>)
    | Indexed(value: Value, idx: int)

  /** A subscriber callback `(value: unknown) => void`, as an opaque token. */
  datatype Subscriber = Subscriber(id: nat)

  /** One invocation of a subscriber with the value it was passed. */
  datatype Call = Call(fn: Subscriber, arg: Value)

  /** How an operation completed: normally, or by throwing the named error. */
  datatype Outcome = Ok | RangeError | TypeError

  /** Event channels are named by arbitrary strings ("update", "push", ...). */
  type EventType = string

  datatype Option<T> = None | Some(value: T)
}
