/** Values shared by the server router and the client components. */
module Common {

  /** A tweet identifier as the store assigns it (an opaque string). */
  type TweetId = string

  /** A user identifier, as carried by the authenticated session. */
  type UserId = string

  /** A value that may be absent (`undefined` / `null` in the source). */
  datatype Option<+T> = None | Some(value: T)

  /** A value or the error that replaced it. */
  datatype Result<+T, +E> = Ok(value: T) | Err(error: E)

  /** The in-order concatenation of a sequence of sequences (`flatMap` over pages). */
  function Concat<T>(ss: seq<seq<T>>): seq<T>
  {
    if ss == [] then [] else ss[0] + Concat(ss[1..])
  }

  lemma ConcatCons<T>(head: seq<T>, tail: seq<seq<T>>)
    ensures Concat([head] + tail) == head + Concat(tail)
  {
    assert ([head] + tail)[1..] == tail;
  }
}
