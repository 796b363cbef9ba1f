/** The queue of `detail/queue.hpp`: messages wait for handlers or handlers wait for messages.
    The critical sections of `push` and `async_pop` are atomic; the closure they may produce is
    posted only after the lock is released. */
module DeliveryQueue {

  datatype Option<T> = None | Some(value: T)

  datatype Contents<M, H> = Contents(messages: seq<M>, handlers: seq<H>)

  datatype Closure<M, H> = Closure(handler: H, message: M)

  /** The critical section of `push`. */
  function PushLocked<M, H>(q: Contents<M, H>, m: M): (Contents<M, H>, Option<Closure<M, H>>) {
    if q.handlers == [] then (q.(messages := q.messages + [m]), None)
    else (q.(handlers := q.handlers[1..]), Some(Closure(q.handlers[0], m)))
  }

  /** The critical section of `async_pop`. */
  function PopLocked<M, H>(q: Contents<M, H>, h: H): (Contents<M, H>, Option<Closure<M, H>>) {
    if q.messages == [] then (q.(handlers := q.handlers + [h]), None)
    else (q.(messages := q.messages[1..]), Some(Closure(h, q.messages[0])))
  }

  class Queue<M(==), H(==)> {
    var messages: seq<M>
    var handlers: seq<H>

    constructor ()
      ensures Value() == Contents([], [])
    {
      messages, handlers := [], [];
    }

    function Value(): Contents<M, H>
      reads this
    {
      Contents(messages, handlers)
    }

    /** Locked part of `push`; the result is what `io.post` gets after the unlock. */
    method Push(m: M) returns (post: Option<Closure<M, H>>)
      modifies this
      ensures (Value(), post) == PushLocked(old(Value()), m)
    {
      if |handlers| == 0 {
        messages := messages + [m];
        post := None;
      } else {
        var h := handlers[0];
        handlers := handlers[1..];
        post := Some(Closure(h, m));
      }
    }

    /** Locked part of `async_pop`. */
    method AsyncPop(h: H) returns (post: Option<Closure<M, H>>)
      modifies this
      ensures (Value(), post) == PopLocked(old(Value()), h)
    {
      if |messages| == 0 {
        handlers := handlers + [h];
        post := None;
      } else {
        var m := messages[0];
        messages := messages[1..];
        post := Some(Closure(h, m));
      }
    }
  }
}
