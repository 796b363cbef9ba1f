/** Filters as objects: `filter::offer`, and libdbus trying one filter after another. */
module Filters {
  import opened DeliveryQueue
  import opened FilterChain

  class Connection {
    var isPaused: bool

    constructor ()
      ensures isPaused
    {
      isPaused := true;
    }

    /** The compare-and-swap of `start`: only the caller that finds the connection paused posts a dispatch handler. */
    method Start() returns (pump: bool)
      modifies this
      ensures pump == old(isPaused) && !isPaused
    {
      pump := isPaused;
      if isPaused { isPaused := false; }
    }
  }

  class Filter {
    const connection: Connection
    const accepts: Msg -> bool
    const queue: Queue<Msg, nat>

    constructor (connection: Connection, accepts: Msg -> bool)
      ensures this.connection == connection && this.accepts == accepts
      ensures fresh(queue) && queue.Value() == Contents([], [])
    {
      this.connection := connection;
      this.accepts := accepts;
      this.queue := new Queue<Msg, nat>();
    }

    /** `post` is the closure to be posted once the queue's lock is released. */
    method Offer(m: Msg) returns (filtered: bool, post: Option<Closure<Msg, nat>>)
      modifies queue
      ensures filtered == accepts(m)
      ensures filtered ==> (queue.Value(), post) == PushLocked(old(queue.Value()), m)
      ensures !filtered ==> post == None && queue.Value() == old(queue.Value())
    {
      filtered := accepts(m);
      post := None;
      if filtered { post := queue.Push(m); }
    }

    /** `start`, then `async_pop` on the filter's own queue; `pump` tells whether a dispatch handler was posted. */
    method AsyncDispatch(handler: nat) returns (pump: bool, post: Option<Closure<Msg, nat>>)
      modifies connection, queue
      ensures pump == old(connection.isPaused) && !connection.isPaused
      ensures (queue.Value(), post) == PopLocked(old(queue.Value()), handler)
    {
      pump := connection.Start();
      post := queue.AsyncPop(handler);
    }
  }

  function ChainOf(filters: seq<Filter>): Chain {
    seq(|filters|, i requires 0 <= i < |filters| => filters[i].accepts)
  }

  ghost predicate Separate(filters: seq<Filter>) {
    forall i, j | 0 <= i < j < |filters| :: filters[i].queue != filters[j].queue
  }

  /** One message through the chain: it goes to the queue of the first filter that accepts it and to no other. */
  method OfferToChain(filters: seq<Filter>, m: Msg) returns (claimed: Option<nat>, post: Option<Closure<Msg, nat>>)
    requires Separate(filters)
    modifies set f | f in filters :: f.queue
    ensures claimed == Claim(ChainOf(filters), m)
    ensures forall i | 0 <= i < |filters| && claimed != Some(i) ::
              filters[i].queue.Value() == old(filters[i].queue.Value())
    ensures claimed.Some? ==>
              var q := filters[claimed.value].queue; (q.Value(), post) == PushLocked(old(q.Value()), m)
    ensures claimed.None? ==> post == None
  {
    var i := 0;
    while i < |filters|
      invariant 0 <= i <= |filters|
      invariant forall j | 0 <= j < i :: !ChainOf(filters)[j](m)
      invariant forall j | 0 <= j < |filters| :: filters[j].queue.Value() == old(filters[j].queue.Value())
    {
      var filtered;
      filtered, post := filters[i].Offer(m);
      if filtered {
        assert ChainOf(filters)[i](m);
        return Some(i), post;
      }
      i := i + 1;
    }
    return None, None;
  }
}
