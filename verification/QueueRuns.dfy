/** Any number of threads calling `push` and `async_pop` on one queue, in any interleaving. */
module QueueRuns {
  import opened DeliveryQueue

  /** A calling thread is either outside, or between the unlock and `io.post`. */
  datatype Caller<M, H> = Outside | Posting(pair: nat, closure: Closure<M, H>)

  /** One queue, its callers and the io_service.  `pushed` and `registered` record the order in
      which the lock was taken; closures are numbered by the pairing that made them. */
  datatype Run<M(==), H(==)> = Run(
    queue: Contents<M, H>,
    callers: seq<Caller<M, H>>,
    posted: multiset<(nat, Closure<M, H>)>,
    delivered: multiset<(nat, Closure<M, H>)>,
    pushed: seq<M>,
    registered: seq<H>)

  datatype Step<M, H> =
    | Push(caller: nat, message: M)
    | Pop(caller: nat, handler: H)
    | Post(caller: nat)
    | Deliver(pair: nat, closure: Closure<M, H>)

  function Min(a: nat, b: nat): nat { if a <= b then a else b }

  /** How many pairings have happened. */
  function Paired<M, H>(r: Run<M, H>): nat { Min(|r.pushed|, |r.registered|) }

  ghost predicate Enabled<M, H>(r: Run<M, H>, s: Step<M, H>) {
    match s
    case Push(c, _) => c < |r.callers| && r.callers[c].Outside?
    case Pop(c, _) => c < |r.callers| && r.callers[c].Outside?
    case Post(c) => c < |r.callers| && r.callers[c].Posting?
    case Deliver(k, c) => (k, c) in r.posted
  }

  function AfterUnlock<M, H>(r: Run<M, H>, caller: nat, pair: nat, post: Option<Closure<M, H>>): seq<Caller<M, H>>
    requires caller < |r.callers|
  {
    if post.Some? then r.callers[caller := Posting(pair, post.value)] else r.callers
  }

  ghost function Do<M, H>(r: Run<M, H>, s: Step<M, H>): Run<M, H>
    requires Enabled(r, s)
  {
    match s
    case Push(c, m) =>
      var (q, post) := PushLocked(r.queue, m);
      r.(queue := q, pushed := r.pushed + [m], callers := AfterUnlock(r, c, Paired(r), post))
    case Pop(c, h) =>
      var (q, post) := PopLocked(r.queue, h);
      r.(queue := q, registered := r.registered + [h], callers := AfterUnlock(r, c, Paired(r), post))
    case Post(c) =>
      r.(callers := r.callers[c := Outside],
         posted := r.posted + multiset{(r.callers[c].pair, r.callers[c].closure)})
    case Deliver(k, c) =>
      r.(posted := r.posted - multiset{(k, c)}, delivered := r.delivered + multiset{(k, c)})
  }

  ghost predicate Initial<M, H>(r: Run<M, H>) {
    && r.queue == Contents([], []) && r.pushed == [] && r.registered == []
    && r.posted == multiset{} && r.delivered == multiset{}
    && forall c | 0 <= c < |r.callers| :: r.callers[c].Outside?
  }

  /** All states reached by some interleaving of steps. */
  ghost function Execute<M, H>(r: Run<M, H>, steps: seq<Step<M, H>>): Option<Run<M, H>>
    decreases |steps|
  {
    if steps == [] then Some(r)
    else if Enabled(r, steps[0]) then Execute(Do(r, steps[0]), steps[1..])
    else None
  }

  datatype Place = InFlight(caller: nat) | InService | Done

  function Pairing<M, H>(r: Run<M, H>, k: nat): Closure<M, H>
    requires k < Paired(r)
  {
    Closure(r.registered[k], r.pushed[k])
  }

  /** Where the closure of each pairing is. */
  ghost predicate Placed<M(!new), H(!new)>(r: Run<M, H>, place: seq<Place>) {
    && |place| == Paired(r)
    && (forall c | 0 <= c < |r.callers| && r.callers[c].Posting? ::
          var k := r.callers[c].pair;
          k < |place| && place[k] == InFlight(c) && r.callers[c].closure == Pairing(r, k))
    && (forall k | 0 <= k < |place| && place[k].InFlight? ::
          place[k].caller < |r.callers| && r.callers[place[k].caller] == Posting(k, Pairing(r, k)))
    && (forall k: nat, c ::
          r.posted[(k, c)] == if k < |place| && place[k] == InService && c == Pairing(r, k) then 1 else 0)
    && (forall k: nat, c ::
          r.delivered[(k, c)] == if k < |place| && place[k] == Done && c == Pairing(r, k) then 1 else 0)
  }

  /** Unpaired messages and handlers wait in order, never both. */
  ghost predicate Waiting<M, H>(r: Run<M, H>) {
    && r.queue.messages == r.pushed[Paired(r)..]
    && r.queue.handlers == r.registered[Paired(r)..]
  }

  lemma StepKeepsWaiting<M, H>(r: Run<M, H>, s: Step<M, H>)
    requires Waiting(r) && Enabled(r, s)
    ensures Waiting(Do(r, s))
  {
  }

  lemma PairStep<M(!new), H(!new)>(r: Run<M, H>, s: Step<M, H>, place: seq<Place>) returns (next: seq<Place>)
    requires Waiting(r) && Placed(r, place) && Enabled(r, s) && (s.Push? || s.Pop?)
    ensures Placed(Do(r, s), next)
  {
    var r' := Do(r, s);
    assert forall k | 0 <= k < |place| :: Pairing(r', k) == Pairing(r, k);
    next := if Paired(r') > |place| then place + [InFlight(s.caller)] else place;
  }

  lemma PostStep<M(!new), H(!new)>(r: Run<M, H>, s: Step<M, H>, place: seq<Place>) returns (next: seq<Place>)
    requires Placed(r, place) && Enabled(r, s) && s.Post?
    ensures Placed(Do(r, s), next)
  {
    next := place[r.callers[s.caller].pair := InService];
    assert forall k | 0 <= k < |place| :: Pairing(Do(r, s), k) == Pairing(r, k);
  }

  lemma DeliverStep<M(!new), H(!new)>(r: Run<M, H>, s: Step<M, H>, place: seq<Place>) returns (next: seq<Place>)
    requires Placed(r, place) && Enabled(r, s) && s.Deliver?
    ensures Placed(Do(r, s), next)
  {
    assert r.posted[(s.pair, s.closure)] == 1;
    next := place[s.pair := Done];
    assert forall k | 0 <= k < |place| :: Pairing(Do(r, s), k) == Pairing(r, k);
  }

  lemma {:induction false} Invariant<M(!new), H(!new)>(r: Run<M, H>, steps: seq<Step<M, H>>, place: seq<Place>)
    returns (last: seq<Place>)
    requires Waiting(r) && Placed(r, place) && Execute(r, steps).Some?
    ensures Waiting(Execute(r, steps).value) && Placed(Execute(r, steps).value, last)
    decreases |steps|
  {
    if steps == [] { return place; }
    StepKeepsWaiting(r, steps[0]);
    var next;
    match steps[0] {
      case Post(_) => next := PostStep(r, steps[0], place);
      case Deliver(_, _) => next := DeliverStep(r, steps[0], place);
      case _ => next := PairStep(r, steps[0], place);
    }
    last := Invariant(Do(r, steps[0]), steps[1..], next);
  }

  lemma InitiallyPlaced<M(!new), H(!new)>(r: Run<M, H>)
    requires Initial(r)
    ensures Waiting(r) && Placed(r, [])
  {
    assert Paired(r) == 0;
    assert forall k: nat, c :: r.posted[(k, c)] == 0 && r.delivered[(k, c)] == 0;
  }

  /** `e` is reached from an initial state by some interleaving. */
  ghost predicate Reached<M(!new), H(!new)>(r: Run<M, H>, steps: seq<Step<M, H>>, e: Run<M, H>) {
    Initial(r) && Execute(r, steps) == Some(e)
  }

  lemma ReachedPlaced<M(!new), H(!new)>(r: Run<M, H>, steps: seq<Step<M, H>>, e: Run<M, H>) returns (place: seq<Place>)
    requires Reached(r, steps, e)
    ensures Waiting(e) && Placed(e, place)
  {
    InitiallyPlaced(r);
    place := Invariant(r, steps, []);
  }

  /** For every interleaving: messages and handlers never wait together, and they wait in the order they came. */
  lemma NeverBothWaiting<M(!new), H(!new)>(r: Run<M, H>, steps: seq<Step<M, H>>, e: Run<M, H>)
    requires Reached(r, steps, e)
    ensures e.queue.messages == [] || e.queue.handlers == []
    ensures e.queue.messages == e.pushed[Paired(e)..] && e.queue.handlers == e.registered[Paired(e)..]
  {
    var _ := ReachedPlaced(r, steps, e);
  }

  ghost predicate HeldBy<M, H>(e: Run<M, H>, k: nat, c: nat) {
    c < |e.callers| && e.callers[c].Posting? && e.callers[c].pair == k
  }

  /** Exactly one thread holds the closure, or the io_service does, or it was delivered; and only once. */
  ghost predicate InOnePlace<M(!new), H(!new)>(e: Run<M, H>, k: nat, c: Closure<M, H>) {
    || (e.posted[(k, c)] == 0 && e.delivered[(k, c)] == 0
        && exists t: nat :: HeldBy(e, k, t) && e.callers[t].closure == c && forall u: nat :: HeldBy(e, k, u) ==> u == t)
    || (e.posted[(k, c)] == 1 && e.delivered[(k, c)] == 0 && forall u: nat :: !HeldBy(e, k, u))
    || (e.posted[(k, c)] == 0 && e.delivered[(k, c)] == 1 && forall u: nat :: !HeldBy(e, k, u))
  }

  lemma PlacedOnce<M(!new), H(!new)>(e: Run<M, H>, place: seq<Place>, k: nat)
    requires Placed(e, place) && k < Paired(e)
    ensures InOnePlace(e, k, Pairing(e, k))
  {
    if place[k].InFlight? { assert HeldBy(e, k, place[k].caller); }
    assert e.posted[(k, Pairing(e, k))] == if place[k] == InService then 1 else 0;
  }

  /** For every interleaving: the k-th message pushed is paired with the k-th handler registered, and
      the pair is in exactly one place, once. */
  lemma PairedInOrderAndOnce<M(!new), H(!new)>(r: Run<M, H>, steps: seq<Step<M, H>>, e: Run<M, H>, k: nat)
    requires Reached(r, steps, e) && k < Paired(e)
    ensures InOnePlace(e, k, Closure(e.registered[k], e.pushed[k]))
  {
    var place := ReachedPlaced(r, steps, e);
    PlacedOnce(e, place, k);
  }

  /** Nothing is posted or delivered but the k-th message with the k-th handler. */
  lemma OnlyPairsDelivered<M(!new), H(!new)>(r: Run<M, H>, steps: seq<Step<M, H>>, e: Run<M, H>,
                                             k: nat, c: Closure<M, H>)
    requires Reached(r, steps, e) && (e.posted[(k, c)] > 0 || e.delivered[(k, c)] > 0)
    ensures k < Paired(e) && c == Closure(e.registered[k], e.pushed[k])
  {
    var place := ReachedPlaced(r, steps, e);
  }
}
