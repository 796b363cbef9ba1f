/** What holds in every run of the delivery system of module ServerRuns. */
module ServerDelivery {
  import opened DeliveryQueue
  import opened FilterChain
  import opened ServerRuns

  /** `e` is reached from an initial state by some interleaving. */
  ghost predicate Reached(chain: Chain, s: State, actions: seq<Action>, e: State) {
    Initial(chain, s) && Execute(chain, s, actions) == Some(e)
  }

  /** Everything that every step keeps, for one filter. */
  ghost predicate Inv(chain: Chain, s: State, f: nat, l: Location) {
    && |s.queues| == |chain| && f < |chain|
    && Shape(s) && Pumped(s) && Registry(s) && Token(s, f, l) && InOrder(chain, s, f, l)
  }

  lemma InvStep(chain: Chain, s: State, a: Action, f: nat, l: Location) returns (s': State, next: Location)
    requires Inv(chain, s, f, l) && Enabled(s, a)
    ensures s' == Do(chain, s, a) && Inv(chain, s', f, next) && |s'.threads| == |s.threads|
  {
    s' := PumpedStep(chain, s, a);
    next := HandlerStep(chain, s, a, s', f, l);
  }

  lemma HandlerStep(chain: Chain, s: State, a: Action, s': State, f: nat, l: Location) returns (next: Location)
    requires Inv(chain, s, f, l) && Enabled(s, a) && s' == Do(chain, s, a)
    requires |s'.queues| == |s'.handled| == |chain|
    ensures Token(s', f, next) && InOrder(chain, s', f, next)
  {
    next := MoveToken(chain, s, a, f, l);
    assert Token(s', f, next) by { TokenStep(chain, s, a, f, l); }
    assert InOrder(chain, s', f, next) by { OrderStep(chain, s, a, f, l); }
  }

  lemma PumpedStep(chain: Chain, s: State, a: Action) returns (s': State)
    requires Pumped(s) && Shape(s) && Registry(s) && |s.queues| == |chain| && Enabled(s, a)
    ensures s' == Do(chain, s, a) && Pumped(s') && Shape(s') && Registry(s')
    ensures |s'.queues| == |chain| && |s'.threads| == |s.threads|
  {
    s' := Do(chain, s, a);
    DoKeepsSizes(chain, s, a);
    assert Shape(s') by { ShapeStep(chain, s, a); }
    assert Pumped(s') by { PumpStep(chain, s, a); }
    assert Registry(s') by { RegistryStep(chain, s, a); }
  }

  lemma {:induction false} RunInvariant(chain: Chain, s: State, actions: seq<Action>, e: State, f: nat, l: Location)
    returns (last: Location)
    requires Inv(chain, s, f, l) && Execute(chain, s, actions) == Some(e)
    ensures Inv(chain, e, f, last) && |e.threads| == |s.threads|
    decreases |actions|
  {
    if actions == [] { return l; }
    var s', next := InvStep(chain, s, actions[0], f, l);
    last := RunInvariant(chain, s', actions[1..], e, f, next);
  }

  lemma {:induction false} RunPumped(chain: Chain, s: State, actions: seq<Action>, e: State)
    requires |chain| == |s.queues| && Pumped(s) && Shape(s) && Registry(s) && Execute(chain, s, actions) == Some(e)
    ensures Pumped(e) && Shape(e) && Registry(e) && |e.queues| == |chain| && |e.threads| == |s.threads|
    decreases |actions|
  {
    if actions != [] {
      var s' := PumpedStep(chain, s, actions[0]);
      RunPumped(chain, s', actions[1..], e);
    }
  }

  lemma InitialInv(chain: Chain, s: State, f: nat)
    requires Initial(chain, s) && f < |chain|
    ensures Inv(chain, s, f, Unarmed)
  {
    assert s.queues[f] == Contents([], []) && s.handled[f] == [];
    assert Claimed(chain, Watched(s, f), f) == [];
  }

  lemma ReachedInvariant(chain: Chain, s: State, actions: seq<Action>, e: State, f: nat) returns (l: Location)
    requires Reached(chain, s, actions, e) && f < |chain|
    ensures Inv(chain, e, f, l) && |e.threads| == |s.threads|
  {
    InitialInv(chain, s, f);
    l := RunInvariant(chain, s, actions, e, f, Unarmed);
  }

  lemma ReachedPumped(chain: Chain, s: State, actions: seq<Action>, e: State)
    requires Reached(chain, s, actions, e)
    ensures Pumped(e) && Shape(e) && Registry(e) && |e.queues| == |chain| && |e.threads| == |s.threads|
  {
    RunPumped(chain, s, actions, e);
  }

  ghost predicate Busy(e: State, f: nat, t: nat) {
    t < |e.threads| && Holds(e.threads[t]) == Some(f)
  }

  /** In every run a filter that has been armed has exactly one of: its handler waiting in its queue, one thread
      running it, arming it or posting its closure, or one closure in the io_service. */
  lemma ExactlyOneHandler(chain: Chain, s: State, actions: seq<Action>, e: State, f: nat)
    requires Reached(chain, s, actions, e) && f < |chain| && f in e.armed
    ensures |e.queues| == |chain|
    ensures || (e.queues[f].handlers == [f] && (forall t: nat :: !Busy(e, f, t))
                && forall m :: Closure(f, m) !in e.service)
            || (e.queues[f].handlers == [] && (forall m :: Closure(f, m) !in e.service)
                && exists t: nat :: Busy(e, f, t) && forall u: nat :: Busy(e, f, u) ==> u == t)
            || (e.queues[f].handlers == [] && (forall t: nat :: !Busy(e, f, t))
                && exists m :: e.service[Closure(f, m)] == 1 && forall n :: Closure(f, n) in e.service ==> n == m)
  {
    var l := ReachedInvariant(chain, s, actions, e, f);
    match l {
      case WithThread(t) => assert Busy(e, f, t);
      case Posted(m) => assert e.service[Closure(f, m)] == 1;
      case _ =>
    }
  }

  /** Handlers of one filter never overlap. */
  lemma HandlersNeverOverlap(chain: Chain, s: State, actions: seq<Action>, e: State, t: nat, u: nat)
    requires Reached(chain, s, actions, e) && t < |e.threads| && u < |e.threads|
    requires e.threads[t].Running? && e.threads[u].Running? && e.threads[t].f == e.threads[u].f
    ensures t == u
  {
    ReachedPumped(chain, s, actions, e);
    var l := ReachedInvariant(chain, s, actions, e, e.threads[t].f);
  }

  /** In every run the messages a filter's handler has been started on are, in order, the first of those that
      arrived, were not dispatched before the filter was registered, and that it is first to accept: none skipped,
      none duplicated, none overtaken. */
  lemma HandledInArrivalOrder(chain: Chain, s: State, actions: seq<Action>, e: State, f: nat)
    requires Reached(chain, s, actions, e) && f < |chain|
    ensures |e.handled| == |chain|
    ensures f < |e.since| ==>
              e.since[f] <= |e.arrived| && e.handled[f] <= Claimed(chain, e.arrived[e.since[f]..], f)
    ensures f >= |e.since| ==> e.handled[f] == []
  {
    var l := ReachedInvariant(chain, s, actions, e, f);
    PrefixOfArrived(chain, e, f, l);
  }

  lemma HandledLeadsLine(e: State, f: nat, l: Location)
    requires f < |e.queues| == |e.handled|
    ensures e.handled[f] <= Line(e, f, l)
  {
  }

  lemma ClaimedOfSuffix(chain: Chain, a: seq<Msg>, b: seq<Msg>, n: nat, f: nat)
    requires n <= |a|
    ensures Claimed(chain, a[n..], f) <= Claimed(chain, (a + b)[n..], f)
  {
    ClaimedAppend(chain, a[n..], b, f);
    assert (a + b)[n..] == a[n..] + b;
  }

  lemma PrefixOfArrived(chain: Chain, e: State, f: nat, l: Location)
    requires f < |e.queues| == |e.handled| && InOrder(chain, e, f, l)
    requires e.arrived == e.offered + Taken(e) + e.incoming
    requires f < |e.since| ==> e.since[f] <= |e.offered| + |Taken(e)|
    ensures f < |e.since| ==>
              e.since[f] <= |e.arrived| && e.handled[f] <= Claimed(chain, e.arrived[e.since[f]..], f)
    ensures f >= |e.since| ==> e.handled[f] == []
  {
    HandledLeadsLine(e, f, l);
    if f < |e.since| && e.since[f] <= |e.offered| {
      var later := Taken(e) + e.incoming;
      assert e.arrived == e.offered + later;
      ClaimedOfSuffix(chain, e.offered, later, e.since[f], f);
    } else {
      assert Claimed(chain, Watched(e, f), f) == [];
    }
  }

  /** No lost wakeup: once started, while messages remain a dispatch handler is pending. */
  lemma NoLostWakeup(chain: Chain, s: State, actions: seq<Action>, e: State)
    requires Reached(chain, s, actions, e) && !e.paused && e.incoming != []
    ensures PumpPending(e)
  {
    ReachedPumped(chain, s, actions, e);
  }

  /** However many threads call `start`, one of them injects the first dispatch handler. */
  lemma StartsOnce(chain: Chain, s: State, actions: seq<Action>, e: State)
    requires Reached(chain, s, actions, e)
    ensures e.starts <= 1 && (e.starts == 1 <==> !e.paused)
  {
    ReachedPumped(chain, s, actions, e);
  }

  function ToPost(ps: seq<Thread>): nat {
    if ps == [] then 0 else (if ps[0].PostingPump? then ps[0].left else 0) + ToPost(ps[1..])
  }

  lemma {:induction false} ToPostUpdate(ps: seq<Thread>, t: nat, p: Thread)
    requires t < |ps|
    ensures ToPost(ps[t := p]) + ToPost([ps[t]]) == ToPost(ps) + ToPost([p])
  {
    if t == 0 {
      assert ps[0 := p][1..] == ps[1..];
    } else {
      ToPostUpdate(ps[1..], t - 1, p);
      assert ps[t := p][1..] == ps[1..][t - 1 := p];
    }
  }

  /** Dispatch handlers in the io_service or about to be posted. */
  function Pumps(s: State): nat { s.pumps + ToPost(s.threads) }

  /** Each dispatch handler has one cause.  The first `start`, a change of the dispatch status to DATA_REMAINS, and a
      dispatch that leaves messages behind post one each (so that a dispatch that also changes the status posts
      two), running one uses it up, and nothing else posts or uses any. */
  lemma PumpsAccounted(chain: Chain, s: State, a: Action)
    requires Enabled(s, a) && |chain| == |s.queues|
    ensures var n, n' := Pumps(s), Pumps(Do(chain, s, a));
            match a
            case Start(_) => n' == n + if s.paused then 1 else 0
            case StartArming(_) => n' == n + if s.paused then 1 else 0
            case Arrive(_, _) => n' == n + if s.remains then 0 else 1
            case Return(_) =>
              n' == n + (if s.incoming != [] then 1 else 0) + if s.incoming != [] && !s.remains then 1 else 0
            case Dispatch(_) => n' == n - 1
            case DispatchNothing(_) => n' == n - 1
            case _ => n' == n
  {
    match a
    case Offer(_) => PumpsUnchanged(chain, s, a);
    case Take(_, _) => PumpsUnchanged(chain, s, a);
    case Finish(_) => PumpsUnchanged(chain, s, a);
    case Pop(_) => PumpsUnchanged(chain, s, a);
    case PostClosure(_) => PumpsUnchanged(chain, s, a);
    case Arm(_, _) => PumpsUnchanged(chain, s, a);
    case Register(_) =>
    case DispatchNothing(_) =>
    case _ => ToPostUpdate(s.threads, a.t, Do(chain, s, a).threads[a.t]);
  }

  lemma PumpsUnchanged(chain: Chain, s: State, a: Action)
    requires Enabled(s, a) && |chain| == |s.queues|
    requires a.Offer? || a.Take? || a.Finish? || a.Pop? || a.PostClosure? || a.Arm?
    ensures Pumps(Do(chain, s, a)) == Pumps(s)
  {
    ToPostUpdate(s.threads, a.t, Do(chain, s, a).threads[a.t]);
  }

  // ---------------------------------------------------------------- draining

  function Weight(p: Thread): nat {
    match p
    case Idle => 0
    case PostingPump(left, next) => 2 * left + (if next.Some? then 1 else 0)
    case Offering(_, _) => 11
    case PostingOffer(_) => 10
    case Returning => 5
    case Running(_, _) => 3
    case Arming(_) => 2
    case Popping(_) => 1
    case PostingPop(_) => 5
  }

  function ThreadWeight(ps: seq<Thread>): nat {
    if ps == [] then 0 else Weight(ps[0]) + ThreadWeight(ps[1..])
  }

  function QueueWeight(qs: seq<Contents<Msg, nat>>): nat {
    if qs == [] then 0 else 5 * |qs[0].messages| + QueueWeight(qs[1..])
  }

  /** An upper bound for the number of internal steps that can follow. */
  function Remaining(s: State): nat {
    11 * |s.incoming| + s.pumps + QueueWeight(s.queues) + 4 * |s.service| + ThreadWeight(s.threads)
    + if s.paused then 3 else 0
  }

  lemma {:induction false} ThreadWeightUpdate(ps: seq<Thread>, t: nat, p: Thread)
    requires t < |ps|
    ensures ThreadWeight(ps[t := p]) + Weight(ps[t]) == ThreadWeight(ps) + Weight(p)
  {
    if t == 0 {
      assert ps[0 := p][1..] == ps[1..];
    } else {
      ThreadWeightUpdate(ps[1..], t - 1, p);
      assert ps[t := p][1..] == ps[1..][t - 1 := p];
    }
  }

  lemma {:induction false} QueueWeightUpdate(qs: seq<Contents<Msg, nat>>, f: nat, q: Contents<Msg, nat>)
    requires f < |qs|
    ensures QueueWeight(qs[f := q]) + 5 * |qs[f].messages| == QueueWeight(qs) + 5 * |q.messages|
  {
    if f == 0 {
      assert qs[0 := q][1..] == qs[1..];
    } else {
      QueueWeightUpdate(qs[1..], f - 1, q);
      assert qs[f := q][1..] == qs[1..][f - 1 := q];
    }
  }

  /** Every internal step brings the end nearer. */
  lemma InternalDecreases(chain: Chain, s: State, a: Action)
    requires Enabled(s, a) && |chain| == |s.queues| && Internal(a)
    ensures Remaining(Do(chain, s, a)) < Remaining(s)
  {
    match a
    case Offer(_) => OfferDecreases(chain, s, a);
    case Pop(_) => PopDecreases(chain, s, a);
    case PostPump(_) => DispatchDecreases(chain, s, a);
    case DispatchNothing(_) => DispatchDecreases(chain, s, a);
    case Dispatch(_) => DispatchDecreases(chain, s, a);
    case Return(_) => DispatchDecreases(chain, s, a);
    case PostClosure(_) => ServiceDecreases(chain, s, a);
    case Take(_, _) => ServiceDecreases(chain, s, a);
    case _ => HandlerDecreases(chain, s, a);
  }

  lemma OfferDecreases(chain: Chain, s: State, a: Action)
    requires Enabled(s, a) && |chain| == |s.queues| && a.Offer?
    ensures Remaining(Do(chain, s, a)) < Remaining(s)
  {
    var s' := Do(chain, s, a);
    ThreadWeightUpdate(s.threads, a.t, s'.threads[a.t]);
    var f := Chosen(chain, s.threads[a.t]);
    if f.Some? { QueueWeightUpdate(s.queues, f.value, s'.queues[f.value]); }
  }

  lemma PopDecreases(chain: Chain, s: State, a: Action)
    requires Enabled(s, a) && |chain| == |s.queues| && a.Pop?
    ensures Remaining(Do(chain, s, a)) < Remaining(s)
  {
    var s' := Do(chain, s, a);
    ThreadWeightUpdate(s.threads, a.t, s'.threads[a.t]);
    QueueWeightUpdate(s.queues, s.threads[a.t].f, s'.queues[s.threads[a.t].f]);
  }

  lemma DispatchDecreases(chain: Chain, s: State, a: Action)
    requires Enabled(s, a) && |chain| == |s.queues| && (a.PostPump? || a.DispatchNothing? || a.Dispatch? || a.Return?)
    ensures Remaining(Do(chain, s, a)) < Remaining(s)
  {
    var s' := Do(chain, s, a);
    ThreadWeightUpdate(s.threads, a.t, s'.threads[a.t]);
    assert s'.threads == s.threads[a.t := s'.threads[a.t]];
  }

  lemma ServiceDecreases(chain: Chain, s: State, a: Action)
    requires Enabled(s, a) && |chain| == |s.queues| && (a.PostClosure? || a.Take?)
    ensures Remaining(Do(chain, s, a)) < Remaining(s)
  {
    var s' := Do(chain, s, a);
    ThreadWeightUpdate(s.threads, a.t, s'.threads[a.t]);
    assert s'.queues == s.queues && s'.incoming == s.incoming && s'.pumps == s.pumps;
  }

  lemma HandlerDecreases(chain: Chain, s: State, a: Action)
    requires Enabled(s, a) && |chain| == |s.queues| && (a.Finish? || a.StartArming?)
    ensures Remaining(Do(chain, s, a)) < Remaining(s)
  {
    var s' := Do(chain, s, a);
    ThreadWeightUpdate(s.threads, a.t, s'.threads[a.t]);
    assert s'.queues == s.queues && s'.incoming == s.incoming && s'.pumps == s.pumps && s'.service == s.service;
  }

  lemma {:induction false} InternalRunsAreBounded(chain: Chain, s: State, actions: seq<Action>)
    requires |chain| == |s.queues| && Execute(chain, s, actions).Some?
    requires forall a | a in actions :: Internal(a)
    ensures |actions| + Remaining(Execute(chain, s, actions).value) <= Remaining(s)
    decreases |actions|
  {
    if actions != [] {
      assert actions[0] in actions;
      InternalDecreases(chain, s, actions[0]);
      InternalRunsAreBounded(chain, Do(chain, s, actions[0]), actions[1..]);
    }
  }

  ghost predicate AllIdle(e: State) {
    forall t | 0 <= t < |e.threads| :: e.threads[t].Idle?
  }

  /** A state in which the system has come to rest. */
  ghost predicate AtRest(e: State) {
    forall a | Internal(a) :: !Enabled(e, a)
  }

  lemma BusyThreadCanStep(e: State, t: nat) returns (a: Action)
    requires Shape(e) && Pumped(e) && t < |e.threads| && !e.threads[t].Idle?
    ensures Internal(a) && Enabled(e, a)
  {
    match e.threads[t]
    case PostingPump(_, _) => a := PostPump(t);
    case Offering(_, _) => a := Offer(t);
    case PostingOffer(_) => a := PostClosure(t);
    case PostingPop(_) => a := PostClosure(t);
    case Returning => a := Return(t);
    case Running(_, _) => a := Finish(t);
    case Arming(_) => a := StartArming(t);
    case Popping(f) => assert Holds(e.threads[t]) == Some(f); a := Pop(t);
  }

  ghost predicate Drained(e: State) {
    AllIdle(e) && e.incoming == [] && e.pumps == 0 && e.service == multiset{}
  }

  /** As long as anything is left to do, some thread can do it. */
  lemma UndrainedCanStep(e: State) returns (a: Action)
    requires Shape(e) && Pumped(e) && |e.threads| > 0 && !e.paused && !Drained(e)
    ensures Internal(a) && Enabled(e, a)
  {
    if t :| 0 <= t < |e.threads| && !e.threads[t].Idle? {
      a := BusyThreadCanStep(e, t);
    } else if e.service != multiset{} {
      var c :| c in e.service;
      a := Take(0, c);
    } else {
      a := if e.incoming == [] then DispatchNothing(0) else Dispatch(0);
    }
  }

  /** At rest nothing is left to do: no message in libdbus, no closure posted, every thread idle. */
  lemma RestMeansDrained(e: State)
    requires Shape(e) && Pumped(e) && |e.threads| > 0 && !e.paused && AtRest(e)
    ensures Drained(e)
  {
    if !Drained(e) {
      var a := UndrainedCanStep(e);
      assert false;
    }
  }

  /** Filter `f` has handled all it is first to accept of what was dispatched since it was registered. */
  ghost predicate HandledAll(chain: Chain, e: State, f: nat) {
    && f < |e.since| && f < |e.handled| && e.since[f] <= |e.arrived|
    && e.handled[f] == Claimed(chain, e.arrived[e.since[f]..], f)
  }

  /** Draining: take any run of a server with at least one io thread that was started and armed all its
      filters.  Without new arrivals it can make at most `Remaining` further steps, and when it comes to
      rest every message that arrived has been handled exactly once, in arrival order, by the first filter
      that accepts it; except, exactly, for those dispatched before that filter was registered. */
  lemma EverythingIsHandled(chain: Chain, s: State, actions: seq<Action>, e: State, quiet: seq<Action>, rest: State)
    requires Reached(chain, s, actions, e) && |e.queues| == |chain|
    requires (forall a | a in quiet :: Internal(a)) && Execute(chain, e, quiet) == Some(rest)
    ensures |quiet| <= Remaining(e)
    ensures |rest.handled| == |chain|
    ensures |s.threads| > 0 && !rest.paused && (forall f | 0 <= f < |chain| :: f in rest.armed) && AtRest(rest)
            ==> forall f | 0 <= f < |chain| :: HandledAll(chain, rest, f)
  {
    InternalRunsAreBounded(chain, e, quiet);
    ExecuteAppend(chain, s, actions, quiet);
    ReachedPumped(chain, s, actions + quiet, rest);
    if |s.threads| > 0 && !rest.paused && (forall f | 0 <= f < |chain| :: f in rest.armed) && AtRest(rest) {
      RestMeansDrained(rest);
      forall f | 0 <= f < |chain| ensures HandledAll(chain, rest, f) {
        var l := ReachedInvariant(chain, s, actions + quiet, rest, f);
        DrainedFilter(chain, rest, f, l);
      }
    }
  }

  lemma DrainedFilter(chain: Chain, e: State, f: nat, l: Location)
    requires Inv(chain, e, f, l) && Drained(e) && f in e.armed
    ensures HandledAll(chain, e, f)
  {
    assert forall m: Msg :: e.service[Closure(f, m)] == 0;
    assert l == InQueue;
    assert e.offered + Taken(e) + e.incoming == e.offered;
    assert Line(e, f, l) == e.handled[f];
  }

  lemma {:induction false} ExecuteAppend(chain: Chain, s: State, a: seq<Action>, b: seq<Action>)
    requires |chain| == |s.queues| && Execute(chain, s, a).Some? && |Execute(chain, s, a).value.queues| == |chain|
    ensures Execute(chain, s, a + b) == Execute(chain, Execute(chain, s, a).value, b)
    decreases |a|
  {
    if a == [] {
      assert a + b == b;
    } else {
      assert (a + b)[0] == a[0] && (a + b)[1..] == a[1..] + b;
      var s' := Do(chain, s, a[0]);
      assert |s'.queues| == |chain|;
      ExecuteAppend(chain, s', a[1..], b);
    }
  }

  // ---------------------------------------------------------------- filters registered late

  /** The first filter's `async_dispatch` starts the pump before the second filter exists: here an io thread
      dispatches a GetManagedObjects call in between, and then nobody has it. */
  lemma LateFilterLosesCall(s: State, m: Msg) returns (actions: seq<Action>, e: State)
    requires Initial(SERVER_CHAIN, s) && s.incoming == [] && |s.threads| == 2 && IsGetManagedObjects(m)
    ensures Reached(SERVER_CHAIN, s, actions, e)
    ensures e.arrived == [m] && e.incoming == [] && e.service == multiset{} && e.since == [0, 1]
    ensures |e.handled| == |e.queues| == 3 && forall f | 0 <= f < 3 :: e.handled[f] == [] && e.queues[f].messages == []
  {
    var setup, start := [Register(0), Arm(0, 0)], [StartArming(0), PostPump(0), Pop(0)];
    var arrival, missed := [Arrive(1, m), PostPump(1)], [Dispatch(1), Offer(1), Register(0)];
    actions := setup + start + arrival + missed;
    var arming := FirstFilterRegistered(s);
    var armed := FirstFilterArmed(arming);
    var waiting := CallArrives(armed, m);
    e := CallMissesFilter(waiting, m);
    ExecuteAppend(SERVER_CHAIN, s, setup, start);
    ExecuteAppend(SERVER_CHAIN, s, setup + start, arrival);
    ExecuteAppend(SERVER_CHAIN, s, setup + start + arrival, missed);
  }

  /** Only the first filter is registered, both threads are idle, and `ms` waits in libdbus. */
  ghost predicate OnlyFirstArmed(s: State, ms: seq<Msg>) {
    && s.threads == [Idle, Idle] && s.pumps == 1 + |ms| && s.dispatcher == None && s.incoming == ms && s.arrived == ms
    && s.since == [0] && s.dispatched == 0 && s.service == multiset{} && s.remains == (ms != [])
    && |s.queues| == |s.handled| == 3 && forall f | 0 <= f < 3 :: s.handled[f] == [] && s.queues[f].messages == []
  }

  /** The constructor is about to start the connection. */
  ghost predicate AboutToStart(s: State) {
    && s.threads == [Arming(0), Idle] && s.paused && s.pumps == 0 && s.dispatcher == None
    && s.incoming == [] && s.arrived == [] && !s.remains && s.since == [0] && s.dispatched == 0
    && s.service == multiset{} && |s.queues| == |s.handled| == 3
    && forall f | 0 <= f < 3 :: s.handled[f] == [] && s.queues[f] == Contents([], [])
  }

  lemma FirstFilterRegistered(s: State) returns (e: State)
    requires Initial(SERVER_CHAIN, s) && s.incoming == [] && |s.threads| == 2
    ensures Execute(SERVER_CHAIN, s, [Register(0), Arm(0, 0)]) == Some(e) && AboutToStart(e)
  {
    var s1 := Do(SERVER_CHAIN, s, Register(0));
    e := Do(SERVER_CHAIN, s1, Arm(0, 0));
    assert [Register(0), Arm(0, 0)][1..] == [Arm(0, 0)];
    assert Execute(SERVER_CHAIN, s1, [Arm(0, 0)]) == Some(e);
    assert e.threads == [Arming(0), Idle];
  }

  lemma FirstFilterArmed(s: State) returns (e: State)
    requires AboutToStart(s)
    ensures Execute(SERVER_CHAIN, s, [StartArming(0), PostPump(0), Pop(0)]) == Some(e) && OnlyFirstArmed(e, [])
  {
    var s1 := Do(SERVER_CHAIN, s, StartArming(0));
    var s2 := Do(SERVER_CHAIN, s1, PostPump(0));
    assert s2.threads == [Popping(0), Idle] && s2.pumps == 1;
    e := Do(SERVER_CHAIN, s2, Pop(0));
    assert e.threads == [Idle, Idle];
    var rest := [StartArming(0), PostPump(0), Pop(0)];
    assert rest[1..] == [PostPump(0), Pop(0)] && rest[1..][1..] == [Pop(0)];
    assert Execute(SERVER_CHAIN, s2, [Pop(0)]) == Some(e);
  }

  lemma CallArrives(s: State, m: Msg) returns (e: State)
    requires OnlyFirstArmed(s, [])
    ensures Execute(SERVER_CHAIN, s, [Arrive(1, m), PostPump(1)]) == Some(e) && OnlyFirstArmed(e, [m])
  {
    var s1 := Do(SERVER_CHAIN, s, Arrive(1, m));
    assert s1.threads == [Idle, PostingPump(1, None)] && s1.incoming == [m];
    e := Do(SERVER_CHAIN, s1, PostPump(1));
    assert e.threads == [Idle, Idle];
    assert Execute(SERVER_CHAIN, s1, [PostPump(1)]) == Some(e);
    assert [Arrive(1, m), PostPump(1)][1..] == [PostPump(1)];
  }

  lemma CallMissesFilter(s: State, m: Msg) returns (e: State)
    requires OnlyFirstArmed(s, [m]) && IsGetManagedObjects(m)
    ensures Execute(SERVER_CHAIN, s, [Dispatch(1), Offer(1), Register(0)]) == Some(e)
    ensures e.arrived == [m] && e.incoming == [] && e.service == multiset{} && e.since == [0, 1]
    ensures |e.handled| == |e.queues| == 3 && forall f | 0 <= f < 3 :: e.handled[f] == [] && e.queues[f].messages == []
  {
    ServerDemultiplexing(m);
    ClaimOfPrefix(SERVER_CHAIN, 1, m);
    var s1 := Do(SERVER_CHAIN, s, Dispatch(1));
    assert s1.threads == [Idle, Offering(m, 1)];
    var s2 := Do(SERVER_CHAIN, s1, Offer(1));
    assert s2.threads == [Idle, Returning];
    e := Do(SERVER_CHAIN, s2, Register(0));
    var rest := [Dispatch(1), Offer(1), Register(0)];
    assert rest[1..] == [Offer(1), Register(0)] && rest[1..][1..] == [Register(0)];
  }
}
