/** Delivery of messages on a multi-threaded io_service: libdbus' incoming queue and its dispatch status,
    the dispatch handlers that pump it, the filter chain, one queue per filter, and a handler per filter
    that registers itself again at the end of each run.

    One step is one critical section, one post, or the start or end of a handler.  Threads interleave
    freely, and the io_service may run what was posted to it in any order. */
module ServerRuns {
  import opened DeliveryQueue
  import opened FilterChain

  /** What a thread is doing. */
  datatype Thread =
    | Idle
    | PostingPump(left: nat, next: Option<nat>)  // that many dispatch handlers to post, then perhaps `async_pop`
    | Offering(m: Msg, filters: nat)             // in `dbus_connection_dispatch`, about to try that many filters
    | PostingOffer(c: Closure<Msg, nat>)         // in `push` after the unlock, still inside the dispatch
    | Returning                                  // the filters are done, the dispatch status is about to be taken
    | Running(f: nat, m: Msg)                    // the handler of filter f processes m
    | Arming(f: nat)                             // in `async_dispatch`, about to call `start`
    | Popping(f: nat)                            // about to enter `async_pop`
    | PostingPop(c: Closure<Msg, nat>)           // in `async_pop` after the unlock

  /** `remains` is the dispatch status last reported.  `since` has an entry for each filter registered so far: how many
      messages had been dispatched before.  The last three fields record history: everything that arrived, what
      went through the filter chain, and what each filter's handler started on. */
  datatype State = State(
    paused: bool,
    starts: nat,
    incoming: seq<Msg>,
    remains: bool,
    pumps: nat,
    dispatcher: Option<nat>,
    queues: seq<Contents<Msg, nat>>,
    service: multiset<Closure<Msg, nat>>,
    threads: seq<Thread>,
    armed: set<nat>,
    since: seq<nat>,
    dispatched: nat,
    arrived: seq<Msg>,
    offered: seq<Msg>,
    handled: seq<seq<Msg>>)
  {
    function Now(t: nat, p: Thread): State
      requires t < |threads|
    {
      this.(threads := threads[t := p])
    }
  }

  datatype Action =
    | Arrive(t: nat, m: Msg)   // the watch handler reads a message
    | Start(t: nat)            // `connection::start` by some caller
    | Register(t: nat)         // `new_filter`: the next filter of the chain is added
    | Arm(t: nat, f: nat)      // the constructor's first `async_dispatch` of filter f
    | PostPump(t: nat)
    | DispatchNothing(t: nat)  // a dispatch handler that finds no message
    | Dispatch(t: nat)
    | Offer(t: nat)
    | PostClosure(t: nat)
    | Return(t: nat)
    | Take(t: nat, c: Closure<Msg, nat>)
    | Finish(t: nat)
    | StartArming(t: nat)
    | Pop(t: nat)

  predicate Internal(a: Action) { !a.Arrive? && !a.Start? && !a.Register? && !a.Arm? }

  ghost predicate Enabled(s: State, a: Action) {
    a.t < |s.threads| &&
    var p := s.threads[a.t];
    match a
    case Arrive(_, _) => p.Idle?
    case Start(_) => p.Idle?
    case Register(_) => p.Idle? && |s.since| < |s.queues|
    case Arm(_, f) => p.Idle? && f < |s.since| && f !in s.armed
    case PostPump(_) => p.PostingPump? && p.left > 0
    case DispatchNothing(_) => p.Idle? && s.pumps > 0 && s.incoming == []
    case Dispatch(_) => p.Idle? && s.pumps > 0 && s.incoming != [] && s.dispatcher.None?
    case Offer(_) => p.Offering? && p.filters <= |s.queues|
    case PostClosure(_) => p.PostingOffer? || p.PostingPop?
    case Return(_) => p.Returning?
    case Take(_, c) => p.Idle? && c in s.service && c.handler < |s.handled|
    case Finish(_) => p.Running?
    case StartArming(_) => p.Arming?
    case Pop(_) => p.Popping? && p.f < |s.queues|
  }

  /** The filter that takes a message: the first that accepts it of those copied when it was dispatched. */
  function Chosen(chain: Chain, p: Thread): Option<nat>
    requires p.Offering? && p.filters <= |chain|
  {
    Claim(chain[..p.filters], p.m)
  }

  ghost function Do(chain: Chain, s: State, a: Action): State
    requires Enabled(s, a) && |chain| == |s.queues|
  {
    var p := s.threads[a.t];
    match a
    case Arrive(t, m) =>
      // the status function is called only when the status changes
      s.(incoming := s.incoming + [m], arrived := s.arrived + [m], remains := true)
       .Now(t, if s.remains then Idle else PostingPump(1, None))
    case Start(t) =>
      if s.paused then s.(paused := false, starts := s.starts + 1).Now(t, PostingPump(1, None)) else s
    case Register(t) => s.(since := s.since + [s.dispatched])
    case Arm(t, f) => s.(armed := s.armed + {f}).Now(t, Arming(f))
    case PostPump(t) =>
      s.(pumps := s.pumps + 1).Now(t, if p.left > 1 then PostingPump(p.left - 1, p.next)
                                      else if p.next.Some? then Popping(p.next.value) else Idle)
    case DispatchNothing(t) => s.(pumps := s.pumps - 1, remains := false)
    case Dispatch(t) =>
      s.(pumps := s.pumps - 1, incoming := s.incoming[1..], dispatcher := Some(t), dispatched := s.dispatched + 1)
       .Now(t, Offering(s.incoming[0], |s.since|))
    case Offer(t) =>
      var s' := s.(offered := s.offered + [p.m]);
      (match Chosen(chain, p)
       case None => s'.Now(t, Returning)
       case Some(f) =>
         var (q, post) := PushLocked(s.queues[f], p.m);
         s'.(queues := s.queues[f := q]).Now(t, if post.Some? then PostingOffer(post.value) else Returning))
    case PostClosure(t) =>
      s.(service := s.service + multiset{p.c}).Now(t, if p.PostingOffer? then Returning else Idle)
    case Return(t) =>
      // the status function may post one handler, the dispatch handler itself another
      var remains := s.incoming != [];
      var posts := if !remains then 0 else if s.remains then 1 else 2;
      s.(remains := remains, dispatcher := None).Now(t, if posts == 0 then Idle else PostingPump(posts, None))
    case Take(t, c) =>
      s.(service := s.service - multiset{c}, handled := s.handled[c.handler := s.handled[c.handler] + [c.message]])
       .Now(t, Running(c.handler, c.message))
    case Finish(t) => s.Now(t, Arming(p.f))
    case StartArming(t) =>
      if s.paused then s.(paused := false, starts := s.starts + 1).Now(t, PostingPump(1, Some(p.f)))
      else s.Now(t, Popping(p.f))
    case Pop(t) =>
      var (q, post) := PopLocked(s.queues[p.f], p.f);
      s.(queues := s.queues[p.f := q]).Now(t, if post.Some? then PostingPop(post.value) else Idle)
  }

  lemma DoKeepsSizes(chain: Chain, s: State, a: Action)
    requires Enabled(s, a) && |chain| == |s.queues|
    ensures var s' := Do(chain, s, a);
            |s'.queues| == |s.queues| && |s'.handled| == |s.handled| && |s'.threads| == |s.threads|
  {
    match a
    case Offer(_) =>
    case Take(_, _) =>
    case Pop(_) =>
    case _ => assert Do(chain, s, a).queues == s.queues;
  }

  /** No filter is registered, nothing is armed or started; messages may already have come in. */
  ghost predicate Initial(chain: Chain, s: State) {
    && s.paused && s.starts == 0 && s.pumps == 0 && s.dispatcher == None
    && s.remains == (s.incoming != []) && s.arrived == s.incoming && s.offered == []
    && |s.queues| == |s.handled| == |chain|
    && (forall f | 0 <= f < |chain| :: s.queues[f] == Contents([], []) && s.handled[f] == [])
    && s.service == multiset{} && s.armed == {} && s.since == [] && s.dispatched == 0
    && (forall t | 0 <= t < |s.threads| :: s.threads[t].Idle?)
  }

  /** The state after a sequence of actions, if each is possible when its turn comes. */
  ghost function Execute(chain: Chain, s: State, actions: seq<Action>): Option<State>
    requires |chain| == |s.queues|
    decreases |actions|
  {
    if actions == [] then Some(s)
    else if Enabled(s, actions[0]) then Execute(chain, Do(chain, s, actions[0]), actions[1..])
    else None
  }

  // ---------------------------------------------------------------- the handler of each filter

  /** The filter whose handler a thread holds. */
  function Holds(p: Thread): Option<nat> {
    match p
    case PostingPump(_, next) => next
    case PostingOffer(c) => Some(c.handler)
    case Running(f, _) => Some(f)
    case Arming(f) => Some(f)
    case Popping(f) => Some(f)
    case PostingPop(c) => Some(c.handler)
    case _ => None
  }

  /** Every handler mentioned anywhere belongs to a filter, and waits only in that filter's queue; only registered
      filters are armed or tried. */
  ghost predicate Shape(s: State) {
    && |s.since| <= |s.queues| == |s.handled|
    && (forall f | f in s.armed :: f < |s.since|)
    && (forall t | 0 <= t < |s.threads| && s.threads[t].Offering? :: s.threads[t].filters <= |s.since|)
    && (forall t | 0 <= t < |s.threads| && Holds(s.threads[t]).Some? ::
          Holds(s.threads[t]).value < |s.queues|)
    && (forall c | c in s.service :: c.handler < |s.queues|)
    && (forall f | 0 <= f < |s.queues| :: forall h | h in s.queues[f].handlers :: h == f)
  }

  lemma ShapeStep(chain: Chain, s: State, a: Action)
    requires Enabled(s, a) && |chain| == |s.queues| && Shape(s)
    ensures Shape(Do(chain, s, a))
  {
    match a
    case Offer(_) => ShapeOffer(chain, s, a);
    case Pop(_) => ShapePop(chain, s, a);
    case PostClosure(_) => ShapeService(chain, s, a);
    case Take(_, _) => ShapeService(chain, s, a);
    case Register(_) => ShapeSetup(chain, s, a);
    case Arm(_, _) => ShapeSetup(chain, s, a);
    case Dispatch(_) => ShapeSetup(chain, s, a);
    case _ => ShapeKept(s, Do(chain, s, a), a.t);
  }

  lemma ShapeSetup(chain: Chain, s: State, a: Action)
    requires Enabled(s, a) && |chain| == |s.queues| && Shape(s) && (a.Register? || a.Arm? || a.Dispatch?)
    ensures Shape(Do(chain, s, a))
  {
  }

  /** A thread moved on, and took no handler up. */
  lemma ShapeKept(s: State, s': State, t: nat)
    requires Shape(s) && t < |s.threads| == |s'.threads| && s'.threads == s.threads[t := s'.threads[t]]
    requires s'.queues == s.queues && s'.handled == s.handled && s'.since == s.since && s'.armed == s.armed
    requires s'.service == s.service && Holds(s'.threads[t]) == Holds(s.threads[t]) && !s'.threads[t].Offering?
    ensures Shape(s')
  {
  }

  lemma ShapeOffer(chain: Chain, s: State, a: Action)
    requires Enabled(s, a) && |chain| == |s.queues| && Shape(s) && a.Offer?
    ensures Shape(Do(chain, s, a))
  {
    var g := Chosen(chain, s.threads[a.t]);
    if g.Some? && s.queues[g.value].handlers != [] {
      var hs := s.queues[g.value].handlers;
      assert hs[0] in hs && forall h | h in hs[1..] :: h in hs;
    }
  }

  lemma ShapePop(chain: Chain, s: State, a: Action)
    requires Enabled(s, a) && |chain| == |s.queues| && Shape(s) && a.Pop?
    ensures Shape(Do(chain, s, a))
  {
  }

  lemma ShapeService(chain: Chain, s: State, a: Action)
    requires Enabled(s, a) && |chain| == |s.queues| && Shape(s) && (a.PostClosure? || a.Take?)
    ensures Shape(Do(chain, s, a))
  {
  }

  /** Where the one handler of a filter is. */
  datatype Location = Unarmed | WithThread(t: nat) | InQueue | Posted(m: Msg)

  /** The handler of filter `f` is at `l` and nowhere else. */
  ghost predicate Token(s: State, f: nat, l: Location)
    requires f < |s.queues|
  {
    && (forall t | 0 <= t < |s.threads| :: Holds(s.threads[t]) == Some(f) <==> l == WithThread(t))
    && (l.WithThread? ==> l.t < |s.threads|)
    && s.queues[f].handlers == (if l == InQueue then [f] else [])
    && (forall m :: s.service[Closure(f, m)] == if l == Posted(m) then 1 else 0)
    && (f in s.armed <==> l != Unarmed)
  }

  ghost function MoveToken(chain: Chain, s: State, a: Action, f: nat, l: Location): Location
    requires Enabled(s, a) && |chain| == |s.queues| && f < |s.queues|
  {
    var p := s.threads[a.t];
    match a
    case Arm(t, g) => if g == f then WithThread(t) else l
    case Offer(t) => if Chosen(chain, p) == Some(f) && s.queues[f].handlers != [] then WithThread(t) else l
    case PostClosure(_) => if p.c.handler == f then Posted(p.c.message) else l
    case Take(t, c) => if c.handler == f then WithThread(t) else l
    case Pop(_) => if p.f == f && s.queues[f].messages == [] then InQueue else l
    case _ => l
  }

  lemma TokenStep(chain: Chain, s: State, a: Action, f: nat, l: Location)
    requires Enabled(s, a) && |chain| == |s.queues| && f < |s.queues| && Shape(s) && Token(s, f, l)
    ensures Token(Do(chain, s, a), f, MoveToken(chain, s, a, f, l))
  {
    match a
    case Arm(_, _) => TokenArm(chain, s, a, f, l);
    case Take(_, _) => TokenTake(chain, s, a, f, l);
    case Offer(_) => TokenOffer(chain, s, a, f, l);
    case PostClosure(_) => TokenPost(chain, s, a, f, l);
    case Pop(_) => TokenPop(chain, s, a, f, l);
    case _ => TokenStay(chain, s, a, f, l);
  }

  /** Actions that leave every handler where it is. */
  lemma TokenStay(chain: Chain, s: State, a: Action, f: nat, l: Location)
    requires Enabled(s, a) && |chain| == |s.queues| && f < |s.queues| && Shape(s) && Token(s, f, l)
    requires !a.Arm? && !a.Offer? && !a.PostClosure? && !a.Take? && !a.Pop?
    ensures Token(Do(chain, s, a), f, l)
  {
    var s' := Do(chain, s, a);
    assert Holds(s'.threads[a.t]) == Holds(s.threads[a.t]);
  }

  lemma TokenArm(chain: Chain, s: State, a: Action, f: nat, l: Location)
    requires Enabled(s, a) && |chain| == |s.queues| && f < |s.queues| && Shape(s) && Token(s, f, l) && a.Arm?
    ensures Token(Do(chain, s, a), f, MoveToken(chain, s, a, f, l))
  {
  }

  lemma TokenTake(chain: Chain, s: State, a: Action, f: nat, l: Location)
    requires Enabled(s, a) && |chain| == |s.queues| && f < |s.queues| && Shape(s) && Token(s, f, l) && a.Take?
    ensures Token(Do(chain, s, a), f, MoveToken(chain, s, a, f, l))
  {
    assert s.service[a.c] >= 1;
  }

  lemma TokenOffer(chain: Chain, s: State, a: Action, f: nat, l: Location)
    requires Enabled(s, a) && |chain| == |s.queues| && f < |s.queues| && Shape(s) && Token(s, f, l) && a.Offer?
    ensures Token(Do(chain, s, a), f, MoveToken(chain, s, a, f, l))
  {
    if Chosen(chain, s.threads[a.t]) == Some(f) {
      TokenOfferHere(chain, s, a, f, l);
    } else {
      TokenOfferElsewhere(chain, s, a, f, l);
    }
  }

  lemma TokenOfferHere(chain: Chain, s: State, a: Action, f: nat, l: Location)
    requires Enabled(s, a) && |chain| == |s.queues| && f < |s.queues| && Token(s, f, l) && a.Offer?
    requires Chosen(chain, s.threads[a.t]) == Some(f)
    ensures Token(Do(chain, s, a), f, MoveToken(chain, s, a, f, l))
  {
    var s' := Do(chain, s, a);
    assert s'.service == s.service && s'.armed == s.armed;
  }

  lemma TokenOfferElsewhere(chain: Chain, s: State, a: Action, f: nat, l: Location)
    requires Enabled(s, a) && |chain| == |s.queues| && f < |s.queues| && Shape(s) && Token(s, f, l) && a.Offer?
    requires Chosen(chain, s.threads[a.t]) != Some(f)
    ensures Token(Do(chain, s, a), f, l)
  {
    var g, s' := Chosen(chain, s.threads[a.t]), Do(chain, s, a);
    if g.Some? && s.queues[g.value].handlers != [] {
      assert s.queues[g.value].handlers[0] in s.queues[g.value].handlers;
    }
    assert Holds(s'.threads[a.t]) != Some(f);
    assert s'.service == s.service && s'.armed == s.armed && s'.queues[f] == s.queues[f];
  }

  lemma TokenPost(chain: Chain, s: State, a: Action, f: nat, l: Location)
    requires Enabled(s, a) && |chain| == |s.queues| && f < |s.queues| && Shape(s) && Token(s, f, l) && a.PostClosure?
    ensures Token(Do(chain, s, a), f, MoveToken(chain, s, a, f, l))
  {
  }

  lemma TokenPop(chain: Chain, s: State, a: Action, f: nat, l: Location)
    requires Enabled(s, a) && |chain| == |s.queues| && f < |s.queues| && Shape(s) && Token(s, f, l) && a.Pop?
    ensures Token(Do(chain, s, a), f, MoveToken(chain, s, a, f, l))
  {
  }

  // ---------------------------------------------------------------- order of delivery

  /** The message on its way from the queue to the handler. */
  function InFlight(s: State, l: Location): seq<Msg> {
    match l
    case Posted(m) => [m]
    case WithThread(t) =>
      if t < |s.threads| && (s.threads[t].PostingOffer? || s.threads[t].PostingPop?)
      then [s.threads[t].c.message] else []
    case _ => []
  }

  /** The messages offered so far that were dispatched after filter `f` had been registered. */
  function Watched(s: State, f: nat): seq<Msg> {
    if f < |s.since| && s.since[f] <= |s.offered| then s.offered[s.since[f]..] else []
  }

  /** What was handled, then what is in flight, then what waits in the queue. */
  function Line(s: State, f: nat, l: Location): seq<Msg>
    requires f < |s.queues| && |s.handled| == |s.queues|
  {
    s.handled[f] + InFlight(s, l) + s.queues[f].messages
  }

  /** This is what filter `f` claimed so far; and no handler waits while a message does. */
  ghost predicate InOrder(chain: Chain, s: State, f: nat, l: Location)
    requires f < |s.queues| && |s.handled| == |s.queues|
  {
    && (s.queues[f].handlers != [] ==> s.queues[f].messages == [])
    && Claimed(chain, Watched(s, f), f) == Line(s, f, l)
  }

  /** The filters copied for a message are those registered before it was dispatched. */
  ghost predicate Registry(s: State) {
    && (forall t | 0 <= t < |s.threads| && s.threads[t].Offering? ::
          s.dispatched == |s.offered| + 1 && forall f | 0 <= f < |s.since| ::
            f < s.threads[t].filters <==> s.since[f] <= |s.offered|)
    && (forall f | 0 <= f < |s.since| :: s.since[f] <= s.dispatched)
    && |s.offered| <= s.dispatched <= |s.offered| + |Taken(s)|
  }

  lemma RegistryStep(chain: Chain, s: State, a: Action)
    requires Enabled(s, a) && |chain| == |s.queues| && Shape(s) && Pumped(s) && Registry(s)
    ensures Registry(Do(chain, s, a))
  {
    match a
    case Dispatch(_) => RegistryDispatch(chain, s, a);
    case Offer(_) => RegistryOffer(chain, s, a);
    case Register(_) => RegistryGrows(chain, s, a);
    case _ => RegistryStays(chain, s, a);
  }

  lemma RegistryDispatch(chain: Chain, s: State, a: Action)
    requires Enabled(s, a) && |chain| == |s.queues| && Pumped(s) && Registry(s) && a.Dispatch?
    ensures Registry(Do(chain, s, a))
  {
  }

  lemma RegistryOffer(chain: Chain, s: State, a: Action)
    requires Enabled(s, a) && |chain| == |s.queues| && Pumped(s) && Registry(s) && a.Offer?
    ensures Registry(Do(chain, s, a))
  {
    assert s.dispatcher == Some(a.t);
    assert !Do(chain, s, a).threads[a.t].Offering?;
  }

  lemma RegistryGrows(chain: Chain, s: State, a: Action)
    requires Enabled(s, a) && |chain| == |s.queues| && Shape(s) && Registry(s) && a.Register?
    ensures Registry(Do(chain, s, a))
  {
  }

  lemma RegistryStays(chain: Chain, s: State, a: Action)
    requires Enabled(s, a) && |chain| == |s.queues| && Pumped(s) && Registry(s)
    requires !a.Dispatch? && !a.Offer? && !a.Register?
    ensures Registry(Do(chain, s, a))
  {
    RegistryKept(s, Do(chain, s, a), a.t);
  }

  /** A thread moved on that neither was nor is about to try the filters. */
  lemma RegistryKept(s: State, s': State, t: nat)
    requires Registry(s) && t < |s.threads| == |s'.threads| && s'.threads == s.threads[t := s'.threads[t]]
    requires s'.since == s.since && s'.dispatched == s.dispatched && s'.offered == s.offered
    requires (!s.threads[t].Offering? && !s'.threads[t].Offering?) || s'.threads == s.threads
    requires s'.dispatcher == s.dispatcher || (s.dispatcher == Some(t) && !s.threads[t].Offering?)
    ensures Registry(s')
  {
  }

  lemma OrderStep(chain: Chain, s: State, a: Action, f: nat, l: Location)
    requires Enabled(s, a) && |chain| == |s.queues| && f < |s.queues| && Shape(s) && Token(s, f, l)
    requires Registry(s) && InOrder(chain, s, f, l)
    ensures |Do(chain, s, a).queues| == |Do(chain, s, a).handled| == |chain|
    ensures InOrder(chain, Do(chain, s, a), f, MoveToken(chain, s, a, f, l))
  {
    DoKeepsSizes(chain, s, a);
    match a
    case Take(_, _) => OrderTake(chain, s, a, f, l);
    case Offer(_) => OrderOffer(chain, s, a, f, l);
    case Pop(_) => OrderPop(chain, s, a, f, l);
    case _ => OrderStay(chain, s, a, f, l);
  }

  lemma OrderStay(chain: Chain, s: State, a: Action, f: nat, l: Location)
    requires Enabled(s, a) && |chain| == |s.queues| && f < |s.queues| && Shape(s) && Token(s, f, l)
    requires Registry(s) && InOrder(chain, s, f, l) && !a.Take? && !a.Offer? && !a.Pop?
    ensures |Do(chain, s, a).queues| == |Do(chain, s, a).handled| == |chain|
    ensures InOrder(chain, Do(chain, s, a), f, MoveToken(chain, s, a, f, l))
  {
    DoKeepsSizes(chain, s, a);
    var s' := Do(chain, s, a);
    assert s'.queues == s.queues && s'.offered == s.offered && s'.handled == s.handled;
    assert Watched(s', f) == Watched(s, f);
    FlightStays(chain, s, a, f, l);
  }

  lemma FlightStays(chain: Chain, s: State, a: Action, f: nat, l: Location)
    requires Enabled(s, a) && |chain| == |s.queues| && f < |s.queues| && Token(s, f, l)
    requires !a.Take? && !a.Offer? && !a.Pop?
    ensures InFlight(Do(chain, s, a), MoveToken(chain, s, a, f, l)) == InFlight(s, l)
  {
  }

  lemma OrderTake(chain: Chain, s: State, a: Action, f: nat, l: Location)
    requires Enabled(s, a) && |chain| == |s.queues| && f < |s.queues| && Shape(s) && Token(s, f, l)
    requires InOrder(chain, s, f, l) && a.Take?
    ensures |Do(chain, s, a).queues| == |Do(chain, s, a).handled| == |chain|
    ensures InOrder(chain, Do(chain, s, a), f, MoveToken(chain, s, a, f, l))
  {
    DoKeepsSizes(chain, s, a);
    assert Watched(Do(chain, s, a), f) == Watched(s, f);
    TakeKeepsLine(chain, s, a, f, l);
  }

  /** Taking a closure moves its message from flight to the handled ones. */
  lemma TakeKeepsLine(chain: Chain, s: State, a: Action, f: nat, l: Location)
    requires Enabled(s, a) && |chain| == |s.queues| == |s.handled| && f < |s.queues| && Token(s, f, l) && a.Take?
    ensures var s' := Do(chain, s, a);
            s'.queues == s.queues && |s'.handled| == |s.handled|
            && Line(s', f, MoveToken(chain, s, a, f, l)) == Line(s, f, l)
  {
    assert s.service[a.c] >= 1;
    var s', next := Do(chain, s, a), MoveToken(chain, s, a, f, l);
    if a.c.handler == f {
      assert l == Posted(a.c.message);
      assert s'.handled[f] == s.handled[f] + [a.c.message];
      assert InFlight(s', next) == [];
    } else {
      assert s'.handled[f] == s.handled[f] && InFlight(s', next) == InFlight(s, l);
    }
  }

  /** What an offer adds to the messages a filter watches, and to those it has claimed. */
  lemma OfferWatched(chain: Chain, s: State, a: Action, f: nat)
    requires Enabled(s, a) && |chain| == |s.queues| && f < |s.queues| && Shape(s) && Registry(s) && a.Offer?
    ensures var p := s.threads[a.t];
            Watched(Do(chain, s, a), f) == Watched(s, f) + if f < p.filters then [p.m] else []
  {
    var p, s' := s.threads[a.t], Do(chain, s, a);
    assert s'.since == s.since && s'.offered == s.offered + [p.m];
  }

  lemma OfferClaimed(chain: Chain, s: State, a: Action, f: nat)
    requires Enabled(s, a) && |chain| == |s.queues| && f < |s.queues| && Shape(s) && Registry(s) && a.Offer?
    ensures Claimed(chain, Watched(Do(chain, s, a), f), f)
         == Claimed(chain, Watched(s, f), f)
            + if Chosen(chain, s.threads[a.t]) == Some(f) then [s.threads[a.t].m] else []
  {
    var p := s.threads[a.t];
    OfferWatched(chain, s, a, f);
    ClaimOfPrefix(chain, p.filters, p.m);
    if f < p.filters { ClaimedSnoc(chain, Watched(s, f), p.m, f); }
  }

  lemma OrderOffer(chain: Chain, s: State, a: Action, f: nat, l: Location)
    requires Enabled(s, a) && |chain| == |s.queues| && f < |s.queues| && Shape(s) && Token(s, f, l)
    requires Registry(s) && InOrder(chain, s, f, l) && a.Offer?
    ensures |Do(chain, s, a).queues| == |Do(chain, s, a).handled| == |chain|
    ensures InOrder(chain, Do(chain, s, a), f, MoveToken(chain, s, a, f, l))
  {
    DoKeepsSizes(chain, s, a);
    OfferClaimed(chain, s, a, f);
    if Chosen(chain, s.threads[a.t]) == Some(f) {
      OfferExtendsLine(chain, s, a, f, l);
    } else {
      OfferKeepsLine(chain, s, a, f, l);
    }
  }

  /** An offer puts the message at the end of the line of the filter that takes it. */
  lemma OfferExtendsLine(chain: Chain, s: State, a: Action, f: nat, l: Location)
    requires Enabled(s, a) && |chain| == |s.queues| == |s.handled| && f < |s.queues| && Token(s, f, l) && a.Offer?
    requires Chosen(chain, s.threads[a.t]) == Some(f)
    requires s.queues[f].handlers != [] ==> s.queues[f].messages == []
    ensures var s' := Do(chain, s, a);
            && |s'.queues| == |s'.handled| == |chain|
            && (s'.queues[f].handlers != [] ==> s'.queues[f].messages == [])
            && Line(s', f, MoveToken(chain, s, a, f, l)) == Line(s, f, l) + [s.threads[a.t].m]
  {
    var s', next, m := Do(chain, s, a), MoveToken(chain, s, a, f, l), s.threads[a.t].m;
    if s.queues[f].handlers == [] {
      assert s'.queues[f].messages == s.queues[f].messages + [m] && InFlight(s', next) == InFlight(s, l);
    } else {
      assert InFlight(s, l) == [] && InFlight(s', next) == [m];
    }
  }

  lemma OfferKeepsLine(chain: Chain, s: State, a: Action, f: nat, l: Location)
    requires Enabled(s, a) && |chain| == |s.queues| == |s.handled| && f < |s.queues| && Token(s, f, l) && a.Offer?
    requires Chosen(chain, s.threads[a.t]) != Some(f)
    ensures var s' := Do(chain, s, a);
            && |s'.queues| == |s'.handled| == |chain| && s'.queues[f] == s.queues[f]
            && Line(s', f, MoveToken(chain, s, a, f, l)) == Line(s, f, l)
  {
    var s' := Do(chain, s, a);
    assert s'.queues[f] == s.queues[f] && InFlight(s', l) == InFlight(s, l);
  }

  lemma OrderPop(chain: Chain, s: State, a: Action, f: nat, l: Location)
    requires Enabled(s, a) && |chain| == |s.queues| && f < |s.queues| && Shape(s) && Token(s, f, l)
    requires InOrder(chain, s, f, l) && a.Pop?
    ensures |Do(chain, s, a).queues| == |Do(chain, s, a).handled| == |chain|
    ensures InOrder(chain, Do(chain, s, a), f, MoveToken(chain, s, a, f, l))
  {
    DoKeepsSizes(chain, s, a);
    assert Watched(Do(chain, s, a), f) == Watched(s, f);
    PopKeepsLine(chain, s, a, f, l);
  }

  /** `async_pop` puts the first waiting message in flight. */
  lemma PopKeepsLine(chain: Chain, s: State, a: Action, f: nat, l: Location)
    requires Enabled(s, a) && |chain| == |s.queues| == |s.handled| && f < |s.queues| && Token(s, f, l) && a.Pop?
    requires s.queues[f].handlers != [] ==> s.queues[f].messages == []
    ensures var s' := Do(chain, s, a);
            && |s'.queues| == |s'.handled| == |chain|
            && (s'.queues[f].handlers != [] ==> s'.queues[f].messages == [])
            && Line(s', f, MoveToken(chain, s, a, f, l)) == Line(s, f, l)
  {
    var s', next := Do(chain, s, a), MoveToken(chain, s, a, f, l);
    if s.threads[a.t].f == f {
      assert l == WithThread(a.t);
      assert InFlight(s, l) == [];
      if s.queues[f].messages != [] {
        assert InFlight(s', next) == [s.queues[f].messages[0]];
      }
    } else {
      assert s'.queues[f] == s.queues[f] && next == l && InFlight(s', l) == InFlight(s, l);
    }
  }

  // ---------------------------------------------------------------- the dispatch pump

  ghost predicate InDispatch(p: Thread) { p.Offering? || p.PostingOffer? || p.Returning? }

  /** The message a dispatching thread has taken but not yet offered. */
  function Taken(s: State): seq<Msg> {
    if s.dispatcher.Some? && s.dispatcher.value < |s.threads| && s.threads[s.dispatcher.value].Offering?
    then [s.threads[s.dispatcher.value].m] else []
  }

  /** A dispatch handler is in the io_service, about to be posted, or running. */
  ghost predicate PumpPending(s: State) {
    s.pumps > 0 || s.dispatcher.Some? || exists t :: 0 <= t < |s.threads| && s.threads[t].PostingPump?
  }

  ghost predicate Pumped(s: State) {
    && s.arrived == s.offered + Taken(s) + s.incoming
    && (forall t | 0 <= t < |s.threads| :: InDispatch(s.threads[t]) <==> s.dispatcher == Some(t))
    && (s.dispatcher.Some? ==> s.dispatcher.value < |s.threads| && InDispatch(s.threads[s.dispatcher.value]))
    && (forall t | 0 <= t < |s.threads| && s.threads[t].PostingPump? :: s.threads[t].left > 0)
    && (s.incoming != [] ==> s.remains)
    && (!s.paused && s.remains ==> PumpPending(s))
    && s.starts == (if s.paused then 0 else 1)
  }

  lemma PumpStep(chain: Chain, s: State, a: Action)
    requires Enabled(s, a) && |chain| == |s.queues| && Pumped(s)
    ensures Pumped(Do(chain, s, a))
  {
    match a
    case Arrive(_, _) => PumpArrive(chain, s, a);
    case Start(_) => PumpStart(chain, s, a);
    case StartArming(_) => PumpStart(chain, s, a);
    case PostPump(_) => PumpPost(chain, s, a);
    case DispatchNothing(_) => PumpDispatch(chain, s, a);
    case Dispatch(_) => PumpDispatch(chain, s, a);
    case Offer(_) => PumpOffer(chain, s, a);
    case Return(_) => PumpReturn(chain, s, a);
    case _ => PumpOther(chain, s, a);
  }

  lemma PumpArrive(chain: Chain, s: State, a: Action)
    requires Enabled(s, a) && |chain| == |s.queues| && Pumped(s) && a.Arrive?
    ensures Pumped(Do(chain, s, a))
  {
    var s' := Do(chain, s, a);
    PumpKept(s, s', a.t);
    assert !s.remains ==> s'.threads[a.t].PostingPump?;
  }

  lemma PumpStart(chain: Chain, s: State, a: Action)
    requires Enabled(s, a) && |chain| == |s.queues| && Pumped(s) && (a.Start? || a.StartArming?)
    ensures Pumped(Do(chain, s, a))
  {
    var s' := Do(chain, s, a);
    PumpKept(s, s', a.t);
    assert s.paused ==> s'.threads[a.t].PostingPump?;
  }

  lemma PumpPost(chain: Chain, s: State, a: Action)
    requires Enabled(s, a) && |chain| == |s.queues| && Pumped(s) && a.PostPump?
    ensures Pumped(Do(chain, s, a))
  {
  }

  lemma PumpDispatch(chain: Chain, s: State, a: Action)
    requires Enabled(s, a) && |chain| == |s.queues| && Pumped(s) && (a.Dispatch? || a.DispatchNothing?)
    ensures Pumped(Do(chain, s, a))
  {
  }

  lemma PumpOffer(chain: Chain, s: State, a: Action)
    requires Enabled(s, a) && |chain| == |s.queues| && Pumped(s) && a.Offer?
    ensures Pumped(Do(chain, s, a))
  {
    assert s.dispatcher == Some(a.t);
  }

  lemma PumpReturn(chain: Chain, s: State, a: Action)
    requires Enabled(s, a) && |chain| == |s.queues| && Pumped(s) && a.Return?
    ensures Pumped(Do(chain, s, a))
  {
    assert s.dispatcher == Some(a.t);
    var s' := Do(chain, s, a);
    assert s'.remains ==> s'.threads[a.t].PostingPump?;
  }

  lemma PumpOther(chain: Chain, s: State, a: Action)
    requires Enabled(s, a) && |chain| == |s.queues| && Pumped(s)
    requires a.Register? || a.Arm? || a.PostClosure? || a.Take? || a.Finish? || a.Pop?
    ensures Pumped(Do(chain, s, a))
  {
    PumpKept(s, Do(chain, s, a), a.t);
  }

  /** A thread that is not posting a dispatch handler cannot be the one pending. */
  lemma PumpKept(s: State, s': State, t: nat)
    requires t < |s.threads| && !s.threads[t].PostingPump?
    requires |s'.threads| == |s.threads| && forall u | 0 <= u < |s.threads| && u != t :: s'.threads[u] == s.threads[u]
    requires s'.pumps >= s.pumps && (s.dispatcher.Some? ==> s'.dispatcher.Some?)
    ensures PumpPending(s) ==> PumpPending(s')
  {
    if exists u :: 0 <= u < |s.threads| && s.threads[u].PostingPump? {
      var u :| 0 <= u < |s.threads| && s.threads[u].PostingPump?;
      assert s'.threads[u].PostingPump?;
    }
  }
}
