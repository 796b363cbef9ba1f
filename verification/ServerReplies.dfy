/** Replies of a DbusObjectServer over whole runs: the three filters of the server on the delivery system of
    ServerRuns, with the dispatch of RemoteCall behind the method filter.  Objects and methods may be registered
    while messages come in.  A reply is logged when the handler that sends it finishes. */
module ServerReplies {
  import opened DeliveryQueue
  import opened FilterChain
  import opened Items
  import opened ServerDelivery
  import opened ServerRuns
  import RemoteCall

  /** What a handler sends: the introspection document, the managed objects, or what the called method answers. */
  datatype Answer = Document | ManagedObjects | Called(reply: RemoteCall.Reply)

  /** The answer to the message that filter `filter` handled as its `n`-th. */
  datatype Entry = Entry(filter: nat, n: nat, answer: Answer)

  /** `finished` counts how often the handler of each filter has finished. */
  datatype Server = Server(run: State, objects: seq<RemoteCall.Object>, finished: seq<nat>, log: seq<Entry>)

  datatype Event =
    | Delivery(a: Action)
    | AddObject(o: RemoteCall.Object)
    | RegisterMethod(index: nat, iface: string, name: string, m: RemoteCall.Method)

  /** The bodies that come with the messages. */
  type Bodies = f: Msg -> seq<Item> | forall m :: AllWellTyped(f(m)) ghost witness (m: Msg) => []

  function Addressed(m: Msg): RemoteCall.Target { RemoteCall.Target(m.path, m.iface, m.member) }

  /** What the handler of filter `f` sends for `m`, which is at most one reply. */
  ghost function AnswersTo(bodies: Bodies, objects: seq<RemoteCall.Object>, f: nat, m: Msg): (r: seq<Answer>)
    requires RemoteCall.TypedObjects(objects)
    ensures |r| <= 1
  {
    if f == 0 then [Document]
    else if f == 1 then [ManagedObjects]
    else if exists k :: RemoteCall.Answers(objects, Addressed(m), k) then
      var k :| RemoteCall.Answers(objects, Addressed(m), k);
      RemoteCall.OneMethodAnswers(objects, Addressed(m), k);
      [Called(RemoteCall.Served(k, bodies(m)))]
    else []
  }

  /** The method filter's handler: it sends what `on_method_call` replies. */
  method OnMethodCall(ghost bodies: Bodies, objects: seq<RemoteCall.Object>, m: Msg, body: seq<Token>)
    returns (answers: seq<Answer>)
    requires RemoteCall.TypedObjects(objects) && body == Flatten(bodies(m))
    ensures answers == AnswersTo(bodies, objects, 2, m)
  {
    var replies := RemoteCall.OnMethodCall(objects, Addressed(m), body, bodies(m));
    answers := if |replies| == 0 then [] else [Called(replies[0])];
  }

  /** `register_method`, on an interface the object has or is given now. */
  function WithMethod(objects: seq<RemoteCall.Object>, o: nat, iface: string, name: string, m: RemoteCall.Method)
    : seq<RemoteCall.Object>
    requires o < |objects|
  {
    var obj := objects[o];
    var methods := if iface in obj.interfaces then obj.interfaces[iface] else map[];
    objects[o := obj.(interfaces := obj.interfaces[iface := RemoteCall.Register(methods, name, m)])]
  }

  ghost predicate Possible(s: Server, e: Event) {
    match e
    case Delivery(a) =>
      && |s.run.queues| == 3 && Enabled(s.run, a)
      && (a.Finish? ==> s.run.threads[a.t].f < |s.finished| && RemoteCall.TypedObjects(s.objects))
    case AddObject(o) => RemoteCall.TypedObjects([o])
    case RegisterMethod(o, _, _, m) => o < |s.objects| && RemoteCall.TypedMethod(m)
  }

  ghost function Next(bodies: Bodies, s: Server, e: Event): Server
    requires Possible(s, e)
  {
    match e
    case Delivery(a) =>
      var s' := s.(run := Do(SERVER_CHAIN, s.run, a));
      if !a.Finish? then s'
      else
        var p := s.run.threads[a.t];
        var n := s.finished[p.f];
        var sent := AnswersTo(bodies, s.objects, p.f, p.m);
        s'.(finished := s.finished[p.f := n + 1],
            log := s.log + if sent == [] then [] else [Entry(p.f, n, sent[0])])
    case AddObject(o) => s.(objects := s.objects + [o])
    case RegisterMethod(o, iface, name, m) => s.(objects := WithMethod(s.objects, o, iface, name, m))
  }

  ghost function Serve(bodies: Bodies, s: Server, events: seq<Event>): Option<Server>
    decreases |events|
  {
    if events == [] then Some(s)
    else if Possible(s, events[0]) then Serve(bodies, Next(bodies, s, events[0]), events[1..])
    else None
  }

  ghost predicate Starting(s: Server) {
    Initial(SERVER_CHAIN, s.run) && RemoteCall.TypedObjects(s.objects) && s.finished == [0, 0, 0] && s.log == []
  }

  // ---------------------------------------------------------------- handlers that have finished

  predicate IsRunning(p: Thread, f: nat) { p.Running? && p.f == f }

  /** Of the messages filter `f` has taken, all but the one that is being worked on are finished, `n` in number. */
  ghost predicate Counts(r: State, f: nat, n: nat) {
    && f < |r.handled| && n <= |r.handled[f]|
    && (forall t | 0 <= t < |r.threads| && IsRunning(r.threads[t], f) ::
          |r.handled[f]| == n + 1 && r.handled[f][n] == r.threads[t].m)
    && ((forall t | 0 <= t < |r.threads| :: !IsRunning(r.threads[t], f)) ==> |r.handled[f]| == n)
  }

  lemma CountsStep(r: State, a: Action, f: nat, n: nat, l: Location)
    requires Inv(SERVER_CHAIN, r, f, l) && Enabled(r, a) && Counts(r, f, n)
    ensures var r' := Do(SERVER_CHAIN, r, a);
            && Counts(r', f, if a.Finish? && r.threads[a.t].f == f then n + 1 else n)
            && r.handled[f] <= r'.handled[f]
  {
    match a
    case Take(_, _) => CountsTake(r, a, f, n, l);
    case Finish(_) => CountsFinish(r, a, f, n, l);
    case _ => CountsOther(r, a, f, n);
  }

  lemma CountsOther(r: State, a: Action, f: nat, n: nat)
    requires |r.queues| == 3 && Enabled(r, a) && Counts(r, f, n) && !a.Take? && !a.Finish?
    ensures Counts(Do(SERVER_CHAIN, r, a), f, n) && Do(SERVER_CHAIN, r, a).handled == r.handled
  {
    CountsKept(r, Do(SERVER_CHAIN, r, a), a.t, f, n);
  }

  lemma CountsTake(r: State, a: Action, f: nat, n: nat, l: Location)
    requires Inv(SERVER_CHAIN, r, f, l) && Enabled(r, a) && Counts(r, f, n) && a.Take?
    ensures Counts(Do(SERVER_CHAIN, r, a), f, n) && r.handled[f] <= Do(SERVER_CHAIN, r, a).handled[f]
  {
    var r' := Do(SERVER_CHAIN, r, a);
    if a.c.handler == f {
      assert r.service[a.c] >= 1;
      assert forall t | 0 <= t < |r.threads| :: Holds(r.threads[t]) != Some(f);
      assert IsRunning(r'.threads[a.t], f);
    } else {
      CountsKept(r, r', a.t, f, n);
    }
  }

  lemma CountsFinish(r: State, a: Action, f: nat, n: nat, l: Location)
    requires Inv(SERVER_CHAIN, r, f, l) && Enabled(r, a) && Counts(r, f, n) && a.Finish?
    ensures var r' := Do(SERVER_CHAIN, r, a);
            && Counts(r', f, if r.threads[a.t].f == f then n + 1 else n)
            && r.handled[f] <= r'.handled[f]
  {
    var r' := Do(SERVER_CHAIN, r, a);
    assert r'.handled == r.handled;
    if r.threads[a.t].f == f {
      assert IsRunning(r.threads[a.t], f) && l == WithThread(a.t);
      assert forall t | 0 <= t < |r.threads| && t != a.t :: Holds(r.threads[t]) != Some(f);
    } else {
      CountsKept(r, r', a.t, f, n);
    }
  }

  /** A thread moved on that neither finished nor started the handler of `f`. */
  lemma CountsKept(r: State, r': State, t: nat, f: nat, n: nat)
    requires Counts(r, f, n) && t < |r.threads| == |r'.threads| && r'.threads == r.threads[t := r'.threads[t]]
    requires |r'.handled| == |r.handled| && r'.handled[f] == r.handled[f]
    requires !IsRunning(r.threads[t], f) && !IsRunning(r'.threads[t], f)
    ensures Counts(r', f, n)
  {
    if forall u | 0 <= u < |r'.threads| :: !IsRunning(r'.threads[u], f) {
      assert forall u | 0 <= u < |r.threads| && u != t :: r.threads[u] == r'.threads[u];
    }
  }

  // ---------------------------------------------------------------- registration

  /** Whatever was answered still is, by the same method. */
  ghost predicate Grown(a: seq<RemoteCall.Object>, b: seq<RemoteCall.Object>) {
    && RemoteCall.TypedObjects(a) && RemoteCall.TypedObjects(b)
    && forall to, k :: RemoteCall.Answers(a, to, k) ==> RemoteCall.Answers(b, to, k)
  }

  /** Adding an object makes exactly its own methods answer, and only if no object had its path. */
  lemma AddObjectExactly(objects: seq<RemoteCall.Object>, o: RemoteCall.Object, to: RemoteCall.Target,
                         k: RemoteCall.Method)
    ensures RemoteCall.Answers(objects + [o], to, k)
       <==> || RemoteCall.Answers(objects, to, k)
            || (&& (forall x | x in objects :: x.name != to.path)
                && o.name == to.path && to.iface in o.interfaces && to.member in o.interfaces[to.iface]
                && o.interfaces[to.iface][to.member] == k && k.Lambda?)
  {
    var objects' := objects + [o];
    if RemoteCall.Answers(objects, to, k) {
      var n: nat :| RemoteCall.Found(objects, to, k, n);
      assert RemoteCall.Found(objects', to, k, n);
    } else if RemoteCall.Answers(objects', to, k) {
      var n: nat :| RemoteCall.Found(objects', to, k, n);
      assert forall j | 0 <= j < |objects| :: objects'[j] == objects[j];
      assert n < |objects| ==> RemoteCall.Found(objects, to, k, n);
      forall x | x in objects ensures x.name != to.path {
        var j :| 0 <= j < |objects| && objects[j] == x;
        assert objects'[j] == x;
      }
    } else if forall x | x in objects :: x.name != to.path {
      assert RemoteCall.FirstWithPath(objects', to.path, |objects|) <==> o.name == to.path;
      assert !RemoteCall.Found(objects', to, k, |objects|);
    }
  }

  lemma AddObjectGrows(objects: seq<RemoteCall.Object>, o: RemoteCall.Object)
    requires RemoteCall.TypedObjects(objects) && RemoteCall.TypedObjects([o])
    ensures Grown(objects, objects + [o])
  {
    var objects' := objects + [o];
    assert RemoteCall.TypedObjects(objects') by {
      forall x | x in objects' ensures x in objects || x in [o] {}
    }
    forall to, k | RemoteCall.Answers(objects, to, k) ensures RemoteCall.Answers(objects', to, k) {
      AddObjectExactly(objects, o, to, k);
    }
  }

  /** Registering a method makes exactly this method answer, and only if the object is the first with its path and had
      no method of that name; every call that was answered before is answered by the same method afterwards. */
  lemma RegisterMethodExactly(objects: seq<RemoteCall.Object>, o: nat, iface: string, name: string,
                              m: RemoteCall.Method, to: RemoteCall.Target, k: RemoteCall.Method)
    requires o < |objects|
    ensures RemoteCall.Answers(WithMethod(objects, o, iface, name, m), to, k)
       <==> || RemoteCall.Answers(objects, to, k)
            || (&& RemoteCall.FirstWithPath(objects, to.path, o) && to.iface == iface && to.member == name
                && !(iface in objects[o].interfaces && name in objects[o].interfaces[iface])
                && k == m && k.Lambda?)
  {
    var objects' := WithMethod(objects, o, iface, name, m);
    assert forall j | 0 <= j < |objects| :: objects'[j].name == objects[j].name;
    forall n: nat
      ensures RemoteCall.FirstWithPath(objects', to.path, n) <==> RemoteCall.FirstWithPath(objects, to.path, n)
      ensures RemoteCall.Found(objects', to, k, n) <==>
                || RemoteCall.Found(objects, to, k, n)
                || (&& n == o && RemoteCall.FirstWithPath(objects, to.path, o) && to.iface == iface && to.member == name
                    && !(iface in objects[o].interfaces && name in objects[o].interfaces[iface])
                    && k == m && k.Lambda?)
    {
    }
    if RemoteCall.Answers(objects, to, k) {
      var n: nat :| RemoteCall.Found(objects, to, k, n);
      assert RemoteCall.Found(objects', to, k, n);
    } else if RemoteCall.Answers(objects', to, k) {
      var n: nat :| RemoteCall.Found(objects', to, k, n);
    } else {
      assert !RemoteCall.Found(objects', to, k, o);
    }
  }

  /** What registrations during a run do: the same, for the objects the next request finds. */
  lemma RegistrationTakesEffect(bodies: Bodies, s: Server, e: Event, to: RemoteCall.Target, k: RemoteCall.Method)
    requires Possible(s, e)
    ensures e.AddObject? ==>
              (RemoteCall.Answers(Next(bodies, s, e).objects, to, k)
               <==> || RemoteCall.Answers(s.objects, to, k)
                    || (&& (forall x | x in s.objects :: x.name != to.path)
                        && e.o.name == to.path && to.iface in e.o.interfaces && to.member in e.o.interfaces[to.iface]
                        && e.o.interfaces[to.iface][to.member] == k && k.Lambda?))
    ensures e.RegisterMethod? ==>
              (RemoteCall.Answers(Next(bodies, s, e).objects, to, k)
               <==> || RemoteCall.Answers(s.objects, to, k)
                    || (&& RemoteCall.FirstWithPath(s.objects, to.path, e.index)
                        && to.iface == e.iface && to.member == e.name
                        && !(e.iface in s.objects[e.index].interfaces
                             && e.name in s.objects[e.index].interfaces[e.iface])
                        && k == e.m && k.Lambda?))
    ensures e.Delivery? ==> Next(bodies, s, e).objects == s.objects
  {
    match e
    case AddObject(o) => AddObjectExactly(s.objects, o, to, k);
    case RegisterMethod(o, iface, name, m) => RegisterMethodExactly(s.objects, o, iface, name, m, to, k);
    case Delivery(_) =>
  }

  lemma RegisterMethodGrows(objects: seq<RemoteCall.Object>, o: nat, iface: string, name: string, m: RemoteCall.Method)
    requires RemoteCall.TypedObjects(objects) && o < |objects| && RemoteCall.TypedMethod(m)
    ensures Grown(objects, WithMethod(objects, o, iface, name, m))
  {
    var objects' := WithMethod(objects, o, iface, name, m);
    forall x, i, n | x in objects' && i in x.interfaces && n in x.interfaces[i]
      ensures RemoteCall.TypedMethod(x.interfaces[i][n])
    {
      assert objects[o] in objects;
    }
    forall to, k | RemoteCall.Answers(objects, to, k) ensures RemoteCall.Answers(objects', to, k) {
      RegisterMethodExactly(objects, o, iface, name, m, to, k);
    }
  }

  lemma AnswersStay(bodies: Bodies, a: seq<RemoteCall.Object>, b: seq<RemoteCall.Object>, f: nat, m: Msg)
    requires Grown(a, b) && AnswersTo(bodies, a, f, m) != []
    ensures AnswersTo(bodies, b, f, m) == AnswersTo(bodies, a, f, m)
  {
    if f >= 2 {
      var k :| RemoteCall.Answers(a, Addressed(m), k);
      RemoteCall.OneMethodAnswers(a, Addressed(m), k);
      RemoteCall.OneMethodAnswers(b, Addressed(m), k);
    }
  }

  // ---------------------------------------------------------------- what every step keeps

  ghost predicate Sound(r: State, f: nat) {
    exists l :: Inv(SERVER_CHAIN, r, f, l)
  }

  ghost predicate Delivering(s: Server) {
    && |s.finished| == |s.run.handled| == |s.run.queues| == 3 && RemoteCall.TypedObjects(s.objects)
    && forall f: nat | f < 3 :: Sound(s.run, f) && Counts(s.run, f, s.finished[f])
  }

  ghost predicate HandledGrows(r: State, r': State) {
    |r.handled| == |r'.handled| == 3 && forall f: nat | f < 3 :: r.handled[f] <= r'.handled[f]
  }

  /** Entry `x` is what the present objects answer to a finished message. */
  ghost predicate Genuine(bodies: Bodies, s: Server, x: Entry)
    requires RemoteCall.TypedObjects(s.objects)
  {
    && x.filter < |s.finished| && x.filter < |s.run.handled|
    && x.n < s.finished[x.filter] && x.n < |s.run.handled[x.filter]|
    && AnswersTo(bodies, s.objects, x.filter, s.run.handled[x.filter][x.n]) == [x.answer]
  }

  /** No handled message has two entries. */
  ghost predicate Distinct(log: seq<Entry>) {
    forall i, j | 0 <= i < j < |log| :: log[i].filter != log[j].filter || log[i].n != log[j].n
  }

  ghost predicate Logged(bodies: Bodies, s: Server)
    requires RemoteCall.TypedObjects(s.objects)
  {
    Distinct(s.log) && forall x | x in s.log :: Genuine(bodies, s, x)
  }

  /** Every message finished since a time when `base` were, and which the objects of that time answered, has its
      entry. */
  ghost predicate Covered(bodies: Bodies, earlier: seq<RemoteCall.Object>, base: seq<nat>, s: Server)
    requires RemoteCall.TypedObjects(earlier) && |base| == 3
  {
    && |s.finished| == |s.run.handled| == 3
    && forall f: nat, n: nat | f < 3 && base[f] <= n < s.finished[f] && n < |s.run.handled[f]| ::
         var sent := AnswersTo(bodies, earlier, f, s.run.handled[f][n]);
         sent != [] ==> Entry(f, n, sent[0]) in s.log
  }

  lemma DeliveringStep(bodies: Bodies, s: Server, e: Event)
    requires Delivering(s) && Possible(s, e)
    ensures var s' := Next(bodies, s, e);
            Delivering(s') && Grown(s.objects, s'.objects) && HandledGrows(s.run, s'.run)
  {
    match e
    case AddObject(o) => AddObjectGrows(s.objects, o);
    case RegisterMethod(o, iface, name, m) => RegisterMethodGrows(s.objects, o, iface, name, m);
    case Delivery(a) =>
      var s' := Next(bodies, s, e);
      forall f: nat | f < 3
        ensures Sound(s'.run, f) && Counts(s'.run, f, s'.finished[f])
        ensures f < |s'.run.handled| && s.run.handled[f] <= s'.run.handled[f]
      {
        FilterStep(s.run, a, f, s.finished[f]);
      }
  }

  lemma FilterStep(r: State, a: Action, f: nat, n: nat)
    requires Sound(r, f) && |r.queues| == 3 && Enabled(r, a) && Counts(r, f, n)
    ensures var r' := Do(SERVER_CHAIN, r, a);
            && Sound(r', f) && Counts(r', f, if a.Finish? && r.threads[a.t].f == f then n + 1 else n)
            && r.handled[f] <= r'.handled[f]
  {
    var l :| Inv(SERVER_CHAIN, r, f, l);
    CountsStep(r, a, f, n, l);
    var r', next := InvStep(SERVER_CHAIN, r, a, f, l);
  }

  // From `s` to `s2` nothing was sent, or the handler of filter `f` finished with message `m`.

  ghost predicate Silent(s: Server, s2: Server) {
    && Delivering(s) && Delivering(s2) && Grown(s.objects, s2.objects) && HandledGrows(s.run, s2.run)
    && s2.log == s.log && s2.finished == s.finished
  }

  ghost predicate Sends(bodies: Bodies, s: Server, s2: Server, f: nat, m: Msg) {
    && Delivering(s) && Delivering(s2) && s2.objects == s.objects && s2.run.handled == s.run.handled
    && f < 3 && s2.finished == s.finished[f := s.finished[f] + 1]
    && s.finished[f] < |s.run.handled[f]| && s.run.handled[f][s.finished[f]] == m
    && var sent := AnswersTo(bodies, s.objects, f, m);
       s2.log == s.log + if sent == [] then [] else [Entry(f, s.finished[f], sent[0])]
  }

  lemma FinishSends(bodies: Bodies, s: Server, t: nat)
    requires Delivering(s) && Possible(s, Delivery(Finish(t))) && Delivering(Next(bodies, s, Delivery(Finish(t))))
    ensures var p := s.run.threads[t]; Sends(bodies, s, Next(bodies, s, Delivery(Finish(t))), p.f, p.m)
  {
    var p := s.run.threads[t];
    assert IsRunning(p, p.f) && Counts(s.run, p.f, s.finished[p.f]);
  }

  lemma SilentKeeps(bodies: Bodies, s: Server, s2: Server, earlier: seq<RemoteCall.Object>, base: seq<nat>)
    requires Silent(s, s2) && Grown(earlier, s.objects) && |base| == 3
    ensures Logged(bodies, s) ==> Logged(bodies, s2)
    ensures Covered(bodies, earlier, base, s) ==> Covered(bodies, earlier, base, s2)
  {
    forall x | x in s.log && Genuine(bodies, s, x) ensures Genuine(bodies, s2, x) {
      AnswersStay(bodies, s.objects, s2.objects, x.filter, s.run.handled[x.filter][x.n]);
    }
    forall f: nat | f < 3 ensures s.finished[f] <= |s.run.handled[f]| {
      assert Counts(s.run, f, s.finished[f]);
    }
  }

  lemma SendKeepsLogged(bodies: Bodies, s: Server, s2: Server, f: nat, m: Msg)
    requires Sends(bodies, s, s2, f, m) && Logged(bodies, s)
    ensures Logged(bodies, s2)
  {
    forall x | x in s.log ensures Genuine(bodies, s2, x) && (x.filter != f || x.n < s.finished[f]) {
      assert Genuine(bodies, s, x);
    }
    if s2.log != s.log {
      var last := Entry(f, s.finished[f], AnswersTo(bodies, s.objects, f, m)[0]);
      assert s2.log == s.log + [last] && Genuine(bodies, s2, last);
      AppendDistinct(s.log, last);
    }
  }

  lemma AppendDistinct(log: seq<Entry>, last: Entry)
    requires Distinct(log) && forall x | x in log :: x.filter != last.filter || x.n != last.n
    ensures Distinct(log + [last])
  {
  }

  lemma SendKeepsCovered(bodies: Bodies, s: Server, s2: Server, f: nat, m: Msg, earlier: seq<RemoteCall.Object>,
                         base: seq<nat>)
    requires Sends(bodies, s, s2, f, m) && Grown(earlier, s.objects) && |base| == 3 && Covered(bodies, earlier, base, s)
    ensures Covered(bodies, earlier, base, s2)
  {
    var n := s.finished[f];
    if AnswersTo(bodies, earlier, f, m) != [] { AnswersStay(bodies, earlier, s.objects, f, m); }
    forall g: nat, k: nat | g < 3 && base[g] <= k < s2.finished[g] && k < |s2.run.handled[g]|
      ensures var sent := AnswersTo(bodies, earlier, g, s2.run.handled[g][k]);
              sent != [] ==> Entry(g, k, sent[0]) in s2.log
    {
      if g == f && k == n {
        assert s2.run.handled[g][k] == m;
      } else {
        assert k < s.finished[g] && s2.run.handled[g][k] == s.run.handled[g][k];
      }
    }
  }

  /** One event keeps all of this, for the objects and counts of any earlier time. */
  lemma ServerStep(bodies: Bodies, s: Server, e: Event, earlier: seq<RemoteCall.Object>, base: seq<nat>)
    requires Delivering(s) && Possible(s, e) && Logged(bodies, s)
    requires |base| == 3 && Grown(earlier, s.objects) && Covered(bodies, earlier, base, s)
    ensures var s2 := Next(bodies, s, e);
            Delivering(s2) && Logged(bodies, s2) && Grown(earlier, s2.objects) && Covered(bodies, earlier, base, s2)
  {
    var s2 := Next(bodies, s, e);
    DeliveringStep(bodies, s, e);
    if e.Delivery? && e.a.Finish? {
      var p := s.run.threads[e.a.t];
      FinishSends(bodies, s, e.a.t);
      SendKeepsLogged(bodies, s, s2, p.f, p.m);
      SendKeepsCovered(bodies, s, s2, p.f, p.m, earlier, base);
    } else {
      assert s2.log == s.log && s2.finished == s.finished;
      SilentKeeps(bodies, s, s2, earlier, base);
    }
  }

  lemma StartingKeeps(bodies: Bodies, s: Server)
    requires Starting(s)
    ensures Delivering(s) && Logged(bodies, s)
  {
    forall f: nat | f < 3 ensures Counts(s.run, f, 0) && Sound(s.run, f) {
      InitialInv(SERVER_CHAIN, s.run, f);
    }
  }

  lemma {:induction false} RunKeeps(bodies: Bodies, s: Server, events: seq<Event>, e: Server,
                                    earlier: seq<RemoteCall.Object>, base: seq<nat>)
    requires Delivering(s) && Logged(bodies, s) && Serve(bodies, s, events) == Some(e)
    requires |base| == 3 && Grown(earlier, s.objects) && Covered(bodies, earlier, base, s)
    ensures Delivering(e) && Logged(bodies, e) && Grown(earlier, e.objects) && Covered(bodies, earlier, base, e)
    decreases |events|
  {
    if events != [] {
      ServerStep(bodies, s, events[0], earlier, base);
      RunKeeps(bodies, Next(bodies, s, events[0]), events[1..], e, earlier, base);
    }
  }

  /** ... in particular for those of time `s`. */
  lemma RunKeepsSince(bodies: Bodies, s: Server, events: seq<Event>, e: Server)
    requires Delivering(s) && Logged(bodies, s) && Serve(bodies, s, events) == Some(e)
    ensures Delivering(e) && Logged(bodies, e) && Grown(s.objects, e.objects)
    ensures Covered(bodies, s.objects, s.finished, e)
  {
    RunKeeps(bodies, s, events, e, s.objects, s.finished);
  }

  lemma {:induction false} RunExtends(bodies: Bodies, s: Server, events: seq<Event>, e: Server)
    requires Serve(bodies, s, events) == Some(e)
    ensures s.run.arrived <= e.run.arrived && s.run.since <= e.run.since
    decreases |events|
  {
    if events != [] { RunExtends(bodies, Next(bodies, s, events[0]), events[1..], e); }
  }

  // ---------------------------------------------------------------- replies and what arrived

  /** Entry `x` answers the `p`-th message that arrived. */
  ghost predicate RepliesTo(r: State, x: Entry, p: nat) {
    && x.filter < |r.since| && r.since[x.filter] <= |r.arrived|
    && var at := Positions(SERVER_CHAIN, r.arrived[r.since[x.filter]..], x.filter);
       x.n < |at| && p == r.since[x.filter] + at[x.n]
  }

  /** ... which its filter is the first to accept, and is what the present objects answer to it. */
  ghost predicate DueReply(bodies: Bodies, e: Server, x: Entry, p: nat)
    requires RemoteCall.TypedObjects(e.objects)
  {
    && RepliesTo(e.run, x, p) && p < |e.run.arrived|
    && Claim(SERVER_CHAIN, e.run.arrived[p]) == Some(x.filter)
    && AnswersTo(bodies, e.objects, x.filter, e.run.arrived[p]) == [x.answer]
  }

  /** The handled messages of a filter, as far as they go, are those at its positions. */
  lemma PositionOf(r: State, f: nat, n: nat, handled: seq<Msg>) returns (p: nat)
    requires f < |r.since| && r.since[f] <= |r.arrived| && n < |handled|
    requires handled <= Claimed(SERVER_CHAIN, r.arrived[r.since[f]..], f)
    ensures forall a :: RepliesTo(r, Entry(f, n, a), p)
    ensures p < |r.arrived| && r.arrived[p] == handled[n] && Claim(SERVER_CHAIN, r.arrived[p]) == Some(f)
  {
    var later := r.arrived[r.since[f]..];
    Demultiplexed(SERVER_CHAIN, later, f);
    var at := Positions(SERVER_CHAIN, later, f);
    p := r.since[f] + at[n];
    assert at[n] in at;
    assert later[at[n]] == r.arrived[p];
  }

  /** The `n`-th message a filter handled is the one at its `n`-th position. */
  lemma HandledAt(r: State, f: nat, l: Location, n: nat) returns (p: nat)
    requires Inv(SERVER_CHAIN, r, f, l) && n < |r.handled[f]|
    ensures forall a :: RepliesTo(r, Entry(f, n, a), p)
    ensures p < |r.arrived| && r.arrived[p] == r.handled[f][n] && Claim(SERVER_CHAIN, r.arrived[p]) == Some(f)
  {
    PrefixOfArrived(SERVER_CHAIN, r, f, l);
    p := PositionOf(r, f, n, r.handled[f]);
  }

  /** At any moment of any run: every reply that was sent is the one due, under the objects as they are now, for a
      message that arrived and that the filter is first to accept; and no message has two replies. */
  lemma NeverTooManyReplies(bodies: Bodies, s: Server, events: seq<Event>, e: Server)
    requires Starting(s) && Serve(bodies, s, events) == Some(e)
    ensures RemoteCall.TypedObjects(e.objects)
    ensures forall x | x in e.log :: exists p: nat :: DueReply(bodies, e, x, p)
    ensures forall i, j, p: nat, q: nat | 0 <= i < j < |e.log| && RepliesTo(e.run, e.log[i], p)
              && RepliesTo(e.run, e.log[j], q) :: p != q
  {
    StartingKeeps(bodies, s);
    RunKeepsSince(bodies, s, events, e);
    forall x | x in e.log ensures exists p: nat :: DueReply(bodies, e, x, p) {
      var p := EntryIsDue(bodies, e, x);
    }
    forall i, j, p: nat, q: nat | 0 <= i < j < |e.log| && RepliesTo(e.run, e.log[i], p) && RepliesTo(e.run, e.log[j], q)
      ensures p != q
    {
      OnePlacePerEntry(e.run, e.log[i], e.log[j], p, q);
    }
  }

  lemma EntryIsDue(bodies: Bodies, e: Server, x: Entry) returns (p: nat)
    requires Delivering(e) && Logged(bodies, e) && x in e.log
    ensures DueReply(bodies, e, x, p)
  {
    assert Genuine(bodies, e, x) && Sound(e.run, x.filter);
    var l :| Inv(SERVER_CHAIN, e.run, x.filter, l);
    p := HandledAt(e.run, x.filter, l, x.n);
    assert Entry(x.filter, x.n, x.answer) == x;
  }

  lemma OnePlacePerEntry(r: State, x: Entry, y: Entry, p: nat, q: nat)
    requires RepliesTo(r, x, p) && RepliesTo(r, y, q) && (x.filter != y.filter || x.n != y.n)
    ensures p != q
  {
    PlaceIsClaimed(r, x, p);
    PlaceIsClaimed(r, y, q);
    if x.filter == y.filter {
      var later := r.arrived[r.since[x.filter]..];
      Demultiplexed(SERVER_CHAIN, later, x.filter);
    }
  }

  lemma PlaceIsClaimed(r: State, x: Entry, p: nat)
    requires RepliesTo(r, x, p)
    ensures p < |r.arrived| && Claim(SERVER_CHAIN, r.arrived[p]) == Some(x.filter)
  {
    var later := r.arrived[r.since[x.filter]..];
    Demultiplexed(SERVER_CHAIN, later, x.filter);
    var at := Positions(SERVER_CHAIN, later, x.filter);
    assert at[x.n] in at;
    assert later[at[x.n]] == r.arrived[p];
  }

  /** Every filter has handled all it claims, as when a started and fully armed server has come to rest. */
  ghost predicate AllHandled(r: State) {
    && |r.handled| == 3 && (forall f: nat | f < 3 :: HandledAll(SERVER_CHAIN, r, f))
    && forall t | 0 <= t < |r.threads| :: r.threads[t].Idle?
  }

  lemma RestMeansHandled(e: Server)
    requires Delivering(e) && |e.run.threads| > 0 && !e.run.paused && AtRest(e.run)
    requires forall f | 0 <= f < 3 :: f in e.run.armed
    ensures AllHandled(e.run)
  {
    forall f: nat | f < 3 ensures Drained(e.run) && HandledAll(SERVER_CHAIN, e.run, f) {
      RestOfFilter(e.run, f);
    }
    assert Drained(e.run) by { RestOfFilter(e.run, 0); }
  }

  lemma RestOfFilter(r: State, f: nat)
    requires Sound(r, f) && |r.threads| > 0 && !r.paused && AtRest(r) && f in r.armed
    ensures Drained(r) && HandledAll(SERVER_CHAIN, r, f)
  {
    var l :| Inv(SERVER_CHAIN, r, f, l);
    RestMeansDrained(r);
    DrainedFilter(SERVER_CHAIN, r, f, l);
  }

  /** Positions of a longer stream begin with those of a shorter one. */
  lemma {:induction false} PositionsExtend(a: seq<Msg>, b: seq<Msg>, f: nat)
    requires a <= b
    ensures Positions(SERVER_CHAIN, a, f) <= Positions(SERVER_CHAIN, b, f)
    decreases |b|
  {
    if |a| < |b| {
      PositionsExtend(a, b[..|b| - 1], f);
    } else {
      assert a == b;
    }
  }

  /** What arrives after time `s` is handled after all that was taken at time `s`. */
  lemma HandledLater(s: State, l: Location, e: State, f: nat, p: nat) returns (n: nat)
    requires Inv(SERVER_CHAIN, s, f, l) && HandledAll(SERVER_CHAIN, e, f)
    requires s.arrived <= e.arrived && s.since <= e.since
    requires |s.arrived| <= p < |e.arrived| && e.since[f] <= p && Claim(SERVER_CHAIN, e.arrived[p]) == Some(f)
    ensures |s.handled[f]| <= n < |e.handled[f]| && e.handled[f][n] == e.arrived[p]
    ensures forall a :: RepliesTo(e, Entry(f, n, a), p)
  {
    n := PlaceOf(e, f, p);
    PrefixOfArrived(SERVER_CHAIN, s, f, l);
    if n < |s.handled[f]| {
      PositionOfPrefix(s, e, f, n);
      assert false;
    }
  }

  lemma PlaceOf(e: State, f: nat, p: nat) returns (n: nat)
    requires HandledAll(SERVER_CHAIN, e, f)
    requires e.since[f] <= p < |e.arrived| && Claim(SERVER_CHAIN, e.arrived[p]) == Some(f)
    ensures n < |e.handled[f]| && e.handled[f][n] == e.arrived[p]
    ensures forall a :: RepliesTo(e, Entry(f, n, a), p)
    ensures var at := Positions(SERVER_CHAIN, e.arrived[e.since[f]..], f); n < |at| && at[n] == p - e.since[f]
  {
    var later := e.arrived[e.since[f]..];
    assert later[p - e.since[f]] == e.arrived[p];
    n := FindPosition(later, f, p - e.since[f]);
  }

  lemma FindPosition(ms: seq<Msg>, f: nat, q: nat) returns (n: nat)
    requires q < |ms| && Claim(SERVER_CHAIN, ms[q]) == Some(f)
    ensures n < |Positions(SERVER_CHAIN, ms, f)| && Positions(SERVER_CHAIN, ms, f)[n] == q
    ensures n < |Claimed(SERVER_CHAIN, ms, f)| && Claimed(SERVER_CHAIN, ms, f)[n] == ms[q]
  {
    Demultiplexed(SERVER_CHAIN, ms, f);
    var at := Positions(SERVER_CHAIN, ms, f);
    n :| 0 <= n < |at| && at[n] == q;
  }

  lemma PositionOfPrefix(s: State, e: State, f: nat, n: nat)
    requires f < |s.since| && s.since <= e.since && s.arrived <= e.arrived && s.since[f] <= |s.arrived|
    requires n < |Claimed(SERVER_CHAIN, s.arrived[s.since[f]..], f)|
    ensures var at := Positions(SERVER_CHAIN, e.arrived[e.since[f]..], f);
            n < |at| && at[n] < |s.arrived| - s.since[f]
  {
    var before, later := s.arrived[s.since[f]..], e.arrived[e.since[f]..];
    Demultiplexed(SERVER_CHAIN, before, f);
    assert before <= later;
    PositionsExtend(before, later, f);
  }

  /** The log has a reply `a` to the `p`-th message. */
  ghost predicate Replied(e: Server, p: nat, a: Answer) {
    exists x :: x in e.log && RepliesTo(e.run, x, p) && x.answer == a
  }

  /** Take any moment `s` of any run, and a later one `e` at which a started and fully armed server has come to rest.
      A call that arrived after `s`, and was dispatched after its filter was registered, has its reply if the
      objects of time `s` could answer it: Introspect and GetManagedObjects always, any other method call if it
      names a lambda method of the first object with its path. */
  lemma EveryDueReplySent(bodies: Bodies, start: Server, events: seq<Event>, s: Server, more: seq<Event>, e: Server,
                          p: nat, f: nat)
    requires Starting(start) && Serve(bodies, start, events) == Some(s) && Serve(bodies, s, more) == Some(e)
    requires |e.run.threads| > 0 && !e.run.paused && AtRest(e.run) && forall g | 0 <= g < 3 :: g in e.run.armed
    requires |s.run.arrived| <= p < |e.run.arrived| && Claim(SERVER_CHAIN, e.run.arrived[p]) == Some(f)
    ensures RemoteCall.TypedObjects(s.objects) && f < |e.run.since|
    ensures forall a | e.run.since[f] <= p && AnswersTo(bodies, s.objects, f, e.run.arrived[p]) == [a] ::
              Replied(e, p, a)
  {
    StartingKeeps(bodies, start);
    RunKeepsSince(bodies, start, events, s);
    RunKeepsSince(bodies, s, more, e);
    RunExtends(bodies, s, more, e);
    RestMeansHandled(e);
    assert HandledAll(SERVER_CHAIN, e.run, f);
    forall a | e.run.since[f] <= p && AnswersTo(bodies, s.objects, f, e.run.arrived[p]) == [a]
      ensures Replied(e, p, a)
    {
      DueReplyLogged(bodies, s, e, p, f, a);
    }
  }

  lemma DueReplyLogged(bodies: Bodies, s: Server, e: Server, p: nat, f: nat, a: Answer)
    requires Delivering(s) && Delivering(e) && Covered(bodies, s.objects, s.finished, e) && AllHandled(e.run)
    requires s.run.arrived <= e.run.arrived && s.run.since <= e.run.since
    requires |s.run.arrived| <= p < |e.run.arrived| && Claim(SERVER_CHAIN, e.run.arrived[p]) == Some(f)
    requires f < |e.run.since| && e.run.since[f] <= p && AnswersTo(bodies, s.objects, f, e.run.arrived[p]) == [a]
    ensures Replied(e, p, a)
  {
    var n := FinishedLater(s, e, p, f);
    var x := Entry(f, n, a);
    assert x in e.log && RepliesTo(e.run, x, p);
  }

  lemma FinishedLater(s: Server, e: Server, p: nat, f: nat) returns (n: nat)
    requires Delivering(s) && Delivering(e) && AllHandled(e.run)
    requires s.run.arrived <= e.run.arrived && s.run.since <= e.run.since
    requires |s.run.arrived| <= p < |e.run.arrived| && Claim(SERVER_CHAIN, e.run.arrived[p]) == Some(f)
    requires f < |e.run.since| && e.run.since[f] <= p
    ensures s.finished[f] <= n < e.finished[f] && n < |e.run.handled[f]| && e.run.handled[f][n] == e.run.arrived[p]
    ensures forall a :: RepliesTo(e.run, Entry(f, n, a), p)
  {
    assert Sound(s.run, f) && Counts(s.run, f, s.finished[f]);
    assert Counts(e.run, f, e.finished[f]) && HandledAll(SERVER_CHAIN, e.run, f);
    var l :| Inv(SERVER_CHAIN, s.run, f, l);
    n := HandledLater(s.run, l, e.run, f, p);
  }

  // ---------------------------------------------------------------- requests and replies

  /** The reply is of the kind the request asks for: the document for Introspect, the managed objects for
      GetManagedObjects, and for any other method call what the method it names answers. */
  ghost predicate Matches(bodies: Bodies, objects: seq<RemoteCall.Object>, m: Msg, a: Answer) {
    && m.kind == "method_call"
    && (a.Document? <==> m.iface == "org.freedesktop.DBus.Introspectable" && m.member == "Introspect")
    && (a.ManagedObjects? <==> m.iface == "org.freedesktop.DBus.ObjectManager" && m.member == "GetManagedObjects")
    && (a.Called? ==> exists k ::
          && RemoteCall.Answers(objects, RemoteCall.Target(m.path, m.iface, m.member), k)
          && RemoteCall.TypedMethod(k) && a == Called(RemoteCall.Served(k, bodies(m))))
  }

  lemma AnswerMatches(bodies: Bodies, objects: seq<RemoteCall.Object>, f: nat, m: Msg, a: Answer)
    requires RemoteCall.TypedObjects(objects) && Claim(SERVER_CHAIN, m) == Some(f)
    requires AnswersTo(bodies, objects, f, m) == [a]
    ensures Matches(bodies, objects, m, a)
  {
    ServerDemultiplexing(m);
    if a.Called? {
      var k :| RemoteCall.Answers(objects, Addressed(m), k);
      RemoteCall.OneMethodAnswers(objects, Addressed(m), k);
    }
  }

  /** Every reply in the log is of the kind its request asks for. */
  lemma RepliesMatchRequests(bodies: Bodies, s: Server, events: seq<Event>, e: Server, x: Entry, p: nat)
    requires Starting(s) && Serve(bodies, s, events) == Some(e) && x in e.log && RepliesTo(e.run, x, p)
    ensures RemoteCall.TypedObjects(e.objects) && p < |e.run.arrived|
    ensures Matches(bodies, e.objects, e.run.arrived[p], x.answer)
  {
    StartingKeeps(bodies, s);
    RunKeepsSince(bodies, s, events, e);
    EntryMatches(bodies, e, x, p);
  }

  lemma EntryMatches(bodies: Bodies, e: Server, x: Entry, p: nat)
    requires Delivering(e) && Logged(bodies, e) && x in e.log && RepliesTo(e.run, x, p)
    ensures p < |e.run.arrived| && Matches(bodies, e.objects, e.run.arrived[p], x.answer)
  {
    var q := EntryIsDue(bodies, e, x);
    assert q == p;
    AnswerMatches(bodies, e.objects, x.filter, e.run.arrived[p], x.answer);
  }

  /** When a started and fully armed server has come to rest, every call that arrived after time `s` and was dispatched
      after its filter was registered has the reply it asks for. */
  lemma EveryRequestAnswered(bodies: Bodies, start: Server, events: seq<Event>, s: Server, more: seq<Event>, e: Server,
                             p: nat)
    requires Starting(start) && Serve(bodies, start, events) == Some(s) && Serve(bodies, s, more) == Some(e)
    requires |e.run.threads| > 0 && !e.run.paused && AtRest(e.run) && forall g | 0 <= g < 3 :: g in e.run.armed
    requires |s.run.arrived| <= p < |e.run.arrived| && e.run.arrived[p].kind == "method_call"
    ensures |e.run.since| == 3 && RemoteCall.TypedObjects(s.objects)
    ensures var m := e.run.arrived[p];
            m.iface == "org.freedesktop.DBus.Introspectable" && m.member == "Introspect" && e.run.since[0] <= p
            ==> Replied(e, p, Document)
    ensures var m := e.run.arrived[p];
            m.iface == "org.freedesktop.DBus.ObjectManager" && m.member == "GetManagedObjects" && e.run.since[1] <= p
            ==> Replied(e, p, ManagedObjects)
    ensures var m := e.run.arrived[p];
            && (m.iface != "org.freedesktop.DBus.Introspectable" || m.member != "Introspect")
            && (m.iface != "org.freedesktop.DBus.ObjectManager" || m.member != "GetManagedObjects")
            && e.run.since[2] <= p
            ==> forall k | RemoteCall.Answers(s.objects, RemoteCall.Target(m.path, m.iface, m.member), k) ::
                  RemoteCall.TypedMethod(k) && Replied(e, p, Called(RemoteCall.Served(k, bodies(m))))
  {
    var m := e.run.arrived[p];
    ServerDemultiplexing(m);
    var f := Claim(SERVER_CHAIN, m).value;
    EveryDueReplySent(bodies, start, events, s, more, e, p, f);
    assert |e.run.since| == 3 by { AllRegistered(bodies, start, events, s, more, e); }
    if f == 2 {
      forall k | RemoteCall.Answers(s.objects, Addressed(m), k)
        ensures RemoteCall.TypedMethod(k)
        ensures AnswersTo(bodies, s.objects, 2, m) == [Called(RemoteCall.Served(k, bodies(m)))]
      {
        RemoteCall.OneMethodAnswers(s.objects, Addressed(m), k);
      }
    }
  }

  lemma AllRegistered(bodies: Bodies, start: Server, events: seq<Event>, s: Server, more: seq<Event>, e: Server)
    requires Starting(start) && Serve(bodies, start, events) == Some(s) && Serve(bodies, s, more) == Some(e)
    requires forall g | 0 <= g < 3 :: g in e.run.armed
    ensures |e.run.since| == 3
  {
    StartingKeeps(bodies, start);
    RunKeepsSince(bodies, start, events, s);
    RunKeepsSince(bodies, s, more, e);
    assert Sound(e.run, 2);
    assert 2 in e.run.armed;
  }
}
