/** Life of an `async_send`: the heap-allocated operation, libdbus' pending call, the reply message with its
    reference count, and the handler.  Any number of operations are under way; the initiating thread, the thread
    that dispatches the reply and the io thread that runs the completion take turns in any order. */
module AsyncSend {

  /** Who keeps the reply message alive: the pending call before `steal_reply`, the raw pointer `x` in the
      callback, the `shared_ptr<message>` of the operation, and the copy passed to the handler. */
  datatype Owners = Owners(pending: bool, raw: bool, shared: bool, handlerCopy: bool) {
    function Count(): nat { One(pending) + One(raw) + One(shared) + One(handlerCopy) }
  }

  function One(b: bool): nat { if b then 1 else 0 }

  /** Progress of `operator()(connection&, message&)`. */
  datatype Initiation = Fresh | Sent | Registered | Checked | WithoutReply

  /** Progress of the static `callback`. */
  datatype Callback = NotCalled | Called | Stolen | Wrapped | Released | Unpended | PostedOp | Returned

  /** Progress of the closure given to `io.post`. */
  datatype Completion = Absent | Ready | InHandler | Finished | Destroyed

  datatype Op = Op(
    isCall: bool,
    initiation: Initiation,
    completed: bool,          // the pending call has its reply
    callback: Callback,
    completion: Completion,
    heapOps: int,             // live `new async_send_op`
    heapFrees: nat,           // how often it was deleted
    dropped: bool,            // libdbus has given up its reference to the pending call
    pendingRefs: int,         // references to the pending call: ours and libdbus' own
    replyRefs: int,           // the reply's reference count
    owners: Owners,
    handlerRuns: nat)

  datatype Action =
    | Initiate       // `send`, or `send_with_reply`
    | SetNotify      // `new async_send_op`, `dbus_pending_call_set_notify`
    | Check          // `dbus_pending_call_get_completed`, the last use of the pending call by the initiation
    | Reply          // libdbus completes the pending call and calls the notify function if there is one
    | Drop           // libdbus, done with the completed pending call, gives up its reference
    | Callback       // next statement of `callback`
    | Complete       // next part of the posted operation

  predicate NotifySet(o: Op) { o.initiation.Registered? || o.initiation.Checked? }

  predicate Enabled(o: Op, a: Action) {
    match a
    case Initiate => o.initiation.Fresh?
    case SetNotify => o.initiation.Sent?
    case Check => o.initiation.Registered?
    case Reply => (o.initiation.Sent? || NotifySet(o)) && !o.completed
    case Drop => o.completed && !o.dropped
    case Callback => !o.callback.NotCalled? && !o.callback.Returned?
    case Complete => !o.completion.Absent? && !o.completion.Destroyed?
  }

  function Do(o: Op, a: Action): Op
    requires Enabled(o, a)
  {
    match a
    case Initiate =>
      if !o.isCall then o.(initiation := WithoutReply) else o.(initiation := Sent, pendingRefs := 2)
    case SetNotify => o.(initiation := Registered, heapOps := o.heapOps + 1)
    case Check => o.(initiation := Checked)
    case Reply =>
      o.(completed := true, replyRefs := 1, owners := Owners(true, false, false, false),
         callback := if NotifySet(o) then Called else NotCalled)
    case Drop => o.(dropped := true, pendingRefs := o.pendingRefs - 1)
    case Callback => DoCallback(o)
    case Complete => DoComplete(o)
  }

  function DoCallback(o: Op): Op
    requires Enabled(o, Callback)
  {
    match o.callback
    case Called =>
      // the count does not change
      o.(callback := Stolen, owners := o.owners.(pending := false, raw := true))
    case Stolen => o.(callback := Wrapped, replyRefs := o.replyRefs + 1, owners := o.owners.(shared := true))
    case Wrapped => o.(callback := Released, replyRefs := o.replyRefs - 1, owners := o.owners.(raw := false))
    case Released => o.(callback := Unpended, pendingRefs := o.pendingRefs - 1)
    case Unpended => o.(callback := PostedOp, completion := Ready)  // the shared_ptr moves into the posted copy
    case PostedOp => o.(callback := Returned, heapOps := o.heapOps - 1, heapFrees := o.heapFrees + 1)
  }

  function DoComplete(o: Op): Op
    requires Enabled(o, Complete)
  {
    match o.completion
    case Ready =>
      o.(completion := InHandler, handlerRuns := o.handlerRuns + 1,
         replyRefs := o.replyRefs + 1, owners := o.owners.(handlerCopy := true))
    case InHandler =>
      o.(completion := Finished, replyRefs := o.replyRefs - 1, owners := o.owners.(handlerCopy := false))
    case Finished =>
      o.(completion := Destroyed, replyRefs := o.replyRefs - 1, owners := o.owners.(shared := false))
  }

  predicate Initial(o: Op) {
    o == Op(o.isCall, Fresh, false, NotCalled, Absent, 0, 0, false, 0, 0, Owners(false, false, false, false), 0)
  }

  /** Several operations; a step belongs to one of them, and does nothing when its turn has not come. */
  ghost function Execute(ops: seq<Op>, steps: seq<(nat, Action)>): (r: seq<Op>)
    ensures |r| == |ops|
  {
    if steps == [] then ops
    else
      var r := Execute(ops, steps[..|steps| - 1]);
      var (i, a) := steps[|steps| - 1];
      if i < |ops| && Enabled(r[i], a) then r[i := Do(r[i], a)] else r
  }

  /** Step `n` of the run is action `a` of operation `i`, and its turn has come. */
  ghost predicate Took(ops: seq<Op>, steps: seq<(nat, Action)>, i: nat, a: Action, n: int) {
    0 <= n < |steps| && steps[n] == (i, a) && i < |ops| && Enabled(Execute(ops, steps[..n])[i], a)
  }

  // ---------------------------------------------------------------- what every step keeps

  /** Who owns the reply, told by progress alone. */
  function ExpectedOwners(o: Op): Owners {
    Owners(
      o.completed && (o.callback.NotCalled? || o.callback.Called?),
      o.callback.Stolen? || o.callback.Wrapped?,
      o.callback.Wrapped? || o.callback.Released? || o.callback.Unpended?
      || ((o.callback.PostedOp? || o.callback.Returned?) && !o.completion.Destroyed?),
      o.completion.InHandler?)
  }

  ghost predicate Unreferenced(o: Op) { o.callback.Unpended? || o.callback.PostedOp? || o.callback.Returned? }

  /** The reply was processed before the notify function was set, so that the callback is never called. */
  ghost predicate Early(o: Op) { o.completed && o.callback.NotCalled? }

  ghost predicate Valid(o: Op) { InProgress(o) && Owned(o) }

  ghost predicate InProgress(o: Op) {
    && (o.initiation.Fresh? || o.initiation.WithoutReply? ==> !o.completed && o.pendingRefs == 0)
    && (o.initiation.WithoutReply? <==> !o.isCall && !o.initiation.Fresh?)
    && (!o.completed ==> o.callback.NotCalled? && !o.dropped)
    && (!o.callback.NotCalled? ==> NotifySet(o))
    && (o.completion.Absent? <==> !(o.callback.PostedOp? || o.callback.Returned?))
    && o.heapOps == (if NotifySet(o) && !o.callback.Returned? then 1 else 0)
    && o.heapFrees == (if o.callback.Returned? then 1 else 0)
    && o.handlerRuns == (if o.completion.Absent? || o.completion.Ready? then 0 else 1)
    && o.pendingRefs == (if o.initiation.Fresh? || o.initiation.WithoutReply? then 0
                         else (if o.dropped then 0 else 1) + (if Unreferenced(o) then 0 else 1))
  }

  /** The reply is owned as progress tells, and its reference count is the number of its owners. */
  ghost predicate Owned(o: Op) {
    o.owners == ExpectedOwners(o) && o.replyRefs == o.owners.Count()
  }

  lemma CallbackKeepsValid(o: Op)
    requires Valid(o) && Enabled(o, Callback)
    ensures Valid(DoCallback(o))
  {
    assert NotifySet(o) && o.completed;
    match o.callback
    case Called => assert o.owners == Owners(true, false, false, false);
    case Stolen => assert o.owners == Owners(false, true, false, false);
    case Wrapped => assert o.owners == Owners(false, true, true, false);
    case Released => assert o.owners == Owners(false, false, true, false);
    case Unpended => assert o.owners == Owners(false, false, true, false);
    case PostedOp => assert DoCallback(o).owners == ExpectedOwners(DoCallback(o));
  }

  lemma CompleteKeepsOwned(o: Op)
    requires Owned(o) && Enabled(o, Complete) && (o.callback.PostedOp? || o.callback.Returned?)
    ensures Owned(DoComplete(o))
  {
    match o.completion
    case Ready => assert DoComplete(o).owners == Owners(false, false, true, true);
    case InHandler => assert DoComplete(o).owners == Owners(false, false, true, false);
    case Finished => assert DoComplete(o).owners == Owners(false, false, false, false);
  }

  lemma CompleteKeepsValid(o: Op)
    requires Valid(o) && Enabled(o, Complete)
    ensures Valid(DoComplete(o))
  {
    assert Owned(DoComplete(o)) by { CompleteKeepsOwned(o); }
    assert InProgress(DoComplete(o));
  }

  lemma StepKeepsValid(o: Op, a: Action)
    requires Valid(o) && Enabled(o, a)
    ensures Valid(Do(o, a))
  {
    match a
    case Callback => CallbackKeepsValid(o);
    case Complete => CompleteKeepsValid(o);
    case _ =>
  }

  lemma {:induction false} RunsKeepValid(ops: seq<Op>, steps: seq<(nat, Action)>)
    requires forall o | o in ops :: Valid(o)
    ensures forall o | o in Execute(ops, steps) :: Valid(o)
  {
    if steps != [] {
      var front := steps[..|steps| - 1];
      var (i, a) := steps[|steps| - 1];
      RunsKeepValid(ops, front);
      var r := Execute(ops, front);
      if i < |ops| && Enabled(r[i], a) { StepKeepsValid(r[i], a); }
    }
  }

  lemma RunKeepsValid(ops: seq<Op>, steps: seq<(nat, Action)>, i: nat)
    requires (forall o | o in ops :: Initial(o)) && i < |ops|
    ensures Valid(Execute(ops, steps)[i])
  {
    RunsKeepValid(ops, steps);
    var o := Execute(ops, steps)[i];
    assert o in Execute(ops, steps);
  }

  /** In every run, at every moment: the reply's reference count equals its live owners, each handler has run at
      most once, the operation is deleted at most once, and a message that is not a method call never runs it. */
  lemma CountsAreExact(ops: seq<Op>, steps: seq<(nat, Action)>, i: nat)
    requires (forall o | o in ops :: Initial(o)) && i < |ops|
    ensures var o := Execute(ops, steps)[i];
            && o.replyRefs == o.owners.Count() && o.handlerRuns <= 1 && o.heapFrees <= 1
            && (!o.isCall ==> o.handlerRuns == 0)
  {
    RunKeepsValid(ops, steps, i);
  }

  // ---------------------------------------------------------------- what a run has done

  /** Statement `dbus_pending_call_unref` of the callback. */
  ghost predicate Unrefs(ops: seq<Op>, steps: seq<(nat, Action)>, i: nat, n: int) {
    Took(ops, steps, i, Callback, n) && Execute(ops, steps[..n])[i].callback.Released?
  }

  /** The reply of operation `i` is processed in this run, and before the notify function is set. */
  ghost predicate ReplyBeforeNotify(ops: seq<Op>, steps: seq<(nat, Action)>, i: nat) {
    exists n :: Took(ops, steps, i, Reply, n) && forall k | Took(ops, steps, i, SetNotify, k) :: n < k
  }

  /** What one step does to the facts that tell the history. */
  lemma StepMarks(o: Op, a: Action)
    requires Valid(o) && Enabled(o, a)
    ensures NotifySet(Do(o, a)) <==> NotifySet(o) || a == SetNotify
    ensures Do(o, a).dropped <==> o.dropped || a == Drop
    ensures Unreferenced(Do(o, a)) <==> Unreferenced(o) || (a == Callback && o.callback.Released?)
    ensures Early(Do(o, a)) <==> Early(o) || (a == Reply && !NotifySet(o))
  {
    match a
    case Callback =>
    case _ =>
  }

  /** The last step of a run: earlier steps count as before, and the facts change as told by the last one. */
  lemma LastStep(ops: seq<Op>, steps: seq<(nat, Action)>, i: nat)
    requires (forall o | o in ops :: Initial(o)) && i < |ops| && steps != []
    ensures var last, front := |steps| - 1, steps[..|steps| - 1];
            var o, e := Execute(ops, front)[i], Execute(ops, steps)[i];
            && (forall a, n :: n < last ==> (Took(ops, steps, i, a, n) <==> Took(ops, front, i, a, n)))
            && (forall n :: n < last ==> (Unrefs(ops, steps, i, n) <==> Unrefs(ops, front, i, n)))
            && (NotifySet(e) <==> NotifySet(o) || Took(ops, steps, i, SetNotify, last))
            && (e.dropped <==> o.dropped || Took(ops, steps, i, Drop, last))
            && (Unreferenced(e) <==> Unreferenced(o) || Unrefs(ops, steps, i, last))
            && (Early(e) <==> Early(o) || (Took(ops, steps, i, Reply, last) && !NotifySet(o)))
  {
    var last, front := |steps| - 1, steps[..|steps| - 1];
    RunKeepsValid(ops, front, i);
    var o := Execute(ops, front)[i];
    var (j, a) := steps[last];
    if j == i && Enabled(o, a) { StepMarks(o, a); }
    forall b, n | n < last
      ensures Took(ops, steps, i, b, n) <==> Took(ops, front, i, b, n)
      ensures Unrefs(ops, steps, i, n) <==> Unrefs(ops, front, i, n)
    {
      if n >= 0 { assert front[..n] == steps[..n]; }
    }
  }

  lemma {:induction false} NotifyHistory(ops: seq<Op>, steps: seq<(nat, Action)>, i: nat)
    requires (forall o | o in ops :: Initial(o)) && i < |ops|
    ensures NotifySet(Execute(ops, steps)[i]) <==> exists n :: Took(ops, steps, i, SetNotify, n)
  {
    if steps == [] {
      assert Initial(ops[i]);
    } else {
      NotifyHistory(ops, steps[..|steps| - 1], i);
      LastStep(ops, steps, i);
    }
  }

  /** Which references to the pending call have been given up. */
  lemma {:induction false} ReferenceHistory(ops: seq<Op>, steps: seq<(nat, Action)>, i: nat)
    requires (forall o | o in ops :: Initial(o)) && i < |ops|
    ensures Execute(ops, steps)[i].dropped <==> exists n :: Took(ops, steps, i, Drop, n)
    ensures Unreferenced(Execute(ops, steps)[i]) <==> exists n :: Unrefs(ops, steps, i, n)
  {
    if steps == [] {
      assert Initial(ops[i]);
    } else {
      ReferenceHistory(ops, steps[..|steps| - 1], i);
      LastStep(ops, steps, i);
    }
  }

  lemma {:induction false} EarlyHistory(ops: seq<Op>, steps: seq<(nat, Action)>, i: nat)
    requires (forall o | o in ops :: Initial(o)) && i < |ops|
    ensures Early(Execute(ops, steps)[i]) <==> ReplyBeforeNotify(ops, steps, i)
  {
    if steps == [] {
      assert Initial(ops[i]);
    } else {
      var last, front := |steps| - 1, steps[..|steps| - 1];
      EarlyHistory(ops, front, i);
      NotifyHistory(ops, front, i);
      LastStep(ops, steps, i);
      if n :| Took(ops, front, i, Reply, n) && forall k | Took(ops, front, i, SetNotify, k) :: n < k {
        assert Took(ops, steps, i, Reply, n);
      }
    }
  }

  ghost predicate AtRest(o: Op) {
    forall a :: !Enabled(o, a)
  }

  /** When nothing more can happen to a method call whose reply came, its handler has run exactly once, with
      operation, pending call and reply all released, if and only if the reply was not processed before the
      notify function was set.  Otherwise it never runs and all three are leaked. */
  lemma CompletesExactlyOnce(ops: seq<Op>, steps: seq<(nat, Action)>, i: nat)
    requires (forall o | o in ops :: Initial(o)) && i < |ops|
    requires AtRest(Execute(ops, steps)[i]) && Execute(ops, steps)[i].completed
    ensures var o, early := Execute(ops, steps)[i], ReplyBeforeNotify(ops, steps, i);
            && (o.handlerRuns == 1 <==> !early)
            && (!early ==> o.heapOps == 0 && o.heapFrees == 1 && o.pendingRefs == 0 && o.replyRefs == 0)
            && (early ==> o.heapOps == 1 && o.heapFrees == 0 && o.pendingRefs == 1 && o.replyRefs == 1)
            && (early ==> o.handlerRuns == 0)
  {
    RunKeepsValid(ops, steps, i);
    EarlyHistory(ops, steps, i);
    var o := Execute(ops, steps)[i];
    assert forall a: Action :: !Enabled(o, a);
    assert !Enabled(o, Callback) && !Enabled(o, Complete) && !Enabled(o, SetNotify) && !Enabled(o, Drop);
  }

  /** The states that a run of one operation goes through. */
  ghost predicate Trace(steps: seq<(nat, Action)>, states: seq<Op>) {
    |states| == |steps| + 1 &&
    forall n | 0 <= n < |steps| ::
      steps[n].0 == 0 && Enabled(states[n], steps[n].1) && states[n + 1] == Do(states[n], steps[n].1)
  }

  lemma {:induction false} TraceIsExecuted(steps: seq<(nat, Action)>, states: seq<Op>, n: nat)
    requires Trace(steps, states) && n <= |steps|
    ensures Execute([states[0]], steps[..n]) == [states[n]]
  {
    if n > 0 {
      TraceIsExecuted(steps, states, n - 1);
      assert steps[..n][..n - 1] == steps[..n - 1];
    }
  }

  /** The race is real: here the reply is processed between `send_with_reply` and `set_notify`. */
  lemma EarlyReplyLosesHandler(o: Op)
    requires Initial(o) && o.isCall
    ensures var s := [(0, Initiate), (0, Reply), (0, SetNotify), (0, Check), (0, Drop)];
            var r := Execute([o], s)[0];
            AtRest(r) && r.completed && ReplyBeforeNotify([o], s, 0) && r.handlerRuns == 0
  {
    var s: seq<(nat, Action)> := [(0, Initiate), (0, Reply), (0, SetNotify), (0, Check), (0, Drop)];
    var o1 := Do(o, Initiate);
    var o2 := Do(o1, Reply);
    var o3 := Do(o2, SetNotify);
    var o4 := Do(o3, Check);
    var o5 := Do(o4, Drop);
    TraceIsExecuted(s, [o, o1, o2, o3, o4, o5], 5);
    assert s[..5] == s;
    EarlyHistory([o], s, 0);
  }

  // ---------------------------------------------------------------- the pending call after `set_notify`

  /** The last statement of the initiation finds the pending call alive if and only if it is not the case that, before
      it, the callback has given up the reference of the operation and libdbus its own. */
  lemma CheckFindsPendingCall(ops: seq<Op>, steps: seq<(nat, Action)>, i: nat, n: nat)
    requires (forall o | o in ops :: Initial(o)) && Took(ops, steps, i, Check, n)
    ensures Execute(ops, steps[..n])[i].pendingRefs >= 0
    ensures Execute(ops, steps[..n])[i].pendingRefs > 0
       <==> !((exists k :: k < n && Unrefs(ops, steps, i, k)) && exists k :: k < n && Took(ops, steps, i, Drop, k))
  {
    RunKeepsValid(ops, steps[..n], i);
    ReferenceHistory(ops, steps[..n], i);
    forall k | k < n
      ensures Took(ops, steps[..n], i, Drop, k) <==> Took(ops, steps, i, Drop, k)
      ensures Unrefs(ops, steps[..n], i, k) <==> Unrefs(ops, steps, i, k)
    {
      if k >= 0 { assert steps[..n][..k] == steps[..k]; }
    }
  }

  /** Such a run exists: another thread processes the reply and runs the whole callback between `set_notify` and the
      last statement of the initiation. */
  lemma CheckAfterRelease(o: Op)
    requires Initial(o) && o.isCall
    ensures var s := [(0, Initiate), (0, SetNotify), (0, Reply), (0, Callback), (0, Callback), (0, Callback),
                      (0, Callback), (0, Drop), (0, Check)];
            Took([o], s, 0, Check, 8) && Execute([o], s[..8])[0].pendingRefs == 0
  {
    var s: seq<(nat, Action)> := [(0, Initiate), (0, SetNotify), (0, Reply), (0, Callback), (0, Callback),
                                  (0, Callback), (0, Callback), (0, Drop), (0, Check)];
    var o3 := Do(Do(Do(o, Initiate), SetNotify), Reply);
    var o4 := Do(o3, Callback);
    var o5 := Do(o4, Callback);
    var o6 := Do(o5, Callback);
    var o7 := Do(o6, Callback);
    var o8 := Do(o7, Drop);
    TraceIsExecuted(s, [o, Do(o, Initiate), Do(Do(o, Initiate), SetNotify), o3, o4, o5, o6, o7, o8, Do(o8, Check)], 8);
  }
}
