/** Which filter of a connection gets an incoming message: libdbus tries the filters in the order they
    were added and stops at the first that answers HANDLED. */
module FilterChain {
  import opened DeliveryQueue

  /** The headers of a message; `serial` tells apart messages with equal headers. */
  datatype Msg = Msg(kind: string, path: string, iface: string, member: string, serial: nat)

  type Chain = seq<Msg -> bool>

  /** `filter_callback` along the chain: the first filter whose predicate accepts the message. */
  function Claim(chain: Chain, m: Msg): (r: Option<nat>)
    ensures r.Some? ==> r.value < |chain| && chain[r.value](m) && forall g :: 0 <= g < r.value ==> !chain[g](m)
    ensures r.None? ==> forall g :: 0 <= g < |chain| ==> !chain[g](m)
  {
    ClaimFrom(chain, m, 0)
  }

  function ClaimFrom(chain: Chain, m: Msg, f: nat): (r: Option<nat>)
    requires f <= |chain|
    ensures r.Some? ==> f <= r.value < |chain| && chain[r.value](m) && forall g :: f <= g < r.value ==> !chain[g](m)
    ensures r.None? ==> forall g :: f <= g < |chain| ==> !chain[g](m)
    decreases |chain| - f
  {
    if f == |chain| then None else if chain[f](m) then Some(f) else ClaimFrom(chain, m, f + 1)
  }

  /** While only the first `k` filters are registered, a message goes where it would go with all of them, or is lost. */
  lemma ClaimOfPrefix(chain: Chain, k: nat, m: Msg)
    requires k <= |chain|
    ensures Claim(chain[..k], m)
         == if Claim(chain, m).Some? && Claim(chain, m).value < k then Claim(chain, m) else None
  {
    var r, all := Claim(chain[..k], m), Claim(chain, m);
    assert forall g :: 0 <= g < k ==> chain[..k][g](m) == chain[g](m);
    assert r.Some? ==> all.Some? && !(r.value < all.value) && !(all.value < r.value);
  }

  /** The messages of a stream that filter `f` gets, in stream order. */
  function Claimed(chain: Chain, ms: seq<Msg>, f: nat): seq<Msg> {
    if ms == [] then []
    else
      var rest := Claimed(chain, ms[..|ms| - 1], f);
      if Claim(chain, ms[|ms| - 1]) == Some(f) then rest + [ms[|ms| - 1]] else rest
  }

  lemma ClaimedSnoc(chain: Chain, ms: seq<Msg>, m: Msg, f: nat)
    ensures Claimed(chain, ms + [m], f)
         == if Claim(chain, m) == Some(f) then Claimed(chain, ms, f) + [m] else Claimed(chain, ms, f)
  {
    assert (ms + [m])[..|ms|] == ms;
  }

  lemma {:induction false} ClaimedAppend(chain: Chain, a: seq<Msg>, b: seq<Msg>, f: nat)
    ensures Claimed(chain, a + b, f) == Claimed(chain, a, f) + Claimed(chain, b, f)
  {
    if b == [] {
      assert a + b == a;
    } else {
      var b', m := b[..|b| - 1], b[|b| - 1];
      ClaimedAppend(chain, a, b', f);
      assert b == b' + [m] && a + b == (a + b') + [m];
      ClaimedSnoc(chain, a + b', m, f);
      ClaimedSnoc(chain, b', m, f);
    }
  }

  /** `picks` selects positions of the stream in increasing order. */
  ghost predicate Increasing(picks: seq<nat>, n: nat) {
    && (forall i :: 0 <= i < |picks| ==> picks[i] < n)
    && (forall i, j :: 0 <= i < j < |picks| ==> picks[i] < picks[j])
  }

  /** The stream positions that filter `f` gets. */
  function Positions(chain: Chain, ms: seq<Msg>, f: nat): seq<nat> {
    if ms == [] then []
    else
      var rest := Positions(chain, ms[..|ms| - 1], f);
      if Claim(chain, ms[|ms| - 1]) == Some(f) then rest + [|ms| - 1] else rest
  }

  /** Each filter gets an in-order subsequence of the stream, and a position belongs to filter `f` exactly when
      `f` is the first that accepts the message there: so no two filters share a position, and together they
      cover exactly the messages that some filter accepts. */
  lemma {:induction false} Demultiplexed(chain: Chain, ms: seq<Msg>, f: nat)
    ensures Increasing(Positions(chain, ms, f), |ms|)
    ensures |Positions(chain, ms, f)| == |Claimed(chain, ms, f)|
    ensures forall i :: 0 <= i < |Positions(chain, ms, f)| ==>
              Claimed(chain, ms, f)[i] == ms[Positions(chain, ms, f)[i]]
    ensures forall p :: 0 <= p < |ms| ==> (p in Positions(chain, ms, f) <==> Claim(chain, ms[p]) == Some(f))
  {
    if ms != [] {
      var front := ms[..|ms| - 1];
      Demultiplexed(chain, front, f);
      forall p | 0 <= p < |ms| ensures p in Positions(chain, ms, f) <==> Claim(chain, ms[p]) == Some(f) {
        if p < |front| { assert front[p] == ms[p]; }
      }
    }
  }

  // ---------------------------------------------------------------- the three filters of DbusObjectServer

  predicate IsIntrospect(m: Msg) {
    m.kind == "method_call" && m.iface == "org.freedesktop.DBus.Introspectable" && m.member == "Introspect"
  }

  predicate IsGetManagedObjects(m: Msg) {
    m.kind == "method_call" && m.iface == "org.freedesktop.DBus.ObjectManager" && m.member == "GetManagedObjects"
  }

  predicate IsMethodCall(m: Msg) { m.kind == "method_call" }

  const SERVER_CHAIN: Chain := [IsIntrospect, IsGetManagedObjects, IsMethodCall]

  /** The server's filters cover exactly the method calls; calls of Introspect and GetManagedObjects never
      reach the method filter although its predicate accepts them. */
  lemma ServerDemultiplexing(m: Msg)
    ensures Claim(SERVER_CHAIN, m).Some? <==> m.kind == "method_call"
    ensures Claim(SERVER_CHAIN, m) == Some(0) <==>
              m.kind == "method_call" && m.iface == "org.freedesktop.DBus.Introspectable" && m.member == "Introspect"
    ensures Claim(SERVER_CHAIN, m) == Some(1) <==>
              && m.kind == "method_call"
              && m.iface == "org.freedesktop.DBus.ObjectManager" && m.member == "GetManagedObjects"
    ensures Claim(SERVER_CHAIN, m) == Some(0) <==> IsIntrospect(m)
    ensures Claim(SERVER_CHAIN, m) == Some(1) <==> IsGetManagedObjects(m)
    ensures Claim(SERVER_CHAIN, m) == Some(2) <==>
              m.kind == "method_call" && Claim(SERVER_CHAIN, m) != Some(0) && Claim(SERVER_CHAIN, m) != Some(1)
  {
    assert SERVER_CHAIN[0](m) == IsIntrospect(m) && SERVER_CHAIN[1](m) == IsGetManagedObjects(m);
    assert SERVER_CHAIN[2](m) == IsMethodCall(m);
    var r := Claim(SERVER_CHAIN, m);
    if IsIntrospect(m) {
      assert r.Some?;
    } else if IsGetManagedObjects(m) {
      assert r.Some? && !SERVER_CHAIN[0](m);
    } else if IsMethodCall(m) {
      assert r.Some? && !SERVER_CHAIN[0](m) && !SERVER_CHAIN[1](m);
    }
  }
}
