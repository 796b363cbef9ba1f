/** Pack followed by unpack. */
module RoundTrip {
  import opened Element
  import opened Values
  import opened Items
  import opened Unpacker
  import opened Marshalling

  /** What arrives when a value is sent: every string ends at its first NUL, and map elements whose keys
      become equal by that collapse to the first. */
  ghost function Wire(t: Type, v: Value): Value
    requires HasType(t, v)
    decreases t, 0
  {
    match t
    case TVariant => VVariant(v.alt, WireBasic(v.held))
    case TVec(e) => VSeq(WireAll(e, v.elems))
    case TAssoc(e) => VSeq(EmplaceAll([], WireAll(e, v.elems)))
    case TPair(k, w) => VPair(Wire(k, v.first), Wire(w, v.second))
    case _ => WireBasic(v)
  }

  function WireBasic(v: Value): Value {
    if v.VText? then VText(Cut(v.s)) else v
  }

  ghost function WireAll(e: Type, vs: seq<Value>): (r: seq<Value>)
    requires forall v | v in vs :: HasType(e, v)
    ensures |r| == |vs|
    decreases e, 1
  {
    seq(|vs|, i requires 0 <= i < |vs| => Wire(e, vs[i]))
  }

  ghost function WireArgs(ts: seq<Type>, vs: seq<Value>): (r: seq<Value>)
    requires HasTypes(ts, vs)
    ensures |r| == |ts|
  {
    seq(|ts|, i requires 0 <= i < |ts| => Wire(ts[i], vs[i]))
  }

  /** Unpacking what was packed succeeds and stores `Wire` of the value. */
  lemma {:induction false} ValueRoundTrip(t: Type, v: Value)
    requires HasType(t, v) && HasType(t, Default(t))
    ensures Accepts(t, ItemOf(t, v))
    ensures Read(t, Default(t), ItemOf(t, v)) == Outcome(true, Wire(t, v))
    decreases t, 0
  {
    PackedIsWellTyped(t, v);
    SignatureImpliesAccepted(t, ItemOf(t, v));
    UnpackMerges(t, Default(t), ItemOf(t, v));
    match t
    case TVec(e) => ElemsRoundTrip(e, v.elems); assert [] + WireAll(e, v.elems) == WireAll(e, v.elems);
    case TAssoc(e) => ElemsRoundTrip(e, v.elems);
    case TPair(k, w) =>
      DefaultHasType(k); DefaultHasType(w);
      ValueRoundTrip(k, v.first); ValueRoundTrip(w, v.second);
      UnpackMerges(k, Default(k), ItemOf(k, v.first)); UnpackMerges(w, Default(w), ItemOf(w, v.second));
    case TVariant => CutText(v.held);
    case _ => CutText(v);
  }

  lemma {:induction false} ElemsRoundTrip(e: Type, vs: seq<Value>)
    requires forall v | v in vs :: HasType(e, v)
    ensures FreshAll(e, ItemsOf(e, vs)) == WireAll(e, vs)
    decreases e, 1
  {
    DefaultHasType(e);
    forall i | 0 <= i < |vs| ensures FreshAll(e, ItemsOf(e, vs))[i] == WireAll(e, vs)[i] {
      ValueRoundTrip(e, vs[i]);
    }
  }

  lemma CutText(v: Value)
    ensures v.VText? ==> Cut(Cut(v.s)) == Cut(v.s) && '\0' !in Cut(v.s)
    ensures v.VText? && '\0' !in v.s ==> WireBasic(v) == v
  {
    if v.VText? {
      CutAtFirstNul(v.s);
      CutAtFirstNul(Cut(v.s));
    }
  }

  // ---------------------------------------------------------------- identity

  lemma {:induction false} WireIsNulFree(t: Type, v: Value)
    requires HasType(t, v)
    ensures NulFree(Wire(t, v))
  {
    match t
    case TVec(e) =>
      forall i | 0 <= i < |v.elems| ensures NulFree(WireAll(e, v.elems)[i]) { WireIsNulFree(e, v.elems[i]); }
    case TAssoc(e) =>
      forall x | x in WireAll(e, v.elems) ensures NulFree(x) {
        var i :| 0 <= i < |v.elems| && x == WireAll(e, v.elems)[i];
        WireIsNulFree(e, v.elems[i]);
      }
      EmplaceAllMembers([], WireAll(e, v.elems));
    case TPair(k, w) => WireIsNulFree(k, v.first); WireIsNulFree(w, v.second);
    case TVariant => CutText(v.held);
    case _ => CutText(v);
  }

  lemma {:induction false} NulFreeUnchanged(t: Type, v: Value)
    requires HasType(t, v) && Contained(t) && NulFree(v)
    ensures Wire(t, v) == v
    decreases t, 0
  {
    match t
    case TVec(e) => AllNulFreeUnchanged(e, v.elems);
    case TAssoc(e) =>
      AllNulFreeUnchanged(e, v.elems);
      KeysComparable(e, v.elems);
      assert [] + v.elems == v.elems;
      EmplaceAllSorted([], v.elems);
    case TPair(k, w) =>
      BasicContained(k); SingleContained(w);
      NulFreeUnchanged(k, v.first); NulFreeUnchanged(w, v.second);
    case TVariant => CutText(v.held);
    case _ => CutText(v);
  }

  lemma {:induction false} AllNulFreeUnchanged(e: Type, vs: seq<Value>)
    requires Contained(e) && forall v | v in vs :: HasType(e, v) && NulFree(v)
    ensures WireAll(e, vs) == vs
    decreases e, 1
  {
    forall i | 0 <= i < |vs| ensures WireAll(e, vs)[i] == vs[i] { NulFreeUnchanged(e, vs[i]); }
  }

  /** The round trip into a fresh target is the identity exactly for values without NULs. */
  lemma IdentityExactly(t: Type, v: Value)
    requires HasType(t, v) && Contained(t)
    ensures HasType(t, Default(t))
    ensures Read(t, Default(t), ItemOf(t, v)) == Outcome(true, v) <==> NulFree(v)
  {
    DefaultHasType(t);
    ValueRoundTrip(t, v);
    WireIsNulFree(t, v);
    if NulFree(v) { NulFreeUnchanged(t, v); }
  }

  // ---------------------------------------------------------------- argument lists

  lemma DefaultsHaveTypes(ts: seq<Type>)
    ensures HasTypes(ts, Defaults(ts))
  {
    forall i | 0 <= i < |ts| ensures HasType(ts[i], Defaults(ts)[i]) { DefaultHasType(ts[i]); }
  }

  /** Any argument list survives packing and unpacking into fresh targets. */
  lemma {:induction false} ArgsRoundTrip(ts: seq<Type>, vs: seq<Value>)
    requires HasTypes(ts, vs) && HasTypes(ts, Defaults(ts))
    ensures ReadArgs(ts, Defaults(ts), ArgItems(ts, vs)) == ArgsOutcome(true, WireArgs(ts, vs))
    decreases |ts|
  {
    if ts != [] {
      assert HasType(ts[0], vs[0]);
      DefaultHasType(ts[0]);
      ValueRoundTrip(ts[0], vs[0]);
      DefaultsHaveTypes(ts[1..]);
      assert Defaults(ts)[1..] == Defaults(ts[1..]);
      assert ArgItems(ts, vs)[1..] == ArgItems(ts[1..], vs[1..]);
      ArgsRoundTrip(ts[1..], vs[1..]);
      assert WireArgs(ts, vs) == [Wire(ts[0], vs[0])] + WireArgs(ts[1..], vs[1..]);
    } else {
      assert WireArgs(ts, vs) == [];
    }
  }

  lemma NulFreeArgsUnchanged(ts: seq<Type>, vs: seq<Value>)
    requires HasTypes(ts, vs) && forall t | t in ts :: Single(t)
    requires forall v | v in vs :: NulFree(v)
    ensures WireArgs(ts, vs) == vs
  {
    forall i | 0 <= i < |ts| ensures WireArgs(ts, vs)[i] == vs[i] {
      SingleContained(ts[i]);
      NulFreeUnchanged(ts[i], vs[i]);
    }
  }

  lemma {:induction false} ArgsKeepTypes(ts: seq<Type>, targets: seq<Value>, items: seq<Item>)
    requires HasTypes(ts, targets) && AllWellTyped(items) && forall t | t in ts :: Single(t)
    ensures HasTypes(ts, ReadArgs(ts, targets, items).values)
    decreases |ts|
  {
    if ts != [] && items != [] {
      assert Single(ts[0]);
      SingleContained(ts[0]);
      ReadKeepsType(ts[0], targets[0], items[0]);
      ArgsKeepTypes(ts[1..], targets[1..], items[1..]);
      var r := ReadArgs(ts, targets, items).values;
      forall i | 0 <= i < |ts| ensures HasType(ts[i], r[i]) {
        if i > 0 { assert ts[1..][i - 1] == ts[i]; assert targets[1..][i - 1] == targets[i]; }
      }
    }
  }

  lemma ArgItemsWellTyped(ts: seq<Type>, vs: seq<Value>)
    requires HasTypes(ts, vs)
    ensures AllWellTyped(ArgItems(ts, vs))
    ensures BodySignature(ArgItems(ts, vs)) == RenderAll(Trees(ts))
  {
    forall i | 0 <= i < |ts| ensures WellTyped(ArgItems(ts, vs)[i]) && ItemTree(ArgItems(ts, vs)[i]) == Tree(ts[i]) {
      PackedIsWellTyped(ts[i], vs[i]);
    }
    assert ItemTrees(ArgItems(ts, vs)) == Trees(ts);
  }
}
