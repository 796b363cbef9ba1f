/** What packing and unpacking mean together: the exact success condition of unpack, its relation
    to signatures, what it does to targets that are not empty, and the round trip. */
module Marshalling {
  import opened Element
  import opened Values
  import opened Items
  import opened Unpacker

  // ---------------------------------------------------------------- when unpack succeeds

  /** The items a C++ type takes: equal codes for basic types, any content for variants, every
      element for arrays, key and value for dict entries. */
  ghost predicate Accepts(t: Type, i: Item) {
    match t
    case TInt(k) => i.IInt? && i.kind == k
    case TDouble => i.IDouble?
    case TString => i.IText? && i.code == 's'
    case TPath => i.IText? && i.code == 'o'
    case TVariant => i.IVariant?
    case TVec(e) => i.IArray? && forall x | x in i.items :: Accepts(e, x)
    case TAssoc(e) => i.IArray? && forall x | x in i.items :: Accepts(e, x)
    case TPair(k, w) =>
      i.IGroup? && i.code == 'e' && |i.items| >= 2 && Accepts(k, i.items[0]) && Accepts(w, i.items[1])
  }

  ghost predicate AcceptsArgs(ts: seq<Type>, items: seq<Item>) {
    |ts| <= |items| && forall n :: 0 <= n < |ts| ==> Accepts(ts[n], items[n])
  }

  /** Unpack returns true exactly for accepted items, whatever the target held. */
  lemma {:induction false} SucceedsWhenAccepted(t: Type, target: Value, i: Item)
    requires HasType(t, target)
    ensures Read(t, target, i).ok <==> Accepts(t, i)
    decreases t, 0
  {
    match t
    case TVec(e) => if i.IArray? { ElemsSucceed(e, target.elems, i.items); }
    case TAssoc(e) => if i.IArray? { KeyedSucceed(e, target.elems, i.items); }
    case TPair(k, w) =>
      if i.IGroup? && |i.items| > 0 {
        SucceedsWhenAccepted(k, target.first, i.items[0]);
        if |i.items| > 1 { SucceedsWhenAccepted(w, target.second, i.items[1]); }
      }
    case _ =>
  }

  lemma {:induction false} ElemsSucceed(e: Type, acc: seq<Value>, items: seq<Item>)
    ensures ReadElems(e, acc, items).ok <==> forall x | x in items :: Accepts(e, x)
    decreases e, |items| + 1
  {
    if items != [] {
      DefaultHasType(e);
      SucceedsWhenAccepted(e, Default(e), items[0]);
      ElemsSucceed(e, acc + [Read(e, Default(e), items[0]).value], items[1..]);
      assert items == [items[0]] + items[1..];
    }
  }

  lemma {:induction false} KeyedSucceed(e: Type, acc: seq<Value>, items: seq<Item>)
    ensures ReadKeyed(e, acc, items).ok <==> forall x | x in items :: Accepts(e, x)
    decreases e, |items| + 1
  {
    if items != [] {
      DefaultHasType(e);
      SucceedsWhenAccepted(e, Default(e), items[0]);
      KeyedSucceed(e, Emplace(acc, Read(e, Default(e), items[0]).value), items[1..]);
      assert items == [items[0]] + items[1..];
    }
  }

  lemma {:induction false} ArgsSucceedWhenAccepted(ts: seq<Type>, targets: seq<Value>, items: seq<Item>)
    requires HasTypes(ts, targets)
    ensures ReadArgs(ts, targets, items).ok <==> AcceptsArgs(ts, items)
    decreases |ts|
  {
    if ts != [] && items != [] {
      SucceedsWhenAccepted(ts[0], targets[0], items[0]);
      ArgsSucceedWhenAccepted(ts[1..], targets[1..], items[1..]);
      if AcceptsArgs(ts, items) {
        forall n | 0 <= n < |ts[1..]| ensures Accepts(ts[1..][n], items[1..][n]) {
          assert Accepts(ts[n + 1], items[n + 1]);
        }
      } else if AcceptsArgs(ts[1..], items[1..]) && Accepts(ts[0], items[0]) {
        forall n | 0 <= n < |ts| ensures Accepts(ts[n], items[n]) {
          if n > 0 { assert Accepts(ts[1..][n - 1], items[1..][n - 1]); }
        }
      }
    }
  }

  // ---------------------------------------------------------------- acceptance and signatures

  /** No array outside a variant is empty. */
  ghost predicate NoEmptyArray(i: Item) {
    match i
    case IArray(_, its) => its != [] && forall x | x in its :: NoEmptyArray(x)
    case IGroup(_, its) => forall x | x in its :: NoEmptyArray(x)
    case _ => true
  }

  /** An item with the type's signature is always accepted. */
  lemma {:induction false} SignatureImpliesAccepted(t: Type, i: Item)
    requires WellTyped(i) && ItemTree(i) == Tree(t)
    ensures Accepts(t, i)
  {
    match t
    case TVec(e) => forall x | x in i.items ensures Accepts(e, x) { SignatureImpliesAccepted(e, x); }
    case TAssoc(e) => forall x | x in i.items ensures Accepts(e, x) { SignatureImpliesAccepted(e, x); }
    case TPair(k, w) => SignatureImpliesAccepted(k, i.items[0]); SignatureImpliesAccepted(w, i.items[1]);
    case _ =>
  }

  /** Apart from empty arrays and variant content, acceptance is signature equality. */
  lemma {:induction false} AcceptedExactly(t: Type, i: Item)
    requires WellTyped(i) && NoEmptyArray(i)
    ensures Accepts(t, i) <==> ItemTree(i) == Tree(t)
  {
    if ItemTree(i) == Tree(t) { SignatureImpliesAccepted(t, i); }
    match t
    case TVec(e) => if i.IArray? { AcceptedExactly(e, i.items[0]); }
    case TAssoc(e) => if i.IArray? { AcceptedExactly(e, i.items[0]); }
    case TPair(k, w) =>
      if i.IGroup? && i.code == 'e' { AcceptedExactly(k, i.items[0]); AcceptedExactly(w, i.items[1]); }
    case _ =>
  }

  /** The signature of a message body. */
  function BodySignature(items: seq<Item>): string {
    RenderAll(ItemTrees(items))
  }

  /** A message whose signature is the concatenation of the argument signatures is accepted, and
      without empty arrays and trailing arguments no other is. */
  lemma ArgsAcceptedBySignature(ts: seq<Type>, items: seq<Item>)
    requires AllWellTyped(items)
    ensures BodySignature(items) == RenderAll(Trees(ts)) ==> |items| == |ts| && AcceptsArgs(ts, items)
    ensures |items| == |ts| && (forall x | x in items :: NoEmptyArray(x)) && AcceptsArgs(ts, items)
            ==> BodySignature(items) == RenderAll(Trees(ts))
  {
    TreesWellFormed(ts);
    forall f | f in ItemTrees(items) ensures WellFormed(f) {
      var n :| 0 <= n < |items| && f == ItemTree(items[n]);
      ItemTreeWellFormed(items[n]);
    }
    if BodySignature(items) == RenderAll(Trees(ts)) {
      UniqueSplit(ItemTrees(items), Trees(ts));
      forall n | 0 <= n < |ts| ensures Accepts(ts[n], items[n]) {
        assert ItemTrees(items)[n] == Trees(ts)[n];
        SignatureImpliesAccepted(ts[n], items[n]);
      }
    }
    if |items| == |ts| && (forall x | x in items :: NoEmptyArray(x)) && AcceptsArgs(ts, items) {
      forall n | 0 <= n < |ts| ensures ItemTrees(items)[n] == Trees(ts)[n] {
        AcceptedExactly(ts[n], items[n]);
      }
      assert ItemTrees(items) == Trees(ts);
    }
  }

  /** Two witnesses that the conditions are needed: an empty array of another element type, and a
      trailing argument. */
  lemma AcceptedWithOtherSignature()
    ensures var i := IArray(Leaf('s'), []);
            WellTyped(i) && Accepts(TVec(TDouble), i) && ItemTree(i) != Tree(TVec(TDouble))
    ensures var its := [IDouble(1.0), IDouble(2.0)];
            AcceptsArgs([TDouble], its) && BodySignature(its) != RenderAll(Trees([TDouble]))
  {
    var its := [IDouble(1.0), IDouble(2.0)];
    assert ItemTrees(its) == [Leaf('d'), Leaf('d')];
    assert RenderAll([Leaf('d'), Leaf('d')]) == "d" + RenderAll([Leaf('d')]) by {
      assert [Leaf('d'), Leaf('d')][1..] == [Leaf('d')];
    }
    assert Trees([TDouble]) == [Leaf('d')];
  }

  // ---------------------------------------------------------------- targets that are not empty

  /** What one element of an array becomes. */
  function Fresh(e: Type, i: Item): Value {
    DefaultHasType(e);
    Read(e, Default(e), i).value
  }

  function FreshAll(e: Type, items: seq<Item>): seq<Value> {
    seq(|items|, n requires 0 <= n < |items| => Fresh(e, items[n]))
  }

  lemma FreshAllStep(e: Type, items: seq<Item>)
    requires items != []
    ensures FreshAll(e, items) == [Fresh(e, items[0])] + FreshAll(e, items[1..])
  {
  }

  /** Unpacking an array appends the decoded elements to the old contents. */
  lemma {:induction false} ArrayAppends(e: Type, acc: seq<Value>, items: seq<Item>)
    requires ReadElems(e, acc, items).ok
    ensures ReadElems(e, acc, items).value == VSeq(acc + FreshAll(e, items))
    decreases |items|
  {
    if items == [] {
      assert acc + FreshAll(e, items) == acc;
    } else {
      var x := Fresh(e, items[0]);
      ArrayAppends(e, acc + [x], items[1..]);
      FreshAllStep(e, items);
      assert acc + [x] + FreshAll(e, items[1..]) == acc + FreshAll(e, items);
    }
  }

  lemma {:induction false} DictEmplaces(e: Type, acc: seq<Value>, items: seq<Item>)
    requires ReadKeyed(e, acc, items).ok
    ensures ReadKeyed(e, acc, items).value == VSeq(EmplaceAll(acc, FreshAll(e, items)))
    decreases |items|
  {
    if items != [] {
      DictEmplaces(e, Emplace(acc, Fresh(e, items[0])), items[1..]);
      FreshAllStep(e, items);
      assert FreshAll(e, items)[1..] == FreshAll(e, items[1..]);
    }
  }

  /** Unpacking into a map keeps every element already there and, for each new key, the first one
      in the message. */
  lemma DictKeepsFirst(e: Type, target: Value, i: Item, k: Value)
    requires HasType(TAssoc(e), target) && Contained(TAssoc(e))
    requires WellTyped(i) && Accepts(TAssoc(e), i)
    ensures var r := Read(TAssoc(e), target, i);
            r.ok && r.value.VSeq?
            && Sorted(r.value.elems)
            && Find(r.value.elems, k) == FirstOf(Find(target.elems, k), Find(FreshAll(e, i.items), k))
  {
    SucceedsWhenAccepted(TAssoc(e), target, i);
    DictEmplaces(e, target.elems, i.items);
    var xs := FreshAll(e, i.items);
    FreshHasType(e, i.items);
    assert forall x | x in target.elems + xs :: HasType(e, x);
    KeysComparable(e, target.elems + xs);
    FindEmplaceAll(target.elems, xs, k);
  }

  /** What a target becomes when an accepted item is unpacked into it: arrays append, ordered
      containers emplace, both members of a pair accumulate, everything else is replaced. */
  ghost function Merge(t: Type, target: Value, i: Item): Value
    requires HasType(t, target) && Accepts(t, i)
  {
    match t
    case TVec(e) => VSeq(target.elems + FreshAll(e, i.items))
    case TAssoc(e) => VSeq(EmplaceAll(target.elems, FreshAll(e, i.items)))
    case TPair(k, w) => VPair(Merge(k, target.first, i.items[0]), Merge(w, target.second, i.items[1]))
    case TVariant => VariantContent(target, i.item)
    case _ => ReadBasic(t, target, i).value
  }

  lemma {:induction false} UnpackMerges(t: Type, target: Value, i: Item)
    requires HasType(t, target) && Accepts(t, i)
    ensures Read(t, target, i) == Outcome(true, Merge(t, target, i))
  {
    SucceedsWhenAccepted(t, target, i);
    match t
    case TVec(e) => ArrayAppends(e, target.elems, i.items);
    case TAssoc(e) => DictEmplaces(e, target.elems, i.items);
    case TPair(k, w) => UnpackMerges(k, target.first, i.items[0]); UnpackMerges(w, target.second, i.items[1]);
    case _ =>
  }

  /** The same without naming the result: arrays append, maps emplace, the members of a pair go into those of the
      target, and a basic value replaces it. */
  lemma SuccessLeaves(t: Type, target: Value, i: Item)
    requires HasType(t, target) && Accepts(t, i) && WellTyped(i)
    ensures var r := Read(t, target, i);
            && r.ok
            && (t.TVec? ==> r.value == VSeq(target.elems + FreshAll(t.elem, i.items)))
            && (t.TAssoc? ==> r.value == VSeq(EmplaceAll(target.elems, FreshAll(t.elem, i.items))))
            && (t.TPair? ==> r.value == VPair(Read(t.key, target.first, i.items[0]).value,
                                              Read(t.value, target.second, i.items[1]).value))
            && (t.TInt? ==> r.value == VInt(i.n))
            && (t.TDouble? ==> r.value == VDouble(i.r))
            && (t.TString? || t.TPath? ==> r.value == VText(i.s))
  {
    UnpackMerges(t, target, i);
    match t
    case TPair(k, w) => UnpackMerges(k, target.first, i.items[0]); UnpackMerges(w, target.second, i.items[1]);
    case TString => CutAtFirstNul(i.s);
    case TPath => CutAtFirstNul(i.s);
    case _ =>
  }

  // ---------------------------------------------------------------- what a failed unpack leaves

  /** Item `n` is the first that is not accepted. */
  ghost predicate FirstMisfit(e: Type, items: seq<Item>, n: nat) {
    n < |items| && !Accepts(e, items[n]) && forall m | 0 <= m < n :: Accepts(e, items[m])
  }

  /** An array target keeps its old contents, the elements before the first misfit, and the element that was added for
      the misfit, with whatever had been stored in it. */
  lemma {:induction false} ArrayStopsAtMisfit(e: Type, acc: seq<Value>, items: seq<Item>, n: nat)
    requires FirstMisfit(e, items, n)
    ensures ReadElems(e, acc, items) == Outcome(false, VSeq(acc + FreshAll(e, items[..n]) + [Fresh(e, items[n])]))
    decreases n
  {
    DefaultHasType(e);
    SucceedsWhenAccepted(e, Default(e), items[0]);
    var x := Fresh(e, items[0]);
    if n == 0 {
      assert acc + FreshAll(e, items[..0]) + [x] == acc + [x];
    } else {
      ArrayStopsAtMisfit(e, acc + [x], items[1..], n - 1);
      FreshAllStep(e, items[..n]);
      assert items[..n][1..] == items[1..][..n - 1];
      assert acc + [x] + FreshAll(e, items[1..][..n - 1]) == acc + FreshAll(e, items[..n]);
    }
  }

  /** A map target keeps the elements before the first misfit, and nothing of the misfit. */
  lemma {:induction false} DictStopsAtMisfit(e: Type, acc: seq<Value>, items: seq<Item>, n: nat)
    requires FirstMisfit(e, items, n)
    ensures ReadKeyed(e, acc, items) == Outcome(false, VSeq(EmplaceAll(acc, FreshAll(e, items[..n]))))
    decreases n
  {
    DefaultHasType(e);
    SucceedsWhenAccepted(e, Default(e), items[0]);
    if n > 0 {
      DictStopsAtMisfit(e, Emplace(acc, Fresh(e, items[0])), items[1..], n - 1);
      FreshAllStep(e, items[..n]);
      assert items[..n][1..] == items[1..][..n - 1];
      assert FreshAll(e, items[..n])[1..] == FreshAll(e, items[1..][..n - 1]);
    }
  }

  /** What unpack leaves in a target when the item is not accepted: arrays and maps stop at the first misfit, a pair
      stops at its first member that does not fit, and everything else is as before. */
  lemma FailureLeaves(t: Type, target: Value, i: Item)
    requires HasType(t, target) && !Accepts(t, i)
    ensures t.TVec? && i.IArray? ==> forall n: nat | FirstMisfit(t.elem, i.items, n) ::
              Read(t, target, i).value
              == VSeq(target.elems + FreshAll(t.elem, i.items[..n]) + [Fresh(t.elem, i.items[n])])
    ensures t.TAssoc? && i.IArray? ==> forall n: nat | FirstMisfit(t.elem, i.items, n) ::
              Read(t, target, i).value == VSeq(EmplaceAll(target.elems, FreshAll(t.elem, i.items[..n])))
    ensures t.TPair? && i.IGroup? && i.code == 'e' && i.items != [] && !Accepts(t.key, i.items[0]) ==>
              Read(t, target, i).value == VPair(Read(t.key, target.first, i.items[0]).value, target.second)
    ensures t.TPair? && i.IGroup? && i.code == 'e' && |i.items| >= 2 && Accepts(t.key, i.items[0]) ==>
              Read(t, target, i).value
              == VPair(Merge(t.key, target.first, i.items[0]), Read(t.value, target.second, i.items[1]).value)
    ensures (t.TVec? || t.TAssoc? ==> !i.IArray?) && (t.TPair? ==> !i.IGroup? || i.code != 'e') ==>
              Read(t, target, i).value == target
  {
    match t
    case TVec(e) =>
      if i.IArray? {
        forall n: nat | FirstMisfit(e, i.items, n)
          ensures Read(t, target, i).value
               == VSeq(target.elems + FreshAll(e, i.items[..n]) + [Fresh(e, i.items[n])])
        {
          ArrayStopsAtMisfit(e, target.elems, i.items, n);
        }
      }
    case TAssoc(e) =>
      if i.IArray? {
        forall n: nat | FirstMisfit(e, i.items, n)
          ensures Read(t, target, i).value == VSeq(EmplaceAll(target.elems, FreshAll(e, i.items[..n])))
        {
          DictStopsAtMisfit(e, target.elems, i.items, n);
        }
      }
    case TPair(k, w) =>
      if i.IGroup? && i.items != [] {
        SucceedsWhenAccepted(k, target.first, i.items[0]);
        if Accepts(k, i.items[0]) { UnpackMerges(k, target.first, i.items[0]); }
      }
    case _ =>
  }

  /** An array that is not accepted has a first misfit. */
  lemma {:induction false} MisfitExists(e: Type, items: seq<Item>) returns (n: nat)
    requires exists x :: x in items && !Accepts(e, x)
    ensures FirstMisfit(e, items, n)
    decreases |items|
  {
    if !Accepts(e, items[0]) {
      n := 0;
    } else {
      assert items == [items[0]] + items[1..];
      var m := MisfitExists(e, items[1..]);
      n := m + 1;
      assert forall k | 0 < k < n :: items[k] == items[1..][k - 1];
    }
  }

  /** A string vector that reads an array of one integer is left with one empty string. */
  lemma MisfitLeavesEmptyElement()
    ensures var i := IArray(Leaf('i'), [IInt(Int32, 7)]);
            WellTyped(i) && Read(TVec(TString), VSeq([]), i) == Outcome(false, VSeq([VText("")]))
  {
    var items := [IInt(Int32, 7)];
    assert !Accepts(TString, items[0]);
    ArrayStopsAtMisfit(TString, [], items, 0);
    assert FreshAll(TString, items[..0]) == [];
    assert [] + FreshAll(TString, items[..0]) + [VText("")] == [VText("")];
  }

  /** Argument `n` is the first that is missing or not accepted. */
  ghost predicate FirstArgMisfit(ts: seq<Type>, items: seq<Item>, n: nat) {
    && n < |ts| && (n < |items| ==> !Accepts(ts[n], items[n])) && n <= |items|
    && forall m | 0 <= m < n :: Accepts(ts[m], items[m])
  }

  /** Arguments before the first misfit are unpacked, those behind it are untouched, and the misfit is left as its own
      unpack leaves it, untouched if it is missing. */
  lemma {:induction false} ArgsStopAtMisfit(ts: seq<Type>, targets: seq<Value>, items: seq<Item>, n: nat)
    requires HasTypes(ts, targets) && FirstArgMisfit(ts, items, n)
    ensures var r := ReadArgs(ts, targets, items);
            && !r.ok
            && (forall m | 0 <= m < n :: r.values[m] == Merge(ts[m], targets[m], items[m]))
            && r.values[n] == (if n < |items| then Read(ts[n], targets[n], items[n]).value else targets[n])
            && (forall m | n < m < |ts| :: r.values[m] == targets[m])
    decreases n
  {
    if items != [] { SucceedsWhenAccepted(ts[0], targets[0], items[0]); }
    if n > 0 {
      UnpackMerges(ts[0], targets[0], items[0]);
      ArgsStopAtMisfit(ts[1..], targets[1..], items[1..], n - 1);
      var r, rest := ReadArgs(ts, targets, items), ReadArgs(ts[1..], targets[1..], items[1..]);
      assert forall m | 0 < m < |ts| :: r.values[m] == rest.values[m - 1];
      forall m | 0 < m < n ensures r.values[m] == Merge(ts[m], targets[m], items[m]) {
        assert ts[1..][m - 1] == ts[m] && targets[1..][m - 1] == targets[m] && items[1..][m - 1] == items[m];
      }
    }
  }

  /** Every argument of a body that is accepted is unpacked into its own target. */
  lemma {:induction false} ArgsMerge(ts: seq<Type>, targets: seq<Value>, items: seq<Item>)
    requires HasTypes(ts, targets) && AcceptsArgs(ts, items)
    ensures var r := ReadArgs(ts, targets, items);
            r.ok && forall m | 0 <= m < |ts| :: r.values[m] == Merge(ts[m], targets[m], items[m])
    decreases |ts|
  {
    if ts != [] {
      UnpackMerges(ts[0], targets[0], items[0]);
      ArgsMerge(ts[1..], targets[1..], items[1..]);
      var r, rest := ReadArgs(ts, targets, items), ReadArgs(ts[1..], targets[1..], items[1..]);
      forall m | 0 < m < |ts| ensures r.values[m] == Merge(ts[m], targets[m], items[m]) {
        assert r.values[m] == rest.values[m - 1];
        assert ts[1..][m - 1] == ts[m] && targets[1..][m - 1] == targets[m] && items[1..][m - 1] == items[m];
      }
    }
  }

  /** Content of the ten alternatives is taken over with its own type, any other leaves the variant as it was. */
  lemma VariantTakesOver(target: Value, sig: SigTree, content: Item)
    requires HasType(TVariant, target) && WellTyped(content)
    ensures Read(TVariant, target, IVariant(sig, content)).ok
    ensures var v := Read(TVariant, target, IVariant(sig, content)).value;
            && (content.IInt? ==> v == VVariant(TInt(content.kind), VInt(content.n)))
            && (content.IDouble? ==> v == VVariant(TDouble, VDouble(content.r)))
            && (content.IText? && content.code == 's' ==> v == VVariant(TString, VText(content.s)))
            && (!content.IInt? && !content.IDouble? && !(content.IText? && content.code == 's') ==> v == target)
  {
    if content.IText? { CutAtFirstNul(content.s); }
  }

  // ---------------------------------------------------------------- type safety

  /** Whatever well-typed item arrives, a target of type `t` still holds a value of type `t` after
      unpack, also when unpack fails halfway: maps stay ordered with distinct keys. */
  lemma {:induction false} ReadKeepsType(t: Type, target: Value, i: Item)
    requires HasType(t, target) && Contained(t) && WellTyped(i)
    ensures HasType(t, Read(t, target, i).value)
    decreases t, 0
  {
    match t
    case TVec(e) => if i.IArray? { ElemsKeepType(e, target.elems, i.items); }
    case TAssoc(e) => if i.IArray? { KeyedKeepType(e, target.elems, i.items); }
    case TPair(k, w) =>
      if i.IGroup? && |i.items| > 0 {
        BasicContained(k);
        SingleContained(w);
        ReadKeepsType(k, target.first, i.items[0]);
        if |i.items| > 1 { ReadKeepsType(w, target.second, i.items[1]); }
      }
    case _ =>
  }

  lemma BasicContained(t: Type)
    requires IsBasic(t)
    ensures Contained(t)
  {
  }

  lemma SingleContained(t: Type)
    requires Single(t)
    ensures Contained(t)
  {
  }

  lemma {:induction false} ElemsKeepType(e: Type, acc: seq<Value>, items: seq<Item>)
    requires Contained(e) && AllWellTyped(items)
    requires forall x | x in acc :: HasType(e, x)
    ensures HasType(TVec(e), ReadElems(e, acc, items).value)
    decreases e, |items| + 1
  {
    if items != [] {
      DefaultHasType(e);
      ReadKeepsType(e, Default(e), items[0]);
      ElemsKeepType(e, acc + [Fresh(e, items[0])], items[1..]);
    }
  }

  lemma {:induction false} KeyedKeepType(e: Type, acc: seq<Value>, items: seq<Item>)
    requires Contained(e) && IsBasic(KeyType(e)) && AllWellTyped(items)
    requires HasType(TAssoc(e), VSeq(acc))
    ensures HasType(TAssoc(e), ReadKeyed(e, acc, items).value)
    decreases e, |items| + 1
  {
    if items != [] {
      DefaultHasType(e);
      ReadKeepsType(e, Default(e), items[0]);
      var x := Fresh(e, items[0]);
      assert forall y | y in acc + [x] :: HasType(e, y);
      KeysComparable(e, acc + [x]);
      assert x in acc + [x];
      EmplaceSorted(acc, x);
      EmplaceMembers(acc, x);
      KeyedKeepType(e, Emplace(acc, x), items[1..]);
    }
  }

  lemma FreshHasType(e: Type, items: seq<Item>)
    requires Contained(e) && AllWellTyped(items)
    ensures forall x | x in FreshAll(e, items) :: HasType(e, x)
  {
    forall x | x in FreshAll(e, items) ensures HasType(e, x) {
      var n :| 0 <= n < |items| && x == Fresh(e, items[n]);
      DefaultHasType(e);
      ReadKeepsType(e, Default(e), items[n]);
    }
  }
}
