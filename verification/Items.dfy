/** The content of a message: a tree of items, and the flat token buffer that carries it. */
module Items {
  import opened Element
  import opened Values

  /** One complete value in a message.  An array keeps the element signature it was opened
      with even when it is empty.  `IGroup` is a dict entry ('e') or a struct ('r'). */
  datatype Item =
    | IInt(kind: IntKind, n: int)
    | IDouble(r: real)
    | IText(code: char, s: string)
    | IArray(elem: SigTree, items: seq<Item>)
    | IVariant(sig: SigTree, item: Item)
    | IGroup(code: char, items: seq<Item>)

  /** The buffer is flat: a container is an `Open` token that records the signature
      passed to `open_container` and how many of the following tokens are inside. */
  datatype Token = Basic(leaf: Item) | Open(code: char, contained: string, len: nat)

  predicate IsLeaf(i: Item) { i.IInt? || i.IDouble? || i.IText? }

  function LeafCodeOf(i: Item): char
    requires IsLeaf(i)
  {
    match i
    case IInt(k, _) => IntCode(k)
    case IDouble(_) => 'd'
    case IText(c, _) => c
  }

  /** `get_arg_type` at a cursor that stands on this item. */
  function CodeOf(i: Item): char {
    match i
    case IArray(_, _) => 'a'
    case IVariant(_, _) => 'v'
    case IGroup(c, _) => c
    case _ => LeafCodeOf(i)
  }

  function FlattenItem(i: Item): (ts: seq<Token>)
    ensures |ts| > 0
    decreases i, 0
  {
    match i
    case IArray(e, its) => [Open('a', Render(e), |Flatten(its)|)] + Flatten(its)
    case IVariant(s, it) => [Open('v', Render(s), |FlattenItem(it)|)] + FlattenItem(it)
    case IGroup(c, its) => [Open(c, "", |Flatten(its)|)] + Flatten(its)
    case _ => [Basic(i)]
  }

  function Flatten(its: seq<Item>): seq<Token>
    decreases its, 1
  {
    if its == [] then [] else FlattenItem(its[0]) + Flatten(its[1..])
  }

  lemma {:induction false} FlattenAppend(a: seq<Item>, b: seq<Item>)
    ensures Flatten(a + b) == Flatten(a) + Flatten(b)
  {
    if a == [] {
      assert a + b == b;
    } else {
      FlattenAppend(a[1..], b);
      FlattenFirst(a);
      FlattenFirst(a + b);
      assert (a + b)[1..] == a[1..] + b;
      Associate(FlattenItem(a[0]), Flatten(a[1..]), Flatten(b));
    }
  }

  lemma FlattenFirst(its: seq<Item>)
    requires its != []
    ensures Flatten(its) == FlattenItem(its[0]) + Flatten(its[1..])
  {
  }

  lemma Associate(a: seq<Token>, b: seq<Token>, c: seq<Token>)
    ensures (a + b) + c == a + (b + c)
  {
  }

  lemma FlattenOne(i: Item)
    ensures Flatten([i]) == FlattenItem(i)
  {
    assert [i][1..] == [];
    assert Flatten([i]) == FlattenItem(i) + Flatten([]);
  }

  // ---------------------------------------------------------------- what a value looks like inside a message

  function ItemOf(t: Type, v: Value): Item
    requires HasType(t, v)
    decreases t, 0
  {
    match t
    case TInt(k) => IInt(k, v.n)
    case TDouble => IDouble(v.r)
    case TString => IText('s', Cut(v.s))
    case TPath => IText('o', Cut(v.s))
    case TVariant => IVariant(Tree(v.alt), BasicItemOf(v.alt, v.held))
    case TVec(e) => IArray(Tree(e), ItemsOf(e, v.elems))
    case TAssoc(e) => IArray(Tree(e), ItemsOf(e, v.elems))
    case TPair(k, w) => IGroup('e', [ItemOf(k, v.first), ItemOf(w, v.second)])
  }

  function BasicItemOf(t: Type, v: Value): Item
    requires HasBasicType(t, v)
  {
    match t
    case TInt(k) => IInt(k, v.n)
    case TDouble => IDouble(v.r)
    case TString => IText('s', Cut(v.s))
    case TPath => IText('o', Cut(v.s))
  }

  function ItemsOf(e: Type, vs: seq<Value>): (its: seq<Item>)
    requires forall v | v in vs :: HasType(e, v)
    ensures |its| == |vs| && forall i :: 0 <= i < |vs| ==> its[i] == ItemOf(e, vs[i])
    decreases e, |vs|
  {
    if vs == [] then [] else [ItemOf(e, vs[0])] + ItemsOf(e, vs[1..])
  }

  function ArgItems(ts: seq<Type>, vs: seq<Value>): (its: seq<Item>)
    requires HasTypes(ts, vs)
    ensures |its| == |ts|
  {
    seq(|ts|, i requires 0 <= i < |ts| => ItemOf(ts[i], vs[i]))
  }

  // ---------------------------------------------------------------- well-typed message content

  function ItemTree(i: Item): SigTree
    decreases i, 0
  {
    match i
    case IArray(e, _) => ArrayOf(e)
    case IVariant(_, _) => Leaf('v')
    case IGroup(c, its) =>
      if c == 'e' && |its| == 2 then Entry(ItemTree(its[0]), ItemTree(its[1])) else Struct(ItemTrees(its))
    case _ => Leaf(LeafCodeOf(i))
  }

  function ItemTrees(its: seq<Item>): (r: seq<SigTree>)
    ensures |r| == |its| && forall i :: 0 <= i < |its| ==> r[i] == ItemTree(its[i])
    decreases its, 1
  {
    if its == [] then [] else [ItemTree(its[0])] + ItemTrees(its[1..])
  }

  /** What the bus guarantees about a message body: containers hold what they declare, numbers fit
      their type and text has no NUL. */
  ghost predicate WellTyped(i: Item) {
    match i
    case IInt(k, n) => InRange(k, n)
    case IDouble(_) => true
    case IText(c, s) => c in "sogh" && '\0' !in s
    case IArray(e, its) => WellFormed(e) && forall x | x in its :: WellTyped(x) && ItemTree(x) == e
    case IVariant(s, x) => WellFormed(s) && WellTyped(x) && ItemTree(x) == s
    case IGroup(c, its) => (c == 'r' || (c == 'e' && |its| == 2)) && forall x | x in its :: WellTyped(x)
  }

  ghost predicate AllWellTyped(items: seq<Item>) {
    forall x | x in items :: WellTyped(x)
  }

  lemma {:induction false} ItemTreeWellFormed(i: Item)
    requires WellTyped(i)
    ensures WellFormed(ItemTree(i))
    decreases i
  {
    match i
    case IGroup(c, its) =>
      forall x | x in its ensures WellFormed(ItemTree(x)) { ItemTreeWellFormed(x); }
      assert forall f | f in ItemTrees(its) :: WellFormed(f);
    case _ =>
  }

  lemma BasicItemWellTyped(t: Type, v: Value)
    requires HasBasicType(t, v)
    ensures WellTyped(BasicItemOf(t, v)) && ItemTree(BasicItemOf(t, v)) == Tree(t)
  {
    if v.VText? { CutAtFirstNul(v.s); }
  }

  /** Everything that is packed is well typed, and every container declares exactly the
      signature of every element packed into it, empty arrays included. */
  lemma {:induction false} PackedIsWellTyped(t: Type, v: Value)
    requires HasType(t, v)
    ensures WellTyped(ItemOf(t, v)) && ItemTree(ItemOf(t, v)) == Tree(t)
    decreases t, 0
  {
    TreeWellFormed(t);
    match t
    case TVariant => TreeWellFormed(v.alt); BasicItemWellTyped(v.alt, v.held);
    case TVec(e) => PackedAllWellTyped(e, v.elems);
    case TAssoc(e) => PackedAllWellTyped(e, v.elems);
    case TPair(k, w) =>
      PackedIsWellTyped(k, v.first); PackedIsWellTyped(w, v.second);
    case _ => BasicItemWellTyped(t, v);
  }

  lemma {:induction false} PackedAllWellTyped(e: Type, vs: seq<Value>)
    requires forall v | v in vs :: HasType(e, v)
    ensures forall x | x in ItemsOf(e, vs) :: WellTyped(x) && ItemTree(x) == Tree(e)
    decreases e, 1
  {
    forall x | x in ItemsOf(e, vs) ensures WellTyped(x) && ItemTree(x) == Tree(e) {
      var i :| 0 <= i < |vs| && x == ItemOf(e, vs[i]);
      PackedIsWellTyped(e, vs[i]);
    }
  }
}
