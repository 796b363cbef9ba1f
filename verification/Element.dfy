/** The D-Bus type system as `element.hpp` sees it: C++ types, their type codes
    and the signature strings computed from them by recursion over types. */
module Element {

  datatype IntKind = Bool | Byte | Int16 | Uint16 | Int32 | Uint32 | Int64 | Uint64

  /** The C++ types that have an element signature.  `TVec` stands for every container
      with `emplace_back`, `TAssoc` for every container with `emplace` (flat_map, map, set),
      both described by their `value_type`. */
  datatype Type =
    | TInt(kind: IntKind)
    | TDouble
    | TString
    | TPath
    | TVariant
    | TVec(elem: Type)
    | TAssoc(elem: Type)
    | TPair(key: Type, value: Type)

  function IntCode(k: IntKind): char {
    match k
    case Bool => 'b'
    case Byte => 'y'
    case Int16 => 'n'
    case Uint16 => 'q'
    case Int32 => 'i'
    case Uint32 => 'u'
    case Int64 => 'x'
    case Uint64 => 't'
  }

  predicate IsBasic(t: Type) {
    t.TInt? || t.TDouble? || t.TString? || t.TPath?
  }

  /** The ten alternatives of `dbus_variant`. */
  predicate IsAlternative(t: Type) {
    t.TInt? || t.TDouble? || t.TString?
  }

  function KeyType(elem: Type): Type {
    if elem.TPair? then elem.key else elem
  }

  /** Container types of the D-Bus Specification, "Type System": a dict entry occurs only
      as the element of an array, and its key is a basic type. */
  predicate Single(t: Type)
    decreases t, 0
  {
    match t
    case TVec(e) => Contained(e)
    case TAssoc(e) => Contained(e) && IsBasic(KeyType(e))
    case TPair(_, _) => false
    case _ => true
  }

  predicate Contained(t: Type)
    decreases t, 1
  {
    if t.TPair? then IsBasic(t.key) && Single(t.value) else Single(t)
  }

  // ---------------------------------------------------------------- signatures

  /** Character arrays carry their terminating NUL; `concat` drops the first one's. */
  function Concat(a1: seq<char>, a2: seq<char>): (r: seq<char>)
    requires |a1| > 0
    ensures |r| == |a1| + |a2| - 1
  {
    a1[..|a1| - 1] + a2
  }

  /** `element_signature<T>::code`, terminating NUL included. */
  function CodeArray(t: Type): (r: seq<char>)
    ensures |r| >= 2
  {
    match t
    case TInt(k) => [IntCode(k), '\0']
    case TDouble => ['d', '\0']
    case TString => ['s', '\0']
    case TPath => ['o', '\0']
    case TVariant => ['v', '\0']
    case TVec(e) => Concat(['a', '\0'], CodeArray(e))
    case TAssoc(e) => Concat(['a', '\0'], CodeArray(e))
    case TPair(k, v) => Concat(['{', '\0'], Concat(CodeArray(k), Concat(CodeArray(v), ['}', '\0'])))
  }

  /** What a C string function reads from position `from` on. */
  function CString(a: seq<char>, from: nat): seq<char>
    requires from <= |a|
    decreases |a| - from
  {
    if from == |a| || a[from] == '\0' then [] else [a[from]] + CString(a, from + 1)
  }

  /** The grammar of single complete types, structs and dict entries included: what any
      peer may put into a message, not only what this library can. */
  datatype SigTree =
    | Leaf(code: char)
    | ArrayOf(elem: SigTree)
    | Entry(key: SigTree, value: SigTree)
    | Struct(fields: seq<SigTree>)

  predicate LeafCode(c: char) { c != '\0' && c !in "a(){}" }

  predicate WellFormed(a: SigTree) {
    match a
    case Leaf(c) => LeafCode(c)
    case ArrayOf(e) => WellFormed(e)
    case Entry(k, v) => WellFormed(k) && WellFormed(v)
    case Struct(fs) => forall f | f in fs :: WellFormed(f)
  }

  function Render(a: SigTree): string {
    match a
    case Leaf(c) => [c]
    case ArrayOf(e) => "a" + Render(e)
    case Entry(k, v) => "{" + Render(k) + Render(v) + "}"
    case Struct(fs) => "(" + RenderAll(fs) + ")"
  }

  function RenderAll(fs: seq<SigTree>): string {
    if fs == [] then "" else Render(fs[0]) + RenderAll(fs[1..])
  }

  function Tree(t: Type): SigTree {
    match t
    case TInt(k) => Leaf(IntCode(k))
    case TDouble => Leaf('d')
    case TString => Leaf('s')
    case TPath => Leaf('o')
    case TVariant => Leaf('v')
    case TVec(e) => ArrayOf(Tree(e))
    case TAssoc(e) => ArrayOf(Tree(e))
    case TPair(k, v) => Entry(Tree(k), Tree(v))
  }

  function Signature(t: Type): string { Render(Tree(t)) }

  function Trees(ts: seq<Type>): seq<SigTree> {
    seq(|ts|, i requires 0 <= i < |ts| => Tree(ts[i]))
  }

  lemma {:induction false} TreeWellFormed(t: Type)
    ensures WellFormed(Tree(t))
  {
    match t
    case TVec(e) => TreeWellFormed(e);
    case TAssoc(e) => TreeWellFormed(e);
    case TPair(k, v) => TreeWellFormed(k); TreeWellFormed(v);
    case _ =>
  }

  lemma {:induction false} NulFreeRender(a: SigTree)
    requires WellFormed(a)
    ensures '\0' !in Render(a) && |Render(a)| > 0
    decreases a, 0
  {
    match a
    case Leaf(_) =>
    case ArrayOf(e) => NulFreeRender(e);
    case Entry(k, v) => NulFreeRender(k); NulFreeRender(v);
    case Struct(fs) => NulFreeRenderAll(fs);
  }

  lemma {:induction false} NulFreeRenderAll(fs: seq<SigTree>)
    requires forall f | f in fs :: WellFormed(f)
    ensures '\0' !in RenderAll(fs)
    decreases fs, 1
  {
    if fs != [] { NulFreeRender(fs[0]); NulFreeRenderAll(fs[1..]); }
  }

  /** The array computed by nested `concat`s is exactly large enough at every depth: it holds the
      signature, then one NUL and nothing else. */
  lemma {:induction false} CodeArrayIsSignature(t: Type)
    ensures CodeArray(t) == Signature(t) + ['\0']
    ensures '\0' !in Signature(t)
  {
    TreeWellFormed(t);
    NulFreeRender(Tree(t));
    match t
    case TVec(e) => CodeArrayIsSignature(e);
    case TAssoc(e) => CodeArrayIsSignature(e);
    case TPair(k, v) => CodeArrayIsSignature(k); CodeArrayIsSignature(v); PairCode(Signature(k), Signature(v));
    case _ =>
  }

  lemma ConcatDropsNul(a: string, b: seq<char>)
    ensures Concat(a + ['\0'], b) == a + b
  {
  }

  lemma PairCode(k: string, v: string)
    ensures Concat(['{', '\0'], Concat(k + ['\0'], Concat(v + ['\0'], ['}', '\0']))) == "{" + k + v + "}" + ['\0']
  {
    var close := "}" + ['\0'];
    ConcatDropsNul(v, close);
    ConcatDropsNul(k, v + close);
    ConcatDropsNul("{", k + (v + close));
    Associate("{", k, v + close);
    Associate("{" + k, v, close);
    Associate("{" + k + v, "}", ['\0']);
    assert close == ['}', '\0'] && "{" + ['\0'] == ['{', '\0'];
  }

  lemma {:induction false} CStringStopsAtNul(s: string, from: nat)
    requires from <= |s| && '\0' !in s
    ensures CString(s + ['\0'], from) == s[from..]
    decreases |s| - from
  {
    if from < |s| { CStringStopsAtNul(s, from + 1); }
  }

  /** Containers pass `code[0]` and `&code[1]` to `open_container`: the array code and the
      element's own signature. */
  lemma ContainerCodeSplits(t: Type)
    requires t.TVec? || t.TAssoc?
    ensures CodeArray(t)[0] == 'a' && CString(CodeArray(t), 1) == Signature(t.elem)
  {
    CodeArrayIsSignature(t);
    CStringStopsAtNul(Signature(t), 1);
  }

  lemma VariantCode(t: Type)
    ensures CString(CodeArray(t), 0) == Signature(t)
  {
    CodeArrayIsSignature(t);
    CStringStopsAtNul(Signature(t), 0);
  }

  /** The codes of the D-Bus Specification, "Type System", and how containers are written. */
  lemma CodesOfTheSpecification(k: Type, v: Type)
    ensures Signature(TInt(Byte)) == "y" && Signature(TInt(Bool)) == "b" && Signature(TInt(Int16)) == "n"
    ensures Signature(TInt(Uint16)) == "q" && Signature(TInt(Int32)) == "i" && Signature(TInt(Uint32)) == "u"
    ensures Signature(TInt(Int64)) == "x" && Signature(TInt(Uint64)) == "t" && Signature(TDouble) == "d"
    ensures Signature(TString) == "s" && Signature(TPath) == "o" && Signature(TVariant) == "v"
    ensures Signature(TVec(v)) == Signature(TAssoc(v)) == "a" + Signature(v)
    ensures Signature(TPair(k, v)) == "{" + Signature(k) + Signature(v) + "}"
  {
  }

  // ---------------------------------------------------------------- unique decodability

  lemma {:induction false} FirstCharacter(a: SigTree)
    requires WellFormed(a)
    ensures Render(a) != "" && Render(a)[0] != ')'
    ensures (Render(a)[0] == 'a') == a.ArrayOf?
    ensures (Render(a)[0] == '{') == a.Entry?
    ensures (Render(a)[0] == '(') == a.Struct?
  {
    match a
    case _ =>
  }

  lemma DropFirst(c: char, s: string, r: string)
    ensures ([c] + s) + r == [c] + (s + r)
    ensures (([c] + s) + r)[1..] == s + r
  {
  }

  /** Signatures are prefix-free: two concatenations that start with a complete type and
      are equal start with the same type. */
  lemma {:induction false} PrefixFree(a: SigTree, b: SigTree, ra: string, rb: string)
    requires WellFormed(a) && WellFormed(b)
    requires Render(a) + ra == Render(b) + rb
    ensures a == b && ra == rb
    decreases a, 1
  {
    FirstCharacter(a);
    FirstCharacter(b);
    assert (Render(a) + ra)[0] == Render(a)[0] && (Render(b) + rb)[0] == Render(b)[0];
    match a
    case Leaf(c) =>
      DropFirst(c, "", ra);
      DropFirst(c, "", rb);
      assert "" + ra == ra && "" + rb == rb && [c] + "" == [c];
    case ArrayOf(e) =>
      DropFirst('a', Render(e), ra);
      DropFirst('a', Render(b.elem), rb);
      PrefixFree(e, b.elem, ra, rb);
    case Entry(k, v) =>
      PrefixFreeEntry(k, v, b.key, b.value, ra, rb);
    case Struct(fs) =>
      StructTail(fs, ra);
      StructTail(b.fields, rb);
      PrefixFreeAll(fs, b.fields, ra, rb);
  }

  lemma StructTail(fs: seq<SigTree>, r: string)
    ensures (Render(Struct(fs)) + r)[1..] == RenderAll(fs) + ")" + r
  {
  }

  lemma EntryTail(k: SigTree, v: SigTree, r: string)
    ensures (Render(Entry(k, v)) + r)[1..] == Render(k) + (Render(v) + ("}" + r))
  {
  }

  lemma {:induction false} PrefixFreeEntry(k: SigTree, v: SigTree, l: SigTree, w: SigTree, ra: string, rb: string)
    requires WellFormed(k) && WellFormed(v) && WellFormed(l) && WellFormed(w)
    requires Render(Entry(k, v)) + ra == Render(Entry(l, w)) + rb
    ensures k == l && v == w && ra == rb
    decreases Entry(k, v), 0
  {
    EntryTail(k, v, ra);
    EntryTail(l, w, rb);
    PrefixFree(k, l, Render(v) + ("}" + ra), Render(w) + ("}" + rb));
    PrefixFree(v, w, "}" + ra, "}" + rb);
    assert ra == ("}" + ra)[1..] && rb == ("}" + rb)[1..];
  }

  lemma AllHead(fs: seq<SigTree>, r: string)
    requires forall f | f in fs :: WellFormed(f)
    ensures ((RenderAll(fs) + ")" + r)[0] == ')') == (fs == [])
    ensures fs != [] ==> RenderAll(fs) + ")" + r == Render(fs[0]) + (RenderAll(fs[1..]) + ")" + r)
  {
    if fs != [] {
      FirstCharacter(fs[0]);
      var a, b := Render(fs[0]), RenderAll(fs[1..]);
      assert RenderAll(fs) + ")" + r == a + (b + ")" + r) by {
        Associate(a, b, ")" + r); Associate(b, ")", r); Associate(a + b, ")", r);
      }
    }
  }

  lemma Associate(a: string, b: string, c: string)
    ensures (a + b) + c == a + (b + c)
  {
  }

  lemma {:induction false} PrefixFreeAll(fs: seq<SigTree>, gs: seq<SigTree>, rf: string, rg: string)
    requires forall f | f in fs :: WellFormed(f)
    requires forall g | g in gs :: WellFormed(g)
    requires RenderAll(fs) + ")" + rf == RenderAll(gs) + ")" + rg
    ensures fs == gs && rf == rg
    decreases fs, 2
  {
    AllHead(fs, rf);
    AllHead(gs, rg);
    if fs == [] {
      DropFirst(')', "", rf);
      DropFirst(')', "", rg);
      assert "" + rf == rf && "" + rg == rg && "" + ")" + rf == [')'] + "" + rf && "" + ")" + rg == [')'] + "" + rg;
    } else {
      PrefixFree(fs[0], gs[0], RenderAll(fs[1..]) + ")" + rf, RenderAll(gs[1..]) + ")" + rg);
      PrefixFreeAll(fs[1..], gs[1..], rf, rg);
      assert fs == [fs[0]] + fs[1..] && gs == [gs[0]] + gs[1..];
    }
  }

  /** A concatenation of signatures splits in one way only. */
  lemma {:induction false} UniqueSplit(fs: seq<SigTree>, gs: seq<SigTree>)
    requires forall f | f in fs :: WellFormed(f)
    requires forall g | g in gs :: WellFormed(g)
    requires RenderAll(fs) == RenderAll(gs)
    ensures fs == gs
  {
    PrefixFreeAll(fs, gs, "", "");
  }

  lemma SplitsUniquely(ts: seq<Type>, us: seq<Type>)
    requires RenderAll(Trees(ts)) == RenderAll(Trees(us))
    ensures |ts| == |us| && forall i :: 0 <= i < |ts| ==> Signature(ts[i]) == Signature(us[i])
  {
    TreesWellFormed(ts);
    TreesWellFormed(us);
    UniqueSplit(Trees(ts), Trees(us));
    forall i | 0 <= i < |ts| ensures Signature(ts[i]) == Signature(us[i]) {
      assert Tree(ts[i]) == Trees(ts)[i] == Trees(us)[i] == Tree(us[i]);
    }
  }

  lemma TreesWellFormed(ts: seq<Type>)
    ensures forall f | f in Trees(ts) :: WellFormed(f)
  {
    forall f | f in Trees(ts) ensures WellFormed(f) {
      var i :| 0 <= i < |ts| && f == Trees(ts)[i];
      TreeWellFormed(ts[i]);
    }
  }

  /** Forget which kind of container a type uses. */
  function Uniform(t: Type): Type {
    match t
    case TVec(e) => TVec(Uniform(e))
    case TAssoc(e) => TVec(Uniform(e))
    case TPair(k, v) => TPair(Uniform(k), Uniform(v))
    case _ => t
  }

  /** Two types share a signature exactly when they are equal up to the kind of container. */
  lemma SameSignature(t: Type, u: Type)
    ensures Signature(t) == Signature(u) <==> Uniform(t) == Uniform(u)
  {
    if Signature(t) == Signature(u) {
      TreeWellFormed(t); TreeWellFormed(u);
      PrefixFree(Tree(t), Tree(u), "", "");
    }
    SameTree(t, u);
  }

  lemma {:induction false} SameTree(t: Type, u: Type)
    ensures Tree(t) == Tree(u) <==> Uniform(t) == Uniform(u)
  {
    match t
    case TVec(e) => if u.TVec? || u.TAssoc? { SameTree(e, u.elem); }
    case TAssoc(e) => if u.TVec? || u.TAssoc? { SameTree(e, u.elem); }
    case TPair(k, v) => if u.TPair? { SameTree(k, u.key); SameTree(v, u.value); }
    case TInt(k) => assert forall j: IntKind :: IntCode(j) == IntCode(k) ==> j == k;
    case _ =>
  }
}
