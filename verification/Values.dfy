/** Values of the C++ types, `emplace` on ordered containers, and the cut that
    `c_str()` makes at the first NUL. */
module Values {
  import opened Element

  /** `VSeq` holds the elements of a container in iteration order. */
  datatype Value =
    | VInt(n: int)
    | VDouble(r: real)
    | VText(s: string)
    | VVariant(alt: Type, held: Value)
    | VSeq(elems: seq<Value>)
    | VPair(first: Value, second: Value)

  predicate InRange(k: IntKind, n: int) {
    match k
    case Bool => 0 <= n < 2
    case Byte => 0 <= n < 0x100
    case Int16 => -0x8000 <= n < 0x8000
    case Uint16 => 0 <= n < 0x1_0000
    case Int32 => -0x8000_0000 <= n < 0x8000_0000
    case Uint32 => 0 <= n < 0x1_0000_0000
    case Int64 => -0x8000_0000_0000_0000 <= n < 0x8000_0000_0000_0000
    case Uint64 => 0 <= n < 0x1_0000_0000_0000_0000
  }

  predicate HasBasicType(t: Type, v: Value) {
    match t
    case TInt(k) => v.VInt? && InRange(k, v.n)
    case TDouble => v.VDouble?
    case TString => v.VText?
    case TPath => v.VText?
    case _ => false
  }

  ghost predicate HasType(t: Type, v: Value) {
    match t
    case TVariant => v.VVariant? && IsAlternative(v.alt) && HasBasicType(v.alt, v.held)
    case TVec(e) => v.VSeq? && forall x | x in v.elems :: HasType(e, x)
    case TAssoc(e) => v.VSeq? && (forall x | x in v.elems :: HasType(e, x)) && Sorted(v.elems)
    case TPair(k, w) => v.VPair? && HasType(k, v.first) && HasType(w, v.second)
    case _ => HasBasicType(t, v)
  }

  ghost predicate HasTypes(ts: seq<Type>, vs: seq<Value>) {
    |ts| == |vs| && forall i :: 0 <= i < |ts| ==> HasType(ts[i], vs[i])
  }

  /** Value-initialised objects: what `emplace_back()` and a fresh `std::tuple` contain. */
  function Default(t: Type): Value {
    match t
    case TInt(_) => VInt(0)
    case TDouble => VDouble(0.0)
    case TString => VText("")
    case TPath => VText("")
    case TVariant => VVariant(TString, VText(""))
    case TVec(_) => VSeq([])
    case TAssoc(_) => VSeq([])
    case TPair(k, v) => VPair(Default(k), Default(v))
  }

  function Defaults(ts: seq<Type>): seq<Value> {
    seq(|ts|, i requires 0 <= i < |ts| => Default(ts[i]))
  }

  lemma {:induction false} DefaultHasType(t: Type)
    ensures HasType(t, Default(t))
  {
    match t
    case TPair(k, v) => DefaultHasType(k); DefaultHasType(v);
    case _ =>
  }

  /** Value-initialised: numbers are zero, texts and containers empty, and so are the members of a pair. */
  lemma DefaultsAreEmpty(k: IntKind, e: Type, f: Type)
    ensures Defaults([TInt(k), TDouble]) == [VInt(0), VDouble(0.0)]
    ensures Defaults([TString, TPath, TVariant]) == [VText(""), VText(""), VVariant(TString, VText(""))]
    ensures Defaults([TVec(e), TAssoc(e), TPair(e, f)]) == [VSeq([]), VSeq([]), VPair(Default(e), Default(f))]
  {
  }

  /** Size in bits and signedness of the integer types, which determine their range. */
  function Bits(k: IntKind): (bits: nat)
    ensures bits > 0
  {
    match k
    case Bool => 1
    case Byte => 8
    case Int16 => 16 case Uint16 => 16
    case Int32 => 32 case Uint32 => 32
    case Int64 => 64 case Uint64 => 64
  }

  predicate IsSigned(k: IntKind) { k.Int16? || k.Int32? || k.Int64? }

  function Power(n: nat): int { if n == 0 then 1 else 2 * Power(n - 1) }

  lemma RangesOfTheSpecification(k: IntKind, n: int)
    ensures IsSigned(k) ==> (InRange(k, n) <==> -Power(Bits(k) - 1) <= n < Power(Bits(k) - 1))
    ensures !IsSigned(k) ==> (InRange(k, n) <==> 0 <= n < Power(Bits(k)))
  {
    assert Power(8) == 0x100 && Power(15) == 0x8000 && Power(16) == 0x1_0000;
    assert Power(31) == 0x8000_0000 && Power(32) == 0x1_0000_0000;
    assert Power(40) == 0x100_0000_0000 && Power(48) == 0x1_0000_0000_0000;
    assert Power(56) == 0x100_0000_0000_0000;
    assert Power(63) == 0x8000_0000_0000_0000 && Power(64) == 0x1_0000_0000_0000_0000;
  }

  // ---------------------------------------------------------------- key order

  function KeyOf(v: Value): Value {
    if v.VPair? then v.first else v
  }

  predicate TextLess(a: string, b: string) {
    if b == "" then false
    else if a == "" then true
    else if a[0] != b[0] then a[0] < b[0]
    else TextLess(a[1..], b[1..])
  }

  /** `operator<` on keys of one basic type. */
  predicate KeyLess(a: Value, b: Value) {
    match (a, b)
    case (VInt(m), VInt(n)) => m < n
    case (VDouble(q), VDouble(r)) => q < r
    case (VText(s), VText(u)) => TextLess(s, u)
    case _ => false
  }

  /** The first position where the texts differ. */
  ghost predicate DiffersAt(a: string, b: string, i: int) {
    0 <= i < |a| && i < |b| && a[..i] == b[..i] && a[i] != b[i]
  }

  /** Texts are ordered as in a dictionary: a proper prefix is less, else the first difference decides. */
  lemma {:induction false} DictionaryOrder(a: string, b: string)
    ensures a < b ==> TextLess(a, b)
    ensures b <= a ==> !TextLess(a, b)
    ensures forall i | DiffersAt(a, b, i) :: TextLess(a, b) <==> a[i] < b[i]
    ensures a <= b || b <= a || exists i :: DiffersAt(a, b, i)
    decreases |a|
  {
    if a != "" && b != "" && a[0] == b[0] {
      var a', b' := a[1..], b[1..];
      DictionaryOrder(a', b');
      assert a == [a[0]] + a' && b == [a[0]] + b';
      forall i | 0 < i < |a| && i < |b| ensures DiffersAt(a, b, i) <==> DiffersAt(a', b', i - 1) {
        assert a[..i] == [a[0]] + a'[..i - 1] && b[..i] == [a[0]] + b'[..i - 1];
        assert a'[..i - 1] == a[..i][1..] && b'[..i - 1] == b[..i][1..];
      }
      if i :| DiffersAt(a', b', i) { assert DiffersAt(a, b, i + 1); }
    } else if a != "" && b != "" {
      assert DiffersAt(a, b, 0);
    }
  }

  lemma NumericOrder(m: int, n: int, q: real, r: real)
    ensures KeyLess(VInt(m), VInt(n)) <==> m < n
    ensures KeyLess(VDouble(q), VDouble(r)) <==> q < r
  {
  }

  predicate Comparable(a: Value, b: Value) {
    (a.VInt? && b.VInt?) || (a.VDouble? && b.VDouble?) || (a.VText? && b.VText?)
  }

  lemma {:induction false} TextIrreflexive(a: string)
    ensures !TextLess(a, a)
  {
    if a != "" { TextIrreflexive(a[1..]); }
  }

  lemma {:induction false} TextTotal(a: string, b: string)
    ensures a == b || TextLess(a, b) || TextLess(b, a)
    ensures !(TextLess(a, b) && TextLess(b, a)) && !TextLess(a, a)
    decreases |a| + |b|
  {
    if a != "" && b != "" && a[0] == b[0] {
      TextTotal(a[1..], b[1..]);
      assert a == [a[0]] + a[1..] && b == [b[0]] + b[1..];
    }
    TextIrreflexive(a);
  }

  lemma {:induction false} TextTransitive(a: string, b: string, c: string)
    requires TextLess(a, b) && TextLess(b, c)
    ensures TextLess(a, c)
    decreases |a|
  {
    if a != "" && a[0] == b[0] && b[0] == c[0] { TextTransitive(a[1..], b[1..], c[1..]); }
  }

  lemma KeyTotal(a: Value, b: Value)
    requires Comparable(a, b)
    ensures a == b || KeyLess(a, b) || KeyLess(b, a)
    ensures !(KeyLess(a, b) && KeyLess(b, a)) && !KeyLess(a, a)
  {
    if a.VText? { TextTotal(a.s, b.s); }
  }

  lemma KeyTransitive(a: Value, b: Value, c: Value)
    requires KeyLess(a, b) && KeyLess(b, c)
    ensures KeyLess(a, c)
  {
    if a.VText? { TextTransitive(a.s, b.s, c.s); }
  }

  ghost predicate Sorted(es: seq<Value>) {
    forall i, j :: 0 <= i < j < |es| ==> KeyLess(KeyOf(es[i]), KeyOf(es[j]))
  }

  // ---------------------------------------------------------------- emplace

  /** `c.emplace(x)` on an ordered container: keeps an element with an equal key. */
  function Emplace(es: seq<Value>, x: Value): seq<Value> {
    if es == [] then [x]
    else if KeyOf(es[0]) == KeyOf(x) then es
    else if KeyLess(KeyOf(x), KeyOf(es[0])) then [x] + es
    else [es[0]] + Emplace(es[1..], x)
  }

  function EmplaceAll(es: seq<Value>, xs: seq<Value>): seq<Value>
    decreases |xs|
  {
    if xs == [] then es else EmplaceAll(Emplace(es, xs[0]), xs[1..])
  }

  ghost predicate AllComparable(es: seq<Value>, x: Value) {
    forall e | e in es :: Comparable(KeyOf(e), KeyOf(x))
  }

  lemma {:induction false} EmplaceMembers(es: seq<Value>, x: Value)
    ensures forall e :: e in es ==> e in Emplace(es, x)
    ensures forall e :: e in Emplace(es, x) ==> e in es || e == x
  {
    if es != [] {
      EmplaceMembers(es[1..], x);
      assert es == [es[0]] + es[1..];
    }
  }

  lemma {:induction false} EmplaceSorted(es: seq<Value>, x: Value)
    requires Sorted(es) && AllComparable(es, x)
    ensures Sorted(Emplace(es, x))
  {
    if es != [] {
      KeyTotal(KeyOf(es[0]), KeyOf(x));
      var rest := es[1..];
      if KeyOf(es[0]) == KeyOf(x) {
      } else if KeyLess(KeyOf(x), KeyOf(es[0])) {
        forall j | 0 < j < |es| ensures KeyLess(KeyOf(x), KeyOf(es[j])) {
          KeyTransitive(KeyOf(x), KeyOf(es[0]), KeyOf(es[j]));
        }
      } else {
        EmplaceSorted(rest, x);
        EmplaceMembers(rest, x);
        forall y | y in Emplace(rest, x) ensures KeyLess(KeyOf(es[0]), KeyOf(y)) {
          if y in rest { var j :| 0 <= j < |rest| && rest[j] == y; assert es[j + 1] == y; }
        }
      }
    }
  }

  /** An element whose key is above all others goes to the end. */
  lemma {:induction false} EmplaceLast(es: seq<Value>, x: Value)
    requires forall e | e in es :: Comparable(KeyOf(e), KeyOf(x)) && KeyLess(KeyOf(e), KeyOf(x))
    ensures Emplace(es, x) == es + [x]
  {
    if es != [] {
      KeyTotal(KeyOf(es[0]), KeyOf(x));
      EmplaceLast(es[1..], x);
      assert es == [es[0]] + es[1..];
    }
  }

  /** The element stored under key `k`, found from the left. */
  function Find(es: seq<Value>, k: Value): seq<Value> {
    if es == [] then [] else if KeyOf(es[0]) == k then [es[0]] else Find(es[1..], k)
  }

  function FirstOf(a: seq<Value>, b: seq<Value>): seq<Value> {
    if a != [] then a else b
  }

  lemma {:induction false} FindEmplace(es: seq<Value>, x: Value, k: Value)
    requires Sorted(es) && AllComparable(es, x)
    ensures Find(Emplace(es, x), k) == FirstOf(Find(es, k), Find([x], k))
  {
    if es != [] {
      KeyTotal(KeyOf(es[0]), KeyOf(x));
      if KeyOf(es[0]) == KeyOf(x) {
      } else if KeyLess(KeyOf(x), KeyOf(es[0])) {
        assert ([x] + es)[1..] == es;
        if k == KeyOf(x) { NotBelow(es, k); }
      } else {
        FindEmplace(es[1..], x, k);
        assert ([es[0]] + Emplace(es[1..], x))[1..] == Emplace(es[1..], x);
      }
    }
  }

  lemma {:induction false} NotBelow(es: seq<Value>, k: Value)
    requires Sorted(es)
    requires es != [] ==> KeyLess(k, KeyOf(es[0]))
    requires forall e | e in es :: Comparable(KeyOf(e), k)
    ensures Find(es, k) == []
  {
    if es != [] {
      KeyTotal(k, KeyOf(es[0]));
      if |es| > 1 { KeyTransitive(k, KeyOf(es[0]), KeyOf(es[1])); assert es[1..][0] == es[1]; }
      NotBelow(es[1..], k);
    }
  }

  ghost predicate MutuallyComparable(es: seq<Value>, xs: seq<Value>) {
    && (forall a, b | a in es && b in xs :: Comparable(KeyOf(a), KeyOf(b)))
    && (forall a, b | a in xs && b in xs :: Comparable(KeyOf(a), KeyOf(b)))
  }

  /** Emplacing a list keeps what was there and, for each new key, its first occurrence. */
  lemma {:induction false} FindEmplaceAll(es: seq<Value>, xs: seq<Value>, k: Value)
    requires Sorted(es) && MutuallyComparable(es, xs)
    ensures Sorted(EmplaceAll(es, xs))
    ensures Find(EmplaceAll(es, xs), k) == FirstOf(Find(es, k), Find(xs, k))
    decreases |xs|
  {
    if xs != [] {
      EmplaceSorted(es, xs[0]);
      EmplaceMembers(es, xs[0]);
      FindEmplace(es, xs[0], k);
      FindEmplaceAll(Emplace(es, xs[0]), xs[1..], k);
    }
  }

  lemma {:induction false} EmplaceAllMembers(es: seq<Value>, xs: seq<Value>)
    ensures forall e :: e in EmplaceAll(es, xs) ==> e in es || e in xs
    decreases |xs|
  {
    if xs != [] {
      EmplaceMembers(es, xs[0]);
      EmplaceAllMembers(Emplace(es, xs[0]), xs[1..]);
    }
  }

  /** Emplacing already sorted elements one by one rebuilds them. */
  lemma {:induction false} EmplaceAllSorted(es: seq<Value>, xs: seq<Value>)
    requires Sorted(es + xs) && MutuallyComparable(es, xs)
    ensures EmplaceAll(es, xs) == es + xs
    decreases |xs|
  {
    if xs == [] {
      assert es + xs == es;
    } else {
      forall e | e in es ensures KeyLess(KeyOf(e), KeyOf(xs[0])) {
        var i :| 0 <= i < |es| && es[i] == e;
        assert (es + xs)[i] == e && (es + xs)[|es|] == xs[0];
      }
      EmplaceLast(es, xs[0]);
      assert (es + [xs[0]]) + xs[1..] == es + xs;
      EmplaceAllSorted(es + [xs[0]], xs[1..]);
    }
  }

  lemma KeysComparable(e: Type, xs: seq<Value>)
    requires IsBasic(KeyType(e))
    requires forall x | x in xs :: HasType(e, x)
    ensures forall a, b | a in xs && b in xs :: Comparable(KeyOf(a), KeyOf(b))
  {
    forall a, b | a in xs && b in xs ensures Comparable(KeyOf(a), KeyOf(b)) {
      assert HasType(e, a) && HasType(e, b);
      assert HasType(KeyType(e), KeyOf(a)) && HasType(KeyType(e), KeyOf(b));
    }
  }

  // ---------------------------------------------------------------- c_str

  /** The text that survives `c_str()`. */
  function Cut(s: string): string {
    if s == "" || s[0] == '\0' then "" else [s[0]] + Cut(s[1..])
  }

  lemma {:induction false} CutAtFirstNul(s: string)
    ensures Cut(s) <= s && '\0' !in Cut(s)
    ensures |Cut(s)| < |s| ==> s[|Cut(s)|] == '\0'
    ensures Cut(s) == s <==> '\0' !in s
  {
    if s != "" && s[0] != '\0' {
      CutAtFirstNul(s[1..]);
      assert s == [s[0]] + s[1..];
    }
  }

  /** No string anywhere in the value contains a NUL. */
  ghost predicate NulFree(v: Value) {
    match v
    case VText(s) => '\0' !in s
    case VVariant(_, h) => NulFree(h)
    case VSeq(es) => forall e | e in es :: NulFree(e)
    case VPair(a, b) => NulFree(a) && NulFree(b)
    case _ => true
  }
}
