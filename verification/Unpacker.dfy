/** Reading a message through nested read iterators (`message::unpacker`).

    `Read` is the specification over trees of items; class `Unpacker` works on the flat buffer
    with cursors, as the source does, and is proved against it. */
module Unpacker {
  import opened Element
  import opened Values
  import opened Items

  // ---------------------------------------------------------------- specification

  datatype Outcome = Outcome(ok: bool, value: Value)

  /** Unpacking one item into a target that already holds a value.  On failure the target keeps
      whatever had been stored up to that point. */
  function Read(t: Type, target: Value, item: Item): Outcome
    requires HasType(t, target)
    decreases t, 0
  {
    match t
    case TVariant => if item.IVariant? then Outcome(true, VariantContent(target, item.item)) else Outcome(false, target)
    case TVec(e) => if item.IArray? then ReadElems(e, target.elems, item.items) else Outcome(false, target)
    case TAssoc(e) => if item.IArray? then ReadKeyed(e, target.elems, item.items) else Outcome(false, target)
    case TPair(k, w) =>
      if item.IGroup? && item.code == 'e' then
        var a := ReadHead(k, target.first, item.items);
        if !a.ok then Outcome(false, VPair(a.value, target.second))
        else
          var b := ReadHead(w, target.second, item.items[1..]);
          Outcome(b.ok, VPair(a.value, b.value))
      else Outcome(false, target)
    case _ => ReadBasic(t, target, item)
  }

  function ReadHead(t: Type, target: Value, items: seq<Item>): (r: Outcome)
    requires HasType(t, target)
    ensures r.ok ==> items != []
    decreases t, 1
  {
    if items == [] then Outcome(false, target) else Read(t, target, items[0])
  }

  function ReadBasic(t: Type, target: Value, item: Item): Outcome
    requires IsBasic(t)
  {
    match t
    case TInt(k) => if item.IInt? && item.kind == k then Outcome(true, VInt(item.n)) else Outcome(false, target)
    case TDouble => if item.IDouble? then Outcome(true, VDouble(item.r)) else Outcome(false, target)
    case TString =>
      if item.IText? && item.code == 's' then Outcome(true, VText(Cut(item.s))) else Outcome(false, target)
    case TPath => if item.IText? && item.code == 'o' then Outcome(true, VText(Cut(item.s))) else Outcome(false, target)
  }

  /** A variant takes over content of one of its ten alternatives and ignores any other. */
  function VariantContent(target: Value, content: Item): Value {
    match content
    case IInt(k, n) => VVariant(TInt(k), VInt(n))
    case IDouble(r) => VVariant(TDouble, VDouble(r))
    case IText(c, s) => if c == 's' then VVariant(TString, VText(Cut(s))) else target
    case _ => target
  }

  /** `emplace_back()` then unpack into `back()`, once per remaining element. */
  function ReadElems(e: Type, acc: seq<Value>, items: seq<Item>): Outcome
    decreases e, |items| + 1
  {
    if items == [] then Outcome(true, VSeq(acc))
    else
      DefaultHasType(e);
      var x := Read(e, Default(e), items[0]);
      if x.ok then ReadElems(e, acc + [x.value], items[1..]) else Outcome(false, VSeq(acc + [x.value]))
  }

  /** Unpack into a fresh element, then `emplace` it. */
  function ReadKeyed(e: Type, acc: seq<Value>, items: seq<Item>): Outcome
    decreases e, |items| + 1
  {
    if items == [] then Outcome(true, VSeq(acc))
    else
      DefaultHasType(e);
      var x := Read(e, Default(e), items[0]);
      if x.ok then ReadKeyed(e, Emplace(acc, x.value), items[1..]) else Outcome(false, VSeq(acc))
  }

  datatype ArgsOutcome = ArgsOutcome(ok: bool, values: seq<Value>)

  /** `unpack(a, b, ...)`: arguments are read in order until one fails. */
  function ReadArgs(ts: seq<Type>, targets: seq<Value>, items: seq<Item>): (r: ArgsOutcome)
    requires HasTypes(ts, targets)
    ensures |r.values| == |ts|
    decreases |ts|
  {
    if ts == [] then ArgsOutcome(true, [])
    else
      var a := ReadHead(ts[0], targets[0], items);
      if !a.ok then ArgsOutcome(false, [a.value] + targets[1..])
      else
        assert HasTypes(ts[1..], targets[1..]);
        var rest := ReadArgs(ts[1..], targets[1..], items[1..]);
        ArgsOutcome(rest.ok, [a.value] + rest.values)
  }

  // ---------------------------------------------------------------- the cursor machine

  /** What `recurse` gives access to. */
  ghost function Content(i: Item): seq<Item> {
    match i
    case IArray(_, its) => its
    case IVariant(_, it) => [it]
    case IGroup(_, its) => its
    case _ => []
  }

  lemma AtHead(buf: seq<Token>, pos: nat, end: nat, items: seq<Item>)
    requires pos <= end <= |buf| && buf[pos..end] == Flatten(items)
    ensures items == [] <==> pos == end
    ensures items != [] ==>
              var n := |FlattenItem(items[0])|;
              && pos + n <= end
              && buf[pos..pos + n] == FlattenItem(items[0])
              && buf[pos] == FlattenItem(items[0])[0]
              && buf[pos + n..end] == Flatten(items[1..])
  {
    if items != [] {
      var n := |FlattenItem(items[0])|;
      var rest := buf[pos..end];
      assert rest == FlattenItem(items[0]) + Flatten(items[1..]);
      assert rest[..n] == FlattenItem(items[0]) && rest[n..] == Flatten(items[1..]);
      assert rest[..n] == buf[pos..pos + n] && rest[n..] == buf[pos + n..end] && rest[0] == buf[pos];
    }
  }

  lemma AtContent(buf: seq<Token>, pos: nat, i: Item)
    requires pos + |FlattenItem(i)| <= |buf| && buf[pos..pos + |FlattenItem(i)|] == FlattenItem(i)
    requires !IsLeaf(i)
    ensures buf[pos].Open? && |FlattenItem(i)| == 1 + buf[pos].len
    ensures buf[pos + 1..pos + 1 + buf[pos].len] == Flatten(Content(i))
  {
    match i { case IVariant(_, it) => FlattenOne(it); case _ => }
    var whole := buf[pos..pos + |FlattenItem(i)|];
    assert whole[0] == buf[pos] && whole[1..] == buf[pos + 1..pos + |FlattenItem(i)|];
    assert whole[1..] == Flatten(Content(i));
  }

  /** Type codes tell basic items apart. */
  lemma BasicCode(t: Type, target: Value, item: Item)
    requires IsBasic(t) && WellTyped(item)
    ensures CodeOf(item) == CodeArray(t)[0] <==> ReadBasic(t, target, item).ok
    ensures ReadBasic(t, target, item).ok ==> IsLeaf(item)
    ensures !ReadBasic(t, target, item).ok ==> ReadBasic(t, target, item).value == target
  {
  }

  /** `dbus_variant::types`, in declaration order. */
  const ALTERNATIVES: seq<Type> := [
    TString, TInt(Bool), TInt(Byte), TInt(Int16), TInt(Uint16), TInt(Int32), TInt(Uint32), TInt(Int64), TInt(Uint64),
    TDouble]

  lemma AlternativeCodes(i: nat, j: nat)
    requires i < |ALTERNATIVES| && j < |ALTERNATIVES|
    ensures IsAlternative(ALTERNATIVES[i])
    ensures CodeArray(ALTERNATIVES[i])[0] == CodeArray(ALTERNATIVES[j])[0] ==> i == j
  {
  }

  lemma MatchingAlternative(target: Value, content: Item, i: nat)
    requires WellTyped(content) && i < |ALTERNATIVES|
    requires CodeOf(content) == CodeArray(ALTERNATIVES[i])[0]
    ensures ReadBasic(ALTERNATIVES[i], Default(ALTERNATIVES[i]), content).ok
    ensures VariantContent(target, content)
         == VVariant(ALTERNATIVES[i], ReadBasic(ALTERNATIVES[i], Default(ALTERNATIVES[i]), content).value)
  {
    BasicCode(ALTERNATIVES[i], Default(ALTERNATIVES[i]), content);
  }

  lemma KindListed(k: IntKind) returns (i: nat)
    ensures i < |ALTERNATIVES| && CodeArray(ALTERNATIVES[i])[0] == IntCode(k)
  {
    i := match k
      case Bool => 1 case Byte => 2 case Int16 => 3 case Uint16 => 4
      case Int32 => 5 case Uint32 => 6 case Int64 => 7 case Uint64 => 8;
  }

  lemma NoAlternative(target: Value, content: Item)
    requires forall i :: 0 <= i < |ALTERNATIVES| ==> CodeOf(content) != CodeArray(ALTERNATIVES[i])[0]
    ensures VariantContent(target, content) == target
  {
    if content.IInt? { var i := KindListed(content.kind); }
    assert CodeArray(ALTERNATIVES[0])[0] == 's' && CodeArray(ALTERNATIVES[9])[0] == 'd';
  }

  lemma ContainerCode(i: Item)
    requires WellTyped(i)
    ensures (CodeOf(i) == 'a') == i.IArray? && (CodeOf(i) == 'v') == i.IVariant?
    ensures (CodeOf(i) == 'e') == (i.IGroup? && i.code == 'e')
    ensures AllWellTyped(Content(i)) && CodeOf(i) != '\0'
  {
  }

  /** No item has the NUL type code, so the container loops stop at the end only. */
  lemma EndOfContainer(rest: seq<Item>)
    requires AllWellTyped(rest)
    requires rest != [] ==> CodeOf(rest[0]) == '\0'
    ensures rest == []
  {
    if rest != [] { ContainerCode(rest[0]); }
  }

  class Unpacker {
    const buf: seq<Token>
    const end: nat
    var pos: nat

    constructor (buf: seq<Token>, pos: nat, end: nat)
      ensures this.buf == buf && this.pos == pos && this.end == end
    {
      this.buf, this.pos, this.end := buf, pos, end;
    }

    /** What lies between the cursor and the end of the enclosing container. */
    ghost predicate At(items: seq<Item>)
      reads this
    {
      pos <= end <= |buf| && buf[pos..end] == Flatten(items) && AllWellTyped(items)
    }

    /** `DBUS_TYPE_INVALID` (NUL) at the end of the container. */
    method GetArgType(ghost items: seq<Item>) returns (code: char)
      requires At(items)
      ensures code == if items == [] then '\0' else CodeOf(items[0])
      ensures items == [] <==> pos == end
      ensures items != [] ==> (code == 'a') == items[0].IArray? && (code == 'v') == items[0].IVariant?
      ensures items != [] ==> (code == 'e') == (items[0].IGroup? && items[0].code == 'e')
    {
      AtHead(buf, pos, end, items);
      if items != [] { ContainerCode(items[0]); }
      if pos == end { return '\0'; }
      match buf[pos]
      case Basic(leaf) => code := LeafCodeOf(leaf);
      case Open(c, _, _) => code := c;
    }

    /** The payload of the basic item under the cursor. */
    method GetBasic(ghost items: seq<Item>) returns (leaf: Item)
      requires At(items) && items != [] && IsLeaf(items[0])
      ensures leaf == items[0]
    {
      AtHead(buf, pos, end, items);
      leaf := buf[pos].leaf;
    }

    /** Moves past a whole item, wherever a sub-iterator may have stopped inside it. */
    method Next(ghost items: seq<Item>)
      requires At(items) && items != []
      modifies this`pos
      ensures At(items[1..])
    {
      AtHead(buf, pos, end, items);
      if !IsLeaf(items[0]) { AtContent(buf, pos, items[0]); }
      match buf[pos]
      case Basic(_) => pos := pos + 1;
      case Open(_, _, len) => pos := pos + 1 + len;
    }

    /** A cursor bounded by the container at the current position. */
    method Recurse(ghost items: seq<Item>) returns (sub: Unpacker)
      requires At(items) && items != [] && !IsLeaf(items[0])
      ensures fresh(sub) && sub.At(Content(items[0]))
    {
      AtHead(buf, pos, end, items);
      AtContent(buf, pos, items[0]);
      ContainerCode(items[0]);
      sub := new Unpacker(buf, pos + 1, pos + 1 + buf[pos].len);
    }

    /** `unpacker::unpack` of one value.  Succeeds exactly when `ReadHead` does, stores the same value,
        and then stands behind the item, else where it was. */
    method Unpack(t: Type, target: Value, ghost items: seq<Item>) returns (ok: bool, r: Value)
      requires At(items) && HasType(t, target)
      modifies this`pos
      ensures Outcome(ok, r) == ReadHead(t, target, items)
      ensures At(if ok then items[1..] else items)
      decreases t, 1
    {
      match t
      case TVariant => ok, r := UnpackVariant(target, items);
      case TVec(e) => ok, r := UnpackVec(e, target, items);
      case TAssoc(e) => ok, r := UnpackAssoc(e, target, items);
      case TPair(k, w) => ok, r := UnpackPair(k, w, target, items);
      case _ => ok, r := UnpackBasic(t, target, items);
    }

    method UnpackBasic(t: Type, target: Value, ghost items: seq<Item>) returns (ok: bool, r: Value)
      requires At(items) && IsBasic(t)
      modifies this`pos
      ensures Outcome(ok, r) == if items == [] then Outcome(false, target) else ReadBasic(t, target, items[0])
      ensures At(if ok then items[1..] else items)
    {
      if items != [] { BasicCode(t, target, items[0]); }
      var code := GetArgType(items);
      if code != CodeArray(t)[0] { return false, target; }
      var leaf := GetBasic(items);
      r := ReadBasic(t, target, leaf).value;
      Next(items);
      ok := true;
    }

    /** One pass over all alternatives, as `boost::mpl::for_each` makes. */
    method UnpackVariant(target: Value, ghost items: seq<Item>) returns (ok: bool, r: Value)
      requires At(items)
      modifies this`pos
      ensures Outcome(ok, r) ==
              if items != [] && items[0].IVariant? then Outcome(true, VariantContent(target, items[0].item))
              else Outcome(false, target)
      ensures At(if ok then items[1..] else items)
    {
      var code := GetArgType(items);
      if code != 'v' { return false, target; }
      ghost var content := items[0].item;
      var sub := Recurse(items);
      var argType := sub.GetArgType([content]);
      r := target;
      ghost var filled := false;
      for i := 0 to |ALTERNATIVES|
        modifies sub
        invariant !filled ==> r == target && sub.At([content])
        invariant !filled ==> forall j :: 0 <= j < i ==> argType != CodeArray(ALTERNATIVES[j])[0]
        invariant filled ==> r == VariantContent(target, content)
        invariant filled ==> exists j :: 0 <= j < i && argType == CodeArray(ALTERNATIVES[j])[0]
      {
        if argType == CodeArray(ALTERNATIVES[i])[0] {
          forall j | 0 <= j < i ensures argType != CodeArray(ALTERNATIVES[j])[0] { AlternativeCodes(j, i); }
          MatchingAlternative(target, content, i);
          var _, val := sub.UnpackBasic(ALTERNATIVES[i], Default(ALTERNATIVES[i]), [content]);
          r := VVariant(ALTERNATIVES[i], val);
          filled := true;
        }
      }
      if !filled { NoAlternative(target, content); }
      Next(items);
      ok := true;
    }

    /** Containers with `emplace_back`: append to what is there, without clearing. */
    method UnpackVec(e: Type, target: Value, ghost items: seq<Item>) returns (ok: bool, r: Value)
      requires At(items) && HasType(TVec(e), target)
      modifies this`pos
      ensures Outcome(ok, r) == ReadHead(TVec(e), target, items)
      ensures At(if ok then items[1..] else items)
      decreases e, 2
    {
      DefaultHasType(e);
      var code := GetArgType(items);
      if code != CodeArray(TVec(e))[0] { return false, target; }
      var c := target.elems;
      var sub := Recurse(items);
      ghost var rest := items[0].items;
      var argType := sub.GetArgType(rest);
      while argType != '\0'
        modifies sub
        invariant fresh(sub) && sub.At(rest)
        invariant argType == if rest == [] then '\0' else CodeOf(rest[0])
        invariant ReadElems(e, c, rest) == ReadElems(e, target.elems, items[0].items)
        decreases |rest|
      {
        var stored, x := sub.Unpack(e, Default(e), rest);
        c := c + [x];
        if !stored { return false, VSeq(c); }
        rest := rest[1..];
        argType := sub.GetArgType(rest);
      }
      EndOfContainer(rest);
      Next(items);
      return true, VSeq(c);
    }

    /** Containers with `emplace`: keys already present keep their element. */
    method UnpackAssoc(e: Type, target: Value, ghost items: seq<Item>) returns (ok: bool, r: Value)
      requires At(items) && HasType(TAssoc(e), target)
      modifies this`pos
      ensures Outcome(ok, r) == ReadHead(TAssoc(e), target, items)
      ensures At(if ok then items[1..] else items)
      decreases e, 2
    {
      DefaultHasType(e);
      var code := GetArgType(items);
      if code != CodeArray(TAssoc(e))[0] { return false, target; }
      var c := target.elems;
      var sub := Recurse(items);
      ghost var rest := items[0].items;
      var argType := sub.GetArgType(rest);
      while argType != '\0'
        modifies sub
        invariant fresh(sub) && sub.At(rest)
        invariant argType == if rest == [] then '\0' else CodeOf(rest[0])
        invariant ReadKeyed(e, c, rest) == ReadKeyed(e, target.elems, items[0].items)
        decreases |rest|
      {
        var stored, x := sub.Unpack(e, Default(e), rest);
        if !stored { return false, VSeq(c); }
        c := Emplace(c, x);
        rest := rest[1..];
        argType := sub.GetArgType(rest);
      }
      EndOfContainer(rest);
      Next(items);
      return true, VSeq(c);
    }

    method UnpackPair(k: Type, w: Type, target: Value, ghost items: seq<Item>) returns (ok: bool, r: Value)
      requires At(items) && HasType(TPair(k, w), target)
      modifies this`pos
      ensures Outcome(ok, r) == ReadHead(TPair(k, w), target, items)
      ensures At(if ok then items[1..] else items)
      decreases TPair(k, w), 0
    {
      var code := GetArgType(items);
      if code != 'e' { return false, target; }
      var sub := Recurse(items);
      var first, a := sub.Unpack(k, target.first, items[0].items);
      if !first { return false, VPair(a, target.second); }
      var second, b := sub.Unpack(w, target.second, items[0].items[1..]);
      r := VPair(a, b);
      if !second { return false, r; }
      Next(items);
      ok := true;
    }

    /** `unpack(args...)`: reads the arguments in order and stops at the first that does not fit.
        Trailing items are left unread. */
    method UnpackArgs(ts: seq<Type>, targets: seq<Value>, ghost items: seq<Item>) returns (ok: bool, vs: seq<Value>)
      requires At(items) && HasTypes(ts, targets)
      modifies this`pos
      ensures ArgsOutcome(ok, vs) == ReadArgs(ts, targets, items)
      ensures ok ==> |ts| <= |items| && At(items[|ts|..])
      decreases |ts|
    {
      if ts == [] { return true, []; }
      var stored, v := Unpack(ts[0], targets[0], items);
      if !stored { return false, [v] + targets[1..]; }
      assert HasTypes(ts[1..], targets[1..]);
      ok, vs := UnpackArgs(ts[1..], targets[1..], items[1..]);
      vs := [v] + vs;
      if ok { assert items[1..][|ts| - 1..] == items[|ts|..]; }
    }
  }
}
