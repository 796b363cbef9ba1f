/** Writing a message through nested append iterators (`message::packer`).

    The iterators of one message are modelled by one object with a stack of open containers.
    Each frame remembers the signature declared by `open_container`; the iterator refuses a write
    whose signature is not the declared one, as libdbus does for values inside arrays, variants
    and dict entries. */
module Packer {
  import opened Element
  import opened Values
  import opened Items

  /** `awaits`: for an array the signature of each element, for a variant that of its one
      value (empty once written), for a dict entry what is still to be written. */
  datatype Frame = Frame(code: char, start: nat, awaits: string)

  datatype Nesting = Outermost | Inside(frame: Frame, outer: Nesting)

  predicate CanWrite(nest: Nesting, sig: string) {
    sig != "" &&
    match nest
    case Outermost => sig[0] != '{'
    case Inside(f, _) =>
      if f.code == 'a' then sig == f.awaits
      else sig[0] != '{' && (if f.code == 'e' then sig <= f.awaits else sig == f.awaits)
  }

  /** The frames after one complete value of signature `sig` was written into the innermost one. */
  function Wrote(nest: Nesting, sig: string): Nesting
    requires CanWrite(nest, sig)
  {
    match nest
    case Outermost => Outermost
    case Inside(f, outer) => Inside(if f.code == 'a' then f else f.(awaits := f.awaits[|sig|..]), outer)
  }

  /** Only values written at the outermost level extend the message's signature. */
  function Extended(nest: Nesting, signature: string, sig: string): string {
    if nest.Outermost? then signature + sig else signature
  }

  class Message {
    var tokens: seq<Token>
    var signature: string
    var nest: Nesting

    constructor ()
      ensures tokens == [] && signature == "" && nest == Outermost
    {
      tokens, signature, nest := [], "", Outermost;
    }

    method AppendBasic(leaf: Item) returns (ok: bool)
      requires IsLeaf(leaf)
      modifies this
      ensures ok == CanWrite(old(nest), [LeafCodeOf(leaf)])
      ensures ok ==> tokens == old(tokens) + [Basic(leaf)]
      ensures ok ==> nest == Wrote(old(nest), [LeafCodeOf(leaf)])
      ensures ok ==> signature == Extended(old(nest), old(signature), [LeafCodeOf(leaf)])
      ensures !ok ==> unchanged(this)
    {
      var sig := [LeafCodeOf(leaf)];
      ok := CanWrite(nest, sig);
      if ok {
        signature := Extended(nest, signature, sig);
        nest := Wrote(nest, sig);
        tokens := tokens + [Basic(leaf)];
      }
    }

    /** `open_container` for an array ('a') or a variant ('v') with the signature of its content. */
    method OpenContainer(code: char, contained: string) returns (ok: bool)
      requires (code == 'a' || code == 'v')
      modifies this
      ensures ok == CanWrite(old(nest), ContainerSig(code, contained))
      ensures ok ==> tokens == old(tokens) + [Open(code, contained, 0)]
      ensures ok ==>
                nest == Inside(Frame(code, |old(tokens)|, contained), Wrote(old(nest), ContainerSig(code, contained)))
      ensures ok ==> signature == Extended(old(nest), old(signature), ContainerSig(code, contained))
      ensures !ok ==> unchanged(this)
    {
      var sig := ContainerSig(code, contained);
      ok := CanWrite(nest, sig);
      if ok {
        signature := Extended(nest, signature, sig);
        nest := Inside(Frame(code, |tokens|, contained), Wrote(nest, sig));
        tokens := tokens + [Open(code, contained, 0)];
      }
    }

    /** `open_container(DBUS_TYPE_DICT_ENTRY, NULL, ..)`: allowed only as an array element, and
        the expected content comes from the array's declaration. */
    method OpenDictEntry() returns (ok: bool)
      modifies this
      ensures signature == old(signature)
      ensures ok == AwaitsEntry(old(nest))
      ensures ok ==> tokens == old(tokens) + [Open('e', "", 0)]
      ensures ok ==> nest == Inside(Frame('e', |old(tokens)|, EntryContent(old(nest))), old(nest))
      ensures !ok ==> unchanged(this)
    {
      ok := AwaitsEntry(nest);
      if ok {
        nest := Inside(Frame('e', |tokens|, EntryContent(nest)), nest);
        tokens := tokens + [Open('e', "", 0)];
      }
    }

    /** Closes the innermost container, writing its length back into its `Open` token. */
    method CloseContainer() returns (ok: bool)
      requires nest.Inside? && nest.frame.start < |tokens| && tokens[nest.frame.start].Open?
      modifies this
      ensures signature == old(signature)
      ensures ok == (old(nest).frame.code == 'a' || old(nest).frame.awaits == "")
      ensures ok ==> nest == old(nest).outer
      ensures ok ==> var start := old(nest).frame.start;
                     tokens == old(tokens)[start := old(tokens)[start].(len := |old(tokens)| - start - 1)]
      ensures !ok ==> unchanged(this)
    {
      var f := nest.frame;
      ok := f.code == 'a' || f.awaits == "";
      if ok {
        nest := nest.outer;
        tokens := tokens[f.start := tokens[f.start].(len := |tokens| - f.start - 1)];
      }
    }

    /** `packer::pack` of one value of type `t`: appends exactly the value's tokens, records one
        complete value of type `t` and leaves every enclosing container open as it was. */
    method Pack(t: Type, v: Value) returns (ok: bool)
      requires HasType(t, v) && Contained(t)
      requires CanWrite(nest, Signature(t))
      modifies this
      ensures ok
      ensures tokens == old(tokens) + FlattenItem(ItemOf(t, v))
      ensures nest == Wrote(old(nest), Signature(t))
      ensures signature == Extended(old(nest), old(signature), Signature(t))
      decreases t, 2
    {
      match t
      case TInt(k) => ok := AppendBasic(IInt(k, v.n));
      case TDouble => ok := AppendBasic(IDouble(v.r));
      case TString => ok := AppendBasic(IText('s', Cut(v.s)));
      case TPath => ok := AppendBasic(IText('o', Cut(v.s)));
      case TVariant => ok := PackVariant(v);
      case TVec(e) => ok := PackContainer(t, v);
      case TAssoc(e) => ok := PackContainer(t, v);
      case TPair(k, w) => ok := PackPair(k, w, v);
    }

    method PackContainer(t: Type, v: Value) returns (ok: bool)
      requires HasType(t, v) && Contained(t) && (t.TVec? || t.TAssoc?)
      requires CanWrite(nest, Signature(t))
      modifies this
      ensures ok
      ensures tokens == old(tokens) + FlattenItem(ItemOf(t, v))
      ensures nest == Wrote(old(nest), Signature(t))
      ensures signature == Extended(old(nest), old(signature), Signature(t))
      decreases t.elem, 4
    {
      var code := CodeArray(t);
      ContainerCodeSplits(t);
      EntryTypeSignature(t.elem);
      ghost var before := tokens;
      ok := OpenContainer(code[0], CString(code, 1));
      if ok {
        ok := PackElems(t.elem, v.elems, before);
        Closing(before, 'a', Signature(t.elem), ItemsOf(t.elem, v.elems));
        if ok { ok := CloseContainer(); }
      }
    }

    method PackElems(e: Type, vs: seq<Value>, ghost before: seq<Token>) returns (ok: bool)
      requires Contained(e) && forall v | v in vs :: HasType(e, v)
      requires nest.Inside? && nest.frame.code == 'a' && nest.frame.awaits == Signature(e)
      requires tokens == before + [Open('a', Signature(e), 0)]
      modifies this
      ensures ok && nest == old(nest) && signature == old(signature)
      ensures tokens == Unclosed(before, 'a', Signature(e), ItemsOf(e, vs))
      decreases e, 3
    {
      ghost var items := ItemsOf(e, vs);
      EntryTypeSignature(e);
      ok := true;
      var i := 0;
      assert Flatten(items[..0]) == [];
      while ok && i < |vs|
        invariant 0 <= i <= |vs| && ok && nest == old(nest) && signature == old(signature)
        invariant tokens == Unclosed(before, 'a', Signature(e), items[..i])
      {
        ok := Pack(e, vs[i]);
        UnclosedStep(before, 'a', Signature(e), items, i);
        i := i + 1;
      }
      assert items[..i] == items;
    }

    method PackPair(k: Type, w: Type, v: Value) returns (ok: bool)
      requires HasType(TPair(k, w), v) && Contained(TPair(k, w))
      requires CanWrite(nest, Signature(TPair(k, w)))
      modifies this
      ensures ok
      ensures tokens == old(tokens) + FlattenItem(ItemOf(TPair(k, w), v))
      ensures nest == Wrote(old(nest), Signature(TPair(k, w)))
      ensures signature == old(signature)
      decreases TPair(k, w), 1
    {
      EntrySignature(k, w);
      ghost var before := tokens;
      ok := OpenDictEntry();
      if ok {
        ok := PackMembers(k, w, v, before);
        Closing(before, 'e', "", [ItemOf(k, v.first), ItemOf(w, v.second)]);
        if ok { ok := CloseContainer(); }
      }
    }

    method PackMembers(k: Type, w: Type, v: Value, ghost before: seq<Token>) returns (ok: bool)
      requires HasType(TPair(k, w), v) && Contained(TPair(k, w))
      requires nest.Inside? && nest.frame.code == 'e' && nest.frame.awaits == Signature(k) + Signature(w)
      requires tokens == before + [Open('e', "", 0)]
      modifies this
      ensures ok && signature == old(signature)
      ensures nest == Inside(old(nest).frame.(awaits := ""), old(nest).outer)
      ensures tokens == Unclosed(before, 'e', "", [ItemOf(k, v.first), ItemOf(w, v.second)])
      decreases TPair(k, w), 0
    {
      EntryTypeSignature(k);
      EntryTypeSignature(w);
      ghost var items := [ItemOf(k, v.first), ItemOf(w, v.second)];
      UnclosedStep(before, 'e', "", items, 0);
      UnclosedStep(before, 'e', "", items, 1);
      assert items[..2] == items;
      ok := Pack(k, v.first);
      assert nest.frame.awaits == Signature(w);
      if ok { ok := Pack(w, v.second); }
      assert nest.frame.awaits == "";
    }

    /** The return codes of the three inner calls are ignored, as in the source. */
    method PackVariant(v: Value) returns (ok: bool)
      requires HasType(TVariant, v)
      requires CanWrite(nest, "v")
      modifies this
      ensures ok
      ensures tokens == old(tokens) + FlattenItem(ItemOf(TVariant, v))
      ensures nest == Wrote(old(nest), "v")
      ensures signature == Extended(old(nest), old(signature), "v")
    {
      ghost var before := tokens;
      VariantCode(v.alt);
      var opening := OpenContainer('v', CString(CodeArray(v.alt), 0));
      match v.alt {
        case TInt(k) => var packed := AppendBasic(IInt(k, v.held.n));
        case TDouble => var packed := AppendBasic(IDouble(v.held.r));
        case TString => var packed := AppendBasic(IText('s', Cut(v.held.s)));
      }
      FlattenOne(BasicItemOf(v.alt, v.held));
      Closing(before, 'v', Signature(v.alt), [BasicItemOf(v.alt, v.held)]);
      var closed := CloseContainer();
      ok := true;
    }

    /** `message::pack(args...)` and `pack_tuple_into_msg`: packing any well-typed argument list succeeds,
        the buffer gets the arguments in order, every container is closed, and the signature grows by the
        concatenated element signatures. */
    method PackArgs(ts: seq<Type>, vs: seq<Value>) returns (ok: bool)
      requires nest == Outermost && HasTypes(ts, vs)
      requires forall t | t in ts :: Single(t)
      modifies this
      ensures ok && nest == Outermost
      ensures tokens == old(tokens) + Flatten(ArgItems(ts, vs))
      ensures signature == old(signature) + RenderAll(Trees(ts))
    {
      ok := true;
      var i := 0;
      ghost var items, trees := ArgItems(ts, vs), Trees(ts);
      while ok && i < |ts|
        invariant 0 <= i <= |ts| && ok && nest == Outermost
        invariant tokens == old(tokens) + Flatten(items[..i])
        invariant signature == old(signature) + RenderAll(trees[..i])
      {
        assert Single(ts[i]) && !ts[i].TPair?;
        EntryTypeSignature(ts[i]);
        ok := Pack(ts[i], vs[i]);
        FlattenStep(old(tokens), items, i);
        RenderStep(old(signature), trees, i);
        i := i + 1;
      }
      assert items[..|ts|] == items && trees[..|ts|] == trees;
    }
  }

  function ContainerSig(code: char, contained: string): string {
    if code == 'a' then "a" + contained else "v"
  }

  predicate AwaitsEntry(nest: Nesting) {
    nest.Inside? && nest.frame.code == 'a' && |nest.frame.awaits| >= 2 && nest.frame.awaits[0] == '{'
  }

  function EntryContent(nest: Nesting): string
    requires AwaitsEntry(nest)
  {
    nest.frame.awaits[1..|nest.frame.awaits| - 1]
  }

  /** The buffer while a container is open: its length is not known yet. */
  ghost function Unclosed(before: seq<Token>, code: char, contained: string, items: seq<Item>): (r: seq<Token>)
    ensures |r| > |before| && r[|before|] == Open(code, contained, 0)
  {
    before + [Open(code, contained, 0)] + Flatten(items)
  }

  /** Writing the length back gives exactly the tokens of the finished container. */
  lemma Closing(before: seq<Token>, code: char, contained: string, items: seq<Item>)
    ensures var r := Unclosed(before, code, contained, items);
            (r[|before| := r[|before|].(len := |r| - |before| - 1)]
             == before + ([Open(code, contained, |Flatten(items)|)] + Flatten(items)))
  {
  }

  lemma UnclosedStep(before: seq<Token>, code: char, contained: string, items: seq<Item>, i: nat)
    requires i < |items|
    ensures Unclosed(before, code, contained, items[..i]) + FlattenItem(items[i])
         == Unclosed(before, code, contained, items[..i + 1])
    ensures Unclosed(before, code, contained, items[..0]) == before + [Open(code, contained, 0)]
  {
    assert items[..i + 1] == items[..i] + [items[i]] && items[..0] == [];
    FlattenAppend(items[..i], [items[i]]);
    FlattenOne(items[i]);
  }

  lemma EntryTypeSignature(t: Type)
    ensures Signature(t) != "" && (Signature(t)[0] == '{') == t.TPair?
  {
    TreeWellFormed(t);
    FirstCharacter(Tree(t));
  }

  lemma EntrySignature(k: Type, w: Type)
    ensures Signature(TPair(k, w)) == "{" + (Signature(k) + Signature(w)) + "}"
    ensures var s := Signature(TPair(k, w)); s[1..|s| - 1] == Signature(k) + Signature(w)
  {
  }

  lemma FlattenStep(before: seq<Token>, items: seq<Item>, i: nat)
    requires i < |items|
    ensures before + Flatten(items[..i]) + FlattenItem(items[i]) == before + Flatten(items[..i + 1])
  {
    assert items[..i + 1] == items[..i] + [items[i]];
    FlattenAppend(items[..i], [items[i]]);
    FlattenOne(items[i]);
  }

  lemma RenderStep(before: string, trees: seq<SigTree>, i: nat)
    requires i < |trees|
    ensures before + RenderAll(trees[..i]) + Render(trees[i]) == before + RenderAll(trees[..i + 1])
  {
    assert trees[..i + 1] == trees[..i] + [trees[i]];
    RenderAllAppend(trees[..i], trees[i]);
  }

  lemma {:induction false} RenderAllAppend(fs: seq<SigTree>, f: SigTree)
    ensures RenderAll(fs + [f]) == RenderAll(fs) + Render(f)
  {
    if fs == [] {
      assert fs + [f] == [f] && [f][1..] == [];
    } else {
      RenderAllAppend(fs[1..], f);
      assert (fs + [f])[1..] == fs[1..] + [f];
    }
  }
}
