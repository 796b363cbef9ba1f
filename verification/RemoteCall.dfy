/** Calling a lambda method over the bus: `async_method_call` on one side, the object server and
    `LambdaDbusMethod::call` on the other. */
module RemoteCall {
  import opened Element
  import opened Values
  import opened Items
  import opened Packer
  import opened Unpacker
  import opened Marshalling
  import opened RoundTrip

  datatype Option<T> = None | Some(value: T)

  datatype HandlerResult = Returned(values: seq<Value>) | Threw

  /** `Plain` is a DbusMethod that does not override `call`.  A handler that returns a `single` value
      instead of a tuple has one element in `outs`. */
  datatype Method =
    | Lambda(ins: seq<Type>, outs: seq<Type>, single: bool, handler: seq<Value> -> HandlerResult)
    | Plain

  datatype Reply =
    | MethodReturn(signature: string, body: seq<Token>)
    | ErrorReply(name: string, text: string)

  const INVALID_ARGS := "org.freedesktop.DBus.Error.InvalidArgs"
  const FAILED := "org.freedesktop.DBus.Error.Failed"
  const HANDLER_THREW := "Handler threw exception while handling request."
  const PACK_FAILED := "Handler had issue when packing response"

  /** The C++ compiler's guarantee about a handler. */
  ghost predicate TypedMethod(m: Method) {
    m.Lambda? ==>
      && (forall t | t in m.ins :: Single(t)) && (forall t | t in m.outs :: Single(t))
      && (m.single ==> |m.outs| == 1)
      && forall a :: HasTypes(m.ins, a) ==> m.handler(a).Threw? || HasTypes(m.outs, m.handler(a).values)
  }

  // ---------------------------------------------------------------- server side

  /** The result of the handler on what arrives as its arguments, if the body is accepted. */
  ghost function Handled(m: Method, items: seq<Item>): (r: HandlerResult)
    requires m.Lambda? && TypedMethod(m) && AllWellTyped(items) && AcceptsArgs(m.ins, items)
    ensures r.Returned? ==> HasTypes(m.outs, r.values)
  {
    DefaultsHaveTypes(m.ins);
    ArgsKeepTypes(m.ins, Defaults(m.ins), items);
    m.handler(ReadArgs(m.ins, Defaults(m.ins), items).values)
  }

  /** What one call of a lambda method answers. */
  ghost function Served(m: Method, items: seq<Item>): Reply
    requires m.Lambda? && TypedMethod(m) && AllWellTyped(items)
  {
    if !AcceptsArgs(m.ins, items) then ErrorReply(INVALID_ARGS, "")
    else
      match Handled(m, items)
      case Threw => ErrorReply(FAILED, HANDLER_THREW)
      case Returned(vs) => MethodReturn(RenderAll(Trees(m.outs)), Flatten(ArgItems(m.outs, vs)))
  }

  /** The content of the reply. */
  ghost function ServedItems(m: Method, items: seq<Item>): (r: seq<Item>)
    requires m.Lambda? && TypedMethod(m) && AllWellTyped(items)
    ensures AllWellTyped(r) && (Served(m, items).MethodReturn? ==> Served(m, items).body == Flatten(r))
  {
    if AcceptsArgs(m.ins, items) && Handled(m, items).Returned? then
      ArgItemsWellTyped(m.outs, Handled(m, items).values);
      ArgItems(m.outs, Handled(m, items).values)
    else []
  }

  /** `LambdaDbusMethod::call`: exactly one reply on every path. */
  method Call(m: Method, body: seq<Token>, ghost items: seq<Item>) returns (reply: Reply)
    requires m.Lambda? && TypedMethod(m) && AllWellTyped(items) && body == Flatten(items)
    ensures reply == Served(m, items)
    ensures !AcceptsArgs(m.ins, items) <==> reply == ErrorReply("org.freedesktop.DBus.Error.InvalidArgs", "")
    ensures AcceptsArgs(m.ins, items) && Handled(m, items).Threw?
       <==> reply == ErrorReply("org.freedesktop.DBus.Error.Failed", "Handler threw exception while handling request.")
    ensures AcceptsArgs(m.ins, items) && Handled(m, items).Returned? <==> reply.MethodReturn?
  {
    DefaultsHaveTypes(m.ins);
    ArgsSucceedWhenAccepted(m.ins, Defaults(m.ins), items);
    ArgsKeepTypes(m.ins, Defaults(m.ins), items);
    var unpacker := new Unpacker(body, 0, |body|);
    var unpacked, args := unpacker.UnpackArgs(m.ins, Defaults(m.ins), items);
    if !unpacked { return ErrorReply(INVALID_ARGS, ""); }
    var result := m.handler(args);
    if result.Threw? { return ErrorReply(FAILED, HANDLER_THREW); }
    var ret := new Message();
    var packed := ret.PackArgs(m.outs, result.values);
    reply := if packed then MethodReturn(ret.signature, ret.tokens) else ErrorReply(FAILED, PACK_FAILED);
  }

  /** What a lambda method answers, for every body: a body that is not accepted gets INVALID_ARGS without the handler
      running, else the handler sees the arguments as `Merge` decodes them, an exception gets FAILED, and a result is
      packed with the signature of the method's results. */
  lemma ServedExactly(m: Method, items: seq<Item>) returns (args: seq<Value>)
    requires m.Lambda? && TypedMethod(m) && AllWellTyped(items)
    ensures HasTypes(m.ins, Defaults(m.ins))
    ensures var reply := Served(m, items);
            !AcceptsArgs(m.ins, items) <==> reply == ErrorReply("org.freedesktop.DBus.Error.InvalidArgs", "")
    ensures AcceptsArgs(m.ins, items) ==>
              && |args| == |m.ins|
              && forall n | 0 <= n < |args| :: args[n] == Merge(m.ins[n], Defaults(m.ins)[n], items[n])
    ensures AcceptsArgs(m.ins, items) ==>
              match m.handler(args)
              case Threw =>
                Served(m, items)
                == ErrorReply("org.freedesktop.DBus.Error.Failed", "Handler threw exception while handling request.")
              case Returned(vs) =>
                && HasTypes(m.outs, vs)
                && Served(m, items) == MethodReturn(RenderAll(Trees(m.outs)), Flatten(ArgItems(m.outs, vs)))
  {
    DefaultsHaveTypes(m.ins);
    args := ReadArgs(m.ins, Defaults(m.ins), items).values;
    if AcceptsArgs(m.ins, items) {
      ArgsMerge(m.ins, Defaults(m.ins), items);
      assert Handled(m, items) == m.handler(args);
    }
  }

  // ---------------------------------------------------------------- dispatch to a method

  /** The registered methods of an interface, and the interfaces of an object. */
  type Interface = map<string, Method>
  datatype Object = Object(name: string, interfaces: map<string, Interface>)

  datatype Target = Target(path: string, iface: string, member: string)

  ghost predicate TypedObjects(objects: seq<Object>) {
    forall o, i, n | o in objects && i in o.interfaces && n in o.interfaces[i] :: TypedMethod(o.interfaces[i][n])
  }

  /** `n` is the first object registered under `path`. */
  ghost predicate FirstWithPath(objects: seq<Object>, path: string, n: nat) {
    n < |objects| && objects[n].name == path && forall j :: 0 <= j < n ==> objects[j].name != path
  }

  /** A call to `to` reaches the lambda method `m` of object `n`: the first object with that path has the interface,
      and the interface a lambda method of that name. */
  ghost predicate Found(objects: seq<Object>, to: Target, m: Method, n: nat) {
    && FirstWithPath(objects, to.path, n)
    && to.iface in objects[n].interfaces && to.member in objects[n].interfaces[to.iface]
    && objects[n].interfaces[to.iface][to.member] == m && m.Lambda?
  }

  ghost predicate Answers(objects: seq<Object>, to: Target, m: Method) {
    exists n: nat :: Found(objects, to, m, n)
  }

  lemma OneMethodAnswers(objects: seq<Object>, to: Target, m: Method)
    requires TypedObjects(objects) && Answers(objects, to, m)
    ensures TypedMethod(m) && forall k :: Answers(objects, to, k) ==> k == m
  {
    var n: nat :| Found(objects, to, m, n);
    assert objects[n] in objects;
    assert forall k: nat :: FirstWithPath(objects, to.path, k) ==> k == n;
  }

  /** `DbusObjectServer::on_method_call` down to `DbusInterface::call`. */
  method OnMethodCall(objects: seq<Object>, to: Target, body: seq<Token>, ghost items: seq<Item>)
    returns (replies: seq<Reply>)
    requires TypedObjects(objects) && AllWellTyped(items) && body == Flatten(items)
    ensures |replies| <= 1
    ensures |replies| == 1 <==> exists m :: Answers(objects, to, m)
    ensures forall m :: Answers(objects, to, m) ==> TypedMethod(m) && replies == [Served(m, items)]
  {
    replies := [];
    var n := Lookup(objects, to.path);
    if n < |objects| {
      assert FirstWithPath(objects, to.path, n);
      assert forall m, k: nat :: Found(objects, to, m, k) ==> FirstWithPath(objects, to.path, k) && k == n;
      var found := objects[n];
      if to.iface in found.interfaces && to.member in found.interfaces[to.iface] {
        var m := found.interfaces[to.iface][to.member];
        if m.Lambda? {
          assert TypedMethod(m) by { assert found in objects; }
          var reply := Call(m, body, items);
          replies := [reply];
          assert Found(objects, to, m, n) && Answers(objects, to, m);
        }
      }
    }
    assert forall m :: Answers(objects, to, m) ==> replies != [] && m.Lambda?;
  }

  /** The scan over `objects` with its `break`. */
  method Lookup(objects: seq<Object>, path: string) returns (n: nat)
    ensures n <= |objects|
    ensures n < |objects| ==> FirstWithPath(objects, path, n)
    ensures n == |objects| ==> forall j :: 0 <= j < |objects| ==> objects[j].name != path
  {
    n := 0;
    while n < |objects|
      invariant n <= |objects|
      invariant forall j :: 0 <= j < n ==> objects[j].name != path
    {
      if objects[n].name == path { break; }
      n := n + 1;
    }
  }

  /** `register_method`: `emplace` keeps a method that is already there. */
  function Register(methods: Interface, name: string, m: Method): Interface {
    if name in methods then methods else methods[name := m]
  }

  function RegisterAll(methods: Interface, regs: seq<(string, Method)>): Interface
    decreases |regs|
  {
    if regs == [] then methods else RegisterAll(Register(methods, regs[0].0, regs[0].1), regs[1..])
  }

  /** Over any sequence of registrations the first under a name is the one that is called. */
  lemma {:induction false} FirstRegistrationWins(methods: Interface, regs: seq<(string, Method)>, n: nat)
    requires n < |regs| && regs[n].0 !in methods
    requires forall j :: 0 <= j < n ==> regs[j].0 != regs[n].0
    ensures regs[n].0 in RegisterAll(methods, regs) && RegisterAll(methods, regs)[regs[n].0] == regs[n].1
    decreases |regs|
  {
    var next := Register(methods, regs[0].0, regs[0].1);
    if n == 0 {
      RegisteredStays(next, regs[1..], regs[0].0);
    } else {
      FirstRegistrationWins(next, regs[1..], n - 1);
    }
  }

  lemma {:induction false} RegisteredStays(methods: Interface, regs: seq<(string, Method)>, name: string)
    requires name in methods
    ensures name in RegisterAll(methods, regs) && RegisterAll(methods, regs)[name] == methods[name]
    decreases |regs|
  {
    if regs != [] { RegisteredStays(Register(methods, regs[0].0, regs[0].1), regs[1..], name); }
  }

  // ---------------------------------------------------------------- client side

  datatype ErrorCode = NoError | DbusError | InvalidArgument

  datatype Completion = Completion(ec: ErrorCode, values: seq<Value>)

  /** What the client handler gets when it takes values of types `us` and the reply has content `items`. */
  ghost function Completed(us: seq<Type>, reply: Reply, items: seq<Item>): Completion
    requires AllWellTyped(items)
  {
    DefaultsHaveTypes(us);
    if reply.ErrorReply? then Completion(DbusError, Defaults(us))
    else Completion(if AcceptsArgs(us, items) then NoError else InvalidArgument,
                    ReadArgs(us, Defaults(us), items).values)
  }

  /** The lambda given to `async_send`: the handler runs with or without an error, and with
      whatever was unpacked. */
  method Complete(us: seq<Type>, reply: Reply, ghost items: seq<Item>) returns (c: Completion)
    requires AllWellTyped(items) && (reply.MethodReturn? ==> reply.body == Flatten(items))
    ensures c == Completed(us, reply, items)
    ensures c.ec == DbusError <==> reply.ErrorReply?
    ensures c.ec == InvalidArgument <==> reply.MethodReturn? && !AcceptsArgs(us, items)
    ensures c.ec == NoError <==> reply.MethodReturn? && AcceptsArgs(us, items)
    ensures HasTypes(us, Defaults(us))
    ensures c.values == if reply.ErrorReply? then Defaults(us) else ReadArgs(us, Defaults(us), items).values
  {
    DefaultsHaveTypes(us);
    if reply.ErrorReply? { return Completion(DbusError, Defaults(us)); }
    ArgsSucceedWhenAccepted(us, Defaults(us), items);
    var unpacker := new Unpacker(reply.body, 0, |reply.body|);
    var unpacked, vs := unpacker.UnpackArgs(us, Defaults(us), items);
    c := Completion(if unpacked then NoError else InvalidArgument, vs);
  }

  /** What the client handler gets when `m` answers a call with arguments `args` of types `ts`. */
  ghost function RemoteResult(m: Method, ts: seq<Type>, args: seq<Value>, us: seq<Type>): Completion
    requires m.Lambda? && TypedMethod(m) && HasTypes(ts, args) && forall t | t in ts :: Single(t)
  {
    ArgItemsWellTyped(ts, args);
    Completed(us, Served(m, ArgItems(ts, args)), ServedItems(m, ArgItems(ts, args)))
  }

  /** The error code the client handler gets, whatever types it uses: an error reply if the server does not accept the
      arguments or its handler throws, `invalid_argument` if the results do not fit, and else no error. */
  lemma RemoteResultCode(m: Method, ts: seq<Type>, args: seq<Value>, us: seq<Type>)
    requires m.Lambda? && TypedMethod(m) && HasTypes(ts, args) && forall t | t in ts :: Single(t)
    ensures AllWellTyped(ArgItems(ts, args)) && HasTypes(us, Defaults(us))
    ensures var sent, c := ArgItems(ts, args), RemoteResult(m, ts, args, us);
            && (c.ec == DbusError <==> !AcceptsArgs(m.ins, sent) || Handled(m, sent).Threw?)
            && (c.ec == DbusError ==> c.values == Defaults(us))
            && (AcceptsArgs(m.ins, sent) && Handled(m, sent).Returned? ==>
                  var back := ArgItems(m.outs, Handled(m, sent).values);
                  && (c.ec == NoError <==> AcceptsArgs(us, back))
                  && (c.ec == InvalidArgument <==> !AcceptsArgs(us, back))
                  && c.values == ReadArgs(us, Defaults(us), back).values)
  {
    ArgItemsWellTyped(ts, args);
    DefaultsHaveTypes(us);
    var handed := ServedExactly(m, ArgItems(ts, args));
  }

  /** A client that expects an integer and gets a string is told so, and gets zero. */
  lemma MisfitIsReported(s: string)
    requires '\0' !in s
    ensures AllWellTyped([IText('s', s)])
    ensures Completed([TInt(Int32)], MethodReturn("s", Flatten([IText('s', s)])), [IText('s', s)])
         == Completion(InvalidArgument, [VInt(0)])
  {
    var us, items := [TInt(Int32)], [IText('s', s)];
    DefaultsHaveTypes(us);
    assert !Accepts(us[0], items[0]);
    ArgsStopAtMisfit(us, Defaults(us), items, 0);
    assert ReadArgs(us, Defaults(us), items).values == [VInt(0)];
  }

  /** A remote call end to end: pack and send, find the object, interface and method, serve, complete.  The types of
      arguments and results are the client's own; without a method that answers there is no reply. */
  method AsyncMethodCall(objects: seq<Object>, to: Target, ts: seq<Type>, args: seq<Value>, us: seq<Type>)
    returns (c: Option<Completion>)
    requires TypedObjects(objects) && HasTypes(ts, args) && forall t | t in ts :: Single(t)
    ensures c.Some? <==> exists m :: Answers(objects, to, m)
    ensures forall m :: Answers(objects, to, m) ==> TypedMethod(m) && c == Some(RemoteResult(m, ts, args, us))
  {
    var request := new Message();
    var packed := request.PackArgs(ts, args);
    ghost var sent := ArgItems(ts, args);
    ArgItemsWellTyped(ts, args);
    assert request.tokens == Flatten(sent);
    var replies := OnMethodCall(objects, to, request.tokens, sent);
    if |replies| == 0 { return None; }
    ghost var m :| Answers(objects, to, m);
    OneMethodAnswers(objects, to, m);
    var r := Complete(us, replies[0], ServedItems(m, sent));
    c := Some(r);
  }

  /** The server's handler sees exactly the arguments as they came through the wire. */
  lemma ServedArguments(m: Method, args: seq<Value>)
    requires m.Lambda? && TypedMethod(m) && HasTypes(m.ins, args)
    ensures AllWellTyped(ArgItems(m.ins, args)) && AcceptsArgs(m.ins, ArgItems(m.ins, args))
    ensures HasTypes(m.ins, Defaults(m.ins)) && HasTypes(m.ins, WireArgs(m.ins, args))
    ensures ReadArgs(m.ins, Defaults(m.ins), ArgItems(m.ins, args)).values == WireArgs(m.ins, args)
  {
    var sent := ArgItems(m.ins, args);
    ArgItemsWellTyped(m.ins, args);
    DefaultsHaveTypes(m.ins);
    ArgsRoundTrip(m.ins, args);
    ArgsSucceedWhenAccepted(m.ins, Defaults(m.ins), sent);
    ArgsKeepTypes(m.ins, Defaults(m.ins), sent);
  }

  /** With the method's own types a remote call is a local call after both passes through the wire. */
  lemma ServedLocally(m: Method, args: seq<Value>)
    requires m.Lambda? && TypedMethod(m) && HasTypes(m.ins, args)
    ensures HasTypes(m.ins, WireArgs(m.ins, args))
    ensures RemoteResult(m, m.ins, args, m.outs)
         == match m.handler(WireArgs(m.ins, args))
            case Threw => Completion(DbusError, Defaults(m.outs))
            case Returned(vs) => Completion(NoError, WireArgs(m.outs, vs))
  {
    ServedArguments(m, args);
    DefaultsHaveTypes(m.outs);
    var result := m.handler(WireArgs(m.ins, args));
    if result.Returned? {
      ArgItemsWellTyped(m.outs, result.values);
      ArgsRoundTrip(m.outs, result.values);
      ArgsSucceedWhenAccepted(m.outs, Defaults(m.outs), ArgItems(m.outs, result.values));
    }
  }

  /** Remote call equals local call: with NUL-free arguments and results the client gets no error and
      exactly what the handler returns, and an error exactly when the handler throws. */
  lemma RemoteEqualsLocal(m: Method, args: seq<Value>)
    requires m.Lambda? && TypedMethod(m) && HasTypes(m.ins, args)
    requires forall v | v in args :: NulFree(v)
    ensures m.handler(args).Threw? <==> RemoteResult(m, m.ins, args, m.outs).ec == DbusError
    ensures m.handler(args).Returned? && (forall v | v in m.handler(args).values :: NulFree(v))
            ==> RemoteResult(m, m.ins, args, m.outs) == Completion(NoError, m.handler(args).values)
  {
    ServedLocally(m, args);
    NulFreeArgsUnchanged(m.ins, args);
    var result := m.handler(args);
    if result.Returned? && forall v | v in result.values :: NulFree(v) {
      NulFreeArgsUnchanged(m.outs, result.values);
    }
  }

  // ---------------------------------------------------------------- introspection data

  datatype Argument = Argument(direction: string, name: string, type_: string)

  function Decimal(n: nat): string {
    if n < 10 then ["0123456789"[n]] else Decimal(n / 10) + ["0123456789"[n % 10]]
  }

  function ArgName(input: bool, n: nat, names: Option<seq<string>>): string {
    if names.Some? && n < |names.value| then names.value[n]
    else (if input then "arg_" else "out_") + Decimal(n)
  }

  /** `arg_types` over the single value of a handler that does not return a tuple. */
  function SingleArgType(input: bool, t: Type, names: Option<seq<string>>): seq<Argument> {
    [Argument(if input then "in" else "out",
              if names.Some? && |names.value| >= 1 then names.value[0] else "arg_0",
              CString(CodeArray(t), 0))]
  }

  /** The advertised "out" arguments of a method. */
  function OutTypes(m: Method, names: Option<seq<string>>): seq<Argument>
    requires m.Lambda? && (m.single ==> |m.outs| == 1)
  {
    if m.single then SingleArgType(false, m.outs[0], names) else ArgTypes(false, m.outs, names)
  }

  /** `arg_types` over a tuple. */
  function ArgTypes(input: bool, ts: seq<Type>, names: Option<seq<string>>): seq<Argument> {
    seq(|ts|, n requires 0 <= n < |ts| =>
      Argument(if input then "in" else "out", ArgName(input, n, names), CString(CodeArray(ts[n]), 0)))
  }

  /** The number that a string of digits stands for. */
  function DecimalValue(s: string): nat
    requires forall i | 0 <= i < |s| :: '0' <= s[i] <= '9'
  {
    if s == "" then 0 else DecimalValue(s[..|s| - 1]) * 10 + (s[|s| - 1] - '0') as nat
  }

  /** `to_string` writes digits that stand for the number, without leading zeros. */
  lemma {:induction false} DecimalIsExact(n: nat)
    ensures Decimal(n) != "" && forall i | 0 <= i < |Decimal(n)| :: '0' <= Decimal(n)[i] <= '9'
    ensures DecimalValue(Decimal(n)) == n
    ensures n > 0 ==> Decimal(n)[0] != '0'
  {
    if n >= 10 {
      DecimalIsExact(n / 10);
      assert Decimal(n)[..|Decimal(n)| - 1] == Decimal(n / 10);
    } else {
      assert Decimal(n)[..0] == "";
    }
  }

  /** Every argument is advertised with its direction, the signature of its type, and the given name; where none is
      given, with a name by its number.  A single result without a name is called "arg_0". */
  lemma AdvertisedArguments(input: bool, ts: seq<Type>, names: Option<seq<string>>, n: nat)
    requires n < |ts|
    ensures |ArgTypes(input, ts, names)| == |ts|
    ensures var a := ArgTypes(input, ts, names)[n];
            && a.direction == (if input then "in" else "out")
            && a.type_ == Signature(ts[n])
            && (names.Some? && n < |names.value| ==> a.name == names.value[n])
            && (names.None? || |names.value| <= n ==>
                  a.name == if input then "arg_" + Decimal(n) else "out_" + Decimal(n))
    ensures |SingleArgType(input, ts[n], names)| == 1
    ensures var a := SingleArgType(input, ts[n], names)[0];
            && a.direction == (if input then "in" else "out")
            && a.type_ == Signature(ts[n])
            && a.name == if names.None? || names.value == [] then "arg_0" else names.value[0]
  {
    VariantCode(ts[n]);
  }

  /** Results are advertised by number if the handler returns a tuple, and as "arg_0" if it returns a single value. */
  lemma AdvertisedResults(m: Method)
    requires m.Lambda? && TypedMethod(m)
    ensures m.single ==> OutTypes(m, None) == [Argument("out", "arg_0", Signature(m.outs[0]))]
    ensures !m.single ==>
              && |OutTypes(m, None)| == |m.outs|
              && forall n | 0 <= n < |m.outs| ::
                   OutTypes(m, None)[n] == Argument("out", "out_" + Decimal(n), Signature(m.outs[n]))
  {
    forall n | 0 <= n < |m.outs| ensures CString(CodeArray(m.outs[n]), 0) == Signature(m.outs[n]) {
      VariantCode(m.outs[n]);
    }
  }

  function JoinTypes(args: seq<Argument>): string {
    if args == [] then "" else args[0].type_ + JoinTypes(args[1..])
  }

  lemma {:induction false} AdvertisedSignature(input: bool, ts: seq<Type>, names: Option<seq<string>>)
    ensures JoinTypes(ArgTypes(input, ts, names)) == RenderAll(Trees(ts))
  {
    AdvertisedFrom(ArgTypes(input, ts, names), ts);
  }

  lemma {:induction false} AdvertisedFrom(args: seq<Argument>, ts: seq<Type>)
    requires |args| == |ts| && forall n :: 0 <= n < |ts| ==> args[n].type_ == CString(CodeArray(ts[n]), 0)
    ensures JoinTypes(args) == RenderAll(Trees(ts))
    decreases |ts|
  {
    if ts != [] {
      VariantCode(ts[0]);
      AdvertisedFrom(args[1..], ts[1..]);
      assert Trees(ts)[1..] == Trees(ts[1..]);
    }
  }

  /** Introspected types are the accepted types: a call whose signature is the concatenation of the advertised
      "in" types is never answered with INVALID_ARGS, and a successful reply carries the
      concatenation of the advertised "out" types. */
  lemma AdvertisedTypesAreAccepted(m: Method, inNames: Option<seq<string>>, outNames: Option<seq<string>>,
                                   items: seq<Item>)
    requires m.Lambda? && TypedMethod(m) && AllWellTyped(items)
    ensures BodySignature(items) == JoinTypes(ArgTypes(true, m.ins, inNames))
            ==> Served(m, items).MethodReturn? || Served(m, items) == ErrorReply(FAILED, HANDLER_THREW)
    ensures Served(m, items).MethodReturn? ==> Served(m, items).signature == JoinTypes(OutTypes(m, outNames))
  {
    AdvertisedSignature(true, m.ins, inNames);
    AdvertisedFrom(OutTypes(m, outNames), m.outs);
    ArgsAcceptedBySignature(m.ins, items);
  }
}
