/** Objects, their interfaces, the change signals they emit and the snapshot `GetManagedObjects` returns,
    over any run of creations, registrations and property updates. */
module ObjectManager {
  import opened Values
  import opened Properties

  /** `objectName` is empty until the interface is registered; `owner` records with which object. */
  datatype Iface = Iface(name: string, objectName: string, owner: nat, props: Props)

  /** `interfaces` holds (name, interface) in the key order of the source's flat_map. */
  datatype Obj = Obj(name: string, interfaces: seq<(string, nat)>)

  datatype Signal =
    | InterfacesAdded(object_: string, iface: string, props: Props)
    | PropertiesChanged(object_: string, iface: string, updates: Updates)

  /** `listed` are the objects given to `register_object`, in order. */
  datatype State = State(ifaces: seq<Iface>, objects: seq<Obj>, listed: seq<nat>, signals: seq<Signal>)

  datatype Action =
    | NewObject(name: string)
    | RegisterObject(object_: nat)
    | NewInterface(name: string)
    | RegisterInterface(object_: nat, iface: nat)
    | SetProperties(iface: nat, updates: Updates, mode: UpdateType)

  const PROPERTIES_IFACE := "org.freedesktop.DBus.Properties"

  /** Insertion into a flat_map under a new key. */
  function InsertByName(es: seq<(string, nat)>, name: string, id: nat): (r: seq<(string, nat)>)
    ensures forall e :: e in r <==> e in es || e == (name, id)
  {
    if es == [] then [(name, id)]
    else if TextLess(name, es[0].0) then [(name, id)] + es
    else [es[0]] + InsertByName(es[1..], name, id)
  }

  /** Runs considered: object paths are distinct and not empty, an interface is registered once and under a
      name its object does not have yet, and a FORCE update ends, for each key, with the stored value. */
  ghost predicate Legal(s: State, a: Action) {
    match a
    case NewObject(n) => n != "" && forall o | o in s.objects :: o.name != n
    case RegisterObject(o) => o < |s.objects| && o !in s.listed
    case NewInterface(_) => true
    case RegisterInterface(o, i) =>
      o < |s.objects| && i < |s.ifaces| && s.ifaces[i].objectName == ""
      && forall e | e in s.objects[o].interfaces :: e.0 != s.ifaces[i].name
    case SetProperties(i, us, mode) =>
      i < |s.ifaces| && (mode == Force ==> AlreadyStored(s.ifaces[i].props, us))
  }

  /** `register_interface`: stores the interface, tells it its object and announces its properties. */
  function Registered(s: State, o: nat, i: nat): State
    requires o < |s.objects| && i < |s.ifaces|
  {
    var obj, iface := s.objects[o], s.ifaces[i];
    s.(objects := s.objects[o := obj.(interfaces := InsertByName(obj.interfaces, iface.name, i))],
       ifaces := s.ifaces[i := iface.(objectName := obj.name, owner := o)],
       signals := s.signals + [InterfacesAdded(obj.name, iface.name, iface.props)])
  }

  /** `set_properties`; without an object path no signal can be built. */
  function Updated(s: State, i: nat, us: Updates, mode: UpdateType): State
    requires i < |s.ifaces|
  {
    var f := s.ifaces[i];
    s.(ifaces := s.ifaces[i := f.(props := Stored(f.props, us, mode))],
       signals := if f.objectName == "" then s.signals
                  else s.signals + [PropertiesChanged(f.objectName, f.name, Announced(f.props, us, mode))])
  }

  ghost function Do(s: State, a: Action): State
    requires Legal(s, a)
  {
    match a
    case NewObject(n) =>
      Registered(s.(objects := s.objects + [Obj(n, [])], ifaces := s.ifaces + [Iface(PROPERTIES_IFACE, "", 0, map[])]),
                 |s.objects|, |s.ifaces|)
    case RegisterObject(o) => s.(listed := s.listed + [o])
    case NewInterface(n) => s.(ifaces := s.ifaces + [Iface(n, "", 0, map[])])
    case RegisterInterface(o, i) => Registered(s, o, i)
    case SetProperties(i, us, mode) => Updated(s, i, us, mode)
  }

  ghost predicate LegalRun(s: State, actions: seq<Action>)
    decreases |actions|
  {
    actions == [] || (Legal(s, actions[0]) && LegalRun(Do(s, actions[0]), actions[1..]))
  }

  ghost function Execute(s: State, actions: seq<Action>): State
    requires LegalRun(s, actions)
    decreases |actions|
  {
    if actions == [] then s else Execute(Do(s, actions[0]), actions[1..])
  }

  const EMPTY := State([], [], [], [])

  // ---------------------------------------------------------------- the subscriber

  /** A replica: properties by object path and interface name. */
  type Table = map<(string, string), Props>

  function Known(t: Table, key: (string, string)): Props {
    if key in t then t[key] else map[]
  }

  function Heard(t: Table, x: Signal): Table {
    match x
    case InterfacesAdded(o, i, ps) => t[(o, i) := ps]
    case PropertiesChanged(o, i, us) => t[(o, i) := Apply(Known(t, (o, i)), us)]
  }

  function Replay(signals: seq<Signal>): Table {
    if signals == [] then map[] else Heard(Replay(signals[..|signals| - 1]), signals[|signals| - 1])
  }

  lemma ReplaySnoc(signals: seq<Signal>, x: Signal)
    ensures Replay(signals + [x]) == Heard(Replay(signals), x)
  {
    assert (signals + [x])[..|signals|] == signals;
  }

  // ---------------------------------------------------------------- what every step keeps

  ghost predicate DistinctPaths(objects: seq<Obj>) {
    && (forall o, p | 0 <= o < p < |objects| :: objects[o].name != objects[p].name)
    && (forall o | 0 <= o < |objects| :: objects[o].name != "")
  }

  /** The object's list and the interface's own record point at each other. */
  ghost predicate Linked(objects: seq<Obj>, ifaces: seq<Iface>) {
    && (forall o, e | 0 <= o < |objects| && e in objects[o].interfaces ::
          e.1 < |ifaces| && ifaces[e.1].name == e.0 && ifaces[e.1].objectName == objects[o].name)
    && (forall i | 0 <= i < |ifaces| && ifaces[i].objectName != "" ::
          var f := ifaces[i];
          f.owner < |objects| && objects[f.owner].name == f.objectName && (f.name, i) in objects[f.owner].interfaces)
  }

  ghost predicate DistinctKeys(ifaces: seq<Iface>) {
    forall i, j | 0 <= i < j < |ifaces| && ifaces[i].objectName != "" && ifaces[i].objectName == ifaces[j].objectName ::
      ifaces[i].name != ifaces[j].name
  }

  ghost predicate Consistent(s: State) {
    && DistinctPaths(s.objects) && Linked(s.objects, s.ifaces) && DistinctKeys(s.ifaces)
    && forall k | 0 <= k < |s.listed| :: s.listed[k] < |s.objects|
  }

  ghost predicate Describes(ifaces: seq<Iface>, key: (string, string), i: nat) {
    i < |ifaces| && ifaces[i].objectName != "" && key == (ifaces[i].objectName, ifaces[i].name)
  }

  /** The replica knows exactly the registered interfaces, with their current properties. */
  ghost predicate Agrees(ifaces: seq<Iface>, t: Table) {
    && (forall key | key in t :: exists i: nat :: Describes(ifaces, key, i))
    && (forall key, i: nat | Describes(ifaces, key, i) :: key in t && t[key] == ifaces[i].props)
  }

  /** Registering an interface, or changing the properties of a registered one. */
  lemma ReplacedAgrees(ifaces: seq<Iface>, i: nat, f: Iface, t: Table)
    requires Agrees(ifaces, t) && i < |ifaces| && f.objectName != ""
    requires ifaces[i].objectName == "" || (ifaces[i].objectName == f.objectName && ifaces[i].name == f.name)
    requires forall j: nat | j != i :: !Describes(ifaces, (f.objectName, f.name), j)
    ensures Agrees(ifaces[i := f], t[(f.objectName, f.name) := f.props])
  {
    var ifaces', key := ifaces[i := f], (f.objectName, f.name);
    assert Describes(ifaces', key, i);
    forall k | k in t && k != key ensures exists j: nat :: Describes(ifaces', k, j) {
      var j: nat :| Describes(ifaces, k, j);
      assert Describes(ifaces', k, j);
    }
    forall k, j: nat | Describes(ifaces', k, j) && j != i ensures Describes(ifaces, k, j) {}
  }

  /** Interfaces that are not registered are unknown to the replica. */
  lemma UnregisteredAgrees(ifaces: seq<Iface>, i: nat, f: Iface, t: Table)
    requires Agrees(ifaces, t) && i <= |ifaces| && f.objectName == ""
    requires i < |ifaces| ==> ifaces[i].objectName == ""
    ensures Agrees(ifaces[..i] + [f] + (if i < |ifaces| then ifaces[i + 1..] else []), t)
  {
    var ifaces' := ifaces[..i] + [f] + (if i < |ifaces| then ifaces[i + 1..] else []);
    forall k, j: nat ensures Describes(ifaces', k, j) <==> Describes(ifaces, k, j) {}
  }

  lemma RegisteredConsistent(s: State, o: nat, i: nat)
    requires Consistent(s) && o < |s.objects| && i < |s.ifaces| && s.ifaces[i].objectName == ""
    requires forall e | e in s.objects[o].interfaces :: e.0 != s.ifaces[i].name
    ensures Consistent(Registered(s, o, i))
  {
    var s' := Registered(s, o, i);
    assert DistinctPaths(s'.objects) by {
      assert forall p | 0 <= p < |s.objects| :: s'.objects[p].name == s.objects[p].name;
    }
    assert Linked(s'.objects, s'.ifaces) by { RegisteredLinked(s, o, i); }
    assert DistinctKeys(s'.ifaces) by { RegisteredDistinct(s, o, i); }
  }

  lemma RegisteredLinked(s: State, o: nat, i: nat)
    requires DistinctPaths(s.objects) && Linked(s.objects, s.ifaces)
    requires o < |s.objects| && i < |s.ifaces| && s.ifaces[i].objectName == ""
    ensures Linked(Registered(s, o, i).objects, Registered(s, o, i).ifaces)
  {
  }

  lemma RegisteredDistinct(s: State, o: nat, i: nat)
    requires DistinctPaths(s.objects) && Linked(s.objects, s.ifaces) && DistinctKeys(s.ifaces)
    requires o < |s.objects| && i < |s.ifaces| && s.ifaces[i].objectName == ""
    requires forall e | e in s.objects[o].interfaces :: e.0 != s.ifaces[i].name
    ensures DistinctKeys(Registered(s, o, i).ifaces)
  {
    forall j | 0 <= j < |s.ifaces| && s.ifaces[j].objectName == s.objects[o].name
      ensures s.ifaces[j].name != s.ifaces[i].name
    {
      assert s.ifaces[j].owner == o;
    }
  }

  lemma RegisteredAgrees(s: State, o: nat, i: nat)
    requires Consistent(s) && Agrees(s.ifaces, Replay(s.signals))
    requires o < |s.objects| && i < |s.ifaces| && s.ifaces[i].objectName == ""
    requires forall e | e in s.objects[o].interfaces :: e.0 != s.ifaces[i].name
    ensures Agrees(Registered(s, o, i).ifaces, Replay(Registered(s, o, i).signals))
  {
    var f := s.ifaces[i].(objectName := s.objects[o].name, owner := o);
    forall j: nat | j < |s.ifaces| && s.ifaces[j].objectName == f.objectName ensures s.ifaces[j].name != f.name {
      assert s.ifaces[j].owner == o;
    }
    ReplacedAgrees(s.ifaces, i, f, Replay(s.signals));
    ReplaySnoc(s.signals, InterfacesAdded(f.objectName, f.name, f.props));
  }

  lemma ChangeKeepsLinks(objects: seq<Obj>, ifaces: seq<Iface>, i: nat, props: Props)
    requires Linked(objects, ifaces) && DistinctKeys(ifaces) && i < |ifaces|
    ensures var ifaces' := ifaces[i := ifaces[i].(props := props)]; Linked(objects, ifaces') && DistinctKeys(ifaces')
  {
    var ifaces' := ifaces[i := ifaces[i].(props := props)];
    assert forall j | 0 <= j < |ifaces| :: ifaces'[j] == ifaces[j].(props := ifaces'[j].props);
  }

  lemma NewObjectAgrees(s: State, n: string)
    requires Consistent(s) && Agrees(s.ifaces, Replay(s.signals)) && Legal(s, NewObject(n))
    ensures var s' := Do(s, NewObject(n)); Consistent(s') && Agrees(s'.ifaces, Replay(s'.signals))
  {
    var x := WithObject(s, n);
    RegisteredConsistent(x, |s.objects|, |s.ifaces|);
    RegisteredAgrees(x, |s.objects|, |s.ifaces|);
  }

  /** The new object before its first interface is registered. */
  lemma WithObject(s: State, n: string) returns (x: State)
    requires Consistent(s) && Agrees(s.ifaces, Replay(s.signals)) && Legal(s, NewObject(n))
    ensures x == s.(objects := s.objects + [Obj(n, [])], ifaces := s.ifaces + [Iface(PROPERTIES_IFACE, "", 0, map[])])
    ensures Consistent(x) && Agrees(x.ifaces, Replay(x.signals))
  {
    var f := Iface(PROPERTIES_IFACE, "", 0, map[]);
    x := s.(objects := s.objects + [Obj(n, [])], ifaces := s.ifaces + [f]);
    UnregisteredAgrees(s.ifaces, |s.ifaces|, f, Replay(s.signals));
    assert s.ifaces[..|s.ifaces|] + [f] + [] == x.ifaces;
  }

  lemma SetPropertiesAgrees(s: State, i: nat, us: Updates, mode: UpdateType)
    requires Consistent(s) && Agrees(s.ifaces, Replay(s.signals)) && Legal(s, SetProperties(i, us, mode))
    ensures var s' := Do(s, SetProperties(i, us, mode)); Consistent(s') && Agrees(s'.ifaces, Replay(s'.signals))
  {
    var f := s.ifaces[i];
    var g := f.(props := Stored(f.props, us, mode));
    ChangeKeepsLinks(s.objects, s.ifaces, i, g.props);
    if f.objectName == "" {
      HiddenChangeAgrees(s.ifaces, i, g, Replay(s.signals));
    } else {
      ChangeAgrees(s.ifaces, i, us, mode, s.signals);
    }
  }

  lemma HiddenChangeAgrees(ifaces: seq<Iface>, i: nat, g: Iface, t: Table)
    requires Agrees(ifaces, t) && i < |ifaces| && ifaces[i].objectName == "" && g.objectName == ""
    ensures Agrees(ifaces[i := g], t)
  {
    UnregisteredAgrees(ifaces, i, g, t);
    assert ifaces[..i] + [g] + ifaces[i + 1..] == ifaces[i := g];
  }

  lemma ChangeAgrees(ifaces: seq<Iface>, i: nat, us: Updates, mode: UpdateType, signals: seq<Signal>)
    requires DistinctKeys(ifaces) && Agrees(ifaces, Replay(signals)) && i < |ifaces| && ifaces[i].objectName != ""
    requires mode == Force ==> AlreadyStored(ifaces[i].props, us)
    ensures var f := ifaces[i];
            Agrees(ifaces[i := f.(props := Stored(f.props, us, mode))],
                   Replay(signals + [PropertiesChanged(f.objectName, f.name, Announced(f.props, us, mode))]))
  {
    var f := ifaces[i];
    AnnouncedMatchesStored(f.props, us, mode);
    ReplaySnoc(signals, PropertiesChanged(f.objectName, f.name, Announced(f.props, us, mode)));
    assert Describes(ifaces, (f.objectName, f.name), i);
    ReplacedAgrees(ifaces, i, f.(props := Stored(f.props, us, mode)), Replay(signals));
  }

  /** Nothing weaker will do for FORCE: on a registered interface exactly these updates keep the replica equal. */
  lemma UpdateAgreesExactly(s: State, i: nat, us: Updates, mode: UpdateType)
    requires Consistent(s) && Agrees(s.ifaces, Replay(s.signals)) && i < |s.ifaces| && s.ifaces[i].objectName != ""
    ensures var e := Updated(s, i, us, mode);
            Agrees(e.ifaces, Replay(e.signals)) <==> mode == ValueChangeOnly || AlreadyStored(s.ifaces[i].props, us)
  {
    var f, e := s.ifaces[i], Updated(s, i, us, mode);
    if mode == ValueChangeOnly || AlreadyStored(f.props, us) {
      SetPropertiesAgrees(s, i, us, mode);
    } else {
      AnnouncedMatchesStored(f.props, us, mode);
      ReplaySnoc(s.signals, PropertiesChanged(f.objectName, f.name, Announced(f.props, us, mode)));
      assert Describes(s.ifaces, (f.objectName, f.name), i);
      assert Describes(e.ifaces, (f.objectName, f.name), i);
    }
  }

  /** One legal step keeps the replica equal to the server. */
  lemma StepAgrees(s: State, a: Action)
    requires Consistent(s) && Agrees(s.ifaces, Replay(s.signals)) && Legal(s, a)
    ensures Consistent(Do(s, a)) && Agrees(Do(s, a).ifaces, Replay(Do(s, a).signals))
  {
    match a
    case NewObject(n) => NewObjectAgrees(s, n);
    case RegisterObject(_) =>
    case NewInterface(n) =>
      var f := Iface(n, "", 0, map[]);
      UnregisteredAgrees(s.ifaces, |s.ifaces|, f, Replay(s.signals));
      assert s.ifaces[..|s.ifaces|] + [f] + [] == s.ifaces + [f];
    case RegisterInterface(o, i) =>
      RegisteredConsistent(s, o, i);
      RegisteredAgrees(s, o, i);
    case SetProperties(i, us, mode) => SetPropertiesAgrees(s, i, us, mode);
  }

  lemma {:induction false} RunAgrees(s: State, actions: seq<Action>)
    requires Consistent(s) && Agrees(s.ifaces, Replay(s.signals)) && LegalRun(s, actions)
    ensures var e := Execute(s, actions); Consistent(e) && Agrees(e.ifaces, Replay(e.signals))
    decreases |actions|
  {
    if actions != [] {
      StepAgrees(s, actions[0]);
      RunAgrees(Do(s, actions[0]), actions[1..]);
    }
  }

  // ---------------------------------------------------------------- the snapshot

  type Entry = (string, seq<(string, Props)>)

  /** The entry shows object `n`: its path and, for each of its interfaces in order, name and properties. */
  ghost predicate Shows(s: State, e: Entry, n: nat) {
    n < |s.objects| &&
    var o := s.objects[n];
    && e.0 == o.name
    && |e.1| == |o.interfaces|
    && forall j | 0 <= j < |o.interfaces| ::
         o.interfaces[j].1 < |s.ifaces| && e.1[j] == (o.interfaces[j].0, s.ifaces[o.interfaces[j].1].props)
  }

  ghost predicate IsSnapshot(s: State, dict: seq<Entry>) {
    |dict| == |s.listed| && forall k | 0 <= k < |dict| :: Shows(s, dict[k], s.listed[k])
  }

  /** `on_get_managed_objects`: the listed objects in order, each with its interfaces and their properties. */
  method OnGetManagedObjects(s: State) returns (dict: seq<Entry>)
    requires Consistent(s)
    ensures IsSnapshot(s, dict)
  {
    dict := [];
    for k := 0 to |s.listed|
      invariant |dict| == k
      invariant forall n | 0 <= n < k :: Shows(s, dict[n], s.listed[n])
    {
      var o := s.objects[s.listed[k]];
      assert forall j | 0 <= j < |o.interfaces| :: o.interfaces[j] in o.interfaces;
      var i: seq<(string, Props)> := [];
      for j := 0 to |o.interfaces|
        invariant |i| == j
        invariant forall n | 0 <= n < j :: i[n] == (o.interfaces[n].0, s.ifaces[o.interfaces[n].1].props)
      {
        var iface := s.ifaces[o.interfaces[j].1];
        i := i + [(iface.name, iface.props)];
      }
      dict := dict + [(o.name, i)];
    }
  }

  /** `dict` says that the interface `key.1` of object `key.0` has properties `ps`. */
  ghost predicate Says(dict: seq<Entry>, key: (string, string), ps: Props) {
    exists k, j :: 0 <= k < |dict| && 0 <= j < |dict[k].1| && dict[k].0 == key.0 && dict[k].1[j] == (key.1, ps)
  }

  ghost predicate AllListed(s: State) {
    forall o: nat | o < |s.objects| :: o in s.listed
  }

  /** Replica convergence: after any legal run, what GetManagedObjects says is what a subscriber knows from replaying
      all signals; once every object was handed to the server, the subscriber knows nothing else. */
  lemma ReplicaConverges(actions: seq<Action>, dict: seq<Entry>, key: (string, string), ps: Props)
    requires LegalRun(EMPTY, actions) && IsSnapshot(Execute(EMPTY, actions), dict)
    ensures var e, t := Execute(EMPTY, actions), Replay(Execute(EMPTY, actions).signals);
            && Consistent(e)
            && (Says(dict, key, ps) ==> key in t && t[key] == ps)
            && (AllListed(e) ==> (Says(dict, key, ps) <==> key in t && t[key] == ps))
  {
    var e, t := Execute(EMPTY, actions), Replay(Execute(EMPTY, actions).signals);
    RunAgrees(EMPTY, actions);
    if Says(dict, key, ps) { SaidIsKnown(e, dict, t, key, ps); }
    if AllListed(e) && key in t && t[key] == ps { KnownIsSaid(e, dict, t, key); }
  }

  lemma SaidIsKnown(e: State, dict: seq<Entry>, t: Table, key: (string, string), ps: Props)
    requires Consistent(e) && Agrees(e.ifaces, t) && Says(dict, key, ps)
    requires IsSnapshot(e, dict)
    ensures key in t && t[key] == ps
  {
    var k, j :| 0 <= k < |dict| && 0 <= j < |dict[k].1| && dict[k].0 == key.0 && dict[k].1[j] == (key.1, ps);
    assert Shows(e, dict[k], e.listed[k]);
    var o := e.objects[e.listed[k]];
    assert o.interfaces[j] in o.interfaces;
    assert Describes(e.ifaces, key, o.interfaces[j].1);
  }

  lemma KnownIsSaid(e: State, dict: seq<Entry>, t: Table, key: (string, string))
    requires Consistent(e) && Agrees(e.ifaces, t) && AllListed(e) && key in t
    requires IsSnapshot(e, dict)
    ensures Says(dict, key, t[key])
  {
    var i: nat :| Describes(e.ifaces, key, i);
    var o := e.ifaces[i].owner;
    assert o in e.listed;
    var k :| 0 <= k < |e.listed| && e.listed[k] == o;
    assert Shows(e, dict[k], o);
    var j :| 0 <= j < |e.objects[o].interfaces| && e.objects[o].interfaces[j] == (e.ifaces[i].name, i);
    assert dict[k].1[j] == (key.1, t[key]);
  }

  // ---------------------------------------------------------------- order of the snapshot

  ghost predicate Ascending(es: seq<(string, nat)>) {
    forall i, j | 0 <= i < j < |es| :: TextLess(es[i].0, es[j].0)
  }

  lemma {:induction false} InsertAscending(es: seq<(string, nat)>, name: string, id: nat)
    requires Ascending(es) && forall e | e in es :: e.0 != name
    ensures Ascending(InsertByName(es, name, id)) && |InsertByName(es, name, id)| == |es| + 1
  {
    if es != [] {
      assert es[0] in es;
      TextTotal(es[0].0, name);
      var rest := es[1..];
      if TextLess(name, es[0].0) {
        forall j | 0 < j < |es| ensures TextLess(name, es[j].0) { TextTransitive(name, es[0].0, es[j].0); }
      } else {
        InsertAscending(rest, name, id);
        forall e | e in InsertByName(rest, name, id) ensures TextLess(es[0].0, e.0) {
          if e in rest { var j :| 0 <= j < |rest| && rest[j] == e; assert es[j + 1] == e; }
        }
      }
    }
  }

  /** The interfaces of an object are in the order of their names, and no object is listed twice. */
  ghost predicate Ordered(s: State) {
    && (forall o | o in s.objects :: Ascending(o.interfaces))
    && (forall i, j | 0 <= i < j < |s.listed| :: s.listed[i] != s.listed[j])
  }

  lemma RegisteredOrdered(s: State, o: nat, i: nat)
    requires Ordered(s) && o < |s.objects| && i < |s.ifaces|
    requires forall e | e in s.objects[o].interfaces :: e.0 != s.ifaces[i].name
    ensures Ordered(Registered(s, o, i))
  {
    assert s.objects[o] in s.objects;
    InsertAscending(s.objects[o].interfaces, s.ifaces[i].name, i);
  }

  lemma {:induction false} RunOrdered(s: State, actions: seq<Action>)
    requires Ordered(s) && LegalRun(s, actions)
    ensures Ordered(Execute(s, actions))
    decreases |actions|
  {
    if actions != [] {
      match actions[0] {
        case NewObject(n) =>
          var f := Iface(PROPERTIES_IFACE, "", 0, map[]);
          var x := s.(objects := s.objects + [Obj(n, [])], ifaces := s.ifaces + [f]);
          RegisteredOrdered(x, |s.objects|, |s.ifaces|);
        case RegisterInterface(o, i) => RegisteredOrdered(s, o, i);
        case _ =>
      }
      RunOrdered(Do(s, actions[0]), actions[1..]);
    }
  }

  /** After any legal run a snapshot lists the interfaces of each object in the order of their names, and has each
      interface of each object once. */
  lemma SnapshotInOrder(actions: seq<Action>, dict: seq<Entry>)
    requires LegalRun(EMPTY, actions) && IsSnapshot(Execute(EMPTY, actions), dict)
    ensures forall k, i, j | 0 <= k < |dict| && 0 <= i < j < |dict[k].1| :: TextLess(dict[k].1[i].0, dict[k].1[j].0)
    ensures forall k, l | 0 <= k < l < |dict| :: dict[k].0 != dict[l].0
  {
    var e := Execute(EMPTY, actions);
    RunAgrees(EMPTY, actions);
    RunOrdered(EMPTY, actions);
    forall k | 0 <= k < |dict| ensures Shows(e, dict[k], e.listed[k]) && Ascending(e.objects[e.listed[k]].interfaces) {
      assert e.objects[e.listed[k]] in e.objects;
    }
  }

  /** An object comes with one interface, without properties, and says so. */
  lemma NewObjectAnnounces(s: State, n: string)
    requires Legal(s, NewObject(n))
    ensures var s' := Do(s, NewObject(n));
            && s'.objects == s.objects + [Obj(n, [("org.freedesktop.DBus.Properties", |s.ifaces|)])]
            && s'.signals == s.signals + [InterfacesAdded(n, "org.freedesktop.DBus.Properties", map[])]
  {
  }

  /** Every update of a registered interface is announced by one signal, also if nothing has changed; FORCE announces
      all of the input. */
  lemma UpdateAnnounces(s: State, i: nat, us: Updates, mode: UpdateType)
    requires i < |s.ifaces| && s.ifaces[i].objectName != ""
    ensures var f, s' := s.ifaces[i], Updated(s, i, us, mode);
            && |s'.signals| == |s.signals| + 1 && s.signals <= s'.signals
            && var x := s'.signals[|s.signals|];
               && x.PropertiesChanged? && x.object_ == f.objectName && x.iface == f.name
               && (mode == Force ==> x.updates == us)
               && (mode == ValueChangeOnly ==> IsPicked(x.updates, us, EffectivePositions(f.props, us)))
  {
    AnnouncedExactly(s.ifaces[i].props, us, mode);
  }
}
