/** `get_xml_for_path`: a directory listing computed from flat object paths. */
module Introspection {

  datatype Object = Object(name: string, interfaces: seq<string>)

  /** The parts of the document that depend on the registered objects. */
  datatype Part = Interfaces(names: seq<string>) | Node(name: string)

  const STANDARD_INTERFACES := [
    "org.freedesktop.DBus.Peer", "org.freedesktop.DBus.ObjectManager", "org.freedesktop.DBus.Introspectable"]

  /** `find("/", from)`, with the length standing for "not found". */
  function FindSlash(s: string, from: nat): (r: nat)
    requires from <= |s|
    ensures from <= r <= |s| && (r < |s| ==> s[r] == '/') && forall i :: from <= i < r ==> s[i] != '/'
    decreases |s| - from
  {
    if from == |s| || s[from] == '/' then from else FindSlash(s, from + 1)
  }

  /** What the listing of `path` shows for an object whose name properly extends `path`. */
  function Subnode(name: string, path: string): string
    requires path < name
  {
    name[|path| + 1..FindSlash(name, |path| + 1)]
  }

  function Normalized(path: string): string {
    if path == "/" then "" else path
  }

  /** The subnodes of all objects below `path`, one per object. */
  function Subnodes(objects: seq<Object>, path: string): seq<string> {
    if objects == [] then []
    else
      var o := objects[|objects| - 1];
      var front := Subnodes(objects[..|objects| - 1], path);
      if path < o.name then front + [Subnode(o.name, path)] else front
  }

  /** Interfaces of the objects at `path`, and each subnode where it first appears. */
  function Listing(objects: seq<Object>, path: string): seq<Part> {
    if objects == [] then []
    else
      var o := objects[|objects| - 1];
      var front := objects[..|objects| - 1];
      Listing(front, path) +
      if o.name == path then [Interfaces(STANDARD_INTERFACES + o.interfaces)]
      else if path < o.name && Subnode(o.name, path) !in Subnodes(front, path) then [Node(Subnode(o.name, path))]
      else []
  }

  method GetXmlForPath(objects: seq<Object>, path: string) returns (xml: seq<Part>)
    ensures xml == Listing(objects, Normalized(path))
  {
    var newpath := path;
    if newpath == "/" { newpath := ""; }
    var nodeNames := {};
    xml := [];
    var i := 0;
    while i < |objects|
      invariant 0 <= i <= |objects|
      invariant xml == Listing(objects[..i], newpath)
      invariant forall c :: c in nodeNames <==> c in Subnodes(objects[..i], newpath)
    {
      assert objects[..i + 1][..i] == objects[..i];
      var name := objects[i].name;
      if name == newpath {
        xml := xml + [Interfaces(STANDARD_INTERFACES + objects[i].interfaces)];
      } else if newpath <= name {
        var subnode := Subnode(name, newpath);
        if subnode !in nodeNames {
          nodeNames := nodeNames + {subnode};
          xml := xml + [Node(subnode)];
        }
      }
      i := i + 1;
    }
    assert objects[..i] == objects;
  }

  // ---------------------------------------------------------------- what is listed

  /** The object is shown: it is the one queried, or the first to contribute its subnode. */
  ghost predicate Shown(objects: seq<Object>, path: string, n: nat)
    requires n < |objects|
  {
    || objects[n].name == path
    || (path < objects[n].name
        && forall m | 0 <= m < n && path < objects[m].name ::
             Subnode(objects[m].name, path) != Subnode(objects[n].name, path))
  }

  /** The positions of the objects that are shown. */
  ghost function ShownAt(objects: seq<Object>, path: string): seq<nat> {
    if objects == [] then []
    else
      var last := |objects| - 1;
      ShownAt(objects[..last], path) + if Shown(objects, path, last) then [last] else []
  }

  lemma ShownInFront(objects: seq<Object>, path: string, n: nat)
    requires n < |objects| - 1
    ensures Shown(objects, path, n) <==> Shown(objects[..|objects| - 1], path, n)
  {
    var front := objects[..|objects| - 1];
    assert forall m | 0 <= m <= n :: objects[m] == front[m];
  }

  lemma {:induction false} ShownAtExact(objects: seq<Object>, path: string)
    ensures var at := ShownAt(objects, path);
            && (forall i, j | 0 <= i < j < |at| :: at[i] < at[j])
            && (forall i | 0 <= i < |at| :: at[i] < |objects|)
            && (forall n | 0 <= n < |objects| :: n in at <==> Shown(objects, path, n))
  {
    if objects != [] {
      var front := objects[..|objects| - 1];
      ShownAtExact(front, path);
      forall n | 0 <= n < |front| ensures Shown(objects, path, n) <==> Shown(front, path, n) {
        ShownInFront(objects, path, n);
      }
    }
  }

  /** The last object is shown exactly when the listing shows it. */
  lemma LastShown(objects: seq<Object>, path: string)
    requires objects != []
    ensures var o, front := objects[|objects| - 1], objects[..|objects| - 1];
            Shown(objects, path, |objects| - 1)
            <==> o.name == path || (path < o.name && Subnode(o.name, path) !in Subnodes(front, path))
  {
    var last := |objects| - 1;
    var o, front := objects[last], objects[..last];
    if path < o.name {
      var c := Subnode(o.name, path);
      SubnodesExact(front, path, c);
      if x :| x in front && path < x.name && Subnode(x.name, path) == c {
        var m :| 0 <= m < last && front[m] == x;
        assert objects[m] == x;
      } else {
        forall m | 0 <= m < last && path < objects[m].name ensures Subnode(objects[m].name, path) != c {
          assert front[m] == objects[m] && front[m] in front;
        }
      }
    }
  }

  /** A document has one part for each object that is shown, in the order of the objects: the interfaces of the object
      queried, and a node for any other. */
  lemma {:induction false} ListingExact(objects: seq<Object>, path: string)
    ensures var at, xml := ShownAt(objects, path), Listing(objects, path);
            |xml| == |at| && forall i | 0 <= i < |at| :: at[i] < |objects| && IsPartOf(xml[i], objects[at[i]], path)
  {
    if objects != [] {
      var front := objects[..|objects| - 1];
      ListingExact(front, path);
      LastShown(objects, path);
    }
  }

  ghost predicate IsPartOf(part: Part, o: Object, path: string) {
    if o.name == path then
      part == Interfaces(["org.freedesktop.DBus.Peer", "org.freedesktop.DBus.ObjectManager",
                          "org.freedesktop.DBus.Introspectable"] + o.interfaces)
    else path < o.name && part == Node(Subnode(o.name, path))
  }

  function NodeNames(xml: seq<Part>): seq<string> {
    if xml == [] then []
    else
      var front := NodeNames(xml[..|xml| - 1]);
      if xml[|xml| - 1].Node? then front + [xml[|xml| - 1].name] else front
  }

  /** The elements of a sequence where they first appear. */
  function FirstAppearances(s: seq<string>): seq<string> {
    if s == [] then []
    else
      var front := s[..|s| - 1];
      if s[|s| - 1] in front then FirstAppearances(front) else FirstAppearances(front) + [s[|s| - 1]]
  }

  lemma {:induction false} FirstAppearancesExact(s: seq<string>)
    ensures forall c :: c in FirstAppearances(s) <==> c in s
    ensures forall i, j :: 0 <= i < j < |FirstAppearances(s)| ==> FirstAppearances(s)[i] != FirstAppearances(s)[j]
  {
    if s != [] {
      FirstAppearancesExact(s[..|s| - 1]);
      assert s == s[..|s| - 1] + [s[|s| - 1]];
    }
  }

  lemma NodeNamesSnoc(xml: seq<Part>, p: Part)
    ensures NodeNames(xml + [p]) == if p.Node? then NodeNames(xml) + [p.name] else NodeNames(xml)
  {
    assert (xml + [p])[..|xml|] == xml;
  }

  lemma FirstAppearancesSnoc(s: seq<string>, c: string)
    ensures FirstAppearances(s + [c]) == if c in s then FirstAppearances(s) else FirstAppearances(s) + [c]
  {
    assert (s + [c])[..|s|] == s;
  }

  /** The listed nodes are the subnodes in first-appearance order, without duplicates. */
  lemma {:induction false} ListedInOrder(objects: seq<Object>, path: string)
    ensures NodeNames(Listing(objects, path)) == FirstAppearances(Subnodes(objects, path))
  {
    if objects != [] {
      var front, o := objects[..|objects| - 1], objects[|objects| - 1];
      ListedInOrder(front, path);
      if o.name == path {
        NodeNamesSnoc(Listing(front, path), Interfaces(STANDARD_INTERFACES + o.interfaces));
      } else if path < o.name {
        var c := Subnode(o.name, path);
        FirstAppearancesSnoc(Subnodes(front, path), c);
        if c in Subnodes(front, path) {
          assert Listing(objects, path) == Listing(front, path);
        } else {
          NodeNamesSnoc(Listing(front, path), Node(c));
        }
      } else {
        assert Listing(objects, path) == Listing(front, path);
      }
    }
  }

  lemma NoDuplicates(objects: seq<Object>, path: string)
    ensures var ns := NodeNames(Listing(objects, path)); forall i, j :: 0 <= i < j < |ns| ==> ns[i] != ns[j]
  {
    ListedInOrder(objects, path);
    FirstAppearancesExact(Subnodes(objects, path));
  }

  lemma {:induction false} SubnodesExact(objects: seq<Object>, path: string, c: string)
    ensures c in Subnodes(objects, path) <==> exists o :: o in objects && path < o.name && Subnode(o.name, path) == c
  {
    if objects != [] {
      var front, o := objects[..|objects| - 1], objects[|objects| - 1];
      SubnodesExact(front, path, c);
      assert objects == front + [o];
    }
  }

  /** `c` is a child of `path`: a registered path is `path/c` or lies below it. */
  ghost predicate ChildOf(name: string, path: string, c: string) {
    c != "" && '/' !in c && (name == path + "/" + c || path + "/" + c + "/" <= name)
  }

  ghost predicate IsChild(objects: seq<Object>, path: string, c: string) {
    exists o :: o in objects && ChildOf(o.name, path, c)
  }

  /** The name extends `path` without a slash in between. */
  ghost predicate Overruns(name: string, path: string) {
    path < name && name[|path|] != '/'
  }

  lemma ChildIsSubnode(name: string, path: string, c: string)
    requires ChildOf(name, path, c)
    ensures path < name && !Overruns(name, path) && Subnode(name, path) == c
  {
    var head := path + "/" + c;
    assert head <= name && forall i :: 0 <= i < |head| ==> name[i] == head[i];
    assert name[|path|] == '/';
    assert name[..|path|] == path;
    var from := |path| + 1;
    assert name[from..|head|] == c;
    var slash := FindSlash(name, from);
    assert forall i :: from <= i < |head| ==> name[i] == c[i - from];
    assert |head| == |name| || name[|head|] == '/';
    assert slash == |head|;
  }

  /** An object at "/", or a name with an empty component, contributes a node without a name. */
  ghost predicate Unnamed(name: string, path: string) {
    path < name && Subnode(name, path) == ""
  }

  lemma SubnodeIsChild(name: string, path: string)
    requires path < name && !Overruns(name, path) && !Unnamed(name, path)
    ensures ChildOf(name, path, Subnode(name, path))
  {
    var from := |path| + 1;
    var slash := FindSlash(name, from);
    var c := name[from..slash];
    assert name[..|path|] == path && name[|path|] == '/';
    assert name[..slash] == path + "/" + c;
    if slash < |name| {
      assert name[..slash + 1] == path + "/" + c + "/";
    } else {
      assert name == name[..slash];
    }
  }

  /** Every child is listed; the listing shows exactly the children if and only if every registered path that
      overruns the queried one contributes a name that is a child anyway, and none contributes an empty name. */
  lemma ListsChildrenExactly(objects: seq<Object>, path: string)
    ensures forall c :: IsChild(objects, path, c) ==> c in NodeNames(Listing(objects, path))
    ensures (forall c :: c in NodeNames(Listing(objects, path)) <==> IsChild(objects, path, c))
       <==> (forall o :: o in objects ==>
               && !Unnamed(o.name, path)
               && (Overruns(o.name, path) ==> IsChild(objects, path, Subnode(o.name, path))))
  {
    ListedInOrder(objects, path);
    FirstAppearancesExact(Subnodes(objects, path));
    var ns := NodeNames(Listing(objects, path));
    forall c | IsChild(objects, path, c) ensures c in ns {
      var o :| o in objects && ChildOf(o.name, path, c);
      ChildIsSubnode(o.name, path, c);
      SubnodesExact(objects, path, c);
    }
    forall o | o in objects && path < o.name
      ensures Subnode(o.name, path) in ns
      ensures IsChild(objects, path, Subnode(o.name, path)) || Overruns(o.name, path) || Unnamed(o.name, path)
    {
      SubnodesExact(objects, path, Subnode(o.name, path));
      if !Overruns(o.name, path) && !Unnamed(o.name, path) { SubnodeIsChild(o.name, path); }
    }
    forall c | c in ns ensures exists o :: o in objects && path < o.name && Subnode(o.name, path) == c {
      SubnodesExact(objects, path, c);
    }
  }

  /** Without overrunning paths and empty names the listing is the true directory. */
  lemma ListsTrueDirectory(objects: seq<Object>, path: string, c: string)
    requires forall o :: o in objects ==> !Overruns(o.name, path) && !Unnamed(o.name, path)
    ensures c in NodeNames(Listing(objects, path)) <==> IsChild(objects, path, c)
  {
    ListsChildrenExactly(objects, path);
  }

  /** An object at "/", itself a valid path, is listed below "/" as a node without a name, although nothing is below. */
  lemma RootIsListedBelowItself(interfaces: seq<string>)
    ensures var objects := [Object("/", interfaces)];
            && Listing(objects, Normalized("/")) == [Node("")]
            && forall c :: !IsChild(objects, Normalized("/"), c)
  {
    var objects := [Object("/", interfaces)];
    assert objects[..0] == [] && Subnode("/", "") == "";
    assert Listing(objects, "") == Listing([], "") + [Node("")];
    forall c ensures !IsChild(objects, "", c) {
      if IsChild(objects, "", c) { ChildIsSubnode("/", "", c); }
    }
  }

  /** The prefix test alone is not enough: the listing of "/a" shows a node although nothing lies below "/a". */
  lemma PrefixIsNotParent()
    ensures var objects := [Object("/ab/cd", [])];
            "" in NodeNames(Listing(objects, "/a")) && forall c :: !IsChild(objects, "/a", c)
  {
    var objects := [Object("/ab/cd", [])];
    assert "/a" < "/ab/cd" && "/ab/cd"[2] == 'b';
    assert Overruns("/ab/cd", "/a");
    forall c ensures !IsChild(objects, "/a", c) {
      if IsChild(objects, "/a", c) { ChildIsSubnode("/ab/cd", "/a", c); }
    }
    ListedInOrder(objects, "/a");
    FirstAppearancesExact(Subnodes(objects, "/a"));
    assert FindSlash("/ab/cd", 3) == 3;
    assert Subnode("/ab/cd", "/a") == "";
    SubnodesExact(objects, "/a", "");
    assert objects[0] in objects;
  }

  // ---------------------------------------------------------------- walking the tree

  function Join(comps: seq<string>): string {
    if comps == [] then "" else Join(comps[..|comps| - 1]) + "/" + comps[|comps| - 1]
  }

  ghost predicate ProperComponents(comps: seq<string>) {
    forall c | c in comps :: c != "" && '/' !in c
  }

  /** The path queried after `k` steps. */
  function PathAt(comps: seq<string>, k: nat): string
    requires k <= |comps|
  {
    if k == 0 then "/" else Join(comps[..k])
  }

  /** Descending into child `c`. */
  function Descend(path: string, c: string): string { Normalized(path) + "/" + c }

  lemma {:induction false} JoinPrefix(comps: seq<string>, k: nat)
    requires k < |comps| && comps[k] != "" && '/' !in comps[k]
    ensures ChildOf(Join(comps), Join(comps[..k]), comps[k])
    decreases |comps|
  {
    var last := |comps| - 1;
    if k == last {
    } else {
      JoinPrefix(comps[..last], k);
      assert comps[..last][..k] == comps[..k];
    }
  }

  lemma {:induction false} JoinIsNotRoot(comps: seq<string>)
    requires ProperComponents(comps) && comps != []
    ensures Join(comps) != "/"
  {
    assert comps[|comps| - 1] in comps;
  }

  /** Starting at "/" and following listed nodes reaches every registered well-formed path other than "/" in as many
      steps as it has components, and the last listing shows the object's interfaces. */
  lemma WalkReaches(objects: seq<Object>, o: Object, comps: seq<string>)
    requires o in objects && ProperComponents(comps) && comps != [] && o.name == Join(comps)
    ensures PathAt(comps, 0) == "/" && PathAt(comps, |comps|) == o.name
    ensures forall k | 0 <= k < |comps| ::
              && comps[k] in NodeNames(Listing(objects, Normalized(PathAt(comps, k))))
              && PathAt(comps, k + 1) == Descend(PathAt(comps, k), comps[k])
    ensures Interfaces(STANDARD_INTERFACES + o.interfaces) in Listing(objects, Normalized(o.name))
  {
    assert comps[..|comps|] == comps;
    forall k | 0 <= k < |comps|
      ensures comps[k] in NodeNames(Listing(objects, Normalized(PathAt(comps, k))))
      ensures PathAt(comps, k + 1) == Descend(PathAt(comps, k), comps[k])
    {
      WalkStep(objects, o, comps, k);
    }
    JoinIsNotRoot(comps);
    BlocksExact(objects, o.name, STANDARD_INTERFACES + o.interfaces);
  }

  lemma WalkStep(objects: seq<Object>, o: Object, comps: seq<string>, k: nat)
    requires o in objects && ProperComponents(comps) && k < |comps| && o.name == Join(comps)
    ensures comps[k] in NodeNames(Listing(objects, Normalized(PathAt(comps, k))))
    ensures PathAt(comps, k + 1) == Descend(PathAt(comps, k), comps[k])
  {
    assert comps[k] in comps;
    PathIsJoin(comps, k);
    JoinPrefix(comps, k);
    assert IsChild(objects, Join(comps[..k]), comps[k]);
    ListsChildrenExactly(objects, Join(comps[..k]));
    assert comps[..k + 1][..k] == comps[..k];
  }

  lemma PathIsJoin(comps: seq<string>, k: nat)
    requires ProperComponents(comps) && k < |comps|
    ensures Normalized(PathAt(comps, k)) == Join(comps[..k])
  {
    if k > 0 {
      assert forall c | c in comps[..k] :: c in comps;
      JoinIsNotRoot(comps[..k]);
    }
  }

  /** The interface blocks of a document: one for each object with exactly the queried name. */
  lemma {:induction false} BlocksExact(objects: seq<Object>, path: string, names: seq<string>)
    ensures Interfaces(names) in Listing(objects, path)
       <==> exists o :: o in objects && o.name == path && names == STANDARD_INTERFACES + o.interfaces
  {
    if objects != [] {
      var front, last := objects[..|objects| - 1], objects[|objects| - 1];
      BlocksExact(front, path, names);
      assert objects == front + [last];
    }
  }

  /** Object paths are not empty.  Then the object at "/" is shown in no document at all, and every other object in
      the document of its own path and in no other. */
  lemma ShownUnlessRoot(objects: seq<Object>, o: Object, path: string)
    requires o in objects && forall p | p in objects :: p.name != ""
    ensures o.name != "/" <==> Interfaces(STANDARD_INTERFACES + o.interfaces) in Listing(objects, Normalized(o.name))
    ensures (exists p :: p in objects && p.name == path && path != "/")
       <==> (exists names :: Interfaces(names) in Listing(objects, Normalized(path)))
  {
    BlocksExact(objects, Normalized(o.name), STANDARD_INTERFACES + o.interfaces);
    forall names
      ensures Interfaces(names) in Listing(objects, Normalized(path))
         <==> exists p :: p in objects && p.name == Normalized(path) && names == STANDARD_INTERFACES + p.interfaces
    {
      BlocksExact(objects, Normalized(path), names);
    }
    forall p | p in objects && p.name == path && path != "/"
      ensures Interfaces(STANDARD_INTERFACES + p.interfaces) in Listing(objects, Normalized(path)) {}
  }
}
