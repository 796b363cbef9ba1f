/** Properties of one interface: `DbusInterface::set_properties` and the updates it announces. */
module Properties {
  import opened Values

  type Props = map<string, Value>
  type Updates = seq<(string, Value)>

  datatype UpdateType = ValueChangeOnly | Force

  /** What a subscriber does with a list of changes. */
  function Apply(m: Props, us: Updates): Props {
    if us == [] then m else Apply(m, us[..|us| - 1])[us[|us| - 1].0 := us[|us| - 1].1]
  }

  /** The entry changes the map. */
  predicate Effective(m: Props, u: (string, Value)) { m[u.0 := u.1] != m }

  /** The positions of the entries that change the map as it is when their turn comes. */
  function EffectivePositions(m: Props, us: Updates): seq<nat> {
    if us == [] then []
    else
      var last := |us| - 1;
      var front := EffectivePositions(m, us[..last]);
      if Effective(Apply(m, us[..last]), us[last]) then front + [last] else front
  }

  function Pick(us: Updates, at: seq<nat>): Updates
    requires forall i | 0 <= i < |at| :: at[i] < |us|
  {
    seq(|at|, i requires 0 <= i < |at| => us[at[i]])
  }

  /** The positions are those, in increasing order, whose entry changes the running map: so the picked entries are
      a subsequence of the input, each a real change, and each entry left out changes nothing. */
  lemma {:induction false} PositionsExact(m: Props, us: Updates)
    ensures forall i | 0 <= i < |EffectivePositions(m, us)| :: EffectivePositions(m, us)[i] < |us|
    ensures forall i, j | 0 <= i < j < |EffectivePositions(m, us)| ::
              EffectivePositions(m, us)[i] < EffectivePositions(m, us)[j]
    ensures forall n | 0 <= n < |us| ::
              var running := Apply(m, us[..n]);
              n in EffectivePositions(m, us) <==> us[n].0 !in running || running[us[n].0] != us[n].1
  {
    if us != [] {
      var front := us[..|us| - 1];
      PositionsExact(m, front);
      forall n | 0 <= n < |us|
        ensures var running := Apply(m, us[..n]);
                n in EffectivePositions(m, us) <==> us[n].0 !in running || running[us[n].0] != us[n].1
      {
        if n < |front| {
          assert front[..n] == us[..n];
        } else {
          EffectiveExactly(Apply(m, front), us[n]);
        }
      }
    }
  }

  lemma EffectiveExactly(m: Props, u: (string, Value))
    ensures Effective(m, u) <==> u.0 !in m || m[u.0] != u.1
  {
    if u.0 in m && m[u.0] == u.1 {
      assert m[u.0 := u.1] == m;
    } else {
      assert m[u.0 := u.1][u.0] == u.1;
    }
  }

  /** Announcing only the effective entries loses nothing. */
  lemma {:induction false} EffectiveSuffice(m: Props, us: Updates)
    ensures Apply(m, Changes(m, us)) == Apply(m, us)
  {
    if us != [] {
      var last := |us| - 1;
      EffectiveSuffice(m, us[..last]);
      ChangesStep(m, us, last);
      assert us[..last + 1] == us;
      if Effective(Apply(m, us[..last]), us[last]) {
        ApplySnoc(m, Changes(m, us[..last]), us[last]);
      } else {
        assert Changes(m, us) == Changes(m, us[..last]);
      }
    } else {
      assert Changes(m, us) == [];
    }
  }

  lemma ApplySnoc(m: Props, us: Updates, u: (string, Value))
    ensures Apply(m, us + [u]) == Apply(m, us)[u.0 := u.1]
  {
    assert (us + [u])[..|us|] == us;
  }

  /** The entries that change the running map. */
  function Changes(m: Props, us: Updates): Updates {
    PositionsExact(m, us);
    Pick(us, EffectivePositions(m, us))
  }

  lemma ChangesStep(m: Props, us: Updates, n: nat)
    requires n < |us|
    ensures Apply(m, us[..n + 1]) == Apply(m, us[..n])[us[n].0 := us[n].1]
    ensures Changes(m, us[..n + 1])
         == Changes(m, us[..n]) + (if Effective(Apply(m, us[..n]), us[n]) then [us[n]] else [])
  {
    assert us[..n + 1][..n] == us[..n];
    PositionsExact(m, us[..n]);
  }

  /** `picked` are the entries of `us` at the positions `at`. */
  ghost predicate IsPicked(picked: Updates, us: Updates, at: seq<nat>) {
    |picked| == |at| && forall i | 0 <= i < |at| :: at[i] < |us| && picked[i] == us[at[i]]
  }

  /** What is announced and stored: under FORCE the whole input and nothing; else exactly the entries that change
      the running map, and all of them. */
  lemma AnnouncedExactly(m: Props, us: Updates, mode: UpdateType)
    ensures mode == Force ==> Announced(m, us, mode) == us && Stored(m, us, mode) == m
    ensures mode == ValueChangeOnly ==>
              && IsPicked(Announced(m, us, mode), us, EffectivePositions(m, us))
              && Stored(m, us, mode) == Apply(m, us)
  {
    if mode == ValueChangeOnly {
      var at := EffectivePositions(m, us);
      PositionsExact(m, us);
      assert Announced(m, us, mode) == Pick(us, at);
    }
  }

  /** The announced updates of one call. */
  function Announced(m: Props, us: Updates, mode: UpdateType): Updates {
    if mode == Force then us else Changes(m, us)
  }

  function Stored(m: Props, us: Updates, mode: UpdateType): Props {
    if mode == Force then m else Apply(m, us)
  }

  class DbusInterface {
    var interfaceName: string
    var objectName: string
    var properties: Props

    constructor (interfaceName: string)
      ensures this.interfaceName == interfaceName && objectName == "" && properties == map[]
    {
      this.interfaceName, objectName, properties := interfaceName, "", map[];
    }

    /** In VALUE_CHANGE_ONLY mode all of the input takes effect and exactly the entries that changed something are
        announced, in order; FORCE announces the input and stores nothing. */
    method SetProperties(v: Updates, mode: UpdateType) returns (updates: Updates)
      modifies this`properties
      ensures updates == Announced(old(properties), v, mode)
      ensures properties == Stored(old(properties), v, mode)
      ensures mode == Force ==> updates == v && properties == old(properties)
      ensures mode == ValueChangeOnly ==> properties == Apply(old(properties), v)
      ensures mode == ValueChangeOnly ==> IsPicked(updates, v, EffectivePositions(old(properties), v))
    {
      updates := [];
      if mode == Force {
        updates := v;
      } else {
        var i := 0;
        while i < |v|
          invariant 0 <= i <= |v|
          invariant properties == Apply(old(properties), v[..i])
          invariant updates == Changes(old(properties), v[..i])
        {
          var (key, value) := v[i];
          ChangesStep(old(properties), v, i);
          if key in properties {
            if properties[key] != value {
              properties := properties[key := value];
              updates := updates + [(key, properties[key])];
            }
          } else {
            properties := properties[key := value];
            updates := updates + [(key, value)];
          }
          i := i + 1;
        }
        assert v[..i] == v;
        AnnouncedExactly(old(properties), v, mode);
      }
    }
  }

  // ---------------------------------------------------------------- the subscriber

  /** Entry `n` is the last one for its key. */
  ghost predicate LastOfKey(us: Updates, n: int) {
    0 <= n < |us| && forall j | n < j < |us| :: us[j].0 != us[n].0
  }

  /** For every key the last value given for it is already stored under it. */
  ghost predicate AlreadyStored(m: Props, us: Updates) {
    forall n | LastOfKey(us, n) :: us[n].0 in m && m[us[n].0] == us[n].1
  }

  lemma {:induction false} LastWins(m: Props, us: Updates, n: nat)
    requires LastOfKey(us, n)
    ensures us[n].0 in Apply(m, us) && Apply(m, us)[us[n].0] == us[n].1
  {
    var last := |us| - 1;
    if n < last { LastWins(m, us[..last], n); }
  }

  lemma {:induction false} Untouched(m: Props, us: Updates, k: string)
    requires forall n | 0 <= n < |us| :: us[n].0 != k
    ensures k in Apply(m, us) <==> k in m
    ensures k in m ==> Apply(m, us)[k] == m[k]
  {
    if us != [] { Untouched(m, us[..|us| - 1], k); }
  }

  lemma {:induction false} FindLast(us: Updates, i: nat) returns (n: nat)
    requires i < |us|
    ensures LastOfKey(us, n) && us[n].0 == us[i].0
    decreases |us| - i
  {
    if j :| i < j < |us| && us[j].0 == us[i].0 { n := FindLast(us, j); } else { n := i; }
  }

  /** A list of updates changes nothing if and only if it ends, for each key, with the stored value. */
  lemma ChangesNothing(m: Props, us: Updates)
    ensures Apply(m, us) == m <==> AlreadyStored(m, us)
  {
    forall n: nat | LastOfKey(us, n)
      ensures us[n].0 in Apply(m, us) && Apply(m, us)[us[n].0] == us[n].1
    {
      LastWins(m, us, n);
    }
    if AlreadyStored(m, us) {
      forall k ensures k in Apply(m, us) <==> k in m
               ensures k in m ==> Apply(m, us)[k] == m[k]
      {
        if i :| 0 <= i < |us| && us[i].0 == k {
          var n := FindLast(us, i);
        } else {
          Untouched(m, us, k);
        }
      }
    }
  }

  /** A subscriber that applies what is announced stays equal to the stored map, except after a FORCE whose last
      value for some key is not the stored one. */
  lemma AnnouncedMatchesStored(m: Props, us: Updates, mode: UpdateType)
    ensures Apply(m, Announced(m, us, mode)) == Stored(m, us, mode) <==> mode == ValueChangeOnly || AlreadyStored(m, us)
  {
    if mode == ValueChangeOnly {
      EffectiveSuffice(m, us);
    } else {
      ChangesNothing(m, us);
    }
  }

  /** Forcing a new value, or the stored value first and another after it, announces what is never stored. */
  lemma ForceDiverges(k: string, v: Value, w: Value)
    requires v != w
    ensures Apply(map[], Announced(map[], [(k, v)], Force)) != Stored(map[], [(k, v)], Force)
    ensures var m, us := map[k := v], [(k, v), (k, w)]; Apply(m, Announced(m, us, Force)) != Stored(m, us, Force)
  {
    assert LastOfKey([(k, v)], 0);
    ChangesNothing(map[], [(k, v)]);
    assert LastOfKey([(k, v), (k, w)], 1);
    ChangesNothing(map[k := v], [(k, v), (k, w)]);
  }
}
