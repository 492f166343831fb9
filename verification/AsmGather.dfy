/** Gathering the bodies of many listings by name, and counting the differences between two gatherings. */
module AsmGather {
  import opened Protocol
  import opened Permutations
  import opened AsmMarkers
  import opened AsmFile

  /** For every name, the bodies found under it; comparing sorted lists of bodies is comparing multisets. */
  type Gathered = map<string, multiset<seq<string>>>

  function BodiesAt<K(==), V(==)>(g: map<K, multiset<V>>, k: K): multiset<V> { if k in g then g[k] else multiset{} }

  function BodyAt<K(==), V(==)>(b: map<K, V>, k: K): multiset<V> { if k in b then multiset{b[k]} else multiset{} }

  function Gather<K(==), V(==)>(g: map<K, multiset<V>>, b: map<K, V>): map<K, multiset<V>> {
    map k | k in g.Keys + b.Keys :: BodiesAt(g, k) + BodyAt(b, k)
  }

  lemma GatherAt<K, V>(g: map<K, multiset<V>>, b: map<K, V>, k: K)
    ensures k in Gather(g, b) <==> k in g || k in b
    ensures BodiesAt(Gather(g, b), k) == BodiesAt(g, k) + BodyAt(b, k)
  {
  }

  lemma SameGathered<K, V>(a: map<K, multiset<V>>, b: map<K, multiset<V>>)
    requires forall k :: k in a <==> k in b
    requires forall k :: BodiesAt(a, k) == BodiesAt(b, k)
    ensures a == b
  {
    forall k | k in a ensures a[k] == b[k] {
      assert BodiesAt(a, k) == BodiesAt(b, k);
    }
  }

  lemma BodyAtUpdated<K, V>(b: map<K, V>, name: K, body: V, k: K)
    ensures BodyAt(b[name := body], k) == if k == name then multiset{body} else BodyAt(b, k)
  {
  }

  lemma BodiesAtUpdated<K, V>(g: map<K, multiset<V>>, name: K, bodies: multiset<V>, k: K)
    ensures BodiesAt(g[name := bodies], k) == if k == name then bodies else BodiesAt(g, k)
  {
  }

  lemma GatherOneAt<K, V>(g: map<K, multiset<V>>, b: map<K, V>, name: K, body: V, k: K)
    requires name !in b
    ensures var l, r := Gather(g, b[name := body]), Gather(g, b)[name := BodiesAt(Gather(g, b), name) + multiset{body}];
            (k in l <==> k in r) && BodiesAt(l, k) == BodiesAt(r, k)
  {
    GatherAt(g, b, k);
    GatherAt(g, b[name := body], k);
    BodyAtUpdated(b, name, body, k);
    BodiesAtUpdated(Gather(g, b), name, BodiesAt(Gather(g, b), name) + multiset{body}, k);
  }

  lemma GatherOne<K, V>(g: map<K, multiset<V>>, b: map<K, V>, name: K, body: V)
    requires name !in b
    ensures Gather(g, b[name := body]) == Gather(g, b)[name := BodiesAt(Gather(g, b), name) + multiset{body}]
  {
    var l, r := Gather(g, b[name := body]), Gather(g, b)[name := BodiesAt(Gather(g, b), name) + multiset{body}];
    forall k ensures (k in l <==> k in r) && BodiesAt(l, k) == BodiesAt(r, k) {
      GatherOneAt(g, b, name, body, k);
    }
    SameGathered(l, r);
  }

  lemma OneMoreDone<K, V>(b: map<K, V>, left: set<K>, name: K)
    requires name in left && name in b
    ensures name !in b - left && (b - left)[name := b[name]] == b - (left - {name})
  {
  }

  /** One name fewer left to gather. */
  lemma GatherNext<K, V>(g: map<K, multiset<V>>, b: map<K, V>, left: set<K>, name: K)
    requires name in left && left <= b.Keys
    ensures var r := Gather(g, b - left);
            r[name := BodiesAt(r, name) + multiset{b[name]}] == Gather(g, b - (left - {name}))
  {
    OneMoreDone(b, left, name);
    GatherOne(g, b - left, name, b[name]);
  }

  method GatherBodies<K(==), V(==)>(g: map<K, multiset<V>>, b: map<K, V>) returns (r: map<K, multiset<V>>)
    ensures r == Gather(g, b)
  {
    r := g;
    var left := b.Keys;
    GatherNone(g, b - left);
    while left != {}
      invariant left <= b.Keys && r == Gather(g, b - left)
      decreases |left|
    {
      var name :| name in left;
      GatherNext(g, b, left, name);
      r := r[name := BodiesAt(r, name) + multiset{b[name]}];
      left := left - {name};
    }
    assert b - {} == b;
  }

  lemma GatherNone<K, V>(g: map<K, multiset<V>>, b: map<K, V>)
    requires b == map[]
    ensures Gather(g, b) == g
  {
    forall k ensures (k in Gather(g, b) <==> k in g) && BodiesAt(Gather(g, b), k) == BodiesAt(g, k) {
      GatherAt(g, b, k);
    }
    SameGathered(Gather(g, b), g);
  }

  type Results = seq<Result<Parsed, LabelError>>

  predicate Nonempty(p: Result<Parsed, LabelError>) { p.Ok? && (p.value.funcs != map[] || p.value.blocks != map[]) }

  predicate Attributed(p: Result<Parsed, LabelError>) { p.Ok? && !p.value.untrusted }

  function FirstError(ps: Results): Option<LabelError> {
    if ps == [] then None
    else match FirstError(ps[..|ps| - 1]) case Some(e) => Some(e)
        case None => if Last(ps).Err? then Some(Last(ps).error) else None
  }

  function CountNonempty(ps: Results): nat {
    if ps == [] then 0 else CountNonempty(ps[..|ps| - 1]) + if Nonempty(Last(ps)) then 1 else 0
  }

  function CountUnattributed(ps: Results): nat {
    if ps == [] then 0 else CountUnattributed(ps[..|ps| - 1]) + if Attributed(Last(ps)) then 0 else 1
  }

  function Side(p: Result<Parsed, LabelError>, text: bool): Bodies {
    match p case Err(_) => map[] case Ok(p) => if text then p.funcs else p.blocks
  }

  function GatherAll(ps: Results, text: bool): Gathered {
    if ps == [] then map[] else Gather(GatherAll(ps[..|ps| - 1], text), Side(Last(ps), text))
  }

  lemma {:induction false} FirstErrorStays(ps: Results, n: nat)
    requires n <= |ps| && FirstError(ps[..n]).Some?
    ensures FirstError(ps) == FirstError(ps[..n])
    decreases |ps| - n
  {
    if n < |ps| {
      assert ps[..n + 1][..n] == ps[..n];
      FirstErrorStays(ps, n + 1);
    } else {
      assert ps[..n] == ps;
    }
  }

  // ---------------------------------------------------------------- what has been gathered

  /** The bodies that the listings have for a name, among functions or among data. */
  function AllBodies(ps: Results, text: bool, name: string): multiset<seq<string>> {
    if ps == [] then multiset{} else AllBodies(ps[..|ps| - 1], text, name) + BodyAt(Side(Last(ps), text), name)
  }

  lemma {:induction false} GatheredBodies(ps: Results, text: bool, name: string)
    ensures BodiesAt(GatherAll(ps, text), name) == AllBodies(ps, text, name)
    ensures name in GatherAll(ps, text) ==> GatherAll(ps, text)[name] != multiset{}
  {
    if ps != [] {
      var front := ps[..|ps| - 1];
      GatheredBodies(front, text, name);
      GatherAt(GatherAll(front, text), Side(Last(ps), text), name);
    }
  }

  lemma {:induction false} NoErrors(ps: Results)
    ensures FirstError(ps).None? <==> forall i | 0 <= i < |ps| :: ps[i].Ok?
  {
    if ps != [] {
      NoErrors(ps[..|ps| - 1]);
      assert Last(ps) == ps[|ps| - 1];
    }
  }

  lemma {:induction false} NothingParsedExactly(ps: Results)
    ensures CountNonempty(ps) > 0 <==> exists i :: 0 <= i < |ps| && Nonempty(ps[i])
  {
    if ps != [] {
      var front := ps[..|ps| - 1];
      NothingParsedExactly(front);
      assert forall i | 0 <= i < |front| :: front[i] == ps[i];
      assert Last(ps) == ps[|ps| - 1];
    }
  }

  lemma {:induction false} AllAttributedExactly(ps: Results)
    ensures CountUnattributed(ps) == 0 <==> forall i | 0 <= i < |ps| :: Attributed(ps[i])
  {
    if ps != [] {
      var front := ps[..|ps| - 1];
      AllAttributedExactly(front);
      assert forall i | 0 <= i < |front| :: front[i] == ps[i];
      assert Last(ps) == ps[|ps| - 1];
    }
  }

  lemma {:induction false} BodiesJoin(a: Results, b: Results, text: bool, name: string)
    ensures AllBodies(a + b, text, name) == AllBodies(a, text, name) + AllBodies(b, text, name)
  {
    if b == [] {
      assert a + b == a;
    } else {
      assert (a + b)[..|a + b| - 1] == a + b[..|b| - 1];
      BodiesJoin(a, b[..|b| - 1], text, name);
    }
  }

  lemma BodiesWithout(ps: Results, i: nat, text: bool, name: string)
    requires i < |ps|
    ensures AllBodies(ps, text, name) == AllBodies(ps[..i] + ps[i + 1..], text, name) + BodyAt(Side(ps[i], text), name)
  {
    assert ps == ps[..i + 1] + ps[i + 1..] && ps[..i + 1][..i] == ps[..i];
    BodiesJoin(ps[..i + 1], ps[i + 1..], text, name);
    BodiesJoin(ps[..i], ps[i + 1..], text, name);
  }

  /** The bodies do not depend on the order of the listings. */
  lemma {:induction false} BodiesUnordered(a: Results, b: Results, text: bool, name: string)
    requires multiset(a) == multiset(b)
    ensures AllBodies(a, text, name) == AllBodies(b, text, name)
  {
    if a == [] {
      assert |multiset(b)| == 0;
    } else {
      var i := TakeOut(a, b);
      BodiesUnordered(a[1..], b[..i] + b[i + 1..], text, name);
      BodiesWithout(a, 0, text, name);
      BodiesWithout(b, i, text, name);
      assert a[..0] + a[1..] == a[1..];
    }
  }

  // ---------------------------------------------------------------- the difference

  datatype Category = DropGlue | GenericFormat | Business

  predicate Contains(s: string, part: string) {
    StartsWith(s, part) || (s != [] && Contains(s[1..], part))
  }

  function Classified(name: string): Category {
    if (Contains(name, "core..ptr") && Contains(name, "drop_in_place")) || Contains(name, "core3ptr") then DropGlue
    else if Contains(name, "fmt") || Contains(name, "box_new_uninit") || Contains(name, "core3fmt") then GenericFormat
    else Business
  }

  /** The part stands somewhere in the name. */
  predicate Occurs(name: string, part: string) {
    exists i :: 0 <= i <= |name| && StartsWith(name[i..], part)
  }

  lemma {:induction false} ContainsExactly(name: string, part: string)
    ensures Contains(name, part) <==> Occurs(name, part)
  {
    assert name[0..] == name;
    if name != [] {
      ContainsExactly(name[1..], part);
      if Occurs(name[1..], part) {
        var i :| 0 <= i <= |name| - 1 && StartsWith(name[1..][i..], part);
        assert name[1..][i..] == name[i + 1..];
      }
      if Occurs(name, part) && !StartsWith(name, part) {
        var i :| 0 <= i <= |name| && StartsWith(name[i..], part);
        assert name[1..][i - 1..] == name[i..];
      }
    }
  }

  /** The report's categories, by the parts that occur in a name. */
  lemma ClassifiedExactly(name: string)
    ensures Classified(name) == DropGlue <==>
              (Occurs(name, "core..ptr") && Occurs(name, "drop_in_place")) || Occurs(name, "core3ptr")
    ensures Classified(name) == GenericFormat <==>
              Classified(name) != DropGlue
              && (Occurs(name, "fmt") || Occurs(name, "box_new_uninit") || Occurs(name, "core3fmt"))
  {
    ContainsExactly(name, "core..ptr");
    ContainsExactly(name, "drop_in_place");
    ContainsExactly(name, "core3ptr");
    ContainsExactly(name, "fmt");
    ContainsExactly(name, "box_new_uninit");
    ContainsExactly(name, "core3fmt");
  }

  function Changed(a: Gathered, b: Gathered): set<string> {
    set name | name in a && name in b && a[name] != b[name]
  }

  function Differences(a: Gathered, b: Gathered): nat {
    |a.Keys - b.Keys| + |b.Keys - a.Keys| + |Changed(a, b)|
  }

  method GroupByCategory(changed: set<string>) returns (groups: map<Category, set<string>>)
    ensures forall kind, name :: kind in groups && name in groups[kind] ==> Classified(name) == kind && name in changed
    ensures forall name :: name in changed ==> Classified(name) in groups && name in groups[Classified(name)]
  {
    groups := map[];
    var left := changed;
    while left != {}
      invariant left <= changed
      invariant forall kind, name :: kind in groups && name in groups[kind] ==>
                  Classified(name) == kind && name in changed
      invariant forall name :: name in changed && name !in left ==>
                  Classified(name) in groups && name in groups[Classified(name)]
      decreases |left|
    {
      var name :| name in left;
      var kind := Classified(name);
      groups := groups[kind := (if kind in groups then groups[kind] else {}) + {name}];
      left := left - {name};
    }
  }

  /** The report groups the changed names by category; the total does not look at categories. */
  method DiffSets(a: Gathered, b: Gathered) returns (total: nat, groups: map<Category, set<string>>)
    ensures total == Differences(a, b)
    ensures forall kind, name :: kind in groups && name in groups[kind] ==>
              Classified(name) == kind && name in Changed(a, b)
    ensures forall name :: name in Changed(a, b) ==> Classified(name) in groups && name in groups[Classified(name)]
  {
    var onlyA, onlyB, changed := a.Keys - b.Keys, b.Keys - a.Keys, Changed(a, b);
    total := |onlyA| + |onlyB| + |changed|;
    groups := GroupByCategory(changed);
  }

  lemma NoDifferences(a: Gathered, b: Gathered)
    ensures Differences(a, b) == 0 <==> a == b
  {
    if Differences(a, b) == 0 {
      assert a.Keys - b.Keys == {} && b.Keys - a.Keys == {} && Changed(a, b) == {};
      forall name ensures name in a <==> name in b {
        assert name !in a.Keys - b.Keys && name !in b.Keys - a.Keys;
      }
      forall name | name in a ensures a[name] == b[name] {
        assert name !in Changed(a, b);
      }
    }
    if a == b {
      assert a.Keys - b.Keys == {} && b.Keys - a.Keys == {} && Changed(a, b) == {};
    }
  }

  lemma EqualGathered(a: Gathered, b: Gathered)
    requires forall name :: BodiesAt(a, name) == BodiesAt(b, name)
    requires forall name :: name in a ==> a[name] != multiset{}
    requires forall name :: name in b ==> b[name] != multiset{}
    ensures a == b
  {
    forall name ensures name in a <==> name in b {
      assert BodiesAt(a, name) == BodiesAt(b, name);
    }
    SameGathered(a, b);
  }
}
