/** Grouped counts: what GROUP BY, ORDER BY and LIMIT make of the labels of a set of rows. */
module Series {
  import opened Labels
  import Sets

  datatype Point<K> = Point(key: K, count: nat)

  function Group<T, K(==)>(keys: map<T, K>, key: K): set<T> {
    set r | r in keys && keys[r] == key
  }

  /** The points are the groups of the rows, each with its count, and each once. */
  ghost predicate CountsGroups<T, K>(points: seq<Point<K>>, keys: map<T, K>) {
    && (forall i, j | 0 <= i < j < |points| :: points[i].key != points[j].key)
    && (forall i | 0 <= i < |points| ::
          points[i].key in keys.Values && points[i].count == |Group(keys, points[i].key)|)
  }

  ghost predicate Lists<K>(points: seq<Point<K>>, key: K) {
    exists i :: 0 <= i < |points| && points[i].key == key
  }

  function Sum<K>(points: seq<Point<K>>): nat {
    if points == [] then 0 else Sum(points[..|points| - 1]) + points[|points| - 1].count
  }

  // ---------------------------------------------------------------------------------------
  // Sums
  // ---------------------------------------------------------------------------------------

  ghost function Covered<T, K>(points: seq<Point<K>>, keys: map<T, K>): set<T> {
    set r | r in keys && Lists(points, keys[r])
  }

  lemma {:induction false} SumIsCovered<T, K>(points: seq<Point<K>>, keys: map<T, K>)
    requires CountsGroups(points, keys)
    ensures Sum(points) == |Covered(points, keys)|
  {
    if points == [] {
      assert Covered(points, keys) == {};
    } else {
      var last := |points| - 1;
      CoveredBefore(points, keys);
      hide Covered;
      SumIsCovered(points[..last], keys);
    }
  }

  lemma CoveredBefore<T, K>(points: seq<Point<K>>, keys: map<T, K>)
    requires CountsGroups(points, keys) && points != []
    ensures var last := |points| - 1;
            CountsGroups(points[..last], keys)
            && |Covered(points, keys)| == |Covered(points[..last], keys)| + points[last].count
  {
    var last := |points| - 1;
    var p, before := points[last], points[..last];
    forall r | r in keys
      ensures Lists(points, keys[r]) <==> Lists(before, keys[r]) || keys[r] == p.key
    {
      ListsBefore(points, keys[r]);
    }
    forall i | 0 <= i < |before| ensures before[i].key != p.key {
      assert points[i].key != points[last].key;
    }
    assert !Lists(before, p.key);
    hide Lists;
    assert Covered(points, keys) == Covered(before, keys) + Group(keys, p.key);
    Sets.DisjointUnionSize(Covered(before, keys), Group(keys, p.key));
  }

  lemma ListsBefore<K>(points: seq<Point<K>>, key: K)
    requires points != []
    ensures Lists(points, key) <==> Lists(points[..|points| - 1], key) || points[|points| - 1].key == key
  {
    var last := |points| - 1;
    if Lists(points[..last], key) {
      var i :| 0 <= i < last && points[..last][i].key == key;
      assert points[i].key == key;
    }
    if i :| 0 <= i < |points| && points[i].key == key {
      assert i < last ==> points[..last][i].key == key;
    }
  }

  /** Groups never count more than the rows, and they count all rows exactly when no group is left out. */
  lemma SumOfGroups<T, K>(points: seq<Point<K>>, keys: map<T, K>)
    requires CountsGroups(points, keys)
    ensures Sum(points) <= |keys|
    ensures Sum(points) == |keys| <==> forall r | r in keys :: Lists(points, keys[r])
  {
    hide Sum;
    SumIsCovered(points, keys);
    Sets.SubsetSize(Covered(points, keys), keys.Keys);
    if Sum(points) == |keys| {
      forall r | r in keys ensures Lists(points, keys[r]) {
        assert r in Covered(points, keys);
      }
    }
    if forall r | r in keys :: Lists(points, keys[r]) {
      assert Covered(points, keys) == keys.Keys;
    }
  }

  // ---------------------------------------------------------------------------------------
  // ORDER BY cnt DESC LIMIT n
  // ---------------------------------------------------------------------------------------

  /** Some result of the query; equal counts may come in any order. */
  ghost predicate IsTop<T, K>(points: seq<Point<K>>, keys: map<T, K>, limit: nat) {
    && CountsGroups(points, keys)
    && (forall i, j | 0 <= i < j < |points| :: points[i].count >= points[j].count)
    && |points| == (if |keys.Values| <= limit then |keys.Values| else limit)
    && forall r, i | r in keys && !Lists(points, keys[r]) && 0 <= i < |points| ::
         |Group(keys, keys[r])| <= points[i].count
  }

  ghost function KeysOf<K>(points: seq<Point<K>>): set<K> {
    set i | 0 <= i < |points| :: points[i].key
  }

  lemma {:induction false} DistinctKeys<K>(points: seq<Point<K>>)
    requires forall i, j | 0 <= i < j < |points| :: points[i].key != points[j].key
    ensures |KeysOf(points)| == |points|
  {
    if points == [] {
      assert KeysOf(points) == {};
    } else {
      var last := |points| - 1;
      DistinctKeys(points[..last]);
      assert KeysOf(points) == KeysOf(points[..last]) + {points[last].key};
    }
  }

  /** A list under LIMIT counts at most all rows, and counts them all exactly when the limit does not cut
      off a group. */
  lemma TopSum<T, K>(points: seq<Point<K>>, keys: map<T, K>, limit: nat)
    requires IsTop(points, keys, limit)
    ensures Sum(points) <= |keys|
    ensures Sum(points) == |keys| <==> |keys.Values| <= limit
  {
    hide Sum;
    SumOfGroups(points, keys);
    DistinctKeys(points);
    assert KeysOf(points) <= keys.Values;
    Sets.SubsetSize(KeysOf(points), keys.Values);
    if |keys.Values| <= limit {
      forall r | r in keys ensures Lists(points, keys[r]) {
        assert keys[r] in KeysOf(points);
      }
    } else {
      if keys.Values <= KeysOf(points) {
        Sets.SubsetSize(keys.Values, KeysOf(points));
      }
      var k :| k in keys.Values && k !in KeysOf(points);
      var r :| r in keys && keys[r] == k;
      NotListed(points, k);
    }
  }

  lemma NotListed<K>(points: seq<Point<K>>, k: K)
    requires k !in KeysOf(points)
    ensures !Lists(points, k)
  {
  }

  lemma {:induction false} SumAppend<K>(a: seq<Point<K>>, b: seq<Point<K>>)
    ensures Sum(a + b) == Sum(a) + Sum(b)
  {
    if b == [] {
      assert a + b == a;
    } else {
      assert (a + b)[..|a + b| - 1] == a + b[..|b| - 1];
      SumAppend(a, b[..|b| - 1]);
    }
  }

  function Without<K>(points: seq<Point<K>>, j: nat): (rest: seq<Point<K>>)
    requires j < |points|
    ensures |rest| == |points| - 1
  {
    points[..j] + points[j + 1..]
  }

  lemma SumAround<K>(before: seq<Point<K>>, p: Point<K>, after: seq<Point<K>>)
    ensures Sum(before + [p] + after) == Sum(before + after) + p.count
  {
    SumAppend(before + [p], after);
    SumAppend(before, after);
    assert (before + [p])[..|before|] == before;
  }

  lemma SumWithout<K>(points: seq<Point<K>>, j: nat)
    requires j < |points|
    ensures Sum(points) == Sum(Without(points, j)) + points[j].count
  {
    hide Sum;
    Pieces(points, j);
    SumAround(points[..j], points[j], points[j + 1..]);
  }

  lemma Pieces<T>(s: seq<T>, j: nat)
    requires j < |s|
    ensures s[..j] + [s[j]] + s[j + 1..] == s
  {
  }

  lemma CountsWithout<T, K>(points: seq<Point<K>>, keys: map<T, K>, j: nat)
    requires CountsGroups(points, keys) && j < |points|
    ensures CountsGroups(Without(points, j), keys)
  {
    var rest := Without(points, j);
    forall a | 0 <= a < |rest| ensures rest[a] == points[if a < j then a else a + 1] {}
    hide Without;
  }

  /** Of more distinct keys than a list has, one is not listed. */
  lemma OneIsMissing<K>(others: seq<Point<K>>, head: seq<Point<K>>) returns (j: nat)
    requires forall a, b | 0 <= a < b < |others| :: others[a].key != others[b].key
    requires forall a, b | 0 <= a < b < |head| :: head[a].key != head[b].key
    requires |head| < |others|
    ensures j < |others| && !Lists(head, others[j].key)
  {
    DistinctKeys(others);
    DistinctKeys(head);
    if KeysOf(others) <= KeysOf(head) {
      Sets.SubsetSize(KeysOf(others), KeysOf(head));
    }
    var k :| k in KeysOf(others) && k !in KeysOf(head);
    j :| 0 <= j < |others| && others[j].key == k;
    NotListed(head, k);
  }

  /** A group that is not among the first points counts no more than the next one. */
  lemma NextIsLarger<T, K>(points: seq<Point<K>>, keys: map<T, K>, limit: nat, p: Point<K>, k: nat)
    requires IsTop(points, keys, limit) && k < |points|
    requires p.key in keys.Values && p.count == |Group(keys, p.key)| && !Lists(points[..k], p.key)
    ensures p.count <= points[k].count
  {
    forall i | 0 <= i < k ensures points[i].key != p.key {
      assert points[..k][i] == points[i];
    }
    if !Lists(points, p.key) {
      var r :| r in keys && keys[r] == p.key;
    }
  }

  /** No other list of as many groups counts more rows. */
  lemma {:induction false} TopIsHeaviest<T, K>(points: seq<Point<K>>, keys: map<T, K>, limit: nat,
                                               others: seq<Point<K>>)
    requires IsTop(points, keys, limit) && CountsGroups(others, keys) && |others| <= |points|
    ensures Sum(others) <= Sum(points[..|others|]) <= Sum(points)
    decreases |others|
  {
    hide IsTop;
    hide Lists;
    hide Without;
    var k := |others|;
    assert points == points[..k] + points[k..];
    SumAppend(points[..k], points[k..]);
    if k > 0 {
      TopCounts(points, keys, limit);
      var head := points[..k - 1];
      var j := OneIsMissing(others, head);
      NextIsLarger(points, keys, limit, others[j], k - 1);
      CountsWithout(others, keys, j);
      SumWithout(others, j);
      TopIsHeaviest(points, keys, limit, Without(others, j));
      assert points[..k][..k - 1] == head;
    }
  }

  lemma TopCounts<T, K>(points: seq<Point<K>>, keys: map<T, K>, limit: nat)
    requires IsTop(points, keys, limit)
    ensures CountsGroups(points, keys)
  {
  }

  /** A row whose group is largest. */
  lemma {:induction false} LargestGroup<T, K>(keys: map<T, K>, rows: set<T>) returns (r: T)
    requires rows != {} && rows <= keys.Keys
    ensures r in rows && forall s | s in rows :: |Group(keys, keys[s])| <= |Group(keys, keys[r])|
    decreases |rows|
  {
    hide Group;
    r := Sets.Inhabited(rows);
    if rows != {r} {
      var other := LargestGroup(keys, rows - {r});
      forall s | s in rows ensures s == r || s in rows - {r} {}
      if |Group(keys, keys[r])| < |Group(keys, keys[other])| {
        r := other;
      }
    }
  }

  /** Without one group the others are as they were. */
  lemma GroupsWithout<T, K>(keys: map<T, K>, key: K)
    ensures var rest := keys - Group(keys, key);
            && rest.Values == keys.Values - {key}
            && forall k | k != key :: Group(rest, k) == Group(keys, k)
  {
    var rest := keys - Group(keys, key);
    forall k | k in keys.Values && k != key ensures k in rest.Values {
      var r :| r in keys && keys[r] == k;
      assert r in rest && rest[r] == k;
    }
  }

  /** The query has a result, for every labelling and limit. */
  lemma {:induction false} TopExists<T, K>(keys: map<T, K>, limit: nat) returns (points: seq<Point<K>>)
    ensures IsTop(points, keys, limit)
    decreases limit
  {
    points := [];
    if keys != map[] && limit > 0 {
      var r := LargestGroup(keys, keys.Keys);
      var rest := keys - Group(keys, keys[r]);
      var tail := TopExists(rest, limit - 1);
      points := [Point(keys[r], |Group(keys, keys[r])|)] + tail;
      AddLargest(keys, limit, r, tail);
    } else if keys == map[] {
      assert keys.Values == {};
    }
  }

  /** The points are a first one and then those of the tail. */
  ghost predicate Prepends<K>(points: seq<Point<K>>, p: Point<K>, tail: seq<Point<K>>) {
    |points| == |tail| + 1 && points[0] == p && forall i | 0 < i < |points| :: points[i] == tail[i - 1]
  }

  lemma AddLargest<T, K>(keys: map<T, K>, limit: nat, r: T, tail: seq<Point<K>>)
    requires limit > 0 && r in keys && forall s | s in keys :: |Group(keys, keys[s])| <= |Group(keys, keys[r])|
    requires IsTop(tail, keys - Group(keys, keys[r]), limit - 1)
    ensures IsTop([Point(keys[r], |Group(keys, keys[r])|)] + tail, keys, limit)
  {
    var p, rest := Point(keys[r], |Group(keys, keys[r])|), keys - Group(keys, keys[r]);
    var points := [p] + tail;
    GroupsWithout(keys, keys[r]);
    Prepended(p, tail);
    AddSize(keys, rest, limit, p, tail, points);
    AddCounts(keys, rest, p, tail, points);
    AddBound(keys, rest, limit, r, p, tail, points);
    AddOrder(keys, rest, limit, p, tail, points);
    hide Group;
    hide CountsGroups;
    hide Lists;
    hide Prepends;
  }

  lemma Prepended<K>(p: Point<K>, tail: seq<Point<K>>)
    ensures Prepends([p] + tail, p, tail)
  {
  }

  lemma AddSize<T, K>(keys: map<T, K>, rest: map<T, K>, limit: nat, p: Point<K>, tail: seq<Point<K>>,
                      points: seq<Point<K>>)
    requires Prepends(points, p, tail) && limit > 0 && IsTop(tail, rest, limit - 1) && p.key in keys.Values
    requires rest.Values == keys.Values - {p.key}
    ensures |points| == (if |keys.Values| <= limit then |keys.Values| else limit)
  {
    hide CountsGroups;
    hide Lists;
    hide Group;
    assert keys.Values == rest.Values + {p.key};
  }

  lemma AddCounts<T, K>(keys: map<T, K>, rest: map<T, K>, p: Point<K>, tail: seq<Point<K>>, points: seq<Point<K>>)
    requires Prepends(points, p, tail) && p.key in keys.Values && p.count == |Group(keys, p.key)|
    requires rest.Values == keys.Values - {p.key} && forall k | k != p.key :: Group(rest, k) == Group(keys, k)
    requires CountsGroups(tail, rest)
    ensures CountsGroups(points, keys)
  {
    hide Group;
  }

  lemma AddOrder<T, K>(keys: map<T, K>, rest: map<T, K>, limit: nat, p: Point<K>, tail: seq<Point<K>>,
                       points: seq<Point<K>>)
    requires Prepends(points, p, tail) && limit > 0 && IsTop(tail, rest, limit - 1)
    requires rest.Values == keys.Values - {p.key} && forall k | k != p.key :: Group(rest, k) == Group(keys, k)
    requires forall s | s in keys :: |Group(keys, keys[s])| <= p.count
    ensures forall i, j | 0 <= i < j < |points| :: points[i].count >= points[j].count
  {
    hide Group;
    hide Lists;
    forall j | 0 <= j < |tail| ensures tail[j].count <= p.count {
      var s :| s in rest && rest[s] == tail[j].key;
      assert tail[j].key in keys.Values;
      var u :| u in keys && keys[u] == tail[j].key;
    }
  }

  lemma AddBound<T, K>(keys: map<T, K>, rest: map<T, K>, limit: nat, r: T, p: Point<K>, tail: seq<Point<K>>,
                       points: seq<Point<K>>)
    requires Prepends(points, p, tail) && limit > 0 && IsTop(tail, rest, limit - 1)
    requires r in keys && p.key == keys[r] && rest == keys - Group(keys, keys[r])
    requires forall k | k != p.key :: Group(rest, k) == Group(keys, k)
    requires forall s | s in keys :: |Group(keys, keys[s])| <= p.count
    ensures forall s, i | s in keys && !Lists(points, keys[s]) && 0 <= i < |points| ::
              |Group(keys, keys[s])| <= points[i].count
  {
    forall s, i | s in keys && !Lists(points, keys[s]) && 0 <= i < |points|
      ensures |Group(keys, keys[s])| <= points[i].count
    {
      assert points[0].key == keys[r];
      if i > 0 {
        NotListedInTail(points, p, tail, keys[s]);
        KeptByOthers(keys, rest, r, s);
      }
    }
  }

  lemma NotListedInTail<K>(points: seq<Point<K>>, p: Point<K>, tail: seq<Point<K>>, key: K)
    requires Prepends(points, p, tail) && !Lists(points, key)
    ensures !Lists(tail, key)
  {
    forall i | 0 <= i < |tail| ensures tail[i].key != key {
      assert points[i + 1] == tail[i];
    }
  }

  lemma KeptByOthers<T, K>(keys: map<T, K>, rest: map<T, K>, r: T, s: T)
    requires r in keys && s in keys && keys[s] != keys[r] && rest == keys - Group(keys, keys[r])
    ensures s in rest && rest[s] == keys[s]
  {
  }

  // ---------------------------------------------------------------------------------------
  // GROUP BY period ORDER BY period
  // ---------------------------------------------------------------------------------------

  ghost predicate IsSeries<T>(points: seq<Point<string>>, labels: map<T, string>) {
    && (forall i, j | 0 <= i < j < |points| :: LexLess(points[i].key, points[j].key))
    && (forall i | 0 <= i < |points| ::
          points[i].key in labels.Values && points[i].count == |Group(labels, points[i].key)|)
    && (forall r | r in labels :: Lists(points, labels[r]))
  }

  lemma SeriesCounts<T>(points: seq<Point<string>>, labels: map<T, string>)
    requires IsSeries(points, labels)
    ensures CountsGroups(points, labels)
  {
    hide LexLess;
    forall i, j | 0 <= i < j < |points| ensures points[i].key != points[j].key {
      LexTrichotomy(points[i].key, points[j].key);
    }
  }

  /** The counts of a series add up to the number of rows. */
  lemma SeriesTotal<T>(points: seq<Point<string>>, labels: map<T, string>)
    requires IsSeries(points, labels)
    ensures Sum(points) == |labels|
  {
    SeriesCounts(points, labels);
    hide Sum;
    hide LexLess;
    SumOfGroups(points, labels);
  }

  /** Without the rows of its last point, a series is what is before that point. */
  lemma SeriesBefore<T>(points: seq<Point<string>>, labels: map<T, string>)
    requires IsSeries(points, labels) && points != []
    ensures var last := |points| - 1;
            IsSeries(points[..last], labels - Group(labels, points[last].key))
  {
    hide LexLess;
    var last := |points| - 1;
    var before, rest := points[..last], labels - Group(labels, points[last].key);
    SeriesCounts(points, labels);
    forall i | 0 <= i < last
      ensures before[i].key in rest.Values && before[i].count == |Group(rest, before[i].key)|
    {
      var r :| r in labels && labels[r] == points[i].key;
      assert r in rest && rest[r] == before[i].key;
      assert Group(rest, before[i].key) == Group(labels, points[i].key);
    }
    forall r | r in rest ensures Lists(before, rest[r]) {
      var i :| 0 <= i < |points| && points[i].key == labels[r];
      assert before[i].key == rest[r];
    }
  }

  /** The two labellings put every two rows in the same order. */
  ghost predicate OrderAlike<T(!new)>(f: map<T, string>, g: map<T, string>) {
    f.Keys == g.Keys && forall r, s | r in f && s in f :: LexLess(f[r], f[s]) <==> LexLess(g[r], g[s])
  }

  /** The last label is the label of the rows that no row comes after. */
  lemma LastIsLatest<T>(points: seq<Point<string>>, labels: map<T, string>, r: T)
    requires IsSeries(points, labels) && points != [] && r in labels
    ensures labels[r] == points[|points| - 1].key <==> forall s | s in labels :: !LexLess(labels[r], labels[s])
  {
    hide LexLess;
    var last := |points| - 1;
    var i :| 0 <= i < |points| && points[i].key == labels[r];
    if i < last {
      var s :| s in labels && labels[s] == points[last].key;
      LexTrichotomy(labels[r], labels[s]);
    } else {
      forall s | s in labels ensures !LexLess(labels[r], labels[s]) {
        var j :| 0 <= j < |points| && points[j].key == labels[s];
        LexTrichotomy(points[j].key, points[i].key);
      }
    }
  }

  lemma SameLastGroup<T(!new)>(p: seq<Point<string>>, f: map<T, string>, q: seq<Point<string>>, g: map<T, string>)
    requires IsSeries(p, f) && IsSeries(q, g) && OrderAlike(f, g) && p != [] && q != []
    ensures Group(f, p[|p| - 1].key) == Group(g, q[|q| - 1].key)
  {
    hide LexLess;
    hide IsSeries;
    forall r | r in f.Keys ensures f[r] == p[|p| - 1].key <==> g[r] == q[|q| - 1].key {
      LastIsLatest(p, f, r);
      LastIsLatest(q, g, r);
    }
    assert Group(f, p[|p| - 1].key) == Group(g, q[|q| - 1].key);
  }

  /** Labellings that order the rows alike give series with equal counts in equal order. */
  lemma {:induction false} SeriesAgree<T(!new)>(p: seq<Point<string>>, f: map<T, string>, q: seq<Point<string>>,
                                                g: map<T, string>)
    requires IsSeries(p, f) && IsSeries(q, g) && OrderAlike(f, g)
    ensures |p| == |q| && forall i | 0 <= i < |p| :: p[i].count == q[i].count
  {
    hide IsSeries;
    hide OrderAlike;
    hide Group;
    NoRows(p, f);
    NoRows(q, g);
    SameRows(f, g);
    if p != [] && q != [] {
      var m, n := |p| - 1, |q| - 1;
      SameLastGroup(p, f, q, g);
      SeriesBefore(p, f);
      SeriesBefore(q, g);
      var gone := Group(f, p[m].key);
      SameCount(p, f, m);
      SameCount(q, g, n);
      AlikeWithout(f, g, gone);
      SeriesAgree(p[..m], f - gone, q[..n], g - gone);
      forall i | 0 <= i < |p| ensures p[i].count == q[i].count {
        assert i < m ==> p[..m][i].count == q[..n][i].count;
      }
    }
  }

  lemma SameRows<T(!new)>(f: map<T, string>, g: map<T, string>)
    requires OrderAlike(f, g)
    ensures f == map[] <==> g == map[]
  {
    hide LexLess;
    assert f.Keys == g.Keys;
    if f == map[] {
      assert g.Keys == {};
    }
    if g == map[] {
      assert f.Keys == {};
    }
  }

  lemma SameCount<T>(p: seq<Point<string>>, f: map<T, string>, i: nat)
    requires IsSeries(p, f) && i < |p|
    ensures p[i].count == |Group(f, p[i].key)|
  {
    hide LexLess;
  }

  lemma AlikeWithout<T(!new)>(f: map<T, string>, g: map<T, string>, gone: set<T>)
    requires OrderAlike(f, g)
    ensures OrderAlike(f - gone, g - gone)
  {
    hide LexLess;
    var a, b := f - gone, g - gone;
    forall r ensures r in a.Keys <==> r in b.Keys {
      assert r in f.Keys <==> r in g.Keys;
    }
    forall r, s | r in a && s in a ensures LexLess(a[r], a[s]) <==> LexLess(b[r], b[s]) {
      assert r in f && s in f && r in b && s in b;
      assert a[r] == f[r] && a[s] == f[s] && b[r] == g[r] && b[s] == g[s];
    }
  }

  lemma NoRows<T>(p: seq<Point<string>>, f: map<T, string>)
    requires IsSeries(p, f)
    ensures p == [] <==> f == map[]
  {
    hide LexLess;
    if p != [] {
      assert p[0].key in f.Values;
    }
    if f != map[] {
      var r :| r in f;
      assert Lists(p, f[r]);
    }
  }

  // ---------------------------------------------------------------------------------------
  // Refinement
  // ---------------------------------------------------------------------------------------

  /** Rows with one fine label have one coarse label. */
  ghost predicate Refines<T(!new)>(fine: map<T, string>, coarse: map<T, string>) {
    fine.Keys == coarse.Keys && forall r, s | r in fine && s in fine && fine[r] == fine[s] :: coarse[r] == coarse[s]
  }

  /** The fine labels inside a coarse period. */
  ghost function Inside<T>(fine: map<T, string>, coarse: map<T, string>, period: string): set<string>
    requires fine.Keys == coarse.Keys
  {
    set r | r in fine && coarse[r] == period :: fine[r]
  }

  function SumOver(points: seq<Point<string>>, keys: set<string>): nat {
    if points == [] then 0
    else
      var last := points[|points| - 1];
      SumOver(points[..|points| - 1], keys) + (if last.key in keys then last.count else 0)
  }

  ghost function RowsIn<T>(labels: map<T, string>, keys: set<string>): set<T> {
    set r | r in labels && labels[r] in keys
  }

  lemma {:induction false} SumOverRows<T>(points: seq<Point<string>>, labels: map<T, string>, keys: set<string>)
    requires IsSeries(points, labels)
    ensures SumOver(points, keys) == |RowsIn(labels, keys)|
  {
    hide IsSeries;
    hide RowsIn;
    hide Group;
    NoRows(points, labels);
    if points == [] {
      NoRowsIn(labels, keys);
    } else {
      var last := |points| - 1;
      SeriesBefore(points, labels);
      SumOverRows(points[..last], labels - Group(labels, points[last].key), keys);
      SameCount(points, labels, last);
      RowsInWithout(labels, keys, points[last].key);
    }
  }

  lemma NoRowsIn<T>(labels: map<T, string>, keys: set<string>)
    requires labels == map[]
    ensures RowsIn(labels, keys) == {}
  {
  }

  lemma RowsInWithout<T>(labels: map<T, string>, keys: set<string>, key: string)
    ensures var gone := Group(labels, key);
            |RowsIn(labels, keys)| == |RowsIn(labels - gone, keys)| + (if key in keys then |gone| else 0)
  {
    var gone := Group(labels, key);
    var rest := RowsIn(labels - gone, keys);
    if key in keys {
      assert RowsIn(labels, keys) == rest + gone;
      Sets.DisjointUnionSize(rest, gone);
    } else {
      assert RowsIn(labels, keys) == rest;
    }
  }

  /** The count of a coarse period is the sum of the counts of the fine periods inside it. */
  lemma Resummation<T(!new)>(points: seq<Point<string>>, fine: map<T, string>, coarse: map<T, string>, period: string)
    requires IsSeries(points, fine) && Refines(fine, coarse)
    ensures |Group(coarse, period)| == SumOver(points, Inside(fine, coarse, period))
  {
    SumOverRows(points, fine, Inside(fine, coarse, period));
    hide IsSeries;
    assert forall r :: r in fine.Keys <==> r in coarse.Keys;
    assert RowsIn(fine, Inside(fine, coarse, period)) == Group(coarse, period);
  }

  // ---------------------------------------------------------------------------------------
  // Every query has a result
  // ---------------------------------------------------------------------------------------

  lemma {:induction false} LatestRow<T>(labels: map<T, string>) returns (r: T)
    requires labels != map[]
    ensures r in labels && forall s | s in labels :: !LexLess(labels[r], labels[s])
    decreases |labels|
  {
    hide LexLess;
    var t :| t in labels;
    var rest := labels - {t};
    assert |rest.Keys| < |labels.Keys|;
    LexTrichotomy(labels[t], labels[t]);
    if rest == map[] {
      forall s | s in labels ensures s == t {
        assert s !in rest;
      }
      r := t;
    } else {
      r := LatestRow(rest);
      assert forall s | s in labels :: s == t || s in rest;
      if LexLess(labels[r], labels[t]) {
        forall s | s in labels ensures !LexLess(labels[t], labels[s]) {
          if LexLess(labels[t], labels[s]) {
            LexTransitive(labels[r], labels[t], labels[s]);
          }
        }
        r := t;
      }
    }
  }

  lemma {:induction false} LexTransitive(a: string, b: string, c: string)
    requires LexLess(a, b) && LexLess(b, c)
    ensures LexLess(a, c)
  {
    if a != "" && b != "" && c != "" && a[0] == b[0] && b[0] == c[0] {
      LexTransitive(a[1..], b[1..], c[1..]);
    }
  }

  lemma {:induction false} SeriesExists<T>(labels: map<T, string>) returns (points: seq<Point<string>>)
    ensures IsSeries(points, labels)
    decreases |labels|
  {
    hide LexLess;
    if labels == map[] {
      points := [];
    } else {
      var r := LatestRow(labels);
      var gone := Group(labels, labels[r]);
      var rest := labels - gone;
      assert r in labels.Keys && r !in rest.Keys;
      Sets.SubsetSize(rest.Keys, labels.Keys);
      var before := SeriesExists(rest);
      points := before + [Point(labels[r], |gone|)];
      AddLatest(before, labels, r);
    }
  }

  lemma AddLatest<T>(before: seq<Point<string>>, labels: map<T, string>, r: T)
    requires r in labels && forall s | s in labels :: !LexLess(labels[r], labels[s])
    requires IsSeries(before, labels - Group(labels, labels[r]))
    ensures IsSeries(before + [Point(labels[r], |Group(labels, labels[r])|)], labels)
  {
    hide LexLess;
    var gone := Group(labels, labels[r]);
    var rest, points := labels - gone, before + [Point(labels[r], |gone|)];
    forall i | 0 <= i < |before|
      ensures LexLess(before[i].key, labels[r]) && before[i].key in labels.Values
      ensures before[i].count == |Group(labels, before[i].key)|
    {
      assert before[i].key in rest.Values;
      var s :| s in rest && rest[s] == before[i].key;
      assert s in labels && labels[s] == before[i].key;
      LexTrichotomy(labels[s], labels[r]);
      assert Group(labels, before[i].key) == Group(rest, before[i].key);
    }
    forall s | s in labels ensures Lists(points, labels[s]) {
      if s in rest {
        var i :| 0 <= i < |before| && before[i].key == rest[s];
        assert points[i].key == labels[s];
      } else {
        assert points[|before|].key == labels[s];
      }
    }
  }
}
