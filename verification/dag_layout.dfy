/** Longest-path layering with a barycenter order of the rows: where a workflow's steps are drawn. */
module DagLayout {
  import opened Names
  import opened Graph

  datatype Node = Node(name: string, deps: seq<string>)

  type Levels = map<string, int>

  // ---------- levels ----------

  /** One more than the largest level among the known dependencies; 0 without any. */
  function Want(ds: seq<string>, level: Levels): int {
    if ds == [] then 0
    else
      var rest := Want(ds[1..], level);
      if ds[0] in level && level[ds[0]] + 1 > rest then level[ds[0]] + 1 else rest
  }

  lemma {:induction false} WantBound(ds: seq<string>, level: Levels)
    ensures Want(ds, level) >= 0 && forall d | d in ds && d in level :: Want(ds, level) >= level[d] + 1
    ensures Want(ds, level) == 0 || exists d :: d in ds && d in level && level[d] + 1 == Want(ds, level)
  {
    if ds != [] {
      WantBound(ds[1..], level);
      assert ds == [ds[0]] + ds[1..];
      assert ds[0] in ds && forall d | d in ds[1..] :: d in ds;
    }
  }

  /** Every step sits one column right of its rightmost dependency. */
  ghost predicate IsLevel(g: Deps, level: Levels) {
    level.Keys == g.Keys && forall n | n in g :: level[n] == Want(g[n], level)
  }

  lemma LevelStep(g: Deps, level: Levels, n: string)
    requires IsLevel(g, level) && n in g
    ensures level[n] >= 0 && forall d | DependsOn(g, n, d) :: level[d] < level[n]
    ensures level[n] > 0 ==> exists d :: DependsOn(g, n, d) && level[d] == level[n] - 1
  {
    WantBound(g[n], level);
    if level[n] > 0 {
      var d :| d in g[n] && d in level && level[d] + 1 == level[n];
      assert DependsOn(g, n, d);
    }
  }

  /** No dependency path is longer than the level... */
  lemma {:induction false} PathWithinLevel(g: Deps, level: Levels, p: seq<string>)
    requires IsLevel(g, level) && Path(g, p)
    ensures p[|p| - 1] in g && |p| - 1 <= level[p[0]] - level[p[|p| - 1]] && |p| - 1 <= level[p[0]]
    decreases |p|
  {
    LevelStep(g, level, p[0]);
    if |p| > 1 {
      assert DependsOn(g, p[0], p[1]);
      PathSlice(g, p, 1, |p|);
      PathWithinLevel(g, level, p[1..|p|]);
    }
  }

  /** ...and one is exactly that long. */
  lemma {:induction false} PathOfLevel(g: Deps, level: Levels, n: string) returns (p: seq<string>)
    requires IsLevel(g, level) && n in g
    ensures Path(g, p) && p[0] == n && |p| - 1 == level[n]
    decreases level[n]
  {
    LevelStep(g, level, n);
    if level[n] == 0 {
      p := [n];
    } else {
      var d :| DependsOn(g, n, d) && level[d] == level[n] - 1;
      LevelStep(g, level, d);
      var q := PathOfLevel(g, level, d);
      p := [n] + q;
      forall i | 0 <= i < |p| - 1 ensures DependsOn(g, p[i], p[i + 1]) {
        if i > 0 { assert DependsOn(g, q[i - 1], q[i]); }
      }
    }
  }

  /** Levels stay below the number of steps. */
  lemma LevelsAreFew(g: Deps, level: Levels, n: string)
    requires IsLevel(g, level) && n in g
    ensures 0 <= level[n] < |g.Keys|
  {
    var p := PathOfLevel(g, level, n);
    forall i, j | 0 <= i < j < |p| ensures p[i] != p[j] {
      PathSlice(g, p, i, j + 1);
      PathWithinLevel(g, level, p[i..j + 1]);
    }
    PathInGraph(g, p);
    Cardinality(p, g.Keys);
    LevelStep(g, level, n);
  }

  lemma PathInGraph(g: Deps, p: seq<string>)
    requires Path(g, p)
    ensures forall n | n in p :: n in g
  {
    forall i | 0 <= i < |p| ensures p[i] in g {
      if i > 0 { assert DependsOn(g, p[i - 1], p[i]); }
    }
  }

  lemma {:induction false} Cardinality(p: seq<string>, s: set<string>)
    requires NoDup(p) && forall n | n in p :: n in s
    ensures |p| <= |s|
  {
    if p != [] {
      Cardinality(p[1..], s - {p[0]});
    }
  }

  /** On an acyclic graph every name can be ordered after its dependencies. */
  lemma {:induction false} PeelOn(g: Deps, order: seq<string>) returns (full: seq<string>)
    requires Acyclic(g) && Peeled(g, order) && ToSet(order) <= g.Keys
    ensures Peeled(g, full) && ToSet(full) == g.Keys
    decreases |g.Keys - ToSet(order)|
  {
    var rest := g.Keys - ToSet(order);
    if rest == {} {
      full := order;
    } else {
      NotStuck(g, rest);
      var n :| n in rest && !NeedsOneOf(g, n, rest);
      var next := order + [n];
      assert ToSet(next) == ToSet(order) + {n};
      assert g.Keys - ToSet(next) == rest - {n};
      forall i, d | 0 <= i < |next| && DependsOn(g, next[i], d) ensures d in next[..i] {
        if i < |order| {
          assert next[..i] == order[..i];
        } else {
          assert next[..i] == order;
          assert d in ToSet(order);
        }
      }
      full := PeelOn(g, next);
    }
  }

  lemma NotStuck(g: Deps, rest: set<string>)
    requires Acyclic(g) && rest != {} && rest <= g.Keys
    ensures exists n :: n in rest && !NeedsOneOf(g, n, rest)
  {
    if Stuck(g, rest) {
      var n :| n in rest;
      AcyclicNeedsNone(g, n);
      StuckNeedsCycle(g, rest, n);
    }
  }

  lemma {:induction false} WantSame(ds: seq<string>, a: Levels, b: Levels)
    requires forall d | d in ds :: (d in a <==> d in b) && (d in a ==> a[d] == b[d])
    ensures Want(ds, a) == Want(ds, b)
  {
    if ds != [] {
      WantSame(ds[1..], a, b);
    }
  }

  /** Levels exist on every acyclic graph. */
  lemma LevelsExist(g: Deps) returns (level: Levels)
    requires Acyclic(g)
    ensures IsLevel(g, level)
  {
    var order := PeelOn(g, []);
    level := LevelsAlong(g, order, |order|);
    assert forall n | n in g :: n in ToSet(order);
  }

  lemma {:induction false} LevelsAlong(g: Deps, order: seq<string>, k: nat) returns (level: Levels)
    requires Peeled(g, order) && ToSet(order) == g.Keys && k <= |order|
    ensures level.Keys == ToSet(order[..k])
    ensures forall n | n in level :: n in g && level[n] == Want(g[n], level)
    decreases k
  {
    if k == 0 {
      level := map[];
    } else {
      var before := LevelsAlong(g, order, k - 1);
      var n := order[k - 1];
      assert n in ToSet(order);
      assert order[..k] == order[..k - 1] + [n];
      if n in before {
        level := before;
      } else {
        level := before[n := Want(g[n], before)];
        KnownBefore(g, order, k - 1, before, n, level);
      }
    }
  }

  lemma KnownBefore(g: Deps, order: seq<string>, k: nat, before: Levels, n: string, level: Levels)
    requires Peeled(g, order) && k < |order| && order[k] == n && before.Keys == ToSet(order[..k]) && n !in before && n in g
    requires ToSet(order) == g.Keys
    requires forall m | m in before :: m in g && before[m] == Want(g[m], before)
    requires level == before[n := Want(g[n], before)]
    ensures forall m | m in level :: level[m] == Want(g[m], level)
  {
    forall m | m in level ensures level[m] == Want(g[m], level) {
      var i :| 0 <= i <= k && order[i] == m;
      forall d | d in g[m] && d in g ensures d in before {
        assert DependsOn(g, order[i], d);
        assert d in ToSet(order[..k]);
      }
      WantSame(g[m], before, level);
    }
  }

  lemma {:induction false} LevelsUnique(g: Deps, a: Levels, b: Levels, n: string)
    requires IsLevel(g, a) && IsLevel(g, b) && n in g
    ensures a[n] == b[n]
    decreases a[n]
  {
    LevelStep(g, a, n);
    forall d | d in g[n] && d in g ensures a[d] == b[d] {
      assert DependsOn(g, n, d);
      LevelStep(g, a, d);
      LevelsUnique(g, a, b, d);
    }
    WantSame(g[n], a, b);
  }

  // ---------- the rows of a column ----------

  type Key = (int, string)

  predicate KeyLess(a: Key, b: Key) {
    a.0 < b.0 || (a.0 == b.0 && Less(a.1, b.1))
  }

  const NO_PREDECESSORS: int := 0x7FFF_FFFF_FFFF_FFFF

  function RowSum(ds: seq<string>, rows: Levels): (int, int) {
    if ds == [] then (0, 0)
    else
      var (sum, count) := RowSum(ds[1..], rows);
      if ds[0] in rows then (rows[ds[0]] + sum, 1 + count) else (sum, count)
  }

  /** A thousand times the mean row of the known dependencies. */
  function Barycenter(ds: seq<string>, rows: Levels): int {
    var (sum, count) := RowSum(ds, rows);
    if count == 0 then NO_PREDECESSORS else sum * 1000 / count
  }

  /** The rows of the listed dependencies. */
  function KnownRows(ds: seq<string>, rows: Levels): seq<int> {
    if ds == [] then [] else (if ds[0] in rows then [rows[ds[0]]] else []) + KnownRows(ds[1..], rows)
  }

  function Total(xs: seq<int>): int {
    if xs == [] then 0 else xs[0] + Total(xs[1..])
  }

  lemma {:induction false} RowSumIs(ds: seq<string>, rows: Levels)
    ensures RowSum(ds, rows) == (Total(KnownRows(ds, rows)), |KnownRows(ds, rows)|)
  {
    if ds != [] {
      RowSumIs(ds[1..], rows);
      var rest := KnownRows(ds[1..], rows);
      if ds[0] in rows { assert ([rows[ds[0]]] + rest)[1..] == rest; } else { assert KnownRows(ds, rows) == rest; }
    }
  }

  lemma {:induction false} TotalBelow(xs: seq<int>, bound: int)
    requires forall i | 0 <= i < |xs| :: xs[i] < bound
    ensures Total(xs) <= (bound - 1) * |xs|
  {
    if xs != [] { TotalBelow(xs[1..], bound); }
  }

  lemma Quotient(total: int, n: int, q: int)
    requires n > 0 && q == total * 1000 / n
    ensures q * n <= 1000 * total < (q + 1) * n
  {
  }

  /** The key is the mean row of the listed dependencies in thousandths, rounded down; without any, a number so large that the
      step comes behind all steps whose dependencies have smaller rows. */
  lemma {:induction false} BarycenterIs(ds: seq<string>, rows: Levels)
    ensures var q, known := Barycenter(ds, rows), KnownRows(ds, rows);
      if known == [] then q == 9223372036854775807 else q * |known| <= 1000 * Total(known) < (q + 1) * |known|
  {
    RowSumIs(ds, rows);
    var known := KnownRows(ds, rows);
    if known != [] { Quotient(Total(known), |known|, Barycenter(ds, rows)); }
  }

  lemma {:induction false} RootsComeLast(ds: seq<string>, es: seq<string>, rows: Levels)
    requires KnownRows(ds, rows) == [] && KnownRows(es, rows) != []
    requires forall i | 0 <= i < |KnownRows(es, rows)| :: KnownRows(es, rows)[i] < 9_000_000_000_000_000
    ensures Barycenter(es, rows) < Barycenter(ds, rows)
  {
    BarycenterIs(ds, rows);
    BarycenterIs(es, rows);
    var q, known, n := Barycenter(es, rows), KnownRows(es, rows), |KnownRows(es, rows)|;
    TotalBelow(known, 9_000_000_000_000_000);
    if q >= 9_000_000_000_000_000_000 { Bigger(q, n, 9_000_000_000_000_000_000); }
  }

  lemma Bigger(q: int, n: int, b: int)
    requires q >= b && n > 0
    ensures q * n >= b * n
  {
  }

  lemma {:induction false} RowSumSame(ds: seq<string>, a: Levels, b: Levels)
    requires forall d | d in ds :: (d in a <==> d in b) && (d in a ==> a[d] == b[d])
    ensures RowSum(ds, a) == RowSum(ds, b)
  {
    if ds != [] {
      RowSumSame(ds[1..], a, b);
    }
  }

  function KeyOf(g: Deps, rows: Levels, n: string): Key
    requires n in g
  {
    (Barycenter(g[n], rows), n)
  }

  /** Column `c` of a drawing: exactly the steps of level `c`, ordered by barycenter, then name. */
  ghost predicate IsColumn(g: Deps, level: Levels, rows: Levels, c: nat, col: seq<string>)
    requires level.Keys == g.Keys
  {
    && (forall n :: n in col <==> n in g && level[n] == c)
    && (forall i | 0 <= i < |col| :: col[i] in rows && rows[col[i]] == i)
    && forall i, j | 0 <= i < j < |col| && col[i] in g && col[j] in g :: KeyLess(KeyOf(g, rows, col[i]), KeyOf(g, rows, col[j]))
  }

  ghost predicate IsLayout(g: Deps, level: Levels, rows: Levels, cols: seq<seq<string>>) {
    && IsLevel(g, level) && rows.Keys == g.Keys
    && (forall c | 0 <= c < |cols| :: IsColumn(g, level, rows, c, cols[c]))
    && (forall n | n in g :: level[n] < |cols|)
    && (cols != [] ==> cols[|cols| - 1] != [])
  }

  lemma KeySortedOnce(g: Deps, rows: Levels, a: seq<string>, b: seq<string>)
    requires (forall n :: n in a <==> n in b) && forall n | n in a :: n in g
    requires forall i, j | 0 <= i < j < |a| :: KeyLess(KeyOf(g, rows, a[i]), KeyOf(g, rows, a[j]))
    requires forall i, j | 0 <= i < j < |b| :: KeyLess(KeyOf(g, rows, b[i]), KeyOf(g, rows, b[j]))
    ensures a == b
  {
    NoMembers(a);
    NoMembers(b);
    if a != [] {
      assert a[0] in b && b[0] in a;
      HeadsAgree(g, rows, a, b);
      forall n ensures n in a[1..] <==> n in b[1..] {
        KeyTail(g, rows, a, n);
        KeyTail(g, rows, b, n);
      }
      KeySortedOnce(g, rows, a[1..], b[1..]);
      assert a == [a[0]] + a[1..] && b == [b[0]] + b[1..];
    }
  }

  lemma NoMembers(a: seq<string>)
    ensures a == [] <==> forall n :: n !in a
  {
    if a != [] { assert a[0] in a; }
  }

  lemma KeyAsym(a: Key, b: Key)
    requires KeyLess(a, b)
    ensures a != b && !KeyLess(b, a)
  {
    if a.0 == b.0 { LessAsym(a.1, b.1); }
  }

  lemma HeadsAgree(g: Deps, rows: Levels, a: seq<string>, b: seq<string>)
    requires a != [] && b != [] && a[0] in b && b[0] in a && (forall n | n in a :: n in g) && forall n | n in b :: n in g
    requires forall i, j | 0 <= i < j < |a| :: KeyLess(KeyOf(g, rows, a[i]), KeyOf(g, rows, a[j]))
    requires forall i, j | 0 <= i < j < |b| :: KeyLess(KeyOf(g, rows, b[i]), KeyOf(g, rows, b[j]))
    ensures a[0] == b[0]
  {
    if a[0] != b[0] {
      KeyAsym(KeyOf(g, rows, a[0]), KeyOf(g, rows, b[0]));
    }
  }

  lemma KeyTail(g: Deps, rows: Levels, a: seq<string>, n: string)
    requires a != [] && forall m | m in a :: m in g
    requires forall i, j | 0 <= i < j < |a| :: KeyLess(KeyOf(g, rows, a[i]), KeyOf(g, rows, a[j]))
    ensures n in a[1..] <==> n in a && n != a[0]
  {
    if n in a[1..] {
      var i :| 0 < i < |a| && a[i] == n;
      KeyAsym(KeyOf(g, rows, a[0]), KeyOf(g, rows, a[i]));
    }
    assert a == [a[0]] + a[1..];
  }

  // ---------- one layout per graph ----------

  lemma NoWider(g: Deps, la: Levels, ra: Levels, a: seq<seq<string>>, lb: Levels, rb: Levels, b: seq<seq<string>>)
    requires IsLayout(g, la, ra, a) && IsLayout(g, lb, rb, b)
    ensures |a| <= |b|
  {
    if a != [] {
      var n := a[|a| - 1][0];
      assert n in a[|a| - 1];
      assert IsColumn(g, la, ra, |a| - 1, a[|a| - 1]);
      LevelsUnique(g, la, lb, n);
    }
  }

  lemma RowsAgree(g: Deps, la: Levels, ra: Levels, a: seq<seq<string>>, lb: Levels, rb: Levels, b: seq<seq<string>>, n: string)
    requires IsLayout(g, la, ra, a) && IsLayout(g, lb, rb, b) && n in g
    requires 0 <= la[n] < |a| && la[n] < |b| && a[la[n]] == b[la[n]]
    ensures ra[n] == rb[n]
  {
    var c := la[n];
    assert IsColumn(g, la, ra, c, a[c]) && IsColumn(g, lb, rb, c, b[c]);
    assert n in a[c];
    var i :| 0 <= i < |a[c]| && a[c][i] == n;
  }

  lemma {:induction false} ColumnsAgree(g: Deps, la: Levels, ra: Levels, a: seq<seq<string>>, lb: Levels, rb: Levels, b: seq<seq<string>>, c: nat)
    requires IsLayout(g, la, ra, a) && IsLayout(g, lb, rb, b) && c < |a| && |a| == |b|
    ensures a[c] == b[c]
    decreases c
  {
    assert IsColumn(g, la, ra, c, a[c]) && IsColumn(g, lb, rb, c, b[c]);
    forall n ensures n in a[c] <==> n in b[c] {
      if n in g { LevelsUnique(g, la, lb, n); }
    }
    forall n | n in g && la[n] == c ensures KeyOf(g, ra, n) == KeyOf(g, rb, n) {
      forall d | d in g[n] && d in g ensures ra[d] == rb[d] {
        assert DependsOn(g, n, d);
        LevelStep(g, la, n);
        LevelStep(g, la, d);
        ColumnsAgree(g, la, ra, a, lb, rb, b, la[d]);
        RowsAgree(g, la, ra, a, lb, rb, b, d);
      }
      RowSumSame(g[n], ra, rb);
    }
    SameKeysSameOrder(g, ra, rb, a[c], b[c]);
  }

  lemma SameKeysSameOrder(g: Deps, ra: Levels, rb: Levels, a: seq<string>, b: seq<string>)
    requires (forall n :: n in a <==> n in b) && forall n | n in a :: n in g && KeyOf(g, ra, n) == KeyOf(g, rb, n)
    requires forall i, j | 0 <= i < j < |a| :: KeyLess(KeyOf(g, ra, a[i]), KeyOf(g, ra, a[j]))
    requires forall i, j | 0 <= i < j < |b| && b[i] in g && b[j] in g :: KeyLess(KeyOf(g, rb, b[i]), KeyOf(g, rb, b[j]))
    ensures a == b
  {
    forall i, j | 0 <= i < j < |b| ensures KeyLess(KeyOf(g, ra, b[i]), KeyOf(g, ra, b[j])) {
      assert b[i] in a && b[j] in a;
    }
    KeySortedOnce(g, ra, a, b);
  }

  /** A graph has one layout. */
  lemma LayoutOnce(g: Deps, la: Levels, ra: Levels, a: seq<seq<string>>, lb: Levels, rb: Levels, b: seq<seq<string>>)
    requires IsLayout(g, la, ra, a) && IsLayout(g, lb, rb, b)
    ensures a == b
  {
    NoWider(g, la, ra, a, lb, rb, b);
    NoWider(g, lb, rb, b, la, ra, a);
    forall c | 0 <= c < |a| ensures a[c] == b[c] { ColumnsAgree(g, la, ra, a, lb, rb, b, c); }
  }

  // ---------- nodes and their graph ----------

  predicate UniqueNames(nodes: seq<Node>) {
    forall i, j | 0 <= i < j < |nodes| :: nodes[i].name != nodes[j].name
  }

  /** Later nodes win, as in the name index. */
  function GraphOf(nodes: seq<Node>): Deps {
    if nodes == [] then map[] else GraphOf(nodes[..|nodes| - 1])[nodes[|nodes| - 1].name := nodes[|nodes| - 1].deps]
  }

  lemma {:induction false} GraphNames(nodes: seq<Node>, n: string)
    ensures n in GraphOf(nodes) <==> exists i :: 0 <= i < |nodes| && nodes[i].name == n
  {
    if nodes != [] {
      GraphNames(nodes[..|nodes| - 1], n);
    }
  }

  lemma {:induction false} GraphDeps(nodes: seq<Node>, i: nat)
    requires UniqueNames(nodes) && i < |nodes|
    ensures nodes[i].name in GraphOf(nodes) && GraphOf(nodes)[nodes[i].name] == nodes[i].deps
  {
    if i < |nodes| - 1 {
      GraphDeps(nodes[..|nodes| - 1], i);
    }
  }

  /** Permuting uniquely named nodes does not change their graph. */
  lemma {:induction false} SameGraph(a: seq<Node>, b: seq<Node>)
    requires UniqueNames(a) && UniqueNames(b) && multiset(a) == multiset(b)
    ensures GraphOf(a) == GraphOf(b)
  {
    forall n ensures n in GraphOf(a) <==> n in GraphOf(b) {
      GraphNames(a, n);
      GraphNames(b, n);
      Found(a, b, n);
      Found(b, a, n);
    }
    forall n | n in GraphOf(a) ensures GraphOf(a)[n] == GraphOf(b)[n] {
      GraphNames(a, n);
      var i :| 0 <= i < |a| && a[i].name == n;
      assert a[i] in multiset(b);
      var j :| 0 <= j < |b| && b[j] == a[i];
      GraphDeps(a, i);
      GraphDeps(b, j);
    }
  }

  lemma Found(a: seq<Node>, b: seq<Node>, n: string)
    requires multiset(a) == multiset(b)
    ensures (exists i :: 0 <= i < |a| && a[i].name == n) ==> exists j :: 0 <= j < |b| && b[j].name == n
  {
    if i :| 0 <= i < |a| && a[i].name == n {
      assert a[i] in multiset(b);
      var j :| 0 <= j < |b| && b[j] == a[i];
    }
  }
}
