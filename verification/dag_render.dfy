/** The layout code of the workflow renderer, proved against the layout of the graph. */
module DagRender {
  import opened Names
  import opened Graph
  import opened DagLayout

  // ---------- the name index ----------

  ghost predicate IndexOk(nodes: seq<Node>, index: Levels) {
    && (forall k | k in index :: 0 <= index[k] < |nodes| && nodes[index[k]].name == k)
    && forall i | 0 <= i < |nodes| :: nodes[i].name in index
  }

  method BuildIndex(nodes: seq<Node>) returns (index: Levels)
    ensures IndexOk(nodes, index)
    ensures forall j | 0 <= j < |nodes| :: j <= index[nodes[j].name]
  {
    index := map[];
    for i := 0 to |nodes|
      invariant forall k | k in index :: 0 <= index[k] < i && nodes[index[k]].name == k
      invariant forall j | 0 <= j < i :: nodes[j].name in index && j <= index[nodes[j].name]
    {
      index := index[nodes[i].name := i];
    }
  }

  /** A per-node vector, read by name. */
  ghost function ByName(nodes: seq<Node>, index: Levels, v: seq<int>): Levels
    requires IndexOk(nodes, index) && |v| == |nodes|
  {
    map k | k in index :: v[index[k]]
  }

  lemma {:induction false} IndexIsGraph(nodes: seq<Node>, index: Levels, v: seq<int>)
    requires IndexOk(nodes, index) && |v| == |nodes|
    ensures index.Keys == GraphOf(nodes).Keys == ByName(nodes, index, v).Keys
    ensures UniqueNames(nodes) ==> forall i | 0 <= i < |nodes| :: index[nodes[i].name] == i && ByName(nodes, index, v)[nodes[i].name] == v[i]
  {
    forall n ensures n in GraphOf(nodes) <==> n in index {
      GraphNames(nodes, n);
      if n in index { assert nodes[index[n]].name == n; }
    }
    if UniqueNames(nodes) {
      forall i | 0 <= i < |nodes| ensures index[nodes[i].name] == i {
        assert nodes[index[nodes[i].name]].name == nodes[i].name;
      }
    }
  }

  // ---------- columns ----------

  method WantOf(nodes: seq<Node>, index: Levels, column: seq<int>, i: nat) returns (want: int)
    requires IndexOk(nodes, index) && |column| == |nodes| && i < |nodes|
    requires forall j | 0 <= j < |column| :: column[j] >= 0
    ensures want == Want(nodes[i].deps, ByName(nodes, index, column))
  {
    want := 0;
    var ds := nodes[i].deps;
    ghost var level := ByName(nodes, index, column);
    assert ds[0..] == ds;
    WantBound(ds, level);
    for k := 0 to |ds|
      invariant want >= 0
      invariant Want(ds, level) == if want > Want(ds[k..], level) then want else Want(ds[k..], level)
    {
      WantBound(ds[k..], level);
      WantBound(ds[k + 1..], level);
      assert ds[k..][1..] == ds[k + 1..];
      if ds[k] in index && column[index[ds[k]]] + 1 > want {
        want := column[index[ds[k]]] + 1;
      }
    }
  }

  /** Reached its level, or at least `r`, and not passed the level. */
  ghost predicate Reached(level: Levels, n: string, value: int, r: nat) {
    n in level && value <= level[n] && (value >= r || value == level[n])
  }

  /** After `r` rounds, and round `r + 1` up to node `i`. */
  ghost predicate Risen(nodes: seq<Node>, level: Levels, column: seq<int>, r: nat, i: nat) {
    && |column| == |nodes|
    && forall j {:trigger column[j]} | 0 <= j < |nodes| :: Reached(level, nodes[j].name, column[j], if j < i then r + 1 else r)
  }

  /** No node up to `i` wants to move. */
  ghost predicate Resting(nodes: seq<Node>, index: Levels, column: seq<int>, i: nat)
    requires IndexOk(nodes, index) && |column| == |nodes|
  {
    forall j {:trigger column[j]} | 0 <= j < i && j < |nodes| :: Want(nodes[j].deps, ByName(nodes, index, column)) <= column[j]
  }

  ghost predicate Levelled(nodes: seq<Node>, level: Levels) {
    UniqueNames(nodes) && IsLevel(GraphOf(nodes), level)
  }

  lemma WantRises(nodes: seq<Node>, index: Levels, level: Levels, column: seq<int>, r: nat, i: nat)
    requires IndexOk(nodes, index) && Levelled(nodes, level) && Risen(nodes, level, column, r, i) && i < |nodes|
    ensures Reached(level, nodes[i].name, Want(nodes[i].deps, ByName(nodes, index, column)), r + 1)
  {
    var g, n, now := GraphOf(nodes), nodes[i].name, ByName(nodes, index, column);
    IndexIsGraph(nodes, index, column);
    GraphDeps(nodes, i);
    WantBound(g[n], now);
    LevelStep(g, level, n);
    forall d | d in g[n] && d in now ensures now[d] <= level[d] < level[n] && (now[d] >= r || now[d] == level[d]) {
      assert DependsOn(g, n, d);
      assert nodes[index[d]].name == d && now[d] == column[index[d]];
    }
    if level[n] > 0 {
      var d :| DependsOn(g, n, d) && level[d] == level[n] - 1;
    }
  }

  lemma MoveRises(nodes: seq<Node>, index: Levels, level: Levels, column: seq<int>, r: nat, i: nat, want: int)
    requires IndexOk(nodes, index) && Levelled(nodes, level) && Risen(nodes, level, column, r, i) && i < |nodes|
    requires want == Want(nodes[i].deps, ByName(nodes, index, column))
    ensures Risen(nodes, level, if want > column[i] then column[i := want] else column, r, i + 1)
  {
    WantRises(nodes, index, level, column, r, i);
    var out := if want > column[i] then column[i := want] else column;
    forall j | 0 <= j < |nodes| ensures Reached(level, nodes[j].name, out[j], if j < i + 1 then r + 1 else r) {
      assert Reached(level, nodes[j].name, column[j], if j < i then r + 1 else r);
    }
  }

  /** A round that changes nothing has found the levels. */
  lemma {:induction false} RestingIsLevel(nodes: seq<Node>, index: Levels, level: Levels, column: seq<int>, i: nat, r: nat)
    requires IndexOk(nodes, index) && Levelled(nodes, level) && Risen(nodes, level, column, r, 0) && i < |nodes|
    requires Resting(nodes, index, column, |nodes|) && nodes[i].name in level
    ensures column[i] == level[nodes[i].name]
    decreases level[nodes[i].name]
  {
    var g, n, now := GraphOf(nodes), nodes[i].name, ByName(nodes, index, column);
    IndexIsGraph(nodes, index, column);
    GraphDeps(nodes, i);
    LevelStep(g, level, n);
    WantBound(g[n], now);
    assert Want(g[n], now) <= column[i] <= level[n];
    if level[n] > 0 {
      var d :| DependsOn(g, n, d) && level[d] == level[n] - 1;
      LevelStep(g, level, d);
      RestingIsLevel(nodes, index, level, column, index[d], r);
      assert now[d] == level[d];
    }
  }

  /** One round over all nodes, in place. */
  method Relax(nodes: seq<Node>, index: Levels, column0: seq<int>, ghost level: Levels, ghost r: nat) returns (column: seq<int>, changed: bool)
    requires IndexOk(nodes, index) && |column0| == |nodes| && forall i | 0 <= i < |column0| :: column0[i] >= 0
    ensures |column| == |nodes| && forall i | 0 <= i < |column| :: column[i] >= 0
    ensures !changed ==> column == column0 && Resting(nodes, index, column, |nodes|)
    ensures Levelled(nodes, level) && Risen(nodes, level, column0, r, 0) ==> Risen(nodes, level, column, r, |nodes|)
  {
    column, changed := column0, false;
    ghost var ok := Levelled(nodes, level) && Risen(nodes, level, column0, r, 0);
    for i := 0 to |nodes|
      invariant |column| == |nodes| && forall j | 0 <= j < |column| :: column[j] >= 0
      invariant !changed ==> column == column0 && Resting(nodes, index, column, i)
      invariant ok ==> Risen(nodes, level, column, r, i)
    {
      var want := WantOf(nodes, index, column, i);
      if ok { MoveRises(nodes, index, level, column, r, i, want); }
      if want > column[i] {
        column := column[i := want];
        changed := true;
      }
    }
  }

  /** Columns by iterating to a fixed point, at most once per node. */
  method Columns(nodes: seq<Node>, index: Levels, ghost level: Levels) returns (column: seq<int>)
    requires IndexOk(nodes, index)
    ensures |column| == |nodes| && forall i | 0 <= i < |column| :: column[i] >= 0
    ensures Levelled(nodes, level) ==> forall i | 0 <= i < |nodes| :: nodes[i].name in level && column[i] == level[nodes[i].name]
  {
    column := seq(|nodes|, _ => 0);
    ghost var ok := Levelled(nodes, level);
    if ok { Start(nodes, level, column); }
    var round := 0;
    var changed := true;
    while round < |nodes| && changed
      invariant 0 <= round <= |nodes| && |column| == |nodes| && forall i | 0 <= i < |column| :: column[i] >= 0
      invariant ok ==> Risen(nodes, level, column, round, 0)
      invariant !changed ==> Resting(nodes, index, column, |nodes|)
      decreases |nodes| - round
    {
      column, changed := Relax(nodes, index, column, level, round);
      if ok { NextRound(nodes, level, column, round); }
      round := round + 1;
    }
    if ok {
      forall i | 0 <= i < |nodes| ensures nodes[i].name in level && column[i] == level[nodes[i].name] {
        assert Reached(level, nodes[i].name, column[i], round);
        if changed {
          Bounded(nodes, level, i);
        } else {
          RestingIsLevel(nodes, index, level, column, i, round);
        }
      }
    }
  }

  lemma NextRound(nodes: seq<Node>, level: Levels, column: seq<int>, r: nat)
    requires Risen(nodes, level, column, r, |nodes|)
    ensures Risen(nodes, level, column, r + 1, 0)
  {
  }

  lemma Start(nodes: seq<Node>, level: Levels, column: seq<int>)
    requires Levelled(nodes, level) && |column| == |nodes| && forall i | 0 <= i < |column| :: column[i] == 0
    ensures Risen(nodes, level, column, 0, 0)
  {
    forall i | 0 <= i < |nodes| ensures nodes[i].name in level && level[nodes[i].name] >= 0 {
      GraphDeps(nodes, i);
      LevelStep(GraphOf(nodes), level, nodes[i].name);
    }
  }

  lemma Bounded(nodes: seq<Node>, level: Levels, i: nat)
    requires Levelled(nodes, level) && i < |nodes|
    ensures nodes[i].name in level && level[nodes[i].name] < |nodes|
  {
    GraphDeps(nodes, i);
    LevelsAreFew(GraphOf(nodes), level, nodes[i].name);
    FewNames(nodes);
  }

  lemma {:induction false} FewNames(nodes: seq<Node>)
    ensures |GraphOf(nodes).Keys| <= |nodes|
  {
    if nodes != [] {
      FewNames(nodes[..|nodes| - 1]);
      assert GraphOf(nodes).Keys == GraphOf(nodes[..|nodes| - 1]).Keys + {nodes[|nodes| - 1].name};
    }
  }

  method Depth(column: seq<int>) returns (depth: int)
    requires forall i | 0 <= i < |column| :: column[i] >= 0
    ensures depth >= 0 && forall i | 0 <= i < |column| :: column[i] < depth
    ensures depth > 0 ==> exists i :: 0 <= i < |column| && column[i] == depth - 1
  {
    depth := 0;
    for i := 0 to |column|
      invariant depth >= 0 && forall j | 0 <= j < i :: column[j] < depth
      invariant depth > 0 ==> exists j :: 0 <= j < i && column[j] == depth - 1
    {
      if column[i] + 1 > depth {
        depth := column[i] + 1;
      }
    }
  }

  predicate Distinct(s: seq<int>) {
    forall i, j | 0 <= i < j < |s| :: s[i] != s[j]
  }

  /** Column `c` holds the nodes below `i` that belong there. */
  ghost predicate Holds(column: seq<int>, c: int, i: int, col: seq<int>) {
    Distinct(col) && forall x :: x in col <==> 0 <= x < i && x < |column| && column[x] == c
  }

  predicate Below(col: seq<int>, n: int) {
    forall i | 0 <= i < |col| :: col[i] < n
  }

  predicate Increasing(col: seq<int>) {
    forall i, j | 0 <= i < j < |col| :: col[i] < col[j]
  }

  method Group(column: seq<int>, depth: int) returns (columns: seq<seq<int>>)
    requires depth >= 0 && forall i | 0 <= i < |column| :: 0 <= column[i] < depth
    ensures |columns| == depth && forall c | 0 <= c < depth :: Holds(column, c, |column|, columns[c])
    ensures forall c | 0 <= c < depth :: Increasing(columns[c])
  {
    columns := seq(depth, _ => []);
    for i := 0 to |column|
      invariant |columns| == depth && forall c | 0 <= c < depth :: Holds(column, c, i, columns[c])
      invariant forall c | 0 <= c < depth :: Increasing(columns[c]) && Below(columns[c], i)
    {
      var c := column[i];
      assert Holds(column, c, i, columns[c]);
      columns := columns[c := columns[c] + [i]];
    }
  }

  // ---------- rows ----------

  predicate InRange(n: int, s: seq<int>) {
    forall i | 0 <= i < |s| :: 0 <= s[i] < n
  }

  /** Insert behind every element whose key is not larger. */
  function InsertBy(keys: seq<Key>, x: int, s: seq<int>): seq<int>
    requires 0 <= x < |keys| && InRange(|keys|, s)
  {
    if s == [] then [x]
    else if KeyLess(keys[x], keys[s[0]]) then [x] + s
    else [s[0]] + InsertBy(keys, x, s[1..])
  }

  ghost predicate KeySorted(keys: seq<Key>, s: seq<int>) {
    InRange(|keys|, s) && forall i, j | 0 <= i < j < |s| :: KeyLess(keys[s[i]], keys[s[j]])
  }

  /** The nodes' keys carry distinct names. */
  ghost predicate DistinctKeys(keys: seq<Key>) {
    forall i, j | 0 <= i < j < |keys| :: keys[i].1 != keys[j].1
  }

  lemma {:induction false} InsertHolds(keys: seq<Key>, x: int, s: seq<int>)
    requires 0 <= x < |keys| && InRange(|keys|, s)
    ensures forall y :: y in InsertBy(keys, x, s) <==> y == x || y in s
    ensures |InsertBy(keys, x, s)| == |s| + 1 && InRange(|keys|, InsertBy(keys, x, s))
  {
    if s != [] && !KeyLess(keys[x], keys[s[0]]) {
      InsertHolds(keys, x, s[1..]);
      assert s == [s[0]] + s[1..];
    }
  }

  lemma KeyTrans(a: Key, b: Key, c: Key)
    requires KeyLess(a, b) && KeyLess(b, c)
    ensures KeyLess(a, c)
  {
    if a.0 == b.0 == c.0 { LessTrans(a.1, b.1, c.1); }
  }

  lemma KeyTotal(a: Key, b: Key)
    requires a.1 != b.1
    ensures KeyLess(a, b) || KeyLess(b, a)
  {
    LessTotal(a.1, b.1);
  }

  lemma {:induction false} InsertSorted(keys: seq<Key>, x: int, s: seq<int>)
    requires 0 <= x < |keys| && DistinctKeys(keys) && KeySorted(keys, s) && x !in s
    ensures KeySorted(keys, InsertBy(keys, x, s))
  {
    InsertHolds(keys, x, s);
    if s != [] {
      if KeyLess(keys[x], keys[s[0]]) {
        forall j | 1 <= j < |s| ensures KeyLess(keys[x], keys[s[j]]) { KeyTrans(keys[x], keys[s[0]], keys[s[j]]); }
      } else {
        KeyTotal(keys[x], keys[s[0]]);
        InsertSorted(keys, x, s[1..]);
        InsertHolds(keys, x, s[1..]);
        var rest := InsertBy(keys, x, s[1..]);
        forall j | 0 <= j < |rest| ensures KeyLess(keys[s[0]], keys[rest[j]]) { assert rest[j] in rest; }
      }
    }
  }

  method SortBy(keys: seq<Key>, col: seq<int>) returns (sorted: seq<int>)
    requires InRange(|keys|, col)
    ensures |sorted| == |col| && InRange(|keys|, sorted) && forall y :: y in sorted <==> y in col
    ensures DistinctKeys(keys) && Distinct(col) ==> KeySorted(keys, sorted)
  {
    sorted := [];
    for i := 0 to |col|
      invariant |sorted| == i && InRange(|keys|, sorted) && forall y :: y in sorted <==> y in col[..i]
      invariant DistinctKeys(keys) && Distinct(col) ==> KeySorted(keys, sorted)
    {
      assert col[..i + 1] == col[..i] + [col[i]];
      InsertHolds(keys, col[i], sorted);
      if DistinctKeys(keys) && Distinct(col) { InsertSorted(keys, col[i], sorted); }
      sorted := InsertBy(keys, col[i], sorted);
    }
    assert col[..|col|] == col;
  }

  method KeyAt(nodes: seq<Node>, index: Levels, rowOf: seq<int>, i: nat) returns (key: Key)
    requires IndexOk(nodes, index) && |rowOf| == |nodes| && i < |nodes|
    ensures key == (Barycenter(nodes[i].deps, ByName(nodes, index, rowOf)), nodes[i].name)
  {
    var sum, count := 0, 0;
    var ds := nodes[i].deps;
    ghost var rows := ByName(nodes, index, rowOf);
    assert ds[0..] == ds;
    for k := 0 to |ds|
      invariant RowSum(ds, rows) == (sum + RowSum(ds[k..], rows).0, count + RowSum(ds[k..], rows).1) && count >= 0
    {
      assert ds[k..][1..] == ds[k + 1..];
      if ds[k] in index {
        sum := sum + rowOf[index[ds[k]]];
        count := count + 1;
      }
    }
    key := (if count == 0 then NO_PREDECESSORS else sum * 1000 / count, nodes[i].name);
  }

  ghost predicate KeysOf(nodes: seq<Node>, index: Levels, rowOf: seq<int>, keys: seq<Key>)
    requires IndexOk(nodes, index) && |rowOf| == |nodes|
  {
    |keys| == |nodes| && forall j | 0 <= j < |keys| :: keys[j] == (Barycenter(nodes[j].deps, ByName(nodes, index, rowOf)), nodes[j].name)
  }

  /** Sort one column and number its rows. */
  method OrderColumn(nodes: seq<Node>, index: Levels, rowOf0: seq<int>, col: seq<int>)
    returns (sorted: seq<int>, rowOf: seq<int>, ghost keys: seq<Key>)
    requires IndexOk(nodes, index) && |rowOf0| == |nodes| && InRange(|nodes|, col)
    ensures |rowOf| == |nodes| && InRange(|nodes|, sorted) && |sorted| == |col| && forall y :: y in sorted <==> y in col
    ensures KeysOf(nodes, index, rowOf0, keys)
    ensures UniqueNames(nodes) && Distinct(col) ==> KeySorted(keys, sorted)
    ensures Distinct(sorted) ==> forall r | 0 <= r < |sorted| :: rowOf[sorted[r]] == r
    ensures forall x | 0 <= x < |nodes| && x !in col :: rowOf[x] == rowOf0[x]
  {
    var ks: seq<Key> := [];
    for j := 0 to |nodes|
      invariant |ks| == j && forall i | 0 <= i < j :: ks[i] == (Barycenter(nodes[i].deps, ByName(nodes, index, rowOf0)), nodes[i].name)
    {
      var key := KeyAt(nodes, index, rowOf0, j);
      ks := ks + [key];
    }
    keys := ks;
    sorted := SortBy(ks, col);
    rowOf := rowOf0;
    for r := 0 to |sorted|
      invariant |rowOf| == |nodes|
      invariant Distinct(sorted) ==> forall q | 0 <= q < r :: rowOf[sorted[q]] == q
      invariant forall x | 0 <= x < |nodes| && x !in col :: rowOf[x] == rowOf0[x]
    {
      assert sorted[r] in sorted;
      rowOf := rowOf[sorted[r] := r];
    }
  }

  function NamesOf(nodes: seq<Node>, col: seq<int>): (names: seq<string>)
    requires InRange(|nodes|, col)
  {
    seq(|col|, i requires 0 <= i < |col| => nodes[col[i]].name)
  }

  // ---------- a sorted column is a column of the layout ----------

  lemma SortedIsDistinct(keys: seq<Key>, s: seq<int>)
    requires KeySorted(keys, s)
    ensures Distinct(s)
  {
    forall i, j | 0 <= i < j < |s| ensures s[i] != s[j] { KeyAsym(keys[s[i]], keys[s[j]]); }
  }

  /** Rows agree on every step to the left of column `c`. */
  ghost predicate SameLeft(g: Deps, level: Levels, a: Levels, b: Levels, c: int)
    requires level.Keys == g.Keys == a.Keys == b.Keys
  {
    forall n | n in g && level[n] < c :: a[n] == b[n]
  }

  lemma KeyStable(g: Deps, level: Levels, a: Levels, b: Levels, c: int, n: string)
    requires IsLevel(g, level) && g.Keys == a.Keys == b.Keys && SameLeft(g, level, a, b, c) && n in g && level[n] <= c
    ensures KeyOf(g, a, n) == KeyOf(g, b, n)
  {
    LevelStep(g, level, n);
    forall d | d in g[n] && d in g ensures a[d] == b[d] { assert DependsOn(g, n, d); }
    RowSumSame(g[n], a, b);
  }

  lemma OldColumn(g: Deps, level: Levels, a: Levels, b: Levels, c: nat, k: nat, col: seq<string>)
    requires IsLevel(g, level) && g.Keys == a.Keys == b.Keys && SameLeft(g, level, a, b, c) && k < c && IsColumn(g, level, a, k, col)
    ensures IsColumn(g, level, b, k, col)
  {
    forall i | 0 <= i < |col| ensures col[i] in g && level[col[i]] == k && KeyOf(g, a, col[i]) == KeyOf(g, b, col[i]) {
      assert col[i] in col;
      KeyStable(g, level, a, b, c, col[i]);
    }
  }

  lemma {:induction false} NewColumn(nodes: seq<Node>, index: Levels, level: Levels, column: seq<int>, rowOf0: seq<int>, rowOf: seq<int>, keys: seq<Key>, c: nat, col: seq<int>, sorted: seq<int>)
    requires IndexOk(nodes, index) && Levelled(nodes, level) && |rowOf0| == |rowOf| == |nodes| == |column|
    requires forall i | 0 <= i < |nodes| :: nodes[i].name in level && column[i] == level[nodes[i].name]
    requires Holds(column, c, |column|, col) && InRange(|nodes|, sorted) && forall y :: y in sorted <==> y in col
    requires KeysOf(nodes, index, rowOf0, keys) && KeySorted(keys, sorted)
    requires forall r | 0 <= r < |sorted| :: rowOf[sorted[r]] == r
    requires forall x | 0 <= x < |nodes| && x !in col :: rowOf[x] == rowOf0[x]
    ensures ByName(nodes, index, rowOf).Keys == GraphOf(nodes).Keys == ByName(nodes, index, rowOf0).Keys
    ensures SameLeft(GraphOf(nodes), level, ByName(nodes, index, rowOf0), ByName(nodes, index, rowOf), c)
    ensures IsColumn(GraphOf(nodes), level, ByName(nodes, index, rowOf), c, NamesOf(nodes, sorted))
  {
    var g, a, b := GraphOf(nodes), ByName(nodes, index, rowOf0), ByName(nodes, index, rowOf);
    IndexIsGraph(nodes, index, rowOf0);
    IndexIsGraph(nodes, index, rowOf);
    forall n | n in g && level[n] < c ensures a[n] == b[n] {
      assert nodes[index[n]].name == n && index[n] !in col;
    }
    var names := NamesOf(nodes, sorted);
    ColumnNames(nodes, index, level, column, c, col, sorted);
    forall i | 0 <= i < |names| ensures keys[sorted[i]] == KeyOf(g, b, names[i]) {
      GraphDeps(nodes, sorted[i]);
      assert names[i] in names;
      KeyStable(g, level, a, b, c, names[i]);
    }
  }

  lemma {:induction false} ColumnNames(nodes: seq<Node>, index: Levels, level: Levels, column: seq<int>, c: nat, col: seq<int>, sorted: seq<int>)
    requires IndexOk(nodes, index) && Levelled(nodes, level) && |nodes| == |column|
    requires forall i | 0 <= i < |nodes| :: nodes[i].name in level && column[i] == level[nodes[i].name]
    requires Holds(column, c, |column|, col) && InRange(|nodes|, sorted) && forall y :: y in sorted <==> y in col
    ensures forall n :: n in NamesOf(nodes, sorted) <==> n in GraphOf(nodes) && level[n] == c
  {
    var g, names := GraphOf(nodes), NamesOf(nodes, sorted);
    forall i | 0 <= i < |names| ensures names[i] in g && level[names[i]] == c {
      assert sorted[i] in sorted;
      GraphDeps(nodes, sorted[i]);
    }
    forall n | n in g && level[n] == c ensures n in names {
      IndexIsGraph(nodes, index, column);
      Placed(nodes, column, c, col, sorted, index[n]);
    }
  }

  lemma Placed(nodes: seq<Node>, column: seq<int>, c: nat, col: seq<int>, sorted: seq<int>, x: int)
    requires |nodes| == |column| && 0 <= x < |nodes| && column[x] == c
    requires Holds(column, c, |column|, col) && InRange(|nodes|, sorted) && forall y :: y in sorted <==> y in col
    ensures nodes[x].name in NamesOf(nodes, sorted)
  {
    assert x in sorted;
    var i :| 0 <= i < |sorted| && sorted[i] == x;
    assert NamesOf(nodes, sorted)[i] == nodes[x].name;
  }

  // ---------- the layout ----------

  /** The columns sorted so far. */
  ghost predicate Ordered(nodes: seq<Node>, index: Levels, level: Levels, rowOf: seq<int>, columns: seq<seq<int>>, c: nat)
    requires IndexOk(nodes, index) && level.Keys == GraphOf(nodes).Keys && |rowOf| == |nodes| && c <= |columns|
    requires forall k | 0 <= k < |columns| :: InRange(|nodes|, columns[k])
  {
    forall k | 0 <= k < c :: IsColumn(GraphOf(nodes), level, ByName(nodes, index, rowOf), k, NamesOf(nodes, columns[k]))
  }

  /** Barycenter pass: each column in turn, by the rows already given to its predecessors. */
  method OrderRows(nodes: seq<Node>, index: Levels, column: seq<int>, columns0: seq<seq<int>>, ghost level: Levels)
    returns (columns: seq<seq<int>>, rowOf: seq<int>)
    requires IndexOk(nodes, index) && |column| == |nodes|
    requires forall c | 0 <= c < |columns0| :: InRange(|nodes|, columns0[c]) && Holds(column, c, |column|, columns0[c])
    requires Levelled(nodes, level) ==> forall i | 0 <= i < |nodes| :: nodes[i].name in level && column[i] == level[nodes[i].name]
    ensures |rowOf| == |nodes| && |columns| == |columns0|
    ensures forall c | 0 <= c < |columns| :: InRange(|nodes|, columns[c]) && |columns[c]| == |columns0[c]|
    ensures Levelled(nodes, level) ==> Ordered(nodes, index, level, rowOf, columns, |columns|)
  {
    columns := columns0;
    rowOf := seq(|nodes|, _ => 0);
    ghost var ok := Levelled(nodes, level);
    for c := 0 to |columns0|
      invariant |columns| == |columns0| && |rowOf| == |nodes|
      invariant forall k | 0 <= k < |columns| :: InRange(|nodes|, columns[k]) && |columns[k]| == |columns0[k]|
      invariant forall k | c <= k < |columns| :: columns[k] == columns0[k]
      invariant ok ==> Ordered(nodes, index, level, rowOf, columns, c)
    {
      var sorted, rows, keys := OrderColumn(nodes, index, rowOf, columns[c]);
      if ok {
        SortedIsDistinct(keys, sorted);
        NewColumn(nodes, index, level, column, rowOf, rows, keys, c, columns[c], sorted);
        KeepColumns(nodes, index, level, rowOf, rows, columns, c, sorted);
      }
      columns, rowOf := columns[c := sorted], rows;
    }
  }

  lemma {:induction false} KeepColumns(nodes: seq<Node>, index: Levels, level: Levels, rowOf0: seq<int>, rowOf: seq<int>, columns: seq<seq<int>>, c: nat, sorted: seq<int>)
    requires IndexOk(nodes, index) && Levelled(nodes, level) && |rowOf0| == |rowOf| == |nodes| && c < |columns|
    requires (forall k | 0 <= k < |columns| :: InRange(|nodes|, columns[k])) && InRange(|nodes|, sorted)
    requires Ordered(nodes, index, level, rowOf0, columns, c)
    requires ByName(nodes, index, rowOf).Keys == GraphOf(nodes).Keys == ByName(nodes, index, rowOf0).Keys
    requires SameLeft(GraphOf(nodes), level, ByName(nodes, index, rowOf0), ByName(nodes, index, rowOf), c)
    requires IsColumn(GraphOf(nodes), level, ByName(nodes, index, rowOf), c, NamesOf(nodes, sorted))
    ensures Ordered(nodes, index, level, rowOf, columns[c := sorted], c + 1)
  {
    forall k | 0 <= k < c ensures IsColumn(GraphOf(nodes), level, ByName(nodes, index, rowOf), k, NamesOf(nodes, columns[k])) {
      OldColumn(GraphOf(nodes), level, ByName(nodes, index, rowOf0), ByName(nodes, index, rowOf), c, k, NamesOf(nodes, columns[k]));
    }
  }

  function AllNames(nodes: seq<Node>, columns: seq<seq<int>>): seq<seq<string>>
    requires forall c | 0 <= c < |columns| :: InRange(|nodes|, columns[c])
  {
    seq(|columns|, c requires 0 <= c < |columns| => NamesOf(nodes, columns[c]))
  }

  /** On an acyclic graph of uniquely named steps the columns are the layout of the graph. */
  method Layout(nodes: seq<Node>) returns (columns: seq<seq<int>>, ghost level: Levels, ghost rows: Levels)
    ensures forall c | 0 <= c < |columns| :: InRange(|nodes|, columns[c])
    ensures UniqueNames(nodes) && Acyclic(GraphOf(nodes)) ==> IsLayout(GraphOf(nodes), level, rows, AllNames(nodes, columns))
  {
    ghost var ok := UniqueNames(nodes) && Acyclic(GraphOf(nodes));
    level := map[];
    if ok { level := LevelsExist(GraphOf(nodes)); }
    var index := BuildIndex(nodes);
    var column := Columns(nodes, index, level);
    var depth := Depth(column);
    var grouped := Group(column, depth);
    forall c | 0 <= c < |grouped| ensures InRange(|nodes|, grouped[c]) { GroupInRange(column, c, grouped[c]); }
    var rowOf;
    columns, rowOf := OrderRows(nodes, index, column, grouped, level);
    rows := ByName(nodes, index, rowOf);
    if ok { Assembled(nodes, index, level, rowOf, column, grouped, columns); }
  }

  lemma GroupInRange(column: seq<int>, c: int, col: seq<int>)
    requires Holds(column, c, |column|, col)
    ensures InRange(|column|, col)
  {
    forall i | 0 <= i < |col| ensures 0 <= col[i] < |column| { assert col[i] in col; }
  }

  lemma {:induction false} Assembled(nodes: seq<Node>, index: Levels, level: Levels, rowOf: seq<int>, column: seq<int>, grouped: seq<seq<int>>, columns: seq<seq<int>>)
    requires IndexOk(nodes, index) && Levelled(nodes, level) && |rowOf| == |nodes| == |column|
    requires forall i | 0 <= i < |nodes| :: nodes[i].name in level && column[i] == level[nodes[i].name] && column[i] < |columns|
    requires |grouped| == |columns| && forall c | 0 <= c < |columns| :: InRange(|nodes|, columns[c]) && |columns[c]| == |grouped[c]|
    requires forall c | 0 <= c < |grouped| :: Holds(column, c, |column|, grouped[c])
    requires |columns| > 0 ==> exists i :: 0 <= i < |column| && column[i] == |columns| - 1
    requires Ordered(nodes, index, level, rowOf, columns, |columns|)
    ensures IsLayout(GraphOf(nodes), level, ByName(nodes, index, rowOf), AllNames(nodes, columns))
  {
    var g, rows, cols := GraphOf(nodes), ByName(nodes, index, rowOf), AllNames(nodes, columns);
    IndexIsGraph(nodes, index, rowOf);
    forall n | n in g ensures level[n] < |cols| { assert nodes[index[n]].name == n; }
    if cols != [] {
      var last := |columns| - 1;
      var i :| 0 <= i < |column| && column[i] == last;
      assert Holds(column, last, |column|, grouped[last]);
      assert i in grouped[last];
    }
    forall c | 0 <= c < |cols| ensures IsColumn(g, level, rows, c, cols[c]) {
      assert cols[c] == NamesOf(nodes, columns[c]);
    }
  }

  /** The drawing does not depend on the order the steps are listed in. */
  lemma {:induction false} LayoutIgnoresInputOrder(a: seq<Node>, b: seq<Node>, ca: seq<seq<int>>, la: Levels, ra: Levels, cb: seq<seq<int>>, lb: Levels, rb: Levels)
    requires UniqueNames(a) && UniqueNames(b) && multiset(a) == multiset(b)
    requires (forall c | 0 <= c < |ca| :: InRange(|a|, ca[c])) && forall c | 0 <= c < |cb| :: InRange(|b|, cb[c])
    requires IsLayout(GraphOf(a), la, ra, AllNames(a, ca)) && IsLayout(GraphOf(b), lb, rb, AllNames(b, cb))
    ensures AllNames(a, ca) == AllNames(b, cb)
  {
    SameGraph(a, b);
    LayoutOnce(GraphOf(a), la, ra, AllNames(a, ca), lb, rb, AllNames(b, cb));
  }
}
