/** Dependency relations: who depends on whom, cycles, and peeling. A dependency on a name that is not
    itself listed is not an edge. */
module Graph {
  import opened Names

  type Deps = map<string, seq<string>>

  predicate DependsOn(g: Deps, a: string, b: string) {
    a in g && b in g && b in g[a]
  }

  /** Each name directly depends on the next. */
  ghost predicate Path(g: Deps, p: seq<string>) {
    p != [] && p[0] in g && forall i | 0 <= i < |p| - 1 :: DependsOn(g, p[i], p[i + 1])
  }

  ghost predicate PathBetween(g: Deps, p: seq<string>, a: string, b: string) {
    Path(g, p) && p[0] == a && p[|p| - 1] == b
  }

  ghost predicate OnCycle(g: Deps, c: string) {
    exists p :: PathBetween(g, p, c, c) && |p| >= 2
  }

  ghost predicate NeedsCycle(g: Deps, n: string) {
    exists p, c :: PathBetween(g, p, n, c) && OnCycle(g, c)
  }

  ghost predicate Acyclic(g: Deps) {
    forall c | c in g :: !OnCycle(g, c)
  }

  /** Every name comes after everything it depends on. */
  ghost predicate Peeled(g: Deps, order: seq<string>) {
    forall i, d | 0 <= i < |order| && DependsOn(g, order[i], d) :: d in order[..i]
  }

  predicate NoDup(s: seq<string>) {
    forall i, j | 0 <= i < j < |s| :: s[i] != s[j]
  }

  // ---------- peeled names are clear of cycles ----------

  /** From a peeled name every path leads to an earlier position. */
  lemma {:induction false} PathGoesBack(g: Deps, order: seq<string>, p: seq<string>, i: nat) returns (j: nat)
    requires Peeled(g, order) && Path(g, p) && i < |order| && order[i] == p[0]
    ensures j <= i && order[j] == p[|p| - 1] && (|p| >= 2 ==> j < i)
    decreases |p|
  {
    if |p| == 1 {
      j := i;
    } else {
      assert DependsOn(g, p[0], p[1]);
      var k :| 0 <= k < i && order[k] == p[1];
      PathSlice(g, p, 1, |p|);
      j := PathGoesBack(g, order, p[1..|p|], k);
    }
  }

  /** A name on a cycle has no least position. */
  lemma {:induction false} NotOnCycle(g: Deps, order: seq<string>, i: nat)
    requires Peeled(g, order) && i < |order|
    ensures !OnCycle(g, order[i])
  {
    forall p | PathBetween(g, p, order[i], order[i]) ensures |p| < 2 {
      if |p| >= 2 {
        var j := PathGoesBack(g, order, p, i);
        NotOnCycle(g, order, j);
      }
    }
  }

  lemma PeeledIsClear(g: Deps, order: seq<string>, n: string)
    requires Peeled(g, order) && n in order
    ensures !NeedsCycle(g, n)
  {
    var i :| 0 <= i < |order| && order[i] == n;
    forall p, c | PathBetween(g, p, n, c) ensures !OnCycle(g, c) {
      var j := PathGoesBack(g, order, p, i);
      NotOnCycle(g, order, j);
    }
  }

  // ---------- what cannot be peeled needs a cycle ----------

  /** Every name of `s` depends on a name of `s`. */
  ghost predicate Stuck(g: Deps, s: set<string>) {
    s <= g.Keys && forall n {:trigger NeedsOneOf(g, n, s)} | n in s :: NeedsOneOf(g, n, s)
  }

  ghost predicate NeedsOneOf(g: Deps, n: string, s: set<string>) {
    exists d :: d in s && DependsOn(g, n, d)
  }

  lemma PathExtend(g: Deps, p: seq<string>, d: string)
    requires Path(g, p) && DependsOn(g, p[|p| - 1], d)
    ensures Path(g, p + [d])
  {
  }

  lemma PathSlice(g: Deps, p: seq<string>, i: nat, j: nat)
    requires Path(g, p) && i < j <= |p|
    ensures Path(g, p[i..j])
  {
    assert i > 0 ==> DependsOn(g, p[i - 1], p[i]);
    forall k | 0 <= k < |p[i..j]| - 1 ensures DependsOn(g, p[i..j][k], p[i..j][k + 1]) {
      assert DependsOn(g, p[i + k], p[i + k + 1]);
    }
  }

  lemma ClosesCycle(g: Deps, p: seq<string>, i: nat)
    requires Path(g, p) && i < |p| && DependsOn(g, p[|p| - 1], p[i])
    ensures NeedsCycle(g, p[0])
  {
    var d := p[i];
    PathExtend(g, p, d);
    PathSlice(g, p + [d], i, |p| + 1);
    var round := (p + [d])[i..|p| + 1];
    assert PathBetween(g, round, d, d) && |round| >= 2;
    assert OnCycle(g, d);
    PathSlice(g, p, 0, i + 1);
    assert PathBetween(g, p[0..i + 1], p[0], d);
  }

  /** Walk inside a stuck set until a name comes round again. */
  lemma {:induction false} WalkFindsCycle(g: Deps, s: set<string>, p: seq<string>)
    requires Stuck(g, s) && Path(g, p) && NoDup(p) && forall n | n in p :: n in s
    ensures NeedsCycle(g, p[0])
    decreases |s - ToSet(p)|
  {
    var last := p[|p| - 1];
    assert NeedsOneOf(g, last, s);
    var d :| d in s && DependsOn(g, last, d);
    PathExtend(g, p, d);
    if d in p {
      var i :| 0 <= i < |p| && p[i] == d;
      ClosesCycle(g, p, i);
    } else {
      WalkShrinks(s, p, d);
      WalkFindsCycle(g, s, p + [d]);
    }
  }

  lemma WalkShrinks(s: set<string>, p: seq<string>, d: string)
    requires d in s && d !in p
    ensures |s - ToSet(p + [d])| < |s - ToSet(p)| && (NoDup(p) ==> NoDup(p + [d]))
  {
    assert ToSet(p + [d]) == ToSet(p) + {d};
    assert s - ToSet(p + [d]) == (s - ToSet(p)) - {d};
  }

  lemma StuckNeedsCycle(g: Deps, s: set<string>, n: string)
    requires Stuck(g, s) && n in s
    ensures NeedsCycle(g, n)
  {
    WalkFindsCycle(g, s, [n]);
  }

  function Restrict(g: Deps, keep: set<string>): Deps {
    map n | n in g && n in keep :: g[n]
  }

  lemma CycleLifts(g: Deps, keep: set<string>, c: string)
    requires OnCycle(Restrict(g, keep), c)
    ensures OnCycle(g, c)
  {
    var h := Restrict(g, keep);
    var p :| PathBetween(h, p, c, c) && |p| >= 2;
    forall i | 0 <= i < |p| - 1 ensures DependsOn(g, p[i], p[i + 1]) { assert DependsOn(h, p[i], p[i + 1]); }
    assert PathBetween(g, p, c, c);
  }

  /** Dropping names (and so their edges) makes no new cycle. */
  lemma RestrictAcyclic(g: Deps, keep: set<string>)
    requires Acyclic(g)
    ensures Acyclic(Restrict(g, keep))
  {
    forall c | OnCycle(Restrict(g, keep), c) ensures OnCycle(g, c) { CycleLifts(g, keep, c); }
  }

  lemma AcyclicNeedsNone(g: Deps, n: string)
    requires Acyclic(g)
    ensures !NeedsCycle(g, n)
  {
    forall p, c | PathBetween(g, p, n, c) ensures c in g {
      assert |p| >= 2 ==> DependsOn(g, p[|p| - 2], p[|p| - 1]);
    }
  }
}
