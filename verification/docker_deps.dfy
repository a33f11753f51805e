/** The `dependsOn` graph of docker apps: validation when the config is loaded, start order in dev. */
module DockerDeps {
  import opened Names
  import opened Graph

  // ---------- in-degrees and reverse edges ----------

  /** How many entries of a dependency list name a listed app that is not done yet. */
  function Waiting(ds: seq<string>, known: set<string>, done: set<string>): nat {
    if ds == [] then 0
    else (if ds[0] in known && ds[0] !in done then 1 else 0) + Waiting(ds[1..], known, done)
  }

  lemma {:induction false} WaitingSnoc(ds: seq<string>, k: nat, known: set<string>, done: set<string>)
    requires k < |ds|
    ensures Waiting(ds[..k + 1], known, done)
         == Waiting(ds[..k], known, done) + if ds[k] in known && ds[k] !in done then 1 else 0
  {
    if k == 0 {
      assert ds[..1][1..] == [];
    } else {
      WaitingSnoc(ds[1..], k - 1, known, done);
      assert ds[..k + 1][1..] == ds[1..][..k] && ds[..k][1..] == ds[1..][..k - 1];
    }
  }

  /** When an app is done, each entry naming it stops waiting. */
  lemma {:induction false} WaitingDone(ds: seq<string>, known: set<string>, done: set<string>, n: string)
    requires n in known && n !in done
    ensures Waiting(ds, known, done) == Waiting(ds, known, done + {n}) + multiset(ds)[n]
  {
    if ds != [] {
      WaitingDone(ds[1..], known, done, n);
      assert ds == [ds[0]] + ds[1..];
    }
  }

  lemma {:induction false} WaitingZero(ds: seq<string>, known: set<string>, done: set<string>)
    ensures Waiting(ds, known, done) == 0 <==> forall d | d in ds && d in known :: d in done
  {
    if ds != [] {
      WaitingZero(ds[1..], known, done);
      assert ds == [ds[0]] + ds[1..];
    }
  }

  type Counts = map<string, int>

  /** App `m` stands in the reverse edges once for each entry of `ds`. */
  ghost predicate EnteredFor(g: Deps, edges: Deps, m: string, ds: seq<string>)
    requires edges.Keys == g.Keys
  {
    forall n {:trigger multiset(edges[n])} | n in g :: multiset(edges[n])[m] == multiset(ds)[n]
  }

  ghost predicate Closed(g: Deps, edges: Deps) {
    edges.Keys == g.Keys && forall n | n in g :: forall m | m in edges[n] :: m in g
  }

  /** Reverse edges and in-degrees, with the dependency lists in `entered` taken in so far. */
  ghost predicate Entered(g: Deps, entered: Deps, indegree: Counts, edges: Deps) {
    && indegree.Keys == g.Keys == entered.Keys && Closed(g, edges)
    && (forall m {:trigger EnteredFor(g, edges, m, entered[m])} | m in g :: EnteredFor(g, edges, m, entered[m]))
    && forall m {:trigger indegree[m]} | m in g :: indegree[m] == Waiting(entered[m], g.Keys, {})
  }

  lemma EdgeForOthers(g: Deps, edges: Deps, name: string, d: string, m: string, ds: seq<string>)
    requires Closed(g, edges) && d in g && m != name && EnteredFor(g, edges, m, ds)
    ensures EnteredFor(g, edges[d := edges[d] + [name]], m, ds)
  {
    var edges' := edges[d := edges[d] + [name]];
    forall n | n in g ensures multiset(edges'[n])[m] == multiset(ds)[n] {
      assert multiset(edges[n])[m] == multiset(ds)[n];
      if n == d { assert multiset(edges'[d]) == multiset(edges[d]) + multiset{name}; }
    }
  }

  lemma EdgeForName(g: Deps, edges: Deps, name: string, d: string, ds: seq<string>)
    requires Closed(g, edges) && d in g && EnteredFor(g, edges, name, ds)
    ensures EnteredFor(g, edges[d := edges[d] + [name]], name, ds + [d])
  {
    var edges' := edges[d := edges[d] + [name]];
    forall n | n in g ensures multiset(edges'[n])[name] == multiset(ds + [d])[n] {
      assert multiset(edges[n])[name] == multiset(ds)[n];
      if n == d { assert multiset(edges'[d]) == multiset(edges[d]) + multiset{name}; }
    }
  }

  lemma EdgeFor(g: Deps, edges: Deps, name: string, d: string, m: string, ds: seq<string>)
    requires Closed(g, edges) && d in g && EnteredFor(g, edges, m, ds)
    ensures EnteredFor(g, edges[d := edges[d] + [name]], m, if m == name then ds + [d] else ds)
  {
    if m == name { EdgeForName(g, edges, name, d, ds); } else { EdgeForOthers(g, edges, name, d, m, ds); }
  }

  lemma EdgeSkipped(g: Deps, edges: Deps, name: string, d: string, ds: seq<string>)
    requires Closed(g, edges) && d !in g && EnteredFor(g, edges, name, ds)
    ensures EnteredFor(g, edges, name, ds + [d])
  {
  }

  lemma {:induction false} WaitingAppend(ds: seq<string>, d: string, known: set<string>, done: set<string>)
    ensures Waiting(ds + [d], known, done) == Waiting(ds, known, done) + if d in known && d !in done then 1 else 0
  {
    WaitingSnoc(ds + [d], |ds|, known, done);
    assert (ds + [d])[..|ds|] == ds && (ds + [d])[..|ds| + 1] == ds + [d];
  }

  lemma ClosedTaken(g: Deps, edges: Deps, name: string, d: string)
    requires Closed(g, edges) && name in g && d in g
    ensures Closed(g, edges[d := edges[d] + [name]])
  {
    var edges' := edges[d := edges[d] + [name]];
    forall n, m | n in g && m in edges'[n] ensures m in g {
      assert m in edges[n] || m == name;
    }
  }

  lemma CountsTaken(g: Deps, name: string, d: string, indegree: Counts, edges: Deps, entered: Deps)
    requires name in g && d in g && Entered(g, entered, indegree, edges)
    ensures var indegree', entered' := indegree[name := indegree[name] + 1], entered[name := entered[name] + [d]];
      forall m {:trigger indegree'[m]} | m in g :: indegree'[m] == Waiting(entered'[m], g.Keys, {})
  {
    WaitingAppend(entered[name], d, g.Keys, {});
  }

  lemma EntryTaken(g: Deps, name: string, d: string, indegree: Counts, edges: Deps, entered: Deps)
    requires name in g && d in g && Entered(g, entered, indegree, edges)
    ensures Entered(g, entered[name := entered[name] + [d]], indegree[name := indegree[name] + 1], edges[d := edges[d] + [name]])
  {
    var edges' := edges[d := edges[d] + [name]];
    ClosedTaken(g, edges, name, d);
    CountsTaken(g, name, d, indegree, edges, entered);
    forall m | m in g ensures EnteredFor(g, edges', m, entered[name := entered[name] + [d]][m]) {
      assert EnteredFor(g, edges, m, entered[m]);
      EdgeFor(g, edges, name, d, m, entered[m]);
    }
  }

  lemma EntrySkipped(g: Deps, name: string, d: string, indegree: Counts, edges: Deps, entered: Deps)
    requires name in g && d !in g && Entered(g, entered, indegree, edges)
    ensures Entered(g, entered[name := entered[name] + [d]], indegree, edges)
  {
    WaitingAppend(entered[name], d, g.Keys, {});
    assert EnteredFor(g, edges, name, entered[name]);
    EdgeSkipped(g, edges, name, d, entered[name]);
    forall m | m in g ensures EnteredFor(g, edges, m, entered[name := entered[name] + [d]][m]) {
      assert EnteredFor(g, edges, m, entered[m]);
    }
  }

  lemma Overwrite(m: Deps, k: string, a: seq<string>, b: seq<string>)
    ensures m[k := a][k := b] == m[k := b]
  {
  }

  /** The entries of one app; a dependency that is not a listed app is passed over. */
  method EnterDeps(g: Deps, name: string, indegree0: Counts, edges0: Deps, ghost entered: Deps)
    returns (indegree: Counts, edges: Deps)
    requires name in g && Entered(g, entered, indegree0, edges0) && entered[name] == []
    ensures Entered(g, entered[name := g[name]], indegree, edges)
  {
    indegree, edges := indegree0, edges0;
    var ds := g[name];
    assert entered[name := ds[..0]] == entered;
    for k := 0 to |ds|
      invariant Entered(g, entered[name := ds[..k]], indegree, edges)
    {
      var d := ds[k];
      Overwrite(entered, name, ds[..k], ds[..k] + [d]);
      assert ds[..k + 1] == ds[..k] + [d];
      if d in g {
        EntryTaken(g, name, d, indegree, edges, entered[name := ds[..k]]);
        edges := edges[d := edges[d] + [name]];
        indegree := indegree[name := indegree[name] + 1];
      } else {
        EntrySkipped(g, name, d, indegree, edges, entered[name := ds[..k]]);
      }
    }
    assert ds[..|ds|] == ds;
  }

  // ---------- peeling ----------

  /** `order` is out, `q` is next; each app still waits for what is not done and for `due`. */
  ghost predicate Queued(g: Deps, order: seq<string>, q: seq<string>, indegree: Counts, due: seq<string>) {
    && NoDup(order + q) && (forall m | m in order + q :: m in g) && indegree.Keys == g.Keys
    && (forall m {:trigger indegree[m]} | m in g :: indegree[m] == Waiting(g[m], g.Keys, ToSet(order)) + multiset(due)[m])
    && forall m {:trigger indegree[m]} {:trigger m in order + q} | m in g :: m in order + q <==> indegree[m] == 0
  }

  lemma PopKeepsQueued(g: Deps, edges: Deps, order: seq<string>, q: seq<string>, indegree: Counts)
    requires Closed(g, edges) && (forall m {:trigger EnteredFor(g, edges, m, g[m])} | m in g :: EnteredFor(g, edges, m, g[m]))
    requires q != [] && Queued(g, order, q, indegree, [])
    ensures Queued(g, order + [q[0]], q[1..], indegree, edges[q[0]])
  {
    var n := q[0];
    assert order + q == (order + [n]) + q[1..];
    assert n in order + q && n in g;
    assert n !in order by { assert forall i | 0 <= i < |order| :: (order + q)[i] == order[i]; assert (order + q)[|order|] == n; }
    assert ToSet(order + [n]) == ToSet(order) + {n};
    forall m | m in g ensures indegree[m] == Waiting(g[m], g.Keys, ToSet(order + [n])) + multiset(edges[n])[m] {
      WaitingDone(g[m], g.Keys, ToSet(order), n);
      assert EnteredFor(g, edges, m, g[m]);
    }
  }

  lemma PopKeepsPeeled(g: Deps, order: seq<string>, n: string)
    requires Peeled(g, order) && n in g && Waiting(g[n], g.Keys, ToSet(order)) == 0
    ensures Peeled(g, order + [n])
  {
    WaitingZero(g[n], g.Keys, ToSet(order));
    var out := order + [n];
    forall i, d | 0 <= i < |out| && DependsOn(g, out[i], d) ensures d in out[..i] {
      if i < |order| {
        assert out[..i] == order[..i];
      } else {
        assert out[..i] == order;
      }
    }
  }

  /** One reverse edge is taken off. */
  lemma DropKeepsQueued(g: Deps, order: seq<string>, q: seq<string>, indegree: Counts, due: seq<string>)
    requires due != [] && due[0] in g && Queued(g, order, q, indegree, due)
    ensures var m := due[0];
      && indegree[m] > 0
      && Queued(g, order, if indegree[m] == 1 then q + [m] else q, indegree[m := indegree[m] - 1], due[1..])
  {
    var m := due[0];
    assert due == [m] + due[1..];
    assert multiset(due) == multiset{m} + multiset(due[1..]);
    assert m !in order + q;
    if indegree[m] == 1 {
      assert order + (q + [m]) == (order + q) + [m];
    }
  }

  lemma Pop(g: Deps, edges: Deps, order: seq<string>, q: seq<string>, indegree: Counts)
    requires Closed(g, edges) && (forall m {:trigger EnteredFor(g, edges, m, g[m])} | m in g :: EnteredFor(g, edges, m, g[m]))
    requires q != [] && Queued(g, order, q, indegree, []) && Peeled(g, order)
    ensures q[0] in g && Queued(g, order + [q[0]], q[1..], indegree, edges[q[0]]) && Peeled(g, order + [q[0]])
    ensures |g.Keys - ToSet(order + [q[0]])| < |g.Keys - ToSet(order)|
  {
    var n := q[0];
    assert (order + q)[|order|] == n && n in order + q;
    assert n in g && indegree[n] == 0;
    PopKeepsQueued(g, edges, order, q, indegree);
    PopKeepsPeeled(g, order, n);
    assert n !in order by { assert forall i | 0 <= i < |order| :: (order + q)[i] == order[i]; }
    assert g.Keys - ToSet(order + [n]) == (g.Keys - ToSet(order)) - {n};
  }

  /** The apps, in order, that wait for nothing (or, for `waiting`, for something). */
  function Pick(names: seq<string>, indegree: Counts, waiting: bool): seq<string> {
    if names == [] then []
    else (if names[0] in indegree && (indegree[names[0]] != 0) == waiting then [names[0]] else []) + Pick(names[1..], indegree, waiting)
  }

  lemma {:induction false} PickIs(names: seq<string>, indegree: Counts, waiting: bool, m: string)
    ensures m in Pick(names, indegree, waiting) <==> m in names && m in indegree && (indegree[m] != 0) == waiting
  {
    if names != [] {
      PickIs(names[1..], indegree, waiting, m);
      assert m in names <==> m == names[0] || m in names[1..];
    }
  }

  lemma {:induction false} PickSorted(names: seq<string>, indegree: Counts, waiting: bool)
    requires StrictlySorted(names)
    ensures StrictlySorted(Pick(names, indegree, waiting))
  {
    if names != [] {
      var rest := Pick(names[1..], indegree, waiting);
      PickSorted(names[1..], indegree, waiting);
      forall k | k in rest ensures Less(names[0], k) { PickIs(names[1..], indegree, waiting, k); }
    }
  }

  lemma SortedNoDup(s: seq<string>)
    requires StrictlySorted(s)
    ensures NoDup(s)
  {
    forall i, j | 0 <= i < j < |s| ensures s[i] != s[j] { LessAsym(s[i], s[j]); }
  }

  lemma {:induction false} FirstInLine(g: Deps, indegree: Counts)
    requires indegree.Keys == g.Keys
    requires forall m {:trigger indegree[m]} | m in g :: indegree[m] == Waiting(g[m], g.Keys, {})
    ensures Queued(g, [], Pick(Sorted(g.Keys), indegree, false), indegree, [])
  {
    var names := Sorted(g.Keys);
    var q := Pick(names, indegree, false);
    PickSorted(names, indegree, false);
    SortedNoDup(q);
    assert [] + q == q && ToSet([]) == {};
    forall m ensures m in q <==> m in g && indegree[m] == 0 {
      PickIs(names, indegree, false, m);
      assert m in names <==> m in ToSet(names);
    }
  }

  /** Peel apps nobody waits for, first come first served. */
  method Peel(g: Deps, names: seq<string>, indegree0: Counts, edges: Deps) returns (order: seq<string>, indegree: Counts)
    requires names == Sorted(g.Keys) && Entered(g, g, indegree0, edges)
    ensures Queued(g, order, [], indegree, []) && Peeled(g, order)
  {
    indegree := indegree0;
    var q := Pick(names, indegree, false);
    FirstInLine(g, indegree);
    order := [];
    while q != []
      invariant Queued(g, order, q, indegree, []) && Peeled(g, order)
      decreases |g.Keys - ToSet(order)|
    {
      Pop(g, edges, order, q, indegree);
      var n := q[0];
      order, q := order + [n], q[1..];
      q, indegree := Release(g, edges[n], order, q, indegree);
    }
  }

  method Release(g: Deps, due: seq<string>, order: seq<string>, q0: seq<string>, indegree0: Counts) returns (q: seq<string>, indegree: Counts)
    requires Queued(g, order, q0, indegree0, due) && forall m | m in due :: m in g
    ensures Queued(g, order, q, indegree, [])
  {
    q, indegree := q0, indegree0;
    assert due[0..] == due;
    for k := 0 to |due|
      invariant Queued(g, order, q, indegree, due[k..])
    {
      DropKeepsQueued(g, order, q, indegree, due[k..]);
      assert due[k..][1..] == due[k + 1..];
      var m := due[k];
      indegree := indegree[m := indegree[m] - 1];
      if indegree[m] == 0 {
        q := q + [m];
      }
    }
  }

  /** Enter every app, in name order. */
  method Enter(g: Deps, names: seq<string>) returns (indegree: Counts, edges: Deps)
    requires names == Sorted(g.Keys)
    ensures Entered(g, g, indegree, edges)
  {
    indegree := map n | n in g :: 0;
    edges := map n | n in g :: [];
    ghost var entered: Deps := map n | n in g :: [];
    NothingEntered(g, indegree, edges, entered);
    SortedNoDup(names);
    for i := 0 to |names|
      invariant Entered(g, entered, indegree, edges) && EnteredUpTo(g, names, i, entered)
    {
      assert names[i] in ToSet(names);
      EnterNext(g, names, i, entered);
      indegree, edges := EnterDeps(g, names[i], indegree, edges, entered);
      entered := entered[names[i] := g[names[i]]];
    }
    AllEntered(g, names, entered);
  }

  lemma NothingEntered(g: Deps, indegree: Counts, edges: Deps, entered: Deps)
    requires indegree.Keys == g.Keys == edges.Keys == entered.Keys
    requires forall n | n in g :: indegree[n] == 0 && edges[n] == [] && entered[n] == []
    ensures Entered(g, entered, indegree, edges)
  {
    forall m | m in g ensures EnteredFor(g, edges, m, entered[m]) {
      forall n | n in g ensures multiset(edges[n])[m] == multiset(entered[m])[n] { assert edges[n] == [] == entered[m]; }
    }
  }

  ghost predicate EnteredUpTo(g: Deps, names: seq<string>, i: nat, entered: Deps) {
    && entered.Keys == g.Keys && i <= |names|
    && (forall k | 0 <= k < i :: names[k] in g && entered[names[k]] == g[names[k]])
    && (forall k | i <= k < |names| :: names[k] in g ==> entered[names[k]] == [])
  }

  lemma EnterNext(g: Deps, names: seq<string>, i: nat, entered: Deps)
    requires i < |names| && NoDup(names) && names[i] in g && EnteredUpTo(g, names, i, entered)
    ensures entered[names[i]] == [] && EnteredUpTo(g, names, i + 1, entered[names[i] := g[names[i]]])
  {
  }

  lemma AllEntered(g: Deps, names: seq<string>, entered: Deps)
    requires names == Sorted(g.Keys) && EnteredUpTo(g, names, |names|, entered)
    ensures entered == g
  {
    forall n | n in g ensures entered[n] == g[n] {
      assert n in ToSet(names);
      var k :| 0 <= k < |names| && names[k] == n;
    }
  }

  // ---------- what peeling decides ----------

  lemma RestIsStuck(g: Deps, order: seq<string>, indegree: Counts)
    requires Queued(g, order, [], indegree, [])
    ensures Stuck(g, g.Keys - ToSet(order))
  {
    var rest := g.Keys - ToSet(order);
    assert order + [] == order;
    forall n | n in rest ensures NeedsOneOf(g, n, rest) {
      assert indegree[n] != 0;
      WaitingZero(g[n], g.Keys, ToSet(order));
      var d :| d in g[n] && d in g.Keys && d !in ToSet(order);
      assert d in rest && DependsOn(g, n, d);
    }
  }

  /** What is left waiting is exactly what needs a cycle. */
  lemma PeelExact(g: Deps, order: seq<string>, indegree: Counts, n: string)
    requires Queued(g, order, [], indegree, []) && Peeled(g, order) && n in g
    ensures n in order <==> !NeedsCycle(g, n)
    ensures indegree[n] != 0 <==> NeedsCycle(g, n)
  {
    assert order + [] == order;
    if n in order {
      PeeledIsClear(g, order, n);
    } else {
      RestIsStuck(g, order, indegree);
      StuckNeedsCycle(g, g.Keys - ToSet(order), n);
    }
  }

  lemma AcyclicIff(g: Deps)
    ensures Acyclic(g) <==> forall n | n in g :: !NeedsCycle(g, n)
  {
    if Acyclic(g) {
      forall n | n in g ensures !NeedsCycle(g, n) { AcyclicNeedsNone(g, n); }
    }
    forall c | c in g && OnCycle(g, c) ensures NeedsCycle(g, c) {
      assert PathBetween(g, [c], c, c);
    }
  }

  lemma {:induction false} NoDupCard(s: seq<string>)
    requires NoDup(s)
    ensures |ToSet(s)| == |s|
  {
    if s != [] {
      NoDupCard(s[1..]);
      assert ToSet(s) == {s[0]} + ToSet(s[1..]);
    }
  }

  lemma AllPeeledIff(g: Deps, order: seq<string>)
    requires NoDup(order) && ToSet(order) <= g.Keys
    ensures |order| == |g.Keys| <==> forall n | n in g :: n in order
  {
    NoDupCard(order);
    if |order| == |g.Keys| {
      assert |g.Keys - ToSet(order)| == |g.Keys| - |ToSet(order)|;
      assert g.Keys - ToSet(order) == {};
      forall n | n in g ensures n in order { assert n !in g.Keys - ToSet(order); }
    }
    if forall n | n in g :: n in order {
      assert g.Keys == ToSet(order);
    }
  }

  // ---------- validation ----------

  datatype Verdict =
    | Accepted
    | SelfDependency(app: string)
    | UnknownDependency(app: string, dep: string)
    | Cycle(apps: seq<string>)

  predicate EntryOk(g: Deps, n: string, d: string) {
    d in g && d != n
  }

  predicate ListOk(g: Deps, n: string)
    requires n in g
  {
    forall d | d in g[n] :: EntryOk(g, n, d)
  }

  /** Every dependency names another docker app. */
  predicate AllListed(g: Deps) {
    forall n | n in g :: ListOk(g, n)
  }

  /** The first bad entry of one app's list. */
  method CheckDeps(g: Deps, n: string) returns (v: Verdict)
    requires n in g
    ensures v == Accepted <==> ListOk(g, n)
    ensures v == Accepted || v == SelfDependency(n) || v.UnknownDependency?
    ensures v.SelfDependency? ==> exists k :: 0 <= k < |g[n]| && g[n][k] == n && forall j | 0 <= j < k :: EntryOk(g, n, g[n][j])
    ensures v.UnknownDependency? ==> v.app == n && v.dep !in g && v.dep != n
    ensures v.UnknownDependency? ==> exists k :: 0 <= k < |g[n]| && g[n][k] == v.dep && forall j | 0 <= j < k :: EntryOk(g, n, g[n][j])
  {
    for k := 0 to |g[n]|
      invariant forall j | 0 <= j < k :: EntryOk(g, n, g[n][j])
    {
      var d := g[n][k];
      assert d in g[n];
      if d == n {
        assert !EntryOk(g, n, d);
        return SelfDependency(n);
      }
      if d !in g {
        assert !EntryOk(g, n, d);
        return UnknownDependency(n, d);
      }
    }
    v := Accepted;
  }

  /** Acceptance is exact, a bad entry is reported for the first app that has one, and a reported cycle lists
      exactly the apps that transitively depend on a cycle, in name order. */
  method Validate(g: Deps) returns (v: Verdict)
    ensures v == Accepted <==> AllListed(g) && Acyclic(g)
    ensures v.SelfDependency? || v.UnknownDependency? <==> !AllListed(g)
    ensures v.SelfDependency? ==> v.app in g && v.app in g[v.app]
    ensures v.UnknownDependency? ==> v.app in g && v.dep in g[v.app] && v.dep !in g
    ensures v.SelfDependency? || v.UnknownDependency? ==> forall n | n in g && Less(n, v.app) :: ListOk(g, n)
    ensures v.Cycle? ==> v.apps == Sorted(set n | n in g && NeedsCycle(g, n))
  {
    var names := Sort(g.Keys);
    for i := 0 to |names|
      invariant forall k | 0 <= k < i :: names[k] in g && ListOk(g, names[k])
    {
      assert names[i] in ToSet(names);
      v := CheckDeps(g, names[i]);
      if v != Accepted {
        forall n | n in g && Less(n, names[i]) ensures ListOk(g, n) { Earlier(names, i, n); }
        return;
      }
    }
    forall n | n in g ensures ListOk(g, n) { assert n in ToSet(names); }
    var indegree, edges := Enter(g, names);
    var order;
    order, indegree := Peel(g, names, indegree, edges);
    Decided(g, order, indegree);
    if |order| != |g.Keys| {
      v := Cycle(Pick(names, indegree, true));
      CycleList(g, order, indegree);
    } else {
      v := Accepted;
    }
  }

  lemma {:induction false} Earlier(names: seq<string>, i: nat, n: string)
    requires StrictlySorted(names) && i < |names| && n in ToSet(names) && Less(n, names[i])
    ensures n in names[..i]
  {
    var k :| 0 <= k < |names| && names[k] == n;
    LessAsym(n, names[i]);
  }

  lemma Decided(g: Deps, order: seq<string>, indegree: Counts)
    requires Queued(g, order, [], indegree, []) && Peeled(g, order)
    ensures |order| == |g.Keys| <==> Acyclic(g)
  {
    assert order + [] == order;
    assert ToSet(order) <= g.Keys;
    AllPeeledIff(g, order);
    AcyclicIff(g);
    forall n | n in g ensures n in order <==> !NeedsCycle(g, n) { PeelExact(g, order, indegree, n); }
  }

  lemma {:induction false} CycleList(g: Deps, order: seq<string>, indegree: Counts)
    requires Queued(g, order, [], indegree, []) && Peeled(g, order)
    ensures Pick(Sorted(g.Keys), indegree, true) == Sorted(set n | n in g && NeedsCycle(g, n))
  {
    var names := Sorted(g.Keys);
    var listed := Pick(names, indegree, true);
    var cyclic := set n | n in g && NeedsCycle(g, n);
    PickSorted(names, indegree, true);
    forall n ensures n in ToSet(listed) <==> n in cyclic {
      PickIs(names, indegree, true, n);
      assert n in names <==> n in ToSet(names);
      if n in g { PeelExact(g, order, indegree, n); }
    }
    SortedOnce(listed, Sorted(cyclic));
  }

  // ---------- start order ----------

  /** Every app clear of cycles comes after each listed app it depends on. */
  ghost predicate AfterDeps(g: Deps, order: seq<string>) {
    forall i, d | 0 <= i < |order| && DependsOn(g, order[i], d) && !NeedsCycle(g, order[i]) :: d in order[..i]
  }

  lemma StragglersNeedCycles(g: Deps, peeled: seq<string>, indegree: Counts, order: seq<string>)
    requires Queued(g, peeled, [], indegree, []) && Peeled(g, peeled) && peeled <= order
    requires forall k | |peeled| <= k < |order| :: order[k] in g && order[k] !in peeled
    ensures AfterDeps(g, order)
  {
    forall i, d | 0 <= i < |order| && DependsOn(g, order[i], d) && !NeedsCycle(g, order[i]) ensures d in order[..i] {
      PeelExact(g, peeled, indegree, order[i]);
      assert i < |peeled|;
      assert order[i] == peeled[i] && order[..i] == peeled[..i];
    }
  }

  /** Without a cycle the queue reaches every app, so no straggler is left. */
  lemma NoStragglers(g: Deps, peeled: seq<string>, indegree: Counts, order: seq<string>)
    requires Queued(g, peeled, [], indegree, []) && Peeled(g, peeled) && Acyclic(g) && peeled <= order
    requires forall k | |peeled| <= k < |order| :: order[k] in g && order[k] !in peeled
    ensures order == peeled
  {
    if |peeled| < |order| {
      PeelExact(g, peeled, indegree, order[|peeled|]);
      AcyclicNeedsNone(g, order[|peeled|]);
    }
  }

  /** Dev start order: each app once, in dependency order. `peeled` is what the queue alone gave. */
  method StartOrder(g: Deps) returns (order: seq<string>, ghost peeled: seq<string>)
    ensures NoDup(order) && ToSet(order) == g.Keys && AfterDeps(g, order)
    ensures peeled <= order && (Acyclic(g) ==> order == peeled) && StrictlySorted(order[|peeled|..])
  {
    var names := Sort(g.Keys);
    var indegree, edges := Enter(g, names);
    var queued;
    queued, indegree := Peel(g, names, indegree, edges);
    peeled := queued;
    assert queued + [] == queued;
    forall n | n in queued ensures n in names { assert n in ToSet(names); }
    order := Stragglers(names, queued);
    forall k | 0 <= k < |order| ensures order[k] in g { assert order[k] in ToSet(order); }
    StragglersNeedCycles(g, queued, indegree, order);
    if Acyclic(g) { NoStragglers(g, queued, indegree, order); }
  }

  lemma SortedSnoc(s: seq<string>, names: seq<string>, i: nat)
    requires StrictlySorted(names) && i < |names| && StrictlySorted(s) && forall n | n in s :: n in names[..i]
    ensures StrictlySorted(s + [names[i]])
  {
    forall k | 0 <= k < |s| ensures Less(s[k], names[i]) {
      assert s[k] in names[..i];
      var j :| 0 <= j < i && names[j] == s[k];
    }
  }

  /** Names not yet in the order go last, in name order. */
  method Stragglers(names: seq<string>, peeled: seq<string>) returns (order: seq<string>)
    requires NoDup(peeled) && forall n | n in peeled :: n in names
    ensures NoDup(order) && ToSet(order) == ToSet(names) && peeled <= order
    ensures forall k | |peeled| <= k < |order| :: order[k] !in peeled
    ensures StrictlySorted(names) ==> StrictlySorted(order[|peeled|..])
  {
    order := peeled;
    for i := 0 to |names|
      invariant NoDup(order) && peeled <= order && forall n | n in order :: n in names
      invariant (forall n | n in order[|peeled|..] :: n in names[..i]) && (StrictlySorted(names) ==> StrictlySorted(order[|peeled|..]))
      invariant forall k | 0 <= k < i :: names[k] in order
      invariant forall k | |peeled| <= k < |order| :: order[k] !in peeled
    {
      if names[i] !in order {
        assert forall n | n in peeled :: n in order;
        assert (order + [names[i]])[|peeled|..] == order[|peeled|..] + [names[i]];
        if StrictlySorted(names) { SortedSnoc(order[|peeled|..], names, i); }
        order := order + [names[i]];
      }
    }
  }

  /** A validated graph, filtered to the apps that run in dev, starts every app after all its remaining dependencies. */
  lemma ValidatedStartIsSound(g: Deps, keep: set<string>, order: seq<string>)
    requires Acyclic(g) && AfterDeps(Restrict(g, keep), order)
    ensures Peeled(Restrict(g, keep), order)
  {
    var h := Restrict(g, keep);
    RestrictAcyclic(g, keep);
    forall i | 0 <= i < |order| ensures !NeedsCycle(h, order[i]) { AcyclicNeedsNone(h, order[i]); }
  }
}
