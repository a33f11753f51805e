/** The rules whose meaning rebasing preserves are no more than `Fine` says: for every other rule there is a database, and a
    generated row, on which the rebased rule has a different value. */
module RebaseExact {
  import opened Rules
  import opened Rebase

  // ---------- the shape of parsed rules ----------

  /** A parameter starts a path or stands alone; literals are scalars (arrays and objects are nodes). */
  predicate Shaped(e: Expr)
    decreases e, 0
  {
    match e
    case Lit(_, v) => !v.VArr? && !v.VObj?
    case Param(_) => true
    case Idiom(parts) => (forall i | 0 < i < |parts| :: !parts[i].Start?) && forall p | p in parts :: ShapedPart(p)
    case Node(_, args) => forall a | a in args :: Shaped(a)
    case Paren(v) => Shaped(v)
    case Select(v, _, c) => Shaped(v) && Shaped(c)
    case Block(v) => Shaped(v)
  }

  predicate ShapedPart(p: Part)
    decreases p, 1
  {
    p.Method? ==> forall a | a in p.args :: Shaped(a)
  }

  /** The rule does not itself read a field, or call a method, of the link's name. */
  predicate Avoids(e: Expr, link: string)
    decreases e, 0
  {
    match e
    case Lit(_, _) => true
    case Param(_) => true
    case Idiom(parts) => forall p | p in parts :: AvoidsPart(p, link)
    case Node(_, args) => forall a | a in args :: Avoids(a, link)
    case Paren(v) => Avoids(v, link)
    case Select(v, _, c) => Avoids(v, link) && Avoids(c, link)
    case Block(v) => Avoids(v, link)
  }

  predicate AvoidsPart(p: Part, link: string)
    decreases p, 1
  {
    p != Field(link) && (p.Method? ==> p.func != link && forall a | a in p.args :: Avoids(a, link))
  }

  // ---------- what a rule mentions ----------

  /** Field names, tables, and a bound on path lengths and indexes. */
  datatype Cover = Cover(names: set<string>, tables: set<string>, size: nat)

  predicate Covers(c: Cover, e: Expr)
    decreases e, 0
  {
    match e
    case Lit(_, _) => true
    case Param(_) => true
    case Idiom(parts) => |parts| <= c.size && forall p | p in parts :: CoversPart(c, p)
    case Node(_, args) => forall a | a in args :: Covers(c, a)
    case Paren(v) => Covers(c, v)
    case Select(v, t, q) => t in c.tables && Covers(c, v) && Covers(c, q)
    case Block(v) => Covers(c, v)
  }

  predicate CoversPart(c: Cover, p: Part)
    decreases p, 1
  {
    && (p.Field? ==> p.name in c.names)
    && (p.Index? ==> p.at <= c.size)
    && (p.Method? ==> forall a | a in p.args :: Covers(c, a))
  }

  predicate Extends(d: Cover, c: Cover) {
    c.names <= d.names && c.tables <= d.tables && c.size <= d.size
  }

  function Both(c: Cover, d: Cover): Cover {
    Cover(c.names + d.names, c.tables + d.tables, if c.size > d.size then c.size else d.size)
  }

  lemma {:induction false} CoverGrows(c: Cover, d: Cover, e: Expr)
    requires Covers(c, e) && Extends(d, c)
    ensures Covers(d, e)
    decreases e, 0
  {
    match e
    case Idiom(parts) => forall p | p in parts ensures CoversPart(d, p) { PartCoverGrows(c, d, p); }
    case Node(_, args) => forall a | a in args ensures Covers(d, a) { CoverGrows(c, d, a); }
    case Paren(v) => CoverGrows(c, d, v);
    case Select(v, _, q) => CoverGrows(c, d, v); CoverGrows(c, d, q);
    case Block(v) => CoverGrows(c, d, v);
    case _ =>
  }

  lemma {:induction false} PartCoverGrows(c: Cover, d: Cover, p: Part)
    requires CoversPart(c, p) && Extends(d, c)
    ensures CoversPart(d, p)
    decreases p, 1
  {
    if p.Method? { forall a | a in p.args ensures Covers(d, a) { CoverGrows(c, d, a); } }
  }

  lemma {:induction false} CoverAll(es: seq<Expr>, link: string) returns (c: Cover)
    requires forall a | a in es :: Avoids(a, link)
    ensures link !in c.names && forall a | a in es :: Covers(c, a)
    decreases es, 2
  {
    c := Cover({}, {}, 0);
    if es != [] {
      var one := CoverOf(es[0], link);
      var rest := CoverAll(es[1..], link);
      c := Both(one, rest);
      forall a | a in es ensures Covers(c, a) {
        if a == es[0] { CoverGrows(one, c, a); } else { assert a in es[1..]; CoverGrows(rest, c, a); }
      }
    }
  }

  lemma {:induction false} CoverPart(p: Part, link: string) returns (c: Cover)
    requires AvoidsPart(p, link)
    ensures link !in c.names && CoversPart(c, p)
    decreases p, 3
  {
    match p
    case Field(f) => c := Cover({f}, {}, 0);
    case Index(k) => c := Cover({}, {}, k);
    case Method(_, args) => c := CoverAll(args, link);
    case _ => c := Cover({}, {}, 0);
  }

  lemma {:induction false} CoverParts(parts: seq<Part>, link: string) returns (c: Cover)
    requires forall p | p in parts :: AvoidsPart(p, link)
    ensures link !in c.names && forall p | p in parts :: CoversPart(c, p)
    decreases parts, 4
  {
    c := Cover({}, {}, 0);
    if parts != [] {
      var one := CoverPart(parts[0], link);
      var rest := CoverParts(parts[1..], link);
      c := Both(one, rest);
      forall p | p in parts ensures CoversPart(c, p) {
        if p == parts[0] { PartCoverGrows(one, c, p); } else { assert p in parts[1..]; PartCoverGrows(rest, c, p); }
      }
    }
  }

  lemma {:induction false} CoverOf(e: Expr, link: string) returns (c: Cover)
    requires Avoids(e, link)
    ensures link !in c.names && Covers(c, e)
    decreases e, 5
  {
    match e
    case Lit(_, _) => c := Cover({}, {}, 0);
    case Param(_) => c := Cover({}, {}, 0);
    case Idiom(parts) =>
      var d := CoverParts(parts, link);
      c := d.(size := d.size + |parts|);
      forall p | p in parts ensures CoversPart(c, p) { PartCoverGrows(d, c, p); }
    case Node(_, args) => c := CoverAll(args, link);
    case Paren(v) => c := CoverOf(v, link);
    case Select(v, t, q) =>
      var a := CoverOf(v, link);
      var b := CoverOf(q, link);
      c := Both(Both(a, b), Cover({}, {t}, 0));
      CoverGrows(a, c, v);
      CoverGrows(b, c, q);
    case Block(v) => c := CoverOf(v, link);
  }

  // ---------- traps ----------

  const MARK := "!"

  /** An empty list deep inside lists: no short path leads out of it. */
  function Trap(d: nat, k: nat): Val {
    VArr(if d == 0 then [] else seq(k + 1, _ => Trap(d - 1, k)))
  }

  /** A marked object or an empty list is in sight. */
  predicate Spotted(v: Val) {
    match v
    case VObj(m) => MARK in m
    case VArr(items) => items == [] || exists i :: 0 <= i < |items| && Spotted(items[i])
    case _ => false
  }

  lemma {:induction false} TrapSpotted(d: nat, k: nat)
    ensures Spotted(Trap(d, k))
  {
    if d > 0 {
      TrapSpotted(d - 1, k);
      assert Trap(d, k).items[0] == Trap(d - 1, k);
    }
  }

  predicate AnySpotted(vs: seq<Val>) {
    exists i :: 0 <= i < |vs| && Spotted(vs[i])
  }

  /** A stage for a rule: what it mentions, and which of the two readings is to show a spot, the rebased rule's or, with
      `flip`, the original's. */
  datatype Stage = Stage(link: string, binds: bool, cover: Cover, flip: bool)

  const Rec := RecordId("record", "r")
  const Other := RecordId("other", "x")

  function TrapOf(st: Stage): Val { Trap(st.cover.size, st.cover.size) }

  function RecRow(): Row { map["id" := VLink(Rec)] }

  function OtherRow(st: Stage): Row {
    if st.flip then map["id" := VLink(Other)] else map["id" := VLink(Other), st.link := TrapOf(st)]
  }

  /** Whatever the rebased rule reads of the generated row itself is a trap. */
  function GenRow(st: Stage): Row {
    (if st.flip then map[] else map k | k in st.cover.names + {"id", MARK} :: TrapOf(st))[st.link := VLink(Rec)]
  }

  function Alarm(st: Stage, f: string, v: Val): bool {
    if st.flip then v == VObj(RecRow()) else f == st.link
  }

  function Invoke(st: Stage, f: string, v: Val, vs: seq<Val>): Val {
    if Alarm(st, f, v) || Spotted(v) || AnySpotted(vs) then TrapOf(st) else VNone
  }

  /** Operators keep all their operands, a method passes a spot on, and a subquery drops the rows whose condition shows one. */
  function EnvOf(st: Stage): Env {
    Env(map[], (op, vs) => VArr([VNone] + vs), (f, v, vs) => Invoke(st, f, v, vs), (e, v) => v, v => !Spotted(v), st.binds)
  }

  function StoreOf(st: Stage): Store {
    Store(map[Rec := RecRow(), Other := OtherRow(st)], map t | t in st.cover.tables :: [Other])
  }

  predicate LinkName(link: string) { link != "id" && link != MARK }

  lemma StageIsLinked(st: Stage)
    requires LinkName(st.link)
    ensures Linked(StoreOf(st), GenRow(st), st.link, Rec)
  {
  }

  ghost predicate Staged(env: Env, store: Store, st: Stage) {
    env == EnvOf(st) && store == StoreOf(st) && LinkName(st.link) && st.link !in st.cover.names
  }

  // ---------- evaluating there ----------

  lemma SpotAmong(vs: seq<Val>)
    ensures Spotted(VArr([VNone] + vs)) <==> AnySpotted(vs)
  {
    var all := [VNone] + vs;
    if i :| 0 <= i < |vs| && Spotted(vs[i]) { assert all[i + 1] == vs[i]; }
    if Spotted(VArr(all)) {
      var j :| 0 <= j < |all| && Spotted(all[j]);
      assert all[j] == vs[j - 1];
    }
  }

  lemma {:induction false} SpotOfNode(env: Env, store: Store, st: Stage, e: Expr, row: Row, parent: Val)
    requires env == EnvOf(st) && e.Node?
    ensures Spotted(Eval(env, store, e, row, parent)) <==> AnySpotted(EvalAll(env, store, e.args, row, parent))
  {
    var vs := EvalAll(env, store, e.args, row, parent);
    assert Eval(env, store, e, row, parent) == env.apply(e.op, vs) == VArr([VNone] + vs);
    SpotAmong(vs);
  }

  lemma {:induction false} Drops(env: Env, st: Stage, v: Val)
    requires env == EnvOf(st)
    ensures env.truthy(v) <==> !Spotted(v)
  {
  }

  lemma {:induction false} SpotOfRows(items: seq<Val>, kept: bool, v: Val)
    requires items == if kept then [v] else []
    ensures Spotted(VArr(items)) <==> !kept || Spotted(v)
  {
    if kept { assert items[0] == v; }
  }

  lemma {:induction false} SpotOfSelect(env: Env, store: Store, st: Stage, e: Expr, row: Row, parent: Val)
    requires env == EnvOf(st) && store == StoreOf(st) && e.Select? && e.table in st.cover.tables
    ensures var x := OtherRow(st);
      Spotted(Eval(env, store, e, row, parent)) <==>
        (Spotted(Eval(env, store, e.cond, x, VObj(row))) || Spotted(Eval(env, store, e.project, x, VObj(row))))
  {
    var x := OtherRow(st);
    var items := EvalRows(env, store, e, [Other], VObj(row));
    assert store.scan[e.table] == [Other] && [Other][1..] == [] && store.rows[Other] == x;
    assert Eval(env, store, e, row, parent) == VArr(items);
    assert EvalRows(env, store, e, [], VObj(row)) == [];
    Drops(env, st, Eval(env, store, e.cond, x, VObj(row)));
    SpotOfRows(items, !Spotted(Eval(env, store, e.cond, x, VObj(row))), Eval(env, store, e.project, x, VObj(row)));
  }

  lemma EvalInside(env: Env, store: Store, e: Expr, row: Row, parent: Val)
    ensures e.Paren? ==> Eval(env, store, e, row, parent) == Eval(env, store, e.body, row, if env.parenBindsParent then VObj(row) else parent)
    ensures e.Block? ==> Eval(env, store, e, row, parent) == Eval(env, store, e.stmt, row, parent)
    ensures e.Param? ==> Eval(env, store, e, row, parent) == ParamValue(env, e.name, parent)
    ensures e.Lit? ==> Eval(env, store, e, row, parent) == e.value
  {
  }

  // ---------- the trap holds ----------

  lemma {:induction false} TrapField(env: Env, store: Store, d: nat, k: nat, f: string)
    ensures Step(env, store, Trap(d, k), Fetch(f)) == Trap(d, k)
  {
    var items := Trap(d, k).items;
    var out := Step(env, store, Trap(d, k), Fetch(f)).items;
    forall i | 0 <= i < |items| ensures out[i] == items[i] { TrapField(env, store, d - 1, k, f); }
    assert out == items;
  }

  predicate SmallMove(m: Move, n: nat) {
    !m.Nowhere? && (m.Nth? ==> m.at <= n)
  }

  lemma {:induction false} TrapHolds(env: Env, store: Store, st: Stage, d: nat, ms: seq<Move>)
    requires env == EnvOf(st) && |ms| <= d <= st.cover.size && forall i | 0 <= i < |ms| :: SmallMove(ms[i], st.cover.size)
    ensures Spotted(Walk(env, store, Trap(d, st.cover.size), ms))
    decreases |ms|
  {
    var n := st.cover.size;
    TrapSpotted(d, n);
    if ms != [] {
      match ms[0]
      case Fetch(f) => TrapField(env, store, d, n, f); TrapHolds(env, store, st, d, ms[1..]);
      case Nth(k) => assert Trap(d, n).items[k] == Trap(d - 1, n); TrapHolds(env, store, st, d - 1, ms[1..]);
      case Call(_, _) => TrapHolds(env, store, st, n, ms[1..]);
      case Hop(_) => TrapHolds(env, store, st, d, ms[1..]);
    }
  }

  /** A path that falls into a trap at its first step. */
  lemma {:induction false} FallsIn(env: Env, store: Store, st: Stage, v: Val, ms: seq<Move>)
    requires env == EnvOf(st) && ms != [] && |ms| <= st.cover.size + 1 && Step(env, store, v, ms[0]) == TrapOf(st)
    requires forall i | 0 < i < |ms| :: SmallMove(ms[i], st.cover.size)
    ensures Spotted(Walk(env, store, v, ms))
  {
    TrapHolds(env, store, st, st.cover.size, ms[1..]);
  }

  /** A call with a spot among its arguments springs the trap, wherever it stands in a path. */
  lemma {:induction false} SpotPassedOn(env: Env, store: Store, st: Stage, v: Val, ms: seq<Move>, i: nat)
    requires env == EnvOf(st) && i < |ms| <= st.cover.size + 1 && ms[i].Call? && AnySpotted(ms[i].args)
    requires forall j | 0 < j < |ms| :: SmallMove(ms[j], st.cover.size)
    ensures Spotted(Walk(env, store, v, ms))
    decreases |ms|
  {
    if i == 0 {
      FallsIn(env, store, st, v, ms);
    } else {
      SpotPassedOn(env, store, st, Step(env, store, v, ms[0]), ms[1..], i - 1);
    }
  }

  // ---------- one reading is clean ----------

  /** Scalar literals, known tables; and, but for the rebased rule itself, no mention of the link. */
  predicate Calm(e: Expr, st: Stage)
    decreases e, 0
  {
    match e
    case Lit(_, v) => !v.VArr? && !v.VObj?
    case Param(_) => true
    case Idiom(parts) => forall p | p in parts :: CalmPart(p, st)
    case Node(_, args) => forall a | a in args :: Calm(a, st)
    case Paren(v) => Calm(v, st)
    case Select(v, t, c) => t in st.cover.tables && Calm(v, st) && Calm(c, st)
    case Block(v) => Calm(v, st)
  }

  predicate CalmPart(p: Part, st: Stage)
    decreases p, 1
  {
    (st.flip || (p != Field(st.link) && (p.Method? ==> p.func != st.link))) && (p.Method? ==> forall a | a in p.args :: Calm(a, st))
  }

  lemma {:induction false} CalmOf(e: Expr, st: Stage)
    requires Shaped(e) && Covers(st.cover, e) && Avoids(e, st.link)
    ensures Calm(e, st)
    decreases e, 0
  {
    match e
    case Idiom(parts) => forall p | p in parts ensures CalmPart(p, st) { CalmPartOf(p, st); }
    case Node(_, args) => forall a | a in args ensures Calm(a, st) { CalmOf(a, st); }
    case Paren(v) => CalmOf(v, st);
    case Select(v, _, c) => CalmOf(v, st); CalmOf(c, st);
    case Block(v) => CalmOf(v, st);
    case _ =>
  }

  lemma {:induction false} CalmPartOf(p: Part, st: Stage)
    requires ShapedPart(p) && CoversPart(st.cover, p) && AvoidsPart(p, st.link)
    ensures CalmPart(p, st)
    decreases p, 1
  {
    if p.Method? { forall a | a in p.args ensures Calm(a, st) { CalmOf(a, st); } }
  }

  lemma {:induction false} CalmRebased(e: Expr, st: Stage)
    requires st.flip && Calm(e, st)
    ensures Calm(RebaseExpr(e, st.link), st)
    decreases e
  {
    match e
    case Idiom(parts) =>
      var out := RebasedParts(parts, st.link);
      forall p | p in out ensures CalmPart(p, st) { assert p in parts || p == Field(st.link); }
    case Node(_, args) =>
      forall i | 0 <= i < |args| ensures Calm(RebaseExpr(args[i], st.link), st) { assert args[i] in args; CalmRebased(args[i], st); }
    case Paren(v) => CalmRebased(v, st);
    case _ =>
  }

  lemma {:induction false} CalmParents(e: Expr, st: Stage)
    requires st.flip && Calm(e, st)
    ensures Calm(RebaseParents(e, st.link), st)
    decreases e, 0
  {
    match e
    case Idiom(parts) => CalmPath(parts, st);
    case Node(_, args) => CalmAll(args, st);
    case Paren(v) => CalmParents(v, st);
    case Select(v, _, c) => CalmParents(v, st); CalmParents(c, st);
    case Block(v) => CalmParents(v, st);
    case _ =>
  }

  lemma {:induction false} CalmAll(es: seq<Expr>, st: Stage)
    requires st.flip && forall a | a in es :: Calm(a, st)
    ensures forall a | a in ParentsInAll(es, st.link) :: Calm(a, st)
    decreases es, 1
  {
    forall i | 0 <= i < |es| ensures Calm(RebaseParents(es[i], st.link), st) { assert es[i] in es; CalmParents(es[i], st); }
  }

  lemma {:induction false} CalmPath(parts: seq<Part>, st: Stage)
    requires st.flip && forall p | p in parts :: CalmPart(p, st)
    ensures forall p | p in ParentParts(PartsInside(parts, st.link), st.link) :: CalmPart(p, st)
    decreases parts, 2
  {
    var inside := PartsInside(parts, st.link);
    forall i | 0 <= i < |parts| ensures CalmPart(inside[i], st) {
      assert parts[i] in parts && inside[i] == PartInside(parts[i], st.link);
      if parts[i].Method? { CalmAll(parts[i].args, st); }
    }
    var out := ParentParts(inside, st.link);
    forall p | p in out ensures CalmPart(p, st) {
      assert p in inside || p == Field(st.link) || (|inside| >= 2 && inside[1].Method? && p == Method(st.link, inside[1].args));
    }
  }

  /** The row that reading stands on. */
  function Base(st: Stage): Row { if st.flip then GenRow(st) else RecRow() }

  /** All its paths can reach. */
  predicate Known(st: Stage, v: Val) {
    v == VNone || v == VLink(Rec) || v == VLink(Other) || v == VObj(Base(st)) || v == VObj(OtherRow(st))
  }

  predicate CalmMove(st: Stage, m: Move) {
    (st.flip || (m != Fetch(st.link) && (m.Call? ==> m.func != st.link))) && (m.Call? ==> !AnySpotted(m.args))
  }

  lemma {:induction false} KnownIsClean(st: Stage, v: Val)
    requires LinkName(st.link) && Known(st, v)
    ensures !Spotted(v)
  {
  }

  lemma {:induction false} KnownStep(env: Env, store: Store, st: Stage, v: Val, m: Move)
    requires Staged(env, store, st) && Known(st, v) && CalmMove(st, m)
    ensures Known(st, Step(env, store, v, m))
  {
    KnownIsClean(st, v);
    if m.Call? {
      assert st.link in GenRow(st) && st.link !in RecRow();
      assert |Rec.table| != |Other.table| && OtherRow(st)["id"] != RecRow()["id"];
      assert !Alarm(st, m.func, v);
    }
  }

  lemma {:induction false} KnownWalk(env: Env, store: Store, st: Stage, v: Val, ms: seq<Move>)
    requires Staged(env, store, st) && Known(st, v) && forall i | 0 <= i < |ms| :: CalmMove(st, ms[i])
    ensures Known(st, Walk(env, store, v, ms))
    decreases |ms|
  {
    if ms != [] {
      KnownStep(env, store, st, v, ms[0]);
      KnownWalk(env, store, st, Step(env, store, v, ms[0]), ms[1..]);
    }
  }

  lemma PathIsClean(env: Env, store: Store, st: Stage, parts: seq<Part>, ms: seq<Move>, row: Row, parent: Val)
    requires Staged(env, store, st) && Known(st, VObj(row)) && Known(st, parent)
    requires |ms| == |parts| && forall i | 0 <= i < |ms| :: CalmMove(st, ms[i])
    ensures !Spotted(PathValue(env, store, parts, ms, row, parent))
  {
    if parts != [] {
      var from, path := if parts[0].Start? then ParamValue(env, parts[0].param, parent) else VObj(row), if parts[0].Start? then ms[1..] else ms;
      KnownWalk(env, store, st, from, path);
      KnownIsClean(st, Walk(env, store, from, path));
    }
  }

  lemma {:induction false} AllClean(env: Env, store: Store, st: Stage, es: seq<Expr>, row: Row, parent: Val)
    requires Staged(env, store, st) && (forall a | a in es :: Calm(a, st)) && Known(st, VObj(row)) && Known(st, parent)
    ensures !AnySpotted(EvalAll(env, store, es, row, parent))
    decreases es, 0
  {
    forall i | 0 <= i < |es| ensures !Spotted(Eval(env, store, es[i], row, parent)) {
      assert es[i] in es;
      IsClean(env, store, st, es[i], row, parent);
    }
  }

  lemma {:induction false} MoveIsCalm(env: Env, store: Store, st: Stage, p: Part, row: Row, parent: Val)
    requires Staged(env, store, st) && CalmPart(p, st) && Known(st, VObj(row)) && Known(st, parent)
    ensures CalmMove(st, Moved(env, store, p, row, parent))
    decreases p, 1
  {
    if p.Method? { AllClean(env, store, st, p.args, row, parent); }
  }

  lemma {:induction false} IdiomIsClean(env: Env, store: Store, st: Stage, e: Expr, row: Row, parent: Val)
    requires Staged(env, store, st) && e.Idiom? && Calm(e, st) && Known(st, VObj(row)) && Known(st, parent)
    ensures !Spotted(Eval(env, store, e, row, parent))
    decreases e, 2
  {
    var ms := Moves(env, store, e.parts, row, parent);
    forall i | 0 <= i < |ms| ensures CalmMove(st, ms[i]) {
      assert e.parts[i] in e.parts;
      MoveIsCalm(env, store, st, e.parts[i], row, parent);
    }
    PathIsClean(env, store, st, e.parts, ms, row, parent);
    EvalIdiom(env, store, e.parts, row, parent);
  }

  /** On its stage that reading never shows a spot. */
  lemma {:induction false} IsClean(env: Env, store: Store, st: Stage, e: Expr, row: Row, parent: Val)
    requires Staged(env, store, st) && Calm(e, st) && Known(st, VObj(row)) && Known(st, parent)
    ensures !Spotted(Eval(env, store, e, row, parent))
    decreases e, 3
  {
    EvalInside(env, store, e, row, parent);
    match e
    case Lit(_, _) =>
    case Param(_) => KnownIsClean(st, parent);
    case Idiom(_) => IdiomIsClean(env, store, st, e, row, parent);
    case Node(_, args) => AllClean(env, store, st, args, row, parent); SpotOfNode(env, store, st, e, row, parent);
    case Paren(v) => IsClean(env, store, st, v, row, if env.parenBindsParent then VObj(row) else parent);
    case Select(v, _, c) =>
      IsClean(env, store, st, v, OtherRow(st), VObj(row));
      IsClean(env, store, st, c, OtherRow(st), VObj(row));
      SpotOfSelect(env, store, st, e, row, parent);
    case Block(v) => IsClean(env, store, st, v, row, parent);
  }

  // ---------- the other is not ----------

  /** The head of the path is wrong: for the rebased reading, or (a method of the row itself, moved behind the link) for the
      original. */
  predicate PathOff(parts: seq<Part>, sc: Scope, flip: bool) {
    !PathFine(parts, sc) && (flip <==> parts[0].Start? && sc.parent == Checked && |parts| >= 2 && parts[1].Method?)
  }

  predicate Off(e: Expr, binds: bool, sc: Scope, flip: bool)
    decreases e, 0
  {
    match e
    case Lit(_, _) => false
    case Param(n) => n == "parent" && sc.parent == Checked && !flip
    case Idiom(parts) => PathOff(parts, sc, flip) || exists p :: p in parts && PartOff(p, binds, Within(sc), flip)
    case Node(_, args) => exists a :: a in args && Off(a, binds, sc, flip)
    case Paren(v) => Off(v, binds, InParens(sc, binds), flip)
    case Select(v, _, c) => Off(v, binds, InSubquery(sc), flip) || Off(c, binds, InSubquery(sc), flip)
    case Block(v) => Off(v, binds, Within(sc), flip)
  }

  predicate PartOff(p: Part, binds: bool, sc: Scope, flip: bool)
    decreases p, 1
  {
    p.Method? && exists a :: a in p.args && Off(a, binds, sc, flip)
  }

  lemma {:induction false} NotFine(e: Expr, binds: bool, sc: Scope)
    requires !Fine(e, binds, sc)
    ensures Off(e, binds, sc, false) || Off(e, binds, sc, true)
    decreases e, 0
  {
    match e
    case Idiom(parts) =>
      if PathFine(parts, sc) {
        var p :| p in parts && !PartFine(p, binds, Within(sc));
        PartNotFine(p, binds, Within(sc));
      } else {
        assert PathOff(parts, sc, false) || PathOff(parts, sc, true);
      }
    case Node(_, args) =>
      var a :| a in args && !Fine(a, binds, sc);
      NotFine(a, binds, sc);
    case Paren(v) => NotFine(v, binds, InParens(sc, binds));
    case Select(v, _, c) => if !Fine(v, binds, InSubquery(sc)) { NotFine(v, binds, InSubquery(sc)); } else { NotFine(c, binds, InSubquery(sc)); }
    case Block(v) => NotFine(v, binds, Within(sc));
    case _ =>
  }

  lemma {:induction false} PartNotFine(p: Part, binds: bool, sc: Scope)
    requires !PartFine(p, binds, sc)
    ensures PartOff(p, binds, sc, false) || PartOff(p, binds, sc, true)
    decreases p, 1
  {
    var a :| a in p.args && !Fine(a, binds, sc);
    NotFine(a, binds, sc);
  }

  /** The expression that reading evaluates, and where. */
  function Seen(st: Stage, e: Expr, sc: Scope): Expr { if st.flip then e else Rewritten(e, st.link, sc) }

  function Ground(st: Stage): Row { if st.flip then RecRow() else GenRow(st) }

  predicate Placed(st: Stage, sc: Scope, row: Row, parent: Val) {
    && row == (if sc.onRow then Ground(st) else OtherRow(st))
    && match sc.parent
       case Unbound => parent == VNone
       case Checked => parent == VObj(Ground(st))
       case Scanned => parent == VObj(OtherRow(st))
  }

  /** Steps of the kinds of the path's parts, none too large. */
  predicate MovesLike(parts: seq<Part>, ms: seq<Move>, n: nat) {
    |ms| == |parts| && forall i | 0 <= i < |parts| :: MoveLike(parts[i], ms[i], n)
  }

  predicate MoveLike(p: Part, m: Move, n: nat) {
    match p
    case Start(_) => m.Nowhere?
    case Field(f) => m == Fetch(f)
    case Index(k) => m == Nth(k) && k <= n
    case Method(f, _) => m.Call? && m.func == f
    case Graph(_) => m.Hop?
  }

  predicate SmallPath(parts: seq<Part>, st: Stage) {
    && |parts| <= st.cover.size && (forall i | 0 < i < |parts| :: !parts[i].Start?)
    && forall i | 0 <= i < |parts| :: (parts[i].Field? ==> parts[i].name in st.cover.names) && (parts[i].Index? ==> parts[i].at <= st.cover.size)
  }

  /** A row path that stays on the generated row. */
  lemma {:induction false} RowPathFalls(env: Env, store: Store, st: Stage, parts: seq<Part>, ms: seq<Move>)
    requires Staged(env, store, st) && !st.flip && SmallPath(parts, st) && MovesLike(parts, ms, st.cover.size)
    requires parts != [] && !parts[0].Start? && !parts[0].Index?
    ensures Spotted(Walk(env, store, VObj(GenRow(st)), ms))
  {
    assert MoveLike(parts[0], ms[0], st.cover.size);
    forall i | 0 < i < |ms| ensures SmallMove(ms[i], st.cover.size) { assert MoveLike(parts[i], ms[i], st.cover.size); }
    var gen := GenRow(st);
    assert MARK in gen && "id" in gen && gen["id"] == TrapOf(st);
    FallsIn(env, store, st, VObj(gen), ms);
  }

  lemma SmallRest(parts: seq<Part>, ms: seq<Move>, st: Stage, i: nat)
    requires SmallPath(parts, st) && MovesLike(parts, ms, st.cover.size) && 0 < i <= |parts|
    ensures forall j | 0 <= j < |ms[i..]| :: SmallMove(ms[i..][j], st.cover.size)
  {
    forall j | i <= j < |ms| ensures SmallMove(ms[j], st.cover.size) { assert MoveLike(parts[j], ms[j], st.cover.size); }
  }

  /** A path of `$parent` in the rebased reading. */
  lemma {:induction false} ParentFalls(env: Env, store: Store, st: Stage, parts: seq<Part>, ms: seq<Move>, sc: Scope, parent: Val)
    requires Staged(env, store, st) && !st.flip && SmallPath(parts, st) && MovesLike(parts, ms, st.cover.size)
    requires PathOff(parts, sc, false) && parts[0].Start? && Placed(st, sc, if sc.onRow then Ground(st) else OtherRow(st), parent)
    ensures Spotted(Walk(env, store, parent, MovesAfter(parts, ms, st.link, sc)[1..]))
  {
    var out := MovesAfter(parts, ms, st.link, sc);
    if |parts| == 1 {
      assert out[1..] == [] && MARK in GenRow(st);
    } else {
      assert MoveLike(parts[1], ms[1], st.cover.size);
      SmallRest(parts, ms, st, 1);
      SmallRest(parts, ms, st, 2);
      if !IsParentPath(parts) {
        assert out[1..] == ms[1..] && ms[1..][0] == ms[1] && "id" in GenRow(st) && GenRow(st)["id"] == TrapOf(st);
        FallsIn(env, store, st, parent, ms[1..]);
      } else if parts[1] == Field("id") {
        assert out[1..] == [Fetch(st.link)] + ms[2..];
        FallsIn(env, store, st, parent, out[1..]);
      } else if parts[1].Method? && parts[1].func == "id" {
        assert out[1..] == [Call(st.link, ms[1].args)] + ms[2..];
        FallsIn(env, store, st, parent, out[1..]);
      } else {
        assert out[1..] == [Fetch(st.link)] + ms[1..];
        FallsIn(env, store, st, parent, out[1..]);
      }
    }
  }

  /** A method of the row itself, in the original reading. */
  lemma {:induction false} MethodFalls(env: Env, store: Store, st: Stage, parts: seq<Part>, ms: seq<Move>)
    requires Staged(env, store, st) && st.flip && SmallPath(parts, st) && MovesLike(parts, ms, st.cover.size)
    requires |parts| >= 2 && parts[1].Method?
    ensures Spotted(Walk(env, store, VObj(RecRow()), ms[1..]))
  {
    assert MoveLike(parts[1], ms[1], st.cover.size) && ms[1..][0] == ms[1];
    SmallRest(parts, ms, st, 1);
    FallsIn(env, store, st, VObj(RecRow()), ms[1..]);
  }

  /** Whichever way a path is moved, a call keeps its arguments. */
  lemma CallSurvives(parts: seq<Part>, ms: seq<Move>, link: string, sc: Scope, i: nat, n: nat) returns (k: nat)
    requires MovesLike(parts, ms, n) && i < |parts| && parts[i].Method?
    ensures var out := MovesAfter(parts, ms, link, sc);
      k < |out| <= |parts| + 1 && out[k].Call? && out[k].args == ms[i].args && (parts[0].Start? ==> k > 0)
  {
    var out := MovesAfter(parts, ms, link, sc);
    assert MoveLike(parts[i], ms[i], n) && MoveLike(parts[0], ms[0], n);
    k := i;
    if parts[0].Start? && IsParentPath(parts) {
      assert MoveLike(parts[1], ms[1], n);
      if parts[1] != Field("id") && !(parts[1].Method? && parts[1].func == "id") { k := i + 1; }
    } else if !parts[0].Start? && sc.onRow && sc.entered && parts[0].Field? {
      k := i + 1;
    }
  }

  lemma SmallAfter(parts: seq<Part>, ms: seq<Move>, st: Stage, sc: Scope)
    requires SmallPath(parts, st) && MovesLike(parts, ms, st.cover.size)
    ensures var out := MovesAfter(parts, ms, st.link, sc); forall j | 0 < j < |out| :: SmallMove(out[j], st.cover.size)
  {
    forall j | 0 <= j < |ms| && (j > 0 || !parts[0].Start?) ensures SmallMove(ms[j], st.cover.size) { assert MoveLike(parts[j], ms[j], st.cover.size); }
    if parts != [] { assert MoveLike(parts[0], ms[0], st.cover.size); }
  }

  /** A spot in an argument, in either reading. */
  lemma ArgFalls(env: Env, store: Store, st: Stage, parts: seq<Part>, ms: seq<Move>, out: seq<Part>, outMs: seq<Move>, sc: Scope, i: nat, row: Row, parent: Val)
    requires Staged(env, store, st) && SmallPath(parts, st) && MovesLike(parts, ms, st.cover.size) && SameHeads(parts, out) && |out| == |outMs|
    requires i < |parts| && parts[i].Method? && ms[i].Call? && AnySpotted(ms[i].args)
    requires outMs == if st.flip then ms else MovesAfter(parts, ms, st.link, sc)
    ensures Spotted(PathValue(env, store, out, outMs, row, parent))
  {
    var k := i;
    if !st.flip { k := CallSurvives(parts, ms, st.link, sc, i, st.cover.size); }
    SmallAfter(parts, ms, st, sc);
    forall j | 0 < j < |outMs| ensures SmallMove(outMs[j], st.cover.size) { if st.flip { assert MoveLike(parts[j], ms[j], st.cover.size); } }
    if parts[0].Start? {
      assert outMs[1..][k - 1] == outMs[k];
      SpotPassedOn(env, store, st, ParamValue(env, parts[0].param, parent), outMs[1..], k - 1);
    } else {
      SpotPassedOn(env, store, st, VObj(row), outMs, k);
    }
  }

  /** The arguments and parts that reading evaluates. */
  function SeenArgs(st: Stage, es: seq<Expr>): seq<Expr> { if st.flip then es else ParentsInAll(es, st.link) }
  function SeenParts(st: Stage, parts: seq<Part>): seq<Part> { if st.flip then parts else PartsInside(parts, st.link) }

  lemma {:induction false} CoveredPath(env: Env, store: Store, st: Stage, parts: seq<Part>, row: Row, parent: Val)
    requires Shaped(Idiom(parts)) && Covers(st.cover, Idiom(parts))
    ensures SmallPath(parts, st) && MovesLike(parts, Moves(env, store, SeenParts(st, parts), row, parent), st.cover.size)
  {
    var seen := SeenParts(st, parts);
    forall i | 0 <= i < |parts|
      ensures (parts[i].Field? ==> parts[i].name in st.cover.names) && MoveLike(parts[i], Moved(env, store, seen[i], row, parent), st.cover.size)
    {
      assert parts[i] in parts && CoversPart(st.cover, parts[i]);
      assert st.flip || seen[i] == PartInside(parts[i], st.link);
    }
  }

  /** A path with a wrong head, from the steps of its parts. */
  lemma OffPathShows(env: Env, store: Store, st: Stage, parts: seq<Part>, ms: seq<Move>, out: seq<Part>, outMs: seq<Move>, sc: Scope, row: Row, parent: Val)
    requires Staged(env, store, st) && SmallPath(parts, st) && MovesLike(parts, ms, st.cover.size) && SameHeads(parts, out) && |out| == |outMs|
    requires PathOff(parts, sc, st.flip) && Placed(st, sc, row, parent)
    requires outMs == if st.flip then ms else MovesAfter(parts, ms, st.link, sc)
    ensures Spotted(PathValue(env, store, out, outMs, row, parent))
  {
    if st.flip {
      MethodFalls(env, store, st, parts, ms);
    } else if parts[0].Start? {
      ParentFalls(env, store, st, parts, ms, sc, parent);
    } else {
      assert outMs == ms;
      RowPathFalls(env, store, st, parts, ms);
    }
  }

  lemma {:induction false} ArgsShow(env: Env, store: Store, st: Stage, p: Part, sc: Scope, row: Row, parent: Val)
    requires Staged(env, store, st) && ShapedPart(p) && CoversPart(st.cover, p)
    requires PartOff(p, st.binds, sc, st.flip) && !sc.entered && Placed(st, sc, row, parent)
    ensures AnySpotted(EvalAll(env, store, SeenArgs(st, p.args), row, parent))
    decreases p, 1
  {
    var a :| a in p.args && Off(a, st.binds, sc, st.flip);
    var i :| 0 <= i < |p.args| && p.args[i] == a;
    Shows(env, store, st, a, sc, row, parent);
    assert SeenArgs(st, p.args)[i] == Seen(st, a, sc);
    assert Spotted(EvalAll(env, store, SeenArgs(st, p.args), row, parent)[i]);
  }

  /** The path that reading evaluates, and its steps. */
  lemma SeenIdiom(env: Env, store: Store, st: Stage, parts: seq<Part>, sc: Scope, row: Row, parent: Val) returns (out: seq<Part>, outMs: seq<Move>)
    ensures Seen(st, Idiom(parts), sc) == Idiom(out) && SameHeads(parts, out) && outMs == Moves(env, store, out, row, parent)
    ensures var ms := Moves(env, store, SeenParts(st, parts), row, parent); outMs == if st.flip then ms else MovesAfter(parts, ms, st.link, sc)
    ensures Eval(env, store, Seen(st, Idiom(parts), sc), row, parent) == PathValue(env, store, out, outMs, row, parent)
  {
    out := if st.flip then parts else RewrittenParts(parts, st.link, sc);
    outMs := Moves(env, store, out, row, parent);
    RewrittenIdiom(parts, st.link, sc);
    KeepsHead(parts, st.link, sc);
    MovesAre(env, store, parts, st.link, sc, row, parent, Moves(env, store, PartsInside(parts, st.link), row, parent));
    EvalIdiom(env, store, out, row, parent);
  }

  lemma {:induction false} IdiomShows(env: Env, store: Store, st: Stage, e: Expr, sc: Scope, row: Row, parent: Val)
    requires Staged(env, store, st) && e.Idiom? && Shaped(e) && Covers(st.cover, e)
    requires Off(e, st.binds, sc, st.flip) && Placed(st, sc, row, parent)
    ensures Spotted(Eval(env, store, Seen(st, e, sc), row, parent))
    decreases e, 2
  {
    var seen, ms := SeenParts(st, e.parts), Moves(env, store, SeenParts(st, e.parts), row, parent);
    CoveredPath(env, store, st, e.parts, row, parent);
    var out, outMs := SeenIdiom(env, store, st, e.parts, sc, row, parent);
    if PathOff(e.parts, sc, st.flip) {
      OffPathShows(env, store, st, e.parts, ms, out, outMs, sc, row, parent);
    } else {
      var p :| p in e.parts && PartOff(p, st.binds, Within(sc), st.flip);
      var i :| 0 <= i < |e.parts| && e.parts[i] == p;
      ArgsShow(env, store, st, p, Within(sc), row, parent);
      assert seen[i].args == SeenArgs(st, p.args) && ms[i] == Moved(env, store, seen[i], row, parent);
      ArgFalls(env, store, st, e.parts, ms, out, outMs, sc, i, row, parent);
    }
  }

  lemma {:induction false} NodeShows(env: Env, store: Store, st: Stage, e: Expr, sc: Scope, row: Row, parent: Val)
    requires Staged(env, store, st) && e.Node? && Shaped(e) && Covers(st.cover, e)
    requires Off(e, st.binds, sc, st.flip) && Placed(st, sc, row, parent)
    ensures Spotted(Eval(env, store, Seen(st, e, sc), row, parent))
    decreases e, 2
  {
    var a :| a in e.args && Off(a, st.binds, sc, st.flip);
    var i :| 0 <= i < |e.args| && e.args[i] == a;
    Shows(env, store, st, a, sc, row, parent);
    RewrittenNode(e, st.link, sc);
    var seen := Seen(st, e, sc);
    SpotOfNode(env, store, st, seen, row, parent);
    assert Spotted(EvalAll(env, store, seen.args, row, parent)[i]);
  }

  /** A rule that is off shows a spot in the reading it is off in. */
  lemma {:induction false} Shows(env: Env, store: Store, st: Stage, e: Expr, sc: Scope, row: Row, parent: Val)
    requires Staged(env, store, st) && Shaped(e) && Covers(st.cover, e)
    requires Off(e, st.binds, sc, st.flip) && Placed(st, sc, row, parent)
    ensures Spotted(Eval(env, store, Seen(st, e, sc), row, parent))
    decreases e, 3
  {
    RewrittenInside(e, st.link, sc, st.binds);
    EvalInside(env, store, Seen(st, e, sc), row, parent);
    match e
    case Param(_) =>
    case Idiom(_) => IdiomShows(env, store, st, e, sc, row, parent);
    case Node(_, _) => NodeShows(env, store, st, e, sc, row, parent);
    case Paren(v) => Shows(env, store, st, v, InParens(sc, st.binds), row, if st.binds then VObj(row) else parent);
    case Select(v, _, c) =>
      var part := if Off(v, st.binds, InSubquery(sc), st.flip) then v else c;
      Shows(env, store, st, part, InSubquery(sc), OtherRow(st), VObj(row));
      SpotOfSelect(env, store, st, Seen(st, e, sc), row, parent);
    case Block(v) => Shows(env, store, st, v, Within(sc), row, parent);
  }

  // ---------- exactly ----------

  /** Whatever operators, methods, edges and parameters mean, on every database, and every row that links to a record, the rebased
      rule has the record's value. */
  ghost predicate AlwaysPreserved(e: Expr, parenBinds: bool, link: string) {
    forall env: Env, store: Store, gen: Row, r: RecordId | env.parenBindsParent == parenBinds && Linked(store, gen, link, r) ::
      Eval(env, store, Rebased(e, link), gen, VNone) == Eval(env, store, e, store.rows[r], VNone)
  }

  lemma Differs(e: Expr, parenBinds: bool, link: string, flip: bool) returns (env: Env, store: Store, gen: Row)
    requires Shaped(e) && Avoids(e, link) && LinkName(link) && Off(e, parenBinds, TOP, flip)
    ensures env.parenBindsParent == parenBinds && Linked(store, gen, link, Rec)
    ensures Eval(env, store, Rebased(e, link), gen, VNone) != Eval(env, store, e, store.rows[Rec], VNone)
  {
    var c := CoverOf(e, link);
    var st := Stage(link, parenBinds, c, flip);
    env, store, gen := EnvOf(st), StoreOf(st), GenRow(st);
    StageIsLinked(st);
    CalmOf(e, st);
    Shows(env, store, st, e, TOP, Ground(st), VNone);
    if flip {
      CalmRebased(e, st);
      CalmParents(RebaseExpr(e, link), st);
      IsClean(env, store, st, Rebased(e, link), gen, VNone);
    } else {
      IsClean(env, store, st, e, RecRow(), VNone);
    }
  }

  /** The meaning of a rule is preserved in every database exactly when the rule is fine. */
  lemma {:induction false} PreservedExactly(e: Expr, parenBinds: bool, link: string)
    requires Shaped(e) && Avoids(e, link) && LinkName(link)
    ensures AlwaysPreserved(e, parenBinds, link) <==> Fine(e, parenBinds, TOP)
  {
    if Fine(e, parenBinds, TOP) {
      forall env: Env, store: Store, gen: Row, r: RecordId | env.parenBindsParent == parenBinds && Linked(store, gen, link, r)
        ensures Eval(env, store, Rebased(e, link), gen, VNone) == Eval(env, store, e, store.rows[r], VNone)
      {
        RebasePreserves(env, store, gen, link, r, e);
      }
    } else {
      NotFine(e, parenBinds, TOP);
      var env, store, gen := Differs(e, parenBinds, link, Off(e, parenBinds, TOP, true));
      assert env.parenBindsParent == parenBinds && Linked(store, gen, link, Rec);
    }
  }
}
