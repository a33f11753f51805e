/** Reading a parent table's rule through a record link on a generated row. */
module Rebase {
  import opened Rules

  // ---------- the tree pass ----------

  /** `published` becomes `link.published`; a bare `id` becomes `link`. Arguments of later steps are not looked at. */
  function RebasedParts(parts: seq<Part>, link: string): seq<Part> {
    if parts == [] || !parts[0].Field? then parts
    else if |parts| == 1 && parts[0].name == "id" then [Field(link)]
    else [Field(link)] + parts
  }

  function RebaseExpr(e: Expr, link: string): Expr {
    match e
    case Idiom(parts) => Idiom(RebasedParts(parts, link))
    case Node(op, args) => Node(op, seq(|args|, i requires 0 <= i < |args| => RebaseExpr(args[i], link)))
    case Paren(v) => Paren(RebaseExpr(v, link))
    case _ => e
  }

  // ---------- the `$parent` pass, as a rewrite of each path ----------

  /** `$parent.x` or `$parent.f(...)`: a dot follows. */
  predicate IsParentPath(parts: seq<Part>) {
    |parts| >= 2 && parts[0] == Start("parent") && (parts[1].Field? || parts[1].Method?)
  }

  /** `$parent.id...` becomes `$parent.link...`, any other `$parent.x...` becomes `$parent.link.x...`; methods likewise. */
  function ParentParts(parts: seq<Part>, link: string): seq<Part> {
    if !IsParentPath(parts) then parts
    else if parts[1] == Field("id") then [parts[0], Field(link)] + parts[2..]
    else if parts[1].Method? && parts[1].func == "id" then [parts[0], Method(link, parts[1].args)] + parts[2..]
    else [parts[0], Field(link)] + parts[1..]
  }

  function RebaseParents(e: Expr, link: string): Expr
    decreases e, 0
  {
    match e
    case Idiom(parts) => Idiom(ParentParts(PartsInside(parts, link), link))
    case Node(op, args) => Node(op, ParentsInAll(args, link))
    case Paren(v) => Paren(RebaseParents(v, link))
    case Select(v, t, c) => Select(RebaseParents(v, link), t, RebaseParents(c, link))
    case Block(v) => Block(RebaseParents(v, link))
    case _ => e
  }

  function ParentsInAll(es: seq<Expr>, link: string): (out: seq<Expr>)
    ensures |out| == |es| && forall i | 0 <= i < |es| :: out[i] == RebaseParents(es[i], link)
    decreases es, 1
  {
    seq(|es|, i requires 0 <= i < |es| => RebaseParents(es[i], link))
  }

  /** A step with the paths in its arguments rewritten. */
  function PartInside(p: Part, link: string): Part
    decreases p, 2
  {
    if p.Method? then Method(p.func, ParentsInAll(p.args, link)) else p
  }

  function PartsInside(parts: seq<Part>, link: string): (out: seq<Part>)
    ensures |out| == |parts| && forall i | 0 <= i < |parts| :: out[i] == PartInside(parts[i], link)
    decreases parts, 3
  {
    seq(|parts|, i requires 0 <= i < |parts| => PartInside(parts[i], link))
  }

  /** Both passes: the rule the generated table gets. */
  function Rebased(e: Expr, link: string): Expr {
    RebaseParents(RebaseExpr(e, link), link)
  }

  // ---------- which rules the rewrite handles ----------

  /** What `$parent` stands for: nothing, the row being checked, or a row a subquery scans. */
  datatype Bound = Unbound | Checked | Scanned

  /** Where an expression stands: whether bare fields belong to the row being checked, whether the tree pass gets there, and
      what `$parent` is. */
  datatype Scope = Scope(onRow: bool, entered: bool, parent: Bound)

  const TOP := Scope(true, true, Unbound)

  /** What `$parent` becomes where it is bound anew. */
  function Rebound(sc: Scope): Bound { if sc.onRow then Checked else Scanned }

  function InSubquery(sc: Scope): Scope { Scope(false, false, Rebound(sc)) }
  function InParens(sc: Scope, parenBinds: bool): Scope { if parenBinds then sc.(parent := Rebound(sc)) else sc }

  /** In a node kind, or in the arguments of a path's step: the same row, but the tree pass does not get there. */
  function Within(sc: Scope): Scope { sc.(entered := false) }

  /** The head of a path is moved exactly when it must be, or finds the same before and after. */
  predicate PathFine(parts: seq<Part>, sc: Scope) {
    || parts == []
    || if parts[0].Start? then
         parts[0].param == "parent" ==>
           match sc.parent
           case Unbound => !(|parts| >= 2 && parts[1].Method? && parts[1].func == "id")
           case Checked => |parts| >= 2 && (parts[1].Field? || parts[1].Index?)
           case Scanned => !IsParentPath(parts)
       else
         sc.onRow ==> parts[0].Index? || (sc.entered && parts[0].Field?)
  }

  predicate Fine(e: Expr, parenBinds: bool, sc: Scope)
    decreases e, 0
  {
    match e
    case Lit(_, _) => true
    case Param(n) => n == "parent" ==> sc.parent != Checked
    case Idiom(parts) => PathFine(parts, sc) && forall p | p in parts :: PartFine(p, parenBinds, Within(sc))
    case Node(_, args) => forall a | a in args :: Fine(a, parenBinds, sc)
    case Paren(v) => Fine(v, parenBinds, InParens(sc, parenBinds))
    case Select(v, _, c) => Fine(v, parenBinds, InSubquery(sc)) && Fine(c, parenBinds, InSubquery(sc))
    case Block(v) => Fine(v, parenBinds, Within(sc))
  }

  predicate PartFine(p: Part, parenBinds: bool, sc: Scope)
    decreases p, 1
  {
    p.Method? ==> forall a | a in p.args :: Fine(a, parenBinds, sc)
  }

  /** What becomes of an expression there: both passes, or the `$parent` pass alone. */
  function Rewritten(e: Expr, link: string, sc: Scope): Expr {
    if sc.onRow && sc.entered then Rebased(e, link) else RebaseParents(e, link)
  }

  /** The path of a rewritten idiom. */
  function RewrittenParts(parts: seq<Part>, link: string, sc: Scope): seq<Part> {
    var inside := PartsInside(parts, link);
    if parts == [] then []
    else if parts[0].Start? then ParentParts(inside, link)
    else if sc.onRow && sc.entered then RebasedParts(inside, link)
    else inside
  }

  lemma RewrittenIdiom(parts: seq<Part>, link: string, sc: Scope)
    ensures Rewritten(Idiom(parts), link, sc) == Idiom(RewrittenParts(parts, link, sc))
  {
    var inside := PartsInside(parts, link);
    if parts != [] && parts[0].Field? {
      assert inside[0] == parts[0];
      assert PartsInside([Field(link)] + parts, link) == [Field(link)] + inside;
      assert PartsInside([Field(link)], link) == [Field(link)];
    }
  }

  lemma RewrittenNode(e: Expr, link: string, sc: Scope)
    requires e.Node?
    ensures var out := Rewritten(e, link, sc);
      out.Node? && out.op == e.op && |out.args| == |e.args| && forall i | 0 <= i < |e.args| :: out.args[i] == Rewritten(e.args[i], link, sc)
  {
  }

  lemma {:induction false} RewrittenInside(e: Expr, link: string, sc: Scope, parenBinds: bool)
    ensures e.Paren? ==> Rewritten(e, link, sc) == Paren(Rewritten(e.body, link, InParens(sc, parenBinds)))
    ensures e.Block? ==> Rewritten(e, link, sc) == Block(Rewritten(e.stmt, link, Within(sc)))
    ensures e.Select? ==> Rewritten(e, link, sc) == RebaseParents(e, link)
    ensures e.Select? ==> RebaseParents(e, link) == Select(Rewritten(e.project, link, InSubquery(sc)), e.table, Rewritten(e.cond, link, InSubquery(sc)))
  {
  }

  // ---------- meaning is preserved ----------

  /** The generated row `gen` links to the stored record `r`. */
  ghost predicate Linked(store: Store, gen: Row, link: string, r: RecordId) {
    WellFormed(store) && r in store.rows && link in gen && gen[link] == VLink(r)
  }

  /** The rows before and after: the record and the generated row, or one scanned row. */
  ghost predicate RowsMatch(store: Store, gen: Row, r: RecordId, sc: Scope, row: Row, row': Row)
    requires r in store.rows
  {
    if sc.onRow then row == store.rows[r] && row' == gen else row == row'
  }

  /** `$parent` before and after. */
  ghost predicate ParentsMatch(store: Store, gen: Row, r: RecordId, parent: Bound, before: Val, after: Val)
    requires r in store.rows
  {
    match parent
    case Unbound => before == VNone && after == VNone
    case Checked => before == VObj(store.rows[r]) && after == VObj(gen)
    case Scanned => before == after
  }

  /** Following the link first reaches the record's own fields. */
  lemma {:induction false} ThroughTheLink(env: Env, store: Store, gen: Row, link: string, r: RecordId, ms: seq<Move>)
    requires Linked(store, gen, link, r) && ms != [] && ms[0].Fetch?
    ensures Walk(env, store, VObj(gen), [Fetch(link)] + ms) == Walk(env, store, VObj(store.rows[r]), ms)
  {
    assert ([Fetch(link)] + ms)[1..] == ms;
    assert Step(env, store, VLink(r), ms[0]) == Step(env, store, VObj(store.rows[r]), ms[0]);
  }

  /** A row path behind the link; a bare `id` is the link. */
  lemma {:induction false} RowPath(env: Env, store: Store, gen: Row, link: string, r: RecordId, ms: seq<Move>)
    requires Linked(store, gen, link, r) && ms != [] && ms[0].Fetch?
    ensures Walk(env, store, VObj(gen), if ms == [Fetch("id")] then [Fetch(link)] else [Fetch(link)] + ms)
         == Walk(env, store, VObj(store.rows[r]), ms)
  {
    if ms != [Fetch("id")] {
      ThroughTheLink(env, store, gen, link, r, ms);
    }
  }

  /** A `$parent` field path, `$parent` being unbound or the checked row. */
  lemma ParentPath(env: Env, store: Store, gen: Row, link: string, r: RecordId, ms: seq<Move>, parent: Bound, before: Val, after: Val)
    requires Linked(store, gen, link, r) && parent != Scanned && ParentsMatch(store, gen, r, parent, before, after)
    requires ms != [] && ms[0].Fetch?
    ensures Walk(env, store, after, if ms[0].name == "id" then [Fetch(link)] + ms[1..] else [Fetch(link)] + ms) == Walk(env, store, before, ms)
  {
    var out := if ms[0].name == "id" then [Fetch(link)] + ms[1..] else [Fetch(link)] + ms;
    assert out[1..] == if ms[0].name == "id" then ms[1..] else ms;
    if before == VNone {
      assert Step(env, store, VNone, Fetch(link)) == VNone == Step(env, store, VNone, ms[0]);
    } else if ms[0].name != "id" {
      ThroughTheLink(env, store, gen, link, r, ms);
    }
  }

  /** The steps of a rewritten path, from the steps `ms` of the path. */
  function MovesAfter(parts: seq<Part>, ms: seq<Move>, link: string, sc: Scope): seq<Move>
    requires |ms| == |parts|
  {
    if parts == [] then []
    else if parts[0].Start? then
      if !IsParentPath(parts) then ms
      else if parts[1] == Field("id") then [ms[0], Fetch(link)] + ms[2..]
      else if parts[1].Method? && parts[1].func == "id" && ms[1].Call? then [ms[0], Call(link, ms[1].args)] + ms[2..]
      else [ms[0], Fetch(link)] + ms[1..]
    else if sc.onRow && sc.entered && parts[0].Field? then
      if |parts| == 1 && parts[0].name == "id" then [Fetch(link)] else [Fetch(link)] + ms
    else ms
  }

  lemma {:induction false} MovesJoin(env: Env, store: Store, a: seq<Part>, b: seq<Part>, row: Row, parent: Val)
    ensures Moves(env, store, a + b, row, parent) == Moves(env, store, a, row, parent) + Moves(env, store, b, row, parent)
  {
  }

  lemma {:induction false} MovesDrop(env: Env, store: Store, parts: seq<Part>, i: nat, row: Row, parent: Val)
    requires i <= |parts|
    ensures Moves(env, store, parts[i..], row, parent) == Moves(env, store, parts, row, parent)[i..]
  {
  }

  lemma {:induction false} MovesOfTwo(env: Env, store: Store, p: Part, q: Part, row: Row, parent: Val)
    ensures Moves(env, store, [p, q], row, parent) == [Moved(env, store, p, row, parent), Moved(env, store, q, row, parent)]
  {
  }

  lemma {:induction false} MovesOfParent(env: Env, store: Store, parts: seq<Part>, link: string, row: Row, parent: Val, sc: Scope)
    requires parts != [] && parts[0].Start?
    ensures Moves(env, store, ParentParts(parts, link), row, parent) == MovesAfter(parts, Moves(env, store, parts, row, parent), link, sc)
  {
    if IsParentPath(parts) {
      var renamed := parts[1].Method? && parts[1].func == "id";
      var second := if renamed then Method(link, parts[1].args) else Field(link);
      var from := if renamed || parts[1] == Field("id") then 2 else 1;
      MovesOfTwo(env, store, parts[0], second, row, parent);
      MovesDrop(env, store, parts, from, row, parent);
      MovesJoin(env, store, [parts[0], second], parts[from..], row, parent);
    }
  }

  /** Rewriting inside the arguments changes no step that keeps its values. */
  lemma {:induction false} MovesAre(env: Env, store: Store, parts: seq<Part>, link: string, sc: Scope, row: Row, parent: Val, ms: seq<Move>)
    requires Moves(env, store, PartsInside(parts, link), row, parent) == ms
    ensures Moves(env, store, RewrittenParts(parts, link, sc), row, parent) == MovesAfter(parts, ms, link, sc)
  {
    var inside := PartsInside(parts, link);
    if parts != [] {
      assert inside[0] == PartInside(parts[0], link);
      if parts[0].Start? {
        assert |parts| >= 2 ==> inside[1] == PartInside(parts[1], link);
        MovesOfParent(env, store, inside, link, row, parent, sc);
      }
    }
  }

  lemma {:induction false} ParamPathPreserved(env: Env, store: Store, gen: Row, link: string, r: RecordId, parts: seq<Part>, ms: seq<Move>, sc: Scope, before: Val, after: Val)
    requires Linked(store, gen, link, r) && ParentsMatch(store, gen, r, sc.parent, before, after)
    requires StepsOf(parts, ms) && parts != [] && parts[0].Start? && PathFine(parts, sc)
    ensures var out := MovesAfter(parts, ms, link, sc);
      out != [] && Walk(env, store, ParamValue(env, parts[0].param, after), out[1..]) == Walk(env, store, ParamValue(env, parts[0].param, before), ms[1..])
  {
    var out := MovesAfter(parts, ms, link, sc);
    if IsParentPath(parts) {
      assert out[1..] == if parts[1] == Field("id") then [Fetch(link)] + ms[1..][1..] else [Fetch(link)] + ms[1..];
      if parts[1].Field? {
        ParentPath(env, store, gen, link, r, ms[1..], sc.parent, before, after);
      } else {
        assert Step(env, store, VNone, Fetch(link)) == VNone && ([Fetch(link)] + ms[1..])[1..] == ms[1..];
      }
    } else if parts[0].param == "parent" && sc.parent == Checked {
      assert ms[1..][0] == ms[1];
      assert Step(env, store, before, ms[1]) == VNone == Step(env, store, after, ms[1]);
    }
  }

  lemma {:induction false} RowPathPreserved(env: Env, store: Store, gen: Row, link: string, r: RecordId, parts: seq<Part>, ms: seq<Move>, sc: Scope, row: Row, row': Row)
    requires Linked(store, gen, link, r) && RowsMatch(store, gen, r, sc, row, row')
    requires StepsOf(parts, ms) && parts != [] && !parts[0].Start? && PathFine(parts, sc)
    ensures Walk(env, store, VObj(row'), MovesAfter(parts, ms, link, sc)) == Walk(env, store, VObj(row), ms)
  {
    if sc.onRow && parts[0].Field? {
      RowPath(env, store, gen, link, r, ms);
      assert |parts| == 1 ==> ms == [ms[0]];
    } else if sc.onRow {
      assert Step(env, store, VObj(row), ms[0]) == VNone == Step(env, store, VObj(row'), ms[0]);
    }
  }

  /** The fields and indexes among the steps are the path's. */
  predicate StepsOf(parts: seq<Part>, ms: seq<Move>) {
    && |ms| == |parts|
    && forall i | 0 <= i < |parts| :: (parts[i].Field? ==> ms[i] == Fetch(parts[i].name)) && (parts[i].Index? ==> ms[i].Nth?)
  }

  /** Both paths start from the row, or both from the same parameter. */
  predicate SameHeads(parts: seq<Part>, out: seq<Part>) {
    (parts == [] <==> out == []) && (parts != [] ==> (out[0].Start? <==> parts[0].Start?) && (parts[0].Start? ==> out[0] == parts[0]))
  }

  /** A path whose steps have the same arguments before and after. */
  lemma PathPreserved(env: Env, store: Store, gen: Row, link: string, r: RecordId, parts: seq<Part>, ms: seq<Move>, out: seq<Part>, sc: Scope,
                      row: Row, row': Row, before: Val, after: Val)
    requires Linked(store, gen, link, r) && RowsMatch(store, gen, r, sc, row, row')
    requires ParentsMatch(store, gen, r, sc.parent, before, after) && PathFine(parts, sc)
    requires StepsOf(parts, ms) && |out| == |MovesAfter(parts, ms, link, sc)| && SameHeads(parts, out)
    ensures PathValue(env, store, out, MovesAfter(parts, ms, link, sc), row', after) == PathValue(env, store, parts, ms, row, before)
  {
    if parts != [] {
      if parts[0].Start? {
        ParamPathPreserved(env, store, gen, link, r, parts, ms, sc, before, after);
      } else {
        RowPathPreserved(env, store, gen, link, r, parts, ms, sc, row, row');
      }
    }
  }

  lemma {:induction false} EvalIdiom(env: Env, store: Store, parts: seq<Part>, row: Row, parent: Val)
    ensures Eval(env, store, Idiom(parts), row, parent) == PathValue(env, store, parts, Moves(env, store, parts, row, parent), row, parent)
  {
  }

  lemma KeepsHead(parts: seq<Part>, link: string, sc: Scope)
    ensures SameHeads(parts, RewrittenParts(parts, link, sc))
  {
    if parts != [] { assert PartsInside(parts, link)[0] == PartInside(parts[0], link); }
  }

  lemma {:induction false} SameOperands(env: Env, store: Store, e: Expr, e': Expr, row: Row, parent: Val, row': Row, parent': Val)
    requires e.Node? && e'.Node? && e.op == e'.op && |e.args| == |e'.args|
    requires forall i | 0 <= i < |e.args| ::
      Eval(env, store, e'.args[i], row', parent') == Eval(env, store, e.args[i], row, parent)
    ensures Eval(env, store, e', row', parent') == Eval(env, store, e, row, parent)
  {
    assert EvalAll(env, store, e'.args, row', parent') == EvalAll(env, store, e.args, row, parent);
  }

  lemma {:induction false} SelectPreserved(env: Env, store: Store, gen: Row, link: string, r: RecordId,
                                           e: Expr, sc: Scope, ids: seq<RecordId>, before: Val, after: Val)
    requires Linked(store, gen, link, r) && ParentsMatch(store, gen, r, Rebound(sc), before, after)
    requires e.Select? && Fine(e, env.parenBindsParent, sc)
    ensures EvalRows(env, store, RebaseParents(e, link), ids, after) == EvalRows(env, store, e, ids, before)
    decreases e, 0, |ids|
  {
    if ids != [] {
      SelectPreserved(env, store, gen, link, r, e, sc, ids[1..], before, after);
      if ids[0] in store.rows {
        var row := store.rows[ids[0]];
        Preserved(env, store, gen, link, r, e.cond, InSubquery(sc), row, row, before, after);
        Preserved(env, store, gen, link, r, e.project, InSubquery(sc), row, row, before, after);
      }
    }
  }

  lemma {:induction false} NodePreserved(env: Env, store: Store, gen: Row, link: string, r: RecordId,
                                         e: Expr, sc: Scope, row: Row, row': Row, before: Val, after: Val)
    requires Linked(store, gen, link, r) && RowsMatch(store, gen, r, sc, row, row')
    requires ParentsMatch(store, gen, r, sc.parent, before, after) && e.Node? && Fine(e, env.parenBindsParent, sc)
    ensures Eval(env, store, Rewritten(e, link, sc), row', after) == Eval(env, store, e, row, before)
    decreases e, 0, 0
  {
    forall i | 0 <= i < |e.args|
      ensures Eval(env, store, Rewritten(e.args[i], link, sc), row', after) == Eval(env, store, e.args[i], row, before)
    {
      Preserved(env, store, gen, link, r, e.args[i], sc, row, row', before, after);
    }
    RewrittenNode(e, link, sc);
    SameOperands(env, store, e, Rewritten(e, link, sc), row, before, row', after);
  }

  lemma {:induction false} ParenPreserved(env: Env, store: Store, gen: Row, link: string, r: RecordId,
                                          e: Expr, sc: Scope, row: Row, row': Row, before: Val, after: Val)
    requires Linked(store, gen, link, r) && RowsMatch(store, gen, r, sc, row, row')
    requires ParentsMatch(store, gen, r, sc.parent, before, after) && e.Paren? && Fine(e, env.parenBindsParent, sc)
    ensures Eval(env, store, Rewritten(e, link, sc), row', after) == Eval(env, store, e, row, before)
    decreases e, 0, 0
  {
    var b := env.parenBindsParent;
    RewrittenInside(e, link, sc, b);
    Preserved(env, store, gen, link, r, e.body, InParens(sc, b), row, row', if b then VObj(row) else before, if b then VObj(row') else after);
  }

  lemma {:induction false} SubqueryPreserved(env: Env, store: Store, gen: Row, link: string, r: RecordId,
                                             e: Expr, sc: Scope, row: Row, row': Row, before: Val, after: Val)
    requires Linked(store, gen, link, r) && RowsMatch(store, gen, r, sc, row, row')
    requires ParentsMatch(store, gen, r, sc.parent, before, after) && e.Select? && Fine(e, env.parenBindsParent, sc)
    ensures Eval(env, store, Rewritten(e, link, sc), row', after) == Eval(env, store, e, row, before)
    decreases e, 1, 0
  {
    RewrittenInside(e, link, sc, env.parenBindsParent);
    SelectPreserved(env, store, gen, link, r, e, sc, if e.table in store.scan then store.scan[e.table] else [], VObj(row), VObj(row'));
  }

  lemma {:induction false} BlockPreserved(env: Env, store: Store, gen: Row, link: string, r: RecordId,
                                          e: Expr, sc: Scope, row: Row, row': Row, before: Val, after: Val)
    requires Linked(store, gen, link, r) && RowsMatch(store, gen, r, sc, row, row')
    requires ParentsMatch(store, gen, r, sc.parent, before, after) && e.Block? && Fine(e, env.parenBindsParent, sc)
    ensures Eval(env, store, Rewritten(e, link, sc), row', after) == Eval(env, store, e, row, before)
    decreases e, 0, 0
  {
    RewrittenInside(e, link, sc, env.parenBindsParent);
    Preserved(env, store, gen, link, r, e.stmt, Within(sc), row, row', before, after);
  }

  /** The arguments of a path's steps keep their values. */
  lemma {:induction false} ArgsPreserved(env: Env, store: Store, gen: Row, link: string, r: RecordId,
                                         p: Part, sc: Scope, row: Row, row': Row, before: Val, after: Val)
    requires Linked(store, gen, link, r) && RowsMatch(store, gen, r, sc, row, row')
    requires ParentsMatch(store, gen, r, sc.parent, before, after) && PartFine(p, env.parenBindsParent, sc) && !sc.entered
    ensures Moved(env, store, PartInside(p, link), row', after) == Moved(env, store, p, row, before)
    decreases p, 3, 0
  {
    if p.Method? {
      forall i | 0 <= i < |p.args|
        ensures Eval(env, store, ParentsInAll(p.args, link)[i], row', after) == Eval(env, store, p.args[i], row, before)
      {
        assert p.args[i] in p.args;
        Preserved(env, store, gen, link, r, p.args[i], sc, row, row', before, after);
      }
      assert EvalAll(env, store, ParentsInAll(p.args, link), row', after) == EvalAll(env, store, p.args, row, before);
    }
  }

  lemma {:induction false} MovesPreserved(env: Env, store: Store, gen: Row, link: string, r: RecordId,
                                          e: Expr, sc: Scope, row: Row, row': Row, before: Val, after: Val)
    requires Linked(store, gen, link, r) && RowsMatch(store, gen, r, sc, row, row')
    requires ParentsMatch(store, gen, r, sc.parent, before, after) && e.Idiom? && Fine(e, env.parenBindsParent, sc)
    ensures Moves(env, store, PartsInside(e.parts, link), row', after) == Moves(env, store, e.parts, row, before)
    decreases e, 0, 0
  {
    var inside := PartsInside(e.parts, link);
    forall i | 0 <= i < |e.parts|
      ensures Moved(env, store, inside[i], row', after) == Moved(env, store, e.parts[i], row, before)
    {
      assert e.parts[i] in e.parts;
      ArgsPreserved(env, store, gen, link, r, e.parts[i], Within(sc), row, row', before, after);
    }
  }

  lemma {:induction false} MovesAreSteps(env: Env, store: Store, parts: seq<Part>, row: Row, parent: Val)
    ensures StepsOf(parts, Moves(env, store, parts, row, parent))
  {
    forall i | 0 <= i < |parts|
      ensures var m := Moves(env, store, parts, row, parent)[i]; (parts[i].Field? ==> m == Fetch(parts[i].name)) && (parts[i].Index? ==> m.Nth?)
    {
      assert Moves(env, store, parts, row, parent)[i] == Moved(env, store, parts[i], row, parent);
    }
  }

  lemma {:induction false} IdiomPreserved(env: Env, store: Store, gen: Row, link: string, r: RecordId,
                                          e: Expr, sc: Scope, row: Row, row': Row, before: Val, after: Val)
    requires Linked(store, gen, link, r) && RowsMatch(store, gen, r, sc, row, row')
    requires ParentsMatch(store, gen, r, sc.parent, before, after) && e.Idiom? && Fine(e, env.parenBindsParent, sc)
    ensures Eval(env, store, Rewritten(e, link, sc), row', after) == Eval(env, store, e, row, before)
    decreases e, 1, 0
  {
    var ms, out := Moves(env, store, e.parts, row, before), RewrittenParts(e.parts, link, sc);
    MovesPreserved(env, store, gen, link, r, e, sc, row, row', before, after);
    MovesAre(env, store, e.parts, link, sc, row', after, ms);
    MovesAreSteps(env, store, e.parts, row, before);
    KeepsHead(e.parts, link, sc);
    PathPreserved(env, store, gen, link, r, e.parts, ms, out, sc, row, row', before, after);
    RewrittenIdiom(e.parts, link, sc);
    EvalIdiom(env, store, e.parts, row, before);
    EvalIdiom(env, store, out, row', after);
  }

  /** Wherever an expression stands, its rewritten form has there the value it had before. */
  lemma {:induction false} Preserved(env: Env, store: Store, gen: Row, link: string, r: RecordId,
                                     e: Expr, sc: Scope, row: Row, row': Row, before: Val, after: Val)
    requires Linked(store, gen, link, r) && RowsMatch(store, gen, r, sc, row, row')
    requires ParentsMatch(store, gen, r, sc.parent, before, after) && Fine(e, env.parenBindsParent, sc)
    ensures Eval(env, store, Rewritten(e, link, sc), row', after) == Eval(env, store, e, row, before)
    decreases e, 2, 0
  {
    match e
    case Lit(_, _) =>
    case Param(_) =>
    case Idiom(_) => IdiomPreserved(env, store, gen, link, r, e, sc, row, row', before, after);
    case Node(_, _) => NodePreserved(env, store, gen, link, r, e, sc, row, row', before, after);
    case Paren(_) => ParenPreserved(env, store, gen, link, r, e, sc, row, row', before, after);
    case Select(_, _, _) => SubqueryPreserved(env, store, gen, link, r, e, sc, row, row', before, after);
    case Block(_) => BlockPreserved(env, store, gen, link, r, e, sc, row, row', before, after);
  }

  /** The rebased rule on a generated row is the original rule on the record it links to. */
  lemma {:induction false} RebasePreserves(env: Env, store: Store, gen: Row, link: string, r: RecordId, e: Expr)
    requires Linked(store, gen, link, r) && Fine(e, env.parenBindsParent, TOP)
    ensures Eval(env, store, Rebased(e, link), gen, VNone) == Eval(env, store, e, store.rows[r], VNone)
  {
    Preserved(env, store, gen, link, r, e, TOP, store.rows[r], gen, VNone, VNone);
  }
}
