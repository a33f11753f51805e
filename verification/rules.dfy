/** SurrealQL table rules: the expression tree the rebasing step works on, and what such an
    expression evaluates to on a row of a record store whose field paths follow record links. */
module Rules {
  datatype RecordId = RecordId(table: string, key: string)

  datatype Val =
    | VNone
    | VBool(b: bool)
    | VNum(n: int)
    | VStr(s: string)
    | VLink(id: RecordId)
    | VArr(items: seq<Val>)
    | VObj(fields: map<string, Val>)

  type Row = map<string, Val>

  /** `rows` holds every record; `scan` gives the order in which a table's records are visited. */
  datatype Store = Store(rows: map<RecordId, Row>, scan: map<string, seq<RecordId>>)

  /** Every stored record carries its own id. */
  ghost predicate WellFormed(store: Store) {
    forall r :: r in store.rows ==> "id" in store.rows[r] && store.rows[r]["id"] == VLink(r)
  }

  /** One step of an idiom. `Start` can only come first. A method's arguments are expressions on the row the whole idiom
      stands on. */
  datatype Part =
    | Start(param: string)
    | Field(name: string)
    | Index(at: nat)
    | Method(func: string, args: seq<Expr>)
    | Graph(edge: string)

  /** The node kinds whose operands are evaluated on the row the node itself is evaluated on. */
  datatype Operator =
    | Unary(sign: string)
    | Binary(symbol: string)
    | Array
    | Object(keys: seq<string>)
    | Function(func: string)
    | Cast(kind: string)

  datatype Expr =
    | Lit(text: string, value: Val)
    | Param(name: string)
    | Idiom(parts: seq<Part>)
    | Node(op: Operator, args: seq<Expr>)
    | Paren(body: Expr)                                // a value subquery: the same row
    | Select(project: Expr, table: string, cond: Expr) // a statement subquery: rows of `table`
    | Block(stmt: Expr)                                // any node kind the rewrite does not enter

  /** A step with its arguments evaluated. */
  datatype Move =
    | Nowhere
    | Fetch(name: string)
    | Nth(at: nat)
    | Call(func: string, args: seq<Val>)
    | Hop(edge: string)

  /** What the database supplies: parameters, operators, functions, graph edges, and whether a
      parenthesised expression binds `$parent` anew (a value subquery may or may not). */
  datatype Env = Env(
    params: map<string, Val>,
    apply: (Operator, seq<Val>) -> Val,
    invoke: (string, Val, seq<Val>) -> Val,
    traverse: (string, Val) -> Val,
    truthy: Val -> bool,
    parenBindsParent: bool)

  /** One path step from a value. A record link is followed to its record. */
  function Step(env: Env, store: Store, v: Val, m: Move): Val {
    match m
    case Nowhere => VNone
    case Call(f, args) => env.invoke(f, v, args)
    case Hop(e) =>
      if v.VObj? then env.traverse(e, if "id" in v.fields then v.fields["id"] else VNone) else env.traverse(e, v)
    case Fetch(f) =>
      (match v
       case VObj(fields) => if f in fields then fields[f] else VNone
       case VLink(r) =>
         if r in store.rows && f in store.rows[r] then store.rows[r][f] else VNone
       case VArr(items) => VArr(seq(|items|, i requires 0 <= i < |items| => Step(env, store, items[i], m)))
       case _ => VNone)
    case Nth(k) =>
      if v.VArr? && k < |v.items| then v.items[k] else VNone
  }

  function Walk(env: Env, store: Store, v: Val, ms: seq<Move>): Val
    decreases |ms|
  {
    if ms == [] then v else Walk(env, store, Step(env, store, v, ms[0]), ms[1..])
  }

  function ParamValue(env: Env, name: string, parent: Val): Val {
    if name == "parent" then parent else if name in env.params then env.params[name] else VNone
  }

  /** The value of a path, from its steps. */
  function PathValue(env: Env, store: Store, parts: seq<Part>, ms: seq<Move>, row: Row, parent: Val): Val
    requires |ms| == |parts|
  {
    if parts == [] then VNone
    else if parts[0].Start? then Walk(env, store, ParamValue(env, parts[0].param, parent), ms[1..])
    else Walk(env, store, VObj(row), ms)
  }

  /** The value of a rule on `row`, where `$parent` stands for `parent`. */
  function Eval(env: Env, store: Store, e: Expr, row: Row, parent: Val): Val
    decreases e, 2
  {
    match e
    case Lit(_, v) => v
    case Param(n) => ParamValue(env, n, parent)
    case Idiom(parts) => PathValue(env, store, parts, Moves(env, store, parts, row, parent), row, parent)
    case Node(op, args) => env.apply(op, EvalAll(env, store, args, row, parent))
    case Paren(v) => Eval(env, store, v, row, if env.parenBindsParent then VObj(row) else parent)
    case Select(_, t, _) =>
      VArr(EvalRows(env, store, e, if t in store.scan then store.scan[t] else [], VObj(row)))
    case Block(v) => Eval(env, store, v, row, parent)
  }

  function EvalAll(env: Env, store: Store, es: seq<Expr>, row: Row, parent: Val): (vs: seq<Val>)
    ensures |vs| == |es| && forall i | 0 <= i < |vs| :: vs[i] == Eval(env, store, es[i], row, parent)
    decreases es, 3
  {
    seq(|es|, i requires 0 <= i < |es| => Eval(env, store, es[i], row, parent))
  }

  function Moved(env: Env, store: Store, p: Part, row: Row, parent: Val): Move
    decreases p, 4
  {
    match p
    case Start(_) => Nowhere
    case Field(f) => Fetch(f)
    case Index(k) => Nth(k)
    case Method(f, args) => Call(f, EvalAll(env, store, args, row, parent))
    case Graph(e) => Hop(e)
  }

  function Moves(env: Env, store: Store, parts: seq<Part>, row: Row, parent: Val): (ms: seq<Move>)
    ensures |ms| == |parts| && forall i | 0 <= i < |ms| :: ms[i] == Moved(env, store, parts[i], row, parent)
    decreases parts, 5
  {
    seq(|parts|, i requires 0 <= i < |parts| => Moved(env, store, parts[i], row, parent))
  }

  /** The rows of a statement subquery: bare fields belong to the scanned row, `$parent` to the outer one. */
  function EvalRows(env: Env, store: Store, e: Expr, ids: seq<RecordId>, parent: Val): seq<Val>
    requires e.Select?
    decreases e, 1, |ids|
  {
    if ids == [] then []
    else
      var rest := EvalRows(env, store, e, ids[1..], parent);
      if ids[0] in store.rows && env.truthy(Eval(env, store, e.cond, store.rows[ids[0]], parent))
      then [Eval(env, store, e.project, store.rows[ids[0]], parent)] + rest
      else rest
  }
}
