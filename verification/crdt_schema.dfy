/** The rebasing step as `crdt_schema.rs` runs it: trim, pass literals through, parse, rewrite the tree,
    render, rewrite the text. The SurrealQL parser is a parameter. */
module CrdtSchema {
  import opened Options
  import opened Rules
  import opened Rebase
  import opened ParentParam
  import RebaseExact

  datatype Result<T> = Ok(value: T) | Err(rule: string)

  /** Unicode white space. */
  predicate Blank(c: char) {
    var n := c as int;
    || 9 <= n <= 13 || n == 0x20 || n == 0x85 || n == 0xA0 || n == 0x1680 || 0x2000 <= n <= 0x200A
    || n == 0x2028 || n == 0x2029 || n == 0x202F || n == 0x205F || n == 0x3000
  }

  function TrimStart(s: string): string {
    if s != "" && Blank(s[0]) then TrimStart(s[1..]) else s
  }

  function TrimEnd(s: string): string {
    if s != "" && Blank(s[|s| - 1]) then TrimEnd(s[..|s| - 1]) else s
  }

  function Trim(s: string): string { TrimEnd(TrimStart(s)) }

  function Lower(s: string): string {
    seq(|s|, i requires 0 <= i < |s| => if 'A' <= s[i] <= 'Z' then (s[i] as int + 32) as char else s[i])
  }

  predicate IsLiteral(rule: string) {
    Lower(Trim(rule)) == "true" || Lower(Trim(rule)) == "false"
  }

  function RebasePermission(rule: string, parse: string -> Option<Expr>, link: string): Result<string> {
    if IsLiteral(rule) then Ok(Lower(Trim(rule)))
    else match parse(Trim(rule))
      case None => Err(Trim(rule))
      case Some(e) => Ok(RebaseParentParam(Render(Source, RebaseExpr(e, link), link), link))
  }

  // ---------- which text goes where ----------

  predicate Blanks(s: string) { forall c | c in s :: Blank(c) }

  /** Text that trimming leaves alone. */
  predicate Tight(s: string) { s == "" || (!Blank(s[0]) && !Blank(s[|s| - 1])) }

  /** The word, each letter in upper or lower case. */
  predicate CaseVariant(w: string, word: string) {
    |w| == |word| && forall i | 0 <= i < |w| :: w[i] == word[i] || ('A' <= w[i] <= 'Z' && w[i] as int + 32 == word[i] as int)
  }

  lemma {:induction false} TrimStartIs(before: string, rest: string)
    requires Blanks(before) && (rest == "" || !Blank(rest[0]))
    ensures TrimStart(before + rest) == rest
  {
    if before == "" {
      assert before + rest == rest;
    } else {
      assert before[0] in before && (before + rest)[1..] == before[1..] + rest;
      TrimStartIs(before[1..], rest);
    }
  }

  lemma {:induction false} TrimEndIs(core: string, after: string)
    requires Blanks(after) && (core == "" || !Blank(core[|core| - 1]))
    ensures TrimEnd(core + after) == core
  {
    if after == "" {
      assert core + after == core;
    } else {
      var n := |after| - 1;
      assert after[n] in after && (core + after)[..|core| + n] == core + after[..n];
      TrimEndIs(core, after[..n]);
    }
  }

  /** Trimming takes the white space around and nothing else. */
  lemma TrimIs(before: string, core: string, after: string)
    requires Blanks(before) && Tight(core) && Blanks(after)
    ensures Trim(before + core + after) == core
  {
    if core == "" {
      assert before + core + after == (before + after) + "";
      TrimStartIs(before + after, "");
    } else {
      assert before + core + after == before + (core + after);
      TrimStartIs(before, core + after);
      TrimEndIs(core, after);
    }
  }

  /** Every rule is such a text with white space around. */
  lemma {:induction false} Around(rule: string) returns (before: string, core: string, after: string)
    ensures rule == before + core + after && Blanks(before) && Tight(core) && Blanks(after)
    decreases |rule|
  {
    if Tight(rule) {
      before, core, after := "", rule, "";
    } else if Blank(rule[0]) {
      before, core, after := Around(rule[1..]);
      assert rule == [rule[0]] + (before + core + after);
      before := [rule[0]] + before;
    } else {
      var n := |rule| - 1;
      before, core, after := Around(rule[..n]);
      assert rule == (before + core + after) + [rule[n]];
      after := after + [rule[n]];
    }
  }

  lemma LowerIs(w: string, word: string)
    requires word == "true" || word == "false"
    ensures CaseVariant(w, word) <==> Lower(w) == word
  {
    if Lower(w) == word { forall i | 0 <= i < |w| ensures w[i] == word[i] || 'A' <= w[i] <= 'Z' { assert Lower(w)[i] == word[i]; } }
  }

  lemma VariantIsTight(w: string, word: string)
    requires (word == "true" || word == "false") && CaseVariant(w, word)
    ensures Tight(w)
  {
  }

  /** `true` and `false`, in any case and with any white space around, come back as that word in lower case. */
  lemma LiteralsPass(before: string, w: string, after: string, word: string, parse: string -> Option<Expr>, link: string)
    requires Blanks(before) && Blanks(after) && (word == "true" || word == "false") && CaseVariant(w, word)
    ensures RebasePermission(before + w + after, parse, link) == Ok(word)
  {
    VariantIsTight(w, word);
    TrimIs(before, w, after);
    LowerIs(w, word);
  }

  /** For every other rule the parser decides, on the rule without the white space around it. */
  lemma {:induction false} ParserDecides(before: string, core: string, after: string, parse: string -> Option<Expr>, link: string)
    requires Blanks(before) && Tight(core) && Blanks(after) && !CaseVariant(core, "true") && !CaseVariant(core, "false")
    ensures var out := RebasePermission(before + core + after, parse, link);
      && (out.Err? <==> parse(core).None?) && (out.Err? ==> out.rule == core)
      && (parse(core).Some? && Printable(parse(core).value) && Word(link) ==>
            out == Ok(Render(Source, Rebased(parse(core).value, link), link)))
  {
    TrimIs(before, core, after);
    LowerIs(core, "true");
    LowerIs(core, "false");
    if parse(core).Some? && Printable(parse(core).value) && Word(link) {
      RebasePrintable(parse(core).value, link);
      ThreePassesAreOne(RebaseExpr(parse(core).value, link), link);
    }
  }

  /** A rule opens a table to everyone only if it says so itself, or its rebased rendering does. */
  lemma {:induction false} OpenOnlyIfSaid(before: string, core: string, after: string, parse: string -> Option<Expr>, link: string)
    requires Blanks(before) && Tight(core) && Blanks(after) && Word(link) && (parse(core).Some? ==> Printable(parse(core).value))
    requires RebasePermission(before + core + after, parse, link) == Ok("true")
    ensures CaseVariant(core, "true") || (parse(core).Some? && Render(Source, Rebased(parse(core).value, link), link) == "true")
  {
    if CaseVariant(core, "false") {
      LiteralsPass(before, core, after, "false", parse, link);
    } else if !CaseVariant(core, "true") {
      ParserDecides(before, core, after, parse, link);
    }
  }

  /** An idiom of the parsed rule, rewritten where it stands. */
  class IdiomNode {
    var parts: seq<Part>

    constructor (parts: seq<Part>)
      ensures this.parts == parts
    {
      this.parts := parts;
    }

    method Rebase(link: string)
      modifies this
      ensures parts == RebasedParts(old(parts), link)
    {
      if |parts| == 0 || !parts[0].Field? {
        return;
      }
      var bareId := |parts| == 1 && parts[0].name == "id";
      if bareId {
        parts := [];
      }
      parts := [Field(link)] + parts;
    }
  }

  /** A parsed rule as the tree pass finds it: the idioms it may rewrite are mutable nodes, what it does not enter
      is left as it is. */
  datatype Tree =
    | Path(node: IdiomNode)
    | Operation(op: Operator, args: seq<Tree>)
    | Parens(body: Tree)
    | Unentered(e: Expr)

  ghost function Nodes(t: Tree): set<IdiomNode> {
    match t
    case Path(n) => {n}
    case Operation(_, args) => NodesOf(args)
    case Parens(v) => Nodes(v)
    case Unentered(_) => {}
  }

  ghost function NodesOf(ts: seq<Tree>): set<IdiomNode> {
    if ts == [] then {} else Nodes(ts[0]) + NodesOf(ts[1..])
  }

  /** Each node has one owner. */
  ghost predicate Owned(t: Tree) {
    match t
    case Path(_) => true
    case Operation(_, args) => AllOwned(args)
    case Parens(v) => Owned(v)
    case Unentered(e) => !e.Idiom? && !e.Node? && !e.Paren?
  }

  ghost predicate AllOwned(ts: seq<Tree>) {
    ts == [] || (Owned(ts[0]) && AllOwned(ts[1..]) && Nodes(ts[0]) !! NodesOf(ts[1..]))
  }

  /** The rule the tree stands for. */
  ghost function ValueOf(t: Tree): Expr
    reads Nodes(t)
  {
    match t
    case Path(n) => Idiom(n.parts)
    case Operation(op, args) => Node(op, ValuesOf(args))
    case Parens(v) => Paren(ValueOf(v))
    case Unentered(e) => e
  }

  ghost function ValuesOf(ts: seq<Tree>): (es: seq<Expr>)
    reads NodesOf(ts)
    ensures |es| == |ts|
  {
    if ts == [] then [] else [ValueOf(ts[0])] + ValuesOf(ts[1..])
  }

  function RebaseAll(es: seq<Expr>, link: string): seq<Expr> {
    if es == [] then [] else [RebaseExpr(es[0], link)] + RebaseAll(es[1..], link)
  }

  lemma {:induction false} RebaseAllIsMap(es: seq<Expr>, link: string)
    ensures RebaseAll(es, link) == seq(|es|, i requires 0 <= i < |es| => RebaseExpr(es[i], link))
  {
    if es != [] { RebaseAllIsMap(es[1..], link); }
  }

  /** The tree pass in place: the rule the tree stands for becomes the rebased one. */
  method RebaseInPlace(t: Tree, link: string)
    requires Owned(t) && forall n | n in Nodes(t) :: allocated(n)
    modifies Nodes(t)
    ensures ValueOf(t) == RebaseExpr(old(ValueOf(t)), link)
    decreases t, 0
  {
    match t {
      case Path(n) => n.Rebase(link);
      case Operation(op, args) =>
        RebaseAllInPlace(args, link);
        RebaseAllIsMap(old(ValuesOf(args)), link);
      case Parens(v) => RebaseInPlace(v, link);
      case Unentered(e) =>
    }
  }

  method RebaseAllInPlace(ts: seq<Tree>, link: string)
    requires AllOwned(ts) && forall n | n in NodesOf(ts) :: allocated(n)
    modifies NodesOf(ts)
    ensures ValuesOf(ts) == RebaseAll(old(ValuesOf(ts)), link)
    decreases ts, 0
  {
    if ts != [] {
      ghost var first, others := ValueOf(ts[0]), ValuesOf(ts[1..]);
      assert ValuesOf(ts) == [first] + others;
      RebaseInPlace(ts[0], link);
      assert ValuesOf(ts[1..]) == others;
      RebaseAllInPlace(ts[1..], link);
      assert ValueOf(ts[0]) == RebaseExpr(first, link);
      assert ([first] + others)[1..] == others;
    }
  }

  lemma {:induction false} RebasePrintable(e: Expr, link: string)
    requires Printable(e) && Word(link)
    ensures Printable(RebaseExpr(e, link))
  {
    match e
    case Idiom(parts) =>
      var out := RebasedParts(parts, link);
      forall p | p in out ensures PlainPart(p) { assert p in parts || p == Field(link); }
      forall i | 0 < i < |out| ensures !out[i].Start? { if parts[0].Field? { assert out[i] == parts[i - 1]; } }
    case Node(_, args) =>
      forall i | 0 <= i < |args| ensures Printable(RebaseExpr(args[i], link)) { RebasePrintable(args[i], link); }
    case Paren(v) => RebasePrintable(v, link);
    case _ =>
  }

  /** Who may read a generated row is exactly who may read the record it links to: the text handed to the
      database is the rendering of a rule that has, on every generated row, the value the original rule has
      on the linked record. */
  lemma {:induction false} RebasedRuleIsTheParentsRule(before: string, core: string, after: string, parse: string -> Option<Expr>, link: string,
                                    env: Env, store: Store, gen: Row, r: RecordId)
    requires Blanks(before) && Tight(core) && Blanks(after) && !CaseVariant(core, "true") && !CaseVariant(core, "false")
    requires parse(core).Some? && Word(link) && Printable(parse(core).value) && Fine(parse(core).value, env.parenBindsParent, TOP)
    requires Linked(store, gen, link, r)
    ensures var e := parse(core).value;
      && RebasePermission(before + core + after, parse, link) == Ok(Render(Source, Rebased(e, link), link))
      && Eval(env, store, Rebased(e, link), gen, VNone) == Eval(env, store, e, store.rows[r], VNone)
  {
    ParserDecides(before, core, after, parse, link);
    RebasePreserves(env, store, gen, link, r, parse(core).value);
  }

  /** And for every rule: the text is the rendering of the rebased rule, which keeps the rule's meaning in every database exactly
      when the rule is fine. */
  lemma {:induction false} RebasedTextExactly(before: string, core: string, after: string, parse: string -> Option<Expr>, link: string, parenBinds: bool)
    requires Blanks(before) && Tight(core) && Blanks(after) && !CaseVariant(core, "true") && !CaseVariant(core, "false")
    requires parse(core).Some? && Word(link) && link != "id"
    requires var e := parse(core).value; Printable(e) && RebaseExact.Shaped(e) && RebaseExact.Avoids(e, link)
    ensures var e := parse(core).value;
      && RebasePermission(before + core + after, parse, link) == Ok(Render(Source, Rebased(e, link), link))
      && (RebaseExact.AlwaysPreserved(e, parenBinds, link) <==> Fine(e, parenBinds, TOP))
  {
    ParserDecides(before, core, after, parse, link);
    assert "!"[0] in "!" && !WordChar('!');
    RebaseExact.PreservedExactly(parse(core).value, parenBinds, link);
  }

  // ---------- what the rewrite does not handle ----------

  const Yes := Lit("true", VBool(true))

  /** Some database tells the rebased rule on a generated row from the rule on its record. */
  ghost predicate Changes(e: Expr, link: string) {
    forall parenBinds :: !RebaseExact.AlwaysPreserved(e, parenBinds, link)
  }

  lemma {:induction false} NotFineChanges(e: Expr, link: string)
    requires RebaseExact.Shaped(e) && RebaseExact.Avoids(e, link) && RebaseExact.LinkName(link) && forall parenBinds :: !Fine(e, parenBinds, TOP)
    ensures Changes(e, link)
  {
    forall parenBinds ensures !RebaseExact.AlwaysPreserved(e, parenBinds, link) { RebaseExact.PreservedExactly(e, parenBinds, link); }
  }

  /** A bare `$parent` keeps naming the generated row. */
  lemma BareParentMoves(table: string, link: string)
    requires RebaseExact.LinkName(link)
    ensures Changes(Select(Param("parent"), table, Yes), link)
  {
    NotFineChanges(Select(Param("parent"), table, Yes), link);
  }

  /** `$parent` in a nested statement subquery names the subquery's row, yet is moved behind the link. */
  lemma NestedParentMoves(outer: string, inner: string, f: string, link: string)
    requires RebaseExact.LinkName(link) && f != link
    ensures Changes(Select(Select(Idiom([Start("parent"), Field(f)]), inner, Yes), outer, Yes), link)
  {
    var path := Idiom([Start("parent"), Field(f)]);
    assert !Fine(path, true, Scope(false, false, Scanned)) && !Fine(path, false, Scope(false, false, Scanned));
    assert RebaseExact.Shaped(path) && RebaseExact.Avoids(path, link);
    NotFineChanges(Select(Select(path, inner, Yes), outer, Yes), link);
  }

  /** A method of the checked row is called on the link instead. */
  lemma ParentMethodMoves(table: string, f: string, link: string)
    requires RebaseExact.LinkName(link) && f != link
    ensures Changes(Select(Idiom([Start("parent"), Method(f, [])]), table, Yes), link)
  {
    var path := Idiom([Start("parent"), Method(f, [])]);
    assert !Fine(path, true, Scope(false, false, Checked)) && !Fine(path, false, Scope(false, false, Checked));
    NotFineChanges(Select(path, table, Yes), link);
  }

  /** A leading graph step, and a row field in a node kind the tree pass does not enter, stay on the generated row. */
  lemma UnenteredStay(f: string, edge: string, link: string)
    requires RebaseExact.LinkName(link) && f != link
    ensures Changes(Idiom([Graph(edge)]), link)
    ensures Changes(Block(Idiom([Field(f)])), link)
  {
    NotFineChanges(Idiom([Graph(edge)]), link);
    NotFineChanges(Block(Idiom([Field(f)])), link);
  }

  /** So does a row field in a method's argument, as in `tags.contains(owner)`. */
  lemma ArgumentsStay(f: string, g: string, m: string, link: string)
    requires RebaseExact.LinkName(link) && f != link && g != link && m != link
    ensures Changes(Idiom([Field(g), Method(m, [Idiom([Field(f)])])]), link)
  {
    var arg := Idiom([Field(f)]);
    var step := Method(m, [arg]);
    var parts := [Field(g), step];
    assert parts[1] == step && step in parts && step.args[0] == arg && arg in step.args;
    assert forall b :: !Fine(arg, b, Scope(true, false, Unbound)) && !PartFine(step, b, Scope(true, false, Unbound));
    assert RebaseExact.Shaped(arg) && RebaseExact.Avoids(arg, link);
    assert RebaseExact.ShapedPart(step) && RebaseExact.AvoidsPart(step, link);
    NotFineChanges(Idiom(parts), link);
  }

  lemma SpelledPass(stage: Stage, before: string, name: string, after: string, link: string)
    requires stage != Done && Inert(before) && Inert(after) && Breaks(after) && Word(name) && Word(link)
    ensures Pass(stage, before + ParentHead(stage, name, link) + after, link) == before + ParentHead(Next(stage), name, link) + after
  {
    var a, b := ParentHead(stage, name, link), ParentHead(Next(stage), name, link);
    assert after + "" == after;
    HeadPass(stage, name, after, link);
    Between(stage, before, a, b, after, "", link);
    assert (before + a + after) + "" == before + a + after && (before + b + after) + "" == before + b + after;
  }

  /** The text pass does not know literals: a `$parent` path spelled in one is moved too, wherever it stands. */
  lemma LiteralsMove(before: string, name: string, after: string, link: string)
    requires Inert(before) && Inert(after) && Breaks(after) && Word(name) && Word(link)
    ensures RebaseParentParam(before + ("$parent." + name) + after, link)
         == before + (if name == "id" then "$parent." + link else "$parent." + link + "." + name) + after
  {
    assert ParentHead(Source, name, link) == "$parent." + name;
    SpelledPass(Source, before, name, after, link);
    SpelledPass(Marked, before, name, after, link);
    SpelledPass(Prefixed, before, name, after, link);
  }
}
