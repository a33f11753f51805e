/** The second pass of rebasing works on the rendered rule: three textual replacements, through a
    marker, move every `$parent.` path behind the link. */
module ParentParam {
  import opened Rules
  import opened Rebase

  // ---------- rendering ----------

  predicate WordChar(c: char) {
    'a' <= c <= 'z' || 'A' <= c <= 'Z' || '0' <= c <= '9' || c == '_'
  }

  predicate Word(s: string) {
    s != "" && forall c | c in s :: WordChar(c)
  }

  function Digits(n: nat): (s: string)
    ensures forall c | c in s :: WordChar(c)
  {
    (if n < 10 then "" else Digits(n / 10)) + ["0123456789"[n % 10]]
  }

  const MARK: string := "\0PARENT_ID\0"

  /** How far the three replacements have come. */
  datatype Stage = Source | Marked | Prefixed | Done

  /** `$parent.` with the name behind it, after each replacement. */
  function ParentHead(stage: Stage, name: string, link: string): string {
    if name == "id" then
      match stage
      case Source => "$parent.id"
      case Done => "$parent." + link
      case _ => MARK
    else (if stage == Source || stage == Marked then "$parent." else "$parent." + link + ".") + name
  }

  function StepName(p: Part): string
    requires p.Field? || p.Method?
  {
    if p.Field? then p.name else p.func
  }

  function Render(stage: Stage, e: Expr, link: string): string
    decreases e, 0
  {
    match e
    case Lit(text, _) => text
    case Param(n) => "$" + n
    case Idiom(parts) => PathText(stage, parts, link)
    case Node(op, args) => Opening(op, args) + RenderArgs(stage, op, args, 0, link) + Closing(op)
    case Paren(v) => "(" + Render(stage, v, link) + ")"
    case Select(v, t, c) =>
      "(SELECT VALUE " + Render(stage, v, link) + FromText(t) + Render(stage, c, link) + ")"
    case Block(v) => "{ " + Render(stage, v, link) + " }"
  }

  function RenderArgs(stage: Stage, op: Operator, args: seq<Expr>, from: nat, link: string): string
    decreases args, 1, |args| - from
  {
    if from >= |args| then ""
    else Lead(op, from) + Render(stage, args[from], link) + RenderArgs(stage, op, args, from + 1, link)
  }

  /** The arguments of a method, in parentheses; nothing for a field. */
  function CallText(stage: Stage, p: Part, link: string): string
    decreases p, 2
  {
    if p.Method? then "(" + RenderArgs(stage, Array, p.args, 0, link) + ")" else ""
  }

  /** A step that does not come first. */
  function PartText(stage: Stage, p: Part, link: string): string
    decreases p, 3
  {
    match p
    case Start(n) => "$" + n
    case Field(f) => "." + f
    case Index(k) => "[" + Digits(k) + "]"
    case Method(f, _) => ("." + f) + CallText(stage, p, link)
    case Graph(e) => "->" + e
  }

  function TailText(stage: Stage, parts: seq<Part>, link: string): string
    decreases parts, 4
  {
    if parts == [] then "" else PartText(stage, parts[0], link) + TailText(stage, parts[1..], link)
  }

  function PathText(stage: Stage, parts: seq<Part>, link: string): string
    decreases parts, 5
  {
    if parts == [] then ""
    else if IsParentPath(parts) then
      ParentHead(stage, StepName(parts[1]), link) + (CallText(stage, parts[1], link) + TailText(stage, parts[2..], link))
    else
      (if parts[0].Field? then parts[0].name else PartText(stage, parts[0], link)) + TailText(stage, parts[1..], link)
  }

  function FromText(table: string): string {
    " FROM " + table + " WHERE "
  }

  function Opening(op: Operator, args: seq<Expr>): string {
    match op
    case Unary(sign) => sign + " "
    case Binary(_) => ""
    case Array => "["
    case Object(_) => "{ "
    case Function(f) => f + "("
    case Cast(kind) => "<" + kind + "> "
  }

  /** What comes before operand `i`: a separator, and the key in an object. */
  function Lead(op: Operator, i: nat): string {
    match op
    case Binary(symbol) => if i == 0 then "" else " " + symbol + " "
    case Object(keys) => (if i == 0 then "" else ", ") + (if i < |keys| then keys[i] else "") + ": "
    case _ => if i == 0 then "" else ", "
  }

  function Closing(op: Operator): string {
    match op
    case Array => "]"
    case Object(_) => " }"
    case Function(_) => ")"
    case _ => ""
  }

  /** Text no replacement can start in. */
  predicate Inert(s: string) {
    '$' !in s && '\0' !in s
  }

  predicate Occurs(p: string, s: string) {
    exists i :: 0 <= i <= |s| && p <= s[i..]
  }

  /** What the renderer is given: plain names everywhere, and literals that do not spell `$parent.`. */
  predicate Printable(e: Expr)
    decreases e, 0
  {
    match e
    case Lit(text, _) => !Occurs("$parent.", text) && '\0' !in text
    case Param(n) => Word(n)
    case Idiom(parts) =>
      && parts != []
      && (forall i | 0 < i < |parts| :: !parts[i].Start?)
      && forall p | p in parts :: PlainPart(p)
    case Node(op, args) => PlainOperator(op) && forall a | a in args :: Printable(a)
    case Paren(v) => Printable(v)
    case Select(v, t, c) => Inert(t) && Printable(v) && Printable(c)
    case Block(v) => Printable(v)
  }

  predicate PlainPart(p: Part)
    decreases p, 1
  {
    match p
    case Start(n) => Word(n)
    case Field(f) => Word(f)
    case Index(_) => true
    case Method(f, args) => Word(f) && forall a | a in args :: Printable(a)
    case Graph(e) => Word(e)
  }

  predicate PlainOperator(op: Operator) {
    match op
    case Unary(s) => Inert(s)
    case Binary(s) => Inert(s)
    case Array => true
    case Object(keys) => forall k | k in keys :: Inert(k)
    case Function(f) => Inert(f)
    case Cast(k) => Inert(k)
  }

  // ---------- textual replacement ----------

  /** Replace every non-overlapping occurrence of `pat`, leftmost first; with `bounded`, only where a
      word ends behind it (`\b`). */
  function Replace(s: string, pat: string, rep: string, bounded: bool): string
    requires pat != ""
    decreases |s|
  {
    if s == "" then ""
    else if pat <= s && (bounded ==> |s| == |pat| || !WordChar(s[|pat|])) then
      rep + Replace(s[|pat|..], pat, rep, bounded)
    else [s[0]] + Replace(s[1..], pat, rep, bounded)
  }

  function RebaseParentParam(rendered: string, link: string): string {
    var marked := Replace(rendered, "$parent.id", MARK, true);
    var prefixed := Replace(marked, "$parent.", "$parent." + link + ".", false);
    Replace(prefixed, MARK, "$parent." + link, false)
  }

  function Pass(stage: Stage, s: string, link: string): string
    requires stage != Done
  {
    match stage
    case Source => Replace(s, "$parent.id", MARK, true)
    case Marked => Replace(s, "$parent.", "$parent." + link + ".", false)
    case Prefixed => Replace(s, MARK, "$parent." + link, false)
  }

  function Next(stage: Stage): Stage
    requires stage != Done
  {
    match stage case Source => Marked case Marked => Prefixed case Prefixed => Done
  }

  // ---------- replacement and concatenation ----------

  /** Text without the pattern's first character is copied. */
  lemma {:induction false} CopyInert(a: string, rest: string, pat: string, rep: string, bounded: bool)
    requires pat != "" && pat[0] !in a
    ensures Replace(a + rest, pat, rep, bounded) == a + Replace(rest, pat, rep, bounded)
  {
    if a == "" {
      assert a + rest == rest;
    } else {
      assert (a + rest)[1..] == a[1..] + rest;
      CopyInert(a[1..], rest, pat, rep, bounded);
    }
  }

  /** What may follow an operand: nothing, or a character no replacement continues with. */
  predicate Follows(rest: string) {
    rest == "" || rest[0] in " ,)]}"
  }

  lemma NotPrefix(p: string, s: string, k: nat)
    requires k < |p| && (k >= |s| || p[k] != s[k])
    ensures !(p <= s)
  {
    assert k < |s| && |p| <= |s| ==> s[..|p|][k] == s[k];
  }

  /** Text free of `lead`, with which the pattern begins, is copied when a delimiter follows. */
  lemma {:induction false} CopyFree(a: string, rest: string, lead: string, pat: string, rep: string, bounded: bool)
    requires lead != "" && lead <= pat
    requires !Occurs(lead, a) && (rest == "" || rest[0] !in lead)
    ensures Replace(a + rest, pat, rep, bounded) == a + Replace(rest, pat, rep, bounded)
  {
    if a == "" {
      assert a + rest == rest;
    } else {
      assert (a + rest)[1..] == a[1..] + rest;
      forall i | 0 <= i <= |a[1..]| ensures !(lead <= a[1..][i..]) {
        assert a[1..][i..] == a[i + 1..];
      }
      CopyFree(a[1..], rest, lead, pat, rep, bounded);
      NotAtFront(a, rest, lead);
      assert pat <= a + rest ==> lead <= a + rest;
    }
  }

  lemma NotAtFront(a: string, rest: string, lead: string)
    requires lead != "" && !Occurs(lead, a) && (rest == "" || rest[0] !in lead)
    ensures a != "" ==> !(lead <= a + rest)
  {
    assert a[0..] == a;
    if |a| >= |lead| {
      assert (a + rest)[..|lead|] == a[..|lead|];
    } else {
      assert lead[|a|] in lead;
      NotPrefix(lead, a + rest, |a|);
    }
  }

  lemma Regroup(a: string, b: string, c: string)
    ensures (a + b) + c == a + (b + c)
  {
  }

  lemma {:induction false} ReplaceAtFront(after: string, pat: string, rep: string, bounded: bool)
    requires pat != "" && (bounded ==> after == "" || !WordChar(after[0]))
    ensures Replace(pat + after, pat, rep, bounded) == rep + Replace(after, pat, rep, bounded)
  {
    assert (pat + after)[|pat|..] == after;
  }

  /** At an occurrence: replace it, then copy what cannot start another one. */
  lemma {:induction false} ReplaceThenCopy(tail: string, rest: string, pat: string, rep: string, bounded: bool)
    requires pat != "" && pat[0] !in tail
    requires bounded ==> tail + rest == "" || !WordChar((tail + rest)[0])
    ensures Replace((pat + tail) + rest, pat, rep, bounded) == (rep + tail) + Replace(rest, pat, rep, bounded)
  {
    CopyInert(tail, rest, pat, rep, bounded);
    Regroup(pat, tail, rest);
    Regroup(rep, tail, Replace(rest, pat, rep, bounded));
    ReplaceAtFront(tail + rest, pat, rep, bounded);
  }

  /** At the pattern's first character but no occurrence: copy. */
  lemma {:induction false} SkipThenCopy(a: string, rest: string, pat: string, rep: string, bounded: bool)
    requires pat != "" && a != "" && pat[0] !in a[1..]
    requires !(pat <= a + rest && (bounded ==> |a + rest| == |pat| || !WordChar((a + rest)[|pat|])))
    ensures Replace(a + rest, pat, rep, bounded) == a + Replace(rest, pat, rep, bounded)
  {
    assert (a + rest)[1..] == a[1..] + rest;
    CopyInert(a[1..], rest, pat, rep, bounded);
    assert [a[0]] + (a[1..] + Replace(rest, pat, rep, bounded)) == a + Replace(rest, pat, rep, bounded);
  }

  lemma WordInert(w: string)
    requires forall c | c in w :: WordChar(c)
    ensures Inert(w)
  {
  }

  /** A parameter name ends where the word ends, so only `parent` with a dot behind it spells `$parent.`. */
  lemma NotParent(name: string, tail: string)
    requires Word(name) && (tail == "" || !WordChar(tail[0])) && (name == "parent" ==> tail == "" || tail[0] != '.')
    ensures !("$parent." <= "$" + name + tail)
  {
    var s := "$" + name + tail;
    if |name| == 6 {
      assert s[1..7] == name && "$parent."[1..7] == "parent";
      assert |s| >= 8 ==> s[..8][1..7] == name && s[7] == tail[0];
      assert name == "parent" ==> tail == "" || s[7] != '.';
      if name == "parent" { NotPrefix("$parent.", s, 7); }
    } else if |name| < 6 {
      NotPrefix("$parent.", s, |name| + 1);
    } else {
      assert s[7] == name[6] && WordChar(name[6]);
      NotPrefix("$parent.", s, 7);
    }
  }

  // ---------- one pass over a rendered rule ----------

  /** What may follow a name: nothing, or a character that ends a word. */
  predicate Breaks(rest: string) {
    rest == "" || !WordChar(rest[0])
  }

  /** The pass turns `a` into `b` and leaves what follows to itself. */
  ghost predicate Carries(stage: Stage, a: string, b: string, rest: string, link: string)
    requires stage != Done
  {
    Pass(stage, a + rest, link) == b + Pass(stage, rest, link)
  }

  lemma Join(stage: Stage, a: string, b: string, a2: string, b2: string, rest: string, link: string)
    requires stage != Done && Carries(stage, a, b, a2 + rest, link) && Carries(stage, a2, b2, rest, link)
    ensures Carries(stage, a + a2, b + b2, rest, link)
  {
    assert (a + a2) + rest == a + (a2 + rest);
    assert b + (b2 + Pass(stage, rest, link)) == (b + b2) + Pass(stage, rest, link);
  }

  lemma InertCopied(stage: Stage, a: string, rest: string, link: string)
    requires stage != Done && Inert(a)
    ensures Carries(stage, a, a, rest, link)
  {
    match stage
    case Source => CopyInert(a, rest, "$parent.id", MARK, true);
    case Marked => CopyInert(a, rest, "$parent.", "$parent." + link + ".", false);
    case Prefixed => CopyInert(a, rest, MARK, "$parent." + link, false);
  }

  lemma FreeCopied(stage: Stage, a: string, rest: string, link: string)
    requires stage != Done && !Occurs("$parent.", a) && '\0' !in a && Follows(rest)
    ensures Carries(stage, a, a, rest, link)
  {
    match stage
    case Source => CopyFree(a, rest, "$parent.", "$parent.id", MARK, true);
    case Marked => CopyFree(a, rest, "$parent.", "$parent.", "$parent." + link + ".", false);
    case Prefixed => CopyInert(a, rest, MARK, "$parent." + link, false);
  }

  /** A parameter that no dot turns into a `$parent` path is copied. */
  lemma StartCopied(stage: Stage, name: string, rest: string, link: string)
    requires stage != Done && Word(name) && Breaks(rest) && (name == "parent" ==> rest == "" || rest[0] != '.')
    ensures Carries(stage, "$" + name, "$" + name, rest, link)
  {
    WordInert(name);
    NotParent(name, rest);
    var a := "$" + name;
    assert a[1..] == name;
    match stage
    case Source =>
      assert "$parent.id" <= a + rest ==> "$parent." <= a + rest;
      SkipThenCopy(a, rest, "$parent.id", MARK, true);
    case Marked => SkipThenCopy(a, rest, "$parent.", "$parent." + link + ".", false);
    case Prefixed => CopyInert(a, rest, MARK, "$parent." + link, false);
  }

  lemma NotIdPath(name: string, after: string)
    requires Word(name) && name != "id" && Breaks(after)
    ensures var s := ("$parent." + name) + after;
      !("$parent.id" <= s && (|s| == 10 || !WordChar(s[10])))
  {
    var s := ("$parent." + name) + after;
    if |name| == 1 {
      NotPrefix("$parent.id", s, 9);
    } else if name[..2] != "id" {
      NotPrefix("$parent.id", s, if name[0] == 'i' then 9 else 8);
    } else {
      assert s[10] == name[2] && WordChar(name[2]);
    }
  }

  lemma {:induction false} IdMarked(rest: string)
    requires Breaks(rest)
    ensures Replace("$parent.id" + rest, "$parent.id", MARK, true) == MARK + Replace(rest, "$parent.id", MARK, true)
  {
    ReplaceAtFront(rest, "$parent.id", MARK, true);
  }

  lemma {:induction false} SkipNamed(lead: string, name: string, rest: string, pat: string, rep: string, bounded: bool)
    requires pat != "" && lead != "" && pat[0] !in lead[1..] && pat[0] !in name
    requires var s := (lead + name) + rest; !(pat <= s && (bounded ==> |s| == |pat| || !WordChar(s[|pat|])))
    ensures Replace((lead + name) + rest, pat, rep, bounded) == (lead + name) + Replace(rest, pat, rep, bounded)
  {
    assert (lead + name)[1..] == lead[1..] + name;
    SkipThenCopy(lead + name, rest, pat, rep, bounded);
  }

  /** The marker pass takes `$parent.id` only where the word ends there. */
  lemma {:induction false} ParentMarked(name: string, rest: string)
    requires Word(name) && Breaks(rest)
    ensures Replace(("$parent." + name) + rest, "$parent.id", MARK, true)
         == (if name == "id" then MARK else "$parent." + name) + Replace(rest, "$parent.id", MARK, true)
  {
    if name == "id" {
      IdMarked(rest);
      assert "$parent." + name == "$parent.id";
    } else {
      NotIdPath(name, rest);
      WordInert(name);
      SkipNamed("$parent.", name, rest, "$parent.id", MARK, true);
    }
  }

  lemma {:induction false} ParentPrefixed(name: string, rest: string, link: string)
    requires Word(name)
    ensures var rep := "$parent." + link + ".";
      && Replace(MARK + rest, "$parent.", rep, false) == MARK + Replace(rest, "$parent.", rep, false)
      && Replace(("$parent." + name) + rest, "$parent.", rep, false) == (rep + name) + Replace(rest, "$parent.", rep, false)
  {
    var rep := "$parent." + link + ".";
    WordInert(name);
    CopyInert(MARK, rest, "$parent.", rep, false);
    ReplaceThenCopy(name, rest, "$parent.", rep, false);
  }

  lemma {:induction false} ParentDone(name: string, rest: string, link: string)
    requires Word(name) && Word(link)
    ensures var rep := "$parent." + link;
      && Replace(MARK + rest, MARK, rep, false) == rep + Replace(rest, MARK, rep, false)
      && Replace((rep + "." + name) + rest, MARK, rep, false) == (rep + "." + name) + Replace(rest, MARK, rep, false)
  {
    var rep := "$parent." + link;
    ReplaceAtFront(rest, MARK, rep, false);
    WordInert(name);
    WordInert(link);
    CopyInert(rep + "." + name, rest, MARK, rep, false);
  }

  /** The head of a `$parent` path goes from stage to stage. */
  lemma HeadPass(stage: Stage, name: string, rest: string, link: string)
    requires stage != Done && Word(name) && Word(link) && Breaks(rest)
    ensures Carries(stage, ParentHead(stage, name, link), ParentHead(Next(stage), name, link), rest, link)
  {
    match stage
    case Source => ParentMarked(name, rest); assert name == "id" ==> "$parent." + name == "$parent.id";
    case Marked => ParentPrefixed(name, rest, link);
    case Prefixed => ParentDone(name, rest, link);
  }

  lemma LeadInert(op: Operator, i: nat)
    requires PlainOperator(op)
    ensures Inert(Lead(op, i))
  {
    match op
    case Object(keys) => assert i < |keys| ==> keys[i] in keys;
    case _ =>
  }

  lemma {:induction false} FollowsArg(stage: Stage, op: Operator, args: seq<Expr>, from: nat, link: string, rest: string)
    requires from > 0 && Follows(rest)
    ensures Follows(RenderArgs(stage, op, args, from, link) + rest)
  {
    if from >= |args| {
      assert RenderArgs(stage, op, args, from, link) + rest == rest;
    } else {
      assert Lead(op, from) != "" && Lead(op, from)[0] in " ,";
    }
  }

  /** A carried text between two inert ones. */
  lemma Between(stage: Stage, open: string, a: string, b: string, close: string, rest: string, link: string)
    requires stage != Done && Inert(open) && Inert(close) && Carries(stage, a, b, close + rest, link)
    ensures Carries(stage, open + a + close, open + b + close, rest, link)
  {
    InertCopied(stage, open, a + (close + rest), link);
    Join(stage, open, open, a, b, close + rest, link);
    InertCopied(stage, close, rest, link);
    Join(stage, open + a, open + b, close, close, rest, link);
  }

  lemma {:induction false} ArgsPass(stage: Stage, op: Operator, args: seq<Expr>, from: nat, rest: string, link: string)
    requires stage != Done && PlainOperator(op) && Word(link) && Follows(rest)
    requires forall a | a in args :: Printable(a)
    ensures Carries(stage, RenderArgs(stage, op, args, from, link), RenderArgs(Next(stage), op, args, from, link), rest, link)
    decreases args, 1, |args| - from
  {
    if from >= |args| {
      InertCopied(stage, "", rest, link);
    } else {
      var more, more' := RenderArgs(stage, op, args, from + 1, link), RenderArgs(Next(stage), op, args, from + 1, link);
      var one, one' := Render(stage, args[from], link), Render(Next(stage), args[from], link);
      LeadInert(op, from);
      InertCopied(stage, Lead(op, from), one + (more + rest), link);
      FollowsArg(stage, op, args, from + 1, link, rest);
      RenderPass(stage, args[from], more + rest, link);
      Join(stage, Lead(op, from), Lead(op, from), one, one', more + rest, link);
      ArgsPass(stage, op, args, from + 1, rest, link);
      Join(stage, Lead(op, from) + one, Lead(op, from) + one', more, more', rest, link);
    }
  }

  lemma {:induction false} CallPass(stage: Stage, p: Part, rest: string, link: string)
    requires stage != Done && PlainPart(p) && Word(link)
    ensures Carries(stage, CallText(stage, p, link), CallText(Next(stage), p, link), rest, link)
    decreases p, 2, 0
  {
    if p.Method? {
      ArgsPass(stage, Array, p.args, 0, ")" + rest, link);
      Between(stage, "(", RenderArgs(stage, Array, p.args, 0, link), RenderArgs(Next(stage), Array, p.args, 0, link), ")", rest, link);
    } else {
      InertCopied(stage, "", rest, link);
    }
  }

  lemma {:induction false} PartPass(stage: Stage, p: Part, rest: string, link: string)
    requires stage != Done && PlainPart(p) && !p.Start? && Word(link)
    ensures Carries(stage, PartText(stage, p, link), PartText(Next(stage), p, link), rest, link)
    decreases p, 3, 0
  {
    match p
    case Field(f) => WordInert(f); InertCopied(stage, "." + f, rest, link);
    case Index(k) => WordInert(Digits(k)); InertCopied(stage, "[" + Digits(k) + "]", rest, link);
    case Graph(e) => WordInert(e); InertCopied(stage, "->" + e, rest, link);
    case Method(f, _) =>
      WordInert(f);
      InertCopied(stage, "." + f, CallText(stage, p, link) + rest, link);
      CallPass(stage, p, rest, link);
      Join(stage, "." + f, "." + f, CallText(stage, p, link), CallText(Next(stage), p, link), rest, link);
  }

  lemma {:induction false} TailPass(stage: Stage, parts: seq<Part>, rest: string, link: string)
    requires stage != Done && Word(link) && forall i | 0 <= i < |parts| :: PlainPart(parts[i]) && !parts[i].Start?
    ensures Carries(stage, TailText(stage, parts, link), TailText(Next(stage), parts, link), rest, link)
    decreases parts, 4, 0
  {
    if parts == [] {
      InertCopied(stage, "", rest, link);
    } else {
      var more, more' := TailText(stage, parts[1..], link), TailText(Next(stage), parts[1..], link);
      PartPass(stage, parts[0], more + rest, link);
      TailPass(stage, parts[1..], rest, link);
      Join(stage, PartText(stage, parts[0], link), PartText(Next(stage), parts[0], link), more, more', rest, link);
    }
  }

  /** How a step that does not come first begins. */
  lemma {:induction false} PartBegins(stage: Stage, p: Part, link: string)
    requires PlainPart(p) && !p.Start?
    ensures var t := PartText(stage, p, link); t != "" && !WordChar(t[0]) && (t[0] == '.' <==> p.Field? || p.Method?)
  {
  }

  lemma {:induction false} TailBreaks(stage: Stage, parts: seq<Part>, rest: string, link: string)
    requires (forall i | 0 <= i < |parts| :: PlainPart(parts[i]) && !parts[i].Start?) && Follows(rest)
    ensures var t := TailText(stage, parts, link) + rest;
      Breaks(t) && (parts == [] || parts[0].Index? || parts[0].Graph? ==> t == "" || t[0] != '.')
  {
    if parts == [] {
      assert TailText(stage, parts, link) + rest == rest;
    } else {
      PartBegins(stage, parts[0], link);
    }
  }

  lemma {:induction false} CallBreaks(stage: Stage, p: Part, parts: seq<Part>, rest: string, link: string)
    requires (forall i | 0 <= i < |parts| :: PlainPart(parts[i]) && !parts[i].Start?) && Follows(rest)
    ensures Breaks((CallText(stage, p, link) + TailText(stage, parts, link)) + rest)
  {
    TailBreaks(stage, parts, rest, link);
    if !p.Method? { assert CallText(stage, p, link) + TailText(stage, parts, link) == TailText(stage, parts, link); }
  }

  lemma {:induction false} ParentPass(stage: Stage, parts: seq<Part>, rest: string, link: string)
    requires stage != Done && Word(link) && Follows(rest) && IsParentPath(parts)
    requires (forall i | 0 < i < |parts| :: !parts[i].Start?) && forall p | p in parts :: PlainPart(p)
    ensures Carries(stage, PathText(stage, parts, link), PathText(Next(stage), parts, link), rest, link)
    decreases parts, 5, 0
  {
    var p, more := parts[1], parts[2..];
    var call, call' := CallText(stage, p, link), CallText(Next(stage), p, link);
    var tail, tail' := TailText(stage, more, link), TailText(Next(stage), more, link);
    assert p in parts;
    CallPass(stage, p, tail + rest, link);
    TailPass(stage, more, rest, link);
    Join(stage, call, call', tail, tail', rest, link);
    CallBreaks(stage, p, more, rest, link);
    HeadPass(stage, StepName(p), (call + tail) + rest, link);
    Join(stage, ParentHead(stage, StepName(p), link), ParentHead(Next(stage), StepName(p), link), call + tail, call' + tail', rest, link);
  }

  lemma {:induction false} PathPass(stage: Stage, parts: seq<Part>, rest: string, link: string)
    requires stage != Done && Word(link) && Follows(rest) && parts != []
    requires (forall i | 0 < i < |parts| :: !parts[i].Start?) && forall p | p in parts :: PlainPart(p)
    ensures Carries(stage, PathText(stage, parts, link), PathText(Next(stage), parts, link), rest, link)
    decreases parts, 6, 0
  {
    var p, more := parts[0], parts[1..];
    assert p in parts;
    if IsParentPath(parts) {
      ParentPass(stage, parts, rest, link);
    } else {
      var tail, tail' := TailText(stage, more, link), TailText(Next(stage), more, link);
      TailPass(stage, more, rest, link);
      TailBreaks(stage, more, rest, link);
      match p {
        case Start(n) =>
          assert n == "parent" && |parts| >= 2 ==> more[0] == parts[1];
          StartCopied(stage, n, tail + rest, link);
          Join(stage, "$" + n, "$" + n, tail, tail', rest, link);
        case Field(f) =>
          WordInert(f);
          InertCopied(stage, f, tail + rest, link);
          Join(stage, f, f, tail, tail', rest, link);
        case _ =>
          PartPass(stage, p, tail + rest, link);
          Join(stage, PartText(stage, p, link), PartText(Next(stage), p, link), tail, tail', rest, link);
      }
    }
  }

  /** One replacement pass rewrites exactly the `$parent` paths of a rendered rule. */
  lemma {:induction false} RenderPass(stage: Stage, e: Expr, rest: string, link: string)
    requires stage != Done && Printable(e) && Word(link) && Follows(rest)
    ensures Carries(stage, Render(stage, e, link), Render(Next(stage), e, link), rest, link)
    decreases e, 8, 0
  {
    match e
    case Lit(text, _) => FreeCopied(stage, text, rest, link);
    case Param(n) => StartCopied(stage, n, rest, link);
    case Idiom(parts) => PathPass(stage, parts, rest, link);
    case Node(op, args) =>
      ArgsPass(stage, op, args, 0, Closing(op) + rest, link);
      Between(stage, Opening(op, args), RenderArgs(stage, op, args, 0, link), RenderArgs(Next(stage), op, args, 0, link), Closing(op), rest, link);
    case Paren(v) =>
      RenderPass(stage, v, ")" + rest, link);
      Between(stage, "(", Render(stage, v, link), Render(Next(stage), v, link), ")", rest, link);
    case Block(v) =>
      RenderPass(stage, v, " }" + rest, link);
      Between(stage, "{ ", Render(stage, v, link), Render(Next(stage), v, link), " }", rest, link);
    case Select(_, _, _) => SelectPass(stage, e, rest, link);
  }

  lemma {:induction false} SelectPass(stage: Stage, e: Expr, rest: string, link: string)
    requires stage != Done && e.Select? && Printable(e) && Word(link) && Follows(rest)
    ensures Carries(stage, Render(stage, e, link), Render(Next(stage), e, link), rest, link)
    decreases e, 7, 0
  {
    var mid := FromText(e.table);
    var v, v' := Render(stage, e.project, link), Render(Next(stage), e.project, link);
    var c, c' := Render(stage, e.cond, link), Render(Next(stage), e.cond, link);
    var after := c + (")" + rest);
    RenderPass(stage, e.project, mid + after, link);
    Between(stage, "(SELECT VALUE ", v, v', mid, after, link);
    RenderPass(stage, e.cond, ")" + rest, link);
    Join(stage, "(SELECT VALUE " + v + mid, "(SELECT VALUE " + v' + mid, c, c', ")" + rest, link);
    InertCopied(stage, ")", rest, link);
    Join(stage, "(SELECT VALUE " + v + mid + c, "(SELECT VALUE " + v' + mid + c', ")", ")", rest, link);
  }

  // ---------- three passes are one rewrite per path ----------

  lemma {:induction false} DoneIsRebased(e: Expr, link: string)
    ensures Render(Done, e, link) == Render(Source, RebaseParents(e, link), link)
    decreases e, 0, 0
  {
    match e
    case Idiom(parts) => DonePath(parts, link);
    case Node(op, args) => DoneArgs(op, args, ParentsInAll(args, link), 0, link);
    case Paren(v) => DoneIsRebased(v, link);
    case Select(v, t, c) => DoneIsRebased(v, link); DoneIsRebased(c, link);
    case Block(v) => DoneIsRebased(v, link);
    case _ =>
  }

  lemma {:induction false} DoneArgs(op: Operator, args: seq<Expr>, out: seq<Expr>, from: nat, link: string)
    requires |out| == |args| && forall i | 0 <= i < |args| :: out[i] == RebaseParents(args[i], link)
    ensures RenderArgs(Done, op, args, from, link) == RenderArgs(Source, op, out, from, link)
    decreases args, 1, |args| - from
  {
    if from < |args| {
      DoneIsRebased(args[from], link);
      DoneArgs(op, args, out, from + 1, link);
    }
  }

  lemma {:induction false} DonePart(p: Part, link: string)
    ensures CallText(Done, p, link) == CallText(Source, PartInside(p, link), link)
    ensures PartText(Done, p, link) == PartText(Source, PartInside(p, link), link)
    decreases p, 2, 0
  {
    if p.Method? { DoneArgs(Array, p.args, ParentsInAll(p.args, link), 0, link); }
  }

  lemma {:induction false} DoneTail(parts: seq<Part>, link: string)
    ensures TailText(Done, parts, link) == TailText(Source, PartsInside(parts, link), link)
    decreases parts, 3, 0
  {
    if parts != [] {
      DonePart(parts[0], link);
      DoneTail(parts[1..], link);
      assert PartsInside(parts, link)[1..] == PartsInside(parts[1..], link);
    }
  }

  lemma Dotted(head: string, name: string, call: string, tail: string)
    ensures head + ((("." + name) + call) + tail) == (head + "." + name) + (call + tail)
  {
  }

  lemma {:induction false} DoneParentPath(parts: seq<Part>, link: string)
    requires IsParentPath(parts)
    ensures PathText(Done, parts, link) == PathText(Source, ParentParts(PartsInside(parts, link), link), link)
    decreases parts, 4, 0
  {
    var inside := PartsInside(parts, link);
    var out, p, name := ParentParts(inside, link), inside[1], StepName(parts[1]);
    var call, tail := CallText(Source, p, link), TailText(Source, inside[2..], link);
    assert inside[0] == parts[0] && p == PartInside(parts[1], link);
    DonePart(parts[1], link);
    DoneTail(parts[2..], link);
    assert inside[2..] == PartsInside(parts[2..], link);
    assert IsParentPath(inside) && StepName(p) == name;
    assert ParentHead(Source, link, link) == "$parent." + link;
    if name == "id" {
      assert out[2..] == inside[2..];
      assert StepName(out[1]) == link && CallText(Source, out[1], link) == call;
    } else {
      assert out[2..] == inside[1..] && inside[1..][1..] == inside[2..];
      assert TailText(Source, inside[1..], link) == (("." + name) + call) + tail;
      assert CallText(Source, out[1], link) + TailText(Source, out[2..], link) == TailText(Source, inside[1..], link);
      Dotted("$parent." + link, name, call, tail);
    }
  }

  lemma {:induction false} DonePath(parts: seq<Part>, link: string)
    ensures PathText(Done, parts, link) == PathText(Source, ParentParts(PartsInside(parts, link), link), link)
    decreases parts, 5, 0
  {
    if IsParentPath(parts) {
      DoneParentPath(parts, link);
    } else if parts != [] {
      var inside := PartsInside(parts, link);
      assert inside[0] == PartInside(parts[0], link) && (|parts| >= 2 ==> inside[1] == PartInside(parts[1], link));
      DonePart(parts[0], link);
      DoneTail(parts[1..], link);
      assert inside[1..] == PartsInside(parts[1..], link);
    }
  }

  lemma {:induction false} WholePass(stage: Stage, e: Expr, link: string)
    requires stage != Done && Printable(e) && Word(link)
    ensures Pass(stage, Render(stage, e, link), link) == Render(Next(stage), e, link)
  {
    RenderPass(stage, e, "", link);
    assert Render(stage, e, link) + "" == Render(stage, e, link);
  }

  /** The three replacements through the marker equal one rewrite of each `$parent` path. */
  lemma {:induction false} ThreePassesAreOne(e: Expr, link: string)
    requires Printable(e) && Word(link)
    ensures RebaseParentParam(Render(Source, e, link), link) == Render(Source, RebaseParents(e, link), link)
  {
    WholePass(Source, e, link);
    WholePass(Marked, e, link);
    WholePass(Prefixed, e, link);
    DoneIsRebased(e, link);
  }
}
