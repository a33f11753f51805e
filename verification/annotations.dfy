/** Annotation comments of a schema: which field or table each belongs to, and which belong to nothing. Lines come
    classified by the scanners' own patterns. */
module Annotations {
  import opened Options

  /** A line as the scanners see it. For code: the field a `DEFINE FIELD` anywhere on the line names, the table a
      leading `DEFINE TABLE` names, whether it starts with `DEFINE FIELD` or `DEFINE TABLE`, whether it holds a `;`,
      and the annotation behind the last one. */
  datatype Line =
    | Blank
    | Comment(ann: Option<string>)
    | Code(field: Option<(string, string)>, table: Option<string>, define: bool, closes: bool, trailing: Option<string>)

  /** An annotation and the line it stands on. */
  type Tagged = (nat, string)

  type Attached<K> = map<K, seq<Tagged>>

  function Attach<K>(r: Attached<K>, k: K, xs: seq<Tagged>): Attached<K> {
    if xs == [] then r else r[k := (if k in r then r[k] else []) + xs]
  }

  function Trailing(i: nat, line: Line): seq<Tagged>
    requires line.Code?
  {
    if line.closes && line.trailing.Some? then [(i, line.trailing.value)] else []
  }

  // ---------- the three scanners ----------

  datatype FieldScan = FieldScan(result: Attached<(string, string)>, pending: seq<Tagged>, inField: bool, key: Option<(string, string)>)

  function FieldStep(s: FieldScan, i: nat, line: Line): FieldScan {
    match line
    case Comment(ann) => if ann.Some? && !s.inField then s.(pending := s.pending + [(i, ann.value)]) else s
    case Blank => s.(pending := [])
    case Code(field, _, _, closes, _) =>
      if field.Some? then
        FieldScan(Attach(Attach(s.result, field.value, s.pending), field.value, Trailing(i, line)), [], !closes, if closes then None else field)
      else if s.inField then
        if closes then s.(result := if s.key.Some? then Attach(s.result, s.key.value, Trailing(i, line)) else s.result, inField := false, key := None)
        else s
      else s.(pending := [])
  }

  function FieldsUpTo(lines: seq<Line>, n: nat): FieldScan
    requires n <= |lines|
  {
    if n == 0 then FieldScan(map[], [], false, None) else FieldStep(FieldsUpTo(lines, n - 1), n - 1, lines[n - 1])
  }

  datatype TableScan = TableScan(result: Attached<string>, pending: seq<Tagged>)

  function TableStep(s: TableScan, i: nat, line: Line): TableScan {
    match line
    case Comment(ann) => if ann.Some? then s.(pending := s.pending + [(i, ann.value)]) else s
    case Blank => s.(pending := [])
    case Code(_, table, _, _, _) =>
      if table.Some? then TableScan(Attach(Attach(s.result, table.value, s.pending), table.value, Trailing(i, line)), [])
      else s.(pending := [])
  }

  function TablesUpTo(lines: seq<Line>, n: nat): TableScan
    requires n <= |lines|
  {
    if n == 0 then TableScan(map[], []) else TableStep(TablesUpTo(lines, n - 1), n - 1, lines[n - 1])
  }

  datatype OrphanScan = OrphanScan(out: seq<Tagged>, pending: seq<Tagged>)

  function OrphanStep(s: OrphanScan, i: nat, line: Line): OrphanScan {
    match line
    case Comment(ann) => if ann.Some? then s.(pending := s.pending + [(i, ann.value)]) else s
    case Blank => OrphanScan(s.out + s.pending, [])
    case Code(_, _, define, _, _) => if define then s.(pending := []) else OrphanScan(s.out + s.pending, [])
  }

  function OrphansUpTo(lines: seq<Line>, n: nat): OrphanScan
    requires n <= |lines|
  {
    if n == 0 then OrphanScan([], []) else OrphanStep(OrphansUpTo(lines, n - 1), n - 1, lines[n - 1])
  }

  function Fields(lines: seq<Line>): Attached<(string, string)> { FieldsUpTo(lines, |lines|).result }
  function Tables(lines: seq<Line>): Attached<string> { TablesUpTo(lines, |lines|).result }
  function Unattached(lines: seq<Line>): seq<Tagged> { OrphansUpTo(lines, |lines|).out + OrphansUpTo(lines, |lines|).pending }

  method ExtractFieldAnnotations(lines: seq<Line>) returns (result: Attached<(string, string)>)
    ensures result == Fields(lines)
  {
    var pending: seq<Tagged> := [];
    var inField := false;
    var key: Option<(string, string)> := None;
    result := map[];
    for i := 0 to |lines|
      invariant FieldScan(result, pending, inField, key) == FieldsUpTo(lines, i)
    {
      match lines[i] {
        case Comment(ann) =>
          if ann.Some? && !inField { pending := pending + [(i, ann.value)]; }
        case Blank => pending := [];
        case Code(field, _, _, closes, _) =>
          var trailing := Trailing(i, lines[i]);
          if field.Some? {
            result := Attach(result, field.value, pending);
            pending := [];
            result := Attach(result, field.value, trailing);
            inField, key := !closes, if closes then None else field;
          } else if inField {
            if closes {
              if key.Some? { result := Attach(result, key.value, trailing); }
              inField, key := false, None;
            }
          } else {
            pending := [];
          }
      }
    }
  }

  method ExtractTableAnnotations(lines: seq<Line>) returns (result: Attached<string>)
    ensures result == Tables(lines)
  {
    var pending: seq<Tagged> := [];
    result := map[];
    for i := 0 to |lines|
      invariant TableScan(result, pending) == TablesUpTo(lines, i)
    {
      match lines[i] {
        case Comment(ann) =>
          if ann.Some? { pending := pending + [(i, ann.value)]; }
        case Blank => pending := [];
        case Code(_, table, _, _, _) =>
          if table.Some? {
            result := Attach(Attach(result, table.value, pending), table.value, Trailing(i, lines[i]));
          }
          pending := [];
      }
    }
  }

  method UnattachedAnnotations(lines: seq<Line>) returns (out: seq<Tagged>)
    ensures out == Unattached(lines)
  {
    var pending: seq<Tagged> := [];
    out := [];
    for i := 0 to |lines|
      invariant OrphanScan(out, pending) == OrphansUpTo(lines, i)
    {
      match lines[i] {
        case Comment(ann) =>
          if ann.Some? { pending := pending + [(i, ann.value)]; }
        case Blank => out, pending := out + pending, [];
        case Code(_, _, define, _, _) =>
          if !define { out := out + pending; }
          pending := [];
      }
    }
    out := out + pending;
  }

  // ---------- whose an annotation is, by the lines ----------

  predicate IsAnnotation(lines: seq<Line>, i: int) {
    0 <= i < |lines| && lines[i].Comment? && lines[i].ann.Some?
  }

  /** The first line behind `i` that is not a comment, or the end. */
  function Next(lines: seq<Line>, i: nat): (j: nat)
    requires i < |lines|
    ensures i < j <= |lines| && (j < |lines| ==> !lines[j].Comment?) && forall k | i < k < j :: lines[k].Comment?
    decreases |lines| - i
  {
    if i + 1 == |lines| || !lines[i + 1].Comment? then i + 1 else Next(lines, i + 1)
  }

  predicate Opens(line: Line) { line.Code? && line.field.Some? && !line.closes }
  predicate Closes(line: Line) { line.Code? && line.closes }

  /** Some line opens a field definition, and no line since closes it. */
  predicate OpenBody(lines: seq<Line>, n: nat)
    requires n <= |lines|
  {
    exists i :: 0 <= i < n && Opens(lines[i]) && forall k | i < k < n :: !Closes(lines[k])
  }

  /** Line `i` was the last to open a field definition, and no line since closes it. */
  predicate OpenFrom(lines: seq<Line>, i: nat, n: nat)
    requires i < n <= |lines|
  {
    Opens(lines[i]) && forall k | i < k < n :: !Closes(lines[k]) && !Opens(lines[k])
  }

  /** At line `n` the definition of field `k` is open. */
  ghost predicate BodyOf(lines: seq<Line>, k: (string, string), n: nat)
    requires n <= |lines|
  {
    exists i :: 0 <= i < n && OpenFrom(lines, i, n) && lines[i].field == Some(k)
  }

  /** The entry is a standalone annotation, under its own text. */
  predicate OwnText(lines: seq<Line>, x: Tagged) {
    IsAnnotation(lines, x.0) && x.1 == lines[x.0].ann.value
  }

  /** A trailing annotation, on the line it stands on. */
  predicate TrailingText(lines: seq<Line>, x: Tagged) {
    x.0 < |lines| && lines[x.0].Code? && lines[x.0].closes && lines[x.0].trailing == Some(x.1)
  }

  /** Field `k` is annotated by `x`: outside definitions, if the next line that is no comment defines `k`; behind a `;`, if that
      line defines `k` or closes its definition. */
  ghost predicate OfField(lines: seq<Line>, k: (string, string), x: Tagged) {
    || (OwnText(lines, x) && !OpenBody(lines, x.0) && DefinesField(lines, Next(lines, x.0), k))
    || (TrailingText(lines, x) && (lines[x.0].field == Some(k) || (lines[x.0].field == None && BodyOf(lines, k, x.0))))
  }

  predicate DefinesField(lines: seq<Line>, j: nat, k: (string, string)) {
    j < |lines| && lines[j].Code? && lines[j].field == Some(k)
  }

  /** Table `k` is annotated by `x`: the next line that is no comment, or the line itself, defines `k`. */
  predicate OfTable(lines: seq<Line>, k: string, x: Tagged) {
    || (OwnText(lines, x) && DefinesTable(lines, Next(lines, x.0), k))
    || (TrailingText(lines, x) && lines[x.0].table == Some(k))
  }

  predicate DefinesTable(lines: seq<Line>, j: nat, k: string) {
    j < |lines| && lines[j].Code? && lines[j].table == Some(k)
  }

  predicate OfNothing(lines: seq<Line>, x: Tagged) {
    OwnText(lines, x) && ToNothing(lines, x.0)
  }

  predicate ToField(lines: seq<Line>, i: nat)
    requires i < |lines|
  {
    var j := Next(lines, i);
    !OpenBody(lines, i) && j < |lines| && lines[j].Code? && lines[j].field.Some?
  }

  predicate ToTable(lines: seq<Line>, i: nat)
    requires i < |lines|
  {
    var j := Next(lines, i);
    j < |lines| && lines[j].Code? && lines[j].table.Some?
  }

  predicate ToNothing(lines: seq<Line>, i: nat)
    requires i < |lines|
  {
    var j := Next(lines, i);
    j == |lines| || lines[j].Blank? || !lines[j].define
  }

  // ---------- each scanner finds just that ----------

  ghost predicate Has<K>(r: Attached<K>, k: K, x: Tagged) {
    k in r && x in r[k]
  }

  lemma HasAttach<K>(r: Attached<K>, k: K, xs: seq<Tagged>, j: K, x: Tagged)
    ensures Has(Attach(r, k, xs), j, x) <==> Has(r, j, x) || (j == k && x in xs)
  {
  }

  /** The line that decides where an annotation goes. */
  function Due(lines: seq<Line>, x: Tagged): nat {
    if x.0 < |lines| && lines[x.0].Comment? then Next(lines, x.0) else x.0
  }

  /** A standalone annotation before line `n` with nothing but comments since. */
  predicate Waits(lines: seq<Line>, n: nat, x: Tagged) {
    OwnText(lines, x) && x.0 < n <= Next(lines, x.0)
  }

  lemma WaitsStep(lines: seq<Line>, n: nat, x: Tagged)
    requires n < |lines|
    ensures Waits(lines, n + 1, x) <==> lines[n].Comment? && (Waits(lines, n, x) || (lines[n].ann.Some? && x == (n, lines[n].ann.value)))
  {
  }

  /** The field scanner is in the middle of a definition. */
  predicate InBody(lines: seq<Line>, i: nat)
    requires i <= |lines|
  {
    FieldsUpTo(lines, i).inField
  }

  lemma {:induction false} BodyByLines(lines: seq<Line>, n: nat)
    requires n <= |lines|
    ensures InBody(lines, n) <==> OpenBody(lines, n)
    decreases n
  {
    if n > 0 {
      BodyByLines(lines, n - 1);
      if InBody(lines, n) {
        if Opens(lines[n - 1]) {
          assert OpenBody(lines, n);
        } else {
          var i :| 0 <= i < n - 1 && Opens(lines[i]) && forall k | i < k < n - 1 :: !Closes(lines[k]);
          assert OpenBody(lines, n);
        }
      }
      if OpenBody(lines, n) {
        var i :| 0 <= i < n && Opens(lines[i]) && forall k | i < k < n :: !Closes(lines[k]);
        assert i < n - 1 ==> OpenBody(lines, n - 1);
      }
    }
  }

  lemma OpenFromStep(lines: seq<Line>, i: nat, n: nat)
    requires i <= n < |lines|
    ensures OpenFrom(lines, i, n + 1) <==> if i < n then OpenFrom(lines, i, n) && !Closes(lines[n]) && !Opens(lines[n]) else Opens(lines[n])
  {
  }

  /** How the open definition changes with a line. */
  lemma BodyOfStep(lines: seq<Line>, k: (string, string), n: nat)
    requires n < |lines|
    ensures BodyOf(lines, k, n + 1) <==>
      if Opens(lines[n]) then lines[n].field == Some(k) else BodyOf(lines, k, n) && !Closes(lines[n])
  {
    if BodyOf(lines, k, n + 1) {
      var i :| 0 <= i < n + 1 && OpenFrom(lines, i, n + 1) && lines[i].field == Some(k);
      OpenFromStep(lines, i, n);
    }
    if Opens(lines[n]) {
      OpenFromStep(lines, n, n);
    } else if BodyOf(lines, k, n) {
      var i :| 0 <= i < n && OpenFrom(lines, i, n) && lines[i].field == Some(k);
      OpenFromStep(lines, i, n);
    }
  }

  /** The scanner's key names the field whose definition is open. */
  lemma {:induction false} KeyByLines(lines: seq<Line>, k: (string, string), n: nat)
    requires n <= |lines|
    ensures (FieldsUpTo(lines, n).inField && FieldsUpTo(lines, n).key == Some(k)) <==> BodyOf(lines, k, n)
    decreases n
  {
    if n > 0 {
      KeyByLines(lines, k, n - 1);
      BodyOfStep(lines, k, n - 1);
    }
  }

  lemma {:induction false} BodyHasNoPending(lines: seq<Line>, n: nat)
    requires n <= |lines|
    ensures InBody(lines, n) ==> FieldsUpTo(lines, n).pending == []
    decreases n
  {
    if n > 0 { BodyHasNoPending(lines, n - 1); }
  }

  lemma {:induction false} CommentsKeepBody(lines: seq<Line>, i: nat, n: nat)
    requires i < |lines| && i <= n <= Next(lines, i) && lines[i].Comment?
    ensures InBody(lines, n) == InBody(lines, i)
    decreases n
  {
    if n > i { CommentsKeepBody(lines, i, n - 1); }
  }

  /** What the field scanner holds back, and what it attaches to whom. */
  lemma {:induction false} FieldPending(lines: seq<Line>, n: nat, x: Tagged)
    requires n <= |lines|
    ensures x in FieldsUpTo(lines, n).pending <==> Waits(lines, n, x) && !OpenBody(lines, x.0)
    decreases n
  {
    if n > 0 {
      FieldPending(lines, n - 1, x);
      WaitsStep(lines, n - 1, x);
      BodyByLines(lines, n - 1);
      BodyHasNoPending(lines, n - 1);
    }
  }

  lemma {:induction false} FieldHas(lines: seq<Line>, n: nat, k: (string, string), x: Tagged)
    requires n <= |lines|
    ensures Has(FieldsUpTo(lines, n).result, k, x) <==> OfField(lines, k, x) && Due(lines, x) < n
    decreases n
  {
    if n > 0 {
      var m := n - 1;
      var s, line := FieldsUpTo(lines, m), lines[m];
      FieldHas(lines, m, k, x);
      FieldPending(lines, m, x);
      KeyByLines(lines, k, m);
      if line.Code? {
        var tail := Trailing(m, line);
        if line.field.Some? {
          HasAttach(s.result, line.field.value, s.pending, k, x);
          HasAttach(Attach(s.result, line.field.value, s.pending), line.field.value, tail, k, x);
        } else if s.key.Some? {
          HasAttach(s.result, s.key.value, tail, k, x);
        }
      }
    }
  }

  lemma {:induction false} TableHas(lines: seq<Line>, n: nat, k: string, x: Tagged)
    requires n <= |lines|
    ensures x in TablesUpTo(lines, n).pending <==> Waits(lines, n, x)
    ensures Has(TablesUpTo(lines, n).result, k, x) <==> OfTable(lines, k, x) && Due(lines, x) < n
    decreases n
  {
    if n > 0 {
      var m := n - 1;
      var s, line := TablesUpTo(lines, m), lines[m];
      TableHas(lines, m, k, x);
      WaitsStep(lines, m, x);
      if line.Code? && line.table.Some? {
        HasAttach(s.result, line.table.value, s.pending, k, x);
        HasAttach(Attach(s.result, line.table.value, s.pending), line.table.value, Trailing(m, line), k, x);
      }
    }
  }

  lemma {:induction false} OrphanHas(lines: seq<Line>, n: nat, x: Tagged)
    requires n <= |lines|
    ensures x in OrphansUpTo(lines, n).pending <==> Waits(lines, n, x)
    ensures x in OrphansUpTo(lines, n).out <==> OfNothing(lines, x) && Due(lines, x) < n
    decreases n
  {
    if n > 0 {
      OrphanHas(lines, n - 1, x);
      WaitsStep(lines, n - 1, x);
    }
  }

  // ---------- in the order of the lines ----------

  predicate Increasing(xs: seq<Tagged>) {
    forall i, j | 0 <= i < j < |xs| :: xs[i].0 < xs[j].0
  }

  predicate Before(xs: seq<Tagged>, ys: seq<Tagged>) {
    forall i, j | 0 <= i < |xs| && 0 <= j < |ys| :: xs[i].0 < ys[j].0
  }

  ghost predicate Ordered<K(!new)>(r: Attached<K>) {
    forall k | k in r :: r[k] != [] && Increasing(r[k])
  }

  lemma OrderAttach<K(!new)>(r: Attached<K>, k: K, xs: seq<Tagged>)
    requires Ordered(r) && Increasing(xs) && (k in r ==> Before(r[k], xs))
    ensures Ordered(Attach(r, k, xs))
  {
  }

  lemma OrderBoth<K(!new)>(r: Attached<K>, k: K, xs: seq<Tagged>, n: nat, line: Line)
    requires Ordered(r) && Increasing(xs) && line.Code? && (forall x | x in xs :: x.0 < n)
    requires k in r ==> Before(r[k], xs) && forall x | x in r[k] :: x.0 < n
    ensures Ordered(Attach(Attach(r, k, xs), k, Trailing(n, line)))
  {
    OrderAttach(r, k, xs);
    OrderAttach(Attach(r, k, xs), k, Trailing(n, line));
  }

  /** What is decided at line `n` comes behind what was decided before. */
  lemma DueBefore(lines: seq<Line>, n: nat, x: Tagged, y: Tagged)
    requires Due(lines, x) < n && Waits(lines, n, y)
    ensures x.0 < y.0
  {
  }

  lemma {:induction false} FieldsOrdered(lines: seq<Line>, n: nat)
    requires n <= |lines|
    ensures Ordered(FieldsUpTo(lines, n).result) && Increasing(FieldsUpTo(lines, n).pending)
    decreases n
  {
    if n > 0 {
      var m := n - 1;
      var s, line := FieldsUpTo(lines, m), lines[m];
      FieldsOrdered(lines, m);
      forall x | x in s.pending ensures x.0 < m && Waits(lines, m, x) { FieldPending(lines, m, x); }
      if line.Code? {
        if line.field.Some? {
          var k := line.field.value;
          FieldOrder(lines, m, k, s.pending);
          OrderBoth(s.result, k, s.pending, m, line);
        } else if s.key.Some? {
          FieldOrder(lines, m, s.key.value, []);
          OrderAttach(s.result, s.key.value, Trailing(m, line));
        }
      }
    }
  }

  lemma {:induction false} FieldOrder(lines: seq<Line>, n: nat, k: (string, string), xs: seq<Tagged>)
    requires n <= |lines| && forall x | x in xs :: Waits(lines, n, x)
    ensures var r := FieldsUpTo(lines, n).result; k in r ==> Before(r[k], xs) && forall x | x in r[k] :: x.0 < n
  {
    var r := FieldsUpTo(lines, n).result;
    if k in r {
      forall x: Tagged | x in r[k] ensures x.0 < n && forall y: Tagged | y in xs :: x.0 < y.0 {
        assert Has(r, k, x);
        FieldHas(lines, n, k, x);
        forall y: Tagged | y in xs ensures x.0 < y.0 { DueBefore(lines, n, x, y); }
      }
    }
  }

  lemma {:induction false} TablesOrdered(lines: seq<Line>, n: nat)
    requires n <= |lines|
    ensures Ordered(TablesUpTo(lines, n).result) && Increasing(TablesUpTo(lines, n).pending)
    decreases n
  {
    if n > 0 {
      var m := n - 1;
      var s, line := TablesUpTo(lines, m), lines[m];
      TablesOrdered(lines, m);
      forall x | x in s.pending ensures x.0 < m && Waits(lines, m, x) { TableHas(lines, m, "", x); }
      if line.Code? && line.table.Some? {
        var k := line.table.value;
        TableOrder(lines, m, k, s.pending);
        OrderBoth(s.result, k, s.pending, m, line);
      }
    }
  }

  lemma {:induction false} TableOrder(lines: seq<Line>, n: nat, k: string, xs: seq<Tagged>)
    requires n <= |lines| && forall x | x in xs :: Waits(lines, n, x)
    ensures var r := TablesUpTo(lines, n).result; k in r ==> Before(r[k], xs) && forall x | x in r[k] :: x.0 < n
  {
    var r := TablesUpTo(lines, n).result;
    if k in r {
      forall x: Tagged | x in r[k] ensures x.0 < n && forall y: Tagged | y in xs :: x.0 < y.0 {
        assert Has(r, k, x);
        TableHas(lines, n, k, x);
        forall y: Tagged | y in xs ensures x.0 < y.0 { DueBefore(lines, n, x, y); }
      }
    }
  }

  lemma {:induction false} OrphansOrdered(lines: seq<Line>, n: nat)
    requires n <= |lines|
    ensures Increasing(OrphansUpTo(lines, n).out + OrphansUpTo(lines, n).pending)
    decreases n
  {
    if n > 0 {
      var s := OrphansUpTo(lines, n - 1);
      OrphansOrdered(lines, n - 1);
      forall x | x in s.out + s.pending ensures x.0 < n - 1 { OrphanHas(lines, n - 1, x); }
      var all := s.out + s.pending;
      assert s.out == all[..|s.out|] && s.pending == all[|s.out|..];
      if IsAnnotation(lines, n - 1) { assert s.out + (s.pending + [(n - 1, lines[n - 1].ann.value)]) == all + [(n - 1, lines[n - 1].ann.value)]; }
    }
  }

  // ---------- the three results ----------

  /** Each field has exactly its annotations, each once and in the order of the lines; so does each table, and so do those that
      belong to nothing. */
  lemma EntriesAreRight(lines: seq<Line>)
    ensures forall k, x :: Has(Fields(lines), k, x) <==> OfField(lines, k, x)
    ensures forall k, x :: Has(Tables(lines), k, x) <==> OfTable(lines, k, x)
    ensures forall x :: x in Unattached(lines) <==> OfNothing(lines, x)
    ensures Ordered(Fields(lines)) && Ordered(Tables(lines)) && Increasing(Unattached(lines))
  {
    var n := |lines|;
    forall k, x ensures Has(Fields(lines), k, x) <==> OfField(lines, k, x) { FieldHas(lines, n, k, x); }
    forall k, x ensures Has(Tables(lines), k, x) <==> OfTable(lines, k, x) { TableHas(lines, n, k, x); }
    forall x ensures x in Unattached(lines) <==> OfNothing(lines, x) { OrphanHas(lines, n, x); }
    FieldsOrdered(lines, n);
    TablesOrdered(lines, n);
    OrphansOrdered(lines, n);
  }

  ghost function LinesIn(xs: seq<Tagged>): set<nat> {
    set i | 0 <= i < |xs| :: xs[i].0
  }

  ghost function LinesOf<K>(r: Attached<K>): set<nat> {
    set k, i | k in r && 0 <= i < |r[k]| :: r[k][i].0
  }

  // ---------- none is lost ----------

  /** Where every standalone annotation ends up, across the three scanners. */
  lemma FateOfAnnotation(lines: seq<Line>, i: nat)
    requires IsAnnotation(lines, i)
    ensures i in LinesOf(Fields(lines)) <==> ToField(lines, i)
    ensures i in LinesOf(Tables(lines)) <==> ToTable(lines, i)
    ensures i in LinesIn(Unattached(lines)) <==> ToNothing(lines, i)
  {
    EntriesAreRight(lines);
    var x, j := (i, lines[i].ann.value), Next(lines, i);
    if i in LinesOf(Fields(lines)) {
      var k, q :| k in Fields(lines) && 0 <= q < |Fields(lines)[k]| && Fields(lines)[k][q].0 == i;
      assert Has(Fields(lines), k, Fields(lines)[k][q]);
    }
    if ToField(lines, i) { assert Has(Fields(lines), lines[j].field.value, x); }
    if i in LinesOf(Tables(lines)) {
      var k, q :| k in Tables(lines) && 0 <= q < |Tables(lines)[k]| && Tables(lines)[k][q].0 == i;
      assert Has(Tables(lines), k, Tables(lines)[k][q]);
    }
    if ToTable(lines, i) { assert Has(Tables(lines), lines[j].table.value, x); }
    if i in LinesIn(Unattached(lines)) {
      var q :| 0 <= q < |Unattached(lines)| && Unattached(lines)[q].0 == i;
      assert Unattached(lines)[q] in Unattached(lines);
    }
    if ToNothing(lines, i) { assert x in Unattached(lines); }
  }

  /** A code line whose patterns agree: `DEFINE` at its start exactly when it names a field or a table, not both. */
  predicate Coherent(line: Line) {
    line.Code? ==> (line.define <==> line.field.Some? || line.table.Some?) && !(line.field.Some? && line.table.Some?)
  }

  /** Every multi-line `DEFINE FIELD` closes before the next `DEFINE`. */
  predicate Closed(lines: seq<Line>) {
    forall j | 0 <= j < |lines| && lines[j].Code? && lines[j].define :: !OpenBody(lines, j)
  }

  predicate ExactlyOne(a: bool, b: bool, c: bool) {
    (a || b || c) && !(a && b) && !(a && c) && !(b && c)
  }

  /** Then no annotation is lost or counted twice. */
  lemma {:induction false} NoAnnotationIsLost(lines: seq<Line>, i: nat)
    requires IsAnnotation(lines, i) && Closed(lines) && (Next(lines, i) < |lines| ==> Coherent(lines[Next(lines, i)]))
    ensures ExactlyOne(i in LinesOf(Fields(lines)), i in LinesOf(Tables(lines)), i in LinesIn(Unattached(lines)))
  {
    FateOfAnnotation(lines, i);
    var j := Next(lines, i);
    if j < |lines| {
      CommentsKeepBody(lines, i, j);
      BodyByLines(lines, j);
    }
  }

  /** In general: exactly when the next code line is coherent as far as this annotation goes, and no field body is
      open across a `DEFINE FIELD`. */
  lemma {:induction false} LostExactlyWhen(lines: seq<Line>, i: nat)
    requires IsAnnotation(lines, i)
    ensures var j := Next(lines, i);
      ExactlyOne(i in LinesOf(Fields(lines)), i in LinesOf(Tables(lines)), i in LinesIn(Unattached(lines)))
      <==> (j < |lines| && lines[j].Code? ==>
              if lines[j].define then (lines[j].field.Some? && !OpenBody(lines, i)) != lines[j].table.Some?
              else (lines[j].field.Some? ==> OpenBody(lines, i)) && lines[j].table.None?)
  {
    FateOfAnnotation(lines, i);
    BodyByLines(lines, i);
  }

  /** A `DEFINE FIELD` whose `ON` stands on the next line: its annotation reaches nobody and is not reported. */
  lemma SplitDefinitionLosesAnnotation(name: string)
    ensures var lines := [Comment(Some(name)), Code(None, None, true, false, None), Code(None, None, false, true, None)];
      0 !in LinesOf(Fields(lines)) && 0 !in LinesOf(Tables(lines)) && 0 !in LinesIn(Unattached(lines))
  {
    var lines := [Comment(Some(name)), Code(None, None, true, false, None), Code(None, None, false, true, None)];
    FateOfAnnotation(lines, 0);
  }
}
