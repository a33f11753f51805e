/** Drawing a layout: boxes on a character canvas, then orthogonal edges around what is already there. */
module DagCanvas {
  import opened Graph
  import opened DagLayout
  import opened DagRender

  const NODE_INNER: nat := 22
  const BOX: nat := 24
  const STRIDE: nat := 28 // box and gap
  const ROW: nat := 5     // four lines and a spacer

  datatype Step = Step(name: string, deps: seq<string>, glyph: char, detail: string, selected: bool)

  datatype Frame = Frame(tl: char, tr: char, bl: char, br: char, h: char)

  datatype Style = Style(plain: Frame, heavy: Frame, v: char, arrow: char)

  const Ascii := Style(Frame('+', '+', '+', '+', '-'), Frame('+', '+', '+', '+', '-'), '|', '>')
  const Unicode := Style(
    Frame('\U{250C}', '\U{2510}', '\U{2514}', '\U{2518}', '\U{2500}'),
    Frame('\U{250F}', '\U{2513}', '\U{2517}', '\U{251B}', '\U{2501}'), '\U{2502}', '\U{25B8}')

  // ---------- box text ----------

  function Repeat(c: char, n: nat): (s: string)
    ensures |s| == n
  {
    seq(n, _ => c)
  }

  function Truncate(s: string, max: nat): (r: string)
    requires max > 0
    ensures |r| <= max
  {
    if |s| <= max then s else s[..max - 1] + "\U{2026}"
  }

  function Pad(s: string, w: nat): (r: string)
    requires |s| <= w
    ensures |r| == w
  {
    s + Repeat(' ', w - |s|)
  }

  function Inside(text: string, v: char): (s: string)
    ensures |s| == BOX
  {
    [v, ' '] + Pad(Truncate(text, NODE_INNER - 2), NODE_INNER - 2) + [' ', v]
  }

  /** The four lines of a step's box, each exactly as wide as the box. */
  function BoxLine(s: Step, style: Style, dy: nat): (line: string)
    ensures |line| == BOX
  {
    var f := if s.selected then style.heavy else style.plain;
    if dy == 0 then [f.tl] + Repeat(f.h, NODE_INNER) + [f.tr]
    else if dy == 1 then Inside([s.glyph, ' '] + s.name, style.v)
    else if dy == 2 then Inside(s.detail, style.v)
    else [f.bl] + Repeat(f.h, NODE_INNER) + [f.br]
  }

  /** Text in a box: as it is if it fits its twenty characters, else cut with an ellipsis; blanks behind it, and the borders. */
  lemma InsideIs(text: string, v: char)
    ensures var s, n := Inside(text, v), |text|;
      && s[0] == v == s[23] && s[1] == ' ' == s[22]
      && (n <= 20 ==> s[2..2 + n] == text && forall i | 2 + n <= i < 22 :: s[i] == ' ')
      && (n > 20 ==> s[2..21] == text[..19] && s[21] == '\U{2026}')
  {
    var t := Truncate(text, 20);
    assert Inside(text, v) == [v, ' '] + Pad(t, 20) + [' ', v];
    if |text| > 20 { assert t[..19] == text[..19] && t[19] == '\U{2026}'; }
  }

  /** A box, line by line: a frame, heavy if the step is selected; glyph and name; detail. */
  lemma BoxIs(s: Step, style: Style)
    ensures var f, top, bottom := if s.selected then style.heavy else style.plain, BoxLine(s, style, 0), BoxLine(s, style, 3);
      var name, detail := BoxLine(s, style, 1), BoxLine(s, style, 2);
      && top[0] == f.tl && top[23] == f.tr && bottom[0] == f.bl && bottom[23] == f.br
      && (forall i | 1 <= i < 23 :: top[i] == f.h == bottom[i])
      && name[0] == style.v == name[23] && detail[0] == style.v == detail[23]
      && name[2] == s.glyph && name[3] == ' ' && (|s.name| <= 18 ==> name[4..4 + |s.name|] == s.name)
      && (|s.detail| <= 20 ==> detail[2..2 + |s.detail|] == s.detail)
  {
    var text := [s.glyph, ' '] + s.name;
    InsideIs(text, style.v);
    InsideIs(s.detail, style.v);
    var line := BoxLine(s, style, 1);
    if |text| <= 20 {
      assert line[2..2 + |text|] == text && text[2..] == s.name;
      assert line[4..4 + |s.name|] == line[2..2 + |text|][2..];
      assert line[2] == line[2..2 + |text|][0] && line[3] == line[2..2 + |text|][1];
    } else {
      assert line[2] == line[2..21][0] && line[3] == line[2..21][1] && text[..19][0] == s.glyph && text[..19][1] == ' ';
    }
  }

  // ---------- the canvas with boxes only ----------

  ghost predicate InColumns(n: nat, cols: seq<seq<int>>) {
    forall c | 0 <= c < |cols| :: InRange(n, cols[c])
  }

  /** What the boxes put at line `y`, character `x`. */
  ghost function BoxCell(steps: seq<Step>, style: Style, cols: seq<seq<int>>, y: nat, x: nat): char
    requires InColumns(|steps|, cols)
  {
    if InBox(cols, y, x) then BoxLine(steps[cols[x / STRIDE][y / ROW]], style, y % ROW)[x % STRIDE] else ' '
  }

  predicate InBox(cols: seq<seq<int>>, y: nat, x: nat) {
    x / STRIDE < |cols| && y / ROW < |cols[x / STRIDE]| && y % ROW < 4 && x % STRIDE < BOX
  }

  function Width(cols: seq<seq<int>>): nat {
    if cols == [] then 0 else |cols| * STRIDE - 4
  }

  function Height(cols: seq<seq<int>>): nat {
    if cols == [] then 0 else
      var rest := Height(cols[1..]);
      if |cols[0]| * ROW > rest then |cols[0]| * ROW else rest
  }

  lemma {:induction false} HeightCovers(cols: seq<seq<int>>, c: nat)
    requires c < |cols|
    ensures |cols[c]| * ROW <= Height(cols)
  {
    if c > 0 { HeightCovers(cols[1..], c - 1); }
  }

  /** The canvas ends with the last box, and below the fullest column. */
  lemma {:induction false} SizeIs(cols: seq<seq<int>>)
    requires cols != []
    ensures Width(cols) == 24 * |cols| + 4 * (|cols| - 1)
    ensures (exists c :: 0 <= c < |cols| && Height(cols) == 5 * |cols[c]|) && forall c | 0 <= c < |cols| :: 5 * |cols[c]| <= Height(cols)
  {
    forall c | 0 <= c < |cols| ensures 5 * |cols[c]| <= Height(cols) { HeightCovers(cols, c); }
    HeightReached(cols);
  }

  lemma {:induction false} HeightReached(cols: seq<seq<int>>)
    requires cols != []
    ensures exists c :: 0 <= c < |cols| && Height(cols) == 5 * |cols[c]|
  {
    if |cols| == 1 {
      assert Height(cols[1..]) == 0 && Height(cols) == 5 * |cols[0]|;
    } else {
      HeightReached(cols[1..]);
      var k :| 0 <= k < |cols[1..]| && Height(cols[1..]) == 5 * |cols[1..][k]|;
      assert cols[1..][k] == cols[k + 1];
      assert Height(cols) == 5 * |cols[0]| || Height(cols) == 5 * |cols[k + 1]|;
    }
  }

  method Put(canvas: array2<char>, y: nat, x: nat, text: string)
    modifies canvas
    ensures forall v, u | 0 <= v < canvas.Length0 && 0 <= u < canvas.Length1 ::
      canvas[v, u] == if v == y && x <= u < x + |text| then text[u - x] else old(canvas[v, u])
  {
    if y >= canvas.Length0 {
      return;
    }
    for i := 0 to |text|
      invariant forall v, u | 0 <= v < canvas.Length0 && 0 <= u < canvas.Length1 ::
        canvas[v, u] == if v == y && x <= u < x + i then text[u - x] else old(canvas[v, u])
    {
      if x + i < canvas.Length1 {
        canvas[y, x + i] := text[i];
      }
    }
  }

  /** One box: its four lines, and nothing else. */
  method PutBox(canvas: array2<char>, s: Step, style: Style, c: nat, r: nat)
    modifies canvas
    ensures forall v, u | 0 <= v < canvas.Length0 && 0 <= u < canvas.Length1 ::
      canvas[v, u] == if v / ROW == r && u / STRIDE == c && v % ROW < 4 && u % STRIDE < BOX then BoxLine(s, style, v % ROW)[u % STRIDE]
                      else old(canvas[v, u])
  {
    for dy := 0 to 4
      invariant forall v, u | 0 <= v < canvas.Length0 && 0 <= u < canvas.Length1 ::
        canvas[v, u] == if v / ROW == r && u / STRIDE == c && v % ROW < dy && u % STRIDE < BOX then BoxLine(s, style, v % ROW)[u % STRIDE]
                        else old(canvas[v, u])
    {
      Put(canvas, r * ROW + dy, c * STRIDE, BoxLine(s, style, dy));
    }
  }

  // ---------- boxes ----------

  type Place = map<string, (int, int)>

  /** Each placed name sits where the columns say. */
  ghost predicate PlaceOk(steps: seq<Step>, cols: seq<seq<int>>, place: Place)
    requires InColumns(|steps|, cols)
  {
    forall n | n in place ::
      && 0 <= place[n].0 < |cols| && 0 <= place[n].1 < |cols[place[n].0]|
      && steps[cols[place[n].0][place[n].1]].name == n
  }

  /** The boxes of the columns before `c`, and of column `c` before row `r`. */
  ghost predicate Boxed(canvas: array2<char>, steps: seq<Step>, style: Style, cols: seq<seq<int>>, c: nat, r: nat)
    requires InColumns(|steps|, cols)
    reads canvas
  {
    forall v, u | 0 <= v < canvas.Length0 && 0 <= u < canvas.Length1 ::
      canvas[v, u] == if u / STRIDE < c || (u / STRIDE == c && v / ROW < r) then BoxCell(steps, style, cols, v, u) else ' '
  }

  method DrawBoxes(steps: seq<Step>, style: Style, cols: seq<seq<int>>) returns (canvas: array2<char>, place: Place)
    requires InColumns(|steps|, cols)
    ensures fresh(canvas) && canvas.Length0 == Height(cols) && canvas.Length1 == Width(cols)
    ensures Boxed(canvas, steps, style, cols, |cols|, 0)
    ensures PlaceOk(steps, cols, place)
    ensures forall c, r | 0 <= c < |cols| && 0 <= r < |cols[c]| :: steps[cols[c][r]].name in place
  {
    canvas := new char[Height(cols), Width(cols)]((_, _) => ' ');
    place := map[];
    for c := 0 to |cols|
      invariant Boxed(canvas, steps, style, cols, c, 0)
      invariant PlaceOk(steps, cols, place)
      invariant forall k, r | 0 <= k < c && 0 <= r < |cols[k]| :: steps[cols[k][r]].name in place
    {
      place := DrawColumn(canvas, steps, style, cols, c, place);
    }
  }

  method DrawColumn(canvas: array2<char>, steps: seq<Step>, style: Style, cols: seq<seq<int>>, c: nat, place0: Place) returns (place: Place)
    requires InColumns(|steps|, cols) && c < |cols| && Boxed(canvas, steps, style, cols, c, 0) && PlaceOk(steps, cols, place0)
    modifies canvas
    ensures Boxed(canvas, steps, style, cols, c + 1, 0) && PlaceOk(steps, cols, place)
    ensures forall n | n in place0 :: n in place
    ensures forall r | 0 <= r < |cols[c]| :: steps[cols[c][r]].name in place
  {
    place := place0;
    for r := 0 to |cols[c]|
      invariant Boxed(canvas, steps, style, cols, c, r) && PlaceOk(steps, cols, place)
      invariant forall n | n in place0 :: n in place
      invariant forall k | 0 <= k < r :: steps[cols[c][k]].name in place
    {
      var s := steps[cols[c][r]];
      place := place[s.name := (c, r)];
      PutBox(canvas, s, style, c, r);
    }
    ColumnDone(canvas, steps, style, cols, c);
  }

  lemma ColumnDone(canvas: array2<char>, steps: seq<Step>, style: Style, cols: seq<seq<int>>, c: nat)
    requires InColumns(|steps|, cols) && c < |cols| && Boxed(canvas, steps, style, cols, c, |cols[c]|)
    ensures Boxed(canvas, steps, style, cols, c + 1, 0)
  {
  }

  // ---------- edges ----------

  /** From the box in column `fc`, row `fr`, to the box in column `tc`, row `tr`. */
  datatype Edge = Edge(fc: int, fr: int, tc: int, tr: int)

  function EdgeStart(e: Edge): int { e.fc * STRIDE + BOX }
  function EdgeEnd(e: Edge): int { e.tc * STRIDE }
  function EdgeMid(e: Edge): int { EdgeStart(e) + (EdgeEnd(e) - EdgeStart(e)) / 2 }
  function SrcLine(e: Edge): int { e.fr * ROW + 1 }
  function DstLine(e: Edge): int { e.tr * ROW + 1 }

  /** The cells an edge runs over: out, across, in. */
  predicate OnRoute(e: Edge, y: int, x: int) {
    || (y == SrcLine(e) && EdgeStart(e) <= x < EdgeMid(e))
    || (x == EdgeMid(e) && (SrcLine(e) <= y <= DstLine(e) || DstLine(e) <= y <= SrcLine(e)))
    || (y == DstLine(e) && EdgeMid(e) < x < EdgeEnd(e))
  }

  predicate Tip(e: Edge, y: int, x: int) {
    y == DstLine(e) && x == EdgeEnd(e) - 1
  }

  /** A route leaves directly right of the box it comes from and ends directly left of the box it goes to, both on the line of the
      name; it keeps to those lines but for one character column in between, where it goes from one to the other. */
  lemma RouteIs(e: Edge) returns (m: int)
    requires 0 <= e.fc < e.tc && 0 <= e.fr && 0 <= e.tr
    ensures 28 * e.fc + 24 < m < 28 * e.tc - 1 && Tip(e, 5 * e.tr + 1, 28 * e.tc - 1)
    ensures forall y, x :: OnRoute(e, y, x) <==>
      && 28 * e.fc + 24 <= x < 28 * e.tc
      && if x < m then y == 5 * e.fr + 1 else if x > m then y == 5 * e.tr + 1
         else 5 * e.fr + 1 <= y <= 5 * e.tr + 1 || 5 * e.tr + 1 <= y <= 5 * e.fr + 1
  {
    m := EdgeMid(e);
    assert EdgeEnd(e) >= EdgeStart(e) + 4;
  }

  predicate EdgeFits(e: Edge, height: int, width: int) {
    0 <= e.fc < e.tc && 0 <= e.fr && 0 <= e.tr && SrcLine(e) < height && DstLine(e) < height && EdgeEnd(e) <= width
  }

  predicate Inked(style: Style) {
    style.plain.h != ' ' && style.v != ' ' && style.arrow != ' '
  }

  function StyleOf(ascii: bool): (style: Style)
    ensures Inked(style)
  {
    if ascii then Ascii else Unicode
  }

  /** Fill blanks of a stretch of one line. */
  method Across(canvas: array2<char>, y: int, from: int, to: int, ch: char)
    requires 0 <= y < canvas.Length0 && 0 <= from && to <= canvas.Length1
    modifies canvas
    ensures forall v, u | 0 <= v < canvas.Length0 && 0 <= u < canvas.Length1 ::
      canvas[v, u] == if v == y && from <= u < to && old(canvas[v, u]) == ' ' then ch else old(canvas[v, u])
  {
    var x := from;
    while x < to
      invariant from <= x && (x <= to || x == from)
      invariant forall v, u | 0 <= v < canvas.Length0 && 0 <= u < canvas.Length1 ::
        canvas[v, u] == if v == y && from <= u < x && old(canvas[v, u]) == ' ' then ch else old(canvas[v, u])
    {
      if canvas[y, x] == ' ' {
        canvas[y, x] := ch;
      }
      x := x + 1;
    }
  }

  /** Fill blanks of a stretch of one character column, both ends included. */
  method Down(canvas: array2<char>, x: int, lo: int, hi: int, ch: char)
    requires 0 <= x < canvas.Length1 && 0 <= lo <= hi < canvas.Length0
    modifies canvas
    ensures forall v, u | 0 <= v < canvas.Length0 && 0 <= u < canvas.Length1 ::
      canvas[v, u] == if u == x && lo <= v <= hi && old(canvas[v, u]) == ' ' then ch else old(canvas[v, u])
  {
    for y := lo to hi + 1
      invariant forall v, u | 0 <= v < canvas.Length0 && 0 <= u < canvas.Length1 ::
        canvas[v, u] == if u == x && lo <= v < y && old(canvas[v, u]) == ' ' then ch else old(canvas[v, u])
    {
      if canvas[y, x] == ' ' {
        canvas[y, x] := ch;
      }
    }
  }

  /** The tip becomes the arrow; elsewhere ink stays, and blanks on the route are filled. */
  method DrawEdge(canvas: array2<char>, e: Edge, style: Style)
    requires EdgeFits(e, canvas.Length0, canvas.Length1) && Inked(style)
    modifies canvas
    ensures forall v, u | 0 <= v < canvas.Length0 && 0 <= u < canvas.Length1 ::
      && (Tip(e, v, u) ==> canvas[v, u] == style.arrow)
      && (!Tip(e, v, u) && old(canvas[v, u]) != ' ' ==> canvas[v, u] == old(canvas[v, u]))
      && (canvas[v, u] == ' ' <==> old(canvas[v, u]) == ' ' && !OnRoute(e, v, u))
      && (!Tip(e, v, u) && OnRoute(e, v, u) && old(canvas[v, u]) == ' ' ==> canvas[v, u] == if u == EdgeMid(e) then style.v else style.plain.h)
  {
    var start, end, mid, src, dst := EdgeStart(e), EdgeEnd(e), EdgeMid(e), SrcLine(e), DstLine(e);
    Across(canvas, src, start, mid, style.plain.h);
    Down(canvas, mid, if src <= dst then src else dst, if src <= dst then dst else src, style.v);
    Across(canvas, dst, mid + 1, end - 1, style.plain.h);
    canvas[dst, end - 1] := style.arrow;
  }

  /** The drawing with some of the edges in: box ink is untouched, exactly the route cells are no longer
      blank, and every edge ends in its arrow. */
  ghost predicate Drawn(canvas: array2<char>, steps: seq<Step>, style: Style, cols: seq<seq<int>>, edges: set<Edge>)
    requires InColumns(|steps|, cols)
    reads canvas
  {
    && (forall v, u | 0 <= v < canvas.Length0 && 0 <= u < canvas.Length1 ::
          && (BoxCell(steps, style, cols, v, u) != ' ' ==> canvas[v, u] == BoxCell(steps, style, cols, v, u))
          && (canvas[v, u] == ' ' <==> BoxCell(steps, style, cols, v, u) == ' ' && !Routed(edges, v, u)))
    && Arrowed(canvas, style, edges)
  }

  ghost predicate Arrowed(canvas: array2<char>, style: Style, edges: set<Edge>)
    reads canvas
  {
    forall e | e in edges :: EdgeFits(e, canvas.Length0, canvas.Length1) && canvas[DstLine(e), EdgeEnd(e) - 1] == style.arrow
  }

  ghost predicate Routed(edges: set<Edge>, y: int, x: int) {
    exists e :: e in edges && OnRoute(e, y, x)
  }

  lemma RoutedAdd(edges: set<Edge>, e: Edge, y: int, x: int)
    ensures Routed(edges + {e}, y, x) <==> Routed(edges, y, x) || OnRoute(e, y, x)
  {
    if OnRoute(e, y, x) { assert e in edges + {e}; }
    if Routed(edges, y, x) {
      var f :| f in edges && OnRoute(f, y, x);
      assert f in edges + {e};
    }
  }

  /** Tips lie in the gap left of a column, where no box has ink. */
  lemma TipInGap(steps: seq<Step>, style: Style, cols: seq<seq<int>>, e: Edge, y: nat, x: nat)
    requires InColumns(|steps|, cols) && 0 <= e.fc < e.tc && Tip(e, y, x)
    ensures BoxCell(steps, style, cols, y, x) == ' ' && OnRoute(e, y, x)
  {
    assert x == (e.tc - 1) * STRIDE + (STRIDE - 1);
    assert x % STRIDE == STRIDE - 1;
    assert EdgeEnd(e) >= EdgeStart(e) + 4;
  }

  method AddEdge(canvas: array2<char>, steps: seq<Step>, style: Style, cols: seq<seq<int>>, e: Edge, ghost edges: set<Edge>)
    requires InColumns(|steps|, cols) && Inked(style) && EdgeFits(e, canvas.Length0, canvas.Length1)
    requires Drawn(canvas, steps, style, cols, edges)
    modifies canvas
    ensures Drawn(canvas, steps, style, cols, edges + {e})
  {
    DrawEdge(canvas, e, style);
    forall v, u | 0 <= v < canvas.Length0 && 0 <= u < canvas.Length1
      ensures BoxCell(steps, style, cols, v, u) != ' ' ==> canvas[v, u] == BoxCell(steps, style, cols, v, u)
      ensures canvas[v, u] == ' ' <==> BoxCell(steps, style, cols, v, u) == ' ' && !Routed(edges + {e}, v, u)
    {
      RoutedAdd(edges, e, v, u);
      if Tip(e, v, u) { TipInGap(steps, style, cols, e, v, u); }
    }
    assert forall f | f in edges :: canvas[DstLine(f), EdgeEnd(f) - 1] == style.arrow;
  }

  /** Step `j`'s `k`-th dependency, where both are placed and the dependency sits further left. */
  ghost predicate IsEdge(steps: seq<Step>, place: Place, j: int, k: int, e: Edge) {
    && 0 <= j < |steps| && 0 <= k < |steps[j].deps| && steps[j].name in place && steps[j].deps[k] in place
    && e == EdgeBetween(place[steps[j].deps[k]], place[steps[j].name]) && e.fc < e.tc
  }

  function EdgeBetween(from: (int, int), to: (int, int)): Edge {
    Edge(from.0, from.1, to.0, to.1)
  }

  /** The edges into step `j` from its first `k` dependencies. */
  ghost function EdgesInto(steps: seq<Step>, place: Place, j: int, k: nat): set<Edge> {
    if k == 0 then {} else EdgesInto(steps, place, j, k - 1) + EdgeAt(steps, place, j, k - 1)
  }

  ghost function EdgeAt(steps: seq<Step>, place: Place, j: int, k: int): set<Edge> {
    if 0 <= j < |steps| && 0 <= k < |steps[j].deps| && steps[j].name in place && steps[j].deps[k] in place
    then var e := EdgeBetween(place[steps[j].deps[k]], place[steps[j].name]); if e.fc < e.tc then {e} else {}
    else {}
  }

  ghost function AllEdges(steps: seq<Step>, place: Place, j: nat): set<Edge>
    requires j <= |steps|
  {
    if j == 0 then {} else AllEdges(steps, place, j - 1) + EdgesInto(steps, place, j - 1, |steps[j - 1].deps|)
  }

  lemma {:induction false} EdgesIntoHas(steps: seq<Step>, place: Place, j: int, k: int, n: nat, e: Edge)
    requires IsEdge(steps, place, j, k, e) && k < n
    ensures e in EdgesInto(steps, place, j, n)
  {
    if k < n - 1 { EdgesIntoHas(steps, place, j, k, n - 1, e); }
  }

  lemma {:induction false} AllEdgesHas(steps: seq<Step>, place: Place, j: int, k: int, n: nat, e: Edge)
    requires IsEdge(steps, place, j, k, e) && j < n <= |steps|
    ensures e in AllEdges(steps, place, n)
  {
    if j < n - 1 { AllEdgesHas(steps, place, j, k, n - 1, e); } else { EdgesIntoHas(steps, place, j, k, |steps[j].deps|, e); }
  }

  method DrawEdges(canvas: array2<char>, steps: seq<Step>, style: Style, cols: seq<seq<int>>, place: Place)
    requires InColumns(|steps|, cols) && Inked(style) && PlaceOk(steps, cols, place)
    requires canvas.Length0 == Height(cols) && canvas.Length1 == Width(cols) && Boxed(canvas, steps, style, cols, |cols|, 0)
    modifies canvas
    ensures Drawn(canvas, steps, style, cols, AllEdges(steps, place, |steps|))
  {
    BoxesAreDrawn(canvas, steps, style, cols);
    for j := 0 to |steps|
      invariant Drawn(canvas, steps, style, cols, AllEdges(steps, place, j))
    {
      DrawEdgesInto(canvas, steps, style, cols, place, j, AllEdges(steps, place, j));
    }
  }

  lemma BoxesAreDrawn(canvas: array2<char>, steps: seq<Step>, style: Style, cols: seq<seq<int>>)
    requires InColumns(|steps|, cols) && canvas.Length1 == Width(cols) && Boxed(canvas, steps, style, cols, |cols|, 0)
    ensures Drawn(canvas, steps, style, cols, {})
  {
    forall v, u | 0 <= v < canvas.Length0 && 0 <= u < canvas.Length1 ensures canvas[v, u] == BoxCell(steps, style, cols, v, u) {
    }
  }

  method DrawEdgesInto(canvas: array2<char>, steps: seq<Step>, style: Style, cols: seq<seq<int>>, place: Place, j: nat, ghost edges: set<Edge>)
    requires InColumns(|steps|, cols) && Inked(style) && PlaceOk(steps, cols, place) && j < |steps|
    requires canvas.Length0 == Height(cols) && canvas.Length1 == Width(cols) && Drawn(canvas, steps, style, cols, edges)
    modifies canvas
    ensures Drawn(canvas, steps, style, cols, edges + EdgesInto(steps, place, j, |steps[j].deps|))
  {
    assert edges + EdgesInto(steps, place, j, 0) == edges;
    for k := 0 to |steps[j].deps|
      invariant Drawn(canvas, steps, style, cols, edges + EdgesInto(steps, place, j, k))
    {
      DrawDependency(canvas, steps, style, cols, place, j, k, edges + EdgesInto(steps, place, j, k));
      EdgesStep(steps, place, j, k, edges);
    }
  }

  lemma EdgesStep(steps: seq<Step>, place: Place, j: nat, k: nat, edges: set<Edge>)
    ensures edges + EdgesInto(steps, place, j, k) + EdgeAt(steps, place, j, k) == edges + EdgesInto(steps, place, j, k + 1)
  {
  }

  method DrawDependency(canvas: array2<char>, steps: seq<Step>, style: Style, cols: seq<seq<int>>, place: Place, j: nat, k: nat, ghost edges: set<Edge>)
    requires InColumns(|steps|, cols) && Inked(style) && PlaceOk(steps, cols, place) && j < |steps| && k < |steps[j].deps|
    requires canvas.Length0 == Height(cols) && canvas.Length1 == Width(cols) && Drawn(canvas, steps, style, cols, edges)
    modifies canvas
    ensures Drawn(canvas, steps, style, cols, edges + EdgeAt(steps, place, j, k))
  {
    var n, d := steps[j].name, steps[j].deps[k];
    assert edges + {} == edges;
    if n in place && d in place {
      var e := EdgeBetween(place[d], place[n]);
      PlacedFits(steps, cols, place, d, n);
      // boxes in the same column, or the wrong way round, get no edge
      if EdgeEnd(e) > EdgeStart(e) {
        AddEdge(canvas, steps, style, cols, e, edges);
      }
    }
  }

  lemma {:induction false} PlacedFits(steps: seq<Step>, cols: seq<seq<int>>, place: Place, d: string, n: string)
    requires InColumns(|steps|, cols) && PlaceOk(steps, cols, place) && d in place && n in place
    ensures var e := EdgeBetween(place[d], place[n]);
      && (EdgeEnd(e) > EdgeStart(e) <==> e.fc < e.tc)
      && (e.fc < e.tc ==> EdgeFits(e, Height(cols), Width(cols)))
  {
    HeightCovers(cols, place[d].0);
    HeightCovers(cols, place[n].0);
  }

  // ---------- when box blanks survive ----------

  /** A route keeps out of every column's boxes exactly when it joins neighbouring columns. */
  lemma RouteKeepsToGaps(e: Edge)
    requires 0 <= e.fc < e.tc && 0 <= e.fr && 0 <= e.tr
    ensures (forall y: int, x: int | OnRoute(e, y, x) :: x % STRIDE >= BOX) <==> e.tc == e.fc + 1
  {
    if e.tc != e.fc + 1 {
      assert OnRoute(e, SrcLine(e), (e.fc + 1) * STRIDE);
    }
  }

  /** So when every edge joins neighbouring columns, every character of every box is as it was put. */
  lemma ShortEdgesKeepBoxes(canvas: array2<char>, steps: seq<Step>, style: Style, cols: seq<seq<int>>, edges: set<Edge>, y: nat, x: nat)
    requires InColumns(|steps|, cols) && Drawn(canvas, steps, style, cols, edges)
    requires forall e | e in edges :: 0 <= e.fc && e.tc == e.fc + 1
    requires y < canvas.Length0 && x < canvas.Length1 && InBox(cols, y, x)
    ensures canvas[y, x] == BoxCell(steps, style, cols, y, x)
  {
    forall e | e in edges ensures !OnRoute(e, y, x) {
      assert EdgeFits(e, canvas.Length0, canvas.Length1);
      RouteKeepsToGaps(e);
    }
  }

  // ---------- render ----------

  function LayoutNodes(steps: seq<Step>): seq<Node> {
    seq(|steps|, i requires 0 <= i < |steps| => Node(steps[i].name, steps[i].deps))
  }

  /** In the layout of an acyclic graph a step is placed in the column of its level. */
  lemma PlacedByLevel(steps: seq<Step>, cols: seq<seq<int>>, place: Place, level: Levels, rows: Levels, n: string)
    requires InColumns(|steps|, cols) && PlaceOk(steps, cols, place)
    requires forall c, r | 0 <= c < |cols| && 0 <= r < |cols[c]| :: steps[cols[c][r]].name in place
    requires var nodes := LayoutNodes(steps); IsLayout(GraphOf(nodes), level, rows, AllNames(nodes, cols)) && n in GraphOf(nodes)
    ensures n in place && place[n].0 == level[n]
  {
    var nodes := LayoutNodes(steps);
    var g, names := GraphOf(nodes), AllNames(nodes, cols);
    var c := level[n];
    LevelStep(g, level, n);
    assert IsColumn(g, level, rows, c, names[c]) && n in names[c];
    var r :| 0 <= r < |names[c]| && names[c][r] == n;
    assert steps[cols[c][r]].name == n;
    var (k, q) := place[n];
    assert IsColumn(g, level, rows, k, names[k]) && names[k][q] == n;
  }

  /** Every dependency that is itself a step has its edge. */
  lemma EveryDependencyHasAnEdge(steps: seq<Step>, cols: seq<seq<int>>, place: Place, level: Levels, rows: Levels, j: nat, k: nat)
    requires InColumns(|steps|, cols) && PlaceOk(steps, cols, place) && j < |steps| && k < |steps[j].deps|
    requires forall c, r | 0 <= c < |cols| && 0 <= r < |cols[c]| :: steps[cols[c][r]].name in place
    requires var nodes := LayoutNodes(steps);
      && UniqueNames(nodes) && IsLayout(GraphOf(nodes), level, rows, AllNames(nodes, cols))
      && steps[j].deps[k] in GraphOf(nodes)
    ensures steps[j].name in place && steps[j].deps[k] in place
    ensures IsEdge(steps, place, j, k, EdgeBetween(place[steps[j].deps[k]], place[steps[j].name]))
  {
    var nodes := LayoutNodes(steps);
    var g, n, d := GraphOf(nodes), steps[j].name, steps[j].deps[k];
    GraphDeps(nodes, j);
    assert nodes[j] == Node(n, steps[j].deps) && DependsOn(g, n, d);
    LevelStep(g, level, n);
    PlacedByLevel(steps, cols, place, level, rows, n);
    PlacedByLevel(steps, cols, place, level, rows, d);
  }

  /** An arrow directly left of the name line of step `j`'s box. */
  ghost predicate ArrowInto(canvas: array2<char>, style: Style, steps: seq<Step>, place: Place, j: int)
    requires 0 <= j < |steps| && steps[j].name in place
    reads canvas
  {
    var (c, r) := place[steps[j].name];
    0 <= r * ROW + 1 < canvas.Length0 && 0 <= c * STRIDE - 1 < canvas.Length1 && canvas[r * ROW + 1, c * STRIDE - 1] == style.arrow
  }

  /** Every dependency that is itself a step ends in an arrow directly left of its dependent's box. */
  ghost predicate AllArrows(canvas: array2<char>, style: Style, steps: seq<Step>, place: Place)
    reads canvas
  {
    forall j, k | 0 <= j < |steps| && 0 <= k < |steps[j].deps| && steps[j].deps[k] in GraphOf(LayoutNodes(steps)) ::
      steps[j].name in place && ArrowInto(canvas, style, steps, place, j)
  }

  lemma {:induction false} ArrowsDrawn(canvas: array2<char>, steps: seq<Step>, style: Style, cols: seq<seq<int>>, place: Place, level: Levels, rows: Levels)
    requires InColumns(|steps|, cols) && PlaceOk(steps, cols, place)
    requires forall c, r | 0 <= c < |cols| && 0 <= r < |cols[c]| :: steps[cols[c][r]].name in place
    requires var nodes := LayoutNodes(steps); UniqueNames(nodes) && IsLayout(GraphOf(nodes), level, rows, AllNames(nodes, cols))
    requires Arrowed(canvas, style, AllEdges(steps, place, |steps|))
    ensures AllArrows(canvas, style, steps, place)
  {
    forall j, k | 0 <= j < |steps| && 0 <= k < |steps[j].deps| && steps[j].deps[k] in GraphOf(LayoutNodes(steps))
      ensures steps[j].name in place && ArrowInto(canvas, style, steps, place, j)
    {
      EveryDependencyHasAnEdge(steps, cols, place, level, rows, j, k);
      EdgeHasArrow(canvas, style, steps, place, j, k);
    }
  }

  lemma {:induction false} EdgeHasArrow(canvas: array2<char>, style: Style, steps: seq<Step>, place: Place, j: nat, k: nat)
    requires j < |steps| && k < |steps[j].deps| && steps[j].name in place && steps[j].deps[k] in place
    requires IsEdge(steps, place, j, k, EdgeBetween(place[steps[j].deps[k]], place[steps[j].name]))
    requires Arrowed(canvas, style, AllEdges(steps, place, |steps|))
    ensures ArrowInto(canvas, style, steps, place, j)
  {
    var e := EdgeBetween(place[steps[j].deps[k]], place[steps[j].name]);
    AllEdgesHas(steps, place, j, k, |steps|, e);
    assert EdgeFits(e, canvas.Length0, canvas.Length1);
  }

  /** Draw the graph when it fits the width (the caller lists the steps otherwise). */
  method Render(steps: seq<Step>, ascii: bool, width: nat)
    returns (fits: bool, canvas: array2<char>, cols: seq<seq<int>>, place: Place)
    ensures InColumns(|steps|, cols) && PlaceOk(steps, cols, place)
    ensures fits <==> steps != [] && Width(cols) <= width
    ensures fits ==> fresh(canvas) && canvas.Length0 == Height(cols) && canvas.Length1 == Width(cols)
    ensures fits ==> Drawn(canvas, steps, StyleOf(ascii), cols, AllEdges(steps, place, |steps|))
    ensures fits && UniqueNames(LayoutNodes(steps)) && Acyclic(GraphOf(LayoutNodes(steps))) ==> AllArrows(canvas, StyleOf(ascii), steps, place)
  {
    var nodes, style := LayoutNodes(steps), StyleOf(ascii);
    var columns, level, rows := Layout(nodes);
    cols := columns;
    fits := steps != [] && Width(cols) <= width;
    place := map[];
    if fits {
      canvas, place := DrawBoxes(steps, style, cols);
      DrawEdges(canvas, steps, style, cols, place);
      if UniqueNames(nodes) && Acyclic(GraphOf(nodes)) {
        ArrowsDrawn(canvas, steps, StyleOf(ascii), cols, place, level, rows);
      }
    } else {
      canvas := new char[0, 0];
    }
  }
}
