/** Filtering a schema for the client's local cache: server-only statements go, permissions become blanket ones.
    Lines come with what the filter reads off them. */
module ClientSchema {
  datatype Head = Bucket | Access | Table | Field | Permissions | Other

  /** A line: its text, what its comment-free text starts with, whether that is empty, ends with or holds a `;`, its
      opening minus closing braces, and whether it holds a `;` before any `--`. */
  datatype Line = Line(text: Text, head: Head, empty: bool, endsSemi: bool, hasSemi: bool, braces: int, bucketSemi: bool)

  datatype Kind = OfTable | OfField

  /** A line's text: as in the schema, or a blanket permissions clause of a kind. */
  datatype Text = Source(s: string) | Blanket(kind: Kind, closed: bool)

  function Show(t: Text): string {
    match t
    case Source(s) => s
    case Blanket(k, closed) =>
      (if k == OfTable then "PERMISSIONS FOR select, create, update, delete WHERE true"
       else "PERMISSIONS FOR select, create, update WHERE true") + (if closed then ";" else "")
  }

  /** With a `;` put behind it. */
  function Terminated(t: Text): Text {
    match t
    case Source(s) => Source(s + ";")
    case Blanket(k, _) => Blanket(k, true)
  }

  /** A replacement line, as it reads back. */
  function PermLine(k: Kind, closed: bool): Line {
    Line(Blanket(k, closed), Permissions, false, closed, closed, 0, closed)
  }

  // ---------- the filter, line by line ----------

  datatype Scan = Scan(result: seq<Line>, inBucket: bool, inAccess: bool, depth: int, skip: bool, kind: Kind)

  function CloseLast(result: seq<Line>): seq<Line> {
    if result == [] || result[|result| - 1].endsSemi then result
    else
      var l := result[|result| - 1];
      result[..|result| - 1] + [l.(text := Terminated(l.text), endsSemi := true, hasSemi := true, bucketSemi := true)]
  }

  function AccessStep(s: Scan, depth: int, l: Line): Scan {
    s.(depth := depth + l.braces, inAccess := !(depth + l.braces == 0 && l.endsSemi))
  }

  function KindAfter(k: Kind, l: Line): Kind {
    if l.head == Table then OfTable else if l.head == Field then OfField else k
  }

  function Step(s: Scan, l: Line): Scan {
    if s.inBucket || l.head == Bucket then s.(inBucket := !l.bucketSemi)
    else if l.head == Access then AccessStep(s, 0, l)
    else if s.inAccess then AccessStep(s, s.depth, l)
    else
      var t := s.(kind := KindAfter(s.kind, l));
      if l.head == Permissions then t.(result := t.result + [PermLine(t.kind, l.endsSemi)], skip := t.skip || !l.endsSemi)
      else if t.skip then
        if l.empty || !l.hasSemi then t else t.(skip := false, result := CloseLast(t.result))
      else t.(result := t.result + [l])
  }

  const START := Scan([], false, false, 0, false, OfTable)

  function UpTo(lines: seq<Line>, n: nat): Scan
    requires n <= |lines|
  {
    if n == 0 then START else Step(UpTo(lines, n - 1), lines[n - 1])
  }

  function Filter(lines: seq<Line>): seq<Line> {
    UpTo(lines, |lines|).result
  }

  /** From a `DEFINE BUCKET` to behind its terminator. */
  method SkipBucket(lines: seq<Line>, i: nat) returns (j: nat)
    requires i < |lines| && lines[i].head == Bucket && !UpTo(lines, i).inBucket
    ensures i < j <= |lines|
    ensures UpTo(lines, j) == UpTo(lines, i) || (j == |lines| && UpTo(lines, j) == UpTo(lines, i).(inBucket := true))
  {
    var open := !lines[i].bucketSemi;
    j := i + 1;
    while j < |lines| && open
      invariant i < j <= |lines| && UpTo(lines, j) == UpTo(lines, i).(inBucket := open)
    {
      open := !lines[j].bucketSemi;
      j := j + 1;
    }
  }

  method FilterClientSchema(lines: seq<Line>) returns (result: seq<Line>)
    ensures result == Filter(lines)
  {
    result := [];
    var i := 0;
    var inAccess, depth, skip, kind := false, 0, false, OfTable;
    while i < |lines|
      invariant 0 <= i <= |lines|
      invariant UpTo(lines, i) == Scan(result, UpTo(lines, i).inBucket, inAccess, depth, skip, kind) && (UpTo(lines, i).inBucket ==> i == |lines|)
      decreases |lines| - i
    {
      var l := lines[i];
      if l.head == Bucket {
        i := SkipBucket(lines, i);
      } else if l.head == Access || inAccess {
        depth := (if l.head == Access then 0 else depth) + l.braces;
        inAccess := !(depth == 0 && l.endsSemi);
        i := i + 1;
      } else {
        kind := KindAfter(kind, l);
        if l.head == Permissions {
          if !l.endsSemi {
            skip := true;
          }
          result := result + [PermLine(kind, l.endsSemi)];
        } else if skip {
          if !l.empty && l.hasSemi {
            skip := false;
            result := CloseLast(result);
          }
        } else {
          result := result + [l];
        }
        i := i + 1;
      }
    }
  }

  // ---------- what is kept, and as what ----------

  // The regions of a schema, by its lines alone.

  /** Some line begins a bucket statement, and no line since terminates it. */
  predicate OpenBucket(lines: seq<Line>, n: nat)
    requires n <= |lines|
  {
    exists i :: 0 <= i < n && lines[i].head == Bucket && forall k | i <= k < n :: !lines[k].bucketSemi
  }

  /** The line belongs to a bucket statement. */
  predicate OfBucket(lines: seq<Line>, n: nat)
    requires n < |lines|
  {
    lines[n].head == Bucket || OpenBucket(lines, n)
  }

  /** The braces opened from line `i` to line `k`, buckets aside. */
  function BracesFrom(lines: seq<Line>, i: nat, k: nat): int
    requires i <= k < |lines|
    decreases k
  {
    (if i < k then BracesFrom(lines, i, k - 1) else 0) + if OfBucket(lines, k) then 0 else lines[k].braces
  }

  predicate BeginsAccess(lines: seq<Line>, i: nat)
    requires i < |lines|
  {
    lines[i].head == Access && !OfBucket(lines, i)
  }

  /** Line `k` ends the access statement that line `i` began. */
  predicate EndsAccess(lines: seq<Line>, i: nat, k: nat)
    requires i <= k < |lines|
  {
    !OfBucket(lines, k) && BracesFrom(lines, i, k) == 0 && lines[k].endsSemi
  }

  /** Line `i` was the last to begin an access statement, and no line since ended it. */
  predicate AccessFrom(lines: seq<Line>, i: nat, n: nat)
    requires i < n <= |lines|
  {
    BeginsAccess(lines, i) && (forall k | i < k < n :: !BeginsAccess(lines, k)) && forall k | i <= k < n :: !EndsAccess(lines, i, k)
  }

  predicate OpenAccess(lines: seq<Line>, n: nat)
    requires n <= |lines|
  {
    exists i :: 0 <= i < n && AccessFrom(lines, i, n)
  }

  /** Line `n` lies outside bucket and access statements. */
  predicate Seen(lines: seq<Line>, n: nat)
    requires n < |lines|
  {
    !OfBucket(lines, n) && lines[n].head != Access && !OpenAccess(lines, n)
  }

  predicate OpensClause(lines: seq<Line>, n: nat)
    requires n < |lines|
  {
    Seen(lines, n) && lines[n].head == Permissions && !lines[n].endsSemi
  }

  predicate ClosesClause(lines: seq<Line>, n: nat)
    requires n < |lines|
  {
    Seen(lines, n) && lines[n].head != Permissions && !lines[n].empty && lines[n].hasSemi
  }

  /** Line `i` opened a permissions clause, and no line since closed it. */
  predicate ClauseFrom(lines: seq<Line>, i: nat, n: nat)
    requires i < n <= |lines|
  {
    OpensClause(lines, i) && forall k | i < k < n :: !ClosesClause(lines, k)
  }

  predicate InClause(lines: seq<Line>, n: nat)
    requires n <= |lines|
  {
    exists i :: 0 <= i < n && ClauseFrom(lines, i, n)
  }

  /** Every permissions clause is closed by a `;` before the next statement begins. */
  predicate ClausesClosed(lines: seq<Line>) {
    !InClause(lines, |lines|) && forall n | 0 <= n < |lines| :: PlainInClause(lines, n)
  }

  predicate PlainInClause(lines: seq<Line>, n: nat)
    requires n < |lines|
  {
    InClause(lines, n) ==> Seen(lines, n) && lines[n].head == Other
  }

  // The scan's flags say just that.

  lemma {:induction false} BucketFlag(lines: seq<Line>, n: nat)
    requires n <= |lines|
    ensures UpTo(lines, n).inBucket <==> OpenBucket(lines, n)
    decreases n
  {
    if n > 0 {
      BucketFlag(lines, n - 1);
      if UpTo(lines, n).inBucket {
        if lines[n - 1].head == Bucket {
          assert OpenBucket(lines, n);
        } else {
          var i :| 0 <= i < n - 1 && lines[i].head == Bucket && forall k | i <= k < n - 1 :: !lines[k].bucketSemi;
          assert OpenBucket(lines, n);
        }
      }
      if OpenBucket(lines, n) {
        var i :| 0 <= i < n && lines[i].head == Bucket && forall k | i <= k < n :: !lines[k].bucketSemi;
        assert i < n - 1 ==> OpenBucket(lines, n - 1);
      }
    }
  }

  lemma AccessFromStep(lines: seq<Line>, i: nat, n: nat)
    requires i <= n < |lines|
    ensures AccessFrom(lines, i, n + 1) <==>
      if i < n then AccessFrom(lines, i, n) && !BeginsAccess(lines, n) && !EndsAccess(lines, i, n)
      else BeginsAccess(lines, n) && !EndsAccess(lines, n, n)
  {
  }

  /** The depth counts from the line that began the statement. */
  predicate DepthRight(lines: seq<Line>, n: nat)
    requires n <= |lines|
  {
    forall i | 0 <= i < n && AccessFrom(lines, i, n) :: UpTo(lines, n).depth == BracesFrom(lines, i, n - 1)
  }

  predicate AccessRight(lines: seq<Line>, n: nat)
    requires n <= |lines|
  {
    (UpTo(lines, n).inAccess <==> OpenAccess(lines, n)) && DepthRight(lines, n)
  }

  /** What a line does to the flags. */
  lemma StepFlags(s: Scan, l: Line)
    ensures var t := Step(s, l);
      if s.inBucket || l.head == Bucket then t.inAccess == s.inAccess && t.depth == s.depth && t.skip == s.skip
      else if l.head == Access then t.depth == l.braces && t.inAccess == !(l.braces == 0 && l.endsSemi) && t.skip == s.skip
      else if s.inAccess then t.depth == s.depth + l.braces && t.inAccess == !(t.depth == 0 && l.endsSemi) && t.skip == s.skip
      else t.inAccess == s.inAccess && t.depth == s.depth && t.skip == if l.head == Permissions then s.skip || !l.endsSemi else s.skip && (l.empty || !l.hasSemi)
  {
  }

  lemma AccessInBucket(lines: seq<Line>, n: nat)
    requires n < |lines| && OfBucket(lines, n) && AccessRight(lines, n)
    requires UpTo(lines, n + 1).inAccess == UpTo(lines, n).inAccess && UpTo(lines, n + 1).depth == UpTo(lines, n).depth
    ensures AccessRight(lines, n + 1)
  {
    var m := n + 1;
    forall i | 0 <= i < m && AccessFrom(lines, i, m) ensures i < n && AccessFrom(lines, i, n) { AccessFromStep(lines, i, n); }
    if OpenAccess(lines, n) {
      var i :| 0 <= i < n && AccessFrom(lines, i, n);
      AccessFromStep(lines, i, n);
    }
  }

  lemma {:induction false} AccessBegins(lines: seq<Line>, n: nat)
    requires n < |lines| && BeginsAccess(lines, n)
    requires UpTo(lines, n + 1).depth == lines[n].braces && UpTo(lines, n + 1).inAccess == !(lines[n].braces == 0 && lines[n].endsSemi)
    ensures AccessRight(lines, n + 1)
  {
    var m := n + 1;
    forall i | 0 <= i < m && AccessFrom(lines, i, m) ensures i == n && !EndsAccess(lines, n, n) { AccessFromStep(lines, i, n); }
    AccessFromStep(lines, n, n);
  }

  lemma AccessGoesOn(lines: seq<Line>, n: nat)
    requires n < |lines| && !OfBucket(lines, n) && lines[n].head != Access && AccessRight(lines, n) && UpTo(lines, n).inAccess
    requires UpTo(lines, n + 1).depth == UpTo(lines, n).depth + lines[n].braces
    requires UpTo(lines, n + 1).inAccess == !(UpTo(lines, n + 1).depth == 0 && lines[n].endsSemi)
    ensures AccessRight(lines, n + 1)
  {
    var m := n + 1;
    var i :| 0 <= i < n && AccessFrom(lines, i, n);
    AccessFromStep(lines, i, n);
    forall j | 0 <= j < m && AccessFrom(lines, j, m) ensures j == i && !EndsAccess(lines, i, n) { AccessFromStep(lines, j, n); }
  }

  lemma {:induction false} AccessFlag(lines: seq<Line>, n: nat)
    requires n <= |lines|
    ensures AccessRight(lines, n)
    decreases n
  {
    if n > 0 {
      var m := n - 1;
      AccessFlag(lines, m);
      BucketFlag(lines, m);
      StepFlags(UpTo(lines, m), lines[m]);
      if OfBucket(lines, m) {
        AccessInBucket(lines, m);
      } else if lines[m].head == Access {
        AccessBegins(lines, m);
      } else if UpTo(lines, m).inAccess {
        AccessGoesOn(lines, m);
      } else {
        forall i | 0 <= i < n ensures !AccessFrom(lines, i, n) { AccessFromStep(lines, i, m); }
      }
    }
  }

  lemma {:induction false} SeenByFlags(lines: seq<Line>, n: nat)
    requires n < |lines|
    ensures var s := UpTo(lines, n); Seen(lines, n) <==> !s.inBucket && !s.inAccess && lines[n].head != Bucket && lines[n].head != Access
  {
    BucketFlag(lines, n);
    AccessFlag(lines, n);
  }

  lemma ClauseFromStep(lines: seq<Line>, i: nat, n: nat)
    requires i <= n < |lines|
    ensures ClauseFrom(lines, i, n + 1) <==> if i < n then ClauseFrom(lines, i, n) && !ClosesClause(lines, n) else OpensClause(lines, n)
  {
  }

  lemma {:induction false} ClauseFlag(lines: seq<Line>, n: nat)
    requires n <= |lines|
    ensures UpTo(lines, n).skip <==> InClause(lines, n)
    decreases n
  {
    if n > 0 {
      var m := n - 1;
      ClauseFlag(lines, m);
      SeenByFlags(lines, m);
      StepFlags(UpTo(lines, m), lines[m]);
      assert UpTo(lines, n).skip <==> OpensClause(lines, m) || (UpTo(lines, m).skip && !ClosesClause(lines, m));
      if InClause(lines, n) {
        var i :| 0 <= i < n && ClauseFrom(lines, i, n);
        ClauseFromStep(lines, i, m);
      }
      if OpensClause(lines, m) { ClauseFromStep(lines, m, m); }
      if InClause(lines, m) {
        var i :| 0 <= i < m && ClauseFrom(lines, i, m);
        ClauseFromStep(lines, i, m);
      }
    }
  }

  /** Line `i` defines a field, and no line since defines a table. */
  predicate FieldFrom(lines: seq<Line>, i: nat, n: nat)
    requires i < n <= |lines|
  {
    Seen(lines, i) && lines[i].head == Field && forall k | i < k < n :: !(Seen(lines, k) && lines[k].head == Table)
  }

  /** Whose clause comes at line `n`: a field's if the last definition was one, else a table's. */
  ghost function KindAt(lines: seq<Line>, n: nat): Kind
    requires n <= |lines|
  {
    if exists i :: 0 <= i < n && FieldFrom(lines, i, n) then OfField else OfTable
  }

  lemma FieldFromStep(lines: seq<Line>, i: nat, n: nat)
    requires i <= n < |lines|
    ensures FieldFrom(lines, i, n + 1) <==>
      if i < n then FieldFrom(lines, i, n) && !(Seen(lines, n) && lines[n].head == Table) else Seen(lines, n) && lines[n].head == Field
  {
  }

  lemma StepKind(s: Scan, l: Line)
    ensures Step(s, l).kind
         == if s.inBucket || s.inAccess || l.head == Bucket || l.head == Access then s.kind
            else if l.head == Table then OfTable else if l.head == Field then OfField else s.kind
  {
  }

  lemma {:induction false} KindFlag(lines: seq<Line>, n: nat)
    requires n <= |lines|
    ensures UpTo(lines, n).kind == KindAt(lines, n)
    decreases n
  {
    if n > 0 {
      var m := n - 1;
      KindFlag(lines, m);
      SeenByFlags(lines, m);
      StepKind(UpTo(lines, m), lines[m]);
      if KindAt(lines, n) == OfField {
        var i :| 0 <= i < n && FieldFrom(lines, i, n);
        FieldFromStep(lines, i, m);
      }
      FieldFromStep(lines, m, m);
      if KindAt(lines, m) == OfField {
        var i :| 0 <= i < m && FieldFrom(lines, i, m);
        FieldFromStep(lines, i, m);
      }
    }
  }

  /** What line `n` becomes: itself; for a permissions clause, one terminated blanket line of its kind; nothing inside
      the clause, in a bucket or in an access statement. */
  ghost function Image(lines: seq<Line>, n: nat): seq<Line>
    requires n < |lines|
  {
    if !Seen(lines, n) || InClause(lines, n) then []
    else if lines[n].head == Permissions then [PermLine(KindAt(lines, n), true)]
    else [lines[n]]
  }

  ghost function Images(lines: seq<Line>, n: nat): seq<Line>
    requires n <= |lines|
  {
    if n == 0 then [] else Images(lines, n - 1) + Image(lines, n - 1)
  }

  lemma CloseLastPerm(front: seq<Line>, k: Kind)
    ensures CloseLast(front + [PermLine(k, false)]) == front + [PermLine(k, true)]
  {
    var r := front + [PermLine(k, false)];
    assert r[..|r| - 1] == front;
  }

  /** The last line still lacks its terminator. */
  ghost predicate Unclosed(s: seq<Line>, out: seq<Line>) {
    exists k, front :: s == front + [PermLine(k, false)] && out == front + [PermLine(k, true)]
  }

  lemma UnclosedCloses(s: seq<Line>, out: seq<Line>)
    requires Unclosed(s, out)
    ensures CloseLast(s) == out
  {
    var k, front :| s == front + [PermLine(k, false)] && out == front + [PermLine(k, true)];
    CloseLastPerm(front, k);
  }

  lemma UnclosedBegins(front: seq<Line>, k: Kind)
    ensures Unclosed(front + [PermLine(k, false)], front + [PermLine(k, true)])
  {
  }

  /** What one line does to the result, by case. */
  lemma StepCases(s: Scan, l: Line)
    ensures s.skip && !s.inBucket && !s.inAccess && l.head == Other ==>
      Step(s, l).result == if !l.empty && l.hasSemi then CloseLast(s.result) else s.result
    ensures s.skip && !s.inBucket && !s.inAccess && l.head == Other ==> Step(s, l).skip == !(!l.empty && l.hasSemi)
    ensures s.inBucket || s.inAccess || l.head == Bucket || l.head == Access ==> Step(s, l).result == s.result && Step(s, l).skip == s.skip
    ensures !(s.inBucket || s.inAccess || l.head == Bucket || l.head == Access) && !s.skip ==>
      && Step(s, l).result == s.result + [if l.head == Permissions then PermLine(KindAfter(s.kind, l), l.endsSemi) else l]
      && Step(s, l).skip == (l.head == Permissions && !l.endsSemi)
  {
  }

  /** So far the result is the images, but for the missing terminator of a clause still open. */
  ghost predicate Fits(skip: bool, result: seq<Line>, out: seq<Line>) {
    if skip then Unclosed(result, out) else result == out
  }

  /** The image of a line, by the flags. */
  function ImageBy(s: Scan, l: Line): seq<Line> {
    if s.inBucket || s.inAccess || l.head == Bucket || l.head == Access || s.skip then []
    else if l.head == Permissions then [PermLine(s.kind, true)]
    else [l]
  }

  lemma StepFits(s: Scan, l: Line, out: seq<Line>)
    requires Fits(s.skip, s.result, out) && (s.skip ==> !s.inBucket && !s.inAccess && l.head == Other)
    ensures Fits(Step(s, l).skip, Step(s, l).result, out + ImageBy(s, l))
  {
    StepCases(s, l);
    assert out + [] == out;
    if s.skip {
      UnclosedCloses(s.result, out);
    } else if l.head == Permissions {
      UnclosedBegins(out, s.kind);
    }
  }

  lemma {:induction false} ImageByFlags(lines: seq<Line>, n: nat)
    requires n < |lines|
    ensures Image(lines, n) == ImageBy(UpTo(lines, n), lines[n])
  {
    SeenByFlags(lines, n);
    ClauseFlag(lines, n);
    KindFlag(lines, n);
  }

  lemma {:induction false} ResultMatches(lines: seq<Line>, n: nat)
    requires n <= |lines| && ClausesClosed(lines)
    ensures Fits(InClause(lines, n), UpTo(lines, n).result, Images(lines, n))
    decreases n
  {
    ClauseFlag(lines, n);
    if n > 0 {
      var m := n - 1;
      ResultMatches(lines, m);
      assert PlainInClause(lines, m);
      ClauseFlag(lines, m);
      SeenByFlags(lines, m);
      ImageByFlags(lines, m);
      StepFits(UpTo(lines, m), lines[m], Images(lines, m));
    }
  }

  /** The filtered schema is exactly the images of its lines, in order. */
  lemma {:induction false} FilterIsImages(lines: seq<Line>)
    requires ClausesClosed(lines)
    ensures Filter(lines) == Images(lines, |lines|)
  {
    ResultMatches(lines, |lines|);
  }

  const TABLE_CLAUSE := "PERMISSIONS FOR select, create, update, delete WHERE true;"
  const FIELD_CLAUSE := "PERMISSIONS FOR select, create, update WHERE true;"

  lemma ClauseTexts()
    ensures Show(Blanket(OfTable, true)) == TABLE_CLAUSE && Show(Blanket(OfField, true)) == FIELD_CLAUSE
  {
  }

  lemma ImageShows(lines: seq<Line>, n: nat, l: Line)
    requires n < |lines| && l in Image(lines, n)
    ensures (l in lines && l.head != Permissions) || Show(l.text) == TABLE_CLAUSE || Show(l.text) == FIELD_CLAUSE
  {
    ClauseTexts();
  }

  lemma {:induction false} ImagesShow(lines: seq<Line>, n: nat, l: Line)
    requires n <= |lines| && l in Images(lines, n)
    ensures (l in lines && l.head != Permissions) || Show(l.text) == TABLE_CLAUSE || Show(l.text) == FIELD_CLAUSE
    decreases n
  {
    if l in Images(lines, n - 1) { ImagesShow(lines, n - 1, l); } else { ImageShows(lines, n - 1, l); }
  }

  /** What the filtered schema says: lines of the source that begin no permissions clause, and the two blanket clauses. */
  lemma FilterShows(lines: seq<Line>, l: Line)
    requires ClausesClosed(lines) && l in Filter(lines)
    ensures (l in lines && l.head != Permissions) || Show(l.text) == TABLE_CLAUSE || Show(l.text) == FIELD_CLAUSE
  {
    FilterIsImages(lines);
    ImagesShow(lines, |lines|, l);
  }

  /** No server-only statement survives, whatever the schema. */
  lemma {:induction false} NoServerStatements(lines: seq<Line>, n: nat)
    requires n <= |lines|
    ensures forall i | 0 <= i < |UpTo(lines, n).result| :: UpTo(lines, n).result[i].head != Bucket && UpTo(lines, n).result[i].head != Access
    decreases n
  {
    if n > 0 { NoServerStatements(lines, n - 1); }
  }

  // ---------- filtering again ----------

  /** Lines that stay: permissions lines are blanket, terminated and of the kind in force. */
  ghost predicate Settled(lines: seq<Line>, n: nat)
    requires n <= |lines|
  {
    UpTo(lines, n) == Scan(lines[..n], false, false, 0, false, UpTo(lines, n).kind)
  }

  /** Scanned to its end, the text stands unchanged, with kind `k` in force. */
  ghost predicate SettledAs(out: seq<Line>, k: Kind) {
    Settled(out, |out|) && UpTo(out, |out|).kind == k
  }

  /** A line that stays leaves the scan settled. */
  lemma SettledStep(out: seq<Line>, k: Kind, l: Line)
    requires SettledAs(out, k) && l.head != Bucket && l.head != Access
    requires l.head == Permissions ==> l == PermLine(KindAfter(k, l), true)
    ensures SettledAs(out + [l], KindAfter(k, l))
  {
    UpToPrefix(out, l, |out|);
    StepCases(UpTo(out, |out|), l);
    assert out[..|out|] == out && (out + [l])[..|out| + 1] == out + [l];
  }

  lemma SettledImage(lines: seq<Line>, n: nat, out: seq<Line>)
    requires n < |lines| && ClausesClosed(lines) && SettledAs(out, UpTo(lines, n).kind)
    ensures SettledAs(out + Image(lines, n), UpTo(lines, n + 1).kind)
  {
    var image := Image(lines, n);
    if image == [] {
      KindUnchanged(lines, n);
      assert out + image == out;
    } else {
      KindOfImage(lines, n);
      SettledStep(out, UpTo(lines, n).kind, image[0]);
      assert image == [image[0]];
    }
  }

  lemma {:induction false} AgainOnImages(lines: seq<Line>, n: nat)
    requires n <= |lines| && ClausesClosed(lines)
    ensures SettledAs(Images(lines, n), UpTo(lines, n).kind)
    decreases n
  {
    if n > 0 {
      AgainOnImages(lines, n - 1);
      SettledImage(lines, n - 1, Images(lines, n - 1));
    }
  }

  lemma KindOfImage(lines: seq<Line>, n: nat)
    requires n < |lines| && Image(lines, n) != []
    ensures var l := Image(lines, n)[0];
      && UpTo(lines, n + 1).kind == KindAfter(UpTo(lines, n).kind, l) && l.head != Bucket && l.head != Access
      && (l.head == Permissions ==> l == PermLine(KindAfter(UpTo(lines, n).kind, l), true))
  {
    SeenByFlags(lines, n);
    ClauseFlag(lines, n);
    KindFlag(lines, n);
  }

  lemma KindUnchanged(lines: seq<Line>, n: nat)
    requires n < |lines| && ClausesClosed(lines) && Image(lines, n) == []
    ensures UpTo(lines, n + 1).kind == UpTo(lines, n).kind
  {
    SeenByFlags(lines, n);
    ClauseFlag(lines, n);
    assert PlainInClause(lines, n);
  }

  lemma {:induction false} UpToPrefix(lines: seq<Line>, l: Line, n: nat)
    requires n <= |lines|
    ensures UpTo(lines + [l], n) == UpTo(lines, n)
    decreases n
  {
    if n > 0 { UpToPrefix(lines, l, n - 1); }
  }

  /** Filtering is idempotent. */
  lemma FilterTwice(lines: seq<Line>)
    requires ClausesClosed(lines)
    ensures Filter(Filter(lines)) == Filter(lines)
  {
    FilterIsImages(lines);
    AgainOnImages(lines, |lines|);
    var out := Images(lines, |lines|);
    assert out[..|out|] == out;
  }

  // ---------- any schema ----------

  /** The lines that begin no permissions clause. */
  function Others(ls: seq<Line>): seq<Line> {
    if ls == [] then [] else Others(ls[..|ls| - 1]) + if ls[|ls| - 1].head == Permissions then [] else [ls[|ls| - 1]]
  }

  lemma {:induction false} OthersAppend(ls: seq<Line>, l: Line)
    ensures Others(ls + [l]) == Others(ls) + if l.head == Permissions then [] else [l]
  {
    assert (ls + [l])[..|ls|] == ls;
  }

  /** The lines outside bucket and access statements that begin no clause and stand in none. */
  function Kept(lines: seq<Line>, n: nat): seq<Line>
    requires n <= |lines|
  {
    if n == 0 then []
    else Kept(lines, n - 1) + if Stays(lines, n - 1) then [lines[n - 1]] else []
  }

  predicate Stays(lines: seq<Line>, n: nat)
    requires n < |lines|
  {
    Seen(lines, n) && lines[n].head != Permissions && !InClause(lines, n)
  }

  predicate StaysBy(s: Scan, l: Line) {
    !s.inBucket && !s.inAccess && l.head != Bucket && l.head != Access && l.head != Permissions && !s.skip
  }

  lemma {:induction false} StaysByFlags(lines: seq<Line>, n: nat)
    requires n < |lines|
    ensures Stays(lines, n) <==> StaysBy(UpTo(lines, n), lines[n])
  {
    SeenByFlags(lines, n);
    ClauseFlag(lines, n);
  }

  /** While a clause is open its blanket line is the last. */
  predicate ClauseLast(s: Scan) {
    s.skip ==> s.result != [] && s.result[|s.result| - 1].head == Permissions
  }

  lemma {:induction false} CloseLastKeepsOthers(ls: seq<Line>)
    requires ls != [] && ls[|ls| - 1].head == Permissions
    ensures Others(CloseLast(ls)) == Others(ls) && CloseLast(ls) != [] && CloseLast(ls)[|CloseLast(ls)| - 1].head == Permissions
  {
    var front, l := ls[..|ls| - 1], ls[|ls| - 1];
    assert ls == front + [l];
    OthersAppend(front, l);
    OthersAppend(front, l.(text := Terminated(l.text), endsSemi := true, hasSemi := true, bucketSemi := true));
  }

  /** What one line does to the kept lines. */
  lemma StepKeeps(s: Scan, l: Line)
    requires ClauseLast(s)
    ensures ClauseLast(Step(s, l)) && Others(Step(s, l).result) == Others(s.result) + if StaysBy(s, l) then [l] else []
  {
    OthersAppend(s.result, l);
    OthersAppend(s.result, PermLine(KindAfter(s.kind, l), l.endsSemi));
    if s.skip { CloseLastKeepsOthers(s.result); }
  }

  /** In any schema, a line that begins no permissions clause is dropped exactly when it lies in a bucket or access statement, or a
      clause was opened before it and not closed since; all others stay, in order. */
  lemma {:induction false} KeptExactly(lines: seq<Line>, n: nat)
    requires n <= |lines|
    ensures Others(UpTo(lines, n).result) == Kept(lines, n) && ClauseLast(UpTo(lines, n))
    decreases n
  {
    if n > 0 {
      KeptExactly(lines, n - 1);
      StaysByFlags(lines, n - 1);
      StepKeeps(UpTo(lines, n - 1), lines[n - 1]);
    }
  }

  /** So a clause left open swallows the next statement, wherever they stand. */
  lemma OpenClauseSwallows(lines: seq<Line>, i: nat, n: nat)
    requires i < n < |lines| && OpensClause(lines, i) && (forall k | i < k < n :: !ClosesClause(lines, k))
    requires lines[n].head != Permissions
    ensures Others(UpTo(lines, n + 1).result) == Others(UpTo(lines, n).result)
  {
    assert ClauseFrom(lines, i, n);
    KeptExactly(lines, n);
    KeptExactly(lines, n + 1);
  }
}
