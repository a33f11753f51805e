/** The stream of a whole table: rows sorted by id, each id and canonical value closed by a NUL. */
module TableHash {
  import opened Names
  import opened Canonical

  type Pair = (string, Json)

  predicate RowsOk(rows: seq<Pair>) {
    forall i | 0 <= i < |rows| :: '\0' !in rows[i].0
  }

  ghost predicate ValuesOk(rows: seq<Pair>) {
    forall i | 0 <= i < |rows| :: Wf(rows[i].1)
  }

  predicate DistinctIds(rows: seq<Pair>) {
    forall i, j | 0 <= i < j < |rows| :: rows[i].0 != rows[j].0
  }

  predicate SortedById(rows: seq<Pair>) {
    forall i, j | 0 <= i < j < |rows| :: !Less(rows[j].0, rows[i].0)
  }

  /** Insert behind the rows whose id is not larger, so equal ids keep their order. */
  function Insert(row: Pair, rows: seq<Pair>): seq<Pair> {
    if rows == [] || Less(row.0, rows[0].0) then [row] + rows else [rows[0]] + Insert(row, rows[1..])
  }

  /** The stable sort by id. */
  function SortRows(rows: seq<Pair>): seq<Pair> {
    if rows == [] then [] else Insert(rows[|rows| - 1], SortRows(rows[..|rows| - 1]))
  }

  ghost function RowText(row: Pair): string {
    row.0 + "\0" + Canon(row.1) + "\0"
  }

  ghost function Stream(rows: seq<Pair>): string {
    if rows == [] then "" else RowText(rows[0]) + Stream(rows[1..])
  }

  ghost function Preimage(rows: seq<Pair>): string {
    Stream(SortRows(rows))
  }

  // ---------- sorting ----------

  lemma {:induction false} InsertKeeps(row: Pair, rows: seq<Pair>)
    ensures multiset(Insert(row, rows)) == multiset(rows) + multiset{row}
  {
    if rows != [] && !Less(row.0, rows[0].0) {
      InsertKeeps(row, rows[1..]);
      assert rows == [rows[0]] + rows[1..];
    }
  }

  lemma {:induction false} InsertSorted(row: Pair, rows: seq<Pair>)
    requires SortedById(rows)
    ensures SortedById(Insert(row, rows))
  {
    var out := Insert(row, rows);
    InsertKeeps(row, rows);
    if rows != [] && Less(row.0, rows[0].0) {
      forall i, j | 0 <= i < j < |out| ensures !Less(out[j].0, out[i].0) {
        LessAsym(row.0, rows[0].0);
        if i == 0 && Less(out[j].0, row.0) { LessTrans(out[j].0, row.0, rows[0].0); }
      }
    } else if rows != [] {
      InsertSorted(row, rows[1..]);
      InsertKeeps(row, rows[1..]);
      forall j | 1 <= j < |out| ensures !Less(out[j].0, rows[0].0) {
        assert out[j] == Insert(row, rows[1..])[j - 1] && out[j] in multiset(Insert(row, rows[1..]));
        assert out[j] == row || out[j] in rows[1..];
      }
    }
  }

  /** The rows of one id, in table order. */
  function OfId(rows: seq<Pair>, id: string): seq<Pair> {
    if rows == [] then [] else (if rows[0].0 == id then [rows[0]] else []) + OfId(rows[1..], id)
  }

  lemma {:induction false} OfIdStep(row: Pair, rows: seq<Pair>, id: string)
    ensures OfId([row] + rows, id) == if row.0 == id then [row] + OfId(rows, id) else OfId(rows, id)
  {
    assert ([row] + rows)[1..] == rows;
  }

  lemma {:induction false} OfIdAppend(rows: seq<Pair>, row: Pair, id: string)
    ensures OfId(rows + [row], id) == OfId(rows, id) + if row.0 == id then [row] else []
  {
    if rows == [] {
      assert ([] + [row])[1..] == [];
    } else {
      OfIdAppend(rows[1..], row, id);
      assert (rows + [row])[1..] == rows[1..] + [row];
    }
  }

  lemma {:induction false} NoneOfId(rows: seq<Pair>, id: string)
    requires forall i | 0 <= i < |rows| :: rows[i].0 != id
    ensures OfId(rows, id) == []
  {
    if rows != [] { NoneOfId(rows[1..], id); }
  }

  /** A row goes behind the others of its id. */
  lemma {:induction false} InsertBehind(row: Pair, rows: seq<Pair>, id: string)
    requires SortedById(rows)
    ensures OfId(Insert(row, rows), id) == OfId(rows, id) + if row.0 == id then [row] else []
  {
    if rows == [] || Less(row.0, rows[0].0) {
      OfIdStep(row, rows, id);
      if row.0 == id { AllAfter(row, rows); NoneOfId(rows, id); }
    } else {
      InsertBehind(row, rows[1..], id);
      assert rows == [rows[0]] + rows[1..];
      OfIdStep(rows[0], Insert(row, rows[1..]), id);
      OfIdStep(rows[0], rows[1..], id);
    }
  }

  lemma AllAfter(row: Pair, rows: seq<Pair>)
    requires SortedById(rows) && (rows == [] || Less(row.0, rows[0].0))
    ensures forall i | 0 <= i < |rows| :: rows[i].0 != row.0
  {
    if rows != [] { LessAsym(row.0, rows[0].0); }
  }

  /** Sorting only reorders, and rows of the same id keep their order. */
  lemma {:induction false} SortIsStableSort(rows: seq<Pair>)
    ensures SortedById(SortRows(rows)) && multiset(SortRows(rows)) == multiset(rows)
    ensures forall id :: OfId(SortRows(rows), id) == OfId(rows, id)
  {
    if rows != [] {
      var n := |rows| - 1;
      SortIsStableSort(rows[..n]);
      InsertSorted(rows[n], SortRows(rows[..n]));
      InsertKeeps(rows[n], SortRows(rows[..n]));
      assert rows == rows[..n] + [rows[n]];
      forall id ensures OfId(SortRows(rows), id) == OfId(rows, id) {
        InsertBehind(rows[n], SortRows(rows[..n]), id);
        OfIdAppend(rows[..n], rows[n], id);
      }
    }
  }

  lemma {:induction false} OfIdAre(rows: seq<Pair>, id: string)
    ensures OfId(rows, id) != [] ==> exists i :: 0 <= i < |rows| && rows[i].0 == id
  {
    if rows != [] && rows[0].0 != id {
      OfIdAre(rows[1..], id);
    }
  }

  lemma {:induction false} FirstIdNotAfter(a: seq<Pair>, b: seq<Pair>)
    requires SortedById(b) && a != [] && OfId(a, a[0].0) == OfId(b, a[0].0)
    ensures b != [] && !Less(a[0].0, b[0].0)
  {
    OfIdAre(b, a[0].0);
    var i :| 0 <= i < |b| && b[i].0 == a[0].0;
    if Less(a[0].0, b[0].0) { LessAsym(a[0].0, b[0].0); }
  }

  ghost predicate SameById(a: seq<Pair>, b: seq<Pair>) {
    forall id :: OfId(a, id) == OfId(b, id)
  }

  lemma SameTails(a: seq<Pair>, b: seq<Pair>)
    requires a != [] && b != [] && a[0] == b[0] && SameById(a, b)
    ensures SameById(a[1..], b[1..])
  {
    assert a == [a[0]] + a[1..] && b == [b[0]] + b[1..];
    forall id ensures OfId(a[1..], id) == OfId(b[1..], id) {
      OfIdStep(a[0], a[1..], id);
      OfIdStep(b[0], b[1..], id);
      SameRest(a[0], OfId(a[1..], id), OfId(b[1..], id));
    }
  }

  lemma SameRest(row: Pair, x: seq<Pair>, y: seq<Pair>)
    ensures [row] + x == [row] + y ==> x == y
  {
    assert ([row] + x)[1..] == x && ([row] + y)[1..] == y;
  }

  /** A table sorted by id is determined by the rows of each id. */
  lemma {:induction false} SortedOnceById(a: seq<Pair>, b: seq<Pair>)
    requires SortedById(a) && SortedById(b) && SameById(a, b)
    ensures a == b
  {
    if a != [] {
      FirstIdNotAfter(a, b);
      FirstIdNotAfter(b, a);
      LessTotal(a[0].0, b[0].0);
      assert a[0] == OfId(a, a[0].0)[0] && b[0] == OfId(b, b[0].0)[0];
      SameTails(a, b);
      SortedOnceById(a[1..], b[1..]);
      assert a == [a[0]] + a[1..] && b == [b[0]] + b[1..];
    } else if b != [] {
      FirstIdNotAfter(b, a);
    }
  }

  lemma {:induction false} InsertDistinct(row: Pair, rows: seq<Pair>)
    requires DistinctIds(rows) && forall i | 0 <= i < |rows| :: rows[i].0 != row.0
    ensures DistinctIds(Insert(row, rows))
  {
    if rows != [] && !Less(row.0, rows[0].0) {
      InsertDistinct(row, rows[1..]);
      InsertKeeps(row, rows[1..]);
      var out := Insert(row, rows[1..]);
      forall j | 0 <= j < |out| ensures out[j].0 != rows[0].0 {
        assert out[j] in multiset(out);
        assert out[j] == row || out[j] in rows[1..];
      }
    }
  }

  lemma {:induction false} SortDistinct(rows: seq<Pair>)
    requires DistinctIds(rows)
    ensures DistinctIds(SortRows(rows))
  {
    if rows != [] {
      var n := |rows| - 1;
      var sorted := SortRows(rows[..n]);
      SortDistinct(rows[..n]);
      SortIsStableSort(rows[..n]);
      forall i | 0 <= i < |sorted| ensures sorted[i].0 != rows[n].0 {
        assert sorted[i] in multiset(sorted);
        assert sorted[i] in rows[..n];
      }
      InsertDistinct(rows[n], sorted);
    }
  }

  ghost function Ids(rows: seq<Pair>): seq<string> {
    seq(|rows|, i requires 0 <= i < |rows| => rows[i].0)
  }

  lemma IdsSorted(rows: seq<Pair>)
    requires SortedById(rows) && DistinctIds(rows)
    ensures StrictlySorted(Ids(rows))
  {
    forall i, j | 0 <= i < j < |rows| ensures Less(rows[i].0, rows[j].0) {
      LessTotal(rows[i].0, rows[j].0);
    }
  }

  lemma SameIds(a: seq<Pair>, b: seq<Pair>)
    requires multiset(a) == multiset(b)
    ensures ToSet(Ids(a)) <= ToSet(Ids(b))
  {
    forall k | k in ToSet(Ids(a)) ensures k in ToSet(Ids(b)) {
      var i :| 0 <= i < |a| && a[i].0 == k;
      assert a[i] in multiset(b);
      var j :| 0 <= j < |b| && b[j] == a[i];
      assert Ids(b)[j] == k;
    }
  }

  /** With distinct ids there is one sorted order. */
  lemma SortedRowsOnce(a: seq<Pair>, b: seq<Pair>)
    requires SortedById(a) && SortedById(b) && DistinctIds(a) && DistinctIds(b) && multiset(a) == multiset(b)
    ensures a == b
  {
    IdsSorted(a);
    IdsSorted(b);
    SameIds(a, b);
    SameIds(b, a);
    SortedOnce(Ids(a), Ids(b));
    assert |a| == |Ids(a)| == |b|;
    forall i | 0 <= i < |a| ensures a[i] == b[i] {
      assert Ids(a)[i] == Ids(b)[i];
      assert a[i] in multiset(b);
      var j :| 0 <= j < |b| && b[j] == a[i];
    }
  }

  // ---------- the stream ----------

  lemma {:induction false} IdOnce(a: string, b: string, x: string, y: string)
    requires '\0' !in a && '\0' !in b && a + "\0" + x == b + "\0" + y
    ensures a == b && x == y
  {
    var l, r := a + "\0" + x, b + "\0" + y;
    assert l[|a|] == '\0' && r[|b|] == '\0';
    assert |a| <= |b|;
    assert |b| <= |a|;
    assert l[..|a|] == a && r[..|b|] == b;
    assert l[|a| + 1..] == x && r[|b| + 1..] == y;
  }

  lemma {:induction false} StreamStep(rows: seq<Pair>)
    requires rows != []
    ensures Stream(rows) == rows[0].0 + "\0" + (Canon(rows[0].1) + ("\0" + Stream(rows[1..])))
  {
    Regroup(rows[0].0 + "\0", Canon(rows[0].1), "\0", Stream(rows[1..]));
    Regroup("", Canon(rows[0].1), "\0", Stream(rows[1..]));
  }

  lemma {:induction false} StreamOnce(a: seq<Pair>, b: seq<Pair>)
    requires RowsOk(a) && RowsOk(b) && ValuesOk(a) && ValuesOk(b) && Stream(a) == Stream(b)
    ensures a == b
  {
    if a != [] && b != [] {
      StreamStep(a);
      StreamStep(b);
      var x, y := "\0" + Stream(a[1..]), "\0" + Stream(b[1..]);
      IdOnce(a[0].0, b[0].0, Canon(a[0].1) + x, Canon(b[0].1) + y);
      CanonOnce(a[0].1, b[0].1, x, y);
      DropHead("\0", Stream(a[1..]), Stream(b[1..]));
      StreamOnce(a[1..], b[1..]);
      assert a == [a[0]] + a[1..] && b == [b[0]] + b[1..];
    }
  }

  lemma {:induction false} SortOk(rows: seq<Pair>)
    requires RowsOk(rows) && ValuesOk(rows)
    ensures RowsOk(SortRows(rows)) && ValuesOk(SortRows(rows))
  {
    SortIsStableSort(rows);
    var out := SortRows(rows);
    forall i | 0 <= i < |out| ensures '\0' !in out[i].0 && Wf(out[i].1) {
      assert out[i] in multiset(out);
      assert out[i] in rows;
    }
  }

  lemma {:induction false} SortedAlike(a: seq<Pair>, b: seq<Pair>)
    ensures SameById(SortRows(a), SortRows(b)) <==> SameById(a, b)
  {
    SortIsStableSort(a);
    SortIsStableSort(b);
    if SameById(SortRows(a), SortRows(b)) {
      forall id ensures OfId(a, id) == OfId(b, id) { assert OfId(SortRows(a), id) == OfId(SortRows(b), id); }
    }
    if SameById(a, b) {
      forall id ensures OfId(SortRows(a), id) == OfId(SortRows(b), id) { assert OfId(a, id) == OfId(b, id); }
    }
  }

  /** Two tables feed the hasher the same bytes exactly when they hold, for each id, the same rows in the same order. */
  lemma PreimageById(a: seq<Pair>, b: seq<Pair>)
    requires RowsOk(a) && RowsOk(b) && ValuesOk(a) && ValuesOk(b)
    ensures Preimage(a) == Preimage(b) <==> SameById(a, b)
  {
    SortedAlike(a, b);
    SortIsStableSort(a);
    SortIsStableSort(b);
    SortOk(a);
    SortOk(b);
    if Preimage(a) == Preimage(b) { StreamOnce(SortRows(a), SortRows(b)); }
    if SameById(a, b) { SortedOnceById(SortRows(a), SortRows(b)); }
  }

  /** With distinct ids: exactly when they hold the same rows, in whatever order. */
  lemma PreimageExact(a: seq<Pair>, b: seq<Pair>)
    requires RowsOk(a) && RowsOk(b) && ValuesOk(a) && ValuesOk(b) && DistinctIds(a) && DistinctIds(b)
    ensures Preimage(a) == Preimage(b) <==> multiset(a) == multiset(b)
  {
    SortIsStableSort(a);
    SortIsStableSort(b);
    if multiset(a) == multiset(b) {
      SortDistinct(a);
      SortDistinct(b);
      SortedRowsOnce(SortRows(a), SortRows(b));
    }
    if Preimage(a) == Preimage(b) {
      SortOk(a);
      SortOk(b);
      StreamOnce(SortRows(a), SortRows(b));
    }
  }

  lemma TwoRows(a: Pair, b: Pair)
    requires !Less(b.0, a.0)
    ensures SortRows([a, b]) == [a, b] && Stream([a, b]) == RowText(a) + RowText(b)
    ensures SortRows([a]) == [a] && Stream([a]) == RowText(a)
  {
    var p := [a, b];
    assert p[..1] == [a] && [a][..0] == [] && p[1..] == [b] && [b][1..] == [] && [a][1..] == [];
    assert SortRows([a]) == Insert(a, []) == [a];
    assert Insert(b, [a]) == [a] + Insert(b, []);
    assert Stream([b]) == RowText(b) + "" && Stream([a]) == RowText(a) + "";
  }

  /** A NUL inside an id lets one row spell two, whatever the rows. */
  lemma {:induction false} NulIdCollides(p: string, v: Json, q: string, w: Json)
    requires !Less(q, p)
    ensures Preimage([(p + "\0" + Canon(v) + "\0" + q, w)]) == Preimage([(p, v), (q, w)])
  {
    var both: Pair := (p + "\0" + Canon(v) + "\0" + q, w);
    if Less(both.0, both.0) { LessAsym(both.0, both.0); }
    TwoRows(both, both);
    TwoRows((p, v), (q, w));
    SameText(p + "\0" + Canon(v) + "\0", q, Canon(w));
  }

  lemma SameText(a: string, q: string, c: string)
    ensures (a + q) + "\0" + c + "\0" == a + (q + "\0" + c + "\0")
  {
  }

  /** With a repeated id the order of the rows shows. */
  lemma {:induction false} RepeatedIdKeepsOrder(id: string, v: Json, w: Json)
    requires '\0' !in id && Wf(v) && Wf(w)
    ensures multiset([(id, v), (id, w)]) == multiset([(id, w), (id, v)])
    ensures Preimage([(id, v), (id, w)]) == Preimage([(id, w), (id, v)]) <==> v == w
  {
    var p, q: seq<Pair> := [(id, v), (id, w)], [(id, w), (id, v)];
    if Less(id, id) { LessAsym(id, id); }
    TwoRows((id, v), (id, w));
    TwoRows((id, w), (id, v));
    if Stream(p) == Stream(q) {
      StreamOnce(p, q);
      assert p[0] == q[0];
    }
    assert multiset(p) == multiset{(id, v), (id, w)} == multiset(q);
  }

  // ---------- reserved keys ----------

  predicate Reserved(k: string) {
    "_00_" <= k
  }

  function StripReserved(v: Json): Json {
    match v
    case Obj(m) => Obj(map k | k in m && !Reserved(k) && m[k] != Null :: m[k])
    case _ => v
  }

  /** Of a row's fields stay those that are not null and do not begin with `_00_`, as they are; any other value stays whole. */
  lemma StripKeeps(v: Json)
    ensures !v.Obj? ==> StripReserved(v) == v
    ensures v.Obj? ==>
      && StripReserved(v).Obj?
      && forall k :: k in StripReserved(v).fields <==> k in v.fields && v.fields[k] != Null && !(|k| >= 4 && k[..4] == "_00_")
    ensures v.Obj? ==> forall k | k in StripReserved(v).fields :: StripReserved(v).fields[k] == v.fields[k]
  {
    if v.Obj? {
      forall k ensures Reserved(k) <==> |k| >= 4 && k[..4] == "_00_" {
      }
    }
  }

  /** What a row shows under a key: a null reads as absent. */
  function Shown(m: map<string, Json>, k: string): Json {
    if k in m then m[k] else Null
  }

  /** Two rows print the same after stripping exactly when they show the same under every key that is not reserved. */
  lemma StrippedRowsExact(m: map<string, Json>, n: map<string, Json>)
    requires Wf(Obj(m)) && Wf(Obj(n))
    ensures Canon(StripReserved(Obj(m))) == Canon(StripReserved(Obj(n)))
       <==> forall k :: !Reserved(k) ==> Shown(m, k) == Shown(n, k)
  {
    var a, b := StripReserved(Obj(m)), StripReserved(Obj(n));
    if Canon(a) == Canon(b) {
      assert Canon(a) + "" == Canon(b) + "";
      CanonOnce(a, b, "", "");
      forall k | !Reserved(k) ensures Shown(m, k) == Shown(n, k) {
        assert k in a.fields <==> k in b.fields;
        assert Shown(m, k) == Shown(a.fields, k) && Shown(n, k) == Shown(b.fields, k);
      }
    }
    if forall k :: !Reserved(k) ==> Shown(m, k) == Shown(n, k) {
      forall k ensures k in a.fields <==> k in b.fields { assert Reserved(k) || Shown(m, k) == Shown(n, k); }
      forall k | k in a.fields ensures a.fields[k] == b.fields[k] { assert Shown(m, k) == Shown(n, k); }
      assert a.fields == b.fields;
    }
  }

  // ---------- the code ----------

  class Buffer {
    var text: string

    constructor ()
      ensures text == ""
    {
      text := "";
    }

    method Push(s: string)
      modifies this
      ensures text == old(text) + s
    {
      text := text + s;
    }
  }

  lemma {:induction false} ItemsSnoc(items: seq<Json>, n: nat, first: bool)
    requires n < |items|
    ensures Items(items[..n + 1], first) == Items(items[..n], first) + Comma(first && n == 0) + Canon(items[n])
    decreases n
  {
    if n == 0 {
      assert items[..1][1..] == [] && items[..1][0] == items[0];
    } else {
      var rest := items[1..];
      ItemsSnoc(rest, n - 1, false);
      assert items[..n + 1][1..] == rest[..n] && items[..n][1..] == rest[..n - 1];
      Shift(Comma(first) + Canon(items[0]), Items(rest[..n - 1], false), Comma(false), Canon(items[n]));
    }
  }

  lemma Shift(h: string, a: string, b: string, c: string)
    ensures h + (a + b + c) == (h + a) + b + c
  {
  }

  lemma {:induction false} MembersSnoc(v: Json, ks: seq<string>, n: nat, first: bool)
    requires v.Obj? && (forall k | k in ks :: k in v.fields) && n < |ks|
    ensures Members(v, ks[..n + 1], first) == Members(v, ks[..n], first) + Comma(first && n == 0) + MemberText(v, ks[n])
    decreases n
  {
    if n == 0 {
      assert ks[..1][1..] == [] && ks[..1][0] == ks[0];
      Shift(Comma(first), Quote(ks[0]) + ":", Canon(v.fields[ks[0]]), "");
      assert Members(v, [], false) == "";
    } else {
      var rest := ks[1..];
      MembersSnoc(v, rest, n - 1, false);
      assert ks[..n + 1][1..] == rest[..n] && ks[..n][1..] == rest[..n - 1];
      var head := Comma(first) + (Quote(ks[0]) + ":") + Canon(v.fields[ks[0]]);
      Shift(head, Members(v, rest[..n - 1], false), Comma(false), MemberText(v, ks[n]));
    }
  }

  ghost function MemberText(v: Json, k: string): string
    requires v.Obj? && k in v.fields
  {
    Quote(k) + ":" + Canon(v.fields[k])
  }

  method WriteCanonical(v: Json, out: Buffer)
    modifies out
    ensures out.text == old(out.text) + Canon(v)
    decreases v, 2
  {
    match v {
      case Obj(_) => WriteObject(v, out);
      case Arr(_) => WriteArray(v, out);
      case Null => out.Push("null");
      case Bool(b) => out.Push(if b then "true" else "false");
      case Num(t) => out.Push(t);
      case Str(s) => out.Push(Quote(s));
    }
  }

  method WriteObject(v: Json, out: Buffer)
    requires v.Obj?
    modifies out
    ensures out.text == old(out.text) + Canon(v)
    decreases v, 1
  {
    var keys := Sort(v.fields.Keys);
    assert forall k | k in keys :: k in ToSet(keys);
    out.Push("{");
    ghost var before := out.text;
    for i := 0 to |keys|
      invariant out.text == before + Members(v, keys[..i], true)
    {
      MembersSnoc(v, keys, i, true);
      Shift(before, Members(v, keys[..i], true), Comma(i == 0), MemberText(v, keys[i]));
      out.Push(Comma(i == 0));
      WriteMember(v, keys[i], out);
    }
    assert keys[..|keys|] == keys;
    Shift(old(out.text), "{", Members(v, keys, true), "}");
    out.Push("}");
  }

  method WriteMember(v: Json, k: string, out: Buffer)
    requires v.Obj? && k in v.fields
    modifies out
    ensures out.text == old(out.text) + MemberText(v, k)
    decreases v, 0
  {
    out.Push(Quote(k));
    out.Push(":");
    WriteCanonical(v.fields[k], out);
    Shift(old(out.text), Quote(k), ":", Canon(v.fields[k]));
  }

  method WriteArray(v: Json, out: Buffer)
    requires v.Arr?
    modifies out
    ensures out.text == old(out.text) + Canon(v)
    decreases v, 1
  {
    var items := v.items;
    out.Push("[");
    ghost var before := out.text;
    for i := 0 to |items|
      invariant out.text == before + Items(items[..i], true)
    {
      ItemsSnoc(items, i, true);
      Shift(before, Items(items[..i], true), Comma(i == 0), Canon(items[i]));
      out.Push(Comma(i == 0));
      WriteCanonical(items[i], out);
    }
    assert items[..|items|] == items;
    Shift(old(out.text), "[", Items(items, true), "]");
    out.Push("]");
  }

  lemma {:induction false} StreamSnoc(rows: seq<Pair>, n: nat)
    requires n < |rows|
    ensures Stream(rows[..n + 1]) == Stream(rows[..n]) + RowText(rows[n])
    decreases n
  {
    if n == 0 {
      assert rows[..1][1..] == [] && rows[..1][0] == rows[0];
    } else {
      StreamSnoc(rows[1..], n - 1);
      assert rows[..n + 1][1..] == rows[1..][..n] && rows[..n][1..] == rows[1..][..n - 1];
      assert RowText(rows[0]) + (Stream(rows[1..][..n - 1]) + RowText(rows[n])) == Stream(rows[..n]) + RowText(rows[n]);
    }
  }

  method FeedRow(row: Pair, hasher: Buffer)
    modifies hasher
    ensures hasher.text == old(hasher.text) + RowText(row)
  {
    hasher.Push(row.0);
    hasher.Push("\0");
    var canonical := new Buffer();
    WriteCanonical(row.1, canonical);
    hasher.Push(canonical.text);
    hasher.Push("\0");
    assert hasher.text == old(hasher.text) + row.0 + "\0" + Canon(row.1) + "\0";
    Shift(old(hasher.text), row.0 + "\0", Canon(row.1), "\0");
    Shift(old(hasher.text), row.0, "\0", "");
  }

  /** What the hasher is fed. */
  method HashTable(pairs: seq<Pair>, hasher: Buffer)
    modifies hasher
    ensures hasher.text == old(hasher.text) + Preimage(pairs)
  {
    var sorted := SortRows(pairs);
    ghost var before := hasher.text;
    for i := 0 to |sorted|
      invariant hasher.text == before + Stream(sorted[..i])
    {
      StreamSnoc(sorted, i);
      Shift(before, Stream(sorted[..i]), RowText(sorted[i]), "");
      FeedRow(sorted[i], hasher);
    }
    assert sorted[..|sorted|] == sorted;
  }
}
