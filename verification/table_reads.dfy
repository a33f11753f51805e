/** The stream of a table reads back as its rows: ids and JSON texts, each closed by a NUL. */
module TableReads {
  import opened Options
  import opened Names
  import opened Canonical
  import opened JsonText
  import opened CanonicalReads
  import opened TableHash

  /** Up to the first NUL. */
  function Id(s: string): (r: Option<(string, string)>)
    ensures r.Some? ==> |r.value.1| < |s|
  {
    if s == "" then None
    else if s[0] == '\0' then Some(("", s[1..]))
    else
      var rest := Id(s[1..]);
      if rest.None? then None else Some(([s[0]] + rest.value.0, rest.value.1))
  }

  /** Rows up to the end. */
  function Rows(s: string): Option<seq<(string, Doc)>>
    decreases |s|
  {
    if s == "" then Some([])
    else
      var id := Id(s);
      if id.None? then None
      else
        var v := Value(id.value.1);
        if v.None? || v.value.1 == "" || v.value.1[0] != '\0' then None
        else
          var rest := Rows(v.value.1[1..]);
          if rest.None? then None else Some([(id.value.0, v.value.0)] + rest.value)
  }

  lemma {:induction false} IdReads(id: string, x: string)
    requires '\0' !in id
    ensures Id(id + "\0" + x) == Some((id, x))
  {
    var s := id + "\0" + x;
    if id == "" {
      assert s[1..] == x;
    } else {
      assert s[1..] == id[1..] + "\0" + x;
      IdReads(id[1..], x);
      assert id == [id[0]] + id[1..];
    }
  }

  /** What was read are these rows. */
  ghost predicate AreRows(read: seq<(string, Doc)>, rows: seq<Pair>) {
    |read| == |rows| && forall i | 0 <= i < |rows| :: read[i].0 == rows[i].0 && Meaning(read[i].1) == rows[i].1 && Ascends(read[i].1)
  }

  ghost predicate NumbersOk(rows: seq<Pair>) {
    forall i | 0 <= i < |rows| :: Numbers(rows[i].1)
  }

  lemma {:induction false} FirstRow(s: string, id: string, d: Doc, t: string, y: string, rest: seq<(string, Doc)>)
    requires s != "" && Id(s) == Some((id, t)) && Value(t) == Some((d, "\0" + y)) && Rows(y) == Some(rest)
    ensures Rows(s) == Some([(id, d)] + rest)
  {
    Behind("\0", y);
  }

  lemma {:induction false} StreamReads(rows: seq<Pair>) returns (read: seq<(string, Doc)>)
    requires RowsOk(rows) && NumbersOk(rows)
    ensures Rows(Stream(rows)) == Some(read) && AreRows(read, rows)
  {
    if rows == [] {
      read := [];
    } else {
      var y := Stream(rows[1..]);
      StreamStep(rows);
      IdReads(rows[0].0, Canon(rows[0].1) + ("\0" + y));
      var d := ReadsBack(rows[0].1, "\0" + y);
      var rest := StreamReads(rows[1..]);
      FirstRow(Stream(rows), rows[0].0, d, Canon(rows[0].1) + ("\0" + y), y, rest);
      read := [(rows[0].0, d)] + rest;
    }
  }

  /** What the hasher is fed reads back as the table's rows, in the order of their ids, rows of one id in table order. */
  lemma PreimageReads(rows: seq<Pair>) returns (sorted: seq<Pair>, read: seq<(string, Doc)>)
    requires RowsOk(rows) && NumbersOk(rows)
    ensures Rows(Preimage(rows)) == Some(read) && AreRows(read, sorted)
    ensures multiset(sorted) == multiset(rows) && SameById(sorted, rows)
    ensures forall i, j | 0 <= i < j < |sorted| :: !Less(sorted[j].0, sorted[i].0)
  {
    sorted := SortRows(rows);
    SortIsStableSort(rows);
    forall i | 0 <= i < |sorted| ensures '\0' !in sorted[i].0 && Numbers(sorted[i].1) {
      assert sorted[i] in multiset(sorted);
      assert sorted[i] in rows;
    }
    read := StreamReads(sorted);
  }
}
