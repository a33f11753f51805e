/** Canonical JSON and the byte stream a table is hashed from. Text stands for its UTF-8 bytes, which
    determine it; the hash function itself is not modelled. */
module Canonical {
  import opened Names

  /** A number is its printed form. An object's key order is not part of its value. */
  datatype Json =
    | Null
    | Bool(b: bool)
    | Num(digits: string)
    | Str(s: string)
    | Arr(items: seq<Json>)
    | Obj(fields: map<string, Json>)

  predicate NumText(t: string) {
    t != "" && (t[0] == '-' || '0' <= t[0] <= '9') && forall c | c in t :: c in "+-.0123456789Ee"
  }

  /** Every number in the value is printed as a number. */
  ghost predicate Wf(v: Json) {
    match v
    case Num(t) => NumText(t)
    case Arr(items) => forall x | x in items :: Wf(x)
    case Obj(m) => forall k | k in m :: Wf(m[k])
    case _ => true
  }

  // ---------- printing ----------

  function Hex(n: nat): char
    requires n < 16
  {
    "0123456789abcdef"[n]
  }

  /** String escapes of section 7 of RFC 8259, the short form where there is one. */
  function Escape(c: char): string {
    if c == '"' then "\\\""
    else if c == '\\' then "\\\\"
    else if c == '\n' then "\\n"
    else if c == '\r' then "\\r"
    else if c == '\t' then "\\t"
    else if c as int == 8 then "\\b"
    else if c as int == 12 then "\\f"
    else if c as int < 32 then ['\\', 'u', '0', '0', Hex(c as int / 16), Hex(c as int % 16)]
    else [c]
  }

  function EscapeAll(s: string): string {
    if s == "" then "" else Escape(s[0]) + EscapeAll(s[1..])
  }

  function Quote(s: string): string {
    "\"" + EscapeAll(s) + "\""
  }

  function Comma(first: bool): string {
    if first then "" else ","
  }

  ghost function Canon(v: Json): string
    decreases v, 1
  {
    match v
    case Null => "null"
    case Bool(b) => if b then "true" else "false"
    case Num(t) => t
    case Str(s) => Quote(s)
    case Arr(items) => "[" + Items(items, true) + "]"
    case Obj(m) => "{" + Members(v, Sorted(m.Keys), true) + "}"
  }

  ghost function Items(items: seq<Json>, first: bool): string
    decreases items, 0, |items|
  {
    if items == [] then "" else Comma(first) + Canon(items[0]) + Items(items[1..], false)
  }

  ghost function Members(v: Json, ks: seq<string>, first: bool): string
    requires v.Obj? && forall k | k in ks :: k in v.fields
    decreases v, 0, |ks|
  {
    if ks == [] then ""
    else Comma(first) + (Quote(ks[0]) + ":") + Canon(v.fields[ks[0]]) + Members(v, ks[1..], false)
  }

  // ---------- escapes are a prefix code ----------

  lemma EscapeHead(c: char)
    ensures Escape(c) != "" && Escape(c)[0] != '"' && '\0' !in Escape(c)
  {
  }

  lemma EscapeOnce(c: char, d: char, x: string, y: string)
    requires Escape(c) + x == Escape(d) + y
    ensures c == d && x == y
  {
    var l, r := Escape(c) + x, Escape(d) + y;
    assert l[0] == Escape(c)[0] && r[0] == Escape(d)[0];
    assert |Escape(c)| > 1 ==> l[1] == Escape(c)[1];
    assert |Escape(d)| > 1 ==> r[1] == Escape(d)[1];
    if |Escape(c)| == 6 && |Escape(d)| == 6 {
      assert l[4] == Escape(c)[4] && l[5] == Escape(c)[5] && r[4] == Escape(d)[4] && r[5] == Escape(d)[5];
      HexOnce(c as int / 16, d as int / 16);
      HexOnce(c as int % 16, d as int % 16);
    }
    assert c == d;
    assert l[|Escape(c)|..] == x && r[|Escape(c)|..] == y;
  }

  lemma HexOnce(a: nat, b: nat)
    requires a < 16 && b < 16 && Hex(a) == Hex(b)
    ensures a == b
  {
  }

  lemma {:induction false} StringEnd(s: string, x: string)
    ensures var l := EscapeAll(s) + "\"" + x; l != "" && (l[0] == '"' <==> s == "")
  {
    if s != "" {
      EscapeHead(s[0]);
      assert (EscapeAll(s) + "\"" + x)[0] == Escape(s[0])[0];
    }
  }

  lemma {:induction false} StringStep(s: string, x: string)
    requires s != ""
    ensures EscapeAll(s) + "\"" + x == Escape(s[0]) + (EscapeAll(s[1..]) + "\"" + x)
  {
    Regroup(Escape(s[0]), EscapeAll(s[1..]), "\"", x);
  }

  lemma Regroup(a: string, b: string, c: string, d: string)
    ensures (a + b) + c + d == a + (b + c + d)
  {
  }

  lemma {:induction false} StringOnce(s: string, t: string, x: string, y: string)
    requires EscapeAll(s) + "\"" + x == EscapeAll(t) + "\"" + y
    ensures s == t && x == y
  {
    StringEnd(s, x);
    StringEnd(t, y);
    if s == "" {
      assert (EscapeAll(s) + "\"" + x)[1..] == x && (EscapeAll(t) + "\"" + y)[1..] == y;
    } else {
      var x', y' := EscapeAll(s[1..]) + "\"" + x, EscapeAll(t[1..]) + "\"" + y;
      StringStep(s, x);
      StringStep(t, y);
      EscapeOnce(s[0], t[0], x', y');
      StringOnce(s[1..], t[1..], x, y);
      assert s == [s[0]] + s[1..] && t == [t[0]] + t[1..];
    }
  }

  lemma QuoteOnce(s: string, t: string, x: string, y: string)
    requires Quote(s) + x == Quote(t) + y
    ensures s == t && x == y
  {
    assert (Quote(s) + x)[1..] == EscapeAll(s) + "\"" + x && (Quote(t) + y)[1..] == EscapeAll(t) + "\"" + y;
    StringOnce(s, t, x, y);
  }

  // ---------- numbers end at a delimiter ----------

  /** What may follow a value in an array, in an object, or in the table stream. */
  predicate Ends(x: string) {
    x == "" || x[0] in ",]}\0"
  }

  function NumSpan(s: string): nat {
    if s != "" && s[0] in "+-.0123456789Ee" then 1 + NumSpan(s[1..]) else 0
  }

  lemma {:induction false} NumSpanEnds(t: string, x: string)
    requires Ends(x) && forall c | c in t :: c in "+-.0123456789Ee"
    ensures NumSpan(t + x) == |t|
  {
    if t == "" {
      assert t + x == x;
    } else {
      assert (t + x)[1..] == t[1..] + x;
      NumSpanEnds(t[1..], x);
    }
  }

  lemma NumOnce(t: string, u: string, x: string, y: string)
    requires NumText(t) && NumText(u) && Ends(x) && Ends(y) && t + x == u + y
    ensures t == u && x == y
  {
    NumSpanEnds(t, x);
    NumSpanEnds(u, y);
    assert (t + x)[..|t|] == t && (u + y)[..|u|] == u;
    assert (t + x)[|t|..] == x && (u + y)[|u|..] == y;
  }

  // ---------- nested values ----------

  /** The first character of a printed value tells its kind. */
  predicate Tagged(v: Json, c: char) {
    match v
    case Null => c == 'n'
    case Bool(b) => c == if b then 't' else 'f'
    case Num(_) => c == '-' || '0' <= c <= '9'
    case Str(_) => c == '"'
    case Arr(_) => c == '['
    case Obj(_) => c == '{'
  }

  lemma {:induction false} CanonTag(v: Json, x: string)
    requires Wf(v)
    ensures Canon(v) != "" && Tagged(v, Canon(v)[0]) && (Canon(v) + x)[0] == Canon(v)[0]
  {
  }

  lemma {:induction false} ItemsEnd(items: seq<Json>, first: bool, x: string)
    requires forall v | v in items :: Wf(v)
    ensures var l := Items(items, first) + "]" + x; l != "" && (l[0] == ']' <==> items == [])
  {
    if items != [] {
      CanonTag(items[0], "");
      assert (Items(items, first) + "]" + x)[0] == Items(items, first)[0];
    }
  }

  lemma {:induction false} ItemsOnce(a: seq<Json>, b: seq<Json>, first: bool, x: string, y: string)
    requires (forall v | v in a :: Wf(v)) && (forall v | v in b :: Wf(v))
    requires Items(a, first) + "]" + x == Items(b, first) + "]" + y
    ensures a == b && x == y
    decreases a, 0, |a|
  {
    ItemsEnd(a, first, x);
    ItemsEnd(b, first, y);
    if a == [] {
      assert (Items(a, first) + "]" + x)[1..] == x && (Items(b, first) + "]" + y)[1..] == y;
    } else {
      var sep := Comma(first);
      var x', y' := Items(a[1..], false) + "]" + x, Items(b[1..], false) + "]" + y;
      Nest(sep, "", "", Canon(a[0]), Items(a[1..], false), "]", x);
      Nest(sep, "", "", Canon(b[0]), Items(b[1..], false), "]", y);
      assert sep + ("" + "") == sep && "" + ("" + (Canon(a[0]) + x')) == Canon(a[0]) + x' && "" + ("" + (Canon(b[0]) + y')) == Canon(b[0]) + y';
      DropHead(sep, Canon(a[0]) + x', Canon(b[0]) + y');
      ItemsFollow(a[1..], x);
      ItemsFollow(b[1..], y);
      CanonOnce(a[0], b[0], x', y');
      ItemsOnce(a[1..], b[1..], false, x, y);
      assert a == [a[0]] + a[1..] && b == [b[0]] + b[1..];
    }
  }

  lemma DropHead(h: string, x: string, y: string)
    requires h + x == h + y
    ensures x == y
  {
    assert (h + x)[|h|..] == x && (h + y)[|h|..] == y;
  }

  lemma {:induction false} ItemsFollow(items: seq<Json>, x: string)
    ensures Ends(Items(items, false) + "]" + x)
  {
  }

  lemma {:induction false} MembersFollow(v: Json, ks: seq<string>, x: string)
    requires v.Obj? && forall k | k in ks :: k in v.fields
    ensures Ends(Members(v, ks, false) + "}" + x)
  {
  }

  lemma {:induction false} MembersEnd(v: Json, ks: seq<string>, first: bool, x: string)
    requires v.Obj? && forall k | k in ks :: k in v.fields
    ensures var l := Members(v, ks, first) + "}" + x; l != "" && (l[0] == '}' <==> ks == [])
  {
    if ks != [] {
      assert (Members(v, ks, first) + "}" + x)[0] == Members(v, ks, first)[0];
      assert Members(v, ks, first)[0] == if first then '"' else ',';
    }
  }

  lemma Nest(a: string, b: string, c: string, d: string, e: string, f: string, g: string)
    ensures a + (b + c) + d + e + f + g == a + (b + (c + (d + (e + f + g))))
  {
    Regroup(a + (b + c) + d, e, f, g);
    Regroup(a, b + c, d, e + f + g);
    Regroup(b, c, d, e + f + g);
    Regroup("", c, d, e + f + g);
  }

  lemma {:induction false} MembersStep(v: Json, ks: seq<string>, first: bool, x: string)
    requires v.Obj? && ks != [] && forall k | k in ks :: k in v.fields
    ensures Members(v, ks, first) + "}" + x
         == Comma(first) + (Quote(ks[0]) + (":" + (Canon(v.fields[ks[0]]) + (Members(v, ks[1..], false) + "}" + x))))
  {
    Nest(Comma(first), Quote(ks[0]), ":", Canon(v.fields[ks[0]]), Members(v, ks[1..], false), "}", x);
  }

  lemma {:induction false} MembersOnce(v: Json, w: Json, ks: seq<string>, ls: seq<string>, first: bool, x: string, y: string)
    requires v.Obj? && w.Obj? && Wf(v) && Wf(w)
    requires (forall k | k in ks :: k in v.fields) && (forall k | k in ls :: k in w.fields)
    requires Members(v, ks, first) + "}" + x == Members(w, ls, first) + "}" + y
    ensures ks == ls && x == y && forall k | k in ks :: v.fields[k] == w.fields[k]
    decreases v, 0, |ks|
  {
    MembersEnd(v, ks, first, x);
    MembersEnd(w, ls, first, y);
    if ks == [] {
      assert (Members(v, ks, first) + "}" + x)[1..] == x && (Members(w, ls, first) + "}" + y)[1..] == y;
    } else {
      var sep := Comma(first);
      var k, l := ks[0], ls[0];
      var x', y' := Members(v, ks[1..], false) + "}" + x, Members(w, ls[1..], false) + "}" + y;
      var p, q := Canon(v.fields[k]) + x', Canon(w.fields[l]) + y';
      MembersStep(v, ks, first, x);
      MembersStep(w, ls, first, y);
      DropHead(sep, Quote(k) + (":" + p), Quote(l) + (":" + q));
      QuoteOnce(k, l, ":" + p, ":" + q);
      DropHead(":", p, q);
      MembersFollow(v, ks[1..], x);
      MembersFollow(w, ls[1..], y);
      CanonOnce(v.fields[k], w.fields[l], x', y');
      MembersOnce(v, w, ks[1..], ls[1..], false, x, y);
      assert ks == [k] + ks[1..] && ls == [l] + ls[1..];
    }
  }

  lemma {:induction false} ArrOnce(v: Json, w: Json, x: string, y: string)
    requires v.Arr? && w.Arr? && Canon(v) + x == Canon(w) + y
    ensures Items(v.items, true) + "]" + x == Items(w.items, true) + "]" + y
  {
    Regroup("[", Items(v.items, true), "]", x);
    Regroup("[", Items(w.items, true), "]", y);
    DropHead("[", Items(v.items, true) + "]" + x, Items(w.items, true) + "]" + y);
  }

  lemma {:induction false} ObjOnce(v: Json, w: Json, x: string, y: string)
    requires v.Obj? && w.Obj? && Canon(v) + x == Canon(w) + y
    ensures var ks, ls := Sorted(v.fields.Keys), Sorted(w.fields.Keys);
      && (forall k | k in ks :: k in ToSet(ks)) && (forall k | k in ls :: k in ToSet(ls))
      && Members(v, ks, true) + "}" + x == Members(w, ls, true) + "}" + y
  {
    var ks, ls := Sorted(v.fields.Keys), Sorted(w.fields.Keys);
    assert (forall k | k in ks :: k in ToSet(ks)) && (forall k | k in ls :: k in ToSet(ls));
    Regroup("{", Members(v, ks, true), "}", x);
    Regroup("{", Members(w, ls, true), "}", y);
    DropHead("{", Members(v, ks, true) + "}" + x, Members(w, ls, true) + "}" + y);
  }

  lemma SameFields(m: map<string, Json>, n: map<string, Json>, ks: seq<string>)
    requires m.Keys == ToSet(ks) == n.Keys && forall k | k in ks :: k in ToSet(ks) && m[k] == n[k]
    ensures m == n
  {
    assert forall k | k in m :: k in ks;
  }

  /** A printed value followed by a delimiter can be read back in one way only. */
  lemma {:induction false} CanonOnce(v: Json, w: Json, x: string, y: string)
    requires Wf(v) && Wf(w) && Ends(x) && Ends(y) && Canon(v) + x == Canon(w) + y
    ensures v == w && x == y
    decreases v, 1
  {
    CanonTag(v, x);
    CanonTag(w, y);
    match v
    case Num(t) => NumOnce(t, w.digits, x, y);
    case Str(s) => QuoteOnce(s, w.s, x, y);
    case Arr(a) =>
      ArrOnce(v, w, x, y);
      ItemsOnce(a, w.items, true, x, y);
    case Obj(m) =>
      ObjOnce(v, w, x, y);
      MembersOnce(v, w, Sorted(m.Keys), Sorted(w.fields.Keys), true, x, y);
      SameFields(m, w.fields, Sorted(m.Keys));
    case _ => DropHead(Canon(v), x, y);
  }
}
