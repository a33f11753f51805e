/** The canonical text of a value is JSON text that reads back as the value: compact, with ascending keys. */
module CanonicalReads {
  import opened Options
  import opened Names
  import opened Canonical
  import opened JsonText

  // ---------- what a text means ----------

  ghost function Meaning(d: Doc): Json
    decreases d, 0
  {
    match d
    case DNull => Null
    case DBool(b) => Bool(b)
    case DNum(t) => Num(t)
    case DStr(s) => Str(s)
    case DArr(items) => Arr(Meanings(items))
    case DObj(members) => Obj(FieldsOf(members))
  }

  ghost function Meanings(ds: seq<Doc>): (vs: seq<Json>)
    ensures |vs| == |ds| && forall i | 0 <= i < |ds| :: vs[i] == Meaning(ds[i])
    decreases ds, 1
  {
    seq(|ds|, i requires 0 <= i < |ds| => Meaning(ds[i]))
  }

  /** The last member of a key counts. */
  ghost function FieldsOf(ms: seq<Member>): map<string, Json>
    decreases ms, 2
  {
    if ms == [] then map[] else FieldsOf(ms[..|ms| - 1])[ms[|ms| - 1].key := Meaning(ms[|ms| - 1].value)]
  }

  /** In every object of the text the keys ascend. */
  ghost predicate Ascends(d: Doc)
    decreases d
  {
    match d
    case DArr(items) => forall i | 0 <= i < |items| :: Ascends(items[i])
    case DObj(ms) => (forall i, j | 0 <= i < j < |ms| :: Less(ms[i].key, ms[j].key)) && forall i | 0 <= i < |ms| :: Ascends(ms[i].value)
    case _ => true
  }

  /** Every number in the value is one by the grammar. */
  ghost predicate Numbers(v: Json) {
    match v
    case Num(t) => IsNumber(t)
    case Arr(items) => forall x | x in items :: Numbers(x)
    case Obj(m) => forall k | k in m :: Numbers(m[k])
    case _ => true
  }

  // ---------- strings ----------

  /** One character read in front of `x`. */
  function Then(c: char, x: string): Option<(string, string)> {
    var rest := StringRest(x);
    if rest.None? then None else Some(([c] + rest.value.0, rest.value.1))
  }

  lemma HexReads(n: nat)
    requires n < 16
    ensures HexValue(Hex(n)) == Some(n)
  {
  }

  lemma ControlReads(c: char, x: string)
    requires c as int < 32
    ensures Escaped(['u', '0', '0', Hex(c as int / 16), Hex(c as int % 16)] + x) == Some((c, x))
  {
    var s := ['u', '0', '0', Hex(c as int / 16), Hex(c as int % 16)] + x;
    HexReads(c as int / 16);
    HexReads(c as int % 16);
    assert s[1] == '0' && s[2] == '0' && s[3] == Hex(c as int / 16) && s[4] == Hex(c as int % 16) && s[5..] == x;
    assert Unit(s) == Some(c as int);
  }

  lemma {:induction false} EscapeReads(c: char, x: string)
    ensures StringRest(Escape(c) + x) == Then(c, x)
  {
    var e := Escape(c);
    var s := e + x;
    if e == [c] {
      assert s[1..] == x;
    } else {
      assert s[0] == '\\' && s[1..] == e[1..] + x;
      if |e| == 2 {
        assert s[1..][0] == e[1] && s[1..][1..] == x;
      } else {
        ControlReads(c, x);
      }
    }
  }

  lemma {:induction false} StringReads(t: string, x: string)
    ensures StringRest(EscapeAll(t) + "\"" + x) == Some((t, x))
  {
    if t == "" {
      assert ("" + "\"" + x)[1..] == x;
    } else {
      StringReads(t[1..], x);
      StringStep(t, x);
      EscapeReads(t[0], EscapeAll(t[1..]) + "\"" + x);
      assert t == [t[0]] + t[1..];
    }
  }

  lemma QuoteReads(t: string, x: string)
    ensures var s := Quote(t) + x; s[0] == '"' && StringRest(s[1..]) == Some((t, x))
  {
    var s := Quote(t) + x;
    assert s[1..] == EscapeAll(t) + "\"" + x;
    StringReads(t, x);
  }

  /** What the reader takes as one character is no shorter than its canonical escape. */
  lemma ShortestEscape(s: string)
    requires s != "" && s[0] as int >= 0x20 && s[0] != '"'
    ensures s[0] == '\\' && Escaped(s[1..]).Some? ==>
      var (c, x) := Escaped(s[1..]).value; |Escape(c)| + |x| <= |s|
    ensures s[0] != '\\' ==> |Escape(s[0])| == 1
  {
  }

  /** No JSON spelling of a text is shorter than the canonical one, whose hexadecimal digits are lower case. */
  lemma {:induction false} ShortestString(s: string)
    requires StringRest(s).Some?
    ensures var (t, x) := StringRest(s).value; |EscapeAll(t) + "\"" + x| <= |s|
    decreases |s|
  {
    if s[0] != '"' {
      ShortestEscape(s);
      var first := if s[0] == '\\' then Escaped(s[1..]).value else (s[0], s[1..]);
      ShortestString(first.1);
      var t := StringRest(s).value.0;
      assert t[0] == first.0 && t[1..] == StringRest(first.1).value.0;
    }
  }

  lemma LowerHex(c: char)
    ensures forall d | d in Escape(c) && d != c :: !('A' <= d <= 'F')
  {
  }

  // ---------- numbers ----------

  lemma {:induction false} DigitsStop(t: string, x: string, i: nat)
    requires i <= |t| && Ends(x)
    ensures Digits(t + x, i) == Digits(t, i)
    decreases |t| - i
  {
    if i < |t| { DigitsStop(t, x, i + 1); }
  }

  lemma PartsStop(t: string, x: string, i: nat)
    requires i <= |t| && Ends(x)
    ensures IntPart(t + x, i) == IntPart(t, i) && FracPart(t + x, i) == FracPart(t, i) && ExpPart(t + x, i) == ExpPart(t, i)
  {
    var s := t + x;
    assert forall j | 0 <= j < |t| :: s[j] == t[j];
    assert |s| > |t| ==> s[|t|] == x[0] && x[0] in ",]}\0";
    DigitsStop(t, x, i);
    if i < |t| { DigitsStop(t, x, i + 1); }
    if i + 1 < |t| { DigitsStop(t, x, i + 2); }
  }

  lemma NumberReads(t: string, x: string)
    requires IsNumber(t) && Ends(x)
    ensures NumberEnd(t + x) == Some(|t|) && (Digit(t[0]) || t[0] == '-')
  {
    var start := if t[0] == '-' then 1 else 0;
    PartsStop(t, x, start);
    var int_ := IntPart(t, start).value;
    PartsStop(t, x, int_);
    PartsStop(t, x, FracPart(t, int_).value);
  }

  // ---------- values ----------

  lemma Behind(a: string, x: string)
    ensures (a + x)[|a|..] == x && (a + x)[..|a|] == a
  {
  }

  /** Literal names and numbers. */
  lemma {:induction false} ScalarReads(v: Json, x: string)
    requires Numbers(v) && Ends(x) && (v.Null? || v.Bool? || v.Num?)
    ensures Value(Canon(v) + x) == Some((if v.Null? then DNull else if v.Bool? then DBool(v.b) else DNum(v.digits), x))
  {
    var s := Canon(v) + x;
    Behind(Canon(v), x);
    assert Canon(v) <= s;
    if v.Num? {
      NumberReads(v.digits, x);
      assert s[0] == v.digits[0];
    } else {
      assert s[0] == Canon(v)[0];
    }
  }

  lemma {:induction false} StrReads(t: string, x: string)
    ensures Value(Canon(Str(t)) + x) == Some((DStr(t), x))
  {
    QuoteReads(t, x);
    assert Canon(Str(t)) == Quote(t);
  }

  lemma NoName(s: string)
    requires s != "" && s[0] !in "ntf"
    ensures !("null" <= s) && !("true" <= s) && !("false" <= s)
  {
  }

  lemma {:induction false} ArrayRest(s: string, ds: seq<Doc>, x: string)
    requires s != "" && s[0] == '[' && !("[]" <= s) && ItemsRest(s[1..]) == Some((ds, x))
    ensures Value(s) == Some((DArr(ds), x))
  {
    NoName(s);
  }

  lemma {:induction false} ObjectRest(s: string, ms: seq<Member>, x: string)
    requires s != "" && s[0] == '{' && !("{}" <= s) && MembersRest(s[1..]) == Some((ms, x))
    ensures Value(s) == Some((DObj(ms), x))
  {
    NoName(s);
  }

  lemma {:induction false} EmptyOnes(x: string)
    ensures Value("[]" + x) == Some((DArr([]), x)) && Value("{}" + x) == Some((DObj([]), x))
  {
    NoName("[]" + x);
    NoName("{}" + x);
    Behind("[]", x);
    Behind("{}", x);
  }

  lemma {:induction false} LastItem(s: string, d: Doc, x: string)
    requires Value(s) == Some((d, "]" + x))
    ensures ItemsRest(s) == Some(([d], x))
  {
    Behind("]", x);
  }

  lemma {:induction false} NextItem(s: string, d: Doc, y: string, ds: seq<Doc>, x: string)
    requires Value(s) == Some((d, "," + y)) && ItemsRest(y) == Some((ds, x))
    ensures ItemsRest(s) == Some(([d] + ds, x))
  {
    Behind(",", y);
  }

  lemma {:induction false} LastMember(s: string, m: Member, x: string)
    requires OneMember(s) == Some((m, "}" + x))
    ensures MembersRest(s) == Some(([m], x))
  {
    Behind("}", x);
  }

  lemma {:induction false} NextMember(s: string, m: Member, y: string, ms: seq<Member>, x: string)
    requires OneMember(s) == Some((m, "," + y)) && MembersRest(y) == Some((ms, x))
    ensures MembersRest(s) == Some(([m] + ms, x))
  {
    Behind(",", y);
  }

  lemma Led(h: string, a: string, b: string)
    ensures (h + a) + b == h + (a + b) && "" + a == a
  {
  }

  lemma {:induction false} ItemsLed(items: seq<Json>)
    requires items != []
    ensures Items(items, false) == "," + Items(items, true)
    ensures Items(items, true) == Canon(items[0]) + Items(items[1..], false)
  {
    Led(",", Canon(items[0]), Items(items[1..], false));
  }

  lemma {:induction false} ItemsApart(items: seq<Json>, x: string)
    requires items != []
    ensures Items(items, true) + "]" + x == Canon(items[0]) + if |items| == 1 then "]" + x else "," + (Items(items[1..], true) + "]" + x)
  {
    var rest := items[1..];
    ItemsLed(items);
    Regroup(Canon(items[0]), Items(rest, false), "]", x);
    if rest == [] {
      Led("", "]", x);
    } else {
      ItemsLed(rest);
      Regroup(",", Items(rest, true), "]", x);
    }
  }

  lemma {:induction false} ItemsRead(items: seq<Json>, x: string) returns (ds: seq<Doc>)
    requires items != [] && forall v | v in items :: Numbers(v)
    ensures ItemsRest(Items(items, true) + "]" + x) == Some((ds, x)) && Meanings(ds) == items && forall i | 0 <= i < |ds| :: Ascends(ds[i])
    decreases items, 1
  {
    ItemsApart(items, x);
    if |items| == 1 {
      var d := ReadsBack(items[0], "]" + x);
      ds := [d];
      LastItem(Canon(items[0]) + ("]" + x), d, x);
    } else {
      var y := Items(items[1..], true) + "]" + x;
      var d := ReadsBack(items[0], "," + y);
      var rest := ItemsRead(items[1..], x);
      ds := [d] + rest;
      NextItem(Canon(items[0]) + ("," + y), d, y, rest, x);
      assert items == [items[0]] + items[1..];
    }
    assert Meanings(ds) == items;
  }

  lemma {:induction false} MembersLed(v: Json, ks: seq<string>)
    requires v.Obj? && ks != [] && forall k | k in ks :: k in v.fields
    ensures Members(v, ks, false) == "," + Members(v, ks, true)
  {
    Commas(Quote(ks[0]) + ":", Canon(v.fields[ks[0]]), Members(v, ks[1..], false));
  }

  lemma Commas(a: string, b: string, c: string)
    ensures ("," + a) + b + c == "," + (("" + a) + b + c)
  {
  }

  lemma {:induction false} MembersApart(v: Json, ks: seq<string>, x: string)
    requires v.Obj? && ks != [] && forall k | k in ks :: k in v.fields
    ensures Members(v, ks, true) + "}" + x
         == Quote(ks[0]) + (":" + (Canon(v.fields[ks[0]]) + if |ks| == 1 then "}" + x else "," + (Members(v, ks[1..], true) + "}" + x)))
  {
    var rest := ks[1..];
    MembersStep(v, ks, true, x);
    Led("", Quote(ks[0]), ":" + (Canon(v.fields[ks[0]]) + (Members(v, rest, false) + "}" + x)));
    if rest == [] {
      Led("", "}", x);
    } else {
      MembersLed(v, rest);
      Regroup(",", Members(v, rest, true), "}", x);
    }
  }

  lemma Wrapped(open: char, body: string, close: string, x: string)
    ensures var s := ([open] + body + close) + x; s[0] == open && s[1..] == body + close + x
  {
  }

  lemma {:induction false} MemberReads(v: Json, k: string, y: string) returns (m: Member)
    requires v.Obj? && k in v.fields && Numbers(v.fields[k]) && Ends(y)
    ensures OneMember(Quote(k) + (":" + (Canon(v.fields[k]) + y))) == Some((m, y))
    ensures m.key == k && Meaning(m.value) == v.fields[k] && Ascends(m.value)
    decreases v, 0, 0
  {
    var d := ReadsBack(v.fields[k], y);
    QuoteReads(k, ":" + (Canon(v.fields[k]) + y));
    assert (":" + (Canon(v.fields[k]) + y))[1..] == Canon(v.fields[k]) + y;
    m := Member(k, d);
  }

  /** Members as read: the keys in order, and their values. */
  ghost predicate Right(v: Json, ks: seq<string>, ms: seq<Member>)
    requires v.Obj?
  {
    |ms| == |ks| && forall i | 0 <= i < |ks| :: ms[i].key == ks[i] && ks[i] in v.fields && Meaning(ms[i].value) == v.fields[ks[i]] && Ascends(ms[i].value)
  }

  lemma {:induction false} MembersRead(v: Json, ks: seq<string>, x: string) returns (ms: seq<Member>)
    requires v.Obj? && Numbers(v) && ks != [] && forall k | k in ks :: k in v.fields
    ensures MembersRest(Members(v, ks, true) + "}" + x) == Some((ms, x)) && Right(v, ks, ms)
    decreases v, 1, |ks|
  {
    var s := Members(v, ks, true) + "}" + x;
    MembersApart(v, ks, x);
    if |ks| == 1 {
      var m := MemberReads(v, ks[0], "}" + x);
      ms := [m];
      LastMember(s, m, x);
    } else {
      var y := Members(v, ks[1..], true) + "}" + x;
      var m := MemberReads(v, ks[0], "," + y);
      var rest := MembersRead(v, ks[1..], x);
      ms := [m] + rest;
      NextMember(s, m, y, rest, x);
    }
  }

  lemma {:induction false} FieldsAre(v: Json, ks: seq<string>, ms: seq<Member>, n: nat)
    requires v.Obj? && Right(v, ks, ms) && n <= |ks|
    ensures forall k :: k in FieldsOf(ms[..n]) <==> k in ks[..n]
    ensures forall k | k in ks[..n] :: k in FieldsOf(ms[..n]) && FieldsOf(ms[..n])[k] == v.fields[k]
    decreases n
  {
    if n > 0 {
      FieldsAre(v, ks, ms, n - 1);
      assert ms[..n][..n - 1] == ms[..n - 1] && ks[..n] == ks[..n - 1] + [ks[n - 1]];
    }
  }

  lemma {:induction false} MembersBegin(v: Json, ks: seq<string>, x: string)
    requires v.Obj? && ks != [] && forall k | k in ks :: k in v.fields
    ensures var s := Members(v, ks, true) + "}" + x; s != "" && s[0] == '"'
  {
    MembersApart(v, ks, x);
  }

  /** The members of an object, all of them, are the object. */
  lemma AllFields(v: Json, ks: seq<string>, ms: seq<Member>)
    requires v.Obj? && Right(v, ks, ms) && StrictlySorted(ks) && ToSet(ks) == v.fields.Keys
    ensures Meaning(DObj(ms)) == v && Ascends(DObj(ms))
  {
    FieldsAre(v, ks, ms, |ks|);
    assert ms[..|ks|] == ms && ks[..|ks|] == ks;
    assert forall k :: k in ks <==> k in ToSet(ks);
    assert FieldsOf(ms) == v.fields;
  }

  lemma {:induction false} ObjReads(v: Json, x: string) returns (d: Doc)
    requires v.Obj? && Numbers(v)
    ensures Value(Canon(v) + x) == Some((d, x)) && Meaning(d) == v && Ascends(d)
    decreases v, 2, 0
  {
    var ks := Sorted(v.fields.Keys);
    var s := Canon(v) + x;
    assert forall k | k in ks :: k in ToSet(ks);
    Wrapped('{', Members(v, ks, true), "}", x);
    if ks == [] {
      EmptyOnes(x);
      d := DObj([]);
      AllFields(v, [], []);
      assert Canon(v) == "{}";
    } else {
      var ms := MembersRead(v, ks, x);
      MembersBegin(v, ks, x);
      assert s[1] == s[1..][0] == '"';
      ObjectRest(s, ms, x);
      AllFields(v, ks, ms);
      d := DObj(ms);
    }
  }

  lemma {:induction false} ItemsBegin(items: seq<Json>, x: string)
    requires items != [] && forall v | v in items :: Numbers(v)
    ensures var s := Items(items, true) + "]" + x; s != "" && s[0] != ']'
  {
    ItemsApart(items, x);
    assert items[0] in items;
    if items[0].Num? { NumberReads(items[0].digits, ""); }
  }

  lemma {:induction false} ArrReads(v: Json, x: string) returns (d: Doc)
    requires v.Arr? && Numbers(v)
    ensures Value(Canon(v) + x) == Some((d, x)) && Meaning(d) == v && Ascends(d)
    decreases v, 2, 0
  {
    var s := Canon(v) + x;
    Wrapped('[', Items(v.items, true), "]", x);
    if v.items == [] {
      EmptyOnes(x);
      d := DArr([]);
      assert Canon(v) == "[]";
    } else {
      var ds := ItemsRead(v.items, x);
      ItemsBegin(v.items, x);
      assert s[1] == s[1..][0];
      ArrayRest(s, ds, x);
      d := DArr(ds);
    }
  }

  /** The canonical text of any value, in front of what may follow it, reads back as the value and leaves what follows; it has no
      white space between tokens, which the reader would refuse, and its keys ascend. */
  lemma {:induction false} ReadsBack(v: Json, x: string) returns (d: Doc)
    requires Numbers(v) && Ends(x)
    ensures Value(Canon(v) + x) == Some((d, x)) && Meaning(d) == v && Ascends(d)
    decreases v, 3, 0
  {
    match v
    case Str(t) => StrReads(t, x); d := DStr(t);
    case Arr(_) => d := ArrReads(v, x);
    case Obj(_) => d := ObjReads(v, x);
    case Null => ScalarReads(v, x); d := DNull;
    case Bool(b) => ScalarReads(v, x); d := DBool(b);
    case Num(t) => ScalarReads(v, x); d := DNum(t);
  }
}
