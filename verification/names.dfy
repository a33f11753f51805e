/** Strings in byte order, as Rust compares them (UTF-8 keeps the order of code points), and the one
    way to list a set of strings in that order. */
module Names {
  predicate Less(a: string, b: string) {
    b != "" && (a == "" || a[0] < b[0] || (a[0] == b[0] && Less(a[1..], b[1..])))
  }

  lemma SameFirst(a: string, b: string, i: nat)
    requires i <= |a| && i <= |b| && a[..i] == b[..i]
    ensures i > 0 ==> a[0] == b[0]
  {
    if i > 0 { assert a[..i][0] == a[0] && b[..i][0] == b[0]; }
  }

  /** The order: a proper prefix comes first, else the first difference decides. */
  lemma {:induction false} LessIs(a: string, b: string)
    ensures Less(a, b) <==> exists i :: 0 <= i <= |a| && i < |b| && a[..i] == b[..i] && (i == |a| || a[i] < b[i])
  {
    if a != "" && b != "" && a[0] == b[0] {
      LessIs(a[1..], b[1..]);
      if i :| 0 <= i <= |a[1..]| && i < |b[1..]| && a[1..][..i] == b[1..][..i] && (i == |a[1..]| || a[1..][i] < b[1..][i]) {
        assert a[..i + 1] == [a[0]] + a[1..][..i] && b[..i + 1] == [b[0]] + b[1..][..i];
        assert i + 1 == |a| || a[i + 1] < b[i + 1];
      }
      if i :| 0 <= i <= |a| && i < |b| && a[..i] == b[..i] && (i == |a| || a[i] < b[i]) {
        assert i > 0;
        assert a[1..][..i - 1] == a[..i][1..] && b[1..][..i - 1] == b[..i][1..];
        assert i - 1 == |a[1..]| || a[1..][i - 1] < b[1..][i - 1];
      }
    } else if b != "" {
      assert a[..0] == b[..0];
      forall i: nat | i <= |a| && i < |b| && a[..i] == b[..i] ensures i == 0 { SameFirst(a, b, i); }
    }
  }

  lemma {:induction false} LessTrans(a: string, b: string, c: string)
    requires Less(a, b) && Less(b, c)
    ensures Less(a, c)
  {
    if a != "" && a[0] == b[0] == c[0] {
      LessTrans(a[1..], b[1..], c[1..]);
    }
  }

  lemma {:induction false} LessTotal(a: string, b: string)
    ensures a == b || Less(a, b) || Less(b, a)
  {
    if a != "" && b != "" && a[0] == b[0] {
      LessTotal(a[1..], b[1..]);
      assert a == [a[0]] + a[1..] && b == [b[0]] + b[1..];
    }
  }

  lemma {:induction false} LessAsym(a: string, b: string)
    requires Less(a, b)
    ensures a != b && !Less(b, a)
  {
    if a != "" && a[0] == b[0] {
      LessAsym(a[1..], b[1..]);
    }
  }

  predicate StrictlySorted(ks: seq<string>) {
    forall i, j | 0 <= i < j < |ks| :: Less(ks[i], ks[j])
  }

  ghost function ToSet(ks: seq<string>): set<string> {
    set k | k in ks
  }

  predicate IsLeast(m: string, s: set<string>) {
    m in s && forall k | k in s :: k == m || Less(m, k)
  }

  lemma {:induction false} LeastExists(s: set<string>)
    requires s != {}
    ensures exists m :: IsLeast(m, s)
  {
    var x :| x in s;
    if s == {x} {
      assert IsLeast(x, s);
    } else {
      LeastExists(s - {x});
      var m :| IsLeast(m, s - {x});
      LessTotal(x, m);
      if Less(x, m) {
        LeastOfTwo(x, m, s);
        assert IsLeast(x, s);
      } else {
        assert IsLeast(m, s);
      }
    }
  }

  lemma {:induction false} LeastOfTwo(x: string, m: string, s: set<string>)
    requires x in s && IsLeast(m, s - {x}) && Less(x, m)
    ensures IsLeast(x, s)
  {
    forall k | k in s - {x} - {m} ensures Less(x, k) { LessTrans(x, m, k); }
  }

  ghost function Sorted(s: set<string>): (ks: seq<string>)
    ensures StrictlySorted(ks) && ToSet(ks) == s
  {
    if s == {} then []
    else
      LeastExists(s);
      var m :| IsLeast(m, s);
      assert forall k | k in s - {m} :: Less(m, k);
      var rest := Sorted(s - {m});
      assert forall k | k in rest :: k in ToSet(rest);
      assert ToSet([m] + rest) == {m} + ToSet(rest);
      [m] + rest
  }

  lemma {:induction false} SortedOnce(a: seq<string>, b: seq<string>)
    requires StrictlySorted(a) && StrictlySorted(b) && ToSet(a) == ToSet(b)
    ensures a == b
  {
    NoneIfEmpty(a);
    NoneIfEmpty(b);
    if a != [] {
      assert a[0] in ToSet(b) && b[0] in ToSet(a);
      SameHead(a, b);
      forall k ensures k in ToSet(a[1..]) <==> k in ToSet(b[1..]) {
        TailOf(a, k);
        TailOf(b, k);
      }
      SortedOnce(a[1..], b[1..]);
      assert a == [a[0]] + a[1..] && b == [b[0]] + b[1..];
    }
  }

  lemma NoneIfEmpty(a: seq<string>)
    ensures a == [] <==> ToSet(a) == {}
  {
    if a != [] { assert a[0] in ToSet(a); }
  }

  lemma SameHead(a: seq<string>, b: seq<string>)
    requires StrictlySorted(a) && StrictlySorted(b) && a != [] && b != [] && a[0] in b && b[0] in a
    ensures a[0] == b[0]
  {
    if a[0] != b[0] {
      LessAsym(a[0], b[0]);
    }
  }

  lemma TailOf(a: seq<string>, k: string)
    requires StrictlySorted(a) && a != []
    ensures k in ToSet(a[1..]) <==> k in ToSet(a) && k != a[0]
  {
    if k in a[1..] {
      LessAsym(a[0], k);
    }
    assert a == [a[0]] + a[1..];
  }

  /** Keys collected and sorted. */
  method Sort(s: set<string>) returns (ks: seq<string>)
    ensures ks == Sorted(s)
  {
    ks := [];
    var rest := s;
    while rest != {}
      invariant rest <= s && rest + ToSet(ks) == s && StrictlySorted(ks)
      invariant forall k, l | k in ks && l in rest :: Less(k, l)
    {
      LeastExists(rest);
      var m :| m in rest && IsLeast(m, rest);
      rest := rest - {m};
      ks := ks + [m];
      assert ToSet(ks) == ToSet(ks[..|ks| - 1]) + {m};
    }
    SortedOnce(ks, Sorted(s));
  }
}
