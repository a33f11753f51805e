/** Deciding whether an `expose` pattern can hit an OpenAPI path. */
module Routes {
  // ---------- paths and their segments ----------

  function Split(s: string): (segs: seq<string>)
    ensures segs != []
  {
    if s == "" then [""]
    else if s[0] == '/' then [""] + Split(s[1..])
    else var rest := Split(s[1..]); [[s[0]] + rest[0]] + rest[1..]
  }

  function Join(segs: seq<string>): string
    requires segs != []
  {
    if |segs| == 1 then segs[0] else segs[0] + "/" + Join(segs[1..])
  }

  predicate SlashFree(segs: seq<string>) {
    forall i | 0 <= i < |segs| :: '/' !in segs[i]
  }

  lemma {:induction false} SplitSlashFree(s: string)
    ensures SlashFree(Split(s))
  {
    if s != "" { SplitSlashFree(s[1..]); }
  }

  /** A segment, then what follows the next slash. */
  lemma {:induction false} SplitAt(seg: string, rest: string)
    requires '/' !in seg
    ensures Split(seg + "/" + rest) == [seg] + Split(rest)
    ensures Split(seg) == [seg]
  {
    if seg == "" {
      assert seg + "/" + rest == "/" + rest && ("/" + rest)[1..] == rest;
    } else {
      SplitAt(seg[1..], rest);
      assert (seg + "/" + rest)[1..] == seg[1..] + "/" + rest;
      assert seg == [seg[0]] + seg[1..];
    }
  }

  lemma {:induction false} SplitJoin(segs: seq<string>)
    requires segs != [] && SlashFree(segs)
    ensures Split(Join(segs)) == segs
  {
    if |segs| == 1 {
      SplitAt(segs[0], "");
    } else {
      SplitAt(segs[0], Join(segs[1..]));
      SplitJoin(segs[1..]);
      assert segs == [segs[0]] + segs[1..];
    }
  }

  // ---------- string prefixes are segment prefixes ----------

  /** All segments but the last agree, and the last is a prefix of the one it lands on. */
  ghost predicate SegPrefix(p: seq<string>, q: seq<string>)
    requires p != []
  {
    |p| <= |q| && p[..|p| - 1] == q[..|p| - 1] && p[|p| - 1] <= q[|p| - 1]
  }

  lemma {:induction false} PrefixSegments(p: string, q: string)
    ensures p <= q <==> SegPrefix(Split(p), Split(q))
  {
    var sp, sq := Split(p), Split(q);
    if p == "" {
      assert sp[..0] == sq[..0];
    } else if q == "" {
      assert sq == [""];
      assert p[0] == '/' ==> |sp| > 1;
      assert p[0] != '/' ==> sp[0] != "";
      if |sp| == 1 { assert !(sp[0] <= ""); }
    } else {
      PrefixSegments(p[1..], q[1..]);
      assert p <= q <==> p[0] == q[0] && p[1..] <= q[1..];
      HeadStep(p, q);
    }
  }

  lemma {:induction false} HeadStep(p: string, q: string)
    requires p != "" && q != ""
    ensures SegPrefix(Split(p), Split(q)) <==> p[0] == q[0] && SegPrefix(Split(p[1..]), Split(q[1..]))
  {
    var tp, tq := Split(p[1..]), Split(q[1..]);
    if p[0] == '/' && q[0] == '/' {
      SlashStep(tp, tq);
    } else if p[0] == '/' {
      SlashAgainst(tp, Split(q));
    } else if q[0] == '/' {
      AgainstSlash(Split(p), tq);
    } else {
      InnerStep(p[0], q[0], tp, tq);
    }
  }

  lemma SlashStep(tp: seq<string>, tq: seq<string>)
    requires tp != [] && tq != []
    ensures SegPrefix([""] + tp, [""] + tq) <==> SegPrefix(tp, tq)
  {
    var n := |tp| - 1;
    assert ([""] + tp)[..n + 1] == [""] + tp[..n];
    if |tp| <= |tq| {
      assert ([""] + tq)[..n + 1] == [""] + tq[..n];
      HeadAgree("", tp[..n], "", tq[..n]);
    }
  }

  lemma SlashAgainst(tp: seq<string>, sq: seq<string>)
    requires tp != [] && sq != [] && sq[0] != ""
    ensures !SegPrefix([""] + tp, sq)
  {
    var sp := [""] + tp;
    assert |sp| <= |sq| ==> sp[..|sp| - 1][0] == "" && sq[..|sp| - 1][0] == sq[0];
  }

  lemma AgainstSlash(sp: seq<string>, tq: seq<string>)
    requires sp != [] && tq != [] && sp[0] != ""
    ensures !SegPrefix(sp, [""] + tq)
  {
    var sq := [""] + tq;
    assert |sp| > 1 && |sp| <= |sq| ==> sp[..|sp| - 1][0] == sp[0] && sq[..|sp| - 1][0] == "";
  }

  lemma HeadAgree(a: string, x: seq<string>, b: string, y: seq<string>)
    ensures [a] + x == [b] + y <==> a == b && x == y
  {
    assert ([a] + x)[0] == a && ([b] + y)[0] == b && ([a] + x)[1..] == x && ([b] + y)[1..] == y;
  }

  lemma InnerStep(c: char, d: char, tp: seq<string>, tq: seq<string>)
    requires tp != [] && tq != []
    ensures SegPrefix([[c] + tp[0]] + tp[1..], [[d] + tq[0]] + tq[1..]) <==> c == d && SegPrefix(tp, tq)
  {
    var sp, sq := [[c] + tp[0]] + tp[1..], [[d] + tq[0]] + tq[1..];
    if |tp| == 1 {
      assert sp == [[c] + tp[0]] && sp[..0] == sq[..0] && tp[..0] == tq[..0];
      assert [c] + tp[0] <= [d] + tq[0] <==> c == d && tp[0] <= tq[0];
    } else if |tp| <= |tq| {
      var n := |tp| - 1;
      assert sp[..n] == [[c] + tp[0]] + tp[1..n] && sq[..n] == [[d] + tq[0]] + tq[1..n];
      assert tp[..n] == [tp[0]] + tp[1..n] && tq[..n] == [tq[0]] + tq[1..n];
      HeadAgree([c] + tp[0], tp[1..n], [d] + tq[0], tq[1..n]);
      HeadAgree(tp[0], tp[1..n], tq[0], tq[1..n]);
      assert [c] + tp[0] == [d] + tq[0] <==> c == d && tp[0] == tq[0] by {
        assert ([c] + tp[0])[0] == c && ([d] + tq[0])[0] == d && ([c] + tp[0])[1..] == tp[0] && ([d] + tq[0])[1..] == tq[0];
      }
      assert sp[n] == tp[n] && sq[n] == tq[n];
    }
  }

  // ---------- what requests each side matches ----------

  predicate IsParam(s: string) {
    s != "" && s[0] == '{' && s[|s| - 1] == '}'
  }

  /** A path template: a `{param}` stands for any non-empty segment, any other segment for itself. */
  predicate SpecMatches(spec: string, request: string) {
    var s, q := Split(spec), Split(request);
    |s| == |q| && forall i | 0 <= i < |s| :: if IsParam(s[i]) then q[i] != "" else q[i] == s[i]
  }

  predicate Wildcard(pattern: string) {
    pattern != "" && pattern[|pattern| - 1] == '*'
  }

  /** A route pattern: a trailing `*` stands for any rest. */
  predicate PatternMatches(pattern: string, request: string) {
    if Wildcard(pattern) then pattern[..|pattern| - 1] <= request else pattern == request
  }

  // ---------- the decision ----------

  predicate SegEq(s: string, p: string) {
    s == p || (IsParam(s) && p != "")
  }

  predicate Overlaps(pattern: string, specPath: string) {
    var prefix := if Wildcard(pattern) then pattern[..|pattern| - 1] else pattern;
    var spec, pat := Split(specPath), Split(prefix);
    if !Wildcard(pattern) then |spec| == |pat| && forall i | 0 <= i < |spec| :: SegEq(spec[i], pat[i])
    else if |pat| > |spec| then false
    else
      var last := |pat| - 1;
      forall i | 0 <= i <= last :: if i < last then SegEq(spec[i], pat[i]) else IsParam(spec[i]) || pat[i] <= spec[i]
  }

  /** A request that the pattern's prefix leads to and the path template accepts. */
  function Meeting(spec: seq<string>, pat: seq<string>): seq<string>
    requires pat != [] && |pat| <= |spec|
  {
    seq(|spec|, i requires 0 <= i < |spec| =>
      if i < |pat| - 1 then pat[i]
      else if i == |pat| - 1 && IsParam(spec[i]) then pat[i] + "x"
      else if IsParam(spec[i]) then "x"
      else spec[i])
  }

  lemma MeetingSlashFree(spec: seq<string>, pat: seq<string>)
    requires pat != [] && |pat| <= |spec| && SlashFree(spec) && SlashFree(pat)
    ensures SlashFree(Meeting(spec, pat))
  {
    forall i | 0 <= i < |spec| ensures '/' !in Meeting(spec, pat)[i] {
      assert '/' !in spec[i];
      if i < |pat| { assert '/' !in pat[i]; }
    }
  }

  lemma MeetingFits(spec: seq<string>, pat: seq<string>)
    requires pat != [] && |pat| <= |spec|
    requires forall i | 0 <= i < |pat| :: if i < |pat| - 1 then SegEq(spec[i], pat[i]) else IsParam(spec[i]) || pat[i] <= spec[i]
    ensures var q := Meeting(spec, pat);
      && SegPrefix(pat, q)
      && forall i | 0 <= i < |spec| :: if IsParam(spec[i]) then q[i] != "" else q[i] == spec[i]
  {
    var q, last := Meeting(spec, pat), |pat| - 1;
    assert pat[..last] == q[..last];
    forall i | 0 <= i < |spec| ensures if IsParam(spec[i]) then q[i] != "" else q[i] == spec[i] {
      if i < last { assert SegEq(spec[i], pat[i]); }
    }
  }

  lemma {:induction false} MeetingMatches(pattern: string, specPath: string)
    requires Wildcard(pattern) && Overlaps(pattern, specPath)
    ensures var q := Join(Meeting(Split(specPath), Split(pattern[..|pattern| - 1])));
      PatternMatches(pattern, q) && SpecMatches(specPath, q)
  {
    var prefix := pattern[..|pattern| - 1];
    var spec, pat := Split(specPath), Split(prefix);
    SplitSlashFree(specPath);
    SplitSlashFree(prefix);
    MeetingSlashFree(spec, pat);
    SplitJoin(Meeting(spec, pat));
    MeetingFits(spec, pat);
    PrefixSegments(prefix, Join(Meeting(spec, pat)));
  }

  /** The decision is exact: it holds when, and only when, some request is matched by both sides. */
  lemma OverlapExact(pattern: string, specPath: string)
    ensures Overlaps(pattern, specPath) <==> exists request :: PatternMatches(pattern, request) && SpecMatches(specPath, request)
  {
    if Wildcard(pattern) {
      if Overlaps(pattern, specPath) { MeetingMatches(pattern, specPath); }
      forall request | PatternMatches(pattern, request) && SpecMatches(specPath, request) ensures Overlaps(pattern, specPath) {
        RequestShowsOverlap(pattern, specPath, request);
      }
    } else {
      assert PatternMatches(pattern, pattern);
      ExactOverlap(pattern, specPath);
    }
  }

  lemma ExactOverlap(pattern: string, specPath: string)
    requires !Wildcard(pattern)
    ensures Overlaps(pattern, specPath) <==> SpecMatches(specPath, pattern)
  {
  }

  lemma RequestShowsOverlap(pattern: string, specPath: string, request: string)
    requires Wildcard(pattern) && PatternMatches(pattern, request) && SpecMatches(specPath, request)
    ensures Overlaps(pattern, specPath)
  {
    var prefix := pattern[..|pattern| - 1];
    PrefixSegments(prefix, request);
    var spec, pat, q := Split(specPath), Split(prefix), Split(request);
    forall i | 0 <= i < |pat| - 1 ensures SegEq(spec[i], pat[i]) {
      assert pat[..|pat| - 1][i] == q[..|pat| - 1][i];
    }
  }
}
