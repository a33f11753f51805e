/** Reading JSON text by sections 2 to 7 of RFC 8259, without any white space between tokens. */
module JsonText {
  import opened Options

  /** A text as it stands: members in their order. */
  datatype Doc =
    | DNull
    | DBool(b: bool)
    | DNum(text: string)
    | DStr(s: string)
    | DArr(items: seq<Doc>)
    | DObj(members: seq<Member>)

  datatype Member = Member(key: string, value: Doc)

  // ---------- numbers: section 6 ----------

  predicate Digit(c: char) { '0' <= c <= '9' }

  /** Behind the digits that begin at `i`. */
  function Digits(s: string, i: nat): (j: nat)
    requires i <= |s|
    ensures i <= j <= |s|
    decreases |s| - i
  {
    if i < |s| && Digit(s[i]) then Digits(s, i + 1) else i
  }

  /** At least one digit. */
  function Digits1(s: string, i: nat): (r: Option<nat>)
    requires i <= |s|
    ensures r.Some? ==> i < r.value <= |s|
  {
    if Digits(s, i) > i then Some(Digits(s, i)) else None
  }

  /** `0`, or digits that do not begin with one. */
  function IntPart(s: string, i: nat): (r: Option<nat>)
    requires i <= |s|
    ensures r.Some? ==> i < r.value <= |s|
  {
    if i < |s| && s[i] == '0' then Some(i + 1) else Digits1(s, i)
  }

  function FracPart(s: string, i: nat): (r: Option<nat>)
    requires i <= |s|
    ensures r.Some? ==> i <= r.value <= |s|
  {
    if i < |s| && s[i] == '.' then Digits1(s, i + 1) else Some(i)
  }

  function ExpPart(s: string, i: nat): (r: Option<nat>)
    requires i <= |s|
    ensures r.Some? ==> i <= r.value <= |s|
  {
    if i < |s| && (s[i] == 'e' || s[i] == 'E') then
      Digits1(s, if i + 1 < |s| && (s[i + 1] == '+' || s[i + 1] == '-') then i + 2 else i + 1)
    else Some(i)
  }

  /** Behind the number the text begins with. */
  function NumberEnd(s: string): (r: Option<nat>)
    ensures r.Some? ==> 0 < r.value <= |s|
  {
    var int_ := IntPart(s, if s != "" && s[0] == '-' then 1 else 0);
    if int_.None? then None
    else
      var frac := FracPart(s, int_.value);
      if frac.None? then None else ExpPart(s, frac.value)
  }

  predicate IsNumber(t: string) { NumberEnd(t) == Some(|t|) }

  // ---------- strings: section 7 ----------

  function HexValue(c: char): Option<nat> {
    if '0' <= c <= '9' then Some(c as int - '0' as int)
    else if 'a' <= c <= 'f' then Some(c as int - 'a' as int + 10)
    else if 'A' <= c <= 'F' then Some(c as int - 'A' as int + 10)
    else None
  }

  /** The code unit of `uXXXX`. */
  function Unit(s: string): (r: Option<nat>)
    ensures r.Some? ==> |s| >= 5 && r.value < 0x1_0000
  {
    if |s| < 5 || s[0] != 'u' then None
    else
      var a, b, c, d := HexValue(s[1]), HexValue(s[2]), HexValue(s[3]), HexValue(s[4]);
      if a.None? || b.None? || c.None? || d.None? then None
      else Some(((a.value * 16 + b.value) * 16 + c.value) * 16 + d.value)
  }

  /** What follows a backslash; two units can make one character. */
  function Escaped(s: string): (r: Option<(char, string)>)
    ensures r.Some? ==> |r.value.1| < |s|
  {
    if s == "" then None
    else if s[0] in "\"\\/" then Some((s[0], s[1..]))
    else if s[0] == 'b' then Some((8 as char, s[1..]))
    else if s[0] == 'f' then Some((12 as char, s[1..]))
    else if s[0] == 'n' then Some(('\n', s[1..]))
    else if s[0] == 'r' then Some(('\r', s[1..]))
    else if s[0] == 't' then Some(('\t', s[1..]))
    else
      var high := Unit(s);
      if high.None? then None
      else if high.value < 0xD800 || high.value >= 0xE000 then Some((high.value as char, s[5..]))
      else
        var low := if |s| > 5 && s[5] == '\\' then Unit(s[6..]) else None;
        if high.value < 0xDC00 && low.Some? && 0xDC00 <= low.value < 0xE000
        then Some(((0x1_0000 + (high.value - 0xD800) * 0x400 + (low.value - 0xDC00)) as char, s[11..]))
        else None
  }

  /** Up to the closing quote. */
  function StringRest(s: string): (r: Option<(string, string)>)
    ensures r.Some? ==> |r.value.1| < |s|
    decreases |s|
  {
    if s == "" || s[0] as int < 0x20 then None
    else if s[0] == '"' then Some(("", s[1..]))
    else
      var first := if s[0] == '\\' then Escaped(s[1..]) else Some((s[0], s[1..]));
      if first.None? then None
      else
        var rest := StringRest(first.value.1);
        if rest.None? then None else Some(([first.value.0] + rest.value.0, rest.value.1))
  }

  // ---------- values: sections 3 to 5 ----------

  function Value(s: string): (r: Option<(Doc, string)>)
    ensures r.Some? ==> |r.value.1| < |s|
    decreases |s|, 0
  {
    if "null" <= s then Some((DNull, s[4..]))
    else if "true" <= s then Some((DBool(true), s[4..]))
    else if "false" <= s then Some((DBool(false), s[5..]))
    else if s == "" then None
    else if s[0] == '"' then
      var t := StringRest(s[1..]);
      if t.None? then None else Some((DStr(t.value.0), t.value.1))
    else if s[0] == '[' then
      if "[]" <= s then Some((DArr([]), s[2..]))
      else
        var items := ItemsRest(s[1..]);
        if items.None? then None else Some((DArr(items.value.0), items.value.1))
    else if s[0] == '{' then
      if "{}" <= s then Some((DObj([]), s[2..]))
      else
        var members := MembersRest(s[1..]);
        if members.None? then None else Some((DObj(members.value.0), members.value.1))
    else
      var n := NumberEnd(s);
      if n.None? then None else Some((DNum(s[..n.value]), s[n.value..]))
  }

  /** Values with commas between, up to the closing bracket. */
  function ItemsRest(s: string): (r: Option<(seq<Doc>, string)>)
    ensures r.Some? ==> |r.value.1| < |s|
    decreases |s|, 1
  {
    var v := Value(s);
    if v.None? || v.value.1 == "" then None
    else if v.value.1[0] == ']' then Some(([v.value.0], v.value.1[1..]))
    else if v.value.1[0] == ',' then
      var rest := ItemsRest(v.value.1[1..]);
      if rest.None? then None else Some(([v.value.0] + rest.value.0, rest.value.1))
    else None
  }

  function OneMember(s: string): (r: Option<(Member, string)>)
    ensures r.Some? ==> |r.value.1| < |s|
    decreases |s|, 1
  {
    if s == "" || s[0] != '"' then None
    else
      var k := StringRest(s[1..]);
      if k.None? || k.value.1 == "" || k.value.1[0] != ':' then None
      else
        var v := Value(k.value.1[1..]);
        if v.None? then None else Some((Member(k.value.0, v.value.0), v.value.1))
  }

  /** Members with commas between, up to the closing brace. */
  function MembersRest(s: string): (r: Option<(seq<Member>, string)>)
    ensures r.Some? ==> |r.value.1| < |s|
    decreases |s|, 2
  {
    var m := OneMember(s);
    if m.None? || m.value.1 == "" then None
    else if m.value.1[0] == '}' then Some(([m.value.0], m.value.1[1..]))
    else if m.value.1[0] == ',' then
      var rest := MembersRest(m.value.1[1..]);
      if rest.None? then None else Some(([m.value.0] + rest.value.0, rest.value.1))
    else None
  }
}
