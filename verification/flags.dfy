/** Feature flags: evaluating the rules, editing them, and what an edit can change for whom. */
module Flags {
  import opened Options

  /** A rule as the evaluator reads it; a missing or ill-typed field is `None`, an entry of `users` that is not a
      string is `None`. */
  datatype Rule = Rule(
    kind: Option<string>,
    variant: Option<string>,
    users: Option<seq<Option<string>>>,
    percent: Option<int>,
    priority: Option<int>)

  const ALLOWLIST := "allowlist"
  const ROLLOUT := "rollout"
  const PRIORITY_ALLOWLIST: int := 10
  const PRIORITY_ROLLOUT: int := 50

  function Priority(r: Rule): int {
    if r.priority.Some? then r.priority.value else 100
  }

  /** A user as a flag's hash sees them: the bucket in 0..99 is whatever the hash gives for the flag's key. */
  datatype User = User(id: string, bucket: int)

  predicate Hits(r: Rule, u: User) {
    && r.variant.Some?
    && if r.kind == Some(ALLOWLIST) then r.users.Some? && Some(u.id) in r.users.value
       else r.kind == Some(ROLLOUT) && r.percent.Some? && r.percent.value > 0 && u.bucket < r.percent.value
  }

  // ---------- the evaluator ----------

  /** Stable: behind every rule whose priority is not larger. */
  function Insert(r: Rule, rules: seq<Rule>): seq<Rule> {
    if rules == [] || Priority(r) < Priority(rules[0]) then [r] + rules else [rules[0]] + Insert(r, rules[1..])
  }

  function SortRules(rules: seq<Rule>): seq<Rule> {
    if rules == [] then [] else Insert(rules[|rules| - 1], SortRules(rules[..|rules| - 1]))
  }

  function FirstHit(rules: seq<Rule>, u: User): Option<string> {
    if rules == [] then None
    else if Hits(rules[0], u) then rules[0].variant
    else FirstHit(rules[1..], u)
  }

  datatype Payload = PNull | PValue(text: string)

  datatype Flag = Flag(
    defaultVariant: Option<string>,
    enabled: Option<bool>,
    payloads: Option<map<string, Payload>>,
    rules: Option<seq<Rule>>)

  function Default(f: Flag): string {
    if f.defaultVariant.Some? then f.defaultVariant.value else "off"
  }

  function RulesOf(f: Flag): seq<Rule> {
    if f.rules.Some? then f.rules.value else []
  }

  function Resolve(f: Flag, variant: string): Option<Payload> {
    if f.payloads.Some? && variant in f.payloads.value then Some(f.payloads.value[variant]) else None
  }

  function EvaluateOne(f: Flag, u: User): (string, Option<Payload>) {
    if f.enabled == Some(false) then (Default(f), Resolve(f, Default(f)))
    else
      var hit := FirstHit(SortRules(RulesOf(f)), u);
      var variant := if hit.Some? then hit.value else Default(f);
      (variant, Resolve(f, variant))
  }

  // ---------- what evaluation means ----------

  type Choice = Option<(int, string)>

  /** A hitting rule against the best of the rules behind it: only a strictly smaller priority beats it. */
  function Against(rest: Choice, r: Rule, u: User): Choice {
    if Hits(r, u) && !(rest.Some? && rest.value.0 < Priority(r)) then Some((Priority(r), r.variant.value)) else rest
  }

  /** The earliest hitting rule of least priority. */
  function Best(rules: seq<Rule>, u: User): Choice {
    if rules == [] then None else Against(Best(rules[1..], u), rules[0], u)
  }

  function VariantOf(c: Choice): Option<string> {
    if c.Some? then Some(c.value.1) else None
  }

  predicate SortedRules(rules: seq<Rule>) {
    forall i, j | 0 <= i < j < |rules| :: Priority(rules[i]) <= Priority(rules[j])
  }

  /** A rule behind all others wins only against strictly larger priorities. */
  function Behind(best: Choice, r: Rule, u: User): Choice {
    if Hits(r, u) && !(best.Some? && best.value.0 <= Priority(r)) then Some((Priority(r), r.variant.value)) else best
  }

  lemma {:induction false} BestSnoc(rules: seq<Rule>, r: Rule, u: User)
    ensures Best(rules + [r], u) == Behind(Best(rules, u), r, u)
  {
    if rules == [] {
      assert rules + [r] == [r];
    } else {
      assert (rules + [r])[1..] == rules[1..] + [r];
      BestSnoc(rules[1..], r, u);
    }
  }

  lemma {:induction false} AtLeast(rules: seq<Rule>, u: User, p: int)
    requires forall i | 0 <= i < |rules| :: p <= Priority(rules[i])
    ensures Best(rules, u).Some? ==> Best(rules, u).value.0 >= p
  {
    if rules != [] { AtLeast(rules[1..], u, p); }
  }

  /** Where a stable insertion puts a rule does not matter to the choice. */
  lemma {:induction false} BestAfterInsert(r: Rule, rules: seq<Rule>, u: User)
    requires SortedRules(rules)
    ensures Best(Insert(r, rules), u) == Behind(Best(rules, u), r, u)
  {
    if rules == [] || Priority(r) < Priority(rules[0]) {
      assert ([r] + rules)[1..] == rules;
      AtLeast(rules, u, Priority(r) + 1);
    } else {
      assert ([rules[0]] + Insert(r, rules[1..]))[1..] == Insert(r, rules[1..]);
      BestAfterInsert(r, rules[1..], u);
    }
  }

  lemma {:induction false} InsertSorted(r: Rule, rules: seq<Rule>)
    requires SortedRules(rules)
    ensures SortedRules(Insert(r, rules)) && forall x | x in Insert(r, rules) :: x == r || x in rules
  {
    if rules != [] && Priority(r) >= Priority(rules[0]) {
      InsertSorted(r, rules[1..]);
      var rest := Insert(r, rules[1..]);
      forall j | 0 <= j < |rest| ensures Priority(rules[0]) <= Priority(rest[j]) { assert rest[j] in rest; }
    }
  }

  lemma {:induction false} FirstOfSorted(rules: seq<Rule>, u: User)
    requires SortedRules(rules)
    ensures VariantOf(Best(rules, u)) == FirstHit(rules, u)
  {
    if rules != [] {
      AtLeast(rules[1..], u, Priority(rules[0]));
      FirstOfSorted(rules[1..], u);
    }
  }

  lemma {:induction false} BestOfSorted(rules: seq<Rule>, u: User)
    ensures SortedRules(SortRules(rules)) && Best(SortRules(rules), u) == Best(rules, u)
  {
    if rules != [] {
      var n := |rules| - 1;
      BestOfSorted(rules[..n], u);
      InsertSorted(rules[n], SortRules(rules[..n]));
      BestAfterInsert(rules[n], SortRules(rules[..n]), u);
      BestSnoc(rules[..n], rules[n], u);
      assert rules == rules[..n] + [rules[n]];
    }
  }

  /** Sorting by priority and taking the first match picks the earliest hitting rule of least priority. */
  lemma {:induction false} FirstMatchIsBest(rules: seq<Rule>, u: User)
    ensures FirstHit(SortRules(rules), u) == VariantOf(Best(rules, u))
  {
    BestOfSorted(rules, u);
    FirstOfSorted(SortRules(rules), u);
  }

  // ---------- the edits ----------

  predicate IsAllowlistFor(r: Rule, variant: string) {
    r.kind == Some(ALLOWLIST) && r.variant == Some(variant) && r.users.Some?
  }

  function WithUser(r: Rule, id: string): Rule
    requires r.users.Some?
  {
    if Some(id) in r.users.value then r else r.(users := Some(r.users.value + [Some(id)]))
  }

  function NewAllowlist(variant: string, id: string): Rule {
    Rule(Some(ALLOWLIST), Some(variant), Some([Some(id)]), None, Some(PRIORITY_ALLOWLIST))
  }

  function UpsertAllowlist(rules: seq<Rule>, variant: string, id: string): seq<Rule> {
    if rules == [] then [NewAllowlist(variant, id)]
    else if IsAllowlistFor(rules[0], variant) then [WithUser(rules[0], id)] + rules[1..]
    else [rules[0]] + UpsertAllowlist(rules[1..], variant, id)
  }

  predicate IsRolloutFor(r: Rule, variant: string) {
    r.kind == Some(ROLLOUT) && r.variant == Some(variant)
  }

  function NewRollout(variant: string, percent: int): Rule {
    Rule(Some(ROLLOUT), Some(variant), None, Some(percent), Some(PRIORITY_ROLLOUT))
  }

  function UpsertRollout(rules: seq<Rule>, variant: string, percent: int): seq<Rule> {
    if rules == [] then [NewRollout(variant, percent)]
    else if IsRolloutFor(rules[0], variant) then [rules[0].(percent := Some(percent))] + rules[1..]
    else [rules[0]] + UpsertRollout(rules[1..], variant, percent)
  }

  function Without(users: seq<Option<string>>, id: string): seq<Option<string>> {
    if users == [] then []
    else (if users[0] == Some(id) then [] else [users[0]]) + Without(users[1..], id)
  }

  function UnsetOne(r: Rule, id: string): Rule {
    if r.kind == Some(ALLOWLIST) && r.users.Some? then r.(users := Some(Without(r.users.value, id))) else r
  }

  /** An allowlist without users is removed. */
  predicate Keeps(r: Rule) {
    r.kind == Some(ALLOWLIST) ==> r.users.Some? && r.users.value != []
  }

  function UnsetAll(rules: seq<Rule>, id: string): seq<Rule> {
    if rules == [] then []
    else
      var r := UnsetOne(rules[0], id);
      (if Keeps(r) then [r] else []) + UnsetAll(rules[1..], id)
  }

  predicate Listed(rules: seq<Rule>, id: string) {
    exists i :: 0 <= i < |rules| && rules[i].kind == Some(ALLOWLIST) && rules[i].users.Some? && Some(id) in rules[i].users.value
  }

  /** The rules are written back only when the user was on some allowlist. */
  function Unset(rules: seq<Rule>, id: string): seq<Rule> {
    if Listed(rules, id) then UnsetAll(rules, id) else rules
  }

  // ---------- frames ----------

  lemma {:induction false} WithoutOthers(users: seq<Option<string>>, id: string, other: Option<string>)
    ensures other in Without(users, id) <==> other in users && other != Some(id)
  {
    if users != [] {
      WithoutOthers(users[1..], id, other);
      assert other in users <==> other == users[0] || other in users[1..];
    }
  }

  /** Allowlisting a user changes nobody else's choice. */
  lemma {:induction false} AllowlistFrame(rules: seq<Rule>, variant: string, id: string, w: User)
    requires w.id != id
    ensures Best(UpsertAllowlist(rules, variant, id), w) == Best(rules, w)
  {
    var out := UpsertAllowlist(rules, variant, id);
    if rules == [] {
      assert out[1..] == [];
    } else if IsAllowlistFor(rules[0], variant) {
      assert out[1..] == rules[1..];
      assert Hits(out[0], w) <==> Hits(rules[0], w);
    } else {
      assert out[1..] == UpsertAllowlist(rules[1..], variant, id);
      AllowlistFrame(rules[1..], variant, id, w);
    }
  }

  /** The priority of the rule an allowlist edit touches or adds. */
  function EditedPriority(rules: seq<Rule>, variant: string): int {
    if rules == [] then PRIORITY_ALLOWLIST
    else if IsAllowlistFor(rules[0], variant) then Priority(rules[0])
    else EditedPriority(rules[1..], variant)
  }

  /** The user listed gets the variant unless a rule of smaller priority (or an earlier one of the same) decides. */
  lemma {:induction false} AllowlistSelf(rules: seq<Rule>, variant: string, u: User)
    ensures var before, after, p := Best(rules, u), Best(UpsertAllowlist(rules, variant, u.id), u), EditedPriority(rules, variant);
      && (after == before || after == Some((p, variant)))
      && after.Some? && after.value.0 <= p
      && (before.Some? ==> after.value.0 <= before.value.0)
      && (before.Some? && before.value.0 < p ==> after == before)
      && (before == None || before.value.0 > p ==> after == Some((p, variant)))
  {
    var out := UpsertAllowlist(rules, variant, u.id);
    if rules == [] {
      assert out[1..] == [];
    } else if IsAllowlistFor(rules[0], variant) {
      assert out[1..] == rules[1..];
      assert Hits(out[0], u) && Priority(out[0]) == Priority(rules[0]);
    } else {
      assert out[1..] == UpsertAllowlist(rules[1..], variant, u.id);
      AllowlistSelf(rules[1..], variant, u);
    }
  }

  /** Repeating an allowlist edit changes nothing. */
  lemma {:induction false} AllowlistTwice(rules: seq<Rule>, variant: string, id: string)
    ensures UpsertAllowlist(UpsertAllowlist(rules, variant, id), variant, id) == UpsertAllowlist(rules, variant, id)
  {
    var out := UpsertAllowlist(rules, variant, id);
    if rules == [] {
      assert IsAllowlistFor(out[0], variant);
    } else if IsAllowlistFor(rules[0], variant) {
      assert IsAllowlistFor(out[0], variant) && WithUser(out[0], id) == out[0] && out[1..] == rules[1..];
    } else {
      assert out[1..] == UpsertAllowlist(rules[1..], variant, id);
      AllowlistTwice(rules[1..], variant, id);
    }
  }

  lemma UnsetHits(r: Rule, id: string, w: User)
    ensures var s := UnsetOne(r, id);
      && (Hits(s, w) <==> Hits(r, w) && (r.kind == Some(ALLOWLIST) ==> w.id != id))
      && Priority(s) == Priority(r) && s.variant == r.variant && (!Keeps(s) ==> !Hits(s, w))
  {
    if r.kind == Some(ALLOWLIST) && r.users.Some? { WithoutOthers(r.users.value, id, Some(w.id)); }
  }

  /** The rules that are not allowlists. */
  function Rollouts(rules: seq<Rule>): seq<Rule> {
    if rules == [] then []
    else (if rules[0].kind == Some(ALLOWLIST) then [] else [rules[0]]) + Rollouts(rules[1..])
  }

  lemma {:induction false} UnsetAllFrame(rules: seq<Rule>, id: string, w: User)
    ensures Best(UnsetAll(rules, id), w) == if w.id == id then Best(Rollouts(rules), w) else Best(rules, w)
  {
    if rules != [] {
      UnsetAllFrame(rules[1..], id, w);
      UnsetHits(rules[0], id, w);
      var r, rest, roll := UnsetOne(rules[0], id), UnsetAll(rules[1..], id), Rollouts(rules[1..]);
      assert [] + rest == rest && ([r] + rest)[1..] == rest;
      assert [] + roll == roll && ([rules[0]] + roll)[1..] == roll;
    }
  }

  lemma {:induction false} NotListed(rules: seq<Rule>, u: User)
    requires !Listed(rules, u.id)
    ensures Best(rules, u) == Best(Rollouts(rules), u)
  {
    if rules != [] {
      assert !Listed(rules[1..], u.id) by {
        forall i | 0 <= i < |rules[1..]| ensures rules[1..][i] == rules[i + 1] {}
      }
      NotListed(rules[1..], u);
      var roll := Rollouts(rules[1..]);
      assert [] + roll == roll && ([rules[0]] + roll)[1..] == roll;
    }
  }

  /** Unsetting a user leaves everyone else's choice, and leaves that user to the rollouts. */
  lemma {:induction false} UnsetFrame(rules: seq<Rule>, id: string, w: User)
    ensures Best(Unset(rules, id), w) == if w.id == id then Best(Rollouts(rules), w) else Best(rules, w)
  {
    if Listed(rules, id) { UnsetAllFrame(rules, id, w); } else if w.id == id { NotListed(rules, w); }
  }

  /** Where the user was listed, no allowlist is left that names them or nobody; the other rules stay, in order. */
  lemma {:induction false} UnsetLeaves(rules: seq<Rule>, id: string)
    ensures forall r | r in UnsetAll(rules, id) && r.kind == Some(ALLOWLIST) ::
      r.users.Some? && r.users.value != [] && Some(id) !in r.users.value
  {
    if rules != [] {
      UnsetLeaves(rules[1..], id);
      var r, rest := UnsetOne(rules[0], id), UnsetAll(rules[1..], id);
      if r.kind == Some(ALLOWLIST) && r.users.Some? { WithoutOthers(rules[0].users.value, id, Some(id)); }
      forall x | x in UnsetAll(rules, id) ensures (x == r && Keeps(r)) || x in rest { }
    }
  }

  lemma {:induction false} UnsetKeepsRollouts(rules: seq<Rule>, id: string)
    ensures Rollouts(UnsetAll(rules, id)) == Rollouts(rules)
  {
    if rules != [] {
      UnsetKeepsRollouts(rules[1..], id);
      var r, rest := UnsetOne(rules[0], id), UnsetAll(rules[1..], id);
      assert [] + rest == rest && ([r] + rest)[1..] == rest;
    }
  }

  /** The percentage in force for a variant: that of its first rollout rule. */
  function PercentOf(rules: seq<Rule>, variant: string): int {
    if rules == [] then 0
    else if IsRolloutFor(rules[0], variant) then (if rules[0].percent.Some? then rules[0].percent.value else 0)
    else PercentOf(rules[1..], variant)
  }

  /** Raising a rollout only ever moves users into the variant; lowering it, only out. */
  lemma {:induction false} RolloutMoves(rules: seq<Rule>, variant: string, percent: int, w: User)
    ensures var before, after := Best(rules, w), Best(UpsertRollout(rules, variant, percent), w);
      && (percent >= PercentOf(rules, variant) ==>
            && (after == before || VariantOf(after) == Some(variant))
            && (before.Some? ==> after.Some? && after.value.0 <= before.value.0))
      && (percent <= PercentOf(rules, variant) ==>
            && (after == before || VariantOf(before) == Some(variant))
            && (after.Some? ==> before.Some? && before.value.0 <= after.value.0))
  {
    var out := UpsertRollout(rules, variant, percent);
    if rules == [] {
      assert out[1..] == [];
    } else if IsRolloutFor(rules[0], variant) {
      assert out[1..] == rules[1..];
      assert Priority(out[0]) == Priority(rules[0]);
    } else {
      assert out[1..] == UpsertRollout(rules[1..], variant, percent);
      RolloutMoves(rules[1..], variant, percent, w);
    }
  }

  // ---------- what a flag answers ----------

  /** A smaller priority; a rule without one has a hundred. */
  predicate Outranks(r: Rule, s: Rule) {
    match (r.priority, s.priority)
    case (Some(p), Some(q)) => p < q
    case (Some(p), None) => p < 100
    case (None, Some(q)) => 100 < q
    case (None, None) => false
  }

  /** Rule `i` hits; of the other rules that do, it outranks those before it and none behind it outranks it. */
  predicate Decides(rules: seq<Rule>, u: User, i: nat)
    requires i < |rules|
  {
    && Hits(rules[i], u)
    && forall j | 0 <= j < |rules| && Hits(rules[j], u) ::
         if j < i then Outranks(rules[i], rules[j]) else !Outranks(rules[j], rules[i])
  }

  lemma {:induction false} BestDecides(rules: seq<Rule>, u: User) returns (i: nat)
    ensures Best(rules, u).None? <==> forall j | 0 <= j < |rules| :: !Hits(rules[j], u)
    ensures Best(rules, u).Some? ==>
      i < |rules| && Decides(rules, u, i) && Best(rules, u) == Some((Priority(rules[i]), rules[i].variant.value))
  {
    i := 0;
    if rules != [] {
      var rest := rules[1..];
      var k := BestDecides(rest, u);
      assert forall j | 0 <= j < |rest| :: rest[j] == rules[j + 1];
      var first := Hits(rules[0], u) && !(Best(rest, u).Some? && Best(rest, u).value.0 < Priority(rules[0]));
      i := if first then 0 else k + 1;
      if Best(rest, u).Some? { LaterDecide(rules, u, k, first); }
    }
  }

  lemma LaterDecide(rules: seq<Rule>, u: User, k: nat, first: bool)
    requires rules != [] && k < |rules[1..]| && Decides(rules[1..], u, k)
    requires first <==> Hits(rules[0], u) && !(Priority(rules[1..][k]) < Priority(rules[0]))
    ensures Decides(rules, u, if first then 0 else k + 1)
  {
    var rest := rules[1..];
    forall j | 0 < j < |rules| && Hits(rules[j], u)
      ensures if j < k + 1 then Outranks(rules[k + 1], rules[j]) else !Outranks(rules[j], rules[k + 1])
    {
      assert rest[j - 1] == rules[j] && rest[k] == rules[k + 1];
    }
  }

  /** The answer of a flag: of the rules that hit, unless the flag is disabled, the one of least priority and there the earliest
      decides; without one the default does, `off` if there is none; and the payload is the one stored under the variant. */
  lemma EvaluateIs(f: Flag, u: User) returns (i: nat)
    ensures var rules, answer := if f.rules.Some? then f.rules.value else [], EvaluateOne(f, u);
      && (if f.enabled != Some(false) && exists j :: 0 <= j < |rules| && Hits(rules[j], u)
          then i < |rules| && Decides(rules, u, i) && rules[i].variant == Some(answer.0)
          else answer.0 == if f.defaultVariant.Some? then f.defaultVariant.value else "off")
      && (answer.1.Some? <==> f.payloads.Some? && answer.0 in f.payloads.value)
      && (answer.1.Some? ==> answer.1.value == f.payloads.value[answer.0])
  {
    i := BestDecides(RulesOf(f), u);
    FirstMatchIsBest(RulesOf(f), u);
  }

  /** How many of the first `n` buckets a rule hits. */
  function Share(r: Rule, id: string, n: nat): nat {
    if n == 0 then 0 else Share(r, id, n - 1) + if Hits(r, User(id, n - 1)) then 1 else 0
  }

  /** Of the hundred buckets a rollout hits as many as its percentage says. */
  lemma {:induction false} RolloutShare(r: Rule, id: string, n: nat)
    requires r.kind == Some(ROLLOUT) && r.variant.Some?
    ensures var percent := if r.percent.Some? then r.percent.value else 0;
      Share(r, id, n) == if percent < 0 then 0 else if percent > n then n else percent
  {
    if n > 0 { RolloutShare(r, id, n - 1); }
  }

  /** An allowlist hits those it names, and no other kind of rule hits anyone. */
  lemma ListsHitTheirs(r: Rule, u: User)
    requires r.kind != Some(ROLLOUT)
    ensures Hits(r, u) <==> r.kind == Some("allowlist") && r.variant.Some? && r.users.Some? && Some(u.id) in r.users.value
  {
  }

  /** Against rollouts made by the tool, a user put on an allowlist gets its variant. */
  lemma {:induction false} ListedBeatsRollouts(rules: seq<Rule>, variant: string, u: User)
    requires forall i | 0 <= i < |rules| :: rules[i].kind == Some(ROLLOUT) && rules[i].priority == NewRollout("", 0).priority
    ensures VariantOf(Best(UpsertAllowlist(rules, variant, u.id), u)) == Some(variant)
  {
    AllowlistSelf(rules, variant, u);
    AtLeast(rules, u, 50);
    OnlyRollouts(rules, variant);
  }

  lemma {:induction false} OnlyRollouts(rules: seq<Rule>, variant: string)
    requires forall i | 0 <= i < |rules| :: rules[i].kind == Some(ROLLOUT)
    ensures EditedPriority(rules, variant) == 10
  {
    if rules != [] { OnlyRollouts(rules[1..], variant); }
  }

  /** Setting a rollout sets its variant's percentage, and no other's. */
  lemma {:induction false} RolloutSets(rules: seq<Rule>, variant: string, percent: int, other: string)
    ensures PercentOf(UpsertRollout(rules, variant, percent), other) == if other == variant then percent else PercentOf(rules, other)
  {
    if rules == [] {
      assert [NewRollout(variant, percent)][1..] == [];
    } else if IsRolloutFor(rules[0], variant) {
      assert ([rules[0].(percent := Some(percent))] + rules[1..])[1..] == rules[1..];
    } else {
      RolloutSets(rules[1..], variant, percent, other);
      assert ([rules[0]] + UpsertRollout(rules[1..], variant, percent))[1..] == UpsertRollout(rules[1..], variant, percent);
    }
  }

  // ---------- the same, of whole evaluations ----------

  function WithRules(f: Flag, rules: seq<Rule>): Flag {
    f.(rules := Some(rules))
  }

  /** Edits have an exact frame: no evaluation of another user changes, payload included. */
  lemma {:induction false} EditsSpareOthers(f: Flag, variant: string, id: string, w: User)
    requires w.id != id
    ensures EvaluateOne(WithRules(f, UpsertAllowlist(RulesOf(f), variant, id)), w) == EvaluateOne(f, w)
    ensures EvaluateOne(WithRules(f, Unset(RulesOf(f), id)), w) == EvaluateOne(f, w)
  {
    AllowlistFrame(RulesOf(f), variant, id, w);
    UnsetFrame(RulesOf(f), id, w);
    FirstMatchIsBest(RulesOf(f), w);
    FirstMatchIsBest(UpsertAllowlist(RulesOf(f), variant, id), w);
    FirstMatchIsBest(Unset(RulesOf(f), id), w);
  }

  lemma {:induction false} RolloutRaiseMovesIn(f: Flag, variant: string, percent: int, w: User)
    requires percent >= PercentOf(RulesOf(f), variant)
    ensures var after := EvaluateOne(WithRules(f, UpsertRollout(RulesOf(f), variant, percent)), w);
      after == EvaluateOne(f, w) || after.0 == variant
  {
    RolloutMoves(RulesOf(f), variant, percent, w);
    FirstMatchIsBest(RulesOf(f), w);
    FirstMatchIsBest(UpsertRollout(RulesOf(f), variant, percent), w);
  }

  // ---------- the code ----------

  lemma PutBack(rules: seq<Rule>, i: nat, r: Rule)
    requires i < |rules|
    ensures rules[..i] + ([r] + rules[i + 1..]) == rules[i := r]
  {
  }

  lemma PassOver(rules: seq<Rule>, i: nat, rest: seq<Rule>)
    requires i < |rules|
    ensures rules[..i] + ([rules[i]] + rest) == rules[..i + 1] + rest
  {
  }

  lemma {:induction false} AllowlistStep(rules: seq<Rule>, i: nat, variant: string, id: string)
    requires i < |rules| && UpsertAllowlist(rules, variant, id) == rules[..i] + UpsertAllowlist(rules[i..], variant, id)
    ensures if IsAllowlistFor(rules[i], variant) then UpsertAllowlist(rules, variant, id) == rules[i := WithUser(rules[i], id)]
            else UpsertAllowlist(rules, variant, id) == rules[..i + 1] + UpsertAllowlist(rules[i + 1..], variant, id)
  {
    assert rules[i..][0] == rules[i] && rules[i..][1..] == rules[i + 1..];
    if IsAllowlistFor(rules[i], variant) { PutBack(rules, i, WithUser(rules[i], id)); }
    PassOver(rules, i, UpsertAllowlist(rules[i + 1..], variant, id));
  }

  lemma {:induction false} RolloutStep(rules: seq<Rule>, i: nat, variant: string, percent: int)
    requires i < |rules| && UpsertRollout(rules, variant, percent) == rules[..i] + UpsertRollout(rules[i..], variant, percent)
    ensures if IsRolloutFor(rules[i], variant) then UpsertRollout(rules, variant, percent) == rules[i := rules[i].(percent := Some(percent))]
            else UpsertRollout(rules, variant, percent) == rules[..i + 1] + UpsertRollout(rules[i + 1..], variant, percent)
  {
    assert rules[i..][0] == rules[i] && rules[i..][1..] == rules[i + 1..];
    PutBack(rules, i, rules[i].(percent := Some(percent)));
    PassOver(rules, i, UpsertRollout(rules[i + 1..], variant, percent));
  }

  class RuleList {
    var rules: seq<Rule>

    constructor (rules: seq<Rule>)
      ensures this.rules == rules
    {
      this.rules := rules;
    }

    method Allowlist(variant: string, id: string)
      modifies this
      ensures rules == UpsertAllowlist(old(rules), variant, id)
    {
      assert rules[..0] + UpsertAllowlist(rules[0..], variant, id) == UpsertAllowlist(rules, variant, id) by { assert rules[0..] == rules; }
      for i := 0 to |rules|
        invariant rules == old(rules)
        invariant UpsertAllowlist(rules, variant, id) == rules[..i] + UpsertAllowlist(rules[i..], variant, id)
      {
        AllowlistStep(rules, i, variant, id);
        if IsAllowlistFor(rules[i], variant) {
          rules := rules[i := WithUser(rules[i], id)];
          return;
        }
      }
      assert rules[..|rules|] == rules && rules[|rules|..] == [];
      rules := rules + [NewAllowlist(variant, id)];
    }

    method Rollout(variant: string, percent: int)
      modifies this
      ensures rules == UpsertRollout(old(rules), variant, percent)
    {
      assert rules[..0] + UpsertRollout(rules[0..], variant, percent) == UpsertRollout(rules, variant, percent) by { assert rules[0..] == rules; }
      for i := 0 to |rules|
        invariant rules == old(rules)
        invariant UpsertRollout(rules, variant, percent) == rules[..i] + UpsertRollout(rules[i..], variant, percent)
      {
        RolloutStep(rules, i, variant, percent);
        if IsRolloutFor(rules[i], variant) {
          rules := rules[i := rules[i].(percent := Some(percent))];
          return;
        }
      }
      assert rules[..|rules|] == rules && rules[|rules|..] == [];
      rules := rules + [NewRollout(variant, percent)];
    }

    /** Take the user off every allowlist and drop allowlists left empty; write back only if someone was taken off. */
    method Remove(id: string) returns (removed: bool)
      modifies this
      ensures removed == Listed(old(rules), id)
      ensures rules == Unset(old(rules), id)
    {
      removed := false;
      var kept: seq<Rule> := [];
      assert rules[0..] == rules;
      for i := 0 to |rules|
        invariant rules == old(rules)
        invariant UnsetAll(rules, id) == kept + UnsetAll(rules[i..], id)
        invariant removed == Listed(rules[..i], id)
      {
        var r := rules[i];
        assert rules[i..][0] == r && rules[i..][1..] == rules[i + 1..];
        ListedSnoc(rules, i, id);
        if r.kind == Some(ALLOWLIST) && r.users.Some? && Some(id) in r.users.value {
          removed := true;
        }
        if Keeps(UnsetOne(r, id)) {
          kept := kept + [UnsetOne(r, id)];
        }
      }
      assert rules[..|rules|] == rules;
      if removed {
        rules := kept;
      }
    }
  }

  lemma ListedSnoc(rules: seq<Rule>, i: nat, id: string)
    requires i < |rules|
    ensures Listed(rules[..i + 1], id)
       <==> Listed(rules[..i], id) || (rules[i].kind == Some(ALLOWLIST) && rules[i].users.Some? && Some(id) in rules[i].users.value)
  {
    if Listed(rules[..i], id) {
      var k :| 0 <= k < |rules[..i]| && rules[..i][k].kind == Some(ALLOWLIST) && rules[..i][k].users.Some? && Some(id) in rules[..i][k].users.value;
      assert rules[..i + 1][k] == rules[..i][k];
    }
    if Listed(rules[..i + 1], id) {
      var k :| 0 <= k < |rules[..i + 1]| && rules[..i + 1][k].kind == Some(ALLOWLIST) && rules[..i + 1][k].users.Some? && Some(id) in rules[..i + 1][k].users.value;
      assert k < i ==> rules[..i][k] == rules[..i + 1][k];
    }
    assert rules[..i + 1][i] == rules[i];
  }
}
