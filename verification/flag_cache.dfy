/** The materialized assignments of a flag, and bringing them up to date. */
module FlagCache {
  import opened Options
  import opened Flags

  /** A stored row, one per user and flag key; a row without a readable variant counts as none. */
  datatype Row = Row(variant: Option<string>, payload: Option<Payload>)

  type Table = map<(string, string), Row>

  type Assignment = (string, Option<Payload>)

  /** A null payload is no payload. */
  function NonNull(p: Option<Payload>): Option<Payload> {
    if p == Some(PNull) then None else p
  }

  /** What the table says about a user. */
  function Existing(t: Table, key: string, user: string): Option<Assignment> {
    if (user, key) in t && t[(user, key)].variant.Some?
    then Some((t[(user, key)].variant.value, NonNull(t[(user, key)].payload)))
    else None
  }

  /** What the evaluator says. */
  function Wanted(f: Flag, bucket: string -> int, user: string): Assignment {
    var (variant, payload) := EvaluateOne(f, User(user, bucket(user)));
    (variant, NonNull(payload))
  }

  datatype Statement = Upsert(user: string, variant: string, payload: Option<Payload>)

  function Apply(t: Table, key: string, s: Statement): Table {
    t[(s.user, key) := Row(Some(s.variant), s.payload)]
  }

  function ApplyAll(t: Table, key: string, ss: seq<Statement>): Table {
    if ss == [] then t else Apply(ApplyAll(t, key, ss[..|ss| - 1]), key, ss[|ss| - 1])
  }

  /** The users whose stored assignment differs, in the order listed; an id that is not a string is passed over. */
  function Changed(t: Table, f: Flag, bucket: string -> int, key: string, users: seq<Option<string>>): seq<Statement> {
    if users == [] then []
    else
      var rest := Changed(t, f, bucket, key, users[..|users| - 1]);
      var u := users[|users| - 1];
      if u.None? || Existing(t, key, u.value) == Some(Wanted(f, bucket, u.value)) then rest
      else rest + [Upsert(u.value, Wanted(f, bucket, u.value).0, Wanted(f, bucket, u.value).1)]
  }

  predicate Writes(ss: seq<Statement>, user: string) {
    exists i :: 0 <= i < |ss| && ss[i].user == user
  }

  lemma {:induction false} ChangedWrites(t: Table, f: Flag, bucket: string -> int, key: string, users: seq<Option<string>>, user: string)
    ensures Writes(Changed(t, f, bucket, key, users), user)
       <==> Some(user) in users && Existing(t, key, user) != Some(Wanted(f, bucket, user))
    ensures forall i | 0 <= i < |Changed(t, f, bucket, key, users)| ::
      var s := Changed(t, f, bucket, key, users)[i]; (s.variant, s.payload) == Wanted(f, bucket, s.user)
  {
    if users != [] {
      var n := |users| - 1;
      ChangedWrites(t, f, bucket, key, users[..n], user);
      var rest, out := Changed(t, f, bucket, key, users[..n]), Changed(t, f, bucket, key, users);
      assert users == users[..n] + [users[n]];
      if Writes(rest, user) {
        var i :| 0 <= i < |rest| && rest[i].user == user;
        assert out[i].user == user;
      }
      if Writes(out, user) {
        var i :| 0 <= i < |out| && out[i].user == user;
        assert i < |rest| ==> rest[i].user == user;
      }
      if |out| > |rest| { assert out[|rest|].user == users[n].value; }
    }
  }

  lemma {:induction false} ApplyAllRows(t: Table, key: string, ss: seq<Statement>, a: (string, string), want: Assignment)
    requires forall i | 0 <= i < |ss| && ss[i].user == a.0 :: (ss[i].variant, ss[i].payload) == want
    ensures var out := ApplyAll(t, key, ss);
      if a.1 == key && Writes(ss, a.0) then a in out && out[a] == Row(Some(want.0), want.1)
      else (a in out <==> a in t) && (a in t ==> out[a] == t[a])
  {
    if ss != [] {
      var n := |ss| - 1;
      ApplyAllRows(t, key, ss[..n], a, want);
      if Writes(ss[..n], a.0) {
        var i :| 0 <= i < |ss[..n]| && ss[..n][i].user == a.0;
        assert ss[i].user == a.0;
      }
      if Writes(ss, a.0) {
        var i :| 0 <= i < |ss| && ss[i].user == a.0;
        assert i < n ==> ss[..n][i].user == a.0;
      }
    }
  }

  function Materialized(t: Table, f: Flag, bucket: string -> int, key: string, users: seq<Option<string>>): Table {
    ApplyAll(t, key, Changed(t, f, bucket, key, users))
  }

  /** What is wanted is what the evaluator answers, a null payload being none. */
  lemma WantedIs(f: Flag, bucket: string -> int, user: string)
    ensures var want, answer := Wanted(f, bucket, user), EvaluateOne(f, User(user, bucket(user)));
      want.0 == answer.0 && forall p :: want.1 == Some(p) <==> answer.1 == Some(p) && p != PNull
  {
  }

  /** So is what a row says; a row without a variant says nothing. */
  lemma StoredIs(t: Table, key: string, user: string, a: Assignment)
    ensures Existing(t, key, user) == Some(a) <==>
      && (user, key) in t && t[(user, key)].variant == Some(a.0)
      && (if t[(user, key)].payload == Some(PNull) then a.1 == None else a.1 == t[(user, key)].payload)
  {
  }

  lemma WantedIsNonNull(f: Flag, bucket: string -> int, user: string)
    ensures NonNull(Wanted(f, bucket, user).1) == Wanted(f, bucket, user).1
  {
  }

  /** Afterwards every listed user's row is what the evaluator says; every other row is as it was; and a row was
      written exactly when the user is listed and the assignment differed. */
  lemma {:induction false} CacheAgrees(t: Table, f: Flag, bucket: string -> int, key: string, users: seq<Option<string>>, user: string)
    ensures var out := Materialized(t, f, bucket, key, users);
      && (Some(user) in users ==> Existing(out, key, user) == Some(Wanted(f, bucket, user)))
      && (Some(user) !in users ==> Existing(out, key, user) == Existing(t, key, user))
      && (Writes(Changed(t, f, bucket, key, users), user) <==> Some(user) in users && Existing(t, key, user) != Some(Wanted(f, bucket, user)))
  {
    var ss := Changed(t, f, bucket, key, users);
    ChangedWrites(t, f, bucket, key, users, user);
    WantedIsNonNull(f, bucket, user);
    ApplyAllRows(t, key, ss, (user, key), Wanted(f, bucket, user));
  }

  lemma OtherRowsUntouched(t: Table, f: Flag, bucket: string -> int, key: string, users: seq<Option<string>>, a: (string, string))
    requires a.1 != key || Some(a.0) !in users
    ensures var out := Materialized(t, f, bucket, key, users); (a in out <==> a in t) && (a in t ==> out[a] == t[a])
  {
    ChangedWrites(t, f, bucket, key, users, a.0);
    ApplyAllRows(t, key, Changed(t, f, bucket, key, users), a, Wanted(f, bucket, a.0));
  }

  /** A second run writes nothing. */
  lemma {:induction false} SecondRunWritesNothing(t: Table, f: Flag, bucket: string -> int, key: string, users: seq<Option<string>>, part: seq<Option<string>>)
    requires forall u | u in part :: u in users
    ensures Changed(Materialized(t, f, bucket, key, users), f, bucket, key, part) == []
  {
    if part != [] {
      var n := |part| - 1;
      SecondRunWritesNothing(t, f, bucket, key, users, part[..n]);
      if part[n].Some? { CacheAgrees(t, f, bucket, key, users, part[n].value); }
    }
  }

  // ---------- the code ----------

  class Database {
    var table: Table

    constructor (table: Table)
      ensures this.table == table
    {
      this.table := table;
    }

    method Execute(key: string, ss: seq<Statement>)
      modifies this
      ensures table == ApplyAll(old(table), key, ss)
    {
      for i := 0 to |ss|
        invariant table == ApplyAll(old(table), key, ss[..i])
      {
        assert ss[..i + 1][..i] == ss[..i];
        table := Apply(table, key, ss[i]);
      }
      assert ss[..|ss|] == ss;
    }

    /** Bring one flag's rows up to date; a flag that is gone loses its rows. */
    method Materialize(flag: Option<Flag>, bucket: string -> int, key: string, users: seq<Option<string>>) returns (statements: seq<Statement>)
      modifies this
      ensures flag.Some? ==> statements == Changed(old(table), flag.value, bucket, key, users)
      ensures flag.Some? ==> table == Materialized(old(table), flag.value, bucket, key, users)
      ensures flag.None? ==> statements == [] && table == map a | a in old(table) && a.1 != key :: old(table)[a]
    {
      statements := [];
      if flag.None? {
        table := map a | a in table && a.1 != key :: table[a];
        return;
      }
      var f := flag.value;
      for i := 0 to |users|
        invariant table == old(table)
        invariant statements == Changed(table, f, bucket, key, users[..i])
      {
        assert users[..i + 1][..i] == users[..i];
        var u := users[i];
        if u.Some? {
          var (variant, payload) := Wanted(f, bucket, u.value);
          if Existing(table, key, u.value) != Some((variant, payload)) {
            statements := statements + [Upsert(u.value, variant, payload)];
          }
        }
      }
      assert users[..|users|] == users;
      if statements != [] {
        Execute(key, statements);
      }
    }
  }
}
