/** How the `env:` block is spelled in YAML, shape by shape; the reader accepts exactly the spellings. */
module EnvSpelling {
  import opened Options
  import opened EnvConfigYaml

  /** The strings of a list, in order and nothing else: read from its end, a string of the list is the last of `keys`. */
  predicate Picks(items: seq<Yaml>, keys: seq<string>) {
    if items == [] then keys == []
    else
      var front, last := items[..|items| - 1], items[|items| - 1];
      if last.Str? then keys != [] && keys[|keys| - 1] == last.s && Picks(front, keys[..|keys| - 1]) else Picks(front, keys)
  }

  lemma {:induction false} StringsAppend(items: seq<Yaml>, y: Yaml)
    ensures Strings(items + [y]) == Strings(items) + if y.Str? then [y.s] else []
  {
    if items == [] {
      assert [] + [y] == [y];
      assert Strings([y][1..]) == [];
    } else {
      StringsAppend(items[1..], y);
      assert (items + [y])[1..] == items[1..] + [y];
    }
  }

  lemma {:induction false} PickedOnce(items: seq<Yaml>, keys: seq<string>)
    ensures Picks(items, keys) <==> keys == Strings(items)
  {
    if items != [] {
      var front, last := items[..|items| - 1], items[|items| - 1];
      assert items == front + [last];
      StringsAppend(front, last);
      if last.Str? {
        if keys != [] {
          var less := keys[..|keys| - 1];
          assert keys == less + [keys[|keys| - 1]];
          PickedOnce(front, less);
          assert (Strings(front) + [last.s])[..|Strings(front)|] == Strings(front);
        }
      } else {
        PickedOnce(front, keys);
      }
    }
  }

  /** Some string key, and none but `dev` and `cloud`. */
  predicate Split(m: map<Key, Yaml>) {
    && (StrKey("dev") in m || StrKey("cloud") in m)
    && forall k | k in m && k.StrKey? :: k.s == "dev" || k.s == "cloud"
  }

  /** The one key `vault`, with a list. */
  predicate VaultList(m: map<Key, Yaml>) {
    m.Keys == {StrKey("vault")} && m[StrKey("vault")].Seq?
  }

  /** The two mappings agree on string keys. */
  ghost predicate SameVars(m: map<Key, Yaml>, vars: map<string, Yaml>) {
    forall v :: (v in vars <==> StrKey(v) in m) && (v in vars ==> vars[v] == m[StrKey(v)])
  }

  ghost predicate Spells(y: Yaml, s: EnvSource)
    decreases s, 1
  {
    match s
    case SrcStr(t) => y == Str(t)
    case SrcVault(keys) => y.Mapping? && VaultList(y.entries) && Picks(y.entries[StrKey("vault")].items, keys)
    case SrcMap(vars) => y.Mapping? && !VaultList(y.entries) && !Split(y.entries) && SameVars(y.entries, vars)
    case SrcPerEnv(dev, cloud) => y.Mapping? && Split(y.entries) && SpellsSide(y.entries, "dev", dev) && SpellsSide(y.entries, "cloud", cloud)
  }

  ghost predicate SpellsSide(m: map<Key, Yaml>, name: string, e: Option<EnvEntry>)
    decreases e, 0
  {
    match e
    case None => StrKey(name) !in m
    case Some(entry) => StrKey(name) in m && SpellsEntry(m[StrKey(name)], entry)
  }

  ghost predicate SpellsEntry(y: Yaml, e: EnvEntry)
    decreases e, 2
  {
    match e
    case One(s) => !y.Seq? && Spells(y, s)
    case Many(l) => y.Seq? && SpellsAll(y.items, l)
  }

  ghost predicate SpellsAll(items: seq<Yaml>, l: seq<EnvSource>)
    decreases l, 0
  {
    |items| == |l| && forall i | 0 <= i < |l| :: Spells(items[i], l[i])
  }

  ghost predicate SpellsConfig(y: Yaml, c: EnvConfig) {
    match c
    case Source(s) => !s.SrcPerEnv? && Spells(y, s)
    case PerEnvironment(dev, cloud) => y.Mapping? && Split(y.entries) && SpellsSide(y.entries, "dev", dev) && SpellsSide(y.entries, "cloud", cloud)
    case List(l) => y.Seq? && SpellsAll(y.items, l)
  }

  lemma SplitIsPerEnv(m: map<Key, Yaml>)
    ensures Split(m) <==> IsPerEnv(m)
  {
  }

  lemma VaultListIsVault(m: map<Key, Yaml>)
    ensures VaultList(m) <==> IsVault(m)
    ensures VaultList(m) ==> !Split(m)
  {
    if IsVault(m) { OnlyKey(m, VAULT); }
    if VaultList(m) { assert |m| == |m.Keys| == 1; assert VAULT in m.Keys; }
  }

  lemma VarsAreSame(m: map<Key, Yaml>, vars: map<string, Yaml>)
    ensures SameVars(m, vars) <==> vars == Vars(m)
  {
    var all := Vars(m);
    assert forall v :: (v in all <==> StrKey(v) in m) && (v in all ==> all[v] == m[StrKey(v)]);
    if SameVars(m, vars) { assert vars.Keys == all.Keys; }
  }

  lemma {:induction false} VaultReads(m: map<Key, Yaml>, s: EnvSource)
    requires VaultList(m)
    ensures ReadSource(Mapping(m)) == Some(s) <==> Spells(Mapping(m), s)
  {
    VaultListIsVault(m);
    if s.SrcVault? { PickedOnce(m[VAULT].items, s.keys); }
  }

  /** A value reads as a source exactly when it spells it; so a value that spells none is refused. */
  lemma {:induction false} ReadsExactly(y: Yaml, s: EnvSource)
    ensures ReadSource(y) == Some(s) <==> Spells(y, s)
    decreases y, 1
  {
    if y.Mapping? {
      var m := y.entries;
      SplitIsPerEnv(m);
      VaultListIsVault(m);
      if VaultList(m) {
        VaultReads(m, s);
      } else if Split(m) {
        if s.SrcPerEnv? { SidesRead(y, s.dev, s.cloud); }
      } else if s.SrcMap? {
        VarsAreSame(m, s.vars);
      }
    }
  }

  lemma {:induction false} SidesRead(y: Yaml, dev: Option<EnvEntry>, cloud: Option<EnvEntry>)
    requires y.Mapping?
    ensures ReadSide(y, DEV) == Some(dev) && ReadSide(y, CLOUD) == Some(cloud)
      <==> SpellsSide(y.entries, "dev", dev) && SpellsSide(y.entries, "cloud", cloud)
    decreases y, 0
  {
    if dev.Some? && DEV in y.entries { EntryReads(y.entries[DEV], dev.value); }
    if cloud.Some? && CLOUD in y.entries { EntryReads(y.entries[CLOUD], cloud.value); }
  }

  lemma {:induction false} EntryReads(y: Yaml, e: EnvEntry)
    ensures ReadEntry(y) == Some(e) <==> SpellsEntry(y, e)
    decreases y, 2
  {
    if y.Seq? {
      if e.Many? { ListReads(y.items, e.sources); }
    } else if e.One? {
      ReadsExactly(y, e.source);
    }
  }

  lemma {:induction false} ListReads(items: seq<Yaml>, l: seq<EnvSource>)
    ensures ReadAll(items) == Some(l) <==> SpellsAll(items, l)
    decreases items, 0
  {
    if items != [] && l != [] {
      ReadsExactly(items[0], l[0]);
      ListReads(items[1..], l[1..]);
      ConsSame(ReadSource(items[0]), ReadAll(items[1..]), l);
      assert SpellsAll(items, l) <==> Spells(items[0], l[0]) && SpellsAll(items[1..], l[1..]) by { SpellsCons(items, l); }
    }
  }

  lemma {:induction false} SpellsCons(items: seq<Yaml>, l: seq<EnvSource>)
    requires items != [] && l != []
    ensures SpellsAll(items, l) <==> Spells(items[0], l[0]) && SpellsAll(items[1..], l[1..])
  {
    if Spells(items[0], l[0]) && SpellsAll(items[1..], l[1..]) {
      forall i | 0 <= i < |l| ensures Spells(items[i], l[i]) {
        if i > 0 { assert items[1..][i - 1] == items[i] && l[1..][i - 1] == l[i]; }
      }
    }
  }

  lemma ConfigReadsExactly(y: Yaml, c: EnvConfig)
    ensures ReadConfig(y) == Some(c) <==> SpellsConfig(y, c)
  {
    match c
    case Source(s) =>
      ReadsExactly(y, s);
      if y.Mapping? { SplitIsPerEnv(y.entries); VaultListIsVault(y.entries); }
    case PerEnvironment(dev, cloud) =>
      if y.Mapping? { SplitIsPerEnv(y.entries); SidesRead(y, dev, cloud); }
    case List(l) =>
      if y.Seq? { ListReads(y.items, l); }
  }
}
