/** The `env:` block of a config: reading it from YAML, printing it, and when reading back what was printed
    gives the same block. */
module EnvConfigYaml {
  import opened Options

  /** A mapping key: a string, or some other YAML scalar. */
  datatype Key = StrKey(s: string) | OtherKey(text: string)

  datatype Yaml =
    | Null
    | Bool(b: bool)
    | Num(text: string)
    | Str(s: string)
    | Seq(items: seq<Yaml>)
    | Mapping(entries: map<Key, Yaml>)

  datatype EnvSource =
    | SrcStr(s: string)
    | SrcMap(vars: map<string, Yaml>)
    | SrcVault(keys: seq<string>)
    | SrcPerEnv(dev: Option<EnvEntry>, cloud: Option<EnvEntry>)

  datatype EnvEntry =
    | One(source: EnvSource)
    | Many(sources: seq<EnvSource>)

  datatype EnvConfig =
    | Source(source: EnvSource)
    | PerEnvironment(dev: Option<EnvEntry>, cloud: Option<EnvEntry>)
    | List(sources: seq<EnvSource>)

  // ---------- reading ----------

  const VAULT := StrKey("vault")
  const DEV := StrKey("dev")
  const CLOUD := StrKey("cloud")

  function Strings(items: seq<Yaml>): seq<string> {
    if items == [] then [] else (if items[0].Str? then [items[0].s] else []) + Strings(items[1..])
  }

  predicate IsVault(m: map<Key, Yaml>) {
    |m| == 1 && VAULT in m && m[VAULT].Seq?
  }

  /** Some string key, and no string key besides `dev` and `cloud`. */
  predicate IsPerEnv(m: map<Key, Yaml>) {
    (exists k :: k in m && k.StrKey?) && forall k | k in m && k.StrKey? :: k == DEV || k == CLOUD
  }

  /** The entries under string keys. */
  function Vars(m: map<Key, Yaml>): map<string, Yaml> {
    map k | k in m && k.StrKey? :: k.s := m[k]
  }

  function ReadSource(y: Yaml): Option<EnvSource>
    decreases y, 2
  {
    match y
    case Str(s) => Some(SrcStr(s))
    case Mapping(m) =>
      if IsVault(m) then Some(SrcVault(Strings(m[VAULT].items)))
      else if IsPerEnv(m) then
        var dev, cloud := ReadSide(y, DEV), ReadSide(y, CLOUD);
        if dev.None? || cloud.None? then None else Some(SrcPerEnv(dev.value, cloud.value))
      else Some(SrcMap(Vars(m)))
    case _ => None
  }

  /** One side of a per-environment split: absent, or an entry; `None` is a failure. */
  function ReadSide(y: Yaml, k: Key): Option<Option<EnvEntry>>
    requires y.Mapping?
    decreases y, 1
  {
    if k !in y.entries then Some(None)
    else
      var e := ReadEntry(y.entries[k]);
      if e.None? then None else Some(e)
  }

  function ReadEntry(y: Yaml): Option<EnvEntry>
    decreases y, 3
  {
    match y
    case Seq(items) =>
      var l := ReadAll(items);
      if l.None? then None else Some(Many(l.value))
    case _ =>
      var s := ReadSource(y);
      if s.None? then None else Some(One(s.value))
  }

  function ReadAll(items: seq<Yaml>): (l: Option<seq<EnvSource>>)
    ensures l.Some? ==> |l.value| == |items|
    decreases items, 0
  {
    if items == [] then Some([])
    else
      var first, rest := ReadSource(items[0]), ReadAll(items[1..]);
      if first.None? || rest.None? then None else Some([first.value] + rest.value)
  }

  function ReadConfig(y: Yaml): Option<EnvConfig> {
    match y
    case Str(s) => Some(Source(SrcStr(s)))
    case Seq(items) =>
      var l := ReadAll(items);
      if l.None? then None else Some(List(l.value))
    case Mapping(m) =>
      if IsPerEnv(m) then
        var dev, cloud := ReadSide(y, DEV), ReadSide(y, CLOUD);
        if dev.None? || cloud.None? then None else Some(PerEnvironment(dev.value, cloud.value))
      else
        var s := ReadSource(y);
        if s.None? then None else Some(Source(s.value))
    case _ => None
  }

  // ---------- printing ----------

  function Quoted(keys: seq<string>): seq<Yaml> {
    seq(|keys|, i requires 0 <= i < |keys| => Str(keys[i]))
  }

  function PrintVars(vars: map<string, Yaml>): map<Key, Yaml> {
    map k | k in vars :: StrKey(k) := vars[k]
  }

  function Sides(dev: Option<Yaml>, cloud: Option<Yaml>): map<Key, Yaml> {
    (if dev.Some? then map[DEV := dev.value] else map[]) + (if cloud.Some? then map[CLOUD := cloud.value] else map[])
  }

  function PrintSource(s: EnvSource): Yaml
    decreases s, 1
  {
    match s
    case SrcStr(t) => Str(t)
    case SrcMap(vars) => Mapping(PrintVars(vars))
    case SrcVault(keys) => Mapping(map[VAULT := Seq(Quoted(keys))])
    case SrcPerEnv(dev, cloud) =>
      Mapping(Sides(if dev.Some? then Some(PrintEntry(dev.value)) else None, if cloud.Some? then Some(PrintEntry(cloud.value)) else None))
  }

  function PrintEntry(e: EnvEntry): Yaml
    decreases e, 2
  {
    match e
    case One(s) => PrintSource(s)
    case Many(l) => Seq(PrintAll(l))
  }

  function PrintAll(l: seq<EnvSource>): (ys: seq<Yaml>)
    ensures |ys| == |l|
    decreases l, 0
  {
    if l == [] then [] else [PrintSource(l[0])] + PrintAll(l[1..])
  }

  function PrintSide(e: Option<EnvEntry>): Option<Yaml> {
    if e.Some? then Some(PrintEntry(e.value)) else None
  }

  function PrintConfig(c: EnvConfig): Yaml {
    match c
    case Source(s) => PrintSource(s)
    case PerEnvironment(dev, cloud) => Mapping(Sides(PrintSide(dev), PrintSide(cloud)))
    case List(l) => Seq(PrintAll(l))
  }

  // ---------- which configs survive the round trip ----------

  /** Inline variables that look like a vault list, or like a per-environment split, once printed. */
  predicate LooksLikeVault(vars: map<string, Yaml>) {
    vars.Keys == {"vault"} && vars["vault"].Seq?
  }

  predicate LooksPerEnv(vars: map<string, Yaml>) {
    vars != map[] && vars.Keys <= {"dev", "cloud"}
  }

  predicate Stable(s: EnvSource) {
    match s
    case SrcStr(_) => true
    case SrcVault(_) => true
    case SrcMap(vars) => !LooksLikeVault(vars) && !LooksPerEnv(vars)
    case SrcPerEnv(dev, cloud) =>
      && (dev.Some? || cloud.Some?)
      && (dev.Some? ==> StableEntry(dev.value))
      && (cloud.Some? ==> StableEntry(cloud.value))
  }

  predicate StableEntry(e: EnvEntry) {
    match e
    case One(s) => Stable(s)
    case Many(l) => AllStable(l)
  }

  predicate AllStable(l: seq<EnvSource>) {
    l == [] || (Stable(l[0]) && AllStable(l[1..]))
  }

  predicate StableSides(dev: Option<EnvEntry>, cloud: Option<EnvEntry>) {
    && (dev.Some? || cloud.Some?)
    && (dev.Some? ==> StableEntry(dev.value))
    && (cloud.Some? ==> StableEntry(cloud.value))
  }

  predicate StableConfig(c: EnvConfig) {
    match c
    case Source(s) => Stable(s) && !s.SrcPerEnv?
    case PerEnvironment(dev, cloud) => StableSides(dev, cloud)
    case List(l) => AllStable(l)
  }

  lemma {:induction false} StringsOfQuoted(keys: seq<string>)
    ensures Strings(Quoted(keys)) == keys
  {
    if keys != [] {
      StringsOfQuoted(keys[1..]);
      assert Quoted(keys)[1..] == Quoted(keys[1..]);
      assert keys == [keys[0]] + keys[1..];
    }
  }

  lemma PrintedKeys(vars: map<string, Yaml>)
    ensures forall k | k in vars :: StrKey(k) in PrintVars(vars) && PrintVars(vars)[StrKey(k)] == vars[k]
    ensures forall k | k in PrintVars(vars) :: k.StrKey? && k.s in vars
    ensures Vars(PrintVars(vars)) == vars
  {
    var m := PrintVars(vars);
    assert forall k | k in vars :: StrKey(k) in m && m[StrKey(k)] == vars[k];
    assert forall k | k in m :: k.StrKey? && k.s in vars;
  }

  lemma PrintedVault(vars: map<string, Yaml>)
    ensures IsVault(PrintVars(vars)) <==> LooksLikeVault(vars)
  {
    if IsVault(PrintVars(vars)) { VaultIsPrinted(vars); }
    if LooksLikeVault(vars) { VaultPrints(vars); }
  }

  lemma VaultIsPrinted(vars: map<string, Yaml>)
    requires IsVault(PrintVars(vars))
    ensures LooksLikeVault(vars)
  {
    var m := PrintVars(vars);
    PrintedKeys(vars);
    OnlyKey(m, VAULT);
    assert "vault" in vars;
    forall k | k in vars.Keys ensures k in {"vault"} { assert StrKey(k) in m.Keys; }
  }

  lemma VaultPrints(vars: map<string, Yaml>)
    requires LooksLikeVault(vars)
    ensures IsVault(PrintVars(vars))
  {
    var m := PrintVars(vars);
    PrintedKeys(vars);
    assert "vault" in vars;
    forall k | k in m.Keys ensures k in {VAULT} { assert k.s in vars.Keys; }
    assert m.Keys == {VAULT};
    assert |m| == |m.Keys| == 1;
  }

  lemma PrintedPerEnv(vars: map<string, Yaml>)
    ensures IsPerEnv(PrintVars(vars)) <==> LooksPerEnv(vars)
  {
    var m := PrintVars(vars);
    PrintedKeys(vars);
    if IsPerEnv(m) {
      forall k | k in vars ensures k in {"dev", "cloud"} { assert StrKey(k) in m; }
    }
    if LooksPerEnv(vars) {
      var k :| k in vars;
      assert StrKey(k) in m;
      forall j | j in m ensures j == DEV || j == CLOUD { assert j.s in vars.Keys; }
    }
  }

  lemma VarsOfPrinted(vars: map<string, Yaml>)
    ensures Vars(PrintVars(vars)) == vars
    ensures IsVault(PrintVars(vars)) <==> LooksLikeVault(vars)
    ensures IsPerEnv(PrintVars(vars)) <==> LooksPerEnv(vars)
  {
    PrintedKeys(vars);
    PrintedVault(vars);
    PrintedPerEnv(vars);
  }

  lemma OnlyKey(m: map<Key, Yaml>, k: Key)
    requires |m| == 1 && k in m
    ensures m.Keys == {k}
  {
    assert |m.Keys - {k}| == 0;
  }

  lemma SidesShape(dev: Option<Yaml>, cloud: Option<Yaml>)
    ensures var m := Sides(dev, cloud);
      && (DEV in m <==> dev.Some?) && (CLOUD in m <==> cloud.Some?)
      && (dev.Some? ==> m[DEV] == dev.value) && (cloud.Some? ==> m[CLOUD] == cloud.value)
      && !IsVault(m) && (IsPerEnv(m) <==> dev.Some? || cloud.Some?)
      && (!(dev.Some? || cloud.Some?) ==> m == map[])
  {
    var m := Sides(dev, cloud);
    if dev.Some? { assert DEV in m && DEV.StrKey?; }
    if cloud.Some? { assert CLOUD in m && CLOUD.StrKey?; }
  }

  /** Reading back a printed source gives it again exactly when it is stable. */
  lemma {:induction false} SourceRoundTrip(s: EnvSource)
    ensures ReadSource(PrintSource(s)) == Some(s) <==> Stable(s)
    decreases s, 1
  {
    match s
    case SrcStr(_) =>
    case SrcVault(keys) => VaultRoundTrip(keys);
    case SrcMap(vars) => MapRoundTrip(vars);
    case SrcPerEnv(dev, cloud) =>
      if dev.Some? { EntryRoundTrip(dev.value); }
      if cloud.Some? { EntryRoundTrip(cloud.value); }
      PerEnvRoundTrip(dev, cloud);
  }

  lemma MapRoundTrip(vars: map<string, Yaml>)
    ensures ReadSource(PrintSource(SrcMap(vars))) == Some(SrcMap(vars)) <==> Stable(SrcMap(vars))
  {
    VarsOfPrinted(vars);
    assert PrintSource(SrcMap(vars)) == Mapping(PrintVars(vars));
  }

  predicate ReadsBack(e: Option<EnvEntry>) {
    e.Some? ==> (ReadEntry(PrintEntry(e.value)) == Some(e.value) <==> StableEntry(e.value))
  }

  lemma {:induction false} PerEnvRoundTrip(dev: Option<EnvEntry>, cloud: Option<EnvEntry>)
    requires ReadsBack(dev) && ReadsBack(cloud)
    ensures ReadSource(PrintSource(SrcPerEnv(dev, cloud))) == Some(SrcPerEnv(dev, cloud)) <==> Stable(SrcPerEnv(dev, cloud))
  {
    var m := Sides(PrintSide(dev), PrintSide(cloud));
    assert PrintSource(SrcPerEnv(dev, cloud)) == Mapping(m);
    SidesReadBack(dev, cloud);
  }

  lemma VaultRoundTrip(keys: seq<string>)
    ensures ReadSource(PrintSource(SrcVault(keys))) == Some(SrcVault(keys))
  {
    StringsOfQuoted(keys);
    var m := map[VAULT := Seq(Quoted(keys))];
    assert m.Keys == {VAULT} && |m| == |m.Keys|;
  }

  lemma SidesReadBack(dev: Option<EnvEntry>, cloud: Option<EnvEntry>)
    requires ReadsBack(dev) && ReadsBack(cloud)
    ensures var m := Sides(PrintSide(dev), PrintSide(cloud));
      && !IsVault(m) && (IsPerEnv(m) <==> dev.Some? || cloud.Some?)
      && (ReadSide(Mapping(m), DEV) == Some(dev) && ReadSide(Mapping(m), CLOUD) == Some(cloud)
          <==> (dev.Some? ==> StableEntry(dev.value)) && (cloud.Some? ==> StableEntry(cloud.value)))
  {
    SidesShape(PrintSide(dev), PrintSide(cloud));
  }

  lemma {:induction false} EntryRoundTrip(e: EnvEntry)
    ensures ReadEntry(PrintEntry(e)) == Some(e) <==> StableEntry(e)
    decreases e, 2
  {
    match e
    case One(s) => SourceRoundTrip(s);
    case Many(l) => ListRoundTrip(l);
  }

  lemma {:induction false} ListRoundTrip(l: seq<EnvSource>)
    ensures ReadAll(PrintAll(l)) == Some(l) <==> AllStable(l)
    decreases l, 0
  {
    if l != [] {
      SourceRoundTrip(l[0]);
      ListRoundTrip(l[1..]);
      assert PrintAll(l)[1..] == PrintAll(l[1..]);
      ConsSame(ReadSource(PrintSource(l[0])), ReadAll(PrintAll(l[1..])), l);
    }
  }

  lemma ConsSame(first: Option<EnvSource>, rest: Option<seq<EnvSource>>, l: seq<EnvSource>)
    requires l != []
    ensures (first.Some? && rest.Some? && [first.value] + rest.value == l) <==> first == Some(l[0]) && rest == Some(l[1..])
  {
    if first.Some? && rest.Some? {
      var out := [first.value] + rest.value;
      assert out[0] == first.value && out[1..] == rest.value;
      assert l == [l[0]] + l[1..];
    }
  }

  lemma MappingConfig(m: map<Key, Yaml>, s: EnvSource)
    ensures ReadConfig(Mapping(m)) == Some(Source(s)) <==> !IsPerEnv(m) && ReadSource(Mapping(m)) == Some(s)
  {
  }

  lemma MapConfigRoundTrip(vars: map<string, Yaml>)
    ensures ReadConfig(Mapping(PrintVars(vars))) == Some(Source(SrcMap(vars))) <==> !LooksLikeVault(vars) && !LooksPerEnv(vars)
  {
    MapRoundTrip(vars);
    PrintedPerEnv(vars);
    MappingConfig(PrintVars(vars), SrcMap(vars));
  }

  lemma VaultConfigRoundTrip(keys: seq<string>)
    ensures ReadConfig(Mapping(map[VAULT := Seq(Quoted(keys))])) == Some(Source(SrcVault(keys)))
  {
    var m := map[VAULT := Seq(Quoted(keys))];
    VaultRoundTrip(keys);
    MappingConfig(m, SrcVault(keys));
    assert VAULT in m && VAULT.StrKey?;
  }

  lemma {:induction false} SplitConfigRoundTrip(dev: Option<EnvEntry>, cloud: Option<EnvEntry>)
    ensures ReadConfig(PrintSource(SrcPerEnv(dev, cloud))) != Some(Source(SrcPerEnv(dev, cloud)))
  {
    var m := Sides(PrintSide(dev), PrintSide(cloud));
    SidesShape(PrintSide(dev), PrintSide(cloud));
    assert PrintSource(SrcPerEnv(dev, cloud)) == Mapping(m);
    MappingConfig(m, SrcPerEnv(dev, cloud));
  }

  lemma SourceConfigRoundTrip(s: EnvSource)
    ensures ReadConfig(PrintConfig(Source(s))) == Some(Source(s)) <==> StableConfig(Source(s))
  {
    match s
    case SrcStr(_) =>
    case SrcMap(vars) => MapConfigRoundTrip(vars);
    case SrcVault(keys) => VaultConfigRoundTrip(keys);
    case SrcPerEnv(dev, cloud) => SplitConfigRoundTrip(dev, cloud);
  }

  lemma PerEnvConfigRoundTrip(dev: Option<EnvEntry>, cloud: Option<EnvEntry>)
    requires ReadsBack(dev) && ReadsBack(cloud)
    ensures ReadConfig(PrintConfig(PerEnvironment(dev, cloud))) == Some(PerEnvironment(dev, cloud)) <==> StableSides(dev, cloud)
  {
    var m := Sides(PrintSide(dev), PrintSide(cloud));
    SidesReadBack(dev, cloud);
    if !IsPerEnv(m) { assert ReadConfig(Mapping(m)) != Some(PerEnvironment(dev, cloud)); }
  }

  lemma ConfigRoundTrip(c: EnvConfig)
    ensures ReadConfig(PrintConfig(c)) == Some(c) <==> StableConfig(c)
  {
    match c
    case Source(s) => SourceConfigRoundTrip(s);
    case PerEnvironment(dev, cloud) =>
      if dev.Some? { EntryRoundTrip(dev.value); }
      if cloud.Some? { EntryRoundTrip(cloud.value); }
      PerEnvConfigRoundTrip(dev, cloud);
    case List(l) => ListRoundTrip(l);
  }

  // ---------- which YAML reads into such configs ----------

  /** A mapping whose string keys are just a vault list, beside keys that are not strings and get lost. */
  predicate LosesVaultCompany(m: map<Key, Yaml>) {
    !IsVault(m) && LooksLikeVault(Vars(m))
  }

  predicate CleanSource(y: Yaml)
    decreases y, 1
  {
    y.Mapping? ==>
      && !LosesVaultCompany(y.entries)
      && (IsPerEnv(y.entries) ==> CleanSides(y))
  }

  predicate CleanSides(y: Yaml)
    requires y.Mapping?
    decreases y, 0
  {
    && (DEV in y.entries ==> CleanEntry(y.entries[DEV]))
    && (CLOUD in y.entries ==> CleanEntry(y.entries[CLOUD]))
  }

  predicate CleanEntry(y: Yaml)
    decreases y, 2
  {
    if y.Seq? then AllClean(y.items) else CleanSource(y)
  }

  predicate AllClean(items: seq<Yaml>)
    decreases items, 0
  {
    items == [] || (CleanSource(items[0]) && AllClean(items[1..]))
  }

  /** Which parts of the value the reader looks at, and that none of them loses a key beside a vault list. */
  predicate CleanConfig(y: Yaml) {
    if y.Mapping? && IsPerEnv(y.entries) then CleanSides(y) else CleanEntry(y)
  }

  lemma {:induction false} ReadIsStable(y: Yaml)
    requires ReadSource(y).Some?
    ensures Stable(ReadSource(y).value) <==> CleanSource(y)
    decreases y, 1
  {
    if y.Mapping? {
      var m := y.entries;
      if IsVault(m) {
        OnlyKey(m, VAULT);
        assert !IsPerEnv(m);
      } else if IsPerEnv(m) {
        PerEnvVars(m);
        SidesAreStable(y);
      } else {
        NotPerEnvVars(m);
      }
    }
  }

  lemma PerEnvVars(m: map<Key, Yaml>)
    requires IsPerEnv(m)
    ensures !LooksLikeVault(Vars(m)) && (DEV in m || CLOUD in m)
  {
    var k :| k in m && k.StrKey?;
    assert k.s in Vars(m);
  }

  lemma NotPerEnvVars(m: map<Key, Yaml>)
    requires !IsPerEnv(m)
    ensures !LooksPerEnv(Vars(m))
  {
    if Vars(m) != map[] {
      var v :| v in Vars(m);
      assert StrKey(v) in m;
      var k :| k in m && k.StrKey? && k != DEV && k != CLOUD;
      assert k.s in Vars(m);
    }
  }

  lemma {:induction false} SidesAreStable(y: Yaml)
    requires y.Mapping? && IsPerEnv(y.entries) && ReadSide(y, DEV).Some? && ReadSide(y, CLOUD).Some?
    ensures StableSides(ReadSide(y, DEV).value, ReadSide(y, CLOUD).value) <==> CleanSides(y)
    decreases y, 0
  {
    PerEnvVars(y.entries);
    if DEV in y.entries { EntryIsStable(y.entries[DEV]); }
    if CLOUD in y.entries { EntryIsStable(y.entries[CLOUD]); }
  }

  lemma {:induction false} EntryIsStable(y: Yaml)
    requires ReadEntry(y).Some?
    ensures StableEntry(ReadEntry(y).value) <==> CleanEntry(y)
    decreases y, 2
  {
    if y.Seq? { ListIsStable(y.items); } else { ReadIsStable(y); }
  }

  lemma {:induction false} ListIsStable(items: seq<Yaml>)
    requires ReadAll(items).Some?
    ensures AllStable(ReadAll(items).value) <==> AllClean(items)
    decreases items, 0
  {
    if items != [] {
      ReadIsStable(items[0]);
      ListIsStable(items[1..]);
      assert ReadAll(items).value[1..] == ReadAll(items[1..]).value;
    }
  }

  /** For every YAML value that reads: printing and reading again gives the same config exactly when no mapping the
      reader visits pairs a lone vault list with keys that are not strings. */
  lemma PrintedConfigReadsBack(y: Yaml)
    requires ReadConfig(y).Some?
    ensures ReadConfig(PrintConfig(ReadConfig(y).value)) == ReadConfig(y) <==> CleanConfig(y)
  {
    ConfigRoundTrip(ReadConfig(y).value);
    match y
    case Str(_) => assert CleanSource(y);
    case Seq(items) => ListIsStable(items);
    case Mapping(m) =>
      if IsPerEnv(m) { SidesAreStable(y); } else { ReadIsStable(y); }
  }

  // ---------- string keys only ----------

  predicate StringKeys(y: Yaml) {
    match y
    case Seq(items) => forall i | 0 <= i < |items| :: StringKeys(items[i])
    case Mapping(m) => forall k | k in m :: k.StrKey? && StringKeys(m[k])
    case _ => true
  }

  lemma NothingLost(m: map<Key, Yaml>)
    requires forall k | k in m :: k.StrKey?
    ensures !LosesVaultCompany(m)
  {
    if LooksLikeVault(Vars(m)) {
      assert "vault" in Vars(m).Keys;
      assert VAULT in m;
      forall k | k in m ensures k == VAULT { assert k.s in Vars(m).Keys; }
      assert m.Keys == {VAULT};
      assert |m| == |m.Keys| == 1;
      assert Vars(m)["vault"] == m[VAULT];
    }
  }

  lemma {:induction false} StringKeysAreClean(y: Yaml)
    requires StringKeys(y)
    ensures CleanSource(y) && CleanEntry(y)
    decreases y, 1
  {
    match y
    case Seq(items) => StringItemsAreClean(items);
    case Mapping(m) =>
      NothingLost(m);
      if DEV in m { StringKeysAreClean(m[DEV]); }
      if CLOUD in m { StringKeysAreClean(m[CLOUD]); }
    case _ =>
  }

  lemma {:induction false} StringItemsAreClean(items: seq<Yaml>)
    requires forall i | 0 <= i < |items| :: StringKeys(items[i])
    ensures AllClean(items)
    decreases items, 0
  {
    if items != [] {
      StringKeysAreClean(items[0]);
      StringItemsAreClean(items[1..]);
    }
  }

  /** So every config written with string keys survives the round trip. */
  lemma {:induction false} StringKeyedConfigReadsBack(y: Yaml)
    requires StringKeys(y) && ReadConfig(y).Some?
    ensures ReadConfig(PrintConfig(ReadConfig(y).value)) == ReadConfig(y)
  {
    StringKeysAreClean(y);
    PrintedConfigReadsBack(y);
  }

  lemma MixedKeysLoseCompany(m: map<Key, Yaml>)
    requires m.Keys == {OtherKey("1"), VAULT} && m[VAULT].Seq?
    ensures LosesVaultCompany(m) && !IsPerEnv(m)
  {
    assert |m| == |m.Keys| == 2;
    assert VAULT in m && VAULT.StrKey?;
    assert forall v | v in Vars(m) :: StrKey(v) in m.Keys;
    assert "vault" in Vars(m) && Vars(m)["vault"] == m[VAULT];
    assert Vars(m).Keys == {"vault"};
  }

  /** And one that does not: `{ 1: ..., vault: [...] }` is inline variables first, a vault list after. */
  lemma MixedKeysDoNot(m: map<Key, Yaml>)
    requires m.Keys == {OtherKey("1"), VAULT} && m[VAULT].Seq?
    ensures ReadConfig(Mapping(m)).Some? && ReadConfig(PrintConfig(ReadConfig(Mapping(m)).value)) != ReadConfig(Mapping(m))
  {
    MixedKeysLoseCompany(m);
    assert ReadSource(Mapping(m)).Some?;
    PrintedConfigReadsBack(Mapping(m));
    assert !CleanSource(Mapping(m));
  }
}
