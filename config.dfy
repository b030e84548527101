/**
 * Package `config`: the application settings, their defaults and the
 * field-wise override with which the file, environment and flag sources are
 * merged by priority.
 */
module Configuration {

  /** `config.Config`, field by field in declaration order. */
  datatype Config = Config(
    ServerAddress: string,
    BaseURL: string,
    StoragePath: string,
    BasePath: string,
    DBMigrationPath: string,
    EnableHTTPS: bool)

  /** The zero value `Config{}`. */
  const Zero: Config := Config("", "", "", "", "", false)

  function GetDefaultConfig(): Config
  {
    Config(":8080", "http://127.0.0.1:8080", "", "", "file://migrations", false)
  }

  /**
   * The flag set that `parseConfigs` reads when no flag is given: every
   * string flag defaults to the current (default) value, `-s` to false, and
   * `DBMigrationPath` has no flag.
   */
  function FlagDefaults(): Config
  {
    var d := GetDefaultConfig();
    Config(d.ServerAddress, d.BaseURL, d.StoragePath, d.BasePath, "", false)
  }

  // ---------------------------------------------------------------------
  // Reflection view: the fields as the loop over `NumField()` sees them.

  const NumField: nat := 6

  /** A field value as `reflect.Value` carries it. */
  datatype Value = Text(s: string) | Flag(b: bool)

  predicate IsZero(v: Value)
  {
    match v
    case Text(s) => s == ""
    case Flag(b) => !b
  }

  function Field(c: Config, j: nat): Value
    requires j < NumField
  {
    if j == 0 then Text(c.ServerAddress)
    else if j == 1 then Text(c.BaseURL)
    else if j == 2 then Text(c.StoragePath)
    else if j == 3 then Text(c.BasePath)
    else if j == 4 then Text(c.DBMigrationPath)
    else Flag(c.EnableHTTPS)
  }

  /** `Field(j).Set(v)` for a value of the field's own kind. */
  function SetField(c: Config, j: nat, v: Value): (r: Config)
    requires j < NumField
    requires v.Text? == Field(c, j).Text?
    ensures Field(r, j) == v
    ensures forall k :: 0 <= k < NumField && k != j ==> Field(r, k) == Field(c, k)
  {
    if j == 0 then c.(ServerAddress := v.s)
    else if j == 1 then c.(BaseURL := v.s)
    else if j == 2 then c.(StoragePath := v.s)
    else if j == 3 then c.(BasePath := v.s)
    else if j == 4 then c.(DBMigrationPath := v.s)
    else c.(EnableHTTPS := v.b)
  }

  /** Two configs with the same fields are the same config. */
  lemma FieldsDetermine(a: Config, b: Config)
    requires forall j :: 0 <= j < NumField ==> Field(a, j) == Field(b, j)
    ensures a == b
  {
    assert Field(a, 0) == Field(b, 0) && Field(a, 1) == Field(b, 1) && Field(a, 2) == Field(b, 2);
    assert Field(a, 3) == Field(b, 3) && Field(a, 4) == Field(b, 4) && Field(a, 5) == Field(b, 5);
  }

  // ---------------------------------------------------------------------
  // The override, by named fields: a non-zero field of `choice` wins.

  function Merge(cfg: Config, choice: Config): Config
  {
    Config(
      if choice.ServerAddress != "" then choice.ServerAddress else cfg.ServerAddress,
      if choice.BaseURL != "" then choice.BaseURL else cfg.BaseURL,
      if choice.StoragePath != "" then choice.StoragePath else cfg.StoragePath,
      if choice.BasePath != "" then choice.BasePath else cfg.BasePath,
      if choice.DBMigrationPath != "" then choice.DBMigrationPath else cfg.DBMigrationPath,
      choice.EnableHTTPS || cfg.EnableHTTPS)
  }

  /**
   * `cfg.ChangeByPriority(choice)`: the loop over the field indices that
   * copies every non-zero field of `choice`. This is the behaviour that
   * config_test.go asserts; the source as written panics instead (see
   * `ChangeByPriorityAsWritten`).
   */
  method ChangeByPriority(cfg: Config, choice: Config) returns (r: Config)
    ensures forall j :: 0 <= j < NumField ==>
      Field(r, j) == if IsZero(Field(choice, j)) then Field(cfg, j) else Field(choice, j)
    ensures r == Merge(cfg, choice)
  {
    r := cfg;
    for j := 0 to NumField
      invariant forall k :: 0 <= k < j ==>
        Field(r, k) == if IsZero(Field(choice, k)) then Field(cfg, k) else Field(choice, k)
      invariant forall k :: j <= k < NumField ==> Field(r, k) == Field(cfg, k)
    {
      if !IsZero(Field(choice, j)) {
        r := SetField(r, j, Field(choice, j));
      }
    }
    forall j | 0 <= j < NumField
      ensures Field(r, j) == Field(Merge(cfg, choice), j)
    {
    }
    FieldsDetermine(r, Merge(cfg, choice));
  }

  /** Merging the zero config changes nothing. */
  lemma MergeZero(c: Config)
    ensures Merge(c, Zero) == c
  {
  }

  /** Applying the same override twice is applying it once. */
  lemma MergeIdempotent(a: Config, c: Config)
    ensures Merge(Merge(a, c), c) == Merge(a, c)
  {
  }

  /** Overrides compose: two successive merges are one merge with the merged override. */
  lemma MergeAssociative(a: Config, b: Config, c: Config)
    ensures Merge(Merge(a, b), c) == Merge(a, Merge(b, c))
  {
  }

  /** Once a source has switched HTTPS on, no later source can switch it off. */
  lemma HTTPSSticky(a: Config, c: Config)
    requires a.EnableHTTPS
    ensures Merge(a, c).EnableHTTPS
  {
  }

  /** The last non-zero value of a list of sources, or the first one if all later ones are zero. */
  function Latest(vs: seq<Value>): Value
    requires |vs| >= 1
  {
    if |vs| == 1 || !IsZero(vs[|vs| - 1]) then vs[|vs| - 1] else Latest(vs[..|vs| - 1])
  }

  /**
   * `parseConfigs`: start from the defaults and apply the file, the
   * environment and the flags in that order, so each field of the result is
   * the value of the last source that set it.
   */
  method ParseConfigs(fileCfg: Config, envCfg: Config, flagCfg: Config) returns (cfg: Config)
    ensures forall j :: 0 <= j < NumField ==>
      Field(cfg, j) == Latest([Field(GetDefaultConfig(), j), Field(fileCfg, j), Field(envCfg, j), Field(flagCfg, j)])
    ensures cfg == Merge(Merge(Merge(GetDefaultConfig(), fileCfg), envCfg), flagCfg)
  {
    cfg := GetDefaultConfig();
    ghost var c0 := cfg;
    cfg := ChangeByPriority(cfg, fileCfg);
    ghost var c1 := cfg;
    cfg := ChangeByPriority(cfg, envCfg);
    ghost var c2 := cfg;
    cfg := ChangeByPriority(cfg, flagCfg);
    forall j | 0 <= j < NumField
      ensures Field(cfg, j) == Latest([Field(c0, j), Field(fileCfg, j), Field(envCfg, j), Field(flagCfg, j)])
    {
      var vs := [Field(c0, j), Field(fileCfg, j), Field(envCfg, j), Field(flagCfg, j)];
      assert vs[..3] == [Field(c0, j), Field(fileCfg, j), Field(envCfg, j)];
      assert vs[..3][..2] == [Field(c0, j), Field(fileCfg, j)];
      assert vs[..3][..2][..1] == [Field(c0, j)];
      assert Field(c1, j) == Latest(vs[..3][..2]);
      assert Field(c2, j) == Latest(vs[..3]);
    }
  }

  /** With no source setting anything, the defaults stand. */
  lemma ParseConfigsNoSources()
    ensures Merge(Merge(Merge(GetDefaultConfig(), Zero), Zero), Zero) == GetDefaultConfig()
  {
  }

  // ---------------------------------------------------------------------
  // The source as written: `reflect.ValueOf(&cfg).Elem()` is the `*Config`
  // (the receiver is already a pointer), a value of pointer kind, and
  // `Field(j)` on it panics the first time a non-zero field is to be copied.

  datatype Reflected = Done(cfg: Config) | Panicked

  function ReflectLoop(cfg: Config, choice: Config, j: nat): (r: Reflected)
    requires j <= NumField
    ensures r.Done? ==> r.cfg == cfg
    ensures r == Panicked <==> exists k :: j <= k < NumField && !IsZero(Field(choice, k))
    decreases NumField - j
  {
    if j == NumField then Done(cfg)
    else if !IsZero(Field(choice, j)) then Panicked
    else ReflectLoop(cfg, choice, j + 1)
  }

  function ChangeByPriorityAsWritten(cfg: Config, choice: Config): Reflected
  {
    ReflectLoop(cfg, choice, 0)
  }

  /** As written, the override panics exactly when it has something to copy, and otherwise changes nothing. */
  lemma AsWrittenPanicsUnlessZero(cfg: Config, choice: Config)
    ensures ChangeByPriorityAsWritten(cfg, choice) == (if choice == Zero then Done(cfg) else Panicked)
  {
    if choice != Zero {
      if forall k :: 0 <= k < NumField ==> IsZero(Field(choice, k)) {
        forall k | 0 <= k < NumField ensures Field(choice, k) == Field(Zero, k) { }
        FieldsDetermine(choice, Zero);
      }
    }
  }

  function ParseConfigsAsWritten(fileCfg: Config, envCfg: Config, flagCfg: Config): Reflected
  {
    match ChangeByPriorityAsWritten(GetDefaultConfig(), fileCfg)
    case Panicked => Panicked
    case Done(c1) =>
      match ChangeByPriorityAsWritten(c1, envCfg)
      case Panicked => Panicked
      case Done(c2) => ChangeByPriorityAsWritten(c2, flagCfg)
  }

  /** The test's override of BaseURL alone panics as written, and gives the asserted config when corrected. */
  lemma AsWrittenTestCase()
    ensures ChangeByPriorityAsWritten(GetDefaultConfig(), Zero.(BaseURL := "https://ololo.com")) == Panicked
    ensures Merge(GetDefaultConfig(), Zero.(BaseURL := "https://ololo.com"))
         == GetDefaultConfig().(BaseURL := "https://ololo.com")
  {
    assert !IsZero(Field(Zero.(BaseURL := "https://ololo.com"), 1));
  }

  /** Started without flags, `parseConfigs` as written always panics: the flag defaults are not zero. */
  lemma AsWrittenStartupPanics(fileCfg: Config, envCfg: Config)
    ensures ParseConfigsAsWritten(fileCfg, envCfg, FlagDefaults()) == Panicked
  {
    assert !IsZero(Field(FlagDefaults(), 0));
  }
}
