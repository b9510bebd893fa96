/** The configuration logic of `app/config.py`: the production secret
    validation run at start-up, and the two settings parsed from the
    environment (the NeoGov excluded departments and the dev-login gate).
    The environment and the loaded `app.config` are string maps. */
module Config {
  import opened Wrappers
  import opened Seqs
  import opened Text

  /** `os.environ.get(key, default)` */
  function EnvGet(env: map<string, string>, key: string, default: string): string {
    if key in env then env[key] else default
  }

  /** Python truthiness of an optional string: present and non-empty. */
  predicate Truthy(v: Option<string>) {
    v.Some? && v.value != ""
  }

  // ------------------------------------------------ excluded departments

  const ExcludedDepartmentsVar: string := "NEOGOV_EXCLUDED_DEPARTMENTS"
  const DefaultExcludedDepartments: string := "ADMINISTRATION"

  /** A comma-separated entry that is kept: not blank once stripped. */
  function NonBlank(entry: string): bool {
    Strip(entry) != ""
  }

  /** `NEOGOV_EXCLUDED_DEPARTMENTS`: the comma-separated entries of the
      variable (default "ADMINISTRATION"), stripped, blank ones dropped. */
  function ExcludedDepartments(env: map<string, string>): (r: seq<string>)
    ensures |r| <= |Split(EnvGet(env, ExcludedDepartmentsVar, DefaultExcludedDepartments), ',')|
  {
    FilterMap(Split(EnvGet(env, ExcludedDepartmentsVar, DefaultExcludedDepartments), ','), NonBlank, Strip)
  }

  /** A department code as the setting can hold it. */
  predicate CanonicalCode(code: string) {
    code != "" && Strip(code) == code && ',' !in code
  }

  /** Every excluded department is non-empty, has no surrounding
      whitespace and no comma. */
  lemma ExcludedCanonical(env: map<string, string>, code: string)
    requires code in ExcludedDepartments(env)
    ensures CanonicalCode(code)
  {
    var pieces := Split(EnvGet(env, ExcludedDepartmentsVar, DefaultExcludedDepartments), ',');
    var piece := FilterMapSound(pieces, NonBlank, Strip, code);
    StripIdempotent(piece);
    var k :| 0 <= k < |pieces| && pieces[k] == piece;
    assert ',' !in piece;
    if ',' in code {
      StripChars(piece, ',');
      assert false;
    }
  }

  /** Without the variable, only ADMINISTRATION is excluded. */
  lemma ExcludedDefault(env: map<string, string>)
    requires ExcludedDepartmentsVar !in env
    ensures ExcludedDepartments(env) == [DefaultExcludedDepartments]
  {
    var d := DefaultExcludedDepartments;
    assert d == ['A', 'D', 'M', 'I', 'N', 'I', 'S', 'T', 'R', 'A', 'T', 'I', 'O', 'N'];
    SplitNoSep(d, ',');
    StripTrimmed(d);
    assert NonBlank(d);
    assert [d][..0] == [];
    assert FilterMap([d], NonBlank, Strip) == FilterMap([], NonBlank, Strip) + [Strip(d)];
  }

  /** A variable that is set but blank excludes nothing. */
  lemma ExcludedBlank(env: map<string, string>)
    requires ExcludedDepartmentsVar in env && ',' !in env[ExcludedDepartmentsVar]
    requires Strip(env[ExcludedDepartmentsVar]) == ""
    ensures ExcludedDepartments(env) == []
  {
    var v := env[ExcludedDepartmentsVar];
    SplitNoSep(v, ',');
    assert !NonBlank(v);
    assert [v][..0] == [];
    assert FilterMap([v], NonBlank, Strip) == FilterMap([], NonBlank, Strip);
  }

  /** Canonical codes are kept and left as they are. */
  lemma CanonicalKept(codes: seq<string>)
    requires forall k :: 0 <= k < |codes| ==> CanonicalCode(codes[k])
    ensures FilterMap(codes, NonBlank, Strip) == codes
  {
    var r := FilterMap(codes, NonBlank, Strip);
    assert forall x :: x in codes ==> NonBlank(x);
    FilterMapAllKept(codes, NonBlank, Strip);
    forall k | 0 <= k < |codes|
      ensures r[k] == codes[k]
    {
      assert r[k] == Strip(codes[k]);
    }
  }

  /** The comma-joined text of canonical codes splits into the codes,
      which are all kept unchanged. */
  lemma CanonicalJoinParses(codes: seq<string>)
    requires |codes| >= 1
    requires forall k :: 0 <= k < |codes| ==> CanonicalCode(codes[k])
    ensures Split(Join(codes, ','), ',') == codes
    ensures FilterMap(codes, NonBlank, Strip) == codes
  {
    SplitJoin(codes, ',');
    CanonicalKept(codes);
  }

  /** Writing a list of codes comma-separated into the variable and
      parsing it gives the list back. */
  lemma ExcludedRoundTrip(env: map<string, string>, codes: seq<string>)
    requires |codes| >= 1
    requires forall k :: 0 <= k < |codes| ==> CanonicalCode(codes[k])
    ensures ExcludedDepartments(env[ExcludedDepartmentsVar := Join(codes, ',')]) == codes
  {
    CanonicalJoinParses(codes);
  }

  // --------------------------------------------------------- dev login

  /** The configuration classes `config_by_name` selects from, and the
      base class they share. */
  datatype ConfigClass = BaseConfig | DevelopmentConfig | TestingConfig | ProductionConfig

  const DevLoginVar: string := "DEV_LOGIN_ENABLED"

  /** `DEV_LOGIN_ENABLED` of each class: the lower-cased variable must equal
      "true" (default "false", "true" in development); testing always
      enables it and production never does. */
  function DevLoginEnabled(cls: ConfigClass, env: map<string, string>): (r: bool)
    ensures cls == ProductionConfig ==> !r
    ensures cls == TestingConfig ==> r
    ensures (cls == BaseConfig || cls == DevelopmentConfig) && DevLoginVar in env ==>
      (r <==> Lower(env[DevLoginVar]) == "true")
    ensures DevLoginVar !in env ==> (r <==> cls == DevelopmentConfig || cls == TestingConfig)
  {
    match cls
    case BaseConfig => Lower(EnvGet(env, DevLoginVar, "false")) == "true"
    case DevelopmentConfig => Lower(EnvGet(env, DevLoginVar, "true")) == "true"
    case TestingConfig => true
    case ProductionConfig => false
  }

  /** The gate ignores letter case: a value and its lower-case form give
      the same setting. */
  lemma DevLoginIgnoresCase(cls: ConfigClass, env: map<string, string>, value: string)
    ensures DevLoginEnabled(cls, env[DevLoginVar := value]) == DevLoginEnabled(cls, env[DevLoginVar := Lower(value)])
  {
    LowerIdempotent(value);
  }

  // ------------------------------------------------ production secrets

  /** The `app.config` entries the production validation reads. */
  datatype Setting =
    | SecretKey | AzureClientId | AzureClientSecret | AzureTenantId
    | AzureRedirectUri | NeoGovApiKey | LogLevelSetting

  /** `app_config.get(key)` */
  function ConfigGet(cfg: map<Setting, string>, key: Setting): Option<string> {
    if key in cfg then Some(cfg[key]) else None
  }

  const DefaultSecretKey: string := "dev-secret-change-me"
  const RequiredAzureKeys: seq<Setting> := [AzureClientId, AzureClientSecret, AzureTenantId]
  const DefaultRedirectUri: string := "http://localhost:5000/auth/callback"
  const HttpsScheme: string := "https://"

  /** A hard failure: start-up is refused. */
  datatype ConfigError =
    | InsecureSecretKey
    | MissingAzureCredentials(keys: seq<Setting>)
    | InsecureRedirectUri(uri: string)

  /** A soft failure: only a warning is logged. */
  datatype ConfigWarning = NeoGovKeyUnset | DebugLogLevel

  /** A setting whose value is missing or empty. */
  function KeyUnset(cfg: map<Setting, string>): Setting -> bool {
    key => !Truthy(ConfigGet(cfg, key))
  }

  /** `missing_azure`: the required Entra ID keys that are unset, in order. */
  function MissingAzure(cfg: map<Setting, string>): (r: seq<Setting>)
    ensures |r| <= |RequiredAzureKeys|
    ensures forall key :: key in r <==> key in RequiredAzureKeys && !Truthy(ConfigGet(cfg, key))
  {
    Filter(RequiredAzureKeys, KeyUnset(cfg))
  }

  /** `app_config.get("AZURE_REDIRECT_URI", "")` */
  function RedirectUri(cfg: map<Setting, string>): string {
    if AzureRedirectUri in cfg then cfg[AzureRedirectUri] else ""
  }

  /** A redirect URI production refuses: set, but not HTTPS. */
  predicate InsecureRedirect(uri: string) {
    uri != "" && !StartsWith(uri, HttpsScheme)
  }

  predicate SecretKeyIsDefault(cfg: map<Setting, string>) {
    ConfigGet(cfg, SecretKey) == Some(DefaultSecretKey)
  }

  /** `app_config.get("LOG_LEVEL", "").upper() == "DEBUG"` */
  predicate DebugLogging(cfg: map<Setting, string>) {
    Upper(if LogLevelSetting in cfg then cfg[LogLevelSetting] else "") == "DEBUG"
  }

  /** The hard failures of a configuration, in the order they are checked:
      none exactly when all three checks pass, and at most one per check. */
  function HardErrors(cfg: map<Setting, string>): (r: seq<ConfigError>)
    ensures r == [] <==> !SecretKeyIsDefault(cfg) && MissingAzure(cfg) == [] && !InsecureRedirect(RedirectUri(cfg))
    ensures |r| <= 3
  {
    (if SecretKeyIsDefault(cfg) then [InsecureSecretKey] else [])
    + (if MissingAzure(cfg) != [] then [MissingAzureCredentials(MissingAzure(cfg))] else [])
    + (if InsecureRedirect(RedirectUri(cfg)) then [InsecureRedirectUri(RedirectUri(cfg))] else [])
  }

  /** Azure credentials are reported missing exactly when one of the
      three keys is unset. */
  lemma MissingAzureNonEmpty(cfg: map<Setting, string>)
    ensures MissingAzure(cfg) != [] <==> exists key :: key in RequiredAzureKeys && !Truthy(ConfigGet(cfg, key))
  {
    if MissingAzure(cfg) != [] {
      assert MissingAzure(cfg)[0] in MissingAzure(cfg);
    }
  }

  /** The three error lists the checks contribute, concatenated. */
  lemma HardErrorsParts(cfg: map<Setting, string>, e1: seq<ConfigError>, e2: seq<ConfigError>, e3: seq<ConfigError>)
    requires e1 == if SecretKeyIsDefault(cfg) then [InsecureSecretKey] else []
    requires e2 == if MissingAzure(cfg) != [] then [MissingAzureCredentials(MissingAzure(cfg))] else []
    requires e3 == if InsecureRedirect(RedirectUri(cfg)) then [InsecureRedirectUri(RedirectUri(cfg))] else []
    ensures forall e :: e in HardErrors(cfg) <==> e in e1 || e in e2 || e in e3
  {
    assert HardErrors(cfg) == e1 + e2 + e3;
  }

  /** Each failing check, and only a failing check, has its error in the
      list. */
  lemma HardErrorsExplained(cfg: map<Setting, string>)
    ensures InsecureSecretKey in HardErrors(cfg) <==> SecretKeyIsDefault(cfg)
    ensures MissingAzureCredentials(MissingAzure(cfg)) in HardErrors(cfg) <==>
      exists key :: key in RequiredAzureKeys && !Truthy(ConfigGet(cfg, key))
    ensures InsecureRedirectUri(RedirectUri(cfg)) in HardErrors(cfg) <==> InsecureRedirect(RedirectUri(cfg))
  {
    MissingAzureNonEmpty(cfg);
    HardErrorsParts(cfg,
      if SecretKeyIsDefault(cfg) then [InsecureSecretKey] else [],
      if MissingAzure(cfg) != [] then [MissingAzureCredentials(MissingAzure(cfg))] else [],
      if InsecureRedirect(RedirectUri(cfg)) then [InsecureRedirectUri(RedirectUri(cfg))] else []);
  }

  /** The list holds no error but those of the three checks. */
  lemma HardErrorsOnly(cfg: map<Setting, string>)
    ensures forall e :: e in HardErrors(cfg) ==>
      e == InsecureSecretKey || e == MissingAzureCredentials(MissingAzure(cfg)) || e == InsecureRedirectUri(RedirectUri(cfg))
  {
    HardErrorsParts(cfg,
      if SecretKeyIsDefault(cfg) then [InsecureSecretKey] else [],
      if MissingAzure(cfg) != [] then [MissingAzureCredentials(MissingAzure(cfg))] else [],
      if InsecureRedirect(RedirectUri(cfg)) then [InsecureRedirectUri(RedirectUri(cfg))] else []);
  }

  /** All failures are reported together: one error per failing check. */
  lemma HardErrorsCount(cfg: map<Setting, string>)
    ensures |HardErrors(cfg)| ==
      (if SecretKeyIsDefault(cfg) then 1 else 0)
      + (if MissingAzure(cfg) != [] then 1 else 0)
      + (if InsecureRedirect(RedirectUri(cfg)) then 1 else 0)
  {
  }

  /** `BaseConfig.validate_production_secrets(app_config)`: the hard
      checks collect their errors, which are raised together as one
      RuntimeError; only when there is none are the two soft checks
      (no NeoGov key, DEBUG log level) made, and they only warn. */
  method ValidateProductionSecrets(cfg: map<Setting, string>) returns (r: Result<seq<ConfigWarning>, seq<ConfigError>>)
    ensures r.Failure? <==> HardErrors(cfg) != []
    ensures r.Failure? ==> r.error == HardErrors(cfg)
    ensures r.Success? ==> |r.value| <= 2
    ensures r.Success? ==> (NeoGovKeyUnset in r.value <==> !Truthy(ConfigGet(cfg, NeoGovApiKey)))
    ensures r.Success? ==> (DebugLogLevel in r.value <==> DebugLogging(cfg))
  {
    var errors: seq<ConfigError> := [];
    if SecretKeyIsDefault(cfg) {
      errors := errors + [InsecureSecretKey];
    }
    var missing := MissingAzure(cfg);
    if missing != [] {
      errors := errors + [MissingAzureCredentials(missing)];
    }
    var uri := RedirectUri(cfg);
    if InsecureRedirect(uri) {
      errors := errors + [InsecureRedirectUri(uri)];
    }
    if errors != [] {
      return Failure(errors);
    }
    var warnings: seq<ConfigWarning> := [];
    if !Truthy(ConfigGet(cfg, NeoGovApiKey)) {
      warnings := warnings + [NeoGovKeyUnset];
    }
    if DebugLogging(cfg) {
      warnings := warnings + [DebugLogLevel];
    }
    return Success(warnings);
  }

  /** The `app.config` values the validation reads, as `ProductionConfig`
      loads them from the environment. */
  function ProductionSettings(env: map<string, string>): map<Setting, string> {
    map[
      SecretKey := EnvGet(env, "SECRET_KEY", DefaultSecretKey),
      AzureClientId := EnvGet(env, "AZURE_CLIENT_ID", ""),
      AzureClientSecret := EnvGet(env, "AZURE_CLIENT_SECRET", ""),
      AzureTenantId := EnvGet(env, "AZURE_TENANT_ID", ""),
      AzureRedirectUri := EnvGet(env, "AZURE_REDIRECT_URI", DefaultRedirectUri),
      NeoGovApiKey := EnvGet(env, "NEOGOV_API_KEY", ""),
      LogLevelSetting := EnvGet(env, "LOG_LEVEL", "WARNING")]
  }

  /** The default redirect URI is plain HTTP. */
  lemma DefaultRedirectInsecure()
    ensures InsecureRedirect(DefaultRedirectUri)
  {
    assert DefaultRedirectUri[4] == ':' && HttpsScheme[4] == 's';
  }

  /** With an empty environment every Entra ID key is unset. */
  lemma EmptyEnvironmentMissesAzure()
    ensures MissingAzure(ProductionSettings(map[])) == RequiredAzureKeys
  {
    var cfg := ProductionSettings(map[]);
    assert cfg[AzureClientId] == "" && cfg[AzureClientSecret] == "" && cfg[AzureTenantId] == "";
    FilterAll(RequiredAzureKeys, KeyUnset(cfg));
  }

  /** Production started with an empty environment fails all three hard
      checks at once: default secret key, every Entra ID key missing, and
      the plain-HTTP default redirect URI. */
  lemma EmptyEnvironmentRejected()
    ensures HardErrors(ProductionSettings(map[])) ==
      [InsecureSecretKey, MissingAzureCredentials(RequiredAzureKeys), InsecureRedirectUri(DefaultRedirectUri)]
  {
    var cfg := ProductionSettings(map[]);
    assert cfg[SecretKey] == DefaultSecretKey && cfg[AzureRedirectUri] == DefaultRedirectUri;
    EmptyEnvironmentMissesAzure();
    DefaultRedirectInsecure();
  }
}
