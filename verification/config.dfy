/** Application configuration (internal/config/config.go): the settings
    record, its defaults, validation, and the values derived from it. Loading
    from files and the environment is not modelled; whether a file is absent
    (`os.IsNotExist` on `os.Stat`) is a parameter `missing`. */
module Config {
  import opened Wrappers
  import opened Text

  datatype TlsConfig = TlsConfig(enabled: bool, certFile: string, keyFile: string, minTls: string)
  datatype ServerConfig = ServerConfig(host: string, port: int, readTimeout: int, writeTimeout: int, tls: TlsConfig)
  datatype EncryptionConfig = EncryptionConfig(enabled: bool, key: string)
  datatype DatabaseConfig = DatabaseConfig(path: string, encryption: EncryptionConfig)
  datatype OllamaConfig = OllamaConfig(baseUrl: string, embeddingModel: string, llmModel: string, timeout: int)
  datatype KetoConfig = KetoConfig(readUrl: string, writeUrl: string, timeout: int)
  datatype ServicesConfig = ServicesConfig(ollama: OllamaConfig, keto: KetoConfig)
  datatype SecurityConfig = SecurityConfig(authMode: string, jwtSecret: string, errorMode: string)
  datatype AppConfig = AppConfig(environment: string, logLevel: string, logFormat: string)

  datatype Config = Config(
    server: ServerConfig,
    database: DatabaseConfig,
    services: ServicesConfig,
    security: SecurityConfig,
    app: AppConfig)

  /** The configuration `setDefaults` produces; keys without a default keep
      Go's zero value. */
  function Defaults(): (cfg: Config)
    ensures !cfg.server.tls.enabled && !cfg.database.encryption.enabled
    ensures cfg.security.authMode == "mock" && cfg.security.errorMode == "detailed"
    ensures cfg.app.environment == "development"
  {
    Config(
      ServerConfig("localhost", 8080, 30, 30, TlsConfig(false, "", "", "1.3")),
      DatabaseConfig("vector_store.db", EncryptionConfig(false, "")),
      ServicesConfig(
        OllamaConfig("http://localhost:11434", "nomic-embed-text", "llama3", 60),
        KetoConfig("http://localhost:4466", "http://localhost:4467", 10)),
      SecurityConfig("mock", "", "detailed"),
      AppConfig("development", "info", "text"))
  }

  datatype ConfigError =
    | TlsCertRequired
    | TlsKeyRequired
    | TlsCertMissing(path: string)
    | TlsKeyMissing(path: string)
    | EncryptionKeyRequired
    | JwtSecretRequired

  /** `validate`: the first rule broken, in the order the Go code checks
      them, or None. */
  function Validate(cfg: Config, missing: string -> bool): (r: Option<ConfigError>)
    ensures r.None? <==>
      (cfg.server.tls.enabled ==>
         cfg.server.tls.certFile != "" && cfg.server.tls.keyFile != ""
         && !missing(cfg.server.tls.certFile) && !missing(cfg.server.tls.keyFile))
      && !(cfg.database.encryption.enabled && cfg.database.encryption.key == "")
      && !(cfg.security.authMode == "jwt" && cfg.security.jwtSecret == "")
    ensures cfg.server.tls.enabled && cfg.server.tls.certFile == "" ==> r == Some(TlsCertRequired)
    ensures r == Some(TlsKeyRequired) <==>
      cfg.server.tls.enabled && cfg.server.tls.certFile != "" && cfg.server.tls.keyFile == ""
  {
    var tls := cfg.server.tls;
    if tls.enabled && tls.certFile == "" then Some(TlsCertRequired)
    else if tls.enabled && tls.keyFile == "" then Some(TlsKeyRequired)
    else if tls.enabled && missing(tls.certFile) then Some(TlsCertMissing(tls.certFile))
    else if tls.enabled && missing(tls.keyFile) then Some(TlsKeyMissing(tls.keyFile))
    else if cfg.database.encryption.enabled && cfg.database.encryption.key == "" then Some(EncryptionKeyRequired)
    else if cfg.security.authMode == "jwt" && cfg.security.jwtSecret == "" then Some(JwtSecretRequired)
    else None
  }

  /** The defaults are valid whatever the file system holds. */
  lemma DefaultsValid(missing: string -> bool)
    ensures Validate(Defaults(), missing) == None
  {
  }

  /** Turning on encryption without a key, or JWT without a secret, makes an
      otherwise valid configuration invalid, and with TLS off no file is
      consulted. */
  lemma ValidateRules(cfg: Config, missing: string -> bool, other: string -> bool)
    ensures cfg.database.encryption.enabled && cfg.database.encryption.key == "" ==> Validate(cfg, missing).Some?
    ensures cfg.security.authMode == "jwt" && cfg.security.jwtSecret == "" ==> Validate(cfg, missing).Some?
    ensures !cfg.server.tls.enabled ==> Validate(cfg, missing) == Validate(cfg, other)
  {
  }

  const VersionTLS12: int := 0x0303
  const VersionTLS13: int := 0x0304

  /** The cipher suites offered for TLS 1.2 connections. */
  const CipherSuites: seq<int> := [
    0xc02c, // TLS_ECDHE_ECDSA_WITH_AES_256_GCM_SHA384
    0xc030, // TLS_ECDHE_RSA_WITH_AES_256_GCM_SHA384
    0xcca9, // TLS_ECDHE_ECDSA_WITH_CHACHA20_POLY1305
    0xcca8  // TLS_ECDHE_RSA_WITH_CHACHA20_POLY1305
  ]

  datatype TlsSettings = TlsSettings(minVersion: int, cipherSuites: seq<int>)

  /** `GetTLSConfig`: nothing when TLS is off; otherwise TLS 1.2 only when
      asked for by "1.2", TLS 1.3 for every other setting. */
  function GetTlsConfig(cfg: Config): (r: Option<TlsSettings>)
    ensures r.None? <==> !cfg.server.tls.enabled
    ensures r.Some? ==> r.value.minVersion in {VersionTLS12, VersionTLS13}
    ensures r.Some? ==> (r.value.minVersion == VersionTLS12 <==> cfg.server.tls.minTls == "1.2")
  {
    if !cfg.server.tls.enabled then None
    else
      var version :=
        if cfg.server.tls.minTls == "1.2" then VersionTLS12
        else if cfg.server.tls.minTls == "1.3" then VersionTLS13
        else VersionTLS13;
      Some(TlsSettings(version, CipherSuites))
  }

  const KeyPragma: string := "_pragma_key="
  const PageSizePragma: string := "_pragma_cipher_page_size=4096"

  /** `GetDatabaseDSN`: the path, with SQLCipher's key and page-size pragmas
      as a query string when encryption is on. */
  function GetDatabaseDsn(cfg: Config): (dsn: string)
    ensures !cfg.database.encryption.enabled ==> dsn == cfg.database.path
    ensures cfg.database.path <= dsn
  {
    var db := cfg.database;
    if db.encryption.enabled then db.path + "?" + KeyPragma + db.encryption.key + "&" + PageSizePragma
    else db.path
  }

  /** The path and the key can be read back from an encrypted DSN when the
      path has no '?' and the key has neither '?' nor '&'. */
  lemma {:induction false} DsnDecomposes(cfg: Config)
    requires cfg.database.encryption.enabled
    requires '?' !in cfg.database.path
    requires '?' !in cfg.database.encryption.key && '&' !in cfg.database.encryption.key
    ensures var parts := Split(GetDatabaseDsn(cfg), '?');
      |parts| == 2 && parts[0] == cfg.database.path
      && Split(parts[1], '&') == [KeyPragma + cfg.database.encryption.key, PageSizePragma]
  {
    var path, key := cfg.database.path, cfg.database.encryption.key;
    var head := KeyPragma + key;
    var query := head + ['&'] + PageSizePragma;
    assert GetDatabaseDsn(cfg) == path + ['?'] + query;
    assert '?' !in KeyPragma && '?' !in PageSizePragma && '&' !in KeyPragma && '&' !in PageSizePragma;
    assert '&' !in head && '?' !in head;
    assert '?' !in query;
    SplitTwo(path, query, '?');
    SplitTwo(head, PageSizePragma, '&');
  }

  /** `IsProduction`: an exact, case-sensitive test, so no other
      environment name, not even "Production", counts as production. */
  predicate IsProduction(cfg: Config): (b: bool)
    ensures b ==> cfg.app.environment == "production"
    ensures b ==> cfg.app.environment != "development" && cfg.app.environment != "Production"
  {
    cfg.app.environment == "production"
  }

  /** `IsDevelopment`: an exact, case-sensitive test. */
  predicate IsDevelopment(cfg: Config): (b: bool)
    ensures b ==> cfg.app.environment == "development"
    ensures b ==> cfg.app.environment != "production" && cfg.app.environment != "Development"
  {
    cfg.app.environment == "development"
  }

  /** The two environments exclude each other, and "staging" is neither. */
  lemma EnvironmentsExclusive(cfg: Config)
    ensures !(IsProduction(cfg) && IsDevelopment(cfg))
    ensures cfg.app.environment == "staging" ==> !IsProduction(cfg) && !IsDevelopment(cfg)
  {
  }
}
