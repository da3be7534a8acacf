/**
  Startup configuration (app/config.py): three settings read from the process
  environment, and the fail-fast check run by the startup hook before the
  database is initialised.

  The environment is passed in as a map from variable name to value instead
  of being read with `os.getenv`.
*/
module Config {
  import opened Wrappers

  const DatabaseUrlVar := "DATABASE_URL"
  const WebhookSecretVar := "WEBHOOK_SECRET"
  const LogLevelVar := "LOG_LEVEL"

  /** The level used when `LOG_LEVEL` is not in the environment. */
  const DefaultLogLevel := "INFO"

  /** The process environment: variable name to value. */
  type Environment = map<string, string>

  /** The three module-level settings. */
  datatype Settings = Settings(databaseUrl: Option<string>, webhookSecret: Option<string>, logLevel: string)

  /** The two ways the startup check can fail. */
  datatype ConfigError = SecretMissing | DbUrlMissing

  /** `os.getenv(name)`: the variable's value, or `None` when it is not set. */
  function Getenv(env: Environment, name: string): (v: Option<string>)
    ensures v.Some? <==> name in env
    ensures v.Some? ==> v.value == env[name]
  {
    if name in env then Some(env[name]) else None
  }

  /** The settings as the module reads them at import time. */
  function LoadSettings(env: Environment): (s: Settings)
    ensures s.databaseUrl == Getenv(env, DatabaseUrlVar)
    ensures s.webhookSecret == Getenv(env, WebhookSecretVar)
    ensures LogLevelVar !in env ==> s.logLevel == DefaultLogLevel
    ensures LogLevelVar in env ==> s.logLevel == env[LogLevelVar]
  {
    Settings(Getenv(env, DatabaseUrlVar), Getenv(env, WebhookSecretVar),
             Getenv(env, LogLevelVar).GetOr(DefaultLogLevel))
  }

  /** Python truthiness of an optional string: neither `None` nor empty. */
  predicate IsSet(v: Option<string>) {
    v.Some? && v.value != ""
  }

  /**
    `validate_config`: the secret is checked first, then the database URL;
    each check fails on an unset or empty value.
  */
  function ValidateConfig(secret: Option<string>, dbUrl: Option<string>): (r: Result<(), ConfigError>)
    ensures r.Ok? <==> IsSet(secret) && IsSet(dbUrl)
    ensures r == Err(SecretMissing) <==> !IsSet(secret)
    ensures r == Err(DbUrlMissing) <==> IsSet(secret) && !IsSet(dbUrl)
  {
    if !IsSet(secret) then Err(SecretMissing)
    else if !IsSet(dbUrl) then Err(DbUrlMissing)
    else Ok(())
  }

  /** The check applied to the settings loaded from an environment. */
  function ValidateEnvironment(env: Environment): (r: Result<(), ConfigError>)
    ensures r.Ok? <==> (WebhookSecretVar in env && env[WebhookSecretVar] != ""
                        && DatabaseUrlVar in env && env[DatabaseUrlVar] != "")
  {
    var s := LoadSettings(env);
    ValidateConfig(s.webhookSecret, s.databaseUrl)
  }

  /** The text of the `RuntimeError` raised for each failure. */
  function ErrorMessage(e: ConfigError): string {
    match e
    case SecretMissing => "WEBHOOK_SECRET is not set"
    case DbUrlMissing => "DATABASE_URL is not set"
  }

  /**
    The message of the `RuntimeError` the check raises names the variable the
    check found missing: the secret when it is unset or empty, the database
    URL otherwise.
  */
  lemma ValidationErrorMessage(secret: Option<string>, dbUrl: Option<string>)
    ensures ValidateConfig(secret, dbUrl).Err? ==>
              ErrorMessage(ValidateConfig(secret, dbUrl).error)
                == (if !IsSet(secret) then "WEBHOOK_SECRET is not set" else "DATABASE_URL is not set")
    ensures ValidateConfig(secret, dbUrl).Err? <==> !IsSet(secret) || !IsSet(dbUrl)
  {
  }

  /** When both values are missing, the secret is the one reported. */
  lemma SecretReportedFirst(secret: Option<string>, dbUrl: Option<string>)
    requires !IsSet(secret) && !IsSet(dbUrl)
    ensures ValidateConfig(secret, dbUrl) == Err(SecretMissing)
  {
  }

  /** An empty value fails exactly like an unset one. */
  lemma EmptyIsUnset(secret: Option<string>, other: Option<string>)
    ensures ValidateConfig(Some(""), other) == ValidateConfig(None, other)
    ensures ValidateConfig(secret, Some("")) == ValidateConfig(secret, None)
  {
  }

  /** `LOG_LEVEL` plays no part in validation: setting it to anything, or unsetting it, changes nothing. */
  lemma LogLevelPlaysNoPart(env: Environment, level: string)
    ensures ValidateEnvironment(env[LogLevelVar := level]) == ValidateEnvironment(env)
    ensures ValidateEnvironment(env - {LogLevelVar}) == ValidateEnvironment(env)
  {
  }
}
