/**
 * The process environment as a value: `os.getenv(name, default)` is a lookup
 * in a finite map, so every operation that reads configuration takes the map
 * as a parameter.
 */
module Env {

  import opened Wrappers
  import opened Text

  type Environment = map<string, string>

  /** `os.getenv(name)`: None when the variable is unset. */
  function GetenvOpt(env: Environment, name: string): Option<string> {
    if name in env then Some(env[name]) else None
  }

  /** `os.getenv(name, default)`: a variable set to "" stays "". */
  function Getenv(env: Environment, name: string, default: string): string {
    if name in env then env[name] else default
  }

  /** `(os.getenv(name, default) or "").strip()` (the `_env` helpers). */
  function EnvValue(env: Environment, name: string, default: string): (r: string)
    ensures r == Trim(r)
    ensures name !in env ==> r == Trim(default)
  {
    TrimIdempotent(Getenv(env, name, default));
    Trim(Getenv(env, name, default))
  }

  function OrEmpty(v: Option<string>): string {
    match v
    case Some(s) => s
    case None => ""
  }

  /** `str(v or "").strip().lower() in ("1", "true", "yes", "on")` (mailer `_bool`). */
  predicate IsTruthy(v: Option<string>) {
    Norm(OrEmpty(v)) in {"1", "true", "yes", "on"}
  }

  /** `_flag(name, default)`: the variable, or `str(default)` when unset, read by `IsTruthy`. */
  predicate Flag(env: Environment, name: string, default: nat) {
    IsTruthy(Some(Getenv(env, name, NatToString(default))))
  }

  /** An unset flag is on exactly when its default is 1. */
  lemma FlagDefault(env: Environment, name: string, default: nat)
    requires name !in env && default <= 1
    ensures Flag(env, name, default) <==> default == 1
  {
    assert NatToString(default) == [DigitChar(default)];
    var s := NatToString(default);
    assert IsDigit(s[0]);
    TrimOfTrimmed(s);
    assert Norm(s) == s;
  }

  /** None, the empty string and white space are never truthy. */
  lemma BlankIsFalse(v: Option<string>)
    requires IsBlank(OrEmpty(v))
    ensures !IsTruthy(v)
  {
    assert Trim(OrEmpty(v)) == [];
  }
}
