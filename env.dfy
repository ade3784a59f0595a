/** The process environment as the backend reads it with `os.getenv`. */
module Env {
  import opened Wrappers

  type Environment = map<string, string>

  /** `os.getenv(name)`: the value, or `None` when the variable is unset. */
  function Get(env: Environment, name: string): (v: Option<string>)
    ensures v.Some? <==> name in env
    ensures v.Some? ==> v.value == env[name]
  {
    if name in env then Some(env[name]) else None
  }

  /** `os.getenv(name, default)`. */
  function GetOr(env: Environment, name: string, default: string): (v: string)
    ensures name in env ==> v == env[name]
    ensures name !in env ==> v == default
  {
    Get(env, name).GetOr(default)
  }

  /** Python truthiness of an optional string: present and non-empty. */
  predicate IsSet(v: Option<string>) {
    v.Some? && v.value != ""
  }
}
