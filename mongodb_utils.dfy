/** The connection URL resolution of `connect_to_mongodb`: the URL must be set, and a
    `<db_password>` placeholder in it is replaced by the password, which must then be set. The
    connection attempt itself is the outcome `connected`. */
module MongoDbUtils {
  import opened Wrappers
  import opened Strings
  import opened Env

  const Placeholder: string := "<db_password>"

  /** The URL `mongoengine.connect` is given, or the ValueError's message. */
  function ResolveUrl(env: Environment): (r: Result<string, string>)
    ensures !IsSet(Get(env, "MONGODB_URL")) ==> r == Err("MONGODB_URL environment variable not set")
    ensures IsSet(Get(env, "MONGODB_URL")) && Contains(env["MONGODB_URL"], Placeholder) ==>
              (IsSet(Get(env, "MONGODB_PASSWORD")) ==> r == Ok(ReplaceAll(env["MONGODB_URL"], Placeholder, env["MONGODB_PASSWORD"])))
              && (!IsSet(Get(env, "MONGODB_PASSWORD")) ==> r == Err("MONGODB_PASSWORD environment variable not set"))
    ensures IsSet(Get(env, "MONGODB_URL")) && !Contains(env["MONGODB_URL"], Placeholder) ==> r == Ok(env["MONGODB_URL"])
  {
    var url := Get(env, "MONGODB_URL");
    if !IsSet(url) then Err("MONGODB_URL environment variable not set")
    else if Contains(url.value, Placeholder) then
      var password := Get(env, "MONGODB_PASSWORD");
      if IsSet(password) then Ok(ReplaceAll(url.value, Placeholder, password.value))
      else Err("MONGODB_PASSWORD environment variable not set")
    else Ok(url.value)
  }

  /** The database name, 'hireiq_db' unless MONGODB_NAME is set. */
  function DatabaseName(env: Environment): (name: string)
    ensures "MONGODB_NAME" !in env ==> name == "hireiq_db"
    ensures "MONGODB_NAME" in env ==> name == env["MONGODB_NAME"]
  {
    GetOr(env, "MONGODB_NAME", "hireiq_db")
  }

  /** `connect_to_mongodb`: True exactly when the URL resolves and the connection succeeds. */
  function ConnectToMongoDb(env: Environment, connected: bool): (ok: bool)
    ensures ok <==> ResolveUrl(env).Ok? && connected
    ensures !IsSet(Get(env, "MONGODB_URL")) ==> !ok
  {
    ResolveUrl(env).Ok? && connected
  }

  /** Without the placeholder, the password plays no part: two environments that differ only in
      MONGODB_PASSWORD resolve alike. */
  lemma {:induction false} PasswordOnlyForPlaceholder(env: Environment, password: string)
    requires "MONGODB_URL" in env && !Contains(env["MONGODB_URL"], Placeholder)
    ensures ResolveUrl(env["MONGODB_PASSWORD" := password]) == ResolveUrl(env)
    ensures ResolveUrl(env - {"MONGODB_PASSWORD"}) == ResolveUrl(env)
  {
  }

  /** Every placeholder is replaced: a URL made of pieces without a `<` around placeholders
      resolves to the same pieces around the password. */
  lemma {:induction false} EveryPlaceholderReplaced(pieces: seq<string>, password: string)
    requires |pieces| > 0 && forall i :: 0 <= i < |pieces| ==> '<' !in pieces[i]
    ensures ReplaceAll(Join(pieces, Placeholder), Placeholder, password) == Join(pieces, password)
  {
    if |pieces| == 1 {
      NotContainsWithoutFirstChar(pieces[0], Placeholder);
      ReplaceAllAbsent(pieces[0], Placeholder, password);
    } else {
      EveryPlaceholderReplaced(pieces[1..], password);
      ReplaceAllAtFirst(pieces[0], Placeholder, Join(pieces[1..], Placeholder), password);
    }
  }

  /** An Atlas URL with the placeholder resolves to the URL with the password in its place,
      whatever the password (once it is set). */
  lemma {:induction false} AtlasUrl(env: Environment, user: string, host: string, password: string)
    requires '<' !in user && '<' !in host && user != "" && password != ""
    requires env == map["MONGODB_URL" := "mongodb+srv://" + user + ":" + Placeholder + "@" + host,
                        "MONGODB_PASSWORD" := password]
    ensures ResolveUrl(env) == Ok("mongodb+srv://" + user + ":" + password + "@" + host)
  {
    var a := "mongodb+srv://" + user + ":";
    var b := "@" + host;
    assert '<' !in a && '<' !in b;
    assert "MONGODB_URL" != "MONGODB_PASSWORD";
    assert env["MONGODB_PASSWORD"] == password;
    assert env["MONGODB_URL"] == a + Placeholder + b;
    ContainsInfix(a, Placeholder, b);
    ReplaceAllAtFirst(a, Placeholder, b, password);
    NotContainsWithoutFirstChar(b, Placeholder);
    ReplaceAllAbsent(b, Placeholder, password);
    assert a + password + b == "mongodb+srv://" + user + ":" + password + "@" + host;
  }
}
