/** The production settings derived from the environment: boolean flags, the HSTS max-age, the
    allowed hosts and the CORS and CSRF origin lists. */
module Settings {
  import opened Wrappers
  import opened Strings
  import opened Env

  /** `os.getenv(name, default).lower() == 'true'`. */
  function Flag(env: Environment, name: string, default: string): (b: bool)
    ensures name in env ==> (b <==> Lower(env[name]) == "true")
    ensures name !in env ==> (b <==> Lower(default) == "true")
  {
    Lower(GetOr(env, name, default)) == "true"
  }

  /** Any capitalisation of "true" sets a flag, and nothing else does: "True" and "TRUE" do,
      "1" and "yes" do not. */
  lemma FlagSpellings(name: string, default: string)
    ensures Flag(map[name := "True"], name, default) && Flag(map[name := "TRUE"], name, default)
    ensures !Flag(map[name := "1"], name, default) && !Flag(map[name := "yes"], name, default)
  {
    assert Lower("True") == "true" && Lower("TRUE") == "true";
    assert Lower("1") != "true" && |Lower("yes")| != |"true"|;
  }

  const NoHosts: set<string> := {"localhost", "127.0.0.1", "0.0.0.0"}
  const DevOrigins: seq<string> := ["http://localhost:3000", "http://127.0.0.1:3000"]

  /** `[host.strip() for host in value.split(',')]`. */
  function HostList(value: string): (hosts: seq<string>)
    ensures |hosts| == |Split(value, ',')|
    ensures forall i :: 0 <= i < |hosts| ==> hosts[i] == Strip(Split(value, ',')[i])
  {
    var parts := Split(value, ',');
    seq(|parts|, i requires 0 <= i < |parts| => Strip(parts[i]))
  }

  /** There is one host more than there are commas. */
  lemma HostCount(value: string)
    ensures |HostList(value)| == CountChar(value, ',') + 1
  {
    SplitCount(value, ',');
  }

  /** `"https://" + host` for each host that is not a local name, in order. */
  function HttpsOrigins(hosts: seq<string>): (origins: seq<string>)
    ensures |origins| == |NonLocal(hosts)|
    ensures forall i :: 0 <= i < |origins| ==> origins[i] == "https://" + NonLocal(hosts)[i]
  {
    if |hosts| == 0 then []
    else if hosts[0] in NoHosts then HttpsOrigins(hosts[1..])
    else ["https://" + hosts[0]] + HttpsOrigins(hosts[1..])
  }

  /** The hosts outside `NoHosts`, in order. */
  function NonLocal(hosts: seq<string>): (r: seq<string>)
    ensures |r| <= |hosts|
    ensures forall h :: h in r <==> h in hosts && h !in NoHosts
  {
    if |hosts| == 0 then []
    else if hosts[0] in NoHosts then NonLocal(hosts[1..])
    else [hosts[0]] + NonLocal(hosts[1..])
  }

  /** One origin list: the HTTPS origins of the public hosts, then the two development origins. */
  function OriginList(hosts: seq<string>): (origins: seq<string>)
    ensures |origins| == |NonLocal(hosts)| + 2
    ensures origins[|origins| - 2..] == DevOrigins
    ensures forall i :: 0 <= i < |NonLocal(hosts)| ==> origins[i] == "https://" + NonLocal(hosts)[i]
  {
    HttpsOrigins(hosts) + DevOrigins
  }

  /** What `settings_production` binds. `hstsSeconds` is `None` when `int()` raises on the
      value, which makes importing the settings fail. */
  datatype ProductionSettings = ProductionSettings(
    debug: bool, sslRedirect: bool, hstsSeconds: Option<int>, hstsIncludeSubdomains: bool,
    hstsPreload: bool, sessionCookieSecure: bool, csrfCookieSecure: bool,
    allowedHosts: seq<string>, corsAllowedOrigins: seq<string>, csrfTrustedOrigins: seq<string>)

  /** The module's bindings in order. `CSRF_COOKIE_SECURE` is bound twice, first with the
      default 'False' and then with 'True'; the second binding is the one that stays. */
  function Load(env: Environment): (s: ProductionSettings)
    ensures s.debug == Flag(env, "DEBUG", "False")
    ensures s.sslRedirect == Flag(env, "SECURE_SSL_REDIRECT", "False")
    ensures s.hstsIncludeSubdomains == Flag(env, "SECURE_HSTS_INCLUDE_SUBDOMAINS", "True")
    ensures s.hstsPreload == Flag(env, "SECURE_HSTS_PRELOAD", "True")
    ensures s.sessionCookieSecure == Flag(env, "SESSION_COOKIE_SECURE", "False")
    ensures s.hstsSeconds == ParseInt(GetOr(env, "SECURE_HSTS_SECONDS", "31536000"))
    ensures s.allowedHosts == HostList(GetOr(env, "ALLOWED_HOSTS", "localhost,127.0.0.1"))
    ensures s.corsAllowedOrigins == OriginList(s.allowedHosts)
    ensures s.csrfTrustedOrigins == s.corsAllowedOrigins
    ensures s.csrfCookieSecure == Flag(env, "CSRF_COOKIE_SECURE", "True")
  {
    var debug := Flag(env, "DEBUG", "False");
    var sslRedirect := Flag(env, "SECURE_SSL_REDIRECT", "False");
    var hsts := ParseInt(GetOr(env, "SECURE_HSTS_SECONDS", "31536000"));
    var subdomains := Flag(env, "SECURE_HSTS_INCLUDE_SUBDOMAINS", "True");
    var preload := Flag(env, "SECURE_HSTS_PRELOAD", "True");
    var sessionSecure := Flag(env, "SESSION_COOKIE_SECURE", "False");
    var csrfSecure := Flag(env, "CSRF_COOKIE_SECURE", "False");
    var hosts := HostList(GetOr(env, "ALLOWED_HOSTS", "localhost,127.0.0.1"));
    var cors := OriginList(hosts);
    var csrfSecure := Flag(env, "CSRF_COOKIE_SECURE", "True");
    var csrfOrigins := OriginList(hosts);
    ProductionSettings(debug, sslRedirect, hsts, subdomains, preload, sessionSecure, csrfSecure,
                       hosts, cors, csrfOrigins)
  }

  /** With nothing set: DEBUG, SSL redirect and secure session cookies are off; HSTS is one year
      (31536000 seconds) with subdomains and preload; the CSRF cookie is secure (the second
      binding's default); the hosts are the two local names and only the development origins
      are allowed. */
  lemma {:induction false} EmptyEnvironmentDefaults()
    ensures var s := Load(map[]);
      && !s.debug && !s.sslRedirect && !s.sessionCookieSecure
      && s.hstsSeconds == Some(31536000) && s.hstsIncludeSubdomains && s.hstsPreload
      && s.csrfCookieSecure
      && s.allowedHosts == ["localhost", "127.0.0.1"]
      && s.corsAllowedOrigins == DevOrigins && s.csrfTrustedOrigins == DevOrigins
  {
    assert Lower("False") != "true";
    assert Lower("True") == "true";
    HstsDefault();
    HostsDefault();
  }

  lemma HstsDefault()
    ensures ParseInt("31536000") == Some(31536000)
  {
    assert "31536000" == NatToString(31536000) by {
      assert NatToString(3) == "3";
      assert NatToString(31) == "31";
      assert NatToString(315) == "315";
      assert NatToString(3153) == "3153";
      assert NatToString(31536) == "31536";
      assert NatToString(315360) == "315360";
      assert NatToString(3153600) == "3153600";
    }
    ParseIntOfNatToString(31536000);
  }

  lemma HostsDefault()
    ensures HostList("localhost,127.0.0.1") == ["localhost", "127.0.0.1"]
    ensures NonLocal(["localhost", "127.0.0.1"]) == []
  {
    assert "localhost,127.0.0.1" == "localhost" + [','] + "127.0.0.1";
    HostListOfTwo("localhost", "127.0.0.1");
    var local: seq<string> := ["localhost", "127.0.0.1"];
    assert local[1..] == ["127.0.0.1"] && local[1..][1..] == [];
  }

  /** Two comma-free hosts without surrounding whitespace are listed as they are. */
  lemma HostListOfTwo(a: string, b: string)
    requires ',' !in a && ',' !in b
    requires |a| > 0 && a[0] !in Whitespace && a[|a| - 1] !in Whitespace
    requires |b| > 0 && b[0] !in Whitespace && b[|b| - 1] !in Whitespace
    ensures HostList(a + [','] + b) == [a, b]
  {
    SplitAtSeparator(a, b, ',');
    SplitWithoutSep(b, ',');
    StripCharsOfTrimmed(a, Whitespace);
    StripCharsOfTrimmed(b, Whitespace);
    var h := HostList(a + [','] + b);
    assert |h| == 2;
    assert h[0] == Strip(a);
    assert h[1] == Strip(b);
  }

  /** Split of `a + [sep] + b` when `a` holds no separator. */
  lemma {:induction false} SplitAtSeparator(a: string, b: string, sep: char)
    requires sep !in a
    ensures Split(a + [sep] + b, sep) == [a] + Split(b, sep)
    decreases |a|
  {
    var s := a + [sep] + b;
    if |a| == 0 {
      assert s[1..] == b;
    } else {
      assert s[1..] == a[1..] + [sep] + b;
      SplitAtSeparator(a[1..], b, sep);
      assert a == [a[0]] + a[1..];
    }
  }

  /** The CSRF cookie is secure unless CSRF_COOKIE_SECURE is set to something other than
      "true"; when it is set, both bindings agree, so the shadowed one never matters. */
  lemma {:induction false} CsrfCookieLastBindingWins(env: Environment)
    ensures "CSRF_COOKIE_SECURE" !in env ==> Load(env).csrfCookieSecure
    ensures "CSRF_COOKIE_SECURE" in env ==>
              Load(env).csrfCookieSecure == Flag(env, "CSRF_COOKIE_SECURE", "False")
  {
    assert Lower("True") == "true";
  }

  /** A public host gets exactly one HTTPS origin in both lists, and a local name gets none. */
  lemma {:induction false} OriginsOfHosts(hosts: seq<string>, h: string)
    ensures h in hosts && h !in NoHosts ==> "https://" + h in OriginList(hosts)
    ensures h in NoHosts ==> "https://" + h !in HttpsOrigins(hosts)
  {
    var pub := NonLocal(hosts);
    if h in hosts && h !in NoHosts {
      assert h in pub;
      var i :| 0 <= i < |pub| && pub[i] == h;
      assert OriginList(hosts)[i] == "https://" + h;
    }
    if h in NoHosts {
      var o := HttpsOrigins(hosts);
      forall i | 0 <= i < |o|
        ensures o[i] != "https://" + h
      {
        assert pub[i] in pub;
        assert ("https://" + pub[i])[8..] == pub[i];
        assert ("https://" + h)[8..] == h;
      }
    }
  }
}
