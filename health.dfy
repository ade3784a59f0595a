/** The health check endpoint: the database ping decides the overall status and the HTTP code,
    and DEBUG only changes the `debug_mode` entry. The ping is the outcome `pingError`
    (`None` when it succeeded). */
module Health {
  import opened Wrappers
  import Http

  /** The JSON body: `status` and the `services` dictionary. */
  datatype HealthStatus = HealthStatus(status: string, services: map<string, string>)

  /** The response `health_check` is meant to give. */
  function Expected(pingError: Option<string>, debug: bool): (r: (int, HealthStatus))
    ensures r.0 == Http.OK <==> pingError.None?
    ensures r.0 == Http.OK || r.0 == Http.SERVICE_UNAVAILABLE
    ensures r.1.status == (if pingError.None? then "healthy" else "unhealthy")
    ensures r.1.services.Keys == {"mongodb", "debug_mode"}
    ensures r.1.services["mongodb"] == (if pingError.None? then "healthy" else "unhealthy: " + pingError.value)
    ensures r.1.services["debug_mode"] == (if debug then "warning: debug is enabled" else "healthy")
  {
    var mongo := if pingError.None? then "healthy" else "unhealthy: " + pingError.value;
    var mode := if debug then "warning: debug is enabled" else "healthy";
    var services := map["mongodb" := mongo, "debug_mode" := mode];
    if pingError.None? then (Http.OK, HealthStatus("healthy", services))
    else (Http.SERVICE_UNAVAILABLE, HealthStatus("unhealthy", services))
  }

  /** DEBUG changes only the `debug_mode` entry: the code, the status and the database entry do
      not depend on it. */
  lemma DebugOnlyChangesDebugMode(pingError: Option<string>)
    ensures Expected(pingError, true).0 == Expected(pingError, false).0
    ensures Expected(pingError, true).1.status == Expected(pingError, false).1.status
    ensures Expected(pingError, true).1.services["mongodb"] == Expected(pingError, false).1.services["mongodb"]
    ensures Expected(pingError, true).1.services != Expected(pingError, false).1.services
  {
    assert Expected(pingError, true).1.services["debug_mode"] != Expected(pingError, false).1.services["debug_mode"];
  }

  /** `health_check`: the dictionary filled step by step, the flag cleared on a failed ping. */
  method HealthCheck(pingError: Option<string>, debug: bool) returns (code: int, body: HealthStatus)
    ensures (code, body) == Expected(pingError, debug)
  {
    var status := "healthy";
    var services: map<string, string> := map[];
    var overallHealthy := true;
    if pingError.None? {
      services := services["mongodb" := "healthy"];
    } else {
      services := services["mongodb" := "unhealthy: " + pingError.value];
      overallHealthy := false;
    }
    if debug {
      services := services["debug_mode" := "warning: debug is enabled"];
    } else {
      services := services["debug_mode" := "healthy"];
    }
    if !overallHealthy {
      status := "unhealthy";
      return Http.SERVICE_UNAVAILABLE, HealthStatus(status, services);
    }
    return Http.OK, HealthStatus(status, services);
  }
}
