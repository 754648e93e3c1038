/** Parameter derivation: how main turns its environment variables into the
    `restoreParams` map every other function reads. */
module Config {
  import opened Rds

  /** The environment variables main reads, taken as values. */
  datatype Env = Env(
    awsRegion: string,
    sourceRDS: string,
    restoreRDS: string,
    rdsSubnetGroup: string,
    rdsSecurityGroupId: string,
    restoreDate: string,   // optional, YYYY-MM-DD
    restoreTime: string,   // optional, HH:MM:SS
    rdsInstanceType: string,
    rdsEngine: string)

  const DefaultInstanceType: string := "db.t3.small"
  const DefaultEngine: string := "aurora-mysql"

  /** The restore timestamp built from a non-empty date: the given time, or
      01:00:00 when no time is given, in UTC with zero milliseconds. */
  function RestoreFromTime(date: string, time: string): string {
    if time != "" then date + "T" + time + ".000Z" else date + "T01:00:00.000Z"
  }

  /** An empty optional value takes its default; any other value is kept. */
  function OrDefault(value: string, default: string): (r: string)
    ensures value == "" ==> r == default
    ensures value != "" ==> r == value
  {
    if value != "" then value else default
  }

  /** The map main holds once it has applied the optional parameters. */
  function RestoreParams(env: Env): (p: Params)
    ensures p.Keys == {"awsRegion", "sourceRDS", "restoreRDS", "rdsSubnetGroup",
                       "rdsSecurityGroupId", "rdsInstanceType", "rdsEngine"}
                      + (if env.restoreDate != "" then {"restoreFromTime"} else {})
    ensures Lookup(p, "awsRegion") == env.awsRegion
    ensures Lookup(p, "sourceRDS") == env.sourceRDS
    ensures Lookup(p, "restoreRDS") == env.restoreRDS
    ensures Lookup(p, "rdsSubnetGroup") == env.rdsSubnetGroup
    ensures Lookup(p, "rdsSecurityGroupId") == env.rdsSecurityGroupId
    ensures env.restoreDate != "" && env.restoreTime != "" ==>
              p["restoreFromTime"] == env.restoreDate + "T" + env.restoreTime + ".000Z"
    ensures env.restoreDate != "" && env.restoreTime == "" ==>
              p["restoreFromTime"] == env.restoreDate + "T01:00:00.000Z"
    ensures p["rdsInstanceType"] == (if env.rdsInstanceType == "" then "db.t3.small" else env.rdsInstanceType)
    ensures p["rdsEngine"] == (if env.rdsEngine == "" then "aurora-mysql" else env.rdsEngine)
  {
    var base := map["awsRegion" := env.awsRegion, "sourceRDS" := env.sourceRDS,
                     "restoreRDS" := env.restoreRDS, "rdsSubnetGroup" := env.rdsSubnetGroup,
                     "rdsSecurityGroupId" := env.rdsSecurityGroupId];
    var timed := if env.restoreDate != ""
                 then base["restoreFromTime" := RestoreFromTime(env.restoreDate, env.restoreTime)]
                 else base;
    timed["rdsInstanceType" := OrDefault(env.rdsInstanceType, DefaultInstanceType)]
         ["rdsEngine" := OrDefault(env.rdsEngine, DefaultEngine)]
  }

  /** main's construction of `restoreParams`: the five required values, then
      the optional ones added or defaulted one by one, in place. */
  method DeriveParams(env: Env) returns (p: Params)
    ensures p == RestoreParams(env)
  {
    var restoreParams: Params := map[
      "awsRegion" := env.awsRegion,
      "sourceRDS" := env.sourceRDS,
      "restoreRDS" := env.restoreRDS,
      "rdsSubnetGroup" := env.rdsSubnetGroup,
      "rdsSecurityGroupId" := env.rdsSecurityGroupId];
    if env.restoreDate != "" {
      if env.restoreTime != "" {
        restoreParams := restoreParams["restoreFromTime" := env.restoreDate + "T" + env.restoreTime + ".000Z"];
      } else {
        restoreParams := restoreParams["restoreFromTime" := env.restoreDate + "T01:00:00.000Z"];
      }
    }
    if env.rdsInstanceType != "" {
      restoreParams := restoreParams["rdsInstanceType" := env.rdsInstanceType];
    } else {
      restoreParams := restoreParams["rdsInstanceType" := "db.t3.small"];
    }
    if env.rdsEngine != "" {
      restoreParams := restoreParams["rdsEngine" := env.rdsEngine];
    } else {
      restoreParams := restoreParams["rdsEngine" := "aurora-mysql"];
    }
    p := restoreParams;
  }

  /** An explicit restore time is requested exactly when a date is given:
      the `restoreFromTime` value that later functions test against "" is
      non-empty iff the date is. */
  lemma ExplicitTimeIffDate(env: Env)
    ensures Lookup(RestoreParams(env), "restoreFromTime") != "" <==> env.restoreDate != ""
  {
    var p := RestoreParams(env);
    if env.restoreDate != "" {
      assert |p["restoreFromTime"]| > |env.restoreDate|;
    }
  }

  /** Leaving out the time is the same as asking for 01:00:00. */
  lemma DefaultTimeIsOneAm(date: string)
    ensures RestoreFromTime(date, "") == RestoreFromTime(date, "01:00:00")
  {
    assert date + "T" + "01:00:00" + ".000Z" == date + "T01:00:00.000Z";
  }

  /** The instance class and engine are never empty, so the create request
      always names both. */
  lemma InstanceSettingsNeverEmpty(env: Env)
    ensures Lookup(RestoreParams(env), "rdsInstanceType") != ""
    ensures Lookup(RestoreParams(env), "rdsEngine") != ""
  {
  }
}
