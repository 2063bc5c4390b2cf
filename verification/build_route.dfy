/**
 * The build-trigger endpoint (`/api/jenkins/build`): the `GET` handler's
 * parameter lookup and the `POST` handler's validation and construction of
 * the Jenkins build URL. Environment variables, the query string and the
 * request body are parameters; the HTTP request to Jenkins itself is the
 * `SendBuildRequest` outcome.
 */
module BuildRoute {
  import opened Wrappers
  import opened Strings

  /** `process.env.JENKINS_TEST_MODE === "true" || url.searchParams.get("test") === "true"` */
  predicate TestModeRequested(envTestMode: Option<string>, queryTest: Option<string>) {
    envTestMode == Some("true") || queryTest == Some("true")
  }

  /** `process.env.X?.trim()` read as a condition: set, and not only whitespace. */
  predicate Configured(v: Option<string>) {
    v.Some? && Trim(v.value) != ""
  }

  /** `Object.keys(parameters || {}).length > 0` */
  predicate HasParameters(parameters: Option<map<string, string>>) {
    parameters.Some? && |parameters.value| > 0
  }

  /** The endpoint: "buildWithParameters" exactly when there is at least one parameter. */
  function Endpoint(parameters: Option<map<string, string>>): (e: string)
    ensures e == "buildWithParameters" <==> HasParameters(parameters)
    ensures e != "buildWithParameters" ==> e == "build"
  {
    if HasParameters(parameters) then "buildWithParameters" else "build"
  }

  /** The URL the `POST` handler posts to: one "/" between the job URL and the endpoint. */
  function BuildUrl(jobUrl: string, parameters: Option<map<string, string>>): (u: string)
    ensures EndsWith(jobUrl, "/") ==> u == jobUrl + Endpoint(parameters)
    ensures !EndsWith(jobUrl, "/") ==> u == jobUrl + "/" + Endpoint(parameters)
  {
    WithTrailingSlash(jobUrl) + Endpoint(parameters)
  }

  /** The scheme check of the handler. */
  predicate HasWebScheme(u: string) {
    StartsWith(u, "http://") || StartsWith(u, "https://")
  }

  /** `s + e` starts with a prefix none of whose characters is `e[0]` only if `s` does. */
  lemma PrefixBeforeSuffix(s: string, e: string, prefix: string)
    requires e != [] && forall k :: 0 <= k < |prefix| ==> prefix[k] != e[0]
    ensures StartsWith(s + e, prefix) <==> StartsWith(s, prefix)
  {
    assert (s + e)[|s|] == e[0];
    if StartsWith(s + e, prefix) {
      assert forall k :: 0 <= k < |prefix| ==> (s + e)[k] == prefix[k];
      assert |s| >= |prefix|;
      assert (s + e)[..|prefix|] == s[..|prefix|];
    }
    if StartsWith(s, prefix) {
      assert (s + e)[..|prefix|] == s[..|prefix|];
    }
  }

  /** Appending "/" cannot complete a prefix whose last-but-one character is "/". */
  lemma SlashKeepsPrefix(u: string, prefix: string)
    requires |prefix| >= 2 && prefix[|prefix| - 2] == '/'
    ensures StartsWith(WithTrailingSlash(u), prefix) <==> StartsWith(u, prefix)
  {
    var w := WithTrailingSlash(u);
    if w != u {
      assert w == u + "/";
      assert u == [] || u[|u| - 1] != '/' by {
        if u != [] {
          assert u[|u| - 1..] == [u[|u| - 1]];
        }
      }
      if StartsWith(w, prefix) {
        assert forall k :: 0 <= k < |prefix| ==> w[k] == prefix[k];
        assert |u| >= |prefix|;
        assert u[..|prefix|] == w[..|prefix|];
      }
      if StartsWith(u, prefix) {
        assert u[..|prefix|] == w[..|prefix|];
      }
    }
  }

  /** The check on the built URL accepts exactly the job URLs with an http or https scheme. */
  lemma SchemeCheckIsOnJobUrl(jobUrl: string, parameters: Option<map<string, string>>)
    ensures HasWebScheme(BuildUrl(jobUrl, parameters)) <==> HasWebScheme(jobUrl)
  {
    var w, e := WithTrailingSlash(jobUrl), Endpoint(parameters);
    assert e[0] == 'b';
    PrefixBeforeSuffix(w, e, "http://");
    PrefixBeforeSuffix(w, e, "https://");
    SlashKeepsPrefix(jobUrl, "http://");
    SlashKeepsPrefix(jobUrl, "https://");
  }

  // ---- POST ---------------------------------------------------------------------

  /** What the `POST` handler answers, or the request it sends to Jenkins. */
  datatype PostOutcome =
    | TestModeAck(jobName: Option<string>, jobUrl: Option<string>, parameters: Option<map<string, string>>)
    | MissingCredentials
    | TriggerFault
    | InvalidJobUrl
    | SendBuildRequest(url: string, form: Option<map<string, string>>)

  /** The status of an answer given without contacting Jenkins. */
  function PostStatus(o: PostOutcome): (s: Option<int>)
    ensures s.None? <==> o.SendBuildRequest?
  {
    match o
    case TestModeAck(_, _, _) => Some(200)
    case MissingCredentials => Some(500)
    case TriggerFault => Some(500)
    case InvalidJobUrl => Some(400)
    case SendBuildRequest(_, _) => None
  }

  /**
   * `POST`: test mode answers at once; otherwise credentials are checked,
   * then the build URL is assembled step by step and validated. A body
   * without `jobUrl` makes `endsWith` throw, which the handler turns into
   * a 500 answer.
   */
  method Post(
    envTestMode: Option<string>, queryTest: Option<string>,
    username: Option<string>, apiToken: Option<string>,
    jobName: Option<string>, jobUrl: Option<string>, parameters: Option<map<string, string>>)
    returns (o: PostOutcome)
    ensures TestModeRequested(envTestMode, queryTest) ==> o == TestModeAck(jobName, jobUrl, parameters)
    ensures !TestModeRequested(envTestMode, queryTest) && !(Configured(username) && Configured(apiToken)) ==>
              o == MissingCredentials
    ensures !TestModeRequested(envTestMode, queryTest) && Configured(username) && Configured(apiToken) ==>
              if jobUrl == None then o == TriggerFault
              else if HasWebScheme(BuildUrl(jobUrl.value, parameters)) then
                o == SendBuildRequest(BuildUrl(jobUrl.value, parameters), if HasParameters(parameters) then parameters else None)
              else o == InvalidJobUrl
  {
    if envTestMode == Some("true") || queryTest == Some("true") {
      return TestModeAck(jobName, jobUrl, parameters);
    }
    var user := if username.Some? then Trim(username.value) else "";
    var token := if apiToken.Some? then Trim(apiToken.value) else "";
    if user == "" || token == "" {
      return MissingCredentials;
    }
    if jobUrl == None {
      return TriggerFault;
    }
    var buildUrl := jobUrl.value;
    if !EndsWith(buildUrl, "/") {
      buildUrl := buildUrl + "/";
    }
    var keys := if parameters.Some? then |parameters.value| else 0;
    var endpoint := if keys > 0 then "buildWithParameters" else "build";
    buildUrl := buildUrl + endpoint;
    if !StartsWith(buildUrl, "http://") && !StartsWith(buildUrl, "https://") {
      return InvalidJobUrl;
    }
    o := SendBuildRequest(buildUrl, if keys > 0 then parameters else None);
  }

  // ---- GET ----------------------------------------------------------------------

  datatype BuildParameter = BuildParameter(name: string, value: string)

  /** `mockBuildParameters`: one example job with one parameter. */
  const MockBuildParameters: map<string, seq<BuildParameter>> :=
    map["exampleJob" := [BuildParameter("param1", "value1")]]

  datatype GetOutcome =
    | MissingJobName
    | Parameters(list: seq<BuildParameter>)
    | NotConfigured
    | JenkinsUnreachable

  function GetStatus(o: GetOutcome): (s: int)
    ensures s == 400 <==> o == MissingJobName
    ensures s == 200 <==> o != MissingJobName
  {
    if o == MissingJobName then 400 else 200
  }

  /** The parameter list an answer carries: the mock list in test mode, otherwise none. */
  function ParametersOf(o: GetOutcome): seq<BuildParameter> {
    if o.Parameters? then o.list else []
  }

  /**
   * `GET`: a missing or empty `job` query parameter is rejected first; test
   * mode then answers from the mock table, an unknown name with an empty
   * list; outside test mode no parameters are ever fetched.
   */
  method Get(
    jobName: Option<string>, envTestMode: Option<string>, queryTest: Option<string>,
    jenkinsUrl: Option<string>, username: Option<string>, apiToken: Option<string>)
    returns (o: GetOutcome)
    ensures (jobName == None || jobName == Some("")) <==> o == MissingJobName
    ensures o != MissingJobName && TestModeRequested(envTestMode, queryTest) ==>
              o == Parameters(if jobName.value in MockBuildParameters then MockBuildParameters[jobName.value] else [])
    ensures o != MissingJobName && !TestModeRequested(envTestMode, queryTest) ==>
              && ParametersOf(o) == []
              && (o == NotConfigured <==> !(Configured(jenkinsUrl) && Configured(username) && Configured(apiToken)))
              && (o == JenkinsUnreachable <==> Configured(jenkinsUrl) && Configured(username) && Configured(apiToken))
  {
    if jobName == None || jobName.value == "" {
      return MissingJobName;
    }
    if envTestMode == Some("true") || queryTest == Some("true") {
      var name := jobName.value;
      var parameters := if name in MockBuildParameters then MockBuildParameters[name] else [];
      return Parameters(parameters);
    }
    var url := if jenkinsUrl.Some? then Trim(jenkinsUrl.value) else "";
    var user := if username.Some? then Trim(username.value) else "";
    var token := if apiToken.Some? then Trim(apiToken.value) else "";
    if url == "" || user == "" || token == "" {
      return NotConfigured;
    }
    return JenkinsUnreachable;
  }
}
