/**
 * RiskBasedAuthAction: the profile action that scores a login with an
 * external risk service and remembers, for an hour, which users it denied.
 *
 * The decision is the function Decide over the denial map as it was before
 * the call; the class RiskBasedAuthAction holds that map as a field and its
 * method DoExecute updates it step by step as the Java code does.
 */
module AuthAction {
  import opened JavaLang
  import opened StringHelper
  import opened Json
  import opened JsonHelper

  /** One hour, in milliseconds: how long a denial blocks single sign-on. */
  const DENIAL_TIMEOUT_MS: int := 3_600_000

  /** Largest serialised payload, in UTF-8 bytes, the action sends to the service. */
  const MAX_PAYLOAD_BYTES: nat := 64 * 1024

  /** The event the action emits, or the exception that leaves doExecute. */
  datatype Outcome = Proceed | AccessDenied | RuntimeException | Escaped(cause: JavaException)

  /** The authentication result: the name of its first UsernamePrincipal, None when it has none. */
  datatype AuthnResult = AuthnResult(username: Option<string>)

  /** The AuthenticationContext; its result may be missing. */
  datatype AuthnContext = AuthnContext(result: Option<AuthnResult>)

  /** What the action reads from the servlet request. */
  datatype ServletRequest = ServletRequest(
    forwardedFor: Option<string>,   // the X-Forwarded-For header
    remoteAddr: Option<string>,     // the peer address
    userAgent: Option<string>,      // the User-Agent header
    metricsField: Option<string>)   // the rbaMetricsField parameter

  /** The JSON object posted to the risk service. */
  datatype Payload = Payload(username: string, ipAddress: string, userAgent: string, metrics: Fields)

  /**
   * What the action needs from Gson, as functions: JsonParser.parseString for
   * the metrics and fromJson for the reply (None when they throw or give
   * null), Double.parseDouble for a string score (None when it throws), and
   * the UTF-8 sizes of the serialised metrics and payload.
   */
  datatype Gson = Gson(
    parse: string -> Option<Json>,
    fromJson: string -> Option<Json>,
    parseDouble: string -> Option<Double>,
    metricsBytes: Fields -> nat,
    payloadBytes: Payload -> nat)

  /** The exchange with the risk service: an I/O failure, or a status and the body read. */
  datatype ScoreReply = CallFailed | Reply(status: int, body: string)

  /** The action's next event and the denial map after it. */
  datatype Decision = Decision(outcome: Outcome, denied: map<string, int>)

  /** The user name doExecute works with; None stands for Java's null. */
  function Username(authn: Option<AuthnContext>): Option<string>
  {
    if authn.Some? && authn.value.result.Some? then authn.value.result.value.username else None
  }

  /** A request without metrics (null or blank) is a single sign-on attempt. */
  predicate IsSso(request: ServletRequest)
  {
    request.metricsField.None? || IsBlank(request.metricsField.value)
  }

  /**
   * The single sign-on branch: a user denied less than an hour ago is denied
   * again; an older entry is removed and the user admitted; a user with no
   * entry is admitted. DENIED_USERS.get(null) throws.
   */
  function SsoDecision(denied: map<string, int>, username: Option<string>, now: int): (d: Decision)
    ensures username.None? ==> d == Decision(Escaped(NullPointer), denied)
    ensures username.Some? ==> (d.outcome == AccessDenied <==>
      username.value in denied && now - denied[username.value] < DENIAL_TIMEOUT_MS)
    ensures username.Some? ==> (d.outcome == Proceed <==>
      username.value !in denied || now - denied[username.value] >= DENIAL_TIMEOUT_MS)
    ensures d.outcome == AccessDenied ==> d.denied == denied
    ensures d.outcome == Proceed ==> d.denied == denied - {username.value}
  {
    if username.None? then Decision(Escaped(NullPointer), denied)
    else
      var u := username.value;
      if u !in denied then Decision(Proceed, denied)
      else if now - denied[u] < DENIAL_TIMEOUT_MS then Decision(AccessDenied, denied)
      else Decision(Proceed, denied - {u})
  }

  /**
   * Rejected metrics deny the login and record the time outside the try
   * block, so a null user name makes the put throw out of doExecute.
   */
  function DenyRejected(denied: map<string, int>, username: Option<string>, now: int): (d: Decision)
    ensures username.None? ==> d == Decision(Escaped(NullPointer), denied)
    ensures username.Some? ==> d == Decision(AccessDenied, denied[username.value := now])
  {
    if username.None? then Decision(Escaped(NullPointer), denied)
    else Decision(AccessDenied, denied[username.value := now])
  }

  /**
   * JsonElement.getAsDouble: a number gives its value, a string or boolean
   * goes through Double.parseDouble of its text, a one-element array gives
   * its element's value; null, objects and other arrays throw (None).
   */
  function AsDouble(el: Json, parseDouble: string -> Option<Double>): (r: Option<Double>)
    ensures el.JNumber? ==> r == el.asDouble
    ensures el.JNull? || el.JObject? ==> r.None?
    ensures el.JArray? && |el.elements| != 1 ==> r.None?
  {
    match el
    case JNumber(d) => d
    case JString(s) => parseDouble(s)
    case JBool(b) => parseDouble(if b then "true" else "false")
    case JArray(elements) => if |elements| == 1 then AsDouble(elements[0], parseDouble) else None
    case _ => None
  }

  /**
   * The score the service returned, or None when any step on the way throws
   * or fails a check: the call itself, a non-2xx status, a body that is not a
   * JSON object, a missing threatScore, one getAsDouble cannot read, or one
   * that is not finite.
   */
  function ThreatScore(reply: ScoreReply, gson: Gson): (score: Option<real>)
    ensures score.Some? ==> reply.Reply? && 200 <= reply.status < 300
    ensures score.Some? ==> gson.fromJson(reply.body).Some? && gson.fromJson(reply.body).value.JObject?
    ensures score.Some? ==>
      var members := gson.fromJson(reply.body).value.members;
      "threatScore" in members && AsDouble(members["threatScore"], gson.parseDouble) == Some(Finite(score.value))
    ensures reply.Reply? && 200 <= reply.status < 300
      && gson.fromJson(reply.body).Some? && gson.fromJson(reply.body).value.JObject?
      && "threatScore" in gson.fromJson(reply.body).value.members
      ==> var d := AsDouble(gson.fromJson(reply.body).value.members["threatScore"], gson.parseDouble);
          d.Some? && d.value.Finite? ==> score == Some(d.value.r)
  {
    if reply.CallFailed? || !(200 <= reply.status < 300) then None
    else match gson.fromJson(reply.body)
      case Some(JObject(members)) =>
        if "threatScore" !in members then None
        else
          var d := AsDouble(members["threatScore"], gson.parseDouble);
          if d.Some? && d.value.Finite? then Some(d.value.r) else None
      case _ => None
  }

  /**
   * The scored branch, inside the try block: a score below the threshold
   * admits the user and clears their entry, any other score records the
   * denial. With a null user name the remove or put throws and the catch
   * block emits RuntimeException.
   */
  function ScoredDecision(denied: map<string, int>, username: Option<string>, score: real, threshold: Double, now: int): (d: Decision)
    ensures username.None? ==> d == Decision(RuntimeException, denied)
    ensures username.Some? && Less(Finite(score), threshold) ==> d == Decision(Proceed, denied - {username.value})
    ensures username.Some? && !Less(Finite(score), threshold) ==> d == Decision(AccessDenied, denied[username.value := now])
  {
    if username.None? then Decision(RuntimeException, denied)
    else if Less(Finite(score), threshold) then Decision(Proceed, denied - {username.value})
    else Decision(AccessDenied, denied[username.value := now])
  }

  /**
   * The payload: user name, client address and user agent through
   * safeString, and the sanitised metrics. The user agent was already
   * passed through safeString once when it was read.
   */
  function BuildPayload(username: Option<string>, ipAddress: Option<string>, userAgent: string, metrics: Fields): (p: Payload)
    ensures |p.username| <= MAX_STRING_LEN && NoControls(p.username)
    ensures |p.ipAddress| <= MAX_STRING_LEN && NoControls(p.ipAddress)
    ensures |p.userAgent| <= MAX_STRING_LEN && NoControls(p.userAgent)
    ensures username.None? ==> p.username == ""
    ensures ipAddress.None? ==> p.ipAddress == ""
    ensures p.metrics == metrics
    ensures p.username == SanitizeString(username) && p.ipAddress == SanitizeString(ipAddress)
    ensures p.userAgent == SanitizeString(Some(userAgent))
  {
    Payload(SafeString(username), SafeString(ipAddress), SafeString(Some(userAgent)), metrics)
  }

  /**
   * A full login, once the metrics are present and sanitizeAndValidateMetrics
   * has returned sanitized: deny when it rejected them, otherwise build and
   * size the payload, read the score and compare it with the threshold.
   */
  function FullLogin(denied: map<string, int>, username: Option<string>, ipAddress: Option<string>,
                     userAgent: string, sanitized: Option<Fields>, threshold: Double,
                     now: int, gson: Gson, reply: ScoreReply): (d: Decision)
    ensures d.outcome == Proceed ==>
      sanitized.Some? && ThreatScore(reply, gson).Some? && Less(Finite(ThreatScore(reply, gson).value), threshold)
    ensures sanitized.None? && username.None? ==> d == Decision(Escaped(NullPointer), denied)
    ensures sanitized.None? && username.Some? ==> d == Decision(AccessDenied, denied[username.value := now])
    ensures sanitized.Some? && (|| username.None?
                                || gson.payloadBytes(BuildPayload(username, ipAddress, userAgent, sanitized.value)) > MAX_PAYLOAD_BYTES
                                || ThreatScore(reply, gson).None?)
      ==> d == Decision(RuntimeException, denied)
  {
    match sanitized
    case None => DenyRejected(denied, username, now)
    case Some(metrics) =>
      var payload := BuildPayload(username, ipAddress, userAgent, metrics);
      if gson.payloadBytes(payload) > MAX_PAYLOAD_BYTES then Decision(RuntimeException, denied)
      else match ThreatScore(reply, gson)
        case None => Decision(RuntimeException, denied)
        case Some(score) => ScoredDecision(denied, username, score, threshold, now)
  }

  /** The request-handling part of doExecute, after the three availability checks. */
  function HandleRequest(denied: map<string, int>, username: Option<string>, req: ServletRequest,
                         threshold: Double, now: int, gson: Gson, reply: ScoreReply): (d: Decision)
    ensures d.outcome == Proceed ==> username.Some?
    ensures d.outcome == Proceed && IsSso(req) ==>
      username.value !in denied || now - denied[username.value] >= DENIAL_TIMEOUT_MS
    ensures d.outcome == Proceed && !IsSso(req) ==>
      && ValidateMetrics(req.metricsField, gson.parse, gson.metricsBytes).Some?
      && ThreatScore(reply, gson).Some? && Less(Finite(ThreatScore(reply, gson).value), threshold)
    ensures ExtractClientIp(req.forwardedFor, req.remoteAddr).Thrown? ==> d == Decision(Escaped(ArrayIndexOutOfBounds), denied)
  {
    match ExtractClientIp(req.forwardedFor, req.remoteAddr)
    case Thrown(e) => Decision(Escaped(e), denied)
    case Ok(ipAddress) =>
      if IsSso(req) then SsoDecision(denied, username, now)
      else
        var sanitized := ValidateMetrics(req.metricsField, gson.parse, gson.metricsBytes);
        FullLogin(denied, username, ipAddress, SafeString(req.userAgent), sanitized, threshold, now, gson, reply)
  }

  /**
   * doExecute as a function of the denial map before the call, the
   * configuration, the request, the clock reading and the service's reply.
   */
  function Decide(denied: map<string, int>, endpoint: Option<string>, threshold: Double,
                  authn: Option<AuthnContext>, request: Option<ServletRequest>,
                  now: int, gson: Gson, reply: ScoreReply): (d: Decision)
    ensures authn.None? || authn.value.result.None? ==> d == Decision(RuntimeException, denied)
    ensures endpoint.None? || IsBlank(endpoint.value) ==> d == Decision(RuntimeException, denied)
    ensures request.None? ==> d == Decision(RuntimeException, denied)
  {
    if authn.None? || authn.value.result.None? then Decision(RuntimeException, denied)
    else if endpoint.None? || IsBlank(endpoint.value) then Decision(RuntimeException, denied)
    else if request.None? then Decision(RuntimeException, denied)
    else HandleRequest(denied, Username(authn), request.value, threshold, now, gson, reply)
  }

  /**
   * The action. DENIED_USERS is static in Java and shared by every instance;
   * here it is a field of the one instance that is modelled.
   */
  class RiskBasedAuthAction {
    var deniedUsers: map<string, int>
    var rbaEndpoint: Option<string>
    var failureThreshold: Double

    /** A fresh action: nothing denied, no endpoint, threshold 0.0. */
    constructor()
      ensures deniedUsers == map[] && rbaEndpoint.None? && failureThreshold == Finite(0.0)
    {
      deniedUsers := map[];
      rbaEndpoint := None;
      failureThreshold := Finite(0.0);
    }

    method SetRbaEndpoint(endpoint: Option<string>)
      modifies this`rbaEndpoint
      ensures rbaEndpoint == endpoint
    {
      rbaEndpoint := endpoint;
    }

    method SetFailureThreshold(threshold: Double)
      modifies this`failureThreshold
      ensures failureThreshold == threshold
    {
      failureThreshold := threshold;
    }

    /**
     * doExecute: the event emitted (or the exception thrown) and the new
     * denial map are those Decide gives for the map before the call.
     */
    method DoExecute(authn: Option<AuthnContext>, request: Option<ServletRequest>,
                     now: int, gson: Gson, reply: ScoreReply)
      returns (outcome: Outcome)
      modifies this`deniedUsers
      ensures Decision(outcome, deniedUsers)
        == Decide(old(deniedUsers), rbaEndpoint, failureThreshold, authn, request, now, gson, reply)
    {
      if authn.None? || authn.value.result.None? {
        return RuntimeException;
      }
      if rbaEndpoint.None? || IsBlank(rbaEndpoint.value) {
        return RuntimeException;
      }
      if request.None? {
        return RuntimeException;
      }
      var req := request.value;
      var username := authn.value.result.value.username;
      ghost var handled := HandleRequest(deniedUsers, username, req, failureThreshold, now, gson, reply);
      assert Decide(deniedUsers, rbaEndpoint, failureThreshold, authn, request, now, gson, reply) == handled;
      var ip := ExtractClientIp(req.forwardedFor, req.remoteAddr);
      if ip.Thrown? {
        return Escaped(ip.exception);
      }
      var ipAddress := ip.value;
      var userAgent := SafeString(req.userAgent);
      var metricsRaw := req.metricsField;

      if metricsRaw.None? || IsBlank(metricsRaw.value) {
        assert handled == SsoDecision(deniedUsers, username, now);
        if username.None? {
          return Escaped(NullPointer);
        }
        if username.value in deniedUsers {
          var timeSinceDenial := now - deniedUsers[username.value];
          if timeSinceDenial < DENIAL_TIMEOUT_MS {
            return AccessDenied;
          }
          deniedUsers := deniedUsers - {username.value};
        }
        return Proceed;
      }

      var sanitizedMetrics := SanitizeAndValidateMetrics(metricsRaw, gson.parse, gson.metricsBytes);
      assert handled == FullLogin(deniedUsers, username, ipAddress, userAgent, sanitizedMetrics,
                                  failureThreshold, now, gson, reply);
      outcome := SendForScore(username, ipAddress, userAgent, sanitizedMetrics, now, gson, reply);
    }

    /**
     * The part of doExecute after the metrics were sanitised: the denial on
     * rejected metrics, the payload, the call and the comparison with the
     * threshold.
     */
    method SendForScore(username: Option<string>, ipAddress: Option<string>, userAgent: string,
                        sanitizedMetrics: Option<Fields>, now: int, gson: Gson, reply: ScoreReply)
      returns (outcome: Outcome)
      modifies this`deniedUsers
      ensures Decision(outcome, deniedUsers)
        == FullLogin(old(deniedUsers), username, ipAddress, userAgent, sanitizedMetrics,
                     failureThreshold, now, gson, reply)
    {
      if sanitizedMetrics.None? {
        if username.None? {
          return Escaped(NullPointer);
        }
        deniedUsers := deniedUsers[username.value := now];
        return AccessDenied;
      }

      var payload := Payload(SafeString(username), SafeString(ipAddress), SafeString(Some(userAgent)),
                             sanitizedMetrics.value);
      if gson.payloadBytes(payload) > MAX_PAYLOAD_BYTES {
        return RuntimeException;
      }
      ghost var score := ThreatScore(reply, gson);
      if reply.CallFailed? {
        return RuntimeException;
      }
      var ok := 200 <= reply.status < 300;
      if !ok {
        return RuntimeException;
      }
      var json := gson.fromJson(reply.body);
      if json.None? || !json.value.JObject? || "threatScore" !in json.value.members {
        return RuntimeException;
      }
      var threatScore := AsDouble(json.value.members["threatScore"], gson.parseDouble);
      if threatScore.None? || !threatScore.value.Finite? {
        return RuntimeException;
      }
      assert score == Some(threatScore.value.r);
      if Less(threatScore.value, failureThreshold) {
        if username.None? {
          return RuntimeException;
        }
        deniedUsers := deniedUsers - {username.value};
        return Proceed;
      } else {
        if username.None? {
          return RuntimeException;
        }
        deniedUsers := deniedUsers[username.value := now];
        return AccessDenied;
      }
    }
  }

  // ---------------------------------------------------------------------
  // Properties of the decision
  // ---------------------------------------------------------------------

  /** Every recorded denial time lies at or before now. */
  predicate RecordedBefore(denied: map<string, int>, now: int)
  {
    forall u | u in denied :: denied[u] <= now
  }

  /**
   * The ways one call may change the denial map: Proceed leaves the user
   * without an entry, AccessDenied leaves a recent entry (kept, or set to
   * now), and every other outcome leaves the map as it was.
   */
  predicate Transition(denied: map<string, int>, username: Option<string>, now: int, d: Decision)
  {
    match d.outcome
    case Proceed => username.Some? && d.denied == denied - {username.value}
    case AccessDenied =>
      username.Some? &&
      ((username.value in denied && now - denied[username.value] < DENIAL_TIMEOUT_MS && d.denied == denied)
       || d.denied == denied[username.value := now])
    case _ => d.denied == denied
  }

  lemma SsoIsTransition(denied: map<string, int>, username: Option<string>, now: int)
    ensures Transition(denied, username, now, SsoDecision(denied, username, now))
  {
    if username.Some? && username.value !in denied {
      assert denied - {username.value} == denied;
    }
  }

  lemma FullLoginIsTransition(denied: map<string, int>, username: Option<string>, ipAddress: Option<string>,
                              userAgent: string, sanitized: Option<Fields>, threshold: Double,
                              now: int, gson: Gson, reply: ScoreReply)
    ensures Transition(denied, username, now,
      FullLogin(denied, username, ipAddress, userAgent, sanitized, threshold, now, gson, reply))
  {
    var score := ThreatScore(reply, gson);
    if sanitized.Some? && score.Some? {
      ScoredIsTransition(denied, username, score.value, threshold, now);
    }
  }

  lemma ScoredIsTransition(denied: map<string, int>, username: Option<string>, score: real, threshold: Double, now: int)
    ensures Transition(denied, username, now, ScoredDecision(denied, username, score, threshold, now))
  {
  }

  lemma HandleRequestIsTransition(denied: map<string, int>, username: Option<string>, req: ServletRequest,
                                  threshold: Double, now: int, gson: Gson, reply: ScoreReply)
    ensures Transition(denied, username, now, HandleRequest(denied, username, req, threshold, now, gson, reply))
  {
    var ip := ExtractClientIp(req.forwardedFor, req.remoteAddr);
    if ip.Ok? {
      if IsSso(req) {
        SsoIsTransition(denied, username, now);
      } else {
        FullLoginIsTransition(denied, username, ip.value, SafeString(req.userAgent),
                              ValidateMetrics(req.metricsField, gson.parse, gson.metricsBytes),
                              threshold, now, gson, reply);
      }
    }
  }

  /** Every call of doExecute makes one of the allowed changes to the map of its own user. */
  lemma DecideIsTransition(denied: map<string, int>, endpoint: Option<string>, threshold: Double,
                           authn: Option<AuthnContext>, request: Option<ServletRequest>,
                           now: int, gson: Gson, reply: ScoreReply)
    ensures Transition(denied, Username(authn), now, Decide(denied, endpoint, threshold, authn, request, now, gson, reply))
  {
    if Configured(endpoint, authn, request) {
      HandleRequestIsTransition(denied, Username(authn), request.value, threshold, now, gson, reply);
    }
  }

  /**
   * A call changes at most the entry of its own user; a call without a user
   * name, and any call that ends in RuntimeException or an escaping
   * exception, changes nothing.
   */
  lemma OnlyOwnEntryChanges(denied: map<string, int>, endpoint: Option<string>, threshold: Double,
                            authn: Option<AuthnContext>, request: Option<ServletRequest>,
                            now: int, gson: Gson, reply: ScoreReply)
    ensures var d := Decide(denied, endpoint, threshold, authn, request, now, gson, reply);
      && (Username(authn).None? ==> d.denied == denied)
      && (Username(authn).Some? ==> d.denied - {Username(authn).value} == denied - {Username(authn).value})
      && (d.outcome.RuntimeException? || d.outcome.Escaped? ==> d.denied == denied)
  {
    DecideIsTransition(denied, endpoint, threshold, authn, request, now, gson, reply);
  }

  /** After Proceed the user has no entry; after AccessDenied they have one younger than an hour. */
  lemma OutcomeMatchesEntry(denied: map<string, int>, endpoint: Option<string>, threshold: Double,
                            authn: Option<AuthnContext>, request: Option<ServletRequest>,
                            now: int, gson: Gson, reply: ScoreReply)
    ensures var d := Decide(denied, endpoint, threshold, authn, request, now, gson, reply);
      && (d.outcome == Proceed ==> Username(authn).Some? && Username(authn).value !in d.denied)
      && (d.outcome == AccessDenied ==>
            Username(authn).Some? && Username(authn).value in d.denied
            && now - d.denied[Username(authn).value] < DENIAL_TIMEOUT_MS)
  {
    DecideIsTransition(denied, endpoint, threshold, authn, request, now, gson, reply);
  }

  /** With a clock that does not run backwards, no recorded denial lies in the future. */
  lemma RecordedBeforeIsKept(denied: map<string, int>, endpoint: Option<string>, threshold: Double,
                             authn: Option<AuthnContext>, request: Option<ServletRequest>,
                             before: int, now: int, gson: Gson, reply: ScoreReply)
    requires RecordedBefore(denied, before) && before <= now
    ensures RecordedBefore(Decide(denied, endpoint, threshold, authn, request, now, gson, reply).denied, now)
  {
    DecideIsTransition(denied, endpoint, threshold, authn, request, now, gson, reply);
  }

  /** The checks the action makes before reading the request, in the order it makes them. */
  predicate Configured(endpoint: Option<string>, authn: Option<AuthnContext>, request: Option<ServletRequest>)
  {
    authn.Some? && authn.value.result.Some? && endpoint.Some? && !IsBlank(endpoint.value) && request.Some?
  }

  /** A configured single sign-on request is decided by the denial map alone. */
  lemma DecideSso(denied: map<string, int>, endpoint: Option<string>, threshold: Double,
                  authn: Option<AuthnContext>, request: Option<ServletRequest>,
                  now: int, gson: Gson, reply: ScoreReply)
    requires Configured(endpoint, authn, request) && IsSso(request.value)
    requires ExtractClientIp(request.value.forwardedFor, request.value.remoteAddr).Ok?
    ensures Decide(denied, endpoint, threshold, authn, request, now, gson, reply)
      == SsoDecision(denied, Username(authn), now)
  {
  }

  /** A configured request with metrics is a full login over what sanitizeAndValidateMetrics returns. */
  lemma DecideFullLogin(denied: map<string, int>, endpoint: Option<string>, threshold: Double,
                        authn: Option<AuthnContext>, request: Option<ServletRequest>,
                        now: int, gson: Gson, reply: ScoreReply)
    requires Configured(endpoint, authn, request) && !IsSso(request.value)
    requires ExtractClientIp(request.value.forwardedFor, request.value.remoteAddr).Ok?
    ensures var req := request.value;
      Decide(denied, endpoint, threshold, authn, request, now, gson, reply)
      == FullLogin(denied, Username(authn), ExtractClientIp(req.forwardedFor, req.remoteAddr).value,
                   SafeString(req.userAgent), ValidateMetrics(req.metricsField, gson.parse, gson.metricsBytes),
                   threshold, now, gson, reply)
  {
  }

  /** A full login that ends in AccessDenied records the user with the current time. */
  lemma FullLoginDenialRecordsNow(denied: map<string, int>, username: Option<string>, ipAddress: Option<string>,
                                  userAgent: string, sanitized: Option<Fields>, threshold: Double,
                                  now: int, gson: Gson, reply: ScoreReply)
    ensures var d := FullLogin(denied, username, ipAddress, userAgent, sanitized, threshold, now, gson, reply);
      d.outcome == AccessDenied ==> username.Some? && d.denied == denied[username.value := now]
  {
  }

  /**
   * A single sign-on attempt by a named user is denied exactly when the user
   * was denied less than an hour ago, and otherwise admitted; an expired
   * entry is removed. Neither the service nor Gson is consulted.
   */
  lemma SsoDecidedByDenialAge(denied: map<string, int>, endpoint: Option<string>, threshold: Double,
                              authn: Option<AuthnContext>, request: Option<ServletRequest>,
                              now: int, gson: Gson, reply: ScoreReply)
    requires Configured(endpoint, authn, request) && IsSso(request.value) && Username(authn).Some?
    requires ExtractClientIp(request.value.forwardedFor, request.value.remoteAddr).Ok?
    ensures var d := Decide(denied, endpoint, threshold, authn, request, now, gson, reply);
      var u := Username(authn).value;
      if u in denied && now - denied[u] < DENIAL_TIMEOUT_MS then d == Decision(AccessDenied, denied)
      else d == Decision(Proceed, denied - {u})
  {
    DecideSso(denied, endpoint, threshold, authn, request, now, gson, reply);
    var u := Username(authn).value;
    if u !in denied {
      assert denied - {u} == denied;
    }
  }

  /** Metrics that fail validation deny a named user and record the time of the denial. */
  lemma RejectedMetricsDeny(denied: map<string, int>, endpoint: Option<string>, threshold: Double,
                            authn: Option<AuthnContext>, request: Option<ServletRequest>,
                            now: int, gson: Gson, reply: ScoreReply)
    requires Configured(endpoint, authn, request) && !IsSso(request.value) && Username(authn).Some?
    requires ExtractClientIp(request.value.forwardedFor, request.value.remoteAddr).Ok?
    requires ValidateMetrics(request.value.metricsField, gson.parse, gson.metricsBytes).None?
    ensures Decide(denied, endpoint, threshold, authn, request, now, gson, reply)
      == Decision(AccessDenied, denied[Username(authn).value := now])
  {
    DecideFullLogin(denied, endpoint, threshold, authn, request, now, gson, reply);
  }

  /**
   * A full login that reaches the score admits a named user exactly when the
   * score is below the threshold; a NaN threshold denies every such login.
   */
  lemma ScoreDecides(denied: map<string, int>, endpoint: Option<string>, threshold: Double,
                     authn: Option<AuthnContext>, request: Option<ServletRequest>,
                     now: int, gson: Gson, reply: ScoreReply)
    requires Configured(endpoint, authn, request) && !IsSso(request.value) && Username(authn).Some?
    requires ExtractClientIp(request.value.forwardedFor, request.value.remoteAddr).Ok?
    requires ValidateMetrics(request.value.metricsField, gson.parse, gson.metricsBytes).Some?
    requires gson.payloadBytes(BuildPayload(Username(authn),
      ExtractClientIp(request.value.forwardedFor, request.value.remoteAddr).value,
      SafeString(request.value.userAgent),
      ValidateMetrics(request.value.metricsField, gson.parse, gson.metricsBytes).value)) <= MAX_PAYLOAD_BYTES
    requires ThreatScore(reply, gson).Some?
    ensures var d := Decide(denied, endpoint, threshold, authn, request, now, gson, reply);
      var u := Username(authn).value;
      && (d.outcome == Proceed <==> Less(Finite(ThreatScore(reply, gson).value), threshold))
      && (d.outcome == Proceed ==> d.denied == denied - {u})
      && (d.outcome != Proceed ==> d == Decision(AccessDenied, denied[u := now]))
      && (threshold.NaN? ==> d.outcome == AccessDenied)
  {
    DecideFullLogin(denied, endpoint, threshold, authn, request, now, gson, reply);
  }

  /**
   * A full login whose metrics were accepted ends in RuntimeException, with
   * the map untouched, exactly when the user name is null, the payload is
   * over 64 KiB, or no finite score comes back: the call fails, the status
   * is not 2xx, or the body has no readable threatScore.
   */
  lemma ScoringFailureIsRuntimeException(denied: map<string, int>, endpoint: Option<string>, threshold: Double,
                                         authn: Option<AuthnContext>, request: Option<ServletRequest>,
                                         now: int, gson: Gson, reply: ScoreReply)
    requires Configured(endpoint, authn, request) && !IsSso(request.value)
    requires ExtractClientIp(request.value.forwardedFor, request.value.remoteAddr).Ok?
    requires ValidateMetrics(request.value.metricsField, gson.parse, gson.metricsBytes).Some?
    ensures var d := Decide(denied, endpoint, threshold, authn, request, now, gson, reply);
      var failed := || Username(authn).None?
                    || gson.payloadBytes(BuildPayload(Username(authn),
                         ExtractClientIp(request.value.forwardedFor, request.value.remoteAddr).value,
                         SafeString(request.value.userAgent),
                         ValidateMetrics(request.value.metricsField, gson.parse, gson.metricsBytes).value)) > MAX_PAYLOAD_BYTES
                    || ThreatScore(reply, gson).None?;
      && (d.outcome == RuntimeException <==> failed)
      && (failed ==> d.denied == denied)
      && (reply.CallFailed? || !(200 <= reply.status < 300) ==> d == Decision(RuntimeException, denied))
  {
    DecideFullLogin(denied, endpoint, threshold, authn, request, now, gson, reply);
  }

  /**
   * An X-Forwarded-For header made only of commas makes extractClientIp
   * throw before the try block: the exception leaves doExecute and the map
   * is untouched, whatever the rest of the request holds.
   */
  lemma CommasOnlyHeaderEscapes(denied: map<string, int>, endpoint: Option<string>, threshold: Double,
                                authn: Option<AuthnContext>, request: Option<ServletRequest>,
                                now: int, gson: Gson, reply: ScoreReply)
    requires Configured(endpoint, authn, request)
    requires request.value.forwardedFor.Some? && OnlyCommas(request.value.forwardedFor.value)
    ensures Decide(denied, endpoint, threshold, authn, request, now, gson, reply)
      == Decision(Escaped(ArrayIndexOutOfBounds), denied)
  {
    var h := request.value.forwardedFor.value;
    assert !IsWhitespace(h[0]);
    ExtractClientIpChoice(request.value.forwardedFor, request.value.remoteAddr);
  }

  /**
   * A user denied on a full login at time t is refused single sign-on until
   * t + 1 hour and admitted (with the entry removed) from then on.
   */
  lemma DenialBlocksSsoForAnHour(denied: map<string, int>, endpoint: Option<string>, threshold: Double,
                                 authn: Option<AuthnContext>, login: ServletRequest, t: int,
                                 sso: ServletRequest, t2: int, gson: Gson, reply: ScoreReply, reply2: ScoreReply)
    requires Configured(endpoint, authn, Some(login)) && !IsSso(login)
    requires Decide(denied, endpoint, threshold, authn, Some(login), t, gson, reply).outcome == AccessDenied
    requires IsSso(sso) && ExtractClientIp(sso.forwardedFor, sso.remoteAddr).Ok?
    ensures var d1 := Decide(denied, endpoint, threshold, authn, Some(login), t, gson, reply);
      var d2 := Decide(d1.denied, endpoint, threshold, authn, Some(sso), t2, gson, reply2);
      d2.outcome == (if t2 - t < DENIAL_TIMEOUT_MS then AccessDenied else Proceed)
  {
    var ip := ExtractClientIp(login.forwardedFor, login.remoteAddr);
    assert ip.Ok?;
    DecideFullLogin(denied, endpoint, threshold, authn, Some(login), t, gson, reply);
    FullLoginDenialRecordsNow(denied, Username(authn), ip.value, SafeString(login.userAgent),
                              ValidateMetrics(login.metricsField, gson.parse, gson.metricsBytes),
                              threshold, t, gson, reply);
    var d1 := Decide(denied, endpoint, threshold, authn, Some(login), t, gson, reply);
    DecideSso(d1.denied, endpoint, threshold, authn, Some(sso), t2, gson, reply2);
  }
}
