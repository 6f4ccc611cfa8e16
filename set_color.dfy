/**
 * The `POST /set-color` handler: validate the payload, check the caller,
 * convert the colour, then send the same light-state body to every
 * configured light, one after the other, stopping at the first light
 * whose request fails. Nothing is rolled back.
 *
 * The Hue bridge is an object with an abstract answer for each request it
 * receives; it records the requests and the state bodies it has applied.
 * `rgb_to_xy` is a parameter: only the pair it returns is carried along.
 */
module SetColor {
  import opened Wrappers
  import opened Strings
  import opened ColorPayload
  import opened HexColor
  import opened CloudTaskAuth

  /** The environment the handler reads. */
  datatype Config = Config(
    serviceUrl: string,       // CLOUD_RUN_SERVICE_URL, the token audience
    serviceAccount: string,   // TASK_SERVICE_ACCOUNT_EMAIL
    bridgeIp: string,         // HUE_BRIDGE_IP
    username: string,         // HUE_USERNAME
    lightIds: string)         // HUE_LIGHT_IDS, comma-separated

  /** CIE 1931 chromaticity as computed by `rgb_to_xy`. */
  datatype Xy = Xy(x: real, y: real)

  /** The JSON body `{"on": true, "bri": 254, "xy": [x, y]}`. */
  datatype LightState = LightState(on: bool, bri: int, xy: Xy)

  /** One `PUT url` with a JSON body. */
  datatype PutRequest = PutRequest(url: string, body: LightState)

  /** What the handler answers. */
  datatype Response =
    | Unprocessable                               // the payload does not match the pattern
    | Forbidden(reason: AuthError)                // verify_cloud_task raised
    | ConversionFailed                            // hex_to_rgb raised ValueError
    | LightFailed(lid: string)                    // raise_for_status raised for this light
    | Updated(color: string, updated: seq<string>)

  /** HTTP status of a response. */
  function Status(r: Response): nat
  {
    match r
    case Unprocessable => 422
    case Forbidden(_) => 403
    case ConversionFailed => 500
    case LightFailed(_) => 500
    case Updated(_, _) => 200
  }

  const Brightness: int := 254

  function LightPrefix(bridge: string, user: string): string
  {
    "http://" + bridge + "/api/" + user + "/lights/"
  }

  /** `f"http://{bridge}/api/{user}/lights/{lid}/state"` */
  function LightUrl(bridge: string, user: string, lid: string): string
  {
    LightPrefix(bridge, user) + lid + "/state"
  }

  /** Distinct light ids address distinct resources on the same bridge. */
  lemma LightUrlInjective(bridge: string, user: string, a: string, b: string)
    ensures LightUrl(bridge, user, a) == LightUrl(bridge, user, b) <==> a == b
  {
    var p := LightPrefix(bridge, user);
    if LightUrl(bridge, user, a) == LightUrl(bridge, user, b) {
      assert |a| == |b|;
      assert a == LightUrl(bridge, user, a)[|p|..|p| + |a|];
      assert b == LightUrl(bridge, user, b)[|p|..|p| + |b|];
    }
  }

  /** The request sent for each light id, in list order. */
  function Requests(bridge: string, user: string, ids: seq<string>, body: LightState): (reqs: seq<PutRequest>)
  {
    seq(|ids|, j requires 0 <= j < |ids| => PutRequest(LightUrl(bridge, user, ids[j]), body))
  }

  /** What a successful request to each url leaves on the bridge, in order. */
  function ApplyAll(lights: map<string, LightState>, reqs: seq<PutRequest>): map<string, LightState>
  {
    if reqs == [] then lights
    else ApplyAll(lights, reqs[..|reqs| - 1])[reqs[|reqs| - 1].url := reqs[|reqs| - 1].body]
  }

  function Urls(reqs: seq<PutRequest>): seq<string>
  {
    seq(|reqs|, j requires 0 <= j < |reqs| => reqs[j].url)
  }

  /** With one body for all requests, every url sent ends with that body and the rest keep theirs. */
  lemma {:induction false} ApplyAllUniform(lights: map<string, LightState>, reqs: seq<PutRequest>,
                                           body: LightState, u: string)
    requires forall j :: 0 <= j < |reqs| ==> reqs[j].body == body
    ensures u in ApplyAll(lights, reqs) <==> u in lights || u in Urls(reqs)
    ensures u in Urls(reqs) ==> ApplyAll(lights, reqs)[u] == body
    ensures u !in Urls(reqs) && u in lights ==> ApplyAll(lights, reqs)[u] == lights[u]
  {
    if reqs != [] {
      var init := reqs[..|reqs| - 1];
      ApplyAllUniform(lights, init, body, u);
      assert Urls(reqs) == Urls(init) + [reqs[|reqs| - 1].url];
    }
  }

  /**
   * How many of `reqs` succeed before the first failure, when the first of
   * them is the `start`-th request the bridge receives.
   */
  function LeadingSuccesses(respond: (nat, PutRequest) -> bool, start: nat, reqs: seq<PutRequest>): (k: nat)
    ensures k <= |reqs|
    ensures forall j :: 0 <= j < k ==> respond(start + j, reqs[j])
    ensures k < |reqs| ==> !respond(start + k, reqs[k])
    decreases |reqs|
  {
    if reqs == [] || !respond(start, reqs[0]) then 0
    else 1 + LeadingSuccesses(respond, start + 1, reqs[1..])
  }

  /** The leading run of successes ends exactly at the first failing request. */
  lemma LeadingSuccessesAt(respond: (nat, PutRequest) -> bool, start: nat, reqs: seq<PutRequest>, i: nat)
    requires i <= |reqs|
    requires forall j :: 0 <= j < i ==> respond(start + j, reqs[j])
    requires i < |reqs| ==> !respond(start + i, reqs[i])
    ensures LeadingSuccesses(respond, start, reqs) == i
  {
  }

  lemma ApplyAllStep(lights: map<string, LightState>, reqs: seq<PutRequest>, i: nat)
    requires i < |reqs|
    ensures ApplyAll(lights, reqs[..i + 1]) == ApplyAll(lights, reqs[..i])[reqs[i].url := reqs[i].body]
  {
    assert reqs[..i + 1][..i] == reqs[..i];
  }

  /** The Hue bridge as seen by the handler. */
  class HueBridge {
    /** Whether the `n`-th request the bridge receives gets a 2xx answer. */
    const respond: (nat, PutRequest) -> bool
    /** Every request received, in order. */
    var log: seq<PutRequest>
    /** The state body last applied at each light url. */
    var lights: map<string, LightState>

    constructor (respond: (nat, PutRequest) -> bool, lights: map<string, LightState>)
      ensures this.respond == respond && this.log == [] && this.lights == lights
    {
      this.respond := respond;
      this.log := [];
      this.lights := lights;
    }

    /** `await client.put(url, json=body)` followed by `raise_for_status()`. */
    method Put(req: PutRequest) returns (ok: bool)
      modifies this
      ensures ok == respond(|old(log)|, req)
      ensures log == old(log) + [req]
      ensures lights == if ok then old(lights)[req.url := req.body] else old(lights)
    {
      ok := respond(|log|, req);
      log := log + [req];
      if ok {
        lights := lights[req.url := req.body];
      }
    }
  }

  /** What the handler sends once the payload, the caller and the colour are good. */
  datatype Plan = Plan(ids: seq<string>, body: LightState)

  /** Everything `set_color` decides before the first request goes out. */
  function PlanSetColor(color: string, authorization: Option<string>, env: Config,
                        verify: Verifier, toXy: Rgb -> Xy): Result<Plan, Response>
  {
    if !ValidColor(color) then Failure(Unprocessable)
    else match VerifyCloudTask(authorization, env.serviceUrl, env.serviceAccount, verify)
      case Fail(e) => Failure(Forbidden(e))
      case Pass =>
        match ColorToRgb(color)
        case None => Failure(ConversionFailed)
        case Some(rgb) => Success(Plan(Split(env.lightIds, ','), LightState(true, Brightness, toXy(rgb))))
  }

  /**
   * A plan exists only for a valid payload from an accepted caller whose
   * colour converts. It targets the comma-separated ids in order, empty ones
   * kept, and carries one body for all of them.
   */
  lemma PlanShape(color: string, authorization: Option<string>, env: Config,
                  verify: Verifier, toXy: Rgb -> Xy)
    requires PlanSetColor(color, authorization, env, verify, toXy).Success?
    ensures ValidColor(color)
    ensures VerifyCloudTask(authorization, env.serviceUrl, env.serviceAccount, verify) == Pass
    ensures var p := PlanSetColor(color, authorization, env, verify, toXy).value;
      && Join(p.ids, ',') == env.lightIds
      && |p.ids| == Count(env.lightIds, ',') + 1
      && p.body == LightState(true, 254, toXy(ColorToRgb(color).value))
  {
    var ids := Split(env.lightIds, ',');
    JoinSplit(env.lightIds, ',');
    SplitCount(env.lightIds, ',');
  }

  /** A valid payload from a rejected caller is answered with 403 before anything else happens. */
  lemma RejectedCallerIs403(color: string, authorization: Option<string>, env: Config,
                            verify: Verifier, toXy: Rgb -> Xy)
    requires ValidColor(color)
    requires VerifyCloudTask(authorization, env.serviceUrl, env.serviceAccount, verify).Fail?
    ensures PlanSetColor(color, authorization, env, verify, toXy).Failure?
    ensures Status(PlanSetColor(color, authorization, env, verify, toXy).error) == 403
  {
  }

  /** An accepted caller with a `#RRGGBB` or `#RGB` colour always reaches the lights. */
  lemma HexColorsReachLights(color: string, authorization: Option<string>, env: Config,
                             verify: Verifier, toXy: Rgb -> Xy)
    requires IsLongHex(color) || IsShortHex(color)
    requires VerifyCloudTask(authorization, env.serviceUrl, env.serviceAccount, verify) == Pass
    ensures PlanSetColor(color, authorization, env, verify, toXy).Success?
  {
    ColorToRgbAcceptsHexForms(color);
  }

  /**
   * The bridge state after the first `i` requests of `reqs` were sent and
   * answered with success, starting from `log0` and `lights0`.
   */
  ghost predicate SentSoFar(respond: (nat, PutRequest) -> bool, log0: seq<PutRequest>,
                            lights0: map<string, LightState>, reqs: seq<PutRequest>, i: nat,
                            log: seq<PutRequest>, lights: map<string, LightState>)
  {
    && i <= |reqs|
    && (forall j :: 0 <= j < i ==> respond(|log0| + j, reqs[j]))
    && log == log0 + reqs[..i]
    && lights == ApplyAll(lights0, reqs[..i])
  }

  /**
   * The bridge state after sending `reqs` in order and stopping at the first
   * failure: the requests up to and including the failing one were sent, the
   * successful ones were applied, and `failedAt` is the failing index.
   */
  ghost predicate StoppedAtFirstFailure(respond: (nat, PutRequest) -> bool, log0: seq<PutRequest>,
                                        lights0: map<string, LightState>, reqs: seq<PutRequest>,
                                        failedAt: Option<nat>, log: seq<PutRequest>,
                                        lights: map<string, LightState>)
  {
    var k := LeadingSuccesses(respond, |log0|, reqs);
    && failedAt == (if k == |reqs| then None else Some(k))
    && log == log0 + reqs[..if k == |reqs| then k else k + 1]
    && lights == ApplyAll(lights0, reqs[..k])
  }

  lemma SentOneMore(respond: (nat, PutRequest) -> bool, log0: seq<PutRequest>,
                    lights0: map<string, LightState>, reqs: seq<PutRequest>, i: nat,
                    log: seq<PutRequest>, lights: map<string, LightState>)
    requires i < |reqs| && SentSoFar(respond, log0, lights0, reqs, i, log, lights)
    requires respond(|log|, reqs[i])
    ensures SentSoFar(respond, log0, lights0, reqs, i + 1, log + [reqs[i]],
                      lights[reqs[i].url := reqs[i].body])
  {
    assert reqs[..i + 1] == reqs[..i] + [reqs[i]];
    ApplyAllStep(lights0, reqs, i);
  }

  lemma StoppedAt(respond: (nat, PutRequest) -> bool, log0: seq<PutRequest>,
                  lights0: map<string, LightState>, reqs: seq<PutRequest>, i: nat,
                  log: seq<PutRequest>, lights: map<string, LightState>)
    requires i < |reqs| && SentSoFar(respond, log0, lights0, reqs, i, log, lights)
    requires !respond(|log|, reqs[i])
    ensures StoppedAtFirstFailure(respond, log0, lights0, reqs, Some(i), log + [reqs[i]], lights)
  {
    assert reqs[..i + 1] == reqs[..i] + [reqs[i]];
    LeadingSuccessesAt(respond, |log0|, reqs, i);
  }

  lemma SentAll(respond: (nat, PutRequest) -> bool, log0: seq<PutRequest>,
                lights0: map<string, LightState>, reqs: seq<PutRequest>,
                log: seq<PutRequest>, lights: map<string, LightState>)
    requires SentSoFar(respond, log0, lights0, reqs, |reqs|, log, lights)
    ensures StoppedAtFirstFailure(respond, log0, lights0, reqs, None, log, lights)
  {
    assert reqs[..|reqs|] == reqs;
    LeadingSuccessesAt(respond, |log0|, reqs, |reqs|);
  }

  /**
   * The loop of `set_color`: put `body` to each light in list order and stop
   * at the first failure, whose index is returned. Earlier lights keep the
   * new state, every light not among the ids before the failing one is left
   * as it was, and no light after the failing one is contacted.
   */
  method FanOut(bridgeIp: string, user: string, ids: seq<string>, body: LightState, bridge: HueBridge)
    returns (failedAt: Option<nat>)
    modifies bridge
    ensures StoppedAtFirstFailure(bridge.respond, old(bridge.log), old(bridge.lights),
                                  Requests(bridgeIp, user, ids, body), failedAt, bridge.log, bridge.lights)
  {
    ghost var reqs := Requests(bridgeIp, user, ids, body);
    ghost var respond := bridge.respond;
    ghost var log0, lights0 := bridge.log, bridge.lights;
    var i := 0;
    while i < |ids|
      invariant SentSoFar(respond, log0, lights0, reqs, i, bridge.log, bridge.lights)
    {
      var url := LightUrl(bridgeIp, user, ids[i]);
      assert PutRequest(url, body) == reqs[i];
      ghost var log, lights := bridge.log, bridge.lights;
      var ok := bridge.Put(PutRequest(url, body));
      if !ok {
        StoppedAt(respond, log0, lights0, reqs, i, log, lights);
        return Some(i);
      }
      SentOneMore(respond, log0, lights0, reqs, i, log, lights);
      i := i + 1;
    }
    SentAll(respond, log0, lights0, reqs, bridge.log, bridge.lights);
    return None;
  }

  /**
   * `set_color` (with the `#RGB` expansion): a rejected plan answers without
   * contacting the bridge;
   * otherwise the fan-out runs and the answer names the first light that
   * failed, or lists every id.
   */
  method HandleSetColor(color: string, authorization: Option<string>, env: Config,
                        verify: Verifier, toXy: Rgb -> Xy, bridge: HueBridge)
    returns (resp: Response)
    modifies bridge
    ensures PlanSetColor(color, authorization, env, verify, toXy).Failure? ==>
      && resp == PlanSetColor(color, authorization, env, verify, toXy).error
      && bridge.log == old(bridge.log) && bridge.lights == old(bridge.lights)
    ensures PlanSetColor(color, authorization, env, verify, toXy).Success? ==>
      var p := PlanSetColor(color, authorization, env, verify, toXy).value;
      var reqs := Requests(env.bridgeIp, env.username, p.ids, p.body);
      var k := LeadingSuccesses(bridge.respond, |old(bridge.log)|, reqs);
      && StoppedAtFirstFailure(bridge.respond, old(bridge.log), old(bridge.lights), reqs,
                               if k == |reqs| then None else Some(k), bridge.log, bridge.lights)
      && resp == (if k == |p.ids| then Updated(color, p.ids) else LightFailed(p.ids[k]))
  {
    var plan := PlanSetColor(color, authorization, env, verify, toXy);
    if plan.Failure? {
      return plan.error;
    }
    var ids := plan.value.ids;
    var failedAt := FanOut(env.bridgeIp, env.username, ids, plan.value.body, bridge);
    if failedAt.Some? {
      assert failedAt.value < |ids|;
      return LightFailed(ids[failedAt.value]);
    }
    return Updated(color, ids);
  }

  /**
   * After a run that stopped at light `k`, a light id that is not among the
   * first `k` ids keeps whatever state it had.
   */
  lemma UntouchedLights(bridge: string, user: string, ids: seq<string>, body: LightState,
                        k: nat, lid: string, before: map<string, LightState>)
    requires k <= |ids| && lid !in ids[..k]
    ensures var u := LightUrl(bridge, user, lid);
      var after := ApplyAll(before, Requests(bridge, user, ids, body)[..k]);
      && (u in after <==> u in before)
      && (u in before ==> after[u] == before[u])
  {
    var reqs := Requests(bridge, user, ids, body)[..k];
    var u := LightUrl(bridge, user, lid);
    ApplyAllUniform(before, reqs, body, u);
    forall j | 0 <= j < k ensures Urls(reqs)[j] != u {
      assert ids[..k][j] == ids[j];
      LightUrlInjective(bridge, user, ids[j], lid);
    }
  }

  /** After a run that stopped at light `k`, each of the first `k` lights holds the new body. */
  lemma UpdatedLights(bridge: string, user: string, ids: seq<string>, body: LightState,
                      k: nat, j: nat, before: map<string, LightState>)
    requires j < k <= |ids|
    ensures var u := LightUrl(bridge, user, ids[j]);
      var after := ApplyAll(before, Requests(bridge, user, ids, body)[..k]);
      u in after && after[u] == body
  {
    var reqs := Requests(bridge, user, ids, body)[..k];
    var u := LightUrl(bridge, user, ids[j]);
    assert Urls(reqs)[j] == u;
    ApplyAllUniform(before, reqs, body, u);
  }
}
