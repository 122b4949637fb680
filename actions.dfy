/** The attach actions: cloud detection, the detach that precedes a
    re-attach, the auto-attach token request, the contract update with its
    status persistence and instance-id caching, and enabling a service by
    name. The contract server, the cloud identity code, `_detach` and the
    entitlement classes' `enable()` are scripted by an `Env`; what the
    actions do is recorded as a trace of events. */
module Actions {
  import opened Errors
  import opened Entitlements

  /** The subclasses of CloudFactoryError the detection can raise. */
  datatype CloudFactoryError =
    | NoCloud
    | NonViableCloud
    | UnsupportedCloud(cloudType: string)
    | OtherCloudFactoryError

  /** What `identity.cloud_instance_factory` does. */
  datatype FactoryOutcome =
    | Instance(cloud: string)
    | NoInstance
    | FactoryRaised(error: CloudFactoryError)

  /** What `request_auto_attach_contract_token` does: a response object, or
      an exception. */
  datatype TokenOutcome =
    | TokenResponse(fields: map<string, string>)
    | TokenRaised(error: Error)

  /** Which of the two `except` clauses of `attach_with_token`, if any, an
      exception from the contract update falls into (the exception hierarchy
      itself is not part of this model). */
  datatype RaisedKind = RaisedUrlError | RaisedUserFacingError | RaisedOther

  datatype UpdateOutcome =
    | Updated
    | UpdateRaised(error: Error, kind: RaisedKind)

  datatype NamedMessage = NamedMessage(msg: string, name: string)

  /** The reason an entitlement's `enable()` gives with a failure. */
  datatype EnableReason =
    | CanEnableFailure(message: Option<NamedMessage>)
    | OtherReason

  datatype EnableOutcome = EnableOutcome(ok: bool, reason: Option<EnableReason>)

  /** The collaborators of the actions, as scripted answers. `enable` answers
      the n-th enable call (counted over the whole trace) for a name. */
  datatype Env = Env(
    disableAutoAttach: bool,
    attached: bool,
    factory: FactoryOutcome,
    instanceId: Option<string>,
    detachCode: int,
    token: TokenOutcome,
    update: UpdateOutcome,
    enable: (nat, string) -> EnableOutcome)

  /** What the actions asked of their collaborators, in order. An `enable()`
      call records whether it reported success. */
  datatype Event =
    | ConsultCloudFactory
    | RunDetach
    | RequestToken(cloud: Option<string>)
    | RequestUpdatedContract(token: string, allowEnable: bool)
    | PersistStatus
    | UpdateMessages
    | WriteCache(key: string, value: string)
    | Enable(name: string, ok: bool)
    | Sleep(seconds: int)

  /** The configuration cache and the events so far. */
  datatype State = State(cache: map<string, string>, trace: seq<Event>)

  /** The outcome of one action and the state after it. */
  datatype Step<T> = Step(result: Result<T>, after: State)

  function Append(st: State, events: seq<Event>): State
  {
    State(st.cache, st.trace + events)
  }

  // ---------------------------------------------------------------------
  // Counting events

  /** The kinds of event the properties count: contract requests, enable
      calls, enable calls that succeeded, and sleeps. */
  datatype Kind = AttachRequests | Enables | Successes | Sleeps

  predicate Is(k: Kind, e: Event)
  {
    match k
    case AttachRequests => e.RequestUpdatedContract?
    case Enables => e.Enable?
    case Successes => e.Enable? && e.ok
    case Sleeps => e.Sleep?
  }

  function Count(trace: seq<Event>, p: Kind): (r: nat)
    ensures r <= |trace|
  {
    if |trace| == 0 then 0 else (if Is(p, trace[0]) then 1 else 0) + Count(trace[1..], p)
  }

  lemma {:induction false} CountConcat(a: seq<Event>, b: seq<Event>, p: Kind)
    ensures Count(a + b, p) == Count(a, p) + Count(b, p)
    decreases |a|
  {
    if |a| > 0 {
      assert (a + b)[1..] == a[1..] + b;
      CountConcat(a[1..], b, p);
    } else {
      assert a + b == b;
    }
  }

  /** The names of the Enable events, in order. */
  function EnabledNames(trace: seq<Event>): (r: seq<string>)
    ensures |r| == Count(trace, Enables)
  {
    if |trace| == 0 then []
    else (if trace[0].Enable? then [trace[0].name] else []) + EnabledNames(trace[1..])
  }

  lemma {:induction false} EnabledNamesConcat(a: seq<Event>, b: seq<Event>)
    ensures EnabledNames(a + b) == EnabledNames(a) + EnabledNames(b)
    decreases |a|
  {
    if |a| > 0 {
      assert (a + b)[1..] == a[1..] + b;
      EnabledNamesConcat(a[1..], b);
    } else {
      assert a + b == b;
    }
  }

  /** A predicate no event of the trace satisfies. */
  predicate NoneOf(trace: seq<Event>, p: Kind)
  {
    forall j :: 0 <= j < |trace| ==> !Is(p, trace[j])
  }

  lemma {:induction false} CountNone(trace: seq<Event>, p: Kind)
    requires NoneOf(trace, p)
    ensures Count(trace, p) == 0
    decreases |trace|
  {
    if |trace| > 0 {
      CountNone(trace[1..], p);
    }
  }

  /** `after` is `st` with events appended. */
  predicate Grows(st: State, after: State)
  {
    |st.trace| <= |after.trace| && after.trace[..|st.trace|] == st.trace
  }

  /** The events appended between two states. */
  function Added(st: State, after: State): seq<Event>
    requires Grows(st, after)
  {
    after.trace[|st.trace|..]
  }

  lemma GrowsAppend(st: State, events: seq<Event>)
    ensures Grows(st, Append(st, events)) && Added(st, Append(st, events)) == events
  {
    assert (st.trace + events)[..|st.trace|] == st.trace;
  }

  /** Events appended in two steps are the two runs, one after the other. */
  lemma AppendedTwice(st: State, mid: State, last: State, a: seq<Event>, b: seq<Event>)
    requires mid.trace == st.trace + a && last.trace == mid.trace + b
    ensures last.trace == st.trace + (a + b)
  {
    assert (st.trace + a) + b == st.trace + (a + b);
  }

  lemma GrowsBy(st: State, after: State, events: seq<Event>)
    requires after.trace == st.trace + events
    ensures Grows(st, after) && Added(st, after) == events
  {
    assert (st.trace + events)[..|st.trace|] == st.trace;
  }

  lemma GrowsTrans(a: State, b: State, c: State)
    requires Grows(a, b) && Grows(b, c)
    ensures Grows(a, c) && Added(a, c) == Added(a, b) + Added(b, c)
  {
    assert c.trace[..|a.trace|] == c.trace[..|b.trace|][..|a.trace|];
    assert c.trace[|a.trace|..] == c.trace[|a.trace|..|b.trace|] + c.trace[|b.trace|..];
    assert c.trace[|a.trace|..|b.trace|] == b.trace[|a.trace|..];
  }

  // ---------------------------------------------------------------------
  // get_cloud_instance

  /** The error a CloudFactoryError becomes. */
  function CloudFactoryUserError(e: CloudFactoryError, attached: bool): (r: Error)
    ensures attached <==> r == AlreadyAttachedError
    ensures !attached && e.UnsupportedCloud? ==>
      r == NonAutoAttachImageError(UnsupportedAutoAttachCloudType(e.cloudType))
    ensures !attached && e.NonViableCloud? ==> r == UserFacingError(UnsupportedAutoAttach)
    ensures !attached && (e.NoCloud? || e.OtherCloudFactoryError?) ==>
      r == UserFacingError(UnableToDetermineCloudType)
  {
    if attached then AlreadyAttachedError
    else match e
      case NoCloud => UserFacingError(UnableToDetermineCloudType)
      case NonViableCloud => UserFacingError(UnsupportedAutoAttach)
      case UnsupportedCloud(t) => NonAutoAttachImageError(UnsupportedAutoAttachCloudType(t))
      case OtherCloudFactoryError => UserFacingError(UnableToDetermineCloudType)
  }

  /** The errors cloud detection can end in. */
  predicate IsCloudDetectionError(e: Error)
  {
    || e == AlreadyAttachedError
    || e == UserFacingError(UnableToDetermineCloudType)
    || e == UserFacingError(UnsupportedAutoAttach)
    || (e.NonAutoAttachImageError? && e.message.UnsupportedAutoAttachCloudType?)
  }

  /** `get_cloud_instance`: no instance, and no detection at all, when
      auto-attach is disabled in the configuration. */
  function CloudInstance(env: Env, st: State): (r: Step<Option<string>>)
    ensures env.disableAutoAttach <==> r == Step(Ok(None), st)
    ensures !env.disableAutoAttach ==> r.after == Append(st, [ConsultCloudFactory])
    ensures r.result.Ok? && r.result.value.Some? <==> !env.disableAutoAttach && env.factory.Instance?
    ensures r.result.Ok? && r.result.value.Some? ==> r.result.value.value == env.factory.cloud
    ensures r.result.Ok? && r.result.value.None? ==> env.disableAutoAttach
    ensures !env.disableAutoAttach && env.factory.NoInstance? ==>
      r.result == Err(UserFacingError(UnableToDetermineCloudType))
    ensures !env.disableAutoAttach && env.factory.FactoryRaised? ==>
      r.result == Err(CloudFactoryUserError(env.factory.error, env.attached))
    ensures r.result.Err? ==> IsCloudDetectionError(r.result.error)
  {
    if env.disableAutoAttach then Step(Ok(None), st)
    else
      var after := Append(st, [ConsultCloudFactory]);
      match env.factory
      case Instance(c) => Step(Ok(Some(c)), after)
      case NoInstance => Step(Err(UserFacingError(UnableToDetermineCloudType)), after)
      case FactoryRaised(e) => Step(Err(CloudFactoryUserError(e, env.attached)), after)
  }

  // ---------------------------------------------------------------------
  // detach_before_auto_attach

  /** Python's `str()` of an optional string. */
  function PyStr(o: Option<string>): string
  {
    if o.None? then "None" else o.value
  }

  function CachedInstanceId(st: State): Option<string>
  {
    if "instance-id" in st.cache then Some(st.cache["instance-id"]) else None
  }

  /** The stringified current and cached instance ids agree (a missing id on
      both sides, or the string "None" on one, also agree). */
  predicate SameInstance(env: Env, st: State)
  {
    PyStr(env.instanceId) == PyStr(CachedInstanceId(st))
  }

  /** `detach_before_auto_attach`. */
  function DetachStep(env: Env, st: State): (r: Step<()>)
    ensures !env.attached ==> r == Step(Ok(()), st)
    ensures r.result.Err? && r.result.error.AlreadyAttachedOnPROError? <==> env.attached && SameInstance(env, st)
    ensures r.result.Err? && r.result.error.AlreadyAttachedOnPROError? ==>
      r.result.error.instanceId == PyStr(env.instanceId)
    ensures r.after == (if env.attached && !SameInstance(env, st) then Append(st, [RunDetach]) else st)
    ensures r.result.Ok? <==> !env.attached || (!SameInstance(env, st) && env.detachCode == 0)
    ensures r.result.Err? && !r.result.error.AlreadyAttachedOnPROError? ==>
      r.result.error == UserFacingError(DetachAutomationFailure)
  {
    if !env.attached then Step(Ok(()), st)
    else if SameInstance(env, st) then Step(Err(AlreadyAttachedOnPROError(PyStr(env.instanceId))), st)
    else
      var after := Append(st, [RunDetach]);
      if env.detachCode != 0 then Step(Err(UserFacingError(DetachAutomationFailure)), after)
      else Step(Ok(()), after)
  }

  // ---------------------------------------------------------------------
  // The auto-attach token (auto_attach, and get_auto_attach_token of the
  // full auto-attach endpoint)

  /** A contract error whose code is set and a client error. */
  predicate IsClientError(e: Error)
  {
    e.ContractAPIError? && e.code.Some? && 400 <= e.code.value < 500
  }

  /** The error a failed token request becomes: client errors mean the image
      cannot auto-attach, everything else is raised unchanged. */
  function TokenUserError(e: Error): (r: Error)
    ensures IsClientError(e) ==> r == NonAutoAttachImageError(UnsupportedAutoAttach)
    ensures !IsClientError(e) ==> r == e
  {
    if IsClientError(e) then NonAutoAttachImageError(UnsupportedAutoAttach) else e
  }

  /** The token request: one event, then the `contractToken` of the response
      (KeyError without one) or the mapped error. */
  function AutoAttachToken(env: Env, cloud: Option<string>, st: State): (r: Step<string>)
    ensures r.after == Append(st, [RequestToken(cloud)])
    ensures r.result.Ok? <==> env.token.TokenResponse? && "contractToken" in env.token.fields
    ensures r.result.Ok? ==> r.result.value == env.token.fields["contractToken"]
    ensures env.token.TokenResponse? && "contractToken" !in env.token.fields ==>
      r.result == Err(KeyError("contractToken"))
    ensures env.token.TokenRaised? ==> r.result == Err(TokenUserError(env.token.error))
  {
    var after := Append(st, [RequestToken(cloud)]);
    match env.token
    case TokenResponse(fields) =>
      if "contractToken" in fields then Step(Ok(fields["contractToken"]), after)
      else Step(Err(KeyError("contractToken")), after)
    case TokenRaised(e) => Step(Err(TokenUserError(e)), after)
  }

  // ---------------------------------------------------------------------
  // attach_with_token

  predicate Truthy(o: Option<string>)
  {
    o.Some? && o.value != ""
  }

  /** What `attach_with_token` does after requesting the contract update:
      persist the status and update the messages when a URL or user-facing
      error is caught; cache the instance id, when there is one, and update
      the messages on success; nothing when another error propagates. */
  function AttachFollowUp(env: Env): (r: seq<Event>)
    ensures NoneOf(r, AttachRequests) && NoneOf(r, Enables) && NoneOf(r, Sleeps)
    ensures env.update.Updated? ==> |r| > 0 && r[|r| - 1] == UpdateMessages
    ensures env.update.UpdateRaised? && env.update.kind != RaisedOther ==> r == [PersistStatus, UpdateMessages]
    ensures env.update.UpdateRaised? && env.update.kind == RaisedOther ==> r == []
    ensures WriteCache("instance-id", PyStr(env.instanceId)) in r <==> env.update.Updated? && Truthy(env.instanceId)
  {
    match env.update
    case UpdateRaised(_, kind) => if kind == RaisedOther then [] else [PersistStatus, UpdateMessages]
    case Updated =>
      (if Truthy(env.instanceId) then [WriteCache("instance-id", env.instanceId.value)] else []) + [UpdateMessages]
  }

  /** `attach_with_token`: the contract update comes first; on a URL or
      user-facing error the status is persisted and the messages updated
      before the error is raised again; on success the instance id is cached
      when there is one, then the messages are updated. */
  function AttachWithTokenStep(env: Env, token: string, allowEnable: bool, st: State): (r: Step<()>)
    ensures r.after.trace == st.trace + [RequestUpdatedContract(token, allowEnable)] + AttachFollowUp(env)
    ensures r.result.Ok? <==> env.update.Updated?
    ensures r.result.Err? ==> r.result == Err(env.update.error) && r.after.cache == st.cache
    ensures r.result.Ok? ==>
      r.after.cache == (if Truthy(env.instanceId) then st.cache["instance-id" := env.instanceId.value] else st.cache)
  {
    var sent := Append(st, [RequestUpdatedContract(token, allowEnable)]);
    match env.update
    case UpdateRaised(e, kind) =>
      if kind == RaisedOther then Step(Err(e), sent)
      else Step(Err(e), Append(sent, [PersistStatus, UpdateMessages]))
    case Updated =>
      var cached :=
        if Truthy(env.instanceId) then
          State(sent.cache["instance-id" := env.instanceId.value],
                sent.trace + [WriteCache("instance-id", env.instanceId.value)])
        else sent;
      Step(Ok(()), Append(cached, [UpdateMessages]))
  }

  /** `auto_attach`: the token, then the attach with enabling allowed; a
      failed token request never reaches the contract update. */
  function AutoAttachStep(env: Env, cloud: string, st: State): (r: Step<()>)
    ensures r.result.Ok? <==>
      env.token.TokenResponse? && "contractToken" in env.token.fields && env.update.Updated?
    ensures AutoAttachToken(env, Some(cloud), st).result.Err? ==>
      r == Step(Err(AutoAttachToken(env, Some(cloud), st).result.error), Append(st, [RequestToken(Some(cloud))]))
    ensures AutoAttachToken(env, Some(cloud), st).result.Ok? ==>
      r == AttachWithTokenStep(env, env.token.fields["contractToken"], true, Append(st, [RequestToken(Some(cloud))]))
  {
    var t := AutoAttachToken(env, Some(cloud), st);
    if t.result.Err? then Step(Err(t.result.error), t.after)
    else AttachWithTokenStep(env, t.result.value, true, t.after)
  }

  // ---------------------------------------------------------------------
  // enable_entitlement_by_name

  /** The entitlement is looked up first (EntitlementNotFoundError, and no
      enable call, when the name is unknown); then its `enable()` runs. */
  function EnableByName(env: Env, reg: Registry, name: string, st: State): (r: Step<EnableOutcome>)
    ensures r.result.Err? <==> !Resolves(reg, name)
    ensures r.result.Err? ==> r.result.error == EntitlementNotFoundError([]) && r.after == st
    ensures r.result.Ok? ==> r.after == Append(st, [Enable(name, r.result.value.ok)])
    ensures r.result.Ok? ==> r.result.value == env.enable(Count(st.trace, Enables), name)
  {
    match EntitlementFactory(reg, name)
    case Err(e) => Step(Err(e), st)
    case Ok(_) =>
      var o := env.enable(Count(st.trace, Enables), name);
      Step(Ok(o), Append(st, [Enable(name, o.ok)]))
  }

  // ---------------------------------------------------------------------
  // The configuration and its collaborators

  class Host {
    const env: Env
    const reg: Registry
    var cache: map<string, string>
    var trace: seq<Event>

    constructor (env: Env, reg: Registry, cache: map<string, string>)
      ensures this.env == env && this.reg == reg && this.cache == cache && trace == []
    {
      this.env := env;
      this.reg := reg;
      this.cache := cache;
      trace := [];
    }

    function Snapshot(): State
      reads this
    {
      State(cache, trace)
    }

    method GetCloudInstance() returns (r: Result<Option<string>>)
      modifies this
      ensures Step(r, Snapshot()) == CloudInstance(env, old(Snapshot()))
    {
      if env.disableAutoAttach {
        return Ok(None);
      }
      trace := trace + [ConsultCloudFactory];
      match env.factory {
        case Instance(c) => r := Ok(Some(c));
        case NoInstance => r := Err(UserFacingError(UnableToDetermineCloudType));
        case FactoryRaised(e) => r := Err(CloudFactoryUserError(e, env.attached));
      }
    }

    method DetachBeforeAutoAttach() returns (r: Result<()>)
      modifies this
      ensures Step(r, Snapshot()) == DetachStep(env, old(Snapshot()))
    {
      var current := env.instanceId;
      if !env.attached {
        return Ok(());
      }
      var previous := if "instance-id" in cache then Some(cache["instance-id"]) else None;
      if PyStr(current) == PyStr(previous) {
        return Err(AlreadyAttachedOnPROError(PyStr(current)));
      }
      trace := trace + [RunDetach];
      if env.detachCode != 0 {
        return Err(UserFacingError(DetachAutomationFailure));
      }
      r := Ok(());
    }

    method RequestAutoAttachToken(cloud: Option<string>) returns (r: Result<string>)
      modifies this
      ensures Step(r, Snapshot()) == AutoAttachToken(env, cloud, old(Snapshot()))
    {
      trace := trace + [RequestToken(cloud)];
      match env.token {
        case TokenRaised(e) =>
          r := Err(TokenUserError(e));
        case TokenResponse(fields) =>
          if "contractToken" in fields {
            r := Ok(fields["contractToken"]);
          } else {
            r := Err(KeyError("contractToken"));
          }
      }
    }

    method AttachWithToken(token: string, allowEnable: bool) returns (r: Result<()>)
      modifies this
      ensures Step(r, Snapshot()) == AttachWithTokenStep(env, token, allowEnable, old(Snapshot()))
    {
      trace := trace + [RequestUpdatedContract(token, allowEnable)];
      if env.update.UpdateRaised? {
        if env.update.kind != RaisedOther {
          trace := trace + [PersistStatus];
          trace := trace + [UpdateMessages];
        }
        return Err(env.update.error);
      }
      var current := env.instanceId;
      if Truthy(current) {
        cache := cache["instance-id" := current.value];
        trace := trace + [WriteCache("instance-id", current.value)];
      }
      trace := trace + [UpdateMessages];
      r := Ok(());
    }

    method AutoAttach(cloud: string) returns (r: Result<()>)
      modifies this
      ensures Step(r, Snapshot()) == AutoAttachStep(env, cloud, old(Snapshot()))
    {
      var token := RequestAutoAttachToken(Some(cloud));
      if token.Err? {
        return Err(token.error);
      }
      r := AttachWithToken(token.value, true);
    }

    method EnableEntitlementByName(name: string) returns (r: Result<EnableOutcome>)
      modifies this
      ensures Step(r, Snapshot()) == EnableByName(env, reg, name, old(Snapshot()))
    {
      var found := EntitlementFactory(reg, name);
      if found.Err? {
        return Err(found.error);
      }
      var o := env.enable(Count(trace, Enables), name);
      r := Ok(o);
      trace := trace + [Enable(name, o.ok)];
    }

    method Sleep(seconds: int)
      modifies this
      ensures cache == old(cache) && trace == old(trace) + [Event.Sleep(seconds)]
    {
      trace := trace + [Event.Sleep(seconds)];
    }
  }
}
