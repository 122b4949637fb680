/** The `u.pro.attach.auto.full_auto_attach.v1` endpoint: attach once, then
    enable the requested services, retrying a bounded number of times. */
module FullAutoAttach {
  import opened Errors
  import opened Entitlements
  import opened Actions

  datatype Options = Options(
    enable: Option<seq<string>>,
    enableBeta: Option<seq<string>>,
    retries: Option<int>)

  /** A list option that is present and non-empty (Python truthiness). */
  predicate Given(names: Option<seq<string>>)
  {
    names.Some? && |names.value| > 0
  }

  /** The number of attempts: `retries` when it is set and non-zero, else 3. */
  function Limit(opts: Options): (r: int)
    ensures opts.retries.Some? && opts.retries.value != 0 ==> r == opts.retries.value
    ensures opts.retries.None? || opts.retries.value == 0 ==> r == 3
  {
    if opts.retries.Some? && opts.retries.value != 0 then opts.retries.value else 3
  }

  /** Enabling is left to the contract update exactly when no service is
      requested. */
  predicate AllowEnable(opts: Options)
  {
    !(Given(opts.enable) || Given(opts.enableBeta))
  }

  const FailureMessage: string := "full_auto_attach was not successful"
  const FailureCode: string := "full-auto-attach-error"
  const BetaMessage: string := "beta service found in the enable list"
  const BetaCode: string := "beta-service-found"

  /** `is_any_beta`: names that do not resolve are skipped. */
  function IsAnyBeta(reg: Registry, names: seq<string>): (r: bool)
    ensures r <==> exists k :: 0 <= k < |names| && ResolvesToBeta(reg, names[k])
  {
    if |names| == 0 then false
    else if ResolvesToBeta(reg, names[0]) then true
    else
      var r := IsAnyBeta(reg, names[1..]);
      assert forall k :: 1 <= k < |names| ==> names[k] == names[1..][k - 1];
      r
  }

  /** The requested names without repetitions, each kept at its first
      occurrence. */
  function Dedup(s: seq<string>): (r: seq<string>)
    ensures NoDup(r)
    ensures forall x :: x in r <==> x in s
    ensures |r| <= |s|
  {
    if |s| == 0 then []
    else
      var rest := Dedup(s[..|s| - 1]);
      assert forall x :: x in s <==> x in s[..|s| - 1] || x == s[|s| - 1];
      if s[|s| - 1] in rest then rest else rest + [s[|s| - 1]]
  }

  /** The requested names that name an entitlement, in order. */
  function Found(reg: Registry, names: seq<string>): (r: seq<string>)
    ensures forall x :: x in r <==> x in names && Resolves(reg, x)
  {
    if |names| == 0 then []
    else
      var rest := Found(reg, names[1..]);
      assert forall x :: x in names <==> x == names[0] || x in names[1..];
      (if Resolves(reg, names[0]) then [names[0]] else []) + rest
  }

  /** The requested names that name no entitlement, in order. */
  function NotFound(reg: Registry, names: seq<string>): (r: seq<string>)
    ensures forall x :: x in r <==> x in names && !Resolves(reg, x)
  {
    if |names| == 0 then []
    else
      var rest := NotFound(reg, names[1..]);
      assert forall x :: x in names <==> x == names[0] || x in names[1..];
      (if Resolves(reg, names[0]) then [] else [names[0]]) + rest
  }

  /** Every name is found or not found, and the two lists together are as
      long as the list they split. */
  lemma {:induction false} FoundNotFoundPartition(reg: Registry, names: seq<string>)
    ensures |Found(reg, names)| + |NotFound(reg, names)| == |names|
    decreases |names|
  {
    if |names| > 0 {
      FoundNotFoundPartition(reg, names[1..]);
    }
  }

  /** The services one attempt tries to enable: `enable`, then
      `enable_beta`, without repetitions. */
  function Services(opts: Options): seq<string>
  {
    Dedup((if Given(opts.enable) then opts.enable.value else []) +
          (if Given(opts.enableBeta) then opts.enableBeta.value else []))
  }

  /** An enable failure that stops the endpoint: a CanEnableFailure that
      carries a message. */
  predicate StopsEnabling(o: EnableOutcome)
  {
    !o.ok && o.reason.Some? && o.reason.value.CanEnableFailure? && o.reason.value.message.Some?
  }

  function NotEnabledError(o: EnableOutcome, name: string): Error
    requires StopsEnabling(o)
  {
    EntitlementNotEnabledError(o.reason.value.message.value.msg, o.reason.value.message.value.name, name)
  }

  // ---------------------------------------------------------------------
  // The specification of one call, phase by phase

  /** How the attach phase ends: the endpoint returns, or goes on to enable
      services. */
  datatype Phase = Finished(result: Result<()>) | Continue

  /** The token request and the attach with that token. */
  function TokenPhase(env: Env, opts: Options, cloud: Option<string>, st: State): (Phase, State)
  {
    var t := AutoAttachToken(env, cloud, st);
    if t.result.Err? then (Finished(Err(t.result.error)), t.after)
    else
      var a := AttachWithTokenStep(env, t.result.value, AllowEnable(opts), t.after);
      if a.result.Err? then (Finished(Err(a.result.error)), a.after)
      else if AllowEnable(opts) then (Finished(Ok(())), a.after)
      else (Continue, a.after)
  }

  /** The detach, then the token and the attach. */
  function DetachPhase(env: Env, opts: Options, cloud: Option<string>, st: State): (Phase, State)
  {
    var d := DetachStep(env, st);
    if d.result.Err? then (Finished(Err(d.result.error)), d.after)
    else TokenPhase(env, opts, cloud, d.after)
  }

  /** Cloud instance, detach, token, attach with token. */
  function AttachPhase(env: Env, opts: Options, st: State): (Phase, State)
  {
    var c := CloudInstance(env, st);
    if c.result.Err? then (Finished(Err(c.result.error)), c.after)
    else DetachPhase(env, opts, c.result.value, c.after)
  }

  datatype PassOutcome = Counted(enabled: nat) | PassRaised(error: Error)

  /** The enable loop over `found` from position `k`, with `enabled`
      services enabled so far. */
  function EnablePass(env: Env, reg: Registry, found: seq<string>, k: nat, enabled: nat, st: State): (PassOutcome, State)
    requires k <= |found|
    decreases |found| - k
  {
    if k == |found| then (Counted(enabled), st)
    else
      var e := EnableByName(env, reg, found[k], st);
      if e.result.Err? then (PassRaised(e.result.error), e.after)
      else if !e.result.value.ok then
        if StopsEnabling(e.result.value) then (PassRaised(NotEnabledError(e.result.value, found[k])), e.after)
        else EnablePass(env, reg, found, k + 1, enabled, e.after)
      else EnablePass(env, reg, found, k + 1, enabled + 1, e.after)
  }

  datatype Attempt = Succeeded | Retry | Raised(error: Error)

  /** One attempt at enabling, after the attach. */
  function Iterate(env: Env, reg: Registry, opts: Options, st: State): (Attempt, State)
  {
    if Given(opts.enable) && IsAnyBeta(reg, opts.enable.value) then
      (Raised(BetaServiceError(BetaMessage, BetaCode)), st)
    else
      var services := Services(opts);
      var p := EnablePass(env, reg, Found(reg, services), 0, 0, st);
      if p.0.PassRaised? then (Raised(p.0.error), p.1)
      else if |NotFound(reg, services)| > 0 then (Raised(EntitlementNotFoundError(NotFound(reg, services))), p.1)
      else if |services| == p.0.enabled then (Succeeded, p.1)
      else (Retry, p.1)
  }

  /** The attach phase, skipped once the `already_attached` latch is set. */
  function Latched(env: Env, opts: Options, attached: bool, st: State): (Phase, State)
  {
    if attached then (Continue, st) else AttachPhase(env, opts, st)
  }

  /** One pass of the `while` body: the attach unless the latch is set, then
      one attempt at enabling. A finished attach ends the call, as a success
      or with its error. */
  function Try(env: Env, reg: Registry, opts: Options, attached: bool, st: State): (Attempt, State)
  {
    var ph := Latched(env, opts, attached, st);
    match ph.0
    case Finished(res) => (if res.Ok? then Succeeded else Raised(res.error), ph.1)
    case Continue => Iterate(env, reg, opts, ph.1)
  }

  /** The `while` loop from attempt `i` on; `attached` is the latch. */
  function Loop(env: Env, reg: Registry, opts: Options, limit: int, i: int, attached: bool, st: State): (r: Step<()>)
    decreases limit - i
  {
    if i >= limit then Step(Err(FullAutoAttachFailureError(FailureMessage, FailureCode)), st)
    else
      var t := Try(env, reg, opts, attached, st);
      match t.0
      case Succeeded => Step(Ok(()), t.1)
      case Raised(e) => Step(Err(e), t.1)
      case Retry => Loop(env, reg, opts, limit, i + 1, true, Append(t.1, [Event.Sleep(2)]))
  }

  /** `full_auto_attach`. */
  function Run(env: Env, reg: Registry, opts: Options, st: State): Step<()>
  {
    Loop(env, reg, opts, Limit(opts), 0, false, st)
  }

  // ---------------------------------------------------------------------
  // Facts about the phases

  /** Every collaborator of the attach succeeds. */
  predicate HandshakeSucceeds(env: Env, st: State)
  {
    && (env.disableAutoAttach || env.factory.Instance?)
    && (!env.attached || (!SameInstance(env, st) && env.detachCode == 0))
    && env.token.TokenResponse? && "contractToken" in env.token.fields
    && env.update.Updated?
  }

  /** No scripted collaborator raises the endpoint's own failure error. */
  predicate ForeignErrorsDistinct(env: Env)
  {
    && (env.token.TokenRaised? ==> !env.token.error.FullAutoAttachFailureError?)
    && (env.update.UpdateRaised? ==> !env.update.error.FullAutoAttachFailureError?)
  }

  /** The events of enabling each of `names`, in order, each reported as
      a success. */
  function OkEnables(names: seq<string>): (r: seq<Event>)
    ensures |r| == |names|
    ensures forall j :: 0 <= j < |names| ==> r[j] == Enable(names[j], true)
  {
    if |names| == 0 then [] else [Enable(names[0], true)] + OkEnables(names[1..])
  }

  /** The `enable()` calls for `found[k..]`, numbered from `base` on, all
      report success. */
  ghost predicate AllOkFrom(env: Env, found: seq<string>, k: nat, base: nat)
  {
    forall i :: k <= i < |found| ==> env.enable(base + (i - k), found[i]).ok
  }

  /** No `enable()` ever fails with a reason that stops the endpoint. */
  ghost predicate NeverStops(env: Env)
  {
    forall n, name :: !StopsEnabling(env.enable(n, name))
  }

  /** Every `enable()` succeeds. */
  ghost predicate AllSucceed(env: Env)
  {
    forall n, name :: env.enable(n, name).ok
  }

  function Max0(x: int): nat
  {
    if x < 0 then 0 else x
  }

  predicate EndsWith<T(==)>(s: seq<T>, t: seq<T>)
  {
    |t| <= |s| && s[|s| - |t|..] == t
  }

  lemma EndsWithPrefixed<T>(a: seq<T>, s: seq<T>, t: seq<T>)
    requires EndsWith(s, t)
    ensures EndsWith(a + s, t)
  {
    assert (a + s)[|a + s| - |t|..] == s[|s| - |t|..];
  }

  lemma NoneOfConcat(a: seq<Event>, b: seq<Event>, p: Kind)
    requires NoneOf(a, p) && NoneOf(b, p)
    ensures NoneOf(a + b, p)
  {
    forall k | 0 <= k < |a + b| ensures !Is(p, (a + b)[k]) {
      if k >= |a| {
        assert (a + b)[k] == b[k - |a|];
      }
    }
  }

  lemma NoEnableNoNames(trace: seq<Event>)
    requires NoneOf(trace, Enables)
    ensures EnabledNames(trace) == []
  {
    CountNone(trace, Enables);
  }

  lemma OnlyEnables(trace: seq<Event>)
    requires forall k :: 0 <= k < |trace| ==> trace[k].Enable?
    ensures NoneOf(trace, AttachRequests) && NoneOf(trace, Sleeps)
    ensures Count(trace, AttachRequests) == 0 && Count(trace, Sleeps) == 0
  {
    CountNone(trace, AttachRequests);
    CountNone(trace, Sleeps);
  }

  /** When nothing is unknown, every requested name is found. */
  lemma {:induction false} NothingNotFound(reg: Registry, names: seq<string>)
    requires NotFound(reg, names) == []
    ensures Found(reg, names) == names
    decreases |names|
  {
    if |names| > 0 {
      var head, rest := names[0], NotFound(reg, names[1..]);
      assert NotFound(reg, names) == (if Resolves(reg, head) then [] else [head]) + rest;
      NothingNotFound(reg, names[1..]);
      assert names == [names[0]] + names[1..];
    }
  }

  /** The events the token request and the attach append: the request, then
      the contract request and what follows it when a token came back. */
  function TokenEvents(env: Env, opts: Options, cloud: Option<string>): seq<Event>
  {
    [RequestToken(cloud)] +
    (if env.token.TokenRaised? || "contractToken" !in env.token.fields then []
     else [RequestUpdatedContract(env.token.fields["contractToken"], AllowEnable(opts))] + AttachFollowUp(env))
  }

  /** The events the detach phase appends: the detach when the cached
      instance differs, then the token and the attach when it succeeded. */
  function DetachEvents(env: Env, opts: Options, cloud: Option<string>, st: State): seq<Event>
  {
    (if env.attached && !SameInstance(env, st) then [RunDetach] else []) +
    (if DetachStep(env, st).result.Err? then [] else TokenEvents(env, opts, cloud))
  }

  /** The events the attach phase appends, step by step: the cloud
      detection, the detach, then the token and the attach; each step only
      when the previous one succeeded. */
  function PhaseEvents(env: Env, opts: Options, st: State): seq<Event>
  {
    var c := CloudInstance(env, st);
    (if env.disableAutoAttach then [] else [ConsultCloudFactory]) +
    (if c.result.Err? then [] else DetachEvents(env, opts, c.result.value, c.after))
  }

  lemma TokenTrace(env: Env, opts: Options, cloud: Option<string>, st: State)
    ensures TokenPhase(env, opts, cloud, st).1.trace == st.trace + TokenEvents(env, opts, cloud)
  {
    var t := AutoAttachToken(env, cloud, st);
    if t.result.Ok? {
      var a := AttachWithTokenStep(env, t.result.value, AllowEnable(opts), t.after);
      assert a.after.trace == st.trace + TokenEvents(env, opts, cloud);
    }
  }

  lemma DetachTrace(env: Env, opts: Options, cloud: Option<string>, st: State)
    ensures DetachPhase(env, opts, cloud, st).1.trace == st.trace + DetachEvents(env, opts, cloud, st)
  {
    var d := DetachStep(env, st);
    var e2: seq<Event> := if env.attached && !SameInstance(env, st) then [RunDetach] else [];
    assert d.after.trace == st.trace + e2;
    if d.result.Ok? {
      TokenTrace(env, opts, cloud, d.after);
      AppendedTwice(st, d.after, TokenPhase(env, opts, cloud, d.after).1, e2, TokenEvents(env, opts, cloud));
    } else {
      assert DetachEvents(env, opts, cloud, st) == e2;
    }
  }

  lemma PhaseTraceIs(env: Env, opts: Options, st: State)
    ensures AttachPhase(env, opts, st).1.trace == st.trace + PhaseEvents(env, opts, st)
  {
    if CloudInstance(env, st).result.Ok? {
      PhaseTraceDetected(env, opts, st);
    } else {
      PhaseTraceUndetected(env, opts, st);
    }
  }

  lemma PhaseTraceDetected(env: Env, opts: Options, st: State)
    requires CloudInstance(env, st).result.Ok?
    ensures AttachPhase(env, opts, st).1.trace == st.trace + PhaseEvents(env, opts, st)
  {
    var c := CloudInstance(env, st);
    var e1: seq<Event> := if env.disableAutoAttach then [] else [ConsultCloudFactory];
    var e := DetachEvents(env, opts, c.result.value, c.after);
    var last := DetachPhase(env, opts, c.result.value, c.after).1;
    assert c.after.trace == st.trace + e1;
    PhaseContinues(env, opts, st);
    DetachTrace(env, opts, c.result.value, c.after);
    AppendedTwice(st, c.after, last, e1, e);
  }

  lemma PhaseTraceUndetected(env: Env, opts: Options, st: State)
    requires CloudInstance(env, st).result.Err?
    ensures AttachPhase(env, opts, st).1.trace == st.trace + PhaseEvents(env, opts, st)
  {
    var c := CloudInstance(env, st);
    var e1: seq<Event> := if env.disableAutoAttach then [] else [ConsultCloudFactory];
    assert c.after.trace == st.trace + e1;
    assert PhaseEvents(env, opts, st) == e1 + [];
    assert AttachPhase(env, opts, st).1 == c.after;
  }

  /** Once the cloud is detected, the attach phase is the detach phase from
      there, and so are its events. */
  lemma PhaseContinues(env: Env, opts: Options, st: State)
    requires CloudInstance(env, st).result.Ok?
    ensures var c := CloudInstance(env, st);
      && AttachPhase(env, opts, st) == DetachPhase(env, opts, c.result.value, c.after)
      && PhaseEvents(env, opts, st) ==
           (if env.disableAutoAttach then [] else [ConsultCloudFactory]) + DetachEvents(env, opts, c.result.value, c.after)
  {
  }

  lemma PhaseTrace(env: Env, opts: Options, st: State)
    ensures Grows(st, AttachPhase(env, opts, st).1)
    ensures Added(st, AttachPhase(env, opts, st).1) == PhaseEvents(env, opts, st)
  {
    PhaseTraceIs(env, opts, st);
    GrowsBy(st, AttachPhase(env, opts, st).1, PhaseEvents(env, opts, st));
  }

  /** Events that are neither contract requests, enables nor sleeps. */
  predicate Plain(es: seq<Event>)
  {
    NoneOf(es, AttachRequests) && NoneOf(es, Enables) && NoneOf(es, Sleeps)
  }

  lemma PlainConcat(a: seq<Event>, b: seq<Event>)
    requires Plain(a) && Plain(b)
    ensures Plain(a + b)
  {
    NoneOfConcat(a, b, AttachRequests);
    NoneOfConcat(a, b, Enables);
    NoneOfConcat(a, b, Sleeps);
  }

  lemma OneRequest(pre: seq<Event>, req: Event, post: seq<Event>)
    requires Plain(pre) && Plain(post) && req.RequestUpdatedContract?
    ensures Count(pre + [req] + post, AttachRequests) == 1
    ensures NoneOf(pre + [req] + post, Enables) && NoneOf(pre + [req] + post, Sleeps)
    ensures req in pre + [req] + post
  {
    assert NoneOf([req], Enables) && NoneOf([req], Sleeps) by {
      assert !Is(Enables, req) && !Is(Sleeps, req);
    }
    NoneOfConcat(pre, [req], Enables);
    NoneOfConcat(pre, [req], Sleeps);
    NoneOfConcat(pre + [req], post, Enables);
    NoneOfConcat(pre + [req], post, Sleeps);
    CountNone(pre, AttachRequests);
    CountNone(post, AttachRequests);
    CountConcat(pre, [req], AttachRequests);
    CountConcat(pre + [req], post, AttachRequests);
    assert (pre + [req] + post)[|pre|] == req;
  }

  /** Whatever the token phase appends holds at most one contract request,
      and no enable or sleep. */
  lemma TokenEventKinds(pre: seq<Event>, env: Env, opts: Options, cloud: Option<string>)
    requires Plain(pre)
    ensures var es := pre + TokenEvents(env, opts, cloud);
      && Count(es, AttachRequests) <= 1
      && NoneOf(es, Enables) && NoneOf(es, Sleeps)
      && (env.token.TokenResponse? && "contractToken" in env.token.fields ==>
            RequestUpdatedContract(env.token.fields["contractToken"], AllowEnable(opts)) in es)
  {
    var before := pre + [RequestToken(cloud)];
    assert Plain([RequestToken(cloud)]);
    PlainConcat(pre, [RequestToken(cloud)]);
    if env.token.TokenResponse? && "contractToken" in env.token.fields {
      var req := RequestUpdatedContract(env.token.fields["contractToken"], AllowEnable(opts));
      assert pre + TokenEvents(env, opts, cloud) == before + [req] + AttachFollowUp(env);
      OneRequest(before, req, AttachFollowUp(env));
    } else {
      assert pre + TokenEvents(env, opts, cloud) == before;
      CountNone(before, AttachRequests);
    }
  }

  /** Putting plain events in front keeps the kinds of what follows. */
  lemma PlainInFront(p: seq<Event>, q: seq<Event>, x: Event)
    requires Plain(p) && Count(q, AttachRequests) <= 1 && NoneOf(q, Enables) && NoneOf(q, Sleeps)
    ensures Count(p + q, AttachRequests) <= 1 && NoneOf(p + q, Enables) && NoneOf(p + q, Sleeps)
    ensures x in q ==> x in p + q
  {
    CountConcat(p, q, AttachRequests);
    CountNone(p, AttachRequests);
    NoneOfConcat(p, q, Enables);
    NoneOfConcat(p, q, Sleeps);
  }

  lemma DetachEventKinds(pre: seq<Event>, env: Env, opts: Options, cloud: Option<string>, st: State)
    requires Plain(pre)
    ensures var es := pre + DetachEvents(env, opts, cloud, st);
      && Count(es, AttachRequests) <= 1
      && NoneOf(es, Enables) && NoneOf(es, Sleeps)
      && (DetachStep(env, st).result.Ok? && env.token.TokenResponse? && "contractToken" in env.token.fields ==>
            RequestUpdatedContract(env.token.fields["contractToken"], AllowEnable(opts)) in es)
  {
    var tokenOk := env.token.TokenResponse? && "contractToken" in env.token.fields;
    var x := if tokenOk then RequestUpdatedContract(env.token.fields["contractToken"], AllowEnable(opts)) else RunDetach;
    var tk := TokenEvents(env, opts, cloud);
    TokenEventKinds([], env, opts, cloud);
    assert [] + tk == tk;
    var e2: seq<Event> := if env.attached && !SameInstance(env, st) then [RunDetach] else [];
    var rest: seq<Event> := if DetachStep(env, st).result.Err? then [] else tk;
    assert Plain(e2);
    assert DetachEvents(env, opts, cloud, st) == e2 + rest;
    PlainInFront(e2, rest, x);
    PlainInFront(pre, e2 + rest, x);
  }

  lemma PhaseEventKinds(env: Env, opts: Options, st: State)
    ensures var es := PhaseEvents(env, opts, st);
      && Count(es, AttachRequests) <= 1
      && NoneOf(es, Enables) && NoneOf(es, Sleeps)
      && (HandshakeSucceeds(env, st) ==>
            RequestUpdatedContract(env.token.fields["contractToken"], AllowEnable(opts)) in es)
  {
    var c := CloudInstance(env, st);
    var e1: seq<Event> := if env.disableAutoAttach then [] else [ConsultCloudFactory];
    assert Plain(e1);
    if c.result.Ok? {
      assert c.after.cache == st.cache;
      DetachEventKinds(e1, env, opts, c.result.value, c.after);
    } else {
      assert PhaseEvents(env, opts, st) == e1;
      CountNone(e1, AttachRequests);
    }
  }

  lemma PhaseOutcome(env: Env, opts: Options, st: State)
    ensures var ph := AttachPhase(env, opts, st);
      && (ForeignErrorsDistinct(env) && ph.0.Finished? && ph.0.result.Err? ==>
            !ph.0.result.error.FullAutoAttachFailureError?)
      && (HandshakeSucceeds(env, st) <==> ph.0 == (if AllowEnable(opts) then Finished(Ok(())) else Continue))
      && (ph.0 == Finished(Ok(())) ==> AllowEnable(opts))
      && (ph.0 == Continue ==> !AllowEnable(opts))
  {
    var c := CloudInstance(env, st);
    assert c.after.cache == st.cache;
  }

  /** The attach phase: it appends at most one contract request and no
      enable or sleep, and reaches its normal end exactly when every
      collaborator succeeds. */
  lemma PhaseFacts(env: Env, opts: Options, st: State)
    ensures var ph := AttachPhase(env, opts, st);
      && Grows(st, ph.1)
      && Count(Added(st, ph.1), AttachRequests) <= 1
      && NoneOf(Added(st, ph.1), Enables) && NoneOf(Added(st, ph.1), Sleeps)
      && (ForeignErrorsDistinct(env) && ph.0.Finished? && ph.0.result.Err? ==>
            !ph.0.result.error.FullAutoAttachFailureError?)
      && (HandshakeSucceeds(env, st) <==> ph.0 == (if AllowEnable(opts) then Finished(Ok(())) else Continue))
      && (ph.0 == Finished(Ok(())) ==> AllowEnable(opts))
      && (ph.0 == Continue ==> !AllowEnable(opts))
      && (HandshakeSucceeds(env, st) ==>
            RequestUpdatedContract(env.token.fields["contractToken"], AllowEnable(opts)) in Added(st, ph.1))
  {
    PhaseTrace(env, opts, st);
    PhaseEventKinds(env, opts, st);
    PhaseOutcome(env, opts, st);
  }

  /** The enable loop appends one Enable event per name it reaches, and
      nothing else; when it runs to the end it has reached every name. */
  lemma {:induction false} PassFacts(env: Env, reg: Registry, found: seq<string>, k: nat, enabled: nat, st: State)
    requires k <= |found|
    ensures var p := EnablePass(env, reg, found, k, enabled, st);
      && Grows(st, p.1) && p.1.cache == st.cache
      && (forall j :: 0 <= j < |Added(st, p.1)| ==> Added(st, p.1)[j].Enable?)
      && (p.0.PassRaised? ==> !p.0.error.FullAutoAttachFailureError?)
      && (p.0.Counted? ==> EnabledNames(Added(st, p.1)) == found[k..] && enabled <= p.0.enabled <= enabled + |found| - k)
    decreases |found| - k
  {
    var p := EnablePass(env, reg, found, k, enabled, st);
    if k == |found| {
      assert Added(st, p.1) == [];
    } else {
      var e := EnableByName(env, reg, found[k], st);
      if e.result.Ok? {
        var ok := e.result.value.ok;
        GrowsAppend(st, [Enable(found[k], ok)]);
        if ok || !StopsEnabling(e.result.value) {
          var en := if ok then enabled + 1 else enabled;
          PassFacts(env, reg, found, k + 1, en, e.after);
          assert p == EnablePass(env, reg, found, k + 1, en, e.after);
          PassStep(st, e.after, p.1, found, k, ok);
        }
      }
    }
  }

  /** The bookkeeping of one step of the enable loop. */
  /** The loop counts exactly the enables that reported success. */
  lemma {:induction false} PassSuccessCount(env: Env, reg: Registry, found: seq<string>, k: nat, enabled: nat, st: State)
    requires k <= |found|
    ensures var p := EnablePass(env, reg, found, k, enabled, st);
      && Grows(st, p.1)
      && (p.0.Counted? ==> p.0.enabled == enabled + Count(Added(st, p.1), Successes))
    decreases |found| - k
  {
    var p := EnablePass(env, reg, found, k, enabled, st);
    PassFacts(env, reg, found, k, enabled, st);
    if k == |found| {
      assert Added(st, p.1) == [];
    } else if Resolves(reg, found[k]) {
      var o := env.enable(Count(st.trace, Enables), found[k]);
      var next := Append(st, [Enable(found[k], o.ok)]);
      PassOne(env, reg, found, k, enabled, st, Count(st.trace, Enables));
      if !StopsEnabling(o) {
        var en := if o.ok then enabled + 1 else enabled;
        PassSuccessCount(env, reg, found, k + 1, en, next);
        PassFacts(env, reg, found, k + 1, en, next);
        PassStep(st, next, p.1, found, k, o.ok);
      }
    }
  }

  /** A loop that counts every name made one `enable()` call per name, in
      order, each reporting success. */
  lemma {:induction false} PassOkEvents(env: Env, reg: Registry, found: seq<string>, k: nat, enabled: nat, st: State)
    requires k <= |found|
    ensures var p := EnablePass(env, reg, found, k, enabled, st);
      && Grows(st, p.1)
      && (p.0 == Counted(enabled + |found| - k) ==> Added(st, p.1) == OkEnables(found[k..]))
    decreases |found| - k
  {
    var p := EnablePass(env, reg, found, k, enabled, st);
    PassFacts(env, reg, found, k, enabled, st);
    if k == |found| {
      assert Added(st, p.1) == [];
    } else if Resolves(reg, found[k]) {
      var o := env.enable(Count(st.trace, Enables), found[k]);
      var next := Append(st, [Enable(found[k], o.ok)]);
      PassOne(env, reg, found, k, enabled, st, Count(st.trace, Enables));
      if !StopsEnabling(o) {
        var en := if o.ok then enabled + 1 else enabled;
        PassOkEvents(env, reg, found, k + 1, en, next);
        PassFacts(env, reg, found, k + 1, en, next);
        PassStep(st, next, p.1, found, k, o.ok);
      }
    }
  }

  lemma PassStep(st: State, mid: State, last: State, found: seq<string>, k: nat, ok: bool)
    requires k < |found|
    requires Grows(st, mid) && Added(st, mid) == [Enable(found[k], ok)] && mid.cache == st.cache
    requires Grows(mid, last) && last.cache == mid.cache
    requires forall j :: 0 <= j < |Added(mid, last)| ==> Added(mid, last)[j].Enable?
    ensures Grows(st, last) && Added(st, last) == [Enable(found[k], ok)] + Added(mid, last) && last.cache == st.cache
    ensures forall j :: 0 <= j < |Added(st, last)| ==> Added(st, last)[j].Enable?
    ensures EnabledNames(Added(mid, last)) == found[k + 1..] ==> EnabledNames(Added(st, last)) == found[k..]
    ensures Count(Added(st, last), Successes) == (if ok then 1 else 0) + Count(Added(mid, last), Successes)
    ensures ok && Added(mid, last) == OkEnables(found[k + 1..]) ==> Added(st, last) == OkEnables(found[k..])
  {
    GrowsTrans(st, mid, last);
    EnabledNamesConcat([Enable(found[k], ok)], Added(mid, last));
    CountConcat([Enable(found[k], ok)], Added(mid, last), Successes);
    assert found[k..] == [found[k]] + found[k + 1..];
    assert found[k..][1..] == found[k + 1..];
    forall j | 0 <= j < |Added(st, last)| ensures Added(st, last)[j].Enable? {
      if j > 0 {
        assert Added(st, last)[j] == Added(mid, last)[j - 1];
      }
    }
  }

  /** Without stopping failures, and with every name known, the enable loop
      runs to the end and counts exactly the enables that reported success;
      when every enable succeeds it counts every name. */
  lemma {:induction false} PassRunsToEnd(env: Env, reg: Registry, found: seq<string>, k: nat, enabled: nat, st: State)
    requires k <= |found| && NeverStops(env)
    requires forall j :: k <= j < |found| ==> Resolves(reg, found[j])
    ensures EnablePass(env, reg, found, k, enabled, st).0.Counted?
    ensures var p := EnablePass(env, reg, found, k, enabled, st);
      Grows(st, p.1) && p.0 == Counted(enabled + Count(Added(st, p.1), Successes))
    ensures AllSucceed(env) ==> EnablePass(env, reg, found, k, enabled, st).0 == Counted(enabled + |found| - k)
    decreases |found| - k
  {
    PassSuccessCount(env, reg, found, k, enabled, st);
    if k < |found| {
      var e := EnableByName(env, reg, found[k], st);
      var o := env.enable(Count(st.trace, Enables), found[k]);
      assert !StopsEnabling(o);
      PassRunsToEnd(env, reg, found, k + 1, if o.ok then enabled + 1 else enabled, e.after);
    }
  }

  /** One turn of the enable loop over a known name: the `enable()` call
      numbered `n`, the enables so far, its Enable event, then either the
      stop or the rest of the loop. */
  lemma PassOne(env: Env, reg: Registry, found: seq<string>, k: nat, enabled: nat, st: State, n: nat)
    requires k < |found| && Resolves(reg, found[k]) && n == Count(st.trace, Enables)
    ensures var o := env.enable(n, found[k]);
      var next := Append(st, [Enable(found[k], o.ok)]);
      && Count(next.trace, Enables) == n + 1
      && Grows(st, next) && Added(st, next) == [Enable(found[k], o.ok)]
      && EnablePass(env, reg, found, k, enabled, st) ==
           if StopsEnabling(o) then (PassRaised(NotEnabledError(o, found[k])), next)
           else EnablePass(env, reg, found, k + 1, if o.ok then enabled + 1 else enabled, next)
  {
    var o := env.enable(n, found[k]);
    CountConcat(st.trace, [Enable(found[k], o.ok)], Enables);
    GrowsAppend(st, [Enable(found[k], o.ok)]);
  }

  /** A stopping failure ends the enable loop at once: the `enable()` call
      for `found[i]` is numbered `base + i`; when the calls for
      `found[k..j]` do not stop the loop and the call for `found[j]` fails
      with a CanEnableFailure carrying a message, the loop raises
      EntitlementNotEnabledError for `found[j]` and enables nothing after it. */
  lemma {:induction false} PassStopsAt(env: Env, reg: Registry, found: seq<string>, k: nat, j: nat, enabled: nat, st: State, base: nat)
    requires k <= j < |found| && forall i :: k <= i <= j ==> Resolves(reg, found[i])
    requires Count(st.trace, Enables) == base + k
    requires forall i :: k <= i < j ==> !StopsEnabling(env.enable(base + i, found[i]))
    requires StopsEnabling(env.enable(base + j, found[j]))
    ensures var p := EnablePass(env, reg, found, k, enabled, st);
      && p.0 == PassRaised(NotEnabledError(env.enable(base + j, found[j]), found[j]))
      && Grows(st, p.1) && EnabledNames(Added(st, p.1)) == found[k..j + 1]
    decreases j - k
  {
    if k == j {
      PassStopsHere(env, reg, found, k, enabled, st, base + k);
    } else {
      var o := env.enable(base + k, found[k]);
      PassOne(env, reg, found, k, enabled, st, base + k);
      PassStopsAt(env, reg, found, k + 1, j, if o.ok then enabled + 1 else enabled, Append(st, [Enable(found[k], o.ok)]), base);
      PassStopsStep(env, reg, found, k, j, enabled, st, base);
    }
  }

  /** A stopping failure of the call for `found[k]`, numbered `n`, raises
      EntitlementNotEnabledError for it, with that one Enable event. */
  lemma PassStopsHere(env: Env, reg: Registry, found: seq<string>, k: nat, enabled: nat, st: State, n: nat)
    requires k < |found| && Resolves(reg, found[k]) && n == Count(st.trace, Enables)
    requires StopsEnabling(env.enable(n, found[k]))
    ensures var p := EnablePass(env, reg, found, k, enabled, st);
      && p.0 == PassRaised(NotEnabledError(env.enable(n, found[k]), found[k]))
      && Grows(st, p.1) && EnabledNames(Added(st, p.1)) == found[k..k + 1]
  {
    var o := env.enable(n, found[k]);
    PassOne(env, reg, found, k, enabled, st, n);
    assert EnabledNames([Enable(found[k], o.ok)]) == [found[k]];
    assert found[k..k + 1] == [found[k]];
  }

  /** The step of PassStopsAt: a call for `found[k]` that does not stop the
      loop puts its Enable event in front of what the rest adds. */
  lemma PassStopsStep(env: Env, reg: Registry, found: seq<string>, k: nat, j: nat, enabled: nat, st: State, base: nat)
    requires k < j < |found| && Resolves(reg, found[k])
    requires Count(st.trace, Enables) == base + k
    requires !StopsEnabling(env.enable(base + k, found[k]))
    requires StopsEnabling(env.enable(base + j, found[j]))
    requires var o := env.enable(base + k, found[k]);
      var next := Append(st, [Enable(found[k], o.ok)]);
      var p := EnablePass(env, reg, found, k + 1, if o.ok then enabled + 1 else enabled, next);
      && p.0 == PassRaised(NotEnabledError(env.enable(base + j, found[j]), found[j]))
      && Grows(next, p.1) && EnabledNames(Added(next, p.1)) == found[k + 1..j + 1]
    ensures var p := EnablePass(env, reg, found, k, enabled, st);
      && p.0 == PassRaised(NotEnabledError(env.enable(base + j, found[j]), found[j]))
      && Grows(st, p.1) && EnabledNames(Added(st, p.1)) == found[k..j + 1]
  {
    var o := env.enable(base + k, found[k]);
    var next := Append(st, [Enable(found[k], o.ok)]);
    var p := EnablePass(env, reg, found, k + 1, if o.ok then enabled + 1 else enabled, next);
    PassOne(env, reg, found, k, enabled, st, base + k);
    assert EnablePass(env, reg, found, k, enabled, st) == p;
    EnabledInFront(st, next, p.1, found[k], o.ok, found[k + 1..j + 1]);
    SliceFront(found, k, j + 1);
  }

  /** An Enable event for `name` followed by events enabling `rest`
      enables `name` and then `rest`. */
  lemma EnabledInFront(st: State, next: State, last: State, name: string, ok: bool, rest: seq<string>)
    requires Grows(st, next) && Added(st, next) == [Enable(name, ok)]
    requires Grows(next, last) && EnabledNames(Added(next, last)) == rest
    ensures Grows(st, last) && EnabledNames(Added(st, last)) == [name] + rest
  {
    GrowsTrans(st, next, last);
    EnabledNamesConcat([Enable(name, ok)], Added(next, last));
    assert EnabledNames([Enable(name, ok)]) == [name];
  }

  lemma SliceFront<T>(s: seq<T>, k: nat, j: nat)
    requires k < j <= |s|
    ensures s[k..j] == [s[k]] + s[k + 1..j]
  {
  }

  /** The calls from `found[k]` on all succeed exactly when the first does
      and the calls from `found[k + 1]` on, numbered one further, do. */
  lemma AllOkShift(env: Env, found: seq<string>, k: nat, base: nat)
    requires k < |found|
    ensures AllOkFrom(env, found, k, base) <==>
      env.enable(base, found[k]).ok && AllOkFrom(env, found, k + 1, base + 1)
  {
    assert base + (k - k) == base;
    forall i | k + 1 <= i < |found|
      ensures env.enable(base + (i - k), found[i]) == env.enable((base + 1) + (i - (k + 1)), found[i])
    {
    }
  }

  /** With every name known, the loop counts every name exactly when every
      `enable()` call it makes, numbered from `base` on, reports success. */
  lemma {:induction false} PassCountsAll(env: Env, reg: Registry, found: seq<string>, k: nat, enabled: nat, st: State, base: nat)
    requires k <= |found| && forall i :: k <= i < |found| ==> Resolves(reg, found[i])
    requires base == Count(st.trace, Enables)
    ensures EnablePass(env, reg, found, k, enabled, st).0 == Counted(enabled + |found| - k) <==>
      AllOkFrom(env, found, k, base)
    decreases |found| - k
  {
    if k < |found| {
      var o := env.enable(base, found[k]);
      var next := Append(st, [Enable(found[k], o.ok)]);
      PassOne(env, reg, found, k, enabled, st, base);
      AllOkShift(env, found, k, base);
      if o.ok {
        PassCountsAll(env, reg, found, k + 1, enabled + 1, next, base + 1);
      } else if !StopsEnabling(o) {
        PassFacts(env, reg, found, k + 1, enabled, next);
      }
    }
  }

  /** One attempt appends only Enable events and never raises the
      endpoint's failure; when it succeeds, every requested name is known
      and was enabled, in order. */
  lemma IterateFacts(env: Env, reg: Registry, opts: Options, st: State)
    ensures var it := Iterate(env, reg, opts, st);
      && Grows(st, it.1) && it.1.cache == st.cache
      && (forall j :: 0 <= j < |Added(st, it.1)| ==> Added(st, it.1)[j].Enable?)
      && (it.0.Raised? ==> !it.0.error.FullAutoAttachFailureError?)
      && (it.0.Succeeded? ==> NotFound(reg, Services(opts)) == [] && EnabledNames(Added(st, it.1)) == Services(opts))
  {
    var it := Iterate(env, reg, opts, st);
    if Given(opts.enable) && IsAnyBeta(reg, opts.enable.value) {
      assert Added(st, it.1) == [];
    } else {
      var services := Services(opts);
      PassFacts(env, reg, Found(reg, services), 0, 0, st);
      if it.0.Succeeded? {
        NothingNotFound(reg, services);
        assert Found(reg, services)[0..] == services;
      }
    }
  }

  /** A successful attempt made exactly one `enable()` call per requested
      service, in order, each reporting success. */
  lemma IterateOkEnables(env: Env, reg: Registry, opts: Options, st: State)
    ensures var it := Iterate(env, reg, opts, st);
      it.0.Succeeded? ==> Grows(st, it.1) && Added(st, it.1) == OkEnables(Services(opts))
  {
    if Iterate(env, reg, opts, st).0.Succeeded? {
      var services := Services(opts);
      IterateSucceededPass(env, reg, opts, st);
      PassOkEvents(env, reg, services, 0, 0, st);
      assert services[0..] == services;
    }
  }

  /** A successful attempt found every name and counted each of them. */
  lemma IterateSucceededPass(env: Env, reg: Registry, opts: Options, st: State)
    requires Iterate(env, reg, opts, st).0.Succeeded?
    ensures NotFound(reg, Services(opts)) == []
    ensures var p := EnablePass(env, reg, Services(opts), 0, 0, st);
      p.0 == Counted(|Services(opts)|) && Iterate(env, reg, opts, st).1 == p.1
  {
    assert NotFound(reg, Services(opts)) == [];
    NothingNotFound(reg, Services(opts));
  }

  /** The attach phase or, once the latch is set, nothing: at most one
      contract request, none after the latch, and no enable or sleep. */
  lemma LatchedFacts(env: Env, opts: Options, attached: bool, st: State)
    ensures var ph := Latched(env, opts, attached, st);
      && Grows(st, ph.1)
      && Count(Added(st, ph.1), AttachRequests) <= (if attached then 0 else 1)
      && NoneOf(Added(st, ph.1), Enables) && NoneOf(Added(st, ph.1), Sleeps)
      && (ForeignErrorsDistinct(env) && ph.0.Finished? && ph.0.result.Err? ==>
            !ph.0.result.error.FullAutoAttachFailureError?)
      && (ph.0 == Finished(Ok(())) ==> AllowEnable(opts))
  {
    if attached {
      assert Added(st, st) == [];
    } else {
      PhaseFacts(env, opts, st);
    }
  }

  /** One pass of the `while` body: at most one contract request, none once
      the latch is set, and no sleep. */
  lemma TryKinds(env: Env, reg: Registry, opts: Options, attached: bool, st: State)
    ensures var t := Try(env, reg, opts, attached, st);
      && Grows(st, t.1)
      && Count(Added(st, t.1), AttachRequests) <= (if attached then 0 else 1)
      && Count(Added(st, t.1), Sleeps) == 0
  {
    var ph := Latched(env, opts, attached, st);
    LatchedFacts(env, opts, attached, st);
    CountNone(Added(st, ph.1), Sleeps);
    if ph.0.Continue? {
      var it := Iterate(env, reg, opts, ph.1);
      IterateFacts(env, reg, opts, ph.1);
      GrowsTrans(st, ph.1, it.1);
      OnlyEnables(Added(ph.1, it.1));
      CountConcat(Added(st, ph.1), Added(ph.1, it.1), AttachRequests);
      CountConcat(Added(st, ph.1), Added(ph.1, it.1), Sleeps);
    }
  }

  /** One pass of the `while` body never raises the endpoint's own failure. */
  lemma TryRaised(env: Env, reg: Registry, opts: Options, attached: bool, st: State)
    requires ForeignErrorsDistinct(env)
    ensures var t := Try(env, reg, opts, attached, st);
      t.0.Raised? ==> !t.0.error.FullAutoAttachFailureError?
  {
    var ph := Latched(env, opts, attached, st);
    LatchedFacts(env, opts, attached, st);
    if ph.0.Continue? {
      IterateFacts(env, reg, opts, ph.1);
    }
  }

  /** With services requested, a pass succeeds only when every requested
      service is known and it has just enabled each of them, each enable
      reporting success. */
  lemma TrySucceeded(env: Env, reg: Registry, opts: Options, attached: bool, st: State)
    requires !AllowEnable(opts)
    ensures var t := Try(env, reg, opts, attached, st);
      && Grows(st, t.1)
      && (t.0.Succeeded? ==>
            && NotFound(reg, Services(opts)) == [] && EndsWith(EnabledNames(Added(st, t.1)), Services(opts))
            && EndsWith(Added(st, t.1), OkEnables(Services(opts))))
  {
    var ph := Latched(env, opts, attached, st);
    LatchedFacts(env, opts, attached, st);
    if ph.0.Continue? {
      var it := Iterate(env, reg, opts, ph.1);
      IterateFacts(env, reg, opts, ph.1);
      GrowsTrans(st, ph.1, it.1);
      EnabledNamesConcat(Added(st, ph.1), Added(ph.1, it.1));
      if it.0.Succeeded? {
        IterateOkEnables(env, reg, opts, ph.1);
        assert EndsWith(EnabledNames(Added(ph.1, it.1)), Services(opts));
        EndsWithPrefixed(EnabledNames(Added(st, ph.1)), EnabledNames(Added(ph.1, it.1)), Services(opts));
        assert EndsWith(Added(ph.1, it.1), OkEnables(Services(opts)));
        EndsWithPrefixed(Added(st, ph.1), Added(ph.1, it.1), OkEnables(Services(opts)));
      }
    }
  }

  /** The bookkeeping of a retry: the sleep follows the pass, and the rest
      of the loop follows the sleep. */
  lemma RetryStep(st: State, mid: State, last: State, p: Kind)
    requires Grows(st, mid) && Grows(Append(mid, [Event.Sleep(2)]), last)
    ensures var next := Append(mid, [Event.Sleep(2)]);
      && Grows(st, next) && Grows(st, last)
      && Added(st, next) == Added(st, mid) + [Event.Sleep(2)]
      && Added(st, last) == Added(st, next) + Added(next, last)
      && Count(Added(st, last), p) == Count(Added(st, mid), p) + Count([Event.Sleep(2)], p) + Count(Added(next, last), p)
      && Count([Event.Sleep(2)], p) == (if p == Sleeps then 1 else 0)
  {
    var next := Append(mid, [Event.Sleep(2)]);
    GrowsAppend(mid, [Event.Sleep(2)]);
    GrowsTrans(st, mid, next);
    GrowsTrans(st, next, last);
    CountConcat(Added(st, mid), [Event.Sleep(2)], p);
    CountConcat(Added(st, next), Added(next, last), p);
  }

  /** The loop from attempt `i`: the latch allows one contract request at
      most, and only before it is set. */
  lemma {:induction false} LoopAttaches(env: Env, reg: Registry, opts: Options, limit: int, i: int, attached: bool, st: State)
    ensures var r := Loop(env, reg, opts, limit, i, attached, st);
      && Grows(st, r.after)
      && Count(Added(st, r.after), AttachRequests) <= (if attached then 0 else 1)
    decreases limit - i
  {
    var r := Loop(env, reg, opts, limit, i, attached, st);
    if i >= limit {
      assert Added(st, r.after) == [];
    } else {
      var t := Try(env, reg, opts, attached, st);
      TryKinds(env, reg, opts, attached, st);
      if t.0.Retry? {
        var next := Append(t.1, [Event.Sleep(2)]);
        LoopAttaches(env, reg, opts, limit, i + 1, true, next);
        assert r == Loop(env, reg, opts, limit, i + 1, true, next);
        RetryStep(st, t.1, r.after, AttachRequests);
      }
    }
  }

  /** Each retry sleeps once. */
  lemma {:induction false} LoopSleeps(env: Env, reg: Registry, opts: Options, limit: int, i: int, attached: bool, st: State)
    ensures var r := Loop(env, reg, opts, limit, i, attached, st);
      && Grows(st, r.after)
      && Count(Added(st, r.after), Sleeps) <= Max0(limit - i)
    decreases limit - i
  {
    var r := Loop(env, reg, opts, limit, i, attached, st);
    if i >= limit {
      assert Added(st, r.after) == [];
    } else {
      var t := Try(env, reg, opts, attached, st);
      TryKinds(env, reg, opts, attached, st);
      if t.0.Retry? {
        var next := Append(t.1, [Event.Sleep(2)]);
        LoopSleeps(env, reg, opts, limit, i + 1, true, next);
        assert r == Loop(env, reg, opts, limit, i + 1, true, next);
        RetryStep(st, t.1, r.after, Sleeps);
        assert Max0(limit - i) == 1 + Max0(limit - (i + 1));
      }
    }
  }

  /** The failure error comes only after every attempt has been used, each
      ending in a sleep. */
  lemma {:induction false} LoopFailure(env: Env, reg: Registry, opts: Options, limit: int, i: int, attached: bool, st: State)
    requires ForeignErrorsDistinct(env)
    ensures var r := Loop(env, reg, opts, limit, i, attached, st);
      && Grows(st, r.after)
      && (r.result.Err? && r.result.error.FullAutoAttachFailureError? ==>
            Count(Added(st, r.after), Sleeps) == Max0(limit - i))
    decreases limit - i
  {
    var r := Loop(env, reg, opts, limit, i, attached, st);
    if i >= limit {
      assert Added(st, r.after) == [];
    } else {
      var t := Try(env, reg, opts, attached, st);
      TryKinds(env, reg, opts, attached, st);
      if t.0.Retry? {
        var next := Append(t.1, [Event.Sleep(2)]);
        LoopFailure(env, reg, opts, limit, i + 1, true, next);
        assert r == Loop(env, reg, opts, limit, i + 1, true, next);
        RetryStep(st, t.1, r.after, Sleeps);
        assert Max0(limit - i) == 1 + Max0(limit - (i + 1));
      } else {
        TryRaised(env, reg, opts, attached, st);
        assert r.result == (if t.0.Succeeded? then Ok(()) else Err(t.0.error));
      }
    }
  }

  /** A success after the attach has just enabled every requested
      service, each enable reporting success. */
  lemma {:induction false} LoopSuccess(env: Env, reg: Registry, opts: Options, limit: int, i: int, attached: bool, st: State)
    requires !AllowEnable(opts)
    ensures var r := Loop(env, reg, opts, limit, i, attached, st);
      && Grows(st, r.after)
      && (r.result.Ok? ==>
            && NotFound(reg, Services(opts)) == [] && EndsWith(EnabledNames(Added(st, r.after)), Services(opts))
            && EndsWith(Added(st, r.after), OkEnables(Services(opts))))
    decreases limit - i
  {
    var r := Loop(env, reg, opts, limit, i, attached, st);
    if i >= limit {
      assert Added(st, r.after) == [];
    } else {
      var t := Try(env, reg, opts, attached, st);
      TrySucceeded(env, reg, opts, attached, st);
      if t.0.Retry? {
        var next := Append(t.1, [Event.Sleep(2)]);
        LoopSuccess(env, reg, opts, limit, i + 1, true, next);
        assert r == Loop(env, reg, opts, limit, i + 1, true, next);
        RetryStep(st, t.1, r.after, Sleeps);
        if r.result.Ok? {
          EnabledNamesConcat(Added(st, next), Added(next, r.after));
          EndsWithPrefixed(EnabledNames(Added(st, next)), EnabledNames(Added(next, r.after)), Services(opts));
          EndsWithPrefixed(Added(st, next), Added(next, r.after), OkEnables(Services(opts)));
        }
      }
    }
  }

  /** With an attempt left, the call is decided by the attach or by the
      first attempt at enabling, unless that attempt retries. */
  lemma FirstPass(env: Env, reg: Registry, opts: Options, st: State)
    requires Limit(opts) > 0
    ensures var ph := AttachPhase(env, opts, st);
      && (ph.0.Finished? ==> Run(env, reg, opts, st) == Step(ph.0.result, ph.1))
      && (ph.0.Continue? ==>
            var it := Iterate(env, reg, opts, ph.1);
            && (it.0.Raised? ==> Run(env, reg, opts, st) == Step(Err(it.0.error), it.1))
            && (it.0.Succeeded? ==> Run(env, reg, opts, st) == Step(Ok(()), it.1)))
  {
    assert Run(env, reg, opts, st) == Loop(env, reg, opts, Limit(opts), 0, false, st);
    assert Latched(env, opts, false, st) == AttachPhase(env, opts, st);
  }

  // ---------------------------------------------------------------------
  // Properties of the endpoint

  /** The attach latch: one call requests the contract update at most once,
      however many attempts it makes. */
  lemma AttachRequestedAtMostOnce(env: Env, reg: Registry, opts: Options, st: State)
    ensures var r := Run(env, reg, opts, st);
      Grows(st, r.after) && Count(Added(st, r.after), AttachRequests) <= 1
  {
    LoopAttaches(env, reg, opts, Limit(opts), 0, false, st);
  }

  /** Each failed attempt sleeps once, so a call sleeps at most `Limit`
      times, and it ends in `full-auto-attach-error` only after sleeping
      exactly that many times. */
  lemma SleepsBoundedByLimit(env: Env, reg: Registry, opts: Options, st: State)
    ensures var r := Run(env, reg, opts, st);
      && Grows(st, r.after)
      && Count(Added(st, r.after), Sleeps) <= Max0(Limit(opts))
      && (ForeignErrorsDistinct(env) && r.result == Err(FullAutoAttachFailureError(FailureMessage, FailureCode)) ==>
            Count(Added(st, r.after), Sleeps) == Max0(Limit(opts)))
  {
    LoopSleeps(env, reg, opts, Limit(opts), 0, false, st);
    if ForeignErrorsDistinct(env) {
      LoopFailure(env, reg, opts, Limit(opts), 0, false, st);
    }
  }

  /** A negative `retries` leaves no attempt: the call fails at once, with
      no effect. */
  lemma NegativeRetriesFailWithoutAttaching(env: Env, reg: Registry, opts: Options, st: State)
    requires opts.retries.Some? && opts.retries.value < 0
    ensures Run(env, reg, opts, st) == Step(Err(FullAutoAttachFailureError(FailureMessage, FailureCode)), st)
  {
  }

  /** With no service requested the contract update is asked to enable the
      default services; the call succeeds exactly when the attach does, and
      never enables anything itself. */
  lemma NothingRequestedEnablesNothing(env: Env, reg: Registry, opts: Options, st: State)
    requires AllowEnable(opts) && Limit(opts) > 0
    ensures var r := Run(env, reg, opts, st);
      && Grows(st, r.after)
      && NoneOf(Added(st, r.after), Enables)
      && (r.result.Ok? <==> HandshakeSucceeds(env, st))
      && (HandshakeSucceeds(env, st) ==> RequestUpdatedContract(env.token.fields["contractToken"], true) in Added(st, r.after))
  {
    PhaseFacts(env, opts, st);
    FirstPass(env, reg, opts, st);
  }

  /** A beta service in `enable` stops the call before any enable; once the
      attach has succeeded, the error is BetaServiceError. */
  lemma BetaInEnableStopsBeforeEnabling(env: Env, reg: Registry, opts: Options, st: State)
    requires Given(opts.enable) && IsAnyBeta(reg, opts.enable.value) && Limit(opts) > 0
    ensures var r := Run(env, reg, opts, st);
      && Grows(st, r.after)
      && NoneOf(Added(st, r.after), Enables)
      && r.result.Err?
      && (HandshakeSucceeds(env, st) ==> r.result.error == BetaServiceError(BetaMessage, BetaCode))
  {
    PhaseFacts(env, opts, st);
    FirstPass(env, reg, opts, st);
    var ph := AttachPhase(env, opts, st);
    if ph.0.Continue? {
      assert Iterate(env, reg, opts, ph.1) == (Raised(BetaServiceError(BetaMessage, BetaCode)), ph.1);
    }
  }

  /** When the attach succeeds and services were requested, the call is
      decided by its first attempt unless that attempt retries. */
  lemma FirstAttempt(env: Env, reg: Registry, opts: Options, st: State)
    requires HandshakeSucceeds(env, st) && Limit(opts) > 0 && !AllowEnable(opts)
    ensures var ph := AttachPhase(env, opts, st);
      && ph.0 == Continue
      && Grows(st, ph.1)
      && NoneOf(Added(st, ph.1), Enables) && NoneOf(Added(st, ph.1), Sleeps)
      && var it := Iterate(env, reg, opts, ph.1);
      && (it.0.Raised? ==> Run(env, reg, opts, st) == Step(Err(it.0.error), it.1))
      && (it.0.Succeeded? ==> Run(env, reg, opts, st) == Step(Ok(()), it.1))
  {
    PhaseFacts(env, opts, st);
    FirstPass(env, reg, opts, st);
  }

  /** Events that are neither enables nor sleeps leave the enabled names
      and the sleeps of what follows them as they are. */
  lemma QuietPrefix(st: State, mid: State, last: State)
    requires Grows(st, mid) && NoneOf(Added(st, mid), Enables) && NoneOf(Added(st, mid), Sleeps)
    requires Grows(mid, last)
    ensures Grows(st, last)
    ensures EnabledNames(Added(st, last)) == EnabledNames(Added(mid, last))
    ensures Count(Added(st, last), Sleeps) == Count(Added(mid, last), Sleeps)
  {
    GrowsTrans(st, mid, last);
    NoEnableNoNames(Added(st, mid));
    EnabledNamesConcat(Added(st, mid), Added(mid, last));
    CountNone(Added(st, mid), Sleeps);
    CountConcat(Added(st, mid), Added(mid, last), Sleeps);
  }

  /** With no stopping failure, an attempt with unknown names enables every
      known one and then reports the unknown ones. */
  lemma IterateUnknown(env: Env, reg: Registry, opts: Options, st: State)
    requires NeverStops(env)
    requires !(Given(opts.enable) && IsAnyBeta(reg, opts.enable.value))
    requires NotFound(reg, Services(opts)) != []
    ensures var it := Iterate(env, reg, opts, st);
      && it.0 == Raised(EntitlementNotFoundError(NotFound(reg, Services(opts))))
      && Grows(st, it.1)
      && EnabledNames(Added(st, it.1)) == Found(reg, Services(opts))
  {
    var services := Services(opts);
    var found := Found(reg, services);
    PassRunsToEnd(env, reg, found, 0, 0, st);
    PassFacts(env, reg, found, 0, 0, st);
    assert found[0..] == found;
  }

  /** With every name known and every enable succeeding, an attempt enables
      every service, in order, and succeeds. */
  lemma IterateAllEnabled(env: Env, reg: Registry, opts: Options, st: State)
    requires NeverStops(env) && AllSucceed(env)
    requires !(Given(opts.enable) && IsAnyBeta(reg, opts.enable.value))
    requires NotFound(reg, Services(opts)) == []
    ensures var it := Iterate(env, reg, opts, st);
      && it.0 == Succeeded
      && Grows(st, it.1)
      && EnabledNames(Added(st, it.1)) == Services(opts)
      && Count(Added(st, it.1), Sleeps) == 0
  {
    var services := Services(opts);
    NothingNotFound(reg, services);
    PassRunsToEnd(env, reg, services, 0, 0, st);
    PassFacts(env, reg, services, 0, 0, st);
    var p := EnablePass(env, reg, services, 0, 0, st);
    assert services[0..] == services;
    assert p.0 == Counted(|services|);
    assert Iterate(env, reg, opts, st) == (Succeeded, p.1);
    OnlyEnables(Added(st, p.1));
  }

  /** Unknown names are reported only after every known name has been
      enabled, in order, in the same attempt. */
  lemma UnknownNamesReportedAfterEnablingKnown(env: Env, reg: Registry, opts: Options, st: State)
    requires HandshakeSucceeds(env, st) && Limit(opts) > 0 && NeverStops(env)
    requires !(Given(opts.enable) && IsAnyBeta(reg, opts.enable.value))
    requires NotFound(reg, Services(opts)) != []
    ensures var r := Run(env, reg, opts, st);
      && Grows(st, r.after)
      && r.result == Err(EntitlementNotFoundError(NotFound(reg, Services(opts))))
      && EnabledNames(Added(st, r.after)) == Found(reg, Services(opts))
  {
    var x := NotFound(reg, Services(opts))[0];
    assert x in Services(opts);
    assert !AllowEnable(opts);
    FirstAttempt(env, reg, opts, st);
    var ph := AttachPhase(env, opts, st);
    IterateUnknown(env, reg, opts, ph.1);
    QuietPrefix(st, ph.1, Iterate(env, reg, opts, ph.1).1);
  }

  /** When every service is known and every enable succeeds, the first
      attempt succeeds: every requested service is enabled once, in order,
      and there is no retry. */
  lemma AllEnabledFirstAttempt(env: Env, reg: Registry, opts: Options, st: State)
    requires HandshakeSucceeds(env, st) && Limit(opts) > 0 && !AllowEnable(opts)
    requires NeverStops(env) && AllSucceed(env)
    requires !(Given(opts.enable) && IsAnyBeta(reg, opts.enable.value))
    requires NotFound(reg, Services(opts)) == []
    ensures var r := Run(env, reg, opts, st);
      && Grows(st, r.after)
      && r.result == Ok(())
      && EnabledNames(Added(st, r.after)) == Services(opts)
      && Count(Added(st, r.after), Sleeps) == 0
  {
    FirstAttempt(env, reg, opts, st);
    var ph := AttachPhase(env, opts, st);
    IterateAllEnabled(env, reg, opts, ph.1);
    QuietPrefix(st, ph.1, Iterate(env, reg, opts, ph.1).1);
  }

  /** A success after the attach means every requested service is known
      and the last attempt enabled each of them, in order, every `enable()`
      reporting success. */
  lemma SuccessEnabledEveryService(env: Env, reg: Registry, opts: Options, st: State)
    requires !AllowEnable(opts)
    ensures var r := Run(env, reg, opts, st);
      && Grows(st, r.after)
      && (r.result.Ok? ==>
            && NotFound(reg, Services(opts)) == [] && EndsWith(EnabledNames(Added(st, r.after)), Services(opts))
            && EndsWith(Added(st, r.after), OkEnables(Services(opts))))
  {
    LoopSuccess(env, reg, opts, Limit(opts), 0, false, st);
  }

  /** Every name `Found` keeps is known. */
  lemma FoundResolves(reg: Registry, names: seq<string>)
    ensures forall i :: 0 <= i < |Found(reg, names)| ==> Resolves(reg, Found(reg, names)[i])
  {
    var found := Found(reg, names);
    forall i | 0 <= i < |found|
      ensures Resolves(reg, found[i])
    {
      assert found[i] in found;
    }
  }

  /** An attempt succeeds exactly when every requested service is known and
      every `enable()` call it makes, numbered from `base` on, reports
      success. */
  lemma IterateSucceedsIffAllOk(env: Env, reg: Registry, opts: Options, st: State, base: nat)
    requires !(Given(opts.enable) && IsAnyBeta(reg, opts.enable.value))
    requires base == Count(st.trace, Enables)
    ensures Iterate(env, reg, opts, st).0.Succeeded? <==>
      NotFound(reg, Services(opts)) == [] && AllOkFrom(env, Services(opts), 0, base)
  {
    if NotFound(reg, Services(opts)) == [] {
      IterateKnownSucceedsIffAllOk(env, reg, opts, st, base);
    } else {
      assert !Iterate(env, reg, opts, st).0.Succeeded?;
    }
  }

  /** The case of IterateSucceedsIffAllOk where every name is known. */
  lemma IterateKnownSucceedsIffAllOk(env: Env, reg: Registry, opts: Options, st: State, base: nat)
    requires !(Given(opts.enable) && IsAnyBeta(reg, opts.enable.value))
    requires base == Count(st.trace, Enables) && NotFound(reg, Services(opts)) == []
    ensures Iterate(env, reg, opts, st).0.Succeeded? <==> AllOkFrom(env, Services(opts), 0, base)
  {
    var services := Services(opts);
    var found := Found(reg, services);
    var p := EnablePass(env, reg, found, 0, 0, st);
    NothingNotFound(reg, services);
    FoundResolves(reg, services);
    PassCountsAll(env, reg, found, 0, 0, st, base);
    assert Iterate(env, reg, opts, st).0 ==
      if p.0.PassRaised? then Raised(p.0.error) else if |services| == p.0.enabled then Succeeded else Retry;
  }

  /** An attempt whose enable loop meets a stopping failure at `found[j]`
      raises EntitlementNotEnabledError for it, having enabled
      `found[..j + 1]` and nothing else; the attempt's `enable()` calls are
      numbered from `base` on. */
  lemma IterateStopsAt(env: Env, reg: Registry, opts: Options, st: State, j: nat, base: nat)
    requires !(Given(opts.enable) && IsAnyBeta(reg, opts.enable.value))
    requires base == Count(st.trace, Enables) && j < |Found(reg, Services(opts))|
    requires var found := Found(reg, Services(opts));
      forall i :: 0 <= i < j ==> !StopsEnabling(env.enable(base + i, found[i]))
    requires StopsEnabling(env.enable(base + j, Found(reg, Services(opts))[j]))
    ensures var found := Found(reg, Services(opts));
      var it := Iterate(env, reg, opts, st);
      && it.0 == Raised(NotEnabledError(env.enable(base + j, found[j]), found[j]))
      && Grows(st, it.1)
      && EnabledNames(Added(st, it.1)) == found[..j + 1]
      && NoneOf(Added(st, it.1), Sleeps)
  {
    var found := Found(reg, Services(opts));
    FoundResolves(reg, Services(opts));
    PassStopsAt(env, reg, found, 0, j, 0, st, base);
    PassFacts(env, reg, found, 0, 0, st);
    var p := EnablePass(env, reg, found, 0, 0, st);
    assert Iterate(env, reg, opts, st) == (Raised(p.0.error), p.1);
    OnlyEnables(Added(st, p.1));
    assert found[0..j + 1] == found[..j + 1];
  }

  /** After a good attach, a first attempt in which every requested service
      is known and every enable succeeds ends the call with success, having
      enabled every service once, in order, without a retry; the `enable()`
      calls are numbered from `base`, the enables in the trace so far. */
  lemma AllOkFirstAttempt(env: Env, reg: Registry, opts: Options, st: State, base: nat)
    requires HandshakeSucceeds(env, st) && Limit(opts) > 0 && !AllowEnable(opts)
    requires !(Given(opts.enable) && IsAnyBeta(reg, opts.enable.value))
    requires base == Count(st.trace, Enables)
    requires NotFound(reg, Services(opts)) == [] && AllOkFrom(env, Services(opts), 0, base)
    ensures var r := Run(env, reg, opts, st);
      && r.result == Ok(())
      && Grows(st, r.after)
      && EndsWith(Added(st, r.after), OkEnables(Services(opts)))
      && Count(Added(st, r.after), Sleeps) == 0
  {
    FirstAttempt(env, reg, opts, st);
    var ph := AttachPhase(env, opts, st);
    QuietCount(st, ph.1);
    IterateAllOk(env, reg, opts, ph.1, base);
    QuietPrefix(st, ph.1, Iterate(env, reg, opts, ph.1).1);
    SuccessEnabledEveryService(env, reg, opts, st);
  }

  /** An attempt in which every requested service is known and every
      enable succeeds succeeds, with one successful enable per service and
      no sleep. */
  lemma IterateAllOk(env: Env, reg: Registry, opts: Options, st: State, base: nat)
    requires !(Given(opts.enable) && IsAnyBeta(reg, opts.enable.value))
    requires base == Count(st.trace, Enables)
    requires NotFound(reg, Services(opts)) == [] && AllOkFrom(env, Services(opts), 0, base)
    ensures var it := Iterate(env, reg, opts, st);
      && it.0 == Succeeded
      && Grows(st, it.1)
      && EndsWith(Added(st, it.1), OkEnables(Services(opts)))
      && Count(Added(st, it.1), Sleeps) == 0
  {
    IterateSucceedsIffAllOk(env, reg, opts, st, base);
    IterateOkEnables(env, reg, opts, st);
    var it := Iterate(env, reg, opts, st);
    OnlyEnables(Added(st, it.1));
  }

  /** After a good attach, the first `enable()` that fails with a
      CanEnableFailure carrying a message ends the call with
      EntitlementNotEnabledError for that service: nothing after it is
      enabled and there is no retry. The calls are numbered from `base`,
      the enables in the trace so far. */
  lemma StoppingFailureEndsCall(env: Env, reg: Registry, opts: Options, st: State, j: nat, base: nat)
    requires HandshakeSucceeds(env, st) && Limit(opts) > 0 && !AllowEnable(opts)
    requires !(Given(opts.enable) && IsAnyBeta(reg, opts.enable.value))
    requires base == Count(st.trace, Enables) && j < |Found(reg, Services(opts))|
    requires var found := Found(reg, Services(opts));
      forall i :: 0 <= i < j ==> !StopsEnabling(env.enable(base + i, found[i]))
    requires StopsEnabling(env.enable(base + j, Found(reg, Services(opts))[j]))
    ensures var found := Found(reg, Services(opts));
      var r := Run(env, reg, opts, st);
      && r.result == Err(NotEnabledError(env.enable(base + j, found[j]), found[j]))
      && Grows(st, r.after)
      && EnabledNames(Added(st, r.after)) == found[..j + 1]
      && Count(Added(st, r.after), Sleeps) == 0
  {
    FirstAttempt(env, reg, opts, st);
    var ph := AttachPhase(env, opts, st);
    QuietCount(st, ph.1);
    IterateStopsAt(env, reg, opts, ph.1, j, base);
    var it := Iterate(env, reg, opts, ph.1);
    CountNone(Added(ph.1, it.1), Sleeps);
    QuietPrefix(st, ph.1, it.1);
  }

  /** Events with no enable among them leave the count of enables as it
      was. */
  lemma QuietCount(st: State, mid: State)
    requires Grows(st, mid) && NoneOf(Added(st, mid), Enables)
    ensures Count(mid.trace, Enables) == Count(st.trace, Enables)
  {
    assert mid.trace == st.trace + Added(st, mid);
    CountConcat(st.trace, Added(st, mid), Enables);
    CountNone(Added(st, mid), Enables);
  }

  // ---------------------------------------------------------------------
  // The endpoint

  /** The body of the `if not already_attached` block. */
  method AttachOnce(h: Host, opts: Options) returns (ph: Phase)
    modifies h
    ensures (ph, h.Snapshot()) == AttachPhase(h.env, opts, old(h.Snapshot()))
  {
    var instance := h.GetCloudInstance();
    if instance.Err? {
      return Finished(Err(instance.error));
    }
    var detached := h.DetachBeforeAutoAttach();
    if detached.Err? {
      return Finished(Err(detached.error));
    }
    var allowEnable := !(Given(opts.enable) || Given(opts.enableBeta));
    var token := h.RequestAutoAttachToken(instance.value);
    if token.Err? {
      return Finished(Err(token.error));
    }
    var attached := h.AttachWithToken(token.value, allowEnable);
    if attached.Err? {
      return Finished(Err(attached.error));
    }
    if allowEnable {
      return Finished(Ok(()));
    }
    ph := Continue;
  }

  /** The `for name in found` loop. */
  method EnableFound(h: Host, found: seq<string>) returns (p: PassOutcome)
    modifies h
    ensures (p, h.Snapshot()) == EnablePass(h.env, h.reg, found, 0, 0, old(h.Snapshot()))
  {
    var enabledServices := 0;
    for k := 0 to |found|
      invariant EnablePass(h.env, h.reg, found, k, enabledServices, h.Snapshot()) ==
        EnablePass(h.env, h.reg, found, 0, 0, old(h.Snapshot()))
    {
      var name := found[k];
      var outcome := h.EnableEntitlementByName(name);
      if outcome.Err? {
        return PassRaised(outcome.error);
      }
      if !outcome.value.ok {
        if StopsEnabling(outcome.value) {
          return PassRaised(NotEnabledError(outcome.value, name));
        }
      } else {
        enabledServices := enabledServices + 1;
      }
    }
    p := Counted(enabledServices);
  }

  /** One pass of the `while` body after the attach: the beta check, the
      candidate list, the enable loop and the exits. */
  method TryEnable(h: Host, opts: Options) returns (a: Attempt)
    modifies h
    ensures (a, h.Snapshot()) == Iterate(h.env, h.reg, opts, old(h.Snapshot()))
  {
    var services: seq<string> := [];
    if Given(opts.enable) {
      if IsAnyBeta(h.reg, opts.enable.value) {
        return Raised(BetaServiceError(BetaMessage, BetaCode));
      }
      services := services + opts.enable.value;
      assert services == opts.enable.value;
    }
    if Given(opts.enableBeta) {
      services := services + opts.enableBeta.value;
    }
    assert services == (if Given(opts.enable) then opts.enable.value else []) +
      (if Given(opts.enableBeta) then opts.enableBeta.value else []);
    services := Dedup(services);
    var found, notFound := Found(h.reg, services), NotFound(h.reg, services);
    var p := EnableFound(h, found);
    if p.PassRaised? {
      return Raised(p.error);
    }
    if |notFound| > 0 {
      return Raised(EntitlementNotFoundError(notFound));
    }
    if |services| == p.enabled {
      return Succeeded;
    }
    a := Retry;
  }

  /** One pass of the `while` body up to the retry decision: the attach
      unless `already_attached` is set, then the attempt at enabling. */
  method TryOnce(h: Host, opts: Options, alreadyAttached: bool) returns (a: Attempt)
    modifies h
    ensures (a, h.Snapshot()) == Try(h.env, h.reg, opts, alreadyAttached, old(h.Snapshot()))
  {
    if !alreadyAttached {
      var ph := AttachOnce(h, opts);
      if ph.Finished? {
        return if ph.result.Ok? then Succeeded else Raised(ph.result.error);
      }
    }
    a := TryEnable(h, opts);
  }

  method FullAutoAttach(h: Host, opts: Options) returns (r: Result<()>)
    modifies h
    ensures Step(r, h.Snapshot()) == Run(h.env, h.reg, opts, old(h.Snapshot()))
  {
    var i := 0;
    var limit := 3;
    if opts.retries.Some? && opts.retries.value != 0 {
      limit := opts.retries.value;
    }
    var alreadyAttached := false;
    while i < limit
      invariant Loop(h.env, h.reg, opts, limit, i, alreadyAttached, h.Snapshot()) ==
        Run(h.env, h.reg, opts, old(h.Snapshot()))
      decreases limit - i
    {
      ghost var before := h.Snapshot();
      var a := TryOnce(h, opts, alreadyAttached);
      ghost var goal := Loop(h.env, h.reg, opts, limit, i, alreadyAttached, before);
      alreadyAttached := true;
      match a {
        case Succeeded => assert goal == Step(Ok(()), h.Snapshot()); return Ok(());
        case Raised(e) => assert goal == Step(Err(e), h.Snapshot()); return Err(e);
        case Retry =>
      }
      ghost var next := Append(h.Snapshot(), [Event.Sleep(2)]);
      assert goal == Loop(h.env, h.reg, opts, limit, i + 1, true, next);
      i := i + 1;
      h.Sleep(2);
      assert h.Snapshot() == next;
    }
    r := Err(FullAutoAttachFailureError(FailureMessage, FailureCode));
  }
}
