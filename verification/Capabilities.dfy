/**
 The advertised surface of an agent: one capability per allow rule, with the rule's
 constraints as pins.  It is proved to say exactly what the policy allows.
 */
module Capabilities {
  import opened Wrappers
  import opened AppDef
  import opened Passport
  import Strings
  import Paths
  import Policy

  datatype Target = Target(alias: string, allowedServices: seq<string>)

  /** The deny rules that apply to the agent, shown beside its capabilities. */
  datatype Denied = Denied(app: string, action: string, constraints: Params)

  datatype Surface = Surface(capabilities: seq<Capability>, denied: seq<Denied>)

  function FindTarget(targets: seq<Target>, alias: string): Option<Target> {
    if targets == [] then None
    else if targets[0].alias == alias then Some(targets[0])
    else FindTarget(targets[1..], alias)
  }

  function Aliases(targets: seq<Target>): seq<string> {
    seq(|targets|, i requires 0 <= i < |targets| => targets[i].alias)
  }

  /** The enumerable values suggested for a free parameter; paths are hinted in prose only. */
  function HintValues(app: string, p: Parameter, target: Option<Target>, targets: seq<Target>): seq<string> {
    if app == "ssh" && KeyOf(p) == "target" then Aliases(targets)
    else if app == "ssh" && (p.constraint == "service" || KeyOf(p) == "service") && target.Some?
    then target.value.allowedServices
    else []
  }

  function BuildParam(r: Policy.Rule, p: Parameter, target: Option<Target>, targets: seq<Target>): Param {
    var key := KeyOf(p);
    if key in r.constraints
    then Param(p.name, key, p.required, p.constraint, true, r.constraints[key], [])
    else Param(p.name, key, p.required, p.constraint, false, "", HintValues(r.app, p, target, targets))
  }

  function BuildParams(r: Policy.Rule, ps: seq<Parameter>, target: Option<Target>, targets: seq<Target>): (out: seq<Param>)
    ensures |out| == |ps| && forall i :: 0 <= i < |ps| ==> out[i] == BuildParam(r, ps[i], target, targets)
  {
    seq(|ps|, i requires 0 <= i < |ps| => BuildParam(r, ps[i], target, targets))
  }

  /** An allow rule for an unknown app or action gives a capability without parameters. */
  function BuildCapability(r: Policy.Rule, defs: map<string, Definition>, targets: seq<Target>): Capability {
    if r.app !in defs || r.action !in defs[r.app].actions then Capability(r.app, r.action, [])
    else
      var alias := Get(r.constraints, "target");
      var target := if alias != "" then FindTarget(targets, alias) else None;
      Capability(r.app, r.action, BuildParams(r, defs[r.app].actions[r.action].parameters, target, targets))
  }

  /** Target `i` is the first one of that alias. */
  predicate FirstOf(targets: seq<Target>, i: nat, alias: string) {
    i < |targets| && targets[i].alias == alias && forall k :: 0 <= k < i ==> targets[k].alias != alias
  }

  lemma {:induction false} FindTargetExactly(targets: seq<Target>, alias: string)
    ensures FindTarget(targets, alias).None? <==> forall k :: 0 <= k < |targets| ==> targets[k].alias != alias
    ensures forall i: nat :: FirstOf(targets, i, alias) ==> FindTarget(targets, alias) == Some(targets[i])
    decreases |targets|
  {
    if targets != [] && targets[0].alias != alias {
      var rest := targets[1..];
      FindTargetExactly(rest, alias);
      assert forall k :: 0 < k < |targets| ==> targets[k] == rest[k - 1];
      forall i: nat | FirstOf(targets, i, alias) ensures FindTarget(targets, alias) == Some(targets[i]) {
        assert FirstOf(rest, i - 1, alias);
      }
    }
  }

  /**
   What each parameter of an advertised capability says: a constraint of the rule pins it to that
   value; otherwise it is free, except that a free ssh target is one of the configured aliases
   and a free ssh service is one that the target the rule names allows.
   */
  lemma AdvertisedParameter(r: Policy.Rule, defs: map<string, Definition>, targets: seq<Target>, i: nat)
    requires r.app in defs && r.action in defs[r.app].actions && i < |defs[r.app].actions[r.action].parameters|
    ensures var p := defs[r.app].actions[r.action].parameters[i];
            var key := if p.policyKey == "" then p.name else p.policyKey;
            var out := BuildCapability(r, defs, targets);
            && out.app == r.app && out.action == r.action && i < |out.params|
            && var q := out.params[i];
               && q.name == p.name && q.policyKey == key && q.required == p.required && q.constraint == p.constraint
               && (q.pinned <==> key in r.constraints)
               && (q.pinned ==> q.fixed == r.constraints[key])
               && (!q.pinned && r.app != "ssh" ==> q.allowedValues == [])
               && (!q.pinned && r.app == "ssh" && key == "target" ==>
                     && |q.allowedValues| == |targets|
                     && forall k :: 0 <= k < |targets| ==> q.allowedValues[k] == targets[k].alias)
               && (!q.pinned && r.app == "ssh" && key != "target" && (p.constraint == "service" || key == "service") ==>
                     AllowedServicesOf(r, targets, q.allowedValues))
               && (!q.pinned && r.app == "ssh" && key != "target" && p.constraint != "service" && key != "service" ==>
                     q.allowedValues == [])
  {
    if "target" in r.constraints {
      var alias := r.constraints["target"];
      FindTargetExactly(targets, alias);
      if n :| 0 <= n < |targets| && targets[n].alias == alias {
        FirstExists(targets, alias, n);
      }
    }
  }

  /** The services of the first target the rule names, or none when it names no known one. */
  predicate AllowedServicesOf(r: Policy.Rule, targets: seq<Target>, services: seq<string>) {
    if "target" in r.constraints && r.constraints["target"] != ""
       && exists i :: 0 <= i < |targets| && targets[i].alias == r.constraints["target"]
    then exists i :: 0 <= i < |targets| && FirstOf(targets, i, r.constraints["target"]) && services == targets[i].allowedServices
    else services == []
  }

  lemma FirstExists(targets: seq<Target>, alias: string, n: nat)
    requires n < |targets| && targets[n].alias == alias
    ensures exists i :: 0 <= i <= n && FirstOf(targets, i, alias)
    decreases n
  {
    if k :| 0 <= k < n && targets[k].alias == alias {
      FirstExists(targets, alias, k);
    } else {
      assert FirstOf(targets, n, alias);
    }
  }

  /** The surface of one agent: every rule naming the agent lands in one list. */
  method Build(agent: string, defs: map<string, Definition>, rules: seq<Policy.Rule>, targets: seq<Target>)
    returns (s: Surface)
    ensures forall c :: c in s.capabilities <==> Advertised(agent, defs, rules, targets, c)
    ensures forall d :: d in s.denied <==>
              exists r | r in rules :: r.agent == agent && r.effect == "deny" && d == Denied(r.app, r.action, r.constraints)
  {
    s := Surface([], []);
    for i := 0 to |rules|
      invariant forall c :: c in s.capabilities <==> Advertised(agent, defs, rules[..i], targets, c)
      invariant forall d :: d in s.denied <==>
                  exists r | r in rules[..i] ::
                    r.agent == agent && r.effect == "deny" && d == Denied(r.app, r.action, r.constraints)
    {
      var r := rules[i];
      assert rules[..i + 1] == rules[..i] + [r];
      if r.agent != agent {
        continue;
      }
      if r.effect == "deny" {
        s := s.(denied := s.denied + [Denied(r.app, r.action, r.constraints)]);
        continue;
      }
      s := s.(capabilities := s.capabilities + [BuildCapability(r, defs, targets)]);
    }
    assert rules[..|rules|] == rules;
  }

  predicate Advertised(agent: string, defs: map<string, Definition>, rules: seq<Policy.Rule>, targets: seq<Target>,
                       c: Capability) {
    exists r | r in rules :: r.agent == agent && r.effect != "deny" && c == BuildCapability(r, defs, targets)
  }

  /** An argument list that gives each pinned parameter its pinned value, up to path spelling. */
  predicate PinsMet(c: Capability, params: Params) {
    forall i :: 0 <= i < |c.params| && c.params[i].pinned ==>
      var v := Strings.TrimSpace(Get(params, c.params[i].name));
      v != "" && Policy.CanonicalConstraintValue(v) == Policy.CanonicalConstraintValue(c.params[i].fixed)
  }

  /** Rules that constrain only declared parameters, for a protected app with distinct keys. */
  predicate WellKeyed(r: Policy.Rule, def: Definition) {
    && def.securityMode != "passthrough" && r.app == def.name && r.action in def.actions
    && DistinctKeys(def.actions[r.action].parameters)
    && forall k :: k in r.constraints ==>
         exists i :: 0 <= i < |def.actions[r.action].parameters| && KeyOf(def.actions[r.action].parameters[i]) == k
  }

  /** A rule's constraints match a request exactly when the request meets the capability's pins. */
  lemma MatchesIsPinsMet(r: Policy.Rule, def: Definition, defs: map<string, Definition>, targets: seq<Target>, params: Params)
    requires WellKeyed(r, def) && r.app in defs && defs[r.app] == def
    ensures Policy.Matches(r.constraints, DefinitionContext(def, r.action, params))
            <==> PinsMet(BuildCapability(r, defs, targets), params)
  {
    var ps := def.actions[r.action].parameters;
    var ctx := ContextOf(ps, params);
    var c := BuildCapability(r, defs, targets);
    ContextHasNoBlanks(ps, params);
    if Policy.Matches(r.constraints, ctx) {
      forall i | 0 <= i < |c.params| && c.params[i].pinned
        ensures var v := Strings.TrimSpace(Get(params, c.params[i].name));
                v != "" && Policy.CanonicalConstraintValue(v) == Policy.CanonicalConstraintValue(c.params[i].fixed)
      {
        ContextAt(ps, params, i);
        assert KeyOf(ps[i]) in r.constraints;
      }
    }
    if PinsMet(c, params) {
      forall k | k in r.constraints
        ensures k in ctx && Policy.CanonicalConstraintValue(ctx[k]) == Policy.CanonicalConstraintValue(r.constraints[k])
      {
        var i :| 0 <= i < |ps| && KeyOf(ps[i]) == k;
        assert c.params[i].pinned;
        ContextAt(ps, params, i);
      }
    }
  }

  /** Allow rules that name just this agent, or another one. */
  predicate AgentRules(rules: seq<Policy.Rule>, defs: map<string, Definition>) {
    forall r :: r in rules && r.effect != "deny" ==>
      && r.effect == "allow" && r.agent != "" && r.user == "" && r.groups == []
      && (r.app in defs ==> r.action in defs[r.app].actions ==> WellKeyed(r, defs[r.app]))
  }

  predicate Denies(rules: seq<Policy.Rule>, def: Definition, action: string, p: Policy.Principal, params: Params) {
    exists r | r in rules ::
      r.effect == "deny" && Policy.Applies(r, def.name, action, p, DefinitionContext(def, action, params))
  }

  predicate Meets(agent: string, defs: map<string, Definition>, rules: seq<Policy.Rule>, targets: seq<Target>,
                  app: string, action: string, params: Params) {
    exists r | r in rules ::
      && r.agent == agent && r.effect != "deny" && r.app == app && r.action == action
      && PinsMet(BuildCapability(r, defs, targets), params)
  }

  /**
   The surface is exact: a request of the agent is authorized if and only if it meets the pins
   of some advertised capability for its verb and no deny rule applies.
   */
  lemma SurfaceIsExact(agent: string, defs: map<string, Definition>, rules: seq<Policy.Rule>, targets: seq<Target>,
                       app: string, action: string, p: Policy.Principal, params: Params)
    requires agent != "" && p.agent == agent && AgentRules(rules, defs)
    requires app in defs && defs[app].name == app && action in defs[app].actions
    ensures Policy.Authorized(rules, defs[app], action, p, params)
            <==> Meets(agent, defs, rules, targets, app, action, params)
                 && !Denies(rules, defs[app], action, p, params)
  {
    var def := defs[app];
    var ctx := DefinitionContext(def, action, params);
    forall r | r in rules && r.effect == "allow"
      ensures Policy.Applies(r, app, action, p, ctx)
              <==> r.agent == agent && r.app == app && r.action == action
                   && PinsMet(BuildCapability(r, defs, targets), params)
    {
      if r.app == app && r.action == action {
        MatchesIsPinsMet(r, def, defs, targets, params);
      }
    }
  }

  /**
   Delegation end to end: a request inside a passport scope that passed the issue-time subset
   check against the issuer's surface, and that gives a value to every key the issuer's rules
   for its verb constrain, is authorized by the issuer's own policy unless a deny rule applies to it.
   */
  lemma DelegatedRequestIsAuthorized(agent: string, defs: map<string, Definition>, rules: seq<Policy.Rule>,
                                     targets: seq<Target>, surface: seq<Capability>, requested: seq<Capability>,
                                     app: string, action: string, p: Policy.Principal, params: Params)
    requires agent != "" && p.agent == agent && AgentRules(rules, defs)
    requires app in defs && defs[app].name == app && action in defs[app].actions
    requires forall c :: c in surface <==> Advertised(agent, defs, rules, targets, c)
    requires IsSubset(requested, surface)
    requires forall i, j :: 0 <= i < |surface| && 0 <= j < |requested| && SameVerb(surface[i], requested[j])
                            && surface[i].app == app && surface[i].action == action ==>
               ListsConstraints(surface[i], requested[j])
    requires var ctx := DefinitionContext(defs[app], action, params);
             && InScope(requested, app, action, ctx)
             && forall i :: 0 <= i < |surface| && surface[i].app == app && surface[i].action == action ==>
                  DistinctParams(surface[i].params) && NonBlank(surface[i], ctx)
    ensures Policy.Authorized(rules, defs[app], action, p, params) <==> !Denies(rules, defs[app], action, p, params)
  {
    var ctx := DefinitionContext(defs[app], action, params);
    SubsetIsSound(requested, surface, app, action, ctx);
    var i :| 0 <= i < |surface| && surface[i].app == app && surface[i].action == action && CapPermits(surface[i], ctx);
    assert surface[i] in surface;
    var r :| r in rules && r.agent == agent && r.effect != "deny" && surface[i] == BuildCapability(r, defs, targets);
    PermittedMeetsPins(r, defs, targets, params);
    assert Meets(agent, defs, rules, targets, app, action, params);
    SurfaceIsExact(agent, defs, rules, targets, app, action, p, params);
  }

  /** The context a scope looks at holds exactly the trimmed arguments, so permitted means pins met. */
  lemma PermittedMeetsPins(r: Policy.Rule, defs: map<string, Definition>, targets: seq<Target>, params: Params)
    requires r.app in defs && r.action in defs[r.app].actions && WellKeyed(r, defs[r.app])
    requires var c := BuildCapability(r, defs, targets);
             var ctx := DefinitionContext(defs[r.app], r.action, params);
             CapPermits(c, ctx) && NonBlank(c, ctx)
    ensures PinsMet(BuildCapability(r, defs, targets), params)
  {
    var ps := defs[r.app].actions[r.action].parameters;
    var c := BuildCapability(r, defs, targets);
    forall i | 0 <= i < |c.params| && c.params[i].pinned
      ensures var v := Strings.TrimSpace(Get(params, c.params[i].name));
              v != "" && Policy.CanonicalConstraintValue(v) == Policy.CanonicalConstraintValue(c.params[i].fixed)
    {
      ContextAt(ps, params, i);
      BuiltParam(r, defs, targets, i);
      assert !Free(c.params[i]);
    }
  }

  lemma BuiltParam(r: Policy.Rule, defs: map<string, Definition>, targets: seq<Target>, i: nat)
    requires r.app in defs && r.action in defs[r.app].actions && i < |defs[r.app].actions[r.action].parameters|
    ensures var c, p := BuildCapability(r, defs, targets), defs[r.app].actions[r.action].parameters[i];
            && |c.params| == |defs[r.app].actions[r.action].parameters|
            && c.params[i].name == p.name && ParamKey(c.params[i]) == KeyOf(p)
            && (c.params[i].pinned ==> KeyOf(p) in r.constraints && c.params[i].fixed == r.constraints[KeyOf(p)])
  {
  }
}
