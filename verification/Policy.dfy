/** Policy evaluation: deny-overrides over rules that name principals, actions and constraints. */
module Policy {
  import opened Wrappers
  import opened AppDef
  import Strings
  import Paths

  datatype Rule = Rule(effect: string, agent: string, user: string, groups: seq<string>,
                       app: string, action: string, constraints: Params)

  datatype Principal = Principal(agent: string, user: string, groups: seq<string>)

  datatype Decision = Decision(allowed: bool, reason: string, rule: Option<Rule>)

  /** Path-shaped values are compared in their cleaned form. */
  function CanonicalConstraintValue(v: string): string {
    if Paths.IsAbs(v) then Paths.Clean(v) else v
  }

  predicate MatchesPrincipal(r: Rule, p: Principal) {
    && (r.agent == "" || r.agent == p.agent)
    && (r.user == "" || r.user == p.user)
    && (r.groups == [] || exists i :: 0 <= i < |r.groups| && r.groups[i] in p.groups)
  }

  predicate Matches(constraints: Params, context: Params) {
    forall k | k in constraints ::
      k in context && CanonicalConstraintValue(context[k]) == CanonicalConstraintValue(constraints[k])
  }

  predicate Applies(r: Rule, app: string, action: string, p: Principal, context: Params) {
    r.app == app && r.action == action && MatchesPrincipal(r, p) && Matches(r.constraints, context)
  }

  /** The meaning of a policy: some allow rule applies and no deny rule does. */
  predicate Authorized(rules: seq<Rule>, def: Definition, action: string, p: Principal, params: Params) {
    var context := DefinitionContext(def, action, params);
    && action in def.actions
    && (exists r | r in rules :: r.effect == "allow" && Applies(r, def.name, action, p, context))
    && !(exists r | r in rules :: r.effect == "deny" && Applies(r, def.name, action, p, context))
  }

  /**
   One pass over the rules: the first applicable deny ends it, the first applicable allow is
   remembered.  The answer is exactly the order-free meaning, and the rule reported is the
   earliest one of the deciding effect.
   */
  method Evaluate(rules: seq<Rule>, def: Definition, action: string, p: Principal, params: Params)
    returns (d: Decision)
    ensures d.allowed <==> Authorized(rules, def, action, p, params)
    ensures d.rule.Some? ==>
              exists i :: 0 <= i < |rules| && d.rule == Some(rules[i])
                          && rules[i].effect == (if d.allowed then "allow" else "deny")
                          && Applies(rules[i], def.name, action, p, DefinitionContext(def, action, params))
                          && forall k :: 0 <= k < i && rules[k].effect == rules[i].effect ==>
                               !Applies(rules[k], def.name, action, p, DefinitionContext(def, action, params))
    ensures d.allowed ==> d.rule.Some? && d.reason == "allowed by matching policy rule"
    ensures !d.allowed && d.rule.Some? ==> d.reason == "denied by matching policy rule"
    ensures !d.allowed && d.rule.None? ==>
              && (d.reason == if action in def.actions then "no matching allow rule" else "unknown action")
              && (action in def.actions ==> forall r :: r in rules && r.effect in {"allow", "deny"} ==>
                    !Applies(r, def.name, action, p, DefinitionContext(def, action, params)))
  {
    if action !in def.actions {
      return Decision(false, "unknown action", None);
    }
    var context := DefinitionContext(def, action, params);
    var matchedAllow: Option<Rule> := None;
    for i := 0 to |rules|
      invariant forall k :: 0 <= k < i && rules[k].effect == "deny" ==> !Applies(rules[k], def.name, action, p, context)
      invariant matchedAllow.None? ==>
                  forall k :: 0 <= k < i && rules[k].effect == "allow" ==> !Applies(rules[k], def.name, action, p, context)
      invariant matchedAllow.Some? ==>
                  exists j :: 0 <= j < i && matchedAllow == Some(rules[j]) && rules[j].effect == "allow"
                              && Applies(rules[j], def.name, action, p, context)
                              && forall k :: 0 <= k < j && rules[k].effect == "allow" ==>
                                   !Applies(rules[k], def.name, action, p, context)
    {
      var r := rules[i];
      if !Applies(r, def.name, action, p, context) {
        continue;
      }
      if r.effect == "deny" {
        return Decision(false, "denied by matching policy rule", Some(r));
      }
      if r.effect == "allow" && matchedAllow.None? {
        matchedAllow := Some(r);
      }
    }
    if matchedAllow.Some? {
      return Decision(true, "allowed by matching policy rule", matchedAllow);
    }
    d := Decision(false, "no matching allow rule", None);
  }

  /** The same text, or two absolute paths to the same place. */
  predicate SameValue(x: string, y: string) {
    x == y || (Paths.IsAbs(x) && Paths.IsAbs(y) && Paths.Components(x) == Paths.Components(y))
  }

  lemma CanonicalExactly(x: string, y: string)
    ensures CanonicalConstraintValue(x) == CanonicalConstraintValue(y) <==> SameValue(x, y)
  {
    if Paths.IsAbs(x) {
      Paths.CleanKeepsMeaning(x);
    }
    if Paths.IsAbs(y) {
      Paths.CleanKeepsMeaning(y);
    }
  }

  /** Who a rule is for: each of the selectors it sets must fit, and one of its groups is enough. */
  predicate IsFor(r: Rule, p: Principal) {
    && r.agent in {"", p.agent} && r.user in {"", p.user}
    && (|r.groups| == 0 || exists g :: g in r.groups && g in p.groups)
  }

  /** The argument a constraint key stands for is given and says the same as the constraint. */
  ghost predicate ArgumentMeets(ps: seq<Parameter>, params: Params, k: string, wanted: string) {
    exists i: nat :: Provides(ps, params, i, k) && SameValue(Strings.TrimSpace(params[ps[i].name]), wanted)
  }

  lemma ContextMeets(ps: seq<Parameter>, params: Params, k: string, wanted: string)
    ensures var context := ContextOf(ps, params);
            ArgumentMeets(ps, params, k, wanted) <==> k in context && SameValue(context[k], wanted)
  {
    ContextExactly(ps, params, k);
    if k in ContextOf(ps, params) {
      var i: nat :| Provides(ps, params, i, k);
    }
  }

  /**
   When a rule applies to a request, told from the request's own arguments: verb and principal
   fit, and every constrained key is a declared parameter with an argument that is not blank and
   means the constrained value.  A passthrough app hides its arguments, so there only rules
   without constraints apply.
   */
  lemma AppliesExactly(r: Rule, def: Definition, action: string, p: Principal, params: Params)
    requires action in def.actions
    ensures Applies(r, def.name, action, p, DefinitionContext(def, action, params))
            <==> && r.app == def.name && r.action == action && IsFor(r, p)
                 && forall k :: k in r.constraints ==>
                      && def.securityMode != "passthrough"
                      && ArgumentMeets(def.actions[action].parameters, params, k, r.constraints[k])
  {
    var ps := def.actions[action].parameters;
    PrincipalFits(r, p);
    forall k | k in r.constraints
      ensures ArgumentMeets(ps, params, k, r.constraints[k])
              <==> k in ContextOf(ps, params)
                   && CanonicalConstraintValue(ContextOf(ps, params)[k]) == CanonicalConstraintValue(r.constraints[k])
    {
      ContextMeets(ps, params, k, r.constraints[k]);
      if k in ContextOf(ps, params) {
        CanonicalExactly(ContextOf(ps, params)[k], r.constraints[k]);
      }
    }
  }

  lemma PrincipalFits(r: Rule, p: Principal)
    ensures MatchesPrincipal(r, p) <==> IsFor(r, p)
  {
  }

  /** Only which rules are present matters, not their order or repetition. */
  lemma OrderIsIrrelevant(rules: seq<Rule>, others: seq<Rule>, def: Definition, action: string, p: Principal, params: Params)
    requires forall r :: r in rules <==> r in others
    ensures Authorized(rules, def, action, p, params) == Authorized(others, def, action, p, params)
  {
  }

  /** Inserting deny rules anywhere never grants, and removing allow rules never grants. */
  lemma DenyNeverGrants(rules: seq<Rule>, more: seq<Rule>, def: Definition, action: string, p: Principal, params: Params)
    requires forall r :: r in rules && r.effect == "deny" ==> r in more
    requires forall r :: r in more && r.effect == "allow" ==> r in rules
    requires Authorized(more, def, action, p, params)
    ensures Authorized(rules, def, action, p, params)
  {
  }

  // ---- spelling ----

  /** Two assignments that differ only in how absolute paths are spelled. */
  predicate SameMeaning(ps: seq<Parameter>, a: Params, b: Params) {
    forall i :: 0 <= i < |ps| ==>
      var x, y := Strings.TrimSpace(Get(a, ps[i].name)), Strings.TrimSpace(Get(b, ps[i].name));
      x == y || (Paths.IsAbs(x) && Paths.IsAbs(y) && Paths.Components(x) == Paths.Components(y))
  }

  predicate SameContext(c: Params, d: Params) {
    c.Keys == d.Keys
    && forall k :: k in c ==> CanonicalConstraintValue(c[k]) == CanonicalConstraintValue(d[k])
  }

  lemma {:induction false} RespelledContext(ps: seq<Parameter>, a: Params, b: Params)
    requires SameMeaning(ps, a, b)
    ensures SameContext(ContextOf(ps, a), ContextOf(ps, b))
    decreases |ps|
  {
    if ps != [] {
      var n := |ps| - 1;
      assert SameMeaning(ps[..n], a, b) by {
        assert forall i :: 0 <= i < n ==> ps[..n][i] == ps[i];
      }
      RespelledContext(ps[..n], a, b);
      var x, y := Strings.TrimSpace(Get(a, ps[n].name)), Strings.TrimSpace(Get(b, ps[n].name));
      if x != y {
        Paths.CleanIsCanonical(x, y);
      }
    }
  }

  /** Respelling an absolute path argument never changes what the policy answers. */
  lemma RespellingIsIrrelevant(rules: seq<Rule>, def: Definition, action: string, p: Principal, a: Params, b: Params)
    requires action in def.actions && SameMeaning(def.actions[action].parameters, a, b)
    ensures Authorized(rules, def, action, p, a) == Authorized(rules, def, action, p, b)
  {
    RespelledContext(def.actions[action].parameters, a, b);
    var c, d := DefinitionContext(def, action, a), DefinitionContext(def, action, b);
    forall r | r in rules ensures Applies(r, def.name, action, p, c) == Applies(r, def.name, action, p, d) {
      assert Matches(r.constraints, c) == Matches(r.constraints, d);
    }
  }

  // ---- editing the stored rules ----

  /** Map equality as the program tests it: equal sizes, and every entry found on the other side. */
  predicate ConstraintsEqual(a: Params, b: Params) {
    |a| == |b| && forall k | k in a :: Get(b, k) == a[k]
  }

  /** Every element of `a` is struck off by one of `b`, and none of `b` is left over. */
  predicate EqualStringSets(remaining: set<string>, b: seq<string>)
    decreases |b|
  {
    if b == [] then remaining == {} else b[0] in remaining && EqualStringSets(remaining - {b[0]}, b[1..])
  }

  predicate RulesEqual(a: Rule, b: Rule) {
    && a.effect == b.effect && a.agent == b.agent && a.user == b.user && a.app == b.app && a.action == b.action
    && EqualStringSets((set g | g in a.groups), b.groups)
    && ConstraintsEqual(a.constraints, b.constraints)
  }

  method AddRule(rules: seq<Rule>, rule: Rule) returns (out: seq<Rule>, added: bool)
    ensures added <==> forall i :: 0 <= i < |rules| ==> !RulesEqual(rules[i], rule)
    ensures out == if added then rules + [rule] else rules
    ensures out == WithRule(rules, rule)
  {
    for i := 0 to |rules|
      invariant forall k :: 0 <= k < i ==> !RulesEqual(rules[k], rule)
    {
      if RulesEqual(rules[i], rule) {
        return rules, false;
      }
    }
    return rules + [rule], true;
  }

  lemma {:induction false} EqualSetsMeaning(remaining: set<string>, b: seq<string>)
    requires EqualStringSets(remaining, b)
    ensures remaining == set g | g in b
    decreases |b|
  {
    if b != [] {
      EqualSetsMeaning(remaining - {b[0]}, b[1..]);
      assert b == [b[0]] + b[1..];
      assert remaining == (remaining - {b[0]}) + {b[0]};
      assert (set g | g in b) == (set g | g in b[1..]) + {b[0]};
    }
  }

  predicate NoBlankConstraint(r: Rule) {
    forall k :: k in r.constraints ==> r.constraints[k] != ""
  }

  lemma EqualConstraintMaps(a: Params, b: Params)
    requires ConstraintsEqual(a, b) && forall k :: k in a ==> a[k] != ""
    ensures a == b
  {
    assert a.Keys <= b.Keys;
    SameSizeSubset(a.Keys, b.Keys);
  }

  lemma {:induction false} SameSizeSubset<T>(a: set<T>, b: set<T>)
    requires a <= b && |a| == |b|
    ensures a == b
    decreases |a|
  {
    if a != {} {
      var x :| x in a;
      SameSizeSubset(a - {x}, b - {x});
      assert a == (a - {x}) + {x} && b == (b - {x}) + {x};
    }
  }

  /** Contexts hold no blank values. */
  predicate NonBlankValues(context: Params) {
    forall k :: k in context ==> context[k] != ""
  }

  /** A rule with a blank constraint applies to nothing. */
  lemma BlankNeverMatches(r: Rule, context: Params)
    requires !NoBlankConstraint(r) && NonBlankValues(context)
    ensures !Matches(r.constraints, context)
  {
    var k :| k in r.constraints && r.constraints[k] == "";
    if k in context {
      CanonicalNotBlank(context[k]);
    }
  }

  lemma CanonicalNotBlank(v: string)
    requires v != ""
    ensures CanonicalConstraintValue(v) != ""
  {
    if Paths.IsAbs(v) {
      Paths.CleanKeepsMeaning(v);
    }
  }

  /** Whether finding the stored rule in place of the new one is harmless. */
  predicate Interchangeable(stored: Rule, rule: Rule) {
    NoBlankConstraint(stored) || !NoBlankConstraint(rule)
  }

  lemma EqualRulesApplyAlike(a: Rule, b: Rule, app: string, action: string, p: Principal, context: Params)
    requires RulesEqual(a, b) && Interchangeable(a, b) && NonBlankValues(context)
    ensures Applies(a, app, action, p, context) == Applies(b, app, action, p, context)
  {
    if NoBlankConstraint(a) {
      EqualConstraintMaps(a.constraints, b.constraints);
    } else {
      BlankNeverMatches(a, context);
      BlankNeverMatches(b, context);
    }
    SamePrincipals(a, b, p);
  }

  lemma SamePrincipals(a: Rule, b: Rule, p: Principal)
    requires RulesEqual(a, b)
    ensures MatchesPrincipal(a, p) == MatchesPrincipal(b, p)
  {
    EqualSetsMeaning((set g | g in a.groups), b.groups);
    if MatchesPrincipal(a, p) {
      GroupsMatch(a, b, p);
    }
    if MatchesPrincipal(b, p) {
      GroupsMatch(b, a, p);
    }
  }

  /**
   Two rules the program finds equal apply to the same requests exactly when the stored one
   has no blank constraint value, or the other one has one too.
   */
  lemma EqualRulesAgreeExactly(a: Rule, b: Rule)
    requires RulesEqual(a, b)
    ensures (forall p, context :: NonBlankValues(context) ==>
               Applies(a, a.app, a.action, p, context) == Applies(b, a.app, a.action, p, context))
            <==> Interchangeable(a, b)
  {
    if Interchangeable(a, b) {
      forall p, context | NonBlankValues(context)
        ensures Applies(a, a.app, a.action, p, context) == Applies(b, a.app, a.action, p, context)
      {
        EqualRulesApplyAlike(a, b, a.app, a.action, p, context);
      }
    } else {
      var p := Principal(b.agent, b.user, b.groups);
      BlankNeverMatches(a, b.constraints);
      assert NonBlankValues(b.constraints);
      assert MatchesPrincipal(b, p) by {
        assert b.groups != [] ==> b.groups[0] in p.groups;
      }
      assert Applies(b, a.app, a.action, p, b.constraints) && !Applies(a, a.app, a.action, p, b.constraints);
    }
  }

  lemma GroupsMatch(a: Rule, b: Rule, p: Principal)
    requires (set g | g in a.groups) == (set g | g in b.groups)
    requires a.agent == b.agent && a.user == b.user && MatchesPrincipal(a, p)
    ensures MatchesPrincipal(b, p)
  {
    var ga, gb := set g | g in a.groups, set g | g in b.groups;
    if b.groups != [] {
      assert b.groups[0] in gb;
      assert b.groups[0] in ga;
      var i :| 0 <= i < |a.groups| && a.groups[i] in p.groups;
      assert a.groups[i] in ga;
      assert a.groups[i] in gb;
    }
  }

  /**
   Adding a rule decides every request as if the rule had been appended, whether or not it
   was found to be stored already, provided every stored rule found equal is interchangeable.
   */
  lemma AddRuleDecidesAsAppended(rules: seq<Rule>, rule: Rule, out: seq<Rule>, def: Definition, action: string,
                                 p: Principal, params: Params)
    requires forall i :: 0 <= i < |rules| && RulesEqual(rules[i], rule) ==> Interchangeable(rules[i], rule)
    requires out == rules + [rule]
             || (out == rules && exists i :: 0 <= i < |rules| && RulesEqual(rules[i], rule))
    ensures Authorized(out, def, action, p, params) == Authorized(rules + [rule], def, action, p, params)
  {
    if out == rules && out != rules + [rule] {
      var i :| 0 <= i < |rules| && RulesEqual(rules[i], rule);
      var context := DefinitionContext(def, action, params);
      if action in def.actions {
        ContextHasNoBlanks(def.actions[action].parameters, params);
      }
      EqualRulesApplyAlike(rules[i], rule, def.name, action, p, context);
      assert rules[i] in rules;
      assert forall r :: r in rules + [rule] <==> r in rules || r == rule;
    }
  }

  predicate DistinctGroups(r: Rule) {
    forall i, j :: 0 <= i < j < |r.groups| ==> r.groups[i] != r.groups[j]
  }

  lemma {:induction false} StrikesOffExactly(remaining: set<string>, b: seq<string>)
    requires remaining == set g | g in b
    ensures EqualStringSets(remaining, b) <==> forall i, j :: 0 <= i < j < |b| ==> b[i] != b[j]
    decreases |b|
  {
    if b != [] {
      var rest := b[1..];
      assert b == [b[0]] + rest;
      if b[0] in rest {
        var j :| 0 <= j < |rest| && rest[j] == b[0];
        assert b[j + 1] == b[0];
        if EqualStringSets(remaining, b) {
          EqualSetsMeaning(remaining - {b[0]}, rest);
        }
      } else {
        assert remaining - {b[0]} == set g | g in rest;
        StrikesOffExactly(remaining - {b[0]}, rest);
        assert forall i :: 0 <= i < |rest| ==> rest[i] == b[i + 1] && rest[i] != b[0];
      }
    }
  }

  /**
   Which rules count as equal: the five fields agree, both name the same groups in any order, the
   second one none of them twice, and as many constraints agree, an absent one passing for a blank.
   */
  lemma RulesEqualExactly(a: Rule, b: Rule)
    ensures RulesEqual(a, b)
            <==> && a.effect == b.effect && a.agent == b.agent && a.user == b.user && a.app == b.app && a.action == b.action
                 && (forall g :: g in a.groups <==> g in b.groups) && DistinctGroups(b)
                 && |a.constraints| == |b.constraints|
                 && (forall k :: k in a.constraints ==>
                       if k in b.constraints then b.constraints[k] == a.constraints[k] else a.constraints[k] == "")
  {
    var ga, gb := set g | g in a.groups, set g | g in b.groups;
    assert (forall g :: g in a.groups <==> g in b.groups) <==> ga == gb by {
      assert forall g :: g in ga <==> g in a.groups;
      assert forall g :: g in gb <==> g in b.groups;
    }
    if EqualStringSets(ga, b.groups) {
      EqualSetsMeaning(ga, b.groups);
    }
    if ga == gb {
      StrikesOffExactly(ga, b.groups);
    }
  }

  /** A rule is found equal to itself exactly when it lists no group twice. */
  lemma EqualToItselfExactly(r: Rule)
    ensures RulesEqual(r, r) <==> DistinctGroups(r)
  {
    StrikesOffExactly((set g | g in r.groups), r.groups);
  }

  predicate Stored(rules: seq<Rule>, rule: Rule) {
    exists i :: 0 <= i < |rules| && RulesEqual(rules[i], rule)
  }

  /** What is stored after adding a rule. */
  function WithRule(rules: seq<Rule>, rule: Rule): seq<Rule> {
    if Stored(rules, rule) then rules else rules + [rule]
  }

  /** Adding a rule a second time changes nothing exactly when it was there before or lists no group twice. */
  lemma AddingTwiceExactly(rules: seq<Rule>, rule: Rule)
    ensures WithRule(WithRule(rules, rule), rule) == WithRule(rules, rule) <==> Stored(rules, rule) || DistinctGroups(rule)
  {
    EqualToItselfExactly(rule);
    if !Stored(rules, rule) {
      var once := rules + [rule];
      assert once[|rules|] == rule;
      if Stored(once, rule) {
        var i :| 0 <= i < |once| && RulesEqual(once[i], rule);
        assert i < |rules| ==> once[i] == rules[i];
      }
    }
  }

  /** The context of an action with a single parameter. */
  lemma SingleContext(p: Parameter, params: Params)
    ensures var value := Strings.TrimSpace(Get(params, p.name));
            ContextOf([p], params) == if value != "" then map[KeyOf(p) := value] else map[]
  {
    assert [p][..0] == [];
    assert ContextOf([p][..0], params) == map[];
  }

  /** A stored rule with a blank constraint can hide a different, effective rule from being added. */
  lemma BlankConstraintHidesRule(stored: Rule, rule: Rule, def: Definition, p: Principal, params: Params)
    requires stored == Rule("allow", "a", "", [], "ssh", "run", map["x" := ""])
    requires rule == stored.(constraints := map["host" := "h"])
    requires def == Definition("ssh", "ssh", "protected",
                               map["run" := Action([Parameter("host", false, "", "")], "c", "", false)], true, false)
    requires p == Principal("a", "", []) && params == map["host" := "h"]
    ensures RulesEqual(stored, rule)
    ensures Authorized([stored, rule], def, "run", p, params) && !Authorized([stored], def, "run", p, params)
  {
    assert (set g | g in stored.groups) == {};
    assert |stored.constraints| == |map["x" := ""]| == 1 && |rule.constraints| == 1;
    var param := Parameter("host", false, "", "");
    SingleContext(param, params);
    assert Strings.TrimLeft("h") == "h" && Strings.TrimRight("h") == "h";
    var context := DefinitionContext(def, "run", params);
    assert context == map["host" := "h"];
    assert "x" in stored.constraints && !Matches(stored.constraints, context);
    assert Matches(rule.constraints, context);
    assert Applies(rule, "ssh", "run", p, context) && rule in [stored, rule];
  }
}
