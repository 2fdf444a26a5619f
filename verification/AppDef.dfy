/** App definitions: the actions an app offers, their parameters, and the policy context. */
module AppDef {
  import opened Strings

  datatype Parameter = Parameter(name: string, required: bool, policyKey: string, constraint: string)

  datatype Action = Action(parameters: seq<Parameter>, command: string, script: string, rootApplied: bool)

  datatype Definition = Definition(name: string, executor: string, securityMode: string,
                                   actions: map<string, Action>, bundled: bool, rootApplied: bool)

  type Params = map<string, string>

  /** A missing map entry reads as the empty string. */
  function Get(m: Params, k: string): string {
    if k in m then m[k] else ""
  }

  /** The key a parameter is known under in policies and passports. */
  function KeyOf(p: Parameter): string {
    if p.policyKey == "" then p.name else p.policyKey
  }

  /** The policy context: each non-blank argument, trimmed, under its key; later ones win. */
  function ContextOf(ps: seq<Parameter>, params: Params): Params
    decreases |ps|
  {
    if ps == [] then map[]
    else
      var m := ContextOf(ps[..|ps| - 1], params);
      var p := ps[|ps| - 1];
      var value := TrimSpace(Get(params, p.name));
      if value != "" then m[KeyOf(p) := value] else m
  }

  method PolicyContext(a: Action, params: Params) returns (context: Params)
    ensures context == ContextOf(a.parameters, params)
    ensures forall k :: k in context ==> context[k] != ""
  {
    context := map[];
    var ps := a.parameters;
    for i := 0 to |ps|
      invariant context == ContextOf(ps[..i], params)
    {
      assert ps[..i + 1][..i] == ps[..i];
      var value := TrimSpace(Get(params, ps[i].name));
      if value != "" {
        context := context[KeyOf(ps[i]) := value];
      }
    }
    assert ps[..|ps|] == ps;
    ContextHasNoBlanks(ps, params);
  }

  lemma {:induction false} ContextHasNoBlanks(ps: seq<Parameter>, params: Params)
    ensures forall k :: k in ContextOf(ps, params) ==> ContextOf(ps, params)[k] != ""
    decreases |ps|
  {
    if ps != [] {
      ContextHasNoBlanks(ps[..|ps| - 1], params);
    }
  }

  predicate DistinctKeys(ps: seq<Parameter>) {
    forall i, j :: 0 <= i < j < |ps| ==> KeyOf(ps[i]) != KeyOf(ps[j])
  }

  /** With distinct keys the context holds, for every parameter, exactly its trimmed value. */
  lemma {:induction false} ContextAt(ps: seq<Parameter>, params: Params, i: nat)
    requires DistinctKeys(ps) && i < |ps|
    ensures Get(ContextOf(ps, params), KeyOf(ps[i])) == TrimSpace(Get(params, ps[i].name))
    ensures KeyOf(ps[i]) == if ps[i].policyKey == "" then ps[i].name else ps[i].policyKey
    decreases |ps|
  {
    var n := |ps| - 1;
    if i < n {
      ContextAt(ps[..n], params, i);
    } else {
      ContextKeys(ps[..n], params);
    }
  }

  /** Parameter `i` provides the context value of key `k`: it is given and no later one of that key is. */
  predicate Provides(ps: seq<Parameter>, params: Params, i: nat, k: string) {
    && i < |ps| && (if ps[i].policyKey == "" then ps[i].name else ps[i].policyKey) == k
    && ps[i].name in params && TrimSpace(params[ps[i].name]) != ""
    && forall j :: i < j < |ps| && (if ps[j].policyKey == "" then ps[j].name else ps[j].policyKey) == k ==>
         TrimSpace(Get(params, ps[j].name)) == ""
  }

  /** A key is in the context exactly when some parameter provides it, with that argument, trimmed, as its value. */
  lemma {:induction false} ContextExactly(ps: seq<Parameter>, params: Params, k: string)
    ensures k in ContextOf(ps, params) <==> exists i: nat :: Provides(ps, params, i, k)
    ensures forall i: nat :: Provides(ps, params, i, k) ==> ContextOf(ps, params)[k] == TrimSpace(params[ps[i].name])
    decreases |ps|
  {
    if ps != [] {
      var n := |ps| - 1;
      var front := ps[..n];
      ContextExactly(front, params, k);
      assert TrimSpace("") == "";
      if (if ps[n].policyKey == "" then ps[n].name else ps[n].policyKey) == k && TrimSpace(Get(params, ps[n].name)) != "" {
        assert Provides(ps, params, n, k);
        assert forall i: nat :: Provides(ps, params, i, k) ==> i == n;
      } else {
        forall i: nat ensures Provides(ps, params, i, k) <==> i < n && Provides(front, params, i, k) {
          ProvidesFront(ps, params, i, k);
        }
        if k in ContextOf(front, params) {
          var i: nat :| Provides(front, params, i, k);
          assert Provides(ps, params, i, k);
        }
      }
    }
  }

  lemma ProvidesFront(ps: seq<Parameter>, params: Params, i: nat, k: string)
    requires ps != []
    requires var p := ps[|ps| - 1];
             (if p.policyKey == "" then p.name else p.policyKey) != k || TrimSpace(Get(params, p.name)) == ""
    ensures Provides(ps, params, i, k) <==> i < |ps| - 1 && Provides(ps[..|ps| - 1], params, i, k)
  {
    var n := |ps| - 1;
    var front := ps[..n];
    assert forall j :: 0 <= j < n ==> front[j] == ps[j];
    if i < n && Provides(front, params, i, k) {
      forall j | i < j < |ps| && (if ps[j].policyKey == "" then ps[j].name else ps[j].policyKey) == k
        ensures TrimSpace(Get(params, ps[j].name)) == ""
      {
        assert j < n ==> front[j] == ps[j];
      }
    }
    if Provides(ps, params, i, k) {
      forall j | i < j < n && (if front[j].policyKey == "" then front[j].name else front[j].policyKey) == k
        ensures TrimSpace(Get(params, front[j].name)) == ""
      {
        assert front[j] == ps[j];
      }
    }
  }

  lemma {:induction false} ContextKeys(ps: seq<Parameter>, params: Params)
    ensures forall k :: k in ContextOf(ps, params) ==> exists i :: 0 <= i < |ps| && KeyOf(ps[i]) == k
    decreases |ps|
  {
    if ps != [] {
      var n := |ps| - 1;
      ContextKeys(ps[..n], params);
      forall k | k in ContextOf(ps, params) ensures exists i :: 0 <= i < |ps| && KeyOf(ps[i]) == k {
        if k in ContextOf(ps[..n], params) {
          var i :| 0 <= i < n && KeyOf(ps[..n][i]) == k;
          assert KeyOf(ps[i]) == k;
        } else {
          assert KeyOf(ps[n]) == k;
        }
      }
    }
  }

  function DefinitionContext(def: Definition, action: string, params: Params): Params {
    if action !in def.actions || def.securityMode == "passthrough" then map[]
    else ContextOf(def.actions[action].parameters, params)
  }

  /** The flags of exactly the required parameters left blank, in order of declaration. */
  method MissingRequired(ps: seq<Parameter>, values: Params) returns (missing: seq<string>)
    ensures missing == MissingFlags(ps, values)
    ensures forall i :: 0 <= i < |ps| && IsMissing(ps[i], values) ==> "--" + ps[i].name in missing
    ensures forall m :: m in missing ==> exists i :: 0 <= i < |ps| && IsMissing(ps[i], values) && m == "--" + ps[i].name
    ensures missing == [] <==> forall i :: 0 <= i < |ps| && ps[i].required ==> TrimSpace(Get(values, ps[i].name)) != ""
  {
    missing := [];
    for i := 0 to |ps|
      invariant missing == MissingFlags(ps[..i], values)
      invariant forall k :: 0 <= k < i && IsMissing(ps[k], values) ==> "--" + ps[k].name in missing
      invariant forall m :: m in missing ==> exists k :: 0 <= k < i && IsMissing(ps[k], values) && m == "--" + ps[k].name
    {
      assert ps[..i + 1][..i] == ps[..i];
      if ps[i].required && TrimSpace(Get(values, ps[i].name)) == "" {
        missing := missing + ["--" + ps[i].name];
      }
    }
    assert ps[..|ps|] == ps;
    assert missing != [] ==> missing[0] in missing;
  }

  predicate IsMissing(p: Parameter, values: Params) {
    p.required && TrimSpace(Get(values, p.name)) == ""
  }

  function MissingFlags(ps: seq<Parameter>, values: Params): seq<string>
    decreases |ps|
  {
    if ps == [] then []
    else
      var front, p := MissingFlags(ps[..|ps| - 1], values), ps[|ps| - 1];
      if IsMissing(p, values) then front + ["--" + p.name] else front
  }
}
