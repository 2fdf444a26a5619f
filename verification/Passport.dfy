/**
 Delegation: the issue-time subset check, the scope a passport enforces on every reflected
 request, and the derivation of narrowed capabilities from the issuer's surface.
 */
module Passport {
  import opened Wrappers
  import opened AppDef

  datatype Param = Param(name: string, policyKey: string, required: bool, constraint: string,
                         pinned: bool, fixed: string, allowedValues: seq<string>)

  datatype Capability = Capability(app: string, action: string, params: seq<Param>)

  function ParamKey(p: Param): string {
    if p.policyKey != "" then p.policyKey else p.name
  }

  // ---- scope ----

  predicate Free(p: Param) {
    !p.pinned && p.allowedValues == []
  }

  /** Whether a passport parameter lets a context value through; "" stands for an absent one. */
  predicate Admits(p: Param, val: string) {
    if p.pinned then val == p.fixed
    else p.allowedValues != [] && val != "" ==> val in p.allowedValues
  }

  predicate CapPermits(c: Capability, ctx: Params) {
    forall i :: 0 <= i < |c.params| ==> Admits(c.params[i], Get(ctx, ParamKey(c.params[i])))
  }

  predicate SameVerb(c: Capability, d: Capability) {
    c.app == d.app && c.action == d.action
  }

  predicate InScope(caps: seq<Capability>, app: string, action: string, ctx: Params) {
    exists i :: 0 <= i < |caps| && caps[i].app == app && caps[i].action == action && CapPermits(caps[i], ctx)
  }

  method CheckCap(c: Capability, ctx: Params) returns (ok: bool, why: string)
    ensures ok <==> CapPermits(c, ctx)
    ensures ok ==> why == ""
  {
    for i := 0 to |c.params|
      invariant forall k :: 0 <= k < i ==> Admits(c.params[k], Get(ctx, ParamKey(c.params[k])))
    {
      var p := c.params[i];
      var val := Get(ctx, ParamKey(p));
      if p.pinned {
        if val != p.fixed {
          return false, "pinned: " + p.name;
        }
      } else if |p.allowedValues| > 0 {
        if val != "" && val !in p.allowedValues {
          return false, "not in the allowed set: " + p.name;
        }
      }
    }
    return true, "";
  }

  /** Same-verb capabilities form a union; anything else is out of scope. */
  method Permits(caps: seq<Capability>, app: string, action: string, ctx: Params) returns (ok: bool, reason: string)
    ensures ok <==> InScope(caps, app, action, ctx)
    ensures ok ==> reason == ""
  {
    reason := "verb is not in the passport scope";
    for i := 0 to |caps|
      invariant forall k :: 0 <= k < i && caps[k].app == app && caps[k].action == action ==> !CapPermits(caps[k], ctx)
    {
      if caps[i].app != app || caps[i].action != action {
        continue;
      }
      var good, why := CheckCap(caps[i], ctx);
      if good {
        return true, "";
      }
      reason := why;
    }
    ok := false;
  }

  // ---- subset ----

  function Allowed(p: Param): seq<string> {
    if p.pinned then [p.fixed] else p.allowedValues
  }

  /** Whether issuer parameter `ip` covers requested parameter `rp`. */
  predicate ParamCovers(ip: Param, rp: Param) {
    || Free(ip)
    || (rp.pinned && rp.fixed in Allowed(ip))
    || (!rp.pinned && rp.allowedValues != [] && forall v :: v in rp.allowedValues ==> v in Allowed(ip))
  }

  /** The issuer's parameters by key; of two with one key the later one counts. */
  function ByKey(ps: seq<Param>): map<string, Param>
    decreases |ps|
  {
    if ps == [] then map[] else ByKey(ps[..|ps| - 1])[ParamKey(ps[|ps| - 1]) := ps[|ps| - 1]]
  }

  predicate CoveredIn(byKey: map<string, Param>, rp: Param) {
    ParamKey(rp) in byKey && ParamCovers(byKey[ParamKey(rp)], rp)
  }

  predicate Covers(iss: Capability, req: Capability) {
    forall i :: 0 <= i < |req.params| ==> CoveredIn(ByKey(iss.params), req.params[i])
  }

  predicate InSurface(req: Capability, surface: seq<Capability>) {
    exists i :: 0 <= i < |surface| && SameVerb(surface[i], req) && Covers(surface[i], req)
  }

  predicate IsSubset(requested: seq<Capability>, surface: seq<Capability>) {
    forall i :: 0 <= i < |requested| ==> InSurface(requested[i], surface)
  }

  method CapCovers(iss: Capability, req: Capability) returns (ok: bool)
    ensures ok <==> Covers(iss, req)
  {
    var issByKey: map<string, Param> := map[];
    for i := 0 to |iss.params|
      invariant issByKey == ByKey(iss.params[..i])
    {
      assert iss.params[..i + 1][..i] == iss.params[..i];
      issByKey := issByKey[ParamKey(iss.params[i]) := iss.params[i]];
    }
    assert iss.params[..|iss.params|] == iss.params;
    for i := 0 to |req.params|
      invariant forall k :: 0 <= k < i ==> CoveredIn(issByKey, req.params[k])
    {
      if !CoveredIn(issByKey, req.params[i]) {
        return false;
      }
    }
    ok := true;
  }

  datatype Refusal = Accepted | TooBroad | UnknownVerb

  method CapInSurface(req: Capability, surface: seq<Capability>) returns (r: Refusal)
    ensures r == Accepted <==> InSurface(req, surface)
    ensures r == UnknownVerb <==> forall i :: 0 <= i < |surface| ==> !SameVerb(surface[i], req)
  {
    var matched := false;
    for i := 0 to |surface|
      invariant forall k :: 0 <= k < i && SameVerb(surface[k], req) ==> !Covers(surface[k], req)
      invariant !matched <==> forall k :: 0 <= k < i ==> !SameVerb(surface[k], req)
    {
      if !SameVerb(surface[i], req) {
        continue;
      }
      matched := true;
      var covers := CapCovers(surface[i], req);
      if covers {
        return Accepted;
      }
    }
    return if matched then TooBroad else UnknownVerb;
  }

  method Subset(requested: seq<Capability>, surface: seq<Capability>) returns (ok: bool, why: Refusal)
    ensures ok <==> IsSubset(requested, surface)
    ensures ok <==> why == Accepted
  {
    for i := 0 to |requested|
      invariant forall k :: 0 <= k < i ==> InSurface(requested[k], surface)
    {
      var r := CapInSurface(requested[i], surface);
      if r != Accepted {
        return false, r;
      }
    }
    return true, Accepted;
  }

  // ---- the subset order ----

  lemma {:induction false} ByKeyHolds(ps: seq<Param>)
    ensures forall k :: k in ByKey(ps) ==> ByKey(ps)[k] in ps && ParamKey(ByKey(ps)[k]) == k
    ensures forall i :: 0 <= i < |ps| ==> ParamKey(ps[i]) in ByKey(ps)
    decreases |ps|
  {
    if ps != [] {
      var n := |ps| - 1;
      ByKeyHolds(ps[..n]);
      assert ps == ps[..n] + [ps[n]];
    }
  }

  lemma ParamCoversTransitive(a: Param, b: Param, c: Param)
    requires ParamCovers(a, b) && ParamCovers(b, c)
    ensures ParamCovers(a, c)
  {
  }

  lemma CoversTransitive(a: Capability, b: Capability, c: Capability)
    requires Covers(a, b) && Covers(b, c)
    ensures Covers(a, c)
  {
    ByKeyHolds(b.params);
    forall i | 0 <= i < |c.params| ensures CoveredIn(ByKey(a.params), c.params[i]) {
      assert CoveredIn(ByKey(b.params), c.params[i]);
      var bp := ByKey(b.params)[ParamKey(c.params[i])];
      var j :| 0 <= j < |b.params| && b.params[j] == bp;
      assert CoveredIn(ByKey(a.params), b.params[j]);
      ParamCoversTransitive(ByKey(a.params)[ParamKey(bp)], bp, c.params[i]);
    }
  }

  /** Re-delegation can only narrow: a subset of a subset is a subset. */
  lemma SubsetTransitive(r: seq<Capability>, s: seq<Capability>, t: seq<Capability>)
    requires IsSubset(r, s) && IsSubset(s, t)
    ensures IsSubset(r, t)
  {
    forall i | 0 <= i < |r| ensures InSurface(r[i], t) {
      assert InSurface(r[i], s);
      var j :| 0 <= j < |s| && SameVerb(s[j], r[i]) && Covers(s[j], r[i]);
      assert InSurface(s[j], t);
      var k :| 0 <= k < |t| && SameVerb(t[k], s[j]) && Covers(t[k], s[j]);
      CoversTransitive(t[k], s[j], r[i]);
    }
  }

  predicate DistinctParams(ps: seq<Param>) {
    forall i, j :: 0 <= i < j < |ps| ==> ParamKey(ps[i]) != ParamKey(ps[j])
  }

  lemma {:induction false} ByKeyDistinct(ps: seq<Param>, i: nat)
    requires DistinctParams(ps) && i < |ps|
    ensures ParamKey(ps[i]) in ByKey(ps) && ByKey(ps)[ParamKey(ps[i])] == ps[i]
    decreases |ps|
  {
    var n := |ps| - 1;
    if i < n {
      ByKeyDistinct(ps[..n], i);
    }
  }

  lemma CoversItself(c: Capability)
    requires DistinctParams(c.params)
    ensures SameVerb(c, c) && Covers(c, c)
  {
    forall j | 0 <= j < |c.params| ensures CoveredIn(ByKey(c.params), c.params[j]) {
      ByKeyDistinct(c.params, j);
      assert ParamCovers(c.params[j], c.params[j]);
    }
  }

  /** An issuer can delegate exactly what it holds when parameter keys are distinct. */
  lemma SubsetReflexive(s: seq<Capability>)
    requires forall i :: 0 <= i < |s| ==> DistinctParams(s[i].params)
    ensures IsSubset(s, s)
  {
    forall i | 0 <= i < |s| ensures InSurface(s[i], s) {
      CoversItself(s[i]);
    }
  }

  // ---- what the subset check means for requests ----

  /** Everything `rp` lets through, `ip` lets through; written out on the two constraints. */
  predicate Tight(ip: Param, rp: Param) {
    || Free(ip)
    || (rp.pinned && Admits(ip, rp.fixed))
    || (!rp.pinned && rp.allowedValues != [] && Admits(ip, "") && forall v :: v in rp.allowedValues ==> Admits(ip, v))
  }

  /** A value outside the given ones. */
  function Other(vs: seq<string>): (r: string)
    ensures r !in vs && r != ""
  {
    var n := Longest(vs);
    seq(n + 1, i => 'x')
  }

  function Longest(vs: seq<string>): (n: nat)
    ensures forall v :: v in vs ==> |v| <= n
  {
    if vs == [] then 0
    else
      var m := Longest(vs[1..]);
      assert forall v :: v in vs ==> v == vs[0] || v in vs[1..];
      if |vs[0]| > m then |vs[0]| else m
  }

  lemma TightMeaning(ip: Param, rp: Param)
    ensures Tight(ip, rp) <==> forall v :: Admits(rp, v) ==> Admits(ip, v)
  {
    if !Tight(ip, rp) {
      if rp.pinned {
        assert Admits(rp, rp.fixed) && !Admits(ip, rp.fixed);
      } else if rp.allowedValues == [] {
        var v := Other(Allowed(ip));
        assert Admits(rp, v) && !Admits(ip, v);
      } else if !Admits(ip, "") {
        assert Admits(rp, "");
      } else {
        var v :| v in rp.allowedValues && !Admits(ip, v);
        assert Admits(rp, v);
      }
    }
  }

  /** A blank among the values a parameter is pinned to or lists. */
  predicate NamesBlank(p: Param) {
    if p.pinned then p.fixed == "" else "" in p.allowedValues
  }

  /**
   The check on one parameter, exactly: it accepts when every value the request lets through
   passes the issuer's parameter, and a blank the request names is one the issuer names.
   */
  lemma ParamCoversExactly(ip: Param, rp: Param)
    ensures ParamCovers(ip, rp)
            <==> && (forall v :: v != "" && Admits(rp, v) ==> Admits(ip, v))
                 && (NamesBlank(rp) ==> (!ip.pinned && ip.allowedValues == []) || NamesBlank(ip))
    ensures !NamesBlank(rp) ==> (ParamCovers(ip, rp) <==> forall v :: v != "" && Admits(rp, v) ==> Admits(ip, v))
  {
    if !ParamCovers(ip, rp) {
      var v := if rp.pinned then rp.fixed else if rp.allowedValues == [] then Other(Allowed(ip))
               else Outside(rp.allowedValues, Allowed(ip));
      assert v == "" || (Admits(rp, v) && !Admits(ip, v));
    }
  }

  /** The first value of `vs` that is not in `allowed`. */
  function Outside(vs: seq<string>, allowed: seq<string>): (v: string)
    requires exists v :: v in vs && v !in allowed
    ensures v in vs && v !in allowed
  {
    if vs[0] !in allowed then vs[0] else Outside(vs[1..], allowed)
  }

  /** A context with a value for every parameter of the capability. */
  predicate GivesAll(c: Capability, ctx: Params) {
    forall i :: 0 <= i < |c.params| ==> Get(ctx, ParamKey(c.params[i])) != ""
  }

  predicate NamesNoBlank(c: Capability) {
    forall i :: 0 <= i < |c.params| ==> !NamesBlank(c.params[i])
  }

  predicate Declares(iss: Capability, key: string) {
    exists i :: 0 <= i < |iss.params| && ParamKey(iss.params[i]) == key
  }

  /** One non-blank value the parameter lets through. */
  function Given(p: Param): (v: string)
    requires !NamesBlank(p)
    ensures v != "" && Admits(p, v)
  {
    if p.pinned then p.fixed else if p.allowedValues == [] then "x" else p.allowedValues[0]
  }

  function GivenAll(c: Capability, n: nat): Params
    requires NamesNoBlank(c) && n <= |c.params|
  {
    if n == 0 then map[] else GivenAll(c, n - 1)[ParamKey(c.params[n - 1]) := Given(c.params[n - 1])]
  }

  lemma {:induction false} GivenAt(c: Capability, n: nat, i: nat)
    requires NamesNoBlank(c) && DistinctParams(c.params) && i < n <= |c.params|
    ensures Get(GivenAll(c, n), ParamKey(c.params[i])) == Given(c.params[i])
  {
    if i < n - 1 {
      GivenAt(c, n - 1, i);
    }
  }

  /** The request lists only keys the issuer has and stays inside wherever it gives its values. */
  ghost predicate StaysInside(iss: Capability, req: Capability) {
    && (forall j :: 0 <= j < |req.params| ==> Declares(iss, ParamKey(req.params[j])))
    && (forall ctx :: GivesAll(req, ctx) && CapPermits(req, ctx) ==> ListedPermit(iss, req, ctx))
  }

  /** The issuer's parameters that the request lists let the context through. */
  predicate ListedPermit(iss: Capability, req: Capability, ctx: Params) {
    forall i :: 0 <= i < |iss.params| && Declares(req, ParamKey(iss.params[i])) ==>
      Admits(iss.params[i], Get(ctx, ParamKey(iss.params[i])))
  }

  /**
   The cover test of two capabilities, exactly: it accepts when the request lists only declared
   keys and every context that gives its values and that it permits passes those parameters of
   the issuer.  Where the request lists all the issuer constrains, that is the whole capability.
   */
  lemma CoversExactly(iss: Capability, req: Capability)
    requires DistinctParams(iss.params) && DistinctParams(req.params) && NamesNoBlank(req)
    ensures Covers(iss, req) <==> StaysInside(iss, req)
    ensures ListsConstraints(iss, req) ==> forall ctx :: ListedPermit(iss, req, ctx) <==> CapPermits(iss, ctx)
  {
    if Covers(iss, req) {
      CoveredStaysInside(iss, req);
    } else {
      var j :| 0 <= j < |req.params| && !CoveredIn(ByKey(iss.params), req.params[j]);
      if Declares(iss, ParamKey(req.params[j])) {
        UncoveredEscapes(iss, req, j);
      }
    }
  }

  lemma CoveredStaysInside(iss: Capability, req: Capability)
    requires DistinctParams(iss.params) && NamesNoBlank(req) && Covers(iss, req)
    ensures StaysInside(iss, req)
  {
    forall j | 0 <= j < |req.params| ensures Declares(iss, ParamKey(req.params[j])) {
      assert CoveredIn(ByKey(iss.params), req.params[j]);
      ByKeyHolds(iss.params);
      var ip := ByKey(iss.params)[ParamKey(req.params[j])];
      var i :| 0 <= i < |iss.params| && iss.params[i] == ip;
    }
    forall ctx, i | GivesAll(req, ctx) && CapPermits(req, ctx) && 0 <= i < |iss.params|
                    && Declares(req, ParamKey(iss.params[i]))
      ensures Admits(iss.params[i], Get(ctx, ParamKey(iss.params[i])))
    {
      var j :| 0 <= j < |req.params| && ParamKey(req.params[j]) == ParamKey(iss.params[i]);
      assert CoveredIn(ByKey(iss.params), req.params[j]);
      ByKeyDistinct(iss.params, i);
      ParamCoversExactly(iss.params[i], req.params[j]);
    }
  }

  lemma UncoveredEscapes(iss: Capability, req: Capability, j: nat)
    requires DistinctParams(iss.params) && DistinctParams(req.params) && NamesNoBlank(req)
    requires j < |req.params| && Declares(iss, ParamKey(req.params[j]))
    requires !CoveredIn(ByKey(iss.params), req.params[j])
    ensures !StaysInside(iss, req)
  {
    var key := ParamKey(req.params[j]);
    var i :| 0 <= i < |iss.params| && ParamKey(iss.params[i]) == key;
    ByKeyDistinct(iss.params, i);
    ParamCoversExactly(iss.params[i], req.params[j]);
    var v :| v != "" && Admits(req.params[j], v) && !Admits(iss.params[i], v);
    var ctx := GivenAll(req, |req.params|)[key := v];
    forall l | 0 <= l < |req.params|
      ensures Get(ctx, ParamKey(req.params[l])) != "" && Admits(req.params[l], Get(ctx, ParamKey(req.params[l])))
    {
      GivenAt(req, |req.params|, l);
    }
    assert GivesAll(req, ctx) && CapPermits(req, ctx);
    assert Declares(req, key);
    assert !ListedPermit(iss, req, ctx);
  }

  ghost predicate InsideSome(req: Capability, surface: seq<Capability>) {
    exists j :: 0 <= j < |surface| && surface[j].app == req.app && surface[j].action == req.action
                && StaysInside(surface[j], req)
  }

  /**
   The whole subset check, exactly: it accepts a scope when each requested capability stays
   inside one capability of the same verb, so nothing that only narrows is refused.
   */
  lemma SubsetExactly(requested: seq<Capability>, surface: seq<Capability>)
    requires forall i :: 0 <= i < |surface| ==> DistinctParams(surface[i].params)
    requires forall i :: 0 <= i < |requested| ==> DistinctParams(requested[i].params) && NamesNoBlank(requested[i])
    ensures IsSubset(requested, surface)
            <==> forall i :: 0 <= i < |requested| ==> InsideSome(requested[i], surface)
  {
    forall i | 0 <= i < |requested| ensures InSurface(requested[i], surface) <==> InsideSome(requested[i], surface) {
      forall j | 0 <= j < |surface| ensures Covers(surface[j], requested[i]) <==> StaysInside(surface[j], requested[i]) {
        CoversExactly(surface[j], requested[i]);
      }
    }
  }

  /** The scope check read off fields alone: which context value each parameter looks at, and what it asks of it. */
  lemma InScopeExactly(caps: seq<Capability>, app: string, action: string, ctx: Params)
    ensures InScope(caps, app, action, ctx)
            <==> exists i :: 0 <= i < |caps| && caps[i].app == app && caps[i].action == action
                             && forall p :: p in caps[i].params ==>
                                  var key := if p.policyKey == "" then p.name else p.policyKey;
                                  var value := if key in ctx then ctx[key] else "";
                                  && (p.pinned ==> value == p.fixed)
                                  && (!p.pinned && value != "" && p.allowedValues != [] ==> value in p.allowedValues)
  {
    forall i | 0 <= i < |caps|
      ensures CapPermits(caps[i], ctx)
              <==> forall p :: p in caps[i].params ==>
                     var key := if p.policyKey == "" then p.name else p.policyKey;
                     var value := if key in ctx then ctx[key] else "";
                     && (p.pinned ==> value == p.fixed)
                     && (!p.pinned && value != "" && p.allowedValues != [] ==> value in p.allowedValues)
    {
    }
  }

  /** Every constraint of the issuer's capability is matched by one of the request's at least as tight. */
  predicate Attenuates(iss: Capability, req: Capability) {
    forall i :: 0 <= i < |iss.params| && !Free(iss.params[i]) ==>
      exists j :: 0 <= j < |req.params| && ParamKey(req.params[j]) == ParamKey(iss.params[i])
                  && Tight(iss.params[i], req.params[j])
  }

  /** One value each parameter lets through. */
  function Sample(p: Param): string { if p.pinned then p.fixed else "" }

  function Samples(ps: seq<Param>): Params
    decreases |ps|
  {
    if ps == [] then map[] else Samples(ps[..|ps| - 1])[ParamKey(ps[|ps| - 1]) := Sample(ps[|ps| - 1])]
  }

  lemma {:induction false} SamplesAt(ps: seq<Param>, i: nat)
    requires DistinctParams(ps) && i < |ps|
    ensures Get(Samples(ps), ParamKey(ps[i])) == Sample(ps[i])
    decreases |ps|
  {
    var n := |ps| - 1;
    if i < n {
      SamplesAt(ps[..n], i);
    }
  }

  /**
   Inclusion of authority, decided exactly: whatever context a requested capability permits,
   the issuer's capability permits too, if and only if each issuer constraint is matched by a
   requested constraint on the same key that is at least as tight.
   */
  lemma InclusionExactly(iss: Capability, req: Capability)
    requires DistinctParams(req.params)
    ensures Attenuates(iss, req) <==> forall ctx :: CapPermits(req, ctx) ==> CapPermits(iss, ctx)
  {
    if Attenuates(iss, req) {
      forall ctx | CapPermits(req, ctx) ensures CapPermits(iss, ctx) {
        AttenuatedIsPermitted(iss, req, ctx);
      }
    } else {
      var i :| 0 <= i < |iss.params| && !Free(iss.params[i]) &&
               !exists j :: 0 <= j < |req.params| && ParamKey(req.params[j]) == ParamKey(iss.params[i])
                            && Tight(iss.params[i], req.params[j]);
      var ctx := Escape(iss, req, i);
      assert CapPermits(req, ctx) && !CapPermits(iss, ctx);
    }
  }

  lemma AttenuatedIsPermitted(iss: Capability, req: Capability, ctx: Params)
    requires Attenuates(iss, req) && CapPermits(req, ctx)
    ensures CapPermits(iss, ctx)
  {
    forall i | 0 <= i < |iss.params| ensures Admits(iss.params[i], Get(ctx, ParamKey(iss.params[i]))) {
      if !Free(iss.params[i]) {
        var j :| 0 <= j < |req.params| && ParamKey(req.params[j]) == ParamKey(iss.params[i])
                 && Tight(iss.params[i], req.params[j]);
        TightMeaning(iss.params[i], req.params[j]);
      }
    }
  }

  /** A context the request permits and issuer constraint `i` refuses, when nothing tight matches it. */
  lemma Escape(iss: Capability, req: Capability, i: nat) returns (ctx: Params)
    requires DistinctParams(req.params) && i < |iss.params| && !Free(iss.params[i])
    requires forall j :: 0 <= j < |req.params| && ParamKey(req.params[j]) == ParamKey(iss.params[i]) ==>
               !Tight(iss.params[i], req.params[j])
    ensures CapPermits(req, ctx) && !CapPermits(iss, ctx)
  {
    var ip := iss.params[i];
    var key := ParamKey(ip);
    var bad := Other(Allowed(ip));
    if j :| 0 <= j < |req.params| && ParamKey(req.params[j]) == key {
      TightMeaning(ip, req.params[j]);
      bad :| Admits(req.params[j], bad) && !Admits(ip, bad);
    }
    ctx := Samples(req.params)[key := bad];
    forall j | 0 <= j < |req.params| ensures Admits(req.params[j], Get(ctx, ParamKey(req.params[j]))) {
      SamplesAt(req.params, j);
    }
    assert Get(ctx, key) == bad;
  }

  lemma CoveredValue(ip: Param, rp: Param, v: string)
    requires ParamCovers(ip, rp) && Admits(rp, v)
    ensures v != "" || !ip.pinned || rp.pinned ==> Admits(ip, v)
  {
  }

  /** The request names every key the issuer constrains. */
  predicate ListsConstraints(iss: Capability, req: Capability) {
    forall i :: 0 <= i < |iss.params| && !Free(iss.params[i]) ==>
      exists j :: 0 <= j < |req.params| && ParamKey(req.params[j]) == ParamKey(iss.params[i])
  }

  predicate NonBlank(c: Capability, ctx: Params) {
    forall i :: 0 <= i < |c.params| && !Free(c.params[i]) ==> Get(ctx, ParamKey(c.params[i])) != ""
  }

  /**
   The issue-time check is sound for a verb: when the requested capabilities list every key the
   issuer constrains for it, any context that gives values for those keys and is inside the
   requested scope is inside the issuer's surface.  Other verbs do not matter.
   */
  lemma SubsetIsSound(requested: seq<Capability>, surface: seq<Capability>, app: string, action: string, ctx: Params)
    requires IsSubset(requested, surface)
    requires forall i :: 0 <= i < |surface| && surface[i].app == app && surface[i].action == action ==>
               DistinctParams(surface[i].params) && NonBlank(surface[i], ctx)
    requires forall i, j :: 0 <= i < |surface| && 0 <= j < |requested| && SameVerb(surface[i], requested[j])
                            && surface[i].app == app && surface[i].action == action ==>
               ListsConstraints(surface[i], requested[j])
    requires InScope(requested, app, action, ctx)
    ensures InScope(surface, app, action, ctx)
  {
    var j :| 0 <= j < |requested| && requested[j].app == app && requested[j].action == action && CapPermits(requested[j], ctx);
    assert InSurface(requested[j], surface);
    var i :| 0 <= i < |surface| && SameVerb(surface[i], requested[j]) && Covers(surface[i], requested[j]);
    var iss, req := surface[i], requested[j];
    forall k | 0 <= k < |iss.params| ensures Admits(iss.params[k], Get(ctx, ParamKey(iss.params[k]))) {
      if !Free(iss.params[k]) {
        var l :| 0 <= l < |req.params| && ParamKey(req.params[l]) == ParamKey(iss.params[k]);
        assert CoveredIn(ByKey(iss.params), req.params[l]);
        ByKeyDistinct(iss.params, k);
        CoveredValue(iss.params[k], req.params[l], Get(ctx, ParamKey(iss.params[k])));
      }
    }
    assert CapPermits(iss, ctx);
  }

  /** Each key the issuer pins to a value is pinned by the request too. */
  predicate PinsWhatIsPinned(iss: Capability, req: Capability) {
    forall i, j ::
      (0 <= i < |iss.params| && 0 <= j < |req.params| && ParamKey(iss.params[i]) == ParamKey(req.params[j])
       && iss.params[i].pinned && iss.params[i].fixed != "")
      ==> req.params[j].pinned
  }

  lemma CoveredIsTightExactly(ip: Param, rp: Param)
    requires ParamCovers(ip, rp)
    ensures Tight(ip, rp) <==> (ip.pinned && ip.fixed != "" ==> rp.pinned)
  {
  }

  /**
   What the subset check leaves open, exactly: a request it accepts stays inside the issuer's
   capability for every context, blank and missing values included, if and only if it lists
   every key the issuer constrains and pins every key the issuer pins to a value.
   */
  lemma CoveredInclusionExactly(iss: Capability, req: Capability)
    requires DistinctParams(iss.params) && DistinctParams(req.params) && Covers(iss, req)
    ensures (forall ctx :: CapPermits(req, ctx) ==> CapPermits(iss, ctx))
            <==> ListsConstraints(iss, req) && PinsWhatIsPinned(iss, req)
  {
    InclusionExactly(iss, req);
    forall i, j | 0 <= i < |iss.params| && 0 <= j < |req.params| && ParamKey(iss.params[i]) == ParamKey(req.params[j])
      ensures Tight(iss.params[i], req.params[j])
              <==> (iss.params[i].pinned && iss.params[i].fixed != "" ==> req.params[j].pinned)
    {
      assert CoveredIn(ByKey(iss.params), req.params[j]);
      ByKeyDistinct(iss.params, i);
      CoveredIsTightExactly(iss.params[i], req.params[j]);
    }
    if Attenuates(iss, req) {
      AttenuatingPins(iss, req);
    } else {
      var i :| 0 <= i < |iss.params| && !Free(iss.params[i]) &&
               !exists j :: 0 <= j < |req.params| && ParamKey(req.params[j]) == ParamKey(iss.params[i])
                            && Tight(iss.params[i], req.params[j]);
      if j :| 0 <= j < |req.params| && ParamKey(req.params[j]) == ParamKey(iss.params[i]) {
        assert !Tight(iss.params[i], req.params[j]);
        assert !PinsWhatIsPinned(iss, req);
      } else {
        assert !ListsConstraints(iss, req);
      }
    }
  }

  lemma AttenuatingPins(iss: Capability, req: Capability)
    requires Attenuates(iss, req) && DistinctParams(req.params)
    requires forall i, j :: 0 <= i < |iss.params| && 0 <= j < |req.params|
                            && ParamKey(iss.params[i]) == ParamKey(req.params[j]) ==>
               (Tight(iss.params[i], req.params[j])
                <==> (iss.params[i].pinned && iss.params[i].fixed != "" ==> req.params[j].pinned))
    ensures ListsConstraints(iss, req) && PinsWhatIsPinned(iss, req)
  {
    forall i, j | 0 <= i < |iss.params| && 0 <= j < |req.params| && ParamKey(iss.params[i]) == ParamKey(req.params[j])
                  && iss.params[i].pinned && iss.params[i].fixed != ""
      ensures req.params[j].pinned
    {
      assert !Free(iss.params[i]);
      var l :| 0 <= l < |req.params| && ParamKey(req.params[l]) == ParamKey(iss.params[i])
               && Tight(iss.params[i], req.params[l]);
      assert l == j;
    }
  }

  /** A request without parameters passes the check against any capability of its verb and permits everything. */
  lemma BareRequestEscapes(iss: Capability, i: nat)
    requires i < |iss.params| && !Free(iss.params[i])
    ensures var req := Capability(iss.app, iss.action, []);
            && IsSubset([req], [iss])
            && (forall ctx :: CapPermits(req, ctx))
            && exists ctx :: !CapPermits(iss, ctx)
  {
    var req := Capability(iss.app, iss.action, []);
    assert SameVerb(iss, req) && Covers(iss, req);
    assert InSurface(req, [iss]) by {
      assert [iss][0] == iss;
    }
    var ctx := Escape(iss, req, i);
    assert !CapPermits(iss, ctx);
  }

  // ---- deriving a narrowed capability ----

  function PinFor(p: Param, pins: Params): Option<string> {
    if p.name in pins then Some(pins[p.name])
    else if ParamKey(p) in pins then Some(pins[ParamKey(p)])
    else None
  }

  function Narrow(p: Param, pins: Params): Param {
    if PinFor(p, pins).Some? then p.(pinned := true, fixed := PinFor(p, pins).value, allowedValues := []) else p
  }

  function NarrowAll(ps: seq<Param>, pins: Params): (r: seq<Param>)
    ensures |r| == |ps| && forall i :: 0 <= i < |ps| ==> r[i] == Narrow(ps[i], pins)
  {
    seq(|ps|, i requires 0 <= i < |ps| => Narrow(ps[i], pins))
  }

  /** The pins that name some parameter, by name or by key. */
  predicate Used(ps: seq<Param>, k: string, pins: Params) {
    exists i :: 0 <= i < |ps| && PinFor(ps[i], pins).Some? && (k == ps[i].name || k == ParamKey(ps[i]))
  }

  /** Clones the first surface capability of the verb and pins the named parameters. */
  method DeriveCapability(surface: seq<Capability>, app: string, action: string, pins: Params)
    returns (out: Option<Capability>)
    ensures out.Some? <==>
              exists i :: 0 <= i < |surface| && IsFirst(surface, i, app, action)
                          && forall k :: k in pins ==> Used(surface[i].params, k, pins)
    ensures forall i :: 0 <= i < |surface| && IsFirst(surface, i, app, action) && out.Some? ==>
              out.value == Capability(app, action, NarrowAll(surface[i].params, pins))
  {
    for i := 0 to |surface|
      invariant forall k :: 0 <= k < i ==> !(surface[k].app == app && surface[k].action == action)
    {
      var c := surface[i];
      if c.app != app || c.action != action {
        continue;
      }
      assert IsFirst(surface, i, app, action);
      var params: seq<Param> := [];
      var seen: set<string> := {};
      for j := 0 to |c.params|
        invariant |params| == j && forall k :: 0 <= k < j ==> params[k] == Narrow(c.params[k], pins)
        invariant forall k :: k in seen <==> Used(c.params[..j], k, pins)
      {
        var p := c.params[j];
        var pin := PinFor(p, pins);
        UsedSnoc(c.params, j, pins);
        if pin.Some? {
          seen := seen + {p.name, ParamKey(p)};
        }
        params := params + [Narrow(p, pins)];
      }
      assert c.params[..|c.params|] == c.params;
      if exists k | k in pins :: k !in seen {
        return None;
      }
      assert params == NarrowAll(c.params, pins);
      return Some(Capability(c.app, c.action, params));
    }
    out := None;
  }

  predicate IsFirst(surface: seq<Capability>, i: nat, app: string, action: string) {
    && i < |surface| && surface[i].app == app && surface[i].action == action
    && forall k :: 0 <= k < i ==> !(surface[k].app == app && surface[k].action == action)
  }

  lemma UsedSnoc(ps: seq<Param>, j: nat, pins: Params)
    requires j < |ps|
    ensures forall k :: Used(ps[..j + 1], k, pins)
                <==> Used(ps[..j], k, pins) || (PinFor(ps[j], pins).Some? && (k == ps[j].name || k == ParamKey(ps[j])))
  {
    var a, b := ps[..j], ps[..j + 1];
    assert b == a + [ps[j]];
    forall k | Used(a, k, pins) ensures Used(b, k, pins) {
      var i :| 0 <= i < |a| && PinFor(a[i], pins).Some? && (k == a[i].name || k == ParamKey(a[i]));
      assert b[i] == a[i];
    }
    forall k | PinFor(ps[j], pins).Some? && (k == ps[j].name || k == ParamKey(ps[j])) ensures Used(b, k, pins) {
      assert b[j] == ps[j];
    }
    forall k | Used(b, k, pins)
      ensures Used(a, k, pins) || (PinFor(ps[j], pins).Some? && (k == ps[j].name || k == ParamKey(ps[j])))
    {
      var i :| 0 <= i < |b| && PinFor(b[i], pins).Some? && (k == b[i].name || k == ParamKey(b[i]));
      assert i < j ==> b[i] == a[i];
    }
  }

  /**
   What deriving does to one parameter: a pin under its name is taken first, else one under its
   policy key, and the parameter then lets through that value alone; without a pin it is unchanged.
   */
  lemma NarrowedParameter(p: Param, pins: Params)
    ensures var out := Narrow(p, pins);
            var key := if p.policyKey == "" then p.name else p.policyKey;
            && out.name == p.name && out.policyKey == p.policyKey && out.required == p.required
            && (p.name !in pins && key !in pins ==> out == p)
            && (p.name in pins ==> forall v :: Admits(out, v) <==> v == pins[p.name])
            && (p.name !in pins && key in pins ==> forall v :: Admits(out, v) <==> v == pins[key])
  {
  }

  /**
   A derived capability is inside its source exactly when every pin is a value the source
   lets through, and then it attenuates the source for all contexts, blank values included.
   */
  lemma DerivedIsNarrower(c: Capability, pins: Params)
    requires DistinctParams(c.params)
    ensures var out := Capability(c.app, c.action, NarrowAll(c.params, pins));
            var inside := forall i :: 0 <= i < |c.params| && !Free(c.params[i]) && PinFor(c.params[i], pins).Some? ==>
                            PinFor(c.params[i], pins).value in Allowed(c.params[i]);
            && (Covers(c, out) <==> inside)
            && (inside ==> Attenuates(c, out) && forall ctx :: CapPermits(out, ctx) ==> CapPermits(c, ctx))
  {
    var out := Capability(c.app, c.action, NarrowAll(c.params, pins));
    forall i | 0 <= i < |c.params|
      ensures CoveredIn(ByKey(c.params), out.params[i])
              <==> (!Free(c.params[i]) && PinFor(c.params[i], pins).Some? ==>
                      PinFor(c.params[i], pins).value in Allowed(c.params[i]))
    {
      ByKeyDistinct(c.params, i);
      assert ParamKey(out.params[i]) == ParamKey(c.params[i]);
    }
    if forall i :: 0 <= i < |c.params| && !Free(c.params[i]) && PinFor(c.params[i], pins).Some? ==>
         PinFor(c.params[i], pins).value in Allowed(c.params[i]) {
      forall i | 0 <= i < |c.params| && !Free(c.params[i])
        ensures exists j :: 0 <= j < |out.params| && ParamKey(out.params[j]) == ParamKey(c.params[i])
                            && Tight(c.params[i], out.params[j])
      {
        assert ParamKey(out.params[i]) == ParamKey(c.params[i]) && Tight(c.params[i], out.params[i]);
      }
      assert Attenuates(c, out);
      forall ctx | CapPermits(out, ctx) ensures CapPermits(c, ctx) {
        AttenuatedIsPermitted(c, out, ctx);
      }
    }
  }
}
