/**
 Plan and apply: the configuration plan shows, the configuration the transactional
 apply leaves behind, and the roll-back of a failed apply.
 */
module Apply {
  import opened Wrappers
  import opened Strings
  import opened AdminConfig
  import Paths
  import AppDef
  import Definitions
  import Policy

  datatype RemovedVerb = RemovedVerb(app: string, action: string)

  datatype Proposal = Proposal(addTargets: seq<Target>, removeTargets: seq<string>, system: SystemDelta,
                               addApps: seq<AppDef.Definition>, removeApps: seq<RemovedVerb>,
                               addRules: seq<Policy.Rule>, removeRules: seq<Policy.Rule>)

  // ---- what plan shows ----

  /** A targets list by alias; a later entry replaces an earlier one. */
  function ByAlias(ts: seq<Target>): Targets
    decreases |ts|
  {
    if ts == [] then map[] else ByAlias(ts[..|ts| - 1])[ts[|ts| - 1].alias := ts[|ts| - 1].settings]
  }

  /** The live targets and the proposed ones that do not collide with an earlier alias. */
  function Joined(live: Targets, add: seq<Target>): Targets
    decreases |add|
  {
    if add == [] then live
    else
      var m := Joined(live, add[..|add| - 1]);
      var t := add[|add| - 1];
      if t.alias in m then m else m[t.alias := t.settings]
  }

  function Proposed(live: Targets, p: Proposal): Targets {
    Without(Joined(live, p.addTargets), p.removeTargets)
  }

  /** The targets plan reviews, normalised. */
  function Planned(live: Targets, p: Proposal): Targets {
    NormalizeAll(Proposed(live, p))
  }

  function AliasList(ts: seq<Target>): (r: seq<string>)
    ensures |r| == |ts| && forall i :: 0 <= i < |ts| ==> r[i] == ts[i].alias
  {
    seq(|ts|, i requires 0 <= i < |ts| => ts[i].alias)
  }

  /** The aliases in order of first appearance, live ones first. */
  function AliasOrder(live: seq<Target>, add: seq<Target>): seq<string> {
    Extended(Extended([], AliasList(live)), AliasList(add))
  }

  /** Exactly the entries of the map, in the given order of their aliases. */
  ghost predicate Lists(out: seq<Target>, m: Targets, order: seq<string>) {
    && (forall t :: t in out <==> t.alias in m && m[t.alias] == t.settings)
    && AliasList(out) == order
  }

  lemma OrderOneMore(ts: seq<Target>, i: nat, before: seq<string>)
    requires i < |ts|
    ensures var e := Extended(before, AliasList(ts[..i]));
            Extended(before, AliasList(ts[..i + 1])) == if ts[i].alias in e then e else e + [ts[i].alias]
  {
    var longer := AliasList(ts[..i + 1]);
    assert longer[..i] == AliasList(ts[..i]) && longer[i] == ts[i].alias;
  }

  /** The targets in force after the proposal, as plan computes them: additions, then removals. */
  method EffectiveTargets(live: seq<Target>, p: Proposal) returns (out: seq<Target>)
    ensures Lists(out, Proposed(ByAlias(live), p), Kept(AliasOrder(live, p.addTargets), p.removeTargets))
  {
    var byAlias, order := IndexTargets(live);
    byAlias, order := JoinTargets(byAlias, order, p.addTargets);
    ghost var full := byAlias;
    byAlias := DeleteAliases(byAlias, p.removeTargets);
    out := ListTargets(order, byAlias);
    KeptIs(order, p.removeTargets, full, byAlias);
  }

  /** The live targets by alias, and their aliases in order of first appearance. */
  method IndexTargets(live: seq<Target>) returns (byAlias: Targets, order: seq<string>)
    ensures byAlias == ByAlias(live) && order == Extended([], AliasList(live))
    ensures forall k :: k in byAlias <==> k in order
  {
    byAlias, order := map[], [];
    for i := 0 to |live|
      invariant byAlias == ByAlias(live[..i]) && order == Extended([], AliasList(live[..i]))
      invariant forall k :: k in byAlias <==> k in order
    {
      assert live[..i + 1][..i] == live[..i];
      OrderOneMore(live, i, []);
      if live[i].alias !in byAlias {
        order := order + [live[i].alias];
      }
      byAlias := byAlias[live[i].alias := live[i].settings];
    }
    assert live[..|live|] == live;
  }

  /** The proposed targets that do not collide, joined to the live ones. */
  method JoinTargets(live: Targets, liveOrder: seq<string>, add: seq<Target>) returns (byAlias: Targets, order: seq<string>)
    requires forall k :: k in live <==> k in liveOrder
    ensures byAlias == Joined(live, add) && order == Extended(liveOrder, AliasList(add))
    ensures forall k :: k in byAlias <==> k in order
  {
    byAlias, order := live, liveOrder;
    for i := 0 to |add|
      invariant byAlias == Joined(live, add[..i]) && order == Extended(liveOrder, AliasList(add[..i]))
      invariant forall k :: k in byAlias <==> k in order
    {
      JoinedOneMore(live, add, i);
      OrderOneMore(add, i, liveOrder);
      var t := add[i];
      if t.alias !in byAlias {
        order := order + [t.alias];
        byAlias := byAlias[t.alias := t.settings];
      }
    }
    assert add[..|add|] == add;
  }

  lemma JoinedOneMore(live: Targets, add: seq<Target>, i: nat)
    requires i < |add|
    ensures var m := Joined(live, add[..i]);
            Joined(live, add[..i + 1]) == if add[i].alias in m then m else m[add[i].alias := add[i].settings]
  {
    assert add[..i + 1][..i] == add[..i];
  }

  method DeleteAliases(full: Targets, aliases: seq<string>) returns (byAlias: Targets)
    ensures byAlias == Without(full, aliases)
  {
    byAlias := full;
    WithoutNone(full);
    assert aliases[..0] == [];
    for i := 0 to |aliases|
      invariant byAlias == Without(full, aliases[..i])
    {
      WithoutSnoc(full, aliases, i);
      byAlias := byAlias - {aliases[i]};
    }
    assert aliases[..|aliases|] == aliases;
  }

  function Present(order: seq<string>, m: Targets): seq<string>
    decreases |order|
  {
    if order == [] then []
    else
      var front := Present(order[..|order| - 1], m);
      if order[|order| - 1] in m then front + [order[|order| - 1]] else front
  }

  lemma {:induction false} KeptIs(order: seq<string>, gone: seq<string>, full: Targets, m: Targets)
    requires m == Without(full, gone) && forall k :: k in order ==> k in full
    ensures Present(order, m) == Kept(order, gone)
    decreases |order|
  {
    if order != [] {
      assert forall k :: k in order[..|order| - 1] ==> k in order;
      KeptIs(order[..|order| - 1], gone, full, m);
      assert order[|order| - 1] in full;
    }
  }

  /** Reads the map in the given order. */
  method ListTargets(order: seq<string>, byAlias: Targets) returns (out: seq<Target>)
    requires forall k :: k in byAlias ==> k in order
    ensures Lists(out, byAlias, Present(order, byAlias))
  {
    out := [];
    for i := 0 to |order|
      invariant AliasList(out) == Present(order[..i], byAlias)
      invariant forall t :: t in out <==> t.alias in order[..i] && t.alias in byAlias && byAlias[t.alias] == t.settings
    {
      assert order[..i + 1] == order[..i] + [order[i]] && order[..i + 1][..i] == order[..i];
      if order[i] in byAlias {
        var t := Target(order[i], byAlias[order[i]]);
        assert AliasList(out + [t]) == AliasList(out) + [t.alias];
        out := out + [t];
      }
    }
    assert order[..|order|] == order;
  }

  /** The same with each addition normalised at once, as apply stores it. */
  function Added(live: Targets, add: seq<Target>): Targets
    decreases |add|
  {
    if add == [] then live
    else
      var m := Added(live, add[..|add| - 1]);
      var t := add[|add| - 1];
      if t.alias in m then m else m[t.alias := NormalizeSettings(t.settings)]
  }

  lemma {:induction false} JoinedNormal(live: Targets, add: seq<Target>)
    requires SettledTargets(live)
    ensures NormalizeAll(Joined(live, add)) == Added(live, add)
    decreases |add|
  {
    if add == [] {
      SettledStay(live);
    } else {
      JoinedNormal(live, add[..|add| - 1]);
      var m, t := Joined(live, add[..|add| - 1]), add[|add| - 1];
      if t.alias !in m {
        NormalizeUpdate(m, t.alias, t.settings);
      }
    }
  }

  lemma NormalizeUpdate(m: Targets, alias: string, s: Settings)
    ensures NormalizeAll(m[alias := s]) == NormalizeAll(m)[alias := NormalizeSettings(s)]
  {
  }

  lemma NormalizeWithout(m: Targets, aliases: seq<string>)
    ensures NormalizeAll(Without(m, aliases)) == Without(NormalizeAll(m), aliases)
  {
  }

  lemma PlannedIs(live: Targets, p: Proposal)
    requires SettledTargets(live)
    ensures Planned(live, p) == Without(Added(live, p.addTargets), p.removeTargets)
  {
    JoinedNormal(live, p.addTargets);
    NormalizeWithout(Joined(live, p.addTargets), p.removeTargets);
  }

  function Without<V>(m: map<string, V>, aliases: seq<string>): map<string, V> {
    m - (set k | k in aliases)
  }

  lemma WithoutNone<V>(m: map<string, V>)
    ensures Without(m, []) == m
  {
  }

  lemma WithoutSnoc<V>(m: map<string, V>, aliases: seq<string>, i: nat)
    requires i < |aliases|
    ensures Without(m, aliases[..i + 1]) == Without(m, aliases[..i]) - {aliases[i]}
  {
    assert aliases[..i + 1] == aliases[..i] + [aliases[i]];
  }

  // ---- what apply does to the targets ----

  /** Stored settings and normalised proposed ones, compared as apply compares them. */
  predicate SameSettings(a: Settings, b: Settings) {
    && a.host == b.host && a.user == b.user && a.port == b.port && a.criticality == b.criticality
    && a.identityFile == b.identityFile && a.proxyJump == b.proxyJump
    && Join(a.services) == Join(b.services) && Join(a.paths) == Join(b.paths)
    && Join(a.prefixes) == Join(b.prefixes) && Join(a.uploadSources) == Join(b.uploadSources)
  }

  function Join(parts: seq<string>): string {
    if parts == [] then "" else if |parts| == 1 then parts[0] else parts[0] + "," + Join(parts[1..])
  }

  predicate NoCommas(parts: seq<string>) {
    forall i :: 0 <= i < |parts| ==> ',' !in parts[i]
  }

  lemma JoinCons(x: string, rest: seq<string>)
    requires rest != []
    ensures Join([x] + rest) == x + "," + Join(rest)
  {
    assert ([x] + rest)[1..] == rest;
  }

  /** Splitting at commas undoes joining, for lists without commas. */
  lemma {:induction false} SplitJoin(parts: seq<string>)
    requires parts != [] && NoCommas(parts)
    ensures Split(Join(parts), ',') == parts
    decreases |parts|
  {
    SplitWhole(parts[0], ',');
    if |parts| > 1 {
      assert parts == [parts[0]] + parts[1..];
      SplitJoin(parts[1..]);
      SplitConcat(parts[0], Join(parts[1..]), ',');
      assert parts[0] + "," + Join(parts[1..]) == parts[0] + [','] + Join(parts[1..]);
    }
  }

  lemma {:induction false} JoinSplit(s: string)
    ensures Join(Split(s, ',')) == s
    decreases |s|
  {
    if s != "" {
      var rest := Split(s[1..], ',');
      JoinSplit(s[1..]);
      if s[0] == ',' {
        JoinCons("", rest);
        assert "" + "," + s[1..] == s;
      } else {
        JoinHead(s[0], rest);
        assert [s[0]] + s[1..] == s;
      }
    }
  }

  lemma JoinHead(c: char, rest: seq<string>)
    requires rest != []
    ensures Join([[c] + rest[0]] + rest[1..]) == [c] + Join(rest)
  {
    var l := [[c] + rest[0]] + rest[1..];
    assert l[1..] == rest[1..];
    if |rest| > 1 {
      assert [c] + (rest[0] + "," + Join(rest[1..])) == ([c] + rest[0]) + "," + Join(rest[1..]);
    }
  }

  /**
   Comparing joined lists tells a list apart from every list without commas exactly when the list
   itself has no comma in it.  (A list never holds just a blank entry, which would join like none.)
   */
  lemma JoinTellsApartExactly(a: seq<string>)
    requires a != [""]
    ensures (forall b :: NoCommas(b) && b != [""] && Join(b) == Join(a) ==> b == a) <==> NoCommas(a)
  {
    if NoCommas(a) {
      forall b | NoCommas(b) && b != [""] && Join(b) == Join(a) ensures b == a {
        EmptyJoin(a);
        EmptyJoin(b);
        if a != [] && b != [] {
          SplitJoin(a);
          SplitJoin(b);
        }
      }
    } else {
      var b := Split(Join(a), ',');
      JoinSplit(Join(a));
      assert NoCommas(b) && b != a;
      CommaShows(a);
      assert Join(b) == Join(a) && b != [""];
    }
  }

  lemma {:induction false} EmptyJoin(a: seq<string>)
    requires NoCommas(a)
    ensures Join(a) == "" ==> a == [] || a == [""]
  {
    if |a| > 1 {
      assert |Join(a)| >= 1;
    }
  }

  lemma {:induction false} CommaShows(a: seq<string>)
    requires !NoCommas(a)
    ensures Join(a) != "" && Split(Join(a), ',') != [""]
  {
    if |a| == 1 {
      assert a[0] != "";
    } else {
      assert |Join(a)| >= 1;
    }
    JoinSplit(Join(a));
    assert Join([""]) == "";
  }

  predicate CommaFree(s: Settings) {
    NoCommas(s.services) && NoCommas(s.paths) && NoCommas(s.prefixes) && NoCommas(s.uploadSources)
  }

  predicate NoBlankList(s: Settings) {
    s.services != [""] && s.paths != [""] && s.prefixes != [""] && s.uploadSources != [""]
  }

  /** Settings without commas in their lists are found the same exactly when they are the same. */
  lemma SameSettingsExactly(a: Settings, b: Settings)
    requires CommaFree(a) && CommaFree(b) && NoBlankList(a) && NoBlankList(b)
    ensures SameSettings(a, b) <==> a == b
  {
    JoinTellsApartExactly(a.services);
    JoinTellsApartExactly(a.paths);
    JoinTellsApartExactly(a.prefixes);
    JoinTellsApartExactly(a.uploadSources);
  }

  /** What is read back after a save: normalised when written and again when read. */
  function Reread(m: Targets): Targets {
    NormalizeAll(NormalizeAll(m))
  }

  function RemoveOne(m: Targets, alias: string): Targets {
    if TrimSpace(alias) in m then Reread(m - {TrimSpace(alias)}) else m
  }

  function RemoveEach(m: Targets, aliases: seq<string>): Targets
    decreases |aliases|
  {
    if aliases == [] then m else RemoveOne(RemoveEach(m, aliases[..|aliases| - 1]), aliases[|aliases| - 1])
  }

  /** One addition: an invalid target or a conflicting re-add stops the apply. */
  function AddOne(m: Targets, t: Target): Option<Targets> {
    var proposed := NormalizeSettings(t.settings);
    if TrimSpace(t.alias) == "" || !ValidSettings(proposed) then None
    else if TrimSpace(t.alias) !in m then Some(Reread(m[TrimSpace(t.alias) := proposed]))
    else if t.alias in m && !SameSettings(m[t.alias], proposed) then None
    else Some(m)
  }

  function AddEach(m: Targets, add: seq<Target>): Option<Targets>
    decreases |add|
  {
    if add == [] then Some(m)
    else
      var before := AddEach(m, add[..|add| - 1]);
      if before.None? then None else AddOne(before.value, add[|add| - 1])
  }

  function Applied(live: Targets, p: Proposal): Option<Targets> {
    AddEach(RemoveEach(live, p.removeTargets), p.addTargets)
  }

  // ---- what was reviewed is what is stored ----

  predicate Trimmed(p: Proposal) {
    && (forall i :: 0 <= i < |p.addTargets| ==> TrimSpace(p.addTargets[i].alias) == p.addTargets[i].alias)
    && (forall i :: 0 <= i < |p.removeTargets| ==> TrimSpace(p.removeTargets[i]) == p.removeTargets[i])
  }

  function AliasesOf(add: seq<Target>): set<string> {
    set t | t in add :: t.alias
  }

  function RemovedAliases(p: Proposal): set<string> {
    set k | k in p.removeTargets
  }

  /** Settled targets come back from a save as they were. */
  lemma RereadSettled(m: Targets)
    requires SettledTargets(m)
    ensures Reread(m) == m
  {
    SettledStay(m);
  }

  lemma {:induction false} RemoveEachGives(m: Targets, aliases: seq<string>)
    requires SettledTargets(m) && forall i :: 0 <= i < |aliases| ==> TrimSpace(aliases[i]) == aliases[i]
    ensures RemoveEach(m, aliases) == Without(m, aliases) && SettledTargets(RemoveEach(m, aliases))
    decreases |aliases|
  {
    if aliases == [] {
      WithoutNone(m);
    } else {
      var n := |aliases| - 1;
      RemoveEachGives(m, aliases[..n]);
      WithoutSnoc(m, aliases, n);
      assert aliases[..n + 1] == aliases;
      RemoveSettled(RemoveEach(m, aliases[..n]), aliases[n]);
    }
  }

  lemma RemoveSettled(m: Targets, alias: string)
    requires SettledTargets(m) && TrimSpace(alias) == alias
    ensures RemoveOne(m, alias) == m - {alias} && SettledTargets(RemoveOne(m, alias))
  {
    if alias in m {
      RereadSettled(m - {alias});
    }
  }

  // ---- what successful additions leave ----

  /** What became of settings that were stored as `a`: nothing if they are settled, and something shorter if not. */
  predicate Drifts(r: Settings, a: Settings) {
    if SettledSettings(a) then r == a else CleanSettings(r) && Weight(r) < Weight(a)
  }

  predicate DriftsAll(m: Targets, a: Targets) {
    m.Keys == a.Keys && forall k :: k in a ==> Drifts(m[k], a[k])
  }

  lemma NormalizedDrifts(r: Settings, a: Settings)
    requires Drifts(r, a)
    ensures Drifts(NormalizeSettings(r), a)
  {
    if !SettledSettings(a) {
      SettingsShrink(r);
    }
  }

  lemma FreshDrifts(s: Settings)
    requires ValidSettings(NormalizeSettings(s))
    ensures Drifts(NormalizeSettings(NormalizeSettings(s)), NormalizeSettings(s))
  {
    var once := NormalizeSettings(s);
    if !SettledSettings(once) {
      NormalizedSettingsClean(s);
      UnsettledListsShrink(s);
      SettingsShrink(once);
    }
  }

  lemma NormalizeAllDrifts(m: Targets, a: Targets)
    requires DriftsAll(m, a)
    ensures DriftsAll(NormalizeAll(m), a)
  {
    forall k | k in a ensures Drifts(NormalizeAll(m)[k], a[k]) {
      NormalizedDrifts(m[k], a[k]);
    }
  }

  lemma FreshAllDrifts(m: Targets, a: Targets, alias: string, s: Settings)
    requires DriftsAll(m, a) && ValidSettings(NormalizeSettings(s))
    ensures DriftsAll(NormalizeAll(m[alias := NormalizeSettings(s)]), a[alias := NormalizeSettings(s)])
  {
    var once := NormalizeSettings(s);
    var m1, a1 := m[alias := once], a[alias := once];
    forall k | k in a1 ensures Drifts(NormalizeAll(m1)[k], a1[k]) {
      if k == alias {
        FreshDrifts(s);
      } else {
        NormalizedDrifts(m[k], a[k]);
      }
    }
  }

  lemma AddOneDrifts(m: Targets, a: Targets, t: Target)
    requires DriftsAll(m, a) && AddOne(m, t).Some? && TrimSpace(t.alias) == t.alias
    ensures DriftsAll(AddOne(m, t).value, if t.alias in a then a else a[t.alias := NormalizeSettings(t.settings)])
  {
    assert t.alias in m <==> t.alias in m.Keys;
    if t.alias !in a {
      var once := NormalizeSettings(t.settings);
      FreshAllDrifts(m, a, t.alias, t.settings);
      NormalizeAllDrifts(NormalizeAll(m[t.alias := once]), a[t.alias := once]);
    }
  }

  lemma SettledDrifts(m: Targets)
    requires SettledTargets(m)
    ensures DriftsAll(m, m)
  {
  }

  lemma {:induction false} AddEachDrifts(m: Targets, add: seq<Target>)
    requires AddEach(m, add).Some? && SettledTargets(m)
    requires forall i :: 0 <= i < |add| ==> TrimSpace(add[i].alias) == add[i].alias
    ensures DriftsAll(AddEach(m, add).value, Added(m, add))
    decreases |add|
  {
    if add == [] {
      SettledDrifts(m);
    } else {
      var n := |add| - 1;
      AddEachDrifts(m, add[..n]);
      AddOneDrifts(AddEach(m, add[..n]).value, Added(m, add[..n]), add[n]);
    }
  }

  /** Nothing drifted exactly when everything was settled. */
  lemma DriftsNowhereExactly(m: Targets, a: Targets)
    requires DriftsAll(m, a)
    ensures m == a <==> SettledTargets(a)
  {
    if SettledTargets(a) {
      forall k | k in a ensures m[k] == a[k] {
        assert SettledSettings(a[k]) && Drifts(m[k], a[k]);
      }
    } else {
      var k :| k in a && !SettledSettings(a[k]);
      assert Drifts(m[k], a[k]);
    }
  }

  /** The addition that stores its alias: the alias is new, and this is the first one to add it. */
  predicate StoresAlias(m: Targets, add: seq<Target>, i: nat)
    requires i < |add|
  {
    add[i].alias !in m && forall j :: 0 <= j < i ==> add[j].alias != add[i].alias
  }

  /** No target that is newly stored has a path whose cleaned form ends in white space. */
  predicate StoredSettled(m: Targets, add: seq<Target>) {
    AllStored(m, add, StoredAsIs)
  }

  predicate AllStored(m: Targets, add: seq<Target>, ok: Target -> bool) {
    forall i :: 0 <= i < |add| && StoresAlias(m, add, i) ==> ok(add[i])
  }

  /** Another normalisation leaves the normalised settings alone. */
  predicate StoredAsIs(t: Target) {
    SettledSettings(NormalizeSettings(t.settings))
  }

  lemma StoresAliasKey(m: Targets, add: seq<Target>, n: nat)
    requires |add| == n + 1
    ensures StoresAlias(m, add, n) <==> add[n].alias !in Added(m, add[..n])
  {
    var front := add[..n];
    AddedKeys(m, front);
    assert add[n].alias in Added(m, front) <==> add[n].alias in Added(m, front).Keys;
    assert forall i :: 0 <= i < n ==> front[i] == add[i] && front[i] in front;
    if add[n].alias in AliasesOf(front) {
      var t :| t in front && t.alias == add[n].alias;
      var j :| 0 <= j < n && front[j] == t;
    }
  }

  lemma StoresAliasFront(m: Targets, add: seq<Target>, front: seq<Target>, n: nat, i: nat)
    requires |add| == n + 1 && front == add[..n] && i < n
    ensures front[i] == add[i] && (StoresAlias(m, add, i) <==> StoresAlias(m, front, i))
  {
    assert forall j :: 0 <= j < n ==> front[j] == add[j];
  }

  lemma AllStoredSnoc(m: Targets, add: seq<Target>, front: seq<Target>, n: nat, ok: Target -> bool)
    requires |add| == n + 1 && front == add[..n]
    ensures AllStored(m, add, ok) <==> AllStored(m, front, ok) && (StoresAlias(m, add, n) ==> ok(add[n]))
  {
    if AllStored(m, add, ok) {
      AllStoredFront(m, add, front, n, ok);
    }
    if AllStored(m, front, ok) && (StoresAlias(m, add, n) ==> ok(add[n])) {
      AllStoredBack(m, add, front, n, ok);
    }
  }

  lemma AllStoredFront(m: Targets, add: seq<Target>, front: seq<Target>, n: nat, ok: Target -> bool)
    requires |add| == n + 1 && front == add[..n] && AllStored(m, add, ok)
    ensures AllStored(m, front, ok)
  {
    forall i | 0 <= i < |front| && StoresAlias(m, front, i) ensures ok(front[i]) {
      StoresAliasFront(m, add, front, n, i);
    }
  }

  lemma AllStoredBack(m: Targets, add: seq<Target>, front: seq<Target>, n: nat, ok: Target -> bool)
    requires |add| == n + 1 && front == add[..n] && AllStored(m, front, ok) && (StoresAlias(m, add, n) ==> ok(add[n]))
    ensures AllStored(m, add, ok)
  {
    forall i | 0 <= i < |add| && StoresAlias(m, add, i) ensures ok(add[i]) {
      if i < n {
        StoresAliasFront(m, add, front, n, i);
      }
    }
  }

  lemma {:induction false} AddedSettledExactly(m: Targets, add: seq<Target>)
    requires SettledTargets(m)
    ensures SettledTargets(Added(m, add)) <==> StoredSettled(m, add)
    decreases |add|
  {
    if add != [] {
      var n := |add| - 1;
      AddedSettledExactly(m, add[..n]);
      StoresAliasKey(m, add, n);
      AllStoredSnoc(m, add, add[..n], n, StoredAsIs);
      UpdateSettled(Added(m, add[..n]), add[n].alias, NormalizeSettings(add[n].settings));
    }
  }

  lemma UpdateSettled(m: Targets, alias: string, s: Settings)
    ensures alias !in m ==> (SettledTargets(m[alias := s]) <==> SettledTargets(m) && SettledSettings(s))
  {
    if alias !in m {
      var m1 := m[alias := s];
      assert m1[alias] == s && forall k :: k in m ==> k in m1 && m1[k] == m[k];
    }
  }

  lemma {:induction false} AddedKeys(m: Targets, add: seq<Target>)
    ensures Added(m, add).Keys == m.Keys + AliasesOf(add)
    ensures forall k :: k in m ==> Added(m, add)[k] == m[k]
    decreases |add|
  {
    if add != [] {
      var n := |add| - 1;
      AddedKeys(m, add[..n]);
      assert add == add[..n] + [add[n]];
      assert AliasesOf(add) == AliasesOf(add[..n]) + {add[n].alias};
    }
  }

  /** Removing other aliases first or last makes no difference to what is added. */
  lemma {:induction false} AddedCommutes(m: Targets, add: seq<Target>, gone: set<string>)
    requires AliasesOf(add) !! gone
    ensures Added(m - gone, add) == Added(m, add) - gone
    decreases |add|
  {
    if add != [] {
      var n := |add| - 1;
      assert add == add[..n] + [add[n]];
      assert AliasesOf(add) == AliasesOf(add[..n]) + {add[n].alias};
      AddedCommutes(m, add[..n], gone);
      AddedKeys(m, add[..n]);
      UpdateCommutes(Added(m, add[..n]), gone, add[n].alias, NormalizeSettings(add[n].settings));
    }
  }

  lemma UpdateCommutes<V>(m: map<string, V>, gone: set<string>, alias: string, v: V)
    requires alias !in gone
    ensures (m - gone)[alias := v] == m[alias := v] - gone && (alias in m - gone <==> alias in m)
  {
  }

  /**
   What was reviewed is what is stored, exactly: on settled live targets a successful apply
   leaves what plan computed if and only if no alias is both added and removed and no target
   that is newly stored has a path whose cleaned form ends in white space.
   */
  lemma ApplyMatchesPlanExactly(live: Targets, p: Proposal)
    requires Trimmed(p) && SettledTargets(live) && Applied(live, p).Some?
    ensures Applied(live, p).value == Planned(live, p)
            <==> AliasesOf(p.addTargets) !! RemovedAliases(p)
                 && StoredSettled(Without(live, p.removeTargets), p.addTargets)
  {
    var gone := RemovedAliases(p);
    var base := Without(live, p.removeTargets);
    PlannedIs(live, p);
    RemoveEachGives(live, p.removeTargets);
    AddEachDrifts(base, p.addTargets);
    if AliasesOf(p.addTargets) !! gone {
      AddedCommutes(live, p.addTargets, gone);
      DriftsNowhereExactly(Applied(live, p).value, Added(base, p.addTargets));
      AddedSettledExactly(base, p.addTargets);
    } else {
      var k :| k in AliasesOf(p.addTargets) && k in gone;
      AddedKeys(base, p.addTargets);
      assert k in Added(base, p.addTargets).Keys && k in Applied(live, p).value && k !in Planned(live, p);
    }
  }

  /** The second half of that condition, on the proposed paths themselves. */
  lemma StoredSettledByPaths(m: Targets, add: seq<Target>)
    requires forall i :: 0 <= i < |add| ==> ValidSettings(NormalizeSettings(add[i].settings))
    ensures StoredSettled(m, add)
            <==> forall i :: 0 <= i < |add| && StoresAlias(m, add, i) ==> PathsEndClean(add[i].settings)
  {
    forall i | 0 <= i < |add|
      ensures SettledSettings(NormalizeSettings(add[i].settings)) <==> PathsEndClean(add[i].settings)
    {
      SettingsSettleExactly(add[i].settings);
    }
  }

  /** A path that uncovers white space when cleaned is stored differently from what was reviewed. */
  lemma UnsettledPathDrifts(t: Target, p: Proposal)
    requires t == Target("a", Settings("h", "u", 22, "", "", "", [], [], ["/x /"], []))
    requires p.addTargets == [t] && p.removeTargets == []
    ensures Planned(map[], p) == map["a" := t.settings.(prefixes := ["/x "])]
    ensures Applied(map[], p) == Some(map["a" := t.settings.(prefixes := ["/x"])])
  {
    var once, twice := t.settings.(prefixes := ["/x "]), t.settings.(prefixes := ["/x"]);
    SamplesNormalize(t.settings, once, twice);
    assert p.addTargets[..0] == [];
    DriftPlanned(t, p, once);
    DriftApplied(t, p, once, twice);
  }

  lemma SamplesNormalize(s: Settings, once: Settings, twice: Settings)
    requires s == Settings("h", "u", 22, "", "", "", [], [], ["/x /"], [])
    requires once == s.(prefixes := ["/x "]) && twice == s.(prefixes := ["/x"])
    ensures NormalizeSettings(s) == once && NormalizeSettings(once) == twice && NormalizeSettings(twice) == twice
  {
    CleanSamples();
    NormalizeOnePrefix(s, "/x /", "/x ");
    NormalizeOnePrefix(once, "/x ", "/x");
    NormalizeOnePrefix(twice, "/x", "/x");
  }

  lemma DriftPlanned(t: Target, p: Proposal, once: Settings)
    requires p.addTargets == [t] && p.removeTargets == [] && NormalizeSettings(t.settings) == once
    ensures Planned(map[], p) == map[t.alias := once]
  {
    var none: Targets := map[];
    PlannedIs(none, p);
    WithoutNone(Added(none, p.addTargets));
    assert p.addTargets[..0] == [];
    assert Added(none, p.addTargets[..0]) == none;
  }

  lemma DriftApplied(t: Target, p: Proposal, once: Settings, twice: Settings)
    requires p.addTargets == [t] && p.removeTargets == [] && t.alias == "a" && ValidSettings(once)
    requires NormalizeSettings(t.settings) == once && NormalizeSettings(once) == twice && NormalizeSettings(twice) == twice
    ensures Applied(map[], p) == Some(map["a" := twice])
  {
    assert TrimSpace("a") == "a";
    AddSingle(map[], t);
    AddFresh(map[], t, once);
    RereadSingle("a", once, twice);
  }

  lemma AddFresh(m: Targets, t: Target, once: Settings)
    requires TrimSpace(t.alias) == t.alias && t.alias != "" && t.alias !in m
    requires NormalizeSettings(t.settings) == once && ValidSettings(once)
    ensures AddOne(m, t) == Some(Reread(m[t.alias := once]))
  {
  }

  lemma RemoveOneMore(start: Option<Targets>, now: Option<Targets>, aliases: seq<string>, i: nat)
    requires i < |aliases| && (start.Some? ==> now == Some(RemoveEach(start.value, aliases[..i])))
    ensures start.Some? ==> RemoveEach(start.value, aliases[..i + 1]) == RemoveOne(now.value, aliases[i])
  {
    assert aliases[..i + 1][..i] == aliases[..i];
  }

  lemma AddOneMore(start: Option<Targets>, now: Option<Targets>, add: seq<Target>, i: nat)
    requires i < |add| && (start.Some? ==> now.Some? && now == AddEach(start.value, add[..i]))
    ensures start.Some? ==> AddEach(start.value, add[..i + 1]) == AddOne(now.value, add[i])
  {
    assert add[..i + 1][..i] == add[..i];
  }

  lemma AddSingle(m: Targets, t: Target)
    ensures AddEach(m, [t]) == AddOne(m, t)
  {
    assert [t][..0] == [];
    assert AddEach(m, [t][..0]) == Some(m);
  }

  lemma RereadSingle(alias: string, once: Settings, twice: Settings)
    requires NormalizeSettings(once) == twice && NormalizeSettings(twice) == twice
    ensures Reread(map[alias := once]) == map[alias := twice]
  {
    NormalizeSingle(alias, once, twice);
    NormalizeSingle(alias, twice, twice);
  }

  lemma NormalizeSingle(alias: string, s: Settings, n: Settings)
    requires NormalizeSettings(s) == n
    ensures NormalizeAll(map[alias := s]) == map[alias := n]
  {
  }

  lemma NormalizeOnePrefix(s: Settings, path: string, clean: string)
    requires s == Settings("h", "u", 22, "", "", "", [], [], [path], [])
    requires Shape(Form.Path, path) == clean && clean != ""
    ensures NormalizeSettings(s) == s.(prefixes := [clean])
  {
    assert TrimSpace("h") == "h" && TrimSpace("u") == "u" && TrimSpace("") == "";
    assert [path][..0] == [];
    assert Distinct([path][..0], Form.Path) == [];
    assert Distinct([path], Form.Path) == [clean];
    assert [clean][1..] == [];
    assert Sort([clean], Before) == Insert(clean, Sort([clean][1..], Before), Before);
    assert Insert(clean, [], Before) == [clean];
  }

  lemma CleanSamples()
    ensures Shape(Form.Path, "/x /") == "/x " && Shape(Form.Path, "/x ") == "/x" && Shape(Form.Path, "/x") == "/x"
  {
    assert TrimLeft("/x /") == "/x /" && TrimRight("/x /") == "/x /";
    assert TrimLeft("/x ") == "/x ";
    assert "/x "[..2] == "/x";
    assert TrimRight("/x ") == TrimRight("/x") == "/x";
    RootedSample("x ", "/x /", true);
    RootedSample("x", "/x", false);
  }

  lemma RootedSample(c: string, path: string, slash: bool)
    requires c == "x " || c == "x"
    requires path == "/" + c + if slash then "/" else ""
    ensures Paths.Clean(path) == "/" + c
  {
    SplitConcat("", path[1..], '/');
    assert path == "" + ['/'] + path[1..];
    SplitWhole("", '/');
    SplitWhole(c, '/');
    if slash {
      assert path[1..] == c + ['/'] + "";
      SplitConcat(c, "", '/');
    } else {
      assert path[1..] == c;
    }
    var comps := Split(path, '/');
    var tail := if slash then [""] else [];
    assert comps == [""] + ([c] + tail);
    assert comps[1..] == [c] + tail;
    assert ([c] + tail)[1..] == tail;
    assert Paths.Walk([c], []) == [c];
    assert Paths.Walk([c], [""]) == [c] by {
      assert [""][1..] == [];
    }
    assert Paths.Walk([], [c] + tail) == Paths.Walk([] + [c], tail);
    assert [] + [c] == [c];
    assert Paths.Flat([c]) == "/" + c + Paths.Flat([]);
  }

  // ---- the transaction ----

  datatype Content =
    | TargetsFile(targets: Targets)
    | SystemFile(system: System)
    | RegistryFile(apps: seq<AppDef.Definition>)
    | PolicyFile(rules: seq<Policy.Rule>)
    | OtherFile(text: string)

  datatype FileNames = FileNames(targets: string, system: string, policies: string, registry: string)

  datatype FileSnapshot = FileSnapshot(path: string, before: Option<Content>)

  function ContentAt(files: map<string, Content>, path: string): Option<Content> {
    if path in files then Some(files[path]) else None
  }

  function Four(paths: FileNames): set<string> {
    {paths.targets, paths.system, paths.policies, paths.registry}
  }

  lemma SameFiles(a: map<string, Content>, b: map<string, Content>)
    requires forall path :: ContentAt(a, path) == ContentAt(b, path)
    ensures a == b
  {
    assert forall path :: path in a <==> ContentAt(a, path).Some?;
    assert forall path :: path in b <==> ContentAt(b, path).Some?;
    assert a.Keys == b.Keys;
    assert forall path :: path in a ==> ContentAt(a, path) == Some(a[path]) && ContentAt(b, path) == Some(b[path]);
  }

  /** The files differ at most on the given paths. */
  ghost predicate SameElsewhere(a: map<string, Content>, b: map<string, Content>, on: set<string>) {
    forall path :: path !in on ==> ContentAt(a, path) == ContentAt(b, path)
  }

  /** The targets a file holds; a missing file is an empty list, an invalid one does not load. */
  function LoadTargets(files: map<string, Content>, path: string): Option<Targets> {
    if path !in files then Some(map[])
    else if files[path].TargetsFile? && ValidTargets(files[path].targets) then Some(NormalizeAll(files[path].targets))
    else None
  }

  function LoadRules(files: map<string, Content>, path: string): Option<seq<Policy.Rule>> {
    if path !in files then Some([]) else if files[path].PolicyFile? then Some(files[path].rules) else None
  }

  function LoadApps(files: map<string, Content>, path: string): Option<seq<AppDef.Definition>> {
    if path !in files then Some([]) else if files[path].RegistryFile? then Some(files[path].apps) else None
  }

  /** Everything apply consults besides the proposal and the four files. */
  datatype Setting = Setting(liveSystem: System, bundled: seq<AppDef.Definition>,
                             user: seq<AppDef.Definition>, systemMode: bool)

  // ---- the outcome of each part, as a relation between the files before and after ----

  /** The targets file holds the applied targets; without target changes it is not even read. */
  ghost predicate TargetsDone(before: map<string, Content>, after: map<string, Content>, path: string, p: Proposal) {
    var was := LoadTargets(before, path);
    if !ChangesTargets(p) then ContentAt(after, path) == ContentAt(before, path)
    else was.Some? && Applied(was.value, p).Some? && LoadTargets(after, path) == Applied(was.value, p)
  }

  predicate IsRemovedVerb(removed: seq<RemovedVerb>, app: string, action: string) {
    exists i :: 0 <= i < |removed| && removed[i].app == app && (removed[i].action == "" || removed[i].action == action)
  }

  /** The registry gives each verb as added, or else as it was unless removed. */
  ghost predicate RegistryDone(before: seq<AppDef.Definition>, after: seq<AppDef.Definition>, p: Proposal) {
    forall app, action ::
      Definitions.LastAction(after, app, action)
      == Definitions.Prefer(Definitions.LastAction(p.addApps, app, action),
                            if IsRemovedVerb(p.removeApps, app, action) then None
                            else Definitions.LastAction(before, app, action))
  }

  /** The registry is edited as proposed, and the whole namespace assembles with it. */
  ghost predicate AppsDone(before: map<string, Content>, after: map<string, Content>, path: string, p: Proposal,
                           env: Setting) {
    var was, now := LoadApps(before, path), LoadApps(after, path);
    if !ChangesApps(p) then ContentAt(after, path) == ContentAt(before, path)
    else
      && was.Some? && now.Some?
      && Definitions.Assembles(env.bundled, env.user, now.value, env.systemMode)
      && (Definitions.OneEntryPerApp(was.value) ==>
            Definitions.OneEntryPerApp(now.value) && RegistryDone(was.value, now.value, p))
  }

  predicate ChangesApps(p: Proposal) {
    p.addApps != [] || p.removeApps != []
  }

  predicate ChangesTargets(p: Proposal) {
    p.addTargets != [] || p.removeTargets != []
  }

  predicate IsRemovedRule(removed: seq<Policy.Rule>, r: Policy.Rule) {
    exists i :: 0 <= i < |removed| && RuleEqual(r, removed[i])
  }

  /** Exactly the rules no removal names are left. */
  ghost predicate RulesLeft(was: seq<Policy.Rule>, now: Option<seq<Policy.Rule>>, removed: seq<Policy.Rule>) {
    now.Some? && forall r :: r in now.value <==> r in was && !IsRemovedRule(removed, r)
  }

  /** The stored rules: what was there and not removed, then only proposed ones, none of them missing. */
  ghost predicate RulesDone(was: seq<Policy.Rule>, now: seq<Policy.Rule>, removed: seq<Policy.Rule>, add: seq<Policy.Rule>) {
    && (forall r :: r in was && !IsRemovedRule(removed, r) ==> r in now)
    && (forall r :: r in now ==> (r in was && !IsRemovedRule(removed, r)) || r in add)
    && (forall r :: r in add ==> r in now || exists q :: q in now && Policy.RulesEqual(q, r))
  }

  ghost predicate PolicyDone(before: map<string, Content>, after: map<string, Content>, path: string, p: Proposal) {
    var was, now := LoadRules(before, path), LoadRules(after, path);
    if p.addRules == [] && p.removeRules == [] then ContentAt(after, path) == ContentAt(before, path)
    else was.Some? && now.Some? && RulesDone(was.value, now.value, p.removeRules, p.addRules)
  }

  // ---- what a working disk accepts ----

  /** The targets file loads, and no proposed target is invalid or differs from a stored one of its alias. */
  predicate TargetsAcceptable(files: map<string, Content>, path: string, p: Proposal) {
    ChangesTargets(p) ==>
      LoadTargets(files, path).Some? && Applied(LoadTargets(files, path).value, p).Some?
  }

  /** The registry file loads, its edits do not conflict, and the whole namespace assembles with the result. */
  predicate AppsAcceptable(files: map<string, Content>, path: string, p: Proposal, env: Setting) {
    ChangesApps(p) ==>
      && LoadApps(files, path).Some? && EditedRegistry(LoadApps(files, path).value, p).Some?
      && Definitions.Assembles(env.bundled, env.user, EditedRegistry(LoadApps(files, path).value, p).value, env.systemMode)
  }

  predicate RulesAcceptable(files: map<string, Content>, path: string, p: Proposal) {
    p.addRules != [] || p.removeRules != [] ==> LoadRules(files, path).Some?
  }

  /** Nothing but a failing disk stops this proposal. */
  predicate Acceptable(files: map<string, Content>, paths: FileNames, p: Proposal, env: Setting) {
    && TargetsAcceptable(files, paths.targets, p) && ValidSystem(ReviewedSystem(p, env))
    && AppsAcceptable(files, paths.registry, p, env) && RulesAcceptable(files, paths.policies, p)
  }

  function RemoveVerbs(apps: seq<AppDef.Definition>, removed: seq<RemovedVerb>): seq<AppDef.Definition>
    decreases |removed|
  {
    if removed == [] then apps
    else
      var v := removed[|removed| - 1];
      Definitions.RemoveVerb(RemoveVerbs(apps, removed[..|removed| - 1]), v.app, v.action)
  }

  /** The registry after the proposal's removals and additions, unless an addition conflicts. */
  function EditedRegistry(apps: seq<AppDef.Definition>, p: Proposal): Option<seq<AppDef.Definition>> {
    Definitions.MergedAll(RemoveVerbs(apps, p.removeApps), p.addApps)
  }

  lemma {:induction false} RemovalsKeepOne(apps: seq<AppDef.Definition>, removed: seq<RemovedVerb>)
    requires Definitions.OneEntryPerApp(apps)
    ensures Definitions.OneEntryPerApp(RemoveVerbs(apps, removed))
    decreases |removed|
  {
    if removed != [] {
      var n := |removed| - 1;
      RemovalsKeepOne(apps, removed[..n]);
      Definitions.RemoveVerbKeepsOne(RemoveVerbs(apps, removed[..n]), removed[n].app, removed[n].action);
    }
  }

  /**
   When a registry can be edited as proposed: once the removals are made, no two definitions of
   an app, stored or proposed, disagree on executor or security mode.
   */
  lemma EditedRegistryExactly(apps: seq<AppDef.Definition>, p: Proposal)
    requires Definitions.OneEntryPerApp(apps)
    ensures EditedRegistry(apps, p).Some?
            <==> Definitions.NoConflict(Definitions.BundledMap(RemoveVerbs(apps, p.removeApps)), p.addApps)
  {
    RemovalsKeepOne(apps, p.removeApps);
    Definitions.MergedAllExactly(RemoveVerbs(apps, p.removeApps), p.addApps);
  }

  /**
   Which additions are refused, told from the target as proposed: one without an alias, host or
   user, with a port or criticality out of range or a relative path, and one whose alias is
   stored with settings that differ.
   */
  lemma AdditionRefusedExactly(m: Targets, t: Target)
    ensures var s := t.settings;
            AddOne(m, t).None?
            <==> || TrimSpace(t.alias) == "" || TrimSpace(s.host) == "" || TrimSpace(s.user) == ""
                 || s.port < 0 || s.port > 65535 || TrimSpace(s.criticality) !in ["", "prod", "staging", "lab"]
                 || !EntriesAbsolute(s.paths) || !EntriesAbsolute(s.prefixes) || !EntriesAbsolute(s.uploadSources)
                 || (TrimSpace(t.alias) in m && t.alias in m && !SameSettings(m[t.alias], NormalizeSettings(s)))
  {
    ProposedValidExactly(t.settings);
  }

  lemma LoadedIsValid(files: map<string, Content>, path: string)
    ensures LoadTargets(files, path).Some? ==> ValidTargets(LoadTargets(files, path).value)
  {
    if path in files && LoadTargets(files, path).Some? {
      NormalizedIsValid(files[path].targets);
    }
  }

  lemma NormalizedIsValid(m: Targets)
    requires ValidTargets(m)
    ensures ValidTargets(NormalizeAll(m))
  {
    forall k | k in m ensures ValidSettings(NormalizeSettings(m[k])) {
      ValidStays(m[k]);
    }
  }

  lemma LeftIsValid(m: Targets, alias: string)
    requires ValidTargets(m)
    ensures ValidTargets(NormalizeAll(m - {alias}))
  {
    NormalizedIsValid(m - {alias});
  }

  lemma GrownIsValid(m: Targets, alias: string, s: Settings)
    requires ValidTargets(m) && TrimSpace(alias) != "" && ValidSettings(s)
    ensures ValidTargets(NormalizeAll(m[TrimSpace(alias) := s]))
  {
    TrimSpaceTwice(alias);
    NormalizedIsValid(m[TrimSpace(alias) := s]);
  }

  lemma {:induction false} AddEachFront(start: Option<Targets>, add: seq<Target>, n: nat)
    requires n <= |add|
    ensures start.Some? && AddEach(start.value, add).Some? ==> AddEach(start.value, add[..n]).Some?
    decreases |add| - n
  {
    if n < |add| {
      AddEachFront(start, add, n + 1);
      assert add[..n + 1][..n] == add[..n];
    } else {
      assert add[..n] == add;
    }
  }

  // ---- writes that fail ----

  /** What becomes of one write or removal; a failing write may leave the file cut short. */
  datatype Fate = Works | FailsUntouched | FailsTruncated

  const TRUNCATED: Content := OtherFile("")

  /** The content of a file after an attempt to make it `want` (nothing: to remove it). */
  function Outcome(now: Option<Content>, want: Option<Content>, fate: Fate): Option<Content> {
    match fate
    case Works => want
    case FailsUntouched => now
    case FailsTruncated => if want.Some? then Some(TRUNCATED) else now
  }

  function Put(files: map<string, Content>, path: string, c: Option<Content>): map<string, Content> {
    if c.Some? then files[path := c.value] else files - {path}
  }

  lemma PutSets(files: map<string, Content>, path: string, c: Option<Content>)
    ensures ContentAt(Put(files, path, c), path) == c && SameElsewhere(Put(files, path, c), files, {path})
  {
  }

  /** The files on disk; the operation numbered `n` fares as `fates` says, and works if it says nothing. */
  class Disk {
    var files: map<string, Content>
    var writes: nat
    const fates: map<nat, Fate>

    constructor (files: map<string, Content>, fates: map<nat, Fate>)
      ensures this.files == files && this.fates == fates && writes == 0
    {
      this.files, this.fates, writes := files, fates, 0;
    }

    function FateOf(n: nat): Fate {
      if n in fates then fates[n] else Works
    }

    /** Every operation from the `n`-th on works. */
    ghost predicate WorksFrom(n: nat) {
      forall k: nat :: n <= k ==> FateOf(k).Works?
    }

    /** One operation on the disk: makes the file `want`, or removes it. */
    method Attempt(path: string, want: Option<Content>) returns (ok: bool)
      modifies this
      ensures writes == old(writes) + 1 && (ok <==> FateOf(old(writes)).Works?)
      ensures ContentAt(files, path) == Outcome(ContentAt(old(files), path), want, FateOf(old(writes)))
      ensures SameElsewhere(files, old(files), {path})
    {
      var fate := FateOf(writes);
      var c := Outcome(ContentAt(files, path), want, fate);
      writes := writes + 1;
      PutSets(files, path, c);
      files := Put(files, path, c);
      ok := fate.Works?;
    }

    method Snapshot(paths: seq<string>) returns (snaps: seq<FileSnapshot>)
      ensures |snaps| == |paths|
      ensures forall i :: 0 <= i < |paths| ==> snaps[i] == FileSnapshot(paths[i], ContentAt(files, paths[i]))
    {
      snaps := [];
      for i := 0 to |paths|
        invariant |snaps| == i
        invariant forall k :: 0 <= k < i ==> snaps[k] == FileSnapshot(paths[k], ContentAt(files, paths[k]))
      {
        snaps := snaps + [FileSnapshot(paths[i], ContentAt(files, paths[i]))];
      }
    }

    /**
     Writes back what existed and deletes what did not.  Errors are ignored, so each file ends
     as its own operation leaves it.
     */
    method Restore(snaps: seq<FileSnapshot>)
      requires forall i, j :: 0 <= i < j < |snaps| ==> snaps[i].path != snaps[j].path
      modifies this
      ensures SameElsewhere(files, old(files), set s | s in snaps :: s.path)
      ensures forall i :: 0 <= i < |snaps| ==>
                ContentAt(files, snaps[i].path)
                == Outcome(ContentAt(old(files), snaps[i].path), snaps[i].before, FateOf(old(writes) + i))
    {
      ghost var start := writes;
      for i := 0 to |snaps|
        invariant writes == start + i
        invariant SameElsewhere(files, old(files), set s | s in snaps[..i] :: s.path)
        invariant forall k :: 0 <= k < i ==>
                    ContentAt(files, snaps[k].path)
                    == Outcome(ContentAt(old(files), snaps[k].path), snaps[k].before, FateOf(start + k))
      {
        assert snaps[..i + 1] == snaps[..i] + [snaps[i]];
        assert forall s :: s in snaps[..i] ==> s.path != snaps[i].path;
        var _ := Attempt(snaps[i].path, snaps[i].before);
      }
      assert snaps[..|snaps|] == snaps;
    }

    /** Writes one file, unless this write is one of those that fail. */
    method Save(path: string, c: Content) returns (ok: bool)
      modifies this
      ensures writes == old(writes) + 1 && (ok <==> FateOf(old(writes)).Works?)
      ensures ok ==> files == old(files)[path := c]
      ensures SameElsewhere(files, old(files), {path})
    {
      ok := Attempt(path, Some(c));
      if ok {
        SameFiles(files, old(files)[path := c]);
      }
    }

    /** Normalises and checks the targets before writing them. */
    method SaveTargets(path: string, m: Targets) returns (ok: bool)
      modifies this
      ensures SameElsewhere(files, old(files), {path}) && writes >= old(writes)
      ensures ok ==> LoadTargets(files, path) == Some(Reread(m))
      ensures ValidTargets(NormalizeAll(m)) && FateOf(old(writes)).Works? ==> ok
    {
      if !ValidTargets(NormalizeAll(m)) {
        return false;
      }
      ok := Save(path, TargetsFile(NormalizeAll(m)));
    }

    method RemoveTarget(path: string, alias: string) returns (ok: bool)
      modifies this
      ensures SameElsewhere(files, old(files), {path}) && writes >= old(writes)
      ensures ok ==> LoadTargets(old(files), path).Some?
                     && LoadTargets(files, path) == Some(RemoveOne(LoadTargets(old(files), path).value, alias))
      ensures FateOf(old(writes)).Works? && LoadTargets(old(files), path).Some? ==> ok
    {
      var m := LoadTargets(files, path);
      if m.None? {
        return false;
      }
      LoadedIsValid(files, path);
      LeftIsValid(m.value, TrimSpace(alias));
      if TrimSpace(alias) !in m.value {
        return true;
      }
      ok := SaveTargets(path, m.value - {TrimSpace(alias)});
    }

    /** Adds a target, or refuses a re-add whose settings differ from the stored ones. */
    method AddTarget(path: string, t: Target) returns (ok: bool)
      modifies this
      ensures SameElsewhere(files, old(files), {path}) && writes >= old(writes)
      ensures (FateOf(old(writes)).Works? && LoadTargets(old(files), path).Some?
               && AddOne(LoadTargets(old(files), path).value, t).Some?) ==> ok
      ensures ok ==> LoadTargets(old(files), path).Some?
                     && AddOne(LoadTargets(old(files), path).value, t).Some?
                     && LoadTargets(files, path) == AddOne(LoadTargets(old(files), path).value, t)
    {
      var m := LoadTargets(files, path);
      var proposed := NormalizeSettings(t.settings);
      if m.None? || TrimSpace(t.alias) == "" || !ValidSettings(proposed) {
        return false;
      }
      if TrimSpace(t.alias) in m.value {
        return !(t.alias in m.value && !SameSettings(m.value[t.alias], proposed));
      }
      LoadedIsValid(files, path);
      GrownIsValid(m.value, t.alias, proposed);
      ok := SaveTargets(path, m.value[TrimSpace(t.alias) := proposed]);
    }

    /** Removals, the file rewritten at each change. */
    method RemoveTargets(path: string, aliases: seq<string>) returns (ok: bool)
      modifies this
      ensures SameElsewhere(files, old(files), {path}) && writes >= old(writes)
      ensures WorksFrom(old(writes)) && LoadTargets(old(files), path).Some? ==> ok
      ensures aliases == [] ==> ok && files == old(files) && writes == old(writes)
      ensures ok && aliases != [] ==> LoadTargets(old(files), path).Some?
      ensures ok && LoadTargets(old(files), path).Some? ==>
                LoadTargets(files, path) == Some(RemoveEach(LoadTargets(old(files), path).value, aliases))
    {
      ghost var start := LoadTargets(files, path);
      for i := 0 to |aliases|
        invariant i == 0 ==> files == old(files) && writes == old(writes)
        invariant i > 0 ==> start.Some?
        invariant start.Some? ==> LoadTargets(files, path) == Some(RemoveEach(start.value, aliases[..i]))
        invariant SameElsewhere(files, old(files), {path}) && writes >= old(writes)
      {
        RemoveOneMore(start, LoadTargets(files, path), aliases, i);
        ok := RemoveTarget(path, aliases[i]);
        if !ok {
          return;
        }
      }
      assert aliases[..|aliases|] == aliases;
      ok := true;
    }

    /** Additions, the file rewritten at each change. */
    method AddTargets(path: string, add: seq<Target>) returns (ok: bool)
      modifies this
      ensures SameElsewhere(files, old(files), {path}) && writes >= old(writes)
      ensures (WorksFrom(old(writes)) && LoadTargets(old(files), path).Some?
               && AddEach(LoadTargets(old(files), path).value, add).Some?) ==> ok
      ensures add == [] ==> ok && files == old(files) && writes == old(writes)
      ensures ok && add != [] ==> LoadTargets(old(files), path).Some?
      ensures ok && LoadTargets(old(files), path).Some? ==>
                && LoadTargets(files, path).Some?
                && LoadTargets(files, path) == AddEach(LoadTargets(old(files), path).value, add)
    {
      ghost var start := LoadTargets(files, path);
      for i := 0 to |add|
        invariant i == 0 ==> files == old(files) && writes == old(writes)
        invariant i > 0 ==> start.Some?
        invariant start.Some? ==>
                    && LoadTargets(files, path).Some?
                    && LoadTargets(files, path) == AddEach(start.value, add[..i])
        invariant SameElsewhere(files, old(files), {path}) && writes >= old(writes)
      {
        AddOneMore(start, LoadTargets(files, path), add, i);
        AddEachFront(start, add, i + 1);
        ok := AddTarget(path, add[i]);
        if !ok {
          return;
        }
      }
      assert add[..|add|] == add;
      ok := true;
    }

    /** Removals, then additions. */
    method ApplyTargets(path: string, p: Proposal) returns (ok: bool)
      modifies this
      ensures SameElsewhere(files, old(files), {path}) && writes >= old(writes)
      ensures WorksFrom(old(writes)) ==> (ok <==> TargetsAcceptable(old(files), path, p))
      ensures ok ==> TargetsDone(old(files), files, path, p)
      ensures !ChangesTargets(p) ==> ok && files == old(files) && writes == old(writes)
    {
      ok := RemoveTargets(path, p.removeTargets);
      if ok {
        ok := AddTargets(path, p.addTargets);
      }
    }

    /** Registry edits: removals, additions, one write, and a trial assembly of the result. */
    method ApplyAppDefinitions(path: string, p: Proposal, env: Setting) returns (ok: bool)
      modifies this
      ensures SameElsewhere(files, old(files), {path}) && writes >= old(writes)
      ensures WorksFrom(old(writes)) ==> (ok <==> AppsAcceptable(old(files), path, p, env))
      ensures ok ==> AppsDone(old(files), files, path, p, env)
      ensures ChangesApps(p) && LoadApps(old(files), path).None? ==> !ok && files == old(files) && writes == old(writes)
    {
      if !ChangesApps(p) {
        return true;
      }
      var apps := LoadApps(files, path);
      if apps.None? {
        return false;
      }
      var list := EditRegistry(apps.value, p);
      if list.None? {
        return false;
      }
      ok := Save(path, RegistryFile(list.value));
      if !ok {
        return;
      }
      var trial := Definitions.AssembleDefinitions(env.bundled, env.user, list.value, env.systemMode);
      ok := trial.Some?;
    }

    /** Policy removals, the file rewritten at each change. */
    method RemoveRules(path: string, removed: seq<Policy.Rule>) returns (ok: bool)
      modifies this
      ensures SameElsewhere(files, old(files), {path}) && writes >= old(writes)
      ensures WorksFrom(old(writes)) && LoadRules(old(files), path).Some? ==> ok
      ensures removed == [] ==> ok && files == old(files) && writes == old(writes)
      ensures ok && removed != [] ==> LoadRules(old(files), path).Some? && LoadRules(files, path).Some?
      ensures ok && LoadRules(old(files), path).Some? ==>
                RulesLeft(LoadRules(old(files), path).value, LoadRules(files, path), removed)
    {
      ghost var start := LoadRules(files, path);
      for i := 0 to |removed|
        invariant i == 0 ==> files == old(files) && writes == old(writes)
        invariant i > 0 ==> start.Some?
        invariant start.Some? ==> RulesLeft(start.value, LoadRules(files, path), removed[..i])
        invariant SameElsewhere(files, old(files), {path}) && writes >= old(writes)
      {
        var rules := LoadRules(files, path);
        if rules.None? {
          return false;
        }
        assert forall r :: IsRemovedRule(removed[..i + 1], r) <==> IsRemovedRule(removed[..i], r) || RuleEqual(r, removed[i]) by {
          RemovedSnoc(removed, i);
        }
        var kept := RemoveEqual(rules.value, removed[i]);
        if |kept| != |rules.value| {
          ok := Save(path, PolicyFile(kept));
          if !ok {
            return;
          }
        }
      }
      assert removed[..|removed|] == removed;
      ok := true;
    }

    /** Policy additions, the file rewritten at each change. */
    method AddRules(path: string, add: seq<Policy.Rule>) returns (ok: bool)
      modifies this
      ensures SameElsewhere(files, old(files), {path}) && writes >= old(writes)
      ensures WorksFrom(old(writes)) && LoadRules(old(files), path).Some? ==> ok
      ensures add == [] ==> ok && files == old(files)
      ensures ok && add != [] ==> LoadRules(old(files), path).Some?
      ensures ok && LoadRules(old(files), path).Some? ==>
                && LoadRules(files, path).Some?
                && RulesDone(LoadRules(old(files), path).value, LoadRules(files, path).value, [], add)
    {
      ghost var start := LoadRules(files, path);
      for i := 0 to |add|
        invariant i == 0 ==> files == old(files)
        invariant i > 0 ==> start.Some?
        invariant start.Some? ==>
                    && LoadRules(files, path).Some?
                    && RulesDone(start.value, LoadRules(files, path).value, [], add[..i])
        invariant SameElsewhere(files, old(files), {path}) && writes >= old(writes)
      {
        var rules := LoadRules(files, path);
        if rules.None? {
          return false;
        }
        assert add[..i + 1] == add[..i] + [add[i]];
        var out, added := Policy.AddRule(rules.value, add[i]);
        AddedRuleKept(rules.value, out, add[i], added);
        if added {
          ok := Save(path, PolicyFile(out));
          if !ok {
            return;
          }
        }
        RulesDoneStep(start.value, rules.value, out, add[..i], add[i]);
      }
      assert add[..|add|] == add;
      ok := true;
    }

    /** Policy edits: removals, then additions. */
    method ApplyRules(path: string, p: Proposal) returns (ok: bool)
      modifies this
      ensures SameElsewhere(files, old(files), {path}) && writes >= old(writes)
      ensures WorksFrom(old(writes)) ==> (ok <==> RulesAcceptable(old(files), path, p))
      ensures ok ==> PolicyDone(old(files), files, path, p)
    {
      ok := RemoveRules(path, p.removeRules);
      if !ok {
        return;
      }
      ghost var middle := files;
      ok := AddRules(path, p.addRules);
      if ok && LoadRules(old(files), path).Some? {
        RulesDoneAfterRemoval(LoadRules(old(files), path).value, LoadRules(middle, path).value,
                              LoadRules(files, path).value, p);
      }
    }

    /** The mutations in order; the first failure stops them. */
    method ApplyMutations(paths: FileNames, p: Proposal, env: Setting) returns (ok: bool)
      requires DistinctNames(paths)
      modifies this
      ensures SameElsewhere(files, old(files), Four(paths))
      ensures WorksFrom(old(writes)) ==> (ok <==> Acceptable(old(files), paths, p, env))
      ensures writes >= old(writes)
      ensures ok ==> AllDone(old(files), files, paths, p, env)
      ensures StopsAtRegistry(old(files), paths, p, env) && FateOf(old(writes)).Works? ==>
                && !ok && writes == old(writes) + 1
                && files == old(files)[paths.system := SystemFile(ReviewedSystem(p, env))]
    {
      ok := ApplyTargetsAndSystem(paths, p, env);
      if !ok {
        return;
      }
      ghost var middle := files;
      StillAcceptable(old(files), middle, paths, p, env);
      ok := ApplyVerbsAndRules(paths, p, env);
      if ok {
        DoneTogether(old(files), middle, files, paths, p, env);
      }
    }

    /** The first two parts: ssh targets, then the system configuration. */
    method ApplyTargetsAndSystem(paths: FileNames, p: Proposal, env: Setting) returns (ok: bool)
      requires DistinctNames(paths)
      modifies this
      ensures SameElsewhere(files, old(files), {paths.targets, paths.system}) && writes >= old(writes)
      ensures WorksFrom(old(writes)) ==> (ok <==> TargetsAcceptable(old(files), paths.targets, p) && ValidSystem(ReviewedSystem(p, env)))
      ensures ok ==> TargetsDone(old(files), files, paths.targets, p)
                     && ContentAt(files, paths.system) == Some(SystemFile(ReviewedSystem(p, env)))
      ensures !ChangesTargets(p) && ValidSystem(ReviewedSystem(p, env)) && FateOf(old(writes)).Works? ==>
                ok && writes == old(writes) + 1 && files == old(files)[paths.system := SystemFile(ReviewedSystem(p, env))]
    {
      ok := ApplyTargets(paths.targets, p);
      if !ok {
        return;
      }
      ghost var first := files;
      var system := ReviewedSystem(p, env);
      if !ValidSystem(system) {
        return false;
      }
      ok := Save(paths.system, SystemFile(system));
      LoadsAlike(first, files, paths.targets);
    }

    /** The last two parts: the verb registry, then the policy rules. */
    method ApplyVerbsAndRules(paths: FileNames, p: Proposal, env: Setting) returns (ok: bool)
      requires DistinctNames(paths)
      modifies this
      ensures SameElsewhere(files, old(files), {paths.registry, paths.policies}) && writes >= old(writes)
      ensures WorksFrom(old(writes)) ==>
                (ok <==> AppsAcceptable(old(files), paths.registry, p, env) && RulesAcceptable(old(files), paths.policies, p))
      ensures ok ==> AppsDone(old(files), files, paths.registry, p, env) && PolicyDone(old(files), files, paths.policies, p)
      ensures ChangesApps(p) && LoadApps(old(files), paths.registry).None? ==> !ok && files == old(files) && writes == old(writes)
    {
      ok := ApplyAppDefinitions(paths.registry, p, env);
      if !ok {
        return;
      }
      ghost var first := files;
      AcceptableAlike(old(files), first, paths.policies, p, env);
      ok := ApplyRules(paths.policies, p);
      LoadsAlike(old(files), first, paths.policies);
      LoadsAlike(first, files, paths.registry);
    }

    /**
     The transaction.  A successful apply carries out every part, touches nothing but the four
     files, and leaves exactly the targets that were reviewed.  When it fails, in the state
     `failed`, the disk ends as it was exactly when each of the four restoring operations works
     or does no harm.
     */
    method ApplyProposal(paths: FileNames, p: Proposal, env: Setting) returns (ok: bool, ghost failed: Failure)
      requires DistinctNames(paths)
      modifies this
      ensures SameElsewhere(files, old(files), Four(paths))
      ensures WorksFrom(old(writes)) ==> (ok <==> Acceptable(old(files), paths, p, env)) && (!ok ==> files == old(files))
      ensures ok ==> AllDone(old(files), files, paths, p, env)
      ensures ok && Trimmed(p) && LoadTargets(old(files), paths.targets).Some?
              && SettledTargets(LoadTargets(old(files), paths.targets).value) ==>
                (LoadTargets(files, paths.targets) == Some(Planned(LoadTargets(old(files), paths.targets).value, p))
                 <==> Reviewable(LoadTargets(old(files), paths.targets).value, p))
      ensures !ok ==> (files == old(files) <==> RestoreSucceeds(failed, old(files), paths))
      ensures !ok ==> AllRestoredBy(failed, old(files), files, paths) && SameElsewhere(failed.files, old(files), Four(paths))
      ensures StopsAtRegistry(old(files), paths, p, env) && FateOf(old(writes)).Works? ==>
                && !ok
                && failed == Failure(old(files)[paths.system := SystemFile(ReviewedSystem(p, env))], old(writes) + 1)
    {
      ghost var before := files;
      var list := [paths.targets, paths.system, paths.policies, paths.registry];
      var snaps := Snapshot(list);
      ok := ApplyMutations(paths, p, env);
      failed := Failure(files, writes);
      if !ok {
        assert snaps == SnapsOf(before, paths);
        SnapPaths(before, paths);
        Restore(snaps);
        assert AllRestoredBy(failed, before, files, paths) by {
          assert forall k :: 0 <= k < 4 ==> RestoredBy(failed, before, files, snaps[k].path, k);
          assert snaps[0].path == paths.targets && snaps[1].path == paths.system
              && snaps[2].path == paths.policies && snaps[3].path == paths.registry;
        }
        RestoredExactly(failed, before, files, paths);
        WorkingDiskRestores(failed, before, paths, old(writes));
      } else if Trimmed(p) && LoadTargets(before, paths.targets).Some?
             && SettledTargets(LoadTargets(before, paths.targets).value) {
        ReviewedTargets(before, files, paths.targets, p);
      }
    }

    /** The restoring operation on one file works, or its failure does no harm. */
    predicate RestoreHarmless(failed: Failure, original: map<string, Content>, path: string, k: nat) {
      var now, want := ContentAt(failed.files, path), ContentAt(original, path);
      match FateOf(failed.writes + k)
      case Works => true
      case FailsUntouched => now == want
      case FailsTruncated => if want.Some? then want == Some(TRUNCATED) else now == want
    }

    /** The four files are restored one after the other. */
    predicate RestoreSucceeds(failed: Failure, original: map<string, Content>, paths: FileNames) {
      && RestoreHarmless(failed, original, paths.targets, 0) && RestoreHarmless(failed, original, paths.system, 1)
      && RestoreHarmless(failed, original, paths.policies, 2) && RestoreHarmless(failed, original, paths.registry, 3)
    }

    lemma WorkingDiskRestores(failed: Failure, original: map<string, Content>, paths: FileNames, n: nat)
      requires n <= failed.writes
      ensures WorksFrom(n) ==> RestoreSucceeds(failed, original, paths)
    {
    }

    ghost predicate RestoredBy(failed: Failure, original: map<string, Content>, end: map<string, Content>, path: string, k: nat) {
      ContentAt(end, path) == Outcome(ContentAt(failed.files, path), ContentAt(original, path), FateOf(failed.writes + k))
    }

    /** Each of the four files ends as its own restoring operation leaves it. */
    ghost predicate AllRestoredBy(failed: Failure, original: map<string, Content>, end: map<string, Content>, paths: FileNames) {
      && RestoredBy(failed, original, end, paths.targets, 0) && RestoredBy(failed, original, end, paths.system, 1)
      && RestoredBy(failed, original, end, paths.policies, 2) && RestoredBy(failed, original, end, paths.registry, 3)
    }

    /** Restoring operations that change nothing leave the failure as it is. */
    lemma LeftAsFailed(failed: Failure, original: map<string, Content>, end: map<string, Content>, paths: FileNames)
      requires SameElsewhere(failed.files, original, Four(paths)) && SameElsewhere(end, original, Four(paths))
      requires AllRestoredBy(failed, original, end, paths)
      requires forall path :: path in Four(paths) && path != paths.system ==>
                 ContentAt(failed.files, path) == ContentAt(original, path)
      requires ContentAt(original, paths.targets) == None && ContentAt(original, paths.policies) == None
      requires FateOf(failed.writes + 1).FailsUntouched? && FateOf(failed.writes + 3).Works?
      ensures end == failed.files
    {
      forall path ensures ContentAt(end, path) == ContentAt(failed.files, path) {
        if path !in Four(paths) {
          assert ContentAt(end, path) == ContentAt(original, path) == ContentAt(failed.files, path);
        }
      }
      SameFiles(end, failed.files);
    }

    lemma RestoredExactly(failed: Failure, original: map<string, Content>, end: map<string, Content>, paths: FileNames)
      requires SameElsewhere(failed.files, original, Four(paths)) && SameElsewhere(end, failed.files, Four(paths))
      requires AllRestoredBy(failed, original, end, paths)
      ensures end == original <==> RestoreSucceeds(failed, original, paths)
    {
      if RestoreSucceeds(failed, original, paths) {
        forall path ensures ContentAt(end, path) == ContentAt(original, path) {
          if path !in Four(paths) {
            assert ContentAt(end, path) == ContentAt(failed.files, path) == ContentAt(original, path);
          }
        }
        SameFiles(end, original);
      }
    }
  }

  /** The files, and the number of the next write, when the mutations gave up. */
  datatype Failure = Failure(files: map<string, Content>, writes: nat)

  function SnapsOf(files: map<string, Content>, paths: FileNames): seq<FileSnapshot> {
    [FileSnapshot(paths.targets, ContentAt(files, paths.targets)), FileSnapshot(paths.system, ContentAt(files, paths.system)),
     FileSnapshot(paths.policies, ContentAt(files, paths.policies)), FileSnapshot(paths.registry, ContentAt(files, paths.registry))]
  }

  lemma SnapPaths(files: map<string, Content>, paths: FileNames)
    requires DistinctNames(paths)
    ensures (set s | s in SnapsOf(files, paths) :: s.path) == Four(paths)
    ensures forall i, j :: 0 <= i < j < 4 ==> SnapsOf(files, paths)[i].path != SnapsOf(files, paths)[j].path
  {
    var snaps := SnapsOf(files, paths);
    assert snaps[0] in snaps && snaps[1] in snaps && snaps[2] in snaps && snaps[3] in snaps;
  }

  function ReviewedSystem(p: Proposal, env: Setting): System {
    NormalizeSystem(EffectiveSystem(env.liveSystem, p.system))
  }

  /** A proposal that changes verbs only, against a registry file that does not load. */
  predicate StopsAtRegistry(files: map<string, Content>, paths: FileNames, p: Proposal, env: Setting) {
    && DistinctNames(paths) && !ChangesTargets(p) && ChangesApps(p)
    && ValidSystem(ReviewedSystem(p, env)) && LoadApps(files, paths.registry).None?
  }

  /**
   A run that ends partly applied: the system file is written, the registry does not load, and
   the operation that should take the system file away again fails.
   */
  method PartlyAppliedRun(paths: FileNames, p: Proposal, env: Setting) returns (disk: Disk, ghost before: map<string, Content>)
    requires DistinctNames(paths) && !ChangesTargets(p) && ChangesApps(p) && ValidSystem(ReviewedSystem(p, env))
    ensures fresh(disk) && before == map[paths.registry := OtherFile("not a registry")]
    ensures disk.files == before[paths.system := SystemFile(ReviewedSystem(p, env))] && disk.files != before
  {
    disk := new Disk(map[paths.registry := OtherFile("not a registry")], map[2 := FailsUntouched]);
    before := disk.files;
    assert StopsAtRegistry(before, paths, p, env) && disk.FateOf(0).Works?;
    var ok: bool;
    ghost var failed: Failure;
    ok, failed := disk.ApplyProposal(paths, p, env);
    disk.LeftAsFailed(failed, before, disk.files, paths);
    assert paths.system !in before;
  }

  predicate DistinctNames(paths: FileNames) {
    && paths.targets != paths.system && paths.targets != paths.policies && paths.targets != paths.registry
    && paths.system != paths.policies && paths.system != paths.registry && paths.policies != paths.registry
  }

  /** Everything a successful apply has done to the four files. */
  ghost predicate AllDone(before: map<string, Content>, after: map<string, Content>, paths: FileNames, p: Proposal,
                          env: Setting) {
    && TargetsDone(before, after, paths.targets, p)
    && ContentAt(after, paths.system) == Some(SystemFile(ReviewedSystem(p, env)))
    && AppsDone(before, after, paths.registry, p, env)
    && PolicyDone(before, after, paths.policies, p)
  }

  /** What a caller can check before applying. */
  predicate Reviewable(live: Targets, p: Proposal) {
    AliasesOf(p.addTargets) !! RemovedAliases(p) && StoredSettled(Without(live, p.removeTargets), p.addTargets)
  }

  lemma ReviewedTargets(before: map<string, Content>, after: map<string, Content>, path: string, p: Proposal)
    requires TargetsDone(before, after, path, p) && LoadTargets(before, path).Some?
    requires Trimmed(p) && SettledTargets(LoadTargets(before, path).value)
    ensures LoadTargets(after, path) == Some(Planned(LoadTargets(before, path).value, p))
            <==> Reviewable(LoadTargets(before, path).value, p)
  {
    if !ChangesTargets(p) {
      LoadsAlike(before, after, path);
      PlannedIs(LoadTargets(before, path).value, p);
      WithoutNone(LoadTargets(before, path).value);
    } else {
      ApplyMatchesPlanExactly(LoadTargets(before, path).value, p);
    }
  }

  lemma LoadsAlike(a: map<string, Content>, b: map<string, Content>, path: string)
    requires ContentAt(a, path) == ContentAt(b, path)
    ensures LoadTargets(a, path) == LoadTargets(b, path) && LoadApps(a, path) == LoadApps(b, path)
    ensures LoadRules(a, path) == LoadRules(b, path)
  {
    assert path in a <==> ContentAt(a, path).Some?;
    assert path in b <==> ContentAt(b, path).Some?;
  }

  lemma AcceptableAlike(a: map<string, Content>, b: map<string, Content>, path: string, p: Proposal, env: Setting)
    requires ContentAt(a, path) == ContentAt(b, path)
    ensures AppsAcceptable(a, path, p, env) <==> AppsAcceptable(b, path, p, env)
    ensures RulesAcceptable(a, path, p) <==> RulesAcceptable(b, path, p)
  {
    LoadsAlike(a, b, path);
  }

  lemma StillAcceptable(start: map<string, Content>, middle: map<string, Content>, paths: FileNames, p: Proposal, env: Setting)
    requires DistinctNames(paths) && SameElsewhere(middle, start, {paths.targets, paths.system})
    ensures Acceptable(start, paths, p, env)
            <==> && TargetsAcceptable(start, paths.targets, p) && ValidSystem(ReviewedSystem(p, env))
                 && AppsAcceptable(middle, paths.registry, p, env) && RulesAcceptable(middle, paths.policies, p)
    ensures LoadApps(middle, paths.registry) == LoadApps(start, paths.registry)
  {
    AcceptableAlike(start, middle, paths.registry, p, env);
    AcceptableAlike(start, middle, paths.policies, p, env);
    LoadsAlike(start, middle, paths.registry);
  }

  /** The four parts do not disturb each other. */
  lemma DoneTogether(start: map<string, Content>, middle: map<string, Content>, end: map<string, Content>,
                     paths: FileNames, p: Proposal, env: Setting)
    requires DistinctNames(paths)
    requires SameElsewhere(middle, start, {paths.targets, paths.system})
    requires SameElsewhere(end, middle, {paths.registry, paths.policies})
    requires TargetsDone(start, middle, paths.targets, p)
    requires ContentAt(middle, paths.system) == Some(SystemFile(ReviewedSystem(p, env)))
    requires AppsDone(middle, end, paths.registry, p, env) && PolicyDone(middle, end, paths.policies, p)
    ensures AllDone(start, end, paths, p, env)
  {
    LoadsAlike(middle, end, paths.targets);
    LoadsAlike(start, middle, paths.registry);
    LoadsAlike(start, middle, paths.policies);
  }

  /** Removes, then merges, the proposal's verbs. */
  method EditRegistry(apps: seq<AppDef.Definition>, p: Proposal) returns (out: Option<seq<AppDef.Definition>>)
    ensures out == EditedRegistry(apps, p)
    ensures out.Some? && Definitions.OneEntryPerApp(apps) ==>
              Definitions.OneEntryPerApp(out.value) && RegistryDone(apps, out.value, p)
  {
    var list := RemoveEntries(apps, p.removeApps);
    out := AddEntries(list, p.addApps);
  }

  method RemoveEntries(apps: seq<AppDef.Definition>, removed: seq<RemovedVerb>) returns (list: seq<AppDef.Definition>)
    ensures list == RemoveVerbs(apps, removed)
    ensures Definitions.OneEntryPerApp(apps) ==> Definitions.OneEntryPerApp(list)
    ensures forall app, action ::
              Definitions.LastAction(list, app, action)
              == if IsRemovedVerb(removed, app, action) then None else Definitions.LastAction(apps, app, action)
  {
    list := apps;
    for i := 0 to |removed|
      invariant list == RemoveVerbs(apps, removed[..i])
      invariant Definitions.OneEntryPerApp(apps) ==> Definitions.OneEntryPerApp(list)
      invariant forall app, action ::
                  Definitions.LastAction(list, app, action)
                  == if IsRemovedVerb(removed[..i], app, action) then None else Definitions.LastAction(apps, app, action)
    {
      VerbSnoc(removed, i);
      assert removed[..i + 1][..i] == removed[..i];
      list := Definitions.RemoveDefinitionAction(list, removed[i].app, removed[i].action);
    }
    assert removed[..|removed|] == removed;
  }

  method AddEntries(base: seq<AppDef.Definition>, add: seq<AppDef.Definition>) returns (out: Option<seq<AppDef.Definition>>)
    ensures out == Definitions.MergedAll(base, add)
    ensures out.Some? && Definitions.OneEntryPerApp(base) ==> Definitions.OneEntryPerApp(out.value)
    ensures out.Some? && Definitions.OneEntryPerApp(base) ==> forall app, action ::
              Definitions.LastAction(out.value, app, action)
              == Definitions.Prefer(Definitions.LastAction(add, app, action), Definitions.LastAction(base, app, action))
  {
    var list := base;
    for i := 0 to |add|
      invariant Definitions.MergedAll(base, add[..i]) == Some(list)
      invariant Definitions.OneEntryPerApp(base) ==> Definitions.OneEntryPerApp(list)
      invariant Definitions.OneEntryPerApp(base) ==> forall app, action ::
                  Definitions.LastAction(list, app, action)
                  == Definitions.Prefer(Definitions.LastAction(add[..i], app, action), Definitions.LastAction(base, app, action))
    {
      Definitions.SnocAll(add, i);
      MergedOneMore(base, list, add, i);
      var merged := Definitions.MergeDefinitionList(list, add[i]);
      if merged.None? {
        MergedFront(base, add, i + 1);
        return None;
      }
      list := merged.value;
    }
    assert add[..|add|] == add;
    out := Some(list);
  }

  lemma MergedOneMore(base: seq<AppDef.Definition>, list: seq<AppDef.Definition>, add: seq<AppDef.Definition>, i: nat)
    requires i < |add| && Definitions.MergedAll(base, add[..i]) == Some(list)
    ensures Definitions.MergedAll(base, add[..i + 1]) == Definitions.MergedList(list, add[i])
  {
    assert add[..i + 1][..i] == add[..i];
  }

  /** Once an addition conflicts, the ones after it do not matter. */
  lemma {:induction false} MergedFront(list: seq<AppDef.Definition>, add: seq<AppDef.Definition>, n: nat)
    requires n <= |add|
    ensures Definitions.MergedAll(list, add[..n]).None? ==> Definitions.MergedAll(list, add).None?
    decreases |add| - n
  {
    if n < |add| {
      MergedFront(list, add, n + 1);
      assert add[..n + 1][..n] == add[..n];
    } else {
      assert add[..n] == add;
    }
  }

  lemma VerbSnoc(removed: seq<RemovedVerb>, i: nat)
    requires i < |removed|
    ensures forall app, action ::
              IsRemovedVerb(removed[..i + 1], app, action)
              <==> IsRemovedVerb(removed[..i], app, action)
                   || (removed[i].app == app && (removed[i].action == "" || removed[i].action == action))
  {
    var longer, shorter := removed[..i + 1], removed[..i];
    forall app, action
      ensures IsRemovedVerb(longer, app, action)
              <==> IsRemovedVerb(shorter, app, action)
                   || (removed[i].app == app && (removed[i].action == "" || removed[i].action == action))
    {
      if k :| 0 <= k < |shorter| && shorter[k].app == app && (shorter[k].action == "" || shorter[k].action == action) {
        assert longer[k] == shorter[k];
      }
      if k :| 0 <= k < |longer| && longer[k].app == app && (longer[k].action == "" || longer[k].action == action) {
        assert k < i ==> shorter[k] == longer[k];
      }
      assert longer[i] == removed[i];
    }
  }

  lemma RemovedSnoc(removed: seq<Policy.Rule>, i: nat)
    requires i < |removed|
    ensures forall r :: IsRemovedRule(removed[..i + 1], r) <==> IsRemovedRule(removed[..i], r) || RuleEqual(r, removed[i])
  {
    var longer, shorter := removed[..i + 1], removed[..i];
    forall r ensures IsRemovedRule(longer, r) <==> IsRemovedRule(shorter, r) || RuleEqual(r, removed[i]) {
      if k :| 0 <= k < |shorter| && RuleEqual(r, shorter[k]) {
        assert longer[k] == shorter[k];
      }
      if k :| 0 <= k < |longer| && RuleEqual(r, longer[k]) {
        assert k < i ==> shorter[k] == longer[k];
      }
      assert longer[i] == removed[i];
    }
  }

  /** One addition keeps what was there and makes the rule, or its equal, present. */
  ghost predicate RuleAdded(rules: seq<Policy.Rule>, out: seq<Policy.Rule>, rule: Policy.Rule) {
    && (forall r :: r in rules ==> r in out)
    && (forall r :: r in out ==> r in rules || r == rule)
    && (rule in out || exists q :: q in out && Policy.RulesEqual(q, rule))
  }

  lemma AddedRuleKept(rules: seq<Policy.Rule>, out: seq<Policy.Rule>, rule: Policy.Rule, added: bool)
    requires added <==> forall i :: 0 <= i < |rules| ==> !Policy.RulesEqual(rules[i], rule)
    requires out == if added then rules + [rule] else rules
    ensures RuleAdded(rules, out, rule)
  {
    if !added {
      var i :| 0 <= i < |rules| && Policy.RulesEqual(rules[i], rule);
      assert rules[i] in out;
    }
  }

  lemma RulesDoneStep(was: seq<Policy.Rule>, now: seq<Policy.Rule>, next: seq<Policy.Rule>, add: seq<Policy.Rule>,
                      rule: Policy.Rule)
    requires RulesDone(was, now, [], add) && RuleAdded(now, next, rule)
    ensures RulesDone(was, next, [], add + [rule])
  {
    forall r | r in add + [rule] ensures r in next || exists q :: q in next && Policy.RulesEqual(q, r) {
      if r in add && r !in now {
        var q :| q in now && Policy.RulesEqual(q, r);
        assert q in next;
      }
    }
  }

  lemma RulesDoneAfterRemoval(was: seq<Policy.Rule>, middle: seq<Policy.Rule>, now: seq<Policy.Rule>, p: Proposal)
    requires forall r :: r in middle <==> r in was && !IsRemovedRule(p.removeRules, r)
    requires RulesDone(middle, now, [], p.addRules)
    ensures RulesDone(was, now, p.removeRules, p.addRules)
  {
    assert forall r :: !IsRemovedRule([], r);
  }

  /** Rules equal in effect, agent, verb and constraints count as the one to remove. */
  predicate RuleEqual(a: Policy.Rule, b: Policy.Rule) {
    && a.effect == b.effect && a.agent == b.agent && a.app == b.app && a.action == b.action
    && Policy.ConstraintsEqual(a.constraints, b.constraints)
  }

  method RemoveEqual(rules: seq<Policy.Rule>, q: Policy.Rule) returns (kept: seq<Policy.Rule>)
    ensures forall r :: r in kept <==> r in rules && !RuleEqual(r, q)
    ensures |kept| == |rules| ==> kept == rules
  {
    kept := [];
    for i := 0 to |rules|
      invariant forall r :: r in kept <==> r in rules[..i] && !RuleEqual(r, q)
      invariant |kept| <= i && (|kept| == i ==> kept == rules[..i])
    {
      assert rules[..i + 1] == rules[..i] + [rules[i]];
      if !RuleEqual(rules[i], q) {
        kept := kept + [rules[i]];
      }
    }
    assert rules[..|rules|] == rules;
  }

  // ---- which rules a removal takes along ----

  /** The two rules name the same user and the same groups. */
  predicate SameSelectors(x: Policy.Rule, r: Policy.Rule) {
    x.user == r.user && (set g | g in x.groups) == (set g | g in r.groups)
  }

  /** The two rules apply to the same requests. */
  ghost predicate SameRequests(x: Policy.Rule, r: Policy.Rule) {
    forall p, context :: Policy.NonBlankValues(context) ==>
      Policy.Applies(x, x.app, x.action, p, context) == Policy.Applies(r, x.app, x.action, p, context)
  }

  /** What can be read off the two rules: both apply to nothing, or they select the same principals. */
  predicate ActsAlike(x: Policy.Rule, r: Policy.Rule) {
    if Policy.NoBlankConstraint(x) then SameSelectors(x, r) else !Policy.NoBlankConstraint(r)
  }

  /** A principal that one of two rules selects and the other does not. */
  lemma TellsApart(x: Policy.Rule, r: Policy.Rule) returns (p: Policy.Principal)
    requires x.agent == r.agent && !SameSelectors(x, r)
    ensures Policy.MatchesPrincipal(x, p) != Policy.MatchesPrincipal(r, p)
  {
    if x.user != r.user {
      if x.user != "" {
        p := OutsideUser(x, r);
      } else {
        p := OutsideUser(r, x);
      }
    } else {
      var gx, gr := set g | g in x.groups, set g | g in r.groups;
      if g :| g in gx && g !in gr {
        p := OutsideGroup(x, r, g);
      } else {
        assert gx <= gr;
        var g :| g in gr && g !in gx;
        p := OutsideGroup(r, x, g);
      }
    }
  }

  lemma OutsideUser(x: Policy.Rule, r: Policy.Rule) returns (p: Policy.Principal)
    requires x.agent == r.agent && x.user != r.user && x.user != ""
    ensures !Policy.MatchesPrincipal(x, p) && Policy.MatchesPrincipal(r, p)
  {
    p := Policy.Principal(r.agent, if r.user != "" then r.user else x.user + "x", r.groups);
    assert r.groups != [] ==> r.groups[0] in p.groups;
    assert |x.user + "x"| != |x.user|;
  }

  lemma OutsideGroup(x: Policy.Rule, r: Policy.Rule, g: string) returns (p: Policy.Principal)
    requires x.agent == r.agent && x.user == r.user && g in x.groups && g !in r.groups
    ensures Policy.MatchesPrincipal(x, p) != Policy.MatchesPrincipal(r, p)
  {
    if r.groups == [] {
      p := Policy.Principal(x.agent, x.user, []);
    } else {
      p := Policy.Principal(x.agent, x.user, [g]);
      var i :| 0 <= i < |x.groups| && x.groups[i] == g;
      assert x.groups[i] in p.groups;
    }
  }

  /** A stored rule that a removal takes for the named one acts like it exactly when it selects the same principals. */
  lemma RemovedActsAlikeExactly(x: Policy.Rule, r: Policy.Rule)
    requires RuleEqual(x, r)
    ensures SameRequests(x, r) <==> ActsAlike(x, r)
  {
    if Policy.NoBlankConstraint(x) {
      Policy.EqualConstraintMaps(x.constraints, r.constraints);
      if SameSelectors(x, r) {
        forall p, context | Policy.NonBlankValues(context)
          ensures Policy.Applies(x, x.app, x.action, p, context) == Policy.Applies(r, x.app, x.action, p, context)
        {
          SelectsAlike(x, r, p);
        }
      } else {
        var p := TellsApart(x, r);
        assert Policy.NonBlankValues(x.constraints) && Policy.Matches(x.constraints, x.constraints);
        assert Policy.Applies(x, x.app, x.action, p, x.constraints) != Policy.Applies(r, x.app, x.action, p, x.constraints);
      }
    } else {
      BlankRuleExactly(x, r);
    }
  }

  lemma SelectsAlike(x: Policy.Rule, r: Policy.Rule, p: Policy.Principal)
    requires x.agent == r.agent && SameSelectors(x, r)
    ensures Policy.MatchesPrincipal(x, p) == Policy.MatchesPrincipal(r, p)
  {
    if Policy.MatchesPrincipal(x, p) {
      Policy.GroupsMatch(x, r, p);
    }
    if Policy.MatchesPrincipal(r, p) {
      Policy.GroupsMatch(r, x, p);
    }
  }

  lemma BlankRuleExactly(x: Policy.Rule, r: Policy.Rule)
    requires RuleEqual(x, r) && !Policy.NoBlankConstraint(x)
    ensures SameRequests(x, r) <==> !Policy.NoBlankConstraint(r)
  {
    if Policy.NoBlankConstraint(r) {
      var p := Policy.Principal(r.agent, r.user, r.groups);
      Policy.BlankNeverMatches(x, r.constraints);
      assert Policy.NonBlankValues(r.constraints);
      assert r.groups != [] ==> r.groups[0] in p.groups;
      assert Policy.Applies(r, x.app, x.action, p, r.constraints) && !Policy.Applies(x, x.app, x.action, p, r.constraints);
    } else {
      forall p, context | Policy.NonBlankValues(context)
        ensures Policy.Applies(x, x.app, x.action, p, context) == Policy.Applies(r, x.app, x.action, p, context)
      {
        Policy.BlankNeverMatches(x, context);
        Policy.BlankNeverMatches(r, context);
      }
    }
  }

  /** Every stored rule that the removal of `r` takes away acts like `r`. */
  predicate TakesOnlyIts(rules: seq<Policy.Rule>, r: Policy.Rule) {
    forall i :: 0 <= i < |rules| && RuleEqual(rules[i], r) ==> ActsAlike(rules[i], r)
  }

  /**
   Removing a rule deletes only rules that apply to the same requests exactly when every stored
   rule it is taken for has the same user and the same groups, or can apply to nothing as it can.
   */
  lemma RemovalIsTargetedExactly(rules: seq<Policy.Rule>, r: Policy.Rule)
    ensures (forall i :: 0 <= i < |rules| && RuleEqual(rules[i], r) ==> SameRequests(rules[i], r)) <==> TakesOnlyIts(rules, r)
  {
    forall i | 0 <= i < |rules| && RuleEqual(rules[i], r) ensures SameRequests(rules[i], r) <==> ActsAlike(rules[i], r) {
      RemovedActsAlikeExactly(rules[i], r);
    }
  }

  /** Under that condition, what a removal newly allows is only what the removed rule itself had denied. */
  lemma TargetedRemovalGrantsOnlyItsOwn(was: seq<Policy.Rule>, now: seq<Policy.Rule>, r: Policy.Rule, def: AppDef.Definition,
                                        action: string, p: Policy.Principal, params: AppDef.Params)
    requires RulesDone(was, now, [r], []) && TakesOnlyIts(was, r)
    requires Policy.Authorized(now, def, action, p, params) && !Policy.Authorized(was, def, action, p, params)
    ensures r.effect == "deny" && Policy.Applies(r, def.name, action, p, AppDef.DefinitionContext(def, action, params))
  {
    var context := AppDef.DefinitionContext(def, action, params);
    AppDef.ContextHasNoBlanks(def.actions[action].parameters, params);
    var a :| a in now && a.effect == "allow" && Policy.Applies(a, def.name, action, p, context);
    assert a in was;
    var d :| d in was && d.effect == "deny" && Policy.Applies(d, def.name, action, p, context);
    assert IsRemovedRule([r], d);
    assert RuleEqual(d, r);
    var i :| 0 <= i < |was| && was[i] == d;
    RemovedActsAlikeExactly(d, r);
  }

  /** Removing the deny of one user takes another user's deny along, and grants that user the verb. */
  lemma RemovingOneDenyGrantsAnother(allow: Policy.Rule, alice: Policy.Rule, bob: Policy.Rule, now: seq<Policy.Rule>,
                                     def: AppDef.Definition, p: Policy.Principal)
    requires allow == Policy.Rule("allow", "a", "", [], "ssh", "run", map[])
    requires alice == allow.(effect := "deny", user := "alice") && bob == allow.(effect := "deny", user := "bob")
    requires def == AppDef.Definition("ssh", "ssh", "protected", map["run" := AppDef.Action([], "c", "", false)], true, false)
    requires p == Policy.Principal("a", "bob", []) && RulesDone([allow, alice, bob], now, [alice], [])
    ensures bob !in now && !TakesOnlyIts([allow, alice, bob], alice)
    ensures !Policy.Authorized([allow, alice, bob], def, "run", p, map[]) && Policy.Authorized(now, def, "run", p, map[])
  {
    var was := [allow, alice, bob];
    var context := AppDef.DefinitionContext(def, "run", map[]);
    assert [alice][0] == alice;
    assert RuleEqual(bob, alice) && IsRemovedRule([alice], bob) && IsRemovedRule([alice], alice);
    assert !RuleEqual(allow, alice) && !IsRemovedRule([alice], allow);
    assert was[2] == bob && Policy.NoBlankConstraint(bob) && !ActsAlike(bob, alice);
    assert allow in was && bob in was;
    assert Policy.Applies(bob, "ssh", "run", p, context) && Policy.Applies(allow, "ssh", "run", p, context);
    assert allow in now;
  }
}
