/**
 Assembling the effective app definitions from three sources of different trust: bundled,
 user-writable and root-applied.  Provenance is tracked per action.
 */
module Definitions {
  import opened Wrappers
  import opened AppDef
  import Strings

  /** The action a list of definitions gives for an app, the last one that has it winning. */
  function LastAction(ds: seq<Definition>, app: string, action: string): Option<Action>
    decreases |ds|
  {
    if ds == [] then None
    else
      var d := ds[|ds| - 1];
      if d.name == app && action in d.actions then Some(d.actions[action])
      else LastAction(ds[..|ds| - 1], app, action)
  }

  /** What a namespace map gives for an app and action. */
  function Lookup(defs: map<string, Definition>, app: string, action: string): Option<Action> {
    if app in defs && action in defs[app].actions then Some(defs[app].actions[action]) else None
  }

  function Prefer(a: Option<Action>, b: Option<Action>): Option<Action> {
    if a.Some? then a else b
  }

  predicate Keyed(defs: map<string, Definition>) {
    forall app :: app in defs ==> defs[app].name == app
  }

  /** An overlay may add and replace actions but not change what the namespace is. */
  function Merge(base: Definition, overlay: Definition): Option<Definition> {
    if base.name != overlay.name then None
    else if overlay.executor != "" && base.executor != "" && overlay.executor != base.executor then None
    else if overlay.securityMode != "" && base.securityMode != "" && overlay.securityMode != base.securityMode then None
    else Some(base.(executor := if base.executor == "" then overlay.executor else base.executor,
                    securityMode := if base.securityMode == "" then overlay.securityMode else base.securityMode,
                    actions := base.actions + overlay.actions,
                    rootApplied := base.rootApplied || overlay.rootApplied))
  }

  function MergeInto(defs: map<string, Definition>, d: Definition): Option<map<string, Definition>> {
    if d.name in defs then
      var merged := Merge(defs[d.name], d);
      if merged.None? then None else Some(defs[d.name := merged.value])
    else Some(defs[d.name := d])
  }

  lemma MergeIntoLookup(defs: map<string, Definition>, d: Definition)
    requires Keyed(defs) && MergeInto(defs, d).Some?
    ensures var out := MergeInto(defs, d).value;
            Keyed(out) && forall app, action ::
              Lookup(out, app, action) == Prefer(LastAction([d], app, action), Lookup(defs, app, action))
  {
    assert [d][..0] == [];
  }

  lemma LastActionSnoc(ds: seq<Definition>, d: Definition, app: string, action: string)
    ensures LastAction(ds + [d], app, action) == Prefer(LastAction([d], app, action), LastAction(ds, app, action))
  {
    assert (ds + [d])[..|ds|] == ds && [d][..0] == [];
  }

  function WithoutCommandActions(d: Definition): Definition {
    d.(actions := map a | a in d.actions && Strings.TrimSpace(d.actions[a].command) == "" :: d.actions[a])
  }

  /** Marks a registry entry and each of its actions as root-applied. */
  function MarkApplied(d: Definition): Definition {
    d.(rootApplied := true, actions := map a | a in d.actions :: d.actions[a].(rootApplied := true))
  }

  function MarkAll(ds: seq<Definition>): (r: seq<Definition>)
    ensures |r| == |ds| && forall i :: 0 <= i < |ds| ==> r[i] == MarkApplied(ds[i])
  {
    seq(|ds|, i requires 0 <= i < |ds| => MarkApplied(ds[i]))
  }

  /** The user definitions that count: under a privilege boundary, without command templates. */
  function Trusted(ds: seq<Definition>, systemMode: bool): (r: seq<Definition>)
    ensures |r| == |ds| && forall i :: 0 <= i < |ds| ==> r[i] == if systemMode then WithoutCommandActions(ds[i]) else ds[i]
  {
    seq(|ds|, i requires 0 <= i < |ds| => if systemMode then WithoutCommandActions(ds[i]) else ds[i])
  }

  /** Loads the bundled definitions: a later one of the same name replaces an earlier one. */
  function BundledMap(ds: seq<Definition>): map<string, Definition>
    decreases |ds|
  {
    if ds == [] then map[] else BundledMap(ds[..|ds| - 1])[ds[|ds| - 1].name := ds[|ds| - 1]]
  }

  lemma {:induction false} BundledKeyed(ds: seq<Definition>)
    ensures Keyed(BundledMap(ds))
    decreases |ds|
  {
    if ds != [] {
      BundledKeyed(ds[..|ds| - 1]);
    }
  }

  // ---- when the sources fit together ----

  /** Neither definition redefines what the other one says its namespace is. */
  predicate Compatible(a: Definition, b: Definition) {
    && (a.executor == "" || b.executor == "" || a.executor == b.executor)
    && (a.securityMode == "" || b.securityMode == "" || a.securityMode == b.securityMode)
  }

  /** The user definitions that are merged: under a privilege boundary, those with something left. */
  function Counted(ds: seq<Definition>, systemMode: bool): seq<Definition>
    decreases |ds|
  {
    if ds == [] then []
    else
      var front := Counted(ds[..|ds| - 1], systemMode);
      var d := if systemMode then WithoutCommandActions(ds[|ds| - 1]) else ds[|ds| - 1];
      if systemMode && d.actions == map[] then front else front + [d]
  }

  /** The overlays merged one after the other; nothing once one of them conflicts. */
  function Folded(base: map<string, Definition>, overlays: seq<Definition>): Option<map<string, Definition>>
    decreases |overlays|
  {
    if overlays == [] then Some(base)
    else
      var before := Folded(base, overlays[..|overlays| - 1]);
      if before.None? then None else MergeInto(before.value, overlays[|overlays| - 1])
  }

  /** Definitions of one app agree pairwise on executor and security mode. */
  predicate NoConflict(base: map<string, Definition>, overlays: seq<Definition>) {
    && (forall i :: 0 <= i < |overlays| && overlays[i].name in base ==> Compatible(base[overlays[i].name], overlays[i]))
    && (forall i, j :: 0 <= i < j < |overlays| && overlays[i].name == overlays[j].name ==>
          Compatible(overlays[i], overlays[j]))
  }

  /** `c` is one of the definitions of `app`. */
  predicate Defines(base: map<string, Definition>, overlays: seq<Definition>, app: string, c: Definition) {
    (app in base && c == base[app]) || (exists i :: 0 <= i < |overlays| && overlays[i].name == app && c == overlays[i])
  }

  /** The merged entry takes its executor and security mode from its definitions. */
  ghost predicate Follows(entry: Definition, base: map<string, Definition>, overlays: seq<Definition>, app: string) {
    && (forall c :: Defines(base, overlays, app, c) ==>
          && (c.executor != "" ==> entry.executor == c.executor)
          && (c.securityMode != "" ==> entry.securityMode == c.securityMode))
    && (entry.executor != "" ==> exists c :: Defines(base, overlays, app, c) && c.executor == entry.executor)
    && (entry.securityMode != "" ==> exists c :: Defines(base, overlays, app, c) && c.securityMode == entry.securityMode)
  }

  ghost predicate AllFollow(defs: map<string, Definition>, base: map<string, Definition>, overlays: seq<Definition>) {
    && (forall app :: app in defs ==> Follows(defs[app], base, overlays, app))
    && (forall app, c :: Defines(base, overlays, app, c) ==> app in defs)
  }

  lemma DefinesSnoc(base: map<string, Definition>, overlays: seq<Definition>, d: Definition, app: string, c: Definition)
    ensures Defines(base, overlays + [d], app, c) <==> Defines(base, overlays, app, c) || (d.name == app && c == d)
  {
    var all := overlays + [d];
    if i :| 0 <= i < |overlays| && overlays[i].name == app && c == overlays[i] {
      assert all[i] == overlays[i];
    }
    if i :| 0 <= i < |all| && all[i].name == app && c == all[i] {
      assert i < |overlays| ==> all[i] == overlays[i];
    }
    assert all[|overlays|] == d;
  }

  lemma NoConflictSnoc(base: map<string, Definition>, overlays: seq<Definition>, d: Definition)
    ensures NoConflict(base, overlays + [d])
            <==> NoConflict(base, overlays) && forall c :: Defines(base, overlays, d.name, c) ==> Compatible(c, d)
  {
    var all := overlays + [d];
    assert forall i :: 0 <= i < |overlays| ==> all[i] == overlays[i];
    assert all[|overlays|] == d;
    if NoConflict(base, all) {
      assert NoConflict(base, overlays);
      forall c | Defines(base, overlays, d.name, c) ensures Compatible(c, d) {
        if i :| 0 <= i < |overlays| && overlays[i].name == d.name && c == overlays[i] {
          assert Compatible(all[i], all[|overlays|]);
        }
      }
    }
    if NoConflict(base, overlays) && forall c :: Defines(base, overlays, d.name, c) ==> Compatible(c, d) {
      forall i | 0 <= i < |all| && all[i].name in base ensures Compatible(base[all[i].name], all[i]) {
        if i == |overlays| {
          assert Defines(base, overlays, d.name, base[d.name]);
        }
      }
      forall i, j | 0 <= i < j < |all| && all[i].name == all[j].name ensures Compatible(all[i], all[j]) {
        if j == |overlays| {
          assert Defines(base, overlays, d.name, overlays[i]);
        }
      }
    }
  }

  /** One merge goes through exactly when the overlay fits every definition merged so far. */
  lemma MergeFits(defs: map<string, Definition>, base: map<string, Definition>, overlays: seq<Definition>, d: Definition)
    requires Keyed(defs) && AllFollow(defs, base, overlays)
    ensures MergeInto(defs, d).Some? <==> forall c :: Defines(base, overlays, d.name, c) ==> Compatible(c, d)
    ensures MergeInto(defs, d).Some? ==>
              Keyed(MergeInto(defs, d).value) && AllFollow(MergeInto(defs, d).value, base, overlays + [d])
  {
    if d.name in defs {
      assert Follows(defs[d.name], base, overlays, d.name);
      if !Compatible(defs[d.name], d) {
        FindsConflict(defs[d.name], base, overlays, d);
      }
    }
    if MergeInto(defs, d).Some? {
      var out := MergeInto(defs, d).value;
      forall app | app in out ensures Follows(out[app], base, overlays + [d], app) {
        FollowsMore(defs, base, overlays, d, app);
      }
      forall app, c | Defines(base, overlays + [d], app, c) ensures app in out {
        DefinesSnoc(base, overlays, d, app, c);
      }
    }
  }

  lemma FindsConflict(entry: Definition, base: map<string, Definition>, overlays: seq<Definition>, d: Definition)
    requires Follows(entry, base, overlays, d.name) && !Compatible(entry, d)
    ensures exists c :: Defines(base, overlays, d.name, c) && !Compatible(c, d)
  {
    if entry.executor != "" && d.executor != "" && entry.executor != d.executor {
      var c :| Defines(base, overlays, d.name, c) && c.executor == entry.executor;
      assert !Compatible(c, d);
    } else {
      var c :| Defines(base, overlays, d.name, c) && c.securityMode == entry.securityMode;
      assert !Compatible(c, d);
    }
  }

  lemma FollowsMore(defs: map<string, Definition>, base: map<string, Definition>, overlays: seq<Definition>, d: Definition,
                    app: string)
    requires Keyed(defs) && AllFollow(defs, base, overlays) && MergeInto(defs, d).Some? && app in MergeInto(defs, d).value
    ensures Follows(MergeInto(defs, d).value[app], base, overlays + [d], app)
  {
    var entry := MergeInto(defs, d).value[app];
    forall c ensures Defines(base, overlays + [d], app, c) <==> Defines(base, overlays, app, c) || (d.name == app && c == d) {
      DefinesSnoc(base, overlays, d, app, c);
    }
    if app in defs {
      assert Follows(defs[app], base, overlays, app);
      if entry.executor != "" && entry.executor == defs[app].executor {
        var c :| Defines(base, overlays, app, c) && c.executor == entry.executor;
        assert Defines(base, overlays + [d], app, c);
      }
      if entry.securityMode != "" && entry.securityMode == defs[app].securityMode {
        var c :| Defines(base, overlays, app, c) && c.securityMode == entry.securityMode;
        assert Defines(base, overlays + [d], app, c);
      }
    }
    if app == d.name {
      assert Defines(base, overlays + [d], app, d);
    }
  }

  /** The overlays can be merged, in this order, exactly when no two definitions of an app conflict. */
  lemma {:induction false} FoldsExactly(base: map<string, Definition>, overlays: seq<Definition>)
    requires Keyed(base)
    ensures Folded(base, overlays).Some? <==> NoConflict(base, overlays)
    ensures Folded(base, overlays).Some? ==>
              Keyed(Folded(base, overlays).value) && AllFollow(Folded(base, overlays).value, base, overlays)
    decreases |overlays|
  {
    if overlays == [] {
      forall app | app in base ensures Follows(base[app], base, overlays, app) {
        assert Defines(base, overlays, app, base[app]);
      }
    } else {
      var n := |overlays| - 1;
      var front := overlays[..n];
      assert front + [overlays[n]] == overlays;
      FoldsExactly(base, front);
      NoConflictSnoc(base, front, overlays[n]);
      if Folded(base, front).Some? {
        MergeFits(Folded(base, front).value, base, front, overlays[n]);
      }
    }
  }

  lemma FoldOneMore(base: map<string, Definition>, overlays: seq<Definition>, i: nat)
    requires i < |overlays|
    ensures Folded(base, overlays[..i + 1])
            == if Folded(base, overlays[..i]).None? then None else MergeInto(Folded(base, overlays[..i]).value, overlays[i])
  {
    assert overlays[..i + 1][..i] == overlays[..i];
  }

  lemma {:induction false} FoldFails(base: map<string, Definition>, overlays: seq<Definition>, n: nat)
    requires n <= |overlays| && Folded(base, overlays[..n]).None?
    ensures Folded(base, overlays).None?
    decreases |overlays| - n
  {
    if n < |overlays| {
      FoldOneMore(base, overlays, n);
      FoldFails(base, overlays, n + 1);
    } else {
      assert overlays[..n] == overlays;
    }
  }

  // ---- assembly ----

  /** Every overlay of the three sources in pinned precedence. */
  function Overlays(user: seq<Definition>, registry: seq<Definition>, systemMode: bool): seq<Definition> {
    Counted(user, systemMode) + MarkAll(registry)
  }

  /** The three sources fit together. */
  predicate Assembles(bundled: seq<Definition>, user: seq<Definition>, registry: seq<Definition>, systemMode: bool) {
    NoConflict(BundledMap(bundled), Overlays(user, registry, systemMode))
  }

  /**
   Folds the three sources in pinned precedence.  It succeeds exactly when no two definitions
   of an app that count disagree on executor or security mode, and the result holds, for every
   app and action, the registry's action if it has one, else the user's (if it counts), else
   the bundled one.
   */
  method AssembleDefinitions(bundled: seq<Definition>, user: seq<Definition>, registry: seq<Definition>, systemMode: bool)
    returns (out: Option<map<string, Definition>>)
    ensures out.Some? <==> Assembles(bundled, user, registry, systemMode)
    ensures out.Some? ==> Keyed(out.value) && Assembled(out.value, bundled, user, registry, systemMode)
    ensures out == Folded(BundledMap(bundled), Overlays(user, registry, systemMode))
  {
    var defs := LoadBundled(bundled);
    BundledKeyed(bundled);
    ghost var base, overlays := defs, Overlays(user, registry, systemMode);
    FoldsExactly(base, overlays);
    var merged := MergeUser(defs, user, systemMode);
    assert overlays[..|Counted(user, systemMode)|] == Counted(user, systemMode);
    if merged.None? {
      FoldFails(base, overlays, |Counted(user, systemMode)|);
      return None;
    }
    out := MergeRegistry(merged.value, registry);
    FoldConcat(base, Counted(user, systemMode), MarkAll(registry));
  }

  method LoadBundled(bundled: seq<Definition>) returns (defs: map<string, Definition>)
    ensures defs == BundledMap(bundled)
  {
    defs := map[];
    for i := 0 to |bundled|
      invariant defs == BundledMap(bundled[..i])
    {
      assert bundled[..i + 1][..i] == bundled[..i];
      defs := defs[bundled[i].name := bundled[i]];
    }
    assert bundled[..|bundled|] == bundled;
  }

  /** The definitions laid over the base, the last one that has a verb winning. */
  ghost predicate Overlaid(defs: map<string, Definition>, base: map<string, Definition>, ds: seq<Definition>) {
    forall app, action ::
      Lookup(defs, app, action) == Prefer(LastAction(ds, app, action), Lookup(base, app, action))
  }

  lemma OverlayOneMore(defs: map<string, Definition>, base: map<string, Definition>, ds: seq<Definition>, i: nat)
    requires i < |ds| && Keyed(defs) && Overlaid(defs, base, ds[..i])
    ensures MergeInto(defs, ds[i]).Some? ==>
              Keyed(MergeInto(defs, ds[i]).value) && Overlaid(MergeInto(defs, ds[i]).value, base, ds[..i + 1])
    ensures ds[i].actions == map[] ==> Overlaid(defs, base, ds[..i + 1])
  {
    SnocAll(ds, i);
    if MergeInto(defs, ds[i]).Some? {
      MergeIntoLookup(defs, ds[i]);
    }
    if ds[i].actions == map[] {
      EmptyGivesNothing(ds[i]);
    }
  }

  /** Merges the user definitions that count. */
  method MergeUser(base: map<string, Definition>, user: seq<Definition>, systemMode: bool)
    returns (out: Option<map<string, Definition>>)
    requires Keyed(base)
    ensures out == Folded(base, Counted(user, systemMode))
    ensures out.Some? ==> Keyed(out.value) && Overlaid(out.value, base, Trusted(user, systemMode))
  {
    var defs := base;
    ghost var trusted := Trusted(user, systemMode);
    for i := 0 to |user|
      invariant Keyed(defs) && Folded(base, Counted(user[..i], systemMode)) == Some(defs)
      invariant Overlaid(defs, base, trusted[..i])
    {
      var d := if systemMode then WithoutCommandActions(user[i]) else user[i];
      OverlayOneMore(defs, base, trusted, i);
      CountOneMore(user, i, systemMode);
      if systemMode && d.actions == map[] {
        continue;
      }
      FoldSnoc(base, Counted(user[..i], systemMode), d);
      var merged := MergeInto(defs, d);
      if merged.None? {
        CountedFails(base, user, i + 1, systemMode);
        return None;
      }
      defs := merged.value;
    }
    assert trusted[..|user|] == trusted && user[..|user|] == user;
    out := Some(defs);
  }

  lemma CountOneMore(user: seq<Definition>, i: nat, systemMode: bool)
    requires i < |user|
    ensures var d := if systemMode then WithoutCommandActions(user[i]) else user[i];
            Counted(user[..i + 1], systemMode)
            == if systemMode && d.actions == map[] then Counted(user[..i], systemMode)
               else Counted(user[..i], systemMode) + [d]
  {
    assert user[..i + 1][..i] == user[..i];
  }

  lemma FoldSnoc(base: map<string, Definition>, overlays: seq<Definition>, d: Definition)
    ensures Folded(base, overlays + [d])
            == if Folded(base, overlays).None? then None else MergeInto(Folded(base, overlays).value, d)
  {
    assert (overlays + [d])[..|overlays|] == overlays;
  }

  lemma {:induction false} CountedFails(base: map<string, Definition>, user: seq<Definition>, n: nat, systemMode: bool)
    requires n <= |user| && Folded(base, Counted(user[..n], systemMode)).None?
    ensures Folded(base, Counted(user, systemMode)).None?
    decreases |user| - n
  {
    if n < |user| {
      CountOneMore(user, n, systemMode);
      var d := if systemMode then WithoutCommandActions(user[n]) else user[n];
      FoldSnoc(base, Counted(user[..n], systemMode), d);
      CountedFails(base, user, n + 1, systemMode);
    } else {
      assert user[..n] == user;
    }
  }

  /** Merges the root-owned registry, each entry marked. */
  method MergeRegistry(base: map<string, Definition>, registry: seq<Definition>)
    returns (out: Option<map<string, Definition>>)
    requires Keyed(base)
    ensures out == Folded(base, MarkAll(registry))
    ensures out.Some? ==> Keyed(out.value) && Overlaid(out.value, base, MarkAll(registry))
  {
    var defs := base;
    ghost var marked := MarkAll(registry);
    for i := 0 to |registry|
      invariant Keyed(defs) && Folded(base, marked[..i]) == Some(defs)
      invariant Overlaid(defs, base, marked[..i])
    {
      OverlayOneMore(defs, base, marked, i);
      FoldOneMore(base, marked, i);
      var merged := MergeInto(defs, MarkApplied(registry[i]));
      if merged.None? {
        FoldFails(base, marked, i + 1);
        return None;
      }
      defs := merged.value;
    }
    assert marked[..|registry|] == marked;
    out := Some(defs);
  }

  lemma {:induction false} FoldConcat(base: map<string, Definition>, a: seq<Definition>, b: seq<Definition>)
    ensures Folded(base, a + b) == if Folded(base, a).None? then None else Folded(Folded(base, a).value, b)
    decreases |b|
  {
    if b == [] {
      assert a + b == a;
    } else {
      var n := |b| - 1;
      assert (a + b)[..|a| + n] == a + b[..n];
      FoldConcat(base, a, b[..n]);
    }
  }

  lemma SnocAll(ds: seq<Definition>, i: nat)
    requires i < |ds|
    ensures forall app, action ::
              LastAction(ds[..i + 1], app, action)
              == Prefer(LastAction([ds[i]], app, action), LastAction(ds[..i], app, action))
  {
    assert ds[..i + 1] == ds[..i] + [ds[i]];
    forall app, action
      ensures LastAction(ds[..i + 1], app, action)
              == Prefer(LastAction([ds[i]], app, action), LastAction(ds[..i], app, action))
    {
      LastActionSnoc(ds[..i], ds[i], app, action);
    }
  }

  lemma EmptyGivesNothing(d: Definition)
    requires d.actions == map[]
    ensures forall app, action :: LastAction([d], app, action) == None
  {
    assert [d][..0] == [];
  }

  // ---- provenance ----

  /** Files never declare root-applied provenance themselves. */
  predicate Unmarked(ds: seq<Definition>) {
    forall i, a :: 0 <= i < |ds| && a in ds[i].actions ==> !ds[i].actions[a].rootApplied
  }

  lemma {:induction false} LastActionFrom(ds: seq<Definition>, app: string, action: string)
    ensures LastAction(ds, app, action).Some? ==>
              exists i :: 0 <= i < |ds| && ds[i].name == app && action in ds[i].actions
                          && ds[i].actions[action] == LastAction(ds, app, action).value
    decreases |ds|
  {
    if ds != [] {
      var n := |ds| - 1;
      LastActionFrom(ds[..n], app, action);
      if !(ds[n].name == app && action in ds[n].actions) && LastAction(ds, app, action).Some? {
        var i :| 0 <= i < n && ds[..n][i].name == app && action in ds[..n][i].actions
                 && ds[..n][i].actions[action] == LastAction(ds, app, action).value;
        assert ds[i] == ds[..n][i];
      }
    }
  }

  lemma {:induction false} BundledFrom(ds: seq<Definition>, app: string)
    ensures app in BundledMap(ds) ==> BundledMap(ds)[app] in ds
    decreases |ds|
  {
    if ds != [] {
      BundledFrom(ds[..|ds| - 1], app);
      assert ds == ds[..|ds| - 1] + [ds[|ds| - 1]];
    }
  }

  lemma {:induction false} MarkedLast(ds: seq<Definition>, app: string, action: string)
    ensures LastAction(MarkAll(ds), app, action)
            == match LastAction(ds, app, action)
               case Some(a) => Some(a.(rootApplied := true))
               case None => None
    decreases |ds|
  {
    if ds != [] {
      var n := |ds| - 1;
      MarkedLast(ds[..n], app, action);
      assert MarkAll(ds)[..n] == MarkAll(ds[..n]);
    }
  }

  /** The assembled namespace of the three sources, as `AssembleDefinitions` returns it. */
  ghost predicate Assembled(defs: map<string, Definition>, bundled: seq<Definition>, user: seq<Definition>,
                            registry: seq<Definition>, systemMode: bool) {
    forall app, action ::
      Lookup(defs, app, action)
      == Prefer(LastAction(MarkAll(registry), app, action),
                Prefer(LastAction(Trusted(user, systemMode), app, action), Lookup(BundledMap(bundled), app, action)))
  }

  /**
   An assembled action is root-applied exactly when the registry defines it, and then it is
   the registry's action: no user definition can ride on a registry entry's trust.
   */
  lemma RootAppliedExactly(defs: map<string, Definition>, bundled: seq<Definition>, user: seq<Definition>,
                           registry: seq<Definition>, systemMode: bool, app: string, action: string)
    requires Unmarked(bundled) && Unmarked(user) && Assembled(defs, bundled, user, registry, systemMode)
    requires Lookup(defs, app, action).Some?
    ensures Lookup(defs, app, action).value.rootApplied <==> LastAction(registry, app, action).Some?
    ensures LastAction(registry, app, action).Some? ==>
              Lookup(defs, app, action).value == LastAction(registry, app, action).value.(rootApplied := true)
  {
    MarkedLast(registry, app, action);
    if LastAction(registry, app, action).None? {
      SourceUnmarked(bundled, user, systemMode, app, action);
    }
  }

  lemma SourceUnmarked(bundled: seq<Definition>, user: seq<Definition>, systemMode: bool, app: string, action: string)
    requires Unmarked(bundled) && Unmarked(user)
    ensures LastAction(Trusted(user, systemMode), app, action).Some? ==>
              !LastAction(Trusted(user, systemMode), app, action).value.rootApplied
    ensures Lookup(BundledMap(bundled), app, action).Some? ==> !Lookup(BundledMap(bundled), app, action).value.rootApplied
  {
    var t := Trusted(user, systemMode);
    LastActionFrom(t, app, action);
    if LastAction(t, app, action).Some? {
      var i :| 0 <= i < |t| && t[i].name == app && action in t[i].actions && t[i].actions[action] == LastAction(t, app, action).value;
      assert action in user[i].actions && !user[i].actions[action].rootApplied;
    }
    BundledFrom(bundled, app);
    if Lookup(BundledMap(bundled), app, action).Some? {
      var i :| 0 <= i < |bundled| && bundled[i] == BundledMap(bundled)[app];
      assert action in bundled[i].actions;
    }
  }

  /** In system mode every command template in force comes from the bundled set or the registry. */
  lemma SystemModeCommandsAreTrusted(defs: map<string, Definition>, bundled: seq<Definition>, user: seq<Definition>,
                                     registry: seq<Definition>, app: string, action: string)
    requires Assembled(defs, bundled, user, registry, true)
    requires Lookup(defs, app, action).Some? && Strings.TrimSpace(Lookup(defs, app, action).value.command) != ""
    ensures Lookup(defs, app, action) == LastAction(MarkAll(registry), app, action)
            || Lookup(defs, app, action) == Lookup(BundledMap(bundled), app, action)
  {
    var t := Trusted(user, true);
    LastActionFrom(t, app, action);
    if LastAction(t, app, action).Some? {
      var i :| 0 <= i < |t| && t[i].name == app && action in t[i].actions && t[i].actions[action] == LastAction(t, app, action).value;
      assert Strings.TrimSpace(t[i].actions[action].command) == "";
    }
  }

  // ---- where an app comes from ----

  /** The user definition says what the verb does, and under a privilege boundary runs no command for it. */
  predicate UserDefines(user: seq<Definition>, systemMode: bool, i: nat, app: string, action: string) {
    && i < |user| && user[i].name == app && action in user[i].actions
    && (systemMode ==> forall k :: 0 <= k < |user[i].actions[action].command| ==>
                         Strings.IsSpace(user[i].actions[action].command[k]))
  }

  lemma BlankCommand(a: Action)
    ensures Strings.TrimSpace(a.command) == "" <==> forall k :: 0 <= k < |a.command| ==> Strings.IsSpace(a.command[k])
  {
    Strings.TrimSpaceBlank(a.command);
  }

  /**
   The user's verb that counts is the last one defined, in system mode among those without a
   command: those stay, and only those with a command are dropped.
   */
  lemma {:induction false} UserVerbExactly(user: seq<Definition>, systemMode: bool, app: string, action: string)
    ensures LastAction(Trusted(user, systemMode), app, action).Some?
            <==> exists i: nat :: UserDefines(user, systemMode, i, app, action)
    ensures forall i: nat :: UserDefines(user, systemMode, i, app, action)
                             && (forall j: nat :: i < j ==> !UserDefines(user, systemMode, j, app, action)) ==>
              LastAction(Trusted(user, systemMode), app, action) == Some(user[i].actions[action])
    decreases |user|
  {
    if user != [] {
      var n := |user| - 1;
      var front := user[..n];
      UserVerbExactly(front, systemMode, app, action);
      assert Trusted(user, systemMode)[..n] == Trusted(front, systemMode);
      if action in user[n].actions {
        BlankCommand(user[n].actions[action]);
      }
      forall i: nat | i < n ensures UserDefines(front, systemMode, i, app, action) <==> UserDefines(user, systemMode, i, app, action) {
        assert front[i] == user[i];
      }
      if !UserDefines(user, systemMode, n, app, action) {
        if i: nat :| UserDefines(front, systemMode, i, app, action) {
          assert UserDefines(user, systemMode, i, app, action);
        }
        forall i: nat | UserDefines(user, systemMode, i, app, action)
                        && (forall j: nat :: i < j ==> !UserDefines(user, systemMode, j, app, action))
          ensures LastAction(Trusted(user, systemMode), app, action) == Some(user[i].actions[action])
        {
          assert UserDefines(front, systemMode, i, app, action);
        }
      }
    }
  }

  lemma MergeFlags(defs: map<string, Definition>, d: Definition, app: string)
    requires MergeInto(defs, d).Some?
    ensures var out := MergeInto(defs, d).value;
            && (app in out <==> app in defs || d.name == app)
            && (app in out ==>
                  && (out[app].rootApplied <==> (app in defs && defs[app].rootApplied) || (d.name == app && d.rootApplied))
                  && (out[app].bundled <==> if app in defs then defs[app].bundled else d.bundled))
  {
  }

  /** Some definition of the app is marked as applied by root. */
  predicate SomeApplied(base: map<string, Definition>, overlays: seq<Definition>, app: string) {
    || (app in base && base[app].rootApplied)
    || (exists i :: 0 <= i < |overlays| && overlays[i].name == app && overlays[i].rootApplied)
  }

  lemma SomeAppliedSnoc(base: map<string, Definition>, front: seq<Definition>, d: Definition, app: string)
    ensures SomeApplied(base, front + [d], app) <==> SomeApplied(base, front, app) || (d.name == app && d.rootApplied)
  {
    var all := front + [d];
    assert all[|front|] == d && forall i :: 0 <= i < |front| ==> all[i] == front[i];
  }

  /** What merging keeps of the flags: the base says whether an app is bundled, any definition may mark it applied. */
  lemma {:induction false} FoldFlags(base: map<string, Definition>, overlays: seq<Definition>, app: string)
    requires Folded(base, overlays).Some?
    ensures var defs := Folded(base, overlays).value;
            && (app in base ==> app in defs)
            && (app in defs ==> (defs[app].rootApplied <==> SomeApplied(base, overlays, app)))
            && (app !in defs ==> !SomeApplied(base, overlays, app))
            && (app in defs && (forall i :: 0 <= i < |overlays| ==> !overlays[i].bundled) ==>
                  (defs[app].bundled <==> app in base && base[app].bundled))
    decreases |overlays|
  {
    if overlays != [] {
      var n := |overlays| - 1;
      var front, d := overlays[..n], overlays[n];
      assert front + [d] == overlays;
      FoldFlags(base, front, app);
      MergeFlags(Folded(base, front).value, d, app);
      SomeAppliedSnoc(base, front, d, app);
    }
  }

  /** As loaded: the bundled set is marked bundled, and no file marks itself. */
  predicate FromFiles(bundled: seq<Definition>, user: seq<Definition>, registry: seq<Definition>) {
    && (forall i :: 0 <= i < |bundled| ==> bundled[i].bundled && !bundled[i].rootApplied)
    && (forall i :: 0 <= i < |user| ==> !user[i].bundled && !user[i].rootApplied)
    && (forall i :: 0 <= i < |registry| ==> !registry[i].bundled)
  }

  lemma {:induction false} CountedFrom(user: seq<Definition>, systemMode: bool, i: nat)
    requires i < |Counted(user, systemMode)|
    ensures exists j :: 0 <= j < |user| && user[j].name == Counted(user, systemMode)[i].name
                        && user[j].bundled == Counted(user, systemMode)[i].bundled
                        && user[j].rootApplied == Counted(user, systemMode)[i].rootApplied
    decreases |user|
  {
    var n := |user| - 1;
    var front := Counted(user[..n], systemMode);
    if i < |front| {
      CountedFrom(user[..n], systemMode, i);
      var j :| 0 <= j < n && user[..n][j].name == front[i].name && user[..n][j].bundled == front[i].bundled
               && user[..n][j].rootApplied == front[i].rootApplied;
      assert user[j] == user[..n][j];
    } else {
      assert user[n].name == Counted(user, systemMode)[i].name;
    }
  }

  lemma {:induction false} BundledNames(ds: seq<Definition>, app: string)
    ensures app in BundledMap(ds) <==> exists i :: 0 <= i < |ds| && ds[i].name == app
    decreases |ds|
  {
    if ds != [] {
      var n := |ds| - 1;
      BundledNames(ds[..n], app);
      assert forall i :: 0 <= i < n ==> ds[..n][i] == ds[i];
    }
  }

  /**
   The flags that decide whether an app is enabled without being asked for, told from the three
   sources: bundled when the bundled set has it, applied by root when the registry names it,
   which then covers every verb of the app, whichever source defined it.
   */
  lemma AppFlagsExactly(bundled: seq<Definition>, user: seq<Definition>, registry: seq<Definition>, systemMode: bool,
                        defs: map<string, Definition>, app: string)
    requires FromFiles(bundled, user, registry)
    requires Folded(BundledMap(bundled), Overlays(user, registry, systemMode)) == Some(defs) && app in defs
    ensures defs[app].bundled <==> exists i :: 0 <= i < |bundled| && bundled[i].name == app
    ensures defs[app].rootApplied <==> exists i :: 0 <= i < |registry| && registry[i].name == app
  {
    var base, overlays := BundledMap(bundled), Overlays(user, registry, systemMode);
    BundledNames(bundled, app);
    BundledFrom(bundled, app);
    forall i | 0 <= i < |overlays|
      ensures !overlays[i].bundled && (overlays[i].rootApplied ==> exists j :: 0 <= j < |registry| && registry[j].name == overlays[i].name)
    {
      OverlayFlags(bundled, user, registry, systemMode, i);
    }
    if i :| 0 <= i < |registry| && registry[i].name == app {
      RegistryOverlay(user, registry, systemMode, i);
    }
    FoldFlags(base, overlays, app);
  }

  lemma RegistryOverlay(user: seq<Definition>, registry: seq<Definition>, systemMode: bool, i: nat)
    requires i < |registry|
    ensures exists k :: 0 <= k < |Overlays(user, registry, systemMode)|
                        && Overlays(user, registry, systemMode)[k].name == registry[i].name
                        && Overlays(user, registry, systemMode)[k].rootApplied
  {
    var counted := Counted(user, systemMode);
    assert Overlays(user, registry, systemMode)[|counted| + i] == MarkApplied(registry[i]);
  }

  lemma OverlayFlags(bundled: seq<Definition>, user: seq<Definition>, registry: seq<Definition>, systemMode: bool, i: nat)
    requires FromFiles(bundled, user, registry) && i < |Overlays(user, registry, systemMode)|
    ensures var d := Overlays(user, registry, systemMode)[i];
            !d.bundled && (d.rootApplied ==> exists j :: 0 <= j < |registry| && registry[j].name == d.name)
  {
    var counted := Counted(user, systemMode);
    if i < |counted| {
      CountedFrom(user, systemMode, i);
    } else {
      assert Overlays(user, registry, systemMode)[i] == MarkApplied(registry[i - |counted|]);
    }
  }

  // ---- editing the registry ----

  predicate OneEntryPerApp(ds: seq<Definition>) {
    forall i, j :: 0 <= i < j < |ds| ==> ds[i].name != ds[j].name
  }

  /** Where the first entry of that name is, or the end of the list. */
  function IndexOf(list: seq<Definition>, name: string): (i: nat)
    ensures i <= |list| && (i < |list| ==> list[i].name == name)
    ensures forall k :: 0 <= k < i ==> list[k].name != name
  {
    if list == [] || list[0].name == name then 0 else 1 + IndexOf(list[1..], name)
  }

  /** The registry list with a definition folded into it; nothing when the two conflict. */
  function MergedList(list: seq<Definition>, def: Definition): Option<seq<Definition>> {
    var i := IndexOf(list, def.name);
    if i == |list| then Some(list + [def])
    else if Merge(list[i], def).None? then None
    else Some(list[i := Merge(list[i], def).value])
  }

  /** Folds a definition into the registry list; its actions win, everything else stays. */
  method MergeDefinitionList(list: seq<Definition>, def: Definition) returns (out: Option<seq<Definition>>)
    ensures out.None? <==> exists i :: 0 <= i < |list| && list[i].name == def.name && !Compatible(list[i], def)
                                       && forall k :: 0 <= k < i ==> list[k].name != def.name
    ensures out == MergedList(list, def)
    ensures out.Some? && OneEntryPerApp(list) ==> OneEntryPerApp(out.value) && forall app, action ::
              LastAction(out.value, app, action) == Prefer(LastAction([def], app, action), LastAction(list, app, action))
  {
    for i := 0 to |list|
      invariant forall k :: 0 <= k < i ==> list[k].name != def.name
    {
      if list[i].name == def.name {
        var merged := Merge(list[i], def);
        if merged.None? {
          return None;
        }
        if OneEntryPerApp(list) {
          ReplaceEntry(list, i, merged.value, def);
        }
        return Some(list[i := merged.value]);
      }
    }
    forall app, action
      ensures LastAction(list + [def], app, action) == Prefer(LastAction([def], app, action), LastAction(list, app, action))
    {
      LastActionSnoc(list, def, app, action);
    }
    out := Some(list + [def]);
  }

  /** With one entry per app, the entry of that name decides. */
  lemma {:induction false} UniqueEntry(ds: seq<Definition>, i: nat, action: string)
    requires OneEntryPerApp(ds) && i < |ds|
    ensures LastAction(ds, ds[i].name, action) == if action in ds[i].actions then Some(ds[i].actions[action]) else None
    decreases |ds|
  {
    var n := |ds| - 1;
    if i < n {
      UniqueEntry(ds[..n], i, action);
    } else {
      NoEntry(ds[..n], ds[n].name, action);
    }
  }

  lemma {:induction false} NoEntry(ds: seq<Definition>, app: string, action: string)
    requires forall i :: 0 <= i < |ds| ==> ds[i].name != app
    ensures LastAction(ds, app, action) == None
    decreases |ds|
  {
    if ds != [] {
      NoEntry(ds[..|ds| - 1], app, action);
    }
  }

  lemma {:induction false} OtherEntries(ds: seq<Definition>, i: nat, d: Definition, app: string, action: string)
    requires i < |ds| && d.name == ds[i].name && app != d.name
    ensures LastAction(ds[i := d], app, action) == LastAction(ds, app, action)
    decreases |ds|
  {
    var n := |ds| - 1;
    if i < n {
      assert ds[i := d][..n] == ds[..n][i := d];
      OtherEntries(ds[..n], i, d, app, action);
    } else {
      assert ds[i := d][..n] == ds[..n];
    }
  }

  lemma ReplaceEntry(list: seq<Definition>, i: nat, merged: Definition, def: Definition)
    requires OneEntryPerApp(list) && i < |list| && list[i].name == def.name && Merge(list[i], def) == Some(merged)
    ensures OneEntryPerApp(list[i := merged])
    ensures forall app, action ::
              LastAction(list[i := merged], app, action)
              == Prefer(LastAction([def], app, action), LastAction(list, app, action))
  {
    assert [def][..0] == [];
    forall app, action
      ensures LastAction(list[i := merged], app, action)
              == Prefer(LastAction([def], app, action), LastAction(list, app, action))
    {
      if app == def.name {
        UniqueEntry(list[i := merged], i, action);
        UniqueEntry(list, i, action);
      } else {
        OtherEntries(list, i, merged, app, action);
      }
    }
  }

  /** One entry after a verb is removed from it; nothing is left of an entry without actions. */
  function RemoveFrom(d: Definition, app: string, action: string): Option<Definition> {
    if d.name != app then Some(d)
    else if action == "" then None
    else
      var rest := d.(actions := d.actions - {action});
      if |rest.actions| > 0 then Some(rest) else None
  }

  function RemoveVerb(list: seq<Definition>, app: string, action: string): seq<Definition>
    decreases |list|
  {
    if list == [] then []
    else
      var front, r := RemoveVerb(list[..|list| - 1], app, action), RemoveFrom(list[|list| - 1], app, action);
      if r.Some? then front + [r.value] else front
  }

  /** Removes one action, or the whole app, and nothing else. */
  method RemoveDefinitionAction(list: seq<Definition>, app: string, action: string) returns (out: seq<Definition>)
    ensures out == RemoveVerb(list, app, action)
    ensures OneEntryPerApp(list) ==> OneEntryPerApp(out)
    ensures forall a, x :: LastAction(out, a, x) == if a == app && (action == "" || x == action) then None else LastAction(list, a, x)
  {
    out := [];
    for i := 0 to |list|
      invariant out == RemoveVerb(list[..i], app, action)
      invariant OneEntryPerApp(list) ==> OneEntryPerApp(out)
      invariant forall k :: 0 <= k < |out| ==> exists j :: 0 <= j < i && list[j].name == out[k].name
      invariant forall a, x :: LastAction(out, a, x)
                               == if a == app && (action == "" || x == action) then None else LastAction(list[..i], a, x)
    {
      var r := RemoveFrom(list[i], app, action);
      assert list[..i + 1][..i] == list[..i];
      SnocAll(list, i);
      RemoveLookup(list[i], app, action);
      if r.Some? {
        forall a, x ensures LastAction(out + [r.value], a, x) == Prefer(LastAction([r.value], a, x), LastAction(out, a, x)) {
          LastActionSnoc(out, r.value, a, x);
        }
        out := out + [r.value];
      }
    }
    assert list[..|list|] == list;
  }

  // ---- when the registry can be edited ----

  /** Every entry of `out` has the name of one of `list`. */
  predicate NamesFrom(out: seq<Definition>, list: seq<Definition>) {
    forall k :: 0 <= k < |out| ==> HasName(list, out[k].name)
  }

  predicate HasName(list: seq<Definition>, name: string) {
    exists j :: 0 <= j < |list| && list[j].name == name
  }

  lemma NamesSnoc(front: seq<Definition>, list: seq<Definition>, d: Definition, last: Definition)
    requires NamesFrom(front, list) && last.name == d.name
    ensures NamesFrom(front, list + [d]) && NamesFrom(front + [last], list + [d])
    ensures OneEntryPerApp(list + [d]) && OneEntryPerApp(front) ==> OneEntryPerApp(front + [last])
  {
    var all := list + [d];
    assert all[|list|] == d;
    forall k | 0 <= k < |front| ensures HasName(all, front[k].name) {
      var j :| 0 <= j < |list| && list[j].name == front[k].name;
      assert all[j] == list[j];
    }
    if OneEntryPerApp(all) && OneEntryPerApp(front) {
      forall k | 0 <= k < |front| ensures front[k].name != d.name {
        var j :| 0 <= j < |list| && list[j].name == front[k].name;
        assert all[j].name != all[|list|].name;
      }
    }
  }

  lemma {:induction false} RemoveVerbKeepsOne(list: seq<Definition>, app: string, action: string)
    ensures NamesFrom(RemoveVerb(list, app, action), list)
    ensures OneEntryPerApp(list) ==> OneEntryPerApp(RemoveVerb(list, app, action))
    decreases |list|
  {
    if list != [] {
      var n := |list| - 1;
      var before := list[..n];
      RemoveVerbKeepsOne(before, app, action);
      var r := RemoveFrom(list[n], app, action);
      assert before + [list[n]] == list;
      assert OneEntryPerApp(list) ==> OneEntryPerApp(before);
      NamesSnoc(RemoveVerb(before, app, action), before, list[n], if r.Some? then r.value else list[n]);
    }
  }

  /** The definitions merged into the list one after the other; nothing once one of them conflicts. */
  function MergedAll(list: seq<Definition>, add: seq<Definition>): Option<seq<Definition>>
    decreases |add|
  {
    if add == [] then Some(list)
    else
      var before := MergedAll(list, add[..|add| - 1]);
      if before.None? then None else MergedList(before.value, add[|add| - 1])
  }

  lemma {:induction false} BundledAt(list: seq<Definition>, i: nat)
    requires OneEntryPerApp(list) && i < |list|
    ensures list[i].name in BundledMap(list) && BundledMap(list)[list[i].name] == list[i]
    decreases |list|
  {
    if i < |list| - 1 {
      BundledAt(list[..|list| - 1], i);
    }
  }

  lemma {:induction false} BundledUpdate(list: seq<Definition>, i: nat, d: Definition)
    requires OneEntryPerApp(list) && i < |list| && d.name == list[i].name
    ensures BundledMap(list[i := d]) == BundledMap(list)[d.name := d]
    decreases |list|
  {
    var n := |list| - 1;
    if i < n {
      assert list[i := d][..n] == list[..n][i := d];
      BundledUpdate(list[..n], i, d);
    } else {
      assert list[i := d][..n] == list[..n];
    }
  }

  /** On a list with one entry per app, merging is merging into the namespace it stands for. */
  lemma MergedListIs(list: seq<Definition>, d: Definition)
    requires OneEntryPerApp(list)
    ensures MergedList(list, d).Some? <==> MergeInto(BundledMap(list), d).Some?
    ensures MergedList(list, d).Some? ==>
              && OneEntryPerApp(MergedList(list, d).value)
              && BundledMap(MergedList(list, d).value) == MergeInto(BundledMap(list), d).value
  {
    var i := IndexOf(list, d.name);
    BundledNames(list, d.name);
    if i < |list| {
      BundledAt(list, i);
      if Merge(list[i], d).Some? {
        BundledUpdate(list, i, Merge(list[i], d).value);
      }
    } else {
      assert (list + [d])[..|list|] == list;
    }
  }

  /**
   A registry with one entry per app takes the proposed definitions exactly when no two
   definitions of an app, stored or proposed, disagree on executor or security mode; it then
   stands for the namespace with all of them merged in.
   */
  lemma MergedAllExactly(list: seq<Definition>, add: seq<Definition>)
    requires OneEntryPerApp(list)
    ensures MergedAll(list, add).Some? <==> NoConflict(BundledMap(list), add)
    ensures MergedAll(list, add).Some? ==>
              OneEntryPerApp(MergedAll(list, add).value)
              && Folded(BundledMap(list), add) == Some(BundledMap(MergedAll(list, add).value))
  {
    BundledKeyed(list);
    FoldsExactly(BundledMap(list), add);
    MergedAllFolds(list, add);
  }

  lemma {:induction false} MergedAllFolds(list: seq<Definition>, add: seq<Definition>)
    requires OneEntryPerApp(list)
    ensures MergedAll(list, add).Some? <==> Folded(BundledMap(list), add).Some?
    ensures MergedAll(list, add).Some? ==>
              OneEntryPerApp(MergedAll(list, add).value)
              && Folded(BundledMap(list), add) == Some(BundledMap(MergedAll(list, add).value))
    decreases |add|
  {
    if add != [] {
      var n := |add| - 1;
      MergedAllFolds(list, add[..n]);
      if MergedAll(list, add[..n]).Some? {
        MergedListIs(MergedAll(list, add[..n]).value, add[n]);
      }
    }
  }

  /** The actions an entry keeps. */
  lemma RemoveLookup(d: Definition, app: string, action: string)
    ensures var r := RemoveFrom(d, app, action);
            && (r.Some? ==> r.value.name == d.name)
            && forall a, x ::
                 (if r.Some? then LastAction([r.value], a, x) else None)
                 == if a == app && (action == "" || x == action) then None else LastAction([d], a, x)
  {
    var r := RemoveFrom(d, app, action);
    assert [d][..0] == [];
    if r.Some? {
      assert [r.value][..0] == [];
    } else if action != "" {
      assert d.actions - {action} == map[];
      assert forall x :: x in d.actions ==> x == action;
    }
  }
}
