/**
 Running a user-defined ssh verb: every argument is checked against the target's allow-lists,
 and the command that reaches the remote shell reads as the template with exactly the checked
 values in its placeholders.
 */
module CommandAction {
  import opened Wrappers
  import opened Strings
  import opened AppDef
  import opened ShellLexer
  import opened ShellCommand
  import AdminConfig
  import Paths

  predicate IsServiceChar(c: char) {
    IsNameChar(c) || c in "@.:-"
  }

  function RequireAllowedService(target: AdminConfig.Settings, service: string): Option<string> {
    var s := TrimSpace(service);
    if s != "" && (forall i :: 0 <= i < |s| ==> IsServiceChar(s[i])) && s in target.services then Some(s) else None
  }

  function RequireAllowedPath(target: AdminConfig.Settings, path: string): Option<string> {
    var t := TrimSpace(path);
    if t == "" || '\0' in t || '\n' in t || !Paths.IsAbs(t) then None
    else if Paths.AllowsPath(target.paths, target.prefixes, Paths.Clean(t)) then Some(Paths.Clean(t))
    else None
  }

  predicate StoredLists(target: AdminConfig.Settings) {
    Paths.CleanList(target.paths) && Paths.CleanList(target.prefixes)
  }

  /**
   A path argument is accepted by the place it names, never by its spelling, and what is
   passed on is the canonical spelling of that place.
   */
  lemma AllowedPathExactly(target: AdminConfig.Settings, path: string)
    requires StoredLists(target)
    ensures var r, t := RequireAllowedPath(target, path), TrimSpace(path);
            && (r.Some? <==> '\0' !in t && '\n' !in t && Paths.IsAbs(t)
                             && Paths.AllowsComponents(target.paths, target.prefixes, Paths.Components(t)))
            && (r.Some? ==> Paths.IsAbs(r.value) && Paths.Components(r.value) == Paths.Components(t)
                            && Paths.Clean(r.value) == r.value)
  {
    var t := TrimSpace(path);
    if Paths.IsAbs(t) {
      Paths.CleanKeepsMeaning(t);
      Paths.AllowsPathByMeaning(target.paths, target.prefixes, Paths.Clean(t));
    }
  }

  /** The value a parameter passes on, if it is acceptable. */
  function Resolve(target: AdminConfig.Settings, p: Parameter, raw: string): Option<string> {
    if p.constraint == "path" then RequireAllowedPath(target, raw)
    else if p.constraint == "service" then RequireAllowedService(target, raw)
    else if '\0' in raw then None
    else Some(raw)
  }

  /** The characters of the service pattern: letters, digits and five others, by their codes. */
  lemma ServiceCharacters(c: char)
    ensures IsServiceChar(c)
            <==> || 0x61 <= c as int <= 0x7A || 0x41 <= c as int <= 0x5A || 0x30 <= c as int <= 0x39
                 || c == '@' || c == '_' || c == '.' || c == ':' || c == '-'
  {
  }

  predicate ServiceText(s: string) {
    s != "" && forall i :: 0 <= i < |s| ==> IsServiceChar(s[i])
  }

  /**
   What it takes for an argument to be passed on, and as what.  A service must be one the target
   lists and goes on trimmed; a path must name an allowed place and goes on as the canonical
   spelling of it; any other argument goes on as it is, provided it holds no NUL.
   */
  lemma ResolveExactly(target: AdminConfig.Settings, p: Parameter, raw: string)
    requires StoredLists(target)
    ensures var r, t := Resolve(target, p, raw), TrimSpace(raw);
            && (p.constraint == "service" ==> r == if t in target.services && ServiceText(t) then Some(t) else None)
            && (p.constraint == "path" ==>
                  && (r.Some? <==> '\0' !in t && '\n' !in t && Paths.IsAbs(t)
                                   && Paths.AllowsComponents(target.paths, target.prefixes, Paths.Components(t)))
                  && (r.Some? ==> r.value == Paths.Clean(t)))
            && (p.constraint != "service" && p.constraint != "path" ==> r == if '\0' in raw then None else Some(raw))
  {
    AllowedPathExactly(target, raw);
  }

  /** A parameter naming a local file to stream never reaches the command line. */
  predicate Streamed(p: Parameter) {
    p.constraint == "local_source"
  }

  predicate AllResolve(target: AdminConfig.Settings, ps: seq<Parameter>, params: Params) {
    forall i :: 0 <= i < |ps| && !Streamed(ps[i]) ==> Resolve(target, ps[i], Get(params, ps[i].name)).Some?
  }

  /** The checked values by parameter name; a later parameter of the same name wins. */
  function Resolved(target: AdminConfig.Settings, ps: seq<Parameter>, params: Params): map<string, string>
    requires AllResolve(target, ps, params)
    decreases |ps|
  {
    if ps == [] then map[]
    else
      var p := ps[|ps| - 1];
      assert AllResolve(target, ps[..|ps| - 1], params);
      var m := Resolved(target, ps[..|ps| - 1], params);
      if Streamed(p) then m else m[p.name := Resolve(target, p, Get(params, p.name)).value]
  }

  /** Every value in a placeholder is the checked argument of a declared parameter. */
  lemma {:induction false} ResolvedAreChecked(target: AdminConfig.Settings, ps: seq<Parameter>, params: Params, name: string)
    requires AllResolve(target, ps, params)
    ensures name in Resolved(target, ps, params)
            <==> exists i :: 0 <= i < |ps| && ps[i].name == name && !Streamed(ps[i])
    ensures name in Resolved(target, ps, params) ==>
              exists i :: 0 <= i < |ps| && ps[i].name == name && !Streamed(ps[i])
                          && Some(Resolved(target, ps, params)[name]) == Resolve(target, ps[i], Get(params, name))
    decreases |ps|
  {
    if ps != [] {
      var n := |ps| - 1;
      var front := ps[..n];
      assert AllResolve(target, front, params);
      ResolvedAreChecked(target, front, params, name);
      if ps[n].name == name && !Streamed(ps[n]) {
        assert name in Resolved(target, ps, params);
      } else {
        if name in Resolved(target, front, params) {
          var i :| 0 <= i < n && front[i].name == name && !Streamed(front[i])
                   && Some(Resolved(target, front, params)[name]) == Resolve(target, front[i], Get(params, name));
          assert ps[i] == front[i];
        }
        if i :| 0 <= i < |ps| && ps[i].name == name && !Streamed(ps[i]) {
          assert front[i] == ps[i];
        }
      }
    }
  }

  /** The parameter whose value a placeholder of its name gets: no later one of that name goes on the command line. */
  predicate Counts(ps: seq<Parameter>, i: nat) {
    && i < |ps| && ps[i].constraint != "local_source"
    && forall j :: i < j < |ps| && ps[j].name == ps[i].name ==> ps[j].constraint == "local_source"
  }

  lemma {:induction false} ResolvedAt(target: AdminConfig.Settings, ps: seq<Parameter>, params: Params, i: nat)
    requires AllResolve(target, ps, params) && Counts(ps, i)
    ensures ps[i].name in Resolved(target, ps, params)
    ensures Some(Resolved(target, ps, params)[ps[i].name]) == Resolve(target, ps[i], Get(params, ps[i].name))
    decreases |ps|
  {
    var n := |ps| - 1;
    var front := ps[..n];
    if i < n {
      assert AllResolve(target, front, params);
      assert front[i] == ps[i];
      forall j | i < j < n && front[j].name == front[i].name ensures front[j].constraint == "local_source" {
        assert front[j] == ps[j];
      }
      ResolvedAt(target, front, params, i);
    }
  }

  /**
   The values of a rendered command, by the constraint of their parameter: a service is listed by
   the target and is the trimmed argument, a path is the cleaned trimmed argument and names an
   allowed place, and every other value is the argument itself.
   */
  lemma SubstitutedValues(target: AdminConfig.Settings, ps: seq<Parameter>, params: Params, i: nat)
    requires StoredLists(target) && AllResolve(target, ps, params) && Counts(ps, i)
    ensures var raw := Get(params, ps[i].name);
            && ps[i].name in Resolved(target, ps, params)
            && var v := Resolved(target, ps, params)[ps[i].name];
               && (ps[i].constraint == "service" ==> v in target.services && ServiceText(v) && v == TrimSpace(raw))
               && (ps[i].constraint == "path" ==>
                     && v == Paths.Clean(TrimSpace(raw)) && '\n' !in TrimSpace(raw) && Paths.IsAbs(v)
                     && Paths.AllowsComponents(target.paths, target.prefixes, Paths.Components(v)))
               && (ps[i].constraint != "service" && ps[i].constraint != "path" ==> v == raw && '\0' !in raw)
  {
    ResolvedAt(target, ps, params, i);
    ResolveExactly(target, ps[i], Get(params, ps[i].name));
    AllowedPathExactly(target, Get(params, ps[i].name));
  }

  /** A parameter that only names a file to stream has no value on the command line. */
  lemma StreamedIsLeftOut(target: AdminConfig.Settings, ps: seq<Parameter>, params: Params, name: string)
    requires AllResolve(target, ps, params)
    requires forall i :: 0 <= i < |ps| && ps[i].name == name ==> ps[i].constraint == "local_source"
    ensures name !in Resolved(target, ps, params)
  {
    ResolvedAreChecked(target, ps, params, name);
  }

  lemma QuoteAllUpdate(values: map<string, string>, name: string, v: string)
    ensures QuoteAll(values[name := v]) == QuoteAll(values)[name := ShellQuote(v)]
  {
  }

  lemma ResolveOneMore(target: AdminConfig.Settings, ps: seq<Parameter>, i: nat, params: Params)
    requires i < |ps| && AllResolve(target, ps[..i], params)
    ensures var v := Resolve(target, ps[i], Get(params, ps[i].name));
            && (AllResolve(target, ps[..i + 1], params) <==> Streamed(ps[i]) || v.Some?)
            && (Streamed(ps[i]) ==> Resolved(target, ps[..i + 1], params) == Resolved(target, ps[..i], params))
            && (!Streamed(ps[i]) && v.Some? ==>
                  Resolved(target, ps[..i + 1], params) == Resolved(target, ps[..i], params)[ps[i].name := v.value])
  {
    var next := ps[..i + 1];
    assert next[..i] == ps[..i] && next[i] == ps[i];
    assert forall k :: 0 <= k < i ==> next[k] == ps[..i][k];
  }

  /** Checks and quotes every argument that goes into the command. */
  method QuoteArguments(target: AdminConfig.Settings, ps: seq<Parameter>, params: Params)
    returns (subs: Option<map<string, string>>)
    ensures subs.Some? <==> AllResolve(target, ps, params)
    ensures subs.Some? ==> subs.value == QuoteAll(Resolved(target, ps, params))
  {
    var m: map<string, string> := map[];
    for i := 0 to |ps|
      invariant AllResolve(target, ps[..i], params)
      invariant m == QuoteAll(Resolved(target, ps[..i], params))
    {
      ResolveOneMore(target, ps, i, params);
      var raw := Get(params, ps[i].name);
      if !Streamed(ps[i]) {
        var v := Resolve(target, ps[i], raw);
        if v.None? {
          return None;
        }
        QuoteAllUpdate(Resolved(target, ps[..i], params), ps[i].name, v.value);
        m := m[ps[i].name := ShellQuote(v.value)];
      }
    }
    assert ps[..|ps|] == ps;
    subs := Some(m);
  }

  /**
   Renders the command of a user-defined verb.  It fails exactly when the verb is unknown or
   has no command, or an argument is not acceptable; otherwise the remote shell tokenises the
   result as the template with the checked values as literal text, given that the placeholders
   of the template sit at unquoted positions, which depends on the template alone.
   */
  method RenderCommand(def: Definition, name: string, target: AdminConfig.Settings, params: Params)
    returns (command: Option<string>)
    ensures command.Some? <==>
              && name in def.actions && TrimSpace(def.actions[name].command) != ""
              && AllResolve(target, def.actions[name].parameters, params)
    ensures command.Some? ==>
              var values := Resolved(target, def.actions[name].parameters, params);
              var ps := Pieces(def.actions[name].command);
              && command.value == Substitute(def.actions[name].command, QuoteAll(values))
              && (HolesUnquoted(START, ps, values) ==> Lex(command.value) == Finish(ReadTemplate(START, ps, values)))
    ensures command.Some? ==>
              var values := Resolved(target, def.actions[name].parameters, params);
              forall i: nat :: Counts(def.actions[name].parameters, i) ==>
                var p := def.actions[name].parameters[i];
                && p.name in values
                && (p.constraint == "service" ==> values[p.name] in target.services
                                                  && values[p.name] == TrimSpace(Get(params, p.name)))
                && (p.constraint != "service" && p.constraint != "path" ==> values[p.name] == Get(params, p.name))
  {
    if name !in def.actions || TrimSpace(def.actions[name].command) == "" {
      return None;
    }
    var action := def.actions[name];
    var subs := QuoteArguments(target, action.parameters, params);
    if subs.None? {
      return None;
    }
    ghost var values := Resolved(target, action.parameters, params);
    forall i: nat | Counts(action.parameters, i)
      ensures var p := action.parameters[i];
              p.name in values && Some(values[p.name]) == Resolve(target, p, Get(params, p.name))
    {
      ResolvedAt(target, action.parameters, params, i);
    }
    if HolesUnquoted(START, Pieces(action.command), values) {
      RenderedCommandReadsAsTemplate(action.command, values);
    }
    command := Some(Substitute(action.command, subs.value));
  }
}
