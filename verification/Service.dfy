/**
 The daemon's request chokepoint: the guard chain every request runs through, the audit
 events it appends, and the executor it may reach.
 */
module Service {
  import opened Wrappers
  import opened AppDef
  import Strings
  import Passport
  import Policy

  datatype Request = Request(app: string, action: string, agent: string, user: string, groups: seq<string>, params: Params)

  /** Transport context; `attenuation` is the passport scope of a reflected request. */
  datatype Meta = Meta(transport: string, sessionID: string, externalAgent: string,
                       attenuation: Option<seq<Passport.Capability>>)

  /** The configuration on disk when the request is handled; a file that fails to load is `None`. */
  datatype World = World(defs: Option<map<string, Definition>>, enabled: seq<string>, agents: Option<seq<string>>,
                         keywords: Option<seq<string>>, rules: Option<seq<Policy.Rule>>, auditWritable: bool)

  /** What the executor and the output filters answer, should the request get that far. */
  datatype Outcome = RunError | ExitFailure | FilterError | Success

  datatype Event =
    | Executed(principal: Policy.Principal, app: string, action: string, params: Params)
    | Audited(agent: string, user: string, app: string, action: string, context: Params,
              decision: string, result: string, sessionID: string, externalAgent: string)

  datatype Status = Ok | Invalid | Refused | NotFound | ExecutorFailed | ConfigError | Control

  function PrincipalOf(r: Request): Policy.Principal {
    Policy.Principal(r.agent, r.user, r.groups)
  }

  /** Built-in management verbs, which bypass the attenuation gate and so stay local. */
  predicate IsLocalOnlyVerb(r: Request) {
    r.app == "reflector" || (r.app == "ssh" && r.action == "inspect_bypass")
  }

  function Lower(c: char): char {
    if 'A' <= c <= 'Z' then (c as int + 32) as char else c
  }

  predicate ContainsText(s: string, t: string) {
    exists i :: 0 <= i <= |s| && Strings.HasPrefix(s[i..], t)
  }

  /** Whether an admin blacklist keyword occurs in a folder name, ignoring case. */
  predicate Blacklisted(keywords: seq<string>, folder: string) {
    var low := seq(|folder|, i requires 0 <= i < |folder| => Lower(folder[i]));
    exists k | k in keywords :: k != "" && ContainsText(low, k)
  }

  predicate FolderBlocked(keywords: seq<string>, app: string, context: Params) {
    || (app == "notes" && Blacklisted(keywords, Get(context, "folder")))
    || (app == "mail" && Blacklisted(keywords, Get(context, "mailbox")))
  }

  predicate AppEnabled(w: World, app: string)
    requires w.defs.Some? && app in w.defs.value
  {
    var def := w.defs.value[app];
    def.bundled || def.rootApplied || app in w.enabled
  }

  predicate HasAllRequired(ps: seq<Parameter>, params: Params) {
    forall i :: 0 <= i < |ps| && ps[i].required ==> Strings.TrimSpace(Get(params, ps[i].name)) != ""
  }

  function AuditOf(r: Request, m: Meta, app: string, context: Params, decision: string, result: string): Event {
    Audited(r.agent, r.user, app, r.action, context, decision, result, m.sessionID, m.externalAgent)
  }

  function OutcomeResult(o: Outcome): string {
    match o
    case RunError => "executor_error"
    case ExitFailure => "executor_failure"
    case FilterError => "admin_filter_error"
    case Success => "success"
  }

  /** Everything that must hold before an executor runs, with no order to it. */
  predicate MayRun(w: World, r: Request, m: Meta) {
    && r.app != "" && r.action != "" && r.agent != "" && !IsLocalOnlyVerb(r)
    && w.defs.Some? && w.agents.Some? && w.keywords.Some? && w.rules.Some? && w.auditWritable
    && r.app in w.defs.value && AppEnabled(w, r.app)
    && var def := w.defs.value[r.app];
       && r.action in def.actions
       && HasAllRequired(def.actions[r.action].parameters, r.params)
       && r.agent in w.agents.value
       && var context := DefinitionContext(def, r.action, r.params);
          && !FolderBlocked(w.keywords.value, def.name, context)
          && (m.attenuation.Some? ==> Passport.InScope(m.attenuation.value, def.name, r.action, context))
          && Policy.Authorized(w.rules.value, def, r.action, PrincipalOf(r), r.params)
  }

  /** The chokepoint as a value: status and events. */
  function HandleEvents(w: World, r: Request, m: Meta, o: Outcome): (Status, seq<Event>) {
    if r.app == "" || r.action == "" || r.agent == "" then (Invalid, [])
    else if IsLocalOnlyVerb(r) then (if m.transport == "reflector" then Refused else Control, [])
    else if w.defs.None? then (ConfigError, [])
    else if r.app !in w.defs.value || !AppEnabled(w, r.app) then (NotFound, [])
    else
      var def := w.defs.value[r.app];
      if r.action !in def.actions then (NotFound, [])
      else if !HasAllRequired(def.actions[r.action].parameters, r.params) then (Invalid, [])
      else if w.agents.None? then (ConfigError, [])
      else if r.agent !in w.agents.value then
        (Refused, [AuditOf(r, m, def.name, ContextOf(def.actions[r.action].parameters, r.params), "deny", "unregistered_agent")])
      else HandleRegistered(w, r, m, o, def)
  }

  function HandleRegistered(w: World, r: Request, m: Meta, o: Outcome, def: Definition): (Status, seq<Event>)
    requires r.action in def.actions
  {
    var context := DefinitionContext(def, r.action, r.params);
    if w.keywords.None? then (ConfigError, [])
    else if FolderBlocked(w.keywords.value, def.name, context) then
      (Refused, [AuditOf(r, m, def.name, context, "deny", "admin_blacklist")])
    else if m.attenuation.Some? && !Passport.InScope(m.attenuation.value, def.name, r.action, context) then
      (Refused, [AuditOf(r, m, def.name, context, "deny", "out_of_scope")])
    else if w.rules.None? then (ConfigError, [])
    else if !Policy.Authorized(w.rules.value, def, r.action, PrincipalOf(r), r.params) then
      (Refused, [AuditOf(r, m, def.name, context, "deny", "denied")])
    else if !w.auditWritable then (ExecutorFailed, [])
    else
      (if o == Success then Ok else if o == FilterError then ConfigError else ExecutorFailed,
       [Executed(PrincipalOf(r), def.name, r.action, r.params), AuditOf(r, m, def.name, context, "allow", OutcomeResult(o))])
  }

  /** What ends up in the record: executions happen, but an audit append may fail, and its error is dropped. */
  function Recorded(events: seq<Event>, appendWorks: bool): seq<Event> {
    if events == [] then []
    else if events[0].Audited? && !appendWorks then Recorded(events[1..], appendWorks)
    else [events[0]] + Recorded(events[1..], appendWorks)
  }

  lemma RecordedOne(e: Event, appendWorks: bool)
    ensures Recorded([e], appendWorks) == if e.Audited? && !appendWorks then [] else [e]
  {
    assert [e][1..] == [];
  }

  lemma RecordedTwo(e: Event, a: Event, appendWorks: bool)
    requires e.Executed? && a.Audited?
    ensures Recorded([e, a], appendWorks) == if appendWorks then [e, a] else [e]
  {
    assert [e, a][1..] == [a];
    RecordedOne(a, appendWorks);
  }

  /** The service as it runs, with the append-only record of what it executed and audited. */
  class Daemon {
    var log: seq<Event>

    constructor ()
      ensures log == []
    {
      log := [];
    }

    method RecordAudit(e: Event, appendWorks: bool)
      requires e.Audited?
      modifies this
      ensures log == old(log) + Recorded([e], appendWorks)
    {
      RecordedOne(e, appendWorks);
      if appendWorks {
        log := log + [e];
      }
    }

    method Handle(w: World, r: Request, m: Meta, o: Outcome, appendWorks: bool) returns (status: Status)
      modifies this
      ensures status == HandleEvents(w, r, m, o).0
      ensures log == old(log) + Recorded(HandleEvents(w, r, m, o).1, appendWorks)
    {
      if r.app == "" || r.action == "" || r.agent == "" {
        return Invalid;
      }
      if m.transport == "reflector" && IsLocalOnlyVerb(r) {
        return Refused;
      }
      if IsLocalOnlyVerb(r) {
        return Control;
      }
      if w.defs.None? {
        return ConfigError;
      }
      if r.app !in w.defs.value || !AppEnabled(w, r.app) {
        return NotFound;
      }
      var def := w.defs.value[r.app];
      if r.action !in def.actions {
        return NotFound;
      }
      var missing := MissingRequired(def.actions[r.action].parameters, r.params);
      if missing != [] {
        return Invalid;
      }
      if w.agents.None? {
        return ConfigError;
      }
      if r.agent !in w.agents.value {
        var ctx := PolicyContext(def.actions[r.action], r.params);
        RecordAudit(AuditOf(r, m, def.name, ctx, "deny", "unregistered_agent"), appendWorks);
        return Refused;
      }
      status := HandleKnown(w, r, m, o, def, appendWorks);
    }

    method HandleKnown(w: World, r: Request, m: Meta, o: Outcome, def: Definition, appendWorks: bool) returns (status: Status)
      requires r.action in def.actions
      modifies this
      ensures status == HandleRegistered(w, r, m, o, def).0
      ensures log == old(log) + Recorded(HandleRegistered(w, r, m, o, def).1, appendWorks)
    {
      var context := DefinitionContext(def, r.action, r.params);
      if w.keywords.None? {
        return ConfigError;
      }
      if FolderBlocked(w.keywords.value, def.name, context) {
        RecordAudit(AuditOf(r, m, def.name, context, "deny", "admin_blacklist"), appendWorks);
        return Refused;
      }
      if m.attenuation.Some? {
        var ok, why := Passport.Permits(m.attenuation.value, def.name, r.action, context);
        if !ok {
          RecordAudit(AuditOf(r, m, def.name, context, "deny", "out_of_scope"), appendWorks);
          return Refused;
        }
      }
      if w.rules.None? {
        return ConfigError;
      }
      var decision := Policy.Evaluate(w.rules.value, def, r.action, PrincipalOf(r), r.params);
      if !decision.allowed {
        RecordAudit(AuditOf(r, m, def.name, context, "deny", "denied"), appendWorks);
        return Refused;
      }
      if !w.auditWritable {
        return ExecutorFailed;
      }
      status := Execute(r, m, o, def, context, appendWorks);
    }

    /** The execution and its one audit record. */
    method Execute(r: Request, m: Meta, o: Outcome, def: Definition, context: Params, appendWorks: bool) returns (status: Status)
      modifies this
      ensures status == if o == Success then Ok else if o == FilterError then ConfigError else ExecutorFailed
      ensures log == old(log) + Recorded([Executed(PrincipalOf(r), def.name, r.action, r.params),
                                          AuditOf(r, m, def.name, context, "allow", OutcomeResult(o))], appendWorks)
    {
      var run, audit := Executed(PrincipalOf(r), def.name, r.action, r.params), AuditOf(r, m, def.name, context, "allow", OutcomeResult(o));
      RecordedTwo(run, audit, appendWorks);
      RecordedOne(audit, appendWorks);
      log := log + [run];
      RecordAudit(audit, appendWorks);
      status := if o == Success then Ok else if o == FilterError then ConfigError else ExecutorFailed;
    }
  }

  /**
   An executor is reached exactly when every guard holds, at most once, and then the run is
   followed by its one audit record; a request that is refused runs nothing.
   */
  lemma ExecutorReachedExactly(w: World, r: Request, m: Meta, o: Outcome)
    ensures var events := HandleEvents(w, r, m, o).1;
            && (MayRun(w, r, m) ==>
                  && |events| == 2
                  && events[0] == Executed(PrincipalOf(r), w.defs.value[r.app].name, r.action, r.params)
                  && events[1].Audited? && events[1].decision == "allow" && events[1].agent == r.agent
                  && events[1].sessionID == m.sessionID)
            && (!MayRun(w, r, m) ==> |events| <= 1 && forall e :: e in events ==> e.Audited? && e.decision == "deny")
  {
  }

  // ---- what each guard answers ----

  /** All three fields given, and not one of the daemon's own management verbs. */
  predicate Ordinary(r: Request) {
    && r.app != "" && r.action != "" && r.agent != ""
    && r.app != "reflector" && !(r.app == "ssh" && r.action == "inspect_bypass")
  }

  /** An ordinary request for an app that is installed and either trusted or opted into. */
  predicate Usable(w: World, r: Request) {
    && Ordinary(r) && w.defs.Some? && r.app in w.defs.value
    && (w.defs.value[r.app].bundled || w.defs.value[r.app].rootApplied || exists i :: 0 <= i < |w.enabled| && w.enabled[i] == r.app)
  }

  predicate Given(params: Params, name: string) {
    name in params && exists i :: 0 <= i < |params[name]| && !Strings.IsSpace(params[name][i])
  }

  /** A usable app's verb with a value that is not blank for each required parameter. */
  predicate WellFormed(w: World, r: Request) {
    && Usable(w, r) && r.action in w.defs.value[r.app].actions
    && forall p :: p in w.defs.value[r.app].actions[r.action].parameters && p.required ==> Given(r.params, p.name)
  }

  lemma GivenExactly(params: Params, name: string)
    ensures Given(params, name) <==> Strings.TrimSpace(Get(params, name)) != ""
  {
    if name in params {
      Strings.TrimSpaceBlank(params[name]);
    }
  }

  lemma EnabledExactly(w: World, r: Request)
    requires Ordinary(r) && w.defs.Some? && r.app in w.defs.value
    ensures Usable(w, r) <==> AppEnabled(w, r.app)
  {
  }

  lemma RequiredExactly(ps: seq<Parameter>, params: Params)
    ensures HasAllRequired(ps, params) <==> forall p :: p in ps && p.required ==> Given(params, p.name)
  {
    forall p | p in ps ensures Given(params, p.name) <==> Strings.TrimSpace(Get(params, p.name)) != "" {
      GivenExactly(params, p.name);
    }
  }

  /** Before anything is looked up: a field left empty, a management verb, a registry that does not load. */
  lemma AnsweredAtTheDoor(w: World, r: Request, m: Meta, o: Outcome)
    ensures var answer := HandleEvents(w, r, m, o);
            && (r.app == "" || r.action == "" || r.agent == "" ==> answer == (Invalid, []))
            && (r.action != "" && r.agent != "" && r.app == "reflector" ==>
                  answer == (if m.transport == "reflector" then Refused else Control, []))
            && (r.agent != "" && r.app == "ssh" && r.action == "inspect_bypass" ==>
                  answer == (if m.transport == "reflector" then Refused else Control, []))
            && (Ordinary(r) && w.defs.None? ==> answer == (ConfigError, []))
  {
  }

  /**
   Looking the verb up: an app that is not installed, or is installed but neither bundled, nor
   applied by root, nor listed as enabled, is not found, nor is a verb it does not have; a
   required value left out or blank makes the request invalid.  Nothing runs or is recorded.
   */
  lemma AnsweredAtLookup(w: World, r: Request, m: Meta, o: Outcome)
    requires Ordinary(r) && w.defs.Some?
    ensures var answer := HandleEvents(w, r, m, o);
            && (r.app !in w.defs.value ==> answer == (NotFound, []))
            && ((r.app in w.defs.value && !w.defs.value[r.app].bundled && !w.defs.value[r.app].rootApplied
                 && r.app !in w.enabled) ==> answer == (NotFound, []))
            && (Usable(w, r) && r.action !in w.defs.value[r.app].actions ==> answer == (NotFound, []))
            && (Usable(w, r) && r.action in w.defs.value[r.app].actions && !WellFormed(w, r) ==> answer == (Invalid, []))
            && (WellFormed(w, r) && w.agents.None? ==> answer == (ConfigError, []))
  {
    if r.app in w.defs.value {
      EnabledExactly(w, r);
      if r.action in w.defs.value[r.app].actions {
        RequiredExactly(w.defs.value[r.app].actions[r.action].parameters, r.params);
      }
    }
  }

  /** A well-formed request of an agent that is not registered is refused, and one denial is recorded. */
  lemma UnregisteredIsRefused(w: World, r: Request, m: Meta, o: Outcome)
    requires WellFormed(w, r) && w.agents.Some? && r.agent !in w.agents.value
    ensures var def := w.defs.value[r.app];
            HandleEvents(w, r, m, o)
            == (Refused, [Audited(r.agent, r.user, def.name, r.action, ContextOf(def.actions[r.action].parameters, r.params),
                                  "deny", "unregistered_agent", m.sessionID, m.externalAgent)])
  {
    EnabledExactly(w, r);
    RequiredExactly(w.defs.value[r.app].actions[r.action].parameters, r.params);
  }

  /** A well-formed request of a registered agent. */
  predicate Admissible(w: World, r: Request) {
    WellFormed(w, r) && w.agents.Some? && r.agent in w.agents.value
  }

  predicate LowerOf(c: char, low: char) {
    if 'A' <= c <= 'Z' then low as int == c as int + 32 else low == c
  }

  /** The keyword stands at position `at` of the text when the text is read in lower case. */
  predicate KeywordAt(k: string, text: string, at: nat) {
    at + |k| <= |text| && forall j :: 0 <= j < |k| ==> LowerOf(text[at + j], k[j])
  }

  /** Some keyword that is not empty occurs in the text. */
  predicate Protected(keywords: seq<string>, text: string) {
    exists k, at :: k in keywords && 0 <= at <= |text| && k != "" && KeywordAt(k, text, at)
  }

  lemma LowerExactly(c: char, low: char)
    ensures LowerOf(c, low) <==> Lower(c) == low
  {
  }

  lemma ContainsExactly(low: string, text: string, k: string)
    requires |low| == |text| && forall i :: 0 <= i < |text| ==> low[i] == Lower(text[i])
    ensures ContainsText(low, k) <==> exists at :: 0 <= at <= |text| && KeywordAt(k, text, at)
  {
    forall c, l ensures LowerOf(c, l) <==> Lower(c) == l {
      LowerExactly(c, l);
    }
    if ContainsText(low, k) {
      var at :| 0 <= at <= |low| && Strings.HasPrefix(low[at..], k);
      assert forall j :: 0 <= j < |k| ==> k[j] == low[at..][j] == low[at + j];
      assert KeywordAt(k, text, at);
    }
    if at :| 0 <= at <= |text| && KeywordAt(k, text, at) {
      assert low[at..][..|k|] == k;
      assert Strings.HasPrefix(low[at..], k);
    }
  }

  /** The blacklist test finds exactly the names a keyword occurs in, whatever the case of their letters. */
  lemma BlacklistedExactly(keywords: seq<string>, folder: string)
    ensures Blacklisted(keywords, folder) <==> Protected(keywords, folder)
  {
    var low := seq(|folder|, i requires 0 <= i < |folder| => Lower(folder[i]));
    forall k | k in keywords ensures ContainsText(low, k) <==> exists at :: 0 <= at <= |folder| && KeywordAt(k, folder, at) {
      ContainsExactly(low, folder, k);
    }
  }

  /** The context value the blacklist looks at names a protected folder or mailbox. */
  predicate NamesProtected(keywords: seq<string>, app: string, context: Params) {
    || (app == "notes" && "folder" in context && Protected(keywords, context["folder"]))
    || (app == "mail" && "mailbox" in context && Protected(keywords, context["mailbox"]))
  }

  lemma NothingInEmpty(keywords: seq<string>)
    ensures !Protected(keywords, "")
  {
  }

  lemma FolderBlockedExactly(keywords: seq<string>, app: string, context: Params)
    ensures FolderBlocked(keywords, app, context) <==> NamesProtected(keywords, app, context)
  {
    BlacklistedExactly(keywords, Get(context, "folder"));
    BlacklistedExactly(keywords, Get(context, "mailbox"));
    NothingInEmpty(keywords);
  }

  lemma RegisteredAnswer(w: World, r: Request, m: Meta, o: Outcome)
    requires Admissible(w, r)
    ensures HandleEvents(w, r, m, o) == HandleRegistered(w, r, m, o, w.defs.value[r.app])
  {
    EnabledExactly(w, r);
    RequiredExactly(w.defs.value[r.app].actions[r.action].parameters, r.params);
  }

  function Denial(r: Request, m: Meta, def: Definition, reason: string): (Status, seq<Event>) {
    (Refused, [Audited(r.agent, r.user, def.name, r.action, DefinitionContext(def, r.action, r.params),
                       "deny", reason, m.sessionID, m.externalAgent)])
  }

  /** A registered agent's request for a protected folder or mailbox, or outside a passport's scope. */
  lemma DeniedBeforePolicy(w: World, r: Request, m: Meta, o: Outcome)
    requires Admissible(w, r)
    ensures var def := w.defs.value[r.app];
            var context := DefinitionContext(def, r.action, r.params);
            var answer := HandleEvents(w, r, m, o);
            && (w.keywords.None? ==> answer == (ConfigError, []))
            && (w.keywords.Some? && NamesProtected(w.keywords.value, def.name, context) ==>
                  answer == Denial(r, m, def, "admin_blacklist"))
            && ((w.keywords.Some? && !NamesProtected(w.keywords.value, def.name, context) && m.attenuation.Some?
                 && !Passport.InScope(m.attenuation.value, def.name, r.action, context)) ==>
                  answer == Denial(r, m, def, "out_of_scope"))
  {
    RegisteredAnswer(w, r, m, o);
    if w.keywords.Some? {
      var def := w.defs.value[r.app];
      FolderBlockedExactly(w.keywords.value, def.name, DefinitionContext(def, r.action, r.params));
    }
  }

  /** Nothing stands between the request and the policy. */
  predicate ReachesPolicy(w: World, r: Request, m: Meta) {
    && Admissible(w, r) && w.keywords.Some?
    && var def := w.defs.value[r.app];
       var context := DefinitionContext(def, r.action, r.params);
       && !NamesProtected(w.keywords.value, def.name, context)
       && (m.attenuation.Some? ==> Passport.InScope(m.attenuation.value, def.name, r.action, context))
  }

  /**
   The policy's word and what follows it: a denial is recorded and refused; an allowed request
   is not run while the audit file cannot be written; otherwise it runs once, and its outcome
   decides the status and what is recorded.
   */
  lemma AnsweredByPolicy(w: World, r: Request, m: Meta, o: Outcome)
    requires ReachesPolicy(w, r, m)
    ensures var def := w.defs.value[r.app];
            var who := Policy.Principal(r.agent, r.user, r.groups);
            var answer := HandleEvents(w, r, m, o);
            && (w.rules.None? ==> answer == (ConfigError, []))
            && (w.rules.Some? && !Policy.Authorized(w.rules.value, def, r.action, who, r.params) ==>
                  answer == Denial(r, m, def, "denied"))
            && (w.rules.Some? && Policy.Authorized(w.rules.value, def, r.action, who, r.params) && !w.auditWritable ==>
                  answer == (ExecutorFailed, []))
            && (w.rules.Some? && Policy.Authorized(w.rules.value, def, r.action, who, r.params) && w.auditWritable ==>
                  answer == Ran(r, m, def, o))
  {
    RegisteredAnswer(w, r, m, o);
    var def := w.defs.value[r.app];
    FolderBlockedExactly(w.keywords.value, def.name, DefinitionContext(def, r.action, r.params));
  }

  /** One execution with its record, by how it went. */
  function Ran(r: Request, m: Meta, def: Definition, o: Outcome): (Status, seq<Event>) {
    var run := Executed(Policy.Principal(r.agent, r.user, r.groups), def.name, r.action, r.params);
    var context := DefinitionContext(def, r.action, r.params);
    var record := (result: string) =>
      [run, Audited(r.agent, r.user, def.name, r.action, context, "allow", result, m.sessionID, m.externalAgent)];
    match o
    case RunError => (ExecutorFailed, record("executor_error"))
    case ExitFailure => (ExecutorFailed, record("executor_failure"))
    case FilterError => (ConfigError, record("admin_filter_error"))
    case Success => (Ok, record("success"))
  }
}
