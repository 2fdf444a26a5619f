/**
 Running a custom system verb without a shell: the template is cut into tokens first and
 arguments are filled in afterwards, so no argument can add, remove or split a token.
 */
module SystemArgv {
  import opened Wrappers
  import opened Strings
  import opened AppDef
  import opened ShellCommand
  import Definitions
  import Paths

  // ---- cutting the template ----

  /** The text up to the first white space. */
  function FieldLength(s: string): (n: nat)
    ensures n <= |s|
    ensures forall i :: 0 <= i < n ==> !IsSpace(s[i])
    ensures n < |s| ==> IsSpace(s[n])
  {
    if s == "" || IsSpace(s[0]) then 0 else 1 + FieldLength(s[1..])
  }

  /** The maximal runs of characters that are not white space. */
  function Fields(s: string): (r: seq<string>)
    ensures forall i :: 0 <= i < |r| ==> r[i] != "" && forall k :: 0 <= k < |r[i]| ==> !IsSpace(r[i][k])
    decreases |s|
  {
    if s == "" then []
    else if IsSpace(s[0]) then Fields(s[1..])
    else [s[..FieldLength(s)]] + Fields(s[FieldLength(s)..])
  }

  lemma {:induction false} FieldStops(a: string, t: string)
    requires t != "" && IsSpace(t[0])
    ensures FieldLength(a + t) == FieldLength(a)
    decreases |a|
  {
    if a == "" {
      assert a + t == t;
    } else {
      assert (a + t)[1..] == a[1..] + t;
      FieldStops(a[1..], t);
    }
  }

  lemma {:induction false} FieldsAtBlank(a: string, t: string, all: string)
    requires t != "" && IsSpace(t[0]) && all == a + t
    ensures Fields(all) == Fields(a) + Fields(t)
    decreases |a|
  {
    if a == "" {
      assert all == t;
    } else if IsSpace(a[0]) {
      FieldsAtBlank(a[1..], t, all[1..]);
    } else {
      var n := FieldLength(a);
      FieldStops(a, t);
      assert all[..n] == a[..n] && all[n..] == a[n..] + t;
      FieldsAtBlank(a[n..], t, all[n..]);
      assert [a[..n]] + (Fields(a[n..]) + Fields(t)) == ([a[..n]] + Fields(a[n..])) + Fields(t);
    }
  }

  /**
   Tokens are the maximal runs without white space, in order: a text without white space is one
   token, and white space anywhere splits the tokens before it from the tokens after it.
   */
  lemma FieldsAreRuns(a: string, gap: char, b: string)
    requires IsSpace(gap)
    ensures Fields(a + [gap] + b) == Fields(a) + Fields(b)
    ensures a != "" && (forall i :: 0 <= i < |a| ==> !IsSpace(a[i])) ==> Fields(a) == [a]
  {
    var t := [gap] + b;
    assert a + [gap] + b == a + t && t[1..] == b;
    FieldsAtBlank(a, t, a + t);
    if a != "" && forall i :: 0 <= i < |a| ==> !IsSpace(a[i]) {
      assert FieldLength(a) == |a| && a[..|a|] == a && a[|a|..] == "";
    }
  }

  /** The pieces of all tokens in order. */
  function AllPieces(tokens: seq<string>): seq<Piece> {
    if tokens == [] then [] else Pieces(tokens[0]) + AllPieces(tokens[1..])
  }

  function WithoutBlanks(ps: seq<Piece>): seq<Piece> {
    if ps == [] then []
    else if ps[0].Lit? && IsSpace(ps[0].c) then WithoutBlanks(ps[1..])
    else [ps[0]] + WithoutBlanks(ps[1..])
  }

  lemma {:induction false} NameStopsAtBlank(a: string, b: string)
    requires b != "" && !IsNameChar(b[0])
    ensures NameLength(a + b) == NameLength(a)
    decreases |a|
  {
    if a == "" {
      assert a + b == b;
    } else {
      assert (a + b)[1..] == a[1..] + b;
      NameStopsAtBlank(a[1..], b);
    }
  }

  lemma SameFirst(a: string, b: string)
    requires a != "" && b != "" && !IsNameChar(b[0]) && b[0] != '}'
    ensures First(a + b) == First(a) && 0 < First(a).1 <= |a|
  {
    var t, n := a + b, NameLength(a[1..]);
    assert t[1..] == a[1..] + b;
    NameStopsAtBlank(a[1..], b);
    if n + 1 < |a| {
      assert t[n + 1] == a[n + 1] && t[1..n + 1] == a[1..n + 1];
    } else {
      assert t[n + 1] == b[0];
    }
  }

  function FirstOrNone(t: string): (Piece, nat) {
    if t == "" then (Lit(' '), 0) else First(t)
  }

  /** `pieces` is what taking first pieces off, one after the other, gives. */
  ghost predicate Unfolds(pieces: string -> seq<Piece>, first: string -> (Piece, nat)) {
    && pieces("") == []
    && forall t {:trigger first(t)} :: t != "" ==> 0 < first(t).1 <= |t| && pieces(t) == [first(t).0] + pieces(t[first(t).1..])
  }

  /** Text after which the first piece of anything in front of it is the same. */
  ghost predicate CutsBefore(first: string -> (Piece, nat), b: string) {
    forall a {:trigger first(a + b)} :: a != "" ==> first(a + b) == first(a)
  }

  lemma {:induction false} CutAt(pieces: string -> seq<Piece>, first: string -> (Piece, nat), a: string, b: string)
    requires Unfolds(pieces, first) && CutsBefore(first, b)
    ensures pieces(a + b) == pieces(a) + pieces(b)
    decreases |a|
  {
    if a == "" {
      assert a + b == b;
    } else {
      var t := a + b;
      var f := first(a);
      assert first(t) == f;
      CutAt(pieces, first, a[f.1..], b);
      assert t[f.1..] == a[f.1..] + b;
    }
  }

  /** A blank never falls inside a placeholder, so cutting there cuts no placeholder. */
  lemma PiecesCutAtBlank(a: string, b: string)
    requires b != "" && !IsNameChar(b[0]) && b[0] != '}'
    ensures Pieces(a + b) == Pieces(a) + Pieces(b)
  {
    forall t | t != "" ensures 0 < First(t).1 <= |t| && Pieces(t) == [First(t).0] + Pieces(t[First(t).1..]) {
      FirstSpells(t, First(t));
      UnfoldPieces(t, First(t), t[First(t).1..]);
    }
    forall x | x != "" ensures First(x + b) == First(x) {
      SameFirst(x, b);
    }
    CutAt(Pieces, FirstOrNone, a, b);
  }

  lemma {:induction false} BlanksConcat(a: seq<Piece>, b: seq<Piece>)
    ensures WithoutBlanks(a + b) == WithoutBlanks(a) + WithoutBlanks(b)
    decreases |a|
  {
    if a == [] {
      assert a + b == b;
    } else {
      assert (a + b)[1..] == a[1..] + b;
      BlanksConcat(a[1..], b);
    }
  }

  lemma {:induction false} FieldHasNoBlanks(s: string)
    requires forall i :: 0 <= i < |s| ==> !IsSpace(s[i])
    ensures WithoutBlanks(Pieces(s)) == Pieces(s)
    decreases |s|
  {
    if s != "" {
      var n := NameLength(s[1..]);
      if s[0] == '{' && n > 0 && n + 1 < |s| && s[n + 1] == '}' {
        FieldHasNoBlanks(s[n + 2..]);
      } else {
        FieldHasNoBlanks(s[1..]);
      }
    }
  }

  /** Cutting first and finding placeholders afterwards finds exactly the template's placeholders. */
  lemma {:induction false} FieldsKeepPieces(tmpl: string)
    ensures AllPieces(Fields(tmpl)) == WithoutBlanks(Pieces(tmpl))
    decreases |tmpl|
  {
    if tmpl != "" {
      if IsSpace(tmpl[0]) {
        FieldsKeepPieces(tmpl[1..]);
      } else {
        var n := FieldLength(tmpl);
        var field, rest := tmpl[..n], tmpl[n..];
        FieldsKeepPieces(rest);
        assert tmpl == field + rest;
        FieldHasNoBlanks(field);
        if rest == "" {
          assert field == tmpl;
          assert Fields(tmpl) == [field] && [field][1..] == [];
        } else {
          PiecesCutAtBlank(field, rest);
          BlanksConcat(Pieces(field), Pieces(rest));
          assert Fields(tmpl)[1..] == Fields(rest);
        }
      }
    }
  }

  // ---- filling the tokens ----

  /** The constraint of the last declared parameter of a name; undeclared names have none. */
  function ConstraintOf(declared: seq<Parameter>, name: string): string
    decreases |declared|
  {
    if declared == [] then ""
    else
      var p := declared[|declared| - 1];
      if p.name == name then p.constraint else ConstraintOf(declared[..|declared| - 1], name)
  }

  /** The value a placeholder stands for, if it is acceptable; a missing argument is empty. */
  function ArgumentFor(declared: seq<Parameter>, params: Params, name: string): Option<string> {
    var val := Get(params, name);
    if '\0' in val || '\n' in val then None
    else if ConstraintOf(declared, name) != "path" then Some(val)
    else if Paths.IsAbs(val) then Some(Paths.Clean(val))
    else None
  }

  /** The last parameter declared under the name, if any, is a path. */
  predicate DeclaredPath(declared: seq<Parameter>, name: string) {
    exists i :: 0 <= i < |declared| && declared[i].name == name && declared[i].constraint == "path"
                && forall j :: i < j < |declared| ==> declared[j].name != name
  }

  lemma {:induction false} ConstraintIsPath(declared: seq<Parameter>, name: string)
    ensures ConstraintOf(declared, name) == "path" <==> DeclaredPath(declared, name)
    decreases |declared|
  {
    if declared != [] {
      var n := |declared| - 1;
      var front := declared[..n];
      ConstraintIsPath(front, name);
      assert forall i :: 0 <= i < n ==> front[i] == declared[i];
      if declared[n].name != name && DeclaredPath(front, name) {
        var i :| 0 <= i < n && front[i].name == name && front[i].constraint == "path"
                 && forall j :: i < j < n ==> front[j].name != name;
        assert declared[i].name == name && forall j :: i < j < |declared| ==> declared[j].name != name;
      }
    }
  }

  /**
   What a placeholder is replaced by: the argument as given, or its cleaned form when it is
   declared to be a path.  It is refused with a NUL or a line end in it, and a path that is not
   absolute is too.
   */
  lemma ArgumentExactly(declared: seq<Parameter>, params: Params, name: string)
    ensures var raw := if name in params then params[name] else "";
            && (ArgumentFor(declared, params, name).Some?
                <==> '\0' !in raw && '\n' !in raw && (DeclaredPath(declared, name) ==> raw != "" && raw[0] == '/'))
            && (ArgumentFor(declared, params, name).Some? ==>
                  ArgumentFor(declared, params, name).value == if DeclaredPath(declared, name) then Paths.Clean(raw) else raw)
  {
    ConstraintIsPath(declared, name);
  }

  predicate Fillable(ps: seq<Piece>, declared: seq<Parameter>, params: Params) {
    forall i :: 0 <= i < |ps| && ps[i].Hole? ==> ArgumentFor(declared, params, ps[i].name).Some?
  }

  /** One acceptable value for every placeholder. */
  function Arguments(ps: seq<Piece>, declared: seq<Parameter>, params: Params): map<string, string>
    requires Fillable(ps, declared, params)
  {
    map i | 0 <= i < |ps| && ps[i].Hole? :: ps[i].name := ArgumentFor(declared, params, ps[i].name).value
  }

  /** A token with its placeholders replaced by the acceptable values. */
  function Filled(token: string, declared: seq<Parameter>, params: Params): string
    requires Fillable(Pieces(token), declared, params)
  {
    Fill(Pieces(token), Arguments(Pieces(token), declared, params))
  }

  predicate NoHoles(ps: seq<Piece>) {
    forall i :: 0 <= i < |ps| ==> ps[i].Lit?
  }

  lemma {:induction false} FillWithoutHoles(ps: seq<Piece>, subs: map<string, string>)
    requires NoHoles(ps)
    ensures Fill(ps, subs) == Fill(ps, map[])
    decreases |ps|
  {
    if ps != [] {
      FillWithoutHoles(ps[1..], subs);
    }
  }

  lemma {:induction false} FillSnoc(ps: seq<Piece>, p: Piece, subs: map<string, string>)
    ensures Fill(ps + [p], subs) == Fill(ps, subs) + PieceText(p, subs)
    decreases |ps|
  {
    if ps == [] {
      assert (ps + [p])[1..] == [];
    } else {
      assert (ps + [p])[1..] == ps[1..] + [p];
      FillSnoc(ps[1..], p, subs);
    }
  }

  function Put(piece: Piece, declared: seq<Parameter>, params: Params): Option<string> {
    match piece
    case Lit(c) => Some([c])
    case Hole(name) => ArgumentFor(declared, params, name)
  }

  /** The text of a token, or nothing if one of its arguments is not acceptable. */
  function Render(ps: seq<Piece>, declared: seq<Parameter>, params: Params): Option<string>
    decreases |ps|
  {
    if ps == [] then Some("")
    else
      var front, last := Render(ps[..|ps| - 1], declared, params), Put(ps[|ps| - 1], declared, params);
      if front.None? || last.None? then None else Some(front.value + last.value)
  }

  predicate Suits(subs: map<string, string>, ps: seq<Piece>, declared: seq<Parameter>, params: Params) {
    forall i :: 0 <= i < |ps| && ps[i].Hole? ==>
      ps[i].name in subs && Some(subs[ps[i].name]) == ArgumentFor(declared, params, ps[i].name)
  }

  lemma SuitsFront(subs: map<string, string>, ps: seq<Piece>, n: nat, declared: seq<Parameter>, params: Params)
    requires n < |ps| && Suits(subs, ps, declared, params)
    ensures Suits(subs, ps[..n], declared, params)
    ensures Put(ps[n], declared, params) == Some(PieceText(ps[n], subs))
  {
    assert forall i :: 0 <= i < n ==> ps[..n][i] == ps[i];
  }

  lemma RenderOneMore(ps: seq<Piece>, n: nat, declared: seq<Parameter>, params: Params)
    requires |ps| == n + 1
    ensures Render(ps, declared, params)
            == if Render(ps[..n], declared, params).None? || Put(ps[n], declared, params).None? then None
               else Some(Render(ps[..n], declared, params).value + Put(ps[n], declared, params).value)
    ensures Fillable(ps, declared, params)
            <==> Fillable(ps[..n], declared, params) && Put(ps[n], declared, params).Some?
  {
    FillableSnoc(ps, n, declared, params);
    assert ps[..n + 1] == ps;
  }

  lemma {:induction false} RenderIsFill(ps: seq<Piece>, declared: seq<Parameter>, params: Params, subs: map<string, string>)
    ensures Render(ps, declared, params).Some? <==> Fillable(ps, declared, params)
    ensures Suits(subs, ps, declared, params) ==> Render(ps, declared, params) == Some(Fill(ps, subs))
    decreases |ps|
  {
    if ps != [] {
      var n := |ps| - 1;
      var front, last := ps[..n], ps[n];
      RenderIsFill(front, declared, params, subs);
      RenderOneMore(ps, n, declared, params);
      if Suits(subs, ps, declared, params) {
        SuitsFront(subs, ps, n, declared, params);
        FillSnoc(front, last, subs);
        assert front + [last] == ps;
      }
    }
  }

  lemma ArgumentsSuit(ps: seq<Piece>, declared: seq<Parameter>, params: Params)
    requires Fillable(ps, declared, params)
    ensures Suits(Arguments(ps, declared, params), ps, declared, params)
  {
  }

  ghost predicate Constrains(constraints: map<string, string>, declared: seq<Parameter>) {
    forall name :: Get(constraints, name) == ConstraintOf(declared, name)
  }

  /** Replaces the placeholders of one token; an unacceptable argument is remembered as an error. */
  method RenderToken(token: string, constraints: map<string, string>, params: Params, ghost declared: seq<Parameter>)
    returns (rendered: Option<string>)
    requires Constrains(constraints, declared)
    ensures rendered == Element(token, declared, params)
  {
    var ps := Pieces(token);
    var failed, text := false, "";
    for i := 0 to |ps|
      invariant failed <==> Render(ps[..i], declared, params).None?
      invariant !failed ==> Render(ps[..i], declared, params) == Some(text)
    {
      assert ps[..i + 1][..i] == ps[..i];
      var put := RenderPiece(ps[i], constraints, params, declared);
      if put.None? {
        failed := true;
      } else {
        text := text + put.value;
      }
    }
    assert ps[..|ps|] == ps;
    rendered := if failed then None else Some(text);
  }

  method RenderPiece(piece: Piece, constraints: map<string, string>, params: Params, ghost declared: seq<Parameter>)
    returns (text: Option<string>)
    requires Constrains(constraints, declared)
    ensures text == Put(piece, declared, params)
  {
    match piece
    case Lit(c) => text := Some([c]);
    case Hole(name) =>
      var val := Get(params, name);
      if '\0' in val || '\n' in val {
        return None;
      }
      if Get(constraints, name) == "path" {
        if !Paths.IsAbs(val) {
          return None;
        }
        val := Paths.Clean(val);
      }
      text := Some(val);
  }

  lemma FillableSnoc(ps: seq<Piece>, i: nat, declared: seq<Parameter>, params: Params)
    requires i < |ps|
    ensures Fillable(ps[..i + 1], declared, params)
            <==> Fillable(ps[..i], declared, params)
                 && (ps[i].Hole? ==> ArgumentFor(declared, params, ps[i].name).Some?)
  {
    var longer, shorter := ps[..i + 1], ps[..i];
    assert longer[i] == ps[i] && forall k :: 0 <= k < i ==> longer[k] == shorter[k];
  }

  predicate TemplateOk(tmpl: string) {
    Fields(tmpl) != [] && NoHoles(Pieces(Fields(tmpl)[0])) && Paths.IsAbs(Fields(tmpl)[0])
  }

  /** The element a token becomes, or nothing if one of its arguments is not acceptable. */
  function Element(token: string, declared: seq<Parameter>, params: Params): Option<string> {
    Render(Pieces(token), declared, params)
  }

  /**
   An element exists exactly when every placeholder of its token has an acceptable argument,
   and then it is the token with each placeholder replaced by that argument.
   */
  lemma ElementIsFilledToken(token: string, declared: seq<Parameter>, params: Params)
    ensures Element(token, declared, params).Some? <==> Fillable(Pieces(token), declared, params)
    ensures Element(token, declared, params).Some? ==>
              Element(token, declared, params).value == Filled(token, declared, params)
  {
    var ps := Pieces(token);
    RenderIsFill(ps, declared, params, map[]);
    if Fillable(ps, declared, params) {
      ArgumentsSuit(ps, declared, params);
      RenderIsFill(ps, declared, params, Arguments(ps, declared, params));
    }
  }

  predicate AllElements(tokens: seq<string>, declared: seq<Parameter>, params: Params) {
    forall i :: 0 <= i < |tokens| ==> Element(tokens[i], declared, params).Some?
  }

  /** Each element is made from the token at the same place. */
  predicate MadeFrom(argv: seq<string>, tokens: seq<string>, declared: seq<Parameter>, params: Params) {
    |argv| <= |tokens| && forall i :: 0 <= i < |argv| ==> Element(tokens[i], declared, params) == Some(argv[i])
  }

  lemma ElementsMade(argv: Option<seq<string>>, tokens: seq<string>, declared: seq<Parameter>, params: Params)
    requires argv == MapAll(token => Element(token, declared, params), tokens)
    ensures argv.Some? <==> AllElements(tokens, declared, params)
    ensures argv.Some? ==> |argv.value| == |tokens| && MadeFrom(argv.value, tokens, declared, params)
  {
    MapAllMeans(token => Element(token, declared, params), tokens);
  }

  lemma ProgramUntouched(token: string, declared: seq<Parameter>, params: Params)
    requires NoHoles(Pieces(token))
    ensures Element(token, declared, params) == Some(token)
  {
    ElementIsFilledToken(token, declared, params);
    FillWithoutHoles(Pieces(token), Arguments(Pieces(token), declared, params));
    PiecesSpellTemplate(token);
  }

  /**
   The argument vector of a system verb: one element per template token, each the token with
   its placeholders replaced, the program itself untouched.  It fails exactly when the program
   is missing, relative or a placeholder, or some argument is not acceptable.
   */
  method RenderSystemArgv(tmpl: string, declared: seq<Parameter>, params: Params) returns (argv: Option<seq<string>>)
    ensures argv.Some? <==> TemplateOk(tmpl) && AllElements(Fields(tmpl), declared, params)
    ensures argv.Some? ==> |argv.value| == |Fields(tmpl)| > 0 && argv.value[0] == Fields(tmpl)[0]
    ensures argv.Some? ==> MadeFrom(argv.value, Fields(tmpl), declared, params)
  {
    var constraints: map<string, string> := map[];
    for i := 0 to |declared|
      invariant Constrains(constraints, declared[..i])
    {
      assert declared[..i + 1][..i] == declared[..i];
      constraints := constraints[declared[i].name := declared[i].constraint];
    }
    assert declared[..|declared|] == declared;
    var tokens := Fields(tmpl);
    if tokens == [] || !NoHoles(Pieces(tokens[0])) || !Paths.IsAbs(tokens[0]) {
      return None;
    }
    argv := RenderTokens(tokens, constraints, params, declared);
    ElementsMade(argv, tokens, declared, params);
    ProgramUntouched(tokens[0], declared, params);
  }

  method RenderTokens(tokens: seq<string>, constraints: map<string, string>, params: Params, ghost declared: seq<Parameter>)
    returns (argv: Option<seq<string>>)
    requires Constrains(constraints, declared)
    ensures argv == MapAll(token => Element(token, declared, params), tokens)
  {
    ghost var element := token => Element(token, declared, params);
    var out: seq<string> := [];
    for i := 0 to |tokens|
      invariant MapAll(element, tokens[..i]) == Some(out)
    {
      var rendered := RenderToken(tokens[i], constraints, params, declared);
      assert element(tokens[i]) == rendered;
      MapOneMore(element, tokens, i);
      if rendered.None? {
        MapFails(element, tokens, i + 1);
        return None;
      }
      out := out + [rendered.value];
    }
    assert tokens[..|tokens|] == tokens;
    argv := Some(out);
  }

  /** Applies `f` to every token, giving nothing if it fails on one of them. */
  function MapAll(f: string -> Option<string>, tokens: seq<string>): Option<seq<string>>
    decreases |tokens|
  {
    if tokens == [] then Some([])
    else
      var front, last := MapAll(f, tokens[..|tokens| - 1]), f(tokens[|tokens| - 1]);
      if front.None? || last.None? then None else Some(front.value + [last.value])
  }

  lemma MapOneMore(f: string -> Option<string>, tokens: seq<string>, i: nat)
    requires i < |tokens|
    ensures MapAll(f, tokens[..i + 1])
            == if MapAll(f, tokens[..i]).None? || f(tokens[i]).None? then None
               else Some(MapAll(f, tokens[..i]).value + [f(tokens[i]).value])
  {
    assert tokens[..i + 1][..i] == tokens[..i];
  }

  lemma {:induction false} MapFails(f: string -> Option<string>, tokens: seq<string>, n: nat)
    requires n <= |tokens| && MapAll(f, tokens[..n]).None?
    ensures MapAll(f, tokens).None?
    decreases |tokens| - n
  {
    if n < |tokens| {
      MapOneMore(f, tokens, n);
      MapFails(f, tokens, n + 1);
    } else {
      assert tokens[..n] == tokens;
    }
  }

  lemma {:induction false} MapAllMeans(f: string -> Option<string>, tokens: seq<string>)
    ensures MapAll(f, tokens).Some? <==> forall i :: 0 <= i < |tokens| ==> f(tokens[i]).Some?
    ensures MapAll(f, tokens).Some? ==>
              && |MapAll(f, tokens).value| == |tokens|
              && forall i :: 0 <= i < |tokens| ==> f(tokens[i]) == Some(MapAll(f, tokens).value[i])
    decreases |tokens|
  {
    if tokens != [] {
      MapAllMeans(f, tokens[..|tokens| - 1]);
      assert tokens == tokens[..|tokens| - 1] + [tokens[|tokens| - 1]];
    }
  }

  // ---- provenance ----

  /** What a custom system verb hands to the operating system, if it may run at all. */
  method RunSystemCommand(def: Definition, name: string, params: Params, privileged: bool)
    returns (argv: Option<seq<string>>)
    ensures argv.Some? <==> && MayRunAs(def, name, privileged)
                            && TrimSpace(def.actions[name].command) != "" && TemplateOk(def.actions[name].command)
                            && AllElements(Fields(def.actions[name].command), def.actions[name].parameters, params)
    ensures argv.Some? ==> && MadeFrom(argv.value, Fields(def.actions[name].command), def.actions[name].parameters, params)
                           && |argv.value| == |Fields(def.actions[name].command)| > 0
                           && argv.value[0] == Fields(def.actions[name].command)[0] && Paths.IsAbs(argv.value[0])
  {
    if name !in def.actions || TrimSpace(def.actions[name].command) == "" {
      return None;
    }
    var action := def.actions[name];
    if privileged && !action.rootApplied {
      return None;
    }
    argv := RenderSystemArgv(action.command, action.parameters, params);
  }

  predicate MayRunAs(def: Definition, name: string, privileged: bool) {
    name in def.actions && (privileged ==> def.actions[name].rootApplied)
  }

  /** The program a privileged custom verb starts is the one the root-owned registry names. */
  lemma PrivilegedProgramIsRegistered(defs: map<string, Definition>, bundled: seq<Definition>, user: seq<Definition>,
                                      registry: seq<Definition>, systemMode: bool, app: string, action: string)
    requires Definitions.Unmarked(bundled) && Definitions.Unmarked(user)
    requires Definitions.Assembled(defs, bundled, user, registry, systemMode)
    requires app in defs && MayRunAs(defs[app], action, true)
    ensures Definitions.LastAction(registry, app, action).Some?
    ensures defs[app].actions[action].command == Definitions.LastAction(registry, app, action).value.command
  {
    Definitions.RootAppliedExactly(defs, bundled, user, registry, systemMode, app, action);
  }
}
