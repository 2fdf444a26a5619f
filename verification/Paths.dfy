/**
 Lexical path cleaning and the allow-list tests built on it.  A cleaned absolute path is the
 spelling of a list of components, and the string tests are proved to compare those lists.
 */
module Paths {
  import opened Strings

  predicate IsAbs(path: string) {
    path != "" && path[0] == '/'
  }

  /** Where a walk along `comps` from `at` ends, never going above the root. */
  function Walk(at: seq<string>, comps: seq<string>): seq<string>
    decreases |comps|
  {
    if comps == [] then at
    else if comps[0] == "" || comps[0] == "." then Walk(at, comps[1..])
    else if comps[0] == ".." then Walk(if at == [] then [] else at[..|at| - 1], comps[1..])
    else Walk(at + [comps[0]], comps[1..])
  }

  /** The same for a relative path, which may climb above where it starts. */
  function WalkRelative(at: seq<string>, comps: seq<string>): seq<string>
    decreases |comps|
  {
    if comps == [] then at
    else if comps[0] == "" || comps[0] == "." then WalkRelative(at, comps[1..])
    else if comps[0] == ".." && at != [] && at[|at| - 1] != ".." then WalkRelative(at[..|at| - 1], comps[1..])
    else WalkRelative(at + [comps[0]], comps[1..])
  }

  /** Every component with a slash in front of it. */
  function Flat(at: seq<string>): string {
    if at == [] then "" else "/" + at[0] + Flat(at[1..])
  }

  function RootedText(at: seq<string>): string {
    if at == [] then "/" else Flat(at)
  }

  function RelativeText(at: seq<string>): string {
    if at == [] then "." else at[0] + Flat(at[1..])
  }

  /** The components an absolute path names. */
  function Components(path: string): seq<string> {
    Walk([], Split(path, '/'))
  }

  /** The components of a path that is not absolute; leading ".." ones climb above its start. */
  function RelativeComponents(path: string): seq<string> {
    WalkRelative([], Split(path, '/'))
  }

  function Clean(path: string): string {
    if path == "" then "."
    else if IsAbs(path) then RootedText(Components(path))
    else RelativeText(RelativeComponents(path))
  }

  predicate ProperComponent(c: string) {
    c != "" && c != "." && c != ".." && '/' !in c
  }

  predicate Proper(at: seq<string>) {
    forall i :: 0 <= i < |at| ==> ProperComponent(at[i])
  }

  // ---- cleaning ----

  lemma {:induction false} WalkIsProper(at: seq<string>, comps: seq<string>)
    requires Proper(at) && forall i :: 0 <= i < |comps| ==> '/' !in comps[i]
    ensures Proper(Walk(at, comps))
    decreases |comps|
  {
    if comps != [] {
      if comps[0] == "" || comps[0] == "." {
        WalkIsProper(at, comps[1..]);
      } else if comps[0] == ".." {
        WalkIsProper(if at == [] then [] else at[..|at| - 1], comps[1..]);
      } else {
        WalkIsProper(at + [comps[0]], comps[1..]);
      }
    }
  }

  lemma {:induction false} WalkProper(at: seq<string>, comps: seq<string>)
    requires Proper(comps)
    ensures Walk(at, comps) == at + comps
    decreases |comps|
  {
    if comps != [] {
      assert ProperComponent(comps[0]);
      WalkProper(at + [comps[0]], comps[1..]);
      assert at + [comps[0]] + comps[1..] == at + comps;
    } else {
      assert at + comps == at;
    }
  }

  lemma {:induction false} SplitFlat(c: string, at: seq<string>)
    requires '/' !in c && Proper(at)
    ensures Split(c + Flat(at), '/') == [c] + at
    decreases |at|
  {
    if at == [] {
      assert c + Flat(at) == c;
      SplitWhole(c, '/');
    } else {
      assert ProperComponent(at[0]);
      SplitFlat(at[0], at[1..]);
      assert c + Flat(at) == c + ['/'] + (at[0] + Flat(at[1..]));
      SplitConcat(c, at[0] + Flat(at[1..]), '/');
      SplitWhole(c, '/');
      assert [at[0]] + at[1..] == at;
    }
  }

  /** The spelling of a proper component list names exactly those components. */
  lemma RootedTextNames(at: seq<string>)
    requires Proper(at)
    ensures IsAbs(RootedText(at)) && Components(RootedText(at)) == at
  {
    if at == [] {
      assert "/"[1..] == "";
      assert Split("/", '/') == [""] + [""];
    } else {
      SplitFlat("", at);
      assert "" + Flat(at) == Flat(at);
      assert ([""] + at)[1..] == at;
      WalkProper([], at);
      assert [] + at == at;
    }
  }

  /** Cleaning keeps what an absolute path names, and cleaning twice is cleaning once. */
  lemma CleanKeepsMeaning(path: string)
    requires IsAbs(path)
    ensures IsAbs(Clean(path)) && Components(Clean(path)) == Components(path)
    ensures Clean(Clean(path)) == Clean(path)
    ensures Proper(Components(path))
  {
    WalkIsProper([], Split(path, '/'));
    RootedTextNames(Components(path));
  }

  /** Two absolute paths clean to the same text exactly when they name the same components. */
  lemma CleanIsCanonical(p: string, q: string)
    requires IsAbs(p) && IsAbs(q)
    ensures Clean(p) == Clean(q) <==> Components(p) == Components(q)
  {
    CleanKeepsMeaning(p);
    CleanKeepsMeaning(q);
  }

  predicate Named(at: seq<string>) {
    forall i :: 0 <= i < |at| ==> at[i] != "" && '/' !in at[i]
  }

  lemma {:induction false} WalkRelativeNamed(at: seq<string>, comps: seq<string>)
    requires Named(at) && forall i :: 0 <= i < |comps| ==> '/' !in comps[i]
    ensures Named(WalkRelative(at, comps))
    decreases |comps|
  {
    if comps != [] {
      if comps[0] == "" || comps[0] == "." {
        WalkRelativeNamed(at, comps[1..]);
      } else if comps[0] == ".." && at != [] && at[|at| - 1] != ".." {
        WalkRelativeNamed(at[..|at| - 1], comps[1..]);
      } else {
        WalkRelativeNamed(at + [comps[0]], comps[1..]);
      }
    }
  }

  /** A path that is not absolute does not become absolute by cleaning. */
  lemma CleanRelativeStaysRelative(path: string)
    requires !IsAbs(path)
    ensures !IsAbs(Clean(path))
  {
    if path != "" {
      WalkRelativeNamed([], Split(path, '/'));
      var at := WalkRelative([], Split(path, '/'));
      if at != [] {
        assert at[0] != "" && at[0][0] in at[0];
        assert (at[0] + Flat(at[1..]))[0] == at[0][0];
      }
    }
  }

  // ---- what dots do ----

  lemma {:induction false} WalkConcat(at: seq<string>, a: seq<string>, b: seq<string>)
    ensures Walk(at, a + b) == Walk(Walk(at, a), b)
    decreases |a|
  {
    if a == [] {
      assert a + b == b;
    } else {
      assert (a + b)[1..] == a[1..] + b && (a + b)[0] == a[0];
      if a[0] == "" || a[0] == "." {
        WalkConcat(at, a[1..], b);
      } else if a[0] == ".." {
        WalkConcat(if at == [] then [] else at[..|at| - 1], a[1..], b);
      } else {
        WalkConcat(at + [a[0]], a[1..], b);
      }
    }
  }

  lemma {:induction false} WalkRelativeConcat(at: seq<string>, a: seq<string>, b: seq<string>)
    ensures WalkRelative(at, a + b) == WalkRelative(WalkRelative(at, a), b)
    decreases |a|
  {
    if a == [] {
      assert a + b == b;
    } else {
      assert (a + b)[1..] == a[1..] + b && (a + b)[0] == a[0];
      if a[0] == "" || a[0] == "." {
        WalkRelativeConcat(at, a[1..], b);
      } else if a[0] == ".." && at != [] && at[|at| - 1] != ".." {
        WalkRelativeConcat(at[..|at| - 1], a[1..], b);
      } else {
        WalkRelativeConcat(at + [a[0]], a[1..], b);
      }
    }
  }

  lemma SplitBelow(p: string, c: string)
    requires '/' !in c
    ensures Split(p + "/" + c, '/') == Split(p, '/') + [c]
  {
    SplitConcat(p, c, '/');
    SplitWhole(c, '/');
  }

  /**
   What one more component does to an absolute path: a name is appended, ".." takes the last
   component away and stays at the root, "." and an empty component do nothing.
   */
  lemma ComponentsBelow(p: string, c: string)
    requires IsAbs(p) && '/' !in c
    ensures IsAbs(p + "/" + c)
    ensures ProperComponent(c) ==> Components(p + "/" + c) == Components(p) + [c]
    ensures c == ".." && Components(p) != [] ==> Components(p + "/" + c) == Components(p)[..|Components(p)| - 1]
    ensures c == ".." && Components(p) == [] ==> Components(p + "/" + c) == []
    ensures c == "." || c == "" ==> Components(p + "/" + c) == Components(p)
  {
    SplitBelow(p, c);
    WalkConcat([], Split(p, '/'), [c]);
    assert [c][1..] == [];
  }

  lemma RootComponents()
    ensures Components("/") == []
  {
    assert "/"[1..] == "";
    assert Split("/", '/') == [""] + [""];
    assert ([""] + [""])[1..] == [""];
    assert [""][1..] == [];
  }

  /**
   Cleaning takes dots out of an absolute path the way a file system would follow it: going
   into a name and up again is staying, going up from the root stays there, "." and a doubled
   or trailing slash say nothing, and going up from a place is leaving its last component out.
   */
  lemma CleanFollowsDots(p: string, c: string)
    requires IsAbs(p) && ProperComponent(c)
    ensures Clean(p + "/" + c + "/..") == Clean(p)
    ensures Clean(p + "/.") == Clean(p) && Clean(p + "/") == Clean(p)
    ensures Clean(p + "/..") == "/" <==> |Components(p)| <= 1
    ensures Clean("/") == "/" && Clean("/..") == "/" && Clean("/" + c) == "/" + c
    ensures Clean(p) != "/" ==> Clean(p + "/" + c) == Clean(p) + "/" + c
    ensures Clean(p) == "/" ==> Clean(p + "/" + c) == "/" + c
  {
    ComponentsBelow(p, c);
    ComponentsBelow(p + "/" + c, "..");
    assert p + "/" + c + "/" + ".." == p + "/" + c + "/..";
    assert p + "/" + "." == p + "/." && p + "/" + ".." == p + "/..";
    assert (Components(p) + [c])[..|Components(p)|] == Components(p);
    ComponentsBelow(p, ".");
    assert p + "/" + "" == p + "/";
    ComponentsBelow(p, "");
    ComponentsBelow(p, "..");
    RootIsAlone(Components(p));
    CleanKeepsMeaning(p);
    assert Components(p) == [] ==> Components(p) + [c] == [c];
    CleanKeepsMeaning(p + "/..");
    RootIsAlone(Components(p + "/.."));
    CleanAtRoot(c);
    FlatConcat(Components(p), [c]);
    FlatOne(c);
  }

  lemma FlatOne(c: string)
    ensures Flat([c]) == "/" + c
  {
    assert [c][1..] == [];
  }

  /** Only the empty list of components is spelled as the root. */
  lemma RootIsAlone(at: seq<string>)
    ensures Proper(at) ==> (RootedText(at) == "/" <==> at == [])
  {
    if Proper(at) && at != [] {
      assert ProperComponent(at[0]);
      assert |Flat(at)| >= 1 + |at[0]|;
    }
  }

  lemma CleanAtRoot(c: string)
    requires ProperComponent(c)
    ensures Clean("/") == "/" && Clean("/..") == "/" && Clean("/" + c) == "/" + c
  {
    RootComponents();
    SplitBelow("", "..");
    SplitBelow("", c);
    SplitWhole("", '/');
    assert "" + "/" + ".." == "/..";
    assert "" + "/" + c == "/" + c;
    WalkConcat([], [""], [".."]);
    WalkConcat([], [""], [c]);
    assert [""][1..] == [] && [".."][1..] == [] && [c][1..] == [];
    assert [] + [c] == [c];
    FlatOne(c);
  }

  /** A path that climbs out of a prefix is not under it, however it is spelled. */
  lemma ClimbingOutIsRefused(prefix: string, c: string)
    requires IsAbs(prefix) && Clean(prefix) == prefix && prefix != "/" && ProperComponent(c)
    ensures !Under(prefix, Clean(prefix + "/.."))
    ensures Under(prefix, Clean(prefix + "/" + c)) && Under(prefix, Clean(prefix + "/" + c + "/.."))
    ensures !Under(prefix, Clean(prefix + "/" + c + "/../.."))
  {
    CleanKeepsMeaning(prefix);
    RootIsAlone(Components(prefix));
    ComponentsBelow(prefix, "..");
    assert prefix + "/" + ".." == prefix + "/..";
    ComponentsBelow(prefix, c);
    UnderExactly(prefix, prefix + "/..");
    UnderExactly(prefix, prefix + "/" + c);
    CleanFollowsDots(prefix, c);
    ComponentsBelow(prefix + "/" + c, "..");
    assert prefix + "/" + c + "/" + ".." == prefix + "/" + c + "/..";
    ComponentsBelow(prefix + "/" + c + "/..", "..");
    assert prefix + "/" + c + "/.." + "/" + ".." == prefix + "/" + c + "/../..";
    assert (Components(prefix) + [c])[..|Components(prefix)|] == Components(prefix);
    UnderExactly(prefix, prefix + "/" + c + "/../..");
  }

  /** One more component of a relative path: only ".." after a name takes anything away. */
  lemma RelativeComponentsBelow(p: string, c: string)
    requires '/' !in c
    ensures ProperComponent(c) ==> RelativeComponents(p + "/" + c) == RelativeComponents(p) + [c]
    ensures c == "." || c == "" ==> RelativeComponents(p + "/" + c) == RelativeComponents(p)
    ensures var at := RelativeComponents(p);
            c == ".." ==> RelativeComponents(p + "/" + c)
                          == if at == [] || at[|at| - 1] == ".." then at + [".."] else at[..|at| - 1]
  {
    SplitBelow(p, c);
    WalkRelativeConcat([], Split(p, '/'), [c]);
    assert [c][1..] == [];
  }

  lemma RelativeOne(c: string)
    requires c != "" && c != "." && '/' !in c
    ensures RelativeComponents(c) == [c]
  {
    SplitWhole(c, '/');
    var none: seq<string> := [];
    assert [c][1..] == none && none + [c] == [c];
    assert WalkRelative(none, [c]) == WalkRelative(none + [c], none);
  }

  /** The same for a path that is not absolute, which keeps the ".." that climb above its start. */
  lemma CleanFollowsDotsRelative(p: string, c: string)
    requires p != "" && !IsAbs(p) && ProperComponent(c)
    ensures Clean(p + "/" + c + "/..") == Clean(p)
    ensures Clean(p + "/.") == Clean(p) && Clean(p + "/") == Clean(p)
    ensures Clean("") == "." && Clean(".") == "." && Clean("..") == ".." && Clean(c) == c
    ensures Clean(c + "/..") == "." && Clean("../..") == "../.."
    ensures Clean(p) != "." ==> Clean(p + "/" + c) == Clean(p) + "/" + c
    ensures Clean(p) == "." ==> Clean(p + "/" + c) == c
  {
    var at := RelativeComponents(p);
    RelativeComponentsBelow(p, c);
    RelativeComponentsBelow(p + "/" + c, "..");
    assert p + "/" + c + "/" + ".." == p + "/" + c + "/.." && p + "/" + "." == p + "/.";
    assert (at + [c])[..|at|] == at;
    RelativeComponentsBelow(p, ".");
    assert p + "/" + "" == p + "/";
    RelativeComponentsBelow(p, "");
    CleanRelativeBase(c);
    IntoAndUp(c);
    UpTwice();
    RelativeTextBelow(p, c);
  }

  lemma CleanRelativeBase(c: string)
    requires ProperComponent(c)
    ensures Clean("") == "." && Clean(".") == "." && Clean("..") == ".." && Clean(c) == c
  {
    RelativeOne(c);
    RelativeOne("..");
    SplitWhole(".", '/');
    assert ["."][1..] == [] && [".."][1..] == [] && [c][1..] == [];
    assert c + "" == c && ".." + "" == "..";
    assert !IsAbs(c) by {
      assert c[0] in c;
    }
  }

  lemma IntoAndUp(c: string)
    requires ProperComponent(c)
    ensures Clean(c + "/..") == "."
  {
    RelativeOne(c);
    RelativeComponentsBelow(c, "..");
    assert c + "/" + ".." == c + "/..";
    assert c[0] in c && (c + "/..")[0] == c[0];
  }

  lemma UpTwice()
    ensures Clean("../..") == "../.."
  {
    RelativeOne("..");
    RelativeComponentsBelow("..", "..");
    assert ".." + "/" + ".." == "../..";
    assert [".."] + [".."] == ["..", ".."] && ["..", ".."][1..] == [".."];
    FlatOne("..");
    assert !IsAbs("../..");
  }

  lemma RelativeTextBelow(p: string, c: string)
    requires p != "" && !IsAbs(p) && ProperComponent(c)
    ensures Clean(p) != "." ==> Clean(p + "/" + c) == Clean(p) + "/" + c
    ensures Clean(p) == "." ==> Clean(p + "/" + c) == c
  {
    var at := RelativeComponents(p);
    RelativeComponentsBelow(p, c);
    NoDotComponent([], Split(p, '/'));
    WalkRelativeNamed([], Split(p, '/'));
    FlatOne(c);
    if at == [] {
      assert [] + [c] == [c] && [c][1..] == [];
      assert c + "" == c;
    } else {
      assert (at + [c])[1..] == at[1..] + [c];
      FlatConcat(at[1..], [c]);
      assert at[0] + (Flat(at[1..]) + ("/" + c)) == (at[0] + Flat(at[1..])) + "/" + c;
      DotIsAlone(at);
    }
  }

  predicate NoDot(at: seq<string>) {
    forall i :: 0 <= i < |at| ==> at[i] != "."
  }

  lemma {:induction false} NoDotComponent(at: seq<string>, comps: seq<string>)
    requires NoDot(at)
    ensures NoDot(WalkRelative(at, comps))
    decreases |comps|
  {
    if comps != [] {
      if comps[0] == "" || comps[0] == "." {
        NoDotComponent(at, comps[1..]);
      } else if comps[0] == ".." && at != [] && at[|at| - 1] != ".." {
        NoDotComponent(at[..|at| - 1], comps[1..]);
      } else {
        NoDotComponent(at + [comps[0]], comps[1..]);
      }
    }
  }

  lemma DotIsAlone(at: seq<string>)
    requires at != [] && Named(at) && NoDot(at)
    ensures RelativeText(at) != "."
  {
    var text := RelativeText(at);
    assert text[..|at[0]|] == at[0];
    assert |text| == 1 ==> text[..|at[0]|] == text;
  }

  // ---- allow-lists ----

  /** The string test of every path allow-list: the prefix itself or something below it. */
  predicate Under(prefix: string, clean: string) {
    clean == prefix || HasPrefix(clean, prefix + "/")
  }

  lemma {:induction false} FlatConcat(a: seq<string>, b: seq<string>)
    ensures Flat(a + b) == Flat(a) + Flat(b)
    decreases |a|
  {
    if a == [] {
      assert a + b == b;
    } else {
      assert (a + b)[1..] == a[1..] + b;
      FlatConcat(a[1..], b);
    }
  }

  lemma PrefixOfConcat(p: string, tail: string)
    ensures HasPrefix(p + ("/" + tail), p + "/")
  {
    assert p + ("/" + tail) == (p + "/") + tail;
  }

  lemma ExtensionIsBelow(a: seq<string>, b: seq<string>)
    requires a <= b
    ensures Under(Flat(a), Flat(b))
  {
    var rest := b[|a|..];
    FlatConcat(a, rest);
    assert a + rest == b;
    if rest != [] {
      var tail := rest[0] + Flat(rest[1..]);
      assert Flat(rest) == "/" + tail;
      PrefixOfConcat(Flat(a), tail);
    }
  }

  lemma FlatSplits(a: seq<string>)
    requires Proper(a) && a != []
    ensures Split(Flat(a), '/') == [""] + a
  {
    SplitFlat("", a);
    assert "" + Flat(a) == Flat(a);
  }

  /** Text below a spelled-out component list spells out an extension of that list. */
  lemma BelowExtends(a: seq<string>, b: seq<string>)
    requires Proper(a) && Proper(b) && a != [] && b != []
    requires Under(Flat(a), Flat(b))
    ensures a <= b
  {
    FlatSplits(a);
    FlatSplits(b);
    var more: seq<string> := [];
    if Flat(b) != Flat(a) {
      var y := Flat(b)[|Flat(a)| + 1..];
      assert Flat(b) == Flat(a) + ['/'] + y;
      SplitConcat(Flat(a), y, '/');
      more := Split(y, '/');
    }
    assert [""] + b == [""] + a + more;
    PrefixTail(a, b, more);
  }

  lemma PrefixTail(a: seq<string>, b: seq<string>, more: seq<string>)
    requires [""] + b == [""] + a + more
    ensures b == a + more
  {
    assert b == ([""] + b)[1..];
    assert a + more == ([""] + a + more)[1..];
  }

  /**
   The allow-list test on strings means inclusion of component lists: it accepts exactly the
   paths at or below the prefix.  The one exception is the prefix "/", which accepts only the
   root itself, because "//" starts no cleaned path.
   */
  lemma UnderExactly(prefix: string, path: string)
    requires IsAbs(prefix) && Clean(prefix) == prefix && IsAbs(path)
    ensures prefix != "/" ==> (Under(prefix, Clean(path)) <==> Components(prefix) <= Components(path))
    ensures prefix == "/" ==> (Under(prefix, Clean(path)) <==> Components(path) == [])
  {
    CleanKeepsMeaning(prefix);
    CleanKeepsMeaning(path);
    var a, b := Components(prefix), Components(path);
    if a == [] {
      if b != [] {
        assert ProperComponent(b[0]) && b[0][0] in b[0];
        assert Flat(b)[1] == b[0][0];
      }
    } else if b == [] {
      assert ProperComponent(a[0]);
      assert |prefix| >= 1 + |a[0]|;
    } else {
      assert ProperComponent(a[0]);
      if Under(prefix, Clean(path)) {
        BelowExtends(a, b);
      }
      if a <= b {
        ExtensionIsBelow(a, b);
      }
    }
  }

  /** Whether some cleaned prefix of a system allow-list covers the path. */
  method AllowsFilePath(prefixes: seq<string>, path: string) returns (ok: bool)
    ensures ok <==> path != "" && exists i :: 0 <= i < |prefixes| && Under(prefixes[i], Clean(path))
  {
    if path == "" || |prefixes| == 0 {
      return false;
    }
    var clean := Clean(path);
    for i := 0 to |prefixes|
      invariant forall k :: 0 <= k < i ==> !Under(prefixes[k], clean)
    {
      if Under(prefixes[i], clean) {
        return true;
      }
    }
    ok := false;
  }

  /** A normalised allow-list: absolute, cleaned entries. */
  predicate CleanList(paths: seq<string>) {
    forall i :: 0 <= i < |paths| ==> IsAbs(paths[i]) && Clean(paths[i]) == paths[i]
  }

  predicate AllowsPath(allowedPaths: seq<string>, allowedPrefixes: seq<string>, path: string) {
    path != "" &&
    (Clean(path) in allowedPaths || exists i :: 0 <= i < |allowedPrefixes| && Under(allowedPrefixes[i], Clean(path)))
  }

  /** Component-level meaning of an ssh target's path allow-lists. */
  predicate AllowsComponents(allowedPaths: seq<string>, allowedPrefixes: seq<string>, at: seq<string>) {
    || (exists i :: 0 <= i < |allowedPaths| && Components(allowedPaths[i]) == at)
    || (exists i :: 0 <= i < |allowedPrefixes|
                    && (if allowedPrefixes[i] == "/" then at == [] else Components(allowedPrefixes[i]) <= at))
  }

  /** An absolute path is allowed by what it names, never by how it is spelled; others never are. */
  lemma AllowsPathByMeaning(allowedPaths: seq<string>, allowedPrefixes: seq<string>, path: string)
    requires CleanList(allowedPaths) && CleanList(allowedPrefixes)
    ensures AllowsPath(allowedPaths, allowedPrefixes, path)
            <==> IsAbs(path) && AllowsComponents(allowedPaths, allowedPrefixes, Components(path))
  {
    if IsAbs(path) {
      forall i | 0 <= i < |allowedPaths|
        ensures Clean(path) == allowedPaths[i] <==> Components(allowedPaths[i]) == Components(path)
      {
        CleanIsCanonical(path, allowedPaths[i]);
      }
      forall i | 0 <= i < |allowedPrefixes|
        ensures Under(allowedPrefixes[i], Clean(path))
                <==> (if allowedPrefixes[i] == "/" then Components(path) == []
                      else Components(allowedPrefixes[i]) <= Components(path))
      {
        UnderExactly(allowedPrefixes[i], path);
      }
    } else {
      CleanRelativeStaysRelative(path);
      forall i | 0 <= i < |allowedPrefixes| ensures !Under(allowedPrefixes[i], Clean(path)) {
        assert (allowedPrefixes[i] + "/")[0] == '/';
      }
    }
  }
}
