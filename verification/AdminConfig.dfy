/**
 Root-owned configuration: normalised lists, ssh targets and system commands.  Lists are
 normalised on every load and every save; what that fixes and what keeps drifting is proved.
 */
module AdminConfig {
  import opened Strings
  import Paths

  // ---- sorted lists without duplicates ----

  ghost predicate StrictOrder<T(!new)>(less: (T, T) -> bool) {
    && (forall x :: !less(x, x))
    && (forall x, y :: less(x, y) || less(y, x) || x == y)
    && (forall x, y, z :: less(x, y) && less(y, z) ==> less(x, z))
  }

  predicate Before(a: string, b: string) {
    b != "" && (a == "" || a[0] < b[0] || (a[0] == b[0] && Before(a[1..], b[1..])))
  }

  predicate Below(a: int, b: int) {
    a < b
  }

  lemma {:induction false} BeforeTotal(a: string, b: string)
    ensures !Before(a, a) && (Before(a, b) || Before(b, a) || a == b)
    decreases |a|
  {
    if a != "" {
      BeforeTotal(a[1..], if b == "" then b else b[1..]);
      assert a == [a[0]] + a[1..];
      assert b != "" ==> b == [b[0]] + b[1..];
    }
  }

  lemma {:induction false} BeforeTransitive(a: string, b: string, c: string)
    requires Before(a, b) && Before(b, c)
    ensures Before(a, c)
    decreases |a|
  {
    if a != "" && a[0] == b[0] && b[0] == c[0] {
      BeforeTransitive(a[1..], b[1..], c[1..]);
    }
  }

  lemma TextOrder()
    ensures StrictOrder(Before)
  {
    forall a, b ensures !Before(a, a) && (Before(a, b) || Before(b, a) || a == b) {
      BeforeTotal(a, b);
    }
    forall a, b, c | Before(a, b) && Before(b, c) ensures Before(a, c) {
      BeforeTransitive(a, b, c);
    }
  }

  predicate Increasing<T>(s: seq<T>, less: (T, T) -> bool) {
    forall i, j :: 0 <= i < j < |s| ==> less(s[i], s[j])
  }

  predicate NoRepeats<T(==)>(s: seq<T>) {
    forall i, j :: 0 <= i < j < |s| ==> s[i] != s[j]
  }

  lemma NoRepeatsSnoc<T>(s: seq<T>, x: T)
    requires NoRepeats(s) && x !in s
    ensures NoRepeats(s + [x])
  {
  }

  function Insert<T(==)>(x: T, s: seq<T>, less: (T, T) -> bool): seq<T> {
    if s == [] || less(x, s[0]) then [x] + s else [s[0]] + Insert(x, s[1..], less)
  }

  function Sort<T(==)>(s: seq<T>, less: (T, T) -> bool): seq<T> {
    if s == [] then [] else Insert(s[0], Sort(s[1..], less), less)
  }

  lemma {:induction false} InsertSorted<T(!new)>(x: T, s: seq<T>, less: (T, T) -> bool)
    requires StrictOrder(less) && Increasing(s, less) && x !in s
    ensures Increasing(Insert(x, s, less), less)
    ensures forall v :: v in Insert(x, s, less) <==> v == x || v in s
    decreases |s|
  {
    if s != [] {
      assert s == [s[0]] + s[1..];
      if less(x, s[0]) {
        assert forall j :: 0 <= j < |s| ==> less(x, s[j]);
      } else {
        InsertSorted(x, s[1..], less);
        var rest := Insert(x, s[1..], less);
        forall j | 0 <= j < |rest| ensures less(s[0], rest[j]) {
          assert rest[j] in rest;
        }
      }
    }
  }

  lemma {:induction false} SortSorts<T(!new)>(s: seq<T>, less: (T, T) -> bool)
    requires StrictOrder(less) && NoRepeats(s)
    ensures Increasing(Sort(s, less), less)
    ensures forall v :: v in Sort(s, less) <==> v in s
    decreases |s|
  {
    if s != [] {
      assert s == [s[0]] + s[1..];
      forall v | v in s[1..] ensures v != s[0] {
        var i :| 0 <= i < |s[1..]| && s[1..][i] == v;
        assert s[i + 1] == v;
      }
      SortSorts(s[1..], less);
      InsertSorted(s[0], Sort(s[1..], less), less);
    }
  }

  lemma HeadIsLeast<T(!new)>(s: seq<T>, less: (T, T) -> bool)
    requires StrictOrder(less) && Increasing(s, less) && s != []
    ensures forall v :: v in s[1..] <==> v in s && v != s[0]
  {
    assert s == [s[0]] + s[1..];
    forall v | v in s[1..] ensures v != s[0] {
      var i :| 0 <= i < |s[1..]| && s[1..][i] == v;
      assert less(s[0], s[i + 1]);
    }
  }

  lemma EmptyOrHolds<T(!new)>(s: seq<T>)
    ensures s == [] || exists v :: v in s
  {
    if s != [] {
      assert s[0] in s;
    }
  }

  /** A sorted list without duplicates is determined by what it holds. */
  lemma {:induction false} SortedFormUnique<T(!new)>(a: seq<T>, b: seq<T>, less: (T, T) -> bool)
    requires StrictOrder(less) && Increasing(a, less) && Increasing(b, less)
    requires forall v :: v in a <==> v in b
    ensures a == b
    decreases |a|
  {
    EmptyOrHolds(a);
    EmptyOrHolds(b);
    if a != [] {
      assert a[0] in b;
      assert b[0] in a;
      assert a[0] == b[0];
      HeadIsLeast(a, less);
      HeadIsLeast(b, less);
      SortedFormUnique(a[1..], b[1..], less);
      assert a == [a[0]] + a[1..] && b == [b[0]] + b[1..];
    }
  }

  // ---- list normalisation ----

  /** What normalisation does to one entry; blank entries are dropped. */
  datatype Form = Plain | Upper | Path

  function UpperText(s: string): string {
    seq(|s|, i requires 0 <= i < |s| => if 'a' <= s[i] <= 'z' then s[i] - 'a' + 'A' else s[i])
  }

  function Shape(form: Form, v: string): string {
    var t := TrimSpace(v);
    match form
    case Plain => t
    case Upper => UpperText(t)
    case Path => if t == "" then "" else Paths.Clean(t)
  }

  /** The value is the shape of some entry, and not blank. */
  predicate Yields(values: seq<string>, form: Form, v: string) {
    v != "" && exists i :: 0 <= i < |values| && Shape(form, values[i]) == v
  }

  lemma YieldsSnoc(values: seq<string>, last: string, form: Form, v: string)
    ensures Yields(values + [last], form, v) <==> Yields(values, form, v) || (v != "" && v == Shape(form, last))
  {
    var all := values + [last];
    if Yields(all, form, v) {
      var i :| 0 <= i < |all| && Shape(form, all[i]) == v;
      assert i < |values| ==> all[i] == values[i];
    }
    if Yields(values, form, v) {
      var i :| 0 <= i < |values| && Shape(form, values[i]) == v;
      assert all[i] == values[i];
    }
    assert all[|values|] == last;
  }

  /** The shaped entries, each once, in order of first appearance. */
  function Distinct(values: seq<string>, form: Form): seq<string>
    decreases |values|
  {
    if values == [] then []
    else
      var d := Distinct(values[..|values| - 1], form);
      var v := Shape(form, values[|values| - 1]);
      if v == "" || v in d then d else d + [v]
  }

  function Normalize(values: seq<string>, form: Form): seq<string> {
    Sort(Distinct(values, form), Before)
  }

  /** Collects the shaped entries, each once, remembering which ones were seen. */
  method CollectDistinct(values: seq<string>, form: Form) returns (normalized: seq<string>)
    ensures normalized == Distinct(values, form)
  {
    var seen: set<string> := {};
    normalized := [];
    for i := 0 to |values|
      invariant normalized == Distinct(values[..i], form) && forall v :: v in seen <==> v in normalized
    {
      assert values[..i + 1][..i] == values[..i];
      var value := Shape(form, values[i]);
      if value != "" && value !in seen {
        seen := seen + {value};
        normalized := normalized + [value];
      }
    }
    assert values[..|values|] == values;
  }

  method NormalizeList(values: seq<string>, form: Form) returns (normalized: seq<string>)
    ensures normalized == Normalize(values, form)
    ensures Increasing(normalized, Before)
    ensures forall v :: v in normalized <==> Yields(values, form, v)
  {
    normalized := CollectDistinct(values, form);
    normalized := Sort(normalized, Before);
    NormalizeMeans(values, form);
  }

  lemma {:induction false} DistinctMeans(values: seq<string>, form: Form)
    ensures NoRepeats(Distinct(values, form))
    ensures forall v :: v in Distinct(values, form) <==> Yields(values, form, v)
    decreases |values|
  {
    if values != [] {
      var n := |values| - 1;
      var before, last := Distinct(values[..n], form), Shape(form, values[n]);
      DistinctMeans(values[..n], form);
      assert values[..n] + [values[n]] == values;
      forall v ensures v in Distinct(values, form) <==> Yields(values, form, v) {
        YieldsSnoc(values[..n], values[n], form, v);
      }
      if last !in before {
        NoRepeatsSnoc(before, last);
      }
    }
  }

  lemma NormalizeMeans(values: seq<string>, form: Form)
    ensures Increasing(Normalize(values, form), Before)
    ensures forall v :: v in Normalize(values, form)
                        <==> Yields(values, form, v)
  {
    TextOrder();
    DistinctMeans(values, form);
    SortSorts(Distinct(values, form), Before);
  }

  /** Text order: the first difference decides, and a beginning of a text stands before it. */
  lemma {:induction false} BeforeExactly(a: string, b: string)
    ensures Before(a, b)
            <==> exists k :: 0 <= k <= |a| && k < |b| && a[..k] == b[..k] && (k == |a| || a[k] < b[k])
    decreases |a|
  {
    if a == "" || b == "" {
      assert b != "" ==> a[..0] == b[..0];
    } else if a[0] == b[0] {
      BeforeExactly(a[1..], b[1..]);
      if k :| 0 <= k <= |a[1..]| && k < |b[1..]| && a[1..][..k] == b[1..][..k] && (k == |a[1..]| || a[1..][k] < b[1..][k]) {
        assert a[..k + 1] == [a[0]] + a[1..][..k] && b[..k + 1] == [b[0]] + b[1..][..k];
        assert a[..k + 1] == b[..k + 1];
      }
      if k :| 0 <= k <= |a| && k < |b| && a[..k] == b[..k] && (k == |a| || a[k] < b[k]) {
        assert k > 0;
        assert a[1..][..k - 1] == a[..k][1..] && b[1..][..k - 1] == b[..k][1..];
        assert a[1..][..k - 1] == b[1..][..k - 1];
      }
    } else {
      assert a[..0] == b[..0];
      forall k | 0 < k <= |a| && k < |b| ensures a[..k] != b[..k] {
        assert a[..k][0] != b[..k][0];
      }
    }
  }

  predicate UpperOf(s: string, up: string) {
    && |up| == |s|
    && forall i :: 0 <= i < |s| ==> if 'a' <= s[i] <= 'z' then up[i] as int == s[i] as int - 32 else up[i] == s[i]
  }

  lemma UpperExactly(s: string, up: string)
    ensures UpperText(s) == up <==> UpperOf(s, up)
  {
    if UpperOf(s, up) {
      assert forall i :: 0 <= i < |s| ==> UpperText(s)[i] == up[i];
    }
  }

  /** What a normalised list holds, form by form: every entry trimmed, and then kept, put in upper case or cleaned. */
  lemma NormalizedExactly(values: seq<string>, v: string)
    ensures v in Normalize(values, Plain) <==> v != "" && exists x :: x in values && TrimSpace(x) == v
    ensures v in Normalize(values, Upper) <==> v != "" && exists x :: x in values && UpperOf(TrimSpace(x), v)
    ensures v in Normalize(values, Path)
            <==> v != "" && exists x :: x in values && TrimSpace(x) != "" && Paths.Clean(TrimSpace(x)) == v
  {
    NormalizeMeans(values, Plain);
    NormalizeMeans(values, Upper);
    NormalizeMeans(values, Path);
    forall x ensures UpperText(TrimSpace(x)) == v <==> UpperOf(TrimSpace(x), v) {
      UpperExactly(TrimSpace(x), v);
    }
    YieldsExactly(values, Plain, v);
    YieldsExactly(values, Upper, v);
    YieldsExactly(values, Path, v);
  }

  lemma YieldsExactly(values: seq<string>, form: Form, v: string)
    ensures Yields(values, form, v) <==> v != "" && exists x :: x in values && Shape(form, x) == v
  {
    if x :| x in values && Shape(form, x) == v {
      var i :| 0 <= i < |values| && values[i] == x;
      assert Shape(form, values[i]) == v;
    }
  }

  /** Entries that normalisation leaves alone. */
  predicate Settled(form: Form, v: string) {
    Shape(form, v) == v
  }

  predicate SettledList(values: seq<string>, form: Form) {
    forall i :: 0 <= i < |values| ==> Settled(form, values[i])
  }

  /** Once all its entries are settled, a normalised list is a fixed point. */
  lemma NormalizeTwice(values: seq<string>, form: Form)
    requires SettledList(Normalize(values, form), form)
    ensures Normalize(Normalize(values, form), form) == Normalize(values, form)
  {
    var once := Normalize(values, form);
    NormalizeMeans(values, form);
    NormalizeMeans(once, form);
    var twice := Normalize(once, form);
    forall v ensures v in twice <==> v in once {
      if v in once {
        var i :| 0 <= i < |once| && once[i] == v;
        assert Shape(form, once[i]) == v;
      }
    }
    TextOrder();
    SortedFormUnique(twice, once, Before);
  }

  lemma UpperKeepsEnds(s: string)
    requires TrimSpace(s) == s
    ensures TrimSpace(UpperText(s)) == UpperText(s) && UpperText(UpperText(s)) == UpperText(s)
  {
    var u := UpperText(s);
    TrimSpaceTwice(s);
    assert u != "" ==> !IsSpace(u[0]) && !IsSpace(u[|u| - 1]);
  }

  /** Trimmed and upper-cased entries settle at once. */
  lemma PlainAndUpperSettle(v: string)
    ensures Settled(Plain, Shape(Plain, v)) && Settled(Upper, Shape(Upper, v))
  {
    TrimSpaceTwice(v);
    UpperKeepsEnds(TrimSpace(v));
  }

  /**
   A path entry settles at once exactly when its cleaned form does not end in white space:
   cleaning can uncover white space (a last component followed by a slash) that the next
   normalisation trims away.
   */
  lemma PathSettlesExactly(v: string)
    requires Paths.IsAbs(TrimSpace(v))
    ensures var c := Paths.Clean(TrimSpace(v));
            c != "" && (Settled(Path, Shape(Path, v)) <==> !IsSpace(c[|c| - 1]))
  {
    var c := Paths.Clean(TrimSpace(v));
    Paths.CleanKeepsMeaning(TrimSpace(v));
    assert TrimLeft(c) == c;
    TrimSpaceTwice(c);
    TrimRightEnd(c);
    if IsSpace(c[|c| - 1]) {
      var t := TrimSpace(c);
      TrimRightKeepsHead(c);
      CleanShrinks(t);
      TrimRightEnd(c[..|c| - 1]);
      assert |t| < |c|;
    }
  }

  lemma {:induction false} TrimRightKeepsHead(s: string)
    requires s != "" && !IsSpace(s[0])
    ensures TrimRight(s) != "" && TrimRight(s)[0] == s[0]
    decreases |s|
  {
    if IsSpace(s[|s| - 1]) {
      TrimRightKeepsHead(s[..|s| - 1]);
    }
  }

  lemma {:induction false} WalkShrinks(at: seq<string>, comps: seq<string>)
    ensures |Paths.Flat(Paths.Walk(at, comps))| <= |Paths.Flat(at)| + |Paths.Flat(comps)|
    decreases |comps|
  {
    if comps != [] {
      if comps[0] == "" || comps[0] == "." {
        WalkShrinks(at, comps[1..]);
      } else if comps[0] == ".." {
        if at != [] {
          var n := |at| - 1;
          Paths.FlatConcat(at[..n], at[n..]);
          assert at[..n] + at[n..] == at;
          WalkShrinks(at[..n], comps[1..]);
        } else {
          WalkShrinks([], comps[1..]);
        }
      } else {
        Paths.FlatConcat(at, [comps[0]]);
        assert Paths.Flat([comps[0]]) == "/" + comps[0] + Paths.Flat([]);
        WalkShrinks(at + [comps[0]], comps[1..]);
      }
    }
  }

  lemma {:induction false} SplitLength(s: string, sep: char)
    ensures |Paths.Flat(Split(s, sep))| == |s| + 1
    decreases |s|
  {
    if s == "" {
      assert Paths.Flat([""]) == "/" + "" + Paths.Flat([]);
    } else {
      SplitLength(s[1..], sep);
      var rest := Split(s[1..], sep);
      var all := Split(s, sep);
      if s[0] == sep {
        assert all[1..] == rest;
      } else {
        assert all[1..] == rest[1..];
      }
    }
  }

  /** Cleaning never lengthens an absolute path. */
  lemma CleanShrinks(path: string)
    requires Paths.IsAbs(path)
    ensures |Paths.Clean(path)| <= |path|
  {
    var comps := Split(path, '/');
    var rest := comps[1..];
    assert path[1..] == path[1..];
    assert comps == [""] + Split(path[1..], '/');
    assert rest == Split(path[1..], '/');
    SplitLength(path[1..], '/');
    WalkShrinks([], rest);
    assert Paths.Components(path) == Paths.Walk([], rest);
  }

  // ---- path lists drift under repeated normalisation ----

  /** The list after `n` further normalisations; every save and every load is one. */
  function Renormalized(values: seq<string>, n: nat): seq<string>
    decreases n
  {
    if n == 0 then values else Renormalized(Normalize(values, Path), n - 1)
  }

  function TotalLength(values: seq<string>): nat
    decreases |values|
  {
    if values == [] then 0 else TotalLength(values[..|values| - 1]) + |values[|values| - 1]|
  }

  lemma {:induction false} TotalLengthCons(x: string, values: seq<string>)
    ensures TotalLength([x] + values) == |x| + TotalLength(values)
    decreases |values|
  {
    var n := |values| - 1;
    if values == [] {
      assert [x] + values == [x] && [x][..0] == [];
    } else {
      assert ([x] + values)[..n + 1] == [x] + values[..n];
      TotalLengthCons(x, values[..n]);
    }
  }

  lemma {:induction false} InsertLength(x: string, s: seq<string>)
    ensures TotalLength(Insert(x, s, Before)) == |x| + TotalLength(s)
    decreases |s|
  {
    TotalLengthCons(x, s);
    if s != [] && !Before(x, s[0]) {
      InsertLength(x, s[1..]);
      TotalLengthCons(s[0], s[1..]);
      TotalLengthCons(s[0], Insert(x, s[1..], Before));
      assert s == [s[0]] + s[1..];
    }
  }

  lemma {:induction false} SortLength(s: seq<string>)
    ensures TotalLength(Sort(s, Before)) == TotalLength(s)
    decreases |s|
  {
    if s != [] {
      SortLength(s[1..]);
      InsertLength(s[0], Sort(s[1..], Before));
      TotalLengthCons(s[0], s[1..]);
      assert s == [s[0]] + s[1..];
    }
  }

  /** A cleaned absolute path is either settled or gets shorter. */
  lemma ShapeShrinks(c: string)
    requires Paths.IsAbs(c) && Paths.Clean(c) == c
    ensures var v := Shape(Path, c);
            && Paths.IsAbs(v) && Paths.Clean(v) == v
            && (Settled(Path, c) || |v| < |c|)
  {
    assert TrimLeft(c) == c;
    TrimRightEnd(c);
    TrimRightKeepsHead(c);
    var t := TrimSpace(c);
    Paths.CleanKeepsMeaning(t);
    CleanShrinks(t);
  }

  /** The entries that are not blank, each once, in order of first appearance. */
  function Dedupe(xs: seq<string>): seq<string>
    decreases |xs|
  {
    if xs == [] then []
    else
      var d, v := Dedupe(xs[..|xs| - 1]), xs[|xs| - 1];
      if v == "" || v in d then d else d + [v]
  }

  lemma {:induction false} DistinctIsDedupe(values: seq<string>, form: Form, xs: seq<string>)
    requires |xs| == |values| && forall i :: 0 <= i < |xs| ==> xs[i] == Shape(form, values[i])
    ensures Distinct(values, form) == Dedupe(xs)
    decreases |values|
  {
    if values != [] {
      DistinctIsDedupe(values[..|values| - 1], form, xs[..|xs| - 1]);
    }
  }

  lemma {:induction false} DedupeLength(xs: seq<string>)
    ensures TotalLength(Dedupe(xs)) <= TotalLength(xs)
    decreases |xs|
  {
    if xs != [] {
      DedupeLength(xs[..|xs| - 1]);
      OneMoreLength(Dedupe(xs[..|xs| - 1]), xs[|xs| - 1]);
    }
  }

  lemma {:induction false} ShorterLength(xs: seq<string>, values: seq<string>)
    requires |xs| == |values| && forall i :: 0 <= i < |xs| ==> |xs[i]| <= |values[i]|
    ensures TotalLength(xs) <= TotalLength(values)
    ensures (exists i :: 0 <= i < |xs| && |xs[i]| < |values[i]|) ==> TotalLength(xs) < TotalLength(values)
    decreases |xs|
  {
    if xs != [] {
      var n := |xs| - 1;
      ShorterLength(xs[..n], values[..n]);
      if i :| 0 <= i < |xs| && |xs[i]| < |values[i]| {
        if i < n {
          assert |xs[..n][i]| < |values[..n][i]|;
        }
      }
    }
  }

  lemma DistinctLength(values: seq<string>)
    requires Paths.CleanList(values)
    ensures TotalLength(Distinct(values, Path)) <= TotalLength(values)
    ensures !SettledList(values, Path) ==> TotalLength(Distinct(values, Path)) < TotalLength(values)
  {
    var xs := seq(|values|, i requires 0 <= i < |values| => Shape(Path, values[i]));
    forall i | 0 <= i < |values| ensures |xs[i]| <= |values[i]| && (!Settled(Path, values[i]) ==> |xs[i]| < |values[i]|) {
      ShapeShrinks(values[i]);
    }
    DistinctIsDedupe(values, Path, xs);
    DedupeLength(xs);
    ShorterLength(xs, values);
  }

  lemma OneMoreLength(d: seq<string>, v: string)
    ensures TotalLength(d + [v]) == TotalLength(d) + |v|
  {
    assert (d + [v])[..|d|] == d;
  }

  lemma NormalizeShrinks(values: seq<string>)
    requires Paths.CleanList(values)
    ensures Paths.CleanList(Normalize(values, Path))
    ensures TotalLength(Normalize(values, Path)) <= TotalLength(values)
    ensures !SettledList(values, Path) ==> TotalLength(Normalize(values, Path)) < TotalLength(values)
  {
    DistinctLength(values);
    SortLength(Distinct(values, Path));
    NormalizeMeans(values, Path);
    var once := Normalize(values, Path);
    forall i | 0 <= i < |once| ensures Paths.IsAbs(once[i]) && Paths.Clean(once[i]) == once[i] {
      assert once[i] in once;
      var j :| 0 <= j < |values| && Shape(Path, values[j]) == once[i];
      ShapeShrinks(values[j]);
    }
  }

  lemma {:induction false} RenormalizedShrinks(values: seq<string>, n: nat)
    requires Paths.CleanList(values)
    ensures TotalLength(Renormalized(values, n)) <= TotalLength(values)
    decreases n
  {
    if n > 0 {
      NormalizeShrinks(values);
      RenormalizedShrinks(Normalize(values, Path), n - 1);
    }
  }

  lemma {:induction false} RenormalizedSettled(values: seq<string>, n: nat)
    requires Normalize(values, Path) == values
    ensures Renormalized(values, n) == values
    decreases n
  {
    if n > 0 {
      RenormalizedSettled(values, n - 1);
    }
  }

  /** The entry, once trimmed and cleaned, does not end in white space. */
  predicate EndsClean(v: string) {
    var t := TrimSpace(v);
    t != "" ==> var c := Paths.Clean(t); c != "" && !IsSpace(c[|c| - 1])
  }

  /**
   A normalised list of absolute paths survives later saves and loads, however many, exactly
   when no entry's cleaned form ends in white space.
   */
  lemma PathListStaysExactly(values: seq<string>, n: nat)
    requires n > 0
    requires forall i :: 0 <= i < |values| && TrimSpace(values[i]) != "" ==> Paths.IsAbs(TrimSpace(values[i]))
    ensures Renormalized(Normalize(values, Path), n) == Normalize(values, Path)
            <==> forall i :: 0 <= i < |values| ==> EndsClean(values[i])
  {
    var once := Normalize(values, Path);
    NormalizedIsClean(values);
    NormalizedSettlesExactly(values);
    if SettledList(once, Path) {
      NormalizeTwice(values, Path);
    }
    CleanListStaysExactly(once, n);
  }

  lemma CleanListStaysExactly(once: seq<string>, n: nat)
    requires n > 0 && Paths.CleanList(once) && (SettledList(once, Path) ==> Normalize(once, Path) == once)
    ensures Renormalized(once, n) == once <==> SettledList(once, Path)
  {
    if SettledList(once, Path) {
      RenormalizedSettled(once, n);
    } else {
      NormalizeShrinks(once);
      RenormalizedUnfolds(once, Normalize(once, Path), n);
      ShorterStaysShorter(once, Normalize(once, Path), n);
    }
  }

  lemma ShorterStaysShorter(once: seq<string>, next: seq<string>, n: nat)
    requires n > 0 && Paths.CleanList(next) && TotalLength(next) < TotalLength(once)
    requires Renormalized(once, n) == Renormalized(next, n - 1)
    ensures TotalLength(Renormalized(once, n)) < TotalLength(once)
  {
    RenormalizedShrinks(next, n - 1);
  }

  lemma RenormalizedUnfolds(values: seq<string>, next: seq<string>, n: nat)
    requires n > 0 && next == Normalize(values, Path)
    ensures Renormalized(values, n) == Renormalized(next, n - 1)
  {
  }

  lemma NormalizedSettlesExactly(values: seq<string>)
    requires forall i :: 0 <= i < |values| && TrimSpace(values[i]) != "" ==> Paths.IsAbs(TrimSpace(values[i]))
    ensures SettledList(Normalize(values, Path), Path) <==> forall i :: 0 <= i < |values| ==> EndsClean(values[i])
  {
    var once := Normalize(values, Path);
    NormalizeMeans(values, Path);
    forall i | 0 <= i < |values| ensures EndsClean(values[i]) <==> EntrySettles(values[i]) {
      EntrySettlesExactly(values[i]);
    }
    if SettledList(once, Path) {
      forall i | 0 <= i < |values| ensures EntrySettles(values[i]) {
        if Shape(Path, values[i]) != "" {
          assert Yields(values, Path, Shape(Path, values[i]));
          var k :| 0 <= k < |once| && once[k] == Shape(Path, values[i]);
        }
      }
    } else {
      var k :| 0 <= k < |once| && !Settled(Path, once[k]);
      assert once[k] in once;
      var i :| 0 <= i < |values| && Shape(Path, values[i]) == once[k];
      assert !EntrySettles(values[i]);
    }
  }

  predicate EntrySettles(v: string) {
    Shape(Path, v) != "" ==> Settled(Path, Shape(Path, v))
  }

  lemma EntrySettlesExactly(v: string)
    requires TrimSpace(v) != "" ==> Paths.IsAbs(TrimSpace(v))
    ensures EntrySettles(v) <==> EndsClean(v)
  {
    if TrimSpace(v) != "" {
      PathSettlesExactly(v);
    }
  }

  lemma NormalizedIsClean(values: seq<string>)
    requires forall i :: 0 <= i < |values| && TrimSpace(values[i]) != "" ==> Paths.IsAbs(TrimSpace(values[i]))
    ensures Paths.CleanList(Normalize(values, Path))
  {
    var once := Normalize(values, Path);
    NormalizeMeans(values, Path);
    forall k | 0 <= k < |once| ensures Paths.IsAbs(once[k]) && Paths.Clean(once[k]) == once[k] {
      assert once[k] in once;
      var i :| 0 <= i < |values| && Shape(Path, values[i]) == once[k];
      Paths.CleanKeepsMeaning(TrimSpace(values[i]));
    }
  }

  // ---- ssh targets ----

  datatype Settings = Settings(host: string, user: string, port: int, identityFile: string, proxyJump: string,
                               criticality: string, services: seq<string>, paths: seq<string>,
                               prefixes: seq<string>, uploadSources: seq<string>)

  datatype Target = Target(alias: string, settings: Settings)

  /** A targets file: aliases are unique and the list is sorted by them. */
  type Targets = map<string, Settings>

  function NormalizeSettings(s: Settings): Settings {
    Settings(TrimSpace(s.host), TrimSpace(s.user), s.port, TrimSpace(s.identityFile), TrimSpace(s.proxyJump),
             TrimSpace(s.criticality), Normalize(s.services, Plain), Normalize(s.paths, Path),
             Normalize(s.prefixes, Path), Normalize(s.uploadSources, Path))
  }

  function NormalizeAll(m: Targets): Targets {
    map k | k in m :: NormalizeSettings(m[k])
  }

  predicate AllAbsolute(paths: seq<string>) {
    forall i :: 0 <= i < |paths| ==> Paths.IsAbs(paths[i])
  }

  predicate ValidSettings(s: Settings) {
    && TrimSpace(s.host) != "" && TrimSpace(s.user) != ""
    && 0 <= s.port <= 65535
    && (forall i :: 0 <= i < |s.services| ==> TrimSpace(s.services[i]) != "")
    && AllAbsolute(s.paths) && AllAbsolute(s.prefixes) && AllAbsolute(s.uploadSources)
    && s.criticality in {"", "prod", "staging", "lab"}
  }

  predicate ValidTargets(m: Targets) {
    forall k :: k in m ==> TrimSpace(k) != "" && ValidSettings(m[k])
  }

  lemma AbsoluteStays(values: seq<string>)
    requires AllAbsolute(values)
    ensures AllAbsolute(Normalize(values, Path))
  {
    var once := Normalize(values, Path);
    NormalizeMeans(values, Path);
    forall i | 0 <= i < |once| ensures Paths.IsAbs(once[i]) {
      assert once[i] in once;
      var j :| 0 <= j < |values| && Shape(Path, values[j]) == once[i];
      TrimAbsolute(values[j]);
      Paths.CleanKeepsMeaning(TrimSpace(values[j]));
    }
  }

  lemma TrimAbsolute(v: string)
    requires Paths.IsAbs(v)
    ensures Paths.IsAbs(TrimSpace(v))
  {
    TrimRightKeepsHead(v);
  }

  lemma ServicesStay(services: seq<string>)
    ensures forall i :: 0 <= i < |Normalize(services, Plain)| ==> TrimSpace(Normalize(services, Plain)[i]) != ""
  {
    var once := Normalize(services, Plain);
    NormalizeMeans(services, Plain);
    forall i | 0 <= i < |once| ensures TrimSpace(once[i]) != "" {
      assert once[i] in once;
      var j :| 0 <= j < |services| && Shape(Plain, services[j]) == once[i];
      TrimSpaceTwice(services[j]);
    }
  }

  lemma CriticalityStays(c: string)
    requires c in {"", "prod", "staging", "lab"}
    ensures TrimSpace(c) == c
  {
    TrimSpaceMiddle("", c, "");
    assert "" + c + "" == c;
  }

  /** Normalising valid settings keeps them valid. */
  lemma ValidStays(s: Settings)
    requires ValidSettings(s)
    ensures ValidSettings(NormalizeSettings(s))
  {
    TrimSpaceTwice(s.host);
    TrimSpaceTwice(s.user);
    CriticalityStays(s.criticality);
    ServicesStay(s.services);
    AbsoluteStays(s.paths);
    AbsoluteStays(s.prefixes);
    AbsoluteStays(s.uploadSources);
  }

  /** Settings another normalisation would leave alone. */
  predicate SettledSettings(s: Settings) {
    NormalizeSettings(s) == s
  }

  predicate SettledTargets(m: Targets) {
    forall k :: k in m ==> SettledSettings(m[k])
  }

  /** Proposed settings are stored as reviewed when none of their paths uncovers white space. */
  lemma SettingsSettle(s: Settings)
    requires SettledList(Normalize(s.paths, Path), Path) && SettledList(Normalize(s.prefixes, Path), Path)
    requires SettledList(Normalize(s.uploadSources, Path), Path)
    ensures SettledSettings(NormalizeSettings(s))
  {
    TrimSpaceTwice(s.host);
    TrimSpaceTwice(s.user);
    TrimSpaceTwice(s.identityFile);
    TrimSpaceTwice(s.proxyJump);
    TrimSpaceTwice(s.criticality);
    NormalizeMeans(s.services, Plain);
    forall i | 0 <= i < |Normalize(s.services, Plain)| ensures Settled(Plain, Normalize(s.services, Plain)[i]) {
      var v := Normalize(s.services, Plain)[i];
      assert v in Normalize(s.services, Plain);
      var j :| 0 <= j < |s.services| && Shape(Plain, s.services[j]) == v;
      PlainAndUpperSettle(s.services[j]);
    }
    NormalizeTwice(s.services, Plain);
    NormalizeTwice(s.paths, Path);
    NormalizeTwice(s.prefixes, Path);
    NormalizeTwice(s.uploadSources, Path);
  }

  // ---- settings under repeated normalisation ----

  predicate CleanSettings(s: Settings) {
    Paths.CleanList(s.paths) && Paths.CleanList(s.prefixes) && Paths.CleanList(s.uploadSources)
  }

  function Weight(s: Settings): nat {
    TotalLength(s.paths) + TotalLength(s.prefixes) + TotalLength(s.uploadSources)
  }

  /** Entries whose shape is absolute were absolute to begin with. */
  lemma AbsoluteEntries(values: seq<string>)
    requires AllAbsolute(Normalize(values, Path))
    ensures forall i :: 0 <= i < |values| && TrimSpace(values[i]) != "" ==> Paths.IsAbs(TrimSpace(values[i]))
  {
    NormalizeMeans(values, Path);
    var once := Normalize(values, Path);
    forall i | 0 <= i < |values| && TrimSpace(values[i]) != "" ensures Paths.IsAbs(TrimSpace(values[i])) {
      var t := TrimSpace(values[i]);
      if !Paths.IsAbs(t) {
        Paths.CleanRelativeStaysRelative(t);
        RelativeIsNotBlank(t);
        assert Yields(values, Path, Paths.Clean(t));
      }
    }
  }

  /** Each entry that is not blank is an absolute path. */
  predicate EntriesAbsolute(values: seq<string>) {
    forall x :: x in values && TrimSpace(x) != "" ==> TrimSpace(x)[0] == '/'
  }

  lemma EntriesAbsoluteExactly(values: seq<string>)
    ensures AllAbsolute(Normalize(values, Path)) <==> EntriesAbsolute(values)
  {
    if AllAbsolute(Normalize(values, Path)) {
      AbsoluteEntries(values);
    }
    if EntriesAbsolute(values) {
      var once := Normalize(values, Path);
      NormalizeMeans(values, Path);
      forall i | 0 <= i < |once| ensures Paths.IsAbs(once[i]) {
        assert once[i] in once;
        var j :| 0 <= j < |values| && Shape(Path, values[j]) == once[i];
        assert values[j] in values;
        Paths.CleanKeepsMeaning(TrimSpace(values[j]));
      }
    }
  }

  /** Which proposed settings are valid once normalised, told from the settings as proposed. */
  lemma ProposedValidExactly(s: Settings)
    ensures ValidSettings(NormalizeSettings(s))
            <==> && TrimSpace(s.host) != "" && TrimSpace(s.user) != "" && 0 <= s.port && s.port < 65536
                 && TrimSpace(s.criticality) in ["", "prod", "staging", "lab"]
                 && EntriesAbsolute(s.paths) && EntriesAbsolute(s.prefixes) && EntriesAbsolute(s.uploadSources)
  {
    TrimSpaceTwice(s.host);
    TrimSpaceTwice(s.user);
    ServicesStay(s.services);
    EntriesAbsoluteExactly(s.paths);
    EntriesAbsoluteExactly(s.prefixes);
    EntriesAbsoluteExactly(s.uploadSources);
  }

  lemma RelativeIsNotBlank(t: string)
    requires t != "" && !Paths.IsAbs(t)
    ensures Paths.Clean(t) != ""
  {
    Paths.WalkRelativeNamed([], Split(t, '/'));
    var at := Paths.WalkRelative([], Split(t, '/'));
    if at != [] {
      assert at[0] != "";
    }
  }

  lemma NormalizedSettingsClean(s: Settings)
    requires ValidSettings(NormalizeSettings(s))
    ensures CleanSettings(NormalizeSettings(s))
  {
    AbsoluteEntries(s.paths);
    NormalizedIsClean(s.paths);
    AbsoluteEntries(s.prefixes);
    NormalizedIsClean(s.prefixes);
    AbsoluteEntries(s.uploadSources);
    NormalizedIsClean(s.uploadSources);
  }

  lemma SettingsShrink(s: Settings)
    requires CleanSettings(s)
    ensures CleanSettings(NormalizeSettings(s)) && Weight(NormalizeSettings(s)) <= Weight(s)
    ensures !(SettledList(s.paths, Path) && SettledList(s.prefixes, Path) && SettledList(s.uploadSources, Path)) ==>
              Weight(NormalizeSettings(s)) < Weight(s)
  {
    NormalizeShrinks(s.paths);
    NormalizeShrinks(s.prefixes);
    NormalizeShrinks(s.uploadSources);
  }

  /** No path entry's cleaned form ends in white space. */
  predicate PathsEndClean(s: Settings) {
    && (forall i :: 0 <= i < |s.paths| ==> EndsClean(s.paths[i]))
    && (forall i :: 0 <= i < |s.prefixes| ==> EndsClean(s.prefixes[i]))
    && (forall i :: 0 <= i < |s.uploadSources| ==> EndsClean(s.uploadSources[i]))
  }

  lemma UnsettledListsShrink(s: Settings)
    requires CleanSettings(NormalizeSettings(s)) && !SettledSettings(NormalizeSettings(s))
    ensures Weight(NormalizeSettings(NormalizeSettings(s))) < Weight(NormalizeSettings(s))
  {
    var once := NormalizeSettings(s);
    if SettledList(once.paths, Path) && SettledList(once.prefixes, Path) && SettledList(once.uploadSources, Path) {
      SettingsSettle(s);
    }
    SettingsShrink(once);
  }

  /** Valid settings are stored as normalised once exactly when no path entry's cleaned form ends in white space. */
  lemma SettingsSettleExactly(s: Settings)
    requires ValidSettings(NormalizeSettings(s))
    ensures SettledSettings(NormalizeSettings(s)) <==> PathsEndClean(s)
  {
    var once := NormalizeSettings(s);
    NormalizedSettingsClean(s);
    AbsoluteEntries(s.paths);
    NormalizedSettlesExactly(s.paths);
    AbsoluteEntries(s.prefixes);
    NormalizedSettlesExactly(s.prefixes);
    AbsoluteEntries(s.uploadSources);
    NormalizedSettlesExactly(s.uploadSources);
    if SettledList(once.paths, Path) && SettledList(once.prefixes, Path) && SettledList(once.uploadSources, Path) {
      SettingsSettle(s);
    } else {
      SettingsShrink(once);
    }
  }

  lemma SettledStay(m: Targets)
    requires SettledTargets(m)
    ensures NormalizeAll(m) == m
  {
  }

  // ---- system commands ----

  datatype ListName =
    | PackagesAllowed | PackagesBlocked | ServicesAllowed | Signals | ProcessNames | ChmodPrefixes | ChownPrefixes
    | SourcePrefixes | InstallDirs | AppNames | AppTeamIds | PkgPrefixes | PkgTeamIds | ProjectPrefixes

  datatype Flag = AllowLaunchctl | AllowKillByPid | RequireRootOwnedSource | RequireRootOwnedPkg

  datatype Manager = Manager(sudo: bool, binary: string)

  /** Lists and flags left out of a file are empty and false. */
  datatype System = System(managers: map<string, Manager>, lists: map<ListName, seq<string>>, ports: seq<int>,
                           flags: map<Flag, bool>)

  datatype AddRemove<T> = AddRemove(add: seq<T>, remove: seq<T>)

  /** A proposal's changes to the system configuration; an unset flag is not in the map. */
  datatype SystemDelta = SystemDelta(managers: seq<(string, Manager)>, removeManagers: seq<string>, lists: map<ListName, AddRemove<string>>,
                                     ports: AddRemove<int>, flags: map<Flag, bool>)

  function FormOf(name: ListName): Form {
    match name
    case PackagesAllowed | PackagesBlocked | ServicesAllowed | ProcessNames | AppNames => Plain
    case Signals | AppTeamIds | PkgTeamIds => Upper
    case _ => Path
  }

  function ListAt(lists: map<ListName, seq<string>>, name: ListName): seq<string> {
    if name in lists then lists[name] else []
  }

  function DeltaAt(lists: map<ListName, AddRemove<string>>, name: ListName): AddRemove<string> {
    if name in lists then lists[name] else AddRemove([], [])
  }

  function FlagAt(flags: map<Flag, bool>, flag: Flag): bool {
    flag in flags && flags[flag]
  }

  function Extended<T(==)>(live: seq<T>, add: seq<T>): seq<T>
    decreases |add|
  {
    if add == [] then live
    else
      var m := Extended(live, add[..|add| - 1]);
      if add[|add| - 1] in m then m else m + [add[|add| - 1]]
  }

  function Kept<T(==)>(all: seq<T>, remove: seq<T>): seq<T>
    decreases |all|
  {
    if all == [] then []
    else
      var m := Kept(all[..|all| - 1], remove);
      if all[|all| - 1] in remove then m else m + [all[|all| - 1]]
  }

  function Merged<T(==)>(live: seq<T>, d: AddRemove<T>): seq<T> {
    Kept(Extended(live, d.add), d.remove)
  }

  /** Additions not yet present, appended; then everything removed filtered out, order kept. */
  method MergeValues<T(==)>(live: seq<T>, d: AddRemove<T>) returns (out: seq<T>)
    ensures forall v :: v in out <==> (v in live || v in d.add) && v !in d.remove
    ensures out == Merged(live, d)
  {
    out := live;
    for i := 0 to |d.add|
      invariant out == Extended(live, d.add[..i])
    {
      assert d.add[..i + 1][..i] == d.add[..i];
      if d.add[i] !in out {
        out := out + [d.add[i]];
      }
    }
    assert d.add[..|d.add|] == d.add;
    MergedHolds(live, d);
    if d.remove == [] {
      KeptAll(out);
      return;
    }
    var all := out;
    out := [];
    for i := 0 to |all|
      invariant out == Kept(all[..i], d.remove)
    {
      assert all[..i + 1][..i] == all[..i];
      if all[i] !in d.remove {
        out := out + [all[i]];
      }
    }
    assert all[..|all|] == all;
  }

  lemma {:induction false} KeptAll<T>(all: seq<T>)
    ensures Kept(all, []) == all
    decreases |all|
  {
    if all != [] {
      KeptAll(all[..|all| - 1]);
    }
  }

  lemma {:induction false} ExtendedHolds<T>(live: seq<T>, add: seq<T>)
    ensures forall v :: v in Extended(live, add) <==> v in live || v in add
    decreases |add|
  {
    if add != [] {
      ExtendedHolds(live, add[..|add| - 1]);
      assert add == add[..|add| - 1] + [add[|add| - 1]];
    }
  }

  lemma {:induction false} KeptHolds<T>(all: seq<T>, remove: seq<T>)
    ensures forall v :: v in Kept(all, remove) <==> v in all && v !in remove
    decreases |all|
  {
    if all != [] {
      KeptHolds(all[..|all| - 1], remove);
      assert all == all[..|all| - 1] + [all[|all| - 1]];
    }
  }

  lemma MergedHolds<T>(live: seq<T>, d: AddRemove<T>)
    ensures forall v :: v in Merged(live, d) <==> (v in live || v in d.add) && v !in d.remove
  {
    ExtendedHolds(live, d.add);
    KeptHolds(Extended(live, d.add), d.remove);
  }

  lemma {:induction false} ExtendedConcat<T>(live: seq<T>, a: seq<T>, b: seq<T>)
    ensures Extended(live, a + b) == Extended(Extended(live, a), b)
    decreases |b|
  {
    if b == [] {
      assert a + b == a;
    } else {
      assert (a + b)[..|a| + |b| - 1] == a + b[..|b| - 1];
      ExtendedConcat(live, a, b[..|b| - 1]);
    }
  }

  lemma ExtendedOne<T>(live: seq<T>, x: T)
    ensures Extended(live, [x]) == if x in live then live else live + [x]
  {
    assert [x][..0] == [];
  }

  lemma KeptOne<T>(all: seq<T>, x: T, remove: seq<T>)
    ensures Kept(all + [x], remove) == Kept(all, remove) + (if x in remove then [] else [x])
  {
    assert (all + [x])[..|all|] == all;
  }

  /** One more addition to a list that is then filtered. */
  lemma KeptAfterOne<T>(before: seq<T>, after: seq<T>, x: T, remove: seq<T>)
    requires after == if x in before then before else before + [x]
    ensures Kept(after, remove) == Kept(before, remove) + (if x in before || x in remove then [] else [x])
  {
    KeptOne(before, x, remove);
  }

  /**
   The order of a merged list: the live values that stay come first and as they stood; an
   addition follows everything before it, unless it is there already or removed.
   */
  lemma MergedInOrder<T>(live: seq<T>, add: seq<T>, x: T, remove: seq<T>)
    ensures Merged(live, AddRemove([], remove)) == Kept(live, remove)
    ensures Merged(live, AddRemove(add + [x], remove))
            == Merged(live, AddRemove(add, remove)) + (if x in live || x in add || x in remove then [] else [x])
    ensures Kept(live + [x], remove) == Kept(live, remove) + (if x in remove then [] else [x])
  {
    ExtendedHolds(live, add);
    ExtendedConcat(live, add, [x]);
    ExtendedOne(Extended(live, add), x);
    KeptAfterOne(Extended(live, add), Extended(live, add + [x]), x, remove);
    KeptOne(live, x, remove);
  }

  /** Managers are only added, and an existing one keeps its settings. */
  function WithManagers(live: map<string, Manager>, add: seq<(string, Manager)>): map<string, Manager>
    decreases |add|
  {
    if add == [] then live
    else
      var m := WithManagers(live, add[..|add| - 1]);
      var (name, manager) := add[|add| - 1];
      if name in m then m else m[name := manager]
  }

  function EffectiveSystem(live: System, d: SystemDelta): System {
    System(WithManagers(live.managers, d.managers),
           map name: ListName | true :: Merged(ListAt(live.lists, name), DeltaAt(d.lists, name)),
           Merged(live.ports, d.ports),
           map flag: Flag | true :: if flag in d.flags then d.flags[flag] else FlagAt(live.flags, flag))
  }

  /** Some proposed manager has this name. */
  predicate Names(add: seq<(string, Manager)>, k: string) {
    exists i :: 0 <= i < |add| && add[i].0 == k
  }

  /** The first proposed manager of this name is this one. */
  predicate FirstNamed(add: seq<(string, Manager)>, k: string, m: Manager) {
    exists i :: 0 <= i < |add| && add[i] == (k, m) && forall j :: 0 <= j < i ==> add[j].0 != k
  }

  lemma NamesSnoc(add: seq<(string, Manager)>, n: nat, k: string, m: Manager)
    requires |add| == n + 1
    ensures Names(add, k) <==> Names(add[..n], k) || add[n].0 == k
    ensures FirstNamed(add[..n], k, m) ==> FirstNamed(add, k, m)
    ensures !Names(add[..n], k) && add[n] == (k, m) ==> FirstNamed(add, k, m)
  {
    var front := add[..n];
    assert forall j :: 0 <= j < n ==> front[j] == add[j];
    if Names(front, k) {
      var i :| 0 <= i < n && front[i].0 == k;
      assert add[i].0 == k;
    }
    if FirstNamed(front, k, m) {
      var i :| 0 <= i < n && front[i] == (k, m) && forall j :: 0 <= j < i ==> front[j].0 != k;
      assert add[i] == (k, m);
    }
  }

  lemma {:induction false} ManagersHold(live: map<string, Manager>, add: seq<(string, Manager)>, k: string)
    ensures var m := WithManagers(live, add);
            && (k in m <==> k in live || Names(add, k))
            && (k in live ==> m[k] == live[k])
            && (k in m && k !in live ==> FirstNamed(add, k, m[k]))
    decreases |add|
  {
    if add != [] {
      var n := |add| - 1;
      ManagersHold(live, add[..n], k);
      var m := WithManagers(live, add);
      if k in m {
        NamesSnoc(add, n, k, m[k]);
      } else {
        NamesSnoc(add, n, k, add[n].1);
      }
    }
  }

  /** What the effective configuration grants, entry by entry. */
  lemma EffectiveSystemMeans(live: System, d: SystemDelta, name: ListName, v: string, port: int, manager: string,
                             flag: Flag)
    ensures var eff := EffectiveSystem(live, d);
            && (v in ListAt(eff.lists, name)
                <==> (v in ListAt(live.lists, name) || v in DeltaAt(d.lists, name).add)
                     && v !in DeltaAt(d.lists, name).remove)
            && (port in eff.ports <==> (port in live.ports || port in d.ports.add) && port !in d.ports.remove)
            && (manager in live.managers ==> manager in eff.managers && eff.managers[manager] == live.managers[manager])
            && (manager in eff.managers <==> manager in live.managers || Names(d.managers, manager))
            && (manager in eff.managers && manager !in live.managers ==>
                  FirstNamed(d.managers, manager, eff.managers[manager]))
            && FlagAt(eff.flags, flag) == (if flag in d.flags then d.flags[flag] else FlagAt(live.flags, flag))
  {
    MergedHolds(ListAt(live.lists, name), DeltaAt(d.lists, name));
    MergedHolds(live.ports, d.ports);
    ManagersHold(live.managers, d.managers, manager);
  }

  /** A proposal may list managers to remove, but every live manager stays as it is, and the list changes nothing. */
  lemma ManagerRemovalIsIgnored(live: System, d: SystemDelta, names: seq<string>, manager: string)
    ensures EffectiveSystem(live, d.(removeManagers := names)) == EffectiveSystem(live, d)
    ensures manager in live.managers ==>
              var eff := EffectiveSystem(live, d.(removeManagers := [manager]));
              manager in eff.managers && eff.managers[manager] == live.managers[manager]
  {
    ManagersHold(live.managers, d.managers, manager);
  }

  /** Ports without repetitions, in order of first appearance. */
  function DistinctPorts(ports: seq<int>): seq<int> {
    Extended([], ports)
  }

  function NormalizeSystem(c: System): System {
    System(c.managers, map name: ListName | true :: Normalize(ListAt(c.lists, name), FormOf(name)),
           Sort(DistinctPorts(c.ports), Below),
           map flag: Flag | true :: FlagAt(c.flags, flag))
  }

  /** The path lists a saved configuration is checked on; the package prefixes are not among them. */
  predicate CheckedPaths(name: ListName) {
    name in {ChmodPrefixes, ChownPrefixes, SourcePrefixes, InstallDirs, ProjectPrefixes}
  }

  predicate ManagersValid(managers: map<string, Manager>) {
    forall k :: k in managers ==>
      TrimSpace(k) != "" && TrimSpace(managers[k].binary) != "" && Paths.IsAbs(managers[k].binary)
  }

  predicate ValidSystem(c: System) {
    && ManagersValid(c.managers)
    && (forall name: ListName :: CheckedPaths(name) ==> AllAbsolute(ListAt(c.lists, name)))
  }

  /** How each list of a saved system configuration is normalised. */
  lemma SystemListsExactly(c: System, name: ListName, v: string)
    ensures var was, held := ListAt(c.lists, name), v in ListAt(NormalizeSystem(c).lists, name);
            && (name in {PackagesAllowed, PackagesBlocked, ServicesAllowed, ProcessNames, AppNames} ==>
                  (held <==> v != "" && exists x :: x in was && TrimSpace(x) == v))
            && (name in {Signals, AppTeamIds, PkgTeamIds} ==>
                  (held <==> v != "" && exists x :: x in was && UpperOf(TrimSpace(x), v)))
            && (name in {ChmodPrefixes, ChownPrefixes, SourcePrefixes, InstallDirs, PkgPrefixes, ProjectPrefixes} ==>
                  (held <==> v != "" && exists x :: x in was && TrimSpace(x) != "" && Paths.Clean(TrimSpace(x)) == v))
  {
    SavedListIs(c, name);
    NormalizedExactly(ListAt(c.lists, name), v);
    FormsExactly(name);
  }

  lemma SavedListIs(c: System, name: ListName)
    ensures ListAt(NormalizeSystem(c).lists, name) == Normalize(ListAt(c.lists, name), FormOf(name))
  {
  }

  lemma FormsExactly(name: ListName)
    ensures FormOf(name) == Plain <==> name in {PackagesAllowed, PackagesBlocked, ServicesAllowed, ProcessNames, AppNames}
    ensures FormOf(name) == Upper <==> name in {Signals, AppTeamIds, PkgTeamIds}
    ensures FormOf(name) == Path
            <==> name in {ChmodPrefixes, ChownPrefixes, SourcePrefixes, InstallDirs, PkgPrefixes, ProjectPrefixes}
  {
  }

  /**
   Which system configurations can be saved, told from the lists before they are normalised:
   managers need a name and an absolute binary, and the entries of five path lists must be
   absolute.  The package prefixes are not checked.
   */
  lemma SavedSystemExactly(c: System)
    ensures ValidSystem(NormalizeSystem(c))
            <==> && (forall k :: k in c.managers ==>
                       TrimSpace(k) != "" && TrimSpace(c.managers[k].binary) != "" && c.managers[k].binary[0] == '/')
                 && EntriesAbsolute(ListAt(c.lists, ChmodPrefixes)) && EntriesAbsolute(ListAt(c.lists, ChownPrefixes))
                 && EntriesAbsolute(ListAt(c.lists, SourcePrefixes)) && EntriesAbsolute(ListAt(c.lists, InstallDirs))
                 && EntriesAbsolute(ListAt(c.lists, ProjectPrefixes))
  {
    SavedList(c, ChmodPrefixes);
    SavedList(c, ChownPrefixes);
    SavedList(c, SourcePrefixes);
    SavedList(c, InstallDirs);
    SavedList(c, ProjectPrefixes);
    CheckedExactly(NormalizeSystem(c));
    SameManagers(c);
  }

  lemma SavedList(c: System, name: ListName)
    requires CheckedPaths(name)
    ensures AllAbsolute(ListAt(NormalizeSystem(c).lists, name)) <==> EntriesAbsolute(ListAt(c.lists, name))
  {
    EntriesAbsoluteExactly(ListAt(c.lists, name));
  }

  lemma SameManagers(c: System)
    ensures NormalizeSystem(c).managers == c.managers
    ensures ManagersValid(c.managers)
            <==> forall k :: k in c.managers ==>
                   TrimSpace(k) != "" && TrimSpace(c.managers[k].binary) != "" && c.managers[k].binary[0] == '/'
  {
    assert TrimSpace("") == "";
  }

  lemma CheckedExactly(c: System)
    ensures ValidSystem(c)
            <==> && ManagersValid(c.managers)
                 && AllAbsolute(ListAt(c.lists, ChmodPrefixes)) && AllAbsolute(ListAt(c.lists, ChownPrefixes))
                 && AllAbsolute(ListAt(c.lists, SourcePrefixes)) && AllAbsolute(ListAt(c.lists, InstallDirs))
                 && AllAbsolute(ListAt(c.lists, ProjectPrefixes))
  {
    assert CheckedPaths(ChmodPrefixes) && CheckedPaths(ChownPrefixes) && CheckedPaths(SourcePrefixes)
        && CheckedPaths(InstallDirs) && CheckedPaths(ProjectPrefixes);
  }

  lemma {:induction false} ExtendedDistinct<T>(live: seq<T>, add: seq<T>)
    requires NoRepeats(live)
    ensures NoRepeats(Extended(live, add))
    decreases |add|
  {
    if add != [] {
      var before := Extended(live, add[..|add| - 1]);
      ExtendedDistinct(live, add[..|add| - 1]);
      if add[|add| - 1] !in before {
        NoRepeatsSnoc(before, add[|add| - 1]);
      }
    }
  }

  lemma PortsSorted(ports: seq<int>)
    ensures Increasing(Sort(DistinctPorts(ports), Below), Below)
    ensures forall v :: v in Sort(DistinctPorts(ports), Below) <==> v in ports
  {
    ExtendedHolds([], ports);
    ExtendedDistinct([], ports);
    assert StrictOrder(Below);
    SortSorts(DistinctPorts(ports), Below);
  }

  predicate SettledSystem(c: System) {
    forall name: ListName :: FormOf(name).Path? ==> SettledList(ListAt(c.lists, name), Path)
  }

  /** A configuration read back is the one written, once its paths are settled. */
  lemma SystemSettles(c: System)
    requires SettledSystem(NormalizeSystem(c))
    ensures NormalizeSystem(NormalizeSystem(c)) == NormalizeSystem(c)
  {
    var once := NormalizeSystem(c);
    var twice := NormalizeSystem(once);
    forall name: ListName ensures ListAt(twice.lists, name) == ListAt(once.lists, name) {
      ListSettles(ListAt(c.lists, name), FormOf(name));
    }
    assert twice.lists == once.lists;
    PortsSorted(c.ports);
    PortsSorted(once.ports);
    assert StrictOrder(Below);
    var written, read := once.ports, twice.ports;
    assert forall v :: v in read <==> v in written;
    SortedFormUnique(read, written, Below);
  }

  lemma ListSettles(values: seq<string>, form: Form)
    requires form.Path? ==> SettledList(Normalize(values, Path), Path)
    ensures Normalize(Normalize(values, form), form) == Normalize(values, form)
  {
    if !form.Path? {
      var once := Normalize(values, form);
      NormalizeMeans(values, form);
      forall i | 0 <= i < |once| ensures Settled(form, once[i]) {
        assert once[i] in once;
        var j :| 0 <= j < |values| && Shape(form, values[j]) == once[i];
        PlainAndUpperSettle(values[j]);
      }
    }
    NormalizeTwice(values, form);
  }
}
