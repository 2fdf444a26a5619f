/** The few standard string operations the authorization code relies on. */
module Strings {
  /** The white space that trimming removes. */
  predicate IsSpace(c: char) {
    || c == ' ' || '\t' <= c <= '\r' || c == '\U{85}' || c == '\U{A0}' || c == '\U{1680}'
    || '\U{2000}' <= c <= '\U{200A}' || c == '\U{2028}' || c == '\U{2029}'
    || c == '\U{202F}' || c == '\U{205F}' || c == '\U{3000}'
  }

  function TrimLeft(s: string): string {
    if s == "" || !IsSpace(s[0]) then s else TrimLeft(s[1..])
  }

  function TrimRight(s: string): string {
    if s == "" || !IsSpace(s[|s| - 1]) then s else TrimRight(s[..|s| - 1])
  }

  function TrimSpace(s: string): string {
    TrimRight(TrimLeft(s))
  }

  lemma {:induction false} TrimLeftEnd(s: string)
    ensures TrimLeft(s) != "" ==> !IsSpace(TrimLeft(s)[0])
    decreases |s|
  {
    if s != "" && IsSpace(s[0]) {
      TrimLeftEnd(s[1..]);
    }
  }

  lemma {:induction false} TrimRightEnd(s: string)
    ensures TrimRight(s) <= s
    ensures TrimRight(s) != "" ==> !IsSpace(TrimRight(s)[|TrimRight(s)| - 1])
    decreases |s|
  {
    if s != "" && IsSpace(s[|s| - 1]) {
      TrimRightEnd(s[..|s| - 1]);
    }
  }

  /** Trimmed text neither starts nor ends with white space, and trimming it again does nothing. */
  lemma TrimSpaceTwice(s: string)
    ensures TrimSpace(TrimSpace(s)) == TrimSpace(s)
    ensures TrimSpace(s) != "" ==> !IsSpace(TrimSpace(s)[0]) && !IsSpace(TrimSpace(s)[|TrimSpace(s)| - 1])
  {
    TrimLeftEnd(s);
    TrimRightEnd(TrimLeft(s));
  }

  /** Trimming keeps the middle that neither starts nor ends with white space. */
  lemma {:induction false} TrimSpaceMiddle(a: string, m: string, b: string)
    requires forall i :: 0 <= i < |a| ==> IsSpace(a[i])
    requires forall i :: 0 <= i < |b| ==> IsSpace(b[i])
    requires m != "" ==> !IsSpace(m[0]) && !IsSpace(m[|m| - 1])
    ensures TrimSpace(a + m + b) == m
  {
    if m == "" {
      TrimLeftSpaces(a + m + b, "");
      assert a + m + b + "" == a + m + b;
    } else {
      TrimLeftSpaces(a, m + b);
      assert a + m + b == a + (m + b);
      TrimRightSpaces(m, b);
    }
  }

  lemma {:induction false} TrimLeftSpaces(a: string, rest: string)
    requires forall i :: 0 <= i < |a| ==> IsSpace(a[i])
    requires rest != "" ==> !IsSpace(rest[0])
    ensures TrimLeft(a + rest) == rest
    decreases |a|
  {
    if a == "" {
      assert a + rest == rest;
    } else {
      assert (a + rest)[1..] == a[1..] + rest;
      TrimLeftSpaces(a[1..], rest);
    }
  }

  lemma {:induction false} TrimRightSpaces(m: string, b: string)
    requires forall i :: 0 <= i < |b| ==> IsSpace(b[i])
    requires m != "" ==> !IsSpace(m[|m| - 1])
    ensures TrimRight(m + b) == m
    decreases |b|
  {
    if b == "" {
      assert m + b == m;
    } else {
      assert (m + b)[..|m + b| - 1] == m + b[..|b| - 1];
      TrimRightSpaces(m, b[..|b| - 1]);
    }
  }

  /** Trimming leaves nothing exactly of text that is all white space. */
  lemma TrimSpaceBlank(s: string)
    ensures TrimSpace(s) == "" <==> forall i :: 0 <= i < |s| ==> IsSpace(s[i])
  {
    if forall i :: 0 <= i < |s| ==> IsSpace(s[i]) {
      TrimSpaceMiddle(s, "", "");
      assert s + "" + "" == s;
    } else {
      TrimLeftKeeps(s);
      TrimRightKeeps(TrimLeft(s));
    }
  }

  lemma {:induction false} TrimLeftKeeps(s: string)
    requires exists i :: 0 <= i < |s| && !IsSpace(s[i])
    ensures exists i :: 0 <= i < |TrimLeft(s)| && !IsSpace(TrimLeft(s)[i])
    decreases |s|
  {
    if IsSpace(s[0]) {
      var i :| 0 <= i < |s| && !IsSpace(s[i]);
      assert s[1..][i - 1] == s[i];
      TrimLeftKeeps(s[1..]);
      assert TrimLeft(s) == TrimLeft(s[1..]);
    } else {
      assert TrimLeft(s)[0] == s[0];
    }
  }

  lemma {:induction false} TrimRightKeeps(s: string)
    requires exists i :: 0 <= i < |s| && !IsSpace(s[i])
    ensures TrimRight(s) != ""
    decreases |s|
  {
    if IsSpace(s[|s| - 1]) {
      var i :| 0 <= i < |s| && !IsSpace(s[i]);
      assert s[..|s| - 1][i] == s[i];
      TrimRightKeeps(s[..|s| - 1]);
    }
  }

  /** The twenty-five characters of the Unicode White_Space property, by their codes. */
  lemma SpaceCharacters(c: char)
    ensures IsSpace(c) <==> c as int in {0x09, 0x0A, 0x0B, 0x0C, 0x0D, 0x20, 0x85, 0xA0, 0x1680,
                                         0x2000, 0x2001, 0x2002, 0x2003, 0x2004, 0x2005, 0x2006, 0x2007,
                                         0x2008, 0x2009, 0x200A, 0x2028, 0x2029, 0x202F, 0x205F, 0x3000}
  {
  }

  predicate HasPrefix(s: string, prefix: string) {
    prefix <= s
  }

  /** Splits around every occurrence of one separator character. */
  function Split(s: string, sep: char): (r: seq<string>)
    ensures |r| > 0
    ensures forall i :: 0 <= i < |r| ==> sep !in r[i]
  {
    if s == "" then [""]
    else
      var rest := Split(s[1..], sep);
      if s[0] == sep then [""] + rest else [[s[0]] + rest[0]] + rest[1..]
  }

  lemma {:induction false} SplitWhole(c: string, sep: char)
    requires sep !in c
    ensures Split(c, sep) == [c]
    decreases |c|
  {
    if c != "" {
      SplitWhole(c[1..], sep);
      assert [c[0]] + c[1..] == c;
    }
  }

  lemma {:induction false} SplitConcat(x: string, y: string, sep: char)
    ensures Split(x + [sep] + y, sep) == Split(x, sep) + Split(y, sep)
    decreases |x|
  {
    var s := x + [sep] + y;
    if x == "" {
      assert s[1..] == y;
    } else {
      assert s[1..] == x[1..] + [sep] + y;
      SplitConcat(x[1..], y, sep);
      var rest := Split(x[1..], sep);
      if x[0] != sep {
        assert [[x[0]] + rest[0]] + (rest + Split(y, sep))[1..] == ([[x[0]] + rest[0]] + rest[1..]) + Split(y, sep);
      }
    }
  }
}
