/**
 Building remote command lines: single-quoting values, joining argument lists, and filling
 command templates.  The partner of each printer is the shell lexer.
 */
module ShellCommand {
  import opened ShellLexer

  function EscapeQuotes(s: string): string {
    if s == [] then [] else EscapedChar(s[0]) + EscapeQuotes(s[1..])
  }

  function ShellQuote(s: string): string {
    "'" + EscapeQuotes(s) + "'"
  }

  // ---- quoting ----

  lemma ScanOne(st: LexState, c: char)
    ensures Scan(st, [c]) == Step(st, c)
  {
    assert [c][1..] == [];
    assert Scan(Step(st, c), []) == Step(st, c);
  }

  lemma ScanEscapedQuote(st: LexState)
    requires st.mode == SingleQuoted && st.pending.InWord? && !st.pending.bare
    ensures Scan(st, "'\\''") == Append(st, '\'', Quoted)
  {
    var s0 := Step(st, '\'');
    var s1 := Step(s0, '\\');
    var s2 := Step(s1, '\'');
    var s3 := Step(s2, '\'');
    assert "'\\''"[1..] == "\\''" && "\\''"[1..] == "''" && "''"[1..] == "'" && "'"[1..] == "";
    assert s3 == Append(st, '\'', Quoted);
    ScanOne(s2, '\'');
  }

  function EscapedChar(c: char): string {
    if c == '\'' then "'\\''" else [c]
  }

  lemma ScanEscapedChar(st: LexState, c: char)
    requires st.mode == SingleQuoted && st.pending.InWord? && !st.pending.bare
    ensures Scan(st, EscapedChar(c)) == Append(st, c, Quoted)
  {
    if c == '\'' {
      ScanEscapedQuote(st);
    } else {
      ScanOne(st, c);
    }
  }

  lemma {:induction false} ScanEscaped(st: LexState, v: string)
    requires st.mode == SingleQuoted && st.pending.InWord? && !st.pending.bare
    ensures Scan(st, EscapeQuotes(v)) == st.(pending := InWord(st.pending.elems + Literal(v), false))
    decreases |v|
  {
    if v == [] {
      assert st.pending.elems + Literal(v) == st.pending.elems;
    } else {
      ScanConcat(st, EscapedChar(v[0]), EscapeQuotes(v[1..]));
      ScanEscapedChar(st, v[0]);
      var st1 := st.(pending := InWord(st.pending.elems + [Ch(v[0], Quoted)], false));
      assert Append(st, v[0], Quoted) == st1;
      ScanEscaped(st1, v[1..]);
      assert st.pending.elems + Literal(v) == st1.pending.elems + Literal(v[1..]);
    }
  }

  /** At an unquoted position, a quoted value is read back as exactly that text, whatever it is. */
  lemma QuotedValueIsLiteral(st: LexState, v: string)
    requires AtUnquoted(st)
    ensures Scan(st, ShellQuote(v)) == TakeLiteral(st, v)
  {
    var st1 := EnterQuoted(st).(mode := SingleQuoted);
    ScanConcat(st, "'" + EscapeQuotes(v), "'");
    ScanConcat(st, "'", EscapeQuotes(v));
    ScanOne(st, '\'');
    assert Step(st, '\'') == st1;
    ScanEscaped(st1, v);
    var st2 := st1.(pending := InWord(st1.pending.elems + Literal(v), false));
    ScanOne(st2, '\'');
  }

  /** Anywhere else already the empty value is misread: the quotes do not leave the lexer unquoted. */
  lemma EmptyElsewhere(st: LexState)
    requires !AtUnquoted(st)
    ensures Scan(st, ShellQuote("")) != TakeLiteral(st, "")
  {
    assert ShellQuote("") == "''" && "''"[1..] == "'";
    var a := Step(st, '\'');
    ScanOne(a, '\'');
    assert Step(a, '\'').mode != Unquoted;
  }

  /** The quoting is safe at unquoted positions and at no other. */
  lemma QuotedValueIsLiteralExactly(st: LexState)
    ensures (forall v :: Scan(st, ShellQuote(v)) == TakeLiteral(st, v)) <==> AtUnquoted(st)
  {
    if AtUnquoted(st) {
      forall v ensures Scan(st, ShellQuote(v)) == TakeLiteral(st, v) {
        QuotedValueIsLiteral(st, v);
      }
    } else {
      EmptyElsewhere(st);
      assert Scan(st, ShellQuote("")) != TakeLiteral(st, "");
    }
  }

  lemma ScanTwo(st: LexState, a: char, b: char)
    ensures Scan(st, [a, b]) == Step(Step(st, a), b)
  {
    assert [a, b][1..] == [b];
    ScanOne(Step(st, a), b);
  }

  lemma ScanThree(st: LexState, a: char, b: char, c: char)
    ensures Scan(st, [a, b, c]) == Step(Step(Step(st, a), b), c)
  {
    assert [a, b, c][1..] == [b, c];
    ScanTwo(Step(st, a), b, c);
  }

  /** After a dollar sign nothing is unquoted, unless it opens a command substitution. */
  lemma DollarPositions(st: LexState)
    requires st.mode == Unquoted
    ensures !AtUnquoted(Scan(st, "$")) && !AtUnquoted(Scan(st, "${")) && !AtUnquoted(Scan(st, "$["))
  {
    ScanOne(st, '$');
    IntroducesDollar(st);
    DollarThen(Step(st, '$'));
    ScanTwo(st, '$', '{');
    ScanTwo(st, '$', '[');
  }

  lemma IntroducesDollar(st: LexState)
    requires st.mode == Unquoted
    ensures Step(st, '$').mode == Dollar(false)
  {
  }

  lemma DollarThen(st: LexState)
    requires st.mode == Dollar(false)
    ensures !AtUnquoted(Step(st, '{')) && !AtUnquoted(Step(st, '['))
  {
  }

  lemma ArithmeticPositions(st: LexState)
    requires st.mode == Unquoted
    ensures !AtUnquoted(Scan(st, "$((")) && !AtUnquoted(Scan(START, "(("))
  {
    ScanThree(st, '$', '(', '(');
    ScanTwo(START, '(', '(');
  }

  lemma QuotePositions(st: LexState)
    requires st.mode == Unquoted
    ensures !AtUnquoted(Scan(st, "'")) && !AtUnquoted(Scan(st, "\"")) && !AtUnquoted(Scan(st, "`"))
  {
    ScanOne(st, '\'');
    ScanOne(st, '"');
    ScanOne(st, '`');
    IntroducesQuotes(st);
  }

  lemma IntroducesQuotes(st: LexState)
    requires st.mode == Unquoted
    ensures Step(st, '\'').mode == SingleQuoted && Step(st, '"').mode == DoubleQuoted && Step(st, '`').mode == Backquoted(false)
  {
  }

  lemma CommentPositions()
    ensures !AtUnquoted(Scan(START, "#")) && !AtUnquoted(Scan(START, "<<"))
  {
    ScanOne(START, '#');
    ScanTwo(START, '<', '<');
  }

  /**
   Positions that look unquoted and are not: after a dollar sign, in a parameter expansion, in
   arithmetic and in backquotes, wherever in a command they start; at the start of a command
   also in doubled parentheses, in a here-document and in a comment.
   */
  lemma ExcludedPositions(st: LexState, text: string)
    requires st.mode == Unquoted && text in {"$", "${", "$[", "$((", "`", "'", "\"", "((", "#", "<<"}
    requires text in {"((", "#", "<<"} ==> st == START
    ensures !AtUnquoted(Scan(st, text))
  {
    DollarPositions(st);
    ArithmeticPositions(st);
    QuotePositions(st);
    CommentPositions();
  }

  /** Positions inside a command substitution are unquoted again, even within double quotes. */
  lemma SubstitutionPositions()
    ensures AtUnquoted(Scan(START, "$(")) && AtUnquoted(Scan(START, "\"$(")) && AtUnquoted(Scan(START, "a "))
  {
    ScanTwo(START, '$', '(');
    ScanThree(START, '"', '$', '(');
    ScanTwo(START, 'a', ' ');
  }

  // ---- argument lists ----

  /** The quoted arguments separated by single spaces. */
  function JoinQuoted(args: seq<string>): string {
    if args == [] then ""
    else if |args| == 1 then ShellQuote(args[0])
    else JoinQuoted(args[..|args| - 1]) + " " + ShellQuote(args[|args| - 1])
  }

  function Words(args: seq<string>): (r: seq<Token>)
    ensures |r| == |args| && forall i :: 0 <= i < |args| ==> r[i] == Word(Literal(args[i]), false)
  {
    seq(|args|, i requires 0 <= i < |args| => Word(Literal(args[i]), false))
  }

  /** The last argument pending and all others done. */
  function AfterArguments(args: seq<string>): LexState
    requires args != []
  {
    LexState(Words(args[..|args| - 1]), InWord(Literal(args[|args| - 1]), false), Unquoted, 0, [])
  }

  /** Lexing the joined arguments leaves the last one pending and all others done. */
  lemma {:induction false} ScanJoined(args: seq<string>)
    requires args != []
    ensures Scan(START, JoinQuoted(args)) == AfterArguments(args)
    decreases |args|
  {
    var last := args[|args| - 1];
    if |args| == 1 {
      FirstArgument(last);
      assert args == [last];
    } else {
      ScanJoined(args[..|args| - 1]);
      OneMoreArgument(args[..|args| - 1], last, args);
    }
  }

  lemma FirstArgument(v: string)
    ensures Scan(START, JoinQuoted([v])) == AfterArguments([v])
  {
    QuotedValueIsLiteral(START, v);
    assert [] + Literal(v) == Literal(v);
    assert Words([v][..0]) == [];
  }

  lemma OneMoreArgument(front: seq<string>, last: string, args: seq<string>)
    requires front != [] && args == front + [last] && Scan(START, JoinQuoted(front)) == AfterArguments(front)
    ensures Scan(START, JoinQuoted(args)) == AfterArguments(args)
  {
    assert args[..|args| - 1] == front;
    assert JoinQuoted(args) == JoinQuoted(front) + (" " + ShellQuote(last));
    ScanConcat(START, JoinQuoted(front), " " + ShellQuote(last));
    NextArgument(AfterArguments(front), last);
    assert Words(front[..|front| - 1]) + [Word(Literal(front[|front| - 1]), false)] == Words(front);
  }

  /** A blank and a quoted argument end the word before and start the next one. */
  lemma NextArgument(st: LexState, v: string)
    requires st.mode == Unquoted && st.pending.InWord? && st.outer == []
    ensures Scan(st, " " + ShellQuote(v))
            == LexState(st.done + [Word(st.pending.elems, st.pending.bare)], InWord(Literal(v), false), Unquoted, st.parens, [])
  {
    ScanConcat(st, " ", ShellQuote(v));
    ScanOne(st, ' ');
    QuotedValueIsLiteral(Step(st, ' '), v);
    assert [] + Literal(v) == Literal(v);
  }

  /**
   Builds the remote command for an argument list.  A POSIX shell tokenises it back into
   exactly that list, every character quoted, whatever the arguments contain.
   */
  method RemoteCommand(remoteArgs: seq<string>) returns (command: string)
    ensures Lex(command) == Tokens(Words(remoteArgs))
  {
    var quoted: seq<string> := [];
    for i := 0 to |remoteArgs|
      invariant |quoted| == i
      invariant forall k :: 0 <= k < i ==> quoted[k] == ShellQuote(remoteArgs[k])
    {
      quoted := quoted + [ShellQuote(remoteArgs[i])];
    }
    command := "";
    for i := 0 to |quoted|
      invariant command == JoinQuoted(remoteArgs[..i])
    {
      assert remoteArgs[..i + 1][..i] == remoteArgs[..i];
      command := if i == 0 then quoted[i] else command + " " + quoted[i];
    }
    assert remoteArgs[..|remoteArgs|] == remoteArgs;
    if remoteArgs != [] {
      ScanJoined(remoteArgs);
      assert Words(remoteArgs[..|remoteArgs| - 1]) + [Word(Literal(remoteArgs[|remoteArgs| - 1]), false)] == Words(remoteArgs);
    } else {
      assert Lex("") == Tokens([]);
    }
  }

  // ---- command templates ----

  datatype Piece = Lit(c: char) | Hole(name: string)

  predicate IsNameChar(c: char) {
    'a' <= c <= 'z' || 'A' <= c <= 'Z' || '0' <= c <= '9' || c == '_'
  }

  /** The characters of a placeholder's name, by their codes: letters, digits and the underscore. */
  lemma NameCharacters(c: char)
    ensures IsNameChar(c)
            <==> 0x61 <= c as int <= 0x7A || 0x41 <= c as int <= 0x5A || 0x30 <= c as int <= 0x39 || c as int == 0x5F
  {
  }

  /** How many name characters `s` starts with. */
  function NameLength(s: string): (n: nat)
    ensures n <= |s|
    ensures forall i :: 0 <= i < n ==> IsNameChar(s[i])
    ensures n < |s| ==> !IsNameChar(s[n])
  {
    if s == [] || !IsNameChar(s[0]) then 0 else 1 + NameLength(s[1..])
  }

  /** The placeholder `{name}` stands at position `at` of the template. */
  predicate PlaceholderAt(t: string, at: nat, name: string) {
    && name != "" && at + |name| + 2 <= |t|
    && t[at] == '{' && t[at + |name| + 1] == '}'
    && t[at + 1..at + 1 + |name|] == name
    && forall k :: 0 <= k < |name| ==> IsNameChar(name[k])
  }

  function Braced(name: string): string { "{" + name + "}" }

  /** One left-to-right pass over a template. */
  function Pieces(t: string): seq<Piece>
    decreases |t|
  {
    if t == [] then []
    else
      var n := NameLength(t[1..]);
      if t[0] == '{' && n > 0 && n + 1 < |t| && t[n + 1] == '}'
      then [Hole(t[1..n + 1])] + Pieces(t[n + 2..])
      else [Lit(t[0])] + Pieces(t[1..])
  }

  function PieceText(p: Piece, subs: map<string, string>): string {
    match p
    case Lit(c) => [c]
    case Hole(name) => if name in subs then subs[name] else Braced(name)
  }

  function Fill(ps: seq<Piece>, subs: map<string, string>): string {
    if ps == [] then "" else PieceText(ps[0], subs) + Fill(ps[1..], subs)
  }

  function Substitute(tmpl: string, subs: map<string, string>): string {
    Fill(Pieces(tmpl), subs)
  }

  /** The template starts with a placeholder whose name has `n` characters. */
  predicate StartsWithHole(t: string, n: nat) {
    n > 0 && n + 1 < |t| && t[0] == '{' && t[n + 1] == '}'
  }

  /** The piece a template starts with, and how much of the template it takes. */
  function First(t: string): (Piece, nat)
    requires t != ""
  {
    var n := NameLength(t[1..]);
    if StartsWithHole(t, n) then (Hole(t[1..n + 1]), n + 2) else (Lit(t[0]), 1)
  }

  lemma FirstSpells(t: string, first: (Piece, nat))
    requires t != "" && first == First(t)
    ensures 0 < first.1 <= |t| && PieceText(first.0, map[]) == t[..first.1]
  {
  }

  lemma UnfoldPieces(t: string, first: (Piece, nat), rest: string)
    requires t != "" && first == First(t) && first.1 <= |t| && rest == t[first.1..]
    ensures Pieces(t) == [first.0] + Pieces(rest)
  {
  }

  lemma FillCons(p: Piece, ps: seq<Piece>, subs: map<string, string>)
    ensures Fill([p] + ps, subs) == PieceText(p, subs) + Fill(ps, subs)
  {
    assert ([p] + ps)[1..] == ps;
  }

  /** The pass loses nothing: with no substitution it gives the template back. */
  lemma {:induction false} PiecesSpellTemplate(t: string)
    ensures Substitute(t, map[]) == t
    decreases |t|
  {
    if t != [] {
      var first := First(t);
      FirstSpells(t, first);
      var rest := t[first.1..];
      PiecesSpellTemplate(rest);
      UnfoldPieces(t, first, rest);
      SpellOn(t, first, rest, Pieces(rest));
    }
  }

  lemma SpellOn(t: string, first: (Piece, nat), rest: string, more: seq<Piece>)
    requires first.1 <= |t| && PieceText(first.0, map[]) == t[..first.1]
    requires rest == t[first.1..] && Fill(more, map[]) == rest
    ensures Fill([first.0] + more, map[]) == t
  {
    FillCons(first.0, more, map[]);
    assert t[..first.1] + rest == t;
  }

  /** Where the i-th piece starts in the template. */
  function Offset(ps: seq<Piece>, i: nat): nat
    requires i <= |ps|
  {
    if i == 0 then 0 else |PieceText(ps[0], map[])| + Offset(ps[1..], i - 1)
  }

  /** Every placeholder of the template becomes one hole, and only placeholders do. */
  lemma {:induction false} HolesAreThePlaceholders(t: string, at: nat, name: string)
    ensures PlaceholderAt(t, at, name) <==> HoleAt(Pieces(t), at, name)
    decreases |t|
  {
    if t != [] {
      var ps := Pieces(t);
      var w := |PieceText(ps[0], map[])|;
      FirstPiece(t, at, name);
      if at >= w {
        HolesAreThePlaceholders(t[w..], at - w, name);
        ShiftPlaceholder(t, w, at, name);
        ShiftHole(ps, w, at, name);
      } else {
        HoleInFirst(ps, at, name);
      }
    }
  }

  lemma ShiftPlaceholder(t: string, w: nat, at: nat, name: string)
    requires w <= at && w <= |t|
    ensures PlaceholderAt(t, at, name) <==> PlaceholderAt(t[w..], at - w, name)
  {
    if at + |name| + 2 <= |t| {
      assert t[w..][at - w..] == t[at..];
      assert t[at + 1..at + 1 + |name|] == t[w..][at - w + 1..at - w + 1 + |name|];
    }
  }

  lemma HoleInFirst(ps: seq<Piece>, at: nat, name: string)
    requires ps != [] && at < |PieceText(ps[0], map[])|
    ensures HoleAt(ps, at, name) <==> at == 0 && ps[0] == Hole(name)
  {
    LaterOffsets(ps);
    if at == 0 && ps[0] == Hole(name) {
      assert Offset(ps, 0) == at;
    }
  }

  predicate HoleAt(ps: seq<Piece>, at: nat, name: string) {
    exists i :: 0 <= i < |ps| && Offset(ps, i) == at && ps[i] == Hole(name)
  }

  /** Inside the first piece a placeholder can only start at the very beginning. */
  lemma FirstPiece(t: string, at: nat, name: string)
    requires t != []
    ensures PlaceholderAt(t, 0, name) <==> Pieces(t)[0] == Hole(name)
    ensures 0 < at < |PieceText(Pieces(t)[0], map[])| ==> !PlaceholderAt(t, at, name)
    ensures 0 < |PieceText(Pieces(t)[0], map[])| <= |t|
    ensures Pieces(t)[1..] == Pieces(t[|PieceText(Pieces(t)[0], map[])|..])
  {
    var n := NameLength(t[1..]);
    if t[0] == '{' && n > 0 && n + 1 < |t| && t[n + 1] == '}' {
      HoleFirst(t, n, at, name);
    } else {
      assert Pieces(t) == [Lit(t[0])] + Pieces(t[1..]);
      if PlaceholderAt(t, 0, name) {
        PlaceholderLength(t, name);
      }
    }
  }

  lemma HoleFirst(t: string, n: nat, at: nat, name: string)
    requires t != [] && n == NameLength(t[1..]) && n > 0 && n + 1 < |t| && t[0] == '{' && t[n + 1] == '}'
    ensures Pieces(t) == [Hole(t[1..n + 1])] + Pieces(t[n + 2..])
    ensures PlaceholderAt(t, 0, name) <==> t[1..n + 1] == name
    ensures 0 < at < n + 2 ==> !PlaceholderAt(t, at, name)
  {
    UnfoldPieces(t, First(t), t[n + 2..]);
    HoleStart(t, n, name);
    NameSpan(t, n);
  }

  lemma HoleStart(t: string, n: nat, name: string)
    requires t != [] && n == NameLength(t[1..]) && StartsWithHole(t, n)
    ensures PlaceholderAt(t, 0, name) <==> t[1..n + 1] == name
  {
    NameSpan(t, n);
    if PlaceholderAt(t, 0, name) {
      PlaceholderLength(t, name);
    }
    if t[1..n + 1] == name {
      forall k | 0 <= k < |name| ensures IsNameChar(name[k]) {
        assert name[k] == t[k + 1];
      }
    }
  }

  lemma NameSpan(t: string, n: nat)
    requires t != [] && n == NameLength(t[1..])
    ensures forall k :: 0 < k <= n ==> IsNameChar(t[k])
  {
    forall k | 0 < k <= n ensures IsNameChar(t[k]) {
      assert t[k] == t[1..][k - 1];
    }
  }

  lemma PlaceholderLength(t: string, name: string)
    requires PlaceholderAt(t, 0, name)
    ensures NameLength(t[1..]) == |name|
  {
    var n := NameLength(t[1..]);
    assert t[1..][|name|] == '}';
    forall k | 0 <= k < |name| ensures IsNameChar(t[1..][k]) {
      assert t[1..][k] == name[k];
    }
  }

  lemma LaterOffsets(ps: seq<Piece>)
    requires ps != []
    ensures forall i :: 0 < i <= |ps| ==> Offset(ps, i) >= |PieceText(ps[0], map[])|
  {
  }

  lemma ShiftHole(ps: seq<Piece>, w: nat, at: nat, name: string)
    requires ps != [] && w == |PieceText(ps[0], map[])| && 0 < w <= at
    ensures HoleAt(ps, at, name) <==> HoleAt(ps[1..], at - w, name)
  {
    if i :| 0 <= i < |ps| && Offset(ps, i) == at && ps[i] == Hole(name) {
      assert Offset(ps[1..], i - 1) == at - w && ps[1..][i - 1] == Hole(name);
    }
    if i :| 0 <= i < |ps[1..]| && Offset(ps[1..], i) == at - w && ps[1..][i] == Hole(name) {
      assert Offset(ps, i + 1) == at && ps[i + 1] == Hole(name);
    }
  }

  /** Reading one piece: literal text is lexed, a known placeholder stands for its value. */
  function ReadPiece(st: LexState, p: Piece, values: map<string, string>): LexState {
    match p
    case Lit(c) => Step(st, c)
    case Hole(name) => if name in values then TakeLiteral(st, values[name]) else Scan(st, Braced(name))
  }

  function ReadTemplate(st: LexState, ps: seq<Piece>, values: map<string, string>): LexState
    decreases |ps|
  {
    if ps == [] then st else ReadTemplate(ReadPiece(st, ps[0], values), ps[1..], values)
  }

  /** Every known placeholder sits at an unquoted position. */
  predicate HolesUnquoted(st: LexState, ps: seq<Piece>, values: map<string, string>)
    decreases |ps|
  {
    ps == [] ||
    ((ps[0].Hole? && ps[0].name in values ==> AtUnquoted(st))
     && HolesUnquoted(ReadPiece(st, ps[0], values), ps[1..], values))
  }

  function QuoteAll(values: map<string, string>): map<string, string> {
    map name | name in values :: ShellQuote(values[name])
  }

  lemma PieceReads(st: LexState, p: Piece, values: map<string, string>)
    requires p.Hole? && p.name in values ==> AtUnquoted(st)
    ensures Scan(st, PieceText(p, QuoteAll(values))) == ReadPiece(st, p, values)
  {
    match p
    case Lit(c) => ScanOne(st, c);
    case Hole(name) =>
      if name in values {
        QuotedValueIsLiteral(st, values[name]);
      }
  }

  lemma {:induction false} FillReadsAsTemplate(st: LexState, ps: seq<Piece>, values: map<string, string>)
    requires HolesUnquoted(st, ps, values)
    ensures Scan(st, Fill(ps, QuoteAll(values))) == ReadTemplate(st, ps, values)
    decreases |ps|
  {
    if ps != [] {
      ScanConcat(st, PieceText(ps[0], QuoteAll(values)), Fill(ps[1..], QuoteAll(values)));
      PieceReads(st, ps[0], values);
      FillReadsAsTemplate(ReadPiece(st, ps[0], values), ps[1..], values);
    }
  }

  /**
   A command rendered from a template tokenises as the template does with each placeholder
   read as the literal value, for all values, whatever quotes, braces, blanks, operators or
   newlines they contain, provided the placeholders sit at unquoted positions.
   */
  lemma RenderedCommandReadsAsTemplate(tmpl: string, values: map<string, string>)
    requires HolesUnquoted(START, Pieces(tmpl), values)
    ensures Lex(Substitute(tmpl, QuoteAll(values))) == Finish(ReadTemplate(START, Pieces(tmpl), values))
  {
    FillReadsAsTemplate(START, Pieces(tmpl), values);
  }

  // ---- placement does not depend on the values ----

  predicate SameWord(a: seq<Elem>, aBare: bool, b: seq<Elem>, bBare: bool) {
    aBare == bBare && (aBare ==> a == b)
  }

  predicate SameLevel(a: Level, b: Level) {
    a.dq == b.dq && a.parens == b.parens && SameWord(a.elems, a.bare, b.elems, b.bare)
  }

  predicate SamePending(a: Pending, b: Pending) {
    match (a, b)
    case (Nothing, Nothing) => true
    case (InWord(x, p), InWord(y, q)) => SameWord(x, p, y, q)
    case (InOperator(x), InOperator(y)) => x == y
    case _ => false
  }

  /** Two lexer states that differ only in finished tokens and in the text of words that hold values. */
  predicate SameShape(a: LexState, b: LexState) {
    && a.mode == b.mode && a.parens == b.parens && SamePending(a.pending, b.pending)
    && |a.outer| == |b.outer| && forall i :: 0 <= i < |a.outer| ==> SameLevel(a.outer[i], b.outer[i])
  }

  lemma EnterKeepsShape(a: LexState, b: LexState)
    requires SameShape(a, b)
    ensures SameShape(Delimit(a), Delimit(b)) && SameShape(EnterWord(a), EnterWord(b)) && SameShape(EnterQuoted(a), EnterQuoted(b))
  {
  }

  lemma AppendKeepsShape(a: LexState, b: LexState, c: char, how: How)
    requires SameShape(a, b)
    ensures SameShape(Append(a, c, how), Append(b, c, how))
  {
    EnterKeepsShape(a, b);
  }

  lemma ResumeKeepsShape(a: LexState, b: LexState, x: seq<Elem>, y: seq<Elem>, mode: Mode)
    requires SameShape(a, b) && a.outer != []
    ensures SameShape(Resume(a, x, mode), Resume(b, y, mode))
  {
    var n := |a.outer| - 1;
    assert SameLevel(a.outer[n], b.outer[n]);
    assert forall i :: 0 <= i < n ==> SameLevel(a.outer[..n][i], b.outer[..n][i]);
  }

  lemma SameGuards(a: Pending, b: Pending)
    requires SamePending(a, b)
    ensures a.InWord? == b.InWord? && a.InOperator? == b.InOperator? && (a.InOperator? ==> a == b)
    ensures (a == InWord(CASE, true)) == (b == InWord(CASE, true))
  {
  }

  lemma SetKeepsShape(a: LexState, b: LexState, mode: Mode)
    requires SameShape(a, b)
    ensures SameShape(a.(mode := mode), b.(mode := mode))
  {
  }

  lemma OperatorKeepsShape(a: LexState, b: LexState, text: string, parens: nat)
    requires SameShape(a, b)
    ensures SameShape(a.(pending := InOperator(text)), b.(pending := InOperator(text)))
    ensures SameShape(Delimit(a).(pending := InOperator(text), parens := parens),
                      Delimit(b).(pending := InOperator(text), parens := parens))
  {
    EnterKeepsShape(a, b);
  }

  lemma CloseKeepsShape(a: LexState, b: LexState)
    requires SameShape(a, b) && a.outer != []
    ensures SameShape(CloseSubstitution(a), CloseSubstitution(b))
  {
    var n := |a.outer| - 1;
    assert SameLevel(a.outer[n], b.outer[n]);
    var l := a.outer[n];
    ResumeKeepsShape(a, b, [Substitution(Delimit(a).done, Protection(l.dq))],
                     [Substitution(Delimit(b).done, Protection(l.dq))], Back(l.dq));
  }

  lemma UnquotedKeepsShape(a: LexState, b: LexState, c: char)
    requires SameShape(a, b) && a.mode == Unquoted
    ensures SameShape(UnquotedStep(a, c), UnquotedStep(b, c))
  {
    SameGuards(a.pending, b.pending);
    if a.pending.InOperator? && ExtendsOperator(a.pending.text, c) {
      OperatorKeepsShape(a, b, a.pending.text + [c], 0);
      SetKeepsShape(a, b, Beyond);
    } else if (a.pending == InOperator("(") && c == '(')
           || (a.outer != [] && a.pending == InWord(CASE, true) && (IsBlank(c) || c == '\n')) {
      SetKeepsShape(a, b, Beyond);
    } else if c == '\'' || c == '"' || c == '\\' {
      EnterKeepsShape(a, b);
      SetKeepsShape(EnterQuoted(a), EnterQuoted(b), SingleQuoted);
      SetKeepsShape(EnterQuoted(a), EnterQuoted(b), DoubleQuoted);
      SetKeepsShape(a, b, Escaped);
    } else if c == ')' && a.outer != [] && a.parens == 0 {
      CloseKeepsShape(a, b);
    } else {
      PlainKeepsShape(a, b, c);
    }
  }

  lemma PlainKeepsShape(a: LexState, b: LexState, c: char)
    requires SameShape(a, b) && a.mode == Unquoted
    requires !(a.pending.InOperator? && ExtendsOperator(a.pending.text, c)) && !(a.pending == InOperator("(") && c == '(')
    requires !(a.outer != [] && a.pending == InWord(CASE, true) && (IsBlank(c) || c == '\n'))
    requires c != '\'' && c != '"' && c != '\\' && !(c == ')' && a.outer != [] && a.parens == 0)
    ensures SameShape(UnquotedStep(a, c), UnquotedStep(b, c))
  {
    SameGuards(a.pending, b.pending);
    EnterKeepsShape(a, b);
    AppendKeepsShape(a, b, c, Bare);
    OperatorKeepsShape(a, b, [c], ParensAfter(a, c));
    SetKeepsShape(Append(a, c, Bare), Append(b, c, Bare), Dollar(false));
    SetKeepsShape(Append(a, c, Bare), Append(b, c, Bare), Backquoted(false));
    SetKeepsShape(Delimit(a), Delimit(b), Comment);
  }

  lemma DollarKeepsShape(a: LexState, b: LexState, c: char, dq: bool)
    requires SameShape(a, b)
    ensures SameShape(DollarStep(a, c, dq), DollarStep(b, c, dq))
  {
    EnterKeepsShape(a, b);
    AppendKeepsShape(a, b, c, Protection(dq));
  }

  lemma StepKeepsShape(a: LexState, b: LexState, c: char)
    requires SameShape(a, b)
    ensures SameShape(Step(a, c), Step(b, c))
  {
    match a.mode
    case Unquoted => UnquotedKeepsShape(a, b, c);
    case Comment => UnquotedKeepsShape(a.(mode := Unquoted), b.(mode := Unquoted), c);
    case Dollar(dq) => DollarKeepsShape(a, b, c, dq);
    case SubstitutionStart => SubstitutionStartKeepsShape(a, b, c);
    case _ => OtherStepsKeepShape(a, b, c);
  }

  lemma SubstitutionStartKeepsShape(a: LexState, b: LexState, c: char)
    requires SameShape(a, b) && a.mode == SubstitutionStart
    ensures SameShape(Step(a, c), Step(b, c))
  {
    UnquotedKeepsShape(a.(mode := Unquoted), b.(mode := Unquoted), c);
    if a.outer != [] {
      assert SameLevel(a.outer[|a.outer| - 1], b.outer[|b.outer| - 1]);
      var dq := a.outer[|a.outer| - 1].dq;
      var open := [Ch('(', Protection(dq)), Ch('(', Protection(dq))];
      ResumeKeepsShape(a, b, open, open, Arithmetic(2, dq, false));
    }
  }

  /** Quoted text and units change the word and the mode only. */
  lemma OtherStepsKeepShape(a: LexState, b: LexState, c: char)
    requires SameShape(a, b) && a.mode != Unquoted && a.mode != Comment && !a.mode.Dollar? && a.mode != SubstitutionStart
    ensures SameShape(Step(a, c), Step(b, c))
  {
    match a.mode
    case SingleQuoted => QuotedStepsKeepShape(a, b, c);
    case DoubleQuoted => DoubleKeepsShape(a, b, c);
    case DoubleQuotedEscape => QuotedStepsKeepShape(a, b, c);
    case Escaped => QuotedStepsKeepShape(a, b, c);
    case DoubleName =>
      SetKeepsShape(a, b, DoubleQuoted);
      SetKeepsShape(a, b, Beyond);
      DoubleKeepsShape(a.(mode := DoubleQuoted), b.(mode := DoubleQuoted), c);
      AppendKeepsShape(a, b, c, Active);
    case _ => UnitStepsKeepShape(a, b, c);
  }

  lemma QuotedStepsKeepShape(a: LexState, b: LexState, c: char)
    requires SameShape(a, b) && (a.mode == SingleQuoted || a.mode == DoubleQuotedEscape || a.mode == Escaped)
    ensures SameShape(Step(a, c), Step(b, c))
  {
    var m := if a.mode == DoubleQuotedEscape then DoubleQuoted else Unquoted;
    SetKeepsShape(a, b, m);
    AppendKeepsShape(a, b, c, Quoted);
    var a1, b1 := a.(mode := m), b.(mode := m);
    EnterKeepsShape(a1, b1);
    AppendKeepsShape(a1, b1, c, Quoted);
    AppendKeepsShape(EnterQuoted(a1), EnterQuoted(b1), c, Quoted);
    AppendKeepsShape(a1, b1, '\\', Quoted);
    AppendKeepsShape(Append(a1, '\\', Quoted), Append(b1, '\\', Quoted), c, Quoted);
  }

  lemma DoubleKeepsShape(a: LexState, b: LexState, c: char)
    requires SameShape(a, b) && a.mode == DoubleQuoted
    ensures SameShape(DoubleStep(a, c), DoubleStep(b, c))
  {
    SetKeepsShape(a, b, Unquoted);
    SetKeepsShape(a, b, DoubleQuotedEscape);
    AppendKeepsShape(a, b, c, Quoted);
    AppendKeepsShape(a, b, c, Active);
    SetKeepsShape(Append(a, c, Active), Append(b, c, Active), Dollar(true));
    SetKeepsShape(Append(a, c, Active), Append(b, c, Active), Backquoted(true));
  }

  lemma UnitStepsKeepShape(a: LexState, b: LexState, c: char)
    requires SameShape(a, b)
    requires a.mode.Braces? || a.mode.Arithmetic? || a.mode.Backquoted? || a.mode.BackquotedEscape? || a.mode.Beyond?
    ensures SameShape(Step(a, c), Step(b, c))
  {
    SetKeepsShape(a, b, Beyond);
    if !a.mode.Beyond? {
      var how := Protection(a.mode.dq);
      AppendKeepsShape(a, b, c, how);
      var a1, b1 := Append(a, c, how), Append(b, c, how);
      SetKeepsShape(a1, b1, Step(a, c).mode);
    }
  }

  lemma {:induction false} ScanKeepsShape(a: LexState, b: LexState, s: string)
    requires SameShape(a, b)
    ensures SameShape(Scan(a, s), Scan(b, s))
    decreases |s|
  {
    if s != [] {
      StepKeepsShape(a, b, s[0]);
      ScanKeepsShape(Step(a, s[0]), Step(b, s[0]), s[1..]);
    }
  }

  lemma PieceKeepsShape(a: LexState, b: LexState, p: Piece, v: map<string, string>, w: map<string, string>)
    requires SameShape(a, b) && v.Keys == w.Keys
    ensures SameShape(ReadPiece(a, p, v), ReadPiece(b, p, w))
  {
    match p
    case Lit(c) => StepKeepsShape(a, b, c);
    case Hole(name) =>
      if name in v {
        assert name in w;
        EnterKeepsShape(a, b);
      } else {
        assert name !in w;
        ScanKeepsShape(a, b, Braced(name));
      }
  }

  /** Whether the placeholders are at unquoted positions does not depend on the values. */
  lemma {:induction false} PlacementIsStatic(a: LexState, b: LexState, ps: seq<Piece>,
                                             v: map<string, string>, w: map<string, string>)
    requires SameShape(a, b) && v.Keys == w.Keys
    ensures HolesUnquoted(a, ps, v) <==> HolesUnquoted(b, ps, w)
    decreases |ps|
  {
    if ps != [] {
      assert forall name :: name in v <==> name in v.Keys;
      assert forall name :: name in w <==> name in w.Keys;
      PieceKeepsShape(a, b, ps[0], v, w);
      PlacementIsStatic(ReadPiece(a, ps[0], v), ReadPiece(b, ps[0], w), ps[1..], v, w);
    }
  }

  // ---- the placement condition is exact ----

  /** Piece by piece, the shell reads the rendered text as the template says. */
  predicate ReadsAlong(st: LexState, ps: seq<Piece>, values: map<string, string>)
    decreases |ps|
  {
    ps == [] ||
    (Scan(st, PieceText(ps[0], QuoteAll(values))) == ReadPiece(st, ps[0], values)
     && ReadsAlong(ReadPiece(st, ps[0], values), ps[1..], values))
  }

  lemma {:induction false} UnquotedReadsAlong(st: LexState, ps: seq<Piece>, values: map<string, string>)
    requires HolesUnquoted(st, ps, values)
    ensures ReadsAlong(st, ps, values)
    decreases |ps|
  {
    if ps != [] {
      PieceReads(st, ps[0], values);
      UnquotedReadsAlong(ReadPiece(st, ps[0], values), ps[1..], values);
    }
  }

  function EmptyValues(keys: set<string>): map<string, string> {
    map name | name in keys :: ""
  }

  lemma {:induction false} MisplacedIsMisread(st: LexState, ps: seq<Piece>, keys: set<string>)
    requires ReadsAlong(st, ps, EmptyValues(keys))
    ensures HolesUnquoted(st, ps, EmptyValues(keys))
    decreases |ps|
  {
    if ps != [] {
      var values := EmptyValues(keys);
      if ps[0].Hole? && ps[0].name in values && !AtUnquoted(st) {
        EmptyElsewhere(st);
      }
      MisplacedIsMisread(ReadPiece(st, ps[0], values), ps[1..], keys);
    }
  }

  /**
   The condition on templates is exact: the rendered text is read piece by piece as the template
   says, whatever the values of the placeholders, if and only if every placeholder sits at an
   unquoted position.
   */
  lemma PlacementExactly(tmpl: string, values: map<string, string>)
    ensures (forall w: map<string, string> :: w.Keys == values.Keys ==> ReadsAlong(START, Pieces(tmpl), w))
            <==> HolesUnquoted(START, Pieces(tmpl), values)
  {
    var ps, empty := Pieces(tmpl), EmptyValues(values.Keys);
    assert empty.Keys == values.Keys;
    if HolesUnquoted(START, ps, values) {
      forall w: map<string, string> | w.Keys == values.Keys ensures ReadsAlong(START, ps, w) {
        PlacementIsStatic(START, START, ps, values, w);
        UnquotedReadsAlong(START, ps, w);
      }
    } else {
      if ReadsAlong(START, ps, empty) {
        MisplacedIsMisread(START, ps, values.Keys);
        PlacementIsStatic(START, START, ps, values, empty);
      }
      assert !ReadsAlong(START, ps, empty);
    }
  }

  function Lits(s: string): (ps: seq<Piece>)
    ensures |ps| == |s| && forall i :: 0 <= i < |s| ==> ps[i] == Lit(s[i])
  {
    seq(|s|, i requires 0 <= i < |s| => Lit(s[i]))
  }

  /** A placeholder needs an unquoted position after the text in front of it. */
  lemma {:induction false} HoleNeedsPosition(st: LexState, prefix: string, name: string, rest: seq<Piece>,
                                             values: map<string, string>)
    requires name in values && HolesUnquoted(st, Lits(prefix) + [Hole(name)] + rest, values)
    ensures AtUnquoted(Scan(st, prefix))
    decreases |prefix|
  {
    var ps := Lits(prefix) + [Hole(name)] + rest;
    if prefix == "" {
      assert ps[0] == Hole(name);
    } else {
      assert ps[1..] == Lits(prefix[1..]) + [Hole(name)] + rest;
      HoleNeedsPosition(Step(st, prefix[0]), prefix[1..], name, rest, values);
    }
  }

  /** Such text in front of a placeholder excludes the template, whatever the values. */
  lemma ExcludedTemplates(before: string, text: string, name: string, rest: seq<Piece>, values: map<string, string>)
    requires Scan(START, before).mode == Unquoted && name in values
    requires text in {"$", "${", "$[", "$((", "`", "'", "\"", "((", "#", "<<"} && (text in {"((", "#", "<<"} ==> before == "")
    ensures !HolesUnquoted(START, Lits(before + text) + [Hole(name)] + rest, values)
  {
    ExcludedPositions(Scan(START, before), text);
    ScanConcat(START, before, text);
    if HolesUnquoted(START, Lits(before + text) + [Hole(name)] + rest, values) {
      HoleNeedsPosition(START, before + text, name, rest, values);
    }
  }
}
