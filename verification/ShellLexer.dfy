/**
 Token recognition and quoting of the POSIX shell command language (sections 2.2.1, 2.2.2,
 2.2.3, 2.3 and the introductory sequences of 2.6 of POSIX.1-2017), as a state machine over
 characters with a stack for nested command substitutions.  A word keeps, for every character,
 how it is protected, and every command substitution as the tokens inside it.

 Where the standard leaves the reading open, or where finding the end of a construct needs the
 whole grammar, the lexer gives up for good (`Beyond`), so that nothing is claimed about the
 text that follows: a dollar sign before a character that introduces no expansion, two opening
 parentheses in a row, here-documents, and `case` inside a command substitution.
 */
module ShellLexer {
  /** Unprotected; inside double quotes but introducing an expansion; or literal. */
  datatype How = Bare | Active | Quoted

  datatype Elem = Ch(c: char, how: How) | Substitution(tokens: seq<Token>, how: How)

  /** A word is bare when nothing in it was quoted or substituted, so that it may be a reserved word. */
  datatype Token = Word(elems: seq<Elem>, bare: bool) | Operator(text: string)

  /** Where the lexer stands with respect to quoting; `dq` says that double quotes are around. */
  datatype Mode =
    | Unquoted | Escaped | SingleQuoted | DoubleQuoted | DoubleQuotedEscape | Comment
    | Dollar(dq: bool) | DoubleName | SubstitutionStart
    | Braces(dq: bool) | Arithmetic(depth: nat, dq: bool, dollar: bool)
    | Backquoted(dq: bool) | BackquotedEscape(dq: bool)
    | Beyond

  /** The token being built, if any. */
  datatype Pending = Nothing | InWord(elems: seq<Elem>, bare: bool) | InOperator(text: string)

  /** A command whose word is interrupted by a command substitution. */
  datatype Level = Level(done: seq<Token>, elems: seq<Elem>, bare: bool, dq: bool, parens: nat)

  /** `parens` counts the open parentheses of the innermost substitution; `outer` ends with its surroundings. */
  datatype LexState = LexState(done: seq<Token>, pending: Pending, mode: Mode, parens: nat, outer: seq<Level>)

  const START: LexState := LexState([], Nothing, Unquoted, 0, [])

  const CASE: seq<Elem> := [Ch('c', Bare), Ch('a', Bare), Ch('s', Bare), Ch('e', Bare)]

  predicate IsBlank(c: char) { c == ' ' || c == '\t' }

  predicate IsOperatorStart(c: char) {
    c == '&' || c == '|' || c == ';' || c == '<' || c == '>' || c == '(' || c == ')' || c == '\n'
  }

  /** The longer operators of the shell grammar: && || ;; << >> <& >& <> >| */
  predicate ExtendsOperator(text: string, c: char) {
    match c
    case '&' => text == "&" || text == "<" || text == ">"
    case '|' => text == "|" || text == ">"
    case ';' => text == ";"
    case '<' => text == "<"
    case '>' => text == ">" || text == "<"
    case _ => false
  }

  predicate IsLetter(c: char) { 'a' <= c <= 'z' || 'A' <= c <= 'Z' || c == '_' }

  predicate IsDigit(c: char) { '0' <= c <= '9' }

  /** A character that makes `$` a parameter expansion by itself or starts a name. */
  predicate IsParameterStart(c: char) {
    IsLetter(c) || IsDigit(c) || c == '@' || c == '*' || c == '#' || c == '?' || c == '-' || c == '$' || c == '!'
  }

  function Protection(dq: bool): How { if dq then Active else Bare }

  function Back(dq: bool): Mode { if dq then DoubleQuoted else Unquoted }

  /** Ends the token being built. */
  function Delimit(st: LexState): LexState {
    match st.pending
    case Nothing => st
    case InWord(w, bare) => st.(done := st.done + [Word(w, bare)], pending := Nothing)
    case InOperator(t) => st.(done := st.done + [Operator(t)], pending := Nothing)
  }

  /** Starts a word unless one is being built; an operator being built ends first. */
  function EnterWord(st: LexState): LexState {
    if st.pending.InWord? then st else Delimit(st).(pending := InWord([], true))
  }

  /** The word goes on with quoted text, so it is not bare. */
  function EnterQuoted(st: LexState): LexState {
    var st1 := EnterWord(st);
    st1.(pending := InWord(st1.pending.elems, false))
  }

  function Append(st: LexState, c: char, how: How): LexState {
    var st1 := EnterWord(st);
    st1.(pending := InWord(st1.pending.elems + [Ch(c, how)], st1.pending.bare))
  }

  function GiveUp(st: LexState): LexState {
    st.(mode := Beyond)
  }

  function Step(st: LexState, c: char): LexState {
    match st.mode
    case Unquoted => UnquotedStep(st, c)
    case SingleQuoted => if c == '\'' then st.(mode := Unquoted) else Append(st, c, Quoted)
    case DoubleQuoted => DoubleStep(st, c)
    case DoubleQuotedEscape =>
      var st1 := st.(mode := DoubleQuoted);
      if c == '\n' then st1
      else if c == '$' || c == '`' || c == '"' || c == '\\' then Append(st1, c, Quoted)
      else Append(Append(st1, '\\', Quoted), c, Quoted)
    case Escaped =>
      var st1 := st.(mode := Unquoted);
      if c == '\n' then st1 else Append(EnterQuoted(st1), c, Quoted)
    case Comment => if c == '\n' then UnquotedStep(st.(mode := Unquoted), c) else st
    case Dollar(dq) => DollarStep(st, c, dq)
    case DoubleName =>
      if IsLetter(c) || IsDigit(c) then Append(st, c, Active)
      else if c == '\\' then GiveUp(st)
      else DoubleStep(st.(mode := DoubleQuoted), c)
    case SubstitutionStart =>
      if c == '(' then StartArithmetic(st)
      else if c == '\\' then GiveUp(st)
      else UnquotedStep(st.(mode := Unquoted), c)
    case Braces(dq) =>
      if c == '}' then Append(st, c, Protection(dq)).(mode := Back(dq))
      else if c == '\'' || c == '"' || c == '\\' || c == '`' || c == '$' || c == '{' then GiveUp(st)
      else Append(st, c, Protection(dq))
    case Arithmetic(depth, dq, dollar) => ArithmeticStep(st, c, depth, dq, dollar)
    case Backquoted(dq) =>
      if c == '`' then Append(st, c, Protection(dq)).(mode := Back(dq))
      else if c == '\\' then Append(st, c, Protection(dq)).(mode := BackquotedEscape(dq))
      else if c == '\'' || c == '"' || c == '#' || c == '(' || c == '<' then GiveUp(st)
      else Append(st, c, Protection(dq))
    case BackquotedEscape(dq) => Append(st, c, Protection(dq)).(mode := Backquoted(dq))
    case Beyond => st
  }

  function UnquotedStep(st: LexState, c: char): LexState
    requires st.mode == Unquoted
  {
    if st.pending.InOperator? && ExtendsOperator(st.pending.text, c) then
      if c == '<' then GiveUp(st) else st.(pending := InOperator(st.pending.text + [c]))
    else if st.pending == InOperator("(") && c == '(' then GiveUp(st)
    else if st.outer != [] && st.pending == InWord(CASE, true) && (IsBlank(c) || c == '\n') then GiveUp(st)
    else if c == '\'' then EnterQuoted(st).(mode := SingleQuoted)
    else if c == '"' then EnterQuoted(st).(mode := DoubleQuoted)
    else if c == '\\' then st.(mode := Escaped)
    else if c == '$' then Append(st, c, Bare).(mode := Dollar(false))
    else if c == '`' then Append(st, c, Bare).(mode := Backquoted(false))
    else if c == ')' && st.outer != [] && st.parens == 0 then CloseSubstitution(st)
    else if IsOperatorStart(c) then
      Delimit(st).(pending := InOperator([c]), parens := ParensAfter(st, c))
    else if IsBlank(c) then Delimit(st)
    else if c == '#' && !st.pending.InWord? then Delimit(st).(mode := Comment)
    else Append(st, c, Bare)
  }

  function ParensAfter(st: LexState, c: char): nat {
    if c == '(' then st.parens + 1 else if c == ')' && st.parens > 0 then st.parens - 1 else st.parens
  }

  function DoubleStep(st: LexState, c: char): LexState
    requires st.mode == DoubleQuoted
  {
    if c == '"' then st.(mode := Unquoted)
    else if c == '\\' then st.(mode := DoubleQuotedEscape)
    else if c == '$' then Append(st, c, Active).(mode := Dollar(true))
    else if c == '`' then Append(st, c, Active).(mode := Backquoted(true))
    else Append(st, c, Quoted)
  }

  function DollarStep(st: LexState, c: char, dq: bool): LexState {
    if c == '(' then OpenSubstitution(st, dq)
    else if c == '{' then Append(st, c, Protection(dq)).(mode := Braces(dq))
    else if IsParameterStart(c) then Append(st, c, Protection(dq)).(mode := if dq && IsLetter(c) then DoubleName else Back(dq))
    else GiveUp(st)
  }

  function OpenSubstitution(st: LexState, dq: bool): LexState {
    var st1 := EnterWord(st);
    LexState([], Nothing, SubstitutionStart, 0,
             st1.outer + [Level(st1.done, st1.pending.elems, st1.pending.bare, dq, st1.parens)])
  }

  /** Back in the surrounding word, with more elements in it. */
  function Resume(st: LexState, more: seq<Elem>, mode: Mode): LexState
    requires st.outer != []
  {
    var n := |st.outer| - 1;
    var l := st.outer[n];
    LexState(l.done, InWord(l.elems + more, false), mode, l.parens, st.outer[..n])
  }

  function CloseSubstitution(st: LexState): LexState
    requires st.outer != []
  {
    var l := st.outer[|st.outer| - 1];
    Resume(st, [Substitution(Delimit(st).done, Protection(l.dq))], Back(l.dq))
  }

  function StartArithmetic(st: LexState): LexState {
    if st.outer == [] then GiveUp(st)
    else
      var dq := st.outer[|st.outer| - 1].dq;
      Resume(st, [Ch('(', Protection(dq)), Ch('(', Protection(dq))], Arithmetic(2, dq, false))
  }

  /** Arithmetic ends with two closing parentheses in a row; quotes and nested expansions are not followed. */
  function ArithmeticStep(st: LexState, c: char, depth: nat, dq: bool, dollar: bool): LexState {
    var st1 := Append(st, c, Protection(dq));
    if c == '\'' || c == '"' || c == '\\' || c == '`' || (dollar && (c == '(' || c == '{')) then GiveUp(st)
    else if depth <= 1 then (if c == ')' then st1.(mode := Back(dq)) else GiveUp(st))
    else
      var inside := if c == '(' then depth + 1 else if c == ')' then depth - 1 else depth;
      st1.(mode := Arithmetic(inside, dq, c == '$'))
  }

  function Scan(st: LexState, s: string): LexState
    decreases |s|
  {
    if s == [] then st else Scan(Step(st, s[0]), s[1..])
  }

  /** `NotRead` is the answer for text that uses a construct this lexer gives up on. */
  datatype LexResult = Tokens(tokens: seq<Token>) | Unterminated | NotRead

  function Finish(st: LexState): LexResult {
    if st.mode == Beyond then NotRead
    else if st.outer != [] then Unterminated
    else
      match st.mode
      case Unquoted | Comment => Tokens(Delimit(st).done)
      case Dollar(dq) => if dq then Unterminated else Tokens(Delimit(st).done)
      case Escaped => Tokens(Delimit(Append(st, '\\', Bare)).done)
      case _ => Unterminated
  }

  function Lex(s: string): LexResult {
    Finish(Scan(START, s))
  }

  lemma {:induction false} ScanConcat(st: LexState, a: string, b: string)
    ensures Scan(st, a + b) == Scan(Scan(st, a), b)
    decreases |a|
  {
    if a == [] {
      assert a + b == b;
    } else {
      assert (a + b)[0] == a[0] && (a + b)[1..] == a[1..] + b;
      ScanConcat(Step(st, a[0]), a[1..], b);
    }
  }

  // ---- where values go ----

  /** An unquoted position of a command, at the top or inside a command substitution. */
  predicate AtUnquoted(st: LexState) {
    st.mode == Unquoted || st.mode == SubstitutionStart
  }

  /** What reading `v` as literal text of the current word means, whatever `v` contains. */
  function Literal(v: string): (r: seq<Elem>)
    ensures |r| == |v| && forall i :: 0 <= i < |v| ==> r[i] == Ch(v[i], Quoted)
  {
    seq(|v|, i requires 0 <= i < |v| => Ch(v[i], Quoted))
  }

  function TakeLiteral(st: LexState, v: string): LexState {
    var st1 := EnterWord(st);
    st1.(pending := InWord(st1.pending.elems + Literal(v), false), mode := Unquoted)
  }
}
