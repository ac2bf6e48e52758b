/**
  sh.c's parser as functions of the input and a position: what gettoken, peek
  and the parse functions compute.  A panic of the shell is a result.
 */
module ShellGrammar {
  // A piece of the input: from q up to eq.
  datatype Span = Span(q: nat, eq: nat)

  // O_RDONLY on descriptor 0, or O_WRONLY|O_CREATE on descriptor 1; >> opens like >.
  datatype Direction = Input | Output

  // W is Span in what the parser builds, string in what it means.
  datatype Cmd<W> =
    | Exec(args: seq<W>)
    | Redir(cmd: Cmd<W>, file: W, dir: Direction)
    | Pipe(left: Cmd<W>, right: Cmd<W>)
    | List(left: Cmd<W>, right: Cmd<W>)
    | Back(cmd: Cmd<W>)

  datatype Panic = Syntax | MissingFile | MissingParen | TooManyArgs | NotABlock

  datatype Result<T> = Ok(value: T, pos: nat) | Err(panic: Panic)

  datatype Token = End | Symbol(c: char) | Append | Word

  datatype Lexeme = Lexeme(token: Token, span: Span, next: nat)

  const MAXARGS := 10

  /*** Lexing ***/

  predicate White(c: char) {
    c == ' ' || c == '\t' || c == '\r' || c == '\n' || c == '\U{000B}'
  }

  predicate Special(c: char) {
    c == '<' || c == '|' || c == '>' || c == '&' || c == ';' || c == '(' || c == ')'
  }

  // A character of a word.
  predicate Ordinary(c: char) {
    !White(c) && !Special(c)
  }

  function SkipWhite(s: string, i: nat): (j: nat)
    requires i <= |s|
    ensures i <= j <= |s|
    decreases |s| - i
  {
    if i < |s| && White(s[i]) then SkipWhite(s, i + 1) else i
  }

  function WordEnd(s: string, i: nat): (j: nat)
    requires i <= |s|
    ensures i <= j <= |s|
    decreases |s| - i
  {
    if i < |s| && Ordinary(s[i]) then WordEnd(s, i + 1) else i
  }

  // The token at i, which is not white space, and the end of its text.
  function TokenAt(s: string, i: nat): (r: (Token, nat))
    requires i <= |s|
    ensures i <= r.1 <= |s| && (i < |s| ==> i < r.1 || White(s[i]))
  {
    if i == |s| then (End, i)
    else if s[i] == '>' then (if i + 1 < |s| && s[i + 1] == '>' then (Append, i + 2) else (Symbol('>'), i + 1))
    else if Special(s[i]) then (Symbol(s[i]), i + 1)
    else (Word, WordEnd(s, i))
  }

  function GetToken(s: string, i: nat): (r: Lexeme)
    requires i <= |s|
    ensures i <= r.next <= |s|
    ensures SkipWhite(s, i) < |s| ==> i < r.next
  {
    var q := SkipWhite(s, i);
    var t := TokenAt(s, q);
    SkipWhiteStops(s, i);
    Lexeme(t.0, Span(q, t.1), SkipWhite(s, t.1))
  }

  lemma {:induction false} SkipWhiteStops(s: string, i: nat)
    requires i <= |s|
    ensures SkipWhite(s, i) < |s| ==> !White(s[SkipWhite(s, i)])
    decreases |s| - i
  {
    if i < |s| && White(s[i]) {
      SkipWhiteStops(s, i + 1);
    }
  }

  // The next character that is not white space is one of toks.
  predicate Peek(s: string, i: nat, toks: string)
    requires i <= |s|
  {
    SkipWhite(s, i) < |s| && s[SkipWhite(s, i)] in toks
  }

  /*** Parsing ***/

  datatype Redirection = Redirection(file: Span, dir: Direction)

  // The redirections around a command; the last one is outermost.
  function Wrap(c: Cmd<Span>, rs: seq<Redirection>): Cmd<Span> {
    if rs == [] then c else Redir(Wrap(c, rs[..|rs| - 1]), rs[|rs| - 1].file, rs[|rs| - 1].dir)
  }

  function ParseRedirs(s: string, i: nat, rs: seq<Redirection>): (r: Result<seq<Redirection>>)
    requires i <= |s|
    ensures r.Ok? ==> i <= r.pos <= |s|
    decreases |s| - i
  {
    if !Peek(s, i, "<>") then Ok(rs, SkipWhite(s, i))
    else
      var op := GetToken(s, i);
      var file := GetToken(s, op.next);
      if !file.token.Word? then Err(MissingFile)
      else ParseRedirs(s, file.next, rs + [Redirection(file.span, if op.token == Symbol('<') then Input else Output)])
  }

  // The loop of parseexec, with the arguments and redirections found so far.
  function ParseArgs(s: string, i: nat, args: seq<Span>, rs: seq<Redirection>): (r: Result<Cmd<Span>>)
    requires i <= |s|
    ensures r.Ok? ==> i <= r.pos <= |s|
    decreases |s| - i
  {
    if Peek(s, i, "|)&;") then Ok(Wrap(Exec(args), rs), SkipWhite(s, i))
    else
      var t := GetToken(s, i);
      if t.token.End? then Ok(Wrap(Exec(args), rs), t.next)
      else if !t.token.Word? then Err(Syntax)
      else if |args| + 1 >= MAXARGS then Err(TooManyArgs)
      else match ParseRedirs(s, t.next, rs)
        case Err(e) => Err(e)
        case Ok(rs1, j) => ParseArgs(s, j, args + [t.span], rs1)
  }

  function ParseExec(s: string, i: nat): (r: Result<Cmd<Span>>)
    requires i <= |s|
    ensures r.Ok? ==> i <= r.pos <= |s|
    decreases |s| - i, 1
  {
    if Peek(s, i, "(") then ParseBlock(s, SkipWhite(s, i))
    else match ParseRedirs(s, i, [])
      case Err(e) => Err(e)
      case Ok(rs, j) => ParseArgs(s, j, [], rs)
  }

  function ParseBlock(s: string, i: nat): (r: Result<Cmd<Span>>)
    requires i <= |s|
    ensures r.Ok? ==> i <= r.pos <= |s|
    decreases |s| - i, 0
  {
    if !Peek(s, i, "(") then Err(NotABlock)
    else match ParseLine(s, GetToken(s, i).next)
      case Err(e) => Err(e)
      case Ok(c, j) =>
        if !Peek(s, j, ")") then Err(MissingParen)
        else match ParseRedirs(s, GetToken(s, j).next, [])
          case Err(e) => Err(e)
          case Ok(rs, k) => Ok(Wrap(c, rs), k)
  }

  function ParsePipe(s: string, i: nat): (r: Result<Cmd<Span>>)
    requires i <= |s|
    ensures r.Ok? ==> i <= r.pos <= |s|
    decreases |s| - i, 2
  {
    match ParseExec(s, i)
    case Err(e) => Err(e)
    case Ok(c, j) =>
      if !Peek(s, j, "|") then Ok(c, SkipWhite(s, j))
      else match ParsePipe(s, GetToken(s, j).next)
        case Err(e) => Err(e)
        case Ok(right, k) => Ok(Pipe(c, right), k)
  }

  // The loop of parseline.
  function ParseBacks(s: string, i: nat, c: Cmd<Span>): (r: (Cmd<Span>, nat))
    requires i <= |s|
    ensures i <= r.1 <= |s|
    decreases |s| - i
  {
    if Peek(s, i, "&") then ParseBacks(s, GetToken(s, i).next, Back(c)) else (c, SkipWhite(s, i))
  }

  function ParseLine(s: string, i: nat): (r: Result<Cmd<Span>>)
    requires i <= |s|
    ensures r.Ok? ==> i <= r.pos <= |s|
    decreases |s| - i, 3
  {
    match ParsePipe(s, i)
    case Err(e) => Err(e)
    case Ok(c, j) =>
      var (b, k) := ParseBacks(s, j, c);
      if !Peek(s, k, ";") then Ok(b, SkipWhite(s, k))
      else match ParseLine(s, GetToken(s, k).next)
        case Err(e) => Err(e)
        case Ok(right, l) => Ok(List(b, right), l)
  }

  function ParseCmd(s: string): (r: Result<Cmd<Span>>)
    ensures r.Ok? ==> r.pos == |s|
  {
    match ParseLine(s, 0)
    case Err(e) => Err(e)
    case Ok(c, j) => if SkipWhite(s, j) != |s| then Err(Syntax) else Ok(c, |s|)
  }

  /*** What a parsed command says ***/

  function Read(s: string, w: Span): string {
    if w.q <= w.eq <= |s| then s[w.q..w.eq] else ""
  }

  function Text(s: string, c: Cmd<Span>): Cmd<string> {
    match c
    case Exec(args) => Exec(seq(|args|, i requires 0 <= i < |args| => Read(s, args[i])))
    case Redir(c1, file, dir) => Redir(Text(s, c1), Read(s, file), dir)
    case Pipe(l, r) => Pipe(Text(s, l), Text(s, r))
    case List(l, r) => List(Text(s, l), Text(s, r))
    case Back(c1) => Back(Text(s, c1))
  }
}
