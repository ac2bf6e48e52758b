/**
  Command lines as people type them: words and redirections mixed, pipes,
  lists, commands in the background, blocks in parentheses.  The shell accepts
  exactly these and reads each as what it means.
 */
module ShellSyntax {
  import opened ShellGrammar
  import opened ShellTokens

  datatype Item =
    | Arg(w: string)
    | From(w: string)   // < w
    | Into(w: string)   // > w
    | Onto(w: string)   // >> w

  datatype Part = Simple(items: seq<Item>) | Block(line: Line, items: seq<Item>)

  datatype Pipeline = Only(part: Part) | Piped(part: Part, more: Pipeline)

  // A pipeline, a number of ampersands, and perhaps a semicolon and more.
  datatype Line = Last(pipe: Pipeline, backs: nat) | Seq(pipe: Pipeline, backs: nat, more: Line)

  /*** Its tokens, and the rest behind them ***/

  function ItemToks(x: Item, rest: seq<Tok>): seq<Tok> {
    match x
    case Arg(w) => [Name(w)] + rest
    case From(w) => [Mark('<')] + ([Name(w)] + rest)
    case Into(w) => [Mark('>')] + ([Name(w)] + rest)
    case Onto(w) => [Double] + ([Name(w)] + rest)
  }

  function ItemsToks(items: seq<Item>, rest: seq<Tok>): seq<Tok> {
    if items == [] then rest else ItemToks(items[0], ItemsToks(items[1..], rest))
  }

  function BackToks(n: nat, rest: seq<Tok>): seq<Tok> {
    if n == 0 then rest else [Mark('&')] + BackToks(n - 1, rest)
  }

  function PartToks(p: Part, rest: seq<Tok>): seq<Tok>
    decreases p
  {
    match p
    case Simple(items) => ItemsToks(items, rest)
    case Block(line, items) => [Mark('(')] + LineToks(line, [Mark(')')] + ItemsToks(items, rest))
  }

  function PipeToks(p: Pipeline, rest: seq<Tok>): seq<Tok>
    decreases p
  {
    match p
    case Only(part) => PartToks(part, rest)
    case Piped(part, more) => PartToks(part, [Mark('|')] + PipeToks(more, rest))
  }

  function LineToks(l: Line, rest: seq<Tok>): seq<Tok>
    decreases l
  {
    match l
    case Last(pipe, backs) => PipeToks(pipe, BackToks(backs, rest))
    case Seq(pipe, backs, more) => PipeToks(pipe, BackToks(backs, [Mark(';')] + LineToks(more, rest)))
  }

  // What the shell can represent: words of ordinary characters, at most nine to a command.
  function ArgCount(items: seq<Item>): nat {
    if items == [] then 0 else (if items[0].Arg? then 1 else 0) + ArgCount(items[1..])
  }

  predicate ItemsFit(items: seq<Item>) {
    forall k | 0 <= k < |items| :: OrdinaryWord(items[k].w)
  }

  predicate PartFits(p: Part) {
    match p
    case Simple(items) => ItemsFit(items) && ArgCount(items) < MAXARGS
    case Block(line, items) => LineFits(line) && ItemsFit(items) && ArgCount(items) == 0
  }

  predicate PipeFits(p: Pipeline) {
    PartFits(p.part) && (p.Piped? ==> PipeFits(p.more))
  }

  predicate LineFits(l: Line) {
    PipeFits(l.pipe) && (l.Seq? ==> LineFits(l.more))
  }

  lemma ItemsCons(x: Item, items: seq<Item>, rest: seq<Tok>)
    ensures ItemsToks([x] + items, rest) == ItemToks(x, ItemsToks(items, rest))
    ensures ArgCount([x] + items) == (if x.Arg? then 1 else 0) + ArgCount(items)
    ensures ItemsFit(items) && OrdinaryWord(x.w) ==> ItemsFit([x] + items)
  {
    assert ([x] + items)[1..] == items;
  }

  /*** Its meaning ***/

  // One more argument for the command inside the redirections.
  function AddArg(c: Cmd<string>, w: string): Cmd<string> {
    match c
    case Exec(args) => Exec(args + [w])
    case Redir(c1, file, dir) => Redir(AddArg(c1, w), file, dir)
    case _ => c
  }

  // A word is one more argument; a redirection goes around all there is so far.
  function Apply(c: Cmd<string>, x: Item): Cmd<string> {
    match x
    case Arg(w) => AddArg(c, w)
    case From(w) => Redir(c, w, Input)
    case Into(w) => Redir(c, w, Output)
    case Onto(w) => Redir(c, w, Output)
  }

  function ApplyAll(c: Cmd<string>, items: seq<Item>): Cmd<string>
    decreases |items|
  {
    if items == [] then c else ApplyAll(Apply(c, items[0]), items[1..])
  }

  function Backed(c: Cmd<string>, n: nat): Cmd<string>
    decreases n
  {
    if n == 0 then c else Backed(Back(c), n - 1)
  }

  function PartMeans(p: Part): Cmd<string> {
    match p
    case Simple(items) => ApplyAll(Exec([]), items)
    case Block(line, items) => ApplyAll(LineMeans(line), items)
  }

  function PipeMeans(p: Pipeline): Cmd<string> {
    match p
    case Only(part) => PartMeans(part)
    case Piped(part, more) => Pipe(PartMeans(part), PipeMeans(more))
  }

  function LineMeans(l: Line): Cmd<string> {
    match l
    case Last(pipe, backs) => Backed(PipeMeans(pipe), backs)
    case Seq(pipe, backs, more) => List(Backed(PipeMeans(pipe), backs), LineMeans(more))
  }

  /*** What comes next ***/

  // A character for what comes next: 'a' for a word, a line feed for nothing.
  function First(toks: seq<Tok>): char {
    if toks == [] then '\n'
    else match toks[0] case Mark(c) => c case Double => '>' case Name(_) => 'a'
  }

  predicate AllSpecial(toks: string) {
    forall k | 0 <= k < |toks| :: Special(toks[k])
  }

  lemma PeekFirst(s: string, i: nat, toks: string)
    requires i <= |s| && AllSpecial(toks)
    ensures Peek(s, i, toks) <==> First(Toks(s, i)) in toks
  {
    if Peek(s, i, toks) {
      assert Special(s[SkipWhite(s, i)]);
    }
    if First(Toks(s, i)) in toks {
      assert Special(First(Toks(s, i)));
    }
  }

  // The part, pipeline or line is not read on into these tokens.
  predicate EndsPart(p: Part, rest: seq<Tok>) {
    if p.Simple? then rest == [] || First(rest) in "|)&;" else First(rest) !in "<>"
  }

  predicate EndsPipe(p: Pipeline, rest: seq<Tok>) {
    match p
    case Only(part) => EndsPart(part, rest) && First(rest) != '|'
    case Piped(_, more) => EndsPipe(more, rest)
  }

  predicate EndsLine(l: Line, rest: seq<Tok>) {
    match l
    case Last(pipe, backs) => First(rest) !in "&;" && (backs == 0 ==> EndsPipe(pipe, rest))
    case Seq(_, _, more) => EndsLine(more, rest)
  }

  lemma {:induction false} PipeAlwaysEnds(p: Pipeline, rest: seq<Tok>)
    requires rest == [] || First(rest) in ")&;"
    ensures EndsPipe(p, rest)
    decreases p
  {
    if p.Piped? {
      PipeAlwaysEnds(p.more, rest);
    }
  }

  // At the end of the text and before a closing parenthesis every line ends.
  lemma {:induction false} LineAlwaysEnds(l: Line, rest: seq<Tok>)
    requires rest == [] || First(rest) == ')'
    ensures EndsLine(l, rest)
    decreases l
  {
    if l.Seq? {
      LineAlwaysEnds(l.more, rest);
    } else {
      PipeAlwaysEnds(l.pipe, rest);
    }
  }

  // The parser gives c and leaves these tokens.
  ghost predicate Gives(s: string, r: Result<Cmd<Span>>, c: Cmd<string>, rest: seq<Tok>) {
    r.Ok? && r.pos <= |s| && Text(s, r.value) == c && Toks(s, r.pos) == rest
  }

  /*** Redirections ***/

  // One round of parseredirs.
  lemma RedirRound(s: string, i: nat, rs: seq<Redirection>)
    requires i <= |s| && First(Toks(s, i)) in "<>"
    ensures SkipWhite(s, i) < |s|
    ensures var op := GetToken(s, i); var file := GetToken(s, op.next);
            var r := Redirection(file.span, if op.token == Symbol('<') then Input else Output);
            ParseRedirs(s, i, rs) ==
              if !file.token.Word? then Err(MissingFile) else ParseRedirs(s, file.next, rs + [r])
  {
    PeekFirst(s, i, "<>");
  }

  // The redirection x; it goes on at k.
  lemma FileStep(s: string, i: nat, rs: seq<Redirection>, x: Item, rest: seq<Tok>) returns (r: Redirection, k: nat)
    requires i <= |s| && !x.Arg? && Toks(s, i) == ItemToks(x, rest)
    ensures i < k <= |s| && Toks(s, k) == rest && ParseRedirs(s, i, rs) == ParseRedirs(s, k, rs + [r])
    ensures Read(s, r.file) == x.w && r.dir == if x.From? then Input else Output
  {
    RedirRound(s, i, rs);
    ToksStep(s, i, Toks(s, i)[0], [Name(x.w)] + rest);
    var op := GetToken(s, i);
    ToksStep(s, op.next, Name(x.w), rest);
    var file := GetToken(s, op.next);
    r, k := Redirection(file.span, if op.token == Symbol('<') then Input else Output), file.next;
  }

  lemma {:induction false} WrapAdd(s: string, args: seq<Span>, rs: seq<Redirection>, a: Span)
    ensures Text(s, Wrap(Exec(args + [a]), rs)) == AddArg(Text(s, Wrap(Exec(args), rs)), Read(s, a))
    decreases |rs|
  {
    if rs == [] {
      assert Text(s, Exec(args + [a])).args == Text(s, Exec(args)).args + [Read(s, a)];
    } else {
      WrapAdd(s, args, rs[..|rs| - 1], a);
    }
  }

  lemma WrapMore(s: string, c: Cmd<Span>, rs: seq<Redirection>, r: Redirection)
    ensures Text(s, Wrap(c, rs + [r])) == Redir(Text(s, Wrap(c, rs)), Read(s, r.file), r.dir)
  {
    assert (rs + [r])[..|rs|] == rs;
  }

  // The redirections behind a block.
  lemma {:induction false} FilesTrip(s: string, i: nat, c: Cmd<Span>, rs: seq<Redirection>, items: seq<Item>,
                                     rest: seq<Tok>)
    requires i <= |s| && ArgCount(items) == 0 && Toks(s, i) == ItemsToks(items, rest) && First(rest) !in "<>"
    ensures var r := ParseRedirs(s, i, rs);
            && r.Ok? && Toks(s, r.pos) == rest
            && Text(s, Wrap(c, r.value)) == ApplyAll(Text(s, Wrap(c, rs)), items)
    decreases |items|
  {
    if items == [] {
      PeekFirst(s, i, "<>");
      ToksSkip(s, i);
    } else {
      var x := items[0];
      var r, k := FileStep(s, i, rs, x, ItemsToks(items[1..], rest));
      WrapMore(s, c, rs, r);
      FilesTrip(s, k, c, rs + [r], items[1..], rest);
    }
  }

  /*** Simple commands ***/

  // parseexec from a place where redirections may stand, with what was found so far.
  function After(s: string, i: nat, args: seq<Span>, rs: seq<Redirection>): Result<Cmd<Span>>
    requires i <= |s|
  {
    match ParseRedirs(s, i, rs)
    case Err(e) => Err(e)
    case Ok(rs1, j) => ParseArgs(s, j, args, rs1)
  }

  lemma NoFiles(s: string, i: nat, rs: seq<Redirection>)
    requires i <= |s| && First(Toks(s, i)) !in "<>"
    ensures ParseRedirs(s, i, rs) == Ok(rs, SkipWhite(s, i)) && Toks(s, SkipWhite(s, i)) == Toks(s, i)
  {
    PeekFirst(s, i, "<>");
    ToksSkip(s, i);
  }

  lemma ArgStep(s: string, i: nat, args: seq<Span>, rs: seq<Redirection>, w: string, rest: seq<Tok>)
    returns (a: Span, k: nat)
    requires i <= |s| && |args| + 1 < MAXARGS && Toks(s, i) == [Name(w)] + rest
    ensures i < k <= |s| && Toks(s, k) == rest && Read(s, a) == w
    ensures After(s, i, args, rs) == After(s, k, args + [a], rs)
  {
    NoFiles(s, i, rs);
    var j := SkipWhite(s, i);
    ToksStep(s, i, Name(w), rest);
    SkipTwice(s, i);
    PeekFirst(s, j, "|)&;");
    var t := GetToken(s, j);
    a, k := t.span, t.next;
    assert t.token.Word?;
    assert ParseArgs(s, j, args, rs) == After(s, k, args + [a], rs);
  }

  lemma ArgsStop(s: string, i: nat, args: seq<Span>, rs: seq<Redirection>)
    requires i <= |s| && (Toks(s, i) == [] || First(Toks(s, i)) in "|)&;")
    ensures Gives(s, After(s, i, args, rs), Text(s, Wrap(Exec(args), rs)), Toks(s, i))
  {
    NoFiles(s, i, rs);
    var j := SkipWhite(s, i);
    SkipTwice(s, i);
    ToksSkip(s, j);
    PeekFirst(s, j, "|)&;");
  }

  lemma {:induction false} ItemsTrip(s: string, i: nat, args: seq<Span>, rs: seq<Redirection>, items: seq<Item>,
                                     rest: seq<Tok>)
    requires i <= |s| && |args| + ArgCount(items) < MAXARGS && Toks(s, i) == ItemsToks(items, rest)
    requires rest == [] || First(rest) in "|)&;"
    ensures Gives(s, After(s, i, args, rs), ApplyAll(Text(s, Wrap(Exec(args), rs)), items), rest)
    decreases |items|
  {
    if items == [] {
      ArgsStop(s, i, args, rs);
    } else {
      var x, more := items[0], ItemsToks(items[1..], rest);
      if x.Arg? {
        var a, k := ArgStep(s, i, args, rs, x.w, more);
        WrapAdd(s, args, rs, a);
        ItemsTrip(s, k, args + [a], rs, items[1..], rest);
      } else {
        var r, k := FileStep(s, i, rs, x, more);
        WrapMore(s, Exec(args), rs, r);
        ItemsTrip(s, k, args, rs + [r], items[1..], rest);
      }
    }
  }

  lemma ExecSimple(s: string, i: nat)
    requires i <= |s| && First(Toks(s, i)) != '('
    ensures ParseExec(s, i) == After(s, i, [], [])
  {
    PeekFirst(s, i, "(");
  }

  lemma SimpleTrip(s: string, i: nat, items: seq<Item>, rest: seq<Tok>)
    requires i <= |s| && PartFits(Simple(items)) && Toks(s, i) == ItemsToks(items, rest)
    requires rest == [] || First(rest) in "|)&;"
    ensures Gives(s, ParseExec(s, i), ApplyAll(Exec([]), items), rest)
  {
    ExecSimple(s, i);
    ItemsTrip(s, i, [], [], items, rest);
    assert Text(s, Wrap(Exec([]), [])) == Exec([]);
  }

  /*** Blocks, pipelines and lines ***/

  // A token of one character is at i, and these are behind it.
  ghost predicate MarkAt(s: string, i: nat, c: char, k: nat, rest: seq<Tok>) {
    i <= |s| && Peek(s, i, [c]) && GetToken(s, i).next == k && i < k <= |s| && Toks(s, k) == rest
  }

  lemma MarkStep(s: string, i: nat, c: char, rest: seq<Tok>) returns (k: nat)
    requires i <= |s| && Special(c) && Toks(s, i) == [Mark(c)] + rest
    ensures MarkAt(s, i, c, k, rest)
  {
    ToksStep(s, i, Mark(c), rest);
    PeekFirst(s, i, [c]);
    k := GetToken(s, i).next;
  }

  lemma {:induction false} BlockTrip(s: string, i: nat, p: Part, rest: seq<Tok>)
    requires i <= |s| && p.Block? && PartFits(p) && Toks(s, i) == PartToks(p, rest) && EndsPart(p, rest)
    ensures Gives(s, ParseExec(s, i), PartMeans(p), rest)
    decreases p, 0
  {
    var close := ItemsToks(p.items, rest);
    var inner := LineToks(p.line, [Mark(')')] + close);
    var j := SkipWhite(s, i);
    ToksSkip(s, i);
    PeekFirst(s, i, "(");
    var k := MarkStep(s, j, '(', inner);
    LineAlwaysEnds(p.line, [Mark(')')] + close);
    LineTrip(s, k, p.line, [Mark(')')] + close);
    var c := ParseLine(s, k);
    var e := MarkStep(s, c.pos, ')', close);
    FilesTrip(s, e, c.value, [], p.items, rest);
  }

  lemma {:induction false} PartTrip(s: string, i: nat, p: Part, rest: seq<Tok>)
    requires i <= |s| && PartFits(p) && Toks(s, i) == PartToks(p, rest) && EndsPart(p, rest)
    ensures Gives(s, ParseExec(s, i), PartMeans(p), rest)
    decreases p, 1
  {
    if p.Simple? {
      SimpleTrip(s, i, p.items, rest);
    } else {
      BlockTrip(s, i, p, rest);
    }
  }

  lemma PipeEnds(s: string, i: nat, c: Cmd<string>, rest: seq<Tok>)
    requires i <= |s| && Gives(s, ParseExec(s, i), c, rest) && First(rest) != '|'
    ensures Gives(s, ParsePipe(s, i), c, rest)
  {
    var j := ParseExec(s, i).pos;
    PeekFirst(s, j, "|");
    ToksSkip(s, j);
  }

  lemma PipeJoins(s: string, i: nat, c: Cmd<string>, c2: Cmd<string>, k: nat, more: seq<Tok>, rest: seq<Tok>)
    requires i <= |s| && ParseExec(s, i).Ok? && Text(s, ParseExec(s, i).value) == c
    requires MarkAt(s, ParseExec(s, i).pos, '|', k, more) && Gives(s, ParsePipe(s, k), c2, rest)
    ensures Gives(s, ParsePipe(s, i), Pipe(c, c2), rest)
  {
  }

  lemma {:induction false} PipeTrip(s: string, i: nat, p: Pipeline, rest: seq<Tok>)
    requires i <= |s| && PipeFits(p) && Toks(s, i) == PipeToks(p, rest) && EndsPipe(p, rest)
    ensures Gives(s, ParsePipe(s, i), PipeMeans(p), rest)
    decreases p, 2
  {
    if p.Only? {
      PartTrip(s, i, p.part, rest);
      PipeEnds(s, i, PipeMeans(p), rest);
    } else {
      var more := PipeToks(p.more, rest);
      PartTrip(s, i, p.part, [Mark('|')] + more);
      var k := MarkStep(s, ParseExec(s, i).pos, '|', more);
      PipeTrip(s, k, p.more, rest);
      PipeJoins(s, i, PartMeans(p.part), PipeMeans(p.more), k, more, rest);
    }
  }

  lemma BackStep(s: string, i: nat, c: Cmd<Span>, rest: seq<Tok>) returns (k: nat)
    requires i <= |s| && Toks(s, i) == [Mark('&')] + rest
    ensures i < k <= |s| && Toks(s, k) == rest && ParseBacks(s, i, c) == ParseBacks(s, k, Back(c))
  {
    k := MarkStep(s, i, '&', rest);
  }

  lemma BackStop(s: string, i: nat, c: Cmd<Span>)
    requires i <= |s| && First(Toks(s, i)) != '&'
    ensures ParseBacks(s, i, c).0 == c && Toks(s, ParseBacks(s, i, c).1) == Toks(s, i)
  {
    PeekFirst(s, i, "&");
    ToksSkip(s, i);
  }

  lemma {:induction false} BacksTrip(s: string, i: nat, c: Cmd<Span>, n: nat, rest: seq<Tok>, r: (Cmd<Span>, nat))
    requires i <= |s| && Toks(s, i) == BackToks(n, rest) && First(rest) != '&' && r == ParseBacks(s, i, c)
    ensures Text(s, r.0) == Backed(Text(s, c), n) && Toks(s, r.1) == rest
    decreases n
  {
    if n == 0 {
      BackStop(s, i, c);
    } else {
      var k := BackStep(s, i, c, BackToks(n - 1, rest));
      BacksTrip(s, k, Back(c), n - 1, rest, r);
      assert Backed(Text(s, c), n) == Backed(Text(s, Back(c)), n - 1);
    }
  }

  // A pipeline and its ampersands; then the line goes on or not.
  lemma LineStarts(s: string, i: nat, c: Cmd<string>, n: nat, rest: seq<Tok>) returns (b: Cmd<Span>, j: nat)
    requires i <= |s| && Gives(s, ParsePipe(s, i), c, BackToks(n, rest)) && First(rest) != '&'
    ensures Text(s, b) == Backed(c, n) && j <= |s| && Toks(s, j) == rest
    ensures ParsePipe(s, i).Ok? && ParseBacks(s, ParsePipe(s, i).pos, ParsePipe(s, i).value) == (b, j)
  {
    var r := ParsePipe(s, i);
    BacksTrip(s, r.pos, r.value, n, rest, ParseBacks(s, r.pos, r.value));
    b, j := ParseBacks(s, r.pos, r.value).0, ParseBacks(s, r.pos, r.value).1;
  }

  lemma LineEnds(s: string, i: nat, c: Cmd<string>, b: Cmd<Span>, j: nat, rest: seq<Tok>)
    requires i <= |s| && ParsePipe(s, i).Ok? && ParseBacks(s, ParsePipe(s, i).pos, ParsePipe(s, i).value) == (b, j)
    requires Text(s, b) == c && Toks(s, j) == rest && First(rest) != ';'
    ensures Gives(s, ParseLine(s, i), c, rest)
  {
    PeekFirst(s, j, ";");
    ToksSkip(s, j);
  }

  lemma LineJoins(s: string, i: nat, c: Cmd<string>, b: Cmd<Span>, j: nat, c2: Cmd<string>, k: nat, more: seq<Tok>,
                  rest: seq<Tok>)
    requires i <= |s| && ParsePipe(s, i).Ok? && ParseBacks(s, ParsePipe(s, i).pos, ParsePipe(s, i).value) == (b, j)
    requires Text(s, b) == c && MarkAt(s, j, ';', k, more) && Gives(s, ParseLine(s, k), c2, rest)
    ensures Gives(s, ParseLine(s, i), List(c, c2), rest)
  {
  }

  lemma PipeInLine(l: Line, next: seq<Tok>)
    requires if l.Last? then EndsLine(l, next) else First(next) == ';'
    ensures EndsPipe(l.pipe, BackToks(l.backs, next))
  {
    if l.backs > 0 || l.Seq? {
      assert First(BackToks(l.backs, next)) in "&;";
      PipeAlwaysEnds(l.pipe, BackToks(l.backs, next));
    }
  }

  /** A line is read as what it means, wherever it ends. */
  lemma {:induction false} LineTrip(s: string, i: nat, l: Line, rest: seq<Tok>)
    requires i <= |s| && LineFits(l) && Toks(s, i) == LineToks(l, rest) && EndsLine(l, rest)
    ensures Gives(s, ParseLine(s, i), LineMeans(l), rest)
    decreases l, 3
  {
    var next := if l.Last? then rest else [Mark(';')] + LineToks(l.more, rest);
    PipeInLine(l, next);
    PipeTrip(s, i, l.pipe, BackToks(l.backs, next));
    var b, j := LineStarts(s, i, PipeMeans(l.pipe), l.backs, next);
    if l.Last? {
      LineEnds(s, i, LineMeans(l), b, j, rest);
    } else {
      var k := MarkStep(s, j, ';', LineToks(l.more, rest));
      LineTrip(s, k, l.more, rest);
      LineJoins(s, i, Backed(PipeMeans(l.pipe), l.backs), b, j, LineMeans(l.more), k, LineToks(l.more, rest), rest);
    }
  }

  /*** Whatever is read is such a line ***/

  function ItemOf(op: Tok, w: string): Item {
    if op == Mark('<') then From(w) else if op == Mark('>') then Into(w) else Onto(w)
  }

  // A token and a word behind it.
  lemma TwoToks(s: string, i: nat) returns (w: string, rest: seq<Tok>)
    requires i <= |s| && First(Toks(s, i)) in "<>" && GetToken(s, GetToken(s, i).next).token.Word?
    ensures Toks(s, i) == ItemToks(ItemOf(TokAt(s, i), w), rest) && OrdinaryWord(w)
  {
    ToksHead(s, i);
    var j := GetToken(s, i).next;
    ToksHead(s, j);
    w, rest := TokAt(s, j).w, Toks(s, GetToken(s, j).next);
  }

  lemma FileFound(s: string, i: nat, rs: seq<Redirection>) returns (x: Item, r: Redirection, k: nat)
    requires i <= |s| && First(Toks(s, i)) in "<>" && ParseRedirs(s, i, rs).Ok?
    ensures i < k <= |s| && Toks(s, i) == ItemToks(x, Toks(s, k)) && !x.Arg? && OrdinaryWord(x.w)
    ensures ParseRedirs(s, i, rs) == ParseRedirs(s, k, rs + [r])
  {
    RedirRound(s, i, rs);
    var w, rest := TwoToks(s, i);
    x := ItemOf(TokAt(s, i), w);
    r, k := FileStep(s, i, rs, x, rest);
  }

  lemma {:induction false} FilesFound(s: string, i: nat, rs: seq<Redirection>) returns (items: seq<Item>)
    requires i <= |s| && ParseRedirs(s, i, rs).Ok?
    ensures Toks(s, i) == ItemsToks(items, Toks(s, ParseRedirs(s, i, rs).pos)) && ItemsFit(items)
    ensures ArgCount(items) == 0 && First(Toks(s, ParseRedirs(s, i, rs).pos)) !in "<>"
    decreases |s| - i
  {
    if First(Toks(s, i)) in "<>" {
      var x, r, k := FileFound(s, i, rs);
      var more := FilesFound(s, k, rs + [r]);
      ItemsCons(x, more, Toks(s, ParseRedirs(s, i, rs).pos));
      items := [x] + more;
    } else {
      NoFiles(s, i, rs);
      items := [];
    }
  }

  lemma ArgFound(s: string, i: nat, args: seq<Span>, rs: seq<Redirection>) returns (w: string, a: Span, k: nat)
    requires i <= |s| && Toks(s, i) != [] && First(Toks(s, i)) !in "<>|)&;" && After(s, i, args, rs).Ok?
    ensures i < k <= |s| && Toks(s, i) == [Name(w)] + Toks(s, k) && OrdinaryWord(w) && |args| + 1 < MAXARGS
    ensures After(s, i, args, rs) == After(s, k, args + [a], rs)
  {
    NoFiles(s, i, rs);
    var j := SkipWhite(s, i);
    SkipTwice(s, i);
    PeekFirst(s, j, "|)&;");
    ToksHead(s, i);
    w := TokAt(s, i).w;
    a, k := ArgStep(s, i, args, rs, w, Toks(s, GetToken(s, i).next));
  }

  lemma {:induction false} ItemsFound(s: string, i: nat, args: seq<Span>, rs: seq<Redirection>)
    returns (items: seq<Item>)
    requires i <= |s| && |args| < MAXARGS && After(s, i, args, rs).Ok?
    ensures var r := After(s, i, args, rs);
            && r.pos <= |s| && Toks(s, i) == ItemsToks(items, Toks(s, r.pos)) && ItemsFit(items)
            && |args| + ArgCount(items) < MAXARGS && EndsPart(Simple(items), Toks(s, r.pos))
    decreases |s| - i
  {
    var next := First(Toks(s, i));
    if Toks(s, i) == [] || next in "|)&;" {
      ArgsStop(s, i, args, rs);
      items := [];
    } else if next in "<>" {
      var x, r, k := FileFound(s, i, rs);
      assert After(s, i, args, rs) == After(s, k, args, rs + [r]);
      var more := ItemsFound(s, k, args, rs + [r]);
      ItemsCons(x, more, Toks(s, After(s, i, args, rs).pos));
      items := [x] + more;
    } else {
      var w, a, k := ArgFound(s, i, args, rs);
      var more := ItemsFound(s, k, args + [a], rs);
      ItemsCons(Arg(w), more, Toks(s, After(s, i, args, rs).pos));
      items := [Arg(w)] + more;
    }
  }

  // A token of one character that was looked for.
  lemma MarkFound(s: string, i: nat, c: char) returns (k: nat)
    requires i <= |s| && Special(c) && c != '>' && Peek(s, i, [c])
    ensures k <= |s| && Toks(s, i) == [Mark(c)] + Toks(s, k) && MarkAt(s, i, c, k, Toks(s, k))
  {
    PeekFirst(s, i, [c]);
    ToksHead(s, i);
    k := MarkStep(s, i, c, Toks(s, GetToken(s, i).next));
  }

  lemma BlockGoesOn(s: string, i: nat)
    requires i <= |s| && Peek(s, i, "(") && ParseBlock(s, i).Ok?
    ensures var c := ParseLine(s, GetToken(s, i).next);
            && c.Ok? && Peek(s, c.pos, ")")
            && var r := ParseRedirs(s, GetToken(s, c.pos).next, []); r.Ok? && ParseBlock(s, i).pos == r.pos
  {
  }

  lemma {:induction false} BlockFound(s: string, i: nat) returns (p: Part)
    requires i <= |s| && Peek(s, i, "(") && ParseBlock(s, i).Ok?
    ensures var rest := Toks(s, ParseBlock(s, i).pos);
            PartFits(p) && Toks(s, i) == PartToks(p, rest) && EndsPart(p, rest)
    decreases |s| - i, 0
  {
    BlockGoesOn(s, i);
    var k := MarkFound(s, i, '(');
    var e := MarkFound(s, ParseLine(s, k).pos, ')');
    var l := LineFound(s, k);
    var items := FilesFound(s, e, []);
    p := Block(l, items);
  }

  lemma {:induction false} PartFound(s: string, i: nat) returns (p: Part)
    requires i <= |s| && ParseExec(s, i).Ok?
    ensures var rest := Toks(s, ParseExec(s, i).pos);
            PartFits(p) && Toks(s, i) == PartToks(p, rest) && EndsPart(p, rest)
    decreases |s| - i, 1
  {
    if Peek(s, i, "(") {
      SkipTwice(s, i);
      ToksSkip(s, i);
      p := BlockFound(s, SkipWhite(s, i));
    } else {
      PeekFirst(s, i, "(");
      ExecSimple(s, i);
      var items := ItemsFound(s, i, [], []);
      p := Simple(items);
    }
  }

  // What parsepipe does behind the first part.
  lemma PipeGoesOn(s: string, i: nat)
    requires i <= |s| && ParsePipe(s, i).Ok?
    ensures ParseExec(s, i).Ok?
    ensures var c := ParseExec(s, i); var k := GetToken(s, c.pos).next;
            if Peek(s, c.pos, "|") then ParsePipe(s, k).Ok? && ParsePipe(s, i).pos == ParsePipe(s, k).pos
            else ParsePipe(s, i).pos == SkipWhite(s, c.pos)
  {
  }

  lemma PipeTail(s: string, i: nat) returns (more: bool, k: nat)
    requires i <= |s| && ParsePipe(s, i).Ok?
    ensures ParseExec(s, i).Ok?
    ensures var j, e := ParseExec(s, i).pos, ParsePipe(s, i).pos;
            if more then
              && i < k <= |s| && Toks(s, j) == [Mark('|')] + Toks(s, k)
              && ParsePipe(s, k).Ok? && ParsePipe(s, k).pos == e
            else Toks(s, j) == Toks(s, e) && First(Toks(s, e)) != '|'
  {
    PipeGoesOn(s, i);
    var j := ParseExec(s, i).pos;
    more, k := Peek(s, j, "|"), 0;
    if more {
      k := MarkFound(s, j, '|');
    } else {
      PeekFirst(s, j, "|");
      ToksSkip(s, j);
    }
  }

  lemma {:induction false} PipeFound(s: string, i: nat) returns (p: Pipeline)
    requires i <= |s| && ParsePipe(s, i).Ok?
    ensures var rest := Toks(s, ParsePipe(s, i).pos);
            PipeFits(p) && Toks(s, i) == PipeToks(p, rest) && EndsPipe(p, rest)
    decreases |s| - i, 2
  {
    var goesOn, k := PipeTail(s, i);
    var part := PartFound(s, i);
    if goesOn {
      var more := PipeFound(s, k);
      p := Piped(part, more);
    } else {
      p := Only(part);
    }
  }

  lemma BackFound(s: string, i: nat, c: Cmd<Span>) returns (k: nat)
    requires i <= |s| && First(Toks(s, i)) == '&'
    ensures i < k <= |s| && Toks(s, i) == [Mark('&')] + Toks(s, k) && ParseBacks(s, i, c) == ParseBacks(s, k, Back(c))
  {
    ToksHead(s, i);
    k := BackStep(s, i, c, Toks(s, GetToken(s, i).next));
  }

  lemma {:induction false} BacksFound(s: string, i: nat, c: Cmd<Span>, j: nat) returns (n: nat)
    requires i <= |s| && j == ParseBacks(s, i, c).1
    ensures j <= |s| && Toks(s, i) == BackToks(n, Toks(s, j)) && First(Toks(s, j)) != '&'
    decreases |s| - i
  {
    if First(Toks(s, i)) == '&' {
      var k := BackFound(s, i, c);
      var m := BacksFound(s, k, Back(c), j);
      n := m + 1;
    } else {
      BackStop(s, i, c);
      n := 0;
    }
  }

  lemma LineGoesOn(s: string, i: nat)
    requires i <= |s| && ParseLine(s, i).Ok?
    ensures ParsePipe(s, i).Ok?
    ensures var c := ParsePipe(s, i); var j := ParseBacks(s, c.pos, c.value).1; var k := GetToken(s, j).next;
            if Peek(s, j, ";") then ParseLine(s, k).Ok? && ParseLine(s, i).pos == ParseLine(s, k).pos
            else ParseLine(s, i).pos == SkipWhite(s, j)
  {
  }

  // A line is a pipeline, ampersands, and a semicolon with more behind it or nothing.
  lemma LineTail(s: string, i: nat) returns (more: bool, n: nat, k: nat)
    requires i <= |s| && ParseLine(s, i).Ok?
    ensures ParsePipe(s, i).Ok?
    ensures var tail, rest := Toks(s, ParsePipe(s, i).pos), Toks(s, ParseLine(s, i).pos);
            if more then
              && i < k <= |s| && tail == BackToks(n, [Mark(';')] + Toks(s, k)) && ParseLine(s, k).Ok?
              && ParseLine(s, k).pos == ParseLine(s, i).pos
            else tail == BackToks(n, rest) && First(rest) !in "&;"
  {
    LineGoesOn(s, i);
    var c := ParsePipe(s, i);
    var j := ParseBacks(s, c.pos, c.value).1;
    n := BacksFound(s, c.pos, c.value, j);
    more, k := Peek(s, j, ";"), 0;
    if more {
      k := MarkFound(s, j, ';');
    } else {
      PeekFirst(s, j, ";");
      ToksSkip(s, j);
    }
  }

  lemma {:induction false} LineFound(s: string, i: nat) returns (l: Line)
    requires i <= |s| && ParseLine(s, i).Ok?
    ensures var rest := Toks(s, ParseLine(s, i).pos);
            LineFits(l) && Toks(s, i) == LineToks(l, rest) && EndsLine(l, rest)
    decreases |s| - i, 3
  {
    var goesOn, n, k := LineTail(s, i);
    var pipe := PipeFound(s, i);
    if goesOn {
      var more := LineFound(s, k);
      l := Seq(pipe, n, more);
    } else {
      l := Last(pipe, n);
    }
  }

  /*** The whole text ***/

  // The shell accepts s and reads it as t.
  ghost predicate ReadsAs(s: string, t: Cmd<string>) {
    ParseCmd(s).Ok? && Text(s, ParseCmd(s).value) == t
  }

  // s is the line l, with this white space.
  ghost predicate Types(s: string, l: Line, gaps: seq<string>) {
    LineFits(l) && GapsOk(LineToks(l, []), gaps) && s == Spelled(LineToks(l, []), gaps)
  }

  /** Every line is read as what it means, whatever the white space. */
  lemma Typed(s: string, l: Line, gaps: seq<string>)
    requires Types(s, l, gaps)
    ensures ReadsAs(s, LineMeans(l))
  {
    assert s[0..] == s;
    SpelledToks(s, 0, LineToks(l, []), gaps);
    LineAlwaysEnds(l, []);
    LineTrip(s, 0, l, []);
  }

  /** Text left over behind a line is a panic. */
  lemma Leftover(s: string, l: Line, rest: seq<Tok>, gaps: seq<string>)
    requires LineFits(l) && EndsLine(l, rest) && rest != []
    requires GapsOk(LineToks(l, rest), gaps) && s == Spelled(LineToks(l, rest), gaps)
    ensures ParseCmd(s) == Err(Syntax)
  {
    assert s[0..] == s;
    SpelledToks(s, 0, LineToks(l, rest), gaps);
    LineTrip(s, 0, l, rest);
  }

  // The arguments and redirections of a command break off before rest, after n arguments: a redirection without a
  // file, one word too many, or a parenthesis.
  predicate BreaksOff(n: nat, rest: seq<Tok>) {
    && rest != [] && First(rest) !in "|)&;"
    && (First(rest) in "<>" ==> |rest| == 1 || !rest[1].Name?)
    && (rest[0].Name? ==> n + 1 == MAXARGS)
  }

  function Complaint(rest: seq<Tok>): Panic
    requires rest != []
  {
    if First(rest) in "<>" then MissingFile else if rest[0].Name? then TooManyArgs else Syntax
  }

  lemma NoFileName(s: string, i: nat, rs: seq<Redirection>)
    requires i <= |s| && First(Toks(s, i)) in "<>" && (|Toks(s, i)| == 1 || !Toks(s, i)[1].Name?)
    ensures ParseRedirs(s, i, rs) == Err(MissingFile)
  {
    RedirRound(s, i, rs);
    ToksHead(s, i);
    var j := GetToken(s, i).next;
    if Toks(s, j) != [] {
      ToksHead(s, j);
      assert Toks(s, i)[1] == TokAt(s, j);
    }
  }

  lemma ItemBreaks(s: string, i: nat, args: seq<Span>, rs: seq<Redirection>)
    requires i <= |s| && BreaksOff(|args|, Toks(s, i))
    ensures After(s, i, args, rs) == Err(Complaint(Toks(s, i)))
  {
    if First(Toks(s, i)) in "<>" {
      NoFileName(s, i, rs);
    } else {
      NoFiles(s, i, rs);
      SkipTwice(s, i);
      PeekFirst(s, SkipWhite(s, i), "|)&;");
      ToksHead(s, i);
    }
  }

  lemma {:induction false} ItemsBreak(s: string, i: nat, args: seq<Span>, rs: seq<Redirection>, items: seq<Item>,
                                      rest: seq<Tok>)
    requires i <= |s| && |args| + ArgCount(items) < MAXARGS && Toks(s, i) == ItemsToks(items, rest)
    requires BreaksOff(|args| + ArgCount(items), rest)
    ensures After(s, i, args, rs) == Err(Complaint(rest))
    decreases |items|
  {
    if items == [] {
      ItemBreaks(s, i, args, rs);
    } else {
      var x, more := items[0], ItemsToks(items[1..], rest);
      if x.Arg? {
        var a, k := ArgStep(s, i, args, rs, x.w, more);
        ItemsBreak(s, k, args + [a], rs, items[1..], rest);
      } else {
        var r, k := FileStep(s, i, rs, x, more);
        ItemsBreak(s, k, args, rs + [r], items[1..], rest);
      }
    }
  }

  // A panic in the first part is the result.
  lemma Propagates(s: string)
    requires ParseExec(s, 0).Err?
    ensures ParseCmd(s) == ParseExec(s, 0)
  {
    assert ParsePipe(s, 0) == ParseExec(s, 0);
    assert ParseLine(s, 0) == ParsePipe(s, 0);
  }

  // It does not begin with a block.
  lemma ItemsFirst(items: seq<Item>, rest: seq<Tok>)
    requires items == [] ==> First(rest) != '('
    ensures First(ItemsToks(items, rest)) != '('
  {
  }

  /** Each panic of a simple command, for a text that begins with one. */
  lemma Broken(s: string, items: seq<Item>, rest: seq<Tok>, gaps: seq<string>)
    requires ArgCount(items) < MAXARGS && BreaksOff(ArgCount(items), rest) && (items == [] ==> First(rest) != '(')
    requires GapsOk(ItemsToks(items, rest), gaps) && s == Spelled(ItemsToks(items, rest), gaps)
    ensures ParseCmd(s) == Err(Complaint(rest))
  {
    assert s[0..] == s;
    SpelledToks(s, 0, ItemsToks(items, rest), gaps);
    ItemsFirst(items, rest);
    ExecSimple(s, 0);
    ItemsBreak(s, 0, [], [], items, rest);
    Propagates(s);
  }

  lemma BlockUnclosed(s: string, i: nat, l: Line, rest: seq<Tok>)
    requires i <= |s| && LineFits(l) && EndsLine(l, rest) && First(rest) != ')'
    requires Toks(s, i) == [Mark('(')] + LineToks(l, rest)
    ensures ParseExec(s, i) == Err(MissingParen)
  {
    PeekFirst(s, i, "(");
    ToksSkip(s, i);
    var k := MarkStep(s, SkipWhite(s, i), '(', LineToks(l, rest));
    LineTrip(s, k, l, rest);
    PeekFirst(s, ParseLine(s, k).pos, ")");
  }

  /** A block that is not closed is a panic. */
  lemma Unclosed(s: string, l: Line, rest: seq<Tok>, gaps: seq<string>)
    requires LineFits(l) && EndsLine(l, rest) && First(rest) != ')'
    requires GapsOk([Mark('(')] + LineToks(l, rest), gaps) && s == Spelled([Mark('(')] + LineToks(l, rest), gaps)
    ensures ParseCmd(s) == Err(MissingParen)
  {
    assert s[0..] == s;
    SpelledToks(s, 0, [Mark('(')] + LineToks(l, rest), gaps);
    BlockUnclosed(s, 0, l, rest);
    Propagates(s);
  }

  /** The shell accepts exactly the lines. */
  lemma Accepted(s: string)
    ensures ParseCmd(s).Ok? <==> exists l, gaps :: Types(s, l, gaps)
  {
    if ParseCmd(s).Ok? {
      var l := LineFound(s, 0);
      assert Toks(s, ParseLine(s, 0).pos) == [];
      var gaps := EveryText(s, 0);
      assert s[0..] == s;
      assert Types(s, l, gaps);
    }
    if l, gaps :| Types(s, l, gaps) {
      Typed(s, l, gaps);
    }
  }
}
