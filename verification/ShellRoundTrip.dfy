/**
  The parser is the inverse of a printer that writes parentheses only where
  the shell needs them.
 */
module ShellRoundTrip {
  import opened ShellGrammar
  import opened ShellTokens
  import opened ShellSyntax

  // What the shell can represent: words of ordinary characters, at most nine to a command.
  predicate Representable(t: Cmd<string>) {
    match t
    case Exec(args) => |args| < MAXARGS && forall k | 0 <= k < |args| :: OrdinaryWord(args[k])
    case Redir(c, file, _) => Representable(c) && OrdinaryWord(file)
    case Pipe(l, r) => Representable(l) && Representable(r)
    case List(l, r) => Representable(l) && Representable(r)
    case Back(c) => Representable(c)
  }

  /*** The line for a command ***/

  function Size(t: Cmd<string>): nat {
    match t
    case Exec(_) => 1
    case Redir(c, _, _) => 1 + Size(c)
    case Pipe(l, r) => 1 + Size(l) + Size(r)
    case List(l, r) => 1 + Size(l) + Size(r)
    case Back(c) => 1 + Size(c)
  }

  // The command in the background, and how often.
  function Core(t: Cmd<string>): (c: Cmd<string>)
    ensures Size(c) <= Size(t) && (t.Back? ==> Size(c) < Size(t)) && !c.Back?
  {
    if t.Back? then Core(t.cmd) else t
  }

  function Ands(t: Cmd<string>): nat {
    if t.Back? then 1 + Ands(t.cmd) else 0
  }

  function ArgItems(args: seq<string>): seq<Item> {
    if args == [] then [] else [Arg(args[0])] + ArgItems(args[1..])
  }

  function PartOf(t: Cmd<string>): Part
    decreases Size(t), if t.Exec? || t.Redir? then 0 else 3
  {
    match t
    case Exec(args) => Simple(ArgItems(args))
    case Redir(c, file, dir) =>
      var p := PartOf(c);
      p.(items := p.items + [if dir.Input? then From(file) else Into(file)])
    case _ => Block(LineOf(t), [])
  }

  function PipeOf(t: Cmd<string>): Pipeline
    decreases Size(t), if t.List? || t.Back? then 4 else 1
  {
    if t.Pipe? then Piped(PartOf(t.left), PipeOf(t.right)) else Only(PartOf(t))
  }

  function LineOf(t: Cmd<string>): Line
    decreases Size(t), 2
  {
    if t.List? then Seq(PipeOf(Core(t.left)), Ands(t.left), LineOf(t.right)) else Last(PipeOf(Core(t)), Ands(t))
  }

  // One blank at every place.
  function Blanks(n: nat): (gaps: seq<string>)
    ensures |gaps| == n && forall k | 0 <= k < n :: gaps[k] == " "
  {
    seq(n, _ => " ")
  }

  function Print(t: Cmd<string>): string {
    Spelled(LineToks(LineOf(t), []), Blanks(|LineToks(LineOf(t), [])| + 1))
  }

  /*** It means the command ***/

  lemma {:induction false} ArgsMean(done: seq<string>, args: seq<string>)
    ensures ApplyAll(Exec(done), ArgItems(args)) == Exec(done + args) && ArgCount(ArgItems(args)) == |args|
    decreases |args|
  {
    if args == [] {
      assert done + args == done;
    } else {
      var items := ArgItems(args);
      assert items[1..] == ArgItems(args[1..]) && (done + [args[0]]) + args[1..] == done + args;
      ArgsMean(done + [args[0]], args[1..]);
    }
  }

  lemma {:induction false} ArgItemsFit(args: seq<string>)
    requires forall k | 0 <= k < |args| :: OrdinaryWord(args[k])
    ensures ItemsFit(ArgItems(args))
    decreases |args|
  {
    if args != [] {
      ArgItemsFit(args[1..]);
    }
  }

  lemma {:induction false} ApplyMore(c: Cmd<string>, items: seq<Item>, x: Item)
    ensures ApplyAll(c, items + [x]) == Apply(ApplyAll(c, items), x)
    ensures ArgCount(items + [x]) == ArgCount(items) + if x.Arg? then 1 else 0
    decreases |items|
  {
    if items == [] {
      assert items + [x] == [x];
    } else {
      assert (items + [x])[1..] == items[1..] + [x];
      ApplyMore(Apply(c, items[0]), items[1..], x);
    }
  }

  lemma {:induction false} BackedOuter(c: Cmd<string>, n: nat)
    ensures Backed(c, n + 1) == Back(Backed(c, n))
    decreases n
  {
    if n > 0 {
      BackedOuter(Back(c), n - 1);
    }
  }

  lemma {:induction false} CoreMeans(t: Cmd<string>)
    ensures Backed(Core(t), Ands(t)) == t && (Representable(t) ==> Representable(Core(t)))
    decreases t
  {
    if t.Back? {
      CoreMeans(t.cmd);
      BackedOuter(Core(t.cmd), Ands(t.cmd));
    }
  }

  lemma {:induction false} PartOfMeans(t: Cmd<string>)
    requires Representable(t)
    ensures PartMeans(PartOf(t)) == t && PartFits(PartOf(t))
    decreases Size(t), if t.Exec? || t.Redir? then 0 else 3
  {
    if t.Exec? {
      ArgsMean([], t.args);
      ArgItemsFit(t.args);
      assert [] + t.args == t.args;
    } else if t.Redir? {
      PartOfMeans(t.cmd);
      var p, x := PartOf(t.cmd), if t.dir.Input? then From(t.file) else Into(t.file);
      ApplyMore(if p.Simple? then Exec([]) else LineMeans(p.line), p.items, x);
    } else {
      LineOfMeans(t);
    }
  }

  lemma {:induction false} PipeOfMeans(t: Cmd<string>)
    requires Representable(t)
    ensures PipeMeans(PipeOf(t)) == t && PipeFits(PipeOf(t))
    decreases Size(t), if t.List? || t.Back? then 4 else 1
  {
    if t.Pipe? {
      PartOfMeans(t.left);
      PipeOfMeans(t.right);
    } else {
      PartOfMeans(t);
    }
  }

  lemma {:induction false} LineOfMeans(t: Cmd<string>)
    requires Representable(t)
    ensures LineMeans(LineOf(t)) == t && LineFits(LineOf(t))
    decreases Size(t), 2
  {
    var first := if t.List? then t.left else t;
    CoreMeans(first);
    PipeOfMeans(Core(first));
    if t.List? {
      LineOfMeans(t.right);
    }
  }

  /*** The round trip ***/

  predicate AllProper(toks: seq<Tok>) {
    forall k | 0 <= k < |toks| :: Proper(toks[k])
  }

  lemma {:induction false} ItemsProper(items: seq<Item>, rest: seq<Tok>)
    requires ItemsFit(items) && AllProper(rest)
    ensures AllProper(ItemsToks(items, rest))
    decreases |items|
  {
    if items != [] {
      ItemsProper(items[1..], rest);
      assert OrdinaryWord(items[0].w);
    }
  }

  lemma {:induction false} BacksProper(n: nat, rest: seq<Tok>)
    requires AllProper(rest)
    ensures AllProper(BackToks(n, rest))
    decreases n
  {
    if n > 0 {
      BacksProper(n - 1, rest);
    }
  }

  lemma {:induction false} PartProper(p: Part, rest: seq<Tok>)
    requires PartFits(p) && AllProper(rest)
    ensures AllProper(PartToks(p, rest))
    decreases p
  {
    ItemsProper(p.items, rest);
    if p.Block? {
      LineProper(p.line, [Mark(')')] + ItemsToks(p.items, rest));
    }
  }

  lemma {:induction false} PipeProper(p: Pipeline, rest: seq<Tok>)
    requires PipeFits(p) && AllProper(rest)
    ensures AllProper(PipeToks(p, rest))
    decreases p
  {
    if p.Piped? {
      PipeProper(p.more, rest);
      PartProper(p.part, [Mark('|')] + PipeToks(p.more, rest));
    } else {
      PartProper(p.part, rest);
    }
  }

  lemma {:induction false} LineProper(l: Line, rest: seq<Tok>)
    requires LineFits(l) && AllProper(rest)
    ensures AllProper(LineToks(l, rest))
    decreases l
  {
    var next := rest;
    if l.Seq? {
      LineProper(l.more, rest);
      next := [Mark(';')] + LineToks(l.more, rest);
    }
    BacksProper(l.backs, next);
    PipeProper(l.pipe, BackToks(l.backs, next));
  }

  lemma BlanksOk(toks: seq<Tok>)
    requires AllProper(toks)
    ensures GapsOk(toks, Blanks(|toks| + 1))
  {
  }

  /** Round trip: the shell reads every representable command back from its printed form. */
  lemma RoundTrip(t: Cmd<string>)
    requires Representable(t)
    ensures ReadsAs(Print(t), t)
  {
    var l := LineOf(t);
    var toks := LineToks(l, []);
    LineOfMeans(t);
    LineProper(l, []);
    BlanksOk(toks);
    Typed(Print(t), l, Blanks(|toks| + 1));
  }
}
