/**
  sh.c's parser as it runs, with its loops, and nulterminate, which cuts the
  words out of the input buffer in place.
 */
module Shell {
  import opened ShellGrammar
  import opened ShellTokens
  import opened ShellSyntax
  import opened ShellRoundTrip
  import G = ShellGrammar

  /*** The words of a parsed command ***/

  // A word of the input that could not be longer to the right.
  ghost predicate WholeWord(s: string, w: Span) {
    && w.q < w.eq <= |s| && (forall k | w.q <= k < w.eq :: Ordinary(s[k]))
    && (w.eq == |s| || !Ordinary(s[w.eq]))
  }

  ghost predicate WholeWords(s: string, c: Cmd<Span>) {
    match c
    case Exec(args) => |args| < MAXARGS && forall k | 0 <= k < |args| :: WholeWord(s, args[k])
    case Redir(c1, file, _) => WholeWords(s, c1) && WholeWord(s, file)
    case Pipe(l, r) => WholeWords(s, l) && WholeWords(s, r)
    case List(l, r) => WholeWords(s, l) && WholeWords(s, r)
    case Back(c1) => WholeWords(s, c1)
  }

  lemma TokenWhole(s: string, i: nat)
    requires i <= |s| && G.GetToken(s, i).token.Word?
    ensures WholeWord(s, G.GetToken(s, i).span)
  {
    SkipWhiteStops(s, i);
    WordEndStops(s, SkipWhite(s, i));
  }

  ghost predicate WholeFiles(s: string, rs: seq<Redirection>) {
    forall k | 0 <= k < |rs| :: WholeWord(s, rs[k].file)
  }

  lemma {:induction false} RedirsWhole(s: string, i: nat, rs: seq<Redirection>)
    requires i <= |s| && WholeFiles(s, rs) && G.ParseRedirs(s, i, rs).Ok?
    ensures WholeFiles(s, G.ParseRedirs(s, i, rs).value)
    decreases |s| - i
  {
    if G.Peek(s, i, "<>") {
      var op := G.GetToken(s, i);
      var file := G.GetToken(s, op.next);
      TokenWhole(s, op.next);
      RedirsWhole(s, file.next, rs + [Redirection(file.span, if op.token == Symbol('<') then Input else Output)]);
    }
  }

  lemma {:induction false} WrapWhole(s: string, c: Cmd<Span>, rs: seq<Redirection>)
    requires WholeWords(s, c) && WholeFiles(s, rs)
    ensures WholeWords(s, Wrap(c, rs))
    decreases |rs|
  {
    if rs != [] {
      WrapWhole(s, c, rs[..|rs| - 1]);
    }
  }

  lemma {:induction false} ArgsWhole(s: string, i: nat, args: seq<Span>, rs: seq<Redirection>)
    requires i <= |s| && WholeWords(s, Exec(args)) && WholeFiles(s, rs) && G.ParseArgs(s, i, args, rs).Ok?
    ensures WholeWords(s, G.ParseArgs(s, i, args, rs).value)
    decreases |s| - i
  {
    WrapWhole(s, Exec(args), rs);
    var t := G.GetToken(s, i);
    if !G.Peek(s, i, "|)&;") && t.token.Word? {
      TokenWhole(s, i);
      RedirsWhole(s, t.next, rs);
      var r := G.ParseRedirs(s, t.next, rs);
      ArgsWhole(s, r.pos, args + [t.span], r.value);
    }
  }

  lemma {:induction false} ExecWhole(s: string, i: nat)
    requires i <= |s| && G.ParseExec(s, i).Ok?
    ensures WholeWords(s, G.ParseExec(s, i).value)
    decreases |s| - i, 1
  {
    if G.Peek(s, i, "(") {
      BlockWhole(s, SkipWhite(s, i));
    } else {
      RedirsWhole(s, i, []);
      var r := G.ParseRedirs(s, i, []);
      ArgsWhole(s, r.pos, [], r.value);
    }
  }

  lemma {:induction false} BlockWhole(s: string, i: nat)
    requires i <= |s| && G.ParseBlock(s, i).Ok?
    ensures WholeWords(s, G.ParseBlock(s, i).value)
    decreases |s| - i, 0
  {
    var c := G.ParseLine(s, G.GetToken(s, i).next);
    LineWhole(s, G.GetToken(s, i).next);
    RedirsWhole(s, G.GetToken(s, c.pos).next, []);
    WrapWhole(s, c.value, G.ParseRedirs(s, G.GetToken(s, c.pos).next, []).value);
  }

  lemma {:induction false} PipeWhole(s: string, i: nat)
    requires i <= |s| && G.ParsePipe(s, i).Ok?
    ensures WholeWords(s, G.ParsePipe(s, i).value)
    decreases |s| - i, 2
  {
    ExecWhole(s, i);
    var c := G.ParseExec(s, i);
    if G.Peek(s, c.pos, "|") {
      PipeWhole(s, G.GetToken(s, c.pos).next);
    }
  }

  lemma {:induction false} BacksWhole(s: string, i: nat, c: Cmd<Span>)
    requires i <= |s| && WholeWords(s, c)
    ensures WholeWords(s, ParseBacks(s, i, c).0)
    decreases |s| - i
  {
    if G.Peek(s, i, "&") {
      BacksWhole(s, G.GetToken(s, i).next, Back(c));
    }
  }

  lemma {:induction false} LineWhole(s: string, i: nat)
    requires i <= |s| && G.ParseLine(s, i).Ok?
    ensures WholeWords(s, G.ParseLine(s, i).value)
    decreases |s| - i, 3
  {
    PipeWhole(s, i);
    var c := G.ParsePipe(s, i);
    BacksWhole(s, c.pos, c.value);
    var k := ParseBacks(s, c.pos, c.value).1;
    if G.Peek(s, k, ";") {
      LineWhole(s, G.GetToken(s, k).next);
    }
  }

  lemma {:induction false} WholeRepresentable(s: string, c: Cmd<Span>)
    requires WholeWords(s, c)
    ensures Representable(Text(s, c))
    decreases c
  {
    match c
    case Exec(args) =>
    case Redir(c1, file, _) => WholeRepresentable(s, c1);
    case Pipe(l, r) => WholeRepresentable(s, l); WholeRepresentable(s, r);
    case List(l, r) => WholeRepresentable(s, l); WholeRepresentable(s, r);
    case Back(c1) => WholeRepresentable(s, c1);
  }

  /** Whatever the shell accepts, printing what it read and reading that gives the same command. */
  lemma Reparse(s: string)
    requires G.ParseCmd(s).Ok?
    ensures var t := Text(s, G.ParseCmd(s).value); Representable(t) && ReadsAs(Print(t), t)
  {
    LineWhole(s, 0);
    WholeRepresentable(s, G.ParseCmd(s).value);
    RoundTrip(Text(s, G.ParseCmd(s).value));
  }

  /*** The parser at work ***/

  method Skip(s: string, i: nat) returns (j: nat)
    requires i <= |s|
    ensures j == SkipWhite(s, i)
  {
    j := i;
    while j < |s| && White(s[j])
      invariant i <= j <= |s| && SkipWhite(s, i) == SkipWhite(s, j)
    {
      j := j + 1;
    }
  }

  /** gettoken: the token, its text and the position behind it and the white space. */
  method GetToken(s: string, i: nat) returns (r: Lexeme)
    requires i <= |s|
    ensures r == G.GetToken(s, i)
  {
    var q := Skip(s, i);
    var e := q;
    var token := End;
    if q < |s| {
      if s[q] == '>' {
        e := q + 1;
        token := Symbol('>');
        if e < |s| && s[e] == '>' {
          token := Append;
          e := e + 1;
        }
      } else if Special(s[q]) {
        e := q + 1;
        token := Symbol(s[q]);
      } else {
        token := Word;
        while e < |s| && !White(s[e]) && !Special(s[e])
          invariant q <= e <= |s| && WordEnd(s, q) == WordEnd(s, e)
        {
          e := e + 1;
        }
      }
    }
    var next := Skip(s, e);
    return Lexeme(token, Span(q, e), next);
  }

  /** peek: whether the next character that is not white space is one of toks, and where it is. */
  method Peek(s: string, i: nat, toks: string) returns (found: bool, j: nat)
    requires i <= |s|
    ensures found == G.Peek(s, i, toks) && j == SkipWhite(s, i)
  {
    j := Skip(s, i);
    found := j < |s| && s[j] in toks;
  }

  /** parseredirs, collecting the redirections to put around the command. */
  method ParseRedirs(s: string, i: nat, rs: seq<Redirection>) returns (r: Result<seq<Redirection>>)
    requires i <= |s|
    ensures r == G.ParseRedirs(s, i, rs)
  {
    var j, acc := i, rs;
    while true
      invariant i <= j <= |s| && G.ParseRedirs(s, i, rs) == G.ParseRedirs(s, j, acc)
      decreases |s| - j
    {
      var more, k := Peek(s, j, "<>");
      if !more {
        return Ok(acc, k);
      }
      SkipTwice(s, j);
      var op := GetToken(s, k);
      var file := GetToken(s, op.next);
      if !file.token.Word? {
        return Err(MissingFile);
      }
      acc := acc + [Redirection(file.span, if op.token == Symbol('<') then Input else Output)];
      j := file.next;
    }
  }

  /** parseexec. */
  method ParseExec(s: string, i: nat) returns (r: Result<Cmd<Span>>)
    requires i <= |s|
    ensures r == G.ParseExec(s, i)
    decreases |s| - i, 1
  {
    var block, i1 := Peek(s, i, "(");
    if block {
      r := ParseBlock(s, i1);
      return;
    }
    var redirs := ParseRedirs(s, i, []);
    if redirs.Err? {
      return Err(redirs.panic);
    }
    var args: seq<Span>, rs, j := [], redirs.value, redirs.pos;
    while true
      invariant i <= j <= |s| && G.ParseExec(s, i) == G.ParseArgs(s, j, args, rs)
      decreases |s| - j
    {
      var stop, k := Peek(s, j, "|)&;");
      if stop {
        return Ok(Wrap(Exec(args), rs), k);
      }
      SkipTwice(s, j);
      var t := GetToken(s, k);
      if t.token.End? {
        return Ok(Wrap(Exec(args), rs), t.next);
      }
      if !t.token.Word? {
        return Err(Syntax);
      }
      if |args| + 1 >= MAXARGS {
        return Err(TooManyArgs);
      }
      redirs := ParseRedirs(s, t.next, rs);
      if redirs.Err? {
        return Err(redirs.panic);
      }
      args, rs, j := args + [t.span], redirs.value, redirs.pos;
    }
  }

  /** parseblock. */
  method ParseBlock(s: string, i: nat) returns (r: Result<Cmd<Span>>)
    requires i <= |s|
    ensures r == G.ParseBlock(s, i)
    decreases |s| - i, 0
  {
    var open, k := Peek(s, i, "(");
    if !open {
      return Err(NotABlock);
    }
    SkipTwice(s, i);
    var t := GetToken(s, k);
    var inner := ParseLine(s, t.next);
    if inner.Err? {
      return inner;
    }
    var close, l := Peek(s, inner.pos, ")");
    if !close {
      return Err(MissingParen);
    }
    SkipTwice(s, inner.pos);
    t := GetToken(s, l);
    var redirs := ParseRedirs(s, t.next, []);
    if redirs.Err? {
      return Err(redirs.panic);
    }
    return Ok(Wrap(inner.value, redirs.value), redirs.pos);
  }

  /** parsepipe. */
  method ParsePipe(s: string, i: nat) returns (r: Result<Cmd<Span>>)
    requires i <= |s|
    ensures r == G.ParsePipe(s, i)
    decreases |s| - i, 2
  {
    r := ParseExec(s, i);
    if r.Err? {
      return;
    }
    var more, k := Peek(s, r.pos, "|");
    if !more {
      return Ok(r.value, k);
    }
    SkipTwice(s, r.pos);
    var t := GetToken(s, k);
    var right := ParsePipe(s, t.next);
    return if right.Err? then right else Ok(Pipe(r.value, right.value), right.pos);
  }

  /** parseline. */
  method ParseLine(s: string, i: nat) returns (r: Result<Cmd<Span>>)
    requires i <= |s|
    ensures r == G.ParseLine(s, i)
    decreases |s| - i, 3
  {
    r := ParsePipe(s, i);
    if r.Err? {
      return;
    }
    var c, j := r.value, r.pos;
    var t;
    var more, k := Peek(s, j, "&");
    while more
      invariant i <= j <= k <= |s| && more == G.Peek(s, j, "&") && k == SkipWhite(s, j)
      invariant ParseBacks(s, r.pos, r.value) == ParseBacks(s, j, c)
      decreases |s| - j
    {
      SkipTwice(s, j);
      t := GetToken(s, k);
      c, j := Back(c), t.next;
      more, k := Peek(s, j, "&");
    }
    SkipTwice(s, j);
    more, k := Peek(s, k, ";");
    if !more {
      return Ok(c, k);
    }
    SkipTwice(s, k);
    t := GetToken(s, k);
    var right := ParseLine(s, t.next);
    return if right.Err? then right else Ok(List(c, right.value), right.pos);
  }

  /*** nulterminate ***/

  // Some word of the command ends at k.
  predicate EndsAt(c: Cmd<Span>, k: nat) {
    match c
    case Exec(args) => exists j | 0 <= j < |args| :: args[j].eq == k
    case Redir(c1, file, _) => EndsAt(c1, k) || file.eq == k
    case Pipe(l, r) => EndsAt(l, k) || EndsAt(r, k)
    case List(l, r) => EndsAt(l, k) || EndsAt(r, k)
    case Back(c1) => EndsAt(c1, k)
  }

  // w is a word of the command.
  predicate HasWord(c: Cmd<Span>, w: Span) {
    match c
    case Exec(args) => w in args
    case Redir(c1, file, _) => HasWord(c1, w) || file == w
    case Pipe(l, r) => HasWord(l, w) || HasWord(r, w)
    case List(l, r) => HasWord(l, w) || HasWord(r, w)
    case Back(c1) => HasWord(c1, w)
  }

  const NUL := '\0'

  /** nulterminate: exactly the characters behind the words become NUL. */
  method Nulterminate(buf: array<char>, ghost s: string, c: Cmd<Span>)
    requires |s| < buf.Length && WholeWords(s, c)
    modifies buf
    ensures forall k | 0 <= k < buf.Length :: buf[k] == if EndsAt(c, k) then NUL else old(buf[k])
    decreases c
  {
    match c
    case Exec(args) =>
      var i := 0;
      while i < |args|
        invariant i <= |args|
        invariant forall k | 0 <= k < buf.Length ::
                    buf[k] == if exists j | 0 <= j < i :: args[j].eq == k then NUL else old(buf[k])
      {
        assert WholeWord(s, args[i]);
        buf[args[i].eq] := NUL;
        i := i + 1;
      }
    case Redir(c1, file, _) =>
      Nulterminate(buf, s, c1);
      buf[file.eq] := NUL;
    case Pipe(l, r) =>
      Nulterminate(buf, s, l);
      Nulterminate(buf, s, r);
    case List(l, r) =>
      Nulterminate(buf, s, l);
      Nulterminate(buf, s, r);
    case Back(c1) =>
      Nulterminate(buf, s, c1);
  }

  // The C string at position i.
  function CString(b: string, i: nat): string
    requires i <= |b|
    decreases |b| - i
  {
    if i == |b| || b[i] == NUL then "" else [b[i]] + CString(b, i + 1)
  }

  lemma {:induction false} CStringIs(b: string, i: nat, e: nat)
    requires i <= e < |b| && b[e] == NUL && forall k | i <= k < e :: b[k] != NUL
    ensures CString(b, i) == b[i..e]
    decreases e - i
  {
    if i < e {
      CStringIs(b, i + 1, e);
      assert b[i..e] == [b[i]] + b[i + 1..e];
    }
  }

  lemma {:induction false} WordIsWhole(s: string, c: Cmd<Span>, w: Span)
    requires WholeWords(s, c) && HasWord(c, w)
    ensures WholeWord(s, w) && EndsAt(c, w.eq)
    decreases c
  {
    match c
    case Exec(args) =>
      var j :| 0 <= j < |args| && args[j] == w;
    case Redir(c1, file, _) => if HasWord(c1, w) { WordIsWhole(s, c1, w); }
    case Pipe(l, r) => if HasWord(l, w) { WordIsWhole(s, l, w); } else { WordIsWhole(s, r, w); }
    case List(l, r) => if HasWord(l, w) { WordIsWhole(s, l, w); } else { WordIsWhole(s, r, w); }
    case Back(c1) => WordIsWhole(s, c1, w);
  }

  // No word ends in the middle of a word.
  lemma {:induction false} EndsOutside(s: string, c: Cmd<Span>, k: nat)
    requires WholeWords(s, c) && EndsAt(c, k)
    ensures k == |s| || (k < |s| && !Ordinary(s[k]))
    decreases c
  {
    match c
    case Exec(args) =>
      var j :| 0 <= j < |args| && args[j].eq == k;
      assert WholeWord(s, args[j]);
    case Redir(c1, file, _) => if EndsAt(c1, k) { EndsOutside(s, c1, k); }
    case Pipe(l, r) => if EndsAt(l, k) { EndsOutside(s, l, k); } else { EndsOutside(s, r, k); }
    case List(l, r) => if EndsAt(l, k) { EndsOutside(s, l, k); } else { EndsOutside(s, r, k); }
    case Back(c1) => EndsOutside(s, c1, k);
  }

  /** After nulterminate every pointer of the command reads exactly its own word. */
  lemma ReadsBack(s: string, c: Cmd<Span>, b: string, w: Span)
    requires WholeWords(s, c) && HasWord(c, w) && NUL !in s && |s| < |b|
    requires forall k | 0 <= k <= |s| :: b[k] == if EndsAt(c, k) || k == |s| then NUL else s[k]
    ensures w.q <= |b| && CString(b, w.q) == Read(s, w)
  {
    WordIsWhole(s, c, w);
    forall k | w.q <= k < w.eq
      ensures b[k] == s[k] && b[k] != NUL
    {
      if EndsAt(c, k) {
        EndsOutside(s, c, k);
      }
    }
    CStringIs(b, w.q, w.eq);
    assert b[w.q..w.eq] == s[w.q..w.eq];
  }

  /**
    parsecmd on a C string: the command, whose every pointer then reads its
    own word; or a panic, with the buffer as it was.
   */
  method ParseCmd(buf: array<char>) returns (r: Result<Cmd<Span>>, ghost s: string)
    requires NUL in buf[..]
    modifies buf
    ensures s == old(CString(buf[..], 0)) && r == G.ParseCmd(s)
    ensures r.Err? ==> buf[..] == old(buf[..])
    ensures r.Ok? ==> forall w | HasWord(r.value, w) :: w.q <= buf.Length && CString(buf[..], w.q) == Read(s, w)
  {
    var n := 0;
    while buf[n] != NUL
      invariant n < buf.Length && forall k | 0 <= k < n :: buf[k] != NUL
      invariant exists k :: n <= k < buf.Length && buf[k] == NUL
      decreases buf.Length - n
    {
      n := n + 1;
    }
    s := buf[..n];
    CStringIs(buf[..], 0, n);
    var text := buf[..n];
    r := ParseLine(text, 0);
    if r.Err? {
      return;
    }
    var _, j := Peek(text, r.pos, "");
    if j != n {
      r := Err(Syntax);
      return;
    }
    LineWhole(text, 0);
    r := Ok(r.value, n);
    Nulterminate(buf, s, r.value);
    forall w | HasWord(r.value, w)
      ensures w.q <= buf.Length && CString(buf[..], w.q) == Read(s, w)
    {
      ReadsBack(s, r.value, buf[..], w);
    }
  }
}
