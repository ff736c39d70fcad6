/** The command language of user/sh.c: its tokens, its trees, the parser as a function
    on tokens, and the printer that parsing inverts. */
module ShellSyntax {

  const MAXARGS: nat := 10
  const O_RDONLY: nat := 0x000
  const O_WRONLY: nat := 0x001
  const O_CREATE: nat := 0x200
  const O_TRUNC: nat := 0x400

  const WHITESPACE := " \t\r\n\U{0B}"
  const SYMBOLS := "<|>&;()"

  predicate White(c: char) {
    c in WHITESPACE
  }

  predicate Symbol(c: char) {
    c in SYMBOLS
  }

  predicate Plain(c: char) {
    c != '\0' && !White(c) && !Symbol(c)
  }

  predicate LegalWord(w: string) {
    w != [] && forall i :: 0 <= i < |w| ==> Plain(w[i])
  }

  datatype Token = Sym(c: char) | Append | Word(w: string)

  predicate LegalToken(t: Token) {
    match t
    case Sym(c) => Symbol(c)
    case Append => true
    case Word(w) => LegalWord(w)
  }

  ghost predicate LegalTokens(ts: seq<Token>) {
    forall i :: 0 <= i < |ts| ==> LegalToken(ts[i])
  }

  datatype Redir = Redir(file: string, mode: nat, fd: nat)

  datatype Cmd =
    | Exec(args: seq<string>)
    | Redirected(cmd: Cmd, redir: Redir)
    | Pipe(left: Cmd, right: Cmd)
    | List(left: Cmd, right: Cmd)
    | Back(cmd: Cmd)

  // ---- the lexer ----------------------------------------------------------

  function Skip(s: string): (t: string)
    ensures |t| <= |s| && t == s[|s| - |t|..] && (t != [] ==> !White(t[0]))
  {
    if s != [] && White(s[0]) then Skip(s[1..]) else s
  }

  /** The length of the word s begins with. */
  function WordLen(s: string): (n: nat)
    ensures n <= |s| && forall i :: 0 <= i < n ==> !White(s[i]) && !Symbol(s[i])
    ensures n < |s| ==> White(s[n]) || Symbol(s[n])
  {
    if s == [] || White(s[0]) || Symbol(s[0]) then 0 else 1 + WordLen(s[1..])
  }

  /** The token s begins with, and its length. */
  function FirstToken(s: string): (r: (Token, nat))
    requires s != [] && !White(s[0])
    ensures 0 < r.1 <= |s|
  {
    if s[0] == '>' then (if |s| > 1 && s[1] == '>' then (Append, 2) else (Sym('>'), 1))
    else if Symbol(s[0]) then (Sym(s[0]), 1)
    else (Word(s[..WordLen(s)]), WordLen(s))
  }

  function Lex(s: string): seq<Token>
    decreases |s|
  {
    var t := Skip(s);
    if t == [] then [] else var (tok, n) := FirstToken(t); [tok] + Lex(t[n..])
  }

  // ---- the parser ---------------------------------------------------------

  datatype Parsed = Ok(cmd: Cmd, rest: seq<Token>) | Panic(msg: string)

  datatype Redirs = Redirs(list: seq<Redir>, rest: seq<Token>) | NoFile

  datatype Args = Args(args: seq<string>, list: seq<Redir>, rest: seq<Token>) | Bad(msg: string)

  predicate Starts(ts: seq<Token>, cs: string) {
    ts != [] && ts[0].Sym? && ts[0].c in cs
  }

  predicate StartsRedir(ts: seq<Token>) {
    Starts(ts, "<>") || (ts != [] && ts[0].Append?)
  }

  function MakeRedir(t: Token, file: string): Redir {
    if t == Sym('<') then Redir(file, O_RDONLY, 0)
    else if t == Sym('>') then Redir(file, O_WRONLY + O_CREATE + O_TRUNC, 1)
    else Redir(file, O_WRONLY + O_CREATE, 1)
  }

  /** parseredirs() */
  function ParseRedirs(ts: seq<Token>): (r: Redirs)
    ensures r.Redirs? ==> |r.rest| <= |ts| && (LegalTokens(ts) ==> LegalTokens(r.rest) && LegalRedirs(r.list))
  {
    if !StartsRedir(ts) then Redirs([], ts)
    else if |ts| < 2 || !ts[1].Word? then NoFile
    else
      match ParseRedirs(ts[2..])
      case NoFile => NoFile
      case Redirs(list, rest) =>
        assert LegalTokens(ts) ==> LegalToken(ts[1]);
        Redirs([MakeRedir(ts[0], ts[1].w)] + list, rest)
  }

  function Wrap(c: Cmd, list: seq<Redir>): Cmd
    decreases |list|
  {
    if list == [] then c else Wrap(Redirected(c, list[0]), list[1..])
  }

  /** The loop of parseexec(): the arguments and redirections so far, and the rest. */
  function ParseArgs(args: seq<string>, list: seq<Redir>, ts: seq<Token>): (r: Args)
    ensures r.Args? ==> |r.rest| <= |ts|
    ensures r.Args? && LegalTokens(ts) && LegalArgs(args) && LegalRedirs(list) ==> LegalTokens(r.rest) && LegalArgs(r.args) && LegalRedirs(r.list)
    decreases |ts|
  {
    if ts == [] || Starts(ts, "|)&;") then Args(args, list, ts)
    else if !ts[0].Word? then Bad("syntax")
    else if |args| + 1 >= MAXARGS then Bad("too many args")
    else
      match ParseRedirs(ts[1..])
      case NoFile => Bad("missing file for redirection")
      case Redirs(more, rest) =>
        assert LegalTokens(ts) ==> LegalToken(ts[0]);
        ParseArgs(args + [ts[0].w], list + more, rest)
  }

  /** parseexec() */
  function ParseExec(ts: seq<Token>): (r: Parsed)
    ensures r.Ok? ==> |r.rest| <= |ts| && (LegalTokens(ts) ==> LegalTokens(r.rest) && Legal(r.cmd))
    decreases |ts|, 1
  {
    if Starts(ts, "(") then ParseBlock(ts)
    else
      match ParseRedirs(ts)
      case NoFile => Panic("missing file for redirection")
      case Redirs(list, rest) =>
        match ParseArgs([], list, rest)
        case Bad(m) => Panic(m)
        case Args(args, all, rest') =>
          LegalWrap(Exec(args), all);
          Ok(Wrap(Exec(args), all), rest')
  }

  /** parseblock() */
  function ParseBlock(ts: seq<Token>): (r: Parsed)
    ensures r.Ok? ==> |r.rest| < |ts| && (LegalTokens(ts) ==> LegalTokens(r.rest) && Legal(r.cmd))
    decreases |ts|, 0
  {
    if !Starts(ts, "(") then Panic("parseblock")
    else
      match ParseLine(ts[1..])
      case Panic(m) => Panic(m)
      case Ok(c, rest) =>
        if !Starts(rest, ")") then Panic("syntax - missing )")
        else
          match ParseRedirs(rest[1..])
          case NoFile => Panic("missing file for redirection")
          case Redirs(list, rest') =>
            LegalWrap(c, list);
            Ok(Wrap(c, list), rest')
  }

  /** parsepipe() */
  function ParsePipe(ts: seq<Token>): (r: Parsed)
    ensures r.Ok? ==> |r.rest| <= |ts| && (LegalTokens(ts) ==> LegalTokens(r.rest) && Legal(r.cmd))
    decreases |ts|, 2
  {
    match ParseExec(ts)
    case Panic(m) => Panic(m)
    case Ok(c, rest) =>
      if !Starts(rest, "|") then Ok(c, rest)
      else
        match ParsePipe(rest[1..])
        case Panic(m) => Panic(m)
        case Ok(d, rest') => Ok(Pipe(c, d), rest')
  }

  /** The loop of parseline() over &. */
  function ParseBacks(c: Cmd, ts: seq<Token>): (r: Parsed)
    ensures r.Ok? && |r.rest| <= |ts| && (LegalTokens(ts) && Legal(c) ==> LegalTokens(r.rest) && Legal(r.cmd))
    ensures !Starts(r.rest, "&")
    decreases |ts|
  {
    if Starts(ts, "&") then ParseBacks(Back(c), ts[1..]) else Ok(c, ts)
  }

  /** parseline() */
  function ParseLine(ts: seq<Token>): (r: Parsed)
    ensures r.Ok? ==> |r.rest| <= |ts| && (LegalTokens(ts) ==> LegalTokens(r.rest) && Legal(r.cmd))
    decreases |ts|, 3
  {
    match ParsePipe(ts)
    case Panic(m) => Panic(m)
    case Ok(c, rest) =>
      var b := ParseBacks(c, rest);
      if !Starts(b.rest, ";") then b
      else
        match ParseLine(b.rest[1..])
        case Panic(m) => Panic(m)
        case Ok(d, rest') => Ok(List(b.cmd, d), rest')
  }

  /** parsecmd() */
  function ParseCmd(s: string): (r: Parsed)
  {
    match ParseLine(Lex(s))
    case Panic(m) => Panic(m)
    case Ok(c, rest) => if rest == [] then Ok(c, []) else Panic("syntax")
  }

  // ---- legal trees --------------------------------------------------------

  predicate LegalArgs(args: seq<string>) {
    |args| < MAXARGS && forall i :: 0 <= i < |args| ==> LegalWord(args[i])
  }

  predicate LegalRedir(r: Redir) {
    && LegalWord(r.file)
    && (r == MakeRedir(Sym('<'), r.file) || r == MakeRedir(Sym('>'), r.file) || r == MakeRedir(Append, r.file))
  }

  ghost predicate LegalRedirs(list: seq<Redir>) {
    forall i :: 0 <= i < |list| ==> LegalRedir(list[i])
  }

  /** At most nine arguments per command, words without blanks and symbols, and the
      open modes the shell knows. */
  predicate Legal(c: Cmd) {
    match c
    case Exec(args) => LegalArgs(args)
    case Redirected(d, r) => Legal(d) && LegalRedir(r)
    case Pipe(l, r) => Legal(l) && Legal(r)
    case List(l, r) => Legal(l) && Legal(r)
    case Back(d) => Legal(d)
  }

  lemma {:induction false} LegalWrap(c: Cmd, list: seq<Redir>)
    ensures Legal(Wrap(c, list)) <==> Legal(c) && LegalRedirs(list)
    decreases |list|
  {
    if list != [] {
      LegalWrap(Redirected(c, list[0]), list[1..]);
      if LegalRedir(list[0]) && LegalRedirs(list[1..]) {
        forall i | 0 <= i < |list| ensures LegalRedir(list[i]) {
          assert i > 0 ==> list[i] == list[1..][i - 1];
        }
      }
      if LegalRedirs(list) {
        assert LegalRedir(list[0]);
        forall i | 0 <= i < |list[1..]| ensures LegalRedir(list[1..][i]) {
          assert list[1..][i] == list[i + 1];
        }
      }
    }
  }

  // ---- the printer --------------------------------------------------------

  function Words(args: seq<string>): (ts: seq<Token>)
    ensures |ts| == |args|
  {
    seq(|args|, i requires 0 <= i < |args| => Word(args[i]))
  }

  function RedirToken(r: Redir): Token {
    if r.mode == O_RDONLY then Sym('<') else if r.mode == O_WRONLY + O_CREATE then Append else Sym('>')
  }

  function ShowRedirs(list: seq<Redir>): seq<Token> {
    if list == [] then [] else [RedirToken(list[0]), Word(list[0].file)] + ShowRedirs(list[1..])
  }

  /** The command without its redirections, and those, innermost first. */
  function Base(c: Cmd): (d: Cmd)
    ensures !d.Redirected? && (c.Redirected? ==> d < c) && (!c.Redirected? ==> d == c)
  {
    if c.Redirected? then Base(c.cmd) else c
  }

  function RedirsOf(c: Cmd): seq<Redir> {
    if c.Redirected? then RedirsOf(c.cmd) + [c.redir] else []
  }

  /** Where a command needs no parentheses to be an operand of |. */
  predicate Simple(c: Cmd) {
    c.Exec? || c.Redirected?
  }

  /** As parseexec reads it: in parentheses unless it is a simple command. */
  function ShowExec(c: Cmd): seq<Token>
    decreases c, if Simple(c) then 0 else 4
  {
    (if Base(c).Exec? then Words(Base(c).args) else [Sym('(')] + ShowLine(Base(c)) + [Sym(')')]) + ShowRedirs(RedirsOf(c))
  }

  /** As parsepipe reads it. */
  function ShowPipe(c: Cmd): seq<Token>
    decreases c, if Simple(c) || c.Pipe? then 1 else 5
  {
    if c.Pipe? then ShowExec(c.left) + [Sym('|')] + ShowPipe(c.right) else ShowExec(c)
  }

  /** As parseline reads it before a ; */
  function ShowJob(c: Cmd): seq<Token>
    decreases c, if c.List? then 5 else 2
  {
    match c
    case Back(d) => ShowJob(d) + [Sym('&')]
    case List(_, _) => ShowExec(c)
    case _ => ShowPipe(c)
  }

  /** As parseline reads it. */
  function ShowLine(c: Cmd): seq<Token>
    decreases c, 3
  {
    if c.List? then ShowJob(c.left) + [Sym(';')] + ShowLine(c.right) else ShowJob(c)
  }

  function Spell(t: Token): string {
    match t
    case Sym(c) => [c]
    case Append => ">>"
    case Word(w) => w
  }

  function Text(ts: seq<Token>): string {
    if ts == [] then [] else Spell(ts[0]) + " " + Text(ts[1..])
  }

  /** The printer: the command's tokens, a blank after each. */
  function Show(c: Cmd): string {
    Text(ShowLine(c))
  }

  // ---- parsing inverts printing -------------------------------------------

  /** What may follow: the end, or one of the symbols. */
  predicate Follows(rest: seq<Token>, cs: string) {
    rest == [] || Starts(rest, cs)
  }

  lemma {:induction false} WrapMore(c: Cmd, list: seq<Redir>, r: Redir)
    ensures Wrap(c, list + [r]) == Redirected(Wrap(c, list), r)
    decreases |list|
  {
    if list == [] {
      assert (list + [r])[1..] == [];
    } else {
      assert (list + [r])[1..] == list[1..] + [r];
      WrapMore(Redirected(c, list[0]), list[1..], r);
    }
  }

  lemma {:induction false} Unwrap(c: Cmd)
    ensures Wrap(Base(c), RedirsOf(c)) == c
    ensures Legal(c) ==> Legal(Base(c)) && LegalRedirs(RedirsOf(c))
  {
    if c.Redirected? {
      Unwrap(c.cmd);
      WrapMore(Base(c), RedirsOf(c.cmd), c.redir);
    }
    LegalWrap(Base(c), RedirsOf(c));
  }

  lemma RedirBack(r: Redir)
    requires LegalRedir(r)
    ensures MakeRedir(RedirToken(r), r.file) == r && StartsRedir([RedirToken(r)])
  {
  }

  lemma {:induction false} RedirsBack(list: seq<Redir>, rest: seq<Token>)
    requires LegalRedirs(list) && !StartsRedir(rest)
    ensures ParseRedirs(ShowRedirs(list) + rest) == Redirs(list, rest)
  {
    hide LegalRedir, RedirToken, MakeRedir;
    var ts := ShowRedirs(list) + rest;
    if list == [] {
      assert ts == rest;
    } else {
      RedirsBack(list[1..], rest);
      assert ts[2..] == ShowRedirs(list[1..]) + rest;
      assert ts[0] == RedirToken(list[0]) && ts[1] == Word(list[0].file);
      RedirBack(list[0]);
    }
  }

  lemma {:induction false} ArgsBack(done: seq<string>, args: seq<string>, list: seq<Redir>, rest: seq<Token>)
    requires LegalArgs(done + args) && LegalRedirs(list) && Follows(rest, "|)&;") && args != []
    ensures ParseArgs(done, [], Words(args) + ShowRedirs(list) + rest) == Args(done + args, list, rest)
    decreases |args|
  {
    var ts := Words(args) + ShowRedirs(list) + rest;
    assert ts[0] == Word(args[0]);
    var next := Words(args[1..]) + ShowRedirs(list) + rest;
    assert ts[1..] == next;
    if |args| == 1 {
      assert next == ShowRedirs(list) + rest;
      RedirsBack(list, rest);
      assert done + args == done + [args[0]];
    } else {
      assert next[0] == Word(args[1]);
      assert ParseRedirs(next) == Redirs([], next);
      assert done + args == (done + [args[0]]) + args[1..];
      ArgsBack(done + [args[0]], args[1..], list, rest);
      ParseArgsWord(done, ts, next);
    }
  }

  lemma ParseArgsWord(done: seq<string>, ts: seq<Token>, next: seq<Token>)
    requires ts != [] && ts[0].Word? && ts[1..] == next && |done| + 1 < MAXARGS && ParseRedirs(next) == Redirs([], next)
    ensures ParseArgs(done, [], ts) == ParseArgs(done + [ts[0].w], [], next)
  {
    var none: seq<Redir> := [];
    assert none + none == none;
  }

  lemma ExecBack(c: Cmd, rest: seq<Token>)
    requires Legal(c) && Base(c).Exec? && Follows(rest, "|)&;")
    ensures ParseExec(ShowExec(c) + rest) == Ok(c, rest)
  {
    hide Legal, LegalArgs, Base, Wrap, RedirsOf;
    Unwrap(c);
    LegalExec(Base(c));
    var args, list := Base(c).args, RedirsOf(c);
    var ts := ShowExec(c) + rest;
    assert ts == Words(args) + ShowRedirs(list) + rest;
    if args == [] {
      assert ts == ShowRedirs(list) + rest;
      RedirsBack(list, rest);
      NotOpen(list, rest);
      ArgsDone(list, rest);
      assert Exec([]) == Base(c);
    } else {
      assert ts[0] == Word(args[0]);
      assert [] + args == args;
      ArgsBack([], args, list, rest);
    }
  }

  lemma LegalExec(c: Cmd)
    requires Legal(c)
    ensures c.Exec? ==> LegalArgs(c.args)
  {
  }

  lemma ArgsDone(list: seq<Redir>, rest: seq<Token>)
    requires Follows(rest, "|)&;")
    ensures ParseArgs([], list, rest) == Args([], list, rest)
  {
  }

  lemma NotOpen(list: seq<Redir>, rest: seq<Token>)
    requires Follows(rest, "|)&;")
    ensures !Starts(ShowRedirs(list) + rest, "(")
  {
    if list == [] {
      assert ShowRedirs(list) + rest == rest;
    }
  }

  lemma {:induction false} ExecRound(c: Cmd, rest: seq<Token>)
    requires Legal(c) && Follows(rest, "|)&;")
    ensures ParseExec(ShowExec(c) + rest) == Ok(c, rest)
    decreases c, if Simple(c) then 0 else 4
  {
    hide Legal, Wrap, RedirsOf, LegalRedirs, ParseRedirs, ParseArgs, ShowRedirs, LegalTokens;
    if Base(c).Exec? {
      ExecBack(c, rest);
    } else {
      Unwrap(c);
      var b, list := Base(c), RedirsOf(c);
      var ts := ShowExec(c) + rest;
      var after := [Sym(')')] + (ShowRedirs(list) + rest);
      assert ts[1..] == ShowLine(b) + after;
      LineRound(b, after);
      assert after[1..] == ShowRedirs(list) + rest;
      RedirsBack(list, rest);
    }
  }

  lemma {:induction false} PipeRound(c: Cmd, rest: seq<Token>)
    requires Legal(c) && Follows(rest, ")&;")
    ensures ParsePipe(ShowPipe(c) + rest) == Ok(c, rest)
    decreases c, if Simple(c) || c.Pipe? then 1 else 5
  {
    if c.Pipe? {
      var after := [Sym('|')] + (ShowPipe(c.right) + rest);
      assert ShowPipe(c) + rest == ShowExec(c.left) + after;
      ExecRound(c.left, after);
      assert after[1..] == ShowPipe(c.right) + rest;
      PipeRound(c.right, rest);
    } else {
      ExecRound(c, rest);
    }
  }

  /** The part of parseline() up to the test for ; */
  function ParseJob(ts: seq<Token>): Parsed {
    match ParsePipe(ts)
    case Panic(m) => Panic(m)
    case Ok(c, rest) => ParseBacks(c, rest)
  }

  lemma {:induction false} JobRound(c: Cmd, rest: seq<Token>)
    requires Legal(c) && Follows(rest, ")&;")
    ensures ParseJob(ShowJob(c) + rest) == ParseBacks(c, rest)
    decreases c, if c.List? then 5 else 2
  {
    match c
    case Back(d) =>
      var after := [Sym('&')] + rest;
      assert ShowJob(c) + rest == ShowJob(d) + after;
      JobRound(d, after);
      assert after[1..] == rest;
    case List(_, _) =>
      ExecRound(c, rest);
    case _ =>
      PipeRound(c, rest);
  }

  lemma {:induction false} LineRound(c: Cmd, rest: seq<Token>)
    requires Legal(c) && Follows(rest, ")")
    ensures ParseLine(ShowLine(c) + rest) == Ok(c, rest)
    decreases c, 3
  {
    if c.List? {
      var after := [Sym(';')] + (ShowLine(c.right) + rest);
      assert ShowLine(c) + rest == ShowJob(c.left) + after;
      JobRound(c.left, after);
      assert after[1..] == ShowLine(c.right) + rest;
      LineRound(c.right, rest);
    } else {
      JobRound(c, rest);
    }
  }

  // ---- the printed tokens are legal ---------------------------------------

  lemma LegalConcat(ts: seq<Token>, us: seq<Token>)
    ensures LegalTokens(ts + us) <==> LegalTokens(ts) && LegalTokens(us)
  {
    if LegalTokens(ts + us) {
      forall i | 0 <= i < |ts| ensures LegalToken(ts[i]) {
        assert LegalToken((ts + us)[i]);
      }
      forall i | 0 <= i < |us| ensures LegalToken(us[i]) {
        assert LegalToken((ts + us)[|ts| + i]);
      }
    }
  }

  lemma {:induction false} LegalShowRedirs(list: seq<Redir>)
    requires LegalRedirs(list)
    ensures LegalTokens(ShowRedirs(list))
  {
    if list != [] {
      LegalShowRedirs(list[1..]);
      assert LegalRedir(list[0]);
      LegalConcat([RedirToken(list[0]), Word(list[0].file)], ShowRedirs(list[1..]));
    }
  }

  lemma {:induction false} LegalShowExec(c: Cmd)
    requires Legal(c)
    ensures LegalTokens(ShowExec(c))
    decreases c, if Simple(c) then 0 else 4
  {
    Unwrap(c);
    var b := Base(c);
    LegalShowRedirs(RedirsOf(c));
    if b.Exec? {
      LegalConcat(Words(b.args), ShowRedirs(RedirsOf(c)));
    } else {
      LegalShowLine(b);
      LegalConcat([Sym('(')] + ShowLine(b), [Sym(')')]);
      LegalConcat([Sym('(')], ShowLine(b));
      LegalConcat([Sym('(')] + ShowLine(b) + [Sym(')')], ShowRedirs(RedirsOf(c)));
    }
  }

  lemma {:induction false} LegalShowPipe(c: Cmd)
    requires Legal(c)
    ensures LegalTokens(ShowPipe(c))
    decreases c, if Simple(c) || c.Pipe? then 1 else 5
  {
    if c.Pipe? {
      LegalShowExec(c.left);
      LegalShowPipe(c.right);
      LegalConcat(ShowExec(c.left), [Sym('|')]);
      LegalConcat(ShowExec(c.left) + [Sym('|')], ShowPipe(c.right));
    } else {
      LegalShowExec(c);
    }
  }

  lemma {:induction false} LegalShowJob(c: Cmd)
    requires Legal(c)
    ensures LegalTokens(ShowJob(c))
    decreases c, if c.List? then 5 else 2
  {
    match c
    case Back(d) =>
      LegalShowJob(d);
      LegalConcat(ShowJob(d), [Sym('&')]);
    case List(_, _) => LegalShowExec(c);
    case _ => LegalShowPipe(c);
  }

  lemma {:induction false} LegalShowLine(c: Cmd)
    requires Legal(c)
    ensures LegalTokens(ShowLine(c))
    decreases c, 3
  {
    if c.List? {
      LegalShowJob(c.left);
      LegalShowLine(c.right);
      LegalConcat(ShowJob(c.left), [Sym(';')]);
      LegalConcat(ShowJob(c.left) + [Sym(';')], ShowLine(c.right));
    } else {
      LegalShowJob(c);
    }
  }

  // ---- the lexer inverts spelling -----------------------------------------

  lemma {:induction false} WordLenOf(w: string, s: string)
    requires (forall i :: 0 <= i < |w| ==> Plain(w[i])) && s != [] && White(s[0])
    ensures WordLen(w + s) == |w|
  {
    if w == [] {
      assert w + s == s;
    } else {
      WordLenOf(w[1..], s);
      assert (w + s)[1..] == w[1..] + s;
    }
  }

  lemma FirstOf(t: Token, s: string)
    requires LegalToken(t)
    ensures var u := Spell(t) + " " + s; u != [] && !White(u[0]) && FirstToken(u) == (t, |Spell(t)|)
  {
    var u := Spell(t) + " " + s;
    if t.Word? {
      WordLenOf(t.w, " " + s);
      assert u == t.w + (" " + s);
    }
  }

  lemma LexToken(t: Token, s: string)
    requires LegalToken(t)
    ensures Lex(Spell(t) + " " + s) == [t] + Lex(s)
  {
    hide LegalToken, FirstToken, Spell;
    var u := Spell(t) + " " + s;
    FirstOf(t, s);
    assert Skip(u) == u;
    assert u[|Spell(t)|..] == " " + s;
    SkipBlank(s);
  }

  lemma SkipBlank(s: string)
    ensures Skip(" " + s) == Skip(s)
  {
    assert (" " + s)[1..] == s;
  }

  lemma LexEmpty()
    ensures Lex([]) == []
  {
  }

  lemma {:induction false} LexText(ts: seq<Token>)
    requires LegalTokens(ts)
    ensures Lex(Text(ts)) == ts
  {
    hide LegalToken, FirstToken, Spell, White, Lex;
    if ts == [] {
      LexEmpty();
    } else {
      assert LegalToken(ts[0]);
      LexText(ts[1..]);
      LexToken(ts[0], Text(ts[1..]));
    }
  }

  lemma FirstLegal(s: string)
    requires s != [] && !White(s[0]) && '\0' !in s
    ensures LegalToken(FirstToken(s).0)
  {
    var (t, n) := FirstToken(s);
    if t.Word? {
      forall i | 0 <= i < |t.w| ensures Plain(t.w[i]) {
        assert t.w[i] == s[i];
      }
    }
  }

  lemma NoNul(s: string, k: nat)
    requires '\0' !in s && k <= |s|
    ensures '\0' !in s[k..]
  {
  }

  lemma LegalOne(t: Token)
    ensures LegalTokens([t]) <==> LegalToken(t)
  {
    assert [t][0] == t;
  }

  lemma LegalNone()
    ensures LegalTokens([])
  {
  }

  lemma {:induction false} LexLegal(s: string)
    requires '\0' !in s
    ensures LegalTokens(Lex(s))
    decreases |s|
  {
    hide FirstToken, LegalToken, White, LegalTokens;
    var t := Skip(s);
    if t != [] {
      var n := FirstToken(t).1;
      NoNul(s, |s| - |t|);
      NoNul(t, n);
      FirstLegal(t);
      LexLegal(t[n..]);
      LegalConcat([FirstToken(t).0], Lex(t[n..]));
      LegalOne(FirstToken(t).0);
    } else {
      LegalNone();
    }
  }

  // ---- main results -------------------------------------------------------

  /** Printing a legal command and parsing the text gives the command back, with
      nothing left over. */
  lemma RoundTrip(c: Cmd)
    requires Legal(c)
    ensures ParseCmd(Show(c)) == Ok(c, [])
  {
    LegalShowLine(c);
    LexText(ShowLine(c));
    assert ShowLine(c) + [] == ShowLine(c);
    LineRound(c, []);
  }

  /** Every text that parses gives a legal command, so printing what was parsed gives
      a text with the same meaning. */
  lemma ParsedLegal(s: string)
    requires '\0' !in s && ParseCmd(s).Ok?
    ensures Legal(ParseCmd(s).cmd) && ParseCmd(Show(ParseCmd(s).cmd)) == ParseCmd(s)
  {
    LexLegal(s);
    RoundTrip(ParseCmd(s).cmd);
  }

  /** Different legal commands have different texts. */
  lemma ShowInjective(c: Cmd, d: Cmd)
    requires Legal(c) && Legal(d) && Show(c) == Show(d)
    ensures c == d
  {
    RoundTrip(c);
    RoundTrip(d);
  }

  /** The bound is exact: a tenth argument is a panic. */
  lemma {:induction false} TooManyArgs(done: seq<string>, args: seq<string>)
    requires |done| < MAXARGS <= |done| + |args| && |args| > 0
    ensures ParseArgs(done, [], Words(args)) == Bad("too many args")
    decreases |args|
  {
    var ts := Words(args);
    if |done| + 1 < MAXARGS {
      var next := Words(args[1..]);
      assert ts[1..] == next;
      ParseArgsWord(done, ts, next);
      TooManyArgs(done + [args[0]], args[1..]);
    }
  }
}
