/** The recursive-descent parser of user/sh.c: a pointer that moves through the text,
    proved to compute the parser on tokens. */
module Shell {
  import opened ShellSyntax

  /** A parsed command, or the message of a panic. */
  datatype Outcome = Made(cmd: Cmd) | Died(msg: string)

  /** A call of the real parser that began with tokens ts and left tokens rest did what
      the parser on tokens says. */
  predicate Agrees(r: Outcome, rest: seq<Token>, p: Parsed) {
    match p
    case Ok(c, left) => r == Made(c) && rest == left
    case Panic(m) => r == Died(m)
  }

  /** What gettoken returns for a token. */
  function Kind(t: Token): char {
    match t
    case Sym(c) => c
    case Append => '+'
    case Word(_) => 'a'
  }

  /** Looking for a token does not depend on the blanks before it. */
  lemma LexSkip(s: string)
    requires s != [] && White(s[0])
    ensures Lex(s) == Lex(s[1..])
  {
  }

  lemma LexFirst(s: string)
    requires s != [] && !White(s[0])
    ensures Lex(s) == [FirstToken(s).0] + Lex(s[FirstToken(s).1..])
  {
  }

  lemma {:induction false} WordLenIs(s: string, n: nat)
    requires n <= |s| && forall i :: 0 <= i < n ==> !White(s[i]) && !Symbol(s[i])
    requires n < |s| ==> White(s[n]) || Symbol(s[n])
    ensures WordLen(s) == n
  {
    if n > 0 {
      WordLenIs(s[1..], n - 1);
    }
  }

  /** What the first character says about the first token. */
  lemma PeekFirst(s: string, toks: string)
    requires s != [] && !White(s[0]) && forall i :: 0 <= i < |toks| ==> Symbol(toks[i])
    ensures Lex(s) != [] && (s[0] in toks <==> Starts(Lex(s), toks) || ('>' in toks && Lex(s)[0].Append?))
  {
    hide WordLen, White, Symbol, Lex;
    LexFirst(s);
    if s[0] in toks && !Symbol(s[0]) {
      assert false;
    }
  }

  lemma LexBlank()
    ensures Lex([]) == []
  {
  }

  /** How long the token at the start of s is, and what it is. */
  lemma TokenIs(s: string, n: nat, kind: char)
    requires s != [] && !White(s[0]) && 0 < n <= |s|
    requires s[0] == '>' ==> if |s| > 1 && s[1] == '>' then n == 2 && kind == '+' else n == 1 && kind == '>'
    requires s[0] != '>' && Symbol(s[0]) ==> n == 1 && kind == s[0]
    requires !Symbol(s[0]) ==> n == WordLen(s) && kind == 'a'
    ensures Lex(s) != [] && Kind(Lex(s)[0]) == kind && Lex(s)[1..] == Lex(s[n..]) && (Lex(s)[0].Word? ==> Lex(s)[0].w == s[..n])
    ensures kind != '\0' && (kind == 'a' <==> Lex(s)[0].Word?)
  {
    hide WordLen, White, Lex;
    LexFirst(s);
    var rest := Lex(s[n..]);
    assert FirstToken(s).1 == n;
    assert ([FirstToken(s).0] + rest)[1..] == rest;
  }

  class Parser {
    const text: string
    var ps: nat

    constructor (s: string)
      ensures text == s && ps == 0
    {
      text, ps := s, 0;
    }

    predicate Valid()
      reads this
    {
      ps <= |text|
    }

    /** The tokens still to be read. */
    ghost function Rest(): seq<Token>
      reads this
      requires ps <= |text|
    {
      Lex(text[ps..])
    }

    /** The loop that skips blanks. */
    method SkipWhite()
      requires Valid()
      modifies this
      ensures Valid() && Rest() == old(Rest()) && old(ps) <= ps && (ps < |text| ==> !White(text[ps]))
    {
      while ps < |text| && White(text[ps])
        invariant Valid() && Rest() == old(Rest()) && old(ps) <= ps
        decreases |text| - ps
      {
        LexSkip(text[ps..]);
        assert text[ps..][1..] == text[ps + 1..];
        ps := ps + 1;
      }
    }

    /** peek() for a set of symbols. */
    method Peek(toks: string) returns (b: bool)
      requires Valid() && forall i :: 0 <= i < |toks| ==> Symbol(toks[i])
      modifies this
      ensures Valid() && Rest() == old(Rest()) && old(ps) <= ps
      ensures b <==> Starts(Rest(), toks) || ('>' in toks && Rest() != [] && Rest()[0].Append?)
      ensures Rest() == [] <==> ps == |text|
    {
      hide Lex, White, Symbol, Starts;
      SkipWhite();
      b := ps < |text| && text[ps] in toks;
      LexBlank();
      if ps < |text| {
        PeekFirst(text[ps..], toks);
      } else {
        assert text[ps..] == [];
        StartsNone(toks);
      }
    }

    /** gettoken(): '\0' at the end of the text. */
    method GetToken() returns (kind: char, word: string)
      requires Valid()
      modifies this
      ensures Valid() && old(ps) <= ps
      ensures old(Rest()) == [] <==> kind == '\0'
      ensures old(Rest()) == [] ==> Rest() == []
      ensures kind == 'a' <==> old(Rest()) != [] && old(Rest())[0].Word?
      ensures old(Rest()) != [] ==>
                && old(ps) < ps && kind == Kind(old(Rest())[0]) && Rest() == old(Rest())[1..]
                && (old(Rest())[0].Word? ==> word == old(Rest())[0].w)
    {
      hide Lex, White, Symbol, Kind;
      SkipWhite();
      LexBlank();
      word := "";
      if ps == |text| {
        assert text[ps..] == [];
        return '\0', "";
      }
      ghost var from := text[ps..];
      var q := ps;
      kind := text[ps];
      if kind == '>' {
        GreaterIsSymbol();
        ps := ps + 1;
        if ps < |text| && text[ps] == '>' {
          kind := '+';
          ps := ps + 1;
        }
      } else if Symbol(kind) {
        ps := ps + 1;
      } else {
        kind := 'a';
        ReadWord();
      }
      word := text[q..ps];
      TokenIs(from, ps - q, kind);
      assert from[ps - q..] == text[ps..];
      assert from[..ps - q] == word;
      SkipWhite();
    }

    /** parseredirs(): the redirections at the pointer; false where it panics. */
    method ReadRedirs() returns (ok: bool, list: seq<Redir>)
      requires Valid()
      modifies this
      ensures Valid() && old(ps) <= ps
      ensures match ParseRedirs(old(Rest()))
              case NoFile => !ok
              case Redirs(l, rest) => ok && list == l && Rest() == rest
    {
      hide ParseRedirs, StartsRedir, Lex, Kind, MakeRedir;
      ok, list := true, [];
      RedirsNone(ParseRedirs(Rest()));
      while true
        invariant Valid() && ok && old(ps) <= ps
        invariant ParseRedirs(old(Rest())) == Prepend(list, ParseRedirs(Rest()))
        decreases |text| - ps
      {
        ghost var ts := Rest();
        var more := Peek("<>");
        RedirPeek(ts);
        if !more {
          RedirsEnd(ts, list);
          return;
        }
        RedirFirst(ts);
        var tok, _ := GetToken();
        assert Rest() == ts[1..];
        var kind, file := GetToken();
        RedirsStep(ts, list);
        if kind != 'a' {
          return false, [];
        }
        KindRedir(ts[0], file);
        if tok == '<' {
          list := list + [Redir(file, O_RDONLY, 0)];
        } else if tok == '>' {
          list := list + [Redir(file, O_WRONLY + O_CREATE + O_TRUNC, 1)];
        } else if tok == '+' {
          list := list + [Redir(file, O_WRONLY + O_CREATE, 1)];
        }
      }
    }

    /** parseexec() */
    method ReadExec() returns (r: Outcome)
      requires Valid()
      modifies this
      ensures Valid() && old(ps) <= ps && Agrees(r, Rest(), ParseExec(old(Rest())))
      decreases |text| - ps, 1
    {
      hide ParseRedirs, Lex, Kind, ParseArgs, ParseBlock, Wrap;
      ghost var ts := Rest();
      var open := Peek("(");
      if open {
        r := ReadBlock();
        return;
      }
      var args: seq<string> := [];
      var ok, list := ReadRedirs();
      if !ok {
        return Died("missing file for redirection");
      }
      ghost var start := Rest();
      while true
        invariant Valid() && old(ps) <= ps && |args| < MAXARGS
        invariant ParseArgs([], ParseRedirs(ts).list, start) == ParseArgs(args, list, Rest())
        decreases |text| - ps
      {
        ghost var us := Rest();
        var stop := Peek("|)&;");
        ArgsStep(args, list, us);
        if stop {
          break;
        }
        var tok, word := GetToken();
        if tok == '\0' {
          break;
        }
        if tok != 'a' {
          return Died("syntax");
        }
        args := args + [word];
        if |args| >= MAXARGS {
          return Died("too many args");
        }
        var fine, more := ReadRedirs();
        if !fine {
          return Died("missing file for redirection");
        }
        list := list + more;
      }
      r := Made(Wrap(Exec(args), list));
    }

    /** parseblock() */
    method ReadBlock() returns (r: Outcome)
      requires Valid()
      modifies this
      ensures Valid() && old(ps) <= ps && Agrees(r, Rest(), ParseBlock(old(Rest())))
      decreases |text| - ps, 0
    {
      hide ParseRedirs, Lex, Kind, ParseLine, Wrap;
      var open := Peek("(");
      if !open {
        return Died("parseblock");
      }
      var _, _ := GetToken();
      r := ReadLine();
      if r.Died? {
        return;
      }
      var c := r.cmd;
      var close := Peek(")");
      if !close {
        return Died("syntax - missing )");
      }
      var _, _ := GetToken();
      var ok, list := ReadRedirs();
      if !ok {
        return Died("missing file for redirection");
      }
      r := Made(Wrap(c, list));
    }

    /** parsepipe() */
    method ReadPipe() returns (r: Outcome)
      requires Valid()
      modifies this
      ensures Valid() && old(ps) <= ps && Agrees(r, Rest(), ParsePipe(old(Rest())))
      decreases |text| - ps, 2
    {
      hide Lex, Kind, ParseExec;
      ghost var ts := Rest();
      r := ReadExec();
      if r.Died? {
        return;
      }
      var bar := Peek("|");
      if bar {
        var left := r.cmd;
        var _, _ := GetToken();
        r := ReadPipe();
        if r.Made? {
          r := Made(Pipe(left, r.cmd));
        }
      }
    }

    /** parseline() */
    method ReadLine() returns (r: Outcome)
      requires Valid()
      modifies this
      ensures Valid() && old(ps) <= ps && Agrees(r, Rest(), ParseLine(old(Rest())))
      decreases |text| - ps, 3
    {
      hide Lex, Kind, ParsePipe, ParseBacks;
      r := ReadPipe();
      if r.Died? {
        return;
      }
      var c := r.cmd;
      ghost var ts := Rest();
      while true
        invariant Valid() && old(ps) <= ps && ParseBacks(r.cmd, ts) == ParseBacks(c, Rest())
        decreases |text| - ps
      {
        BacksStep(c, Rest());
        var amp := Peek("&");
        if !amp {
          break;
        }
        var _, _ := GetToken();
        c := Back(c);
      }
      var semi := Peek(";");
      if !semi {
        return Made(c);
      }
      var _, _ := GetToken();
      r := ReadLine();
      if r.Made? {
        r := Made(List(c, r.cmd));
      }
    }

    /** parsecmd() */
    method ReadCmd() returns (r: Outcome)
      requires ps == 0
      modifies this
      ensures match ParseCmd(text) case Ok(c, _) => r == Made(c) case Panic(m) => r == Died(m)
    {
      hide Lex, ParseLine;
      assert text[0..] == text;
      r := ReadLine();
      if r.Died? {
        return;
      }
      var none := Peek("");
      if ps != |text| {
        return Died("syntax");
      }
    }

    method ReadWord()
      requires Valid() && ps < |text| && !White(text[ps]) && !Symbol(text[ps])
      modifies this
      ensures Valid() && old(ps) < ps && WordLen(text[old(ps)..]) == ps - old(ps)
    {
      hide White, Symbol;
      var q := ps;
      while ps < |text| && !White(text[ps]) && !Symbol(text[ps])
        invariant q <= ps <= |text|
        invariant forall i :: q <= i < ps ==> !White(text[i]) && !Symbol(text[i])
        invariant ps == q ==> ps < |text| && !White(text[ps]) && !Symbol(text[ps])
        decreases |text| - ps
      {
        ps := ps + 1;
      }
      assert forall i :: 0 <= i < |text| - q ==> text[q..][i] == text[q + i];
      WordLenIs(text[q..], ps - q);
    }
  }

  lemma GreaterIsSymbol()
    ensures Symbol('>')
  {
  }

  lemma StartsNone(toks: string)
    ensures !Starts([], toks)
  {
  }

  ghost function Prepend(list: seq<Redir>, r: Redirs): Redirs {
    match r
    case NoFile => NoFile
    case Redirs(l, rest) => Redirs(list + l, rest)
  }

  lemma RedirsNone(r: Redirs)
    ensures Prepend([], r) == r
  {
  }

  lemma RedirPeek(ts: seq<Token>)
    ensures StartsRedir(ts) <==> Starts(ts, "<>") || ('>' in "<>" && ts != [] && ts[0].Append?)
    ensures forall i :: 0 <= i < |"<>"| ==> Symbol("<>"[i])
  {
  }

  lemma RedirFirst(ts: seq<Token>)
    requires StartsRedir(ts)
    ensures ts != [] && StartsRedir([ts[0]])
  {
  }

  lemma RedirsEnd(ts: seq<Token>, list: seq<Redir>)
    requires !StartsRedir(ts)
    ensures Prepend(list, ParseRedirs(ts)) == Redirs(list, ts)
  {
  }

  lemma RedirsStep(ts: seq<Token>, list: seq<Redir>)
    requires StartsRedir(ts)
    ensures if |ts| < 2 || !ts[1].Word? then ParseRedirs(ts) == NoFile
            else Prepend(list, ParseRedirs(ts)) == Prepend(list + [MakeRedir(ts[0], ts[1].w)], ParseRedirs(ts[2..]))
  {
    if |ts| >= 2 && ts[1].Word? && ParseRedirs(ts[2..]).Redirs? {
      var m, l := MakeRedir(ts[0], ts[1].w), ParseRedirs(ts[2..]).list;
      assert list + ([m] + l) == list + [m] + l;
    }
  }

  lemma KindRedir(t: Token, file: string)
    requires StartsRedir([t])
    ensures MakeRedir(t, file) == if Kind(t) == '<' then Redir(file, O_RDONLY, 0)
                                  else if Kind(t) == '>' then Redir(file, O_WRONLY + O_CREATE + O_TRUNC, 1)
                                  else Redir(file, O_WRONLY + O_CREATE, 1)
    ensures Kind(t) == '<' || Kind(t) == '>' || Kind(t) == '+'
  {
  }

  /** One turn of parseexec's loop. */
  lemma ArgsStep(args: seq<string>, list: seq<Redir>, ts: seq<Token>)
    ensures ts == [] || Starts(ts, "|)&;") ==> ParseArgs(args, list, ts) == Args(args, list, ts)
    ensures ts != [] && !Starts(ts, "|)&;") && !ts[0].Word? ==> ParseArgs(args, list, ts) == Bad("syntax")
    ensures ts != [] && ts[0].Word? ==>
              var r := ParseRedirs(ts[1..]);
              ParseArgs(args, list, ts) ==
                if |args| + 1 >= MAXARGS then Bad("too many args")
                else if r.NoFile? then Bad("missing file for redirection")
                else ParseArgs(args + [ts[0].w], list + r.list, r.rest)
  {
  }

  lemma BacksStep(c: Cmd, ts: seq<Token>)
    ensures ParseBacks(c, ts) == if Starts(ts, "&") then ParseBacks(Back(c), ts[1..]) else Ok(c, ts)
  {
  }
}
