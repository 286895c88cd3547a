/** The shell's recursive-descent parser (user/sh.c): a cursor moving over the command line.  Each routine
    is proved to read what the grammar on tokens says, for every text, and so to terminate. */
module Shell {
  import opened ShellSpec
  import opened ShellGrammar

  datatype Result<+T> = Success(value: T) | Failure(error: Error)

  // ---------- The tokens of a text ----------

  predicate Text(s: string) {
    '\0' !in s
  }

  function Skip(s: string, i: nat): (j: nat)
    requires i <= |s|
    ensures i <= j <= |s| && (j == |s| || s[j] !in Whitespace)
    decreases |s| - i
  {
    if i < |s| && s[i] in Whitespace then Skip(s, i + 1) else i
  }

  function WordEnd(s: string, i: nat): (j: nat)
    requires i <= |s|
    ensures i <= j <= |s| && (j == |s| || s[j] in Whitespace || s[j] in Symbols)
    decreases |s| - i
  {
    if i < |s| && s[i] !in Whitespace && s[i] !in Symbols then WordEnd(s, i + 1) else i
  }

  lemma {:induction false} InWord(s: string, i: nat, k: nat)
    requires i <= k < |s| && k < WordEnd(s, i)
    ensures s[k] !in Whitespace && s[k] !in Symbols
    decreases k - i
  {
    if i < k {
      InWord(s, i + 1, k);
    }
  }

  function TokenEnd(s: string, j: nat): (e: nat)
    requires j < |s| && s[j] !in Whitespace
    ensures j < e <= |s|
  {
    if s[j] == '>' && j + 1 < |s| && s[j + 1] == '>' then j + 2
    else if s[j] in Symbols then j + 1
    else WordEnd(s, j)
  }

  function TokenAt(s: string, j: nat): Token
    requires j < |s| && s[j] !in Whitespace
  {
    if s[j] == '>' && j + 1 < |s| && s[j + 1] == '>' then Op('+')
    else if s[j] in Symbols then Op(s[j])
    else Word(s[j..WordEnd(s, j)])
  }

  function Lex(s: string, i: nat): seq<Token>
    requires i <= |s|
    decreases |s| - i
  {
    var j := Skip(s, i);
    if j == |s| then [] else [TokenAt(s, j)] + Lex(s, TokenEnd(s, j))
  }

  lemma SkipTwice(s: string, i: nat)
    requires i <= |s|
    ensures Skip(s, Skip(s, i)) == Skip(s, i) && Lex(s, Skip(s, i)) == Lex(s, i)
  {
  }

  lemma {:induction false} LexGood(s: string, i: nat)
    requires Text(s) && i <= |s|
    ensures GoodTokens(Lex(s, i))
    decreases |s| - i
  {
    var j := Skip(s, i);
    if j < |s| {
      LexGood(s, TokenEnd(s, j));
      assert GoodToken(TokenAt(s, j)) by {
        if s[j] !in Symbols {
          var w := s[j..WordEnd(s, j)];
          forall k | 0 <= k < |w| ensures WordChar(w[k]) {
            InWord(s, j, j + k);
            assert w[k] == s[j + k] && w[k] in s;
          }
        }
      }
    }
  }

  // ---------- What a text spells ----------

  /** s[i..j] is the token t, and t ends there: a word does not stop short of a blank or a symbol, and `>`
      is not the half of `>>`. */
  predicate TokenIs(s: string, i: nat, j: nat, t: Token) {
    && i < j <= |s|
    && match t
       case Op(sym) =>
         if sym == '+' then s[i..j] == ">>"
         else s[i..j] == [sym] && sym in "<|>&;()" && (sym == '>' ==> j == |s| || s[j] != '>')
       case Word(text) =>
         && s[i..j] == text && (j == |s| || s[j] in " \t\r\n\U{000b}<|>&;()")
         && forall k | i <= k < j :: s[k] !in " \t\r\n\U{000b}<|>&;()"
  }

  /** From i on, the text is these tokens, with blanks between them. */
  ghost predicate Spells(s: string, i: nat, ts: seq<Token>)
    decreases |ts|
  {
    if ts == [] then i <= |s| && forall k | i <= k < |s| :: s[k] in " \t\r\n\U{000b}"
    else exists a: nat, b: nat :: SpellsAt(s, i, a, b, ts)
  }

  ghost predicate SpellsAt(s: string, i: nat, a: nat, b: nat, ts: seq<Token>)
    requires ts != []
    decreases |ts|, 0
  {
    && i <= a <= |s| && (forall k | i <= k < a :: s[k] in " \t\r\n\U{000b}")
    && TokenIs(s, a, b, ts[0]) && Spells(s, b, ts[1..])
  }

  lemma {:induction false} SkipIs(s: string, i: nat, a: nat)
    requires i <= a <= |s| && forall k | i <= k < a :: s[k] in Whitespace
    requires a == |s| || s[a] !in Whitespace
    ensures Skip(s, i) == a
    decreases a - i
  {
    if i < a {
      SkipIs(s, i + 1, a);
    }
  }

  lemma {:induction false} Skipped(s: string, i: nat, k: nat)
    requires i <= k < |s| && k < Skip(s, i)
    ensures s[k] in Whitespace
    decreases k - i
  {
    if i < k {
      Skipped(s, i + 1, k);
    }
  }

  lemma {:induction false} WordEndIs(s: string, i: nat, j: nat)
    requires i <= j <= |s| && (j == |s| || s[j] in Whitespace || s[j] in Symbols)
    requires forall k | i <= k < j :: s[k] !in Whitespace && s[k] !in Symbols
    ensures WordEnd(s, i) == j
    decreases j - i
  {
    if i < j {
      WordEndIs(s, i + 1, j);
    }
  }

  /** The characters that end a word. */
  lemma Specials(ch: char)
    ensures ch in " \t\r\n\U{000b}<|>&;()" <==> ch in Whitespace || ch in Symbols
    ensures ch in Whitespace <==> ch in " \t\r\n\U{000b}"
  {
  }

  lemma TokenFound(s: string, i: nat)
    requires i < |s| && s[i] !in Whitespace
    ensures TokenIs(s, i, TokenEnd(s, i), TokenAt(s, i))
  {
    var j := TokenEnd(s, i);
    if s[i] !in Symbols {
      forall k | i <= k < j ensures s[k] !in " \t\r\n\U{000b}<|>&;()" {
        InWord(s, i, k);
        Specials(s[k]);
      }
      if j < |s| {
        Specials(s[j]);
      }
    }
  }

  lemma TokenUnique(s: string, i: nat, j: nat, t: Token)
    requires TokenIs(s, i, j, t)
    ensures s[i] !in Whitespace && TokenEnd(s, i) == j && TokenAt(s, i) == t
  {
    match t
    case Op(sym) =>
      assert s[i] == s[i..j][0];
      if sym == '+' {
        assert s[i + 1] == s[i..j][1];
      }
    case Word(text) =>
      forall k | i <= k < j ensures s[k] !in Whitespace && s[k] !in Symbols {
        Specials(s[k]);
      }
      if j < |s| {
        Specials(s[j]);
      }
      WordEndIs(s, i, j);
  }

  /** Every text spells one sequence of tokens, and the shell reads that one. */
  lemma LexIsSpelling(s: string, i: nat, ts: seq<Token>)
    requires i <= |s|
    ensures Lex(s, i) == ts <==> Spells(s, i, ts)
  {
    if Spells(s, i, ts) {
      SpellingRead(s, i, ts);
    }
    LexSpells(s, i);
  }

  lemma {:induction false} LexSpells(s: string, i: nat)
    requires i <= |s|
    ensures Spells(s, i, Lex(s, i))
    decreases |s| - i
  {
    var a := Skip(s, i);
    forall k | i <= k < a ensures s[k] in " \t\r\n\U{000b}" {
      Skipped(s, i, k);
    }
    if a < |s| {
      var b, ts := TokenEnd(s, a), Lex(s, i);
      TokenFound(s, a);
      LexSpells(s, b);
      assert ts[0] == TokenAt(s, a) && ts[1..] == Lex(s, b);
      assert SpellsAt(s, i, a, b, ts);
    }
  }

  lemma {:induction false} SpellingRead(s: string, i: nat, ts: seq<Token>)
    requires i <= |s| && Spells(s, i, ts)
    ensures Lex(s, i) == ts
    decreases |ts|
  {
    if ts == [] {
      SkipIs(s, i, |s|);
    } else {
      var a: nat, b: nat :| SpellsAt(s, i, a, b, ts);
      TokenUnique(s, a, b, ts[0]);
      SkipIs(s, i, a);
      SpellingRead(s, b, ts[1..]);
    }
  }

  // ---------- The parser ----------

  class Parser {
    const s: string
    var pos: nat

    ghost predicate Valid()
      reads this
    {
      pos <= |s| && Text(s)
    }

    ghost function Rest(): seq<Token>
      requires Valid()
      reads this
    {
      Lex(s, pos)
    }

    constructor (text: string)
      requires Text(text)
      ensures Valid() && s == text && pos == 0
    {
      s, pos := text, 0;
    }

    /** What a parsing routine returns and leaves ahead of the cursor. */
    ghost predicate Did(r: Result<Cmd>, p: Parsed<Cmd>)
      reads this
    {
      && Valid()
      && match p
         case Err(e) => r == Failure(e)
         case Ok(cmd, rest) => r == Success(cmd) && Rest() == rest
    }

    method SkipBlanks()
      requires Valid()
      modifies this
      ensures Valid() && pos == Skip(s, old(pos)) && Rest() == old(Rest())
    {
      while pos < |s| && s[pos] in Whitespace
        invariant Valid() && Skip(s, pos) == Skip(s, old(pos))
        decreases |s| - pos
      {
        pos := pos + 1;
      }
      SkipTwice(s, old(pos));
    }

    /** peek: is the next token one that starts with one of these symbols? */
    method Peek(toks: string) returns (found: bool)
      requires Valid() && forall ch | ch in toks :: ch in Symbols
      modifies this
      ensures Valid() && Rest() == old(Rest())
      ensures found == Ahead(Rest(), if '>' in toks then toks + "+" else toks)
    {
      SkipBlanks();
      found := pos < |s| && s[pos] in toks;
      SkipTwice(s, pos);
    }

    /** gettoken: 0 at the end, 'a' for a word, which is s[q..eq], and otherwise the operator. */
    method GetToken() returns (ret: char, q: nat, eq: nat)
      requires Valid()
      modifies this
      ensures Valid() && q <= eq <= |s|
      ensures old(Rest()) == [] ==> ret == '\0' && Rest() == []
      ensures old(Rest()) != [] ==> Rest() == old(Rest())[1..]
      ensures old(Rest()) != [] && old(Rest())[0].Op? ==> ret == old(Rest())[0].sym
      ensures old(Rest()) != [] && old(Rest())[0].Word? ==> ret == 'a' && s[q..eq] == old(Rest())[0].text
    {
      SkipBlanks();
      q := pos;
      ghost var j := pos;
      SkipTwice(s, pos);
      if pos == |s| {
        ret := '\0';
      } else if s[pos] == '>' {
        ret := '>';
        pos := pos + 1;
        if pos < |s| && s[pos] == '>' {
          ret := '+';
          pos := pos + 1;
        }
      } else if s[pos] in Symbols {
        ret := s[pos];
        pos := pos + 1;
      } else {
        ret := 'a';
        while pos < |s| && s[pos] !in Whitespace && s[pos] !in Symbols
          invariant Valid() && j <= pos && WordEnd(s, pos) == WordEnd(s, j)
          decreases |s| - pos
        {
          pos := pos + 1;
        }
      }
      eq := pos;
      SkipBlanks();
    }

    method ParseRedirs(cmd: Cmd) returns (r: Result<Cmd>)
      requires Valid()
      modifies this
      ensures Did(r, WrapAhead(cmd, old(Rest())))
    {
      var cur := cmd;
      var more := Peek("<>");
      while more
        invariant Valid() && more == Ahead(Rest(), "<>+")
        invariant WrapAhead(cur, Rest()) == WrapAhead(cmd, old(Rest()))
        decreases |Rest()|
      {
        ghost var ts := Rest();
        var tok, _, _ := GetToken();
        var ret, q, eq := GetToken();
        if ret != 'a' {
          return Failure(MissingFile);
        }
        WrapStep(cur, ts);
        cur := Redir(cur, RedirectionOf(tok, s[q..eq]));
        more := Peek("<>");
      }
      r := Success(cur);
    }

    method ParseBlock() returns (r: Result<Cmd>)
      requires Valid() && Ahead(Rest(), "(")
      modifies this
      ensures Did(r, BlockOf(old(Rest())))
      decreases |Rest()|, 0
    {
      var _, _, _ := GetToken();
      r := ParseLine();
      if r.Success? {
        var close := Peek(")");
        if !close {
          return Failure(MissingClose);
        }
        var _, _, _ := GetToken();
        r := ParseRedirs(r.value);
      }
    }

    /** parseexec: a block, or redirections and words. */
    method ParseExec() returns (r: Result<Cmd>)
      requires Valid()
      modifies this
      ensures Did(r, ExecOf(old(Rest())))
      decreases |Rest()|, 1
    {
      var block := Peek("(");
      if block {
        r := ParseBlock();
        return;
      }
      r := ParseRedirs(Exec([]));
      if r.Success? {
        r := ParseArgs(r.value, Redirs(old(Rest())).value);
      }
    }

    /** parseexec's loop: the words go into the fixed array of an EXEC node, which redirections may
        already wrap. */
    method ParseArgs(node: Cmd, ghost first: seq<Redirection>) returns (r: Result<Cmd>)
      requires Valid() && node == Wrap(Exec([]), first)
      modifies this
      ensures Did(r, Args(old(Rest()), [], first))
    {
      var argv := new string[MAXARGS];
      var argc := 0;
      ghost var rs, words := first, [];
      r := Success(node);
      var stop := Peek("|)&;");
      while !stop
        invariant Valid() && 0 <= argc < MAXARGS && stop == Ahead(Rest(), "|)&;")
        invariant r == Success(Wrap(Exec([]), rs))
        invariant argv[..argc] == words && Args(Rest(), words, rs) == Args(old(Rest()), [], first)
        decreases |Rest()|
      {
        ghost var ts := Rest();
        var tok, q, eq := GetToken();
        if tok == '\0' {
          break;
        }
        if tok != 'a' {
          return Failure(Syntax);
        }
        argv[argc] := s[q..eq];
        argc := argc + 1;
        if argc >= MAXARGS {
          return Failure(TooManyArgs);
        }
        words := words + [ts[0].text];
        assert argv[..argc] == words;
        r := ParseRedirs(r.value);
        if r.Failure? {
          return;
        }
        ghost var more := Redirs(ts[1..]).value;
        WrapJoin(Exec([]), rs, more);
        rs := rs + more;
        stop := Peek("|)&;");
      }
      FillWrap(argv[..argc], rs);
      r := Success(Fill(r.value, argv[..argc]));
    }

    method ParsePipe() returns (r: Result<Cmd>)
      requires Valid()
      modifies this
      ensures Did(r, PipeOf(old(Rest())))
      decreases |Rest()|, 2
    {
      r := ParseExec();
      if r.Success? {
        var more := Peek("|");
        if more {
          var _, _, _ := GetToken();
          var right := ParsePipe();
          r := if right.Failure? then right else Success(Pipe(r.value, right.value));
        }
      }
    }

    method ParseLine() returns (r: Result<Cmd>)
      requires Valid()
      modifies this
      ensures Did(r, LineOf(old(Rest())))
      decreases |Rest()|, 3
    {
      r := ParsePipe();
      if r.Failure? {
        return;
      }
      ghost var first, after := r.value, Rest();
      var back := Peek("&");
      while back
        invariant Valid() && back == Ahead(Rest(), "&") && |Rest()| <= |after| && r.Success?
        invariant Backs(r.value, Rest()) == Backs(first, after)
        decreases |Rest()|
      {
        var _, _, _ := GetToken();
        r := Success(Back(r.value));
        back := Peek("&");
      }
      var more := Peek(";");
      if more {
        var _, _, _ := GetToken();
        var right := ParseLine();
        r := if right.Failure? then right else Success(List(r.value, right.value));
      }
    }
  }

  /** parsecmd: the whole text must be one line. */
  method ParseCmd(s: string) returns (r: Result<Cmd>)
    requires Text(s)
    ensures match CmdOf(Lex(s, 0))
            case Ok(cmd, _) => r == Success(cmd)
            case Err(e) => r == Failure(e)
    ensures r.Success? ==> LineSpelled(s, r.value)
    ensures forall c | LineSpelled(s, c) :: r == Success(c)
  {
    var p := new Parser(s);
    r := p.ParseLine();
    if r.Success? {
      p.SkipBlanks();
      if p.pos != |s| {
        r := Failure(Leftovers);
      }
    }
    if r.Success? {
      SpelledIff(s, r.value);
    }
    forall c | LineSpelled(s, c) ensures CmdOf(Lex(s, 0)) == Ok(c, []) {
      SpelledIff(s, c);
    }
  }

  /** The text spells a line of the grammar that reads as c. */
  ghost predicate LineSpelled(s: string, c: Cmd) {
    exists ts :: Spells(s, 0, ts) && LineIs(ts, c)
  }

  lemma SpelledIff(s: string, c: Cmd)
    ensures LineSpelled(s, c) <==> CmdOf(Lex(s, 0)) == Ok(c, [])
  {
    LexIsSpelling(s, 0, Lex(s, 0));
    ParserIsGrammar(Lex(s, 0), c);
    if ts :| Spells(s, 0, ts) && LineIs(ts, c) {
      LexIsSpelling(s, 0, ts);
    }
  }

  /** Puts the words into the EXEC node under the redirections. */
  function Fill(c: Cmd, argv: seq<string>): Cmd {
    match c
    case Exec(_) => Exec(argv)
    case Redir(cmd, to) => Redir(Fill(cmd, argv), to)
    case _ => c
  }

  lemma {:induction false} FillWrapped(c: Cmd, argv: seq<string>, rs: seq<Redirection>)
    ensures Fill(Wrap(c, rs), argv) == Wrap(Fill(c, argv), rs)
    decreases |rs|
  {
    if rs != [] {
      FillWrapped(Redir(c, rs[0]), argv, rs[1..]);
    }
  }

  lemma FillWrap(argv: seq<string>, rs: seq<Redirection>)
    ensures Fill(Wrap(Exec([]), rs), argv) == Wrap(Exec(argv), rs)
  {
    FillWrapped(Exec([]), argv, rs);
  }

  // ---------- Printed text ----------

  function TextOf(t: Token): string {
    match t
    case Op(sym) => if sym == '+' then ">>" else [sym]
    case Word(text) => text
  }

  /** The tokens, each followed by a blank. */
  function Render(ts: seq<Token>): string {
    if ts == [] then "" else TextOf(ts[0]) + " " + Render(ts[1..])
  }

  lemma OpAt(s: string, i: nat, sym: char)
    requires GoodToken(Op(sym)) && i + |TextOf(Op(sym))| < |s|
    requires var j := i + |TextOf(Op(sym))|; s[i..j] == TextOf(Op(sym)) && s[j] == ' '
    ensures s[i] !in Whitespace && TokenAt(s, i) == Op(sym) && TokenEnd(s, i) == i + |TextOf(Op(sym))|
  {
    var j := i + |TextOf(Op(sym))|;
    assert s[i] == s[i..j][0];
    if sym == '+' {
      assert s[i + 1] == s[i..j][1];
    }
  }

  lemma WordAt(s: string, i: nat, w: string)
    requires GoodWord(w) && i + |w| < |s| && s[i..i + |w|] == w && s[i + |w|] == ' '
    ensures s[i] !in Whitespace && TokenAt(s, i) == Word(w) && TokenEnd(s, i) == i + |w|
  {
    var j := i + |w|;
    forall k | i <= k < j ensures s[k] !in Whitespace && s[k] !in Symbols {
      assert s[k] == s[i..j][k - i] && WordChar(w[k - i]);
    }
    WordEndIs(s, i, j);
  }

  lemma LexStep(s: string, i: nat, t: Token, j: nat)
    requires GoodToken(t) && j == i + |TextOf(t)| < |s| && s[i..j] == TextOf(t) && s[j] == ' '
    ensures Lex(s, i) == [t] + Lex(s, j + 1)
  {
    if t.Op? {
      OpAt(s, i, t.sym);
    } else {
      WordAt(s, i, t.text);
    }
    assert Skip(s, i) == i && Skip(s, j) == Skip(s, j + 1);
  }

  lemma Pieces(s: string, i: nat, t: string, r: string, j: nat)
    requires i <= |s| && s[i..] == t + " " + r && j == i + |t|
    ensures j < |s| && s[i..j] == t && s[j] == ' ' && s[j + 1..] == r
  {
    assert s[i..j] == s[i..][..|t|];
    assert s[j] == s[i..][|t|];
    assert s[j + 1..] == s[i..][|t| + 1..];
  }

  lemma {:induction false} LexRender(s: string, i: nat, ts: seq<Token>)
    requires i <= |s| && s[i..] == Render(ts) && GoodTokens(ts)
    ensures Lex(s, i) == ts
    decreases |ts|
  {
    if ts == [] {
      assert i == |s|;
    } else {
      var j := RenderStep(s, i, ts);
      LexRender(s, j + 1, ts[1..]);
      HeadTail(Lex(s, i), Lex(s, j + 1), ts);
    }
  }

  /** The first token of a printed text. */
  lemma RenderStep(s: string, i: nat, ts: seq<Token>) returns (j: nat)
    requires i <= |s| && s[i..] == Render(ts) && GoodTokens(ts) && ts != []
    ensures j < |s| && s[j + 1..] == Render(ts[1..]) && GoodTokens(ts[1..])
    ensures Lex(s, i) == [ts[0]] + Lex(s, j + 1)
  {
    j := i + |TextOf(ts[0])|;
    Pieces(s, i, TextOf(ts[0]), Render(ts[1..]), j);
    assert GoodToken(ts[0]);
    LexStep(s, i, ts[0], j);
  }

  lemma HeadTail(a: seq<Token>, b: seq<Token>, ts: seq<Token>)
    requires ts != [] && a == [ts[0]] + b && b == ts[1..]
    ensures a == ts
  {
  }

  lemma {:induction false} PrintGood(c: Cmd)
    requires Sensible(c)
    ensures GoodTokens(Print(c))
  {
    match c
    case Exec(argv) =>
    case Redir(cmd, to) => PrintGood(cmd);
    case Pipe(l, r) => PrintGood(l); PrintGood(r);
    case List(l, r) => PrintGood(l); PrintGood(r);
    case Back(cmd) => PrintGood(cmd);
  }

  /** The shell reads the printed text of a tree back as that tree, if and only if every command in it
      has fewer than MAXARGS words. */
  lemma TextRoundTrip(c: Cmd)
    requires Sensible(c)
    ensures Text(Render(Print(c)))
    ensures CmdOf(Lex(Render(Print(c)), 0)) == if Short(c) then Ok(c, []) else Err(TooManyArgs)
  {
    PrintGood(c);
    RenderText(Print(c));
    LexRender(Render(Print(c)), 0, Print(c));
    ParsePrint(c);
  }

  /** For every text: what the shell accepts, it reads back from the printed form. */
  lemma TextFaithful(s: string, t: Token)
    requires Text(s) && CmdOf(Lex(s, 0)).Ok? && !Bracket(t)
    ensures var c := CmdOf(Lex(s, 0)).value;
      Content(Lex(s, 0), t) == Items(c, t) && CmdOf(Lex(Render(Print(c)), 0)) == Ok(c, [])
  {
    LexGood(s, 0);
    LineFaithful(Lex(s, 0), t);
    TextRoundTrip(CmdOf(Lex(s, 0)).value);
  }

  lemma {:induction false} RenderText(ts: seq<Token>)
    requires GoodTokens(ts)
    ensures Text(Render(ts))
    decreases |ts|
  {
    if ts != [] {
      assert GoodToken(ts[0]);
      RenderText(ts[1..]);
      var t := TextOf(ts[0]);
      assert '\0' !in t by {
        if ts[0].Word? {
          assert forall k | 0 <= k < |t| :: WordChar(t[k]);
        }
      }
    }
  }
}
