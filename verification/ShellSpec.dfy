/** The shell's grammar on tokens (user/sh.c): what each parsing routine reads, as a function of the
    tokens ahead of the cursor, and the round trip with a fully parenthesising printer.
 */
module ShellSpec {
  const MAXARGS := 10

  const O_RDONLY := 0x000
  const O_WRONLY := 0x001
  const O_CREATE := 0x200
  const O_TRUNC := 0x400

  const Whitespace := " \t\r\n\U{000b}"
  const Symbols := "<|>&;()"

  /** The operators are '|', '(', ')', ';', '&', '<', '>', and '+' for ">>". */
  datatype Token = Op(sym: char) | Word(text: string)

  datatype Redirection = Redirection(file: string, mode: nat, fd: nat)

  datatype Cmd =
    | Exec(argv: seq<string>)
    | Redir(cmd: Cmd, to: Redirection)
    | Pipe(left: Cmd, right: Cmd)
    | List(left: Cmd, right: Cmd)
    | Back(cmd: Cmd)

  datatype Error = MissingFile | MissingClose | Syntax | TooManyArgs | Leftovers

  datatype Parsed<+T> = Ok(value: T, rest: seq<Token>) | Err(error: Error)

  // ---------- The parser on tokens ----------

  predicate Ahead(ts: seq<Token>, syms: string) {
    ts != [] && ts[0].Op? && ts[0].sym in syms
  }

  function RedirectionOf(sym: char, file: string): Redirection {
    if sym == '<' then Redirection(file, O_RDONLY, 0)
    else if sym == '>' then Redirection(file, O_WRONLY + O_CREATE + O_TRUNC, 1)
    else Redirection(file, O_WRONLY + O_CREATE, 1)
  }

  function Wrap(cmd: Cmd, rs: seq<Redirection>): Cmd
    decreases |rs|
  {
    if rs == [] then cmd else Wrap(Redir(cmd, rs[0]), rs[1..])
  }

  lemma {:induction false} WrapJoin(c: Cmd, a: seq<Redirection>, b: seq<Redirection>)
    ensures Wrap(Wrap(c, a), b) == Wrap(c, a + b)
    decreases |a|
  {
    if a == [] {
      assert a + b == b;
    } else {
      WrapJoin(Redir(c, a[0]), a[1..], b);
      assert (a + b)[1..] == a[1..] + b;
    }
  }

  lemma WrapStep(cmd: Cmd, ts: seq<Token>)
    requires Ahead(ts, "<>+") && |ts| >= 2 && ts[1].Word?
    ensures WrapAhead(cmd, ts) == WrapAhead(Redir(cmd, RedirectionOf(ts[0].sym, ts[1].text)), ts[2..])
  {
    var to := RedirectionOf(ts[0].sym, ts[1].text);
    var more := Redirs(ts[2..]);
    if more.Ok? {
      assert ([to] + more.value)[1..] == more.value;
    }
  }

  function Redirs(ts: seq<Token>): (r: Parsed<seq<Redirection>>)
    ensures r.Ok? ==> |r.rest| + 2 * |r.value| == |ts| && !Ahead(r.rest, "<>+")
    decreases |ts|
  {
    if !Ahead(ts, "<>+") then Ok([], ts)
    else if |ts| < 2 || !ts[1].Word? then Err(MissingFile)
    else
      match Redirs(ts[2..])
      case Err(e) => Err(e)
      case Ok(rs, rest) => Ok([RedirectionOf(ts[0].sym, ts[1].text)] + rs, rest)
  }

  /** parseexec's loop, with the words and the redirections it has read so far. */
  function Args(ts: seq<Token>, argv: seq<string>, rs: seq<Redirection>): (r: Parsed<Cmd>)
    ensures r.Ok? ==> |r.rest| <= |ts|
    decreases |ts|
  {
    if ts == [] || Ahead(ts, "|)&;") then Ok(Wrap(Exec(argv), rs), ts)
    else if !ts[0].Word? then Err(Syntax)
    else if |argv| + 1 >= MAXARGS then Err(TooManyArgs)
    else
      match Redirs(ts[1..])
      case Err(e) => Err(e)
      case Ok(more, rest) => Args(rest, argv + [ts[0].text], rs + more)
  }

  function ExecOf(ts: seq<Token>): (r: Parsed<Cmd>)
    ensures r.Ok? ==> |r.rest| <= |ts|
    decreases |ts|, 1
  {
    if Ahead(ts, "(") then BlockOf(ts)
    else
      match Redirs(ts)
      case Err(e) => Err(e)
      case Ok(rs, rest) => Args(rest, [], rs)
  }

  /** parseredirs: wraps a command in the redirections ahead. */
  function WrapAhead(cmd: Cmd, ts: seq<Token>): (r: Parsed<Cmd>)
    ensures r.Ok? ==> |r.rest| <= |ts|
  {
    match Redirs(ts)
    case Err(e) => Err(e)
    case Ok(rs, rest) => Ok(Wrap(cmd, rs), rest)
  }

  function BlockOf(ts: seq<Token>): (r: Parsed<Cmd>)
    requires Ahead(ts, "(")
    ensures r.Ok? ==> |r.rest| < |ts|
    decreases |ts|, 0
  {
    match LineOf(ts[1..])
    case Err(e) => Err(e)
    case Ok(cmd, rest) =>
      if !Ahead(rest, ")") then Err(MissingClose)
      else
        WrapAhead(cmd, rest[1..])
  }

  function PipeOf(ts: seq<Token>): (r: Parsed<Cmd>)
    ensures r.Ok? ==> |r.rest| <= |ts|
    decreases |ts|, 2
  {
    match ExecOf(ts)
    case Err(e) => Err(e)
    case Ok(left, rest) =>
      if !Ahead(rest, "|") then Ok(left, rest)
      else
        match PipeOf(rest[1..])
        case Err(e) => Err(e)
        case Ok(right, rest') => Ok(Pipe(left, right), rest')
  }

  /** parseline's loop over '&'. */
  function Backs(cmd: Cmd, ts: seq<Token>): (r: (Cmd, seq<Token>))
    ensures |r.1| <= |ts| && !Ahead(r.1, "&")
    decreases |ts|
  {
    if Ahead(ts, "&") then Backs(Back(cmd), ts[1..]) else (cmd, ts)
  }

  function LineOf(ts: seq<Token>): (r: Parsed<Cmd>)
    ensures r.Ok? ==> |r.rest| <= |ts|
    decreases |ts|, 3
  {
    match PipeOf(ts)
    case Err(e) => Err(e)
    case Ok(first, rest) =>
      var (cmd, after) := Backs(first, rest);
      if !Ahead(after, ";") then Ok(cmd, after)
      else
        match LineOf(after[1..])
        case Err(e) => Err(e)
        case Ok(right, rest') => Ok(List(cmd, right), rest')
  }

  function CmdOf(ts: seq<Token>): Parsed<Cmd> {
    match LineOf(ts)
    case Err(e) => Err(e)
    case Ok(cmd, rest) => if rest == [] then Ok(cmd, []) else Err(Leftovers)
  }

  // ---------- The printer ----------

  predicate WordChar(ch: char) {
    ch != '\0' && ch !in Whitespace && ch !in Symbols
  }

  predicate GoodWord(w: string) {
    w != [] && forall k | 0 <= k < |w| :: WordChar(w[k])
  }

  function SymOf(r: Redirection): char {
    if r.fd == 0 then '<' else if r.mode == O_WRONLY + O_CREATE then '+' else '>'
  }

  /** A tree the shell can express: real words, and one of the three kinds of redirection. */
  predicate Sensible(c: Cmd) {
    match c
    case Exec(argv) => forall k | 0 <= k < |argv| :: GoodWord(argv[k])
    case Redir(cmd, to) => Sensible(cmd) && GoodWord(to.file) && to == RedirectionOf(SymOf(to), to.file)
    case Pipe(l, r) => Sensible(l) && Sensible(r)
    case List(l, r) => Sensible(l) && Sensible(r)
    case Back(cmd) => Sensible(cmd)
  }

  /** No command has MAXARGS words or more. */
  predicate Short(c: Cmd) {
    match c
    case Exec(argv) => |argv| < MAXARGS
    case Redir(cmd, _) => Short(cmd)
    case Pipe(l, r) => Short(l) && Short(r)
    case List(l, r) => Short(l) && Short(r)
    case Back(cmd) => Short(cmd)
  }

  function Words(argv: seq<string>): seq<Token> {
    seq(|argv|, k requires 0 <= k < |argv| => Word(argv[k]))
  }

  function Paren(ts: seq<Token>): seq<Token> {
    [Op('(')] + ts + [Op(')')]
  }

  function Print(c: Cmd): seq<Token> {
    match c
    case Exec(argv) => Words(argv)
    case Redir(cmd, to) => Paren(Print(cmd)) + [Op(SymOf(to)), Word(to.file)]
    case Pipe(l, r) => Paren(Print(l)) + [Op('|')] + Paren(Print(r))
    case List(l, r) => Paren(Print(l)) + [Op(';')] + Paren(Print(r))
    case Back(cmd) => Paren(Print(cmd)) + [Op('&')]
  }

  // ---------- The round trip ----------

  /** What may follow a printed tree: nothing, or the parenthesis that closes it. */
  predicate Stop(rest: seq<Token>) {
    rest == [] || Ahead(rest, ")")
  }

  function Outcome(c: Cmd, rest: seq<Token>): Parsed<Cmd> {
    if Short(c) then Ok(c, rest) else Err(TooManyArgs)
  }

  lemma {:induction false} ArgsOfWords(argv: seq<string>, before: seq<string>, rest: seq<Token>)
    requires Stop(rest) && |before| < MAXARGS
    ensures Args(Words(argv) + rest, before, []) == Outcome(Exec(before + argv), rest)
    decreases |argv|
  {
    var ts := Words(argv) + rest;
    if argv == [] {
      assert ts == rest && before + argv == before;
    } else {
      assert ts[0] == Word(argv[0]);
      assert ts[1..] == Words(argv[1..]) + rest;
      assert before + argv == (before + [argv[0]]) + argv[1..];
      assert Redirs(ts[1..]) == Ok([], ts[1..]);
      var none: seq<Redirection> := [];
      assert none + [] == none;
      if |before| + 1 < MAXARGS {
        ArgsOfWords(argv[1..], before + [argv[0]], rest);
      }
    }
  }

  lemma WordsTrip(argv: seq<string>, rest: seq<Token>)
    requires Stop(rest)
    ensures LineOf(Words(argv) + rest) == Outcome(Exec(argv), rest)
  {
    var ts := Words(argv) + rest;
    ArgsOfWords(argv, [], rest);
    assert [] + argv == argv;
    assert argv == [] ==> ts == rest;
    assert argv != [] ==> ts[0] == Word(argv[0]);
    assert Redirs(ts) == Ok([], ts);
    assert ExecOf(ts) == Outcome(Exec(argv), rest);
  }

  /** A parenthesised tree is read back as one command, whatever follows. */
  lemma ParenTrip(c: Cmd, more: seq<Token>)
    requires LineOf(Print(c) + ([Op(')')] + more)) == Outcome(c, [Op(')')] + more)
    ensures ExecOf(Paren(Print(c)) + more) == if Short(c) then WrapAhead(c, more) else Err(TooManyArgs)
    ensures !Ahead(more, "<>+") ==> ExecOf(Paren(Print(c)) + more) == Outcome(c, more)
  {
    var ts := Paren(Print(c)) + more;
    assert ts[1..] == Print(c) + ([Op(')')] + more);
    assert ([Op(')')] + more)[1..] == more;
    assert Ahead(ts, "(");
  }

  /** A parenthesised tree at the end of a pipeline. */
  lemma PipeTrip(c: Cmd, more: seq<Token>)
    requires LineOf(Print(c) + ([Op(')')] + more)) == Outcome(c, [Op(')')] + more)
    requires !Ahead(more, "<>+") && !Ahead(more, "|")
    ensures PipeOf(Paren(Print(c)) + more) == Outcome(c, more)
  {
    ParenTrip(c, more);
  }

  /** And at the end of a line. */
  lemma EndTrip(c: Cmd, rest: seq<Token>)
    requires LineOf(Print(c) + ([Op(')')] + rest)) == Outcome(c, [Op(')')] + rest)
    requires Stop(rest)
    ensures LineOf(Paren(Print(c)) + rest) == Outcome(c, rest)
  {
    PipeTrip(c, rest);
  }

  /** Parsing a printed tree gives the tree back, unless a command in it has too many words. */
  lemma {:induction false} LineTrip(c: Cmd, rest: seq<Token>)
    requires Sensible(c) && Stop(rest)
    ensures LineOf(Print(c) + rest) == Outcome(c, rest)
    decreases c
  {
    match c
    case Exec(argv) => WordsTrip(argv, rest);
    case Redir(cmd, to) =>
      LineTrip(cmd, [Op(')')] + ([Op(SymOf(to)), Word(to.file)] + rest));
      RedirTrip(cmd, to, rest);
    case Pipe(l, r) =>
      LineTrip(l, [Op(')')] + ([Op('|')] + (Paren(Print(r)) + rest)));
      LineTrip(r, [Op(')')] + rest);
      PipesTrip(l, r, rest);
    case List(l, r) =>
      LineTrip(l, [Op(')')] + ([Op(';')] + (Paren(Print(r)) + rest)));
      LineTrip(r, [Op(')')] + rest);
      ListTrip(l, r, rest);
    case Back(cmd) =>
      LineTrip(cmd, [Op(')')] + ([Op('&')] + rest));
      BackTrip(cmd, rest);
  }

  lemma RedirTrip(c: Cmd, to: Redirection, rest: seq<Token>)
    requires Stop(rest) && to == RedirectionOf(SymOf(to), to.file)
    requires var tail := [Op(')')] + ([Op(SymOf(to)), Word(to.file)] + rest);
             LineOf(Print(c) + tail) == Outcome(c, tail)
    ensures LineOf(Print(Redir(c, to)) + rest) == Outcome(Redir(c, to), rest)
  {
    var more := [Op(SymOf(to)), Word(to.file)] + rest;
    ParenTrip(c, more);
    assert Print(Redir(c, to)) + rest == Paren(Print(c)) + more;
    assert more[2..] == rest && more[0] == Op(SymOf(to)) && more[1] == Word(to.file);
    assert Redirs(rest) == Ok([], rest);
    assert Redirs(more) == Ok([to] + [], rest);
    assert [to] + [] == [to] && [to][1..] == [];
    assert Wrap(c, [to]) == Redir(c, to);
  }

  lemma Reassoc(a: seq<Token>, b: seq<Token>, c: seq<Token>, d: seq<Token>)
    ensures a + b + c + d == a + (b + (c + d))
  {
  }

  lemma PipesTrip(l: Cmd, r: Cmd, rest: seq<Token>)
    requires Stop(rest)
    requires var tail := [Op(')')] + ([Op('|')] + (Paren(Print(r)) + rest)); LineOf(Print(l) + tail) == Outcome(l, tail)
    requires LineOf(Print(r) + ([Op(')')] + rest)) == Outcome(r, [Op(')')] + rest)
    ensures LineOf(Print(Pipe(l, r)) + rest) == Outcome(Pipe(l, r), rest)
  {
    var more := [Op('|')] + (Paren(Print(r)) + rest);
    assert more[0] == Op('|') && more[1..] == Paren(Print(r)) + rest;
    ParenTrip(l, more);
    PipeTrip(r, rest);
    Reassoc(Paren(Print(l)), [Op('|')], Paren(Print(r)), rest);
    assert PipeOf(Paren(Print(l)) + more) == Outcome(Pipe(l, r), rest);
  }

  lemma ListTrip(l: Cmd, r: Cmd, rest: seq<Token>)
    requires Stop(rest)
    requires var tail := [Op(')')] + ([Op(';')] + (Paren(Print(r)) + rest)); LineOf(Print(l) + tail) == Outcome(l, tail)
    requires LineOf(Print(r) + ([Op(')')] + rest)) == Outcome(r, [Op(')')] + rest)
    ensures LineOf(Print(List(l, r)) + rest) == Outcome(List(l, r), rest)
  {
    var more := [Op(';')] + (Paren(Print(r)) + rest);
    assert more[0] == Op(';') && more[1..] == Paren(Print(r)) + rest;
    PipeTrip(l, more);
    EndTrip(r, rest);
    assert Backs(l, more) == (l, more);
    Reassoc(Paren(Print(l)), [Op(';')], Paren(Print(r)), rest);
  }

  lemma BackTrip(c: Cmd, rest: seq<Token>)
    requires Stop(rest)
    requires var tail := [Op(')')] + ([Op('&')] + rest); LineOf(Print(c) + tail) == Outcome(c, tail)
    ensures LineOf(Print(Back(c)) + rest) == Outcome(Back(c), rest)
  {
    var more := [Op('&')] + rest;
    assert more[0] == Op('&') && more[1..] == rest;
    PipeTrip(c, more);
    assert Print(Back(c)) + rest == Paren(Print(c)) + more;
    assert Backs(Back(c), rest) == (Back(c), rest);
    assert Backs(c, more) == (Back(c), rest);
  }

  /** The shell reads back exactly the trees in which every command has fewer than MAXARGS words; for
      any other tree it stops with "too many args". */
  lemma ParsePrint(c: Cmd)
    requires Sensible(c)
    ensures CmdOf(Print(c)) == if Short(c) then Ok(c, []) else Err(TooManyArgs)
  {
    LineTrip(c, []);
    assert Print(c) + [] == Print(c);
  }

  // ---------- What any parse result is made of ----------

  predicate GoodToken(t: Token) {
    match t
    case Op(sym) => sym in "|();&<>+"
    case Word(text) => GoodWord(text)
  }

  predicate GoodTokens(ts: seq<Token>) {
    forall k | 0 <= k < |ts| :: GoodToken(ts[k])
  }

  /** How often t occurs in ts. */
  function Content(ts: seq<Token>, t: Token): nat {
    if ts == [] then 0 else One(ts[0], t) + Content(ts[1..], t)
  }

  function One(u: Token, t: Token): nat {
    if u == t then 1 else 0
  }

  /** How often a tree uses t. */
  function Items(c: Cmd, t: Token): nat {
    match c
    case Exec(argv) => Content(Words(argv), t)
    case Redir(cmd, to) => Items(cmd, t) + Target(to, t)
    case Pipe(l, r) => Items(l, t) + One(Op('|'), t) + Items(r, t)
    case List(l, r) => Items(l, t) + One(Op(';'), t) + Items(r, t)
    case Back(cmd) => Items(cmd, t) + One(Op('&'), t)
  }

  function Target(to: Redirection, t: Token): nat {
    One(Op(SymOf(to)), t) + One(Word(to.file), t)
  }

  function Targets(rs: seq<Redirection>, t: Token): nat {
    if rs == [] then 0 else Target(rs[0], t) + Targets(rs[1..], t)
  }

  predicate Bracket(t: Token) {
    t == Op('(') || t == Op(')')
  }

  predicate GoodTarget(to: Redirection) {
    GoodWord(to.file) && to == RedirectionOf(SymOf(to), to.file)
  }

  predicate GoodTargets(rs: seq<Redirection>) {
    forall k | 0 <= k < |rs| :: GoodTarget(rs[k])
  }

  /** A parse of ts that used up every token before the rest exactly once. */
  ghost predicate Faithful(ts: seq<Token>, r: Parsed<Cmd>, t: Token) {
    r.Ok? ==>
      Sensible(r.value) && Short(r.value) && GoodTokens(r.rest)
        && Content(ts, t) == Items(r.value, t) + Content(r.rest, t)
  }

  lemma {:induction false} WrapFaithful(c: Cmd, rs: seq<Redirection>, t: Token)
    requires Sensible(c) && GoodTargets(rs)
    ensures Sensible(Wrap(c, rs)) && Short(Wrap(c, rs)) == Short(c)
    ensures Items(Wrap(c, rs), t) == Items(c, t) + Targets(rs, t)
    decreases |rs|
  {
    if rs != [] {
      assert GoodTarget(rs[0]);
      WrapFaithful(Redir(c, rs[0]), rs[1..], t);
    }
  }

  lemma {:induction false} RedirsFaithful(ts: seq<Token>, t: Token)
    requires GoodTokens(ts)
    ensures var r := Redirs(ts);
      r.Ok? ==> GoodTargets(r.value) && GoodTokens(r.rest) && Content(ts, t) == Targets(r.value, t) + Content(r.rest, t)
    decreases |ts|
  {
    if Redirs(ts).Ok? && Ahead(ts, "<>+") {
      assert GoodToken(ts[1]);
      RedirsFaithful(ts[2..], t);
      assert ts[1..][1..] == ts[2..];
      var to := RedirectionOf(ts[0].sym, ts[1].text);
      assert SymOf(to) == ts[0].sym;
      var more := Redirs(ts[2..]).value;
      assert ([to] + more)[1..] == more && ([to] + more)[0] == to;
    }
  }

  lemma {:induction false} TargetsJoin(a: seq<Redirection>, b: seq<Redirection>, t: Token)
    ensures Targets(a + b, t) == Targets(a, t) + Targets(b, t)
    decreases |a|
  {
    if a == [] {
      assert a + b == b;
    } else {
      TargetsJoin(a[1..], b, t);
      assert (a + b)[1..] == a[1..] + b && (a + b)[0] == a[0];
    }
  }

  lemma {:induction false} ContentSnoc(argv: seq<string>, w: string, t: Token)
    ensures Content(Words(argv + [w]), t) == Content(Words(argv), t) + One(Word(w), t)
    decreases |argv|
  {
    var ws := Words(argv + [w]);
    if argv == [] {
      assert ws == [Word(w)] && ws[1..] == [];
    } else {
      ContentSnoc(argv[1..], w, t);
      assert ws[1..] == Words(argv[1..] + [w]);
      assert Words(argv)[1..] == Words(argv[1..]);
    }
  }

  lemma {:induction false} ArgsFaithful(ts: seq<Token>, argv: seq<string>, rs: seq<Redirection>, t: Token)
    requires GoodTokens(ts) && Sensible(Exec(argv)) && |argv| < MAXARGS && GoodTargets(rs)
    ensures var r := Args(ts, argv, rs);
      r.Ok? ==>
        && Sensible(r.value) && Short(r.value) && GoodTokens(r.rest)
        && Content(Words(argv), t) + Targets(rs, t) + Content(ts, t) == Items(r.value, t) + Content(r.rest, t)
    decreases |ts|
  {
    if Args(ts, argv, rs).Ok? {
      if ts == [] || Ahead(ts, "|)&;") {
        WrapFaithful(Exec(argv), rs, t);
      } else {
        assert GoodToken(ts[0]);
        RedirsFaithful(ts[1..], t);
        var more := Redirs(ts[1..]);
        ArgsFaithful(more.rest, argv + [ts[0].text], rs + more.value, t);
        TargetsJoin(rs, more.value, t);
        ContentSnoc(argv, ts[0].text, t);
      }
    }
  }

  lemma {:induction false} ExecFaithful(ts: seq<Token>, t: Token)
    requires GoodTokens(ts) && !Bracket(t)
    ensures Faithful(ts, ExecOf(ts), t)
    decreases |ts|, 1
  {
    if Ahead(ts, "(") {
      BlockFaithful(ts, t);
    } else if ExecOf(ts).Ok? {
      RedirsFaithful(ts, t);
      var r := Redirs(ts);
      ArgsFaithful(r.rest, [], r.value, t);
    }
  }

  lemma {:induction false} BlockFaithful(ts: seq<Token>, t: Token)
    requires GoodTokens(ts) && Ahead(ts, "(") && !Bracket(t)
    ensures Faithful(ts, BlockOf(ts), t)
    decreases |ts|, 0
  {
    if BlockOf(ts).Ok? {
      LineFaithful(ts[1..], t);
      var r := LineOf(ts[1..]);
      RedirsFaithful(r.rest[1..], t);
      WrapFaithful(r.value, Redirs(r.rest[1..]).value, t);
    }
  }

  lemma {:induction false} PipeFaithful(ts: seq<Token>, t: Token)
    requires GoodTokens(ts) && !Bracket(t)
    ensures Faithful(ts, PipeOf(ts), t)
    decreases |ts|, 2
  {
    ExecFaithful(ts, t);
    if PipeOf(ts).Ok? {
      var r := ExecOf(ts);
      if Ahead(r.rest, "|") {
        PipeFaithful(r.rest[1..], t);
      }
    }
  }

  lemma {:induction false} BacksFaithful(c: Cmd, ts: seq<Token>, t: Token)
    requires GoodTokens(ts) && Sensible(c) && Short(c)
    ensures var r := Backs(c, ts);
      Sensible(r.0) && Short(r.0) && GoodTokens(r.1) && Items(c, t) + Content(ts, t) == Items(r.0, t) + Content(r.1, t)
    decreases |ts|
  {
    if Ahead(ts, "&") {
      BacksFaithful(Back(c), ts[1..], t);
    }
  }

  lemma {:induction false} LineFaithful(ts: seq<Token>, t: Token)
    requires GoodTokens(ts) && !Bracket(t)
    ensures Faithful(ts, LineOf(ts), t)
    decreases |ts|, 3
  {
    PipeFaithful(ts, t);
    if LineOf(ts).Ok? {
      var r := PipeOf(ts);
      BacksFaithful(r.value, r.rest, t);
      var after := Backs(r.value, r.rest).1;
      if Ahead(after, ";") {
        LineFaithful(after[1..], t);
      }
    }
  }

  /** Whatever the shell accepts: the tree has every word and operator exactly as often as the text, and printing the
      tree and parsing it again gives the same tree. */
  lemma ParseFaithful(ts: seq<Token>, t: Token)
    requires GoodTokens(ts) && CmdOf(ts).Ok? && !Bracket(t)
    ensures Content(ts, t) == Items(CmdOf(ts).value, t)
    ensures CmdOf(Print(CmdOf(ts).value)) == CmdOf(ts)
  {
    LineFaithful(ts, t);
    ParsePrint(CmdOf(ts).value);
  }
}
