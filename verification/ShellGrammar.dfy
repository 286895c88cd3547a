/** The shell's grammar, as its author would write it down, and the parser against it.

        line ::= pipe '&'* [ ';' line ]
        pipe ::= exec [ '|' pipe ]
        exec ::= '(' line ')' redir*  |  ( word | redir )*
        redir ::= ( '<' | '>' | '>>' ) word

    Each predicate says that all of ts reads as the tree c.  They are about trees and tokens only, not about
    how anything is parsed: `|` binds tighter than `&`, and `&` tighter than `;`; `|` and `;` nest to the
    right; the words of a command and its redirections are in the order of the text, the last redirection
    outermost.
 */
module ShellGrammar {
  import opened ShellSpec

  // ---------- The grammar ----------

  /** The operator and the word ask for this redirection. */
  predicate RedirIs(op: Token, word: Token, to: Redirection) {
    word.Word? && to.file == word.text
    && ((op == Op('<') && to.mode == 0x000 && to.fd == 0)
        || (op == Op('>') && to.mode == 0x601 && to.fd == 1)
        || (op == Op('+') && to.mode == 0x201 && to.fd == 1))
  }

  /** Words and redirections, in any order; argv and rs have each in the order of the text. */
  predicate SimpleIs(ts: seq<Token>, argv: seq<string>, rs: seq<Redirection>)
    decreases |ts|
  {
    if ts == [] then argv == [] && rs == []
    else if ts[0].Word? then argv != [] && argv[0] == ts[0].text && SimpleIs(ts[1..], argv[1..], rs)
    else |ts| >= 2 && rs != [] && RedirIs(ts[0], ts[1], rs[0]) && SimpleIs(ts[2..], argv, rs[1..])
  }

  /** A command under its redirections, the last one outermost. */
  predicate PlainIs(c: Cmd, argv: seq<string>, rs: seq<Redirection>) {
    match c
    case Exec(words) => words == argv && rs == []
    case Redir(cmd, to) => rs != [] && to == rs[|rs| - 1] && PlainIs(cmd, argv, rs[..|rs| - 1])
    case _ => false
  }

  ghost predicate CommandIs(ts: seq<Token>, c: Cmd) {
    exists argv, rs :: SimpleIs(ts, argv, rs) && PlainIs(c, argv, rs) && |argv| < MAXARGS
  }

  ghost predicate BlockIs(ts: seq<Token>, c: Cmd)
    decreases |ts|, 0
  {
    var n := |ts|;
    n >= 2 &&
    ((ts[0] == Op('(') && ts[n - 1] == Op(')') && LineIs(ts[1..n - 1], c))
     || (c.Redir? && RedirIs(ts[n - 2], ts[n - 1], c.to) && BlockIs(ts[..n - 2], c.cmd)))
  }

  ghost predicate ExecIs(ts: seq<Token>, c: Cmd)
    decreases |ts|, 1
  {
    CommandIs(ts, c) || BlockIs(ts, c)
  }

  ghost predicate PipeIs(ts: seq<Token>, c: Cmd)
    decreases |ts|, 2
  {
    ExecIs(ts, c) || (c.Pipe? && exists k: nat :: PipeAt(ts, k, c.left, c.right))
  }

  ghost predicate PipeAt(ts: seq<Token>, k: nat, l: Cmd, r: Cmd)
    decreases |ts|, 1
  {
    k < |ts| && ts[k] == Op('|') && ExecIs(ts[..k], l) && PipeIs(ts[k + 1..], r)
  }

  ghost predicate BackIs(ts: seq<Token>, c: Cmd)
    decreases |ts|, 3
  {
    var n := |ts|;
    PipeIs(ts, c) || (c.Back? && n > 0 && ts[n - 1] == Op('&') && BackIs(ts[..n - 1], c.cmd))
  }

  ghost predicate LineIs(ts: seq<Token>, c: Cmd)
    decreases |ts|, 4
  {
    BackIs(ts, c) || (c.List? && exists k: nat :: ListAt(ts, k, c.left, c.right))
  }

  ghost predicate ListAt(ts: seq<Token>, k: nat, l: Cmd, r: Cmd)
    decreases |ts|, 3
  {
    k < |ts| && ts[k] == Op(';') && BackIs(ts[..k], l) && LineIs(ts[k + 1..], r)
  }

  // ---------- What is read, and what is left ----------

  predicate Suffix(ts: seq<Token>, rest: seq<Token>) {
    |rest| <= |ts| && rest == ts[|ts| - |rest|..]
  }

  /** The tokens before the rest. */
  function Used(ts: seq<Token>, rest: seq<Token>): seq<Token>
    requires Suffix(ts, rest)
  {
    ts[..|ts| - |rest|]
  }

  lemma UsedTrans(ts: seq<Token>, mid: seq<Token>, rest: seq<Token>)
    requires Suffix(ts, mid) && Suffix(mid, rest)
    ensures Suffix(ts, rest) && Used(ts, rest) == Used(ts, mid) + Used(mid, rest)
  {
  }

  lemma {:induction false} SimpleJoin(a: seq<Token>, argv: seq<string>, rs: seq<Redirection>, b: seq<Token>,
      more: seq<string>, ss: seq<Redirection>)
    requires SimpleIs(a, argv, rs) && SimpleIs(b, more, ss)
    ensures SimpleIs(a + b, argv + more, rs + ss)
    decreases |a|
  {
    if a == [] {
      assert a + b == b && argv + more == more && rs + ss == ss;
    } else if a[0].Word? {
      SimpleJoin(a[1..], argv[1..], rs, b, more, ss);
      Tail(a, b, 1);
      Tail(argv, more, 1);
    } else {
      SimpleJoin(a[2..], argv, rs[1..], b, more, ss);
      Tail(a, b, 2);
      Tail(rs, ss, 1);
    }
  }

  lemma Tail<T>(a: seq<T>, b: seq<T>, n: nat)
    requires n <= |a|
    ensures (a + b)[n..] == a[n..] + b && forall k | 0 <= k < |a| :: (a + b)[k] == a[k]
  {
  }

  // ---------- Whatever is parsed is derived ----------

  lemma {:induction false} PlainWrap(c: Cmd, rs: seq<Redirection>, argv: seq<string>, before: seq<Redirection>)
    requires PlainIs(c, argv, before)
    ensures PlainIs(Wrap(c, rs), argv, before + rs)
    decreases |rs|
  {
    if rs == [] {
      assert before + rs == before;
    } else {
      var all := before + [rs[0]];
      assert all[..|all| - 1] == before;
      PlainWrap(Redir(c, rs[0]), rs[1..], argv, all);
      assert all + rs[1..] == before + rs;
    }
  }

  lemma {:induction false} RedirsSound(ts: seq<Token>)
    requires Redirs(ts).Ok?
    ensures Suffix(ts, Redirs(ts).rest) && SimpleIs(Used(ts, Redirs(ts).rest), [], Redirs(ts).value)
    decreases |ts|
  {
    if Ahead(ts, "<>+") {
      RedirsSound(ts[2..]);
      var rest := Redirs(ts).rest;
      var used := Used(ts, rest);
      assert used[2..] == Used(ts[2..], rest);
      assert RedirIs(ts[0], ts[1], Redirs(ts).value[0]);
      assert Redirs(ts).value[1..] == Redirs(ts[2..]).value;
    }
  }

  /** One word of a command and the redirections behind it. */
  lemma WordSound(before: seq<Token>, ts: seq<Token>, argv: seq<string>, rs: seq<Redirection>)
    requires SimpleIs(before, argv, rs) && ts != [] && ts[0].Word? && Redirs(ts[1..]).Ok?
    ensures var r := Redirs(ts[1..]);
      Suffix(ts, r.rest) && SimpleIs(before + Used(ts, r.rest), argv + [ts[0].text], rs + r.value)
  {
    RedirsSound(ts[1..]);
    var r, first, word := Redirs(ts[1..]), [ts[0]], [ts[0].text];
    assert first[1..] == [] && word[1..] == [] && SimpleIs(first, word, []);
    SimpleJoin(first, word, [], Used(ts[1..], r.rest), [], r.value);
    assert first + Used(ts[1..], r.rest) == Used(ts, r.rest) && word + [] == word && [] + r.value == r.value;
    SimpleJoin(before, argv, rs, Used(ts, r.rest), word, r.value);
  }

  lemma {:induction false} ArgsSound(before: seq<Token>, ts: seq<Token>, argv: seq<string>, rs: seq<Redirection>)
    requires SimpleIs(before, argv, rs) && |argv| < MAXARGS && Args(ts, argv, rs).Ok?
    ensures var r := Args(ts, argv, rs); Suffix(ts, r.rest) && CommandIs(before + Used(ts, r.rest), r.value)
    decreases |ts|
  {
    if ts == [] || Ahead(ts, "|)&;") {
      PlainWrap(Exec(argv), rs, argv, []);
      assert [] + rs == rs && before + Used(ts, ts) == before;
    } else {
      WordSound(before, ts, argv, rs);
      var r := Redirs(ts[1..]);
      var read := before + Used(ts, r.rest);
      ArgsSound(read, r.rest, argv + [ts[0].text], rs + r.value);
      ReadMore(before, ts, r.rest, Args(ts, argv, rs).rest);
    }
  }

  lemma ReadMore(before: seq<Token>, ts: seq<Token>, mid: seq<Token>, rest: seq<Token>)
    requires Suffix(ts, mid) && Suffix(mid, rest)
    ensures Suffix(ts, rest) && before + Used(ts, mid) + Used(mid, rest) == before + Used(ts, rest)
  {
    UsedTrans(ts, mid, rest);
  }

  lemma BlockMore(before: seq<Token>, c: Cmd, pair: seq<Token>, to: Redirection)
    requires BlockIs(before, c) && |pair| == 2 && RedirIs(pair[0], pair[1], to)
    ensures BlockIs(before + pair, Redir(c, to))
  {
    var ts := before + pair;
    assert ts[..|ts| - 2] == before;
  }

  lemma {:induction false} BlockWrap(before: seq<Token>, c: Cmd, ts: seq<Token>)
    requires BlockIs(before, c) && Redirs(ts).Ok?
    ensures var r := Redirs(ts); Suffix(ts, r.rest) && BlockIs(before + Used(ts, r.rest), Wrap(c, r.value))
    decreases |ts|
  {
    if !Ahead(ts, "<>+") {
      assert before + Used(ts, ts) == before;
    } else {
      var to, more := RedirectionOf(ts[0].sym, ts[1].text), Redirs(ts[2..]);
      BlockMore(before, c, ts[..2], to);
      BlockWrap(before + ts[..2], Redir(c, to), ts[2..]);
      assert ([to] + more.value)[1..] == more.value && ts[..2] == Used(ts, ts[2..]);
      ReadMore(before, ts, ts[2..], more.rest);
    }
  }

  lemma {:induction false} BlockSound(ts: seq<Token>)
    requires Ahead(ts, "(") && BlockOf(ts).Ok?
    ensures Suffix(ts, BlockOf(ts).rest) && BlockIs(Used(ts, BlockOf(ts).rest), BlockOf(ts).value)
    decreases |ts|, 0
  {
    LineSound(ts[1..]);
    var r := LineOf(ts[1..]);
    var after := r.rest[1..];
    var read := Used(ts, after);
    assert read[1..|read| - 1] == Used(ts[1..], r.rest) && read[0] == Op('(') && read[|read| - 1] == Op(')');
    assert BlockIs(read, r.value);
    BlockWrap(read, r.value, after);
    UsedTrans(ts, after, BlockOf(ts).rest);
  }

  lemma {:induction false} ExecSound(ts: seq<Token>)
    requires ExecOf(ts).Ok?
    ensures Suffix(ts, ExecOf(ts).rest) && ExecIs(Used(ts, ExecOf(ts).rest), ExecOf(ts).value)
    decreases |ts|, 1
  {
    if Ahead(ts, "(") {
      BlockSound(ts);
    } else {
      RedirsSound(ts);
      var r := Redirs(ts);
      ArgsSound(Used(ts, r.rest), r.rest, [], r.value);
      UsedTrans(ts, r.rest, ExecOf(ts).rest);
    }
  }

  lemma PipeJoin(a: seq<Token>, l: Cmd, b: seq<Token>, r: Cmd)
    requires ExecIs(a, l) && PipeIs(b, r)
    ensures PipeIs(a + [Op('|')] + b, Pipe(l, r))
  {
    var ts := a + [Op('|')] + b;
    assert ts[..|a|] == a && ts[|a| + 1..] == b;
    assert PipeAt(ts, |a|, l, r);
  }

  lemma ListJoin(a: seq<Token>, l: Cmd, b: seq<Token>, r: Cmd)
    requires BackIs(a, l) && LineIs(b, r)
    ensures LineIs(a + [Op(';')] + b, List(l, r))
  {
    var ts := a + [Op(';')] + b;
    assert ts[..|a|] == a && ts[|a| + 1..] == b;
    assert ListAt(ts, |a|, l, r);
  }

  lemma UsedAround(ts: seq<Token>, mid: seq<Token>, rest: seq<Token>)
    requires Suffix(ts, mid) && mid != [] && Suffix(mid[1..], rest)
    ensures Suffix(ts, rest) && Used(ts, rest) == Used(ts, mid) + [mid[0]] + Used(mid[1..], rest)
  {
  }

  lemma {:induction false} PipeSound(ts: seq<Token>)
    requires PipeOf(ts).Ok?
    ensures Suffix(ts, PipeOf(ts).rest) && PipeIs(Used(ts, PipeOf(ts).rest), PipeOf(ts).value)
    decreases |ts|, 2
  {
    ExecSound(ts);
    var first := ExecOf(ts);
    if Ahead(first.rest, "|") {
      PipeSound(first.rest[1..]);
      var more := PipeOf(first.rest[1..]);
      UsedAround(ts, first.rest, more.rest);
      PipeJoin(Used(ts, first.rest), first.value, Used(first.rest[1..], more.rest), more.value);
    }
  }

  lemma {:induction false} BacksSound(before: seq<Token>, c: Cmd, ts: seq<Token>)
    requires BackIs(before, c)
    ensures var r := Backs(c, ts); Suffix(ts, r.1) && BackIs(before + Used(ts, r.1), r.0)
    decreases |ts|
  {
    var r := Backs(c, ts);
    if !Ahead(ts, "&") {
      assert before + Used(ts, ts) == before;
    } else {
      var read := before + [ts[0]];
      assert read[..|read| - 1] == before;
      BacksSound(read, Back(c), ts[1..]);
      assert read + Used(ts[1..], r.1) == before + Used(ts, r.1);
    }
  }

  lemma {:induction false} LineSound(ts: seq<Token>)
    requires LineOf(ts).Ok?
    ensures Suffix(ts, LineOf(ts).rest) && LineIs(Used(ts, LineOf(ts).rest), LineOf(ts).value)
    decreases |ts|, 3
  {
    PipeSound(ts);
    var first := PipeOf(ts);
    BacksSound(Used(ts, first.rest), first.value, first.rest);
    var (cmd, after) := Backs(first.value, first.rest);
    UsedTrans(ts, first.rest, after);
    if Ahead(after, ";") {
      LineSound(after[1..]);
      var more := LineOf(after[1..]);
      UsedAround(ts, after, more.rest);
      ListJoin(Used(ts, after), cmd, Used(after[1..], more.rest), more.value);
    }
  }

  // ---------- Whatever is derived is parsed ----------

  /** Nothing follows, or one of these operators. */
  predicate Follows(rest: seq<Token>, syms: string) {
    rest == [] || Ahead(rest, syms)
  }

  lemma {:induction false} PlainIsWrap(c: Cmd, argv: seq<string>, rs: seq<Redirection>)
    requires PlainIs(c, argv, rs)
    ensures c == Wrap(Exec(argv), rs)
    decreases c
  {
    if c.Redir? {
      var n := |rs| - 1;
      PlainIsWrap(c.cmd, argv, rs[..n]);
      WrapJoin(Exec(argv), rs[..n], [rs[n]]);
      assert rs[..n] + [rs[n]] == rs && [rs[n]][1..] == [];
    }
  }

  lemma RedirIsOf(op: Token, word: Token, to: Redirection)
    requires RedirIs(op, word, to)
    ensures Ahead([op], "<>+") && to == RedirectionOf(op.sym, word.text)
  {
  }

  /** The command is read from ts, after the words and redirections before. */
  ghost predicate Completes(ts: seq<Token>, argv: seq<string>, rs: seq<Redirection>, rest: seq<Token>,
      words: seq<string>, rs0: seq<Redirection>)
  {
    var r := Redirs(ts + rest);
    r.Ok? && Args(r.rest, words, rs0 + r.value) == Ok(Wrap(Exec(words + argv), rs0 + rs), rest)
  }

  lemma ArgsWord(all: seq<Token>, words: seq<string>, rs: seq<Redirection>)
    requires all != [] && all[0].Word? && |words| + 1 < MAXARGS && Redirs(all[1..]).Ok?
    ensures Redirs(all) == Ok([], all)
    ensures var r := Redirs(all[1..]); Args(all, words, rs) == Args(r.rest, words + [all[0].text], rs + r.value)
  {
  }

  lemma WordComplete(ts: seq<Token>, argv: seq<string>, rs: seq<Redirection>, rest: seq<Token>, words: seq<string>,
      rs0: seq<Redirection>)
    requires ts != [] && ts[0].Word? && argv != [] && argv[0] == ts[0].text && |words| + 1 < MAXARGS
    requires Completes(ts[1..], argv[1..], rs, rest, words + [ts[0].text], rs0)
    ensures Completes(ts, argv, rs, rest, words, rs0)
  {
    Tail(ts, rest, 1);
    ArgsWord(ts + rest, words, rs0);
    Assoc(words, [argv[0]], argv[1..]);
    assert [argv[0]] + argv[1..] == argv;
    Right(rs0);
  }

  lemma Assoc<T>(a: seq<T>, b: seq<T>, c: seq<T>)
    ensures a + b + c == a + (b + c)
  {
  }

  lemma Right<T>(a: seq<T>)
    ensures a + [] == a
  {
  }

  lemma RedirsMore(all: seq<Token>, to: Redirection)
    requires |all| >= 2 && RedirIs(all[0], all[1], to) && Redirs(all[2..]).Ok?
    ensures Redirs(all) == Ok([to] + Redirs(all[2..]).value, Redirs(all[2..]).rest)
  {
    RedirIsOf(all[0], all[1], to);
  }

  lemma RedirComplete(ts: seq<Token>, argv: seq<string>, rs: seq<Redirection>, rest: seq<Token>, words: seq<string>,
      rs0: seq<Redirection>)
    requires |ts| >= 2 && rs != [] && RedirIs(ts[0], ts[1], rs[0])
    requires Completes(ts[2..], argv, rs[1..], rest, words, rs0 + [rs[0]])
    ensures Completes(ts, argv, rs, rest, words, rs0)
  {
    Tail(ts, rest, 2);
    RedirsMore(ts + rest, rs[0]);
    Assoc(rs0, [rs[0]], rs[1..]);
    Assoc(rs0, [rs[0]], Redirs(ts[2..] + rest).value);
    assert [rs[0]] + rs[1..] == rs;
  }

  lemma {:induction false} SimpleComplete(ts: seq<Token>, argv: seq<string>, rs: seq<Redirection>, rest: seq<Token>,
      words: seq<string>, rs0: seq<Redirection>)
    requires SimpleIs(ts, argv, rs) && |words| + |argv| < MAXARGS && Follows(rest, "|)&;")
    ensures Completes(ts, argv, rs, rest, words, rs0)
    decreases |ts|
  {
    if ts == [] {
      assert ts + rest == rest && words + argv == words && Redirs(rest) == Ok([], rest);
    } else if ts[0].Word? {
      SimpleComplete(ts[1..], argv[1..], rs, rest, words + [ts[0].text], rs0);
      WordComplete(ts, argv, rs, rest, words, rs0);
    } else {
      SimpleComplete(ts[2..], argv, rs[1..], rest, words, rs0 + [rs[0]]);
      RedirComplete(ts, argv, rs, rest, words, rs0);
    }
  }

  lemma CommandComplete(ts: seq<Token>, c: Cmd, rest: seq<Token>)
    requires CommandIs(ts, c) && Follows(rest, "|)&;")
    ensures ExecOf(ts + rest) == Ok(c, rest)
  {
    var argv, rs :| SimpleIs(ts, argv, rs) && PlainIs(c, argv, rs) && |argv| < MAXARGS;
    SimpleComplete(ts, argv, rs, rest, [], []);
    PlainIsWrap(c, argv, rs);
    assert [] + argv == argv && [] + rs == rs && [] + Redirs(ts + rest).value == Redirs(ts + rest).value;
    if ts != [] && !ts[0].Word? {
      RedirIsOf(ts[0], ts[1], rs[0]);
    }
    assert ts == [] ==> ts + rest == rest;
  }

  lemma {:induction false} BlockComplete(ts: seq<Token>, c: Cmd, rest: seq<Token>)
    requires BlockIs(ts, c)
    ensures Ahead(ts, "(") && BlockOf(ts + rest) == WrapAhead(c, rest)
    decreases |ts|, 0
  {
    var n, all := |ts|, ts + rest;
    if ts[0] == Op('(') && ts[n - 1] == Op(')') && LineIs(ts[1..n - 1], c) {
      var close := [Op(')')] + rest;
      LineComplete(ts[1..n - 1], c, close);
      assert all[1..] == ts[1..n - 1] + close && close[1..] == rest;
    } else {
      var more := ts[n - 2..] + rest;
      BlockComplete(ts[..n - 2], c.cmd, more);
      assert all == ts[..n - 2] + more && more[2..] == rest;
      RedirIsOf(ts[n - 2], ts[n - 1], c.to);
      WrapStep(c.cmd, more);
    }
  }

  lemma {:induction false} ExecComplete(ts: seq<Token>, c: Cmd, rest: seq<Token>)
    requires ExecIs(ts, c) && Follows(rest, "|)&;")
    ensures ExecOf(ts + rest) == Ok(c, rest)
    decreases |ts|, 1
  {
    if CommandIs(ts, c) {
      CommandComplete(ts, c, rest);
    } else {
      BlockComplete(ts, c, rest);
    }
  }

  lemma SplitAt(ts: seq<Token>, k: nat, rest: seq<Token>) returns (more: seq<Token>)
    requires k < |ts|
    ensures ts + rest == ts[..k] + more && more != [] && more[0] == ts[k] && more[1..] == ts[k + 1..] + rest
  {
    more := ts[k..] + rest;
  }

  lemma {:induction false} PipeComplete(ts: seq<Token>, c: Cmd, rest: seq<Token>)
    requires PipeIs(ts, c) && Follows(rest, ")&;")
    ensures PipeOf(ts + rest) == Ok(c, rest)
    decreases |ts|, 2
  {
    if ExecIs(ts, c) {
      ExecComplete(ts, c, rest);
    } else {
      var k: nat :| PipeAt(ts, k, c.left, c.right);
      var more := SplitAt(ts, k, rest);
      ExecComplete(ts[..k], c.left, more);
      PipeComplete(ts[k + 1..], c.right, rest);
    }
  }

  lemma {:induction false} BackComplete(ts: seq<Token>, c: Cmd, rest: seq<Token>)
    requires BackIs(ts, c) && Follows(rest, ")&;")
    ensures var r := PipeOf(ts + rest); r.Ok? && Backs(r.value, r.rest) == Backs(c, rest)
    decreases |ts|, 3
  {
    if PipeIs(ts, c) {
      PipeComplete(ts, c, rest);
    } else {
      var n := |ts| - 1;
      var more := [ts[n]] + rest;
      BackComplete(ts[..n], c.cmd, more);
      assert ts + rest == ts[..n] + more && more[1..] == rest;
    }
  }

  lemma {:induction false} LineComplete(ts: seq<Token>, c: Cmd, rest: seq<Token>)
    requires LineIs(ts, c) && Follows(rest, ")")
    ensures LineOf(ts + rest) == Ok(c, rest)
    decreases |ts|, 4
  {
    if BackIs(ts, c) {
      BackComplete(ts, c, rest);
    } else {
      var k: nat :| ListAt(ts, k, c.left, c.right);
      var more := SplitAt(ts, k, rest);
      BackComplete(ts[..k], c.left, more);
      LineComplete(ts[k + 1..], c.right, rest);
    }
  }

  // ---------- The parser decides the grammar ----------

  /** The shell accepts exactly the lines of the grammar, each as the tree that the grammar gives it. */
  lemma ParserIsGrammar(ts: seq<Token>, c: Cmd)
    ensures CmdOf(ts) == Ok(c, []) <==> LineIs(ts, c)
  {
    if CmdOf(ts) == Ok(c, []) {
      LineSound(ts);
      assert Used(ts, []) == ts;
    }
    if LineIs(ts, c) {
      LineComplete(ts, c, []);
      assert ts + [] == ts;
    }
  }

  /** No line has two trees. */
  lemma Unambiguous(ts: seq<Token>, c: Cmd, d: Cmd)
    requires LineIs(ts, c) && LineIs(ts, d)
    ensures c == d
  {
    ParserIsGrammar(ts, c);
    ParserIsGrammar(ts, d);
  }
}
