/** The regular-expression matcher and line filter of user/grep.c.

    A pattern is a list of items.  The text from position i matches when it can be cut, from i on, into
    one segment per item such that each item fits its segment.  The code's shortest-first search with
    its mutual recursion is proved to find such cuts exactly when they exist.
 */
module Grep {
  import opened Common

  // ---------- What a pattern means ----------

  datatype Item =
    | One(c: char)    // this character, or any if c is '.'
    | Star(c: char)   // any number of these
    | End             // the end of the text

  predicate Is(c: char, ch: char) {
    c == '.' || c == ch
  }

  function Items(re: string): seq<Item> {
    if re == "" then []
    else if |re| >= 2 && re[1] == '*' then [Star(re[0])] + Items(re[2..])
    else if re == "$" then [End]
    else [One(re[0])] + Items(re[1..])
  }

  predicate Fits(item: Item, text: string, a: nat, b: nat) {
    a <= b <= |text| &&
    match item
    case One(c) => b == a + 1 && Is(c, text[a])
    case Star(c) => forall k | a <= k < b :: Is(c, text[k])
    case End => a == |text|
  }

  /** cuts[k] is where the segment of item k starts, and cuts[k + 1] where it ends. */
  ghost predicate Cut(items: seq<Item>, text: string, cuts: seq<nat>) {
    && |cuts| == |items| + 1
    && (forall k: nat | k < |items| :: FitsAt(items, text, cuts, k))
  }

  ghost predicate FitsAt(items: seq<Item>, text: string, cuts: seq<nat>, k: nat)
    requires |cuts| == |items| + 1 && k < |items|
  {
    Fits(items[k], text, cuts[k], cuts[k + 1])
  }

  ghost predicate MatchesAt(items: seq<Item>, text: string, i: nat) {
    exists cuts :: Cut(items, text, cuts) && cuts[0] == i
  }

  /** A leading '^' ties the match to the start of the text; otherwise it may start anywhere. */
  ghost predicate Matches(re: string, text: string) {
    if re != "" && re[0] == '^' then MatchesAt(Items(re[1..]), text, 0)
    else exists i: nat | i <= |text| :: MatchesAt(Items(re), text, i)
  }

  // ---------- One item at a time ----------

  lemma NoItems(text: string, i: nat)
    ensures MatchesAt([], text, i)
  {
    assert Cut([], text, [i]) && [i][0] == i;
  }

  lemma FirstItem(item: Item, rest: seq<Item>, text: string, i: nat) returns (j: nat)
    requires MatchesAt([item] + rest, text, i)
    ensures Fits(item, text, i, j) && MatchesAt(rest, text, j)
  {
    var items := [item] + rest;
    var cuts :| Cut(items, text, cuts) && cuts[0] == i;
    assert FitsAt(items, text, cuts, 0);
    j := cuts[1];
    var tail := cuts[1..];
    forall k: nat | k < |rest| ensures FitsAt(rest, text, tail, k) {
      assert FitsAt(items, text, cuts, k + 1);
    }
    assert Cut(rest, text, tail) && tail[0] == j;
  }

  lemma ConsItem(item: Item, rest: seq<Item>, text: string, i: nat, j: nat)
    requires Fits(item, text, i, j) && MatchesAt(rest, text, j)
    ensures MatchesAt([item] + rest, text, i)
  {
    var tail :| Cut(rest, text, tail) && tail[0] == j;
    var items, cuts := [item] + rest, [i] + tail;
    forall k: nat | k < |items| ensures FitsAt(items, text, cuts, k) {
      if k > 0 {
        assert FitsAt(rest, text, tail, k - 1);
      }
    }
    assert Cut(items, text, cuts) && cuts[0] == i;
  }

  /** A single character or the end anchor leaves no choice. */
  lemma OneItem(c: char, rest: seq<Item>, text: string, i: nat)
    ensures MatchesAt([One(c)] + rest, text, i) <==> i < |text| && Is(c, text[i]) && MatchesAt(rest, text, i + 1)
  {
    if MatchesAt([One(c)] + rest, text, i) {
      var j := FirstItem(One(c), rest, text, i);
    }
    if i < |text| && Is(c, text[i]) && MatchesAt(rest, text, i + 1) {
      ConsItem(One(c), rest, text, i, i + 1);
    }
  }

  lemma EndItem(text: string, i: nat)
    requires i <= |text|
    ensures MatchesAt([End], text, i) <==> i == |text|
  {
    assert [End] + [] == [End];
    if MatchesAt([End], text, i) {
      var j := FirstItem(End, [], text, i);
    }
    if i == |text| {
      NoItems(text, i);
      ConsItem(End, [], text, i, i);
    }
  }

  // ---------- The pattern read from left to right ----------

  /** The pattern's characters: `c*` is any run of c, a final `$` the end, anything else one character; c may be
      `.`, which is any character. */
  ghost predicate Denotes(re: string, text: string, i: nat)
    requires i <= |text|
    decreases |re|, 1
  {
    if re == "" then true
    else if |re| >= 2 && re[1] == '*' then exists j: nat :: RunThen(re[0], re[2..], text, i, j)
    else if re == "$" then i == |text|
    else i < |text| && (re[0] == '.' || re[0] == text[i]) && Denotes(re[1..], text, i + 1)
  }

  ghost predicate RunThen(c: char, re: string, text: string, i: nat, j: nat)
    decreases |re|, 2
  {
    i <= j <= |text| && (forall k | i <= k < j :: c == '.' || c == text[k]) && Denotes(re, text, j)
  }

  /** The cuts mean the same. */
  lemma {:induction false} DenotesIff(re: string, text: string, i: nat)
    requires i <= |text|
    ensures Denotes(re, text, i) <==> MatchesAt(Items(re), text, i)
    decreases |re|
  {
    if re == "" {
      NoItems(text, i);
    } else if |re| >= 2 && re[1] == '*' {
      var c, rest := re[0], re[2..];
      forall j: nat | i <= j <= |text| ensures Denotes(rest, text, j) <==> MatchesAt(Items(rest), text, j) {
        DenotesIff(rest, text, j);
      }
      if j: nat :| RunThen(c, rest, text, i, j) {
        ConsItem(Star(c), Items(rest), text, i, j);
      }
      if MatchesAt(Items(re), text, i) {
        var j := FirstItem(Star(c), Items(rest), text, i);
        assert RunThen(c, rest, text, i, j);
      }
    } else if re == "$" {
      EndItem(text, i);
    } else {
      OneItem(re[0], Items(re[1..]), text, i);
      if i < |text| {
        DenotesIff(re[1..], text, i + 1);
      }
    }
  }

  lemma MatchesIff(re: string, text: string)
    ensures Matches(re, text) <==>
      if re != "" && re[0] == '^' then Denotes(re[1..], text, 0)
      else exists i: nat :: i <= |text| && Denotes(re, text, i)
  {
    if re != "" && re[0] == '^' {
      DenotesIff(re[1..], text, 0);
    } else {
      if Matches(re, text) {
        var i: nat :| i <= |text| && MatchesAt(Items(re), text, i);
        DenotesIff(re, text, i);
      }
      if i: nat :| i <= |text| && Denotes(re, text, i) {
        DenotesIff(re, text, i);
      }
    }
  }

  // ---------- The matcher ----------

  method Match(re: string, text: string) returns (r: bool)
    ensures r <==> Matches(re, text)
    ensures re != "" && re[0] == '^' ==> (r <==> Denotes(re[1..], text, 0))
    ensures re == "" || re[0] != '^' ==> (r <==> exists i: nat :: i <= |text| && Denotes(re, text, i))
  {
    MatchesIff(re, text);
    if re != "" && re[0] == '^' {
      r := MatchHere(re[1..], text, 0);
      return;
    }
    var i := 0;
    while true
      invariant i <= |text|
      invariant forall k: nat | k < i :: !MatchesAt(Items(re), text, k)
      decreases |text| - i
    {
      r := MatchHere(re, text, i);
      if r || i == |text| {
        return;
      }
      i := i + 1;
    }
  }

  method MatchHere(re: string, text: string, i: nat) returns (r: bool)
    requires i <= |text|
    ensures r <==> MatchesAt(Items(re), text, i)
    decreases |re|, 0
  {
    if re == "" {
      NoItems(text, i);
      r := true;
    } else if |re| >= 2 && re[1] == '*' {
      r := MatchStar(re[0], re[2..], text, i);
    } else if re == "$" {
      EndItem(text, i);
      r := i == |text|;
    } else {
      OneItem(re[0], Items(re[1..]), text, i);
      if i < |text| && (re[0] == '.' || re[0] == text[i]) {
        r := MatchHere(re[1..], text, i + 1);
      } else {
        r := false;
      }
    }
  }

  method MatchStar(c: char, re: string, text: string, i: nat) returns (r: bool)
    requires i <= |text|
    ensures r <==> MatchesAt([Star(c)] + Items(re), text, i)
    decreases |re|, 1
  {
    var j := i;
    while true
      invariant i <= j <= |text| && Fits(Star(c), text, i, j)
      invariant forall k: nat | i <= k < j :: !MatchesAt(Items(re), text, k)
      decreases |text| - j
    {
      r := MatchHere(re, text, j);
      if r {
        ConsItem(Star(c), Items(re), text, i, j);
        return;
      }
      if j == |text| || !(text[j] == c || c == '.') {
        break;
      }
      j := j + 1;
    }
    if MatchesAt([Star(c)] + Items(re), text, i) {
      var k := FirstItem(Star(c), Items(re), text, i);
      assert false;
    }
  }

  // ---------- The line filter ----------

  const BUFSIZE := 1024

  /** Where the first line of s ends, or |s| when s has no newline. */
  function LineEnd(s: string): (n: nat)
    ensures n <= |s| && (n < |s| ==> s[n] == '\n')
  {
    NewlineFrom(s, 0)
  }

  function NewlineFrom(s: string, i: nat): (n: nat)
    requires i <= |s|
    ensures i <= n <= |s| && (n < |s| ==> s[n] == '\n')
    decreases |s| - i
  {
    if i == |s| || s[i] == '\n' then i else NewlineFrom(s, i + 1)
  }

  lemma {:induction false} NewlineFirst(s: string, i: nat, k: nat)
    requires i <= k < |s| && k < NewlineFrom(s, i)
    ensures s[k] != '\n'
    decreases k - i
  {
    if i < k {
      NewlineFirst(s, i + 1, k);
    }
  }

  ghost function Matching(re: string): string -> bool {
    line => Matches(re, line)
  }

  /** What is printed for one line. */
  ghost function Pick(keep: string -> bool, line: string): string {
    if keep(line) then line + "\n" else ""
  }

  /** The complete lines of s that are kept, in order, each with its newline. */
  ghost function Filter(keep: string -> bool, s: string): string
    decreases |s|
  {
    var n := LineEnd(s);
    if n == |s| then "" else Pick(keep, s[..n]) + Filter(keep, s[n + 1..])
  }

  /** What follows the last newline. */
  ghost function Partial(s: string): string
    decreases |s|
  {
    var n := LineEnd(s);
    if n == |s| then s else Partial(s[n + 1..])
  }

  lemma {:induction false} NewlineApp(s: string, t: string, i: nat)
    requires i <= |s| && NewlineFrom(s, i) < |s|
    ensures NewlineFrom(s + t, i) == NewlineFrom(s, i)
    decreases |s| - i
  {
    if s[i] != '\n' {
      NewlineApp(s, t, i + 1);
    }
  }

  lemma LineWithEnd(s: string, n: nat)
    requires n < |s| && s[n] == '\n'
    ensures s[..n + 1] == s[..n] + "\n"
  {
  }

  lemma Assoc(a: string, b: string, c: string)
    ensures (a + b) + c == a + (b + c) && "" + c == c
  {
  }

  /** Reading on: the partial line takes what follows. */
  lemma {:induction false} PartialApp(s: string, t: string)
    ensures Partial(s + t) == Partial(Partial(s) + t)
    decreases |s|
  {
    var n := LineEnd(s);
    if n < |s| {
      NewlineApp(s, t, 0);
      SplitApp(s, t, n);
      PartialApp(s[n + 1..], t);
    }
  }

  /** And lines already complete stay as they are. */
  lemma {:induction false} FilterApp(keep: string -> bool, s: string, t: string)
    ensures Filter(keep, s + t) == Filter(keep, s) + Filter(keep, Partial(s) + t)
    decreases |s|
  {
    var n := LineEnd(s);
    if n == |s| {
      Assoc("", "", Filter(keep, s + t));
    } else {
      var line, rest := s[..n], s[n + 1..];
      FirstApp(keep, s, t);
      FilterApp(keep, rest, t);
      Assoc(Pick(keep, line), Filter(keep, rest), Filter(keep, Partial(rest) + t));
    }
  }

  lemma FirstApp(keep: string -> bool, s: string, t: string)
    requires LineEnd(s) < |s|
    ensures var n := LineEnd(s); Filter(keep, s + t) == Pick(keep, s[..n]) + Filter(keep, s[n + 1..] + t)
  {
    var st, n := s + t, LineEnd(s);
    NewlineApp(s, t, 0);
    SplitApp(s, t, n);
    FirstLine(keep, st, n, s[..n], s[n + 1..] + t);
  }

  lemma FirstLine(keep: string -> bool, s: string, n: nat, line: string, rest: string)
    requires n == LineEnd(s) < |s| && s[..n] == line && s[n + 1..] == rest
    ensures Filter(keep, s) == Pick(keep, line) + Filter(keep, rest)
  {
  }

  lemma SplitApp(s: string, t: string, n: nat)
    requires n < |s|
    ensures (s + t)[..n] == s[..n] && (s + t)[n + 1..] == s[n + 1..] + t
  {
  }

  /** The last BUFSIZE - 1 characters before position k have no newline: a buffer that holds them is full
      and has no complete line. */
  predicate Stuck(input: string, k: nat)
    requires k <= |input|
  {
    BUFSIZE - 1 <= k && '\n' !in input[k - (BUFSIZE - 1)..k]
  }

  /** The partial line is the longest end of s without a newline. */
  lemma {:induction false} PartialEnd(s: string)
    ensures |Partial(s)| <= |s| && Partial(s) == s[|s| - |Partial(s)|..] && '\n' !in Partial(s)
    ensures |Partial(s)| < |s| ==> s[|s| - |Partial(s)| - 1] == '\n'
    decreases |s|
  {
    var n := LineEnd(s);
    if n < |s| {
      PartialEnd(s[n + 1..]);
    } else {
      forall k | 0 <= k < |s| ensures s[k] != '\n' {
        NewlineFirst(s, 0, k);
      }
    }
  }

  lemma StuckIff(input: string, k: nat)
    requires k <= |input|
    ensures Stuck(input, k) <==> |Partial(input[..k])| >= BUFSIZE - 1
  {
    var s, m := input[..k], BUFSIZE - 1;
    PartialEnd(s);
    var r := |Partial(s)|;
    if r >= m {
      assert input[k - m..k] == Partial(s)[r - m..];
    } else if k >= m {
      assert input[k - m..k][m - r - 1] == s[k - r - 1] == '\n';
    }
  }

  /** Before a read of n characters fills the buffer, no position is stuck. */
  lemma NotYetStuck(input: string, got: nat, n: nat)
    requires got + n <= |input| && |Partial(input[..got])| + n <= BUFSIZE - 1
    ensures forall k | got <= k < got + n :: !Stuck(input, k)
  {
    forall k | got <= k < got + n ensures !Stuck(input, k) {
      var before, more := input[..got], input[got..k];
      assert input[..k] == before + more;
      PartialApp(before, more);
      PartialEnd(Partial(before) + more);
      StuckIff(input, k);
    }
  }

  // ---------- Which lines are printed ----------

  /** Lines, each with its newline. */
  function Text(lines: seq<string>): string {
    if lines == [] then "" else lines[0] + "\n" + Text(lines[1..])
  }

  predicate OneLine(s: string) {
    '\n' !in s
  }

  /** ks are the places, in order, of exactly the lines that are kept. */
  ghost predicate Chosen(keep: string -> bool, lines: seq<string>, ks: seq<nat>) {
    Ascending(ks, |lines|) && forall k: nat :: ChosenAt(keep, lines, ks, k)
  }

  ghost predicate ChosenAt(keep: string -> bool, lines: seq<string>, ks: seq<nat>, k: nat) {
    k < |lines| ==> (k in ks <==> keep(lines[k]))
  }

  ghost predicate Ascending(ks: seq<nat>, n: nat) {
    (forall a | 0 <= a < |ks| :: ks[a] < n) && forall a, b | 0 <= a < b < |ks| :: ks[a] < ks[b]
  }

  ghost function At(lines: seq<string>, ks: seq<nat>): (r: seq<string>)
    requires forall a | 0 <= a < |ks| :: ks[a] < |lines|
    ensures |r| == |ks| && forall a | 0 <= a < |r| :: r[a] == lines[ks[a]]
  {
    seq(|ks|, a requires 0 <= a < |ks| => lines[ks[a]])
  }

  ghost function Later(ks: seq<nat>): (r: seq<nat>)
    ensures |r| == |ks| && forall a | 0 <= a < |r| :: r[a] == ks[a] + 1
  {
    seq(|ks|, a requires 0 <= a < |ks| => ks[a] + 1)
  }

  lemma LaterIn(ks: seq<nat>, k: nat)
    ensures k in Later(ks) <==> k > 0 && k - 1 in ks
  {
    if k > 0 && k - 1 in ks {
      var a :| 0 <= a < |ks| && ks[a] == k - 1;
      assert Later(ks)[a] == k;
    }
    if k in Later(ks) {
      var a :| 0 <= a < |ks| && Later(ks)[a] == k;
      assert ks[a] == k - 1;
    }
  }

  ghost function Choose(chosen: bool, js: seq<nat>): seq<nat> {
    if chosen then [0] + Later(js) else Later(js)
  }

  lemma ChosenMore(keep: string -> bool, line: string, more: seq<string>, js: seq<nat>)
    requires Chosen(keep, more, js)
    ensures Chosen(keep, [line] + more, Choose(keep(line), js))
  {
    var lines, ks := [line] + more, Choose(keep(line), js);
    forall k: nat ensures ChosenAt(keep, lines, ks, k) {
      LaterIn(js, k);
      assert k > 0 ==> ChosenAt(keep, more, js, k - 1);
    }
  }

  lemma TextMore(line: string, more: seq<string>, js: seq<nat>, chosen: bool)
    requires Ascending(js, |more|) && Ascending(Choose(chosen, js), |more| + 1)
    ensures Text(At([line] + more, Choose(chosen, js))) == (if chosen then line + "\n" else "") + Text(At(more, js))
  {
    var out := At([line] + more, Choose(chosen, js));
    if chosen {
      assert out[0] == line && out[1..] == At(more, js);
    } else {
      assert out == At(more, js);
    }
  }

  ghost predicate LinesOf(s: string, lines: seq<string>) {
    s == Text(lines) + Partial(s) && OneLine(Partial(s)) && forall k | 0 <= k < |lines| :: OneLine(lines[k])
  }

  /** A text is its lines and what follows the last newline; the filter prints the lines that are kept, in order,
      and no others. */
  lemma {:induction false} FilterSelects(keep: string -> bool, s: string) returns (lines: seq<string>, ks: seq<nat>)
    ensures LinesOf(s, lines) && Chosen(keep, lines, ks) && Filter(keep, s) == Text(At(lines, ks))
    decreases |s|
  {
    var n := LineEnd(s);
    if n == |s| {
      PartialEnd(s);
      lines, ks := [], [];
      assert At(lines, ks) == [];
    } else {
      var more, js := FilterSelects(keep, s[n + 1..]);
      lines, ks := [s[..n]] + more, Choose(keep(s[..n]), js);
      LinesMore(s, n, more);
      ChosenMore(keep, s[..n], more, js);
      TextMore(s[..n], more, js, keep(s[..n]));
      FirstLine(keep, s, n, s[..n], s[n + 1..]);
    }
  }

  lemma LinesMore(s: string, n: nat, more: seq<string>)
    requires n == LineEnd(s) < |s| && LinesOf(s[n + 1..], more)
    ensures LinesOf(s, [s[..n]] + more)
  {
    var line, rest := s[..n], s[n + 1..];
    NoNewline(s, n);
    assert ([line] + more)[1..] == more;
    assert s == line + "\n" + rest;
    Assoc(line + "\n", Text(more), Partial(rest));
  }

  lemma NoNewline(s: string, n: nat)
    requires n == LineEnd(s) < |s|
    ensures OneLine(s[..n])
  {
    forall k | 0 <= k < n ensures s[k] != '\n' {
      NewlineFirst(s, 0, k);
    }
  }

  /** What grep prints of s: exactly the complete lines that match, in order. */
  lemma GrepPrints(re: string, s: string) returns (lines: seq<string>, ks: seq<nat>)
    ensures LinesOf(s, lines) && Ascending(ks, |lines|)
    ensures forall k: nat | k < |lines| :: k in ks <==> Matches(re, lines[k])
    ensures Filter(Matching(re), s) == Text(At(lines, ks))
  {
    lines, ks := FilterSelects(Matching(re), s);
    forall k: nat | k < |lines| ensures k in ks <==> Matches(re, lines[k]) {
      assert ChosenAt(Matching(re), lines, ks, k);
    }
  }

  /** grep on an open file.  Read k returns up to 1 + sizes[k] characters, at most what it was asked for
      and nothing only at the end of the file or with a full buffer; that ends the loop.  The output is the
      matching lines of what was read, however the reads were cut.  What was read ends at the first stuck
      position, and it is the whole file exactly when there is none before its end. */
  method GrepFile(re: string, input: string, sizes: seq<nat>) returns (out: string, got: nat)
    requires '\0' !in input
    ensures got <= |input|
    ensures out == Filter(Matching(re), input[..got])
    ensures forall k | 0 <= k < got :: !Stuck(input, k)
    ensures |sizes| > |input| && got < |input| ==> Stuck(input, got)
    ensures |sizes| > |input| ==> (got == |input| <==> forall k | 0 <= k < |input| :: !Stuck(input, k))
  {
    var buf: string := "";   // buf[..m]
    got, out := 0, "";
    for k := 0 to |sizes|
      invariant k <= got <= |input| && |buf| < BUFSIZE
      invariant out == Filter(Matching(re), input[..got]) && buf == Partial(input[..got])
      invariant forall i | 0 <= i < got :: !Stuck(input, i)
    {
      var n := Min(1 + sizes[k], Min(BUFSIZE - 1 - |buf|, |input| - got));
      if n == 0 {
        StuckIff(input, got);
        return;
      }
      NotYetStuck(input, got, n);
      var printed: string;
      printed, buf := Feed(re, input, got, n, buf);
      out, got := out + printed, got + n;
    }
  }

  /** A line that does not fit: whatever the pattern and whatever follows, grep stops inside a first line of
      BUFSIZE - 1 or more characters and prints nothing, although the line may match. */
  lemma LongLineLost(keep: string -> bool, line: string, rest: string)
    requires |line| >= BUFSIZE - 1 && '\n' !in line
    ensures var input := line + "\n" + rest;
      && Stuck(input, BUFSIZE - 1) && (forall k | 0 <= k < BUFSIZE - 1 :: !Stuck(input, k))
      && Filter(keep, input[..BUFSIZE - 1]) == ""
      && Filter(keep, input) == Pick(keep, line) + Filter(keep, rest)
  {
    var input, read := line + "\n" + rest, line[..BUFSIZE - 1];
    assert input[..BUFSIZE - 1] == read;
    assert LineEnd(read) == |read|;
    NewlineAt(line, rest, 0);
    assert input[..|line|] == line && input[|line| + 1..] == rest;
  }

  lemma {:induction false} NewlineAt(line: string, rest: string, i: nat)
    requires i <= |line| && '\n' !in line
    ensures NewlineFrom(line + "\n" + rest, i) == |line|
    decreases |line| - i
  {
    if i < |line| {
      NewlineAt(line, rest, i + 1);
    }
  }

  /** One read of n characters and what it prints. */
  method Feed(re: string, input: string, got: nat, n: nat, buf: string) returns (out: string, rest: string)
    requires got + n <= |input| && buf == Partial(input[..got])
    ensures Filter(Matching(re), input[..got]) + out == Filter(Matching(re), input[..got + n])
    ensures rest == Partial(input[..got + n]) && |rest| <= |buf| + n
  {
    ghost var before := input[..got];
    var chunk := input[got..got + n];
    assert before + chunk == input[..got + n];
    FilterApp(Matching(re), before, chunk);
    PartialApp(before, chunk);
    out, rest := FilterLines(re, buf + chunk);
  }

  /** What is still to print, before and after the first line. */
  lemma NextLine(keep: string -> bool, out: string, rest: string, q: nat)
    requires q == LineEnd(rest) < |rest|
    ensures var tail := rest[q + 1..];
      && out + Filter(keep, rest) == (if keep(rest[..q]) then out + rest[..q + 1] else out) + Filter(keep, tail)
      && Partial(rest) == Partial(tail)
  {
    LineWithEnd(rest, q);
    Assoc(out, Pick(keep, rest[..q]), Filter(keep, rest[q + 1..]));
    assert out + "" == out;
  }

  /** The inner loop: prints the matching lines in the buffer and moves the partial line to its start. */
  method FilterLines(re: string, buf: string) returns (out: string, rest: string)
    ensures out == Filter(Matching(re), buf) && rest == Partial(buf) && |rest| <= |buf|
  {
    out, rest := "", buf;
    ghost var keep := Matching(re);
    assert "" + Filter(keep, buf) == Filter(keep, buf);
    while true
      invariant |rest| <= |buf| && out + Filter(keep, rest) == Filter(keep, buf) && Partial(rest) == Partial(buf)
      decreases |rest|
    {
      var q := LineEnd(rest);
      if q == |rest| {
        assert out + "" == out;
        return;
      }
      NextLine(keep, out, rest, q);
      var found := Match(re, rest[..q]);
      if found {
        out := out + rest[..q + 1];
      }
      rest := rest[q + 1..];
    }
  }
}
