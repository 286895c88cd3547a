/** The kernel pipe (kernel/pipe.c): a ring of bytes behind two 32-bit counters.

    Each method is one section under pi->lock: from acquiring it, or waking up in sleep, to releasing
    it, or going to sleep.  Calls of readers and writers interleave in any way between sections.
 */
module Pipe {
  import opened Common

  const PIPESIZE := 512
  const WRAP := 0x1_0000_0000

  /** How a section ends: asleep, with -1, or with the number of bytes moved. */
  datatype Outcome = Asleep | Failed | Moved(n: nat)

  /** A counter that has counted to n, and the slot it selects, after any number of wraps. */
  lemma Counter(n: nat)
    ensures n % WRAP % PIPESIZE == n % PIPESIZE
    ensures (n % WRAP + 1) % WRAP == (n + 1) % WRAP
  {
  }

  /** Equal counters mean an empty pipe, and counters PIPESIZE apart a full one. */
  lemma Distance(r: nat, w: nat)
    requires r <= w <= r + PIPESIZE
    ensures r % WRAP == w % WRAP <==> w == r
    ensures w % WRAP == (r % WRAP + PIPESIZE) % WRAP <==> w == r + PIPESIZE
  {
  }

  class Fifo {
    const data: array<bv8>
    var nread: nat
    var nwrite: nat
    var readopen: bool
    var writeopen: bool
    ghost var written: seq<bv8>   // every byte ever put in
    ghost var taken: seq<bv8>     // every byte ever taken out

    ghost predicate Valid()
      reads this, data
    {
      && data.Length == PIPESIZE
      && |taken| <= |written| <= |taken| + PIPESIZE
      && taken == written[..|taken|]
      && nread == |taken| % WRAP && nwrite == |written| % WRAP
      && (forall k: nat | |taken| <= k < |written| :: Holds(data[..], written, k))
    }

    /** What has been written and not yet taken. */
    ghost function Contents(): seq<bv8>
      requires Valid()
      reads this, data
    {
      written[|taken|..]
    }

    constructor ()
      ensures Valid() && written == [] && taken == [] && readopen && writeopen && fresh(data)
    {
      data := new bv8[PIPESIZE];
      nread, nwrite, readopen, writeopen := 0, 0, true, true;
      written, taken := [], [];
    }

    /** pipeclose; the result says whether the page is freed. */
    method Close(writable: bool) returns (freed: bool)
      requires Valid()
      modifies this`readopen, this`writeopen
      ensures Valid() && readopen == (old(readopen) && writable) && writeopen == (old(writeopen) && !writable)
      ensures freed == (!readopen && !writeopen)
    {
      if writable {
        writeopen := false;
      } else {
        readopen := false;
      }
      freed := !readopen && !writeopen;
    }

    /** data[nwrite++ % PIPESIZE] = ch */
    method Put(ch: bv8)
      requires Valid() && |Contents()| < PIPESIZE
      modifies this`nwrite, this`written, data
      ensures Valid() && written == old(written) + [ch]
    {
      Counter(|written|);
      ghost var w, d := written, data[..];
      data[nwrite % PIPESIZE] := ch;
      nwrite := (nwrite + 1) % WRAP;
      written := written + [ch];
      forall k: nat | |taken| <= k < |written| ensures Holds(data[..], written, k) {
        if k < |w| {
          assert Holds(d, w, k);
          Apart(k, |w|);
        }
      }
    }

    /** ch = data[nread++ % PIPESIZE] */
    method Take() returns (ch: bv8)
      requires Valid() && Contents() != []
      modifies this`nread, this`taken
      ensures Valid() && Contents() == old(Contents())[1..] && ch == old(Contents())[0] && taken == old(taken) + [ch]
    {
      Counter(|taken|);
      assert Holds(data[..], written, |taken|);
      ch := data[nread % PIPESIZE];
      nread := (nread + 1) % WRAP;
      taken := taken + [ch];
    }

    /** A section of pipewrite that goes on with src[i..].  The copyin of byte `fault` fails; kill has
        been called by the time byte `killed` is due. */
    method Write(src: seq<bv8>, i: nat, fault: nat, killed: nat) returns (r: Outcome, j: nat)
      requires Valid() && i <= |src|
      modifies this`nwrite, this`written, data
      ensures Valid() && Wrote(Writing(src, i, fault, killed), old(Now()), r, j, Now())
    {
      j := i;
      while j < |src|
        invariant Valid() && i <= j <= |src| && written == old(written) + src[i..j]
        invariant (readopen || j == i) && (i <= fault ==> j <= fault) && (i <= killed ==> j <= killed)
        decreases |src| - j
      {
        if !readopen || killed <= j {
          return Failed, j;
        }
        Distance(|taken|, |written|);
        if nwrite == (nread + PIPESIZE) % WRAP {
          return Asleep, j;
        }
        if j == fault {
          break;
        }
        Put(src[j]);
        j := j + 1;
      }
      r := Moved(j);
    }

    /** A section of piperead for n bytes.  The copyout of byte `fault` fails, and that byte is lost:
        it is taken from the pipe and not counted. */
    method Read(n: nat, fault: nat, killed: bool) returns (r: Outcome, out: seq<bv8>, lost: seq<bv8>)
      requires Valid()
      modifies this`nread, this`taken
      ensures Valid() && Took(Reading(n, fault, killed), old(Now()), r, out, lost, Now())
    {
      out, lost := [], [];
      Distance(|taken|, |written|);
      if nread == nwrite && writeopen {
        return if killed then Failed else Asleep, [], [];
      }
      ghost var before := Contents();
      var i := 0;
      while i < n
        invariant Valid() && i == |out| && i <= n && i <= fault && i <= |before|
        invariant out == before[..i] && Contents() == before[i..] && taken == old(taken) + before[..i]
      {
        Distance(|taken|, |written|);
        if nread == nwrite {
          break;
        }
        var ch := Take();
        assert before[..i] + [ch] == before[..i + 1];
        if i == fault {
          lost := [ch];
          break;
        }
        out := out + [ch];
        i := i + 1;
      }
      r := Moved(i);
    }

    ghost function Now(): Flow
      reads this
    {
      Flow(written, taken, readopen, writeopen)
    }
  }

  ghost predicate Holds(data: seq<bv8>, written: seq<bv8>, k: nat) {
    |data| == PIPESIZE && k < |written| && data[k % PIPESIZE] == written[k]
  }

  lemma Apart(k: nat, w: nat)
    requires k < w < k + PIPESIZE
    ensures k % PIPESIZE != w % PIPESIZE
  {
  }

  // ---------- Sections ----------

  datatype Section =
    | Writing(src: seq<bv8>, i: nat, fault: nat, killed: nat)
    | Reading(n: nat, wrong: nat, dead: bool)
    | Closing(writable: bool)

  datatype Result =
    | WriteResult(r: Outcome, j: nat)
    | ReadResult(r: Outcome, out: seq<bv8>, lost: seq<bv8>)
    | CloseResult(freed: bool)

  /** All that has gone in and come out, and which ends are open. */
  datatype Flow = Flow(written: seq<bv8>, taken: seq<bv8>, readopen: bool, writeopen: bool)

  ghost predicate Sound(s: Flow) {
    |s.taken| <= |s.written| <= |s.taken| + PIPESIZE && s.taken == s.written[..|s.taken|]
  }

  ghost function Inside(s: Flow): seq<bv8>
    requires Sound(s)
  {
    s.written[|s.taken|..]
  }

  /** The section wrote src[i..j]: it sleeps exactly when the pipe is full and more is to come, fails
      exactly when the reader is gone or the writer killed, and otherwise stops at the end or at the
      fault. */
  ghost predicate Wrote(w: Section, s: Flow, r: Outcome, j: nat, t: Flow) {
    && w.Writing? && Sound(s) && Sound(t) && w.i <= j <= |w.src|
    && t == s.(written := s.written + w.src[w.i..j])
    && (r.Asleep? <==> j < |w.src| && s.readopen && j < w.killed && |Inside(t)| == PIPESIZE)
    && (r.Failed? <==> j < |w.src| && (!s.readopen || w.killed <= j))
    && (r.Moved? ==> r.n == j && (j == |w.src| || j == w.fault))
    && (s.readopen || j == w.i) && (w.i <= w.fault ==> j <= w.fault) && (w.i <= w.killed ==> j <= w.killed)
  }

  /** The section took the oldest bytes, `out` and what a fault lost. */
  ghost predicate Took(w: Section, s: Flow, r: Outcome, out: seq<bv8>, lost: seq<bv8>, t: Flow) {
    && w.Reading? && Sound(s) && Sound(t)
    && t == s.(taken := s.taken + (out + lost)) && out + lost <= Inside(s)
    && (r.Asleep? <==> Inside(s) == [] && s.writeopen && !w.dead)
    && (r.Failed? <==> Inside(s) == [] && s.writeopen && w.dead)
    && (r.Moved? ==> r.n == |out| == Min(w.wrong, Min(w.n, |Inside(s)|)))
    && |lost| == if r.Moved? && w.wrong < w.n && w.wrong < |Inside(s)| then 1 else 0
  }

  ghost predicate Did(w: Section, s: Flow, res: Result, t: Flow) {
    match w
    case Writing(_, _, _, _) => res.WriteResult? && Wrote(w, s, res.r, res.j, t)
    case Reading(_, _, _) => res.ReadResult? && Took(w, s, res.r, res.out, res.lost, t)
    case Closing(writable) =>
      && Sound(s) && t == s.(readopen := s.readopen && writable, writeopen := s.writeopen && !writable)
      && res == CloseResult(!t.readopen && !t.writeopen)
  }

  // ---------- Any interleaving ----------

  ghost predicate DidAt(sections: seq<Section>, states: seq<Flow>, results: seq<Result>, k: nat) {
    k < |sections| && k < |results| && k + 1 < |states| && Did(sections[k], states[k], results[k], states[k + 1])
  }

  /** What the writing sections put in, in order. */
  ghost function Puts(sections: seq<Section>, results: seq<Result>): seq<bv8>
    requires |results| <= |sections|
  {
    if results == [] then []
    else
      var k := |results| - 1;
      Puts(sections, results[..k]) + PutBy(sections[k], results[k])
  }

  ghost function PutBy(w: Section, res: Result): seq<bv8> {
    if w.Writing? && res.WriteResult? && w.i <= res.j <= |w.src| then w.src[w.i..res.j] else []
  }

  /** What the reading sections took out, in order. */
  ghost function Gots(results: seq<Result>): seq<bv8> {
    if results == [] then []
    else
      var k := |results| - 1;
      Gots(results[..k]) + GotBy(results[k])
  }

  ghost function GotBy(res: Result): seq<bv8> {
    if res.ReadResult? then res.out + res.lost else []
  }

  /** Each section appends what it put and takes off the front what it got. */
  lemma SectionFlow(w: Section, s: Flow, res: Result, t: Flow)
    requires Did(w, s, res, t)
    ensures t.written == s.written + PutBy(w, res) && t.taken == s.taken + GotBy(res)
  {
    assert s.written + [] == s.written && s.taken + [] == s.taken;
  }

  /** Section k led from state k to state k + 1, with result k. */
  ghost predicate Chain(sections: seq<Section>, states: seq<Flow>, results: seq<Result>) {
    && |states| == |results| + 1 <= |sections| + 1
    && (forall k: nat | k < |results| :: DidAt(sections, states, results, k))
  }

  lemma ChainMore(sections: seq<Section>, states: seq<Flow>, results: seq<Result>, res: Result, t: Flow)
    requires Chain(sections, states, results) && |results| < |sections|
    requires Did(sections[|results|], states[|results|], res, t)
    ensures Chain(sections, states + [t], results + [res])
  {
    var ss, rs := states + [t], results + [res];
    forall k: nat | k < |rs| ensures DidAt(sections, ss, rs, k) {
      if k < |results| {
        assert DidAt(sections, states, results, k);
      }
    }
  }

  lemma {:induction false} ChainFlow(sections: seq<Section>, states: seq<Flow>, results: seq<Result>)
    requires Chain(sections, states, results)
    ensures states[|results|].written == states[0].written + Puts(sections, results)
    ensures states[|results|].taken == states[0].taken + Gots(results)
    decreases |results|
  {
    var n := |results|;
    if n > 0 {
      var rs, ss := results[..n - 1], states[..n];
      forall k: nat | k < n - 1 ensures DidAt(sections, ss, rs, k) {
        assert DidAt(sections, states, results, k);
      }
      ChainFlow(sections, ss, rs);
      assert DidAt(sections, states, results, n - 1);
      SectionFlow(sections[n - 1], states[n - 1], results[n - 1], states[n]);
      Assoc(states[0].written, Puts(sections, rs), PutBy(sections[n - 1], results[n - 1]));
      Assoc(states[0].taken, Gots(rs), GotBy(results[n - 1]));
    } else {
      Assoc(states[0].written, [], []);
      Assoc(states[0].taken, [], []);
    }
  }

  lemma Assoc(a: seq<bv8>, b: seq<bv8>, c: seq<bv8>)
    ensures (a + b) + c == a + (b + c) && a + [] == a
  {
  }

  /** Over any run of sections, each doing what its own rule says: bytes leave in the order they came,
      none lost or invented in the ring, and never more than PIPESIZE of them are inside. */
  method Run(p: Fifo, sections: seq<Section>) returns (results: seq<Result>, ghost states: seq<Flow>)
    requires p.Valid()
    requires forall k | 0 <= k < |sections| && sections[k].Writing? :: sections[k].i <= |sections[k].src|
    modifies p, p.data
    ensures p.Valid() && |p.Contents()| <= PIPESIZE
    ensures |results| == |sections| && Chain(sections, states, results)
    ensures states[0] == old(p.Now()) && states[|sections|] == p.Now()
    ensures Gots(results) + p.Contents() == old(p.Contents()) + Puts(sections, results)
  {
    results, states := [], [p.Now()];
    ghost var inside := p.Contents();
    for k := 0 to |sections|
      invariant p.Valid() && |results| == k && Chain(sections, states, results)
      invariant states[0] == old(p.Now()) && states[k] == p.Now()
    {
      var res := Do(p, sections[k]);
      ChainMore(sections, states, results, res, p.Now());
      results, states := results + [res], states + [p.Now()];
    }
    ChainFlow(sections, states, results);
    assert p.written == p.taken + p.Contents() && old(p.written) == old(p.taken) + inside;
    Cancel(old(p.taken), Gots(results), p.Contents(), inside, Puts(sections, results));
  }

  method Do(p: Fifo, w: Section) returns (res: Result)
    requires p.Valid() && (w.Writing? ==> w.i <= |w.src|)
    modifies p, p.data
    ensures p.Valid() && Did(w, old(p.Now()), res, p.Now())
  {
    match w
    case Writing(src, i, fault, killed) =>
      var r, j := p.Write(src, i, fault, killed);
      res := WriteResult(r, j);
    case Reading(n, wrong, dead) =>
      var r, out, lost := p.Read(n, wrong, dead);
      res := ReadResult(r, out, lost);
    case Closing(writable) =>
      var freed := p.Close(writable);
      res := CloseResult(freed);
  }

  lemma Cancel(t: seq<bv8>, a: seq<bv8>, b: seq<bv8>, c: seq<bv8>, d: seq<bv8>)
    requires (t + a) + b == (t + c) + d
    ensures a + b == c + d
  {
    assert a + b == ((t + a) + b)[|t|..];
    assert c + d == ((t + c) + d)[|t|..];
  }
}
