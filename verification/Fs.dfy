/** balloc, bfree, bmap, itrunc, readi and writei of kernel/fs.c, and the transactions of
    filewrite in kernel/file.c. */
module FileSystem {
  import opened Common
  import opened FsSpec

  /** Bitmap bits per block. */
  const BPB: nat := BSIZE * 8

  /** Byte x of file j is the same in both. */
  ghost predicate SameByte(s: Fs, t: Fs, j: nat, x: nat) {
    ByteAt(t, j, x) == ByteAt(s, j, x)
  }

  ghost predicate SameBytes(s: Fs, t: Fs) {
    forall j: nat, x: nat :: SameByte(s, t, j, x)
  }

  /** A filled slot keeps its block. */
  ghost predicate KeptSlot(s: Fs, t: Fs, j: nat, l: nat) {
    RefAt(s, j, l) != 0 ==> RefAt(t, j, l) == RefAt(s, j, l)
  }

  ghost predicate KeptSlots(s: Fs, t: Fs) {
    forall j: nat, l: nat :: KeptSlot(s, t, j, l)
  }

  ghost predicate SameSizes(s: Fs, t: Fs) {
    && t.inodes.Keys == s.inodes.Keys && |t.bitmap| == |s.bitmap|
    && forall j | j in s.inodes :: t.inodes[j].size == s.inodes[j].size
  }

  // ---------- What an operation logs ----------

  /** Inodes in a block. */
  const IPB: nat := 16

  /** A block whose contents changed is in blks. */
  ghost predicate NotedBlock(s: Fs, t: Fs, blks: set<nat>, b: nat) {
    b in t.data && (b !in s.data || t.data[b] != s.data[b]) ==> b in blks
  }

  /** The bitmap block of a bit that changed is in bits. */
  ghost predicate NotedBit(s: Fs, t: Fs, bits: set<nat>, bmapstart: nat, c: nat) {
    c < |s.bitmap| && c < |t.bitmap| && t.bitmap[c] != s.bitmap[c] ==> bmapstart + c / BPB in bits
  }

  ghost predicate SameInode(s: Fs, t: Fs, j: nat) {
    j in s.inodes && j in t.inodes ==> t.inodes[j] == s.inodes[j]
  }

  /** The inode block of an inode that changed is in blks. */
  ghost predicate NotedInode(s: Fs, t: Fs, blks: set<nat>, inodestart: nat, j: nat) {
    SameInode(s, t, j) || inodestart + j / IPB in blks
  }

  /** Inside an operation on file i: only its inode may have changed without being logged yet. */
  ghost predicate Noted(s: Fs, t: Fs, i: nat, bits: set<nat>, blks: set<nat>, bmapstart: nat) {
    && |t.bitmap| == |s.bitmap| && t.inodes.Keys == s.inodes.Keys && s.data.Keys <= t.data.Keys
    && (forall b: nat :: NotedBlock(s, t, blks, b))
    && (forall c: nat :: NotedBit(s, t, bits, bmapstart, c))
    && (forall j: nat :: j == i || SameInode(s, t, j))
  }

  /** After an operation: everything that changed on disk was logged. */
  ghost predicate Recorded(s: Fs, t: Fs, bits: set<nat>, blks: set<nat>, bmapstart: nat, inodestart: nat) {
    && |t.bitmap| == |s.bitmap| && t.inodes.Keys == s.inodes.Keys && s.data.Keys <= t.data.Keys
    && (forall b: nat :: NotedBlock(s, t, blks, b))
    && (forall c: nat :: NotedBit(s, t, bits, bmapstart, c))
    && (forall j: nat :: NotedInode(s, t, blks, inodestart, j))
  }

  lemma NotedNothing(s: Fs, i: nat, bits: set<nat>, blks: set<nat>, bmapstart: nat)
    ensures Noted(s, s, i, bits, blks, bmapstart)
  {
  }

  lemma NotedTrans(s: Fs, u: Fs, t: Fs, i: nat, bits1: set<nat>, blks1: set<nat>, bits: set<nat>, blks: set<nat>,
      bmapstart: nat)
    requires Noted(s, u, i, bits1, blks1, bmapstart) && Noted(u, t, i, bits, blks, bmapstart)
    requires bits1 <= bits && blks1 <= blks
    ensures Noted(s, t, i, bits, blks, bmapstart)
  {
    forall b: nat ensures NotedBlock(s, t, blks, b) {
      assert NotedBlock(s, u, blks1, b) && NotedBlock(u, t, blks, b);
    }
    forall c: nat ensures NotedBit(s, t, bits, bmapstart, c) {
      assert NotedBit(s, u, bits1, bmapstart, c) && NotedBit(u, t, bits, bmapstart, c);
    }
    forall j: nat ensures j == i || SameInode(s, t, j) {
      assert j == i || (SameInode(s, u, j) && SameInode(u, t, j));
    }
  }

  lemma NotedFill(s: Fs, i: nat, k: nat, b: nat, bits: set<nat>, blks: set<nat>, bmapstart: nat)
    requires Good(s) && Empty(s, i, k) && b < |s.bitmap| && !s.bitmap[b]
    requires bmapstart + b / BPB in bits && b in blks && (k > NDIRECT ==> RefAt(s, i, NDIRECT) in blks)
    ensures Noted(s, Filled(s, i, k, b), i, bits, blks, bmapstart)
  {
    FillRefs(s, i, k, b, i, k);
    var t := Filled(s, i, k, b);
    assert t.inodes.Keys == s.inodes.Keys;
    forall c: nat ensures NotedBlock(s, t, blks, c) {
    }
    forall c: nat ensures NotedBit(s, t, bits, bmapstart, c) {
    }
  }

  lemma NotedWrite(s: Fs, i: nat, bn: nat, blk: Block, bits: set<nat>, blks: set<nat>, bmapstart: nat)
    requires RefAt(s, i, SlotOf(bn)) in blks
    ensures Noted(s, WithBlock(s, i, bn, blk), i, bits, blks, bmapstart)
  {
  }

  /** iupdate completes the record. */
  lemma RecordedResize(s: Fs, u: Fs, t: Fs, i: nat, bits: set<nat>, blks1: set<nat>, blks: set<nat>, bmapstart: nat,
      inodestart: nat)
    requires Noted(s, u, i, bits, blks1, bmapstart) && blks == blks1 + {inodestart + i / IPB}
    requires i in u.inodes && i in t.inodes && t == u.(inodes := u.inodes[i := t.inodes[i]])
    ensures Recorded(s, t, bits, blks, bmapstart, inodestart)
  {
    assert t.inodes.Keys == u.inodes.Keys;
    forall b: nat ensures NotedBlock(s, t, blks, b) {
      assert NotedBlock(s, u, blks1, b);
    }
    forall c: nat ensures NotedBit(s, t, bits, bmapstart, c) {
      assert NotedBit(s, u, bits, bmapstart, c);
    }
    forall j: nat ensures NotedInode(s, t, blks, inodestart, j) {
      assert j == i || SameInode(s, u, j);
    }
  }

  class Disk {
    const nmeta: nat
    const inodestart: nat
    const bmapstart: nat
    var bitmap: seq<bool>
    var data: map<nat, Block>
    var inodes: map<nat, Inode>

    /** What the current operation has passed to log_write: bitmap blocks, and all others; and
        how many blocks it has allocated. */
    ghost var bits: set<nat>
    ghost var blks: set<nat>
    ghost var allocs: nat

    ghost function State(): Fs
      reads this
    {
      Fs(nmeta, bitmap, data, inodes)
    }

    ghost predicate Valid()
      reads this
    {
      Good(State()) && |bits| <= allocs && OneBitmap()
    }

    /** A file system of at most BPB blocks has a single bitmap block. */
    ghost predicate OneBitmap()
      reads this
    {
      |bitmap| <= BPB ==> bits <= {bmapstart}
    }

    /** The first free block, marked and zeroed; 0 if there is none. */
    method Balloc() returns (r: nat)
      requires |bits| <= allocs && OneBitmap() && |bitmap| > 0 && bitmap[0]
      modifies this`bitmap, this`data, this`bits, this`blks, this`allocs
      ensures r == 0 ==> State() == old(State()) && (forall c | 0 <= c < |bitmap| :: bitmap[c])
      ensures r == 0 ==> bits == old(bits) && blks == old(blks) && allocs == old(allocs)
      ensures r != 0 ==> r < |old(bitmap)| && !old(bitmap)[r] && State() == Alloc(old(State()), r)
      ensures r != 0 ==> forall c | 0 <= c < r :: old(bitmap)[c]
      ensures r != 0 ==>
        bits == old(bits) + {bmapstart + r / BPB} && blks == old(blks) + {r} && allocs == old(allocs) + 1
      ensures |bits| <= allocs && OneBitmap()
    {
      var b := 0;
      while b < |bitmap|
        invariant b % BPB == 0
        invariant forall c | 0 <= c < b && c < |bitmap| :: bitmap[c]
        invariant State() == old(State()) && bits == old(bits) && blks == old(blks) && allocs == old(allocs)
      {
        var bi := 0;
        while bi < BPB && b + bi < |bitmap|
          invariant 0 <= bi <= BPB
          invariant forall c | 0 <= c < b + bi && c < |bitmap| :: bitmap[c]
          invariant State() == old(State()) && bits == old(bits) && blks == old(blks) && allocs == old(allocs)
        {
          if !bitmap[b + bi] {
            bitmap := bitmap[b + bi := true];
            bits := bits + {bmapstart + b / BPB};
            data := data[b + bi := Zeros()];
            blks := blks + {b + bi};
            allocs := allocs + 1;
            return b + bi;
          }
          bi := bi + 1;
        }
        b := b + BPB;
      }
      return 0;
    }

    /** Allocate a block for an empty slot; 0 if the disk is full. */
    method FillSlot(i: nat, k: nat) returns (addr: nat)
      requires Valid() && Empty(State(), i, k)
      modifies this`bitmap, this`data, this`inodes, this`bits, this`blks, this`allocs
      ensures Valid()
      ensures addr == 0 ==> State() == old(State()) && (forall c | 0 <= c < |bitmap| :: bitmap[c])
      ensures addr == 0 ==> bits == old(bits) && blks == old(blks) && allocs == old(allocs)
      ensures addr != 0 ==> addr < |old(bitmap)| && !old(bitmap)[addr] && State() == Filled(old(State()), i, k, addr)
      ensures addr != 0 ==> allocs == old(allocs) + 1 && bits == old(bits) + {bmapstart + addr / BPB}
      ensures addr != 0 ==> blks == old(blks) + {addr} + if k > NDIRECT then {RefAt(old(State()), i, NDIRECT)} else {}
    {
      assert GoodBit(State(), 0);
      addr := Balloc();
      if addr != 0 {
        FillRefs(old(State()), i, k, addr, i, k);
        FillKeeps(old(State()), i, k, addr);
        if k <= NDIRECT {
          inodes := inodes[i := inodes[i].(addrs := inodes[i].addrs[k := addr])];
        } else {
          var ind := inodes[i].addrs[NDIRECT];
          data := data[ind := PutWord(data[ind], k - NDIRECT - 1, addr)];
          blks := blks + {ind};
        }
      }
    }

    /** The block of slot k, filled if it was empty. */
    method NeedSlot(i: nat, k: nat) returns (addr: nat)
      requires Valid() && i in inodes && k < SLOTS && (k > NDIRECT ==> RefAt(State(), i, NDIRECT) != 0)
      modifies this`bitmap, this`data, this`inodes, this`bits, this`blks, this`allocs
      ensures Valid() && Extends(old(State()), State())
      ensures old(bits) <= bits && old(blks) <= blks && Noted(old(State()), State(), i, bits, blks, bmapstart)
      ensures addr == RefAt(State(), i, k)
      ensures addr == 0 ==> forall c | 0 <= c < |bitmap| :: bitmap[c]
      ensures allocs == old(allocs) + if RefAt(old(State()), i, k) == 0 && addr != 0 then 1 else 0
      ensures allocs == old(allocs) ==> blks == old(blks) && State() == old(State())
      ensures blks <= old(blks) + ({addr, RefAt(State(), i, NDIRECT)} - {0})
    {
      assert GoodInode(State(), i) && GoodSlot(State(), i, NDIRECT);
      addr := if k <= NDIRECT then inodes[i].addrs[k] else Word(data[inodes[i].addrs[NDIRECT]], k - NDIRECT - 1);
      NotedNothing(State(), i, bits, blks, bmapstart);
      if addr == 0 {
        addr := FillSlot(i, k);
        if addr != 0 {
          NotedFill(old(State()), i, k, addr, bits, blks, bmapstart);
          FillExtends(old(State()), i, k, addr);
          FillRefs(old(State()), i, k, addr, i, k);
          FillRefs(old(State()), i, k, addr, i, NDIRECT);
        }
      }
    }

    /** The block number of file block bn, allocating it if there is none; 0 if the disk is full,
        and not ok, a panic, if no file has such a block. */
    method Bmap(i: nat, bn: nat) returns (ok: bool, addr: nat)
      requires Valid() && i in inodes
      modifies this`bitmap, this`data, this`inodes, this`bits, this`blks, this`allocs
      ensures ok <==> bn < MAXFILE
      ensures Valid() && Extends(old(State()), State())
      ensures old(bits) <= bits && old(blks) <= blks && Noted(old(State()), State(), i, bits, blks, bmapstart)
      ensures ok ==> addr == RefAt(State(), i, SlotOf(bn))
      ensures ok && addr != 0 ==> FileBlock(State(), i, bn, addr)
      ensures ok && addr == 0 ==> forall c | 0 <= c < |bitmap| :: bitmap[c]
      ensures RefAt(old(State()), i, SlotOf(bn)) != 0 ==>
        State() == old(State()) && blks == old(blks) && allocs == old(allocs)
      ensures allocs <= old(allocs) + (if RefAt(old(State()), i, SlotOf(bn)) == 0 then 1 else 0)
                        + (if RefAt(old(State()), i, NDIRECT) == 0 && RefAt(State(), i, NDIRECT) != 0 then 1 else 0)
      ensures blks <= old(blks) + ({addr, RefAt(State(), i, NDIRECT)} - {0})
    {
      ExtendsRefl(State());
      NotedNothing(State(), i, bits, blks, bmapstart);
      if bn < NDIRECT {
        addr := NeedSlot(i, bn);
        NamedSlot(State(), i, bn, addr);
        return true, addr;
      }
      if bn < MAXFILE {
        addr := NeedSlot(i, NDIRECT);
        if addr == 0 {
          assert GoodInode(State(), i);
          return true, 0;
        }
        ghost var mid, bits1, blks1 := State(), bits, blks;
        addr := NeedSlot(i, bn + 1);
        NotedTrans(old(State()), mid, State(), i, bits1, blks1, bits, blks, bmapstart);
        ExtendsTrans(old(State()), mid, State());
        assert KeptSlot(mid, State(), i, NDIRECT) && KeptSlot(old(State()), mid, i, bn + 1)
          && KeptSlot(old(State()), mid, i, NDIRECT);
        NamedSlot(State(), i, bn, addr);
        return true, addr;
      }
      return false, 0;
    }

    /** One iteration of writei: bytes of one block, at offset o. */
    method WriteChunk(i: nat, o: nat, bytes: seq<Byte>) returns (done: bool)
      requires Valid() && i in inodes && o / BSIZE < MAXFILE && 0 < |bytes| <= BSIZE - o % BSIZE
      modifies this`bitmap, this`data, this`inodes, this`bits, this`blks, this`allocs
      ensures Valid() && KeptSlots(old(State()), State()) && SameSizes(old(State()), State())
      ensures old(bits) <= bits && old(blks) <= blks && Noted(old(State()), State(), i, bits, blks, bmapstart)
      ensures done ==> WroteBytes(old(State()), State(), i, o, bytes) && RefAt(State(), i, SlotOf(o / BSIZE)) != 0
      ensures !done ==> RefAt(State(), i, SlotOf(o / BSIZE)) == 0
      ensures !done ==> SameBytes(old(State()), State()) && forall c | 0 <= c < |bitmap| :: bitmap[c]
      ensures allocs <= old(allocs) + (if RefAt(old(State()), i, SlotOf(o / BSIZE)) == 0 then 1 else 0)
                        + Gained(old(State()), State(), i)
      ensures blks <= old(blks) + ({RefAt(State(), i, SlotOf(o / BSIZE)), RefAt(State(), i, NDIRECT)} - {0})
    {
      var _, addr := Bmap(i, o / BSIZE);
      if addr == 0 {
        return false;
      }
      ghost var s, bits1, blks1 := State(), bits, blks;
      assert GoodSlot(s, i, SlotOf(o / BSIZE));
      var was := data[addr];
      var blk := was[..o % BSIZE] + bytes + was[o % BSIZE + |bytes|..];
      WriteKeeps(s, i, o / BSIZE, blk);
      data := data[addr := blk];
      blks := blks + {addr};
      NotedWrite(s, i, o / BSIZE, blk, bits, blks, bmapstart);
      NotedTrans(old(State()), s, State(), i, bits1, blks1, bits, blks, bmapstart);
      ChunkWrote(old(State()), s, State(), i, o, bytes, blk);
      return true;
    }

    /** tot bytes of src have been written; up to `upto` blocks may have been logged and allocated for. */
    ghost predicate Writing(s0: Fs, i: nat, off: nat, src: seq<Byte>, tot: nat, upto: nat, T: set<nat>, blks0: set<nat>,
        allocs0: nat)
      requires tot <= |src|
      reads this
    {
      && Valid() && i in inodes && Noted(s0, State(), i, bits, blks, bmapstart)
      && Wrote(s0, State(), i, off, src, tot)
      && Counted(s0, State(), i, off, upto, T, blks0, blks, allocs0, allocs)
    }

    /** One iteration of writei's loop, after tot bytes; it writes up to byte next. */
    method WriteStep(i: nat, off: nat, src: seq<Byte>, tot: nat, ghost s0: Fs, ghost T: set<nat>, ghost blks0: set<nat>,
        ghost allocs0: nat)
      returns (done: bool, next: nat, ghost T': set<nat>)
      requires off + |src| <= MAXFILE * BSIZE && tot < |src| && Boundary(off, tot, |src|)
      requires tot < |src| && Writing(s0, i, off, src, tot, tot, T, blks0, allocs0)
      modifies this`bitmap, this`data, this`inodes, this`bits, this`blks, this`allocs
      ensures old(bits) <= bits && old(blks) <= blks
      ensures tot < next <= |src| && Boundary(off, next, |src|)
      ensures Writing(s0, i, off, src, if done then next else tot, next, T', blks0, allocs0)
      ensures Spanned(off, next) <= Spanned(off, |src|) && NewBlocks(off, next) <= NewBlocks(off, |src|)
      ensures !done ==> forall c | 0 <= c < |bitmap| :: bitmap[c]
    {
      var o := off + tot;
      var m := if |src| - tot < BSIZE - o % BSIZE then |src| - tot else BSIZE - o % BSIZE;
      next := tot + m;
      ghost var s1, bits1, blks1, allocs1 := State(), bits, blks, allocs;
      SpanStep(off, tot, m, next, |src|);
      done := WriteChunk(i, o, src[tot..next]);
      NotedTrans(s0, s1, State(), i, bits1, blks1, bits, blks, bmapstart);
      CountedStep(s0, s1, State(), i, off, tot, next, T, blks0, blks1, blks, allocs0, allocs1, allocs);
      if done {
        WroteMore(s0, s1, State(), i, off, src, tot, next);
        T' := T + {RefAt(State(), i, SlotOf(o / BSIZE))};
      } else {
        WroteStop(s0, s1, State(), i, off, src, tot);
        T' := T;
      }
    }

    /** The loop of writei; returns the number of bytes written.  T collects the data blocks. */
    method WriteLoop(i: nat, off: nat, src: seq<Byte>) returns (tot: nat, ghost T: set<nat>)
      requires Valid() && i in inodes && off + |src| <= MAXFILE * BSIZE && MappedTo(State(), i, off)
      modifies this`bitmap, this`data, this`inodes, this`bits, this`blks, this`allocs
      ensures Valid() && tot <= |src| && Wrote(old(State()), State(), i, off, src, tot)
      ensures old(bits) <= bits && old(blks) <= blks && Noted(old(State()), State(), i, bits, blks, bmapstart)
      ensures tot < |src| ==> forall c | 0 <= c < |bitmap| :: bitmap[c]
      ensures allocs <= old(allocs) + NewBlocks(off, |src|) + 1
      ensures |T| <= Spanned(off, |src|) && blks <= old(blks) + T + ({RefAt(State(), i, NDIRECT)} - {0})
    {
      ghost var s0, blks0, allocs0 := State(), blks, allocs;
      T := {};
      tot := 0;
      WroteNothing(s0, i, off);
      NotedNothing(s0, i, bits, blks, bmapstart);
      while tot < |src|
        invariant old(bits) <= bits && old(blks) <= blks && 0 <= tot <= |src| && Boundary(off, tot, |src|)
        invariant Writing(s0, i, off, src, tot, tot, T, blks0, allocs0)
      {
        var done, next;
        done, next, T := WriteStep(i, off, src, tot, s0, T, blks0, allocs0);
        if !done {
          return;
        }
        tot := next;
      }
    }

    /** Write src to file i at off.  A negative result means that the offset is past the end or
        the file would be too large; otherwise it is the number of bytes written, short only
        when the disk is full. */
    method Writei(i: nat, off: nat, src: seq<Byte>) returns (r: int)
      requires Valid() && AllMapped(State()) && i in inodes && off < U32 && |src| < U32
      modifies this
      ensures Valid() && AllMapped(State()) && inodes.Keys == old(inodes).Keys && |bitmap| == |old(bitmap)|
      ensures r == -1 <==> off > old(inodes)[i].size || off + |src| >= U32 || off + |src| > MAXFILE * BSIZE
      ensures r == -1 ==> State() == old(State()) && blks == old(blks) && allocs == old(allocs)
      ensures r != -1 ==> 0 <= r <= |src| && WroteBytes(old(State()), State(), i, off, src[..r])
      ensures r != -1 ==> inodes[i].size == Max(old(inodes)[i].size, off + r)
      ensures forall j | j in inodes && j != i :: inodes[j].size == old(inodes)[j].size
      ensures r != -1 && r < |src| ==> forall c | 0 <= c < |bitmap| :: bitmap[c]
      ensures Recorded(old(State()), State(), bits, blks, bmapstart, inodestart)
      ensures allocs <= old(allocs) + NewBlocks(off, |src|) + 1
      ensures |blks - old(blks)| <= Spanned(off, |src|) + 2
    {
      if off > inodes[i].size || off + |src| >= U32 || off + |src| > MAXFILE * BSIZE {
        assert blks - old(blks) == {};
        NotedNothing(State(), i, bits, blks, bmapstart);
        return -1;
      }
      MappedBelow(State(), i, off);
      ghost var T;
      r, T := WriteLoop(i, off, src);
      ghost var s := State();
      if off + r > inodes[i].size {
        inodes := inodes[i := inodes[i].(size := off + r)];
      }
      ghost var bits1, blks1 := bits, blks;
      blks := blks + {inodestart + i / IPB};
      RecordedResize(old(State()), s, State(), i, bits1, blks1, blks, bmapstart, inodestart);
      IupdateKeeps(old(State()), s, State(), i, off, src, r);
      LoggedFew(blks - old(blks), T, RefAt(s, i, NDIRECT), inodestart + i / IPB);
    }

    /** Read up to n bytes of file i from off.  Nothing is allocated: every block is there. */
    method Readi(i: nat, off: nat, n: nat) returns (out: seq<Byte>)
      requires Valid() && AllMapped(State()) && i in inodes && off < U32 && n < U32
      modifies this`bitmap, this`data, this`inodes, this`bits, this`blks, this`allocs
      ensures Valid() && State() == old(State())
      ensures out == if off > inodes[i].size || off + n >= U32 then []
        else File(State(), i)[off..Min(off + n, inodes[i].size)]
    {
      out := [];
      if off > inodes[i].size || off + n >= U32 {
        return;
      }
      var end := Min(off + n, inodes[i].size);
      ghost var file := File(State(), i);
      while off + |out| < end
        invariant Valid() && State() == old(State()) && off + |out| <= end
        invariant out == file[off..off + |out|]
      {
        var o := off + |out|;
        var m := Min(end - o, BSIZE - o % BSIZE);
        var part := ReadChunk(i, o, m);
        SliceMore(file, off, o, o + m);
        out := out + part;
      }
    }

    /** One iteration of readi: m bytes, all in one block. */
    method ReadChunk(i: nat, o: nat, m: nat) returns (part: seq<Byte>)
      requires Valid() && AllMapped(State()) && i in inodes && 0 < m <= BSIZE - o % BSIZE && o + m <= inodes[i].size
      modifies this`bitmap, this`data, this`inodes, this`bits, this`blks, this`allocs
      ensures Valid() && State() == old(State()) && part == File(State(), i)[o..o + m]
    {
      assert MappedTo(State(), i, inodes[i].size);
      assert MappedAt(State(), i, inodes[i].size, o / BSIZE) && GoodInode(State(), i)
        && GoodSlot(State(), i, SlotOf(o / BSIZE));
      var _, addr := Bmap(i, o / BSIZE);
      part := data[addr][o % BSIZE..o % BSIZE + m];
      forall x | o <= x < o + m ensures part[x - o] == ByteAt(State(), i, x) {
        OffsetInBlock(o, x);
      }
    }

    /** writei and then readi of the same range: what was written comes back. */
    method ReadBack(i: nat, off: nat, src: seq<Byte>) returns (r: int, out: seq<Byte>)
      requires Valid() && AllMapped(State()) && i in inodes && off < U32 && |src| < U32
      modifies this
      ensures Valid() && AllMapped(State())
      ensures r == -1 <==> off > old(inodes)[i].size || off + |src| >= U32 || off + |src| > MAXFILE * BSIZE
      ensures r != -1 ==> 0 <= r <= |src| && out == src[..r] && (r == |src| || Full(bitmap))
    {
      ghost var s := State();
      r := Writei(i, off, src);
      out := [];
      if r != -1 {
        ReadAfterWrite(s, State(), i, off, src[..r]);
        out := Readi(i, off, r);
      }
    }

    /** Clear a bit; false is the "freeing free block" panic. */
    method Bfree(b: nat) returns (ok: bool)
      requires b < |bitmap|
      modifies this`bitmap
      ensures ok <==> old(bitmap)[b]
      ensures bitmap == if ok then old(bitmap)[b := false] else old(bitmap)
    {
      if !bitmap[b] {
        return false;
      }
      bitmap := bitmap[b := false];
      return true;
    }

    /** Discard the contents of file i; never panics. */
    method Itrunc(i: nat)
      requires Valid() && i in inodes
      modifies this`bitmap, this`inodes
      ensures Valid() && Cleared(old(State()), State(), i, SLOTS)
      ensures inodes.Keys == old(inodes).Keys && inodes[i].size == 0
      ensures forall j | j in inodes && j != i :: inodes[j] == old(inodes)[j]
      ensures AllMapped(old(State())) ==> AllMapped(State())
    {
      ghost var s0 := State();
      var k := 0;
      while k < NDIRECT
        invariant 0 <= k <= NDIRECT && Valid() && i in inodes && inodes.Keys == s0.inodes.Keys
        invariant Cleared(s0, State(), i, k)
        invariant forall j | j in inodes && j != i :: inodes[j] == s0.inodes[j]
      {
        assert GoodInode(State(), i) && GoodSlot(State(), i, k);
        if inodes[i].addrs[k] != 0 {
          ghost var s := State();
          DropKeeps(s, i, k);
          var ok := Bfree(inodes[i].addrs[k]);
          assert ok;
          inodes := inodes[i := inodes[i].(addrs := inodes[i].addrs[k := 0])];
          ClearDrop(s0, s, i, k);
        } else {
          ClearSkip(s0, State(), i, k);
        }
        k := k + 1;
      }
      assert GoodInode(State(), i);
      if inodes[i].addrs[NDIRECT] != 0 {
        FreeIndirect(i, s0);
      } else {
        ClearRest(s0, State(), i);
      }
      ghost var s := State();
      inodes := inodes[i := inodes[i].(size := 0)];
      ResizeKeeps(s, i, 0);
      ClearSame(s0, s, State(), i, SLOTS);
      if AllMapped(s0) {
        ClearMapped(s0, State(), i);
      }
    }

    /** The part of itrunc for the indirect block: its words are freed but not overwritten. */
    method FreeIndirect(i: nat, ghost s0: Fs)
      requires Valid() && i in inodes && Cleared(s0, State(), i, NDIRECT) && RefAt(State(), i, NDIRECT) != 0
      modifies this`bitmap, this`inodes
      ensures Valid() && Cleared(s0, State(), i, SLOTS) && i in inodes
      ensures inodes.Keys == old(inodes).Keys && forall j | j in inodes && j != i :: inodes[j] == old(inodes)[j]
    {
      ghost var s := State();
      assert GoodInode(s, i) && GoodSlot(s, i, NDIRECT);
      var ind := inodes[i].addrs[NDIRECT];
      var a := data[ind];
      ghost var g := s;
      var j := 0;
      while j < NINDIRECT
        invariant 0 <= j <= NINDIRECT && |bits| <= allocs && OneBitmap() && ind < |bitmap| && i in inodes
        invariant Good(g) && Cleared(s0, g, i, NDIRECT + j) && inodes == old(inodes) && data == old(data)
        invariant State() == g.(data := g.data[ind := a]) && |g.data[ind]| == BSIZE && RefAt(g, i, NDIRECT) == ind
      {
        ghost var l := NDIRECT + 1 + j;
        assert ClearedAt(s0, s, i, NDIRECT, i, l) && ClearedAt(s0, g, i, NDIRECT + j, i, l) && GoodSlot(g, i, l);
        if Word(a, j) != 0 {
          DropKeeps(g, i, l);
          ClearDrop(s0, g, i, l);
          DropRefs(g, i, l, i, NDIRECT);
          var ok := Bfree(Word(a, j));
          assert ok;
          g := Dropped(g, i, l);
        } else {
          ClearSkip(s0, g, i, l);
        }
        j := j + 1;
      }
      forall l: nat | l > NDIRECT ensures RefAt(g, i, l) == 0 {
        assert ClearedAt(s0, g, i, SLOTS - 1, i, l) && ClearedAt(s0, s, i, NDIRECT, i, l);
      }
      DropKeeps(g, i, NDIRECT);
      ClearDrop(s0, g, i, NDIRECT);
      assert GoodSlot(g, i, NDIRECT);
      var ok := Bfree(ind);
      assert ok;
      inodes := inodes[i := inodes[i].(addrs := inodes[i].addrs[NDIRECT := 0])];
      g := Dropped(g, i, NDIRECT);
      FreeBlockKeeps(g, ind, a);
      forall m: nat, l: nat ensures SameRef(g, State(), m, l) {
        FreeBlockRefs(g, ind, a, m, l);
      }
      forall m: nat, x: nat ensures SameByte(g, State(), m, x) {
        FreeBlockBytes(g, ind, a, m, x);
      }
      ClearSame(s0, g, State(), i, SLOTS);
    }

    /** One transaction of filewrite: begin_op, writei, end_op. */
    method WriteOp(i: nat, off: nat, chunk: seq<Byte>) returns (r: int, ghost x: Txn)
      requires Valid() && AllMapped(State()) && i in inodes && off < U32 && |chunk| <= MAXCHUNK
      modifies this
      ensures Valid() && AllMapped(State()) && inodes.Keys == old(inodes).Keys && |bitmap| == |old(bitmap)|
      ensures r == -1 <==> off > old(inodes)[i].size || off + |chunk| >= U32 || off + |chunk| > MAXFILE * BSIZE
      ensures r == -1 ==> State() == old(State())
      ensures r != -1 ==> 0 <= r <= |chunk| && WroteBytes(old(State()), State(), i, off, chunk[..r])
      ensures r != -1 ==> inodes[i].size == Max(old(inodes)[i].size, off + r)
      ensures forall j | j in inodes && j != i :: inodes[j].size == old(inodes)[j].size
      ensures r != -1 && r < |chunk| ==> Full(bitmap)
      ensures x.before == old(State()) && x.after == State() && GoodTxn(x, bmapstart, inodestart)
    {
      ghost var before := State();
      bits, blks, allocs := {}, {}, 0;
      r := Writei(i, off, chunk);
      assert blks - {} == blks;
      FewBlocks(bits, blks, allocs, off, |chunk|, |bitmap| <= BPB, bmapstart);
      RecordedUnion(before, State(), bits, blks, bmapstart, inodestart);
      x := Txn(before, State(), bits + blks);
    }

    /** filewrite on a file, one transaction per chunk: each logs every block it changes and at most
        MAXOPBLOCKS of them.  Together they splice a prefix of src into the file.  The prefix is all of
        src, or else the offset lay past the end, or the next chunk would have made the file too large,
        or the disk is full. */
    method Filewrite(i: nat, off: nat, src: seq<Byte>) returns (ret: int, off': nat, ghost txns: seq<Txn>)
      requires Valid() && AllMapped(State()) && i in inodes && off < U32 && |src| < U32 / 2
      modifies this
      ensures Valid() && AllMapped(State()) && inodes.Keys == old(inodes).Keys
      ensures TxnChain(old(State()), txns, State()) && AllGood(txns, bmapstart, inodestart)
      ensures AllPrefixes(old(State()), txns, i, off, src)
      ensures off <= off' <= off + |src| && ret == if off' == off + |src| then |src| else -1
      ensures off > old(inodes)[i].size ==> State() == old(State()) && off' == off
      ensures off <= old(inodes)[i].size ==> File(State(), i) == Splice(File(old(State()), i), off, src[..off' - off])
      ensures forall j | j in inodes && j != i :: File(State(), j) == File(old(State()), j)
      ensures ret == -1 ==> off > old(inodes)[i].size || Full(bitmap) || TooLarge(off', off + |src| - off')
      ensures src != [] && (off > old(inodes)[i].size || off + |src| > MAXFILE * BSIZE) ==> ret == -1
    {
      ghost var s0 := State();
      var pos;
      pos, txns := WriteAll(i, off, src);
      ret, off' := if pos == |src| then |src| else -1, off + pos;
      assert off' - off == pos && off + |src| - off' == |src| - pos;
      SofarFile(s0, txns, State(), i, off, src, off' - off, bmapstart, inodestart);
    }

    /** The loop of filewrite: pos bytes are written, all of src or less. */
    method WriteAll(i: nat, off: nat, src: seq<Byte>) returns (pos: nat, ghost txns: seq<Txn>)
      requires Valid() && AllMapped(State()) && i in inodes && off < U32 && |src| < U32 / 2
      modifies this
      ensures Valid() && AllMapped(State()) && pos <= |src|
      ensures Sofar(old(State()), txns, State(), i, off, src, pos, bmapstart, inodestart)
      ensures pos < |src| ==> Stopped(old(State()), i, off, off + pos, |src| - pos, bitmap)
    {
      pos, txns := 0, [];
      ghost var s0 := State();
      SofarNone(s0, i, off, src, bmapstart, inodestart);
      var whole := true;
      while pos < |src| && whole
        invariant pos <= |src| && off + pos < U32 && i in inodes && Valid() && AllMapped(State())
        invariant Sofar(s0, txns, State(), i, off, src, pos, bmapstart, inodestart)
        invariant !whole ==> Stopped(s0, i, off, off + pos, |src| - pos, bitmap)
        decreases whole, |src| - pos
      {
        pos, whole, txns := WriteNext(i, off, src, pos, s0, txns);
      }
    }

    /** The transaction of filewrite's loop that goes on with src[pos..]; bytes are written up to pos', which
        is the whole of its chunk or less. */
    method WriteNext(i: nat, off: nat, src: seq<Byte>, pos: nat, ghost s0: Fs, ghost txns: seq<Txn>)
      returns (pos': nat, whole: bool, ghost more: seq<Txn>)
      requires Valid() && AllMapped(State()) && i in inodes && pos < |src| && off + pos < U32
      requires Sofar(s0, txns, State(), i, off, src, pos, bmapstart, inodestart)
      modifies this
      ensures Valid() && AllMapped(State()) && i in inodes && pos <= pos' <= |src| && off + pos' < U32
      ensures Sofar(s0, more, State(), i, off, src, pos', bmapstart, inodestart)
      ensures whole ==> pos' == pos + Min(|src| - pos, MAXCHUNK)
      ensures !whole ==> pos' < |src| && Stopped(s0, i, off, off + pos', |src| - pos', bitmap)
    {
      var n1 := Min(|src| - pos, MAXCHUNK);
      var chunk := src[pos..pos + n1];
      ghost var x;
      var r;
      r, x := WriteOp(i, off + pos, chunk);
      pos', whole, more := pos + Max(0, r), r == n1, txns + [x];
      SofarMore(s0, txns, x, more, i, off, src, pos, pos', chunk, r, bmapstart, inodestart);
    }
  }

  // ---------- Transactions of filewrite ----------

  /** The file system before and after, and the blocks logged. */
  datatype Txn = Txn(before: Fs, after: Fs, logged: set<nat>)

  /** The transaction logged everything that it changed, and no more blocks than an operation may. */
  ghost predicate GoodTxn(x: Txn, bmapstart: nat, inodestart: nat) {
    && Good(x.before) && Good(x.after) && x.after.nmeta == x.before.nmeta
    && Recorded(x.before, x.after, x.logged, x.logged, bmapstart, inodestart)
    && |x.logged| <= if |x.before.bitmap| <= BPB then 7 else MAXOPBLOCKS
  }

  ghost predicate AllGood(txns: seq<Txn>, bmapstart: nat, inodestart: nat) {
    forall k: nat | k < |txns| :: GoodTxn(txns[k], bmapstart, inodestart)
  }

  /** After the transaction, file i is as in s with a prefix of src written at off. */
  ghost predicate Prefix(s: Fs, x: Txn, i: nat, off: nat, src: seq<Byte>) {
    exists n: nat :: Grew(s, x.after, i, off, src, n)
  }

  ghost predicate AllPrefixes(s: Fs, txns: seq<Txn>, i: nat, off: nat, src: seq<Byte>) {
    forall k: nat | k < |txns| :: Prefix(s, txns[k], i, off, src)
  }

  /** The transactions of a filewrite that has written n bytes. */
  ghost predicate Sofar(s: Fs, txns: seq<Txn>, t: Fs, i: nat, off: nat, src: seq<Byte>, n: nat, bmapstart: nat,
      inodestart: nat)
  {
    && TxnChain(s, txns, t) && AllGood(txns, bmapstart, inodestart)
    && Grew(s, t, i, off, src, n) && AllPrefixes(s, txns, i, off, src)
    && (t == s || off <= s.inodes[i].size)
  }

  lemma SofarNone(s: Fs, i: nat, off: nat, src: seq<Byte>, bmapstart: nat, inodestart: nat)
    requires i in s.inodes
    ensures Sofar(s, [], s, i, off, src, 0, bmapstart, inodestart)
  {
    WroteNothing(s, i, off);
  }

  /** What filewrite has done when it stops. */
  lemma SofarFile(s: Fs, txns: seq<Txn>, t: Fs, i: nat, off: nat, src: seq<Byte>, n: nat, bmapstart: nat,
      inodestart: nat)
    requires Sofar(s, txns, t, i, off, src, n, bmapstart, inodestart) && Good(t)
    ensures off > s.inodes[i].size ==> t == s && n == 0
    ensures off <= s.inodes[i].size ==> File(t, i) == Splice(File(s, i), off, src[..n])
    ensures forall j | j in s.inodes && j != i :: File(t, j) == File(s, j)
    ensures n > 0 ==> off <= s.inodes[i].size && off + n <= MAXFILE * BSIZE
  {
    GrewFile(s, t, i, off, src, n);
    assert GoodInode(t, i);
  }

  lemma SofarMore(s: Fs, txns: seq<Txn>, x: Txn, more: seq<Txn>, i: nat, off: nat, src: seq<Byte>, pos: nat,
      pos': nat, chunk: seq<Byte>, r: int, bmapstart: nat, inodestart: nat)
    requires Sofar(s, txns, x.before, i, off, src, pos, bmapstart, inodestart) && GoodTxn(x, bmapstart, inodestart)
    requires pos + |chunk| <= |src| && chunk == src[pos..pos + |chunk|] && -1 <= r <= |chunk|
    requires i in x.before.inodes && x.after.inodes.Keys == x.before.inodes.Keys
    requires r == -1 ==> x.after == x.before
    requires r != -1 ==> off + pos <= x.before.inodes[i].size
    requires r != -1 ==> WroteBytes(x.before, x.after, i, off + pos, chunk[..r])
    requires r != -1 ==> x.after.inodes[i].size == Max(x.before.inodes[i].size, off + pos + r)
    requires forall j | j in x.before.inodes && j != i :: x.after.inodes[j].size == x.before.inodes[j].size
    requires more == txns + [x] && pos' == pos + Max(0, r)
    ensures Sofar(s, more, x.after, i, off, src, pos', bmapstart, inodestart)
  {
    GrewMore(s, x.before, x.after, i, off, src, pos, chunk, r);
    TxnMore(s, txns, x.before, x);
    assert Prefix(s, x, i, off, src);
    forall k: nat | k < |more| ensures Prefix(s, more[k], i, off, src) && GoodTxn(more[k], bmapstart, inodestart) {
      if k < |txns| {
        assert Prefix(s, txns[k], i, off, src) && GoodTxn(txns[k], bmapstart, inodestart);
      }
    }
  }

  ghost predicate TxnChain(s: Fs, txns: seq<Txn>, t: Fs) {
    if txns == [] then s == t
    else
      && txns[0].before == s && txns[|txns| - 1].after == t
      && forall k: nat | k + 1 < |txns| :: Follows(txns, k)
  }

  ghost predicate Follows(txns: seq<Txn>, k: nat) {
    k + 1 < |txns| && txns[k].after == txns[k + 1].before
  }

  lemma TxnMore(s: Fs, txns: seq<Txn>, u: Fs, x: Txn)
    requires TxnChain(s, txns, u) && x.before == u
    ensures TxnChain(s, txns + [x], x.after)
  {
    var more := txns + [x];
    forall k: nat | k + 1 < |more| ensures Follows(more, k) {
      assert k + 1 < |txns| ==> Follows(txns, k);
    }
  }

  lemma RecordedUnion(s: Fs, t: Fs, bits: set<nat>, blks: set<nat>, bmapstart: nat, inodestart: nat)
    requires Recorded(s, t, bits, blks, bmapstart, inodestart)
    ensures Recorded(s, t, bits + blks, bits + blks, bmapstart, inodestart)
  {
    var all := bits + blks;
    forall b: nat ensures NotedBlock(s, t, all, b) {
      assert NotedBlock(s, t, blks, b);
    }
    forall c: nat ensures NotedBit(s, t, all, bmapstart, c) {
      assert NotedBit(s, t, bits, bmapstart, c);
    }
    forall j: nat ensures NotedInode(s, t, all, inodestart, j) {
      assert NotedInode(s, t, blks, inodestart, j);
    }
  }

  ghost predicate Full(bitmap: seq<bool>) {
    forall c | 0 <= c < |bitmap| :: bitmap[c]
  }

  /** The next chunk of the n bytes still to be written at off would end past the largest file. */
  predicate TooLarge(off: nat, n: nat) {
    off + Min(n, MAXCHUNK) > MAXFILE * BSIZE
  }

  /** Why filewrite stops at `at` with n bytes left: the file of s ended before off, the disk is full, or the
      file would become too large. */
  ghost predicate Stopped(s: Fs, i: nat, off: nat, at: nat, n: nat, bitmap: seq<bool>) {
    (i in s.inodes && off > s.inodes[i].size) || Full(bitmap) || TooLarge(at, n)
  }

  /** The first n bytes of src are in file i, which has grown if need be. */
  ghost predicate Grew(s: Fs, t: Fs, i: nat, off: nat, src: seq<Byte>, n: nat) {
    && n <= |src| && i in s.inodes && t.inodes.Keys == s.inodes.Keys
    && WroteBytes(s, t, i, off, src[..n])
    && (n == 0 || off <= s.inodes[i].size)
    && t.inodes[i].size == (if n == 0 then s.inodes[i].size else Max(s.inodes[i].size, off + n))
    && (forall j | j in s.inodes && j != i :: t.inodes[j].size == s.inodes[j].size)
  }

  lemma GrewMore(s: Fs, t: Fs, u: Fs, i: nat, off: nat, src: seq<Byte>, pos: nat, chunk: seq<Byte>, r: int)
    requires Grew(s, t, i, off, src, pos) && pos + |chunk| <= |src| && chunk == src[pos..pos + |chunk|]
    requires i in t.inodes && u.inodes.Keys == t.inodes.Keys && -1 <= r <= |chunk|
    requires r == -1 ==> u == t
    requires r != -1 ==> off + pos <= t.inodes[i].size && WroteBytes(t, u, i, off + pos, chunk[..r])
    requires r != -1 ==> u.inodes[i].size == Max(t.inodes[i].size, off + pos + r)
    requires forall j | j in t.inodes && j != i :: u.inodes[j].size == t.inodes[j].size
    ensures Grew(s, u, i, off, src, pos + Max(0, r))
  {
    if r != -1 {
      WroteAppend(s, t, u, i, off, src, pos, chunk, r);
    }
  }

  lemma GrewFile(s: Fs, t: Fs, i: nat, off: nat, src: seq<Byte>, n: nat)
    requires Grew(s, t, i, off, src, n)
    ensures off <= s.inodes[i].size ==> File(t, i) == Splice(File(s, i), off, src[..n])
    ensures forall j | j in s.inodes && j != i :: File(t, j) == File(s, j)
  {
    var bytes := src[..n];
    if off <= s.inodes[i].size {
      WriteSplices(s, t, i, off, bytes, i);
    }
    forall j | j in s.inodes && j != i ensures File(t, j) == File(s, j) {
      forall x: nat ensures ByteAt(t, j, x) == ByteAt(s, j, x) {
        assert WroteAt(s, t, i, off, bytes, j, x);
      }
    }
  }

  const MAXOPBLOCKS: nat := 10

  /** The most bytes filewrite passes to one writei. */
  const MAXCHUNK: nat := ((MAXOPBLOCKS - 1 - 1 - 2) / 2) * BSIZE

  /** A chunk of filewrite never logs more than MAXOPBLOCKS distinct blocks, whatever its
      offset and whatever has to be allocated; seven with a single bitmap block. */
  lemma FewBlocks(bits: set<nat>, blks: set<nat>, allocs: nat, off: nat, n: nat, one: bool, bitmapBlock: nat)
    requires n <= MAXCHUNK
    requires |bits| <= allocs <= NewBlocks(off, n) + 1
    requires |blks| <= Spanned(off, n) + 2 && (one ==> bits <= {bitmapBlock})
    ensures |bits + blks| <= if one then 7 else MAXOPBLOCKS
  {
    if one {
      assert bits == {} || bits == {bitmapBlock};
    }
    assert |bits + blks| <= |bits| + |blks| by {
      assert bits + blks == bits + (blks - bits);
      assert blks == (blks - bits) + (blks * bits);
    }
    ChunkSpan(off, n);
  }

  lemma ChunkSpan(off: nat, n: nat)
    requires n <= 3 * BSIZE
    ensures Spanned(off, n) <= if off % BSIZE == 0 then 3 else 4
  {
  }

  lemma WroteAppend(s: Fs, t: Fs, u: Fs, i: nat, off: nat, src: seq<Byte>, pos: nat, chunk: seq<Byte>, r: nat)
    requires pos + |chunk| <= |src| && chunk == src[pos..pos + |chunk|] && r <= |chunk|
    requires WroteBytes(s, t, i, off, src[..pos])
    requires WroteBytes(t, u, i, off + pos, chunk[..r])
    ensures WroteBytes(s, u, i, off, src[..pos + r])
  {
    var bytes := src[..pos + r];
    forall j: nat, x: nat ensures WroteAt(s, u, i, off, bytes, j, x) {
      assert WroteAt(s, t, i, off, src[..pos], j, x);
      assert WroteAt(t, u, i, off + pos, chunk[..r], j, x);
    }
  }

  // ---------- Files as byte sequences ----------

  lemma SliceMore(c: seq<Byte>, a: nat, b: nat, d: nat)
    requires a <= b <= d <= |c|
    ensures c[a..b] + c[b..d] == c[a..d]
  {
  }

  /** c with d written over it from off, extending it if need be. */
  function Splice(c: seq<Byte>, off: nat, d: seq<Byte>): (r: seq<Byte>)
    requires off <= |c|
    ensures |r| == if off + |d| < |c| then |c| else off + |d|
    ensures forall x | 0 <= x < |r| :: r[x] == if off <= x < off + |d| then d[x - off] else c[x]
  {
    c[..off] + d + if off + |d| < |c| then c[off + |d|..] else []
  }

  /** A write that succeeded for |bytes| bytes splices them into its file; others keep theirs. */
  lemma WriteSplices(s: Fs, t: Fs, i: nat, off: nat, bytes: seq<Byte>, j: nat)
    requires i in s.inodes && i in t.inodes && off <= s.inodes[i].size && WroteBytes(s, t, i, off, bytes)
    requires t.inodes[i].size == Max(s.inodes[i].size, off + |bytes|)
    requires j in s.inodes && j in t.inodes && (j != i ==> t.inodes[j].size == s.inodes[j].size)
    ensures File(t, j) == if j == i then Splice(File(s, i), off, bytes) else File(s, j)
  {
    var f, g := if j == i then Splice(File(s, i), off, bytes) else File(s, j), File(t, j);
    assert |f| == |g|;
    forall x: nat | x < |g| ensures g[x] == f[x] {
      assert WroteAt(s, t, i, off, bytes, j, x);
    }
  }

  /** The range just written holds what was written. */
  lemma ReadAfterWrite(s: Fs, t: Fs, i: nat, off: nat, bytes: seq<Byte>)
    requires i in t.inodes && WroteBytes(s, t, i, off, bytes) && off + |bytes| <= t.inodes[i].size
    ensures File(t, i)[off..off + |bytes|] == bytes
  {
    var part := File(t, i)[off..off + |bytes|];
    forall x: nat | x < |bytes| ensures part[x] == bytes[x] {
      assert WroteAt(s, t, i, off, bytes, i, off + x);
    }
  }

  /** Truncation frees exactly the blocks of the inode. */
  lemma TruncateFrees(s: Fs, t: Fs, i: nat, b: nat)
    requires Good(s) && Good(t) && Cleared(s, t, i, SLOTS) && t.nmeta == s.nmeta && b < |t.bitmap| == |s.bitmap|
    ensures t.bitmap[b] <==> s.bitmap[b] && !OwnedBy(s, i, b)
  {
    assert GoodBit(s, b) && GoodBit(t, b);
    if b != 0 {
      if l: nat :| RefAt(s, i, l) == b {
        assert GoodSlot(s, i, l);
        forall j: nat, m: nat ensures RefAt(t, j, m) != b {
          assert ClearedAt(s, t, i, SLOTS, j, m) && Unshared(s, i, l, j, m);
        }
      } else {
        if j: nat, m: nat :| RefAt(s, j, m) == b {
          assert ClearedAt(s, t, i, SLOTS, j, m);
          assert RefAt(t, j, m) == b;
        }
        if j: nat, m: nat :| RefAt(t, j, m) == b {
          assert ClearedAt(s, t, i, SLOTS, j, m);
          assert RefAt(s, j, m) == b;
        }
      }
    }
  }

  ghost predicate OwnedBy(s: Fs, i: nat, b: nat) {
    b != 0 && exists l: nat :: RefAt(s, i, l) == b
  }

  lemma ClearSame(s: Fs, t: Fs, u: Fs, i: nat, k: nat)
    requires Cleared(s, t, i, k) && (forall j: nat, l: nat :: SameRef(t, u, j, l)) && SameBytes(t, u)
    ensures Cleared(s, u, i, k)
  {
    forall j: nat, l: nat ensures ClearedAt(s, u, i, k, j, l) {
      assert ClearedAt(s, t, i, k, j, l) && SameRef(t, u, j, l);
    }
    forall j: nat, x: nat ensures ClearedByte(s, u, i, k, j, x) {
      assert ClearedByte(s, t, i, k, j, x) && SameByte(t, u, j, x);
    }
  }

  /** Without an indirect block there are no further slots. */
  lemma ClearRest(s: Fs, t: Fs, i: nat)
    requires Cleared(s, t, i, NDIRECT) && RefAt(t, i, NDIRECT) == 0
    ensures Cleared(s, t, i, SLOTS)
  {
    forall j: nat, l: nat ensures ClearedAt(s, t, i, SLOTS, j, l) {
      assert ClearedAt(s, t, i, NDIRECT, j, l);
    }
    forall j: nat, x: nat ensures ClearedByte(s, t, i, SLOTS, j, x) {
      assert ClearedByte(s, t, i, NDIRECT, j, x);
    }
  }

  /** The contents of file i. */
  ghost function File(s: Fs, i: nat): (r: seq<Byte>)
    requires i in s.inodes
    ensures |r| == s.inodes[i].size && forall x | 0 <= x < |r| :: r[x] == ByteAt(s, i, x)
  {
    seq(s.inodes[i].size, x requires x >= 0 => ByteAt(s, i, x))
  }

  lemma NamedSlot(s: Fs, i: nat, bn: nat, addr: nat)
    requires Good(s) && i in s.inodes && bn < MAXFILE && addr == RefAt(s, i, SlotOf(bn))
    ensures addr != 0 ==> FileBlock(s, i, bn, addr)
  {
    if addr != 0 {
      SlotIsBlock(s, i, bn);
    }
  }

  /** Byte x of a file is byte x % BSIZE of the block that the inode has for block x / BSIZE of the file. */
  lemma FileByte(s: Fs, i: nat, x: nat) returns (b: nat)
    requires Good(s) && AllMapped(s) && i in s.inodes && x < s.inodes[i].size
    ensures b != 0 && FileBlock(s, i, x / BSIZE, b) && b in s.data && |s.data[b]| == BSIZE
    ensures File(s, i)[x] == s.data[b][x % BSIZE]
  {
    var bn := x / BSIZE;
    assert bn * BSIZE <= x;
    assert GoodInode(s, i) && MappedAt(s, i, s.inodes[i].size, bn) && GoodSlot(s, i, SlotOf(bn));
    SlotIsBlock(s, i, bn);
    b := RefAt(s, i, SlotOf(bn));
  }

  /** Order in which itrunc empties slots: the direct ones, the words, the indirect block. */
  function Rank(l: nat): nat {
    if l < NDIRECT || l >= SLOTS then l else if l == NDIRECT then SLOTS - 1 else l - 1
  }

  /** The slots of file i of rank below k are empty, and so are their bytes; nothing else changed. */
  ghost predicate ClearedAt(s: Fs, t: Fs, i: nat, k: nat, j: nat, l: nat) {
    RefAt(t, j, l) == if i == j && Rank(l) < k then 0 else RefAt(s, j, l)
  }

  ghost predicate ClearedByte(s: Fs, t: Fs, i: nat, k: nat, j: nat, x: nat) {
    ByteAt(t, j, x) == if i == j && Rank(SlotOf(x / BSIZE)) < k then 0 else ByteAt(s, j, x)
  }

  ghost predicate Cleared(s: Fs, t: Fs, i: nat, k: nat) {
    && (forall j: nat, l: nat :: ClearedAt(s, t, i, k, j, l))
    && (forall j: nat, x: nat :: ClearedByte(s, t, i, k, j, x))
  }

  /** The files that are not cleared keep a block for every byte. */
  lemma ClearMapped(s: Fs, t: Fs, i: nat)
    requires Cleared(s, t, i, SLOTS) && AllMapped(s) && i in t.inodes && t.inodes[i].size == 0
    requires forall j | j in t.inodes && j != i :: j in s.inodes && t.inodes[j].size == s.inodes[j].size
    ensures AllMapped(t)
  {
    forall j: nat | j in t.inodes ensures MappedTo(t, j, t.inodes[j].size) {
      forall bn: nat ensures MappedAt(t, j, t.inodes[j].size, bn) {
        if j != i {
          assert MappedAt(s, j, s.inodes[j].size, bn) && ClearedAt(s, t, i, SLOTS, j, SlotOf(bn));
        }
      }
    }
  }

  /** Dropping the slot of rank k. */
  lemma ClearDrop(s: Fs, t: Fs, i: nat, l: nat)
    requires Good(t) && Cleared(s, t, i, Rank(l)) && Droppable(t, i, l)
    ensures Cleared(s, Dropped(t, i, l), i, Rank(l) + 1)
  {
    var u, k := Dropped(t, i, l), Rank(l) + 1;
    forall j: nat, m: nat ensures ClearedAt(s, u, i, k, j, m) {
      assert ClearedAt(s, t, i, Rank(l), j, m);
      DropRefs(t, i, l, j, m);
    }
    forall j: nat, x: nat ensures ClearedByte(s, u, i, k, j, x) {
      assert ClearedByte(s, t, i, Rank(l), j, x);
      DropBytes(t, i, l, j, x);
    }
  }

  lemma ClearSkip(s: Fs, t: Fs, i: nat, l: nat)
    requires Cleared(s, t, i, Rank(l)) && RefAt(t, i, l) == 0
    ensures Cleared(s, t, i, Rank(l) + 1)
  {
    var k := Rank(l) + 1;
    forall j: nat, m: nat ensures ClearedAt(s, t, i, k, j, m) {
      assert ClearedAt(s, t, i, Rank(l), j, m);
    }
    forall j: nat, x: nat ensures ClearedByte(s, t, i, k, j, x) {
      assert ClearedByte(s, t, i, Rank(l), j, x);
    }
  }

  const U32: nat := 0x1_0000_0000

  function Max(a: nat, b: int): nat {
    if a < b then b else a
  }

  /** Every file block that starts below its file's size is mapped. */
  ghost predicate AllMapped(s: Fs) {
    forall i: nat :: i in s.inodes ==> MappedTo(s, i, s.inodes[i].size)
  }

  lemma MappedBelow(s: Fs, i: nat, off: nat)
    requires AllMapped(s) && i in s.inodes && off <= s.inodes[i].size
    ensures MappedTo(s, i, off)
  {
    forall bn: nat ensures MappedAt(s, i, off, bn) {
      assert MappedAt(s, i, s.inodes[i].size, bn);
    }
  }

  /** Only the size of inode i changes. */
  function Resized(s: Fs, i: nat, size: nat): Fs
    requires i in s.inodes
  {
    s.(inodes := s.inodes[i := s.inodes[i].(size := size)])
  }

  lemma ResizeKeeps(s: Fs, i: nat, size: nat)
    requires Good(s) && i in s.inodes && size <= MAXFILE * BSIZE
    ensures Good(Resized(s, i, size))
    ensures forall j: nat, l: nat :: SameRef(s, Resized(s, i, size), j, l)
    ensures SameBytes(s, Resized(s, i, size))
  {
    var t := Resized(s, i, size);
    assert forall j: nat, l: nat :: SameRef(s, t, j, l);
    assert forall j: nat :: GoodInode(s, j) ==> GoodInode(t, j);
    SameRefsGood(s, t);
    forall j: nat, x: nat ensures SameByte(s, t, j, x) {
      assert SameRef(s, t, j, SlotOf(x / BSIZE));
    }
  }

  lemma ResizeMapped(s: Fs, t: Fs, u: Fs, i: nat, limit: nat)
    requires AllMapped(s) && KeptSlots(s, t) && SameSizes(s, t) && i in t.inodes && MappedTo(t, i, limit)
    requires u == Resized(t, i, Max(t.inodes[i].size, limit))
    requires forall j: nat, l: nat :: SameRef(t, u, j, l)
    ensures AllMapped(u)
  {
    forall j: nat | j in u.inodes ensures MappedTo(u, j, u.inodes[j].size) {
      var size := u.inodes[j].size;
      forall bn: nat ensures MappedAt(u, j, size, bn) {
        assert MappedAt(s, j, s.inodes[j].size, bn) && KeptSlot(s, t, j, SlotOf(bn)) && SameRef(t, u, j, SlotOf(bn));
        assert j == i ==> MappedAt(t, i, limit, bn);
      }
    }
  }

  /** iupdate at the end of writei: what the loop achieved stays. */
  lemma IupdateKeeps(s0: Fs, s: Fs, t: Fs, i: nat, off: nat, src: seq<Byte>, n: nat)
    requires Good(s) && AllMapped(s0) && i in s.inodes && n <= |src| && off + n <= MAXFILE * BSIZE
    requires Wrote(s0, s, i, off, src, n) && t == Resized(s, i, Max(s.inodes[i].size, off + n))
    ensures Good(t) && AllMapped(t) && WroteBytes(s0, t, i, off, src[..n])
  {
    assert GoodInode(s, i);
    ResizeKeeps(s, i, t.inodes[i].size);
    WroteSame(s0, s, t, i, off, src[..n]);
    ResizeMapped(s0, s, t, i, off + n);
  }

  lemma LoggedFew(d: set<nat>, T: set<nat>, r: nat, ino: nat)
    requires d <= T + {r} + {ino}
    ensures |d| <= |T| + 2
  {
    var u := T + {r} + {ino};
    assert u == d + (u - d);
  }

  /** Between iterations the offset is at the start of a block. */
  ghost predicate Boundary(off: nat, tot: nat, n: nat) {
    0 < tot < n ==> (off + tot) % BSIZE == 0
  }

  /** The first tot bytes of src have been written. */
  ghost predicate Wrote(s: Fs, t: Fs, i: nat, off: nat, src: seq<Byte>, tot: nat)
    requires tot <= |src|
  {
    && KeptSlots(s, t) && SameSizes(s, t)
    && WroteBytes(s, t, i, off, src[..tot]) && MappedTo(t, i, off + tot)
  }

  /** What writing tot bytes has logged and allocated. */
  ghost predicate Counted(s: Fs, t: Fs, i: nat, off: nat, tot: nat, T: set<nat>,
                          blks: set<nat>, blks': set<nat>, allocs: nat, allocs': nat) {
    && |T| <= Spanned(off, tot)
    && blks' <= blks + T + ({RefAt(t, i, NDIRECT)} - {0})
    && allocs' <= allocs + NewBlocks(off, tot) + Gained(s, t, i)
  }

  lemma CountedStep(s: Fs, t: Fs, u: Fs, i: nat, off: nat, tot: nat, next: nat, T: set<nat>,
                    blks: set<nat>, blks1: set<nat>, blks2: set<nat>, allocs: nat, allocs1: nat, allocs2: nat)
    requires Counted(s, t, i, off, tot, T, blks, blks1, allocs, allocs1)
    requires KeptSlots(s, t) && KeptSlots(t, u) && MappedTo(t, i, off + tot) && next > tot
      && (0 < tot ==> (off + tot) % BSIZE == 0)
    requires Spanned(off, next) == Spanned(off, tot) + 1
    requires allocs2 <= allocs1 + (if RefAt(t, i, SlotOf((off + tot) / BSIZE)) == 0 then 1 else 0) + Gained(t, u, i)
    requires blks2 <= blks1 + ({RefAt(u, i, SlotOf((off + tot) / BSIZE)), RefAt(u, i, NDIRECT)} - {0})
    ensures RefAt(u, i, SlotOf((off + tot) / BSIZE)) != 0 ==>
              Counted(s, u, i, off, next, T + {RefAt(u, i, SlotOf((off + tot) / BSIZE))}, blks, blks2, allocs,
                allocs2)
    ensures RefAt(u, i, SlotOf((off + tot) / BSIZE)) == 0 ==>
      Counted(s, u, i, off, next, T, blks, blks2, allocs, allocs2)
  {
    FirstMapped(t, i, off, tot, next - tot);
    GainedSum(s, t, u, i);
  }

  /** 1 if inode i got its indirect block between s and t. */
  ghost function Gained(s: Fs, t: Fs, i: nat): nat {
    if RefAt(s, i, NDIRECT) == 0 && RefAt(t, i, NDIRECT) != 0 then 1 else 0
  }

  lemma GainedSum(s: Fs, t: Fs, u: Fs, i: nat)
    requires KeptSlots(s, t) && KeptSlots(t, u)
    ensures Gained(s, u, i) == Gained(s, t, i) + Gained(t, u, i)
    ensures {RefAt(t, i, NDIRECT)} - {0} <= {RefAt(u, i, NDIRECT)} - {0}
  {
    assert KeptSlot(s, t, i, NDIRECT) && KeptSlot(t, u, i, NDIRECT);
  }

  /** File blocks touched by n bytes at off, and how many of them can be new: an unaligned
      start lies in a block that exists. */
  function Spanned(off: nat, n: nat): nat {
    if n == 0 then 0 else (off + n - 1) / BSIZE - off / BSIZE + 1
  }

  function NewBlocks(off: nat, n: nat): nat {
    if n > 0 && off % BSIZE != 0 then Spanned(off, n) - 1 else Spanned(off, n)
  }

  /** File block bn, if it starts below `limit`, is mapped. */
  ghost predicate MappedAt(s: Fs, i: nat, limit: nat, bn: nat) {
    bn * BSIZE < limit ==> RefAt(s, i, SlotOf(bn)) != 0
  }

  ghost predicate MappedTo(s: Fs, i: nat, limit: nat) {
    forall bn: nat :: MappedAt(s, i, limit, bn)
  }

  lemma WroteNothing(s: Fs, i: nat, off: nat)
    ensures WroteBytes(s, s, i, off, [])
  {
  }

  lemma KeptTrans(s: Fs, t: Fs, u: Fs)
    requires KeptSlots(s, t) && KeptSlots(t, u)
    ensures KeptSlots(s, u)
  {
    forall j: nat, l: nat ensures KeptSlot(s, u, j, l) {
      assert KeptSlot(s, t, j, l) && KeptSlot(t, u, j, l);
    }
  }

  /** One iteration stays inside one block, which is the next one touched. */
  lemma SpanStep(off: nat, tot: nat, m: nat, next: nat, n: nat)
    requires tot < n && (0 < tot ==> (off + tot) % BSIZE == 0) && next == tot + m
    requires m == if n - tot < BSIZE - (off + tot) % BSIZE then n - tot else BSIZE - (off + tot) % BSIZE
    ensures tot < next <= n && (next < n ==> (off + next) % BSIZE == 0)
    ensures Spanned(off, next) == Spanned(off, tot) + 1 <= Spanned(off, n)
    ensures NewBlocks(off, next) <= NewBlocks(off, n)
  {
    var q, r := (off + tot) / BSIZE, (off + tot) % BSIZE;
    BlockOf(q, r + m - 1);
    if tot > 0 {
      BlockOf(q - 1, BSIZE - 1);
    }
    BlockMonotone(off + tot + m - 1, off + n - 1);
    if tot + m < n {
      assert off + tot + m == (q + 1) * BSIZE;
    }
  }

  lemma BlockOf(q: nat, r: nat)
    requires r < BSIZE
    ensures (q * BSIZE + r) / BSIZE == q
  {
  }

  lemma BlockMonotone(x: nat, y: nat)
    requires x <= y
    ensures x / BSIZE <= y / BSIZE
  {
  }

  /** A block is new only if it counts as new. */
  lemma FirstMapped(s: Fs, i: nat, off: nat, tot: nat, m: nat)
    requires MappedTo(s, i, off + tot) && m > 0 && (0 < tot ==> (off + tot) % BSIZE == 0)
    requires Spanned(off, tot + m) == Spanned(off, tot) + 1
    ensures NewBlocks(off, tot) + (if RefAt(s, i, SlotOf((off + tot) / BSIZE)) == 0 then 1 else 0)
            <= NewBlocks(off, tot + m)
  {
    assert MappedAt(s, i, off + tot, (off + tot) / BSIZE);
  }

  lemma WroteSame(s: Fs, t: Fs, u: Fs, i: nat, off: nat, bytes: seq<Byte>)
    requires WroteBytes(s, t, i, off, bytes) && SameBytes(t, u)
    ensures WroteBytes(s, u, i, off, bytes)
  {
    forall j: nat, x: nat ensures WroteAt(s, u, i, off, bytes, j, x) {
      assert WroteAt(s, t, i, off, bytes, j, x) && SameByte(t, u, j, x);
    }
  }

  lemma WroteStop(s: Fs, t: Fs, u: Fs, i: nat, off: nat, src: seq<Byte>, tot: nat)
    requires tot <= |src| && Wrote(s, t, i, off, src, tot) && SameBytes(t, u) && KeptSlots(t, u) && SameSizes(t, u)
    ensures Wrote(s, u, i, off, src, tot)
  {
    WroteSame(s, t, u, i, off, src[..tot]);
    KeptTrans(s, t, u);
    MappedKept(t, u, i, off + tot);
  }

  lemma WroteMore(s: Fs, t: Fs, u: Fs, i: nat, off: nat, src: seq<Byte>, tot: nat, next: nat)
    requires tot < next <= tot + BSIZE - (off + tot) % BSIZE && next <= |src| && Wrote(s, t, i, off, src, tot)
    requires KeptSlots(t, u) && SameSizes(t, u) && RefAt(u, i, SlotOf((off + tot) / BSIZE)) != 0
    requires WroteBytes(t, u, i, off + tot, src[tot..next])
    ensures Wrote(s, u, i, off, src, next)
  {
    var bytes := src[..next];
    forall j: nat, x: nat ensures WroteAt(s, u, i, off, bytes, j, x) {
      assert WroteAt(s, t, i, off, src[..tot], j, x) && WroteAt(t, u, i, off + tot, src[tot..next], j, x);
    }
    KeptTrans(s, t, u);
    MappedMore(t, u, i, off + tot, next - tot);
  }

  lemma MappedKept(s: Fs, t: Fs, i: nat, limit: nat)
    requires MappedTo(s, i, limit) && KeptSlots(s, t)
    ensures MappedTo(t, i, limit)
  {
    forall bn: nat ensures MappedAt(t, i, limit, bn) {
      assert MappedAt(s, i, limit, bn) && KeptSlot(s, t, i, SlotOf(bn));
    }
  }

  lemma MappedMore(s: Fs, t: Fs, i: nat, o: nat, m: nat)
    requires MappedTo(s, i, o) && KeptSlots(s, t) && RefAt(t, i, SlotOf(o / BSIZE)) != 0 && 0 < m <= BSIZE - o % BSIZE
    ensures MappedTo(t, i, o + m)
  {
    var limit := o + m;
    forall bn: nat ensures MappedAt(t, i, limit, bn) {
      assert MappedAt(s, i, o, bn) && KeptSlot(s, t, i, SlotOf(bn));
    }
  }

  /** Byte x of file j after `bytes` were written to file i at offset off. */
  ghost predicate WroteAt(s: Fs, t: Fs, i: nat, off: nat, bytes: seq<Byte>, j: nat, x: nat) {
    ByteAt(t, j, x) == if i == j && off <= x < off + |bytes| then bytes[x - off] else ByteAt(s, j, x)
  }

  ghost predicate WroteBytes(s: Fs, t: Fs, i: nat, off: nat, bytes: seq<Byte>) {
    forall j: nat, x: nat :: WroteAt(s, t, i, off, bytes, j, x)
  }

  lemma ChunkWrote(s: Fs, u: Fs, t: Fs, i: nat, o: nat, bytes: seq<Byte>, blk: Block)
    requires Good(u) && Extends(s, u) && RefAt(u, i, SlotOf(o / BSIZE)) != 0
    requires 0 < |bytes| <= BSIZE - o % BSIZE && |blk| == BSIZE && t == WithBlock(u, i, o / BSIZE, blk)
    requires RefAt(u, i, SlotOf(o / BSIZE)) in u.data && |u.data[RefAt(u, i, SlotOf(o / BSIZE))]| == BSIZE
    requires var b := u.data[RefAt(u, i, SlotOf(o / BSIZE))]; blk == b[..o % BSIZE] + bytes + b[o % BSIZE + |bytes|..]
    ensures WroteBytes(s, t, i, o, bytes) && KeptSlots(s, t)
      && RefAt(t, i, SlotOf(o / BSIZE)) == RefAt(u, i, SlotOf(o / BSIZE))
    ensures RefAt(t, i, NDIRECT) == RefAt(u, i, NDIRECT)
  {
    forall j: nat, x: nat ensures WroteAt(s, t, i, o, bytes, j, x) {
      assert SameByte(s, u, j, x);
      WriteBytes(u, i, o / BSIZE, blk, j, x);
      OffsetInBlock(o, x);
    }
    forall j: nat, l: nat ensures KeptSlot(s, t, j, l) {
      assert KeptSlot(s, u, j, l);
      WriteRefs(u, i, o / BSIZE, blk, j, l);
    }
    WriteRefs(u, i, o / BSIZE, blk, i, SlotOf(o / BSIZE));
    WriteRefs(u, i, o / BSIZE, blk, i, NDIRECT);
  }

  /** Offsets in the same block differ by their places in it. */
  lemma OffsetInBlock(o: nat, x: nat)
    ensures x / BSIZE == o / BSIZE ==> x - o == x % BSIZE - o % BSIZE
    ensures o <= x < o + BSIZE - o % BSIZE ==> x / BSIZE == o / BSIZE
  {
  }

  /** Nothing but empty slots and unused blocks changed: all files read the same. */
  ghost predicate Extends(s: Fs, t: Fs) {
    && SameBytes(s, t) && KeptSlots(s, t) && SameSizes(s, t)
    && forall c | 0 <= c < |s.bitmap| && s.bitmap[c] :: t.bitmap[c]
  }

  lemma ExtendsRefl(s: Fs)
    ensures Extends(s, s)
  {
  }

  lemma ExtendsTrans(s: Fs, t: Fs, u: Fs)
    requires Extends(s, t) && Extends(t, u)
    ensures Extends(s, u)
  {
    forall j: nat, x: nat ensures SameByte(s, u, j, x) {
      assert SameByte(s, t, j, x) && SameByte(t, u, j, x);
    }
    forall j: nat, l: nat ensures KeptSlot(s, u, j, l) {
      assert KeptSlot(s, t, j, l) && KeptSlot(t, u, j, l);
    }
  }

  lemma FillExtends(s: Fs, i: nat, k: nat, b: nat)
    requires Good(s) && Empty(s, i, k) && b < |s.bitmap| && !s.bitmap[b]
    ensures Extends(s, Filled(s, i, k, b))
  {
    var t := Filled(s, i, k, b);
    forall j: nat, x: nat ensures SameByte(s, t, j, x) {
      FillBytes(s, i, k, b, j, x);
    }
    forall j: nat, l: nat ensures KeptSlot(s, t, j, l) {
      FillRefs(s, i, k, b, j, l);
    }
  }
}
