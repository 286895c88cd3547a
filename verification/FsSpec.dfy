/** Files of kernel/fs.c: the free bitmap, the direct and indirect block map of an inode, and
    who owns which block.

    Slot k of an inode is addrs[k] for k <= 12, slot 12 being the indirect block, and slot
    13 + j is word j of the indirect block.
 */
module FsSpec {
  import opened Common

  const NDIRECT: nat := 12
  const NINDIRECT: nat := 256
  const MAXFILE: nat := NDIRECT + NINDIRECT
  const SLOTS: nat := NDIRECT + 1 + NINDIRECT

  type Byte = x: int | 0 <= x < 256
  type Block = seq<Byte>

  datatype Inode = Inode(size: nat, addrs: seq<nat>)

  /** Blocks below nmeta are the boot and super block, the log, the inodes and the bitmap. */
  datatype Fs = Fs(nmeta: nat, bitmap: seq<bool>, data: map<nat, Block>, inodes: map<nat, Inode>)

  function Zeros(): (r: Block)
    ensures |r| == BSIZE
  {
    seq(BSIZE, _ => 0)
  }

  // ---------- Words of an indirect block ----------

  function Word(b: Block, j: nat): (w: nat)
    requires |b| == BSIZE && j < NINDIRECT
  {
    b[4 * j] as int + 0x100 * (b[4 * j + 1] as int)
    + 0x1_0000 * (b[4 * j + 2] as int) + 0x100_0000 * (b[4 * j + 3] as int)
  }

  function PutWord(b: Block, j: nat, w: nat): (r: Block)
    requires |b| == BSIZE && j < NINDIRECT && w < 0x1_0000_0000
    ensures |r| == BSIZE
  {
    b[4 * j := w % 0x100][4 * j + 1 := w / 0x100 % 0x100]
     [4 * j + 2 := w / 0x1_0000 % 0x100][4 * j + 3 := w / 0x100_0000]
  }

  lemma PutGetWord(b: Block, j: nat, w: nat, i: nat)
    requires |b| == BSIZE && j < NINDIRECT && i < NINDIRECT && w < 0x1_0000_0000
    ensures Word(PutWord(b, j, w), i) == if i == j then w else Word(b, i)
  {
    if i == j {
      WordParts(w);
    }
  }

  lemma WordParts(w: nat)
    requires w < 0x1_0000_0000
    ensures w % 0x100 + 0x100 * (w / 0x100 % 0x100) + 0x1_0000 * (w / 0x1_0000 % 0x100)
      + 0x100_0000 * (w / 0x100_0000) == w
  {
  }

  // ---------- Slots ----------

  /** The block number in slot k of inode ip; 0 if there is none. */
  function Ref(data: map<nat, Block>, ip: Inode, k: nat): nat
    requires |ip.addrs| == NDIRECT + 1
  {
    if k <= NDIRECT then ip.addrs[k]
    else if k < SLOTS && ip.addrs[NDIRECT] in data && |data[ip.addrs[NDIRECT]]| == BSIZE && ip.addrs[NDIRECT] != 0
    then Word(data[ip.addrs[NDIRECT]], k - NDIRECT - 1)
    else 0
  }

  function RefAt(s: Fs, i: nat, k: nat): nat {
    if i in s.inodes && |s.inodes[i].addrs| == NDIRECT + 1 then Ref(s.data, s.inodes[i], k) else 0
  }

  /** The slot of file block bn. */
  function SlotOf(bn: nat): nat {
    if bn < NDIRECT then bn else bn + 1
  }

  // ---------- The invariant ----------

  ghost predicate GoodSlot(s: Fs, i: nat, k: nat) {
    var r := RefAt(s, i, k);
    r != 0 ==> s.nmeta <= r < |s.bitmap| && s.bitmap[r] && r in s.data && |s.data[r]| == BSIZE
  }

  /** A block is in at most one slot. */
  ghost predicate Unshared(s: Fs, i: nat, k: nat, j: nat, l: nat) {
    RefAt(s, i, k) != 0 && RefAt(s, i, k) == RefAt(s, j, l) ==> i == j && k == l
  }

  ghost predicate Owned(s: Fs, b: nat) {
    b != 0 && exists i: nat, k: nat :: RefAt(s, i, k) == b
  }

  /** A bit is set exactly for metadata and for blocks in some slot: nothing leaks. */
  ghost predicate GoodBit(s: Fs, b: nat) {
    b < |s.bitmap| ==> (s.bitmap[b] <==> b < s.nmeta || Owned(s, b))
  }

  ghost predicate GoodInode(s: Fs, i: nat) {
    i in s.inodes ==> |s.inodes[i].addrs| == NDIRECT + 1 && s.inodes[i].size <= MAXFILE * BSIZE
  }

  ghost predicate Good(s: Fs) {
    && 0 < s.nmeta <= |s.bitmap| <= 0x1_0000_0000
    && (forall i: nat :: GoodInode(s, i))
    && (forall i: nat, k: nat :: GoodSlot(s, i, k))
    && (forall i: nat, k: nat, j: nat, l: nat :: Unshared(s, i, k, j, l))
    && (forall b: nat :: GoodBit(s, b))
    && (forall b | b < |s.bitmap| :: b in s.data)
    && (forall b | b in s.data :: |s.data[b]| == BSIZE)
  }

  /** Byte x of file i; an unmapped block reads as zero. */
  function ByteAt(s: Fs, i: nat, x: nat): Byte {
    var r := RefAt(s, i, SlotOf(x / BSIZE));
    if r != 0 && r in s.data && |s.data[r]| == BSIZE then s.data[r][x % BSIZE] else 0
  }

  // ---------- Which block holds a byte of a file ----------

  /** Word j of an indirect block, lowest byte first. */
  predicate WordIs(d: Block, j: nat, w: nat)
    requires |d| == BSIZE && j < NINDIRECT
  {
    && d[4 * j] == w % 0x100 && d[4 * j + 1] == w / 0x100 % 0x100
    && d[4 * j + 2] == w / 0x1_0000 % 0x100 && d[4 * j + 3] == w / 0x100_0000
  }

  lemma WordDigits(d: Block, j: nat, w: nat)
    requires |d| == BSIZE && j < NINDIRECT
    ensures WordIs(d, j, w) <==> Word(d, j) == w
  {
    if WordIs(d, j, w) {
      WordParts(w);
    }
    Digits(d[4 * j], d[4 * j + 1], d[4 * j + 2], d[4 * j + 3]);
  }

  lemma Digits(a: Byte, b: Byte, c: Byte, e: Byte)
    ensures var w := a + 0x100 * b + 0x1_0000 * c + 0x100_0000 * e;
      w % 0x100 == a && w / 0x100 % 0x100 == b && w / 0x1_0000 % 0x100 == c && w / 0x100_0000 == e
  {
    var w := a + 0x100 * b + 0x1_0000 * c + 0x100_0000 * e;
    assert w / 0x100 == b + 0x100 * c + 0x1_0000 * e;
    assert w / 0x1_0000 == c + 0x100 * e;
  }

  /** b is what inode i has for block bn of its file: addrs[bn] for the first NDIRECT, and after them word
      bn - NDIRECT of the block addrs[NDIRECT]. */
  predicate FileBlock(s: Fs, i: nat, bn: nat, b: nat) {
    && i in s.inodes && |s.inodes[i].addrs| == NDIRECT + 1 && bn < MAXFILE
    && if bn < NDIRECT then b == s.inodes[i].addrs[bn] else Listed(s, s.inodes[i].addrs[NDIRECT], bn - NDIRECT, b)
  }

  predicate Listed(s: Fs, ind: nat, j: nat, b: nat) {
    ind in s.data && |s.data[ind]| == BSIZE && j < NINDIRECT && WordIs(s.data[ind], j, b)
  }

  lemma SlotIsBlock(s: Fs, i: nat, bn: nat)
    requires Good(s) && i in s.inodes && bn < MAXFILE && RefAt(s, i, SlotOf(bn)) != 0
    ensures FileBlock(s, i, bn, RefAt(s, i, SlotOf(bn)))
  {
    assert GoodInode(s, i);
    if bn >= NDIRECT {
      WordDigits(s.data[s.inodes[i].addrs[NDIRECT]], bn - NDIRECT, RefAt(s, i, SlotOf(bn)));
    }
  }

  // ---------- Filling a slot with a fresh block ----------

  /** Block b, marked in use and zeroed. */
  function Alloc(s: Fs, b: nat): Fs
    requires b < |s.bitmap|
  {
    s.(bitmap := s.bitmap[b := true], data := s.data[b := Zeros()])
  }

  /** Slot k of inode i set to b. */
  function SetSlot(s: Fs, i: nat, k: nat, b: nat): Fs
    requires i in s.inodes && |s.inodes[i].addrs| == NDIRECT + 1 && k < SLOTS && b < 0x1_0000_0000
    requires k > NDIRECT ==> s.inodes[i].addrs[NDIRECT] in s.data && |s.data[s.inodes[i].addrs[NDIRECT]]| == BSIZE
  {
    var ip := s.inodes[i];
    if k <= NDIRECT then s.(inodes := s.inodes[i := ip.(addrs := ip.addrs[k := b])])
    else s.(data := s.data[ip.addrs[NDIRECT] := PutWord(s.data[ip.addrs[NDIRECT]], k - NDIRECT - 1, b)])
  }

  /** A slot that can take a new block. */
  ghost predicate Empty(s: Fs, i: nat, k: nat) {
    && i in s.inodes && k < SLOTS && RefAt(s, i, k) == 0
    && (k > NDIRECT ==> RefAt(s, i, NDIRECT) != 0)
  }

  /** Filling a slot changes that slot and no other. */
  lemma FillRefs(s: Fs, i: nat, k: nat, b: nat, j: nat, l: nat)
    requires Good(s) && Empty(s, i, k) && b < |s.bitmap| && !s.bitmap[b]
    ensures GoodInode(s, i) && i in s.inodes && |s.inodes[i].addrs| == NDIRECT + 1
    ensures k > NDIRECT ==>
      s.inodes[i].addrs[NDIRECT] in s.data && s.inodes[i].addrs[NDIRECT] != b
        && |s.data[s.inodes[i].addrs[NDIRECT]]| == BSIZE
    ensures RefAt(SetSlot(Alloc(s, b), i, k, b), j, l) == if i == j && k == l then b else RefAt(s, j, l)
  {
    assert GoodInode(s, i) && GoodInode(s, j);
    assert GoodSlot(s, i, NDIRECT) && GoodSlot(s, j, NDIRECT);
    assert Unshared(s, i, NDIRECT, j, NDIRECT);
    if k > NDIRECT && l > NDIRECT && l < SLOTS {
      PutGetWord(s.data[s.inodes[i].addrs[NDIRECT]], k - NDIRECT - 1, b, l - NDIRECT - 1);
    }
    if k == NDIRECT && l > NDIRECT && l < SLOTS && i == j {
      assert Word(Zeros(), l - NDIRECT - 1) == 0;
    }
  }

  ghost function Filled(s: Fs, i: nat, k: nat, b: nat): Fs
    requires Good(s) && Empty(s, i, k) && b < |s.bitmap| && !s.bitmap[b]
  {
    FillRefs(s, i, k, b, i, k);
    SetSlot(Alloc(s, b), i, k, b)
  }

  lemma FillKeeps(s: Fs, i: nat, k: nat, b: nat)
    requires Good(s) && Empty(s, i, k) && b < |s.bitmap| && !s.bitmap[b]
    ensures Good(Filled(s, i, k, b))
  {
    var t := Filled(s, i, k, b);
    FillRefs(s, i, k, b, i, k);
    assert GoodBit(s, b) && GoodBit(s, 0);
    forall j: nat ensures GoodInode(t, j) {
      assert GoodInode(s, j);
    }
    forall j: nat, l: nat ensures GoodSlot(t, j, l) {
      FillRefs(s, i, k, b, j, l);
      assert GoodSlot(s, j, l);
    }
    forall j: nat, l: nat, m: nat, n: nat ensures Unshared(t, j, l, m, n) {
      FillRefs(s, i, k, b, j, l);
      FillRefs(s, i, k, b, m, n);
      assert Unshared(s, j, l, m, n);
    }
    forall c: nat ensures GoodBit(t, c) {
      FillOwned(s, i, k, b, c);
      assert GoodBit(s, c);
    }
  }

  lemma FillOwned(s: Fs, i: nat, k: nat, b: nat, c: nat)
    requires Good(s) && Empty(s, i, k) && b < |s.bitmap| && !s.bitmap[b]
    ensures Owned(Filled(s, i, k, b), c) <==> Owned(s, c) || c == b
  {
    var t := Filled(s, i, k, b);
    assert GoodBit(s, 0);
    FillRefs(s, i, k, b, i, k);
    if c != 0 {
      if j: nat, l: nat :| RefAt(t, j, l) == c {
        FillRefs(s, i, k, b, j, l);
      }
      if j: nat, l: nat :| RefAt(s, j, l) == c {
        FillRefs(s, i, k, b, j, l);
        assert RefAt(t, j, l) == c;
      }
    }
  }

  /** A fresh block is zeroed, and an unmapped one reads as zero: no file changes. */
  lemma FillBytes(s: Fs, i: nat, k: nat, b: nat, j: nat, x: nat)
    requires Good(s) && Empty(s, i, k) && b < |s.bitmap| && !s.bitmap[b]
    ensures ByteAt(Filled(s, i, k, b), j, x) == ByteAt(s, j, x)
  {
    var l := SlotOf(x / BSIZE);
    FillRefs(s, i, k, b, j, l);
    assert GoodSlot(s, j, l);
    assert k > NDIRECT ==> Unshared(s, i, NDIRECT, j, l);
  }

  // ---------- Writing a mapped block ----------

  function WithBlock(s: Fs, i: nat, bn: nat, blk: Block): Fs {
    s.(data := s.data[RefAt(s, i, SlotOf(bn)) := blk])
  }

  lemma WriteRefs(s: Fs, i: nat, bn: nat, blk: Block, j: nat, l: nat)
    requires Good(s) && RefAt(s, i, SlotOf(bn)) != 0 && |blk| == BSIZE
    ensures RefAt(WithBlock(s, i, bn, blk), j, l) == RefAt(s, j, l)
  {
    assert GoodInode(s, j) && GoodSlot(s, j, NDIRECT);
    assert Unshared(s, i, SlotOf(bn), j, NDIRECT);
  }

  ghost predicate SameRef(s: Fs, t: Fs, j: nat, l: nat) {
    RefAt(t, j, l) == RefAt(s, j, l)
  }

  /** The invariant depends on block contents only through the slots. */
  lemma SameRefsGood(s: Fs, t: Fs)
    requires Good(s) && t.nmeta == s.nmeta && t.bitmap == s.bitmap && t.data.Keys == s.data.Keys
    requires forall b | b in t.data :: |t.data[b]| == BSIZE
    requires forall j: nat :: GoodInode(t, j)
    requires forall j: nat, l: nat :: SameRef(s, t, j, l)
    ensures Good(t)
  {
    forall j: nat, l: nat ensures GoodSlot(t, j, l) {
      assert SameRef(s, t, j, l) && GoodSlot(s, j, l);
    }
    forall j: nat, l: nat, m: nat, n: nat ensures Unshared(t, j, l, m, n) {
      assert SameRef(s, t, j, l) && SameRef(s, t, m, n) && Unshared(s, j, l, m, n);
    }
    forall c: nat ensures GoodBit(t, c) {
      assert GoodBit(s, c);
      if j: nat, l: nat :| RefAt(t, j, l) == c {
        assert SameRef(s, t, j, l);
      }
      if j: nat, l: nat :| RefAt(s, j, l) == c {
        assert SameRef(s, t, j, l);
        assert RefAt(t, j, l) == c;
      }
    }
  }

  lemma WriteKeeps(s: Fs, i: nat, bn: nat, blk: Block)
    requires Good(s) && RefAt(s, i, SlotOf(bn)) != 0 && |blk| == BSIZE
    ensures Good(WithBlock(s, i, bn, blk))
  {
    var t := WithBlock(s, i, bn, blk);
    assert GoodSlot(s, i, SlotOf(bn));
    assert forall j: nat :: GoodInode(s, j) ==> GoodInode(t, j);
    forall j: nat, l: nat ensures SameRef(s, t, j, l) {
      WriteRefs(s, i, bn, blk, j, l);
    }
    SameRefsGood(s, t);
  }

  /** The write shows up in its own block of its own file, and nowhere else. */
  lemma WriteBytes(s: Fs, i: nat, bn: nat, blk: Block, j: nat, x: nat)
    requires Good(s) && RefAt(s, i, SlotOf(bn)) != 0 && |blk| == BSIZE
    ensures ByteAt(WithBlock(s, i, bn, blk), j, x) == if i == j
      && x / BSIZE == bn then blk[x % BSIZE] else ByteAt(s, j, x)
  {
    WriteRefs(s, i, bn, blk, j, SlotOf(x / BSIZE));
    assert Unshared(s, i, SlotOf(bn), j, SlotOf(x / BSIZE));
  }

  // ---------- Emptying a slot ----------

  /** A slot whose block can be freed: the indirect block only once its words are empty. */
  ghost predicate Droppable(s: Fs, i: nat, k: nat) {
    && i in s.inodes && k < SLOTS && RefAt(s, i, k) != 0
    && (k == NDIRECT ==> forall l: nat | l > NDIRECT :: RefAt(s, i, l) == 0)
  }

  ghost function Dropped(s: Fs, i: nat, k: nat): Fs
    requires Good(s) && Droppable(s, i, k)
  {
    assert GoodInode(s, i) && GoodSlot(s, i, k) && GoodSlot(s, i, NDIRECT);
    SetSlot(s.(bitmap := s.bitmap[RefAt(s, i, k) := false]), i, k, 0)
  }

  lemma DropRefs(s: Fs, i: nat, k: nat, j: nat, l: nat)
    requires Good(s) && Droppable(s, i, k)
    ensures RefAt(Dropped(s, i, k), j, l) == if i == j && k == l then 0 else RefAt(s, j, l)
  {
    assert GoodInode(s, i) && GoodInode(s, j);
    assert GoodSlot(s, i, k) && GoodSlot(s, i, NDIRECT) && GoodSlot(s, j, NDIRECT);
    assert Unshared(s, i, NDIRECT, j, NDIRECT);
    if k > NDIRECT && l > NDIRECT && l < SLOTS {
      PutGetWord(s.data[s.inodes[i].addrs[NDIRECT]], k - NDIRECT - 1, 0, l - NDIRECT - 1);
    }
  }

  lemma DropKeeps(s: Fs, i: nat, k: nat)
    requires Good(s) && Droppable(s, i, k)
    ensures Good(Dropped(s, i, k))
  {
    var t := Dropped(s, i, k);
    assert GoodSlot(s, i, k) && GoodSlot(s, i, NDIRECT);
    forall j: nat ensures GoodInode(t, j) {
      assert GoodInode(s, j);
    }
    forall j: nat, l: nat ensures GoodSlot(t, j, l) {
      DropRefs(s, i, k, j, l);
      assert GoodSlot(s, j, l) && Unshared(s, i, k, j, l);
    }
    forall j: nat, l: nat, m: nat, n: nat ensures Unshared(t, j, l, m, n) {
      DropRefs(s, i, k, j, l);
      DropRefs(s, i, k, m, n);
      assert Unshared(s, j, l, m, n);
    }
    forall c: nat ensures GoodBit(t, c) {
      assert GoodBit(s, c);
      DropOwned(s, i, k, c);
    }
  }

  lemma DropOwned(s: Fs, i: nat, k: nat, c: nat)
    requires Good(s) && Droppable(s, i, k)
    ensures Owned(Dropped(s, i, k), c) <==> Owned(s, c) && c != RefAt(s, i, k)
  {
    var t := Dropped(s, i, k);
    if c != 0 {
      if j: nat, l: nat :| RefAt(t, j, l) == c {
        DropRefs(s, i, k, j, l);
        assert Unshared(s, i, k, j, l);
      }
      if j: nat, l: nat :| RefAt(s, j, l) == c {
        DropRefs(s, i, k, j, l);
        assert c != RefAt(s, i, k) ==> RefAt(t, j, l) == c;
      }
    }
  }

  lemma DropBytes(s: Fs, i: nat, k: nat, j: nat, x: nat)
    requires Good(s) && Droppable(s, i, k)
    ensures ByteAt(Dropped(s, i, k), j, x) == if i == j && SlotOf(x / BSIZE) == k then 0 else ByteAt(s, j, x)
  {
    var l := SlotOf(x / BSIZE);
    DropRefs(s, i, k, j, l);
    assert GoodSlot(s, j, l) && GoodSlot(s, i, NDIRECT);
    assert k > NDIRECT ==> Unshared(s, i, NDIRECT, j, l);
  }

  // ---------- Contents of a free block do not matter ----------

  lemma FreeBlockRefs(s: Fs, b: nat, blk: Block, j: nat, l: nat)
    requires Good(s) && b < |s.bitmap| && !s.bitmap[b] && |blk| == BSIZE
    ensures RefAt(s.(data := s.data[b := blk]), j, l) == RefAt(s, j, l)
  {
    assert GoodInode(s, j) && GoodSlot(s, j, NDIRECT);
  }

  lemma FreeBlockKeeps(s: Fs, b: nat, blk: Block)
    requires Good(s) && b < |s.bitmap| && !s.bitmap[b] && |blk| == BSIZE
    ensures Good(s.(data := s.data[b := blk]))
  {
    var t := s.(data := s.data[b := blk]);
    assert forall j: nat :: GoodInode(s, j) ==> GoodInode(t, j);
    forall j: nat, l: nat ensures SameRef(s, t, j, l) {
      FreeBlockRefs(s, b, blk, j, l);
    }
    SameRefsGood(s, t);
  }

  lemma FreeBlockBytes(s: Fs, b: nat, blk: Block, j: nat, x: nat)
    requires Good(s) && b < |s.bitmap| && !s.bitmap[b] && |blk| == BSIZE
    ensures ByteAt(s.(data := s.data[b := blk]), j, x) == ByteAt(s, j, x)
  {
    FreeBlockRefs(s, b, blk, j, SlotOf(x / BSIZE));
    assert GoodSlot(s, j, SlotOf(x / BSIZE));
  }
}
