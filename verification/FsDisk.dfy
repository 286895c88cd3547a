/** Where a file system of module FsSpec lies on disk: kernel/fs.h, and the parts of kernel/fs.c that
    change a bitmap block, an inode block or a file block in a buffer.

    The buffer cache sees a block as 256 words, the file system as 1024 bytes.
 */
module FsDisk {
  import opened Common
  import opened FsSpec
  import opened FileSystem
  import BufferCache
  import LogSpec

  type Words = BufferCache.Block

  /** The fields of the super block that place things. */
  datatype Super = Super(logstart: nat, nlog: nat, inodestart: nat, bmapstart: nat)

  // ---------- Words ----------

  function WordsOf(b: Block): (r: Words)
    requires |b| == BSIZE
    ensures |r| == NINDIRECT
  {
    seq(NINDIRECT, j requires 0 <= j < NINDIRECT => Word(b, j))
  }

  lemma SameWord(a: Block, b: Block, j: nat)
    requires |a| == |b| == BSIZE && j < NINDIRECT && Word(a, j) == Word(b, j)
    ensures a[4 * j..4 * j + 4] == b[4 * j..4 * j + 4]
  {
    var c, d := a[4 * j..4 * j + 4], b[4 * j..4 * j + 4];
    SameParts(c[0], c[1], c[2], c[3], d[0], d[1], d[2], d[3]);
  }

  lemma SameParts(a0: Byte, a1: Byte, a2: Byte, a3: Byte, b0: Byte, b1: Byte, b2: Byte, b3: Byte)
    requires a0 + 0x100 * a1 + 0x1_0000 * a2 + 0x100_0000 * a3 == b0 + 0x100 * b1 + 0x1_0000 * b2 + 0x100_0000 * b3
    ensures a0 == b0 && a1 == b1 && a2 == b2 && a3 == b3
  {
  }

  /** No two contents of a block have the same words. */
  lemma WordsInjective(a: Block, b: Block)
    requires |a| == |b| == BSIZE && WordsOf(a) == WordsOf(b)
    ensures a == b
  {
    forall x: nat | x < BSIZE ensures a[x] == b[x] {
      var j := x / 4;
      assert WordsOf(a)[j] == Word(a, j) && WordsOf(b)[j] == Word(b, j);
      SameWord(a, b, j);
      assert a[x] == a[4 * j..4 * j + 4][x - 4 * j] && b[x] == b[4 * j..4 * j + 4][x - 4 * j];
    }
  }

  function Bit(w: int, k: nat): bool
    decreases k
  {
    if k == 0 then w % 2 == 1 else Bit(w / 2, k - 1)
  }

  /** Bit k of word w set or cleared. */
  function PutBit(w: int, k: nat, v: bool): int
    decreases k
  {
    if k == 0 then w / 2 * 2 + (if v then 1 else 0) else PutBit(w / 2, k - 1, v) * 2 + w % 2
  }

  lemma {:induction false} PutGetBit(w: int, k: nat, v: bool, l: nat)
    ensures Bit(PutBit(w, k, v), l) == if l == k then v else Bit(w, l)
    decreases k
  {
    if k > 0 && l > 0 {
      PutGetBit(w / 2, k - 1, v, l - 1);
    }
  }

  function Pow2(m: nat): nat {
    if m == 0 then 1 else 2 * Pow2(m - 1)
  }

  lemma {:induction false} BitJoin(a: nat, b: nat, m: nat, k: nat)
    requires a < Pow2(m)
    ensures Bit(a + Pow2(m) * b, k) == if k < m then Bit(a, k) else Bit(b, k - m)
    decreases m
  {
    if m > 0 {
      var w := a + Pow2(m) * b;
      assert Pow2(m) * b == 2 * (Pow2(m - 1) * b);
      assert w / 2 == a / 2 + Pow2(m - 1) * b && w % 2 == a % 2;
      if k > 0 {
        BitJoin(a / 2, b, m - 1, k - 1);
      }
    }
  }

  /** A bit of a word is one of its bytes'. */
  lemma WordBit(d: Block, j: nat, k: nat)
    requires |d| == BSIZE && j < NINDIRECT && k < 32
    ensures Bit(Word(d, j), k) == Bit(d[4 * j + k / 8], k % 8)
  {
    var a: nat, b: nat, c: nat, e: nat := d[4 * j], d[4 * j + 1], d[4 * j + 2], d[4 * j + 3];
    assert Pow2(8) == 0x100;
    BitJoin(a, b + 0x100 * (c + 0x100 * e), 8, k);
    if k >= 8 {
      BitJoin(b, c + 0x100 * e, 8, k - 8);
      if k >= 16 {
        BitJoin(c, e, 8, k - 16);
      }
    }
  }

  /** Bit c of the bitmap, as balloc and bfree find it: bit c % 8 of byte c % BPB / 8 of its block. */
  lemma BitmapByte(d: Block, c: nat)
    requires |d| == BSIZE
    ensures Bit(WordsOf(d)[c % BPB / 32], c % 32) == Bit(d[c % BPB / 8], c % 8)
  {
    var i := c % BPB;
    WordBit(d, i / 32, i % 32);
    BitParts(c);
    ByteParts(i);
  }

  /** A bit number by its block, its word and its place in the word, and by its byte. */
  lemma BitParts(c: nat)
    ensures c == (c / BPB * 256 + c % BPB / 32) * 32 + c % 32 && c % 32 == c % BPB % 32 && c % 8 == c % BPB % 8
  {
    var q, r := c / BPB, c % BPB;
    var a, b := r / 32, r % 32;
    assert c == (q * 256 + a) * 32 + b;
    Remainder(q * 256 + a, b);
    var x, y := r / 8, r % 8;
    assert c == (q * 1024 + x) * 8 + y;
    RemainderOfByte(q * 1024 + x, y);
  }

  lemma Remainder(w: nat, b: nat)
    requires b < 32
    ensures (w * 32 + b) % 32 == b
  {
  }

  lemma RemainderOfByte(w: nat, b: nat)
    requires b < 8
    ensures (w * 8 + b) % 8 == b
  {
  }

  lemma ByteParts(i: nat)
    ensures 4 * (i / 32) + i % 32 / 8 == i / 8 && i % 32 % 8 == i % 8
  {
    var a, b := i / 32, i % 32;
    assert i == 32 * a + b;
  }

  // ---------- Layout ----------

  /** The regions do not overlap: log, inodes, bitmap, data. */
  ghost predicate Fits(s: Fs, sb: Super) {
    && sb.logstart + sb.nlog <= sb.inodestart <= sb.bmapstart
    && (forall j: nat | j in s.inodes :: sb.inodestart + j / IPB < sb.bmapstart)
    && sb.bmapstart + (|s.bitmap| - 1) / BPB < s.nmeta <= |s.bitmap|
  }

  /** Bit c of the free bitmap is in its block, 32 to a word. */
  ghost predicate BitHolds(blk: Words, b: nat, s: Fs, sb: Super, c: nat) {
    c < |s.bitmap| && b == sb.bmapstart + c / BPB ==>
      |blk| == NINDIRECT && Bit(blk[c % BPB / 32], c % 32) == s.bitmap[c]
  }

  /** The place of inode j in its block: 16 words, two of them for the type and the links, then the size
      and the block numbers. */
  function InodeWord(j: nat, k: nat): (r: nat)
    ensures 4 * r == j % IPB * 64 + 8 + 4 * k
  {
    j % IPB * 16 + 2 + k
  }

  ghost predicate InodeHolds(blk: Words, b: nat, s: Fs, sb: Super, j: nat) {
    j in s.inodes && b == sb.inodestart + j / IPB ==>
      && |blk| == NINDIRECT && |s.inodes[j].addrs| == NDIRECT + 1
      && blk[InodeWord(j, 0)] == s.inodes[j].size
      && forall k: nat | k <= NDIRECT :: blk[InodeWord(j, k + 1)] == s.inodes[j].addrs[k]
  }

  ghost predicate DataHolds(blk: Words, b: nat, s: Fs) {
    s.nmeta <= b < |s.bitmap| ==> b in s.data && |s.data[b]| == BSIZE && blk == WordsOf(s.data[b])
  }

  /** Contents blk of block b are what the file system s has there. */
  ghost predicate BlockHolds(blk: Words, b: nat, s: Fs, sb: Super) {
    && DataHolds(blk, b, s)
    && (forall c: nat :: BitHolds(blk, b, s, sb, c))
    && (forall j: nat :: InodeHolds(blk, b, s, sb, j))
  }

  ghost predicate HoldsAt(d: BufferCache.Disk, s: Fs, sb: Super, b: nat) {
    b < |s.bitmap| && !LogSpec.InLog(sb.logstart, sb.nlog, b) ==> b in d && BlockHolds(d[b], b, s, sb)
  }

  /** The disk holds the file system. */
  ghost predicate OnDisk(d: BufferCache.Disk, s: Fs, sb: Super) {
    forall b: nat :: HoldsAt(d, s, sb, b)
  }

  lemma OnDiskSame(d: BufferCache.Disk, e: BufferCache.Disk, s: Fs, sb: Super)
    requires OnDisk(d, s, sb) && LogSpec.SameHome(d, e, sb.logstart, sb.nlog)
    ensures OnDisk(e, s, sb)
  {
    forall b: nat ensures HoldsAt(e, s, sb, b) {
      assert HoldsAt(d, s, sb, b) && LogSpec.SameAt(d, e, sb.logstart, sb.nlog, b);
    }
  }

  lemma OnDiskSameBack(d: BufferCache.Disk, e: BufferCache.Disk, s: Fs, sb: Super)
    requires OnDisk(d, s, sb) && LogSpec.SameHome(e, d, sb.logstart, sb.nlog)
    ensures OnDisk(e, s, sb)
  {
    forall b: nat ensures HoldsAt(e, s, sb, b) {
      assert HoldsAt(d, s, sb, b) && LogSpec.SameAt(e, d, sb.logstart, sb.nlog, b);
    }
  }

  // ---------- The disk determines the file system ----------

  ghost predicate SameShape(s: Fs, t: Fs) {
    s.nmeta == t.nmeta && |s.bitmap| == |t.bitmap| && s.inodes.Keys == t.inodes.Keys
  }

  lemma DeterminesBit(d: BufferCache.Disk, s: Fs, t: Fs, sb: Super, c: nat)
    requires OnDisk(d, s, sb) && OnDisk(d, t, sb) && SameShape(s, t) && Fits(s, sb) && c < |s.bitmap|
    ensures s.bitmap[c] == t.bitmap[c]
  {
    var b := sb.bmapstart + c / BPB;
    InBitmap(s, sb, c);
    assert HoldsAt(d, s, sb, b) && HoldsAt(d, t, sb, b);
    assert BitHolds(d[b], b, s, sb, c) && BitHolds(d[b], b, t, sb, c);
  }

  /** The block of a bit is below the data and above the inodes and the log. */
  lemma InBitmap(s: Fs, sb: Super, c: nat)
    requires Fits(s, sb) && c < |s.bitmap|
    ensures sb.bmapstart + c / BPB < s.nmeta
  {
    assert c / BPB <= (|s.bitmap| - 1) / BPB;
  }

  lemma DeterminesInode(d: BufferCache.Disk, s: Fs, t: Fs, sb: Super, j: nat)
    requires OnDisk(d, s, sb) && OnDisk(d, t, sb) && SameShape(s, t) && Fits(s, sb) && j in s.inodes
    ensures s.inodes[j] == t.inodes[j]
  {
    var b := sb.inodestart + j / IPB;
    assert HoldsAt(d, s, sb, b) && HoldsAt(d, t, sb, b);
    assert InodeHolds(d[b], b, s, sb, j) && InodeHolds(d[b], b, t, sb, j);
    forall k: nat | k <= NDIRECT ensures s.inodes[j].addrs[k] == t.inodes[j].addrs[k] {
      assert d[b][InodeWord(j, k + 1)] == s.inodes[j].addrs[k];
    }
  }

  lemma DeterminesData(d: BufferCache.Disk, s: Fs, t: Fs, sb: Super, b: nat)
    requires OnDisk(d, s, sb) && OnDisk(d, t, sb) && SameShape(s, t) && Fits(s, sb) && s.nmeta <= b < |s.bitmap|
    ensures b in s.data && b in t.data && s.data[b] == t.data[b]
  {
    assert HoldsAt(d, s, sb, b) && HoldsAt(d, t, sb, b);
    WordsInjective(s.data[b], t.data[b]);
  }

  /** A disk holds one file system only: the same bitmap, the same inodes, and the same bytes of every
      file. */
  lemma DiskDetermines(d: BufferCache.Disk, s: Fs, t: Fs, sb: Super)
    requires OnDisk(d, s, sb) && OnDisk(d, t, sb) && SameShape(s, t) && Fits(s, sb) && Good(s) && Good(t)
    ensures s.bitmap == t.bitmap && s.inodes == t.inodes && SameBytes(s, t)
  {
    forall c: nat | c < |s.bitmap| ensures s.bitmap[c] == t.bitmap[c] {
      DeterminesBit(d, s, t, sb, c);
    }
    forall j | j in s.inodes ensures s.inodes[j] == t.inodes[j] {
      DeterminesInode(d, s, t, sb, j);
    }
    forall j: nat, x: nat ensures SameByte(s, t, j, x) {
      SameByteOnDisk(d, s, t, sb, j, x);
    }
  }

  lemma SameByteOnDisk(d: BufferCache.Disk, s: Fs, t: Fs, sb: Super, j: nat, x: nat)
    requires OnDisk(d, s, sb) && OnDisk(d, t, sb) && SameShape(s, t) && Fits(s, sb) && Good(s) && Good(t)
    requires s.inodes == t.inodes
    ensures SameByte(s, t, j, x)
  {
    SameRefOnDisk(d, s, t, sb, j, SlotOf(x / BSIZE));
    var r := RefAt(s, j, SlotOf(x / BSIZE));
    if r != 0 {
      assert GoodSlot(s, j, SlotOf(x / BSIZE));
      DeterminesData(d, s, t, sb, r);
    }
  }

  lemma SameRefOnDisk(d: BufferCache.Disk, s: Fs, t: Fs, sb: Super, j: nat, k: nat)
    requires OnDisk(d, s, sb) && OnDisk(d, t, sb) && SameShape(s, t) && Fits(s, sb) && Good(s) && Good(t)
    requires s.inodes == t.inodes
    ensures RefAt(s, j, k) == RefAt(t, j, k)
  {
    if j in s.inodes && k > NDIRECT {
      assert GoodInode(s, j);
      var ind := s.inodes[j].addrs[NDIRECT];
      assert RefAt(s, j, NDIRECT) == ind && GoodSlot(s, j, NDIRECT);
      if ind != 0 {
        DeterminesData(d, s, t, sb, ind);
      }
    }
  }

  // ---------- What a transaction must write ----------

  /** A block that a transaction did not log holds the file system after it as well. */
  lemma UnloggedHolds(blk: Words, b: nat, s: Fs, t: Fs, logged: set<nat>, sb: Super)
    requires Recorded(s, t, logged, logged, sb.bmapstart, sb.inodestart) && Good(t) && t.nmeta == s.nmeta
    requires b !in logged && BlockHolds(blk, b, s, sb)
    ensures BlockHolds(blk, b, t, sb)
  {
    assert NotedBlock(s, t, logged, b);
    forall c: nat ensures BitHolds(blk, b, t, sb, c) {
      assert BitHolds(blk, b, s, sb, c) && NotedBit(s, t, logged, sb.bmapstart, c);
    }
    forall j: nat ensures InodeHolds(blk, b, t, sb, j) {
      assert InodeHolds(blk, b, s, sb, j) && NotedInode(s, t, logged, sb.inodestart, j);
    }
  }

  /** iupdate: the inode's size and block numbers go into their words. */
  function PutInode(blk: Words, j: nat, ip: Inode): (r: Words)
    requires |blk| == NINDIRECT && |ip.addrs| == NDIRECT + 1
    ensures |r| == NINDIRECT
  {
    var w := InodeWord(j, 0);
    blk[..w] + [ip.size] + ip.addrs + blk[w + NDIRECT + 2..]
  }

  /** balloc and bfree: one bit of a bitmap block. */
  function PutBitAt(blk: Words, c: nat, v: bool): (r: Words)
    requires |blk| == NINDIRECT
    ensures |r| == NINDIRECT
  {
    blk[c % BPB / 32 := PutBit(blk[c % BPB / 32], c % 32, v)]
  }

  /** After iupdate of inode j the block holds the file system with the new inode. */
  lemma IupdateHolds(blk: Words, s: Fs, sb: Super, j: nat, ip: Inode)
    requires Fits(s, sb) && j in s.inodes && |ip.addrs| == NDIRECT + 1
    requires BlockHolds(blk, sb.inodestart + j / IPB, s, sb)
    ensures |blk| == NINDIRECT
    ensures BlockHolds(PutInode(blk, j, ip), sb.inodestart + j / IPB, s.(inodes := s.inodes[j := ip]), sb)
  {
    var b, t := sb.inodestart + j / IPB, s.(inodes := s.inodes[j := ip]);
    assert InodeHolds(blk, b, s, sb, j);
    var blk' := PutInode(blk, j, ip);
    forall m: nat ensures InodeHolds(blk', b, t, sb, m) {
      assert InodeHolds(blk, b, s, sb, m);
      IupdateWords(blk, s, sb, j, ip, m);
    }
  }

  lemma IupdateWords(blk: Words, s: Fs, sb: Super, j: nat, ip: Inode, m: nat)
    requires |blk| == NINDIRECT && |ip.addrs| == NDIRECT + 1 && InodeHolds(blk, sb.inodestart + j / IPB, s, sb, m)
    ensures InodeHolds(PutInode(blk, j, ip), sb.inodestart + j / IPB, s.(inodes := s.inodes[j := ip]), sb, m)
  {
    var blk' := PutInode(blk, j, ip);
    if m != j && m / IPB == j / IPB {
      assert m % IPB != j % IPB;
      forall k: nat | k <= NDIRECT + 1 ensures blk'[InodeWord(m, k)] == blk[InodeWord(m, k)] {
        InodeApart(j, m, k);
      }
    }
  }

  lemma InodeApart(j: nat, m: nat, k: nat)
    requires m % IPB != j % IPB && k <= NDIRECT + 1
    ensures InodeWord(m, k) < NINDIRECT
    ensures InodeWord(m, k) < InodeWord(j, 0) || InodeWord(j, NDIRECT + 1) < InodeWord(m, k)
  {
    var a, b := m % IPB, j % IPB;
    assert a < b || b < a;
  }

  /** After balloc or bfree changed bit c, the block holds the new bitmap. */
  lemma BitmapHolds(blk: Words, s: Fs, sb: Super, c: nat, v: bool)
    requires Fits(s, sb) && c < |s.bitmap| && BlockHolds(blk, sb.bmapstart + c / BPB, s, sb)
    ensures |blk| == NINDIRECT
    ensures BlockHolds(PutBitAt(blk, c, v), sb.bmapstart + c / BPB, s.(bitmap := s.bitmap[c := v]), sb)
  {
    var b, t := sb.bmapstart + c / BPB, s.(bitmap := s.bitmap[c := v]);
    InBitmap(s, sb, c);
    assert BitHolds(blk, b, s, sb, c);
    var blk' := PutBitAt(blk, c, v);
    forall m: nat ensures BitHolds(blk', b, t, sb, m) {
      assert BitHolds(blk, b, s, sb, m);
      BitmapWords(blk, s, sb, c, v, m);
    }
  }

  lemma BitmapWords(blk: Words, s: Fs, sb: Super, c: nat, v: bool, m: nat)
    requires |blk| == NINDIRECT && c < |s.bitmap| && BitHolds(blk, sb.bmapstart + c / BPB, s, sb, m)
    ensures BitHolds(PutBitAt(blk, c, v), sb.bmapstart + c / BPB, s.(bitmap := s.bitmap[c := v]), sb, m)
  {
    var i, j := c % BPB / 32, m % BPB / 32;
    PutGetBit(blk[i], c % 32, v, m % 32);
    if m / BPB == c / BPB && i == j && c % 32 == m % 32 {
      SameBit(c, m);
    }
  }

  /** A bit number is given by its block, its word and its place in the word. */
  lemma SameBit(c: nat, m: nat)
    requires m / BPB == c / BPB && c % BPB / 32 == m % BPB / 32 && c % 32 == m % 32
    ensures c == m
  {
    BitParts(c);
    BitParts(m);
  }

  /** log_write of a file block, an indirect block or a zeroed block puts its bytes in place. */
  lemma DataBlockHolds(s: Fs, sb: Super, b: nat, d: Block)
    requires Fits(s, sb) && s.nmeta <= b < |s.bitmap| && |d| == BSIZE
    ensures BlockHolds(WordsOf(d), b, s.(data := s.data[b := d]), sb)
  {
    var t := s.(data := s.data[b := d]);
    forall c: nat ensures BitHolds(WordsOf(d), b, t, sb, c) {
      if c < |s.bitmap| {
        InBitmap(s, sb, c);
      }
    }
    forall j: nat ensures InodeHolds(WordsOf(d), b, t, sb, j) {
    }
  }
}
