/** The in-memory inode table and the path walk over it (kernel/fs.c: iget, idup, ilock, iput, dirlookup,
    namex).  A handle is a pointer that somebody will iput; the table refines the multiset of handles. */
module Inodes {
  import opened Common
  import opened Path

  const NINODE := 50
  const ROOTINO := 1

  datatype Ino = Ino(dev: nat, inum: nat)
  datatype Dirent = Dirent(inum: nat, name: string)

  /** An inode on disk.  kind 0 is a free inode and 1 (T_DIR) a directory. */
  datatype File = File(kind: nat, nlink: nat, entries: seq<Dirent>)

  const T_DIR := 1

  datatype Entry = Entry(ino: Ino, ref: nat, valid: bool)

  /** How namex ends.  Panic stands for "iget: no inodes" and "ilock: no type". */
  datatype Outcome = Found(slot: nat, name: string) | NotFound | Panic

  // ---------- What a path leads to ----------

  datatype Place = At(ino: Ino) | Nowhere | Broken

  /** The first entry with this name. */
  function Lookup(entries: seq<Dirent>, name: string): Option<nat> {
    if entries == [] then None
    else if entries[0].inum != 0 && Trunc(entries[0].name) == Trunc(name) then Some(entries[0].inum)
    else Lookup(entries[1..], name)
  }

  /** The entry is in use and its name agrees with `name` on the first DIRSIZ characters. */
  predicate Hit(e: Dirent, name: string) {
    e.inum != 0 && SameName(name, e.name)
  }

  predicate FirstHit(entries: seq<Dirent>, name: string, k: nat) {
    k < |entries| && Hit(entries[k], name) && forall j: nat | j < k :: !Hit(entries[j], name)
  }

  predicate NoHit(entries: seq<Dirent>, name: string) {
    forall k: nat | k < |entries| :: !Hit(entries[k], name)
  }

  /** What the directory search finds: the inode of the first entry in use that has the name. */
  lemma {:induction false} LookupFinds(entries: seq<Dirent>, name: string)
    ensures Lookup(entries, name).None? <==> NoHit(entries, name)
    ensures Lookup(entries, name).Some? ==>
      exists k: nat :: FirstHit(entries, name, k) && Lookup(entries, name) == Some(entries[k].inum)
    decreases |entries|
  {
    if entries != [] {
      TruncEqual(name, entries[0].name);
      var rest := entries[1..];
      LookupFinds(rest, name);
      if Hit(entries[0], name) {
        assert FirstHit(entries, name, 0);
      } else {
        assert forall j: nat | j < |entries| && j > 0 :: entries[j] == rest[j - 1];
        if Lookup(rest, name).Some? {
          var k: nat :| FirstHit(rest, name, k) && Lookup(rest, name) == Some(rest[k].inum);
          forall j: nat | j < k + 1 ensures !Hit(entries[j], name) {
            assert j > 0 ==> !Hit(rest[j - 1], name);
          }
          assert FirstHit(entries, name, k + 1) && entries[k + 1] == rest[k];
        } else {
          forall j: nat | j < |entries| ensures !Hit(entries[j], name) {
            assert j > 0 ==> !Hit(rest[j - 1], name);
          }
        }
      }
    }
  }

  lemma {:induction false} LookupTrunc(entries: seq<Dirent>, name: string)
    ensures Lookup(entries, Trunc(name)) == Lookup(entries, name)
    decreases |entries|
  {
    if entries != [] {
      LookupTrunc(entries[1..], name);
    }
  }

  predicate Typed(files: map<Ino, File>, ino: Ino) {
    ino in files && files[ino].kind != 0
  }

  function Walk(files: map<Ino, File>, ino: Ino, names: seq<string>, parent: bool): Place
    decreases |names|
  {
    if names == [] then if parent then Nowhere else At(ino)
    else if !Typed(files, ino) then Broken
    else if files[ino].kind != T_DIR then Nowhere
    else if parent && |names| == 1 then At(ino)
    else
      match Lookup(files[ino].entries, names[0])
      case None => Nowhere
      case Some(inum) => Walk(files, Ino(ino.dev, inum), names[1..], parent)
  }

  // ---------- The walk, entry by entry ----------

  /** d is a directory, and the first of its entries with this name is for inode c. */
  ghost predicate StepsTo(files: map<Ino, File>, d: Ino, name: string, c: Ino) {
    && Typed(files, d) && files[d].kind == T_DIR && c.dev == d.dev
    && exists k: nat :: FirstHit(files[d].entries, name, k) && files[d].entries[k].inum == c.inum
  }

  /** The names lead from one inode to the other. */
  ghost predicate Leads(files: map<Ino, File>, from: Ino, names: seq<string>, to: Ino)
    decreases |names|
  {
    if names == [] then from == to
    else exists mid :: StepsTo(files, from, names[0], mid) && Leads(files, mid, names[1..], to)
  }

  lemma StepIs(files: map<Ino, File>, d: Ino, name: string, c: Ino)
    requires Typed(files, d) && files[d].kind == T_DIR
    ensures StepsTo(files, d, name, c) <==> Lookup(files[d].entries, name) == Some(c.inum) && c.dev == d.dev
  {
    LookupFinds(files[d].entries, name);
  }

  /** A path leads to an inode exactly if there is such a chain of directory entries. */
  lemma {:induction false} WalkIs(files: map<Ino, File>, from: Ino, names: seq<string>, to: Ino)
    ensures Walk(files, from, names, false) == At(to) <==> Leads(files, from, names, to)
    decreases |names|
  {
    if names != [] && Typed(files, from) && files[from].kind == T_DIR {
      var hit := Lookup(files[from].entries, names[0]);
      if hit.Some? {
        var mid := Ino(from.dev, hit.value);
        StepIs(files, from, names[0], mid);
        WalkIs(files, mid, names[1..], to);
      }
      forall c ensures StepsTo(files, from, names[0], c) ==> hit == Some(c.inum) && c.dev == from.dev {
        StepIs(files, from, names[0], c);
      }
    }
  }

  /** The parent is the directory that all names but the last lead to. */
  lemma {:induction false} ParentIs(files: map<Ino, File>, from: Ino, names: seq<string>, to: Ino)
    ensures Walk(files, from, names, true) == At(to) <==>
      LeadsTo(files, from, names, true, to)
    decreases |names|
  {
    if names != [] && Typed(files, from) && files[from].kind == T_DIR && |names| > 1 {
      var hit, most := Lookup(files[from].entries, names[0]), names[..|names| - 1];
      assert most[0] == names[0] && most[1..] == names[1..][..|names| - 2];
      if hit.Some? {
        var mid := Ino(from.dev, hit.value);
        StepIs(files, from, names[0], mid);
        ParentIs(files, mid, names[1..], to);
      }
      forall c ensures StepsTo(files, from, names[0], c) ==> hit == Some(c.inum) && c.dev == from.dev {
        StepIs(files, from, names[0], c);
      }
    }
  }

  /** The first k names lead to an inode without a type. */
  ghost predicate BreaksAt(files: map<Ino, File>, from: Ino, names: seq<string>, k: nat, at: Ino) {
    k < |names| && Leads(files, from, names[..k], at) && !Typed(files, at)
  }

  lemma BreaksLater(files: map<Ino, File>, from: Ino, names: seq<string>, mid: Ino, k: nat, at: Ino)
    requires names != [] && Typed(files, from)
    requires forall c :: StepsTo(files, from, names[0], c) <==> c == mid
    ensures BreaksAt(files, from, names, k + 1, at) <==> BreaksAt(files, mid, names[1..], k, at)
    ensures !BreaksAt(files, from, names, 0, at)
  {
    if k < |names| - 1 {
      var most := names[..k + 1];
      assert most[0] == names[0] && most[1..] == names[1..][..k];
    }
  }

  lemma NeverBreaks(files: map<Ino, File>, from: Ino, names: seq<string>, k: nat, at: Ino)
    requires names != [] && Typed(files, from) && forall c :: !StepsTo(files, from, names[0], c)
    ensures !BreaksAt(files, from, names, k, at)
  {
    if 0 < k < |names| {
      assert names[..k][0] == names[0];
    }
  }

  /** The walk ends in the panic for an inode without a type exactly if the names before some name lead to
      one. */
  lemma {:induction false} BrokenIs(files: map<Ino, File>, from: Ino, names: seq<string>, parent: bool)
    ensures Walk(files, from, names, parent) == Broken <==> exists k: nat, at :: BreaksAt(files, from, names, k, at)
    decreases |names|, 1
  {
    if names != [] && !Typed(files, from) {
      assert BreaksAt(files, from, names, 0, from);
    } else if names != [] {
      var dir := files[from].kind == T_DIR;
      var hit := if dir then Lookup(files[from].entries, names[0]) else None;
      forall c ensures StepsTo(files, from, names[0], c) <==> hit.Some? && c == Ino(from.dev, hit.value) {
        if dir {
          StepIs(files, from, names[0], c);
        }
      }
      if hit.Some? {
        BreaksOn(files, from, names, Ino(from.dev, hit.value), parent);
      } else {
        forall k: nat, at ensures !BreaksAt(files, from, names, k, at) {
          NeverBreaks(files, from, names, k, at);
        }
      }
    }
  }

  lemma {:induction false} BreaksOn(files: map<Ino, File>, from: Ino, names: seq<string>, mid: Ino, parent: bool)
    requires names != [] && Typed(files, from) && files[from].kind == T_DIR
    requires forall c :: StepsTo(files, from, names[0], c) <==> c == mid
    requires Lookup(files[from].entries, names[0]) == Some(mid.inum) && mid.dev == from.dev
    ensures Walk(files, from, names, parent) == Broken <==> exists k: nat, at :: BreaksAt(files, from, names, k, at)
    decreases |names|, 0
  {
    BrokenIs(files, mid, names[1..], parent);
    if k: nat, at :| BreaksAt(files, mid, names[1..], k, at) {
      BreaksLater(files, from, names, mid, k, at);
    }
    if k: nat, at :| BreaksAt(files, from, names, k, at) {
      BreaksLater(files, from, names, mid, if k > 0 then k - 1 else 0, at);
    }
  }

  // ---------- The table ----------

  ghost predicate OneSlot(entries: seq<Entry>, i: nat, j: nat) {
    i < |entries| && j < |entries| && entries[i].ref > 0 && entries[j].ref > 0 && entries[i].ino == entries[j].ino ==>
      i == j
  }

  ghost predicate Counted(entries: seq<Entry>, handles: multiset<Ino>, i: nat) {
    i < |entries| && entries[i].ref > 0 ==> entries[i].ref == handles[entries[i].ino]
  }

  ghost predicate Held(entries: seq<Entry>, handles: multiset<Ino>, ino: Ino) {
    handles[ino] > 0 ==> exists i: nat :: HeldAt(entries, ino, i)
  }

  predicate HeldAt(entries: seq<Entry>, ino: Ino, i: nat) {
    i < |entries| && entries[i].ref > 0 && entries[i].ino == ino
  }

  /** An entry read from disk is of an inode in use. */
  ghost predicate Loaded(entries: seq<Entry>, files: map<Ino, File>, i: nat) {
    i < |entries| && entries[i].ref > 0 && entries[i].valid ==> Typed(files, entries[i].ino)
  }

  ghost predicate AllLoaded(entries: seq<Entry>, files: map<Ino, File>) {
    forall i: nat :: Loaded(entries, files, i)
  }

  lemma StillLoaded(entries: seq<Entry>, files: map<Ino, File>, i: nat, e: Entry)
    requires AllLoaded(entries, files) && i < |entries|
    requires e.ref > 0 && e.valid ==> Typed(files, e.ino)
    ensures AllLoaded(entries[i := e], files)
  {
    var es := entries[i := e];
    forall k: nat ensures Loaded(es, files, k) {
      assert Loaded(entries, files, k);
    }
  }

  /** No two live entries for one inode, and every count is the number of handles. */
  ghost predicate Exact(entries: seq<Entry>, handles: multiset<Ino>) {
    && (forall i: nat, j: nat :: OneSlot(entries, i, j))
    && (forall i: nat :: Counted(entries, handles, i))
    && (forall ino :: Held(entries, handles, ino))
  }

  /** One more handle on an entry that is live. */
  lemma MoreExact(entries: seq<Entry>, handles: multiset<Ino>, i: nat)
    requires Exact(entries, handles) && i < |entries| && entries[i].ref > 0
    ensures Exact(entries[i := entries[i].(ref := entries[i].ref + 1)], handles + multiset{entries[i].ino})
  {
    var e, h := entries[i := entries[i].(ref := entries[i].ref + 1)], handles + multiset{entries[i].ino};
    forall j: nat, k: nat ensures OneSlot(e, j, k) {
      assert OneSlot(entries, j, k);
    }
    forall j: nat ensures Counted(e, h, j) {
      assert Counted(entries, handles, j) && OneSlot(entries, i, j) && Counted(entries, handles, i);
    }
    forall ino ensures Held(e, h, ino) {
      HeldStays(entries, handles, e, h, ino, i);
    }
  }

  lemma HeldStays(entries: seq<Entry>, handles: multiset<Ino>, e: seq<Entry>, h: multiset<Ino>, ino: Ino, i: nat)
    requires Held(entries, handles, ino) && i < |entries| == |e|
      && (forall k: nat | k < |e| :: k != i ==> e[k] == entries[k])
    requires e[i].ref > 0
      && (e[i].ino == ino || (h[ino] == handles[ino] && (entries[i].ref == 0 || entries[i].ino != ino)))
    ensures Held(e, h, ino)
  {
    if h[ino] > 0 {
      if e[i].ino == ino {
        assert HeldAt(e, ino, i);
      } else {
        var k: nat :| HeldAt(entries, ino, k);
        assert HeldAt(e, ino, k);
      }
    }
  }

  /** A free entry recycled for an inode that nobody holds. */
  lemma NewExact(entries: seq<Entry>, handles: multiset<Ino>, i: nat, ino: Ino)
    requires Exact(entries, handles) && i < |entries| && entries[i].ref == 0
    requires forall k: nat :: !HeldAt(entries, ino, k)
    ensures Exact(entries[i := Entry(ino, 1, false)], handles + multiset{ino})
  {
    var e, h := entries[i := Entry(ino, 1, false)], handles + multiset{ino};
    assert Held(entries, handles, ino);
    forall j: nat, k: nat ensures OneSlot(e, j, k) {
      assert OneSlot(entries, j, k) && !HeldAt(entries, ino, j) && !HeldAt(entries, ino, k);
    }
    forall j: nat ensures Counted(e, h, j) {
      assert Counted(entries, handles, j) && !HeldAt(entries, ino, j);
    }
    forall x ensures Held(e, h, x) {
      HeldStays(entries, handles, e, h, x, i);
    }
  }

  /** A handle dropped. */
  lemma LessExact(entries: seq<Entry>, handles: multiset<Ino>, i: nat, valid: bool)
    requires Exact(entries, handles) && i < |entries| && entries[i].ref > 0
    ensures handles[entries[i].ino] == entries[i].ref
    ensures Exact(entries[i := Entry(entries[i].ino, entries[i].ref - 1, valid)], handles - multiset{entries[i].ino})
  {
    var e, h := entries[i := Entry(entries[i].ino, entries[i].ref - 1, valid)], handles - multiset{entries[i].ino};
    assert Counted(entries, handles, i);
    forall j: nat, k: nat ensures OneSlot(e, j, k) {
      assert OneSlot(entries, j, k);
    }
    forall j: nat ensures Counted(e, h, j) {
      assert Counted(entries, handles, j) && OneSlot(entries, i, j);
    }
    forall x ensures Held(e, h, x) {
      assert Held(entries, handles, x);
      if h[x] > 0 {
        var k: nat :| HeldAt(entries, x, k);
        assert HeldAt(e, x, k);
      }
    }
  }

  class Itable {
    var entries: seq<Entry>
    var files: map<Ino, File>
    ghost var handles: multiset<Ino>

    ghost predicate Valid()
      reads this
    {
      |entries| == NINODE && Exact(entries, handles) && AllLoaded(entries, files)
    }

    constructor (files: map<Ino, File>)
      ensures Valid() && handles == multiset{} && this.files == files
    {
      entries := seq(NINODE, _ => Entry(Ino(0, 0), 0, false));
      this.files := files;
      handles := multiset{};
    }

    /** iget: the entry for this inode, or a free one; None is the panic "no inodes". */
    method Iget(ino: Ino) returns (slot: Option<nat>)
      requires Valid()
      modifies this`entries, this`handles
      ensures Valid()
      ensures slot.None? <==> (forall i: nat | i < NINODE :: old(entries)[i].ref > 0 && old(entries)[i].ino != ino)
      ensures slot.None? ==> entries == old(entries) && handles == old(handles)
      ensures slot.Some? ==> handles == old(handles) + multiset{ino} && HeldAt(entries, ino, slot.value)
      ensures slot.Some? ==> forall i: nat | i < NINODE :: i != slot.value ==> entries[i] == old(entries)[i]
      ensures slot.Some? ==> HeldAt(old(entries), ino, slot.value) || old(entries)[slot.value].ref == 0
    {
      var empty: Option<nat> := None;
      var i := 0;
      while i < NINODE
        invariant 0 <= i <= NINODE && entries == old(entries) && handles == old(handles)
        invariant forall k: nat | k < i :: !HeldAt(entries, ino, k)
        invariant empty.Some? ==> empty.value < NINODE && entries[empty.value].ref == 0
        invariant empty.None? ==> forall k: nat | k < i :: entries[k].ref > 0
      {
        if entries[i].ref > 0 && entries[i].ino == ino {
          assert HeldAt(entries, ino, i);
          MoreExact(entries, handles, i);
          assert Loaded(entries, files, i);
          StillLoaded(entries, files, i, entries[i].(ref := entries[i].ref + 1));
          entries := entries[i := entries[i].(ref := entries[i].ref + 1)];
          handles := handles + multiset{ino};
          return Some(i);
        }
        if empty.None? && entries[i].ref == 0 {
          empty := Some(i);
        }
        i := i + 1;
      }
      if empty.None? {
        forall k: nat | k < NINODE ensures entries[k].ref > 0 && entries[k].ino != ino {
          assert !HeldAt(entries, ino, k);
        }
        return None;
      }
      NewExact(entries, handles, empty.value, ino);
      StillLoaded(entries, files, empty.value, Entry(ino, 1, false));
      entries := entries[empty.value := Entry(ino, 1, false)];
      handles := handles + multiset{ino};
      slot := empty;
    }

    method Idup(slot: nat)
      requires Valid() && slot < NINODE && entries[slot].ref > 0
      modifies this`entries, this`handles
      ensures Valid() && handles == old(handles) + multiset{entries[slot].ino}
      ensures entries == old(entries)[slot := old(entries)[slot].(ref := old(entries)[slot].ref + 1)]
    {
      MoreExact(entries, handles, slot);
      assert Loaded(entries, files, slot);
      StillLoaded(entries, files, slot, entries[slot].(ref := entries[slot].ref + 1));
      handles := handles + multiset{entries[slot].ino};
      entries := entries[slot := entries[slot].(ref := entries[slot].ref + 1)];
    }

    /** ilock, as far as the walk needs it; false is the panic "no type". */
    method Ilock(slot: nat) returns (ok: bool)
      requires Valid() && slot < NINODE && entries[slot].ref > 0
      modifies this`entries
      ensures Valid() && ok == Typed(files, entries[slot].ino)
      ensures entries == old(entries)[slot := old(entries)[slot].(valid := ok)]
    {
      assert Loaded(entries, files, slot);
      ok := entries[slot].valid || (entries[slot].ino in files && files[entries[slot].ino].kind != 0);
      MarkExact(entries, handles, slot, ok);
      StillLoaded(entries, files, slot, entries[slot].(valid := ok));
      entries := entries[slot := entries[slot].(valid := ok)];
    }

    /** iput: drops a handle.  The last one to an inode without links frees it on disk. */
    method Iput(slot: nat)
      requires Valid() && slot < NINODE && entries[slot].ref > 0
      modifies this
      ensures Valid() && handles == old(handles) - multiset{old(entries)[slot].ino}
      ensures forall i: nat | i < NINODE :: i != slot ==> entries[i] == old(entries)[i]
      ensures entries[slot].ino == old(entries)[slot].ino && entries[slot].ref == old(entries)[slot].ref - 1
      ensures Linked(old(files), entries[slot].ino) || old(handles)[entries[slot].ino] > 1 ==>
        files == old(files) && entries[slot].valid == old(entries)[slot].valid
      ensures var ino := old(entries)[slot].ino;
        var last := old(entries)[slot].valid && old(handles)[ino] == 1
          && ino in old(files) && old(files)[ino].nlink == 0;
        files == (if last then old(files)[ino := File(0, 0, [])] else old(files))
        && entries[slot].valid == (old(entries)[slot].valid && !last)
    {
      var e := entries[slot];
      assert Loaded(entries, files, slot);
      LessExact(entries, handles, slot, e.valid);
      if e.ref == 1 && e.valid && files[e.ino].nlink == 0 {
        LessExact(entries, handles, slot, false);
        FreeLoaded(entries, handles, files, slot, File(0, 0, []));
        files := files[e.ino := File(0, 0, [])];
        e := e.(valid := false);
      } else {
        StillLoaded(entries, files, slot, e.(ref := e.ref - 1));
      }
      handles := handles - multiset{e.ino};
      entries := entries[slot := e.(ref := e.ref - 1)];
    }

    /** dirlookup: the first entry with this name, and a handle on its inode. */
    method DirLookup(slot: nat, name: string) returns (found: bool, next: Option<nat>)
      requires Valid() && slot < NINODE && entries[slot].ref > 0 && Typed(files, entries[slot].ino)
      modifies this`entries, this`handles
      ensures Valid() && entries[slot].ino == old(entries)[slot].ino && entries[slot].ref > 0
      ensures found == Lookup(files[entries[slot].ino].entries, name).Some?
      ensures !found || next.None? ==> handles == old(handles)
      ensures found && next.None? ==> Full(entries)
      ensures found && next.Some? ==>
        Gained(old(handles), handles, entries,
               Ino(entries[slot].ino.dev, Lookup(files[entries[slot].ino].entries, name).value), next.value)
      ensures Answers(files[entries[slot].ino].entries, name, entries[slot].ino.dev, found, next, entries)
    {
      var es := files[entries[slot].ino].entries;
      LookupFinds(es, name);
      var off := 0;
      while off < |es|
        invariant off <= |es| && Lookup(es[off..], name) == Lookup(es, name)
        invariant entries == old(entries) && handles == old(handles)
      {
        if es[off].inum != 0 {
          TruncEqual(name, es[off].name);
          var same := Namecmp(name, es[off].name);
          if same {
            found := true;
            next := Iget(Ino(entries[slot].ino.dev, es[off].inum));
            return;
          }
        }
        assert es[off..][1..] == es[off + 1..];
        off := off + 1;
      }
      found, next := false, None;
    }

    /** A step of namex: trades the handle on a directory for one on what it calls `name`. */
    method Descend(slot: nat, name: string, ghost base: multiset<Ino>) returns (found: bool, next: Option<nat>)
      requires Valid() && slot < NINODE && entries[slot].ref > 0 && Typed(files, entries[slot].ino)
      requires handles == base + multiset{entries[slot].ino}
      modifies this
      ensures Valid() && found == Lookup(old(files[entries[slot].ino].entries), name).Some?
      ensures !found ==> handles == base
      ensures found && next.None? ==> Full(entries) && files == old(files)
      ensures found && next.Some? ==>
        Gained(base, handles, entries,
               Ino(old(entries)[slot].ino.dev, Lookup(old(files[entries[slot].ino].entries), name).value),
               next.value)
      ensures Safe(old(files), base, old(entries)[slot].ino) ==> files == old(files)
    {
      found, next := DirLookup(slot, name);
      if found && next.None? {
        return;
      }
      Swap(slot, if found then next else None, base);
    }

    /** iput of the directory, with a handle on one of its entries' inodes, or on none. */
    method Swap(slot: nat, next: Option<nat>, ghost base: multiset<Ino>)
      requires Valid() && slot < NINODE && entries[slot].ref > 0
      requires next.None? ==> handles == base + multiset{entries[slot].ino}
      requires next.Some? ==> next.value < NINODE && entries[next.value].ref > 0
      requires next.Some? ==> handles == base + multiset{entries[slot].ino} + multiset{entries[next.value].ino}
      modifies this
      ensures Valid()
      ensures next.None? ==> handles == base
      ensures next.Some? ==> Gained(base, handles, entries, old(entries)[next.value].ino, next.value)
      ensures Safe(old(files), base, old(entries)[slot].ino) ==> files == old(files)
    {
      assert Counted(entries, handles, slot);
      if next.Some? {
        assert Counted(entries, handles, next.value);
        assert handles - multiset{entries[slot].ino} == base + multiset{entries[next.value].ino};
      }
      Iput(slot);
    }

    /** namex.  It ends with exactly one more handle when it finds something and with none otherwise,
        whatever is on disk.  When every inode that a directory names has a link or a handle, it finds
        what the components of the path lead to. */
    method Namex(path: string, parent: bool, cwd: nat) returns (r: Outcome)
      requires Valid() && cwd < NINODE && entries[cwd].ref > 0
      modifies this
      ensures Valid()
      ensures r.Found? ==>
        r.slot < NINODE && entries[r.slot].ref > 0 && handles == old(handles) + multiset{entries[r.slot].ino}
      ensures r.NotFound? ==> handles == old(handles)
      ensures Closed(old(files), old(handles)) ==>
        && files == old(files)
        && Agrees(r, entries, Walk(files, Origin(path, old(entries)[cwd].ino), Components(path), parent),
                  Components(path), parent)
      ensures Closed(old(files), old(handles)) && path != "" && path[0] == '/' ==>
        Answered(r, files, Ino(ROOTDEV, ROOTINO), path, parent, entries)
      ensures Closed(old(files), old(handles)) && (path == "" || path[0] != '/') ==>
        Answered(r, files, old(entries)[cwd].ino, path, parent, entries)
    {
      ghost var from := entries[cwd].ino;
      ghost var start := Origin(path, from);
      var ip := Begin(path, cwd);
      if ip.None? {
        r := Panic;
      } else {
        r := WalkFrom(ip.value, path, parent, old(handles));
      }
      if Closed(old(files), old(handles)) {
        NamexMeans(r, files, start, path, parent, entries);
      }
    }

    /** Where namex starts: the root for an absolute path, and otherwise the current directory. */
    method Begin(path: string, cwd: nat) returns (ip: Option<nat>)
      requires Valid() && cwd < NINODE && entries[cwd].ref > 0
      modifies this`entries, this`handles
      ensures Valid()
      ensures ip.None? ==> Full(entries)
      ensures ip.Some? ==> Gained(old(handles), handles, entries, Origin(path, old(entries)[cwd].ino), ip.value)
      ensures Origin(path, old(entries)[cwd].ino) == Ino(ROOTDEV, ROOTINO) || old(handles)[old(entries)[cwd].ino] > 0
    {
      if path != "" && path[0] == '/' {
        ip := Iget(Ino(ROOTDEV, ROOTINO));
      } else {
        assert Counted(entries, handles, cwd);
        Idup(cwd);
        ip := Some(cwd);
      }
    }

    /** iput of a handle taken during the walk. */
    method PutBack(slot: nat, ghost base: multiset<Ino>)
      requires Valid() && slot < NINODE && entries[slot].ref > 0 && handles == base + multiset{entries[slot].ino}
      modifies this
      ensures Valid() && handles == base
      ensures Safe(old(files), base, old(entries)[slot].ino) ==> files == old(files)
    {
      Iput(slot);
    }

    /** The loop of namex, from a directory it holds. */
    method WalkFrom(from: nat, path: string, parent: bool, ghost base: multiset<Ino>) returns (r: Outcome)
      requires Valid() && from < NINODE && entries[from].ref > 0 && handles == base + multiset{entries[from].ino}
      modifies this
      ensures Valid()
      ensures r.Found? ==> r.slot < NINODE && entries[r.slot].ref > 0 && handles == base + multiset{entries[r.slot].ino}
      ensures r.NotFound? ==> handles == base
      ensures Closed(old(files), base) && Safe(old(files), base, old(entries)[from].ino) ==>
        && files == old(files)
        && Agrees(r, entries, Walk(files, old(entries)[from].ino, Components(path), parent),
                  Components(path), parent)
    {
      ghost var closed := Closed(files, base) && Safe(files, base, entries[from].ino);
      ghost var place := Walk(files, entries[from].ino, Components(path), parent);
      var ip: nat, p := from, path;
      while true
        invariant Valid() && ip < NINODE && entries[ip].ref > 0 && handles == base + multiset{entries[ip].ino}
        invariant Components(p) != [] ==> Components(path) != [] && Last(Components(p)) == Last(Components(path))
        invariant closed ==> files == old(files) && Safe(files, base, entries[ip].ino)
        invariant closed ==> Walk(files, entries[ip].ino, Components(p), parent) == place
        decreases |p|
      {
        var elem := SkipElem(p);
        if elem.None? {
          break;
        }
        var name, rest := elem.value.0, elem.value.1;
        var ok := Ilock(ip);
        if !ok {
          return Panic;
        }
        if files[entries[ip].ino].kind != T_DIR {
          PutBack(ip, base);
          return NotFound;
        }
        if parent && rest == "" {
          return Found(ip, name);
        }
        ghost var dir := entries[ip].ino;
        LookupTrunc(files[dir].entries, Components(p)[0]);
        assert closed ==> SafeNames(files, base, dir) && SafeName(files, base, dir, name);
        var found, next := Descend(ip, name, base);
        if !found {
          return NotFound;
        }
        if next.None? {
          return Panic;
        }
        ip, p := next.value, rest;
      }
      if parent {
        PutBack(ip, base);
        return NotFound;
      }
      r := Found(ip, "");
    }
  }

  /** What namex answers for a path that is these names: the inode they lead to, or their parent directory and
      the last name; or that they lead nowhere; or it panics for want of a table entry or on an inode without
      a type along the way. */
  ghost predicate Reaches(r: Outcome, files: map<Ino, File>, from: Ino, names: seq<string>, parent: bool,
      table: seq<Entry>)
  {
    match r
    case Found(slot, name) =>
      && slot < |table| && LeadsTo(files, from, names, parent, table[slot].ino)
      && (parent ==> |name| <= DIRSIZ && SameName(name, names[|names| - 1]))
    case NotFound => forall to :: !LeadsTo(files, from, names, parent, to)
    case Panic => Full(table) || exists k: nat, at :: BreaksAt(files, from, names, k, at)
  }

  /** The names lead to the inode; or all but the last lead to it, and it is a directory. */
  ghost predicate LeadsTo(files: map<Ino, File>, from: Ino, names: seq<string>, parent: bool, to: Ino) {
    if parent then
      names != [] && Leads(files, from, names[..|names| - 1], to) && Typed(files, to) && files[to].kind == T_DIR
    else Leads(files, from, names, to)
  }

  ghost predicate Answered(r: Outcome, files: map<Ino, File>, from: Ino, path: string, parent: bool,
      table: seq<Entry>)
  {
    forall names | PathIs(path, names) :: Reaches(r, files, from, names, parent, table)
  }

  lemma NamexMeans(r: Outcome, files: map<Ino, File>, from: Ino, path: string, parent: bool, table: seq<Entry>)
    requires Agrees(r, table, Walk(files, from, Components(path), parent), Components(path), parent)
    ensures Answered(r, files, from, path, parent, table)
  {
    var names := Components(path);
    forall to ensures LeadsTo(files, from, names, parent, to) <==> Walk(files, from, names, parent) == At(to) {
      WalkIs(files, from, names, to);
      ParentIs(files, from, names, to);
    }
    BrokenIs(files, from, names, parent);
    if r.Found? && parent {
      TruncEqual(r.name, Last(names));
    }
    forall ns | PathIs(path, ns) ensures ns == names {
      ComponentsArePath(path, ns);
    }
  }

  /** The search for a name finds nothing exactly if no entry in use has it, and otherwise the handle is on the
      inode of the first entry that does. */
  ghost predicate Answers(es: seq<Dirent>, name: string, dev: nat, found: bool, next: Option<nat>, table: seq<Entry>) {
    if !found then NoHit(es, name)
    else exists k: nat :: FirstHit(es, name, k) && (next.Some? ==> HeldAt(table, Ino(dev, es[k].inum), next.value))
  }

  function Last(names: seq<string>): string
    requires names != []
  {
    names[|names| - 1]
  }

  function Origin(path: string, cwd: Ino): Ino {
    if path != "" && path[0] == '/' then Ino(ROOTDEV, ROOTINO) else cwd
  }

  /** The outcome says where the walk leads; the parent is found together with the last name. */
  ghost predicate Agrees(r: Outcome, entries: seq<Entry>, place: Place, names: seq<string>, parent: bool) {
    match r
    case Found(slot, name) =>
      && slot < |entries| && place == At(entries[slot].ino)
      && (parent ==> names != [] && name == Trunc(Last(names)))
    case NotFound => place == Nowhere
    case Panic => place == Broken || Full(entries)
  }

  ghost predicate Gained(before: multiset<Ino>, after: multiset<Ino>, entries: seq<Entry>, ino: Ino, slot: nat) {
    HeldAt(entries, ino, slot) && after == before + multiset{ino}
  }

  /** No entry of the table is free. */
  ghost predicate Full(entries: seq<Entry>) {
    forall i: nat | i < |entries| :: entries[i].ref > 0
  }

  /** An inode that dropping a handle taken during the walk cannot free. */
  ghost predicate Safe(files: map<Ino, File>, handles: multiset<Ino>, ino: Ino) {
    Linked(files, ino) || handles[ino] > 0
  }

  ghost predicate SafeNames(files: map<Ino, File>, handles: multiset<Ino>, ino: Ino) {
    ino in files ==> forall name :: SafeName(files, handles, ino, name)
  }

  ghost predicate SafeName(files: map<Ino, File>, handles: multiset<Ino>, ino: Ino, name: string)
    requires ino in files
  {
    var hit := Lookup(files[ino].entries, name);
    hit.Some? ==> Safe(files, handles, Ino(ino.dev, hit.value))
  }

  ghost predicate Closed(files: map<Ino, File>, handles: multiset<Ino>) {
    Safe(files, handles, Ino(ROOTDEV, ROOTINO)) && forall ino :: SafeNames(files, handles, ino)
  }

  lemma FreeLoaded(entries: seq<Entry>, handles: multiset<Ino>, files: map<Ino, File>, i: nat, f: File)
    requires Exact(entries, handles) && AllLoaded(entries, files) && i < |entries| && entries[i].ref == 1
    ensures AllLoaded(entries[i := Entry(entries[i].ino, 0, false)], files[entries[i].ino := f])
  {
    var es, fs := entries[i := Entry(entries[i].ino, 0, false)], files[entries[i].ino := f];
    forall k: nat ensures Loaded(es, fs, k) {
      assert Loaded(entries, files, k) && OneSlot(entries, i, k);
    }
  }

  predicate Linked(files: map<Ino, File>, ino: Ino) {
    ino in files && files[ino].nlink > 0
  }

  lemma MarkExact(entries: seq<Entry>, handles: multiset<Ino>, i: nat, valid: bool)
    requires Exact(entries, handles) && i < |entries| && entries[i].ref > 0
    ensures Exact(entries[i := entries[i].(valid := valid)], handles)
  {
    var e := entries[i := entries[i].(valid := valid)];
    forall j: nat, k: nat ensures OneSlot(e, j, k) {
      assert OneSlot(entries, j, k);
    }
    forall j: nat ensures Counted(e, handles, j) {
      assert Counted(entries, handles, j);
    }
    forall x ensures Held(e, handles, x) {
      assert Held(entries, handles, x);
      if handles[x] > 0 {
        var k: nat :| HeldAt(entries, x, k);
        assert HeldAt(e, x, k);
      }
    }
  }
}
