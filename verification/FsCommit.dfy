/** What a commit makes durable (kernel/log.c:192-202 under kernel/fs.c): the blocks in the log
    header go home, and the file system a reboot would find there is the one in memory. */
module FsCommit {
  import opened Blocks
  import opened FsLayout
  import opened FsOwnership
  import opened FsState
  import opened FsWrite

  function DiskInodes(sb: Superblock, blocks: seq<Block>): (t: seq<Inode>)
    requires sb.Valid() && |blocks| == sb.size
    ensures |t| == sb.ninodes && forall i :: 0 <= i < sb.ninodes ==> t[i] == OnDisk(sb, blocks, i)
  {
    seq(sb.ninodes, i requires 0 <= i < sb.ninodes => OnDisk(sb, blocks, i))
  }

  // Home blocks after the logged blocks were installed.
  function Installed(base: seq<Block>, blocks: seq<Block>, logged: set<nat>): (r: seq<Block>)
    requires |base| == |blocks|
    ensures |r| == |base|
    ensures forall b :: 0 <= b < |r| ==> r[b] == if b in logged then blocks[b] else base[b]
  {
    seq(|base|, b requires 0 <= b < |base| => if b in logged then blocks[b] else base[b])
  }

  // What a machine that starts from home blocks `base` knows.
  function Mounted(sb: Superblock, base: seq<Block>, owner: map<nat, Slot>): State
    requires sb.Valid() && |base| == sb.size
  {
    State(Image(base, DiskInodes(sb, base)), {}, {}, {}, owner, base)
  }

  // Blocks nobody owns do not matter.
  ghost predicate SameOwned(sb: Superblock, m: Image, m': Image, owner: map<nat, Slot>) {
    && m'.inodes == m.inodes && |m'.blocks| == |m.blocks| == sb.size
    && forall b :: b in owner && b < sb.size ==> m'.blocks[b] == m.blocks[b]
  }

  lemma FreeBlocksDoNotMatter(sb: Superblock, m: Image, m': Image, owner: map<nat, Slot>)
    requires Owned(sb, m, owner, {}) && SameOwned(sb, m, m', owner)
    ensures Owned(sb, m', owner, {}) && SamePointers(m, m')
    ensures forall i, k :: 0 <= i && 0 <= k ==> ByteAt(m', i, k) == ByteAt(m, i, k)
  {
    PtrFrameOwned(sb, m, m', owner);
    MapBitsKept(sb, m.blocks, m'.blocks, owner);
    forall i, k | 0 <= i && 0 <= k
      ensures ByteAt(m', i, k) == ByteAt(m, i, k)
    {
      var a := Ptr(m, DataSlot(i, k / BSIZE));
      assert a != 0 ==> a in owner;
    }
  }

  // After a commit, the file system on disk is the one in memory: same inodes, same trees, same bytes.
  lemma CommitIsDurable(sb: Superblock, st: State)
    requires Good(sb, st, {})
    ensures Shape(sb, st.img) && |st.base| == sb.size
    ensures var base := Installed(st.base, st.img.blocks, st.logged);
            var st' := Mounted(sb, base, st.owner);
            && Good(sb, st', {}) && st'.img.inodes == st.img.inodes
            && forall i :: 0 <= i < sb.ninodes ==> Content(st'.img, i) == Content(st.img, i)
  {
    GoodShape(sb, st);
    var base := Installed(st.base, st.img.blocks, st.logged);
    var st' := Mounted(sb, base, st.owner);
    OwnedBlocksCommitted(sb, st);
    hide Owned, Ptr, ByteAt, OnDisk, Agrees, NoHoles;
    forall i | 0 <= i < sb.ninodes
      ensures st'.img.inodes[i] == st.img.inodes[i]
    {
      assert Synced(sb, st, i);
      InodeBlockCommitted(sb, st, base, i);
    }
    assert st'.img.inodes == st.img.inodes;
    FreeBlocksDoNotMatter(sb, st.img, st'.img, st.owner);
    forall i | 0 <= i < sb.ninodes
      ensures NoHoles(st'.img, i) && Synced(sb, st', i) && Content(st'.img, i) == Content(st.img, i)
    {
      SameFile(st.img, st'.img, i);
    }
    MountedAgrees(sb, base, st.owner);
  }

  lemma SameFile(m: Image, m': Image, i: nat)
    requires i < |m.inodes| && m'.inodes == m.inodes && SamePointers(m, m') && NoHoles(m, i)
    requires forall i, k :: 0 <= i && 0 <= k ==> ByteAt(m', i, k) == ByteAt(m, i, k)
    ensures NoHoles(m', i) && Content(m', i) == Content(m, i)
  {
    hide Ptr, ByteAt;
  }

  lemma GoodShape(sb: Superblock, st: State)
    requires Good(sb, st, {})
    ensures Shape(sb, st.img) && |st.base| == sb.size && Owned(sb, st.img, st.owner, {})
  {
  }

  lemma MountedAgrees(sb: Superblock, base: seq<Block>, owner: map<nat, Slot>)
    requires sb.Valid() && |base| == sb.size
    ensures Agrees(sb, Mounted(sb, base, owner), {})
  {
  }

  lemma OwnedBlocksCommitted(sb: Superblock, st: State)
    requires Ready(sb, st) && |st.base| == |st.img.blocks| == sb.size
    ensures forall b :: b in st.owner && b < sb.size ==>
      Installed(st.base, st.img.blocks, st.logged)[b] == st.img.blocks[b]
  {
  }

  lemma InodeBlockCommitted(sb: Superblock, st: State, base: seq<Block>, i: nat)
    requires Ready(sb, st) && |base| == |st.img.blocks| == sb.size && i < sb.ninodes
    requires forall b :: b in st.owner && b < sb.size ==> base[b] == st.img.blocks[b]
    ensures OnDisk(sb, base, i) == OnDisk(sb, st.img.blocks, i)
  {
    assert sb.IBlock(i) < sb.Nmeta();
    assert sb.IBlock(i) in st.owner;
  }

  // Changing fields other than addrs, with the size at most the old one, and writing the inode back.
  lemma InodeFieldsSet(sb: Superblock, st: State, i: nat, ino: Inode)
    requires Good(sb, st, {}) && i < sb.ninodes && i < |st.img.inodes|
    requires ino.addrs == st.img.inodes[i].addrs && ino.size == st.img.inodes[i].size && FreeIsEmpty(ino)
    ensures Shape(sb, st.img)
    ensures var st' := Iupdated(sb, st.(img := st.img.(inodes := st.img.inodes[i := ino])), i);
            && Good(sb, st', {}) && |st'.img.inodes| == |st.img.inodes|
            && forall j :: 0 <= j < sb.ninodes ==> Content(st'.img, j) == Content(st.img, j)
  {
    hide Ready, Ptr, ByteAt, OnDisk;
    GoodFacts(sb, st, i);
    assert Good(sb, st, {i});
    SettleInode(sb, st, i, ino);
    var st' := Iupdated(sb, st.(img := st.img.(inodes := st.img.inodes[i := ino])), i);
    forall j | 0 <= j < sb.ninodes
      ensures Content(st'.img, j) == Content(st.img, j)
    {
    }
  }

  // A new inode replaces a free one.
  lemma InodeAllocated(sb: Superblock, st: State, i: nat, typ: Half)
    requires Good(sb, st, {}) && i < sb.ninodes && i < |st.img.inodes| && st.img.inodes[i].typ == 0 && typ != 0
    ensures Shape(sb, st.img)
    ensures var ino := Inode(typ, 0, 0, 0, 0, NoAddrs());
            var st' := Iupdated(sb, st.(img := st.img.(inodes := st.img.inodes[i := ino])), i);
            && Good(sb, st', {}) && |st'.img.inodes| == |st.img.inodes|
            && forall j :: 0 <= j < sb.ninodes ==> Content(st'.img, j) == Content(st.img, j)
  {
    hide Ready, Ptr, ByteAt, NoHoles, OnDisk, Content;
    GoodFacts(sb, st, i);
    InodeFieldsSet(sb, st, i, Inode(typ, 0, 0, 0, 0, NoAddrs()));
  }

  lemma SyncedFacts(sb: Superblock, st: State, i: nat)
    requires Synced(sb, st, i)
    ensures sb.Valid() && |st.img.blocks| == sb.size && i < sb.ninodes
    ensures i < |st.img.inodes| && OnDisk(sb, st.img.blocks, i) == st.img.inodes[i]
  {
  }

  // Committing leaves the in-memory state consistent, with nothing left to log.
  lemma CommittedGood(sb: Superblock, st: State)
    requires Good(sb, st, {})
    ensures Shape(sb, st.img) && |st.base| == sb.size
    ensures var base := Installed(st.base, st.img.blocks, st.logged);
            Good(sb, st.(logged := {}, mine := {}, early := {}, base := base), {})
  {
    GoodShape(sb, st);
    OwnedBlocksCommitted(sb, st);
    hide Owned, NoHoles, OnDisk;
    var st' := st.(logged := {}, mine := {}, early := {}, base := Installed(st.base, st.img.blocks, st.logged));
    forall j | 0 <= j < |st'.img.inodes|
      ensures Synced(sb, st', j) && NoHoles(st'.img, j)
    {
      assert Synced(sb, st, j);
    }
  }

  // Who logged what does not matter.
  lemma AnyOperation(sb: Superblock, st: State, mine: set<nat>, early: set<nat>)
    requires Good(sb, st, {})
    ensures Good(sb, st.(mine := mine, early := early), {})
  {
    hide Owned, NoHoles, OnDisk;
    forall j | 0 <= j < |st.img.inodes|
      ensures Synced(sb, st.(mine := mine, early := early), j)
    {
      assert Synced(sb, st, j);
    }
  }

  // The log's own blocks do not matter to the file system.
  lemma HomesDecide(sb: Superblock, base: seq<Block>, disk: seq<Block>, owner: map<nat, Slot>)
    requires sb.Valid() && |base| == |disk| == sb.size && Good(sb, Mounted(sb, base, owner), {})
    requires forall b :: sb.Home(b) ==> disk[b] == base[b]
    ensures var st, st' := Mounted(sb, base, owner), Mounted(sb, disk, owner);
            && Good(sb, st', {}) && st'.img.inodes == st.img.inodes
            && forall i :: 0 <= i < sb.ninodes ==> Content(st'.img, i) == Content(st.img, i)
  {
    hide Owned, Ptr, ByteAt, OnDisk, Agrees, NoHoles;
    var st, st' := Mounted(sb, base, owner), Mounted(sb, disk, owner);
    GoodShape(sb, st);
    forall i | 0 <= i < sb.ninodes
      ensures OnDisk(sb, disk, i) == OnDisk(sb, base, i)
    {
      HomeInode(sb, base, disk, i);
    }
    assert st'.img.inodes == st.img.inodes;
    SameTreesFacts(sb, st.img, st'.img, owner, {});
    MountedAgrees(sb, disk, owner);
    forall i | 0 <= i < sb.ninodes
      ensures Synced(sb, st', i) && NoHoles(st'.img, i) && Content(st'.img, i) == Content(st.img, i)
    {
      SameFile(st.img, st'.img, i);
    }
  }

  lemma HomeInode(sb: Superblock, base: seq<Block>, disk: seq<Block>, i: nat)
    requires sb.Valid() && |base| == |disk| == sb.size && i < sb.ninodes
    requires forall b :: sb.Home(b) ==> disk[b] == base[b]
    ensures OnDisk(sb, disk, i) == OnDisk(sb, base, i)
  {
    assert sb.Home(sb.IBlock(i));
  }

  // A buffer that was not logged is recycled: an unlogged change is lost, and no file notices.
  lemma EvictKeepsFiles(sb: Superblock, st: State, b: nat)
    requires Good(sb, st, {}) && b !in st.logged && b < |st.img.blocks| && b < |st.base|
    ensures Shape(sb, st.img)
    ensures var st' := st.(img := st.img.(blocks := st.img.blocks[b := st.base[b]]));
            && Good(sb, st', {})
            && forall i :: 0 <= i < sb.ninodes ==> Content(st'.img, i) == Content(st.img, i)
  {
    hide Owned, Ptr, ByteAt, OnDisk, NoHoles;
    GoodShape(sb, st);
    var st' := st.(img := st.img.(blocks := st.img.blocks[b := st.base[b]]));
    FreeBlocksDoNotMatter(sb, st.img, st'.img, st.owner);
    forall i | 0 <= i < sb.ninodes
      ensures NoHoles(st'.img, i) && Synced(sb, st', i) && Content(st'.img, i) == Content(st.img, i)
    {
      assert Synced(sb, st, i);
      SameFile(st.img, st'.img, i);
      InodeBlockCommitted(sb, st, st'.img.blocks, i);
    }
  }
}
