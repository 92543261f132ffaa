// The block tree of an inode (fs.c): eleven direct pointers, one indirect and
// one double-indirect block, over a disk with a free bitmap.
module FileTree {
  import opened Common
  import opened Blocks
  import opened Bits

  const NDIRECT := 11
  const NINDIRECT := NWORDS
  const NDOUBLE := 16384 // NINDIRECT * NINDIRECT
  const MAXFILE := NDIRECT + NINDIRECT + NDOUBLE
  const IPB := 8 // inodes per block

  type Addrs = a: seq<Word> | |a| == NDIRECT + 2 witness seq(NDIRECT + 2, i => 0)

  // struct dinode as words: type and major, minor and nlink, size, addrs.
  datatype Inode = Inode(kind: Word, links: Word, size: Word, addrs: Addrs)

  // The superblock fields in use.
  datatype Super = Super(size: nat, ninodes: nat, nlog: nat, inodestart: nat, bmapstart: nat) {
    // The first block after the bitmap.
    function DataStart(): nat { bmapstart + size / BPB + 1 }

    // How many blocks log_write lets into the log header: below LOGSIZE and
    // below log.size - 1, where log.size is nlog.
    function HeaderLimit(): int { if nlog - 1 < LOGSIZE then nlog - 1 else LOGSIZE }

    ghost predicate Ok(disk: Disk) {
      && 0 < inodestart && inodestart + ninodes / IPB < bmapstart && nlog < 0x8000_0000
      && DataStart() <= size == |disk| <= 0x1_0000_0000
    }
  }

  // A place that holds a block pointer: addrs[k] of inode i, or word j of the
  // index block that another place points to.
  datatype Role = Root(i: nat, k: nat) | Child(parent: Role, j: nat)

  // Levels of index blocks below the block that the place points to.
  function Height(r: Role): int {
    match r
    case Root(_, k) => if k < NDIRECT then 0 else k - NDIRECT + 1
    case Child(p, _) => Height(p) - 1
  }

  // The places there are in a file system of n inodes.
  predicate Shape(r: Role, n: nat) {
    match r
    case Root(i, k) => i < n && k < NDIRECT + 2
    case Child(p, j) => Shape(p, n) && Height(p) > 0 && j < NINDIRECT
  }

  function InodeOf(r: Role): nat {
    match r
    case Root(i, _) => i
    case Child(p, _) => InodeOf(p)
  }

  // The pointer in a place, 0 when there is none.
  function Ptr(mem: seq<Inode>, disk: Disk, r: Role): (b: nat)
    requires Shape(r, |mem|)
  {
    match r
    case Root(i, k) => mem[i].addrs[k]
    case Child(p, j) =>
      var q := Ptr(mem, disk, p);
      if q == 0 || q >= |disk| then 0 else GetWord(disk[q], j)
  }

  predicate Used(disk: Disk, sb: Super, b: nat)
    requires sb.bmapstart + b / BPB < |disk|
  {
    TestBit(disk[sb.bmapstart + b / BPB], b % BPB)
  }

  // owner lists the data blocks in use, each with the one place that points
  // to it.
  ghost predicate Owned(mem: seq<Inode>, disk: Disk, sb: Super, owner: map<nat, Role>) {
    && (forall r :: Shape(r, |mem|) && Ptr(mem, disk, r) != 0 ==>
          Ptr(mem, disk, r) in owner && owner[Ptr(mem, disk, r)] == r)
    && (forall b :: b in owner ==>
          sb.DataStart() <= b < |disk| && Shape(owner[b], |mem|) && Ptr(mem, disk, owner[b]) == b)
  }

  // A bit is set iff the block is metadata, owned, or just allocated.
  ghost predicate BitmapOk(disk: Disk, sb: Super, owner: map<nat, Role>, loose: set<nat>)
    requires sb.Ok(disk)
  {
    forall b :: 0 <= b < sb.size ==>
      (Used(disk, sb, b) <==> b < sb.DataStart() || b in owner || b in loose)
  }

  // Disks that agree on every index block in use.
  ghost predicate SameIndex(disk: Disk, disk': Disk, owner: map<nat, Role>) {
    |disk| == |disk'| && forall b :: b in owner && b < |disk| && Height(owner[b]) > 0 ==> disk'[b] == disk[b]
  }

  // Writing data blocks, the bitmap, inode blocks or unused blocks moves no
  // pointer.
  lemma {:induction false} SamePtr(mem: seq<Inode>, disk: Disk, disk': Disk, sb: Super, owner: map<nat, Role>, r: Role)
    requires Owned(mem, disk, sb, owner) && SameIndex(disk, disk', owner) && Shape(r, |mem|)
    ensures Ptr(mem, disk', r) == Ptr(mem, disk, r)
  {
    if r.Child? {
      SamePtr(mem, disk, disk', sb, owner, r.parent);
    }
  }

  lemma SameOwned(mem: seq<Inode>, disk: Disk, disk': Disk, sb: Super, owner: map<nat, Role>)
    requires Owned(mem, disk, sb, owner) && SameIndex(disk, disk', owner)
    ensures Owned(mem, disk', sb, owner)
    ensures forall r :: Shape(r, |mem|) ==> Ptr(mem, disk', r) == Ptr(mem, disk, r)
  {
    forall r | Shape(r, |mem|)
      ensures Ptr(mem, disk', r) == Ptr(mem, disk, r)
    {
      SamePtr(mem, disk, disk', sb, owner, r);
    }
  }

  // Pointers are injective: no block is in two places.
  lemma PtrInjective(mem: seq<Inode>, disk: Disk, sb: Super, owner: map<nat, Role>, r: Role, r': Role)
    requires Owned(mem, disk, sb, owner) && Shape(r, |mem|) && Shape(r', |mem|)
    requires Ptr(mem, disk, r) == Ptr(mem, disk, r') != 0
    ensures r == r'
  {
  }

  // Storing b in a place of addrs that was empty.
  ghost function PutRoot(mem: seq<Inode>, i: nat, k: nat, b: Word): seq<Inode>
    requires i < |mem| && k < NDIRECT + 2
  {
    mem[i := mem[i].(addrs := mem[i].addrs[k := b])]
  }

  lemma {:induction false} PutRootPtr(mem: seq<Inode>, disk: Disk, sb: Super, owner: map<nat, Role>, i: nat, k: nat,
                                      b: Word, r: Role)
    requires Owned(mem, disk, sb, owner) && i < |mem| && k < NDIRECT + 2 && Shape(r, |mem|)
    requires mem[i].addrs[k] == 0 && b < |disk| && disk[b] == ZeroBlock()
    ensures Ptr(PutRoot(mem, i, k, b), disk, r) == if r == Root(i, k) then b else Ptr(mem, disk, r)
  {
    if r.Child? {
      PutRootPtr(mem, disk, sb, owner, i, k, b, r.parent);
    }
  }

  lemma PutRootOwned(mem: seq<Inode>, disk: Disk, sb: Super, owner: map<nat, Role>, i: nat, k: nat, b: Word)
    requires Owned(mem, disk, sb, owner) && i < |mem| && k < NDIRECT + 2
    requires mem[i].addrs[k] == 0 && sb.DataStart() <= b < |disk| && disk[b] == ZeroBlock() && b !in owner
    ensures Owned(PutRoot(mem, i, k, b), disk, sb, owner[b := Root(i, k)])
    ensures forall r :: Shape(r, |mem|) && r != Root(i, k) ==> Ptr(PutRoot(mem, i, k, b), disk, r) == Ptr(mem, disk, r)
  {
    forall r | Shape(r, |mem|)
      ensures Ptr(PutRoot(mem, i, k, b), disk, r) == if r == Root(i, k) then b else Ptr(mem, disk, r)
    {
      PutRootPtr(mem, disk, sb, owner, i, k, b, r);
    }
  }

  // Storing b in an empty word j of the index block q that place p points to.
  lemma {:induction false} PutChildPtr(mem: seq<Inode>, disk: Disk, sb: Super, owner: map<nat, Role>, p: Role, j: nat,
                                       b: Word, r: Role)
    requires Owned(mem, disk, sb, owner) && Shape(Child(p, j), |mem|) && Shape(r, |mem|)
    requires Ptr(mem, disk, p) in owner && Ptr(mem, disk, Child(p, j)) == 0
    requires b < |disk| && disk[b] == ZeroBlock() && b !in owner
    ensures var q := Ptr(mem, disk, p);
            Ptr(mem, disk[q := PutWord(disk[q], j, b)], r) == if r == Child(p, j) then b else Ptr(mem, disk, r)
  {
    if r.Child? {
      PutChildPtr(mem, disk, sb, owner, p, j, b, r.parent);
    }
  }

  lemma PutChildOwned(mem: seq<Inode>, disk: Disk, sb: Super, owner: map<nat, Role>, p: Role, j: nat, b: Word)
    requires Owned(mem, disk, sb, owner) && Shape(Child(p, j), |mem|)
    requires Ptr(mem, disk, p) in owner && Ptr(mem, disk, Child(p, j)) == 0
    requires sb.DataStart() <= b < |disk| && disk[b] == ZeroBlock() && b !in owner
    ensures var q := Ptr(mem, disk, p);
            var disk' := disk[q := PutWord(disk[q], j, b)];
            && Owned(mem, disk', sb, owner[b := Child(p, j)])
            && forall r :: Shape(r, |mem|) && r != Child(p, j) ==> Ptr(mem, disk', r) == Ptr(mem, disk, r)
  {
    var q := Ptr(mem, disk, p);
    var disk' := disk[q := PutWord(disk[q], j, b)];
    forall r | Shape(r, |mem|)
      ensures Ptr(mem, disk', r) == if r == Child(p, j) then b else Ptr(mem, disk, r)
    {
      PutChildPtr(mem, disk, sb, owner, p, j, b, r);
    }
  }

  // From one state to another, inode i may have gained blocks: new data blocks
  // are zero, and everything that was owned is where it was, with the data
  // it had.
  ghost predicate Extends(i: nat, mem: seq<Inode>, disk: Disk, owner: map<nat, Role>, mem': seq<Inode>, disk': Disk,
                          owner': map<nat, Role>, sb: Super)
  {
    && i < |mem| == |mem'| && |disk'| == |disk|
    && (forall x :: 0 <= x < |mem| && x != i ==> mem'[x] == mem[x])
    && mem'[i] == mem[i].(addrs := mem'[i].addrs)
    && (forall b :: b in owner ==> b in owner' && owner'[b] == owner[b])
    && (forall b :: b in owner && b < |disk| && Height(owner[b]) == 0 ==> disk'[b] == disk[b])
    && (forall b :: b in owner' && b !in owner ==> InodeOf(owner'[b]) == i)
    && (forall b :: b in owner' && b !in owner && b < |disk| && Height(owner'[b]) == 0 ==> disk'[b] == ZeroBlock())
    && (forall b :: 0 <= b < |disk| && b < sb.bmapstart ==> disk'[b] == disk[b])
  }

  lemma ExtendsSelf(i: nat, mem: seq<Inode>, disk: Disk, owner: map<nat, Role>, sb: Super)
    requires i < |mem|
    ensures Extends(i, mem, disk, owner, mem, disk, owner, sb)
  {
  }

  // A block b, fresh and zero, was put in place r of inode i; p is the index
  // block that changed, if any.
  lemma ExtendsOne(i: nat, mem: seq<Inode>, disk: Disk, owner: map<nat, Role>, mem': seq<Inode>, disk': Disk, sb: Super,
                   b: nat, r: Role)
    requires i < |mem| == |mem'| && |disk'| == |disk| && b < |disk| && b !in owner && InodeOf(r) == i
    requires forall x :: 0 <= x < |mem| && x != i ==> mem'[x] == mem[x]
    requires mem'[i] == mem[i].(addrs := mem'[i].addrs)
    requires disk'[b] == ZeroBlock()
    requires forall x :: x in owner && x < |disk| && Height(owner[x]) == 0 ==> disk'[x] == disk[x]
    requires forall x :: 0 <= x < |disk| && x < sb.bmapstart ==> disk'[x] == disk[x]
    ensures Extends(i, mem, disk, owner, mem', disk', owner[b := r], sb)
  {
  }

  lemma ExtendsTrans(i: nat, m: seq<Inode>, d: Disk, o: map<nat, Role>, m': seq<Inode>, d': Disk, o': map<nat, Role>,
                     m'': seq<Inode>, d'': Disk, o'': map<nat, Role>, sb: Super)
    requires Extends(i, m, d, o, m', d', o', sb) && Extends(i, m', d', o', m'', d'', o'', sb)
    ensures Extends(i, m, d, o, m'', d'', o'', sb)
  {
  }

  // bmap is stable: a pointer that was there stays.
  lemma ExtendsStable(i: nat, m: seq<Inode>, d: Disk, o: map<nat, Role>, m': seq<Inode>, d': Disk, o': map<nat, Role>,
                      sb: Super, r: Role)
    requires Extends(i, m, d, o, m', d', o', sb) && Owned(m, d, sb, o) && Owned(m', d', sb, o')
    requires Shape(r, |m|) && (Ptr(m, d, r) != 0 || InodeOf(r) != i)
    ensures Ptr(m', d', r) == Ptr(m, d, r)
  {
    if Ptr(m, d, r) != 0 {
      assert o'[Ptr(m, d, r)] == r;
    }
  }

  // The place of the pointer to block bn of file i.
  function Leaf(i: nat, bn: nat): (r: Role)
    requires bn < MAXFILE
    ensures Height(r) == 0 && InodeOf(r) == i
    ensures forall n: nat :: i < n ==> Shape(r, n)
  {
    if bn < NDIRECT then Root(i, bn)
    else if bn < NDIRECT + NINDIRECT then Child(Root(i, NDIRECT), bn - NDIRECT)
    else
      var m := bn - NDIRECT - NINDIRECT;
      var root := Root(i, NDIRECT + 1);
      assert Height(root) == 2 && InodeOf(root) == i && forall n: nat :: i < n ==> Shape(root, n);
      var mid := Child(root, m / NINDIRECT);
      assert Height(mid) == 1 && InodeOf(mid) == i && forall n: nat :: i < n ==> Shape(mid, n);
      Child(mid, m % NINDIRECT)
  }

  // Word j of index block q, 0 if there is no such block.
  function WordAt(disk: Disk, q: nat, j: nat): nat
    requires j < NINDIRECT
  {
    if q == 0 || q >= |disk| then 0 else GetWord(disk[q], j)
  }

  // The pointer to block bn in terms of addrs and of the words of index blocks.
  lemma LeafPtr(mem: seq<Inode>, disk: Disk, i: nat, bn: nat)
    requires i < |mem| && bn < MAXFILE
    ensures var addrs, b := mem[i].addrs, Ptr(mem, disk, Leaf(i, bn));
            && (bn < NDIRECT ==> b == addrs[bn])
            && (NDIRECT <= bn < NDIRECT + NINDIRECT ==> b == WordAt(disk, addrs[NDIRECT], bn - NDIRECT))
            && (NDIRECT + NINDIRECT <= bn ==>
                  var m := bn - NDIRECT - NINDIRECT;
                  b == WordAt(disk, WordAt(disk, addrs[NDIRECT + 1], m / NINDIRECT), m % NINDIRECT))
  {
    if bn >= NDIRECT + NINDIRECT {
      var m, root := bn - NDIRECT - NINDIRECT, Root(i, NDIRECT + 1);
      var mid := Child(root, m / NINDIRECT);
      assert Leaf(i, bn) == Child(mid, m % NINDIRECT);
      assert Height(root) == 2 && Shape(root, |mem|) && Height(mid) == 1;
      assert Ptr(mem, disk, root) == mem[i].addrs[NDIRECT + 1];
      assert Ptr(mem, disk, mid) == WordAt(disk, Ptr(mem, disk, root), m / NINDIRECT);
    }
  }

  // Different blocks of a file are in different places.
  lemma LeafInjective(i: nat, i': nat, bn: nat, bn': nat)
    requires bn < MAXFILE && bn' < MAXFILE && Leaf(i, bn) == Leaf(i', bn')
    ensures i == i' && bn == bn'
  {
  }

  // The blocks bmap passes through on the way to block bn, itself included.
  ghost function PathBlocks(mem: seq<Inode>, disk: Disk, i: nat, bn: nat): (bs: set<nat>)
    requires i < |mem| && bn < MAXFILE
  {
    var leaf := Leaf(i, bn);
    if bn < NDIRECT then {Ptr(mem, disk, leaf)}
    else if bn < NDIRECT + NINDIRECT then {Ptr(mem, disk, Root(i, NDIRECT)), Ptr(mem, disk, leaf)}
    else {Ptr(mem, disk, Root(i, NDIRECT + 1)), Ptr(mem, disk, leaf.parent), Ptr(mem, disk, leaf)}
  }

  // The slot of addrs that the path to block bn starts in.
  function RootSlot(bn: nat): (k: nat)
    ensures k < NDIRECT + 2
  {
    if bn < NDIRECT then bn else if bn < NDIRECT + NINDIRECT then NDIRECT else NDIRECT + 1
  }

  // The places bmap passes through on the way to block bn.
  function PathRoles(i: nat, bn: nat): (rs: set<Role>)
    requires bn < MAXFILE
  {
    var leaf := Leaf(i, bn);
    if bn < NDIRECT then {leaf}
    else if bn < NDIRECT + NINDIRECT then {Root(i, NDIRECT), leaf}
    else {Root(i, NDIRECT + 1), leaf.parent, leaf}
  }

  // When block bn is allocated, so is every index block on its path.
  lemma PathAllocated(mem: seq<Inode>, disk: Disk, sb: Super, owner: map<nat, Role>, i: nat, bn: nat)
    requires Owned(mem, disk, sb, owner) && i < |mem| && bn < MAXFILE && Ptr(mem, disk, Leaf(i, bn)) != 0
    ensures mem[i].addrs[RootSlot(bn)] != 0
    ensures forall b :: b in PathBlocks(mem, disk, i, bn) ==> b in owner && owner[b] in PathRoles(i, bn)
  {
    var leaf := Leaf(i, bn);
    if bn >= NDIRECT {
      assert Ptr(mem, disk, leaf.parent) != 0;
      assert Shape(leaf.parent, |mem|);
    }
  }
}
