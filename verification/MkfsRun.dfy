/** main of mkfs/mkfs.c: what the image holds, and what becomes of it when there are more files than inodes. */
module MkfsRun {
  import opened FsLayout
  import opened FsState
  import opened FsWrite
  import opened FsInode
  import opened Fs
  import opened Mkfs

  const DIRSIZ := 14
  const DIRENT := 16                 // sizeof(struct dirent)
  const ROOT := 1
  const T_DIR: Short := 1
  const T_FILE: Short := 2
  const DOT: Byte := 46

  /** struct dirent, with the inode number cut to 16 bits. */
  function Dirent(inum: nat, name: seq<Byte>): (d: seq<Byte>)
    requires |name| <= DIRSIZ
    ensures |d| == DIRENT
  {
    SplitShort(inum % 0x1_0000) + name + seq(DIRSIZ - |name|, _ => 0)
  }

  /** The root directory: ".", ".." and one entry for each file, whose inodes are numbered from 2. */
  ghost function Dir(names: seq<seq<Byte>>): (d: seq<Byte>)
    requires forall n :: n in names ==> |n| <= DIRSIZ
    ensures |d| == DIRENT * (2 + |names|)
  {
    if names == [] then Dirent(ROOT, [DOT]) + Dirent(ROOT, [DOT, DOT])
    else
      var k := |names| - 1;
      assert names[k] in names;
      Dir(names[..k]) + Dirent(k + 2, names[k])
  }

  datatype Outcome = Made | Died | Crowded

  /** The files written so far. */
  ghost predicate Has(sb: Super, s: State, names: seq<seq<Byte>>, files: seq<seq<Byte>>, k: nat)
    requires k <= |names| == |files|
  {
    && Refs(sb, s) && k + 2 <= sb.ninodes && s.inodes[ROOT].typ != 0
    && (forall n :: n in names[..k] ==> |n| <= DIRSIZ)
    && Content(sb, s, ROOT) == Dir(names[..k])
    && forall j :: 0 <= j < k ==> Content(sb, s, j + 2) == files[j]
  }

  /** The copy loop of main. */
  method AppendFile(img: Image, i: nat, data: seq<Byte>) returns (ok: bool)
    requires img.Valid() && i < img.sb.ninodes && img.inodes[i].typ != 0
    modifies img`disk, img`inodes, img`dinodes, img`owner, img`freeblock
    ensures !ok ==> old(img.inodes)[i].size + |data| > MAXFILE * BSIZE || img.freeblock > img.sb.size
    ensures ok ==> img.Valid() && Content(img.sb, img.S(), i) == old(Content(img.sb, img.S(), i)) + data
    ensures ok ==> forall j :: 0 <= j < img.sb.ninodes && j != i ==>
              Content(img.sb, img.S(), j) == old(Content(img.sb, img.S(), j)) && img.inodes[j] == old(img.inodes)[j]
    ensures ok ==> img.inodes[i].typ == old(img.inodes)[i].typ
  {
    hide Owners, NoHoles, Layout, FreeEmpty, Holds, Tight, Content;
    var done := 0;
    ghost var s0 := img.S();
    ghost var c := Content(img.sb, s0, i);
    assert c + data[..0] == c;
    while done < |data|
      invariant 0 <= done <= |data| && img.Valid() && img.inodes[i].typ == s0.inodes[i].typ
      invariant img.inodes[i].size == s0.inodes[i].size + done
      invariant Content(img.sb, img.S(), i) == c + data[..done]
      invariant forall j :: 0 <= j < img.sb.ninodes && j != i ==>
                              Content(img.sb, img.S(), j) == Content(img.sb, s0, j) && img.inodes[j] == s0.inodes[j]
    {
      var n := Min(BSIZE, |data| - done);
      ok := img.IAppend(i, data[done..done + n]);
      if !ok {
        return;
      }
      assert c + data[..done] + data[done..done + n] == c + data[..done + n];
      done := done + n;
    }
    assert data[..|data|] == data;
    ok := true;
  }

  /** One round of main's loop. */
  method AddFile(img: Image, name: seq<Byte>, data: seq<Byte>, k: nat, ghost names: seq<seq<Byte>>,
      ghost files: seq<seq<Byte>>) returns (ok: bool)
    requires img.Valid() && k < |names| == |files| && Has(img.sb, img.S(), names, files, k) && k + 2 < img.sb.ninodes
    requires img.freeinode == k + 2 && name == names[k] && data == files[k] && |name| <= DIRSIZ
    modifies img
    ensures !ok ==> |data| > MAXFILE * BSIZE || DIRENT * (3 + k) > MAXFILE * BSIZE || img.freeblock > img.sb.size
    ensures ok ==> img.Valid() && img.freeinode == k + 3 && Has(img.sb, img.S(), names, files, k + 1)
  {
    hide Owners, NoHoles, Entry, FreeEmpty, Holds, Tight, Content, Dir, Spared, PutInode, Layout, Has;
    ghost var s0 := img.S();
    HasRoot(img.sb, s0, names, files, k);
    FirstData(img.sb, s0);
    Where(img.sb, k + 2);
    var inum, _ := img.IAlloc(T_FILE);
    ghost var s1 := img.S();
    Fresh(img.sb, s1, inum);
    ok := img.IAppend(ROOT, Dirent(inum, name));
    if !ok {
      return;
    }
    ghost var s2 := img.S();
    assert Content(img.sb, s2, inum) == [] && [] + data == data;
    ok := AppendFile(img, inum, data);
    if ok {
      HasMore(img.sb, s0, img.S(), names, files, k);
    }
  }

  lemma HasRoot(sb: Super, s: State, names: seq<seq<Byte>>, files: seq<seq<Byte>>, k: nat)
    requires k <= |names| == |files| && Has(sb, s, names, files, k)
    ensures s.inodes[ROOT].typ != 0 && s.inodes[ROOT].size == DIRENT * (2 + k)
  {
    hide Refs, Content;
    assert |names[..k]| == k;
  }

  lemma HasMore(sb: Super, s: State, s': State, names: seq<seq<Byte>>, files: seq<seq<Byte>>, k: nat)
    requires k < |names| == |files| && Has(sb, s, names, files, k) && Refs(sb, s') && k + 2 < sb.ninodes
    requires |names[k]| <= DIRSIZ && s'.inodes[ROOT].typ != 0
    requires Content(sb, s', ROOT) == Content(sb, s, ROOT) + Dirent(k + 2, names[k])
    requires Content(sb, s', k + 2) == files[k]
    requires forall j :: 0 <= j < sb.ninodes && j != ROOT && j != k + 2 ==> Content(sb, s', j) == Content(sb, s, j)
    ensures Has(sb, s', names, files, k + 1)
  {
    hide Owners, NoHoles, Content, Dirent, Layout;
    assert names[..k + 1][..k] == names[..k] && names[..k + 1][k] == names[k];
  }

  /** Inode types are numbers of metadata blocks. */
  lemma FirstData(sb: Super, s: State)
    requires Refs(sb, s) && sb.ninodes > 0 && sb.bmapstart < sb.nmeta
    ensures T_FILE < sb.nmeta
  {}

  lemma Fresh(sb: Super, s: State, i: nat)
    requires Refs(sb, s) && i < sb.ninodes && s.inodes[i].size == 0
    ensures Content(sb, s, i) == []
  {}

  /** main. When it comes to its end, the image satisfies the invariant of the file system if and only if its root
      directory does not fill its last block, that is, if the number of entries is no multiple of 64; it then holds the
      files and a directory that names them. `Crowded` stands for what happens to files for which there is no inode. */
  method Build(fssize: nat, ninodes: nat, nlog: nat, names: seq<seq<Byte>>, files: seq<seq<Byte>>)
    returns (img: Image, r: Outcome)
    requires Layouted(fssize, ninodes, nlog).nmeta <= fssize && fssize + BPB < 0x8000_0000 && ninodes >= 2
    requires |names| == |files|
    ensures img.sb == Layouted(fssize, ninodes, nlog)
    ensures r.Crowded? ==> |files| + 2 > ninodes
    ensures r.Died? ==> || (exists k :: 0 <= k < |files| && (|names[k]| > DIRSIZ || |files[k]| > MAXFILE * BSIZE))
                        || DIRENT * (2 + |files|) > MAXFILE * BSIZE
                        || img.freeblock > img.sb.size || img.freeblock >= BPB
    ensures r.Made? ==> |files| + 2 <= ninodes && (Inv(img.sb, img.S()) <==> (2 + |files|) % 64 != 0)
    ensures r.Made? && (2 + |files|) % 64 != 0 ==>
              Holds(img.sb, img.disk, img.inodes) && FreeEmpty(img.inodes) && Shows(img.sb, img.S(), names, files)
  {
    hide Owners, NoHoles, Entry, Bits, FreeEmpty, Holds, Tight, Content, Dir, Layout, Layouted, Shows, Has;
    img := new Image(fssize, ninodes, nlog);
    FirstInodes(fssize, ninodes, nlog);
    r := Root(img, names, files);
    if !r.Made? {
      return;
    }
    r := AddAll(img, names, files);
    if !r.Made? {
      return;
    }
    ghost var s := img.S();
    HasRoot(img.sb, s, names, files, |files|);
    var ok := img.Finish();
    if !ok {
      return img, Died;
    }
    if (2 + |files|) % 64 != 0 {
      Finished(img.sb, s, img.S(), names, files);
    }
    r := Made;
  }

  /** The loop of main. */
  method AddAll(img: Image, names: seq<seq<Byte>>, files: seq<seq<Byte>>) returns (r: Outcome)
    requires img.Valid() && img.freeinode == 2 && |names| == |files| && Has(img.sb, img.S(), names, files, 0)
    modifies img
    ensures r.Crowded? ==> |files| + 2 > img.sb.ninodes
    ensures r.Died? ==> || (exists k :: 0 <= k < |files| && (|names[k]| > DIRSIZ || |files[k]| > MAXFILE * BSIZE))
                        || DIRENT * (2 + |files|) > MAXFILE * BSIZE || img.freeblock > img.sb.size
    ensures r.Made? ==> img.Valid() && |files| + 2 <= img.sb.ninodes && Has(img.sb, img.S(), names, files, |files|)
  {
    hide Sequential, FreeEmpty, Holds, Tight, Has;
    var k := 0;
    while k < |files|
      invariant 0 <= k <= |files| && img.Valid() && img.freeinode == k + 2 && Has(img.sb, img.S(), names, files, k)
    {
      if k + 2 >= img.sb.ninodes {
        return Crowded;
      }
      if |names[k]| > DIRSIZ {
        return Died;
      }
      var ok := AddFile(img, names[k], files[k], k, names, files);
      if !ok {
        return Died;
      }
      k := k + 1;
    }
    HasRoom(img.sb, img.S(), names, files);
    r := Made;
  }

  lemma HasRoom(sb: Super, s: State, names: seq<seq<Byte>>, files: seq<seq<Byte>>)
    requires |names| == |files| && Has(sb, s, names, files, |files|)
    ensures |files| + 2 <= sb.ninodes
  {
    hide Refs, Content, Dir;
  }

  /** The directory and the files of the image; the directory is padded to the end of its block. */
  ghost predicate Shows(sb: Super, s: State, names: seq<seq<Byte>>, files: seq<seq<Byte>>)
    requires |names| == |files|
  {
    && Refs(sb, s) && |files| + 2 <= sb.ninodes && (forall n :: n in names ==> |n| <= DIRSIZ)
    && Dir(names) <= Content(sb, s, ROOT) && |Content(sb, s, ROOT)| % BSIZE == 0
    && forall j :: 0 <= j < |files| ==> Content(sb, s, j + 2) == files[j]
  }

  lemma FirstInodes(fssize: nat, ninodes: nat, nlog: nat)
    requires ninodes >= 2
    ensures Layouted(fssize, ninodes, nlog).ninodes == ninodes
  {}

  /** The root directory with its first two entries. */
  method Root(img: Image, ghost names: seq<seq<Byte>>, ghost files: seq<seq<Byte>>) returns (r: Outcome)
    requires img.Valid() && img.freeinode == 1 && img.sb.ninodes >= 2 && |names| == |files|
    requires img.freeblock == img.sb.nmeta && forall i :: 0 <= i < img.sb.ninodes ==> img.inodes[i] == Blank()
    modifies img
    ensures r.Died? ==> img.freeblock > img.sb.size
    ensures img.freeblock <= old(img.freeblock) + 4 && !r.Crowded?
    ensures r.Made? ==> img.Valid() && img.freeinode == 2 && Has(img.sb, img.S(), names, files, 0)
    ensures r.Made? ==> img.sb.nmeta in img.owner && img.owner[img.sb.nmeta] == Slot(ROOT, 0)
  {
    hide FreeEmpty, Holds, Content, Spared, PutInode, Layout, Tight, Owners, NoHoles, Entry;
    ghost var s0 := img.S();
    FirstData(img.sb, s0);
    Where(img.sb, ROOT);
    var inum, _ := img.IAlloc(T_DIR);
    Fresh(img.sb, img.S(), ROOT);
    var ok := img.IAppend(ROOT, Dirent(ROOT, [DOT]));
    if !ok {
      return Died;
    }
    ghost var s1 := img.S();
    RootBlock(img.sb, s1, img.freeblock);
    ok := img.IAppend(ROOT, Dirent(ROOT, [DOT, DOT]));
    if !ok {
      return Died;
    }
    assert names[..0] == [] && files[..0] == [];
    r := Made;
  }

  /** The first block goes to the root directory. */
  lemma RootBlock(sb: Super, s: State, free: nat)
    requires Sequential(sb, s, free) && sb.ninodes >= 2 && 0 < s.inodes[ROOT].size <= BSIZE
    requires forall i :: 0 <= i < sb.ninodes ==>
                           Tight(sb, s, i, s.inodes[i].size) && (i != ROOT ==> s.inodes[i].size == 0)
    ensures sb.nmeta in s.owner && s.owner[sb.nmeta] == Slot(ROOT, 0)
  {
    hide Entry, NoHoles, Layout;
    Regions(sb);
    SizeCovered(sb, s, ROOT);
    assert 0 / BSIZE == 0 && SlotOf(0) == 0 && Entry(s, ROOT, 0) in s.owner;
    var t := s.owner[sb.nmeta];
    assert Tight(sb, s, t.inum, s.inodes[t.inum].size) && Entry(s, t.inum, t.k) == sb.nmeta;
    if t.k != NDIRECT {
      assert SlotOf(BnOf(t.k)) == t.k && Entry(s, t.inum, SlotOf(BnOf(t.k))) != 0;
    }
  }

  lemma Finished(sb: Super, s: State, s': State, names: seq<seq<Byte>>, files: seq<seq<Byte>>)
    requires |names| == |files| && Has(sb, s, names, files, |files|) && Refs(sb, s') && SameData(sb, s.disk, s'.disk)
    requires s'.owner == s.owner && s'.inodes == s.inodes[ROOT := s.inodes[ROOT].(size := s'.inodes[ROOT].size)]
    requires s'.inodes[ROOT].size == (s.inodes[ROOT].size / BSIZE + 1) * BSIZE
    ensures Shows(sb, s', names, files)
  {
    hide Owners, NoHoles, Entry, Content, Layout, Dir;
    var s1 := s.(disk := s'.disk);
    MetaKeeps(sb, s, s1);
    SameEntries(sb, s1, s');
    assert names[..|names|] == names;
    forall j | 0 <= j < |files| ensures Content(sb, s', j + 2) == files[j] {
      SameContent(sb, s1, s', j + 2);
    }
    LongerRoot(sb, s1, s');
  }

  lemma LongerRoot(sb: Super, s: State, s': State)
    requires Refs(sb, s) && Refs(sb, s') && sb.ninodes > ROOT && s'.disk == s.disk
    requires s.inodes[ROOT].size <= s'.inodes[ROOT].size
    requires forall k :: 0 <= k < NSLOTS ==> Entry(s', ROOT, k) == Entry(s, ROOT, k)
    ensures Content(sb, s, ROOT) <= Content(sb, s', ROOT)
  {
    hide Entry, Owners, NoHoles, Layout;
    SizeCovered(sb, s', ROOT);
    assert forall p :: 0 <= p < s.inodes[ROOT].size ==> DataAt(s', ROOT, p) == DataAt(s, ROOT, p);
  }

  const FSSIZE := 2000               // the constants of the image
  const NINODES := 200
  const NLOG := 30

  /** The 223rd file of an image is stored over the root directory: its inode, number 224, lies in the first data block.
      The first byte of the directory, of the entry ".", becomes that of an inode of type file. */
  method StrayRoot() returns (img: Image, inum: nat, ghost before: State)
    ensures img.sb == Layouted(FSSIZE, NINODES, NLOG) && inum == 224 && IBlock(img.sb, inum) == img.sb.nmeta == 46
    ensures Sequential(img.sb, before, img.freeblock) && Sequential(img.sb, img.S(), img.freeblock)
    ensures |Content(img.sb, before, ROOT)| > 0 && |Content(img.sb, img.S(), ROOT)| > 0
    ensures Content(img.sb, before, ROOT)[0] == 1 && Content(img.sb, img.S(), ROOT)[0] == 2
  {
    hide FreeEmpty, Holds, Content, Spared, Layout, Tight, Owners, NoHoles, Entry, PutDinode, Dir;
    Constants();
    img := new Image(FSSIZE, NINODES, NLOG);
    ghost var none := seq(0, _ => []);
    var r := Root(img, none, none);
    FirstByte(none);
    Crowd(img);
    before := img.S();
    var ok;
    inum, ok := img.IAlloc(T_FILE);
    Overwritten(img.sb, before, img.S(), img.freeblock, inum);
  }

  /** The directory entries of 222 files without contents, whose inodes go as far as the first bitmap block. */
  method Crowd(img: Image)
    requires img.Valid() && img.sb == Super(2000, 200, 32, 45, 46) && img.freeinode == 2 && img.inodes[ROOT].typ != 0
    requires img.inodes[ROOT].size == DIRENT * 2 && img.freeblock <= 50 && Content(img.sb, img.S(), ROOT)[0] == 1
    requires 46 in img.owner && img.owner[46] == Slot(ROOT, 0)
    modifies img
    ensures img.Valid() && img.freeinode == 224 && img.inodes[ROOT].size == DIRENT * 224
    ensures Content(img.sb, img.S(), ROOT)[0] == 1 && 46 in img.owner && img.owner[46] == Slot(ROOT, 0)
  {
    hide FreeEmpty, Holds, Content, Spared, Layout, Tight, Owners, NoHoles, Entry, PutInode, SameContents;
    var k := 0;
    while k < 222
      invariant 0 <= k <= 222 && img.Valid() && img.freeinode == k + 2 && img.inodes[ROOT].typ != 0
      invariant img.inodes[ROOT].size == DIRENT * (2 + k) && img.freeblock <= 50 + 2 * k
      invariant Content(img.sb, img.S(), ROOT)[0] == 1
      invariant 46 in img.owner && img.owner[46] == Slot(ROOT, 0)
    {
      ghost var s := img.S();
      var _, _ := img.IAlloc(T_FILE);
      SameRoot(img.sb, s, img.S());
      var ok := img.IAppend(ROOT, Dirent(k + 2, []));
      k := k + 1;
    }
  }

  lemma SameRoot(sb: Super, s: State, s': State)
    requires Refs(sb, s) && Refs(sb, s') && SameContents(sb, s, s') && sb.ninodes > ROOT
    ensures Content(sb, s', ROOT) == Content(sb, s, ROOT)
  {
    hide Refs, Content;
  }

  lemma Constants()
    ensures Layouted(FSSIZE, NINODES, NLOG) == Super(2000, 200, 32, 45, 46)
  {}

  lemma FirstByte(names: seq<seq<Byte>>)
    requires names == []
    ensures Dir(names)[0] == 1
  {}

  lemma Overwritten(sb: Super, s: State, s': State, free: nat, inum: nat)
    requires Sequential(sb, s, free) && IBlock(sb, inum) == sb.nmeta
    requires sb.nmeta in s.owner && s.owner[sb.nmeta] == Slot(ROOT, 0)
    requires inum % IPB == 0 && sb.ninodes > ROOT && s.inodes[ROOT].size > 0 && sb.nmeta < sb.size
    requires s' == s.(disk := PutInode(sb, s.disk, inum, NewInode(T_FILE)))
    ensures Sequential(sb, s', free) && |Content(sb, s', ROOT)| > 0 && Content(sb, s', ROOT)[0] == 2
  {
    hide NoHoles, Entry, Content, Encode;
    var b := sb.nmeta;
    DataStray(sb, s, s', free, b, 0, NewInode(T_FILE));
    BlockByte(sb, s', ROOT, 0);
    assert Entry(s', ROOT, 0) == b;
    FirstOf(s.disk[b]);
  }

  lemma FirstOf(b: Block)
    ensures PutDinode(b, 0, NewInode(T_FILE))[0] == 2
  {
    hide Pack, Split;
  }
}
