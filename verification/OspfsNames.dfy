/** The directory calls on the inode table and the directory entries, updated
    in place; each does to the file system what `OspfsDir` says. */
module OspfsNames {
  import opened Common
  import opened OspfsLayout
  import opened OspfsVolume
  import opened OspfsDisk
  import opened OspfsSafety
  import opened OspfsContents
  import opened OspfsModule
  import Dir = OspfsDir

  type Entry = Dir.Entry

  lemma NlinkOnly(ino: Inode, disk: seq<Block>, nlink: nat)
    requires ValidInode(ino)
    ensures FileOf(ino.(nlink := nlink), disk) == FileOf(ino, disk).(nlink := nlink)
  {
    SamePtrs(ino, ino.(nlink := nlink), disk, disk);
  }

  function NewInode(ftype: FType, size: uint32): (ino: Inode)
    ensures ValidInode(ino)
  {
    Inode(size, ftype, 1, seq(NDIRECT, _ => 0 as uint32), 0, 0)
  }

  lemma NewInodeIsEmpty(ftype: FType, size: uint32, disk: seq<Block>)
    ensures FileOf(NewInode(ftype, size), disk) == File(size, ftype, 1, map[])
  {
    var p := Ptrs(NewInode(ftype, size), disk);
    assert forall s :: ValidSlot(s) ==> PtrAt(NewInode(ftype, size), disk, s) == 0;
    assert p == map[];
  }

  class Names {
    const fs: Ospfs
    const dirs: array<seq<Entry>>

    constructor (fs: Ospfs, dirs: array<seq<Entry>>)
      ensures this.fs == fs && this.dirs == dirs
    {
      this.fs := fs;
      this.dirs := dirs;
    }

    ghost predicate Shape()
      reads fs.bitmap, fs.disk, fs.inodes, dirs
    {
      && fs.Shape() && dirs.Length == fs.layout.ninodes
      && dirs as object !in {fs.bitmap as object, fs.disk as object, fs.inodes as object}
    }

    ghost function State(): Dir.Fs
      requires Shape()
      reads fs.bitmap, fs.disk, fs.inodes, dirs
    {
      Dir.Fs(fs.View(), dirs[..])
    }

    ghost predicate Ready(d: nat)
      reads fs.bitmap, fs.disk, fs.inodes, dirs
    {
      Shape() && fs.Valid() && Dir.IsDir(State(), d) && Dir.DirMayGrow(State(), d)
    }

    /** `find_direntry`. */
    method FindDirentry(d: nat, name: seq<char>) returns (r: Option<nat>)
      requires d < dirs.Length
      ensures r == Dir.FindEntry(dirs[d], name)
    {
      var k := 0;
      while k < |dirs[d]|
        invariant k <= |dirs[d]|
        invariant forall m :: 0 <= m < k ==> !Dir.Matches(dirs[d][m], name)
      {
        if Dir.Matches(dirs[d][k], name) {
          return Some(k);
        }
        k := k + 1;
      }
      return None;
    }

    /** The search of `create_blank_direntry`. */
    method FindBlank(d: nat) returns (r: Option<nat>)
      requires d < dirs.Length
      ensures r == Dir.FindBlank(dirs[d])
    {
      var k := 0;
      while k < |dirs[d]|
        invariant k <= |dirs[d]|
        invariant forall m :: 0 <= m < k ==> dirs[d][m].ino != 0
      {
        if dirs[d][k].ino == 0 {
          return Some(k);
        }
        k := k + 1;
      }
      return None;
    }

    /** `create_blank_direntry`. */
    method CreateBlankDirentry(d: nat, fuel: nat) returns (r: Dir.Slotting)
      requires Ready(d)
      modifies fs.bitmap, fs.disk, fs.inodes, dirs
      ensures Shape() && fs.Valid()
      ensures (State(), r) == Dir.BlankEntry(fs.layout, old(State()), d, fuel)
    {
      hide Sound, ChangeSize, Size2NBlocks, ElsewhereKept, Within, DataKept, OthersKept, ZeroFrom, GrowsCleanly;
      var blank := FindBlank(d);
      if blank.Some? {
        return Dir.At(blank.value);
      }
      fs.Present(d);
      var out := fs.ChangeSize(d, fs.inodes[d].size + Dir.DIRENTRY_SIZE, fuel);
      match out
      case Spinning => return Dir.Stuck;
      case Finished(st) =>
        if st != Ok {
          return Dir.NotFound(if st == NoSpace then Dir.NoSpc else Dir.IOErr);
        }
        r := Dir.At(|dirs[d]|);
        dirs[d] := dirs[d] + [Dir.ZeroEntry()];
    }

    method PutEntry(d: nat, k: nat, e: Entry)
      requires Shape() && fs.Valid() && d < dirs.Length && k < |dirs[d]|
      modifies dirs
      ensures Shape() && fs.Valid() && State() == Dir.PutEntry(old(State()), d, k, e)
    {
      dirs[d] := dirs[d][k := e];
    }

    method SetNlink(i: nat, nlink: nat)
      requires Shape() && i < fs.inodes.Length
      modifies fs.inodes
      ensures Shape() && State() == Dir.SetFile(old(State()), i, old(State()).v.files[i].(nlink := nlink))
    {
      NlinkOnly(fs.inodes[i], fs.disk[..], nlink);
      fs.SetInode(i, fs.inodes[i].(nlink := nlink));
    }

    /** `ospfs_link`. */
    method Link(d: nat, src: nat, name: seq<char>, fuel: nat) returns (r: Dir.Reply)
      requires Ready(d) && Dir.Linkable(State(), d, src)
      modifies fs.bitmap, fs.disk, fs.inodes, dirs
      ensures Shape()
      ensures (State(), r) == Dir.Link(fs.layout, old(State()), d, src, name, fuel)
    {
      hide Sound, ChangeSize, Size2NBlocks, Dir.FindEntry, Dir.Matches, Dir.CName, Dir.BlankEntry, Dir.CopyName;
      if |name| > Dir.MAXNAMELEN {
        return Dir.Done(Dir.NameTooLong);
      }
      var found := FindDirentry(d, name);
      if found.Some? {
        return Dir.Done(Dir.Exists);
      }
      var at := CreateBlankDirentry(d, fuel);
      match at
      case Stuck => return Dir.Hung;
      case NotFound(code) => return Dir.Done(code);
      case At(k) =>
        PutEntry(d, k, Dir.Entry(src, Dir.CopyName(dirs[d][k].raw, name)));
        SetNlink(src, fs.inodes[src].nlink + 1);
        return Dir.Done(Dir.Success);
    }

    /** The search for an unused inode, from number 2 on. */
    method FindInode() returns (r: Option<nat>)
      requires Shape()
      ensures r == Dir.FindInode(State().v.files, 2)
    {
      ghost var files := State().v.files;
      var entry_ino := 2;
      while entry_ino < fs.layout.ninodes
        invariant 2 <= entry_ino <= fs.layout.ninodes == |files|
        invariant Dir.FindInode(files, 2) == Dir.FindInode(files, entry_ino)
      {
        if fs.inodes[entry_ino].nlink == 0 {
          return Some(entry_ino);
        }
        entry_ino := entry_ino + 1;
      }
      return None;
    }

    /** What `ospfs_create` and `ospfs_symlink` have in common. */
    method MakeInode(d: nat, name: seq<char>, ftype: FType, size: uint32, fuel: nat) returns (r: Dir.Reply)
      requires Ready(d) && |name| <= Dir.MAXNAMELEN
      modifies fs.bitmap, fs.disk, fs.inodes, dirs
      ensures Shape()
      ensures (State(), r) == Dir.MakeInode(fs.layout, old(State()), d, name, File(size, ftype, 1, map[]), fuel)
    {
      hide Sound, ChangeSize, Size2NBlocks;
      var found := FindDirentry(d, name);
      if found.Some? {
        return Dir.Done(Dir.Exists);
      }
      var at := CreateBlankDirentry(d, fuel);
      match at
      case Stuck => return Dir.Hung;
      case NotFound(code) => return Dir.Done(code);
      case At(k) =>
        var free := FindInode();
        match free
        case None => return Dir.Done(Dir.NoSpc);
        case Some(i) =>
          PutEntry(d, k, Dir.Entry(i, Dir.CopyNameZ(dirs[d][k].raw, name)));
          NewInodeIsEmpty(ftype, size, fs.disk[..]);
          fs.SetInode(i, NewInode(ftype, size));
          return Dir.Done(Dir.Success);
    }

    /** `ospfs_create`. */
    method Create(d: nat, name: seq<char>, fuel: nat) returns (r: Dir.Reply)
      requires Ready(d)
      modifies fs.bitmap, fs.disk, fs.inodes, dirs
      ensures Shape()
      ensures (State(), r) == Dir.Create(fs.layout, old(State()), d, name, fuel)
    {
      hide Sound, ChangeSize, Size2NBlocks;
      if |name| > Dir.MAXNAMELEN {
        return Dir.Done(Dir.NameTooLong);
      }
      r := MakeInode(d, name, Regular, 0, fuel);
    }

    /** `ospfs_symlink`. */
    method MakeSymlink(d: nat, name: seq<char>, target: seq<char>, fuel: nat) returns (r: Dir.Reply)
      requires Ready(d)
      modifies fs.bitmap, fs.disk, fs.inodes, dirs
      ensures Shape()
      ensures (State(), r) == Dir.MakeSymlink(fs.layout, old(State()), d, name, target, fuel)
    {
      hide Sound, ChangeSize, Size2NBlocks;
      if |name| > Dir.MAXNAMELEN || |target| > Dir.MAXSYMLINKLEN {
        return Dir.Done(Dir.NameTooLong);
      }
      r := MakeInode(d, name, Symlink, |target|, fuel);
    }

    /** `ospfs_unlink`. */
    method Unlink(d: nat, i: nat, name: seq<char>, fuel: nat) returns (r: Dir.Reply)
      requires Shape() && fs.Valid() && Dir.Legal(State(), Dir.UnlinkEv(d, i, name))
      modifies fs.bitmap, fs.disk, fs.inodes, dirs
      ensures Shape()
      ensures (State(), r) == Dir.Unlink(fs.layout, old(State()), d, i, name, fuel)
    {
      hide Sound, ChangeSize, Size2NBlocks;
      var found := FindDirentry(d, name);
      match found
      case None => return Dir.Done(Dir.NoEnt);
      case Some(k) =>
        ghost var v := fs.View();
        PutEntry(d, k, dirs[d][k].(ino := 0));
        SetNlink(i, fs.inodes[i].nlink - 1);
        if !fs.inodes[i].ftype.Symlink? && fs.inodes[i].nlink == 0 {
          NlinkSound(fs.layout, v, i, 0);
          var out := fs.ChangeSize(i, 0, fuel);
          match out
          case Spinning => return Dir.Hung;
          case Finished(st) => return Dir.Done(Dir.CodeOf(st));
        }
        return Dir.Done(Dir.Success);
    }
  }

  lemma NlinkSound(l: Layout, v: Volume, i: nat, nlink: nat)
    requires Sound(l, v) && i < |v.files|
    ensures Sound(l, v.(files := v.files[i := v.files[i].(nlink := nlink)]))
  {
    var w := v.(files := v.files[i := v.files[i].(nlink := nlink)]);
    assert forall j: nat, s :: HasPtr(w, j, s) ==> HasPtr(v, j, s) && PtrOk(l, v, j, s);
  }
}
