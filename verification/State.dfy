/** The objects a request changes: the file system, the index of a user (directory/dir.cpp), the
    stream map (core/open_streams.cpp) and the session (core/user.h). */
module State {
  import opened Bytes
  import opened Paths
  import opened Disks
  import opened Transfer
  import opened Sessions

  /** The operating system's file system. `failed` is the error code a call sets. */
  class FileSystem {
    var disk: Disk

    constructor (disk: Disk)
      ensures this.disk == disk
    {
      this.disk := disk;
    }

    method CreateDirectories(p: Path, refused: Option<nat>) returns (failed: bool)
      modifies this
      ensures (disk, !failed) == old(disk).MakeDirs(p, refused)
    {
      var (made, ok) := disk.MakeDirs(p, refused);
      disk := made;
      failed := !ok;
    }

    method Open(p: Path, allowed: bool) returns (stream: Handle)
      requires p != []
      modifies this
      ensures disk == old(disk).OpenAppend(p, allowed).0
      ensures stream == match old(disk).OpenAppend(p, allowed).1 { case Some(i) => Opened(i) case None => Bad }
    {
      var (after, inode) := disk.OpenAppend(p, allowed);
      disk := after;
      stream := match inode case Some(i) => Opened(i) case None => Bad;
    }

    method Write(stream: Handle, content: bytes)
      requires stream.Opened?
      modifies this
      ensures disk == old(disk).Append(stream.inode, content)
    {
      disk := disk.Append(stream.inode, content);
    }

    method Remove(p: Path, refused: bool) returns (failed: bool)
      modifies this
      ensures failed <==> refused || old(disk).Remove(p).None?
      ensures disk == if failed then old(disk) else old(disk).Remove(p).value
    {
      var after := disk.Remove(p);
      failed := refused || after.None?;
      if !failed {
        disk := after.value;
      }
    }

    method RemoveDirectory(p: Path, refused: bool) returns (failed: bool)
      requires p in disk.dirs && disk.IsEmptyDir(p)
      modifies this
      ensures failed == refused
      ensures disk == if failed then old(disk) else old(disk).RemoveDir(p)
    {
      failed := refused;
      if !failed {
        disk := disk.RemoveDir(p);
      }
    }

    method Rename(from: Path, to: Path, refused: bool) returns (failed: bool)
      modifies this
      ensures failed <==> refused || !old(disk).CanRename(from, to)
      ensures disk == if failed then old(disk) else old(disk).Rename(from, to)
    {
      failed := refused || !disk.CanRename(from, to);
      if !failed {
        disk := disk.Rename(from, to);
      }
    }
  }

  /** directory::dir: the index of one user. */
  class Dir {
    const path: Path
    var content: Index

    constructor (path: Path)
      ensures this.path == path && content == map[]
    {
      this.path := path;
      content := map[];
    }

    method InsertOrAssign(p: Path, r: Resource) returns (inserted: bool)
      modifies this
      ensures content == old(content)[p := r]
      ensures inserted <==> p !in old(content)
    {
      inserted := p !in content;
      content := content[p := r];
    }

    method Erase(p: Path) returns (erased: bool)
      modifies this
      ensures content == old(content) - {p}
      ensures erased <==> p in old(content)
    {
      erased := p in content;
      content := content - {p};
    }

    function Rsrc(p: Path): (r: Option<Resource>)
      reads this
      ensures r.Some? <==> p in content
      ensures r.Some? ==> r.value == content[p]
    {
      if p in content then Some(content[p]) else None
    }

    method Clear()
      modifies this
      ensures content == map[]
    {
      content := map[];
    }
  }

  /** A connection's user. Both flags start out false. */
  class User {
    var id: bytes
    var auth: bool
    var synced: bool
    var dir: Dir?

    ghost predicate Valid()
      reads this, dir
    {
      && (auth <==> dir != null)
      && (dir != null ==> dir.path == [id])
    }

    ghost function Abstract(): Session
      reads this, dir
    {
      Session(auth, synced, id, if dir == null then map[] else dir.content)
    }

    constructor ()
      ensures Valid() && Abstract() == FRESH && dir == null
    {
      id, auth, synced, dir := [], false, false, null;
    }
  }

  /** open_streams: at most one stream per user id. */
  class OpenStreams {
    var streams: Streams

    ghost predicate Valid()
      reads this
    {
      forall id <- streams :: !streams[id].Absent?
    }

    constructor ()
      ensures Valid() && streams == map[]
    {
      streams := map[];
    }

    /** The file is opened, and created, before the map is looked at; an entry that is there stays. */
    method GetStream(id: bytes, path: Path, fs: FileSystem, allowed: bool) returns (stream: Handle, first: bool)
      requires Valid() && path != []
      modifies this, fs
      ensures Valid() && !stream.Absent?
      ensures fs.disk == old(fs.disk).OpenAppend(path, allowed).0
      ensures first <==> HandleOf(old(streams), id).Absent?
      ensures stream == HandleOf(streams, id)
      ensures !first ==> streams == old(streams)
      ensures first ==>
                && streams == WithHandle(old(streams), id, stream)
                && stream == match old(fs.disk).OpenAppend(path, allowed).1
                             { case Some(i) => Opened(i) case None => Bad }
    {
      var made := fs.Open(path, allowed);
      first := id !in streams;
      if first {
        streams := streams[id := made];
      }
      stream := streams[id];
    }

    method EraseStream(id: bytes)
      requires Valid()
      modifies this
      ensures Valid() && streams == WithHandle(old(streams), id, Absent)
    {
      streams := streams - {id};
    }
  }
}
