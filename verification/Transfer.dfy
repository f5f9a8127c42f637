/** What CREATE, UPDATE and ERASE do to one user's index and open stream and to the disk
    (core/request_handler.cpp:136-382, core/open_streams.cpp:16-38). */
module Transfer {
  import opened Bytes
  import opened Paths
  import opened Disks

  /** 32 upper-case hexadecimal digits. */
  type Digest = d: bytes | |d| == 32 && forall c <- d :: 48 <= c <= 57 || 65 <= c <= 70 witness seq(32, i => 48)

  /** tools::MD5_hash of a file: a function of its relative path and its bytes. */
  type Hasher = (Path, bytes) -> Digest

  /** The digest of an entry whose CREATE is in progress. */
  const TEMP: bytes := [84, 69, 77, 80]

  datatype Resource = Resource(synced: bool, digest: bytes)

  type Index = map<Path, Resource>

  /** A user's entry in the stream map: none, a stream that failed to open, or an open one. */
  datatype Handle = Absent | Bad | Opened(inode: Inode)

  datatype OpenOutcome = Allowed | Refused | Throws

  /** What the operating system decides during one request; `unreadable` are the user's files that
      cannot be opened for reading, `discardFails` is about the removal of a file whose digest is wrong. */
  datatype Faults = Faults(
    mkdir: Option<nat>,
    open: OpenOutcome,
    hashThrows: bool,
    removeFails: bool,
    renameFails: bool,
    discardFails: bool,
    prunable: nat,
    listing: seq<Path>,
    listingFails: bool,
    unreadable: set<Path>)

  /** One user's part of the state, next to the whole disk. */
  datatype Local = Local(home: bytes, disk: Disk, handle: Handle, index: Index) {
    function Abs(p: Path): Path { [home] + p }

    /** The entry `p` of the index is on the disk as the index says, and no stream writes to it. */
    ghost predicate EntryOk(hash: Hasher, p: Path)
      requires p in index
    {
      && Abs(p) in disk.files
      && (index[p].synced ==> index[p].digest != TEMP)
      && (index[p].digest != TEMP ==>
            && hash(p, disk.Read(Abs(p))) == index[p].digest
            && handle != Opened(disk.files[Abs(p)]))
    }
  }

  datatype Status = Ok | Err(code: nat)

  /** Either the process ends (std::exit or an exception that nobody catches), or a new state. */
  datatype Step = Halt | Next(st: Local, status: Status)

  datatype Written = NotWritten(st: Local) | Written(st: Local, first: bool)

  /** open_streams::get_stream and the write that follows it. The file is opened, and so created,
      before the map is searched; a stream that is already there wins, whatever its file. */
  function WriteChunk(st: Local, path: Path, content: bytes, open: OpenOutcome): (w: Written)
    requires path != []
    ensures w.st.home == st.home && w.st.index == st.index
    ensures w.Written? ==> w.st.handle.Opened? && (w.first <==> st.handle.Absent?)
  {
    if open.Throws? then NotWritten(st)
    else
      var (disk, inode) := st.disk.OpenAppend(path, open.Allowed?);
      var first := st.handle.Absent?;
      var handle :=
        if !first then st.handle
        else match inode case Some(i) => Opened(i) case None => Bad;
      if handle.Bad? then NotWritten(st.(disk := disk, handle := handle))
      else Written(st.(disk := disk.Append(handle.inode, content), handle := handle), first)
  }

  /** After the last chunk: the digest of the file on disk decides. A file that is missing or cannot
      be read ends the process. */
  function Settle(hash: Hasher, st: Local, p: Path, digest: bytes, f: Faults, noMatch: nat, failed: nat): (r: Step)
    ensures r.Next? ==> r.st.home == st.home && r.st.handle == st.handle
  {
    if st.Abs(p) !in st.disk.files || p in f.unreadable then Halt
    else if f.hashThrows || hash(p, st.disk.Read(st.Abs(p))) != digest then
      if f.discardFails then Halt
      else Next(
        st.(disk := st.disk.RemoveFile(st.Abs(p)), index := st.index - {p}),
        Err(if f.hashThrows then failed else noMatch))
    else Next(st, Ok)
  }

  function CreateChunk(hash: Hasher, st: Local, p: Path, digest: bytes, content: bytes, last: bool, f: Faults): Step
    requires p != []
  {
    if p in st.index && st.index[p].synced then Next(st, Err(ERR_CREATE_ALREADY_EXIST))
    else
      var (disk, made) := st.disk.MakeDirs(Front(st.Abs(p)), f.mkdir);
      if !made then Next(st.(disk := disk), Err(ERR_CREATE_FAILED))
      else match WriteChunk(st.(disk := disk), st.Abs(p), content, f.open)
        case NotWritten(st1) => Next(st1, Err(ERR_CREATE_FAILED))
        case Written(st1, first) =>
          var st2 :=
            if last then st1.(index := st1.index[p := Resource(true, digest)], handle := Absent)
            else if first then st1.(index := st1.index[p := Resource(false, TEMP)])
            else st1;
          if last then Settle(hash, st2, p, digest, f, ERR_CREATE_NO_MATCH, ERR_CREATE_FAILED)
          else Next(st2, Ok)
  }

  /** The file written by an update takes the place of the old one. */
  function Replace(st: Local, p: Path, f: Faults): Option<Local>
    requires p != []
  {
    var path, temp := st.Abs(p), st.Abs(TempOf(p));
    if f.removeFails then None
    else match st.disk.Remove(path)
      case None => None
      case Some(disk) =>
        if !disk.CanRename(temp, path) || f.renameFails then None
        else Some(st.(disk := disk.Rename(temp, path)))
  }

  function UpdateChunk(hash: Hasher, st: Local, p: Path, digest: bytes, content: bytes, last: bool, f: Faults): Step
    requires p != []
  {
    if p !in st.index then Next(st, Err(ERR_UPDATE_NOT_EXIST))
    else if st.index[p].digest == digest then Next(st, Err(ERR_UPDATE_ALREADY_UPDATED))
    else match WriteChunk(st, st.Abs(TempOf(p)), content, f.open)
      case NotWritten(st1) => Next(st1, Err(ERR_UPDATE_FAILED))
      case Written(st1, first) =>
        var st2 :=
          if last then st1.(index := st1.index[p := Resource(true, digest)], handle := Absent)
          else if first then st1.(index := st1.index[p := Resource(false, st.index[p].digest)])
          else st1;
        if !last then Next(st2, Ok)
        else match Replace(st2, p, f)
          case None => Halt
          case Some(st3) => Settle(hash, st3, p, digest, f, ERR_UPDATE_NO_MATCH, ERR_UPDATE_FAILED)
  }

  /** Removes the directories left empty, from `q` upwards, never the user's own; the operating
      system may refuse after some of them. */
  function Prune(disk: Disk, q: Path, prunable: nat): Disk
    decreases prunable
  {
    if prunable == 0 || |q| <= 1 || q !in disk.dirs || !disk.IsEmptyDir(q) then disk
    else Prune(disk.RemoveDir(q), Front(q), prunable - 1)
  }

  function EraseFile(st: Local, p: Path, digest: bytes, f: Faults): Step
    requires p != []
  {
    if p !in st.index || st.index[p].digest != digest then Next(st, Err(ERR_ERASE_NO_MATCH))
    else if f.removeFails then Next(st, Err(ERR_NONE))
    else match st.disk.Remove(st.Abs(p))
      case None => Next(st, Err(ERR_NONE))
      case Some(disk) =>
        Next(st.(disk := Prune(disk, Front(st.Abs(p)), f.prunable), index := st.index - {p}), Ok)
  }

  datatype Request =
    | Create(path: Path, digest: bytes, content: bytes, last: bool)
    | Update(path: Path, digest: bytes, content: bytes, last: bool)
    | Erase(path: Path, digest: bytes)

  function Serve(hash: Hasher, st: Local, r: Request, f: Faults): Step
    requires r.path != []
  {
    match r
    case Create(p, digest, content, last) => CreateChunk(hash, st, p, digest, content, last, f)
    case Update(p, digest, content, last) => UpdateChunk(hash, st, p, digest, content, last, f)
    case Erase(p, digest) => EraseFile(st, p, digest, f)
  }

  /** The end of a connection destroys, and so closes, the user's stream. */
  function CloseStream(st: Local): Local {
    st.(handle := Absent)
  }
}
