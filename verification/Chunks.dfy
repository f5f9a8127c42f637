/** Files sent in many chunks: what a whole CREATE or UPDATE transfer leaves, what its replies mean, and
    what is on the disk while it is under way, whatever the operating system does at each chunk. */
module Chunks {
  import opened Bytes
  import opened Paths
  import opened Disks
  import opened Transfer
  import opened StreamDiscipline
  import opened Soundness
  import opened Arrivals

  /** The operating system refuses nothing. */
  function Calm(p: Path): Faults {
    Faults(None, Allowed, false, false, false, false, |p|, [], false, {})
  }

  /** A request, and what the operating system decides while it is served. */
  datatype Call = Call(request: Request, faults: Faults)

  ghost predicate GoodCall(c: Call) { c.request.path != [] }

  datatype Run = Halted | Finished(st: Local, statuses: seq<Status>)

  /** One user's requests, served one after the other. */
  function RunAll(hash: Hasher, st: Local, cs: seq<Call>): Run
    requires forall c <- cs :: GoodCall(c)
  {
    if cs == [] then Finished(st, [])
    else
      assert GoodCall(Last(cs)) by { assert Last(cs) in cs; }
      match RunAll(hash, st, Front(cs))
      case Halted => Halted
      case Finished(before, statuses) =>
        match Serve(hash, before, Last(cs).request, Last(cs).faults)
        case Halt => Halted
        case Next(after, status) => Finished(after, statuses + [status])
  }

  /** A run and one more request. */
  function Then(run: Run, step: Step): Run {
    match (run, step)
    case (Finished(_, statuses), Next(after, status)) => Finished(after, statuses + [status])
    case _ => Halted
  }

  lemma RunSnoc(hash: Hasher, st: Local, cs: seq<Call>)
    requires cs != [] && forall c <- cs :: GoodCall(c)
    ensures GoodCall(Last(cs))
    ensures var run := RunAll(hash, st, Front(cs));
      && (run.Halted? ==> RunAll(hash, st, cs).Halted?)
      && (run.Finished? ==>
            RunAll(hash, st, cs) == Then(run, Serve(hash, run.st, Last(cs).request, Last(cs).faults)))
  {
    assert Last(cs) in cs;
  }

  lemma {:induction false} RunConcat(hash: Hasher, st: Local, a: seq<Call>, b: seq<Call>)
    requires forall c <- a + b :: GoodCall(c)
    ensures forall c <- a :: GoodCall(c)
    ensures forall c <- b :: GoodCall(c)
    ensures RunAll(hash, st, a + b)
         == match RunAll(hash, st, a)
            case Halted => Halted
            case Finished(mid, statuses) =>
              match RunAll(hash, mid, b)
              case Halted => Halted
              case Finished(after, more) => Finished(after, statuses + more)
  {
    assert forall c :: c in a || c in b ==> c in a + b;
    if b == [] {
      assert a + b == a;
    } else {
      assert Front(a + b) == a + Front(b) && Last(a + b) == Last(b);
      RunConcat(hash, st, a, Front(b));
    }
  }

  /** The messages of one CREATE: only the last ends with the mark. */
  function Creates(p: Path, digest: bytes, pieces: seq<Piece>): (cs: seq<Call>)
    ensures |cs| == |pieces| && forall c <- cs :: c.request.path == p
  {
    seq(|pieces|, i requires 0 <= i < |pieces| =>
      Call(Create(p, digest, pieces[i].content, i == |pieces| - 1), pieces[i].faults))
  }

  function Updates(p: Path, digest: bytes, pieces: seq<Piece>): (cs: seq<Call>)
    ensures |cs| == |pieces| && forall c <- cs :: c.request.path == p
  {
    seq(|pieces|, i requires 0 <= i < |pieces| =>
      Call(Update(p, digest, pieces[i].content, i == |pieces| - 1), pieces[i].faults))
  }

  function Repeat(s: Status, n: nat): seq<Status> {
    seq(n, _ => s)
  }

  // CREATE

  /** The user has no stream, `p` is not there, and no file stands in its way. */
  ghost predicate CanReceive(st: Local, p: Path) {
    && p != [] && p !in st.index && st.handle.Absent?
    && st.Abs(p) !in st.disk.files && !st.disk.Blocked(Front(st.Abs(p)))
  }

  /** Nor is there a directory of that name. */
  ghost predicate CanCreate(st: Local, p: Path) {
    CanReceive(st, p) && st.Abs(p) !in st.disk.dirs
  }

  /** The disk on which `content` has arrived in the file `path`, made for it. */
  function WithNewFile(st: Local, path: Path, content: bytes): Disk {
    var i := Inode(st.home, st.disk.NextInode(st.home));
    st.disk.(
      files := st.disk.files[path := i],
      data := st.disk.data[i := content],
      next := st.disk.next[st.home := i.n + 1])
  }

  /** The disk with the directories on the way to `p`, down to a depth. */
  function WithDirs(st: Local, p: Path, depth: nat): Disk {
    st.disk.(dirs := st.disk.dirs + Prefixes(Front(st.Abs(p)), depth))
  }

  /** The same with all the directories on the way to the new file `p`. */
  function CreatedDisk(st: Local, p: Path, content: bytes): Disk {
    WithNewFile(st, st.Abs(p), content).(dirs := WithDirs(st, p, |p|).dirs)
  }

  /** The state in the middle of a CREATE. */
  function Creating(st: Local, p: Path, content: bytes): Local {
    Local(st.home, CreatedDisk(st, p, content), Opened(Inode(st.home, st.disk.NextInode(st.home))),
          st.index[p := Resource(false, TEMP)])
  }

  /** How many directories on the way to `p` the chunks so far have made. */
  function Made(p: Path, pieces: seq<Piece>): (depth: nat)
    ensures depth <= |p|
  {
    if pieces == [] then 0
    else Deeper(p, Made(p, Front(pieces)), Last(pieces).faults.mkdir)
  }

  function Deeper(p: Path, depth: nat, refused: Option<nat>): nat {
    match refused
    case None => |p|
    case Some(levels) => if levels <= depth then depth else if levels <= |p| then levels else |p|
  }

  /** The state of a CREATE in the given phase. */
  function CreateState(st: Local, p: Path, ph: Phase, depth: nat): Local {
    match ph
    case Waiting => st.(disk := WithDirs(st, p, depth))
    case Receiving(content) => Creating(st, p, content)
    case Jammed(stray) => st.(disk := if stray then CreatedDisk(st, p, []) else WithDirs(st, p, depth), handle := Bad)
  }

  /** What the transfer of `content` leaves: the file and its entry, or neither. */
  function Created(st: Local, p: Path, digest: bytes, content: bytes, good: bool): Local {
    var disk := CreatedDisk(st, p, content);
    if good then st.(disk := disk, index := st.index[p := Resource(true, digest)])
    else st.(disk := disk.RemoveFile(st.Abs(p)))
  }

  lemma ParentIsDir(disk: Disk, path: Path)
    requires path != []
    ensures disk.(dirs := disk.dirs + Prefixes(Front(path), |path| - 1)).IsDir(Front(path))
  {
    if |path| > 1 {
      assert Front(path)[..|path| - 1] == Front(path);
    }
  }

  lemma NotItsOwnPrefix(path: Path, depth: nat)
    requires path != []
    ensures path !in Prefixes(Front(path), depth)
  {
  }

  lemma StillUnblocked(st: Local, p: Path, sent: bytes)
    requires CanReceive(st, p)
    ensures !CreatedDisk(st, p, sent).Blocked(Front(st.Abs(p)))
  {
    var q := Front(st.Abs(p));
    forall k | 1 <= k <= |q| ensures q[..k] !in CreatedDisk(st, p, sent).files {
      assert |q[..k]| < |st.Abs(p)|;
      assert q[..k] !in st.disk.files;
    }
  }

  /** Making directories on the way to `p` once more. */
  lemma MakeDirsAgain(st: Local, p: Path, ph: Phase, depth: nat, x: Piece)
    requires CanReceive(st, p) && depth <= |p| && (ph.Waiting? || depth == |p|)
    ensures var before := CreateState(st, p, ph, depth);
      before.disk.MakeDirs(Front(st.Abs(p)), x.faults.mkdir)
      == (CreateState(st, p, ph, Deeper(p, depth, x.faults.mkdir)).disk, x.faults.mkdir.None?)
  {
    StillUnblocked(st, p, []);
    if ph.Receiving? {
      SameFiles(st, p, ph.content);
    }
    hide WithNewFile;
    var before, q := CreateState(st, p, ph, depth), Front(st.Abs(p));
    assert before.disk.dirs == st.disk.dirs + Prefixes(q, depth);
    assert before.disk.files
        == if ph.Receiving? || ph == Jammed(true) then CreatedDisk(st, p, []).files else st.disk.files;
    var levels := if x.faults.mkdir.Some? then x.faults.mkdir.value else |q|;
    PrefixesGrow(q, depth, levels);
    assert before.disk.dirs + Prefixes(q, levels) == st.disk.dirs + (Prefixes(q, depth) + Prefixes(q, levels));
  }

  lemma SameFiles(st: Local, p: Path, content: bytes)
    ensures CreatedDisk(st, p, content).files == CreatedDisk(st, p, []).files
  {
  }

  lemma PrefixesGrow(q: Path, depth: nat, more: nat)
    requires depth <= |q|
    ensures Prefixes(q, depth) + Prefixes(q, more)
         == Prefixes(q, if more <= depth then depth else if more <= |q| then more else |q|)
  {
  }

  /** The write of a chunk, once the directories are there. */
  lemma CreateWrite(st: Local, p: Path, ph: Phase, x: Piece)
    requires CanReceive(st, p) && x.faults.mkdir.None?
    ensures var before, openable := CreateState(st, p, ph, |p|), st.Abs(p) !in st.disk.dirs;
      var after := Arrive(Creation, openable, ph, x);
      WriteChunk(before, st.Abs(p), x.content, x.faults.open)
      == if x.faults.open.Throws? || after.Jammed? then NotWritten(CreateState(st, p, after, |p|))
         else Written(CreateState(st, p, after, |p|).(index := before.index), ph.Waiting?)
  {
    var path, before := st.Abs(p), CreateState(st, p, ph, |p|);
    ParentIsDir(st.disk, path);
    NotItsOwnPrefix(path, |p|);
    match ph
    case Waiting => FirstWrite(before, path, x);
    case Receiving(content) => MoreWrite(st, before, path, content, x);
    case Jammed(_) => BadWrite(before, path, x);
    hide WriteChunk, Disk.Blocked, Prefixes;
  }

  /** The first write goes to a new file, or leaves a stream that failed to open. */
  lemma FirstWrite(st: Local, path: Path, x: Piece)
    requires st.handle.Absent? && path != [] && path[0] == st.home
    requires path !in st.disk.files && st.disk.IsDir(Front(path))
    ensures !x.faults.open.Throws? ==>
      WriteChunk(st, path, x.content, x.faults.open)
      == if path !in st.disk.dirs && x.faults.open.Allowed? then
           Written(st.(disk := WithNewFile(st, path, x.content),
                       handle := Opened(Inode(st.home, st.disk.NextInode(st.home)))), true)
         else NotWritten(st.(handle := Bad))
  {
    assert [] + x.content == x.content;
  }

  /** Every other one adds to it. */
  lemma MoreWrite(st: Local, before: Local, path: Path, content: bytes, x: Piece)
    requires path != [] && before.home == st.home
    requires before.disk == WithNewFile(st, path, content).(dirs := before.disk.dirs)
    requires before.handle == Opened(Inode(st.home, st.disk.NextInode(st.home)))
    ensures !x.faults.open.Throws? ==>
      WriteChunk(before, path, x.content, x.faults.open)
      == Written(before.(disk := WithNewFile(st, path, content + x.content).(dirs := before.disk.dirs)), false)
  {
    var i := Inode(st.home, st.disk.NextInode(st.home));
    assert before.disk.data[i] == content;
    assert before.disk.Append(i, x.content) == WithNewFile(st, path, content + x.content).(dirs := before.disk.dirs);
  }

  /** Behind a stream that failed to open a file may still be made. */
  lemma BadWrite(st: Local, path: Path, x: Piece)
    requires st.handle.Bad? && path != [] && path[0] == st.home
    requires path !in st.disk.files ==> st.disk.IsDir(Front(path))
    ensures !x.faults.open.Throws? ==>
      WriteChunk(st, path, x.content, x.faults.open)
      == NotWritten(
           if path !in st.disk.files && path !in st.disk.dirs && x.faults.open.Allowed?
           then st.(disk := WithNewFile(st, path, [])) else st)
  {
  }

  lemma MidCreate(hash: Hasher, st: Local, p: Path, digest: bytes, ph: Phase, depth: nat, x: Piece)
    requires CanReceive(st, p) && depth <= |p| && (ph.Waiting? || depth == |p|)
    ensures var openable := st.Abs(p) !in st.disk.dirs;
      CreateChunk(hash, CreateState(st, p, ph, depth), p, digest, x.content, false, x.faults)
      == Next(CreateState(st, p, Arrive(Creation, openable, ph, x), Deeper(p, depth, x.faults.mkdir)),
              Reception(Creation, openable, ph, x))
  {
    MakeDirsAgain(st, p, ph, depth, x);
    if x.faults.mkdir.None? {
      CreateWrite(st, p, ph, x);
    }
    hide WriteChunk, Disk.MakeDirs, CreatedDisk, WithDirs;
  }

  /** What the last chunk of a CREATE leads to. */
  function CreateEnd(hash: Hasher, st: Local, p: Path, digest: bytes, ph: Phase, depth: nat, x: Piece): Step {
    match EndOf(hash, Creation, st.Abs(p) !in st.disk.dirs, p, digest, ph, x)
    case Unwritten(after) =>
      Next(CreateState(st, p, after, Deeper(p, depth, x.faults.mkdir)), Err(ERR_CREATE_FAILED))
    case Judged(content, Good) => Next(Created(st, p, digest, content, true), Ok)
    case Judged(content, Wrong(status)) => Next(Created(st, p, digest, content, false), status)
    case Judged(_, Fatal) => Halt
  }

  lemma LastCreate(hash: Hasher, st: Local, p: Path, digest: bytes, ph: Phase, depth: nat, x: Piece)
    requires CanReceive(st, p) && depth <= |p| && (ph.Waiting? || depth == |p|)
    ensures CreateChunk(hash, CreateState(st, p, ph, depth), p, digest, x.content, true, x.faults)
         == CreateEnd(hash, st, p, digest, ph, depth, x)
  {
    hide WriteChunk, Disk.MakeDirs, Settle, Judge, Disk.Blocked, WithNewFile, Prefixes;
    MakeDirsAgain(st, p, ph, depth, x);
    var before := CreateState(st, p, ph, depth);
    var after := Arrive(Creation, st.Abs(p) !in st.disk.dirs, ph, x);
    if x.faults.mkdir.None? {
      CreateWrite(st, p, ph, x);
      if !x.faults.open.Throws? && after.Receiving? {
        var index := before.index[p := Resource(true, digest)];
        assert index == st.index[p := Resource(true, digest)] && index - {p} == st.index;
        CreateSettles(hash, st, p, digest, after.content, x.faults);
      }
    }
    hide CreatedDisk, WithDirs;
  }

  lemma CreateSettles(hash: Hasher, st: Local, p: Path, digest: bytes, content: bytes, f: Faults)
    requires p !in st.index && st.handle.Absent?
    ensures var st2 := Local(st.home, CreatedDisk(st, p, content), Absent, st.index[p := Resource(true, digest)]);
      Settle(hash, st2, p, digest, f, ERR_CREATE_NO_MATCH, ERR_CREATE_FAILED)
      == match Judge(hash, Creation, p, digest, content, f)
         case Good => Next(Created(st, p, digest, content, true), Ok)
         case Wrong(status) => Next(Created(st, p, digest, content, false), status)
         case Fatal => Halt
  {
    var st2 := Local(st.home, CreatedDisk(st, p, content), Absent, st.index[p := Resource(true, digest)]);
    assert st2.disk.Read(st.Abs(p)) == content;
    assert st2.index - {p} == st.index;
  }

  /** After the first `n` chunks, the last not among them: exactly the chunks answered OK have
      arrived, whatever the operating system refused. */
  lemma {:induction false} CreateUnderWay(
    hash: Hasher, st: Local, p: Path, digest: bytes, pieces: seq<Piece>, n: nat)
    requires CanReceive(st, p) && n < |pieces|
    ensures var openable := st.Abs(p) !in st.disk.dirs;
      && RunAll(hash, st, Creates(p, digest, pieces)[..n])
         == Finished(CreateState(st, p, ArriveAll(Creation, openable, pieces[..n]), Made(p, pieces[..n])),
                     Receptions(Creation, openable, pieces[..n]))
      && (ArriveAll(Creation, openable, pieces[..n]).Waiting? || Made(p, pieces[..n]) == |p|)
  {
    hide CreateChunk, CreateState;
    var cs, openable := Creates(p, digest, pieces), st.Abs(p) !in st.disk.dirs;
    if n == 0 {
      NothingYet(st, p);
      assert cs[..0] == [] && pieces[..0] == [];
    } else {
      CreateUnderWay(hash, st, p, digest, pieces, n - 1);
      assert Front(cs[..n]) == cs[..n - 1] && Front(pieces[..n]) == pieces[..n - 1];
      RunSnoc(hash, st, cs[..n]);
      var ph := ArriveAll(Creation, openable, pieces[..n - 1]);
      MidCreate(hash, st, p, digest, ph, Made(p, pieces[..n - 1]), pieces[n - 1]);
    }
  }

  lemma NothingYet(st: Local, p: Path)
    ensures CreateState(st, p, Waiting, 0) == st
  {
    assert st.disk.dirs + Prefixes(Front(st.Abs(p)), 0) == st.disk.dirs;
  }

  /** A whole CREATE, in any number of chunks and whatever the operating system does at each: OK for
      exactly the chunks that arrive, and then what the last one leads to. */
  lemma ChunkedCreate(hash: Hasher, st: Local, p: Path, digest: bytes, pieces: seq<Piece>)
    requires CanReceive(st, p) && pieces != []
    ensures var openable, sofar := st.Abs(p) !in st.disk.dirs, Front(pieces);
      var ph := ArriveAll(Creation, openable, sofar);
      RunAll(hash, st, Creates(p, digest, pieces))
      == Then(Finished(CreateState(st, p, ph, Made(p, sofar)), Receptions(Creation, openable, sofar)),
              CreateEnd(hash, st, p, digest, ph, Made(p, sofar), Last(pieces)))
  {
    hide CreateChunk, CreateState, CreateEnd, RunAll;
    var n, cs, openable := |pieces|, Creates(p, digest, pieces), st.Abs(p) !in st.disk.dirs;
    CreateUnderWay(hash, st, p, digest, pieces, n - 1);
    assert Front(cs) == cs[..n - 1] && Front(pieces) == pieces[..n - 1];
    RunSnoc(hash, st, cs);
    LastCreate(hash, st, p, digest, ArriveAll(Creation, openable, Front(pieces)), Made(p, Front(pieces)), Last(pieces));
  }

  // UPDATE

  /** `p` is an entry with another digest, no file bears its temporary name, and the user has no
      stream. */
  ghost predicate CanReplace(st: Local, p: Path, digest: bytes) {
    && p != [] && p in st.index && st.index[p].digest != digest && st.handle.Absent?
    && st.Abs(p) in st.disk.files && st.Abs(p) !in st.disk.dirs && st.disk.IsDir(Front(st.Abs(p)))
    && st.Abs(TempOf(p)) !in st.disk.files
  }

  /** Nor does a directory. */
  ghost predicate CanUpdate(st: Local, p: Path, digest: bytes) {
    CanReplace(st, p, digest) && st.Abs(TempOf(p)) !in st.disk.dirs
  }

  /** The state in the middle of an UPDATE: the old file is untouched and its digest stands. */
  function Updating(st: Local, p: Path, content: bytes): Local
    requires p != [] && p in st.index
  {
    Local(st.home, WithNewFile(st, st.Abs(TempOf(p)), content),
          Opened(Inode(st.home, st.disk.NextInode(st.home))),
          st.index[p := Resource(false, st.index[p].digest)])
  }

  /** The state of an UPDATE in the given phase. */
  function UpdateState(st: Local, p: Path, ph: Phase): Local
    requires p != [] && p in st.index
  {
    match ph
    case Waiting => st
    case Receiving(content) => Updating(st, p, content)
    case Jammed(stray) => st.(disk := if stray then WithNewFile(st, st.Abs(TempOf(p)), []) else st.disk, handle := Bad)
  }

  /** What the update leaves: the new bytes in place of the old, or nothing under this name. The
      temporary file is gone either way. */
  function Updated(st: Local, p: Path, digest: bytes, content: bytes, good: bool): Local {
    var disk := WithNewFile(st, st.Abs(p), content);
    if good then st.(disk := disk, index := st.index[p := Resource(true, digest)])
    else st.(disk := disk.RemoveFile(st.Abs(p)), index := st.index - {p})
  }

  lemma UpdateWrite(st: Local, p: Path, digest: bytes, ph: Phase, x: Piece)
    requires CanReplace(st, p, digest)
    ensures var before, openable := UpdateState(st, p, ph), st.Abs(TempOf(p)) !in st.disk.dirs;
      var after := Arrive(Replacement, openable, ph, x);
      WriteChunk(before, st.Abs(TempOf(p)), x.content, x.faults.open)
      == if x.faults.open.Throws? || after.Jammed? then NotWritten(UpdateState(st, p, after))
         else Written(UpdateState(st, p, after).(index := before.index), ph.Waiting?)
  {
    var temp, before := st.Abs(TempOf(p)), UpdateState(st, p, ph);
    assert Front(temp) == Front(st.Abs(p));
    match ph
    case Waiting => FirstWrite(before, temp, x);
    case Receiving(content) => MoreWrite(st, before, temp, content, x);
    case Jammed(_) => BadWrite(before, temp, x);
    hide WriteChunk;
  }

  lemma MidUpdate(hash: Hasher, st: Local, p: Path, digest: bytes, ph: Phase, x: Piece)
    requires CanReplace(st, p, digest)
    ensures var openable := st.Abs(TempOf(p)) !in st.disk.dirs;
      UpdateChunk(hash, UpdateState(st, p, ph), p, digest, x.content, false, x.faults)
      == Next(UpdateState(st, p, Arrive(Replacement, openable, ph, x)), Reception(Replacement, openable, ph, x))
  {
    UpdateWrite(st, p, digest, ph, x);
    hide WriteChunk, WithNewFile;
  }

  /** What the last chunk of an UPDATE leads to. */
  function UpdateEnd(hash: Hasher, st: Local, p: Path, digest: bytes, ph: Phase, x: Piece): Step
    requires p != [] && p in st.index
  {
    match EndOf(hash, Replacement, st.Abs(TempOf(p)) !in st.disk.dirs, p, digest, ph, x)
    case Unwritten(after) => Next(UpdateState(st, p, after), Err(ERR_UPDATE_FAILED))
    case Judged(content, Good) => Next(Updated(st, p, digest, content, true), Ok)
    case Judged(content, Wrong(status)) => Next(Updated(st, p, digest, content, false), status)
    case Judged(_, Fatal) => Halt
  }

  lemma LastUpdate(hash: Hasher, st: Local, p: Path, digest: bytes, ph: Phase, x: Piece)
    requires CanReplace(st, p, digest)
    ensures UpdateChunk(hash, UpdateState(st, p, ph), p, digest, x.content, true, x.faults)
         == UpdateEnd(hash, st, p, digest, ph, x)
  {
    UpdateWrite(st, p, digest, ph, x);
    var before := UpdateState(st, p, ph);
    var after := Arrive(Replacement, st.Abs(TempOf(p)) !in st.disk.dirs, ph, x);
    if !x.faults.open.Throws? && after.Receiving? {
      var index := before.index[p := Resource(true, digest)];
      assert index == st.index[p := Resource(true, digest)];
      UpdateSettles(hash, st, p, digest, after.content, x.faults);
    }
    hide WriteChunk, WithNewFile, Settle, Judge, Replace;
  }

  lemma UpdateSettles(hash: Hasher, st: Local, p: Path, digest: bytes, content: bytes, f: Faults)
    requires CanReplace(st, p, digest)
    ensures var index := st.index[p := Resource(true, digest)];
      var written := Local(st.home, WithNewFile(st, st.Abs(TempOf(p)), content), Absent, index);
      && (Replace(written, p, f).None? <==> f.removeFails || f.renameFails)
      && (Replace(written, p, f).Some? ==>
            Settle(hash, Replace(written, p, f).value, p, digest, f, ERR_UPDATE_NO_MATCH, ERR_UPDATE_FAILED)
            == match Judge(hash, Replacement, p, digest, content, f)
               case Good => Next(Updated(st, p, digest, content, true), Ok)
               case Wrong(status) => Next(Updated(st, p, digest, content, false), status)
               case Fatal => Halt)
  {
    var path, temp := st.Abs(p), st.Abs(TempOf(p));
    TempIsTemp(p);
    AbsInjective(st);
    var index := st.index[p := Resource(true, digest)];
    var disk := WithNewFile(st, temp, content);
    assert disk.RemoveFile(path).Rename(temp, path) == WithNewFile(st, path, content);
    var st3 := Local(st.home, WithNewFile(st, path, content), Absent, index);
    var replaced := Replace(Local(st.home, disk, Absent, index), p, f);
    assert replaced.Some? ==> replaced.value == st3;
    assert st3.disk.Read(path) == content;
    assert index - {p} == st.index - {p};
  }

  /** Until its last chunk an update leaves the file and its digest alone; in the temporary file there
      is exactly what was answered OK. */
  lemma {:induction false} UpdateUnderWay(
    hash: Hasher, st: Local, p: Path, digest: bytes, pieces: seq<Piece>, n: nat)
    requires CanReplace(st, p, digest) && n < |pieces|
    ensures var openable := st.Abs(TempOf(p)) !in st.disk.dirs;
      RunAll(hash, st, Updates(p, digest, pieces)[..n])
      == Finished(UpdateState(st, p, ArriveAll(Replacement, openable, pieces[..n])),
                  Receptions(Replacement, openable, pieces[..n]))
  {
    hide UpdateChunk;
    var cs, openable := Updates(p, digest, pieces), st.Abs(TempOf(p)) !in st.disk.dirs;
    if n == 0 {
      assert cs[..0] == [] && pieces[..0] == [];
    } else {
      UpdateUnderWay(hash, st, p, digest, pieces, n - 1);
      assert Front(cs[..n]) == cs[..n - 1] && Front(pieces[..n]) == pieces[..n - 1];
      RunSnoc(hash, st, cs[..n]);
      MidUpdate(hash, st, p, digest, ArriveAll(Replacement, openable, pieces[..n - 1]), pieces[n - 1]);
    }
  }

  /** A whole UPDATE, in any number of chunks and whatever the operating system does at each. */
  lemma ChunkedUpdate(hash: Hasher, st: Local, p: Path, digest: bytes, pieces: seq<Piece>)
    requires CanReplace(st, p, digest) && pieces != []
    ensures var openable, sofar := st.Abs(TempOf(p)) !in st.disk.dirs, Front(pieces);
      var ph := ArriveAll(Replacement, openable, sofar);
      RunAll(hash, st, Updates(p, digest, pieces))
      == Then(Finished(UpdateState(st, p, ph), Receptions(Replacement, openable, sofar)),
              UpdateEnd(hash, st, p, digest, ph, Last(pieces)))
  {
    hide UpdateChunk, UpdateState, UpdateEnd, RunAll;
    var n, cs, openable := |pieces|, Updates(p, digest, pieces), st.Abs(TempOf(p)) !in st.disk.dirs;
    UpdateUnderWay(hash, st, p, digest, pieces, n - 1);
    assert Front(cs) == cs[..n - 1] && Front(pieces) == pieces[..n - 1];
    RunSnoc(hash, st, cs);
    LastUpdate(hash, st, p, digest, ArriveAll(Replacement, openable, Front(pieces)), Last(pieces));
  }

  // What the replies mean.

  /** When a CREATE ends with OK, exactly the chunks answered OK are in the file, their digest is the
      one announced, and the entry is synced. When it ends with an error, there is neither entry nor
      file, except for an empty one behind a stream that failed to open; but if an earlier chunk was
      answered OK and the last was turned back, the chunks answered OK, the TEMP entry and the open
      stream stay. */
  lemma CreateReplies(hash: Hasher, st: Local, p: Path, digest: bytes, pieces: seq<Piece>)
    requires CanReceive(st, p) && pieces != [] && RunAll(hash, st, Creates(p, digest, pieces)).Finished?
    ensures var run := RunAll(hash, st, Creates(p, digest, pieces));
      && |run.statuses| == |pieces|
      && var ss, kept, after := run.statuses, Kept(pieces, run.statuses), run.st;
      && (Last(ss) == Ok <==> after == Created(st, p, digest, kept, true))
      && (Last(ss) == Ok ==> hash(p, kept) == digest && after.handle.Absent?)
      && (Last(ss) != Ok ==>
            && (after.handle.Opened? <==> TurnedBack(Creation, Last(pieces).faults) && Ok in ss)
            && (after.handle.Opened? ==> after == Creating(st, p, kept))
            && (!after.handle.Opened? ==>
                  && after.index == st.index
                  && (st.Abs(p) in after.disk.files ==> after.handle.Bad? && after.disk.Read(st.Abs(p)) == [])))
  {
    var openable, sofar := st.Abs(p) !in st.disk.dirs, Front(pieces);
    ChunkedCreate(hash, st, p, digest, pieces);
    ArrivedIsKept(Creation, openable, sofar);
    CreateEndMeaning(hash, st, p, digest, ArriveAll(Creation, openable, sofar), Made(p, sofar), Last(pieces));
    CreatedEntry(st, p, digest, Kept(pieces, RunAll(hash, st, Creates(p, digest, pieces)).statuses));
    hide RunAll, CreateState, Created, Creating, ArriveAll, Receptions, Made, CreateEnd, Kept, CanReceive, Disk.Read;
    var run := RunAll(hash, st, Creates(p, digest, pieces));
    assert Front(run.statuses) == Receptions(Creation, openable, sofar);
    KeptSnoc(pieces, run.statuses);
  }

  lemma CreateEndMeaning(hash: Hasher, st: Local, p: Path, digest: bytes, ph: Phase, depth: nat, x: Piece)
    requires CanReceive(st, p)
    ensures var s, sent := CreateEnd(hash, st, p, digest, ph, depth, x), if ph.Receiving? then ph.content else [];
      s.Next? ==>
        && (s.status == Ok <==> p in s.st.index && s.st.index[p] == Resource(true, digest))
        && (s.status == Ok ==>
              && s.st == Created(st, p, digest, sent + x.content, true)
              && hash(p, sent + x.content) == digest && s.st.handle.Absent?)
        && (s.status != Ok ==>
              && (s.st.handle.Opened? <==> TurnedBack(Creation, x.faults) && ph.Receiving?)
              && (s.st.handle.Opened? ==> s.st == Creating(st, p, sent))
              && (!s.st.handle.Opened? ==>
                    && s.st.index == st.index
                    && (st.Abs(p) in s.st.disk.files ==> s.st.handle.Bad? && s.st.disk.Read(st.Abs(p)) == [])))
  {
    hide Disk.Blocked, Prefixes;
    assert [] + x.content == x.content;
  }

  lemma CreatedEntry(st: Local, p: Path, digest: bytes, content: bytes)
    ensures p in Created(st, p, digest, content, true).index
    ensures Created(st, p, digest, content, true).index[p] == Resource(true, digest)
  {
  }

  /** A CREATE whose chunks are all answered OK stores the whole file. */
  lemma OkMeansStored(hash: Hasher, st: Local, p: Path, digest: bytes, pieces: seq<Piece>)
    requires CanReceive(st, p) && pieces != []
    requires var run := RunAll(hash, st, Creates(p, digest, pieces));
      run.Finished? && forall s <- run.statuses :: s == Ok
    ensures hash(p, Whole(pieces)) == digest
    ensures RunAll(hash, st, Creates(p, digest, pieces)).st == Created(st, p, digest, Whole(pieces), true)
  {
    hide RunAll, Created, Creating, Kept, Whole;
    CreateReplies(hash, st, p, digest, pieces);
    var statuses := RunAll(hash, st, Creates(p, digest, pieces)).statuses;
    assert Last(statuses) in statuses;
    AllOkIsWhole(pieces, statuses);
  }

  /** The same for an UPDATE. One that ends with an error leaves no entry and no file, unless nothing
      was put in the file's place: then the old file stands, under its old digest. */
  lemma UpdateReplies(hash: Hasher, st: Local, p: Path, digest: bytes, pieces: seq<Piece>)
    requires CanReplace(st, p, digest) && pieces != [] && RunAll(hash, st, Updates(p, digest, pieces)).Finished?
    ensures var run := RunAll(hash, st, Updates(p, digest, pieces));
      && |run.statuses| == |pieces|
      && var ss, kept, after := run.statuses, Kept(pieces, run.statuses), run.st;
         var back := TurnedBack(Replacement, Last(pieces).faults);
      && (Last(ss) == Ok <==> after == Updated(st, p, digest, kept, true))
      && (Last(ss) == Ok ==> hash(p, kept) == digest && after.handle.Absent?)
      && (Last(ss) != Ok ==>
            && (after.handle.Opened? <==> back && Ok in ss)
            && (after.handle.Opened? ==> after == Updating(st, p, kept))
            && (p !in after.index <==> !back && !after.handle.Bad?)
            && (p !in after.index ==> st.Abs(p) !in after.disk.files)
            && (p in after.index ==>
                  && after.index[p].digest == st.index[p].digest
                  && st.Abs(p) in after.disk.files && after.disk.files[st.Abs(p)] == st.disk.files[st.Abs(p)]))
  {
    var openable, sofar := st.Abs(TempOf(p)) !in st.disk.dirs, Front(pieces);
    ChunkedUpdate(hash, st, p, digest, pieces);
    ArrivedIsKept(Replacement, openable, sofar);
    UpdateEndMeaning(hash, st, p, digest, ArriveAll(Replacement, openable, sofar), Last(pieces));
    UpdatedEntry(st, p, digest, Kept(pieces, RunAll(hash, st, Updates(p, digest, pieces)).statuses));
    hide RunAll, UpdateState, Updated, Updating, ArriveAll, Receptions, UpdateEnd, Kept, CanReplace;
    var run := RunAll(hash, st, Updates(p, digest, pieces));
    assert Front(run.statuses) == Receptions(Replacement, openable, sofar);
    KeptSnoc(pieces, run.statuses);
  }

  lemma UpdateEndMeaning(hash: Hasher, st: Local, p: Path, digest: bytes, ph: Phase, x: Piece)
    requires CanReplace(st, p, digest)
    ensures var s, sent := UpdateEnd(hash, st, p, digest, ph, x), if ph.Receiving? then ph.content else [];
      var back := TurnedBack(Replacement, x.faults);
      s.Next? ==>
        && (s.status == Ok <==> p in s.st.index && s.st.index[p] == Resource(true, digest))
        && (s.status == Ok ==>
              && s.st == Updated(st, p, digest, sent + x.content, true)
              && hash(p, sent + x.content) == digest && s.st.handle.Absent?)
        && (s.status != Ok ==>
              && (s.st.handle.Opened? <==> back && ph.Receiving?)
              && (s.st.handle.Opened? ==> s.st == Updating(st, p, sent))
              && (p !in s.st.index <==> !back && !s.st.handle.Bad?)
              && (p !in s.st.index ==> st.Abs(p) !in s.st.disk.files)
              && (p in s.st.index ==>
                    && s.st.index[p].digest == st.index[p].digest
                    && st.Abs(p) in s.st.disk.files && s.st.disk.files[st.Abs(p)] == st.disk.files[st.Abs(p)]))
  {
    TempIsTemp(p);
    AbsInjective(st);
    assert [] + x.content == x.content;
  }

  lemma UpdatedEntry(st: Local, p: Path, digest: bytes, content: bytes)
    ensures p in Updated(st, p, digest, content, true).index
    ensures Updated(st, p, digest, content, true).index[p] == Resource(true, digest)
  {
  }

  /** The file has these bytes. */
  ghost predicate Holds(disk: Disk, path: Path, content: bytes) {
    path in disk.files && disk.files[path] in disk.data && disk.data[disk.files[path]] == content
  }

  /** What a transfer left under way does to the next: the chunks of another file are added to the
      first one. */
  lemma NextGoesToTheSameFile(hash: Hasher, st: Local, p: Path, sent: bytes, r: Request, f: Faults)
    requires CanCreate(st, p) && r.path != [] && r.path != p
    requires r.Update? ==> TempOf(r.path) != p
    requires Writes(Creating(st, p, sent), r, f)
    ensures !r.Erase?
    ensures var s := Serve(hash, Creating(st, p, sent), r, f);
      s.Next? ==> Holds(s.st.disk, st.Abs(p), sent + r.content)
  {
    HalfWritten(st, p, sent);
    var now, path := Creating(st, p, sent), st.Abs(p);
    match r
    case Create(q, digest, content, last) =>
      var now0 := now.(disk := now.disk.MakeDirs(Front(st.Abs(q)), f.mkdir).0);
      StreamWrite(now0, path, st.Abs(q), sent, content, f.open);
      var st1 := WriteChunk(now0, st.Abs(q), content, f.open).st;
      SettleElsewhere(hash, st1.(index := st1.index[q := Resource(true, digest)], handle := Absent), p, q, digest,
        sent + content, f, ERR_CREATE_NO_MATCH, ERR_CREATE_FAILED);
      hide WriteChunk, Disk.MakeDirs, Creating, CanCreate, Settle, Holds;
    case Update(q, digest, content, last) =>
      StreamWrite(now, path, st.Abs(TempOf(q)), sent, content, f.open);
      var st1 := WriteChunk(now, st.Abs(TempOf(q)), content, f.open).st;
      var st2 := st1.(index := st1.index[q := Resource(true, digest)], handle := Absent);
      ReplaceElsewhere(st2, p, q, sent + content, f);
      if Replace(st2, q, f).Some? {
        SettleElsewhere(hash, Replace(st2, q, f).value, p, q, digest, sent + content, f,
          ERR_UPDATE_NO_MATCH, ERR_UPDATE_FAILED);
      }
      hide WriteChunk, Creating, CanCreate, Settle, Replace, Holds;
  }

  lemma HalfWritten(st: Local, p: Path, sent: bytes)
    ensures var now := Creating(st, p, sent);
      && Holds(now.disk, st.Abs(p), sent) && now.handle == Opened(now.disk.files[st.Abs(p)])
      && now.handle.inode.n < now.disk.NextInode(now.handle.inode.home) && now.home == now.handle.inode.home == st.home
  {
  }

  /** A write goes to the stream the user has, and that file keeps its name. */
  lemma StreamWrite(st: Local, path: Path, target: Path, sent: bytes, content: bytes, open: OpenOutcome)
    requires Holds(st.disk, path, sent) && st.handle == Opened(st.disk.files[path]) && target != []
    requires st.handle.inode.home == target[0] && st.handle.inode.n < st.disk.NextInode(target[0])
    ensures var w := WriteChunk(st, target, content, open);
      w.Written? ==> w.st.handle == st.handle && w.st.home == st.home && Holds(w.st.disk, path, sent + content)
  {
  }

  lemma SettleElsewhere(
    hash: Hasher, st: Local, p: Path, q: Path, digest: bytes, content: bytes, f: Faults, noMatch: nat, failed: nat)
    requires Holds(st.disk, st.Abs(p), content) && p != q
    ensures var r := Settle(hash, st, q, digest, f, noMatch, failed);
      r.Next? ==> Holds(r.st.disk, st.Abs(p), content)
  {
    AbsInjective(st);
  }

  lemma ReplaceElsewhere(st: Local, p: Path, q: Path, content: bytes, f: Faults)
    requires Holds(st.disk, st.Abs(p), content) && q != [] && p != q && TempOf(q) != p
    ensures var r := Replace(st, q, f);
      r.Some? ==> Holds(r.value.disk, st.Abs(p), content) && r.value.home == st.home
  {
    AbsInjective(st);
  }
}
