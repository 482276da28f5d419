/** The actual state of one filesystem entry: a closed sum of four variants
    decided once, from one inspection, when the entry is built; each variant
    projects to a comparable `EntryState` and knows how to remove itself. */
module ActualState {
  import opened Wrappers
  import opened FileModes
  import opened Errors
  import opened Systems
  import opened Lazy

  datatype EntryStateType = TypeRemove | TypeDir | TypeFile | TypeSymlink

  /** The comparable descriptor of an entry. `contentsSHA256` and `contents`
      are empty where the program leaves them nil. */
  datatype EntryState = Descriptor(typ: EntryStateType, mode: FileMode, contentsSHA256: Bytes, contents: Bytes)

  /** The variant and the captured permission bits of an entry, without its cells. */
  datatype Kind = AbsentKind | DirKind(perm: FileMode) | FileKind(perm: FileMode) | SymlinkKind

  datatype ActualStateEntry =
    | Absent(absPath: AbsPath)
    | Dir(absPath: AbsPath, perm: FileMode)
    | File(absPath: AbsPath, perm: FileMode, lazyContents: LazyBytes)
    | Symlink(absPath: AbsPath, lazyLinkname: LazyBytes)
  {
    /** The lazy cell of a file or a symlink. */
    function Cells(): set<LazyBytes> {
      match this
      case File(_, _, c) => {c}
      case Symlink(_, c) => {c}
      case _ => {}
    }

    /** The systems the cells are bound to. */
    function CellSystems(): set<System>
      reads Cells()
    {
      set c | c in Cells() :: c.system
    }

    ghost predicate Valid()
      reads Cells()
    {
      match this
      case File(p, _, c) => c.Valid() && c.absPath == p && c.fetch == ReadFileOf
      case Symlink(p, c) => c.Valid() && c.absPath == p && c.fetch == ReadlinkOf
      case _ => true
    }

    function Kind(): Kind {
      match this
      case Absent(_) => AbsentKind
      case Dir(_, perm) => DirKind(perm)
      case File(_, perm, _) => FileKind(perm)
      case Symlink(_, _) => SymlinkKind
    }

    /** Go's `Path()`. */
    function Path(): AbsPath {
      absPath
    }

    /** Go's `EntryState()`. Absent and Dir never fail and touch nothing; File
        and Symlink force their cell, so the underlying read happens on the
        first call only, and pass a fetch error on. */
    method EntryState() returns (r: Result<EntryState, Error>)
      requires Valid()
      modifies Cells()`cached, Cells()`fetches, Cells()`digest, CellSystems()`readFileCalls, CellSystems()`readlinkCalls
      ensures Valid()
      ensures Absent? ==> r == Success(Descriptor(TypeRemove, 0, [], []))
      ensures Dir? ==> r == Success(Descriptor(TypeDir, ModeDir | perm, [], []))
      ensures File? ==> lazyContents.cached.Some? && r == ExpectedEntryState(Kind(), lazyContents.cached.value, lazyContents.hash)
      ensures Symlink? ==> lazyLinkname.cached.Some? && r == ExpectedEntryState(Kind(), lazyLinkname.cached.value, lazyLinkname.hash)
      ensures forall c | c in Cells() :: old(c.cached).Some? ==> c.cached == old(c.cached)
      ensures forall c | c in Cells() :: old(c.cached).None? ==> c.cached == Some(old(c.FetchResult()))
      ensures forall c | c in Cells() :: c.system.readFileCalls + c.system.readlinkCalls
                                         == old(c.system.readFileCalls + c.system.readlinkCalls) + (if old(c.cached).None? then 1 else 0)
      ensures File? ==> && lazyContents.system.readlinkCalls == old(lazyContents.system.readlinkCalls)
                        && lazyContents.system.readFileCalls == old(lazyContents.system.readFileCalls) + (if old(lazyContents.cached).None? then 1 else 0)
      ensures Symlink? ==> && lazyLinkname.system.readFileCalls == old(lazyLinkname.system.readFileCalls)
                           && lazyLinkname.system.readlinkCalls == old(lazyLinkname.system.readlinkCalls) + (if old(lazyLinkname.cached).None? then 1 else 0)
    {
      match this
      case Absent(_) =>
        r := Success(Descriptor(TypeRemove, 0, [], []));
      case Dir(_, perm) =>
        r := Success(Descriptor(TypeDir, ModeDir | perm, [], []));
      case File(_, perm, cell) =>
        r := CellEntryState(cell, FileKind(perm));
      case Symlink(_, cell) =>
        r := CellEntryState(cell, SymlinkKind);
    }

    /** Go's `Remove(system)`: nothing for Absent, `system.RemoveAll` of the
        entry's own path for every other variant. */
    method Remove(system: System) returns (err: Option<Error>)
      modifies system`fs, system`removeAllCalls
      ensures Absent? ==> err.None? && system.fs == old(system.fs) && system.removeAllCalls == old(system.removeAllCalls)
      ensures !Absent? ==> && err == old(system.RemoveAllResult(absPath))
                           && system.fs == old(system.AfterRemoveAll(absPath))
                           && system.removeAllCalls == old(system.removeAllCalls) + [absPath]
    {
      if Absent? {
        err := None;
      } else {
        err := system.RemoveAll(absPath);
      }
    }
  }

  /** The body of `EntryState` for a file (`k` is `FileKind(perm)`) or a
      symlink: force the cell, pass a fetch error on, else take the digest
      and build the descriptor. */
  method CellEntryState(cell: LazyBytes, k: Kind) returns (r: Result<EntryState, Error>)
    requires cell.Valid() && (k.FileKind? || k.SymlinkKind?)
    modifies cell`cached, cell`fetches, cell`digest, cell.system`readFileCalls, cell.system`readlinkCalls
    ensures cell.Valid() && cell.cached.Some?
    ensures old(cell.cached).Some? ==> cell.cached == old(cell.cached)
    ensures old(cell.cached).None? ==> cell.cached == Some(old(cell.FetchResult()))
    ensures r == ExpectedEntryState(k, cell.cached.value, cell.hash)
    ensures cell.system.readFileCalls == old(cell.system.readFileCalls) + (if old(cell.cached).None? && cell.fetch == ReadFileOf then 1 else 0)
    ensures cell.system.readlinkCalls == old(cell.system.readlinkCalls) + (if old(cell.cached).None? && cell.fetch == ReadlinkOf then 1 else 0)
  {
    var fetched := cell.Get();
    if fetched.Failure? {
      return Failure(fetched.error);
    }
    var sha256 := cell.Digest();
    match sha256 {
      case Failure(e) => return Failure(e);
      case Success(digest) =>
        match k {
          case FileKind(perm) => r := Success(Descriptor(TypeFile, perm, digest, fetched.value));
          case SymlinkKind => r := Success(Descriptor(TypeSymlink, 0, digest, fetched.value));
        }
    }
  }

  /** What `ActualStateFile.EntryState` makes of the fetched contents. */
  function FileEntryState(perm: FileMode, fetched: Result<Bytes, Error>, hash: Bytes -> Bytes): Result<EntryState, Error> {
    match fetched
    case Failure(e) => Failure(e)
    case Success(contents) => Success(Descriptor(TypeFile, perm, hash(contents), contents))
  }

  /** What `ActualStateSymlink.EntryState` makes of the fetched link target. */
  function SymlinkEntryState(fetched: Result<Bytes, Error>, hash: Bytes -> Bytes): Result<EntryState, Error> {
    match fetched
    case Failure(e) => Failure(e)
    case Success(linkname) => Success(Descriptor(TypeSymlink, 0, hash(linkname), linkname))
  }

  /** The entry state of an entry of kind `k` whose cell fetched `fetched`
      (ignored for the kinds without a cell). */
  function ExpectedEntryState(k: Kind, fetched: Result<Bytes, Error>, hash: Bytes -> Bytes): Result<EntryState, Error> {
    match k
    case AbsentKind => Success(Descriptor(TypeRemove, 0, [], []))
    case DirKind(perm) => Success(Descriptor(TypeDir, ModeDir | perm, [], []))
    case FileKind(perm) => FileEntryState(perm, fetched, hash)
    case SymlinkKind => SymlinkEntryState(fetched, hash)
  }

  /** The inspection a caller supplies as a non-nil `info` and an `err`:
      the error, when there is one, takes precedence. */
  function Supplied(info: FileMode, err: Option<Error>): Result<FileMode, Error> {
    if err.Some? then Failure(err.value) else Success(info)
  }

  /** The decision `NewActualStateEntry` takes on one inspection result. */
  function Classify(absPath: AbsPath, inspection: Result<FileMode, Error>): (r: Result<Kind, Error>)
    ensures r == Success(AbsentKind) <==> inspection.Failure? && IsNotExist(inspection.error)
    ensures inspection.Failure? && !IsNotExist(inspection.error) ==> r == Failure(inspection.error)
    ensures inspection.Success? ==>
              (r.Success? <==> inspection.value & ModeType in {0, ModeDir, ModeSymlink})
    ensures inspection.Success? && r.Failure? ==> r.error == UnsupportedFileType(absPath, inspection.value)
    ensures r.Success? && (r.value.FileKind? || r.value.DirKind?) ==>
              inspection.Success? && r.value.perm == inspection.value & ModePerm && r.value.perm & ModeType == 0
  {
    match inspection
    case Failure(e) =>
      if IsNotExist(e) then Success(AbsentKind) else Failure(e)
    case Success(mode) =>
      var typ := mode & ModeType;
      if typ == 0 then Success(FileKind(mode & ModePerm))
      else if typ == ModeDir then Success(DirKind(mode & ModePerm))
      else if typ == ModeSymlink then Success(SymlinkKind)
      else Failure(UnsupportedFileType(absPath, mode))
  }

  function ShapeOf(r: Result<ActualStateEntry, Error>): Result<Kind, Error> {
    match r
    case Success(e) => Success(e.Kind())
    case Failure(err) => Failure(err)
  }

  /** Go's `NewActualStateEntry`. With no `info` it inspects `absPath` with
      exactly one `Lstat`; with an `info` it calls nothing and decides on the
      supplied pair. It never reads contents or link targets: the cells of a
      new entry are bound to `system` and `absPath` and not yet forced. */
  method NewActualStateEntry(system: System, absPath: AbsPath, info: Option<FileMode>, err: Option<Error>, hash: Bytes -> Bytes)
    returns (r: Result<ActualStateEntry, Error>)
    modifies system`lstatCalls
    ensures system.lstatCalls == old(system.lstatCalls) + (if info.None? then 1 else 0)
    ensures system.readFileCalls == old(system.readFileCalls) && system.readlinkCalls == old(system.readlinkCalls)
    ensures system.fs == old(system.fs)
    ensures ShapeOf(r) == Classify(absPath, if info.Some? then Supplied(info.value, err) else system.Inspection(LstatOp, absPath))
    ensures r.Success? ==> r.value.Path() == absPath && r.value.Valid() && fresh(r.value.Cells())
    ensures r.Success? ==> forall c | c in r.value.Cells() :: c.system == system && c.absPath == absPath && c.hash == hash && c.cached.None?
    ensures r.Success? && r.value.File? ==> r.value.lazyContents.fetch == ReadFileOf
    ensures r.Success? && r.value.Symlink? ==> r.value.lazyLinkname.fetch == ReadlinkOf
  {
    var info, err := info, err;
    if info.None? {
      var lstat := system.Lstat(absPath);
      info, err := if lstat.Success? then Some(lstat.value) else None, lstat.Err();
    }
    if err.Some? && IsNotExist(err.value) {
      return Success(Absent(absPath));
    } else if err.Some? {
      return Failure(err.value);
    }
    r := EntryOfMode(system, absPath, info.value, hash);
  }

  /** The switch of `NewActualStateEntry` on the type bits of a mode that was
      inspected without error. */
  method EntryOfMode(system: System, absPath: AbsPath, mode: FileMode, hash: Bytes -> Bytes)
    returns (r: Result<ActualStateEntry, Error>)
    ensures ShapeOf(r) == Classify(absPath, Success(mode))
    ensures r.Success? ==> r.value.Path() == absPath && r.value.Valid() && fresh(r.value.Cells())
    ensures r.Success? ==> forall c | c in r.value.Cells() :: c.system == system && c.absPath == absPath && c.hash == hash && c.cached.None?
    ensures r.Success? && r.value.File? ==> r.value.lazyContents.fetch == ReadFileOf
    ensures r.Success? && r.value.Symlink? ==> r.value.lazyLinkname.fetch == ReadlinkOf
  {
    var typ := mode & ModeType;
    if typ == 0 {
      var cell := new LazyBytes(system, absPath, ReadFileOf, hash);
      r := Success(File(absPath, mode & ModePerm, cell));
    } else if typ == ModeDir {
      r := Success(Dir(absPath, mode & ModePerm));
    } else if typ == ModeSymlink {
      var cell := new LazyBytes(system, absPath, ReadlinkOf, hash);
      r := Success(Symlink(absPath, cell));
    } else {
      r := Failure(UnsupportedFileType(absPath, mode));
    }
  }

  /** `EntryState()` asked twice of the same entry answers the same both
      times and reads the filesystem at most once. */
  method EntryStateTwice(e: ActualStateEntry) returns (first: Result<EntryState, Error>, second: Result<EntryState, Error>)
    requires e.Valid()
    modifies e.Cells()`cached, e.Cells()`fetches, e.Cells()`digest, e.CellSystems()`readFileCalls, e.CellSystems()`readlinkCalls
    ensures e.Valid() && first == second
    ensures forall c | c in e.Cells() :: c.system.readFileCalls + c.system.readlinkCalls <= old(c.system.readFileCalls + c.system.readlinkCalls) + 1
  {
    first := e.EntryState();
    second := e.EntryState();
  }

  /** The type bits alone select the variant: none gives a file, `ModeDir` a
      directory, `ModeSymlink` a symlink, and every other combination is
      rejected with the path and the full mode, special bits included. */
  lemma TypeBitsSelectVariant(absPath: AbsPath, mode: FileMode)
    ensures Classify(absPath, Success(mode)) == Success(FileKind(mode & ModePerm)) <==> mode & ModeType == 0
    ensures Classify(absPath, Success(mode)) == Success(DirKind(mode & ModePerm)) <==> mode & ModeType == ModeDir
    ensures Classify(absPath, Success(mode)) == Success(SymlinkKind) <==> mode & ModeType == ModeSymlink
    ensures mode & ModeType !in {0, ModeDir, ModeSymlink} <==>
              Classify(absPath, Success(mode)) == Failure(UnsupportedFileType(absPath, mode))
  {
  }

  /** Named pipes, sockets, block and character devices and irregular files
      are all unsupported, whatever their permission and special bits. */
  lemma UnsupportedKindsRejected(absPath: AbsPath, typ: FileMode, rest: FileMode)
    requires typ in {ModeNamedPipe, ModeSocket, ModeDevice, ModeDevice | ModeCharDevice, ModeIrregular}
    requires rest & ModeType == 0
    ensures Classify(absPath, Success(typ | rest)) == Failure(UnsupportedFileType(absPath, typ | rest))
  {
  }

  /** The captured permission keeps only the nine `rwx` bits: setuid, setgid,
      sticky and append never reach the `perm` of a file or directory. */
  lemma SpecialBitsDropped(absPath: AbsPath, mode: FileMode)
    requires mode & ModeType in {0, ModeDir}
    ensures Classify(absPath, Success(mode)).Success?
    ensures Classify(absPath, Success(mode)).value.perm & (ModeSetuid | ModeSetgid | ModeSticky | ModeAppend) == 0
  {
  }

  /** The mode the entry state of a regular file reports is exactly the
      inspected mode restricted to its type and permission bits. */
  lemma FileEntryStateMode(absPath: AbsPath, mode: FileMode, contents: Bytes, hash: Bytes -> Bytes)
    requires mode & ModeType == 0
    ensures Classify(absPath, Success(mode)).Success?
    ensures ExpectedEntryState(Classify(absPath, Success(mode)).value, Success(contents), hash)
            == Success(Descriptor(TypeFile, mode & (ModeType | ModePerm), hash(contents), contents))
  {
    assert mode & (ModeType | ModePerm) == mode & ModePerm;
  }

  /** The same holds of a directory, whose reported mode keeps `ModeDir`. */
  lemma DirEntryStateMode(absPath: AbsPath, mode: FileMode, fetched: Result<Bytes, Error>, hash: Bytes -> Bytes)
    requires mode & ModeType == ModeDir
    ensures Classify(absPath, Success(mode)).Success?
    ensures ExpectedEntryState(Classify(absPath, Success(mode)).value, fetched, hash)
            == Success(Descriptor(TypeDir, mode & (ModeType | ModePerm), [], []))
  {
    assert mode & (ModeType | ModePerm) == ModeDir | (mode & ModePerm);
  }

  /** A symbolic link whose target reads successfully reports no mode, the
      digest of its target, and the target itself. */
  lemma SymlinkEntryStateOf(absPath: AbsPath, mode: FileMode, linkname: Bytes, hash: Bytes -> Bytes)
    requires mode & ModeType == ModeSymlink
    ensures Classify(absPath, Success(mode)) == Success(SymlinkKind)
    ensures ExpectedEntryState(Classify(absPath, Success(mode)).value, Success(linkname), hash)
            == Success(Descriptor(TypeSymlink, 0, hash(linkname), linkname))
  {
  }

  /** The variant fixes the descriptor's type and whether it can fail:
      absent and directory entries never fail; files and symlinks fail
      exactly when their fetch failed, with that same error, and otherwise
      carry the fetched bytes and their digest. */
  lemma EntryStateOutcomes(k: Kind, fetched: Result<Bytes, Error>, hash: Bytes -> Bytes)
    ensures var r := ExpectedEntryState(k, fetched, hash);
            && ((k.AbsentKind? || k.DirKind?) ==> r.Success? && r.value.contentsSHA256 == [] && r.value.contents == [])
            && ((k.FileKind? || k.SymlinkKind?) ==> (r.Failure? <==> fetched.Failure?))
            && ((k.FileKind? || k.SymlinkKind?) && fetched.Failure? ==> r.error == fetched.error)
            && ((k.FileKind? || k.SymlinkKind?) && fetched.Success? ==>
                  r.value.contents == fetched.value && r.value.contentsSHA256 == hash(fetched.value))
            && (r.Success? ==> r.value.typ == match k
                                              case AbsentKind => TypeRemove
                                              case DirKind(_) => TypeDir
                                              case FileKind(_) => TypeFile
                                              case SymlinkKind => TypeSymlink)
  {
  }
}
