/** The `System` capability through which every filesystem access of the
    actual-state code and of `chezmoi state reset` goes. Its implementation
    is not part of this model: a `System` here is an oracle over an abstract
    filesystem, with a fixed table of injected failures and counters that
    record how often each operation was called. */
module Systems {
  import opened Wrappers
  import opened FileModes
  import opened Errors

  newtype byte = b: int | 0 <= b < 256
  type Bytes = seq<byte>
  type AbsPath = string

  /** One filesystem object: its mode and its data (the contents of a
      regular file, the target of a symlink, nothing for a directory). */
  datatype Inode = Inode(mode: FileMode, data: Bytes)

  /** The operations of the capability, as keys of the failure table. */
  datatype Op = LstatOp | StatOp | ReadFileOp | ReadlinkOp | RemoveAllOp

  /** `p` is `root` itself or lies somewhere beneath it. The empty path
      holds nothing: Go's `os.RemoveAll("")` removes nothing and succeeds. */
  predicate Within(p: AbsPath, root: AbsPath) {
    root != "" && (p == root || (|root| < |p| && p[..|root|] == root && (p[|root|] == '/' || root[|root| - 1] == '/')))
  }

  /** The filesystem after the tree at `root` has been removed. */
  function RemoveTree(fs: map<AbsPath, Inode>, root: AbsPath): (r: map<AbsPath, Inode>)
    ensures forall p :: p in r <==> p in fs && !Within(p, root)
    ensures forall p | p in r :: r[p] == fs[p]
  {
    map p | p in fs && !Within(p, root) :: fs[p]
  }

  class System {
    /** The filesystem as this capability sees it. */
    var fs: map<AbsPath, Inode>
    /** The failures the underlying operating system reports, per operation and path. */
    const faults: map<(Op, AbsPath), Error>

    var lstatCalls: nat
    var statCalls: nat
    var readFileCalls: nat
    var readlinkCalls: nat
    /** Every path passed to `RemoveAll`, in order. */
    var removeAllCalls: seq<AbsPath>

    constructor (fs: map<AbsPath, Inode>, faults: map<(Op, AbsPath), Error>)
      ensures this.fs == fs && this.faults == faults
      ensures lstatCalls == 0 && statCalls == 0 && readFileCalls == 0 && readlinkCalls == 0
      ensures removeAllCalls == []
    {
      this.fs := fs;
      this.faults := faults;
      lstatCalls, statCalls, readFileCalls, readlinkCalls := 0, 0, 0, 0;
      removeAllCalls := [];
    }

    /** What an inspection of `p` by `op` (Lstat or Stat) reports. */
    function Inspection(op: Op, p: AbsPath): Result<FileMode, Error>
      reads this
    {
      if (op, p) in faults then Failure(faults[(op, p)])
      else if p !in fs then Failure(NotExist(p))
      else Success(fs[p].mode)
    }

    /** What `ReadFile(p)` reports. Go's `ReadFile` follows a symbolic link;
        this one returns the link's own data instead. No entry reaches that
        case: a file's cell is built only for a regular file, and the
        filesystem only loses paths afterwards. */
    function ReadFileResult(p: AbsPath): Result<Bytes, Error>
      reads this
    {
      if (ReadFileOp, p) in faults then Failure(faults[(ReadFileOp, p)])
      else if p !in fs then Failure(NotExist(p))
      else if fs[p].mode & ModeDir != 0 then Failure(IoFailure("is a directory"))
      else Success(fs[p].data)
    }

    function ReadlinkResult(p: AbsPath): Result<Bytes, Error>
      reads this
    {
      if (ReadlinkOp, p) in faults then Failure(faults[(ReadlinkOp, p)])
      else if p !in fs then Failure(NotExist(p))
      else if fs[p].mode & ModeSymlink == 0 then Failure(IoFailure("invalid argument"))
      else Success(fs[p].data)
    }

    /** `RemoveAll` fails only where the operating system reports a failure;
        a path that does not exist is removed successfully. */
    function RemoveAllResult(p: AbsPath): Option<Error>
      reads this
    {
      if (RemoveAllOp, p) in faults then Some(faults[(RemoveAllOp, p)]) else None
    }

    function AfterRemoveAll(p: AbsPath): map<AbsPath, Inode>
      reads this
    {
      if RemoveAllResult(p).Some? then fs else RemoveTree(fs, p)
    }

    method Lstat(p: AbsPath) returns (r: Result<FileMode, Error>)
      modifies this`lstatCalls
      ensures r == Inspection(LstatOp, p)
      ensures lstatCalls == old(lstatCalls) + 1
    {
      r := Inspection(LstatOp, p);
      lstatCalls := lstatCalls + 1;
    }

    method Stat(p: AbsPath) returns (r: Result<FileMode, Error>)
      modifies this`statCalls
      ensures r == Inspection(StatOp, p)
      ensures statCalls == old(statCalls) + 1
    {
      r := Inspection(StatOp, p);
      statCalls := statCalls + 1;
    }

    method ReadFile(p: AbsPath) returns (r: Result<Bytes, Error>)
      modifies this`readFileCalls
      ensures r == ReadFileResult(p)
      ensures readFileCalls == old(readFileCalls) + 1
    {
      r := ReadFileResult(p);
      readFileCalls := readFileCalls + 1;
    }

    method Readlink(p: AbsPath) returns (r: Result<Bytes, Error>)
      modifies this`readlinkCalls
      ensures r == ReadlinkResult(p)
      ensures readlinkCalls == old(readlinkCalls) + 1
    {
      r := ReadlinkResult(p);
      readlinkCalls := readlinkCalls + 1;
    }

    method RemoveAll(p: AbsPath) returns (err: Option<Error>)
      modifies this`fs, this`removeAllCalls
      ensures err == old(RemoveAllResult(p))
      ensures fs == old(AfterRemoveAll(p))
      ensures removeAllCalls == old(removeAllCalls) + [p]
    {
      err := RemoveAllResult(p);
      if err.None? {
        fs := RemoveTree(fs, p);
      }
      removeAllCalls := removeAllCalls + [p];
    }
  }

  /** Removing a tree leaves nothing at or beneath its root, keeps everything
      else, and removing it a second time changes nothing; removing the
      empty path changes nothing at all. */
  lemma RemoveTreeIdempotent(fs: map<AbsPath, Inode>, root: AbsPath)
    ensures root != "" ==> root !in RemoveTree(fs, root)
    ensures RemoveTree(fs, "") == fs
    ensures forall p | p in fs && !Within(p, root) :: p in RemoveTree(fs, root)
    ensures RemoveTree(RemoveTree(fs, root), root) == RemoveTree(fs, root)
  {
    if root != "" {
      assert Within(root, root);
    }
  }
}
