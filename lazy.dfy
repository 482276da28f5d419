/** The compute-once cells behind `ActualStateFile` and `ActualStateSymlink`
    (Go's `lazyContents` and `lazyLinkname`, whose code is not part of this
    model). Both wrap one fallible fetch bound at construction to a `System`
    and a path; the first request runs the fetch and caches its value or its
    error, every later request answers from the cache. One class serves both:
    `fetch` says whether the bound call is `ReadFile` or `Readlink`. */
module Lazy {
  import opened Wrappers
  import opened Errors
  import opened Systems

  datatype Fetch = ReadFileOf | ReadlinkOf

  class LazyBytes {
    const system: System
    const absPath: AbsPath
    const fetch: Fetch
    /** The digest function (SHA-256 in the program), left uninterpreted. */
    const hash: Bytes -> Bytes

    /** None until the first request; then the fetched bytes or the error. */
    var cached: Option<Result<Bytes, Error>>
    /** The cached digest of the fetched bytes, once asked for. */
    var digest: Option<Bytes>
    /** How often the bound fetch has run. */
    ghost var fetches: nat

    ghost predicate Valid()
      reads this
    {
      && fetches == (if cached.None? then 0 else 1)
      && (digest.Some? ==> cached.Some? && cached.value.Success? && digest.value == hash(cached.value.value))
    }

    constructor (system: System, absPath: AbsPath, fetch: Fetch, hash: Bytes -> Bytes)
      ensures Valid()
      ensures this.system == system && this.absPath == absPath && this.fetch == fetch && this.hash == hash
      ensures cached == None && digest == None && fetches == 0
    {
      this.system := system;
      this.absPath := absPath;
      this.fetch := fetch;
      this.hash := hash;
      cached := None;
      digest := None;
      fetches := 0;
    }

    /** What the bound fetch would report if it ran now. */
    function FetchResult(): Result<Bytes, Error>
      reads this, system
    {
      match fetch
      case ReadFileOf => system.ReadFileResult(absPath)
      case ReadlinkOf => system.ReadlinkResult(absPath)
    }

    /** `Contents()` / `Linkname()`: force the cell. */
    method Get() returns (r: Result<Bytes, Error>)
      requires Valid()
      modifies this`cached, this`fetches, system`readFileCalls, system`readlinkCalls
      ensures Valid() && cached == Some(r) && digest == old(digest)
      ensures old(cached).Some? ==> r == old(cached).value
      ensures old(cached).None? ==> r == old(FetchResult())
      ensures system.readFileCalls == old(system.readFileCalls) + (if old(cached).None? && fetch == ReadFileOf then 1 else 0)
      ensures system.readlinkCalls == old(system.readlinkCalls) + (if old(cached).None? && fetch == ReadlinkOf then 1 else 0)
    {
      if cached.None? {
        var fetched;
        match fetch {
          case ReadFileOf => fetched := system.ReadFile(absPath);
          case ReadlinkOf => fetched := system.Readlink(absPath);
        }
        cached := Some(fetched);
        fetches := fetches + 1;
      }
      r := cached.value;
    }

    /** `ContentsSHA256()` / `LinknameSHA256()`: the digest of the fetched
        bytes, forcing the cell first; a fetch error is passed on. */
    method Digest() returns (r: Result<Bytes, Error>)
      requires Valid()
      modifies this`cached, this`fetches, this`digest, system`readFileCalls, system`readlinkCalls
      ensures Valid() && cached.Some?
      ensures old(cached).Some? ==> cached == old(cached)
      ensures old(cached).None? ==> cached == Some(old(FetchResult()))
      ensures r == match cached.value
                   case Success(b) => Success(hash(b))
                   case Failure(e) => Failure(e)
      ensures system.readFileCalls == old(system.readFileCalls) + (if old(cached).None? && fetch == ReadFileOf then 1 else 0)
      ensures system.readlinkCalls == old(system.readlinkCalls) + (if old(cached).None? && fetch == ReadlinkOf then 1 else 0)
    {
      if digest.None? {
        var contents := Get();
        match contents {
          case Failure(e) =>
            return Failure(e);
          case Success(b) =>
            digest := Some(hash(b));
        }
      }
      r := Success(digest.value);
    }
  }
}
