/** The persistent state: a store of byte strings addressed by bucket and
    key, opened read-only or read-write. Its implementation is not part of
    this model; the class below gives its observable contract, with an
    injected failure standing for any I/O error of the backing file. */
module PersistentStates {
  import opened Wrappers
  import opened Errors
  import opened Systems

  type Buckets = map<Bytes, map<Bytes, Bytes>>

  datatype AccessMode = ReadOnly | ReadWrite

  /** The value stored under `bucket` and `key`, if any. */
  function Lookup(buckets: Buckets, bucket: Bytes, key: Bytes): Option<Bytes> {
    if bucket in buckets && key in buckets[bucket] then Some(buckets[bucket][key]) else None
  }

  /** The buckets after an upsert; the bucket is created if missing. */
  function Upsert(buckets: Buckets, bucket: Bytes, key: Bytes, value: Bytes): Buckets {
    var entries := if bucket in buckets then buckets[bucket] else map[];
    buckets[bucket := entries[key := value]]
  }

  /** The buckets after a deletion; an absent key or bucket is no error. */
  function Erase(buckets: Buckets, bucket: Bytes, key: Bytes): Buckets {
    if bucket in buckets then buckets[bucket := buckets[bucket] - {key}] else buckets
  }

  /** A value set is read back unchanged; after a deletion nothing is read;
      every other bucket and key keeps its value. */
  lemma SetGetDelete(buckets: Buckets, bucket: Bytes, key: Bytes, value: Bytes, bucket': Bytes, key': Bytes)
    ensures Lookup(Upsert(buckets, bucket, key, value), bucket, key) == Some(value)
    ensures Lookup(Erase(Upsert(buckets, bucket, key, value), bucket, key), bucket, key) == None
    ensures Lookup(Erase(buckets, bucket, key), bucket, key) == None
    ensures (bucket', key') != (bucket, key) ==>
              && Lookup(Upsert(buckets, bucket, key, value), bucket', key') == Lookup(buckets, bucket', key')
              && Lookup(Erase(buckets, bucket, key), bucket', key') == Lookup(buckets, bucket', key')
  {
  }

  class PersistentState {
    var buckets: Buckets
    const mode: AccessMode
    /** The failure every access reports, if the backing file is failing. */
    const fault: Option<Error>
    var setCalls: nat
    var deleteCalls: nat

    constructor (buckets: Buckets, mode: AccessMode, fault: Option<Error>)
      ensures this.buckets == buckets && this.mode == mode && this.fault == fault
      ensures setCalls == 0 && deleteCalls == 0
    {
      this.buckets := buckets;
      this.mode := mode;
      this.fault := fault;
      setCalls, deleteCalls := 0, 0;
    }

    /** The error a write reports: the failing file, else a read-only store. */
    function WriteError(): Option<Error>
      reads this
    {
      if fault.Some? then fault else if mode == ReadOnly then Some(ReadOnlyDatabase) else None
    }

    method Get(bucket: Bytes, key: Bytes) returns (r: Result<Option<Bytes>, Error>)
      ensures fault.Some? ==> r == Failure(fault.value)
      ensures fault.None? ==> r == Success(Lookup(buckets, bucket, key))
    {
      if fault.Some? {
        return Failure(fault.value);
      }
      r := Success(Lookup(buckets, bucket, key));
    }

    method Data() returns (r: Result<Buckets, Error>)
      ensures fault.Some? ==> r == Failure(fault.value)
      ensures fault.None? ==> r == Success(buckets)
    {
      if fault.Some? {
        return Failure(fault.value);
      }
      r := Success(buckets);
    }

    method Set(bucket: Bytes, key: Bytes, value: Bytes) returns (err: Option<Error>)
      modifies this`buckets, this`setCalls
      ensures err == WriteError()
      ensures buckets == if err.Some? then old(buckets) else Upsert(old(buckets), bucket, key, value)
      ensures setCalls == old(setCalls) + 1
    {
      setCalls := setCalls + 1;
      err := WriteError();
      if err.None? {
        buckets := Upsert(buckets, bucket, key, value);
      }
    }

    method Delete(bucket: Bytes, key: Bytes) returns (err: Option<Error>)
      modifies this`buckets, this`deleteCalls
      ensures err == WriteError()
      ensures buckets == if err.Some? then old(buckets) else Erase(old(buckets), bucket, key)
      ensures deleteCalls == old(deleteCalls) + 1
    {
      deleteCalls := deleteCalls + 1;
      err := WriteError();
      if err.None? {
        buckets := Erase(buckets, bucket, key);
      }
    }
  }
}
