/** The index namespaces of system/db/index.go: each namespace is a bucket of its own,
    named with the "__index_" prefix, in the repository of system/db/repo/bolt.go. The
    JSON encoding of an index value is a parameter: None stands for an encoding error. */
module Indexes {
  import opened Results
  import opened Buckets
  import Repo

  const IndexPrefix := "__index_"

  /** The bucket that holds namespace. */
  function IndexBucket(namespace: string): (b: string)
    ensures b != ""
  {
    IndexPrefix + namespace
  }

  /** Every index bucket carries the prefix, followed by its namespace. */
  lemma IndexBucketParts(namespace: string)
    ensures |IndexBucket(namespace)| == |IndexPrefix| + |namespace|
    ensures IndexBucket(namespace)[..|IndexPrefix|] == IndexPrefix
    ensures IndexBucket(namespace)[|IndexPrefix|..] == namespace
  {
  }

  /** Distinct namespaces live in distinct buckets. */
  lemma IndexBucketInjective(a: string, b: string)
    requires IndexBucket(a) == IndexBucket(b)
    ensures a == b
  {
    IndexBucketParts(a);
    IndexBucketParts(b);
  }

  /** No namespace shares a bucket with the system buckets created at start-up. */
  lemma IndexBucketNotSystem(namespace: string)
    ensures IndexBucket(namespace) !in ["__config", "__users", "__addons", "__uploads", "__contentIndex"]
  {
    var b := IndexBucket(namespace);
    assert b[2] == 'i';
  }

  /** The stored encoding at key in namespace. */
  method Index(r: Repo.BoltRepository, namespace: string, key: string) returns (res: Result<string>)
    requires r.Valid()
    ensures IndexBucket(namespace) !in r.buckets ==> res == Err(BucketNotFound)
    ensures IndexBucket(namespace) in r.buckets ==> res == Ok(Read(r.BucketMap(IndexBucket(namespace)), key))
  {
    var v := r.Get(IndexBucket(namespace), key);
    if v.Err? {
      return Err(v.error);
    }
    return Ok(v.value);
  }

  /** Stores the encoded value at key in namespace, creating the namespace on first use. */
  method SetIndex<V>(r: Repo.BoltRepository, namespace: string, key: string, value: V,
                    marshal: V -> Option<string>)
    returns (err: Outcome)
    requires r.Valid()
    modifies r
    ensures r.Valid()
    ensures err == if marshal(value).None? then Fail(MarshalFailed) else if key == "" then Fail(KeyRequired) else Pass
    ensures err.Fail? ==> r.buckets == old(r.buckets)
    ensures err.Pass? ==>
      var b := IndexBucket(namespace);
      && r.buckets.Keys == old(r.buckets).Keys + {b}
      && r.BucketMap(b) == (if b in old(r.buckets) then old(r.BucketMap(b)) else map[])[key := marshal(value).value]
      && r.buckets[b].sequence == if b in old(r.buckets) then old(r.buckets[b].sequence) else 0
    ensures forall b :: b in old(r.buckets) && b != IndexBucket(namespace) ==> r.buckets[b] == old(r.buckets[b])
  {
    var val := marshal(value);
    if val.None? {
      return Fail(MarshalFailed);
    }
    err := r.Update(IndexBucket(namespace), key, val.value);
  }

  /** Removes key from namespace; an absent key is not an error. */
  method DeleteIndex(r: Repo.BoltRepository, namespace: string, key: string) returns (err: Outcome)
    requires r.Valid()
    modifies r
    ensures r.Valid()
    ensures err == if IndexBucket(namespace) in old(r.buckets) then Pass else Fail(BucketNotFound)
    ensures r.buckets.Keys == old(r.buckets).Keys
    ensures IndexBucket(namespace) in r.buckets ==>
      var b := IndexBucket(namespace);
      && r.BucketMap(b) == old(r.BucketMap(b)) - {key}
      && r.buckets[b].sequence == old(r.buckets[b].sequence)
    ensures forall b :: b in old(r.buckets) && b != IndexBucket(namespace) ==> r.buckets[b] == old(r.buckets[b])
  {
    err := r.Delete(IndexBucket(namespace), key);
  }

  /** Drops namespace with all its keys. */
  method DropIndex(r: Repo.BoltRepository, namespace: string) returns (err: Outcome)
    requires r.Valid()
    modifies r
    ensures r.Valid()
    ensures err == Pass
    ensures r.buckets == old(r.buckets) - {IndexBucket(namespace)}
  {
    err := r.DeleteBucket(IndexBucket(namespace));
  }

  /** Reading a key right after storing its encoding gives that encoding. */
  method SetThenReadIndex<V>(r: Repo.BoltRepository, namespace: string, key: string, value: V,
                            marshal: V -> Option<string>)
    returns (err: Outcome, got: Result<string>)
    requires r.Valid()
    modifies r
    ensures r.Valid()
    ensures key != "" && marshal(value).Some? ==> err == Pass && got == Ok(marshal(value).value)
  {
    err := SetIndex(r, namespace, key, value, marshal);
    got := Index(r, namespace, key);
  }

  /** Dropping a namespace twice succeeds both times, and reading it afterwards reports
      the missing bucket. */
  method DropIndexTwice(r: Repo.BoltRepository, namespace: string, key: string)
    returns (first: Outcome, second: Outcome, got: Result<string>)
    requires r.Valid()
    modifies r
    ensures r.Valid()
    ensures first == Pass && second == Pass
    ensures got == Err(BucketNotFound)
    ensures r.buckets == old(r.buckets) - {IndexBucket(namespace)}
  {
    first := DropIndex(r, namespace);
    second := DropIndex(r, namespace);
    got := Index(r, namespace, key);
  }
}
