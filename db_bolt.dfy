/** BoltRepository of system/db/bolt.go: an older variant of the repository over the
    same kind of store. It has no Query, NextSequence or DeleteBucket, and its Update
    does not create a missing bucket. */
module Db {
  import opened Results
  import opened Buckets

  class BoltRepository {
    /** The buckets of the open store, by name. */
    var buckets: map<string, Bucket>

    ghost predicate Valid()
      reads this
    {
      ValidStore(buckets)
    }

    /** The dictionary view of an existing bucket. */
    function BucketMap(bucket: string): map<string, string>
      reads this
      requires bucket in buckets
    {
      Contents(buckets[bucket].entries)
    }

    /** Creates, inside one transaction, every content-type bucket, its "__sorted"
        companion and every listed name, keeping buckets that already exist. A name
        Bolt refuses makes the transaction fail, and the source then ends the process
        (log.Fatalln): `fatal` reports that outcome; otherwise the method returns nil. */
    method InitSchema(contentTypes: seq<string>, names: seq<string>) returns (fatal: bool)
      requires Valid()
      modifies this
      ensures Valid()
      ensures fatal <==> "" in contentTypes || "" in names
      ensures fatal ==> buckets == old(buckets)
      ensures !fatal ==> buckets.Keys == old(buckets).Keys + SchemaNames(contentTypes, names)
      ensures !fatal ==> forall b :: b in old(buckets) ==> buckets[b] == old(buckets)[b]
      ensures !fatal ==> forall b :: b in buckets && b !in old(buckets) ==> buckets[b] == EmptyBucket
    {
      var tx := buckets;
      for i := 0 to |contentTypes|
        invariant buckets == old(buckets)
        invariant tx == Provisioned(buckets, SchemaNames(contentTypes[..i], []))
        invariant "" !in contentTypes[..i]
      {
        var t := contentTypes[i];
        if t == "" {
          return true;
        }
        tx := CreateBucketIfNotExists(tx, t);
        tx := CreateBucketIfNotExists(tx, t + SortedSuffix);
        SchemaStep(buckets, contentTypes, i);
      }
      for i := 0 to |names|
        invariant buckets == old(buckets)
        invariant tx == Provisioned(buckets, SchemaNames(contentTypes, names[..i]))
        invariant "" !in names[..i]
      {
        var name := names[i];
        if name == "" {
          return true;
        }
        tx := CreateBucketIfNotExists(tx, name);
        ExtraNameStep(buckets, contentTypes, names, i);
      }
      assert contentTypes[..|contentTypes|] == contentTypes;
      assert names[..|names|] == names;
      ProvisionedValid(buckets, SchemaNames(contentTypes, names));
      buckets := tx;
      return false;
    }

    /** Reads key from bucket: ErrBucketNotFound for a missing bucket, and the empty
        value, with no error, for a key the bucket lacks. */
    method Get(bucket: string, key: string) returns (r: Result<string>)
      requires Valid()
      ensures bucket !in buckets ==> r == Err(BucketNotFound)
      ensures bucket in buckets ==> r == Ok(Read(BucketMap(bucket), key))
    {
      if bucket !in buckets {
        return Err(BucketNotFound);
      }
      return Ok(Lookup(buckets[bucket].entries, key));
    }

    /** Upserts key k into an existing bucket. Unlike the repository in
        system/db/repo/bolt.go it never creates a bucket: a missing one is
        ErrBucketNotFound. Bolt refuses an empty key. */
    method Update(bucket: string, k: string, v: string) returns (err: Outcome)
      requires Valid()
      modifies this
      ensures Valid()
      ensures err == if bucket !in old(buckets) then Fail(BucketNotFound) else if k == "" then Fail(KeyRequired) else Pass
      ensures err.Fail? ==> buckets == old(buckets)
      ensures buckets.Keys == old(buckets).Keys
      ensures err.Pass? ==> BucketMap(bucket) == old(BucketMap(bucket))[k := v]
      ensures err.Pass? ==> buckets[bucket].sequence == old(buckets[bucket].sequence)
      ensures forall b :: b in old(buckets) && b != bucket ==> buckets[b] == old(buckets[b])
    {
      if bucket !in buckets {
        return Fail(BucketNotFound);
      }
      if k == "" {
        return Fail(KeyRequired);
      }
      var b := buckets[bucket];
      buckets := buckets[bucket := b.(entries := Put(b.entries, k, v))];
      return Pass;
    }

    /** Every value of bucket in ascending key order. A missing bucket yields no values,
        and the error is always nil. */
    method GetAll(bucket: string) returns (r: Result<seq<string>>)
      requires Valid()
      ensures r.Ok?
      ensures bucket !in buckets ==> r.value == []
      ensures bucket in buckets ==> r.value == Values(buckets[bucket].entries)
    {
      var values: seq<string> := [];
      if bucket in buckets {
        var es := buckets[bucket].entries;
        for i := 0 to |es|
          invariant |values| == i
          invariant forall j :: 0 <= j < i ==> values[j] == es[j].value
        {
          values := values + [es[i].value];
        }
      }
      return Ok(values);
    }

    /** Removes key from bucket; an absent key is not an error, a missing bucket is. */
    method Delete(bucket: string, key: string) returns (err: Outcome)
      requires Valid()
      modifies this
      ensures Valid()
      ensures err == if bucket in old(buckets) then Pass else Fail(BucketNotFound)
      ensures buckets.Keys == old(buckets).Keys
      ensures bucket in buckets ==> BucketMap(bucket) == old(BucketMap(bucket)) - {key}
      ensures bucket in buckets ==> buckets[bucket].sequence == old(buckets[bucket].sequence)
      ensures forall b :: b in old(buckets) && b != bucket ==> buckets[b] == old(buckets[b])
    {
      if bucket !in buckets {
        return Fail(BucketNotFound);
      }
      var b := buckets[bucket];
      buckets := buckets[bucket := b.(entries := Remove(b.entries, key))];
      return Pass;
    }
  }
}
