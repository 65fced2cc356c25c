/** BoltRepository of system/db/repo/bolt.go: the repository the domain code uses.
    The Bolt file handle is replaced by the buckets it holds; every method is one
    transaction, applied atomically, and a transaction that fails leaves the store as
    it was. */
module Repo {
  import opened Results
  import opened Buckets
  import opened Pagination

  class BoltRepository {
    /** The buckets of the open store, by name. */
    var buckets: map<string, Bucket>

    ghost predicate Valid()
      reads this
    {
      ValidStore(buckets)
    }

    /** The dictionary view of an existing bucket. */
    function BucketMap(bucket: string): map<string, string>
      reads this
      requires bucket in buckets
    {
      Contents(buckets[bucket].entries)
    }

    /** Creates, inside one transaction, every content-type bucket, its "__sorted"
        companion and every listed name, keeping buckets that already exist. A name
        Bolt refuses makes the transaction fail, and the source then ends the process
        (log.Fatalln): `fatal` reports that outcome; otherwise the method returns nil. */
    method InitSchema(contentTypes: seq<string>, names: seq<string>) returns (fatal: bool)
      requires Valid()
      modifies this
      ensures Valid()
      ensures fatal <==> "" in contentTypes || "" in names
      ensures fatal ==> buckets == old(buckets)
      ensures !fatal ==> buckets.Keys == old(buckets).Keys + SchemaNames(contentTypes, names)
      ensures !fatal ==> forall b :: b in old(buckets) ==> buckets[b] == old(buckets)[b]
      ensures !fatal ==> forall b :: b in buckets && b !in old(buckets) ==> buckets[b] == EmptyBucket
    {
      var tx := buckets;
      for i := 0 to |contentTypes|
        invariant buckets == old(buckets)
        invariant tx == Provisioned(buckets, SchemaNames(contentTypes[..i], []))
        invariant "" !in contentTypes[..i]
      {
        var t := contentTypes[i];
        if t == "" {
          return true;
        }
        tx := CreateBucketIfNotExists(tx, t);
        tx := CreateBucketIfNotExists(tx, t + SortedSuffix);
        SchemaStep(buckets, contentTypes, i);
      }
      for i := 0 to |names|
        invariant buckets == old(buckets)
        invariant tx == Provisioned(buckets, SchemaNames(contentTypes, names[..i]))
        invariant "" !in names[..i]
      {
        var name := names[i];
        if name == "" {
          return true;
        }
        tx := CreateBucketIfNotExists(tx, name);
        ExtraNameStep(buckets, contentTypes, names, i);
      }
      assert contentTypes[..|contentTypes|] == contentTypes;
      assert names[..|names|] == names;
      ProvisionedValid(buckets, SchemaNames(contentTypes, names));
      buckets := tx;
      return false;
    }

    /** Reads key from bucket: ErrBucketNotFound for a missing bucket, and the empty
        value, with no error, for a key the bucket lacks. */
    method Get(bucket: string, key: string) returns (r: Result<string>)
      requires Valid()
      ensures bucket !in buckets ==> r == Err(BucketNotFound)
      ensures bucket in buckets ==> r == Ok(Read(BucketMap(bucket), key))
    {
      if bucket !in buckets {
        return Err(BucketNotFound);
      }
      return Ok(Lookup(buckets[bucket].entries, key));
    }

    /** Upserts key k in bucket, creating the bucket first when it is missing. Bolt
        refuses an empty bucket name or an empty key, and then nothing is created. */
    method Update(bucket: string, k: string, v: string) returns (err: Outcome)
      requires Valid()
      modifies this
      ensures Valid()
      ensures err == if bucket == "" then Fail(BucketNameRequired) else if k == "" then Fail(KeyRequired) else Pass
      ensures err.Fail? ==> buckets == old(buckets)
      ensures err.Pass? ==> buckets.Keys == old(buckets).Keys + {bucket}
      ensures err.Pass? ==>
        BucketMap(bucket) == (if bucket in old(buckets) then old(BucketMap(bucket)) else map[])[k := v]
      ensures err.Pass? ==>
        buckets[bucket].sequence == if bucket in old(buckets) then old(buckets[bucket].sequence) else 0
      ensures forall b :: b in old(buckets) && b != bucket ==> buckets[b] == old(buckets[b])
    {
      if bucket == "" {
        return Fail(BucketNameRequired);
      }
      if k == "" {
        return Fail(KeyRequired);
      }
      var tx := CreateBucketIfNotExists(buckets, bucket);
      var b := tx[bucket];
      buckets := tx[bucket := b.(entries := Put(b.entries, k, v))];
      return Pass;
    }

    /** Every value of bucket in ascending key order. A missing bucket yields no values,
        and the error is always nil. */
    method GetAll(bucket: string) returns (r: Result<seq<string>>)
      requires Valid()
      ensures r.Ok?
      ensures bucket !in buckets ==> r.value == []
      ensures bucket in buckets ==> r.value == Values(buckets[bucket].entries)
    {
      var values: seq<string> := [];
      if bucket in buckets {
        var es := buckets[bucket].entries;
        for i := 0 to |es|
          invariant |values| == i
          invariant forall j :: 0 <= j < i ==> values[j] == es[j].value
        {
          values := values + [es[i].value];
        }
      }
      return Ok(values);
    }

    /** Removes key from bucket; an absent key is not an error, a missing bucket is. */
    method Delete(bucket: string, key: string) returns (err: Outcome)
      requires Valid()
      modifies this
      ensures Valid()
      ensures err == if bucket in old(buckets) then Pass else Fail(BucketNotFound)
      ensures buckets.Keys == old(buckets).Keys
      ensures bucket in buckets ==> BucketMap(bucket) == old(BucketMap(bucket)) - {key}
      ensures bucket in buckets ==> buckets[bucket].sequence == old(buckets[bucket].sequence)
      ensures forall b :: b in old(buckets) && b != bucket ==> buckets[b] == old(buckets[b])
    {
      if bucket !in buckets {
        return Fail(BucketNotFound);
      }
      var b := buckets[bucket];
      buckets := buckets[bucket := b.(entries := Remove(b.entries, key))];
      return Pass;
    }

    /** Drops the bucket with everything in it; dropping a missing bucket succeeds. */
    method DeleteBucket(bucket: string) returns (err: Outcome)
      requires Valid()
      modifies this
      ensures Valid()
      ensures err == Pass
      ensures buckets == old(buckets) - {bucket}
    {
      buckets := buckets - {bucket};
      return Pass;
    }

    /** Increments the bucket's counter and returns the new value; a missing bucket is
        ErrBucketNotFound with the value 0 in the source. */
    method NextSequence(bucket: string) returns (r: Result<nat>)
      requires Valid()
      modifies this
      ensures Valid()
      ensures bucket !in old(buckets) ==> r == Err(BucketNotFound) && buckets == old(buckets)
      ensures bucket in old(buckets) ==>
        && r == Ok(old(buckets[bucket].sequence) + 1)
        && buckets == old(buckets)[bucket := old(buckets[bucket]).(sequence := r.value)]
    {
      if bucket !in buckets {
        return Err(BucketNotFound);
      }
      var b := buckets[bucket];
      buckets := buckets[bucket := b.(sequence := b.sequence + 1)];
      return Ok(b.sequence + 1);
    }

    /** The pagination query: the number of keys in namespace and the page of values
        the clamped window selects from the cursor walk. A missing bucket is not
        reported: it gives total 0 and no values. */
    method Query(namespace: string, opts: QueryOptions) returns (total: int, posts: seq<string>)
      requires Valid()
      ensures namespace !in buckets ==> total == 0 && posts == []
      ensures namespace in buckets ==>
        total == |buckets[namespace].entries| && posts == ExpectedPage(buckets[namespace].entries, opts)
    {
      posts, total := [], 0;
      // correct bad input rather than fail
      var count := opts.count;
      var offset := opts.offset;
      if count < 0 {
        count := -1;
      }
      if offset < 0 {
        offset := 0;
      }
      if namespace !in buckets {
        return;
      }
      var es := buckets[namespace].entries;
      var n := |es|;
      total := n;
      if n == 0 {
        return;
      }
      var w := QueryWindow(count, offset, n);
      if opts.order == "asc" {
        posts := CursorAscending(es, w);
      } else {
        // "desc", "" and every unrecognised order run the same descending loop
        posts := CursorDescending(es, w);
      }
      PageFromPositions(es, opts, posts);
    }
  }

  /** The "asc" loop of Query: from c.First() forward, skipping cursor positions
      before w.start and stopping at w.end. */
  method CursorAscending(es: seq<Entry>, w: Window) returns (posts: seq<string>)
    requires Lo(w) <= w.end <= |es|
    ensures |posts| == w.end - Lo(w)
    ensures forall j :: 0 <= j < |posts| ==> posts[j] == es[Lo(w) + j].value
  {
    var start, end := w.start, w.end;
    posts := [];
    var i := 0;    // values collected
    var cur := 0;  // cursor moves
    var pos := 0;  // the cursor, at the first key
    while pos < |es|
      invariant cur == pos <= end
      invariant i == |posts| == if cur < Lo(w) then 0 else cur - Lo(w)
      invariant forall j :: 0 <= j < |posts| ==> posts[j] == es[Lo(w) + j].value
    {
      if cur < start {
        cur, pos := cur + 1, pos + 1;
        continue;
      }
      if cur >= end {
        break;
      }
      posts := posts + [es[pos].value];
      i, cur, pos := i + 1, cur + 1, pos + 1;
    }
  }

  /** The "desc" loop of Query: from c.Last() backward, skipping cursor positions
      before w.start and stopping at w.end. */
  method CursorDescending(es: seq<Entry>, w: Window) returns (posts: seq<string>)
    requires Lo(w) <= w.end <= |es|
    ensures |posts| == w.end - Lo(w)
    ensures forall j :: 0 <= j < |posts| ==> posts[j] == es[|es| - 1 - (Lo(w) + j)].value
  {
    var start, end := w.start, w.end;
    posts := [];
    var i := 0;
    var cur := 0;
    var pos := |es| - 1;  // the cursor, at the last key
    while pos >= 0
      invariant cur == |es| - 1 - pos <= end
      invariant i == |posts| == if cur < Lo(w) then 0 else cur - Lo(w)
      invariant forall j :: 0 <= j < |posts| ==> posts[j] == es[|es| - 1 - (Lo(w) + j)].value
    {
      if cur < start {
        cur, pos := cur + 1, pos - 1;
        continue;
      }
      if cur >= end {
        break;
      }
      posts := posts + [es[pos].value];
      i, cur, pos := i + 1, cur + 1, pos - 1;
    }
  }
}
