/** An abstract Bolt bucket: its key/value pairs in ascending key order (the order a
    Bolt cursor walks them in) and its sequence counter. `Contents` is the dictionary
    view of the same pairs; the operations below are what Bolt's Get, Put and Delete
    do to a bucket, stated against that view. */
module Buckets {
  import opened Keys

  datatype Entry = Entry(key: string, value: string)

  /** `sequence` is the counter behind Bucket.NextSequence; a new bucket starts at 0. */
  datatype Bucket = Bucket(entries: seq<Entry>, sequence: nat)

  const EmptyBucket := Bucket([], 0)

  /** The suffix of the companion bucket that holds sort metadata for a content type. */
  const SortedSuffix := "__sorted"

  /** Keys strictly ascending, so in particular no key occurs twice. */
  predicate Ordered(es: seq<Entry>)
  {
    forall i, j :: 0 <= i < j < |es| ==> Less(es[i].key, es[j].key)
  }

  /** The bucket as a dictionary from key to value. */
  function Contents(es: seq<Entry>): map<string, string>
  {
    if es == [] then map[] else Contents(es[1..])[es[0].key := es[0].value]
  }

  /** What reading key k from a dictionary view gives: its value, or the empty value
      when k is absent (Bolt returns nil, which the callers turn into ""). */
  function Read(m: map<string, string>, k: string): string
  {
    if k in m then m[k] else ""
  }

  /** Bolt refuses empty bucket names and empty keys, so a stored bucket never has one. */
  predicate ValidBucket(b: Bucket)
  {
    Ordered(b.entries) && "" !in Contents(b.entries)
  }

  ghost predicate ValidStore(m: map<string, Bucket>)
  {
    forall name :: name in m ==> name != "" && ValidBucket(m[name])
  }

  lemma {:induction false} ContentsKeys(es: seq<Entry>)
    ensures forall i :: 0 <= i < |es| ==> es[i].key in Contents(es)
    ensures forall k :: k in Contents(es) ==> exists i :: 0 <= i < |es| && es[i].key == k
  {
    if es != [] {
      ContentsKeys(es[1..]);
      forall k | k in Contents(es)
        ensures exists i :: 0 <= i < |es| && es[i].key == k
      {
        if k != es[0].key {
          var i :| 0 <= i < |es[1..]| && es[1..][i].key == k;
          assert es[i + 1].key == k;
        }
      }
    }
  }

  /** In an ordered bucket the first key lies below every other key. */
  lemma HeadBelow(es: seq<Entry>)
    requires Ordered(es) && es != []
    ensures Ordered(es[1..])
    ensures forall k :: k in Contents(es[1..]) ==> Less(es[0].key, k)
  {
    ContentsKeys(es[1..]);
    forall k | k in Contents(es[1..])
      ensures Less(es[0].key, k)
    {
      var i :| 0 <= i < |es[1..]| && es[1..][i].key == k;
      assert es[i + 1].key == k;
    }
  }

  /** Every entry of an ordered bucket is what its key maps to. */
  lemma {:induction false} ContentsAt(es: seq<Entry>, i: nat)
    requires Ordered(es) && i < |es|
    ensures es[i].key in Contents(es) && Contents(es)[es[i].key] == es[i].value
  {
    if i > 0 {
      HeadBelow(es);
      ContentsAt(es[1..], i - 1);
      LessIrreflexive(es[0].key);
    }
  }

  /** Bolt's key count (Stats().KeyN) is the number of distinct keys. */
  lemma {:induction false} ContentsSize(es: seq<Entry>)
    requires Ordered(es)
    ensures |Contents(es)| == |es|
  {
    if es != [] {
      HeadBelow(es);
      ContentsSize(es[1..]);
      LessIrreflexive(es[0].key);
      assert es[0].key !in Contents(es[1..]);
    }
  }

  /** Bucket.Get: the value stored under k, or the empty value when k is absent.
      The search stops at the first key above k, as a cursor seek does. */
  function Lookup(es: seq<Entry>, k: string): (v: string)
    requires Ordered(es)
    ensures v == Read(Contents(es), k)
  {
    if es == [] then ""
    else if es[0].key == k then es[0].value
    else if Less(k, es[0].key) then
      BelowHeadAbsent(es, k);
      ""
    else
      HeadBelow(es);
      Lookup(es[1..], k)
  }

  /** Bucket.Put: insert k or overwrite its value, keeping the keys in order. */
  function Put(es: seq<Entry>, k: string, v: string): (r: seq<Entry>)
    requires Ordered(es)
    ensures Ordered(r)
    ensures Contents(r) == Contents(es)[k := v]
    ensures |r| == if k in Contents(es) then |es| else |es| + 1
  {
    if es == [] then [Entry(k, v)]
    else if es[0].key == k then
      HeadBelow(es);
      [Entry(k, v)] + es[1..]
    else if Less(k, es[0].key) then
      PutBelowHead(es, k, v);
      [Entry(k, v)] + es
    else
      HeadBelow(es);
      LessTotal(k, es[0].key);
      var t := Put(es[1..], k, v);
      PutAboveHead(es, k, v, t);
      [es[0]] + t
  }

  lemma PutBelowHead(es: seq<Entry>, k: string, v: string)
    requires Ordered(es) && es != [] && Less(k, es[0].key)
    ensures Ordered([Entry(k, v)] + es)
    ensures Contents([Entry(k, v)] + es) == Contents(es)[k := v]
    ensures k !in Contents(es)
  {
    var r := [Entry(k, v)] + es;
    forall i, j | 0 <= i < j < |r|
      ensures Less(r[i].key, r[j].key)
    {
      if i == 0 && j > 1 {
        LessTransitive(k, es[0].key, es[j - 1].key);
      }
    }
    assert r[1..] == es;
    BelowHeadAbsent(es, k);
  }

  /** A key below the first key of an ordered bucket is not in it. */
  lemma BelowHeadAbsent(es: seq<Entry>, k: string)
    requires Ordered(es) && es != [] && Less(k, es[0].key)
    ensures k !in Contents(es)
  {
    HeadBelow(es);
    LessIrreflexive(k);
    if k in Contents(es[1..]) {
      LessAsymmetric(k, es[0].key);
    }
  }

  lemma PutAboveHead(es: seq<Entry>, k: string, v: string, t: seq<Entry>)
    requires Ordered(es) && es != [] && Less(es[0].key, k)
    requires Ordered(t) && Contents(t) == Contents(es[1..])[k := v]
    ensures Ordered([es[0]] + t)
    ensures Contents([es[0]] + t) == Contents(es)[k := v]
  {
    ConsAbove(es, k, t);
    var r := [es[0]] + t;
    assert r[1..] == t;
    LessIrreflexive(k);
    assert Contents(r) == Contents(t)[es[0].key := es[0].value];
  }

  /** Putting the old head in front of a tail whose keys all lie above it, or are k
      itself with k above the head, keeps the order. */
  lemma ConsAbove(es: seq<Entry>, k: string, t: seq<Entry>)
    requires Ordered(es) && es != [] && Less(es[0].key, k)
    requires Ordered(t) && forall x :: x in Contents(t) ==> x == k || x in Contents(es[1..])
    ensures Ordered([es[0]] + t)
  {
    var r := [es[0]] + t;
    HeadBelow(es);
    ContentsKeys(t);
    forall j | 0 < j < |r|
      ensures Less(r[0].key, r[j].key)
    {
      assert r[j].key == t[j - 1].key && t[j - 1].key in Contents(t);
    }
  }

  /** Bucket.Delete: drop k if present; an absent key is not an error. */
  function Remove(es: seq<Entry>, k: string): (r: seq<Entry>)
    requires Ordered(es)
    ensures Ordered(r)
    ensures Contents(r) == Contents(es) - {k}
    ensures |r| == if k in Contents(es) then |es| - 1 else |es|
  {
    if es == [] then []
    else if es[0].key == k then
      HeadBelow(es);
      LessIrreflexive(k);
      assert Contents(es[1..]) == Contents(es) - {k};
      es[1..]
    else
      HeadBelow(es);
      var t := Remove(es[1..], k);
      RemoveKeepsHead(es, k, t);
      [es[0]] + t
  }

  lemma RemoveKeepsHead(es: seq<Entry>, k: string, t: seq<Entry>)
    requires Ordered(es) && es != [] && es[0].key != k
    requires Ordered(t) && Contents(t) == Contents(es[1..]) - {k}
    ensures Ordered([es[0]] + t)
    ensures Contents([es[0]] + t) == Contents(es) - {k}
  {
    var r := [es[0]] + t;
    HeadBelow(es);
    ContentsKeys(t);
    forall i, j | 0 <= i < j < |r|
      ensures Less(r[i].key, r[j].key)
    {
      if i == 0 {
        assert r[j].key == t[j - 1].key;
        assert t[j - 1].key in Contents(t);
      }
    }
    assert r[1..] == t;
  }

  /** The values of a bucket in the order of its keys. */
  function Values(es: seq<Entry>): (vs: seq<string>)
    ensures |vs| == |es|
    ensures forall i :: 0 <= i < |es| ==> vs[i] == es[i].value
  {
    if es == [] then [] else [es[0].value] + Values(es[1..])
  }

  function Reverse(s: seq<string>): (r: seq<string>)
    ensures |r| == |s|
    ensures forall i :: 0 <= i < |s| ==> r[i] == s[|s| - 1 - i]
  {
    if s == [] then [] else Reverse(s[1..]) + [s[0]]
  }

  /** Read-then-write consistency of a bucket: after Put(k, v), k reads back as v and
      every other key reads as before. */
  lemma LookupPut(es: seq<Entry>, k: string, v: string, k': string)
    requires Ordered(es)
    ensures Lookup(Put(es, k, v), k') == if k' == k then v else Lookup(es, k')
  {
  }

  /** After Delete(k), k reads as the empty value and every other key reads as before. */
  lemma LookupRemove(es: seq<Entry>, k: string, k': string)
    requires Ordered(es)
    ensures Lookup(Remove(es, k), k') == if k' == k then "" else Lookup(es, k')
  {
  }

  lemma ContentsEmpty(es: seq<Entry>)
    ensures Contents(es) == map[] <==> es == []
  {
    if es != [] {
      assert es[0].key in Contents(es);
    }
  }

  /** An ordered bucket is determined by its dictionary view: the stored order
      carries no information beyond the keys themselves. */
  lemma {:induction false} OrderedUnique(a: seq<Entry>, b: seq<Entry>)
    requires Ordered(a) && Ordered(b) && Contents(a) == Contents(b)
    ensures a == b
  {
    if a != [] && b != [] {
      HeadBelow(a);
      HeadBelow(b);
      LessIrreflexive(a[0].key);
      LessIrreflexive(b[0].key);
      assert Contents(a) == Contents(a[1..])[a[0].key := a[0].value];
      assert Contents(b) == Contents(b[1..])[b[0].key := b[0].value];
      assert a[0].key in Contents(b) && b[0].key in Contents(a);
      if a[0].key != b[0].key {
        assert a[0].key in Contents(b[1..]);
        assert b[0].key in Contents(a[1..]);
        LessAsymmetric(a[0].key, b[0].key);
      }
      assert Contents(a[1..]) == Contents(a) - {a[0].key};
      assert Contents(b[1..]) == Contents(b) - {b[0].key};
      OrderedUnique(a[1..], b[1..]);
      assert a == [a[0]] + a[1..] && b == [b[0]] + b[1..];
    } else {
      ContentsEmpty(a);
      ContentsEmpty(b);
    }
  }

  /** Every name the schema needs: each content type, its sorted companion, and each
      extra name. */
  function SchemaNames(contentTypes: seq<string>, names: seq<string>): set<string>
  {
    (set t | t in contentTypes) + (set t | t in contentTypes :: t + SortedSuffix) + (set x | x in names)
  }

  lemma SchemaNamesAddType(contentTypes: seq<string>, t: string)
    ensures SchemaNames(contentTypes + [t], []) == SchemaNames(contentTypes, []) + {t} + {t + SortedSuffix}
  {
    var l, r := SchemaNames(contentTypes + [t], []), SchemaNames(contentTypes, []) + {t} + {t + SortedSuffix};
    forall x | x in l
      ensures x in r
    {
      if x !in (set y | y in contentTypes + [t]) {
        var y :| y in contentTypes + [t] && x == y + SortedSuffix;
        if y != t {
          assert y in contentTypes;
        }
      }
    }
    forall x | x in r
      ensures x in l
    {
      if x !in {t} + {t + SortedSuffix} {
        if x !in (set y | y in contentTypes) {
          var y :| y in contentTypes && x == y + SortedSuffix;
          assert y in contentTypes + [t];
        }
      }
    }
  }

  lemma SchemaNamesAddName(contentTypes: seq<string>, names: seq<string>, x: string)
    ensures SchemaNames(contentTypes, names + [x]) == SchemaNames(contentTypes, names) + {x}
  {
    assert (set y | y in names + [x]) == (set y | y in names) + {x};
  }

  lemma SchemaStep(m: map<string, Bucket>, contentTypes: seq<string>, i: nat)
    requires i < |contentTypes|
    ensures var t := contentTypes[i];
      Provisioned(Provisioned(Provisioned(m, SchemaNames(contentTypes[..i], [])), {t}), {t + SortedSuffix})
      == Provisioned(m, SchemaNames(contentTypes[..i + 1], []))
  {
    var t := contentTypes[i];
    var before := SchemaNames(contentTypes[..i], []);
    ProvisionedTwice(m, before, {t});
    ProvisionedTwice(m, before + {t}, {t + SortedSuffix});
    assert contentTypes[..i + 1] == contentTypes[..i] + [t];
    SchemaNamesAddType(contentTypes[..i], t);
  }

  lemma ExtraNameStep(m: map<string, Bucket>, contentTypes: seq<string>, names: seq<string>, i: nat)
    requires i < |names|
    ensures Provisioned(Provisioned(m, SchemaNames(contentTypes, names[..i])), {names[i]})
      == Provisioned(m, SchemaNames(contentTypes, names[..i + 1]))
  {
    ProvisionedTwice(m, SchemaNames(contentTypes, names[..i]), {names[i]});
    assert names[..i + 1] == names[..i] + [names[i]];
    SchemaNamesAddName(contentTypes, names[..i], names[i]);
  }

  /** The store after CreateBucketIfNotExists for every name in `wanted`. */
  function Provisioned(m: map<string, Bucket>, wanted: set<string>): map<string, Bucket>
  {
    map x | x in m.Keys + wanted :: if x in m then m[x] else EmptyBucket
  }

  /** Creating buckets in two rounds is creating them all at once. */
  lemma ProvisionedTwice(m: map<string, Bucket>, a: set<string>, b: set<string>)
    ensures Provisioned(Provisioned(m, a), b) == Provisioned(m, a + b)
  {
    var l, r := Provisioned(Provisioned(m, a), b), Provisioned(m, a + b);
    assert l.Keys == r.Keys;
  }

  /** tx.CreateBucketIfNotExists: an existing bucket and its contents are kept. */
  function CreateBucketIfNotExists(m: map<string, Bucket>, name: string): (r: map<string, Bucket>)
    ensures r == Provisioned(m, {name})
  {
    if name in m then m else m[name := EmptyBucket]
  }

  /** Provisioning the same schema again changes nothing. */
  lemma ProvisionedIdempotent(m: map<string, Bucket>, wanted: set<string>)
    ensures Provisioned(Provisioned(m, wanted), wanted) == Provisioned(m, wanted)
  {
    ProvisionedTwice(m, wanted, wanted);
    assert wanted + wanted == wanted;
  }

  lemma ProvisionedValid(m: map<string, Bucket>, wanted: set<string>)
    requires ValidStore(m) && "" !in wanted
    ensures ValidStore(Provisioned(m, wanted))
  {
  }
}
