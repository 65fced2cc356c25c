/** The addon registry of system/db/addon.go: addon records in bucket "__addons" of the
    repository of system/db/repo/bolt.go, keyed by their reverse-DNS identifier. Form
    decoding and JSON encoding are parameters. */
module Addons {
  import opened Results
  import opened Buckets
  import Repo

  const AddonsBucket := "__addons"

  /** Submitted form data, with the first value of each field (what url.Values.Get
      reads); an absent field reads as "". */
  type Form = map<string, string>

  /** The addon value that SetAddon decodes the form into, in place. */
  class Kind<T(0)> {
    var value: T
  }

  /** The stored record of the addon with identifier key; an absent key gives "". */
  method Addon(r: Repo.BoltRepository, key: string) returns (res: Result<string>)
    requires r.Valid()
    ensures AddonsBucket !in r.buckets ==> res == Err(BucketNotFound)
    ensures AddonsBucket in r.buckets ==> res == Ok(Read(r.BucketMap(AddonsBucket), key))
  {
    var val := r.Get(AddonsBucket, key);
    if val.Err? {
      return Err(val.error);
    }
    return Ok(val.value);
  }

  /** Decodes data into kind and stores the encoding of kind under the form's
      addon_reverse_dns field. A decoding or encoding error is ignored: the write goes
      ahead, with an empty value when the encoding failed. A form without an
      identifier is refused, naming the addon, and nothing is written. */
  method SetAddon<T(0)>(r: Repo.BoltRepository, data: Form, kind: Kind<T>,
                        decode: (T, Form) -> T, encode: T -> Option<string>)
    returns (err: Outcome)
    requires r.Valid()
    modifies r, kind
    ensures r.Valid()
    ensures kind.value == decode(old(kind.value), data)
    ensures err == if Read(data, "addon_reverse_dns") == "" then Fail(NoAddonIdentifier(Read(data, "addon_name"))) else Pass
    ensures err.Fail? ==> r.buckets == old(r.buckets)
    ensures err.Pass? ==>
      var v := if encode(kind.value).Some? then encode(kind.value).value else "";
      && r.buckets.Keys == old(r.buckets).Keys + {AddonsBucket}
      && r.BucketMap(AddonsBucket) ==
           (if AddonsBucket in old(r.buckets) then old(r.BucketMap(AddonsBucket)) else map[])[Read(data, "addon_reverse_dns") := v]
      && r.buckets[AddonsBucket].sequence ==
           if AddonsBucket in old(r.buckets) then old(r.buckets[AddonsBucket].sequence) else 0
    ensures forall b :: b in old(r.buckets) && b != AddonsBucket ==> r.buckets[b] == old(r.buckets[b])
  {
    kind.value := decode(kind.value, data);
    var j := encode(kind.value);
    var v := if j.Some? then j.value else "";
    var k := Read(data, "addon_reverse_dns");
    if k == "" {
      var name := Read(data, "addon_name");
      return Fail(NoAddonIdentifier(name));
    }
    err := r.Update(AddonsBucket, k, v);
    if err.Fail? {
      return err;
    }
    return Pass;
  }

  /** Every stored addon record, in ascending identifier order. */
  method AddonAll(r: Repo.BoltRepository) returns (all: seq<string>)
    requires r.Valid()
    ensures all == if AddonsBucket in r.buckets then Values(r.buckets[AddonsBucket].entries) else []
  {
    var res := r.GetAll(AddonsBucket);
    if res.Err? {
      return [];
    }
    return res.value;
  }

  /** Removes the addon with identifier key. */
  method DeleteAddon(r: Repo.BoltRepository, key: string) returns (err: Outcome)
    requires r.Valid()
    modifies r
    ensures r.Valid()
    ensures err == if AddonsBucket in old(r.buckets) then Pass else Fail(BucketNotFound)
    ensures r.buckets.Keys == old(r.buckets).Keys
    ensures AddonsBucket in r.buckets ==>
      && r.BucketMap(AddonsBucket) == old(r.BucketMap(AddonsBucket)) - {key}
      && r.buckets[AddonsBucket].sequence == old(r.buckets[AddonsBucket].sequence)
    ensures forall b :: b in old(r.buckets) && b != AddonsBucket ==> r.buckets[b] == old(r.buckets[b])
  {
    err := r.Delete(AddonsBucket, key);
    if err.Fail? {
      return err;
    }
    return Pass;
  }

  /** Whether a non-empty record is stored under key; a lookup error counts as absent. */
  method AddonExists(r: Repo.BoltRepository, key: string) returns (exists_: bool)
    requires r.Valid()
    ensures exists_ <==> AddonsBucket in r.buckets && key in r.BucketMap(AddonsBucket) && r.BucketMap(AddonsBucket)[key] != ""
  {
    var v := r.Get(AddonsBucket, key);
    if v.Err? {
      return false;
    }
    return v.value != "";
  }

  /** After a successful SetAddon the addon exists exactly when its encoding is
      non-empty, and Addon returns that encoding. */
  method SetThenReadAddon<T(0)>(r: Repo.BoltRepository, data: Form, kind: Kind<T>,
                                decode: (T, Form) -> T, encode: T -> Option<string>)
    returns (err: Outcome, got: Result<string>, present: bool)
    requires r.Valid()
    modifies r, kind
    ensures r.Valid()
    ensures err.Pass? ==>
      var v := if encode(kind.value).Some? then encode(kind.value).value else "";
      got == Ok(v) && (present <==> v != "")
  {
    err := SetAddon(r, data, kind, decode, encode);
    var key := Read(data, "addon_reverse_dns");
    got := Addon(r, key);
    present := AddonExists(r, key);
  }
}
