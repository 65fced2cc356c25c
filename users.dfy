/** The admin-user and recovery-key functions of system/db/user.go, over the repository
    of system/db/repo/bolt.go. The JSON encoding of a user is a parameter; the random
    recovery key is passed in by the caller. */
module Users {
  import opened Results
  import opened Buckets
  import Repo

  const UsersBucket := "__users"
  const RecoveryKeysBucket := "__recoveryKeys"

  /** The fields of an admin user: its sequence ID, the email it is stored under, and
      its password hash and salt. */
  datatype UserData = UserData(id: int, email: string, hash: string, salt: string)

  /** A *user.User: the functions below receive it by pointer and overwrite its ID. */
  class UserRecord {
    var id: int
    var email: string
    var hash: string
    var salt: string

    function Data(): UserData
      reads this
    {
      UserData(id, email, hash, salt)
    }
  }

  /** What a read of key in bucket gives: the stored value, or "" for an absent key or
      a missing bucket. */
  function Stored(r: Repo.BoltRepository, bucket: string, key: string): string
    reads r
  {
    if bucket in r.buckets then Read(r.BucketMap(bucket), key) else ""
  }

  /** Creates a user: the email must not already hold a record. A new user takes the
      next sequence number of "__users" as its ID, and the encoded record is stored
      under its email. The sequence number is taken before the write, so a failing
      encoding or an empty email still uses it up. */
  method SetUser(r: Repo.BoltRepository, usr: UserRecord, marshal: UserData -> Option<string>)
    returns (res: Result<int>)
    requires r.Valid()
    modifies r, usr
    ensures r.Valid()
    ensures UsersBucket !in old(r.buckets) ==>
      res == Err(BucketNotFound) && r.buckets == old(r.buckets) && usr.Data() == old(usr.Data())
    ensures UsersBucket in old(r.buckets) && old(Stored(r, UsersBucket, usr.email)) != "" ==>
      res == Err(UserExists) && r.buckets == old(r.buckets) && usr.Data() == old(usr.Data())
    ensures UsersBucket in old(r.buckets) && old(Stored(r, UsersBucket, usr.email)) == "" ==>
      var id := old(r.buckets[UsersBucket].sequence) + 1;
      var record := old(usr.Data()).(id := id);
      && usr.Data() == record
      && UsersBucket in r.buckets
      && r.buckets[UsersBucket].sequence == id
      && res == (if marshal(record).None? then Err(MarshalFailed)
                 else if record.email == "" then Err(KeyRequired)
                 else Ok(id))
      && r.BucketMap(UsersBucket) ==
           if res.Ok? then old(r.BucketMap(UsersBucket))[record.email := marshal(record).value]
           else old(r.BucketMap(UsersBucket))
    ensures r.buckets.Keys == old(r.buckets).Keys
    ensures forall b :: b in old(r.buckets) && b != UsersBucket ==> r.buckets[b] == old(r.buckets[b])
  {
    var email := usr.email;
    var val := r.Get(UsersBucket, email);
    if val.Err? {
      return Err(val.error);
    }
    if val.value != "" {
      return Err(UserExists);
    }
    var id := r.NextSequence(UsersBucket);
    if id.Err? {
      // the bucket was just read, so NextSequence cannot report it missing
      return Err(BucketNotFound);
    }
    usr.id := id.value;
    var j := marshal(usr.Data());
    if j.None? {
      return Err(MarshalFailed);
    }
    var err := r.Update(UsersBucket, email, j.value);
    if err.Fail? {
      return Err(err.error);
    }
    return Ok(usr.id);
  }

  /** Two users created one after the other get increasing IDs. */
  method SetTwoUsers(r: Repo.BoltRepository, first: UserRecord, second: UserRecord,
                     marshal: UserData -> Option<string>)
    returns (a: Result<int>, b: Result<int>)
    requires r.Valid()
    modifies r, first, second
    ensures r.Valid()
    ensures a.Ok? && b.Ok? ==> a.value < b.value
  {
    a := SetUser(r, first, marshal);
    b := SetUser(r, second, marshal);
  }

  /** Stores updatedUsr under its email with the ID of usr, and removes the record under
      the old email when the email changed. */
  method UpdateUser(r: Repo.BoltRepository, usr: UserRecord, updatedUsr: UserRecord,
                    marshal: UserData -> Option<string>)
    returns (err: Outcome)
    requires r.Valid()
    modifies r, updatedUsr
    ensures r.Valid()
    ensures updatedUsr.Data() == old(updatedUsr.Data()).(id := old(usr.id))
    ensures var record := old(updatedUsr.Data()).(id := old(usr.id));
      err == if marshal(record).None? then Fail(MarshalFailed)
             else if record.email == "" then Fail(KeyRequired)
             else Pass
    ensures err.Fail? ==> r.buckets == old(r.buckets)
    ensures err.Pass? ==> r.buckets.Keys == old(r.buckets).Keys + {UsersBucket}
    ensures err.Pass? ==>
      var record := old(updatedUsr.Data()).(id := old(usr.id));
      var before := if UsersBucket in old(r.buckets) then old(r.BucketMap(UsersBucket)) else map[];
      var written := before[record.email := marshal(record).value];
      r.BucketMap(UsersBucket) == if old(usr.email) != record.email then written - {old(usr.email)} else written
    ensures err.Pass? ==>
      r.buckets[UsersBucket].sequence ==
        if UsersBucket in old(r.buckets) then old(r.buckets[UsersBucket].sequence) else 0
    ensures forall b :: b in old(r.buckets) && b != UsersBucket ==> r.buckets[b] == old(r.buckets[b])
  {
    // ensure user ID remains the same
    if updatedUsr.id != usr.id {
      updatedUsr.id := usr.id;
    }
    var j := marshal(updatedUsr.Data());
    if j.None? {
      return Fail(MarshalFailed);
    }
    err := r.Update(UsersBucket, updatedUsr.email, j.value);
    if err.Fail? {
      return err;
    }
    if usr.email != updatedUsr.email {
      err := r.Delete(UsersBucket, usr.email);
      if err.Fail? {
        return err;
      }
    }
    return Pass;
  }

  /** Removes the record stored under email. */
  method DeleteUser(r: Repo.BoltRepository, email: string) returns (err: Outcome)
    requires r.Valid()
    modifies r
    ensures r.Valid()
    ensures err == if UsersBucket in old(r.buckets) then Pass else Fail(BucketNotFound)
    ensures r.buckets.Keys == old(r.buckets).Keys
    ensures UsersBucket in r.buckets ==>
      && r.BucketMap(UsersBucket) == old(r.BucketMap(UsersBucket)) - {email}
      && r.buckets[UsersBucket].sequence == old(r.buckets[UsersBucket].sequence)
    ensures forall b :: b in old(r.buckets) && b != UsersBucket ==> r.buckets[b] == old(r.buckets[b])
  {
    err := r.Delete(UsersBucket, email);
    if err.Fail? {
      return err;
    }
    return Pass;
  }

  /** The encoded record stored under email; an empty value means there is no user. */
  method User(r: Repo.BoltRepository, email: string) returns (res: Result<string>)
    requires r.Valid()
    ensures UsersBucket !in r.buckets ==> res == Err(BucketNotFound)
    ensures UsersBucket in r.buckets ==>
      res == if Stored(r, UsersBucket, email) == "" then Err(NoUserExists) else Ok(Stored(r, UsersBucket, email))
  {
    var val := r.Get(UsersBucket, email);
    if val.Err? {
      return Err(val.error);
    }
    if val.value == "" {
      return Err(NoUserExists);
    }
    return Ok(val.value);
  }

  /** Every stored user record, in ascending email order. */
  method UserAll(r: Repo.BoltRepository) returns (res: Result<seq<string>>)
    requires r.Valid()
    ensures res == Ok(if UsersBucket in r.buckets then Values(r.buckets[UsersBucket].entries) else [])
  {
    var users := r.GetAll(UsersBucket);
    if users.Err? {
      return users;
    }
    return Ok(users.value);
  }

  /** Saves key as the recovery key of email and returns it. The source draws the key
      from a time-seeded random source; here the caller supplies it. */
  method SetRecoveryKey(r: Repo.BoltRepository, email: string, key: string) returns (res: Result<string>)
    requires r.Valid()
    modifies r
    ensures r.Valid()
    ensures res == if email == "" then Err(KeyRequired) else Ok(key)
    ensures res.Err? ==> r.buckets == old(r.buckets)
    ensures res.Ok? ==>
      && r.buckets.Keys == old(r.buckets).Keys + {RecoveryKeysBucket}
      && r.BucketMap(RecoveryKeysBucket) ==
           (if RecoveryKeysBucket in old(r.buckets) then old(r.BucketMap(RecoveryKeysBucket)) else map[])[email := key]
      && r.buckets[RecoveryKeysBucket].sequence ==
           if RecoveryKeysBucket in old(r.buckets) then old(r.buckets[RecoveryKeysBucket].sequence) else 0
    ensures forall b :: b in old(r.buckets) && b != RecoveryKeysBucket ==> r.buckets[b] == old(r.buckets[b])
  {
    var err := r.Update(RecoveryKeysBucket, email, key);
    if err.Fail? {
      return Err(err.error);
    }
    return Ok(key);
  }

  /** The recovery key stored for email, or "" when none was set. */
  method RecoveryKey(r: Repo.BoltRepository, email: string) returns (res: Result<string>)
    requires r.Valid()
    ensures res == if RecoveryKeysBucket in r.buckets then Ok(Stored(r, RecoveryKeysBucket, email)) else Err(BucketNotFound)
  {
    var key := r.Get(RecoveryKeysBucket, email);
    if key.Err? {
      return Err(key.error);
    }
    return Ok(key.value);
  }

  /** Reading a recovery key right after setting it gives the key that was set. */
  method SetThenReadRecoveryKey(r: Repo.BoltRepository, email: string, key: string)
    returns (saved: Result<string>, got: Result<string>)
    requires r.Valid()
    modifies r
    ensures r.Valid()
    ensures email != "" ==> saved == Ok(key) && got == Ok(key)
    ensures email == "" ==> saved == Err(KeyRequired)
  {
    saved := SetRecoveryKey(r, email, key);
    got := RecoveryKey(r, email);
  }
}
