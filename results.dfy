/** Error values and the result shapes the Go functions return: `(T, error)` becomes
    Result<T> and a lone `error` becomes Outcome. */
module Results {

  /** The errors that the modelled code can return. The first three come from the
      embedded Bolt store, the rest from the domain wrappers over it. */
  datatype Error =
    | BucketNotFound          // bolt.ErrBucketNotFound
    | BucketNameRequired      // bolt.ErrBucketNameRequired: CreateBucketIfNotExists("")
    | KeyRequired             // bolt.ErrKeyRequired: Put with an empty key
    | UserExists              // ErrUserExists in system/db/user.go
    | NoUserExists            // ErrNoUserExists in system/db/user.go
    | NoAddonIdentifier(addonName: string)  // "Addon %s has no identifier to use as key."
    | MarshalFailed           // an error from json.Marshal

  datatype Option<T> = None | Some(value: T)

  datatype Result<T> = Ok(value: T) | Err(error: Error)

  datatype Outcome = Pass | Fail(error: Error)
}
