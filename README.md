# Ponzu's Bolt repository, modelled in Dafny

Ponzu CMS keeps its system data (admin users, recovery keys, addons, search-index
namespaces, content buckets) in an embedded Bolt key/value store. This project models
that storage layer:

- `BoltRepository` of `system/db/repo/bolt.go` (module `Repo`): Get, Update (which
  creates a missing bucket), GetAll, Delete, DeleteBucket, NextSequence, InitSchema and
  the paginating Query;
- the older `BoltRepository` of `system/db/bolt.go` (module `Db`), whose Update refuses
  a missing bucket;
- the domain functions over the repository: users and recovery keys (`Users`), index
  namespaces (`Indexes`) and addons (`Addons`).

A store is a map from bucket name to `Bucket`. A bucket holds its key/value entries in
strictly ascending key order (`Keys.Less`, which agrees with Bolt's byte order on UTF-8
keys), the order a Bolt cursor walks them in, and its sequence counter. `Buckets.Contents` is the dictionary view of a bucket. Every repository
method is one Bolt transaction: it applies atomically, and a transaction that fails
leaves the store as it was. The Bolt behaviour the source relies on is modelled too:

- an empty bucket name is refused with `ErrBucketNameRequired`;
- an empty key is refused with `ErrKeyRequired`;
- reading an absent key gives nil, which the callers read as "";
- a new bucket's sequence starts at 0.

`Pagination` states what Query returns as pure functions of a bucket and the options.
`Repo.BoltRepository.Query` runs the source's cursor loops and is proved equal to that
page.

The domain functions call the package-level `repo` singleton in the source. Here they take
the repository as an explicit parameter. JSON encoding and form decoding are function
parameters: an encoder that can fail returns `Option<string>`, and `None` stands for
the encoder's error. `Users.SetUser`, `Users.UpdateUser` and `Indexes.SetIndex` take
the value and its encoder, as the source passes the value to json.Marshal.

## Model

| member | source | states |
|---|---|---|
| Buckets.Lookup | system/db/repo/bolt.go:86 | Bucket.Get on an ordered bucket returns the value that the dictionary view holds for the key, or "" when the key is absent. |
| Buckets.Put | system/db/repo/bolt.go:107 | Bucket.Put keeps the keys strictly ordered. The view becomes the old view with k set to v. The bucket grows by one exactly when k was new. |
| Buckets.Remove | system/db/repo/bolt.go:150 | Bucket.Delete keeps the keys ordered and removes k from the view, and only k. The bucket shrinks by one exactly when k was present. |
| Buckets.Values | system/db/repo/bolt.go:131-135 | ForEach yields one value per key, the i-th being the value of the i-th smallest key. |
| Buckets.LookupPut | system/db/repo/bolt.go:76-119 | After Put(k, v), k reads back as v and every other key reads as before. |
| Buckets.LookupRemove | system/db/repo/bolt.go:143-161 | After Delete(k), k reads as "" and every other key reads as before. |
| Buckets.ContentsAt | system/db/repo/bolt.go:131-135 | In an ordered bucket every entry's key is in the dictionary view and maps to that entry's value, so the i-th value ForEach yields is the value stored under the i-th smallest key. |
| Buckets.ContentsSize | system/db/repo/bolt.go:257-258 | The key count KeyN equals the number of distinct keys in the bucket. |
| Buckets.OrderedUnique | system/db/repo/bolt.go:256 | Two ordered buckets with the same dictionary view are identical, so the cursor order is fixed by the keys alone. |
| Buckets.CreateBucketIfNotExists | system/db/repo/bolt.go:38 | tx.CreateBucketIfNotExists keeps an existing bucket with its contents and adds an empty one otherwise. |
| Buckets.ProvisionedTwice | system/db/repo/bolt.go:37-55 | Creating the buckets of one set and then those of another gives the same store as creating the union at once, so the loop order does not matter. |
| Buckets.ProvisionedIdempotent | system/db/repo/bolt.go:32-66 | Running InitSchema's bucket creation a second time changes nothing. |
| Buckets.ProvisionedValid | system/db/repo/bolt.go:32-66 | Creating buckets with non-empty names keeps every bucket ordered. |
| Pagination.QueryWindow | system/db/repo/bolt.go:265-282 | The corrected window always lies within the bucket: 0 <= Lo(w) <= end <= n. Count -1 selects positions 0 to n. |
| Pagination.WalkAt | system/db/repo/bolt.go:286-335 | Cursor position i of the walk holds the i-th smallest key's value for "asc", and the i-th largest key's value for any other order. |
| Pagination.QueryDefaultOrder | system/db/repo/bolt.go:286-335 | The order "", and every order other than "asc", returns the same page as "desc". |
| Pagination.QueryWholeBucket | system/db/repo/bolt.go:242-244 | A negative count is corrected to -1 and returns the whole walk, whatever the offset. |
| Pagination.QueryEmptyBucket | system/db/repo/bolt.go:260-263 | An empty bucket gives an empty page for every option. |
| Pagination.QueryInRange | system/db/repo/bolt.go:271-282 | With count >= 0 and count*offset within the bucket, the page is the walk from count*offset to count*offset+count, cut at n. |
| Pagination.QueryOvershootTail | system/db/repo/bolt.go:277-279 | With count <= n, an offset past the end gives the last count positions of the walk, and exactly count values. |
| Pagination.QueryOvershootWhole | system/db/repo/bolt.go:277-279 | With count > n, an offset past the end makes start negative and the whole walk is returned. |
| Pagination.QueryStartAtEnd | system/db/repo/bolt.go:277 | A start exactly equal to n is not corrected, and the page is empty. |
| Pagination.QueryPageSize | system/db/repo/bolt.go:265-282 | A page never holds more than count values when count >= 0. |
| Pagination.QueryPageAt | system/db/repo/bolt.go:284-335 | The i-th value of the page is the value at cursor position Lo+i, counted from the first key for "asc" and from the last key otherwise. |
| Pagination.PageFromPositions | system/db/repo/bolt.go:284-335 | A sequence with the right length that holds, at each index j, the value at cursor position Lo+j is exactly the expected page. |
| Pagination.QueryTailExample | system/db/repo/bolt.go:277-279 | With 25 keys, count 10 and offset 3, start 30 is reset to 15 and the page holds positions 15 to 24. |
| Pagination.QueryDescendingExample | system/db/repo/bolt.go:287-301 | With keys "1" to "5", count 2 and offset 0, descending order gives the values of "5" and "4". |
| Repo.BoltRepository.InitSchema | system/db/repo/bolt.go:32-66 | Fatal exactly when a content type or a listed name is empty; the transaction is then rolled back. Otherwise the bucket names become the old ones plus every type, its "__sorted" companion and every listed name. Existing buckets are kept and new buckets are empty. |
| Repo.BoltRepository.Get | system/db/repo/bolt.go:76-97 | A missing bucket gives ErrBucketNotFound. Otherwise the result is the stored value, or "" with no error for an absent key. |
| Repo.BoltRepository.Update | system/db/repo/bolt.go:99-119 | An empty bucket name gives ErrBucketNameRequired, otherwise an empty key gives ErrKeyRequired, and the store is then unchanged. Otherwise the bucket exists afterwards (new buckets start empty with sequence 0), k maps to v, and no other key or bucket changes. |
| Repo.BoltRepository.GetAll | system/db/repo/bolt.go:121-141 | The error is always nil. The values come in ascending key order, and a missing bucket gives no values. |
| Repo.BoltRepository.Delete | system/db/repo/bolt.go:143-161 | A missing bucket gives ErrBucketNotFound. Otherwise only the key is removed; an absent key is not an error. The bucket set, the sequences and the other buckets are unchanged. |
| Repo.BoltRepository.DeleteBucket | system/db/repo/bolt.go:163-176 | Always succeeds, including on a missing bucket, and removes exactly that bucket. |
| Repo.BoltRepository.NextSequence | system/db/repo/bolt.go:203-225 | A missing bucket gives ErrBucketNotFound and no change. Otherwise the counter goes up by one and the new value is returned; nothing else changes. |
| Repo.BoltRepository.Query | system/db/repo/bolt.go:236-341 | A missing bucket gives total 0 and no values. Otherwise total is the key count and the values are exactly the expected page for the clamped options. |
| Repo.CursorAscending | system/db/repo/bolt.go:303-317 | The forward cursor loop collects end-Lo values, the j-th being the value at position Lo+j from the first key. |
| Repo.CursorDescending | system/db/repo/bolt.go:287-301 | The backward cursor loop, used for "desc", "" and the default case, collects end-Lo values, the j-th being the value at position Lo+j from the last key. |
| Db.BoltRepository.InitSchema | system/db/bolt.go:29-63 | Same as the repository's InitSchema: fatal exactly on an empty name with rollback, and otherwise the schema buckets are added and existing buckets kept. |
| Db.BoltRepository.Get | system/db/bolt.go:72-93 | A missing bucket gives ErrBucketNotFound; otherwise the stored value, or "" for an absent key. |
| Db.BoltRepository.Update | system/db/bolt.go:95-115 | A missing bucket gives ErrBucketNotFound and is not created. Otherwise an empty key gives ErrKeyRequired. Otherwise k maps to v and nothing else changes. A failure leaves the store unchanged. |
| Db.BoltRepository.GetAll | system/db/bolt.go:117-137 | The error is always nil. The values come in ascending key order, and a missing bucket gives no values. |
| Db.BoltRepository.Delete | system/db/bolt.go:139-157 | ErrBucketNotFound for a missing bucket. Otherwise only the key is removed, and an absent key is not an error. |
| Users.SetUser | system/db/user.go:25-58 | The lookup error is propagated with nothing changed. A non-empty stored value gives ErrUserExists with no write and no sequence number used. Otherwise the user takes ID = old sequence + 1 and the counter advances. The encoded record, carrying that ID, is stored under the email and the ID is returned. An encoding error or an empty email fails after the sequence number was taken. Other buckets are unchanged. |
| Users.SetTwoUsers | system/db/user.go:38-57 | Two users created one after the other that both succeed get strictly increasing IDs. |
| Users.UpdateUser | system/db/user.go:61-89 | updatedUsr takes usr's ID and the record is stored with that ID under the new email. A changed email also removes the old email's key; with the same email only that key is overwritten. Every failure leaves the store unchanged. |
| Users.DeleteUser | system/db/user.go:92-99 | Removes exactly the email key of "__users"; nothing else changes. |
| Users.User | system/db/user.go:102-114 | A missing bucket gives ErrBucketNotFound. An empty stored value gives ErrNoUserExists, and otherwise the stored record is returned. |
| Users.UserAll | system/db/user.go:117-125 | Every stored user record in email order; none when the bucket is missing. |
| Users.SetRecoveryKey | system/db/user.go:154-164 | Stores the given key under the email in "__recoveryKeys", creating the bucket if needed, and returns it. An empty email gives ErrKeyRequired and no change. |
| Users.RecoveryKey | system/db/user.go:168-176 | Returns the stored key, or "" for an email without one; a missing bucket gives ErrBucketNotFound. |
| Users.SetThenReadRecoveryKey | system/db/user.go:154-176 | Reading a recovery key right after setting it, for a non-empty email, returns the key that was set. |
| Indexes.IndexBucket | system/db/index.go:45-47 | An index bucket name is never empty, so Bolt never refuses it. |
| Indexes.IndexBucketParts | system/db/index.go:45-47 | Every index bucket name is "__index_" followed by the namespace. |
| Indexes.IndexBucketInjective | system/db/index.go:45-47 | Distinct namespaces map to distinct buckets. |
| Indexes.IndexBucketNotSystem | system/db/index.go:45-47 | No index bucket coincides with the base buckets "__config", "__users", "__addons", "__uploads" or "__contentIndex". |
| Indexes.Index | system/db/index.go:10-18 | A namespace never written gives ErrBucketNotFound; otherwise the stored encoding, or "" for an absent key. |
| Indexes.SetIndex | system/db/index.go:22-29 | An encoding error for the value is returned with no write. Otherwise the value's encoding is stored at the key, creating the namespace on first use. Only the namespace's bucket changes. |
| Indexes.DeleteIndex | system/db/index.go:34-38 | An absent key returns nil and removes nothing. Only that key is removed, and a missing namespace gives ErrBucketNotFound. |
| Indexes.DropIndex | system/db/index.go:41-43 | Always succeeds and removes exactly the namespace's bucket. |
| Indexes.SetThenReadIndex | system/db/index.go:10-29 | SetIndex followed by Index, for a non-empty key and an encodable value, returns the value's encoding. |
| Indexes.DropIndexTwice | system/db/index.go:41-43 | Dropping a namespace twice succeeds both times, and a later read reports the missing bucket. |
| Addons.Addon | system/db/addon.go:21-30 | A missing bucket gives the lookup error. Otherwise the stored record is returned, or "" with no error for an absent key. |
| Addons.SetAddon | system/db/addon.go:35-56 | kind is always overwritten by the decoded form. An empty addon_reverse_dns gives an error naming addon_name and writes nothing. Otherwise the encoding is stored under that key in "__addons", whatever the decoder reported ("" if encoding failed). Other buckets are unchanged. |
| Addons.AddonAll | system/db/addon.go:59-68 | Every stored addon record in key order; none when the bucket is missing. |
| Addons.DeleteAddon | system/db/addon.go:71-80 | Removes exactly that key from "__addons"; a missing bucket gives ErrBucketNotFound. |
| Addons.AddonExists | system/db/addon.go:84-99 | True exactly when the bucket exists and holds a non-empty value under the key, and so false whenever Get errors. |
| Addons.SetThenReadAddon | system/db/addon.go:21-56 | After a successful SetAddon, Addon returns the stored encoding, and AddonExists holds exactly when that encoding is non-empty. |

## Behaviour worth knowing

- GetAll and Query do not report a missing bucket. GetAll returns no values and a nil
  error; Query returns total 0 and no values.
- DeleteIndex's doc comment says it returns nil when there is nothing to delete. That
  holds for an absent key. A namespace that was never created, or was dropped, gives
  ErrBucketNotFound, and the model follows the code.
- SetUser with an empty email passes the existence check, because Bolt reads the empty
  key as absent, and takes a sequence number. Only then does the write fail with
  ErrKeyRequired.
- Query's start correction `n - count` is applied only when start > n. A start equal to
  n gives an empty page (`Pagination.QueryStartAtEnd`). When count > n, the corrected
  start is negative and the whole bucket is returned (`Pagination.QueryOvershootWhole`).

## Left out

- Backup, NewBolt and Close: file and HTTP I/O with no effect on the bucket contents.
- Concurrency between transactions: each method is modelled as one atomic step.
- The `repo` singleton (SetRepository and the package-level forwarding functions of
  system/db/repo/repository.go and system/db/repository.go): the repository is passed in
  explicitly instead.
- system/db/init.go is not part of this model. Only its base bucket names appear, in
  `Indexes.IndexBucketNotSystem`.
- CurrentUser: it reads an HTTP cookie and a JWT.
- SetRecoveryKey's time-seeded random key: the caller passes the key in.
- JSON encoding and gorilla/schema decoding: both are function parameters. A decoding
  error is not represented, since SetAddon ignores it.
- InitSchema ranges over the item.Types map, whose iteration order Go leaves
  unspecified. The model takes the content types as a sequence. Its result does not
  depend on the order (`Buckets.ProvisionedTwice`).
- Bolt's size limits: Put with a key over MaxKeySize (32768 bytes) or a value over
  MaxValueSize fails in Bolt with ErrKeyTooLarge or ErrValueTooLarge, and the
  transaction rolls back. The model's Update succeeds instead. The keys that reach Put
  come from callers without a length check: user and recovery emails, addon_reverse_dns
  and index keys.
- Nested buckets: this code never creates one, so a cursor never meets a nil value.
- Read-only transactions (View): the reads are modelled as methods that change
  nothing, without Bolt's distinction between read and write transactions.
- Repo.BoltRepository.NextSequence: the counter is an unbounded natural number. The model
  does not capture uint64 wrap-around, or the `int(id)` conversion in SetUser on 32-bit
  platforms.
- Pagination.QueryWindow: `Count * Offset` is unbounded. The model does not capture Go
  `int` overflow for huge offsets.
- Keys and values are strings of Unicode code points, not byte slices. Bolt compares
  the UTF-8 bytes of keys; byte-wise comparison of UTF-8 orders strings exactly as
  comparison of their code points does, which is the order `Keys.Less` uses. Byte
  sequences that are not valid UTF-8 are not represented.
- log.Println in AddonAll and AddonExists: logging only.
- Error values carry their kind, and the addon name for a missing identifier, but not
  the formatted message text.
