/**
  The object-storage bucket, seen from this code: a map from keys to stored
  objects. Each remote call (put, delete, presign) has its outcome supplied
  as a reply value, so a failure can be injected at any step; the SDK, the
  network and the URL signature itself are not modelled.
 */
module ObjectStore {
  import opened Wrappers

  /** One stored object: its bytes, its content type and the `originalname` metadata entry. */
  datatype StoredObject = StoredObject(body: seq<bv8>, contentType: string, originalname: string)

  type Store = map<string, StoredObject>

  /** The reply to a `PutObject` call: success with the store's optional `ETag`, or a failure message. */
  datatype PutReply = PutOk(etag: Option<string>) | PutFailed(message: string)

  /** The reply to a presign call: the signed URL, or a failure message. */
  datatype SignReply = Signed(url: string) | SignFailed(message: string)

  /** The reply to a `DeleteObject` call. */
  datatype DeleteReply = Deleted | DeleteFailed(message: string)

  /** The store after a `PutObject` of `obj` under `key` that the store accepted. */
  function Put(store: Store, key: string, obj: StoredObject): (s: Store)
    ensures key in s && s[key] == obj
    ensures s.Keys == store.Keys + {key}
    ensures forall k :: k in store && k != key ==> k in s && s[k] == store[k]
  {
    store[key := obj]
  }

  /** The store after a `DeleteObject` of `key` that the store accepted; a missing key is no error. */
  function Remove(store: Store, key: string): (s: Store)
    ensures key !in s
    ensures s.Keys == store.Keys - {key}
    ensures forall k :: k in s ==> s[k] == store[k]
  {
    store - {key}
  }
}
