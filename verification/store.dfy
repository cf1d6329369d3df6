/**
 * The local key-value store (store/store.go): a map from keys to byte
 * values behind Get, Put, Delete and Clear. The out-parameters `resp` and
 * `ack` of the source are in-out parameters here: each method receives the
 * caller's current value and returns the value the caller sees afterwards.
 */
module Store {
  import opened Wire

  datatype Error = NotFoundError

  /** `StoreItem{Key, Value}`. */
  datatype StoreItem = StoreItem(key: string, value: Bytes)

  class Store {
    var items: map<string, Bytes>

    /** `New`: an empty store. */
    constructor ()
      ensures items == map[]
    {
      items := map[];
    }

    /**
     * `Get`: for a stored key, `resp` becomes the key with its value and no
     * error is returned; for any other key, `NotFoundError` and `resp` is
     * left as it was.
     */
    method Get(key: string, resp: StoreItem) returns (err: Option<Error>, respOut: StoreItem)
      ensures key in items <==> err == None
      ensures key in items ==> respOut == StoreItem(key, items[key])
      ensures key !in items ==> err == Some(NotFoundError) && respOut == resp
    {
      if key !in items {
        return Some(NotFoundError), resp;
      }
      respOut := StoreItem(key, items[key]);
      err := None;
    }

    /** `Put`: the item's key now maps to its value, replacing any old value; other keys keep theirs. */
    method Put(item: StoreItem, ack: bool) returns (err: Option<Error>, ackOut: bool)
      modifies this
      ensures items == old(items)[item.key := item.value]
      ensures err == None && ackOut
    {
      items := items[item.key := item.value];
      ackOut := true;
      err := None;
    }

    /**
     * `Delete`: a stored key is removed, and only it; an absent key gives
     * `NotFoundError` and changes nothing, `ack` included.
     */
    method Delete(key: string, ack: bool) returns (err: Option<Error>, ackOut: bool)
      modifies this
      ensures key in old(items) ==> err == None && ackOut && items == old(items) - {key}
      ensures key !in old(items) ==> err == Some(NotFoundError) && ackOut == ack && items == old(items)
    {
      if key !in items {
        return Some(NotFoundError), ack;
      }
      items := items - {key};
      ackOut := true;
      err := None;
    }

    /** `Clear`: every key is removed. */
    method Clear(skip: bool, ack: bool) returns (err: Option<Error>, ackOut: bool)
      modifies this
      ensures items == map[] && err == None && ackOut
    {
      items := map[];
      ackOut := true;
      err := None;
    }
  }
}
