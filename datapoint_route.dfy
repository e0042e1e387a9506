/**
 * The endpoint-configuration route: it copies the body's `data_endpoint`
 * member, unchecked, into the key/value store under the fixed key
 * `data-endpoint`, overwriting whatever was there. The store is a class
 * whose entries the handler updates in place.
 */
module DatapointRoute {
  import opened Wrappers
  import opened Json
  import opened Http

  const EndpointKey := "data-endpoint"
  const RequestField := "data_endpoint"

  class KeyValueStore {
    var entries: map<string, Lookup>

    constructor ()
      ensures entries == map[]
    {
      entries := map[];
    }

    /**
     * `body` is the outcome of reading the request as JSON (None: it was not
     * JSON) and `clientFails` whether creating the client or the write
     * throws. The stored value is the member as read, `undefined` included.
     */
    method Post(body: Option<Json>, clientFails: bool) returns (resp: Response)
      modifies this
      ensures body.Some? && !body.value.JNull? && !clientFails ==>
        && resp == Response(Ok, Message(DataReceived))
        && entries == old(entries)[EndpointKey := GetProperty(body.value, RequestField).value]
      ensures body.None? || body.value.JNull? || clientFails ==>
        resp == Response(BadRequest, Message(InvalidJson)) && entries == old(entries)
    {
      if clientFails || body.None? {
        return Response(BadRequest, Message(InvalidJson));
      }
      var endpoint := GetProperty(body.value, RequestField);
      if endpoint.None? {
        return Response(BadRequest, Message(InvalidJson));
      }
      entries := entries[EndpointKey := endpoint.value];
      resp := Response(Ok, Message(DataReceived));
    }
  }

  /**
   * Posting the same body twice leaves the store as posting it once, and the
   * second write is the one that stays (last write wins), whatever was
   * there before; only the one key changes.
   */
  method PostTwice(store: KeyValueStore, first: Json, second: Json)
    modifies store
    ensures !first.JNull? && !second.JNull? ==>
      && EndpointKey in store.entries
      && store.entries[EndpointKey] == GetProperty(second, RequestField).value
      && store.entries.Keys == old(store.entries).Keys + {EndpointKey}
      && (forall k :: k in old(store.entries) && k != EndpointKey ==> store.entries[k] == old(store.entries)[k])
      && (first == second ==>
            store.entries == old(store.entries)[EndpointKey := GetProperty(first, RequestField).value])
  {
    var _ := store.Post(Some(first), false);
    var _ := store.Post(Some(second), false);
  }
}
