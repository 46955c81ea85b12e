/**
 * `fetch_secret` in `scripts/secret_backend.py`: parse the handle, build a
 * client, read the key through KV v2 and, on any failure, through KV v1.
 */
module Fetch {
  import opened Wrappers
  import opened Errors
  import opened Handles
  import opened Vault

  /** The key's value in a read, when the read succeeded and holds the key. */
  function Lookup(read: Read, key: string): (r: Option<Value>)
    ensures r.Some? <==> read.Found? && key in read.data
    ensures r.Some? ==> r.value == read.data[key]
  {
    match read
    case Found(data) => if key in data then Some(data[key]) else None
    case Failed(_) => None
  }

  /**
   * The v2-then-v1 read of one parsed handle. Any v2 failure, a missing key
   * included, falls through to v1; only the v1 failure reaches the message,
   * wrapped with the original handle text.
   */
  function ReadWithFallback(handle: string, h: Handle, store: Store): (r: Result<Value, Error>)
    ensures var loc := Location(h.mount, h.path);
            Lookup(store.v2(loc), h.key).Some? ==> r == Success(Lookup(store.v2(loc), h.key).value)
    ensures var loc := Location(h.mount, h.path);
            Lookup(store.v2(loc), h.key).None? ==>
              && (r.Success? <==> Lookup(store.v1(loc), h.key).Some?)
              && (r.Success? ==> r.value == store.v1(loc).data[h.key])
    ensures r.Failure? ==>
              && r.error.FetchFailed? && r.error.handle == handle
              && var v1 := store.v1(Location(h.mount, h.path));
              && (v1.Found? ==> r.error.cause == KeyMissing(h.key, h.mount, h.path))
              && (v1.Failed? ==> r.error.cause == ReadFailed(v1.reason))
  {
    var loc := Location(h.mount, h.path);
    match Lookup(store.v2(loc), h.key)
    case Some(v) => Success(v)
    case None =>
      match store.v1(loc)
      case Found(data) =>
        if h.key in data then Success(data[h.key])
        else Failure(FetchFailed(handle, KeyMissing(h.key, h.mount, h.path)))
      case Failed(reason) => Failure(FetchFailed(handle, ReadFailed(reason)))
  }

  /**
   * One handle from text to value. Parsing comes first, so a malformed handle
   * never reaches the client; the client is built per handle, so a missing
   * token or a refused one is this handle's failure.
   */
  function FetchSecret(handle: string, env: Env, server: Server): (r: Result<Value, Error>)
    ensures Parse(handle).Failure? ==> r == Failure(Parse(handle).error)
    ensures Parse(handle).Success? && GetVaultClient(env, server).Failure? ==>
              r == Failure(GetVaultClient(env, server).error)
    ensures Parse(handle).Success? && GetVaultClient(env, server).Success? ==>
              r == ReadWithFallback(handle, Parse(handle).value, server.store)
    ensures r.Success? ==>
              && var h := Parse(handle).value;
              && var loc := Location(h.mount, h.path);
              && (Lookup(server.store.v2(loc), h.key) == Some(r.value)
                  || (Lookup(server.store.v2(loc), h.key).None? && Lookup(server.store.v1(loc), h.key) == Some(r.value)))
  {
    match Parse(handle)
    case Failure(e) => Failure(e)
    case Success(h) =>
      match GetVaultClient(env, server)
      case Failure(e) => Failure(e)
      case Success(_) => ReadWithFallback(handle, h, server.store)
  }

  /** A successful v2 read holding the key decides the value; v1 is never consulted. */
  lemma V2Decides(handle: string, h: Handle, store: Store, v1: Location -> Read)
    requires Lookup(store.v2(Location(h.mount, h.path)), h.key).Some?
    ensures ReadWithFallback(handle, h, store) == ReadWithFallback(handle, h, Store(store.v2, v1))
    ensures ReadWithFallback(handle, h, store).Success?
  {
  }

  /** When v2 cannot supply the key, the outcome is the v1 lookup alone, whatever v2 said. */
  lemma FallbackIsV1(handle: string, h: Handle, store: Store, v2: Location -> Read)
    requires Lookup(store.v2(Location(h.mount, h.path)), h.key).None?
    requires Lookup(v2(Location(h.mount, h.path)), h.key).None?
    ensures ReadWithFallback(handle, h, store) == ReadWithFallback(handle, h, Store(v2, store.v1))
  {
  }

  /** Every failed fetch of a well-formed handle with a working client is reported under the handle. */
  lemma FetchErrorPrefix(handle: string, env: Env, server: Server)
    requires Parse(handle).Success? && GetVaultClient(env, server).Success?
    requires FetchSecret(handle, env, server).Failure?
    ensures var m := Message(FetchSecret(handle, env, server).error);
            var p := FetchPrefix + handle + ": ";
            |p| <= |m| && m[..|p|] == p
  {
  }

  /** A malformed handle gets its format error whatever the environment and the server. */
  lemma MalformedIgnoresVault(handle: string, env: Env, server: Server, env': Env, server': Server)
    requires Parse(handle).Failure?
    ensures FetchSecret(handle, env, server) == FetchSecret(handle, env', server')
    ensures FetchSecret(handle, env, server).error.BadHandle? || FetchSecret(handle, env, server).error.BadMountPath?
  {
  }
}
