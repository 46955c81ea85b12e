/**
 * `main` in `scripts/secret_backend.py`: resolve every requested handle and
 * collect a map from handle to `{value, error}`. A handle's failure is kept
 * in its own entry and never stops the batch.
 */
module Backend {
  import opened Wrappers
  import opened Errors
  import opened Handles
  import opened Vault
  import opened Fetch

  /** One entry of the response: `{"value": ..., "error": ...}`. */
  datatype Entry = Entry(value: Option<Value>, error: Option<string>)

  /** What arrives on standard input: nothing at all, or a request whose `secrets` field may be absent. */
  datatype Input = NoInput | Request(secrets: Option<seq<string>>)

  /** The entry the batch loop records for one handle; exactly one of its fields is set. */
  function Resolve(handle: string, env: Env, server: Server): (e: Entry)
    ensures e.value.Some? != e.error.Some?
    ensures e.value.Some? <==> FetchSecret(handle, env, server).Success?
    ensures e.value.Some? ==> e.value.value == FetchSecret(handle, env, server).value
    ensures e.error.Some? ==> e.error.value == Message(FetchSecret(handle, env, server).error)
  {
    match FetchSecret(handle, env, server)
    case Success(v) => Entry(Some(v), None)
    case Failure(f) => Entry(None, Some(Message(f)))
  }

  /**
   * The batch loop as a left fold: handles are resolved in request order and
   * a repeated handle overwrites its earlier entry with an equal one.
   */
  function RunBatch(secrets: seq<string>, env: Env, server: Server): (result: map<string, Entry>)
    ensures forall h :: h in result <==> h in secrets
    ensures forall h :: h in result ==> result[h] == Resolve(h, env, server)
    decreases |secrets|
  {
    if secrets == [] then map[]
    else
      var last := secrets[|secrets| - 1];
      RunBatch(secrets[..|secrets| - 1], env, server)[last := Resolve(last, env, server)]
  }

  /** The whole run: empty input writes nothing, an absent `secrets` field writes an empty map. */
  function Main(input: Input, env: Env, server: Server): (out: Option<map<string, Entry>>)
    ensures out.None? <==> input.NoInput?
    ensures input.Request? && input.secrets.None? ==> out == Some(map[])
    ensures input.Request? && input.secrets.Some? ==>
              && out.Some?
              && (forall h :: h in out.value <==> h in input.secrets.value)
              && forall h :: h in out.value ==> out.value[h] == Resolve(h, env, server)
  {
    match input
    case NoInput => None
    case Request(secrets) => Some(RunBatch(secrets.GetOr([]), env, server))
  }

  /** An entry depends only on its own handle: the other handles of the batch do not matter. */
  lemma EntryIndependent(a: seq<string>, b: seq<string>, h: string, env: Env, server: Server)
    requires h in a && h in b
    ensures RunBatch(a, env, server)[h] == RunBatch(b, env, server)[h]
  {
  }

  /** Two batches naming the same handles, in any order and number, give the same response. */
  lemma SameHandlesSameBatch(s1: seq<string>, s2: seq<string>, env: Env, server: Server)
    requires forall h :: h in s1 <==> h in s2
    ensures RunBatch(s1, env, server) == RunBatch(s2, env, server)
  {
  }

  /** Adding a handle anywhere in a batch, malformed or not, changes no other handle's entry. */
  lemma InsertLeavesOthers(a: seq<string>, x: string, b: seq<string>, env: Env, server: Server)
    ensures RunBatch(a + [x] + b, env, server) == RunBatch(a + b, env, server)[x := Resolve(x, env, server)]
  {
  }

  /**
   * Without a usable client (no token, an empty one, or one the server
   * refuses) every well-formed handle gets the client error as its entry and
   * a malformed one its format error: the batch still completes.
   */
  lemma NoClientIsPerHandle(secrets: seq<string>, env: Env, server: Server)
    requires GetVaultClient(env, server).Failure?
    ensures Main(Request(Some(secrets)), env, server).Some?
    ensures forall h :: h in secrets ==>
              && h in Main(Request(Some(secrets)), env, server).value
              && Main(Request(Some(secrets)), env, server).value[h] ==
                 (if Parse(h).Success? then Entry(None, Some(Message(GetVaultClient(env, server).error)))
                  else Entry(None, Some(Message(Parse(h).error))))
  {
  }

  /** A single well-formed handle whose key KV v2 holds resolves to that value with no error. */
  lemma SingleFound(h: Handle, env: Env, server: Server)
    requires Canonical(h)
    requires GetVaultClient(env, server).Success?
    requires Lookup(server.store.v2(Location(h.mount, h.path)), h.key).Some?
    ensures Main(Request(Some([Format(h)])), env, server)
         == Some(map[Format(h) := Entry(Lookup(server.store.v2(Location(h.mount, h.path)), h.key), None)])
  {
    var s := Format(h);
    ParseFormat(h);
    assert RunBatch([s], env, server) == RunBatch([], env, server)[s := Resolve(s, env, server)];
  }

  /**
   * A single well-formed handle whose key neither KV version supplies gets the
   * fetch error for the handle, carrying what v1 answered, whatever v2 answered.
   */
  lemma SingleMissing(h: Handle, env: Env, server: Server)
    requires Canonical(h)
    requires GetVaultClient(env, server).Success?
    requires Lookup(server.store.v2(Location(h.mount, h.path)), h.key).None?
    requires Lookup(server.store.v1(Location(h.mount, h.path)), h.key).None?
    ensures var v1 := server.store.v1(Location(h.mount, h.path));
            var cause := if v1.Found? then KeyMissing(h.key, h.mount, h.path) else ReadFailed(v1.reason);
            Main(Request(Some([Format(h)])), env, server)
            == Some(map[Format(h) := Entry(None, Some(Message(FetchFailed(Format(h), cause))))])
  {
    var s := Format(h);
    ParseFormat(h);
    assert RunBatch([s], env, server) == RunBatch([], env, server)[s := Resolve(s, env, server)];
  }
}
