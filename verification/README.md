# Vault secret backend — Dafny model

A model of the Datadog Agent secret backend script for HashiCorp Vault
(`scripts/secret_backend.py`). The agent hands the script a batch of secret
handles of the form `mount/path#key`; the script resolves each against Vault,
reading the KV v2 engine first and the KV v1 engine on any failure, and
answers with a map from each handle to `{value, error}`.

The model is purely functional:

- `Handles` — the handle parser: split at the first `#`, then the part
  before it at the first `/`; its inverse `Format`; and an independent
  description `WellFormed` of the accepted handles.
- `Vault` — the server as data: which (address, token) pairs it accepts and,
  for every location, what the v2 and v1 reads return; `GetVaultClient`
  with the `VAULT_ADDR` default and the `VAULT_TOKEN` check.
- `Fetch` — `fetch_secret`: parse, build the client, read v2, fall back to v1.
- `Errors` — the raised exceptions as a datatype, and the text each becomes.
- `Backend` — `main`: the per-handle loop as a fold into a map, and the run
  as a whole (empty input, absent `secrets` field).

Behaviour of the script kept by the model:

- The client is built inside `fetch_secret`, once per handle and after the
  handle is parsed. A missing token or a refused one is therefore an error
  entry of each well-formed handle, not a fatal error of the batch.
  Malformed handles still get their format error.
- The mount/path part is split at its first `/` only, so the path may hold
  further `/`.
- An empty `VAULT_TOKEN` counts as missing (`if not vault_token`); an empty
  `VAULT_ADDR` is used as it is, since only an unset one gets the default.

## Model

| member | source | states |
|---|---|---|
| Handles.SplitFirst | scripts/secret_backend.py:32-34 | `split(c, 1)` gives two parts exactly when `c` occurs; the parts put back around `c` give the input and the first part holds no `c` |
| Handles.Parse | scripts/secret_backend.py:29-37 | no `#` gives the handle-format error; a success formats back to the input with a mount free of `/` and `#` and a path free of `#`; any other failure is the mount/path error carrying exactly the text before the first `#`, which holds no `/` |
| Handles.ParseFormat | scripts/secret_backend.py:32-37 | parsing `mount + "/" + path + "#" + key` gives back exactly those parts whenever the mount holds no `/` or `#` and the path no `#`; empty parts, `/` in the path and `#` in the key included |
| Handles.ParseSucceedsIff | scripts/secret_backend.py:29-37 | parsing succeeds if and only if the handle is `Format` of some handle the parser could return |
| Handles.ParseFailsIff | scripts/secret_backend.py:29-36 | parsing fails if and only if there is no `#` or the text before the first `#` holds no `/` |
| Handles.SlashInKeyOnly | scripts/secret_backend.py:32-36 | a `/` that appears only after the `#` does not make a handle valid; the error names the text before the `#` |
| Vault.GetVaultClient | scripts/secret_backend.py:11-21 | an unset or empty token, and only that, gives the token error; a client carries the given token and the given address or the default one, and the server accepts them; otherwise the error is "not authenticated" |
| Errors.Message | scripts/secret_backend.py:53-56 | a fetch failure's text is `Failed to fetch secret <handle>: ` followed by the v1 failure's text; no other error's text starts like it |
| Fetch.Lookup | scripts/secret_backend.py:43-46 | a read yields a value exactly when it succeeded and its data holds the key, and then it is that key's value |
| Fetch.ReadWithFallback | scripts/secret_backend.py:40-56 | a v2 read holding the key decides the value; otherwise success happens exactly when v1 holds the key, with v1's value; a failure names the handle and carries the missing key when v1 answered, or v1's own reason when it raised |
| Fetch.FetchSecret | scripts/secret_backend.py:29-56 | a malformed handle fails with its parse error; a parsed one with a failing client fails with the client error; a parsed one with a working client gets exactly the v2-then-v1 read, so it succeeds when v2 or v1 holds the key and otherwise fails with the fetch error for the handle; a value is the v2 value or, when v2 lacks it, the v1 value |
| Fetch.V2Decides | scripts/secret_backend.py:41-46 | when v2 supplies the key the outcome is a success whatever v1 holds |
| Fetch.FallbackIsV1 | scripts/secret_backend.py:47-56 | when v2 cannot supply the key, what v2 answered has no influence on the outcome |
| Fetch.FetchErrorPrefix | scripts/secret_backend.py:55-56 | every read failure of a parsed handle with a working client is reported with the `Failed to fetch secret <handle>: ` prefix |
| Fetch.MalformedIgnoresVault | scripts/secret_backend.py:29-39 | a malformed handle gets the same format error under every environment and every server |
| Backend.Resolve | scripts/secret_backend.py:72-82 | exactly one of value and error is set; the value is set exactly when the fetch succeeded, and the error is the failure's text |
| Backend.RunBatch | scripts/secret_backend.py:69-82 | the result's keys are exactly the requested handles and each entry is its own handle's resolution |
| Backend.Main | scripts/secret_backend.py:58-82 | empty input writes nothing; an absent `secrets` field writes an empty map; otherwise the map has one entry per distinct handle |
| Backend.EntryIndependent | scripts/secret_backend.py:71-82 | a handle gets the same entry in every batch that contains it |
| Backend.SameHandlesSameBatch | scripts/secret_backend.py:71-82 | the response depends only on the set of requested handles, not on their order or repetition |
| Backend.InsertLeavesOthers | scripts/secret_backend.py:71-82 | adding one handle anywhere in a batch, malformed or not, sets that handle's own entry and changes no other |
| Backend.NoClientIsPerHandle | scripts/secret_backend.py:14-82 | without a usable client (token unset, empty or refused) the batch still completes: well-formed handles get the client error and malformed ones their format error |
| Backend.SingleFound | scripts/secret_backend.py:41-77 | a one-handle request whose key is in KV v2 answers with that value and no error |
| Backend.SingleMissing | scripts/secret_backend.py:47-82 | a one-handle request whose key neither KV version supplies answers with no value and the fetch error for that handle, carrying the missing key when v1 answered or v1's reason when it raised |

## Left out

- The hvac client and its network traffic: a `Server` value gives the answer
  of `is_authenticated()` for each (address, token) pair and the answer of
  each KV read for each location. Reads do not depend on the address or the
  token, so per-token access rules are not modelled, and a server that
  cannot be reached during the authentication check counts as refusing.
- The server is a snapshot: repeated handles in one batch see the same
  answers, although the script re-reads Vault for each, and the
  `is_authenticated()` call the script makes once per handle is taken as one
  fixed answer for the whole batch.
- Reading the environment: `VAULT_ADDR` and `VAULT_TOKEN` are the explicit
  `Env` input.
- Standard input, output and error, the echo of the request, flushing and
  `sys.exit(1)`: input is the `Input` value, output the returned map.
- JSON parsing and serialisation, and the fatal path for malformed JSON or a
  request that is not an object: the request is a sequence of strings.
  Handles that are not strings are therefore not modelled.
- Secret values are strings; a JSON `null` or non-string field value is not
  modelled.
- Errors.Message: the text of exceptions raised by hvac is the `reason` of
  a failed read, taken as given; the quoting `str()` puts around a `KeyError`
  message is rendered as plain single quotes, which matches Python only when
  the key, mount and path hold no single quote, backslash or non-printable
  character.
- The v2 failure's own text is dropped, as in the script; only the v1
  failure reaches the message.
