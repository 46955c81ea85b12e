/**
 * The exceptions `scripts/secret_backend.py` raises, as data, and the text
 * `str(e)` gives each of them once the batch loop captures it.
 */
module Errors {

  /** Why the v1 read of a secret did not produce the requested key. */
  datatype Cause =
    | KeyMissing(key: string, mount: string, path: string) // the secret exists but lacks the key
    | ReadFailed(reason: string)                           // the read itself raised

  datatype Error =
    | BadHandle(handle: string)                 // no '#' in the handle
    | BadMountPath(mountPath: string)           // no '/' before the first '#'
    | MissingToken                              // VAULT_TOKEN unset or empty
    | NotAuthenticated                          // the server refused the token
    | FetchFailed(handle: string, cause: Cause) // both KV versions failed

  const FetchPrefix := "Failed to fetch secret "

  /** The message a `KeyError` carries; `str()` of a `KeyError` wraps it in quotes. */
  function CauseText(c: Cause): string
  {
    match c
    case KeyMissing(key, mount, path) =>
      "'" + "Key \"" + key + "\" not found in secret \"" + mount + "/" + path + "\"" + "'"
    case ReadFailed(reason) => reason
  }

  /** The error text recorded for a handle whose resolution raised `f`. */
  function Message(f: Error): (m: string)
    ensures f.FetchFailed? ==>
              var p := FetchPrefix + f.handle + ": ";
              |p| <= |m| && m[..|p|] == p && m[|p|..] == CauseText(f.cause)
    ensures m != "" && (f.FetchFailed? <==> m[0] == FetchPrefix[0])
  {
    match f
    case BadHandle(handle) =>
      "Invalid secret handle format: " + handle + ". Expected \"mount/path#key\""
    case BadMountPath(mountPath) =>
      "Invalid mount/path format: " + mountPath + ". Expected \"mount/path\""
    case MissingToken => "VAULT_TOKEN environment variable is required"
    case NotAuthenticated => "Vault client not authenticated"
    case FetchFailed(handle, cause) => FetchPrefix + handle + ": " + CauseText(cause)
  }
}
