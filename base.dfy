/** Small value types shared by every module of the model. */
module Base {

  datatype Option<T> = None | Some(value: T)

  datatype Result<T, E> = Ok(value: T) | Err(error: E)

  /** The Python exceptions that escape the modelled operations. */
  datatype PyError =
    | IndexError      // `data[-1]` on an empty string, `data[0]` on an empty list
    | ValueError      // a field `float` rejects, or `select` on a closed socket
    | AttributeError  // `.strip()` called on a number
    | OSError         // `sendall` on a closed socket

  newtype byte = x: int | 0 <= x < 256

  /** The key order of a Python dict after `d[k] = v`: a new key goes last. */
  function AddKey<T(==)>(keys: seq<T>, k: T): seq<T> {
    if k in keys then keys else keys + [k]
  }

  /** No element occurs twice. */
  predicate Distinct<T(==)>(s: seq<T>) {
    forall i, j :: 0 <= i < j < |s| ==> s[i] != s[j]
  }
}
