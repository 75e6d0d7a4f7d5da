/**
 * The decoded JSON value tree that the SenML mapping reads and writes.
 * Encoding to and decoding from JSON text is done elsewhere; here a record
 * is a map from keys to scalar values and a document is a sequence of records.
 */
module JsonTree {
  import opened Wrappers

  datatype Json = JNull | JBool(flag: bool) | JNum(num: real) | JStr(str: string)

  type Object = map<string, Json>

  /** A dictionary lookup that treats a missing key and an explicit JSON null alike. */
  function Get(data: Object, key: string): Option<Json> {
    if key in data && data[key] != JNull then Some(data[key]) else None
  }

  /** Python truthiness of a scalar, as applied by bool(...). */
  function Truthy(j: Json): bool {
    match j
    case JNull => false
    case JBool(b) => b
    case JNum(r) => r != 0.0
    case JStr(s) => s != ""
  }

  /** Two objects agree on a set of keys: the same keys present, with the same values. */
  predicate AgreeOn(d1: Object, d2: Object, keys: set<string>) {
    forall k :: k in keys ==> (k in d1 <==> k in d2) && (k in d1 ==> d1[k] == d2[k])
  }

  /** The part of an object on some keys. */
  function Restrict(d: Object, keys: set<string>): Object {
    map k | k in d && k in keys :: d[k]
  }

  /** An object is its part on some keys together with the rest. */
  lemma RestrictAndRest(d: Object, keys: set<string>)
    ensures Restrict(d, keys) + (d - keys) == d
  {
  }
}
