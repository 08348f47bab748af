/**
 * The traversal both structured-data validators hand their callback to. The helper that
 * performs it is not part of this model: a traversal is a list of visits, one per key
 * reached, each carrying the key, its value, the key path from the root and the object
 * holding the key, in the order the helper reaches them.
 */
module Walk {
  import opened Json

  datatype Visit = Visit(name: string, value: Json, path: seq<string>, holder: Json)

  /** An error a validator reports: where, as a path string, and what. */
  datatype ValidationError = ValidationError(path: string, message: string)

  /** A traversal strategy: the visits made over a root value. */
  type Walker = Json -> seq<Visit>
}
