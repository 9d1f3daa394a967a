/** The optional value used wherever the source has `None` or a missing key, and `dict.get`. */
module Wrappers {
  datatype Option<+T> = None | Some(value: T) {
    function GetOr(default: T): T {
      match this
      case Some(v) => v
      case None => default
    }
  }

  /** `d.get(key, default)` on a dictionary. */
  function MapGet<K, V>(m: map<K, V>, key: K, default: V): V {
    if key in m then m[key] else default
  }
}
