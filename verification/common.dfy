/** Small shared vocabulary: optional values and map positions. */
module Common {

  /** A value that may be absent (JavaScript `undefined`). */
  datatype Option<+T> = None | Some(value: T) {
    function GetOr(default: T): T {
      match this
      case Some(v) => v
      case None => default
    }
  }

  /**
   * A map position (TMap.LatLng). The handler only ever builds positions from a
   * WGS-84 longitude and latitude given as text, converted to GCJ-02 by a
   * formula that is not part of this model; a position is therefore kept as
   * the symbolic result of that conversion applied to its two inputs.
   */
  datatype LatLng = Gcj02Of(longitude: string, latitude: string)
}
