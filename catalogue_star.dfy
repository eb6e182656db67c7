/**
 * The catalogue `Star` of the Java preprocessor: an attribute (the
 * magnitude of a catalogue star, or an angle once the pyramid angles
 * have been computed) and a position.
 */
module CatalogueStars {

  datatype Star = Star(attribute: real, ra: real, dec: real)

  /** Attributes never decrease along `s`. */
  predicate Ascending(s: seq<Star>)
  {
    forall i, j :: 0 <= i < j < |s| ==> s[i].attribute <= s[j].attribute
  }

  /** Attributes never increase along `s`. */
  predicate Descending(s: seq<Star>)
  {
    forall i, j :: 0 <= i < j < |s| ==> s[j].attribute <= s[i].attribute
  }
}
