/** The library calls the core relies on but does not implement, passed in as
    function values, and the laws the real libraries satisfy. */
module Codecs {
  import opened Wrappers
  import opened Values

  /** `None` stands for a call that raises. */
  datatype Codecs = Codecs(
    utf8Encode: string -> Bytes,             // str.encode("utf-8")
    utf8Decode: Bytes -> Option<string>,     // bytes.decode("utf-8")
    jsonDumps: Json -> string,               // json.dumps
    jsonLoads: string -> Option<Json>,       // json.loads
    wkbDumps: Cell -> Option<Cell>,          // shapely.wkb.dumps, one row
    wkbLoads: Cell -> Option<Cell>,          // shapely.wkb.loads, one row
    geomType: Geometry -> string,            // the geom_type label of one geometry
    crsToWkt2018: string -> Option<string>   // pyproj.CRS.from_user_input(crs).to_wkt(version="WKT2_2018")
  )

  /** Decoding the UTF-8 encoding of a string gives the string back. */
  ghost predicate Utf8RoundTrips(c: Codecs) {
    forall s :: c.utf8Decode(c.utf8Encode(s)) == Some(s)
  }

  /** UTF-8 decoding accepts only the encoding of the string it yields
      (no overlong forms), so two byte strings never decode to one string. */
  ghost predicate Utf8Canonical(c: Codecs) {
    forall b :: c.utf8Decode(b).Some? ==> c.utf8Encode(c.utf8Decode(b).value) == b
  }

  /** Loading the JSON text of a Python value gives the value back. */
  ghost predicate JsonRoundTrips(c: Codecs) {
    forall v :: IsDictJson(v) ==> c.jsonLoads(c.jsonDumps(v)) == Some(v)
  }

  /** Loading well-known binary that dumping produced gives the geometry back. */
  ghost predicate WkbRoundTrips(c: Codecs) {
    forall x :: c.wkbDumps(x).Some? ==> c.wkbLoads(c.wkbDumps(x).value) == Some(x)
  }

  ghost predicate Lawful(c: Codecs) {
    Utf8RoundTrips(c) && Utf8Canonical(c) && JsonRoundTrips(c) && WkbRoundTrips(c)
  }
}
