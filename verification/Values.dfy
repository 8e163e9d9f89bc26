/** The values the core manipulates: bytes, JSON documents, data-frame cells,
    and the exceptions the Python code can raise. */
module Values {
  import opened Wrappers

  type byte = x: int | 0 <= x < 256
  type Bytes = seq<byte>

  /** A geometry object as the geometry library holds it; its structure is not modelled. */
  type Geometry(==, !new)

  /** A JSON document. An object lists its members in order, as a Python dictionary does. */
  datatype Json =
    | JNull
    | JBool(b: bool)
    | JNumber(n: int)
    | JString(s: string)
    | JArray(items: seq<Json>)
    | JObject(members: seq<(string, Json)>)

  /** No key occurs twice: true of the items of every Python dictionary. */
  predicate DistinctKeys(members: seq<(string, Json)>) {
    forall i, j :: 0 <= i < j < |members| ==> members[i].0 != members[j].0
  }

  /** A JSON value a Python program can hold: every object has distinct keys. */
  predicate IsDictJson(v: Json)
    decreases v
  {
    match v
    case JArray(items) => forall i :: 0 <= i < |items| ==> IsDictJson(items[i])
    case JObject(members) =>
      DistinctKeys(members) && forall i :: 0 <= i < |members| ==> IsDictJson(members[i].1)
    case _ => true
  }

  /** `d[key]` on a dictionary given by its items; a key that occurs twice
      yields its last value, as when the items are inserted in order. */
  function Lookup(members: seq<(string, Json)>, key: string): (r: Option<Json>)
    ensures r.Some? <==> exists i :: 0 <= i < |members| && members[i].0 == key
    ensures forall i :: 0 <= i < |members| && members[i].0 == key &&
                        (forall j :: i < j < |members| ==> members[j].0 != key) ==>
                          r == Some(members[i].1)
  {
    if |members| == 0 then None
    else
      var n := |members| - 1;
      if members[n].0 == key then Some(members[n].1)
      else
        var prefix := members[..n];
        assert forall i :: 0 <= i < n ==> prefix[i] == members[i];
        Lookup(prefix, key)
  }

  /** A cell of a data frame or Arrow table. */
  datatype Cell =
    | Null
    | Int(i: int)
    | Text(s: string)
    | Blob(bytes: Bytes)
    | Geom(g: Geometry)

  /** The exceptions the core raises, named by what went wrong. */
  datatype Error =
    | NoSchemaMetadata          // the table's schema metadata is None
    | MetadataUndecodable       // a stored key or value is not UTF-8, or a value is not JSON
    | MissingKey(key: Json)     // KeyError (or AttributeError for a missing geometry column)
    | IndexOutOfRange           // IndexError
    | NotSubscriptable          // TypeError: the value cannot be indexed that way
    | CrsUnresolvable           // the CRS cannot be resolved to WKT
    | GeometryCodecFailed       // the geometry codec raised on some row
}
