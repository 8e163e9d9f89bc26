/** The `geometry_fields` metadata envelope: built from the geometry column
    when writing, and its first entry selected when reading. */
module Envelope {
  import opened Wrappers
  import opened Values
  import opened Codecs

  const GeometryFieldsKey: string := "geometry_fields"
  const GeometryFormat: string := "wkb"
  const CrsFormat: string := "WKT2_2018"

  predicate NoDuplicates(xs: seq<Json>) {
    forall i, j :: 0 <= i < j < |xs| ==> xs[i] != xs[j]
  }

  /** `Series.unique().tolist()`: each distinct value once, in order of first appearance. */
  function Unique(xs: seq<Json>): (r: seq<Json>)
    ensures NoDuplicates(r)
    ensures forall x :: x in r <==> x in xs
  {
    if |xs| == 0 then []
    else
      var u := Unique(xs[..|xs| - 1]);
      if xs[|xs| - 1] in u then u else u + [xs[|xs| - 1]]
  }

  /** Of any two distinct values `Unique` lists, the first one listed occurs
      in the input before the second one first occurs. */
  lemma {:induction false} UniqueKeepsOrderOfAppearance(xs: seq<Json>, i: nat, j: nat)
    requires i < j < |Unique(xs)|
    ensures exists p :: 0 <= p < |xs| && xs[p] == Unique(xs)[i] && Unique(xs)[j] !in xs[..p + 1]
  {
    var n := |xs| - 1;
    var prefix := xs[..n];
    var u := Unique(prefix);
    var r := Unique(xs);
    if j < |u| {
      assert r[i] == u[i] && r[j] == u[j];
      UniqueKeepsOrderOfAppearance(prefix, i, j);
      var p :| 0 <= p < |prefix| && prefix[p] == u[i] && u[j] !in prefix[..p + 1];
      assert xs[..p + 1] == prefix[..p + 1];
    } else {
      assert r == u + [xs[n]] && r[j] == xs[n] && xs[n] !in prefix;
      assert r[i] in prefix;
      var p :| 0 <= p < |prefix| && prefix[p] == r[i];
      assert xs[..p + 1] == prefix[..p + 1];
    }
  }

  /** `GeoSeries.geom_type` for one row: the kind label, or None where the row holds no geometry. */
  function GeomTypeOf(cell: Cell, c: Codecs): Json {
    if cell.Geom? then JString(c.geomType(cell.g)) else JNull
  }

  /** `geom_type.unique().tolist()` of the geometry column. */
  function GeometryTypes(cells: seq<Cell>, c: Codecs): (r: seq<Json>)
    ensures NoDuplicates(r)
    ensures forall x :: x in r <==> exists i :: 0 <= i < |cells| && x == GeomTypeOf(cells[i], c)
  {
    var kinds := seq(|cells|, i requires 0 <= i < |cells| => GeomTypeOf(cells[i], c));
    assert forall i :: 0 <= i < |cells| ==> kinds[i] == GeomTypeOf(cells[i], c);
    Unique(kinds)
  }

  /** The single `geometry_fields` entry written for a geometry column. */
  function GeometryField(fieldName: string, geometryTypes: seq<Json>, crs: string): Json {
    JObject([
      ("field_name", JString(fieldName)),
      ("geometry_format", JString(GeometryFormat)),
      ("geometry_types", JArray(geometryTypes)),
      ("crs", JString(crs)),
      ("crs_format", JString(CrsFormat))
    ])
  }

  /** The `geometry_metadata` dictionary `to_geoparquet` merges into the table. */
  function GeometryMetadata(fieldName: string, geometryTypes: seq<Json>, crs: string): (r: seq<(string, Json)>)
    ensures |r| == 1 && r[0].0 == GeometryFieldsKey && r[0].1.JArray? && |r[0].1.items| == 1
    ensures var entry := r[0].1.items[0];
      && entry.JObject? && DistinctKeys(entry.members)
      && Lookup(entry.members, "field_name") == Some(JString(fieldName))
      && Lookup(entry.members, "geometry_format") == Some(JString("wkb"))
      && Lookup(entry.members, "geometry_types") == Some(JArray(geometryTypes))
      && Lookup(entry.members, "crs") == Some(JString(crs))
      && Lookup(entry.members, "crs_format") == Some(JString("WKT2_2018"))
  {
    FieldKeysDistinct();
    var entry := GeometryField(fieldName, geometryTypes, crs);
    assert forall i :: 0 <= i < |entry.members| ==> entry.members[i].0 == GeometryField("", [], "").members[i].0;
    var ms := entry.members;
    assert ms[0].0 == "field_name" && ms[1].0 == "geometry_format" && ms[2].0 == "geometry_types";
    assert ms[3].0 == "crs" && ms[4].0 == "crs_format";
    [(GeometryFieldsKey, JArray([entry]))]
  }

  /** The written envelope has exactly one entry, with the fixed format tags,
      the geometry column's name, the CRS text, and the distinct kinds observed
      in the column; and it is a value `json.dumps` and `json.loads` round-trip. */
  lemma WrittenEnvelope(fieldName: string, cells: seq<Cell>, crs: string, c: Codecs)
    ensures var envelope := GeometryMetadata(fieldName, GeometryTypes(cells, c), crs);
      && |envelope| == 1 && envelope[0].0 == GeometryFieldsKey
      && DistinctKeys(envelope) && IsDictJson(envelope[0].1)
      && envelope[0].1.JArray? && |envelope[0].1.items| == 1
      && var entry := envelope[0].1.items[0];
      && entry.JObject?
      && Lookup(entry.members, "field_name") == Some(JString(fieldName))
      && Lookup(entry.members, "geometry_format") == Some(JString("wkb"))
      && Lookup(entry.members, "crs") == Some(JString(crs))
      && Lookup(entry.members, "crs_format") == Some(JString("WKT2_2018"))
      && Lookup(entry.members, "geometry_types") == Some(JArray(GeometryTypes(cells, c)))
  {
    var types := GeometryTypes(cells, c);
    forall i | 0 <= i < |types|
      ensures IsDictJson(types[i])
    {
      assert types[i] in types;
      var k :| 0 <= k < |cells| && types[i] == GeomTypeOf(cells[k], c);
    }
    var entry := GeometryField(fieldName, types, crs);
    assert IsDictJson(JArray(types));
    FieldKeysDistinct();
    assert IsDictJson(entry);
    var ms := entry.members;
    assert ms[0].0 == "field_name" && ms[1].0 == "geometry_format" && ms[2].0 == "geometry_types";
    assert ms[3].0 == "crs" && ms[4].0 == "crs_format";
  }

  /** The five keys of a `geometry_fields` entry are distinct. */
  lemma FieldKeysDistinct()
    ensures DistinctKeys(GeometryField("", [], "").members)
  {
  }

  /** `v[0]`. */
  function First(v: Json): (r: Result<Json, Error>)
    ensures r.Ok? <==> (v.JArray? && |v.items| > 0) || (v.JString? && |v.s| > 0)
    ensures v.JArray? && |v.items| > 0 ==> r == Ok(v.items[0])
    ensures (v.JArray? && |v.items| == 0) || (v.JString? && |v.s| == 0) ==> r == Err(IndexOutOfRange)
  {
    match v
    case JArray(items) => if |items| == 0 then Err(IndexOutOfRange) else Ok(items[0])
    case JObject(_) => Err(MissingKey(JNumber(0)))
    case JString(s) => if |s| == 0 then Err(IndexOutOfRange) else Ok(JString(s[..1]))
    case _ => Err(NotSubscriptable)
  }

  /** `v[key]` for a string key. */
  function Member(v: Json, key: string): (r: Result<Json, Error>)
    ensures r.Ok? <==> v.JObject? && Lookup(v.members, key).Some?
    ensures r.Ok? ==> r.value == Lookup(v.members, key).value
  {
    match v
    case JObject(members) =>
      (match Lookup(members, key)
       case Some(x) => Ok(x)
       case None => Err(MissingKey(JString(key))))
    case _ => Err(NotSubscriptable)
  }

  /** What `read_geoparquet` takes from the envelope: the geometry column's name and the CRS. */
  datatype Selection = Selection(fieldName: Json, crs: Json)

  /** `metadata["geometry_fields"][0]`, then its `"crs"` and its `"field_name"`. */
  function SelectGeometryField(metadata: map<string, Json>): (r: Result<Selection, Error>)
    ensures GeometryFieldsKey !in metadata ==> r == Err(MissingKey(JString(GeometryFieldsKey)))
    ensures r.Ok? <==>
      && GeometryFieldsKey in metadata
      && metadata[GeometryFieldsKey].JArray?
      && |metadata[GeometryFieldsKey].items| > 0
      && metadata[GeometryFieldsKey].items[0].JObject?
      && Lookup(metadata[GeometryFieldsKey].items[0].members, "crs").Some?
      && Lookup(metadata[GeometryFieldsKey].items[0].members, "field_name").Some?
    ensures r.Ok? ==>
      var entry := metadata[GeometryFieldsKey].items[0];
      r.value == Selection(Lookup(entry.members, "field_name").value, Lookup(entry.members, "crs").value)
  {
    if GeometryFieldsKey !in metadata then Err(MissingKey(JString(GeometryFieldsKey)))
    else
      var entry :- First(metadata[GeometryFieldsKey]);
      var crs :- Member(entry, "crs");
      var fieldName :- Member(entry, "field_name");
      Ok(Selection(fieldName, crs))
  }

  /** Reading a written envelope recovers the column name and the CRS text,
      whatever other keys the metadata holds. */
  lemma SelectWrittenEnvelope(metadata: map<string, Json>, fieldName: string, geometryTypes: seq<Json>, crs: string)
    requires GeometryFieldsKey in metadata
    requires metadata[GeometryFieldsKey] == GeometryMetadata(fieldName, geometryTypes, crs)[0].1
    ensures SelectGeometryField(metadata) == Ok(Selection(JString(fieldName), JString(crs)))
  {
  }
}
