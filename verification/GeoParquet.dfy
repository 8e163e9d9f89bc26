/** Writing a geometry-bearing frame as a table with well-known binary
    geometries and a `geometry_fields` envelope (`to_geoparquet`), and reading
    it back (`read_geoparquet`). The model starts and ends at in-memory tables. */
module GeoParquet {
  import opened Wrappers
  import opened Values
  import opened Codecs
  import opened Frames
  import opened GeometryColumn
  import opened Metadata
  import opened Envelope

  /** The table `to_geoparquet` hands to the Parquet writer, for a frame whose
      active geometry column is `geometryName` and whose CRS is `crs`.
      `pandasMetadata` is the schema metadata the pandas-to-Arrow conversion
      attaches (its `pandas` key). */
  function Written(v: FrameValue, geometryName: string, crs: Option<string>,
                   pandasMetadata: map<Bytes, Bytes>, c: Codecs): (r: Result<Table, Error>)
    requires v.Valid()
    ensures r.Ok? <==> && geometryName in v.columns
                       && crs.Some? && c.crsToWkt2018(crs.value).Some?
                       && Rewritten(v, geometryName, c.wkbDumps).Ok?
    ensures geometryName !in v.columns ==> r == Err(MissingKey(JString(geometryName)))
    ensures geometryName in v.columns && (crs.None? || c.crsToWkt2018(crs.value).None?) ==>
              r == Err(CrsUnresolvable)
    ensures (geometryName in v.columns && crs.Some? && c.crsToWkt2018(crs.value).Some? &&
             Rewritten(v, geometryName, c.wkbDumps).Err?) ==> r == Err(GeometryCodecFailed)
    ensures r.Ok? ==> r.value.frame == Rewritten(v, geometryName, c.wkbDumps).value
    ensures r.Ok? ==> r.value.metadata.Some? &&
                      r.value.metadata.value.Keys == pandasMetadata.Keys + {c.utf8Encode(GeometryFieldsKey)}
    ensures r.Ok? ==> forall b :: b in pandasMetadata && b != c.utf8Encode(GeometryFieldsKey) ==>
                                   r.value.metadata.value[b] == pandasMetadata[b]
    ensures r.Ok? ==>
              var envelope := GeometryMetadata(geometryName, GeometryTypes(v.columns[geometryName], c),
                                               c.crsToWkt2018(crs.value).value);
              r.value.metadata.value[c.utf8Encode(GeometryFieldsKey)] == c.utf8Encode(c.jsonDumps(envelope[0].1))
  {
    if geometryName !in v.columns then Err(MissingKey(JString(geometryName)))
    else if crs.None? || c.crsToWkt2018(crs.value).None? then Err(CrsUnresolvable)
    else
      var wkt := c.crsToWkt2018(crs.value).value;
      var geometryTypes := GeometryTypes(v.columns[geometryName], c);
      var serialised :- Rewritten(v, geometryName, c.wkbDumps);
      var envelope := GeometryMetadata(geometryName, geometryTypes, wkt);
      assert c.utf8Encode(envelope[0].0) in EncodedKeys(envelope, c);
      assert EncodedKeys(envelope, c) == {c.utf8Encode(GeometryFieldsKey)};
      Ok(Table(serialised, Some(Merged(pandasMetadata, envelope, c))))
  }

  /** `to_geoparquet`, up to the call of the Parquet writer. */
  method ToGeoParquet(gdf: DataFrame, geometryName: string, crs: Option<string>,
                      pandasMetadata: map<Bytes, Bytes>, c: Codecs) returns (r: Result<Table, Error>)
    requires gdf.Value().Valid()
    ensures r == Written(gdf.Value(), geometryName, crs, pandasMetadata, c)
  {
    if geometryName !in gdf.columns {
      return Err(MissingKey(JString(geometryName)));
    }
    if crs.None? {
      return Err(CrsUnresolvable);
    }
    var wkt := c.crsToWkt2018(crs.value);
    if wkt.None? {
      return Err(CrsUnresolvable);
    }
    var geometryTypes := GeometryTypes(gdf.columns[geometryName], c);
    var serialised := SerialiseGeometry(gdf, geometryName, c);
    if serialised.Err? {
      return Err(serialised.error);
    }
    var table := Table(serialised.value.Value(), Some(pandasMetadata));
    var geometryMetadata := GeometryMetadata(geometryName, geometryTypes, wkt.value);
    r := UpdateMetadata(table, geometryMetadata, c);
  }

  /** A geometry-bearing frame: its contents, its active geometry column, and its CRS. */
  datatype GeoFrameValue = GeoFrameValue(frame: FrameValue, geometryName: string, crs: Json)

  /** A GeoDataFrame as `read_geoparquet` returns it. */
  datatype GeoDataFrame = GeoDataFrame(frame: DataFrame, geometryName: string, crs: Json)

  /** `df[name]` takes any value as a column label; only a string can name a column here. */
  function ColumnName(v: Json): (r: Result<string, Error>)
    ensures r.Ok? <==> v.JString?
    ensures r.Ok? ==> v == JString(r.value)
    ensures r.Err? ==> r.error == MissingKey(v)
  {
    if v.JString? then Ok(v.s) else Err(MissingKey(v))
  }

  /** The frame `read_geoparquet` builds from a table read from a file. */
  function Read(t: Table, c: Codecs): (r: Result<GeoFrameValue, Error>)
    requires t.frame.Valid() && Utf8Canonical(c)
    ensures t.metadata.None? ==> r == Err(NoSchemaMetadata)
    ensures t.metadata.Some? && Deserialised(t.metadata.value, c).Ok? &&
            GeometryFieldsKey !in Deserialised(t.metadata.value, c).value ==>
              r == Err(MissingKey(JString(GeometryFieldsKey)))
    ensures t.metadata.Some? && Deserialised(t.metadata.value, c).Err? ==> r == Err(MetadataUndecodable)
    ensures r.Ok? <==>
              && t.metadata.Some? && Deserialised(t.metadata.value, c).Ok?
              && var s := SelectGeometryField(Deserialised(t.metadata.value, c).value);
              && s.Ok? && s.value.fieldName.JString?
              && Rewritten(t.frame, s.value.fieldName.s, c.wkbLoads).Ok?
    ensures t.metadata.Some? && Deserialised(t.metadata.value, c).Ok? ==>
              var s := SelectGeometryField(Deserialised(t.metadata.value, c).value);
              s.Ok? && s.value.fieldName.JString? ==>
                && (s.value.fieldName.s !in t.frame.columns ==> r == Err(MissingKey(s.value.fieldName)))
                && (s.value.fieldName.s in t.frame.columns && Rewritten(t.frame, s.value.fieldName.s, c.wkbLoads).Err? ==>
                      r == Err(GeometryCodecFailed))
    ensures r.Ok? ==> r.value.frame.Valid() && r.value.frame.names == t.frame.names &&
                      r.value.frame.rows == t.frame.rows
    ensures r.Ok? ==> Rewritten(t.frame, r.value.geometryName, c.wkbLoads) == Ok(r.value.frame)
    ensures r.Ok? ==> t.metadata.Some? && Deserialised(t.metadata.value, c).Ok? &&
                      var selection := SelectGeometryField(Deserialised(t.metadata.value, c).value);
                      selection.Ok? && selection.value.fieldName == JString(r.value.geometryName) &&
                      selection.value.crs == r.value.crs
  {
    if t.metadata.None? then Err(NoSchemaMetadata)
    else
      var metadata :- Deserialised(t.metadata.value, c);
      var selection :- SelectGeometryField(metadata);
      var name :- ColumnName(selection.fieldName);
      var frame :- Rewritten(t.frame, name, c.wkbLoads);
      Ok(GeoFrameValue(frame, name, selection.crs))
  }

  /** `read_geoparquet`, from the table the Parquet reader returns. */
  method ReadGeoParquet(table: Table, c: Codecs) returns (r: Result<GeoDataFrame, Error>)
    requires table.frame.Valid() && Utf8Canonical(c)
    ensures r.Ok? <==> Read(table, c).Ok?
    ensures r.Err? ==> r.error == Read(table, c).error
    ensures r.Ok? ==> && fresh(r.value.frame)
                      && GeoFrameValue(r.value.frame.Value(), r.value.geometryName, r.value.crs) == Read(table, c).value
  {
    var metadata := DeserialiseMetadata(table, c);
    if metadata.Err? {
      return Err(metadata.error);
    }
    var selection := SelectGeometryField(metadata.value);
    if selection.Err? {
      return Err(selection.error);
    }
    var crs := selection.value.crs;
    var df := new DataFrame(table.frame);
    var name := ColumnName(selection.value.fieldName);
    if name.Err? {
      return Err(name.error);
    }
    var decoded := DeserialiseGeometry(df, name.value, c);
    if decoded.Err? {
      return Err(decoded.error);
    }
    r := Ok(GeoDataFrame(decoded.value, name.value, crs));
  }

  /** Reading what was written gives back the frame, its geometry column, and
      the CRS as the WKT2_2018 text it was normalised to. */
  lemma ReadAfterWrite(v: FrameValue, geometryName: string, crs: Option<string>,
                       pandasMetadata: map<Bytes, Bytes>, c: Codecs)
    requires v.Valid() && Lawful(c)
    requires forall b :: b in pandasMetadata ==> EntryDecodes(pandasMetadata, b, c)
    requires Written(v, geometryName, crs, pandasMetadata, c).Ok?
    ensures Read(Written(v, geometryName, crs, pandasMetadata, c).value, c)
              == Ok(GeoFrameValue(v, geometryName, JString(c.crsToWkt2018(crs.value).value)))
  {
    var t := Written(v, geometryName, crs, pandasMetadata, c).value;
    var wkt := c.crsToWkt2018(crs.value).value;
    var cells := v.columns[geometryName];
    var envelope := GeometryMetadata(geometryName, GeometryTypes(cells, c), wkt);
    WrittenEnvelope(geometryName, cells, wkt, c);
    ExtractAfterMerge(pandasMetadata, envelope, c);
    var metadata := Deserialised(t.metadata.value, c).value;
    assert metadata[GeometryFieldsKey] == envelope[0].1;
    SelectWrittenEnvelope(metadata, geometryName, GeometryTypes(cells, c), wkt);
    RewrittenRoundTrip(v, geometryName, c);
  }
}
