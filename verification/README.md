# geoparquet, modelled in Dafny

This project models the core of `geoparquet`, a small Python package that stores a GeoPandas
GeoDataFrame in a Parquet file. The file has no native geometry type. Writing converts the active
geometry column to well-known binary (WKB, section 8.2 of OGC Simple Features Access, ISO 19125-1).
It also merges a `geometry_fields` envelope into the Arrow table's schema-level metadata. The envelope
records the column name, the format tags `"wkb"` and `"WKT2_2018"`, the distinct geometry kinds and
the CRS as WKT. Reading extracts that metadata, takes entry `[0]` of `geometry_fields`, decodes the
named column, and uses the stored CRS.

Modules, one per component of `geoparquet/__init__.py`:

- `Wrappers` (Wrappers.dfy): `Option` and `Result`.
- `Values` (Values.dfy): bytes, JSON values, frame cells, and the exceptions the code raises.
- `Codecs` (Codecs.dfy): the library calls the core makes but does not implement. These are
  `str.encode`/`bytes.decode` (UTF-8), `json.dumps`/`json.loads`, `shapely.wkb.dumps`/`loads`,
  `geom_type` and pyproj's WKT2_2018 export. Each is a function value in a `Codecs` record passed
  as a parameter. Their laws are ghost predicates that the round-trip lemmas assume: UTF-8, JSON and
  WKB round trips, and "UTF-8 decoding accepts only canonical encodings". Metadata extraction
  also assumes the last law, which makes two stored keys never decode to the same string.
- `Frames` (Frames.dfy): frame contents as a value (`FrameValue`), a `DataFrame` class whose columns
  are assigned in place, and the Arrow `Table` (frame plus optional `map<Bytes, Bytes>` metadata).
- `GeometryColumn` (GeometryColumn.dfy): copy-then-rewrite of the geometry column.
- `Metadata` (Metadata.dfy): the metadata merge and the metadata extraction, both loops.
- `Envelope` (Envelope.dfy): building the `geometry_fields` record and selecting its first entry.
- `GeoParquet` (GeoParquet.dfy): `to_geoparquet` and `read_geoparquet`, and the read-after-write theorem.

The model follows the code, which is less forgiving than a reader might expect in three places:

- CRS capture has no fallback. A missing CRS, or one pyproj cannot export as WKT2_2018, makes
  writing fail (`CrsUnresolvable`).
- Absent schema metadata (`None`) is an error, not an empty envelope. Merging into such a table
  fails (`NoSchemaMetadata`), and so does extracting from one.
- A table without a `geometry_fields` key fails to read, with `KeyError`.

## Model

| member | source | states |
|---|---|---|
| `Values.Lookup` | geoparquet/__init__.py:137-141 | a dictionary lookup finds a key exactly when some item has it, and then yields the value of the last item with that key |
| `Frames.FrameValue.WithColumn` | geoparquet/__init__.py:26 | assigning a column of the right length keeps the frame well formed and the row count; the named column holds the new cells; every other column is unchanged; an existing column keeps its place |
| `Frames.DataFrame.Copy` | geoparquet/__init__.py:23 | the copy is a new object with the same contents as the original |
| `Frames.DataFrame.Column` | geoparquet/__init__.py:26 | reading a column yields its cells, or KeyError naming the column when it is missing |
| `Frames.DataFrame.SetColumn` | geoparquet/__init__.py:26 | assigning a column changes the frame's contents exactly as `WithColumn` describes |
| `GeometryColumn.MapCells` | geoparquet/__init__.py:25-26 | the per-row map succeeds exactly when the codec succeeds on every row; it then has one output per input row, and output `i` is the codec's result on input row `i` |
| `GeometryColumn.Rewritten` | geoparquet/__init__.py:22-26 | the rewrite succeeds exactly when the column exists and every row converts (otherwise KeyError or a codec error); it keeps the names, the row count and well-formedness; row `i` of the named column is the codec applied to the old row `i`; every other column is unchanged |
| `GeometryColumn.RewriteColumn` | geoparquet/__init__.py:22-27 | the input frame is left unchanged; on success the result is a fresh frame whose contents are `Rewritten`; on failure the error is `Rewritten`'s |
| `GeometryColumn.SerialiseGeometry` | geoparquet/__init__.py:15-27 | a fresh copy with the geometry column converted to WKB row by row; the input is unchanged |
| `GeometryColumn.DeserialiseGeometry` | geoparquet/__init__.py:107-118 | a fresh copy with the WKB column converted back to geometries row by row; the input is unchanged |
| `GeometryColumn.RewrittenRoundTrip` | geoparquet/__init__.py:107-118 | under the WKB round-trip law, decoding a column that was encoded gives back exactly the original frame |
| `Metadata.Merged` | geoparquet/__init__.py:42-47 | the merged key set is the old keys plus the UTF-8 encodings of the new keys, nothing else; an old key that is not overwritten keeps its byte value |
| `Metadata.UpdateMetadata` | geoparquet/__init__.py:33-48 | empty new metadata returns the input table unchanged; otherwise absent metadata fails (TypeError) and present metadata is replaced by the key-wise merge, with the columns unchanged |
| `Metadata.MergedStoresEveryItem` | geoparquet/__init__.py:44-45 | after the merge, every key of the new metadata maps to the UTF-8 bytes of `json.dumps` of its value |
| `Metadata.DecodedEntries` | geoparquet/__init__.py:99-103 | the decoded dictionary holds, for every stored key, its UTF-8 decoding mapped to the JSON decoding of its value, and no other keys |
| `Metadata.Deserialised` | geoparquet/__init__.py:92-104 | extraction succeeds exactly when every stored key is UTF-8 and every stored value is UTF-8 JSON; otherwise it fails |
| `Metadata.DeserialiseMetadata` | geoparquet/__init__.py:92-104 | the loop over the stored entries returns `Deserialised` of the stored metadata, and absent metadata fails (AttributeError) |
| `Metadata.ExtractAfterMerge` | geoparquet/__init__.py:44-103 | extracting after a merge succeeds and gives back every merged value under its key, and every old entry that was not overwritten |
| `Envelope.Unique` | geoparquet/__init__.py:66 | the distinct-values list has no duplicates and holds exactly the values of the input |
| `Envelope.UniqueKeepsOrderOfAppearance` | geoparquet/__init__.py:66 | the distinct values are listed in order of first appearance in the input |
| `Envelope.GeometryTypes` | geoparquet/__init__.py:66 | `geometry_types` is duplicate-free and holds exactly the kinds observed in the geometry column's rows |
| `Envelope.WrittenEnvelope` | geoparquet/__init__.py:60-82 | the envelope `GeometryMetadata` builds from a geometry column has one key, `geometry_fields`, holding exactly one entry; the entry has `field_name` = the column name, `geometry_format` = `"wkb"`, `crs` = the CRS text, `crs_format` = `"WKT2_2018"`, and the column's distinct observed `geometry_types`; it is a value JSON round-trips (`GeoParquet.Written` states that this envelope is what the written table stores) |
| `Envelope.GeometryMetadata` | geoparquet/__init__.py:72-82 | the `geometry_metadata` dictionary has one item, `geometry_fields`, whose value is a one-element list; that entry has distinct keys and looks up `field_name` = the column name, `geometry_format` = `"wkb"`, `geometry_types` = the given kinds, `crs` = the CRS text and `crs_format` = `"WKT2_2018"` |
| `Envelope.First` | geoparquet/__init__.py:135 | indexing with `[0]` succeeds exactly on a non-empty list or string; on a list it yields the first element; on an empty list or string it fails with IndexError |
| `Envelope.Member` | geoparquet/__init__.py:137-141 | indexing with a string succeeds exactly on an object that has that key, and yields its value |
| `Envelope.SelectGeometryField` | geoparquet/__init__.py:135-141 | a missing `geometry_fields` key fails with KeyError; selection succeeds exactly when `geometry_fields` is a non-empty list whose first entry is an object with `crs` and `field_name`; it yields that first entry's `field_name` and `crs` and ignores later entries |
| `Envelope.SelectWrittenEnvelope` | geoparquet/__init__.py:72-141 | selecting from metadata that holds a written envelope recovers the column name and the CRS text, whatever else the metadata holds |
| `GeoParquet.Written` | geoparquet/__init__.py:51-86 | writing succeeds exactly when the geometry column exists, the CRS is present and resolves to WKT2_2018, and every geometry encodes; a missing column fails with KeyError naming it, a missing or unresolvable CRS fails with `CrsUnresolvable`, and a geometry that does not encode fails with a codec error; the columns are the WKB-rewritten frame; the metadata keys are the pre-existing ones plus `geometry_fields`; every other pre-existing entry keeps its value; `geometry_fields` holds the UTF-8 JSON text of the `GeometryMetadata` envelope for the column's name, its observed kinds and the WKT2_2018 CRS |
| `GeoParquet.ToGeoParquet` | geoparquet/__init__.py:51-86 | the step-by-step write yields exactly the table `Written` describes |
| `GeoParquet.ColumnName` | geoparquet/__init__.py:141-143 | a JSON string `field_name` names the column to decode; any other value is refused with an error carrying that value |
| `GeoParquet.Read` | geoparquet/__init__.py:124-146 | reading succeeds exactly when the metadata is present and decodes, entry `[0]` of `geometry_fields` has a `crs` and a string `field_name`, and every row of that column WKB-decodes, whatever later entries hold; it fails without schema metadata, with `MetadataUndecodable` when an entry does not decode, with KeyError without `geometry_fields` or when `field_name` names no column, and with a codec error when a row does not decode; on success the geometry column is entry `[0]`'s `field_name` and the CRS is entry `[0]`'s `crs`; the frame is the table's frame with that column WKB-decoded row by row and every other column unchanged |
| `GeoParquet.ReadGeoParquet` | geoparquet/__init__.py:124-146 | the step-by-step read succeeds exactly when `Read` does, with the same error; on success it returns a fresh frame with `Read`'s contents, geometry column and CRS |
| `GeoParquet.ReadAfterWrite` | geoparquet/__init__.py:51-146 | under the codec laws, reading a written table gives back the original frame and geometry column name, and the CRS as the WKT2_2018 text it was normalised to |

## Left out

- Parquet file I/O (`pq.write_table`, `pq.read_table`): writing ends at the in-memory table handed to
  the writer, and reading starts at the table the reader returns.
- `multiprocessing.Pool`: its ordered `map` is modelled as a sequential per-row map. Parallel
  execution is not modelled.
- Shapely's WKB codec, `geom_type`, `json.dumps`/`json.loads`, UTF-8, and pyproj's CRS normalisation
  are foreign calls. They are parameters with stated laws and are not implemented.
- `pa.Table.from_pandas` and `Table.to_pandas` carry the frame's columns unchanged. The index
  columns and type conversions they add are not modelled. The `pandas` metadata key that
  `from_pandas` attaches is an input to `ToGeoParquet`.
- `GeoDataFrame(df, crs=crs, geometry=...)` only wraps the result. The stored CRS value is passed
  through unparsed, so CRS parsing on read is not modelled.
- The monkey-patching of the GeoDataFrame and DataFrame classes: the functions are free functions
  here. setup.py is packaging only.
- The order of entries in the schema metadata is not modelled: it is a Dafny `map`. The user key is
  inserted under its UTF-8 bytes, which is how Arrow stores a string key.
- `Metadata.Merged`: when a user key's UTF-8 bytes are already a stored key, the model overwrites
  that entry. The code does not. `table.schema.metadata` has bytes keys and the user key is a `str`,
  so `tbl_metadata[k] = ...` adds a second entry beside the old one. `replace_schema_metadata` then
  passes Arrow two entries with the same key. The model cannot hold that duplicate.
  `pa.Table.from_pandas` stores only the `pandas` key, so `to_geoparquet` never meets a colliding
  `geometry_fields` key. `MergedStoresEveryItem`, `ExtractAfterMerge`, `GeoParquet.Written`,
  `GeoParquet.ToGeoParquet` and `GeoParquet.ReadAfterWrite` describe the overwrite for such a
  colliding input.
- JSON numbers are integers only. Floating point is not modelled.
- `Metadata.DeserialiseMetadata`: it reports one error, `MetadataUndecodable`, whether a key fails
  UTF-8 decoding or a value fails JSON decoding. It does not say which entry failed first, because
  the model does not fix the iteration order of the stored map.
- `GeoParquet.Written`: a GeoDataFrame whose active geometry column is missing raises AttributeError
  from `.geometry`. The model reports this as a missing key naming the column.
- `GeoParquet.ColumnName`: a `field_name` that is a JSON list or object is refused with an error. In
  pandas such a value selects several columns, and the read then fails later, in the WKB decoding or
  in the column assignment. The model does not follow that path. A number, boolean or null
  `field_name` does raise KeyError in pandas, as modelled.
- `Frames.FrameValue.Valid`: column labels are distinct, though pandas frames allow duplicates. The
  members that require it cannot be given such a frame, so the errors the code raises on one are not
  modelled. Those members are `GeometryColumn.Rewritten`, `GeometryColumn.RewriteColumn`,
  `GeometryColumn.SerialiseGeometry`, `GeometryColumn.DeserialiseGeometry`, `GeoParquet.Written`,
  `GeoParquet.ToGeoParquet`, `GeoParquet.Read` and `GeoParquet.ReadGeoParquet`. The errors are:
  `df[name]` yields a DataFrame, so `Pool.map` applies the codec to column labels;
  `pa.Table.from_pandas` refuses duplicate names.
