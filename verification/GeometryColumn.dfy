/** Rewriting the geometry column of a copy of a frame, row by row, through
    the well-known binary codec (`_serialise_geometry`, `_deserialise_geometry`). */
module GeometryColumn {
  import opened Wrappers
  import opened Values
  import opened Codecs
  import opened Frames

  /** `Pool.map(f, cells)`: `f` applied to every row, the results collected in
      row order; a row on which `f` raises makes the whole map raise. */
  function MapCells(cells: seq<Cell>, f: Cell -> Option<Cell>): (r: Option<seq<Cell>>)
    ensures r.Some? <==> forall i :: 0 <= i < |cells| ==> f(cells[i]).Some?
    ensures r.Some? ==> |r.value| == |cells|
    ensures r.Some? ==> forall i :: 0 <= i < |cells| ==> f(cells[i]) == Some(r.value[i])
  {
    if |cells| == 0 then Some([])
    else
      match (f(cells[0]), MapCells(cells[1..], f))
      case (Some(y), Some(ys)) => Some([y] + ys)
      case _ => None
  }

  /** The frame after `df[name] = Pool.map(f, df[name])`: the named column is
      rewritten row by row and nothing else changes. */
  function Rewritten(v: FrameValue, name: string, f: Cell -> Option<Cell>): (r: Result<FrameValue, Error>)
    requires v.Valid()
    ensures r.Ok? <==> name in v.columns && forall i :: 0 <= i < v.rows ==> f(v.columns[name][i]).Some?
    ensures r.Err? ==> r.error == if name in v.columns then GeometryCodecFailed else MissingKey(JString(name))
    ensures r.Ok? ==> r.value.Valid() && r.value.names == v.names && r.value.rows == v.rows
    ensures r.Ok? ==> name in r.value.columns &&
                      forall i :: 0 <= i < v.rows ==> f(v.columns[name][i]) == Some(r.value.columns[name][i])
    ensures r.Ok? ==> forall n :: n in v.columns && n != name ==> r.value.columns[n] == v.columns[n]
  {
    if name !in v.columns then Err(MissingKey(JString(name)))
    else
      match MapCells(v.columns[name], f)
      case None => Err(GeometryCodecFailed)
      case Some(cells) => Ok(v.WithColumn(name, cells))
  }

  /** Copy the frame, then rewrite one of its columns in the copy. */
  method RewriteColumn(frame: DataFrame, name: string, f: Cell -> Option<Cell>) returns (r: Result<DataFrame, Error>)
    requires frame.Value().Valid()
    ensures unchanged(frame)
    ensures r.Ok? <==> Rewritten(frame.Value(), name, f).Ok?
    ensures r.Ok? ==> fresh(r.value) && r.value.Value() == Rewritten(frame.Value(), name, f).value
    ensures r.Err? ==> r.error == Rewritten(frame.Value(), name, f).error
  {
    var df := frame.Copy();
    var column := df.Column(name);
    if column.Err? {
      return Err(column.error);
    }
    var cells := MapCells(column.value, f);
    if cells.None? {
      return Err(GeometryCodecFailed);
    }
    df.SetColumn(name, cells.value);
    r := Ok(df);
  }

  /** `_serialise_geometry`: a copy whose geometry column holds well-known binary. */
  method SerialiseGeometry(frame: DataFrame, geomColName: string, c: Codecs) returns (r: Result<DataFrame, Error>)
    requires frame.Value().Valid()
    ensures unchanged(frame)
    ensures r.Ok? <==> Rewritten(frame.Value(), geomColName, c.wkbDumps).Ok?
    ensures r.Ok? ==> fresh(r.value) && r.value.Value() == Rewritten(frame.Value(), geomColName, c.wkbDumps).value
    ensures r.Err? ==> r.error == Rewritten(frame.Value(), geomColName, c.wkbDumps).error
  {
    r := RewriteColumn(frame, geomColName, c.wkbDumps);
  }

  /** `_deserialise_geometry`: a copy whose geometry column holds geometries again. */
  method DeserialiseGeometry(frame: DataFrame, geomColName: string, c: Codecs) returns (r: Result<DataFrame, Error>)
    requires frame.Value().Valid()
    ensures unchanged(frame)
    ensures r.Ok? <==> Rewritten(frame.Value(), geomColName, c.wkbLoads).Ok?
    ensures r.Ok? ==> fresh(r.value) && r.value.Value() == Rewritten(frame.Value(), geomColName, c.wkbLoads).value
    ensures r.Err? ==> r.error == Rewritten(frame.Value(), geomColName, c.wkbLoads).error
  {
    r := RewriteColumn(frame, geomColName, c.wkbLoads);
  }

  /** Decoding the column that encoding produced gives back the original frame. */
  lemma RewrittenRoundTrip(v: FrameValue, name: string, c: Codecs)
    requires v.Valid() && WkbRoundTrips(c)
    requires Rewritten(v, name, c.wkbDumps).Ok?
    ensures Rewritten(Rewritten(v, name, c.wkbDumps).value, name, c.wkbLoads) == Ok(v)
  {
    var w := Rewritten(v, name, c.wkbDumps).value;
    var u := Rewritten(w, name, c.wkbLoads);
    forall i | 0 <= i < w.rows
      ensures c.wkbLoads(w.columns[name][i]) == Some(v.columns[name][i])
    {
      assert c.wkbDumps(v.columns[name][i]) == Some(w.columns[name][i]);
    }
    assert u.Ok?;
    assert u.value.columns[name] == v.columns[name];
    assert u.value.columns == v.columns;
  }
}
