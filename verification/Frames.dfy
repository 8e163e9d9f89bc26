/** Data frames (pandas) and Arrow tables, as far as the core uses them. */
module Frames {
  import opened Wrappers
  import opened Values

  /** The contents of a data frame: its column names in order, the cells of
      each column, and its number of rows. */
  datatype FrameValue = FrameValue(names: seq<string>, columns: map<string, seq<Cell>>, rows: nat) {

    /** Column names are distinct, name exactly the stored columns, and every
        column has one cell per row. */
    ghost predicate Valid() {
      && (forall i, j :: 0 <= i < j < |names| ==> names[i] != names[j])
      && (forall n :: n in columns <==> n in names)
      && (forall n :: n in columns ==> |columns[n]| == rows)
    }

    /** `df[name] = cells`: an existing column is replaced where it stands,
        a new one is appended after the others. */
    function WithColumn(name: string, cells: seq<Cell>): (r: FrameValue)
      requires |cells| == rows
      ensures Valid() ==> r.Valid()
      ensures r.rows == rows && name in r.columns && r.columns[name] == cells
      ensures forall n :: n in columns && n != name ==> n in r.columns && r.columns[n] == columns[n]
      ensures Valid() && name in columns ==> r.names == names
      ensures Valid() && name !in columns ==> r.names == names + [name]
    {
      FrameValue(if name in names then names else names + [name], columns[name := cells], rows)
    }
  }

  /** An Arrow table: the frame's columns and the schema-level metadata,
      which maps byte strings to byte strings and may be absent. */
  datatype Table = Table(frame: FrameValue, metadata: Option<map<Bytes, Bytes>>)

  /** A pandas DataFrame, whose columns are assigned in place. */
  class DataFrame {
    var names: seq<string>
    var columns: map<string, seq<Cell>>
    var rows: nat

    function Value(): FrameValue
      reads this
    {
      FrameValue(names, columns, rows)
    }

    constructor (v: FrameValue)
      ensures Value() == v
    {
      names, columns, rows := v.names, v.columns, v.rows;
    }

    /** `df.copy()`: a new frame with the same contents. */
    method Copy() returns (df: DataFrame)
      ensures fresh(df) && df.Value() == Value()
    {
      df := new DataFrame(Value());
    }

    /** `df[name]`, which raises KeyError for a missing column. */
    method Column(name: string) returns (r: Result<seq<Cell>, Error>)
      ensures r.Ok? <==> name in columns
      ensures r.Ok? ==> r.value == columns[name]
      ensures r.Err? ==> r.error == MissingKey(JString(name))
    {
      if name in columns {
        r := Ok(columns[name]);
      } else {
        r := Err(MissingKey(JString(name)));
      }
    }

    /** `df[name] = cells`, in place. */
    method SetColumn(name: string, cells: seq<Cell>)
      requires |cells| == rows
      modifies this
      ensures Value() == old(Value()).WithColumn(name, cells)
    {
      if name !in names {
        names := names + [name];
      }
      columns := columns[name := cells];
    }
  }
}
