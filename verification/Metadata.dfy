/** Schema-level metadata: merging user metadata into a table as UTF-8 JSON
    (`_update_metadata`) and reading it back (`_deserialise_metadata`). */
module Metadata {
  import opened Wrappers
  import opened Values
  import opened Codecs
  import opened Frames

  /** The stored keys the items of a user dictionary are written under. */
  function EncodedKeys(items: seq<(string, Json)>, c: Codecs): set<Bytes> {
    set i | 0 <= i < |items| :: c.utf8Encode(items[i].0)
  }

  /** The stored metadata after `tbl_metadata[k] = json.dumps(v).encode("utf-8")`
      for each item `(k, v)` in order. */
  function Merged(stored: map<Bytes, Bytes>, items: seq<(string, Json)>, c: Codecs): (r: map<Bytes, Bytes>)
    ensures r.Keys == stored.Keys + EncodedKeys(items, c)
    ensures forall b :: b in stored && b !in EncodedKeys(items, c) ==> r[b] == stored[b]
  {
    if |items| == 0 then stored
    else
      var (k, v) := items[|items| - 1];
      var before := Merged(stored, items[..|items| - 1], c);
      assert EncodedKeys(items, c) == EncodedKeys(items[..|items| - 1], c) + {c.utf8Encode(k)};
      before[c.utf8Encode(k) := c.utf8Encode(c.jsonDumps(v))]
  }

  /** `_update_metadata(table, new_metadata)`. */
  method UpdateMetadata(table: Table, newMetadata: seq<(string, Json)>, c: Codecs) returns (r: Result<Table, Error>)
    ensures |newMetadata| == 0 ==> r == Ok(table)
    ensures |newMetadata| > 0 && table.metadata.None? ==> r == Err(NoSchemaMetadata)
    ensures |newMetadata| > 0 && table.metadata.Some? ==>
              r == Ok(Table(table.frame, Some(Merged(table.metadata.value, newMetadata, c))))
  {
    if |newMetadata| == 0 {
      return Ok(table);
    }
    if table.metadata.None? {
      return Err(NoSchemaMetadata);
    }
    var tblMetadata := table.metadata.value;
    for i := 0 to |newMetadata|
      invariant tblMetadata == Merged(table.metadata.value, newMetadata[..i], c)
    {
      var (k, v) := newMetadata[i];
      assert newMetadata[..i + 1][..i] == newMetadata[..i];
      tblMetadata := tblMetadata[c.utf8Encode(k) := c.utf8Encode(c.jsonDumps(v))];
    }
    assert newMetadata[..|newMetadata|] == newMetadata;
    r := Ok(Table(table.frame, Some(tblMetadata)));
  }

  /** Every user key is stored as the UTF-8 JSON text of its value. */
  lemma {:induction false} MergedStoresEveryItem(stored: map<Bytes, Bytes>, items: seq<(string, Json)>, c: Codecs, i: nat)
    requires Utf8RoundTrips(c) && DistinctKeys(items) && i < |items|
    ensures Merged(stored, items, c)[c.utf8Encode(items[i].0)] == c.utf8Encode(c.jsonDumps(items[i].1))
  {
    var n := |items| - 1;
    if i < n {
      var prefix := items[..n];
      assert DistinctKeys(prefix);
      MergedStoresEveryItem(stored, prefix, c, i);
      assert c.utf8Decode(c.utf8Encode(items[i].0)) == Some(items[i].0);
      assert c.utf8Decode(c.utf8Encode(items[n].0)) == Some(items[n].0);
      assert c.utf8Encode(items[n].0) != c.utf8Encode(items[i].0);
    }
  }

  /** One stored entry decodes: its key as UTF-8, its value as UTF-8 JSON. */
  predicate EntryDecodes(stored: map<Bytes, Bytes>, b: Bytes, c: Codecs)
    requires b in stored
  {
    && c.utf8Decode(b).Some?
    && c.utf8Decode(stored[b]).Some?
    && c.jsonLoads(c.utf8Decode(stored[b]).value).Some?
  }

  /** `json.loads(v.decode("utf-8"))` of the value stored under `b`. */
  function EntryValue(stored: map<Bytes, Bytes>, b: Bytes, c: Codecs): Json
    requires b in stored && EntryDecodes(stored, b, c)
  {
    c.jsonLoads(c.utf8Decode(stored[b]).value).value
  }

  /** The dictionary built from the entries under `keys`, all of which decode. */
  function DecodedEntries(stored: map<Bytes, Bytes>, keys: set<Bytes>, c: Codecs): (r: map<string, Json>)
    requires Utf8Canonical(c)
    requires keys <= stored.Keys
    requires forall b :: b in keys ==> EntryDecodes(stored, b, c)
    ensures forall b :: b in keys ==> c.utf8Decode(b).Some? && c.utf8Decode(b).value in r &&
                                      r[c.utf8Decode(b).value] == EntryValue(stored, b, c)
    ensures forall s :: s in r ==> c.utf8Encode(s) in keys && c.utf8Decode(c.utf8Encode(s)) == Some(s)
  {
    forall b | b in keys
      ensures c.utf8Decode(b).Some?
    {
      assert EntryDecodes(stored, b, c);
    }
    map b | b in keys :: c.utf8Decode(b).value := EntryValue(stored, b, c)
  }

  /** What `_deserialise_metadata` returns for stored metadata: the decoded
      dictionary, or an error when some entry does not decode. */
  function Deserialised(stored: map<Bytes, Bytes>, c: Codecs): (r: Result<map<string, Json>, Error>)
    requires Utf8Canonical(c)
    ensures r.Ok? <==> forall b :: b in stored ==> EntryDecodes(stored, b, c)
    ensures r.Err? ==> r.error == MetadataUndecodable
  {
    if forall b :: b in stored ==> EntryDecodes(stored, b, c) then Ok(DecodedEntries(stored, stored.Keys, c))
    else Err(MetadataUndecodable)
  }

  /** `_deserialise_metadata(table)`. */
  method DeserialiseMetadata(table: Table, c: Codecs) returns (r: Result<map<string, Json>, Error>)
    requires Utf8Canonical(c)
    ensures table.metadata.None? ==> r == Err(NoSchemaMetadata)
    ensures table.metadata.Some? ==> r == Deserialised(table.metadata.value, c)
  {
    if table.metadata.None? {
      return Err(NoSchemaMetadata);
    }
    var metadata := table.metadata.value;
    var deserialised: map<string, Json> := map[];
    var remaining := metadata.Keys;
    while remaining != {}
      invariant remaining <= metadata.Keys
      invariant forall b :: b in metadata.Keys - remaining ==> EntryDecodes(metadata, b, c)
      invariant deserialised == DecodedEntries(metadata, metadata.Keys - remaining, c)
      decreases remaining
    {
      var k :| k in remaining;
      var key := c.utf8Decode(k);
      var text := c.utf8Decode(metadata[k]);
      if key.None? || text.None? || c.jsonLoads(text.value).None? {
        assert !EntryDecodes(metadata, k, c);
        return Err(MetadataUndecodable);
      }
      var val := c.jsonLoads(text.value).value;
      deserialised := deserialised[key.value := val];
      remaining := remaining - {k};
    }
    assert metadata.Keys - remaining == metadata.Keys;
    r := Ok(deserialised);
  }

  /** Reading the metadata back after a merge yields every merged value under
      its key, and every entry that was already stored and not overwritten. */
  lemma ExtractAfterMerge(stored: map<Bytes, Bytes>, items: seq<(string, Json)>, c: Codecs)
    requires Utf8RoundTrips(c) && Utf8Canonical(c) && JsonRoundTrips(c)
    requires DistinctKeys(items) && forall i :: 0 <= i < |items| ==> IsDictJson(items[i].1)
    requires forall b :: b in stored ==> EntryDecodes(stored, b, c)
    ensures Deserialised(Merged(stored, items, c), c).Ok?
    ensures forall i :: 0 <= i < |items| ==>
              items[i].0 in Deserialised(Merged(stored, items, c), c).value &&
              Deserialised(Merged(stored, items, c), c).value[items[i].0] == items[i].1
    ensures forall b :: b in stored && b !in EncodedKeys(items, c) ==>
              c.utf8Decode(b).value in Deserialised(Merged(stored, items, c), c).value &&
              Deserialised(Merged(stored, items, c), c).value[c.utf8Decode(b).value] == EntryValue(stored, b, c)
  {
    var merged := Merged(stored, items, c);
    forall i | 0 <= i < |items|
      ensures c.utf8Encode(items[i].0) in merged
      ensures EntryDecodes(merged, c.utf8Encode(items[i].0), c)
      ensures c.utf8Decode(c.utf8Encode(items[i].0)) == Some(items[i].0)
      ensures EntryValue(merged, c.utf8Encode(items[i].0), c) == items[i].1
    {
      MergedStoresEveryItem(stored, items, c, i);
      assert c.utf8Encode(items[i].0) in EncodedKeys(items, c);
      assert c.utf8Decode(c.utf8Encode(c.jsonDumps(items[i].1))) == Some(c.jsonDumps(items[i].1));
      assert c.jsonLoads(c.jsonDumps(items[i].1)) == Some(items[i].1);
    }
    forall b | b in merged
      ensures EntryDecodes(merged, b, c)
    {
      if b in EncodedKeys(items, c) {
        var i :| 0 <= i < |items| && b == c.utf8Encode(items[i].0);
      } else {
        assert EntryDecodes(stored, b, c);
      }
    }
    var m := Deserialised(merged, c).value;
    forall i | 0 <= i < |items|
      ensures items[i].0 in m && m[items[i].0] == items[i].1
    {
      var b := c.utf8Encode(items[i].0);
      assert c.utf8Decode(b).value == items[i].0;
    }
  }
}
