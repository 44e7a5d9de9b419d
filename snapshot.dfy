/** The snapshot file `items.json`: what startup reads from it and what a
    save leaves in it. The JSON encoding itself is a pair of parameters. */
module Snapshot {
  import opened Types

  /** `load_items`: a missing file is an empty store; otherwise the file's
      bytes are decoded, and a file that does not decode is an error (None). */
  function Load(file: Option<seq<byte>>, decode: seq<byte> -> Option<seq<Item>>): Option<seq<Item>> {
    match file
    case None => Some([])
    case Some(bytes) => decode(bytes)
  }

  /** The store the service starts with: `load_items().await.unwrap_or_default()`,
      so a file that does not decode silently gives an empty store. */
  function StartupItems(file: Option<seq<byte>>, decode: seq<byte> -> Option<seq<Item>>): (r: seq<Item>)
    ensures file.None? ==> r == []
    ensures file.Some? && decode(file.value).None? ==> r == []
    ensures file.Some? && decode(file.value).Some? ==> r == decode(file.value).value
  {
    match Load(file, decode)
    case Some(items) => items
    case None => []
  }

  /** The file after `save_items` as written: opened with `write(true)` and
      `create(true)` but without `truncate(true)`, then `write_all(data)` from
      offset 0. Bytes of the previous file beyond the new data remain. */
  function WrittenInPlace<T>(previous: Option<seq<T>>, data: seq<T>): (f: seq<T>)
    ensures data <= f
    ensures previous.None? || |previous.value| <= |data| ==> f == data
    ensures previous.Some? && |data| < |previous.value| ==>
      |f| == |previous.value| && f[|data|..] == previous.value[|data|..]
  {
    match previous
    case None => data
    case Some(was) => if |data| < |was| then data + was[|data|..] else data
  }

  /** The file after a save that also truncates: exactly the new data. It
      differs from the save as written only when the old file was longer. */
  function WrittenTruncating<T>(previous: Option<seq<T>>, data: seq<T>): (f: seq<T>)
    ensures |f| == |data| && forall i :: 0 <= i < |f| ==> f[i] == data[i]
    ensures previous.None? || |previous.value| <= |data| ==> f == WrittenInPlace(previous, data)
    ensures f != WrittenInPlace(previous, data) ==> previous.Some? && |data| < |previous.value|
  {
    data
  }

  /** As written, a save whose encoding is shorter than the file it overwrites
      does not leave that encoding in the file. */
  lemma InPlaceShorterSaveLeavesTail<T>(previous: seq<T>, data: seq<T>)
    requires |data| < |previous|
    ensures WrittenInPlace(Some(previous), data) != data
    ensures WrittenInPlace(Some(previous), data) == data + previous[|data|..]
  {
  }

  /** The concrete case: a bulk update that lowers the price of item 1 from
      10.25 to 1.5 shortens the JSON by two characters, and the old closing
      characters stay behind it. */
  lemma InPlaceJsonExample()
    ensures var before := "[{\"id\":1,\"name\":\"pen\",\"price\":10.25}]";
            var after := "[{\"id\":1,\"name\":\"pen\",\"price\":1.5}]";
            WrittenInPlace(Some(before), after) == after + "}]"
  {
    var before := "[{\"id\":1,\"name\":\"pen\",\"price\":10.25}]";
    var after := "[{\"id\":1,\"name\":\"pen\",\"price\":1.5}]";
    assert |after| == 35 && |before| == 37;
    assert before[35..] == "}]";
  }

  /** As written, a decoder that rejects the leftover tail (JSON rejects
      trailing characters) makes the next startup begin with an empty store. */
  lemma InPlaceSaveLosesStore(previous: seq<byte>, data: seq<byte>, decode: seq<byte> -> Option<seq<Item>>)
    requires decode(WrittenInPlace(Some(previous), data)).None?
    ensures StartupItems(Some(WrittenInPlace(Some(previous), data)), decode) == []
  {
  }

  /** Corrected: with truncation, the next startup reads back exactly the
      items that were saved, whatever the file held before. */
  lemma TruncatingSaveRoundTrip(previous: Option<seq<byte>>, items: seq<Item>,
                                encode: seq<Item> -> seq<byte>, decode: seq<byte> -> Option<seq<Item>>)
    requires decode(encode(items)) == Some(items)
    ensures StartupItems(Some(WrittenTruncating(previous, encode(items))), decode) == items
  {
    var f := WrittenTruncating(previous, encode(items));
    assert f == encode(items);
  }
}
