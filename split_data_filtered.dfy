/** `split_json_file` from split_data_filtered.py: a JSON list is cut into
    consecutive chunks, each written to its own numbered file. The
    serialised byte size of a candidate chunk
    (`len(json.dumps(chunk, indent=2).encode('utf-8'))`) is an oracle
    `size` given as a parameter; file reading and writing are left out, so
    the model returns the numbered parts, each with the chunk written to
    the file `PartFileName(baseName, number)`. */
module SplitDataFiltered {
  import opened Outcomes
  import Seqs
  import PyStr

  /** A JSON value as `json.load` returns it. Numbers keep their text; an
      object keeps its entries in the order of the dict `json.load` builds. */
  datatype Json =
    | JNull
    | JBool(b: bool)
    | JNumber(text: string)
    | JString(s: string)
    | JArray(items: seq<Json>)
    | JObject(entries: seq<(string, Json)>)

  /** One output file: its part number and the items dumped into it. */
  datatype Part = Part(number: nat, items: seq<Json>)

  /** The values of a dict's entries, in order (`list(d.values())`). */
  function Values(entries: seq<(string, Json)>): (r: seq<Json>)
    ensures |r| == |entries|
    ensures forall i :: 0 <= i < |r| ==> r[i] == entries[i].1
  {
    if entries == [] then [] else [entries[0].1] + Values(entries[1..])
  }

  /** The list the splitter works on: a list as it is, a dict's values in
      order, and any other value wrapped in a one-item list. */
  function Items(data: Json): (r: seq<Json>)
    ensures data.JArray? ==> r == data.items
    ensures data.JObject? ==> |r| == |data.entries| && forall i :: 0 <= i < |r| ==> r[i] == data.entries[i].1
    ensures !data.JArray? && !data.JObject? ==> r == [data]
  {
    match data
    case JArray(items) => items
    case JObject(entries) => Values(entries)
    case _ => [data]
  }

  /** The byte limit for a limit given in mebibytes. */
  function LimitBytes(maxSizeMb: int): int
  {
    maxSizeMb * 1024 * 1024
  }

  /** The name of output file number `part`: the base name, `_part`, the
      number in decimal (digits only, no leading zero) and `.json`; the
      number reads back from the name. */
  function PartFileName(baseName: string, part: nat): (r: string)
    ensures |baseName| + 10 < |r|
    ensures r[..|baseName|] == baseName && r[|baseName|..|baseName| + 5] == "_part"
    ensures PyStr.EndsWith(r, ".json")
    ensures forall i :: |baseName| + 5 <= i < |r| - 5 ==> '0' <= r[i] <= '9'
    ensures |r| - |baseName| - 10 > 1 ==> r[|baseName| + 5] != '0'
    ensures PyStr.DecimalValue(r[|baseName| + 5..|r| - 5]) == part
  {
    var digits := PyStr.NatToString(part);
    PyStr.NatToStringRoundTrip(part);
    var r := baseName + "_part" + digits + ".json";
    assert r[|baseName| + 5..|r| - 5] == digits;
    r
  }

  /** The candidate chunk is measured when its length `len` is a multiple of
      100 or its newest item `items[i]` is the last input item. */
  predicate Measured(len: nat, i: nat, total: nat)
  {
    len % 100 == 0 || i == total - 1
  }

  /** Growing a chunk from `start`, appending `items[i]` produces a candidate
      that is measured and found over the limit. */
  predicate OverAt(items: seq<Json>, size: seq<Json> -> nat, limit: int, start: nat, i: nat)
    requires start <= i < |items|
  {
    Measured(i - start + 1, i, |items|) && size(items[start..i + 1]) > limit
  }

  /** The first position at or after `i` where growing a chunk from `start`
      meets an over-limit measurement: where the inner loop breaks. */
  function FirstOver(items: seq<Json>, size: seq<Json> -> nat, limit: int, start: nat, i: nat): (r: Option<nat>)
    requires start <= i <= |items|
    ensures r.Some? ==> i <= r.value < |items|
    decreases |items| - i
  {
    if i == |items| then None
    else if OverAt(items, size, limit, start, i) then Some(i)
    else FirstOver(items, size, limit, start, i + 1)
  }

  /** `FirstOver` finds an over-limit measurement with none before it, and
      finds nothing exactly when there is none. */
  lemma {:induction false} FirstOverSpec(items: seq<Json>, size: seq<Json> -> nat, limit: int, start: nat, i: nat)
    requires start <= i <= |items|
    ensures var r := FirstOver(items, size, limit, start, i);
      r.Some? ==> OverAt(items, size, limit, start, r.value)
    ensures var r := FirstOver(items, size, limit, start, i);
      r.Some? ==> forall j :: i <= j < r.value ==> !OverAt(items, size, limit, start, j)
    ensures FirstOver(items, size, limit, start, i).None?
      <==> forall j :: i <= j < |items| ==> !OverAt(items, size, limit, start, j)
    decreases |items| - i
  {
    if i < |items| && !OverAt(items, size, limit, start, i) {
      FirstOverSpec(items, size, limit, start, i + 1);
    }
  }

  /** The length of the chunk that starts at `start`: the whole remaining
      tail if no measurement goes over the limit; otherwise the candidate
      at the first over-limit measurement, less its newest item unless that
      item is alone. */
  function ChunkLen(items: seq<Json>, size: seq<Json> -> nat, limit: int, start: nat): (n: nat)
    requires start < |items|
    ensures 1 <= n <= |items| - start
  {
    match FirstOver(items, size, limit, start, start)
    case None => |items| - start
    case Some(i) => if i - start + 1 > 1 then i - start else 1
  }

  /** The chunks emitted from `start` on, in part order. */
  function ChunksFrom(items: seq<Json>, size: seq<Json> -> nat, limit: int, start: nat): (r: seq<seq<Json>>)
    requires start <= |items|
    ensures |r| <= |items| - start
    ensures forall k :: 0 <= k < |r| ==> r[k] != []
    decreases |items| - start
  {
    if start == |items| then []
    else
      var n := ChunkLen(items, size, limit, start);
      [items[start..start + n]] + ChunksFrom(items, size, limit, start + n)
  }

  /** All chunks of `items`. */
  function Chunks(items: seq<Json>, size: seq<Json> -> nat, limit: int): seq<seq<Json>>
  {
    ChunksFrom(items, size, limit, 0)
  }

  /** Lines 37-51: the chunk that starts at `startIdx`, grown one item at
      a time and measured at the points line 42 names. */
  method NextChunk(items: seq<Json>, size: seq<Json> -> nat, maxSizeBytes: int, startIdx: nat)
    returns (tempChunk: seq<Json>)
    requires startIdx < |items|
    ensures tempChunk == items[startIdx..startIdx + ChunkLen(items, size, maxSizeBytes, startIdx)]
  {
    var totalItems := |items|;
    tempChunk := [];
    for i := startIdx to totalItems
      invariant tempChunk == items[startIdx..i]
      invariant FirstOver(items, size, maxSizeBytes, startIdx, startIdx)
             == FirstOver(items, size, maxSizeBytes, startIdx, i)
    {
      tempChunk := tempChunk + [items[i]];
      assert tempChunk == items[startIdx..i + 1];
      if |tempChunk| % 100 == 0 || i == totalItems - 1 {
        if size(tempChunk) > maxSizeBytes {
          assert OverAt(items, size, maxSizeBytes, startIdx, i);
          if |tempChunk| > 1 {
            tempChunk := tempChunk[..|tempChunk| - 1];
          }
          return;
        }
      }
      assert !OverAt(items, size, maxSizeBytes, startIdx, i);
    }
    // Lines 50-51 fall back to a one-item chunk when nothing was kept; the
    // loop above always keeps at least one item, so that never happens.
    assert tempChunk != [];
  }

  /** Lines 12-62 of `split_json_file`, with the data already loaded: the
      parts written, in order, one per chunk. The limit defaults to 90 MiB,
      and a negative limit is taken as it is, so every measurement is over
      it. */
  method SplitJsonFile(data: Json, size: seq<Json> -> nat, maxSizeMb: int := 90)
    returns (parts: seq<Part>)
    ensures parts == PartsOf(Chunks(Items(data), size, LimitBytes(maxSizeMb)))
  {
    var maxSizeBytes := LimitBytes(maxSizeMb);
    var items := Items(data);
    var totalItems := |items|;
    var part := 1;
    var startIdx := 0;
    parts := [];
    while startIdx < totalItems
      invariant startIdx <= totalItems
      invariant part == |parts| + 1
      invariant SplitParts(items, size, maxSizeBytes, startIdx, parts)
        == SplitParts(items, size, maxSizeBytes, 0, [])
      decreases totalItems - startIdx
    {
      var tempChunk := NextChunk(items, size, maxSizeBytes, startIdx);
      parts := parts + [Part(part, tempChunk)];
      startIdx := startIdx + |tempChunk|;
      part := part + 1;
    }
    SplitPartsChunks(items, size, maxSizeBytes, 0, []);
    assert PartsOf([]) == [];
    assert [] + Chunks(items, size, maxSizeBytes) == Chunks(items, size, maxSizeBytes);
  }

  /** The parts the loop of lines 35-62 writes from `start` on, after the
      parts `written`. */
  function SplitParts(items: seq<Json>, size: seq<Json> -> nat, limit: int, start: nat, written: seq<Part>): seq<Part>
    requires start <= |items|
    decreases |items| - start
  {
    if start == |items| then written
    else
      var n := ChunkLen(items, size, limit, start);
      SplitParts(items, size, limit, start + n, written + [Part(|written| + 1, items[start..start + n])])
  }

  /** The loop writes one numbered part per chunk. */
  lemma {:induction false} SplitPartsChunks(items: seq<Json>, size: seq<Json> -> nat, limit: int, start: nat, done: seq<seq<Json>>)
    requires start <= |items|
    ensures SplitParts(items, size, limit, start, PartsOf(done))
      == PartsOf(done + ChunksFrom(items, size, limit, start))
    decreases |items| - start
  {
    if start < |items| {
      var n := ChunkLen(items, size, limit, start);
      var chunk := items[start..start + n];
      PartsOfSnoc(done, chunk);
      SplitPartsChunks(items, size, limit, start + n, done + [chunk]);
      ChunksFromStep(items, size, limit, start, done);
    } else {
      assert done + ChunksFrom(items, size, limit, start) == done;
    }
  }

  /** The output files for `chunks`, numbered from 1 in order. */
  function PartsOf(chunks: seq<seq<Json>>): (r: seq<Part>)
    ensures |r| == |chunks|
  {
    if chunks == [] then []
    else PartsOf(chunks[..|chunks| - 1]) + [Part(|chunks|, chunks[|chunks| - 1])]
  }

  /** Lines 53 and 62: file number `k + 1` holds chunk `k`, so part
      numbers run from 1 in chunk order. */
  lemma {:induction false} PartsOfNumbering(chunks: seq<seq<Json>>)
    ensures forall k :: 0 <= k < |chunks| ==> PartsOf(chunks)[k] == Part(k + 1, chunks[k])
  {
    if chunks != [] {
      PartsOfNumbering(chunks[..|chunks| - 1]);
    }
  }

  lemma PartsOfSnoc(done: seq<seq<Json>>, chunk: seq<Json>)
    ensures PartsOf(done + [chunk]) == PartsOf(done) + [Part(|done| + 1, chunk)]
  {
    assert (done + [chunk])[..|done|] == done;
  }

  /** Lines 31-35: no part is written exactly when there are no items. */
  lemma NoPartsIffNoItems(items: seq<Json>, size: seq<Json> -> nat, limit: int)
    ensures PartsOf(Chunks(items, size, limit)) == [] <==> items == []
  {
    if items != [] {
      assert Chunks(items, size, limit)[0] == items[..ChunkLen(items, size, limit, 0)];
    }
  }

  /** The chunks from `start` are the next chunk followed by the chunks
      after it, so emitting it moves one chunk from the rest to the done. */
  lemma ChunksFromStep(items: seq<Json>, size: seq<Json> -> nat, limit: int, start: nat, done: seq<seq<Json>>)
    requires start < |items|
    ensures var n := ChunkLen(items, size, limit, start);
      done + ChunksFrom(items, size, limit, start)
      == (done + [items[start..start + n]]) + ChunksFrom(items, size, limit, start + n)
  {
    var n := ChunkLen(items, size, limit, start);
    var rest := ChunksFrom(items, size, limit, start + n);
    assert ChunksFrom(items, size, limit, start) == [items[start..start + n]] + rest;
  }

  /** The chunks, concatenated in part order, give back the input from
      `start` on: nothing is lost, duplicated or reordered. */
  lemma {:induction false} ChunksPartition(items: seq<Json>, size: seq<Json> -> nat, limit: int, start: nat)
    requires start <= |items|
    ensures Seqs.Flatten(ChunksFrom(items, size, limit, start)) == items[start..]
    decreases |items| - start
  {
    if start < |items| {
      var n := ChunkLen(items, size, limit, start);
      ChunksPartition(items, size, limit, start + n);
      var cs := ChunksFrom(items, size, limit, start);
      assert cs[0] == items[start..start + n];
      assert cs[1..] == ChunksFrom(items, size, limit, start + n);
      assert items[start..] == items[start..start + n] + items[start + n..];
    }
  }

  /** Why a chunk ends where it does. A chunk that stops short of the tail
      stopped because the candidate with the next item was measured over the
      limit; every measurement of a chunk of two or more items stayed within
      it; and when no measurement along the tail goes over, the chunk is the
      whole tail. */
  lemma ChunkBoundary(items: seq<Json>, size: seq<Json> -> nat, limit: int, start: nat)
    requires start < |items|
    ensures var n := ChunkLen(items, size, limit, start);
      n < |items| - start ==> OverAt(items, size, limit, start, start + n)
    ensures var n := ChunkLen(items, size, limit, start);
      n > 1 ==> forall j :: start <= j < start + n ==> !OverAt(items, size, limit, start, j)
    ensures (forall j :: start <= j < |items| ==> !OverAt(items, size, limit, start, j)) ==>
      ChunkLen(items, size, limit, start) == |items| - start
  {
    FirstOverSpec(items, size, limit, start, start);
    match FirstOver(items, size, limit, start, start)
    case None =>
    case Some(i) =>
      if i == start {
        assert Measured(1, i, |items|);
      }
  }

  /** The two shapes of a chunk that does not take the whole tail: its
      length is 100k - 1 for some k >= 1, or it is the tail less its last
      item, which then forms the next chunk on its own. */
  lemma ChunkLenShape(items: seq<Json>, size: seq<Json> -> nat, limit: int, start: nat)
    requires start < |items|
    ensures var n := ChunkLen(items, size, limit, start);
      n < |items| - start ==>
        n % 100 == 99 ||
        (n == |items| - start - 1 && ChunkLen(items, size, limit, start + n) == 1)
  {
    FirstOverSpec(items, size, limit, start, start);
    match FirstOver(items, size, limit, start, start)
    case None =>
    case Some(i) =>
      assert Measured(i - start + 1, i, |items|);
  }

  /** When no measurement from the first item on goes over the limit, the
      whole input is a single part. */
  lemma WithinLimitSinglePart(items: seq<Json>, size: seq<Json> -> nat, limit: int)
    requires items != []
    requires forall j :: 0 <= j < |items| ==> !OverAt(items, size, limit, 0, j)
    ensures Chunks(items, size, limit) == [items]
  {
    ChunkBoundary(items, size, limit, 0);
    assert ChunksFrom(items, size, limit, |items|) == [];
    assert items[0..|items|] == items;
  }

  /** A single item is written as one part, however large it is. */
  lemma SingleItemSinglePart(item: Json, size: seq<Json> -> nat, limit: int)
    ensures Chunks([item], size, limit) == [[item]]
  {
    assert ChunkLen([item], size, limit, 0) == 1;
    assert ChunksFrom([item], size, limit, 1) == [];
    assert [item][0..1] == [item];
  }

  /** The size oracle agrees for `s1` and `s2` on the candidate grown from
      `start` up to `items[j]` whenever that candidate is measured. */
  ghost predicate SameMeasurementAt(items: seq<Json>, s1: seq<Json> -> nat, s2: seq<Json> -> nat, start: nat, j: nat)
    requires start <= j < |items|
  {
    Measured(j - start + 1, j, |items|) ==> s1(items[start..j + 1]) == s2(items[start..j + 1])
  }

  lemma {:induction false} FirstOverMeasuredOnly(items: seq<Json>, s1: seq<Json> -> nat, s2: seq<Json> -> nat, limit: int, start: nat, i: nat)
    requires start <= i <= |items|
    requires forall j :: start <= j < |items| ==> SameMeasurementAt(items, s1, s2, start, j)
    ensures FirstOver(items, s1, limit, start, i) == FirstOver(items, s2, limit, start, i)
    decreases |items| - i
  {
    if i < |items| {
      assert SameMeasurementAt(items, s1, s2, start, i);
      FirstOverMeasuredOnly(items, s1, s2, limit, start, i + 1);
    }
  }

  /** Sizes are consulted only at the measured candidates: two size oracles
      that agree on every candidate that line 42 measures produce the same
      chunks. */
  lemma {:induction false} ChunksMeasuredOnly(items: seq<Json>, s1: seq<Json> -> nat, s2: seq<Json> -> nat, limit: int, start: nat)
    requires start <= |items|
    requires forall st, j :: 0 <= st <= j < |items| ==> SameMeasurementAt(items, s1, s2, st, j)
    ensures ChunksFrom(items, s1, limit, start) == ChunksFrom(items, s2, limit, start)
    decreases |items| - start
  {
    if start < |items| {
      FirstOverMeasuredOnly(items, s1, s2, limit, start, start);
      var n := ChunkLen(items, s1, limit, start);
      assert n == ChunkLen(items, s2, limit, start);
      ChunksMeasuredOnly(items, s1, s2, limit, start + n);
    }
  }

  /** A size oracle that charges 10 bytes per item. */
  function TenBytesEach(s: seq<Json>): nat
  {
    10 * |s|
  }

  /** Parts need not respect the limit: with three items of 10 bytes each
      and a limit of 15 bytes, the first part holds two items (20 bytes),
      because a two-item candidate is never measured. */
  lemma ChunkMayExceedLimit()
    ensures Chunks([JNull, JNull, JNull], TenBytesEach, 15) == [[JNull, JNull], [JNull]]
    ensures TenBytesEach([JNull, JNull]) > 15
  {
    var items := [JNull, JNull, JNull];
    assert !OverAt(items, TenBytesEach, 15, 0, 0);
    assert !OverAt(items, TenBytesEach, 15, 0, 1);
    assert OverAt(items, TenBytesEach, 15, 0, 2);
    assert ChunkLen(items, TenBytesEach, 15, 0) == 2;
    assert !OverAt(items, TenBytesEach, 15, 2, 2);
    assert ChunkLen(items, TenBytesEach, 15, 2) == 1;
    assert ChunksFrom(items, TenBytesEach, 15, 3) == [];
    assert items[0..2] == [JNull, JNull];
    assert items[2..3] == [JNull];
  }

  /** Distinct part numbers give distinct file names, so no part overwrites
      another. */
  lemma PartFileNamesDistinct(baseName: string, m: nat, n: nat)
    requires m != n
    ensures PartFileName(baseName, m) != PartFileName(baseName, n)
  {
    // The number reads back from each name (the ensures of `PartFileName`).
  }
}
