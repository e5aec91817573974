/** Arrays published by reference in chunks of whole rows, and read back with every hash checked
    (engine/api/artifacts.py). The hash, the canonical JSON of a list of names and the decimal notation of
    a number are parameters, as is the element size of a dtype. */
module Artifacts {
  import opened Wrappers

  type Bytes = seq<bv8>

  /** A C-ordered little-endian array. */
  datatype Array = Array(dtype: string, shape: seq<nat>, bytes: Bytes)

  datatype Codec = Codec(sha256: Bytes -> string, canonical: seq<string> -> Bytes, decimal: nat -> string,
                         itemSize: string -> nat)

  datatype Items = Items(axis: string, ids: seq<string>, sha256: string)

  /** `rows` is a chunk's half-open range of the first axis. */
  datatype Chunk = Chunk(url: string, from: nat, to: nat, size: nat, sha256: string)

  datatype Reference = Reference(dtype: string, shape: seq<nat>, axes: seq<string>, chunks: seq<Chunk>,
                                 sha256: string, items: Items)

  datatype Error = BadAxes | BadItems | ChunkMismatch(chunk: nat) | ArrayMismatch | ItemsMismatch | BadShape

  function Product(shape: seq<nat>): nat {
    if shape == [] then 1 else shape[0] * Product(shape[1..])
  }

  /** One axis has as many items as it is long, and further axes multiply. */
  lemma {:induction false} ProductJoins(a: seq<nat>, b: seq<nat>)
    ensures Product(a + b) == Product(a) * Product(b)
    ensures |b| == 1 ==> Product(b) == b[0]
  {
    if a == [] {
      assert a + b == b;
    } else {
      ProductJoins(a[1..], b);
      assert (a + b)[1..] == a[1..] + b;
      Associates(a[0], Product(a[1..]), Product(b));
    }
  }

  lemma Associates(x: nat, y: nat, z: nat)
    ensures x * (y * z) == x * y * z
  {
  }

  predicate WellFormed(k: Codec, a: Array) {
    |a.bytes| == k.itemSize(a.dtype) * Product(a.shape)
  }

  function ItemsRecord(k: Codec, axis: string, ids: seq<string>): Items {
    Items(axis, ids, k.sha256(k.canonical(ids)))
  }

  // ----- rows and their bytes -----------------------------------------------------------------

  function RowSize(k: Codec, a: Array): nat
    requires |a.shape| > 0
  {
    k.itemSize(a.dtype) * Product(a.shape[1..])
  }

  function At(row: nat, size: nat): nat {
    row * size
  }

  lemma AtOrder(i: nat, j: nat, size: nat)
    requires i <= j
    ensures At(i, size) <= At(j, size)
    ensures At(j, size) - At(i, size) == At(j - i, size)
  {
    assert (j - i) * size == j * size - i * size;
  }

  lemma AllRows(k: Codec, a: Array)
    requires WellFormed(k, a) && |a.shape| > 0
    ensures At(a.shape[0], RowSize(k, a)) == |a.bytes|
  {
    assert k.itemSize(a.dtype) * (a.shape[0] * Product(a.shape[1..]))
        == a.shape[0] * (k.itemSize(a.dtype) * Product(a.shape[1..]));
  }

  /** The bytes of rows [i, j). */
  function Rows(k: Codec, a: Array, i: nat, j: nat): Bytes
    requires WellFormed(k, a) && |a.shape| > 0 && i <= j <= a.shape[0]
  {
    AllRows(k, a);
    AtOrder(i, j, RowSize(k, a));
    AtOrder(j, a.shape[0], RowSize(k, a));
    a.bytes[At(i, RowSize(k, a))..At(j, RowSize(k, a))]
  }

  lemma RowsJoin(k: Codec, a: Array, i: nat, j: nat)
    requires WellFormed(k, a) && |a.shape| > 0 && i <= j <= a.shape[0]
    ensures Rows(k, a, 0, i) + Rows(k, a, i, j) == Rows(k, a, 0, j)
    ensures |Rows(k, a, i, j)| == At(j - i, RowSize(k, a))
  {
    AllRows(k, a);
    AtOrder(0, i, RowSize(k, a));
    AtOrder(i, j, RowSize(k, a));
    AtOrder(j, a.shape[0], RowSize(k, a));
  }

  function Smaller(x: nat, y: nat): nat {
    if x <= y then x else y
  }

  function Larger(x: nat, y: nat): nat {
    if x >= y then x else y
  }

  /** Whole rows per chunk: at least one, however large a row is, and as many as fit. */
  function RowsPerChunk(k: Codec, a: Array, chunkBytes: nat): (rows: nat)
    requires |a.shape| > 0
    ensures rows >= 1
    ensures a.shape[0] > 0 ==> At(rows, RowSize(k, a)) <= Larger(chunkBytes, RowSize(k, a))
    ensures a.shape[0] > 0 && RowSize(k, a) > 0 ==> At(rows + 1, RowSize(k, a)) > chunkBytes
  {
    var row := if a.shape[0] > 0 then RowSize(k, a) else 1;
    var rows := Larger(1, chunkBytes / Larger(row, 1));
    RowsFit(chunkBytes, row);
    rows
  }

  lemma RowsFit(chunkBytes: nat, row: nat)
    ensures At(Larger(1, chunkBytes / Larger(row, 1)), row) <= Larger(chunkBytes, row)
    ensures row > 0 ==> At(Larger(1, chunkBytes / Larger(row, 1)) + 1, row) > chunkBytes
  {
    if row > 0 {
      var q := chunkBytes / row;
      assert q * row <= chunkBytes < (q + 1) * row;
    }
  }

  // ----- writing ------------------------------------------------------------------------------

  function Join(parts: seq<Bytes>): Bytes {
    if parts == [] then [] else Join(parts[..|parts| - 1]) + parts[|parts| - 1]
  }

  lemma JoinNext(parts: seq<Bytes>, part: Bytes)
    ensures Join(parts + [part]) == Join(parts) + part
  {
    assert (parts + [part])[..|parts|] == parts;
  }

  /** Chunk `i` describes and holds rows [i rows, (i + 1) rows), the last one fewer. */
  ghost predicate IsChunk(k: Codec, a: Array, url: string, rows: nat, i: nat, chunk: Chunk, data: Bytes)
    requires WellFormed(k, a) && |a.shape| > 0
  {
    && chunk.url == url + "/" + k.decimal(i)
    && chunk.from == At(i, rows) < chunk.to == Smaller(At(i, rows) + rows, a.shape[0])
    && data == Rows(k, a, chunk.from, chunk.to)
    && chunk.size == |data| && chunk.sha256 == k.sha256(data)
  }

  ghost predicate AreChunks(k: Codec, a: Array, url: string, rows: nat, chunks: seq<Chunk>, parts: seq<Bytes>)
    requires WellFormed(k, a) && |a.shape| > 0
  {
    && |chunks| == |parts|
    && forall i :: 0 <= i < |chunks| ==> IsChunk(k, a, url, rows, i, chunks[i], parts[i])
  }

  /** Where the chunks end. */
  function EndOf(chunks: seq<Chunk>): nat {
    if chunks == [] then 0 else chunks[|chunks| - 1].to
  }

  /** The chunks end at `end` and their bytes joined are those of the rows before it. */
  ghost predicate Covers(k: Codec, a: Array, chunks: seq<Chunk>, parts: seq<Bytes>, end: nat)
    requires WellFormed(k, a) && |a.shape| > 0
  {
    end <= a.shape[0] && EndOf(chunks) == end && Join(parts) == Rows(k, a, 0, end)
  }

  predicate GoodAxes(a: Array, axes: seq<string>) {
    |a.shape| >= 1 && |axes| == |a.shape|
  }

  /** The first place of an axis. */
  function IndexOf(axes: seq<string>, axis: string): (i: nat)
    requires axis in axes
    ensures i < |axes| && axes[i] == axis && axis !in axes[..i]
  {
    if axes[0] == axis then 0 else 1 + IndexOf(axes[1..], axis)
  }

  predicate GoodItems(a: Array, axes: seq<string>, items: Items)
    requires GoodAxes(a, axes)
  {
    items.axis in axes && |items.ids| == a.shape[IndexOf(axes, items.axis)]
  }

  /** A reference to the array: its chunks tile the first axis and hash as they should. */
  ghost predicate Describes(k: Codec, a: Array, url: string, rows: nat, r: Reference, parts: seq<Bytes>)
    requires WellFormed(k, a) && |a.shape| > 0
  {
    && r.dtype == a.dtype && r.shape == a.shape
    && AreChunks(k, a, url, rows, r.chunks, parts)
    && Covers(k, a, r.chunks, parts, a.shape[0])
    && r.sha256 == k.sha256(a.bytes)
  }

  /** The loop of `array_artifact`. */
  method Publish(k: Codec, a: Array, url: string, rows: nat)
    returns (chunks: seq<Chunk>, parts: seq<Bytes>, whole: Bytes)
    requires WellFormed(k, a) && |a.shape| > 0 && rows >= 1
    ensures AreChunks(k, a, url, rows, chunks, parts)
    ensures whole == Join(parts) && Covers(k, a, chunks, parts, a.shape[0])
  {
    chunks, parts, whole := [], [], [];
    var start := 0;
    while start < a.shape[0]
      invariant start == At(|parts|, rows)
      invariant AreChunks(k, a, url, rows, chunks, parts)
      invariant whole == Join(parts) && Covers(k, a, chunks, parts, Smaller(start, a.shape[0]))
      decreases a.shape[0] - start
    {
      var end := Smaller(start + rows, a.shape[0]);
      var data := Rows(k, a, start, end);
      var chunk := Chunk(url + "/" + k.decimal(|parts|), start, end, |data|, k.sha256(data));
      NextChunk(k, a, url, rows, chunks, parts, start, chunk, data);
      whole, chunks, parts, start := whole + data, chunks + [chunk], parts + [data], start + rows;
    }
  }

  lemma NextChunk(k: Codec, a: Array, url: string, rows: nat, chunks: seq<Chunk>, parts: seq<Bytes>, start: nat,
                  chunk: Chunk, data: Bytes)
    requires WellFormed(k, a) && |a.shape| > 0 && rows >= 1 && AreChunks(k, a, url, rows, chunks, parts)
    requires start == At(|parts|, rows) < a.shape[0] && Covers(k, a, chunks, parts, start)
    requires data == Rows(k, a, start, Smaller(start + rows, a.shape[0]))
    requires chunk == Chunk(url + "/" + k.decimal(|parts|), start, Smaller(start + rows, a.shape[0]), |data|,
                            k.sha256(data))
    ensures AreChunks(k, a, url, rows, chunks + [chunk], parts + [data])
    ensures Join(parts + [data]) == Join(parts) + data
    ensures Covers(k, a, chunks + [chunk], parts + [data], Smaller(start + rows, a.shape[0]))
    ensures start + rows == At(|parts + [data]|, rows)
  {
    RowsJoin(k, a, start, Smaller(start + rows, a.shape[0]));
    JoinNext(parts, data);
    AtOrder(|parts|, |parts| + 1, rows);
    OneRowMore(rows);
    ChunkAppended(k, a, url, rows, chunks, parts, chunk, data);
  }

  lemma OneRowMore(rows: nat)
    ensures At(1, rows) == rows
  {
  }

  /** `array_artifact`. */
  method ArrayArtifact(k: Codec, a: Array, url: string, axes: seq<string>, items: Items, chunkBytes: nat)
    returns (r: Result<(Reference, seq<Bytes>), Error>)
    requires WellFormed(k, a)
    ensures r.Success? <==> GoodAxes(a, axes) && GoodItems(a, axes, items)
    ensures r.Success? ==>
              && Describes(k, a, url, RowsPerChunk(k, a, chunkBytes), r.value.0, r.value.1)
              && r.value.0.axes == axes && r.value.0.items == items
  {
    if |a.shape| < 1 || |axes| != |a.shape| {
      return Failure(BadAxes);
    }
    if items.axis !in axes || |items.ids| != a.shape[IndexOf(axes, items.axis)] {
      return Failure(BadItems);
    }
    var chunks, parts, whole := Publish(k, a, url, RowsPerChunk(k, a, chunkBytes));
    WholeIsArray(k, a);
    r := Success((Reference(a.dtype, a.shape, axes, chunks, k.sha256(whole), items), parts));
  }

  lemma WholeIsArray(k: Codec, a: Array)
    requires WellFormed(k, a) && |a.shape| > 0
    ensures Rows(k, a, 0, a.shape[0]) == a.bytes
  {
    AllRows(k, a);
  }

  lemma ChunkAppended(k: Codec, a: Array, url: string, rows: nat, chunks: seq<Chunk>, parts: seq<Bytes>,
                      chunk: Chunk, data: Bytes)
    requires WellFormed(k, a) && |a.shape| > 0 && AreChunks(k, a, url, rows, chunks, parts)
    requires IsChunk(k, a, url, rows, |parts|, chunk, data)
    ensures AreChunks(k, a, url, rows, chunks + [chunk], parts + [data])
  {
  }

  // ----- reading ------------------------------------------------------------------------------

  /** What fetching the chunks gives. */
  function Fetched(fetch: string -> Bytes, chunks: seq<Chunk>): (r: seq<Bytes>)
    ensures |r| == |chunks| && forall i :: 0 <= i < |r| ==> r[i] == fetch(chunks[i].url)
  {
    seq(|chunks|, i requires 0 <= i < |chunks| => fetch(chunks[i].url))
  }

  predicate Matches(k: Codec, chunk: Chunk, data: Bytes) {
    |data| == chunk.size && k.sha256(data) == chunk.sha256
  }

  ghost predicate AllMatch(k: Codec, fetch: string -> Bytes, chunks: seq<Chunk>) {
    forall i :: 0 <= i < |chunks| ==> Matches(k, chunks[i], fetch(chunks[i].url))
  }

  /** Every check a reader makes passes. */
  ghost predicate Readable(k: Codec, r: Reference, fetch: string -> Bytes) {
    var bytes := Join(Fetched(fetch, r.chunks));
    && AllMatch(k, fetch, r.chunks)
    && k.sha256(bytes) == r.sha256
    && ItemsRecord(k, r.items.axis, r.items.ids) == r.items
    && |bytes| == k.itemSize(r.dtype) * Product(r.shape)
  }

  lemma FetchedNext(fetch: string -> Bytes, chunks: seq<Chunk>, i: nat)
    requires i < |chunks|
    ensures Join(Fetched(fetch, chunks)[..i + 1]) == Join(Fetched(fetch, chunks)[..i]) + fetch(chunks[i].url)
  {
    JoinNext(Fetched(fetch, chunks)[..i], fetch(chunks[i].url));
    assert Fetched(fetch, chunks)[..i] + [fetch(chunks[i].url)] == Fetched(fetch, chunks)[..i + 1];
  }

  lemma NothingJoined(parts: seq<Bytes>)
    ensures Join(parts[..0]) == []
  {
  }

  /** `read_array`. */
  method ReadArray(k: Codec, r: Reference, fetch: string -> Bytes) returns (a: Result<Array, Error>)
    ensures a.Success? <==> Readable(k, r, fetch)
    ensures a.Success? ==> a.value == Array(r.dtype, r.shape, Join(Fetched(fetch, r.chunks)))
    ensures a.Failure? && a.error.ChunkMismatch? ==>
              && a.error.chunk < |r.chunks|
              && !Matches(k, r.chunks[a.error.chunk], fetch(r.chunks[a.error.chunk].url))
  {
    hide Join, Product, ItemsRecord;
    NothingJoined(Fetched(fetch, r.chunks));
    var whole: Bytes := [];
    for i := 0 to |r.chunks|
      invariant forall h :: 0 <= h < i ==> Matches(k, r.chunks[h], fetch(r.chunks[h].url))
      invariant whole == Join(Fetched(fetch, r.chunks)[..i])
    {
      var data := fetch(r.chunks[i].url);
      if |data| != r.chunks[i].size || k.sha256(data) != r.chunks[i].sha256 {
        assert !Matches(k, r.chunks[i], data);
        return Failure(ChunkMismatch(i));
      }
      FetchedNext(fetch, r.chunks, i);
      whole := whole + data;
    }
    assert Fetched(fetch, r.chunks)[..|r.chunks|] == Fetched(fetch, r.chunks);
    if k.sha256(whole) != r.sha256 {
      return Failure(ArrayMismatch);
    }
    if ItemsRecord(k, r.items.axis, r.items.ids) != r.items {
      return Failure(ItemsMismatch);
    }
    if |whole| != k.itemSize(r.dtype) * Product(r.shape) {
      return Failure(BadShape);
    }
    a := Success(Array(r.dtype, r.shape, whole));
  }

  // ----- round trip ---------------------------------------------------------------------------

  /** Reading a published array, each chunk served at its place, gives the array back. */
  lemma ReadBack(k: Codec, a: Array, url: string, rows: nat, r: Reference, parts: seq<Bytes>, fetch: string -> Bytes)
    requires WellFormed(k, a) && |a.shape| > 0 && Describes(k, a, url, rows, r, parts)
    requires r.items == ItemsRecord(k, r.items.axis, r.items.ids)
    requires forall i :: 0 <= i < |parts| ==> fetch(r.chunks[i].url) == parts[i]
    ensures Readable(k, r, fetch)
    ensures Array(r.dtype, r.shape, Join(Fetched(fetch, r.chunks))) == a
  {
    assert Fetched(fetch, r.chunks) == parts;
    WholeIsArray(k, a);
    forall i | 0 <= i < |r.chunks| ensures Matches(k, r.chunks[i], fetch(r.chunks[i].url)) {
      assert IsChunk(k, a, url, rows, i, r.chunks[i], parts[i]);
    }
  }

  /** The hash tells byte strings apart. */
  ghost predicate CollisionFree(sha256: Bytes -> string) {
    forall x, y :: sha256(x) == sha256(y) ==> x == y
  }

  /** Whatever is fetched, a reader that accepts a published reference has the array that was published. */
  lemma AcceptedIsPublished(k: Codec, a: Array, url: string, rows: nat, r: Reference, parts: seq<Bytes>,
                            fetch: string -> Bytes)
    requires WellFormed(k, a) && |a.shape| > 0 && Describes(k, a, url, rows, r, parts)
    requires CollisionFree(k.sha256) && Readable(k, r, fetch)
    ensures Array(r.dtype, r.shape, Join(Fetched(fetch, r.chunks))) == a
  {
  }

  /** Different orders of items have different canonical bytes. */
  ghost predicate TellsApart(canonical: seq<string> -> Bytes) {
    forall x, y :: canonical(x) == canonical(y) ==> x == y
  }

  predicate ItemsAccepted(k: Codec, items: Items) {
    ItemsRecord(k, items.axis, items.ids) == items
  }

  /** An item order is accepted exactly with the hash of its canonical bytes, so what is accepted under a hash
      is the order that was published under it. */
  lemma AcceptedItemsArePublished(k: Codec, axis: string, ids: seq<string>, items: Items)
    requires CollisionFree(k.sha256) && TellsApart(k.canonical)
    ensures ItemsRecord(k, axis, ids).axis == axis && ItemsAccepted(k, ItemsRecord(k, axis, ids))
    ensures items.sha256 == ItemsRecord(k, axis, ids).sha256 ==> (ItemsAccepted(k, items) <==> items.ids == ids)
  {
  }

  /** The row ranges tile the first axis: from 0, each starting where the one before ended, to its end;
      no chunk is larger than `chunkBytes` unless it is a single row. */
  lemma ChunksTile(k: Codec, a: Array, url: string, chunkBytes: nat, r: Reference, parts: seq<Bytes>, i: nat)
    requires WellFormed(k, a) && |a.shape| > 0 && i < |r.chunks|
    requires Describes(k, a, url, RowsPerChunk(k, a, chunkBytes), r, parts)
    ensures r.chunks[i].from == if i == 0 then 0 else r.chunks[i - 1].to
    ensures r.chunks[i].from < r.chunks[i].to <= a.shape[0]
    ensures i == |r.chunks| - 1 ==> r.chunks[i].to == a.shape[0]
    ensures parts[i] == Rows(k, a, r.chunks[i].from, r.chunks[i].to)
    ensures |parts[i]| <= Larger(chunkBytes, RowSize(k, a))
  {
    var rows := RowsPerChunk(k, a, chunkBytes);
    assert IsChunk(k, a, url, rows, i, r.chunks[i], parts[i]);
    if i > 0 {
      assert IsChunk(k, a, url, rows, i - 1, r.chunks[i - 1], parts[i - 1]);
      AtOrder(i - 1, i, rows);
      OneRowMore(rows);
    }
    ChunkFits(k, a, chunkBytes, r.chunks[i].from, r.chunks[i].to);
  }

  lemma ChunkFits(k: Codec, a: Array, chunkBytes: nat, from: nat, to: nat)
    requires WellFormed(k, a) && |a.shape| > 0 && from <= to <= a.shape[0] && a.shape[0] > 0
    requires to - from <= RowsPerChunk(k, a, chunkBytes)
    ensures |Rows(k, a, from, to)| <= Larger(chunkBytes, RowSize(k, a))
  {
    RowsJoin(k, a, from, to);
    AtOrder(to - from, RowsPerChunk(k, a, chunkBytes), RowSize(k, a));
  }
}
