/**
 * The Kitty graphics-protocol image renderer's bookkeeping: which image is
 * shown where under which id, a cache of encoded images keyed by quantized
 * size, and the commands written to the terminal. Image decoding, resizing
 * and PNG encoding are floating-point work outside the model: their result
 * reaches the renderer as a `Rendering` value. Base64 encoding of chunk
 * payloads is left out, so a chunk carries its raw bytes.
 */
module Kitty {
  import opened Wrappers
  import Numeric

  type U16 = x: nat | x <= 65535

  /** Sizes are quantized to multiples of this many cells. */
  const BUCKET: nat := 4
  /** Bytes of image data per transmitted chunk. */
  const CHUNK_SIZE: nat := 4096
  /** The cell size in pixels the renderer assumes. */
  const CELL_WIDTH: nat := 8
  const CELL_HEIGHT: nat := 16

  /** Where an image was placed, and within which bounds. */
  datatype DisplayedImage = DisplayedImage(url: string, x: U16, y: U16, width: U16, height: U16)

  /** PNG data together with the cells it really covers. */
  datatype EncodedImage = EncodedImage(data: seq<bv8>, cols: U16, rows: U16)

  datatype CacheKey = CacheKey(url: string, cols: U16, rows: U16)

  /** What resizing and PNG encoding produced: the data and its size in pixels. */
  datatype Rendering = Rendering(png: seq<bv8>, pixelWidth: nat, pixelHeight: nat)

  datatype IoError = EncodingFailed

  /** What the renderer writes to the terminal. */
  datatype Command =
    | DeleteAll
    | DeleteImage(id: nat)
    | SaveCursor
    | MoveCursor(row: nat, column: nat)
    | TransmitFirst(id: nat, cols: U16, rows: U16, more: bool, payload: seq<bv8>)
    | TransmitMore(more: bool, payload: seq<bv8>)
    | RestoreCursor

  /**
   * One side of `quantize_dimensions`, in 16-bit arithmetic that wraps as
   * a release build does: `n + 4` and then `- 1` are taken modulo 2^16.
   */
  function QuantizeSide(n: U16): (q: U16)
    ensures q % BUCKET == 0 && q >= BUCKET
    ensures 1 <= n <= 65532 ==> n <= q < n + BUCKET
    ensures n == 0 ==> q == BUCKET
  {
    var sum := (n + BUCKET) % 65536;
    var less := (sum - 1) % 65536;
    Numeric.Max(less / BUCKET * BUCKET, BUCKET)
  }

  /** `quantize_dimensions`. */
  function Quantize(cols: U16, rows: U16): (U16, U16)
  {
    (QuantizeSide(cols), QuantizeSide(rows))
  }

  /** Below the top of the range a side rounds up to the end of its bucket. */
  lemma QuantizeRoundsUp(n: U16)
    requires 1 <= n <= 65532
    ensures QuantizeSide(n) == (n - 1) / BUCKET * BUCKET + BUCKET
  {
    if n <= 65531 {
      assert (n + BUCKET) % 65536 == n + BUCKET;
      assert ((n + BUCKET) % 65536 - 1) % 65536 == n + 3;
      assert (n + 3) / BUCKET == (n - 1) / BUCKET + 1;
    }
  }

  /** Sizes within one bucket share a quantized size, which is why the cache keeps hitting while scrolling. */
  lemma QuantizeSharesBuckets(n: U16, m: U16)
    requires 1 <= n <= 65532 && 1 <= m <= 65532 && (n - 1) / BUCKET == (m - 1) / BUCKET
    ensures QuantizeSide(n) == QuantizeSide(m)
  {
    QuantizeRoundsUp(n);
    QuantizeRoundsUp(m);
  }

  /** Quantizing a quantized side changes nothing. */
  lemma QuantizeIdempotent(n: U16)
    ensures QuantizeSide(QuantizeSide(n)) == QuantizeSide(n)
  {
  }

  /** At the top of the range the 16-bit sum wraps and the side collapses to one bucket. */
  lemma QuantizeWrapsAtTop()
    ensures QuantizeSide(65532) == 65532
    ensures QuantizeSide(65533) == QuantizeSide(65534) == QuantizeSide(65535) == BUCKET
  {
  }

  /**
   * The integer half of `encode_png_preserve_aspect`: the cells needed for
   * the rendered pixels, each side at least one pixel, rounded up and
   * capped at the bounds.
   */
  function EncodePng(rendering: Option<Rendering>, maxCols: U16, maxRows: U16): (r: Option<EncodedImage>)
    ensures r.Some? <==> rendering.Some?
    ensures r.Some? ==> r.value.data == rendering.value.png
    ensures r.Some? ==> r.value.cols <= maxCols && r.value.rows <= maxRows
    ensures r.Some? ==> (r.value.cols == maxCols || r.value.cols * CELL_WIDTH >= rendering.value.pixelWidth)
    ensures r.Some? ==> (r.value.rows == maxRows || r.value.rows * CELL_HEIGHT >= rendering.value.pixelHeight)
    ensures r.Some? ==> (maxCols > 0 ==> r.value.cols > 0) && (maxRows > 0 ==> r.value.rows > 0)
  {
    match rendering
    case None => None
    case Some(img) =>
      var cols := Numeric.Min(Numeric.CeilDiv(Numeric.Max(img.pixelWidth, 1), CELL_WIDTH), maxCols);
      var rows := Numeric.Min(Numeric.CeilDiv(Numeric.Max(img.pixelHeight, 1), CELL_HEIGHT), maxRows);
      Some(EncodedImage(img.png, cols, rows))
  }

  /** The bytes of a sequence of chunks, in order. */
  function Flatten(chunks: seq<seq<bv8>>): seq<bv8>
  {
    if chunks == [] then [] else chunks[0] + Flatten(chunks[1..])
  }

  /**
   * `data.chunks(4096)`: consecutive pieces of at most 4096 bytes, all full
   * but the last, as many as the protocol's `(len + 4095) / 4096`.
   */
  function Chunks(data: seq<bv8>): (r: seq<seq<bv8>>)
    ensures |r| == Numeric.CeilDiv(|data|, CHUNK_SIZE)
    ensures Flatten(r) == data
    ensures forall i :: 0 <= i < |r| ==> 0 < |r[i]| <= CHUNK_SIZE
    ensures forall i :: 0 <= i < |r| - 1 ==> |r[i]| == CHUNK_SIZE
    decreases |data|
  {
    if data == [] then []
    else if |data| <= CHUNK_SIZE then [data]
    else
      var rest := Chunks(data[CHUNK_SIZE..]);
      assert ([data[..CHUNK_SIZE]] + rest)[1..] == rest;
      assert data[..CHUNK_SIZE] + data[CHUNK_SIZE..] == data;
      [data[..CHUNK_SIZE]] + rest
  }

  /** The command carrying chunk `i`: the first one names the image, and `more` is set on all but the last. */
  function TransmitCommand(id: nat, cols: U16, rows: U16, chunks: seq<seq<bv8>>, i: nat): Command
    requires i < |chunks|
  {
    var more := i != |chunks| - 1;
    if i == 0 then TransmitFirst(id, cols, rows, more, chunks[i]) else TransmitMore(more, chunks[i])
  }

  function ChunkCommands(id: nat, cols: U16, rows: U16, chunks: seq<seq<bv8>>): seq<Command>
  {
    seq(|chunks|, i requires 0 <= i < |chunks| => TransmitCommand(id, cols, rows, chunks, i))
  }

  /** `send_image_at_position`: save the cursor, move to the 1-based cell, send the chunks, restore the cursor. */
  function Transmission(id: nat, data: seq<bv8>, x: nat, y: nat, cols: U16, rows: U16): seq<Command>
  {
    [SaveCursor, MoveCursor(y + 1, x + 1)] + ChunkCommands(id, cols, rows, Chunks(data)) + [RestoreCursor]
  }

  function Payload(c: Command): seq<bv8>
  {
    match c
    case TransmitFirst(_, _, _, _, p) => p
    case TransmitMore(_, p) => p
    case _ => []
  }

  function More(c: Command): bool
  {
    match c
    case TransmitFirst(_, _, _, m, _) => m
    case TransmitMore(m, _) => m
    case _ => false
  }

  /**
   * Chunked transmission as the Kitty graphics protocol asks: one command
   * per chunk, only the first carrying the image id and size, `m=1` on all
   * but the last, and the payloads joined give back the image data.
   */
  lemma ChunkedTransmission(id: nat, data: seq<bv8>, cols: U16, rows: U16)
    ensures var cmds := ChunkCommands(id, cols, rows, Chunks(data));
      && |cmds| == Numeric.CeilDiv(|data|, CHUNK_SIZE)
      && (forall i :: 0 <= i < |cmds| ==> (cmds[i].TransmitFirst? <==> i == 0))
      && (forall i :: 0 <= i < |cmds| ==> (More(cmds[i]) <==> i < |cmds| - 1))
      && (forall i :: 0 <= i < |cmds| ==> 0 < |Payload(cmds[i])| <= CHUNK_SIZE)
      && Flatten(seq(|cmds|, i requires 0 <= i < |cmds| => Payload(cmds[i]))) == data
  {
    var chunks := Chunks(data);
    var cmds := ChunkCommands(id, cols, rows, chunks);
    forall i | 0 <= i < |cmds|
      ensures cmds[i] == TransmitCommand(id, cols, rows, chunks, i)
    {
    }
    assert seq(|cmds|, i requires 0 <= i < |cmds| => Payload(cmds[i])) == chunks;
  }

  /** The deletions `end_frame` sends for the given urls, in that order. */
  function DeleteCommands(urls: seq<string>, shown: map<string, (nat, DisplayedImage)>): seq<Command>
    requires forall u :: u in urls ==> u in shown
  {
    if urls == [] then []
    else DeleteCommands(urls[..|urls| - 1], shown) + [DeleteImage(shown[urls[|urls| - 1]].0)]
  }

  /** The cache key of an image shown within the given bounds. */
  function KeyFor(url: string, maxCols: U16, maxRows: U16): CacheKey
  {
    CacheKey(url, Quantize(maxCols, maxRows).0, Quantize(maxCols, maxRows).1)
  }

  /** The encoding an image gets: the cached one, else a fresh one (`None` when encoding fails). */
  function CachedEncoding(cache: map<CacheKey, EncodedImage>, key: CacheKey, rendering: Option<Rendering>): (r: Option<EncodedImage>)
    ensures key in cache ==> r == Some(cache[key])
    ensures key !in cache ==> (r.Some? <==> rendering.Some?)
    ensures key !in cache && r.Some? ==> r.value.cols <= key.cols && r.value.rows <= key.rows
  {
    if key in cache then Some(cache[key]) else EncodePng(rendering, key.cols, key.rows)
  }

  /** Ids in use are below `nextId` and belong to one url each. */
  ghost predicate IdsValid(nextId: nat, shown: map<string, (nat, DisplayedImage)>)
  {
    && nextId >= 1
    && (forall u :: u in shown ==> shown[u].0 < nextId)
    && (forall u, v :: u in shown && v in shown && u != v ==> shown[u].0 != shown[v].0)
  }

  /** Recording a placement under the next id, in place of any old one, keeps ids distinct. */
  lemma RecordKeepsIdsValid(nextId: nat, shown: map<string, (nat, DisplayedImage)>, url: string, info: DisplayedImage)
    requires IdsValid(nextId, shown)
    ensures IdsValid(nextId, shown - {url})
    ensures IdsValid(nextId + 1, (shown - {url})[url := (nextId, info)])
  {
  }

  /** Dropping the inactive urls keeps exactly the active ones. */
  lemma KeepActive(shown: map<string, (nat, DisplayedImage)>, active: seq<string>, stale: set<string>)
    requires forall u :: u in stale <==> u in shown && u !in active
    ensures shown - stale == map u | u in shown && u in active :: shown[u]
  {
  }

  /** Appending a url not yet listed keeps the list free of repeats. */
  lemma AppendUnseen(urls: seq<string>, url: string)
    requires forall i, j :: 0 <= i < j < |urls| ==> urls[i] != urls[j]
    requires url !in urls
    ensures forall i, j :: 0 <= i < j < |urls| + 1 ==> (urls + [url])[i] != (urls + [url])[j]
  {
  }

  /** Deleting one more url from the map is deleting the urls gone so far together with it. */
  lemma DropOneStale(shown: map<string, (nat, DisplayedImage)>, gone: set<string>, url: string)
    requires url !in gone
    ensures url in shown ==> (shown - gone)[url] == shown[url]
    ensures (shown - gone) - {url} == shown - (gone + {url})
  {
  }

  /** One more delete command at the end of the list. */
  lemma DeleteCommandsSnoc(urls: seq<string>, url: string, shown: map<string, (nat, DisplayedImage)>)
    requires forall u :: u in urls ==> u in shown
    requires url in shown
    ensures DeleteCommands(urls + [url], shown) == DeleteCommands(urls, shown) + [DeleteImage(shown[url].0)]
  {
    assert (urls + [url])[..|urls|] == urls;
  }

  /** `KittyRenderer`; `output` is what has been written to the terminal. */
  class KittyRenderer {
    var nextId: nat
    var displayed: map<string, (nat, DisplayedImage)>
    var encodedCache: map<CacheKey, EncodedImage>
    var dirty: bool
    var output: seq<Command>

    /** Ids in use are below `nextId` and belong to one url each. */
    ghost predicate Valid()
      reads this
    {
      IdsValid(nextId, displayed)
    }

    constructor()
      ensures Valid()
      ensures nextId == 1 && displayed == map[] && encodedCache == map[] && !dirty && output == []
    {
      nextId := 1;
      displayed := map[];
      encodedCache := map[];
      dirty := false;
      output := [];
    }

    /** `needs_update`: false exactly when the url is shown at the same place and bounds. */
    function NeedsUpdate(url: string, x: U16, y: U16, width: U16, height: U16): (b: bool)
      reads this
      ensures url !in displayed ==> b
      ensures !b ==> url in displayed && displayed[url].1.x == x && displayed[url].1.y == y
    {
      if url in displayed then
        var info := displayed[url].1;
        info.x != x || info.y != y || info.width != width || info.height != height
      else true
    }

    /** `begin_frame`: whether a full redraw is due. */
    method BeginFrame() returns (redraw: bool)
      ensures redraw == dirty
    {
      redraw := dirty;
    }

    method MarkDirty()
      modifies this`dirty
      ensures dirty
    {
      dirty := true;
    }

    /** `clear_image`: delete one image by id. */
    method ClearImage(id: nat)
      modifies this`output
      ensures output == old(output) + [DeleteImage(id)]
    {
      output := output + [DeleteImage(id)];
    }

    /** `clear_all`: nothing when no image is shown; else delete all and forget every image and encoding. */
    method ClearAll()
      requires Valid()
      modifies this`displayed, this`encodedCache, this`dirty, this`output
      ensures Valid()
      ensures old(displayed) == map[] ==> unchanged(this)
      ensures old(displayed) != map[] ==>
        displayed == map[] && encodedCache == map[] && !dirty && output == old(output) + [DeleteAll]
    {
      if displayed == map[] {
        return;
      }
      output := output + [DeleteAll];
      displayed := map[];
      encodedCache := map[];
      dirty := false;
    }

    /**
     * `end_frame`: delete every shown image whose url is not active, in
     * the map's iteration order (reported as `removed`), and clear `dirty`.
     */
    method EndFrame(active: seq<string>) returns (ghost removed: seq<string>)
      requires Valid()
      modifies this`displayed, this`dirty, this`output
      ensures Valid() && !dirty
      ensures displayed == map u | u in old(displayed) && u in active :: old(displayed)[u]
      ensures forall u :: u in removed <==> u in old(displayed) && u !in active
      ensures forall i, j :: 0 <= i < j < |removed| ==> removed[i] != removed[j]
      ensures output == old(output) + DeleteCommands(removed, old(displayed))
    {
      var toRemove := set u | u in displayed && u !in active;
      ghost var shown := displayed;
      ghost var stale := toRemove;
      ghost var gone: set<string> := {};
      removed := [];
      assert forall u :: u in stale <==> u in shown && u !in active;
      while toRemove != {}
        invariant toRemove <= stale
        invariant forall u :: u in gone <==> u in stale && u !in toRemove
        invariant forall u :: u in removed <==> u in gone
        invariant forall i, j :: 0 <= i < j < |removed| ==> removed[i] != removed[j]
        invariant displayed == shown - gone
        invariant output == old(output) + DeleteCommands(removed, shown)
        invariant nextId == old(nextId)
        decreases toRemove
      {
        var url :| url in toRemove;
        AppendUnseen(removed, url);
        DropStaleStep(url, shown, gone, removed, old(output));
        removed := removed + [url];
        gone := gone + {url};
        toRemove := toRemove - {url};
      }
      assert gone == stale;
      dirty := false;
      KeepActive(shown, active, stale);
    }

    /**
     * One pass of `end_frame`'s loop: the image of a stale url not yet
     * deleted is deleted, so the map loses that url as well and the
     * commands gain its delete.
     */
    method DropStaleStep(url: string, ghost shown: map<string, (nat, DisplayedImage)>, ghost gone: set<string>,
                         ghost removed: seq<string>, ghost base: seq<Command>)
      requires url in shown && url !in gone
      requires displayed == shown - gone
      requires forall u :: u in removed ==> u in shown
      requires output == base + DeleteCommands(removed, shown)
      modifies this`displayed, this`output
      ensures displayed == shown - (gone + {url})
      ensures output == base + DeleteCommands(removed + [url], shown)
    {
      DropOneStale(shown, gone, url);
      DeleteCommandsSnoc(removed, url, shown);
      DropStale(url);
      assert output == base + (DeleteCommands(removed, shown) + [DeleteImage(shown[url].0)]);
    }

    /** One step of `end_frame`: delete a shown image and forget it. */
    method DropStale(url: string)
      requires url in displayed
      modifies this`displayed, this`output
      ensures displayed == old(displayed) - {url}
      ensures output == old(output) + [DeleteImage(old(displayed)[url].0)]
    {
      ClearImage(displayed[url].0);
      displayed := displayed - {url};
    }

    /**
     * `display_or_update`: when the image is already at this place and
     * bounds, return its id and do nothing; otherwise delete the old copy,
     * take the encoding from the cache (or encode and cache it), send it
     * centred horizontally under a fresh id and record the placement.
     * `rendering` is what encoding the image would give; `None` is an
     * encoding error, which leaves the old copy deleted.
     */
    method DisplayOrUpdate(url: string, rendering: Option<Rendering>, x: U16, y: U16, maxCols: U16, maxRows: U16)
      returns (r: Result<nat, IoError>)
      requires Valid()
      modifies this`nextId, this`displayed, this`encodedCache, this`output
      ensures Valid()
      ensures !old(NeedsUpdate(url, x, y, maxCols, maxRows)) ==>
        r == Ok(old(displayed)[url].0) && unchanged(this)
      ensures old(NeedsUpdate(url, x, y, maxCols, maxRows)) && r.Ok? ==>
        && r.value == old(nextId) && nextId == old(nextId) + 1
        && displayed == old(displayed)[url := (r.value, DisplayedImage(url, x, y, maxCols, maxRows))]
        && !NeedsUpdate(url, x, y, maxCols, maxRows)
      ensures old(NeedsUpdate(url, x, y, maxCols, maxRows)) && r.Ok? ==>
        var key := KeyFor(url, maxCols, maxRows);
        var enc := CachedEncoding(old(encodedCache), key, rendering);
        && enc.Some?
        && encodedCache == old(encodedCache)[key := enc.value]
        && output == old(output)
             + (if url in old(displayed) then [DeleteImage(old(displayed)[url].0)] else [])
             + Transmission(r.value, enc.value.data, x + Numeric.SatSub(maxCols, enc.value.cols) / 2, y, enc.value.cols, enc.value.rows)
      ensures r.Err? ==>
        && CachedEncoding(old(encodedCache), KeyFor(url, maxCols, maxRows), rendering).None?
        && nextId == old(nextId) && encodedCache == old(encodedCache)
        && displayed == old(displayed) - {url}
        && output == old(output) + (if url in old(displayed) then [DeleteImage(old(displayed)[url].0)] else [])
    {
      if !NeedsUpdate(url, x, y, maxCols, maxRows) {
        return Ok(displayed[url].0);
      }
      r := Redraw(url, rendering, x, y, maxCols, maxRows);
    }

    /**
     * The update path of `display_or_update`: delete the old copy, encode
     * (or take the cached encoding), and send and record the image under
     * the next id; an encoding error stops after the delete.
     */
    method Redraw(url: string, rendering: Option<Rendering>, x: U16, y: U16, maxCols: U16, maxRows: U16)
      returns (r: Result<nat, IoError>)
      requires Valid()
      modifies this`nextId, this`displayed, this`encodedCache, this`output
      ensures Valid()
      ensures r.Ok? ==>
        && r.value == old(nextId) && nextId == old(nextId) + 1
        && displayed == old(displayed)[url := (r.value, DisplayedImage(url, x, y, maxCols, maxRows))]
        && !NeedsUpdate(url, x, y, maxCols, maxRows)
      ensures r.Ok? ==>
        var key := KeyFor(url, maxCols, maxRows);
        var enc := CachedEncoding(old(encodedCache), key, rendering);
        && enc.Some?
        && encodedCache == old(encodedCache)[key := enc.value]
        && output == old(output)
             + (if url in old(displayed) then [DeleteImage(old(displayed)[url].0)] else [])
             + Transmission(r.value, enc.value.data, x + Numeric.SatSub(maxCols, enc.value.cols) / 2, y, enc.value.cols, enc.value.rows)
      ensures r.Err? ==>
        && CachedEncoding(old(encodedCache), KeyFor(url, maxCols, maxRows), rendering).None?
        && nextId == old(nextId) && encodedCache == old(encodedCache)
        && displayed == old(displayed) - {url}
        && output == old(output) + (if url in old(displayed) then [DeleteImage(old(displayed)[url].0)] else [])
    {
      RecordKeepsIdsValid(nextId, displayed, url, DisplayedImage(url, x, y, maxCols, maxRows));
      Forget(url);
      var encoding := Encode(KeyFor(url, maxCols, maxRows), rendering);
      if encoding.None? {
        return Err(EncodingFailed);
      }
      var id := Place(url, encoding.value, x, y, maxCols, maxRows);
      assert displayed == old(displayed)[url := (id, DisplayedImage(url, x, y, maxCols, maxRows))];
      assert !NeedsUpdate(url, x, y, maxCols, maxRows) by {
        assert displayed[url].1 == DisplayedImage(url, x, y, maxCols, maxRows);
      }
      return Ok(id);
    }

    /** The last steps of `display_or_update`: send the image centred horizontally under the next id and record it. */
    method Place(url: string, encoded: EncodedImage, x: U16, y: U16, maxCols: U16, maxRows: U16) returns (id: nat)
      modifies this`nextId, this`displayed, this`output
      ensures id == old(nextId) && nextId == old(nextId) + 1
      ensures displayed == old(displayed)[url := (id, DisplayedImage(url, x, y, maxCols, maxRows))]
      ensures output == old(output)
        + Transmission(id, encoded.data, x + Numeric.SatSub(maxCols, encoded.cols) / 2, y, encoded.cols, encoded.rows)
    {
      var centeredX := x + Numeric.SatSub(maxCols, encoded.cols) / 2;
      id := nextId;
      nextId := nextId + 1;
      SendImageAtPosition(id, encoded.data, centeredX, y, encoded.cols, encoded.rows);
      displayed := displayed[url := (id, DisplayedImage(url, x, y, maxCols, maxRows))];
    }

    /** The first step of `display_or_update` once an update is due: delete the old copy, if any. */
    method Forget(url: string)
      modifies this`displayed, this`output
      ensures displayed == old(displayed) - {url}
      ensures output == old(output) + (if url in old(displayed) then [DeleteImage(old(displayed)[url].0)] else [])
    {
      if url in displayed {
        var oldId := displayed[url].0;
        displayed := displayed - {url};
        ClearImage(oldId);
      } else {
        assert displayed == displayed - {url};
      }
    }

    /** The cache lookup of `display_or_update`: reuse a cached encoding, or encode and cache the result. */
    method Encode(key: CacheKey, rendering: Option<Rendering>) returns (encoding: Option<EncodedImage>)
      modifies this`encodedCache
      ensures encoding == CachedEncoding(old(encodedCache), key, rendering)
      ensures encodedCache == if encoding.Some? then old(encodedCache)[key := encoding.value] else old(encodedCache)
    {
      if key in encodedCache {
        encoding := Some(encodedCache[key]);
        return;
      }
      encoding := EncodePng(rendering, key.cols, key.rows);
      if encoding.Some? {
        encodedCache := encodedCache[key := encoding.value];
      }
    }

    /** `send_image_at_position`: one command per 4096-byte chunk between saving and restoring the cursor. */
    method SendImageAtPosition(id: nat, data: seq<bv8>, x: nat, y: nat, cols: U16, rows: U16)
      modifies this`output
      ensures output == old(output) + Transmission(id, data, x, y, cols, rows)
    {
      output := output + [SaveCursor, MoveCursor(y + 1, x + 1)];
      ghost var start := output;
      var chunks := Chunks(data);
      var totalChunks := Numeric.CeilDiv(|data|, CHUNK_SIZE);
      for i := 0 to |chunks|
        invariant output == start + ChunkCommands(id, cols, rows, chunks)[..i]
      {
        var more := i != totalChunks - 1;
        var cmd := if i == 0 then TransmitFirst(id, cols, rows, more, chunks[i]) else TransmitMore(more, chunks[i]);
        assert cmd == TransmitCommand(id, cols, rows, chunks, i);
        assert ChunkCommands(id, cols, rows, chunks)[..i + 1] == ChunkCommands(id, cols, rows, chunks)[..i] + [cmd];
        output := output + [cmd];
      }
      assert ChunkCommands(id, cols, rows, chunks)[..|chunks|] == ChunkCommands(id, cols, rows, chunks);
      output := output + [RestoreCursor];
    }
  }
}
