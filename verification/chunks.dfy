/** How the operation log of a camp is cut into fixed-size chunk records.
    Operation number `p` of a camp lives in chunk `p / OpChunkSize` at index
    `p % OpChunkSize`. */
module Chunks {

  const OpChunkSize: nat := 100

  /** The part of one chunk a read or write touches. */
  datatype ChunkSlice = ChunkSlice(chunkId: nat, startIndex: nat, count: nat)

  /** Full chunks `from, from+1, ..., to-1`: the source's middle-chunk loop. */
  function FullChunks(from: nat, to: nat): (r: seq<ChunkSlice>)
    decreases (to as int) - (from as int)
  {
    if from >= to then []
    else [ChunkSlice(from, 0, OpChunkSize)] + FullChunks(from + 1, to)
  }

  /** The slices that hold operations `firstOp .. firstOp + count - 1`:
      the first chunk from `firstOp % OpChunkSize`, the full chunks in
      between, and the start of the last chunk when the range ends inside it. */
  function GetChunkSlices(firstOp: nat, count: nat): (slices: seq<ChunkSlice>) {
    var lastOp := firstOp + count;
    var firstChunkId := firstOp / OpChunkSize;
    var lastChunkId := lastOp / OpChunkSize;
    var first := ChunkSlice(
      firstChunkId,
      firstOp % OpChunkSize,
      if lastChunkId > firstChunkId then OpChunkSize - firstOp % OpChunkSize else lastOp - firstOp);
    var last :=
      if lastChunkId > firstChunkId && lastOp > lastChunkId * OpChunkSize
      then [ChunkSlice(lastChunkId, 0, lastOp % OpChunkSize)]
      else [];
    [first] + FullChunks(firstChunkId + 1, lastChunkId) + last
  }

  function SumCounts(slices: seq<ChunkSlice>): nat {
    if |slices| == 0 then 0 else slices[0].count + SumCounts(slices[1..])
  }

  /** `slices` cut the operation numbers `from .. to - 1` into non-empty pieces,
      in order, each piece inside one chunk: the reference meaning of a slicing. */
  predicate Tiles(slices: seq<ChunkSlice>, from: nat, to: nat)
    decreases |slices|
  {
    if |slices| == 0 then from == to
    else
      var s := slices[0];
      && s.chunkId * OpChunkSize + s.startIndex == from
      && 0 < s.count
      && s.startIndex + s.count <= OpChunkSize
      && Tiles(slices[1..], from + s.count, to)
  }

  lemma {:induction false} TilesCount(slices: seq<ChunkSlice>, from: nat, to: nat)
    requires Tiles(slices, from, to)
    ensures from + SumCounts(slices) == to
    ensures forall i :: 0 <= i < |slices| ==> slices[i].startIndex < OpChunkSize
    decreases |slices|
  {
    if |slices| > 0 {
      TilesCount(slices[1..], from + slices[0].count, to);
      assert forall i :: 1 <= i < |slices| ==> slices[i] == slices[1..][i - 1];
    }
  }

  lemma {:induction false} TilesConcat(a: seq<ChunkSlice>, b: seq<ChunkSlice>, x: nat, y: nat, z: nat)
    requires Tiles(a, x, y) && Tiles(b, y, z)
    ensures Tiles(a + b, x, z)
    decreases |a|
  {
    if |a| == 0 {
      assert a + b == b;
    } else {
      assert (a + b)[1..] == a[1..] + b;
      TilesConcat(a[1..], b, x + a[0].count, y, z);
    }
  }

  lemma {:induction false} FullChunksTile(from: nat, to: nat)
    requires from <= to
    ensures Tiles(FullChunks(from, to), from * OpChunkSize, to * OpChunkSize)
    decreases (to as int) - (from as int)
  {
    if from < to {
      FullChunksTile(from + 1, to);
      assert FullChunks(from, to)[1..] == FullChunks(from + 1, to);
    }
  }

  lemma {:induction false} FullChunksShape(from: nat, to: nat)
    ensures |FullChunks(from, to)| == if from < to then to - from else 0
    ensures forall i :: 0 <= i < |FullChunks(from, to)| ==>
              (FullChunks(from, to)[i] == ChunkSlice(from + i, 0, OpChunkSize))
    decreases (to as int) - (from as int)
  {
    if from < to {
      FullChunksShape(from + 1, to);
    }
  }

  /** A non-empty range is tiled by the slices `GetChunkSlices` returns. */
  lemma GetChunkSlicesTiles(firstOp: nat, count: nat)
    requires count > 0
    ensures Tiles(GetChunkSlices(firstOp, count), firstOp, firstOp + count)
  {
    var lastOp := firstOp + count;
    var f := firstOp / OpChunkSize;
    var l := lastOp / OpChunkSize;
    var slices := GetChunkSlices(firstOp, count);
    if l > f {
      var first := ChunkSlice(f, firstOp % OpChunkSize, OpChunkSize - firstOp % OpChunkSize);
      assert Tiles([first], firstOp, (f + 1) * OpChunkSize);
      FullChunksTile(f + 1, l);
      TilesConcat([first], FullChunks(f + 1, l), firstOp, (f + 1) * OpChunkSize, l * OpChunkSize);
      if lastOp > l * OpChunkSize {
        var last := ChunkSlice(l, 0, lastOp % OpChunkSize);
        assert Tiles([last], l * OpChunkSize, lastOp);
        TilesConcat([first] + FullChunks(f + 1, l), [last], firstOp, l * OpChunkSize, lastOp);
      } else {
        assert lastOp == l * OpChunkSize;
        assert slices == [first] + FullChunks(f + 1, l);
      }
    } else {
      assert slices == [ChunkSlice(f, firstOp % OpChunkSize, count)] + [] + [];
    }
  }

  /** The shape the source promises for `getChunkSlices(firstOp, count)`. */
  lemma GetChunkSlicesShape(firstOp: nat, count: nat)
    ensures var slices := GetChunkSlices(firstOp, count);
      && |slices| >= 1
      && slices[0].chunkId == firstOp / OpChunkSize
      && slices[0].startIndex == firstOp % OpChunkSize
      && SumCounts(slices) == count
      && (forall i :: 0 <= i < |slices| ==> slices[i].startIndex + slices[i].count <= OpChunkSize)
      && (forall i :: 0 <= i < |slices| ==> slices[i].chunkId == slices[0].chunkId + i)
      && (forall i :: 1 <= i < |slices| ==> slices[i].startIndex == 0)
      && (forall i :: 0 < i < |slices| - 1 ==> slices[i].count == OpChunkSize)
      && (count > 0 ==> forall i :: 0 <= i < |slices| ==> slices[i].count > 0)
      && (count == 0 ==> slices == [ChunkSlice(firstOp / OpChunkSize, firstOp % OpChunkSize, 0)])
  {
    var slices := GetChunkSlices(firstOp, count);
    var f := firstOp / OpChunkSize;
    var l := (firstOp + count) / OpChunkSize;
    FullChunksShape(f + 1, l);
    if count > 0 {
      GetChunkSlicesTiles(firstOp, count);
      TilesCount(slices, firstOp, firstOp + count);
      TilesPiecesNonEmpty(slices, firstOp, firstOp + count);
      TilesBounded(slices, firstOp, firstOp + count);
    }
  }

  lemma {:induction false} TilesPiecesNonEmpty(slices: seq<ChunkSlice>, from: nat, to: nat)
    requires Tiles(slices, from, to)
    ensures forall i :: 0 <= i < |slices| ==> slices[i].count > 0
    decreases |slices|
  {
    if |slices| > 0 {
      TilesPiecesNonEmpty(slices[1..], from + slices[0].count, to);
      assert forall i :: 1 <= i < |slices| ==> slices[i] == slices[1..][i - 1];
    }
  }

  lemma {:induction false} TilesBounded(slices: seq<ChunkSlice>, from: nat, to: nat)
    requires Tiles(slices, from, to)
    ensures forall i :: 0 <= i < |slices| ==> slices[i].startIndex + slices[i].count <= OpChunkSize
    decreases |slices|
  {
    if |slices| > 0 {
      TilesBounded(slices[1..], from + slices[0].count, to);
      assert forall i :: 1 <= i < |slices| ==> slices[i] == slices[1..][i - 1];
    }
  }
}
