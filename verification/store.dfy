/** The server's storage engine over an abstract database: one record per
    camp `{name, lists, opCount}` and, per camp, a map from chunk id to the
    operations stored in that chunk.  A write is one atomic step: it either
    commits everything or leaves the state as it was. */
module Store {
  import opened Results
  import opened CampOperations
  import opened Camps
  import opened Chunks

  datatype DbCamp = DbCamp(name: string, lists: seq<List>, opCount: nat)

  datatype StoreState = StoreState(
    camps: map<string, DbCamp>,
    operations: map<string, map<nat, seq<CampOperation>>>)

  /** Outcome of `writeCamp`: the state afterwards, `succeeded`, and the camp id. */
  datatype WriteResult = WriteResult(state: StoreState, succeeded: bool, campId: string)

  /** The chunk records of one camp (keyed by chunk id). */
  function ChunksOf(s: StoreState, campId: string): map<nat, seq<CampOperation>> {
    if campId in s.operations then s.operations[campId] else map[]
  }

  function Min(a: int, b: int): int {
    if a < b then a else b
  }

  /** `start`, `count` slicing that clamps at the end of the sequence, as both
      `Array.slice(start, start + count)` and the `$slice: [start, count]`
      projection do. */
  function SliceOf<T>(s: seq<T>, start: nat, count: nat): (r: seq<T>)
    ensures start + count <= |s| ==> r == s[start..start + count]
  {
    if start >= |s| then [] else s[start..Min(start + count, |s|)]
  }

  /** Inserts a new camp record under a fresh id; an id already in use is a
      duplicate-key failure (`None`). */
  function CreateCamp(s: StoreState, name: string, lists: seq<List>, opCount: nat, freshId: string): (r: Option<StoreState>)
    ensures r.Some? <==> freshId !in s.camps
    ensures r.Some? ==> r.value.camps == s.camps[freshId := DbCamp(name, lists, opCount)]
                        && r.value.operations == s.operations
  {
    if freshId in s.camps then None
    else Some(s.(camps := s.camps[freshId := DbCamp(name, lists, opCount)]))
  }

  /** The conditional update: the record of `camp.id` is rewritten only if its
      stored `opCount` equals `lastServerOp`.  The flag is the modified count. */
  function UpdateCamp(s: StoreState, camp: Camp, lastServerOp: nat, newOpCount: nat): (r: (StoreState, bool))
    ensures r.1 ==> camp.id in s.camps && s.camps[camp.id].opCount == lastServerOp
    ensures !(camp.id in s.camps && s.camps[camp.id].opCount == lastServerOp) ==> r.0 == s
    ensures camp.id in s.camps && s.camps[camp.id].opCount == lastServerOp ==>
              r.0 == s.(camps := s.camps[camp.id := DbCamp(camp.name, camp.lists, lastServerOp + newOpCount)])
    ensures newOpCount > 0 ==> (r.1 <==> camp.id in s.camps && s.camps[camp.id].opCount == lastServerOp)
  {
    if camp.id in s.camps && s.camps[camp.id].opCount == lastServerOp then
      var doc := DbCamp(camp.name, camp.lists, lastServerOp + newOpCount);
      (s.(camps := s.camps[camp.id := doc]), doc != s.camps[camp.id])
    else (s, false)
  }

  /** Writes one slice of `ops`: a slice starting at index 0 inserts a new chunk
      (failing if that chunk exists, by the unique index on camp and chunk id);
      any other slice pushes onto the existing chunk, and matches nothing when
      that chunk is missing. */
  function WriteSlice(chunks: map<nat, seq<CampOperation>>, slice: ChunkSlice, ops: seq<CampOperation>)
    : (r: Option<map<nat, seq<CampOperation>>>)
    ensures r.None? <==> slice.startIndex == 0 && slice.chunkId in chunks
  {
    if slice.startIndex == 0 then
      if slice.chunkId in chunks then None else Some(chunks[slice.chunkId := ops])
    else if slice.chunkId in chunks then Some(chunks[slice.chunkId := chunks[slice.chunkId] + ops])
    else Some(chunks)
  }

  /** What a successful slice write leaves: a new chunk holding exactly the
      slice's operations, or the existing chunk extended by them; no other
      chunk changes. */
  lemma WriteSliceEffect(chunks: map<nat, seq<CampOperation>>, slice: ChunkSlice, ops: seq<CampOperation>)
    requires WriteSlice(chunks, slice, ops).Some?
    ensures var r := WriteSlice(chunks, slice, ops).value;
      && (slice.startIndex == 0 ==> slice.chunkId in r && r[slice.chunkId] == ops)
      && (slice.startIndex != 0 && slice.chunkId in chunks ==> slice.chunkId in r && r[slice.chunkId] == chunks[slice.chunkId] + ops)
      && (forall k :: k != slice.chunkId ==> (k in r <==> k in chunks))
      && (forall k :: k != slice.chunkId && k in chunks ==> r[k] == chunks[k])
  {
  }

  /** The chunk loop of `writeCamp`: slice after slice, consuming `newOps` from
      `nextIndex` on. */
  function WriteSlices(chunks: map<nat, seq<CampOperation>>, slices: seq<ChunkSlice>, newOps: seq<CampOperation>, nextIndex: nat)
    : Option<map<nat, seq<CampOperation>>>
    decreases |slices|
  {
    if |slices| == 0 then Some(chunks)
    else
      match WriteSlice(chunks, slices[0], SliceOf(newOps, nextIndex, slices[0].count))
      case None => None
      case Some(next) => WriteSlices(next, slices[1..], newOps, nextIndex + slices[0].count)
  }

  /** `writeCamp`: one transaction.  A batch starting with CREATE_CAMP inserts a
      new record with `opCount = |newOps|`; any other batch updates the record
      conditionally on `lastServerOp`.  Then the operations are appended to the
      chunks.  Any failure inside the transaction (an empty batch, a lost
      condition, a duplicate key) leaves the state unchanged. */
  function WriteCamp(s: StoreState, camp: Camp, newOps: seq<CampOperation>, lastServerOp: nat, freshId: string)
    : (r: WriteResult)
    ensures !r.succeeded ==> r.state == s
    ensures r.succeeded ==> |newOps| > 0
    ensures r.succeeded && newOps[0].CreateCamp? ==>
              r.campId == freshId && freshId !in s.camps &&
              r.state.camps == s.camps[freshId := DbCamp(camp.name, camp.lists, |newOps|)]
    ensures r.succeeded && !newOps[0].CreateCamp? ==>
              r.campId == camp.id && camp.id in s.camps && s.camps[camp.id].opCount == lastServerOp &&
              r.state.camps == s.camps[camp.id := DbCamp(camp.name, camp.lists, lastServerOp + |newOps|)]
    ensures (|newOps| > 0 && !newOps[0].CreateCamp? &&
             !(camp.id in s.camps && s.camps[camp.id].opCount == lastServerOp)) ==> !r.succeeded
    ensures forall id :: id != r.campId && id in s.operations ==> id in r.state.operations && r.state.operations[id] == s.operations[id]
    ensures forall id :: id != r.campId && id in r.state.operations ==> id in s.operations
  {
    if |newOps| == 0 then WriteResult(s, false, camp.id)
    else
      var (s1, campId, ok) :=
        if newOps[0].CreateCamp? then
          match CreateCamp(s, camp.name, camp.lists, |newOps|, freshId)
          case None => (s, camp.id, false)
          case Some(s') => (s', freshId, true)
        else
          var (s', wrote) := UpdateCamp(s, camp, lastServerOp, |newOps|);
          (s', camp.id, wrote);
      if !ok then WriteResult(s, false, campId)
      else
        match WriteSlices(ChunksOf(s1, campId), GetChunkSlices(lastServerOp, |newOps|), newOps, 0)
        case None => WriteResult(s, false, campId)
        case Some(chunks) => WriteResult(s1.(operations := s1.operations[campId := chunks]), true, campId)
  }

  /** Reads the listed slices; a missing chunk contributes nothing. */
  function ReadSlices(chunks: map<nat, seq<CampOperation>>, slices: seq<ChunkSlice>): seq<CampOperation>
    decreases |slices|
  {
    if |slices| == 0 then []
    else
      var s := slices[0];
      (if s.chunkId in chunks then SliceOf(chunks[s.chunkId], s.startIndex, s.count) else [])
      + ReadSlices(chunks, slices[1..])
  }

  /** `getCampWithOps`: the camp (revision = `opCount`) and its operations from
      `nextOp` on; a missing camp gives no camp and no operations. */
  function GetCampWithOps(s: StoreState, id: string, nextOp: nat): (r: (Option<Camp>, seq<CampOperation>))
    ensures r.0.None? <==> id !in s.camps
    ensures r.0.None? ==> r.1 == []
    ensures r.0.Some? ==> r.0.value == Camp(id, s.camps[id].name, s.camps[id].lists, s.camps[id].opCount)
    ensures id in s.camps && nextOp >= s.camps[id].opCount ==> r.1 == []
  {
    if id !in s.camps then (None, [])
    else
      var db := s.camps[id];
      var camp := Camp(id, db.name, db.lists, db.opCount);
      if nextOp >= db.opCount then (Some(camp), [])
      else (Some(camp), ReadSlices(ChunksOf(s, id), GetChunkSlices(nextOp, db.opCount - nextOp)))
  }

  // ---------------------------------------------------------------------------
  // The log a camp's chunks hold

  /** Chunk `c` of a log: the operations from `c * OpChunkSize` up to the next
      chunk boundary or the end of the log. */
  function ChunkOf(log: seq<CampOperation>, c: nat): seq<CampOperation>
    requires c * OpChunkSize < |log|
  {
    log[c * OpChunkSize .. Min(c * OpChunkSize + OpChunkSize, |log|)]
  }

  /** `m` is the chunking of `log`: it has exactly the chunks the log reaches,
      and each holds its part of the log. */
  ghost predicate IsChunking(m: map<nat, seq<CampOperation>>, log: seq<CampOperation>) {
    && (forall c: nat :: c in m <==> c * OpChunkSize < |log|)
    && (forall c: nat :: c in m && c * OpChunkSize < |log| ==> m[c] == ChunkOf(log, c))
  }

  /** The chunking of a log, as a map: chunk `c` for every chunk the log reaches. */
  ghost function Chunked(log: seq<CampOperation>): map<nat, seq<CampOperation>> {
    map c: nat | c < |log| && c * OpChunkSize < |log| :: ChunkOf(log, c)
  }

  lemma ChunkedIsChunking(log: seq<CampOperation>)
    ensures IsChunking(Chunked(log), log)
  {
  }

  /** A log has only one chunking. */
  lemma ChunkingUnique(m: map<nat, seq<CampOperation>>, log: seq<CampOperation>)
    requires IsChunking(m, log)
    ensures m == Chunked(log)
  {
    var m' := Chunked(log);
    ChunkedIsChunking(log);
    assert forall c :: c in m <==> c in m';
    assert forall c :: c in m ==> m[c] == m'[c];
  }

  /** Camp `id` is stored with operation log `log`: its `opCount` is the log's
      length and its chunks are exactly the log's chunking. */
  ghost predicate ChunkedLog(s: StoreState, id: string, log: seq<CampOperation>) {
    && id in s.camps
    && s.camps[id].opCount == |log|
    && ChunksOf(s, id) == Chunked(log)
  }

  lemma ChunkPosition(p: nat, chunkId: nat, startIndex: nat)
    requires chunkId * OpChunkSize + startIndex == p && startIndex < OpChunkSize
    ensures chunkId == p / OpChunkSize && startIndex == p % OpChunkSize
  {
  }

  lemma EmptyIsChunking()
    ensures IsChunking(map[], [])
  {
  }

  /** A full chunk reads the same after more operations are appended. */
  lemma FullChunkStable(log: seq<CampOperation>, ops: seq<CampOperation>, k: nat)
    requires k * OpChunkSize + OpChunkSize <= |log|
    ensures ChunkOf(log + ops, k) == ChunkOf(log, k)
  {
    var b := k * OpChunkSize;
    assert (log + ops)[b .. b + OpChunkSize] == log[b .. b + OpChunkSize];
  }

  /** The log ends on a chunk boundary: the piece becomes a new chunk. */
  lemma ChunkStepNewChunk(m: map<nat, seq<CampOperation>>, log: seq<CampOperation>, ops: seq<CampOperation>, c: nat)
    requires IsChunking(m, log)
    requires 0 < |ops| <= OpChunkSize && |log| == c * OpChunkSize
    ensures c !in m
    ensures IsChunking(m[c := ops], log + ops)
  {
    var m' := m[c := ops];
    var n := |log|;
    forall k: nat
      ensures k in m' <==> k * OpChunkSize < n + |ops|
    {
    }
    forall k: nat | k in m' && k * OpChunkSize < n + |ops|
      ensures m'[k] == ChunkOf(log + ops, k)
    {
      if k == c {
        assert (log + ops)[n .. n + |ops|] == ops;
      } else {
        assert k < c;
        FullChunkStable(log, ops, k);
      }
    }
  }

  /** The log ends inside chunk `c`: the piece extends that chunk. */
  lemma ChunkStepExtend(m: map<nat, seq<CampOperation>>, log: seq<CampOperation>, ops: seq<CampOperation>, c: nat, st: nat)
    requires IsChunking(m, log)
    requires 0 < st && |log| == c * OpChunkSize + st && st + |ops| <= OpChunkSize
    ensures c in m
    ensures IsChunking(m[c := m[c] + ops], log + ops)
  {
    var m' := m[c := m[c] + ops];
    var n := |log|;
    var b := c * OpChunkSize;
    forall k: nat
      ensures k in m' <==> k * OpChunkSize < n + |ops|
    {
    }
    forall k: nat | k in m' && k * OpChunkSize < n + |ops|
      ensures m'[k] == ChunkOf(log + ops, k)
    {
      if k == c {
        assert m[c] == log[b .. n];
        assert (log + ops)[b .. n + |ops|] == log[b .. n] + ops;
      } else {
        assert k < c;
        FullChunkStable(log, ops, k);
      }
    }
  }

  /** Appending a piece that fits in the chunk the log ends in (or starts the
      next one) turns the chunking of `log` into the chunking of `log + ops`. */
  lemma ChunkStep(m: map<nat, seq<CampOperation>>, log: seq<CampOperation>, ops: seq<CampOperation>)
    requires IsChunking(m, log)
    requires 0 < |ops| && |log| % OpChunkSize + |ops| <= OpChunkSize
    ensures WriteSlice(m, ChunkSlice(|log| / OpChunkSize, |log| % OpChunkSize, |ops|), ops).Some?
    ensures IsChunking(WriteSlice(m, ChunkSlice(|log| / OpChunkSize, |log| % OpChunkSize, |ops|), ops).value, log + ops)
  {
    var c := |log| / OpChunkSize;
    var st := |log| % OpChunkSize;
    assert |log| == c * OpChunkSize + st;
    if st == 0 {
      ChunkStepNewChunk(m, log, ops, c);
    } else {
      ChunkStepExtend(m, log, ops, c, st);
    }
  }

  /** The first piece of a slicing, in the terms the chunk lemmas use. */
  lemma TilesHead(slices: seq<ChunkSlice>, from: nat, to: nat)
    requires Tiles(slices, from, to) && |slices| > 0
    ensures slices[0].chunkId == from / OpChunkSize && slices[0].startIndex == from % OpChunkSize
    ensures 0 < slices[0].count && slices[0].startIndex + slices[0].count <= OpChunkSize
    ensures from + slices[0].count <= to
    ensures Tiles(slices[1..], from + slices[0].count, to)
  {
    var s := slices[0];
    ChunkPosition(from, s.chunkId, s.startIndex);
    TilesCount(slices[1..], from + s.count, to);
  }

  /** One step of the chunk loop, with the maps left abstract. */
  lemma WriteSlicesStep(m: map<nat, seq<CampOperation>>, m2: map<nat, seq<CampOperation>>,
                        slices: seq<ChunkSlice>, newOps: seq<CampOperation>, j: nat)
    requires |slices| > 0
    requires WriteSlice(m, slices[0], SliceOf(newOps, j, slices[0].count)) == Some(m2)
    ensures WriteSlices(m, slices, newOps, j) == WriteSlices(m2, slices[1..], newOps, j + slices[0].count)
  {
  }

  lemma PrefixExtend(log: seq<CampOperation>, newOps: seq<CampOperation>, j: nat, k: nat)
    requires j + k <= |newOps|
    ensures (log + newOps[..j]) + newOps[j..j + k] == log + newOps[..j + k]
  {
    assert newOps[..j] + newOps[j..j + k] == newOps[..j + k];
  }

  /** `ChunkStep` on the chunking map itself: writing the slice that continues
      `log` with `ops` turns the chunking of `log` into that of `longer`. */
  lemma ChunkStepChunked(log: seq<CampOperation>, ops: seq<CampOperation>, slice: ChunkSlice, longer: seq<CampOperation>)
    requires 0 < |ops| && |log| % OpChunkSize + |ops| <= OpChunkSize
    requires slice == ChunkSlice(|log| / OpChunkSize, |log| % OpChunkSize, |ops|)
    requires longer == log + ops
    ensures WriteSlice(Chunked(log), slice, ops) == Some(Chunked(longer))
  {
    ChunkedIsChunking(log);
    ChunkStep(Chunked(log), log, ops);
    ChunkingUnique(WriteSlice(Chunked(log), slice, ops).value, longer);
  }

  /** One slice of the chunk loop continues the chunking: after writing the
      first slice, the chunks are the chunking of the longer prefix and the
      remaining slices tile the rest. */
  lemma WriteSlicesAdvance(log: seq<CampOperation>, newOps: seq<CampOperation>, j: nat, slices: seq<ChunkSlice>)
    requires j <= |newOps|
    requires Tiles(slices, |log| + j, |log| + |newOps|) && |slices| > 0
    ensures j + slices[0].count <= |newOps|
    ensures Tiles(slices[1..], |log| + j + slices[0].count, |log| + |newOps|)
    ensures WriteSlice(Chunked(log + newOps[..j]), slices[0], SliceOf(newOps, j, slices[0].count))
            == Some(Chunked(log + newOps[..j + slices[0].count]))
  {
    var s := slices[0];
    var prefix := log + newOps[..j];
    TilesHead(slices, |prefix|, |log| + |newOps|);
    var piece := newOps[j..j + s.count];
    assert SliceOf(newOps, j, s.count) == piece;
    PrefixExtend(log, newOps, j, s.count);
    ChunkStepChunked(prefix, piece, s, log + newOps[..j + s.count]);
  }

  /** Writing a tiling of the positions after `log + newOps[..j]` onto its
      chunking appends the rest of `newOps`: the result is the chunking of
      `log + newOps`. */
  lemma {:induction false} WriteSlicesAppends(log: seq<CampOperation>, newOps: seq<CampOperation>, j: nat, slices: seq<ChunkSlice>)
    requires j <= |newOps|
    requires Tiles(slices, |log| + j, |log| + |newOps|)
    ensures WriteSlices(Chunked(log + newOps[..j]), slices, newOps, j) == Some(Chunked(log + newOps))
    decreases |slices|
  {
    var m := Chunked(log + newOps[..j]);
    if |slices| == 0 {
      assert newOps[..j] == newOps;
      assert WriteSlices(m, slices, newOps, j) == Some(m);
    } else {
      var k := j + slices[0].count;
      WriteSlicesAdvance(log, newOps, j, slices);
      var m2 := Chunked(log + newOps[..k]);
      WriteSlicesStep(m, m2, slices, newOps, j);
      WriteSlicesAppends(log, newOps, k, slices[1..]);
      assert WriteSlices(m2, slices[1..], newOps, k) == Some(Chunked(log + newOps));
      assert WriteSlices(m, slices, newOps, j) == WriteSlices(m2, slices[1..], newOps, k);
    }
  }

  /** The part of chunk `c` from `st` on, `cnt` long, is that part of the log. */
  lemma ReadChunkPiece(m: map<nat, seq<CampOperation>>, log: seq<CampOperation>, c: nat, st: nat, cnt: nat)
    requires m == Chunked(log)
    requires c * OpChunkSize + st + cnt <= |log| && st + cnt <= OpChunkSize && 0 < cnt
    ensures c in m
    ensures SliceOf(m[c], st, cnt) == log[c * OpChunkSize + st .. c * OpChunkSize + st + cnt]
  {
    var b := c * OpChunkSize;
    var hi := Min(b + OpChunkSize, |log|);
    ChunkedIsChunking(log);
    assert c in m;
    assert m[c] == log[b .. hi];
    assert log[b .. hi][st .. st + cnt] == log[b + st .. b + st + cnt];
  }

  lemma SliceSplit<T>(s: seq<T>, a: nat, b: nat, c: nat)
    requires a <= b <= c <= |s|
    ensures s[a..b] + s[b..c] == s[a..c]
  {
  }

  /** Reading a tiling of positions inside the log returns those operations. */
  lemma {:induction false} ReadSlicesReturnsLog(m: map<nat, seq<CampOperation>>, log: seq<CampOperation>, slices: seq<ChunkSlice>, from: nat, to: nat)
    requires m == Chunked(log)
    requires Tiles(slices, from, to) && to <= |log|
    ensures from <= to
    ensures ReadSlices(m, slices) == log[from..to]
    decreases |slices|
  {
    TilesCount(slices, from, to);
    if |slices| > 0 {
      var s := slices[0];
      assert s.chunkId * OpChunkSize + s.startIndex == from;
      ReadChunkPiece(m, log, s.chunkId, s.startIndex, s.count);
      ReadSlicesReturnsLog(m, log, slices[1..], from + s.count, to);
      SliceSplit(log, from, from + s.count, to);
    }
  }

  // ---------------------------------------------------------------------------
  // Writes and reads against a consistently stored camp

  /** A conditional write to a stored camp succeeds exactly when the expected
      revision is the stored `opCount`; then the log grows by `newOps` and the
      record holds the new name, lists and `opCount`. */
  lemma WriteOnLog(s: StoreState, camp: Camp, newOps: seq<CampOperation>, lastServerOp: nat, freshId: string, log: seq<CampOperation>)
    requires ChunkedLog(s, camp.id, log)
    requires |newOps| > 0 && !newOps[0].CreateCamp?
    ensures var r := WriteCamp(s, camp, newOps, lastServerOp, freshId);
      && (r.succeeded <==> lastServerOp == |log|)
      && r.campId == camp.id
      && (!r.succeeded ==> r.state == s)
      && (r.succeeded ==> ChunkedLog(r.state, camp.id, log + newOps))
      && (r.succeeded ==> r.state.camps[camp.id] == DbCamp(camp.name, camp.lists, |log| + |newOps|))
      && (r.succeeded ==> forall id :: id != camp.id ==> ChunksOf(r.state, id) == ChunksOf(s, id))
  {
    if lastServerOp == |log| {
      GetChunkSlicesTiles(lastServerOp, |newOps|);
      assert log + newOps[..0] == log;
      var s1 := UpdateCamp(s, camp, lastServerOp, |newOps|).0;
      assert ChunksOf(s1, camp.id) == ChunksOf(s, camp.id);
      WriteSlicesAppends(log, newOps, 0, GetChunkSlices(lastServerOp, |newOps|));
    }
  }

  /** A batch that starts with CREATE_CAMP, written at revision 0 under an
      unused id, creates a camp whose log is exactly the batch. */
  lemma CreateStartsLog(s: StoreState, camp: Camp, newOps: seq<CampOperation>, freshId: string)
    requires |newOps| > 0 && newOps[0].CreateCamp?
    requires freshId !in s.camps && ChunksOf(s, freshId) == map[]
    ensures var r := WriteCamp(s, camp, newOps, 0, freshId);
      && r.succeeded
      && r.campId == freshId
      && ChunkedLog(r.state, freshId, newOps)
      && r.state.camps[freshId] == DbCamp(camp.name, camp.lists, |newOps|)
  {
    EmptyIsChunking();
    ChunkingUnique(map[], []);
    GetChunkSlicesTiles(0, |newOps|);
    assert [] + newOps[..0] == [];
    assert [] + newOps == newOps;
    WriteSlicesAppends([], newOps, 0, GetChunkSlices(0, |newOps|));
  }

  /** A read from `nextOp` returns the camp at revision `|log|` and the
      operations of the log from `nextOp` on, in order. */
  lemma ReadOnLog(s: StoreState, id: string, log: seq<CampOperation>, nextOp: nat)
    requires ChunkedLog(s, id, log)
    ensures GetCampWithOps(s, id, nextOp).0 == Some(Camp(id, s.camps[id].name, s.camps[id].lists, |log|))
    ensures GetCampWithOps(s, id, nextOp).1 == if nextOp >= |log| then [] else log[nextOp..]
  {
    if nextOp < |log| {
      GetChunkSlicesTiles(nextOp, |log| - nextOp);
      ReadSlicesReturnsLog(ChunksOf(s, id), log, GetChunkSlices(nextOp, |log| - nextOp), nextOp, |log|);
    }
  }

  /** One request to `writeCamp`. */
  datatype WriteRequest = WriteRequest(camp: Camp, newOps: seq<CampOperation>, lastServerOp: nat, freshId: string)

  /** Runs writes one after another, each an atomic step; returns the final
      state and each write's `succeeded`. */
  function RunWrites(s: StoreState, writes: seq<WriteRequest>): (r: (StoreState, seq<bool>))
    ensures |r.1| == |writes|
    decreases |writes|
  {
    if |writes| == 0 then (s, [])
    else
      var w := writes[0];
      var first := WriteCamp(s, w.camp, w.newOps, w.lastServerOp, w.freshId);
      var rest := RunWrites(first.state, writes[1..]);
      (rest.0, [first.succeeded] + rest.1)
  }

  /** The operations of the writes that succeeded, in commit order. */
  function Committed(writes: seq<WriteRequest>, outcomes: seq<bool>): seq<CampOperation>
    requires |outcomes| == |writes|
    decreases |writes|
  {
    if |writes| == 0 then []
    else (if outcomes[0] then writes[0].newOps else []) + Committed(writes[1..], outcomes[1..])
  }

  /** Updates of camp `id`: non-empty batches that do not create a camp. */
  predicate UpdatesOf(writes: seq<WriteRequest>, id: string) {
    forall i :: 0 <= i < |writes| ==>
      writes[i].camp.id == id && |writes[i].newOps| > 0 && !writes[i].newOps[0].CreateCamp?
  }

  lemma UpdatesOfTail(writes: seq<WriteRequest>, id: string)
    requires UpdatesOf(writes, id) && |writes| > 0
    ensures UpdatesOf(writes[1..], id)
  {
    forall i | 0 <= i < |writes[1..]|
      ensures writes[1..][i] == writes[i + 1]
    {
    }
  }

  /** Unrolls `Committed` once, onto a log. */
  lemma CommittedStep(log: seq<CampOperation>, writes: seq<WriteRequest>, outcomes: seq<bool>)
    requires |outcomes| == |writes| > 0
    ensures log + Committed(writes, outcomes)
            == (if outcomes[0] then log + writes[0].newOps else log) + Committed(writes[1..], outcomes[1..])
  {
  }

  /** One update against a stored log leaves the log either extended by the
      batch (when it commits) or as it was. */
  lemma WriteStep(s: StoreState, id: string, log: seq<CampOperation>, w: WriteRequest)
    requires ChunkedLog(s, id, log)
    requires w.camp.id == id && |w.newOps| > 0 && !w.newOps[0].CreateCamp?
    ensures var r := WriteCamp(s, w.camp, w.newOps, w.lastServerOp, w.freshId);
      ChunkedLog(r.state, id, if r.succeeded then log + w.newOps else log)
  {
    WriteOnLog(s, w.camp, w.newOps, w.lastServerOp, w.freshId, log);
  }

  /** Log completeness: whatever the interleaving of updates, the stored log
      afterwards is the old log followed by the committed batches, in commit
      order, and `opCount` is its length. */
  lemma {:induction false} WritesAccumulate(s: StoreState, id: string, log: seq<CampOperation>, writes: seq<WriteRequest>)
    requires ChunkedLog(s, id, log) && UpdatesOf(writes, id)
    ensures var (s', outcomes) := RunWrites(s, writes);
      ChunkedLog(s', id, log + Committed(writes, outcomes))
    decreases |writes|
  {
    if |writes| == 0 {
      assert log + [] == log;
    } else {
      var w := writes[0];
      WriteStep(s, id, log, w);
      var first := WriteCamp(s, w.camp, w.newOps, w.lastServerOp, w.freshId);
      var next := if first.succeeded then log + w.newOps else log;
      UpdatesOfTail(writes, id);
      WritesAccumulate(first.state, id, next, writes[1..]);
      var rest := RunWrites(first.state, writes[1..]);
      var outcomes := RunWrites(s, writes).1;
      assert outcomes == [first.succeeded] + rest.1;
      assert outcomes[1..] == rest.1;
      CommittedStep(log, writes, outcomes);
    }
  }

  /** Of several updates all expecting the current revision, exactly one — the
      first to run — succeeds. */
  lemma OneWriterWins(s: StoreState, id: string, log: seq<CampOperation>, writes: seq<WriteRequest>)
    requires ChunkedLog(s, id, log) && UpdatesOf(writes, id) && |writes| > 0
    requires forall i :: 0 <= i < |writes| ==> writes[i].lastServerOp == |log|
    ensures var outcomes := RunWrites(s, writes).1;
      outcomes[0] && forall i :: 1 <= i < |writes| ==> !outcomes[i]
  {
    var w := writes[0];
    WriteOnLog(s, w.camp, w.newOps, w.lastServerOp, w.freshId, log);
    var s1 := WriteCamp(s, w.camp, w.newOps, w.lastServerOp, w.freshId).state;
    AllStale(s1, id, log + w.newOps, writes[1..], |log|);
  }

  /** Updates whose expected revision is not the stored one all fail and leave
      the state alone. */
  lemma {:induction false} AllStale(s: StoreState, id: string, log: seq<CampOperation>, writes: seq<WriteRequest>, expected: nat)
    requires ChunkedLog(s, id, log) && UpdatesOf(writes, id) && expected != |log|
    requires forall i :: 0 <= i < |writes| ==> writes[i].lastServerOp == expected
    ensures RunWrites(s, writes).0 == s
    ensures forall i :: 0 <= i < |writes| ==> !RunWrites(s, writes).1[i]
    decreases |writes|
  {
    if |writes| > 0 {
      var w := writes[0];
      WriteOnLog(s, w.camp, w.newOps, w.lastServerOp, w.freshId, log);
      UpdatesOfTail(writes, id);
      AllStale(s, id, log, writes[1..], expected);
    }
  }
}
