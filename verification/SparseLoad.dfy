/** Loading tensors from a file in aligned pieces, by any number of workers. */
module SparseLoad {
  import opened Bytes

  const CHUNK_TARGET := 8 * 1024 * 1024

  /** Where a tensor lies, relative to the data section. */
  datatype Tensor = Tensor(offset: nat, size: nat)

  /** The file, where its data section starts, and the alignment its reads want; 0 for none. */
  datatype Source = Source(file: Bytes, data: nat, align: nat)

  /** Every tensor lies within the file. */
  predicate Within(s: Source, t: Tensor) {
    s.data + t.offset + t.size <= |s.file|
  }

  /** One read: `len` bytes from `fileOff` go to `dst` in the buffer of tensor `tidx`. */
  datatype Chunk = Chunk(tidx: nat, fileOff: nat, dst: nat, len: nat, plain: bool)

  // ---------------------------------------------------------------- sizes

  function AlignUp(n: nat, align: nat): (r: nat)
    requires align > 0
    ensures n <= r < n + align
  {
    DivMod(n + align - 1, align);
    (n + align - 1) / align * align
  }

  lemma DivMod(n: nat, d: nat)
    requires d > 0
    ensures n / d * d <= n < n / d * d + d
  {
  }

  /** How far a tensor's first byte lies behind the aligned place its reads start at. */
  function Slop(s: Source, t: Tensor): nat {
    if s.align == 0 then 0 else (s.data + t.offset) % s.align
  }

  /** The bytes allocated for a tensor. */
  function Allocated(s: Source, t: Tensor): nat {
    if s.align == 0 then t.size else AlignUp(Slop(s, t) + t.size, s.align)
  }

  /** The place in the file its buffer starts from. */
  function Base(s: Source, t: Tensor): (b: nat)
    ensures b + Slop(s, t) == s.data + t.offset
  {
    if s.align == 0 then s.data + t.offset else s.data + t.offset - (s.data + t.offset) % s.align
  }

  /** The bytes read for a tensor: up to the alignment, but not past the file. */
  function Need(s: Source, t: Tensor): (n: nat)
    requires Within(s, t)
    ensures Slop(s, t) + t.size <= n <= Allocated(s, t) && Base(s, t) + n <= |s.file|
  {
    var need := t.size + Slop(s, t);
    if s.align == 0 then need
    else
      var up := AlignUp(need, s.align);
      if up > |s.file| - Base(s, t) then |s.file| - Base(s, t) else up
  }

  function ChunkBytes(align: nat): (c: nat)
    ensures c > 0 && c >= align
  {
    if align == 0 then CHUNK_TARGET
    else
      var c := CHUNK_TARGET / align * align;
      if c > align then c else align
  }

  // ---------------------------------------------------------------- tiling

  /** The pieces of `[off, need)`. */
  function Pieces(s: Source, t: Tensor, tidx: nat, off: nat, need: nat): seq<Chunk>
    requires off <= need
    decreases need - off
  {
    if off == need then []
    else
      var chunk := ChunkBytes(s.align);
      var len := if need - off < chunk then need - off else chunk;
      [Chunk(tidx, Base(s, t) + off, off, len, s.align > 0 && len % s.align != 0)]
      + Pieces(s, t, tidx, off + len, need)
  }

  /** The pieces follow one another from `off` to `need` without gap or overlap, each from its own place in the file. */
  ghost predicate Tiles(s: Source, t: Tensor, tidx: nat, ps: seq<Chunk>, off: nat, need: nat) {
    && (ps == [] ==> off == need)
    && (ps != [] ==> ps[0].dst == off && ps[|ps| - 1].dst + ps[|ps| - 1].len == need)
    && (forall k :: 0 <= k < |ps| ==>
          && 0 < ps[k].len <= ChunkBytes(s.align) && ps[k].tidx == tidx
          && ps[k].fileOff == Base(s, t) + ps[k].dst && off <= ps[k].dst && ps[k].dst + ps[k].len <= need)
    && (forall k, l :: 0 <= k && l == k + 1 < |ps| ==> ps[l].dst == ps[k].dst + ps[k].len)
  }

  lemma TilesNothing(s: Source, t: Tensor, tidx: nat, off: nat)
    ensures Tiles(s, t, tidx, [], off, off)
  {
  }

  lemma {:induction false} PiecesTile(s: Source, t: Tensor, tidx: nat, off: nat, need: nat)
    requires off <= need
    ensures Tiles(s, t, tidx, Pieces(s, t, tidx, off, need), off, need)
    decreases need - off
  {
    hide ChunkBytes, Base, Tiles;
    if off == need {
      TilesNothing(s, t, tidx, off);
    } else {
      var chunk := ChunkBytes(s.align);
      var len := if need - off < chunk then need - off else chunk;
      PiecesTile(s, t, tidx, off + len, need);
      TilesCons(s, t, tidx, Pieces(s, t, tidx, off, need)[0], Pieces(s, t, tidx, off + len, need), need);
    }
  }

  lemma TilesCons(s: Source, t: Tensor, tidx: nat, c: Chunk, ps: seq<Chunk>, need: nat)
    requires 0 < c.len <= ChunkBytes(s.align) && c.tidx == tidx && c.fileOff == Base(s, t) + c.dst
    requires c.dst + c.len <= need && Tiles(s, t, tidx, ps, c.dst + c.len, need)
    ensures Tiles(s, t, tidx, [c] + ps, c.dst, need)
  {
    hide ChunkBytes, Base;
  }

  /** Every byte of a tiled stretch lies in a piece. */
  lemma TilesCover(s: Source, t: Tensor, tidx: nat, ps: seq<Chunk>, off: nat, need: nat, b: nat)
    returns (k: nat)
    requires Tiles(s, t, tidx, ps, off, need) && off <= b < need
    ensures k < |ps| && ps[k].dst <= b < ps[k].dst + ps[k].len
  {
    hide ChunkBytes, Base;
    k := 0;
    while ps[k].dst + ps[k].len <= b
      invariant k < |ps| && ps[k].dst <= b
      decreases |ps| - k
    {
      assert k + 1 < |ps|;
      k := k + 1;
    }
  }

  /** The bytes `n` full pieces hold. */
  function Span(n: nat, align: nat): nat {
    n * ChunkBytes(align)
  }

  lemma SpanStep(n: nat, align: nat)
    ensures Span(n + 1, align) == Span(n, align) + ChunkBytes(align) && Span(0, align) == 0
  {
  }

  lemma {:induction false} PiecesCount(s: Source, t: Tensor, tidx: nat, off: nat, need: nat, n: nat)
    requires off <= need && need - off <= Span(n, s.align)
    ensures |Pieces(s, t, tidx, off, need)| <= n
    decreases n
  {
    hide ChunkBytes, Base, Span;
    SpanStep(0, s.align);
    if off < need {
      var chunk := ChunkBytes(s.align);
      var len := if need - off < chunk then need - off else chunk;
      SpanStep(n - 1, s.align);
      PiecesCount(s, t, tidx, off + len, need, n - 1);
    }
  }

  /** What the loader sets aside for one tensor's pieces. */
  function Room(s: Source, t: Tensor): nat {
    t.size / ChunkBytes(s.align) + 2
  }

  lemma Multiple(align: nat)
    requires align > 0
    ensures exists m: nat :: ChunkBytes(align) == m * align
  {
    assert CHUNK_TARGET / align * align == (CHUNK_TARGET / align) * align;
    assert align == 1 * align;
  }

  lemma OneMore(m: nat, c: nat)
    ensures (m + 1) * c == m * c + c
  {
  }

  lemma TimesMonotone(a: nat, b: nat, c: nat)
    requires a <= b
    ensures a * c <= b * c
  {
  }

  /** Rounding up does not pass a multiple. */
  lemma AlignUpBelow(n: nat, align: nat, m: nat)
    requires align > 0 && n <= m * align
    ensures AlignUp(n, align) <= m * align
  {
    var q := (n + align - 1) / align;
    DivMod(n + align - 1, align);
    OneMore(m, align);
    if q > m {
      TimesMonotone(m + 1, q, align);
    } else {
      TimesMonotone(q, m, align);
    }
  }

  lemma Associate(a: nat, b: nat, c: nat)
    ensures a * (b * c) == (a * b) * c
  {
  }

  /** Rounded up with its slop, a tensor stays within two pieces more than it fills. */
  lemma RoundedBelow(size: nat, slop: nat, align: nat)
    requires align > 0 && slop < align
    ensures AlignUp(size + slop, align) <= Span(size / ChunkBytes(align) + 2, align)
  {
    var c := ChunkBytes(align);
    var q := size / c;
    FilledBelow(size, align);
    SpanStep(q + 1, align);
    Multiple(align);
    var m: nat :| c == m * align;
    assert Span(q + 2, align) == (q + 2) * (m * align);
    hide Span, ChunkBytes, AlignUp;
    Associate(q + 2, m, align);
    AlignUpBelow(size + slop, align, (q + 2) * m);
  }

  lemma DivSpan(n: nat, align: nat)
    ensures Span(n / ChunkBytes(align), align) <= n < Span(n / ChunkBytes(align), align) + ChunkBytes(align)
  {
    DivMod(n, ChunkBytes(align));
  }

  lemma FilledBelow(size: nat, align: nat)
    ensures size < Span(size / ChunkBytes(align) + 1, align)
  {
    hide ChunkBytes, Span;
    DivSpan(size, align);
    SpanStep(size / ChunkBytes(align), align);
  }

  /** A tensor never needs more pieces than were counted for it. */
  lemma RoomSuffices(s: Source, t: Tensor, tidx: nat)
    requires Within(s, t)
    ensures |Pieces(s, t, tidx, 0, Need(s, t))| <= Room(s, t)
  {
    hide ChunkBytes, AlignUp, Span, Pieces;
    FilledBelow(t.size, s.align);
    SpanStep(t.size / ChunkBytes(s.align) + 1, s.align);
    if s.align > 0 {
      RoundedBelow(t.size, Slop(s, t), s.align);
      assert Slop(s, t) + t.size == t.size + Slop(s, t);
    }
    PiecesCount(s, t, tidx, 0, Need(s, t), Room(s, t));
  }

  // ---------------------------------------------------------------- the chunk table

  function AllPieces(s: Source, ts: seq<Tensor>): seq<Chunk>
    requires forall i :: 0 <= i < |ts| ==> Within(s, ts[i])
  {
    if ts == [] then []
    else
      var n := |ts| - 1;
      AllPieces(s, ts[..n]) + Pieces(s, ts[n], n, 0, Need(s, ts[n]))
  }

  function TotalRoom(s: Source, ts: seq<Tensor>): nat {
    if ts == [] then 0 else TotalRoom(s, ts[..|ts| - 1]) + Room(s, ts[|ts| - 1])
  }

  lemma {:induction false} TotalRoomGrows(s: Source, ts: seq<Tensor>, n: nat)
    requires n <= |ts|
    ensures TotalRoom(s, ts[..n]) <= TotalRoom(s, ts)
  {
    hide Room;
    if n < |ts| {
      TotalRoomGrows(s, ts[..|ts| - 1], n);
      assert ts[..|ts| - 1][..n] == ts[..n];
    } else {
      assert ts[..n] == ts;
    }
  }

  /** `gguf_chunk_tensor`: the table has room for the pieces. */
  method ChunkTensor(chunks: array<Chunk>, first: nat, s: Source, t: Tensor, tidx: nat) returns (n: nat)
    requires Within(s, t) && first + Room(s, t) <= chunks.Length
    modifies chunks
    ensures first <= n <= first + Room(s, t)
    ensures chunks[..n] == old(chunks[..first]) + Pieces(s, t, tidx, 0, Need(s, t))
  {
    RoomSuffices(s, t, tidx);
    hide Pieces, Room;
    n := first;
    var need := Need(s, t);
    var chunkBytes := ChunkBytes(s.align);
    ghost var all := old(chunks[..first]) + Pieces(s, t, tidx, 0, need);
    var off: nat := 0;
    while off < need
      invariant off <= need && first <= n <= chunks.Length
      invariant chunks[..n] + Pieces(s, t, tidx, off, need) == all
      decreases need - off
    {
      var piece := if need - off < chunkBytes then need - off else chunkBytes;
      var c := Chunk(tidx, Base(s, t) + off, off, piece, s.align > 0 && piece % s.align != 0);
      NextPiece(s, t, tidx, off, need);
      ghost var before, rest := chunks[..n], Pieces(s, t, tidx, off + piece, need);
      assert before + ([c] + rest) == before + [c] + rest;
      assert |before + [c] + rest| == |all| <= first + Room(s, t);
      chunks[n] := c;
      n := n + 1;
      off := off + piece;
      assert chunks[..n] == before + [c];
    }
    NoPieces(s, t, tidx, need);
    assert chunks[..n] + [] == chunks[..n];
  }

  lemma NextPiece(s: Source, t: Tensor, tidx: nat, off: nat, need: nat)
    requires off < need
    ensures var len := if need - off < ChunkBytes(s.align) then need - off else ChunkBytes(s.align);
      Pieces(s, t, tidx, off, need) ==
        [Chunk(tidx, Base(s, t) + off, off, len, s.align > 0 && len % s.align != 0)]
        + Pieces(s, t, tidx, off + len, need)
  {
  }

  lemma NoPieces(s: Source, t: Tensor, tidx: nat, need: nat)
    ensures Pieces(s, t, tidx, need, need) == []
  {
  }

  /** The table of all pieces, sized beforehand. */
  method BuildChunks(s: Source, ts: seq<Tensor>) returns (chunks: array<Chunk>, n: nat)
    requires forall i :: 0 <= i < |ts| ==> Within(s, ts[i])
    ensures n <= chunks.Length == TotalRoom(s, ts) && chunks[..n] == AllPieces(s, ts)
  {
    var cap := 0;
    for i := 0 to |ts|
      invariant cap == TotalRoom(s, ts[..i])
    {
      assert ts[..i + 1][..i] == ts[..i];
      cap := cap + (ts[i].size / ChunkBytes(s.align) + 2);
    }
    assert ts[..|ts|] == ts;
    chunks := new Chunk[cap](_ => Chunk(0, 0, 0, 0, false));
    n := 0;
    for i := 0 to |ts|
      invariant n <= TotalRoom(s, ts[..i]) && n <= chunks.Length && chunks[..n] == AllPieces(s, ts[..i])
    {
      hide Room, Pieces, Need;
      assert ts[..i + 1][..i] == ts[..i] && ts[..i + 1][i] == ts[i];
      TotalRoomGrows(s, ts, i + 1);
      n := ChunkTensor(chunks, n, s, ts[i], i);
    }
  }

  lemma {:induction false} PiecesOf(s: Source, ts: seq<Tensor>, t: nat, c: Chunk)
    requires (forall i :: 0 <= i < |ts| ==> Within(s, ts[i])) && t < |ts|
    requires c in Pieces(s, ts[t], t, 0, Need(s, ts[t]))
    ensures c in AllPieces(s, ts)
  {
    hide Pieces, Need;
    var n := |ts| - 1;
    if t < n {
      PiecesOf(s, ts[..n], t, c);
    }
  }

  lemma {:induction false} PiecesFit(s: Source, ts: seq<Tensor>, k: nat)
    requires (forall i :: 0 <= i < |ts| ==> Within(s, ts[i])) && k < |AllPieces(s, ts)|
    ensures var c := AllPieces(s, ts)[k];
      c.tidx < |ts| && c.dst + c.len <= Need(s, ts[c.tidx]) && c.fileOff == Base(s, ts[c.tidx]) + c.dst
  {
    hide Pieces, Need, Base, ChunkBytes;
    var n := |ts| - 1;
    var front := AllPieces(s, ts[..n]);
    if k < |front| {
      PiecesFit(s, ts[..n], k);
    } else {
      PiecesTile(s, ts[n], n, 0, Need(s, ts[n]));
    }
  }

  // ---------------------------------------------------------------- the workers

  /** A worker is about to take a chunk, holds one, or has left the loop. */
  datatype Worker = Looking | Took(i: nat) | Reading(i: nat) | Stopped

  datatype Run = Run(next: nat, workers: seq<Worker>, bufs: seq<Bytes>, failed: bool)

  /** A worker's turn: which one, and whether its read succeeds. */
  datatype Turn = Turn(w: nat, ok: bool)

  function Start(nWorkers: nat, bufs: seq<Bytes>): Run {
    Run(0, seq(nWorkers, _ => Looking), bufs, false)
  }

  /** The chunk's bytes arrive in its tensor's buffer. */
  function Deliver(s: Source, c: Chunk, bufs: seq<Bytes>): seq<Bytes> {
    if c.tidx < |bufs| && c.dst + c.len <= |bufs[c.tidx]| && c.fileOff + c.len <= |s.file| then
      var b := bufs[c.tidx];
      bufs[c.tidx := b[..c.dst] + s.file[c.fileOff..c.fileOff + c.len] + b[c.dst + c.len..]]
    else bufs
  }

  /** `gguf_load_worker`, one atomic access or one read at a time. */
  function Step(s: Source, chunks: seq<Chunk>, r: Run, t: Turn): Run {
    if t.w >= |r.workers| then r
    else
      match r.workers[t.w]
      case Looking =>
        r.(next := r.next + 1, workers := r.workers[t.w := if r.next >= |chunks| then Stopped else Took(r.next)])
      case Took(i) => r.(workers := r.workers[t.w := if r.failed then Stopped else Reading(i)])
      case Reading(i) =>
        if t.ok && i < |chunks| then
          r.(workers := r.workers[t.w := Looking], bufs := Deliver(s, chunks[i], r.bufs))
        else r.(workers := r.workers[t.w := Stopped], failed := true)
      case Stopped => r
  }

  function Execute(s: Source, chunks: seq<Chunk>, r: Run, turns: seq<Turn>): Run {
    if turns == [] then r
    else Step(s, chunks, Execute(s, chunks, r, turns[..|turns| - 1]), turns[|turns| - 1])
  }

  predicate Holds(w: Worker, i: nat) {
    w == Took(i) || w == Reading(i)
  }

  /** Every byte of a chunk's range in its buffer is the file's. */
  ghost predicate Delivered(s: Source, c: Chunk, bufs: seq<Bytes>) {
    && c.tidx < |bufs| && c.dst + c.len <= |bufs[c.tidx]| && c.fileOff + c.len <= |s.file|
    && forall b :: c.dst <= b < c.dst + c.len ==> bufs[c.tidx][b] == s.file[c.fileOff + (b - c.dst)]
  }

  /** The buffers are as large as allocated, and every chunk fits its own. */
  ghost predicate Fits(s: Source, ts: seq<Tensor>, chunks: seq<Chunk>, bufs: seq<Bytes>) {
    && |bufs| == |ts|
    && (forall i :: 0 <= i < |ts| ==> |bufs[i]| == Allocated(s, ts[i]))
    && (forall k :: 0 <= k < |chunks| ==>
          && chunks[k].tidx < |ts| && chunks[k].dst + chunks[k].len <= Allocated(s, ts[chunks[k].tidx])
          && chunks[k].fileOff == Base(s, ts[chunks[k].tidx]) + chunks[k].dst
          && chunks[k].fileOff + chunks[k].len <= |s.file|)
  }

  /** While nothing has failed, every chunk handed out is in a worker's hands or delivered. */
  ghost predicate Inv(s: Source, ts: seq<Tensor>, chunks: seq<Chunk>, r: Run) {
    && Fits(s, ts, chunks, r.bufs)
    && (forall w :: 0 <= w < |r.workers| && (r.workers[w].Took? || r.workers[w].Reading?) ==>
          r.workers[w].i < r.next && r.workers[w].i < |chunks|)
    && (!r.failed ==>
          && (forall i :: 0 <= i < r.next && i < |chunks| ==>
                Delivered(s, chunks[i], r.bufs) || exists w :: 0 <= w < |r.workers| && Holds(r.workers[w], i))
          && (forall w :: 0 <= w < |r.workers| && r.workers[w].Stopped? ==> r.next >= |chunks|))
  }

  /** The buffers after a delivery, byte by byte. */
  lemma DeliverByte(s: Source, c: Chunk, bufs: seq<Bytes>, t: nat, b: nat)
    requires c.tidx < |bufs| && c.dst + c.len <= |bufs[c.tidx]| && c.fileOff + c.len <= |s.file|
    requires t < |bufs| && b < |bufs[t]|
    ensures var bufs' := Deliver(s, c, bufs);
      && |bufs'| == |bufs| && |bufs'[t]| == |bufs[t]|
      && bufs'[t][b]
         == if t == c.tidx && c.dst <= b < c.dst + c.len then s.file[c.fileOff + (b - c.dst)] else bufs[t][b]
  {
    var was := bufs[c.tidx];
    var piece := s.file[c.fileOff..c.fileOff + c.len];
    var now := was[..c.dst] + piece + was[c.dst + c.len..];
    if t == c.tidx && c.dst <= b < c.dst + c.len {
      assert now[b] == piece[b - c.dst];
    }
  }

  lemma DeliverSizes(s: Source, c: Chunk, bufs: seq<Bytes>)
    requires c.tidx < |bufs| && c.dst + c.len <= |bufs[c.tidx]| && c.fileOff + c.len <= |s.file|
    ensures |Deliver(s, c, bufs)| == |bufs| && forall t :: 0 <= t < |bufs| ==> |Deliver(s, c, bufs)[t]| == |bufs[t]|
  {
  }

  /** A delivery leaves every other delivered chunk as it is: all chunks of a tensor agree on what goes where. */
  lemma DeliverKeeps(s: Source, ts: seq<Tensor>, chunks: seq<Chunk>, bufs: seq<Bytes>, i: nat)
    requires Fits(s, ts, chunks, bufs) && i < |chunks|
    ensures var bufs' := Deliver(s, chunks[i], bufs);
      && Fits(s, ts, chunks, bufs') && Delivered(s, chunks[i], bufs')
      && forall k :: 0 <= k < |chunks| && Delivered(s, chunks[k], bufs) ==> Delivered(s, chunks[k], bufs')
  {
    hide Allocated, Base, Deliver;
    var c := chunks[i];
    var bufs' := Deliver(s, c, bufs);
    DeliverSizes(s, c, bufs);
    forall k | 0 <= k < |chunks| && (k == i || Delivered(s, chunks[k], bufs)) ensures Delivered(s, chunks[k], bufs') {
      var d := chunks[k];
      forall b | d.dst <= b < d.dst + d.len ensures bufs'[d.tidx][b] == s.file[d.fileOff + (b - d.dst)] {
        DeliverByte(s, c, bufs, d.tidx, b);
      }
    }
  }

  lemma StepKeeps(s: Source, ts: seq<Tensor>, chunks: seq<Chunk>, r: Run, t: Turn)
    requires Inv(s, ts, chunks, r)
    ensures Inv(s, ts, chunks, Step(s, chunks, r, t)) && |Step(s, chunks, r, t).workers| == |r.workers|
  {
    hide Deliver, Delivered, Fits;
    var r' := Step(s, chunks, r, t);
    if t.w < |r.workers| {
      var me := r.workers[t.w];
      if me.Reading? && t.ok {
        DeliverKeeps(s, ts, chunks, r.bufs, me.i);
      }
      if !r'.failed {
        forall i | 0 <= i < r'.next && i < |chunks|
          ensures Delivered(s, chunks[i], r'.bufs) || exists w :: 0 <= w < |r'.workers| && Holds(r'.workers[w], i)
        {
          if i == r.next {
            assert Holds(r'.workers[t.w], i);
          } else if !Delivered(s, chunks[i], r.bufs) {
            var w :| 0 <= w < |r.workers| && Holds(r.workers[w], i);
            assert w != t.w ==> Holds(r'.workers[w], i);
            assert me.Took? && w == t.w ==> Holds(r'.workers[w], i);
          }
        }
      }
    }
  }

  lemma {:induction false} ExecuteKeeps(s: Source, ts: seq<Tensor>, chunks: seq<Chunk>, r: Run, turns: seq<Turn>)
    requires Inv(s, ts, chunks, r)
    ensures var q := Execute(s, chunks, r, turns); Inv(s, ts, chunks, q) && |q.workers| == |r.workers|
    decreases |turns|
  {
    hide Inv, Step;
    if turns != [] {
      ExecuteKeeps(s, ts, chunks, r, turns[..|turns| - 1]);
      StepKeeps(s, ts, chunks, Execute(s, chunks, r, turns[..|turns| - 1]), turns[|turns| - 1]);
    }
  }

  lemma StartInv(s: Source, ts: seq<Tensor>, nWorkers: nat, bufs: seq<Bytes>)
    requires forall i :: 0 <= i < |ts| ==> Within(s, ts[i])
    requires |bufs| == |ts| && forall i :: 0 <= i < |ts| ==> |bufs[i]| == Allocated(s, ts[i])
    ensures Inv(s, ts, AllPieces(s, ts), Start(nWorkers, bufs))
  {
    hide Allocated, Base, AllPieces, Need;
    var chunks := AllPieces(s, ts);
    forall k | 0 <= k < |chunks|
      ensures chunks[k].tidx < |ts| && chunks[k].dst + chunks[k].len <= Allocated(s, ts[chunks[k].tidx])
        && chunks[k].fileOff == Base(s, ts[chunks[k].tidx]) + chunks[k].dst
        && chunks[k].fileOff + chunks[k].len <= |s.file|
    {
      PiecesFit(s, ts, k);
    }
  }

  /**
   However the workers take turns: once all of them have left and none has failed, every tensor's data are
   exactly its bytes of the file.
   */
  lemma LoadedExactly(s: Source, ts: seq<Tensor>, nWorkers: nat, bufs: seq<Bytes>, turns: seq<Turn>, t: nat)
    requires (forall i :: 0 <= i < |ts| ==> Within(s, ts[i])) && nWorkers > 0 && t < |ts|
    requires |bufs| == |ts| && forall i :: 0 <= i < |ts| ==> |bufs[i]| == Allocated(s, ts[i])
    requires var r := Execute(s, AllPieces(s, ts), Start(nWorkers, bufs), turns);
      !r.failed && forall w :: 0 <= w < |r.workers| ==> r.workers[w].Stopped?
    ensures var r := Execute(s, AllPieces(s, ts), Start(nWorkers, bufs), turns);
      var slop := Slop(s, ts[t]); var from := s.data + ts[t].offset;
      && |r.bufs| == |ts| && slop + ts[t].size <= |r.bufs[t]|
      && r.bufs[t][slop..slop + ts[t].size] == s.file[from..from + ts[t].size]
  {
    hide AllPieces, Allocated, Execute, Start, Inv, Within;
    var chunks := AllPieces(s, ts);
    StartInv(s, ts, nWorkers, bufs);
    ExecuteKeeps(s, ts, chunks, Start(nWorkers, bufs), turns);
    Crew(nWorkers, bufs);
    TensorLoaded(s, ts, chunks, Execute(s, chunks, Start(nWorkers, bufs), turns), t);
  }

  lemma Crew(nWorkers: nat, bufs: seq<Bytes>)
    ensures |Start(nWorkers, bufs).workers| == nWorkers
  {
  }

  lemma TensorLoaded(s: Source, ts: seq<Tensor>, chunks: seq<Chunk>, r: Run, t: nat)
    requires (forall i :: 0 <= i < |ts| ==> Within(s, ts[i])) && t < |ts| && chunks == AllPieces(s, ts)
    requires Inv(s, ts, chunks, r) && !r.failed && r.workers != []
    requires forall w :: 0 <= w < |r.workers| ==> r.workers[w].Stopped?
    ensures var slop := Slop(s, ts[t]); var from := s.data + ts[t].offset;
      && |r.bufs| == |ts| && slop + ts[t].size <= |r.bufs[t]|
      && r.bufs[t][slop..slop + ts[t].size] == s.file[from..from + ts[t].size]
  {
    hide AllPieces, Base, Slop, Need, Allocated, Inv, Within;
    InvSizes(s, ts, chunks, r, t);
    var size := ts[t].size;
    var slop, from := Slop(s, ts[t]), s.data + ts[t].offset;
    assert Within(s, ts[t]);
    assert slop + size <= Need(s, ts[t]) <= |r.bufs[t]|;
    var got, want := r.bufs[t][slop..slop + size], s.file[from..from + size];
    forall b: nat | b < size ensures got[b] == want[b] {
      ByteLoaded(s, ts, chunks, r, t, slop + b);
    }
  }

  lemma InvSizes(s: Source, ts: seq<Tensor>, chunks: seq<Chunk>, r: Run, t: nat)
    requires Inv(s, ts, chunks, r) && !r.failed && t < |ts| && r.workers != []
    requires forall w :: 0 <= w < |r.workers| ==> r.workers[w].Stopped?
    ensures |r.bufs| == |ts| && |r.bufs[t]| == Allocated(s, ts[t]) && r.next >= |chunks|
  {
    assert r.workers[0].Stopped?;
  }

  lemma ByteLoaded(s: Source, ts: seq<Tensor>, chunks: seq<Chunk>, r: Run, t: nat, b: nat)
    requires (forall i :: 0 <= i < |ts| ==> Within(s, ts[i])) && t < |ts| && chunks == AllPieces(s, ts)
    requires Inv(s, ts, chunks, r) && !r.failed && r.next >= |chunks|
    requires forall w :: 0 <= w < |r.workers| ==> r.workers[w].Stopped?
    requires b < Need(s, ts[t])
    ensures |r.bufs| == |ts| && b < |r.bufs[t]| && Base(s, ts[t]) + b < |s.file|
    ensures r.bufs[t][b] == s.file[Base(s, ts[t]) + b]
  {
    hide Allocated, Base, AllPieces, Pieces, ChunkBytes;
    var ps := Pieces(s, ts[t], t, 0, Need(s, ts[t]));
    PiecesTile(s, ts[t], t, 0, Need(s, ts[t]));
    var k := TilesCover(s, ts[t], t, ps, 0, Need(s, ts[t]), b);
    PiecesOf(s, ts, t, ps[k]);
    var i :| 0 <= i < |chunks| && chunks[i] == ps[k];
    assert Delivered(s, chunks[i], r.bufs);
  }
}
