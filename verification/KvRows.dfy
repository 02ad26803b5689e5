/** Cached key/value rows, idealised as the token they were computed from and the position they are rotated to. */
module KvRows {

  datatype Row = Row(token: int, pos: int)

  /** `n` rows move from `src` to `dst`. */
  datatype Chunk = Chunk(src: nat, dst: nat, n: nat)

  /** A row carried over a distance is rotated by that distance. */
  function Carried(r: Row, delta: int): Row {
    Row(r.token, r.pos + delta)
  }

  predicate Within(chunks: seq<Chunk>, len: nat) {
    forall i :: 0 <= i < |chunks| ==> chunks[i].src + chunks[i].n <= len && chunks[i].dst + chunks[i].n <= len
  }

  /** Chunks move down, and both their sources and their targets follow one another without overlap. */
  predicate Marching(chunks: seq<Chunk>) {
    && (forall i :: 0 <= i < |chunks| ==> chunks[i].dst <= chunks[i].src)
    && (forall i, j :: 0 <= i < j < |chunks| ==>
          chunks[i].src + chunks[i].n <= chunks[j].src && chunks[i].dst + chunks[i].n <= chunks[j].dst)
  }

  // ---------------------------------------------------------------- two meanings of a shift

  /** `rows` with the chunk's target rows taken from `from`. */
  function Overlay(rows: seq<Row>, from: seq<Row>, c: Chunk): (r: seq<Row>)
    requires |rows| == |from| && c.src + c.n <= |rows| && c.dst + c.n <= |rows|
    ensures |r| == |rows|
    ensures forall p {:trigger r[p]} :: 0 <= p < |rows| ==>
      r[p] == if c.dst <= p < c.dst + c.n then Carried(from[p - c.dst + c.src], c.dst - c.src) else rows[p]
  {
    seq(|rows|, p requires 0 <= p < |rows| =>
      if c.dst <= p < c.dst + c.n then Carried(from[p - c.dst + c.src], c.dst - c.src) else rows[p])
  }

  /** Every chunk is read from the rows as they were before the shift. */
  function FromSnapshot(rows: seq<Row>, chunks: seq<Chunk>): (r: seq<Row>)
    requires Within(chunks, |rows|)
    ensures |r| == |rows|
  {
    if chunks == [] then rows
    else Overlay(FromSnapshot(rows, chunks[..|chunks| - 1]), rows, chunks[|chunks| - 1])
  }

  /** Every chunk is read from the rows as the chunks before it left them. */
  function InOrder(rows: seq<Row>, chunks: seq<Chunk>): (r: seq<Row>)
    requires Within(chunks, |rows|)
    ensures |r| == |rows|
  {
    if chunks == [] then rows
    else
      var before := InOrder(rows, chunks[..|chunks| - 1]);
      Overlay(before, before, chunks[|chunks| - 1])
  }

  lemma {:induction false} SnapshotInto(rows: seq<Row>, chunks: seq<Chunk>, p: nat, i: nat)
    requires Within(chunks, |rows|) && Marching(chunks) && p < |rows|
    requires i < |chunks| && chunks[i].dst <= p < chunks[i].dst + chunks[i].n
    ensures FromSnapshot(rows, chunks)[p]
         == Carried(rows[p - chunks[i].dst + chunks[i].src], chunks[i].dst - chunks[i].src)
  {
    hide Carried;
    var last := |chunks| - 1;
    if i < last {
      assert chunks[i].dst + chunks[i].n <= chunks[last].dst;
      SnapshotInto(rows, chunks[..last], p, i);
    }
  }

  lemma {:induction false} SnapshotOutside(rows: seq<Row>, chunks: seq<Chunk>, p: nat)
    requires Within(chunks, |rows|) && p < |rows|
    requires forall i :: 0 <= i < |chunks| ==> !(chunks[i].dst <= p < chunks[i].dst + chunks[i].n)
    ensures FromSnapshot(rows, chunks)[p] == rows[p]
  {
    hide Carried;
    if chunks != [] {
      SnapshotOutside(rows, chunks[..|chunks| - 1], p);
    }
  }

  /** Where a marching shift leaves each row: carried into a target, or as it was. */
  lemma SnapshotRow(rows: seq<Row>, chunks: seq<Chunk>, p: nat)
    requires Within(chunks, |rows|) && Marching(chunks) && p < |rows|
    ensures forall i :: 0 <= i < |chunks| && chunks[i].dst <= p < chunks[i].dst + chunks[i].n ==>
      FromSnapshot(rows, chunks)[p] == Carried(rows[p - chunks[i].dst + chunks[i].src], chunks[i].dst - chunks[i].src)
    ensures (forall i :: 0 <= i < |chunks| ==> !(chunks[i].dst <= p < chunks[i].dst + chunks[i].n)) ==>
      FromSnapshot(rows, chunks)[p] == rows[p]
  {
    hide Carried, FromSnapshot, Marching;
    forall i | 0 <= i < |chunks| && chunks[i].dst <= p < chunks[i].dst + chunks[i].n
      ensures FromSnapshot(rows, chunks)[p]
           == Carried(rows[p - chunks[i].dst + chunks[i].src], chunks[i].dst - chunks[i].src)
    {
      SnapshotInto(rows, chunks, p, i);
    }
    if forall i :: 0 <= i < |chunks| ==> !(chunks[i].dst <= p < chunks[i].dst + chunks[i].n) {
      SnapshotOutside(rows, chunks, p);
    }
  }

  /** A marching shift has not yet touched anything from the source of a later chunk on. */
  lemma {:induction false} UntouchedAhead(rows: seq<Row>, chunks: seq<Chunk>, p: nat)
    requires Within(chunks, |rows|) && Marching(chunks) && p < |rows|
    requires forall i :: 0 <= i < |chunks| ==> chunks[i].src + chunks[i].n <= p
    ensures FromSnapshot(rows, chunks)[p] == rows[p]
  {
    SnapshotRow(rows, chunks, p);
  }

  /** A marching shift never touches rows below its first target. */
  lemma UntouchedBelow(rows: seq<Row>, chunks: seq<Chunk>, p: nat)
    requires Within(chunks, |rows|) && Marching(chunks) && p < |rows|
    requires |chunks| > 0 ==> p < chunks[0].dst
    ensures FromSnapshot(rows, chunks)[p] == rows[p]
  {
    SnapshotRow(rows, chunks, p);
  }

  /** Moving the chunks in order, in place, is moving them all from a snapshot. */
  lemma {:induction false} InOrderIsSnapshot(rows: seq<Row>, chunks: seq<Chunk>)
    requires Within(chunks, |rows|) && Marching(chunks)
    ensures InOrder(rows, chunks) == FromSnapshot(rows, chunks)
  {
    if chunks != [] {
      var front := chunks[..|chunks| - 1];
      var c := chunks[|chunks| - 1];
      InOrderIsSnapshot(rows, front);
      var before := FromSnapshot(rows, front);
      forall p | c.src <= p < c.src + c.n ensures before[p] == rows[p] {
        UntouchedAhead(rows, front, p);
      }
      assert Overlay(before, before, c) == Overlay(before, rows, c);
    }
  }

  // ---------------------------------------------------------------- the two implementations

  /** One chunk, row by row, within the cache itself. */
  method MoveChunk(rows: array<Row>, c: Chunk)
    requires c.dst <= c.src && c.src + c.n <= rows.Length
    modifies rows
    ensures rows[..] == Overlay(old(rows[..]), old(rows[..]), c)
  {
    hide Carried;
    ghost var was := rows[..];
    ghost var now := Overlay(was, was, c);
    for t := 0 to c.n
      invariant forall p {:trigger rows[p]} :: 0 <= p < rows.Length ==>
        rows[p] == if c.dst <= p < c.dst + t then now[p] else was[p]
    {
      assert rows[c.src + t] == was[c.src + t] && now[c.dst + t] == Carried(was[c.src + t], c.dst - c.src);
      rows[c.dst + t] := Carried(rows[c.src + t], c.dst - c.src);
    }
  }

  /** Moving the chunks one after the other in place, as the order of a plan would let a backend do. */
  method ShiftInPlace(rows: array<Row>, chunks: seq<Chunk>)
    requires Within(chunks, rows.Length) && Marching(chunks)
    modifies rows
    ensures rows[..] == FromSnapshot(old(rows[..]), chunks)
  {
    ghost var was := rows[..];
    for i := 0 to |chunks|
      invariant rows[..] == InOrder(was, chunks[..i])
    {
      MoveChunk(rows, chunks[i]);
      assert chunks[..i + 1][..i] == chunks[..i];
    }
    assert chunks[..|chunks|] == chunks;
    InOrderIsSnapshot(was, chunks);
  }

  /** The positions a cache with room for `cap` rows holds; all of them, if it has no window. */
  datatype Window = Window(base: nat, cap: nat) {
    predicate Holds(p: nat) {
      base <= p < base + cap
    }
  }

  /** The rows of a chunk that are held, rotated; the others may be anything. */
  ghost predicate Staged(rows: seq<Row>, w: Window, c: Chunk, part: seq<Row>)
    requires c.src + c.n <= |rows|
  {
    && |part| == c.n
    && forall t :: 0 <= t < c.n && w.Holds(c.src + t) ==> part[t] == Carried(rows[c.src + t], c.dst - c.src)
  }

  method LoadChunk(rows: array<Row>, w: Window, c: Chunk) returns (part: seq<Row>)
    requires c.src + c.n <= rows.Length
    ensures Staged(rows[..], w, c, part)
  {
    part := [];
    for t := 0 to c.n
      invariant |part| == t
      invariant forall k :: 0 <= k < t && w.Holds(c.src + k) ==> part[k] == Carried(rows[c.src + k], c.dst - c.src)
    {
      var row: Row := *;
      if w.Holds(c.src + t) {
        row := Carried(rows[c.src + t], c.dst - c.src);
      }
      part := part + [row];
    }
  }

  /** From the window's first position on, `now` is what a shift of `from` leaves; below it nothing changes. */
  ghost predicate Shifted(from: seq<Row>, now: seq<Row>, chunks: seq<Chunk>, base: nat)
    requires Within(chunks, |from|)
  {
    && |now| == |from|
    && forall p :: 0 <= p < |from| ==> now[p] == if p >= base then FromSnapshot(from, chunks)[p] else from[p]
  }

  /** The rows of a chunk are stored, as far as the window holds their targets. */
  ghost predicate Stores(was: seq<Row>, now: seq<Row>, w: Window, c: Chunk, part: seq<Row>) {
    && |now| == |was| && |part| == c.n
    && forall p :: 0 <= p < |was| ==>
      now[p] == if c.dst <= p < c.dst + c.n && p >= w.base then part[p - c.dst] else was[p]
  }

  /** Of a chunk that moves down, every row stored was held. */
  lemma StoredRow(from: seq<Row>, was: seq<Row>, now: seq<Row>, w: Window, c: Chunk, part: seq<Row>, p: nat)
    requires c.dst <= c.src && c.src + c.n <= |from| && c.src + c.n <= w.base + w.cap && Staged(from, w, c, part)
    requires Stores(was, now, w, c, part) && p < |was| == |from|
    ensures now[p] == if p < w.base then was[p]
      else if c.dst <= p < c.dst + c.n then Carried(from[p - c.dst + c.src], c.dst - c.src) else was[p]
  {
    hide Carried;
    if c.dst <= p < c.dst + c.n && p >= w.base {
      assert w.Holds(c.src + (p - c.dst));
      assert part[p - c.dst] == Carried(from[c.src + (p - c.dst)], c.dst - c.src);
    }
  }

  lemma ShiftedMore(from: seq<Row>, was: seq<Row>, now: seq<Row>, chunks: seq<Chunk>, w: Window, part: seq<Row>)
    requires chunks != [] && Within(chunks, |from|) && Shifted(from, was, chunks[..|chunks| - 1], w.base)
    requires var c := chunks[|chunks| - 1]; c.dst <= c.src && c.src + c.n <= w.base + w.cap && Staged(from, w, c, part)
    requires Stores(was, now, w, chunks[|chunks| - 1], part)
    ensures Shifted(from, now, chunks, w.base)
  {
    var c := chunks[|chunks| - 1];
    var front, all := FromSnapshot(from, chunks[..|chunks| - 1]), FromSnapshot(from, chunks);
    assert all == Overlay(front, from, c);
    assert |now| == |was| == |from|;
    hide Carried, FromSnapshot, Overlay, Stores, Staged;
    forall p | 0 <= p < |from| ensures now[p] == if p >= w.base then all[p] else from[p] {
      StoredRow(from, was, now, w, c, part, p);
      assert was[p] == if p >= w.base then front[p] else from[p];
    }
  }

  method StoreChunk(rows: array<Row>, w: Window, c: Chunk, part: seq<Row>)
    requires c.dst + c.n <= rows.Length && |part| == c.n
    modifies rows
    ensures Stores(old(rows[..]), rows[..], w, c, part)
  {
    for t := 0 to c.n
      invariant forall p {:trigger rows[p]} :: 0 <= p < rows.Length ==>
        rows[p] == if c.dst <= p < c.dst + t && p >= w.base then part[p - c.dst] else old(rows[p])
    {
      if c.dst + t >= w.base {
        rows[c.dst + t] := part[t];
      }
    }
  }

  /** All chunks move down, and what they move is held. */
  predicate Movable(chunks: seq<Chunk>, w: Window) {
    forall i :: 0 <= i < |chunks| ==> chunks[i].dst <= chunks[i].src && chunks[i].src + chunks[i].n <= w.base + w.cap
  }

  method StoreChunks(rows: array<Row>, w: Window, chunks: seq<Chunk>, stage: seq<seq<Row>>)
    requires Within(chunks, rows.Length) && |stage| == |chunks|
    requires forall k :: 0 <= k < |chunks| ==> Staged(rows[..], w, chunks[k], stage[k])
    modifies rows
    ensures Movable(chunks, w) ==> Shifted(old(rows[..]), rows[..], chunks, w.base)
  {
    ghost var from := rows[..];
    for i := 0 to |chunks|
      invariant Movable(chunks, w) ==> Shifted(from, rows[..], chunks[..i], w.base)
    {
      hide Staged, Shifted, Stores, FromSnapshot;
      ghost var was := rows[..];
      assert |stage[i]| == chunks[i].n by {
        StagedSize(from, w, chunks[i], stage[i]);
      }
      StoreChunk(rows, w, chunks[i], stage[i]);
      assert chunks[..i + 1][..i] == chunks[..i];
      if Movable(chunks, w) {
        ShiftedMore(from, was, rows[..], chunks[..i + 1], w, stage[i]);
      }
    }
    assert chunks[..|chunks|] == chunks;
  }

  lemma StagedSize(rows: seq<Row>, w: Window, c: Chunk, part: seq<Row>)
    requires c.src + c.n <= |rows| && Staged(rows, w, c, part)
    ensures |part| == c.n
  {
  }

  /**
   `cpu_kv_shift`: all chunks are loaded and rotated first, then all are stored. It refuses a chunk that starts below
   the window and goes into it; rows below the window are neither read nor written.
   */
  method ShiftStaged(rows: array<Row>, w: Window, chunks: seq<Chunk>) returns (ok: bool)
    requires Within(chunks, rows.Length)
    modifies rows
    ensures ok <==> forall i :: 0 <= i < |chunks| ==> !(chunks[i].src < w.base <= chunks[i].dst)
    ensures !ok ==> rows[..] == old(rows[..])
    ensures ok && Movable(chunks, w) ==> Shifted(old(rows[..]), rows[..], chunks, w.base)
  {
    hide Staged, Shifted, Movable, FromSnapshot;
    for i := 0 to |chunks|
      invariant forall k :: 0 <= k < i ==> !(chunks[k].src < w.base <= chunks[k].dst)
    {
      if chunks[i].src < w.base && chunks[i].dst >= w.base {
        return false;
      }
    }
    var stage: seq<seq<Row>> := [];
    for i := 0 to |chunks|
      invariant |stage| == i && rows[..] == old(rows[..])
      invariant forall k :: 0 <= k < i ==> Staged(rows[..], w, chunks[k], stage[k])
    {
      var part := LoadChunk(rows, w, chunks[i]);
      stage := stage + [part];
    }
    StoreChunks(rows, w, chunks, stage);
    ok := true;
  }

  /** A cache without a window takes every plan, and leaves what moving from a snapshot leaves. */
  method ShiftWhole(rows: array<Row>, chunks: seq<Chunk>)
    requires Within(chunks, rows.Length) && Marching(chunks)
    modifies rows
    ensures rows[..] == FromSnapshot(old(rows[..]), chunks)
  {
    ghost var was := rows[..];
    var ok := ShiftStaged(rows, Window(0, rows.Length), chunks);
    assert rows[..] == FromSnapshot(was, chunks);
  }

  /** What a failing shift may leave: anything in the targets of its chunks. */
  method Garble(rows: array<Row>, chunks: seq<Chunk>, ghost low: nat)
    requires Within(chunks, rows.Length) && forall i :: 0 <= i < |chunks| ==> chunks[i].dst >= low
    modifies rows
    ensures forall p :: 0 <= p < low && p < rows.Length ==> rows[p] == old(rows[p])
  {
    for i := 0 to |chunks|
      invariant forall p :: 0 <= p < low && p < rows.Length ==> rows[p] == old(rows[p])
    {
      for t := 0 to chunks[i].n
        invariant forall p :: 0 <= p < low && p < rows.Length ==> rows[p] == old(rows[p])
      {
        var row: Row := *;
        rows[chunks[i].dst + t] := row;
      }
    }
  }
}
