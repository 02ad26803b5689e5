/** Loading ends: a load fails exactly when a read does, and workers that keep getting turns finish it. */
module SparseProgress {
  import opened Bytes
  import opened SparseLoad

  // ---------------------------------------------------------------- failures

  /** The turn is a read that fails. */
  predicate ReadFails(r: Run, t: Turn) {
    t.w < |r.workers| && r.workers[t.w].Reading? && !t.ok
  }

  /** One of the turns is a read that fails. */
  ghost predicate SomeReadFails(s: Source, chunks: seq<Chunk>, r: Run, turns: seq<Turn>) {
    exists k: nat :: k < |turns| && ReadFails(Execute(s, chunks, r, turns[..k]), turns[k])
  }

  lemma StepFails(s: Source, ts: seq<Tensor>, chunks: seq<Chunk>, r: Run, t: Turn)
    requires Inv(s, ts, chunks, r)
    ensures Step(s, chunks, r, t).failed <==> r.failed || ReadFails(r, t)
  {
    hide Fits, Delivered, Deliver;
  }

  lemma MoreTurns(s: Source, chunks: seq<Chunk>, r: Run, turns: seq<Turn>, t: Turn)
    ensures SomeReadFails(s, chunks, r, turns + [t]) <==>
      SomeReadFails(s, chunks, r, turns) || ReadFails(Execute(s, chunks, r, turns), t)
  {
    hide Execute, ReadFails;
    var all := turns + [t];
    assert all[..|turns|] == turns;
    assert forall k: nat :: k < |turns| ==> all[..k] == turns[..k] && all[k] == turns[k];
    if SomeReadFails(s, chunks, r, turns) {
      var k: nat :| k < |turns| && ReadFails(Execute(s, chunks, r, turns[..k]), turns[k]);
      assert ReadFails(Execute(s, chunks, r, all[..k]), all[k]);
    }
    if ReadFails(Execute(s, chunks, r, turns), t) {
      assert ReadFails(Execute(s, chunks, r, all[..|turns|]), all[|turns|]);
    }
  }

  /** A load has failed if and only if one of its reads has. */
  lemma {:induction false} FailsExactly(s: Source, ts: seq<Tensor>, chunks: seq<Chunk>, r: Run, turns: seq<Turn>)
    requires Inv(s, ts, chunks, r) && !r.failed
    ensures Execute(s, chunks, r, turns).failed <==> SomeReadFails(s, chunks, r, turns)
    decreases |turns|
  {
    hide Inv, Step, ReadFails;
    if turns != [] {
      var front, last := turns[..|turns| - 1], turns[|turns| - 1];
      FailsExactly(s, ts, chunks, r, front);
      ExecuteKeeps(s, ts, chunks, r, front);
      StepFails(s, ts, chunks, Execute(s, chunks, r, front), last);
      MoreTurns(s, chunks, r, front, last);
      assert front + [last] == turns;
    }
  }

  /** Once a read has failed, only reads already begun go on. */
  lemma {:induction false} NoNewReads(s: Source, chunks: seq<Chunk>, r: Run, turns: seq<Turn>, w: nat)
    requires r.failed && w < |r.workers| && !r.workers[w].Reading?
    ensures var q := Execute(s, chunks, r, turns);
      q.failed && |q.workers| == |r.workers| && !q.workers[w].Reading?
    decreases |turns|
  {
    hide Deliver;
    if turns != [] {
      NoNewReads(s, chunks, r, turns[..|turns| - 1], w);
    }
  }

  // ---------------------------------------------------------------- turns

  /** How many turns a worker may still take with what it has in hand. */
  function Effort(w: Worker): nat {
    match w
    case Looking => 1
    case Took(_) => 3
    case Reading(_) => 2
    case Stopped => 0
  }

  function Efforts(ws: seq<Worker>): nat {
    if ws == [] then 0 else Efforts(ws[..|ws| - 1]) + Effort(ws[|ws| - 1])
  }

  /** What is left to do: three turns for every chunk not handed out, and what the workers have in hand. */
  function Left(chunks: seq<Chunk>, r: Run): nat {
    3 * (if r.next < |chunks| then |chunks| - r.next else 0) + Efforts(r.workers)
  }

  lemma {:induction false} EffortOf(ws: seq<Worker>, w: nat, now: Worker)
    requires w < |ws|
    ensures Efforts(ws[w := now]) + Effort(ws[w]) == Efforts(ws) + Effort(now)
    ensures Efforts(ws) >= Effort(ws[w])
    decreases |ws|
  {
    var n := |ws| - 1;
    if w < n {
      EffortOf(ws[..n], w, now);
      assert ws[w := now][..n] == ws[..n][w := now];
    } else {
      assert ws[w := now][..n] == ws[..n];
    }
  }

  /** Every turn of a worker that has not left brings the end nearer. */
  lemma StepDescends(s: Source, chunks: seq<Chunk>, r: Run, t: Turn)
    ensures var r' := Step(s, chunks, r, t);
      && |r'.workers| == |r.workers|
      && (t.w < |r.workers| && !r.workers[t.w].Stopped? ==> Left(chunks, r') < Left(chunks, r))
      && (!(t.w < |r.workers| && !r.workers[t.w].Stopped?) ==> r' == r)
      && forall w :: 0 <= w < |r.workers| && r.workers[w].Stopped? ==> r'.workers[w].Stopped?
  {
    hide Deliver, Efforts;
    if t.w < |r.workers| {
      EffortOf(r.workers, t.w, Step(s, chunks, r, t).workers[t.w]);
    }
  }

  function TurnsOf(turns: seq<Turn>, w: nat): nat {
    if turns == [] then 0
    else TurnsOf(turns[..|turns| - 1], w) + if turns[|turns| - 1].w == w then 1 else 0
  }

  /** A worker that is still there has used all its turns to bring the end nearer. */
  lemma {:induction false} TurnsCount(s: Source, chunks: seq<Chunk>, r: Run, turns: seq<Turn>, w: nat)
    requires w < |r.workers|
    ensures var q := Execute(s, chunks, r, turns);
      && |q.workers| == |r.workers| && Left(chunks, q) <= Left(chunks, r)
      && (!q.workers[w].Stopped? ==> Left(chunks, q) + TurnsOf(turns, w) <= Left(chunks, r))
    decreases |turns|
  {
    hide Step, Left;
    if turns != [] {
      TurnsCount(s, chunks, r, turns[..|turns| - 1], w);
      StepDescends(s, chunks, Execute(s, chunks, r, turns[..|turns| - 1]), turns[|turns| - 1]);
    }
  }

  lemma {:induction false} Lookers(ws: seq<Worker>)
    requires forall w :: 0 <= w < |ws| ==> ws[w].Looking?
    ensures Efforts(ws) == |ws|
    decreases |ws|
  {
    if ws != [] {
      Lookers(ws[..|ws| - 1]);
    }
  }

  /** However the reads turn out, a worker that gets its turns leaves. */
  lemma EveryoneLeaves(s: Source, chunks: seq<Chunk>, nWorkers: nat, bufs: seq<Bytes>, turns: seq<Turn>, w: nat)
    requires w < nWorkers && TurnsOf(turns, w) >= 3 * |chunks| + nWorkers
    ensures var r := Execute(s, chunks, Start(nWorkers, bufs), turns); |r.workers| == nWorkers && r.workers[w].Stopped?
  {
    var r := Start(nWorkers, bufs);
    Lookers(r.workers);
    TurnsCount(s, chunks, r, turns, w);
    var q := Execute(s, chunks, r, turns);
    hide Efforts, Execute;
    EffortOf(q.workers, w, Stopped);
  }

  /**
   Whatever the schedule: if every worker gets its turns and no read fails, then nothing fails, all workers leave and
   every tensor's data are exactly its bytes of the file.
   */
  lemma FairLoadsExactly(s: Source, ts: seq<Tensor>, nWorkers: nat, bufs: seq<Bytes>, turns: seq<Turn>, t: nat)
    requires (forall i :: 0 <= i < |ts| ==> Within(s, ts[i])) && nWorkers > 0 && t < |ts|
    requires |bufs| == |ts| && forall i :: 0 <= i < |ts| ==> |bufs[i]| == Allocated(s, ts[i])
    requires forall w: nat :: w < nWorkers ==> TurnsOf(turns, w) >= 3 * |AllPieces(s, ts)| + nWorkers
    requires !SomeReadFails(s, AllPieces(s, ts), Start(nWorkers, bufs), turns)
    ensures var r := Execute(s, AllPieces(s, ts), Start(nWorkers, bufs), turns);
      var slop := Slop(s, ts[t]); var from := s.data + ts[t].offset;
      && !r.failed && (forall w :: 0 <= w < |r.workers| ==> r.workers[w].Stopped?)
      && |r.bufs| == |ts| && slop + ts[t].size <= |r.bufs[t]|
      && r.bufs[t][slop..slop + ts[t].size] == s.file[from..from + ts[t].size]
  {
    var chunks, r := AllPieces(s, ts), Start(nWorkers, bufs);
    assert !r.failed;
    hide *;
    StartInv(s, ts, nWorkers, bufs);
    FailsExactly(s, ts, chunks, r, turns);
    forall w: nat | w < nWorkers
      ensures var q := Execute(s, chunks, r, turns); |q.workers| == nWorkers && q.workers[w].Stopped?
    {
      EveryoneLeaves(s, chunks, nWorkers, bufs, turns, w);
    }
    assert |Execute(s, chunks, r, turns).workers| == nWorkers by {
      EveryoneLeaves(s, chunks, nWorkers, bufs, turns, 0);
    }
    LoadedExactly(s, ts, nWorkers, bufs, turns, t);
  }

  // ---------------------------------------------------------------- alignment

  /** An aligned source is read at multiples of its alignment; only a piece of another length is read without it. */
  ghost predicate Aligned(s: Source, c: Chunk)
    requires s.align > 0
  {
    && (exists m: nat :: c.fileOff == m * s.align)
    && (c.plain <==> c.len % s.align != 0)
  }

  lemma AddMultiples(a: nat, b: nat, align: nat)
    ensures a * align + b * align == (a + b) * align
  {
  }

  lemma BaseAligned(s: Source, t: Tensor)
    requires s.align > 0
    ensures exists m: nat :: Base(s, t) == m * s.align
  {
    var n := s.data + t.offset;
    DivMod(n, s.align);
    assert Base(s, t) == n / s.align * s.align;
  }

  lemma {:induction false} PiecesAligned(s: Source, t: Tensor, tidx: nat, off: nat, need: nat, m: nat, k: nat)
    requires s.align > 0 && off <= need && off == m * s.align && k < |Pieces(s, t, tidx, off, need)|
    ensures Aligned(s, Pieces(s, t, tidx, off, need)[k])
    decreases need - off
  {
    var chunk := ChunkBytes(s.align);
    if k == 0 {
      BaseAligned(s, t);
      var n: nat :| Base(s, t) == n * s.align;
      AddMultiples(n, m, s.align);
      assert Pieces(s, t, tidx, off, need)[0].fileOff == (n + m) * s.align;
    } else {
      assert need - off >= chunk;
      Multiple(s.align);
      var n: nat :| chunk == n * s.align;
      AddMultiples(m, n, s.align);
      PiecesAligned(s, t, tidx, off + chunk, need, m + n, k - 1);
    }
  }
  lemma NoRemainder(n: nat, align: nat, m: nat)
    requires align > 0 && n == m * align
    ensures n % align == 0
  {
    var q := n / align;
    assert n == align * q + n % align;
    OneMore(q, align);
    if m > q {
      TimesMonotone(q + 1, m, align);
    } else {
      TimesMonotone(m, q, align);
    }
  }

  /** What is read for a tensor ends at a multiple of the alignment, or with the file. */
  lemma NeedAligned(s: Source, t: Tensor)
    requires s.align > 0 && Within(s, t)
    ensures (exists m: nat :: Need(s, t) == m * s.align) || Base(s, t) + Need(s, t) == |s.file|
  {
    var need := t.size + Slop(s, t);
    assert AlignUp(need, s.align) == (need + s.align - 1) / s.align * s.align;
  }

  lemma SubtractMultiples(a: nat, b: nat, align: nat)
    requires a * align >= b * align && align > 0
    ensures a >= b && a * align - b * align == (a - b) * align
  {
  }

  /** A piece of another length is the last one, and ends with the file. */
  lemma {:induction false} PlainAtEnd(s: Source, t: Tensor, tidx: nat, off: nat, need: nat, m: nat, k: nat)
    requires s.align > 0 && off <= need && off == m * s.align && k < |Pieces(s, t, tidx, off, need)|
    requires (exists n: nat :: need == n * s.align) || Base(s, t) + need == |s.file|
    ensures var c := Pieces(s, t, tidx, off, need)[k]; c.plain ==> c.fileOff + c.len == |s.file|
    decreases need - off
  {
    hide Base;
    var chunk := ChunkBytes(s.align);
    Multiple(s.align);
    var q: nat :| chunk == q * s.align;
    if k > 0 {
      AddMultiples(m, q, s.align);
      PlainAtEnd(s, t, tidx, off + chunk, need, m + q, k - 1);
    } else if need - off >= chunk {
      NoRemainder(chunk, s.align, q);
    } else if n: nat :| need == n * s.align {
      SubtractMultiples(n, m, s.align);
      NoRemainder(need - off, s.align, n - m);
    }
  }

  lemma {:induction false} EveryPieceAligned(s: Source, ts: seq<Tensor>, k: nat)
    requires s.align > 0 && (forall i :: 0 <= i < |ts| ==> Within(s, ts[i])) && k < |AllPieces(s, ts)|
    ensures Aligned(s, AllPieces(s, ts)[k])
    ensures var c := AllPieces(s, ts)[k]; c.plain ==> c.fileOff + c.len == |s.file|
    decreases |ts|
  {
    hide Pieces, Need, Aligned;
    var n := |ts| - 1;
    var front := AllPieces(s, ts[..n]);
    if k < |front| {
      EveryPieceAligned(s, ts[..n], k);
    } else {
      PiecesAligned(s, ts[n], n, 0, Need(s, ts[n]), 0, k - |front|);
      NeedAligned(s, ts[n]);
      PlainAtEnd(s, ts[n], n, 0, Need(s, ts[n]), 0, k - |front|);
    }
  }
}
