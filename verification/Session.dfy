/** A session: the tokens fed so far, the write position, and the cached rows they stand for. */
module Sessions {
  import opened KvRows
  import opened ReusePlan

  datatype Status = Ok | InvalidArg | Interrupted | ComputeFail | Unsupported | OutOfMemory

  /** The C functions return a position or a negative status. */
  datatype Outcome = At(pos: nat) | Failed(st: Status)

  /** The chunks a prefill may skip: in order, from `from` on, their rows already those of the prompt. */
  ghost predicate Skippable(plan: seq<Chunk>, rows: seq<Row>, ids: seq<int>, from: nat) {
    && (forall i :: 0 <= i < |plan| ==> plan[i].dst >= from && ChunkRows(rows, ids, plan[i]))
    && (forall i, j :: 0 <= i < j < |plan| ==> plan[i].dst + plan[i].n <= plan[j].dst)
  }

  function Reused(plan: seq<Chunk>): nat {
    if plan == [] then 0 else Reused(plan[..|plan| - 1]) + plan[|plan| - 1].n
  }

  lemma {:induction false} ReusedBound(plan: seq<Chunk>, rows: seq<Row>, ids: seq<int>, from: nat)
    requires Skippable(plan, rows, ids, from)
    ensures from + Reused(plan) <= if plan == [] then from else plan[|plan| - 1].dst + plan[|plan| - 1].n
  {
    hide ChunkRows;
    if plan != [] {
      ReusedBound(plan[..|plan| - 1], rows, ids, from);
    }
  }

  lemma SkippableSplit(plan: seq<Chunk>, rows: seq<Row>, ids: seq<int>, from: nat)
    requires Skippable(plan, rows, ids, from) && plan != []
    ensures plan[0].dst >= from && ChunkRows(rows, ids, plan[0])
    ensures Skippable(plan[1..], rows, ids, plan[0].dst + plan[0].n)
  {
    hide ChunkRows;
  }

  /** Writing below the first chunk leaves a plan skippable. */
  lemma SkippableKept(plan: seq<Chunk>, rows: seq<Row>, rows': seq<Row>, ids: seq<int>, from: nat, kept: nat)
    requires Skippable(plan, rows, ids, from) && kept <= from && |rows'| == |rows|
    requires forall p :: kept <= p < |rows| ==> rows'[p] == rows[p]
    ensures Skippable(plan, rows', ids, from)
  {
  }

  /** A plan's chunks may be skipped once they are moved, and leave part of the prompt to feed. */
  lemma TilesSkippable(rows: seq<Row>, fed: seq<int>, ids: seq<int>, plan: seq<Chunk>, reuse: nat)
    requires Tiles(plan, fed, ids, reuse, reuse) && forall i :: 0 <= i < |plan| ==> ChunkRows(rows, ids, plan[i])
    ensures Skippable(plan, rows, ids, reuse)
    ensures plan != [] ==> reuse + Reused(plan) < |ids|
  {
    TilesDst(plan, fed, ids, reuse, reuse);
    ReusedBound(plan, rows, ids, reuse);
  }

  lemma NothingSkippable(rows: seq<Row>, ids: seq<int>, reuse: nat)
    ensures Skippable([], rows, ids, reuse)
  {
  }

  ghost predicate SameBelow(was: seq<Row>, now: seq<Row>, low: nat) {
    |now| == |was| && forall p :: 0 <= p < low && p < |was| ==> now[p] == was[p]
  }

  /** Rows below a place are untouched, and so are still those of the tokens below it. */
  lemma RowsPrefix(was: seq<Row>, now: seq<Row>, fed: seq<int>, reuse: nat)
    requires RowsAre(was, fed) && reuse <= |fed| && SameBelow(was, now, reuse)
    ensures RowsAre(now, fed[..reuse])
  {
  }

  lemma NoMoves(rows: seq<Row>, moves: seq<Chunk>)
    requires moves == []
    ensures Within(moves, |rows|) && FromSnapshot(rows, moves) == rows
  {
  }

  lemma MovesAbove(plan: seq<Chunk>, fed: seq<int>, ids: seq<int>, reuse: nat)
    requires Tiles(plan, fed, ids, reuse, reuse)
    ensures forall k :: 0 <= k < |Moves(plan)| ==> Moves(plan)[k].dst >= reuse
  {
    MovesAre(plan);
    TilesDst(plan, fed, ids, reuse, reuse);
    forall k | 0 <= k < |Moves(plan)| ensures Moves(plan)[k].dst >= reuse {
      assert Moves(plan)[k] in Moves(plan);
      var j :| 0 <= j < |plan| && plan[j] == Moves(plan)[k];
    }
  }

  /** What the moves of a plan ask of the backend, and what they leave. */
  lemma PlanMoves(rows: seq<Row>, fed: seq<int>, ids: seq<int>, plan: seq<Chunk>, reuse: nat)
    requires RowsAre(rows, fed) && plan == PlanFrom(fed, ids, reuse, reuse, SHIFT_MAX_CHUNKS)
    ensures Within(Moves(plan), |rows|) && Marching(Moves(plan))
    ensures forall k :: 0 <= k < |Moves(plan)| ==> Moves(plan)[k].dst >= reuse
    ensures Skippable(plan, FromSnapshot(rows, Moves(plan)), ids, reuse)
    ensures plan != [] ==> reuse + Reused(plan) < |ids|
  {
    hide PlanFrom, Moves, FromSnapshot, Marching, Tiles, Skippable, Reused, RowsAre, Within, ChunkRows;
    PlanTiles(fed, ids, reuse, reuse, SHIFT_MAX_CHUNKS);
    MovedRows(rows, fed, ids, plan, reuse);
    MovesAbove(plan, fed, ids, reuse);
    TilesSkippable(FromSnapshot(rows, Moves(plan)), fed, ids, plan, reuse);
  }

  /** A new prompt takes over what it has in common with the fed tokens, but always leaves itself a token to feed. */
  ghost predicate IsReuse(fed: seq<int>, ids: seq<int>, reuse: nat) {
    && reuse <= |fed| && reuse <= |ids| && fed[..reuse] == ids[..reuse]
    && if ids != [] && ids < fed then reuse == |ids| - 1
       else reuse == |fed| || reuse == |ids| || fed[reuse] != ids[reuse]
  }

  class Session {
    const nCtx: nat
    const vocab: nat
    const step: nat      // rows per prefill batch
    const canShift: bool
    const rows: array<Row>
    var nPos: nat
    var fed: seq<int>
    var poisoned: bool   // only a reset makes the session usable again
    var limitHit: bool
    ghost var faults: nat        // how often the world outside failed or interrupted the session
    ghost var computed: nat      // the rows computed by passes that succeeded
    ghost var picked: seq<int>   // the tokens sampled, or read back from a device

    /** Row `p` was computed from the `p`-th fed token at position `p`; tokens past `nPos` are stale. */
    ghost predicate Valid()
      reads this, rows
    {
      && step > 0 && rows.Length == nCtx
      && nPos <= |fed| && nPos <= nCtx
      && RowsAre(rows[..], fed[..nPos])
    }

    constructor (nCtx: nat, vocab: nat, step: nat, canShift: bool)
      requires step > 0
      ensures Valid() && fed == [] && nPos == 0 && !poisoned && !limitHit && fresh(rows)
      ensures this.nCtx == nCtx && this.vocab == vocab && this.canShift == canShift
    {
      this.nCtx, this.vocab, this.step, this.canShift := nCtx, vocab, step, canShift;
      rows := new Row[nCtx](_ => Row(0, 0));
      nPos := 0;
      fed := [];
      poisoned, limitHit := false, false;
    }

    // ---------------------------------------------------------------- what the backend may do

    /** A forward pass writes the rows of its tokens; a failing one may leave anything in them. */
    method Forward(tokens: seq<int>, pos: nat) returns (st: Status)
      requires pos + |tokens| <= rows.Length
      modifies this`faults, this`computed, rows
      ensures forall p :: 0 <= p < pos || pos + |tokens| <= p < rows.Length ==> rows[p] == old(rows[p])
      ensures st.Ok? ==> forall p :: pos <= p < pos + |tokens| ==> rows[p] == Row(tokens[p - pos], p)
      ensures faults == old(faults) + if st.Ok? then 0 else 1
      ensures computed == old(computed) + if st.Ok? then |tokens| else 0
    {
      st := *;
      faults := faults + if st.Ok? then 0 else 1;
      computed := computed + if st.Ok? then |tokens| else 0;
      for i := 0 to |tokens|
        modifies rows
        invariant forall p :: 0 <= p < pos || pos + |tokens| <= p < rows.Length ==> rows[p] == old(rows[p])
        invariant st.Ok? ==> forall p :: pos <= p < pos + i ==> rows[p] == Row(tokens[p - pos], p)
      {
        var row: Row := *;
        rows[pos + i] := if st.Ok? then Row(tokens[i], pos + i) else row;
      }
    }

    /** Something outside the session may fail, or ask it to stop. */
    method Asks() returns (ok: bool)
      modifies this`faults
      ensures faults == old(faults) + if ok then 0 else 1
      ensures old(Valid()) ==> Valid()
    {
      ok := *;
      faults := faults + if ok then 0 else 1;
    }

    /** A shift moves the chunks, in order or from a staged copy; a failing one may leave anything from `low` on. */
    method Shift(moves: seq<Chunk>, ghost low: nat) returns (ok: bool)
      requires Within(moves, rows.Length) && Marching(moves)
      requires forall i :: 0 <= i < |moves| ==> moves[i].dst >= low
      modifies this`faults, rows
      ensures ok ==> rows[..] == FromSnapshot(old(rows[..]), moves)
      ensures SameBelow(old(rows[..]), rows[..], low)
      ensures faults == old(faults) + if ok then 0 else 1
    {
      var staged: bool := *;
      ok := Asks();
      if ok {
        if staged {
          ShiftWhole(rows, moves);
        } else {
          ShiftInPlace(rows, moves);
        }
        forall p | 0 <= p < low && p < rows.Length ensures rows[p] == old(rows[p]) {
          UntouchedBelow(old(rows[..]), moves, p);
          assert rows[p] == rows[..][p];
        }
      } else {
        Garble(rows, moves, low);
      }
    }

    // ---------------------------------------------------------------- bookkeeping

    /** `fed_ids_sync`: tokens without a row are forgotten. */
    method Sync()
      requires Valid()
      modifies this`fed
      ensures Valid() && fed == old(fed)[..nPos]
    {
      if |fed| > nPos {
        fed := fed[..nPos];
      }
    }

    function Clamped(pos: int): nat
      reads this`nPos
    {
      if pos < 0 then 0 else if pos < nPos then pos else nPos
    }

    /** Rows from `pos` on may have been overwritten; they are given up. */
    method Rewind(pos: int)
      requires step > 0 && rows.Length == nCtx && nPos <= |fed| && nPos <= nCtx
      requires RowsAre(rows[..], fed[..Clamped(pos)])
      modifies this`fed, this`nPos
      ensures Valid() && nPos == |fed| == old(Clamped(pos)) && fed == old(fed)[..nPos]
    {
      var p := if pos < 0 then 0 else pos;
      if p > |fed| {
        p := |fed|;
      }
      if p > nPos {
        p := nPos;
      }
      fed := fed[..p];
      nPos := p;
    }

    // ---------------------------------------------------------------- feeding

    /** The rows of `tokens` follow the first `pos` rows. */
    ghost predicate RowsFrom(pos: nat, tokens: seq<int>)
      reads rows
    {
      pos + |tokens| <= rows.Length && forall p :: pos <= p < pos + |tokens| ==> rows[p] == Row(tokens[p - pos], p)
    }

    lemma RowsJoin(a: seq<int>, b: seq<int>)
      requires RowsAre(rows[..], a) && RowsFrom(|a|, b)
      ensures RowsAre(rows[..], a + b)
    {
    }

    /** One batch: the `size` tokens from `offset` on, behind the rows there are. */
    method ForwardBatch(tokens: seq<int>, pos: nat, offset: nat, size: nat) returns (st: Status)
      requires offset + size <= |tokens| && pos + |tokens| <= rows.Length && pos == |fed|
      requires RowsAre(rows[..], fed) && RowsFrom(pos, tokens[..offset])
      modifies this`faults, this`computed, rows
      ensures RowsAre(rows[..], fed) && RowsFrom(pos, tokens[..if st == Ok then offset + size else offset])
      ensures forall p :: 0 <= p < pos || pos + |tokens| <= p < rows.Length ==> rows[p] == old(rows[p])
      ensures faults == old(faults) + if st == Ok then 0 else 1
      ensures computed == old(computed) + if st == Ok then size else 0
    {
      st := Forward(tokens[offset..offset + size], pos + offset);
    }

    /** All of `tokens` is fed, or, after a failure or an interrupt, exactly the batches that went through. */
    method FeedTokensBatch(tokens: seq<int>) returns (rc: Outcome)
      requires Valid()
      modifies this`fed, this`nPos, this`faults, this`computed, rows
      ensures Valid()
      ensures faults >= old(faults) && nPos - old(nPos) == computed - old(computed)
      ensures forall p :: 0 <= p < old(nPos) || old(nPos) + |tokens| <= p < rows.Length ==> rows[p] == old(rows[p])
      ensures tokens == [] ==> rc == At(0) && fed == old(fed) && nPos == old(nPos)
      ensures tokens != [] && old(nPos) + |tokens| > nCtx ==>
        rc == Failed(InvalidArg) && fed == old(fed) && nPos == old(nPos)
      ensures tokens != [] && old(nPos) + |tokens| <= nCtx ==>
        && nPos == |fed| && old(fed[..nPos]) <= fed <= old(fed[..nPos]) + tokens
        && (rc.At? ==> rc.pos == nPos && fed == old(fed[..nPos]) + tokens)
        && (rc.Failed? ==> rc.st != InvalidArg && rc.st != Ok)
        && (rc.Failed? <==> faults > old(faults))
    {
      if |tokens| == 0 {
        return At(0);
      }
      if nPos + |tokens| > nCtx {
        return Failed(InvalidArg);
      }
      Sync();
      var pos := nPos;
      var scratchOk := Asks();
      if !scratchOk {
        return Failed(OutOfMemory);
      }
      var chunk := if step > |tokens| then |tokens| else step;
      var offset := 0;
      var status := Ok;
      hide RowsAre, RowsFrom;
      while offset < |tokens| && status == Ok
        invariant offset <= |tokens| && status != InvalidArg && pos == nPos == |fed| && fed == old(fed[..nPos])
        invariant RowsAre(rows[..], fed) && RowsFrom(pos, tokens[..offset])
        invariant forall p :: 0 <= p < pos || pos + |tokens| <= p < rows.Length ==> rows[p] == old(rows[p])
        invariant computed == old(computed) + offset && faults == old(faults) + if status == Ok then 0 else 1
        decreases |tokens| - offset, status == Ok
      {
        var goOn := Asks();
        if !goOn {
          status := Interrupted;
        } else {
          var size := if chunk < |tokens| - offset then chunk else |tokens| - offset;
          var st := ForwardBatch(tokens, pos, offset, size);
          if st == Ok {
            offset := offset + size;
          } else {
            status := if st == Interrupted then Interrupted else ComputeFail;
          }
        }
      }
      nPos := nPos + offset;
      RowsJoin(fed, tokens[..offset]);
      fed := fed + tokens[..offset];
      rc := if status == Ok then At(pos + |tokens|) else Failed(status);
    }

    /** `context_feed_token_inner`: one token is computed and noted, or nothing is. */
    method FeedToken(token: int) returns (rc: Outcome)
      requires Valid()
      modifies this`fed, this`nPos, this`faults, this`computed, rows
      ensures Valid()
      ensures nPos - old(nPos) == computed - old(computed)
      ensures forall p :: 0 <= p < rows.Length && p != old(nPos) ==> rows[p] == old(rows[p])
      ensures old(nPos) >= nCtx || !(0 <= token < vocab) ==>
        rc == Failed(InvalidArg) && fed == old(fed) && nPos == old(nPos) && faults == old(faults)
      ensures old(nPos) < nCtx && 0 <= token < vocab ==>
        if rc.At? then rc.pos == nPos == old(nPos) + 1 && fed == old(fed[..nPos]) + [token] && faults == old(faults)
        else rc.st in {Interrupted, ComputeFail} && nPos == old(nPos) && fed == old(fed[..nPos]) && faults > old(faults)
    {
      if nPos >= nCtx || token < 0 || token >= vocab {
        return Failed(InvalidArg);
      }
      Sync();
      var pos := nPos;
      var st := Forward([token], pos);
      if st == Interrupted {
        return Failed(Interrupted);
      }
      if st != Ok {
        return Failed(ComputeFail);
      }
      RowsJoin(fed, [token]);
      nPos := nPos + 1;
      fed := fed + [token];
      rc := At(pos + 1);
    }

    /** `context_feed_reg`: a token still in a device register is computed; it is not noted before it is read back. */
    method FeedReg(held: int) returns (rc: Outcome)
      requires Valid()
      modifies this`fed, this`nPos, this`faults, this`computed, rows
      ensures nPos - old(nPos) == computed - old(computed) && faults >= old(faults)
      ensures rc.Failed? && rc.st in {Interrupted, ComputeFail} <==> faults > old(faults)
      ensures forall p :: 0 <= p < rows.Length && p != old(nPos) ==> rows[p] == old(rows[p])
      ensures rc.At? ==> nPos == old(nPos) + 1 <= nCtx && rows.Length == nCtx && rows[old(nPos)] == Row(held, old(nPos))
      ensures rc.Failed? ==> nPos == old(nPos) && rc.st in {InvalidArg, Interrupted, Unsupported, ComputeFail}
      ensures rc == Failed(InvalidArg) <==> old(nPos) >= nCtx
      ensures fed == if old(nPos) >= nCtx then old(fed) else old(fed[..nPos])
    {
      if nPos >= nCtx {
        return Failed(InvalidArg);
      }
      Sync();
      var pos := nPos;
      var st := ForwardHeld(held, pos);
      if st == Interrupted || st == Unsupported {
        return Failed(st);
      }
      if st != Ok {
        return Failed(ComputeFail);
      }
      nPos := nPos + 1;
      rc := At(pos + 1);
    }

    /** A forward pass on the register's token; a device that does not support it has not failed. */
    method ForwardHeld(held: int, pos: nat) returns (st: Status)
      requires pos < rows.Length
      modifies this`faults, this`computed, rows
      ensures faults == old(faults) + if st in {Ok, Unsupported} then 0 else 1
      ensures computed == old(computed) + if st.Ok? then 1 else 0
      ensures forall p :: 0 <= p < rows.Length && p != pos ==> rows[p] == old(rows[p])
      ensures st.Ok? ==> rows[pos] == Row(held, pos)
    {
      st := *;
      var row: Row := *;
      rows[pos] := if st.Ok? then Row(held, pos) else row;
      faults := faults + if st in {Ok, Unsupported} then 0 else 1;
      computed := computed + if st.Ok? then 1 else 0;
    }

    /** The fed tokens are the prompt's first `nPos`. */
    ghost predicate Follows(ids: seq<int>)
      reads this, rows
    {
      Valid() && nPos == |fed| <= |ids| && fed == ids[..nPos]
    }

    /** The prompt is fed up to `upto`. */
    method FeedUpTo(ids: seq<int>, upto: nat) returns (rc: Outcome)
      requires Follows(ids) && nPos <= upto <= |ids|
      modifies this`fed, this`nPos, this`faults, this`computed, rows
      ensures Follows(ids)
      ensures faults >= old(faults) && nPos - old(nPos) == computed - old(computed)
      ensures rc.At? ==> nPos == upto
      ensures rc.Failed? ==> rc.st != Ok && if rc.st == InvalidArg then upto > nCtx else faults > old(faults)
      ensures forall p :: upto <= p < rows.Length ==> rows[p] == old(rows[p])
    {
      ghost var more := ids[nPos..upto];
      assert ids[..upto] == fed + more;
      assert fed + more <= ids;
      rc := FeedTokensBatch(ids[nPos..upto]);
    }

    /** A chunk whose rows are in place is only taken note of. */
    method TakeOver(ids: seq<int>, c: Chunk)
      requires Follows(ids) && c.dst == nPos && ChunkRows(rows[..], ids, c)
      modifies this`fed, this`nPos
      ensures Follows(ids) && nPos == c.dst + c.n
    {
      fed := fed + ids[c.dst..c.dst + c.n];
      nPos := c.dst + c.n;
      assert fed == ids[..nPos];
    }

    /** The part of the prompt not covered by the plan is fed; covered chunks are only taken note of. */
    method PrefillWithPlan(ids: seq<int>, plan: seq<Chunk>) returns (rc: Outcome, nFed: nat)
      requires Follows(ids) && Skippable(plan, rows[..], ids, nPos)
      modifies this`fed, this`nPos, this`faults, this`computed, rows
      ensures Follows(ids) && faults >= old(faults)
      ensures rc.At? ==> fed == ids && nFed + Reused(plan) == |ids| - old(nPos) && nFed == computed - old(computed)
      ensures rc.Failed? ==> rc.st != Ok && if rc.st == InvalidArg then |ids| > nCtx else faults > old(faults)
    {
      nFed := 0;
      ghost var base := nPos;
      for i := 0 to |plan|
        invariant Follows(ids)
        invariant Skippable(plan[i..], rows[..], ids, nPos)
        invariant nFed + Reused(plan[..i]) == nPos - base && nFed == computed - old(computed)
        invariant faults >= old(faults)
      {
        hide Follows;
        var c := plan[i];
        ghost var was := rows[..];
        ghost var ahead := plan[i + 1..];
        SkippableSplit(plan[i..], was, ids, nPos);
        assert plan[i..][1..] == ahead;
        assert Reused(plan[..i + 1]) == Reused(plan[..i]) + c.n by {
          assert plan[..i + 1][..i] == plan[..i];
        }
        if c.dst > nPos {
          var gap := c.dst - nPos;
          var part := FeedUpTo(ids, c.dst);
          if part.Failed? {
            return part, nFed;
          }
          nFed := nFed + gap;
        }
        SkippableKept(ahead, was, rows[..], ids, c.dst + c.n, c.dst);
        TakeOver(ids, c);
      }
      assert plan[..|plan|] == plan;
      var rest := |ids| - nPos;
      rc := FeedUpTo(ids, |ids|);
      nFed := nFed + rest;
    }

    /** The moves of a plan are made, if there are any. */
    method ShiftPlan(ids: seq<int>, plan: seq<Chunk>, reuse: nat) returns (ok: bool)
      requires RowsAre(rows[..], fed) && reuse <= |fed|
      requires plan == PlanFrom(fed, ids, reuse, reuse, SHIFT_MAX_CHUNKS)
      modifies this`faults, rows
      ensures RowsAre(rows[..], fed[..reuse])
      ensures faults == old(faults) + if ok then 0 else 1
      ensures ok ==> Skippable(plan, rows[..], ids, reuse)
    {
      hide *;
      ghost var was := rows[..];
      PlanMoves(was, fed, ids, plan, reuse);
      RowsPrefix(was, was, fed, reuse);
      var moves := CollectMoves(plan);
      ok := true;
      if |moves| > 0 {
        ok := Shift(moves, reuse);
        RowsPrefix(was, rows[..], fed, reuse);
      } else {
        NoMoves(was, moves);
      }
    }

    /** Rows past the common prefix are moved where the prompt needs them. */
    method MoveReusable(ids: seq<int>, reuse: nat) returns (plan: seq<Chunk>)
      requires Valid() && nPos == |fed| && reuse <= |fed| && reuse <= |ids| && fed[..reuse] == ids[..reuse]
      modifies this`faults, rows
      ensures rows.Length == nCtx && Skippable(plan, rows[..], ids, reuse)
      ensures RowsAre(rows[..], fed[..reuse])
      ensures plan != [] ==> reuse + Reused(plan) < |ids|
      ensures faults >= old(faults) && (plan == [] || GreedyPlan(plan, fed, ids, reuse))
      ensures faults == old(faults) ==> GreedyPlan(plan, fed, ids, reuse)
    {
      assert fed[..nPos] == fed;
      assert rows.Length == nCtx && RowsAre(rows[..], fed);
      hide *;
      plan := BuildPlan(fed, ids, reuse);
      GreedyExactly(plan, fed, ids, reuse);
      PlanMoves(rows[..], fed, ids, plan, reuse);
      RowsPrefix(rows[..], rows[..], fed, reuse);
      if |plan| > 0 {
        var ok := ShiftPlan(ids, plan, reuse);
        if !ok {
          plan := [];
        }
      }
      NothingSkippable(rows[..], ids, reuse);
    }

    /** `context_reuse_prefix`: the session is cut back to the part of the prompt it already holds. */
    method ReusePrefix(ids: seq<int>) returns (reuse: nat, plan: seq<Chunk>)
      requires Valid() && nPos == |fed|
      modifies this`fed, this`nPos, this`faults, rows
      ensures Follows(ids) && nPos == reuse && Skippable(plan, rows[..], ids, reuse)
      ensures IsReuse(old(fed), ids, reuse) && faults >= old(faults)
      ensures plan == [] || (canShift && GreedyPlan(plan, old(fed), ids, reuse))
      ensures canShift && faults == old(faults) ==> GreedyPlan(plan, old(fed), ids, reuse)
      ensures reuse + Reused(plan) <= |ids|
      ensures reuse + Reused(plan) == |ids| <==> ids == [] || ids == old(fed)
    {
      plan := [];
      reuse := CommonPrefix(fed, ids);
      if |ids| > 0 && reuse == |ids| && reuse < |fed| {
        assert fed[..reuse - 1] == fed[..reuse][..reuse - 1] == ids[..reuse - 1];
        reuse := reuse - 1;
      }
      if reuse >= |fed| {
        NothingGreedy(fed, ids, reuse);
        return;
      }
      assert fed[..reuse] == fed[..nPos][..reuse];
      if canShift {
        plan := MoveReusable(ids, reuse);
      }
      Rewind(reuse);
    }

    /**
     After a prompt went in, the session holds exactly it, row by row; otherwise it holds a prefix of it.
     Something is always fed again, unless the prompt is empty or is what the session already held.
     */
    method PrefillPrompt(ids: seq<int>) returns (rc: Outcome, nFed: nat)
      requires Valid()
      modifies this`fed, this`nPos, this`faults, this`computed, rows
      ensures Valid() && nPos == |fed| && faults >= old(faults)
      ensures rc.At? ==> fed == ids && nPos == |ids| && forall p :: 0 <= p < |ids| ==> rows[p] == Row(ids[p], p)
      ensures rc.At? ==> nFed == computed - old(computed)
      ensures rc.At? ==> exists reuse: nat, plan ::
        IsReuse(old(fed[..nPos]), ids, reuse) && nFed == |ids| - reuse - Reused(plan)
        && (plan == [] || (canShift && GreedyPlan(plan, old(fed[..nPos]), ids, reuse)))
        && (canShift && faults == old(faults) ==> GreedyPlan(plan, old(fed[..nPos]), ids, reuse))
      ensures rc.At? ==> (nFed == 0 <==> ids == [] || ids == old(fed[..nPos]))
      ensures rc.Failed? ==> fed <= ids && rc.st != Ok
      ensures rc.Failed? ==> if rc.st == InvalidArg then |ids| > nCtx else faults > old(faults)
    {
      Sync();
      var reuse, plan := ReusePrefix(ids);
      rc, nFed := PrefillWithPlan(ids, plan);
    }
  }
}
