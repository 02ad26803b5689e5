/** Which cached rows a new prompt can take over after its common prefix with the cached tokens. */
module ReusePlan {
  import opened KvRows

  const SHIFT_MIN_CHUNK := 32
  const SHIFT_MAX_CHUNKS := 64

  /** How many tokens agree from `hc` in the cache and `hp` in the prompt on, the prompt's last token left out. */
  function MatchRun(fed: seq<int>, ids: seq<int>, hc: nat, hp: nat): nat
    decreases |fed| - hc
  {
    if hc < |fed| && hp < |ids| - 1 && fed[hc] == ids[hp] then 1 + MatchRun(fed, ids, hc + 1, hp + 1) else 0
  }

  /** The chunks found from the two heads on, at most `room` of them. */
  function PlanFrom(fed: seq<int>, ids: seq<int>, hc: nat, hp: nat, room: nat): seq<Chunk>
    decreases |fed| - hc
  {
    if hc < |fed| && hp < |ids| - 1 && room > 0 then
      var m := MatchRun(fed, ids, hc, hp);
      if m < SHIFT_MIN_CHUNK then PlanFrom(fed, ids, hc + 1, hp, room)
      else [Chunk(hc, hp, m)] + PlanFrom(fed, ids, hc + m, hp + m, room - 1)
    else []
  }

  /** A run is in bounds, equal on both sides, and cannot be longer. */
  lemma {:induction false} MatchRunExact(fed: seq<int>, ids: seq<int>, hc: nat, hp: nat)
    ensures var m := MatchRun(fed, ids, hc, hp);
      && (m > 0 ==> hc + m <= |fed| && hp + m < |ids| && fed[hc..hc + m] == ids[hp..hp + m])
      && (hc + m < |fed| && hp + m < |ids| - 1 ==> fed[hc + m] != ids[hp + m])
    decreases |fed| - hc
  {
    if hc < |fed| && hp < |ids| - 1 && fed[hc] == ids[hp] {
      MatchRunExact(fed, ids, hc + 1, hp + 1);
      var m := MatchRun(fed, ids, hc + 1, hp + 1);
      assert fed[hc..hc + 1 + m] == [fed[hc]] + fed[hc + 1..hc + 1 + m];
      assert ids[hp..hp + 1 + m] == [ids[hp]] + ids[hp + 1..hp + 1 + m];
    }
  }

  predicate SameTokens(fed: seq<int>, ids: seq<int>, c: Chunk) {
    && c.src + c.n <= |fed| && c.dst + c.n < |ids|
    && fed[c.src..c.src + c.n] == ids[c.dst..c.dst + c.n]
  }

  /** The chunks' targets cover the prompt from `hp` on without a gap, each with equal tokens from further up. */
  ghost predicate Tiles(plan: seq<Chunk>, fed: seq<int>, ids: seq<int>, hc: nat, hp: nat) {
    && Marching(plan)
    && (forall i :: 0 <= i < |plan| ==>
          SameTokens(fed, ids, plan[i]) && plan[i].n >= SHIFT_MIN_CHUNK && plan[i].src >= hc)
    && (|plan| > 0 ==> plan[0].dst == hp)
    && (forall i, j :: 0 <= i && j == i + 1 < |plan| ==> plan[j].dst == plan[i].dst + plan[i].n)
  }

  /** Every plan tiles the prompt from the reuse point on, within the table of chunks. */
  lemma {:induction false} PlanTiles(fed: seq<int>, ids: seq<int>, hc: nat, hp: nat, room: nat)
    requires hp <= hc
    ensures Tiles(PlanFrom(fed, ids, hc, hp, room), fed, ids, hc, hp)
    ensures |PlanFrom(fed, ids, hc, hp, room)| <= room
    decreases |fed| - hc
  {
    hide Tiles, MatchRun;
    NoTiles(fed, ids, hc, hp);
    if hc < |fed| && hp < |ids| - 1 && room > 0 {
      var m := MatchRun(fed, ids, hc, hp);
      MatchRunExact(fed, ids, hc, hp);
      if m < SHIFT_MIN_CHUNK {
        PlanTiles(fed, ids, hc + 1, hp, room);
        TilesFurther(PlanFrom(fed, ids, hc + 1, hp, room), fed, ids, hc, hp);
      } else {
        PlanTiles(fed, ids, hc + m, hp + m, room - 1);
        TilesCons(Chunk(hc, hp, m), PlanFrom(fed, ids, hc + m, hp + m, room - 1), fed, ids);
      }
    }
  }

  lemma NoTiles(fed: seq<int>, ids: seq<int>, hc: nat, hp: nat)
    ensures Tiles([], fed, ids, hc, hp)
  {
  }

  lemma TilesFurther(plan: seq<Chunk>, fed: seq<int>, ids: seq<int>, hc: nat, hp: nat)
    requires Tiles(plan, fed, ids, hc + 1, hp)
    ensures Tiles(plan, fed, ids, hc, hp)
  {
    hide SameTokens, Marching;
  }

  lemma TilesCons(c: Chunk, rest: seq<Chunk>, fed: seq<int>, ids: seq<int>)
    requires c.dst <= c.src && SameTokens(fed, ids, c) && c.n >= SHIFT_MIN_CHUNK
    requires Tiles(rest, fed, ids, c.src + c.n, c.dst + c.n)
    ensures Tiles([c] + rest, fed, ids, c.src, c.dst)
  {
    hide SameTokens;
    TilesDst(rest, fed, ids, c.src + c.n, c.dst + c.n);
    var plan := [c] + rest;
    assert forall i :: 1 <= i < |plan| ==> plan[i] == rest[i - 1];
  }

  lemma TilesDst(plan: seq<Chunk>, fed: seq<int>, ids: seq<int>, hc: nat, hp: nat)
    requires Tiles(plan, fed, ids, hc, hp)
    ensures forall i :: 0 <= i < |plan| ==> plan[i].dst >= hp
    ensures Within(plan, |fed|)
  {
    forall i | 0 <= i < |plan| ensures plan[i].dst >= hp {
      if i > 0 {
        assert plan[0].dst + plan[0].n <= plan[i].dst;
      }
    }
  }

  /** No run long enough is passed over: between one chunk's source and the next, every run is short. */
  lemma {:induction false} PlanGreedy(fed: seq<int>, ids: seq<int>, hc: nat, hp: nat, room: nat, c: nat)
    requires hp < |ids| - 1 && room > 0 && hc <= c < |fed|
    requires var plan := PlanFrom(fed, ids, hc, hp, room); plan == [] || c < plan[0].src
    ensures MatchRun(fed, ids, c, hp) < SHIFT_MIN_CHUNK
    decreases |fed| - hc
  {
    if MatchRun(fed, ids, hc, hp) < SHIFT_MIN_CHUNK && hc < c {
      PlanGreedy(fed, ids, hc + 1, hp, room, c);
    }
  }

  // ---------------------------------------------------------------- which plan it is

  /** A run worth moving starts at these places. */
  predicate LongRun(fed: seq<int>, ids: seq<int>, hc: nat, hp: nat) {
    && hc + SHIFT_MIN_CHUNK <= |fed| && hp + SHIFT_MIN_CHUNK < |ids|
    && fed[hc..hc + SHIFT_MIN_CHUNK] == ids[hp..hp + SHIFT_MIN_CHUNK]
  }

  /** A run worth moving that cannot be longer, the first one for its target from `hc` on. */
  ghost predicate FirstRun(fed: seq<int>, ids: seq<int>, hc: nat, hp: nat, c: Chunk) {
    && c.dst == hp && hc <= c.src && c.n >= SHIFT_MIN_CHUNK && SameTokens(fed, ids, c)
    && (c.src + c.n < |fed| && c.dst + c.n < |ids| - 1 ==> fed[c.src + c.n] != ids[c.dst + c.n])
    && forall k :: hc <= k < c.src ==> !LongRun(fed, ids, k, hp)
  }

  /** Chunk after chunk is the first long run behind the one before, until there is none or the table is full. */
  ghost predicate GreedyFrom(plan: seq<Chunk>, fed: seq<int>, ids: seq<int>, hc: nat, hp: nat, room: nat) {
    if room == 0 then plan == []
    else if plan == [] then forall k: nat :: hc <= k ==> !LongRun(fed, ids, k, hp)
    else
      var c := plan[0];
      FirstRun(fed, ids, hc, hp, c) && GreedyFrom(plan[1..], fed, ids, c.src + c.n, c.dst + c.n, room - 1)
  }

  ghost predicate GreedyPlan(plan: seq<Chunk>, fed: seq<int>, ids: seq<int>, reuse: nat) {
    GreedyFrom(plan, fed, ids, reuse, reuse, SHIFT_MAX_CHUNKS)
  }

  lemma SameAt(fed: seq<int>, ids: seq<int>, hc: nat, hp: nat, n: nat)
    requires hc + n <= |fed| && hp + n <= |ids| && fed[hc..hc + n] == ids[hp..hp + n]
    ensures forall k :: hc <= k < hc + n ==> fed[k] == ids[hp + (k - hc)]
  {
    forall k | hc <= k < hc + n ensures fed[k] == ids[hp + (k - hc)] {
      assert fed[hc..hc + n][k - hc] == ids[hp..hp + n][k - hc];
    }
  }

  lemma LongIs(fed: seq<int>, ids: seq<int>, hc: nat, hp: nat)
    ensures LongRun(fed, ids, hc, hp) <==> MatchRun(fed, ids, hc, hp) >= SHIFT_MIN_CHUNK
  {
    MatchRunExact(fed, ids, hc, hp);
    hide MatchRun;
    var m := MatchRun(fed, ids, hc, hp);
    if LongRun(fed, ids, hc, hp) {
      SameAt(fed, ids, hc, hp, SHIFT_MIN_CHUNK);
    }
    if m >= SHIFT_MIN_CHUNK {
      SameAt(fed, ids, hc, hp, m);
      assert fed[hc..hc + SHIFT_MIN_CHUNK] == ids[hp..hp + SHIFT_MIN_CHUNK];
    }
  }

  /** A run that cannot be longer is all that matches. */
  lemma RunIs(fed: seq<int>, ids: seq<int>, hc: nat, hp: nat, c: Chunk)
    requires FirstRun(fed, ids, hc, hp, c)
    ensures c.n == MatchRun(fed, ids, c.src, c.dst) && LongRun(fed, ids, c.src, c.dst)
  {
    MatchRunExact(fed, ids, c.src, c.dst);
    hide MatchRun;
    SameAt(fed, ids, c.src, c.dst, c.n);
    var m := MatchRun(fed, ids, c.src, c.dst);
    if m > 0 {
      SameAt(fed, ids, c.src, c.dst, m);
    }
    LongIs(fed, ids, c.src, c.dst);
  }

  lemma MatchIsFirst(fed: seq<int>, ids: seq<int>, hc: nat, hp: nat)
    requires MatchRun(fed, ids, hc, hp) >= SHIFT_MIN_CHUNK
    ensures FirstRun(fed, ids, hc, hp, Chunk(hc, hp, MatchRun(fed, ids, hc, hp)))
  {
    MatchRunExact(fed, ids, hc, hp);
    hide MatchRun, LongRun;
  }

  /** A place no long run starts at can be passed over. */
  lemma PassOver(plan: seq<Chunk>, fed: seq<int>, ids: seq<int>, hc: nat, hp: nat, room: nat)
    requires !LongRun(fed, ids, hc, hp)
    ensures GreedyFrom(plan, fed, ids, hc, hp, room) <==> GreedyFrom(plan, fed, ids, hc + 1, hp, room)
  {
    hide LongRun, SameTokens;
    if room > 0 && plan != [] && FirstRun(fed, ids, hc, hp, plan[0]) {
      RunIs(fed, ids, hc, hp, plan[0]);
    }
  }

  /** A long run is where the plan goes on. */
  lemma TakeRun(plan: seq<Chunk>, fed: seq<int>, ids: seq<int>, hc: nat, hp: nat, room: nat)
    requires LongRun(fed, ids, hc, hp) && room > 0
    ensures var m := MatchRun(fed, ids, hc, hp);
      GreedyFrom(plan, fed, ids, hc, hp, room) <==>
        && plan != [] && plan[0] == Chunk(hc, hp, m)
        && GreedyFrom(plan[1..], fed, ids, hc + m, hp + m, room - 1)
  {
    LongIs(fed, ids, hc, hp);
    MatchIsFirst(fed, ids, hc, hp);
    hide LongRun, SameTokens, MatchRun;
    if plan != [] && FirstRun(fed, ids, hc, hp, plan[0]) {
      RunIs(fed, ids, hc, hp, plan[0]);
    }
  }

  lemma NoMoreRuns(plan: seq<Chunk>, fed: seq<int>, ids: seq<int>, hc: nat, hp: nat, room: nat)
    requires hc >= |fed| || hp >= |ids| - 1
    ensures GreedyFrom(plan, fed, ids, hc, hp, room) <==> plan == []
  {
  }

  lemma PlanStep(fed: seq<int>, ids: seq<int>, hc: nat, hp: nat, room: nat)
    requires hc < |fed| && hp < |ids| - 1 && room > 0
    ensures var m := MatchRun(fed, ids, hc, hp);
      PlanFrom(fed, ids, hc, hp, room) ==
        if m < SHIFT_MIN_CHUNK then PlanFrom(fed, ids, hc + 1, hp, room)
        else [Chunk(hc, hp, m)] + PlanFrom(fed, ids, hc + m, hp + m, room - 1)
  {
    hide MatchRun;
  }

  lemma ConsIs(plan: seq<Chunk>, c: Chunk, rest: seq<Chunk>)
    ensures plan == [c] + rest <==> plan != [] && plan[0] == c && plan[1..] == rest
  {
    if plan != [] {
      assert plan == [plan[0]] + plan[1..];
      assert ([c] + rest)[1..] == rest;
    }
  }

  /** The loop's plan is the greedy one, and there is only one. */
  lemma {:induction false} GreedyIs(plan: seq<Chunk>, fed: seq<int>, ids: seq<int>, hc: nat, hp: nat, room: nat)
    ensures GreedyFrom(plan, fed, ids, hc, hp, room) <==> plan == PlanFrom(fed, ids, hc, hp, room)
    decreases |fed| - hc
  {
    if hc >= |fed| || hp >= |ids| - 1 {
      NoMoreRuns(plan, fed, ids, hc, hp, room);
    } else if room > 0 {
      hide LongRun, MatchRun, GreedyFrom, PlanFrom;
      LongIs(fed, ids, hc, hp);
      PlanStep(fed, ids, hc, hp, room);
      var m := MatchRun(fed, ids, hc, hp);
      if m < SHIFT_MIN_CHUNK {
        PassOver(plan, fed, ids, hc, hp, room);
        GreedyIs(plan, fed, ids, hc + 1, hp, room);
      } else {
        TakeRun(plan, fed, ids, hc, hp, room);
        ConsIs(plan, Chunk(hc, hp, m), PlanFrom(fed, ids, hc + m, hp + m, room - 1));
        if plan != [] {
          GreedyIs(plan[1..], fed, ids, hc + m, hp + m, room - 1);
        }
      }
    }
  }

  lemma GreedyExactly(plan: seq<Chunk>, fed: seq<int>, ids: seq<int>, reuse: nat)
    ensures GreedyPlan(plan, fed, ids, reuse) <==> plan == PlanFrom(fed, ids, reuse, reuse, SHIFT_MAX_CHUNKS)
  {
    GreedyIs(plan, fed, ids, reuse, reuse, SHIFT_MAX_CHUNKS);
  }

  lemma NothingGreedy(fed: seq<int>, ids: seq<int>, reuse: nat)
    requires reuse >= |fed|
    ensures GreedyPlan([], fed, ids, reuse)
  {
  }

  // ---------------------------------------------------------------- the rows after the moves

  /** The chunks that have to move at all. */
  function Moves(plan: seq<Chunk>): seq<Chunk> {
    if plan == [] then []
    else
      var last := plan[|plan| - 1];
      Moves(plan[..|plan| - 1]) + if last.src != last.dst then [last] else []
  }

  lemma {:induction false} MovesAre(plan: seq<Chunk>)
    ensures forall c :: c in Moves(plan) <==> c in plan && c.src != c.dst
  {
    if plan != [] {
      var front, last := plan[..|plan| - 1], plan[|plan| - 1];
      MovesAre(front);
      forall c ensures c in plan <==> c in front || c == last {
        assert plan == front + [last];
      }
    }
  }

  predicate Precedes(a: Chunk, b: Chunk) {
    a.src + a.n <= b.src && a.dst + a.n <= b.dst
  }

  lemma MarchOn(front: seq<Chunk>, last: Chunk)
    requires Marching(front) && last.dst <= last.src
    requires forall c :: c in front ==> Precedes(c, last)
    ensures Marching(front + [last])
  {
    assert forall i :: 0 <= i < |front| ==> front[i] in front;
  }

  lemma MarchBack(plan: seq<Chunk>)
    requires Marching(plan) && plan != []
    ensures var front, last := plan[..|plan| - 1], plan[|plan| - 1];
      Marching(front) && last.dst <= last.src && forall c :: c in front ==> Precedes(c, last)
  {
  }

  lemma {:induction false} MovesMarch(plan: seq<Chunk>)
    requires Marching(plan)
    ensures Marching(Moves(plan))
  {
    hide Precedes;
    if plan == [] {
      assert Moves(plan) == plan;
    } else {
      var front, last := plan[..|plan| - 1], plan[|plan| - 1];
      MarchBack(plan);
      hide Marching;
      MovesMarch(front);
      MovesAre(front);
      if last.src != last.dst {
        MarchOn(Moves(front), last);
      } else {
        assert Moves(front) + [] == Moves(front);
      }
    }
  }

  lemma MovesWithin(plan: seq<Chunk>, len: nat)
    requires Within(plan, len)
    ensures Within(Moves(plan), len)
  {
    MovesAre(plan);
    forall k | 0 <= k < |Moves(plan)|
      ensures Moves(plan)[k].src + Moves(plan)[k].n <= len && Moves(plan)[k].dst + Moves(plan)[k].n <= len
    {
      assert Moves(plan)[k] in Moves(plan);
      var j :| 0 <= j < |plan| && plan[j] == Moves(plan)[k];
    }
  }

  predicate RowsAre(rows: seq<Row>, tokens: seq<int>) {
    |tokens| <= |rows| && forall p :: 0 <= p < |tokens| ==> rows[p] == Row(tokens[p], p)
  }

  /** The chunk's target rows are those of the prompt. */
  predicate ChunkRows(rows: seq<Row>, ids: seq<int>, c: Chunk) {
    && c.dst + c.n <= |rows| && c.dst + c.n <= |ids|
    && forall p :: c.dst <= p < c.dst + c.n ==> rows[p] == Row(ids[p], p)
  }

  lemma MovedRow(rows: seq<Row>, fed: seq<int>, ids: seq<int>, plan: seq<Chunk>, i: nat, p: nat)
    requires RowsAre(rows, fed) && i < |plan| && Marching(plan)
    requires Marching(Moves(plan)) && Within(Moves(plan), |rows|)
    requires SameTokens(fed, ids, plan[i]) && plan[i].dst <= p < plan[i].dst + plan[i].n
    ensures FromSnapshot(rows, Moves(plan))[p] == Row(ids[p], p)
  {
    hide FromSnapshot, Moves, Marching, Within;
    var c := plan[i];
    var moves := Moves(plan);
    assert plan[i].dst <= plan[i].src by {
      MarchAt(plan, i);
    }
    SnapshotRow(rows, moves, p);
    assert fed[c.src + (p - c.dst)] == ids[p] by {
      assert fed[c.src..c.src + c.n][p - c.dst] == ids[c.dst..c.dst + c.n][p - c.dst];
    }
    MovesAre(plan);
    if c.src != c.dst {
      assert c in moves;
      var k :| 0 <= k < |moves| && moves[k] == c;
    } else {
      StaysPut(plan, i, p, moves);
    }
  }

  lemma MarchAt(plan: seq<Chunk>, i: nat)
    requires Marching(plan) && i < |plan|
    ensures plan[i].dst <= plan[i].src
  {
  }

  lemma StaysPut(plan: seq<Chunk>, i: nat, p: nat, moves: seq<Chunk>)
    requires Marching(plan) && i < |plan| && plan[i].dst <= p < plan[i].dst + plan[i].n && plan[i].src == plan[i].dst
    requires forall c :: c in moves ==> c in plan && c.src != c.dst
    ensures forall k :: 0 <= k < |moves| ==> !(moves[k].dst <= p < moves[k].dst + moves[k].n)
  {
    forall k | 0 <= k < |moves| ensures !(moves[k].dst <= p < moves[k].dst + moves[k].n) {
      assert moves[k] in plan;
      var j :| 0 <= j < |plan| && plan[j] == moves[k];
      assert j != i;
    }
  }

  lemma RowBelow(rows: seq<Row>, plan: seq<Chunk>, reuse: nat, p: nat)
    requires Marching(Moves(plan)) && Within(Moves(plan), |rows|) && p < reuse && p < |rows|
    requires forall i :: 0 <= i < |plan| ==> plan[i].dst >= reuse
    ensures FromSnapshot(rows, Moves(plan))[p] == rows[p]
  {
    hide FromSnapshot, Moves;
    MovesAre(plan);
    if |Moves(plan)| > 0 {
      assert Moves(plan)[0] in Moves(plan);
      var j :| 0 <= j < |plan| && plan[j] == Moves(plan)[0];
    }
    UntouchedBelow(rows, Moves(plan), p);
  }

  /** After the moves every chunk holds the prompt's rows, and nothing below the reuse point has changed. */
  lemma MovedRows(rows: seq<Row>, fed: seq<int>, ids: seq<int>, plan: seq<Chunk>, reuse: nat)
    requires RowsAre(rows, fed) && Tiles(plan, fed, ids, reuse, reuse)
    ensures Within(Moves(plan), |rows|) && Marching(Moves(plan))
    ensures var r := FromSnapshot(rows, Moves(plan));
      && (forall i :: 0 <= i < |plan| ==> ChunkRows(r, ids, plan[i]))
      && (forall p :: 0 <= p < reuse && p < |rows| ==> r[p] == rows[p])
  {
    hide FromSnapshot, Moves, Marching;
    MovesMarch(plan);
    TilesDst(plan, fed, ids, reuse, reuse);
    assert Within(plan, |rows|);
    hide Within;
    MovesWithin(plan, |rows|);
    var r := FromSnapshot(rows, Moves(plan));
    forall i | 0 <= i < |plan| ensures ChunkRows(r, ids, plan[i]) {
      assert SameTokens(fed, ids, plan[i]);
      forall p | plan[i].dst <= p < plan[i].dst + plan[i].n ensures r[p] == Row(ids[p], p) {
        MovedRow(rows, fed, ids, plan, i, p);
      }
    }
    forall p: nat | p < reuse && p < |rows| ensures r[p] == rows[p] {
      RowBelow(rows, plan, reuse, p);
    }
  }

  // ---------------------------------------------------------------- the loops

  method CommonPrefix(fed: seq<int>, ids: seq<int>) returns (reuse: nat)
    ensures reuse <= |fed| && reuse <= |ids| && fed[..reuse] == ids[..reuse]
    ensures reuse < |fed| && reuse < |ids| ==> fed[reuse] != ids[reuse]
  {
    var most := if |fed| < |ids| then |fed| else |ids|;
    reuse := 0;
    while reuse < most && fed[reuse] == ids[reuse]
      invariant reuse <= most && fed[..reuse] == ids[..reuse]
    {
      reuse := reuse + 1;
    }
  }

  method Match(fed: seq<int>, ids: seq<int>, hc: nat, hp: nat) returns (matched: nat)
    ensures matched == MatchRun(fed, ids, hc, hp)
  {
    matched := 0;
    while hc + matched < |fed| && hp + matched < |ids| - 1 && fed[hc + matched] == ids[hp + matched]
      invariant matched + MatchRun(fed, ids, hc + matched, hp + matched) == MatchRun(fed, ids, hc, hp)
      decreases |fed| - hc - matched
    {
      matched := matched + 1;
    }
  }

  method BuildPlan(fed: seq<int>, ids: seq<int>, reuse: nat) returns (plan: seq<Chunk>)
    ensures plan == PlanFrom(fed, ids, reuse, reuse, SHIFT_MAX_CHUNKS)
  {
    plan := [];
    var hc: nat, hp: nat := reuse, reuse;
    while hc < |fed| && hp < |ids| - 1 && |plan| < SHIFT_MAX_CHUNKS
      invariant |plan| <= SHIFT_MAX_CHUNKS
      invariant plan + PlanFrom(fed, ids, hc, hp, SHIFT_MAX_CHUNKS - |plan|)
             == PlanFrom(fed, ids, reuse, reuse, SHIFT_MAX_CHUNKS)
      decreases |fed| - hc
    {
      var matched := Match(fed, ids, hc, hp);
      if matched < SHIFT_MIN_CHUNK {
        hc := hc + 1;
        continue;
      }
      ghost var rest := PlanFrom(fed, ids, hc + matched, hp + matched, SHIFT_MAX_CHUNKS - |plan| - 1);
      assert plan + ([Chunk(hc, hp, matched)] + rest) == plan + [Chunk(hc, hp, matched)] + rest;
      plan := plan + [Chunk(hc, hp, matched)];
      hc := hc + matched;
      hp := hp + matched;
    }
  }

  method CollectMoves(plan: seq<Chunk>) returns (moves: seq<Chunk>)
    ensures moves == Moves(plan)
  {
    moves := [];
    for i := 0 to |plan|
      invariant moves == Moves(plan[..i])
    {
      assert plan[..i + 1][..i] == plan[..i];
      if plan[i].src != plan[i].dst {
        moves := moves + [plan[i]];
      }
    }
    assert plan[..|plan|] == plan;
  }
}
