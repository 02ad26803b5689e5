/** The KV cache spread over devices: which device holds which layer's slot, and how a row reaches all of them. */
module KvReplicas {
  import opened KvRows

  const MAX_MIRRORS := 7

  datatype Status = Ok | InvalidArg | Unsupported | Failed

  // ---------------------------------------------------------------- devices and slots

  /** Device 0 is the primary backend, device `i + 1` the `i`-th mirror; -1 for a backend that is neither. */
  function DeviceOf(primary: nat, mirrors: seq<nat>, b: nat): (d: int)
    ensures -1 <= d <= |mirrors|
    ensures d > 0 ==> mirrors[d - 1] == b
    ensures d == 0 <==> b == primary
    ensures d < 0 ==> b != primary && b !in mirrors
  {
    if b == primary then 0 else MirrorOf(mirrors, b)
  }

  function MirrorOf(mirrors: seq<nat>, b: nat): (d: int)
    ensures d == -1 || 1 <= d <= |mirrors|
    ensures d > 0 ==> mirrors[d - 1] == b
    ensures d < 0 ==> b !in mirrors
  {
    if mirrors == [] then -1
    else
      var front := MirrorOf(mirrors[..|mirrors| - 1], b);
      if front > 0 then front else if mirrors[|mirrors| - 1] == b then |mirrors| else -1
  }

  /** A further mirror does not renumber the devices there are. */
  lemma DeviceOfGrows(primary: nat, mirrors: seq<nat>, b: nat, more: nat)
    requires DeviceOf(primary, mirrors, b) >= 0
    ensures DeviceOf(primary, mirrors + [more], b) == DeviceOf(primary, mirrors, b)
  {
    assert (mirrors + [more])[..|mirrors|] == mirrors;
  }

  lemma DeviceOfNew(primary: nat, mirrors: seq<nat>, b: nat)
    requires DeviceOf(primary, mirrors, b) < 0
    ensures DeviceOf(primary, mirrors + [b], b) == |mirrors| + 1
  {
    assert (mirrors + [b])[..|mirrors|] == mirrors;
  }

  /** How many slots device `dev` holds among the layers below `layer`. */
  function Rank(holders: seq<set<nat>>, dev: nat, layer: nat): nat
    requires layer <= |holders|
  {
    if layer == 0 then 0 else Rank(holders, dev, layer - 1) + if dev in holders[layer - 1] then 1 else 0
  }

  /** Slots are numbered in layer order, without gaps and without sharing. */
  lemma {:induction false} RankGrows(holders: seq<set<nat>>, dev: nat, i: nat, j: nat)
    requires i <= j <= |holders|
    ensures Rank(holders, dev, i) <= Rank(holders, dev, j) <= Rank(holders, dev, i) + (j - i)
    ensures i < j && dev in holders[i] ==> Rank(holders, dev, i) < Rank(holders, dev, j)
    decreases j
  {
    if i < j {
      if i < j - 1 {
        RankGrows(holders, dev, i, j - 1);
      }
    }
  }

  lemma {:induction false} RankHeld(holders: seq<set<nat>>, dev: nat, n: nat)
    requires n <= |holders|
    ensures Rank(holders, dev, n) > 0 <==> exists l :: 0 <= l < n && dev in holders[l]
    decreases n
  {
    if n > 0 {
      RankHeld(holders, dev, n - 1);
    }
  }

  /** `kvcache_slot_remap`: -1 for a layer the device does not hold. */
  function Remap(holders: seq<set<nat>>, dev: nat): (r: seq<int>)
    ensures |r| == |holders|
    ensures forall l :: 0 <= l < |r| ==> r[l] == if dev in holders[l] then Rank(holders, dev, l) else -1
  {
    seq(|holders|, l requires 0 <= l < |holders| => if dev in holders[l] then Rank(holders, dev, l) else -1)
  }

  method SlotRemap(holders: seq<set<nat>>, dev: nat) returns (remap: seq<int>, n: nat)
    ensures remap == Remap(holders, dev) && n == Rank(holders, dev, |holders|)
  {
    remap := [];
    n := 0;
    for l := 0 to |holders|
      invariant |remap| == l && n == Rank(holders, dev, l)
      invariant forall k :: 0 <= k < l ==> remap[k] == Remap(holders, dev)[k]
    {
      if dev in holders[l] {
        remap := remap + [n];
        n := n + 1;
      } else {
        remap := remap + [-1];
      }
    }
  }

  /** Two layers held by a device never share a slot, and all slots are below the device's count. */
  lemma SlotsApart(holders: seq<set<nat>>, dev: nat, i: nat, j: nat)
    requires i < j < |holders| && dev in holders[i] && dev in holders[j]
    ensures 0 <= Remap(holders, dev)[i] < Remap(holders, dev)[j] < Rank(holders, dev, |holders|)
  {
    RankGrows(holders, dev, i, j);
    RankGrows(holders, dev, j, |holders|);
  }

  datatype View = View(slot: int, mapped: bool)

  class KvCache {
    const nLayers: nat
    const nKvLayers: nat
    const nCtx: nat
    const primary: nat
    const layerBackend: seq<nat>   // the backend a layer runs on
    const kvLayer: seq<int>        // the layer whose slot a layer attends to
    const stored: Row -> Row       // what any backend keeps of a row
    const cells: array3<Row>       // by device, slot and position
    var mirrors: seq<nat>
    var holders: seq<set<nat>>     // per slot, the devices that hold it
    var remaps: seq<seq<int>>      // per device; the primary's is empty when it holds no slot
    var stage: Row                 // the host staging buffer
    var native: seq<Row>           // rows in the devices' own format, between an export and an import
    ghost var refused: seq<Status> // what backends answered when they did not do as asked

    ghost predicate Shape()
      reads this`mirrors
    {
      && |layerBackend| == |kvLayer| == nLayers && |mirrors| <= MAX_MIRRORS
      && cells.Length0 == MAX_MIRRORS + 1 && cells.Length1 == nLayers && cells.Length2 == nCtx
    }

    constructor (nKvLayers: nat, nCtx: nat, primary: nat, layerBackend: seq<nat>, kvLayer: seq<int>,
                 stored: Row -> Row)
      requires |layerBackend| == |kvLayer|
      ensures Shape() && mirrors == [] && holders == [] && fresh(cells)
      ensures this.layerBackend == layerBackend && this.kvLayer == kvLayer && this.nKvLayers == nKvLayers
    {
      this.nLayers, this.nKvLayers, this.nCtx, this.primary := |layerBackend|, nKvLayers, nCtx, primary;
      this.layerBackend, this.kvLayer, this.stored := layerBackend, kvLayer, stored;
      cells := new Row[MAX_MIRRORS + 1, |layerBackend|, nCtx];
      mirrors, holders, remaps, stage, native, refused := [], [], [], Row(0, 0), [], [];
    }

    /** A failure is the answer of the backend asked last; a backend that refuses may have been worked around. */
    ghost predicate Answered(before: seq<Status>, st: Status)
      reads this`refused
    {
      before <= refused && (st.Ok? || (|refused| > |before| && refused[|refused| - 1] == st))
    }

    /** A backend does as it is asked, or does not. */
    method Ask() returns (st: Status)
      modifies this`refused
      ensures Answered(old(refused), st)
    {
      st := *;
      if st != Ok {
        refused := refused + [st];
      }
    }

    function Device(b: nat): int
      reads this`mirrors
    {
      DeviceOf(primary, mirrors, b)
    }

    /** Layer `i` makes its device hold the slot it attends to, and its own. */
    predicate Uses(i: nat, slot: nat)
      requires i < |kvLayer|
    {
      kvLayer[i] == slot || (i == slot && i < nKvLayers)
    }

    /** The first `n` layers are accounted for, and no device holds a slot for any other reason. */
    ghost predicate Mapped(n: nat)
      reads this`mirrors, this`holders
    {
      && Shape() && |holders| == nLayers && n <= nLayers
      && (forall i :: 0 <= i < n ==> Device(layerBackend[i]) >= 0)
      && (forall slot, d :: 0 <= slot < nLayers ==>
            (d in holders[slot] <==> exists i :: 0 <= i < n && Uses(i, slot) && Device(layerBackend[i]) == d))
    }

    method Register(b: nat) returns (dev: int)
      requires Shape()
      modifies this`mirrors
      ensures Shape() && dev == Device(b)
      ensures forall c :: old(Device(c)) >= 0 ==> Device(c) == old(Device(c))
      ensures dev < 0 ==> |mirrors| == MAX_MIRRORS && mirrors == old(mirrors)
    {
      dev := Device(b);
      if dev >= 0 || |mirrors| >= MAX_MIRRORS {
        return;
      }
      forall c | DeviceOf(primary, mirrors, c) >= 0
        ensures DeviceOf(primary, mirrors + [b], c) == DeviceOf(primary, mirrors, c)
      {
        DeviceOfGrows(primary, mirrors, c, b);
      }
      DeviceOfNew(primary, mirrors, b);
      mirrors := mirrors + [b];
      dev := |mirrors|;
    }

    /** Layer `i`'s device holds the slot the layer attends to, and its own if it has one. */
    method Hold(i: nat, dev: nat)
      requires Shape() && |holders| == nLayers && i < nLayers
      modifies this`holders
      ensures |holders| == nLayers
      ensures forall l :: 0 <= l < nLayers ==> holders[l] == old(holders)[l] + if Uses(i, l) then {dev} else {}
    {
      var slot := kvLayer[i];
      if 0 <= slot < nLayers {
        holders := holders[slot := holders[slot] + {dev}];
      }
      if i < nKvLayers {
        holders := holders[i := holders[i] + {dev}];
      }
    }

    /** `kvcache_map_slots`. It only fails for a layer on one backend too many. */
    method MapSlots() returns (ok: bool)
      requires Shape()
      modifies this`mirrors, this`holders
      ensures Shape()
      ensures ok ==> Mapped(nLayers)
      ensures !ok ==> |mirrors| == MAX_MIRRORS && exists i :: 0 <= i < nLayers && Device(layerBackend[i]) < 0
    {
      holders := seq(nLayers, _ => {});
      for i := 0 to nLayers
        invariant Mapped(i)
      {
        ghost var was, before := holders, mirrors;
        var dev := Register(layerBackend[i]);
        if dev < 0 {
          return false;
        }
        hide Mapped, Uses;
        Hold(i, dev);
        MappedMore(i, was, before, dev);
      }
      ok := true;
    }

    /** One more layer accounted for. */
    lemma MappedMore(i: nat, was: seq<set<nat>>, before: seq<nat>, dev: nat)
      requires Shape() && i < nLayers && |was| == |holders| == nLayers && Device(layerBackend[i]) == dev
      requires forall k | 0 <= k < i :: Device(layerBackend[k]) == DeviceOf(primary, before, layerBackend[k]) >= 0
      requires forall slot, d :: 0 <= slot < nLayers ==>
        (d in was[slot] <==> exists k :: 0 <= k < i && Uses(k, slot) && DeviceOf(primary, before, layerBackend[k]) == d)
      requires forall l :: 0 <= l < nLayers ==> holders[l] == was[l] + if Uses(i, l) then {dev} else {}
      ensures Mapped(i + 1)
    {
      hide DeviceOf;
      forall slot, d | 0 <= slot < nLayers
        ensures d in holders[slot] <==> exists k :: 0 <= k < i + 1 && Uses(k, slot) && Device(layerBackend[k]) == d
      {
        if d in was[slot] {
          var k :| 0 <= k < i && Uses(k, slot) && DeviceOf(primary, before, layerBackend[k]) == d;
          assert Device(layerBackend[k]) == d;
        }
      }
    }

    // ---------------------------------------------------------------- views

    /** Every device that holds slots has its table; the primary has none when it holds no slot. */
    ghost predicate Allocated()
      reads this`mirrors, this`holders, this`remaps
    {
      && Mapped(nLayers) && |remaps| == |mirrors| + 1
      && (forall d :: 0 < d < |remaps| ==> remaps[d] == Remap(holders, d))
      && (remaps[0] == Remap(holders, 0) || (remaps[0] == [] && forall l :: 0 <= l < nLayers ==> 0 !in holders[l]))
    }

    method PrimaryHolds() returns (held: bool)
      ensures held <==> exists l :: 0 <= l < |holders| && 0 in holders[l]
    {
      held := false;
      for l := 0 to |holders|
        invariant held <==> exists k :: 0 <= k < l && 0 in holders[k]
      {
        if 0 in holders[l] {
          held := true;
        }
      }
    }

    /** `kvcache_alloc_slots`: a device that holds no slot is an error, and the backend may refuse. */
    method AllocSlots(dev: nat) returns (st: Status, table: seq<int>)
      modifies this`refused
      ensures st.InvalidArg? || Answered(old(refused), st)
      ensures st.Ok? ==> table == Remap(holders, dev) && Rank(holders, dev, |holders|) > 0
      ensures st.InvalidArg? <==> Rank(holders, dev, |holders|) == 0
    {
      var n;
      table, n := SlotRemap(holders, dev);
      if n == 0 {
        return InvalidArg, [];
      }
      var fails: bool, unsupported: bool := *, *;
      st := Ok;
      if fails {
        st := if unsupported then Unsupported else Failed;
        refused := refused + [st];
      }
    }

    /** `kvcache_alloc_primary_slots`: the primary's table, if it holds any slot at all. */
    method AllocPrimary() returns (st: Status, table: seq<int>)
      modifies this`refused
      ensures Answered(old(refused), st)
      ensures st.Ok? ==>
        table == Remap(holders, 0) || (table == [] && forall l :: 0 <= l < |holders| ==> 0 !in holders[l])
      ensures !st.InvalidArg?
    {
      var held := PrimaryHolds();
      st, table := Ok, [];
      if held {
        st, table := AllocSlots(0);
        HeldRank(0);
      }
    }

    lemma HeldRank(dev: nat)
      ensures Rank(holders, dev, |holders|) > 0 <==> exists l :: 0 <= l < |holders| && dev in holders[l]
    {
      RankHeld(holders, dev, |holders|);
    }

    /** The mirrors' tables behind the primary's, in order. */
    method AllocMirrors() returns (st: Status)
      requires |holders| == nLayers && |remaps| == 1
      modifies this`remaps, this`refused
      ensures st.InvalidArg? || Answered(old(refused), st)
      ensures st.InvalidArg? ==> exists d: nat :: 0 < d <= |mirrors| && Rank(holders, d, nLayers) == 0
      ensures st.Ok? ==> |remaps| == |mirrors| + 1 && remaps[0] == old(remaps[0])
      ensures st.Ok? ==> forall k :: 0 < k <= |mirrors| ==>
        remaps[k] == Remap(holders, k) && Rank(holders, k, nLayers) > 0
    {
      hide Remap, Rank;
      st := Ok;
      for d: nat := 1 to |mirrors| + 1
        invariant |remaps| == d && remaps[0] == old(remaps[0]) && st.Ok? && Answered(old(refused), st)
        invariant forall k :: 0 < k < d ==> remaps[k] == Remap(holders, k) && Rank(holders, k, nLayers) > 0
      {
        var table;
        st, table := AllocSlots(d);
        if st != Ok {
          return;
        }
        remaps := remaps + [table];
      }
    }

    /** After success every device has its table; a mirror without any slot is refused. */
    method AllocAll() returns (st: Status)
      requires Mapped(nLayers)
      modifies this`remaps, this`refused
      ensures st.InvalidArg? || Answered(old(refused), st)
      ensures st.Ok? ==> Allocated() && forall d :: 0 < d <= |mirrors| ==> Rank(holders, d, nLayers) > 0
      ensures st.InvalidArg? ==> exists d: nat :: 0 < d <= |mirrors| && Rank(holders, d, nLayers) == 0
    {
      assert |holders| == nLayers;
      hide Mapped, Uses, Remap, Rank;
      var first;
      st, first := AllocPrimary();
      if st != Ok {
        return;
      }
      remaps := [first];
      st := AllocMirrors();
    }

    /** `kvcache_device_view`: the slot a layer has on a device, or the layer itself if it has none. */
    function DeviceView(dev: int, layer: nat): View
      requires 0 <= layer < nLayers
      reads this`remaps
    {
      if dev <= 0 then
        var mapped := if |remaps| > 0 && layer < |remaps[0]| then remaps[0][layer] else layer;
        View(if mapped >= 0 then mapped else layer, mapped >= 0)
      else
        var mapped := if dev < |remaps| && layer < |remaps[dev]| then remaps[dev][layer] else -1;
        View(if mapped >= 0 then mapped else layer, mapped >= 0)
    }

    /** A device that holds a layer's slot has it in its table, and no two such layers share one. */
    lemma HeldSlots(dev: nat, i: nat, j: nat)
      requires Allocated() && i < nLayers && j < nLayers && dev in holders[i] && dev in holders[j]
      ensures DeviceView(dev, i).mapped && 0 <= DeviceView(dev, i).slot < nLayers
      ensures i != j ==> DeviceView(dev, i).slot != DeviceView(dev, j).slot
      ensures dev <= |mirrors|
    {
      var k :| 0 <= k < nLayers && Uses(k, i) && Device(layerBackend[k]) == dev;
      RankGrows(holders, dev, 0, i);
      RankGrows(holders, dev, 0, j);
      if i < j {
        SlotsApart(holders, dev, i, j);
      } else if j < i {
        SlotsApart(holders, dev, j, i);
      }
    }

    /** `kvcache_attn_view` gives every layer a mapped slot on the device the layer runs on. */
    lemma AttentionFindsItsSlot(layer: nat)
      requires Allocated() && layer < nLayers && 0 <= kvLayer[layer] < nLayers
      ensures var dev := Device(layerBackend[layer]); var v := DeviceView(dev, kvLayer[layer]);
        && 0 <= dev <= |mirrors| && dev in holders[kvLayer[layer]]
        && v.mapped && 0 <= v.slot < Rank(holders, dev, nLayers)
    {
      var dev := Device(layerBackend[layer]);
      var slot := kvLayer[layer];
      assert Uses(layer, slot);
      HeldSlots(dev, slot, slot);
      RankGrows(holders, dev, slot, nLayers);
    }

    // ---------------------------------------------------------------- rows

    /** The cells of `n` rows from `pos` on in one slot of one device. */
    predicate InRange(dev: nat, slot: int, pos: nat, n: nat, d: int, l: int, p: int) {
      d == dev && l == slot && pos <= p < pos + n
    }

    /** Nothing but these cells has changed. */
    twostate predicate OnlyRange(dev: nat, slot: int, pos: nat, n: nat)
      reads cells
    {
      forall d, l, p | 0 <= d < cells.Length0 && 0 <= l < cells.Length1 && 0 <= p < cells.Length2 ::
        InRange(dev, slot, pos, n, d, l, p) || cells[d, l, p] == old(cells[d, l, p])
    }

    /** The slot holds the rows. */
    ghost predicate Holds(dev: nat, slot: nat, pos: nat, rows: seq<Row>)
      requires dev < cells.Length0 && slot < cells.Length1 && pos + |rows| <= cells.Length2
      reads cells
    {
      forall p :: pos <= p < pos + |rows| ==> cells[dev, slot, p] == stored(rows[p - pos])
    }

    /** A backend's `kv_put` or `kv_put_batch`; when it fails the rows may be anything. */
    method BackendPut(dev: nat, slot: nat, pos: nat, rows: seq<Row>) returns (st: Status)
      requires dev < cells.Length0 && slot < cells.Length1 && pos + |rows| <= cells.Length2
      modifies this`refused, cells
      ensures OnlyRange(dev, slot, pos, |rows|) && Answered(old(refused), st)
      ensures st.Ok? ==> Holds(dev, slot, pos, rows)
    {
      st := Ask();
      for i := 0 to |rows|
        invariant Answered(old(refused), st) && OnlyRange(dev, slot, pos, |rows|)
        invariant st.Ok? ==> forall p :: pos <= p < pos + i ==> cells[dev, slot, p] == stored(rows[p - pos])
      {
        var junk: Row := *;
        cells[dev, slot, pos + i] := if st.Ok? then stored(rows[i]) else junk;
      }
    }

    /** `kvcache_stage_host`: an input on another backend is read into the staging buffer, once. */
    method StageHost(row: Row, staged: bool) returns (st: Status)
      requires staged ==> stage == row
      modifies this`stage, this`refused
      ensures Answered(old(refused), st) && (st.Ok? ==> stage == row)
      ensures staged ==> stage == row
    {
      if staged {
        return Ok;
      }
      st := Ask();
      if st == Ok {
        stage := row;
      }
    }

    /** `kvcache_put_device`: directly, or by way of the host. */
    method PutDevice(dev: nat, slot: nat, pos: nat, row: Row, staged: bool) returns (st: Status, staged': bool)
      requires dev < cells.Length0 && slot < cells.Length1 && pos < cells.Length2
      requires staged ==> stage == row
      modifies this`stage, this`refused, cells
      ensures OnlyRange(dev, slot, pos, 1) && Answered(old(refused), st)
      ensures st.Ok? ==> Holds(dev, slot, pos, [row])
      ensures staged' ==> stage == row
    {
      staged' := staged;
      var foreign: bool := *;
      if foreign {
        st := StageHost(row, staged);
        if st != Ok {
          return;
        }
        staged' := true;
        st := BackendPut(dev, slot, pos, [stage]);
      } else {
        st := BackendPut(dev, slot, pos, [row]);
      }
    }

    /** `kvcache_put_device_range`: in one batch, or row by row; only a single row stays staged for the next device. */
    method PutDeviceRange(dev: nat, slot: nat, pos: nat, rows: seq<Row>, staged: bool)
      returns (st: Status, staged': bool)
      requires dev < cells.Length0 && slot < cells.Length1 && pos + |rows| <= cells.Length2
      requires staged ==> |rows| == 1 && stage == rows[0]
      modifies this`stage, this`refused, cells
      ensures OnlyRange(dev, slot, pos, |rows|) && Answered(old(refused), st)
      ensures st.Ok? ==> Holds(dev, slot, pos, rows)
      ensures staged' && st.Ok? ==> |rows| == 1 && stage == rows[0]
    {
      staged' := staged;
      var batchable: bool := *;
      if |rows| > 1 && batchable {
        st := BackendPut(dev, slot, pos, rows);
        return;
      }
      st := Ok;
      for i := 0 to |rows|
        invariant OnlyRange(dev, slot, pos, |rows|) && Answered(old(refused), st)
        invariant Holds(dev, slot, pos, rows[..i])
        invariant staged' ==> |rows| == 1 && stage == rows[0]
      {
        assert rows[..i + 1] == rows[..i] + [rows[i]];
        st, staged' := PutDevice(dev, slot, pos + i, rows[i], staged');
        if st != Ok {
          return;
        }
        if |rows| > 1 {
          staged' := false;
        }
      }
      assert rows[..|rows|] == rows;
      st := Ok;
    }

    /** `kvcache_native_export`. */
    method Export(dev: nat, slot: nat, pos: nat, n: nat) returns (st: Status)
      requires dev < cells.Length0 && slot < cells.Length1 && pos + n <= cells.Length2
      modifies this`native, this`refused
      ensures Answered(old(refused), st)
      ensures st.Ok? ==> |native| == n && forall i :: 0 <= i < n ==> native[i] == cells[dev, slot, pos + i]
    {
      st := Ask();
      native := [];
      for i := 0 to n
        invariant Answered(old(refused), st) && |native| == i
        invariant forall k :: 0 <= k < i ==> native[k] == cells[dev, slot, pos + k]
      {
        native := native + [cells[dev, slot, pos + i]];
      }
    }

    /** A device's `kv_import`; an unsupported or failed one may leave anything in the rows. */
    method Import(dev: nat, slot: nat, pos: nat, ghost rows: seq<Row>) returns (st: Status)
      requires dev < cells.Length0 && slot < cells.Length1 && pos + |native| <= cells.Length2
      requires |native| == |rows| && forall i :: 0 <= i < |rows| ==> native[i] == stored(rows[i])
      modifies this`refused, cells
      ensures OnlyRange(dev, slot, pos, |rows|) && Answered(old(refused), st)
      ensures st.Ok? ==> Holds(dev, slot, pos, rows)
    {
      st := Ask();
      for i := 0 to |native|
        invariant Answered(old(refused), st) && OnlyRange(dev, slot, pos, |rows|)
        invariant st.Ok? ==> forall p :: pos <= p < pos + i ==> cells[dev, slot, p] == stored(rows[p - pos])
      {
        var junk: Row := *;
        cells[dev, slot, pos + i] := if st.Ok? then native[i] else junk;
      }
    }

    // ---------------------------------------------------------------- all holders

    /** Device `d` holds the layer's slot and has the rows in it. */
    ghost predicate Has(d: nat, layer: nat, pos: nat, rows: seq<Row>)
      requires layer < nLayers
      reads this`remaps, cells
    {
      var slot := DeviceView(d, layer).slot;
      && d < cells.Length0 && 0 <= slot < cells.Length1 && pos + |rows| <= cells.Length2
      && Holds(d, slot, pos, rows)
    }

    /** The device a layer runs on writes first, whether or not it holds the layer's slot. */
    predicate Writes(d: int, layer: nat)
      requires layer < nLayers && layer < |holders| && layer < |layerBackend|
      reads this`mirrors, this`holders
    {
      (d >= 0 && d in holders[layer]) || d == Device(layerBackend[layer])
    }

    /** Where a device keeps or would keep a layer. */
    lemma ViewInRange(d: nat, layer: nat)
      requires Allocated() && layer < nLayers
      ensures 0 <= DeviceView(d, layer).slot < nLayers && |layerBackend| == |holders| == nLayers
    {
      if d in holders[layer] {
        HeldSlots(d, layer, layer);
      }
    }

    lemma RunsSomewhere(layer: nat)
      requires Allocated() && layer < nLayers
      ensures |layerBackend| == nLayers && 0 <= Device(layerBackend[layer]) <= |mirrors| < cells.Length0
    {
    }

    /** Only the layer's own rows, on the devices that write them, have changed. */
    twostate predicate OnlyLayer(layer: nat, pos: nat, n: nat)
      requires layer < nLayers && layer < |holders| && layer < |layerBackend|
      reads this`mirrors, this`holders, this`remaps, cells
    {
      forall d, l, p | 0 <= d < cells.Length0 && 0 <= l < cells.Length1 && 0 <= p < cells.Length2 ::
        || (Writes(d, layer) && InRange(d, DeviceView(d, layer).slot, pos, n, d, l, p))
        || cells[d, l, p] == old(cells[d, l, p])
    }

    /** One further device: natively if both sides can and go on being able to, else like the first. */
    method Replicate(dev: nat, layer: nat, pos: nat, rows: seq<Row>, staged: bool, nativeReady: bool, nativeOff: bool,
                     owner: nat)
      returns (st: Status, staged': bool, nativeReady': bool, nativeOff': bool)
      requires Allocated() && layer < nLayers && dev in holders[layer] && dev != owner
      requires pos + |rows| <= nCtx && Has(owner, layer, pos, rows)
      requires staged ==> |rows| == 1 && stage == rows[0]
      requires nativeReady ==> |native| == |rows| && forall i :: 0 <= i < |rows| ==> native[i] == stored(rows[i])
      modifies this`stage, this`native, this`refused, cells
      ensures 0 <= DeviceView(dev, layer).slot < nLayers && OnlyRange(dev, DeviceView(dev, layer).slot, pos, |rows|)
      ensures Answered(old(refused), st)
      ensures st.Ok? ==> Has(dev, layer, pos, rows)
      ensures staged' && st.Ok? ==> |rows| == 1 && stage == rows[0]
      ensures nativeReady' ==> |native| == |rows| && forall i :: 0 <= i < |rows| ==> native[i] == stored(rows[i])
    {
      HeldSlots(dev, layer, layer);
      hide Allocated;
      st, staged', nativeReady', nativeOff' := Ok, staged, nativeReady, nativeOff;
      var slot := DeviceView(dev, layer).slot;
      var pair: bool := *;
      if !nativeOff && pair {
        if !nativeReady {
          var oslot := DeviceView(owner, layer).slot;
          st := Export(owner, oslot, pos, |rows|);
          nativeOff' := st == Unsupported;
          nativeReady' := st == Ok;
          if nativeOff' {
            st := Ok;
          }
        }
        if nativeReady' {
          st := Import(dev, slot, pos, rows);
          if st != Unsupported {
            return;
          }
          st := Ok;
          nativeOff' := true;
        }
      }
      if st == Ok {
        st, staged' := PutDeviceRange(dev, slot, pos, rows, staged);
      }
    }

    /** The rows reach one further device, and stay where they are on the others. */
    method ReplicateInto(dev: nat, layer: nat, pos: nat, rows: seq<Row>, staged: bool, nativeReady: bool,
                         nativeOff: bool, owner: nat)
      returns (st: Status, staged': bool, nativeReady': bool, nativeOff': bool)
      requires Allocated() && layer < nLayers && dev in holders[layer] && dev != owner
      requires pos + |rows| <= nCtx && Has(owner, layer, pos, rows)
      requires staged ==> |rows| == 1 && stage == rows[0]
      requires nativeReady ==> |native| == |rows| && forall i :: 0 <= i < |rows| ==> native[i] == stored(rows[i])
      modifies this`stage, this`native, this`refused, cells
      ensures OnlyLayer(layer, pos, |rows|) && Answered(old(refused), st)
      ensures st.Ok? ==> Has(dev, layer, pos, rows)
      ensures forall d: nat :: d != dev && old(Has(d, layer, pos, rows)) ==> Has(d, layer, pos, rows)
      ensures staged' && st.Ok? ==> |rows| == 1 && stage == rows[0]
      ensures nativeReady' ==> |native| == |rows| && forall i :: 0 <= i < |rows| ==> native[i] == stored(rows[i])
    {
      hide Allocated;
      st, staged', nativeReady', nativeOff' := Replicate(dev, layer, pos, rows, staged, nativeReady, nativeOff, owner);
      assert forall d: nat :: DeviceView(d, layer) == old(DeviceView(d, layer));
    }

    /**
     `kvcache_put_range`: after success every device that holds the layer's slot has the rows, and so has the device
     the layer runs on; nothing else has changed anywhere.
     */
    method PutRange(layer: nat, pos: nat, rows: seq<Row>) returns (st: Status)
      requires Allocated() && layer < nLayers && pos + |rows| <= nCtx
      modifies this`stage, this`native, this`refused, cells
      ensures |holders| == |layerBackend| == nLayers && OnlyLayer(layer, pos, |rows|) && Answered(old(refused), st)
      ensures st.Ok? ==> forall d: nat :: Writes(d, layer) ==> Has(d, layer, pos, rows)
    {
      RunsSomewhere(layer);
      var owner: nat := Device(layerBackend[layer]);
      ViewInRange(owner, layer);
      var staged, nativeReady, nativeOff := false, false, false;
      st, staged := PutDeviceRange(owner, DeviceView(owner, layer).slot, pos, rows, staged);
      var dev := 0;
      while dev <= |mirrors| && st == Ok
        invariant 0 <= dev <= |mirrors| + 1 && OnlyLayer(layer, pos, |rows|) && Answered(old(refused), st)
        invariant st.Ok? ==> Has(owner, layer, pos, rows)
        invariant st.Ok? ==> forall d: nat :: d < dev && d in holders[layer] ==> Has(d, layer, pos, rows)
        invariant st.Ok? && staged ==> |rows| == 1 && stage == rows[0]
        invariant nativeReady ==> |native| == |rows| && forall i :: 0 <= i < |rows| ==> native[i] == stored(rows[i])
      {
        hide Has, OnlyRange;
        if dev != owner && dev in holders[layer] {
          st, staged, nativeReady, nativeOff :=
            ReplicateInto(dev, layer, pos, rows, staged, nativeReady, nativeOff, owner);
        }
        dev := dev + 1;
      }
      forall d: nat | st.Ok? && Writes(d, layer) ensures Has(d, layer, pos, rows) {
        if d in holders[layer] {
          HeldSlots(d, layer, layer);
        }
      }
    }

    /** All devices that hold the layer's slot keep the same row at a position. */
    ghost predicate Agree(layer: nat, p: nat)
      requires Shape() && layer < nLayers && layer < |holders| && p < nCtx
      reads this`mirrors, this`holders, this`remaps, cells
    {
      forall d: nat, e: nat :: d in holders[layer] && e in holders[layer] ==> At(d, layer, p) == At(e, layer, p)
    }

    /** What a device keeps for a layer at a position. */
    function At(d: nat, layer: nat, p: nat): Row
      requires Shape() && layer < nLayers && p < nCtx
      reads this`mirrors, this`remaps, cells
    {
      var slot := DeviceView(d, layer).slot;
      if d < cells.Length0 && 0 <= slot < cells.Length1 then cells[d, slot, p] else Row(0, 0)
    }

    /**
     The device a layer runs on does not hold the layer's slot, and where it writes it keeps layer `l`. No layer with a
     slot of its own does this.
     */
    predicate Clobbers(layer: nat, l: nat)
      requires layer < nLayers && l < nLayers && layer < |layerBackend| && nLayers <= |holders|
      reads this`mirrors, this`holders, this`remaps
    {
      var owner := Device(layerBackend[layer]);
      && owner >= 0 && owner !in holders[layer] && owner in holders[l]
      && DeviceView(owner, l).slot == DeviceView(owner, layer).slot
    }

    lemma OwnersClobberNothing(layer: nat, l: nat)
      requires Allocated() && layer < nLayers && l < nLayers && (layer < nKvLayers || kvLayer[layer] == layer)
      ensures |layerBackend| == |holders| == nLayers && !Clobbers(layer, l)
    {
      assert Uses(layer, layer);
    }

    /** A device that writes a layer writes to no other layer it holds, unless the layer clobbers that one. */
    lemma SlotsDiffer(layer: nat, l: nat)
      requires Allocated() && layer < nLayers && l < nLayers
      ensures |layerBackend| == |holders| == nLayers
      ensures forall d: nat :: d in holders[l] ==> d < cells.Length0 && 0 <= DeviceView(d, l).slot < cells.Length1
      ensures l != layer && !Clobbers(layer, l) ==> forall d: nat :: d in holders[l] && Writes(d, layer) ==>
        DeviceView(d, l).slot != DeviceView(d, layer).slot
    {
      forall d: nat | d in holders[l] ensures d < cells.Length0 && 0 <= DeviceView(d, l).slot < cells.Length1 {
        HeldSlots(d, l, l);
      }
      forall d: nat | l != layer && !Clobbers(layer, l) && d in holders[l] && Writes(d, layer)
        ensures DeviceView(d, l).slot != DeviceView(d, layer).slot
      {
        if d in holders[layer] {
          HeldSlots(d, l, layer);
        }
      }
    }

    /** What a device keeps of the rows just written. */
    lemma AtWritten(d: nat, layer: nat, pos: nat, rows: seq<Row>, p: nat)
      requires Shape() && layer < nLayers && Has(d, layer, pos, rows) && pos <= p < pos + |rows|
      ensures At(d, layer, p) == stored(rows[p - pos])
    {
    }

    /**
     `kvcache_put_batch`, and `kvcache_put` for a single row: after success all devices agree on the rows written,
     and still agree wherever they did; only where the layer clobbers another one, that one's rows at these positions
     may be lost. Arguments out of range change nothing, and any others only fail with what a backend has answered.
     */
    method PutBatch(layer: int, pos: int, rows: seq<Row>) returns (st: Status)
      requires Allocated()
      modifies this`stage, this`native, this`refused, cells
      ensures |holders| == |layerBackend| == nLayers && Shape()
      ensures rows == [] || layer < 0 || layer >= nLayers || pos < 0 || pos + |rows| > nCtx ==>
        st == InvalidArg && unchanged(this, cells)
      ensures rows != [] && 0 <= layer < nLayers && 0 <= pos && pos + |rows| <= nCtx ==> Answered(old(refused), st)
      ensures st.Ok? ==> 0 <= layer < nLayers && 0 <= pos
      ensures st.Ok? ==> forall d: nat | d in holders[layer] :: Has(d, layer, pos, rows)
      ensures st.Ok? ==> forall p: nat | pos <= p < pos + |rows| :: Agree(layer, p)
      ensures st.Ok? ==> forall l: nat, p: nat | l < nLayers && p < nCtx ::
        old(Agree(l, p)) && !(Clobbers(layer, l) && pos <= p < pos + |rows|) ==> Agree(l, p)
    {
      assert Shape() && |holders| == |layerBackend| == nLayers by {
        Sized();
      }
      if rows == [] || layer < 0 || layer >= nLayers || pos < 0 || pos + |rows| > nCtx {
        return InvalidArg;
      }
      st := PutRange(layer, pos, rows);
      if st == Ok {
        hide Has, Allocated, DeviceView, Clobbers;
        forall p: nat | pos <= p < pos + |rows| ensures Agree(layer, p) {
          forall d: nat | d in holders[layer] ensures At(d, layer, p) == stored(rows[p - pos]) {
            AtWritten(d, layer, pos, rows, p);
          }
        }
        forall l: nat, p: nat | l < nLayers && p < nCtx && old(Agree(l, p)) && !(l == layer && pos <= p < pos + |rows|)
          && !(Clobbers(layer, l) && pos <= p < pos + |rows|)
          ensures Agree(l, p)
        {
          SlotsDiffer(layer, l);
          assert forall d: nat :: d in holders[l] ==> At(d, l, p) == old(At(d, l, p));
        }
      }
    }

    lemma Sized()
      requires Allocated()
      ensures Shape() && |holders| == |layerBackend| == nLayers
    {
    }

    // ---------------------------------------------------------------- shifting

    /** The rows of a slot by position. */
    ghost function SlotRows(d: nat, slot: nat): (rows: seq<Row>)
      requires d < cells.Length0 && slot < cells.Length1
      reads cells
      ensures |rows| == cells.Length2
    {
      seq(cells.Length2, p requires 0 <= p < cells.Length2 reads cells => cells[d, slot, p])
    }

    /** Only this slot of this device has changed, and nothing of it below `low`. */
    twostate predicate OnlySlot(dev: nat, slot: int, low: nat)
      reads cells
    {
      forall d, l, p | 0 <= d < cells.Length0 && 0 <= l < cells.Length1 && 0 <= p < cells.Length2 ::
        (d == dev && l == slot && p >= low) || cells[d, l, p] == old(cells[d, l, p])
    }

    method ReadSlot(dev: nat, slot: nat) returns (rows: array<Row>)
      requires dev < cells.Length0 && slot < cells.Length1
      ensures fresh(rows) && rows[..] == SlotRows(dev, slot)
    {
      rows := new Row[cells.Length2](_ => Row(0, 0));
      for p := 0 to cells.Length2
        invariant forall q :: 0 <= q < p ==> rows[q] == cells[dev, slot, q]
      {
        rows[p] := cells[dev, slot, p];
      }
    }

    method WriteSlot(dev: nat, slot: nat, rows: array<Row>, ghost low: nat)
      requires dev < cells.Length0 && slot < cells.Length1 && rows.Length == cells.Length2
      requires forall p :: 0 <= p < low && p < rows.Length ==> rows[p] == cells[dev, slot, p]
      modifies cells
      ensures OnlySlot(dev, slot, low) && SlotRows(dev, slot) == rows[..]
    {
      for p := 0 to cells.Length2
        invariant OnlySlot(dev, slot, low)
        invariant forall q :: 0 <= q < p || (0 <= q < low && q < rows.Length) ==> cells[dev, slot, q] == rows[q]
      {
        cells[dev, slot, p] := rows[p];
      }
    }

    /** A backend's `kv_shift` on one slot; a failing one may leave anything from the first target on. */
    method BackendShift(dev: nat, slot: nat, chunks: seq<Chunk>, ghost low: nat) returns (st: Status)
      requires dev < cells.Length0 && slot < cells.Length1 && Within(chunks, cells.Length2) && Marching(chunks)
      requires forall i :: 0 <= i < |chunks| ==> chunks[i].dst >= low
      modifies this`refused, cells
      ensures OnlySlot(dev, slot, low) && Answered(old(refused), st)
      ensures st.Ok? ==> SlotRows(dev, slot) == FromSnapshot(old(SlotRows(dev, slot)), chunks)
    {
      st := Ask();
      var rows := ReadSlot(dev, slot);
      ghost var was := rows[..];
      if st == Ok {
        ShiftWhole(rows, chunks);
        forall p: nat | p < low && p < |was| ensures rows[..][p] == was[p] {
          UntouchedBelow(was, chunks, p);
        }
      } else {
        Garble(rows, chunks, low);
      }
      WriteSlot(dev, slot, rows, low);
    }

    /** The rows a device keeps for a layer. */
    ghost function LayerRows(d: nat, layer: nat): (rows: seq<Row>)
      requires layer < nLayers
      reads this`remaps, cells
    {
      var slot := DeviceView(d, layer).slot;
      if d < cells.Length0 && 0 <= slot < cells.Length1 then SlotRows(d, slot) else []
    }

    ghost function Moved(rows: seq<Row>, chunks: seq<Chunk>): seq<Row> {
      if Within(chunks, |rows|) then FromSnapshot(rows, chunks) else rows
    }

    /** No device keeps other rows below `low`. */
    twostate predicate SameBelowAt(low: nat)
      reads cells
    {
      forall d, l, p | 0 <= d < cells.Length0 && 0 <= l < cells.Length1 && 0 <= p < cells.Length2 ::
        p >= low || cells[d, l, p] == old(cells[d, l, p])
    }

    /** A holder of a layer shifts it, and keeps its other layers. */
    method ShiftOn(dev: nat, layer: nat, chunks: seq<Chunk>, ghost low: nat) returns (st: Status)
      requires Allocated() && |holders| == nLayers && layer < nLayers && dev in holders[layer]
      requires Within(chunks, nCtx) && Marching(chunks) && forall i :: 0 <= i < |chunks| ==> chunks[i].dst >= low
      modifies this`refused, cells
      ensures SameBelowAt(low) && Answered(old(refused), st)
      ensures forall d: nat, l: nat | l < nLayers && d in holders[l] && (d != dev || l != layer) ::
        LayerRows(d, l) == old(LayerRows(d, l))
      ensures st.Ok? ==> LayerRows(dev, layer) == Moved(old(LayerRows(dev, layer)), chunks)
    {
      HeldSlots(dev, layer, layer);
      st := BackendShift(dev, DeviceView(dev, layer).slot, chunks, low);
      forall d: nat, l: nat | l < nLayers && d in holders[l] && (d != dev || l != layer)
        ensures LayerRows(d, l) == old(LayerRows(d, l))
      {
        HeldSlots(d, l, l);
        if d == dev {
          HeldSlots(d, l, layer);
        }
      }
    }

    /** Every holder of a layer shifts it. */
    method ShiftLayer(layer: nat, chunks: seq<Chunk>, ghost low: nat) returns (st: Status)
      requires Allocated() && |holders| == nLayers && layer < nLayers
      requires Within(chunks, nCtx) && Marching(chunks) && forall i :: 0 <= i < |chunks| ==> chunks[i].dst >= low
      modifies this`refused, cells
      ensures SameBelowAt(low) && Answered(old(refused), st)
      ensures st.Ok? ==> forall d: nat, l: nat | l < nLayers && d in holders[l] ::
        LayerRows(d, l) == if l == layer then Moved(old(LayerRows(d, l)), chunks) else old(LayerRows(d, l))
    {
      st := Ok;
      var dev := 0;
      while dev <= |mirrors| && st == Ok
        invariant 0 <= dev <= |mirrors| + 1 && SameBelowAt(low) && Answered(old(refused), st)
        invariant st.Ok? ==> forall d: nat, l: nat | l < nLayers && d in holders[l] ::
          LayerRows(d, l) == if l == layer && d < dev then Moved(old(LayerRows(d, l)), chunks) else old(LayerRows(d, l))
      {
        hide LayerRows, Moved, Marching, Within;
        if dev in holders[layer] {
          st := ShiftOn(dev, layer, chunks, low);
        }
        dev := dev + 1;
      }
      forall d: nat | d in holders[layer] ensures d <= |mirrors| {
        HeldSlots(d, layer, layer);
      }
    }

    /**
     `kvcache_shift`: after success every holder of a cached layer has moved its rows and no other layer's, so devices
     that had the same rows still have; whatever happens, no device keeps other rows below the first target. It only
     fails for a layer whose rotation is not known, or with what a backend has answered.
     */
    method ShiftAll(chunks: seq<Chunk>, rotatable: nat -> bool, ghost low: nat) returns (st: Status)
      requires Allocated() && |holders| == nLayers && nKvLayers <= nLayers
      requires Within(chunks, nCtx) && Marching(chunks) && forall i :: 0 <= i < |chunks| ==> chunks[i].dst >= low
      modifies this`refused, cells
      ensures SameBelowAt(low)
      ensures st.Ok? ==> forall l: nat :: l < nKvLayers ==> rotatable(l)
      ensures Answered(old(refused), st) || (st.Unsupported? && exists l: nat :: l < nKvLayers && !rotatable(l))
      ensures st.Ok? ==> forall d: nat, l: nat | l < nLayers && d in holders[l] ::
        LayerRows(d, l) == if l < nKvLayers then Moved(old(LayerRows(d, l)), chunks) else old(LayerRows(d, l))
      ensures st.Ok? ==> forall d: nat, e: nat, l: nat | l < nLayers && d in holders[l] && e in holders[l] ::
        old(LayerRows(d, l) == LayerRows(e, l)) ==> LayerRows(d, l) == LayerRows(e, l)
    {
      for li := 0 to nKvLayers
        invariant SameBelowAt(low) && old(refused) <= refused && forall l: nat :: l < li ==> rotatable(l)
        invariant forall d: nat, l: nat | l < nLayers && d in holders[l] ::
          LayerRows(d, l) == if l < li then Moved(old(LayerRows(d, l)), chunks) else old(LayerRows(d, l))
      {
        hide LayerRows, Moved, Marching, Within;
        if !rotatable(li) {
          return Unsupported;
        }
        st := ShiftLayer(li, chunks, low);
        if st != Ok {
          return;
        }
      }
      st := Ok;
    }
  }
}
