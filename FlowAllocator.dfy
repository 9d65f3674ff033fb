/**
 * Channel allocation for tile-to-tile flows: `broadcast_flow` in
 * python/dialects/aiex.py with its `_find_next_channel`.
 *
 * numpy arrays are `Grid`s: a shape and the cells in row-major order.
 * The flows that already exist in the module (what `find_matching_flows`
 * queries) are an explicit registry of routes.
 */
module FlowAllocator {
  import opened Results
  import opened AieTypes

  /** A numpy array of any rank: its shape and its cells in row-major order. */
  datatype Grid<T> = Grid(shape: seq<nat>, cells: seq<T>)

  /** Number of cells of an array of this shape. */
  function Product(shape: seq<nat>): nat
    decreases |shape|
  {
    if shape == [] then 1 else shape[0] * Product(shape[1..])
  }

  predicate WellShaped<T>(g: Grid<T>)
  {
    |g.cells| == Product(g.shape)
  }

  /** A rank-0 array holding one value, as numpy makes of a Python scalar. */
  function Scalar<T>(x: T): (g: Grid<T>)
    ensures WellShaped(g)
  {
    Grid([], [x])
  }

  /** numpy's `_atleast_nd`: size-1 axes are prepended up to rank `n`. */
  function AtLeastNd(shape: seq<nat>, n: nat): (r: seq<nat>)
    ensures |r| == if |shape| >= n then |shape| else n
    ensures Product(r) == Product(shape)
    decreases n - |shape|
  {
    if |shape| >= n then shape else AtLeastNd([1] + shape, n)
  }

  lemma {:induction false} AtLeastNdOnes(shape: seq<nat>, n: nat)
    requires forall k :: 0 <= k < |shape| ==> shape[k] == 1
    ensures forall k :: 0 <= k < |AtLeastNd(shape, n)| ==> AtLeastNd(shape, n)[k] == 1
    decreases n - |shape|
  {
    if |shape| < n {
      AtLeastNdOnes([1] + shape, n);
    }
  }

  /**
   * `np.broadcast_shapes(arg, dest) == dest` for an argument already
   * brought to the rank of the destination: every axis matches or is 1.
   */
  predicate Broadcastable(arg: seq<nat>, dest: seq<nat>)
  {
    |arg| == |dest| && forall k :: 0 <= k < |arg| ==> arg[k] == dest[k] || arg[k] == 1
  }

  lemma MulMono(x: nat, y: nat, d: nat)
    requires x <= y
    ensures x * d <= y * d
  {
    var e := y - x;
    assert y * d == x * d + e * d;
  }

  lemma MulAddBound(q: nat, p: nat, d: nat, r: nat)
    requires q < p && r < d
    ensures q * d + r < p * d
  {
    MulMono(q + 1, p, d);
    assert (q + 1) * d == q * d + d;
  }

  lemma DivBelow(i: nat, a: nat, p: nat)
    requires p > 0 && i < a * p
    ensures i / p < a
  {
    var q := i / p;
    assert q * p <= i;
    if q >= a {
      MulMono(a, q, p);
    }
  }

  /**
   * The cell of an argument of shape `arg` that lands at flat position `i`
   * of the destination once broadcast: size-1 axes always read index 0.
   */
  function BroadcastIndex(arg: seq<nat>, dest: seq<nat>, i: nat): nat
    requires Broadcastable(arg, dest)
    decreases |dest|
  {
    if dest == [] || Product(dest[1..]) == 0 then 0
    else
      var inner := Product(dest[1..]);
      var axis: nat := if arg[0] == 1 then 0 else i / inner;
      var rest := BroadcastIndex(arg[1..], dest[1..], i % inner);
      var p := Product(arg[1..]);
      assert axis * p >= 0;
      axis * p + rest
  }

  lemma {:induction false} BroadcastIndexBound(arg: seq<nat>, dest: seq<nat>, i: nat)
    requires Broadcastable(arg, dest) && i < Product(dest)
    ensures BroadcastIndex(arg, dest, i) < Product(arg)
    decreases |dest|
  {
    if dest != [] {
      var inner := Product(dest[1..]);
      assert inner > 0;
      var axis := if arg[0] == 1 then 0 else i / inner;
      DivBelow(i, dest[0], inner);
      assert axis < arg[0];
      BroadcastIndexBound(arg[1..], dest[1..], i % inner);
      MulAddBound(axis, arg[0], Product(arg[1..]), BroadcastIndex(arg[1..], dest[1..], i % inner));
    }
  }

  /** An argument of shape `arg` passes the broadcasting assertion against `dest`. */
  predicate Fits(arg: seq<nat>, dest: seq<nat>)
  {
    Broadcastable(AtLeastNd(arg, |dest|), dest)
  }

  /**
   * `np.broadcast_to(np.core.shape_base._atleast_nd(arg, len(shape)),
   * shape).flatten()`, or None when numpy's shape assertion fails.
   */
  function Flatten<T>(g: Grid<T>, shape: seq<nat>): (r: Option<seq<T>>)
    requires WellShaped(g)
    ensures r.Some? <==> Fits(g.shape, shape)
    ensures r.Some? ==> |r.value| == Product(shape)
  {
    var s := AtLeastNd(g.shape, |shape|);
    if !Broadcastable(s, shape) then None
    else Some(seq(Product(shape), i requires 0 <= i < Product(shape) =>
      BroadcastIndexBound(s, shape, i); g.cells[BroadcastIndex(s, shape, i)]))
  }

  lemma AxisSame(d: nat, inner: nat, i: nat)
    requires inner > 0 && i < d * inner
    ensures (if d == 1 then 0 else i / inner) == i / inner
  {
    if d == 1 {
      DivBelow(i, 1, inner);
    }
  }

  lemma {:induction false} BroadcastIndexSame(shape: seq<nat>, i: nat)
    requires i < Product(shape)
    ensures Broadcastable(shape, shape) && BroadcastIndex(shape, shape, i) == i
    decreases |shape|
  {
    assert Broadcastable(shape, shape);
    if shape != [] {
      var inner := Product(shape[1..]);
      assert Product(shape) == shape[0] * inner;
      assert inner > 0;
      BroadcastIndexSame(shape[1..], i % inner);
      AxisSame(shape[0], inner, i);
      assert BroadcastIndex(shape, shape, i) == (i / inner) * inner + BroadcastIndex(shape[1..], shape[1..], i % inner);
    }
  }

  lemma {:induction false} BroadcastIndexOnes(arg: seq<nat>, dest: seq<nat>, i: nat)
    requires Broadcastable(arg, dest)
    requires forall k :: 0 <= k < |arg| ==> arg[k] == 1
    ensures BroadcastIndex(arg, dest, i) == 0
    decreases |dest|
  {
    if dest != [] && Product(dest[1..]) != 0 {
      BroadcastIndexOnes(arg[1..], dest[1..], i % Product(dest[1..]));
    }
  }

  /** An array already of the destination shape flattens to itself. */
  lemma FlattenSame<T>(g: Grid<T>)
    requires WellShaped(g)
    ensures Flatten(g, g.shape) == Some(g.cells)
  {
    var s := AtLeastNd(g.shape, |g.shape|);
    assert s == g.shape;
    assert Broadcastable(s, g.shape);
    var r := Flatten(g, g.shape).value;
    assert |r| == |g.cells|;
    forall i | 0 <= i < |g.cells|
      ensures r[i] == g.cells[i]
    {
      BroadcastIndexSame(g.shape, i);
    }
    assert r == g.cells;
  }

  lemma {:induction false} ProductOnes(shape: seq<nat>)
    requires forall k :: 0 <= k < |shape| ==> shape[k] == 1
    ensures Product(shape) == 1
    decreases |shape|
  {
    if shape != [] {
      ProductOnes(shape[1..]);
    }
  }

  /** A one-cell argument of rank at most the destination's is replicated to every position. */
  lemma FlattenSingle<T>(g: Grid<T>, shape: seq<nat>)
    requires WellShaped(g) && |g.shape| <= |shape|
    requires forall k :: 0 <= k < |g.shape| ==> g.shape[k] == 1
    ensures |g.cells| == 1 && Flatten(g, shape).Some?
    ensures forall i :: 0 <= i < Product(shape) ==> Flatten(g, shape).value[i] == g.cells[0]
  {
    ProductOnes(g.shape);
    var s := AtLeastNd(g.shape, |shape|);
    AtLeastNdOnes(g.shape, |shape|);
    assert Broadcastable(s, shape);
    var r := Flatten(g, shape).value;
    forall i | 0 <= i < Product(shape)
      ensures r[i] == g.cells[0]
    {
      BroadcastIndexOnes(s, shape, i);
      BroadcastIndexBound(s, shape, i);
      assert r[i] == g.cells[BroadcastIndex(s, shape, i)];
    }
  }

  // ----- Channels -----

  /** A channel argument: left to the allocator, or given per position. */
  datatype ChannelArg = Auto | Given(channels: Grid<Option<nat>>)

  /** The assertion at the top of broadcast_flow: a given array may not hold None. */
  predicate Mixed(c: ChannelArg)
  {
    c.Given? && exists k :: 0 <= k < |c.channels.cells| && c.channels.cells[k].None?
  }

  /** `chan is None or np.all(np.array(chan) == None)`. */
  predicate IsAuto(c: ChannelArg)
  {
    c.Auto? || forall k :: 0 <= k < |c.channels.cells| ==> c.channels.cells[k].None?
  }

  /** A flow that already exists in the module, with its channels. */
  datatype Route = Route(source: Tile, sourceChannel: nat, dest: Tile, destChannel: nat)

  /** Channels of existing flows leaving tile `s` (`find_matching_flows(filter_source=True)`). */
  function SourceUsed(registry: seq<Route>, s: Tile): set<nat>
  {
    set k | 0 <= k < |registry| && registry[k].source == s :: registry[k].sourceChannel
  }

  /** Channels of existing flows entering tile `d` (`find_matching_flows(filter_dest=True)`). */
  function DestUsed(registry: seq<Route>, d: Tile): set<nat>
  {
    set k | 0 <= k < |registry| && registry[k].dest == d :: registry[k].destChannel
  }

  /** `c` is the least channel number not in `used`. */
  ghost predicate IsLeastFree(used: set<nat>, c: nat)
  {
    c !in used && forall j: nat :: j < c ==> j in used
  }

  lemma {:induction false} Above(used: set<nat>) returns (n: nat)
    ensures forall x :: x in used ==> x < n
    decreases used
  {
    if used == {} {
      n := 0;
    } else {
      var x :| x in used;
      var m := Above(used - {x});
      n := if m > x then m else x + 1;
      forall y | y in used
        ensures y < n
      {
        if y != x {
          assert y in used - {x};
        }
      }
    }
  }

  lemma {:induction false} LeastFreeFrom(used: set<nat>, i: nat, bound: nat)
    requires bound !in used && i <= bound
    requires forall j: nat :: j < i ==> j in used
    ensures exists c :: IsLeastFree(used, c)
    decreases bound - i
  {
    if i !in used {
      assert IsLeastFree(used, i);
    } else {
      LeastFreeFrom(used, i + 1, bound);
    }
  }

  lemma LeastFreeExists(used: set<nat>)
    ensures exists c :: IsLeastFree(used, c)
  {
    var n := Above(used);
    LeastFreeFrom(used, 0, n);
  }

  /** The least free channel: the specification of `_find_next_channel`. */
  ghost function LeastFree(used: set<nat>): (c: nat)
    ensures IsLeastFree(used, c)
  {
    LeastFreeExists(used);
    var c :| IsLeastFree(used, c);
    c
  }

  lemma LeastFreeUnique(used: set<nat>, c: nat)
    requires IsLeastFree(used, c)
    ensures LeastFree(used) == c
  {
  }

  /** The channels 0 .. n-1. */
  ghost function Range(n: nat): set<nat>
  {
    if n == 0 then {} else Range(n - 1) + {n - 1}
  }

  lemma {:induction false} InRange(n: nat, j: nat)
    ensures j in Range(n) <==> j < n
  {
    if n > 0 {
      InRange(n - 1, j);
    }
  }

  lemma LeastFreeOfRange(n: nat)
    ensures LeastFree(Range(n)) == n
  {
    forall j: nat
      ensures j in Range(n) <==> j < n
    {
      InRange(n, j);
    }
    LeastFreeUnique(Range(n), n);
  }

  /** The three cases given for `_find_next_channel`: {} gives 0, {0,2} gives 1, {0,1,2} gives 3. */
  lemma LeastFreeExamples()
    ensures LeastFree({}) == 0 && LeastFree({0, 2}) == 1 && LeastFree({0, 1, 2}) == 3
  {
    LeastFreeUnique({}, 0);
    LeastFreeUnique({0, 2}, 1);
    LeastFreeUnique({0, 1, 2}, 3);
  }

  /** `max(used_channels, default=-1)`. */
  method MaxUsed(used: set<nat>) returns (m: int)
    ensures m >= -1
    ensures m == -1 <==> used == {}
    ensures m >= 0 ==> m in used
    ensures forall x :: x in used ==> x <= m
  {
    m := -1;
    var rest := used;
    while rest != {}
      invariant rest <= used && m >= -1
      invariant m == -1 <==> rest == used
      invariant m >= 0 ==> m in used
      invariant forall x :: x in used && x !in rest ==> x <= m
      decreases rest
    {
      var x :| x in rest;
      if x > m {
        m := x;
      }
      rest := rest - {x};
    }
  }

  /**
   * `_find_next_channel`: scan 0 .. max-1 for a gap, otherwise take max+1.
   * The result is the least channel not in use, and at most max+1.
   */
  method FindNextChannel(used: set<nat>) returns (channel: nat)
    ensures IsLeastFree(used, channel)
    ensures used == {} ==> channel == 0
    ensures used != {} ==> exists x :: x in used && channel <= x + 1
  {
    var maxUsed := MaxUsed(used);
    channel := maxUsed + 1;
    var i := 0;
    while i < maxUsed
      invariant 0 <= i && (maxUsed >= 0 ==> i <= maxUsed)
      invariant forall j: nat :: j < i ==> j in used
      invariant channel == maxUsed + 1
    {
      if i !in used {
        channel := i;
        break;
      }
      i := i + 1;
    }
    if used != {} {
      assert maxUsed in used && channel <= maxUsed + 1;
    }
  }

  /** No earlier cell holds the same tile: the position `np.unique(return_index=True)` reports. */
  predicate IsFirst<T(==)>(cells: seq<T>, i: nat)
    requires i < |cells|
  {
    forall j :: 0 <= j < i ==> cells[j] != cells[i]
  }

  /**
   * Automatic source channels: each distinct source tile gets the least
   * channel free at that tile, written only at its first position; the
   * other positions of the same tile stay None.
   */
  ghost function SourceChannels(registry: seq<Route>, cells: seq<Tile>): seq<Option<nat>>
  {
    seq(|cells|, i requires 0 <= i < |cells| =>
      if IsFirst(cells, i) then Some(LeastFree(SourceUsed(registry, cells[i]))) else None)
  }

  /** Channels already handed out, in this call, to earlier positions with tile `d`. */
  ghost function Taken(cells: seq<Tile>, channels: seq<nat>, d: Tile): set<nat>
    requires |channels| >= |cells|
    decreases |cells|
  {
    if cells == [] then {}
    else
      var n := |cells| - 1;
      Taken(cells[..n], channels, d) + (if cells[n] == d then {channels[n]} else {})
  }

  /**
   * Automatic destination channels, position by position in row-major
   * order: the least channel free at that tile, counting both existing
   * flows and the channels this call already assigned there.
   */
  ghost function DestChannels(registry: seq<Route>, cells: seq<Tile>): (r: seq<nat>)
    ensures |r| == |cells|
    decreases |cells|
  {
    if cells == [] then []
    else
      var n := |cells| - 1;
      var earlier := DestChannels(registry, cells[..n]);
      earlier + [LeastFree(DestUsed(registry, cells[n]) + Taken(cells[..n], earlier, cells[n]))]
  }

  method AssignSourceChannels(registry: seq<Route>, cells: seq<Tile>) returns (channels: seq<Option<nat>>)
    ensures channels == SourceChannels(registry, cells)
  {
    channels := seq(|cells|, _ => None);
    var i := 0;
    while i < |cells|
      invariant i <= |cells| && |channels| == |cells|
      invariant forall j :: 0 <= j < i ==> channels[j] == SourceChannels(registry, cells)[j]
      invariant forall j :: i <= j < |cells| ==> channels[j] == None
    {
      if forall j :: 0 <= j < i ==> cells[j] != cells[i] {
        var c := FindNextChannel(SourceUsed(registry, cells[i]));
        LeastFreeUnique(SourceUsed(registry, cells[i]), c);
        channels := channels[i := Some(c)];
      }
      i := i + 1;
    }
  }

  lemma TakenStep(cells: seq<Tile>, channels: seq<nat>, i: nat, d: Tile)
    requires i < |cells| && |channels| > i
    ensures Taken(cells[..i + 1], channels, d)
            == Taken(cells[..i], channels, d) + (if cells[i] == d then {channels[i]} else {})
  {
    assert cells[..i + 1][..i] == cells[..i];
  }

  /** Only the channels of the first |cells| positions matter. */
  lemma {:induction false} TakenPrefix(cells: seq<Tile>, channels: seq<nat>, other: seq<nat>, d: Tile)
    requires |channels| >= |cells| && |other| >= |cells|
    requires channels[..|cells|] == other[..|cells|]
    ensures Taken(cells, channels, d) == Taken(cells, other, d)
    decreases |cells|
  {
    if cells != [] {
      var n := |cells| - 1;
      assert channels[n] == channels[..|cells|][n] == other[..|cells|][n] == other[n];
      assert channels[..n] == channels[..|cells|][..n];
      assert other[..n] == other[..|cells|][..n];
      TakenPrefix(cells[..n], channels, other, d);
    }
  }

  lemma {:induction false} TakenHas(cells: seq<Tile>, channels: seq<nat>, i: nat)
    requires i < |cells| && |channels| >= |cells|
    ensures channels[i] in Taken(cells, channels, cells[i])
    decreases |cells|
  {
    var n := |cells| - 1;
    if i < n {
      assert cells[..n][i] == cells[i];
      TakenHas(cells[..n], channels, i);
    }
  }

  lemma TakenExtend(cells: seq<Tile>, channels: seq<nat>, c: nat, d: Tile)
    requires |channels| < |cells|
    ensures var i := |channels|;
      Taken(cells[..i + 1], channels + [c], d) == Taken(cells[..i], channels, d) + (if cells[i] == d then {c} else {})
  {
    var i := |channels|;
    assert (channels + [c])[..i] == channels[..i];
    TakenPrefix(cells[..i], channels, channels + [c], d);
    TakenStep(cells, channels + [c], i, d);
  }

  lemma DestChannelsStep(registry: seq<Route>, cells: seq<Tile>, i: nat)
    requires i < |cells|
    ensures DestChannels(registry, cells[..i + 1])
            == DestChannels(registry, cells[..i])
               + [LeastFree(DestUsed(registry, cells[i]) + Taken(cells[..i], DestChannels(registry, cells[..i]), cells[i]))]
  {
    assert cells[..i + 1][..i] == cells[..i];
  }

  /** The `used_channels` dictionary: the channels of existing flows into each destination tile. */
  method ExistingDestChannels(registry: seq<Route>, cells: seq<Tile>) returns (used: map<Tile, set<nat>>)
    ensures forall j :: 0 <= j < |cells| ==> cells[j] in used
    ensures forall d :: d in used ==> used[d] == DestUsed(registry, d)
  {
    used := map[];
    var k := 0;
    while k < |cells|
      invariant k <= |cells|
      invariant forall j :: 0 <= j < k ==> cells[j] in used
      invariant forall d :: d in used ==> used[d] == DestUsed(registry, d)
    {
      used := used[cells[k] := DestUsed(registry, cells[k])];
      k := k + 1;
    }
  }

  /** Each tile's entry of `used_channels` holds its existing channels and those handed out so far. */
  ghost predicate Tracks(used: map<Tile, set<nat>>, registry: seq<Route>, done: seq<Tile>, channels: seq<nat>)
    requires |channels| >= |done|
  {
    forall d :: d in used ==> used[d] == DestUsed(registry, d) + Taken(done, channels, d)
  }

  lemma TracksStep(used: map<Tile, set<nat>>, registry: seq<Route>, cells: seq<Tile>, channels: seq<nat>, c: nat)
    requires |channels| < |cells| && cells[|channels|] in used
    requires channels == DestChannels(registry, cells[..|channels|])
    requires Tracks(used, registry, cells[..|channels|], channels)
    requires IsLeastFree(used[cells[|channels|]], c)
    ensures var i := |channels|;
      && Tracks(used[cells[i] := used[cells[i]] + {c}], registry, cells[..i + 1], channels + [c])
      && channels + [c] == DestChannels(registry, cells[..i + 1])
  {
    var i := |channels|;
    var d := cells[i];
    LeastFreeUnique(used[d], c);
    DestChannelsStep(registry, cells, i);
    var after := used[d := used[d] + {c}];
    forall e | e in after
      ensures after[e] == DestUsed(registry, e) + Taken(cells[..i + 1], channels + [c], e)
    {
      TakenExtend(cells, channels, c, e);
    }
  }

  method AssignDestChannels(registry: seq<Route>, cells: seq<Tile>) returns (channels: seq<nat>)
    ensures channels == DestChannels(registry, cells)
  {
    var used := ExistingDestChannels(registry, cells);
    channels := [];
    var i := 0;
    while i < |cells|
      invariant i <= |cells| && |channels| == i
      invariant channels == DestChannels(registry, cells[..i])
      invariant Tracks(used, registry, cells[..i], channels) && forall j :: 0 <= j < |cells| ==> cells[j] in used
    {
      var c := FindNextChannel(used[cells[i]]);
      TracksStep(used, registry, cells, channels, c);
      used := used[cells[i] := used[cells[i]] + {c}];
      channels := channels + [c];
      i := i + 1;
    }
    assert cells[..i] == cells;
  }

  // ----- Facts about the channel specifications -----

  lemma {:induction false} DestChannelsPrefix(registry: seq<Route>, cells: seq<Tile>, i: nat)
    requires i <= |cells|
    ensures DestChannels(registry, cells[..i]) == DestChannels(registry, cells)[..i]
    decreases |cells|
  {
    if i < |cells| {
      var n := |cells| - 1;
      assert cells[..n][..i] == cells[..i];
      DestChannelsPrefix(registry, cells[..n], i);
    } else {
      assert cells[..i] == cells;
    }
  }

  /** Position `i` gets the least channel free at its tile, given the earlier positions. */
  lemma DestChannelAt(registry: seq<Route>, cells: seq<Tile>, i: nat)
    requires i < |cells|
    ensures var ch := DestChannels(registry, cells);
      IsLeastFree(DestUsed(registry, cells[i]) + Taken(cells[..i], ch, cells[i]), ch[i])
  {
    var ch := DestChannels(registry, cells);
    DestChannelsPrefix(registry, cells, i + 1);
    DestChannelsPrefix(registry, cells, i);
    var pre := cells[..i + 1];
    assert pre[..i] == cells[..i] && pre[i] == cells[i];
    var earlier := DestChannels(registry, cells[..i]);
    assert ch[i] == ch[..i + 1][i] == LeastFree(DestUsed(registry, cells[i]) + Taken(cells[..i], earlier, cells[i]));
    assert earlier[..i] == ch[..i];
    TakenPrefix(cells[..i], earlier, ch, cells[i]);
  }

  /**
   * Destination channels assigned at one tile are pairwise distinct and
   * clash with no existing flow into that tile.
   */
  lemma DestChannelsDistinct(registry: seq<Route>, cells: seq<Tile>)
    ensures var ch := DestChannels(registry, cells);
      && (forall i :: 0 <= i < |cells| ==> ch[i] !in DestUsed(registry, cells[i]))
      && (forall i, j :: 0 <= i < j < |cells| && cells[i] == cells[j] ==> ch[i] != ch[j])
  {
    var ch := DestChannels(registry, cells);
    forall j | 0 <= j < |cells|
      ensures ch[j] !in DestUsed(registry, cells[j])
      ensures forall i :: 0 <= i < j && cells[i] == cells[j] ==> ch[i] != ch[j]
    {
      DestChannelAt(registry, cells, j);
      forall i | 0 <= i < j && cells[i] == cells[j]
        ensures ch[i] != ch[j]
      {
        assert cells[..j][i] == cells[i];
        TakenHas(cells[..j], ch, i);
      }
    }
  }

  /** Occurrences of `d` among `cells`. */
  function Count<T(==)>(cells: seq<T>, d: T): nat
  {
    if cells == [] then 0 else Count(cells[..|cells| - 1], d) + (if cells[|cells| - 1] == d then 1 else 0)
  }

  lemma FreshChannel(registry: seq<Route>, cells: seq<Tile>, n: nat)
    requires n < |cells| && DestUsed(registry, cells[n]) == {}
    requires Taken(cells[..n], DestChannels(registry, cells), cells[n]) == Range(Count(cells[..n], cells[n]))
    ensures DestChannels(registry, cells)[n] == Count(cells[..n], cells[n])
  {
    DestChannelAt(registry, cells, n);
    LeastFreeOfRange(Count(cells[..n], cells[n]));
  }

  lemma {:induction false} TakenFresh(registry: seq<Route>, cells: seq<Tile>, i: nat, d: Tile)
    requires i <= |cells|
    requires forall j :: 0 <= j < |cells| ==> DestUsed(registry, cells[j]) == {}
    ensures Taken(cells[..i], DestChannels(registry, cells), d) == Range(Count(cells[..i], d))
    decreases i
  {
    var ch := DestChannels(registry, cells);
    if i > 0 {
      var n := i - 1;
      TakenFresh(registry, cells, n, d);
      TakenStep(cells, ch, n, d);
      assert Count(cells[..i], d) == Count(cells[..n], d) + (if cells[n] == d then 1 else 0) by {
        assert cells[..i][..n] == cells[..n];
      }
      if cells[n] == d {
        FreshChannel(registry, cells, n);
      }
    }
  }

  /**
   * With no earlier flow into any destination tile, the positions of one
   * tile get 0, 1, 2, ... in row-major order.
   */
  lemma DestChannelsFresh(registry: seq<Route>, cells: seq<Tile>)
    requires forall j :: 0 <= j < |cells| ==> DestUsed(registry, cells[j]) == {}
    ensures forall i :: 0 <= i < |cells| ==> DestChannels(registry, cells)[i] == Count(cells[..i], cells[i])
  {
    forall i | 0 <= i < |cells|
      ensures DestChannels(registry, cells)[i] == Count(cells[..i], cells[i])
    {
      TakenFresh(registry, cells, i, cells[i]);
      FreshChannel(registry, cells, i);
    }
  }

  // ----- The flows -----

  type Bundle = string
  type Annotation = string

  /** The arguments of one `flow(...)` call plus its annotations. */
  datatype Flow = Flow(source: Tile, sourceBundle: Option<Bundle>, sourceChannel: Option<nat>,
                       dest: Tile, destBundle: Option<Bundle>, destChannel: Option<nat>,
                       sourceAnnot: Option<Annotation>, destAnnot: Option<Annotation>)

  /** A single TileOp, or an array of them. */
  datatype TileArg = OneTile(tile: Tile) | Tiles(tiles: Grid<Tile>)

  /** `np.asarray([source])` for a single tile. */
  function AsGrid(t: TileArg): Grid<Tile>
  {
    match t
    case OneTile(x) => Grid([1], [x])
    case Tiles(g) => g
  }

  datatype FlowArgs = FlowArgs(source: TileArg, dest: TileArg,
                               sourceBundle: Grid<Option<Bundle>>, sourceChannel: ChannelArg,
                               destBundle: Grid<Option<Bundle>>, destChannel: ChannelArg,
                               sourceAnnot: Grid<Option<Annotation>>, destAnnot: Grid<Option<Annotation>>)

  /** `broadcast_flow(source, dest)` with every keyword left at its default. */
  function Defaults(source: TileArg, dest: TileArg): FlowArgs
  {
    FlowArgs(source, dest, Scalar(None), Auto, Scalar(None), Auto, Scalar(None), Scalar(None))
  }

  predicate ArgsWellShaped(a: FlowArgs)
  {
    && WellShaped(AsGrid(a.source)) && WellShaped(AsGrid(a.dest))
    && WellShaped(a.sourceBundle) && WellShaped(a.destBundle)
    && WellShaped(a.sourceAnnot) && WellShaped(a.destAnnot)
    && (a.sourceChannel.Given? ==> WellShaped(a.sourceChannel.channels))
    && (a.destChannel.Given? ==> WellShaped(a.destChannel.channels))
  }

  /** One flow, returned unwrapped, or the list of them. */
  datatype Flows = OneFlow(flow: Flow) | FlowList(flows: seq<Flow>)

  function AsList(f: Flows): seq<Flow>
  {
    match f
    case OneFlow(x) => [x]
    case FlowList(xs) => xs
  }

  /** The position of the argument whose shape does not broadcast, in the order of `args`. */
  datatype FlowError = MixedChannels | ShapeMismatch(argument: nat)

  /** Every argument flattened to the destination's cell count. */
  datatype Columns = Columns(source: seq<Tile>, sourceBundle: seq<Option<Bundle>>, sourceChannel: seq<Option<nat>>,
                             dest: seq<Tile>, destBundle: seq<Option<Bundle>>, destChannel: seq<Option<nat>>,
                             sourceAnnot: seq<Option<Annotation>>, destAnnot: seq<Option<Annotation>>)

  predicate ColumnsOfLength(c: Columns, n: nat)
  {
    && |c.source| == n && |c.sourceBundle| == n && |c.sourceChannel| == n && |c.dest| == n
    && |c.destBundle| == n && |c.destChannel| == n && |c.sourceAnnot| == n && |c.destAnnot| == n
  }

  /**
   * The loop over `args`: each argument is brought to the destination's
   * rank, checked to broadcast and flattened; the first that fails is
   * reported.
   */
  function BroadcastColumns(source: Grid<Tile>, sourceBundle: Grid<Option<Bundle>>, sourceChannel: Grid<Option<nat>>,
                            dest: Grid<Tile>, destBundle: Grid<Option<Bundle>>, destChannel: Grid<Option<nat>>,
                            sourceAnnot: Grid<Option<Annotation>>, destAnnot: Grid<Option<Annotation>>): (r: Result<Columns, FlowError>)
    requires WellShaped(source) && WellShaped(sourceBundle) && WellShaped(sourceChannel) && WellShaped(dest)
    requires WellShaped(destBundle) && WellShaped(destChannel) && WellShaped(sourceAnnot) && WellShaped(destAnnot)
    ensures r.Ok? ==> ColumnsOfLength(r.value, Product(dest.shape))
    ensures r.Ok? <==> && Fits(source.shape, dest.shape) && Fits(sourceBundle.shape, dest.shape)
                       && Fits(sourceChannel.shape, dest.shape) && Fits(destBundle.shape, dest.shape)
                       && Fits(destChannel.shape, dest.shape) && Fits(sourceAnnot.shape, dest.shape)
                       && Fits(destAnnot.shape, dest.shape)
    ensures r.Err? ==> r.error.ShapeMismatch? && r.error.argument < 8 && r.error.argument != 3
  {
    FlattenSame(dest);
    var shape := dest.shape;
    // The destination (argument 3) always broadcasts to its own shape and
    // flattens to its cells (FlattenSame), so its check never fails.
    var s0, s1, s2 := Flatten(source, shape), Flatten(sourceBundle, shape), Flatten(sourceChannel, shape);
    var s4, s5, s6, s7 := Flatten(destBundle, shape), Flatten(destChannel, shape), Flatten(sourceAnnot, shape), Flatten(destAnnot, shape);
    if s0.None? then Err(ShapeMismatch(0))
    else if s1.None? then Err(ShapeMismatch(1))
    else if s2.None? then Err(ShapeMismatch(2))
    else if s4.None? then Err(ShapeMismatch(4))
    else if s5.None? then Err(ShapeMismatch(5))
    else if s6.None? then Err(ShapeMismatch(6))
    else if s7.None? then Err(ShapeMismatch(7))
    else Ok(Columns(s0.value, s1.value, s2.value, dest.cells, s4.value, s5.value, s6.value, s7.value))
  }

  function FlowAt(c: Columns, i: nat): Flow
    requires ColumnsOfLength(c, |c.source|) && i < |c.source|
  {
    Flow(c.source[i], c.sourceBundle[i], c.sourceChannel[i], c.dest[i], c.destBundle[i], c.destChannel[i],
         c.sourceAnnot[i], c.destAnnot[i])
  }

  /** One flow per position of the broadcast arguments. */
  function FlowsOf(c: Columns): (flows: seq<Flow>)
    requires ColumnsOfLength(c, |c.source|)
    ensures |flows| == |c.source|
    ensures forall i :: 0 <= i < |flows| ==> flows[i].source == c.source[i] && flows[i].dest == c.dest[i]
  {
    seq(|c.source|, i requires 0 <= i < |c.source| => FlowAt(c, i))
  }

  function Wrap(flows: seq<Flow>): (r: Flows)
    ensures AsList(r) == flows
  {
    if |flows| == 1 then OneFlow(flows[0]) else FlowList(flows)
  }

  /** The source channels `broadcast_flow` uses: the given ones, or the allocator's. */
  ghost function ResolvedSource(registry: seq<Route>, a: FlowArgs): Grid<Option<nat>>
    requires a.sourceChannel.Given? ==> !Mixed(a.sourceChannel)
  {
    if IsAuto(a.sourceChannel) then Grid(AsGrid(a.source).shape, SourceChannels(registry, AsGrid(a.source).cells))
    else a.sourceChannel.channels
  }

  /** The destination channels `broadcast_flow` uses: the given ones, or the allocator's. */
  ghost function ResolvedDest(registry: seq<Route>, a: FlowArgs): Grid<Option<nat>>
  {
    if IsAuto(a.destChannel) then
      var ch := DestChannels(registry, AsGrid(a.dest).cells);
      Grid(AsGrid(a.dest).shape, seq(|ch|, i requires 0 <= i < |ch| => Some(ch[i])))
    else a.destChannel.channels
  }

  /** What `broadcast_flow` returns, or the assertion it fails. */
  ghost function BroadcastFlowSpec(registry: seq<Route>, a: FlowArgs): Result<Flows, FlowError>
    requires ArgsWellShaped(a)
  {
    if Mixed(a.sourceChannel) || Mixed(a.destChannel) then Err(MixedChannels)
    else
      var cols := BroadcastColumns(AsGrid(a.source), a.sourceBundle, ResolvedSource(registry, a),
                                   AsGrid(a.dest), a.destBundle, ResolvedDest(registry, a),
                                   a.sourceAnnot, a.destAnnot);
      if cols.Err? then Err(cols.error)
      else Ok(Wrap(FlowsOf(cols.value)))
  }

  /** The channel arrays `broadcast_flow` goes on with once the mixed-channel assertion passed. */
  method ResolveChannels(registry: seq<Route>, a: FlowArgs) returns (sourceChannel: Grid<Option<nat>>, destChannel: Grid<Option<nat>>)
    requires !Mixed(a.sourceChannel) && !Mixed(a.destChannel)
    ensures sourceChannel == ResolvedSource(registry, a) && destChannel == ResolvedDest(registry, a)
  {
    var source, dest := AsGrid(a.source), AsGrid(a.dest);
    sourceChannel := if a.sourceChannel.Given? then a.sourceChannel.channels else Scalar(None);
    if IsAuto(a.sourceChannel) {
      var ch := AssignSourceChannels(registry, source.cells);
      sourceChannel := Grid(source.shape, ch);
    }
    destChannel := if a.destChannel.Given? then a.destChannel.channels else Scalar(None);
    if IsAuto(a.destChannel) {
      var ch := AssignDestChannels(registry, dest.cells);
      destChannel := Grid(dest.shape, seq(|ch|, i requires 0 <= i < |ch| => Some(ch[i])));
    }
  }

  /** The loop that calls `flow(...)` once per position and collects the results. */
  method AssembleFlows(c: Columns) returns (flows: seq<Flow>)
    requires ColumnsOfLength(c, |c.source|)
    ensures flows == FlowsOf(c)
  {
    flows := [];
    var i := 0;
    while i < |c.source|
      invariant i <= |c.source| && |flows| == i
      invariant forall j :: 0 <= j < i ==> flows[j] == FlowAt(c, j)
    {
      flows := flows + [FlowAt(c, i)];
      i := i + 1;
    }
  }

  /**
   * The routes a list of new flows adds to the module, in order. A flow
   * that has no source channel (a later position of a source tile whose
   * automatic channel went to its first position) is not entered.
   */
  function RoutesOf(flows: seq<Flow>): (routes: seq<Route>)
    ensures |routes| <= |flows|
  {
    if flows == [] then []
    else
      var f := flows[0];
      (if f.sourceChannel.Some? && f.destChannel.Some?
       then [Route(f.source, f.sourceChannel.value, f.dest, f.destChannel.value)] else [])
      + RoutesOf(flows[1..])
  }

  /**
   * `broadcast_flow`: reject mixed channel arguments, allocate the missing
   * channels, broadcast every argument to the destination and emit one
   * flow per destination position. The flows it creates join the module,
   * so `after` is the registry the next call sees.
   */
  method BroadcastFlow(registry: seq<Route>, a: FlowArgs) returns (r: Result<Flows, FlowError>, after: seq<Route>)
    requires ArgsWellShaped(a)
    ensures r == BroadcastFlowSpec(registry, a)
    ensures after == if r.Ok? then registry + RoutesOf(AsList(r.value)) else registry
  {
    after := registry;
    if Mixed(a.sourceChannel) || Mixed(a.destChannel) {
      return Err(MixedChannels), after;
    }
    var sourceChannel, destChannel := ResolveChannels(registry, a);
    ResolvedWellShaped(registry, a);
    var cols := BroadcastColumns(AsGrid(a.source), a.sourceBundle, sourceChannel, AsGrid(a.dest), a.destBundle,
                                 destChannel, a.sourceAnnot, a.destAnnot);
    if cols.Err? {
      return Err(cols.error), after;
    }
    var flows := AssembleFlows(cols.value);
    r := Ok(Wrap(flows));
    after := registry + RoutesOf(flows);
  }

  // ----- What broadcast_flow promises -----

  /**
   * The only errors: a channel argument mixing None with channels, and an
   * argument (other than the destination itself) whose shape does not
   * broadcast to the destination's.
   */
  lemma BroadcastFlowErrors(registry: seq<Route>, a: FlowArgs)
    requires ArgsWellShaped(a)
    ensures var r := BroadcastFlowSpec(registry, a);
      var shape := AsGrid(a.dest).shape;
      && (r == Err(MixedChannels) <==> Mixed(a.sourceChannel) || Mixed(a.destChannel))
      && (r.Err? && r.error.ShapeMismatch? ==> r.error.argument < 8 && r.error.argument != 3)
      && (r.Ok? <==> && !Mixed(a.sourceChannel) && !Mixed(a.destChannel)
                     && Fits(AsGrid(a.source).shape, shape) && Fits(a.sourceBundle.shape, shape)
                     && Fits(ResolvedSource(registry, a).shape, shape) && Fits(a.destBundle.shape, shape)
                     && Fits(ResolvedDest(registry, a).shape, shape) && Fits(a.sourceAnnot.shape, shape)
                     && Fits(a.destAnnot.shape, shape))
  {
    if !Mixed(a.sourceChannel) && !Mixed(a.destChannel) {
      ResolvedWellShaped(registry, a);
    }
  }

  lemma ResolvedWellShaped(registry: seq<Route>, a: FlowArgs)
    requires ArgsWellShaped(a) && !Mixed(a.sourceChannel) && !Mixed(a.destChannel)
    ensures WellShaped(ResolvedSource(registry, a)) && WellShaped(ResolvedDest(registry, a))
  {
  }

  /**
   * One flow per destination position, in row-major order, each to the
   * tile at that position; a single flow comes back unwrapped.
   */
  lemma OneFlowPerDestination(registry: seq<Route>, a: FlowArgs)
    requires ArgsWellShaped(a)
    requires BroadcastFlowSpec(registry, a).Ok?
    ensures var flows := AsList(BroadcastFlowSpec(registry, a).value);
      && |flows| == |AsGrid(a.dest).cells|
      && (forall i :: 0 <= i < |flows| ==> flows[i].dest == AsGrid(a.dest).cells[i])
      && (BroadcastFlowSpec(registry, a).value.OneFlow? <==> |flows| == 1)
  {
  }

  /** With automatic destination channels, flow i goes to destination i on the allocator's channel i. */
  lemma AutoDestFlows(registry: seq<Route>, a: FlowArgs)
    requires ArgsWellShaped(a) && IsAuto(a.destChannel)
    requires BroadcastFlowSpec(registry, a).Ok?
    ensures var flows := AsList(BroadcastFlowSpec(registry, a).value);
      var ch := DestChannels(registry, AsGrid(a.dest).cells);
      && |flows| == |ch|
      && (forall i :: 0 <= i < |flows| ==> flows[i].dest == AsGrid(a.dest).cells[i] && flows[i].destChannel == Some(ch[i]))
  {
    FlattenSame(AsGrid(a.dest));
    FlattenSame(ResolvedDest(registry, a));
  }

  /**
   * With the destination channels left to the allocator, each flow's
   * destination channel is the allocator's channel for its position, so
   * the channels at one tile are distinct and new to that tile.
   */
  lemma AutoDestChannels(registry: seq<Route>, a: FlowArgs)
    requires ArgsWellShaped(a) && IsAuto(a.destChannel)
    requires BroadcastFlowSpec(registry, a).Ok?
    ensures var flows := AsList(BroadcastFlowSpec(registry, a).value);
      var ch := DestChannels(registry, AsGrid(a.dest).cells);
      && |flows| == |ch|
      && (forall i :: 0 <= i < |flows| ==> flows[i].destChannel == Some(ch[i]))
      && (forall i :: 0 <= i < |flows| ==> ch[i] !in DestUsed(registry, flows[i].dest))
      && (forall i, j :: 0 <= i < j < |flows| && flows[i].dest == flows[j].dest ==> ch[i] != ch[j])
  {
    AutoDestFlows(registry, a);
    DestChannelsDistinct(registry, AsGrid(a.dest).cells);
  }

  /**
   * Fan-out: one source tile sent to every tile of `dest` with default
   * arguments gives one flow per destination, all from that tile on one
   * shared source channel, the least one free there.
   */
  lemma FanOut(registry: seq<Route>, s: Tile, dest: Grid<Tile>)
    requires WellShaped(dest) && |dest.shape| >= 1
    ensures var r := BroadcastFlowSpec(registry, Defaults(OneTile(s), Tiles(dest)));
      && r.Ok?
      && var flows := AsList(r.value);
      && |flows| == |dest.cells|
      && forall i :: 0 <= i < |flows| ==>
           && flows[i].source == s && flows[i].dest == dest.cells[i]
           && flows[i].sourceChannel == Some(LeastFree(SourceUsed(registry, s)))
           && flows[i].destChannel == Some(DestChannels(registry, dest.cells)[i])
           && flows[i].sourceBundle.None? && flows[i].destBundle.None?
  {
    var a := Defaults(OneTile(s), Tiles(dest));
    var shape := dest.shape;
    var src := Grid([1], [s]);
    assert IsFirst(src.cells, 0);
    var sc := ResolvedSource(registry, a);
    assert sc == Grid([1], [Some(LeastFree(SourceUsed(registry, s)))]);
    FlattenSingle(src, shape);
    FlattenSingle(sc, shape);
    FlattenSingle(a.sourceBundle, shape);
    FlattenSingle(a.destBundle, shape);
    FlattenSingle(a.sourceAnnot, shape);
    FlattenSingle(a.destAnnot, shape);
    FlattenSame(dest);
    FlattenSame(ResolvedDest(registry, a));
  }

  /**
   * With no earlier flows at all, the default call gives every destination
   * tile channels 0, 1, 2, ... in row-major order, so a fan-out to
   * distinct tiles uses channel 0 at each, and the source channel is 0.
   */
  lemma FreshFanOut(s: Tile, dest: Grid<Tile>)
    requires WellShaped(dest) && |dest.shape| >= 1
    ensures var r := BroadcastFlowSpec([], Defaults(OneTile(s), Tiles(dest)));
      && r.Ok?
      && var flows := AsList(r.value);
      && forall i :: 0 <= i < |flows| ==>
           flows[i].sourceChannel == Some(0) && flows[i].destChannel == Some(Count(dest.cells[..i], dest.cells[i]))
  {
    FanOut([], s, dest);
    assert SourceUsed([], s) == {};
    LeastFreeUnique({}, 0);
    DestChannelsFresh([], dest.cells);
  }

  /** A flow with both channels is entered in the routes with those channels. */
  lemma {:induction false} RoutesOfHas(flows: seq<Flow>, j: nat)
    requires j < |flows| && flows[j].sourceChannel.Some? && flows[j].destChannel.Some?
    ensures Route(flows[j].source, flows[j].sourceChannel.value, flows[j].dest, flows[j].destChannel.value)
            in RoutesOf(flows)
  {
    if j > 0 {
      RoutesOfHas(flows[1..], j - 1);
    }
  }

  /**
   * Two calls in a row: once the first call's flows have joined the
   * registry, the automatic destination channels of the second call never
   * reuse a channel that a first-call flow into the same tile received.
   */
  lemma SecondCallAvoidsFirst(registry: seq<Route>, first: FlowArgs, second: FlowArgs)
    requires ArgsWellShaped(first) && BroadcastFlowSpec(registry, first).Ok?
    requires ArgsWellShaped(second) && IsAuto(second.destChannel)
    requires BroadcastFlowSpec(registry + RoutesOf(AsList(BroadcastFlowSpec(registry, first).value)), second).Ok?
    ensures var flows1 := AsList(BroadcastFlowSpec(registry, first).value);
      var flows2 := AsList(BroadcastFlowSpec(registry + RoutesOf(flows1), second).value);
      forall i, j :: 0 <= i < |flows2| && 0 <= j < |flows1|
        && flows1[j].sourceChannel.Some? && flows1[j].destChannel.Some? && flows2[i].dest == flows1[j].dest
        ==> flows2[i].destChannel != flows1[j].destChannel
  {
    var flows1 := AsList(BroadcastFlowSpec(registry, first).value);
    var after := registry + RoutesOf(flows1);
    var flows2 := AsList(BroadcastFlowSpec(after, second).value);
    AutoDestChannels(after, second);
    forall i, j | 0 <= i < |flows2| && 0 <= j < |flows1|
        && flows1[j].sourceChannel.Some? && flows1[j].destChannel.Some? && flows2[i].dest == flows1[j].dest
      ensures flows2[i].destChannel != flows1[j].destChannel
    {
      var f := flows1[j];
      var route := Route(f.source, f.sourceChannel.value, f.dest, f.destChannel.value);
      RoutesOfHas(flows1, j);
      var k :| 0 <= k < |RoutesOf(flows1)| && RoutesOf(flows1)[k] == route;
      assert after[|registry| + k] == route;
      assert f.destChannel.value in DestUsed(after, f.dest);
    }
  }
}
