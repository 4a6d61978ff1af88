/**
 Physical frames (src/memory.rs): the boot memory map and the allocator that walks its
 usable regions.  Frames are named by their number; the address is 4096 times that.
 */
module Frames {
  import opened Common

  const FRAME_SIZE: nat := 4096

  datatype Region = Region(usable: bool, start: nat, end: nat) {
    /** The region is usable and holds the frame. */
    predicate Offers(frame: nat) {
      usable && start <= frame < end
    }
  }

  type MemoryMap = seq<Region>

  /** The frame numbers of a half-open range, in order; an inverted range is empty. */
  function Range(start: nat, end: nat): (r: seq<nat>)
    ensures |r| == if start <= end then end - start else 0
    ensures forall i :: 0 <= i < |r| ==> r[i] == start + i
    decreases end - start
  {
    if start >= end then [] else [start] + Range(start + 1, end)
  }

  /** `usable_frames`: keep the usable regions, flatten their ranges, in map order. */
  function UsableFrames(regions: MemoryMap): seq<nat> {
    if regions == [] then []
    else
      (if regions[0].usable then Range(regions[0].start, regions[0].end) else []) + UsableFrames(regions[1..])
  }

  /** The `usable_bytes` sum of `init`, over the integers. */
  function UsableBytes(regions: MemoryMap): int {
    if regions == [] then 0
    else (if regions[0].usable then (regions[0].end - regions[0].start) * FRAME_SIZE else 0) + UsableBytes(regions[1..])
  }

  ghost predicate InUsable(regions: MemoryMap, frame: nat) {
    exists k :: 0 <= k < |regions| && regions[k].Offers(frame)
  }

  /** No usable region is inverted. */
  ghost predicate Ordered(regions: MemoryMap) {
    forall k :: 0 <= k < |regions| && regions[k].usable ==> regions[k].start <= regions[k].end
  }

  /** No two usable regions share a frame. */
  ghost predicate Disjoint(regions: MemoryMap) {
    forall j, k, f: nat :: 0 <= j < k < |regions| ==> !(regions[j].Offers(f) && regions[k].Offers(f))
  }

  ghost predicate Distinct(s: seq<nat>) {
    forall i, j :: 0 <= i < j < |s| ==> s[i] != s[j]
  }

  lemma InUsableTail(regions: MemoryMap, frame: nat)
    requires regions != []
    ensures InUsable(regions, frame)
        <==> regions[0].Offers(frame) || InUsable(regions[1..], frame)
  {
    if InUsable(regions[1..], frame) {
      var k :| 0 <= k < |regions[1..]| && regions[1..][k].Offers(frame);
      assert regions[k + 1] == regions[1..][k];
    }
    if InUsable(regions, frame) {
      var k :| 0 <= k < |regions| && regions[k].Offers(frame);
      assert k > 0 ==> regions[1..][k - 1] == regions[k];
    }
  }

  lemma InRange(start: nat, end: nat, f: nat)
    ensures f in Range(start, end) <==> start <= f < end
  {
    if start <= f < end {
      assert Range(start, end)[f - start] == f;
    }
  }

  /** A frame is handed out exactly when it lies in some usable region. */
  lemma {:induction false} UsableFramesMembers(regions: MemoryMap, f: nat)
    ensures f in UsableFrames(regions) <==> InUsable(regions, f)
  {
    if regions != [] {
      UsableFramesMembers(regions[1..], f);
      InUsableTail(regions, f);
      InRange(regions[0].start, regions[0].end, f);
    }
  }

  lemma DistinctConcat(a: seq<nat>, b: seq<nat>)
    requires Distinct(a) && Distinct(b) && forall f :: f in a ==> f !in b
    ensures Distinct(a + b)
  {
    forall i, j | 0 <= i < j < |a + b|
      ensures (a + b)[i] != (a + b)[j]
    {
      if i < |a| <= j {
        assert a[i] in a && b[j - |a|] in b;
      }
    }
  }

  /** Over disjoint usable regions no frame is listed twice. */
  lemma {:induction false} UsableFramesDistinct(regions: MemoryMap)
    requires Disjoint(regions)
    ensures Distinct(UsableFrames(regions))
  {
    if regions != [] {
      var head := if regions[0].usable then Range(regions[0].start, regions[0].end) else [];
      assert Disjoint(regions[1..]) by {
        assert forall k :: 0 <= k < |regions[1..]| ==> regions[1..][k] == regions[k + 1];
      }
      UsableFramesDistinct(regions[1..]);
      forall f | f in head
        ensures f !in UsableFrames(regions[1..])
      {
        InRange(regions[0].start, regions[0].end, f);
        UsableFramesMembers(regions[1..], f);
        assert forall k :: 0 <= k < |regions[1..]| ==> regions[1..][k] == regions[k + 1];
      }
      DistinctConcat(head, UsableFrames(regions[1..]));
    }
  }

  lemma OffersTail(regions: MemoryMap, f: nat, k: nat)
    requires regions != [] && Disjoint(regions) && InUsable(regions[1..], f)
    requires k < |regions| && regions[k].Offers(f)
    ensures k > 0 && regions[1..][k - 1].Offers(f)
  {
    var j :| 0 <= j < |regions[1..]| && regions[1..][j].Offers(f);
    assert regions[1..][j] == regions[j + 1];
  }

  lemma DisjointTail(regions: MemoryMap)
    requires regions != [] && Disjoint(regions)
    ensures Disjoint(regions[1..])
  {
    assert forall k :: 0 <= k < |regions[1..]| ==> regions[1..][k] == regions[k + 1];
  }

  /** A frame listed after those of the first region is offered by a later one. */
  lemma InTail(regions: MemoryMap, i: nat, k: nat)
    requires regions != [] && Disjoint(regions) && i < |UsableFrames(regions)| && k < |regions|
    requires regions[k].Offers(UsableFrames(regions)[i])
    requires |UsableFrames(regions)| - |UsableFrames(regions[1..])| <= i
    ensures k > 0
    ensures var n := i - (|UsableFrames(regions)| - |UsableFrames(regions[1..])|);
            n < |UsableFrames(regions[1..])| && UsableFrames(regions[1..])[n] == UsableFrames(regions)[i]
            && regions[1..][k - 1].Offers(UsableFrames(regions)[i])
  {
    var tail := UsableFrames(regions[1..]);
    var f := UsableFrames(regions)[i];
    assert f == tail[i - (|UsableFrames(regions)| - |tail|)];
    assert f in tail;
    UsableFramesMembers(regions[1..], f);
    OffersTail(regions, f, k);
  }

  /** Frame `f`, offered by region `a`, comes before frame `g`, offered by region `b`. */
  predicate Precedes(a: nat, f: nat, b: nat, g: nat) {
    a < b || (a == b && f < g)
  }

  /**
   The frames are listed in map order: of two of them, the earlier one lies in an earlier
   region, or lower in the same region.
   */
  lemma {:induction false} UsableFramesInOrder(regions: MemoryMap, i: nat, j: nat, a: nat, b: nat)
    requires Disjoint(regions) && i < j < |UsableFrames(regions)| && a < |regions| && b < |regions|
    requires regions[a].Offers(UsableFrames(regions)[i]) && regions[b].Offers(UsableFrames(regions)[j])
    ensures Precedes(a, UsableFrames(regions)[i], b, UsableFrames(regions)[j])
    decreases |regions|
  {
    var head := if regions[0].usable then Range(regions[0].start, regions[0].end) else [];
    var f, g := UsableFrames(regions)[i], UsableFrames(regions)[j];
    if j < |head| {
      assert regions[0].Offers(f) && regions[0].Offers(g);
      assert a == 0 && b == 0;
    } else if i < |head| {
      assert regions[0].Offers(f) && a == 0;
      InTail(regions, j, b);
    } else {
      DisjointTail(regions);
      InTail(regions, i, a);
      InTail(regions, j, b);
      UsableFramesInOrder(regions[1..], i - |head|, j - |head|, a - 1, b - 1);
    }
  }

  /**
   The two traversals of the map agree if and only if no usable region is inverted: the
   bytes `init` reports are the bytes of the frames an allocator can ever hand out.
   */
  lemma {:induction false} ReportedBytesAreAllocatable(regions: MemoryMap)
    ensures UsableBytes(regions) <= |UsableFrames(regions)| * FRAME_SIZE
    ensures UsableBytes(regions) == |UsableFrames(regions)| * FRAME_SIZE <==> Ordered(regions)
  {
    if regions != [] {
      ReportedBytesAreAllocatable(regions[1..]);
      OrderedTail(regions);
    }
  }

  /** One past the largest `u64`. */
  const U64: nat := 0x1_0000_0000_0000_0000

  /** The bytes of a region in `u64`, or none where the subtraction or the product overflows. */
  function RegionBytes(region: Region): Option<nat> {
    if region.end < region.start || (region.end - region.start) * FRAME_SIZE >= U64 then None
    else Some((region.end - region.start) * FRAME_SIZE)
  }

  /** The sum as `init` computes it with overflow checks, adding to `sum` region by region; none is a panic. */
  function CheckedBytes(regions: MemoryMap, sum: nat): Option<nat>
    decreases regions
  {
    if regions == [] then Some(sum)
    else if !regions[0].usable then CheckedBytes(regions[1..], sum)
    else
      match RegionBytes(regions[0])
      case None => None
      case Some(bytes) => if sum + bytes >= U64 then None else CheckedBytes(regions[1..], sum + bytes)
  }

  /** The same without overflow checks: every operation wraps. */
  function WrappedBytes(regions: MemoryMap, sum: nat): nat
    decreases regions
  {
    if regions == [] then sum
    else if !regions[0].usable then WrappedBytes(regions[1..], sum)
    else WrappedBytes(regions[1..], WrappedAdd(sum, regions[0].end - regions[0].start))
  }

  /** Adding the bytes of so many frames in `u64`: difference, product and sum all wrap. */
  function WrappedAdd(sum: nat, frames: int): nat {
    (sum + (frames % U64 * FRAME_SIZE) % U64) % U64
  }

  lemma OrderedTail(regions: MemoryMap)
    requires regions != []
    ensures Ordered(regions)
        <==> (regions[0].usable ==> regions[0].start <= regions[0].end) && Ordered(regions[1..])
  {
    if Ordered(regions[1..]) {
      assert forall k :: 1 <= k < |regions| ==> regions[k] == regions[1..][k - 1];
    }
  }

  /**
   In `u64` with overflow checks, `init` gets past the sum if and only if no usable region
   is inverted and the allocatable bytes fit; it then reports exactly those bytes.
   */
  lemma {:induction false} CheckedBytesAreAllocatable(regions: MemoryMap, sum: nat)
    requires sum < U64
    ensures CheckedBytes(regions, sum)
         == if Ordered(regions) && sum + |UsableFrames(regions)| * FRAME_SIZE < U64
            then Some(sum + |UsableFrames(regions)| * FRAME_SIZE) else None
    decreases regions
  {
    if regions != [] {
      OrderedTail(regions);
      if !regions[0].usable {
        CheckedBytesAreAllocatable(regions[1..], sum);
      } else if RegionBytes(regions[0]).Some? && sum + RegionBytes(regions[0]).value < U64 {
        CheckedBytesAreAllocatable(regions[1..], sum + RegionBytes(regions[0]).value);
      }
    }
  }

  lemma ModuloOfSum(x: int, y: int)
    ensures (x % U64 + y) % U64 == (x + y) % U64
  {
    assert x == x / U64 * U64 + x % U64;
  }

  lemma ModuloOfMultiple(x: int, k: int)
    ensures (x + k * U64) % U64 == x % U64
  {
  }

  lemma WrappedAddIsModulo(sum: nat, frames: int)
    ensures WrappedAdd(sum, frames) == (sum + frames * FRAME_SIZE) % U64
  {
    var a, k := frames % U64 * FRAME_SIZE, frames / U64 * FRAME_SIZE;
    ModuloOfSum(a, sum);
    ModuloOfMultiple(a + sum, k);
    assert frames * FRAME_SIZE == a + k * U64;
  }

  /** Without the checks the report is the integer sum modulo 2^64, inverted regions counting negative. */
  lemma {:induction false} WrappedBytesAreModulo(regions: MemoryMap, sum: nat)
    requires sum < U64
    ensures WrappedBytes(regions, sum) == (sum + UsableBytes(regions)) % U64
    decreases regions
  {
    if regions != [] {
      if !regions[0].usable {
        WrappedBytesAreModulo(regions[1..], sum);
      } else {
        var frames := regions[0].end - regions[0].start;
        hide WrappedAdd;
        WrappedAddIsModulo(sum, frames);
        WrappedBytesAreModulo(regions[1..], WrappedAdd(sum, frames));
        ModuloOfSum(sum + frames * FRAME_SIZE, UsableBytes(regions[1..]));
      }
    }
  }

  /** The `next`-th usable frame, or none: what a call of `allocate_frame` returns. */
  function Nth(frames: seq<nat>, next: nat): Option<nat> {
    if next < |frames| then Some(frames[next]) else None
  }

  /** What `calls` calls return, starting with the counter at `next`. */
  function Deliveries(regions: MemoryMap, next: nat, calls: nat): (d: seq<Option<nat>>)
    ensures |d| == calls
    ensures forall i :: 0 <= i < calls ==> d[i] == Nth(UsableFrames(regions), next + i)
  {
    seq(calls, i requires 0 <= i < calls => Nth(UsableFrames(regions), next + i))
  }

  /**
   For every map with disjoint usable regions and any number of calls on one allocator:
   each frame given lies inside a usable region, no frame is given twice; once a call gives
   none, so does every later one; and every usable frame is eventually given.
   */
  lemma AllocatorDeliversEachFrameOnce(regions: MemoryMap, calls: nat)
    requires Disjoint(regions)
    ensures var d := Deliveries(regions, 0, calls);
            && (forall k :: 0 <= k < calls && d[k].Some? ==> InUsable(regions, d[k].value))
            && (forall j, k :: 0 <= j < k < calls && d[j].Some? && d[k].Some? ==> d[j] != d[k])
            && (forall j, k :: 0 <= j <= k < calls && d[j] == None ==> d[k] == None)
            && (forall f: nat :: calls >= |UsableFrames(regions)| && InUsable(regions, f) ==> Some(f) in d)
  {
    var frames, d := UsableFrames(regions), Deliveries(regions, 0, calls);
    UsableFramesDistinct(regions);
    forall k | 0 <= k < calls && d[k].Some?
      ensures InUsable(regions, d[k].value)
    {
      assert frames[k] in frames;
      UsableFramesMembers(regions, frames[k]);
    }
    forall f: nat | calls >= |frames| && InUsable(regions, f)
      ensures Some(f) in d
    {
      UsableFramesMembers(regions, f);
      var k :| 0 <= k < |frames| && frames[k] == f;
      assert d[k] == Some(f);
    }
  }

  /** And they come in map order: of two calls, the earlier gives the frame that precedes. */
  lemma AllocatorDeliversInOrder(regions: MemoryMap, calls: nat, j: nat, k: nat, a: nat, b: nat)
    requires Disjoint(regions) && j < k < calls && a < |regions| && b < |regions|
    requires var d := Deliveries(regions, 0, calls);
             && d[j].Some? && regions[a].Offers(d[j].value)
             && d[k].Some? && regions[b].Offers(d[k].value)
    ensures var d := Deliveries(regions, 0, calls); Precedes(a, d[j].value, b, d[k].value)
  {
    UsableFramesInOrder(regions, j, k, a, b);
  }

  /** `BootInfoFrameAllocator`. */
  class FrameAllocator {
    const regions: MemoryMap
    var next: nat

    constructor (regions: MemoryMap)
      ensures this.regions == regions && next == 0
    {
      this.regions, next := regions, 0;
    }

    /** The counter moves on even when nothing is left. */
    method AllocateFrame() returns (frame: Option<nat>)
      modifies this
      ensures frame == Nth(UsableFrames(regions), old(next)) && next == old(next) + 1
    {
      frame := NthUsable(next);
      next := next + 1;
    }

    /** Any number of calls in a row deliver the listed frames in order. */
    method AllocateMany(calls: nat) returns (given: seq<Option<nat>>)
      modifies this
      ensures given == Deliveries(regions, old(next), calls) && next == old(next) + calls
    {
      given := [];
      for i := 0 to calls
        invariant next == old(next) + i && |given| == i
        invariant forall j :: 0 <= j < i ==> given[j] == Nth(UsableFrames(regions), old(next) + j)
      {
        var frame := AllocateFrame();
        given := given + [frame];
      }
    }

    /** `usable_frames().nth(n)`, walking the map region by region. */
    method NthUsable(n: nat) returns (frame: Option<nat>)
      ensures frame == Nth(UsableFrames(regions), n)
    {
      var left: nat := n;
      for k := 0 to |regions|
        invariant Nth(UsableFrames(regions[k..]), left) == Nth(UsableFrames(regions), n)
      {
        assert regions[k..][1..] == regions[k + 1..];
        var region := regions[k];
        if region.usable && region.start < region.end {
          if left < region.end - region.start {
            assert Range(region.start, region.end)[left] == region.start + left;
            return Some(region.start + left);
          }
          left := left - (region.end - region.start);
        }
      }
      return None;
    }
  }
}
