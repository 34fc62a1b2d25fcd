/** `HugePagesIovaMgr`: a fixed pool of IOVAs, one 2 MiB window each. */
module Iova {
  import opened Ring

  /** A usable range of IOVAs: start and stop. */
  datatype Range = Range(start: nat, stop: nat)

  const FIRST_IOVA := 0x1000
  const INCREMENT := 2 * 1024 * 1024
  const MAX_IOVAS := 1000

  /** IOVAs taken from one range: its start in any case, then one per increment up to max. */
  function Fill(next: nat, max: int, inc: nat): (r: seq<nat>)
    requires 0 < inc
    ensures r != []
    decreases max - next
  {
    [next] + if next + inc <= max then Fill(next + inc, max, inc) else []
  }

  function FillAll(ranges: seq<Range>, inc: nat): seq<nat>
    requires 0 < inc
  {
    if ranges == [] then []
    else Fill(ranges[0].start, ranges[0].stop - inc, inc) + FillAll(ranges[1..], inc)
  }

  /** A first range that starts at 0 is moved up. */
  function Bumped(ranges: seq<Range>): seq<Range> {
    if ranges != [] && ranges[0].start == 0 then [Range(FIRST_IOVA, ranges[0].stop)] + ranges[1..] else ranges
  }

  /** Every IOVA the ranges can supply, in the order `reset` takes them. */
  function Supply(ranges: seq<Range>, inc: nat): seq<nat>
    requires 0 < inc
  {
    FillAll(Bumped(ranges), inc)
  }

  /** The assertion on a bumped first range, and a first range to start from. */
  predicate Startable(ranges: seq<Range>, inc: nat) {
    ranges != [] && (ranges[0].start == 0 ==> FIRST_IOVA <= ranges[0].stop - inc)
  }

  /** Each range holds at least one window. */
  ghost predicate Roomy(ranges: seq<Range>, inc: nat) {
    forall i :: 0 <= i < |ranges| ==> ranges[i].start + inc <= ranges[i].stop
  }

  ghost predicate Separate(ranges: seq<Range>) {
    forall i, j :: 0 <= i < j < |ranges| ==>
      ranges[i].stop <= ranges[j].start || ranges[j].stop <= ranges[i].start
  }

  ghost predicate WindowIn(iova: nat, r: Range, inc: nat) {
    r.start <= iova && iova + inc <= r.stop
  }

  /** Values from lo to max, growing by at least inc. */
  ghost predicate Spread(r: seq<nat>, lo: nat, max: int, inc: nat) {
    && (forall i :: 0 <= i < |r| ==> lo <= r[i] <= max)
    && (forall i, j :: 0 <= i < j < |r| ==> r[i] + inc <= r[j])
  }

  lemma SpreadCons(r: seq<nat>, lo: nat, max: int, inc: nat)
    requires Spread(r, lo + inc, max, inc) && lo <= max
    ensures Spread([lo] + r, lo, max, inc)
  {
    var s := [lo] + r;
    forall i, j | 0 <= i < j < |s|
      ensures s[i] + inc <= s[j]
    {
      assert s[j] == r[j - 1];
      if i > 0 {
        assert s[i] == r[i - 1];
      }
    }
    forall i | 0 <= i < |s|
      ensures lo <= s[i] <= max
    {
      if i > 0 {
        assert s[i] == r[i - 1];
      }
    }
  }

  lemma {:induction false} FillSorted(next: nat, max: int, inc: nat)
    requires 0 < inc && next <= max
    ensures Spread(Fill(next, max, inc), next, max, inc)
    decreases max - next
  {
    if next + inc <= max {
      FillSorted(next + inc, max, inc);
      SpreadCons(Fill(next + inc, max, inc), next, max, inc);
    }
  }

  lemma {:induction false} FillCount(next: nat, stop: nat, inc: nat)
    requires 0 < inc && next + inc <= stop
    ensures |Fill(next, stop - inc, inc)| == (stop - next) / inc
    decreases stop - next
  {
    var n, rem := (stop - next) / inc, (stop - next) % inc;
    assert stop - next == n * inc + rem;
    if next + inc <= stop - inc {
      FillCount(next + inc, stop, inc);
      assert stop - (next + inc) == (n - 1) * inc + rem;
      DivModUnique(stop - (next + inc), inc, n - 1, rem);
    } else {
      DivModUnique(stop - next, inc, 1, stop - next - inc);
    }
  }

  ghost predicate InSome(iova: nat, ranges: seq<Range>, inc: nat) {
    exists k :: 0 <= k < |ranges| && WindowIn(iova, ranges[k], inc)
  }

  /** Each supplied window lies inside a range. */
  lemma {:induction false} FillAllInside(ranges: seq<Range>, inc: nat)
    requires 0 < inc && Roomy(ranges, inc)
    ensures forall i :: 0 <= i < |FillAll(ranges, inc)| ==> InSome(FillAll(ranges, inc)[i], ranges, inc)
  {
    if ranges != [] {
      var first, rest := Fill(ranges[0].start, ranges[0].stop - inc, inc), FillAll(ranges[1..], inc);
      FillSorted(ranges[0].start, ranges[0].stop - inc, inc);
      FillAllInside(ranges[1..], inc);
      forall i | 0 <= i < |first + rest|
        ensures InSome((first + rest)[i], ranges, inc)
      {
        if i < |first| {
          assert WindowIn(first[i], ranges[0], inc);
        } else {
          assert InSome(rest[i - |first|], ranges[1..], inc);
          var k :| 0 <= k < |ranges[1..]| && WindowIn(rest[i - |first|], ranges[1..][k], inc);
          assert WindowIn((first + rest)[i], ranges[k + 1], inc);
        }
      }
    }
  }

  ghost predicate Apart(a: nat, b: nat, inc: nat) {
    a + inc <= b || b + inc <= a
  }

  /** Windows of inc bytes at the given IOVAs do not overlap. */
  ghost predicate Windows(r: seq<nat>, inc: nat) {
    forall i, j :: 0 <= i < j < |r| ==> Apart(r[i], r[j], inc)
  }

  lemma WindowsAppend(a: seq<nat>, b: seq<nat>, inc: nat)
    requires Windows(a, inc) && Windows(b, inc)
    requires forall i, j :: 0 <= i < |a| && 0 <= j < |b| ==> Apart(a[i], b[j], inc)
    ensures Windows(a + b, inc)
  {
    var all := a + b;
    forall i, j | 0 <= i < j < |all|
      ensures Apart(all[i], all[j], inc)
    {
      if i < |a| <= j {
        assert all[i] == a[i] && all[j] == b[j - |a|];
      } else if |a| <= i {
        assert all[i] == b[i - |a|] && all[j] == b[j - |a|];
      }
    }
  }

  /** The supplied windows are pairwise disjoint. */
  lemma {:induction false} FillAllDisjoint(ranges: seq<Range>, inc: nat)
    requires 0 < inc && Roomy(ranges, inc) && Separate(ranges)
    ensures Windows(FillAll(ranges, inc), inc)
  {
    if ranges != [] {
      var first, rest := Fill(ranges[0].start, ranges[0].stop - inc, inc), FillAll(ranges[1..], inc);
      FillSorted(ranges[0].start, ranges[0].stop - inc, inc);
      FillAllDisjoint(ranges[1..], inc);
      FillAllInside(ranges[1..], inc);
      forall i, j | 0 <= i < |first| && 0 <= j < |rest|
        ensures Apart(first[i], rest[j], inc)
      {
        assert WindowIn(first[i], ranges[0], inc);
        assert InSome(rest[j], ranges[1..], inc);
        OutsideFirst(ranges, inc, first[i], rest[j]);
      }
      WindowsAppend(first, rest, inc);
    }
  }

  lemma OutsideFirst(ranges: seq<Range>, inc: nat, a: nat, b: nat)
    requires Separate(ranges) && ranges != [] && WindowIn(a, ranges[0], inc) && InSome(b, ranges[1..], inc)
    ensures Apart(a, b, inc)
  {
    var k :| 0 <= k < |ranges[1..]| && WindowIn(b, ranges[1..][k], inc);
    assert ranges[1..][k] == ranges[k + 1];
  }

  /** Windows the ranges have room for. */
  ghost function Capacity(ranges: seq<Range>, inc: nat): int
    requires 0 < inc
  {
    if ranges == [] then 0 else (ranges[0].stop - ranges[0].start) / inc + Capacity(ranges[1..], inc)
  }

  lemma {:induction false} FillAllCount(ranges: seq<Range>, inc: nat)
    requires 0 < inc && Roomy(ranges, inc)
    ensures |FillAll(ranges, inc)| == Capacity(ranges, inc)
  {
    if ranges != [] {
      FillCount(ranges[0].start, ranges[0].stop, inc);
      FillAllCount(ranges[1..], inc);
    }
  }

  class HugePagesIovaMgr {
    const ranges: seq<Range>
    var freeIovas: seq<nat>

    constructor (ranges: seq<Range>)
      ensures this.ranges == ranges && freeIovas == []
    {
      this.ranges := ranges;
      freeIovas := [];
    }

    /** `reset`. It moves on to the next range as soon as the current one is used up, also
        after the last IOVA it needs, so it succeeds exactly when the ranges can supply
        more than MAX_IOVAS. */
    method Reset() returns (ok: bool)
      modifies this
      ensures ok <==> Startable(ranges, INCREMENT) && MAX_IOVAS < |Supply(ranges, INCREMENT)|
      ensures ok ==> freeIovas == Supply(ranges, INCREMENT)[..MAX_IOVAS]
    {
      freeIovas := [];
      if ranges == [] {
        return false;
      }
      var rangeIndex := 0;
      var nextAvailable: nat := ranges[0].start;
      var max: int := ranges[0].stop - INCREMENT;
      if nextAvailable == 0 {
        nextAvailable := FIRST_IOVA;
        if nextAvailable > max {
          return false;
        }
      }
      SupplyLeft(ranges);
      for i := 0 to MAX_IOVAS
        invariant rangeIndex < |ranges| && |freeIovas| == i
        invariant Took(ranges, freeIovas, nextAvailable, max, rangeIndex)
      {
        ghost var before := freeIovas;
        freeIovas := freeIovas + [nextAvailable];
        TakeNext(ranges, before, nextAvailable, max, rangeIndex);
        nextAvailable := nextAvailable + INCREMENT;
        if nextAvailable > max {
          rangeIndex := rangeIndex + 1;
          if rangeIndex >= |ranges| {
            return false;
          }
          nextAvailable := ranges[rangeIndex].start;
          max := ranges[rangeIndex].stop - INCREMENT;
        }
      }
      TookEnough(ranges, freeIovas, nextAvailable, max, rangeIndex);
      ok := true;
    }

    /** `get`: None when the size is too large for a window or the pool is empty. */
    method Get(size: nat) returns (r: (bool, nat))
      modifies this
      ensures r.0 <==> size <= 0x20_0000 && old(freeIovas) != []
      ensures r.0 ==> r.1 == old(freeIovas)[0] && freeIovas == old(freeIovas)[1..]
      ensures !r.0 ==> freeIovas == old(freeIovas)
    {
      if size > INCREMENT || freeIovas == [] {
        return (false, 0);
      }
      r := (true, freeIovas[0]);
      freeIovas := freeIovas[1..];
    }

    method Free(iova: nat)
      modifies this
      ensures freeIovas == old(freeIovas) + [iova]
    {
      freeIovas := freeIovas + [iova];
    }
  }

  /** IOVAs still to come: the rest of the current range, then the ranges behind it. */
  ghost function Left(next: nat, max: int, rest: seq<Range>): seq<nat> {
    Fill(next, max, INCREMENT) + FillAll(rest, INCREMENT)
  }

  /** The IOVAs taken and those still to come are the whole supply. */
  ghost predicate Took(ranges: seq<Range>, taken: seq<nat>, next: nat, max: int, index: nat)
    requires index < |ranges|
  {
    Supply(ranges, INCREMENT) == taken + Left(next, max, ranges[index + 1..])
  }

  lemma SupplyLeft(ranges: seq<Range>)
    requires ranges != []
    ensures Took(ranges, [], Bumped(ranges)[0].start, ranges[0].stop - INCREMENT, 0)
  {
    assert Bumped(ranges)[1..] == ranges[1..];
  }

  /** One step of the loop, before it looks for a further range. */
  lemma TakeNext(ranges: seq<Range>, taken: seq<nat>, next: nat, max: int, index: nat)
    requires index < |ranges| && Took(ranges, taken, next, max, index)
    ensures next + INCREMENT <= max ==> Took(ranges, taken + [next], next + INCREMENT, max, index)
    ensures next + INCREMENT > max && index + 1 < |ranges| ==>
              Took(ranges, taken + [next], ranges[index + 1].start, ranges[index + 1].stop - INCREMENT, index + 1)
    ensures next + INCREMENT > max && index + 1 == |ranges| ==> Supply(ranges, INCREMENT) == taken + [next]
  {
    if next + INCREMENT <= max {
      TakeWithin(next, max, ranges[index + 1..], taken);
    } else {
      TakeLast(next, max, ranges[index + 1..], taken);
      if index + 1 < |ranges| {
        assert ranges[index + 1..][1..] == ranges[index + 2..];
        LeftStarts(ranges[index + 1..]);
      }
    }
  }

  lemma TakeWithin(next: nat, max: int, rest: seq<Range>, taken: seq<nat>)
    requires next + INCREMENT <= max
    ensures taken + Left(next, max, rest) == (taken + [next]) + Left(next + INCREMENT, max, rest)
  {
    assert Left(next, max, rest) == [next] + Left(next + INCREMENT, max, rest);
  }

  lemma TakeLast(next: nat, max: int, rest: seq<Range>, taken: seq<nat>)
    requires next + INCREMENT > max
    ensures taken + Left(next, max, rest) == (taken + [next]) + FillAll(rest, INCREMENT)
  {
    assert Left(next, max, rest) == [next] + FillAll(rest, INCREMENT);
  }

  lemma LeftStarts(ranges: seq<Range>)
    requires ranges != []
    ensures FillAll(ranges, INCREMENT) == Left(ranges[0].start, ranges[0].stop - INCREMENT, ranges[1..])
  {
  }

  lemma TookEnough(ranges: seq<Range>, taken: seq<nat>, next: nat, max: int, index: nat)
    requires index < |ranges| && Took(ranges, taken, next, max, index)
    ensures |taken| < |Supply(ranges, INCREMENT)| && taken == Supply(ranges, INCREMENT)[..|taken|]
  {
  }

  /** For disjoint ranges with room for a window each (after the bump), `reset` succeeds if
      and only if they have room for more than 1000 windows, and then the 1000 IOVAs have
      pairwise disjoint windows inside the ranges. */
  lemma PoolIsSound(ranges: seq<Range>)
    requires Roomy(Bumped(ranges), INCREMENT) && Separate(Bumped(ranges)) && ranges != []
    ensures Startable(ranges, INCREMENT)
    ensures MAX_IOVAS < |Supply(ranges, INCREMENT)| <==> MAX_IOVAS < Capacity(Bumped(ranges), INCREMENT)
    ensures MAX_IOVAS < |Supply(ranges, INCREMENT)| ==>
              var pool := Supply(ranges, INCREMENT)[..MAX_IOVAS];
              && |pool| == 1000
              && (forall i :: 0 <= i < |pool| ==>
                    InSome(pool[i], Bumped(ranges), INCREMENT))
              && Windows(pool, INCREMENT)
  {
    FillAllCount(Bumped(ranges), INCREMENT);
    FillAllInside(Bumped(ranges), INCREMENT);
    FillAllDisjoint(Bumped(ranges), INCREMENT);
  }

  lemma {:induction false} FillAt(next: nat, max: int, inc: nat, i: nat)
    requires 0 < inc && i < |Fill(next, max, inc)|
    ensures Fill(next, max, inc)[i] == next + i * inc
    decreases i
  {
    if i > 0 {
      FillAt(next + inc, max, inc, i - 1);
      assert (i - 1) * inc + inc == i * inc;
    }
  }

  /** The IOVAs of a lone range: one every 2 MiB from its start, or from 0x1000 when it starts
      at 0. */
  lemma LoneRange(start: nat, stop: nat, i: nat)
    requires i < |Supply([Range(start, stop)], INCREMENT)|
    ensures Supply([Range(start, stop)], INCREMENT)[i] == (if start == 0 then 0x1000 else start) + i * 0x20_0000
  {
    var from := if start == 0 then FIRST_IOVA else start;
    var rest: seq<Range> := [];
    assert Bumped([Range(start, stop)])[1..] == rest;
    var iovas := Fill(from, stop - INCREMENT, INCREMENT);
    assert iovas + FillAll(rest, INCREMENT) == iovas;
    FillAt(from, stop - INCREMENT, INCREMENT, i);
  }

  /** A range with room for exactly the 1000 windows that are taken: `reset` fails on it, so
      it needs room for one more. */
  method ThousandWindows(start: nat) returns (mgr: HugePagesIovaMgr, ok: bool)
    requires 0 < start
    ensures fresh(mgr) && mgr.ranges == [Range(start, start + 1000 * 0x20_0000)]
    ensures |Supply(mgr.ranges, INCREMENT)| == 1000 && Startable(mgr.ranges, INCREMENT)
    ensures !ok
  {
    mgr := new HugePagesIovaMgr([Range(start, start + MAX_IOVAS * INCREMENT)]);
    FillAllCount(mgr.ranges, INCREMENT);
    assert mgr.ranges[1..] == [];
    ok := mgr.Reset();
  }
}
