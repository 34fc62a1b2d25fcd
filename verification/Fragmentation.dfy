/** The allocator on a fragmented page table, call by call. */
module Fragmentation {
  import opened Options
  import opened PageTable
  import opened Iova
  import opened HugePages

  const PAGE := 4096
  const PER_HP := 512

  /** Where page i of the hugepage at v is. */
  function PageAt(v: nat, i: nat): nat {
    v + i * PAGE
  }

  /** One hugepage at v, of which exactly the first k pages are in use. */
  ghost predicate FrontUsed(pages: seq<Page>, v: nat, k: nat) {
    && |pages| == PER_HP && k <= PER_HP
    && forall i :: 0 <= i < PER_HP ==> pages[i].vaddr == PageAt(v, i) && (pages[i].inUse <==> i < k)
  }

  /** Its free list is the rest, and can serve any run up to the end at index 0. */
  lemma FrontFit(pages: seq<Page>, live: seq<nat>, owner: Owners, v: nat, k: nat, n: nat, free: seq<nat>)
    requires Inv(pages, live, owner, PAGE) && FrontUsed(pages, v, k) && 0 < n && k + n <= PER_HP
    requires IsFreeList(pages, free)
    ensures n <= |free| == PER_HP - |owner| && RunAt(pages, free, 0, n)
    ensures forall i :: 0 <= i < n ==> free[i] == k + i
  {
    PagesConserved(pages, live, owner, PAGE, free);
    FreeUnowned(pages, live, owner, PAGE, free);
    var f := TailOfFree(pages, free, k);
    LeastIsFirst(free, f);
    assert forall i :: 0 <= i < |free| ==> pages[free[i]].size == PAGE;
  }

  lemma LeastIsFirst(xs: seq<nat>, f: nat)
    requires Sorted(xs) && f < |xs| && forall i :: 0 <= i < |xs| ==> xs[f] <= xs[i]
    ensures f == 0
  {
    assert xs[f] <= xs[0];
  }

  lemma FrontMarked(pages: seq<Page>, v: nat, k: nat, n: nat, run: seq<nat>, size: nat, iova: nat)
    requires FrontUsed(pages, v, k) && 0 < n && k + n <= PER_HP
    requires |run| == n && forall i :: 0 <= i < n ==> run[i] == k + i
    ensures FrontUsed(Marked(pages, run, size, iova), v, k + n)
    ensures forall i :: 0 <= i < k ==> Marked(pages, run, size, iova)[i] == pages[i]
  {
    forall i | 0 <= i < PER_HP
      ensures i in run <==> k <= i < k + n
    {
      if k <= i < k + n {
        assert run[i - k] == i;
      }
    }
  }

  ghost predicate Sized(m: HugePagesMemoryMgr) {
    m.pageSize == PAGE && m.hp.scPageSize == PAGE && m.hp.hugepagesSize == PER_HP * PAGE
  }

  /** What a `malloc` of n pages finds is the n pages behind the used ones. */
  lemma FrontSearched(m: HugePagesMemoryMgr, before: seq<Page>, live: seq<nat>, owner: Owners, supply: seq<nat>,
                      v: nat, k: nat, n: nat, grown: seq<Page>, supply': seq<nat>, free: seq<nat>, found: Option<nat>)
    requires Sized(m) && Inv(before, live, owner, PAGE) && FrontUsed(before, v, k) && 0 < n && k + n <= PER_HP
    requires n <= PER_HP - |owner| && m.Searched(before, |owner|, supply, grown, supply', free, n, found)
    ensures grown == before && supply' == supply && found == Some(0)
    ensures n <= |free| && forall i :: 0 <= i < n ==> free[i] == k + i
  {
    m.TookNone(before, supply, grown, supply');
    FrontFit(before, live, owner, v, k, n, free);
  }

  /** And what it leaves. */
  lemma FrontTaken(grown: seq<Page>, pages: seq<Page>, v: nat, k: nat, n: nat, free: seq<nat>, size: nat, iova: nat)
    requires FrontUsed(grown, v, k) && 0 < n && k + n <= PER_HP
    requires n <= |free| && forall i :: 0 <= i < n ==> free[i] == k + i
    requires Taken(grown, pages, free, 0, n, size, iova)
    ensures FrontUsed(pages, v, k + n) && forall i :: 0 <= i < k ==> pages[i] == grown[i]
    ensures n == 1 ==> pages[k].linked == []
    ensures pages[k].size == size && pages[k].iova == iova
  {
    FrontMarked(grown, v, k, n, free[0..n], size, iova);
    assert k == free[0..n][0];
  }

  /** A `malloc` of a size that counts as n pages takes the front of the free list. */
  method TakeFront(m: HugePagesMemoryMgr, ghost v: nat, ghost k: nat, ghost n: nat, size: nat)
    returns (ghost free: seq<nat>)
    requires m.Valid() && Sized(m) && FrontUsed(m.pages, v, k)
    requires m.Rounded(size) == size <= INCREMENT && m.PagesNeeded(size) == n
    requires k + n <= PER_HP && m.iovaMgr.freeIovas != []
    modifies m, m.hp, m.iovaMgr
    ensures m.Valid() && n <= |free| && forall i :: 0 <= i < n ==> free[i] == k + i
    ensures Taken(old(m.pages), m.pages, free, 0, n, size, old(m.iovaMgr.freeIovas)[0])
    ensures m.mallocMem == old(m.mallocMem) + [k] && m.hp.supply == old(m.hp.supply)
    ensures m.iovaMgr.freeIovas == old(m.iovaMgr.freeIovas)[1..]
    ensures m.calls == old(m.calls) + [MapWrite(old(m.pages)[k].vaddr, old(m.iovaMgr.freeIovas)[0], size)]
  {
    ghost var before, live, owner, supply := m.pages, m.mallocMem, m.owner, m.hp.supply;
    RoomLeft(m, v, k, n);
    var r;
    ghost var grown, at;
    r, grown, free, at := m.Malloc(size, DeviceToHost);
    FrontSearched(m, before, live, owner, supply, v, k, n, grown, m.hp.supply, free,
        if r.NoMemory? then None else Some(at));
    Allocates(r, old(m.iovaMgr.freeIovas), m.iovaMgr.freeIovas, grown, m.pages, free, n, size, live, m.mallocMem,
              old(m.calls), m.calls);
    assert free[0] == k;
  }

  method RoomLeft(m: HugePagesMemoryMgr, ghost v: nat, ghost k: nat, ghost n: nat)
    requires m.Valid() && Sized(m) && FrontUsed(m.pages, v, k) && 0 < n && k + n <= PER_HP
    ensures n <= PER_HP - |m.owner|
  {
    var all := m.FreePages();
    FrontFit(m.pages, m.mallocMem, m.owner, v, k, n, all);
  }

  /** Those are the n pages behind the used ones. */
  method Take(m: HugePagesMemoryMgr, ghost v: nat, ghost k: nat, ghost n: nat, size: nat)
    requires m.Valid() && Sized(m) && FrontUsed(m.pages, v, k)
    requires m.Rounded(size) == size <= INCREMENT && m.PagesNeeded(size) == n
    requires k + n <= PER_HP && m.iovaMgr.freeIovas != []
    modifies m, m.hp, m.iovaMgr
    ensures m.Valid() && FrontUsed(m.pages, v, k + n) && m.mallocMem == old(m.mallocMem) + [k]
    ensures m.iovaMgr.freeIovas == old(m.iovaMgr.freeIovas)[1..] && m.hp.supply == old(m.hp.supply)
    ensures n == 1 ==> m.pages[k].linked == []
    ensures m.pages[k].size == size && m.pages[k].iova == old(m.iovaMgr.freeIovas)[0]
    ensures forall i :: 0 <= i < k ==> m.pages[i] == old(m.pages)[i]
    ensures m.calls == old(m.calls) + [MapWrite(PageAt(v, k), old(m.iovaMgr.freeIovas)[0], size)]
  {
    ghost var before := m.pages;
    ghost var free := TakeFront(m, v, k, n, size);
    FrontTaken(before, m.pages, v, k, n, free, size, old(m.iovaMgr.freeIovas)[0]);
    assert before[k].vaddr == PageAt(v, k);
  }

  lemma Allocates(r: Allocation, pool: seq<nat>, pool': seq<nat>, grown: seq<Page>, pages: seq<Page>, free: seq<nat>,
                  n: nat, size: nat, live: seq<nat>, live': seq<nat>, calls: seq<Call>, calls': seq<Call>)
    requires Committed(r, pool, pool', grown, pages, free, 0, n, size, DeviceToHost, live, live', calls, calls')
    requires pool != [] && size <= INCREMENT
    ensures r.Allocated? && 0 < n <= |free| && free[0] < |grown| && live' == live + [free[0]] && pool' == pool[1..]
    ensures calls' == calls + [MapWrite(grown[free[0]].vaddr, pool[0], size)]
    ensures Taken(grown, pages, free, 0, n, size, pool[0])
  {
  }

  lemma SizeOf(m: HugePagesMemoryMgr, n: nat)
    requires Sized(m) && 0 < n <= PER_HP
    ensures m.Rounded(n * PAGE) == n * PAGE <= INCREMENT && m.PagesNeeded(n * PAGE) == n
  {
  }

  /** A manager with one hugepage, nothing allocated. */
  method NewFront(hp: HugePagesMemory, iovaMgr: HugePagesIovaMgr) returns (m: HugePagesMemoryMgr)
    requires hp.hugepagesSize == PER_HP * PAGE && hp.scPageSize == PAGE && hp.supply != []
    requires Spaced([], PAGE, hp.supply, hp.hugepagesSize)
    modifies hp
    ensures fresh(m) && m.Valid() && Sized(m) && m.hp == hp && m.iovaMgr == iovaMgr && m.mallocMem == []
            && m.calls == []
    ensures hp.supply == old(hp.supply[1..]) && FrontUsed(m.pages, old(hp.supply[0]), 0)
  {
    m := new HugePagesMemoryMgr(PAGE, hp, iovaMgr);
  }

  /** Two allocations of one and a half pages each: both get one page, so the first one's bytes
      run into the second one's. */
  method Overlaps(hp: HugePagesMemory, iovaMgr: HugePagesIovaMgr) returns (m: HugePagesMemoryMgr)
    requires hp.hugepagesSize == PER_HP * PAGE && hp.scPageSize == PAGE && hp.supply != []
    requires Spaced([], PAGE, hp.supply, hp.hugepagesSize) && 2 <= |iovaMgr.freeIovas|
    modifies hp, iovaMgr
    ensures fresh(m) && m.Valid() && m.mallocMem == [0, 1] && |m.pages| == PER_HP
    ensures !Clear(m.pages[0].vaddr, m.pages[0].size, m.pages[1].vaddr, m.pages[1].size)
  {
    ghost var v := hp.supply[0];
    m := NewFront(hp, iovaMgr);
    Take(m, v, 0, 1, PAGE + PAGE / 2);
    Take(m, v, 1, 1, PAGE + PAGE / 2);
  }

  /** An allocation of two pages is mapped with its length, but unmapped and cleared with the
      length of one page. */
  method FreesOnePage(hp: HugePagesMemory, iovaMgr: HugePagesIovaMgr) returns (m: HugePagesMemoryMgr)
    requires hp.hugepagesSize == PER_HP * PAGE && hp.scPageSize == PAGE && hp.supply != []
    requires Spaced([], PAGE, hp.supply, hp.hugepagesSize) && iovaMgr.freeIovas != []
    modifies hp, iovaMgr
    ensures fresh(m) && m.Valid() && m.mallocMem == []
    ensures var v, iova := old(hp.supply[0]), old(iovaMgr.freeIovas[0]);
            m.calls == [MapWrite(v, iova, 2 * PAGE), Unmap(iova, PAGE), ClearMemory(v, PAGE)]
  {
    ghost var v := hp.supply[0];
    m := NewFront(hp, iovaMgr);
    TakeAndFree(m, v);
  }

  method TakeAndFree(m: HugePagesMemoryMgr, ghost v: nat)
    requires m.Valid() && Sized(m) && FrontUsed(m.pages, v, 0) && m.mallocMem == [] && m.iovaMgr.freeIovas != []
    modifies m, m.hp, m.iovaMgr
    ensures m.Valid() && m.mallocMem == []
    ensures var iova := old(m.iovaMgr.freeIovas[0]);
            m.calls == old(m.calls) + [MapWrite(v, iova, 2 * PAGE)] + [Unmap(iova, PAGE), ClearMemory(v, PAGE)]
  {
    SizeOf(m, 2);
    Take(m, v, 0, 2, 2 * PAGE);
    assert m.mallocMem == [0];
    m.Free(0);
  }

  /** With an empty IOVA pool the first `malloc` of two pages raises, and strands the second
      page: it is in use, but nothing is allocated. */
  method Strands(hp: HugePagesMemory, iovaMgr: HugePagesIovaMgr) returns (m: HugePagesMemoryMgr, r: Allocation)
    requires hp.hugepagesSize == PER_HP * PAGE && hp.scPageSize == PAGE && hp.supply != []
    requires Spaced([], PAGE, hp.supply, hp.hugepagesSize) && iovaMgr.freeIovas == []
    modifies hp, iovaMgr
    ensures fresh(m) && r == Raised && m.mallocMem == [] && |m.pages| == PER_HP && m.pages[1].inUse
    ensures !exists owner :: Inv(m.pages, m.mallocMem, owner, PAGE)
  {
    ghost var v := hp.supply[0];
    m := NewFront(hp, iovaMgr);
    ghost var before, owner, supply := m.pages, m.owner, m.hp.supply;
    var all := m.FreePages();
    FrontFit(before, [], owner, v, 0, 2, all);
    SizeOf(m, 2);
    ghost var grown, free, at;
    r, grown, free, at := m.Malloc(2 * PAGE, DeviceToHost);
    FrontSearched(m, before, [], owner, supply, v, 0, 2, grown, m.hp.supply, free,
        if r.NoMemory? then None else Some(at));
    FrontStranded(before, m.pages, owner, v, free);
  }

  lemma FrontStranded(before: seq<Page>, pages: seq<Page>, owner: Owners, v: nat, free: seq<nat>)
    requires Inv(before, [], owner, PAGE) && FrontUsed(before, v, 0) && IsFreeList(before, free)
    requires Stranded(before, pages, free, 0, 2, 2 * PAGE)
    ensures |pages| == PER_HP && pages[1].inUse && !exists owner' :: Inv(pages, [], owner', PAGE)
  {
    FrontFit(before, [], owner, v, 0, 2, free);
    StrandedLeaks(before, pages, [], owner, PAGE, free, 0, 2, 2 * PAGE);
  }

  /** Four allocations fill the hugepage: one page, one, one, and the rest. */
  method Fill(m: HugePagesMemoryMgr, ghost v: nat)
    requires m.Valid() && Sized(m) && FrontUsed(m.pages, v, 0) && m.mallocMem == [] && 4 <= |m.iovaMgr.freeIovas|
    modifies m, m.hp, m.iovaMgr
    ensures m.Valid() && FrontUsed(m.pages, v, PER_HP) && m.mallocMem == [0, 1, 2, 3]
    ensures m.hp.supply == old(m.hp.supply) && m.pages[0].linked == [] && m.pages[2].linked == []
  {
    SizeOf(m, 1);
    SizeOf(m, PER_HP - 3);
    Take(m, v, 0, 1, PAGE);
    Take(m, v, 1, 1, PAGE);
    Take(m, v, 2, 1, PAGE);
    Take(m, v, 3, PER_HP - 3, (PER_HP - 3) * PAGE);
  }

  /** Of four allocations the first and the third are freed, one page each. */
  method FreeTwo(m: HugePagesMemoryMgr)
    requires m.Valid() && m.mallocMem == [0, 1, 2, 3] && 3 < |m.pages|
    requires m.pages[0].linked == [] && m.pages[2].linked == []
    modifies m, m.iovaMgr
    ensures m.Valid() && |m.pages| == |old(m.pages)| && m.pages[0].size == m.pageSize && m.hp.supply == old(m.hp.supply)
    ensures forall i :: 0 <= i < |m.pages| ==>
              m.pages[i].vaddr == old(m.pages)[i].vaddr
                  && (m.pages[i].inUse <==> old(m.pages)[i].inUse && i != 0 && i != 2)
  {
    m.Free(0);
    assert m.mallocMem == [1, 2, 3];
    m.Free(2);
  }

  /** After both, two pages are free and there are hugepages to be had, but a `malloc` of two
      pages fails: it does not grow, and the free pages are not adjacent. */
  method Fragments(hp: HugePagesMemory, iovaMgr: HugePagesIovaMgr)
    returns (m: HugePagesMemoryMgr, free: seq<nat>, r: Allocation)
    requires hp.hugepagesSize == PER_HP * PAGE && hp.scPageSize == PAGE
    requires 1 < |hp.supply| && Spaced([], PAGE, hp.supply, hp.hugepagesSize) && 4 <= |iovaMgr.freeIovas|
    modifies hp, iovaMgr
    ensures fresh(m) && m.Valid() && m.hp == hp && m.PagesNeeded(2 * PAGE) == 2
    ensures IsFreeList(m.pages, free) && free == [0, 2] && hp.supply != [] && NoFit(m.pages, free, 2)
    ensures r == NoMemory
  {
    ghost var v := hp.supply[0];
    m := NewFront(hp, iovaMgr);
    Fill(m, v);
    FreeTwo(m);
    ghost var pages, used, supply := m.pages, |m.owner|, hp.supply;
    free := m.FreePages();
    OnlyTwoFree(pages, v, free);
    SizeOf(m, 2);
    ghost var grown, list, at;
    r, grown, list, at := m.Malloc(2 * PAGE, DeviceToHost);
    NothingFound(m, pages, used, supply, v, grown, hp.supply, list, if r.NoMemory? then None else Some(at));
  }

  lemma NothingFound(m: HugePagesMemoryMgr, before: seq<Page>, used: nat, supply: seq<nat>, v: nat,
                     grown: seq<Page>, supply': seq<nat>, free: seq<nat>, found: Option<nat>)
    requires Sized(m) && |before| == PER_HP && before[0].size == PAGE && used == PER_HP - 2
    requires forall i :: 0 <= i < PER_HP ==> before[i].vaddr == PageAt(v, i) && (before[i].inUse <==> i != 0 && i != 2)
    requires m.Searched(before, used, supply, grown, supply', free, 2, found)
    ensures found == None && grown == before && supply' == supply
  {
    m.TookNone(before, supply, grown, supply');
    OnlyTwoFree(before, v, free);
  }

  lemma OnlyTwoFree(pages: seq<Page>, v: nat, free: seq<nat>)
    requires |pages| == PER_HP && IsFreeList(pages, free)
    requires forall i :: 0 <= i < PER_HP ==> pages[i].vaddr == PageAt(v, i) && (pages[i].inUse <==> i != 0 && i != 2)
    requires pages[0].size == PAGE
    ensures free == [0, 2] && NoFit(pages, free, 2)
  {
    assert 0 in free && 2 in free;
    var i :| 0 <= i < |free| && free[i] == 0;
    var j :| 0 <= j < |free| && free[j] == 2;
    assert forall k :: 0 <= k < |free| ==> free[k] == 0 || free[k] == 2;
    SortedPair(free, i, j);
  }

  lemma SortedPair(xs: seq<nat>, i: nat, j: nat)
    requires Sorted(xs) && i < |xs| && j < |xs| && xs[i] == 0 && xs[j] == 2
    requires forall k :: 0 <= k < |xs| ==> xs[k] == 0 || xs[k] == 2
    ensures xs == [0, 2]
  {
    SortedOrder(xs, i, j);
    LeastIsFirst(xs, i);
    assert xs[0] < xs[1] && xs[0] < xs[|xs| - 1];
  }
}
