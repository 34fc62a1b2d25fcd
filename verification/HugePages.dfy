/** `HugePagesMemoryMgr`: first-fit allocation of contiguous pages carved from hugepages. */
module HugePages {
  import opened Options
  import Ring
  import opened PageTable
  import opened Iova

  /** Where hugepages come from: the foreign allocator hands out the regions of a list, and
      fails when there are no more. */
  class HugePagesMemory {
    const hugepagesSize: nat
    const scPageSize: nat
    var supply: seq<nat>

    constructor (hugepagesSize: nat, scPageSize: nat, supply: seq<nat>)
      ensures this.hugepagesSize == hugepagesSize && this.scPageSize == scPageSize && this.supply == supply
    {
      this.hugepagesSize, this.scPageSize, this.supply := hugepagesSize, scPageSize, supply;
    }

    method Malloc() returns (r: Option<nat>)
      modifies this
      ensures old(supply) == [] ==> r == None && supply == []
      ensures old(supply) != [] ==> r == Some(old(supply)[0]) && supply == old(supply)[1..]
    {
      if supply == [] {
        return None;
      }
      r := Some(supply[0]);
      supply := supply[1..];
    }
  }

  /** How a `malloc` ends: with the head of the allocation, with its MemoryError, with an
      exception of the IOVA pool, or with the assertion on a direction it cannot map. */
  datatype Allocation = Allocated(head: nat) | NoMemory | Raised | Unmapped(head: nat)

  datatype Direction = HostToDevice | DeviceToHost | Bidirectional

  /** What the manager asks of the world outside: the mapping callbacks, clearing memory, and
      giving the hugepages back. */
  datatype Call =
    | MapRead(vaddr: nat, iova: nat, size: nat)
    | MapWrite(vaddr: nat, iova: nat, size: nat)
    | Unmap(iova: nat, size: nat)
    | ClearMemory(vaddr: nat, size: nat)
    | ReturnHugepages

  function MapCall(direction: Direction, vaddr: nat, iova: nat, size: nat): seq<Call> {
    match direction
    case HostToDevice => [MapRead(vaddr, iova, size)]
    case DeviceToHost => [MapWrite(vaddr, iova, size)]
    case Bidirectional => []
  }

  /** Freeing unmaps and clears one page, however long the allocation was: its size is reset
      first. */
  function FreeCall(p: Page, ps: nat): seq<Call> {
    [Unmap(p.iova, ps), ClearMemory(p.vaddr, ps)]
  }

  function FreeCalls(pages: seq<Page>, heads: seq<nat>, ps: nat): seq<Call>
    requires forall i :: 0 <= i < |heads| ==> heads[i] < |pages|
  {
    if heads == [] then []
    else FreeCalls(pages, heads[..|heads| - 1], ps) + FreeCall(pages[heads[|heads| - 1]], ps)
  }

  class HugePagesMemoryMgr {
    const pageSize: nat
    const hp: HugePagesMemory
    const iovaMgr: HugePagesIovaMgr
    var pages: seq<Page>
    var mallocMem: seq<nat>
    /** The calls made so far. */
    var calls: seq<Call>
    ghost var owner: Owners
    /** The IOVAs the pool started with. */
    ghost const pool: multiset<nat>

    constructor (pageSize: nat, hp: HugePagesMemory, iovaMgr: HugePagesIovaMgr)
      requires 0 < pageSize <= hp.hugepagesSize && hp.supply != []
      requires Spaced([], pageSize, hp.supply, hp.hugepagesSize)
      modifies hp
      ensures Valid() && mallocMem == [] && calls == [] && this.hp == hp && this.iovaMgr == iovaMgr
              && this.pageSize == pageSize
      ensures pool == multiset(iovaMgr.freeIovas) && hp.supply == old(hp.supply[1..])
      ensures pages == Carved(old(hp.supply[0]), PagesPerHp(), pageSize)
    {
      this.pageSize, this.hp, this.iovaMgr := pageSize, hp, iovaMgr;
      pages, mallocMem, calls, owner := [], [], [], map[];
      pool := multiset(iovaMgr.freeIovas);
      new;
      OneCarved(hp.supply, PagesPerHp(), pageSize);
      var ok, region := MallocHps(1);
    }

    ghost predicate Valid()
      reads this, hp, iovaMgr
    {
      && 0 < pageSize <= hp.hugepagesSize
      && Spaced(pages, pageSize, hp.supply, hp.hugepagesSize)
      && Inv(pages, mallocMem, owner, pageSize) && Known(pages, mallocMem)
      && multiset(iovaMgr.freeIovas) + LiveIovas(pages, mallocMem) == pool
    }

    function PagesPerHp(): nat
      requires 0 < pageSize
    {
      hp.hugepagesSize / pageSize
    }

    /** `_malloc_hps`; the ghost result is the last region it got. */
    method MallocHps(num: nat) returns (ok: bool, ghost region: nat)
      requires Valid()
      modifies this`pages, hp
      ensures Valid()
      ensures ok <==> num <= |old(hp.supply)|
      ensures TookHugepages(old(pages), old(hp.supply), pages, hp.supply, num)
      ensures old(pages) <= pages && forall i :: |old(pages)| <= i < |pages| ==>
              pages[i] == NewPage(pages[i].vaddr, pageSize)
      ensures ok && 0 < num ==>
                |old(pages)| + PagesPerHp() <= |pages| &&
                pages[|pages| - PagesPerHp()..] == Carved(region, PagesPerHp(), pageSize)
    {
      ghost var before, regions, n := pages, hp.supply, PagesPerHp();
      for i := 0 to num
        invariant Valid() && i <= |regions| && hp.supply == regions[i..]
        invariant pages == before + AllCarved(regions[..i], n, pageSize)
      {
        AllCarvedNew(regions[..i], n, pageSize);
        ok := CarveNext();
        if !ok {
          assert regions[i..] == [];
          return false, 0;
        }
        AllCarvedStep(regions, i, n, pageSize);
      }
      ok := true;
      AllCarvedNew(regions[..num], n, pageSize);
      region := LastCarved(regions, num, n, pageSize);
    }

    /** Pages and supply once `num` hugepages were taken, or all there are when those are fewer. */
    ghost predicate TookHugepages(before: seq<Page>, supply: seq<nat>, grown: seq<Page>, supply': seq<nat>, num: nat)
      requires 0 < pageSize
    {
      var k := if num <= |supply| then num else |supply|;
      supply' == supply[k..] && grown == before + AllCarved(supply[..k], PagesPerHp(), pageSize)
    }

    lemma TookNone(before: seq<Page>, supply: seq<nat>, grown: seq<Page>, supply': seq<nat>)
      requires 0 < pageSize && TookHugepages(before, supply, grown, supply', 0)
      ensures grown == before && supply' == supply
    {
      OneCarved(supply, PagesPerHp(), pageSize);
      assert before + [] == before;
    }

    /** One more hugepage, if there is one. */
    method CarveNext() returns (ok: bool)
      requires Valid()
      modifies this`pages, hp
      ensures Valid() && (ok <==> old(hp.supply) != [])
      ensures ok ==> hp.supply == old(hp.supply)[1..]
      ensures ok ==> pages == old(pages) + Carved(old(hp.supply)[0], PagesPerHp(), pageSize)
      ensures !ok ==> pages == old(pages) && hp.supply == old(hp.supply)
    {
      var memory := hp.Malloc();
      if memory.None? {
        return false;
      }
      Carve(memory.value);
      ok := true;
    }

    /** Splits one hugepage into pages. */
    method Split(v: nat) returns (more: seq<Page>)
      requires 0 < pageSize
      ensures more == Carved(v, PagesPerHp(), pageSize)
    {
      more := [];
      for i := 0 to PagesPerHp()
        invariant more == Carved(v, PagesPerHp(), pageSize)[..i]
      {
        more := more + [NewPage(v + i * pageSize, pageSize)];
      }
    }

    method Carve(v: nat)
      requires Valid()
      requires forall i :: 0 <= i < |pages| ==> Clear(pages[i].vaddr, pageSize, v, hp.hugepagesSize)
      requires forall j :: 0 <= j < |hp.supply| ==> Clear(v, hp.hugepagesSize, hp.supply[j], hp.hugepagesSize)
      modifies this`pages
      ensures Valid()
      ensures pages == old(pages) + Carved(v, PagesPerHp(), pageSize)
    {
      var more := Split(v);
      CarvedFits(pages, v, PagesPerHp(), pageSize, hp.supply, hp.hugepagesSize);
      GrowKeeps(pages, more, mallocMem, owner, pageSize);
      pages := pages + more;
    }

    /** `free_pages()` */
    method FreePages() returns (free: seq<nat>)
      ensures IsFreeList(pages, free)
      ensures Valid() ==> |free| + |owner| == |pages|
    {
      free := [];
      for i := 0 to |pages|
        invariant Sorted(free) && forall k :: 0 <= k < |free| ==> free[k] < i && !pages[free[k]].inUse
        invariant forall j :: 0 <= j < i && !pages[j].inUse ==> j in free
      {
        if !pages[i].inUse {
          free := free + [i];
        }
      }
      if Valid() {
        PagesConserved(pages, mallocMem, owner, pageSize, free);
      }
    }

    /** Size of an allocation: never below the system page size. */
    function Rounded(size: nat): nat {
      if size < hp.scPageSize then hp.scPageSize else size
    }

    function PagesNeeded(size: nat): (n: nat)
      requires 0 < pageSize
      ensures 0 < n
    {
      if Rounded(size) / pageSize < 1 then 1 else Rounded(size) / pageSize
    }

    /** Hugepages `malloc` asks for when `free` pages are free. */
    function Growth(need: nat, free: int): nat
      requires 0 < pageSize <= hp.hugepagesSize
    {
      if need <= free then 0
      else if (need - free) / PagesPerHp() < 1 then 1
      else (need - free) / PagesPerHp()
    }

    /** The search over groups of n consecutive free pages. */
    method Search(free: seq<nat>, n: nat) returns (found: Option<nat>)
      requires 0 < n && IsFreeList(pages, free)
      ensures found == None <==> NoFit(pages, free, n)
      ensures found.Some? ==> FirstFit(pages, free, n, found.value)
    {
      var i := 0;
      while i < |free| - (n - 1)
        invariant 0 <= i && forall j: nat :: j < i ==> !RunAt(pages, free, j, n)
      {
        if RunAt(pages, free, i, n) {
          return Some(i);
        }
        i := i + 1;
      }
      found := None;
    }

    /** Links a group under its first page and gives that one the size of the group. */
    method Link(group: seq<nat>, size: nat)
      requires 0 < |group| && Distinct(group)
      requires forall k :: 0 <= k < |group| ==> group[k] < |pages| && pages[group[k]].linked == []
      modifies this`pages
      ensures pages == LinkedUp(old(pages), group, size)
    {
      ghost var before := pages;
      var head := group[0];
      HalfLinkedStart(before, group);
      for k := 1 to |group|
        invariant HalfLinked(before, pages, group, k)
      {
        var m := group[k];
        HalfLinkedStep(before, pages, group, k);
        pages := pages[m := pages[m].(inUse := true)];
        pages := pages[head := pages[head].(linked := pages[head].linked + [m])];
      }
      HalfLinkedEnd(before, pages, group, size);
      pages := pages[head := pages[head].(size := size)];
    }

    /** Carves hugepages when fewer pages are free than needed. */
    method Grow(need: nat) returns (ok: bool)
      requires Valid()
      modifies this`pages, hp
      ensures Valid() && GrownFrom(old(pages), pages, pageSize) && |owner| <= |old(pages)|
      ensures var growth := Growth(need, |old(pages)| - |owner|);
              && (ok <==> growth <= |old(hp.supply)|)
              && TookHugepages(old(pages), old(hp.supply), pages, hp.supply, growth)
              && (ok && 0 < growth && 0 < need <= PagesPerHp() ==>
                    forall free :: IsFreeList(pages, free) ==> !NoFit(pages, free, need))
    {
      var free := FreePages();
      ok := true;
      if need > |free| {
        ghost var region;
        ok, region := MallocHps(Growth(need, |free|));
        if ok && need <= PagesPerHp() && 0 < need {
          forall free | IsFreeList(pages, free)
            ensures !NoFit(pages, free, need)
          {
            CarvedHasRun(pages, region, PagesPerHp(), pageSize, need, free);
          }
        }
      }
    }

    /** What `malloc` finds when `used` pages are taken and the hugepages of `supply` are to be
        had. After growth to `grown`, with free list `free`, it is the earliest contiguous run, and
        nothing exactly when there is none or the hugepages run out; when it grew and the run
        fits a hugepage, there is one. */
    ghost predicate Searched(before: seq<Page>, used: nat, supply: seq<nat>, grown: seq<Page>, supply': seq<nat>,
                             free: seq<nat>, need: nat, found: Option<nat>)
      requires 0 < pageSize <= hp.hugepagesSize
    {
      && GrownFrom(before, grown, pageSize) && IsFreeList(grown, free)
      && var growth := Growth(need, |before| - used);
      && TookHugepages(before, supply, grown, supply', growth)
      && (found == None <==> growth > |supply| || NoFit(grown, free, need))
      && (0 < growth <= |supply| && need <= PagesPerHp() ==> found.Some?)
      && (found.Some? ==> FirstFit(grown, free, need, found.value))
    }

    /** With too few pages free for an allocation that fits a hugepage, exactly one hugepage is
        taken and the allocation found there; it fails only when there is no hugepage. */
    ghost predicate ShortByFew(free: int, need: nat, before: seq<Page>, supply: seq<nat>, grown: seq<Page>,
                               supply': seq<nat>, failed: bool)
      requires 0 < pageSize
    {
      free < need <= PagesPerHp() ==>
        if supply == [] then failed && grown == before
        else !failed && supply' == supply[1..] && grown == before + Carved(supply[0], PagesPerHp(), pageSize)
    }

    lemma FewIsOne(used: nat, need: nat, before: seq<Page>, supply: seq<nat>, grown: seq<Page>, supply': seq<nat>,
                   list: seq<nat>, found: Option<nat>)
      requires 0 < pageSize <= hp.hugepagesSize && used <= |before|
      requires Searched(before, used, supply, grown, supply', list, need, found)
      ensures ShortByFew(|before| - used, need, before, supply, grown, supply', found == None)
    {
      if |before| - used < need <= PagesPerHp() {
        GrowthIs(need, |before| - used, 1);
        OneCarved(supply, PagesPerHp(), pageSize);
        assert before + [] == before;
      }
    }

    /** Hugepages asked for when pages are short: one, or as many as fit into what is missing,
        rounded down. */
    lemma GrowthIs(need: nat, free: int, k: nat)
      requires 0 < pageSize <= hp.hugepagesSize && 0 < PagesPerHp() && free < need
      ensures Growth(need, free) == k <==>
              0 < k && need - free < (k + 1) * PagesPerHp() && (k == 1 || k * PagesPerHp() <= need - free)
    {
      var short, n := need - free, PagesPerHp();
      var q := short / n;
      assert short == q * n + short % n;
      if 0 < k && short < (k + 1) * n && k * n <= short {
        Ring.DivModUnique(short, n, k, short - k * n);
      }
    }

    /** Pages of an allocation: one, or as many whole ones as its bytes fill, which are at least
        those of a system page. */
    lemma NeedIs(size: nat, n: nat)
      requires 0 < pageSize
      ensures var bytes := if size < hp.scPageSize then hp.scPageSize else size;
              PagesNeeded(size) == n <==> 0 < n && bytes < (n + 1) * pageSize && (n == 1 || n * pageSize <= bytes)
    {
      var bytes := Rounded(size);
      assert bytes == (bytes / pageSize) * pageSize + bytes % pageSize;
      if 0 < n && bytes < (n + 1) * pageSize && n * pageSize <= bytes {
        Ring.DivModUnique(bytes, pageSize, n, bytes - n * pageSize);
      }
    }

    /** The whole allocation is mapped, a small one with the system page size. */
    ghost predicate MappedWhole(h: nat, size: nat, direction: Direction, grown: seq<Page>, iovas: seq<nat>,
                                calls: seq<Call>, calls': seq<Call>) {
      && h < |grown| && iovas != [] && !direction.Bidirectional?
      && var bytes := if size < hp.scPageSize then hp.scPageSize else size;
         calls' == calls + [if direction.HostToDevice? then MapRead(grown[h].vaddr, iovas[0], bytes)
                            else MapWrite(grown[h].vaddr, iovas[0], bytes)]
    }

    /** The first half of `malloc`: grow if needed, then search. */
    method FindRun(need: nat) returns (found: Option<nat>, free: seq<nat>)
      requires Valid() && 0 < need
      modifies this`pages, hp
      ensures Valid() && Searched(old(pages), |owner|, old(hp.supply), pages, hp.supply, free, need, found)
      ensures ShortByFew(|old(pages)| - |owner|, need, old(pages), old(hp.supply), pages, hp.supply, found == None)
    {
      var ok := Grow(need);
      free := FreePages();
      found := None;
      if ok {
        found := Search(free, need);
      }
      FewIsOne(|owner|, need, old(pages), old(hp.supply), pages, hp.supply, free, found);
    }

    /** `malloc`: takes the run it finds, at index `at` of the free list, gives it an IOVA and
        maps it. With no IOVA to be had it raises, the run already linked; for a direction it
        cannot map it raises too, the allocation already tracked. */
    method Malloc(size: nat, direction: Direction)
      returns (r: Allocation, ghost grown: seq<Page>, ghost free: seq<nat>, ghost at: nat)
      requires Valid()
      modifies this, hp, iovaMgr
      ensures r.NoMemory? || r.Allocated? ==> Valid()
      ensures Searched(old(pages), |old(owner)|, old(hp.supply), grown, hp.supply, free, PagesNeeded(size),
                       if r.NoMemory? then None else Some(at))
      ensures r.NoMemory? ==>
                && pages == grown && mallocMem == old(mallocMem) && calls == old(calls)
                && iovaMgr.freeIovas == old(iovaMgr.freeIovas)
      ensures !r.NoMemory? ==>
                Committed(r, old(iovaMgr.freeIovas), iovaMgr.freeIovas, grown, pages, free, at,
                          PagesNeeded(size), Rounded(size),
                          direction, old(mallocMem), mallocMem, old(calls), calls)
      ensures ShortByFew(|old(pages)| - |old(owner)|, PagesNeeded(size), old(pages), old(hp.supply), grown, hp.supply,
                         r.NoMemory?)
      ensures r.Allocated? ==> MappedWhole(r.head, size, direction, grown, old(iovaMgr.freeIovas), old(calls), calls)
    {
      var need := PagesNeeded(size);
      var i, list := FindRun(need);
      grown, free, at := pages, list, 0;
      if i.None? {
        return NoMemory, grown, free, at;
      }
      at := i.value;
      r := Commit(list, i.value, need, Rounded(size), direction);
    }

    /** The second half of `malloc`: link the run, take an IOVA, track the allocation, map it. */
    method Commit(free: seq<nat>, at: nat, need: nat, size: nat, direction: Direction) returns (r: Allocation)
      requires Valid() && 0 < need && IsFreeList(pages, free) && RunAt(pages, free, at, need)
      modifies this, iovaMgr
      ensures r.Allocated? ==> Valid()
      ensures !r.NoMemory?
      ensures Committed(r, old(iovaMgr.freeIovas), iovaMgr.freeIovas, old(pages), pages, free, at, need, size,
                        direction, old(mallocMem), mallocMem, old(calls), calls)
    {
      ghost var next, run := if iovaMgr.freeIovas == [] then 0 else iovaMgr.freeIovas[0], free[at..at + need];
      MarkFacts(pages, mallocMem, owner, pageSize, free, at, need, size, next, hp.supply, hp.hugepagesSize);
      r := PublishAt(free, at, need, size, direction);
      if r.Allocated? {
        owner := Owned(owner, run);
      }
    }

    /** The same without the account of owners. */
    method PublishAt(free: seq<nat>, at: nat, need: nat, size: nat, direction: Direction) returns (r: Allocation)
      requires 0 < need && at + need <= |free| && free[at] !in mallocMem && Distinct(free[at..at + need])
      requires var run := free[at..at + need];
               forall k :: 0 <= k < need ==> run[k] < |pages| && pages[run[k]].linked == []
      requires var next := if iovaMgr.freeIovas == [] then 0 else iovaMgr.freeIovas[0];
               Taken(pages, Marked(pages, free[at..at + need], size, next), free, at, need, size, next)
      modifies this`pages, this`mallocMem, this`calls, iovaMgr
      ensures !r.NoMemory?
      ensures Committed(r, old(iovaMgr.freeIovas), iovaMgr.freeIovas, old(pages), pages, free, at, need, size,
                        direction, old(mallocMem), mallocMem, old(calls), calls)
      ensures r.Allocated? ==>
                && old(iovaMgr.freeIovas) != []
                      && pages == Marked(old(pages), free[at..at + need], size, old(iovaMgr.freeIovas)[0])
                && mallocMem == old(mallocMem) + [free[at]]
                && multiset(old(iovaMgr.freeIovas)) == multiset(iovaMgr.freeIovas) + multiset{old(iovaMgr.freeIovas)[0]}
    {
      ghost var before, live, pool, made := pages, mallocMem, iovaMgr.freeIovas, calls;
      r := Publish(free[at..at + need], size, direction);
      CommittedIs(r, pool, iovaMgr.freeIovas, before, pages, free, at, need, size, direction, live, mallocMem, made,
          calls);
    }

    /** Links the run; with an IOVA in hand it becomes an allocation, and is mapped if the
        direction can be. */
    method Publish(run: seq<nat>, size: nat, direction: Direction) returns (r: Allocation)
      requires 0 < |run| && Distinct(run)
      requires forall k :: 0 <= k < |run| ==> run[k] < |pages| && pages[run[k]].linked == []
      modifies this`pages, this`mallocMem, this`calls, iovaMgr
      ensures r == if old(iovaMgr.freeIovas) == [] || size > INCREMENT then Raised
                   else if direction.Bidirectional? then Unmapped(run[0]) else Allocated(run[0])
      ensures r.Raised? ==> pages == LinkedUp(old(pages), run, size) && calls == old(calls)
                            && mallocMem == old(mallocMem) && iovaMgr.freeIovas == old(iovaMgr.freeIovas)
      ensures !r.Raised? ==>
                var pool := old(iovaMgr.freeIovas);
                && mallocMem == old(mallocMem) + [run[0]] && iovaMgr.freeIovas == pool[1..]
                && calls == old(calls) + MapCall(direction, old(pages)[run[0]].vaddr, pool[0], size)
                && multiset(pool) == multiset(iovaMgr.freeIovas) + multiset{pool[0]}
      ensures r.Allocated? ==> pages == Marked(old(pages), run, size, old(iovaMgr.freeIovas)[0])
      ensures r.Unmapped? ==> pages == Tracked(old(pages), run, size, old(iovaMgr.freeIovas)[0])
    {
      Link(run, size);
      var iova := iovaMgr.Get(size);
      if !iova.0 {
        return Raised;
      }
      LinkedUpIsMarked(old(pages), run, size, iova.1);
      HeadBack(old(iovaMgr.freeIovas));
      pages := pages[run[0] := pages[run[0]].(iova := iova.1, inUse := true)];
      mallocMem := mallocMem + [run[0]];
      var mapped := MapIova(run[0], direction);
      r := if mapped then Allocated(run[0]) else Unmapped(run[0]);
    }

    /** `map_iova`; false is its assertion on the direction. */
    method MapIova(h: nat, direction: Direction) returns (ok: bool)
      requires h < |pages|
      modifies this`pages, this`calls
      ensures ok <==> !direction.Bidirectional?
      ensures pages == if ok then old(pages)[h := old(pages)[h].(mapped := true)] else old(pages)
      ensures calls == old(calls) + MapCall(direction, pages[h].vaddr, pages[h].iova, pages[h].size)
    {
      var p := pages[h];
      match direction {
        case HostToDevice => calls := calls + [MapRead(p.vaddr, p.iova, p.size)];
        case DeviceToHost => calls := calls + [MapWrite(p.vaddr, p.iova, p.size)];
        case Bidirectional => return false;
      }
      pages := pages[h := p.(mapped := true)];
      ok := true;
    }

    /** `free` of a live allocation: none of its assertions fires, every page of the run is
        unused again, the IOVA goes back to the end of the pool, and one page is unmapped and
        cleared. */
    method Free(h: nat)
      requires Valid() && h in mallocMem
      modifies this, iovaMgr
      ensures Valid()
      ensures h < |old(pages)| && pages == Released(old(pages), h, pageSize)
      ensures mallocMem == Removed(old(mallocMem), h)
      ensures iovaMgr.freeIovas == old(iovaMgr.freeIovas) + [old(pages)[h].iova]
      ensures calls == old(calls) + FreeCall(old(pages)[h], pageSize) && hp.supply == old(hp.supply)
    {
      HeadFacts(pages, mallocMem, owner, pageSize, h);
      ReleaseKeeps(pages, mallocMem, owner, pageSize, h);
      ReleaseIovas(pages, mallocMem, owner, pageSize, h);
      ReleaseSpaced(pages, h, pageSize, hp.supply, hp.hugepagesSize);
      Unlink(h);
      calls := calls + [Unmap(pages[h].iova, pages[h].size)];
      iovaMgr.Free(pages[h].iova);
      calls := calls + [ClearMemory(pages[h].vaddr, pages[h].size)];
      owner := owner - Elements(Run(old(pages), h));
      mallocMem := Removed(mallocMem, h);
    }

    /** Releases the links and then the head itself. */
    method Unlink(h: nat)
      requires h < |pages| && pages[h].inUse && pages[h].mapped && h !in pages[h].linked
      requires Distinct(pages[h].linked)
      requires forall k :: 0 <= k < |pages[h].linked| ==>
               pages[h].linked[k] < |pages| && pages[pages[h].linked[k]].inUse
      modifies this`pages
      ensures pages == Released(old(pages), h, pageSize)
    {
      ghost var before := pages;
      var links := pages[h].linked;
      for k := 0 to |links|
        invariant HalfReleased(before, pages, links, k, pageSize)
      {
        var m := links[k];
        HalfReleasedStep(before, pages, links, k, pageSize);
        assert pages[m].inUse;
        pages := pages[m := pages[m].(inUse := false, size := pageSize)];
      }
      assert pages[h] == before[h];
      pages := pages[h := pages[h].(linked := [])];
      assert pages[h].inUse;
      pages := pages[h := pages[h].(inUse := false, size := pageSize)];
      assert pages[h].mapped;
      pages := pages[h := pages[h].(mapped := false)];
      HalfReleasedEnd(before, pages, links, h, pageSize);
    }

    /** `free_all`: every allocation is freed, in order, the hugepages are given back, the
        tracking list is empty, and the IOVA pool is complete again. */
    method FreeAll()
      requires Valid()
      modifies this, iovaMgr
      ensures Valid() && mallocMem == [] && pages == []
      ensures multiset(iovaMgr.freeIovas) == pool
      ensures calls == old(calls) + FreeCalls(old(pages), old(mallocMem), pageSize) + [ReturnHugepages]
    {
      var malloc := mallocMem;
      ghost var before, made := pages, calls;
      assert malloc[..|malloc|] == malloc && malloc[..0] == [];
      for k := 0 to |malloc|
        invariant Valid() && FreedTo(before, malloc, made, pages, mallocMem, calls, pageSize, k)
      {
        FreeNext(malloc, k, before, made);
      }
      pages, owner := [], map[];
      calls := calls + [ReturnHugepages];
      assert mallocMem == [];
    }

    method FreeNext(malloc: seq<nat>, k: nat, ghost before: seq<Page>, ghost made: seq<Call>)
      requires Valid() && k < |malloc| && FreedTo(before, malloc, made, pages, mallocMem, calls, pageSize, k)
      modifies this, iovaMgr
      ensures Valid() && FreedTo(before, malloc, made, pages, mallocMem, calls, pageSize, k + 1)
    {
      ghost var cells, live, done := pages, mallocMem, calls;
      assert malloc[k] == malloc[k..][0];
      Free(malloc[k]);
      FreedStep(before, malloc, made, cells, live, done, pageSize, k);
    }
  }

  /** The first k of the allocations are freed. */
  ghost predicate FreedTo(before: seq<Page>, malloc: seq<nat>, made: seq<Call>, pages: seq<Page>, live: seq<nat>,
                          calls: seq<Call>, ps: nat, k: nat) {
    && k <= |malloc| && live == malloc[k..] && SameCells(before, pages)
    && (forall i :: 0 <= i < |malloc| ==> malloc[i] < |before|)
    && calls == made + FreeCalls(before, malloc[..k], ps)
  }

  lemma FreedStep(before: seq<Page>, malloc: seq<nat>, made: seq<Call>, pages: seq<Page>, live: seq<nat>,
                  calls: seq<Call>, ps: nat, k: nat)
    requires FreedTo(before, malloc, made, pages, live, calls, ps, k) && k < |malloc|
    ensures malloc[k] < |pages|
    ensures FreedTo(before, malloc, made, Released(pages, malloc[k], ps), Removed(live, malloc[k]),
                    calls + FreeCall(pages[malloc[k]], ps), ps, k + 1)
  {
    FreeCallsStep(before, malloc, k, ps);
    RemovedFront(malloc, k);
    ReleasedCells(before, pages, malloc[k], ps);
    assert FreeCall(pages[malloc[k]], ps) == FreeCall(before[malloc[k]], ps);
  }

  lemma ReleasedCells(before: seq<Page>, pages: seq<Page>, h: nat, ps: nat)
    requires SameCells(before, pages) && h < |pages|
    ensures SameCells(before, Released(pages, h, ps))
  {
  }

  lemma RemovedFront(xs: seq<nat>, k: nat)
    requires k < |xs|
    ensures Removed(xs[k..], xs[k]) == xs[k + 1..]
  {
    assert xs[k..][1..] == xs[k + 1..];
  }

  /** The same pages, at the same addresses and IOVAs. */
  ghost predicate SameCells(before: seq<Page>, pages: seq<Page>) {
    |pages| == |before| && forall i :: 0 <= i < |pages| ==>
        pages[i].vaddr == before[i].vaddr && pages[i].iova == before[i].iova
  }

  lemma FreeCallsStep(pages: seq<Page>, heads: seq<nat>, k: nat, ps: nat)
    requires k < |heads| && forall i :: 0 <= i < |heads| ==> heads[i] < |pages|
    ensures FreeCalls(pages, heads[..k + 1], ps) == FreeCalls(pages, heads[..k], ps) + FreeCall(pages[heads[k]], ps)
  {
    assert heads[..k + 1][..k] == heads[..k];
  }

  /** pages extends before by new pages. */
  ghost predicate GrownFrom(before: seq<Page>, pages: seq<Page>, ps: nat) {
    before <= pages && forall i :: |before| <= i < |pages| ==> pages[i] == NewPage(pages[i].vaddr, ps)
  }

  /** `malloc` took the run at index `at` of the free list: the pages are marked, the head's
      run is that run, and the free list lost exactly it. */
  ghost predicate Taken(grown: seq<Page>, pages: seq<Page>, free: seq<nat>, at: nat, n: nat, size: nat, iova: nat) {
    && 0 < n && at + n <= |free| && free[at] < |grown|
    && pages == Marked(grown, free[at..at + n], size, iova)
    && Run(pages, free[at]) == free[at..at + n]
    && IsFreeList(pages, free[..at] + free[at + n..])
  }

  /** How the second half of `malloc` ends, once it has found a run: it raises exactly when no
      IOVA is to be had, or the direction cannot be mapped. */
  ghost predicate Committed(r: Allocation, pool: seq<nat>, pool': seq<nat>, grown: seq<Page>, pages: seq<Page>,
                            free: seq<nat>, at: nat, n: nat, size: nat, direction: Direction,
                            live: seq<nat>, live': seq<nat>, calls: seq<Call>, calls': seq<Call>) {
    && 0 < n && at + n <= |free| && free[at] < |grown|
    && r == (if pool == [] || size > INCREMENT then Raised
             else if direction.Bidirectional? then Unmapped(free[at]) else Allocated(free[at]))
    && (r.Raised? ==> Stranded(grown, pages, free, at, n, size) && live' == live && pool' == pool && calls' == calls)
    && (!r.Raised? ==>
          && free[at] !in live && live' == live + [free[at]] && pool' == pool[1..]
          && calls' == calls + MapCall(direction, grown[free[at]].vaddr, pool[0], size))
    && (r.Allocated? ==> Taken(grown, pages, free, at, n, size, pool[0]))
    && (r.Unmapped? ==> pages == Tracked(grown, free[at..at + n], size, pool[0]))
  }

  lemma CommittedIs(r: Allocation, pool: seq<nat>, pool': seq<nat>, grown: seq<Page>, pages: seq<Page>, free: seq<nat>,
                    at: nat, n: nat, size: nat, direction: Direction,
                    live: seq<nat>, live': seq<nat>, calls: seq<Call>, calls': seq<Call>)
    requires 0 < n && at + n <= |free| && free[at] < |grown| && free[at] !in live
    requires var run := free[at..at + n];
             && Taken(grown, Marked(grown, run, size, if pool == [] then 0 else pool[0]), free, at, n, size,
                      if pool == [] then 0 else pool[0])
             && r == (if pool == [] || size > INCREMENT then Raised
                      else if direction.Bidirectional? then Unmapped(run[0]) else Allocated(run[0]))
             && (r.Raised? ==> pages == LinkedUp(grown, run, size) && live' == live && pool' == pool && calls' == calls)
             && (!r.Raised? ==>
                   && live' == live + [run[0]] && pool' == pool[1..]
                   && calls' == calls + MapCall(direction, grown[run[0]].vaddr, pool[0], size))
             && (r.Allocated? ==> pages == Marked(grown, run, size, pool[0]))
             && (r.Unmapped? ==> pages == Tracked(grown, run, size, pool[0]))
    ensures Committed(r, pool, pool', grown, pages, free, at, n, size, direction, live, live', calls, calls')
  {
  }

  /** `malloc` raised after it had linked the run at index `at` of the free list. */
  ghost predicate Stranded(grown: seq<Page>, pages: seq<Page>, free: seq<nat>, at: nat, n: nat, size: nat) {
    0 < n && at + n <= |free| && pages == LinkedUp(grown, free[at..at + n], size)
  }

  lemma GrownFits(before: seq<Page>, grown: seq<Page>, live: seq<nat>, ps: nat)
    requires GrownFrom(before, grown, ps) && forall h :: h in live ==> h < |before|
    ensures Fitting(before, live, ps) <==> Fitting(grown, live, ps)
  {
    forall h | h in live
      ensures FitsRun(grown, h, ps) <==> FitsRun(before, h, ps)
    {
      assert grown[h] == before[h];
    }
  }

  /** After a `malloc` all live allocations still fit their pages exactly when the size is a
      whole number of pages or less than one; `n` pages are what `malloc` takes for it. */
  lemma MallocFits(before: seq<Page>, live: seq<nat>, owner: Owners, ps: nat, grown: seq<Page>, free: seq<nat>,
                   at: nat, n: nat, size: nat, iova: nat, pages: seq<Page>)
    requires 0 < ps && GrownFrom(before, grown, ps) && Inv(grown, live, owner, ps)
    requires forall h :: h in live ==> h < |before|
    requires IsFreeList(grown, free) && RunAt(grown, free, at, n) && Taken(grown, pages, free, at, n, size, iova)
    requires n == (if size / ps < 1 then 1 else size / ps) && Fitting(before, live, ps)
    ensures Fitting(pages, live + [free[at]], ps) <==> size % ps == 0 || size < ps
  {
    GrownFits(before, grown, live, ps);
    FitIsLinkable(grown, live, owner, ps, free, at, n);
    MarkFits(grown, live, owner, ps, free[at..at + n], size, iova);
    FitsExactly(size, ps);
  }

  lemma HeadBack(xs: seq<nat>)
    requires xs != []
    ensures multiset(xs) == multiset(xs[1..]) + multiset{xs[0]}
  {
    assert xs == [xs[0]] + xs[1..];
  }

  /** What marking a run of the free list does to the allocations. */
  lemma MarkLive(pages: seq<Page>, live: seq<nat>, owner: Owners, ps: nat, free: seq<nat>, at: nat, n: nat, size: nat,
                 iova: nat)
    requires Inv(pages, live, owner, ps) && IsFreeList(pages, free) && 0 < n && RunAt(pages, free, at, n)
    ensures Linkable(pages, owner, ps, free[at..at + n])
    ensures var run := free[at..at + n];
            var pages', live' := Marked(pages, run, size, iova), live + [run[0]];
            && Inv(pages', live', Owned(owner, run), ps) && run[0] !in live
            && Known(pages, live) && Known(pages', live')
            && LiveIovas(pages', live') == LiveIovas(pages, live) + multiset{iova}
  {
    var run := free[at..at + n];
    FitIsLinkable(pages, live, owner, ps, free, at, n);
    MarkKeeps(pages, live, owner, ps, run, size, iova);
    MarkIovas(pages, live, owner, ps, run, size, iova);
  }

  /** What it does to the free list. */
  lemma MarkTakes(pages: seq<Page>, live: seq<nat>, owner: Owners, ps: nat, free: seq<nat>, at: nat, n: nat, size: nat,
                  iova: nat)
    requires Inv(pages, live, owner, ps) && IsFreeList(pages, free) && 0 < n && RunAt(pages, free, at, n)
    ensures var run := free[at..at + n];
            && Distinct(run) && (forall k :: 0 <= k < n ==> run[k] < |pages| && pages[run[k]].linked == [])
            && Taken(pages, Marked(pages, run, size, iova), free, at, n, size, iova)
  {
    FreeUnowned(pages, live, owner, ps, free);
    MarkedRun(pages, free[at..at + n], size, iova);
    MarkCutsFreeList(pages, free, at, n, size, iova);
  }

  /** All of that. */
  lemma MarkFacts(pages: seq<Page>, live: seq<nat>, owner: Owners, ps: nat, free: seq<nat>, at: nat, n: nat, size: nat,
                  iova: nat, supply: seq<nat>, huge: nat)
    requires Inv(pages, live, owner, ps) && IsFreeList(pages, free) && 0 < n && RunAt(pages, free, at, n)
    requires Spaced(pages, ps, supply, huge)
    ensures var run := free[at..at + n];
            var pages', live' := Marked(pages, run, size, iova), live + [free[at]];
            && Distinct(run) && (forall k :: 0 <= k < n ==> run[k] < |pages| && pages[run[k]].linked == [])
            && Taken(pages, pages', free, at, n, size, iova) && free[at] !in live
            && Inv(pages', live', Owned(owner, run), ps) && Known(pages, live) && Known(pages', live')
            && LiveIovas(pages', live') == LiveIovas(pages, live) + multiset{iova}
            && Spaced(pages', ps, supply, huge)
  {
    MarkTakes(pages, live, owner, ps, free, at, n, size, iova);
    MarkLive(pages, live, owner, ps, free, at, n, size, iova);
    MarkSpaced(pages, free[at..at + n], size, iova, ps, supply, huge);
  }

  lemma MarkedRun(pages: seq<Page>, run: seq<nat>, size: nat, iova: nat)
    requires 0 < |run| && run[0] < |pages|
    ensures Run(Marked(pages, run, size, iova), run[0]) == run
  {
  }

  /** What that exception leaves, exactly: the table still has an account of owners, with the
      same live allocations, if and only if the run was one page and the size that of a page;
      nothing has changed then. Otherwise pages are in use that belong to nobody, or an unused
      page has the wrong size. */
  lemma StrandedLeaks(grown: seq<Page>, pages: seq<Page>, live: seq<nat>, owner: Owners, ps: nat, free: seq<nat>,
                      at: nat, n: nat, size: nat)
    requires Inv(grown, live, owner, ps) && IsFreeList(grown, free) && RunAt(grown, free, at, n)
    requires Stranded(grown, pages, free, at, n, size)
    ensures (exists owner' :: Inv(pages, live, owner', ps)) <==> n == 1 && size == ps
    ensures n == 1 && size == ps ==> pages == grown
    ensures 1 < n ==> at + 1 < |free| && free[at + 1] < |pages| && pages[free[at + 1]].inUse && free[at + 1] !in owner
  {
    FitIsLinkable(grown, live, owner, ps, free, at, n);
    if n == 1 && size == ps {
      LinkedUpOne(grown, live, owner, ps, free[at..at + n], size, owner);
      assert Inv(pages, live, owner, ps);
    } else {
      forall owner'
        ensures !Inv(pages, live, owner', ps)
      {
        StrandedUnowned(grown, pages, live, owner, ps, free, at, n, size, owner');
      }
    }
    if 1 < n {
      StrandedMember(grown, pages, owner, ps, free, at, n, size);
    }
  }

  lemma StrandedUnowned(grown: seq<Page>, pages: seq<Page>, live: seq<nat>, owner: Owners, ps: nat, free: seq<nat>,
                        at: nat, n: nat, size: nat, owner': Owners)
    requires Inv(grown, live, owner, ps) && 0 < n && at + n <= |free| && Linkable(grown, owner, ps, free[at..at + n])
    requires Stranded(grown, pages, free, at, n, size) && (n != 1 || size != ps)
    ensures !Inv(pages, live, owner', ps)
  {
    if n == 1 {
      LinkedUpOne(grown, live, owner, ps, free[at..at + n], size, owner');
    } else {
      LinkedUpLeaks(grown, live, owner, ps, free[at..at + n], size, owner');
    }
  }

  lemma StrandedMember(grown: seq<Page>, pages: seq<Page>, owner: Owners, ps: nat, free: seq<nat>, at: nat, n: nat,
                       size: nat)
    requires 1 < n && Stranded(grown, pages, free, at, n, size) && Linkable(grown, owner, ps, free[at..at + n])
    ensures free[at + 1] < |pages| && pages[free[at + 1]].inUse && free[at + 1] !in owner
  {
    var run := free[at..at + n];
    assert run[1] == free[at + 1] && run[1] in run && run[1] != run[0];
  }

  /** The manager's constructor raises when there is no hugepage to start with. */
  method NewManager(pageSize: nat, hp: HugePagesMemory, iovaMgr: HugePagesIovaMgr)
    returns (m: Option<HugePagesMemoryMgr>)
    requires 0 < pageSize <= hp.hugepagesSize && Spaced([], pageSize, hp.supply, hp.hugepagesSize)
    modifies hp
    ensures m.None? <==> old(hp.supply) == []
    ensures m.Some? ==> m.value.Valid() && m.value.mallocMem == [] && m.value.hp == hp && m.value.iovaMgr == iovaMgr
  {
    if hp.supply == [] {
      return None;
    }
    var mgr := new HugePagesMemoryMgr(pageSize, hp, iovaMgr);
    m := Some(mgr);
  }
}
