/** The page table of `HugePagesMemoryMgr`: pages, live allocations and who owns what. A page
    object is an entry of the table and is referred to by its index there. */
module PageTable {
  import Ring

  /** `MemoryLocation`. While a page heads a live allocation its size is that of the whole
      run, and `linked` are the other pages of the run. */
  datatype Page = Page(vaddr: nat, size: nat, iova: nat, inUse: bool, mapped: bool, linked: seq<nat>)

  function NewPage(vaddr: nat, size: nat): Page {
    Page(vaddr, size, 0, false, false, [])
  }

  /** All pages of the allocation h heads. */
  function Run(pages: seq<Page>, h: nat): (r: seq<nat>)
    requires h < |pages|
    ensures 0 < |r| && r[0] == h
  {
    [h] + pages[h].linked
  }

  ghost predicate Distinct<T>(xs: seq<T>) {
    forall i, j :: 0 <= i < j < |xs| ==> xs[i] != xs[j]
  }

  ghost function Elements<T>(xs: seq<T>): set<T> {
    set x | x in xs
  }

  ghost predicate Sorted(xs: seq<nat>) {
    forall i, j :: 0 <= i < j < |xs| ==> xs[i] < xs[j]
  }

  // ---- The invariant ----------------------------------------------------------------

  /** Memory of a bytes from v and b bytes from w does not overlap. */
  predicate Clear(v: nat, a: nat, w: nat, b: nat) {
    v + a <= w || w + b <= v
  }

  /** Pages overlap neither each other nor the regions still to come. */
  ghost predicate Spaced(pages: seq<Page>, pageSize: nat, supply: seq<nat>, hugeSize: nat) {
    && (forall i, j :: 0 <= i < j < |pages| ==> Clear(pages[i].vaddr, pageSize, pages[j].vaddr, pageSize))
    && (forall i, j :: 0 <= i < |pages| && 0 <= j < |supply| ==> Clear(pages[i].vaddr, pageSize, supply[j], hugeSize))
    && (forall i, j :: 0 <= i < j < |supply| ==> Clear(supply[i], hugeSize, supply[j], hugeSize))
  }

  /** Which live allocation each used page belongs to, and its place in the run. */
  type Owners = map<nat, (nat, nat)>

  ghost predicate PageInv(pages: seq<Page>, live: seq<nat>, owner: Owners, ps: nat, p: nat)
    requires p < |pages|
  {
    if p in owner then
      var (h, k) := owner[p];
      && pages[p].inUse && h in live && h < |pages|
      && k < |Run(pages, h)| && Run(pages, h)[k] == p
    else
      !pages[p].inUse && pages[p].size == ps && pages[p].linked == []
  }

  /** q is page k of the run of h. */
  ghost predicate MemberInv(pages: seq<Page>, owner: Owners, ps: nat, h: nat, k: nat, q: nat)
    requires h < |pages|
  {
    && q < |pages| && q in owner && owner[q] == (h, k)
    && pages[q].vaddr == pages[h].vaddr + k * ps
    && (0 < k ==> pages[q].linked == [] && pages[q].size == ps)
  }

  ghost predicate HeadInv(pages: seq<Page>, owner: Owners, ps: nat, h: nat)
    requires h < |pages|
  {
    pages[h].mapped && forall k :: 0 <= k < |Run(pages, h)| ==> MemberInv(pages, owner, ps, h, k, Run(pages, h)[k])
  }

  /** Every page is either unused, with its own size and no links, or belongs to exactly one
      live allocation; live allocations are contiguous runs. */
  ghost predicate Inv(pages: seq<Page>, live: seq<nat>, owner: Owners, ps: nat) {
    && Distinct(live)
    && (forall p: nat :: p in owner ==> p < |pages|)
    && (forall p :: 0 <= p < |pages| ==> PageInv(pages, live, owner, ps, p))
    && (forall h :: h in live ==> h < |pages| && HeadInv(pages, owner, ps, h))
  }

  /** No page belongs to two live allocations. */
  lemma RunsDisjoint(pages: seq<Page>, live: seq<nat>, owner: Owners, ps: nat, g: nat, h: nat, i: nat, j: nat)
    requires Inv(pages, live, owner, ps) && g in live && h in live
    requires i < |Run(pages, g)| && j < |Run(pages, h)| && Run(pages, g)[i] == Run(pages, h)[j]
    ensures g == h && i == j
  {
    assert MemberInv(pages, owner, ps, g, i, Run(pages, g)[i]);
    assert MemberInv(pages, owner, ps, h, j, Run(pages, h)[j]);
  }

  // ---- Marking and releasing a run --------------------------------------------------

  /** The pages after a run was linked under its first page. */
  function Marked(pages: seq<Page>, run: seq<nat>, size: nat, iova: nat): (r: seq<Page>)
    requires 0 < |run|
    ensures |r| == |pages|
  {
    seq(|pages|, i requires 0 <= i < |pages| =>
      if i == run[0] then pages[i].(size := size, iova := iova, inUse := true, mapped := true, linked := run[1..])
      else if i in run then pages[i].(inUse := true)
      else pages[i])
  }

  /** The pages once the run is linked and has its size, but no IOVA yet. */
  function LinkedUp(pages: seq<Page>, run: seq<nat>, size: nat): (r: seq<Page>)
    requires 0 < |run|
    ensures |r| == |pages|
  {
    seq(|pages|, i requires 0 <= i < |pages| =>
      if i == run[0] then pages[i].(size := size, linked := run[1..])
      else if i in run then pages[i].(inUse := true)
      else pages[i])
  }

  /** The pages once the allocation is tracked, but not mapped. */
  function Tracked(pages: seq<Page>, run: seq<nat>, size: nat, iova: nat): (r: seq<Page>)
    requires 0 < |run| && run[0] < |pages|
    ensures |r| == |pages|
  {
    var up := LinkedUp(pages, run, size);
    up[run[0] := up[run[0]].(iova := iova, inUse := true)]
  }

  ghost function Owned(owner: Owners, run: seq<nat>): (r: Owners)
    requires 0 < |run| && Distinct(run)
    ensures r.Keys == owner.Keys + Elements(run)
    ensures forall k :: 0 <= k < |run| ==> r[run[k]] == (run[0], k)
    ensures forall p :: p in owner && p !in run ==> r[p] == owner[p]
  {
    var mine := map p: nat | p in Elements(run) :: (run[0], Place(run, p));
    assert forall k :: 0 <= k < |run| ==> run[k] in mine && Place(run, run[k]) == k;
    owner + mine
  }

  ghost function Place(run: seq<nat>, p: nat): (k: nat)
    requires p in run
    ensures k < |run| && run[k] == p
  {
    var k: nat :| k < |run| && run[k] == p;
    k
  }

  /** A run of free pages, adjacent in memory. */
  ghost predicate Linkable(pages: seq<Page>, owner: Owners, ps: nat, run: seq<nat>) {
    && 0 < |run| && Distinct(run)
    && (forall k :: 0 <= k < |run| ==> run[k] < |pages| && run[k] !in owner)
    && (forall k :: 0 <= k < |run| ==> pages[run[k]].vaddr == pages[run[0]].vaddr + k * ps)
  }

  lemma MarkPages(pages: seq<Page>, live: seq<nat>, owner: Owners, ps: nat, run: seq<nat>, size: nat, iova: nat, p: nat)
    requires Inv(pages, live, owner, ps) && Linkable(pages, owner, ps, run) && p < |pages|
    ensures PageInv(Marked(pages, run, size, iova), live + [run[0]], Owned(owner, run), ps, p)
  {
    if p in run {
      var pages', owner' := Marked(pages, run, size, iova), Owned(owner, run);
      assert Run(pages', run[0]) == run && owner'[run[Place(run, p)]] == (run[0], Place(run, p));
    } else {
      MarkOther(pages, live, owner, ps, run, size, iova, p);
    }
  }

  lemma MarkOther(pages: seq<Page>, live: seq<nat>, owner: Owners, ps: nat, run: seq<nat>, size: nat, iova: nat, p: nat)
    requires Inv(pages, live, owner, ps) && Linkable(pages, owner, ps, run) && p < |pages| && p !in run
    ensures PageInv(Marked(pages, run, size, iova), live + [run[0]], Owned(owner, run), ps, p)
  {
    assert PageInv(pages, live, owner, ps, p);
    if p in owner {
      OwnerKept(pages, live, owner, ps, run, owner[p].0);
      assert Run(Marked(pages, run, size, iova), owner[p].0) == Run(pages, owner[p].0);
    }
  }

  lemma MarkHeads(pages: seq<Page>, live: seq<nat>, owner: Owners, ps: nat, run: seq<nat>, size: nat, iova: nat, h: nat)
    requires Inv(pages, live, owner, ps) && Linkable(pages, owner, ps, run) && h in live
    ensures h < |pages| && HeadInv(Marked(pages, run, size, iova), Owned(owner, run), ps, h)
  {
    var pages', owner' := Marked(pages, run, size, iova), Owned(owner, run);
    OwnerKept(pages, live, owner, ps, run, h);
    assert Run(pages', h) == Run(pages, h);
    forall k | 0 <= k < |Run(pages', h)|
      ensures MemberInv(pages', owner', ps, h, k, Run(pages', h)[k])
    {
      assert MemberInv(pages, owner, ps, h, k, Run(pages, h)[k]);
    }
  }

  lemma FreeIsNotLive(pages: seq<Page>, live: seq<nat>, owner: Owners, ps: nat, run: seq<nat>)
    requires Inv(pages, live, owner, ps) && Linkable(pages, owner, ps, run)
    ensures run[0] !in live
  {
    if run[0] in live {
      OwnerKept(pages, live, owner, ps, run, run[0]);
    }
  }

  lemma MarkKeeps(pages: seq<Page>, live: seq<nat>, owner: Owners, ps: nat, run: seq<nat>, size: nat, iova: nat)
    requires Inv(pages, live, owner, ps) && Linkable(pages, owner, ps, run)
    ensures Inv(Marked(pages, run, size, iova), live + [run[0]], Owned(owner, run), ps)
    ensures run[0] !in live && Run(Marked(pages, run, size, iova), run[0]) == run
  {
    var h0 := run[0];
    FreeIsNotLive(pages, live, owner, ps, run);
    forall p | 0 <= p < |pages|
      ensures PageInv(Marked(pages, run, size, iova), live + [h0], Owned(owner, run), ps, p)
    {
      MarkPages(pages, live, owner, ps, run, size, iova, p);
    }
    forall h | h in live
      ensures h < |pages| && HeadInv(Marked(pages, run, size, iova), Owned(owner, run), ps, h)
    {
      MarkHeads(pages, live, owner, ps, run, size, iova, h);
    }
    MarkedHead(pages, live, owner, ps, run, size, iova);
  }

  lemma MarkedHead(pages: seq<Page>, live: seq<nat>, owner: Owners, ps: nat, run: seq<nat>, size: nat, iova: nat)
    requires Inv(pages, live, owner, ps) && Linkable(pages, owner, ps, run)
    ensures HeadInv(Marked(pages, run, size, iova), Owned(owner, run), ps, run[0])
  {
    var pages', owner' := Marked(pages, run, size, iova), Owned(owner, run);
    assert Run(pages', run[0]) == run;
    forall k | 0 <= k < |run|
      ensures MemberInv(pages', owner', ps, run[0], k, run[k])
    {
      assert PageInv(pages, live, owner, ps, run[k]);
    }
  }

  /** A live head is not among free pages. */
  lemma OwnerKept(pages: seq<Page>, live: seq<nat>, owner: Owners, ps: nat, run: seq<nat>, h: nat)
    requires Inv(pages, live, owner, ps) && Linkable(pages, owner, ps, run) && h in live
    ensures h !in run
  {
    assert MemberInv(pages, owner, ps, h, 0, Run(pages, h)[0]);
  }

  /** The pages after the allocation headed by h was freed. */
  function Released(pages: seq<Page>, h: nat, ps: nat): (r: seq<Page>)
    requires h < |pages|
    ensures |r| == |pages|
  {
    seq(|pages|, i requires 0 <= i < |pages| =>
      if i == h then pages[i].(size := ps, inUse := false, mapped := false, linked := [])
      else if i in pages[h].linked then pages[i].(size := ps, inUse := false)
      else pages[i])
  }

  /** `list.remove`: drops the first occurrence. */
  function Removed(xs: seq<nat>, x: nat): seq<nat> {
    if xs == [] then [] else if xs[0] == x then xs[1..] else [xs[0]] + Removed(xs[1..], x)
  }

  lemma {:induction false} RemovedIs(xs: seq<nat>, x: nat)
    requires Distinct(xs) && x in xs
    ensures Distinct(Removed(xs, x)) && |Removed(xs, x)| == |xs| - 1
    ensures forall y :: y in Removed(xs, x) <==> y in xs && y != x
    ensures multiset(xs) == multiset(Removed(xs, x)) + multiset{x}
  {
    assert xs == [xs[0]] + xs[1..];
    if xs[0] != x {
      RemovedIs(xs[1..], x);
      var r := Removed(xs[1..], x);
      assert forall i :: 0 <= i < |r| ==> r[i] in r;
      assert Removed(xs, x) == [xs[0]] + r;
    }
  }

  lemma ReleaseKeeps(pages: seq<Page>, live: seq<nat>, owner: Owners, ps: nat, h: nat)
    requires Inv(pages, live, owner, ps) && h in live
    ensures Inv(Released(pages, h, ps), Removed(live, h), owner - Elements(Run(pages, h)), ps)
  {
    var pages', live', owner' := Released(pages, h, ps), Removed(live, h), owner - Elements(Run(pages, h));
    RemovedIs(live, h);
    forall p | 0 <= p < |pages|
      ensures PageInv(pages', live', owner', ps, p)
    {
      assert PageInv(pages, live, owner, ps, p);
      if p in Run(pages, h) {
        var k := Place(Run(pages, h), p);
        assert MemberInv(pages, owner, ps, h, k, p);
      } else if p in owner {
        OtherRun(pages, live, owner, ps, h, owner[p].0);
        assert owner[p].0 != h;
      }
    }
    forall g | g in live'
      ensures g < |pages'| && HeadInv(pages', owner', ps, g)
    {
      OtherRun(pages, live, owner, ps, h, g);
      forall k | 0 <= k < |Run(pages', g)|
        ensures MemberInv(pages', owner', ps, g, k, Run(pages', g)[k])
      {
        var q := Run(pages, g)[k];
        assert MemberInv(pages, owner, ps, g, k, q);
        assert q !in Run(pages, h);
      }
    }
  }

  /** Another live allocation shares no page with h. */
  lemma OtherRun(pages: seq<Page>, live: seq<nat>, owner: Owners, ps: nat, h: nat, g: nat)
    requires Inv(pages, live, owner, ps) && h in live && g in live && g != h
    ensures forall k :: 0 <= k < |Run(pages, g)| ==> Run(pages, g)[k] !in Run(pages, h)
    ensures g !in Run(pages, h)
  {
    forall k | 0 <= k < |Run(pages, g)|
      ensures Run(pages, g)[k] !in Run(pages, h)
    {
      if Run(pages, g)[k] in Run(pages, h) {
        var j := Place(Run(pages, h), Run(pages, g)[k]);
        RunsDisjoint(pages, live, owner, ps, g, h, k, j);
      }
    }
    assert Run(pages, g)[0] == g;
  }

  ghost predicate Known(pages: seq<Page>, live: seq<nat>) {
    forall i :: 0 <= i < |live| ==> live[i] < |pages|
  }

  lemma LiveKnown(pages: seq<Page>, live: seq<nat>, owner: Owners, ps: nat)
    requires Inv(pages, live, owner, ps)
    ensures Known(pages, live)
  {
    forall i | 0 <= i < |live|
      ensures live[i] < |pages|
    {
      assert live[i] in live;
    }
  }

  /** IOVAs of the live allocations. */
  ghost function LiveIovas(pages: seq<Page>, live: seq<nat>): multiset<nat>
    requires Known(pages, live)
  {
    if live == [] then multiset{} else multiset{pages[live[0]].iova} + LiveIovas(pages, live[1..])
  }

  lemma {:induction false} LiveIovasSame(pages: seq<Page>, pages': seq<Page>, live: seq<nat>)
    requires |pages| <= |pages'| && Known(pages, live)
    requires forall i :: 0 <= i < |live| ==> pages'[live[i]].iova == pages[live[i]].iova
    ensures LiveIovas(pages', live) == LiveIovas(pages, live)
  {
    if live != [] {
      LiveIovasSame(pages, pages', live[1..]);
    }
  }

  lemma {:induction false} LiveIovasAppend(pages: seq<Page>, live: seq<nat>, h: nat)
    requires h < |pages| && Known(pages, live)
    ensures LiveIovas(pages, live + [h]) == LiveIovas(pages, live) + multiset{pages[h].iova}
  {
    if live == [] {
      assert live + [h] == [h];
      assert [h][1..] == [];
    } else {
      LiveIovasAppend(pages, live[1..], h);
      assert (live + [h])[1..] == live[1..] + [h];
    }
  }

  lemma {:induction false} LiveIovasRemoved(pages: seq<Page>, live: seq<nat>, h: nat)
    requires h in live && Distinct(live) && Known(pages, live)
    ensures Known(pages, Removed(live, h)) && h < |pages|
    ensures LiveIovas(pages, live) == LiveIovas(pages, Removed(live, h)) + multiset{pages[h].iova}
  {
    if live[0] != h {
      LiveIovasRemoved(pages, live[1..], h);
      LiveIovasCons(pages, live[0], Removed(live[1..], h));
    }
  }

  lemma LiveIovasCons(pages: seq<Page>, x: nat, rest: seq<nat>)
    requires x < |pages| && Known(pages, rest)
    ensures Known(pages, [x] + rest)
    ensures LiveIovas(pages, [x] + rest) == multiset{pages[x].iova} + LiveIovas(pages, rest)
  {
    assert ([x] + rest)[1..] == rest;
  }

  /** The pages while the first k pages of a group have been linked. */
  ghost predicate HalfLinked(before: seq<Page>, pages: seq<Page>, group: seq<nat>, k: nat)
    requires 0 < k <= |group|
  {
    && |pages| == |before|
    && (forall i :: 0 <= i < |group| ==> group[i] < |pages|)
    && (forall i :: 0 <= i < |pages| && i !in group ==> pages[i] == before[i])
    && pages[group[0]] == before[group[0]].(linked := group[1..k])
    && (forall j :: 1 <= j < k ==> pages[group[j]] == before[group[j]].(inUse := true))
    && (forall j :: k <= j < |group| ==> pages[group[j]] == before[group[j]])
  }

  lemma HalfLinkedStart(before: seq<Page>, group: seq<nat>)
    requires 0 < |group| && forall k :: 0 <= k < |group| ==> group[k] < |before| && before[group[k]].linked == []
    ensures HalfLinked(before, before, group, 1)
  {
  }

  lemma HalfLinkedStep(before: seq<Page>, pages: seq<Page>, group: seq<nat>, k: nat)
    requires 0 < k < |group| && Distinct(group) && HalfLinked(before, pages, group, k)
    ensures var mid := pages[group[k] := pages[group[k]].(inUse := true)];
            HalfLinked(before, mid[group[0] := mid[group[0]].(linked := mid[group[0]].linked + [group[k]])],
                       group, k + 1)
  {
    assert group[1..k + 1] == group[1..k] + [group[k]];
  }

  lemma HalfLinkedEnd(before: seq<Page>, pages: seq<Page>, group: seq<nat>, size: nat)
    requires 0 < |group| && Distinct(group) && HalfLinked(before, pages, group, |group|)
    ensures pages[group[0] := pages[group[0]].(size := size)] == LinkedUp(before, group, size)
  {
    var head := group[0];
    var after := pages[head := pages[head].(size := size)];
    forall i | 0 <= i < |pages|
      ensures after[i] == LinkedUp(before, group, size)[i]
    {
      if i in group {
        var j := Place(group, i);
      }
    }
  }

  /** Mapping the head completes the allocation. */
  lemma LinkedUpIsMarked(pages: seq<Page>, run: seq<nat>, size: nat, iova: nat)
    requires 0 < |run| && run[0] < |pages|
    ensures var up := Tracked(pages, run, size, iova);
            up[run[0] := up[run[0]].(mapped := true)] == Marked(pages, run, size, iova)
  {
  }

  /** Pages that are linked when no IOVA can be had: the members are in use, but belong to no
      live allocation, whoever the owners are taken to be. */
  lemma LinkedUpLeaks(pages: seq<Page>, live: seq<nat>, owner: Owners, ps: nat, run: seq<nat>, size: nat,
                      owner': Owners)
    requires Inv(pages, live, owner, ps) && Linkable(pages, owner, ps, run) && 1 < |run|
    ensures !Inv(LinkedUp(pages, run, size), live, owner', ps)
  {
    var pages', p := LinkedUp(pages, run, size), run[1];
    assert pages'[p].inUse;
    if PageInv(pages', live, owner', ps, p) {
      LinkedUpRuns(pages, live, owner, ps, run, size, owner'[p].0, owner'[p].1);
    }
  }

  /** A single page stays unused; it is as it was if it keeps its own size. */
  lemma LinkedUpOne(pages: seq<Page>, live: seq<nat>, owner: Owners, ps: nat, run: seq<nat>, size: nat, owner': Owners)
    requires Inv(pages, live, owner, ps) && Linkable(pages, owner, ps, run) && |run| == 1
    ensures size == ps ==> LinkedUp(pages, run, size) == pages
    ensures size != ps ==> !Inv(LinkedUp(pages, run, size), live, owner', ps)
  {
    var p := run[0];
    assert PageInv(pages, live, owner, ps, p);
    assert run[1..] == [];
    if size != ps {
      assert !PageInv(LinkedUp(pages, run, size), live, owner', ps, p);
    }
  }

  lemma LinkedUpRuns(pages: seq<Page>, live: seq<nat>, owner: Owners, ps: nat, run: seq<nat>, size: nat, h: nat, k: nat)
    requires Inv(pages, live, owner, ps) && Linkable(pages, owner, ps, run) && h in live
    ensures h < |pages| && Run(LinkedUp(pages, run, size), h) == Run(pages, h)
    ensures k < |Run(pages, h)| ==> Run(pages, h)[k] !in run
  {
    OwnerKept(pages, live, owner, ps, run, h);
    if k < |Run(pages, h)| {
      assert MemberInv(pages, owner, ps, h, k, Run(pages, h)[k]);
    }
  }

  /** The pages while the first k links were released. */
  ghost predicate HalfReleased(before: seq<Page>, pages: seq<Page>, links: seq<nat>, k: nat, ps: nat)
    requires k <= |links|
  {
    && |pages| == |before|
    && (forall i :: 0 <= i < |links| ==> links[i] < |pages|)
    && (forall i :: 0 <= i < |pages| && i !in links ==> pages[i] == before[i])
    && (forall j :: 0 <= j < k ==> pages[links[j]] == before[links[j]].(inUse := false, size := ps))
    && (forall j :: k <= j < |links| ==> pages[links[j]] == before[links[j]])
  }

  lemma HalfReleasedStep(before: seq<Page>, pages: seq<Page>, links: seq<nat>, k: nat, ps: nat)
    requires k < |links| && Distinct(links) && HalfReleased(before, pages, links, k, ps)
    ensures HalfReleased(before, pages[links[k] := pages[links[k]].(inUse := false, size := ps)], links, k + 1, ps)
  {
  }

  lemma HalfReleasedEnd(before: seq<Page>, pages: seq<Page>, links: seq<nat>, h: nat, ps: nat)
    requires h < |before| == |pages| && links == before[h].linked && h !in links
    requires pages[h] == before[h].(size := ps, inUse := false, mapped := false, linked := [])
    requires HalfReleased(before, pages[h := before[h]], links, |links|, ps)
    ensures pages == Released(before, h, ps)
  {
    var mid := pages[h := before[h]];
    forall i | 0 <= i < |pages|
      ensures pages[i] == Released(before, h, ps)[i]
    {
      if i in links {
        assert mid[links[Place(links, i)]] == before[i].(inUse := false, size := ps);
      }
    }
  }

  /** A live head and its links are in use, and listed once. */
  lemma HeadFacts(pages: seq<Page>, live: seq<nat>, owner: Owners, ps: nat, h: nat)
    requires Inv(pages, live, owner, ps) && h in live
    ensures h < |pages| && pages[h].inUse && pages[h].mapped && h !in pages[h].linked && Distinct(pages[h].linked)
    ensures forall k :: 0 <= k < |pages[h].linked| ==> pages[h].linked[k] < |pages| && pages[pages[h].linked[k]].inUse
  {
    var run: seq<nat> := Run(pages, h);
    forall k | 0 <= k < |run|
      ensures run[k] < |pages| && pages[run[k]].inUse && run[k] in owner && owner[run[k]] == (h, k)
    {
      assert MemberInv(pages, owner, ps, h, k, run[k]);
      assert PageInv(pages, live, owner, ps, run[k]);
    }
    var links := pages[h].linked;
    assert run[0] == h;
    assert forall k :: 0 <= k < |links| ==> links[k] == run[k + 1];
  }

  lemma MarkIovas(pages: seq<Page>, live: seq<nat>, owner: Owners, ps: nat, run: seq<nat>, size: nat, iova: nat)
    requires Inv(pages, live, owner, ps) && Linkable(pages, owner, ps, run)
    ensures var pages' := Marked(pages, run, size, iova);
            && Known(pages, live) && Known(pages', live + [run[0]])
            && LiveIovas(pages', live + [run[0]]) == LiveIovas(pages, live) + multiset{iova}
  {
    var pages' := Marked(pages, run, size, iova);
    LiveKnown(pages, live, owner, ps);
    forall i | 0 <= i < |live|
      ensures pages'[live[i]].iova == pages[live[i]].iova
    {
      assert live[i] in live;
      OwnerKept(pages, live, owner, ps, run, live[i]);
    }
    LiveIovasSame(pages, pages', live);
    LiveIovasAppend(pages', live, run[0]);
  }

  lemma MarkSpaced(pages: seq<Page>, run: seq<nat>, size: nat, iova: nat, ps: nat, supply: seq<nat>, huge: nat)
    requires 0 < |run| && Spaced(pages, ps, supply, huge)
    ensures Spaced(Marked(pages, run, size, iova), ps, supply, huge)
  {
    SameAddresses(pages, Marked(pages, run, size, iova), ps, supply, huge);
  }

  lemma ReleaseSpaced(pages: seq<Page>, h: nat, ps: nat, supply: seq<nat>, huge: nat)
    requires h < |pages| && Spaced(pages, ps, supply, huge)
    ensures Spaced(Released(pages, h, ps), ps, supply, huge)
  {
    SameAddresses(pages, Released(pages, h, ps), ps, supply, huge);
  }

  lemma SameAddresses(pages: seq<Page>, pages': seq<Page>, ps: nat, supply: seq<nat>, huge: nat)
    requires |pages'| == |pages| && Spaced(pages, ps, supply, huge)
    requires forall i :: 0 <= i < |pages| ==> pages'[i].vaddr == pages[i].vaddr
    ensures Spaced(pages', ps, supply, huge)
  {
  }

  lemma ReleaseIovas(pages: seq<Page>, live: seq<nat>, owner: Owners, ps: nat, h: nat)
    requires Inv(pages, live, owner, ps) && h in live
    ensures h < |pages|
    ensures var pages' := Released(pages, h, ps);
            && Known(pages, live) && Known(pages', Removed(live, h)) && pages'[h].iova == pages[h].iova
            && LiveIovas(pages', Removed(live, h)) + multiset{pages[h].iova} == LiveIovas(pages, live)
  {
    LiveKnown(pages, live, owner, ps);
    LiveIovasRemoved(pages, live, h);
    LiveIovasSame(pages, Released(pages, h, ps), Removed(live, h));
  }

  // ---- The free list ----------------------------------------------------------------

  /** `free_pages()`: the unused pages, in table order. */
  ghost predicate IsFreeList(pages: seq<Page>, free: seq<nat>) {
    && Sorted(free)
    && (forall k :: 0 <= k < |free| ==> free[k] < |pages| && !pages[free[k]].inUse)
    && (forall i :: 0 <= i < |pages| && !pages[i].inUse ==> i in free)
  }

  /** Free pages are listed once, belong to nobody, and have their own size and no links. */
  lemma FreeUnowned(pages: seq<Page>, live: seq<nat>, owner: Owners, ps: nat, free: seq<nat>)
    requires Inv(pages, live, owner, ps) && IsFreeList(pages, free)
    ensures Distinct(free)
    ensures forall k :: 0 <= k < |free| ==>
            free[k] !in owner && pages[free[k]].size == ps && pages[free[k]].linked == []
  {
    forall k | 0 <= k < |free|
      ensures free[k] !in owner && pages[free[k]].size == ps && pages[free[k]].linked == []
    {
      assert PageInv(pages, live, owner, ps, free[k]);
    }
  }

  lemma {:induction false} ElementCount(xs: seq<nat>)
    requires Distinct(xs)
    ensures |Elements(xs)| == |xs|
  {
    if xs != [] {
      ElementCount(xs[1..]);
      assert Elements(xs) == {xs[0]} + Elements(xs[1..]);
    }
  }

  function Below(n: nat): (r: set<nat>)
    ensures |r| == n && forall i: nat :: i in r <==> i < n
  {
    if n == 0 then {} else Below(n - 1) + {n - 1}
  }

  /** A page is free or owned, not both. */
  lemma FreeOrOwned(pages: seq<Page>, live: seq<nat>, owner: Owners, ps: nat, free: seq<nat>, i: nat)
    requires Inv(pages, live, owner, ps) && IsFreeList(pages, free)
    ensures i < |pages| <==> i in free || i in owner
    ensures i !in free || i !in owner
  {
    if i < |pages| {
      assert PageInv(pages, live, owner, ps, i);
    }
  }

  /** Free and used pages add up to the pages carved so far. */
  lemma PagesConserved(pages: seq<Page>, live: seq<nat>, owner: Owners, ps: nat, free: seq<nat>)
    requires Inv(pages, live, owner, ps) && IsFreeList(pages, free)
    ensures |free| + |owner| == |pages|
  {
    ElementCount(free);
    forall i: nat
      ensures i < |pages| <==> i in free || i in owner
      ensures i !in free || i !in owner
    {
      FreeOrOwned(pages, live, owner, ps, free, i);
    }
    SplitCount(|pages|, Elements(free), owner);
  }

  lemma SplitCount(n: nat, free: set<nat>, owner: Owners)
    requires forall i: nat :: i < n <==> i in free || i in owner
    requires forall i: nat :: i !in free || i !in owner
    ensures |free| + |owner| == n
  {
    assert Below(n) == free + owner.Keys && free !! owner.Keys;
    assert |owner| == |owner.Keys|;
  }

  /** In a sorted list, smaller elements come first. */
  lemma SortedOrder(xs: seq<nat>, i: nat, j: nat)
    requires Sorted(xs) && i < |xs| && j < |xs| && xs[i] < xs[j]
    ensures i < j
  {
  }

  /** Where an element of a list goes when a run is cut out. */
  lemma CutPlaces(free: seq<nat>, i: nat, n: nat, j: nat)
    requires Sorted(free) && i + n <= |free|
    ensures j in free && j !in free[i..i + n] ==> j in free[..i] + free[i + n..]
    ensures j in free[..i] + free[i + n..] ==> j in free && j !in free[i..i + n]
  {
    var run, rest := free[i..i + n], free[..i] + free[i + n..];
    if j in free && j !in run {
      var k :| 0 <= k < |free| && free[k] == j;
      forall l | i <= l < i + n
        ensures free[l] in run
      {
        assert run[l - i] == free[l];
      }
      assert k < i || i + n <= k;
      assert rest[if k < i then k else k - n] == j;
    }
  }

  /** Linking a run of the free list takes exactly that run out of it. */
  lemma MarkCutsFreeList(pages: seq<Page>, free: seq<nat>, i: nat, n: nat, size: nat, iova: nat)
    requires IsFreeList(pages, free) && 0 < n && i + n <= |free|
    ensures IsFreeList(Marked(pages, free[i..i + n], size, iova), free[..i] + free[i + n..])
  {
    var run, rest := free[i..i + n], free[..i] + free[i + n..];
    var pages' := Marked(pages, run, size, iova);
    assert forall k :: 0 <= k < |rest| ==> rest[k] == free[if k < i then k else k + n];
    forall k | 0 <= k < |rest|
      ensures rest[k] < |pages'| && !pages'[rest[k]].inUse
    {
      assert rest[k] in rest;
      CutPlaces(free, i, n, rest[k]);
    }
    forall j | 0 <= j < |pages'| && !pages'[j].inUse
      ensures j in rest
    {
      assert !pages[j].inUse && j !in run;
      CutPlaces(free, i, n, j);
    }
  }

  // ---- First fit --------------------------------------------------------------------

  /** n pages from index i of the free list are adjacent in memory. */
  predicate RunAt(pages: seq<Page>, free: seq<nat>, i: nat, n: nat)
    requires forall k :: 0 <= k < |free| ==> free[k] < |pages|
  {
    i + n <= |free| &&
    forall k :: i <= k < i + n - 1 ==> pages[free[k]].vaddr + pages[free[k]].size == pages[free[k + 1]].vaddr
  }

  /** i is the first index at which n pages of the free list are adjacent in memory. */
  ghost predicate FirstFit(pages: seq<Page>, free: seq<nat>, n: nat, i: nat)
    requires forall k :: 0 <= k < |free| ==> free[k] < |pages|
  {
    RunAt(pages, free, i, n) && forall j: nat :: j < i ==> !RunAt(pages, free, j, n)
  }

  ghost predicate NoFit(pages: seq<Page>, free: seq<nat>, n: nat)
    requires forall k :: 0 <= k < |free| ==> free[k] < |pages|
  {
    forall j: nat :: !RunAt(pages, free, j, n)
  }

  lemma {:induction false} Contiguous(pages: seq<Page>, free: seq<nat>, ps: nat, i: nat, n: nat, k: nat)
    requires forall k :: 0 <= k < |free| ==> free[k] < |pages| && pages[free[k]].size == ps
    requires RunAt(pages, free, i, n) && k < n
    ensures pages[free[i + k]].vaddr == pages[free[i]].vaddr + k * ps
  {
    if k > 0 {
      Contiguous(pages, free, ps, i, n, k - 1);
      assert k * ps == (k - 1) * ps + ps;
      var j := i + k - 1;
      assert pages[free[j]].vaddr + pages[free[j]].size == pages[free[j + 1]].vaddr;
    }
  }

  /** A fitting run of free pages can be linked. */
  lemma FitIsLinkable(pages: seq<Page>, live: seq<nat>, owner: Owners, ps: nat, free: seq<nat>, i: nat, n: nat)
    requires Inv(pages, live, owner, ps) && IsFreeList(pages, free) && 0 < n && RunAt(pages, free, i, n)
    ensures Linkable(pages, owner, ps, free[i..i + n])
  {
    FreeUnowned(pages, live, owner, ps, free);
    var run := free[i..i + n];
    forall k | 0 <= k < n
      ensures pages[run[k]].vaddr == pages[run[0]].vaddr + k * ps
    {
      Contiguous(pages, free, ps, i, n, k);
    }
  }

  // ---- Carving hugepages ------------------------------------------------------------

  /** The pages of one hugepage at v. */
  function Carved(v: nat, n: nat, ps: nat): (r: seq<Page>)
    ensures |r| == n
  {
    seq(n, i requires 0 <= i => NewPage(v + i * ps, ps))
  }

  /** The pages of several hugepages, in order. */
  function AllCarved(regions: seq<nat>, n: nat, ps: nat): seq<Page> {
    if regions == [] then []
    else AllCarved(regions[..|regions| - 1], n, ps) + Carved(regions[|regions| - 1], n, ps)
  }

  lemma AllCarvedStep(regions: seq<nat>, i: nat, n: nat, ps: nat)
    requires i < |regions|
    ensures AllCarved(regions[..i + 1], n, ps) == AllCarved(regions[..i], n, ps) + Carved(regions[i], n, ps)
  {
    assert regions[..i + 1][..i] == regions[..i];
  }

  lemma OneCarved(regions: seq<nat>, n: nat, ps: nat)
    ensures regions != [] ==> AllCarved(regions[..1], n, ps) == Carved(regions[0], n, ps)
    ensures AllCarved(regions[..0], n, ps) == []
  {
    if regions != [] {
      AllCarvedStep(regions, 0, n, ps);
    }
  }

  /** The last of several hugepages, whose pages come last. */
  lemma LastCarved(regions: seq<nat>, num: nat, n: nat, ps: nat) returns (region: nat)
    requires num <= |regions|
    ensures 0 < num ==>
              var all := AllCarved(regions[..num], n, ps); n <= |all| && all[|all| - n..] == Carved(region, n, ps)
  {
    region := 0;
    if 0 < num {
      region := regions[num - 1];
      AllCarvedStep(regions, num - 1, n, ps);
    }
  }

  lemma {:induction false} AllCarvedNew(regions: seq<nat>, n: nat, ps: nat)
    ensures forall p :: p in AllCarved(regions, n, ps) ==> p == NewPage(p.vaddr, ps)
  {
    if regions != [] {
      AllCarvedNew(regions[..|regions| - 1], n, ps);
    }
  }

  lemma InOrder(i: nat, j: nat, size: nat)
    requires i < j
    ensures i * size + size <= j * size
  {
    Ring.MulMono(i + 1, j, size);
  }

  /** Pages carved from a clear region keep everything spaced. */
  lemma CarvedFits(pages: seq<Page>, v: nat, n: nat, ps: nat, supply: seq<nat>, huge: nat)
    requires 0 < ps && n == huge / ps && Spaced(pages, ps, supply, huge)
    requires forall i :: 0 <= i < |pages| ==> Clear(pages[i].vaddr, ps, v, huge)
    requires forall j :: 0 <= j < |supply| ==> Clear(v, huge, supply[j], huge)
    ensures Spaced(pages + Carved(v, n, ps), ps, supply, huge)
  {
    var more := Carved(v, n, ps);
    assert huge == n * ps + huge % ps;
    forall i | 0 <= i < n
      ensures v <= more[i].vaddr && more[i].vaddr + ps <= v + huge
    {
      InOrder(i, n, ps);
    }
    forall i, j | 0 <= i < j < n
      ensures more[i].vaddr + ps <= more[j].vaddr
    {
      InOrder(i, j, ps);
    }
  }

  /** New, unused pages keep the invariant. */
  lemma GrowKeeps(pages: seq<Page>, more: seq<Page>, live: seq<nat>, owner: Owners, ps: nat)
    requires Inv(pages, live, owner, ps)
    requires forall i :: 0 <= i < |more| ==> !more[i].inUse && more[i].size == ps && more[i].linked == []
    ensures Inv(pages + more, live, owner, ps) && Known(pages, live)
    ensures LiveIovas(pages + more, live) == LiveIovas(pages, live)
  {
    var all := pages + more;
    forall p | 0 <= p < |all|
      ensures PageInv(all, live, owner, ps, p)
    {
      if p < |pages| {
        assert PageInv(pages, live, owner, ps, p);
        if p in owner {
          assert all[owner[p].0] == pages[owner[p].0];
        }
      }
    }
    forall h | h in live
      ensures h < |all| && HeadInv(all, owner, ps, h)
    {
      assert Run(all, h) == Run(pages, h);
      forall k | 0 <= k < |Run(all, h)|
        ensures MemberInv(all, owner, ps, h, k, Run(all, h)[k])
      {
        assert MemberInv(pages, owner, ps, h, k, Run(pages, h)[k]);
      }
    }
    LiveKnown(pages, live, owner, ps);
    LiveIovasSame(pages, all, live);
  }

  // ---- A fresh hugepage at the end of the table -------------------------------------

  /** A table that ends in a freshly carved hugepage has a run of any size up to it. */
  lemma CarvedHasRun(pages: seq<Page>, v: nat, n: nat, ps: nat, need: nat, free: seq<nat>)
    requires n <= |pages| && pages[|pages| - n..] == Carved(v, n, ps) && 0 < need <= n
    requires IsFreeList(pages, free)
    ensures !NoFit(pages, free, need)
  {
    var base := |pages| - n;
    forall k | base <= k < |pages|
      ensures !pages[k].inUse
    {
      CarvedAt(pages, v, n, ps, k - base);
    }
    var f := TailOfFree(pages, free, base);
    forall k | f <= k < f + need - 1
      ensures pages[free[k]].vaddr + pages[free[k]].size == pages[free[k + 1]].vaddr
    {
      var j := k - f;
      assert free[k] == base + j && free[k + 1] == base + (j + 1);
      CarvedAdjacent(pages, v, n, ps, j);
    }
    assert RunAt(pages, free, f, need);
  }

  lemma CarvedAt(pages: seq<Page>, v: nat, n: nat, ps: nat, k: nat)
    requires n <= |pages| && pages[|pages| - n..] == Carved(v, n, ps) && k < n
    ensures pages[|pages| - n + k] == NewPage(v + k * ps, ps)
  {
    assert pages[|pages| - n..][k] == Carved(v, n, ps)[k];
  }

  lemma CarvedAdjacent(pages: seq<Page>, v: nat, n: nat, ps: nat, j: nat)
    requires n <= |pages| && pages[|pages| - n..] == Carved(v, n, ps) && j + 1 < n
    ensures var base := |pages| - n; pages[base + j].vaddr + pages[base + j].size == pages[base + j + 1].vaddr
  {
    CarvedAt(pages, v, n, ps, j);
    CarvedAt(pages, v, n, ps, j + 1);
  }

  /** When the table ends in unused pages from base on, the free list ends in them too. */
  lemma TailOfFree(pages: seq<Page>, free: seq<nat>, base: nat) returns (f: nat)
    requires IsFreeList(pages, free) && base < |pages|
    requires forall k :: base <= k < |pages| ==> !pages[k].inUse
    ensures f + (|pages| - base) <= |free|
    ensures forall k :: f <= k < f + (|pages| - base) ==> free[k] == base + (k - f)
  {
    assert !pages[base].inUse;
    f :| 0 <= f < |free| && free[f] == base;
    var k := 0;
    while k < |pages| - base - 1
      invariant 0 <= k < |pages| - base && f + k < |free|
      invariant forall j :: f <= j <= f + k ==> free[j] == base + (j - f)
    {
      assert !pages[base + k + 1].inUse;
      var g :| 0 <= g < |free| && free[g] == base + k + 1;
      assert free[f + k] == base + k;
      SortedOrder(free, f + k, g);
      assert free[f + k] < free[f + k + 1] <= free[g];
      k := k + 1;
    }
  }

  // ---- Bytes ------------------------------------------------------------------------

  /** The allocation h heads is no longer than its pages. */
  ghost predicate FitsRun(pages: seq<Page>, h: nat, ps: nat) {
    h < |pages| && pages[h].size <= |Run(pages, h)| * ps
  }

  /** Nor is any other live one. */
  ghost predicate Fitting(pages: seq<Page>, live: seq<nat>, ps: nat) {
    forall h :: h in live ==> FitsRun(pages, h, ps)
  }

  /** When a size fits the pages it is given: exactly when it is a whole number of pages or
      less than one. */
  lemma FitsExactly(size: nat, ps: nat)
    requires 0 < ps
    ensures size <= (if size / ps < 1 then 1 else size / ps) * ps <==> size % ps == 0 || size < ps
  {
    assert size == size / ps * ps + size % ps;
    if size / ps < 1 {
      Ring.DivModUnique(size, ps, 0, size % ps);
    }
  }

  lemma SameFit(pages: seq<Page>, pages': seq<Page>, h: nat, ps: nat)
    requires h < |pages| == |pages'| && pages'[h] == pages[h]
    ensures FitsRun(pages', h, ps) <==> FitsRun(pages, h, ps)
  {
  }

  /** An allocation that fits its pages keeps the rest so, and one that does not breaks it. */
  lemma MarkFits(pages: seq<Page>, live: seq<nat>, owner: Owners, ps: nat, run: seq<nat>, size: nat, iova: nat)
    requires Inv(pages, live, owner, ps) && Linkable(pages, owner, ps, run) && Fitting(pages, live, ps)
    ensures Fitting(Marked(pages, run, size, iova), live + [run[0]], ps) <==> size <= |run| * ps
  {
    var pages', live' := Marked(pages, run, size, iova), live + [run[0]];
    assert run[0] in live' && Run(pages', run[0]) == run;
    assert FitsRun(pages', run[0], ps) <==> size <= |run| * ps;
    forall h | h in live
      ensures FitsRun(pages', h, ps)
    {
      OwnerKept(pages, live, owner, ps, run, h);
      SameFit(pages, pages', h, ps);
    }
  }

  lemma ReleaseFits(pages: seq<Page>, live: seq<nat>, owner: Owners, ps: nat, h: nat)
    requires Inv(pages, live, owner, ps) && h in live && Fitting(pages, live, ps)
    ensures h < |pages| && Fitting(Released(pages, h, ps), Removed(live, h), ps)
  {
    RemovedIs(live, h);
    assert h < |pages|;
    forall g | g in Removed(live, h)
      ensures FitsRun(Released(pages, h, ps), g, ps)
    {
      ReleaseOther(pages, live, owner, ps, g, h);
      SameFit(pages, Released(pages, h, ps), g, ps);
    }
  }

  lemma ReleaseOther(pages: seq<Page>, live: seq<nat>, owner: Owners, ps: nat, g: nat, h: nat)
    requires Inv(pages, live, owner, ps) && g in live && h in live && g != h
    ensures g < |pages| && h < |pages| && Released(pages, h, ps)[g] == pages[g]
  {
    NotInRun(pages, live, owner, ps, g, h);
  }

  lemma NotInRun(pages: seq<Page>, live: seq<nat>, owner: Owners, ps: nat, g: nat, h: nat)
    requires Inv(pages, live, owner, ps) && g in live && h in live && g != h
    ensures g < |pages| && h < |pages| && g !in pages[h].linked
  {
    if g in pages[h].linked {
      var k :| 0 <= k < |pages[h].linked| && pages[h].linked[k] == g;
      RunsDisjoint(pages, live, owner, ps, g, h, 0, k + 1);
    }
  }

  /** Where the i-th page of a live allocation is. */
  lemma RunPage(pages: seq<Page>, live: seq<nat>, owner: Owners, ps: nat, h: nat, i: nat)
    requires Inv(pages, live, owner, ps) && h in live && h < |pages| && i < |Run(pages, h)|
    ensures Run(pages, h)[i] < |pages| && pages[Run(pages, h)[i]].vaddr == pages[h].vaddr + i * ps
  {
    assert MemberInv(pages, owner, ps, h, i, Run(pages, h)[i]);
  }

  /** The first byte of h is not in the run of g. */
  lemma HeadOutside(pages: seq<Page>, live: seq<nat>, owner: Owners, ps: nat, supply: seq<nat>, huge: nat, g: nat,
                    h: nat)
    requires 0 < ps && Inv(pages, live, owner, ps) && Spaced(pages, ps, supply, huge) && g in live && h in live
             && g != h
    requires g < |pages| && h < |pages| && pages[g].vaddr <= pages[h].vaddr
    ensures pages[g].vaddr + |Run(pages, g)| * ps <= pages[h].vaddr
  {
    var d, n := pages[h].vaddr - pages[g].vaddr, |Run(pages, g)|;
    if d < n * ps {
      var i := d / ps;
      assert d == i * ps + d % ps;
      Ring.MulLess(i, n, ps, d);
      var p := Run(pages, g)[i];
      RunPage(pages, live, owner, ps, g, i);
      if p == h {
        RunsDisjoint(pages, live, owner, ps, g, h, i, 0);
      }
    }
  }

  /** Live allocations that fit their pages do not share a byte. */
  lemma BytesDisjoint(pages: seq<Page>, live: seq<nat>, owner: Owners, ps: nat, supply: seq<nat>, huge: nat, g: nat,
                      h: nat)
    requires 0 < ps && Inv(pages, live, owner, ps) && Spaced(pages, ps, supply, huge)
    requires Fitting(pages, live, ps) && g in live && h in live && g != h
    ensures g < |pages| && h < |pages|
    ensures Clear(pages[g].vaddr, pages[g].size, pages[h].vaddr, pages[h].size)
  {
    assert FitsRun(pages, g, ps) && FitsRun(pages, h, ps);
    if pages[g].vaddr <= pages[h].vaddr {
      HeadOutside(pages, live, owner, ps, supply, huge, g, h);
    } else {
      HeadOutside(pages, live, owner, ps, supply, huge, h, g);
    }
  }
}
