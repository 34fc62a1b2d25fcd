/** `PRP`: a data buffer scattered over pages, described by two addresses and possibly one
    list page (section 4.3 of the NVM Express Base Specification revision 1.4). */
module Prp {
  import opened Options
  import opened Ring
  import opened Bytes

  /** `MemoryLocation`, as far as PRPs use it. */
  datatype Loc = Loc(vaddr: nat, iova: nat, size: nat)

  function Ceil(a: nat, b: nat): nat
    requires 0 < b
  {
    (a + b - 1) / b
  }

  /** The least number of b's that a fits into. */
  lemma CeilIs(a: nat, b: nat)
    requires 0 < b
    ensures (Ceil(a, b) - 1) * b < a + b - b <= Ceil(a, b) * b || a == 0 == Ceil(a, b)
  {
    assert a + b - 1 == Ceil(a, b) * b + (a + b - 1) % b;
    if a == 0 {
      DivModUnique(b - 1, b, 0, b - 1);
    }
  }

  // ---- Finding the data pages -------------------------------------------------------

  /** The pages of mem at DMA address d, in order. */
  function FindAll(mem: seq<Loc>, d: nat): seq<Loc> {
    if mem == [] then []
    else (if mem[0].iova == d then [mem[0]] else []) + FindAll(mem[1..], d)
  }

  /** The inner loop of `get_data_segments`; None is its assertion. */
  function ListSegments(words: seq<nat>, mem: seq<Loc>): Option<seq<Loc>> {
    if words == [] then Some([])
    else if words[0] == 0 then ListSegments(words[1..], mem)
    else if |FindAll(mem, words[0])| != 1 then None
    else
      var rest := ListSegments(words[1..], mem);
      if rest.None? then None else Some([FindAll(mem, words[0])[0]] + rest.value)
  }

  /** What one page of mem_list contributes. */
  function PageSegments(ram: seq<byte>, mps: nat, prp1: nat, prp2: nat, mem: seq<Loc>, page: Loc): Option<seq<Loc>>
    requires page.vaddr + mps <= |ram|
  {
    var direct := if prp1 == page.iova then [page] else [];
    if prp2 != page.iova then Some(direct)
    else
      var list := ListSegments(Words(ram, page.vaddr, mps), mem);
      if list.None? then None else Some(direct + list.value)
  }

  predicate InRam(ram: seq<byte>, mps: nat, pages: seq<Loc>) {
    forall i :: 0 <= i < |pages| ==> pages[i].vaddr + mps <= |ram|
  }

  /** `get_data_segments` over the pages still to look at. */
  function Segments(ram: seq<byte>, mps: nat, prp1: nat, prp2: nat, mem: seq<Loc>, pages: seq<Loc>): Option<seq<Loc>>
    requires InRam(ram, mps, pages)
  {
    if pages == [] then Some([])
    else
      var first := PageSegments(ram, mps, prp1, prp2, mem, pages[0]);
      if first.None? then None
      else
        var rest := Segments(ram, mps, prp1, prp2, mem, pages[1..]);
        if rest.None? then None else Some(first.value + rest.value)
  }

  function NonZero(words: seq<nat>): seq<nat> {
    if words == [] then []
    else (if words[0] != 0 then [words[0]] else []) + NonZero(words[1..])
  }

  /** d is the address of exactly one page of mem, mem[k]. */
  ghost predicate OnlyAt(mem: seq<Loc>, d: nat, k: nat) {
    k < |mem| && mem[k].iova == d && forall i :: 0 <= i < |mem| && i != k ==> mem[i].iova != d
  }

  lemma {:induction false} FindAllNone(mem: seq<Loc>, d: nat)
    requires forall i :: 0 <= i < |mem| ==> mem[i].iova != d
    ensures FindAll(mem, d) == []
  {
    if mem != [] {
      FindAllNone(mem[1..], d);
    }
  }

  lemma {:induction false} FindAllOnly(mem: seq<Loc>, d: nat, k: nat)
    requires OnlyAt(mem, d, k)
    ensures FindAll(mem, d) == [mem[k]]
  {
    if k == 0 {
      FindAllNone(mem[1..], d);
    } else {
      FindAllOnly(mem[1..], d, k - 1);
    }
  }

  lemma {:induction false} FindAllHas(mem: seq<Loc>, d: nat)
    ensures forall i :: 0 <= i < |FindAll(mem, d)| ==> FindAll(mem, d)[i].iova == d && FindAll(mem, d)[i] in mem
  {
    if mem != [] {
      FindAllHas(mem[1..], d);
    }
  }

  function Iovas(pages: seq<Loc>): (r: seq<nat>)
    ensures |r| == |pages|
  {
    seq(|pages|, i requires 0 <= i < |pages| => pages[i].iova)
  }

  /** A list whose nonzero words are the addresses of `pages`, each known to mem once,
      yields exactly those pages in order. */
  lemma {:induction false} ListYields(words: seq<nat>, mem: seq<Loc>, pages: seq<Loc>, at: seq<nat>)
    requires NonZero(words) == Iovas(pages) && |at| == |pages|
    requires forall i :: 0 <= i < |pages| ==> OnlyAt(mem, pages[i].iova, at[i]) && mem[at[i]] == pages[i]
    ensures ListSegments(words, mem) == Some(pages)
  {
    if words != [] {
      if words[0] == 0 {
        ListYields(words[1..], mem, pages, at);
      } else {
        assert Iovas(pages)[1..] == NonZero(words[1..]);
        assert Iovas(pages[1..]) == Iovas(pages)[1..];
        ListYields(words[1..], mem, pages[1..], at[1..]);
        assert words[0] == Iovas(pages)[0];
        FindAllOnly(mem, words[0], at[0]);
        assert pages == [pages[0]] + pages[1..];
      }
    }
  }

  lemma IovasCons(page: Loc, rest: seq<Loc>)
    ensures Iovas([page] + rest) == [page.iova] + Iovas(rest)
  {
  }

  /** Conversely the addresses of what a list yields are its nonzero words. */
  lemma {:induction false} ListYieldsBack(words: seq<nat>, mem: seq<Loc>)
    requires ListSegments(words, mem).Some?
    ensures Iovas(ListSegments(words, mem).value) == NonZero(words)
  {
    if words != [] {
      ListYieldsBack(words[1..], mem);
      if words[0] != 0 {
        FindAllHas(mem, words[0]);
        IovasCons(FindAll(mem, words[0])[0], ListSegments(words[1..], mem).value);
      }
    }
  }

  lemma {:induction false} SegmentsSkip(ram: seq<byte>, mps: nat, prp1: nat, prp2: nat, mem: seq<Loc>, pages: seq<Loc>)
    requires InRam(ram, mps, pages)
    requires forall i :: 0 <= i < |pages| ==> pages[i].iova != prp1 && pages[i].iova != prp2
    ensures Segments(ram, mps, prp1, prp2, mem, pages) == Some([])
  {
    if pages != [] {
      SegmentsSkip(ram, mps, prp1, prp2, mem, pages[1..]);
      var none: seq<Loc> := [];
      assert none + none == none;
    }
  }

  // ---- The layout -------------------------------------------------------------------

  /** Addresses are nonzero where the layout needs them and single out one page of mem. */
  ghost predicate Addressed(mps: nat, prp1: nat, prp2: nat, mem: seq<Loc>, data: seq<Loc>) {
    && 0 < |data| && 0 < |mem| && mem[0] == data[0] && prp1 == mem[0].iova != 0
    && OnlyAt(mem, prp1, 0)
    && (if |data| == 1 then |mem| == 1 && prp2 == 0
        else
          && |data| + 1 <= |mem|
          && prp2 == mem[1].iova != 0 && OnlyAt(mem, prp2, 1)
          && forall i :: 1 <= i < |data| ==>
               mem[i + 1] == data[i] && data[i].iova != 0 && OnlyAt(mem, data[i].iova, i + 1))
  }

  /** With PRP1 and a list page, the data pages are found if and only if the nonzero words
      of the whole list page are their addresses: stale words behind the entries break it. */
  lemma ListLayoutExact(ram: seq<byte>, mps: nat, prp1: nat, prp2: nat, mem: seq<Loc>, data: seq<Loc>)
    requires InRam(ram, mps, mem) && Addressed(mps, prp1, prp2, mem, data) && 1 < |data|
    ensures Segments(ram, mps, prp1, prp2, mem, mem) == Some(data)
            <==> NonZero(Words(ram, mem[1].vaddr, mps)) == Iovas(data[1..])
  {
    var words := Words(ram, mem[1].vaddr, mps);
    assert mem[1..][1..] == mem[2..];
    SegmentsSkip(ram, mps, prp1, prp2, mem, mem[2..]);
    var list := ListSegments(words, mem);
    assert PageSegments(ram, mps, prp1, prp2, mem, mem[0]) == Some([mem[0]]);
    assert Segments(ram, mps, prp1, prp2, mem, mem[1..]) == list by {
      if list.Some? {
        assert [] + list.value + [] == list.value;
      }
    }
    if list.Some? {
      assert ([mem[0]] + list.value)[1..] == list.value;
      ListYieldsBack(words, mem);
    }
    if NonZero(words) == Iovas(data[1..]) {
      ListYields(words, mem, data[1..], seq(|data| - 1, i requires 0 <= i => i + 2));
      assert data == [data[0]] + data[1..];
    }
  }

  lemma SingleLayout(ram: seq<byte>, mps: nat, prp1: nat, prp2: nat, mem: seq<Loc>, data: seq<Loc>)
    requires InRam(ram, mps, mem) && Addressed(mps, prp1, prp2, mem, data) && |data| == 1
    ensures Segments(ram, mps, prp1, prp2, mem, mem) == Some(data)
  {
    assert mem[1..] == [];
    assert [mem[0]] + [] == data;
  }

  /** Two pages are laid out as PRP1 and PRP2 without a list, but PRP2 is still read as a
      list: the pages are found if and only if the second page holds, apart from zero words,
      just its own address. */
  lemma TwoPagesExact(ram: seq<byte>, mps: nat, mem: seq<Loc>)
    requires |mem| == 2 && InRam(ram, mps, mem) && mem[0].iova != mem[1].iova
    requires mem[0].iova != 0 && mem[1].iova != 0
    ensures var s := Segments(ram, mps, mem[0].iova, mem[1].iova, mem, mem);
            && (s == Some(mem) <==> NonZero(Words(ram, mem[1].vaddr, mps)) == [mem[1].iova])
            && (NonZero(Words(ram, mem[1].vaddr, mps)) == [] ==> s == Some([mem[0]]))
  {
    var words := Words(ram, mem[1].vaddr, mps);
    var list := ListSegments(words, mem);
    assert mem[1..][1..] == [];
    var none: seq<Loc> := [];
    assert Segments(ram, mps, mem[0].iova, mem[1].iova, mem, mem[1..]) == list by {
      if list.Some? {
        assert none + list.value + none == list.value;
      }
    }
    assert mem == [mem[0]] + [mem[1]] && [mem[0]] + none == [mem[0]];
    assert PageSegments(ram, mps, mem[0].iova, mem[1].iova, mem, mem[0]) == Some([mem[0]]);
    if list.Some? {
      assert ([mem[0]] + list.value)[1..] == list.value;
      ListYieldsBack(words, mem);
    }
    if NonZero(words) == [mem[1].iova] {
      ListYields(words, mem, [mem[1]], [1]);
    }
    if NonZero(words) == [] {
      ListYields(words, mem, [], []);
    }
  }

  lemma {:induction false} NonZeroFront(words: seq<nat>, k: nat)
    requires k <= |words|
    requires forall i :: 0 <= i < |words| ==> (words[i] != 0 <==> i < k)
    ensures NonZero(words) == words[..k]
  {
    if words != [] {
      NonZeroFront(words[1..], if k == 0 then 0 else k - 1);
      if k > 0 {
        assert words[..k] == [words[0]] + words[1..][..k - 1];
      }
    }
  }

  // ---- Reading and writing the buffer -----------------------------------------------

  /** The pages' contents one after the other: `get_data_buffer`. */
  function Buffer(ram: seq<byte>, mps: nat, segments: seq<Loc>): (b: seq<byte>)
    requires InRam(ram, mps, segments)
    ensures |b| == |segments| * mps
  {
    if segments == [] then []
    else
      var last := segments[|segments| - 1];
      Buffer(ram, mps, segments[..|segments| - 1]) + ram[last.vaddr..last.vaddr + mps]
  }

  lemma BufferParts(ram: seq<byte>, mps: nat, segments: seq<Loc>, j: nat)
    requires InRam(ram, mps, segments) && segments != [] && j < mps
    ensures var front, v := Buffer(ram, mps, segments[..|segments| - 1]), segments[|segments| - 1].vaddr;
            && front <= Buffer(ram, mps, segments)
            && |front| + j < |Buffer(ram, mps, segments)|
            && Buffer(ram, mps, segments)[|front| + j] == ram[v + j]
  {
    var front, v := Buffer(ram, mps, segments[..|segments| - 1]), segments[|segments| - 1].vaddr;
    Appended(front, ram[v..v + mps], Buffer(ram, mps, segments), j);
  }

  lemma Appended(front: seq<byte>, page: seq<byte>, whole: seq<byte>, j: nat)
    requires whole == front + page && j < |page|
    ensures front <= whole && |front| + j < |whole| && whole[|front| + j] == page[j]
  {
  }

  /** Byte j of page n, at place k of a buffer. */
  lemma {:induction false} BufferAt(ram: seq<byte>, mps: nat, segments: seq<Loc>, n: nat, j: nat, k: nat)
    requires InRam(ram, mps, segments) && n < |segments| && j < mps && k == n * mps + j
    ensures k < |Buffer(ram, mps, segments)| && Buffer(ram, mps, segments)[k] == ram[segments[n].vaddr + j]
  {
    var last := |segments| - 1;
    var front := Buffer(ram, mps, segments[..last]);
    BufferParts(ram, mps, segments, j);
    if n < last {
      BufferAt(ram, mps, segments[..last], n, j, k);
      assert front <= Buffer(ram, mps, segments) && k < |front|;
    } else {
      assert k == |front| + j;
    }
  }

  /** No two of the pages overlap. */
  ghost predicate Disjoint(mps: nat, pages: seq<Loc>) {
    forall i, j :: 0 <= i < j < |pages| ==>
      pages[i].vaddr + mps <= pages[j].vaddr || pages[j].vaddr + mps <= pages[i].vaddr
  }

  ghost predicate Outside(mps: nat, pages: seq<Loc>, k: int) {
    forall i :: 0 <= i < |pages| ==> !(pages[i].vaddr <= k < pages[i].vaddr + mps)
  }

  /** What `set_data_buffer` does to one page, at byte i of the buffer; None is the
      exception Python raises when the two slices differ in length. */
  function Filled(page: seq<byte>, data: seq<byte>, i: nat): Option<seq<byte>> {
    var mps := |page|;
    var dataLen := if i + mps > |data| then |data| - i else i + mps;
    var target := Clamp(mps, dataLen);
    var source := Slice(data, i, dataLen);
    if |source| != target then None else Some(source + page[target..])
  }

  /** The write succeeds on a page the data covers, on the first page, and on pages that
      start exactly at the end of the data or at least a page behind it. When it does, the
      page gets the part of the data that falls on it. */
  lemma FilledExact(page: seq<byte>, data: seq<byte>, i: nat)
    requires i == 0 || |page| <= i
    ensures Filled(page, data, i).Some? <==>
              i + |page| <= |data| || i == 0 || i == |data| || |data| + |page| <= i
    ensures Filled(page, data, i).Some? ==>
              Filled(page, data, i).value == Over(if i < |data| then data[i..] else [], page)
  {
  }
}
