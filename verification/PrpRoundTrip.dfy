/** Host and device find the same pages behind a PRP, and data survives the trip. */
module PrpRoundTrip {
  import opened Options
  import opened Ring
  import opened Bytes
  import opened Prp
  import opened PrpBuffer

  /** A PRP as `alloc` leaves it, over distinct nonzero addresses and a zeroed list page. */
  ghost predicate Laid(ram: seq<byte>, mps: nat, mem: seq<Loc>) {
    && 16 <= mps && 0 < |mem| && |mem| - 2 <= mps / 8
    && InRam(ram, mps, mem) && Disjoint(mps, mem)
    && (forall i :: 0 <= i < |mem| ==> mem[i].size == mps && mem[i].iova != 0)
    && (forall i, j :: 0 <= i < j < |mem| ==> mem[i].iova != mem[j].iova)
    && (|mem| > 2 ==> ListHolds(ram, mps, mem))
  }

  /** The list page holds the addresses of the pages behind it, then zeros. */
  ghost predicate ListHolds(ram: seq<byte>, mps: nat, mem: seq<Loc>)
    requires 2 < |mem| && |mem| - 2 <= mps / 8 && InRam(ram, mps, mem)
  {
    var words := Words(ram, mem[1].vaddr, mps);
    forall i :: 0 <= i < |words| ==> words[i] == if i < |mem| - 2 then mem[i + 2].iova else 0
  }

  function SecondAddress(mem: seq<Loc>): nat {
    if |mem| <= 1 then 0 else mem[1].iova
  }

  /** `alloc` on pages whose list page was zero lays a PRP out. */
  lemma AllocLays(ram: seq<byte>, ram': seq<byte>, mps: nat, mem: seq<Loc>)
    requires 16 <= mps && 0 < |mem| && |mem| - 2 <= mps / 8 && |ram'| == |ram|
    requires InRam(ram, mps, mem) && Disjoint(mps, mem)
    requires forall i :: 0 <= i < |mem| ==> mem[i].size == mps && mem[i].iova != 0
    requires forall i, j :: 0 <= i < j < |mem| ==> mem[i].iova != mem[j].iova
    requires |mem| > 2 ==>
               var list := mem[1].vaddr;
               && (forall k :: list <= k < list + mps ==> ram[k] == 0)
               && ListWritten(ram, ram', list, mem[2..])
    ensures Laid(ram', mps, mem)
  {
    if |mem| > 2 {
      var list, words := mem[1].vaddr, Words(ram', mem[1].vaddr, mps);
      forall i | 0 <= i < |words|
        ensures words[i] == if i < |mem| - 2 then mem[i + 2].iova else 0
      {
        if i >= |mem| - 2 {
          forall k | list + 8 * i <= k < list + 8 * i + 8
            ensures ram'[k] == 0
          {
            assert ram[k] == 0;
          }
          LeZero(ram'[list + 8 * i..list + 8 * i + 8]);
        }
      }
    }
  }

  lemma LaidWords(ram: seq<byte>, mps: nat, mem: seq<Loc>)
    requires Laid(ram, mps, mem) && |mem| > 2
    ensures NonZero(Words(ram, mem[1].vaddr, mps)) == Iovas(DataPages(mem)[1..])
  {
    var words := Words(ram, mem[1].vaddr, mps);
    NonZeroFront(words, |mem| - 2);
    assert DataPages(mem)[1..] == mem[2..];
  }

  /** The host finds its own data pages, in order, unless there are exactly two. */
  lemma HostFindsPages(ram: seq<byte>, mps: nat, mem: seq<Loc>)
    requires Laid(ram, mps, mem) && |mem| != 2
    ensures Segments(ram, mps, mem[0].iova, SecondAddress(mem), mem, mem) == Some(DataPages(mem))
  {
    var data := DataPages(mem);
    if |mem| == 1 {
      SingleLayout(ram, mps, mem[0].iova, 0, mem, data);
    } else {
      LaidWords(ram, mps, mem);
      ListLayoutExact(ram, mps, mem[0].iova, mem[1].iova, mem, data);
    }
  }

  /** What `from_address` collects from the two addresses. */
  function DevicePages(ram: seq<byte>, mps: nat, mem: seq<Loc>): seq<Loc>
    requires 0 < |mem| && (|mem| > 2 ==> mem[1].iova + mps <= |ram|)
  {
    if |mem| == 1 then Locations([mem[0].iova], mps)
    else if |mem| == 2 then Locations([mem[0].iova, mem[1].iova], mps)
    else Locations([mem[0].iova, mem[1].iova] + Words(ram, mem[1].iova, mps), mps)
  }

  /** DMA addresses are virtual addresses, as in the simulator's memory manager. */
  ghost predicate Identity(mem: seq<Loc>) {
    forall i :: 0 <= i < |mem| ==> mem[i].vaddr == mem[i].iova
  }

  /** Layout round trip: from the two addresses alone the device finds exactly the host's
      data pages, in the same order, unless there are exactly two. Zero words count as pages
      at address 0, which no lookup ever asks for. */
  lemma DeviceFindsPages(ram: seq<byte>, mps: nat, mem: seq<Loc>)
    requires Laid(ram, mps, mem) && Identity(mem) && |mem| != 2
    ensures InRam(ram, mps, DevicePages(ram, mps, mem))
    ensures Segments(ram, mps, mem[0].iova, SecondAddress(mem), DevicePages(ram, mps, mem), DevicePages(ram, mps, mem))
            == Some(DataPages(mem))
  {
    var pages, data := DevicePages(ram, mps, mem), DataPages(mem);
    if |mem| == 1 {
      SingleLayout(ram, mps, mem[0].iova, 0, pages, data);
    } else {
      LaidWords(ram, mps, mem);
      DeviceAddressed(ram, mps, mem);
      ListLayoutExact(ram, mps, mem[0].iova, mem[1].iova, pages, data);
    }
  }

  /** The device's page list is the host's, then one page at address 0 per unused word. */
  lemma DevicePagesAre(ram: seq<byte>, mps: nat, mem: seq<Loc>)
    requires Laid(ram, mps, mem) && Identity(mem) && |mem| > 2
    ensures |DevicePages(ram, mps, mem)| >= |mem|
    ensures forall i :: 0 <= i < |DevicePages(ram, mps, mem)| ==>
              DevicePages(ram, mps, mem)[i] == if i < |mem| then mem[i] else Loc(0, 0, mps)
  {
    var pages, words := DevicePages(ram, mps, mem), Words(ram, mem[1].iova, mps);
    assert ListHolds(ram, mps, mem);
    forall i | 0 <= i < |pages|
      ensures pages[i] == if i < |mem| then mem[i] else Loc(0, 0, mps)
    {
      if i >= 2 {
        assert pages[i].iova == words[i - 2];
      }
    }
  }

  lemma DeviceAddressed(ram: seq<byte>, mps: nat, mem: seq<Loc>)
    requires Laid(ram, mps, mem) && Identity(mem) && |mem| > 2
    ensures Addressed(mps, mem[0].iova, mem[1].iova, DevicePages(ram, mps, mem), DataPages(mem))
    ensures DevicePages(ram, mps, mem)[1] == mem[1] && InRam(ram, mps, DevicePages(ram, mps, mem))
  {
    DevicePagesAre(ram, mps, mem);
    PaddedAddressed(mps, mem, DevicePages(ram, mps, mem));
    assert mem[0].vaddr + mps <= |ram|;
  }

  lemma PaddedAddressed(mps: nat, mem: seq<Loc>, pages: seq<Loc>)
    requires 2 < |mem| <= |pages|
    requires forall i :: 0 <= i < |mem| ==> mem[i].iova != 0
    requires forall i, j :: 0 <= i < j < |mem| ==> mem[i].iova != mem[j].iova
    requires forall i :: 0 <= i < |pages| ==> pages[i] == if i < |mem| then mem[i] else Loc(0, 0, mps)
    ensures Addressed(mps, mem[0].iova, mem[1].iova, pages, DataPages(mem))
  {
    forall k | 0 <= k < |mem|
      ensures OnlyAt(pages, mem[k].iova, k)
    {
    }
    forall i | 1 <= i < |DataPages(mem)|
      ensures pages[i + 1] == DataPages(mem)[i]
    {
    }
  }

  /** No data page reaches into the list page. */
  lemma ListOutside(ram: seq<byte>, mps: nat, mem: seq<Loc>, k: nat)
    requires Laid(ram, mps, mem) && |mem| > 2 && mem[1].vaddr <= k < mem[1].vaddr + mps
    ensures Outside(mps, DataPages(mem), k)
  {
    forall i | 0 <= i < |DataPages(mem)|
      ensures !(DataPages(mem)[i].vaddr <= k < DataPages(mem)[i].vaddr + mps)
    {
      assert DataPages(mem)[i] == mem[if i == 0 then 0 else i + 1];
    }
  }

  lemma WordsSame(ram: seq<byte>, ram': seq<byte>, a: nat, mps: nat)
    requires |ram'| == |ram| && a + mps <= |ram|
    requires forall k :: a <= k < a + mps ==> ram'[k] == ram[k]
    ensures Words(ram', a, mps) == Words(ram, a, mps)
  {
    forall i | 0 <= i < mps / 8
      ensures Word(ram', a + 8 * i) == Word(ram, a + 8 * i)
    {
      assert ram'[a + 8 * i..a + 8 * i + 8] == ram[a + 8 * i..a + 8 * i + 8];
    }
  }

  lemma ListWordsKept(ram: seq<byte>, ram': seq<byte>, mps: nat, mem: seq<Loc>)
    requires Laid(ram, mps, mem) && |mem| > 2 && OnlyPages(ram, ram', mps, DataPages(mem))
    ensures Words(ram', mem[1].vaddr, mps) == Words(ram, mem[1].vaddr, mps)
  {
    forall k | mem[1].vaddr <= k < mem[1].vaddr + mps
      ensures ram'[k] == ram[k]
    {
      ListOutside(ram, mps, mem, k);
    }
    WordsSame(ram, ram', mem[1].vaddr, mps);
  }

  /** Pages other than the list page may be overwritten: the PRP stays laid out. */
  lemma DataKeepsLayout(ram: seq<byte>, ram': seq<byte>, mps: nat, mem: seq<Loc>)
    requires Laid(ram, mps, mem) && |mem| != 2 && OnlyPages(ram, ram', mps, DataPages(mem))
    ensures Laid(ram', mps, mem)
  {
    if |mem| > 2 {
      ListWordsKept(ram, ram', mps, mem);
    }
  }

  lemma DataPagesDisjoint(ram: seq<byte>, mps: nat, mem: seq<Loc>)
    requires Laid(ram, mps, mem)
    ensures InRam(ram, mps, DataPages(mem)) && Disjoint(mps, DataPages(mem))
    ensures forall i :: 0 <= i < |DataPages(mem)| ==> DataPages(mem)[i].size == mps
  {
    var data := DataPages(mem);
    forall i | 0 <= i < |data|
      ensures data[i] == mem[if i == 0 || |mem| <= 2 then i else i + 1]
    {
    }
  }

  /** The pages the code transfers: all data pages, but only the first of two. */
  function Transferred(mem: seq<Loc>): seq<Loc> {
    if |mem| == 2 then [mem[0]] else DataPages(mem)
  }

  /** Laid out, and with two pages the second is zero, as it is read as a list. */
  ghost predicate Ready(ram: seq<byte>, mps: nat, mem: seq<Loc>) {
    && Laid(ram, mps, mem)
    && (|mem| == 2 ==> forall k :: mem[1].vaddr <= k < mem[1].vaddr + mps ==> ram[k] == 0)
  }

  lemma ReadyFinds(ram: seq<byte>, mps: nat, mem: seq<Loc>)
    requires Ready(ram, mps, mem)
    ensures Segments(ram, mps, mem[0].iova, SecondAddress(mem), mem, mem) == Some(Transferred(mem))
    ensures InRam(ram, mps, Transferred(mem)) && Disjoint(mps, Transferred(mem))
    ensures forall i :: 0 <= i < |Transferred(mem)| ==> Transferred(mem)[i].size == mps
  {
    DataPagesDisjoint(ram, mps, mem);
    if |mem| == 2 {
      TwoPagesBlind(ram, mps, mem);
    } else {
      HostFindsPages(ram, mps, mem);
    }
  }

  /** Transferring data keeps a PRP ready for the next transfer. */
  lemma StaysReady(ram: seq<byte>, ram': seq<byte>, mps: nat, mem: seq<Loc>)
    requires Ready(ram, mps, mem) && OnlyPages(ram, ram', mps, Transferred(mem))
    ensures Ready(ram', mps, mem)
  {
    if |mem| == 2 {
      TwoPagesStayBlind(ram, ram', mps, mem);
    } else {
      DataKeepsLayout(ram, ram', mps, mem);
    }
  }

  /** `set_data_buffer` and then `get_data_buffer`: the write raises exactly on data that ends
      inside a page behind the first. Otherwise the read returns the data followed by the old
      tail, of the pages the code transfers. */
  method SetThenGet(prp: PRP, ram: array<byte>, data: seq<byte>) returns (ok: bool, back: Option<seq<byte>>)
    requires Ready(ram[..], prp.mps, prp.memList)
    requires prp.prp1 == prp.memList[0].iova && prp.prp2 == SecondAddress(prp.memList)
    modifies ram
    ensures Ready(ram[..], prp.mps, prp.memList) && InRam(old(ram[..]), prp.mps, Transferred(prp.memList))
    ensures OnlyPages(old(ram[..]), ram[..], prp.mps, Transferred(prp.memList))
    ensures var pages := |Transferred(prp.memList)|;
            ok <==> |data| % prp.mps == 0 || pages * prp.mps <= |data| || pages <= 1
    ensures back == if ok then Some(Over(data, old(Buffer(ram[..], prp.mps, Transferred(prp.memList))))) else None
    ensures ok ==> Overlaid(data, old(Buffer(ram[..], prp.mps, Transferred(prp.memList))), back.value)
  {
    ghost var before := ram[..];
    ReadyFinds(before, prp.mps, prp.memList);
    ok := prp.SetDataBuffer(ram, data);
    StaysReady(before, ram[..], prp.mps, prp.memList);
    ReadyFinds(ram[..], prp.mps, prp.memList);
    back := None;
    OverIs(data, Buffer(before, prp.mps, Transferred(prp.memList)));
    if ok {
      back := prp.GetDataBuffer(ram);
    }
  }

  /** Exactly when does a whole buffer come back? Always, except when the PRP has exactly two
      pages: then the first page alone is written and read. */
  method WholeBuffer(prp: PRP, ram: array<byte>, data: seq<byte>) returns (ok: bool, back: Option<seq<byte>>)
    requires Ready(ram[..], prp.mps, prp.memList) && |data| == |DataPages(prp.memList)| * prp.mps
    requires prp.prp1 == prp.memList[0].iova && prp.prp2 == SecondAddress(prp.memList)
    modifies ram
    ensures Ready(ram[..], prp.mps, prp.memList) && ok
    ensures back == Some(data) <==> |prp.memList| != 2
    ensures |prp.memList| == 2 ==> prp.mps <= |data| && back == Some(data[..prp.mps])
  {
    DivModUnique(|data|, prp.mps, |DataPages(prp.memList)|, 0);
    ghost var before := ram[..];
    ok, back := SetThenGet(prp, ram, data);
    if |prp.memList| == 2 {
      assert |Buffer(before, prp.mps, [prp.memList[0]])| == 1 * prp.mps;
    } else {
      assert data[..|data|] == data;
    }
  }

  lemma TwoPagesStayBlind(ram: seq<byte>, ram': seq<byte>, mps: nat, mem: seq<Loc>)
    requires Laid(ram, mps, mem) && |mem| == 2 && OnlyPages(ram, ram', mps, [mem[0]])
    requires forall k :: mem[1].vaddr <= k < mem[1].vaddr + mps ==> ram[k] == 0
    ensures Laid(ram', mps, mem) && forall k :: mem[1].vaddr <= k < mem[1].vaddr + mps ==> ram'[k] == 0
  {
    forall k | mem[1].vaddr <= k < mem[1].vaddr + mps
      ensures ram'[k] == 0
    {
      assert Outside(mps, [mem[0]], k);
    }
  }

  lemma TwoPagesBlind(ram: seq<byte>, mps: nat, mem: seq<Loc>)
    requires |mem| == 2 && InRam(ram, mps, mem) && mem[0].iova != mem[1].iova
    requires mem[0].iova != 0 && mem[1].iova != 0
    requires forall k :: mem[1].vaddr <= k < mem[1].vaddr + mps ==> ram[k] == 0
    ensures Segments(ram, mps, mem[0].iova, mem[1].iova, mem, mem) == Some([mem[0]])
  {
    var list, words := mem[1].vaddr, Words(ram, mem[1].vaddr, mps);
    forall i | 0 <= i < |words|
      ensures words[i] == 0
    {
      LeZero(ram[list + 8 * i..list + 8 * i + 8]);
    }
    NonZeroFront(words, 0);
    TwoPagesExact(ram, mps, mem);
  }

  /** Pages a memory manager may hand out: apart from each other, at distinct nonzero 64-bit
      addresses, and zero. */
  ghost predicate GoodPages(ram: seq<byte>, mps: nat, pages: seq<Loc>) {
    && InRam(ram, mps, pages) && Disjoint(mps, pages)
    && (forall i :: 0 <= i < |pages| ==> pages[i].size == mps && 0 < pages[i].iova < Pow256(8))
    && (forall i, j :: 0 <= i < j < |pages| ==> pages[i].iova != pages[j].iova)
    && (forall i, k :: 0 <= i < |pages| && pages[i].vaddr <= k < pages[i].vaddr + mps ==> ram[k] == 0)
  }

  lemma GoodPrefix(ram: seq<byte>, mps: nat, pages: seq<Loc>, n: nat)
    requires GoodPages(ram, mps, pages) && n <= |pages|
    ensures GoodPages(ram, mps, pages[..n])
  {
  }

  /** A PRP the host allocates over such pages: it succeeds exactly when one list page can
      address the buffer, and is then ready for a transfer. */
  method NewPrp(numBytes: nat, mps: nat, mgr: PageSource, ram: array<byte>) returns (prp: PRP, ok: bool)
    requires 0 < numBytes && 16 <= mps && mps / 8 + 1 <= |mgr.pool| && GoodPages(ram[..], mps, mgr.pool)
    modifies mgr, ram
    ensures fresh(prp) && prp.mps == mps && prp.numBytes == numBytes
    ensures ok <==> Ceil(numBytes, mps) <= mps / 8
    ensures |prp.memList| <= |old(mgr.pool)| && prp.memList == old(mgr.pool)[..|prp.memList|]
    ensures ok ==>
              && Ready(ram[..], mps, prp.memList)
              && |prp.memList| == (if Ceil(numBytes, mps) <= 2 then Ceil(numBytes, mps) else Ceil(numBytes, mps) + 1)
              && prp.prp1 == prp.memList[0].iova && prp.prp2 == SecondAddress(prp.memList)
  {
    ghost var before, pool := ram[..], mgr.pool;
    prp := new PRP(numBytes, mps);
    prp.TakesNeeded();
    ok := prp.Alloc(mgr, ram);
    if ok {
      GoodPrefix(before, mps, pool, |prp.memList|);
      AllocLays(before, ram[..], mps, prp.memList);
    }
  }
}
