/** Host buffer, PRP, handler and byte store together refine a plain array of blocks. */
module StorageRefinement {
  import opened StatusCodes
  import opened Ring
  import opened Bytes
  import opened Prp
  import opened PrpBuffer
  import opened PrpRoundTrip
  import opened Storage

  /** One accepted write: its first LBA and the bytes of its blocks. */
  datatype Record = Record(slba: nat, n: nat, data: seq<byte>)

  ghost predicate LogOk(log: seq<Record>, bs: nat) {
    forall i :: 0 <= i < |log| ==> |log[i].data| == log[i].n * bs
  }

  /** The specification: what block l holds after the writes of the log, latest last. */
  ghost function LastWritten(log: seq<Record>, initial: seq<byte>, bs: nat, l: nat): seq<byte>
    requires LogOk(log, bs) && (l + 1) * bs <= |initial|
  {
    if log == [] then BlockAt(initial, bs, l)
    else
      var last := log[|log| - 1];
      if last.slba <= l < last.slba + last.n then
        MulMono(l - last.slba + 1, last.n, bs);
        BlockAt(last.data, bs, l - last.slba)
      else LastWritten(log[..|log| - 1], initial, bs, l)
  }

  /** The store agrees with the specification on block l. */
  ghost predicate AgreesOn(store: seq<byte>, log: seq<Record>, initial: seq<byte>, bs: nat, l: nat)
    requires LogOk(log, bs) && |store| == |initial|
  {
    (l + 1) * bs <= |store| && BlockAt(store, bs, l) == LastWritten(log, initial, bs, l)
  }

  /** The store agrees with the specification on every block. */
  ghost predicate Agrees(store: seq<byte>, log: seq<Record>, initial: seq<byte>, bs: nat, lbas: nat)
    requires LogOk(log, bs) && |store| == |initial| == lbas * bs
  {
    forall l: nat :: l < lbas ==> AgreesOn(store, log, initial, bs, l)
  }

  /** Splicing data in keeps the agreement when the write is logged: the addressed blocks
      become the written ones and every other block is untouched. */
  lemma WriteAgrees(store: seq<byte>, log: seq<Record>, initial: seq<byte>, bs: nat, lbas: nat, r: Record)
    requires LogOk(log, bs) && |store| == |initial| == lbas * bs && Agrees(store, log, initial, bs, lbas)
    requires |r.data| == r.n * bs && r.slba + r.n <= lbas
    ensures (r.slba + r.n) * bs <= |store| && LogOk(log + [r], bs)
    ensures Agrees(Splice(store, bs, r.slba, r.n, r.data), log + [r], initial, bs, lbas)
  {
    MulMono(r.slba + r.n, lbas, bs);
    forall l: nat | l < lbas
      ensures AgreesOn(Splice(store, bs, r.slba, r.n, r.data), log + [r], initial, bs, l)
    {
      assert AgreesOn(store, log, initial, bs, l);
      WriteAgreesOn(store, log, initial, bs, r, l);
    }
  }

  lemma WriteAgreesOn(store: seq<byte>, log: seq<Record>, initial: seq<byte>, bs: nat, r: Record, l: nat)
    requires LogOk(log, bs) && |store| == |initial| && AgreesOn(store, log, initial, bs, l)
    requires |r.data| == r.n * bs && (r.slba + r.n) * bs <= |store|
    ensures LogOk(log + [r], bs)
    ensures AgreesOn(Splice(store, bs, r.slba, r.n, r.data), log + [r], initial, bs, l)
  {
    assert (log + [r])[..|log|] == log;
    SpliceBlocks(store, bs, r.slba, r.n, r.data, l);
  }

  lemma AgreesInitially(store: seq<byte>, bs: nat, lbas: nat)
    requires |store| == lbas * bs
    ensures Agrees(store, [], store, bs, lbas)
  {
    forall l: nat | l < lbas
      ensures AgreesOn(store, [], store, bs, l)
    {
      MulMono(l + 1, lbas, bs);
    }
  }

  lemma SliceOfSlice(store: seq<byte>, x: nat, y: nat, u: nat, v: nat)
    requires x <= y <= |store| && u <= v <= y - x
    ensures store[x..y][u..v] == store[x + u..x + v]
  {
    var a := store[x..y];
    forall k | 0 <= k < v - u
      ensures a[u..v][k] == store[x + u..x + v][k]
    {
      assert a[u..v][k] == a[u + k] == store[x + u + k];
    }
  }

  /** Bounds of block slba + j, and of block j of n blocks that start at slba. */
  lemma BlockBounds(bs: nat, slba: nat, n: nat, j: nat)
    requires j < n
    ensures (slba + n) * bs == slba * bs + n * bs
    ensures (slba + j) * bs == slba * bs + j * bs && (slba + j + 1) * bs == slba * bs + (j + 1) * bs
    ensures j * bs <= (j + 1) * bs <= n * bs
  {
    MulAdd(slba, n, bs);
    MulAdd(slba, j, bs);
    MulAdd(slba, j + 1, bs);
    MulMono(j + 1, n, bs);
    Mul(j, bs);
  }

  lemma FrontSlice(store: seq<byte>, data: seq<byte>, x: nat, y: nat, u: nat, v: nat)
    requires x <= y <= |store| && y - x <= |data| && data[..y - x] == store[x..y] && u <= v <= y - x
    ensures data[u..v] == store[x + u..x + v]
  {
    SliceOfSlice(store, x, y, u, v);
    SliceOfSlice(data, 0, y - x, u, v);
  }

  /** Block j of data that starts with the bytes read from slba is block slba + j of the store. */
  lemma ReadBlock(store: seq<byte>, data: seq<byte>, bs: nat, slba: nat, n: nat, j: nat)
    requires (slba + n) * bs <= |store| && j < n
    requires n * bs <= |data| && data[..n * bs] == Blocks(store, bs, slba, n)
    ensures (slba + j + 1) * bs <= |store| && (j + 1) * bs <= |data|
    ensures BlockAt(data, bs, j) == BlockAt(store, bs, slba + j)
  {
    BlockBounds(bs, slba, n, j);
    FrontSlice(store, data, slba * bs, (slba + n) * bs, j * bs, (j + 1) * bs);
  }

  /** Block j of data is the last one written to LBA slba + j. */
  ghost predicate HasLastWritten(data: seq<byte>, log: seq<Record>, initial: seq<byte>, bs: nat, slba: nat, j: nat)
    requires LogOk(log, bs)
  {
    && (slba + j + 1) * bs <= |initial| && (j + 1) * bs <= |data|
    && BlockAt(data, bs, j) == LastWritten(log, initial, bs, slba + j)
  }

  /** One of the two is the front of the other. */
  ghost predicate Agree(a: seq<byte>, b: seq<byte>) {
    a <= b || b <= a
  }

  lemma OverStarts(data: seq<byte>, b: seq<byte>)
    ensures |data| <= |b| ==> Over(data, b)[..|data|] == data
  {
  }

  lemma OverFront(data: seq<byte>, b: seq<byte>)
    ensures Agree(Over(data, b), data)
  {
  }

  lemma FrontBlocks(store: seq<byte>, data: seq<byte>, bs: nat, slba: nat, n: nat, j: nat)
    requires (slba + n) * bs <= |store| && j < n && (j + 1) * bs <= |data| && Agree(data, Blocks(store, bs, slba, n))
    ensures (slba + (j + 1)) * bs <= |store| && data[..(j + 1) * bs] == Blocks(store, bs, slba, j + 1)
  {
    BlockBounds(bs, slba, n, j);
    var all := Blocks(store, bs, slba, n);
    SliceOfSlice(store, slba * bs, (slba + n) * bs, 0, (j + 1) * bs);
    assert data[..(j + 1) * bs] == all[0..(j + 1) * bs];
  }

  /** Every block the data holds is the last one written there. */
  lemma ReadAgrees(store: seq<byte>, log: seq<Record>, initial: seq<byte>, bs: nat, lbas: nat,
                   data: seq<byte>, slba: nat, n: nat)
    requires LogOk(log, bs) && |store| == |initial| == lbas * bs && Agrees(store, log, initial, bs, lbas)
    requires slba + n <= lbas && (slba + n) * bs <= |store| && Agree(data, Blocks(store, bs, slba, n))
    ensures forall j: nat :: j < n && (j + 1) * bs <= |data| ==> HasLastWritten(data, log, initial, bs, slba, j)
  {
    forall j: nat | j < n && (j + 1) * bs <= |data|
      ensures HasLastWritten(data, log, initial, bs, slba, j)
    {
      FrontBlocks(store, data, bs, slba, n, j);
      ReadBlock(store, data, bs, slba, j + 1, j);
      assert AgreesOn(store, log, initial, bs, slba + j);
    }
  }

  /** A transfer leaves the PRP as it was. */
  lemma StaysDescribed(ram: seq<byte>, ram': seq<byte>, mps: nat, mem: seq<Loc>, bytes: nat, prp1: nat, prp2: nat)
    requires Described(ram, mps, mem, bytes, prp1, prp2) && OnlyPages(ram, ram', mps, Transferred(mem))
    ensures Described(ram', mps, mem, bytes, prp1, prp2)
  {
    StaysReady(ram, ram', mps, mem);
  }

  /** How much is transferred: all the bytes, but of two pages only one page. */
  lemma TransferredSize(ram: seq<byte>, mps: nat, mem: seq<Loc>, bytes: nat, prp1: nat, prp2: nat)
    requires Described(ram, mps, mem, bytes, prp1, prp2)
    ensures if |mem| == 2 then |Transferred(mem)| * mps == mps < bytes else bytes <= |Transferred(mem)| * mps
  {
    PagesCover(bytes, mps, mem);
  }

  class BlockDevice {
    const ns: Namespace
    const ram: array<byte>
    const mps: nat
    ghost const initial: seq<byte>
    /** Every in-range write so far. */
    ghost var log: seq<Record>

    ghost predicate Valid()
      reads this, ns.mm
    {
      && ns.Valid() && ns.mm != ram && |initial| == ns.mm.Length && LogOk(log, ns.blockSize)
      && Agrees(ns.mm[..], log, initial, ns.blockSize, ns.numLbas)
    }

    constructor (ns: Namespace, ram: array<byte>, mps: nat)
      requires ns.Valid() && ns.mm != ram
      ensures Valid() && log == [] && this.ns == ns && this.ram == ram && this.mps == mps
    {
      this.ns, this.ram, this.mps := ns, ram, mps;
      initial, log := ns.mm[..], [];
      new;
      AgreesInitially(ns.mm[..], ns.blockSize, ns.numLbas);
    }

    /** A host PRP that describes the buffer of an IO of nlb + 1 blocks. */
    ghost predicate Holds(host: PRP, nlb: nat)
      reads host, ram
    {
      && host.mps == mps && 0 < ns.blockSize
      && Described(ram[..], mps, host.memList, (nlb + 1) * ns.blockSize, host.prp1, host.prp2)
    }

    /** The buffer has more than two pages and ends inside one. */
    ghost predicate Ragged(host: PRP, nlb: nat)
      requires 0 < mps
      reads host
    {
      |host.memList| > 2 && ((nlb + 1) * ns.blockSize) % mps != 0
    }

    /** Sizes the data path transports: one page, or at least three and whole pages. */
    ghost predicate Carries(host: PRP, nlb: nat)
      reads host, ram
    {
      Holds(host, nlb) && |host.memList| != 2 && !Ragged(host, nlb)
    }

    predicate InBounds(slba: nat, nlb: nat) {
      slba + nlb + 1 <= ns.numLbas
    }

    /** Host fills its buffer and the device handles the Write. In range the Write succeeds,
        and is then in the log, exactly for the sizes the data path carries; otherwise one
        side raises, and the store is what it was. */
    method WriteIo(slba: nat, nlb: nat, data: seq<byte>, host: PRP) returns (r: HandlerResult)
      requires Valid() && Holds(host, nlb) && |data| == (nlb + 1) * ns.blockSize
      modifies this`log, ram, ns.mm
      ensures Valid() && Holds(host, nlb)
      ensures r == if Ragged(host, nlb) then Raised
                   else if !InBounds(slba, nlb) then Completed(LBA_OUT_OF_RANGE)
                   else if Carries(host, nlb) then Completed(SUCCESSFUL_COMPLETION) else Raised
      ensures log == if r == Completed(SUCCESSFUL_COMPLETION) then old(log) + [Record(slba, nlb + 1, data)]
              else old(log)
      ensures r != Completed(SUCCESSFUL_COMPLETION) ==> ns.mm[..] == old(ns.mm[..])
    {
      var filled := FillBuffer(nlb, data, host);
      if !filled {
        return Raised;
      }
      r := DeviceWrite(slba, nlb, host.prp1, host.prp2, host.memList, data);
    }

    /** The buffer behind mem starts with data, as far as pages are transferred at all. */
    ghost predicate StartsWith(mem: seq<Loc>, data: seq<byte>)
      reads ram
    {
      && InRam(ram[..], mps, Transferred(mem))
      && (|mem| != 2 ==>
            |data| <= |Buffer(ram[..], mps, Transferred(mem))|
                && Buffer(ram[..], mps, Transferred(mem))[..|data|] == data)
    }

    /** The host fills its buffer; false is an exception. */
    method FillBuffer(nlb: nat, data: seq<byte>, host: PRP) returns (ok: bool)
      requires Holds(host, nlb) && |data| == (nlb + 1) * ns.blockSize
      modifies ram
      ensures Holds(host, nlb) && (ok <==> !Ragged(host, nlb))
      ensures ok ==> StartsWith(host.memList, data)
    {
      ghost var mem, before := host.memList, ram[..];
      ok := SetPages(nlb, data, host);
      StaysDescribed(before, ram[..], mps, mem, |data|, host.prp1, host.prp2);
      if ok {
        TransferredSize(before, mps, mem, |data|, host.prp1, host.prp2);
        OverStarts(data, Buffer(before, mps, Transferred(mem)));
      }
    }

    method SetPages(nlb: nat, data: seq<byte>, host: PRP) returns (ok: bool)
      requires Holds(host, nlb) && |data| == (nlb + 1) * ns.blockSize
      modifies ram
      ensures ok <==> !Ragged(host, nlb)
      ensures var pages := Transferred(host.memList);
              && InRam(old(ram[..]), mps, pages) && OnlyPages(old(ram[..]), ram[..], mps, pages)
              && (ok ==> Buffer(ram[..], mps, pages) == Over(data, Buffer(old(ram[..]), mps, pages)))
    {
      ghost var mem, bytes := host.memList, (nlb + 1) * ns.blockSize;
      DescribedSegments(ram[..], mps, mem, bytes, host.prp1, host.prp2);
      PagesCover(bytes, mps, mem);
      ok := host.SetDataBuffer(ram, data);
    }

    /** The device handles the Write of a buffer that starts with data. */
    method DeviceWrite(slba: nat, nlb: nat, prp1: nat, prp2: nat, ghost mem: seq<Loc>, ghost data: seq<byte>)
      returns (r: HandlerResult)
      requires Valid() && |data| == (nlb + 1) * ns.blockSize && StartsWith(mem, data)
      requires Described(ram[..], mps, mem, |data|, prp1, prp2)
      modifies this`log, ns.mm
      ensures Valid()
      ensures r == if !InBounds(slba, nlb) then Completed(LBA_OUT_OF_RANGE)
                   else if |mem| != 2 then Completed(SUCCESSFUL_COMPLETION) else Raised
      ensures log == if r == Completed(SUCCESSFUL_COMPLETION) then old(log) + [Record(slba, nlb + 1, data)]
              else old(log)
      ensures r != Completed(SUCCESSFUL_COMPLETION) ==> ns.mm[..] == old(ns.mm[..])
    {
      ghost var before, rec := ns.mm[..], Record(slba, nlb + 1, data);
      r := StoreBlocks(slba, nlb, prp1, prp2, mem, data);
      if r == Completed(SUCCESSFUL_COMPLETION) {
        WriteAgrees(before, log, initial, ns.blockSize, ns.numLbas, rec);
        log := log + [rec];
      }
    }

    /** What the handler does to the store with such a buffer. */
    method StoreBlocks(slba: nat, nlb: nat, prp1: nat, prp2: nat, ghost mem: seq<Loc>, ghost data: seq<byte>)
      returns (r: HandlerResult)
      requires ns.Valid() && ns.mm != ram && |data| == (nlb + 1) * ns.blockSize && StartsWith(mem, data)
      requires Described(ram[..], mps, mem, |data|, prp1, prp2)
      modifies ns.mm
      ensures r == if !InBounds(slba, nlb) then Completed(LBA_OUT_OF_RANGE)
                   else if |mem| != 2 then Completed(SUCCESSFUL_COMPLETION) else Raised
      ensures r != Completed(SUCCESSFUL_COMPLETION) ==> ns.mm[..] == old(ns.mm[..])
      ensures r == Completed(SUCCESSFUL_COMPLETION) ==>
                && (slba + (nlb + 1)) * ns.blockSize <= ns.mm.Length
                && ns.mm[..] == Splice(old(ns.mm[..]), ns.blockSize, slba, nlb + 1, data)
    {
      r := WriteDescribed(ns, slba, nlb, prp1, prp2, mps, ram, mem);
    }

    /** The host copies its whole buffer out. */
    method TakeData(nlb: nat, host: PRP) returns (data: seq<byte>)
      requires Holds(host, nlb)
      ensures InRam(ram[..], mps, Transferred(host.memList)) && data == Buffer(ram[..], mps, Transferred(host.memList))
    {
      DescribedSegments(ram[..], mps, host.memList, (nlb + 1) * ns.blockSize, host.prp1, host.prp2);
      var buffer := host.GetDataBuffer(ram);
      data := buffer.value;
    }

    /** The device handles the Read and the host takes the data out of its buffer. Unless the
        device raises, on a ragged buffer, block j of that data is the last data written to
        LBA slba + j, for every block the data holds; and it holds them all, except when the
        buffer has two pages: then it is one page long. */
    method ReadIo(slba: nat, nlb: nat, host: PRP) returns (r: HandlerResult, data: seq<byte>)
      requires Valid() && Holds(host, nlb)
      modifies ram
      ensures Valid() && Holds(host, nlb)
      ensures r == if !InBounds(slba, nlb) then Completed(LBA_OUT_OF_RANGE)
                   else if Ragged(host, nlb) then Raised else Completed(SUCCESSFUL_COMPLETION)
      ensures r == Completed(LBA_OUT_OF_RANGE) ==> ram[..] == old(ram[..])
      ensures r == Completed(SUCCESSFUL_COMPLETION) ==> HoldsLastWritten(data, slba, nlb + 1)
      ensures r == Completed(SUCCESSFUL_COMPLETION) ==>
                if |host.memList| == 2 then |data| == mps < (nlb + 1) * ns.blockSize
                    else (nlb + 1) * ns.blockSize <= |data|
    {
      data := [];
      r := DeviceRead(slba, nlb, host);
      if r == Completed(SUCCESSFUL_COMPLETION) {
        data := TakeData(nlb, host);
        FetchedHolds(host.memList, slba, nlb, data);
      }
    }

    lemma FetchedHolds(mem: seq<Loc>, slba: nat, nlb: nat, data: seq<byte>)
      requires Valid() && InBounds(slba, nlb) && Fetched(mem, slba, nlb)
      requires data == Buffer(ram[..], mps, Transferred(mem))
      ensures HoldsLastWritten(data, slba, nlb + 1)
      ensures if |mem| == 2 then |data| == mps < (nlb + 1) * ns.blockSize else (nlb + 1) * ns.blockSize <= |data|
    {
      ReadAgrees(ns.mm[..], log, initial, ns.blockSize, ns.numLbas, data, slba, nlb + 1);
    }

    /** Block j of data is the last data written to LBA slba + j, for those of n blocks that
        data holds. */
    ghost predicate HoldsLastWritten(data: seq<byte>, slba: nat, n: nat)
      requires Valid()
      reads this, ns.mm
    {
      forall j: nat :: j < n && (j + 1) * ns.blockSize <= |data| ==>
          HasLastWritten(data, log, initial, ns.blockSize, slba, j)
    }

    method DeviceRead(slba: nat, nlb: nat, host: PRP) returns (r: HandlerResult)
      requires Valid() && Holds(host, nlb)
      modifies ram
      ensures Valid() && Holds(host, nlb)
      ensures r == if !InBounds(slba, nlb) then Completed(LBA_OUT_OF_RANGE)
                   else if Ragged(host, nlb) then Raised else Completed(SUCCESSFUL_COMPLETION)
      ensures r == Completed(LBA_OUT_OF_RANGE) ==> ram[..] == old(ram[..])
      ensures r == Completed(SUCCESSFUL_COMPLETION) ==> Fetched(host.memList, slba, nlb)
    {
      ghost var mem, bytes := host.memList, (nlb + 1) * ns.blockSize;
      ghost var before := ram[..];
      DescribedSegments(before, mps, mem, bytes, host.prp1, host.prp2);
      r := ReadDescribed(ns, slba, nlb, host.prp1, host.prp2, mps, ram, mem);
      if InBounds(slba, nlb) {
        StaysDescribed(before, ram[..], mps, mem, bytes, host.prp1, host.prp2);
        if r == Completed(SUCCESSFUL_COMPLETION) {
          TransferredSize(before, mps, mem, bytes, host.prp1, host.prp2);
          OverFetched(before, mem, slba, nlb);
        }
      }
    }

    lemma OverFetched(before: seq<byte>, mem: seq<Loc>, slba: nat, nlb: nat)
      requires ram.Length == |before|
      requires var bytes, n := (nlb + 1) * ns.blockSize, |Transferred(mem)| * mps;
               if |mem| == 2 then n == mps < bytes else bytes <= n
      requires InRam(before, mps, Transferred(mem)) && (slba + (nlb + 1)) * ns.blockSize <= ns.mm.Length
      requires Buffer(ram[..], mps, Transferred(mem)) ==
               Over(Blocks(ns.mm[..], ns.blockSize, slba, nlb + 1), Buffer(before, mps, Transferred(mem)))
      ensures Fetched(mem, slba, nlb)
    {
      OverFront(Blocks(ns.mm[..], ns.blockSize, slba, nlb + 1), Buffer(before, mps, Transferred(mem)));
    }

    /** The transferred pages start with the addressed blocks, or are the front of them. */
    ghost predicate Fetched(mem: seq<Loc>, slba: nat, nlb: nat)
      reads ram, ns.mm
    {
      && InRam(ram[..], mps, Transferred(mem)) && (slba + (nlb + 1)) * ns.blockSize <= ns.mm.Length
      && var bytes, b := (nlb + 1) * ns.blockSize, Buffer(ram[..], mps, Transferred(mem));
      && Agree(b, Blocks(ns.mm[..], ns.blockSize, slba, nlb + 1))
      && (if |mem| == 2 then |b| == mps < bytes else bytes <= |b|)
    }

    /** The host allocates the buffer of an IO: whenever its size is one the data path
        transports and one list page can address it, the PRP it gets carries the IO. */
    method AllocBuffer(nlb: nat, mgr: PageSource) returns (host: PRP, ok: bool)
      requires Valid() && 16 <= mps && mps / 8 + 1 <= |mgr.pool|
      requires GoodPages(ram[..], mps, mgr.pool) && Identity(mgr.pool)
      modifies mgr, ram
      ensures Valid() && fresh(host) && (ok <==> Ceil((nlb + 1) * ns.blockSize, mps) <= mps / 8)
      ensures ok ==> Holds(host, nlb)
      ensures ok ==> (Carries(host, nlb) <==>
                var bytes := (nlb + 1) * ns.blockSize;
                Ceil(bytes, mps) == 1 || (Ceil(bytes, mps) > 2 && bytes % mps == 0))
    {
      BytesPositive(nlb, ns.blockSize);
      host, ok := NewPrp((nlb + 1) * ns.blockSize, mps, mgr, ram);
    }
  }

  lemma BytesPositive(nlb: nat, bs: nat)
    requires 0 < bs
    ensures 0 < (nlb + 1) * bs
  {
    MulMono(1, nlb + 1, bs);
  }
}
