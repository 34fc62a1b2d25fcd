/** The simulated namespace and the Read and Write handlers, down to an array of blocks. */
module Storage {
  import opened Options
  import opened StatusCodes
  import opened Ring
  import opened Bytes
  import opened Prp
  import opened PrpBuffer
  import opened PrpRoundTrip

  /** A handler completes with a status code, or an exception stops the simulator. */
  datatype HandlerResult = Completed(sc: nat) | Raised

  // ---- Blocks in a byte store -------------------------------------------------------

  function BlockAt(store: seq<byte>, bs: nat, lba: nat): seq<byte>
    requires (lba + 1) * bs <= |store|
  {
    Mul(lba, bs);
    store[lba * bs..(lba + 1) * bs]
  }

  lemma Mul(n: nat, bs: nat)
    ensures n * bs <= (n + 1) * bs == n * bs + bs
  {
  }

  lemma MulAdd(a: nat, b: nat, bs: nat)
    ensures (a + b) * bs == a * bs + b * bs
  {
  }

  /** n blocks from lba. */
  function Blocks(store: seq<byte>, bs: nat, lba: nat, n: nat): (r: seq<byte>)
    requires (lba + n) * bs <= |store|
    ensures |r| == n * bs
  {
    MulAdd(lba, n, bs);
    store[lba * bs..(lba + n) * bs]
  }

  /** Assigning data to the bytes of n whole blocks. */
  function Splice(store: seq<byte>, bs: nat, lba: nat, n: nat, data: seq<byte>): (r: seq<byte>)
    requires (lba + n) * bs <= |store| && |data| == n * bs
    ensures |r| == |store|
  {
    MulAdd(lba, n, bs);
    store[..lba * bs] + data + store[(lba + n) * bs..]
  }

  /** Parts of a store with data spliced in at x. */
  lemma SpliceParts(store: seq<byte>, x: nat, data: seq<byte>, u: nat, v: nat)
    requires x + |data| <= |store| && u <= v <= |store|
    ensures var r := store[..x] + data + store[x + |data|..];
            && (v <= x || x + |data| <= u ==> r[u..v] == store[u..v])
            && (x <= u && v <= x + |data| ==> r[u..v] == data[u - x..v - x])
  {
    var r := store[..x] + data + store[x + |data|..];
    assert forall k :: 0 <= k < |store| ==> r[k] == if x <= k < x + |data| then data[k - x] else store[k];
  }

  lemma SpliceOutside(store: seq<byte>, bs: nat, lba: nat, n: nat, data: seq<byte>, l: nat)
    requires (lba + n) * bs <= |store| && |data| == n * bs && (l + 1) * bs <= |store|
    requires l < lba || lba + n <= l
    ensures BlockAt(Splice(store, bs, lba, n, data), bs, l) == BlockAt(store, bs, l)
  {
    MulAdd(lba, n, bs);
    Mul(l, bs);
    MulMono(l + 1, lba, bs);
    MulMono(lba + n, l, bs);
    SpliceParts(store, lba * bs, data, l * bs, (l + 1) * bs);
  }

  lemma SpliceInside(store: seq<byte>, bs: nat, lba: nat, n: nat, data: seq<byte>, j: nat)
    requires (lba + n) * bs <= |store| && |data| == n * bs && j < n
    ensures (lba + j + 1) * bs <= |store| && (j + 1) * bs <= |data|
    ensures BlockAt(Splice(store, bs, lba, n, data), bs, lba + j) == BlockAt(data, bs, j)
  {
    MulAdd(lba, n, bs);
    MulAdd(lba, j, bs);
    MulAdd(lba, j + 1, bs);
    Mul(j, bs);
    MulMono(j + 1, n, bs);
    SpliceParts(store, lba * bs, data, (lba + j) * bs, (lba + j + 1) * bs);
  }

  /** A splice replaces exactly the addressed blocks, in order. */
  lemma SpliceBlocks(store: seq<byte>, bs: nat, lba: nat, n: nat, data: seq<byte>, l: nat)
    requires (lba + n) * bs <= |store| && |data| == n * bs && (l + 1) * bs <= |store|
    ensures lba <= l < lba + n ==> (l - lba + 1) * bs <= |data|
    ensures BlockAt(Splice(store, bs, lba, n, data), bs, l) ==
            if lba <= l < lba + n then BlockAt(data, bs, l - lba) else BlockAt(store, bs, l)
  {
    if lba <= l < lba + n {
      SpliceInside(store, bs, lba, n, data, l - lba);
    } else {
      SpliceOutside(store, bs, lba, n, data, l);
    }
  }

  /** The same byte by byte. */
  lemma SpliceAt(store: seq<byte>, bs: nat, lba: nat, n: nat, data: seq<byte>, k: nat)
    requires (lba + n) * bs <= |store| && |data| == n * bs && k < |store|
    ensures lba * bs <= k < (lba + n) * bs ==> k - lba * bs < |data|
    ensures Splice(store, bs, lba, n, data)[k] ==
            if lba * bs <= k < (lba + n) * bs then data[k - lba * bs] else store[k]
  {
    MulAdd(lba, n, bs);
  }

  lemma SliceFront(b: seq<byte>, n: nat)
    ensures Slice(b, 0, n) == if n <= |b| then b[..n] else b
  {
    assert b[..|b|] == b;
  }

  // ---- The namespace and the handlers -----------------------------------------------

  class Namespace {
    const blockSize: nat
    const numLbas: nat
    const mm: array<byte>

    ghost predicate Valid() {
      0 < blockSize && mm.Length == numLbas * blockSize
    }

    constructor (numLbas: nat, blockSize: nat)
      requires 0 < blockSize
      ensures Valid() && fresh(mm) && this.numLbas == numLbas && this.blockSize == blockSize
    {
      this.numLbas, this.blockSize := numLbas, blockSize;
      mm := new byte[numLbas * blockSize];
    }

    /** `read`: the addressed bytes go into the PRP's pages. */
    method Read(lba: nat, n: nat, prp: PRP, ram: array<byte>) returns (ok: bool)
      requires Valid() && (lba + n) * blockSize <= mm.Length && mm != ram
      requires 0 < prp.mps && InRam(ram[..], prp.mps, prp.memList)
      requires var s := Segments(ram[..], prp.mps, prp.prp1, prp.prp2, prp.memList, prp.memList);
               s.Some? ==>
                 && InRam(ram[..], prp.mps, s.value)
                 && forall i :: 0 <= i < |s.value| ==> s.value[i].size == prp.mps
      modifies ram
      ensures var s := old(Segments(ram[..], prp.mps, prp.prp1, prp.prp2, prp.memList, prp.memList));
              && (ok <==>
                    && s.Some?
                    && ((n * blockSize) % prp.mps == 0 || |s.value| * prp.mps <= n * blockSize || |s.value| <= 1))
              && OnlyPages(old(ram[..]), ram[..], prp.mps, if s.Some? then s.value else [])
              && (ok ==>
                    ram[..] == Stored(old(ram[..]), prp.mps, s.value, Blocks(mm[..], blockSize, lba, n), |s.value|))
              && (ok && Disjoint(prp.mps, s.value) ==>
                    Buffer(ram[..], prp.mps, s.value) ==
                           Over(Blocks(mm[..], blockSize, lba, n), Buffer(old(ram[..]), prp.mps, s.value)))
    {
      MulAdd(lba, n, blockSize);
      var startByte := lba * blockSize;
      var endByte := startByte + n * blockSize;
      var data := Slice(mm[..], startByte, endByte);
      assert data == Blocks(mm[..], blockSize, lba, n);
      ok := prp.SetDataBuffer(ram, data);
    }

    /** `write`: assigning a slice of the memory map raises unless the lengths agree. */
    method Write(lba: nat, n: nat, prp: PRP, ram: array<byte>) returns (ok: bool)
      requires Valid() && (lba + n) * blockSize <= mm.Length
      requires 0 < prp.mps && InRam(ram[..], prp.mps, prp.memList)
      requires var s := Segments(ram[..], prp.mps, prp.prp1, prp.prp2, prp.memList, prp.memList);
               s.Some? ==>
                 InRam(ram[..], prp.mps, s.value) && forall i :: 0 <= i < |s.value| ==> s.value[i].size == prp.mps
      modifies mm
      ensures var s := old(Segments(ram[..], prp.mps, prp.prp1, prp.prp2, prp.memList, prp.memList));
              && (ok <==> s.Some? && n * blockSize <= |s.value| * prp.mps)
              && (ok ==>
                    mm[..] == Splice(old(mm[..]), blockSize, lba, n,
                                     old(Buffer(ram[..], prp.mps, s.value))[..n * blockSize]))
              && (!ok ==> mm[..] == old(mm[..]))
    {
      MulAdd(lba, n, blockSize);
      var startByte := lba * blockSize;
      var endByte := startByte + n * blockSize;
      var data := FrontOf(prp, ram, n * blockSize);
      if data.None? || |data.value| != endByte - startByte {
        return false;
      }
      Assign(lba, n, data.value);
      ok := true;
    }

    /** The first bytes of the PRP's buffer, as many as there are. */
    method FrontOf(prp: PRP, ram: array<byte>, bytes: nat) returns (data: Option<seq<byte>>)
      requires 0 < prp.mps && InRam(ram[..], prp.mps, prp.memList)
      requires var s := Segments(ram[..], prp.mps, prp.prp1, prp.prp2, prp.memList, prp.memList);
               s.Some? ==>
                 InRam(ram[..], prp.mps, s.value) && forall i :: 0 <= i < |s.value| ==> s.value[i].size == prp.mps
      ensures var s := Segments(ram[..], prp.mps, prp.prp1, prp.prp2, prp.memList, prp.memList);
              if s.None? then data == None
              else data == Some(if bytes <= |s.value| * prp.mps then Buffer(ram[..], prp.mps, s.value)[..bytes]
                                else Buffer(ram[..], prp.mps, s.value))
    {
      var buffer := prp.GetDataBuffer(ram);
      if buffer.None? {
        return None;
      }
      data := Some(Slice(buffer.value, 0, bytes));
      SliceFront(buffer.value, bytes);
    }

    /** The slice assignment, once the lengths agree. */
    method Assign(lba: nat, n: nat, data: seq<byte>)
      requires Valid() && (lba + n) * blockSize <= mm.Length && |data| == n * blockSize
      modifies mm
      ensures mm[..] == Splice(old(mm[..]), blockSize, lba, n, data)
    {
      MulAdd(lba, n, blockSize);
      var startByte := lba * blockSize;
      forall k | 0 <= k < |data| {
        mm[startByte + k] := data[k];
      }
    }
  }

  /** Memory behind the two addresses of an IO command: a PRP laid out for exactly the pages
      `bytes` needs, at most one list page of them. With two pages the second one must be
      zero, since it is read as a list. */
  ghost predicate Described(ram: seq<byte>, mps: nat, mem: seq<Loc>, bytes: nat, prp1: nat, prp2: nat) {
    && Ready(ram, mps, mem) && Identity(mem) && 0 < bytes
    && var pages := Ceil(bytes, mps);
    && pages <= mps / 8 && |mem| == (if pages <= 2 then pages else pages + 1)
    && prp1 == mem[0].iova && prp2 == SecondAddress(mem)
  }

  lemma DescribedSegments(ram: seq<byte>, mps: nat, mem: seq<Loc>, bytes: nat, prp1: nat, prp2: nat)
    requires Described(ram, mps, mem, bytes, prp1, prp2)
    ensures InRam(ram, mps, DevicePages(ram, mps, mem))
    ensures Segments(ram, mps, prp1, prp2, DevicePages(ram, mps, mem), DevicePages(ram, mps, mem))
            == Some(Transferred(mem))
    ensures Segments(ram, mps, prp1, prp2, mem, mem) == Some(Transferred(mem))
    ensures InRam(ram, mps, Transferred(mem)) && Disjoint(mps, Transferred(mem))
    ensures forall i :: 0 <= i < |Transferred(mem)| ==> Transferred(mem)[i].size == mps
  {
    ReadyFinds(ram, mps, mem);
    if |mem| == 2 {
      assert DevicePages(ram, mps, mem) == mem;
    } else {
      DeviceFindsPages(ram, mps, mem);
    }
  }

  /** The page list a handler rebuilds from the two addresses of a command; None is an
      assertion on a zero address. */
  function Collected(ram: seq<byte>, mps: nat, bytes: nat, prp1: nat, prp2: nat): Option<seq<Loc>>
    requires 0 < mps && (Ceil(bytes, mps) > 2 ==> prp2 + mps <= |ram|)
  {
    var pages := Ceil(bytes, mps);
    if prp1 == 0 || (pages != 1 && prp2 == 0) then None
    else if pages > 2 then Some(Locations([prp1, prp2] + Words(ram, prp2, mps), mps))
    else if pages == 2 then Some(Locations([prp1, prp2], mps))
    else Some(Locations([prp1], mps))
  }

  /** Every address a handler is given, and every word of the list page, is memory. */
  predicate Mapped(ram: seq<byte>, mps: nat, bytes: nat, prp1: nat, prp2: nat) {
    && 16 <= mps && 0 < bytes && (Ceil(bytes, mps) > 2 ==> prp2 + mps <= |ram|)
    && var list := Collected(ram, mps, bytes, prp1, prp2);
    && (list.Some? ==> InRam(ram, mps, list.value))
  }

  /** The pages a handler transfers, or None when one of the assertions fires. */
  function Found(ram: seq<byte>, mps: nat, bytes: nat, prp1: nat, prp2: nat): Option<seq<Loc>>
    requires Mapped(ram, mps, bytes, prp1, prp2)
  {
    var list := Collected(ram, mps, bytes, prp1, prp2);
    if list.None? then None
    else Segments(ram, mps, prp1, if Ceil(bytes, mps) == 1 then 0 else prp2, list.value, list.value)
  }

  /** What a Write comes to: a status code, or None for an exception. */
  function WriteStatus(ram: seq<byte>, mps: nat, bs: nat, lbas: nat, slba: nat, nlb: nat, prp1: nat,
                       prp2: nat): Option<nat> {
    var bytes := (nlb + 1) * bs;
    if slba + nlb + 1 > lbas then Some(LBA_OUT_OF_RANGE)
    else if !Mapped(ram, mps, bytes, prp1, prp2) then None
    else
      var found := Found(ram, mps, bytes, prp1, prp2);
      if found.Some? && bytes <= |found.value| * mps then Some(SUCCESSFUL_COMPLETION) else None
  }

  /** How a handler ended, as the dispatch loop sees it. */
  function StatusOf(r: HandlerResult): Option<nat> {
    if r.Raised? then None else Some(r.sc)
  }

  lemma {:induction false} FindAllFrom(mem: seq<Loc>, d: nat)
    ensures forall p :: p in FindAll(mem, d) ==> p in mem
  {
    if mem != [] {
      FindAllFrom(mem[1..], d);
    }
  }

  lemma {:induction false} ListFrom(words: seq<nat>, mem: seq<Loc>)
    ensures var r := ListSegments(words, mem); r.Some? ==> forall p :: p in r.value ==> p in mem
  {
    if words != [] {
      ListFrom(words[1..], mem);
      FindAllFrom(mem, words[0]);
    }
  }

  /** Only listed pages are transferred. */
  lemma {:induction false} SegmentsFrom(ram: seq<byte>, mps: nat, prp1: nat, prp2: nat, mem: seq<Loc>, pages: seq<Loc>)
    requires InRam(ram, mps, pages) && forall p :: p in pages ==> p in mem
    ensures var r := Segments(ram, mps, prp1, prp2, mem, pages); r.Some? ==> forall p :: p in r.value ==> p in mem
  {
    if pages != [] {
      SegmentsFrom(ram, mps, prp1, prp2, mem, pages[1..]);
      ListFrom(Words(ram, pages[0].vaddr, mps), mem);
    }
  }

  lemma FoundInRam(ram: seq<byte>, mps: nat, bytes: nat, prp1: nat, prp2: nat)
    requires Mapped(ram, mps, bytes, prp1, prp2) && Found(ram, mps, bytes, prp1, prp2).Some?
    ensures var s := Found(ram, mps, bytes, prp1, prp2).value;
            InRam(ram, mps, s) && forall i :: 0 <= i < |s| ==> s[i].size == mps
  {
    var list, s := Collected(ram, mps, bytes, prp1, prp2).value, Found(ram, mps, bytes, prp1, prp2).value;
    SegmentsFrom(ram, mps, prp1, if Ceil(bytes, mps) == 1 then 0 else prp2, list, list);
    forall i | 0 <= i < |s|
      ensures s[i].vaddr + mps <= |ram| && s[i].size == mps
    {
      assert s[i] in s && s[i] in list;
    }
  }

  /** The device-side PRP object of a handler, rebuilt from the command. */
  method Rebuild(bytes: nat, mps: nat, prp1: nat, prp2: nat, ram: array<byte>) returns (prp: PRP, ok: bool)
    requires Mapped(ram[..], mps, bytes, prp1, prp2)
    ensures fresh(prp) && prp.mps == mps && (ok <==> Collected(ram[..], mps, bytes, prp1, prp2).Some?)
    ensures ok ==> prp.prp1 == prp1 && prp.prp2 == (if Ceil(bytes, mps) == 1 then 0 else prp2)
    ensures ok ==> Some(prp.memList) == Collected(ram[..], mps, bytes, prp1, prp2)
  {
    prp := new PRP(bytes, mps);
    prp.TakesNeeded();
    ok := prp.FromAddress(prp1, prp2, ram);
    if ok {
      assert Locations([prp1], mps) == [prp.At(prp1)];
      assert Locations([prp1, prp2], mps) == [prp.At(prp1), prp.At(prp2)];
      if Ceil(bytes, mps) > 2 {
        var words := Words(ram[..], prp2, mps);
        assert Locations([prp1, prp2] + words, mps) == Locations([prp1, prp2], mps) + Locations(words, mps);
      }
    }
  }

  /** `NVSimWrite`. Out of range nothing changes; in range the handler raises exactly when no
      page list can be made of the addresses or its pages hold less than the command asks
      for, and otherwise stores the front of those pages at the addressed blocks. */
  method NVSimWrite(ns: Namespace, slba: nat, nlb: nat, prp1: nat, prp2: nat, mps: nat, ram: array<byte>)
    returns (r: HandlerResult)
    requires ns.Valid() && Mapped(ram[..], mps, (nlb + 1) * ns.blockSize, prp1, prp2)
    modifies ns.mm
    ensures StatusOf(r) == WriteStatus(old(ram[..]), mps, ns.blockSize, ns.numLbas, slba, nlb, prp1, prp2)
    ensures slba + nlb + 1 > ns.numLbas ==> r == Completed(0x80) && ns.mm[..] == old(ns.mm[..])
    ensures slba + nlb + 1 <= ns.numLbas ==>
              var bytes := (nlb + 1) * ns.blockSize;
              var found := Found(old(ram[..]), mps, bytes, prp1, prp2);
              && (slba + (nlb + 1)) * ns.blockSize <= ns.mm.Length
              && r == (if found.Some? && bytes <= |found.value| * mps then Completed(0x00) else Raised)
              && (r == Raised ==> ns.mm[..] == old(ns.mm[..]))
              && (r != Raised ==>
                    && InRam(old(ram[..]), mps, found.value)
                    && ns.mm[..] == Splice(old(ns.mm[..]), ns.blockSize, slba, nlb + 1,
                                           Buffer(old(ram[..]), mps, found.value)[..bytes]))
  {
    if slba + nlb + 1 > ns.numLbas {
      return Completed(LBA_OUT_OF_RANGE);
    }
    MulMono(slba + (nlb + 1), ns.numLbas, ns.blockSize);
    var prp, ok := Rebuild((nlb + 1) * ns.blockSize, mps, prp1, prp2, ram);
    if !ok {
      return Raised;
    }
    if Found(ram[..], mps, (nlb + 1) * ns.blockSize, prp1, prp2).Some? {
      FoundInRam(ram[..], mps, (nlb + 1) * ns.blockSize, prp1, prp2);
    }
    ok := ns.Write(slba, nlb + 1, prp, ram);
    r := if ok then Completed(SUCCESSFUL_COMPLETION) else Raised;
  }

  /** `NVSimRead`. Out of range nothing changes; in range the handler raises exactly when no
      page list can be made of the addresses or the command ends inside a page that is not
      the only one, and otherwise lays the stored bytes over the pages it found. */
  method NVSimRead(ns: Namespace, slba: nat, nlb: nat, prp1: nat, prp2: nat, mps: nat, ram: array<byte>)
    returns (r: HandlerResult)
    requires ns.Valid() && Mapped(ram[..], mps, (nlb + 1) * ns.blockSize, prp1, prp2) && ns.mm != ram
    modifies ram
    ensures slba + nlb + 1 > ns.numLbas ==> r == Completed(0x80) && ram[..] == old(ram[..])
    ensures slba + nlb + 1 <= ns.numLbas ==>
              var bytes := (nlb + 1) * ns.blockSize;
              var found := Found(old(ram[..]), mps, bytes, prp1, prp2);
              && (slba + (nlb + 1)) * ns.blockSize <= ns.mm.Length
              && r == (if found.Some? && (bytes % mps == 0 || |found.value| * mps <= bytes || |found.value| <= 1)
                       then Completed(0x00) else Raised)
              && OnlyPages(old(ram[..]), ram[..], mps, if found.Some? then found.value else [])
              && (r != Raised ==>
                    && InRam(old(ram[..]), mps, found.value)
                    && ram[..] == Stored(old(ram[..]), mps, found.value, Blocks(ns.mm[..], ns.blockSize, slba, nlb + 1),
                                         |found.value|)
                    && (Disjoint(mps, found.value) ==>
                       var data := Blocks(ns.mm[..], ns.blockSize, slba, nlb + 1);
                       && Buffer(ram[..], mps, found.value) == Over(data, Buffer(old(ram[..]), mps, found.value))
                       && Overlaid(data, Buffer(old(ram[..]), mps, found.value), Buffer(ram[..], mps, found.value))))
  {
    if slba + nlb + 1 > ns.numLbas {
      return Completed(LBA_OUT_OF_RANGE);
    }
    MulMono(slba + (nlb + 1), ns.numLbas, ns.blockSize);
    var prp, ok := Rebuild((nlb + 1) * ns.blockSize, mps, prp1, prp2, ram);
    if !ok {
      return Raised;
    }
    if Found(ram[..], mps, (nlb + 1) * ns.blockSize, prp1, prp2).Some? {
      FoundInRam(ram[..], mps, (nlb + 1) * ns.blockSize, prp1, prp2);
      OverIs(Blocks(ns.mm[..], ns.blockSize, slba, nlb + 1),
             Buffer(ram[..], mps, Found(ram[..], mps, (nlb + 1) * ns.blockSize, prp1, prp2).value));
    }
    ok := ns.Read(slba, nlb + 1, prp, ram);
    r := if ok then Completed(SUCCESSFUL_COMPLETION) else Raised;
  }

  // ---- The handlers on a PRP the host laid out --------------------------------------

  lemma DescribedFound(ram: seq<byte>, mps: nat, mem: seq<Loc>, bytes: nat, prp1: nat, prp2: nat)
    requires Described(ram, mps, mem, bytes, prp1, prp2)
    ensures Mapped(ram, mps, bytes, prp1, prp2) && Found(ram, mps, bytes, prp1, prp2) == Some(Transferred(mem))
    ensures InRam(ram, mps, Transferred(mem)) && Disjoint(mps, Transferred(mem))
  {
    DescribedSegments(ram, mps, mem, bytes, prp1, prp2);
  }

  /** The transferred pages cover the command except when there are two of them. */
  lemma PagesCover(bytes: nat, mps: nat, mem: seq<Loc>)
    requires 0 < mps && 0 < bytes
    requires |mem| == (if Ceil(bytes, mps) <= 2 then Ceil(bytes, mps) else Ceil(bytes, mps) + 1)
    ensures bytes <= |Transferred(mem)| * mps <==> |mem| != 2
    ensures |mem| != 2 ==> |Transferred(mem)| == Ceil(bytes, mps) && |Transferred(mem)| * mps < bytes + mps
    ensures (bytes % mps == 0 || |Transferred(mem)| * mps <= bytes || |Transferred(mem)| <= 1)
            <==> bytes % mps == 0 || |mem| <= 2
  {
    var pages, x := Ceil(bytes, mps), bytes + mps - 1;
    assert x == pages * mps + x % mps;
    if |mem| > 2 && |Transferred(mem)| * mps <= bytes {
      assert bytes == pages * mps + 0;
      DivModUnique(bytes, mps, pages, 0);
    }
  }

  /** For a PRP as the host lays it out a Write in range raises exactly for two pages. */
  lemma DescribedStatus(ram: seq<byte>, mps: nat, mem: seq<Loc>, bs: nat, lbas: nat, slba: nat, nlb: nat, prp1: nat,
                        prp2: nat)
    requires Described(ram, mps, mem, (nlb + 1) * bs, prp1, prp2)
    ensures WriteStatus(ram, mps, bs, lbas, slba, nlb, prp1, prp2) ==
            if slba + nlb + 1 > lbas then Some(LBA_OUT_OF_RANGE)
            else if |mem| == 2 then None else Some(SUCCESSFUL_COMPLETION)
  {
    DescribedFound(ram, mps, mem, (nlb + 1) * bs, prp1, prp2);
    PagesCover((nlb + 1) * bs, mps, mem);
  }

  /** A Write of a PRP as the host lays it out raises exactly for two pages, of which only the
      first is found, and otherwise stores the pages. */
  method WriteDescribed(ns: Namespace, slba: nat, nlb: nat, prp1: nat, prp2: nat, mps: nat, ram: array<byte>,
                        ghost mem: seq<Loc>)
    returns (r: HandlerResult)
    requires ns.Valid() && Described(ram[..], mps, mem, (nlb + 1) * ns.blockSize, prp1, prp2)
    modifies ns.mm
    ensures slba + nlb + 1 > ns.numLbas ==> r == Completed(LBA_OUT_OF_RANGE) && ns.mm[..] == old(ns.mm[..])
    ensures slba + nlb + 1 <= ns.numLbas ==>
              && InRam(old(ram[..]), mps, Transferred(mem)) && (slba + (nlb + 1)) * ns.blockSize <= ns.mm.Length
              && r == (if |mem| == 2 then Raised else Completed(SUCCESSFUL_COMPLETION))
              && (r == Raised ==> ns.mm[..] == old(ns.mm[..]))
              && (r != Raised ==>
                    && (nlb + 1) * ns.blockSize <= |Transferred(mem)| * mps
                    && ns.mm[..] == Splice(old(ns.mm[..]), ns.blockSize, slba, nlb + 1,
                                           old(Buffer(ram[..], mps, Transferred(mem)))[..(nlb + 1) * ns.blockSize]))
  {
    DescribedFound(ram[..], mps, mem, (nlb + 1) * ns.blockSize, prp1, prp2);
    PagesCover((nlb + 1) * ns.blockSize, mps, mem);
    r := NVSimWrite(ns, slba, nlb, prp1, prp2, mps, ram);
  }

  /** A Read into such a PRP raises exactly when more than two pages end inside a page, and
      otherwise lays the stored bytes over the transferred pages: all of them, but only the
      first of two. */
  method ReadDescribed(ns: Namespace, slba: nat, nlb: nat, prp1: nat, prp2: nat, mps: nat, ram: array<byte>,
                       ghost mem: seq<Loc>)
    returns (r: HandlerResult)
    requires ns.Valid() && Described(ram[..], mps, mem, (nlb + 1) * ns.blockSize, prp1, prp2) && ns.mm != ram
    modifies ram
    ensures slba + nlb + 1 > ns.numLbas ==> r == Completed(LBA_OUT_OF_RANGE) && ram[..] == old(ram[..])
    ensures slba + nlb + 1 <= ns.numLbas ==>
              && InRam(old(ram[..]), mps, Transferred(mem)) && (slba + (nlb + 1)) * ns.blockSize <= ns.mm.Length
              && r == (if |mem| > 2 && ((nlb + 1) * ns.blockSize) % mps != 0 then Raised
                    else Completed(SUCCESSFUL_COMPLETION))
              && OnlyPages(old(ram[..]), ram[..], mps, Transferred(mem))
              && (r != Raised ==>
                    var data := Blocks(ns.mm[..], ns.blockSize, slba, nlb + 1);
                    && Buffer(ram[..], mps, Transferred(mem)) ==
                         Over(data, old(Buffer(ram[..], mps, Transferred(mem))))
                    && Overlaid(data, old(Buffer(ram[..], mps, Transferred(mem))),
                                Buffer(ram[..], mps, Transferred(mem))))
  {
    DescribedFound(ram[..], mps, mem, (nlb + 1) * ns.blockSize, prp1, prp2);
    PagesCover((nlb + 1) * ns.blockSize, mps, mem);
    r := NVSimRead(ns, slba, nlb, prp1, prp2, mps, ram);
  }
}
