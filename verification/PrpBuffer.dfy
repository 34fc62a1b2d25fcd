/** The `PRP` object: allocation, reconstruction on the device side, and data transfer. */
module PrpBuffer {
  import opened Options
  import opened Ring
  import opened Bytes
  import opened Prp

  // ---- Buffers ----------------------------------------------------------------------

  lemma {:induction false} BufferFrame(ram: seq<byte>, ram': seq<byte>, mps: nat, pages: seq<Loc>)
    requires InRam(ram, mps, pages) && |ram'| == |ram|
    requires forall i, k :: 0 <= i < |pages| && pages[i].vaddr <= k < pages[i].vaddr + mps ==> ram'[k] == ram[k]
    ensures Buffer(ram', mps, pages) == Buffer(ram, mps, pages)
  {
    if pages != [] {
      var n := |pages| - 1;
      BufferFrame(ram, ram', mps, pages[..n]);
      var v := pages[n].vaddr;
      assert ram'[v..v + mps] == ram[v..v + mps];
    }
  }

  /** Data laid over two pieces is its front over the first and the rest over the second. */
  lemma OverSplit(data: seq<byte>, a: seq<byte>, b: seq<byte>)
    ensures Over(data, a + b) == Over(data, a) + Over(if |a| < |data| then data[|a|..] else [], b)
  {
  }

  lemma OverStep(data: seq<byte>, i: nat, a: seq<byte>, b: seq<byte>, a': seq<byte>, b': seq<byte>, whole: seq<byte>,
                 whole': seq<byte>)
    requires i == |a| && a' == Over(data, a) && b' == Over(Rest(data, i), b)
    requires whole == a + b && whole' == a' + b'
    ensures whole' == Over(data, whole)
  {
    OverSplit(data, a, b);
  }

  /** ram' differs from ram on the pages only. */
  ghost predicate OnlyPages(ram: seq<byte>, ram': seq<byte>, mps: nat, pages: seq<Loc>) {
    |ram'| == |ram| && forall k :: 0 <= k < |ram| && Outside(mps, pages, k) ==> ram'[k] == ram[k]
  }

  /** ram' differs from ram on one page only. */
  ghost predicate OnlyPage(ram: seq<byte>, ram': seq<byte>, v: nat, mps: nat) {
    |ram'| == |ram| && forall k :: 0 <= k < |ram| && !(v <= k < v + mps) ==> ram'[k] == ram[k]
  }

  lemma OnlyPagesGrows(ram: seq<byte>, mid: seq<byte>, ram': seq<byte>, mps: nat, segments: seq<Loc>, n: nat)
    requires n < |segments| && OnlyPages(ram, mid, mps, segments[..n]) && OnlyPage(mid, ram', segments[n].vaddr, mps)
    ensures OnlyPages(ram, ram', mps, segments[..n + 1])
  {
    forall k | 0 <= k < |ram| && Outside(mps, segments[..n + 1], k)
      ensures ram'[k] == ram[k]
    {
      assert segments[..n + 1][n] == segments[n];
      assert forall i :: 0 <= i < n ==> segments[..n + 1][i] == segments[..n][i];
      assert Outside(mps, segments[..n], k);
    }
  }

  lemma OnlyPagesMore(ram: seq<byte>, ram': seq<byte>, mps: nat, segments: seq<Loc>, n: nat)
    requires n <= |segments| && OnlyPages(ram, ram', mps, segments[..n])
    ensures OnlyPages(ram, ram', mps, segments)
  {
    forall k | 0 <= k < |ram| && Outside(mps, segments, k)
      ensures ram'[k] == ram[k]
    {
      assert Outside(mps, segments[..n], k);
    }
  }

  lemma PageUntouched(ram: seq<byte>, mid: seq<byte>, mps: nat, segments: seq<Loc>, n: nat)
    requires n < |segments| && InRam(ram, mps, segments) && Disjoint(mps, segments)
    requires OnlyPages(ram, mid, mps, segments[..n])
    ensures var v := segments[n].vaddr; mid[v..v + mps] == ram[v..v + mps]
  {
    var v := segments[n].vaddr;
    forall k | v <= k < v + mps
      ensures mid[k] == ram[k]
    {
      assert Outside(mps, segments[..n], k);
    }
  }

  lemma EarlierPagesKept(mid: seq<byte>, ram': seq<byte>, mps: nat, segments: seq<Loc>, n: nat)
    requires n < |segments| && InRam(mid, mps, segments) && Disjoint(mps, segments)
    requires OnlyPage(mid, ram', segments[n].vaddr, mps)
    ensures Buffer(ram', mps, segments[..n]) == Buffer(mid, mps, segments[..n])
  {
    forall i, k | 0 <= i < n && segments[i].vaddr <= k < segments[i].vaddr + mps
      ensures ram'[k] == mid[k]
    {
    }
    BufferFrame(mid, ram', mps, segments[..n]);
  }

  lemma BufferSnoc(ram: seq<byte>, mps: nat, segments: seq<Loc>, n: nat)
    requires InRam(ram, mps, segments) && n < |segments|
    ensures var v := segments[n].vaddr;
            Buffer(ram, mps, segments[..n + 1]) == Buffer(ram, mps, segments[..n]) + ram[v..v + mps]
  {
    assert segments[..n + 1][..n] == segments[..n];
  }

  /** Storing page n of the segments extends the buffer written so far by one page. */
  lemma BufferGrows(ram: seq<byte>, mid: seq<byte>, ram': seq<byte>, mps: nat, segments: seq<Loc>, n: nat, i: nat,
                    data: seq<byte>)
    requires InRam(ram, mps, segments) && n < |segments| && Disjoint(mps, segments)
    requires i == |Buffer(ram, mps, segments[..n])|
    requires OnlyPages(ram, mid, mps, segments[..n]) && OnlyPage(mid, ram', segments[n].vaddr, mps)
    requires Buffer(mid, mps, segments[..n]) == Over(data, Buffer(ram, mps, segments[..n]))
    requires var v := segments[n].vaddr;
             ram'[v..v + mps] == Over(Rest(data, i), mid[v..v + mps])
    ensures Buffer(ram', mps, segments[..n + 1]) == Over(data, Buffer(ram, mps, segments[..n + 1]))
  {
    var v := segments[n].vaddr;
    BufferPieces(ram, mid, ram', mps, segments, n);
    OverStep(data, i, Buffer(ram, mps, segments[..n]), mid[v..v + mps], Buffer(mid, mps, segments[..n]),
        ram'[v..v + mps],
             Buffer(ram, mps, segments[..n + 1]), Buffer(ram', mps, segments[..n + 1]));
  }

  /** What the buffer is made of before and after page n is stored. */
  lemma BufferPieces(ram: seq<byte>, mid: seq<byte>, ram': seq<byte>, mps: nat, segments: seq<Loc>, n: nat)
    requires InRam(ram, mps, segments) && n < |segments| && Disjoint(mps, segments)
    requires OnlyPages(ram, mid, mps, segments[..n]) && OnlyPage(mid, ram', segments[n].vaddr, mps)
    ensures var v := segments[n].vaddr;
            && Buffer(ram, mps, segments[..n + 1]) == Buffer(ram, mps, segments[..n]) + mid[v..v + mps]
            && Buffer(ram', mps, segments[..n + 1]) == Buffer(mid, mps, segments[..n]) + ram'[v..v + mps]
  {
    BufferSnoc(ram, mps, segments, n);
    BufferSnoc(ram', mps, segments, n);
    EarlierPagesKept(mid, ram', mps, segments, n);
    PageUntouched(ram, mid, mps, segments, n);
  }

  /** Page t of a transfer of `size` bytes does not raise. */
  predicate PageOk(t: nat, size: nat, mps: nat) {
    t * mps + mps <= size || t == 0 || t * mps == size || size + mps <= t * mps
  }

  /** No page raises if and only if the data is a whole number of pages, or covers every
      page, or there is at most one page. */
  lemma AllPagesOk(n: nat, size: nat, mps: nat)
    requires 0 < mps
    ensures (forall t: nat :: t < n ==> PageOk(t, size, mps)) <==> size % mps == 0 || n * mps <= size || n <= 1
  {
    var q := size / mps;
    assert size == q * mps + size % mps;
    if size % mps == 0 || n * mps <= size || n <= 1 {
      forall t: nat | t < n
        ensures PageOk(t, size, mps)
      {
        Steps(t, q, mps);
        Steps(n, t, mps);
      }
    } else {
      Steps(n, q, mps);
      assert q < n;
      if q == 0 {
        assert !PageOk(1, size, mps);
      } else {
        Steps(0, q, mps);
        assert !PageOk(q, size, mps);
      }
    }
  }

  lemma Steps(a: nat, b: nat, m: nat)
    ensures a < b ==> a * m + m <= b * m
    ensures b < a ==> b * m + m <= a * m
  {
    if a < b {
      MulMono(a + 1, b, m);
    } else if b < a {
      MulMono(b + 1, a, m);
    }
  }

  /** Storing word i of a list leaves the words before it alone. */
  lemma WordsKept(mid: seq<byte>, after: seq<byte>, list: nat, i: nat)
    requires |mid| == |after| && list + 8 * i + 8 <= |mid|
    requires forall k :: 0 <= k < |mid| && !(list + 8 * i <= k < list + 8 * i + 8) ==> after[k] == mid[k]
    ensures forall j :: 0 <= j < i ==> Word(after, list + 8 * j) == Word(mid, list + 8 * j)
  {
    forall j | 0 <= j < i
      ensures Word(after, list + 8 * j) == Word(mid, list + 8 * j)
    {
      assert after[list + 8 * j..list + 8 * j + 8] == mid[list + 8 * j..list + 8 * j + 8];
    }
  }

  /** The pages a list of words refers to on the device side, where an address is its own
      IOVA. */
  function Locations(words: seq<nat>, mps: nat): (r: seq<Loc>)
    ensures |r| == |words|
  {
    seq(|words|, i requires 0 <= i < |words| => Loc(words[i], words[i], mps))
  }

  /** What has been collected, followed by what is still to come. */
  function Join(found: seq<Loc>, rest: Option<seq<Loc>>): Option<seq<Loc>> {
    if rest.None? then None else Some(found + rest.value)
  }

  lemma JoinParts(a: seq<Loc>, b: seq<Loc>, rest: Option<seq<Loc>>)
    ensures Join(a + b, rest) == Join(a, Join(b, rest))
  {
    if rest.Some? {
      assert a + b + rest.value == a + (b + rest.value);
    }
  }

  /** Overwrites the front of the page at v with a source of n bytes. */
  method StoreFront(ram: array<byte>, v: nat, mps: nat, source: seq<byte>)
    requires v + mps <= ram.Length && |source| <= mps
    modifies ram
    ensures OnlyPage(old(ram[..]), ram[..], v, mps)
    ensures ram[v..v + mps] == source + old(ram[v..v + mps])[|source|..]
  {
    forall k | 0 <= k < |source| {
      ram[v + k] := source[k];
    }
  }

  /** The body of the loop of `set_data_buffer`: a slice assignment into one page. */
  method StorePage(ram: array<byte>, mps: nat, segment: Loc, data: seq<byte>, i: nat) returns (ok: bool)
    requires segment.vaddr + mps <= ram.Length && segment.size == mps
    modifies ram
    ensures OnlyPage(old(ram[..]), ram[..], segment.vaddr, mps)
    ensures ok <==> Filled(old(ram[segment.vaddr..segment.vaddr + mps]), data, i).Some?
    ensures ok ==> Filled(old(ram[segment.vaddr..segment.vaddr + mps]), data, i) ==
                   Some(ram[segment.vaddr..segment.vaddr + mps])
  {
    var dataLen: int;
    if i + segment.size > |data| {
      dataLen := |data| - i;
    } else {
      dataLen := i + segment.size;
    }
    var target := Clamp(mps, dataLen);
    var source := Slice(data, i, dataLen);
    if |source| != target {
      return false;
    }
    StoreFront(ram, segment.vaddr, mps, source);
    ok := true;
  }

  /** One page of a transfer: what the slice assignment stored, as data laid over a page. */
  lemma PageStored(page: seq<byte>, data: seq<byte>, n: nat, i: nat, mps: nat)
    requires |page| == mps && i == n * mps
    ensures Filled(page, data, i).Some? <==> PageOk(n, |data|, mps)
    ensures Filled(page, data, i).Some? ==>
              Filled(page, data, i).value == Over(Rest(data, i), page)
  {
    Steps(0, n, mps);
    FilledExact(page, data, i);
    if mps == 0 {
      assert i == 0;
    }
  }

  /** Bytes of n pages. */
  function Offset(n: nat, mps: nat): nat {
    if n == 0 then 0 else Offset(n - 1, mps) + mps
  }

  function Rest(data: seq<byte>, i: nat): seq<byte> {
    if i < |data| then data[i..] else []
  }

  lemma {:induction false} OffsetIs(n: nat, mps: nat)
    ensures Offset(n, mps) == n * mps
  {
    if n > 0 {
      OffsetIs(n - 1, mps);
    }
  }

  /** The byte of the data that falls on address a, when the page starts at byte i of the data. */
  function ByteFor(mps: nat, page: Loc, data: seq<byte>, i: nat, a: nat): Option<byte> {
    if page.vaddr <= a < page.vaddr + mps && i + (a - page.vaddr) < |data| then Some(data[i + (a - page.vaddr)])
    else None
  }

  /** The byte for address a on the last of the first n pages that has one, and `own` when
      there is none. */
  function LastByte(mps: nat, segments: seq<Loc>, data: seq<byte>, n: nat, a: nat, own: byte): byte
    requires n <= |segments|
  {
    if n == 0 then own
    else
      var b := ByteFor(mps, segments[n - 1], data, Offset(n - 1, mps), a);
      if b.Some? then b.value else LastByte(mps, segments, data, n - 1, a, own)
  }

  /** Memory after data was stored into the first n pages, one after the other: of pages that
      overlap the last one to get a byte wins. */
  ghost function Stored(ram: seq<byte>, mps: nat, segments: seq<Loc>, data: seq<byte>, n: nat): (r: seq<byte>)
    requires InRam(ram, mps, segments) && n <= |segments|
    ensures |r| == |ram|
  {
    seq(|ram|, a requires 0 <= a < |ram| => LastByte(mps, segments, data, n, a, ram[a]))
  }

  /** The data has no byte for address a on the pages from t up to n. */
  ghost predicate Spared(mps: nat, segments: seq<Loc>, data: seq<byte>, t: nat, n: nat, a: nat)
    requires n <= |segments|
  {
    forall u: nat :: t <= u < n ==> ByteFor(mps, segments[u], data, Offset(u, mps), a).None?
  }

  lemma {:induction false} LastSpares(mps: nat, segments: seq<Loc>, data: seq<byte>, t: nat, n: nat, a: nat, own: byte)
    requires t <= n <= |segments| && Spared(mps, segments, data, t, n, a)
    ensures LastByte(mps, segments, data, n, a, own) == LastByte(mps, segments, data, t, a, own)
    decreases n
  {
    if t < n {
      LastSpares(mps, segments, data, t, n - 1, a, own);
    }
  }

  /** An address keeps its own byte when the data has none for it, */
  lemma StoredKeeps(ram: seq<byte>, mps: nat, segments: seq<Loc>, data: seq<byte>, n: nat, a: nat)
    requires InRam(ram, mps, segments) && n <= |segments| && a < |ram| && Spared(mps, segments, data, 0, n, a)
    ensures Stored(ram, mps, segments, data, n)[a] == ram[a]
  {
    LastSpares(mps, segments, data, 0, n, a, ram[a]);
  }

  /** and otherwise gets the byte from the last page t that has one for it. */
  lemma StoredAt(ram: seq<byte>, mps: nat, segments: seq<Loc>, data: seq<byte>, n: nat, a: nat, t: nat)
    requires InRam(ram, mps, segments) && t < n <= |segments| && a < |ram|
    requires Spared(mps, segments, data, t + 1, n, a) && ByteFor(mps, segments[t], data, t * mps, a).Some?
    ensures Stored(ram, mps, segments, data, n)[a] == ByteFor(mps, segments[t], data, t * mps, a).value
  {
    LastSpares(mps, segments, data, t + 1, n, a, ram[a]);
    OffsetIs(t, mps);
  }

  ghost predicate StoredSoFar(ram: seq<byte>, mid: seq<byte>, mps: nat, segments: seq<Loc>, data: seq<byte>, n: nat,
                              i: nat)
    requires InRam(ram, mps, segments) && n <= |segments|
  {
    i == Offset(n, mps) && mid == Stored(ram, mps, segments, data, n)
  }

  /** One page, byte by byte. */
  lemma PageByte(mid: seq<byte>, ram': seq<byte>, mps: nat, page: Loc, data: seq<byte>, i: nat, a: nat)
    requires var v := page.vaddr;
             OnlyPage(mid, ram', v, mps) && v + mps <= |mid| && ram'[v..v + mps] == Over(Rest(data, i), mid[v..v + mps])
    requires a < |mid|
    ensures var b := ByteFor(mps, page, data, i, a); ram'[a] == if b.Some? then b.value else mid[a]
  {
    var v := page.vaddr;
    OverIs(Rest(data, i), mid[v..v + mps]);
    if v <= a < v + mps {
      assert ram'[v..v + mps][a - v] == ram'[a] && mid[v..v + mps][a - v] == mid[a];
    }
  }

  lemma StoredStep(ram: seq<byte>, mid: seq<byte>, ram': seq<byte>, mps: nat, segments: seq<Loc>, data: seq<byte>,
                   n: nat, i: nat)
    requires InRam(ram, mps, segments) && n < |segments| && StoredSoFar(ram, mid, mps, segments, data, n, i)
    requires var v := segments[n].vaddr;
             OnlyPage(mid, ram', v, mps) && v + mps <= |mid| && ram'[v..v + mps] == Over(Rest(data, i), mid[v..v + mps])
    ensures StoredSoFar(ram, ram', mps, segments, data, n + 1, i + mps)
  {
    var stored := Stored(ram, mps, segments, data, n + 1);
    forall a | 0 <= a < |ram|
      ensures ram'[a] == stored[a]
    {
      PageByte(mid, ram', mps, segments[n], data, i, a);
    }
  }

  /** The state of a transfer after n pages of i bytes in all. */
  ghost predicate FilledSoFar(ram: seq<byte>, mid: seq<byte>, mps: nat, segments: seq<Loc>, data: seq<byte>, n: nat,
                              i: nat)
    requires InRam(ram, mps, segments) && n <= |segments|
  {
    && i == |Buffer(ram, mps, segments[..n])|
    && OnlyPages(ram, mid, mps, segments[..n])
    && (Disjoint(mps, segments) ==> Buffer(mid, mps, segments[..n]) == Over(data, Buffer(ram, mps, segments[..n])))
  }

  lemma FillStep(ram: seq<byte>, mid: seq<byte>, ram': seq<byte>, mps: nat, segments: seq<Loc>, data: seq<byte>,
                 n: nat, i: nat)
    requires InRam(ram, mps, segments) && n < |segments|
    requires FilledSoFar(ram, mid, mps, segments, data, n, i)
    requires var v := segments[n].vaddr;
             && OnlyPage(mid, ram', v, mps)
             && Filled(mid[v..v + mps], data, i) == Some(ram'[v..v + mps])
    ensures FilledSoFar(ram, ram', mps, segments, data, n + 1, i + mps)
  {
    FillPageIs(ram, mid, ram', mps, segments, data, n, i);
    if Disjoint(mps, segments) {
      BufferGrows(ram, mid, ram', mps, segments, n, i, data);
    }
    OnlyPagesGrows(ram, mid, ram', mps, segments, n);
    BufferSnoc(ram, mps, segments, n);
  }

  lemma FilledIndex(ram: seq<byte>, mid: seq<byte>, mps: nat, segments: seq<Loc>, data: seq<byte>, n: nat, i: nat)
    requires InRam(ram, mps, segments) && n < |segments| && FilledSoFar(ram, mid, mps, segments, data, n, i)
    ensures i == n * mps && segments[n].vaddr + mps <= |mid|
  {
  }

  lemma FillPageIs(ram: seq<byte>, mid: seq<byte>, ram': seq<byte>, mps: nat, segments: seq<Loc>, data: seq<byte>,
                   n: nat, i: nat)
    requires InRam(ram, mps, segments) && n < |segments|
    requires FilledSoFar(ram, mid, mps, segments, data, n, i)
    requires var v := segments[n].vaddr;
             |ram'| == |mid| && Filled(mid[v..v + mps], data, i) == Some(ram'[v..v + mps])
    ensures var v := segments[n].vaddr; ram'[v..v + mps] == Over(Rest(data, i), mid[v..v + mps])
  {
    FilledIndex(ram, mid, mps, segments, data, n, i);
    PageStored(mid[segments[n].vaddr..segments[n].vaddr + mps], data, n, i, mps);
  }

  /** One turn of that loop, as part of the whole transfer. */
  method FillPage(ram: array<byte>, mps: nat, segments: seq<Loc>, data: seq<byte>, n: nat, i: nat,
                  ghost before: seq<byte>)
    returns (ok: bool)
    requires InRam(before, mps, segments) && |before| == ram.Length
    requires n < |segments| && segments[n].size == mps && FilledSoFar(before, ram[..], mps, segments, data, n, i)
    modifies ram
    ensures ok <==> PageOk(n, |data|, mps)
    ensures OnlyPages(before, ram[..], mps, segments)
    ensures ok ==> FilledSoFar(before, ram[..], mps, segments, data, n + 1, i + mps)
    ensures ok && StoredSoFar(before, old(ram[..]), mps, segments, data, n, i) ==>
              StoredSoFar(before, ram[..], mps, segments, data, n + 1, i + mps)
  {
    ghost var mid := ram[..];
    FillPageOk(before, mid, mps, segments, data, n, i);
    ok := StorePage(ram, mps, segments[n], data, i);
    FillFrame(before, mid, ram[..], mps, segments, n);
    if ok {
      FillStep(before, mid, ram[..], mps, segments, data, n, i);
      FillPageIs(before, mid, ram[..], mps, segments, data, n, i);
      if StoredSoFar(before, mid, mps, segments, data, n, i) {
        StoredStep(before, mid, ram[..], mps, segments, data, n, i);
      }
    }
  }

  lemma FillPageOk(ram: seq<byte>, mid: seq<byte>, mps: nat, segments: seq<Loc>, data: seq<byte>, n: nat, i: nat)
    requires InRam(ram, mps, segments) && n < |segments| && FilledSoFar(ram, mid, mps, segments, data, n, i)
    ensures Filled(mid[segments[n].vaddr..segments[n].vaddr + mps], data, i).Some? <==> PageOk(n, |data|, mps)
  {
    assert i == n * mps;
    PageStored(mid[segments[n].vaddr..segments[n].vaddr + mps], data, n, i, mps);
  }

  lemma FillFrame(ram: seq<byte>, mid: seq<byte>, ram': seq<byte>, mps: nat, segments: seq<Loc>, n: nat)
    requires n < |segments| && OnlyPages(ram, mid, mps, segments[..n]) && OnlyPage(mid, ram', segments[n].vaddr, mps)
    ensures OnlyPages(ram, ram', mps, segments)
  {
    OnlyPagesGrows(ram, mid, ram', mps, segments, n);
    OnlyPagesMore(ram, ram', mps, segments, n + 1);
  }

  /** The loop of `set_data_buffer`. Pages that overlap are written one after the other. */
  method FillPages(ram: array<byte>, mps: nat, segments: seq<Loc>, data: seq<byte>) returns (ok: bool)
    requires 0 < mps && InRam(ram[..], mps, segments)
    requires forall i :: 0 <= i < |segments| ==> segments[i].size == mps
    modifies ram
    ensures ok <==> |data| % mps == 0 || |segments| * mps <= |data| || |segments| <= 1
    ensures OnlyPages(old(ram[..]), ram[..], mps, segments)
    ensures ok ==> ram[..] == Stored(old(ram[..]), mps, segments, data, |segments|)
    ensures ok && Disjoint(mps, segments) ==>
            Buffer(ram[..], mps, segments) == Over(data, Buffer(old(ram[..]), mps, segments))
  {
    ghost var before := ram[..];
    AllPagesOk(|segments|, |data|, mps);
    ok := FillEach(ram, mps, segments, data, before);
    assert segments[..|segments|] == segments;
  }

  ghost predicate PagesOk(n: nat, size: nat, mps: nat) {
    forall t: nat :: t < n ==> PageOk(t, size, mps)
  }

  lemma PagesOkNext(n: nat, size: nat, mps: nat)
    requires PagesOk(n, size, mps) && PageOk(n, size, mps)
    ensures PagesOk(n + 1, size, mps)
  {
    forall t: nat | t < n + 1
      ensures PageOk(t, size, mps)
    {
      if t != n {
        assert PageOk(t, size, mps);
      }
    }
  }

  method FillEach(ram: array<byte>, mps: nat, segments: seq<Loc>, data: seq<byte>, ghost before: seq<byte>)
    returns (ok: bool)
    requires 0 < mps && before == ram[..] && InRam(before, mps, segments)
    requires forall i :: 0 <= i < |segments| ==> segments[i].size == mps
    modifies ram
    ensures ok <==> PagesOk(|segments|, |data|, mps)
    ensures OnlyPages(before, ram[..], mps, segments)
    ensures ok ==> FilledSoFar(before, ram[..], mps, segments, data, |segments|, Offset(|segments|, mps))
    ensures ok ==> ram[..] == Stored(before, mps, segments, data, |segments|)
  {
    var i: nat := 0;
    for n := 0 to |segments|
      invariant FilledSoFar(before, ram[..], mps, segments, data, n, i)
      invariant StoredSoFar(before, ram[..], mps, segments, data, n, i)
      invariant PagesOk(n, |data|, mps)
    {
      ok := FillPage(ram, mps, segments, data, n, i, before);
      if !ok {
        return;
      }
      PagesOkNext(n, |data|, mps);
      i := i + segments[n].size;
    }
    assert segments[..|segments|] == segments;
    ok := true;
  }

  lemma SegmentsCons(ram: seq<byte>, mps: nat, prp1: nat, prp2: nat, mem: seq<Loc>, k: nat, found: seq<Loc>)
    requires InRam(ram, mps, mem) && k < |mem|
    ensures var first := PageSegments(ram, mps, prp1, prp2, mem, mem[k]);
            Join(found, Segments(ram, mps, prp1, prp2, mem, mem[k..])) ==
            if first.None? then None
            else Join(found + first.value, Segments(ram, mps, prp1, prp2, mem, mem[k + 1..]))
  {
    assert mem[k..][0] == mem[k] && mem[k..][1..] == mem[k + 1..];
    var first := PageSegments(ram, mps, prp1, prp2, mem, mem[k]);
    if first.Some? {
      JoinParts(found, first.value, Segments(ram, mps, prp1, prp2, mem, mem[k + 1..]));
    }
  }

  lemma ListCons(words: seq<nat>, mem: seq<Loc>, i: nat, found: seq<Loc>)
    requires i < |words|
    ensures Join(found, ListSegments(words[i..], mem)) ==
            if words[i] == 0 then Join(found, ListSegments(words[i + 1..], mem))
            else if |FindAll(mem, words[i])| != 1 then None
            else Join(found + [FindAll(mem, words[i])[0]], ListSegments(words[i + 1..], mem))
  {
    assert words[i..][0] == words[i] && words[i..][1..] == words[i + 1..];
    if words[i] != 0 && |FindAll(mem, words[i])| == 1 {
      JoinParts(found, [FindAll(mem, words[i])[0]], ListSegments(words[i + 1..], mem));
    }
  }

  /** The list page at `list` starts with the addresses of the given pages, and nothing else
      of the memory has changed. */
  ghost predicate ListWritten(before: seq<byte>, ram: seq<byte>, list: nat, pages: seq<Loc>) {
    && |ram| == |before| && list + 8 * |pages| <= |ram|
    && (forall j :: 0 <= j < |pages| ==> Word(ram, list + 8 * j) == pages[j].iova)
    && (forall k :: 0 <= k < |ram| && !(list <= k < list + 8 * |pages|) ==> ram[k] == before[k])
  }

  // ---- The object -------------------------------------------------------------------

  /** Whatever manager the pages come from: `malloc` of one page hands out the next of a
      list of pages. */
  class PageSource {
    var pool: seq<Loc>

    constructor (pool: seq<Loc>)
      ensures this.pool == pool
    {
      this.pool := pool;
    }

    method Malloc() returns (page: Loc)
      requires pool != []
      modifies this
      ensures page == old(pool)[0] && pool == old(pool)[1..]
    {
      page := pool[0];
      pool := pool[1..];
    }
  }

  /** Data pages among the pages of an allocated PRP. */
  function DataPages(mem: seq<Loc>): seq<Loc> {
    if |mem| <= 2 then mem else [mem[0]] + mem[2..]
  }

  class PRP {
    const numBytes: nat
    const mps: nat
    const prpsPerPage: nat
    const listsNeeded: nat
    const pagesNeeded: nat
    var prp1: nat
    var prp2: nat
    var memList: seq<Loc>

    constructor (numBytes: nat, mps: nat)
      requires 0 < numBytes && 16 <= mps
      ensures this.numBytes == numBytes && this.mps == mps && Sized()
      ensures prp1 == prp2 == 0 && memList == []
    {
      this.numBytes, this.mps := numBytes, mps;
      var pages := Ceil(numBytes, mps);
      var perPage := mps / 8 - 1;
      var lists := if pages > 2 then Ceil(pages - 1, perPage) else 0;
      prpsPerPage, listsNeeded, pagesNeeded := perPage, lists, pages + lists;
      prp1, prp2, memList := 0, 0, [];
    }

    /** The page arithmetic of the constructor. */
    ghost predicate Sized() {
      && 0 < numBytes && 16 <= mps && prpsPerPage == mps / 8 - 1
      && var pages := Ceil(numBytes, mps);
      && listsNeeded == (if pages > 2 then Ceil(pages - 1, prpsPerPage) else 0)
      && pagesNeeded == pages + listsNeeded
    }

    method MallocPage(mgr: PageSource) returns (mem: Loc)
      requires mgr.pool != []
      modifies this`memList, mgr
      ensures mem == old(mgr.pool)[0] && mgr.pool == old(mgr.pool)[1..]
      ensures memList == old(memList) + [mem]
    {
      mem := mgr.Malloc();
      memList := memList + [mem];
    }

    /** Pages `alloc` takes: all it needs, or what it got before giving up on a buffer that
        needs a second list page. */
    ghost function Takes(): nat
      requires Sized()
    {
      var pages := Ceil(numBytes, mps);
      if pages <= 2 then pages
      else if pages <= prpsPerPage + 1 then pages + 1
      else prpsPerPage + 2
    }

    /** Bytes still to cover after PRP1 and i list entries. */
    ghost function Remaining(i: nat): int {
      numBytes - (i + 1) * mps
    }

    lemma RemainingStep(i: nat)
      ensures Remaining(0) == numBytes - mps
      ensures 0 < i ==> Remaining(i) == Remaining(i - 1) - mps
    {
      if 0 < i {
        assert (i + 1) * mps == i * mps + mps;
      }
    }

    /** One turn of the allocation loop: entry i of the list names the next page. */
    method AddEntry(mgr: PageSource, ram: array<byte>, list: nat, i: nat, ghost before: seq<byte>,
                    ghost pages: seq<Loc>)
      requires mgr.pool != [] && mgr.pool[0].iova < Pow256(8) && list + 8 * i + 8 <= ram.Length
      requires |pages| == i && ListWritten(before, ram[..], list, pages)
      modifies this`memList, mgr, ram
      ensures mgr.pool == old(mgr.pool)[1..] && memList == old(memList) + [old(mgr.pool)[0]]
      ensures ListWritten(before, ram[..], list, pages + [old(mgr.pool)[0]])
    {
      ghost var mid := ram[..];
      var segment := MallocPage(mgr);
      StoreWord(ram, list + 8 * i, segment.iova);
      WordsKept(mid, ram[..], list, i);
    }

    /** The same, with the pages taken so far as the front of the pool. */
    method AddNext(mgr: PageSource, ram: array<byte>, list: nat, i: nat, ghost before: seq<byte>, ghost pool: seq<Loc>)
      requires i + 2 < |pool| && mgr.pool == pool[i + 2..] && memList == pool[..i + 2]
      requires pool[i + 2].iova < Pow256(8) && list + 8 * i + 8 <= ram.Length
      requires ListWritten(before, ram[..], list, pool[2..i + 2])
      modifies this`memList, mgr, ram
      ensures mgr.pool == pool[i + 3..] && memList == pool[..i + 3]
      ensures ListWritten(before, ram[..], list, pool[2..i + 3])
    {
      AddEntry(mgr, ram, list, i, before, pool[2..i + 2]);
      assert pool[2..i + 3] == pool[2..i + 2] + [pool[i + 2]];
    }

    /** The last branch of `alloc`: PRP1, a list page, and list entries until the buffer is
        covered or the list page is used up. */
    method AllocList(mgr: PageSource, ram: array<byte>) returns (ok: bool)
      requires Sized() && memList == [] && 2 < Ceil(numBytes, mps)
      requires Takes() <= |mgr.pool|
      requires InRam(ram[..], mps, mgr.pool) && forall i :: 0 <= i < |mgr.pool| ==> mgr.pool[i].iova < Pow256(8)
      modifies this, mgr, ram
      ensures ok <==> Ceil(numBytes, mps) <= prpsPerPage + 1
      ensures |memList| == Takes()
      ensures memList == old(mgr.pool)[..Takes()] && mgr.pool == old(mgr.pool)[Takes()..]
      ensures prp1 == memList[0].iova && prp2 == memList[1].iova
      ensures ListWritten(old(ram[..]), ram[..], memList[1].vaddr, memList[2..])
    {
      ghost var pool, before := mgr.pool, ram[..];
      var remBytes: int := numBytes;
      var mem := MallocPage(mgr);
      prp1 := mem.iova;
      remBytes := remBytes - mps;
      var list := MallocPage(mgr);
      prp2 := list.iova;
      ok := false;
      var i := 0;
      RemainingStep(0);
      FirstEntryNeeded();
      while i < prpsPerPage && !ok
        invariant 0 <= i <= prpsPerPage && i + 2 <= |pool|
        invariant !ok ==> i < prpsPerPage ==> i + 2 < Takes()
        invariant memList == pool[..i + 2] && mgr.pool == pool[i + 2..]
        invariant remBytes == Remaining(i)
        invariant ok <==> remBytes <= 0
        invariant ok ==> 0 < i && remBytes + mps > 0
        invariant prp1 == pool[0].iova && prp2 == pool[1].iova
        invariant ListWritten(before, ram[..], list.vaddr, pool[2..i + 2])
        decreases prpsPerPage - i, !ok
      {
        RemainingStep(i + 1);
        PagesLeft(i + 1, remBytes - mps);
        AddNext(mgr, ram, list.vaddr, i, before, pool);
        remBytes := remBytes - mps;
        ok := remBytes <= 0;
        i := i + 1;
      }
      PagesTaken(i, ok, remBytes);
    }

    lemma FirstEntryNeeded()
      requires Sized() && 2 < Ceil(numBytes, mps)
      ensures Remaining(0) > 0 && 0 < prpsPerPage && 2 < Takes()
    {
      RemainingStep(0);
      TakesNeeded();
      Steps(Ceil(numBytes, mps), 1, mps);
    }

    lemma PagesLeft(i: nat, remBytes: int)
      requires Sized() && 2 < Ceil(numBytes, mps) && remBytes == Remaining(i)
      ensures remBytes > 0 && i < prpsPerPage ==> i + 2 < Takes()
    {
      TakesNeeded();
      Steps(Ceil(numBytes, mps), i + 1, mps);
    }

    /** `alloc` succeeds exactly when one list page can address the buffer. */
    method Alloc(mgr: PageSource, ram: array<byte>) returns (ok: bool)
      requires Sized() && memList == [] && prp2 == 0
      requires Takes() <= |mgr.pool|
      requires InRam(ram[..], mps, mgr.pool) && forall i :: 0 <= i < |mgr.pool| ==> mgr.pool[i].iova < Pow256(8)
      modifies this, mgr, ram
      ensures ok <==> Ceil(numBytes, mps) <= prpsPerPage + 1
      ensures |memList| == Takes() && (ok ==> |memList| == pagesNeeded)
      ensures memList == old(mgr.pool)[..Takes()] && mgr.pool == old(mgr.pool)[Takes()..]
      ensures |memList| > 0 && prp1 == memList[0].iova && prp2 == (if |memList| == 1 then 0 else memList[1].iova)
      ensures |memList| <= 2 ==> ram[..] == old(ram[..])
      ensures |memList| > 2 ==> ListWritten(old(ram[..]), ram[..], memList[1].vaddr, memList[2..])
    {
      TakesNeeded();
      ghost var pool := mgr.pool;
      if pagesNeeded == 1 {
        var mem := MallocPage(mgr);
        prp1 := mem.iova;
        ok := true;
      } else if pagesNeeded == 2 {
        var mem := MallocPage(mgr);
        prp1 := mem.iova;
        mem := MallocPage(mgr);
        prp2 := mem.iova;
        ok := true;
      } else {
        ok := AllocList(mgr, ram);
      }
    }

    lemma TakesNeeded()
      requires Sized()
      ensures pagesNeeded == 1 <==> Ceil(numBytes, mps) == 1
      ensures pagesNeeded == 2 <==> Ceil(numBytes, mps) == 2
      ensures 0 < Ceil(numBytes, mps)
      ensures 2 < Ceil(numBytes, mps) <= prpsPerPage + 1 ==> listsNeeded == 1
      ensures numBytes <= Ceil(numBytes, mps) * mps < numBytes + mps
    {
      var pages := Ceil(numBytes, mps);
      var x := numBytes + mps - 1;
      assert x == pages * mps + x % mps;
      if pages > 2 {
        var y := pages - 1 + prpsPerPage - 1;
        assert y == Ceil(pages - 1, prpsPerPage) * prpsPerPage + y % prpsPerPage;
        if pages <= prpsPerPage + 1 {
          DivModUnique(y, prpsPerPage, 1, y - prpsPerPage);
        } else {
          assert Ceil(pages - 1, prpsPerPage) != 0;
        }
      }
    }

    lemma PagesTaken(i: nat, ok: bool, remBytes: int)
      requires Sized() && 2 < Ceil(numBytes, mps) && i <= prpsPerPage
      requires remBytes == Remaining(i) && (ok <==> remBytes <= 0)
      requires ok ==> 0 < i && remBytes + mps > 0
      requires !ok ==> i == prpsPerPage
      ensures ok <==> Ceil(numBytes, mps) <= prpsPerPage + 1
      ensures i + 2 == Takes()
    {
      TakesNeeded();
      var pages := Ceil(numBytes, mps);
      Steps(pages, i + 1, mps);
    }

    /** Pages `from_address` refers to: itself in DMA space, one page long. */
    function At(address: nat): Loc {
      Loc(address, address, mps)
    }

    /** `from_address`: rebuild the PRP on the device side from two raw addresses. The list
        page is taken in whole, zero words and all. */
    method FromAddress(address1: nat, address2: nat, ram: array<byte>) returns (ok: bool)
      requires Sized() && memList == [] && prp1 == prp2 == 0
      requires pagesNeeded > 2 ==> address2 + mps <= ram.Length
      modifies this
      ensures ok <==> address1 != 0 && (pagesNeeded == 1 || address2 != 0)
      ensures ok ==> prp1 == address1 && prp2 == (if pagesNeeded == 1 then 0 else address2)
      ensures ok ==> memList ==
                       if pagesNeeded == 1 then [At(address1)]
                       else if pagesNeeded == 2 then [At(address1), At(address2)]
                       else [At(address1), At(address2)] + Locations(Words(ram[..], address2, mps), mps)
    {
      if address1 == 0 {
        return false;
      }
      prp1 := address1;
      memList := memList + [At(prp1)];
      if pagesNeeded != 1 {
        if address2 == 0 {
          return false;
        }
        prp2 := address2;
        memList := memList + [At(prp2)];
        if pagesNeeded != 2 {
          var words := Words(ram[..], prp2, mps);
          for i := 0 to |words|
            invariant prp1 == address1 && prp2 == address2
            invariant memList == [At(address1), At(address2)] + Locations(words[..i], mps)
          {
            memList := memList + [At(words[i])];
            assert Locations(words[..i + 1], mps) == Locations(words[..i], mps) + [At(words[i])];
          }
          assert words[..|words|] == words;
        }
      }
      ok := true;
    }

    /** The inner loop of `get_data_segments`, over one list page. */
    method ListPages(words: seq<nat>, found: seq<Loc>) returns (r: Option<seq<Loc>>)
      ensures r == Join(found, ListSegments(words, memList))
    {
      var segments := found;
      assert words[0..] == words;
      for i := 0 to |words|
        invariant Join(found, ListSegments(words, memList)) == Join(segments, ListSegments(words[i..], memList))
      {
        ListCons(words, memList, i, segments);
        if words[i] != 0 {
          var p := FindAll(memList, words[i]);
          if |p| != 1 {
            return None;
          }
          segments := segments + [p[0]];
        }
      }
      r := Some(segments);
      assert segments + [] == segments;
    }

    /** `get_data_segments`; None is its assertion. */
    method GetDataSegments(ram: array<byte>) returns (r: Option<seq<Loc>>)
      requires InRam(ram[..], mps, memList)
      ensures r == Segments(ram[..], mps, prp1, prp2, memList, memList)
    {
      var segments: seq<Loc> := [];
      assert memList[0..] == memList;
      ghost var all := Segments(ram[..], mps, prp1, prp2, memList, memList);
      assert all.Some? ==> segments + all.value == all.value;
      for k := 0 to |memList|
        invariant all == Join(segments, Segments(ram[..], mps, prp1, prp2, memList, memList[k..]))
      {
        var page := memList[k];
        ghost var start := segments;
        SegmentsCons(ram[..], mps, prp1, prp2, memList, k, start);
        assert start + [] == start;
        if prp1 == page.iova {
          segments := segments + [page];
        }
        if prp2 == page.iova {
          ghost var list := ListSegments(Words(ram[..], page.vaddr, mps), memList);
          JoinParts(start, if prp1 == page.iova then [page] else [], list);
          var more := ListPages(Words(ram[..], page.vaddr, mps), segments);
          if more.None? {
            return None;
          }
          segments := more.value;
        }
      }
      r := Some(segments);
      assert segments + [] == segments;
    }

    /** `get_data_buffer`: every segment in full. */
    method GetDataBuffer(ram: array<byte>) returns (r: Option<seq<byte>>)
      requires InRam(ram[..], mps, memList)
      requires var s := Segments(ram[..], mps, prp1, prp2, memList, memList);
               s.Some? ==> InRam(ram[..], mps, s.value) && forall i :: 0 <= i < |s.value| ==> s.value[i].size == mps
      ensures var s := Segments(ram[..], mps, prp1, prp2, memList, memList);
              r == if s.None? then None else Some(Buffer(ram[..], mps, s.value))
    {
      var found := GetDataSegments(ram);
      if found.None? {
        return None;
      }
      var segments := found.value;
      var data: seq<byte> := [];
      var i := 0;
      for k := 0 to |segments|
        invariant data == Buffer(ram[..], mps, segments[..k]) && i == |data|
      {
        var segment := segments[k];
        var b := ram[segment.vaddr..segment.vaddr + mps];
        // Everything up to index i + size is assigned at i, which is the end of data.
        data := data + Slice(b, 0, i + segment.size);
        i := i + segment.size;
        BufferSnoc(ram[..], mps, segments, k);
      }
      assert segments[..|segments|] == segments;
      r := Some(data);
    }

    /** `set_data_buffer`. It raises on data that ends inside a page, unless that is the
        only page or the buffer is full by then; when it does not raise, the data is laid
        over the front of the buffer, and in no case is a byte outside the pages touched. */
    method SetDataBuffer(ram: array<byte>, data: seq<byte>) returns (ok: bool)
      requires 0 < mps && InRam(ram[..], mps, memList)
      requires var s := Segments(ram[..], mps, prp1, prp2, memList, memList);
               s.Some? ==>
                 && InRam(ram[..], mps, s.value)
                 && forall i :: 0 <= i < |s.value| ==> s.value[i].size == mps
      modifies ram
      ensures var s := old(Segments(ram[..], mps, prp1, prp2, memList, memList));
              && (ok <==> s.Some? && (|data| % mps == 0 || |s.value| * mps <= |data| || |s.value| <= 1))
              && OnlyPages(old(ram[..]), ram[..], mps, if s.Some? then s.value else [])
              && (ok ==> ram[..] == Stored(old(ram[..]), mps, s.value, data, |s.value|))
              && (ok && Disjoint(mps, s.value) ==>
                    Buffer(ram[..], mps, s.value) == Over(data, Buffer(old(ram[..]), mps, s.value)))
              && (ok && Disjoint(mps, s.value) ==>
                    var before, after := Buffer(old(ram[..]), mps, s.value), Buffer(ram[..], mps, s.value);
                    && (forall k :: 0 <= k < |data| && k < |after| ==> after[k] == data[k])
                    && (forall k :: |data| <= k < |after| ==> after[k] == before[k]))
    {
      var found := GetDataSegments(ram);
      if found.None? {
        return false;
      }
      OverIs(data, Buffer(ram[..], mps, found.value));
      ok := FillPages(ram, mps, found.value, data);
    }
  }
}
