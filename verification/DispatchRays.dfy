/** Shader tables of a ray dispatch: the size computed in advance, and the walk that copies each table
    into the patch buffer at a running offset. The size is 64 bits wide, the offset 32. */
module DispatchRays {
  import opened AddressMapping
  import opened Arithmetic

  datatype Table = Table(startAddress: Word, sizeInBytes: Word, strideInBytes: Word)
  {
    /** Absent tables take no space. */
    predicate Present() {
      startAddress != 0 && sizeInBytes != 0
    }

    /** A zero stride means one record. */
    function Stride(): (s: Word)
      requires Present()
      ensures s != 0
    {
      if strideInBytes == 0 then sizeInBytes else strideInBytes
    }

    function Count(): nat
      requires Present()
    {
      sizeInBytes / Stride()
    }

    /** Bytes copied: the stride and the count are cut to 32 bits, and so is their product. */
    function Bytes(): (n: nat)
      ensures n < TWO_TO_THE_32
    {
      if Present() then (Stride() % TWO_TO_THE_32) * (Count() % TWO_TO_THE_32) % TWO_TO_THE_32 else 0
    }
  }

  const ALIGNMENT := 64

  /** To the next multiple of the shader-table alignment. */
  function AlignUp(n: nat): nat {
    if n % ALIGNMENT == 0 then n else (n / ALIGNMENT + 1) * ALIGNMENT
  }

  lemma AlignUpIsNext(n: nat)
    ensures AlignUp(n) % ALIGNMENT == 0 && n <= AlignUp(n) < n + ALIGNMENT
  {
  }

  /** Offset at which the n-th table belongs, were there no overflow. */
  function Start(tables: seq<Table>, n: nat): nat
    requires n <= |tables|
  {
    if n == 0 then 0
    else if tables[n - 1].Present() then AlignUp(Start(tables, n - 1) + tables[n - 1].Bytes())
    else Start(tables, n - 1)
  }

  method GetDispatchRaysPatchSize(tables: seq<Table>) returns (size: nat)
    ensures size == Start(tables, |tables|)
  {
    size := 0;
    for i := 0 to |tables|
      invariant size == Start(tables, i)
    {
      var t := tables[i];
      if t.startAddress == 0 || t.sizeInBytes == 0 {
        continue;
      }
      var strideInBytes := if t.strideInBytes == 0 then t.sizeInBytes else t.strideInBytes;
      var stride := strideInBytes % TWO_TO_THE_32;
      var count := t.sizeInBytes / strideInBytes % TWO_TO_THE_32;
      size := size + stride * count % TWO_TO_THE_32;
      size := if size % ALIGNMENT == 0 then size else (size / ALIGNMENT + 1) * ALIGNMENT;
    }
  }

  /** What one table's copy covers in the patch buffer. */
  datatype Region = Region(table: nat, offset: nat, bytes: nat)

  /** The walk over the first n tables: running offset and regions. */
  function Walk(tables: seq<Table>, n: nat): (r: (nat, seq<Region>))
    requires n <= |tables|
    ensures r.0 < TWO_TO_THE_32
  {
    if n == 0 then (0, [])
    else
      var (offset, regions) := Walk(tables, n - 1);
      var t := tables[n - 1];
      if !t.Present() then (offset, regions)
      else (AlignUp((offset + t.Bytes()) % TWO_TO_THE_32) % TWO_TO_THE_32, regions + [Region(n - 1, offset, t.Bytes())])
  }

  /** Every present table is copied to the running offset and now starts there in the patch buffer. */
  method PatchDispatchRays(tables: seq<Table>, patchBufferAddress: Word) returns (patched: seq<Table>, offset: nat, regions: seq<Region>)
    ensures (offset, regions) == Walk(tables, |tables|)
    ensures |patched| == |tables|
    ensures forall i :: 0 <= i < |tables| ==>
              patched[i] == if tables[i].Present() then tables[i].(startAddress := Add64(patchBufferAddress, Walk(tables, i).0))
                            else tables[i]
    ensures forall i :: 0 <= i < |tables| && (tables[i].startAddress == 0 || tables[i].sizeInBytes == 0) ==> patched[i] == tables[i]
  {
    patched, offset, regions := tables, 0, [];
    for i := 0 to |tables|
      invariant (offset, regions) == Walk(tables, i)
      invariant |patched| == |tables| && patched[i..] == tables[i..]
      invariant forall j :: 0 <= j < i ==>
                  patched[j] == if tables[j].Present() then tables[j].(startAddress := Add64(patchBufferAddress, Walk(tables, j).0))
                                else tables[j]
    {
      var t := tables[i];
      assert patched[i] == t;
      if t.startAddress == 0 || t.sizeInBytes == 0 {
        continue;
      }
      var bytes := CopiedBytes(t);
      regions := regions + [Region(i, offset, bytes)];
      patched := patched[i := t.(startAddress := Add64(patchBufferAddress, offset))];
      offset := (offset + bytes) % TWO_TO_THE_32;
      offset := (if offset % ALIGNMENT == 0 then offset else (offset / ALIGNMENT + 1) * ALIGNMENT) % TWO_TO_THE_32;
    }
  }

  method CopiedBytes(t: Table) returns (bytes: nat)
    requires t.Present()
    ensures bytes == t.Bytes()
  {
    var strideInBytes := if t.strideInBytes == 0 then t.sizeInBytes else t.strideInBytes;
    var stride := strideInBytes % TWO_TO_THE_32;
    var count := t.sizeInBytes / strideInBytes % TWO_TO_THE_32;
    bytes := stride * count % TWO_TO_THE_32;
  }

  /** Aligning in 32 bits is aligning and then cutting. */
  lemma AlignWraps(n: nat)
    ensures AlignUp(n % TWO_TO_THE_32) % TWO_TO_THE_32 == AlignUp(n) % TWO_TO_THE_32
  {
    var m, q := n % TWO_TO_THE_32, n / TWO_TO_THE_32;
    assert n == m + q * TWO_TO_THE_32;
    assert TWO_TO_THE_32 == ALIGNMENT * 0x400_0000;
    assert n == m + ALIGNMENT * (q * 0x400_0000);
    ShiftAligned(m, q * 0x400_0000);
    assert AlignUp(n) == AlignUp(m) + q * TWO_TO_THE_32;
    ShiftModulo(AlignUp(m), q, TWO_TO_THE_32);
  }

  lemma ShiftAligned(m: nat, k: nat)
    ensures AlignUp(m + ALIGNMENT * k) == AlignUp(m) + ALIGNMENT * k
  {
    assert (m + ALIGNMENT * k) / ALIGNMENT == m / ALIGNMENT + k;
  }

  lemma ShiftModulo(m: nat, q: nat, d: nat)
    requires d > 0
    ensures (m + q * d) % d == m % d
  {
    var p, r := m / d, m % d;
    assert m + q * d == (p + q) * d + r;
    Remainder(m + q * d, p + q, d, r);
  }

  lemma Remainder(n: nat, q: nat, d: nat, r: nat)
    requires n == q * d + r && r < d
    ensures n % d == r && n / d == q
  {
    var p := n / d;
    assert p * d <= n < p * d + d;
    if p < q {
      MulKeepsOrder(p + 1, q, d);
    } else if q < p {
      MulKeepsOrder(q + 1, p, d);
    }
  }

  lemma AddAfterModulus(a: nat, b: nat)
    ensures (a % TWO_TO_THE_32 + b) % TWO_TO_THE_32 == (a + b) % TWO_TO_THE_32
  {
    assert a == a % TWO_TO_THE_32 + a / TWO_TO_THE_32 * TWO_TO_THE_32;
    ShiftModulo(a % TWO_TO_THE_32 + b, a / TWO_TO_THE_32, TWO_TO_THE_32);
  }

  /** The offset of the walk is the place computed in advance, cut to 32 bits. */
  lemma {:induction false} WalkIsStart(tables: seq<Table>, n: nat)
    requires n <= |tables|
    ensures Walk(tables, n).0 == Start(tables, n) % TWO_TO_THE_32
  {
    if n > 0 {
      WalkIsStart(tables, n - 1);
      var t := tables[n - 1];
      if t.Present() {
        var bytes := t.Bytes();
        hide Table.Bytes, AlignUp;
        AddAfterModulus(Start(tables, n - 1), bytes);
        AlignWraps(Start(tables, n - 1) + bytes);
      }
    }
  }

  /** Tables are packed: an absent one takes no space, a present one its bytes and less than one
      alignment unit of padding. */
  lemma Packed(tables: seq<Table>, n: nat)
    requires n < |tables|
    ensures Start(tables, 0) == 0
    ensures tables[n].startAddress == 0 || tables[n].sizeInBytes == 0 ==> Start(tables, n + 1) == Start(tables, n)
    ensures tables[n].startAddress != 0 && tables[n].sizeInBytes != 0 ==>
              Start(tables, n) + tables[n].Bytes() <= Start(tables, n + 1) < Start(tables, n) + tables[n].Bytes() + 64
    ensures Start(tables, n + 1) % 64 == 0
  {
    hide Table.Bytes;
    StartsGrow(tables, n + 1, n + 1);
  }

  lemma {:induction false} StartsGrow(tables: seq<Table>, m: nat, n: nat)
    requires m <= n <= |tables|
    ensures Start(tables, m) <= Start(tables, n) && Start(tables, n) % ALIGNMENT == 0
    ensures m < n && tables[m].Present() ==> Start(tables, m) + tables[m].Bytes() <= Start(tables, n)
    decreases n
  {
    if n > 0 {
      var t := tables[n - 1];
      hide Table.Bytes;
      if t.Present() {
        AlignUpIsNext(Start(tables, n - 1) + t.Bytes());
      }
      StartsGrow(tables, if m < n then m else n - 1, n - 1);
    }
  }

  /** The walk ends where the size said exactly when the size fits 32 bits. */
  lemma WalkReachesSize(tables: seq<Table>)
    ensures Walk(tables, |tables|).0 == Start(tables, |tables|) <==> Start(tables, |tables|) < TWO_TO_THE_32
  {
    WalkIsStart(tables, |tables|);
  }

  /** Where the copy of table i goes, and how long it is. */
  function Copy(tables: seq<Table>, i: nat): Region
    requires i < |tables|
  {
    Region(i, Start(tables, i) % TWO_TO_THE_32, tables[i].Bytes())
  }

  lemma WalkNext(tables: seq<Table>, n: nat)
    requires 0 < n <= |tables|
    ensures Walk(tables, n).1
         == if tables[n - 1].Present() then Walk(tables, n - 1).1 + [Copy(tables, n - 1)] else Walk(tables, n - 1).1
  {
    WalkIsStart(tables, n - 1);
    hide Start, AlignUp, Table.Bytes;
  }

  /** Regions are the copies of present tables among the first n, in order. */
  ghost predicate RegionsOf(tables: seq<Table>, n: nat, regions: seq<Region>)
    requires n <= |tables|
  {
    && (forall r :: 0 <= r < |regions| ==>
          regions[r].table < n && tables[regions[r].table].Present() && regions[r] == Copy(tables, regions[r].table))
    && (forall r, s :: 0 <= r < s < |regions| ==> regions[r].table < regions[s].table)
  }

  ghost predicate HasRegion(regions: seq<Region>, i: nat) {
    exists r :: 0 <= r < |regions| && regions[r].table == i
  }

  lemma HasRegionNext(before: seq<Region>, last: Region, i: nat)
    ensures HasRegion(before + [last], i) <==> HasRegion(before, i) || i == last.table
  {
    var regions := before + [last];
    if HasRegion(before, i) {
      var r :| 0 <= r < |before| && before[r].table == i;
      assert regions[r].table == i;
    }
    assert regions[|before|] == last;
  }

  lemma {:induction false} RegionsAt(tables: seq<Table>, n: nat)
    requires n <= |tables|
    ensures RegionsOf(tables, n, Walk(tables, n).1)
  {
    hide Start, AlignUp, Table.Bytes;
    if n > 0 {
      RegionsAt(tables, n - 1);
      WalkNext(tables, n);
    }
  }

  lemma {:induction false} PresentHasRegion(tables: seq<Table>, n: nat, i: nat)
    requires i < n <= |tables| && tables[i].Present()
    ensures HasRegion(Walk(tables, n).1, i)
  {
    hide Walk, HasRegion;
    WalkNext(tables, n);
    HasRegionNext(Walk(tables, n - 1).1, Copy(tables, n - 1), i);
    if i < n - 1 {
      PresentHasRegion(tables, n - 1, i);
    }
  }

  /** Whenever the size fits 32 bits, every copy lies inside it and starts on the shader-table alignment. */
  lemma RegionsInside(tables: seq<Table>, r: nat)
    requires Start(tables, |tables|) < TWO_TO_THE_32 && r < |Walk(tables, |tables|).1|
    ensures var region := Walk(tables, |tables|).1[r];
      && region.table < |tables| && region.bytes == tables[region.table].Bytes()
      && region.offset == Start(tables, region.table) && region.offset % ALIGNMENT == 0
      && region.offset + region.bytes <= Walk(tables, |tables|).0 == Start(tables, |tables|)
  {
    RegionsAt(tables, |tables|);
    WalkReachesSize(tables);
    RegionInside(tables, Walk(tables, |tables|).1[r]);
  }

  /** The copies do not overlap, and every present table has one. */
  lemma RegionsDisjoint(tables: seq<Table>)
    requires Start(tables, |tables|) < TWO_TO_THE_32
    ensures var regions := Walk(tables, |tables|).1;
      && (forall r: nat, s: nat :: r < s < |regions| ==> regions[r].offset + regions[r].bytes <= regions[s].offset)
      && (forall i: nat :: i < |tables| && tables[i].Present() ==> exists r: nat :: r < |regions| && regions[r].table == i)
  {
    RegionsAt(tables, |tables|);
    var regions := Walk(tables, |tables|).1;
    forall i: nat | i < |tables| && tables[i].Present() ensures exists r: nat :: r < |regions| && regions[r].table == i {
      PresentHasRegion(tables, |tables|, i);
    }
    forall r: nat, s: nat | r < s < |regions| ensures regions[r].offset + regions[r].bytes <= regions[s].offset {
      RegionsInside(tables, r);
      RegionsInside(tables, s);
      RegionsApart(tables, regions[r], regions[s]);
    }
  }

  lemma RegionsApart(tables: seq<Table>, p: Region, q: Region)
    requires p.table < q.table < |tables| && tables[p.table].Present()
    requires p.bytes == tables[p.table].Bytes() && p.offset == Start(tables, p.table) && q.offset == Start(tables, q.table)
    ensures p.offset + p.bytes <= q.offset
  {
    StartsGrow(tables, p.table, q.table);
  }

  lemma RegionInside(tables: seq<Table>, region: Region)
    requires Start(tables, |tables|) < TWO_TO_THE_32 && region.table < |tables| && tables[region.table].Present()
    requires region.bytes == tables[region.table].Bytes() && region.offset == Start(tables, region.table) % TWO_TO_THE_32
    ensures region.offset == Start(tables, region.table) && region.offset % ALIGNMENT == 0
    ensures region.offset + region.bytes <= Start(tables, |tables|)
  {
    StartsGrow(tables, region.table, |tables|);
    StartsGrow(tables, region.table, region.table);
  }

  lemma FloorTimes(size: nat, stride: nat)
    requires stride > 0
    ensures (size / stride) * stride <= size < (size / stride) * stride + stride && size / stride <= size
  {
    var q := size / stride;
    assert q * stride <= size < q * stride + stride;
    MulKeepsOrder(1, stride, q);
  }

  /** A table below 4 GB is copied in whole records, all that fit. */
  lemma WholeRecords(t: Table)
    requires t.Present() && t.sizeInBytes < TWO_TO_THE_32 && t.Stride() < TWO_TO_THE_32
    ensures t.Bytes() == t.Count() * t.Stride() <= t.sizeInBytes < t.Bytes() + t.Stride()
    ensures t.Bytes() == if t.strideInBytes == 0 then t.sizeInBytes else t.sizeInBytes - t.sizeInBytes % t.strideInBytes
  {
    FloorTimes(t.sizeInBytes, t.Stride());
    var stride: nat, count: nat := t.Stride(), t.Count();
    assert stride % TWO_TO_THE_32 == stride && count % TWO_TO_THE_32 == count;
    assert (stride * count) % TWO_TO_THE_32 == count * stride;
  }

  lemma TwoGigabytes()
    ensures Table(1, 0x8000_0000, 0x8000_0000).Bytes() == 0x8000_0000
  {
    var t := Table(1, 0x8000_0000, 0x8000_0000);
    assert t.Stride() == 0x8000_0000 && t.Count() == 1;
  }

  /** Above it the walk and the size part ways: two tables of 2 GB. */
  lemma LargeTablesOverflow()
    ensures var tables := [Table(1, 0x8000_0000, 0x8000_0000), Table(1, 0x8000_0000, 0x8000_0000)];
      Walk(tables, 2).0 == 0 && Start(tables, 2) == TWO_TO_THE_32
  {
    var t := Table(1, 0x8000_0000, 0x8000_0000);
    var tables := [t, t];
    TwoGigabytes();
    hide Table.Bytes;
    assert Start(tables, 0) == 0;
    assert Start(tables, 1) == 0x8000_0000;
    assert Start(tables, 2) == TWO_TO_THE_32;
    WalkIsStart(tables, 2);
  }
}
