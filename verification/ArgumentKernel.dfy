/** Patching an indirect-argument buffer on the GPU, one thread a command: the buffer is 32-bit words,
    an address is two of them, low half first. */
module ArgumentKernel {
  import opened AddressMapping
  import opened ArgumentLayout
  import opened Arithmetic
  import opened Wrappers

  type Half = x: int | 0 <= x < TWO_TO_THE_32

  function Join(low: Half, high: Half): Word {
    high * TWO_TO_THE_32 + low
  }

  function Low(a: Word): Half {
    a % TWO_TO_THE_32
  }

  function High(a: Word): Half {
    a / TWO_TO_THE_32
  }

  /** Splitting and joining are inverse, and the low half is the low one. */
  lemma SplitJoin(a: Word, low: Half, high: Half)
    ensures a == High(a) * 0x1_0000_0000 + Low(a)
    ensures Join(Low(a), High(a)) == a
    ensures Low(Join(low, high)) == low && High(Join(low, high)) == high
  {
  }

  datatype Exact = Exact(capture: Word, player: Word)

  /** The two tables of the kernel: shader tables already placed, then the general mappings. */
  datatype Tables = Tables(exact: seq<Exact>, addresses: seq<Mapping>)

  function FirstExact(exact: seq<Exact>, a: Word): Option<Word> {
    if exact == [] then None
    else if exact[0].capture == a then Some(exact[0].player)
    else FirstExact(exact[1..], a)
  }

  /** The first entry with this capture address, if any, and its player address. */
  lemma {:induction false} FirstExactFinds(exact: seq<Exact>, a: Word)
    ensures FirstExact(exact, a).None? <==> forall i :: 0 <= i < |exact| ==> exact[i].capture != a
    ensures forall i :: 0 <= i < |exact| && exact[i].capture == a && (forall j :: 0 <= j < i ==> exact[j].capture != a) ==>
              FirstExact(exact, a) == Some(exact[i].player)
  {
    if exact != [] {
      FirstExactFinds(exact[1..], a);
      forall i | 0 <= i < |exact| && exact[i].capture == a && (forall j :: 0 <= j < i ==> exact[j].capture != a)
        ensures FirstExact(exact, a) == Some(exact[i].player)
      {
        if i > 0 {
          assert exact[0].capture != a && exact[1..][i - 1] == exact[i];
          assert forall j :: 0 <= j < i - 1 ==> exact[1..][j] == exact[j + 1];
        }
      }
    }
  }

  /** The specification: an exact shader-table match wins, then the interval that holds the address. */
  function PatchedAddress(tables: Tables, a: Word): Word {
    if FirstExact(tables.exact, a).Some? then FirstExact(tables.exact, a).value
    else if Linear(tables.addresses, a).Some? then Linear(tables.addresses, a).value
    else a
  }

  /** The specification stated on the entries alone. */
  lemma PatchedAddressExactly(tables: Tables, a: Word)
    requires Ordered(tables.addresses)
    ensures forall i :: 0 <= i < |tables.exact| && tables.exact[i].capture == a && (forall j :: 0 <= j < i ==> tables.exact[j].capture != a) ==>
              PatchedAddress(tables, a) == tables.exact[i].player
    ensures (forall i :: 0 <= i < |tables.exact| ==> tables.exact[i].capture != a) ==>
              if HeldBySome(tables.addresses, a) then TakenTo(tables.addresses, a, PatchedAddress(tables, a))
              else PatchedAddress(tables, a) == a
  {
    FirstExactFinds(tables.exact, a);
    LinearDecides(tables.addresses, a);
    hide FirstExact, Linear, Ordered, HeldBySome, TakenTo;
  }

  /** What the kernel finds; None where it stores nothing. */
  function Lookup(tables: Tables, a: Word): Option<Word> {
    if FirstExact(tables.exact, a).Some? then FirstExact(tables.exact, a)
    else Probe(tables.addresses, a, 0, |tables.addresses| - 1)
  }

  lemma LookupIsPatchedAddress(tables: Tables, a: Word)
    requires Ordered(tables.addresses)
    ensures PatchedAddress(tables, a) == if Lookup(tables, a).Some? then Lookup(tables, a).value else a
  {
    ProbeIsLinear(tables.addresses, a);
  }

  method LookupAddress(tables: Tables, a: Word) returns (found: Option<Word>)
    ensures found == Lookup(tables, a)
  {
    for k := 0 to |tables.exact|
      invariant FirstExact(tables.exact, a) == FirstExact(tables.exact[k..], a)
    {
      if a == tables.exact[k].capture {
        return Some(tables.exact[k].player);
      }
    }
    found := Search(tables.addresses, a);
  }

  /** Offsets in bytes, aligned, in order, at least 8 apart, inside a command of `words` words. */
  ghost predicate Placed(offsets: seq<nat>, words: nat) {
    && (forall j: nat :: j < |offsets| ==> offsets[j] % 4 == 0 && offsets[j] + 8 <= 4 * words)
    && (forall i: nat, j: nat :: i < j < |offsets| ==> offsets[i] + 8 <= offsets[j])
  }

  /** The offsets of every command signature are so placed in any stride the signature fits. */
  lemma SignaturePlaced(signature: seq<Argument>, words: nat)
    requires SignatureSize(signature) <= 4 * words
    ensures Placed(AddressOffsets(signature), words)
  {
    OffsetsSpaced(signature);
  }

  function AddressAt(buffer: seq<Half>, w: nat): Word
    requires w + 1 < |buffer|
  {
    Join(buffer[w], buffer[w + 1])
  }

  /** Word k of the patched command that starts at word `base`. */
  ghost function PatchedHalf(tables: Tables, offsets: seq<nat>, buffer: seq<Half>, base: nat, words: nat, k: nat): Half
    requires Placed(offsets, words) && base + words <= |buffer| && k < words
  {
    if 4 * k in offsets then Low(PatchedAddress(tables, AddressAt(buffer, base + k)))
    else if k > 0 && 4 * (k - 1) in offsets then High(PatchedAddress(tables, AddressAt(buffer, base + k - 1)))
    else buffer[base + k]
  }

  ghost predicate Fits(buffer: seq<Half>, stride: nat, commands: nat) {
    0 < stride && stride % 4 == 0 && commands * (stride / 4) <= |buffer| && 4 * |buffer| < TWO_TO_THE_32
  }

  /** First byte of command t, in the shader's 32-bit arithmetic. */
  function BaseByte(t: nat, stride: nat): nat {
    (t * stride) % TWO_TO_THE_32
  }

  lemma BaseInside(buffer: seq<Half>, stride: nat, commands: nat, t: nat)
    requires Fits(buffer, stride, commands) && t < commands
    ensures BaseByte(t, stride) == 4 * (t * (stride / 4)) && t * (stride / 4) + stride / 4 <= |buffer|
  {
    var words := stride / 4;
    assert (t + 1) * words <= commands * words;
    assert (t + 1) * words == t * words + words;
    assert t * stride == t * (4 * words) == 4 * (t * words);
  }

  /** One iteration for the offset of word k: the two halves of one address. */
  method PatchAddress(buffer: array<Half>, tables: Tables, w: nat)
    requires Ordered(tables.addresses) && w + 1 < buffer.Length
    modifies buffer
    ensures buffer[w] == Low(PatchedAddress(tables, AddressAt(old(buffer[..]), w)))
    ensures buffer[w + 1] == High(PatchedAddress(tables, AddressAt(old(buffer[..]), w)))
    ensures forall a :: 0 <= a < buffer.Length && a != w && a != w + 1 ==> buffer[a] == old(buffer[a])
  {
    var captureAddress := Join(buffer[w], buffer[w + 1]);
    SplitJoin(captureAddress, buffer[w], buffer[w + 1]);
    LookupIsPatchedAddress(tables, captureAddress);
    var found := LookupAddress(tables, captureAddress);
    if found.Some? {
      buffer[w], buffer[w + 1] := Low(found.value), High(found.value);
    }
  }

  /** Word k belongs to one of the first n addresses. */
  ghost predicate Visited(offsets: seq<nat>, n: nat, k: int) {
    exists i: nat :: i < n && i < |offsets| && (offsets[i] == 4 * k || offsets[i] + 4 == 4 * k)
  }

  lemma VisitedNext(offsets: seq<nat>, words: nat, j: nat)
    requires Placed(offsets, words) && j < |offsets|
    ensures forall k: int :: Visited(offsets, j + 1, k) <==> Visited(offsets, j, k) || k == offsets[j] / 4 || k == offsets[j] / 4 + 1
    ensures !Visited(offsets, j, offsets[j] / 4) && !Visited(offsets, j, offsets[j] / 4 + 1)
    ensures offsets[j] / 4 + 1 < words && offsets[j] == 4 * (offsets[j] / 4)
  {
    var p := offsets[j] / 4;
    assert offsets[j] == 4 * p;
    forall k: int
      ensures Visited(offsets, j + 1, k) <==> Visited(offsets, j, k) || k == p || k == p + 1
    {
      if Visited(offsets, j + 1, k) {
        var i: nat :| i < j + 1 && i < |offsets| && (offsets[i] == 4 * k || offsets[i] + 4 == 4 * k);
        assert i < j ==> Visited(offsets, j, k);
      }
      if k == p || k == p + 1 {
        assert offsets[j] == 4 * k || offsets[j] + 4 == 4 * k;
      }
    }
  }

  /** The addresses at the first n offsets of the command at word `base` are patched, nothing else. */
  ghost predicate Partly(tables: Tables, offsets: seq<nat>, was: seq<Half>, base: nat, words: nat, n: nat, now: seq<Half>)
    requires Placed(offsets, words) && base + words <= |was|
  {
    && |now| == |was|
    && forall a :: 0 <= a < |was| ==>
         now[a] == if base <= a < base + words && Visited(offsets, n, a - base)
                   then PatchedHalf(tables, offsets, was, base, words, a - base) else was[a]
  }

  lemma PartlyNext(tables: Tables, offsets: seq<nat>, was: seq<Half>, base: nat, words: nat, n: nat, now: seq<Half>,
                   after: seq<Half>, w: nat)
    requires Placed(offsets, words) && base + words <= |was| && n < |offsets| && w == base + offsets[n] / 4
    requires Partly(tables, offsets, was, base, words, n, now)
    requires w + 1 < |was| && |after| == |was|
    requires after[w] == Low(PatchedAddress(tables, AddressAt(now, w)))
    requires after[w + 1] == High(PatchedAddress(tables, AddressAt(now, w)))
    requires forall a :: 0 <= a < |was| && a != w && a != w + 1 ==> after[a] == now[a]
    ensures Partly(tables, offsets, was, base, words, n + 1, after)
  {
    VisitedNext(offsets, words, n);
    hide PatchedAddress, Visited;
    var k := offsets[n] / 4;
    assert now[w] == was[w] && now[w + 1] == was[w + 1];
    assert 4 * k in offsets;
    assert 4 * (k + 1) !in offsets;
  }

  lemma AllPatched(tables: Tables, offsets: seq<nat>, was: seq<Half>, base: nat, words: nat, now: seq<Half>)
    requires Placed(offsets, words) && base + words <= |was|
    requires Partly(tables, offsets, was, base, words, |offsets|, now)
    ensures forall a :: 0 <= a < |was| ==>
              now[a] == if base <= a < base + words then PatchedHalf(tables, offsets, was, base, words, a - base) else was[a]
  {
    forall k: nat | k < words && !Visited(offsets, |offsets|, k)
      ensures 4 * k !in offsets && (k > 0 ==> 4 * (k - 1) !in offsets)
    {
    }
    hide PatchedAddress, Visited;
  }

  /** gits_patch for thread t: exactly the address fields of its command change, and only if it is one
      of the first min(count, max). */
  method PatchArgument(buffer: array<Half>, tables: Tables, offsets: seq<nat>, stride: nat, t: nat, count: nat, max: nat)
    requires Ordered(tables.addresses) && Fits(buffer[..], stride, Min(count, max)) && Placed(offsets, stride / 4)
    modifies buffer
    ensures t >= Min(count, max) ==> buffer[..] == old(buffer[..])
    ensures t < Min(count, max) ==>
              var words, base := stride / 4, t * (stride / 4);
              base + words <= buffer.Length &&
              forall a :: 0 <= a < buffer.Length ==>
                buffer[a] == if base <= a < base + words then PatchedHalf(tables, offsets, old(buffer[..]), base, words, a - base)
                             else old(buffer[a])
  {
    if t >= max || t >= count {
      return;
    }
    var start := BaseByte(t, stride);
    ghost var was := buffer[..];
    ghost var base, words := t * (stride / 4), stride / 4;
    assert start == 4 * base && base + words <= buffer.Length && 4 * buffer.Length < TWO_TO_THE_32 by {
      BaseInside(buffer[..], stride, Min(count, max), t);
    }
    assert forall a :: !Visited(offsets, 0, a);
    PatchCommand(buffer, tables, offsets, start, words, base);
  }

  method PatchCommand(buffer: array<Half>, tables: Tables, offsets: seq<nat>, start: nat, ghost words: nat, ghost base: nat)
    requires Ordered(tables.addresses) && Placed(offsets, words)
    requires start == 4 * base && base + words <= buffer.Length && 4 * buffer.Length < TWO_TO_THE_32
    modifies buffer
    ensures forall a :: 0 <= a < buffer.Length ==>
              buffer[a] == if base <= a < base + words then PatchedHalf(tables, offsets, old(buffer[..]), base, words, a - base)
                           else old(buffer[a])
  {
    ghost var was := buffer[..];
    hide PatchedAddress, Ordered, PatchedHalf;
    assert forall a :: !Visited(offsets, 0, a);
    for j := 0 to |offsets|
      invariant Partly(tables, offsets, was, base, words, j, buffer[..])
    {
      var bufferOffset := (start + offsets[j]) % TWO_TO_THE_32;
      var w := bufferOffset / 4;
      assert w == base + offsets[j] / 4;
      ghost var now := buffer[..];
      PatchAddress(buffer, tables, w);
      PartlyNext(tables, offsets, was, base, words, j, now, buffer[..], w);
    }
    AllPatched(tables, offsets, was, base, words, buffer[..]);
  }
}
