/** Patching a shader binding table on the GPU, one thread a record: the first four words are a
    shader identifier, every further non-zero word a descriptor handle or a GPU address. */
module BindingTable {
  import opened AddressMapping
  import opened Arithmetic
  import opened Interleaving
  import opened Wrappers

  datatype Tables = Tables(
    identifiers: seq<IdentifierMapping>,
    views: seq<Mapping>,
    samplers: seq<Mapping>,
    addresses: seq<Mapping>,
    patchAddresses: bool)
  {
    /** As the CPU lays the mapping buffers out. */
    ghost predicate Sound() {
      OrderedIdentifiers(identifiers) && Ordered(views) && Ordered(samplers) && Ordered(addresses)
    }
  }

  // ---------------------------------------------------------------------------------------------
  // The specification, word by word, on linear lookups

  function PatchedWord(tables: Tables, a: Word): Word {
    if a == 0 then a
    else if Linear(tables.views, a).Some? then Linear(tables.views, a).value
    else if Linear(tables.samplers, a).Some? then Linear(tables.samplers, a).value
    else if tables.patchAddresses && Linear(tables.addresses, a).Some? then Linear(tables.addresses, a).value
    else a
  }

  /** The specification stated on the intervals alone: a view, else a sampler, else a GPU address. */
  lemma PatchedWordExactly(tables: Tables, a: Word)
    requires tables.Sound()
    ensures var r := PatchedWord(tables, a);
      if a == 0 then r == 0
      else if HeldBySome(tables.views, a) then TakenTo(tables.views, a, r)
      else if HeldBySome(tables.samplers, a) then TakenTo(tables.samplers, a, r)
      else if tables.patchAddresses && HeldBySome(tables.addresses, a) then TakenTo(tables.addresses, a, r)
      else r == a
  {
    LinearDecides(tables.views, a);
    LinearDecides(tables.samplers, a);
    LinearDecides(tables.addresses, a);
    hide HeldBySome, TakenTo, Linear, Ordered;
  }

  function IdentifierAt(table: seq<Word>, base: nat): Identifier
    requires base + 4 <= |table|
  {
    Identifier(table[base], table[base + 1], table[base + 2], table[base + 3])
  }

  /** Word k of the patched record that starts at base. */
  function PatchedAt(tables: Tables, table: seq<Word>, base: nat, k: nat): Word
    requires base + 4 <= |table| && base + k < |table|
  {
    if k < 4 then
      var found := LinearIdentifier(tables.identifiers, IdentifierAt(table, base));
      if found.Some? then found.value.Words()[k] else table[base + k]
    else PatchedWord(tables, table[base + k])
  }

  /** The identifier words: all four of the matching entry's player identifier, or all as they were. */
  lemma PatchedIdentifierExactly(tables: Tables, table: seq<Word>, base: nat)
    requires OrderedIdentifiers(tables.identifiers) && base + 4 <= |table|
    ensures var id := IdentifierAt(table, base);
      var r := Identifier(PatchedAt(tables, table, base, 0), PatchedAt(tables, table, base, 1),
                          PatchedAt(tables, table, base, 2), PatchedAt(tables, table, base, 3));
      && (forall i :: 0 <= i < |tables.identifiers| && tables.identifiers[i].capture == id ==> r == tables.identifiers[i].player)
      && ((forall i :: 0 <= i < |tables.identifiers| ==> tables.identifiers[i].capture != id) ==> r == id)
  {
    var ms, id := tables.identifiers, IdentifierAt(table, base);
    LinearIdentifierFinds(ms, id);
    forall i, j | 0 <= i < j < |ms| ensures ms[j].capture.Greater(ms[i].capture) {
      GreaterIsLess(ms[j].capture, ms[i].capture);
    }
    hide LinearIdentifier, OrderedIdentifiers;
  }

  ghost predicate Fits(table: seq<Word>, recordSize: nat, recordCount: nat) {
    4 <= recordSize && recordCount * recordSize <= |table| && |table| < TWO_TO_THE_32
  }

  /** First word of record t, in the shader's 32-bit arithmetic. */
  function Base(t: nat, recordSize: nat): nat {
    (t * recordSize) % TWO_TO_THE_32
  }

  lemma RecordInside(table: seq<Word>, recordSize: nat, recordCount: nat, t: nat)
    requires Fits(table, recordSize, recordCount) && t < recordCount
    ensures t * recordSize + recordSize <= |table|
    ensures t * recordSize < TWO_TO_THE_32
  {
    assert (t + 1) * recordSize <= recordCount * recordSize;
    assert (t + 1) * recordSize == t * recordSize + recordSize;
  }

  lemma BaseInside(table: seq<Word>, recordSize: nat, recordCount: nat, t: nat)
    requires Fits(table, recordSize, recordCount) && t < recordCount
    ensures Base(t, recordSize) == t * recordSize && Base(t, recordSize) + recordSize <= |table|
  {
    RecordInside(table, recordSize, recordCount, t);
  }

  // ---------------------------------------------------------------------------------------------
  // One thread as the kernel is written

  /** What the kernel finds for a word: None where it leaves the word alone. */
  function Lookup(tables: Tables, a: Word): Option<Word> {
    if a == 0 then None
    else
      var view := Probe(tables.views, a, 0, |tables.views| - 1);
      if view.Some? then view
      else
        var sampler := Probe(tables.samplers, a, 0, |tables.samplers| - 1);
        if sampler.Some? then sampler
        else if tables.patchAddresses then Probe(tables.addresses, a, 0, |tables.addresses| - 1)
        else None
  }

  lemma LookupIsPatchedWord(tables: Tables, a: Word)
    requires tables.Sound()
    ensures PatchedWord(tables, a) == if Lookup(tables, a).Some? then Lookup(tables, a).value else a
  {
    ProbeIsLinear(tables.views, a);
    ProbeIsLinear(tables.samplers, a);
    ProbeIsLinear(tables.addresses, a);
  }

  /** The three searches of the loop body; a table of length zero is skipped. */
  method LookupWord(tables: Tables, a: Word) returns (found: Option<Word>)
    ensures found == Lookup(tables, a)
  {
    found := None;
    if a == 0 {
      return;
    }
    if tables.views != [] {
      found := Search(tables.views, a);
    }
    if found.None? && tables.samplers != [] {
      found := Search(tables.samplers, a);
    }
    if found.None? && tables.patchAddresses {
      found := Search(tables.addresses, a);
    }
  }

  method PatchIdentifier(table: array<Word>, tables: Tables, base: nat)
    requires OrderedIdentifiers(tables.identifiers) && base + 4 <= table.Length
    modifies table
    ensures forall a :: 0 <= a < table.Length ==>
              table[a] == if base <= a < base + 4 then PatchedAt(tables, old(table[..]), base, a - base) else old(table[a])
  {
    var captured := Identifier(table[base], table[base + 1], table[base + 2], table[base + 3]);
    assert captured == IdentifierAt(table[..], base);
    if tables.identifiers != [] {
      ProbeIdentifierIsLinear(tables.identifiers, captured);
      var found := SearchIdentifier(tables.identifiers, captured);
      if found.Some? {
        var player := found.value;
        table[base] := player.x;
        table[base + 1] := player.y;
        table[base + 2] := player.z;
        table[base + 3] := player.w;
      }
    }
  }

  method PatchWords(table: array<Word>, tables: Tables, base: nat, recordSize: nat)
    requires tables.Sound() && 4 <= recordSize && base + recordSize <= table.Length
    modifies table
    ensures forall a :: 0 <= a < table.Length ==>
              table[a] == if base + 4 <= a < base + recordSize then PatchedWord(tables, old(table[a])) else old(table[a])
  {
    var i := 4;
    while i < recordSize
      invariant 4 <= i <= recordSize
      invariant forall a :: 0 <= a < table.Length ==>
                  table[a] == if base + 4 <= a < base + i then PatchedWord(tables, old(table[a])) else old(table[a])
    {
      var address := table[base + i];
      LookupIsPatchedWord(tables, address);
      hide Tables.Sound, PatchedWord, Lookup;
      var found := LookupWord(tables, address);
      if found.Some? {
        table[base + i] := found.value;
      }
      i := i + 1;
    }
  }

  method PatchRecordAt(table: array<Word>, tables: Tables, base: nat, recordSize: nat)
    requires tables.Sound() && 4 <= recordSize && base + recordSize <= table.Length
    modifies table
    ensures forall a :: 0 <= a < table.Length ==>
              table[a] == if base <= a < base + recordSize then PatchedAt(tables, old(table[..]), base, a - base) else old(table[a])
  {
    PatchIdentifier(table, tables, base);
    PatchWords(table, tables, base, recordSize);
  }

  /** gits_patch for thread t: exactly its record changes, and every word of it as specified. */
  method PatchRecord(table: array<Word>, tables: Tables, t: nat, recordSize: nat, recordCount: nat)
    requires tables.Sound() && Fits(table[..], recordSize, recordCount)
    modifies table
    ensures t >= recordCount ==> table[..] == old(table[..])
    ensures t < recordCount ==>
              var base := t * recordSize;
              base + recordSize <= table.Length &&
              forall a :: 0 <= a < table.Length ==>
                table[a] == if base <= a < base + recordSize then PatchedAt(tables, old(table[..]), base, a - base) else old(table[a])
  {
    hide Base, PatchedAt, Tables.Sound;
    if t >= recordCount {
      return;
    }
    BaseInside(table[..], recordSize, recordCount, t);
    PatchRecordAt(table, tables, Base(t, recordSize), recordSize);
  }
}
