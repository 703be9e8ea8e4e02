/** The binding-table kernel as interleaved threads, and its dispatch. */
module BindingTableThreads {
  import opened AddressMapping
  import opened Arithmetic
  import opened BindingTable
  import opened Interleaving
  import opened Wrappers

  /** gits_patch step by step: four loads, four stores (or none), then a load and perhaps a store for
      every further word of the record. */
  function Kernel(tables: Tables, recordSize: nat, recordCount: nat): Program<Word>
    requires recordSize >= 4
  {
    (t: nat, log: seq<Word>) =>
      if t >= recordCount then Halt else RecordOp(tables, recordSize, Base(t, recordSize), log)
  }

  function RecordOp(tables: Tables, recordSize: nat, base: nat, log: seq<Word>): (op: Op<Word>)
    requires recordSize >= 4
    ensures op.Load? || op.Store? ==> base <= op.address < base + recordSize
    ensures op.Halt? <==> |log| >= 2 * recordSize
  {
    var at := |log|;
    if at < 4 then Load(base + at)
    else if at < 8 then
      var captured := Identifier(log[0], log[1], log[2], log[3]);
      var found := ProbeIdentifier(tables.identifiers, captured, 0, |tables.identifiers| - 1);
      if found.Some? then Store(base + (at - 4), found.value.Words()[at - 4]) else Pass
    else if at / 2 >= recordSize then Halt
    else if at % 2 == 0 then Load(base + at / 2)
    else
      var found := Lookup(tables, log[at - 1]);
      if found.Some? then Store(base + at / 2, found.value) else Pass
  }

  /** Words of the record that thread t has finished after n steps. */
  predicate Finished(n: nat, k: nat) {
    if k < 4 then n > k + 4 else n > 2 * k + 1
  }

  /** Where thread t stands after n steps on its own. */
  ghost predicate Progress(tables: Tables, table: seq<Word>, base: nat, recordSize: nat, n: nat, memory: seq<Word>, log: seq<Word>)
    requires 4 <= recordSize && base + recordSize <= |table|
  {
    && |memory| == |table| && |log| == n
    && (forall k :: 0 <= k < 4 && k < n ==> log[k] == table[base + k])
    && (n > 8 && n % 2 == 1 ==> n / 2 < recordSize && log[n - 1] == table[base + n / 2])
    && (forall a :: 0 <= a < |table| ==>
          memory[a] == if base <= a < base + recordSize && Finished(n, a - base) then PatchedAt(tables, table, base, a - base)
                       else table[a])
  }

  lemma LoadProgress(tables: Tables, table: seq<Word>, base: nat, recordSize: nat, n: nat, memory: seq<Word>, log: seq<Word>, k: nat)
    requires 4 <= recordSize && base + recordSize <= |table| && k < recordSize
    requires Progress(tables, table, base, recordSize, n, memory, log)
    requires if n < 4 then k == n else n >= 8 && n % 2 == 0 && k == n / 2
    ensures Progress(tables, table, base, recordSize, n + 1, memory, log + [memory[base + k]])
  {
    assert !Finished(n, k);
    assert forall j: nat :: Finished(n + 1, j) <==> Finished(n, j);
    hide PatchedAt;
  }

  /** The step that finishes word k, either by a store or because there is nothing to store. */
  lemma StoreProgress(tables: Tables, table: seq<Word>, base: nat, recordSize: nat, n: nat, memory: seq<Word>, log: seq<Word>,
                      k: nat, after: seq<Word>)
    requires 4 <= recordSize && base + recordSize <= |table| && k < recordSize
    requires Progress(tables, table, base, recordSize, n, memory, log)
    requires if k < 4 then n == k + 4 else n == 2 * k + 1
    requires |after| == |memory| && after[base + k] == PatchedAt(tables, table, base, k)
    requires forall a :: 0 <= a < |memory| && a != base + k ==> after[a] == memory[a]
    ensures Progress(tables, table, base, recordSize, n + 1, after, log + [0])
  {
    assert forall j: nat :: Finished(n + 1, j) <==> Finished(n, j) || j == k;
    hide PatchedAt;
  }

  lemma IdentifierProgress(tables: Tables, table: seq<Word>, recordSize: nat, base: nat, n: nat, memory: seq<Word>, log: seq<Word>)
    requires OrderedIdentifiers(tables.identifiers) && 4 <= recordSize && 4 <= n < 8 && base + recordSize <= |table|
    requires Progress(tables, table, base, recordSize, n, memory, log)
    ensures var (memory', log') := Apply(RecordOp(tables, recordSize, base, log), 0, memory, log);
      Progress(tables, table, base, recordSize, n + 1, memory', log')
  {
    var captured, k := Identifier(log[0], log[1], log[2], log[3]), n - 4;
    assert captured == IdentifierAt(table, base);
    assert memory[base + k] == table[base + k];
    ProbeIdentifierIsLinear(tables.identifiers, captured);
    var (after, _) := Apply(RecordOp(tables, recordSize, base, log), 0, memory, log);
    assert after[base + k] == PatchedAt(tables, table, base, k);
    hide Progress, PatchedAt, OrderedIdentifiers;
    StoreProgress(tables, table, base, recordSize, n, memory, log, k, after);
  }

  lemma WordProgress(tables: Tables, table: seq<Word>, recordSize: nat, base: nat, n: nat, memory: seq<Word>, log: seq<Word>)
    requires tables.Sound() && 8 < n < 2 * recordSize && n % 2 == 1 && base + recordSize <= |table|
    requires Progress(tables, table, base, recordSize, n, memory, log)
    ensures var (memory', log') := Apply(RecordOp(tables, recordSize, base, log), 0, memory, log);
      Progress(tables, table, base, recordSize, n + 1, memory', log')
  {
    var k := n / 2;
    assert memory[base + k] == table[base + k];
    LookupIsPatchedWord(tables, table[base + k]);
    hide Tables.Sound, Lookup, PatchedWord;
    var (after, _) := Apply(RecordOp(tables, recordSize, base, log), 0, memory, log);
    assert after[base + k] == PatchedAt(tables, table, base, k);
    hide Progress, PatchedAt;
    StoreProgress(tables, table, base, recordSize, n, memory, log, k, after);
  }

  lemma ApplyProgress(tables: Tables, table: seq<Word>, recordSize: nat, base: nat, n: nat, memory: seq<Word>, log: seq<Word>)
    requires tables.Sound() && 4 <= recordSize && n < 2 * recordSize && base + recordSize <= |table|
    requires Progress(tables, table, base, recordSize, n, memory, log)
    ensures var (memory', log') := Apply(RecordOp(tables, recordSize, base, log), 0, memory, log);
      Progress(tables, table, base, recordSize, n + 1, memory', log')
  {
    if 4 <= n < 8 {
      IdentifierProgress(tables, table, recordSize, base, n, memory, log);
    } else if n % 2 == 1 && n > 8 {
      WordProgress(tables, table, recordSize, base, n, memory, log);
    } else {
      LoadProgress(tables, table, base, recordSize, n, memory, log, if n < 4 then n else n / 2);
    }
  }

  /** A thread alone halts after two steps a word and leaves its record as specified. */
  lemma {:induction false} AloneProgress(tables: Tables, table: seq<Word>, recordSize: nat, recordCount: nat, t: nat, n: nat)
    requires tables.Sound() && Fits(table, recordSize, recordCount) && t < recordCount && n <= 2 * recordSize
    ensures Base(t, recordSize) + recordSize <= |table|
    ensures var (memory, log) := Alone(Kernel(tables, recordSize, recordCount), 0, t, table, n);
      Progress(tables, table, Base(t, recordSize), recordSize, n, memory, log)
  {
    BaseInside(table, recordSize, recordCount, t);
    hide Base, Tables.Sound, RecordOp, Fits;
    if n > 0 {
      AloneProgress(tables, table, recordSize, recordCount, t, n - 1);
      var (memory, log) := Alone(Kernel(tables, recordSize, recordCount), 0, t, table, n - 1);
      ApplyProgress(tables, table, recordSize, Base(t, recordSize), n - 1, memory, log);
    }
  }

  /** The table every complete schedule leaves: each word of each record as specified, every word
      past the last record as it was. */
  function PatchedTable(tables: Tables, table: seq<Word>, recordSize: nat, recordCount: nat): seq<Word>
    requires Fits(table, recordSize, recordCount)
  {
    seq(|table|, (a: nat) requires a < |table| =>
      if a / recordSize < recordCount then
        RecordInside(table, recordSize, recordCount, a / recordSize);
        PatchedAt(tables, table, a / recordSize * recordSize, a % recordSize)
      else table[a])
  }

  lemma KernelOnRecords(tables: Tables, table: seq<Word>, recordSize: nat, recordCount: nat)
    requires tables.Sound() && Fits(table, recordSize, recordCount)
    ensures RecordKernel(Kernel(tables, recordSize, recordCount), 0, table, recordSize, recordCount, 2 * recordSize)
  {
    var p := Kernel(tables, recordSize, recordCount);
    forall t: nat ensures OnRecords(p, recordSize, recordCount, t) {
      if t < recordCount {
        BaseInside(table, recordSize, recordCount, t);
      }
    }
    forall t: nat | t < recordCount ensures p(t, Alone(p, 0, t, table, 2 * recordSize).1).Halt? {
      AloneProgress(tables, table, recordSize, recordCount, t, 2 * recordSize);
    }
  }

  lemma ProgressDone(tables: Tables, table: seq<Word>, base: nat, recordSize: nat, memory: seq<Word>, log: seq<Word>, k: nat)
    requires 4 <= recordSize && base + recordSize <= |table| && k < recordSize
    requires Progress(tables, table, base, recordSize, 2 * recordSize, memory, log)
    ensures memory[base + k] == PatchedAt(tables, table, base, k)
  {
  }

  lemma TableAt(tables: Tables, table: seq<Word>, recordSize: nat, recordCount: nat, a: nat)
    requires Fits(table, recordSize, recordCount) && a < |table| && a / recordSize < recordCount
    ensures var base, k := Base(a / recordSize, recordSize), a % recordSize;
      && base + recordSize <= |table| && base + k == a
      && PatchedTable(tables, table, recordSize, recordCount)[a] == PatchedAt(tables, table, base, k)
  {
    BaseInside(table, recordSize, recordCount, a / recordSize);
    hide PatchedAt, Base;
  }

  lemma AloneResult(tables: Tables, table: seq<Word>, recordSize: nat, recordCount: nat, a: nat)
    requires tables.Sound() && Fits(table, recordSize, recordCount) && a < |table| && a / recordSize < recordCount
    ensures Alone(Kernel(tables, recordSize, recordCount), 0, a / recordSize, table, 2 * recordSize).0[a]
         == PatchedTable(tables, table, recordSize, recordCount)[a]
  {
    hide Base, PatchedAt, Tables.Sound, Progress, PatchedTable, Kernel;
    var t, k := a / recordSize, a % recordSize;
    AloneProgress(tables, table, recordSize, recordCount, t, 2 * recordSize);
    TableAt(tables, table, recordSize, recordCount, a);
    var (memory, log) := Alone(Kernel(tables, recordSize, recordCount), 0, t, table, 2 * recordSize);
    ProgressDone(tables, table, Base(t, recordSize), recordSize, memory, log, k);
  }

  /** The dispatched threads together, under a schedule. */
  ghost function Final(tables: Tables, table: seq<Word>, recordSize: nat, recordCount: nat, schedule: seq<nat>): Machine<Word>
    requires recordSize >= 4
  {
    Together(Kernel(tables, recordSize, recordCount), 0, Start(table, Threads(recordCount)), schedule)
  }

  ghost predicate Complete(tables: Tables, table: seq<Word>, recordSize: nat, recordCount: nat, schedule: seq<nat>)
    requires recordSize >= 4
  {
    AllHalted(Kernel(tables, recordSize, recordCount), Final(tables, table, recordSize, recordCount, schedule))
  }

  lemma CountFits(table: seq<Word>, recordSize: nat, recordCount: nat)
    requires Fits(table, recordSize, recordCount)
    ensures 4 * recordCount < TWO_TO_THE_32
  {
    assert recordCount * 4 <= recordCount * recordSize;
  }

  /** Whatever the interleaving of the threads' loads and stores, the buffer left is PatchedTable. */
  lemma AnySchedulePatchesTable(tables: Tables, table: seq<Word>, recordSize: nat, recordCount: nat, schedule: seq<nat>)
    requires tables.Sound() && Fits(table, recordSize, recordCount)
    requires Complete(tables, table, recordSize, recordCount, schedule)
    ensures Final(tables, table, recordSize, recordCount, schedule).memory == PatchedTable(tables, table, recordSize, recordCount)
  {
    hide Kernel, Threads, Tables.Sound, RecordKernel;
    CountFits(table, recordSize, recordCount);
    DispatchCovers(recordCount);
    KernelOnRecords(tables, table, recordSize, recordCount);
    AnyScheduleSameRecords(Kernel(tables, recordSize, recordCount), 0, table, recordSize, recordCount, 2 * recordSize,
                           Threads(recordCount), schedule);
    forall a: nat | a < |table|
      ensures Final(tables, table, recordSize, recordCount, schedule).memory[a]
           == PatchedTable(tables, table, recordSize, recordCount)[a]
    {
      if a / recordSize < recordCount {
        AloneResult(tables, table, recordSize, recordCount, a);
      }
    }
  }

  /** Every schedule that keeps giving turns gets there: two steps a word are enough. */
  lemma EnoughTurnsPatch(tables: Tables, table: seq<Word>, recordSize: nat, recordCount: nat, schedule: seq<nat>)
    requires tables.Sound() && Fits(table, recordSize, recordCount)
    requires forall t: nat :: t < recordCount ==> Turns(schedule, t) >= 2 * recordSize
    ensures Complete(tables, table, recordSize, recordCount, schedule)
  {
    hide Kernel, Threads, RecordKernel;
    KernelOnRecords(tables, table, recordSize, recordCount);
    EnoughTurnsHaltRecords(Kernel(tables, recordSize, recordCount), 0, table, recordSize, recordCount, 2 * recordSize,
                           Threads(recordCount), schedule);
  }
}
