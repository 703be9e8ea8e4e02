/** One pool of GPU buffers guarded by fences. The patch layer keeps four of them (patch, mapping,
    and two for arrays of instance pointers) with the same bookkeeping and three ways to choose. */
module BufferPool {
  import opened Wrappers

  type Key = nat

  /** lastSignal: FenceValue; completed: what GetCompletedValue returns; waiting: WaitingForExecute. */
  datatype Slot = Slot(lastSignal: nat, completed: nat, waiting: bool, size: nat)
  {
    predicate Free() {
      !waiting && completed == lastSignal
    }
  }

  datatype Pool = Pool(slots: seq<Slot>, owners: map<Key, seq<nat>>)
  {
    function OwnedBy(cl: Key): seq<nat> {
      if cl in owners then owners[cl] else []
    }

    predicate Owns(cl: Key, i: nat) {
      i in OwnedBy(cl)
    }

    function Assign(cl: Key, i: nat): Pool
      requires i < |slots|
    {
      Pool(slots[i := slots[i].(waiting := true)], owners[cl := OwnedBy(cl) + [i]])
    }

    /** CreateOrReplacePatchBufferObjects on an existing index: new buffer, new fence. */
    function Replaced(i: nat, size: nat): Pool
      requires i < |slots|
    {
      this.(slots := slots[i := Slot(0, 0, false, size)])
    }

    function Appended(size: nat): Pool {
      this.(slots := slots + [Slot(0, 0, false, size)])
    }

    /** GetPatchBufferIndex; `grown` is the size the multiplier asks for. */
    function TakeBestFit(cl: Key, size: nat, grown: nat): (r: (Pool, nat))
      ensures r.1 < |r.0.slots|
    {
      var fit, nofit := SmallestFitting(slots, size, |slots|), LargestNotFitting(slots, size, |slots|);
      if fit.Some? then (Assign(cl, fit.value), fit.value)
      else if nofit.Some? then (Replaced(nofit.value, grown).Assign(cl, nofit.value), nofit.value)
      else (Appended(grown).Assign(cl, |slots|), |slots|)
    }

    /** GetMappingBufferIndex: one buffer per command list. */
    function TakePerList(cl: Key): (r: (Pool, nat))
    {
      if OwnedBy(cl) != [] then (this, OwnedBy(cl)[0])
      else
        var i := FirstFree(slots, 0);
        if i.Some? then (Assign(cl, i.value), i.value)
        else (Appended(0).Assign(cl, |slots|), |slots|)
    }

    /** GetInstancesAoPPatchBufferIndex and its staging twin; None is the exit on an exhausted pool. */
    function TakeFixed(cl: Key): (r: Option<(Pool, nat)>)
    {
      var i := FirstFree(slots, 0);
      if i.Some? then Some((Assign(cl, i.value), i.value)) else None
    }

    /** The end of ExecuteCommandLists for one list: every owned buffer gets a new signal. */
    function Submitted(cl: Key): Pool {
      Pool(Signalled(slots, OwnedBy(cl)), owners - {cl})
    }

    /** Release of a command list that was never executed. */
    function Dropped(cl: Key): Pool {
      Pool(Unwaited(slots, OwnedBy(cl)), owners - {cl})
    }
  }

  function SmallestFitting(slots: seq<Slot>, size: nat, n: nat): (r: Option<nat>)
    requires n <= |slots|
    ensures r.Some? ==> r.value < n
  {
    if n == 0 then None
    else
      var best, s := SmallestFitting(slots, size, n - 1), slots[n - 1];
      if s.Free() && s.size >= size && (best.None? || slots[best.value].size > s.size) then Some(n - 1) else best
  }

  function LargestNotFitting(slots: seq<Slot>, size: nat, n: nat): (r: Option<nat>)
    requires n <= |slots|
    ensures r.Some? ==> r.value < n
  {
    if n == 0 then None
    else
      var best, s := LargestNotFitting(slots, size, n - 1), slots[n - 1];
      if s.Free() && s.size < size && (best.None? || slots[best.value].size < s.size) then Some(n - 1) else best
  }

  function FirstFree(slots: seq<Slot>, i: nat): (r: Option<nat>)
    requires i <= |slots|
    ensures r.Some? ==> i <= r.value < |slots| && slots[r.value].Free()
    ensures r.Some? ==> forall j :: i <= j < r.value ==> !slots[j].Free()
    ensures r.None? ==> forall j :: i <= j < |slots| ==> !slots[j].Free()
    decreases |slots| - i
  {
    if i == |slots| then None else if slots[i].Free() then Some(i) else FirstFree(slots, i + 1)
  }

  function Signalled(slots: seq<Slot>, indices: seq<nat>): (r: seq<Slot>)
    ensures |r| == |slots|
  {
    if indices == [] then slots
    else
      var front, i := Signalled(slots, indices[..|indices| - 1]), indices[|indices| - 1];
      if i < |slots| then front[i := front[i].(lastSignal := front[i].lastSignal + 1, waiting := false)] else front
  }

  function Unwaited(slots: seq<Slot>, indices: seq<nat>): (r: seq<Slot>)
    ensures |r| == |slots|
  {
    if indices == [] then slots
    else
      var front, i := Unwaited(slots, indices[..|indices| - 1]), indices[|indices| - 1];
      if i < |slots| then front[i := front[i].(waiting := false)] else front
  }

  /** The scan returns the first free slot of least sufficient size, and fails only when none fits. */
  lemma {:induction false} SmallestFittingIsBest(slots: seq<Slot>, size: nat, n: nat)
    requires n <= |slots|
    ensures var r := SmallestFitting(slots, size, n);
      && (r.Some? ==> slots[r.value].Free() && slots[r.value].size >= size)
      && (forall i :: 0 <= i < n && slots[i].Free() && slots[i].size >= size ==>
            r.Some? && slots[r.value].size <= slots[i].size && (slots[r.value].size == slots[i].size ==> r.value <= i))
  {
    if n > 0 {
      SmallestFittingIsBest(slots, size, n - 1);
    }
  }

  lemma {:induction false} LargestNotFittingIsBest(slots: seq<Slot>, size: nat, n: nat)
    requires n <= |slots|
    ensures var r := LargestNotFitting(slots, size, n);
      && (r.Some? ==> slots[r.value].Free() && slots[r.value].size < size)
      && (forall i :: 0 <= i < n && slots[i].Free() && slots[i].size < size ==>
            r.Some? && slots[r.value].size >= slots[i].size && (slots[r.value].size == slots[i].size ==> r.value <= i))
  {
    if n > 0 {
      LargestNotFittingIsBest(slots, size, n - 1);
    }
  }

  ghost predicate DistinctIndices(q: seq<nat>) {
    forall i, j :: 0 <= i < j < |q| ==> q[i] != q[j]
  }

  lemma {:induction false} SignalledAt(slots: seq<Slot>, indices: seq<nat>)
    requires DistinctIndices(indices)
    ensures forall i :: 0 <= i < |slots| ==>
              Signalled(slots, indices)[i] ==
                if i in indices then slots[i].(lastSignal := slots[i].lastSignal + 1, waiting := false) else slots[i]
  {
    if indices != [] {
      var front := indices[..|indices| - 1];
      SignalledAt(slots, front);
      assert indices == front + [indices[|indices| - 1]];
      assert indices[|indices| - 1] !in front;
    }
  }

  lemma {:induction false} UnwaitedAt(slots: seq<Slot>, indices: seq<nat>)
    ensures forall i :: 0 <= i < |slots| ==>
              Unwaited(slots, indices)[i] == if i in indices then slots[i].(waiting := false) else slots[i]
  {
    if indices != [] {
      UnwaitedAt(slots, indices[..|indices| - 1]);
      assert indices == indices[..|indices| - 1] + [indices[|indices| - 1]];
    }
  }

  /** Best fit, stated on the slots alone: the buffer handed out was free (or is new), it is large
      enough, no free buffer fits better, and no buffer shrinks. When none fits, the largest free one
      is replaced by one of the grown size, and only when none is free is a new one added. */
  lemma BestFitChoice(pool: Pool, cl: Key, size: nat, grown: nat)
    requires size <= grown
    ensures var (after, i) := pool.TakeBestFit(cl, size, grown);
      && |pool.slots| <= |after.slots| <= |pool.slots| + 1
      && after.slots[i].waiting && after.slots[i].size >= size
      && (i < |pool.slots| ==> pool.slots[i].Free())
      && (i == |pool.slots| ==> forall j :: 0 <= j < |pool.slots| ==> !pool.slots[j].Free())
      && (forall j :: 0 <= j < |pool.slots| && pool.slots[j].Free() && pool.slots[j].size >= size ==>
            && i < |pool.slots| && size <= pool.slots[i].size <= pool.slots[j].size
            && after.slots[i] == pool.slots[i].(waiting := true)
            && (pool.slots[i].size == pool.slots[j].size ==> i <= j))
      && ((forall j :: 0 <= j < |pool.slots| && pool.slots[j].Free() ==> pool.slots[j].size < size) ==>
            && after.slots[i] == Slot(0, 0, true, grown)
            && forall j :: 0 <= j < |pool.slots| && pool.slots[j].Free() ==>
                 && i < |pool.slots| && pool.slots[j].size <= pool.slots[i].size
                 && (pool.slots[j].size == pool.slots[i].size ==> i <= j))
      && (forall j :: 0 <= j < |pool.slots| && j != i ==> after.slots[j] == pool.slots[j])
      && (forall j :: 0 <= j < |pool.slots| ==> after.slots[j].size >= pool.slots[j].size)
  {
    SmallestFittingIsBest(pool.slots, size, |pool.slots|);
    LargestNotFittingIsBest(pool.slots, size, |pool.slots|);
  }

  /** What handing slot i to a list does to a pool that is otherwise `before`. */
  ghost predicate HandedOut(before: Pool, after: Pool, cl: Key, i: nat) {
    && i < |after.slots| == |before.slots| && after.slots[i] == before.slots[i].(waiting := true)
    && (forall j :: 0 <= j < |before.slots| && j != i ==> after.slots[j] == before.slots[j])
    && (forall other: Key :: after.OwnedBy(other) == if other == cl then before.OwnedBy(cl) + [i] else before.OwnedBy(other))
  }

  /** A list that has a mapping buffer keeps it; otherwise it gets the first free one, or a new one
      when none is free. */
  lemma PerListChoice(pool: Pool, cl: Key)
    ensures var (after, i) := pool.TakePerList(cl);
      if pool.OwnedBy(cl) != [] then after == pool && i == pool.OwnedBy(cl)[0]
      else
        && (if i < |pool.slots| then pool.slots[i].Free() && HandedOut(pool, after, cl, i)
            else HandedOut(Pool(pool.slots + [Slot(0, 0, false, 0)], pool.owners), after, cl, i))
        && forall j :: 0 <= j < i && j < |pool.slots| ==> !pool.slots[j].Free()
  {
  }

  /** From a pool that cannot grow a list gets the first free buffer, and none exactly when none is free. */
  lemma FixedChoice(pool: Pool, cl: Key)
    ensures match pool.TakeFixed(cl)
      case None => forall j :: 0 <= j < |pool.slots| ==> !pool.slots[j].Free()
      case Some((after, i)) =>
        && i < |pool.slots| && pool.slots[i].Free() && HandedOut(pool, after, cl, i)
        && forall j :: 0 <= j < i ==> !pool.slots[j].Free()
  {
  }

  /** A submission signals exactly the buffers the list owns, each once; a drop only stops them
      waiting. Either way the list owns nothing afterwards, and other lists keep theirs. */
  lemma SubmittedAndDropped(pool: Pool, cl: Key)
    requires DistinctIndices(pool.OwnedBy(cl))
    ensures var (submitted, dropped) := (pool.Submitted(cl), pool.Dropped(cl));
      && |submitted.slots| == |dropped.slots| == |pool.slots|
      && (forall i :: 0 <= i < |pool.slots| ==>
            if i in pool.OwnedBy(cl) then
              && submitted.slots[i] == pool.slots[i].(lastSignal := pool.slots[i].lastSignal + 1, waiting := false)
              && dropped.slots[i] == pool.slots[i].(waiting := false)
            else submitted.slots[i] == dropped.slots[i] == pool.slots[i])
      && forall other: Key :: submitted.OwnedBy(other) == dropped.OwnedBy(other) == if other == cl then [] else pool.OwnedBy(other)
  {
    SignalledAt(pool.slots, pool.OwnedBy(cl));
    UnwaitedAt(pool.slots, pool.OwnedBy(cl));
  }

  /** The bookkeeping of one pool, as the patch layer updates it. */
  class FencedPool {
    var slots: seq<Slot>
    var owners: map<Key, seq<nat>>

    function Contents(): Pool
      reads this
    {
      Pool(slots, owners)
    }

    constructor (count: nat, size: nat)
      ensures Contents() == Pool(seq(count, i => Slot(0, 0, false, size)), map[])
    {
      slots := seq(count, i => Slot(0, 0, false, size));
      owners := map[];
    }

    method Assign(cl: Key, i: nat)
      requires i < |slots|
      modifies this
      ensures Contents() == old(Contents()).Assign(cl, i)
    {
      if cl !in owners {
        owners := owners[cl := []];
      }
      owners := owners[cl := owners[cl] + [i]];
      slots := slots[i := slots[i].(waiting := true)];
    }

    method GetBestFit(cl: Key, size: nat, grown: nat) returns (index: nat)
      requires size <= grown
      modifies this
      ensures (Contents(), index) == old(Contents()).TakeBestFit(cl, size, grown)
    {
      var fit: Option<nat> := None;
      var nofit: Option<nat> := None;
      for i := 0 to |slots|
        invariant Contents() == old(Contents())
        invariant fit == SmallestFitting(slots, size, i)
        invariant nofit == LargestNotFitting(slots, size, i)
      {
        var s := slots[i];
        if s.waiting {
          continue;
        }
        if s.completed != s.lastSignal {
          continue;
        }
        if s.size >= size {
          if fit.None? || slots[fit.value].size > s.size {
            fit := Some(i);
          }
        } else {
          if nofit.None? || slots[nofit.value].size < s.size {
            nofit := Some(i);
          }
        }
      }
      if fit.Some? {
        index := fit.value;
      } else if nofit.Some? {
        index := nofit.value;
        slots := slots[index := Slot(0, 0, false, grown)];
      } else {
        slots := slots + [Slot(0, 0, false, grown)];
        index := |slots| - 1;
      }
      Assign(cl, index);
    }

    method FindFree() returns (found: Option<nat>)
      ensures found == FirstFree(slots, 0)
    {
      for i := 0 to |slots|
        invariant FirstFree(slots, 0) == FirstFree(slots, i)
      {
        if slots[i].waiting {
          continue;
        }
        if slots[i].completed == slots[i].lastSignal {
          return Some(i);
        }
      }
      return None;
    }

    method GetPerList(cl: Key) returns (index: nat)
      modifies this
      ensures (Contents(), index) == old(Contents()).TakePerList(cl)
    {
      if cl in owners && owners[cl] != [] {
        return owners[cl][0];
      }
      var found := FindFree();
      if found.Some? {
        index := found.value;
      } else {
        slots := slots + [Slot(0, 0, false, 0)];
        index := |slots| - 1;
      }
      Assign(cl, index);
    }

    method GetFixed(cl: Key) returns (found: Option<nat>)
      modifies this
      ensures match old(Contents()).TakeFixed(cl)
              case None => found == None && Contents() == old(Contents())
              case Some((pool, i)) => found == Some(i) && Contents() == pool
    {
      found := FindFree();
      if found.Some? {
        Assign(cl, found.value);
      }
    }

    method Submit(cl: Key)
      requires forall i :: i in Contents().OwnedBy(cl) ==> i < |slots|
      modifies this
      ensures Contents() == old(Contents()).Submitted(cl)
    {
      if cl in owners {
        var indices := owners[cl];
        for n := 0 to |indices|
          invariant slots == Signalled(old(slots), indices[..n]) && |slots| == |old(slots)|
          invariant owners == old(owners)
        {
          assert indices[..n + 1][..n] == indices[..n];
          var i := indices[n];
          assert i in old(Contents()).OwnedBy(cl);
          slots := slots[i := slots[i].(lastSignal := slots[i].lastSignal + 1, waiting := false)];
        }
        assert indices[..|indices|] == indices;
        owners := owners - {cl};
      }
      assert owners == old(owners) - {cl};
    }

    method Drop(cl: Key)
      requires forall i :: i in Contents().OwnedBy(cl) ==> i < |slots|
      modifies this
      ensures Contents() == old(Contents()).Dropped(cl)
    {
      if cl in owners {
        var indices := owners[cl];
        for n := 0 to |indices|
          invariant slots == Unwaited(old(slots), indices[..n]) && |slots| == |old(slots)|
          invariant owners == old(owners)
        {
          assert indices[..n + 1][..n] == indices[..n];
          var i := indices[n];
          assert i in old(Contents()).OwnedBy(cl);
          slots := slots[i := slots[i].(waiting := false)];
        }
        assert indices[..|indices|] == indices;
        owners := owners - {cl};
      }
      assert owners == old(owners) - {cl};
    }
  }
}
