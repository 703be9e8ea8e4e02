/** The shared state of the object creation service. Each function below is one critical section
    (or one main-thread-only operation) of the service; the class carries them out on its fields. */
module CreationService {
  import opened ReplayCommands

  /** tasks[k] says whether a worker has started the creation task of k (its future is valid). */
  datatype Service = Service(
    tasks: map<Key, bool>,
    queue: seq<Key>,
    refCounts: map<Key, int>,
    dependencies: map<Key, seq<Key>>)
  {
    predicate Pending(k: Key) {
      k in tasks && !tasks[k]
    }

    predicate Started(k: Key) {
      k in tasks && tasks[k]
    }

    function Deferred(k: Key): int {
      if k in refCounts then refCounts[k] else 0
    }

    function Consumers(provider: Key): seq<Key> {
      if provider in dependencies then dependencies[provider] else []
    }

    function Schedule(k: Key): Service {
      if k in tasks then this else this.(tasks := tasks[k := false], queue := queue + [k])
    }

    function AddDependency(provider: Key, consumer: Key): Service {
      if provider == 0 || consumer == 0 then this
      else this.(dependencies := dependencies[provider := Consumers(provider) + [consumer]])
    }

    function AddDependencies(providers: seq<Key>, consumer: Key): Service {
      if providers == [] then this
      else AddDependencies(providers[..|providers| - 1], consumer).AddDependency(providers[|providers| - 1], consumer)
    }

    function DropConsumers(provider: Key): Service {
      this.(dependencies := dependencies - {provider})
    }

    /** ScheduleUpdateRefCount when it returns true. */
    function Defer(k: Key, count: int): Service {
      this.(refCounts := refCounts[k := Deferred(k) + count])
    }

    /** A worker takes the front of the queue. */
    function Pop(): Service
      requires queue != []
    {
      this.(queue := queue[1..], tasks := if queue[0] in tasks then tasks[queue[0] := true] else tasks)
    }

    /** The critical section of Complete for a registered key. */
    function Detach(k: Key): Service
      requires k in tasks
    {
      this.(tasks := tasks - {k}, queue := if tasks[k] then queue else Without(queue, k))
    }

    function ForgetDeferred(k: Key): Service {
      this.(refCounts := refCounts - {k})
    }
  }

  /** The queue with every occurrence of k removed, as std::remove leaves it. */
  function Without(queue: seq<Key>, k: Key): seq<Key> {
    if queue == [] then []
    else
      var front := Without(queue[..|queue| - 1], k);
      if queue[|queue| - 1] == k then front else front + [queue[|queue| - 1]]
  }

  predicate Distinct(q: seq<Key>) {
    forall i, j :: 0 <= i < j < |q| ==> q[i] != q[j]
  }

  lemma {:induction false} WithoutIsRemoval(queue: seq<Key>, k: Key)
    requires Distinct(queue)
    ensures forall x :: x in Without(queue, k) <==> x in queue && x != k
    ensures Distinct(Without(queue, k))
    ensures |Without(queue, k)| == |queue| - if k in queue then 1 else 0
  {
    if queue != [] {
      var front := queue[..|queue| - 1];
      WithoutIsRemoval(front, k);
      assert queue == front + [queue[|queue| - 1]];
      assert queue[|queue| - 1] !in front;
    }
  }

  /** A COM object as the service sees it: a reference count. */
  class ComObject {
    var count: int

    constructor ()
      ensures count == 1
    {
      count := 1;
    }

    method AddRef()
      modifies this
      ensures count == old(count) + 1
    {
      count := count + 1;
    }

    method Release()
      modifies this
      ensures count == old(count) - 1
    {
      count := count - 1;
    }
  }

  /** The count of a new object once the deferred updates have been applied to it: one Release for
      a negative total, which the code asserts to be -1. */
  function AppliedCount(deferred: int): int {
    if deferred < 0 then 0 else 1 + deferred
  }

  class MultithreadedObjectCreationService {
    var tasks: map<Key, bool>
    var queue: seq<Key>
    var refCounts: map<Key, int>
    var dependencies: map<Key, seq<Key>>

    function Contents(): Service
      reads this
    {
      Service(tasks, queue, refCounts, dependencies)
    }

    constructor ()
      ensures Contents() == Service(map[], [], map[], map[])
    {
      tasks, queue, refCounts, dependencies := map[], [], map[], map[];
    }

    method Schedule(k: Key)
      modifies this
      ensures Contents() == old(Contents()).Schedule(k)
      ensures refCounts == old(refCounts) && dependencies == old(dependencies)
      ensures k in old(tasks) ==> tasks == old(tasks) && queue == old(queue)
      ensures k !in old(tasks) ==> tasks == old(tasks)[k := false] && queue == old(queue) + [k]
    {
      if k !in tasks {
        tasks := tasks[k := false];
        queue := queue + [k];
      }
    }

    method AddDependency(provider: Key, consumer: Key)
      modifies this
      ensures Contents() == old(Contents()).AddDependency(provider, consumer)
      ensures tasks == old(tasks) && queue == old(queue) && refCounts == old(refCounts)
      ensures forall p :: Contents().Consumers(p) == old(Contents().Consumers(p))
                + if p == provider && provider != 0 && consumer != 0 then [consumer] else []
    {
      if provider == 0 || consumer == 0 {
        return;
      }
      if provider !in dependencies {
        dependencies := dependencies[provider := []];
      }
      dependencies := dependencies[provider := dependencies[provider] + [consumer]];
    }

    /** The dependency recording of ScheduleCreate and ScheduleLoad. */
    method AddDependencies(providers: seq<Key>, consumer: Key)
      modifies this
      ensures Contents() == old(Contents()).AddDependencies(providers, consumer)
    {
      for i := 0 to |providers|
        invariant Contents() == old(Contents()).AddDependencies(providers[..i], consumer)
      {
        assert providers[..i + 1][..i] == providers[..i];
        AddDependency(providers[i], consumer);
      }
      assert providers[..|providers|] == providers;
    }

    method CollectConsumers(provider: Key) returns (consumers: seq<Key>)
      modifies this
      ensures consumers == if provider in old(dependencies) then old(dependencies)[provider] else []
      ensures Contents() == old(Contents()).DropConsumers(provider)
      ensures forall p :: Contents().Consumers(p) == if p == provider then [] else old(Contents().Consumers(p))
    {
      if provider !in dependencies {
        assert dependencies - {provider} == dependencies;
        return [];
      }
      consumers := dependencies[provider];
      dependencies := dependencies - {provider};
    }

    /** True exactly when the update was deferred. */
    method ScheduleUpdateRefCount(k: Key, count: int) returns (scheduled: bool)
      modifies this
      ensures scheduled == old(Contents()).Pending(k)
      ensures Contents() == if scheduled then old(Contents()).Defer(k, count) else old(Contents())
      ensures forall j :: Contents().Deferred(j) == old(Contents().Deferred(j)) + if scheduled && j == k then count else 0
    {
      if k !in tasks {
        return false;
      }
      if tasks[k] {
        return false;
      }
      if k !in refCounts {
        refCounts := refCounts[k := 0];
      }
      refCounts := refCounts[k := refCounts[k] + count];
      return true;
    }

    method PopTask() returns (k: Key)
      requires queue != []
      modifies this
      ensures Contents() == old(Contents()).Pop()
      ensures old(queue) == [k] + queue
      ensures k in old(tasks) ==> tasks == old(tasks)[k := true]
      ensures refCounts == old(refCounts) && dependencies == old(dependencies)
    {
      k := queue[0];
      queue := queue[1..];
      if k in tasks {
        tasks := tasks[k := true];
      }
    }

    /** The critical section of Complete. `found` is false for a key that is not registered;
        `started` says that the caller must wait on the future instead of creating the object. */
    method DetachTask(k: Key) returns (found: bool, started: bool)
      modifies this
      ensures found == (k in old(tasks))
      ensures started == old(Contents()).Started(k)
      ensures Contents() == if found then old(Contents()).Detach(k) else old(Contents())
    {
      if k !in tasks {
        return false, false;
      }
      found, started := true, tasks[k];
      tasks := tasks - {k};
      if !started {
        var kept: seq<Key> := [];
        for i := 0 to |queue|
          invariant kept == Without(queue[..i], k)
          invariant Contents() == old(Contents()).(tasks := old(tasks) - {k})
        {
          assert queue[..i + 1][..i] == queue[..i];
          if queue[i] != k {
            kept := kept + [queue[i]];
          }
        }
        assert queue[..|queue|] == queue;
        queue := kept;
      }
    }

    /** The tail of CreateObject: take the deferred total and apply it to the new object. */
    method ApplyDeferred(k: Key, created: ComObject)
      requires created.count == 1
      modifies this, created
      ensures Contents() == old(Contents()).ForgetDeferred(k)
      ensures forall j :: Contents().Deferred(j) == if j == k then 0 else old(Contents().Deferred(j))
      ensures old(Contents().Deferred(k)) >= 0 ==> created.count == 1 + old(Contents().Deferred(k))
      ensures created.count == AppliedCount(old(Contents()).Deferred(k))
    {
      var refCount := if k in refCounts then refCounts[k] else 0;
      refCounts := refCounts - {k};
      if refCount != 0 {
        if refCount < 0 {
          created.Release();
        }
        var i := 0;
        while i < refCount
          invariant refCount >= 0 ==> i <= refCount && created.count == 1 + i
          invariant refCount < 0 ==> i == 0 && created.count == 0
          invariant Contents() == old(Contents()).ForgetDeferred(k)
        {
          created.AddRef();
          i := i + 1;
        }
      }
    }
  }
}
