/** Stable command identifiers: a cache on disk numbers the commands of each API from the API's own
    base, and later headers only add to it. */
module CommandIds {

  datatype Api = COMMON | DXGI | DXGI_DEBUG | D3D12 | D3D12_DEBUG | DML | XESS | DSTORAGE | XELL | XEFG

  const APIS := [COMMON, DXGI, DXGI_DEBUG, D3D12, D3D12_DEBUG, DML, XESS, DSTORAGE, XELL, XEFG]
  const META_BEGIN := 13 * 0x1_0000
  const BLOCK := 0x500

  /** The bases leave a block for each API; two blocks are reserved for others. */
  function Begin(api: Api): nat {
    match api
    case COMMON => META_BEGIN + BLOCK
    case DXGI => META_BEGIN + 2 * BLOCK
    case DXGI_DEBUG => META_BEGIN + 3 * BLOCK
    case D3D12 => META_BEGIN + 4 * BLOCK
    case D3D12_DEBUG => META_BEGIN + 5 * BLOCK
    case DML => META_BEGIN + 6 * BLOCK
    case XESS => META_BEGIN + 8 * BLOCK
    case DSTORAGE => META_BEGIN + 9 * BLOCK
    case XELL => META_BEGIN + 11 * BLOCK
    case XEFG => META_BEGIN + 12 * BLOCK
  }

  /** Each base lies one block after the one before it; the blocks of the two other APIs are passed over. */
  lemma BasesInOrder()
    ensures Begin(COMMON) == 0xD_0500
    ensures Begin(DXGI) == Begin(COMMON) + 0x500 && Begin(DXGI_DEBUG) == Begin(DXGI) + 0x500
    ensures Begin(D3D12) == Begin(DXGI_DEBUG) + 0x500 && Begin(D3D12_DEBUG) == Begin(D3D12) + 0x500
    ensures Begin(DML) == Begin(D3D12_DEBUG) + 0x500 && Begin(XESS) == Begin(DML) + 2 * 0x500
    ensures Begin(DSTORAGE) == Begin(XESS) + 0x500 && Begin(XELL) == Begin(DSTORAGE) + 2 * 0x500
    ensures Begin(XEFG) == Begin(XELL) + 0x500
  {
  }

  datatype Command = Command(api: Api, name: string)

  /** The cache file: a count for each API and the identifiers given so far. */
  datatype Cache = Cache(counts: map<Api, nat>, ids: map<Command, nat>)
  {
    predicate Complete() {
      forall api: Api :: api in counts
    }
  }

  function Cached(c: Cache, command: Command): Cache
    requires c.Complete()
  {
    if command in c.ids then c
    else Cache(c.counts[command.api := c.counts[command.api] + 1], c.ids[command := Begin(command.api) + c.counts[command.api]])
  }

  /** The cache after a sequence of commands, over any number of header updates. */
  function Updated(c: Cache, commands: seq<Command>): (r: Cache)
    requires c.Complete()
    ensures r.Complete()
  {
    if commands == [] then c
    else Cached(Updated(c, commands[..|commands| - 1]), commands[|commands| - 1])
  }

  /** A header: free functions, and interfaces with their methods. */
  datatype Function = Function(api: Api, name: string)
  datatype Interface = Interface(api: Api, name: string, functions: seq<string>)

  function FunctionCommands(api: Api, functions: seq<Function>, upper: string -> string): seq<Command> {
    if functions == [] then []
    else
      var f := functions[|functions| - 1];
      FunctionCommands(api, functions[..|functions| - 1], upper)
      + if f.api == api then [Command(api, "ID_" + upper(f.name))] else []
  }

  function MethodCommands(api: Api, name: string, methods: seq<string>, upper: string -> string): seq<Command> {
    if methods == [] then []
    else MethodCommands(api, name, methods[..|methods| - 1], upper)
         + [Command(api, "ID_" + upper(name) + "_" + upper(methods[|methods| - 1]))]
  }

  function InterfaceCommands(api: Api, interfaces: seq<Interface>, upper: string -> string): seq<Command> {
    if interfaces == [] then []
    else
      var i := interfaces[|interfaces| - 1];
      InterfaceCommands(api, interfaces[..|interfaces| - 1], upper)
      + if i.api == api then MethodCommands(api, i.name, i.functions, upper) else []
  }

  function ApiCommands(api: Api, functions: seq<Function>, interfaces: seq<Interface>, upper: string -> string): seq<Command> {
    FunctionCommands(api, functions, upper) + InterfaceCommands(api, interfaces, upper)
  }

  /** All commands of a header, API by API: the order identifiers are given in. */
  function HeaderCommands(apis: seq<Api>, functions: seq<Function>, interfaces: seq<Interface>, upper: string -> string): seq<Command> {
    if apis == [] then []
    else HeaderCommands(apis[..|apis| - 1], functions, interfaces, upper)
         + ApiCommands(apis[|apis| - 1], functions, interfaces, upper)
  }

  class CommandIdsFile {
    var counts: map<Api, nat>
    var ids: map<Command, nat>

    function Contents(): Cache
      reads this
    {
      Cache(counts, ids)
    }

    method CacheCommand(command: Command)
      requires Contents().Complete()
      modifies this
      ensures Contents() == Cached(old(Contents()), command)
    {
      if command in ids {
        return;
      }
      var id := Begin(command.api) + counts[command.api];
      counts := counts[command.api := counts[command.api] + 1];
      ids := ids[command := id];
    }

    method CacheAll(commands: seq<Command>)
      requires Contents().Complete()
      modifies this
      ensures Contents() == Updated(old(Contents()), commands)
    {
      for i := 0 to |commands|
        invariant Contents() == Updated(old(Contents()), commands[..i])
      {
        assert commands[..i + 1][..i] == commands[..i];
        CacheCommand(commands[i]);
      }
      assert commands[..|commands|] == commands;
    }

    /** build_command_ids with the update flag: collect the commands of each API, then cache them. */
    method BuildCommandIds(functions: seq<Function>, interfaces: seq<Interface>, upper: string -> string)
      requires Contents().Complete()
      modifies this
      ensures Contents() == Updated(old(Contents()), HeaderCommands(APIS, functions, interfaces, upper))
    {
      for a := 0 to |APIS|
        invariant Contents() == Updated(old(Contents()), HeaderCommands(APIS[..a], functions, interfaces, upper))
      {
        var commands := CollectCommands(APIS[a], functions, interfaces, upper);
        assert APIS[..a + 1][..a] == APIS[..a];
        UpdatedConcat(old(Contents()), HeaderCommands(APIS[..a], functions, interfaces, upper), commands);
        CacheAll(commands);
      }
      assert APIS[..|APIS|] == APIS;
    }
  }

  method CollectFunctions(api: Api, functions: seq<Function>, upper: string -> string) returns (commands: seq<Command>)
    ensures commands == FunctionCommands(api, functions, upper)
  {
    commands := [];
    for i := 0 to |functions|
      invariant commands == FunctionCommands(api, functions[..i], upper)
    {
      assert functions[..i + 1][..i] == functions[..i];
      if functions[i].api == api {
        commands := commands + [Command(api, "ID_" + upper(functions[i].name))];
      }
    }
    assert functions[..|functions|] == functions;
  }

  method CollectMethods(api: Api, name: string, methods: seq<string>, upper: string -> string) returns (commands: seq<Command>)
    ensures commands == MethodCommands(api, name, methods, upper)
  {
    commands := [];
    for j := 0 to |methods|
      invariant commands == MethodCommands(api, name, methods[..j], upper)
    {
      assert methods[..j + 1][..j] == methods[..j];
      commands := commands + [Command(api, "ID_" + upper(name) + "_" + upper(methods[j]))];
    }
    assert methods[..|methods|] == methods;
  }

  method CollectCommands(api: Api, functions: seq<Function>, interfaces: seq<Interface>, upper: string -> string)
    returns (commands: seq<Command>)
    ensures commands == ApiCommands(api, functions, interfaces, upper)
  {
    var ofFunctions := CollectFunctions(api, functions, upper);
    commands := [];
    for i := 0 to |interfaces|
      invariant commands == InterfaceCommands(api, interfaces[..i], upper)
    {
      assert interfaces[..i + 1][..i] == interfaces[..i];
      if interfaces[i].api == api {
        var ofMethods := CollectMethods(api, interfaces[i].name, interfaces[i].functions, upper);
        commands := commands + ofMethods;
      }
    }
    assert interfaces[..|interfaces|] == interfaces;
    commands := ofFunctions + commands;
  }

  lemma {:induction false} UpdatedConcat(c: Cache, a: seq<Command>, b: seq<Command>)
    requires c.Complete()
    ensures Updated(c, a + b) == Updated(Updated(c, a), b)
  {
    if b == [] {
      assert a + b == a;
    } else {
      var n := |b| - 1;
      UpdatedConcat(c, a, b[..n]);
      assert (a + b)[..|a + b| - 1] == a + b[..n];
    }
  }

  // ---------------------------------------------------------------------------------------------
  // What any number of updates keeps

  ghost predicate InRange(c: Cache, reserved: map<Api, nat>)
    requires c.Complete()
  {
    && (forall api: Api :: api in reserved && reserved[api] <= c.counts[api])
    && forall p :: p in c.ids ==> Begin(p.api) + reserved[p.api] <= c.ids[p] < Begin(p.api) + c.counts[p.api]
  }

  ghost predicate DistinctIds(c: Cache) {
    forall p, q :: p in c.ids && q in c.ids && p.api == q.api && c.ids[p] == c.ids[q] ==> p == q
  }

  ghost predicate Given(c: Cache, api: Api, n: nat) {
    exists p :: p in c.ids && p.api == api && c.ids[p] == Begin(api) + n
  }

  ghost predicate NoGaps(c: Cache, reserved: map<Api, nat>)
    requires c.Complete() && forall api: Api :: api in reserved
  {
    forall api: Api, n: nat :: reserved[api] <= n < c.counts[api] ==> Given(c, api, n)
  }

  /** Identifiers of an API are exactly the numbers from its base plus its reserved count up to its
      current count, each given once. */
  ghost predicate Dense(c: Cache, reserved: map<Api, nat>) {
    c.Complete() && InRange(c, reserved) && DistinctIds(c) && NoGaps(c, reserved)
  }

  lemma CachedNoGaps(c: Cache, command: Command, reserved: map<Api, nat>)
    requires Dense(c, reserved) && command !in c.ids
    ensures NoGaps(Cached(c, command), reserved)
  {
    hide Begin, DistinctIds;
    var d := Cached(c, command);
    forall api: Api, n: nat | reserved[api] <= n < d.counts[api] ensures Given(d, api, n) {
      if n < c.counts[api] {
        assert Given(c, api, n);
        var p :| p in c.ids && p.api == api && c.ids[p] == Begin(api) + n;
        assert p in d.ids && d.ids[p] == c.ids[p];
      } else {
        assert command in d.ids;
      }
    }
  }

  lemma CachedDense(c: Cache, command: Command, reserved: map<Api, nat>)
    requires Dense(c, reserved)
    ensures Dense(Cached(c, command), reserved)
  {
    hide Begin, NoGaps;
    if command !in c.ids {
      CachedNoGaps(c, command, reserved);
    }
  }

  /** Identifiers within an API stay distinct and consecutive. */
  lemma {:induction false} UpdatesStayDense(c: Cache, commands: seq<Command>, reserved: map<Api, nat>)
    requires Dense(c, reserved)
    ensures Dense(Updated(c, commands), reserved)
  {
    hide Begin, InRange, NoGaps, DistinctIds, Cached;
    if commands != [] {
      UpdatesStayDense(c, commands[..|commands| - 1], reserved);
      CachedDense(Updated(c, commands[..|commands| - 1]), commands[|commands| - 1], reserved);
    }
  }

  /** An identifier once given never changes, and every command seen has one. */
  lemma {:induction false} IdsAreStable(c: Cache, commands: seq<Command>)
    requires c.Complete()
    ensures forall p :: p in c.ids ==> p in Updated(c, commands).ids && Updated(c, commands).ids[p] == c.ids[p]
    ensures forall p :: p in Updated(c, commands).ids <==> p in c.ids || p in commands
    ensures forall api: Api :: c.counts[api] <= Updated(c, commands).counts[api]
  {
    if commands != [] {
      IdsAreStable(c, commands[..|commands| - 1]);
      assert commands == commands[..|commands| - 1] + [commands[|commands| - 1]];
    }
  }

  /** A header seen before changes nothing. */
  lemma {:induction false} SameHeaderTwice(c: Cache, commands: seq<Command>)
    requires c.Complete() && forall p :: p in commands ==> p in c.ids
    ensures Updated(c, commands) == c
  {
    if commands != [] {
      SameHeaderTwice(c, commands[..|commands| - 1]);
    }
  }

  /** An API stays inside its block exactly as long as its count is at most 0x500. */
  lemma BlockExactly(c: Cache, reserved: map<Api, nat>, api: Api)
    requires Dense(c, reserved) && c.counts[api] > reserved[api]
    ensures (forall p :: p in c.ids && p.api == api ==> Begin(api) <= c.ids[p] < Begin(api) + BLOCK) <==> c.counts[api] <= BLOCK
  {
    if c.counts[api] > BLOCK {
      var n := c.counts[api] - 1;
      assert Given(c, api, n);
    }
  }

  /** After any updates, identifiers of different APIs do not collide while every count is at most 0x500. */
  lemma NoCollisions(c: Cache, commands: seq<Command>, reserved: map<Api, nat>, p: Command, q: Command)
    requires Dense(c, reserved) && forall api: Api :: Updated(c, commands).counts[api] <= BLOCK
    requires p in Updated(c, commands).ids && q in Updated(c, commands).ids && p != q
    ensures Updated(c, commands).ids[p] != Updated(c, commands).ids[q]
  {
    hide Begin, NoGaps, Updated;
    UpdatesStayDense(c, commands, reserved);
    if p.api != q.api {
      BlocksApart(p.api, q.api);
    }
  }

  lemma BlocksApart(a: Api, b: Api)
    requires a != b
    ensures Begin(a) + BLOCK <= Begin(b) || Begin(b) + BLOCK <= Begin(a)
  {
  }

  /** Some identifier of API a is also one of API b. */
  ghost predicate Collide(c: Cache, a: Api, b: Api) {
    exists p, q :: p in c.ids && q in c.ids && p.api == a && q.api == b && c.ids[p] == c.ids[q]
  }

  /** The numbers given for a and those given for b have one in common. */
  predicate RangesMeet(c: Cache, reserved: map<Api, nat>, a: Api, b: Api)
    requires a in c.counts && b in c.counts && a in reserved && b in reserved
  {
    && reserved[a] < c.counts[a] && reserved[b] < c.counts[b]
    && Begin(a) + reserved[a] < Begin(b) + c.counts[b] && Begin(b) + reserved[b] < Begin(a) + c.counts[a]
  }

  lemma DenseKnows(c: Cache, reserved: map<Api, nat>, api: Api)
    requires Dense(c, reserved)
    ensures api in c.counts && api in reserved
  {
  }

  lemma CollisionInRanges(c: Cache, reserved: map<Api, nat>, a: Api, b: Api)
    requires Dense(c, reserved) && Collide(c, a, b)
    ensures a in c.counts && b in c.counts && a in reserved && b in reserved && RangesMeet(c, reserved, a, b)
  {
    hide Begin, NoGaps, DistinctIds;
    var p, q :| p in c.ids && q in c.ids && p.api == a && q.api == b && c.ids[p] == c.ids[q];
  }

  lemma SameNumberGiven(c: Cache, a: Api, b: Api, m: nat, n: nat)
    requires Given(c, a, m) && Given(c, b, n) && Begin(a) + m == Begin(b) + n
    ensures Collide(c, a, b)
  {
    hide Begin;
    var p :| p in c.ids && p.api == a && c.ids[p] == Begin(a) + m;
    var q :| q in c.ids && q.api == b && c.ids[q] == Begin(b) + n;
  }

  lemma GivenBetween(c: Cache, reserved: map<Api, nat>, api: Api, id: nat)
    requires Dense(c, reserved) && api in c.counts && api in reserved
    requires Begin(api) + reserved[api] <= id < Begin(api) + c.counts[api]
    ensures Given(c, api, id - Begin(api))
  {
    hide Begin, InRange, DistinctIds, Given;
  }

  /** Two APIs collide if and only if the ranges of the numbers given for them meet. */
  lemma CollideExactly(c: Cache, reserved: map<Api, nat>, a: Api, b: Api)
    requires Dense(c, reserved)
    ensures a in c.counts && b in c.counts && a in reserved && b in reserved
    ensures Collide(c, a, b) <==> RangesMeet(c, reserved, a, b)
  {
    hide Begin, Dense, Collide, Given;
    DenseKnows(c, reserved, a);
    DenseKnows(c, reserved, b);
    if Collide(c, a, b) {
      CollisionInRanges(c, reserved, a, b);
    }
    if RangesMeet(c, reserved, a, b) {
      var low := if Begin(a) + reserved[a] < Begin(b) + reserved[b] then Begin(b) + reserved[b] else Begin(a) + reserved[a];
      GivenBetween(c, reserved, a, low);
      GivenBetween(c, reserved, b, low);
      SameNumberGiven(c, a, b, low - Begin(a), low - Begin(b));
    }
  }

  /** The file a fresh checkout starts from: begin markers and hand-written commands are reserved. */
  function EmptyFile(): Cache {
    Cache(map[COMMON := 4, DXGI := 1, DXGI_DEBUG := 1, D3D12 := 1, D3D12_DEBUG := 1, DML := 1, XESS := 1,
              DSTORAGE := 1, XELL := 1, XEFG := 1], map[])
  }

  lemma EveryApi(counts: map<Api, nat>)
    requires counts.Keys == {COMMON, DXGI, DXGI_DEBUG, D3D12, D3D12_DEBUG, DML, XESS, DSTORAGE, XELL, XEFG}
    ensures forall api: Api :: api in counts
  {
    forall api: Api ensures api in counts {
      match api case COMMON => case DXGI => case DXGI_DEBUG => case D3D12 => case D3D12_DEBUG => case DML =>
        case XESS => case DSTORAGE => case XELL => case XEFG =>
    }
  }

  lemma EmptyFileIsDense()
    ensures Dense(EmptyFile(), EmptyFile().counts)
  {
    EveryApi(EmptyFile().counts);
  }

  /** Whatever headers follow, the identifiers of each API are its numbers from the reserved count up,
      each given once, and two APIs collide exactly when their ranges meet. */
  lemma FromTheEmptyFile(commands: seq<Command>, a: Api, b: Api)
    ensures EmptyFile().Complete()
    ensures var c, reserved := Updated(EmptyFile(), commands), EmptyFile().counts;
      && Dense(c, reserved) && a in c.counts && b in c.counts && a in reserved && b in reserved
      && (Collide(c, a, b) <==> RangesMeet(c, reserved, a, b))
  {
    hide EmptyFile, Updated, Collide, RangesMeet, InRange, DistinctIds, NoGaps;
    EmptyFileIsDense();
    UpdatesStayDense(EmptyFile(), commands, EmptyFile().counts);
    CollideExactly(Updated(EmptyFile(), commands), EmptyFile().counts, a, b);
  }

  /** One count over the limit is enough for a collision. */
  function Overfull(): Cache {
    EmptyFile().(counts := EmptyFile().counts[COMMON := BLOCK + 1])
  }

  lemma CollisionBeyondBlock()
    ensures Overfull().Complete()
    ensures var p, q := Command(COMMON, "ID_A"), Command(DXGI, "ID_B");
      var ids := Cached(Cached(Overfull(), p), q).ids;
      p in ids && q in ids && p != q && ids[p] == ids[q]
  {
    EveryApi(EmptyFile().counts);
  }
}
