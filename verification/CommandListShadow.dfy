/** The patch layer issues its own compute work in the middle of the application's command lists. It
    keeps a shadow of each list's compute state and replays it afterwards. The reference is the command
    list itself, as the graphics API defines it. */
module CommandListShadow {
  import opened Wrappers

  type Key = nat
  type Index = nat

  /** A pipeline state or, for ray tracing, a state object: the list has one slot for both. */
  datatype Pipeline = Pipeline(object: nat, isStateObject: bool)

  datatype ViewKind = ShaderResource | ConstantBuffer | UnorderedAccess

  datatype Command =
    | SetPipeline(pipeline: Pipeline)
    | SetRootSignature(signature: nat)                  // 0 is the null signature
    | SetTable(index: Index, base: nat)
    | SetView(index: Index, kind: ViewKind, location: nat)
    | SetConstant(index: Index, data: nat, offset: nat)
    | SetConstants(index: Index, values: seq<nat>, offset: nat)
    | Reset(initial: Option<Pipeline>)
    | ClearState(initial: Option<Pipeline>)
  {
    predicate SetsArgument() {
      SetTable? || SetView? || SetConstant? || SetConstants?
    }
  }

  // ---------------------------------------------------------------------------------------------
  // The reference: a command list

  datatype Argument =
    | Table(base: nat)
    | View(kind: ViewKind, location: nat)
    | Constants(values: map<nat, nat>)                  // by offset

  datatype ListState = ListState(pipeline: Option<Pipeline>, signature: nat, arguments: map<Index, Argument>)

  const CLEARED := ListState(None, 0, map[])

  predicate Within(values: seq<nat>, offset: nat, i: nat) {
    offset <= i < offset + |values|
  }

  function Written(values: seq<nat>, offset: nat): map<nat, nat> {
    map i: nat | i < offset + |values| && Within(values, offset, i) :: values[i - offset]
  }

  /** What an argument command leaves in its parameter; constants are kept where they are not overwritten. */
  function Bound(before: Option<Argument>, c: Command): Argument
    requires c.SetsArgument()
  {
    match c
    case SetTable(_, base) => Table(base)
    case SetView(_, kind, location) => View(kind, location)
    case SetConstant(_, data, offset) => Overlaid(before, Written([data], offset))
    case SetConstants(_, values, offset) => Overlaid(before, Written(values, offset))
  }

  function Overlaid(before: Option<Argument>, written: map<nat, nat>): Argument {
    if before.Some? && before.value.Constants? then Constants(before.value.values + written) else Constants(written)
  }

  function At<T>(m: map<Index, T>, i: Index): Option<T> {
    if i in m then Some(m[i]) else None
  }

  /** Setting the signature that is already set keeps its bindings; a different one makes them stale. */
  function Apply(s: ListState, c: Command): ListState {
    match c
    case SetPipeline(p) => s.(pipeline := Some(p))
    case SetRootSignature(g) => if g == s.signature then s else s.(signature := g, arguments := map[])
    case Reset(initial) => CLEARED.(pipeline := initial)
    case ClearState(initial) => CLEARED.(pipeline := initial)
    case _ => s.(arguments := s.arguments[c.index := Bound(At(s.arguments, c.index), c)])
  }

  class CommandList {
    var state: ListState

    constructor (s: ListState)
      ensures state == s
    {
      state := s;
    }

    method Issue(c: Command)
      modifies this
      ensures state == Apply(old(state), c)
    {
      state := Apply(state, c);
    }
  }

  // ---------------------------------------------------------------------------------------------
  // The shadow

  /** The last command of each root parameter. */
  datatype Shadow = Shadow(pipeline: Option<Pipeline>, signature: nat, arguments: map<Index, Command>)

  const EMPTY := Shadow(None, 0, map[])

  /** StoreCommand and Reset; ClearState is not intercepted. */
  function Store(s: Shadow, c: Command): Shadow {
    match c
    case SetPipeline(p) => s.(pipeline := Some(p))
    case SetRootSignature(g) => s.(signature := g, arguments := map[])
    case Reset(initial) => EMPTY.(pipeline := initial)
    case ClearState(_) => s
    case _ => s.(arguments := s.arguments[c.index := c])
  }

  /** Shadows hold argument commands under their own index. */
  ghost predicate WellFormed(s: Shadow) {
    forall i :: i in s.arguments ==> s.arguments[i].SetsArgument() && s.arguments[i].index == i
  }

  /** The list state RestoreState leaves, starting from any state. */
  function Restored(device: ListState, s: Shadow): ListState
    requires WellFormed(s)
  {
    var d := if s.signature != 0 then Apply(device, SetRootSignature(s.signature)) else device;
    ListState(if s.pipeline.Some? then s.pipeline else d.pipeline, d.signature, Rebound(d.arguments, s.arguments, s.arguments.Keys))
  }

  function Rebound(before: map<Index, Argument>, last: map<Index, Command>, done: set<Index>): map<Index, Argument>
    requires done <= last.Keys && forall i :: i in last ==> last[i].SetsArgument()
  {
    map i | i in before.Keys + done :: if i in done then Bound(At(before, i), last[i]) else before[i]
  }

  lemma RebindNone(before: map<Index, Argument>, last: map<Index, Command>)
    requires forall i :: i in last ==> last[i].SetsArgument()
    ensures Rebound(before, last, {}) == before
  {
  }

  lemma RebindOne(before: map<Index, Argument>, last: map<Index, Command>, done: set<Index>, i: Index)
    requires done <= last.Keys && (forall i :: i in last ==> last[i].SetsArgument()) && i in last && i !in done
    ensures var now := Rebound(before, last, done);
      now[i := Bound(At(now, i), last[i])] == Rebound(before, last, done + {i})
  {
    hide Bound;
  }

  lemma ApplyArgument(s: ListState, c: Command)
    requires c.SetsArgument()
    ensures Apply(s, c) == s.(arguments := s.arguments[c.index := Bound(At(s.arguments, c.index), c)])
  {
  }

  /** Reissues one command a root parameter. */
  method RebindAll(last: map<Index, Command>, commandList: CommandList)
    requires forall i :: i in last ==> last[i].SetsArgument() && last[i].index == i
    modifies commandList
    ensures commandList.state == old(commandList.state).(arguments := Rebound(old(commandList.state.arguments), last, last.Keys))
  {
    hide Rebound, Bound, At, Apply;
    ghost var device := commandList.state;
    RebindNone(device.arguments, last);
    var rest := last.Keys;
    assert last.Keys - rest == {};
    while rest != {}
      invariant rest <= last.Keys
      invariant commandList.state == device.(arguments := Rebound(device.arguments, last, last.Keys - rest))
      decreases |rest|
    {
      var i :| i in rest;
      RebindOne(device.arguments, last, last.Keys - rest, i);
      assert last.Keys - (rest - {i}) == last.Keys - rest + {i};
      ApplyArgument(commandList.state, last[i]);
      commandList.Issue(last[i]);
      rest := rest - {i};
    }
    assert last.Keys - rest == last.Keys;
  }

  class GpuPatchCommandListService {
    var commandLists: map<Key, Shadow>

    constructor ()
      ensures commandLists == map[]
    {
      commandLists := map[];
    }

    /** A list without an entry has an empty shadow. */
    function ShadowOf(key: Key): Shadow
      reads this
    {
      if key in commandLists then commandLists[key] else EMPTY
    }

    method StoreCommand(key: Key, c: Command)
      requires !c.Reset? && !c.ClearState?
      modifies this
      ensures ShadowOf(key) == Store(old(ShadowOf(key)), c)
      ensures forall other :: other != key ==> ShadowOf(other) == old(ShadowOf(other))
    {
      var s := ShadowOf(key);
      if c.SetPipeline? {
        s := s.(pipeline := Some(c.pipeline));
      } else if c.SetRootSignature? {
        s := s.(signature := c.signature, arguments := map[]);
      } else {
        s := s.(arguments := s.arguments[c.index := c]);
      }
      commandLists := commandLists[key := s];
    }

    method ResetList(key: Key, initial: Option<Pipeline>)
      modifies this
      ensures ShadowOf(key) == Store(old(ShadowOf(key)), Reset(initial)) == Shadow(initial, 0, map[])
      ensures forall other :: other != key ==> ShadowOf(other) == old(ShadowOf(other))
    {
      if initial.Some? {
        commandLists := commandLists[key := EMPTY.(pipeline := initial)];
      } else {
        commandLists := commandLists - {key};
      }
    }

    method Remove(key: Key)
      modifies this
      ensures ShadowOf(key) == EMPTY == Shadow(None, 0, map[])
      ensures forall other :: other != key ==> ShadowOf(other) == old(ShadowOf(other))
    {
      commandLists := commandLists - {key};
    }

    /** Replays the pipeline, then the signature, then one command a root parameter. */
    method RestoreState(key: Key, commandList: CommandList)
      requires WellFormed(ShadowOf(key))
      modifies commandList
      ensures commandList.state == Restored(old(commandList.state), ShadowOf(key))
    {
      if key !in commandLists {
        return;
      }
      var s := commandLists[key];
      if s.pipeline.Some? {
        commandList.Issue(SetPipeline(s.pipeline.value));
      }
      if s.signature != 0 {
        commandList.Issue(SetRootSignature(s.signature));
      }
      RebindAll(s.arguments, commandList);
    }
  }

  // ---------------------------------------------------------------------------------------------
  // What the application gets back

  /** Every component set in r is the same in d; arguments count under a root signature only. */
  ghost predicate SameWhereSet(r: ListState, d: ListState) {
    && (r.pipeline.Some? ==> d.pipeline == r.pipeline)
    && (r.signature != 0 ==> d.signature == r.signature && d.arguments == r.arguments)
  }

  /** Whatever the patch work left in the list under its own root signature, replaying the shadow gives
      back every component of the list's state r that is set. */
  ghost predicate GivesBack(r: ListState, s: Shadow) {
    && WellFormed(s)
    && forall clobbered: ListState :: clobbered.signature != r.signature ==> SameWhereSet(r, Restored(clobbered, s))
  }

  /** The commands the shadow holds leave r's arguments, each in an empty parameter. */
  ghost predicate SameArguments(r: map<Index, Argument>, s: map<Index, Command>)
    requires forall i :: i in s ==> s[i].SetsArgument()
  {
    s.Keys == r.Keys && forall i :: i in s ==> Bound(None, s[i]) == r[i]
  }

  /** The shadow agrees with the list's state where that is set. */
  ghost predicate Agrees(r: ListState, s: Shadow) {
    && WellFormed(s)
    && (r.pipeline.Some? ==> s.pipeline == r.pipeline)
    && (r.signature != 0 ==> s.signature == r.signature && SameArguments(r.arguments, s.arguments))
  }

  lemma ReboundFromNothing(r: map<Index, Argument>, last: map<Index, Command>)
    requires forall i :: i in last ==> last[i].SetsArgument()
    ensures Rebound(map[], last, last.Keys) == r <==> SameArguments(r, last)
  {
    hide Bound;
    var d := Rebound(map[], last, last.Keys);
    assert d.Keys == last.Keys;
    assert forall i :: i in last ==> d[i] == Bound(None, last[i]);
  }

  /** A list with another signature and no pipeline tells whether the shadow agrees. */
  lemma GivesBackIsAgreement(r: ListState, s: Shadow)
    ensures GivesBack(r, s) <==> Agrees(r, s)
  {
    hide Rebound, SameArguments;
    if WellFormed(s) {
      ReboundFromNothing(r.arguments, s.arguments);
    }
    if GivesBack(r, s) {
      var clobbered := ListState(None, r.signature + 1, map[]);
      assert SameWhereSet(r, Restored(clobbered, s));
    }
  }

  function Offsets(c: Command): map<nat, nat> {
    match c
    case SetConstant(_, data, offset) => Written([data], offset)
    case SetConstants(_, values, offset) => Written(values, offset)
    case _ => map[]
  }

  /** No constant written before would survive beside the new ones. */
  ghost predicate Rewrites(r: ListState, i: Index, written: map<nat, nat>) {
    r.signature != 0 && i in r.arguments && r.arguments[i].Constants? ==> r.arguments[i].values.Keys <= written.Keys
  }

  /** What the layer relies on for each command: a root signature is not set again over live
      bindings, constants are rewritten whole, and ClearState sets no pipeline but the stored one. */
  ghost predicate Guard(r: ListState, s: Shadow, c: Command) {
    match c
    case SetRootSignature(g) => g == r.signature && g != 0 ==> r.arguments == map[]
    case SetConstant(i, _, _) => Rewrites(r, i, Offsets(c))
    case SetConstants(i, _, _) => Rewrites(r, i, Offsets(c))
    case ClearState(initial) => initial.Some? ==> s.pipeline == initial
    case _ => true
  }

  lemma OverlayExact(before: map<nat, nat>, written: map<nat, nat>)
    ensures before + written == written <==> before.Keys <= written.Keys
  {
    assert (before + written).Keys == before.Keys + written.Keys;
  }

  lemma ArgumentAgrees(r: ListState, s: Shadow, c: Command)
    requires Agrees(r, s) && c.SetsArgument()
    ensures Agrees(Apply(r, c), Store(s, c)) <==> r.signature == 0 || Bound(At(r.arguments, c.index), c) == Bound(None, c)
  {
    var q, t := Apply(r, c), Store(s, c);
    assert t.arguments[c.index] == c && q.arguments[c.index] == Bound(At(r.arguments, c.index), c);
    hide Bound;
  }

  lemma SignatureAgrees(r: ListState, s: Shadow, g: nat)
    requires Agrees(r, s)
    ensures Agrees(Apply(r, SetRootSignature(g)), Store(s, SetRootSignature(g))) <==> g == r.signature && g != 0 ==> r.arguments == map[]
  {
    hide Bound;
    assert r.arguments.Keys == {} <==> r.arguments == map[];
  }

  lemma StepAgrees(r: ListState, s: Shadow, c: Command)
    requires Agrees(r, s)
    ensures Agrees(Apply(r, c), Store(s, c)) <==> Guard(r, s, c)
  {
    match c
    case SetPipeline(_) =>
    case SetRootSignature(g) => SignatureAgrees(r, s, g);
    case Reset(_) =>
    case ClearState(_) =>
    case _ =>
      ArgumentAgrees(r, s, c);
      if c.index in r.arguments && r.arguments[c.index].Constants? {
        OverlayExact(r.arguments[c.index].values, Offsets(c));
      }
  }

  /** One command: what came back before it still does after it if and only if it meets its guard. */
  lemma GivesBackExactlyWhenGuarded(r: ListState, s: Shadow, c: Command)
    requires GivesBack(r, s)
    ensures GivesBack(Apply(r, c), Store(s, c)) <==> Guard(r, s, c)
  {
    hide GivesBack, Agrees, Guard, Apply, Store;
    GivesBackIsAgreement(r, s);
    GivesBackIsAgreement(Apply(r, c), Store(s, c));
    StepAgrees(r, s, c);
  }

  function Replay(r: ListState, commands: seq<Command>): ListState {
    if commands == [] then r else Apply(Replay(r, commands[..|commands| - 1]), commands[|commands| - 1])
  }

  function Shadowed(s: Shadow, commands: seq<Command>): Shadow {
    if commands == [] then s else Store(Shadowed(s, commands[..|commands| - 1]), commands[|commands| - 1])
  }

  /** RestoreState after the first n commands gives back what they set. */
  ghost predicate GivenBackAfter(commands: seq<Command>, n: nat)
    requires n <= |commands|
  {
    GivesBack(Replay(CLEARED, commands[..n]), Shadowed(EMPTY, commands[..n]))
  }

  ghost predicate GuardedAt(commands: seq<Command>, n: nat)
    requires n < |commands|
  {
    Guard(Replay(CLEARED, commands[..n]), Shadowed(EMPTY, commands[..n]), commands[n])
  }

  lemma NextGivenBack(commands: seq<Command>, n: nat)
    requires n < |commands| && GivenBackAfter(commands, n)
    ensures GivenBackAfter(commands, n + 1) <==> GuardedAt(commands, n)
  {
    assert commands[..n + 1][..n] == commands[..n];
    hide GivesBack, Guard, Apply, Store;
    GivesBackExactlyWhenGuarded(Replay(CLEARED, commands[..n]), Shadowed(EMPTY, commands[..n]), commands[n]);
  }

  lemma {:induction false} GivenBackUpTo(commands: seq<Command>, n: nat)
    requires n <= |commands|
    ensures (forall m :: 0 <= m <= n ==> GivenBackAfter(commands, m)) <==> forall m :: 0 <= m < n ==> GuardedAt(commands, m)
  {
    if n == 0 {
      GivesBackIsAgreement(CLEARED, EMPTY);
    } else {
      hide GivenBackAfter, GuardedAt;
      GivenBackUpTo(commands, n - 1);
      if forall m :: 0 <= m < n ==> GivenBackAfter(commands, m) {
        NextGivenBack(commands, n - 1);
      }
    }
  }

  /** For every sequence of commands: RestoreState gives back every component the application had set,
      wherever in the sequence it is called, if and only if every command meets its guard. */
  lemma RestoreGivesBack(commands: seq<Command>)
    ensures (forall n :: 0 <= n <= |commands| ==> GivenBackAfter(commands, n))
            <==> forall n :: 0 <= n < |commands| ==> GuardedAt(commands, n)
  {
    GivenBackUpTo(commands, |commands|);
  }

  /** Arguments are set under a root signature, as the API requires. */
  ghost predicate FollowSignature(commands: seq<Command>) {
    forall n :: 0 <= n < |commands| && commands[n].SetsArgument() ==> Replay(CLEARED, commands[..n]).signature != 0
  }

  /** Then nothing the application set escapes SameWhereSet: without a signature there are no arguments. */
  lemma {:induction false} NoSignatureNoArguments(commands: seq<Command>, n: nat)
    requires FollowSignature(commands) && n <= |commands|
    ensures var r := Replay(CLEARED, commands[..n]); r.signature == 0 ==> r.arguments == map[]
  {
    if n > 0 {
      NoSignatureNoArguments(commands, n - 1);
      assert commands[..n][..n - 1] == commands[..n - 1];
      hide Bound;
    }
  }

  lemma ThreeCommands(a: Command, b: Command, c: Command)
    ensures Replay(CLEARED, [a, b, c]) == Apply(Apply(Apply(CLEARED, a), b), c)
    ensures Shadowed(EMPTY, [a, b, c]) == Store(Store(Store(EMPTY, a), b), c)
  {
    var one, two, three := [a], [a, b], [a, b, c];
    assert one[..0] == [] && two[..1] == one && three[..2] == two;
    assert Replay(CLEARED, one) == Apply(CLEARED, a) && Shadowed(EMPTY, one) == Store(EMPTY, a);
    assert Replay(CLEARED, two) == Apply(Replay(CLEARED, one), b) && Shadowed(EMPTY, two) == Store(Shadowed(EMPTY, one), b);
  }

  /** The guards are needed. Setting the current signature again loses its bindings, ... */
  lemma RedundantSignatureLost(clobbered: ListState)
    requires clobbered.signature == 9
    ensures var again := [SetRootSignature(1), SetTable(0, 5), SetRootSignature(1)];
      Replay(CLEARED, again).arguments == map[0 := Table(5)]
      && WellFormed(Shadowed(EMPTY, again)) && Restored(clobbered, Shadowed(EMPTY, again)).arguments == map[]
  {
    ThreeCommands(SetRootSignature(1), SetTable(0, 5), SetRootSignature(1));
  }

  /** ... setting a parameter's constants in two calls keeps only the second, ... */
  lemma FirstConstantLost(clobbered: ListState)
    requires clobbered.signature == 9
    ensures var partly := [SetRootSignature(1), SetConstant(0, 5, 0), SetConstant(0, 6, 1)];
      Replay(CLEARED, partly).arguments == map[0 := Constants(map[0 := 5, 1 := 6])]
      && WellFormed(Shadowed(EMPTY, partly)) && Restored(clobbered, Shadowed(EMPTY, partly)).arguments == map[0 := Constants(map[1 := 6])]
  {
    hide Written, Replay, Shadowed;
    var a, b, c := SetRootSignature(1), SetConstant(0, 5, 0), SetConstant(0, 6, 1);
    ThreeCommands(a, b, c);
    TwoConstants();
    assert Apply(Apply(CLEARED, a), b).arguments == map[0 := Constants(map[0 := 5])];
    assert Store(Store(Store(EMPTY, a), b), c) == Shadow(None, 1, map[0 := c]);
    OnlyLast(clobbered, c);
  }

  lemma OnlyLast(clobbered: ListState, c: Command)
    requires clobbered.signature == 9 && c.SetsArgument() && c.index == 0
    ensures WellFormed(Shadow(None, 1, map[0 := c]))
    ensures Restored(clobbered, Shadow(None, 1, map[0 := c])).arguments == map[0 := Bound(None, c)]
  {
    hide Bound;
  }

  lemma TwoConstants()
    ensures Written([5], 0) == map[0 := 5] && Written([6], 1) == map[1 := 6]
    ensures map[0 := 5] + map[1 := 6] == map[0 := 5, 1 := 6]
  {
  }

  /** ... and a state cleared by the application comes back. */
  lemma ClearedStateReturns(clobbered: ListState)
    ensures var cleared := [SetRootSignature(1), SetPipeline(Pipeline(3, false)), ClearState(Some(Pipeline(4, false)))];
      Replay(CLEARED, cleared).pipeline == Some(Pipeline(4, false))
      && WellFormed(Shadowed(EMPTY, cleared)) && Restored(clobbered, Shadowed(EMPTY, cleared)).pipeline == Some(Pipeline(3, false))
  {
    ThreeCommands(SetRootSignature(1), SetPipeline(Pipeline(3, false)), ClearState(Some(Pipeline(4, false))));
  }
}
