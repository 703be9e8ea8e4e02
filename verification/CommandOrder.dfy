/** Which commands a header leads to, in which order, and which identifiers they get. */
module CommandOrder {
  import opened CommandIds

  datatype Header = Header(functions: seq<Function>, interfaces: seq<Interface>)

  /** A declaration as an update meets it: position of its API, whether it is a method, position of the
      function or interface in the header, and position of the method in its interface. */
  datatype Origin = Origin(api: nat, isMethod: bool, declaration: nat, index: nat)

  predicate Before(a: Origin, b: Origin) {
    if a.api != b.api then a.api < b.api
    else if a.isMethod != b.isMethod then b.isMethod
    else if a.declaration != b.declaration then a.declaration < b.declaration
    else a.index < b.index
  }

  /** There is such a declaration. */
  predicate Declared(h: Header, o: Origin) {
    && o.api < |APIS|
    && if o.isMethod then
         && o.declaration < |h.interfaces| && h.interfaces[o.declaration].api == APIS[o.api]
         && o.index < |h.interfaces[o.declaration].functions|
       else
         o.declaration < |h.functions| && h.functions[o.declaration].api == APIS[o.api] && o.index == 0
  }

  /** ID_FUNCTION or ID_INTERFACE_METHOD, for the API of the declaration. */
  function CommandOf(h: Header, o: Origin, upper: string -> string): Command
    requires Declared(h, o)
  {
    if o.isMethod then
      var i := h.interfaces[o.declaration];
      Command(i.api, "ID_" + upper(i.name) + "_" + upper(i.functions[o.index]))
    else
      var f := h.functions[o.declaration];
      Command(f.api, "ID_" + upper(f.name))
  }

  ghost predicate InOrder(origins: seq<Origin>) {
    forall i, j :: 0 <= i < j < |origins| ==> Before(origins[i], origins[j])
  }

  /** The commands are those of the origins, one for one. */
  ghost predicate Names(h: Header, origins: seq<Origin>, commands: seq<Command>, upper: string -> string) {
    && |commands| == |origins|
    && forall n :: 0 <= n < |origins| ==> Declared(h, origins[n]) && commands[n] == CommandOf(h, origins[n], upper)
  }

  /** A list of declarations with their commands. */
  ghost predicate Lists(h: Header, origins: seq<Origin>, commands: seq<Command>, upper: string -> string) {
    InOrder(origins) && Names(h, origins, commands, upper)
  }

  lemma Joined(h: Header, a: seq<Origin>, b: seq<Origin>, x: seq<Command>, y: seq<Command>, upper: string -> string)
    requires Lists(h, a, x, upper) && Lists(h, b, y, upper)
    requires forall o, p :: o in a && p in b ==> Before(o, p)
    ensures Lists(h, a + b, x + y, upper)
    ensures forall o :: o in a + b <==> o in a || o in b
  {
    hide CommandOf, Declared;
    forall i, j | 0 <= i < j < |a + b| ensures Before((a + b)[i], (a + b)[j]) {
      if i < |a| <= j {
        assert a[i] in a && b[j - |a|] in b;
      }
    }
  }

  lemma One(h: Header, o: Origin, upper: string -> string)
    requires Declared(h, o)
    ensures Lists(h, [o], [CommandOf(h, o, upper)], upper)
  {
  }

  /** The first n free functions, as far as they belong to API a. */
  lemma {:induction false} FunctionOrigins(h: Header, a: nat, n: nat, upper: string -> string) returns (origins: seq<Origin>)
    requires a < |APIS| && n <= |h.functions|
    ensures Lists(h, origins, FunctionCommands(APIS[a], h.functions[..n], upper), upper)
    ensures forall o :: o in origins <==> Declared(h, o) && o.api == a && !o.isMethod && o.declaration < n
    decreases n
  {
    if n == 0 {
      origins := [];
    } else {
      var front := FunctionOrigins(h, a, n - 1, upper);
      var o := Origin(a, false, n - 1, 0);
      assert h.functions[..n][..n - 1] == h.functions[..n - 1];
      if h.functions[n - 1].api == APIS[a] {
        One(h, o, upper);
        Joined(h, front, [o], FunctionCommands(APIS[a], h.functions[..n - 1], upper), [CommandOf(h, o, upper)], upper);
        origins := front + [o];
      } else {
        origins := front;
        assert FunctionCommands(APIS[a], h.functions[..n], upper) == FunctionCommands(APIS[a], h.functions[..n - 1], upper) + [];
      }
    }
  }

  /** The first n methods of interface d. */
  lemma {:induction false} MethodOrigins(h: Header, a: nat, d: nat, n: nat, upper: string -> string) returns (origins: seq<Origin>)
    requires a < |APIS| && d < |h.interfaces| && h.interfaces[d].api == APIS[a] && n <= |h.interfaces[d].functions|
    ensures Lists(h, origins, MethodCommands(APIS[a], h.interfaces[d].name, h.interfaces[d].functions[..n], upper), upper)
    ensures forall o :: o in origins <==> Declared(h, o) && o.api == a && o.isMethod && o.declaration == d && o.index < n
    decreases n
  {
    var i := h.interfaces[d];
    if n == 0 {
      origins := [];
    } else {
      var front := MethodOrigins(h, a, d, n - 1, upper);
      var o := Origin(a, true, d, n - 1);
      assert i.functions[..n][..n - 1] == i.functions[..n - 1];
      One(h, o, upper);
      Joined(h, front, [o], MethodCommands(APIS[a], i.name, i.functions[..n - 1], upper), [CommandOf(h, o, upper)], upper);
      origins := front + [o];
    }
  }

  /** The methods of the first n interfaces, as far as these belong to API a. */
  lemma {:induction false} InterfaceOrigins(h: Header, a: nat, n: nat, upper: string -> string) returns (origins: seq<Origin>)
    requires a < |APIS| && n <= |h.interfaces|
    ensures Lists(h, origins, InterfaceCommands(APIS[a], h.interfaces[..n], upper), upper)
    ensures forall o :: o in origins <==> Declared(h, o) && o.api == a && o.isMethod && o.declaration < n
    decreases n
  {
    if n == 0 {
      origins := [];
    } else {
      var front := InterfaceOrigins(h, a, n - 1, upper);
      var before, i := InterfaceCommands(APIS[a], h.interfaces[..n - 1], upper), h.interfaces[n - 1];
      assert h.interfaces[..n][..n - 1] == h.interfaces[..n - 1];
      if i.api == APIS[a] {
        var methods := MethodOrigins(h, a, n - 1, |i.functions|, upper);
        assert i.functions[..|i.functions|] == i.functions;
        Joined(h, front, methods, before, MethodCommands(APIS[a], i.name, i.functions, upper), upper);
        origins := front + methods;
      } else {
        origins := front;
        assert InterfaceCommands(APIS[a], h.interfaces[..n], upper) == before + [];
      }
    }
  }

  lemma LastApi(h: Header, n: nat, upper: string -> string)
    requires 0 < n <= |APIS|
    ensures HeaderCommands(APIS[..n], h.functions, h.interfaces, upper)
         == HeaderCommands(APIS[..n - 1], h.functions, h.interfaces, upper)
            + (FunctionCommands(APIS[n - 1], h.functions, upper) + InterfaceCommands(APIS[n - 1], h.interfaces, upper))
  {
    assert APIS[..n][..n - 1] == APIS[..n - 1];
  }

  /** The declarations of the first n APIs. */
  lemma {:induction false} ApiOrigins(h: Header, n: nat, upper: string -> string) returns (origins: seq<Origin>)
    requires n <= |APIS|
    ensures Lists(h, origins, HeaderCommands(APIS[..n], h.functions, h.interfaces, upper), upper)
    ensures forall o :: o in origins <==> Declared(h, o) && o.api < n
    decreases n
  {
    if n == 0 {
      origins := [];
    } else {
      var front := ApiOrigins(h, n - 1, upper);
      var functions := FunctionOrigins(h, n - 1, |h.functions|, upper);
      var methods := InterfaceOrigins(h, n - 1, |h.interfaces|, upper);
      assert h.functions[..|h.functions|] == h.functions && h.interfaces[..|h.interfaces|] == h.interfaces;
      var x := FunctionCommands(APIS[n - 1], h.functions, upper);
      var y := InterfaceCommands(APIS[n - 1], h.interfaces, upper);
      LastApi(h, n, upper);
      hide Lists, Declared, HeaderCommands;
      Joined(h, functions, methods, x, y, upper);
      Joined(h, front, functions + methods, HeaderCommands(APIS[..n - 1], h.functions, h.interfaces, upper), x + y, upper);
      origins := front + (functions + methods);
    }
  }

  /** The commands of an update are exactly those of the header's declarations: API by API, free
      functions before methods, each in header order, none left out and none repeated. */
  lemma HeaderInOrder(h: Header, upper: string -> string) returns (origins: seq<Origin>)
    ensures Lists(h, origins, HeaderCommands(APIS, h.functions, h.interfaces, upper), upper)
    ensures forall o :: o in origins <==> Declared(h, o)
  {
    origins := ApiOrigins(h, |APIS|, upper);
    assert APIS[..|APIS|] == APIS;
  }

  lemma OneMore(c: Cache, commands: seq<Command>, command: Command)
    requires c.Complete()
    ensures Updated(c, commands + [command]) == Cached(Updated(c, commands), command)
  {
    assert (commands + [command])[..|commands|] == commands;
  }

  lemma SplitAt(c: Cache, commands: seq<Command>, j: nat)
    requires c.Complete() && j < |commands|
    ensures Updated(c, commands) == Updated(Cached(Updated(c, commands[..j]), commands[j]), commands[j + 1..])
  {
    hide Updated, Cached;
    OneMore(c, commands[..j], commands[j]);
    assert commands == commands[..j] + [commands[j]] + commands[j + 1..];
    UpdatedConcat(c, commands[..j] + [commands[j]], commands[j + 1..]);
  }

  lemma NewIsLargest(c: Cache, reserved: map<Api, nat>, known: Command, command: Command)
    requires Dense(c, reserved) && known in c.ids && command !in c.ids && known.api == command.api
    ensures var ids := Cached(c, command).ids; known in ids && command in ids && ids[known] < ids[command]
  {
    hide Begin, NoGaps, DistinctIds;
  }

  /** A command met for the first time gets a larger identifier than every earlier one of its API. */
  lemma IdsFollowOrder(c: Cache, commands: seq<Command>, reserved: map<Api, nat>, i: nat, j: nat)
    requires Dense(c, reserved) && i < j < |commands| && commands[i].api == commands[j].api
    requires commands[j] !in c.ids && commands[j] !in commands[..j]
    ensures var ids := Updated(c, commands).ids;
      commands[i] in ids && commands[j] in ids && ids[commands[i]] < ids[commands[j]]
  {
    hide Updated, InRange, NoGaps, DistinctIds;
    var before := Updated(c, commands[..j]);
    UpdatesStayDense(c, commands[..j], reserved);
    IdsAreStable(c, commands[..j]);
    assert commands[..j][i] == commands[i];
    NewIsLargest(before, reserved, commands[i], commands[j]);
    SplitAt(c, commands, j);
    IdsAreStable(Cached(before, commands[j]), commands[j + 1..]);
  }

  /** The cache after the first update of the documented empty file. */
  function FirstUpdate(h: Header, upper: string -> string): (c: Cache)
    ensures c.Complete()
  {
    EmptyFileIsDense();
    Updated(EmptyFile(), HeaderCommands(APIS, h.functions, h.interfaces, upper))
  }

  /** Exactly the commands of the header's declarations get an identifier. */
  lemma DeclaredCommandsGiven(h: Header, upper: string -> string, p: Command)
    ensures p in FirstUpdate(h, upper).ids <==> exists o :: Declared(h, o) && CommandOf(h, o, upper) == p
  {
    var origins := HeaderInOrder(h, upper);
    var commands := HeaderCommands(APIS, h.functions, h.interfaces, upper);
    EmptyFileIsDense();
    IdsAreStable(EmptyFile(), commands);
    hide CommandOf, Declared, HeaderCommands, InOrder, Updated;
    if p in commands {
      var n :| 0 <= n < |commands| && commands[n] == p;
      assert Declared(h, origins[n]) && CommandOf(h, origins[n], upper) == p;
    }
    if o :| Declared(h, o) && CommandOf(h, o, upper) == p {
      var n :| 0 <= n < |origins| && origins[n] == o;
      assert commands[n] == p;
    }
  }

  /** Identifiers of an API follow the order of its declarations: a declaration whose command is not
      that of an earlier one gets a larger identifier than every declaration before it. With
      FromTheEmptyFile this determines all of them. */
  lemma HeaderIdentifiers(h: Header, upper: string -> string, o: Origin, p: Origin)
    requires Declared(h, o) && Declared(h, p) && o.api == p.api && Before(o, p)
    requires forall q :: Declared(h, q) && Before(q, p) ==> CommandOf(h, q, upper) != CommandOf(h, p, upper)
    ensures var ids, x, y := FirstUpdate(h, upper).ids, CommandOf(h, o, upper), CommandOf(h, p, upper);
      x in ids && y in ids && ids[x] < ids[y]
  {
    var origins := HeaderInOrder(h, upper);
    var commands := HeaderCommands(APIS, h.functions, h.interfaces, upper);
    EmptyFileIsDense();
    var i :| 0 <= i < |origins| && origins[i] == o;
    var j :| 0 <= j < |origins| && origins[j] == p;
    EarlierInList(origins, i, j);
    assert commands[i].api == commands[j].api;
    hide CommandOf, Declared, HeaderCommands, Updated, Dense;
    forall n | 0 <= n < j ensures commands[n] != commands[j] {
      assert Before(origins[n], origins[j]);
    }
    IdsFollowOrder(EmptyFile(), commands, EmptyFile().counts, i, j);
  }

  lemma Asymmetric(a: Origin, b: Origin)
    ensures !(Before(a, b) && Before(b, a))
  {
  }

  lemma EarlierInList(origins: seq<Origin>, i: nat, j: nat)
    requires InOrder(origins) && i < |origins| && j < |origins| && Before(origins[i], origins[j])
    ensures i < j
  {
    Asymmetric(origins[i], origins[j]);
  }
}
