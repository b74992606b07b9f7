/** `CommandsRegistry` (custom_aider/commands_registry.py): a process-wide table of
    command handlers, completion providers and descriptions, and the step that installs
    them as attributes of the host's command class. */
module Registry {
  import opened Util
  import opened Ordering
  import opened OrderedDict

  /** A Python value handed to `register` or found on the host class, reduced to what the
      registry looks at: whether `callable(v)` holds, whether the value is truthy, and its
      `__doc__` text ("" when there is none). `id` stands for object identity. */
  datatype Value = PyNone | Object(id: nat, isCallable: bool, isTruthy: bool, doc: string)

  predicate Callable(v: Value) {
    v.Object? && v.isCallable
  }

  predicate Truthy(v: Value) {
    v.Object? && v.isTruthy
  }

  function DocText(v: Value): string {
    if v.Object? then v.doc else ""
  }

  /** `register` either returns normally or raises `TypeError` with one of two messages. */
  datatype Outcome = Registered | TypeError(message: string)

  const HandlerNotCallable := "Command handler must be callable"
  const CompletionsNotCallable := "Completions must be callable"
  const NoDescription := "No description available"

  function CommandKey(name: string): (k: string)
    ensures StartsWith(k, "cmd_") && k[4..] == name
  {
    "cmd_" + name
  }

  function CompletionsKey(name: string): (k: string)
    ensures StartsWith(k, "completions_") && k[12..] == name
  {
    "completions_" + name
  }

  /** No command key is ever a completions key: the two prefixes differ at index 1. */
  lemma KeysDisjoint(k: string)
    requires StartsWith(k, "cmd_")
    ensures !StartsWith(k, "completions_")
  {
    assert k[1] == "cmd_"[1];
  }

  /** The host class: every attribute name `hasattr` finds on it, with its value. */
  class HostClass {
    var attrs: map<string, Value>

    constructor (attrs: map<string, Value>)
      ensures this.attrs == attrs
    {
      this.attrs := attrs;
    }
  }

  /** `attrs` after every entry of `table` whose name `attrs` lacks has been set on it. */
  function Merge(attrs: map<string, Value>, table: map<string, Value>): map<string, Value> {
    map k | k in attrs.Keys + table.Keys :: if k in attrs then attrs[k] else table[k]
  }

  /** The class's attributes after `install_commands`: handlers first, then completion
      providers, each set only when the class does not already have that attribute. */
  function Installed(attrs: map<string, Value>, commands: map<string, Value>,
                     completions: map<string, Value>): map<string, Value> {
    Merge(Merge(attrs, commands), completions)
  }

  /** The listed keys that are already attributes: the `Warning: Command ... already exists`
      lines, in iteration order. */
  function Colliding(keys: seq<string>, attrs: map<string, Value>): (r: seq<string>)
    ensures forall k :: k in r <==> k in keys && k in attrs
  {
    if keys == [] then []
    else
      var rest := Colliding(keys[..|keys| - 1], attrs);
      var last := keys[|keys| - 1];
      assert keys == keys[..|keys| - 1] + [last];
      if last in attrs then rest + [last] else rest
  }

  /** Installing never changes an attribute the class already had. */
  lemma InstallKeepsExisting(attrs: map<string, Value>, commands: map<string, Value>,
                             completions: map<string, Value>, k: string)
    requires k in attrs
    ensures k in Installed(attrs, commands, completions)
    ensures Installed(attrs, commands, completions)[k] == attrs[k]
  {
  }

  /** Installing adds every registered handler and completion provider whose key is free,
      and nothing else. */
  lemma InstallAddsFree(attrs: map<string, Value>, commands: map<string, Value>,
                        completions: map<string, Value>)
    ensures Installed(attrs, commands, completions).Keys == attrs.Keys + commands.Keys + completions.Keys
    ensures forall k :: k in commands && k !in attrs ==> Installed(attrs, commands, completions)[k] == commands[k]
  {
  }

  /** A completion provider is installed whenever its own key is free, whether or not the
      command of the same name was skipped. */
  lemma CompletionInstalledIndependently(attrs: map<string, Value>, commands: map<string, Value>,
                                         completions: map<string, Value>, name: string)
    requires forall k :: k in commands ==> StartsWith(k, "cmd_")
    requires CompletionsKey(name) in completions && CompletionsKey(name) !in attrs
    ensures Installed(attrs, commands, completions)[CompletionsKey(name)] == completions[CompletionsKey(name)]
  {
    var key := CompletionsKey(name);
    if key in commands {
      KeysDisjoint(key);
    }
    assert key !in Merge(attrs, commands);
  }

  /** A second installation changes nothing and skips every handler. */
  lemma {:induction false} InstallIdempotent(attrs: map<string, Value>, commands: map<string, Value>,
                                             completions: map<string, Value>, keys: seq<string>)
    requires forall k :: k in commands <==> k in keys
    ensures var once := Installed(attrs, commands, completions);
            Installed(once, commands, completions) == once && Colliding(keys, once) == keys
  {
    var once := Installed(attrs, commands, completions);
    assert Merge(once, commands) == once;
    assert Merge(once, completions) == once;
    CollidingAll(keys, once);
  }

  lemma {:induction false} CollidingAll(keys: seq<string>, attrs: map<string, Value>)
    requires forall k :: k in keys ==> k in attrs
    ensures Colliding(keys, attrs) == keys
  {
    if keys != [] {
      CollidingAll(keys[..|keys| - 1], attrs);
      assert keys == keys[..|keys| - 1] + [keys[|keys| - 1]];
    }
  }

  /** The names with the 4-character `cmd_` prefix removed, in order. */
  function StripCommandPrefix(keys: seq<string>): (r: seq<string>)
    requires forall k :: k in keys ==> StartsWith(k, "cmd_")
    ensures |r| == |keys|
    ensures forall i :: 0 <= i < |r| ==> CommandKey(r[i]) == keys[i]
  {
    if keys == [] then []
    else
      assert keys[0] in keys;
      assert StartsWith(keys[0], "cmd_");
      assert keys[0] == keys[0][..4] + keys[0][4..];
      [keys[0][4..]] + StripCommandPrefix(keys[1..])
  }

  class CommandsRegistry {
    /** `_commands`, keyed `cmd_<name>`. */
    var commands: Dict<Value>
    /** `_completions`, keyed `completions_<name>`. */
    var completions: Dict<Value>
    /** `_descriptions`, keyed by the plain name. */
    var descriptions: Dict<string>

    ghost predicate Valid()
      reads this
    {
      && commands.Valid() && completions.Valid() && descriptions.Valid()
      && (forall k :: k in commands.values ==> StartsWith(k, "cmd_"))
      && (forall k :: k in completions.values ==> StartsWith(k, "completions_"))
    }

    constructor ()
      ensures Valid()
      ensures commands == Empty() && completions == Empty() && descriptions == Empty()
    {
      commands, completions, descriptions := Empty(), Empty(), Empty();
    }

    /** `register(name, handler, completions)`. A non-callable handler raises before
        anything is stored; a truthy non-callable `completions` raises after the handler
        (and its description) have been stored; a falsy `completions` is ignored. */
    method Register(name: string, handler: Value, completionsArg: Value) returns (r: Outcome)
      requires Valid()
      modifies this
      ensures Valid()
      ensures !Callable(handler) ==>
                && r == TypeError(HandlerNotCallable)
                && commands == old(commands) && completions == old(completions)
                && descriptions == old(descriptions)
      ensures Callable(handler) ==>
                && commands == old(commands).Put(CommandKey(name), handler)
                && descriptions == (if DocText(handler) != "" then old(descriptions).Put(name, DocText(handler))
                                    else old(descriptions))
      ensures Callable(handler) && !Truthy(completionsArg) ==>
                r == Registered && completions == old(completions)
      ensures Callable(handler) && Truthy(completionsArg) && !Callable(completionsArg) ==>
                r == TypeError(CompletionsNotCallable) && completions == old(completions)
      ensures Callable(handler) && Truthy(completionsArg) && Callable(completionsArg) ==>
                r == Registered && completions == old(completions).Put(CompletionsKey(name), completionsArg)
    {
      if !Callable(handler) {
        return TypeError(HandlerNotCallable);
      }
      if DocText(handler) != "" {
        descriptions := descriptions.Put(name, DocText(handler));
      }
      commands := commands.Put(CommandKey(name), handler);
      r := Registered;
      if Truthy(completionsArg) {
        if !Callable(completionsArg) {
          return TypeError(CompletionsNotCallable);
        }
        completions := completions.Put(CompletionsKey(name), completionsArg);
      }
    }

    /** `install_commands(instance)`: returns the handler keys that were skipped because the
        class already had them (the warnings). */
    method InstallCommands(target: HostClass) returns (skipped: seq<string>)
      requires Valid()
      modifies target
      ensures Valid() && unchanged(this)
      ensures target.attrs == Installed(old(target.attrs), commands.values, completions.values)
      ensures skipped == Colliding(commands.keys, old(target.attrs))
    {
      ghost var before := target.attrs;
      skipped := InstallTable(target, commands);
      ghost var middle := target.attrs;
      var _ := InstallTable(target, completions);
      assert target.attrs == Merge(middle, completions.values);
    }

    /** `list_commands()`. */
    function ListCommands(): (r: seq<string>)
      reads this
      requires Valid()
      ensures |r| == |commands.keys| && Distinct(r)
      ensures forall i :: 0 <= i < |r| ==> CommandKey(r[i]) == commands.keys[i]
    {
      StripCommandPrefix(commands.keys)
    }

    /** `get_command(name)`. */
    function GetCommand(name: string): (r: Option<Value>)
      reads this
      ensures r.Some? <==> CommandKey(name) in commands.values
      ensures r.Some? ==> r.value == commands.values[CommandKey(name)]
    {
      commands.Get(CommandKey(name))
    }

    /** `get_description(name)`. */
    function GetDescription(name: string): (r: string)
      reads this
      ensures name in descriptions.values ==> r == descriptions.values[name]
      ensures name !in descriptions.values ==> r == NoDescription
    {
      match descriptions.Get(name)
      case Some(d) => d
      case None => NoDescription
    }

    /** `remove_command(name)`: drops the name from all three tables; a no-op for unknown names. */
    method RemoveCommand(name: string)
      requires Valid()
      modifies this
      ensures Valid()
      ensures commands == old(commands).Pop(CommandKey(name))
      ensures completions == old(completions).Pop(CompletionsKey(name))
      ensures descriptions == old(descriptions).Pop(name)
    {
      commands := commands.Pop(CommandKey(name));
      completions := completions.Pop(CompletionsKey(name));
      descriptions := descriptions.Pop(name);
    }

    /** `clear()`. */
    method Clear()
      modifies this
      ensures Valid()
      ensures commands == Empty() && completions == Empty() && descriptions == Empty()
    {
      commands, completions, descriptions := Empty(), Empty(), Empty();
    }
  }

  /** One installation loop: set each entry of `table`, in order, unless the class already
      has an attribute of that name. */
  method InstallTable(target: HostClass, table: Dict<Value>) returns (skipped: seq<string>)
    requires table.Valid()
    modifies target
    ensures target.attrs == Merge(old(target.attrs), table.values)
    ensures skipped == Colliding(table.keys, old(target.attrs))
  {
    ghost var before := target.attrs;
    var keys := table.keys;
    skipped := [];
    var i := 0;
    while i < |keys|
      invariant 0 <= i <= |keys|
      invariant target.attrs == Merge(before, Assigned(keys[..i], table.values))
      invariant skipped == Colliding(keys[..i], before)
    {
      var name := keys[i];
      TakeSnoc(keys, i);
      assert name !in keys[..i] by { DistinctPrefix(keys, i); }
      assert name in table.values by { assert name in keys; }
      MergeStep(before, keys[..i], table.values, name);
      if name in target.attrs {
        skipped := skipped + [name];
      } else {
        target.attrs := target.attrs[name := table.values[name]];
      }
      i := i + 1;
    }
    assert keys[..i] == keys;
    AssignedAll(keys, table.values);
  }

  /** The entries of `vals` under the keys in `ks`. */
  function Assigned(ks: seq<string>, vals: map<string, Value>): map<string, Value> {
    map k | k in ks && k in vals :: vals[k]
  }

  lemma AssignedAll(keys: seq<string>, vals: map<string, Value>)
    requires forall k :: k in vals <==> k in keys
    ensures Assigned(keys, vals) == vals
  {
  }

  lemma DistinctPrefix(keys: seq<string>, i: nat)
    requires Distinct(keys) && i < |keys|
    ensures keys[i] !in keys[..i]
  {
    forall j | 0 <= j < i ensures keys[..i][j] != keys[i] {
      assert keys[..i][j] == keys[j];
    }
  }

  /** One more key, not seen before, is set unless the class had it from the start. */
  lemma MergeStep(before: map<string, Value>, ks: seq<string>, vals: map<string, Value>, n: string)
    requires n !in ks && n in vals
    ensures n in Merge(before, Assigned(ks, vals)) <==> n in before
    ensures Merge(before, Assigned(ks + [n], vals))
            == if n in before then Merge(before, Assigned(ks, vals)) else Merge(before, Assigned(ks, vals))[n := vals[n]]
  {
    var a, b := Assigned(ks, vals), Assigned(ks + [n], vals);
    assert n !in a;
    if n in before {
      assert Merge(before, b) == Merge(before, a) by {
        assert forall k :: k in b <==> k in a || k == n;
      }
    } else {
      assert b == a[n := vals[n]] by {
        assert forall k :: k in b <==> k in a || k == n;
      }
    }
  }

  // Properties of whole registration sequences, each checked from a fresh (or cleared)
  // registry, as the design's testable properties describe them.

  /** After `register(name, h)`, `get_command(name)` returns `h`; registering the same name
      again replaces it (last write wins) without listing the name twice. */
  method LastRegistrationWins(name: string, h1: Value, h2: Value) returns (got: Option<Value>, listed: seq<string>)
    requires Callable(h1) && Callable(h2)
    ensures got == Some(h2)
    ensures listed == [name]
  {
    var reg := new CommandsRegistry();
    var _ := reg.Register(name, h1, PyNone);
    var _ := reg.Register(name, h2, PyNone);
    got := reg.GetCommand(name);
    listed := reg.ListCommands();
    assert CommandKey(listed[0]) == CommandKey(name);
  }

  /** A later registration without doc text keeps the earlier description; a name that never
      had doc text gets the placeholder. */
  method DescriptionSurvivesUndocumented(name: string, other: string, h1: Value, h2: Value)
    returns (kept: string, placeholder: string)
    requires Callable(h1) && Callable(h2) && DocText(h1) != "" && DocText(h2) == ""
    requires other != name
    ensures kept == DocText(h1)
    ensures placeholder == NoDescription
  {
    var reg := new CommandsRegistry();
    var _ := reg.Register(name, h1, PyNone);
    var _ := reg.Register(name, h2, PyNone);
    var _ := reg.Register(other, h2, PyNone);
    kept := reg.GetDescription(name);
    placeholder := reg.GetDescription(other);
  }

  /** A non-callable handler raises and stores nothing. */
  method RejectedHandlerStoresNothing(name: string, h: Value, c: Value)
    returns (r: Outcome, got: Option<Value>, listed: seq<string>)
    requires !Callable(h)
    ensures r == TypeError(HandlerNotCallable)
    ensures got == None && listed == []
  {
    var reg := new CommandsRegistry();
    r := reg.Register(name, h, c);
    got := reg.GetCommand(name);
    listed := reg.ListCommands();
  }

  /** A truthy but non-callable completions argument raises only after the handler has been
      stored: the registration is left half done. */
  method BadCompletionsLeavesHandler(name: string, h: Value, c: Value)
    returns (r: Outcome, got: Option<Value>, hasCompletions: bool)
    requires Callable(h) && Truthy(c) && !Callable(c)
    ensures r == TypeError(CompletionsNotCallable)
    ensures got == Some(h)
    ensures !hasCompletions
  {
    var reg := new CommandsRegistry();
    r := reg.Register(name, h, c);
    got := reg.GetCommand(name);
    hasCompletions := CompletionsKey(name) in reg.completions.values;
  }

  /** `list_commands` gives each name once, in first-registration order. */
  method ListingOrder(a: string, b: string, ha: Value, hb: Value) returns (listed: seq<string>)
    requires a != b && Callable(ha) && Callable(hb)
    ensures listed == [a, b]
  {
    var reg := new CommandsRegistry();
    var _ := reg.Register(a, ha, PyNone);
    var _ := reg.Register(b, hb, PyNone);
    var _ := reg.Register(a, hb, PyNone);
    ListedInOrder(a, b, ha, hb, hb);
    listed := reg.ListCommands();
  }

  /** Registering `a`, then `b`, then `a` again lists `a` before `b`. */
  lemma ListedInOrder(a: string, b: string, h1: Value, h2: Value, h3: Value)
    requires a != b
    ensures var d := Empty<Value>().Put(CommandKey(a), h1).Put(CommandKey(b), h2).Put(CommandKey(a), h3);
            d.keys == [CommandKey(a), CommandKey(b)] && StripCommandPrefix(d.keys) == [a, b]
  {
    assert CommandKey(a) != CommandKey(b) by { assert CommandKey(a)[4..] != CommandKey(b)[4..]; }
    var keys := [CommandKey(a), CommandKey(b)];
    var r := StripCommandPrefix(keys);
    assert CommandKey(r[0]) == CommandKey(a) && CommandKey(r[1]) == CommandKey(b);
    assert r[0] == CommandKey(r[0])[4..] && r[1] == CommandKey(r[1])[4..];
  }

  /** After `remove_command` (also of an unknown name) or `clear`, lookups behave as if
      the name had never been registered. */
  method RemoveAndClear(name: string, h: Value, c: Value)
    returns (afterRemove: Option<Value>, removeTwice: Option<Value>, afterClear: seq<string>, description: string)
    requires Callable(h) && Callable(c) && Truthy(c)
    ensures afterRemove == None && removeTwice == None
    ensures afterClear == [] && description == NoDescription
  {
    var reg := new CommandsRegistry();
    var _ := reg.Register(name, h, c);
    reg.RemoveCommand(name);
    afterRemove := reg.GetCommand(name);
    reg.RemoveCommand(name);
    removeTwice := reg.GetCommand(name);
    var _ := reg.Register(name, h, c);
    reg.Clear();
    afterClear := reg.ListCommands();
    description := reg.GetDescription(name);
  }

  /** Installing onto a class that already defines the command's attribute keeps the class's
      own value and reports the collision; a second installation skips everything. */
  method InstallTwice(name: string, h: Value, c: Value, builtin: Value)
    returns (first: seq<string>, second: seq<string>, kept: Value, completion: Value)
    requires Callable(h) && Callable(c) && Truthy(c)
    ensures first == [CommandKey(name)] && second == [CommandKey(name)]
    ensures kept == builtin && completion == c
  {
    var reg := new CommandsRegistry();
    var _ := reg.Register(name, h, c);
    assert reg.commands.keys == [CommandKey(name)] && reg.commands.values == map[CommandKey(name) := h];
    assert reg.completions.values == map[CompletionsKey(name) := c];
    var host := new HostClass(map[CommandKey(name) := builtin]);
    InstalledOnce(name, h, c, builtin);
    first := reg.InstallCommands(host);
    second := reg.InstallCommands(host);
    kept := host.attrs[CommandKey(name)];
    completion := host.attrs[CompletionsKey(name)];
  }

  /** One registered command whose key the class already has: installing keeps the class's
      value, adds the completion provider and reports the key, and a second installation
      changes nothing and reports the key again. */
  lemma InstalledOnce(name: string, h: Value, c: Value, builtin: Value)
    ensures var attrs := map[CommandKey(name) := builtin];
            var commands := map[CommandKey(name) := h];
            var completions := map[CompletionsKey(name) := c];
            var once := Installed(attrs, commands, completions);
            && CommandKey(name) in once && once[CommandKey(name)] == builtin
            && CompletionsKey(name) in once && once[CompletionsKey(name)] == c
            && Colliding([CommandKey(name)], attrs) == [CommandKey(name)]
            && Installed(once, commands, completions) == once
            && Colliding([CommandKey(name)], once) == [CommandKey(name)]
  {
    var ck, pk := CommandKey(name), CompletionsKey(name);
    KeysDisjoint(ck);
    assert ck != pk;
    var attrs := map[ck := builtin];
    var once := Installed(attrs, map[ck := h], map[pk := c]);
    assert Colliding([ck], attrs) == [ck] by { assert [ck][..0] == []; }
    assert Colliding([ck], once) == [ck] by { assert [ck][..0] == []; }
    InstallIdempotent(attrs, map[ck := h], map[pk := c], [ck]);
  }
}
