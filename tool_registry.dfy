/**
 * The tool registry builder (`load_tools_from_directory`, core_functions.py,
 * lines 173-193).
 *
 * Importing and executing a plugin file is replaced by what the loop reads
 * from the result: the file name as `os.listdir` lists it, the module's
 * `tool_config` when it has one, and the module's attributes in the order
 * `dir(module)` lists them, each either a callable (`H`, the handler) or some
 * other value.
 */
module ToolRegistry {
  import opened Wrappers

  /** What `getattr(module, attr)` gives: something `callable`, or anything else. */
  datatype Attribute<H> = Callable(handler: H) | NotCallable

  /** One directory entry, and the module it defines once executed. */
  datatype PluginModule<C, H> = PluginModule(
    filename: string,
    toolConfig: Option<C>,
    attributes: seq<(string, Attribute<H>)>)

  /** `filename.endswith('.py')` */
  predicate IsPythonFile(filename: string) {
    |filename| >= 3 && filename[|filename| - 3..] == ".py"
  }

  /** `attr.startswith("__")` */
  predicate IsDunder(name: string) {
    |name| >= 2 && name[..2] == "__"
  }

  /** Whether attribute `a` of `mod` ends up in the function map under `name`. */
  ghost predicate Registers<C, H>(mod: PluginModule<C, H>, a: int, name: string, handler: H) {
    && IsPythonFile(mod.filename)
    && 0 <= a < |mod.attributes|
    && mod.attributes[a] == (name, Callable(handler))
    && !IsDunder(name)
  }

  /** The `(name, handler)` writes that one module's attributes make, in `dir` order. */
  function Eligible<H>(attributes: seq<(string, Attribute<H>)>): seq<(string, H)>
    decreases |attributes|
  {
    if attributes == [] then []
    else
      var (name, attribute) := attributes[|attributes| - 1];
      Eligible(attributes[..|attributes| - 1])
      + (if attribute.Callable? && !IsDunder(name) then [(name, attribute.handler)] else [])
  }

  /** Every write to `function_map`, in the order the loops make them. */
  function Registrations<C, H>(mods: seq<PluginModule<C, H>>): seq<(string, H)>
    decreases |mods|
  {
    if mods == [] then []
    else
      var last := mods[|mods| - 1];
      Registrations(mods[..|mods| - 1])
      + (if IsPythonFile(last.filename) then Eligible(last.attributes) else [])
  }

  /** `tool_configs`: the `tool_config` of every Python module that has one, in listing order. */
  function Configs<C, H>(mods: seq<PluginModule<C, H>>): seq<C>
    decreases |mods|
  {
    if mods == [] then []
    else
      var last := mods[|mods| - 1];
      Configs(mods[..|mods| - 1])
      + (if IsPythonFile(last.filename) && last.toolConfig.Some? then [last.toolConfig.value] else [])
  }

  /** The dictionary left by performing `writes` one after the other on `{}`. */
  function Assign<H>(writes: seq<(string, H)>): map<string, H>
    decreases |writes|
  {
    if writes == [] then map[]
    else
      var (name, handler) := writes[|writes| - 1];
      Assign(writes[..|writes| - 1])[name := handler]
  }

  /** `load_tools_from_directory`: the registry as the nested loops build it. */
  method LoadTools<C, H>(mods: seq<PluginModule<C, H>>) returns (toolConfigs: seq<C>, functionMap: map<string, H>)
    ensures toolConfigs == Configs(mods)
    ensures functionMap == Assign(Registrations(mods))
  {
    toolConfigs := [];
    functionMap := map[];
    var i := 0;
    while i < |mods|
      invariant 0 <= i <= |mods|
      invariant toolConfigs == Configs(mods[..i])
      invariant functionMap == Assign(Registrations(mods[..i]))
    {
      var mod := mods[i];
      ghost var done := Registrations(mods[..i]);
      assert mods[..i + 1][..i] == mods[..i] && mods[..i + 1][i] == mod;
      if IsPythonFile(mod.filename) {
        if mod.toolConfig.Some? {
          toolConfigs := toolConfigs + [mod.toolConfig.value];
        }
        functionMap := RegisterAttributes(functionMap, done, mod.attributes);
      } else {
        assert Registrations(mods[..i + 1]) == done by {
          assert done + [] == done;
        }
      }
      i := i + 1;
    }
    assert mods[..i] == mods;
  }

  /**
   * The inner loop over `dir(module)`: every callable attribute whose name is
   * not a dunder is written into the map, in order, on top of the writes
   * `done` that built `functionMap`.
   */
  method RegisterAttributes<H>(functionMap: map<string, H>, ghost done: seq<(string, H)>,
                               attributes: seq<(string, Attribute<H>)>)
    returns (updated: map<string, H>)
    requires functionMap == Assign(done)
    ensures updated == Assign(done + Eligible(attributes))
  {
    updated := functionMap;
    var j := 0;
    assert done + Eligible(attributes[..0]) == done by {
      assert attributes[..0] == [];
    }
    while j < |attributes|
      invariant 0 <= j <= |attributes|
      invariant updated == Assign(done + Eligible(attributes[..j]))
    {
      var (name, attribute) := attributes[j];
      ghost var before := Eligible(attributes[..j]);
      assert attributes[..j + 1][..j] == attributes[..j];
      if attribute.Callable? && !IsDunder(name) {
        updated := updated[name := attribute.handler];
        ghost var w := (name, attribute.handler);
        assert Eligible(attributes[..j + 1]) == before + [w];
        assert done + (before + [w]) == (done + before) + [w];
        AssignSnoc(done + before, w);
      } else {
        assert Eligible(attributes[..j + 1]) == before + [];
        assert before + [] == before;
      }
      j := j + 1;
    }
    assert attributes[..j] == attributes;
  }

  /** One more write on top of `writes`. */
  lemma AssignSnoc<H>(writes: seq<(string, H)>, w: (string, H))
    ensures Assign(writes + [w]) == Assign(writes)[w.0 := w.1]
  {
    assert (writes + [w])[..|writes|] == writes;
  }

  // ------------------------------------------------------------------
  // What the registry holds
  // ------------------------------------------------------------------

  /** No later write uses the name that write `i` uses. */
  predicate IsLastWrite<H>(writes: seq<(string, H)>, i: nat)
    requires i < |writes|
  {
    forall j :: i < j < |writes| ==> writes[j].0 != writes[i].0
  }

  /**
   * A name is in the dictionary exactly when some write uses it, and it holds
   * the handler of the last write that uses it.
   */
  lemma {:induction false} AssignLastWins<H>(writes: seq<(string, H)>)
    ensures forall k :: k in Assign(writes) <==> exists i :: 0 <= i < |writes| && writes[i].0 == k
    ensures forall i :: 0 <= i < |writes| && IsLastWrite(writes, i) ==> Assign(writes)[writes[i].0] == writes[i].1
    decreases |writes|
  {
    if writes != [] {
      var init, last := writes[..|writes| - 1], writes[|writes| - 1];
      AssignLastWins(init);
      forall k
        ensures k in Assign(writes) <==> exists i :: 0 <= i < |writes| && writes[i].0 == k
      {
        if k in Assign(writes) && k != last.0 {
          var i :| 0 <= i < |init| && init[i].0 == k;
          assert writes[i] == init[i];
        }
        if exists i :: 0 <= i < |writes| && writes[i].0 == k {
          var i :| 0 <= i < |writes| && writes[i].0 == k;
          if i < |init| {
            assert init[i] == writes[i];
          }
        }
      }
      forall i | 0 <= i < |writes| && IsLastWrite(writes, i)
        ensures Assign(writes)[writes[i].0] == writes[i].1
      {
        if i < |init| {
          assert init[i] == writes[i];
          assert IsLastWrite(init, i) by {
            forall j | i < j < |init| ensures init[j].0 != init[i].0 {
              assert init[j] == writes[j];
            }
          }
        }
      }
    }
  }

  /** Performing two batches of writes is the first dictionary updated by the second. */
  lemma {:induction false} AssignAppend<H>(w1: seq<(string, H)>, w2: seq<(string, H)>)
    ensures Assign(w1 + w2) == Assign(w1) + Assign(w2)
    decreases |w2|
  {
    if w2 == [] {
      assert w1 + w2 == w1;
    } else {
      var init, last := w2[..|w2| - 1], w2[|w2| - 1];
      assert (w1 + w2)[..|w1 + w2| - 1] == w1 + init;
      AssignAppend(w1, init);
    }
  }

  /** Listing `b` after `a` appends `b`'s writes to `a`'s. */
  lemma {:induction false} RegistrationsAppend<C, H>(a: seq<PluginModule<C, H>>, b: seq<PluginModule<C, H>>)
    ensures Registrations(a + b) == Registrations(a) + Registrations(b)
    decreases |b|
  {
    if b == [] {
      assert a + b == a;
    } else {
      var init, last := b[..|b| - 1], b[|b| - 1];
      assert (a + b)[..|a + b| - 1] == a + init;
      assert (a + b)[|a + b| - 1] == last;
      RegistrationsAppend(a, init);
      var tail := if IsPythonFile(last.filename) then Eligible(last.attributes) else [];
      assert Registrations(a + b) == Registrations(a + init) + tail;
      assert Registrations(b) == Registrations(init) + tail;
    }
  }

  /** Listing `b` after `a` appends `b`'s configs to `a`'s. */
  lemma {:induction false} ConfigsAppend<C, H>(a: seq<PluginModule<C, H>>, b: seq<PluginModule<C, H>>)
    ensures Configs(a + b) == Configs(a) + Configs(b)
    decreases |b|
  {
    if b == [] {
      assert a + b == a;
    } else {
      var init, last := b[..|b| - 1], b[|b| - 1];
      assert (a + b)[..|a + b| - 1] == a + init;
      assert (a + b)[|a + b| - 1] == last;
      ConfigsAppend(a, init);
    }
  }

  /**
   * Modules listed later override earlier ones: the registry of `a + b` is the
   * registry of `a` updated by the registry of `b`, and the configs of `b`
   * follow those of `a`.
   */
  lemma LaterModulesWin<C, H>(a: seq<PluginModule<C, H>>, b: seq<PluginModule<C, H>>)
    ensures Assign(Registrations(a + b)) == Assign(Registrations(a)) + Assign(Registrations(b))
    ensures Configs(a + b) == Configs(a) + Configs(b)
  {
    RegistrationsAppend(a, b);
    ConfigsAppend(a, b);
    AssignAppend(Registrations(a), Registrations(b));
  }

  /** A file that does not end in ".py" contributes nothing, wherever it is listed. */
  lemma NonPythonFileIgnored<C, H>(a: seq<PluginModule<C, H>>, mod: PluginModule<C, H>, b: seq<PluginModule<C, H>>)
    requires !IsPythonFile(mod.filename)
    ensures Registrations(a + [mod] + b) == Registrations(a + b)
    ensures Configs(a + [mod] + b) == Configs(a + b)
  {
    assert Registrations(a + [mod] + b) == Registrations(a) + Registrations(b) by {
      assert Registrations([mod]) == [] by {
        assert [mod][..0] == [];
      }
      RegistrationsAppend(a + [mod], b);
      RegistrationsAppend(a, [mod]);
      assert Registrations(a) + [] == Registrations(a);
    }
    RegistrationsAppend(a, b);
    assert Configs(a + [mod] + b) == Configs(a) + Configs(b) by {
      assert Configs([mod]) == [] by {
        assert [mod][..0] == [];
      }
      ConfigsAppend(a + [mod], b);
      ConfigsAppend(a, [mod]);
      assert Configs(a) + [] == Configs(a);
    }
    ConfigsAppend(a, b);
  }

  /** The writes of one module's attributes are exactly its callable, non-dunder attributes. */
  lemma {:induction false} EligibleSpec<H>(attributes: seq<(string, Attribute<H>)>, name: string, handler: H)
    ensures (name, handler) in Eligible(attributes) <==>
      exists a :: 0 <= a < |attributes| && attributes[a] == (name, Callable(handler)) && !IsDunder(name)
    decreases |attributes|
  {
    if attributes != [] {
      var n := |attributes| - 1;
      var init := attributes[..n];
      var (last, attribute) := attributes[n];
      var extra := if attribute.Callable? && !IsDunder(last) then [(last, attribute.handler)] else [];
      assert Eligible(attributes) == Eligible(init) + extra;
      EligibleSpec(init, name, handler);
      if (name, handler) in Eligible(attributes) {
        if (name, handler) in Eligible(init) {
          var a :| 0 <= a < |init| && init[a] == (name, Callable(handler)) && !IsDunder(name);
          assert attributes[a] == init[a];
        } else {
          assert (name, handler) in extra;
          assert attributes[n] == (name, Callable(handler)) && !IsDunder(name);
        }
      }
      if exists a :: 0 <= a < |attributes| && attributes[a] == (name, Callable(handler)) && !IsDunder(name) {
        var a :| 0 <= a < |attributes| && attributes[a] == (name, Callable(handler)) && !IsDunder(name);
        if a < n {
          assert init[a] == attributes[a];
        } else {
          assert (name, handler) in extra;
        }
      }
    }
  }

  /** A write comes from a callable, non-dunder attribute of a Python module, and every such attribute makes one. */
  lemma {:induction false} RegistrationsSpec<C, H>(mods: seq<PluginModule<C, H>>, name: string, handler: H)
    ensures (name, handler) in Registrations(mods) <==>
      exists m, a :: 0 <= m < |mods| && Registers(mods[m], a, name, handler)
    decreases |mods|
  {
    if mods != [] {
      var init, last := mods[..|mods| - 1], mods[|mods| - 1];
      RegistrationsSpec(init, name, handler);
      EligibleSpec(last.attributes, name, handler);
      if exists m, a :: 0 <= m < |init| && Registers(init[m], a, name, handler) {
        var m, a :| 0 <= m < |init| && Registers(init[m], a, name, handler);
        assert mods[m] == init[m];
      }
      if (name, handler) in Eligible(last.attributes) && IsPythonFile(last.filename) {
        var a :| 0 <= a < |last.attributes| && last.attributes[a] == (name, Callable(handler)) && !IsDunder(name);
        assert Registers(mods[|mods| - 1], a, name, handler);
      }
      if exists m, a :: 0 <= m < |mods| && Registers(mods[m], a, name, handler) {
        var m, a :| 0 <= m < |mods| && Registers(mods[m], a, name, handler);
        if m < |init| {
          assert init[m] == mods[m];
        } else {
          assert mods[m] == last;
        }
      }
    }
  }

  /**
   * `function_map` has a name exactly when some Python module has a callable
   * attribute of that name that does not start with "__".
   */
  lemma RegisteredIff<C, H>(mods: seq<PluginModule<C, H>>, name: string)
    ensures name in Assign(Registrations(mods)) <==>
      exists m, a, h :: 0 <= m < |mods| && Registers(mods[m], a, name, h)
  {
    var writes := Registrations(mods);
    AssignLastWins(writes);
    if name in Assign(writes) {
      var i :| 0 <= i < |writes| && writes[i].0 == name;
      RegistrationsSpec(mods, name, writes[i].1);
      assert (name, writes[i].1) == writes[i];
    }
    if exists m, a, h :: 0 <= m < |mods| && Registers(mods[m], a, name, h) {
      var m, a, h :| 0 <= m < |mods| && Registers(mods[m], a, name, h);
      RegistrationsSpec(mods, name, h);
      var i :| 0 <= i < |writes| && writes[i] == (name, h);
    }
  }

  /** A name that does not start with '_' is not a dunder. */
  lemma NotDunder(name: string)
    requires name != [] && name[0] != '_'
    ensures !IsDunder(name)
  {
    if |name| >= 2 {
      assert name[..2][0] == name[0];
    }
  }

  /** The writes of two runs of attributes are those of the first followed by those of the second. */
  lemma {:induction false} EligibleAppend<H>(a: seq<(string, Attribute<H>)>, b: seq<(string, Attribute<H>)>)
    ensures Eligible(a + b) == Eligible(a) + Eligible(b)
    decreases |b|
  {
    if b != [] {
      var n := |b| - 1;
      EligibleAppend(a, b[..n]);
      assert (a + b)[..|a + b| - 1] == a + b[..n];
      assert (a + b)[|a + b| - 1] == b[n];
    } else {
      assert a + b == a;
    }
  }

  /** Attributes none of which is callable make no write. */
  lemma {:induction false} EligibleWithoutCallables<H>(a: seq<(string, Attribute<H>)>)
    requires forall i :: 0 <= i < |a| ==> a[i].1 == NotCallable
    ensures Eligible(a) == []
    decreases |a|
  {
    if a != [] {
      EligibleWithoutCallables(a[..|a| - 1]);
    }
  }

  /**
   * What `dir` lists for the plugin that defines `purchase_intent`, in its
   * sorted order: the configuration string, the eight dunders execution sets,
   * the three imported modules, the imported `unquote`, the config dictionary
   * and the tool function.
   */
  function PurchaseIntentDir<H>(purchaseIntent: H, unquote: H): seq<(string, Attribute<H>)> {
    [("WEBHOOK_URL", NotCallable), ("__builtins__", NotCallable), ("__cached__", NotCallable),
     ("__doc__", NotCallable), ("__file__", NotCallable), ("__loader__", NotCallable),
     ("__name__", NotCallable), ("__package__", NotCallable), ("__spec__", NotCallable),
     ("json", NotCallable), ("os", NotCallable), ("purchase_intent", Callable(purchaseIntent)),
     ("requests", NotCallable), ("tool_config", NotCallable), ("unquote", Callable(unquote))]
  }

  /** Of the plugin's fifteen names, only the two functions are written into the map. */
  lemma PurchaseIntentDirWrites<H>(purchaseIntent: H, unquote: H)
    ensures Eligible(PurchaseIntentDir(purchaseIntent, unquote))
            == [("purchase_intent", purchaseIntent), ("unquote", unquote)]
  {
    var before: seq<(string, Attribute<H>)> := [
      ("WEBHOOK_URL", NotCallable), ("__builtins__", NotCallable), ("__cached__", NotCallable),
      ("__doc__", NotCallable), ("__file__", NotCallable), ("__loader__", NotCallable),
      ("__name__", NotCallable), ("__package__", NotCallable), ("__spec__", NotCallable),
      ("json", NotCallable), ("os", NotCallable)];
    var between: seq<(string, Attribute<H>)> := [("requests", NotCallable), ("tool_config", NotCallable)];
    var pi: seq<(string, Attribute<H>)> := [("purchase_intent", Callable(purchaseIntent))];
    var uq: seq<(string, Attribute<H>)> := [("unquote", Callable(unquote))];
    var first, second := ("purchase_intent", purchaseIntent), ("unquote", unquote);
    assert PurchaseIntentDir(purchaseIntent, unquote) == before + pi + between + uq;
    assert Eligible(before) == [] by { EligibleWithoutCallables(before); }
    assert Eligible(between) == [] by { EligibleWithoutCallables(between); }
    assert Eligible(pi) == [first] by {
      NotDunder("purchase_intent");
      assert pi[..0] == [];
    }
    assert Eligible(uq) == [second] by {
      NotDunder("unquote");
      assert uq[..0] == [];
    }
    assert Eligible(before + pi) == [first] by { EligibleAppend(before, pi); }
    assert Eligible(before + pi + between) == [first] by {
      EligibleAppend(before + pi, between);
      assert [first] + [] == [first];
    }
    EligibleAppend(before + pi + between, uq);
  }

  /**
   * The plugin that defines `purchase_intent` also imports `unquote`. Only
   * those two of its names are callable and outside the dunders, so exactly
   * they are registered as tools, next to the plugin's config.
   */
  lemma PurchaseIntentFileRegistersUnquote<C, H>(config: C, purchaseIntent: H, unquote: H)
    ensures var mod := PluginModule("purchase_intent.py", Some(config), PurchaseIntentDir(purchaseIntent, unquote));
      && Configs([mod]) == [config]
      && Assign(Registrations([mod])) == map["purchase_intent" := purchaseIntent, "unquote" := unquote]
  {
    var mod := PluginModule("purchase_intent.py", Some(config), PurchaseIntentDir(purchaseIntent, unquote));
    var first, second := ("purchase_intent", purchaseIntent), ("unquote", unquote);
    assert IsPythonFile(mod.filename) by {
      assert mod.filename[|mod.filename| - 3..] == ".py";
    }
    PurchaseIntentDirWrites(purchaseIntent, unquote);
    assert Registrations([mod]) == [first, second] by {
      assert [mod][..0] == [];
    }
    assert Assign([first, second]) == map["purchase_intent" := purchaseIntent, "unquote" := unquote] by {
      var writes := [first, second];
      assert writes[..1] == [first] && [first][..0] == [];
      assert Assign([first]) == map["purchase_intent" := purchaseIntent];
    }
  }
}
