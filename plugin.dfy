/**
 * The module-level state of completions.py: the option registry that
 * `ensure_registry` builds on first use and the set of module names that
 * `query_modules` fills once, with the operations that read them.
 */
module Plugin {
  import opened Wrappers
  import opened Strings
  import opened Sorting
  import opened Lib
  import opened Completions
  import opened Registry
  import opened Queries

  const FetchFailed: string := "kdesrc-build: Failed to fetch list of modules"
  const ModulesLoaded: string := "kdesrc-build: Loaded list of modules"

  /**
   * `OPTION_DESCRIPTOR_REGISTRY` and `MODULES`. The catalogue is the literal
   * `REGISTRY_LIST` and `docs` the records decoded from the bundled JSON file.
   */
  class PluginState {
    const catalogue: seq<OptionDescriptor>
    const docs: seq<ConfOption>
    var registry: map<string, OptionDescriptor>
    var modules: set<string>

    /** The registry is not built yet, or it is the one the catalogue and the records give. */
    ghost predicate Valid()
      reads this
    {
      registry == map[] || registry == BuiltRegistry(catalogue, docs)
    }

    constructor(catalogue: seq<OptionDescriptor>, docs: seq<ConfOption>)
      ensures this.catalogue == catalogue && this.docs == docs
      ensures registry == map[] && modules == {}
      ensures Valid()
    {
      this.catalogue := catalogue;
      this.docs := docs;
      registry := map[];
      modules := {};
    }

    /** `ensure_registry`; the warnings it prints are returned. */
    method EnsureRegistry() returns (warnings: seq<Warning>)
      requires Valid()
      modifies this`registry
      ensures Valid() && registry == BuiltRegistry(catalogue, docs)
      ensures old(registry) != map[] ==> registry == old(registry) && warnings == []
      ensures old(registry) == map[] ==> warnings == BuildWarnings(catalogue, docs)
    {
      if |registry| != 0 {
        return [];
      }
      var byName := DocsByName(docs);
      var options: map<string, OptionDescriptor> := map[];
      var remaining := byName;
      warnings := [];
      for i := 0 to |catalogue|
        invariant BuildFrom(catalogue[..i], byName) == BuildState(options, remaining, warnings)
      {
        assert catalogue[..i + 1][..i] == catalogue[..i];
        var option := catalogue[i];
        if option.name in options {
          warnings := warnings + [Duplicated(option.name)];
        }
        if option.name !in remaining {
          warnings := warnings + [Undocumented(option.name)];
          options := options[option.name := option];
        } else {
          var doc := remaining[option.name];
          remaining := remaining - {option.name};
          options := options[option.name := Enrich(option, doc)];
        }
      }
      assert catalogue[..|catalogue|] == catalogue;
      if |remaining| != 0 {
        warnings := warnings + [Missing(remaining.Keys)];
      }
      registry := options;
    }

    /** `registry()`: the registry, built if need be. */
    method Registry() returns (r: map<string, OptionDescriptor>)
      requires Valid()
      modifies this`registry
      ensures Valid() && registry == BuiltRegistry(catalogue, docs)
      ensures r == registry
      ensures forall k :: k in r ==> r[k].name == k
    {
      var _ := EnsureRegistry();
      r := registry;
      RegistryNames(catalogue, docs);
    }

    /** `get_option_descriptor`: the descriptor of a name, or the fallback for an unknown one. */
    method GetOptionDescriptor(name: string) returns (d: OptionDescriptor)
      requires Valid()
      modifies this`registry
      ensures Valid() && registry == BuiltRegistry(catalogue, docs)
      ensures name in registry ==> d == registry[name] && d.name == name
      ensures name !in registry ==> d == Fallback
      ensures name in registry <==> name in Names(catalogue)
    {
      var reg := Registry();
      RegistryKeys(catalogue, docs);
      d := if name in reg then reg[name] else Fallback;
    }

    /**
     * `query_modules`. `stdout` is what `kdesrc-build --list-build --no-src` printed,
     * or `None` when `check_output` raised `SubprocessError`; the result is the status
     * message shown, if any.
     */
    method QueryModules(stdout: Option<string>) returns (status: Option<string>)
      modifies this`modules
      ensures old(modules) != {} ==> modules == old(modules) && status == None
      ensures old(modules) == {} && stdout.None? ==> modules == {} && status == Some(FetchFailed)
      ensures old(modules) == {} && stdout.Some? ==>
        modules == ModuleNames(ListedLines(stdout.value)) && status == Some(ModulesLoaded)
    {
      if |modules| != 0 {
        return None;
      }
      if stdout.None? {
        return Some(FetchFailed);
      }
      var lines := ListedLines(stdout.value);
      for i := 0 to |lines|
        invariant modules == ModuleNames(lines[..i])
      {
        ModuleNamesStep(lines, i);
        var found := ModuleOfLine(lines[i]);
        if found.Some? {
          modules := modules + {found.value};
        }
      }
      assert lines[..|lines|] == lines;
      status := Some(ModulesLoaded);
    }

    /**
     * `complete_option_name`: the options of the registry that the block allows and
     * whose name starts with the prefix, sorted by name, or nothing when none does.
     */
    method CompleteOptionName(region: RegionType, prefix: string) returns (r: Option<CompletionList>)
      requires Valid()
      modifies this`registry
      ensures Valid() && registry == BuiltRegistry(catalogue, docs)
      ensures r.None? <==> MatchingKeys(registry, region, prefix) == {}
      ensures r.Some? ==>
        var items := r.value.items;
        && r.value.inhibitWordCompletions && r.value.inhibitReorder
        && |items| == |MatchingKeys(registry, region, prefix)|
        && (forall k :: k in MatchingKeys(registry, region, prefix) <==> k in Triggers(items))
        && (forall i :: 0 <= i < |items| ==> items[i].trigger in registry && items[i] == OptionItem(registry[items[i].trigger]))
        && (forall i, j :: 0 <= i < j < |items| ==> StrLe(items[i].trigger, items[j].trigger))
    {
      var reg := Registry();
      var options := Matching(reg, region, prefix);
      if |options| == 0 {
        return None;
      }
      r := Some(CompletionList(OptionItems(Sort(options, NameLe)), true, true));
      OfferedItems(reg, region, prefix, options);
    }
  }

  lemma NamesAppend(options: seq<OptionDescriptor>, o: OptionDescriptor)
    ensures Names(options + [o]) == Names(options) + {o.name}
  {
    assert (options + [o])[..|options|] == options;
  }

  /** Reordering the options keeps the names their items offer. */
  lemma OfferedNames(options: seq<OptionDescriptor>, sorted: seq<OptionDescriptor>)
    requires forall x :: x in sorted <==> x in options
    ensures forall k :: k in Names(options) <==> k in Triggers(OptionItems(sorted))
  {
    var t := Triggers(OptionItems(sorted));
    forall k ensures k in Names(options) <==> k in t {
      if k in Names(options) {
        var i := NameWitness(options, k);
        assert options[i] in sorted;
        var j :| 0 <= j < |sorted| && sorted[j] == options[i];
        assert t[j] == k;
      }
      if k in t {
        var j :| 0 <= j < |t| && t[j] == k;
        assert sorted[j] in options;
        var i :| 0 <= i < |options| && options[i] == sorted[j];
        assert options[i].name == k;
      }
    }
  }

  /** Reordering the options keeps each item the one of its registry entry. */
  lemma OfferedEntries(reg: map<string, OptionDescriptor>, options: seq<OptionDescriptor>, sorted: seq<OptionDescriptor>)
    requires forall x :: x in sorted <==> x in options
    requires forall i :: 0 <= i < |options| ==> options[i].name in reg && options[i] == reg[options[i].name]
    ensures var items := OptionItems(sorted);
      forall i :: 0 <= i < |items| ==> items[i].trigger in reg && items[i] == OptionItem(reg[items[i].trigger])
  {
    var items := OptionItems(sorted);
    forall i | 0 <= i < |items| ensures items[i].trigger in reg && items[i] == OptionItem(reg[items[i].trigger]) {
      assert sorted[i] in options;
      var j :| 0 <= j < |options| && options[j] == sorted[i];
    }
  }

  /** Options sorted by name give items in name order. */
  lemma OfferedOrder(sorted: seq<OptionDescriptor>)
    requires SortedBy(sorted, NameLe)
    ensures var items := OptionItems(sorted);
      forall i, j :: 0 <= i < j < |items| ==> StrLe(items[i].trigger, items[j].trigger)
  {
    var items := OptionItems(sorted);
    forall i, j | 0 <= i < j < |items| ensures StrLe(items[i].trigger, items[j].trigger) {
      assert NameLe(sorted[i], sorted[j]);
    }
  }

  /** The sorted items of the matching options: one per matching name, in name order. */
  lemma OfferedItems(reg: map<string, OptionDescriptor>, region: RegionType, prefix: string, options: seq<OptionDescriptor>)
    requires |options| == |MatchingKeys(reg, region, prefix)| && Names(options) == MatchingKeys(reg, region, prefix)
    requires forall i :: 0 <= i < |options| ==> options[i].name in reg && options[i] == reg[options[i].name]
    ensures var items := OptionItems(Sort(options, NameLe));
      && |items| == |MatchingKeys(reg, region, prefix)|
      && (forall k :: k in MatchingKeys(reg, region, prefix) <==> k in Triggers(items))
      && (forall i :: 0 <= i < |items| ==> items[i].trigger in reg && items[i] == OptionItem(reg[items[i].trigger]))
      && (forall i, j :: 0 <= i < j < |items| ==> StrLe(items[i].trigger, items[j].trigger))
  {
    NameLeTotalPreorder();
    var sorted := Sort(options, NameLe);
    SortSorted(options, NameLe);
    SortMembers(options, NameLe);
    OfferedNames(options, sorted);
    OfferedEntries(reg, options, sorted);
    OfferedOrder(sorted);
  }

  /**
   * The loop of `complete_option_name` over the registry's values. A map has no
   * order, so the values are visited in an arbitrary one; sorting removes it.
   */
  method Matching(reg: map<string, OptionDescriptor>, region: RegionType, prefix: string) returns (options: seq<OptionDescriptor>)
    requires forall k :: k in reg ==> reg[k].name == k
    ensures |options| == |MatchingKeys(reg, region, prefix)| && Names(options) == MatchingKeys(reg, region, prefix)
    ensures forall i :: 0 <= i < |options| ==> options[i].name in reg && options[i] == reg[options[i].name]
  {
    options := [];
    var keys := reg.Keys;
    while keys != {}
      invariant Collected(reg, region, prefix, keys, options)
      decreases |keys|
    {
      var k :| k in keys;
      var option := reg[k];
      CollectStep(reg, region, prefix, keys, options, k);
      if (prefix <= option.name || |prefix| == 0) && MayContain(region, option.region) {
        options := options + [option];
      }
      keys := keys - {k};
    }
    assert MatchingKeys(reg, region, prefix) - {} == MatchingKeys(reg, region, prefix);
  }

  /** Each option is the registry's entry for its name. */
  predicate FromRegistry(reg: map<string, OptionDescriptor>, options: seq<OptionDescriptor>) {
    forall i :: 0 <= i < |options| ==> options[i].name in reg && options[i] == reg[options[i].name]
  }

  lemma FromRegistryAppend(reg: map<string, OptionDescriptor>, options: seq<OptionDescriptor>, o: OptionDescriptor)
    requires FromRegistry(reg, options) && o.name in reg && o == reg[o.name]
    ensures FromRegistry(reg, options + [o])
  {
    var next := options + [o];
    forall i | 0 <= i < |next| ensures next[i].name in reg && next[i] == reg[next[i].name] {
      if i < |options| {
        assert next[i] == options[i];
      }
    }
  }

  /**
   * The invariant of `Matching`: the options gathered so far are the registry's entries
   * for the matching names among the keys already visited, one per name.
   */
  ghost predicate Collected(reg: map<string, OptionDescriptor>, region: RegionType, prefix: string, keys: set<string>, options: seq<OptionDescriptor>) {
    var done := MatchingKeys(reg, region, prefix) - keys;
    && keys <= reg.Keys
    && Names(options) == done && |options| == |done|
    && FromRegistry(reg, options)
  }

  /** Visiting one more key of the registry adds it to the matches seen so far exactly when it matches. */
  lemma MatchingStep(reg: map<string, OptionDescriptor>, region: RegionType, prefix: string, keys: set<string>, k: string)
    requires keys <= reg.Keys && k in keys
    ensures var matching := MatchingKeys(reg, region, prefix);
      && k !in matching - keys
      && matching - (keys - {k}) == if Matches(region, prefix, reg[k]) then (matching - keys) + {k} else matching - keys
  {
  }

  /** Visiting one more key keeps `Collected`, with the key's option appended exactly when it matches. */
  lemma CollectStep(reg: map<string, OptionDescriptor>, region: RegionType, prefix: string, keys: set<string>, options: seq<OptionDescriptor>, k: string)
    requires forall k :: k in reg ==> reg[k].name == k
    requires Collected(reg, region, prefix, keys, options) && k in keys
    ensures Collected(reg, region, prefix, keys - {k}, if Matches(region, prefix, reg[k]) then options + [reg[k]] else options)
  {
    MatchingStep(reg, region, prefix, keys, k);
    if Matches(region, prefix, reg[k]) {
      NamesAppend(options, reg[k]);
      FromRegistryAppend(reg, options, reg[k]);
    }
  }
}
