/**
 * What `ensure_registry` (completions.py) computes: the catalogue of option
 * descriptors merged with the documentation records, keyed by option name, and the
 * warnings it prints along the way. The loop itself is `Plugin.EnsureRegistry`.
 */
module Registry {
  import opened Lib
  import opened Completions

  /** The three warnings `ensure_registry` prints. */
  datatype Warning = Duplicated(name: string) | Undocumented(name: string) | Missing(names: set<string>)

  /** The names in a catalogue. */
  function Names(options: seq<OptionDescriptor>): (r: set<string>)
    ensures forall i :: 0 <= i < |options| ==> options[i].name in r
    decreases |options|
  {
    if |options| == 0 then {}
    else
      var init := options[..|options| - 1];
      assert forall i :: 0 <= i < |init| ==> init[i] == options[i];
      Names(init) + {options[|options| - 1].name}
  }

  /** The names of the documentation records. */
  function DocNames(docs: seq<ConfOption>): (r: set<string>)
    ensures forall i :: 0 <= i < |docs| ==> docs[i].name in r
  {
    set i | 0 <= i < |docs| :: docs[i].name
  }

  lemma DocNamesSnoc(docs: seq<ConfOption>)
    requires |docs| > 0
    ensures DocNames(docs) == DocNames(docs[..|docs| - 1]) + {docs[|docs| - 1].name}
  {
    var init := docs[..|docs| - 1];
    assert forall i :: 0 <= i < |init| ==> init[i] == docs[i];
  }

  /** Every name in a catalogue is the name of one of its entries. */
  lemma {:induction false} NameWitness(options: seq<OptionDescriptor>, k: string) returns (i: int)
    requires k in Names(options)
    ensures 0 <= i < |options| && options[i].name == k
    decreases |options|
  {
    var init := options[..|options| - 1];
    if k == options[|options| - 1].name {
      i := |options| - 1;
    } else {
      i := NameWitness(init, k);
      assert init[i] == options[i];
    }
  }

  /** No later record has the same name as the one at `i`. */
  ghost predicate LastDoc(docs: seq<ConfOption>, i: int)
    requires 0 <= i < |docs|
  {
    forall j :: i < j < |docs| ==> docs[j].name != docs[i].name
  }

  /** `{option.name: option for option in docs_list}`: each name maps to its last record. */
  function DocsByName(docs: seq<ConfOption>): (m: map<string, ConfOption>)
    ensures m.Keys == DocNames(docs)
    decreases |docs|
  {
    if |docs| == 0 then map[]
    else
      DocNamesSnoc(docs);
      DocsByName(docs[..|docs| - 1])[docs[|docs| - 1].name := docs[|docs| - 1]]
  }

  /** Each name is mapped to the last record of that name. */
  lemma {:induction false} DocsByNameLast(docs: seq<ConfOption>)
    ensures forall k :: k in DocsByName(docs) ==> DocsByName(docs)[k].name == k
    ensures forall i :: 0 <= i < |docs| && LastDoc(docs, i) ==> DocsByName(docs)[docs[i].name] == docs[i]
    decreases |docs|
  {
    if |docs| > 0 {
      var init := docs[..|docs| - 1];
      var last := docs[|docs| - 1];
      DocsByNameLast(init);
      var m := DocsByName(init);
      var r := DocsByName(docs);
      assert r == m[last.name := last];
      forall k | k in r ensures r[k].name == k {
        if k != last.name {
          assert k in m;
        }
      }
      forall i | 0 <= i < |docs| && LastDoc(docs, i) ensures r[docs[i].name] == docs[i] {
        if i < |init| {
          assert init[i] == docs[i];
          assert docs[i].name != last.name;
          assert LastDoc(init, i) by {
            forall j | i < j < |init| ensures init[j].name != init[i].name {
              assert init[j] == docs[j];
            }
          }
        }
      }
    }
  }

  /** A documented option takes its region and anchor from its record, and its notes unless it has a doc of its own. */
  function Enrich(option: OptionDescriptor, doc: ConfOption): (r: OptionDescriptor)
    ensures r.region == doc.region && r.anchor == doc.anchor
    ensures option.doc != "" ==> r.doc == option.doc
    ensures option.doc == "" ==> r.doc == doc.notes
    ensures r.name == option.name && r.optionType == option.optionType && r.choices == option.choices
    ensures r.default == option.default && r.defaultFn == option.defaultFn
    ensures r.since == option.since && r.deprecated == option.deprecated
  {
    var withDoc := if option.doc == "" then option.(doc := doc.notes) else option;
    withDoc.(region := doc.region, anchor := doc.anchor)
  }

  /** The loop's variables: the options so far, the records not yet claimed, the warnings printed. */
  datatype BuildState = BuildState(options: map<string, OptionDescriptor>, docs: map<string, ConfOption>, warnings: seq<Warning>)

  /** One iteration of the loop of `ensure_registry`. */
  function BuildStep(st: BuildState, option: OptionDescriptor): BuildState {
    var duplicated := if option.name in st.options then [Duplicated(option.name)] else [];
    if option.name in st.docs then
      BuildState(
        st.options[option.name := Enrich(option, st.docs[option.name])],
        st.docs - {option.name},
        st.warnings + duplicated)
    else
      BuildState(st.options[option.name := option], st.docs, st.warnings + duplicated + [Undocumented(option.name)])
  }

  /** The loop run over `options`, from the records keyed by name. */
  function BuildFrom(options: seq<OptionDescriptor>, docs: map<string, ConfOption>): BuildState
    decreases |options|
  {
    if |options| == 0 then BuildState(map[], docs, [])
    else BuildStep(BuildFrom(options[..|options| - 1], docs), options[|options| - 1])
  }

  /** `OPTION_DESCRIPTOR_REGISTRY` once built. */
  function BuiltRegistry(catalogue: seq<OptionDescriptor>, docs: seq<ConfOption>): map<string, OptionDescriptor> {
    BuildFrom(catalogue, DocsByName(docs)).options
  }

  /** Every warning the build prints, the final "Missing options" one included. */
  function BuildWarnings(catalogue: seq<OptionDescriptor>, docs: seq<ConfOption>): seq<Warning> {
    var st := BuildFrom(catalogue, DocsByName(docs));
    st.warnings + if |st.docs| != 0 then [Missing(st.docs.Keys)] else []
  }

  // ---------------------------------------------------------------------------
  // what the build gives

  ghost predicate FirstOccurrence(options: seq<OptionDescriptor>, j: int)
    requires 0 <= j < |options|
  {
    forall i :: 0 <= i < j ==> options[i].name != options[j].name
  }

  ghost predicate LastOccurrence(options: seq<OptionDescriptor>, j: int)
    requires 0 <= j < |options|
  {
    forall i :: j < i < |options| ==> options[i].name != options[j].name
  }

  /**
   * What the registry holds for the name of `options[j]`, its last occurrence: the
   * record's region, anchor and notes go to the first occurrence only, since the first
   * occurrence pops the record.
   */
  ghost function Expected(options: seq<OptionDescriptor>, docs: map<string, ConfOption>, j: int): OptionDescriptor
    requires 0 <= j < |options|
  {
    if FirstOccurrence(options, j) && options[j].name in docs then Enrich(options[j], docs[options[j].name])
    else options[j]
  }

  /** The loop keeps one key per name seen so far, and the records of the names not yet seen. */
  lemma {:induction false} BuildKeysAndDocs(options: seq<OptionDescriptor>, docs: map<string, ConfOption>)
    ensures BuildFrom(options, docs).options.Keys == Names(options)
    ensures BuildFrom(options, docs).docs == docs - Names(options)
    decreases |options|
  {
    if |options| > 0 {
      var n := |options| - 1;
      var init := options[..n];
      var last := options[n];
      BuildKeysAndDocs(init, docs);
      assert Names(options) == Names(init) + {last.name};
      var prev := BuildFrom(init, docs);
      var st := BuildFrom(options, docs);
      assert st == BuildStep(prev, last);
      assert st.docs == docs - Names(options);
    }
  }

  /** A name occurs before index `n` exactly when it is among the names of the first `n` entries. */
  lemma SeenBefore(options: seq<OptionDescriptor>, n: int)
    requires 0 <= n < |options|
    ensures options[n].name in Names(options[..n]) <==> !FirstOccurrence(options, n)
  {
    var init := options[..n];
    if options[n].name in Names(init) {
      var i := NameWitness(init, options[n].name);
      assert options[i] == init[i];
    }
    if !FirstOccurrence(options, n) {
      var i :| 0 <= i < n && options[i].name == options[n].name;
      assert init[i] == options[i];
    }
  }

  /** A last occurrence before the final entry is one in the entries before it too, with the same expected descriptor. */
  lemma EarlierLastOccurrence(options: seq<OptionDescriptor>, docs: map<string, ConfOption>, j: int)
    requires 0 <= j < |options| - 1 && LastOccurrence(options, j)
    ensures var init := options[..|options| - 1];
      && init[j] == options[j]
      && LastOccurrence(init, j)
      && Expected(init, docs, j) == Expected(options, docs, j)
      && options[j].name != options[|options| - 1].name
  {
    var init := options[..|options| - 1];
    assert forall i :: 0 <= i < |init| ==> init[i] == options[i];
    assert FirstOccurrence(options, j) == FirstOccurrence(init, j);
  }

  lemma {:induction false} BuildExpected(options: seq<OptionDescriptor>, docs: map<string, ConfOption>)
    ensures forall j :: 0 <= j < |options| && LastOccurrence(options, j) ==>
      options[j].name in BuildFrom(options, docs).options &&
      BuildFrom(options, docs).options[options[j].name] == Expected(options, docs, j)
    decreases |options|
  {
    if |options| > 0 {
      var n := |options| - 1;
      var init := options[..n];
      var last := options[n];
      BuildExpected(init, docs);
      BuildKeysAndDocs(init, docs);
      SeenBefore(options, n);
      var prev := BuildFrom(init, docs);
      var st := BuildFrom(options, docs);
      assert st == BuildStep(prev, last);
      assert last.name in prev.docs <==> last.name in docs && FirstOccurrence(options, n);
      forall j | 0 <= j < |options| && LastOccurrence(options, j)
        ensures options[j].name in st.options && st.options[options[j].name] == Expected(options, docs, j)
      {
        if j < n {
          EarlierLastOccurrence(options, docs, j);
        }
      }
    }
  }

  /** The registry has exactly the catalogue's names as keys. */
  lemma RegistryKeys(catalogue: seq<OptionDescriptor>, docs: seq<ConfOption>)
    ensures BuiltRegistry(catalogue, docs).Keys == Names(catalogue)
  {
    BuildKeysAndDocs(catalogue, DocsByName(docs));
  }

  /** The index of the last occurrence of a name. */
  lemma LastIndexOf(options: seq<OptionDescriptor>, k: string) returns (j: int)
    requires k in Names(options)
    ensures 0 <= j < |options| && options[j].name == k && LastOccurrence(options, j)
  {
    var w := NameWitness(options, k);
    j := |options| - 1;
    while options[j].name != k
      invariant w <= j < |options|
      invariant forall i :: j < i < |options| ==> options[i].name != k
      decreases j
    {
      j := j - 1;
    }
  }

  /** Each name maps to a descriptor of that name. */
  lemma RegistryNames(catalogue: seq<OptionDescriptor>, docs: seq<ConfOption>)
    ensures forall k :: k in BuiltRegistry(catalogue, docs) ==> BuiltRegistry(catalogue, docs)[k].name == k
  {
    var reg := BuiltRegistry(catalogue, docs);
    BuildKeysAndDocs(catalogue, DocsByName(docs));
    BuildExpected(catalogue, DocsByName(docs));
    forall k | k in reg ensures reg[k].name == k {
      var j := LastIndexOf(catalogue, k);
    }
  }

  /**
   * An option named once in the catalogue and documented takes the region and anchor
   * of its last record, and that record's notes unless it has a doc of its own.
   */
  lemma DocumentedOption(catalogue: seq<OptionDescriptor>, docs: seq<ConfOption>, j: int, i: int)
    requires 0 <= j < |catalogue| && FirstOccurrence(catalogue, j) && LastOccurrence(catalogue, j)
    requires 0 <= i < |docs| && docs[i].name == catalogue[j].name && LastDoc(docs, i)
    ensures catalogue[j].name in BuiltRegistry(catalogue, docs)
    ensures
      var o := BuiltRegistry(catalogue, docs)[catalogue[j].name];
      && o.region == docs[i].region && o.anchor == docs[i].anchor
      && o.doc == (if catalogue[j].doc != "" then catalogue[j].doc else docs[i].notes)
      && o.name == catalogue[j].name && o.optionType == catalogue[j].optionType
  {
    BuildExpected(catalogue, DocsByName(docs));
    DocsByNameLast(docs);
  }

  /** An option without a record is stored unchanged. */
  lemma UndocumentedOption(catalogue: seq<OptionDescriptor>, docs: seq<ConfOption>, j: int)
    requires 0 <= j < |catalogue| && LastOccurrence(catalogue, j) && catalogue[j].name !in DocNames(docs)
    ensures catalogue[j].name in BuiltRegistry(catalogue, docs)
    ensures BuiltRegistry(catalogue, docs)[catalogue[j].name] == catalogue[j]
  {
    BuildExpected(catalogue, DocsByName(docs));
  }

  /** Of two entries with one name, the later one is stored, and without the record the earlier one claimed. */
  lemma DuplicateKeepsLater(catalogue: seq<OptionDescriptor>, docs: seq<ConfOption>, i: int, j: int)
    requires 0 <= i < j < |catalogue| && catalogue[i].name == catalogue[j].name && LastOccurrence(catalogue, j)
    ensures catalogue[j].name in BuiltRegistry(catalogue, docs)
    ensures BuiltRegistry(catalogue, docs)[catalogue[j].name] == catalogue[j]
  {
    BuildExpected(catalogue, DocsByName(docs));
    assert !FirstOccurrence(catalogue, j);
  }

  /** The records no catalogue entry claimed are the ones reported missing. */
  lemma MissingRecords(catalogue: seq<OptionDescriptor>, docs: seq<ConfOption>)
    ensures BuildFrom(catalogue, DocsByName(docs)).docs.Keys == DocNames(docs) - Names(catalogue)
    ensures (exists w :: w in BuildWarnings(catalogue, docs) && w.Missing?) <==> !(DocNames(docs) <= Names(catalogue))
  {
    BuildKeysAndDocs(catalogue, DocsByName(docs));
    var st := BuildFrom(catalogue, DocsByName(docs));
    var ws := BuildWarnings(catalogue, docs);
    assert forall w :: w in st.warnings ==> !w.Missing? by {
      BuildWarningsKinds(catalogue, DocsByName(docs));
    }
    if !(DocNames(docs) <= Names(catalogue)) {
      var k :| k in DocNames(docs) && k !in Names(catalogue);
      assert k in st.docs.Keys;
      assert ws[|ws| - 1].Missing?;
    }
  }

  lemma {:induction false} BuildWarningsKinds(options: seq<OptionDescriptor>, docs: map<string, ConfOption>)
    ensures forall w :: w in BuildFrom(options, docs).warnings ==> !w.Missing?
    decreases |options|
  {
    if |options| > 0 {
      BuildWarningsKinds(options[..|options| - 1], docs);
    }
  }

  /** A non-empty catalogue gives a non-empty registry, so a second `ensure_registry` does nothing. */
  lemma RegistryNonEmpty(catalogue: seq<OptionDescriptor>, docs: seq<ConfOption>)
    requires |catalogue| > 0
    ensures BuiltRegistry(catalogue, docs) != map[]
  {
    RegistryKeys(catalogue, docs);
    assert catalogue[0].name in Names(catalogue);
  }
}
