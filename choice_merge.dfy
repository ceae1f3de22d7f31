/**
 * The value completions of `on_query_completions` (completions.py): the choices of
 * an option keyed by `key`, the default added under its key, the pairs sorted by key,
 * each turned into a completion item and annotated by `fill`.
 */
module ChoiceMerge {
  import opened Wrappers
  import opened Strings
  import opened Sorting
  import opened Completions

  // ---------------------------------------------------------------------------
  // keys

  /** A dictionary key: `None`, an integer or a string. */
  datatype Key = KNone | KInt(n: int) | KStr(s: string)

  /** The exceptions the value completions can raise. */
  datatype CompletionError = AssertionError | TypeError

  /** Keys of different ranks do not compare in Python: `<` between them raises `TypeError`. */
  function KindRank(k: Key): nat {
    match k
    case KNone => 0
    case KInt(_) => 1
    case KStr(_) => 2
  }

  /**
   * `key(choice)` as written: `assert isinstance(option.type, int)` holds for no type
   * object, so every integer (and boolean) choice raises.
   */
  function KeyAsWritten(choice: Choice): Result<Key, CompletionError> {
    match choice
    case ChoiceItem(item) => Success(KStr(item.trigger))
    case ChoiceValue(v) =>
      match v
      case PyInt(_) => Failure(AssertionError)
      case PyBool(_) => Failure(AssertionError)
      case PyStr(s) => Success(KStr(s))
      case PyNone => Success(KNone)
  }

  /**
   * `key(choice)` as intended: integer choices key as themselves in an `int` option
   * (booleans as 0 and 1), and are refused by the assertion in any other option.
   */
  function KeyOf(t: OptionType, choice: Choice): Result<Key, CompletionError> {
    match choice
    case ChoiceItem(item) => Success(KStr(item.trigger))
    case ChoiceValue(v) =>
      match v
      case PyInt(i) => if t == IntType then Success(KInt(i)) else Failure(AssertionError)
      case PyBool(b) => if t == IntType then Success(KInt(if b then 1 else 0)) else Failure(AssertionError)
      case PyStr(s) => Success(KStr(s))
      case PyNone => Success(KNone)
  }

  predicate IsIntChoice(c: Choice) {
    c.ChoiceValue? && (c.value.PyInt? || c.value.PyBool?)
  }

  /** As written, the assertion refuses every integer choice, whatever the option's type. */
  lemma KeyAsWrittenRejectsIntegers(c: Choice)
    ensures KeyAsWritten(c).Failure? <==> IsIntChoice(c)
    ensures KeyAsWritten(c).Failure? ==> KeyAsWritten(c).error == AssertionError
  {
  }

  /** The corrected key differs from the written one only on integer choices of `int` options. */
  lemma KeyOfAgreesElsewhere(t: OptionType, c: Choice)
    ensures !(IsIntChoice(c) && t == IntType) ==> KeyOf(t, c) == KeyAsWritten(c)
    ensures IsIntChoice(c) && t == IntType ==> KeyOf(t, c).Success? && KeyOf(t, c).value.KInt?
  {
  }

  /** Which of the two key functions the merge uses. */
  datatype KeyRule = AsWritten | Corrected

  function KeyBy(rule: KeyRule, t: OptionType, c: Choice): Result<Key, CompletionError> {
    if rule == AsWritten then KeyAsWritten(c) else KeyOf(t, c)
  }

  lemma KeyFailureIsAssertion(rule: KeyRule, t: OptionType, c: Choice)
    ensures KeyBy(rule, t, c).Failure? ==> KeyBy(rule, t, c).error == AssertionError
  {
  }

  // ---------------------------------------------------------------------------
  // a dictionary as a sequence of pairs in insertion order

  type Entry = (Key, Choice)
  type Entries = seq<Entry>

  predicate HasKey(d: Entries, k: Key) {
    exists i :: 0 <= i < |d| && d[i].0 == k
  }

  ghost predicate DistinctKeys(d: Entries) {
    forall i, j :: 0 <= i < j < |d| ==> d[i].0 != d[j].0
  }

  lemma HasKeyCons(e: Entry, d: Entries)
    ensures forall k :: HasKey([e] + d, k) <==> e.0 == k || HasKey(d, k)
  {
    forall k ensures HasKey([e] + d, k) <==> e.0 == k || HasKey(d, k) {
      if HasKey([e] + d, k) {
        var i :| 0 <= i < |[e] + d| && ([e] + d)[i].0 == k;
        if i > 0 {
          assert ([e] + d)[i] == d[i - 1];
        }
      }
      if e.0 == k {
        assert ([e] + d)[0] == e;
      }
      if HasKey(d, k) {
        var i :| 0 <= i < |d| && d[i].0 == k;
        assert ([e] + d)[i + 1].0 == k;
      }
    }
  }

  lemma DistinctCons(e: Entry, d: Entries)
    ensures DistinctKeys([e] + d) <==> !HasKey(d, e.0) && DistinctKeys(d)
  {
    var r := [e] + d;
    if DistinctKeys(r) {
      forall i | 0 <= i < |d| ensures d[i].0 != e.0 {
        assert r[0] == e && r[i + 1] == d[i];
      }
      forall i, j | 0 <= i < j < |d| ensures d[i].0 != d[j].0 {
        assert r[i + 1] == d[i] && r[j + 1] == d[j];
      }
    }
    if !HasKey(d, e.0) && DistinctKeys(d) {
      forall i, j | 0 <= i < j < |r| ensures r[i].0 != r[j].0 {
        assert r[j] == d[j - 1];
        if i > 0 {
          assert r[i] == d[i - 1];
        }
      }
    }
  }

  /** `d[k] = v`: a new key goes last, an existing key keeps its place and takes the new value. */
  function Put(d: Entries, k: Key, v: Choice): (r: Entries)
    ensures DistinctKeys(d) ==> DistinctKeys(r)
    ensures forall k' :: HasKey(r, k') <==> HasKey(d, k') || k' == k
    ensures (k, v) in r
    ensures forall e :: e in r && e.0 != k ==> e in d
    ensures forall e :: e in d && e.0 != k ==> e in r
  {
    if |d| == 0 then
      HasKeyCons((k, v), d);
      assert [(k, v)] + d == [(k, v)];
      [(k, v)]
    else
      assert d == [d[0]] + d[1..];
      HasKeyCons(d[0], d[1..]);
      DistinctCons(d[0], d[1..]);
      if d[0].0 == k then
        HasKeyCons((k, v), d[1..]);
        DistinctCons((k, v), d[1..]);
        [(k, v)] + d[1..]
      else
        var rest := Put(d[1..], k, v);
        HasKeyCons(d[0], rest);
        DistinctCons(d[0], rest);
        [d[0]] + rest
  }

  // ---------------------------------------------------------------------------
  // the merge

  /** Every choice keys successfully. */
  predicate AllKeyed(rule: KeyRule, t: OptionType, choices: seq<Choice>) {
    forall i :: 0 <= i < |choices| ==> KeyBy(rule, t, choices[i]).Success?
  }

  /** Some choice keys to `k`. */
  predicate KeyOfSome(rule: KeyRule, t: OptionType, choices: seq<Choice>, k: Key) {
    exists i :: 0 <= i < |choices| && KeyBy(rule, t, choices[i]) == Success(k)
  }

  lemma KeyedSnoc(rule: KeyRule, t: OptionType, choices: seq<Choice>)
    requires |choices| > 0
    ensures var init, last := choices[..|choices| - 1], choices[|choices| - 1];
      && (AllKeyed(rule, t, choices) <==> AllKeyed(rule, t, init) && KeyBy(rule, t, last).Success?)
      && forall k :: KeyOfSome(rule, t, choices, k) <==> KeyOfSome(rule, t, init, k) || KeyBy(rule, t, last) == Success(k)
  {
    var init, last := choices[..|choices| - 1], choices[|choices| - 1];
    assert forall i :: 0 <= i < |init| ==> init[i] == choices[i];
    forall k | KeyOfSome(rule, t, choices, k) ensures KeyOfSome(rule, t, init, k) || KeyBy(rule, t, last) == Success(k) {
      var i :| 0 <= i < |choices| && KeyBy(rule, t, choices[i]) == Success(k);
      if i < |init| {
        assert KeyBy(rule, t, init[i]) == Success(k);
      }
    }
  }

  /** `{key(c): c for c in option.choices}`: a later choice with the same key replaces an earlier one. */
  function Keyed(rule: KeyRule, t: OptionType, choices: seq<Choice>): (r: Result<Entries, CompletionError>)
    ensures r.Success? <==> AllKeyed(rule, t, choices)
    ensures r.Failure? ==> r.error == AssertionError
    ensures r.Success? ==> DistinctKeys(r.value)
    ensures r.Success? ==> forall k :: HasKey(r.value, k) <==> KeyOfSome(rule, t, choices, k)
    decreases |choices|
  {
    if |choices| == 0 then Success([])
    else
      var init := choices[..|choices| - 1];
      var last := choices[|choices| - 1];
      KeyedSnoc(rule, t, choices);
      var d :- Keyed(rule, t, init);
      var k :- KeyBy(rule, t, last);
      Success(Put(d, k, last))
  }

  /** No later choice has the same key as the one at `i`. */
  predicate LastWithKey(rule: KeyRule, t: OptionType, choices: seq<Choice>, i: int)
    requires 0 <= i < |choices|
  {
    forall j :: i < j < |choices| ==> KeyBy(rule, t, choices[j]) != KeyBy(rule, t, choices[i])
  }

  /** A pair whose key is its choice's own key. */
  predicate KeyedEntry(rule: KeyRule, t: OptionType, e: Entry) {
    KeyBy(rule, t, e.1) == Success(e.0)
  }

  /** Of two pairs with one key in a dictionary, both are the same pair. */
  lemma SameKeySamePair(d: Entries, a: Entry, b: Entry)
    requires DistinctKeys(d) && a in d && b in d && a.0 == b.0
    ensures a == b
  {
    var i :| 0 <= i < |d| && d[i] == a;
    var j :| 0 <= j < |d| && d[j] == b;
  }

  /** Each pair the comprehension stores is a choice under its own key. */
  lemma {:induction false} KeyedOrigins(rule: KeyRule, t: OptionType, choices: seq<Choice>)
    requires Keyed(rule, t, choices).Success?
    ensures forall e :: e in Keyed(rule, t, choices).value ==> KeyedEntry(rule, t, e) && e.1 in choices
    decreases |choices|
  {
    if |choices| > 0 {
      var n := |choices| - 1;
      var init, last := choices[..n], choices[n];
      KeyedSnoc(rule, t, choices);
      var d := Keyed(rule, t, init).value;
      var k := KeyBy(rule, t, last).value;
      var r := Keyed(rule, t, choices).value;
      assert r == Put(d, k, last);
      KeyedOrigins(rule, t, init);
      forall e | e in r ensures KeyedEntry(rule, t, e) && e.1 in choices {
        if e.0 == k {
          SameKeySamePair(r, e, (k, last));
        } else {
          assert e in d;
          assert e.1 in init;
        }
      }
    }
  }

  /** Every choice that no later choice shares a key with is stored, under its key, in `r`. */
  predicate StoresLast(rule: KeyRule, t: OptionType, choices: seq<Choice>, r: Entries) {
    forall i :: 0 <= i < |choices| && LastWithKey(rule, t, choices, i) ==>
      KeyBy(rule, t, choices[i]).Success? && (KeyBy(rule, t, choices[i]).value, choices[i]) in r
  }

  /** Putting the last choice under its key keeps every earlier choice that was last with its key. */
  lemma StoresLastSnoc(rule: KeyRule, t: OptionType, choices: seq<Choice>, d: Entries, k: Key)
    requires |choices| > 0 && KeyBy(rule, t, choices[|choices| - 1]) == Success(k)
    requires StoresLast(rule, t, choices[..|choices| - 1], d)
    ensures StoresLast(rule, t, choices, Put(d, k, choices[|choices| - 1]))
  {
    var n := |choices| - 1;
    var r := Put(d, k, choices[n]);
    forall i | 0 <= i < |choices| && LastWithKey(rule, t, choices, i)
      ensures KeyBy(rule, t, choices[i]).Success? && (KeyBy(rule, t, choices[i]).value, choices[i]) in r
    {
      if i < n {
        EarlierLastWithKey(rule, t, choices, i);
      }
    }
  }

  /** The choice stored under a key is the last one with that key: a later choice replaces an earlier one. */
  lemma {:induction false} KeyedLastWins(rule: KeyRule, t: OptionType, choices: seq<Choice>)
    requires Keyed(rule, t, choices).Success?
    ensures StoresLast(rule, t, choices, Keyed(rule, t, choices).value)
    decreases |choices|
  {
    if |choices| > 0 {
      var n := |choices| - 1;
      KeyedSnoc(rule, t, choices);
      KeyedLastWins(rule, t, choices[..n]);
      StoresLastSnoc(rule, t, choices, Keyed(rule, t, choices[..n]).value, KeyBy(rule, t, choices[n]).value);
    }
  }

  lemma EarlierLastWithKey(rule: KeyRule, t: OptionType, choices: seq<Choice>, i: int)
    requires 0 <= i < |choices| - 1 && LastWithKey(rule, t, choices, i)
    ensures var init := choices[..|choices| - 1];
      && init[i] == choices[i] && LastWithKey(rule, t, init, i)
      && KeyBy(rule, t, choices[|choices| - 1]) != KeyBy(rule, t, choices[i])
  {
    var init := choices[..|choices| - 1];
    assert forall j :: 0 <= j < |init| ==> init[j] == choices[j];
  }

  /** The dictionary with the default inserted under its key, when the option has one. */
  function Merged(rule: KeyRule, d: OptionDescriptor): Result<Entries, CompletionError> {
    var keyed :- Keyed(rule, d.optionType, d.choices);
    if HasDefault(d) then
      var k :- KeyBy(rule, d.optionType, ChoiceValue(GetDefault(d)));
      Success(Put(keyed, k, ChoiceValue(GetDefault(d))))
    else
      Success(keyed)
  }

  /** Two keys of different ranks: sorting them raises `TypeError`. */
  predicate MixedKinds(es: Entries) {
    exists i, j :: 0 <= i < |es| && 0 <= j < |es| && KindRank(es[i].0) != KindRank(es[j].0)
  }

  /** Python's `<=` on keys of one rank; ranks themselves order the rest, which never meet in a sort that succeeds. */
  predicate KeyLe(a: Key, b: Key) {
    if KindRank(a) != KindRank(b) then KindRank(a) < KindRank(b)
    else match (a, b)
      case (KInt(x), KInt(y)) => x <= y
      case (KStr(x), KStr(y)) => StrLe(x, y)
      case _ => true
  }

  predicate EntryLe(a: Entry, b: Entry) {
    KeyLe(a.0, b.0)
  }

  lemma KeyLeAntisymmetric(a: Key, b: Key)
    requires KeyLe(a, b) && KeyLe(b, a)
    ensures a == b
  {
    if a.KStr? && b.KStr? {
      StrLeAntisymmetric(a.s, b.s);
    }
  }

  lemma EntryLeTotalPreorder()
    ensures TotalPreorder(EntryLe)
  {
    forall x: Entry, y: Entry ensures EntryLe(x, y) || EntryLe(y, x) {
      if x.0.KStr? && y.0.KStr? {
        StrLeTotal(x.0.s, y.0.s);
      }
    }
    forall x: Entry, y: Entry, z: Entry | EntryLe(x, y) && EntryLe(y, z) ensures EntryLe(x, z) {
      if x.0.KStr? && y.0.KStr? && z.0.KStr? {
        StrLeTransitive(x.0.s, y.0.s, z.0.s);
      }
    }
  }

  /** `sorted(choices.items())`. */
  function SortedChoices(rule: KeyRule, d: OptionDescriptor): (r: Result<Entries, CompletionError>)
    ensures r.Success? <==> Merged(rule, d).Success? && !MixedKinds(Merged(rule, d).value)
    ensures r.Failure? && Merged(rule, d).Success? ==> r.error == TypeError
    ensures r.Success? ==> multiset(r.value) == multiset(Merged(rule, d).value)
  {
    var m :- Merged(rule, d);
    if MixedKinds(m) then Failure(TypeError) else Success(Sort(m, EntryLe))
  }

  /** `item(pair)`: a completion item is kept, a value becomes an item showing `str(value)`, `None` fails the assertion. */
  function ItemOf(e: Entry): (r: Result<CompletionItem, CompletionError>)
    ensures r.Failure? <==> e.1 == ChoiceValue(PyNone)
    ensures e.1.ChoiceItem? ==> r == Success(e.1.item)
    ensures r.Success? && e.1.ChoiceValue? ==> r.value.trigger == Str(e.1.value) && r.value.kind == KindVariable
  {
    match e.1
    case ChoiceItem(item) => Success(item)
    case ChoiceValue(v) => if v.PyNone? then Failure(AssertionError) else Success(Item(Str(v), "", KindVariable))
  }

  /** `list(map(item, ...))`: the items in order, or the first failure. */
  function Items(es: Entries): (r: Result<seq<CompletionItem>, CompletionError>)
    ensures r.Success? <==> forall i :: 0 <= i < |es| ==> ItemOf(es[i]).Success?
    ensures r.Success? ==> |r.value| == |es| && forall i :: 0 <= i < |es| ==> r.value[i] == ItemOf(es[i]).value
  {
    if |es| == 0 then Success([])
    else
      var first :- ItemOf(es[0]);
      var rest :- Items(es[1..]);
      assert forall i :: 1 <= i < |es| ==> es[i] == es[1..][i - 1];
      Success([first] + rest)
  }

  /** Each item annotated by `fill` against its own trigger, with the short "More" details. */
  function Filled(d: OptionDescriptor, items: seq<CompletionItem>): (r: seq<CompletionItem>)
    ensures |r| == |items|
    ensures forall i :: 0 <= i < |items| ==> r[i] == Fill(d, items[i], PyStr(items[i].trigger), true)
  {
    seq(|items|, i requires 0 <= i < |items| => Fill(d, items[i], PyStr(items[i].trigger), true))
  }

  function ValueItems(rule: KeyRule, d: OptionDescriptor): Result<seq<CompletionItem>, CompletionError> {
    var sorted :- SortedChoices(rule, d);
    var items :- Items(sorted);
    Success(Filled(d, items))
  }

  /**
   * The part of `on_query_completions` after the option is known: boolean values for a
   * `bool` option where a boolean is expected, the merged choices where a string is
   * expected, and nothing otherwise. `expectsBool` and `expectsString` stand for the
   * editor's scope tests at the cursor.
   */
  function ValueCompletions(rule: KeyRule, d: OptionDescriptor, expectsBool: bool, expectsString: bool): Result<Option<CompletionList>, CompletionError> {
    if expectsBool && d.optionType == BoolType then
      Success(Some(CompletionList([
        Fill(d, Item("true", "", KindVariable), PyBool(true), true),
        Fill(d, Item("false", "", KindVariable), PyBool(false), true)], true, false)))
    else if expectsString && d.optionType != BoolType && (|d.choices| > 0 || HasDefault(d)) then
      var items :- ValueItems(rule, d);
      Success(Some(CompletionList(items, true, true)))
    else
      Success(None)
  }

  // ---------------------------------------------------------------------------
  // properties of the merge

  /** The default of a `bool` option is the one of "true" and "false" marked "Default value". */
  lemma BoolDefaultMarked(d: OptionDescriptor, expectsString: bool, b: bool)
    requires d.optionType == BoolType && !d.deprecated && GetDefault(d) == PyBool(b)
    ensures
      var r := ValueCompletions(Corrected, d, true, expectsString);
      && r.Success? && r.value.Some? && |r.value.value.items| == 2
      && r.value.value.items[0].trigger == "true" && r.value.value.items[1].trigger == "false"
      && r.value.value.inhibitWordCompletions && !r.value.value.inhibitReorder
      && (r.value.value.items[0].annotation == "Default value" <==> b)
      && (r.value.value.items[1].annotation == "Default value" <==> !b)
  {
  }

  /** Every key of the merged dictionary comes from a choice or from the default, once. */
  lemma MergedKeys(rule: KeyRule, d: OptionDescriptor)
    requires Merged(rule, d).Success?
    ensures DistinctKeys(Merged(rule, d).value)
    ensures forall k :: HasKey(Merged(rule, d).value, k) <==>
      KeyOfSome(rule, d.optionType, d.choices, k)
      || (HasDefault(d) && KeyBy(rule, d.optionType, ChoiceValue(GetDefault(d))) == Success(k))
  {
  }

  lemma {:induction false} DistinctCount(a: Entries, x: Entry)
    requires DistinctKeys(a)
    ensures multiset(a)[x] <= 1
  {
    if |a| > 0 {
      assert a == [a[0]] + a[1..];
      DistinctCons(a[0], a[1..]);
      DistinctCount(a[1..], x);
      forall y | y in a[1..] ensures y.0 != a[0].0 {
        var i :| 0 <= i < |a[1..]| && a[1..][i] == y;
      }
    }
  }

  /** Reordering the pairs of a dictionary keeps its keys distinct. */
  lemma DistinctUnderPermutation(a: Entries, b: Entries)
    requires multiset(a) == multiset(b) && DistinctKeys(a)
    ensures DistinctKeys(b)
  {
    forall i, j | 0 <= i < j < |b| ensures b[i] != b[j] {
      DistinctCount(a, b[j]);
      assert b == b[..j] + b[j..];
      assert b[i] in b[..j];
      assert b[j..][0] == b[j];
      assert multiset(b)[b[j]] == multiset(b[..j])[b[j]] + multiset(b[j..])[b[j]];
    }
    forall i, j | 0 <= i < j < |b| ensures b[i].0 != b[j].0 {
      assert b[i] in multiset(a) && b[j] in multiset(a);
      var p :| 0 <= p < |a| && a[p] == b[i];
      var q :| 0 <= q < |a| && a[q] == b[j];
      assert p != q;
      assert a[p].0 != a[q].0 by {
        if p < q {
          assert a[p].0 != a[q].0;
        } else {
          assert a[q].0 != a[p].0;
        }
      }
    }
  }

  /**
   * What `sorted(choices.items())` gives when it succeeds: one pair per key, the keys
   * strictly increasing, and every key of a choice or of the default present.
   */
  lemma SortedChoicesOnePerKey(rule: KeyRule, d: OptionDescriptor)
    requires SortedChoices(rule, d).Success?
    ensures
      var r := SortedChoices(rule, d).value;
      && DistinctKeys(r)
      && (forall i, j :: 0 <= i < j < |r| ==> KeyLe(r[i].0, r[j].0) && r[i].0 != r[j].0)
      && (forall k :: HasKey(r, k) <==>
           KeyOfSome(rule, d.optionType, d.choices, k)
           || (HasDefault(d) && KeyBy(rule, d.optionType, ChoiceValue(GetDefault(d))) == Success(k)))
  {
    var m := Merged(rule, d).value;
    var r := Sort(m, EntryLe);
    assert SortedChoices(rule, d).value == r;
    MergedKeys(rule, d);
    DistinctUnderPermutation(m, r);
    EntryLeTotalPreorder();
    SortSorted(m, EntryLe);
    SortMembers(m, EntryLe);
    forall k ensures HasKey(r, k) <==> HasKey(m, k) {
      if HasKey(r, k) {
        var i :| 0 <= i < |r| && r[i].0 == k;
        assert r[i] in r;
      }
      if HasKey(m, k) {
        var i :| 0 <= i < |m| && m[i].0 == k;
        assert m[i] in m;
        var j :| 0 <= j < |r| && r[j] == m[i];
      }
    }
  }

  /** The default is always among the sorted pairs, paired with itself. */
  lemma DefaultIncluded(rule: KeyRule, d: OptionDescriptor)
    requires SortedChoices(rule, d).Success? && HasDefault(d)
    ensures KeyBy(rule, d.optionType, ChoiceValue(GetDefault(d))).Success?
    ensures (KeyBy(rule, d.optionType, ChoiceValue(GetDefault(d))).value, ChoiceValue(GetDefault(d))) in SortedChoices(rule, d).value
  {
    var m := Merged(rule, d).value;
    SortMembers(m, EntryLe);
  }

  lemma SameMembers(a: Entries, b: Entries)
    requires multiset(a) == multiset(b)
    ensures forall e :: e in a <==> e in b
  {
    forall e ensures e in a <==> e in b {
      assert e in a <==> e in multiset(a);
      assert e in b <==> e in multiset(b);
    }
  }

  /** A sort that succeeds saw keys of one rank only. */
  lemma SortedChoicesOneRank(rule: KeyRule, d: OptionDescriptor)
    requires SortedChoices(rule, d).Success?
    ensures var r := SortedChoices(rule, d).value;
      forall i, j :: 0 <= i < |r| && 0 <= j < |r| ==> KindRank(r[i].0) == KindRank(r[j].0)
  {
    var m := Merged(rule, d).value;
    var r := SortedChoices(rule, d).value;
    SameMembers(m, r);
    assert !MixedKinds(m);
    forall i, j | 0 <= i < |r| && 0 <= j < |r| ensures KindRank(r[i].0) == KindRank(r[j].0) {
      assert r[i] in r && r[j] in r;
      var p :| 0 <= p < |m| && m[p] == r[i];
      var q :| 0 <= q < |m| && m[q] == r[j];
      assert KindRank(m[p].0) == KindRank(m[q].0);
    }
  }

  /**
   * What the merged dictionary holds for option `d`: each pair is a choice or the default
   * under its own key; the default is there under its key; and each choice that no later
   * choice shares a key with is there under its key, unless the default took that key.
   */
  predicate MergeContents(rule: KeyRule, d: OptionDescriptor, m: Entries) {
    var t := d.optionType;
    && (forall e :: e in m ==>
         KeyedEntry(rule, t, e) && (e.1 in d.choices || (HasDefault(d) && e.1 == ChoiceValue(GetDefault(d)))))
    && (HasDefault(d) ==>
         KeyBy(rule, t, ChoiceValue(GetDefault(d))).Success?
         && (KeyBy(rule, t, ChoiceValue(GetDefault(d))).value, ChoiceValue(GetDefault(d))) in m)
    && (forall i ::
         (0 <= i < |d.choices| && LastWithKey(rule, t, d.choices, i)
          && !(HasDefault(d) && KeyBy(rule, t, ChoiceValue(GetDefault(d))) == KeyBy(rule, t, d.choices[i]))) ==>
         KeyBy(rule, t, d.choices[i]).Success? && (KeyBy(rule, t, d.choices[i]).value, d.choices[i]) in m)
  }

  /** The merge stores the values `MergeContents` describes. */
  lemma MergedValues(rule: KeyRule, d: OptionDescriptor)
    requires Merged(rule, d).Success?
    ensures MergeContents(rule, d, Merged(rule, d).value)
  {
    var t := d.optionType;
    var keyed := Keyed(rule, t, d.choices).value;
    KeyedOrigins(rule, t, d.choices);
    KeyedLastWins(rule, t, d.choices);
    if HasDefault(d) {
      var dv := ChoiceValue(GetDefault(d));
      var k := KeyBy(rule, t, dv).value;
      var m := Put(keyed, k, dv);
      assert Merged(rule, d).value == m;
      forall e | e in m
        ensures KeyedEntry(rule, t, e) && (e.1 in d.choices || e.1 == dv)
      {
        if e.0 == k {
          SameKeySamePair(m, e, (k, dv));
        } else {
          assert e in keyed;
        }
      }
      forall i | 0 <= i < |d.choices| && LastWithKey(rule, t, d.choices, i) && KeyBy(rule, t, dv) != KeyBy(rule, t, d.choices[i])
        ensures (KeyBy(rule, t, d.choices[i]).value, d.choices[i]) in m
      {
        assert (KeyBy(rule, t, d.choices[i]).value, d.choices[i]) in keyed;
      }
    }
  }

  /** Pairs that are the same as a set hold the same values. */
  lemma MergeContentsOfSameMembers(rule: KeyRule, d: OptionDescriptor, a: Entries, b: Entries)
    requires MergeContents(rule, d, a) && forall e :: e in a <==> e in b
    ensures MergeContents(rule, d, b)
  {
  }

  /** Sorting moves the pairs but keeps the values `MergeContents` describes. */
  lemma SortedValues(rule: KeyRule, d: OptionDescriptor)
    requires SortedChoices(rule, d).Success?
    ensures MergeContents(rule, d, SortedChoices(rule, d).value)
  {
    MergedValues(rule, d);
    SameMembers(Merged(rule, d).value, SortedChoices(rule, d).value);
    MergeContentsOfSameMembers(rule, d, Merged(rule, d).value, SortedChoices(rule, d).value);
  }

  // ---------------------------------------------------------------------------
  // the assertion of completions.py:503

  /**
   * As written, an `int` option with an integer default never gets its value
   * completions: the merge raises `AssertionError` (the `niceness` option, whose
   * default is 10 and whose choices are 0 to 20, is one).
   */
  lemma IntOptionFailsAsWritten(d: OptionDescriptor)
    requires d.optionType == IntType && d.default.PyInt?
    ensures ValueItems(AsWritten, d) == Failure(AssertionError)
  {
  }

  /** The `niceness` option of the catalogue, with its choices 0 to 20 and its default 10. */
  function Niceness(): (d: OptionDescriptor)
    ensures d.optionType == IntType && d.default == PyInt(10) && |d.choices| == 21
  {
    Descriptor("niceness", IntType).(default := PyInt(10), choices := seq(21, i => ChoiceValue(PyInt(i))))
  }

  lemma NicenessFailsAsWritten()
    ensures ValueCompletions(AsWritten, Niceness(), false, true) == Failure(AssertionError)
  {
    IntOptionFailsAsWritten(Niceness());
  }

  /** A pair of an integer key and the integer choice it keys. */
  predicate IntEntry(e: Entry) {
    e.0.KInt? && e.1 == ChoiceValue(PyInt(e.0.n))
  }

  predicate IntChoices(choices: seq<Choice>) {
    forall i :: 0 <= i < |choices| ==> choices[i].ChoiceValue? && choices[i].value.PyInt?
  }

  lemma {:induction false} KeyedIntegers(choices: seq<Choice>)
    requires IntChoices(choices)
    ensures Keyed(Corrected, IntType, choices).Success?
    ensures forall e :: e in Keyed(Corrected, IntType, choices).value ==> IntEntry(e)
    decreases |choices|
  {
    if |choices| > 0 {
      var init := choices[..|choices| - 1];
      assert IntChoices(init) by {
        assert forall i :: 0 <= i < |init| ==> init[i] == choices[i];
      }
      KeyedIntegers(init);
    }
  }

  lemma MergedIntegers(d: OptionDescriptor)
    requires d.optionType == IntType && d.default.PyInt? && IntChoices(d.choices)
    ensures Merged(Corrected, d).Success?
    ensures forall e :: e in Merged(Corrected, d).value ==> IntEntry(e)
    ensures !MixedKinds(Merged(Corrected, d).value)
  {
    KeyedIntegers(d.choices);
    var m := Merged(Corrected, d).value;
    forall i, j | 0 <= i < |m| && 0 <= j < |m| ensures KindRank(m[i].0) == KindRank(m[j].0) {
      assert m[i] in m && m[j] in m;
    }
  }

  lemma SortedIntegers(d: OptionDescriptor)
    requires d.optionType == IntType && d.default.PyInt? && IntChoices(d.choices)
    ensures SortedChoices(Corrected, d).Success?
    ensures forall e :: e in SortedChoices(Corrected, d).value ==> IntEntry(e)
  {
    MergedIntegers(d);
    SameMembers(Merged(Corrected, d).value, SortedChoices(Corrected, d).value);
  }

  /** Among integer choices, the ones keyed to `KInt(n)` are those of value `n`. */
  lemma IntKeyOfSome(choices: seq<Choice>, n: int)
    requires IntChoices(choices)
    ensures KeyOfSome(Corrected, IntType, choices, KInt(n)) <==> exists i :: 0 <= i < |choices| && choices[i] == ChoiceValue(PyInt(n))
  {
    if exists i :: 0 <= i < |choices| && choices[i] == ChoiceValue(PyInt(n)) {
      var i :| 0 <= i < |choices| && choices[i] == ChoiceValue(PyInt(n));
      assert KeyBy(Corrected, IntType, choices[i]) == Success(KInt(n));
    }
    if KeyOfSome(Corrected, IntType, choices, KInt(n)) {
      var i :| 0 <= i < |choices| && KeyBy(Corrected, IntType, choices[i]) == Success(KInt(n));
      assert choices[i] == ChoiceValue(PyInt(n));
    }
  }

  lemma IntKeysOfSorted(d: OptionDescriptor)
    requires d.optionType == IntType && d.default.PyInt? && IntChoices(d.choices)
    requires SortedChoices(Corrected, d).Success?
    ensures forall n :: HasKey(SortedChoices(Corrected, d).value, KInt(n)) <==>
      n == d.default.i || exists i :: 0 <= i < |d.choices| && d.choices[i] == ChoiceValue(PyInt(n))
  {
    var r := SortedChoices(Corrected, d).value;
    SortedChoicesOnePerKey(Corrected, d);
    assert HasDefault(d) && GetDefault(d) == d.default;
    assert KeyBy(Corrected, d.optionType, ChoiceValue(GetDefault(d))) == Success(KInt(d.default.i));
    forall n ensures HasKey(r, KInt(n)) <==> n == d.default.i || exists i :: 0 <= i < |d.choices| && d.choices[i] == ChoiceValue(PyInt(n)) {
      IntKeyOfSome(d.choices, n);
    }
  }

  /**
   * With the key as intended, an `int` option whose choices and default are integers
   * has one sorted pair per distinct value, in increasing numeric order, each the
   * choice of that value.
   */
  lemma IntOptionSortedWhenCorrected(d: OptionDescriptor)
    requires d.optionType == IntType && d.default.PyInt? && IntChoices(d.choices)
    ensures SortedChoices(Corrected, d).Success?
    ensures
      var r := SortedChoices(Corrected, d).value;
      && (forall i :: 0 <= i < |r| ==> IntEntry(r[i]))
      && (forall i, j :: 0 <= i < j < |r| ==> r[i].0.n < r[j].0.n)
      && (forall n :: HasKey(r, KInt(n)) <==> n == d.default.i || exists i :: 0 <= i < |d.choices| && d.choices[i] == ChoiceValue(PyInt(n)))
  {
    SortedIntegers(d);
    var r := SortedChoices(Corrected, d).value;
    assert forall i :: 0 <= i < |r| ==> IntEntry(r[i]) by {
      forall i | 0 <= i < |r| ensures IntEntry(r[i]) {
        assert r[i] in r;
      }
    }
    SortedChoicesOnePerKey(Corrected, d);
    assert forall i, j :: 0 <= i < j < |r| ==> r[i].0.n < r[j].0.n by {
      forall i, j | 0 <= i < j < |r| ensures r[i].0.n < r[j].0.n {
        assert KeyLe(r[i].0, r[j].0) && r[i].0 != r[j].0;
      }
    }
    IntKeysOfSorted(d);
  }

  /** Integer pairs become items whose triggers spell the integers in decimal. */
  lemma ItemsOfIntegers(r: Entries) returns (items: seq<CompletionItem>)
    requires forall i :: 0 <= i < |r| ==> IntEntry(r[i])
    ensures Items(r) == Success(items) && |items| == |r|
    ensures forall i :: 0 <= i < |r| ==> r[i].0.KInt? && items[i].trigger == IntToDecimal(r[i].0.n)
  {
    items := Items(r).value;
    forall i | 0 <= i < |r| ensures items[i].trigger == IntToDecimal(r[i].0.n) {
      assert items[i] == ItemOf(r[i]).value;
    }
  }

  /** `fill` leaves the triggers alone. */
  lemma FilledTriggers(d: OptionDescriptor, items: seq<CompletionItem>)
    ensures forall i :: 0 <= i < |items| ==> Filled(d, items)[i].trigger == items[i].trigger
  {
  }

  /** ... and each of those pairs becomes an item showing its value in decimal. */
  lemma IntOptionCompletesWhenCorrected(d: OptionDescriptor) returns (r: Entries, filled: seq<CompletionItem>)
    requires d.optionType == IntType && d.default.PyInt? && IntChoices(d.choices)
    ensures SortedChoices(Corrected, d) == Success(r) && ValueItems(Corrected, d) == Success(filled)
    ensures |filled| == |r|
    ensures forall i :: 0 <= i < |r| ==> r[i].0.KInt? && filled[i].trigger == IntToDecimal(r[i].0.n)
  {
    SortedIntegers(d);
    r := SortedChoices(Corrected, d).value;
    assert forall i :: 0 <= i < |r| ==> IntEntry(r[i]) by {
      forall i | 0 <= i < |r| ensures IntEntry(r[i]) {
        assert r[i] in r;
      }
    }
    var items := ItemsOfIntegers(r);
    filled := Filled(d, items);
    FilledTriggers(d, items);
  }

  /** A pair of a string key and the string choice it keys. */
  predicate StrEntry(e: Entry) {
    e.0.KStr? && e.1 == ChoiceValue(PyStr(e.0.s))
  }

  predicate StrChoices(choices: seq<Choice>) {
    forall i :: 0 <= i < |choices| ==> choices[i].ChoiceValue? && choices[i].value.PyStr?
  }

  /** Among string choices, the ones keyed to `KStr(s)` are those of value `s`. */
  lemma StrKeyOfSome(rule: KeyRule, t: OptionType, choices: seq<Choice>, s: string)
    requires StrChoices(choices)
    ensures KeyOfSome(rule, t, choices, KStr(s)) <==> exists i :: 0 <= i < |choices| && choices[i] == ChoiceValue(PyStr(s))
  {
    if exists i :: 0 <= i < |choices| && choices[i] == ChoiceValue(PyStr(s)) {
      var i :| 0 <= i < |choices| && choices[i] == ChoiceValue(PyStr(s));
      assert KeyBy(rule, t, choices[i]) == Success(KStr(s));
    }
    if KeyOfSome(rule, t, choices, KStr(s)) {
      var i :| 0 <= i < |choices| && KeyBy(rule, t, choices[i]) == Success(KStr(s));
      assert choices[i] == ChoiceValue(PyStr(s));
    }
  }

  lemma StringsKeyed(rule: KeyRule, t: OptionType, choices: seq<Choice>)
    requires StrChoices(choices)
    ensures AllKeyed(rule, t, choices)
  {
    forall i | 0 <= i < |choices| ensures KeyBy(rule, t, choices[i]).Success? {
      assert choices[i].value.PyStr?;
    }
  }

  /** Pairs keyed by strings only never mix kinds. */
  lemma StringsOneRank(m: Entries)
    requires forall e :: e in m ==> StrEntry(e)
    ensures !MixedKinds(m)
  {
    forall i, j | 0 <= i < |m| && 0 <= j < |m| ensures KindRank(m[i].0) == KindRank(m[j].0) {
      assert m[i] in m && m[j] in m;
    }
  }

  /** An option whose choices and default are strings merges into string pairs only, whichever key is used. */
  lemma MergedStrings(rule: KeyRule, d: OptionDescriptor)
    requires StrChoices(d.choices) && (HasDefault(d) ==> GetDefault(d).PyStr?)
    ensures Merged(rule, d).Success?
    ensures forall e :: e in Merged(rule, d).value ==> StrEntry(e)
    ensures !MixedKinds(Merged(rule, d).value)
  {
    StringsKeyed(rule, d.optionType, d.choices);
    MergedValues(rule, d);
    var m := Merged(rule, d).value;
    forall e | e in m ensures StrEntry(e) {
      if e.1 in d.choices {
        var i :| 0 <= i < |d.choices| && d.choices[i] == e.1;
        assert d.choices[i].value.PyStr?;
      }
    }
    StringsOneRank(m);
  }

  lemma SortedStrings(rule: KeyRule, d: OptionDescriptor)
    requires StrChoices(d.choices) && (HasDefault(d) ==> GetDefault(d).PyStr?)
    ensures SortedChoices(rule, d).Success?
    ensures var r := SortedChoices(rule, d).value;
      forall i :: 0 <= i < |r| ==> StrEntry(r[i])
  {
    MergedStrings(rule, d);
    var r := SortedChoices(rule, d).value;
    SameMembers(Merged(rule, d).value, r);
    forall i | 0 <= i < |r| ensures StrEntry(r[i]) {
      assert r[i] in r;
    }
  }

  /** Only the string `s` keys to `KStr(s)`. */
  lemma StrKeyOfValue(rule: KeyRule, t: OptionType, v: PyValue, s: string)
    ensures KeyBy(rule, t, ChoiceValue(v)) == Success(KStr(s)) <==> v == PyStr(s)
  {
  }

  lemma StrKeysOfSorted(rule: KeyRule, d: OptionDescriptor)
    requires StrChoices(d.choices) && SortedChoices(rule, d).Success?
    ensures forall s :: HasKey(SortedChoices(rule, d).value, KStr(s)) <==>
      (HasDefault(d) && GetDefault(d) == PyStr(s)) || exists i :: 0 <= i < |d.choices| && d.choices[i] == ChoiceValue(PyStr(s))
  {
    var r := SortedChoices(rule, d).value;
    SortedChoicesOnePerKey(rule, d);
    forall s | true
      ensures HasKey(r, KStr(s)) <==>
        (HasDefault(d) && GetDefault(d) == PyStr(s)) || exists i :: 0 <= i < |d.choices| && d.choices[i] == ChoiceValue(PyStr(s))
    {
      StrKeyOfSome(rule, d.optionType, d.choices, s);
      StrKeyOfValue(rule, d.optionType, GetDefault(d), s);
    }
  }

  /**
   * A string option (or any option whose choices and default are strings) has one sorted
   * pair per distinct string among its choices and default, in increasing string order,
   * each the choice of that string.
   */
  lemma StrOptionSorted(rule: KeyRule, d: OptionDescriptor)
    requires StrChoices(d.choices) && (HasDefault(d) ==> GetDefault(d).PyStr?)
    ensures SortedChoices(rule, d).Success?
    ensures
      var r := SortedChoices(rule, d).value;
      && (forall i :: 0 <= i < |r| ==> StrEntry(r[i]))
      && (forall i, j :: 0 <= i < j < |r| ==> StrLe(r[i].0.s, r[j].0.s) && r[i].0.s != r[j].0.s)
      && (forall s :: HasKey(r, KStr(s)) <==>
           (HasDefault(d) && GetDefault(d) == PyStr(s)) || exists i :: 0 <= i < |d.choices| && d.choices[i] == ChoiceValue(PyStr(s)))
  {
    SortedStrings(rule, d);
    var r := SortedChoices(rule, d).value;
    SortedChoicesOnePerKey(rule, d);
    forall i, j | 0 <= i < j < |r| ensures StrLe(r[i].0.s, r[j].0.s) && r[i].0.s != r[j].0.s {
      assert KeyLe(r[i].0, r[j].0) && r[i].0 != r[j].0;
    }
    StrKeysOfSorted(rule, d);
  }

  /** ... and each of those pairs becomes an item whose trigger is its string. */
  lemma StrOptionCompletes(rule: KeyRule, d: OptionDescriptor) returns (r: Entries, filled: seq<CompletionItem>)
    requires StrChoices(d.choices) && (HasDefault(d) ==> GetDefault(d).PyStr?)
    ensures SortedChoices(rule, d) == Success(r) && ValueItems(rule, d) == Success(filled)
    ensures |filled| == |r|
    ensures forall i :: 0 <= i < |r| ==> r[i].0.KStr? && filled[i].trigger == r[i].0.s
  {
    SortedStrings(rule, d);
    r := SortedChoices(rule, d).value;
    var items := Items(r).value;
    forall i | 0 <= i < |r| ensures items[i].trigger == r[i].0.s {
      assert items[i] == ItemOf(r[i]).value;
    }
    filled := Filled(d, items);
    FilledTriggers(d, items);
  }

  /** Where a string is expected, a non-`bool` option with choices or a default offers exactly its merged items. */
  lemma StringBranch(rule: KeyRule, d: OptionDescriptor, expectsBool: bool)
    requires d.optionType != BoolType && (|d.choices| > 0 || HasDefault(d))
    ensures ValueCompletions(rule, d, expectsBool, true).Success? <==> ValueItems(rule, d).Success?
    ensures ValueItems(rule, d).Success? ==>
      ValueCompletions(rule, d, expectsBool, true).value == Some(CompletionList(ValueItems(rule, d).value, true, true))
  {
  }

  /** Nothing is offered where neither a boolean nor a string is expected. */
  lemma NothingElsewhere(rule: KeyRule, d: OptionDescriptor)
    ensures ValueCompletions(rule, d, false, false) == Success(None)
  {
  }
}
