/**
 * completions.py, the pure part: block kinds and the scope rule, option descriptors,
 * their defaults, the annotation that `fill` puts on a completion item, the sections
 * of the documentation popup and `make_link`.
 */
module Completions {
  import opened Wrappers
  import opened Strings
  import opened Lib

  // ---------------------------------------------------------------------------
  // RegionType and may_contain

  /** The kinds of block a configuration file is made of. */
  datatype RegionType = Global | ModuleSet | Module | Options

  /** `RegionType.may_contain`: may an option with restriction `restricted` appear in this block? */
  function MayContain(block: RegionType, restricted: Restriction): bool {
    if restricted == AnyScope then true
    else if restricted == BitOr(GlobalScope, ModuleSetScope) then block == ModuleSet || block == Options
    else if restricted == GlobalScope then block == Global
    else if restricted == ModuleSetScope then block == ModuleSet
    else true
  }

  /** An unrestricted option may appear in every block. */
  lemma AnyAllowedEverywhere(block: RegionType)
    ensures MayContain(block, AnyScope)
  {
  }

  lemma GlobalOnlyInGlobalBlocks(block: RegionType)
    ensures MayContain(block, GlobalScope) <==> block == Global
  {
    CombinedRestriction(0);
  }

  lemma ModuleSetOnlyInModuleSetBlocks(block: RegionType)
    ensures MayContain(block, ModuleSetScope) <==> block == ModuleSet
  {
    CombinedRestriction(0);
  }

  /** `GLOBAL | MODULE_SET` is allowed in module-set and options blocks, and not in global ones. */
  lemma GlobalAndModuleSetBlocks(block: RegionType)
    ensures MayContain(block, BitOr(GlobalScope, ModuleSetScope)) <==> block == ModuleSet || block == Options
  {
  }

  /** A value outside the four known flags restricts nothing. */
  lemma UnknownRestrictionAllowedEverywhere(block: RegionType, restricted: Restriction)
    requires restricted < 0 || restricted > 3
    ensures MayContain(block, restricted)
  {
    CombinedRestriction(0);
  }

  /** Module blocks only take unrestricted options among the four known flags. */
  lemma ModuleBlocksTakeOnlyUnrestricted(restricted: Restriction)
    requires 0 <= restricted <= 3
    ensures MayContain(Module, restricted) <==> restricted == AnyScope
  {
    CombinedRestriction(0);
  }

  // ---------------------------------------------------------------------------
  // Python values, completion items and descriptors

  /** The scalar Python values options take as defaults and completion values. */
  datatype PyValue = PyNone | PyBool(b: bool) | PyInt(i: int) | PyStr(s: string)

  /** `str(v)`. */
  function Str(v: PyValue): string {
    match v
    case PyNone => "None"
    case PyBool(b) => if b then "True" else "False"
    case PyInt(i) => IntToDecimal(i)
    case PyStr(s) => s
  }

  /** Python's `a == b`; booleans compare equal to the integers 0 and 1. */
  predicate PyEq(a: PyValue, b: PyValue) {
    match (a, b)
    case (PyNone, PyNone) => true
    case (PyStr(x), PyStr(y)) => x == y
    case (PyInt(x), PyInt(y)) => x == y
    case (PyBool(x), PyBool(y)) => x == y
    case (PyBool(x), PyInt(y)) => (if x then 1 else 0) == y
    case (PyInt(x), PyBool(y)) => x == (if y then 1 else 0)
    case _ => false
  }

  /** The value types an option may have. */
  datatype OptionType = BoolType | IntType | StrType | PathType

  /** The editor's completion kinds. */
  datatype Kind = KindAmbiguous | KindNamespace | KindFunction | KindVariable | KindKeyword

  /** The sections of the documentation popup, in the order `render` emits them. */
  datatype Section = Title(name: string) | DefaultShown(value: PyValue) | Body(html: string) | Since(version: string) | ReadMore(href: string)

  /** What a completion item's details hold: nothing, the "More" command link for an option, or its documentation. */
  datatype Details = NoDetails | MoreLink(option: string) | Documentation(sections: seq<Section>)

  datatype CompletionItem = CompletionItem(trigger: string, annotation: string, completion: string, kind: Kind, details: Details)

  /** `CompletionItem(trigger, completion=..., kind=...)` with the editor's defaults for the rest. */
  function Item(trigger: string, completion: string, kind: Kind): CompletionItem {
    CompletionItem(trigger, "", completion, kind, NoDetails)
  }

  /** The list an `on_query_completions` handler returns, with its two inhibit flags. */
  datatype CompletionList = CompletionList(items: seq<CompletionItem>, inhibitWordCompletions: bool, inhibitReorder: bool)

  /** An entry of an option's `choices`: a plain value, or a ready-made completion item. */
  datatype Choice = ChoiceValue(value: PyValue) | ChoiceItem(item: CompletionItem)

  /**
   * `OptionDescriptor`. `defaultFn` stands for `default_fn`: `None` when there is no
   * callable, `Some(v)` when there is one and calling it gives `v`.
   */
  datatype OptionDescriptor = OptionDescriptor(
    name: string,
    optionType: OptionType,
    region: Restriction,
    choices: seq<Choice>,
    default: PyValue,
    defaultFn: Option<PyValue>,
    doc: string,
    anchor: string,
    since: string,
    deprecated: bool)

  /** `OptionDescriptor(name, type=t)` with the dataclass defaults for every other field. */
  function Descriptor(name: string, t: OptionType): (d: OptionDescriptor)
    ensures d.name == name && d.optionType == t && d.region == AnyScope
    ensures d.choices == [] && d.default == PyNone && d.defaultFn.None?
    ensures d.doc == "" && d.anchor == "" && d.since == "" && !d.deprecated
  {
    OptionDescriptor(name, t, AnyScope, [], PyNone, None, "", "", "", false)
  }

  /** `FALLBACK_OPTION_DESCRIPTOR`, returned for names the registry does not know. */
  const Fallback: OptionDescriptor := Descriptor("Unknown option", StrType)

  // ---------------------------------------------------------------------------
  // has_default and get_default

  predicate HasDefault(d: OptionDescriptor) {
    d.default != PyNone || d.defaultFn.Some?
  }

  function GetDefault(d: OptionDescriptor): PyValue {
    if d.default != PyNone then d.default
    else if d.defaultFn.Some? then d.defaultFn.value
    else PyNone
  }

  /** A literal default wins over the computed one. */
  lemma LiteralDefaultWins(d: OptionDescriptor)
    requires d.default != PyNone
    ensures GetDefault(d) == d.default && HasDefault(d)
  {
  }

  lemma ComputedDefaultWhenNoLiteral(d: OptionDescriptor)
    requires d.default == PyNone && d.defaultFn.Some?
    ensures GetDefault(d) == d.defaultFn.value && HasDefault(d)
  {
  }

  /** `has_default` is false exactly when there is neither a literal default nor a callable. */
  lemma NoDefaultIff(d: OptionDescriptor)
    ensures !HasDefault(d) <==> (d.default == PyNone && d.defaultFn.None?)
  {
  }

  /**
   * `get_default` returns `None` exactly when both are absent, or when the callable
   * itself returns `None`.
   */
  lemma GetDefaultNoneIff(d: OptionDescriptor)
    ensures GetDefault(d) == PyNone <==> !HasDefault(d) || (d.default == PyNone && d.defaultFn == Some(PyNone))
  {
  }

  // ---------------------------------------------------------------------------
  // render (its sections only)

  /** The sections of `render()`: title, default, doc, since and the link to the website. */
  function Render(d: OptionDescriptor): (r: seq<Section>)
    ensures |r| >= 1 && r[0] == Title(d.name)
  {
    [Title(d.name)]
    + (if d.default != PyNone then [DefaultShown(d.default)]
       else if d.defaultFn.Some? then [DefaultShown(d.defaultFn.value)]
       else [])
    + (if d.doc != "" then [Body(d.doc)] else [])
    + (if d.since != "" then [Since(d.since)] else [])
    + (if d.anchor != "" then [ReadMore(DocBaseUrl + "#" + d.anchor)] else [])
  }

  /** The popup shows a default exactly when `has_default` holds, and it shows `get_default`. */
  lemma RenderShowsDefault(d: OptionDescriptor)
    ensures (exists i :: 0 <= i < |Render(d)| && Render(d)[i].DefaultShown?) <==> HasDefault(d)
    ensures HasDefault(d) ==> Render(d)[1] == DefaultShown(GetDefault(d))
  {
    var r := Render(d);
    if HasDefault(d) {
      assert r[1].DefaultShown?;
    } else {
      forall i | 0 <= i < |r| ensures !r[i].DefaultShown? {
      }
    }
  }

  // ---------------------------------------------------------------------------
  // fill

  /** The value `fill` compares against: the default, stringified for `int` options. */
  function ComparedDefault(d: OptionDescriptor): PyValue {
    if d.optionType == IntType then PyStr(Str(GetDefault(d))) else GetDefault(d)
  }

  /**
   * `OptionDescriptor.fill`: marks the item "Deprecated", or "Default value" when it
   * offers the default, and sets its details.
   */
  function Fill(d: OptionDescriptor, item: CompletionItem, value: PyValue, short: bool): (r: CompletionItem)
    ensures r.trigger == item.trigger && r.completion == item.completion && r.kind == item.kind
    ensures d.deprecated ==> r.annotation == "Deprecated"
    ensures !d.deprecated && PyEq(ComparedDefault(d), value) ==> r.annotation == "Default value"
    ensures !d.deprecated && !PyEq(ComparedDefault(d), value) ==> r.annotation == item.annotation
    ensures r.details == if short then MoreLink(d.name) else Documentation(Render(d))
  {
    var annotated :=
      if d.deprecated then item.(annotation := "Deprecated")
      else
        var default := if d.optionType == IntType then PyStr(Str(GetDefault(d))) else GetDefault(d);
        if PyEq(default, value) then item.(annotation := "Default value") else item;
    annotated.(details := if short then MoreLink(d.name) else Documentation(Render(d)))
  }

  /** A deprecated option is never marked as offering its default. */
  lemma DeprecatedNeverDefault(d: OptionDescriptor, item: CompletionItem, value: PyValue, short: bool)
    requires d.deprecated
    ensures Fill(d, item, value, short).annotation != "Default value"
  {
  }

  /**
   * For an `int` option with an integer default, exactly the trigger that spells the
   * default in decimal is marked (on an item that was not marked before).
   */
  lemma IntDefaultMarksOneTrigger(d: OptionDescriptor, item: CompletionItem, trigger: string, k: int)
    requires !d.deprecated && d.optionType == IntType && d.default == PyInt(k)
    requires item.annotation == ""
    ensures Fill(d, item, PyStr(trigger), true).annotation == "Default value" <==> trigger == IntToDecimal(k)
  {
  }

  /** Two integer choices spell differently, so at most one of them is marked as the default. */
  lemma IntDefaultMarksOneChoice(d: OptionDescriptor, item: CompletionItem, a: int, b: int)
    requires !d.deprecated && d.optionType == IntType && item.annotation == ""
    requires Fill(d, item, PyStr(IntToDecimal(a)), true).annotation == "Default value"
    requires Fill(d, item, PyStr(IntToDecimal(b)), true).annotation == "Default value"
    ensures a == b
  {
    IntToDecimalInjective(a, b);
  }

  // ---------------------------------------------------------------------------
  // make_link

  /** A Python value is truthy: `None` and `""` are not. */
  predicate Truthy(className: Option<string>) {
    className.Some? && className.value != ""
  }

  /** The text a link shows: a string with its spaces made non-breaking, anything else as `str` gives it. */
  function LinkText(text: PyValue): (r: string)
    ensures text.PyStr? ==> ' ' !in r
    ensures !text.PyStr? ==> r == Str(text)
  {
    if text.PyStr? then ReplaceSpaces(text.s) else Str(text)
  }

  /** `make_link`: an anchor to `href`, with a class attribute when the class name is truthy. */
  function MakeLink(href: string, text: PyValue, className: Option<string>): string {
    if Truthy(className) then "<a href='" + href + "' class='" + className.value + "'>" + LinkText(text) + "</a>"
    else "<a href='" + href + "'>" + LinkText(text) + "</a>"
  }

  /** An absent or empty class name gives the plain link. */
  lemma FalsyClassGivesPlainLink(href: string, text: PyValue)
    ensures MakeLink(href, text, Some("")) == MakeLink(href, text, None)
  {
  }

  /** Both forms share the opening `<a href='...'` and the closing text; a class name adds only its attribute between them. */
  lemma ClassAttributeInserted(href: string, text: PyValue, c: string)
    requires c != ""
    ensures MakeLink(href, text, None) == "<a href='" + href + "'" + (">" + LinkText(text) + "</a>")
    ensures MakeLink(href, text, Some(c)) == "<a href='" + href + "'" + " class='" + c + "'" + (">" + LinkText(text) + "</a>")
  {
    var t := LinkText(text);
    assert "<a href='" + href + "'>" + t + "</a>" == "<a href='" + href + "'" + (">" + t + "</a>");
    assert "<a href='" + href + "' class='" + c + "'>" + t + "</a>" == "<a href='" + href + "'" + " class='" + c + "'" + (">" + t + "</a>");
  }

  /** The text of a string link keeps no space, and for text without '&' the spaces can be recovered. */
  lemma LinkTextHasNoSpaces(s: string)
    ensures ' ' !in ReplaceSpaces(s)
    ensures '&' !in s ==> RestoreSpaces(ReplaceSpaces(s)) == s
  {
    if '&' !in s {
      RestoreReplacedSpaces(s);
    }
  }
}
