/**
 * plugins/gen_conf_options.py: turning the rows of the generated documentation
 * table into `Option` records. The HTML tree itself is not modelled: a row is given
 * by the texts of its name and behaviour cells, the attributes of the name cell's
 * first anchor, and its notes cell, given as its contents with the attributes of its
 * anchors held apart.
 */
module GenConfOptions {
  import opened Wrappers
  import opened Strings
  import opened Lib

  const IgnoreModules: string := "ignore-modules"
  const CannotBeOverridden: string := "Cannot be overridden"
  const CanOnlyUseIn: string := "Can only use in"
  const ModuleSettingOverridesGlobal: string := "Module setting overrides global"

  // ---------------------------------------------------------------------------
  // parse_region

  /** The scope restriction that a row's name and behaviour text state. */
  function ParseRegion(name: string, text: string): (r: Restriction)
    ensures 0 <= r <= 3
  {
    if name == IgnoreModules then BitOr(GlobalScope, ModuleSetScope)
    else if Contains(text, CannotBeOverridden) then GlobalScope
    else if Contains(text, CanOnlyUseIn) then ModuleSetScope
    else if Contains(text, ModuleSettingOverridesGlobal) then AnyScope
    else AnyScope
  }

  /** "ignore-modules" is restricted to global and module-set blocks whatever its text says. */
  lemma IgnoreModulesIsGlobalAndModuleSet(text: string)
    ensures ParseRegion(IgnoreModules, text) == BitOr(GlobalScope, ModuleSetScope)
  {
  }

  /** "Cannot be overridden" means global, even when "Can only use in" is present too. */
  lemma CannotBeOverriddenIsGlobal(name: string, text: string)
    requires name != IgnoreModules && Contains(text, CannotBeOverridden)
    ensures ParseRegion(name, text) == GlobalScope
  {
  }

  lemma CanOnlyUseInIsModuleSet(name: string, text: string)
    requires name != IgnoreModules && !Contains(text, CannotBeOverridden) && Contains(text, CanOnlyUseIn)
    ensures ParseRegion(name, text) == ModuleSetScope
  {
  }

  lemma OtherTextIsAny(name: string, text: string)
    requires name != IgnoreModules && !Contains(text, CannotBeOverridden) && !Contains(text, CanOnlyUseIn)
    ensures ParseRegion(name, text) == AnyScope
  {
  }

  /**
   * The same classifier read bit by bit: the global bit is set for "ignore-modules"
   * and for "Cannot be overridden"; the module-set bit for "ignore-modules" and for
   * "Can only use in" when "Cannot be overridden" is absent.
   */
  lemma ParseRegionBits(name: string, text: string)
    ensures HasBit(ParseRegion(name, text), 0) <==> name == IgnoreModules || Contains(text, CannotBeOverridden)
    ensures HasBit(ParseRegion(name, text), 1) <==>
      name == IgnoreModules || (!Contains(text, CannotBeOverridden) && Contains(text, CanOnlyUseIn))
  {
    var r := ParseRegion(name, text);
    CombinedRestriction(0);
    assert HasBit(r, 1) == HasBit(r / 2, 0);
  }

  // ---------------------------------------------------------------------------
  // the href rewrite of parse_option

  /** An anchor's attributes. */
  type Attributes = map<string, string>

  predicate IsAbsoluteLink(href: string) {
    "http://" <= href || "https://" <= href
  }

  /** One anchor of a notes cell after the rewrite; `urljoin` is the URL library's join. */
  function RewrittenLink(a: Attributes, urljoin: (string, string) -> string): (r: Attributes)
    ensures r.Keys == a.Keys
    ensures forall k :: k in a && k != "href" ==> r[k] == a[k]
    ensures "href" in a && IsAbsoluteLink(a["href"]) ==> r == a
    ensures "href" in a && !IsAbsoluteLink(a["href"]) ==> r["href"] == urljoin(DocBaseUrl, a["href"])
  {
    if "href" !in a || IsAbsoluteLink(a["href"]) then a
    else a["href" := urljoin(DocBaseUrl, a["href"])]
  }

  function RewrittenLinks(links: seq<Attributes>, urljoin: (string, string) -> string): (r: seq<Attributes>)
    ensures |r| == |links|
    ensures forall i :: 0 <= i < |links| ==> r[i] == RewrittenLink(links[i], urljoin)
  {
    seq(|links|, i requires 0 <= i < |links| => RewrittenLink(links[i], urljoin))
  }

  /** The loop of `parse_option` that rewrites the notes cell's anchors in place. */
  method RewriteLinks(links: array<Attributes>, urljoin: (string, string) -> string)
    modifies links
    ensures links[..] == RewrittenLinks(old(links[..]), urljoin)
  {
    for i := 0 to links.Length
      invariant forall k :: 0 <= k < i ==> links[k] == RewrittenLink(old(links[k]), urljoin)
      invariant forall k :: i <= k < links.Length ==> links[k] == old(links[k])
    {
      var a := links[i];
      if "href" !in a {
        continue;
      }
      var href := a["href"];
      if "http://" <= href || "https://" <= href {
        continue;
      }
      links[i] := a["href" := urljoin(DocBaseUrl, href)];
    }
  }

  // ---------------------------------------------------------------------------
  // parse_option

  /**
   * The contents of a notes cell (its text and markup) with the attribute lists of its
   * anchors taken out; those are the `noteLinks` of the row, in document order.
   */
  type NotesCell = string

  /**
   * One `<tr>`: the name cell's text and the attributes of its first anchor (if it has
   * one), the behaviour cell's text, and the notes cell with the attributes of its anchors.
   */
  datatype Row = Row(nameText: string, nameAnchor: Option<Attributes>, behaviorText: string, notesCell: NotesCell, noteLinks: seq<Attributes>)

  /** What `parse_option` does with a row: skip it, return an `Option`, or raise `KeyError`. */
  datatype RowResult = Skipped | Parsed(option: ConfOption) | MissingAttribute(key: string)

  /**
   * `parse_option` on a row. `serialize(cell, links)` renders the cell's contents with
   * `links` as the attributes of its anchors, as `''.join(map(str, notes.contents))` does.
   */
  function ParseRow(row: Row, urljoin: (string, string) -> string, serialize: (NotesCell, seq<Attributes>) -> string): (r: RowResult)
    ensures r.Skipped? <==> row.nameAnchor.None?
    ensures r.MissingAttribute? <==> RowRaises(row)
    ensures r.MissingAttribute? ==> r.key == "name"
  {
    match row.nameAnchor
    case None => Skipped
    case Some(anchor) =>
      if "name" !in anchor then MissingAttribute("name")
      else
        var region := ParseRegion(row.nameText, row.behaviorText);
        var notes := Strip(serialize(row.notesCell, RewrittenLinks(row.noteLinks, urljoin)));
        Parsed(ConfOption(row.nameText, anchor["name"], region, notes))
  }

  /** A parsed row keeps its name, the anchor's name, the region its texts give and its notes cell rendered with the rewritten links. */
  lemma ParsedRowFields(row: Row, urljoin: (string, string) -> string, serialize: (NotesCell, seq<Attributes>) -> string)
    requires ParseRow(row, urljoin, serialize).Parsed?
    ensures var o := ParseRow(row, urljoin, serialize).option;
      && row.nameAnchor.Some? && "name" in row.nameAnchor.value
      && o.name == row.nameText && o.anchor == row.nameAnchor.value["name"]
      && o.region == ParseRegion(row.nameText, row.behaviorText)
      && o.notes == Strip(serialize(row.notesCell, RewrittenLinks(row.noteLinks, urljoin)))
  {
  }

  /** `parse_option` with the notes cell's anchors held in an array that it rewrites in place. */
  method ParseOption(
    nameText: string, nameAnchor: Option<Attributes>, behaviorText: string, notesCell: NotesCell, notes: array<Attributes>,
    urljoin: (string, string) -> string, serialize: (NotesCell, seq<Attributes>) -> string)
    returns (r: RowResult)
    modifies notes
    ensures r == ParseRow(Row(nameText, nameAnchor, behaviorText, notesCell, old(notes[..])), urljoin, serialize)
    ensures nameAnchor.None? ==> notes[..] == old(notes[..])
    ensures nameAnchor.Some? ==> notes[..] == RewrittenLinks(old(notes[..]), urljoin)
  {
    if nameAnchor.None? {
      return Skipped;
    }
    RewriteLinks(notes, urljoin);
    var region := ParseRegion(nameText, behaviorText);
    var text := Strip(serialize(notesCell, notes[..]));
    if "name" !in nameAnchor.value {
      return MissingAttribute("name");
    }
    r := Parsed(ConfOption(nameText, nameAnchor.value["name"], region, text));
  }

  // ---------------------------------------------------------------------------
  // parse_options

  predicate RowRaises(row: Row) {
    row.nameAnchor.Some? && "name" !in row.nameAnchor.value
  }

  /** What `parse_option` does with each row, in row order. */
  function RowResults(rows: seq<Row>, urljoin: (string, string) -> string, serialize: (NotesCell, seq<Attributes>) -> string): (r: seq<RowResult>)
    ensures |r| == |rows|
    decreases |rows|
  {
    if |rows| == 0 then []
    else RowResults(rows[..|rows| - 1], urljoin, serialize) + [ParseRow(rows[|rows| - 1], urljoin, serialize)]
  }

  /** The result at each row is `parse_option` of that row. */
  lemma {:induction false} RowResultAt(rows: seq<Row>, urljoin: (string, string) -> string, serialize: (NotesCell, seq<Attributes>) -> string, i: int)
    requires 0 <= i < |rows|
    ensures RowResults(rows, urljoin, serialize)[i] == ParseRow(rows[i], urljoin, serialize)
    decreases |rows|
  {
    var n := |rows| - 1;
    assert RowResults(rows, urljoin, serialize) == RowResults(rows[..n], urljoin, serialize) + [ParseRow(rows[n], urljoin, serialize)];
    if i < n {
      RowResultAt(rows[..n], urljoin, serialize, i);
      assert rows[..n][i] == rows[i];
    }
  }

  lemma {:induction false} RowResultsAppend(a: seq<Row>, b: seq<Row>, urljoin: (string, string) -> string, serialize: (NotesCell, seq<Attributes>) -> string)
    ensures RowResults(a + b, urljoin, serialize) == RowResults(a, urljoin, serialize) + RowResults(b, urljoin, serialize)
    decreases |b|
  {
    if |b| == 0 {
      assert a + b == a;
    } else {
      var n := |b| - 1;
      assert (a + b)[..|a + b| - 1] == a + b[..n];
      assert (a + b)[|a + b| - 1] == b[n];
      RowResultsAppend(a, b[..n], urljoin, serialize);
    }
  }

  /** The options among the results, in order. */
  function Kept(results: seq<RowResult>): seq<ConfOption> {
    if |results| == 0 then []
    else (match results[0] case Parsed(o) => [o] case _ => []) + Kept(results[1..])
  }

  /** The options the rows yield, in row order: the reference for `ParseOptions`. */
  function KeptOptions(rows: seq<Row>, urljoin: (string, string) -> string, serialize: (NotesCell, seq<Attributes>) -> string): seq<ConfOption> {
    Kept(RowResults(rows, urljoin, serialize))
  }

  lemma {:induction false} KeptAppend(a: seq<RowResult>, b: seq<RowResult>)
    ensures Kept(a + b) == Kept(a) + Kept(b)
    decreases |a|
  {
    if |a| > 0 {
      assert (a + b)[0] == a[0];
      assert (a + b)[1..] == a[1..] + b;
      KeptAppend(a[1..], b);
    } else {
      assert a + b == b;
    }
  }

  /** Appending one result appends its option, if it has one. */
  lemma KeptSnoc(results: seq<RowResult>, x: RowResult)
    ensures Kept(results + [x]) == Kept(results) + if x.Parsed? then [x.option] else []
  {
    KeptAppend(results, [x]);
    assert [x][1..] == [];
  }

  /** A row without an anchor in its name cell yields nothing and leaves the others' order alone. */
  lemma SkippedRowYieldsNothing(a: seq<Row>, row: Row, b: seq<Row>, urljoin: (string, string) -> string, serialize: (NotesCell, seq<Attributes>) -> string)
    requires row.nameAnchor.None?
    ensures KeptOptions(a + [row] + b, urljoin, serialize) == KeptOptions(a, urljoin, serialize) + KeptOptions(b, urljoin, serialize)
  {
    var ra, rb := RowResults(a, urljoin, serialize), RowResults(b, urljoin, serialize);
    assert RowResults([row], urljoin, serialize) == [Skipped] by {
      assert [row][..0] == [];
    }
    calc {
      KeptOptions(a + [row] + b, urljoin, serialize);
      == { RowResultsAppend(a + [row], b, urljoin, serialize); }
      Kept(RowResults(a + [row], urljoin, serialize) + rb);
      == { RowResultsAppend(a, [row], urljoin, serialize); }
      Kept(ra + [Skipped] + rb);
      == { KeptAppend(ra + [Skipped], rb); }
      Kept(ra + [Skipped]) + Kept(rb);
      == { KeptSnoc(ra, Skipped); }
      Kept(ra) + Kept(rb);
    }
  }

  /** One more row appends its option to what the rows before it yield, when it has one. */
  lemma ParseStep(rows: seq<Row>, i: int, urljoin: (string, string) -> string, serialize: (NotesCell, seq<Attributes>) -> string)
    requires 0 <= i < |rows|
    ensures var x := ParseRow(rows[i], urljoin, serialize);
      KeptOptions(rows[..i + 1], urljoin, serialize) == KeptOptions(rows[..i], urljoin, serialize) + if x.Parsed? then [x.option] else []
  {
    assert rows[..i + 1][..i] == rows[..i];
    KeptSnoc(RowResults(rows[..i], urljoin, serialize), ParseRow(rows[i], urljoin, serialize));
  }

  /** The error `parse_options` raises: the `KeyError` of the first row whose name anchor has no name. */
  datatype ParseError = KeyError(key: string)

  /** `list(parse_options(soup))`: the options of the rows in order, or the first row's error. */
  method ParseOptions(rows: seq<Row>, urljoin: (string, string) -> string, serialize: (NotesCell, seq<Attributes>) -> string)
    returns (r: Result<seq<ConfOption>, ParseError>)
    ensures r.Success? <==> forall i :: 0 <= i < |rows| ==> !RowRaises(rows[i])
    ensures r.Success? ==> r.value == KeptOptions(rows, urljoin, serialize)
    ensures r.Failure? ==> r.error == KeyError("name")
  {
    var options: seq<ConfOption> := [];
    for i := 0 to |rows|
      invariant forall k :: 0 <= k < i ==> !RowRaises(rows[k])
      invariant options == KeptOptions(rows[..i], urljoin, serialize)
    {
      var result := ParseRow(rows[i], urljoin, serialize);
      if result.MissingAttribute? {
        assert RowRaises(rows[i]);
        return Failure(KeyError(result.key));
      }
      ParseStep(rows, i, urljoin, serialize);
      if result.Parsed? {
        options := options + [result.option];
      }
    }
    assert rows[..|rows|] == rows;
    r := Success(options);
  }
}
