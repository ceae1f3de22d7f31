/**
 * The completion queries of completions.py that do not touch the plugin's globals:
 * the filter of `complete_option_name`, `get_include_dirs` with the `dirname` it
 * relies on, the ordering of `get_filesystem_completions`, and the reading of the
 * module list that `query_modules` gets from kdesrc-build.
 */
module Queries {
  import opened Wrappers
  import opened Strings
  import opened Sorting
  import opened Lib
  import opened Completions

  // ---------------------------------------------------------------------------
  // complete_option_name: the filter and the items

  /** The test of `complete_option_name`: the name starts with the prefix (or the prefix is empty) and the block allows the option. */
  predicate Matches(region: RegionType, prefix: string, o: OptionDescriptor) {
    (prefix <= o.name || |prefix| == 0) && MayContain(region, o.region)
  }

  /** The empty-prefix test is subsumed by the prefix test: every name starts with "". */
  lemma EmptyPrefixMatchesAllowed(region: RegionType, prefix: string, o: OptionDescriptor)
    ensures Matches(region, prefix, o) <==> prefix <= o.name && MayContain(region, o.region)
    ensures Matches(region, "", o) <==> MayContain(region, o.region)
  {
  }

  /** The names in the registry whose option passes the test. */
  function MatchingKeys(registry: map<string, OptionDescriptor>, region: RegionType, prefix: string): (r: set<string>)
    ensures r <= registry.Keys
    ensures forall k :: k in r <==> k in registry && Matches(region, prefix, registry[k])
  {
    set k | k in registry && Matches(region, prefix, registry[k])
  }

  predicate NameLe(a: OptionDescriptor, b: OptionDescriptor) {
    StrLe(a.name, b.name)
  }

  lemma NameLeTotalPreorder()
    ensures TotalPreorder(NameLe)
  {
    forall a: OptionDescriptor, b: OptionDescriptor ensures NameLe(a, b) || NameLe(b, a) {
      StrLeTotal(a.name, b.name);
    }
    forall a: OptionDescriptor, b: OptionDescriptor, c: OptionDescriptor | NameLe(a, b) && NameLe(b, c) ensures NameLe(a, c) {
      StrLeTransitive(a.name, b.name, c.name);
    }
  }

  /** The item offered for an option name: the name followed by a space, annotated by `fill`. */
  function OptionItem(o: OptionDescriptor): (r: CompletionItem)
    ensures r.trigger == o.name && r.completion == o.name + " " && r.kind == KindVariable
    ensures r.details == MoreLink(o.name)
    ensures r.annotation == "Deprecated" <==> o.deprecated
  {
    Fill(o, Item(o.name, o.name + " ", KindVariable), PyStr(o.name), true)
  }

  function OptionItems(options: seq<OptionDescriptor>): (r: seq<CompletionItem>)
    ensures |r| == |options|
    ensures forall i :: 0 <= i < |options| ==> r[i] == OptionItem(options[i])
  {
    seq(|options|, i requires 0 <= i < |options| => OptionItem(options[i]))
  }

  // ---------------------------------------------------------------------------
  // os.path.dirname

  /** The length of `p` up to and including its last '/', or 0. */
  function AfterLastSlash(p: string): (r: nat)
    ensures r <= |p|
    ensures r == 0 || p[r - 1] == '/'
    ensures forall i :: r <= i < |p| ==> p[i] != '/'
  {
    if |p| == 0 then 0
    else if p[|p| - 1] == '/' then |p|
    else AfterLastSlash(p[..|p| - 1])
  }

  predicate AllSlashes(s: string) {
    forall i :: 0 <= i < |s| ==> s[i] == '/'
  }

  /** `s.rstrip('/')`. */
  function RStripSlashes(s: string): (r: string)
    ensures r <= s
    ensures r == [] || r[|r| - 1] != '/'
    ensures AllSlashes(s[|r|..])
  {
    if |s| == 0 || s[|s| - 1] != '/' then s
    else
      var r := RStripSlashes(s[..|s| - 1]);
      assert s[|r|..] == s[..|s| - 1][|r|..] + ['/'];
      r
  }

  /** `posixpath.dirname(p)`: the head up to the last '/', without its trailing slashes unless it is only slashes. */
  function DirName(p: string): string {
    var head := p[..AfterLastSlash(p)];
    if head != [] && !AllSlashes(head) then RStripSlashes(head) else head
  }

  /** A path has a non-empty directory part exactly when it has a '/'. */
  lemma DirNameEmptyIff(p: string)
    ensures DirName(p) == "" <==> '/' !in p
    ensures DirName(p) <= p
  {
    var n := AfterLastSlash(p);
    var head := p[..n];
    if '/' in p {
      var i :| 0 <= i < |p| && p[i] == '/';
      assert n > 0;
    } else {
      assert n == 0;
    }
  }

  lemma DirNameExamples()
    ensures DirName("a/b") == "a"
    ensures DirName("a//b") == "a"
    ensures DirName("/b") == "/"
    ensures DirName("//b") == "//"
    ensures DirName("b") == ""
  {
    assert AfterLastSlash("a/b") == 2;
    assert "a/b"[..2] == "a/";
    assert RStripSlashes("a/") == "a" by { assert "a/"[..1] == "a"; }
    assert AfterLastSlash("a//b") == 3;
    assert "a//b"[..3] == "a//";
    assert RStripSlashes("a//") == "a" by {
      assert "a//"[..2] == "a/";
      assert "a/"[..1] == "a";
    }
    assert !AllSlashes("a/") && !AllSlashes("a//");
    assert AfterLastSlash("/b") == 1;
    assert "/b"[..1] == "/";
    assert AfterLastSlash("//b") == 2;
    assert "//b"[..2] == "//";
    assert AfterLastSlash("b") == 0 by { assert "b"[..0] == ""; }
  }

  // ---------------------------------------------------------------------------
  // get_include_dirs

  /**
   * One `include` keyword of the file: the text between it and the end of its line,
   * and whether that line holds the cursor.
   */
  datatype IncludeLine = IncludeLine(rest: string, onCursorLine: bool)

  /** The path of the last include on the cursor's line, or "". */
  function MineOf(includes: seq<IncludeLine>): string
    decreases |includes|
  {
    if |includes| == 0 then ""
    else if includes[|includes| - 1].onCursorLine then Strip(includes[|includes| - 1].rest)
    else MineOf(includes[..|includes| - 1])
  }

  /** What one include adds to the other directories: its path's directory part, when it is off the cursor's line and not empty. */
  function OtherOf(line: IncludeLine): seq<string> {
    var base := DirName(Strip(line.rest));
    if !line.onCursorLine && |base| != 0 then [base] else []
  }

  /** The non-empty directory parts of the other includes' paths, in file order. */
  function OthersOf(includes: seq<IncludeLine>): seq<string>
    decreases |includes|
  {
    if |includes| == 0 then []
    else OthersOf(includes[..|includes| - 1]) + OtherOf(includes[|includes| - 1])
  }

  method GetIncludeDirs(includes: seq<IncludeLine>) returns (mine: string, others: seq<string>)
    ensures mine == MineOf(includes) && others == OthersOf(includes)
  {
    mine := "";
    others := [];
    for i := 0 to |includes|
      invariant mine == MineOf(includes[..i]) && others == OthersOf(includes[..i])
    {
      IncludeStep(includes, i);
      var path := Strip(includes[i].rest);
      if includes[i].onCursorLine {
        mine := path;
      } else {
        var base := DirName(path);
        if |base| != 0 {
          others := others + [base];
        }
      }
    }
    assert includes[..|includes|] == includes;
  }

  /** What one more include does to "mine" and to the other directories. */
  lemma IncludeStep(includes: seq<IncludeLine>, i: int)
    requires 0 <= i < |includes|
    ensures MineOf(includes[..i + 1]) == if includes[i].onCursorLine then Strip(includes[i].rest) else MineOf(includes[..i])
    ensures OthersOf(includes[..i + 1]) == OthersOf(includes[..i]) + OtherOf(includes[i])
  {
    assert includes[..i + 1][..i] == includes[..i];
  }

  /** With no include on the cursor's line, "mine" is empty. */
  lemma {:induction false} MineEmptyOffCursor(includes: seq<IncludeLine>)
    requires forall i :: 0 <= i < |includes| ==> !includes[i].onCursorLine
    ensures MineOf(includes) == ""
    decreases |includes|
  {
    if |includes| > 0 {
      var init := includes[..|includes| - 1];
      assert forall i :: 0 <= i < |init| ==> init[i] == includes[i];
      MineEmptyOffCursor(init);
    }
  }

  /** "Mine" is the stripped path of the last include on the cursor's line. */
  lemma {:induction false} MineIsLastOnCursor(includes: seq<IncludeLine>, j: int)
    requires 0 <= j < |includes| && includes[j].onCursorLine
    requires forall i :: j < i < |includes| ==> !includes[i].onCursorLine
    ensures MineOf(includes) == Strip(includes[j].rest)
    decreases |includes|
  {
    if j < |includes| - 1 {
      var init := includes[..|includes| - 1];
      assert forall i :: 0 <= i < |init| ==> init[i] == includes[i];
      MineIsLastOnCursor(init, j);
    }
  }

  /** None of the other directories is empty. */
  lemma {:induction false} OthersNonEmpty(includes: seq<IncludeLine>)
    ensures forall o :: o in OthersOf(includes) ==> o != ""
    decreases |includes|
  {
    if |includes| > 0 {
      OthersNonEmpty(includes[..|includes| - 1]);
    }
  }

  /** Each other directory is the directory part of an include off the cursor's line whose path has a '/'. */
  lemma {:induction false} OtherSource(includes: seq<IncludeLine>, o: string) returns (i: int)
    requires o in OthersOf(includes)
    ensures 0 <= i < |includes| && !includes[i].onCursorLine
    ensures '/' in Strip(includes[i].rest) && o == DirName(Strip(includes[i].rest))
    decreases |includes|
  {
    var n := |includes| - 1;
    var init := includes[..n];
    if o in OthersOf(init) {
      i := OtherSource(init, o);
      assert init[i] == includes[i];
    } else {
      i := n;
      DirNameEmptyIff(Strip(includes[n].rest));
    }
  }

  /** An include off the cursor's line whose path has a '/' contributes its directory part. */
  lemma {:induction false} OtherCovered(includes: seq<IncludeLine>, i: int)
    requires 0 <= i < |includes| && !includes[i].onCursorLine && '/' in Strip(includes[i].rest)
    ensures DirName(Strip(includes[i].rest)) in OthersOf(includes)
    decreases |includes|
  {
    var n := |includes| - 1;
    var init := includes[..n];
    var path := Strip(includes[n].rest);
    var base := DirName(path);
    var tail := OtherOf(includes[n]);
    assert OthersOf(includes) == OthersOf(init) + tail;
    if i < n {
      assert init[i] == includes[i];
      OtherCovered(init, i);
      assert DirName(Strip(init[i].rest)) in OthersOf(init) + tail;
    } else {
      assert '/' in path;
      DirNameEmptyIff(path);
      assert base != "";
      assert i == n;
      assert !includes[n].onCursorLine;
      assert |base| != 0;
      assert tail == [base];
      assert base in OthersOf(init) + tail;
    }
  }

  // ---------------------------------------------------------------------------
  // get_filesystem_completions

  /**
   * What the filesystem reports for an entry; `Unreadable` is an entry whose test raised
   * `IOError`. `os.path.isdir` and `os.path.isfile` return `False` instead of raising, so
   * no real listing has such an entry: an entry that cannot be inspected is `OtherEntry`.
   * `Unreadable` keeps the dropping branch of the loop.
   */
  datatype EntryKind = Directory | RegularFile | OtherEntry | Unreadable

  datatype DirEntry = DirEntry(name: string, kind: EntryKind)

  /** The names of the entries of one kind, in listing order. */
  function NamesOfKind(entries: seq<DirEntry>, kind: EntryKind): (r: seq<string>)
    ensures |r| <= |entries|
    decreases |entries|
  {
    if |entries| == 0 then []
    else
      var last := entries[|entries| - 1];
      NamesOfKind(entries[..|entries| - 1], kind) + if last.kind == kind then [last.name] else []
  }

  /** Items for sorted names: the given completion suffix and kind. */
  function GroupItems(names: seq<string>, suffix: string, kind: Kind): (r: seq<CompletionItem>)
    ensures |r| == |names|
    ensures forall i :: 0 <= i < |names| ==> r[i] == Item(names[i], names[i] + suffix, kind)
  {
    seq(|names|, i requires 0 <= i < |names| => Item(names[i], names[i] + suffix, kind))
  }

  /** The completions of a listed folder: directories with a trailing '/', then files, then the rest, each sorted. */
  function FsItems(entries: seq<DirEntry>): seq<CompletionItem> {
    Layout(Group(entries, Directory), Group(entries, RegularFile), Group(entries, OtherEntry))
  }

  /** The listing loop of `get_filesystem_completions`: the names split by kind, unreadable entries dropped. */
  method Partition(entries: seq<DirEntry>) returns (dirs: seq<string>, files: seq<string>, others: seq<string>)
    ensures dirs == NamesOfKind(entries, Directory)
    ensures files == NamesOfKind(entries, RegularFile)
    ensures others == NamesOfKind(entries, OtherEntry)
  {
    dirs, files, others := [], [], [];
    for i := 0 to |entries|
      invariant dirs == NamesOfKind(entries[..i], Directory)
      invariant files == NamesOfKind(entries[..i], RegularFile)
      invariant others == NamesOfKind(entries[..i], OtherEntry)
    {
      assert entries[..i + 1][..i] == entries[..i];
      var item := entries[i];
      match item.kind {
        case Directory => dirs := dirs + [item.name];
        case RegularFile => files := files + [item.name];
        case OtherEntry => others := others + [item.name];
        case Unreadable =>
      }
    }
    assert entries[..|entries|] == entries;
  }

  /** One of the three appending loops of `get_filesystem_completions`. */
  method AppendGroup(completions: seq<CompletionItem>, names: seq<string>, suffix: string, kind: Kind)
    returns (r: seq<CompletionItem>)
    ensures r == completions + GroupItems(names, suffix, kind)
  {
    r := completions;
    for i := 0 to |names|
      invariant r == completions + GroupItems(names[..i], suffix, kind)
    {
      r := r + [Item(names[i], names[i] + suffix, kind)];
    }
    assert names[..|names|] == names;
  }

  /** `get_filesystem_completions`; `listing` is `None` when `os.listdir` raised. */
  method FilesystemCompletions(listing: Option<seq<DirEntry>>) returns (completions: seq<CompletionItem>)
    ensures listing.None? ==> completions == []
    ensures listing.Some? ==> completions == FsItems(listing.value)
  {
    if listing.None? {
      return [];
    }
    var dirs, files, others := Partition(listing.value);
    dirs := Sort(dirs, StrLe);
    files := Sort(files, StrLe);
    others := Sort(others, StrLe);
    assert dirs == Group(listing.value, Directory);
    completions := AppendGroup([], dirs, "/", KindNamespace);
    completions := AppendGroup(completions, files, "", KindFunction);
    completions := AppendGroup(completions, others, "", KindAmbiguous);
    assert [] + GroupItems(dirs, "/", KindNamespace) == GroupItems(dirs, "/", KindNamespace);
  }

  lemma StrLeTotalPreorder()
    ensures TotalPreorder(StrLe)
  {
    forall a: string, b: string ensures StrLe(a, b) || StrLe(b, a) {
      StrLeTotal(a, b);
    }
    forall a: string, b: string, c: string | StrLe(a, b) && StrLe(b, c) ensures StrLe(a, c) {
      StrLeTransitive(a, b, c);
    }
  }

  /** Every readable entry falls in exactly one group, whatever the listing order. */
  lemma {:induction false} NamesOfKindCount(entries: seq<DirEntry>)
    ensures |NamesOfKind(entries, Directory)| + |NamesOfKind(entries, RegularFile)| + |NamesOfKind(entries, OtherEntry)|
      == |entries| - |NamesOfKind(entries, Unreadable)|
    decreases |entries|
  {
    if |entries| > 0 {
      NamesOfKindCount(entries[..|entries| - 1]);
    }
  }

  lemma {:induction false} NamesOfKindMembers(entries: seq<DirEntry>, kind: EntryKind)
    ensures forall n :: n in NamesOfKind(entries, kind) <==> DirEntry(n, kind) in entries
    decreases |entries|
  {
    if |entries| > 0 {
      var init := entries[..|entries| - 1];
      NamesOfKindMembers(init, kind);
      assert entries == init + [entries[|entries| - 1]];
    }
  }

  function Triggers(items: seq<CompletionItem>): (r: seq<string>)
    ensures |r| == |items| && forall i :: 0 <= i < |items| ==> r[i] == items[i].trigger
  {
    seq(|items|, i requires 0 <= i < |items| => items[i].trigger)
  }

  /** The sorted names of one kind, as `get_filesystem_completions` lists them. */
  function Group(entries: seq<DirEntry>, kind: EntryKind): seq<string> {
    Sort(NamesOfKind(entries, kind), StrLe)
  }

  /** A group's names are sorted and are exactly the names of the entries of its kind. */
  lemma GroupSortedAndComplete(entries: seq<DirEntry>, kind: EntryKind)
    ensures SortedBy(Group(entries, kind), StrLe)
    ensures |Group(entries, kind)| == |NamesOfKind(entries, kind)|
    ensures forall n :: n in Group(entries, kind) <==> DirEntry(n, kind) in entries
  {
    StrLeTotalPreorder();
    SortSorted(NamesOfKind(entries, kind), StrLe);
    SortMembers(NamesOfKind(entries, kind), StrLe);
    NamesOfKindMembers(entries, kind);
  }

  /** The three runs of items that `FsItems` lays out, for any three name lists. */
  function Layout(d: seq<string>, f: seq<string>, o: seq<string>): seq<CompletionItem> {
    GroupItems(d, "/", KindNamespace) + GroupItems(f, "", KindFunction) + GroupItems(o, "", KindAmbiguous)
  }

  /** The item `Layout` puts at position `i`. */
  lemma LayoutItem(d: seq<string>, f: seq<string>, o: seq<string>, i: int)
    requires 0 <= i < |d| + |f| + |o|
    ensures |Layout(d, f, o)| == |d| + |f| + |o|
    ensures i < |d| ==> Layout(d, f, o)[i] == Item(d[i], d[i] + "/", KindNamespace)
    ensures |d| <= i < |d| + |f| ==> Layout(d, f, o)[i] == Item(f[i - |d|], f[i - |d|], KindFunction)
    ensures |d| + |f| <= i ==> Layout(d, f, o)[i] == Item(o[i - |d| - |f|], o[i - |d| - |f|], KindAmbiguous)
  {
    var gd, gf, go := GroupItems(d, "/", KindNamespace), GroupItems(f, "", KindFunction), GroupItems(o, "", KindAmbiguous);
    assert Layout(d, f, o) == gd + gf + go;
    if i < |d| {
      assert (gd + gf + go)[i] == gd[i];
    } else if i < |d| + |f| {
      assert (gd + gf + go)[i] == gf[i - |d|];
      assert f[i - |d|] + "" == f[i - |d|];
    } else {
      assert (gd + gf + go)[i] == go[i - |d| - |f|];
      assert o[i - |d| - |f|] + "" == o[i - |d| - |f|];
    }
  }

  lemma LayoutFacts(d: seq<string>, f: seq<string>, o: seq<string>)
    ensures var items := Layout(d, f, o);
      && |items| == |d| + |f| + |o|
      && Triggers(items) == d + f + o
      && (forall i :: 0 <= i < |d| ==> items[i].kind == KindNamespace && items[i].completion == items[i].trigger + "/")
      && (forall i :: |d| <= i < |d| + |f| ==> items[i].kind == KindFunction && items[i].completion == items[i].trigger)
      && (forall i :: |d| + |f| <= i < |items| ==> items[i].kind == KindAmbiguous && items[i].completion == items[i].trigger)
  {
    var items := Layout(d, f, o);
    var all := d + f + o;
    forall i | 0 <= i < |items| ensures items[i].trigger == all[i] {
      LayoutItem(d, f, o, i);
    }
    forall i | 0 <= i < |items|
      ensures i < |d| ==> items[i].kind == KindNamespace && items[i].completion == items[i].trigger + "/"
      ensures |d| <= i < |d| + |f| ==> items[i].kind == KindFunction && items[i].completion == items[i].trigger
      ensures |d| + |f| <= i ==> items[i].kind == KindAmbiguous && items[i].completion == items[i].trigger
    {
      LayoutItem(d, f, o, i);
    }
    assert Triggers(items) == all;
  }

  /** A listing yields one completion per readable entry; unreadable entries are dropped. */
  lemma FsItemsCount(entries: seq<DirEntry>)
    ensures |FsItems(entries)| == |entries| - |NamesOfKind(entries, Unreadable)|
  {
    NamesOfKindCount(entries);
    GroupSortedAndComplete(entries, Directory);
    GroupSortedAndComplete(entries, RegularFile);
    GroupSortedAndComplete(entries, OtherEntry);
  }

  /**
   * The completions list the directories, then the regular files, then the other
   * entries, each group in sorted order (`GroupSortedAndComplete`); directories
   * complete with a trailing '/', the others with their own name.
   */
  lemma FsItemsOrder(entries: seq<DirEntry>)
    ensures var d := Group(entries, Directory);
      var f := Group(entries, RegularFile);
      var o := Group(entries, OtherEntry);
      var items := FsItems(entries);
      && Triggers(items) == d + f + o
      && (forall i :: 0 <= i < |d| ==> items[i].kind == KindNamespace && items[i].completion == items[i].trigger + "/")
      && (forall i :: |d| <= i < |d| + |f| ==> items[i].kind == KindFunction && items[i].completion == items[i].trigger)
      && (forall i :: |d| + |f| <= i < |items| ==> items[i].kind == KindAmbiguous && items[i].completion == items[i].trigger)
  {
    var d := Group(entries, Directory);
    var f := Group(entries, RegularFile);
    var o := Group(entries, OtherEntry);
    LayoutFacts(d, f, o);
  }

  // ---------------------------------------------------------------------------
  // query_modules: reading the module list

  /** `line.split()[1]`, or nothing when the line has fewer than two fields (the `IndexError`). */
  function ModuleOfLine(line: string): (r: Option<string>)
    ensures r.Some? ==> IsWord(r.value)
  {
    var words := Split(line);
    if |words| >= 2 then Some(words[1]) else None
  }

  /** `stdout.splitlines()[:-1]`: every line but the last. */
  function ListedLines(stdout: string): (r: seq<string>)
    ensures forall i :: 0 <= i < |r| ==> NoLineBreak(r[i])
  {
    var lines := SplitLines(stdout);
    if |lines| == 0 then [] else lines[..|lines| - 1]
  }

  /** The module names the lines give, in a set. */
  function ModuleNames(lines: seq<string>): (r: set<string>)
    ensures forall m :: m in r ==> IsWord(m)
    decreases |lines|
  {
    if |lines| == 0 then {}
    else
      var rest := ModuleNames(lines[..|lines| - 1]);
      match ModuleOfLine(lines[|lines| - 1])
      case Some(m) => rest + {m}
      case None => rest
  }

  /** One more line adds its module name, if it has one. */
  lemma ModuleNamesStep(lines: seq<string>, i: int)
    requires 0 <= i < |lines|
    ensures ModuleNames(lines[..i + 1]) == ModuleNames(lines[..i]) + if ModuleOfLine(lines[i]).Some? then {ModuleOfLine(lines[i]).value} else {}
  {
    assert lines[..i + 1][..i] == lines[..i];
  }

  /** A line of words, with or without a leading space, gives its second word. */
  lemma ModuleOfWords(words: seq<string>, indent: bool)
    requires |words| >= 2 && forall i :: 0 <= i < |words| ==> IsWord(words[i])
    ensures ModuleOfLine((if indent then " " else "") + JoinWords(words)) == Some(words[1])
  {
    var joined := JoinWords(words);
    var line := (if indent then " " else "") + joined;
    SplitJoinWords(words);
    if indent {
      assert line == [' '] + joined;
      SplitSkipsSpace(' ', joined);
    } else {
      assert line == joined;
    }
    assert Split(line) == words;
  }

  /** A line with a single word names no module. */
  lemma ShortLineSkipped(word: string, indent: bool)
    requires IsWord(word)
    ensures ModuleOfLine((if indent then " " else "") + word) == None
  {
    var prefix: string := if indent then " " else "";
    assert prefix + word == if indent then [' '] + word else word;
    SplitOneWord(word);
    if indent {
      SplitSkipsSpace(' ', word);
    }
    assert Split(prefix + word) == [word];
  }

  /** The last line of the output (kdesrc-build's closing message) is never read. */
  lemma ListedLinesDropLast(lines: seq<string>)
    requires |lines| > 0 && forall i :: 0 <= i < |lines| ==> NoLineBreak(lines[i])
    ensures ListedLines(Terminated(lines)) == lines[..|lines| - 1]
  {
    SplitTerminatedLines(lines);
  }

  /** The two line shapes of the listing: "── gammaray : master" (a branch is shown) and "── knotes". */
  lemma ListingBranchLine()
    ensures ModuleOfLine(" " + JoinWords(["──", "gammaray", ":", "master"])) == Some("gammaray")
  {
    ModuleOfWords(["──", "gammaray", ":", "master"], true);
  }

  lemma ListingPlainLine()
    ensures ModuleOfLine(" " + JoinWords(["──", "knotes"])) == Some("knotes")
  {
    ModuleOfWords(["──", "knotes"], true);
  }
}
