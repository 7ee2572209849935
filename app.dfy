/**
 * The value-level bookkeeping of backend/app.py: the `name=path` list given
 * in the multi-configuration environment variable, the aliases derived from
 * `config-*.yaml` file names, and the list of open websocket connections the
 * dashboard broadcasts to. Resolving a path against the file system is a
 * parameter (`None` when the file does not exist); the directory listing is
 * an input; the sockets, the locks and the JSON messages are left out.
 */
module App {
  import opened Wrappers
  import opened Text

  /** A resolved configuration path. */
  type Path = string

  /** One dashboard configuration: its name and its resolved file. */
  datatype Entry = Entry(name: string, path: Path)

  /**
   * Why a configuration map is refused. The Python code raises ValueError
   * in every case, with a message naming the case.
   */
  datatype ConfigMapError =
    | MissingEquals(item: string)
    | EmptyName
    | InvalidName(name: string)
    | DuplicateName(name: string)
    | MissingFile(name: string, pathText: string)
    | NoEntries
    | DuplicateSlug(slug: string)

  /** The names of the entries, in order. */
  function Names(es: seq<Entry>): (r: seq<string>)
    ensures |r| == |es| && forall i :: 0 <= i < |es| ==> r[i] == es[i].name
  {
    if es == [] then [] else Names(es[..|es| - 1]) + [es[|es| - 1].name]
  }

  /** No name occurs twice, as in a dict. */
  predicate DistinctNames(es: seq<Entry>) {
    forall i, j :: 0 <= i < j < |es| ==> es[i].name != es[j].name
  }

  /** A name that could escape the configuration directory: it holds "/" or starts with ".". */
  predicate ForbiddenName(name: string) {
    '/' in name || StartsWith(name, ".")
  }

  // ---------------------------------------------------------------------------
  // _parse_config_map
  // ---------------------------------------------------------------------------

  /** The stripped name before the first "=" of an item. */
  function ItemName(item: string): string
    requires '=' in item
  {
    Strip(SplitOnce(item, '=').0)
  }

  /** The stripped path after the first "=" of an item. */
  function ItemPath(item: string): string
    requires '=' in item
  {
    Strip(SplitOnce(item, '=').1)
  }

  /**
   * One chunk of the list added to the entries so far: skipped when blank,
   * otherwise split at its first "=" into a name, which must be non-empty,
   * allowed and new, and a path, which must resolve.
   */
  function AddItem(es: seq<Entry>, chunk: string, resolve: string -> Option<Path>): Result<seq<Entry>, ConfigMapError> {
    var item := Strip(chunk);
    if item == [] then Ok(es)
    else if '=' !in item then Err(MissingEquals(item))
    else
      var name := ItemName(item);
      if name == [] then Err(EmptyName)
      else if ForbiddenName(name) then Err(InvalidName(name))
      else if name in Names(es) then Err(DuplicateName(name))
      else match resolve(ItemPath(item))
        case None => Err(MissingFile(name, SplitOnce(item, '=').1))
        case Some(p) => Ok(es + [Entry(name, p)])
  }

  /** The chunks added in order; the first refused chunk ends the parse. */
  function ParseChunks(chunks: seq<string>, resolve: string -> Option<Path>): Result<seq<Entry>, ConfigMapError>
    decreases |chunks|
  {
    if chunks == [] then Ok([])
    else
      match ParseChunks(chunks[..|chunks| - 1], resolve)
      case Err(e) => Err(e)
      case Ok(es) => AddItem(es, chunks[|chunks| - 1], resolve)
  }

  /** `_parse_config_map(raw)`: the comma-separated items, refused when none is given. */
  function ConfigMapOf(raw: string, resolve: string -> Option<Path>): Result<seq<Entry>, ConfigMapError> {
    match ParseChunks(Split(raw, ','), resolve)
    case Err(e) => Err(e)
    case Ok(es) => if es == [] then Err(NoEntries) else Ok(es)
  }

  /** `_parse_config_map`, chunk by chunk into an ordered dict. */
  method ParseConfigMap(raw: string, resolve: string -> Option<Path>) returns (r: Result<seq<Entry>, ConfigMapError>)
    ensures r == ConfigMapOf(raw, resolve)
  {
    var chunks := Split(raw, ',');
    var mapping: seq<Entry> := [];
    for i := 0 to |chunks|
      invariant ParseChunks(chunks[..i], resolve) == Ok(mapping)
    {
      assert chunks[..i + 1][..i] == chunks[..i];
      var next := AddItem(mapping, chunks[i], resolve);
      if next.Err? {
        ParseChunksStops(chunks, i + 1, resolve);
        return Err(next.error);
      }
      mapping := next.value;
    }
    assert chunks[..|chunks|] == chunks;
    if mapping == [] {
      return Err(NoEntries);
    }
    return Ok(mapping);
  }

  /** Once a chunk is refused, the later chunks do not matter. */
  lemma {:induction false} ParseChunksStops(chunks: seq<string>, n: nat, resolve: string -> Option<Path>)
    requires n <= |chunks| && ParseChunks(chunks[..n], resolve).Err?
    ensures ParseChunks(chunks, resolve) == ParseChunks(chunks[..n], resolve)
    decreases |chunks| - n
  {
    if n < |chunks| {
      var longer := chunks[..n + 1];
      assert longer[..n] == chunks[..n];
      ParseChunksStops(chunks, n + 1, resolve);
    } else {
      assert chunks[..n] == chunks;
    }
  }

  /** The non-blank chunks, stripped. */
  function Items(chunks: seq<string>): seq<string>
    decreases |chunks|
  {
    if chunks == [] then []
    else
      var item := Strip(chunks[|chunks| - 1]);
      Items(chunks[..|chunks| - 1]) + (if item == [] then [] else [item])
  }

  /** An item the parser accepts on its own: it has "=", a non-empty allowed name and a path that resolves. */
  predicate GoodItem(item: string, resolve: string -> Option<Path>) {
    && '=' in item
    && ItemName(item) != []
    && !ForbiddenName(ItemName(item))
    && resolve(ItemPath(item)).Some?
  }

  /** Items that are each accepted and whose names are pairwise different. */
  predicate GoodItems(items: seq<string>, resolve: string -> Option<Path>) {
    && (forall i :: 0 <= i < |items| ==> GoodItem(items[i], resolve))
    && (forall i, j :: 0 <= i < j < |items| ==> ItemName(items[i]) != ItemName(items[j]))
  }

  /** Appending an item keeps the items good exactly when it is good and its name is new. */
  lemma GoodItemsSnoc(items: seq<string>, item: string, resolve: string -> Option<Path>)
    ensures GoodItems(items + [item], resolve) <==>
      && GoodItems(items, resolve)
      && GoodItem(item, resolve)
      && forall i :: 0 <= i < |items| ==> ItemName(items[i]) != ItemName(item)
  {
    var all := items + [item];
    if GoodItems(all, resolve) {
      assert all[|items|] == item;
      forall i | 0 <= i < |items| ensures GoodItem(items[i], resolve) {
        assert all[i] == items[i];
      }
      forall i, j | 0 <= i < j < |items| ensures ItemName(items[i]) != ItemName(items[j]) {
        assert all[i] == items[i] && all[j] == items[j];
      }
      forall i | 0 <= i < |items| ensures ItemName(items[i]) != ItemName(item) {
        assert all[i] == items[i] && all[|items|] == item;
      }
    }
  }

  /** The entries follow the items one by one: their names and resolved paths. */
  predicate EntriesOfItems(es: seq<Entry>, items: seq<string>, resolve: string -> Option<Path>) {
    && |es| == |items|
    && forall i :: 0 <= i < |items| ==>
         '=' in items[i] && es[i].name == ItemName(items[i]) && resolve(ItemPath(items[i])) == Some(es[i].path)
  }

  lemma EntriesOfItemsSnoc(es: seq<Entry>, items: seq<string>, item: string, resolve: string -> Option<Path>)
    requires EntriesOfItems(es, items, resolve) && GoodItem(item, resolve)
    ensures EntriesOfItems(es + [Entry(ItemName(item), resolve(ItemPath(item)).value)], items + [item], resolve)
  {
    var es', items' := es + [Entry(ItemName(item), resolve(ItemPath(item)).value)], items + [item];
    forall i | 0 <= i < |items'|
      ensures '=' in items'[i] && es'[i].name == ItemName(items'[i]) && resolve(ItemPath(items'[i])) == Some(es'[i].path)
    {
      if i < |items| {
        assert es'[i] == es[i] && items'[i] == items[i];
      }
    }
  }

  /** For entries that follow the items, a name is taken exactly when some item has it. */
  lemma NamesOfItems(es: seq<Entry>, items: seq<string>, name: string, resolve: string -> Option<Path>)
    requires EntriesOfItems(es, items, resolve)
    ensures name in Names(es) <==> exists i :: 0 <= i < |items| && ItemName(items[i]) == name
  {
    var ns := Names(es);
    if name in ns {
      var i :| 0 <= i < |ns| && ns[i] == name;
      assert ItemName(items[i]) == name;
    }
    if exists i :: 0 <= i < |items| && ItemName(items[i]) == name {
      var i :| 0 <= i < |items| && ItemName(items[i]) == name;
      assert ns[i] == name;
    }
  }

  /**
   * The list parses exactly when every non-blank chunk is a good item and no
   * name repeats; the entries are then those items, in the order given.
   */
  lemma {:induction false} ParseChunksSpec(chunks: seq<string>, resolve: string -> Option<Path>)
    ensures ParseChunks(chunks, resolve).Ok? <==> GoodItems(Items(chunks), resolve)
    ensures ParseChunks(chunks, resolve).Ok? ==> EntriesOfItems(ParseChunks(chunks, resolve).value, Items(chunks), resolve)
    decreases |chunks|
  {
    if chunks != [] {
      ParseChunksSpec(chunks[..|chunks| - 1], resolve);
      ParseChunksStep(chunks, resolve);
    }
  }

  /** One more chunk: the characterisation carries over from the chunks before it. */
  lemma ParseChunksStep(chunks: seq<string>, resolve: string -> Option<Path>)
    requires chunks != []
    requires var init := chunks[..|chunks| - 1];
      && (ParseChunks(init, resolve).Ok? <==> GoodItems(Items(init), resolve))
      && (ParseChunks(init, resolve).Ok? ==> EntriesOfItems(ParseChunks(init, resolve).value, Items(init), resolve))
    ensures ParseChunks(chunks, resolve).Ok? <==> GoodItems(Items(chunks), resolve)
    ensures ParseChunks(chunks, resolve).Ok? ==> EntriesOfItems(ParseChunks(chunks, resolve).value, Items(chunks), resolve)
  {
    var init, last := chunks[..|chunks| - 1], chunks[|chunks| - 1];
    var item := Strip(last);
    var before := Items(init);
    var prior := ParseChunks(init, resolve);
    if item == [] {
      assert Items(chunks) == before;
    } else {
      assert Items(chunks) == before + [item];
      GoodItemsSnoc(before, item, resolve);
      if prior.Ok? {
        ParseItemStep(prior.value, before, last, resolve);
      }
    }
  }

  /** A non-blank chunk after entries that follow good items. */
  lemma ParseItemStep(es: seq<Entry>, before: seq<string>, last: string, resolve: string -> Option<Path>)
    requires Strip(last) != [] && GoodItems(before, resolve) && EntriesOfItems(es, before, resolve)
    ensures var item := Strip(last);
      AddItem(es, last, resolve).Ok? <==>
        GoodItem(item, resolve) && forall i :: 0 <= i < |before| ==> ItemName(before[i]) != ItemName(item)
    ensures AddItem(es, last, resolve).Ok? ==> EntriesOfItems(AddItem(es, last, resolve).value, before + [Strip(last)], resolve)
  {
    var item := Strip(last);
    if GoodItem(item, resolve) {
      NamesOfItems(es, before, ItemName(item), resolve);
      if AddItem(es, last, resolve).Ok? {
        EntriesOfItemsSnoc(es, before, item, resolve);
      }
    }
  }

  /** A successful parse has at least one entry, and its names are non-empty, allowed and distinct. */
  lemma ConfigMapValid(raw: string, resolve: string -> Option<Path>)
    requires ConfigMapOf(raw, resolve).Ok?
    ensures var es := ConfigMapOf(raw, resolve).value;
      && es != []
      && DistinctNames(es)
      && (forall i :: 0 <= i < |es| ==> es[i].name != [] && !ForbiddenName(es[i].name))
  {
    var chunks := Split(raw, ',');
    ParseChunksSpec(chunks, resolve);
  }

  /**
   * `_parse_config_map` accepts the list exactly when some chunk is not blank,
   * every non-blank chunk is a good item and the names are distinct; the
   * mapping then keeps the items' order.
   */
  lemma ConfigMapSpec(raw: string, resolve: string -> Option<Path>)
    ensures var items := Items(Split(raw, ','));
      ConfigMapOf(raw, resolve).Ok? <==> items != [] && GoodItems(items, resolve)
    ensures var items := Items(Split(raw, ','));
      ConfigMapOf(raw, resolve).Ok? ==> EntriesOfItems(ConfigMapOf(raw, resolve).value, items, resolve)
  {
    ParseChunksSpec(Split(raw, ','), resolve);
  }

  /** A list with nothing but blank chunks is refused as empty. */
  lemma ConfigMapBlank(raw: string, resolve: string -> Option<Path>)
    requires Items(Split(raw, ',')) == []
    ensures ConfigMapOf(raw, resolve) == Err(NoEntries)
  {
    ParseChunksSpec(Split(raw, ','), resolve);
  }

  // ---------------------------------------------------------------------------
  // _discover_config_map
  // ---------------------------------------------------------------------------

  /** A configuration file found by the glob: its stem and its resolved path. */
  datatype ConfigFile = ConfigFile(stem: string, path: Path)

  /** `s[len(p):]` when `s` starts with `p`, otherwise `s`. */
  function DropPrefix(s: string, p: string): (r: string)
    ensures StartsWith(s, p) ==> s == p + r
    ensures !StartsWith(s, p) ==> r == s
  {
    if StartsWith(s, p) then s[|p|..] else s
  }

  /** The alias of a file: its stem without "config-", stripped, lower-cased, "_" made "-", and "-" stripped from both ends. */
  function Slug(stem: string): string {
    StripChars(ReplaceChar(Lower(Strip(DropPrefix(stem, "config-"))), '_', '-'), {'-'})
  }

  /** An alias has no "_", no upper-case letter, and neither starts nor ends with "-". */
  lemma SlugShape(stem: string)
    ensures var slug := Slug(stem);
      && '_' !in slug
      && (forall k :: 0 <= k < |slug| ==> !('A' <= slug[k] <= 'Z'))
      && (slug == [] || (slug[0] != '-' && slug[|slug| - 1] != '-'))
  {
    var replaced := ReplaceChar(Lower(Strip(DropPrefix(stem, "config-"))), '_', '-');
    var slug := Slug(stem);
    StripCharsInside(replaced, {'-'});
    StripCharsEnds(replaced, {'-'});
    forall k | 0 <= k < |slug| ensures slug[k] != '_' && !('A' <= slug[k] <= 'Z') {
      assert slug[k] in slug;
    }
  }

  /** Text already in alias form: no "_", no upper-case letter, no whitespace at its ends and no "-" at either end. */
  predicate SlugForm(t: string) {
    && '_' !in t
    && (forall k :: 0 <= k < |t| ==> !('A' <= t[k] <= 'Z'))
    && (t == [] || (t[0] !in Whitespace + {'-'} && t[|t| - 1] !in Whitespace + {'-'}))
  }

  /** Naming a file `config-<alias>.yaml` gives back the alias. */
  lemma SlugRoundTrip(t: string)
    requires SlugForm(t)
    ensures Slug("config-" + t) == t
  {
    DropConfigPrefix(t);
    StripCharsKeeps(t, Whitespace);
    LowerKeeps(t);
    ReplaceKeeps(t);
    StripCharsKeeps(t, {'-'});
  }

  lemma DropConfigPrefix(t: string)
    ensures DropPrefix("config-" + t, "config-") == t
  {
    var stem := "config-" + t;
    assert stem[..7] == "config-";
  }

  /** Text without upper-case letters is its own lower case. */
  lemma LowerKeeps(t: string)
    requires forall k :: 0 <= k < |t| ==> !('A' <= t[k] <= 'Z')
    ensures Lower(t) == t
  {
    var r := Lower(t);
    assert forall k :: 0 <= k < |t| ==> r[k] == t[k];
  }

  /** Text without "_" has nothing to replace. */
  lemma ReplaceKeeps(t: string)
    requires '_' !in t
    ensures ReplaceChar(t, '_', '-') == t
  {
    var r := ReplaceChar(t, '_', '-');
    forall k | 0 <= k < |t| ensures r[k] == t[k] {
      assert t[k] in t;
    }
  }

  /** An alias the discovery keeps: non-empty, without "/" and not starting with ".". */
  predicate Accepted(slug: string) {
    slug != [] && !ForbiddenName(slug)
  }

  /** One file added to the aliases found so far: skipped when its alias is not kept, refused when it repeats. */
  function AddFile(es: seq<Entry>, f: ConfigFile): Result<seq<Entry>, ConfigMapError> {
    var slug := Slug(f.stem);
    if !Accepted(slug) then Ok(es)
    else if slug in Names(es) then Err(DuplicateSlug(slug))
    else Ok(es + [Entry(slug, f.path)])
  }

  /** The files added in order; the first repeated alias ends the discovery. */
  function AddFiles(files: seq<ConfigFile>): Result<seq<Entry>, ConfigMapError>
    decreases |files|
  {
    if files == [] then Ok([])
    else
      match AddFiles(files[..|files| - 1])
      case Err(e) => Err(e)
      case Ok(es) => AddFile(es, files[|files| - 1])
  }

  /** "primary" goes first when the main configuration exists and neither "primary" nor "default" was found. */
  function WithPrimary(es: seq<Entry>, main: Option<Path>): seq<Entry> {
    if es != [] && main.Some? && "primary" !in Names(es) && "default" !in Names(es)
    then [Entry("primary", main.value)] + es
    else es
  }

  /**
   * `_discover_config_map()`, given the configuration files in sorted order
   * and the resolved main configuration when it exists: the map, empty when
   * it has fewer than two entries.
   */
  function DiscoveredMap(files: seq<ConfigFile>, main: Option<Path>): Result<seq<Entry>, ConfigMapError> {
    match AddFiles(files)
    case Err(e) => Err(e)
    case Ok(es) =>
      var merged := WithPrimary(es, main);
      Ok(if |merged| >= 2 then merged else [])
  }

  /** `_discover_config_map`, file by file into an ordered dict. */
  method DiscoverConfigMap(files: seq<ConfigFile>, main: Option<Path>) returns (r: Result<seq<Entry>, ConfigMapError>)
    ensures r == DiscoveredMap(files, main)
  {
    var entries: seq<Entry> := [];
    for i := 0 to |files|
      invariant AddFiles(files[..i]) == Ok(entries)
    {
      assert files[..i + 1][..i] == files[..i];
      var slug := Slug(files[i].stem);
      if Accepted(slug) {
        if slug in Names(entries) {
          AddFilesStops(files, i + 1);
          return Err(DuplicateSlug(slug));
        }
        entries := entries + [Entry(slug, files[i].path)];
      }
    }
    assert files[..|files|] == files;
    if entries != [] && main.Some? && "primary" !in Names(entries) && "default" !in Names(entries) {
      entries := [Entry("primary", main.value)] + entries;
    }
    if |entries| >= 2 {
      return Ok(entries);
    }
    return Ok([]);
  }

  /** Once an alias repeats, the later files do not matter. */
  lemma {:induction false} AddFilesStops(files: seq<ConfigFile>, n: nat)
    requires n <= |files| && AddFiles(files[..n]).Err?
    ensures AddFiles(files) == AddFiles(files[..n])
    decreases |files| - n
  {
    if n < |files| {
      var longer := files[..n + 1];
      assert longer[..n] == files[..n];
      AddFilesStops(files, n + 1);
    } else {
      assert files[..n] == files;
    }
  }

  /** The files whose alias is kept. */
  function AcceptedFiles(files: seq<ConfigFile>): seq<ConfigFile>
    decreases |files|
  {
    if files == [] then []
    else
      var f := files[|files| - 1];
      AcceptedFiles(files[..|files| - 1]) + (if Accepted(Slug(f.stem)) then [f] else [])
  }

  /** No two kept files share an alias. */
  predicate DistinctSlugs(fs: seq<ConfigFile>) {
    forall i, j :: 0 <= i < j < |fs| ==> Slug(fs[i].stem) != Slug(fs[j].stem)
  }

  /** The entries are the kept files' aliases and paths, in order. */
  predicate EntriesOfFiles(es: seq<Entry>, fs: seq<ConfigFile>) {
    |es| == |fs| && forall i :: 0 <= i < |fs| ==> es[i] == Entry(Slug(fs[i].stem), fs[i].path)
  }

  lemma EntriesOfFilesSnoc(es: seq<Entry>, fs: seq<ConfigFile>, f: ConfigFile)
    requires EntriesOfFiles(es, fs)
    ensures EntriesOfFiles(es + [Entry(Slug(f.stem), f.path)], fs + [f])
  {
    var es', fs' := es + [Entry(Slug(f.stem), f.path)], fs + [f];
    forall i | 0 <= i < |fs'| ensures es'[i] == Entry(Slug(fs'[i].stem), fs'[i].path) {
      if i < |fs| {
        assert es'[i] == es[i] && fs'[i] == fs[i];
      }
    }
  }

  lemma DistinctSlugsSnoc(fs: seq<ConfigFile>, f: ConfigFile)
    ensures DistinctSlugs(fs + [f]) <==> DistinctSlugs(fs) && forall i :: 0 <= i < |fs| ==> Slug(fs[i].stem) != Slug(f.stem)
  {
    var all := fs + [f];
    if DistinctSlugs(all) {
      forall i, j | 0 <= i < j < |fs| ensures Slug(fs[i].stem) != Slug(fs[j].stem) {
        assert all[i] == fs[i] && all[j] == fs[j];
      }
      forall i | 0 <= i < |fs| ensures Slug(fs[i].stem) != Slug(f.stem) {
        assert all[i] == fs[i] && all[|fs|] == f;
      }
    }
  }

  lemma NamesOfFiles(es: seq<Entry>, fs: seq<ConfigFile>, slug: string)
    requires EntriesOfFiles(es, fs)
    ensures slug in Names(es) <==> exists i :: 0 <= i < |fs| && Slug(fs[i].stem) == slug
  {
    var ns := Names(es);
    if slug in ns {
      var i :| 0 <= i < |ns| && ns[i] == slug;
      assert Slug(fs[i].stem) == slug;
    }
    if exists i :: 0 <= i < |fs| && Slug(fs[i].stem) == slug {
      var i :| 0 <= i < |fs| && Slug(fs[i].stem) == slug;
      assert ns[i] == slug;
    }
  }

  /**
   * Discovery fails exactly when two kept files share an alias; otherwise the
   * aliases are those of the kept files, in the order of the file list.
   */
  lemma {:induction false} AddFilesSpec(files: seq<ConfigFile>)
    ensures AddFiles(files).Ok? <==> DistinctSlugs(AcceptedFiles(files))
    ensures AddFiles(files).Ok? ==> EntriesOfFiles(AddFiles(files).value, AcceptedFiles(files))
    decreases |files|
  {
    if files != [] {
      var init, f := files[..|files| - 1], files[|files| - 1];
      AddFilesSpec(init);
      var before := AcceptedFiles(init);
      var prior := AddFiles(init);
      if !Accepted(Slug(f.stem)) {
        assert AcceptedFiles(files) == before;
      } else {
        assert AcceptedFiles(files) == before + [f];
        DistinctSlugsSnoc(before, f);
        if prior.Ok? {
          assert AddFiles(files) == AddFile(prior.value, f);
          NamesOfFiles(prior.value, before, Slug(f.stem));
          if AddFiles(files).Ok? {
            EntriesOfFilesSnoc(prior.value, before, f);
          }
        }
      }
    }
  }

  /** The aliases found have distinct, kept names. */
  lemma FoundValid(files: seq<ConfigFile>)
    requires AddFiles(files).Ok?
    ensures var es := AddFiles(files).value;
      DistinctNames(es) && forall i :: 0 <= i < |es| ==> Accepted(es[i].name)
  {
    AddFilesSpec(files);
    var found := AddFiles(files).value;
    var fs := AcceptedFiles(files);
    forall i | 0 <= i < |found| ensures Accepted(found[i].name) {
      assert fs[i] in fs;
      AcceptedFilesKept(files, fs[i]);
    }
  }

  /** Putting "primary" in front of aliases without it keeps the names distinct and kept. */
  lemma WithPrimaryValid(es: seq<Entry>, main: Option<Path>)
    requires DistinctNames(es) && forall i :: 0 <= i < |es| ==> Accepted(es[i].name)
    ensures var merged := WithPrimary(es, main);
      DistinctNames(merged) && forall i :: 0 <= i < |merged| ==> Accepted(merged[i].name)
  {
    var merged := WithPrimary(es, main);
    if merged != es {
      assert "primary" !in Names(es);
      forall i, j | 0 <= i < j < |merged| ensures merged[i].name != merged[j].name {
        if i == 0 {
          assert merged[j] == es[j - 1] && Names(es)[j - 1] == es[j - 1].name;
        } else {
          assert merged[i] == es[i - 1] && merged[j] == es[j - 1];
        }
      }
      forall i | 0 <= i < |merged| ensures Accepted(merged[i].name) {
        if i == 0 {
          assert merged[0].name == "primary";
          assert !StartsWith("primary", ".") && '/' !in "primary";
        } else {
          assert merged[i] == es[i - 1];
        }
      }
    }
  }

  /** A discovered map is empty or has at least two entries, with distinct, kept names. */
  lemma DiscoveredMapValid(files: seq<ConfigFile>, main: Option<Path>)
    requires DiscoveredMap(files, main).Ok?
    ensures var es := DiscoveredMap(files, main).value;
      && (es == [] || |es| >= 2)
      && DistinctNames(es)
      && (forall i :: 0 <= i < |es| ==> Accepted(es[i].name))
  {
    FoundValid(files);
    WithPrimaryValid(AddFiles(files).value, main);
  }

  /** Every file in the kept list has a kept alias. */
  lemma {:induction false} AcceptedFilesKept(files: seq<ConfigFile>, f: ConfigFile)
    requires f in AcceptedFiles(files)
    ensures Accepted(Slug(f.stem))
    decreases |files|
  {
    var init, last := files[..|files| - 1], files[|files| - 1];
    if f in AcceptedFiles(init) {
      AcceptedFilesKept(init, f);
    }
  }

  /**
   * When the main configuration exists and neither "primary" nor "default" was
   * found among at least one alias, "primary" comes first, followed by the
   * aliases in order.
   */
  lemma DiscoveredPrimaryFirst(files: seq<ConfigFile>, main: Path)
    requires AddFiles(files).Ok?
    requires var es := AddFiles(files).value; es != [] && "primary" !in Names(es) && "default" !in Names(es)
    ensures DiscoveredMap(files, Some(main)) == Ok([Entry("primary", main)] + AddFiles(files).value)
  {
  }

  /** Fewer than two entries after the merge give the empty map: the single-configuration mode. */
  lemma DiscoveredTooFew(files: seq<ConfigFile>, main: Option<Path>)
    requires AddFiles(files).Ok? && |WithPrimary(AddFiles(files).value, main)| < 2
    ensures DiscoveredMap(files, main) == Ok([])
  {
  }

  // ---------------------------------------------------------------------------
  // WebsocketHub
  // ---------------------------------------------------------------------------

  /** An open websocket, told apart by identity. */
  type Connection = int

  /** `s.remove(x)` when `x` is present: the first occurrence is taken out. */
  function RemoveFirst(s: seq<Connection>, x: Connection): (r: seq<Connection>)
    ensures x !in s ==> r == s
  {
    if s == [] then []
    else if s[0] == x then s[1..]
    else [s[0]] + RemoveFirst(s[1..], x)
  }

  /** The index of the first occurrence of `x`. */
  function FirstIndex(s: seq<Connection>, x: Connection): (i: nat)
    requires x in s
    ensures i < |s| && s[i] == x && x !in s[..i]
  {
    if s[0] == x then 0 else 1 + FirstIndex(s[1..], x)
  }

  /** Removing a present connection cuts out its first occurrence and keeps every other in order. */
  lemma RemoveFirstCount(s: seq<Connection>, x: Connection)
    requires x in s
    ensures multiset(RemoveFirst(s, x)) == multiset(s) - multiset{x}
  {
    var i := FirstIndex(s, x);
    RemoveFirstSpec(s, x);
    var a, b := s[..i], s[i + 1..];
    assert s == a + [x] + b;
    assert multiset(s) == multiset(a) + multiset{x} + multiset(b);
    assert multiset(a + b) == multiset(a) + multiset(b);
  }

  lemma {:induction false} RemoveFirstSpec(s: seq<Connection>, x: Connection)
    requires x in s
    ensures var i := FirstIndex(s, x);
      RemoveFirst(s, x) == s[..i] + s[i + 1..]
  {
    if s[0] != x {
      RemoveFirstSpec(s[1..], x);
      var i := FirstIndex(s[1..], x);
      assert s[1..][..i] + s[1..][i + 1..] == s[1..i + 1] + s[i + 2..];
      assert [s[0]] + s[1..i + 1] == s[..i + 1];
      assert s == [s[0]] + s[1..];
    } else {
      assert s == [s[0]] + s[1..];
    }
  }

  /** Adding a connection and removing it again gives the list back. */
  lemma {:induction false} AddRemove(s: seq<Connection>, x: Connection)
    requires x !in s
    ensures RemoveFirst(s + [x], x) == s
  {
    if s != [] {
      assert (s + [x])[1..] == s[1..] + [x];
      AddRemove(s[1..], x);
      assert s == [s[0]] + s[1..];
    }
  }

  /** No connection is listed twice. */
  predicate Distinct(s: seq<Connection>) {
    forall i, j :: 0 <= i < j < |s| ==> s[i] != s[j]
  }

  /** The connections whose send failed, in list order. */
  function Stale(targets: seq<Connection>, delivered: seq<bool>): seq<Connection>
    requires |delivered| == |targets|
    decreases |targets|
  {
    if targets == [] then []
    else
      var n := |targets| - 1;
      Stale(targets[..n], delivered[..n]) + (if delivered[n] then [] else [targets[n]])
  }

  /** The connections whose send succeeded, in list order. */
  function Delivered(targets: seq<Connection>, delivered: seq<bool>): seq<Connection>
    requires |delivered| == |targets|
    decreases |targets|
  {
    if targets == [] then []
    else
      var n := |targets| - 1;
      Delivered(targets[..n], delivered[..n]) + (if delivered[n] then [targets[n]] else [])
  }

  /** The stale connections taken out one by one, each only while it is still listed. */
  function RemoveEach(s: seq<Connection>, stale: seq<Connection>): seq<Connection>
    decreases |stale|
  {
    if stale == [] then s
    else
      var t := RemoveEach(s, stale[..|stale| - 1]);
      var conn := stale[|stale| - 1];
      if conn in t then RemoveFirst(t, conn) else t
  }

  /** The connections not in `xs`, in order. */
  function Without(s: seq<Connection>, xs: set<Connection>): seq<Connection>
    decreases |s|
  {
    if s == [] then []
    else Without(s[..|s| - 1], xs) + (if s[|s| - 1] in xs then [] else [s[|s| - 1]])
  }

  /** `Without` keeps a list without repeats free of repeats. */
  lemma {:induction false} WithoutDistinct(s: seq<Connection>, xs: set<Connection>)
    requires Distinct(s)
    ensures Distinct(Without(s, xs))
    decreases |s|
  {
    if s != [] {
      var init := s[..|s| - 1];
      assert Distinct(init) by {
        forall i, j | 0 <= i < j < |init| ensures init[i] != init[j] {
          assert init[i] == s[i] && init[j] == s[j];
        }
      }
      WithoutDistinct(init, xs);
      var last := s[|s| - 1];
      assert last !in init by {
        forall i | 0 <= i < |init| ensures init[i] != last {
          assert init[i] == s[i];
        }
      }
      var t := Without(init, xs);
      if last !in xs {
        WithoutIn(init, xs);
        var r := t + [last];
        forall i, j | 0 <= i < j < |r| ensures r[i] != r[j] {
          if j == |t| {
            assert r[i] == t[i] && t[i] in t;
          } else {
            assert r[i] == t[i] && r[j] == t[j];
          }
        }
      }
    }
  }

  /** What `Without` keeps is listed and not removed. */
  lemma {:induction false} WithoutIn(s: seq<Connection>, xs: set<Connection>)
    ensures forall c :: c in Without(s, xs) ==> c in s && c !in xs
    decreases |s|
  {
    if s != [] {
      var init, last := s[..|s| - 1], s[|s| - 1];
      WithoutIn(init, xs);
      assert s == init + [last];
    }
  }

  /** In a list without repeats, removing the first occurrence removes every occurrence. */
  lemma {:induction false} RemoveFirstDistinct(s: seq<Connection>, x: Connection)
    requires Distinct(s)
    ensures RemoveFirst(s, x) == Without(s, {x})
    decreases |s|
  {
    if s != [] {
      var tail := s[1..];
      assert Distinct(tail) by {
        forall i, j | 0 <= i < j < |tail| ensures tail[i] != tail[j] {
          assert tail[i] == s[i + 1] && tail[j] == s[j + 1];
        }
      }
      RemoveFirstDistinct(tail, x);
      WithoutCons(s, {x});
      if s[0] == x {
        assert x !in tail by {
          forall i | 0 <= i < |tail| ensures tail[i] != x {
            assert tail[i] == s[i + 1];
          }
        }
        WithoutNone(tail, {x});
      }
    }
  }

  /** `Without` read from the front. */
  lemma {:induction false} WithoutCons(s: seq<Connection>, xs: set<Connection>)
    requires s != []
    ensures Without(s, xs) == (if s[0] in xs then [] else [s[0]]) + Without(s[1..], xs)
    decreases |s|
  {
    if |s| > 1 {
      var init := s[..|s| - 1];
      WithoutCons(init, xs);
      assert init[1..] == s[1..][..|s[1..]| - 1];
      assert init[0] == s[0];
    } else {
      assert s[1..] == [];
      assert s[..0] == [];
    }
  }

  /** Removing values that are not listed changes nothing. */
  lemma {:induction false} WithoutNone(s: seq<Connection>, xs: set<Connection>)
    requires forall c :: c in s ==> c !in xs
    ensures Without(s, xs) == s
    decreases |s|
  {
    if s != [] {
      var init, last := s[..|s| - 1], s[|s| - 1];
      forall c | c in init ensures c !in xs {
        var k :| 0 <= k < |init| && init[k] == c;
        assert s[k] == c;
      }
      assert s[|s| - 1] in s;
      WithoutNone(init, xs);
      assert s == init + [last];
    }
  }

  /** Removing two sets one after the other removes their union. */
  lemma {:induction false} WithoutWithout(s: seq<Connection>, xs: set<Connection>, ys: set<Connection>)
    ensures Without(Without(s, xs), ys) == Without(s, xs + ys)
    decreases |s|
  {
    if s != [] {
      var init := s[..|s| - 1];
      WithoutWithout(init, xs, ys);
      var t := Without(init, xs);
      var last := s[|s| - 1];
      assert Without(s, xs + ys) == Without(init, xs + ys) + (if last in xs + ys then [] else [last]);
      if last in xs {
        assert Without(s, xs) == t;
      } else {
        var u := t + [last];
        assert Without(s, xs) == u;
        assert u[..|u| - 1] == t && u[|u| - 1] == last;
        assert Without(u, ys) == Without(t, ys) + (if last in ys then [] else [last]);
      }
    }
  }

  /** The set of the elements of a list. */
  function Elements(s: seq<Connection>): set<Connection> {
    set c | c in s
  }

  /** In a list without repeats, taking the stale connections out one by one removes exactly them. */
  lemma {:induction false} RemoveEachDistinct(s: seq<Connection>, stale: seq<Connection>)
    requires Distinct(s)
    ensures RemoveEach(s, stale) == Without(s, Elements(stale))
    decreases |stale|
  {
    if stale == [] {
      assert Elements(stale) == {};
      WithoutNone(s, {});
    } else {
      var init, conn := stale[..|stale| - 1], stale[|stale| - 1];
      RemoveEachDistinct(s, init);
      var t := Without(s, Elements(init));
      WithoutDistinct(s, Elements(init));
      assert Elements(stale) == Elements(init) + {conn} by {
        assert stale == init + [conn];
      }
      WithoutWithout(s, Elements(init), {conn});
      if conn in t {
        RemoveFirstDistinct(t, conn);
      } else {
        WithoutNone(t, {conn});
      }
    }
  }

  /** Removing the connections named by a set leaves those whose send succeeded, when the set holds exactly the failed ones. */
  lemma {:induction false} WithoutFailed(targets: seq<Connection>, delivered: seq<bool>, xs: set<Connection>)
    requires |delivered| == |targets|
    requires forall i :: 0 <= i < |targets| ==> (targets[i] in xs <==> !delivered[i])
    ensures Without(targets, xs) == Delivered(targets, delivered)
    decreases |targets|
  {
    if targets != [] {
      var n := |targets| - 1;
      forall i | 0 <= i < n ensures targets[..n][i] in xs <==> !delivered[..n][i] {
        assert targets[..n][i] == targets[i] && delivered[..n][i] == delivered[i];
      }
      WithoutFailed(targets[..n], delivered[..n], xs);
    }
  }

  /** Every target whose send failed is stale. */
  lemma {:induction false} StaleComplete(targets: seq<Connection>, delivered: seq<bool>, i: nat)
    requires |delivered| == |targets| && i < |targets| && !delivered[i]
    ensures targets[i] in Stale(targets, delivered)
    decreases |targets|
  {
    var n := |targets| - 1;
    if i < n {
      assert targets[..n][i] == targets[i] && delivered[..n][i] == delivered[i];
      StaleComplete(targets[..n], delivered[..n], i);
    }
  }

  /** A stale connection is a target whose send failed; `i` is its position. */
  lemma {:induction false} StaleSound(targets: seq<Connection>, delivered: seq<bool>, c: Connection) returns (i: nat)
    requires |delivered| == |targets| && c in Stale(targets, delivered)
    ensures i < |targets| && targets[i] == c && !delivered[i]
    decreases |targets|
  {
    var n := |targets| - 1;
    var before := Stale(targets[..n], delivered[..n]);
    if c in before {
      i := StaleSound(targets[..n], delivered[..n], c);
      assert targets[..n][i] == targets[i] && delivered[..n][i] == delivered[i];
    } else {
      i := n;
    }
  }

  /**
   * On a connection list without repeats, a broadcast drops exactly the
   * connections whose send failed and keeps the others in their order.
   */
  lemma BroadcastKeepsDelivered(targets: seq<Connection>, delivered: seq<bool>)
    requires |delivered| == |targets| && Distinct(targets)
    ensures RemoveEach(targets, Stale(targets, delivered)) == Delivered(targets, delivered)
  {
    var stale := Stale(targets, delivered);
    RemoveEachDistinct(targets, stale);
    forall i | 0 <= i < |targets| ensures targets[i] in Elements(stale) <==> !delivered[i] {
      if !delivered[i] {
        StaleComplete(targets, delivered, i);
      }
      if targets[i] in Elements(stale) {
        var j := StaleSound(targets, delivered, targets[i]);
        assert j == i;
      }
    }
    WithoutFailed(targets, delivered, Elements(stale));
  }

  /** The connections the dashboard broadcasts to. */
  class WebsocketHub {
    var connections: seq<Connection>

    constructor ()
      ensures connections == []
    {
      connections := [];
    }

    /** `add`: the accepted connection is listed last. */
    method Add(ws: Connection)
      modifies this
      ensures connections == old(connections) + [ws]
    {
      connections := connections + [ws];
    }

    /** `remove`: the first occurrence is taken out; an unlisted connection changes nothing. */
    method Remove(ws: Connection)
      modifies this
      ensures connections == RemoveFirst(old(connections), ws)
    {
      if ws in connections {
        connections := RemoveFirst(connections, ws);
      }
    }

    /**
     * `broadcast`, given whether the send to each listed connection succeeded:
     * the failed ones are collected in order, then each is removed while it
     * is still listed.
     */
    method Broadcast(delivered: seq<bool>)
      requires |delivered| == |connections|
      modifies this
      ensures connections == RemoveEach(old(connections), Stale(old(connections), delivered))
    {
      var targets := connections;
      var stale: seq<Connection> := [];
      for i := 0 to |targets|
        invariant stale == Stale(targets[..i], delivered[..i])
      {
        assert targets[..i + 1][..i] == targets[..i];
        assert delivered[..i + 1][..i] == delivered[..i];
        if !delivered[i] {
          stale := stale + [targets[i]];
        }
      }
      assert targets[..|targets|] == targets && delivered[..|delivered|] == delivered;
      if stale == [] {
        return;
      }
      for j := 0 to |stale|
        invariant connections == RemoveEach(targets, stale[..j])
      {
        assert stale[..j + 1][..j] == stale[..j];
        var conn := stale[j];
        if conn in connections {
          connections := RemoveFirst(connections, conn);
        }
      }
      assert stale[..|stale|] == stale;
    }
  }
}
