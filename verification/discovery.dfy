/**
 * Page discovery: the recursive walk of the pages directory, the extension
 * test `EXT_REG`, and the derivation of page names and entry paths in the
 * `make` phase.
 */
module Discovery {
  import opened Wrappers
  import opened Seqs
  import opened Text
  import opened Sorting
  import opened JsObject

  /** The recognised page extensions. */
  const EXT: seq<string> := ["js", "ts", "jsx", "tsx"]

  /** `k` dots. */
  function Dots(k: nat): (r: string)
    ensures |r| == k && forall i :: 0 <= i < k ==> r[i] == '.'
  {
    if k == 0 then [] else ['.'] + Dots(k - 1)
  }

  // ---------------------------------------------------------------------
  // EXT_REG = /\.+(js|ts|jsx|tsx)$/, evaluated as the regular expression engine does
  // ---------------------------------------------------------------------

  /**
   * From index `j`, after at least one dot has been matched: either one of
   * the extensions runs to the end of the string, or another dot follows.
   */
  predicate DotsThenExt(s: string, j: nat)
    decreases |s| - j
  {
    j <= |s| && (s[j..] in EXT || (j < |s| && s[j] == '.' && DotsThenExt(s, j + 1)))
  }

  /** `EXT_REG` matches `s` starting at index `i`. */
  predicate ExtMatchAt(s: string, i: nat)
  {
    i < |s| && s[i] == '.' && DotsThenExt(s, i + 1)
  }

  /** The leftmost index at or after `from` where `EXT_REG` matches. */
  function ExtSearch(s: string, from: nat): (r: Option<nat>)
    ensures r.Some? ==> from <= r.value && ExtMatchAt(s, r.value)
    ensures r.Some? ==> forall j :: from <= j < r.value ==> !ExtMatchAt(s, j)
    ensures r.None? ==> forall j :: from <= j ==> !ExtMatchAt(s, j)
    decreases |s| - from
  {
    if from >= |s| then None
    else if ExtMatchAt(s, from) then Some(from)
    else ExtSearch(s, from + 1)
  }

  /** `EXT_REG.test(s)` */
  predicate ExtTest(s: string)
  {
    ExtSearch(s, 0).Some?
  }

  /** `s.replace(EXT_REG, '')`: a match runs to the end of `s`, so everything from its start goes. */
  function StripExt(s: string): string
  {
    match ExtSearch(s, 0)
    case None => s
    case Some(i) => s[..i]
  }

  /** The page extensions as plain suffixes. */
  predicate HasPageExtension(s: string)
  {
    EndsWith(s, ".js") || EndsWith(s, ".ts") || EndsWith(s, ".jsx") || EndsWith(s, ".tsx")
  }

  lemma ExtLengths(e: string)
    requires e in EXT
    ensures 2 <= |e| <= 3
  {
  }

  /** What `DotsThenExt` matched: some dots and then one of the extensions. */
  lemma {:induction false} DotsThenExtSplit(s: string, j: nat) returns (m: nat, e: string)
    requires DotsThenExt(s, j)
    ensures e in EXT && j <= |s| && s[j..] == Dots(m) + e
    decreases |s| - j
  {
    if s[j..] in EXT {
      m, e := 0, s[j..];
    } else {
      var m', e' := DotsThenExtSplit(s, j + 1);
      m, e := m' + 1, e';
      assert s[j..] == [s[j]] + s[j + 1..];
    }
  }

  /** Dots and then an extension, from index `j`, are what `DotsThenExt` matches. */
  lemma {:induction false} DotsThenExtOf(s: string, j: nat, m: nat, e: string)
    requires e in EXT && j <= |s| && s[j..] == Dots(m) + e
    ensures DotsThenExt(s, j)
    decreases m
  {
    if m > 0 {
      assert j < |s| && s[j] == s[j..][0] == '.';
      assert s[j + 1..] == s[j..][1..] == Dots(m - 1) + e;
      DotsThenExtOf(s, j + 1, m - 1, e);
    } else {
      assert s[j..] == e;
    }
  }

  /** A dot followed by one of the extensions at the end of `s` is a page extension. */
  lemma DotExtIsPageExtension(s: string, e: string)
    requires e in EXT && |e| + 1 <= |s| && s[|s| - |e| - 1] == '.' && s[|s| - |e|..] == e
    ensures HasPageExtension(s)
  {
    assert s[|s| - |e| - 1..] == "." + e;
  }

  /** A dot and one of the extensions at the end of `s` are a match of `EXT_REG`. */
  lemma SuffixMatches(s: string, e: string)
    requires e in EXT && EndsWith(s, "." + e)
    ensures ExtMatchAt(s, |s| - |e| - 1)
  {
    var i := |s| - |e| - 1;
    assert s[i..] == "." + e;
    assert s[i + 1..] == s[i..][1..] == e;
    DotsThenExtOf(s, i + 1, 0, e);
  }

  /** A match of `EXT_REG` ends the string with a dot and one of the extensions. */
  lemma MatchIsPageExtension(s: string, i: nat)
    requires ExtMatchAt(s, i)
    ensures HasPageExtension(s)
  {
    var m, e := DotsThenExtSplit(s, i + 1);
    assert s[|s| - |e|..] == e;
    if m == 0 {
      assert |s| - |e| - 1 == i;
    } else {
      assert s[|s| - |e| - 1] == s[i + 1..][m - 1] == '.';
    }
    DotExtIsPageExtension(s, e);
  }

  /**
   * `EXT_REG.test(p)` holds exactly when `p` ends in `.js`, `.ts`, `.jsx` or
   * `.tsx`, case-sensitively.
   */
  lemma ExtTestIsSuffixCheck(s: string)
    ensures ExtTest(s) <==> HasPageExtension(s)
  {
    if EndsWith(s, ".js") {
      SuffixMatches(s, "js");
    } else if EndsWith(s, ".ts") {
      SuffixMatches(s, "ts");
    } else if EndsWith(s, ".jsx") {
      SuffixMatches(s, "jsx");
    } else if EndsWith(s, ".tsx") {
      SuffixMatches(s, "tsx");
    }
    if ExtTest(s) {
      MatchIsPageExtension(s, ExtSearch(s, 0).value);
    }
  }

  /**
   * A page path splits into its name, one or more dots and an extension, and
   * the name does not end in a dot: the whole run of dots before the
   * extension is removed.
   */
  lemma StripExtSplits(s: string) returns (dots: nat, ext: string)
    requires HasPageExtension(s)
    ensures ext in EXT && dots >= 1
    ensures s == StripExt(s) + Dots(dots) + ext
    ensures !EndsWith(StripExt(s), ".")
  {
    ExtTestIsSuffixCheck(s);
    var i := ExtSearch(s, 0).value;
    dots, ext := MatchShape(s, i);
    if i > 0 && s[i - 1] == '.' {
      DotBeforeMatch(s, i);
    }
  }

  /** A match of `EXT_REG` at `i` runs to the end: one or more dots, then one of the extensions. */
  lemma MatchShape(s: string, i: nat) returns (dots: nat, ext: string)
    requires ExtMatchAt(s, i)
    ensures ext in EXT && dots >= 1
    ensures s == s[..i] + Dots(dots) + ext
  {
    var m, e := DotsThenExtSplit(s, i + 1);
    dots, ext := m + 1, e;
    assert s[i..] == [s[i]] + s[i + 1..] == Dots(m + 1) + e;
    assert s == s[..i] + s[i..];
  }

  /** A dot just before a match of `EXT_REG` starts a match too. */
  lemma DotBeforeMatch(s: string, i: nat)
    requires ExtMatchAt(s, i) && 0 < i && s[i - 1] == '.'
    ensures ExtMatchAt(s, i - 1)
  {
    assert DotsThenExt(s, i);
  }

  /**
   * Round trip: a name not ending in a dot, followed by dots and one of the
   * extensions, is a page path whose stripped name is that name.
   */
  lemma StripExtOfPagePath(name: string, dots: nat, ext: string)
    requires ext in EXT && dots >= 1 && !EndsWith(name, ".")
    ensures ExtTest(name + Dots(dots) + ext)
    ensures StripExt(name + Dots(dots) + ext) == name
  {
    var s := name + Dots(dots) + ext;
    var k := |name|;
    PagePathShape(name, dots, ext);
    DotsThenExtOf(s, k + 1, dots - 1, ext);
    forall j | 0 <= j < k ensures !ExtMatchAt(s, j) {
      NoMatchInsideName(name, dots, ext, j);
    }
    LeftmostMatch(s, k);
    assert s[..k] == name;
  }

  /** Where the parts of `name + Dots(dots) + ext` sit. */
  lemma PagePathShape(name: string, dots: nat, ext: string)
    requires dots >= 1
    ensures var s := name + Dots(dots) + ext;
      s[|name|] == '.' && s[|name| + 1..] == Dots(dots - 1) + ext && s[..|name|] == name
  {
    var s := name + Dots(dots) + ext;
    var k := |name|;
    assert s[k..] == Dots(dots) + ext;
    assert Dots(dots)[1..] == Dots(dots - 1);
    assert s[k + 1..] == s[k..][1..];
  }

  /** A match with no match to its left is the one `ExtSearch` finds. */
  lemma LeftmostMatch(s: string, k: nat)
    requires ExtMatchAt(s, k)
    requires forall j :: 0 <= j < k ==> !ExtMatchAt(s, j)
    ensures ExtSearch(s, 0) == Some(k)
  {
  }

  /** `EXT_REG` cannot match starting inside a name that does not end in a dot. */
  lemma NoMatchInsideName(name: string, dots: nat, ext: string, j: nat)
    requires ext in EXT && dots >= 1 && !EndsWith(name, ".") && j < |name|
    ensures !ExtMatchAt(name + Dots(dots) + ext, j)
  {
    MatchInsideNameNeedsDot(name, dots, ext, j);
  }

  /** A match starting inside `name` runs through its last character, which must then be a dot. */
  lemma MatchInsideNameNeedsDot(name: string, dots: nat, ext: string, j: nat)
    requires ext in EXT && dots >= 1 && j < |name|
    ensures ExtMatchAt(name + Dots(dots) + ext, j) ==> EndsWith(name, ".")
  {
    var s := name + Dots(dots) + ext;
    if ExtMatchAt(s, j) {
      var m, e := DotsThenExtSplit(s, j + 1);
      var t := s[j..];
      assert t == [s[j]] + s[j + 1..] == Dots(m + 1) + e;
      var p := |name| - 1 - j;
      assert t[p] == name[|name| - 1];
      assert name[|name| - 1..] == [name[|name| - 1]];
      ExtLengths(e);
      ExtLengths(ext);
    }
  }

  // ---------------------------------------------------------------------
  // readDirRecursive
  // ---------------------------------------------------------------------

  /** An entry of a directory listing: a file, or a directory with its own listing. */
  datatype Node = File(name: string) | Dir(name: string, children: seq<Node>)

  /**
   * Every file path beneath `dir`, directories expanded depth-first: one of
   * the orders in which the walk may push paths onto its shared array.
   */
  function Walk(dir: string, entries: seq<Node>): seq<string>
    decreases entries
  {
    if entries == [] then [] else WalkEntry(dir, entries[0]) + Walk(dir, entries[1..])
  }

  function WalkEntry(dir: string, entry: Node): seq<string>
    decreases entry
  {
    match entry
    case File(name) => [JoinPath(dir, name)]
    case Dir(name, children) => Walk(JoinPath(dir, name), children)
  }

  /** Number of file entries beneath a listing; directories are not counted. */
  function FileCount(entries: seq<Node>): nat
    decreases entries
  {
    if entries == [] then 0 else EntryFileCount(entries[0]) + FileCount(entries[1..])
  }

  function EntryFileCount(entry: Node): nat
    decreases entry
  {
    match entry
    case File(_) => 1
    case Dir(_, children) => FileCount(children)
  }

  /**
   * The walk yields one path per file entry, none for directory entries,
   * and every path lies beneath `dir`.
   */
  lemma {:induction false} WalkShape(dir: string, entries: seq<Node>)
    ensures |Walk(dir, entries)| == FileCount(entries)
    ensures forall p :: p in Walk(dir, entries) ==> StartsWith(p, dir + "/")
    decreases entries
  {
    if entries != [] {
      WalkEntryShape(dir, entries[0]);
      WalkShape(dir, entries[1..]);
    }
  }

  lemma {:induction false} WalkEntryShape(dir: string, entry: Node)
    ensures |WalkEntry(dir, entry)| == EntryFileCount(entry)
    ensures forall p :: p in WalkEntry(dir, entry) ==> StartsWith(p, dir + "/")
    decreases entry
  {
    match entry
    case File(name) =>
    case Dir(name, children) =>
      var sub := JoinPath(dir, name);
      WalkShape(sub, children);
      forall p | p in WalkEntry(dir, entry) ensures StartsWith(p, dir + "/") {
        assert StartsWith(p, sub + "/");
        assert p[..|dir| + 1] == sub[..|dir| + 1];
      }
  }

  /** `readDirRecursive(dir)`: the walked paths, sorted (`array.sort()`). */
  function ReadDirRecursive(dir: string, entries: seq<Node>): (r: seq<string>)
    ensures Sorted(r)
    ensures multiset(r) == multiset(Walk(dir, entries))
  {
    Sort(Walk(dir, entries))
  }

  /**
   * The concurrent walk pushes paths in an order that depends on timing;
   * whatever that order, the sorted result is the same, it holds one path
   * per file entry and every one of them lies beneath `dir`.
   */
  lemma ReadDirOrderIndependent(dir: string, entries: seq<Node>, pushed: seq<string>)
    requires multiset(pushed) == multiset(Walk(dir, entries))
    ensures Sort(pushed) == ReadDirRecursive(dir, entries)
    ensures |Sort(pushed)| == FileCount(entries)
    ensures forall p :: p in Sort(pushed) ==> StartsWith(p, dir + "/")
  {
    SortedUnique(Sort(pushed), ReadDirRecursive(dir, entries));
    WalkShape(dir, entries);
    assert |multiset(Sort(pushed))| == |multiset(Walk(dir, entries))|;
    forall p | p in Sort(pushed) ensures StartsWith(p, dir + "/") {
      assert p in multiset(Walk(dir, entries));
    }
  }

  // ---------------------------------------------------------------------
  // collectPages and the entry points of the make phase
  // ---------------------------------------------------------------------

  /**
   * `collectPages(root)`: the walked paths that pass `EXT_REG`, each with
   * the first occurrence of `root` removed. `listing` is `Err` when the
   * pages directory cannot be read.
   */
  function CollectPages(root: string, listing: Result<seq<Node>>): Result<seq<string>>
  {
    match listing
    case Err(e) => Err(e)
    case Ok(entries) =>
      var kept := Filter(ReadDirRecursive(root, entries), ExtTest);
      Ok(seq(|kept|, i requires 0 <= i < |kept| => RemoveFirst(kept[i], root)))
  }

  /** Removing `root` from a path beneath it leaves the relative path with its leading `/`. */
  lemma RelativeToRoot(root: string, p: string)
    requires StartsWith(p, root + "/")
    ensures RemoveFirst(p, root) == p[|root|..]
    ensures StartsWith(p[|root|..], "/") && root + p[|root|..] == p
  {
    assert p[..|root|] == (root + "/")[..|root|] == root;
    RemoveFirstOfPrefix(p, root);
    assert p[|root|..][..1] == p[..|root| + 1][|root|..];
    assert p == p[..|root|] + p[|root|..];
  }

  /** Every collected page is the path, relative to `root`, of a walked file with a page extension. */
  lemma CollectedPagesAreWalkedFiles(root: string, entries: seq<Node>, i: nat)
    requires i < |CollectPages(root, Ok(entries)).value|
    ensures var page := CollectPages(root, Ok(entries)).value[i];
      StartsWith(page, "/") && root + page in Walk(root, entries) && HasPageExtension(root + page)
  {
    var walked := ReadDirRecursive(root, entries);
    var kept := Filter(walked, ExtTest);
    var p := kept[i];
    assert CollectPages(root, Ok(entries)).value[i] == RemoveFirst(p, root);
    assert p in walked && ExtTest(p);
    assert p in multiset(walked);
    assert p in Walk(root, entries) by {
      assert p in multiset(Walk(root, entries));
    }
    WalkShape(root, entries);
    RelativeToRoot(root, p);
    ExtTestIsSuffixCheck(p);
  }

  /** Every walked file with a page extension is collected, as its path relative to `root`. */
  lemma WalkedPageFilesAreCollected(root: string, entries: seq<Node>, p: string)
    requires p in Walk(root, entries) && HasPageExtension(p)
    ensures exists i :: 0 <= i < |CollectPages(root, Ok(entries)).value| &&
                        root + CollectPages(root, Ok(entries)).value[i] == p
  {
    var walked := ReadDirRecursive(root, entries);
    var pages := CollectPages(root, Ok(entries)).value;
    assert p in multiset(walked) by {
      assert p in multiset(Walk(root, entries));
    }
    ExtTestIsSuffixCheck(p);
    var kept := Filter(walked, ExtTest);
    assert p in walked;
    var k :| 0 <= k < |walked| && walked[k] == p;
    assert p in kept;
    var i :| 0 <= i < |kept| && kept[i] == p;
    WalkShape(root, entries);
    RelativeToRoot(root, p);
    assert root + pages[i] == p;
  }

  /** The page names of the collected paths (`p.replace(EXT_REG, '')`), in order, repeats included. */
  function PageNames(paths: seq<string>): (names: seq<string>)
    ensures |names| == |paths|
    ensures forall i :: 0 <= i < |paths| ==> names[i] == StripExt(paths[i])
  {
    if paths == [] then [] else PageNames(paths[..|paths| - 1]) + [StripExt(paths[|paths| - 1])]
  }

  lemma PageNamesStep(paths: seq<string>, i: nat)
    requires i < |paths|
    ensures PageNames(paths[..i + 1]) == PageNames(paths[..i]) + [StripExt(paths[i])]
  {
    assert paths[..i + 1][..i] == paths[..i];
  }

  /**
   * The `make` phase's loop over the collected paths: `entrypoints[name] =
   * path.join(pagesPath, name)`. A name met again keeps its first place and
   * takes the later value, which is the same path.
   */
  method BuildEntrypoints(pagesPath: string, paths: seq<string>) returns (entrypoints: Dict<string>)
    ensures Valid(entrypoints)
    ensures entrypoints.keys == Dedup(PageNames(paths))
    ensures forall name :: name in entrypoints.entries ==>
      entrypoints.entries[name] == JoinPath(pagesPath, name)
  {
    entrypoints := Empty();
    var i := 0;
    while i < |paths|
      invariant 0 <= i <= |paths|
      invariant Valid(entrypoints)
      invariant entrypoints.keys == Dedup(PageNames(paths[..i]))
      invariant forall name :: name in entrypoints.entries ==>
        entrypoints.entries[name] == JoinPath(pagesPath, name)
    {
      var fileName := StripExt(paths[i]);
      EntrypointStep(pagesPath, paths, i, entrypoints);
      PutValid(entrypoints, fileName, JoinPath(pagesPath, fileName));
      entrypoints := Put(entrypoints, fileName, JoinPath(pagesPath, fileName));
      i := i + 1;
    }
    assert paths[..i] == paths;
  }

  /** One more path keeps the entrypoints keyed by the page names so far, each mapped to its joined path. */
  lemma EntrypointStep(pagesPath: string, paths: seq<string>, i: nat, entrypoints: Dict<string>)
    requires i < |paths|
    requires Valid(entrypoints) && entrypoints.keys == Dedup(PageNames(paths[..i]))
    requires forall name :: name in entrypoints.entries ==> entrypoints.entries[name] == JoinPath(pagesPath, name)
    ensures var next := Put(entrypoints, StripExt(paths[i]), JoinPath(pagesPath, StripExt(paths[i])));
      next.keys == Dedup(PageNames(paths[..i + 1])) &&
      forall name :: name in next.entries ==> next.entries[name] == JoinPath(pagesPath, name)
  {
    var fileName := StripExt(paths[i]);
    var path := JoinPath(pagesPath, fileName);
    var next := Put(entrypoints, fileName, path);
    PageNamesStep(paths, i);
    DedupSnoc(PageNames(paths[..i]), fileName);
    PutOrder(entrypoints, fileName, path);
    forall name | name in next.entries
      ensures next.entries[name] == JoinPath(pagesPath, name)
    {
      PutLookup(entrypoints, fileName, path, name);
    }
  }
}
