/**
 * The `emit` hook: the `.js` files of the initial chunk groups, the output
 * key of each compiled page, the fan-out of the `_error` page to one asset
 * per status code, and the writes into the host's asset map.
 */
module Emit {
  import opened Wrappers
  import opened Seqs
  import opened Text
  import opened JsObject
  import opened Evaluate
  import Host
  import ChildCompiler
  import Utils

  // ---------------------------------------------------------------------
  // Entry files
  // ---------------------------------------------------------------------

  /** A chunk: its name (falsy when absent or empty) and its files (absent allowed). */
  datatype Chunk = Chunk(name: Option<string>, files: Option<seq<string>>)

  /** A chunk group: whether `isInitial()` holds, and its chunks in order. */
  datatype ChunkGroup = ChunkGroup(isInitial: bool, chunks: seq<Chunk>)

  /** `!chunk.name || !chunk.files`: such a chunk is passed over. */
  predicate Skipped(c: Chunk)
  {
    c.name.None? || c.name.value == "" || c.files.None?
  }

  /** The files one chunk contributes. */
  function ChunkEntryFiles(c: Chunk): seq<string>
  {
    if Skipped(c) then [] else Filter(c.files.value, IsJsFile)
  }

  /** The files the chunks contribute, in order. */
  function ChunksEntryFiles(cs: seq<Chunk>): seq<string>
  {
    if cs == [] then [] else ChunkEntryFiles(cs[0]) + ChunksEntryFiles(cs[1..])
  }

  /** The files one group contributes: none unless it is initial. */
  function GroupEntryFiles(g: ChunkGroup): seq<string>
  {
    if g.isInitial then ChunksEntryFiles(g.chunks) else []
  }

  /** The entry files of all groups, in encounter order. */
  function EntryFiles(groups: seq<ChunkGroup>): seq<string>
  {
    if groups == [] then [] else GroupEntryFiles(groups[0]) + EntryFiles(groups[1..])
  }

  lemma FilterSnoc(s: seq<string>, x: string)
    ensures Filter(s + [x], IsJsFile) == Filter(s, IsJsFile) + (if IsJsFile(x) then [x] else [])
  {
    FilterAppend(s, [x], IsJsFile);
    assert [x][1..] == [];
  }

  /** The innermost loop: the `.js` files of one chunk, unless the chunk is skipped. */
  method CollectChunkFiles(chunk: Chunk) returns (found: seq<string>)
    ensures found == ChunkEntryFiles(chunk)
  {
    found := [];
    if !Skipped(chunk) {
      var files := chunk.files.value;
      var k := 0;
      while k < |files|
        invariant 0 <= k <= |files|
        invariant found == Filter(files[..k], IsJsFile)
      {
        FilterSnoc(files[..k], files[k]);
        assert files[..k + 1] == files[..k] + [files[k]];
        if IsJsFile(files[k]) {
          found := found + [files[k]];
        }
        k := k + 1;
      }
      assert files[..k] == files;
    }
  }

  /** The loop over the chunks of one group, which contributes nothing unless it is initial. */
  method CollectGroupFiles(group: ChunkGroup) returns (found: seq<string>)
    ensures found == GroupEntryFiles(group)
  {
    found := [];
    if group.isInitial {
      var c := 0;
      while c < |group.chunks|
        invariant 0 <= c <= |group.chunks|
        invariant found == ChunksEntryFiles(group.chunks[..c])
      {
        ChunksEntryFilesPrefix(group.chunks, c);
        var chunkFiles := CollectChunkFiles(group.chunks[c]);
        found := found + chunkFiles;
        c := c + 1;
      }
      assert group.chunks[..c] == group.chunks;
    }
  }

  /**
   * The nested loops of the `emit` hook that push every `.js` file of every
   * named chunk with files, of every initial chunk group, into `entryFiles`.
   */
  method CollectEntryFiles(groups: seq<ChunkGroup>) returns (entryFiles: seq<string>)
    ensures entryFiles == EntryFiles(groups)
  {
    entryFiles := [];
    var g := 0;
    while g < |groups|
      invariant 0 <= g <= |groups|
      invariant entryFiles == EntryFiles(groups[..g])
    {
      EntryFilesPrefix(groups, g);
      var groupFiles := CollectGroupFiles(groups[g]);
      entryFiles := entryFiles + groupFiles;
      g := g + 1;
    }
    assert groups[..g] == groups;
  }

  lemma {:induction false} ChunksEntryFilesAppend(a: seq<Chunk>, b: seq<Chunk>)
    ensures ChunksEntryFiles(a + b) == ChunksEntryFiles(a) + ChunksEntryFiles(b)
    decreases |a|
  {
    if a == [] {
      assert a + b == b;
    } else {
      assert (a + b)[1..] == a[1..] + b;
      ChunksEntryFilesAppend(a[1..], b);
    }
  }

  lemma ChunksEntryFilesPrefix(cs: seq<Chunk>, c: nat)
    requires c < |cs|
    ensures ChunksEntryFiles(cs[..c + 1]) == ChunksEntryFiles(cs[..c]) + ChunkEntryFiles(cs[c])
  {
    assert cs[..c + 1] == cs[..c] + [cs[c]];
    ChunksEntryFilesAppend(cs[..c], [cs[c]]);
    assert [cs[c]][1..] == [];
  }

  /**
   * Groups contribute their files one after the other: the order of
   * encounter is kept and a file listed by two groups appears twice.
   */
  lemma {:induction false} EntryFilesAppend(a: seq<ChunkGroup>, b: seq<ChunkGroup>)
    ensures EntryFiles(a + b) == EntryFiles(a) + EntryFiles(b)
    decreases |a|
  {
    if a == [] {
      assert a + b == b;
    } else {
      assert (a + b)[1..] == a[1..] + b;
      EntryFilesAppend(a[1..], b);
    }
  }

  lemma EntryFilesPrefix(groups: seq<ChunkGroup>, g: nat)
    requires g < |groups|
    ensures EntryFiles(groups[..g + 1]) == EntryFiles(groups[..g]) + GroupEntryFiles(groups[g])
  {
    assert groups[..g + 1] == groups[..g] + [groups[g]];
    EntryFilesAppend(groups[..g], [groups[g]]);
    assert [groups[g]][1..] == [];
  }

  /** A file is listed by some chunk as an entry file. */
  ghost predicate ChunksProvide(cs: seq<Chunk>, f: string)
  {
    exists c :: 0 <= c < |cs| && !Skipped(cs[c]) && f in cs[c].files.value && IsJsFile(f)
  }

  /** A file is listed as an entry file by a chunk of an initial group. */
  ghost predicate GroupsProvide(groups: seq<ChunkGroup>, f: string)
  {
    exists g :: 0 <= g < |groups| && groups[g].isInitial && ChunksProvide(groups[g].chunks, f)
  }

  /** A file comes from one chunk exactly when the chunk is not skipped, lists it, and it ends in `.js`. */
  lemma ChunkEntryFilesMembers(c: Chunk, f: string)
    ensures f in ChunkEntryFiles(c) <==> !Skipped(c) && f in c.files.value && IsJsFile(f)
  {
    if !Skipped(c) && f in c.files.value && IsJsFile(f) {
      var i :| 0 <= i < |c.files.value| && c.files.value[i] == f;
    }
    if f in ChunkEntryFiles(c) {
      var i :| 0 <= i < |ChunkEntryFiles(c)| && ChunkEntryFiles(c)[i] == f;
    }
  }

  lemma ChunksProvideCons(cs: seq<Chunk>, f: string)
    requires cs != []
    ensures ChunksProvide(cs, f) <==>
      (!Skipped(cs[0]) && f in cs[0].files.value && IsJsFile(f)) || ChunksProvide(cs[1..], f)
  {
    if ChunksProvide(cs[1..], f) {
      var c :| 0 <= c < |cs[1..]| && !Skipped(cs[1..][c]) && f in cs[1..][c].files.value && IsJsFile(f);
      assert cs[c + 1] == cs[1..][c];
    }
    if ChunksProvide(cs, f) {
      var c :| 0 <= c < |cs| && !Skipped(cs[c]) && f in cs[c].files.value && IsJsFile(f);
      if c > 0 {
        assert cs[1..][c - 1] == cs[c];
      }
    }
  }

  lemma {:induction false} ChunksEntryFilesMembers(cs: seq<Chunk>, f: string)
    ensures f in ChunksEntryFiles(cs) <==> ChunksProvide(cs, f)
  {
    if cs != [] {
      ChunksEntryFilesMembers(cs[1..], f);
      ChunkEntryFilesMembers(cs[0], f);
      ChunksProvideCons(cs, f);
    }
  }

  lemma GroupsProvideCons(groups: seq<ChunkGroup>, f: string)
    requires groups != []
    ensures GroupsProvide(groups, f) <==>
      (groups[0].isInitial && ChunksProvide(groups[0].chunks, f)) || GroupsProvide(groups[1..], f)
  {
    if GroupsProvide(groups[1..], f) {
      var g :| 0 <= g < |groups[1..]| && groups[1..][g].isInitial && ChunksProvide(groups[1..][g].chunks, f);
      assert groups[g + 1] == groups[1..][g];
    }
    if GroupsProvide(groups, f) {
      var g :| 0 <= g < |groups| && groups[g].isInitial && ChunksProvide(groups[g].chunks, f);
      if g > 0 {
        assert groups[1..][g - 1] == groups[g];
      }
    }
  }

  /**
   * A file is an entry file exactly when some initial group has a named
   * chunk with files that lists it, and it ends in `.js`.
   */
  lemma {:induction false} EntryFilesMembers(groups: seq<ChunkGroup>, f: string)
    ensures f in EntryFiles(groups) <==> GroupsProvide(groups, f)
  {
    if groups != [] {
      EntryFilesMembers(groups[1..], f);
      ChunksEntryFilesMembers(groups[0].chunks, f);
      GroupsProvideCons(groups, f);
    }
  }

  /** Every entry file ends in `.js`. */
  lemma EntryFilesAreJs(groups: seq<ChunkGroup>)
    ensures forall i :: 0 <= i < |EntryFiles(groups)| ==> IsJsFile(EntryFiles(groups)[i])
  {
    forall i | 0 <= i < |EntryFiles(groups)|
      ensures IsJsFile(EntryFiles(groups)[i])
    {
      var f := EntryFiles(groups)[i];
      EntryFilesMembers(groups, f);
      var g :| 0 <= g < |groups| && groups[g].isInitial && ChunksProvide(groups[g].chunks, f);
      var c :| 0 <= c < |groups[g].chunks| && !Skipped(groups[g].chunks[c]) && f in groups[g].chunks[c].files.value && IsJsFile(f);
    }
  }

  // ---------------------------------------------------------------------
  // Output names and props
  // ---------------------------------------------------------------------

  /** The page whose compiled template renders the error pages. */
  const ERROR_PAGE := "_error"

  /** `page.replace(/^\//g, '')`: the anchored pattern removes at most one leading slash. */
  function PageKey(page: string): string
  {
    if |page| > 0 && page[0] == '/' then page[1..] else page
  }

  /** A page name is its key behind at most one slash. */
  lemma PageKeyShape(page: string)
    ensures StartsWith(page, "/") ==> page == "/" + PageKey(page)
    ensures !StartsWith(page, "/") ==> PageKey(page) == page
  {
    if StartsWith(page, "/") {
      assert page == [page[0]] + page[1..];
    }
  }

  /** Only one slash is removed: `//a` becomes `/a`. */
  lemma PageKeyStripsOneSlash(rest: string)
    ensures PageKey("/" + rest) == rest
    ensures PageKey("//" + rest) == "/" + rest
  {
    assert StartsWith("//" + rest, "/");
    assert ("//" + rest)[1..] == "/" + rest;
  }

  /** `ERRORS[code]`: the status text, absent for codes other than 400, 404 and 500. */
  function StatusText(code: int): (status: Option<string>)
    ensures status.Some? <==> code in {400, 404, 500}
  {
    if code == 400 then Some("Bad Request")
    else if code == 404 then Some("This page could not be found")
    else if code == 500 then Some("Internal Server Error")
    else None
  }

  /** The props a page template is rendered with; `static` is always true. */
  datatype Props =
    | PageProps(isStatic: bool, url: string)
    | ErrorProps(isStatic: bool, code: int, status: Option<string>)

  /** `${key}.html` */
  function PageAssetName(key: string): string
  {
    key + ".html"
  }

  /** `${code}.html` */
  function CodeAssetName(code: int): string
  {
    IntToString(code) + ".html"
  }

  /** Different codes are written to different assets. */
  lemma CodeAssetNameInjective(a: int, b: int)
    requires CodeAssetName(a) == CodeAssetName(b)
    ensures a == b
  {
    var sa := IntToString(a);
    var sb := IntToString(b);
    assert sa == CodeAssetName(a)[..|CodeAssetName(a)| - 5];
    assert sb == CodeAssetName(b)[..|CodeAssetName(b)| - 5];
    IntToStringInjective(a, b);
  }

  /** Every asset the emit hook writes is an `.html` file. */
  lemma AssetNamesAreHtml(key: string, code: int)
    ensures EndsWith(PageAssetName(key), ".html")
    ensures EndsWith(CodeAssetName(code), ".html")
  {
  }

  /** `render(factory, entryFiles, props)`, which yields the page source. */
  type Renderer = (JsValue, seq<string>, Props) -> string

  /** One assignment `c.assets[name] = source`. */
  datatype Write = Write(name: string, source: string)

  /**
   * The writes for one page, given its evaluated factory: the error page
   * renders once per configured code, any other page once with its own
   * name (slash kept) as the `url`.
   */
  function PageWrites(page: string, factory: JsValue, entryFiles: seq<string>, errors: seq<int>, render: Renderer): seq<Write>
  {
    if PageKey(page) == ERROR_PAGE then CodeWrites(factory, entryFiles, errors, render)
    else [Write(PageAssetName(PageKey(page)), render(factory, entryFiles, PageProps(true, page)))]
  }

  /** The error page rendered for one status code, written to `<code>.html`. */
  function CodeWrite(factory: JsValue, entryFiles: seq<string>, code: int, render: Renderer): Write
  {
    Write(CodeAssetName(code), render(factory, entryFiles, ErrorProps(true, code, StatusText(code))))
  }

  /** The inner loop over the codes: one write per code, in order. */
  function CodeWrites(factory: JsValue, entryFiles: seq<string>, codes: seq<int>, render: Renderer): (writes: seq<Write>)
    ensures |writes| == |codes|
  {
    if codes == [] then []
    else CodeWrites(factory, entryFiles, codes[..|codes| - 1], render) + [CodeWrite(factory, entryFiles, codes[|codes| - 1], render)]
  }

  /** The `i`-th write is the one for the `i`-th code. */
  lemma {:induction false} CodeWritesAt(factory: JsValue, entryFiles: seq<string>, codes: seq<int>, render: Renderer, i: nat)
    requires i < |codes|
    ensures CodeWrites(factory, entryFiles, codes, render)[i] == CodeWrite(factory, entryFiles, codes[i], render)
  {
    if i < |codes| - 1 {
      var init := codes[..|codes| - 1];
      CodeWritesAt(factory, entryFiles, init, render, i);
    }
  }

  /** The asset map after the writes, in order (a later write to a name wins). */
  function ApplyWrites(assets: map<string, string>, writes: seq<Write>): map<string, string>
  {
    if writes == [] then assets
    else ApplyWrites(assets, writes[..|writes| - 1])[writes[|writes| - 1].name := writes[|writes| - 1].source]
  }

  /** The names the writes assign. */
  function WrittenNames(writes: seq<Write>): set<string>
  {
    set i | 0 <= i < |writes| :: writes[i].name
  }

  /** The writes add exactly their names to the asset map's domain. */
  lemma {:induction false} ApplyWritesDomain(assets: map<string, string>, writes: seq<Write>)
    ensures ApplyWrites(assets, writes).Keys == assets.Keys + WrittenNames(writes)
  {
    if writes != [] {
      var init := writes[..|writes| - 1];
      ApplyWritesDomain(assets, init);
      assert WrittenNames(writes) == WrittenNames(init) + {writes[|writes| - 1].name} by {
        forall n | n in WrittenNames(writes)
          ensures n in WrittenNames(init) + {writes[|writes| - 1].name}
        {
          var i :| 0 <= i < |writes| && writes[i].name == n;
          if i < |writes| - 1 {
            assert init[i] == writes[i];
          }
        }
        forall n | n in WrittenNames(init)
          ensures n in WrittenNames(writes)
        {
          var i :| 0 <= i < |init| && init[i].name == n;
          assert writes[i] == init[i];
        }
      }
    }
  }

  /** The writes never remove a name. */
  lemma {:induction false} ApplyWritesKeeps(assets: map<string, string>, writes: seq<Write>, name: string)
    requires name in assets
    ensures name in ApplyWrites(assets, writes)
  {
    if writes != [] {
      ApplyWritesKeeps(assets, writes[..|writes| - 1], name);
    }
  }

  /** A name no write assigns keeps its presence and its value. */
  lemma {:induction false} ApplyWritesUntouched(assets: map<string, string>, writes: seq<Write>, name: string)
    requires forall i :: 0 <= i < |writes| ==> writes[i].name != name
    ensures name in ApplyWrites(assets, writes) <==> name in assets
    ensures name in assets ==> ApplyWrites(assets, writes)[name] == assets[name]
  {
    if writes != [] {
      var init := writes[..|writes| - 1];
      assert forall i :: 0 <= i < |init| ==> init[i] == writes[i];
      ApplyWritesUntouched(assets, init, name);
    }
  }

  /** A name that every write assigning it gives the same source ends up with that source. */
  lemma {:induction false} ApplyWritesAssigned(assets: map<string, string>, writes: seq<Write>, name: string, source: string)
    requires exists i :: 0 <= i < |writes| && writes[i].name == name
    requires forall i :: 0 <= i < |writes| && writes[i].name == name ==> writes[i].source == source
    ensures name in ApplyWrites(assets, writes) && ApplyWrites(assets, writes)[name] == source
  {
    var init := writes[..|writes| - 1];
    var last := writes[|writes| - 1];
    if last.name != name {
      var i :| 0 <= i < |writes| && writes[i].name == name;
      assert init[i] == writes[i];
      assert forall j :: 0 <= j < |init| ==> init[j] == writes[j];
      ApplyWritesAssigned(assets, init, name, source);
    }
  }

  /**
   * The error page writes exactly one `<code>.html` per configured code,
   * rendered with that code and its status text; any other page writes
   * exactly `<key>.html`, rendered with the unstripped page name as `url`.
   */
  lemma PageWritesOutcome(assets: map<string, string>, page: string, factory: JsValue, entryFiles: seq<string>, errors: seq<int>, render: Renderer)
    ensures PageKey(page) == ERROR_PAGE ==>
      WrittenNames(PageWrites(page, factory, entryFiles, errors, render)) == set c | c in errors :: CodeAssetName(c)
    ensures PageKey(page) == ERROR_PAGE ==> forall i :: 0 <= i < |errors| ==>
      var after := ApplyWrites(assets, PageWrites(page, factory, entryFiles, errors, render));
      CodeAssetName(errors[i]) in after &&
      after[CodeAssetName(errors[i])] == render(factory, entryFiles, ErrorProps(true, errors[i], StatusText(errors[i])))
    ensures PageKey(page) != ERROR_PAGE ==>
      ApplyWrites(assets, PageWrites(page, factory, entryFiles, errors, render)) ==
        assets[PageAssetName(PageKey(page)) := render(factory, entryFiles, PageProps(true, page))]
  {
    var writes := PageWrites(page, factory, entryFiles, errors, render);
    if PageKey(page) == ERROR_PAGE {
      assert WrittenNames(writes) == set c | c in errors :: CodeAssetName(c) by {
        forall n | n in set c | c in errors :: CodeAssetName(c)
          ensures n in WrittenNames(writes)
        {
          var c :| c in errors && n == CodeAssetName(c);
          var i :| 0 <= i < |errors| && errors[i] == c;
          CodeWritesAt(factory, entryFiles, errors, render, i);
          assert writes[i].name == n;
        }
        forall n | n in WrittenNames(writes)
          ensures n in set c | c in errors :: CodeAssetName(c)
        {
          var i :| 0 <= i < |writes| && writes[i].name == n;
          CodeWritesAt(factory, entryFiles, errors, render, i);
        }
      }
      forall i | 0 <= i < |errors|
        ensures CodeAssetName(errors[i]) in ApplyWrites(assets, writes)
        ensures ApplyWrites(assets, writes)[CodeAssetName(errors[i])] ==
          render(factory, entryFiles, ErrorProps(true, errors[i], StatusText(errors[i])))
      {
        var name := CodeAssetName(errors[i]);
        forall j | 0 <= j < |writes| && writes[j].name == name
          ensures writes[j].source == render(factory, entryFiles, ErrorProps(true, errors[i], StatusText(errors[i])))
        {
          CodeWritesAt(factory, entryFiles, errors, render, j);
          CodeAssetNameInjective(errors[j], errors[i]);
        }
        CodeWritesAt(factory, entryFiles, errors, render, i);
        assert writes[i].name == name;
        ApplyWritesAssigned(assets, writes, name, render(factory, entryFiles, ErrorProps(true, errors[i], StatusText(errors[i]))));
      }
    } else {
      assert writes[..0] == [];
    }
  }

  /** No page ever writes `_error.html`: the error page fans out to code names instead. */
  lemma NoPageWritesErrorHtml(page: string, factory: JsValue, entryFiles: seq<string>, errors: seq<int>, render: Renderer)
    ensures forall i :: 0 <= i < |PageWrites(page, factory, entryFiles, errors, render)| ==>
      PageWrites(page, factory, entryFiles, errors, render)[i].name != PageAssetName(ERROR_PAGE)
  {
    var writes := PageWrites(page, factory, entryFiles, errors, render);
    var target := PageAssetName(ERROR_PAGE);
    forall i | 0 <= i < |writes|
      ensures writes[i].name != target
    {
      if PageKey(page) == ERROR_PAGE {
        var digits := IntToString(errors[i]);
        IntToStringLead(errors[i]);
        CodeWritesAt(factory, entryFiles, errors, render, i);
        assert writes[i].name == CodeAssetName(errors[i]);
        assert writes[i].name == digits + ".html";
        assert writes[i].name[0] == digits[0];
        assert target[0] == '_';
      } else {
        assert writes[i].name == PageKey(page) + ".html";
        assert (PageKey(page) + ".html")[..|PageKey(page)|] == PageKey(page);
      }
    }
  }

  // ---------------------------------------------------------------------
  // The emit loop
  // ---------------------------------------------------------------------

  /** The TypeError reading `.content` of a page that is not in the results would throw. */
  const MISSING_PAGE := "TypeError: Cannot read property 'content' of undefined"

  /**
   * The evaluation of the `i`-th page's compiled content. Every key of a
   * valid results object has an entry, so the second branch is never taken
   * for the pages the `make` hook stores.
   */
  function Evaluated(pages: Dict<ChildCompiler.CompiledPage>, i: nat, run: string -> Result<JsValue>): Result<JsValue>
    requires i < |pages.keys|
  {
    if pages.keys[i] in pages.entries then EvaluateCompilationResult(Some(pages.entries[pages.keys[i]].content), run)
    else Err(MISSING_PAGE)
  }

  /** The evaluations of the first `n` pages, in key order. */
  function EvaluationsUpTo(pages: Dict<ChildCompiler.CompiledPage>, run: string -> Result<JsValue>, n: nat): (r: seq<Result<JsValue>>)
    requires n <= |pages.keys|
    ensures |r| == n
  {
    if n == 0 then [] else EvaluationsUpTo(pages, run, n - 1) + [Evaluated(pages, n - 1, run)]
  }

  /** The evaluations of all pages, in key order. */
  function Evaluations(pages: Dict<ChildCompiler.CompiledPage>, run: string -> Result<JsValue>): (r: seq<Result<JsValue>>)
    ensures |r| == |pages.keys|
  {
    EvaluationsUpTo(pages, run, |pages.keys|)
  }

  /** The `i`-th of the first `n` evaluations evaluates the `i`-th page. */
  lemma {:induction false} EvaluationsUpToAt(pages: Dict<ChildCompiler.CompiledPage>, run: string -> Result<JsValue>, n: nat, i: nat)
    requires i < n <= |pages.keys|
    ensures EvaluationsUpTo(pages, run, n)[i] == Evaluated(pages, i, run)
  {
    if i < n - 1 {
      EvaluationsUpToAt(pages, run, n - 1, i);
    }
  }

  /** For a valid results object, the `i`-th evaluation runs the `i`-th key's compiled content. */
  lemma EvaluationAt(pages: Dict<ChildCompiler.CompiledPage>, run: string -> Result<JsValue>, i: nat)
    requires Valid(pages) && i < |pages.keys|
    ensures pages.keys[i] in pages.entries
    ensures Evaluations(pages, run)[i] == EvaluateCompilationResult(Some(pages.entries[pages.keys[i]].content), run)
  {
    EvaluationsUpToAt(pages, run, |pages.keys|, i);
  }

  /**
   * The rejection after the first `n` of the evaluations in key order: the
   * error of the first one that throws, if any.
   */
  function EmitError(evals: seq<Result<JsValue>>, n: nat): Option<string>
    requires n <= |evals|
  {
    if n == 0 then None
    else match EmitError(evals, n - 1)
      case Some(e) => Some(e)
      case None => (match evals[n - 1]
        case Err(e) => Some(e)
        case Ok(_) => None)
  }

  /** The writes of the `j`-th page: those of its template if its evaluation succeeded, none otherwise. */
  function EvalWrites(keys: seq<string>, evals: seq<Result<JsValue>>, j: nat, entryFiles: seq<string>, errors: seq<int>,
                      render: Renderer): seq<Write>
    requires j < |keys| == |evals|
  {
    match evals[j]
    case Ok(factory) => PageWrites(keys[j], factory, entryFiles, errors, render)
    case Err(_) => []
  }

  /** The writes of the first `n` pages, one entry per page, in key order. */
  function WritesUpTo(keys: seq<string>, evals: seq<Result<JsValue>>, n: nat, entryFiles: seq<string>, errors: seq<int>,
                      render: Renderer): (ws: seq<seq<Write>>)
    requires n <= |keys| == |evals|
    ensures |ws| == n
  {
    if n == 0 then []
    else WritesUpTo(keys, evals, n - 1, entryFiles, errors, render) + [EvalWrites(keys, evals, n - 1, entryFiles, errors, render)]
  }

  /** The `j`-th entry holds the `j`-th page's writes. */
  lemma {:induction false} WritesUpToAt(keys: seq<string>, evals: seq<Result<JsValue>>, n: nat, entryFiles: seq<string>, errors: seq<int>,
                                        render: Renderer, j: nat)
    requires j < n <= |keys| == |evals|
    ensures WritesUpTo(keys, evals, n, entryFiles, errors, render)[j] == EvalWrites(keys, evals, j, entryFiles, errors, render)
  {
    if j < n - 1 {
      WritesUpToAt(keys, evals, n - 1, entryFiles, errors, render, j);
    }
  }

  /**
   * The asset map after the first `n` pages, given their evaluations and
   * the writes of each: every page before the first one whose evaluation
   * throws adds its writes; no page from that one on is processed.
   */
  function ApplyPages(evals: seq<Result<JsValue>>, ws: seq<seq<Write>>, n: nat, assets: map<string, string>): map<string, string>
    requires n <= |evals| == |ws|
  {
    if n == 0 then assets
    else
      var prev := ApplyPages(evals, ws, n - 1, assets);
      if EmitError(evals, n - 1).Some? || evals[n - 1].Err? then prev else ApplyWrites(prev, ws[n - 1])
  }

  /** The asset map after the first `n` pages in key order, given their evaluations. */
  function EmitAssets(keys: seq<string>, evals: seq<Result<JsValue>>, n: nat, entryFiles: seq<string>, errors: seq<int>,
                      render: Renderer, assets: map<string, string>): map<string, string>
    requires n <= |keys| == |evals|
  {
    ApplyPages(evals, WritesUpTo(keys, evals, |keys|, entryFiles, errors, render), n, assets)
  }

  /** The hook resolves exactly when every page's evaluation succeeds. */
  lemma {:induction false} EmitSucceedsIff(evals: seq<Result<JsValue>>, n: nat)
    requires n <= |evals|
    ensures EmitError(evals, n).None? <==> forall i :: 0 <= i < n ==> evals[i].Ok?
  {
    if n > 0 {
      EmitSucceedsIff(evals, n - 1);
    }
  }

  /** When page `i` is the first whose evaluation throws, the hook rejects with that page's error. */
  lemma {:induction false} EmitFailsAtFirstFailure(evals: seq<Result<JsValue>>, n: nat, i: nat)
    requires i < n <= |evals|
    requires evals[i].Err?
    requires forall j :: 0 <= j < i ==> evals[j].Ok?
    ensures EmitError(evals, n) == Some(evals[i].error)
  {
    if i < n - 1 {
      EmitFailsAtFirstFailure(evals, n - 1, i);
    } else {
      EmitSucceedsIff(evals, n - 1);
    }
  }

  /** One more page after a run without rejection: it either rejects with its evaluation error or adds its writes. */
  lemma EmitAdvance(keys: seq<string>, evals: seq<Result<JsValue>>, n: nat, entryFiles: seq<string>, errors: seq<int>,
                    render: Renderer, assets: map<string, string>)
    requires n < |keys| == |evals|
    requires EmitError(evals, n).None?
    ensures evals[n].Err? ==> EmitError(evals, n + 1) == Some(evals[n].error)
    ensures evals[n].Err? ==>
      EmitAssets(keys, evals, n + 1, entryFiles, errors, render, assets) == EmitAssets(keys, evals, n, entryFiles, errors, render, assets)
    ensures evals[n].Ok? ==> EmitError(evals, n + 1).None?
    ensures evals[n].Ok? ==>
      EmitAssets(keys, evals, n + 1, entryFiles, errors, render, assets) ==
        ApplyWrites(EmitAssets(keys, evals, n, entryFiles, errors, render, assets), PageWrites(keys[n], evals[n].value, entryFiles, errors, render))
  {
    var ws := WritesUpTo(keys, evals, |keys|, entryFiles, errors, render);
    PagesAdvance(evals, ws, n, assets);
    WritesUpToAt(keys, evals, |keys|, entryFiles, errors, render, n);
  }

  /** One more page after a run without rejection adds its writes if its evaluation succeeded, and nothing otherwise. */
  lemma PagesAdvance(evals: seq<Result<JsValue>>, ws: seq<seq<Write>>, n: nat, assets: map<string, string>)
    requires n < |evals| == |ws|
    requires EmitError(evals, n).None?
    ensures evals[n].Err? ==> ApplyPages(evals, ws, n + 1, assets) == ApplyPages(evals, ws, n, assets)
    ensures evals[n].Ok? ==> ApplyPages(evals, ws, n + 1, assets) == ApplyWrites(ApplyPages(evals, ws, n, assets), ws[n])
  {
  }

  /** Once the hook has rejected, the later pages change nothing. */
  lemma EmitStaysFailed(keys: seq<string>, evals: seq<Result<JsValue>>, m: nat, n: nat, entryFiles: seq<string>, errors: seq<int>,
                        render: Renderer, assets: map<string, string>)
    requires m <= n <= |keys| == |evals|
    requires EmitError(evals, m).Some?
    ensures EmitError(evals, n) == EmitError(evals, m)
    ensures EmitAssets(keys, evals, n, entryFiles, errors, render, assets) == EmitAssets(keys, evals, m, entryFiles, errors, render, assets)
  {
    PagesStayFailed(evals, WritesUpTo(keys, evals, |keys|, entryFiles, errors, render), m, n, assets);
  }

  /** After a rejection, whatever the pages would write, the later pages change nothing. */
  lemma {:induction false} PagesStayFailed(evals: seq<Result<JsValue>>, ws: seq<seq<Write>>, m: nat, n: nat, assets: map<string, string>)
    requires m <= n <= |evals| == |ws|
    requires EmitError(evals, m).Some?
    ensures EmitError(evals, n) == EmitError(evals, m)
    ensures ApplyPages(evals, ws, n, assets) == ApplyPages(evals, ws, m, assets)
    decreases n - m
  {
    if m < n {
      PagesStayFailed(evals, ws, m, n - 1, assets);
    }
  }

  /**
   * The body the `emit` hook hands to `asyncFor` for the `i`-th page key,
   * with the asset map as the state it changes: reject with the page's
   * evaluation error, or apply the page's writes.
   */
  function PageStep(evals: seq<Result<JsValue>>, entryFiles: seq<string>, errors: seq<int>, render: Renderer)
    : (map<string, string>, string, nat, seq<string>) -> Result<map<string, string>>
  {
    (assets: map<string, string>, page: string, i: nat, keys: seq<string>) =>
      if i < |evals| then
        (match evals[i]
         case Err(e) => Err(e)
         case Ok(factory) => Ok(ApplyWrites(assets, PageWrites(page, factory, entryFiles, errors, render))))
      else Ok(assets)
  }

  /** From page `i` on, before any rejection, `asyncFor`'s loop ends where the emit functions say. */
  lemma {:induction false} AsyncForFrom(keys: seq<string>, evals: seq<Result<JsValue>>, i: nat, entryFiles: seq<string>, errors: seq<int>,
                                        render: Renderer, assets: map<string, string>)
    requires i <= |keys| == |evals|
    requires EmitError(evals, i).None?
    ensures Utils.RunFrom(keys, PageStep(evals, entryFiles, errors, render), i, EmitAssets(keys, evals, i, entryFiles, errors, render, assets)) ==
      Utils.Run(EmitAssets(keys, evals, |keys|, entryFiles, errors, render, assets), EmitError(evals, |keys|))
    decreases |keys| - i
  {
    if i < |keys| {
      EmitAdvance(keys, evals, i, entryFiles, errors, render, assets);
      if evals[i].Err? {
        EmitStaysFailed(keys, evals, i + 1, |keys|, entryFiles, errors, render, assets);
      } else {
        AsyncForFrom(keys, evals, i + 1, entryFiles, errors, render, assets);
      }
    }
  }

  /**
   * The emit functions are `asyncFor` over the page keys: running
   * `Utils.RunFrom` with the page body from the host's asset map ends in
   * the map `EmitAssets` gives, with the rejection `EmitError` gives.
   */
  lemma EmitIsAsyncFor(keys: seq<string>, evals: seq<Result<JsValue>>, entryFiles: seq<string>, errors: seq<int>,
                       render: Renderer, assets: map<string, string>)
    requires |keys| == |evals|
    ensures Utils.RunFrom(keys, PageStep(evals, entryFiles, errors, render), 0, assets) ==
      Utils.Run(EmitAssets(keys, evals, |keys|, entryFiles, errors, render, assets), EmitError(evals, |keys|))
  {
    AsyncForFrom(keys, evals, 0, entryFiles, errors, render, assets);
  }

  /** No page writes `name`, whatever its template evaluates to. */
  ghost predicate NoPageWrites(entryFiles: seq<string>, errors: seq<int>, render: Renderer, name: string)
  {
    forall page, factory, i :: 0 <= i < |PageWrites(page, factory, entryFiles, errors, render)| ==>
      PageWrites(page, factory, entryFiles, errors, render)[i].name != name
  }

  /** An asset no page writes is left as it was, present or absent. */
  lemma EmitKeepsUnwritten(keys: seq<string>, evals: seq<Result<JsValue>>, n: nat, entryFiles: seq<string>, errors: seq<int>,
                           render: Renderer, assets: map<string, string>, name: string)
    requires n <= |keys| == |evals|
    requires NoPageWrites(entryFiles, errors, render, name)
    ensures name in EmitAssets(keys, evals, n, entryFiles, errors, render, assets) <==> name in assets
    ensures name in assets ==> EmitAssets(keys, evals, n, entryFiles, errors, render, assets)[name] == assets[name]
  {
    var ws: seq<seq<Write>> := WritesUpTo(keys, evals, |keys|, entryFiles, errors, render);
    forall j, i | 0 <= j < |ws| && 0 <= i < |ws[j]|
      ensures ws[j][i].name != name
    {
      WritesUpToAt(keys, evals, |keys|, entryFiles, errors, render, j);
    }
    PagesKeepUnwritten(evals, ws, n, assets, name);
  }

  /** No page's writes assign `name`. */
  predicate NoneWrites(ws: seq<seq<Write>>, name: string)
  {
    forall j, i :: 0 <= j < |ws| && 0 <= i < |ws[j]| ==> ws[j][i].name != name
  }

  /** A name none of the pages' writes assigns keeps its presence and its source. */
  lemma {:induction false} PagesKeepUnwritten(evals: seq<Result<JsValue>>, ws: seq<seq<Write>>, n: nat, assets: map<string, string>, name: string)
    requires n <= |evals| == |ws|
    requires NoneWrites(ws, name)
    ensures name in ApplyPages(evals, ws, n, assets) <==> name in assets
    ensures name in assets ==> ApplyPages(evals, ws, n, assets)[name] == assets[name]
  {
    if n > 0 {
      PagesKeepUnwritten(evals, ws, n - 1, assets, name);
      ApplyWritesUntouched(ApplyPages(evals, ws, n - 1, assets), ws[n - 1], name);
    }
  }

  /** The hook never writes an asset whose name does not end in `.html`. */
  lemma EmitTouchesOnlyHtml(keys: seq<string>, evals: seq<Result<JsValue>>, n: nat, entryFiles: seq<string>, errors: seq<int>,
                            render: Renderer, assets: map<string, string>, name: string)
    requires n <= |keys| == |evals|
    requires !EndsWith(name, ".html")
    ensures name in EmitAssets(keys, evals, n, entryFiles, errors, render, assets) <==> name in assets
    ensures name in assets ==> EmitAssets(keys, evals, n, entryFiles, errors, render, assets)[name] == assets[name]
  {
    forall page, factory, i | 0 <= i < |PageWrites(page, factory, entryFiles, errors, render)|
      ensures PageWrites(page, factory, entryFiles, errors, render)[i].name != name
    {
      if PageKey(page) == ERROR_PAGE {
        CodeWritesAt(factory, entryFiles, errors, render, i);
        AssetNamesAreHtml("", errors[i]);
      } else {
        AssetNamesAreHtml(PageKey(page), 0);
      }
    }
    EmitKeepsUnwritten(keys, evals, n, entryFiles, errors, render, assets, name);
  }

  /** The hook never writes `_error.html`. */
  lemma EmitNeverWritesErrorHtml(keys: seq<string>, evals: seq<Result<JsValue>>, n: nat, entryFiles: seq<string>, errors: seq<int>,
                                 render: Renderer, assets: map<string, string>)
    requires n <= |keys| == |evals|
    ensures PageAssetName(ERROR_PAGE) in EmitAssets(keys, evals, n, entryFiles, errors, render, assets) <==>
      PageAssetName(ERROR_PAGE) in assets
    ensures PageAssetName(ERROR_PAGE) in assets ==>
      EmitAssets(keys, evals, n, entryFiles, errors, render, assets)[PageAssetName(ERROR_PAGE)] == assets[PageAssetName(ERROR_PAGE)]
  {
    forall page, factory
      ensures forall i :: 0 <= i < |PageWrites(page, factory, entryFiles, errors, render)| ==>
        PageWrites(page, factory, entryFiles, errors, render)[i].name != PageAssetName(ERROR_PAGE)
    {
      NoPageWritesErrorHtml(page, factory, entryFiles, errors, render);
    }
    EmitKeepsUnwritten(keys, evals, n, entryFiles, errors, render, assets, PageAssetName(ERROR_PAGE));
  }

  /** The hook never removes an asset: a name present after `m` pages is present after any later page. */
  lemma EmitKeepsName(keys: seq<string>, evals: seq<Result<JsValue>>, m: nat, n: nat, entryFiles: seq<string>, errors: seq<int>,
                      render: Renderer, assets: map<string, string>, name: string)
    requires m <= n <= |keys| == |evals|
    requires name in EmitAssets(keys, evals, m, entryFiles, errors, render, assets)
    ensures name in EmitAssets(keys, evals, n, entryFiles, errors, render, assets)
  {
    PagesKeepName(evals, WritesUpTo(keys, evals, |keys|, entryFiles, errors, render), m, n, assets, name);
  }

  /** Whatever the pages write, a name present after `m` pages is present after any later page. */
  lemma {:induction false} PagesKeepName(evals: seq<Result<JsValue>>, ws: seq<seq<Write>>, m: nat, n: nat, assets: map<string, string>, name: string)
    requires m <= n <= |evals| == |ws|
    requires name in ApplyPages(evals, ws, m, assets)
    ensures name in ApplyPages(evals, ws, n, assets)
    decreases n - m
  {
    if m < n {
      PagesKeepName(evals, ws, m, n - 1, assets, name);
      ApplyWritesKeeps(ApplyPages(evals, ws, n - 1, assets), ws[n - 1], name);
    }
  }

  /**
   * When no evaluation throws, every page's output names are present
   * afterwards: `<code>.html` for each code if it is the error page,
   * `<key>.html` otherwise.
   */
  lemma EmitWritesEveryPage(keys: seq<string>, evals: seq<Result<JsValue>>, n: nat, entryFiles: seq<string>, errors: seq<int>,
                            render: Renderer, assets: map<string, string>, i: nat)
    requires i < n <= |keys| == |evals|
    requires EmitError(evals, n).None?
    ensures evals[i].Ok?
    ensures PageKey(keys[i]) == ERROR_PAGE ==> forall c :: c in errors ==>
      CodeAssetName(c) in EmitAssets(keys, evals, n, entryFiles, errors, render, assets)
    ensures PageKey(keys[i]) != ERROR_PAGE ==>
      PageAssetName(PageKey(keys[i])) in EmitAssets(keys, evals, n, entryFiles, errors, render, assets)
  {
    EmitOkBefore(evals, i, n);
    if PageKey(keys[i]) == ERROR_PAGE {
      EmitWritesCodes(keys, evals, i, n, entryFiles, errors, render, assets);
    } else {
      EmitWritesName(keys, evals, i, n, entryFiles, errors, render, assets);
    }
  }

  /** The error page's code pages, written at step `i`, are there after step `n`. */
  lemma EmitWritesCodes(keys: seq<string>, evals: seq<Result<JsValue>>, i: nat, n: nat, entryFiles: seq<string>, errors: seq<int>,
                        render: Renderer, assets: map<string, string>)
    requires i < n <= |keys| == |evals|
    requires EmitError(evals, i).None? && evals[i].Ok?
    requires PageKey(keys[i]) == ERROR_PAGE
    ensures forall c :: c in errors ==> CodeAssetName(c) in EmitAssets(keys, evals, n, entryFiles, errors, render, assets)
  {
    EmitWritesPage(keys, evals, i, entryFiles, errors, render, assets);
    EmitKeepsCodes(keys, evals, i + 1, n, entryFiles, errors, render, assets);
  }

  /** Any other page's output, written at step `i`, is there after step `n`. */
  lemma EmitWritesName(keys: seq<string>, evals: seq<Result<JsValue>>, i: nat, n: nat, entryFiles: seq<string>, errors: seq<int>,
                       render: Renderer, assets: map<string, string>)
    requires i < n <= |keys| == |evals|
    requires EmitError(evals, i).None? && evals[i].Ok?
    requires PageKey(keys[i]) != ERROR_PAGE
    ensures PageAssetName(PageKey(keys[i])) in EmitAssets(keys, evals, n, entryFiles, errors, render, assets)
  {
    var name := PageAssetName(PageKey(keys[i]));
    EmitWritesPage(keys, evals, i, entryFiles, errors, render, assets);
    assert name in EmitAssets(keys, evals, i + 1, entryFiles, errors, render, assets);
    EmitKeepsName(keys, evals, i + 1, n, entryFiles, errors, render, assets, name);
  }

  /** The status-code pages, once all written, stay written. */
  lemma EmitKeepsCodes(keys: seq<string>, evals: seq<Result<JsValue>>, m: nat, n: nat, entryFiles: seq<string>, errors: seq<int>,
                       render: Renderer, assets: map<string, string>)
    requires m <= n <= |keys| == |evals|
    requires forall c :: c in errors ==> CodeAssetName(c) in EmitAssets(keys, evals, m, entryFiles, errors, render, assets)
    ensures forall c :: c in errors ==> CodeAssetName(c) in EmitAssets(keys, evals, n, entryFiles, errors, render, assets)
  {
    forall c | c in errors
      ensures CodeAssetName(c) in EmitAssets(keys, evals, n, entryFiles, errors, render, assets)
    {
      EmitKeepsName(keys, evals, m, n, entryFiles, errors, render, assets, CodeAssetName(c));
    }
  }

  /** When the first `n` evaluations do not throw, neither does any earlier one nor any shorter run. */
  lemma EmitOkBefore(evals: seq<Result<JsValue>>, i: nat, n: nat)
    requires i < n <= |evals|
    requires EmitError(evals, n).None?
    ensures EmitError(evals, i).None? && evals[i].Ok?
  {
    EmitSucceedsIff(evals, n);
    EmitSucceedsIff(evals, i);
  }

  /** A page evaluated without a throw, with no throw before it, writes its output names. */
  lemma EmitWritesPage(keys: seq<string>, evals: seq<Result<JsValue>>, i: nat, entryFiles: seq<string>, errors: seq<int>,
                       render: Renderer, assets: map<string, string>)
    requires i < |keys| == |evals|
    requires EmitError(evals, i).None? && evals[i].Ok?
    ensures PageKey(keys[i]) == ERROR_PAGE ==> forall c :: c in errors ==>
      CodeAssetName(c) in EmitAssets(keys, evals, i + 1, entryFiles, errors, render, assets)
    ensures PageKey(keys[i]) != ERROR_PAGE ==>
      PageAssetName(PageKey(keys[i])) in EmitAssets(keys, evals, i + 1, entryFiles, errors, render, assets)
  {
    EmitAdvance(keys, evals, i, entryFiles, errors, render, assets);
    PageWritesOutcome(EmitAssets(keys, evals, i, entryFiles, errors, render, assets), keys[i], evals[i].value, entryFiles, errors, render);
    if PageKey(keys[i]) == ERROR_PAGE {
      forall c | c in errors
        ensures CodeAssetName(c) in EmitAssets(keys, evals, i + 1, entryFiles, errors, render, assets)
      {
        var j :| 0 <= j < |errors| && errors[j] == c;
      }
    }
  }

  /**
   * The writes of one evaluated page into the host's asset map: the inner
   * `asyncFor` over the codes for the error page, one assignment otherwise.
   */
  method WritePage(host: Host.Compilation, page: string, factory: JsValue, entryFiles: seq<string>, errors: seq<int>, render: Renderer)
    modifies host
    ensures host.assets == ApplyWrites(old(host.assets), PageWrites(page, factory, entryFiles, errors, render))
  {
    var key := PageKey(page);
    ghost var writes := PageWrites(page, factory, entryFiles, errors, render);
    if key == ERROR_PAGE {
      var j := 0;
      while j < |errors|
        invariant 0 <= j <= |errors|
        invariant host.assets == ApplyWrites(old(host.assets), writes[..j])
      {
        var code := errors[j];
        var props := ErrorProps(true, code, StatusText(code));
        assert writes[..j + 1][..j] == writes[..j];
        CodeWritesAt(factory, entryFiles, errors, render, j);
        host.assets := host.assets[CodeAssetName(code) := render(factory, entryFiles, props)];
        j := j + 1;
      }
      assert writes[..j] == writes;
    } else {
      var props := PageProps(true, page);
      host.assets := host.assets[PageAssetName(key) := render(factory, entryFiles, props)];
      assert writes[..0] == [];
    }
  }

  /**
   * The `asyncFor` over the page keys in the `emit` hook, with the loop of
   * `Utils.AsyncFor` written out (`EmitIsAsyncFor` ties the two): evaluate
   * each page, then write its assets into the host's asset map; the first
   * evaluation failure rejects and ends the loop, leaving the earlier
   * writes in place.
   */
  method EmitPages(host: Host.Compilation, pages: Dict<ChildCompiler.CompiledPage>, entryFiles: seq<string>, errors: seq<int>,
                   run: string -> Result<JsValue>, render: Renderer) returns (error: Option<string>)
    requires Valid(pages)
    modifies host
    ensures host.assets == EmitAssets(pages.keys, Evaluations(pages, run), |pages.keys|, entryFiles, errors, render, old(host.assets))
    ensures error == EmitError(Evaluations(pages, run), |pages.keys|)
  {
    var keys := pages.keys;
    ghost var evals := Evaluations(pages, run);
    var i := 0;
    while i < |keys|
      invariant 0 <= i <= |keys|
      invariant EmitError(evals, i).None?
      invariant host.assets == EmitAssets(keys, evals, i, entryFiles, errors, render, old(host.assets))
    {
      var page := keys[i];
      EvaluationAt(pages, run, i);
      var factory := EvaluateCompilationResult(Some(pages.entries[page].content), run);
      EmitAdvance(keys, evals, i, entryFiles, errors, render, old(host.assets));
      if factory.Err? {
        EmitStaysFailed(keys, evals, i + 1, |keys|, entryFiles, errors, render, old(host.assets));
        return Some(factory.error);
      }
      WritePage(host, page, factory.value, entryFiles, errors, render);
      i := i + 1;
    }
    error := None;
  }
}
