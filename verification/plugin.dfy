/**
 * The plugin object: its options with their defaults, the pages directory
 * fixed when it is applied, the compiled pages the `make` hook stores and
 * the `emit` hook reads.
 */
module Plugin {
  import opened Wrappers
  import opened Seqs
  import opened Text
  import opened JsObject
  import opened Evaluate
  import Host
  import Utils
  import Discovery
  import ChildCompiler
  import Emit
  import Document

  /** The options object; an absent property is `None`. */
  datatype Options = Options(errors: Option<seq<int>>, inputDir: Option<string>, outputDir: Option<string>)

  /** The status codes whose error pages are rendered by default. */
  const DEFAULT_ERRORS: seq<int> := [400, 404, 500]

  /** The pages directory, relative to the compiler's context, by default. */
  const DEFAULT_INPUT_DIR := "src/pages"

  /**
   * `opts.errors || [400, 404, 500]`: an array is truthy even when empty, so
   * only an absent list is replaced.
   */
  function ErrorCodes(opts: Options): (codes: seq<int>)
    ensures opts.errors.Some? ==> codes == opts.errors.value
    ensures opts.errors.None? ==> codes == DEFAULT_ERRORS
  {
    if opts.errors.Some? then opts.errors.value else DEFAULT_ERRORS
  }

  /** `path.resolve(context, dir)`: an absolute `dir` stands alone, a relative one is put under `context`. */
  function ResolvePath(context: string, dir: string): (p: string)
    ensures StartsWith(dir, "/") ==> p == dir
    ensures !StartsWith(dir, "/") ==> StartsWith(p, context + "/") && p[|context| + 1..] == dir
  {
    if StartsWith(dir, "/") then dir else context + "/" + dir
  }

  /** `path.resolve(compiler.context, this.inputDir || 'src/pages')` */
  function PagesPath(context: string, inputDir: Option<string>): (p: string)
    ensures inputDir.None? || inputDir.value == "" ==> p == context + "/" + DEFAULT_INPUT_DIR
  {
    assert DEFAULT_INPUT_DIR[0] != '/';
    ResolvePath(context, if inputDir.Some? && inputDir.value != "" then inputDir.value else DEFAULT_INPUT_DIR)
  }

  /**
   * How the promise a hook returns to webpack ends: it resolves, it rejects
   * with an error, or it never settles because an exception escaped a
   * callback that was meant to settle it.
   */
  datatype HookEnd = Resolves | Rejects(error: string) | NeverSettles(exception: string)

  /** `new StaticPages(opts)` and the state its `apply` sets up for its hooks. */
  class StaticPages {
    var errors: seq<int>
    var inputDir: Option<string>
    var outputDir: Option<string>

    /** The directory pages are read from, fixed by `apply`. */
    var pagesPath: string

    /** The compiled pages by page name, written by the `make` hook and read by the `emit` hook. */
    var pages: Dict<ChildCompiler.CompiledPage>

    ghost predicate Valid()
      reads this
    {
      JsObject.Valid(pages)
    }

    constructor (opts: Options)
      ensures Valid()
      ensures errors == ErrorCodes(opts)
      ensures inputDir == opts.inputDir && outputDir == opts.outputDir
      ensures pages == Empty() && pagesPath == ""
    {
      errors := ErrorCodes(opts);
      inputDir := opts.inputDir;
      outputDir := opts.outputDir;
      pagesPath := "";
      pages := Empty();
    }

    /** `apply(compiler)`: fixes the pages directory and starts from no compiled pages. */
    method Apply(context: string)
      modifies this
      ensures Valid()
      ensures pagesPath == PagesPath(context, inputDir)
      ensures pages == Empty()
      ensures errors == old(errors) && inputDir == old(inputDir) && outputDir == old(outputDir)
    {
      pagesPath := PagesPath(context, inputDir);
      pages := Empty();
    }

    /**
     * The `make` hook: collect the page files under the pages directory
     * (`listing` is what the file system holds there), name an entrypoint
     * per page, compile them as a child compilation and keep the results.
     * A rejection, or a child compilation that never settles, leaves the
     * stored pages as they were.
     */
    method OnMake(host: Host.Compilation, listing: Result<seq<Discovery.Node>>, manifest: Option<Utils.Manifest>, child: ChildCompiler.ChildRun)
      returns (config: Option<ChildCompiler.ChildConfig>, end: HookEnd)
      requires Valid()
      modifies this, host
      ensures Valid()
      ensures errors == old(errors) && inputDir == old(inputDir) && outputDir == old(outputDir) && pagesPath == old(pagesPath)
      ensures listing.Err? ==> end == Rejects(listing.error) && config.None? && pages == old(pages) && host.assets == old(host.assets)
      ensures listing.Ok? ==> host.assets == ChildCompiler.AssetsAfter(child, old(host.assets))
      ensures listing.Ok? ==>
        var names := Dedup(Discovery.PageNames(Discovery.CollectPages(pagesPath, listing).value));
        config.Some? && |config.value.entries| == |names| &&
        forall i :: 0 <= i < |names| ==> config.value.entries[i] == (ChildCompiler.EntryName(i), JoinPath(pagesPath, names[i]))
      ensures listing.Ok? ==>
        var result := ChildCompiler.ChildPages(Dedup(Discovery.PageNames(Discovery.CollectPages(pagesPath, listing).value)), child);
        (result.Rejected? ==> end == Rejects(result.error) && pages == old(pages)) &&
        (result.Thrown? ==> end == NeverSettles(result.exception) && pages == old(pages)) &&
        (result.Resolved? ==> end == Resolves && pages == result.results)
    {
      var paths := Discovery.CollectPages(pagesPath, listing);
      if paths.Err? {
        return None, Rejects(paths.error);
      }
      var entrypoints := Discovery.BuildEntrypoints(pagesPath, paths.value);
      var childConfig, compiled := ChildCompiler.CompilePages(host, entrypoints, manifest, child);
      forall i | 0 <= i < |entrypoints.keys|
        ensures childConfig.entries[i] == (ChildCompiler.EntryName(i), JoinPath(pagesPath, entrypoints.keys[i]))
      {
        assert entrypoints.keys[i] in entrypoints.entries;
      }
      config := Some(childConfig);
      match compiled
      case Rejected(e) => end := Rejects(e);
      case Thrown(x) => end := NeverSettles(x);
      case Resolved(results) =>
        pages := results;
        end := Resolves;
    }

    /**
     * The `emit` hook: collect the entry files of the initial chunk groups,
     * then evaluate and render every compiled page into the host's assets.
     */
    method OnEmit(host: Host.Compilation, groups: seq<Emit.ChunkGroup>, run: string -> Result<JsValue>, render: Emit.Renderer)
      returns (error: Option<string>)
      requires Valid()
      modifies host
      ensures host.assets == Emit.EmitAssets(pages.keys, Emit.Evaluations(pages, run), |pages.keys|, Emit.EntryFiles(groups), errors, render, old(host.assets))
      ensures error == Emit.EmitError(Emit.Evaluations(pages, run), |pages.keys|)
    {
      var entryFiles := Emit.CollectEntryFiles(groups);
      error := Emit.EmitPages(host, pages, entryFiles, errors, run, render);
    }
  }

  /**
   * The entry files the `emit` hook hands to the document all become
   * scripts: none of their slots is `null`, and the scripts list them in
   * order.
   */
  lemma EntryFilesAllBecomeScripts(groups: seq<Emit.ChunkGroup>, props: Document.DocumentProps,
                                   encodeUri: string -> string, join: (string, string) -> string)
    requires props.files == Some(Emit.EntryFiles(groups)) && Emit.EntryFiles(groups) != []
    ensures Document.RenderScripts(props, encodeUri, join).Some?
    ensures forall i :: 0 <= i < |Emit.EntryFiles(groups)| ==> Document.RenderScripts(props, encodeUri, join).value[i].Some?
    ensures Document.Keys(Document.Present(Document.RenderScripts(props, encodeUri, join).value)) == Emit.EntryFiles(groups)
  {
    Emit.EntryFilesAreJs(groups);
    Document.AllJsFilesRendered(props, encodeUri, join);
  }
}
