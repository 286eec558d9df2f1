/**
 * The child compilation driver: entry naming, the helper assets the child
 * compilation emits, `extract`, the aggregated failure message and the
 * assembly of the per-page results inside the `runAsChild` callback.
 */
module ChildCompiler {
  import opened Wrappers
  import opened Seqs
  import opened Text
  import opened JsObject
  import Host
  import Utils

  /** The output filename template of the child compilation. */
  const OUTPUT_FILENAME := "__child-[name]"

  /** Name under which the page with key index `i` is registered as an entry: `static-${i}`. */
  function EntryName(i: nat): string
  {
    "static-" + NatToString(i)
  }

  /** The template `__child-[name]` expanded for the `i`-th entry, whose name is `static-${i}`. */
  function HelperAssetName(i: nat): string
  {
    "__child-" + EntryName(i)
  }

  /** Different entries have different helper assets. */
  lemma HelperAssetNameInjective(i: nat, j: nat)
    requires HelperAssetName(i) == HelperAssetName(j)
    ensures i == j
  {
    var prefix := "__child-static-";
    assert HelperAssetName(i) == prefix + NatToString(i);
    assert HelperAssetName(j) == prefix + NatToString(j);
    assert NatToString(i) == HelperAssetName(i)[|prefix|..];
    assert NatToString(j) == HelperAssetName(j)[|prefix|..];
    ParseNatToString(i);
    ParseNatToString(j);
  }

  /** The helper asset names of the first `n` entries. */
  function HelperAssets(n: nat): set<string>
  {
    set i | 0 <= i < n :: HelperAssetName(i)
  }

  /** The TypeError thrown when a helper asset is missing from the child's assets. */
  const MISSING_SOURCE := "TypeError: Cannot read property 'source' of undefined"

  /**
   * `extract(entries, compilation, childCompilation)`: deletes the helper
   * asset of every entry from the host's asset map, then reads each helper
   * asset's source from the child's asset map, in entry order. Reading a
   * helper asset the child did not produce throws, after the deletions.
   */
  method Extract(entries: seq<string>, host: Host.Compilation, childAssets: map<string, string>)
    returns (sources: Result<seq<string>>)
    modifies host
    ensures host.assets == old(host.assets) - HelperAssets(|entries|)
    ensures sources.Err? ==> sources.error == MISSING_SOURCE
    ensures sources.Ok? <==> forall i :: 0 <= i < |entries| ==> HelperAssetName(i) in childAssets
    ensures sources.Ok? ==>
      |sources.value| == |entries| &&
      forall i :: 0 <= i < |entries| ==> sources.value[i] == childAssets[HelperAssetName(i)]
  {
    var helperAssets := seq(|entries|, i requires 0 <= i < |entries| => HelperAssetName(i));
    var i := 0;
    while i < |helperAssets|
      invariant 0 <= i <= |helperAssets|
      invariant host.assets == old(host.assets) - HelperAssets(i)
    {
      assert HelperAssets(i + 1) == HelperAssets(i) + {helperAssets[i]};
      host.assets := host.assets - {helperAssets[i]};
      i := i + 1;
    }
    var read: seq<string> := [];
    i := 0;
    while i < |helperAssets|
      invariant 0 <= i <= |helperAssets|
      invariant |read| == i
      invariant forall j :: 0 <= j < i ==>
        HelperAssetName(j) in childAssets && read[j] == childAssets[HelperAssetName(j)]
    {
      if helperAssets[i] !in childAssets {
        sources := Err(MISSING_SOURCE);
        return;
      }
      read := read + [childAssets[helperAssets[i]]];
      i := i + 1;
    }
    sources := Ok(read);
  }

  /** One error recorded by the child compilation: its message and, if present, its cause. */
  datatype ChildError = ChildError(message: string, error: Option<string>)

  /** `e.message + (e.error ? ':\n' + e.error : '')` */
  function ErrorDetails(e: ChildError): string
  {
    e.message + (if e.error.Some? then ":\n" + e.error.value else "")
  }

  const FAILURE_PREFIX := "Child compilation failed:\n"

  /** The message of the rejection when the child compilation recorded errors. */
  function FailureMessage(errors: seq<ChildError>): string
  {
    FAILURE_PREFIX + JoinWith(seq(|errors|, i requires 0 <= i < |errors| => ErrorDetails(errors[i])), "\n")
  }

  /**
   * The failure message begins with the fixed prefix and then lists the
   * details of every error in order, separated by newlines: the details of
   * error `i` start right after the prefix and the details of the errors
   * before it, each followed by one newline.
   */
  lemma FailureMessageListsErrors(errors: seq<ChildError>, i: nat)
    requires i < |errors|
    ensures StartsWith(FailureMessage(errors), FAILURE_PREFIX)
    ensures var details := seq(|errors|, k requires 0 <= k < |errors| => ErrorDetails(errors[k]));
      OccursAt(FailureMessage(errors), ErrorDetails(errors[i]), |FAILURE_PREFIX| + PartOffset(details, "\n", i))
    ensures var details := seq(|errors|, k requires 0 <= k < |errors| => ErrorDetails(errors[k]));
      i + 1 < |errors| ==>
        OccursAt(FailureMessage(errors), "\n", |FAILURE_PREFIX| + PartOffset(details, "\n", i) + |ErrorDetails(errors[i])|)
  {
    var details := seq(|errors|, k requires 0 <= k < |errors| => ErrorDetails(errors[k]));
    var joined := JoinWith(details, "\n");
    assert FailureMessage(errors) == FAILURE_PREFIX + joined;
    OccursAtFront(FAILURE_PREFIX, joined);
    JoinWithLayout(details, "\n", i);
    OccursAtShift(FAILURE_PREFIX, joined, details[i], PartOffset(details, "\n", i));
    if i + 1 < |errors| {
      OccursAtShift(FAILURE_PREFIX, joined, "\n", PartOffset(details, "\n", i) + |details[i]|);
    }
  }

  /** What the child compilation's `runAsChild` callback receives. */
  datatype ChildRun = ChildRun(
    err: Option<string>,            // the transport error passed to the callback
    errors: seq<ChildError>,        // childCompilation.errors
    entries: Option<seq<string>>,   // the entry chunks, None when falsy
    assets: map<string, string>,    // childCompilation.assets, as source text
    hash: string,                   // childCompilation.hash
    fileDependencies: seq<string>)  // childCompilation.fileDependencies

  /** What is stored for each compiled page. */
  datatype CompiledPage = CompiledPage(hash: string, entry: string, content: string)

  /** `keys[i]`, which reads `undefined` (the key "undefined") past the end. */
  function KeyAt(keys: seq<string>, i: nat): string
  {
    if i < |keys| then keys[i] else "undefined"
  }

  /** The results object after the first `n` pages have been stored. */
  function Assembled(keys: seq<string>, entries: seq<string>, pages: seq<string>, hash: string, n: nat): Dict<CompiledPage>
    requires n <= |pages| <= |entries|
  {
    if n == 0 then Empty()
    else Put(Assembled(keys, entries, pages, hash, n - 1), KeyAt(keys, n - 1),
             CompiledPage(hash, entries[n - 1], pages[n - 1]))
  }

  /** The results object stays valid whatever the keys are, repeats and missing keys included. */
  lemma {:induction false} AssembledValid(keys: seq<string>, entries: seq<string>, pages: seq<string>, hash: string, n: nat)
    requires n <= |pages| <= |entries|
    ensures Valid(Assembled(keys, entries, pages, hash, n))
  {
    if n > 0 {
      var prev := Assembled(keys, entries, pages, hash, n - 1);
      AssembledValid(keys, entries, pages, hash, n - 1);
      assert Valid(prev);
      PutValid(prev, KeyAt(keys, n - 1), CompiledPage(hash, entries[n - 1], pages[n - 1]));
    }
  }

  /** One more page adds its key and value to the results so far. */
  lemma AssembledStep(keys: seq<string>, entries: seq<string>, pages: seq<string>, hash: string, n: nat)
    requires n < |pages| <= |entries|
    ensures Assembled(keys, entries, pages, hash, n + 1) ==
      Put(Assembled(keys, entries, pages, hash, n), KeyAt(keys, n), CompiledPage(hash, entries[n], pages[n]))
  {
  }

  /** Storing page `n` into the results after `n` pages gives the results after `n + 1`. */
  lemma AssembledNext(keys: seq<string>, entries: seq<string>, pages: seq<string>, hash: string, n: nat, results: Dict<CompiledPage>)
    requires n < |pages| <= |entries| && results == Assembled(keys, entries, pages, hash, n)
    ensures Put(results, KeyAt(keys, n), CompiledPage(hash, entries[n], pages[n])) == Assembled(keys, entries, pages, hash, n + 1)
  {
    AssembledStep(keys, entries, pages, hash, n);
  }

  /**
   * The loop `results[keys[i]] = {hash, entry: entries[i], content: source}`
   * over the extracted sources.
   */
  method AssembleResults(keys: seq<string>, entries: seq<string>, pages: seq<string>, hash: string)
    returns (results: Dict<CompiledPage>)
    requires |pages| <= |entries|
    ensures results == Assembled(keys, entries, pages, hash, |pages|)
  {
    results := Empty();
    for i := 0 to |pages|
      invariant results == Assembled(keys, entries, pages, hash, i)
    {
      AssembledNext(keys, entries, pages, hash, i, results);
      results := Put(results, KeyAt(keys, i), CompiledPage(hash, entries[i], pages[i]));
    }
  }

  /**
   * With distinct keys, at least one per page, the results list the first
   * keys in order and map the `i`-th key to the `i`-th entry and source,
   * all with the same hash.
   */
  lemma {:induction false} AssembledByIndex(keys: seq<string>, entries: seq<string>, pages: seq<string>, hash: string, n: nat)
    requires n <= |pages| <= |entries| && n <= |keys| && Distinct(keys)
    ensures Assembled(keys, entries, pages, hash, n).keys == keys[..n]
  {
    if n > 0 {
      AssembledByIndex(keys, entries, pages, hash, n - 1);
      LastNotInPrefix(keys, n);
      AssembledFresh(keys, entries, pages, hash, n - 1);
    }
  }

  /** With distinct keys, the `i`-th key holds the `i`-th entry and source. */
  lemma {:induction false} AssembledEntries(keys: seq<string>, entries: seq<string>, pages: seq<string>, hash: string, n: nat, i: nat)
    requires n <= |pages| <= |entries| && n <= |keys| && Distinct(keys) && i < n
    ensures keys[i] in Assembled(keys, entries, pages, hash, n).entries
    ensures Assembled(keys, entries, pages, hash, n).entries[keys[i]] == CompiledPage(hash, entries[i], pages[i])
  {
    if i == n - 1 {
      AssembledStoresLast(keys, entries, pages, hash, i);
    } else {
      AssembledEntries(keys, entries, pages, hash, n - 1, i);
      AssembledKeepsOther(keys, entries, pages, hash, n - 1, keys[i]);
    }
  }

  /** The page just stored is found under its key. */
  lemma AssembledStoresLast(keys: seq<string>, entries: seq<string>, pages: seq<string>, hash: string, n: nat)
    requires n < |pages| <= |entries| && n < |keys|
    ensures keys[n] in Assembled(keys, entries, pages, hash, n + 1).entries &&
      Assembled(keys, entries, pages, hash, n + 1).entries[keys[n]] == CompiledPage(hash, entries[n], pages[n])
  {
    AssembledStep(keys, entries, pages, hash, n);
  }

  /** Storing the next page leaves every other key as it was. */
  lemma AssembledKeepsOther(keys: seq<string>, entries: seq<string>, pages: seq<string>, hash: string, n: nat, k: string)
    requires n < |pages| <= |entries| && n < |keys|
    requires k != keys[n] && k in Assembled(keys, entries, pages, hash, n).entries
    ensures k in Assembled(keys, entries, pages, hash, n + 1).entries &&
      Assembled(keys, entries, pages, hash, n + 1).entries[k] == Assembled(keys, entries, pages, hash, n).entries[k]
  {
    AssembledStep(keys, entries, pages, hash, n);
  }

  /** Storing the next page under a key not listed yet appends that key. */
  lemma AssembledFresh(keys: seq<string>, entries: seq<string>, pages: seq<string>, hash: string, n: nat)
    requires n < |pages| <= |entries| && n < |keys|
    requires Assembled(keys, entries, pages, hash, n).keys == keys[..n]
    requires keys[n] !in keys[..n]
    ensures Assembled(keys, entries, pages, hash, n + 1).keys == keys[..n + 1]
  {
    var prev := Assembled(keys, entries, pages, hash, n);
    AssembledValid(keys, entries, pages, hash, n);
    assert keys[n] !in prev.entries;
    assert keys[..n + 1] == keys[..n] + [keys[n]];
  }

  /** In a sequence without duplicates, an element does not occur before its position. */
  lemma LastNotInPrefix(keys: seq<string>, n: nat)
    requires 0 < n <= |keys| && Distinct(keys)
    ensures keys[n - 1] !in keys[..n - 1]
  {
    forall j | 0 <= j < n - 1
      ensures keys[j] != keys[n - 1]
    {
    }
  }

  /** Why the callback rejects, if it does: the transport error first, then recorded errors. */
  function Rejection(run: ChildRun): Option<string>
  {
    if run.err.Some? then Some(run.err.value)
    else if |run.errors| > 0 then Some(FailureMessage(run.errors))
    else None
  }

  /** The helper sources, read positionally from the child's asset map. */
  function HelperSources(n: nat, assets: map<string, string>): seq<string>
    requires forall i :: 0 <= i < n ==> HelperAssetName(i) in assets
  {
    seq(n, i requires 0 <= i < n => assets[HelperAssetName(i)])
  }

  /**
   * How the promise of `compilePages` ends. It resolves with the results or
   * rejects with an error only through `res`/`rej` in the callback. An
   * exception thrown by the callback itself is raised after the promise's
   * executor has returned, so the promise never settles and the exception
   * goes to `runAsChild`'s caller.
   */
  datatype Settlement = Resolved(results: Dict<CompiledPage>) | Rejected(error: string) | Thrown(exception: string)

  /** How the promise of `compilePages` ends, given the callback's arguments. */
  function ChildPages(keys: seq<string>, run: ChildRun): (r: Settlement)
    ensures r.Resolved? ==> Valid(r.results)
    ensures r.Resolved? <==> (Rejection(run).None? &&
      (run.entries.Some? ==> forall i :: 0 <= i < |run.entries.value| ==> HelperAssetName(i) in run.assets))
    ensures r.Rejected? <==> Rejection(run).Some?
    ensures r.Thrown? ==> r.exception == MISSING_SOURCE
  {
    if Rejection(run).Some? then Rejected(Rejection(run).value)
    else if run.entries.None? then Resolved(Empty())
    else
      var entries := run.entries.value;
      if forall i :: 0 <= i < |entries| ==> HelperAssetName(i) in run.assets then
        AssembledValid(keys, entries, HelperSources(|entries|, run.assets), run.hash, |entries|);
        Resolved(Assembled(keys, entries, HelperSources(|entries|, run.assets), run.hash, |entries|))
      else Thrown(MISSING_SOURCE)
  }

  /** The host's asset map after the callback: helper assets are deleted only when nothing was rejected. */
  function AssetsAfter(run: ChildRun, assets: map<string, string>): map<string, string>
  {
    if Rejection(run).Some? || run.entries.None? then assets
    else assets - HelperAssets(|run.entries.value|)
  }

  /**
   * On any rejection the promise rejects with it and produces no results;
   * with no entries the results are empty.
   */
  lemma ChildPagesRejects(keys: seq<string>, run: ChildRun)
    ensures run.err.Some? ==> ChildPages(keys, run) == Rejected(run.err.value)
    ensures run.err.None? && |run.errors| > 0 ==> ChildPages(keys, run) == Rejected(FailureMessage(run.errors))
    ensures Rejection(run).None? && run.entries.None? ==> ChildPages(keys, run) == Resolved(Empty())
  {
  }

  /**
   * On success, with one distinct key per entry, the results have exactly
   * the keys, in order, and the `i`-th key holds the child's hash, the
   * `i`-th entry and the `i`-th helper asset's source.
   */
  lemma ChildPagesOnSuccess(keys: seq<string>, run: ChildRun)
    requires Rejection(run).None? && run.entries.Some?
    requires |run.entries.value| == |keys| && Distinct(keys)
    requires ChildPages(keys, run).Resolved?
    ensures ChildPages(keys, run).results.keys == keys
    ensures forall i :: 0 <= i < |keys| ==>
      ChildPages(keys, run).results.entries[keys[i]] ==
        CompiledPage(run.hash, run.entries.value[i], run.assets[HelperAssetName(i)])
  {
    var entries := run.entries.value;
    var sources := HelperSources(|entries|, run.assets);
    AssembledByIndex(keys, entries, sources, run.hash, |entries|);
    assert keys[..|keys|] == keys;
    forall i | 0 <= i < |keys|
      ensures ChildPages(keys, run).results.entries[keys[i]] ==
        CompiledPage(run.hash, entries[i], run.assets[HelperAssetName(i)])
    {
      AssembledEntries(keys, entries, sources, run.hash, |entries|, i);
    }
  }

  /**
   * The `runAsChild` callback: reject with the transport error; else reject
   * with the aggregated message if errors were recorded; else extract the
   * helper sources (deleting them from the host) and assemble the results.
   * A missing helper asset makes the callback throw, leaving the promise
   * unsettled. The file dependencies are read but not used.
   */
  method OnChildCompiled(keys: seq<string>, host: Host.Compilation, run: ChildRun)
    returns (r: Settlement)
    modifies host
    ensures r == ChildPages(keys, run)
    ensures host.assets == AssetsAfter(run, old(host.assets))
  {
    if run.err.Some? {
      return Rejected(run.err.value);
    }
    if |run.errors| > 0 {
      return Rejected(FailureMessage(run.errors));
    }
    if run.entries.None? {
      return Resolved(Empty());
    }
    var entries := run.entries.value;
    var pages := Extract(entries, host, run.assets);
    if pages.Err? {
      return Thrown(pages.error);
    }
    assert pages.value == HelperSources(|entries|, run.assets);
    var results := AssembleResults(keys, entries, pages.value, run.hash);
    r := Resolved(results);
  }

  /** The parts of the child compiler's configuration the plugin decides. */
  datatype ChildConfig = ChildConfig(
    filename: string,                 // output.filename
    externals: seq<string>,           // module names left to `require` at run time
    entries: seq<(string, string)>)   // (entry name, entry path), one per page key

  /**
   * `compilePages(compilation, pages)`: configures the child compiler with
   * the externals from `getModules` and one entry `static-${i}` per page
   * key in `Object.keys` order, then handles what `runAsChild` reports.
   */
  method CompilePages(host: Host.Compilation, pages: Dict<string>, manifest: Option<Utils.Manifest>, run: ChildRun)
    returns (config: ChildConfig, r: Settlement)
    requires Valid(pages)
    modifies host
    ensures config.filename == OUTPUT_FILENAME
    ensures manifest.None? ==> config.externals == []
    ensures manifest.Some? ==> config.externals == Dedup(Utils.DeclaredNames(manifest.value, Utils.SECTIONS))
    ensures |config.entries| == |pages.keys|
    ensures forall i :: 0 <= i < |pages.keys| ==>
      config.entries[i] == (EntryName(i), pages.entries[pages.keys[i]])
    ensures r == ChildPages(pages.keys, run)
    ensures host.assets == AssetsAfter(run, old(host.assets))
  {
    var externals := Utils.GetModules(manifest);
    var registered := RegisterEntries(pages);
    config := ChildConfig(OUTPUT_FILENAME, externals, registered);
    r := OnChildCompiled(pages.keys, host, run);
  }

  /** One `SingleEntryPlugin` per page key, in key order, named `static-${i}`. */
  method RegisterEntries(pages: Dict<string>) returns (registered: seq<(string, string)>)
    requires Valid(pages)
    ensures |registered| == |pages.keys|
    ensures forall i :: 0 <= i < |pages.keys| ==>
      registered[i] == (EntryName(i), pages.entries[pages.keys[i]])
  {
    var keys := pages.keys;
    registered := [];
    var i := 0;
    while i < |keys|
      invariant 0 <= i <= |keys|
      invariant |registered| == i
      invariant forall j :: 0 <= j < i ==> registered[j] == (EntryName(j), pages.entries[keys[j]])
    {
      registered := registered + [(EntryName(i), pages.entries[keys[i]])];
      i := i + 1;
    }
  }
}
