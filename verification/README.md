# staticpages-webpack-plugin, modelled in Dafny

The plugin renders static HTML pages while webpack builds. In the `make`
phase it walks a pages directory and keeps the files that end in `.js`,
`.ts`, `.jsx` or `.tsx`. It names one entrypoint per page and compiles the
pages in a child compilation, with one entry `static-<i>` per page. It then
takes the compiled sources out of the host compilation's assets. In the
`emit` phase it collects the `.js` files of the initial chunk groups. It
evaluates each compiled page and writes one `<name>.html` asset per page
into the host's asset map. The special page `_error` is instead written
once per configured status code, as `<code>.html`. A small document shell
chooses the root element and the `<script>` tags of a page.

The model keeps that decision logic and abstracts the plumbing:

- webpack, the file system and `vm` become plain inputs;
- the host compilation's asset map is a class whose `map` field the
  methods update in place;
- sequential loops stay loops, each proved against a specification
  function;
- expression code becomes functions with lemmas about them.

Modules, one per file:

| file | module | models |
|---|---|---|
| `wrappers.dfy` | `Wrappers` | `Option` and `Result` |
| `seqs.dfy` | `Seqs` | distinctness, first-seen de-duplication (a `Set` spread into an array), `Array.prototype.filter` |
| `text.dfy` | `Text` | prefix and suffix tests, `indexOf`/`replace` with a string pattern, decimal printing of numbers, `Array.prototype.join`, the `path.join` of a directory and a page name |
| `sorting.dfy` | `Sorting` | the default `Array.prototype.sort` order on strings and a sort that realises it |
| `jsobject.dfy` | `JsObject` | a plain object used as a dictionary, with `Object.keys` insertion order |
| `utils.dfy` | `Utils` | `asyncFor`, `asyncMap`, `parallelFor`, `parallelMap`, `getModules` |
| `discovery.dfy` | `Discovery` | `EXT_REG`, `readDirRecursive`, `collectPages`, page names and entrypoints |
| `evaluate.dfy` | `Evaluate` | `evaluateCompilationResult`: the empty-source guard and the default-export unwrap |
| `host.dfy` | `Host` | the host compilation's asset map |
| `child_compiler.dfy` | `ChildCompiler` | `extract`, entry naming, error aggregation and the results of `compilePages` |
| `emit.dfy` | `Emit` | entry-file collection, output keys, the `_error` fan-out and the writes of the `emit` hook |
| `document.dfy` | `Document` | `renderRoot` and `renderScripts` |
| `plugin.dfy` | `Plugin` | the `StaticPages` object: option defaults, `apply` and its two hooks |

Three behaviours of the code worth noting:

- An ordinary page is rendered with its page name as the `url` prop, with
  the leading slash kept (`/index`, not `index`). Only the asset key loses
  the slash (`src/index.ts:151`).
- The child compilation's file dependencies are read but never used
  (`src/compiler.ts:97`).
- When evaluating a page fails during `emit`, the pages written before it
  stay in the asset map, because `asyncFor` works one page at a time
  (`src/index.ts:133`).

Apart from what "## Left out" lists, the model departs from the code in one
place. The `emit` hook evaluates pages with the corrected unwrap described
under "## Findings", which returns a `null` script value instead of throwing.
`Evaluate.EvaluateAsWritten` is the evaluation as written, and
`Evaluate.EvaluateAsWrittenDiffersOnlyOnNull` proves that the two differ on
that input alone.

## Model

| member | source | states |
|---|---|---|
| Seqs.Dedup | src/utils.ts:74-79 | The result has no duplicates, and it holds exactly the elements of the input. |
| Seqs.DedupFirstSeen | src/utils.ts:74-79 | The de-duplicated list keeps first-seen order: an earlier element was first seen earlier in the input. |
| Seqs.Filter | src/index.ts:161 | Only elements that pass the test are kept, every element that passes is kept, and the result is no longer than the input. |
| Seqs.FilterAppend | src/index.ts:161 | Filtering a concatenation filters each part in place, so input order is preserved. |
| Seqs.FilterLength | src/index.ts:161 | The filtered list has one element per passing input element. |
| Text.IndexOfFrom | src/index.ts:162 | Finds the first occurrence of the pattern at or after the start index, or reports that there is none. |
| Text.RemoveFirst | src/index.ts:162 | `replace` with a string pattern: the result is unchanged when the pattern is absent; otherwise the input is the result with the pattern put back at its first occurrence. |
| Text.RemoveFirstOfPrefix | src/index.ts:162 | Removing a pattern that starts the string leaves exactly the rest. |
| Text.NatToStringDigits | src/compiler.ts:48 | The decimal text of a number is non-empty and made of digits. |
| Text.ParseNatToString | src/compiler.ts:48 | Round trip: parsing the decimal text of `n` gives back `n`. |
| Text.IntToStringLead | src/index.ts:145 | The text of a status code is non-empty and starts with a digit or a minus sign, and with the minus sign exactly when the code is negative. |
| Text.IntToStringInjective | src/index.ts:145 | Different codes print differently. |
| Text.JoinWithLayout | src/compiler.ts:92 | In `parts.join(sep)`, part `i` sits at its offset, followed by the separator unless it is the last part. |
| Text.JoinPath | src/index.ts:99 | The joined path lies beneath the directory. |
| Sorting.BelowReflexive | src/index.ts:183 | The default sort order is reflexive. |
| Sorting.BelowTotal | src/index.ts:183 | Any two strings are comparable. |
| Sorting.BelowAntisymmetric | src/index.ts:183 | Strings below each other are equal. |
| Sorting.BelowTransitive | src/index.ts:183 | The order is transitive. |
| Sorting.Insert | src/index.ts:183 | Inserting into a sorted list keeps it sorted and adds exactly the one element. |
| Sorting.Sort | src/index.ts:183 | `array.sort()`: the result is sorted and a permutation of the input. |
| Sorting.SortedUnique | src/index.ts:183 | Two sorted permutations of the same elements are equal, so the sorted result does not depend on the input order. |
| JsObject.PutValid | src/compiler.ts:101 | Assigning a key keeps the object valid: keys listed once each, exactly the present keys listed. |
| JsObject.PutLookup | src/compiler.ts:101 | After `d[k] = v`, `k` reads `v` and every other key reads what it read before, present or absent. |
| JsObject.PutOrder | src/compiler.ts:101 | In a valid object, a new key goes to the end of the key order and an existing key keeps its place. |
| Utils.AsyncFor | src/utils.ts:39-43 | Calls `fn` once per index, in increasing order, each call after the previous one finished; it stops at the first rejection, which it reports. |
| Utils.AsyncMap | src/utils.ts:45-51 | Succeeds exactly when every call succeeds, and then result `i` is `fn` applied to element `i`; otherwise it fails with the first failing index's error. |
| Utils.ParallelMap | src/utils.ts:58-64 | Whatever the order in which the calls settle, the results are in input order with one per element; a failure is the first rejection to settle. |
| Utils.ParallelFor | src/utils.ts:53-56 | Succeeds exactly when every call succeeds; a failure is the error of the first call to reject in settle order, every call settling before it having succeeded. |
| Utils.GetModules | src/utils.ts:66-84 | An unreadable manifest gives `[]`; otherwise the names declared in the four sections, in section order, de-duplicated in first-seen order. |
| Utils.DeclaredNamesMembers | src/utils.ts:75-77 | A name is declared exactly when some listed section has it as a key; a missing section contributes nothing. |
| Utils.ModulesListed | src/utils.ts:74-79 | `getModules` lists each name once, and a name is listed exactly when one of the four sections declares it. |
| Discovery.ExtSearch | src/index.ts:32 | Finds the leftmost position where `EXT_REG` matches, or reports that there is none. |
| Discovery.ExtTestIsSuffixCheck | src/index.ts:31-32 | `EXT_REG.test(p)` holds exactly when `p` ends in `.js`, `.ts`, `.jsx` or `.tsx`, case-sensitively. |
| Discovery.StripExtSplits | src/index.ts:98 | A page path is its name, at least one dot and an extension, and the name does not end in a dot. |
| Discovery.StripExtOfPagePath | src/index.ts:98 | Round trip: stripping the extension from a name plus dots plus an extension gives back the name. |
| Discovery.WalkShape | src/index.ts:166-181 | The walk lists one path per file in the tree and none for directories, each beneath the directory walked. |
| Discovery.ReadDirRecursive | src/index.ts:166-184 | The result is sorted and holds exactly the walked file paths. |
| Discovery.ReadDirOrderIndependent | src/index.ts:169-183 | Whatever order the concurrent walk pushes paths in, the sorted result is the same: one path per file, each beneath the root. |
| Discovery.RelativeToRoot | src/index.ts:162 | Removing the root from a path beneath it leaves the relative path, which starts with `/`. |
| Discovery.CollectedPagesAreWalkedFiles | src/index.ts:158-164 | Every collected page is the root-relative path of a walked file that has a page extension. |
| Discovery.WalkedPageFilesAreCollected | src/index.ts:158-164 | Every walked file with a page extension is collected as its root-relative path. |
| Discovery.PageNames | src/index.ts:98 | One name per collected path, in order: the `i`-th name is the `i`-th path with its extension stripped. |
| Discovery.BuildEntrypoints | src/index.ts:90-100 | The keys are the page names in first-seen order, and each maps to `join(pagesPath, name)`, with no extension. |
| Evaluate.NullResultThrows | src/index.ts:193 | The unwrap as written throws on `null`, and the corrected unwrap returns `null`. |
| Evaluate.UnwrapAgreesBesideNull | src/index.ts:193-194 | Apart from `null`, the unwrap as written and the corrected unwrap agree. |
| Evaluate.UnwrapEsModule | src/index.ts:193-194 | The namespace of `export default x` unwraps to `x` when `x` is truthy, and otherwise stays as it is. |
| Evaluate.UnwrapChangesOnlyWrappers | src/index.ts:193-194 | A value changes exactly when it is an object with truthy `__esModule` and `default`, and then it becomes its `default`. |
| Evaluate.EvaluateCompilationResult | src/index.ts:186-196 | A missing or empty source throws "The child compilation didn't provide a result". An error from running the script propagates. Otherwise the value is returned, changed exactly when it is a default-export wrapper, and a wrapper becomes its `default`. |
| Evaluate.EvaluateAsWrittenDiffersOnlyOnNull | src/index.ts:186-196 | The evaluation as written and the corrected one give the same outcome except on a script whose value is `null`. There the written one throws and the corrected one returns `null`. |
| ChildCompiler.HelperAssetNameInjective | src/compiler.ts:44-50 | Different entries have different helper asset names. |
| ChildCompiler.Extract | src/compiler.ts:42-54 | Deletes exactly the helper assets of the entries from the host map and leaves every other asset alone; then returns one source per entry, in entry order, or fails when the child lacks a helper asset. |
| ChildCompiler.FailureMessageListsErrors | src/compiler.ts:92-93 | The message starts with "Child compilation failed:\n" and then lists each error's message, plus ":\n" and its cause when present, in order and separated by newlines. |
| ChildCompiler.AssembleResults | src/compiler.ts:99-106 | The loop stores the `i`-th source under the `i`-th key, building the results object that `Assembled` specifies. |
| ChildCompiler.AssembledValid | src/compiler.ts:99-106 | The results object is valid whatever the keys are, repeated or missing keys included. |
| ChildCompiler.AssembledByIndex | src/compiler.ts:99-106 | With distinct keys, the results list the first keys in order. |
| ChildCompiler.AssembledEntries | src/compiler.ts:99-106 | With distinct keys, key `i` holds the shared hash, entry `i` and source `i`. |
| ChildCompiler.ChildPages | src/compiler.ts:87-109 | The promise resolves exactly when nothing was rejected and every helper asset is present, and then with a valid results object. It rejects exactly when `err` is set or errors were recorded. In the remaining case a helper asset is missing: the callback throws the TypeError of `.source()` on `undefined`, and the promise never settles. |
| ChildCompiler.ChildPagesRejects | src/compiler.ts:89-96 | A transport error rejects first; otherwise any recorded error rejects with the aggregated message; with no entries the results are empty. |
| ChildCompiler.ChildPagesOnSuccess | src/compiler.ts:96-108 | On success, the results have exactly the page keys in order, and key `i` holds the child's hash, entry `i` and the source of helper asset `i`. |
| ChildCompiler.OnChildCompiled | src/compiler.ts:88-109 | The callback resolves, rejects or throws as `ChildPages` says. It deletes helper assets from the host only when it goes on to extract, including when the extraction then throws. |
| ChildCompiler.RegisterEntries | src/compiler.ts:79-82 | One entry per page key, in `Object.keys` order: the `i`-th is named `static-<i>` and points at that page's entry path. |
| ChildCompiler.CompilePages | src/compiler.ts:59-111 | The externals come from `getModules`; the `i`-th page key is registered as `static-<i>` with its entry path; the outcome and the host's assets are as the callback leaves them. |
| Emit.CollectChunkFiles | src/index.ts:119-126 | A chunk with no name or no files adds nothing; otherwise its `.js` files are added in order. |
| Emit.CollectGroupFiles | src/index.ts:113-127 | A group that is not initial adds nothing; otherwise its chunks' files are added in order. |
| Emit.CollectEntryFiles | src/index.ts:111-128 | The nested loops produce exactly the entry files that `EntryFiles` specifies. |
| Emit.EntryFilesMembers | src/index.ts:111-128 | A file is an entry file exactly when an initial group has a chunk, with a name and files, that lists it, and it ends in `.js`. |
| Emit.EntryFilesAppend | src/index.ts:112 | Groups contribute in encounter order, and duplicates across groups are not removed. |
| Emit.EntryFilesAreJs | src/index.ts:125 | Every entry file ends in `.js`. |
| Emit.PageKeyShape | src/index.ts:134 | Exactly one leading `/` is removed when there is one; otherwise the name is unchanged. |
| Emit.PageKeyStripsOneSlash | src/index.ts:134 | `/a` becomes `a`, and `//a` becomes `/a`. |
| Emit.StatusText | src/index.ts:45-49 | Only 400, 404 and 500 have a status text. |
| Emit.CodeAssetNameInjective | src/index.ts:145 | Different codes are written to different assets. |
| Emit.AssetNamesAreHtml | src/index.ts:145 | Every asset name the hook writes ends in `.html`. |
| Emit.ApplyWritesDomain | src/index.ts:145 | Writing assets adds exactly the written names. |
| Emit.ApplyWritesUntouched | src/index.ts:153 | A name that nothing writes keeps its presence and its value. |
| Emit.PageWritesOutcome | src/index.ts:140-153 | The error page writes exactly one `<code>.html` per configured code, each rendered with `{code, status}`; any other page writes exactly `<key>.html`, rendered with `url` set to the unstripped page name. |
| Emit.NoPageWritesErrorHtml | src/index.ts:140-147 | No page writes `_error.html`. |
| Emit.EmitSucceedsIff | src/index.ts:133-135 | The hook resolves exactly when the evaluation of every page succeeds. |
| Emit.EmitFailsAtFirstFailure | src/index.ts:133-135 | When page i is the first in key order whose evaluation throws, the hook rejects with that page's error. |
| Emit.EmitStaysFailed | src/index.ts:133-135 | After a rejection, the remaining pages change nothing. |
| Emit.EmitTouchesOnlyHtml | src/index.ts:133-154 | Assets whose names do not end in `.html` are never added, removed or changed. |
| Emit.EmitKeepsUnwritten | src/index.ts:133-154 | An asset that no page writes, whatever its template evaluates to, keeps its presence and its source. |
| Emit.EmitNeverWritesErrorHtml | src/index.ts:140-147 | `_error.html` is never added or changed. |
| Emit.EmitKeepsName | src/index.ts:133-154 | An asset present after some pages is still present after any later page: the hook only adds or overwrites names. |
| Emit.EmitWritesEveryPage | src/index.ts:133-154 | When nothing throws, every page was evaluated successfully and its outputs exist afterwards: `<code>.html` for every code if it is the error page, and `<key>.html` otherwise. |
| Emit.WritePage | src/index.ts:140-153 | The host's assets change exactly by the writes that `PageWrites` specifies for the page. |
| Emit.EmitIsAsyncFor | src/index.ts:133-154 | Running the `asyncFor` specification `Utils.RunFrom` over the page keys, with the per-page body, ends in the asset map `EmitAssets` gives and with the rejection `EmitError` gives. |
| Emit.EmitPages | src/index.ts:133-154 | The host's assets are `EmitAssets` and the rejection is `EmitError`, both over all pages: the first page whose evaluation throws rejects with its error, and the pages before it keep their writes. |
| Document.RenderRoot | src/document.tsx:63-67 | The root element's inner HTML is the body verbatim; its id is `rootId` when given and non-empty, and `root` otherwise. |
| Document.RenderScripts | src/document.tsx:69-83 | No files or an empty list give no slots. Otherwise there is one slot per file, in order, and a slot is null exactly when the file is not `.js`. A script has `async`, the file as its key, the shared nonce, and `join(assetHost or "/", encodeURI(file))` as its src. |
| Document.PresentScriptsAreJsFiles | src/document.tsx:75-82 | The rendered scripts are keyed by exactly the `.js` files, in file order, and all are async with the same nonce. |
| Document.AllJsFilesRendered | src/document.tsx:75-82 | When every file is a `.js` file, no slot is null and the scripts list every file. |
| Document.Body | src/document.tsx:55-58 | The body holds the root element and then the scripts; the root carries the page body. |
| Plugin.ErrorCodes | src/index.ts:71 | An absent `errors` option becomes `[400, 404, 500]`; a given list is kept, even an empty one. |
| Plugin.ResolvePath | src/index.ts:85 | An absolute directory stands alone; a relative one is placed under the context. |
| Plugin.PagesPath | src/index.ts:85 | With no `inputDir`, or an empty one, pages are read from `src/pages` under the context. |
| Plugin.StaticPages.constructor | src/index.ts:69-75 | Stores the defaulted error codes and the directories as given. |
| Plugin.StaticPages.Apply | src/index.ts:80-85 | Fixes the pages directory and starts with no compiled pages. |
| Plugin.StaticPages.OnMake | src/index.ts:89-103 | A listing failure rejects and changes nothing. Otherwise the `i`-th de-duplicated page name is registered as `static-<i>` with `join(pagesPath, name)`. The hook rejects with the child compilation's rejection, never settles when the child's callback throws, and stores the compiled pages only when the child compilation resolves. |
| Plugin.StaticPages.OnEmit | src/index.ts:108-155 | The host's assets and the rejection are `EmitAssets` and `EmitError`, applied to the stored pages, the entry files of the chunk groups and the configured codes. |
| Plugin.EntryFilesAllBecomeScripts | src/index.ts:111-128 | Every entry file the `emit` hook collects becomes a script in the document, in order, and none becomes a null slot. |

## Left out

- Webpack wiring is left out: creating the child compiler, applying the node, externals and loader plugins, the `publicPath` option and the hook taps. The child compilation's report (`err`, `errors`, entries, assets, hash) is an input.
- The template expansion of `__child-[name]` is taken to substitute only the entry name, so helper asset `i` is `__child-static-<i>`; the hash and chunk arguments are not modelled.
- Script execution in a `vm` context is a parameter `run` that returns a value or an error. `render` is a parameter that always returns a source, so a throwing render is not modelled.
- `src/render.tsx` is not part of this model. It is React server rendering.
- The file system is an input tree (`Discovery.Node`). A directory that cannot be read is modelled only at the pages root. The stat and readdir calls below it are taken to succeed.
- `Discovery.ReadDirRecursive` models the result only. The shared array that concurrent walks push into is not modelled, because its sorted result does not depend on the push order (`Discovery.ReadDirOrderIndependent`).
- Text.JoinPath: it does not normalise `..`, `.` or repeated slashes as `path.join` does. It only drops the single leading slash of the page name, which is all the page names that `collectPages` produces need.
- Plugin.ResolvePath: it does not normalise the path and does not fall back to the process's working directory, as `path.resolve` does.
- In `Document`, `encodeURI` and the `path.join` of the asset host are parameters.
- Reading and parsing `package.json` in `getModules` is an input `Option<Manifest>`: `None` stands for any failure. Each present section is given as the list of its keys. Section values that are not objects, such as strings, are not modelled.
- Strings are sequences of characters. The UTF-16 code units that `Array.prototype.sort` compares are not modelled separately.
- Status codes are integers. Fractional or non-numeric codes are not modelled.
- JsObject.PutOrder: keys that look like array indices come first in `Object.keys` in JavaScript. The model keeps pure insertion order, which agrees for page names because they start with `/`.
- The `outputDir` option is stored but never read by the plugin, and the model stores it the same way.
- Evaluate.EvaluateCompilationResult: for a script whose value is `null` it returns `null`, where the code throws a TypeError at `src/index.ts:193` and the `emit` hook rejects at that page. The hook's model (`Emit.EmitPages`, `Emit.EmitAssets`, `Emit.EmitError`, `Plugin.StaticPages.OnEmit`) inherits this. On every other input it agrees with the code (`Evaluate.EvaluateAsWrittenDiffersOnlyOnNull`).
- Script values are reduced to what the unwrap reads. Numbers are integers, so `NaN` (falsy) and fractions are not represented; this does not change the `__esModule`/`default` tests for the values a compiled module exports.
- What webpack does with the exception that escapes the `runAsChild` callback when a helper asset is missing is not modelled. The model records that the `make` hook's promise never settles (`Plugin.HookEnd.NeverSettles`).
- The JSX markup beyond the order of the root and the scripts is left out: the meta tags, `styles` and the `<head>`.

## Findings

| source | as written | input that shows it | evidently intended | confidence | as-written member | corrected member |
|---|---|---|---|---|---|---|
| src/index.ts:193 | `typeof result === 'object' && result.__esModule && result.default` reads `__esModule` of `null`, because `typeof null` is `'object'` | a page script whose value is `null` | a `null` result is returned unchanged, like every other value that is not a default-export wrapper | low, not executed | Evaluate.NullResultThrows | Evaluate.UnwrapChangesOnlyWrappers |
