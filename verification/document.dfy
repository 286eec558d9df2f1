/**
 * The selection logic of the server-side document shell: the root element
 * that receives the rendered body and the `<script>` elements for the
 * entry files. Markup other than the order of the two is not modelled.
 */
module Document {
  import opened Wrappers
  import opened Seqs
  import opened Text

  /** The props of `Document` that the selection reads (`styles` is passed through untouched). */
  datatype DocumentProps = DocumentProps(
    body: string,
    files: Option<seq<string>>,
    nonce: Option<string>,
    rootId: Option<string>,
    assetHost: Option<string>)

  /** `<div id={id} dangerouslySetInnerHTML={{ __html: innerHtml }} />` */
  datatype Root = Root(id: string, innerHtml: string)

  /** `<script async key={key} src={src} nonce={nonce} />` */
  datatype Script = Script(isAsync: bool, key: string, src: string, nonce: Option<string>)

  /** The id used when `rootId` is absent or empty. */
  const DEFAULT_ROOT_ID := "root"

  /** `renderRoot()`: the root element carries the body verbatim, under `rootId || 'root'`. */
  function RenderRoot(props: DocumentProps): (root: Root)
    ensures root.innerHtml == props.body
    ensures props.rootId.Some? && props.rootId.value != "" ==> root.id == props.rootId.value
    ensures props.rootId.None? || props.rootId.value == "" ==> root.id == DEFAULT_ROOT_ID
  {
    Root(if props.rootId.Some? && props.rootId.value != "" then props.rootId.value else DEFAULT_ROOT_ID, props.body)
  }

  /** The base a script's `src` is joined to: `assetHost || '/'`. */
  function AssetBase(props: DocumentProps): string
  {
    if props.assetHost.Some? && props.assetHost.value != "" then props.assetHost.value else "/"
  }

  /** The slot `files.map` yields for one file: `null` unless it is a `.js` file. */
  function ScriptSlot(props: DocumentProps, file: string, encodeUri: string -> string, join: (string, string) -> string): Option<Script>
  {
    if IsJsFile(file) then Some(Script(true, file, join(AssetBase(props), encodeUri(file)), props.nonce)) else None
  }

  /**
   * `renderScripts()`: `null` (no slots at all) when `files` is absent or
   * empty; otherwise one slot per file, in order. `encodeURI` and
   * `path.join` are parameters.
   */
  function RenderScripts(props: DocumentProps, encodeUri: string -> string, join: (string, string) -> string): (slots: Option<seq<Option<Script>>>)
    ensures props.files.None? || props.files.value == [] ==> slots.None?
    ensures props.files.Some? && props.files.value != [] ==>
      slots.Some? && |slots.value| == |props.files.value| &&
      forall i :: 0 <= i < |props.files.value| ==>
        (slots.value[i].None? <==> !IsJsFile(props.files.value[i])) &&
        (slots.value[i].Some? ==>
          var file := props.files.value[i];
          slots.value[i].value == Script(true, file, join(AssetBase(props), encodeUri(file)), props.nonce))
  {
    if props.files.None? || props.files.value == [] then None
    else
      var files := props.files.value;
      Some(seq(|files|, i requires 0 <= i < |files| => ScriptSlot(props, files[i], encodeUri, join)))
  }

  /** The script elements that end up in the page: React drops the `null` slots. */
  function Present(slots: seq<Option<Script>>): (scripts: seq<Script>)
    ensures |scripts| <= |slots|
  {
    if slots == [] then []
    else (if slots[0].Some? then [slots[0].value] else []) + Present(slots[1..])
  }

  /** The keys of the given scripts, in order. */
  function Keys(scripts: seq<Script>): (keys: seq<string>)
    ensures |keys| == |scripts|
  {
    if scripts == [] then [] else [scripts[0].key] + Keys(scripts[1..])
  }

  /**
   * The scripts in the page are exactly those of the `.js` files, in the
   * order of `files`, one per file (a file listed twice gives two scripts),
   * and all share the nonce and are async.
   */
  lemma {:induction false} PresentScriptsAreJsFiles(props: DocumentProps, files: seq<string>, encodeUri: string -> string, join: (string, string) -> string)
    ensures var slots := seq(|files|, i requires 0 <= i < |files| => ScriptSlot(props, files[i], encodeUri, join));
      Keys(Present(slots)) == Filter(files, IsJsFile) &&
      forall k :: 0 <= k < |Present(slots)| ==> Present(slots)[k].isAsync && Present(slots)[k].nonce == props.nonce
  {
    var slots := seq(|files|, i requires 0 <= i < |files| => ScriptSlot(props, files[i], encodeUri, join));
    if files != [] {
      var rest := seq(|files| - 1, i requires 0 <= i < |files| - 1 => ScriptSlot(props, files[1..][i], encodeUri, join));
      assert slots[1..] == rest;
      PresentScriptsAreJsFiles(props, files[1..], encodeUri, join);
      if IsJsFile(files[0]) {
        assert Present(slots) == [slots[0].value] + Present(rest);
        assert Keys(Present(slots)) == [files[0]] + Keys(Present(rest));
      } else {
        assert Present(slots) == Present(rest);
      }
    }
  }

  /** When every file is a `.js` file, every file gets a script and no slot is `null`. */
  lemma AllJsFilesRendered(props: DocumentProps, encodeUri: string -> string, join: (string, string) -> string)
    requires props.files.Some? && props.files.value != []
    requires forall i :: 0 <= i < |props.files.value| ==> IsJsFile(props.files.value[i])
    ensures RenderScripts(props, encodeUri, join).Some?
    ensures forall i :: 0 <= i < |props.files.value| ==> RenderScripts(props, encodeUri, join).value[i].Some?
    ensures Keys(Present(RenderScripts(props, encodeUri, join).value)) == props.files.value
  {
    var files := props.files.value;
    PresentScriptsAreJsFiles(props, files, encodeUri, join);
    FilterKeepsAll(files);
  }

  /** Filtering a list all of whose elements pass keeps it whole. */
  lemma {:induction false} FilterKeepsAll(files: seq<string>)
    requires forall i :: 0 <= i < |files| ==> IsJsFile(files[i])
    ensures Filter(files, IsJsFile) == files
  {
    if files != [] {
      FilterKeepsAll(files[1..]);
    }
  }

  /** A child of `<body>`. */
  datatype BodyChild = RootChild(root: Root) | ScriptsChild(slots: Option<seq<Option<Script>>>)

  /** The children of `<body>`: the root element, then the scripts. */
  function Body(props: DocumentProps, encodeUri: string -> string, join: (string, string) -> string): (children: seq<BodyChild>)
    ensures |children| == 2 && children[0].RootChild? && children[1].ScriptsChild?
    ensures children[0].root.innerHtml == props.body
  {
    [RootChild(RenderRoot(props)), ScriptsChild(RenderScripts(props, encodeUri, join))]
  }
}
