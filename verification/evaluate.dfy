/**
 * `evaluateCompilationResult`: the guard against a missing compiled source
 * and the unwrapping of an ES-module namespace to its default export. The
 * execution of the script itself is a parameter.
 */
module Evaluate {
  import opened Wrappers

  /**
   * The value a compiled page script evaluates to. An object is reduced to
   * the two properties the plugin reads (`Undefined` where absent) and an
   * identity.
   */
  datatype JsValue =
    | Undefined
    | Null
    | Bool(b: bool)
    | Num(n: int)
    | Str(s: string)
    | Function(id: nat)
    | Object(esModule: JsValue, default: JsValue, id: nat)

  /** JavaScript truthiness. */
  predicate Truthy(v: JsValue)
  {
    match v
    case Undefined => false
    case Null => false
    case Bool(b) => b
    case Num(n) => n != 0
    case Str(s) => s != ""
    case Function(_) => true
    case Object(_, _, _) => true
  }

  /** `typeof v === 'object'`, which holds for `null` too. */
  predicate TypeofObject(v: JsValue)
  {
    v.Null? || v.Object?
  }

  /** A module namespace whose default export the plugin takes in its place. */
  predicate IsDefaultExportWrapper(v: JsValue)
  {
    v.Object? && Truthy(v.esModule) && Truthy(v.default)
  }

  /** The namespace object a compiled ES module yields for `export default x`. */
  function EsModule(x: JsValue, id: nat): JsValue
  {
    Object(Bool(true), x, id)
  }

  /**
   * The unwrap as the source writes it: `typeof result === 'object' &&
   * result.__esModule && result.default`. For `null` the property read
   * throws a TypeError.
   */
  function UnwrapAsWritten(v: JsValue): Result<JsValue>
  {
    if TypeofObject(v) then
      if v.Null? then Err("TypeError: Cannot read property '__esModule' of null")
      else if Truthy(v.esModule) && Truthy(v.default) then Ok(v.default)
      else Ok(v)
    else Ok(v)
  }

  /** The unwrap with `null` returned unchanged, like every other non-wrapper. */
  function Unwrap(v: JsValue): JsValue
  {
    if IsDefaultExportWrapper(v) then v.default else v
  }

  /** A script that evaluates to `null` makes the written unwrap throw instead of returning `null`. */
  lemma NullResultThrows()
    ensures UnwrapAsWritten(Null).Err?
    ensures Unwrap(Null) == Null
  {
  }

  /** Apart from `null`, the written unwrap and the corrected one agree. */
  lemma UnwrapAgreesBesideNull(v: JsValue)
    requires v != Null
    ensures UnwrapAsWritten(v) == Ok(Unwrap(v))
  {
  }

  /**
   * Round trip: the namespace of `export default x` unwraps to `x` exactly
   * when `x` is truthy; a falsy default leaves the namespace itself.
   */
  lemma UnwrapEsModule(x: JsValue, id: nat)
    ensures Truthy(x) ==> Unwrap(EsModule(x, id)) == x
    ensures !Truthy(x) ==> Unwrap(EsModule(x, id)) == EsModule(x, id)
  {
  }

  /** Unwrapping changes a value exactly when it is a wrapper, and then takes one layer off. */
  lemma UnwrapChangesOnlyWrappers(v: JsValue)
    ensures Unwrap(v) != v <==> IsDefaultExportWrapper(v)
    ensures IsDefaultExportWrapper(v) ==> Unwrap(v) == v.default && Unwrap(v) < v
  {
  }

  /** The message `evaluateCompilationResult` throws for a missing source. */
  const NO_RESULT := "The child compilation didn't provide a result"

  /**
   * `evaluateCompilationResult(source)`: throws when the source is
   * `undefined` or empty; otherwise runs it (`run`, which may throw) and
   * unwraps the value. The unwrap is the corrected one, so a script value
   * of `null` is returned; `EvaluateAsWritten` is the unwrap as written.
   */
  function EvaluateCompilationResult(source: Option<string>, run: string -> Result<JsValue>): (r: Result<JsValue>)
    ensures (source.None? || source.value == "") ==> r == Err(NO_RESULT)
    ensures source.Some? && source.value != "" && run(source.value).Err? ==> r == Err(run(source.value).error)
    ensures source.Some? && source.value != "" && run(source.value).Ok? ==>
      r.Ok? && (r.value == run(source.value).value <==> !IsDefaultExportWrapper(run(source.value).value))
    ensures source.Some? && source.value != "" && run(source.value).Ok? && IsDefaultExportWrapper(run(source.value).value) ==>
      r.value == run(source.value).value.default
  {
    if source.None? || source.value == "" then Err(NO_RESULT)
    else
      match run(source.value)
      case Err(e) => Err(e)
      case Ok(v) => UnwrapChangesOnlyWrappers(v); Ok(Unwrap(v))
  }

  /** `evaluateCompilationResult(source)` with the unwrap as the source writes it. */
  function EvaluateAsWritten(source: Option<string>, run: string -> Result<JsValue>): Result<JsValue>
  {
    if source.None? || source.value == "" then Err(NO_RESULT)
    else
      match run(source.value)
      case Err(e) => Err(e)
      case Ok(v) => UnwrapAsWritten(v)
  }

  /**
   * The written evaluation and the corrected one give the same outcome on
   * every input except a script that evaluates to `null`, where the
   * written one throws and the corrected one returns `null`.
   */
  lemma EvaluateAsWrittenDiffersOnlyOnNull(source: Option<string>, run: string -> Result<JsValue>)
    ensures EvaluateAsWritten(source, run) != EvaluateCompilationResult(source, run) <==>
      source.Some? && source.value != "" && run(source.value) == Ok(Null)
    ensures source.Some? && source.value != "" && run(source.value) == Ok(Null) ==>
      EvaluateAsWritten(source, run).Err? && EvaluateCompilationResult(source, run) == Ok(Null)
  {
    if source.Some? && source.value != "" && run(source.value).Ok? && run(source.value).value != Null {
      UnwrapAgreesBesideNull(run(source.value).value);
    }
  }
}
