/**
 * The plugin's small asynchronous helpers and the reading of the project's
 * dependency names. A callback that may reject is a function returning a
 * `Result`; a callback's effects are a state it receives and returns.
 */
module Utils {
  import opened Wrappers
  import opened Seqs

  /** Where a sequential loop ended: the final state, and the rejection that stopped it, if any. */
  datatype Run<S> = Run(state: S, error: Option<string>)

  /** The loop of `asyncFor` from index `i` on, starting in state `s`. */
  function RunFrom<S, T>(arr: seq<T>, fn: (S, T, nat, seq<T>) -> Result<S>, i: nat, s: S): Run<S>
    requires i <= |arr|
    decreases |arr| - i
  {
    if i == |arr| then Run(s, None)
    else match fn(s, arr[i], i, arr)
      case Err(e) => Run(s, Some(e))
      case Ok(next) => RunFrom(arr, fn, i + 1, next)
  }

  /**
   * `asyncFor(arr, fn)`: awaits `fn(arr[i], i, arr)` for each index in
   * increasing order, each call settling before the next one starts; the
   * first rejection ends the loop and is passed on. `calls` lists the indices
   * `fn` was called with, in call order.
   */
  method AsyncFor<S, T>(arr: seq<T>, fn: (S, T, nat, seq<T>) -> Result<S>, s0: S)
    returns (run: Run<S>, calls: seq<nat>)
    ensures run == RunFrom(arr, fn, 0, s0)
    ensures |calls| <= |arr| && forall k :: 0 <= k < |calls| ==> calls[k] == k
    ensures run.error.None? ==> |calls| == |arr|
    ensures run.error.Some? ==>
      |calls| >= 1 && fn(run.state, arr[|calls| - 1], |calls| - 1, arr) == Err(run.error.value)
  {
    var s := s0;
    calls := [];
    var i := 0;
    while i < |arr|
      invariant 0 <= i <= |arr|
      invariant RunFrom(arr, fn, 0, s0) == RunFrom(arr, fn, i, s)
      invariant |calls| == i && forall k :: 0 <= k < i ==> calls[k] == k
    {
      calls := calls + [i];
      var out := fn(s, arr[i], i, arr);
      if out.Err? {
        run := Run(s, Some(out.error));
        return;
      }
      s := out.value;
      i := i + 1;
    }
    run := Run(s, None);
  }

  /**
   * `asyncMap(arr, fn)`: the same sequential loop, collecting what each call
   * resolves to; the first rejection rejects the whole call.
   */
  method AsyncMap<T, U>(arr: seq<T>, fn: (T, nat, seq<T>) -> Result<U>) returns (r: Result<seq<U>>)
    ensures r.Ok? <==> forall i :: 0 <= i < |arr| ==> fn(arr[i], i, arr).Ok?
    ensures r.Ok? ==>
      |r.value| == |arr| && forall i :: 0 <= i < |arr| ==> r.value[i] == fn(arr[i], i, arr).value
    ensures r.Err? ==>
      exists k :: 0 <= k < |arr| && fn(arr[k], k, arr) == Err(r.error) &&
        forall j :: 0 <= j < k ==> fn(arr[j], j, arr).Ok?
  {
    var results: seq<U> := [];
    var i := 0;
    while i < |arr|
      invariant 0 <= i <= |arr|
      invariant |results| == i
      invariant forall j :: 0 <= j < i ==> fn(arr[j], j, arr).Ok? && results[j] == fn(arr[j], j, arr).value
    {
      var out := fn(arr[i], i, arr);
      if out.Err? {
        r := Err(out.error);
        return;
      }
      results := results + [out.value];
      i := i + 1;
    }
    r := Ok(results);
  }

  /**
   * `settleOrder` is an order in which the calls started by `parallelMap`
   * settle: every index exactly once.
   */
  predicate IsSettleOrder(settleOrder: seq<nat>, n: nat)
  {
    |settleOrder| == n &&
    (forall k :: 0 <= k < n ==> settleOrder[k] < n) &&
    (forall i :: 0 <= i < n ==> i in settleOrder)
  }

  /**
   * `parallelMap(arr, fn)`: starts every call first, in index order, then
   * waits for all of them (`Promise.all`). The results are in index order
   * whatever order the calls settle in; the first call to reject, in settle
   * order, rejects the whole call.
   */
  method ParallelMap<T, U>(arr: seq<T>, fn: (T, nat, seq<T>) -> Result<U>, settleOrder: seq<nat>)
    returns (r: Result<seq<U>>)
    requires IsSettleOrder(settleOrder, |arr|)
    ensures r.Ok? <==> forall i :: 0 <= i < |arr| ==> fn(arr[i], i, arr).Ok?
    ensures r.Ok? ==>
      |r.value| == |arr| && forall i :: 0 <= i < |arr| ==> r.value[i] == fn(arr[i], i, arr).value
    ensures r.Err? ==>
      exists k :: 0 <= k < |arr| && fn(arr[settleOrder[k]], settleOrder[k], arr) == Err(r.error) &&
        forall j :: 0 <= j < k ==> fn(arr[settleOrder[j]], settleOrder[j], arr).Ok?
  {
    // every call is started before any of them is awaited
    var pending: seq<Result<U>> := [];
    var i := 0;
    while i < |arr|
      invariant 0 <= i <= |arr|
      invariant |pending| == i && forall j :: 0 <= j < i ==> pending[j] == fn(arr[j], j, arr)
    {
      pending := pending + [fn(arr[i], i, arr)];
      i := i + 1;
    }
    // Promise.all: each settled value goes to its own index
    var slots: seq<Option<U>> := seq(|arr|, _ => None);
    var k := 0;
    while k < |arr|
      invariant 0 <= k <= |arr| && |slots| == |arr|
      invariant forall j :: 0 <= j < k ==> pending[settleOrder[j]].Ok? && slots[settleOrder[j]].Some?
      invariant forall x :: 0 <= x < |arr| && slots[x].Some? ==> pending[x].Ok? && slots[x].value == pending[x].value
    {
      var idx := settleOrder[k];
      if pending[idx].Err? {
        r := Err(pending[idx].error);
        return;
      }
      slots := slots[idx := Some(pending[idx].value)];
      k := k + 1;
    }
    forall x | 0 <= x < |arr| ensures slots[x].Some? {
      assert x in settleOrder;
      var j :| 0 <= j < |arr| && settleOrder[j] == x;
    }
    r := Ok(seq(|arr|, x requires 0 <= x < |arr| => slots[x].value));
  }

  /** `parallelFor(arr, fn)`: `parallelMap` with the results dropped. */
  method ParallelFor<T, U>(arr: seq<T>, fn: (T, nat, seq<T>) -> Result<U>, settleOrder: seq<nat>)
    returns (error: Option<string>)
    requires IsSettleOrder(settleOrder, |arr|)
    ensures error.None? <==> forall i :: 0 <= i < |arr| ==> fn(arr[i], i, arr).Ok?
    ensures error.Some? ==>
      exists k :: 0 <= k < |arr| && fn(arr[settleOrder[k]], settleOrder[k], arr) == Err(error.value) &&
        forall j :: 0 <= j < k ==> fn(arr[settleOrder[j]], settleOrder[j], arr).Ok?
  {
    var r := ParallelMap(arr, fn, settleOrder);
    error := if r.Ok? then None else Some(r.error);
  }

  // ---------------------------------------------------------------------
  // getModules
  // ---------------------------------------------------------------------

  /** The dependency sections of `package.json`, in the order they are read. */
  const SECTIONS: seq<string> := ["dependencies", "devDependencies", "peerDependencies", "optionalDependencies"]

  /**
   * What `getModules` reads of a parsed `package.json`: for each section
   * that is present, its dependency names in `Object.keys` order.
   */
  datatype Manifest = Manifest(sections: map<string, seq<string>>)

  /** `Object.keys(packageJson[s] || {})`: a missing section has no names. */
  function SectionKeys(m: Manifest, section: string): seq<string>
  {
    if section in m.sections then m.sections[section] else []
  }

  /** The names of the given sections, one section after the other, repeats included. */
  function DeclaredNames(m: Manifest, sections: seq<string>): seq<string>
  {
    if sections == [] then []
    else DeclaredNames(m, sections[..|sections| - 1]) + SectionKeys(m, sections[|sections| - 1])
  }

  /**
   * `getModules()`: every dependency name of the four sections, once each,
   * in first-seen order. `manifest` is `None` when `package.json` could not
   * be read or parsed, and then the list is empty.
   */
  method GetModules(manifest: Option<Manifest>) returns (deps: seq<string>)
    ensures manifest.None? ==> deps == []
    ensures manifest.Some? ==> deps == Dedup(DeclaredNames(manifest.value, SECTIONS))
  {
    if manifest.None? {
      return [];
    }
    var m := manifest.value;
    deps := [];
    var si := 0;
    while si < |SECTIONS|
      invariant 0 <= si <= |SECTIONS|
      invariant deps == Dedup(DeclaredNames(m, SECTIONS[..si]))
    {
      deps := AddNames(deps, DeclaredNames(m, SECTIONS[..si]), SectionKeys(m, SECTIONS[si]));
      DeclaredNamesStep(m, SECTIONS, si);
      si := si + 1;
    }
    assert SECTIONS[..si] == SECTIONS;
  }

  /**
   * The inner `forEach` of `getModules`: `deps.add(d)` for each name of a
   * section, where `deps` already holds the names `seen` so far.
   */
  method AddNames(deps: seq<string>, ghost seen: seq<string>, names: seq<string>) returns (added: seq<string>)
    requires deps == Dedup(seen)
    ensures added == Dedup(seen + names)
  {
    added := deps;
    var ki := 0;
    assert seen + names[..ki] == seen;
    while ki < |names|
      invariant 0 <= ki <= |names|
      invariant added == Dedup(seen + names[..ki])
    {
      var d := names[ki];
      AddNameStep(seen, names, ki);
      if d !in added {
        added := added + [d];
      }
      ki := ki + 1;
    }
    assert names[..ki] == names;
  }

  /** Adding the next name of a section to the set of names seen so far. */
  lemma AddNameStep<T(!new)>(seen: seq<T>, names: seq<T>, ki: nat)
    requires ki < |names|
    ensures Dedup(seen + names[..ki + 1]) ==
      if names[ki] in Dedup(seen + names[..ki]) then Dedup(seen + names[..ki])
      else Dedup(seen + names[..ki]) + [names[ki]]
  {
    PrefixSnoc(seen, names, ki);
    DedupSnoc(seen + names[..ki], names[ki]);
  }

  lemma PrefixSnoc<T>(seen: seq<T>, names: seq<T>, ki: nat)
    requires ki < |names|
    ensures seen + names[..ki + 1] == (seen + names[..ki]) + [names[ki]]
  {
    assert names[..ki + 1] == names[..ki] + [names[ki]];
  }

  lemma DeclaredNamesStep(m: Manifest, sections: seq<string>, i: nat)
    requires i < |sections|
    ensures DeclaredNames(m, sections[..i + 1]) == DeclaredNames(m, sections[..i]) + SectionKeys(m, sections[i])
  {
    assert sections[..i + 1][..i] == sections[..i];
  }

  /** A name is among the declared names exactly when some of the sections declares it. */
  lemma {:induction false} DeclaredNamesMembers(m: Manifest, sections: seq<string>, x: string)
    ensures x in DeclaredNames(m, sections) <==> exists s :: s in sections && x in SectionKeys(m, s)
  {
    if sections != [] {
      var init := sections[..|sections| - 1];
      DeclaredNamesMembers(m, init, x);
      assert sections == init + [sections[|sections| - 1]];
    }
  }

  /**
   * The modules list holds each name declared in any of the four sections,
   * exactly once, and no other name; a name seen earlier comes first.
   */
  lemma ModulesListed(m: Manifest, x: string)
    ensures var deps := Dedup(DeclaredNames(m, SECTIONS));
      Distinct(deps) &&
      (x in deps <==> exists s :: s in SECTIONS && x in SectionKeys(m, s))
  {
    DeclaredNamesMembers(m, SECTIONS, x);
    var all := DeclaredNames(m, SECTIONS);
    if x in all {
      var i :| 0 <= i < |all| && all[i] == x;
    }
  }
}
