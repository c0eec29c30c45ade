/** lib/server.ts: the default import resolver (lines 38-47) and
    `resolveAllImports` (lines 110-154). */
module Resolve {
  import opened Js
  import opened Util

  /** The three functions of the `pathe` library the server calls
      (`join`, `dirname`, `relative`); their meaning is not part of this model. */
  datatype PathLib = PathLib(join: (string, string) -> string, dirname: string -> string, relative: (string, string) -> string)

  /** How one call of a resolver ends: the promise rejects (or the call throws),
      or it fulfils with a file path or an error. */
  type ResolveOutcome = Settled<MaybeError<string, Error>>

  /** A `resolveImportPath` capability, called with (importer, specifier). */
  type Resolver = (string, string) -> ResolveOutcome

  /** How a `resolveAllImports` call ends: rejected, or fulfilled with the
      resolved paths or the first error. */
  type ResolveAllOutcome = Settled<MaybeError<seq<string>, Error>>

  /** A specifier the default resolver can handle: it starts with "./" or "../". */
  predicate IsRelative(specifier: string)
    ensures IsRelative(specifier) ==> |specifier| >= 2 && specifier[0] == '.' && !StartsWith(specifier, "/")
  {
    StartsWith(specifier, "./") || StartsWith(specifier, "../")
  }

  const UnsupportedMessage := "only relative imports are supported, provide a custom resolveImportPath function to handle non-relative imports"

  /** defaultImportResolver as written: a relative specifier is joined onto the
      importer's directory; any other specifier makes the call throw, which to
      the awaiting caller is a rejected promise. */
  function DefaultImportResolverAsWritten(paths: PathLib): (resolver: Resolver)
    ensures forall importer, specifier :: resolver(importer, specifier).Rejected? <==> !IsRelative(specifier)
    ensures forall importer, specifier :: resolver(importer, specifier).Fulfilled? ==>
      resolver(importer, specifier).value == Ok(paths.join(paths.dirname(importer), specifier))
  {
    (importer: string, specifier: string) =>
      if IsRelative(specifier) then Fulfilled(Ok(paths.join(paths.dirname(importer), specifier)))
      else Rejected(Plain(UnsupportedMessage))
  }

  /** The default resolver as the result contract of the server intends it:
      an unsupported specifier is an error result, not a thrown error. */
  function DefaultImportResolver(paths: PathLib): (resolver: Resolver)
    ensures forall importer, specifier :: resolver(importer, specifier).Fulfilled?
    ensures forall importer, specifier :: resolver(importer, specifier).value.Err? <==> !IsRelative(specifier)
    ensures forall importer, specifier :: resolver(importer, specifier).value.Ok? ==>
      resolver(importer, specifier).value == Ok(paths.join(paths.dirname(importer), specifier))
  {
    (importer: string, specifier: string) =>
      if IsRelative(specifier) then Fulfilled(Ok(paths.join(paths.dirname(importer), specifier)))
      else Fulfilled(Err(Plain(UnsupportedMessage)))
  }

  /** The two ways a single resolution can fail. */
  datatype Failure = Rejection | ErrorResult

  predicate FailsWith(o: ResolveOutcome, f: Failure)
  {
    match f
    case Rejection => o.Rejected?
    case ErrorResult => o.Fulfilled? && o.value.Err?
  }

  /** A resolution that produced a file path. */
  predicate Resolved(o: ResolveOutcome)
  {
    o.Fulfilled? && o.value.Ok?
  }

  /** The index of the first specifier whose resolution fails in the way `f`. */
  function FirstFailing(resolve: Resolver, importer: string, specs: seq<string>, f: Failure): (r: Option<nat>)
    ensures r.Some? ==> r.value < |specs| && FailsWith(resolve(importer, specs[r.value]), f)
    ensures r.Some? ==> forall k :: 0 <= k < r.value ==> !FailsWith(resolve(importer, specs[k]), f)
    ensures r.None? <==> forall k :: 0 <= k < |specs| ==> !FailsWith(resolve(importer, specs[k]), f)
  {
    if |specs| == 0 then None
    else if FailsWith(resolve(importer, specs[0]), f) then Some(0)
    else
      match FirstFailing(resolve, importer, specs[1..], f)
      case None => None
      case Some(i) => Some(i + 1)
  }

  /** What `resolveAllImports` settles with, stated over the specifiers as
      given: the first rejection rejects the whole call; otherwise the first
      error result is the call's error; otherwise every specifier is mapped,
      in place, to its resolved path. */
  function ResolveAll(resolve: Resolver, importer: string, specs: seq<string>): (r: ResolveAllOutcome)
    ensures r.Rejected? <==> exists k :: 0 <= k < |specs| && resolve(importer, specs[k]).Rejected?
    ensures r.Rejected? ==> exists k :: 0 <= k < |specs| && resolve(importer, specs[k]) == Rejected(r.reason)
    ensures r.Fulfilled? && r.value.Err? ==> exists k :: 0 <= k < |specs| && resolve(importer, specs[k]) == Fulfilled(Err(r.value.error))
    ensures r.Fulfilled? && r.value.Ok? <==> forall k :: 0 <= k < |specs| ==> Resolved(resolve(importer, specs[k]))
    ensures r.Fulfilled? && r.value.Ok? ==>
      |r.value.value| == |specs| &&
      (forall k :: 0 <= k < |specs| ==> resolve(importer, specs[k]) == Fulfilled(Ok(r.value.value[k]))) &&
      (forall k, l :: 0 <= k < |specs| && 0 <= l < |specs| && specs[k] == specs[l] ==> r.value.value[k] == r.value.value[l])
  {
    match FirstFailing(resolve, importer, specs, Rejection)
    case Some(i) => Rejected(resolve(importer, specs[i]).reason)
    case None =>
      match FirstFailing(resolve, importer, specs, ErrorResult)
      case Some(i) => Fulfilled(Err(resolve(importer, specs[i]).value.error))
      case None =>
        Fulfilled(Ok(seq(|specs|, k requires 0 <= k < |specs| => resolve(importer, specs[k]).value.value)))
  }

  /** Looking for the first failure among the de-duplicated specifiers finds
      the same specifier as looking among all of them, because de-duplication
      keeps the order of first occurrences. */
  lemma FirstFailingOfDedupe(resolve: Resolver, importer: string, specs: seq<string>, f: Failure)
    ensures FirstFailing(resolve, importer, Dedupe(specs), f).None? <==> FirstFailing(resolve, importer, specs, f).None?
    ensures FirstFailing(resolve, importer, Dedupe(specs), f).Some? ==>
      Dedupe(specs)[FirstFailing(resolve, importer, Dedupe(specs), f).value] == specs[FirstFailing(resolve, importer, specs, f).value]
  {
    var unique := Dedupe(specs);
    var first := FirstFailing(resolve, importer, specs, f);
    var firstUnique := FirstFailing(resolve, importer, unique, f);
    if first.Some? {
      var i := first.value;
      assert specs[i] in unique;
      var j :| 0 <= j < |unique| && unique[j] == specs[i];
      var j' := firstUnique.value;
      assert j' <= j;
      DedupeKeepsFirstOccurrenceOrder(specs);
      var m := FirstIndex(specs, unique[j']);
      assert specs[m] == unique[j'];
      assert m >= i;
      assert FirstIndex(specs, unique[j]) <= i;
      assert j' == j;
    } else {
      assert forall k :: 0 <= k < |unique| ==> unique[k] in specs;
    }
  }

  /** When the unique specifiers before index `i` resolve without rejection
      and the one at `i` rejects, the whole resolution rejects with its reason. */
  lemma RejectionAt(resolve: Resolver, importer: string, specs: seq<string>, i: nat)
    requires i < |Dedupe(specs)| && resolve(importer, Dedupe(specs)[i]).Rejected?
    requires forall k :: 0 <= k < i ==> !resolve(importer, Dedupe(specs)[k]).Rejected?
    ensures ResolveAll(resolve, importer, specs) == Rejected(resolve(importer, Dedupe(specs)[i]).reason)
  {
    FirstFailingOfDedupe(resolve, importer, specs, Rejection);
    assert FirstFailing(resolve, importer, Dedupe(specs), Rejection) == Some(i);
  }

  /** When no unique specifier rejects, those before index `i` resolve and the
      one at `i` gives an error result, the whole resolution fails with that error. */
  lemma ErrorAt(resolve: Resolver, importer: string, specs: seq<string>, i: nat)
    requires forall k :: 0 <= k < |Dedupe(specs)| ==> resolve(importer, Dedupe(specs)[k]).Fulfilled?
    requires i < |Dedupe(specs)| && resolve(importer, Dedupe(specs)[i]).value.Err?
    requires forall k :: 0 <= k < i ==> resolve(importer, Dedupe(specs)[k]).value.Ok?
    ensures ResolveAll(resolve, importer, specs) == Fulfilled(Err(resolve(importer, Dedupe(specs)[i]).value.error))
  {
    FirstFailingOfDedupe(resolve, importer, specs, Rejection);
    FirstFailingOfDedupe(resolve, importer, specs, ErrorResult);
    assert FirstFailing(resolve, importer, Dedupe(specs), Rejection).None?;
    assert FirstFailing(resolve, importer, Dedupe(specs), ErrorResult) == Some(i);
  }

  /** When every unique specifier resolves and `byKey` maps each to its path,
      the whole resolution maps every specifier through `byKey`. */
  lemma AllResolved(resolve: Resolver, importer: string, specs: seq<string>, byKey: map<string, string>)
    requires forall k :: 0 <= k < |Dedupe(specs)| ==>
      Dedupe(specs)[k] in byKey && resolve(importer, Dedupe(specs)[k]) == Fulfilled(Ok(byKey[Dedupe(specs)[k]]))
    ensures forall k :: 0 <= k < |specs| ==> specs[k] in byKey
    ensures ResolveAll(resolve, importer, specs).Fulfilled? && ResolveAll(resolve, importer, specs).value.Ok?
    ensures |ResolveAll(resolve, importer, specs).value.value| == |specs|
    ensures forall k :: 0 <= k < |specs| ==> ResolveAll(resolve, importer, specs).value.value[k] == byKey[specs[k]]
  {
    var unique := Dedupe(specs);
    forall k | 0 <= k < |specs|
      ensures specs[k] in byKey && resolve(importer, specs[k]) == Fulfilled(Ok(byKey[specs[k]]))
    {
      assert specs[k] in unique;
      var m :| 0 <= m < |unique| && unique[m] == specs[k];
    }
    var expected := ResolveAll(resolve, importer, specs);
    assert expected.Fulfilled? && expected.value.Ok?;
  }

  /** resolveAllImports: de-duplicate the specifiers and call the resolver
      once on each unique one, in order, as the `map` inside `Promise.all`
      starts every call before any settles (`calls` records them). Any
      rejection rejects the call, the first in list order being the one
      reported; otherwise return the first error result if there is one,
      otherwise collect the paths by specifier and map every original
      specifier, duplicates included, to its path. */
  method ResolveAllImports(resolve: Resolver, importer: string, specs: seq<string>)
    returns (outcome: ResolveAllOutcome, ghost calls: seq<string>)
    ensures outcome == ResolveAll(resolve, importer, specs)
    ensures calls == Dedupe(specs)
  {
    var unique := DedupeStringArray(specs);

    var settledAll: seq<ResolveOutcome> := [];
    calls := [];
    var i := 0;
    while i < |unique|
      invariant 0 <= i <= |unique| && |settledAll| == i && calls == unique[..i]
      invariant forall k :: 0 <= k < i ==> resolve(importer, unique[k]) == settledAll[k]
    {
      settledAll := settledAll + [resolve(importer, unique[i])];
      calls := calls + [unique[i]];
      i := i + 1;
    }
    assert unique[..i] == unique;

    var results: seq<MaybeError<string, Error>> := [];
    var r := 0;
    while r < |settledAll|
      invariant 0 <= r <= |settledAll| && |results| == r
      invariant forall k :: 0 <= k < r ==> resolve(importer, unique[k]) == Fulfilled(results[k])
    {
      if settledAll[r].Rejected? {
        RejectionAt(resolve, importer, specs, r);
        outcome := Rejected(settledAll[r].reason);
        return;
      }
      results := results + [settledAll[r].value];
      r := r + 1;
    }

    var e := 0;
    while e < |results|
      invariant 0 <= e <= |results|
      invariant forall k :: 0 <= k < e ==> results[k].Ok?
    {
      if results[e].Err? {
        ErrorAt(resolve, importer, specs, e);
        outcome := Fulfilled(Err(results[e].error));
        return;
      }
      e := e + 1;
    }

    var resultsByKey: map<string, string> := map[];
    var n := 0;
    while n < |results|
      invariant 0 <= n <= |results|
      invariant forall k :: 0 <= k < n ==> unique[k] in resultsByKey && resultsByKey[unique[k]] == results[k].value
    {
      resultsByKey := resultsByKey[unique[n] := results[n].value];
      n := n + 1;
    }

    AllResolved(resolve, importer, specs, resultsByKey);
    var resolved := seq(|specs|, k requires 0 <= k < |specs| && specs[k] in resultsByKey => resultsByKey[specs[k]]);
    assert resolved == ResolveAll(resolve, importer, specs).value.value;
    outcome := Fulfilled(Ok(resolved));
  }

  /** The default resolver as written rejects the whole resolution, with its
      "only relative imports" error, exactly when some specifier is bare. */
  lemma DefaultResolverAsWrittenRejectsBare(paths: PathLib, importer: string, specs: seq<string>)
    ensures ResolveAll(DefaultImportResolverAsWritten(paths), importer, specs).Rejected? <==>
      exists k :: 0 <= k < |specs| && !IsRelative(specs[k])
    ensures ResolveAll(DefaultImportResolverAsWritten(paths), importer, specs).Rejected? ==>
      ResolveAll(DefaultImportResolverAsWritten(paths), importer, specs).reason == Plain(UnsupportedMessage)
  {
    var resolve := DefaultImportResolverAsWritten(paths);
    assert forall k :: 0 <= k < |specs| ==> (resolve(importer, specs[k]).Rejected? <==> !IsRelative(specs[k]));
  }

  /** The corrected default resolver never rejects: a bare specifier makes the
      resolution fail with the "only relative imports" error, and without one
      every specifier becomes the join of the importer's directory and itself. */
  lemma DefaultResolverFailsOnBare(paths: PathLib, importer: string, specs: seq<string>)
    ensures ResolveAll(DefaultImportResolver(paths), importer, specs).Fulfilled?
    ensures ResolveAll(DefaultImportResolver(paths), importer, specs).value.Err? <==>
      exists k :: 0 <= k < |specs| && !IsRelative(specs[k])
    ensures ResolveAll(DefaultImportResolver(paths), importer, specs).value.Err? ==>
      ResolveAll(DefaultImportResolver(paths), importer, specs).value.error == Plain(UnsupportedMessage)
    ensures ResolveAll(DefaultImportResolver(paths), importer, specs).value.Ok? ==>
      ResolveAll(DefaultImportResolver(paths), importer, specs).value.value ==
        seq(|specs|, k requires 0 <= k < |specs| => paths.join(paths.dirname(importer), specs[k]))
  {
    var resolve := DefaultImportResolver(paths);
    assert forall k :: 0 <= k < |specs| ==> !resolve(importer, specs[k]).Rejected?;
    assert forall k :: 0 <= k < |specs| ==> (Resolved(resolve(importer, specs[k])) <==> IsRelative(specs[k]));
  }
}
