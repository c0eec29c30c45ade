/** The shape rules lib/server.ts imposes on the script root folder
    (`assertNiceAbsolutePath`) and on every request URI (the inline checks at
    the top of `handleRequest`). */
module PathRules {
  import opened Js

  /** The rule a path breaks. */
  datatype PathError =
    | NotAbsolute         // does not start with "/"
    | DoubleSlash         // contains "//"
    | DotSegment          // has a "." segment
    | DotDotSegment       // has a ".." segment
    | TrailingSlash       // ends with "/"
    | LeadingDoubleSlash  // starts with "//" (the check before a redirect)

  datatype Check = Pass | Fail(error: PathError)

  /** The message of the error thrown for `name` breaking rule `e`. */
  function Message(name: string, e: PathError): (m: string)
    ensures StartsWith(m, name + " must ")
  {
    match e
    case NotAbsolute => name + " must start with /"
    case DoubleSlash => name + " must not contain //"
    case DotSegment => name + " must not contain ."
    case DotDotSegment => name + " must not contain .."
    case TrailingSlash => name + " must not end with /"
    case LeadingDoubleSlash => name + " must not start with //"
  }

  /** Each rule as a property of the path alone. */
  predicate Violates(path: string, e: PathError)
  {
    match e
    case NotAbsolute => !StartsWith(path, "/")
    case DoubleSlash => HasDoubleSlash(path)
    case DotSegment => "." in Split(path)
    case DotDotSegment => ".." in Split(path)
    case TrailingSlash => EndsWith(path, "/")
    case LeadingDoubleSlash => StartsWith(path, "//")
  }

  /** The order in which `assertNiceAbsolutePath` tries its rules. */
  const RootRules: seq<PathError> := [NotAbsolute, DoubleSlash, DotSegment, DotDotSegment, TrailingSlash]

  /** The order in which `handleRequest` tries its rules on a URI: "//" before
      the leading "/", no "." rule and no trailing "/" rule. */
  const UriRules: seq<PathError> := [DoubleSlash, NotAbsolute, DotDotSegment]

  /** The first rule of `rules` that `path` breaks, if any. */
  function FirstViolated(path: string, rules: seq<PathError>): (r: Check)
    ensures r.Fail? ==> r.error in rules && Violates(path, r.error)
    ensures r.Fail? ==> exists k :: 0 <= k < |rules| && rules[k] == r.error &&
                          forall j :: 0 <= j < k ==> !Violates(path, rules[j])
    ensures r.Pass? <==> forall e :: e in rules ==> !Violates(path, e)
  {
    if |rules| == 0 then Pass
    else if Violates(path, rules[0]) then Fail(rules[0])
    else
      var r := FirstViolated(path, rules[1..]);
      assert forall e :: e in rules <==> e == rules[0] || e in rules[1..];
      assert r.Fail? ==> exists k :: 0 <= k < |rules| && rules[k] == r.error &&
                          forall j :: 0 <= j < k ==> !Violates(path, rules[j]) by {
        if r.Fail? {
          var k :| 0 <= k < |rules[1..]| && rules[1..][k] == r.error &&
                   forall j :: 0 <= j < k ==> !Violates(path, rules[1..][j]);
          assert forall j :: 0 < j < k + 1 ==> rules[j] == rules[1..][j - 1];
        }
      }
      r
  }

  /** assertNiceAbsolutePath (lib/server.ts:49-71): the first broken rule, or Pass. */
  function CheckNiceAbsolutePath(path: string): (r: Check)
    ensures r.Fail? ==> Violates(path, r.error) && r.error != LeadingDoubleSlash
  {
    if !StartsWith(path, "/") then Fail(NotAbsolute)
    else if HasDoubleSlash(path) then Fail(DoubleSlash)
    else if "." in Split(path) then Fail(DotSegment)
    else if ".." in Split(path) then Fail(DotDotSegment)
    else if EndsWith(path, "/") then Fail(TrailingSlash)
    else Pass
  }

  /** The URI checks at the top of handleRequest (lib/server.ts:209-222). */
  function CheckUri(uri: string): (r: Check)
    ensures r.Fail? ==> Violates(uri, r.error) && r.error in {DoubleSlash, NotAbsolute, DotDotSegment}
  {
    if HasDoubleSlash(uri) then Fail(DoubleSlash)
    else if !StartsWith(uri, "/") then Fail(NotAbsolute)
    else if ".." in Split(uri) then Fail(DotDotSegment)
    else Pass
  }

  /** The root check fails on exactly the first rule of RootRules the path
      breaks, and passes exactly when it breaks none. */
  lemma RootCheckIsFirstViolated(path: string)
    ensures CheckNiceAbsolutePath(path) == FirstViolated(path, RootRules)
  {
    var r0 := RootRules;
    var r1, r2, r3, r4 := r0[1..], r0[2..], r0[3..], r0[4..];
    assert r0[0] == NotAbsolute && r1[0] == DoubleSlash && r2[0] == DotSegment;
    assert r3[0] == DotDotSegment && r4[0] == TrailingSlash && r4[1..] == [];
    assert r1[1..] == r2 && r2[1..] == r3 && r3[1..] == r4;
    assert FirstViolated(path, r4) == if Violates(path, TrailingSlash) then Fail(TrailingSlash) else Pass;
    assert FirstViolated(path, r3) == if Violates(path, DotDotSegment) then Fail(DotDotSegment) else FirstViolated(path, r4);
    assert FirstViolated(path, r2) == if Violates(path, DotSegment) then Fail(DotSegment) else FirstViolated(path, r3);
    assert FirstViolated(path, r1) == if Violates(path, DoubleSlash) then Fail(DoubleSlash) else FirstViolated(path, r2);
  }

  /** The URI check fails on exactly the first rule of UriRules the URI breaks. */
  lemma UriCheckIsFirstViolated(uri: string)
    ensures CheckUri(uri) == FirstViolated(uri, UriRules)
  {
    var r0 := UriRules;
    var r1, r2 := r0[1..], r0[2..];
    assert r0[0] == DoubleSlash && r1[0] == NotAbsolute && r2[0] == DotDotSegment;
    assert r1[1..] == r2 && r2[1..] == [];
    assert FirstViolated(uri, r2) == if Violates(uri, DotDotSegment) then Fail(DotDotSegment) else Pass;
    assert FirstViolated(uri, r1) == if Violates(uri, NotAbsolute) then Fail(NotAbsolute) else FirstViolated(uri, r2);
  }

  /** A well-formed segment of a nice path. */
  predicate GoodSegment(seg: string)
  {
    seg != "" && NoSeparator(seg) && seg != "." && seg != ".."
  }

  /** The root check accepts exactly "/" followed by one or more good segments
      joined by "/" (this half: every such path is accepted). */
  lemma SegmentsMakeNicePath(segs: seq<string>)
    requires |segs| > 0 && forall k :: 0 <= k < |segs| ==> GoodSegment(segs[k])
    ensures CheckNiceAbsolutePath("/" + Join(segs)) == Pass
  {
    var p := "/" + Join(segs);
    SlashJoinParts(segs);
    assert "." !in Split(p) && ".." !in Split(p);
    SlashJoinEnd(segs);
  }

  lemma SlashJoinParts(segs: seq<string>)
    requires |segs| > 0 && forall k :: 0 <= k < |segs| ==> GoodSegment(segs[k])
    ensures Split("/" + Join(segs)) == [""] + segs
    ensures !HasDoubleSlash("/" + Join(segs))
  {
    var parts := [""] + segs;
    assert parts[1..] == segs;
    assert Join(parts) == "/" + Join(segs);
    assert forall k :: 0 < k < |parts| ==> parts[k] == segs[k - 1];
    JoinThenSplit(parts);
    NoEmptyMiddlePartNoDoubleSlash(parts);
  }

  lemma SlashJoinEnd(segs: seq<string>)
    requires |segs| > 0 && forall k :: 0 <= k < |segs| ==> GoodSegment(segs[k])
    ensures !EndsWith("/" + Join(segs), "/")
  {
    var joined := Join(segs);
    var p := "/" + joined;
    var last := segs[|segs| - 1];
    JoinEndsWithLastPart(segs);
    assert last[|last| - 1] != '/';
    assert p[|p| - 1] == joined[|joined| - 1];
    assert p[|p| - 1..] == [p[|p| - 1]];
  }

  /** ... and every accepted path is of that form: its segments after the
      leading "/" are all good. */
  lemma NicePathIsSegments(path: string)
    requires CheckNiceAbsolutePath(path) == Pass
    ensures path == "/" + Join(Split(path[1..]))
    ensures forall k :: 0 <= k < |Split(path[1..])| ==> GoodSegment(Split(path[1..])[k])
  {
    var q := path[1..];
    var parts := Split(q);
    assert path == "/" + q;
    SplitThenJoin(q);
    assert Split(path) == [""] + parts;
    SlashPrefixed(q);
    if |parts| == 1 {
      assert q == parts[0];
    } else {
      JoinEmptyEnds(parts);
      forall k | 0 < k < |parts| - 1 ensures parts[k] != "" {
        EmptyMiddlePartGivesDoubleSlash(parts, k);
      }
    }
    forall k | 0 <= k < |parts| ensures parts[k] != "." && parts[k] != ".." {
      assert Split(path)[k + 1] == parts[k];
    }
  }

  /** Every path the root check accepts is also an acceptable URI. */
  lemma NicePathIsValidUri(path: string)
    requires CheckNiceAbsolutePath(path) == Pass
    ensures CheckUri(path) == Pass
  {
  }

  /** Separator-free parts with no empty inner part: the split of their
      join gives them back, and the join contains no "//". */
  lemma JoinedParts(parts: seq<string>)
    requires |parts| > 0
    requires forall k :: 0 <= k < |parts| ==> NoSeparator(parts[k])
    requires forall k :: 0 < k < |parts| - 1 ==> parts[k] != ""
    ensures Split(Join(parts)) == parts && !HasDoubleSlash(Join(parts))
  {
    JoinThenSplit(parts);
    NoEmptyMiddlePartNoDoubleSlash(parts);
  }

  /** The two checks disagree: a "." segment passes the URI check but not the
      root check. */
  lemma UriCheckDiffersFromRootCheck()
    ensures CheckUri("/a/./b") == Pass && CheckNiceAbsolutePath("/a/./b") == Fail(DotSegment)
  {
    var p1 := ["", "a", ".", "b"];
    assert Join(p1) == "/a/./b";
    JoinedParts(p1);
  }

  /** A trailing "/" passes the URI check but not the root check. */
  lemma UriCheckAllowsTrailingSlash()
    ensures CheckUri("/a/") == Pass && CheckNiceAbsolutePath("/a/") == Fail(TrailingSlash)
  {
    var p2 := ["", "a", ""];
    assert Join(p2) == "/a/";
    JoinedParts(p2);
  }

  /** The two checks test "//" and the leading "/" in opposite orders. */
  lemma UriCheckTestsDoubleSlashFirst()
    ensures CheckUri("a//b") == Fail(DoubleSlash) && CheckNiceAbsolutePath("a//b") == Fail(NotAbsolute)
  {
    var s := "a//b";
    assert s[1] == '/' && s[2] == '/';
    assert s[..1][0] != '/';
  }

  /** The root check on a path given by its parts: with a leading "/" and no
      "//", it tests the parts for "." and "..", then the last part for
      emptiness (a trailing "/"). */
  lemma CheckOfParts(parts: seq<string>)
    requires |parts| > 1 && parts[0] == ""
    requires forall k :: 0 <= k < |parts| ==> NoSeparator(parts[k])
    requires forall k :: 0 < k < |parts| - 1 ==> parts[k] != ""
    ensures CheckNiceAbsolutePath(Join(parts)) ==
      if "." in parts then Fail(DotSegment)
      else if ".." in parts then Fail(DotDotSegment)
      else if parts[|parts| - 1] == "" then Fail(TrailingSlash)
      else Pass
  {
    var path := Join(parts);
    JoinedParts(parts);
    JoinEmptyEnds(parts);
    var last := parts[|parts| - 1];
    if last != "" {
      JoinEndsWithLastPart(parts);
      assert last[|last| - 1] != '/';
      assert path[|path| - 1..] == [path[|path| - 1]];
    }
  }

  /* The bad script root folders of the tests (test/server/index.ts:127-195),
     one lemma per test; Message gives the text each test expects. */

  lemma RootRejectsNotAbsolute()
    ensures CheckNiceAbsolutePath("my/script/root") == Fail(NotAbsolute)
  {
  }

  lemma RootRejectsTrailingSlash()
    ensures CheckNiceAbsolutePath("/my/script/root/") == Fail(TrailingSlash)
  {
    var parts := ["", "my", "script", "root", ""];
    assert Join(parts) == "/my/script/root/";
    CheckOfParts(parts);
    assert "." !in parts && ".." !in parts;
  }

  lemma RootRejectsDotSegment()
    ensures CheckNiceAbsolutePath("/my/./script/root") == Fail(DotSegment)
  {
    var parts := ["", "my", ".", "script", "root"];
    assert Join(parts) == "/my/./script/root";
    CheckOfParts(parts);
    assert parts[2] == ".";
  }

  lemma RootRejectsDotDotSegment()
    ensures CheckNiceAbsolutePath("/my/../script/root") == Fail(DotDotSegment)
  {
    var parts := ["", "my", "..", "script", "root"];
    assert Join(parts) == "/my/../script/root";
    CheckOfParts(parts);
    assert "." !in parts && parts[2] == "..";
  }

  lemma RootRejectsDoubleSlash()
    ensures CheckNiceAbsolutePath("/my//script/root") == Fail(DoubleSlash)
  {
    var path := "/my//script/root";
    assert path[3] == '/' && path[4] == '/';
  }
}
