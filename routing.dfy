/** The routing part of `handleRequest` (lib/server.ts:182, 209-231, 326-334):
    a URI that breaks a rule is refused, a URI under the virtual root is read
    from the script root, and any other URI is redirected into the virtual root. */
module Routing {
  import opened Js
  import opened PathRules

  /** `/${virtualRootFolder}/`, the prefix of every URI served from the script root. */
  function RootPrefix(virtualRootFolder: string): (prefix: string)
    ensures |prefix| == |virtualRootFolder| + 2 && StartsWith(prefix, "/") && EndsWith(prefix, "/")
    ensures prefix[1..|prefix| - 1] == virtualRootFolder
  {
    "/" + virtualRootFolder + "/"
  }

  /** What the synchronous part of handleRequest decides: throw (the returned
      promise rejects with `error`), start reading `filePath`, or redirect. */
  datatype Route = Invalid(error: Error) | ReadFile(filePath: string) | RedirectTo(uri: string)

  /** handleRequest up to its first suspension. The check for a relative path
      starting with "/" (lib/server.ts:326-329) is kept as written; the
      contract shows it never fires. */
  function RouteRequest(virtualRootFolder: string, scriptRootFolder: string, uri: string): (route: Route)
    ensures route.Invalid? <==> CheckUri(uri).Fail?
    ensures route.Invalid? ==> route.error == Plain(Message("uri", CheckUri(uri).error))
    ensures route.RedirectTo? <==> CheckUri(uri) == Pass && !StartsWith(uri, RootPrefix(virtualRootFolder))
    ensures route.RedirectTo? ==> route.uri == "/" + virtualRootFolder + scriptRootFolder + "/" + uri[1..]
    ensures route.ReadFile? ==> route.filePath == "/" + uri[|RootPrefix(virtualRootFolder)|..]
  {
    match CheckUri(uri)
    case Fail(e) => Invalid(Plain(Message("uri", e)))
    case Pass =>
      var prefix := RootPrefix(virtualRootFolder);
      if StartsWith(uri, prefix) then ReadFile("/" + SubstringFrom(uri, |prefix|))
      else
        var relativePath := SubstringFrom(uri, 1);
        assert |uri| > 1 ==> uri[0] == '/' && uri[1] != '/';
        if StartsWith(relativePath, "/") then Invalid(Plain(Message("uri", LeadingDoubleSlash)))
        else RedirectTo("/" + virtualRootFolder + scriptRootFolder + "/" + relativePath)
  }

  /** The file path read for a URI under the virtual root is the tail of the
      URI from the "/" that ends the prefix: it starts with "/", has no "//"
      and no ".." segment (the promise of the comment at lib/server.ts:228-230). */
  lemma FilePathIsClean(virtualRootFolder: string, scriptRootFolder: string, uri: string)
    requires RouteRequest(virtualRootFolder, scriptRootFolder, uri).ReadFile?
    ensures var filePath := RouteRequest(virtualRootFolder, scriptRootFolder, uri).filePath;
      filePath == uri[|RootPrefix(virtualRootFolder)| - 1..] &&
      StartsWith(filePath, "/") && !HasDoubleSlash(filePath) && ".." !in Split(filePath)
  {
    var prefix := RootPrefix(virtualRootFolder);
    var filePath := RouteRequest(virtualRootFolder, scriptRootFolder, uri).filePath;
    var n := |prefix| - 1;
    assert uri[n] == prefix[n] == '/';
    assert filePath == uri[n..];
    forall i | 0 <= i < |filePath| - 1 ensures !(filePath[i] == '/' && filePath[i + 1] == '/') {
      assert filePath[i] == uri[n + i] && filePath[i + 1] == uri[n + i + 1];
    }
    var rest := uri[n + 1..];
    assert uri == uri[..n] + "/" + rest;
    SplitConcat(uri[..n], rest);
    assert filePath == "" + "/" + rest;
    SplitConcat("", rest);
  }

  /** The split of a valid URI after its leading "/": no part is "..", and
      every part but the last is non-empty. */
  lemma UriTailParts(uri: string)
    requires CheckUri(uri) == Pass
    ensures uri == "/" + uri[1..] && Split(uri) == [""] + Split(uri[1..])
    ensures forall k :: 0 <= k < |Split(uri[1..])| ==> Split(uri[1..])[k] != ".." && NoSeparator(Split(uri[1..])[k])
    ensures forall k :: 0 <= k < |Split(uri[1..])| - 1 ==> Split(uri[1..])[k] != ""
  {
    var tail := Split(uri[1..]);
    assert uri == "/" + uri[1..];
    assert Split(uri) == [""] + tail;
    SplitThenJoin(uri);
    forall k | 0 <= k < |tail| ensures tail[k] != ".." && NoSeparator(tail[k]) {
      assert Split(uri)[k + 1] == tail[k];
    }
    forall k | 0 <= k < |tail| - 1 ensures tail[k] != "" {
      EmptyMiddlePartGivesDoubleSlash(Split(uri), k + 1);
      assert Split(uri)[k + 1] == tail[k];
    }
  }

  lemma JoinPair(virtualRootFolder: string)
    ensures Join(["", virtualRootFolder]) == "/" + virtualRootFolder
  {
    assert ["", virtualRootFolder][1..] == [virtualRootFolder];
  }

  lemma JoinHead(virtualRootFolder: string, segs: seq<string>)
    requires |segs| > 0
    ensures Join(["", virtualRootFolder] + segs) == "/" + virtualRootFolder + "/" + Join(segs)
  {
    JoinAppend(["", virtualRootFolder], segs);
    JoinPair(virtualRootFolder);
  }

  lemma SlashAssoc(a: string, b: string)
    ensures a + "/" + b == a + ("/" + b)
  {
  }

  /** The redirect target joins "", the virtual root, the segments of the
      script root and the parts of the original URI. */
  lemma RedirectTargetJoin(virtualRootFolder: string, segs: seq<string>, rel: string)
    requires |segs| > 0
    ensures Join(["", virtualRootFolder] + segs + Split(rel)) ==
      "/" + virtualRootFolder + ("/" + Join(segs)) + "/" + rel
  {
    SplitThenJoin(rel);
    JoinHead(virtualRootFolder, segs);
    JoinAppend(["", virtualRootFolder] + segs, Split(rel));
    SlashAssoc("/" + virtualRootFolder, Join(segs));
  }

  /** The parts of the redirect target are separator-free, none is "..",
      and none strictly inside is empty. */
  lemma RedirectTargetParts(virtualRootFolder: string, segs: seq<string>, tail: seq<string>)
    requires GoodSegment(virtualRootFolder)
    requires forall k :: 0 <= k < |segs| ==> GoodSegment(segs[k])
    requires forall k :: 0 <= k < |tail| ==> tail[k] != ".." && NoSeparator(tail[k])
    requires forall k :: 0 <= k < |tail| - 1 ==> tail[k] != ""
    ensures var parts := ["", virtualRootFolder] + segs + tail;
      (forall k :: 0 <= k < |parts| ==> NoSeparator(parts[k]) && parts[k] != "..") &&
      (forall k :: 0 < k < |parts| - 1 ==> parts[k] != "")
  {
    var parts := ["", virtualRootFolder] + segs + tail;
    forall k | 0 <= k < |parts|
      ensures NoSeparator(parts[k]) && parts[k] != ".."
      ensures 0 < k < |parts| - 1 ==> parts[k] != ""
    {
      if k >= 2 + |segs| {
        assert parts[k] == tail[k - 2 - |segs|];
      } else if k >= 2 {
        assert parts[k] == segs[k - 2];
      }
    }
  }

  /** The redirect target of a valid URI is itself a valid URI. */
  lemma RedirectTargetIsValidUri(virtualRootFolder: string, scriptRootFolder: string, uri: string)
    requires GoodSegment(virtualRootFolder) && CheckNiceAbsolutePath(scriptRootFolder) == Pass
    requires CheckUri(uri) == Pass
    ensures CheckUri("/" + virtualRootFolder + scriptRootFolder + "/" + uri[1..]) == Pass
  {
    var segs, tail := Split(scriptRootFolder[1..]), Split(uri[1..]);
    var parts := ["", virtualRootFolder] + segs + tail;
    NicePathIsSegments(scriptRootFolder);
    UriTailParts(uri);
    RedirectTargetJoin(virtualRootFolder, segs, uri[1..]);
    RedirectTargetParts(virtualRootFolder, segs, tail);
    JoinedParts(parts);
  }

  /** Following a redirect lands under the virtual root: the target is a
      valid URI that reads the requested path inside the script root. */
  lemma RedirectLeadsIntoRoot(virtualRootFolder: string, scriptRootFolder: string, uri: string)
    requires GoodSegment(virtualRootFolder) && CheckNiceAbsolutePath(scriptRootFolder) == Pass
    requires RouteRequest(virtualRootFolder, scriptRootFolder, uri).RedirectTo?
    ensures RouteRequest(virtualRootFolder, scriptRootFolder, RouteRequest(virtualRootFolder, scriptRootFolder, uri).uri) ==
      ReadFile(scriptRootFolder + "/" + uri[1..])
  {
    var target := RouteRequest(virtualRootFolder, scriptRootFolder, uri).uri;
    RedirectTargetIsValidUri(virtualRootFolder, scriptRootFolder, uri);
    var prefix := RootPrefix(virtualRootFolder);
    assert scriptRootFolder == "/" + scriptRootFolder[1..];
    assert target == prefix + scriptRootFolder[1..] + "/" + uri[1..];
    assert StartsWith(target, prefix);
    assert target[|prefix|..] == scriptRootFolder[1..] + "/" + uri[1..];
  }

  lemma TestUriIsValid()
    ensures CheckUri("/ui/index.js") == Pass
  {
    var parts := ["", "ui", "index.js"];
    assert Join(parts) == "/ui/index.js";
    JoinedParts(parts);
    assert ".." !in parts;
  }

  /** The redirect of the first server test (test/server/index.ts:16-38),
      with the expected URI written as the test writes it. */
  lemma RedirectScenario()
    ensures RouteRequest("$root", "/my/script/root", "/ui/index.js") == RedirectTo("/" + "$root" + "/my/script/root" + "/ui/index.js")
  {
    TestUriIsValid();
    var uri := "/ui/index.js";
    assert uri[1] != RootPrefix("$root")[1];
    var target, tail := "/" + "$root" + "/my/script/root", uri[1..];
    assert "/" + tail == uri;
    assert target + "/" + tail == target + ("/" + tail);
  }
}
