/** The few JavaScript built-ins the server relies on, given the meaning they
    have in the language: `String.prototype.startsWith`, `endsWith`,
    `includes("//")`, `split("/")`, `substring`, the `Error` object with an
    optional `cause`, and the two ways a promise settles. */
module Js {

  datatype Option<+T> = None | Some(value: T)

  /** The `readErrorCode` tag that lib/server.ts attaches to an `Error` (ETryReadErrorCode). */
  datatype ReadErrorCode = FileNotFound | IoError

  /** An `Error` object: its message, its optional `cause`, and the optional
      `readErrorCode` property a read error carries. */
  datatype Error = Error(message: string, cause: Option<Error>, readErrorCode: Option<ReadErrorCode>)

  /** `new Error(message)` */
  function Plain(message: string): Error
  {
    Error(message, None, None)
  }

  /** How a promise ends: fulfilled with a value, or rejected with the thrown error. */
  datatype Settled<+T> = Fulfilled(value: T) | Rejected(reason: Error)

  predicate StartsWith(s: string, prefix: string)
  {
    |prefix| <= |s| && s[..|prefix|] == prefix
  }

  predicate EndsWith(s: string, suffix: string)
  {
    |suffix| <= |s| && s[|s| - |suffix|..] == suffix
  }

  /** `s.includes("//")` */
  predicate HasDoubleSlash(s: string)
  {
    exists i :: 0 <= i < |s| - 1 && s[i] == '/' && s[i + 1] == '/'
  }

  /** `s.split("/")`: the text between separators, so that "" gives [""],
      "/" gives ["", ""] and "/a" gives ["", "a"]. */
  function Split(s: string): (parts: seq<string>)
    ensures |parts| > 0
  {
    if |s| == 0 then [""]
    else if s[0] == '/' then [""] + Split(s[1..])
    else
      var rest := Split(s[1..]);
      [[s[0]] + rest[0]] + rest[1..]
  }

  /** `parts.join("/")`, the inverse of Split. */
  function Join(parts: seq<string>): string
    requires |parts| > 0
  {
    if |parts| == 1 then parts[0] else parts[0] + "/" + Join(parts[1..])
  }

  function Clamp(i: int, n: nat): (c: nat)
    ensures c <= n
  {
    if i < 0 then 0 else if i > n then n else i
  }

  /** `s.substring(start, end)`: both bounds clamped to the string, swapped when start > end. */
  function Substring(s: string, start: int, end: int): string
  {
    var a := Clamp(start, |s|);
    var b := Clamp(end, |s|);
    if a <= b then s[a..b] else s[b..a]
  }

  /** `s.substring(start)` */
  function SubstringFrom(s: string, start: int): string
  {
    s[Clamp(start, |s|)..]
  }

  /** Every part of a split is free of separators. */
  predicate NoSeparator(part: string)
  {
    '/' !in part
  }

  lemma {:induction false} SplitThenJoin(s: string)
    ensures Join(Split(s)) == s
    ensures forall k :: 0 <= k < |Split(s)| ==> NoSeparator(Split(s)[k])
  {
    if |s| == 0 {
    } else if s[0] == '/' {
      SplitThenJoin(s[1..]);
      assert s == "/" + s[1..];
    } else {
      SplitThenJoin(s[1..]);
      var rest := Split(s[1..]);
      if |rest| == 1 {
      } else {
        assert Join(rest) == rest[0] + "/" + Join(rest[1..]);
        assert [[s[0]] + rest[0]] + rest[1..] == [[s[0]] + rest[0]] + rest[1..];
      }
      assert s == [s[0]] + s[1..];
    }
  }

  lemma {:induction false} SplitOfPart(part: string)
    requires NoSeparator(part)
    ensures Split(part) == [part]
  {
    if |part| > 0 {
      SplitOfPart(part[1..]);
      assert part == [part[0]] + part[1..];
    }
  }

  lemma {:induction false} SplitOfPrefixed(part: string, rest: string)
    requires NoSeparator(part)
    ensures Split(part + "/" + rest) == [part] + Split(rest)
  {
    if |part| == 0 {
      assert part + "/" + rest == "/" + rest;
      assert ("/" + rest)[1..] == rest;
    } else {
      var whole := part + "/" + rest;
      SplitOfPrefixed(part[1..], rest);
      assert whole[0] == part[0] && part[0] != '/';
      assert whole[1..] == part[1..] + "/" + rest;
      assert [part[0]] + part[1..] == part;
    }
  }

  lemma {:induction false} JoinThenSplit(parts: seq<string>)
    requires |parts| > 0
    requires forall k :: 0 <= k < |parts| ==> NoSeparator(parts[k])
    ensures Split(Join(parts)) == parts
  {
    if |parts| == 1 {
      SplitOfPart(parts[0]);
    } else {
      JoinThenSplit(parts[1..]);
      SplitOfPrefixed(parts[0], Join(parts[1..]));
    }
  }

  lemma {:induction false} JoinAppend(a: seq<string>, b: seq<string>)
    requires |a| > 0 && |b| > 0
    ensures Join(a + b) == Join(a) + "/" + Join(b)
  {
    if |a| > 1 {
      JoinAppend(a[1..], b);
      assert (a + b)[1..] == a[1..] + b;
    }
  }

  /** An empty part strictly inside the list joins as "//". */
  lemma EmptyMiddlePartGivesDoubleSlash(parts: seq<string>, k: nat)
    requires 0 < k < |parts| - 1
    ensures parts[k] == "" ==> HasDoubleSlash(Join(parts))
  {
    if parts[k] == "" {
      JoinAppend(parts[..k], parts[k..]);
      assert parts[..k] + parts[k..] == parts;
      var left := Join(parts[..k]);
      assert Join(parts[k..]) == "" + "/" + Join(parts[k + 1..]);
      var s := Join(parts);
      assert s[|left|] == '/' && s[|left| + 1] == '/';
    }
  }

  /** Putting "/" in front of a string that starts with "/" or contains "//"
      gives a string containing "//"; in front of "" or a string ending in "/",
      one ending in "/". */
  lemma SlashPrefixed(q: string)
    ensures HasDoubleSlash(q) || StartsWith(q, "/") ==> HasDoubleSlash("/" + q)
    ensures q == "" || EndsWith(q, "/") ==> EndsWith("/" + q, "/")
  {
    var p := "/" + q;
    if HasDoubleSlash(q) {
      var i :| 0 <= i < |q| - 1 && q[i] == '/' && q[i + 1] == '/';
      assert p[i + 1] == '/' && p[i + 2] == '/';
    }
    if StartsWith(q, "/") {
      assert p[0] == '/' && p[1] == '/';
    }
    if EndsWith(q, "/") {
      assert p[|p| - 1..] == q[|q| - 1..];
    }
  }

  /** A first part that is empty makes the join start with "/", a last part
      that is empty makes it end with "/". */
  lemma JoinEmptyEnds(parts: seq<string>)
    requires |parts| > 1
    ensures parts[0] == "" ==> StartsWith(Join(parts), "/")
    ensures parts[|parts| - 1] == "" ==> EndsWith(Join(parts), "/")
  {
    var n := |parts| - 1;
    JoinAppend(parts[..n], [parts[n]]);
    assert parts[..n] + [parts[n]] == parts;
    var left := Join(parts[..n]);
    if parts[n] == "" {
      assert Join(parts) == left + "/";
    }
  }

  /** Separator-free parts whose inner parts are all non-empty join without "//". */
  lemma {:induction false} NoEmptyMiddlePartNoDoubleSlash(parts: seq<string>)
    requires |parts| > 0
    requires forall k :: 0 <= k < |parts| ==> NoSeparator(parts[k])
    requires forall k :: 0 < k < |parts| - 1 ==> parts[k] != ""
    ensures !HasDoubleSlash(Join(parts))
  {
    var s := Join(parts);
    if |parts| == 1 {
      assert forall i :: 0 <= i < |s| ==> s[i] != '/';
    } else {
      var rest := parts[1..];
      var j := Join(rest);
      NoEmptyMiddlePartNoDoubleSlash(rest);
      assert s == parts[0] + "/" + j;
      assert j != [] ==> j[0] != '/' by {
        if |rest| > 1 {
          assert j == rest[0] + "/" + Join(rest[1..]);
          assert rest[0] != "" && j[0] == rest[0][0];
        }
      }
      forall i | 0 <= i < |s| - 1 ensures !(s[i] == '/' && s[i + 1] == '/') {
        if i < |parts[0]| {
          assert s[i] == parts[0][i];
        } else if i == |parts[0]| {
          assert s[i + 1] == j[0];
        } else {
          assert s[i] == j[i - |parts[0]| - 1] && s[i + 1] == j[i - |parts[0]|];
        }
      }
    }
  }

  /** The last character of a join is the last character of the last part. */
  lemma {:induction false} JoinEndsWithLastPart(parts: seq<string>)
    requires |parts| > 0 && parts[|parts| - 1] != ""
    ensures |Join(parts)| > 0 && Join(parts)[|Join(parts)| - 1] == parts[|parts| - 1][|parts[|parts| - 1]| - 1]
  {
    if |parts| > 1 {
      JoinEndsWithLastPart(parts[1..]);
    }
  }

  /** Splitting around a separator splits each side on its own. */
  lemma SplitConcat(a: string, b: string)
    ensures Split(a + "/" + b) == Split(a) + Split(b)
  {
    SplitThenJoin(a);
    SplitThenJoin(b);
    var pa, pb := Split(a), Split(b);
    JoinAppend(pa, pb);
    var parts := pa + pb;
    assert forall k :: 0 <= k < |parts| ==> NoSeparator(parts[k]) by {
      forall k | 0 <= k < |parts| ensures NoSeparator(parts[k]) {
        if k >= |pa| {
          assert parts[k] == pb[k - |pa|];
        }
      }
    }
    JoinThenSplit(parts);
  }
}
