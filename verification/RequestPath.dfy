/** The checks the request handler makes on a decoded path, and what they guarantee about the
    file that is opened. */
module RequestPath {
  import opened Options
  import opened Strings

  /** `path.find("..") != npos` */
  predicate HasDotDot(s: string) {
    exists i :: 0 <= i < |s| - 1 && s[i] == '.' && s[i + 1] == '.'
  }

  /** Absolute, and without "..". */
  predicate PathOk(path: string) {
    path != "" && path[0] == '/' && !HasDotDot(path)
  }

  /** A path that ends in a slash stands for the index page below it. */
  function WithIndex(path: string): string
    requires path != ""
  {
    if path[|path| - 1] == '/' then path + "index.html" else path
  }

  /** The last place of `c` among the first `n` characters, or -1. */
  function LastIndexBefore(s: string, c: char, n: nat): (i: int)
    requires n <= |s|
    ensures -1 <= i < n
    ensures i >= 0 ==> s[i] == c
    ensures forall j | i < j < n :: s[j] != c
  {
    if n == 0 then -1 else if s[n - 1] == c then n - 1 else LastIndexBefore(s, c, n - 1)
  }

  /** `s.find_last_of(c)`, with -1 for `npos`. */
  function LastIndexOf(s: string, c: char): (i: int)
    ensures -1 <= i < |s|
    ensures i >= 0 ==> s[i] == c
    ensures forall j | i < j < |s| :: s[j] != c
  {
    LastIndexBefore(s, c, |s|)
  }

  function Extension(path: string): string {
    var slash, dot := LastIndexOf(path, '/'), LastIndexOf(path, '.');
    if dot != -1 && dot > slash then path[dot + 1..] else ""
  }

  /** What follows the last dot is the extension, unless a slash comes behind that dot. */
  lemma ExtensionWrittenOut(front: string, e: string)
    requires '.' !in e && '/' !in e
    ensures Extension(front + "." + e) == e
    ensures Extension(front + "/" + e) == Extension(e) == ""
  {
    LastOfAll(front, '.', e, '/');
    LastOfAll(front, '/', e, '.');
    assert (front + "." + e)[|front| + 1..] == e;
  }

  lemma LastOfAll(front: string, c: char, e: string, d: char)
    requires c !in e && d !in e && c != d
    ensures LastIndexOf(front + [c] + e, c) == |front|
    ensures LastIndexOf(front + [c] + e, d) < |front|
    ensures LastIndexOf(e, c) == -1
  {
    var s := front + [c] + e;
    assert s[|front|] == c && forall j | |front| < j < |s| :: s[j] == e[j - |front| - 1];
  }

  /** The part of a string in front of its first NUL: all that an interface taking a C string
      sees of it. */
  function CString(s: string): (r: string)
    ensures r <= s && '\0' !in r && (|r| < |s| ==> s[|r|] == '\0')
  {
    if s == "" || s[0] == '\0' then "" else [s[0]] + CString(s[1..])
  }

  // ---- Segments

  /** The segments between slashes; there is always at least one. */
  function Segments(path: string): (segments: seq<string>)
    ensures segments != []
  {
    Split(path, '/')
  }

  /** Walking a path from a directory: `None` when it would step above the root. */
  function Walk(dir: seq<string>, segments: seq<string>): Option<seq<string>>
    decreases |segments|
  {
    if segments == [] then Some(dir)
    else if segments[0] == "" || segments[0] == "." then Walk(dir, segments[1..])
    else if segments[0] == ".." then
      if dir == [] then None else Walk(dir[..|dir| - 1], segments[1..])
    else Walk(dir + [segments[0]], segments[1..])
  }

  /** The segments that name something. */
  function Names(segments: seq<string>): seq<string> {
    if segments == [] then []
    else if segments[0] == "" || segments[0] == "." then Names(segments[1..])
    else [segments[0]] + Names(segments[1..])
  }

  lemma TailSlice(path: string, j: nat, n: nat)
    requires j + 1 + n <= |path|
    ensures path[j + 1..j + 1 + n] == path[1..][j..j + n]
  {
  }

  /** Segments are substrings. */
  lemma {:induction false} SegmentOccurs(path: string, k: nat) returns (i: nat)
    requires k < |Segments(path)|
    ensures i + |Segments(path)[k]| <= |path| && path[i..i + |Segments(path)[k]|] == Segments(path)[k]
    ensures k == 0 ==> i == 0
    decreases |path|
  {
    i := 0;
    if path != "" {
      var rest := Segments(path[1..]);
      if path[0] == '/' {
        if k > 0 {
          var j := SegmentOccurs(path[1..], k - 1);
          i := j + 1;
          TailSlice(path, j, |rest[k - 1]|);
        }
      } else {
        var j := SegmentOccurs(path[1..], k);
        if k > 0 {
          i := j + 1;
          TailSlice(path, j, |rest[k]|);
        } else {
          assert path[..1 + |rest[0]|] == [path[0]] + path[1..][..|rest[0]|];
        }
      }
    }
  }

  lemma DotDotSlice(path: string, i: nat)
    requires i + 2 <= |path| && path[i..i + 2] == ".."
    ensures HasDotDot(path)
  {
    assert path[i] == path[i..i + 2][0] && path[i + 1] == path[i..i + 2][1];
  }

  lemma NoDotDotSegment(path: string)
    requires !HasDotDot(path)
    ensures ".." !in Segments(path)
  {
    if ".." in Segments(path) {
      var k :| 0 <= k < |Segments(path)| && Segments(path)[k] == "..";
      var i := SegmentOccurs(path, k);
      DotDotSlice(path, i);
      assert false;
    }
  }

  lemma {:induction false} WalkDown(dir: seq<string>, segments: seq<string>)
    requires ".." !in segments
    ensures Walk(dir, segments) == Some(dir + Names(segments))
    decreases |segments|
  {
    if segments == [] {
      assert dir + [] == dir;
    } else {
      var next := if segments[0] == "" || segments[0] == "." then dir else dir + [segments[0]];
      WalkDown(next, segments[1..]);
      assert dir + [segments[0]] + Names(segments[1..]) == dir + ([segments[0]] + Names(segments[1..]));
    }
  }

  lemma {:induction false} WalkAppend(dir: seq<string>, a: seq<string>, b: seq<string>)
    requires Walk(dir, a).Some?
    ensures Walk(dir, a + b) == Walk(Walk(dir, a).value, b)
    decreases |a|
  {
    if a == [] {
      assert a + b == b;
    } else {
      assert (a + b)[1..] == a[1..] + b;
      if a[0] == "" || a[0] == "." {
        WalkAppend(dir, a[1..], b);
      } else if a[0] == ".." {
        WalkAppend(dir[..|dir| - 1], a[1..], b);
      } else {
        WalkAppend(dir + [a[0]], a[1..], b);
      }
    }
  }

  /** Putting an absolute path behind a directory puts its segments behind those of the
      directory. */
  lemma {:induction false} SegmentsAppend(dir: string, path: string)
    requires path != "" && path[0] == '/'
    ensures Segments(dir + path) == Segments(dir) + Segments(path)[1..]
    decreases |dir|
  {
    if dir == "" {
      assert dir + path == path;
    } else {
      assert (dir + path)[1..] == dir[1..] + path;
      SegmentsAppend(dir[1..], path);
    }
  }

  lemma IndexAddsNoDotDot(path: string)
    requires PathOk(path)
    ensures PathOk(WithIndex(path))
  {
    var q := WithIndex(path);
    assert q[|path| - 1] == path[|path| - 1];
    forall i | 0 <= i < |q| - 1 && q[i] == '.' ensures q[i + 1] != '.' {
      if i < |path| - 1 {
        assert q[i] == path[i] && q[i + 1] == path[i + 1];
      } else if i >= |path| {
        assert q[i] == "index.html"[i - |path|] && q[i + 1] == "index.html"[i + 1 - |path|];
      }
    }
  }

  /** A path that passes the checks only ever leads down, from whatever directory and over every
      initial part of it. */
  lemma CheckedPathLeadsDown(path: string, dir: seq<string>, k: nat)
    requires PathOk(path) && k <= |Segments(WithIndex(path))|
    ensures Walk(dir, Segments(WithIndex(path))[..k]) == Some(dir + Names(Segments(WithIndex(path))[..k]))
  {
    IndexAddsNoDotDot(path);
    NoDotDotSegment(WithIndex(path));
    WalkDown(dir, Segments(WithIndex(path))[..k]);
  }

  /** The file that is opened lies below the document root, wherever that is: from any directory
      `dir` in which the root, as far as a C string shows it, names a directory. */
  lemma OpenedFileBelowRoot(docRoot: string, path: string, dir: seq<string>, root: seq<string>)
    requires Walk(dir, Segments(CString(docRoot))) == Some(root)
    requires PathOk(path)
    ensures var file := CString(docRoot + WithIndex(path));
            Walk(dir, Segments(file)).Some? && root <= Walk(dir, Segments(file)).value
  {
    var q := WithIndex(path);
    if '\0' in docRoot {
      CStringCut(docRoot, q);
    } else {
      var seen := CString(q);
      IndexAddsNoDotDot(path);
      CStringAppend("", docRoot);
      assert CString(docRoot) == docRoot;
      CStringAppend(docRoot, q);
      assert seen[0] == q[0];
      NoDotDotSegment(seen);
      SegmentsAppend(docRoot, seen);
      WalkAppend(dir, Segments(docRoot), Segments(seen)[1..]);
      WalkDown(root, Segments(seen)[1..]);
    }
  }

  lemma CStringCut(a: string, b: string)
    requires '\0' in a
    ensures CString(a + b) == CString(a)
  {
    var r, n := CString(a + b), |CString(a)|;
    assert n == |a| ==> CString(a) == a;
    assert forall i | 0 <= i < n :: (a + b)[i] == CString(a)[i] != '\0';
    assert (a + b)[n] == '\0';
    assert |r| == n;
  }

  lemma CStringAppend(a: string, b: string)
    requires '\0' !in a
    ensures CString(a + b) == a + CString(b)
  {
    var r, n := CString(a + b), |a| + |CString(b)|;
    assert forall i | 0 <= i < n :: (a + b)[i] != '\0';
    assert |r| >= n;
    if |CString(b)| < |b| {
      assert (a + b)[n] == '\0';
      assert |r| <= n;
    }
    assert a + CString(b) == (a + b)[..n];
  }

  // ---- The extension

  lemma {:induction false} LastSegment(path: string)
    ensures Segments(path)[|Segments(path)| - 1] == path[LastIndexOf(path, '/') + 1..]
    ensures |Segments(path)| == 1 <==> LastIndexOf(path, '/') == -1
    decreases |path|
  {
    if path != "" {
      LastSegment(path[1..]);
      var i, j := LastIndexOf(path, '/'), LastIndexOf(path[1..], '/');
      if j >= 0 {
        assert path[1..][j] == path[j + 1];
        assert i == j + 1;
        assert path[i + 1..] == path[1..][j + 1..];
      } else {
        assert forall k | 0 < k < |path| :: path[k] == path[1..][k - 1];
        if path[0] == '/' {
          assert i == 0;
        } else {
          assert i == -1;
          assert path == [path[0]] + path[1..];
        }
      }
    }
  }

  lemma NotInTail(s: string, c: char, i: int)
    requires -1 <= i < |s| && forall j | i < j < |s| :: s[j] != c
    ensures c !in s[i + 1..]
  {
  }

  /** The extension never holds a slash or a dot. */
  lemma ExtensionIsPlain(path: string)
    ensures '/' !in Extension(path) && '.' !in Extension(path)
  {
    var slash, dot := LastIndexOf(path, '/'), LastIndexOf(path, '.');
    NotInTail(path, '.', dot);
    if dot > slash {
      NotInTail(path, '/', dot);
    }
  }

  lemma SplitAtDot(path: string, slash: int, dot: int)
    requires -1 <= slash < dot < |path| && path[dot] == '.'
    ensures path[slash + 1..] == path[slash + 1..dot] + "." + path[dot + 1..]
  {
  }

  predicate DotJoins(stem: string, extension: string, name: string) {
    name == stem + "." + extension
  }

  /** `extension` is what follows the last dot of `name`, or nothing if `name` has no dot. */
  ghost predicate IsExtensionOf(extension: string, name: string) {
    if '.' in name then '.' !in extension && exists stem :: DotJoins(stem, extension, name) else extension == ""
  }

  lemma TextAfterLastDot(path: string, slash: int, dot: int)
    requires -1 <= slash < dot < |path| && path[dot] == '.'
    requires forall j | dot < j < |path| :: path[j] != '.'
    ensures IsExtensionOf(path[dot + 1..], path[slash + 1..])
  {
    NotInTail(path, '.', dot);
    SplitAtDot(path, slash, dot);
    assert path[slash + 1..][dot - slash - 1] == '.';
    assert DotJoins(path[slash + 1..dot], path[dot + 1..], path[slash + 1..]);
  }

  lemma NoDotNoExtension(path: string, slash: int)
    requires -1 <= slash < |path| && forall j | slash < j < |path| :: path[j] != '.'
    ensures IsExtensionOf("", path[slash + 1..])
  {
    NotInTail(path, '.', slash);
  }

  lemma ExtensionOfTail(path: string)
    ensures IsExtensionOf(Extension(path), path[LastIndexOf(path, '/') + 1..])
  {
    var slash, dot := LastIndexOf(path, '/'), LastIndexOf(path, '.');
    if dot > slash {
      TextAfterLastDot(path, slash, dot);
      assert Extension(path) == path[dot + 1..];
    } else {
      NoDotNoExtension(path, slash);
      assert Extension(path) == "";
    }
  }

  /** The extension is that of the last segment. */
  lemma ExtensionOfLastSegment(path: string)
    ensures IsExtensionOf(Extension(path), Segments(path)[|Segments(path)| - 1])
  {
    LastSegment(path);
    ExtensionOfTail(path);
  }
}
