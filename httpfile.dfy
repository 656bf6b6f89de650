/** The static-file server (src/httpfile.js): how a request path becomes a
    file path under `STATIC_DIR`, the containment check that answers 403,
    and the `Content-Type` chosen from the file's extension. Paths follow
    Node's POSIX `path` module. */
module HttpFile {
  import opened Json

  // ----- POSIX path normalisation -----

  /** A segment that survives normalisation. */
  predicate Plain(seg: string) {
    seg != "" && seg != "." && seg != ".." && '/' !in seg
  }

  predicate AllPlain(segs: seq<string>) {
    forall i :: 0 <= i < |segs| ==> Plain(segs[i])
  }

  /** One segment of an absolute path applied to the directories resolved so
      far: empty and `.` segments vanish, `..` climbs, and never above `/`. */
  function Step(stack: seq<string>, seg: string): seq<string> {
    if seg == "" || seg == "." then stack
    else if seg == ".." then (if |stack| == 0 then stack else stack[..|stack| - 1])
    else stack + [seg]
  }

  /** Reads `s` left to right; `cur` is the segment being read. */
  function Scan(stack: seq<string>, cur: string, s: string): seq<string>
    decreases |s|
  {
    if |s| == 0 then Step(stack, cur)
    else if s[0] == '/' then Scan(Step(stack, cur), "", s[1..])
    else Scan(stack, cur + [s[0]], s[1..])
  }

  function Join(segs: seq<string>): string
    decreases |segs|
  {
    if |segs| == 0 then ""
    else if |segs| == 1 then segs[0]
    else segs[0] + "/" + Join(segs[1..])
  }

  /** An absolute path from its segments; a trailing separator is kept. */
  function Render(segs: seq<string>, trailing: bool): string {
    if |segs| == 0 then "/" else if trailing then "/" + Join(segs) + "/" else "/" + Join(segs)
  }

  /** The segments of an absolute path after normalisation. */
  function Segments(p: string): seq<string> {
    Scan([], "", p)
  }

  /** `path.normalize` of an absolute path. */
  function Normalize(p: string): (n: string)
    requires |p| > 0 && p[0] == '/'
    ensures |n| > 0 && n[0] == '/'
  {
    Render(Segments(p), p[|p| - 1] == '/')
  }

  // ----- the request handler -----

  /** `STATIC_DIR = path.join(__dirname, '../')`. */
  function StaticDir(dirname: string): (d: string)
    requires |dirname| > 0 && dirname[0] == '/'
    ensures |d| > 0 && d[0] == '/'
  {
    Normalize(dirname + "/../")
  }

  /** `/` names `index.html`; any other path loses its first character. */
  function RequestPath(pathname: string): string {
    if pathname == "/" then "index.html" else if |pathname| == 0 then "" else pathname[1..]
  }

  /** `path.join(STATIC_DIR, filePath)` before normalisation: an empty
      argument is skipped. */
  function Joined(dirname: string, filePath: string): (j: string)
    requires |dirname| > 0 && dirname[0] == '/'
    ensures |j| > 0 && j[0] == '/'
  {
    if |filePath| == 0 then StaticDir(dirname) else StaticDir(dirname) + "/" + filePath
  }

  /** What the handler does before touching the file system: `Forbidden` is
      the 403 of the containment check; `Serve` goes on to `fs.statSync`. */
  datatype Outcome = Forbidden | Serve(fullPath: string)

  function Handle(dirname: string, pathname: string): Outcome
    requires |dirname| > 0 && dirname[0] == '/'
  {
    var safePath := Normalize(Joined(dirname, RequestPath(pathname)));
    var fullPath := Normalize(safePath);
    if Normalize(StaticDir(dirname)) <= fullPath then Serve(fullPath) else Forbidden
  }

  // ----- normalisation lemmas -----

  lemma {:induction false} ScanWord(stack: seq<string>, cur: string, w: string, rest: string)
    requires '/' !in w
    ensures Scan(stack, cur, w + rest) == Scan(stack, cur + w, rest)
    decreases |w|
  {
    if |w| > 0 {
      assert (w + rest)[0] == w[0];
      assert (w + rest)[1..] == w[1..] + rest;
      assert '/' !in w[1..] by {
        forall i | 0 <= i < |w[1..]| ensures w[1..][i] != '/' {
          assert w[1..][i] == w[i + 1];
        }
      }
      ScanWord(stack, cur + [w[0]], w[1..], rest);
      assert cur + [w[0]] + w[1..] == cur + w;
    } else {
      assert w + rest == rest;
      assert cur + w == cur;
    }
  }

  /** Reading the joined segments and then a separator pushes them all. */
  lemma {:induction false} ScanJoinSlash(stack: seq<string>, segs: seq<string>, rest: string)
    requires AllPlain(segs)
    ensures Scan(stack, "", Join(segs) + "/" + rest) == Scan(stack + segs, "", rest)
    decreases |segs|
  {
    if |segs| == 0 {
      assert Join(segs) + "/" + rest == "/" + rest;
      assert ("/" + rest)[1..] == rest;
      assert stack + segs == stack;
    } else {
      var a := segs[0];
      assert Plain(a);
      if |segs| == 1 {
        assert Join(segs) + "/" + rest == a + ("/" + rest);
        ScanWord(stack, "", a, "/" + rest);
        assert "" + a == a;
        assert ("/" + rest)[1..] == rest;
        assert stack + segs == stack + [a];
      } else {
        assert Join(segs) + "/" + rest == a + ("/" + (Join(segs[1..]) + "/" + rest));
        ScanWord(stack, "", a, "/" + (Join(segs[1..]) + "/" + rest));
        assert "" + a == a;
        assert ("/" + (Join(segs[1..]) + "/" + rest))[1..] == Join(segs[1..]) + "/" + rest;
        assert AllPlain(segs[1..]) by {
          forall i | 0 <= i < |segs[1..]| ensures Plain(segs[1..][i]) {
            assert segs[1..][i] == segs[i + 1];
          }
        }
        ScanJoinSlash(stack + [a], segs[1..], rest);
        assert stack + [a] + segs[1..] == stack + segs;
      }
    }
  }

  /** Reading the joined segments to the end pushes them all. */
  lemma {:induction false} ScanJoinEnd(stack: seq<string>, segs: seq<string>)
    requires AllPlain(segs)
    ensures Scan(stack, "", Join(segs)) == stack + segs
    decreases |segs|
  {
    if |segs| == 0 {
      assert stack + segs == stack;
    } else if |segs| == 1 {
      ScanLastWord(stack, segs[0]);
      assert stack + segs == stack + [segs[0]];
    } else {
      var a := segs[0];
      PlainTail(segs);
      assert Join(segs) == a + ("/" + Join(segs[1..]));
      ScanWord(stack, "", a, "/" + Join(segs[1..]));
      assert "" + a == a;
      assert ("/" + Join(segs[1..]))[1..] == Join(segs[1..]);
      ScanJoinEnd(stack + [a], segs[1..]);
      assert stack + [a] + segs[1..] == stack + segs;
    }
  }

  lemma ScanLastWord(stack: seq<string>, a: string)
    requires Plain(a)
    ensures Scan(stack, "", a) == stack + [a]
  {
    ScanWord(stack, "", a, "");
    assert a + "" == a && "" + a == a;
  }

  lemma PlainTail(segs: seq<string>)
    requires |segs| > 0 && AllPlain(segs)
    ensures Plain(segs[0]) && AllPlain(segs[1..])
  {
    forall i | 0 <= i < |segs[1..]| ensures Plain(segs[1..][i]) {
      assert segs[1..][i] == segs[i + 1];
    }
  }

  /** Normalisation only ever produces plain segments. */
  lemma {:induction false} ScanIsPlain(stack: seq<string>, cur: string, s: string)
    requires AllPlain(stack) && '/' !in cur
    ensures AllPlain(Scan(stack, cur, s))
    decreases |s|
  {
    if |s| > 0 {
      if s[0] == '/' {
        ScanIsPlain(Step(stack, cur), "", s[1..]);
      } else {
        assert '/' !in cur + [s[0]];
        ScanIsPlain(stack, cur + [s[0]], s[1..]);
      }
    }
  }

  lemma {:induction false} JoinNoTrailingSlash(segs: seq<string>)
    requires |segs| > 0 && AllPlain(segs)
    ensures |Join(segs)| > 0 && Join(segs)[|Join(segs)| - 1] != '/'
    decreases |segs|
  {
    assert Plain(segs[0]);
    if |segs| > 1 {
      assert AllPlain(segs[1..]) by {
        forall i | 0 <= i < |segs[1..]| ensures Plain(segs[1..][i]) {
          assert segs[1..][i] == segs[i + 1];
        }
      }
      JoinNoTrailingSlash(segs[1..]);
    } else {
      assert segs[0][|segs[0]| - 1] in segs[0];
    }
  }

  /** `Join` distributes over concatenation. */
  lemma {:induction false} JoinAppend(xs: seq<string>, ys: seq<string>)
    requires |xs| > 0 && |ys| > 0
    ensures Join(xs + ys) == Join(xs) + "/" + Join(ys)
    decreases |xs|
  {
    if |xs| == 1 {
      assert (xs + ys)[1..] == ys;
    } else {
      assert (xs + ys)[1..] == xs[1..] + ys;
      JoinAppend(xs[1..], ys);
    }
  }

  /** Normalising twice gives what normalising once gave: the second
      `path.normalize` of the handler, and the one applied to `STATIC_DIR`
      before the comparison, change nothing. */
  lemma NormalizeIdempotent(p: string)
    requires |p| > 0 && p[0] == '/'
    ensures Normalize(Normalize(p)) == Normalize(p)
  {
    var segs := Segments(p);
    var t := p[|p| - 1] == '/';
    ScanIsPlain([], "", p);
    var n := Render(segs, t);
    if |segs| == 0 {
      assert n == "/";
      assert Scan([], "", n) == Scan([], "", "");
    } else {
      if t {
        assert n == "/" + (Join(segs) + "/");
        assert n[1..] == Join(segs) + "/" + "";
        ScanJoinSlash([], segs, "");
        assert n[|n| - 1] == '/';
      } else {
        assert n == "/" + Join(segs);
        assert n[1..] == Join(segs);
        ScanJoinEnd([], segs);
        JoinNoTrailingSlash(segs);
        assert n[|n| - 1] == Join(segs)[|Join(segs)| - 1];
      }
      assert [] + segs == segs;
    }
  }

  /** The string-prefix test on rendered paths is a prefix test on their
      segments: `/a/b/` is a prefix of a path exactly when the path goes
      on below `a/b` (or is `a/b` with a trailing separator). */
  lemma {:induction false} PrefixJoin(root: seq<string>, segs: seq<string>, tail: string)
    requires |root| > 0 && AllPlain(root) && AllPlain(segs)
    requires tail == "" || tail == "/"
    ensures Join(root) + "/" <= Join(segs) + tail <==>
      (|segs| >= |root| && segs[..|root|] == root && (|segs| > |root| || tail == "/"))
    decreases |root|
  {
    var a := root[0];
    assert Plain(a);
    var y := if |root| == 1 then "" else Join(root[1..]) + "/";
    assert Join(root) + "/" == a + ("/" + y);
    if |segs| == 0 {
      assert Join(segs) + tail == tail;
      assert |a + ("/" + y)| >= 2;
    } else {
      var b := segs[0];
      assert Plain(b);
      var x := if |segs| == 1 then tail else "/" + (Join(segs[1..]) + tail);
      assert Join(segs) + tail == b + x;
      WordPrefix(a, b, "/" + y, x);
      if a != b {
        assert !(|segs| >= |root| && segs[..|root|] == root) by {
          if |segs| >= |root| {
            assert segs[..|root|][0] == b;
          }
        }
      } else if |root| == 1 {
        assert segs[..1] == [b];
      } else if |segs| == 1 {
        assert |x| <= 1;
      } else {
        assert AllPlain(root[1..]) by {
          forall i | 0 <= i < |root[1..]| ensures Plain(root[1..][i]) {
            assert root[1..][i] == root[i + 1];
          }
        }
        assert AllPlain(segs[1..]) by {
          forall i | 0 <= i < |segs[1..]| ensures Plain(segs[1..][i]) {
            assert segs[1..][i] == segs[i + 1];
          }
        }
        PrefixJoin(root[1..], segs[1..], tail);
        PrefixCancel("/", Join(root[1..]) + "/", Join(segs[1..]) + tail);
        SegmentPrefix(root, segs);
      }
    }
  }

  lemma SegmentPrefix(root: seq<string>, segs: seq<string>)
    requires |root| > 1 && |segs| > 1 && root[0] == segs[0]
    ensures (|segs| >= |root| && segs[..|root|] == root) <==>
            (|segs[1..]| >= |root[1..]| && segs[1..][..|root| - 1] == root[1..])
  {
    if |segs| >= |root| {
      assert segs[..|root|] == [segs[0]] + segs[1..][..|root| - 1];
      assert root == [root[0]] + root[1..];
    }
  }

  /** Two words without separators, each followed by a separator or by
      nothing: one path is a prefix of the other only if the words agree. */
  lemma WordPrefix(a: string, b: string, y: string, x: string)
    requires Plain(a) && Plain(b)
    requires |y| > 0 && y[0] == '/'
    requires x == "" || x[0] == '/'
    ensures a + y <= b + x <==> a == b && y <= x
  {
    if |a| < |b| {
      assert (a + y)[|a|] == '/';
      assert (b + x)[|a|] != '/' by {
        assert b[|a|] in b;
      }
    } else if |a| > |b| {
      assert (a + y)[|b|] != '/' by {
        assert a[|b|] in a;
      }
      assert |b + x| == |b| || (b + x)[|b|] == '/';
    } else if a + y <= b + x {
      assert a == (a + y)[..|a|];
      assert b == (b + x)[..|a|];
      assert y == (a + y)[|a|..];
      assert x == (b + x)[|a|..];
    }
  }

  /** A common first part does not change the prefix test. */
  lemma PrefixCancel(c: string, y: string, z: string)
    ensures c + y <= c + z <==> y <= z
  {
    if c + y <= c + z {
      assert y == (c + y)[|c|..];
      assert z == (c + z)[|c|..];
    }
  }

  // ----- properties of the handler -----

  /** The segments of `STATIC_DIR`. */
  function RootSegments(dirname: string): seq<string> {
    Segments(dirname + "/../")
  }

  /** The segments the request resolves to, and whether it ends with a
      separator. */
  function Target(dirname: string, pathname: string): (seq<string>, bool)
    requires |dirname| > 0 && dirname[0] == '/'
  {
    var j := Joined(dirname, RequestPath(pathname));
    (Segments(j), j[|j| - 1] == '/')
  }

  /** The containment check passes exactly when the resolved path lies below
      `STATIC_DIR` (or names it with a trailing separator): `..` segments
      that climb out of it are answered with 403. */
  lemma ContainmentIff(dirname: string, pathname: string)
    requires |dirname| > 0 && dirname[0] == '/'
    requires |RootSegments(dirname)| > 0
    ensures var root := RootSegments(dirname);
            var (segs, trailing) := Target(dirname, pathname);
            Handle(dirname, pathname).Serve? <==>
              (|segs| >= |root| && segs[..|root|] == root && (|segs| > |root| || trailing))
  {
    var root := RootSegments(dirname);
    var (segs, trailing) := Target(dirname, pathname);
    var j := Joined(dirname, RequestPath(pathname));
    NormalizeIdempotent(j);
    NormalizeIdempotent(dirname + "/../");
    ScanIsPlain([], "", dirname + "/../");
    ScanIsPlain([], "", j);
    assert StaticDir(dirname) == Render(root, true);
    assert Normalize(j) == Render(segs, trailing);
    RenderPrefixIff(root, segs, trailing);
  }

  /** `PrefixJoin` on rendered absolute paths. */
  lemma RenderPrefixIff(root: seq<string>, segs: seq<string>, trailing: bool)
    requires |root| > 0 && AllPlain(root) && AllPlain(segs)
    ensures Render(root, true) <= Render(segs, trailing) <==>
      (|segs| >= |root| && segs[..|root|] == root && (|segs| > |root| || trailing))
  {
    var r := Join(root) + "/";
    assert Render(root, true) == "/" + r;
    if |segs| == 0 {
      assert |Render(root, true)| > 1;
    } else {
      var tail := if trailing then "/" else "";
      assert Render(segs, trailing) == "/" + (Join(segs) + tail);
      PrefixCancel("/", r, Join(segs) + tail);
      PrefixJoin(root, segs, tail);
    }
  }

  /** Rendering a directory and then a relative path below it. */
  lemma RenderAppend(root: seq<string>, names: seq<string>)
    requires |names| > 0
    ensures Render(root + names, false) == Render(root, true) + Join(names)
  {
    if |root| == 0 {
      RenderBelowSlash(names);
      assert root + names == names;
    } else {
      RenderBelowDir(root, names);
    }
  }

  lemma RenderBelowSlash(names: seq<string>)
    requires |names| > 0
    ensures Render(names, false) == "/" + Join(names)
  {
  }

  lemma RenderBelowDir(root: seq<string>, names: seq<string>)
    requires |root| > 0 && |names| > 0
    ensures Render(root + names, false) == Render(root, true) + Join(names)
  {
    var a, b := Join(root), Join(names);
    var r := root + names;
    JoinAppend(root, names);
    assert Join(r) == a + "/" + b;
    assert |r| > 0;
    assert Render(r, false) == "/" + Join(r);
    assert Render(root, true) == "/" + a + "/";
    SlashConcat(a, b);
  }

  lemma SlashConcat(a: string, b: string)
    ensures "/" + (a + "/" + b) == "/" + a + "/" + b
  {
  }

  /** Reading a directory, a separator and a relative path. */
  lemma ScanBelow(root: seq<string>, names: seq<string>)
    requires AllPlain(root) && AllPlain(names)
    ensures Segments(Render(root, true) + "/" + Join(names)) == root + names
  {
    var j := Render(root, true) + "/" + Join(names);
    if |root| == 0 {
      assert j == "/" + ("/" + Join(names));
      assert j[1..] == "/" + Join(names);
      assert ("/" + Join(names))[1..] == Join(names);
      assert Scan([], "", j) == Scan([], "", "/" + Join(names));
      assert Scan([], "", "/" + Join(names)) == Scan([], "", Join(names));
      ScanJoinEnd([], names);
      assert root + names == names;
    } else {
      assert j == "/" + (Join(root) + "/" + ("/" + Join(names)));
      ScanJoinSlash([], root, "/" + Join(names));
      assert ("/" + Join(names))[1..] == Join(names);
      ScanJoinEnd(root, names);
      assert [] + root == root;
    }
  }

  /** The segments an ordinary request resolves to. */
  lemma ResolvePlain(dirname: string, names: seq<string>)
    requires |dirname| > 0 && dirname[0] == '/'
    requires |names| > 0 && AllPlain(names)
    ensures var j := Joined(dirname, Join(names));
            Segments(j) == RootSegments(dirname) + names && j[|j| - 1] != '/'
  {
    var root := RootSegments(dirname);
    ScanIsPlain([], "", dirname + "/../");
    JoinNoTrailingSlash(names);
    assert StaticDir(dirname) == Render(root, true);
    ScanBelow(root, names);
  }

  /** A request for an ordinary path `/a/b/c` (no empty, `.` or `..`
      segment) is served from the same path below `STATIC_DIR`. */
  lemma PlainRequestServed(dirname: string, names: seq<string>)
    requires |dirname| > 0 && dirname[0] == '/'
    requires |names| > 0 && AllPlain(names)
    ensures Handle(dirname, "/" + Join(names)) == Serve(StaticDir(dirname) + Join(names))
  {
    var pathname := "/" + Join(names);
    JoinNoTrailingSlash(names);
    assert RequestPath(pathname) == Join(names) by {
      assert pathname != "/";
    }
    var j := Joined(dirname, Join(names));
    ResolvePlain(dirname, names);
    RenderAppend(RootSegments(dirname), names);
    NormalizeIdempotent(j);
    NormalizeIdempotent(dirname + "/../");
  }

  /** `/` serves `index.html` from `STATIC_DIR`. */
  lemma RootServesIndex(dirname: string)
    requires |dirname| > 0 && dirname[0] == '/'
    ensures Handle(dirname, "/") == Serve(StaticDir(dirname) + "index.html")
  {
    PlainRequestServed(dirname, ["index.html"]);
    assert RequestPath("/" + Join(["index.html"])) == "index.html";
  }

  /** A request for `/..` climbs out of `STATIC_DIR` and is refused. */
  lemma ParentRefused(dirname: string)
    requires |dirname| > 0 && dirname[0] == '/'
    requires |RootSegments(dirname)| > 0
    ensures Handle(dirname, "/..") == Forbidden
  {
    var root := RootSegments(dirname);
    ScanIsPlain([], "", dirname + "/../");
    assert RequestPath("/..") == "..";
    assert StaticDir(dirname) == Render(root, true);
    ScanParent(root);
    ContainmentIff(dirname, "/..");
  }

  /** When `__dirname` lies one level below `/`, `STATIC_DIR` is `/` and the
      containment check lets every request through, `/..` included. */
  lemma RootDirServesAll(dirname: string, pathname: string)
    requires |dirname| > 0 && dirname[0] == '/'
    requires RootSegments(dirname) == []
    ensures StaticDir(dirname) == "/"
    ensures Handle(dirname, pathname) == Serve(Normalize(Normalize(Joined(dirname, RequestPath(pathname)))))
  {
    NormalizeIdempotent(dirname + "/../");
    assert StaticDir(dirname) == Render([], true);
  }

  /** `..` below a directory names its parent. */
  lemma ScanParent(root: seq<string>)
    requires |root| > 0 && AllPlain(root)
    ensures Segments(Render(root, true) + "/" + "..") == root[..|root| - 1]
  {
    var j := Render(root, true) + "/" + "..";
    assert j == "/" + (Join(root) + "/" + "/..");
    assert j[1..] == Join(root) + "/" + "/..";
    assert Scan([], "", j) == Scan([], "", j[1..]);
    ScanJoinSlash([], root, "/..");
    assert [] + root == root;
    ScanDotDot(root);
  }

  lemma ScanDotDot(stack: seq<string>)
    requires |stack| > 0
    ensures Scan(stack, "", "/..") == stack[..|stack| - 1]
  {
    var s := "/..";
    assert s[0] == '/' && s[1..] == "..";
    var t := "..";
    assert t[0] == '.' && t[1..] == ".";
    var u := ".";
    assert u[0] == '.' && u[1..] == "";
    assert "" + [t[0]] == "." && "." + [u[0]] == "..";
  }

  // ----- Content-Type -----

  /** Trailing separators are ignored by `path.extname`. */
  function TrimSlashes(p: string): (t: string)
    ensures |t| <= |p| && t == p[..|t|]
    ensures |t| == 0 || t[|t| - 1] != '/'
  {
    if |p| > 0 && p[|p| - 1] == '/' then TrimSlashes(p[..|p| - 1]) else p
  }

  /** The last segment of a path without trailing separators. */
  function Base(t: string): (b: string)
    ensures '/' !in b
  {
    if |t| == 0 || t[|t| - 1] == '/' then "" else Base(t[..|t| - 1]) + [t[|t| - 1]]
  }

  /** Index of the last `.` of a string. */
  function LastDot(b: string): (d: Option<nat>)
    ensures d.Some? ==> d.value < |b| && b[d.value] == '.' && '.' !in b[d.value + 1..]
    ensures d.None? ==> '.' !in b
  {
    if |b| == 0 then None
    else if b[|b| - 1] == '.' then Some(|b| - 1)
    else LastDot(b[..|b| - 1])
  }

  /** `path.extname`: from the last `.` of the last segment, unless that dot
      starts the segment (`.bashrc`) or the segment is `..`. */
  function Extname(p: string): (ext: string)
    ensures ext == "" || (ext[0] == '.' && '.' !in ext[1..] && '/' !in ext)
  {
    var b := Base(TrimSlashes(p));
    match LastDot(b)
    case None => ""
    case Some(d) => if d == 0 || b == ".." then "" else b[d..]
  }

  /** `String.prototype.toLowerCase` on ASCII letters. */
  function ToLower(s: string): (l: string)
    ensures |l| == |s|
  {
    if |s| == 0 then "" else
      var c := s[0];
      [if 'A' <= c <= 'Z' then (c as int + 32) as char else c] + ToLower(s[1..])
  }

  const OCTET_STREAM := "application/octet-stream"

  /** The extension table of `getContentType`. */
  function MimeType(ext: string): string {
    match ext
    case ".html" => "text/html; charset=utf-8"
    case ".js" => "text/javascript; charset=utf-8"
    case ".css" => "text/css; charset=utf-8"
    case ".json" => "application/json; charset=utf-8"
    case ".png" => "image/png"
    case ".jpg" => "image/jpeg"
    case ".jpeg" => "image/jpeg"
    case ".gif" => "image/gif"
    case ".svg" => "image/svg+xml"
    case ".ico" => "image/x-icon"
    case ".txt" => "text/plain; charset=utf-8"
    case _ => OCTET_STREAM
  }

  function ContentType(filePath: string): string {
    MimeType(ToLower(Extname(filePath)))
  }

  lemma {:induction false} BaseAppend(t: string, u: string)
    requires '/' !in u
    ensures Base(t + u) == Base(t) + u
    decreases |u|
  {
    if |u| > 0 {
      var v := u[..|u| - 1];
      assert '/' !in v by {
        forall i | 0 <= i < |v| ensures v[i] != '/' {
          assert v[i] == u[i];
        }
      }
      BaseAppend(t, v);
      assert (t + u)[..|t + u| - 1] == t + v;
      assert u[|u| - 1] in u;
      assert (t + u)[|t + u| - 1] == u[|u| - 1];
      assert v + [u[|u| - 1]] == u;
    } else {
      assert t + u == t;
    }
  }

  lemma {:induction false} LastDotAppend(b: string, u: string)
    requires '.' !in u
    ensures LastDot(b + "." + u) == Some(|b|)
    decreases |u|
  {
    if |u| > 0 {
      var v := u[..|u| - 1];
      assert '.' !in v by {
        forall i | 0 <= i < |v| ensures v[i] != '.' {
          assert v[i] == u[i];
        }
      }
      LastDotAppend(b, v);
      assert u[|u| - 1] in u;
      assert (b + "." + u)[..|b + "." + u| - 1] == b + "." + v;
    }
  }

  /** The last segment of `dir/word` or `stem.word`, where `word` holds no
      separator. */
  lemma BaseOfWord(t: string, word: string)
    requires |word| > 0 && '/' !in word
    ensures TrimSlashes(t + word) == t + word
    ensures Base(t + word) == Base(t) + word
  {
    var p := t + word;
    assert p[|p| - 1] == word[|word| - 1];
    assert word[|word| - 1] in word;
    BaseAppend(t, word);
  }

  /** A file named `stem.ext` has extension `.ext` whenever the stem does
      not end the directory part. */
  lemma ExtnameOfName(stem: string, name: string)
    requires |stem| > 0 && stem[|stem| - 1] != '/'
    requires |name| > 0 && '.' !in name && '/' !in name
    ensures Extname(stem + "." + name) == "." + name
  {
    var p := stem + "." + name;
    assert p == stem + ("." + name);
    BaseOfWord(stem, "." + name);
    var b0 := Base(stem);
    assert |b0| > 0;
    var b := Base(TrimSlashes(p));
    assert b == b0 + "." + name;
    LastDotAppend(b0, name);
    assert |b| > 2;
    assert b[|b0|..] == "." + name;
  }

  /** A file whose name has no dot has no extension. */
  lemma NoDotNoExtension(dir: string, name: string)
    requires |dir| > 0 && dir[|dir| - 1] == '/'
    requires |name| > 0 && '.' !in name && '/' !in name
    ensures Extname(dir + name) == ""
  {
    assert Base(dir) == "";
    BaseOfWord(dir, name);
    assert Base(TrimSlashes(dir + name)) == name;
  }

  /** A dot file (its only dot starts the name) has no extension. */
  lemma DotFileNoExtension(dir: string, name: string)
    requires |dir| > 0 && dir[|dir| - 1] == '/'
    requires |name| > 0 && '.' !in name && '/' !in name
    ensures Extname(dir + "." + name) == ""
  {
    assert Base(dir) == "";
    var p := dir + "." + name;
    assert p == dir + ("." + name);
    BaseOfWord(dir, "." + name);
    assert Base(TrimSlashes(p)) == "" + "." + name;
    LastDotAppend("", name);
  }

  /** The extension is compared without regard to case. */
  lemma ContentTypeIgnoresCase(stem: string, name: string, other: string)
    requires |stem| > 0 && stem[|stem| - 1] != '/'
    requires |name| > 0 && '.' !in name && '/' !in name
    requires |other| > 0 && '.' !in other && '/' !in other
    requires ToLower(name) == ToLower(other)
    ensures ContentType(stem + "." + name) == ContentType(stem + "." + other)
    ensures ContentType(stem + "." + name) == MimeType("." + ToLower(name))
  {
    ExtnameOfName(stem, name);
    ExtnameOfName(stem, other);
    assert ToLower("." + name) == "." + ToLower(name) by {
      assert ("." + name)[1..] == name;
    }
    assert ToLower("." + other) == "." + ToLower(other) by {
      assert ("." + other)[1..] == other;
    }
  }

  /** The table: the eleven listed extensions, and nothing else, have a
      type of their own; `.jpg` and `.jpeg` share one. */
  lemma MimeTable(ext: string)
    ensures MimeType(ext) != OCTET_STREAM <==>
      ext in {".html", ".js", ".css", ".json", ".png", ".jpg", ".jpeg", ".gif", ".svg", ".ico", ".txt"}
    ensures MimeType(".jpg") == MimeType(".jpeg") == "image/jpeg"
  {
  }

  /** Dot files and names without a dot are served as octet streams. */
  lemma NoExtensionType(dir: string, name: string)
    requires |dir| > 0 && dir[|dir| - 1] == '/'
    requires |name| > 0 && '.' !in name && '/' !in name
    ensures ContentType(dir + name) == OCTET_STREAM
    ensures ContentType(dir + "." + name) == OCTET_STREAM
  {
    NoDotNoExtension(dir, name);
    DotFileNoExtension(dir, name);
  }
}
