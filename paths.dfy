/**
 * The string form of a POSIX `pathlib` path: the root it keeps, the segments
 * it keeps, and the text it prints.
 */
module Paths {
  import opened Text
  import opened Collections

  /**
   * The root `pathlib` keeps: `//` for exactly two leading slashes, `/` for
   * one or for three and more, nothing for a relative path.
   */
  function PathRoot(p: string): (root: string)
    ensures root == "" || root == "/" || root == "//"
    ensures StartsWith(p, root)
  {
    if |p| >= 2 && p[0] == '/' && p[1] == '/' && (|p| == 2 || p[2] != '/') then "//"
    else if |p| >= 1 && p[0] == '/' then "/"
    else ""
  }

  /** A segment `pathlib` keeps: not empty and not `.`. */
  predicate KeptSegment(s: string) {
    s != "" && s != "."
  }

  /** The segments of `p` between slashes, without empty and `.` ones. */
  function PathSegments(p: string): (segs: seq<string>)
    ensures forall i :: 0 <= i < |segs| ==> KeptSegment(segs[i]) && '/' !in segs[i]
  {
    Filter(Split(p, '/'), KeptSegment)
  }

  /**
   * `str(Path(p))` on POSIX: the root, then the kept segments joined by
   * single slashes; `.` when nothing is left.
   */
  function NormalPath(p: string): (r: string)
    ensures |r| > 0
  {
    var text := PathRoot(p) + Join(PathSegments(p), '/');
    if text == "" then "." else text
  }

  /** A text without a slash is one segment, kept or not. */
  lemma OneSegment(a: string)
    requires '/' !in a
    ensures PathSegments(a) == if KeptSegment(a) then [a] else []
  {
    SplitWithout(a, '/');
    assert Filter([a], KeptSegment) == Filter([a][..0], KeptSegment) + (if KeptSegment(a) then [a] else []);
  }

  /** The segments of `a/b`, for `a` without a slash: `a` (if kept), then those of `b`. */
  lemma SegmentsAfter(a: string, b: string)
    requires '/' !in a
    ensures PathSegments(a + "/" + b) == PathSegments(a) + PathSegments(b)
  {
    SplitAfter(a, '/', b);
    FilterAppend([a], Split(b, '/'), KeptSegment);
    SplitWithout(a, '/');
  }

  /** A leading slash adds no segment. */
  lemma LeadingSlash(q: string)
    ensures PathSegments("/" + q) == PathSegments(q)
  {
    assert "/" + q == "" + "/" + q;
    SegmentsAfter("", q);
    OneSegment("");
  }

  /** A leading `./` is dropped: `Path("./config.yaml")` is `config.yaml`. */
  lemma DotSegmentDropped(name: string)
    requires '/' !in name && KeptSegment(name)
    ensures NormalPath("./" + name) == name
  {
    assert "./" + name == "." + "/" + name;
    SegmentsAfter(".", name);
    OneSegment(".");
    OneSegment(name);
  }

  /** `a//b` is `a`, a slash, then `/b`. */
  lemma DoubleSlash(a: string, b: string)
    ensures a + "//" + b == a + "/" + ("/" + b)
  {
    assert "//" == "/" + "/";
    ConcatAssoc(a, "/", "/");
    ConcatAssoc(a + "/", "/", b);
  }

  /** Repeated slashes collapse: `Path("conf//app.yaml")` is `conf/app.yaml`. */
  lemma RepeatedSlashDropped(dir: string, name: string)
    requires '/' !in dir && KeptSegment(dir) && '/' !in name && KeptSegment(name)
    ensures NormalPath(dir + "//" + name) == dir + "/" + name
  {
    var p := dir + "//" + name;
    assert PathSegments(p) == [dir, name] by {
      DoubleSlash(dir, name);
      SegmentsAfter(dir, "/" + name);
      LeadingSlash(name);
      OneSegment(dir);
      OneSegment(name);
      assert [dir] + [name] == [dir, name];
    }
    assert PathRoot(p) == "" by {
      assert p[0] == dir[0] && dir[0] in dir;
    }
    assert Join([dir, name], '/') == dir + "/" + name by {
      JoinCons(dir, [name], '/');
      assert [dir] + [name] == [dir, name];
    }
  }

  /** A trailing slash is dropped: `Path("conf/")` is `conf`. */
  lemma TrailingSlashDropped(dir: string)
    requires '/' !in dir && KeptSegment(dir)
    ensures NormalPath(dir + "/") == dir
  {
    var p := dir + "/";
    assert p == dir + "/" + "";
    SegmentsAfter(dir, "");
    OneSegment(dir);
    OneSegment("");
    assert PathSegments(p) == [dir];
    assert p[0] == dir[0] != '/';
    assert PathRoot(p) == "";
  }

  /** The joined text starts with the first segment's first character. */
  lemma JoinHead(segs: seq<string>)
    requires |segs| > 0 && |segs[0]| > 0
    ensures |Join(segs, '/')| > 0 && Join(segs, '/')[0] == segs[0][0]
  {
  }

  /** Kept segments, joined, read back as those segments. */
  lemma JoinedSegments(segs: seq<string>)
    requires |segs| > 0
    requires forall i :: 0 <= i < |segs| ==> KeptSegment(segs[i]) && '/' !in segs[i]
    ensures PathSegments(Join(segs, '/')) == segs
  {
    SplitJoin(segs, '/');
    FilterKeepsAll(segs, KeptSegment);
  }

  /** The root of a text whose first segment is kept. */
  lemma RootBeforeSegment(root: string, body: string)
    requires root == "" || root == "/" || root == "//"
    requires |body| > 0 && body[0] != '/'
    ensures PathRoot(root + body) == root
  {
    var r := root + body;
    assert r[|root|] == body[0];
  }

  /** The segments behind a root are those of the text after it. */
  lemma SegmentsBehindRoot(root: string, body: string)
    requires root == "" || root == "/" || root == "//"
    ensures PathSegments(root + body) == PathSegments(body)
  {
    if root == "/" {
      LeadingSlash(body);
    } else if root == "//" {
      DoubleSlash([], body);
      assert root + body == [] + "//" + body;
      LeadingSlash("/" + body);
      LeadingSlash(body);
    } else {
      assert root + body == body;
    }
  }

  /** Kept segments behind a root read back as that root and those segments. */
  lemma RootedSegments(root: string, segs: seq<string>)
    requires root == "" || root == "/" || root == "//"
    requires |segs| > 0
    requires forall i :: 0 <= i < |segs| ==> KeptSegment(segs[i]) && '/' !in segs[i]
    ensures PathRoot(root + Join(segs, '/')) == root
    ensures PathSegments(root + Join(segs, '/')) == segs
  {
    var body := Join(segs, '/');
    JoinHead(segs);
    assert segs[0][0] in segs[0];
    JoinedSegments(segs);
    RootBeforeSegment(root, body);
    SegmentsBehindRoot(root, body);
  }

  /** A bare root, or `.`, has no segments and reads back as itself. */
  lemma BareRoot(r: string)
    requires r == "." || r == "/" || r == "//"
    ensures NormalPath(r) == r
  {
    if r == "." {
      assert PathSegments(r) == [] by {
        OneSegment(".");
      }
    } else if r == "/" {
      assert PathSegments(r) == [] by {
        assert r == "/" + "";
        LeadingSlash("");
        OneSegment("");
      }
    } else {
      assert PathSegments(r) == [] by {
        assert r == "/" + ("/" + "");
        LeadingSlash("/" + "");
        LeadingSlash("");
        OneSegment("");
      }
    }
  }

  /** Normalising a normalised path changes nothing. */
  lemma NormalPathIdempotent(p: string)
    ensures NormalPath(NormalPath(p)) == NormalPath(p)
  {
    var root, segs := PathRoot(p), PathSegments(p);
    if |segs| == 0 {
      BareRoot(NormalPath(p));
    } else {
      RootedSegments(root, segs);
      JoinHead(segs);
    }
  }
}
