/**
 * The ISMIP6 catalog: parsing the metadata embedded in an archive path and
 * building the sorted catalog from a crawl of the bucket.
 *
 * The remote listing `fs.ls` is a parameter: a function from a directory to
 * the entries it lists, or `None` when the listing raises.
 */
module Ismip6Index {
  import opened Wrappers
  import opened Text
  import opened Ordering
  import opened Collections

  /** The fixed start of every parseable path. */
  const Root: string := "ismip6/Projection-"

  /** The dictionary `parse_ismip6_path` returns. */
  datatype PathInfo = PathInfo(
    variable: string,
    iceSheet: string,
    institution: string,
    modelName: string,
    experiment: string,
    url: string)

  /** One catalog row: a parsed path with the file's size. */
  datatype CatalogRecord = CatalogRecord(
    variable: string,
    iceSheet: string,
    institution: string,
    modelName: string,
    experiment: string,
    url: string,
    sizeBytes: int)

  function WithSize(info: PathInfo, size: int): CatalogRecord {
    CatalogRecord(info.variable, info.iceSheet, info.institution, info.modelName,
                  info.experiment, info.url, size)
  }

  // ---------------------------------------------------------------------
  // The path grammar
  // ---------------------------------------------------------------------

  /** Text matched by `[A-Z]+`. */
  predicate UpperWord(s: string) {
    |s| > 0 && forall i :: 0 <= i < |s| ==> IsUpper(s[i])
  }

  /** Text matched by `[^/]+`. */
  predicate Segment(s: string) {
    |s| > 0 && '/' !in s
  }

  /** Text matched by `[^_]+`. */
  predicate Token(s: string) {
    |s| > 0 && '_' !in s
  }

  /**
   * Whether `.*\.nc$` matches all of `t`: `.` does not match a newline, and
   * `$` matches at the end or just before a final newline.
   */
  predicate NcTail(t: string) {
    (EndsWith(t, ".nc") && '\n' !in t[..|t| - 3]) ||
    (EndsWith(t, ".nc\n") && '\n' !in t[..|t| - 4])
  }

  /**
   * What may follow the variable token once the regex engine has settled:
   * either the token stops at the first underscore and the rest ends the
   * match, or the name holds no underscore and only the `.nc` suffix (with
   * an optional final newline) is given back by the greedy token.
   */
  predicate TokenTail(tail: string) {
    (|tail| > 0 && tail[0] == '_' && NcTail(tail)) || tail == ".nc" || tail == ".nc\n"
  }

  /** A path laid out as `ismip6/Projection-<ice>/<inst>/<model>/<exp>/<raw><tail>`. */
  function Layout(ice: string, inst: string, model: string, exp: string, raw: string, tail: string): string {
    Root + Seg(ice, Seg(inst, Seg(model, Seg(exp, raw + tail))))
  }

  /** A directory name, a slash, and what lies below it. */
  function Seg(dir: string, below: string): string {
    dir + "/" + below
  }

  ghost predicate WellFormed(ice: string, inst: string, model: string, exp: string, raw: string, tail: string) {
    UpperWord(ice) && Segment(inst) && Segment(model) && Segment(exp) && Token(raw) && TokenTail(tail)
  }

  /** Length of the leading run of upper-case letters. */
  function UpperRun(s: string): (n: nat)
    ensures n <= |s|
    ensures forall i :: 0 <= i < n ==> IsUpper(s[i])
    ensures n < |s| ==> !IsUpper(s[n])
  {
    if |s| > 0 && IsUpper(s[0]) then 1 + UpperRun(s[1..]) else 0
  }

  lemma {:induction false} UpperRunOf(ice: string, rest: string)
    requires UpperWord(ice) && |rest| > 0 && rest[0] == '/'
    ensures UpperRun(ice + rest) == |ice|
    decreases |ice|
  {
    var s := ice + rest;
    if |ice| > 1 {
      assert s[1..] == ice[1..] + rest;
      UpperRunOf(ice[1..], rest);
    } else {
      assert s[1..] == rest;
    }
  }

  /**
   * The group `([^_]+)` of the file-name part, after the regex engine's
   * backtracking: `rest` is everything after the experiment directory.
   */
  function VariableToken(rest: string): (r: Option<string>)
    ensures r.Some? ==> Token(r.value) && |r.value| <= |rest| && rest[..|r.value|] == r.value
    ensures r.Some? ==> TokenTail(rest[|r.value|..])
  {
    var u := IndexOf(rest, '_');
    if u < |rest| then
      if u > 0 && NcTail(rest[u..]) then
        TokenBefore(rest, u);
        Some(rest[..u])
      else None
    else if |rest| >= 4 && EndsWith(rest, ".nc") then
      TokenBefore(rest, |rest| - 3);
      Some(rest[..|rest| - 3])
    else if |rest| >= 5 && EndsWith(rest, ".nc\n") then
      TokenBefore(rest, |rest| - 4);
      Some(rest[..|rest| - 4])
    else None
  }

  /** A non-empty prefix before the first underscore is a token. */
  lemma TokenBefore(rest: string, n: nat)
    requires 0 < n <= IndexOf(rest, '_')
    ensures Token(rest[..n]) && rest[..n] + rest[n..] == rest
  {
    assert forall i :: 0 <= i < n ==> rest[..n][i] == rest[i];
  }

  lemma VariableTokenOf(raw: string, tail: string)
    requires Token(raw) && TokenTail(tail)
    ensures VariableToken(raw + tail) == Some(raw)
  {
    var rest := raw + tail;
    assert rest[..|raw|] == raw && rest[|raw|..] == tail;
    if |tail| > 0 && tail[0] == '_' {
      IndexOfAfterFree(raw, '_', tail[1..]);
      assert rest == raw + ['_'] + tail[1..];
    } else {
      assert '_' !in rest;
      if tail == ".nc\n" {
        assert rest[|rest| - 1] == '\n';
      }
    }
  }

  /**
   * The correction for files whose variable token carries the experiment
   * name as a prefix (`exp13acabf` under `exp13`): the prefix is dropped only
   * when what remains starts with a lower-case letter.
   */
  function CorrectVariable(raw: string, experiment: string): (v: string)
    requires Token(raw)
    ensures Token(v)
    ensures |experiment| > 0 ==>
      (v != raw <==> StartsWith(raw, experiment) && |raw| > |experiment| && IsLower(raw[|experiment|]))
    ensures v != raw ==> raw == experiment + v && IsLower(v[0])
  {
    if StartsWith(raw, experiment) && |raw| > |experiment| && IsLower(raw[|experiment|]) then
      assert raw == raw[..|experiment|] + raw[|experiment|..];
      raw[|experiment|..]
    else raw
  }

  /** `[A-Z]+/` at the start of `s`: the ice-sheet code and the text after the slash. */
  function SplitIce(s: string): (r: Option<(string, string)>)
    ensures r.Some? ==> UpperWord(r.value.0) && s == Seg(r.value.0, r.value.1)
  {
    var n := UpperRun(s);
    if n == 0 || n == |s| || s[n] != '/' then None
    else
      assert s == s[..n] + "/" + s[n + 1..];
      Some((s[..n], s[n + 1..]))
  }

  lemma SplitIceOf(ice: string, rest: string)
    requires UpperWord(ice)
    ensures SplitIce(ice + "/" + rest) == Some((ice, rest))
  {
    var s := ice + "/" + rest;
    assert s == ice + ("/" + rest);
    UpperRunOf(ice, "/" + rest);
    assert s[..|ice|] == ice && s[|ice| + 1..] == rest;
  }

  /** `[^/]+/` at the start of `s`: the segment and the text after the slash. */
  function SplitSegment(s: string): (r: Option<(string, string)>)
    ensures r.Some? ==> Segment(r.value.0) && s == Seg(r.value.0, r.value.1)
  {
    var i := IndexOf(s, '/');
    if i == 0 || i == |s| then None
    else
      assert s == s[..i] + "/" + s[i + 1..];
      Some((s[..i], s[i + 1..]))
  }

  lemma SplitSegmentOf(seg: string, rest: string)
    requires Segment(seg)
    ensures SplitSegment(seg + "/" + rest) == Some((seg, rest))
  {
    var s := seg + "/" + rest;
    assert s == seg + ['/'] + rest;
    IndexOfAfterFree(seg, '/', rest);
    assert s[..|seg|] == seg && s[|seg| + 1..] == rest;
  }

  /** The four directory levels below `Root`, and the file-name part after them. */
  datatype Parts = Parts(ice: string, inst: string, model: string, exp: string, rest: string)

  function SplitDirectories(path: string): (r: Option<Parts>)
    ensures r.Some? ==>
      UpperWord(r.value.ice) && Segment(r.value.inst) && Segment(r.value.model) && Segment(r.value.exp)
    ensures r.Some? ==>
      path == Root + Seg(r.value.ice, Seg(r.value.inst, Seg(r.value.model, Seg(r.value.exp, r.value.rest))))
  {
    if !StartsWith(path, Root) then None
    else
      assert path == Root + path[|Root|..];
      match SplitIce(path[|Root|..])
      case None => None
      case Some((ice, b)) =>
        match SplitSegment(b)
        case None => None
        case Some((inst, c)) =>
          match SplitSegment(c)
          case None => None
          case Some((model, d)) =>
            match SplitSegment(d)
            case None => None
            case Some((exp, rest)) => Some(Parts(ice, inst, model, exp, rest))
  }

  /**
   * `parse_ismip6_path`: `re.match` of
   * `ismip6/Projection-([A-Z]+)/([^/]+)/([^/]+)/([^/]+)/([^_]+).*\.nc$`,
   * then the experiment-prefix correction.
   */
  function ParsePath(path: string): (r: Option<PathInfo>)
    ensures r.Some? ==> r.value.url == "gs://" + path
    ensures r.Some? ==> UpperWord(r.value.iceSheet) && Segment(r.value.institution)
                        && Segment(r.value.modelName) && Segment(r.value.experiment)
    ensures r.Some? ==> Token(r.value.variable)
  {
    match SplitDirectories(path)
    case None => None
    case Some(p) =>
      match VariableToken(p.rest)
      case None => None
      case Some(raw) =>
        Some(PathInfo(CorrectVariable(raw, p.exp), p.ice, p.inst, p.model, p.exp, "gs://" + path))
  }

  /** Every path of the expected layout parses, to exactly its own segments. */
  lemma ParseComplete(ice: string, inst: string, model: string, exp: string, raw: string, tail: string)
    requires WellFormed(ice, inst, model, exp, raw, tail)
    ensures ParsePath(Layout(ice, inst, model, exp, raw, tail))
         == Some(PathInfo(CorrectVariable(raw, exp), ice, inst, model, exp,
                          "gs://" + Layout(ice, inst, model, exp, raw, tail)))
  {
    var path := Layout(ice, inst, model, exp, raw, tail);
    var c := Seg(model, Seg(exp, raw + tail));
    var b := Seg(inst, c);
    var a := Seg(ice, b);
    assert path[..|Root|] == Root && path[|Root|..] == a;
    SplitIceOf(ice, b);
    SplitSegmentOf(inst, c);
    SplitSegmentOf(model, Seg(exp, raw + tail));
    SplitSegmentOf(exp, raw + tail);
    VariableTokenOf(raw, tail);
  }

  /** A path that parses has the expected layout, with the parsed segments. */
  /** The token and what follows it, as two pieces of the file-name part. */
  lemma TokenSplit(rest: string) returns (raw: string, tail: string)
    requires VariableToken(rest).Some?
    ensures raw == VariableToken(rest).value && rest == raw + tail && Token(raw) && TokenTail(tail)
  {
    raw := VariableToken(rest).value;
    tail := rest[|raw|..];
    assert rest == raw + tail;
  }

  lemma ParseSound(path: string) returns (raw: string, tail: string)
    requires ParsePath(path).Some?
    ensures var p := ParsePath(path).value;
      WellFormed(p.iceSheet, p.institution, p.modelName, p.experiment, raw, tail) &&
      path == Layout(p.iceSheet, p.institution, p.modelName, p.experiment, raw, tail) &&
      p.variable == CorrectVariable(raw, p.experiment)
  {
    assert SplitDirectories(path).Some? && VariableToken(SplitDirectories(path).value.rest).Some?;
    var parts := SplitDirectories(path).value;
    raw, tail := TokenSplit(parts.rest);
  }

  /** The misnamed files are corrected: `exp13acabf` under `exp13` is read as `acabf`. */
  lemma PrefixedVariableExample()
    ensures var p := ParsePath(Layout("AIS", "UCIJPL", "ISSM", "exp13", "exp13acabf", "_AIS_UCIJPL_ISSM_exp13.nc"));
      p.Some? && p.value.variable == "acabf" && p.value.experiment == "exp13"
  {
    var tail := "_AIS_UCIJPL_ISSM_exp13.nc";
    assert WellFormed("AIS", "UCIJPL", "ISSM", "exp13", "exp13acabf", tail) by {
      assert tail[|tail| - 3..] == ".nc";
      assert tail[..|tail| - 3] == "_AIS_UCIJPL_ISSM_exp13";
    }
    assert CorrectVariable("exp13acabf", "exp13") == "acabf" by {
      assert "exp13acabf"[..5] == "exp13";
      assert "exp13acabf"[5..] == "acabf";
    }
    ParseComplete("AIS", "UCIJPL", "ISSM", "exp13", "exp13acabf", tail);
  }

  /** A token that merely starts with the experiment's name keeps it when an upper-case letter follows. */
  lemma UppercaseRemainderExample()
    ensures var p := ParsePath(Layout("GIS", "AWI", "PISM1", "exp13", "exp13A1", "_GIS.nc"));
      p.Some? && p.value.variable == "exp13A1"
  {
    var tail := "_GIS.nc";
    assert WellFormed("GIS", "AWI", "PISM1", "exp13", "exp13A1", tail) by {
      assert tail[..|tail| - 3] == "_GIS";
    }
    assert CorrectVariable("exp13A1", "exp13") == "exp13A1" by {
      assert "exp13A1"[5] == 'A';
    }
    ParseComplete("GIS", "AWI", "PISM1", "exp13", "exp13A1", tail);
  }

  // ---------------------------------------------------------------------
  // Catalog ordering
  // ---------------------------------------------------------------------

  /** Lexicographic order of two string lists, comparing elements with `StrLt`. */
  predicate KeyLt(a: seq<string>, b: seq<string>)
    decreases |a|
  {
    if |a| == 0 then |b| > 0
    else |b| > 0 && (StrLt(a[0], b[0]) || (a[0] == b[0] && KeyLt(a[1..], b[1..])))
  }

  lemma {:induction false} KeyLtIrreflexive(a: seq<string>)
    ensures !KeyLt(a, a)
    decreases |a|
  {
    if |a| > 0 {
      StrLtIrreflexive(a[0]);
      KeyLtIrreflexive(a[1..]);
    }
  }

  lemma {:induction false} KeyLtTransitive(a: seq<string>, b: seq<string>, c: seq<string>)
    requires KeyLt(a, b) && KeyLt(b, c)
    ensures KeyLt(a, c)
    decreases |a|
  {
    if |a| > 0 {
      if StrLt(a[0], b[0]) && StrLt(b[0], c[0]) {
        StrLtTransitive(a[0], b[0], c[0]);
      } else if a[0] == b[0] && b[0] == c[0] {
        KeyLtTransitive(a[1..], b[1..], c[1..]);
      }
    }
  }

  /** The sort key `(ice_sheet, institution, model_name, experiment, variable)`. */
  function SortKey(r: CatalogRecord): seq<string> {
    [r.iceSheet, r.institution, r.modelName, r.experiment, r.variable]
  }

  predicate RecordLt(a: CatalogRecord, b: CatalogRecord) {
    KeyLt(SortKey(a), SortKey(b))
  }

  predicate SortedByKey(s: seq<CatalogRecord>) {
    forall i, j :: 0 <= i < j < |s| ==> !RecordLt(s[j], s[i])
  }

  /** Inserts `x` after every element whose key is not greater (keeps ties in order). */
  function InsertRecord(x: CatalogRecord, s: seq<CatalogRecord>): (r: seq<CatalogRecord>)
    requires SortedByKey(s)
    ensures SortedByKey(r)
    ensures multiset(r) == multiset(s) + multiset{x}
    decreases |s|
  {
    if |s| == 0 then [x]
    else if RecordLt(x, s[0]) then
      BelowHead(x, s);
      ConsSorted(x, s);
      [x] + s
    else
      var rest := InsertRecord(x, s[1..]);
      assert s == [s[0]] + s[1..];
      NotBelowHead(x, s, rest);
      ConsSorted(s[0], rest);
      [s[0]] + rest
  }

  /** A record below the first of a sorted list is below every element. */
  lemma BelowHead(x: CatalogRecord, s: seq<CatalogRecord>)
    requires SortedByKey(s) && |s| > 0 && RecordLt(x, s[0])
    ensures forall y :: y in s ==> !RecordLt(y, x)
  {
    forall y | y in s ensures !RecordLt(y, x) {
      var j :| 0 <= j < |s| && s[j] == y;
      if RecordLt(y, x) {
        KeyLtTransitive(SortKey(s[j]), SortKey(x), SortKey(s[0]));
        KeyLtIrreflexive(SortKey(s[0]));
      }
    }
  }

  /** What is inserted after the first element stays not below it. */
  lemma NotBelowHead(x: CatalogRecord, s: seq<CatalogRecord>, rest: seq<CatalogRecord>)
    requires SortedByKey(s) && |s| > 0 && !RecordLt(x, s[0])
    requires multiset(rest) == multiset(s[1..]) + multiset{x}
    ensures forall y :: y in rest ==> !RecordLt(y, s[0])
  {
    forall y | y in rest ensures !RecordLt(y, s[0]) {
      assert y in multiset(rest);
      if y != x {
        assert y in multiset(s[1..]);
        var j :| 0 <= j < |s[1..]| && s[1..][j] == y;
        assert s[j + 1] == y;
      }
    }
  }

  lemma ConsSorted(h: CatalogRecord, rest: seq<CatalogRecord>)
    requires SortedByKey(rest)
    requires forall y :: y in rest ==> !RecordLt(y, h)
    ensures SortedByKey([h] + rest)
  {
    var r := [h] + rest;
    forall i, j | 0 <= i < j < |r| ensures !RecordLt(r[j], r[i]) {
      assert r[j] == rest[j - 1] && rest[j - 1] in rest;
      if i > 0 {
        assert r[i] == rest[i - 1];
      }
    }
  }

  /** `DataFrame.sort_values` on the five key columns. */
  function SortRecords(s: seq<CatalogRecord>): (r: seq<CatalogRecord>)
    ensures SortedByKey(r)
    ensures multiset(r) == multiset(s)
  {
    if |s| == 0 then []
    else
      assert s == s[..|s| - 1] + [s[|s| - 1]];
      InsertRecord(s[|s| - 1], SortRecords(s[..|s| - 1]))
  }

  // ---------------------------------------------------------------------
  // Crawling the bucket
  // ---------------------------------------------------------------------

  /** One entry of a directory listing: its full name and, for files, the size if reported. */
  datatype Entry = Entry(name: string, size: Option<int>)

  /** The remote listing: the entries of a directory, or `None` when listing it raises. */
  type Lister = string -> Option<seq<Entry>>

  /** Why a build ends without a catalog. */
  datatype BuildError =
    | BucketUnreadable(bucket: string)
    | ProjectionUnreadable(dir: string)
      /** No file parsed: the sort names columns that an empty table does not have. */
    | NoRecords

  predicate IsNetcdf(e: Entry) {
    EndsWith(e.name, ".nc")
  }

  /** Which top-level entries are descended into. */
  predicate IsProjectionDir(name: string) {
    !EndsWith(name, "/") && Contains(name, "Projection-")
  }

  /**
   * The `.nc` files below each of `dirs`, in listing order, where each
   * directory has `depth` further directory levels above its files: 0 for an
   * experiment, 1 for a model, 2 for an institution. A directory whose
   * listing raises contributes nothing.
   */
  function Gather(ls: Lister, dirs: seq<Entry>, depth: nat): (r: seq<Entry>)
    ensures forall e :: e in r ==> IsNetcdf(e)
    decreases depth, |dirs|
  {
    if |dirs| == 0 then []
    else Gather(ls, dirs[..|dirs| - 1], depth) + Below(ls, dirs[|dirs| - 1].name, depth)
  }

  /** The `.nc` files below one directory; see `Gather`. */
  function Below(ls: Lister, dir: string, depth: nat): (r: seq<Entry>)
    ensures forall e :: e in r ==> IsNetcdf(e)
    ensures ls(dir).None? ==> r == []
    ensures depth == 0 ==> forall e :: e in r <==> ls(dir).Some? && e in ls(dir).value && IsNetcdf(e)
    decreases depth, 0
  {
    match ls(dir)
    case None => []
    case Some(entries) =>
      if depth == 0 then Filter(entries, IsNetcdf) else Gather(ls, entries, depth - 1)
  }

  lemma {:induction false} GatherMember(ls: Lister, dirs: seq<Entry>, depth: nat, e: Entry)
    ensures e in Gather(ls, dirs, depth) <==> exists i :: 0 <= i < |dirs| && e in Below(ls, dirs[i].name, depth)
    decreases |dirs|
  {
    if |dirs| > 0 {
      var init := dirs[..|dirs| - 1];
      GatherMember(ls, init, depth, e);
      if e in Gather(ls, init, depth) {
        var i :| 0 <= i < |init| && e in Below(ls, init[i].name, depth);
        assert dirs[i] == init[i];
      }
      if exists i :: 0 <= i < |dirs| && e in Below(ls, dirs[i].name, depth) {
        var i :| 0 <= i < |dirs| && e in Below(ls, dirs[i].name, depth);
        if i < |init| {
          assert init[i] == dirs[i];
        }
      }
    }
  }

  /** A projection directory that is descended into but whose listing raises. */
  predicate Unreadable(ls: Lister, name: string) {
    IsProjectionDir(name) && ls(name).None?
  }

  /**
   * The files of every projection directory, in listing order. An error at
   * a projection directory is not caught: the crawl stops at the first one.
   */
  function CrawlProjections(ls: Lister, projections: seq<Entry>): (r: Result<seq<Entry>, string>)
    ensures r.Err? <==> exists i :: 0 <= i < |projections| && Unreadable(ls, projections[i].name)
    ensures r.Err? ==> exists i :: (0 <= i < |projections| && Unreadable(ls, projections[i].name)
      && r == Err(projections[i].name)
      && forall j :: 0 <= j < i ==> !Unreadable(ls, projections[j].name))
    ensures r.Ok? ==> forall e :: e in r.value ==> IsNetcdf(e)
  {
    if |projections| == 0 then Ok([])
    else
      var init := projections[..|projections| - 1];
      var dir := projections[|projections| - 1].name;
      assert forall i :: 0 <= i < |init| ==> init[i] == projections[i];
      match CrawlProjections(ls, init)
      case Err(d) => Err(d)
      case Ok(files) =>
        if !IsProjectionDir(dir) then Ok(files)
        else match ls(dir)
          case None => Err(dir)
          case Some(institutions) => Ok(files + Gather(ls, institutions, 2))
  }

  /** The crawl of the first `p + 1` directories, from the crawl of the first `p`. */
  lemma CrawlStep(ls: Lister, projections: seq<Entry>, p: nat)
    requires p < |projections|
    ensures var dir := projections[p].name;
      CrawlProjections(ls, projections[..p + 1]) ==
        match CrawlProjections(ls, projections[..p])
        case Err(d) => Err(d)
        case Ok(files) =>
          if !IsProjectionDir(dir) then Ok(files)
          else match ls(dir)
            case None => Err(dir)
            case Some(institutions) => Ok(files + Gather(ls, institutions, 2))
  {
    assert projections[..p + 1][..p] == projections[..p];
  }

  /** Once the crawl of a prefix fails, the crawl of the whole fails the same way. */
  lemma {:induction false} CrawlStopsAt(ls: Lister, projections: seq<Entry>, p: nat)
    requires p <= |projections| && CrawlProjections(ls, projections[..p]).Err?
    ensures CrawlProjections(ls, projections) == CrawlProjections(ls, projections[..p])
    decreases |projections| - p
  {
    if p < |projections| {
      CrawlStep(ls, projections, p);
      CrawlStopsAt(ls, projections, p + 1);
    } else {
      assert projections[..p] == projections;
    }
  }

  function SizeOf(e: Entry): int {
    e.size.GetOr(0)
  }

  /** The catalog row of a listed file, if its path parses. */
  function RecordOf(e: Entry): (r: Option<CatalogRecord>)
    ensures r.Some? <==> ParsePath(e.name).Some?
    ensures r.Some? ==> r.value.url == "gs://" + e.name && r.value.sizeBytes == SizeOf(e)
  {
    match ParsePath(e.name)
    case None => None
    case Some(info) => Some(WithSize(info, SizeOf(e)))
  }

  predicate Parses(e: Entry) {
    ParsePath(e.name).Some?
  }

  /** One row per file whose path parses, in crawl order; the others are skipped. */
  function Assemble(files: seq<Entry>): (r: seq<CatalogRecord>)
    ensures |r| == |Filter(files, Parses)|
    ensures forall rec :: rec in r <==> exists i :: 0 <= i < |files| && RecordOf(files[i]) == Some(rec)
  {
    FilterMapLength(files, RecordOf, Parses);
    forall rec ensures rec in FilterMap(files, RecordOf) <==> exists i :: 0 <= i < |files| && RecordOf(files[i]) == Some(rec) {
      FilterMapMember(files, RecordOf, rec);
    }
    FilterMap(files, RecordOf)
  }

  lemma AssembleStep(files: seq<Entry>, k: nat)
    requires k < |files|
    ensures Assemble(files[..k + 1]) == Assemble(files[..k]) +
      match RecordOf(files[k]) case None => [] case Some(rec) => [rec]
  {
    var s := files[..k + 1];
    assert s[..|s| - 1] == files[..k] && s[|s| - 1] == files[k];
  }

  lemma NoneParse(files: seq<Entry>)
    ensures |Filter(files, Parses)| == 0 <==> forall e :: e in files ==> !Parses(e)
  {
    if |Filter(files, Parses)| > 0 {
      var e := Filter(files, Parses)[0];
      assert e in Filter(files, Parses);
    }
  }

  /**
   * What a fresh build produces for `bucket`: the bucket and the projection
   * directories must be listable, and at least one file must parse.
   */
  function Catalog(ls: Lister, bucket: string): (r: Result<seq<CatalogRecord>, BuildError>)
    ensures r == Err(BucketUnreadable(bucket)) <==> ls(bucket).None?
    ensures (exists d :: r == Err(ProjectionUnreadable(d))) <==>
      ls(bucket).Some? && exists i :: 0 <= i < |ls(bucket).value| && Unreadable(ls, ls(bucket).value[i].name)
    ensures r == Err(NoRecords) <==>
      ls(bucket).Some? && CrawlProjections(ls, ls(bucket).value).Ok? &&
      forall e :: e in CrawlProjections(ls, ls(bucket).value).value ==> !Parses(e)
    ensures r.Ok? ==> SortedByKey(r.value)
    ensures r.Ok? ==> (ls(bucket).Some? && CrawlProjections(ls, ls(bucket).value).Ok? &&
      multiset(r.value) == multiset(Assemble(CrawlProjections(ls, ls(bucket).value).value)))
  {
    match ls(bucket)
    case None => Err(BucketUnreadable(bucket))
    case Some(projections) =>
      match CrawlProjections(ls, projections)
      case Err(dir) => Err(ProjectionUnreadable(dir))
      case Ok(files) =>
        var records := Assemble(files);
        NoneParse(files);
        if |records| == 0 then Err(NoRecords) else Ok(SortRecords(records))
  }

  /**
   * The rows of a built catalog are exactly the rows of the parseable files
   * the crawl found, where `projections` is the bucket's listing and `files`
   * what the crawl collected below it.
   */
  lemma CatalogRows(ls: Lister, bucket: string, projections: seq<Entry>, files: seq<Entry>, rec: CatalogRecord)
    requires ls(bucket) == Some(projections) && CrawlProjections(ls, projections) == Ok(files)
    requires Catalog(ls, bucket).Ok?
    ensures rec in Catalog(ls, bucket).value <==> exists i :: 0 <= i < |files| && RecordOf(files[i]) == Some(rec)
  {
    assert Catalog(ls, bucket).value == SortRecords(Assemble(files));
    SortedRows(files, rec);
  }

  /** Every row of a built catalog is a `.nc` file of the crawl, with its URL and size. */
  lemma CatalogRowsAreFiles(ls: Lister, bucket: string, rec: CatalogRecord)
    requires Catalog(ls, bucket).Ok? && rec in Catalog(ls, bucket).value
    ensures exists e: Entry :: IsNetcdf(e) && rec.url == "gs://" + e.name && rec.sizeBytes == SizeOf(e)
  {
    var projections := ls(bucket).value;
    var files := CrawlProjections(ls, projections).value;
    CatalogRows(ls, bucket, projections, files, rec);
    var i :| 0 <= i < |files| && RecordOf(files[i]) == Some(rec);
    assert files[i] in files;
  }

  lemma SortedRows(files: seq<Entry>, rec: CatalogRecord)
    ensures rec in SortRecords(Assemble(files)) <==>
      exists i :: 0 <= i < |files| && RecordOf(files[i]) == Some(rec)
  {
    var s := Assemble(files);
    assert rec in SortRecords(s) <==> rec in multiset(SortRecords(s));
    assert rec in s <==> rec in multiset(s);
  }

  /** The innermost loop: the `.nc` files of each experiment directory. */
  method ScanExperiments(ls: Lister, experiments: seq<Entry>) returns (found: seq<Entry>)
    ensures found == Gather(ls, experiments, 0)
  {
    found := [];
    var x := 0;
    while x < |experiments|
      invariant 0 <= x <= |experiments|
      invariant found == Gather(ls, experiments[..x], 0)
    {
      assert experiments[..x + 1][..x] == experiments[..x];
      var files := ls(experiments[x].name);
      if files.Some? {
        found := found + Filter(files.value, IsNetcdf);
      }
      x := x + 1;
    }
    assert experiments[..x] == experiments;
  }

  /** The loop over model directories; an unreadable one is skipped. */
  method ScanModels(ls: Lister, models: seq<Entry>) returns (found: seq<Entry>)
    ensures found == Gather(ls, models, 1)
  {
    found := [];
    var m := 0;
    while m < |models|
      invariant 0 <= m <= |models|
      invariant found == Gather(ls, models[..m], 1)
    {
      assert models[..m + 1][..m] == models[..m];
      var experiments := ls(models[m].name);
      if experiments.Some? {
        var files := ScanExperiments(ls, experiments.value);
        found := found + files;
      }
      m := m + 1;
    }
    assert models[..m] == models;
  }

  /** The loop over institution directories; an unreadable one is skipped. */
  method ScanInstitutions(ls: Lister, institutions: seq<Entry>) returns (found: seq<Entry>)
    ensures found == Gather(ls, institutions, 2)
  {
    found := [];
    var i := 0;
    while i < |institutions|
      invariant 0 <= i <= |institutions|
      invariant found == Gather(ls, institutions[..i], 2)
    {
      assert institutions[..i + 1][..i] == institutions[..i];
      var models := ls(institutions[i].name);
      if models.Some? {
        var files := ScanModels(ls, models.value);
        found := found + files;
      }
      i := i + 1;
    }
    assert institutions[..i] == institutions;
  }

  /** The loop that parses every collected path and attaches its size. */
  method AssembleRecords(files: seq<Entry>) returns (records: seq<CatalogRecord>)
    ensures records == Assemble(files)
  {
    records := [];
    var k := 0;
    while k < |files|
      invariant 0 <= k <= |files|
      invariant records == Assemble(files[..k])
    {
      AssembleStep(files, k);
      var parsed := ParsePath(files[k].name);
      if parsed.Some? {
        records := records + [WithSize(parsed.value, SizeOf(files[k]))];
      }
      k := k + 1;
    }
    assert files[..k] == files;
  }

  /**
   * `build_file_index` with a rebuild: crawl four directory levels, keep the
   * `.nc` files, parse every path and sort the rows.
   */
  method BuildFileIndex(ls: Lister, bucket: string) returns (r: Result<seq<CatalogRecord>, BuildError>)
    ensures r == Catalog(ls, bucket)
  {
    var top := ls(bucket);
    if top.None? {
      return Err(BucketUnreadable(bucket));
    }
    var projections := top.value;
    var allFiles: seq<Entry> := [];
    var p := 0;
    while p < |projections|
      invariant 0 <= p <= |projections|
      invariant CrawlProjections(ls, projections[..p]) == Ok(allFiles)
    {
      CrawlStep(ls, projections, p);
      var projDir := projections[p].name;
      if IsProjectionDir(projDir) {
        var institutions := ls(projDir);
        if institutions.None? {
          CrawlStopsAt(ls, projections, p + 1);
          return Err(ProjectionUnreadable(projDir));
        }
        var files := ScanInstitutions(ls, institutions.value);
        allFiles := allFiles + files;
      }
      p := p + 1;
    }
    assert projections[..p] == projections;
    var records := AssembleRecords(allFiles);
    if |records| == 0 {
      return Err(NoRecords);
    }
    return Ok(SortRecords(records));
  }
}
