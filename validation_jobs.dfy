/**
 * The background validation job: `$INCLUDE` flattening of a master zone and the
 * per-job status decision of the validation queue (jobs/process_validations.php).
 *
 * The zone_files table is a sequence of rows.  The temporary directory, the
 * file write and the named-checkzone run are outside the model: their outcomes
 * are parameters of each job.
 */
module ValidationJobs {
  import opened Wrappers
  import opened Text
  import opened Collections

  datatype ZoneFile = ZoneFile(
    id: int,
    name: string,
    filename: string,
    content: Option<string>,
    fileType: string,
    status: string)

  // ---------------------------------------------------------------------------
  // The $INCLUDE line pattern  ^\s*\$INCLUDE\s+["']?([^\s"']+)["']?\s*$
  // ---------------------------------------------------------------------------

  /** PCRE `\s`: space, tab, line feed, vertical tab, form feed, carriage return. */
  predicate IsPcreSpace(c: char) {
    c == ' ' || c == '\t' || c == '\n' || c == '\U{B}' || c == '\U{C}' || c == '\r'
  }

  predicate IsQuote(c: char) {
    c == '"' || c == '\''
  }

  /** A character of the captured path: `[^\s"']`. */
  predicate IsPathChar(c: char) {
    !IsPcreSpace(c) && !IsQuote(c)
  }

  const Directive: string := "$INCLUDE"

  /** `line` with its leading `\s` run removed. */
  function DropSpaces(s: string): (r: string)
    ensures |r| <= |s|
    ensures r == [] || !IsPcreSpace(r[0])
  {
    if |s| > 0 && IsPcreSpace(s[0]) then DropSpaces(s[1..]) else s
  }

  /** `s` without one optional leading quote. */
  function DropQuote(s: string): (r: string) {
    if |s| > 0 && IsQuote(s[0]) then s[1..] else s
  }

  /** The maximal leading run of path characters. */
  function TakePath(s: string): (r: string)
    ensures |r| <= |s|
    ensures forall k :: 0 <= k < |r| ==> IsPathChar(r[k])
  {
    if |s| > 0 && IsPathChar(s[0]) then [s[0]] + TakePath(s[1..]) else []
  }

  /**
   * The captured include path when a whole line matches the directive pattern:
   * leading white space, `$INCLUDE`, at least one white-space character, an
   * optional quote, the path (the maximal run of path characters), an optional
   * quote and trailing white space.  Each stage is its own function below.
   */
  function IncludeTarget(line: string): (r: Option<string>)
    ensures r.Some? ==> |r.value| > 0 && forall k :: 0 <= k < |r.value| ==> IsPathChar(r.value[k])
  {
    AfterLead(DropSpaces(line))
  }

  function AfterLead(rest: string): (r: Option<string>)
    ensures r.Some? ==> |r.value| > 0 && forall k :: 0 <= k < |r.value| ==> IsPathChar(r.value[k])
  {
    if StartsWith(rest, Directive) then AfterKeyword(rest[|Directive|..]) else None
  }

  function AfterKeyword(rest: string): (r: Option<string>)
    ensures r.Some? ==> |r.value| > 0 && forall k :: 0 <= k < |r.value| ==> IsPathChar(r.value[k])
  {
    var afterGap := DropSpaces(rest);
    if |afterGap| == |rest| then None else AfterGap(DropQuote(afterGap))
  }

  function AfterGap(body: string): (r: Option<string>)
    ensures r.Some? ==> |r.value| > 0 && forall k :: 0 <= k < |r.value| ==> IsPathChar(r.value[k])
  {
    var path := TakePath(body);
    if path == [] || DropSpaces(DropQuote(body[|path|..])) != [] then None else Some(path)
  }

  /** A directive line built from its parts: the pattern's own grammar. */
  function DirectiveLine(lead: string, gap: string, open: string, path: string, close: string, tail: string): string {
    lead + (Directive + (gap + (open + (path + (close + tail)))))
  }

  predicate AllSpaces(s: string) {
    forall k :: 0 <= k < |s| ==> IsPcreSpace(s[k])
  }

  predicate OptionalQuote(s: string) {
    s == [] || (|s| == 1 && IsQuote(s[0]))
  }

  /** Every line of the pattern's grammar is recognised, with its path captured. */
  lemma DirectiveLineRecognised(lead: string, gap: string, open: string, path: string, close: string, tail: string)
    requires AllSpaces(lead) && AllSpaces(gap) && |gap| > 0 && AllSpaces(tail)
    requires OptionalQuote(open) && OptionalQuote(close)
    requires |path| > 0 && forall k :: 0 <= k < |path| ==> IsPathChar(path[k])
    ensures IncludeTarget(DirectiveLine(lead, gap, open, path, close, tail)) == Some(path)
  {
    var t4 := path + (close + tail);
    var t2 := gap + (open + t4);
    var t1 := Directive + t2;
    assert t1[0] == '$';
    DropSpacesOver(lead, t1);
    assert t1[..|Directive|] == Directive && t1[|Directive|..] == t2;
    GapRecognised(gap, open, t4);
    PathRecognised(path, close, tail);
  }

  /** After `$INCLUDE`: the white-space gap and the optional opening quote are skipped. */
  lemma GapRecognised(gap: string, open: string, body: string)
    requires AllSpaces(gap) && |gap| > 0 && OptionalQuote(open)
    requires |body| > 0 && IsPathChar(body[0])
    ensures AfterKeyword(gap + (open + body)) == AfterGap(body)
  {
    var t3 := open + body;
    assert !IsPcreSpace(t3[0]) by {
      if open == [] {
        assert t3[0] == body[0];
      }
    }
    DropSpacesOver(gap, t3);
    assert DropQuote(t3) == body by {
      if open == [] {
        assert t3 == body;
      }
    }
  }

  /** The path, the optional closing quote and trailing white space complete the match. */
  lemma PathRecognised(path: string, close: string, tail: string)
    requires |path| > 0 && forall k :: 0 <= k < |path| ==> IsPathChar(path[k])
    requires OptionalQuote(close) && AllSpaces(tail)
    ensures AfterGap(path + (close + tail)) == Some(path)
  {
    var t5 := close + tail;
    TakePathOver(path, t5);
    assert (path + t5)[|path|..] == t5;
    assert DropQuote(t5) == tail by {
      if close == [] && tail != [] {
        assert t5[0] == tail[0];
      }
    }
    DropSpacesOver(tail, []);
    assert tail + [] == tail;
  }

  lemma {:induction false} DropSpacesOver(spaces: string, rest: string)
    requires AllSpaces(spaces) && (rest == [] || !IsPcreSpace(rest[0]))
    ensures DropSpaces(spaces + rest) == rest
    decreases |spaces|
  {
    if spaces == [] {
      assert spaces + rest == rest;
    } else {
      assert (spaces + rest)[1..] == spaces[1..] + rest;
      DropSpacesOver(spaces[1..], rest);
    }
  }

  lemma {:induction false} TakePathOver(path: string, rest: string)
    requires forall k :: 0 <= k < |path| ==> IsPathChar(path[k])
    requires rest == [] || !IsPathChar(rest[0])
    ensures TakePath(path + rest) == path
    decreases |path|
  {
    if path == [] {
      assert path + rest == rest;
    } else {
      assert (path + rest)[1..] == path[1..] + rest;
      TakePathOver(path[1..], rest);
      assert [path[0]] + path[1..] == path;
    }
  }

  // ---------------------------------------------------------------------------
  // basename() and the include lookup
  // ---------------------------------------------------------------------------

  function TrimTrailingSlashes(s: string): (r: string)
    ensures |r| <= |s|
    ensures r == [] || r[|r| - 1] != '/'
  {
    if |s| > 0 && s[|s| - 1] == '/' then TrimTrailingSlashes(s[..|s| - 1]) else s
  }

  /** PHP basename on '/'-separated paths: the last non-empty component. */
  function Basename(path: string): (r: string)
    ensures '/' !in r
  {
    var p := TrimTrailingSlashes(path);
    if '/' in p then p[LastIndexOf(p, '/') + 1..] else p
  }

  /** A name without '/' is its own basename. */
  lemma BasenameOfPlainName(name: string)
    requires '/' !in name
    ensures Basename(name) == name
  {
    if |name| > 0 {
      assert name[|name| - 1] != '/';
    }
  }

  /** basename is idempotent. */
  lemma BasenameIdempotent(path: string)
    ensures Basename(Basename(path)) == Basename(path)
  {
    BasenameOfPlainName(Basename(path));
  }

  predicate IsActiveInclude(z: ZoneFile) {
    z.fileType == "include" && z.status == "active"
  }

  /** The row the lookup accepts for an include path: exact path or its basename. */
  predicate Resolves(z: ZoneFile, path: string) {
    IsActiveInclude(z) && (z.filename == path || z.filename == Basename(path))
  }

  /**
   * The include lookup (LIMIT 1 without ORDER BY): the first accepted row in
   * table order.
   */
  function Lookup(rows: seq<ZoneFile>, path: string): (r: Option<ZoneFile>)
    ensures r.Some? ==> r.value in rows && Resolves(r.value, path)
    ensures r.None? ==> forall z :: z in rows ==> !Resolves(z, path)
  {
    if |rows| == 0 then None
    else if Resolves(rows[0], path) then Some(rows[0])
    else Lookup(rows[1..], path)
  }

  /** The basenames an include can have: the bound on how deep flattening goes. */
  function Includable(rows: seq<ZoneFile>): set<string> {
    set z | z in rows && IsActiveInclude(z) :: Basename(z.filename)
  }

  lemma ResolvedIsIncludable(rows: seq<ZoneFile>, path: string, z: ZoneFile)
    requires z in rows && Resolves(z, path)
    ensures Basename(path) in Includable(rows)
  {
    if z.filename != path {
      BasenameIdempotent(path);
    }
    assert Basename(z.filename) in Includable(rows);
  }

  function Remaining(rows: seq<ZoneFile>, visited: seq<string>): nat {
    |Includable(rows) - (set b | b in visited)|
  }

  lemma RemainingShrinks(rows: seq<ZoneFile>, visited: seq<string>, b: string)
    requires b in Includable(rows) && b !in visited
    ensures Remaining(rows, visited + [b]) < Remaining(rows, visited)
  {
    var before := Includable(rows) - (set x | x in visited);
    var after := Includable(rows) - (set x | x in visited + [b]);
    assert after == before - {b};
    assert b in before;
  }

  lemma RemainingMonotone(rows: seq<ZoneFile>, visited: seq<string>, more: seq<string>)
    requires visited <= more
    ensures Remaining(rows, more) <= Remaining(rows, visited)
  {
    var before := Includable(rows) - (set x | x in visited);
    var after := Includable(rows) - (set x | x in more);
    forall x | x in visited ensures x in more {
      var i :| 0 <= i < |visited| && visited[i] == x;
      assert more[i] == x;
    }
    SubsetCardinality(after, before);
  }

  // ---------------------------------------------------------------------------
  // Flattening
  // ---------------------------------------------------------------------------

  /** No line of `text` is an `$INCLUDE` directive. */
  predicate NoIncludeLine(text: string) {
    forall line :: line in Split(text, '\n') ==> IncludeTarget(line).None?
  }

  /** The visited list only grows, stays free of duplicates, and holds only includable basenames. */
  predicate Grows(rows: seq<ZoneFile>, before: seq<string>, after: seq<string>) {
    before <= after
    && (NoDuplicates(before) ==> NoDuplicates(after))
    && forall k :: |before| <= k < |after| ==> after[k] in Includable(rows)
  }

  lemma GrowsTransitive(rows: seq<ZoneFile>, a: seq<string>, b: seq<string>, c: seq<string>)
    requires Grows(rows, a, b) && Grows(rows, b, c)
    ensures Grows(rows, a, c)
  {
  }

  /** Recording a new includable basename, then growing further, is growth. */
  lemma GrowsThrough(rows: seq<ZoneFile>, visited: seq<string>, b: string, after: seq<string>)
    requires b !in visited && b in Includable(rows)
    requires Grows(rows, visited + [b], after)
    ensures Grows(rows, visited, after)
  {
    if NoDuplicates(visited) {
      AppendFresh(visited, b);
    }
    assert Grows(rows, visited, visited + [b]);
    GrowsTransitive(rows, visited, visited + [b], after);
  }

  /** A flattened text together with the visited list after it. */
  datatype Flat = Flat(text: string, visited: seq<string>)

  /** The flattened pieces of a list of lines, one per line. */
  datatype Pieces = Pieces(pieces: seq<string>, visited: seq<string>)

  /** What the callback does for one line: keep it, or splice in the flattened include. */
  predicate PieceFor(line: string, piece: string) {
    if IncludeTarget(line).None? then piece == line else NoIncludeLine(piece)
  }

  /**
   * The replacement callback for one line: a non-directive line is kept; a
   * directive's basename must be new, is recorded, must resolve to an active
   * include, and is replaced by that include's flattened content.
   */
  function Expand(rows: seq<ZoneFile>, line: string, visited: seq<string>): (r: Result<Flat, string>)
    ensures r.Success? ==> Grows(rows, visited, r.value.visited) && PieceFor(line, r.value.text)
    decreases Remaining(rows, visited), 0, 0
  {
    match IncludeTarget(line)
    case None => Success(Flat(line, visited))
    case Some(path) =>
      var b := Basename(path);
      if b in visited then Failure("Circular include detected: " + b)
      else
        match Lookup(rows, path)
        case None => Failure("Include file not found: " + b + " (path: " + path + ")")
        case Some(z) =>
          ResolvedIsIncludable(rows, path, z);
          RemainingShrinks(rows, visited, b);
          match FlattenContent(rows, z.content.GetOr(""), visited + [b])
          case Failure(e) => Failure(e)
          case Success(f) =>
            GrowsThrough(rows, visited, b, f.visited);
            Success(f)
  }

  /** The callback applied to each line in order, threading the visited list. */
  function FlattenLines(rows: seq<ZoneFile>, lines: seq<string>, visited: seq<string>): (r: Result<Pieces, string>)
    ensures r.Success? ==> Grows(rows, visited, r.value.visited)
    ensures r.Success? ==> |r.value.pieces| == |lines|
    ensures r.Success? ==> forall k :: 0 <= k < |lines| ==> PieceFor(lines[k], r.value.pieces[k])
    decreases Remaining(rows, visited), 0, |lines|
  {
    if |lines| == 0 then Success(Pieces([], visited))
    else
      match Expand(rows, lines[0], visited)
      case Failure(e) => Failure(e)
      case Success(first) =>
        RemainingMonotone(rows, visited, first.visited);
        match FlattenLines(rows, lines[1..], first.visited)
        case Failure(e) => Failure(e)
        case Success(rest) =>
          PiecesCombine(rows, lines, visited, first, rest);
          Success(Pieces([first.text] + rest.pieces, rest.visited))
  }

  /** The first line's piece followed by the pieces of the other lines. */
  lemma PiecesCombine(rows: seq<ZoneFile>, lines: seq<string>, visited: seq<string>, first: Flat, rest: Pieces)
    requires |lines| > 0
    requires Grows(rows, visited, first.visited) && PieceFor(lines[0], first.text)
    requires Grows(rows, first.visited, rest.visited) && |rest.pieces| == |lines| - 1
    requires forall k :: 0 <= k < |lines| - 1 ==> PieceFor(lines[1..][k], rest.pieces[k])
    ensures var pieces := [first.text] + rest.pieces;
      Grows(rows, visited, rest.visited) && |pieces| == |lines|
      && forall k :: 0 <= k < |lines| ==> PieceFor(lines[k], pieces[k])
  {
    GrowsTransitive(rows, visited, first.visited, rest.visited);
    var pieces := [first.text] + rest.pieces;
    forall k | 0 <= k < |lines| ensures PieceFor(lines[k], pieces[k]) {
      if k > 0 {
        assert pieces[k] == rest.pieces[k - 1] && lines[k] == lines[1..][k - 1];
      }
    }
  }

  /** flattenZoneContent: every directive line is replaced by its flattened include. */
  function FlattenContent(rows: seq<ZoneFile>, content: string, visited: seq<string>): (r: Result<Flat, string>)
    ensures r.Success? ==> Grows(rows, visited, r.value.visited)
    ensures r.Success? ==> NoIncludeLine(r.value.text)
    decreases Remaining(rows, visited), 1, 0
  {
    var lines := Split(content, '\n');
    match FlattenLines(rows, lines, visited)
    case Failure(e) => Failure(e)
    case Success(p) =>
      JoinedPiecesClean(lines, p.pieces);
      Success(Flat(Join(p.pieces, '\n'), p.visited))
  }

  /** Split distributes over a separator: the lines of `a \n b` are those of `a` then of `b`. */
  lemma {:induction false} SplitAround(a: string, b: string, sep: char)
    ensures Split(a + [sep] + b, sep) == Split(a, sep) + Split(b, sep)
    decreases |a|
  {
    if sep !in a {
      SplitAfterPlain(a, b, sep);
    } else {
      var i := IndexOf(a, sep);
      var rest := a[i + 1..];
      SplitAround(rest, b, sep);
      SplitAroundStep(a, b, sep, i);
      ConsAssoc(a[..i], Split(rest, sep), Split(b, sep));
    }
  }

  lemma ConsAssoc<T>(x: T, p: seq<T>, q: seq<T>)
    ensures [x] + (p + q) == ([x] + p) + q
  {
  }

  /** Both sides give up the same first piece when `a` holds a separator at i. */
  lemma SplitAroundStep(a: string, b: string, sep: char, i: nat)
    requires i < |a| && a[i] == sep && sep !in a[..i]
    ensures Split(a + [sep] + b, sep) == [a[..i]] + Split(a[i + 1..] + [sep] + b, sep)
    ensures Split(a, sep) == [a[..i]] + Split(a[i + 1..], sep)
  {
    var s := a + [sep] + b;
    assert s[..i] == a[..i];
    SplitAt(s, sep, i);
    SplitAt(a, sep, i);
    assert s[i + 1..] == a[i + 1..] + [sep] + b;
  }

  lemma SplitAfterPlain(a: string, b: string, sep: char)
    requires sep !in a
    ensures Split(a + [sep] + b, sep) == [a] + Split(b, sep)
  {
    var s := a + [sep] + b;
    assert s[..|a|] == a;
    SplitAt(s, sep, |a|);
    assert s[|a| + 1..] == b;
  }

  /** Split takes the piece before the first separator, then splits the rest. */
  lemma SplitAt(s: string, sep: char, i: nat)
    requires i < |s| && s[i] == sep && sep !in s[..i]
    ensures Split(s, sep) == [s[..i]] + Split(s[i + 1..], sep)
  {
    IndexOfAt(s, sep, i);
  }

  lemma IndexOfAt(s: string, c: char, i: nat)
    requires i < |s| && s[i] == c && c !in s[..i]
    ensures IndexOf(s, c) == i
  {
  }

  /** A line free of separators is its own single piece. */
  lemma SplitPlainLine(line: string, sep: char)
    requires sep !in line
    ensures Split(line, sep) == [line]
  {
  }

  /** Joining clean pieces of separator-free lines yields a text with no directive line. */
  lemma {:induction false} JoinedPiecesClean(lines: seq<string>, pieces: seq<string>)
    requires |lines| == |pieces| >= 1
    requires forall k :: 0 <= k < |lines| ==> '\n' !in lines[k]
    requires forall k :: 0 <= k < |lines| ==> PieceFor(lines[k], pieces[k])
    ensures NoIncludeLine(Join(pieces, '\n'))
    decreases |pieces|
  {
    assert NoIncludeLine(pieces[0]) by {
      if IncludeTarget(lines[0]).None? {
        SplitPlainLine(lines[0], '\n');
      }
    }
    if |pieces| > 1 {
      JoinedPiecesClean(lines[1..], pieces[1..]);
      SplitAround(pieces[0], Join(pieces[1..], '\n'), '\n');
    }
  }

  /** The whole-job flatten, starting from an empty visited list. */
  function Flatten(rows: seq<ZoneFile>, content: string): Result<Flat, string> {
    FlattenContent(rows, content, [])
  }

  /** Within one flatten every include basename is inlined at most once. */
  lemma FlattenInlinesEachIncludeOnce(rows: seq<ZoneFile>, content: string)
    requires Flatten(rows, content).Success?
    ensures NoDuplicates(Flatten(rows, content).value.visited)
    ensures forall b :: b in Flatten(rows, content).value.visited ==> b in Includable(rows)
  {
    var v := Flatten(rows, content).value.visited;
    forall b | b in v ensures b in Includable(rows) {
      var k :| 0 <= k < |v| && v[k] == b;
    }
  }

  /** Lines without directives pass through unchanged, leaving the visited list alone. */
  lemma {:induction false} PlainLinesUnchanged(rows: seq<ZoneFile>, lines: seq<string>, visited: seq<string>)
    requires forall k :: 0 <= k < |lines| ==> IncludeTarget(lines[k]).None?
    ensures FlattenLines(rows, lines, visited) == Success(Pieces(lines, visited))
    decreases |lines|
  {
    if |lines| > 0 {
      PlainLinesUnchanged(rows, lines[1..], visited);
      assert [lines[0]] + lines[1..] == lines;
    }
  }

  /** A text without directive lines flattens to itself. */
  lemma CleanContentUnchanged(rows: seq<ZoneFile>, content: string, visited: seq<string>)
    requires NoIncludeLine(content)
    ensures FlattenContent(rows, content, visited) == Success(Flat(content, visited))
  {
    var lines := Split(content, '\n');
    assert forall k :: 0 <= k < |lines| ==> IncludeTarget(lines[k]).None? by {
      forall k | 0 <= k < |lines| ensures IncludeTarget(lines[k]).None? {
        assert lines[k] in lines;
      }
    }
    PlainLinesUnchanged(rows, lines, visited);
    JoinSplit(content, '\n');
  }

  /** Flattening is idempotent: a flattened text flattens to itself. */
  lemma FlattenIdempotent(rows: seq<ZoneFile>, content: string)
    requires Flatten(rows, content).Success?
    ensures Flatten(rows, Flatten(rows, content).value.text) == Success(Flat(Flatten(rows, content).value.text, []))
  {
    CleanContentUnchanged(rows, Flatten(rows, content).value.text, []);
  }

  /**
   * A directive line whose basename is new and whose path resolves is replaced
   * by that include's content, flattened with the basename recorded; when the
   * include has no directive line of its own, by its content unchanged.
   */
  lemma ExpandInlinesInclude(rows: seq<ZoneFile>, line: string, visited: seq<string>, z: ZoneFile)
    requires IncludeTarget(line).Some? && Basename(IncludeTarget(line).value) !in visited
    requires Lookup(rows, IncludeTarget(line).value) == Some(z)
    ensures Expand(rows, line, visited) == FlattenContent(rows, z.content.GetOr(""), visited + [Basename(IncludeTarget(line).value)])
    ensures NoIncludeLine(z.content.GetOr("")) ==>
      Expand(rows, line, visited) == Success(Flat(z.content.GetOr(""), visited + [Basename(IncludeTarget(line).value)]))
  {
    if NoIncludeLine(z.content.GetOr("")) {
      CleanContentUnchanged(rows, z.content.GetOr(""), visited + [Basename(IncludeTarget(line).value)]);
    }
  }

  /**
   * A content that is a single directive line flattens to the flattened content
   * of the include it names.
   */
  lemma FlattenDirectiveLine(rows: seq<ZoneFile>, line: string, visited: seq<string>, z: ZoneFile)
    requires '\n' !in line
    requires IncludeTarget(line).Some? && Basename(IncludeTarget(line).value) !in visited
    requires Lookup(rows, IncludeTarget(line).value) == Some(z)
    ensures FlattenContent(rows, line, visited) == FlattenContent(rows, z.content.GetOr(""), visited + [Basename(IncludeTarget(line).value)])
  {
    SplitPlainLine(line, '\n');
    ExpandInlinesInclude(rows, line, visited, z);
    assert [line][1..] == [];
    match Expand(rows, line, visited)
    case Failure(e) =>
    case Success(f) =>
      assert FlattenLines(rows, [line][1..], f.visited) == Success(Pieces([], f.visited));
      assert [f.text] + [] == [f.text];
      assert FlattenLines(rows, [line], visited) == Success(Pieces([f.text], f.visited));
      assert Join([f.text], '\n') == f.text;
  }

  /**
   * The visited list is shared across the whole flatten, so a basename included
   * twice fails even when the two directives are siblings.
   */
  lemma RepeatedIncludeFails(rows: seq<ZoneFile>, line: string, visited: seq<string>)
    requires IncludeTarget(line).Some?
    ensures FlattenLines(rows, [line, line], visited).Failure?
  {
    var b := Basename(IncludeTarget(line).value);
    var first := Expand(rows, line, visited);
    if first.Success? {
      assert b in first.value.visited by {
        if b in visited {
          assert false;
        }
        var v := first.value.visited;
        assert (visited + [b])[|visited|] == b;
      }
      assert [line, line][1..] == [line];
      assert Expand(rows, line, first.value.visited).Failure?;
    }
  }

  // ---------------------------------------------------------------------------
  // The validation queue
  // ---------------------------------------------------------------------------

  /** A queued job: the zone to validate and the user who asked for it. */
  datatype Job = Job(zoneId: int, userId: Option<int>)

  /** What named-checkzone reports: its exit code and its output lines. */
  datatype CheckerRun = CheckerRun(exitCode: int, lines: seq<string>)

  /** Whether creating the job's temporary directory and writing its file succeed. */
  datatype JobEnv = JobEnv(mkdirOk: bool, writeOk: bool)

  /** A row stored in zone_file_validation (checked_at is the database clock). */
  datatype Stored = Stored(zoneId: int, status: string, output: string, runBy: Option<int>)

  /** How far a job gets before its result is stored. */
  datatype Stage =
    | ZoneMissing
    | NoTempDir
    | FlattenFailed(message: string)
    | WriteFailed
    | Checked(zoneName: string, flattened: string)

  /** The zone row of a job: the first row with that id whose status is not 'deleted'. */
  function FindZone(rows: seq<ZoneFile>, id: int): (r: Option<ZoneFile>)
    ensures r.Some? ==> r.value in rows && r.value.id == id && r.value.status != "deleted"
    ensures r.None? ==> forall z :: z in rows ==> z.id != id || z.status == "deleted"
  {
    if |rows| == 0 then None
    else if rows[0].id == id && rows[0].status != "deleted" then Some(rows[0])
    else FindZone(rows[1..], id)
  }

  /** implode("\n", lines), which is "" for no lines. */
  function Implode(lines: seq<string>): string {
    if |lines| == 0 then "" else Join(lines, '\n')
  }

  function JobStage(rows: seq<ZoneFile>, job: Job, env: JobEnv): Stage {
    match FindZone(rows, job.zoneId)
    case None => ZoneMissing
    case Some(z) =>
      if !env.mkdirOk then NoTempDir
      else
        match Flatten(rows, z.content.GetOr(""))
        case Failure(e) => FlattenFailed(e)
        case Success(f) => if env.writeOk then Checked(z.name, f.text) else WriteFailed
  }

  function Failed(job: Job, message: string): Stored {
    Stored(job.zoneId, "failed", message, job.userId)
  }

  /**
   * One job as the loop body runs it, given the lines already held by the array
   * that exec() appends the checker's output to.  Returns the stored row and
   * that array afterwards.
   */
  function ValidateJobAfter(rows: seq<ZoneFile>, job: Job, env: JobEnv, checker: (string, string) -> CheckerRun, earlier: seq<string>): (Stored, seq<string>) {
    match JobStage(rows, job, env)
    case ZoneMissing => (Failed(job, "Zone file not found"), earlier)
    case NoTempDir => (Failed(job, "Failed to create temporary directory for validation"), earlier)
    case FlattenFailed(e) => (Failed(job, "Failed to flatten zone content: " + e), earlier)
    case WriteFailed => (Failed(job, "Failed to write flattened zone file"), earlier)
    case Checked(name, text) =>
      var run := checker(name, text);
      var lines := earlier + run.lines;
      (Stored(job.zoneId, if run.exitCode == 0 then "passed" else "failed", Implode(lines), job.userId), lines)
  }

  /** One job with a fresh output array: the result each job is meant to store. */
  function ValidateJob(rows: seq<ZoneFile>, job: Job, env: JobEnv, checker: (string, string) -> CheckerRun): Stored {
    ValidateJobAfter(rows, job, env, checker, []).0
  }

  /**
   * A job passes exactly when its zone exists, its temporary directory and file
   * are created, its content flattens, and named-checkzone exits with 0; a
   * checked job stores the checker's own output.
   */
  lemma JobPassesIff(rows: seq<ZoneFile>, job: Job, env: JobEnv, checker: (string, string) -> CheckerRun)
    ensures var r := ValidateJob(rows, job, env, checker);
      (r.status == "passed" || r.status == "failed") && r.zoneId == job.zoneId && r.runBy == job.userId
    ensures var r := ValidateJob(rows, job, env, checker);
      r.status == "passed" <==>
        (FindZone(rows, job.zoneId).Some? && env.mkdirOk && env.writeOk
         && Flatten(rows, FindZone(rows, job.zoneId).value.content.GetOr("")).Success?
         && checker(FindZone(rows, job.zoneId).value.name,
                    Flatten(rows, FindZone(rows, job.zoneId).value.content.GetOr("")).value.text).exitCode == 0)
    ensures JobStage(rows, job, env).Checked? ==>
      var st := JobStage(rows, job, env);
      ValidateJob(rows, job, env, checker).output == Implode(checker(st.zoneName, st.flattened).lines)
  {
    var st := JobStage(rows, job, env);
    if st.Checked? {
      var lines := checker(st.zoneName, st.flattened).lines;
      assert [] + lines == lines;
    }
  }

  /** A flatten error is stored with its prefix and the checker is never consulted. */
  lemma FlattenFailureSkipsChecker(rows: seq<ZoneFile>, job: Job, env: JobEnv, c1: (string, string) -> CheckerRun, c2: (string, string) -> CheckerRun)
    requires FindZone(rows, job.zoneId).Some? && env.mkdirOk
    requires Flatten(rows, FindZone(rows, job.zoneId).value.content.GetOr("")).Failure?
    ensures ValidateJob(rows, job, env, c1) == ValidateJob(rows, job, env, c2)
    ensures ValidateJob(rows, job, env, c1).status == "failed"
    ensures ValidateJob(rows, job, env, c1).output
      == "Failed to flatten zone content: " + Flatten(rows, FindZone(rows, job.zoneId).value.content.GetOr("")).error
  {
  }

  /** The queue loop: one stored result per job, in queue order. */
  method ProcessQueue(rows: seq<ZoneFile>, queue: seq<Job>, env: nat -> JobEnv, checker: (string, string) -> CheckerRun)
    returns (stored: seq<Stored>)
    ensures |stored| == |queue|
    ensures forall i :: 0 <= i < |queue| ==> stored[i] == ValidateJob(rows, queue[i], env(i), checker)
  {
    stored := [];
    var i := 0;
    while i < |queue|
      invariant 0 <= i <= |queue| && |stored| == i
      invariant forall k :: 0 <= k < i ==> stored[k] == ValidateJob(rows, queue[k], env(k), checker)
    {
      var result := ValidateJob(rows, queue[i], env(i), checker);
      stored := stored + [result];
      i := i + 1;
    }
  }

  /**
   * The queue loop as written: the array exec() appends to is never reset, so
   * every checked job inherits the output lines of the checked jobs before it.
   */
  function ProcessQueueAsWritten(rows: seq<ZoneFile>, queue: seq<Job>, env: nat -> JobEnv, checker: (string, string) -> CheckerRun): (r: (seq<Stored>, seq<string>))
    ensures |r.0| == |queue|
  {
    if |queue| == 0 then ([], [])
    else
      var before := ProcessQueueAsWritten(rows, queue[..|queue| - 1], env, checker);
      var last := ValidateJobAfter(rows, queue[|queue| - 1], env(|queue| - 1), checker, before.1);
      (before.0 + [last.0], last.1)
  }

  lemma {:induction false} JoinAppend(a: seq<string>, b: seq<string>, sep: char)
    requires |a| >= 1 && |b| >= 1
    ensures Join(a + b, sep) == Join(a, sep) + [sep] + Join(b, sep)
    decreases |a|
  {
    if |a| > 1 {
      assert (a + b)[1..] == a[1..] + b;
      JoinAppend(a[1..], b, sep);
    } else {
      assert (a + b)[1..] == b;
    }
  }

  /**
   * With two checked jobs whose checker runs print something, the second job's
   * stored output is longer than its own checker output: the first job's lines
   * come first.
   */
  lemma CheckerOutputCarriedOver(rows: seq<ZoneFile>, j1: Job, j2: Job, env: nat -> JobEnv, checker: (string, string) -> CheckerRun)
    requires JobStage(rows, j1, env(0)).Checked? && JobStage(rows, j2, env(1)).Checked?
    requires var s := JobStage(rows, j1, env(0)); |checker(s.zoneName, s.flattened).lines| > 0
    requires var s := JobStage(rows, j2, env(1)); |checker(s.zoneName, s.flattened).lines| > 0
    ensures ProcessQueueAsWritten(rows, [j1, j2], env, checker).0[1].output
      != ValidateJob(rows, j2, env(1), checker).output
  {
    var s1 := JobStage(rows, j1, env(0));
    var s2 := JobStage(rows, j2, env(1));
    var a := checker(s1.zoneName, s1.flattened).lines;
    var b := checker(s2.zoneName, s2.flattened).lines;
    assert [j1, j2][..1] == [j1];
    assert [j1][..0] == [];
    assert ProcessQueueAsWritten(rows, [j1], env, checker).1 == a;
    assert ProcessQueueAsWritten(rows, [j1, j2], env, checker).0[1].output == Implode(a + b);
    JoinAppend(a, b, '\n');
    assert [] + b == b;
    assert ValidateJob(rows, j2, env(1), checker).output == Implode(b);
    assert |Implode(a + b)| > |Implode(b)|;
  }
}
