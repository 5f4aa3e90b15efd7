/**
 The points of a queued write as text: one line each, and how the text is cut
 back into the lines of its points. A newline inside a quoted field or behind a
 backslash does not end a line; blank lines and comments are skipped.
 */
module PointText {
  import opened Bytes

  const NUL: byte := 0
  const TAB: byte := 9
  const NEWLINE: byte := 10
  const SPACE: byte := 32
  const QUOTE: byte := 34
  const HASH: byte := 35
  const COMMA: byte := 44
  const EQUALS: byte := 61
  const BACKSLASH: byte := 92

  type Text = seq<byte>

  /** One line of text for each of the first `n` points. */
  function LinesTo(points: seq<Text>, n: nat): (s: Text)
    requires n <= |points|
  {
    if n == 0 then [] else LinesTo(points, n - 1) + points[n - 1] + [NEWLINE]
  }

  function Lines(points: seq<Text>): (s: Text) {
    LinesTo(points, |points|)
  }

  /** Where the line of a point starts. */
  function Offset(points: seq<Text>, k: nat): (n: nat)
    requires k <= |points|
  {
    if k == 0 then 0 else Offset(points, k - 1) + |points[k - 1]| + 1
  }

  ghost predicate Agrees(text: Text, off: nat, line: Text) {
    off + |line| <= |text| && forall i | 0 <= i < |line| :: text[off + i] == line[i]
  }

  lemma {:induction false} LineAt(points: seq<Text>, k: nat, n: nat)
    requires k < n <= |points|
    ensures Agrees(LinesTo(points, n), Offset(points, k), points[k] + [NEWLINE])
  {
    LinesLength(points, n - 1);
    if k < n - 1 { LineAt(points, k, n - 1); }
  }

  lemma {:induction false} LinesLength(points: seq<Text>, n: nat)
    requires n <= |points|
    ensures |LinesTo(points, n)| == Offset(points, n)
  {
    if n > 0 { LinesLength(points, n - 1); }
  }

  // ---------- The end of a line ----------

  /** What scanLine knows: whether it is past the first space and inside quotes, and how
      many equal signs and commas it has seen. */
  datatype Scan = Scan(quoted: bool, fields: bool, equals: nat, commas: nat)

  const START := Scan(false, false, 0, 0)

  /** The state behind a byte that is not a backslash and does not end the line. */
  function Step(c: byte, st: Scan): (r: Scan) {
    if c == SPACE then st.(fields := true)
    else if !st.fields then st
    else if !st.quoted && c == EQUALS then st.(equals := st.equals + 1)
    else if !st.quoted && c == COMMA then st.(commas := st.commas + 1)
    else if c == QUOTE && st.equals > st.commas then st.(quoted := !st.quoted)
    else st
  }

  /** Where the line that is scanned from an offset on ends: at the first newline that is
      neither quoted nor escaped, or with the text. */
  function LineEnd(s: Text, i: nat, st: Scan): (n: nat)
    requires i <= |s|
    ensures i <= n <= |s|
    decreases |s| - i
  {
    if i == |s| then i
    else if s[i] == BACKSLASH then
      if i + 1 == |s| then |s| else LineEnd(s, i + 2, st)
    else if s[i] == NEWLINE && !st.quoted then i
    else LineEnd(s, i + 1, Step(s[i], st))
  }

  /** scanLine. (Behind a lone backslash at the very end the source steps out of the
      text; a queued text ends with a newline.) */
  method ScanLine(text: Text, start: nat) returns (end: nat)
    requires start <= |text|
    ensures end == LineEnd(text, start, START)
  {
    var i, quoted, fields, equals, commas := start, false, false, 0, 0;
    while i < |text|
      invariant start <= i <= |text|
      invariant LineEnd(text, start, START) == LineEnd(text, i, Scan(quoted, fields, equals, commas))
    {
      if text[i] == BACKSLASH {
        i := if i + 2 > |text| then |text| else i + 2;
        continue;
      }
      if text[i] == SPACE {
        fields := true;
      }
      if fields {
        if !quoted && text[i] == EQUALS {
          i, equals := i + 1, equals + 1;
          continue;
        } else if !quoted && text[i] == COMMA {
          i, commas := i + 1, commas + 1;
          continue;
        } else if text[i] == QUOTE && equals > commas {
          i, quoted := i + 1, !quoted;
          continue;
        }
      }
      if text[i] == NEWLINE && !quoted {
        break;
      }
      i := i + 1;
    }
    return i;
  }

  /** A line that ends does so wherever its text stands, and one that does not goes on. */
  lemma {:induction false} LineEndAnywhere(line: Text, text: Text, off: nat, i: nat, st: Scan)
    requires Agrees(text, off, line) && i <= |line|
    ensures if LineEnd(line, i, st) < |line| then LineEnd(text, off + i, st) == off + LineEnd(line, i, st)
            else LineEnd(text, off + i, st) >= off + |line|
    decreases |line| - i
  {
    if i < |line| {
      assert text[off + i] == line[i];
      if line[i] == BACKSLASH {
        if i + 1 < |line| { LineEndAnywhere(line, text, off, i + 2, st); }
      } else if line[i] != NEWLINE || st.quoted {
        LineEndAnywhere(line, text, off, i + 1, Step(line[i], st));
      }
    }
  }

  // ---------- Cutting a text into points ----------

  /** A part of a text. */
  datatype Span = Span(from: nat, end: nat)

  ghost predicate Within(text: Text, spans: seq<Span>) {
    forall s <- spans :: s.from <= s.end <= |text|
  }

  predicate IsBlank(c: byte) {
    c == SPACE || c == TAB || c == NUL
  }

  /** skipWhitespace */
  function Blanks(text: Text, i: nat, end: nat): (n: nat)
    requires i <= end <= |text|
    ensures i <= n <= end
    decreases end - i
  {
    if i < end && IsBlank(text[i]) then Blanks(text, i + 1, end) else i
  }

  /** What is parsed as a point, of the block between two offsets: nothing if it is blank
      or a comment, otherwise all but leading blanks and a newline at the end. */
  function PointAt(text: Text, i: nat, end: nat): (r: seq<Span>)
    requires i <= end <= |text|
    ensures |r| <= 1 && Within(text, r)
  {
    var n := Blanks(text, i, end);
    if n == end || text[n] == HASH then []
    else [Span(n, if text[end - 1] == NEWLINE then end - 1 else end)]
  }

  /** What is parsed as points, from an offset on. */
  function Spans(text: Text, pos: nat): (r: seq<Span>)
    ensures Within(text, r)
    decreases |text| - pos
  {
    if pos >= |text| then []
    else
      var n := LineEnd(text, pos, START);
      PointAt(text, pos, n) + Spans(text, n + 1)
  }

  function Texts(text: Text, spans: seq<Span>): (r: seq<Text>)
    requires Within(text, spans)
    ensures |r| == |spans| && forall k | 0 <= k < |r| :: r[k] == text[spans[k].from..spans[k].end]
  {
    seq(|spans|, k requires 0 <= k < |spans| => text[spans[k].from..spans[k].end])
  }

  /** The texts that are parsed as points. */
  function Cut(text: Text): (r: seq<Text>) {
    Texts(text, Spans(text, 0))
  }

  lemma {:induction false} TextsOneMore(text: Text, spans: seq<Span>, s: Span)
    requires Within(text, spans) && s.from <= s.end <= |text|
    ensures Within(text, spans + [s]) && Texts(text, spans + [s]) == Texts(text, spans) + [text[s.from..s.end]]
  {
  }

  lemma Regroup<T>(a: seq<T>, b: seq<T>, c: seq<T>)
    ensures (a + b) + c == a + (b + c)
  {
  }

  /** The loop of ParsePoints up to the parsing of each point. */
  method CutLines(text: Text) returns (blocks: seq<Text>)
    ensures blocks == Cut(text)
  {
    blocks := [];
    var pos := 0;
    ghost var all, done := Spans(text, 0), [];
    while pos < |text|
      invariant all == done + Spans(text, pos)
      invariant Within(text, done) && blocks == Texts(text, done)
    {
      var end := ScanLine(text, pos);
      var point := PointAt(text, pos, end);
      Regroup(done, point, Spans(text, end + 1));
      if point == [] {
        assert done + point == done;
      } else {
        TextsOneMore(text, done, point[0]);
        blocks := blocks + [text[point[0].from..point[0].end]];
        done := done + point;
      }
      pos := end + 1;
    }
  }

  // ---------- Exactly when the points come back ----------

  /** A point that is cut out of the text as it is. */
  predicate Survives(p: Text) {
    && p != [] && !IsBlank(p[0]) && p[0] != HASH
    && LineEnd(p + [NEWLINE], 0, START) == |p| && p[|p| - 1] != NEWLINE
  }

  /** The last point may also leave a quote open or end in a backslash: the text ends
      with it, and the newline is stripped. */
  predicate SurvivesLast(p: Text) {
    && p != [] && !IsBlank(p[0]) && p[0] != HASH
    && (LineEnd(p + [NEWLINE], 0, START) == |p| ==> p[|p| - 1] != NEWLINE)
    && LineEnd(p + [NEWLINE], 0, START) >= |p|
  }

  ghost predicate SurvivesAt(points: seq<Text>, k: nat)
    requires k < |points|
  {
    if k + 1 < |points| then Survives(points[k]) else SurvivesLast(points[k])
  }

  /** The span of a point in its text. */
  function SpanOf(points: seq<Text>, k: nat): (s: Span)
    requires k < |points|
  {
    Span(Offset(points, k), Offset(points, k) + |points[k]|)
  }

  /** A point that survives is what its line gives. */
  lemma {:induction false} SurvivorIsCut(points: seq<Text>, k: nat)
    requires k < |points| && SurvivesAt(points, k)
    ensures Offset(points, k) < |Lines(points)|
    ensures var n := LineEnd(Lines(points), Offset(points, k), START);
            && PointAt(Lines(points), Offset(points, k), n) == [SpanOf(points, k)]
            && (if k + 1 < |points| then n + 1 == Offset(points, k + 1) else n + 1 >= |Lines(points)|)
  {
    var text, off, p := Lines(points), Offset(points, k), points[k];
    LineAt(points, k, |points|);
    LinesLength(points, |points|);
    var line := p + [NEWLINE];
    LineEndAnywhere(line, text, off, 0, START);
    assert line[0] == p[0] && line[|p| - 1] == p[|p| - 1] && line[|p|] == NEWLINE;
  }

  /** The spans of the points from `k` on. */
  function SpansOf(points: seq<Text>, k: nat): (r: seq<Span>)
    requires k <= |points|
    ensures |r| == |points| - k
    ensures forall j | 0 <= j < |r| :: r[j] == SpanOf(points, k + j)
  {
    seq(|points| - k, j requires 0 <= j < |points| - k => SpanOf(points, k + j))
  }

  lemma {:induction false} SpansOfFront(points: seq<Text>, k: nat)
    requires k < |points|
    ensures SpansOf(points, k) == [SpanOf(points, k)] + SpansOf(points, k + 1)
  {
  }

  /** The spans of a text from a point that survives on. */
  lemma {:induction false} SurvivorComesFirst(points: seq<Text>, k: nat)
    requires k < |points| && SurvivesAt(points, k)
    ensures Spans(Lines(points), Offset(points, k)) == [SpanOf(points, k)] + Spans(Lines(points), Offset(points, k + 1))
  {
    SurvivorIsCut(points, k);
    LinesLength(points, |points|);
  }

  lemma {:induction false} SurvivorsAreCut(points: seq<Text>, k: nat)
    requires k <= |points| && forall j | k <= j < |points| :: SurvivesAt(points, j)
    ensures Spans(Lines(points), Offset(points, k)) == SpansOf(points, k)
    decreases |points| - k
  {
    if k < |points| {
      SurvivorComesFirst(points, k);
      SurvivorsAreCut(points, k + 1);
      SpansOfFront(points, k);
    } else {
      LinesLength(points, k);
    }
  }

  lemma {:induction false} TextOfSpan(points: seq<Text>, k: nat)
    requires k < |points|
    ensures var s := SpanOf(points, k);
            s.end <= |Lines(points)| && Lines(points)[s.from..s.end] == points[k]
  {
    LineAt(points, k, |points|);
    var line := points[k] + [NEWLINE];
    assert forall i | 0 <= i < |points[k]| :: line[i] == points[k][i];
  }

  lemma {:induction false} SurvivorsComeBack(points: seq<Text>)
    requires forall k | 0 <= k < |points| :: SurvivesAt(points, k)
    ensures Cut(Lines(points)) == points
  {
    SurvivorsAreCut(points, 0);
    forall k | 0 <= k < |points|
      ensures Cut(Lines(points))[k] == points[k]
    {
      TextOfSpan(points, k);
    }
  }

  /** Spans of the lengths of the points from `k` on. */
  ghost predicate SameLengths(points: seq<Text>, k: nat, spans: seq<Span>) {
    && k + |spans| == |points|
    && forall j | 0 <= j < |spans| :: spans[j].end == spans[j].from + |points[k + j]|
  }

  /** The length of the line of a point, and of the lines of all points from an offset on. */
  function PointLength(text: Text, i: nat, end: nat): (n: int)
    requires i <= end <= |text|
  {
    var r := PointAt(text, i, end);
    if r == [] then 0 else r[0].end - r[0].from + 1
  }

  function TotalLength(text: Text, pos: nat): (n: int)
    decreases |text| - pos
  {
    if pos >= |text| then 0
    else
      var n := LineEnd(text, pos, START);
      PointLength(text, pos, n) + TotalLength(text, n + 1)
  }

  ghost predicate Ended(text: Text) {
    text != [] ==> text[|text| - 1] == NEWLINE
  }

  /** What is parsed of a block is no more than the block, and all of it only if neither
      a blank nor a hash is at its start nor a newline at its end. */
  lemma {:induction false} PointIsShorter(text: Text, i: nat, end: nat)
    requires i <= end <= |text|
    ensures PointLength(text, i, end) <= end - i + (if i < end && text[end - 1] == NEWLINE then 0 else 1)
    ensures PointAt(text, i, end) != [] && PointAt(text, i, end)[0].from == i ==> !IsBlank(text[i]) && text[i] != HASH
  {
  }

  /** A text that ends in a newline gives no more than it has. */
  lemma {:induction false} CutIsShorter(text: Text, pos: nat)
    requires Ended(text)
    ensures TotalLength(text, pos) <= if pos < |text| then |text| - pos else 0
    decreases |text| - pos
  {
    if pos < |text| {
      var n := LineEnd(text, pos, START);
      PointIsShorter(text, pos, n);
      CutIsShorter(text, n + 1);
    }
  }

  lemma {:induction false} RestHasLengths(points: seq<Text>, k: nat, s: Span, rest: seq<Span>)
    requires SameLengths(points, k, [s] + rest)
    ensures s.end == s.from + |points[k]| && SameLengths(points, k + 1, rest)
  {
    var spans := [s] + rest;
    assert spans[0].end == spans[0].from + |points[k + 0]|;
    assert forall j | 0 <= j < |rest| :: spans[j + 1] == rest[j];
  }

  /** Spans of the right lengths take up the whole text of the points. */
  lemma {:induction false} LengthsAddUp(points: seq<Text>, k: nat, text: Text, pos: nat)
    requires SameLengths(points, k, Spans(text, pos))
    ensures TotalLength(text, pos) == Offset(points, |points|) - Offset(points, k)
    decreases |text| - pos
  {
    if pos < |text| {
      var n := LineEnd(text, pos, START);
      var r, rest := PointAt(text, pos, n), Spans(text, n + 1);
      if r == [] {
        assert r + rest == rest;
        LengthsAddUp(points, k, text, n + 1);
      } else {
        assert r == [r[0]];
        RestHasLengths(points, k, r[0], rest);
        LengthsAddUp(points, k + 1, text, n + 1);
      }
    }
  }

  /** If what a text gives from an offset on is as long as the text, its first line is
      given whole, up to a newline at the end of the text. */
  lemma {:induction false} FirstIsWhole(text: Text, off: nat, n: nat)
    requires Ended(text) && off < |text| && n == LineEnd(text, off, START)
    requires TotalLength(text, off) == |text| - off
    ensures PointAt(text, off, n) == [Span(off, if n < |text| then n else n - 1)]
    ensures !IsBlank(text[off]) && text[off] != HASH && (n < |text| ==> off < n && text[n - 1] != NEWLINE)
  {
    CutIsShorter(text, n + 1);
    PointIsShorter(text, off, n);
  }

  lemma {:induction false} LinesEnded(points: seq<Text>)
    ensures Ended(Lines(points))
  {
  }

  /** If the lengths are right from a point on, nothing of its line was skipped. */
  lemma {:induction false} FirstSurvives(points: seq<Text>, k: nat)
    requires k < |points| && SameLengths(points, k, Spans(Lines(points), Offset(points, k)))
    ensures SurvivesAt(points, k)
    ensures SameLengths(points, k + 1, Spans(Lines(points), Offset(points, k + 1)))
  {
    var text, off, p := Lines(points), Offset(points, k), points[k];
    LineAt(points, k, |points|);
    LinesLength(points, |points|);
    LinesEnded(points);
    LengthsAddUp(points, k, text, off);
    var n := LineEnd(text, off, START);
    FirstIsWhole(text, off, n);
    RestHasLengths(points, k, PointAt(text, off, n)[0], Spans(text, n + 1));
    assert n < |text| ==> n + 1 == Offset(points, k + 1);
    WholeSurvives(points, k, n);
  }

  lemma {:induction false} WholeSurvives(points: seq<Text>, k: nat, n: nat)
    requires k < |points| && Agrees(Lines(points), Offset(points, k), points[k] + [NEWLINE])
    requires n == LineEnd(Lines(points), Offset(points, k), START)
    requires
      var text, off := Lines(points), Offset(points, k);
      && !IsBlank(text[off]) && text[off] != HASH
      && if n < |text| then n == off + |points[k]| > off && text[n - 1] != NEWLINE else k + 1 == |points| && n == off + |points[k]| + 1
    ensures SurvivesAt(points, k)
  {
    var text, off, p := Lines(points), Offset(points, k), points[k];
    var line := p + [NEWLINE];
    LineEndAnywhere(line, text, off, 0, START);
    assert text[off] == line[0];
    assert p != [] ==> line[0] == p[0] && line[|p| - 1] == p[|p| - 1];
  }

  lemma {:induction false} RightLengthsSurvive(points: seq<Text>, k: nat)
    requires k <= |points| && SameLengths(points, k, Spans(Lines(points), Offset(points, k)))
    ensures forall j | k <= j < |points| :: SurvivesAt(points, j)
    decreases |points| - k
  {
    if k < |points| {
      FirstSurvives(points, k);
      RightLengthsSurvive(points, k + 1);
    }
  }

  /** The points of a queued write come back if and only if each one survives. */
  lemma PointsComeBackExactly(points: seq<Text>)
    ensures Cut(Lines(points)) == points <==> forall k | 0 <= k < |points| :: SurvivesAt(points, k)
  {
    if Cut(Lines(points)) == points {
      assert forall k | 0 <= k < |points| :: |points[k]| == |Cut(Lines(points))[k]|;
      RightLengthsSurvive(points, 0);
    } else if forall k | 0 <= k < |points| :: SurvivesAt(points, k) {
      SurvivorsComeBack(points);
    }
  }

  /** A point that starts with a hash is read as a comment: `#m f=1`. */
  lemma HashIsLost()
    ensures var p := [HASH, 109, SPACE, 102, EQUALS, 49];
            Cut(Lines([p])) != [p]
  {
    var points: seq<Text> := [[HASH, 109, SPACE, 102, EQUALS, 49]];
    assert !SurvivesAt(points, 0);
    PointsComeBackExactly(points);
  }

  /** A newline inside a quoted field does not end the line: `m f="<newline>" 1`. */
  lemma QuotedNewlineComesBack()
    ensures var p := [109, SPACE, 102, EQUALS, QUOTE, NEWLINE, QUOTE, SPACE, 49];
            Cut(Lines([p, p])) == [p, p]
  {
    var p: Text := [109, SPACE, 102, EQUALS, QUOTE, NEWLINE, QUOTE, SPACE, 49];
    var line := p + [NEWLINE];
    var st := Scan(false, true, 1, 0);
    assert LineEnd(line, 9, st) == 9;
    assert LineEnd(line, 7, st) == 9;
    assert LineEnd(line, 5, Scan(true, true, 1, 0)) == 9;
    assert LineEnd(line, 3, Scan(false, true, 0, 0)) == 9;
    assert LineEnd(line, 1, START) == 9;
    assert LineEnd(line, 0, START) == 9;
    PointsComeBackExactly([p, p]);
  }

  /** A quote opens only behind an equal sign of a field: neither behind a comma, as in
      `m f=1,"`, nor before the first space, as in `m"`. */
  lemma StrayQuotes()
    ensures LineEnd([109, SPACE, 102, EQUALS, 49, COMMA, QUOTE, NEWLINE, 109], 0, START) == 7
    ensures LineEnd([109, EQUALS, QUOTE, NEWLINE, 109], 0, START) == 3
  {
    var a: Text := [109, SPACE, 102, EQUALS, 49, COMMA, QUOTE, NEWLINE, 109];
    assert LineEnd(a, 6, Scan(false, true, 1, 1)) == 7;
    assert LineEnd(a, 4, Scan(false, true, 1, 0)) == 7;
    assert LineEnd(a, 2, Scan(false, true, 0, 0)) == 7;
    var b: Text := [109, EQUALS, QUOTE, NEWLINE, 109];
    assert LineEnd(b, 2, START) == 3;
  }
}
