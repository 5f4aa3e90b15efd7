/**
 The text of a point, as it is written into a queued record: measurement and tags,
 fields, and a timestamp. Every such text survives being queued as a line, whatever
 its quoted fields hold, unless it looks like a comment or starts with a blank.
 */
module LineProtocol {
  import opened Basics
  import opened Bytes
  import opened PointText

  datatype Value = Plain(text: Text) | Quoted(text: Text)

  datatype Field = Field(key: Text, value: Value)

  function ValueText(v: Value): (s: Text) {
    match v
    case Plain(t) => t
    case Quoted(t) => [QUOTE] + t + [QUOTE]
  }

  function FieldText(f: Field): (s: Text) {
    f.key + [EQUALS] + ValueText(f.value)
  }

  function FieldsText(fields: seq<Field>): (s: Text)
    requires fields != []
  {
    var k := |fields| - 1;
    if k == 0 then FieldText(fields[0]) else FieldsText(fields[..k]) + [COMMA] + FieldText(fields[k])
  }

  /** A point without a time has no timestamp. */
  function PointLine(key: Text, fields: seq<Field>, timestamp: Text): (s: Text)
    requires fields != []
  {
    key + [SPACE] + FieldsText(fields) + if timestamp == [] then [] else [SPACE] + timestamp
  }

  /** None of these bytes occurs unescaped, and no backslash stands at the end. */
  predicate FreeOf(s: Text, i: nat, special: set<byte>)
    requires i <= |s|
    decreases |s| - i
  {
    if i == |s| then true
    else if s[i] == BACKSLASH then i + 1 < |s| && FreeOf(s, i + 2, special)
    else s[i] !in special && FreeOf(s, i + 1, special)
  }

  /** What a text in the line protocol keeps to: bytes are escaped where they would have
      another meaning. */
  predicate WellFormedField(f: Field) {
    && FreeOf(f.key, 0, {NEWLINE, EQUALS, COMMA})
    && match f.value
       case Plain(t) => FreeOf(t, 0, {NEWLINE, EQUALS, COMMA, QUOTE})
       case Quoted(t) => FreeOf(t, 0, {QUOTE})
  }

  predicate WellFormed(key: Text, fields: seq<Field>, timestamp: Text) {
    && FreeOf(key, 0, {NEWLINE, SPACE})
    && fields != [] && (forall f <- fields :: WellFormedField(f))
    && FreeOf(timestamp, 0, {NEWLINE, EQUALS, COMMA, QUOTE})
  }

  // ---------- Scanning piece by piece ----------

  /** The state of the scan behind a text in which no line ends. */
  function Scanned(s: Text, i: nat, st: Scan): (r: Option<Scan>)
    requires i <= |s|
    decreases |s| - i
  {
    if i == |s| then Some(st)
    else if s[i] == BACKSLASH then
      if i + 1 == |s| then None else Scanned(s, i + 2, st)
    else if s[i] == NEWLINE && !st.quoted then None
    else Scanned(s, i + 1, Step(s[i], st))
  }

  /** A line ends with its text if and only if no line ends in it and no quote is open. */
  lemma {:induction false} EndsExactly(p: Text, i: nat, st: Scan)
    requires i <= |p|
    ensures LineEnd(p + [NEWLINE], i, st) == |p| <==> Scanned(p, i, st).Some? && !Scanned(p, i, st).value.quoted
    decreases |p| - i
  {
    var line := p + [NEWLINE];
    if i == |p| {
      assert line[i] == NEWLINE;
    } else if p[i] == BACKSLASH {
      if i + 1 < |p| { EndsExactly(p, i + 2, st); }
    } else if p[i] != NEWLINE || st.quoted {
      EndsExactly(p, i + 1, Step(p[i], st));
    }
  }

  lemma {:induction false} ScannedConcat(s: Text, t: Text, i: nat, st: Scan)
    requires i <= |s|
    ensures Scanned(s, i, st).Some? ==> Scanned(s + t, i, st) == Scanned(s + t, |s|, Scanned(s, i, st).value)
    decreases |s| - i
  {
    if i < |s| {
      if s[i] == BACKSLASH {
        if i + 1 < |s| { ScannedConcat(s, t, i + 2, st); }
      } else if s[i] != NEWLINE || st.quoted {
        ScannedConcat(s, t, i + 1, Step(s[i], st));
      }
    }
  }

  lemma {:induction false} ScannedShift(s: Text, t: Text, i: nat, st: Scan)
    requires i <= |t|
    ensures Scanned(s + t, |s| + i, st) == Scanned(t, i, st)
    decreases |t| - i
  {
    if i < |t| {
      if t[i] == BACKSLASH {
        if i + 1 < |t| { ScannedShift(s, t, i + 2, st); }
      } else if t[i] != NEWLINE || st.quoted {
        ScannedShift(s, t, i + 1, Step(t[i], st));
      }
    }
  }

  lemma Then(s: Text, t: Text, st: Scan, st1: Scan, st2: Scan)
    requires Scanned(s, 0, st) == Some(st1) && Scanned(t, 0, st1) == Some(st2)
    ensures Scanned(s + t, 0, st) == Some(st2)
  {
    ScannedConcat(s, t, 0, st);
    ScannedShift(s, t, 0, st1);
  }

  lemma OneByte(c: byte, st: Scan)
    requires c != BACKSLASH && (c == NEWLINE ==> st.quoted)
    ensures Scanned([c], 0, st) == Some(Step(c, st))
  {
    assert Scanned([c], 1, Step(c, st)) == Some(Step(c, st));
  }

  /** A text without the bytes that have a meaning in a state leaves the state alone. */
  lemma {:induction false} NothingSpecial(s: Text, i: nat, special: set<byte>, st: Scan)
    requires i <= |s| && FreeOf(s, i, special)
    requires forall c: byte | c !in special :: Step(c, st) == st && (c == NEWLINE ==> st.quoted)
    ensures Scanned(s, i, st) == Some(st)
    decreases |s| - i
  {
    if i < |s| {
      if s[i] == BACKSLASH {
        NothingSpecial(s, i + 2, special, st);
      } else {
        NothingSpecial(s, i + 1, special, st);
      }
    }
  }

  /** Between fields: as many equal signs as commas, or one more behind a key. */
  function Before(n: nat): (st: Scan) {
    Scan(false, true, n, n)
  }

  function Behind(n: nat): (st: Scan) {
    Scan(false, true, n + 1, n)
  }

  lemma ValueScanned(v: Value, n: nat)
    requires match v case Plain(t) => FreeOf(t, 0, {NEWLINE, EQUALS, COMMA, QUOTE}) case Quoted(t) => FreeOf(t, 0, {QUOTE})
    ensures Scanned(ValueText(v), 0, Behind(n)) == Some(Behind(n))
  {
    match v
    case Plain(t) => NothingSpecial(t, 0, {NEWLINE, EQUALS, COMMA, QUOTE}, Behind(n));
    case Quoted(t) =>
      var inside := Behind(n).(quoted := true);
      OneByte(QUOTE, Behind(n));
      NothingSpecial(t, 0, {QUOTE}, inside);
      OneByte(QUOTE, inside);
      Then([QUOTE], t, Behind(n), inside, inside);
      Then([QUOTE] + t, [QUOTE], Behind(n), inside, Behind(n));
  }

  lemma FieldScanned(f: Field, n: nat)
    requires WellFormedField(f)
    ensures Scanned(FieldText(f), 0, Before(n)) == Some(Behind(n))
  {
    NothingSpecial(f.key, 0, {NEWLINE, EQUALS, COMMA}, Before(n));
    OneByte(EQUALS, Before(n));
    ValueScanned(f.value, n);
    Then(f.key, [EQUALS], Before(n), Before(n), Behind(n));
    Then(f.key + [EQUALS], ValueText(f.value), Before(n), Behind(n), Behind(n));
  }

  lemma {:induction false} FieldsScanned(fields: seq<Field>)
    requires fields != [] && forall f <- fields :: WellFormedField(f)
    ensures Scanned(FieldsText(fields), 0, Before(0)) == Some(Behind(|fields| - 1))
  {
    var k := |fields| - 1;
    assert fields[k] in fields;
    FieldScanned(fields[k], k);
    if k > 0 {
      var front := fields[..k];
      FieldsScanned(front);
      OneByte(COMMA, Behind(k - 1));
      Then(FieldsText(front), [COMMA], Before(0), Behind(k - 1), Before(k));
      Then(FieldsText(front) + [COMMA], FieldText(fields[k]), Before(0), Before(k), Behind(k));
    }
  }

  lemma LineScanned(key: Text, fields: seq<Field>, timestamp: Text)
    requires WellFormed(key, fields, timestamp)
    ensures Scanned(PointLine(key, fields, timestamp), 0, START) == Some(Behind(|fields| - 1))
  {
    var end := Behind(|fields| - 1);
    NothingSpecial(key, 0, {NEWLINE, SPACE}, START);
    OneByte(SPACE, START);
    FieldsScanned(fields);
    var head := key + [SPACE];
    Then(key, [SPACE], START, START, Before(0));
    Then(head, FieldsText(fields), START, Before(0), end);
    OneByte(SPACE, end);
    NothingSpecial(timestamp, 0, {NEWLINE, EQUALS, COMMA, QUOTE}, end);
    Then([SPACE], timestamp, end, end, end);
    if timestamp == [] {
      assert head + FieldsText(fields) + [] == head + FieldsText(fields);
    } else {
      Then(head + FieldsText(fields), [SPACE] + timestamp, START, end, end);
    }
  }

  /** A point in the line protocol comes back from its text if and only if it starts with
      neither a blank nor a hash and does not end in a newline. */
  lemma RenderedPointSurvives(key: Text, fields: seq<Field>, timestamp: Text)
    requires WellFormed(key, fields, timestamp)
    ensures var p := PointLine(key, fields, timestamp);
            && p != [] && LineEnd(p + [NEWLINE], 0, START) == |p|
            && (Survives(p) <==> !IsBlank(p[0]) && p[0] != HASH && p[|p| - 1] != NEWLINE)
            && (SurvivesLast(p) <==> Survives(p))
  {
    LineScanned(key, fields, timestamp);
    EndsExactly(PointLine(key, fields, timestamp), 0, START);
  }

  datatype Rendered = Rendered(key: Text, fields: seq<Field>, timestamp: Text)

  /** p is the point r in the line protocol, and starts and ends as a point should. */
  ghost predicate Renders(p: Text, r: Rendered) {
    && WellFormed(r.key, r.fields, r.timestamp)
    && p == PointLine(r.key, r.fields, r.timestamp)
    && !IsBlank(p[0]) && p[0] != HASH && p[|p| - 1] != NEWLINE
  }

  /** So a write of such points gives them all back, whatever its quoted fields hold. */
  lemma RenderedWriteComesBack(points: seq<Text>, rendered: seq<Rendered>)
    requires |points| == |rendered| && forall k | 0 <= k < |points| :: Renders(points[k], rendered[k])
    ensures Cut(Lines(points)) == points
  {
    forall k | 0 <= k < |points|
      ensures SurvivesAt(points, k)
    {
      assert Renders(points[k], rendered[k]);
      RenderedPointSurvives(rendered[k].key, rendered[k].fields, rendered[k].timestamp);
    }
    PointsComeBackExactly(points);
  }
}
