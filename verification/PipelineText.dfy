/** The text form of a pipeline: one line per stage, four fields separated by tabs. */
module PipelineText {
  import opened Basics
  import opened Decimal

  type int32 = x: int | -TWO_TO_THE_31 <= x < TWO_TO_THE_31

  /** A negative input stage means the source data; a negative output stage marks
      a result of the pipeline. */
  datatype Stage = Stage(operation: string, args: string, inputStage: int32, outputStage: int32)

  const DEFAULT_STAGE: int32 := -1

  // ---------------------------------------------------------------------------
  // Printing
  // ---------------------------------------------------------------------------

  function Line(s: Stage): string {
    FourFields(s.operation, s.args, OfInt(s.inputStage), OfInt(s.outputStage))
  }

  function FourFields(a: string, b: string, c: string, d: string): string {
    a + "\t" + b + "\t" + c + "\t" + d
  }

  /** Lines with newlines between them. */
  function Joined(lines: seq<string>): string {
    if lines == [] then ""
    else if |lines| == 1 then lines[0]
    else lines[0] + "\n" + Joined(lines[1..])
  }

  function Text(stages: seq<Stage>): string {
    Joined(MapSeq(Line, stages))
  }

  lemma {:induction false} JoinedSnoc(lines: seq<string>, last: string)
    requires lines != []
    ensures Joined(lines + [last]) == Joined(lines) + "\n" + last
  {
    assert (lines + [last])[1..] == lines[1..] + [last];
    if |lines| > 1 {
      JoinedSnoc(lines[1..], last);
      assert Joined(lines + [last]) == lines[0] + "\n" + (Joined(lines[1..]) + "\n" + last);
    }
  }

  lemma TextSnoc(stages: seq<Stage>, s: Stage)
    ensures Text(stages + [s]) == if stages == [] then Line(s) else Text(stages) + "\n" + Line(s)
  {
    assert MapSeq(Line, stages + [s]) == MapSeq(Line, stages) + [Line(s)];
    if stages != [] {
      JoinedSnoc(MapSeq(Line, stages), Line(s));
    }
  }

  lemma LineAssembled(out: string, s: Stage)
    ensures out + s.operation + "\t" + s.args + "\t" + OfInt(s.inputStage) + "\t" + OfInt(s.outputStage)
         == out + Line(s)
  {
    AppendAssociates(out, s.operation, s.args, OfInt(s.inputStage), OfInt(s.outputStage));
  }

  lemma AppendAssociates(out: string, a: string, b: string, c: string, d: string)
    ensures out + a + "\t" + b + "\t" + c + "\t" + d == out + (a + "\t" + b + "\t" + c + "\t" + d)
  {
  }

  lemma TextNext(stages: seq<Stage>, i: nat)
    requires i < |stages|
    ensures Text(stages[..i + 1]) == (if i > 0 then Text(stages[..i]) + "\n" else "") + Line(stages[i])
  {
    TextSnoc(stages[..i], stages[i]);
    assert stages[..i + 1] == stages[..i] + [stages[i]];
  }

  method Append(out: string, s: Stage) returns (longer: string)
    ensures longer == out + Line(s)
  {
    LineAssembled(out, s);
    longer := out + s.operation;
    longer := longer + "\t";
    longer := longer + s.args;
    longer := longer + "\t";
    longer := longer + OfInt(s.inputStage);
    longer := longer + "\t";
    longer := longer + OfInt(s.outputStage);
  }

  method Serialize(stages: seq<Stage>) returns (out: string)
    ensures out == Text(stages)
  {
    if stages == [] {
      return "";
    }
    out := "";
    for i := 0 to |stages|
      invariant out == Text(stages[..i])
    {
      TextNext(stages, i);
      if i > 0 {
        out := out + "\n";
      }
      out := Append(out, stages[i]);
    }
    assert stages[..|stages|] == stages;
  }

  // ---------------------------------------------------------------------------
  // Searching and reading numbers
  // ---------------------------------------------------------------------------

  /** The first place of `c` in `s` at or after `from`, or the end of `s`. */
  function Find(s: string, c: char, from: nat): (k: nat)
    requires from <= |s|
    ensures from <= k <= |s| && (k < |s| ==> s[k] == c)
    decreases |s| - from
  {
    if from == |s| || s[from] == c then from else Find(s, c, from + 1)
  }

  lemma {:induction false} NotBefore(s: string, c: char, from: nat)
    requires from <= |s|
    ensures c !in s[from..Find(s, c, from)]
    decreases |s| - from
  {
    if from < |s| && s[from] != c {
      NotBefore(s, c, from + 1);
      var end := Find(s, c, from);
      assert s[from..end] == [s[from]] + s[from + 1..end];
    }
  }

  lemma {:induction false} FoundAt(s: string, c: char, from: nat, k: nat)
    requires from <= k <= |s| && (k < |s| ==> s[k] == c) && c !in s[from..k]
    ensures Find(s, c, from) == k
    decreases k - from
  {
    if from < k {
      assert s[from..k] == [s[from]] + s[from + 1..k];
      FoundAt(s, c, from + 1, k);
    }
  }

  /** Reads digits from `from` on, looking no further than `end`: the number, and
      where it ends. */
  function ReadDigits(s: string, from: nat, end: nat, value: nat): (r: (nat, nat))
    requires from <= end <= |s|
    decreases end - from
  {
    if from == end || !IsDigit(s[from]) then (value, from)
    else ReadDigits(s, from + 1, end, value * 10 + DigitValue(s[from]))
  }

  /** std::from_chars on a 32-bit integer: an optional minus and as many digits
      as there are. Without digits, or out of range, the old value stays. */
  function FromChars(s: string, from: nat, end: nat, current: int32): int32
    requires from <= end <= |s|
  {
    var negative := from < end && s[from] == '-';
    var start := if negative then from + 1 else from;
    var r := ReadDigits(s, start, end, 0);
    var value := if negative then 0 - r.0 else r.0;
    if r.1 == start || value < -TWO_TO_THE_31 || TWO_TO_THE_31 <= value then current else value
  }

  /** The value of some digits after a number already read. */
  function Continued(value: nat, t: string): nat
    requires forall c :: c in t ==> IsDigit(c)
  {
    if t == "" then value else Continued(value, t[..|t| - 1]) * 10 + DigitValue(t[|t| - 1])
  }

  lemma {:induction false} ContinuedHead(value: nat, t: string)
    requires t != "" && forall c :: c in t ==> IsDigit(c)
    ensures Continued(value, t) == Continued(value * 10 + DigitValue(t[0]), t[1..])
  {
    var init := t[..|t| - 1];
    if init != "" {
      ContinuedHead(value, init);
      assert t[1..][..|t[1..]| - 1] == init[1..];
    }
  }

  lemma {:induction false} ContinuedParses(t: string)
    requires forall c :: c in t ==> IsDigit(c)
    ensures Continued(0, t) == ParseNat(t)
  {
    if t != "" {
      ContinuedParses(t[..|t| - 1]);
    }
  }

  predicate AllDigits(t: string) {
    forall c :: c in t ==> IsDigit(c)
  }

  /** The digits `t` are read, and no more. */
  lemma {:induction false} ReadAll(s: string, from: nat, t: string, end: nat, value: nat)
    requires AllDigits(t) && from + |t| <= end <= |s| && s[from..from + |t|] == t
    requires from + |t| < end ==> !IsDigit(s[from + |t|])
    ensures ReadDigits(s, from, end, value) == (Continued(value, t), from + |t|)
    decreases |t|
  {
    if t != "" {
      assert s[from] == t[0] && t[0] in t;
      assert s[from + 1..from + 1 + |t[1..]|] == t[1..];
      ReadAll(s, from + 1, t[1..], end, value * 10 + DigitValue(t[0]));
      ContinuedHead(value, t);
    }
  }

  /** An optional minus, some digits, and what follows them. */
  predicate NumberThen(field: string, negative: bool, digits: string, rest: string) {
    && field == (if negative then "-" else "") + digits + rest
    && AllDigits(digits) && (rest != "" ==> !IsDigit(rest[0]))
    && (!negative && digits == "" && rest != "" ==> rest[0] != '-')
  }

  function Signed(negative: bool, digits: string): int
    requires AllDigits(digits)
  {
    if negative then 0 - ParseNat(digits) else ParseNat(digits)
  }

  /** The number, or the old value without digits or out of range. */
  function Limited(negative: bool, digits: string, current: int32): int32
    requires AllDigits(digits)
  {
    var n := Signed(negative, digits);
    if digits == "" || n < -TWO_TO_THE_31 || TWO_TO_THE_31 <= n then current else n
  }

  lemma NumberParts(field: string, negative: bool, digits: string, rest: string) returns (k: nat)
    requires NumberThen(field, negative, digits, rest)
    ensures k == (if negative then 1 else 0) && k + |digits| <= |field| && field[k..k + |digits|] == digits
    ensures k + |digits| < |field| ==> !IsDigit(field[k + |digits|])
    ensures negative <==> field != "" && field[0] == '-'
  {
    var sign := if negative then "-" else "";
    k := |sign|;
    MiddlePart(sign, digits, rest);
    assert digits != "" ==> digits[0] in digits;
  }

  lemma MiddlePart(a: string, b: string, c: string)
    ensures var s := a + b + c;
      && s[|a|..|a| + |b|] == b && |s| == |a| + |b| + |c|
      && (c != "" ==> s[|a| + |b|] == c[0])
      && (a != "" ==> s[0] == a[0]) && (a == "" && b != "" ==> s[0] == b[0]) && (a == "" && b == "" ==> s == c)
  {
    var s := a + b + c;
    assert s[|a|..|a| + |b|] == b;
    assert a == "" ==> s == b + c;
    assert a == "" && b == "" ==> s == c;
  }

  lemma InField(s: string, from: nat, end: nat, k: nat, t: string)
    requires from <= end <= |s| && k + |t| <= end - from && s[from..end][k..k + |t|] == t
    ensures s[from + k..from + k + |t|] == t
    ensures k + |t| < end - from ==> s[from..end][k + |t|] == s[from + k + |t|]
  {
    var field := s[from..end];
    assert forall i :: 0 <= i < |t| ==> t[i] == field[k..k + |t|][i] == field[k + i] == s[from + k + i];
  }

  /** What a field is read as: its leading number, if it has one that fits 32 bits. */
  lemma FieldNumber(
      s: string, from: nat, end: nat, current: int32, negative: bool, digits: string, rest: string)
    requires from <= end <= |s| && NumberThen(s[from..end], negative, digits, rest)
    ensures FromChars(s, from, end, current) == Limited(negative, digits, current)
  {
    var k := NumberParts(s[from..end], negative, digits, rest);
    InField(s, from, end, k, digits);
    ReadAll(s, from + k, digits, end, 0);
    ContinuedParses(digits);
    assert from < end ==> s[from] == s[from..end][0];
  }

  /** Every field has such a form. */
  lemma {:induction false} SomeNumber(field: string) returns (negative: bool, digits: string, rest: string)
    ensures NumberThen(field, negative, digits, rest)
  {
    negative := field != "" && field[0] == '-';
    var tail := if negative then field[1..] else field;
    var n := LeadingDigits(tail);
    digits, rest := tail[..n], tail[n..];
    assert tail == digits + rest;
    assert negative ==> field == "-" + tail;
    assert !negative ==> field == "" + digits + rest;
    assert !negative && n == 0 ==> rest == field;
  }

  lemma {:induction false} LeadingDigits(t: string) returns (n: nat)
    ensures n <= |t| && AllDigits(t[..n]) && (n < |t| ==> !IsDigit(t[n]))
  {
    n := 0;
    if t != "" && IsDigit(t[0]) {
      n := LeadingDigits(t[1..]);
      assert t[..n + 1] == [t[0]] + t[1..][..n];
      n := n + 1;
    }
  }

  lemma SignOf(n: int, m: nat)
    requires n == m || n + m == 0
    ensures IsDigit(OfNat(m)[0])
    ensures n < 0 ==> OfInt(n)[0] == '-' && OfInt(n)[1..] == OfNat(m)
  {
    assert OfNat(m)[0] in OfNat(m);
  }

  lemma PrintedIsPlain(n: int)
    ensures '\t' !in OfInt(n) && '\n' !in OfInt(n)
  {
  }

  // ---------------------------------------------------------------------------
  // Parsing
  // ---------------------------------------------------------------------------

  /** The field a line ends in, or before. */
  datatype ParseError = MissingOperation | MissingArgs | MissingInputStage

  function ParseLine(line: string): Result<Stage, ParseError> {
    var tab1 := Find(line, '\t', 0);
    if tab1 == |line| then Err(MissingOperation) else
      var tab2 := Find(line, '\t', tab1 + 1);
      if tab2 == |line| then Err(MissingArgs) else
        var tab3 := Find(line, '\t', tab2 + 1);
        if tab3 == |line| then Err(MissingInputStage) else
          Ok(Stage(line[..tab1], line[tab1 + 1..tab2],
                   FromChars(line, tab2 + 1, tab3, DEFAULT_STAGE), FromChars(line, tab3 + 1, |line|, DEFAULT_STAGE)))
  }

  /** The non-empty lines of `s` from position `start` on. */
  function LinesFrom(s: string, start: nat): seq<string>
    decreases |s| - start
  {
    if start >= |s| then [] else
      var end := Find(s, '\n', start);
      (if end == start then [] else [s[start..end]]) + LinesFrom(s, end + 1)
  }

  /** All values, or the first error. */
  function Collected(results: seq<Result<Stage, ParseError>>): Result<seq<Stage>, ParseError> {
    if results == [] then Ok([])
    else if results[0].Err? then Err(results[0].error)
    else Prepend([results[0].value], Collected(results[1..]))
  }

  function Parse(s: string): Result<seq<Stage>, ParseError> {
    Collected(MapSeq(ParseLine, LinesFrom(s, 0)))
  }

  method ReadLine(line: string) returns (stage: Result<Stage, ParseError>)
    ensures stage == ParseLine(line)
  {
    var pos := 0;
    var tab1 := Find(line, '\t', pos);
    if tab1 == |line| {
      return Err(MissingOperation);
    }
    var operation := line[pos..tab1];
    pos := tab1 + 1;
    var tab2 := Find(line, '\t', pos);
    if tab2 == |line| {
      return Err(MissingArgs);
    }
    var args := line[pos..tab2];
    pos := tab2 + 1;
    var tab3 := Find(line, '\t', pos);
    if tab3 == |line| {
      return Err(MissingInputStage);
    }
    var inputStage := FromChars(line, pos, tab3, DEFAULT_STAGE);
    pos := tab3 + 1;
    var outputStage := FromChars(line, pos, |line|, DEFAULT_STAGE);
    return Ok(Stage(operation, args, inputStage, outputStage));
  }

  /** One more result after the first `k`. */
  lemma CollectNext(stages: seq<Stage>, results: seq<Result<Stage, ParseError>>, k: nat)
    requires k < |results|
    ensures Prepend(stages, Collected(results[k..])) ==
      if results[k].Err? then Err(results[k].error)
      else Prepend(stages + [results[k].value], Collected(results[k + 1..]))
  {
    assert results[k..][1..] == results[k + 1..];
    if results[k].Ok? {
      PrependTwice(stages, [results[k].value], Collected(results[k + 1..]));
    }
  }

  /** The lines before `start` have given these stages; `k` of them were not empty. */
  ghost predicate ReadSoFar(s: string, start: nat, k: nat, stages: seq<Stage>) {
    var lines := LinesFrom(s, 0);
    && k <= |lines| && lines[k..] == LinesFrom(s, start)
    && Parse(s) == Prepend(stages, Collected(MapSeq(ParseLine, lines)[k..]))
  }

  lemma ReadNothing(s: string)
    ensures ReadSoFar(s, 0, 0, [])
  {
    PrependNothing(Parse(s));
  }

  lemma ReadAnother(s: string, start: nat, k: nat, stages: seq<Stage>, line: string, stage: Result<Stage, ParseError>)
    requires ReadSoFar(s, start, k, stages) && start < |s|
    requires line == s[start..Find(s, '\n', start)] && line != "" && stage == ParseLine(line)
    ensures stage.Err? ==> Parse(s) == Err(stage.error)
    ensures stage.Ok? ==> ReadSoFar(s, Find(s, '\n', start) + 1, k + 1, stages + [stage.value])
  {
    var lines, rest := LinesFrom(s, 0), LinesFrom(s, Find(s, '\n', start) + 1);
    SplitLine(s, start);
    LineAt(lines, k, line, rest);
    CollectNext(stages, MapSeq(ParseLine, lines), k);
  }

  lemma ReadEmpty(s: string, start: nat, k: nat, stages: seq<Stage>)
    requires ReadSoFar(s, start, k, stages) && start < |s| && Find(s, '\n', start) == start
    ensures ReadSoFar(s, start + 1, k, stages)
  {
    SplitLine(s, start);
  }

  lemma ReadToTheEnd(s: string, start: nat, k: nat, stages: seq<Stage>)
    requires ReadSoFar(s, start, k, stages) && start >= |s|
    ensures Parse(s) == Ok(stages)
  {
    PrependToNothing(stages);
  }

  /** Reads the line at `start`: the stages so far, or the error, and where the line ends. */
  method ReadNext(s: string, start: nat, stages: seq<Stage>, ghost k: nat)
    returns (result: Result<seq<Stage>, ParseError>, end: nat, ghost k': nat)
    requires ReadSoFar(s, start, k, stages) && start < |s|
    ensures start <= end <= |s|
    ensures result.Err? ==> Parse(s) == result
    ensures result.Ok? ==> ReadSoFar(s, end + 1, k', result.value)
  {
    end := Find(s, '\n', start);
    var line := s[start..end];
    if line == "" {
      ReadEmpty(s, start, k, stages);
      return Ok(stages), end, k;
    }
    var stage := ReadLine(line);
    ReadAnother(s, start, k, stages, line, stage);
    if stage.Err? {
      return Err(stage.error), end, k;
    }
    return Ok(stages + [stage.value]), end, k + 1;
  }

  method Deserialize(s: string) returns (result: Result<seq<Stage>, ParseError>)
    ensures result == Parse(s)
  {
    if s == "" {
      return Ok([]);
    }
    result := Ok([]);
    var lineStart := 0;
    ghost var k := 0;
    ReadNothing(s);
    while lineStart < |s|
      invariant result.Ok? && ReadSoFar(s, lineStart, k, result.value)
      decreases |s| - lineStart
    {
      var lineEnd;
      result, lineEnd, k := ReadNext(s, lineStart, result.value, k);
      if result.Err? {
        return;
      }
      lineStart := lineEnd + 1;
    }
    ReadToTheEnd(s, lineStart, k, result.value);
  }

  lemma LineAt(lines: seq<string>, k: nat, line: string, rest: seq<string>)
    requires k <= |lines| && lines[k..] == [line] + rest
    ensures k < |lines| && lines[k] == line && lines[k + 1..] == rest
  {
    assert lines[k..][0] == line && lines[k..][1..] == rest;
  }

  lemma SplitLine(s: string, start: nat)
    requires start < |s|
    ensures var end := Find(s, '\n', start);
      LinesFrom(s, start) == (if s[start..end] == "" then [] else [s[start..end]]) + LinesFrom(s, end + 1)
  {
  }

  lemma PrependToNothing(stages: seq<Stage>)
    ensures Prepend<Stage, ParseError>(stages, Ok([])) == Ok(stages)
  {
    assert stages + [] == stages;
  }

  // ---------------------------------------------------------------------------
  // Round trip
  // ---------------------------------------------------------------------------

  /** No field can be mistaken for a separator. */
  ghost predicate Plain(s: Stage) {
    && '\t' !in s.operation && '\n' !in s.operation
    && '\t' !in s.args && '\n' !in s.args
  }

  lemma FieldPlaces(a: string, b: string, c: string, d: string) returns (line: string, tab1: nat, tab2: nat, tab3: nat)
    ensures line == FourFields(a, b, c, d) && tab1 < tab2 < tab3 < |line|
    ensures line[tab1] == '\t' && line[tab2] == '\t' && line[tab3] == '\t'
    ensures line[..tab1] == a && line[tab1 + 1..tab2] == b && line[tab2 + 1..tab3] == c && line[tab3 + 1..|line|] == d
  {
    line, tab1, tab2 := FourFields(a, b, c, d), |a|, |a| + 1 + |b|;
    tab3 := tab2 + 1 + |c|;
    assert line[tab1 + 1..tab2] == b && line[tab2 + 1..tab3] == c && line[tab3 + 1..|line|] == d;
  }

  /** The four fields of a line can be told apart. */
  lemma FieldsFound(a: string, b: string, c: string, d: string) returns (line: string, tab1: nat, tab2: nat, tab3: nat)
    requires '\t' !in a && '\t' !in b && '\t' !in c
    ensures line == FourFields(a, b, c, d) && TabsAt(line, tab1, tab2, tab3)
    ensures line[..tab1] == a && line[tab1 + 1..tab2] == b && line[tab2 + 1..tab3] == c && line[tab3 + 1..|line|] == d
  {
    line, tab1, tab2, tab3 := FieldPlaces(a, b, c, d);
    assert line[0..tab1] == line[..tab1];
    FoundAt(line, '\t', 0, tab1);
    FoundAt(line, '\t', tab1 + 1, tab2);
    FoundAt(line, '\t', tab2 + 1, tab3);
  }

  /** The stage number that a field stands for. */
  function NumberOf(field: string): int32 {
    FromChars(field, 0, |field|, DEFAULT_STAGE)
  }

  lemma NumberIs(field: string, negative: bool, digits: string, rest: string)
    requires NumberThen(field, negative, digits, rest)
    ensures NumberOf(field) == Limited(negative, digits, DEFAULT_STAGE)
  {
    assert field[0..|field|] == field;
    FieldNumber(field, 0, |field|, DEFAULT_STAGE, negative, digits, rest);
  }

  /** Reading back a printed number. */
  lemma PrintedNumber(n: int32)
    ensures NumberOf(OfInt(n)) == n
  {
    var m: nat := if n < 0 then 0 - n else n;
    SignOf(n, m);
    ParsePrinted(m);
    assert OfInt(n) == (if n < 0 then "-" else "") + OfNat(m) + "";
    NumberIs(OfInt(n), n < 0, OfNat(m), "");
  }

  lemma ReadsField(s: string, from: nat, end: nat, field: string)
    requires from <= end <= |s| && field == s[from..end]
    ensures FromChars(s, from, end, DEFAULT_STAGE) == NumberOf(field)
  {
    var negative, digits, rest := SomeNumber(field);
    FieldNumber(s, from, end, DEFAULT_STAGE, negative, digits, rest);
    NumberIs(field, negative, digits, rest);
  }

  /** The first three tabs of the line. */
  predicate TabsAt(line: string, tab1: nat, tab2: nat, tab3: nat) {
    && tab1 < tab2 < tab3 < |line|
    && Find(line, '\t', 0) == tab1 && Find(line, '\t', tab1 + 1) == tab2 && Find(line, '\t', tab2 + 1) == tab3
  }

  lemma ParseSplit(line: string, tab1: nat, tab2: nat, tab3: nat)
    requires TabsAt(line, tab1, tab2, tab3)
    ensures ParseLine(line) == Ok(Stage(line[..tab1], line[tab1 + 1..tab2],
      FromChars(line, tab2 + 1, tab3, DEFAULT_STAGE), FromChars(line, tab3 + 1, |line|, DEFAULT_STAGE)))
  {
  }

  /** Three tabs separate operation, arguments, input and output stage; what comes
      after the third is the output stage. */
  lemma ParseFields(a: string, b: string, c: string, d: string)
    requires '\t' !in a && '\t' !in b && '\t' !in c
    ensures ParseLine(FourFields(a, b, c, d)) == Ok(Stage(a, b, NumberOf(c), NumberOf(d)))
  {
    var line, tab1, tab2, tab3 := FieldsFound(a, b, c, d);
    ParseSplit(line, tab1, tab2, tab3);
    ReadsField(line, tab2 + 1, tab3, c);
    ReadsField(line, tab3 + 1, |line|, d);
  }

  function Tabs(s: string): nat {
    if s == "" then 0 else (if s[0] == '\t' then 1 else 0) + Tabs(s[1..])
  }

  lemma {:induction false} TabsAfter(s: string, from: nat)
    requires from <= |s|
    ensures var tab := Find(s, '\t', from);
      Tabs(s[from..]) == if tab == |s| then 0 else 1 + Tabs(s[tab + 1..])
    decreases |s| - from
  {
    if from < |s| {
      assert s[from..][1..] == s[from + 1..];
      if s[from] != '\t' {
        TabsAfter(s, from + 1);
      }
    }
  }

  lemma NoTab(line: string)
    requires Find(line, '\t', 0) == |line|
    ensures Tabs(line) == 0 && ParseLine(line) == Err(MissingOperation)
  {
    assert line[0..] == line;
    TabsAfter(line, 0);
  }

  lemma OneTab(line: string, tab1: nat)
    requires tab1 < |line| && Find(line, '\t', 0) == tab1 && Find(line, '\t', tab1 + 1) == |line|
    ensures Tabs(line) == 1 && ParseLine(line) == Err(MissingArgs)
  {
    assert line[0..] == line;
    TabsAfter(line, 0);
    TabsAfter(line, tab1 + 1);
  }

  lemma TabsCounted(line: string, tab1: nat, tab2: nat)
    requires tab1 < tab2 < |line| && Find(line, '\t', 0) == tab1 && Find(line, '\t', tab1 + 1) == tab2
    ensures Tabs(line) == 2 + Tabs(line[tab2 + 1..])
  {
    assert line[0..] == line;
    TabsAfter(line, 0);
    TabsAfter(line, tab1 + 1);
  }

  lemma TwoTabs(line: string, tab1: nat, tab2: nat)
    requires tab1 < tab2 < |line| && Find(line, '\t', 0) == tab1 && Find(line, '\t', tab1 + 1) == tab2
    requires Find(line, '\t', tab2 + 1) == |line|
    ensures Tabs(line) == 2 && ParseLine(line) == Err(MissingInputStage)
  {
    TabsCounted(line, tab1, tab2);
    TabsAfter(line, tab2 + 1);
  }

  lemma ThreeTabs(line: string, tab1: nat, tab2: nat, tab3: nat)
    requires TabsAt(line, tab1, tab2, tab3)
    ensures Tabs(line) >= 3
  {
    TabsCounted(line, tab1, tab2);
    TabsAfter(line, tab2 + 1);
  }

  /** A line with fewer than three tabs is an error, named after the field it ends in. */
  lemma LineErrors(line: string)
    ensures ParseLine(line).Ok? <==> Tabs(line) >= 3
    ensures Tabs(line) < 3 ==> ParseLine(line) == Err(ErrorFor(Tabs(line)))
  {
    var tab1 := Find(line, '\t', 0);
    if tab1 == |line| {
      NoTab(line);
    } else {
      var tab2 := Find(line, '\t', tab1 + 1);
      if tab2 == |line| {
        OneTab(line, tab1);
      } else if Find(line, '\t', tab2 + 1) == |line| {
        TwoTabs(line, tab1, tab2);
      } else {
        ThreeTabs(line, tab1, tab2, Find(line, '\t', tab2 + 1));
        ParseSplit(line, tab1, tab2, Find(line, '\t', tab2 + 1));
      }
    }
  }

  function ErrorFor(tabs: nat): ParseError {
    if tabs == 0 then MissingOperation else if tabs == 1 then MissingArgs else MissingInputStage
  }

  lemma ParsePrintedLine(s: Stage)
    requires Plain(s)
    ensures ParseLine(Line(s)) == Ok(s)
  {
    PrintedIsPlain(s.inputStage);
    ParseFields(s.operation, s.args, OfInt(s.inputStage), OfInt(s.outputStage));
    PrintedNumber(s.inputStage);
    PrintedNumber(s.outputStage);
  }

  lemma LineIsOneLine(s: Stage)
    requires Plain(s)
    ensures '\n' !in Line(s) && Line(s) != ""
  {
    PrintedIsPlain(s.inputStage);
    PrintedIsPlain(s.outputStage);
  }

  function NonEmpty(lines: seq<string>): seq<string> {
    if lines == [] then [] else (if lines[0] == "" then [] else [lines[0]]) + NonEmpty(lines[1..])
  }

  /** Reading one line out of a longer text. */
  lemma NextLine(before: string, line: string, after: string)
    requires '\n' !in line && (after != "" ==> after[0] == '\n')
    ensures
      var whole := before + line + after;
      LinesFrom(whole, |before|) == (if line == "" then [] else [line]) + LinesFrom(whole, |before| + |line| + 1)
  {
    var whole, end := before + line + after, |before| + |line|;
    assert whole[|before|..end] == line;
    FoundAt(whole, '\n', |before|, end);
  }

  lemma JoinedSplits(before: string, lines: seq<string>)
    requires |lines| > 1
    ensures before + Joined(lines) == before + lines[0] + ("\n" + Joined(lines[1..]))
    ensures before + Joined(lines) == (before + lines[0] + "\n") + Joined(lines[1..])
    ensures |before + lines[0] + "\n"| == |before| + |lines[0]| + 1
  {
  }

  /** The non-empty ones of some lines are found again in their joined text. */
  lemma {:induction false} LinesOfJoined(before: string, lines: seq<string>)
    requires forall line :: line in lines ==> '\n' !in line
    ensures LinesFrom(before + Joined(lines), |before|) == NonEmpty(lines)
    decreases |lines|
  {
    if |lines| == 1 {
      NextLine(before, lines[0], "");
      assert before + lines[0] + "" == before + Joined(lines);
    } else if |lines| > 1 {
      LinesOfJoined(before + lines[0] + "\n", lines[1..]);
      NextLine(before, lines[0], "\n" + Joined(lines[1..]));
      JoinedSplits(before, lines);
    }
  }

  /** Every text is some lines with newlines between them. */
  lemma {:induction false} SomeLines(s: string) returns (lines: seq<string>)
    ensures lines != [] && Joined(lines) == s && forall line :: line in lines ==> '\n' !in line
  {
    var end := Find(s, '\n', 0);
    NotBefore(s, '\n', 0);
    assert s[0..end] == s[..end];
    lines := [s[..end]];
    if end < |s| {
      var rest := SomeLines(s[end + 1..]);
      lines := lines + rest;
      assert lines[1..] == rest;
    }
  }

  lemma {:induction false} AllNonEmpty(lines: seq<string>)
    requires forall line :: line in lines ==> line != ""
    ensures NonEmpty(lines) == lines
  {
    if lines != [] {
      assert lines[0] in lines && forall line :: line in lines[1..] ==> line in lines;
      AllNonEmpty(lines[1..]);
      assert lines == [lines[0]] + lines[1..];
    }
  }

  lemma {:induction false} CollectedAll(results: seq<Result<Stage, ParseError>>)
    requires Collected(results).Ok?
    ensures var stages := Collected(results).value;
      |stages| == |results| && forall i :: 0 <= i < |stages| ==> results[i] == Ok(stages[i])
  {
    if results != [] {
      CollectedAll(results[1..]);
    }
  }

  lemma {:induction false} CollectedFirst(results: seq<Result<Stage, ParseError>>) returns (k: nat)
    requires Collected(results).Err?
    ensures k < |results| && results[k] == Err(Collected(results).error)
    ensures forall j :: 0 <= j < k ==> results[j].Ok?
  {
    k := 0;
    if results[0].Ok? {
      k := CollectedFirst(results[1..]);
      k := k + 1;
    }
  }

  lemma {:induction false} NonEmptyMember(lines: seq<string>, line: string)
    ensures line in NonEmpty(lines) <==> line in lines && line != ""
  {
    if lines != [] {
      NonEmptyMember(lines[1..], line);
      assert lines == [lines[0]] + lines[1..];
    }
  }

  ghost predicate FirstShort(lines: seq<string>, k: nat) {
    k < |lines| && Tabs(lines[k]) < 3 && forall j :: 0 <= j < k ==> Tabs(lines[j]) >= 3
  }

  lemma ParsedLines(s: string, lines: seq<string>)
    requires s == Joined(lines) && forall line :: line in lines ==> '\n' !in line
    ensures Parse(s) == Collected(MapSeq(ParseLine, NonEmpty(lines)))
  {
    LinesOfJoined("", lines);
    assert "" + s == s;
  }

  /** A text is parsed exactly if each of its non-empty lines has three tabs: into
      the stages of these lines, in order. */
  lemma ParseExact(s: string, lines: seq<string>)
    requires s == Joined(lines) && forall line :: line in lines ==> '\n' !in line
    ensures Parse(s).Ok? <==> forall line :: line in lines && line != "" ==> Tabs(line) >= 3
    ensures Parse(s).Ok? ==> var stages, kept := Parse(s).value, NonEmpty(lines);
      |stages| == |kept| && forall i :: 0 <= i < |kept| ==> ParseLine(kept[i]) == Ok(stages[i])
  {
    var kept := NonEmpty(lines);
    var results := MapSeq(ParseLine, kept);
    ParsedLines(s, lines);
    forall line
      ensures line in kept <==> line in lines && line != ""
      ensures ParseLine(line).Ok? <==> Tabs(line) >= 3
    {
      NonEmptyMember(lines, line);
      LineErrors(line);
    }
    if Parse(s).Ok? {
      CollectedAll(results);
      assert forall line :: line in kept ==> Tabs(line) >= 3;
    } else {
      var k := CollectedFirst(results);
      assert kept[k] in kept;
    }
  }

  /** Otherwise the error is that of the first line that has fewer. */
  lemma ParseFirstError(s: string, lines: seq<string>) returns (k: nat)
    requires s == Joined(lines) && forall line :: line in lines ==> '\n' !in line
    requires Parse(s).Err?
    ensures FirstShort(NonEmpty(lines), k) && Parse(s) == Err(ErrorFor(Tabs(NonEmpty(lines)[k])))
  {
    var kept := NonEmpty(lines);
    ParsedLines(s, lines);
    k := CollectedFirst(MapSeq(ParseLine, kept));
    forall j | 0 <= j <= k
      ensures Tabs(kept[j]) >= 3 <==> j < k
    {
      LineErrors(kept[j]);
    }
    LineErrors(kept[k]);
  }

  lemma {:induction false} AllCollected(results: seq<Result<Stage, ParseError>>, stages: seq<Stage>)
    requires |results| == |stages| && forall i :: 0 <= i < |stages| ==> results[i] == Ok(stages[i])
    ensures Collected(results) == Ok(stages)
  {
    if stages != [] {
      AllCollected(results[1..], stages[1..]);
      assert [stages[0]] + stages[1..] == stages;
    }
  }

  lemma ParsePrintedLines(stages: seq<Stage>)
    requires forall s :: s in stages ==> Plain(s)
    ensures Collected(MapSeq(ParseLine, MapSeq(Line, stages))) == Ok(stages)
  {
    var results := MapSeq(ParseLine, MapSeq(Line, stages));
    forall i | 0 <= i < |stages|
      ensures results[i] == Ok(stages[i])
    {
      ParsePrintedLine(stages[i]);
    }
    AllCollected(results, stages);
  }

  lemma ParsePrintedText(stages: seq<Stage>)
    requires forall s :: s in stages ==> Plain(s)
    ensures Parse(Text(stages)) == Ok(stages)
  {
    var lines := MapSeq(Line, stages);
    forall line | line in lines
      ensures '\n' !in line && line != ""
    {
      var i :| 0 <= i < |lines| && lines[i] == line;
      LineIsOneLine(stages[i]);
    }
    LinesOfJoined("", lines);
    AllNonEmpty(lines);
    assert "" + Joined(lines) == Text(stages);
    ParsePrintedLines(stages);
  }

  lemma {:induction false} LinesHaveNoBreak(s: string, start: nat)
    ensures forall line :: line in LinesFrom(s, start) ==> '\n' !in line
    decreases |s| - start
  {
    if start < |s| {
      NotBefore(s, '\n', start);
      LinesHaveNoBreak(s, Find(s, '\n', start) + 1);
    }
  }

  lemma {:induction false} CollectedFrom(results: seq<Result<Stage, ParseError>>, stage: Stage)
    requires Collected(results).Ok? && stage in Collected(results).value
    ensures Ok(stage) in results
  {
    if stage != results[0].value {
      CollectedFrom(results[1..], stage);
    }
  }

  /** Whatever is parsed has no separator inside a field. */
  lemma ParsedIsPlain(s: string)
    ensures Parse(s).Ok? ==> forall stage :: stage in Parse(s).value ==> Plain(stage)
  {
    var lines := LinesFrom(s, 0);
    LinesHaveNoBreak(s, 0);
    if Parse(s).Ok? {
      forall stage | stage in Parse(s).value
        ensures Plain(stage)
      {
        CollectedFrom(MapSeq(ParseLine, lines), stage);
        var i :| 0 <= i < |lines| && ParseLine(lines[i]) == Ok(stage);
        ParsedLineIsPlain(lines[i]);
      }
    }
  }

  lemma ParsedLineIsPlain(line: string)
    requires '\n' !in line && ParseLine(line).Ok?
    ensures Plain(ParseLine(line).value)
  {
    var tab1 := Find(line, '\t', 0);
    var tab2 := Find(line, '\t', tab1 + 1);
    NotBefore(line, '\t', 0);
    NotBefore(line, '\t', tab1 + 1);
    assert line[0..tab1] == line[..tab1];
    assert forall c :: c in line[..tab1] || c in line[tab1 + 1..tab2] ==> c in line;
  }

  /** Parsing a printed pipeline gives it back exactly when no operation and no
      argument contains a tab or a newline. */
  lemma RoundTrip(stages: seq<Stage>)
    ensures Parse(Text(stages)) == Ok(stages) <==> forall s :: s in stages ==> Plain(s)
  {
    if forall s :: s in stages ==> Plain(s) {
      ParsePrintedText(stages);
    } else {
      ParsedIsPlain(Text(stages));
    }
  }
}
