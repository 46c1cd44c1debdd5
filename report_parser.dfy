/**
 * The parser of the text report that `dumpbin /DEPENDENTS <file>` prints:
 * the part of `DumpBin::dependents` that runs once the tool's standard
 * output has been captured and decoded.
 */
module ReportParser {
  import opened Wrappers
  import opened Text
  import opened Decimal
  import opened Errors

  const DependenciesMarker: string := "Image has the following dependencies:"
  const SummaryMarker: string := "Summary"

  /** The parsed report: imported module names, then `(count, name)` rows of the summary table. */
  datatype Dependents = Dependents(libraries: seq<string>, summary: seq<(u32, string)>)

  /** How a call ends: it returns a `Result`, or a string slice with bounds out of order panics. */
  datatype Run = Returned(result: Result<Dependents, DumpBinError>) | Panicked

  /**
   * The pieces `.filter(|v| !v.trim().is_empty())` keeps, in order and
   * untrimmed.
   */
  function NonBlank(pieces: seq<string>): seq<string>
  {
    if pieces == [] then []
    else
      var last := pieces[|pieces| - 1];
      NonBlank(pieces[..|pieces| - 1]) + (if Trim(last) != [] then [last] else [])
  }

  /** The non-blank pieces, each trimmed. */
  function TrimmedFields(pieces: seq<string>): seq<string>
  {
    if pieces == [] then []
    else
      var last := Trim(pieces[|pieces| - 1]);
      TrimmedFields(pieces[..|pieces| - 1]) + (if last != [] then [last] else [])
  }

  /** The count of a summary row: the `u32` its first token spells, and 0 when it spells none. */
  function CountOf(token: string): u32
  {
    match ParseU32(token)
    case Some(v) => v
    case None => 0
  }

  /**
   * The tool prints each summary size in hexadecimal, but the count is read
   * as a decimal literal: `1000` (4096 bytes) gives 1000, and a size with a
   * hex letter, such as `3B000`, gives 0.
   */
  lemma CountOfHexSize()
    ensures CountOf("1000") == 1000
    ensures CountOf("3B000") == 0
  {
    var size := "1000";
    assert AllDigits(size);
    assert DigitsValue(size[..3]) == 100 by {
      assert size[..3][..2] == "10" && "10"[..1] == "1" && "1"[..0] == [];
    }
    assert DigitsValue(size) == 1000;
    var hex := "3B000";
    assert !IsDigit(hex[1]);
  }

  /** A count is the value the token spells as a `u32` literal, and 0 for any other token. */
  lemma CountOfValue(token: string)
    ensures IsU32Literal(token) ==> CountOf(token) as int == DigitsValue(if token[0] == '+' then token[1..] else token)
    ensures !IsU32Literal(token) ==> CountOf(token) == 0
  {
  }

  /** The row one summary line contributes, if any: its first two non-blank space-separated tokens. */
  function LineEntry(line: string): Option<(u32, string)>
  {
    if Trim(line) == [] then None
    else
      var tokens := NonBlank(Split(Trim(line), ' '));
      if |tokens| < 2 then None else Some((CountOf(tokens[0]), tokens[1]))
  }

  /** The rows of consecutive summary lines, in line order. */
  function Entries(lines: seq<string>): seq<(u32, string)>
  {
    if lines == [] then []
    else
      var row := LineEntry(lines[|lines| - 1]);
      Entries(lines[..|lines| - 1]) + (if row.Some? then [row.value] else [])
  }

  /** The libraries listed in the text between the two markers. */
  function LibrariesIn(window: string): seq<string>
  {
    TrimmedFields(Split(Trim(window), ' '))
  }

  /** The summary rows listed in the text after the `Summary` marker. */
  function SummaryIn(tail: string): seq<(u32, string)>
  {
    Entries(Split(Trim(tail), '\n'))
  }

  /**
   * The report read off the output once both markers are found: the
   * libraries between the end of the dependency marker and `Summary`, and
   * the rows after `Summary`.
   */
  function Sections(output: string, dllEnd: nat, sum: nat): Dependents
    requires dllEnd <= sum && sum + |SummaryMarker| <= |output|
  {
    Dependents(LibrariesIn(output[dllEnd..sum]), SummaryIn(output[sum + |SummaryMarker|..]))
  }

  /** What `DumpBin::dependents` makes of the decoded output, as a reference definition. */
  function Report(output: string): Run
  {
    match Find(output, DependenciesMarker)
    case None => Returned(Err(Other("Cannot find dependencies: " + output)))
    case Some(dll) =>
      match Find(output, SummaryMarker)
      case None => Returned(Err(Other("Cannot find summary: " + output)))
      case Some(sum) =>
        var dllEnd := dll + |DependenciesMarker|;
        if sum < dllEnd then Panicked
        else Returned(Ok(Sections(output, dllEnd, sum)))
  }

  /** The first `for` loop of `DumpBin::dependents`: push each non-blank piece, trimmed. */
  method PushLibraries(window: string) returns (libraries: seq<string>)
    ensures libraries == LibrariesIn(window)
  {
    var pieces := Split(Trim(window), ' ');
    libraries := [];
    var i := 0;
    while i < |pieces|
      invariant 0 <= i <= |pieces|
      invariant libraries == TrimmedFields(pieces[..i])
    {
      assert pieces[..i + 1][..i] == pieces[..i];
      var library := pieces[i];
      if Trim(library) != [] {
        libraries := libraries + [Trim(library)];
      }
      i := i + 1;
    }
    assert pieces[..i] == pieces;
  }

  /** The second `for` loop of `DumpBin::dependents`: push a row for each line with two tokens. */
  method PushSummary(tail: string) returns (summary: seq<(u32, string)>)
    ensures summary == SummaryIn(tail)
  {
    var lines := Split(Trim(tail), '\n');
    summary := [];
    var j := 0;
    while j < |lines|
      invariant 0 <= j <= |lines|
      invariant summary == Entries(lines[..j])
    {
      assert lines[..j + 1][..j] == lines[..j];
      var line := lines[j];
      if Trim(line) != [] {
        var splited := NonBlank(Split(Trim(line), ' '));
        if |splited| >= 2 {
          summary := summary + [(CountOf(splited[0]), splited[1])];
        }
      }
      j := j + 1;
    }
    assert lines[..j] == lines;
  }

  /**
   * `DumpBin::dependents` after the tool has run: find both markers,
   * then push every library and every summary row found.
   */
  method ParseDependents(output: string) returns (r: Run)
    ensures r == Report(output)
  {
    var dll := Find(output, DependenciesMarker);
    if dll.None? {
      return Returned(Err(Other("Cannot find dependencies: " + output)));
    }
    var sum := Find(output, SummaryMarker);
    if sum.None? {
      return Returned(Err(Other("Cannot find summary: " + output)));
    }
    var dllEnd := dll.value + |DependenciesMarker|;
    if sum.value < dllEnd {
      return Panicked;
    }
    var d := ParseSections(output, dllEnd, sum.value);
    r := Returned(Ok(d));
  }

  /** Slice the output at the markers and run both `for` loops. */
  method ParseSections(output: string, dllEnd: nat, sum: nat) returns (d: Dependents)
    requires dllEnd <= sum && sum + |SummaryMarker| <= |output|
    ensures d == Sections(output, dllEnd, sum)
  {
    var window := output[dllEnd..sum];
    var tail := output[sum + |SummaryMarker|..];
    var libraries := PushLibraries(window);
    var summary := PushSummary(tail);
    d := Dependents(libraries, summary);
  }

  /**
   * The four ways a call ends, each exactly when its condition holds: the
   * missing dependency marker is reported first, even when `Summary` is
   * missing too.
   */
  lemma Outcomes(output: string)
    ensures Report(output) == Returned(Err(Other("Cannot find dependencies: " + output)))
            <==> Find(output, DependenciesMarker).None?
    ensures Report(output) == Returned(Err(Other("Cannot find summary: " + output)))
            <==> Find(output, DependenciesMarker).Some? && Find(output, SummaryMarker).None?
    ensures Report(output) == Panicked
            <==> Find(output, DependenciesMarker).Some? && Find(output, SummaryMarker).Some?
                 && Find(output, SummaryMarker).value < Find(output, DependenciesMarker).value + |DependenciesMarker|
    ensures Report(output).Returned? && Report(output).result.Ok?
            <==> Find(output, DependenciesMarker).Some? && Find(output, SummaryMarker).Some?
                 && Find(output, DependenciesMarker).value + |DependenciesMarker| <= Find(output, SummaryMarker).value
  {
    var a, b := "Cannot find dependencies: " + output, "Cannot find summary: " + output;
    assert a[12] == 'd' && b[12] == 's';
  }

  /**
   * A `Summary` that starts before the first dependency marker ends makes
   * the slice between them run backwards, and the call panics.
   */
  lemma SummaryFirstPanics(output: string, dll: nat, sum: nat)
    requires MatchesAt(output, DependenciesMarker, dll)
    requires forall j: nat :: j < dll ==> !MatchesAt(output, DependenciesMarker, j)
    requires MatchesAt(output, SummaryMarker, sum) && sum < dll + |DependenciesMarker|
    ensures Report(output) == Panicked
  {
    FindLeftmost(output, DependenciesMarker);
    FindAtOrBefore(output, SummaryMarker, sum);
    var d := Find(output, DependenciesMarker).value;
    assert d == dll by {
      assert MatchesAt(output, DependenciesMarker, d);
      assert !(dll < d);
    }
  }

  /** Each field is non-empty and has no whitespace at either end; there are no more fields than pieces. */
  lemma {:induction false} TrimmedFieldsShape(pieces: seq<string>)
    ensures |TrimmedFields(pieces)| <= |pieces|
    ensures forall k :: 0 <= k < |TrimmedFields(pieces)| ==>
              TrimmedFields(pieces)[k] != []
              && !IsWhitespace(TrimmedFields(pieces)[k][0])
              && !IsWhitespace(TrimmedFields(pieces)[k][|TrimmedFields(pieces)[k]| - 1])
  {
    if pieces != [] {
      TrimmedFieldsShape(pieces[..|pieces| - 1]);
      TrimShape(pieces[|pieces| - 1]);
    }
  }

  /** A character that no piece holds is held by no field. */
  lemma {:induction false} TrimmedFieldsAvoid(pieces: seq<string>, c: char)
    requires forall k :: 0 <= k < |pieces| ==> c !in pieces[k]
    ensures forall k :: 0 <= k < |TrimmedFields(pieces)| ==> c !in TrimmedFields(pieces)[k]
  {
    if pieces != [] {
      TrimmedFieldsAvoid(pieces[..|pieces| - 1], c);
      TrimShape(pieces[|pieces| - 1]);
    }
  }

  /** Fields that are already non-blank and trimmed come out unchanged, all of them, in order. */
  lemma {:induction false} TrimmedFieldsOfWords(words: seq<string>)
    requires forall k :: 0 <= k < |words| ==> words[k] != [] && NoWhitespace(words[k])
    ensures TrimmedFields(words) == words
  {
    if words != [] {
      var last := words[|words| - 1];
      TrimmedFieldsOfWords(words[..|words| - 1]);
      TrimOfTrimmed(last);
      InitLast(words);
    }
  }

  /**
   * Every library is non-empty, starts and ends with a non-whitespace
   * character and holds no space; there is at most one per space-separated
   * piece of the trimmed window.
   */
  lemma LibrariesShape(window: string)
    ensures |LibrariesIn(window)| <= |Split(Trim(window), ' ')|
    ensures forall k :: 0 <= k < |LibrariesIn(window)| ==>
              LibrariesIn(window)[k] != []
              && !IsWhitespace(LibrariesIn(window)[k][0])
              && !IsWhitespace(LibrariesIn(window)[k][|LibrariesIn(window)[k]| - 1])
              && ' ' !in LibrariesIn(window)[k]
  {
    TrimmedFieldsShape(Split(Trim(window), ' '));
    SplitAvoids(Trim(window), ' ');
    TrimmedFieldsAvoid(Split(Trim(window), ' '), ' ');
  }

  /** The pieces kept are non-blank, and hold no character that no piece holds. */
  lemma {:induction false} NonBlankAvoid(pieces: seq<string>, c: char)
    requires forall k :: 0 <= k < |pieces| ==> c !in pieces[k]
    ensures |NonBlank(pieces)| <= |pieces|
    ensures forall k :: 0 <= k < |NonBlank(pieces)| ==> Trim(NonBlank(pieces)[k]) != [] && c !in NonBlank(pieces)[k]
  {
    if pieces != [] {
      NonBlankAvoid(pieces[..|pieces| - 1], c);
    }
  }

  /**
   * A line yields a row exactly when it has at least two non-blank tokens;
   * the row is the count the first spells and the second token as it is.
   */
  lemma LineEntryRows(line: string)
    ensures var tokens := NonBlank(Split(Trim(line), ' '));
            && (LineEntry(line).Some? <==> |tokens| >= 2)
            && (LineEntry(line).Some? ==> LineEntry(line).value == (CountOf(tokens[0]), tokens[1]))
  {
    if Trim(line) == [] {
      assert NonBlank([[]]) == [] by {
        assert Trim([]) == [];
      }
    }
  }

  /** The name of a row is non-blank and holds no space. */
  lemma LineEntryName(line: string)
    requires LineEntry(line).Some?
    ensures Trim(LineEntry(line).value.1) != [] && ' ' !in LineEntry(line).value.1
  {
    SplitAvoids(Trim(line), ' ');
    NonBlankAvoid(Split(Trim(line), ' '), ' ');
  }

  /** At most one row per line. */
  lemma {:induction false} EntriesBound(lines: seq<string>)
    ensures |Entries(lines)| <= |lines|
  {
    if lines != [] {
      EntriesBound(lines[..|lines| - 1]);
    }
  }

  /** Every row's name is non-blank and holds no space. */
  lemma {:induction false} EntriesNames(lines: seq<string>)
    ensures forall k :: 0 <= k < |Entries(lines)| ==>
              Trim(Entries(lines)[k].1) != [] && ' ' !in Entries(lines)[k].1
  {
    if lines != [] {
      var last := lines[|lines| - 1];
      EntriesNames(lines[..|lines| - 1]);
      if LineEntry(last).Some? {
        LineEntryName(last);
      }
    }
  }

  /**
   * The summary has at most one row per line of the trimmed text after the
   * marker, and every row's name is non-blank and holds no space.
   */
  lemma SummaryShape(tail: string)
    ensures |SummaryIn(tail)| <= |Split(Trim(tail), '\n')|
    ensures forall k :: 0 <= k < |SummaryIn(tail)| ==>
              Trim(SummaryIn(tail)[k].1) != [] && ' ' !in SummaryIn(tail)[k].1
  {
    EntriesBound(Split(Trim(tail), '\n'));
    EntriesNames(Split(Trim(tail), '\n'));
  }

  /** The fields of two runs of pieces are the fields of each, in order. */
  lemma {:induction false} TrimmedFieldsConcat(a: seq<string>, b: seq<string>)
    ensures TrimmedFields(a + b) == TrimmedFields(a) + TrimmedFields(b)
    decreases |b|
  {
    if b == [] {
      assert a + b == a;
    } else {
      var n := |b|;
      assert (a + b)[..|a + b| - 1] == a + b[..n - 1];
      assert (a + b)[|a + b| - 1] == b[n - 1];
      TrimmedFieldsConcat(a, b[..n - 1]);
    }
  }

  /** One piece yields its trim as a field, unless it is blank. */
  lemma TrimmedFieldsOne(p: string)
    ensures TrimmedFields([p]) == if Trim(p) != [] then [Trim(p)] else []
  {
    assert [p][..0] == [];
  }

  /** A whitespace character put before the text changes no field. */
  lemma FieldsConsBlank(x: char, t: string)
    requires IsWhitespace(x)
    ensures TrimmedFields(Split([x] + t, ' ')) == TrimmedFields(Split(t, ' '))
  {
    var r := Split(t, ' ');
    assert ([x] + t)[0] == x && ([x] + t)[1..] == t;
    if x == ' ' {
      assert Split([x] + t, ' ') == [[]] + r;
      TrimmedFieldsConcat([[]], r);
      TrimmedFieldsOne([]);
    } else {
      assert Split([x] + t, ' ') == [[x] + r[0]] + r[1..];
      HeadRest(r);
      TrimmedFieldsConcat([[x] + r[0]], r[1..]);
      TrimmedFieldsConcat([r[0]], r[1..]);
      TrimBlankPrefix([x], r[0]);
      TrimmedFieldsOne([x] + r[0]);
      TrimmedFieldsOne(r[0]);
    }
  }

  /** A whitespace character put after the text changes no field. */
  lemma FieldsSnocBlank(t: string, x: char)
    requires IsWhitespace(x)
    ensures TrimmedFields(Split(t + [x], ' ')) == TrimmedFields(Split(t, ' '))
  {
    var r := Split(t, ' ');
    var m := |r|;
    if x == ' ' {
      SplitConcat(t, [], ' ');
      assert t + [' '] + [] == t + [x];
      TrimmedFieldsConcat(r, [[]]);
      TrimmedFieldsOne([]);
    } else {
      SplitSnoc(t, x, ' ');
      InitLast(r);
      TrimmedFieldsConcat(r[..m - 1], [r[m - 1] + [x]]);
      TrimmedFieldsConcat(r[..m - 1], [r[m - 1]]);
      TrimBlankSuffix(r[m - 1], [x]);
      TrimmedFieldsOne(r[m - 1] + [x]);
      TrimmedFieldsOne(r[m - 1]);
    }
  }

  /** Whitespace dropped from the front of the text changes no field. */
  lemma {:induction false} FieldsTrimStart(s: string)
    ensures TrimmedFields(Split(TrimStart(s), ' ')) == TrimmedFields(Split(s, ' '))
    decreases |s|
  {
    if s != [] && IsWhitespace(s[0]) {
      FieldsTrimStart(s[1..]);
      HeadRest(s);
      FieldsConsBlank(s[0], s[1..]);
    }
  }

  /** Whitespace dropped from the end of the text changes no field. */
  lemma {:induction false} FieldsTrimEnd(s: string)
    ensures TrimmedFields(Split(TrimEnd(s), ' ')) == TrimmedFields(Split(s, ' '))
    decreases |s|
  {
    if s != [] && IsWhitespace(s[|s| - 1]) {
      FieldsTrimEnd(s[..|s| - 1]);
      InitLast(s);
      FieldsSnocBlank(s[..|s| - 1], s[|s| - 1]);
    }
  }

  /**
   * The `.trim()` applied to the text between the markers changes no
   * library: each space-separated piece is trimmed on its own anyway.
   */
  lemma LibrariesIgnoreTrim(window: string)
    ensures LibrariesIn(window) == TrimmedFields(Split(window, ' '))
  {
    FieldsTrimStart(window);
    FieldsTrimEnd(TrimStart(window));
  }

  /** The rows of two runs of lines are the rows of each, in order. */
  lemma {:induction false} EntriesConcat(a: seq<string>, b: seq<string>)
    ensures Entries(a + b) == Entries(a) + Entries(b)
    decreases |b|
  {
    if b == [] {
      assert a + b == a;
    } else {
      var n := |b|;
      assert (a + b)[..|a + b| - 1] == a + b[..n - 1];
      assert (a + b)[|a + b| - 1] == b[n - 1];
      EntriesConcat(a, b[..n - 1]);
    }
  }

  /** One line yields its row, if it has one. */
  lemma EntriesOne(line: string)
    ensures Entries([line]) == if LineEntry(line).Some? then [LineEntry(line).value] else []
  {
    assert [line][..0] == [];
  }

  /** A whitespace character put before the text changes no row. */
  lemma LinesConsBlank(x: char, t: string)
    requires IsWhitespace(x)
    ensures Entries(Split([x] + t, '\n')) == Entries(Split(t, '\n'))
  {
    var r := Split(t, '\n');
    assert ([x] + t)[0] == x && ([x] + t)[1..] == t;
    if x == '\n' {
      assert Split([x] + t, '\n') == [[]] + r;
      EntriesConcat([[]], r);
      EntriesOne([]);
    } else {
      assert Split([x] + t, '\n') == [[x] + r[0]] + r[1..];
      HeadRest(r);
      EntriesConcat([[x] + r[0]], r[1..]);
      EntriesConcat([r[0]], r[1..]);
      TrimBlankPrefix([x], r[0]);
      EntriesOne([x] + r[0]);
      EntriesOne(r[0]);
    }
  }

  /** A whitespace character put after the text changes no row. */
  lemma LinesSnocBlank(t: string, x: char)
    requires IsWhitespace(x)
    ensures Entries(Split(t + [x], '\n')) == Entries(Split(t, '\n'))
  {
    var r := Split(t, '\n');
    var m := |r|;
    if x == '\n' {
      SplitConcat(t, [], '\n');
      assert t + ['\n'] + [] == t + [x];
      EntriesConcat(r, [[]]);
      EntriesOne([]);
    } else {
      SplitSnoc(t, x, '\n');
      InitLast(r);
      EntriesConcat(r[..m - 1], [r[m - 1] + [x]]);
      EntriesConcat(r[..m - 1], [r[m - 1]]);
      TrimBlankSuffix(r[m - 1], [x]);
      EntriesOne(r[m - 1] + [x]);
      EntriesOne(r[m - 1]);
    }
  }

  /** Whitespace dropped from the front of the text changes no row. */
  lemma {:induction false} LinesTrimStart(s: string)
    ensures Entries(Split(TrimStart(s), '\n')) == Entries(Split(s, '\n'))
    decreases |s|
  {
    if s != [] && IsWhitespace(s[0]) {
      LinesTrimStart(s[1..]);
      HeadRest(s);
      LinesConsBlank(s[0], s[1..]);
    }
  }

  /** Whitespace dropped from the end of the text changes no row. */
  lemma {:induction false} LinesTrimEnd(s: string)
    ensures Entries(Split(TrimEnd(s), '\n')) == Entries(Split(s, '\n'))
    decreases |s|
  {
    if s != [] && IsWhitespace(s[|s| - 1]) {
      LinesTrimEnd(s[..|s| - 1]);
      InitLast(s);
      LinesSnocBlank(s[..|s| - 1], s[|s| - 1]);
    }
  }

  /**
   * The `.trim()` applied to the text after `Summary` changes no row: each
   * line is trimmed on its own anyway.
   */
  lemma SummaryIgnoresTrim(tail: string)
    ensures SummaryIn(tail) == Entries(Split(tail, '\n'))
  {
    LinesTrimStart(tail);
    LinesTrimEnd(TrimStart(tail));
  }
}
