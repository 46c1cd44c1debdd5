/**
 * A report in the shape `dumpbin /DEPENDENTS` prints, written out from a
 * `Dependents` value, and the proof that the parser reads every such report
 * back exactly: nothing is lost, reordered, deduplicated or re-cased along
 * the way.
 *
 * The layout follows the tool's: CRLF line ends, a blank line after each
 * heading, one library per line indented by four spaces, and one summary
 * row per line with its count right-aligned in a field of eight after an
 * indent of four. It differs from the tool in two ways. The count is
 * written in decimal, where the tool prints section sizes in hexadecimal.
 * The banner and file lines the tool prints before the dependency heading
 * are not written.
 */
module ReportRender {
  import opened Wrappers
  import opened Text
  import opened Decimal
  import opened ReportParser

  /**
   * What a report must satisfy to survive a round trip: library names and
   * row names are non-empty and hold no whitespace, and no library name
   * holds the word `Summary` in any case (it would end the library list).
   */
  ghost predicate WellFormed(d: Dependents)
  {
    (forall k :: 0 <= k < |d.libraries| ==>
       d.libraries[k] != [] && NoWhitespace(d.libraries[k]) && NoMatch(d.libraries[k], SummaryMarker))
    && (forall k :: 0 <= k < |d.summary| ==> d.summary[k].1 != [] && NoWhitespace(d.summary[k].1))
  }

  /** `n` spaces. */
  function Spaces(n: nat): string
  {
    seq(n, _ => ' ')
  }

  /** The library lines: each library indented by four spaces and ended by CRLF. */
  function LibraryLines(libraries: seq<string>): string
  {
    if libraries == [] then []
    else LibraryLines(libraries[..|libraries| - 1]) + "    " + libraries[|libraries| - 1] + "\r\n"
  }

  /** What a summary row shows once trimmed: the count in decimal, a space, the name. */
  function RowText(row: (u32, string)): string
  {
    NatToDecimal(row.0 as int) + " " + row.1
  }

  /** A summary row's line, up to its line feed: the decimal count right-aligned in eight columns after four. */
  function RowLine(row: (u32, string)): string
  {
    var digits := NatToDecimal(row.0 as int);
    "    " + (if |digits| < 8 then Spaces(8 - |digits|) else []) + RowText(row) + "\r"
  }

  /** The summary rows, each after a line feed. */
  function SummaryLines(rows: seq<(u32, string)>): string
  {
    if rows == [] then []
    else SummaryLines(rows[..|rows| - 1]) + "\n" + RowLine(rows[|rows| - 1])
  }

  /** The text between the dependency heading and `Summary`. */
  function Window(libraries: seq<string>): string
  {
    "\r\n\r\n" + LibraryLines(libraries) + "\r\n" + "  "
  }

  /** The text after `Summary`. */
  function Tail(rows: seq<(u32, string)>): string
  {
    "\r\n\r" + SummaryLines(rows) + "\n"
  }

  /** The report text for `d`. */
  function Render(d: Dependents): string
  {
    DependenciesMarker + Window(d.libraries) + SummaryMarker + Tail(d.summary)
  }

  /** What a match at `i` says about position `k` of the pattern. */
  lemma MatchedChar(text: string, pat: string, i: nat, k: nat)
    ensures MatchesAt(text, pat, i) && k < |pat| ==>
              Fold(text[i + k]) == Fold(pat[k]) && pat[k] in pat && text[i + k] in text
  {
  }

  /**
   * A pattern that does not hold the whitespace character `c` cannot match
   * across it: a match lies wholly on one side.
   */
  lemma MatchAcross(a: string, c: char, b: string, pat: string, j: nat)
    requires IsWhitespace(c) && c !in pat
    requires MatchesAt(a + [c] + b, pat, j)
    ensures (j + |pat| <= |a| && MatchesAt(a, pat, j)) || (j > |a| && MatchesAt(b, pat, j - |a| - 1))
  {
    var t := a + [c] + b;
    if j <= |a| < j + |pat| {
      MatchedChar(t, pat, j, |a| - j);
      assert false;
    } else if j + |pat| <= |a| {
      forall k | 0 <= k < |pat| ensures Fold(a[j + k]) == Fold(pat[k]) {
        assert t[j + k] == a[j + k];
      }
    } else {
      forall k | 0 <= k < |pat| ensures Fold(b[j - |a| - 1 + k]) == Fold(pat[k]) {
        assert t[j + k] == b[j - |a| - 1 + k];
      }
    }
  }

  /** A text in which no character folds like the pattern's `k`-th one holds no match of it. */
  lemma NoMatchWithoutChar(text: string, pat: string, k: nat)
    requires k < |pat|
    requires forall i :: 0 <= i < |text| ==> Fold(text[i]) != Fold(pat[k])
    ensures NoMatch(text, pat)
  {
    forall j: nat | MatchesAt(text, pat, j) ensures false {
      MatchedChar(text, pat, j, k);
    }
  }

  /** The dependency marker holds no `Summary` in any case: it has no `y`. */
  lemma NoSummaryInMarker()
    ensures NoMatch(DependenciesMarker, SummaryMarker)
  {
    var m := DependenciesMarker;
    assert forall i :: 0 <= i < |m| ==> m[i] != 'y' && m[i] != 'Y';
    NoMatchWithoutChar(m, SummaryMarker, 6);
  }

  /** Two texts without a match keep none when joined by a whitespace character the pattern lacks. */
  lemma NoMatchAcross(a: string, c: char, b: string, pat: string)
    requires IsWhitespace(c) && c !in pat && NoMatch(a, pat) && NoMatch(b, pat)
    ensures NoMatch(a + [c] + b, pat)
  {
    forall j: nat | MatchesAt(a + [c] + b, pat, j) ensures false {
      MatchAcross(a, c, b, pat, j);
    }
  }

  /** Whitespace appended to a text creates no match of a non-empty pattern without whitespace. */
  lemma {:induction false} NoMatchAppendBlank(a: string, b: string, pat: string)
    requires pat != [] && NoWhitespace(pat) && NoMatch(a, pat) && IsBlank(b)
    ensures NoMatch(a + b, pat)
    decreases |b|
  {
    if b == [] {
      assert a + b == a;
    } else {
      var n := |b|;
      NoMatchAppendBlank(a, b[..n - 1], pat);
      AppendInitLast(a, b);
      assert (a + b[..n - 1]) + [b[n - 1]] + [] == (a + b[..n - 1]) + [b[n - 1]];
      assert b[n - 1] !in pat;
      NoMatchAcross(a + b[..n - 1], b[n - 1], [], pat);
    }
  }

  /** Library lines create no match when no library holds one. */
  lemma {:induction false} NoMatchInLibraryLines(y: string, libraries: seq<string>, pat: string)
    requires pat != [] && NoWhitespace(pat) && NoMatch(y, pat)
    requires forall k :: 0 <= k < |libraries| ==> NoMatch(libraries[k], pat)
    ensures NoMatch(y + LibraryLines(libraries), pat)
    decreases |libraries|
  {
    if libraries == [] {
      assert y + LibraryLines(libraries) == y;
    } else {
      var n := |libraries|;
      var init, lib := libraries[..n - 1], libraries[n - 1];
      var front := y + LibraryLines(init);
      NoMatchInLibraryLines(y, init, pat);
      NoMatchAppendBlank(front, "   ", pat);
      NoMatchAppendBlank(lib, "\r\n", pat);
      assert ' ' !in pat;
      NoMatchAcross(front + "   ", ' ', lib + "\r\n", pat);
      assert y + LibraryLines(libraries) == (front + "   ") + [' '] + (lib + "\r\n");
    }
  }

  /** A text that starts with the pattern matches it at 0. */
  lemma MatchesAtStart(pat: string, rest: string)
    ensures MatchesAt(pat + rest, pat, 0)
  {
    forall k | 0 <= k < |pat| ensures (pat + rest)[k] == pat[k] { }
  }

  /** A text that starts with the pattern has its leftmost match at 0. */
  lemma FindAtStart(pat: string, rest: string)
    ensures Find(pat + rest, pat) == Some(0)
  {
    MatchesAtStart(pat, rest);
  }

  /**
   * A pattern that starts the text after the whitespace character `c`, and
   * does not occur before it, is first found there.
   */
  lemma FindAfter(pre: string, c: char, rest: string, pat: string)
    requires IsWhitespace(c) && c !in pat && NoMatch(pre, pat) && MatchesAt(rest, pat, 0)
    ensures Find(pre + [c] + rest, pat) == Some(|pre| + 1)
  {
    var output := pre + [c] + rest;
    var p := |pre| + 1;
    assert MatchesAt(output, pat, p) by {
      assert forall k :: 0 <= k < |pat| ==> output[p + k] == rest[k];
    }
    forall j: nat | j < p && MatchesAt(output, pat, j) ensures false {
      MatchAcross(pre, c, rest, pat, j);
    }
    FindLeftmost(output, pat);
  }

  /** A rendered report starts with the dependency marker. */
  lemma RenderedDependencies(d: Dependents)
    ensures Find(Render(d), DependenciesMarker) == Some(0)
  {
    var rest := Window(d.libraries) + SummaryMarker + Tail(d.summary);
    assert Render(d) == DependenciesMarker + rest;
    FindAtStart(DependenciesMarker, rest);
  }

  /**
   * A pattern that starts the text after library lines and a blank gap, and
   * occurs neither in the text before them nor in any library, is first
   * found right after the gap.
   */
  lemma FindAfterLibraryLines(head: string, libraries: seq<string>, gap: string, rest: string, pat: string)
    requires pat != [] && NoWhitespace(pat) && NoMatch(head, pat)
    requires forall k :: 0 <= k < |libraries| ==> NoMatch(libraries[k], pat)
    requires gap != [] && IsBlank(gap) && MatchesAt(rest, pat, 0)
    ensures Find(head + LibraryLines(libraries) + gap + rest, pat) == Some(|head + LibraryLines(libraries) + gap|)
  {
    var lines := head + LibraryLines(libraries);
    var n := |gap|;
    NoMatchInLibraryLines(head, libraries, pat);
    NoMatchAppendBlank(lines, gap[..n - 1], pat);
    NoWhitespaceExcludes(pat, gap[n - 1]);
    assert lines + gap + rest == lines + gap[..n - 1] + [gap[n - 1]] + rest;
    FindAfter(lines + gap[..n - 1], gap[n - 1], rest, pat);
  }

  /** Regrouping a rendered report around its library lines. */
  lemma RenderRegroup(a: string, b: string, c: string, d: string, e: string, f: string, g: string)
    ensures a + (b + c + d + e) + f + g == (a + b) + c + (d + e) + (f + g)
  { }

  /** The text ahead of the library lines holds no `Summary`, and the gap after them is blank. */
  lemma AroundLibraryLines()
    ensures NoWhitespace(SummaryMarker) && SummaryMarker != []
    ensures NoMatch(DependenciesMarker + "\r\n\r\n", SummaryMarker)
    ensures "\r\n" + "  " != [] && IsBlank("\r\n" + "  ")
  {
    assert NoWhitespace(SummaryMarker) && IsBlank("\r\n\r\n");
    NoSummaryInMarker();
    NoMatchAppendBlank(DependenciesMarker, "\r\n\r\n", SummaryMarker);
  }

  /** In a rendered well-formed report `Summary` is first found right after the library lines. */
  lemma RenderedSummary(d: Dependents)
    requires WellFormed(d)
    ensures Find(Render(d), SummaryMarker) == Some(|DependenciesMarker| + |Window(d.libraries)|)
  {
    RenderRegroup(DependenciesMarker, "\r\n\r\n", LibraryLines(d.libraries), "\r\n", "  ",
                  SummaryMarker, Tail(d.summary));
    AroundLibraryLines();
    MatchesAtStart(SummaryMarker, Tail(d.summary));
    FindAfterLibraryLines(DependenciesMarker + "\r\n\r\n", d.libraries, "\r\n" + "  ",
                          SummaryMarker + Tail(d.summary), SummaryMarker);
  }

  /** The text between the markers and the text after `Summary` in a rendered report. */
  lemma RenderedSlices(d: Dependents)
    ensures var n := |DependenciesMarker| + |Window(d.libraries)|;
      n + |SummaryMarker| <= |Render(d)|
      && Render(d)[|DependenciesMarker|..n] == Window(d.libraries)
      && Render(d)[n + |SummaryMarker|..] == Tail(d.summary)
  {
    var output := Render(d);
    assert output == DependenciesMarker + Window(d.libraries) + SummaryMarker + Tail(d.summary);
  }

  /** A string with no whitespace holds no whitespace character. */
  lemma NoWhitespaceExcludes(s: string, c: char)
    requires NoWhitespace(s) && IsWhitespace(c)
    ensures c !in s
  {
  }

  /** A space splits the text into the fields of each side. */
  lemma FieldsAcrossSpace(a: string, b: string)
    ensures TrimmedFields(Split(a + [' '] + b, ' ')) == TrimmedFields(Split(a, ' ')) + TrimmedFields(Split(b, ' '))
  {
    SplitConcat(a, b, ' ');
    TrimmedFieldsConcat(Split(a, ' '), Split(b, ' '));
  }

  /** A string that is blank and holds no space yields no field. */
  lemma FieldsOfBlank(w: string)
    requires IsBlank(w) && ' ' !in w
    ensures TrimmedFields(Split(w, ' ')) == []
  {
    SplitPieceFree(w, ' ');
    TrimShape(w);
    TrimmedFieldsOne(w);
  }

  /** Regrouping a six-part concatenation. */
  lemma Regroup(a: string, b: string, c: string, d: string, e: string, f: string)
    ensures a + (b + c + d + e) + f == (a + b) + c + (d + (e + f))
  {
  }

  /** Whitespace put after the text changes no field. */
  lemma {:induction false} FieldsAfterBlank(t: string, b: string)
    requires IsBlank(b)
    ensures TrimmedFields(Split(t + b, ' ')) == TrimmedFields(Split(t, ' '))
    decreases |b|
  {
    if b == [] {
      assert t + b == t;
    } else {
      var n := |b|;
      FieldsAfterBlank(t, b[..n - 1]);
      AppendInitLast(t, b);
      FieldsSnocBlank(t + b[..n - 1], b[n - 1]);
    }
  }

  /** Whether `s` is made of spaces only. */
  predicate AllSpaces(s: string)
  {
    forall i :: 0 <= i < |s| ==> s[i] == ' '
  }

  /** The library indent is four spaces. */
  lemma IndentIsSpaces()
    ensures "    " != [] && AllSpaces("    ")
  {
  }

  /** An indent of spaces splits the text into the fields of each side. */
  lemma FieldsAcrossIndent(front: string, indent: string, line: string)
    requires indent != [] && AllSpaces(indent)
    ensures TrimmedFields(Split(front + indent + line, ' '))
            == TrimmedFields(Split(front, ' ')) + TrimmedFields(Split(line, ' '))
  {
    var n := |indent|;
    var lead := indent[..n - 1];
    assert IsBlank(lead) by {
      forall i | 0 <= i < |lead| ensures IsWhitespace(lead[i]) {
        assert lead[i] == indent[i];
      }
    }
    assert front + indent + line == (front + lead) + [' '] + line by {
      assert indent == lead + [' '];
    }
    FieldsAcrossSpace(front + lead, line);
    FieldsAfterBlank(front, lead);
  }

  /** A library followed by blank space-free text is one field: the library. */
  lemma FieldsOfLibraryLine(lib: string, rest: string)
    requires lib != [] && NoWhitespace(lib)
    requires IsBlank(rest) && ' ' !in rest
    ensures TrimmedFields(Split(lib + rest, ' ')) == [lib]
  {
    NoWhitespaceExcludes(lib, ' ');
    assert ' ' !in lib + rest;
    SplitPieceFree(lib + rest, ' ');
    TrimBlankSuffix(lib, rest);
    TrimOfTrimmed(lib);
    TrimmedFieldsOne(lib + rest);
  }

  /** The last library line of a rendered window, regrouped around its indent. */
  lemma LibraryLinesRegroup(head: string, libraries: seq<string>, w: string)
    requires libraries != []
    ensures var n := |libraries|;
            head + LibraryLines(libraries) + w
            == (head + LibraryLines(libraries[..n - 1])) + "    " + (libraries[n - 1] + ("\r\n" + w))
  {
    var n := |libraries|;
    Regroup(head, LibraryLines(libraries[..n - 1]), "    ", libraries[n - 1], "\r\n", w);
  }

  /** Blank space-free texts stay so when joined. */
  lemma BlankJoin(a: string, b: string)
    requires IsBlank(a) && ' ' !in a
    requires IsBlank(b) && ' ' !in b
    ensures IsBlank(a + b) && ' ' !in a + b
  {
    var blank := a + b;
    forall i | 0 <= i < |blank| ensures IsWhitespace(blank[i]) {
      if i >= |a| {
        assert blank[i] == b[i - |a|];
      }
    }
  }

  /** A line end followed by blank space-free text is blank and space-free. */
  lemma LineEndBlank(w: string)
    requires IsBlank(w) && ' ' !in w
    ensures IsBlank("\r\n" + w) && ' ' !in "\r\n" + w
  {
    assert IsBlank("\r\n") && ' ' !in "\r\n";
    BlankJoin("\r\n", w);
  }

  /** One more indented library line adds exactly that library to the fields. */
  lemma FieldsAfterLibraryLine(front: string, indent: string, lib: string, rest: string)
    requires indent != [] && AllSpaces(indent)
    requires lib != [] && NoWhitespace(lib)
    requires IsBlank(rest) && ' ' !in rest
    ensures TrimmedFields(Split(front + indent + (lib + rest), ' '))
            == TrimmedFields(Split(front, ' ')) + [lib]
  {
    FieldsAcrossIndent(front, indent, lib + rest);
    FieldsOfLibraryLine(lib, rest);
  }

  /** Fields read back from the library lines before the last stay fields read back with it. */
  lemma FieldsAfterLibraryLines(head: string, libraries: seq<string>, w: string)
    requires libraries != [] && libraries[|libraries| - 1] != [] && NoWhitespace(libraries[|libraries| - 1])
    requires IsBlank(w) && ' ' !in w
    requires TrimmedFields(Split(head + LibraryLines(libraries[..|libraries| - 1]), ' '))
             == libraries[..|libraries| - 1]
    ensures TrimmedFields(Split(head + LibraryLines(libraries) + w, ' ')) == libraries
  {
    var n := |libraries|;
    LibraryLinesRegroup(head, libraries, w);
    IndentIsSpaces();
    LineEndBlank(w);
    FieldsAfterLibraryLine(head + LibraryLines(libraries[..n - 1]), "    ", libraries[n - 1], "\r\n" + w);
    InitLast(libraries);
  }

  /**
   * Library lines, after blank space-free text (the blank lines under the
   * heading) and before more of it, yield exactly the libraries, in order.
   */
  lemma {:induction false} FieldsOfLibraryLines(head: string, libraries: seq<string>, w: string)
    requires IsBlank(head) && ' ' !in head
    requires forall k :: 0 <= k < |libraries| ==> libraries[k] != [] && NoWhitespace(libraries[k])
    requires IsBlank(w) && ' ' !in w
    ensures TrimmedFields(Split(head + LibraryLines(libraries) + w, ' ')) == libraries
    decreases |libraries|
  {
    if libraries == [] {
      assert head + LibraryLines(libraries) + w == head + w;
      BlankJoin(head, w);
      FieldsOfBlank(head + w);
    } else {
      var init := libraries[..|libraries| - 1];
      assert forall k :: 0 <= k < |init| ==> init[k] == libraries[k];
      assert IsBlank([]) && ' ' !in [];
      FieldsOfLibraryLines(head, init, []);
      assert head + LibraryLines(init) + [] == head + LibraryLines(init);
      FieldsAfterLibraryLines(head, libraries, w);
    }
  }

  /** Library lines between blank text, the last of it possibly spaces, yield the libraries. */
  lemma FieldsOfPaddedLibraryLines(head: string, libraries: seq<string>, w: string, pad: string)
    requires IsBlank(head) && ' ' !in head
    requires forall k :: 0 <= k < |libraries| ==> libraries[k] != [] && NoWhitespace(libraries[k])
    requires IsBlank(w) && ' ' !in w
    requires IsBlank(pad)
    ensures TrimmedFields(Split(head + LibraryLines(libraries) + w + pad, ' ')) == libraries
  {
    FieldsAfterBlank(head + LibraryLines(libraries) + w, pad);
    FieldsOfLibraryLines(head, libraries, w);
  }

  /** The library lines of a rendered report are read back unchanged. */
  lemma LibrariesRoundTrip(libraries: seq<string>)
    requires forall k :: 0 <= k < |libraries| ==> libraries[k] != [] && NoWhitespace(libraries[k])
    ensures LibrariesIn(Window(libraries)) == libraries
  {
    LibrariesIgnoreTrim(Window(libraries));
    FieldsOfPaddedLibraryLines("\r\n\r\n", libraries, "\r\n", "  ");
  }

  /** The trimmed row text is its own trim. */
  lemma RowTextTrimmed(row: (u32, string))
    requires row.1 != [] && NoWhitespace(row.1)
    ensures Trim(RowText(row)) == RowText(row)
  {
    var d := NatToDecimal(row.0 as int);
    NatToDecimalDigits(row.0 as int);
    var text := RowText(row);
    assert text[0] == d[0];
    assert text[|text| - 1] == row.1[|row.1| - 1];
    TrimOfTrimmed(text);
  }

  /** The row text splits at its one space into the count's digits and the name. */
  lemma RowTextSplit(row: (u32, string))
    requires row.1 != [] && NoWhitespace(row.1)
    ensures Split(RowText(row), ' ') == [NatToDecimal(row.0 as int), row.1]
  {
    var d := NatToDecimal(row.0 as int);
    NatToDecimalDigits(row.0 as int);
    assert Join([d, row.1], ' ') == RowText(row) by {
      assert [d, row.1][1..] == [row.1];
    }
    NoWhitespaceExcludes(row.1, ' ');
    assert ' ' !in d;
    SplitJoin([d, row.1], ' ');
  }

  /** A row's line trims to its text: the indent, the padding and the carriage return go. */
  lemma RowLineTrim(row: (u32, string))
    requires row.1 != [] && NoWhitespace(row.1)
    ensures Trim(RowLine(row)) == RowText(row)
  {
    var digits := NatToDecimal(row.0 as int);
    var indent := "    " + (if |digits| < 8 then Spaces(8 - |digits|) else []);
    assert IsBlank(indent);
    assert RowLine(row) == indent + (RowText(row) + "\r");
    TrimBlankPrefix(indent, RowText(row) + "\r");
    TrimBlankSuffix(RowText(row), "\r");
    RowTextTrimmed(row);
  }

  /** A row's line holds no line feed. */
  lemma RowLineOneLine(row: (u32, string))
    requires NoWhitespace(row.1)
    ensures '\n' !in RowLine(row)
  {
    NatToDecimalDigits(row.0 as int);
    NoWhitespaceExcludes(row.1, '\n');
  }

  /** Two non-blank tokens are both kept. */
  lemma NonBlankPair(x: string, y: string)
    requires Trim(x) != [] && Trim(y) != []
    ensures NonBlank([x, y]) == [x, y]
  {
    assert [x][..0] == [];
    assert NonBlank([x]) == [x];
    assert [x, y][..1] == [x];
  }

  /** A rendered row line parses back to the row. */
  lemma RowRoundTrip(row: (u32, string))
    requires row.1 != [] && NoWhitespace(row.1)
    ensures LineEntry(RowLine(row)) == Some(row)
  {
    var d := NatToDecimal(row.0 as int);
    NatToDecimalDigits(row.0 as int);
    RowLineTrim(row);
    RowTextTrimmed(row);
    RowTextSplit(row);
    TrimOfTrimmed(d);
    TrimOfTrimmed(row.1);
    NonBlankPair(d, row.1);
    ParseU32OfDecimal(row.0);
    assert NonBlank(Split(Trim(RowLine(row)), ' ')) == [d, row.1];
  }

  /** The blank lines under `Summary` yield no row. */
  lemma EntriesOfBlankLines()
    ensures Entries(Split("\r\n\r", '\n')) == []
  {
    assert "\r\n\r" == "\r" + "\n" + "\r";
    SplitConcat("\r", "\r", '\n');
    SplitPieceFree("\r", '\n');
    TrimShape("\r");
    EntriesOne("\r");
    EntriesConcat(["\r"], ["\r"]);
  }

  /** A row's line, after a line feed, adds exactly that row. */
  lemma EntriesAfterRow(front: string, row: (u32, string))
    requires row.1 != [] && NoWhitespace(row.1)
    ensures Entries(Split(front + "\n" + RowLine(row), '\n')) == Entries(Split(front, '\n')) + [row]
  {
    SplitConcat(front, RowLine(row), '\n');
    RowLineOneLine(row);
    SplitPieceFree(RowLine(row), '\n');
    EntriesConcat(Split(front, '\n'), [RowLine(row)]);
    RowRoundTrip(row);
    EntriesOne(RowLine(row));
  }

  /** The last summary line, regrouped after its line break. */
  lemma SummaryLinesRegroup(head: string, rows: seq<(u32, string)>)
    requires rows != []
    ensures head + SummaryLines(rows) == (head + SummaryLines(rows[..|rows| - 1])) + "\n" + RowLine(rows[|rows| - 1])
  {
    AppendLine(head, SummaryLines(rows[..|rows| - 1]), RowLine(rows[|rows| - 1]));
  }

  /** Regrouping a line appended after a line break. */
  lemma AppendLine(head: string, y: string, z: string)
    ensures head + (y + "\n" + z) == (head + y) + "\n" + z
  { }

  /** Rows read back from the summary lines before the last stay rows read back with it. */
  lemma EntriesAfterSummaryLines(head: string, rows: seq<(u32, string)>)
    requires rows != [] && rows[|rows| - 1].1 != [] && NoWhitespace(rows[|rows| - 1].1)
    requires Entries(Split(head + SummaryLines(rows[..|rows| - 1]), '\n')) == rows[..|rows| - 1]
    ensures Entries(Split(head + SummaryLines(rows), '\n')) == rows
  {
    SummaryLinesRegroup(head, rows);
    EntriesAfterRow(head + SummaryLines(rows[..|rows| - 1]), rows[|rows| - 1]);
    InitLast(rows);
  }

  /** Summary lines, after text that yields no row, yield exactly the rows, in order. */
  lemma {:induction false} EntriesOfSummaryLines(head: string, rows: seq<(u32, string)>)
    requires Entries(Split(head, '\n')) == []
    requires forall k :: 0 <= k < |rows| ==> rows[k].1 != [] && NoWhitespace(rows[k].1)
    ensures Entries(Split(head + SummaryLines(rows), '\n')) == rows
    decreases |rows|
  {
    if rows == [] {
      assert head + SummaryLines(rows) == head;
    } else {
      var init := rows[..|rows| - 1];
      assert forall k :: 0 <= k < |init| ==> init[k] == rows[k];
      EntriesOfSummaryLines(head, init);
      EntriesAfterSummaryLines(head, rows);
    }
  }

  /** The summary rows of a rendered report are read back unchanged. */
  lemma SummaryRoundTrip(rows: seq<(u32, string)>)
    requires forall k :: 0 <= k < |rows| ==> rows[k].1 != [] && NoWhitespace(rows[k].1)
    ensures SummaryIn(Tail(rows)) == rows
  {
    var lines := "\r\n\r" + SummaryLines(rows);
    SummaryIgnoresTrim(Tail(rows));
    assert Tail(rows) == lines + ['\n'];
    LinesSnocBlank(lines, '\n');
    EntriesOfBlankLines();
    EntriesOfSummaryLines("\r\n\r", rows);
  }

  /** An output in which both markers are found, in order, parses to its two sections. */
  lemma ReportOfFound(output: string, dll: nat, sum: nat)
    requires Find(output, DependenciesMarker) == Some(dll) && Find(output, SummaryMarker) == Some(sum)
    requires dll + |DependenciesMarker| <= sum
    ensures sum + |SummaryMarker| <= |output|
    ensures Report(output) == Returned(Ok(Sections(output, dll + |DependenciesMarker|, sum)))
  {
    FindLeftmost(output, SummaryMarker);
  }

  /** Parsing a rendered well-formed report returns exactly the report rendered. */
  lemma RenderParses(d: Dependents)
    requires WellFormed(d)
    ensures Report(Render(d)) == Returned(Ok(d))
  {
    RenderedDependencies(d);
    RenderedSummary(d);
    ReportOfFound(Render(d), 0, |DependenciesMarker| + |Window(d.libraries)|);
    RenderedSlices(d);
    LibrariesRoundTrip(d.libraries);
    SummaryRoundTrip(d.summary);
  }
}
