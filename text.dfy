/**
 * The pieces of Rust's `str` API that the report parser relies on:
 * `char::is_whitespace`, `str::trim`, `str::split` on a one-character
 * separator, and a case-insensitive search for a literal phrase (what a
 * `RegexBuilder::new(literal).case_insensitive(true)` search does).
 * Strings are sequences of Unicode scalar values, so the UTF-8 byte offsets
 * of the source become sequence indices.
 */
module Text {
  import opened Wrappers

  /** A non-empty sequence is its front followed by its last element. */
  lemma InitLast<T>(s: seq<T>)
    requires s != []
    ensures s == s[..|s| - 1] + [s[|s| - 1]]
  {
  }

  /** A non-empty sequence is its first element followed by the rest. */
  lemma HeadRest<T>(s: seq<T>)
    requires s != []
    ensures s == [s[0]] + s[1..]
  {
  }

  /** Appending a non-empty sequence is appending its front, then its last element. */
  lemma AppendInitLast<T>(t: seq<T>, b: seq<T>)
    requires b != []
    ensures t + b == (t + b[..|b| - 1]) + [b[|b| - 1]]
  {
    InitLast(b);
  }

  /** Unicode White_Space, the set `char::is_whitespace` and `str::trim` use. */
  predicate IsWhitespace(c: char)
  {
    ('\t' <= c <= '\r') || c == ' ' || c == '\U{85}' || c == '\U{A0}' || c == '\U{1680}'
    || ('\U{2000}' <= c <= '\U{200A}') || c == '\U{2028}' || c == '\U{2029}'
    || c == '\U{202F}' || c == '\U{205F}' || c == '\U{3000}'
  }

  /** No character of `s` is whitespace. */
  predicate NoWhitespace(s: string)
  {
    forall i :: 0 <= i < |s| ==> !IsWhitespace(s[i])
  }

  /** Every character of `s` is whitespace (this includes the empty string). */
  predicate IsBlank(s: string)
  {
    forall i :: 0 <= i < |s| ==> IsWhitespace(s[i])
  }

  /** `str::trim_start`: drops the longest whitespace prefix. */
  function TrimStart(s: string): string
  {
    if s != [] && IsWhitespace(s[0]) then TrimStart(s[1..]) else s
  }

  /**
   * `TrimStart` keeps a suffix; what it drops is whitespace, and what it
   * keeps does not start with any.
   */
  lemma {:induction false} TrimStartShape(s: string)
    ensures |TrimStart(s)| <= |s| && TrimStart(s) == s[|s| - |TrimStart(s)|..]
    ensures forall i :: 0 <= i < |s| - |TrimStart(s)| ==> IsWhitespace(s[i])
    ensures TrimStart(s) == [] || !IsWhitespace(TrimStart(s)[0])
    decreases |s|
  {
    if s != [] && IsWhitespace(s[0]) {
      TrimStartShape(s[1..]);
      assert forall i :: 1 <= i < |s| ==> s[i] == s[1..][i - 1];
    }
  }

  /** `str::trim_end`: drops the longest whitespace suffix. */
  function TrimEnd(s: string): string
  {
    if s != [] && IsWhitespace(s[|s| - 1]) then TrimEnd(s[..|s| - 1]) else s
  }

  /**
   * `TrimEnd` keeps a prefix; what it drops is whitespace, and what it
   * keeps does not end with any.
   */
  lemma {:induction false} TrimEndShape(s: string)
    ensures |TrimEnd(s)| <= |s| && TrimEnd(s) == s[..|TrimEnd(s)|]
    ensures forall i :: |TrimEnd(s)| <= i < |s| ==> IsWhitespace(s[i])
    ensures TrimEnd(s) == [] || !IsWhitespace(TrimEnd(s)[|TrimEnd(s)| - 1])
    decreases |s|
  {
    if s != [] && IsWhitespace(s[|s| - 1]) {
      TrimEndShape(s[..|s| - 1]);
      assert forall i :: 0 <= i < |s| - 1 ==> s[i] == s[..|s| - 1][i];
    }
  }

  /** `str::trim`: both ends' whitespace dropped. */
  function Trim(s: string): string
  {
    TrimEnd(TrimStart(s))
  }

  /**
   * The trim of `s` is drawn from `s`, is empty exactly when `s` is blank,
   * and otherwise starts and ends with a non-whitespace character.
   */
  lemma TrimShape(s: string)
    ensures |Trim(s)| <= |s|
    ensures forall c :: c in Trim(s) ==> c in s
    ensures Trim(s) == [] <==> IsBlank(s)
    ensures Trim(s) != [] ==> !IsWhitespace(Trim(s)[0]) && !IsWhitespace(Trim(s)[|Trim(s)| - 1])
  {
    var t := TrimStart(s);
    var r := TrimEnd(t);
    TrimStartShape(s);
    TrimEndShape(t);
    assert forall c :: c in r ==> c in t;
    assert r != [] ==> !IsWhitespace(r[0]) by {
      if r != [] {
        assert r[0] == t[0];
      }
    }
  }

  /** A string with no whitespace at either end is its own trim. */
  lemma TrimOfTrimmed(s: string)
    requires s == [] || (!IsWhitespace(s[0]) && !IsWhitespace(s[|s| - 1]))
    ensures Trim(s) == s
  {
  }

  /** Trimming drops any whitespace put around a string. */
  lemma {:induction false} TrimSurrounded(a: string, s: string, b: string)
    requires IsBlank(a) && IsBlank(b)
    requires s == [] || (!IsWhitespace(s[0]) && !IsWhitespace(s[|s| - 1]))
    ensures Trim(a + s + b) == s
  {
    if s == [] {
      TrimShape(a + s + b);
      assert IsBlank(a + s + b) by {
        forall i | 0 <= i < |a + s + b| ensures IsWhitespace((a + s + b)[i]) {
          if i >= |a| {
            assert (a + s + b)[i] == b[i - |a|];
          }
        }
      }
    } else {
      assert a + s + b == a + (s + b);
      TrimStartBlankPrefix(a, s + b);
      TrimEndBlankSuffix(s, b);
    }
  }

  lemma {:induction false} TrimStartBlankPrefix(a: string, t: string)
    requires IsBlank(a)
    requires t == [] || !IsWhitespace(t[0])
    ensures TrimStart(a + t) == t
    decreases |a|
  {
    if a != [] {
      assert (a + t)[1..] == a[1..] + t;
      TrimStartBlankPrefix(a[1..], t);
    } else {
      assert a + t == t;
    }
  }

  lemma {:induction false} TrimEndBlankSuffix(t: string, b: string)
    requires IsBlank(b)
    requires t == [] || !IsWhitespace(t[|t| - 1])
    ensures TrimEnd(t + b) == t
    decreases |b|
  {
    if b != [] {
      assert (t + b)[..|t + b| - 1] == t + b[..|b| - 1];
      TrimEndBlankSuffix(t, b[..|b| - 1]);
    } else {
      assert t + b == t;
    }
  }

  /** Any whitespace before a string is dropped by `trim_start`, whatever follows it. */
  lemma {:induction false} TrimStartSkipsBlank(a: string, p: string)
    requires IsBlank(a)
    ensures TrimStart(a + p) == TrimStart(p)
    decreases |a|
  {
    if a != [] {
      assert (a + p)[1..] == a[1..] + p;
      TrimStartSkipsBlank(a[1..], p);
    } else {
      assert a + p == p;
    }
  }

  /** `trim_start` of a string that is not blank is unaffected by what is appended. */
  lemma {:induction false} TrimStartAppend(p: string, b: string)
    requires !IsBlank(p)
    ensures TrimStart(p + b) == TrimStart(p) + b
    decreases |p|
  {
    assert (p + b)[0] == p[0];
    if IsWhitespace(p[0]) {
      assert (p + b)[1..] == p[1..] + b;
      TrimStartAppend(p[1..], b);
    }
  }

  /** Any whitespace after a string is dropped by `trim_end`, whatever precedes it. */
  lemma {:induction false} TrimEndSkipsBlank(p: string, b: string)
    requires IsBlank(b)
    ensures TrimEnd(p + b) == TrimEnd(p)
    decreases |b|
  {
    if b != [] {
      assert (p + b)[..|p + b| - 1] == p + b[..|b| - 1];
      TrimEndSkipsBlank(p, b[..|b| - 1]);
    } else {
      assert p + b == p;
    }
  }

  /** Whitespace put before any string does not change its trim. */
  lemma TrimBlankPrefix(a: string, p: string)
    requires IsBlank(a)
    ensures Trim(a + p) == Trim(p)
  {
    TrimStartSkipsBlank(a, p);
  }

  /** Whitespace put after any string does not change its trim. */
  lemma TrimBlankSuffix(p: string, b: string)
    requires IsBlank(b)
    ensures Trim(p + b) == Trim(p)
  {
    if IsBlank(p) {
      assert IsBlank(p + b) by {
        forall i | 0 <= i < |p + b| ensures IsWhitespace((p + b)[i]) {
          if i >= |p| {
            assert (p + b)[i] == b[i - |p|];
          }
        }
      }
      TrimShape(p);
      TrimShape(p + b);
    } else {
      TrimStartAppend(p, b);
      TrimEndSkipsBlank(TrimStart(p), b);
    }
  }

  /** The inverse of `Split`: the pieces glued back together with `sep`. */
  function Join(pieces: seq<string>, sep: char): string
  {
    if pieces == [] then []
    else if |pieces| == 1 then pieces[0]
    else pieces[0] + [sep] + Join(pieces[1..], sep)
  }

  /**
   * `s.split(sep)` for a one-character separator: the text between
   * consecutive separators, in order, empty pieces included; there is
   * always one more piece than there are separators.
   */
  function Split(s: string, sep: char): (r: seq<string>)
    ensures |r| >= 1
    decreases |s|
  {
    if s == [] then [[]]
    else if s[0] == sep then [[]] + Split(s[1..], sep)
    else
      var rest := Split(s[1..], sep);
      [[s[0]] + rest[0]] + rest[1..]
  }

  /** No piece holds the separator. */
  lemma {:induction false} SplitAvoids(s: string, sep: char)
    ensures forall k :: 0 <= k < |Split(s, sep)| ==> sep !in Split(s, sep)[k]
    decreases |s|
  {
    if s != [] {
      SplitAvoids(s[1..], sep);
    }
  }

  /** Joining the pieces back with the separator gives the string that was split. */
  lemma {:induction false} JoinSplit(s: string, sep: char)
    ensures Join(Split(s, sep), sep) == s
    decreases |s|
  {
    if s != [] {
      var rest := Split(s[1..], sep);
      JoinSplit(s[1..], sep);
      HeadRest(s);
      if s[0] == sep {
        assert ([[]] + rest)[1..] == rest;
      } else {
        var r := [[s[0]] + rest[0]] + rest[1..];
        if |rest| > 1 {
          assert r[1..] == rest[1..];
        }
      }
    }
  }

  /** Splitting undoes joining, when no piece holds the separator. */
  lemma {:induction false} SplitJoin(pieces: seq<string>, sep: char)
    requires |pieces| >= 1
    requires forall k :: 0 <= k < |pieces| ==> sep !in pieces[k]
    ensures Split(Join(pieces, sep), sep) == pieces
    decreases pieces
  {
    if |pieces| == 1 {
      SplitPieceFree(pieces[0], sep);
    } else {
      SplitJoin(pieces[1..], sep);
      SplitConcat(pieces[0], Join(pieces[1..], sep), sep);
      SplitPieceFree(pieces[0], sep);
      HeadRest(pieces);
    }
  }

  /** A string without the separator splits into itself alone. */
  lemma {:induction false} SplitPieceFree(s: string, sep: char)
    requires sep !in s
    ensures Split(s, sep) == [s]
    decreases |s|
  {
    if s != [] {
      assert sep !in s[1..] by {
        assert forall c :: c in s[1..] ==> c in s;
      }
      SplitPieceFree(s[1..], sep);
      HeadRest(s);
    }
  }

  /** Splitting at one separator splits each side on its own. */
  lemma {:induction false} SplitConcat(a: string, b: string, sep: char)
    ensures Split(a + [sep] + b, sep) == Split(a, sep) + Split(b, sep)
    decreases |a|
  {
    if a == [] {
      assert [] + [sep] + b == [sep] + b;
      assert ([sep] + b)[1..] == b;
    } else {
      assert (a + [sep] + b)[0] == a[0];
      assert (a + [sep] + b)[1..] == a[1..] + [sep] + b;
      SplitConcat(a[1..], b, sep);
    }
  }

  /** A character other than the separator, appended, extends the last piece. */
  lemma {:induction false} SplitSnoc(s: string, x: char, sep: char)
    requires x != sep
    ensures var r := Split(s, sep);
            Split(s + [x], sep) == r[..|r| - 1] + [r[|r| - 1] + [x]]
    decreases |s|
  {
    if s == [] {
      SplitOne(x, sep);
      assert s + [x] == [x];
    } else {
      SplitSnoc(s[1..], x, sep);
      SplitUnfold(s, sep);
      SplitUnfold(s + [x], sep);
      assert (s + [x])[0] == s[0];
      assert (s + [x])[1..] == s[1..] + [x];
      var r := Split(s[1..], sep);
      if s[0] == sep {
        SnocAfterEmpty(r, x);
      } else {
        SnocAfterFirst(s[0], r, x);
      }
    }
  }

  /** A single character other than the separator is one piece. */
  lemma SplitOne(x: char, sep: char)
    requires x != sep
    ensures Split([x], sep) == [[x]]
  {
    SplitUnfold([x], sep);
    assert [x][1..] == [];
    assert [x] + [] == [x];
  }

  /** One step of `Split`: the first character starts a new piece or joins the first one. */
  lemma SplitUnfold(s: string, sep: char)
    requires s != []
    ensures var r := Split(s[1..], sep);
            Split(s, sep) == if s[0] == sep then [[]] + r else [[s[0]] + r[0]] + r[1..]
  {
  }

  /** Extending the last piece commutes with putting an empty piece in front. */
  lemma SnocAfterEmpty(r: seq<string>, x: char)
    requires r != []
    ensures var q := [[]] + r; q[..|q| - 1] + [q[|q| - 1] + [x]] == [[]] + (r[..|r| - 1] + [r[|r| - 1] + [x]])
  {
  }

  /** Extending the last piece commutes with putting a character before the first. */
  lemma SnocAfterFirst(c: char, r: seq<string>, x: char)
    requires r != []
    ensures var q := [[c] + r[0]] + r[1..];
            var r' := r[..|r| - 1] + [r[|r| - 1] + [x]];
            q[..|q| - 1] + [q[|q| - 1] + [x]] == [[c] + r'[0]] + r'[1..]
  {
    if |r| == 1 {
      assert [c] + (r[0] + [x]) == ([c] + r[0]) + [x];
    }
  }

  /**
   * The case folding a case-insensitive regex applies to the characters of
   * an ASCII pattern: ASCII upper case to lower case, plus the two non-ASCII
   * scalar values whose simple case folding is an ASCII letter, U+017F (long
   * s) and U+212A (Kelvin sign).
   */
  function Fold(c: char): (f: char)
    ensures f == c || ('A' <= c <= 'Z') || c == '\U{17F}' || c == '\U{212A}'
  {
    if 'A' <= c <= 'Z' then (c as int + 32) as char
    else if c == '\U{17F}' then 's'
    else if c == '\U{212A}' then 'k'
    else c
  }

  /** The spellings of the lower-case ASCII letter `l` that simple case folding identifies. */
  function CaseVariants(l: char): set<char>
    requires 'a' <= l <= 'z'
  {
    {l, (l as int - 32) as char}
    + (if l == 's' then {'\U{17F}'} else {})
    + (if l == 'k' then {'\U{212A}'} else {})
  }

  /**
   * Two characters fold alike exactly when they are equal or are spellings
   * of one ASCII letter: its two cases, and also the long s for `s` and the
   * Kelvin sign for `k`.
   */
  lemma FoldAlike(c: char, d: char)
    ensures Fold(c) == Fold(d) <==>
              c == d || exists l :: 'a' <= l <= 'z' && c in CaseVariants(l) && d in CaseVariants(l)
  {
    if Fold(c) == Fold(d) && c != d {
      var l := Fold(c);
      assert 'a' <= l <= 'z' && c in CaseVariants(l) && d in CaseVariants(l);
    }
  }

  /** `pat` occurs case-insensitively in `text` at index `i`. */
  predicate MatchesAt(text: string, pat: string, i: nat)
  {
    i + |pat| <= |text| && forall k :: 0 <= k < |pat| ==> Fold(text[i + k]) == Fold(pat[k])
  }

  /** `pat` occurs nowhere in `text`, in any case. */
  ghost predicate NoMatch(text: string, pat: string)
  {
    forall j: nat :: !MatchesAt(text, pat, j)
  }

  function FindFrom(text: string, pat: string, from: nat): (r: Option<nat>)
    ensures r.Some? ==> from <= r.value && r.value + |pat| <= |text|
    decreases |text| - from
  {
    if from + |pat| > |text| then None
    else if MatchesAt(text, pat, from) then Some(from)
    else FindFrom(text, pat, from + 1)
  }

  /** `FindFrom` finds the first match at or after `from`, and finds none only when there is none. */
  lemma {:induction false} FindFromLeftmost(text: string, pat: string, from: nat)
    ensures FindFrom(text, pat, from).Some? ==> MatchesAt(text, pat, FindFrom(text, pat, from).value)
    ensures FindFrom(text, pat, from).Some? ==>
              forall j :: from <= j < FindFrom(text, pat, from).value ==> !MatchesAt(text, pat, j)
    ensures FindFrom(text, pat, from).None? ==> forall j :: from <= j ==> !MatchesAt(text, pat, j)
    decreases |text| - from
  {
    if from + |pat| <= |text| && !MatchesAt(text, pat, from) {
      FindFromLeftmost(text, pat, from + 1);
    }
  }

  /**
   * The leftmost case-insensitive occurrence of the literal `pat` in
   * `text`, as the start index of the match; the match ends `|pat|` later,
   * within the text.
   */
  function Find(text: string, pat: string): (r: Option<nat>)
    ensures r.Some? ==> r.value + |pat| <= |text|
  {
    FindFrom(text, pat, 0)
  }

  /** `Find` gives a match with none before it, and gives none only when there is no match at all. */
  lemma FindLeftmost(text: string, pat: string)
    ensures Find(text, pat).Some? ==>
              MatchesAt(text, pat, Find(text, pat).value)
              && forall j: nat :: j < Find(text, pat).value ==> !MatchesAt(text, pat, j)
    ensures Find(text, pat).None? <==> NoMatch(text, pat)
  {
    FindFromLeftmost(text, pat, 0);
  }

  /** A match at `i` makes `Find` succeed, at `i` or before it. */
  lemma FindAtOrBefore(text: string, pat: string, i: nat)
    requires MatchesAt(text, pat, i)
    ensures Find(text, pat).Some? && Find(text, pat).value <= i
  {
    FindLeftmost(text, pat);
  }
}
