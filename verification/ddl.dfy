/**
  `clean_sql`: the normaliser that turns the DDL text SQLite stores for a
  table or view into one comma-spaced line for the prompt.

  `clean_sql` runs a fixed pipeline of string replacements, regular-expression
  substitutions and a line-by-line re-indentation pass. Each stage is modelled
  here as a character-level function with the exact semantics of the Python
  call it stands for (leftmost, non-overlapping replacement; greedy runs;
  `\s` and `str.strip()` as Python's `str.isspace`).
 */
module Ddl {
  import opened Text
  import opened Optional

  // ---------------------------------------------------------------------
  // Stage 1: line endings and quoting characters
  // ---------------------------------------------------------------------

  /** Deletes every carriage return that a line feed follows. */
  function DropCrBeforeLf(s: string): string {
    if |s| == 0 then ""
    else (if s[0] == '\r' && |s| > 1 && s[1] == '\n' then "" else [s[0]]) + DropCrBeforeLf(s[1..])
  }

  /** `s.replace('\r\n', '\n')`: the left-to-right pair replacement is the
      deletion of each carriage return that a line feed follows. */
  function ReplaceCrlf(s: string): (r: string)
    ensures |r| <= |s|
    ensures forall x :: x in r ==> x in s
    ensures '\r' !in s ==> r == s
    decreases |s|
  {
    if |s| == 0 then ""
    else if |s| >= 2 && s[0] == '\r' && s[1] == '\n' then "\n" + ReplaceCrlf(s[2..])
    else [s[0]] + ReplaceCrlf(s[1..])
  }

  /** Replacing each pair left to right is deleting each carriage return
      that a line feed follows. */
  lemma {:induction false} ReplaceCrlfDropsCr(s: string)
    ensures ReplaceCrlf(s) == DropCrBeforeLf(s)
    decreases |s|
  {
    if |s| >= 2 && s[0] == '\r' && s[1] == '\n' {
      assert s[1..][1..] == s[2..];
      assert DropCrBeforeLf(s[1..]) == "\n" + DropCrBeforeLf(s[2..]);
      ReplaceCrlfDropsCr(s[2..]);
    } else if |s| > 0 {
      ReplaceCrlfDropsCr(s[1..]);
    }
  }

  /** `s.replace(c, d)` for single characters. */
  function ReplaceChar(s: string, c: char, d: char): (r: string)
    ensures |r| == |s|
    ensures forall i :: 0 <= i < |s| ==> r[i] == (if s[i] == c then d else s[i])
  {
    if |s| == 0 then "" else [if s[0] == c then d else s[0]] + ReplaceChar(s[1..], c, d)
  }

  /** `s.replace(c, '')`. */
  function DeleteChar(s: string, c: char): (r: string)
    ensures forall x :: x in r <==> x in s && x != c
    ensures c !in s ==> r == s
  {
    if |s| == 0 then ""
    else if s[0] == c then DeleteChar(s[1..], c)
    else [s[0]] + DeleteChar(s[1..], c)
  }

  /** Every line ending (CRLF or a lone CR) becomes LF. */
  function NormalizeNewlines(s: string): (r: string)
    ensures '\r' !in r
    ensures forall x :: x in r ==> x in s || x == '\n'
    ensures '\r' !in s ==> r == s
  {
    var t := ReplaceCrlf(s);
    var r := ReplaceChar(t, '\r', '\n');
    assert forall x :: x in r ==> x in t || x == '\n' by {
      forall x | x in r ensures x in t || x == '\n' {
        var i :| 0 <= i < |r| && r[i] == x;
      }
    }
    assert '\r' !in t ==> r == t;
    r
  }

  /** The double quotes and square brackets some DDL uses to quote names are removed. */
  function StripQuoting(s: string): (r: string)
    ensures forall x :: x in r <==> x in s && x != '"' && x != '[' && x != ']'
  {
    DeleteChar(DeleteChar(DeleteChar(s, '"'), '['), ']')
  }

  // ---------------------------------------------------------------------
  // Stage 2: re.sub(r'(CREATE\s+(?:TABLE|VIEW)\s+[^\(]+)\(\s*', r'\1(\n', s, IGNORECASE)
  // ---------------------------------------------------------------------

  /** `c` matches the lower-case ASCII letter `p` under `re.IGNORECASE`:
      the letter in either case, and for `i` also U+0130 and U+0131, which
      Python's matcher folds onto `i`. */
  predicate FoldsTo(c: char, p: char) {
    AsciiLowerChar(c) == p || (p == 'i' && (c == '\U{130}' || c == '\U{131}'))
  }

  /** The lower-case ASCII `word` occurs case-insensitively at `at`. */
  predicate WordAt(s: string, at: nat, word: string) {
    at + |word| <= |s| && forall k :: 0 <= k < |word| ==> FoldsTo(s[at + k], word[k])
  }

  /** The end of the maximal whitespace run starting at `i`. */
  function SpaceRunEnd(s: string, i: nat): (j: nat)
    requires i <= |s|
    ensures i <= j <= |s|
    ensures forall k :: i <= k < j ==> IsSpace(s[k])
    ensures j == |s| || !IsSpace(s[j])
    decreases |s| - i
  {
    if i < |s| && IsSpace(s[i]) then SpaceRunEnd(s, i + 1) else i
  }

  /** The first index at or after `i` holding `c`. */
  function FindChar(s: string, i: nat, c: char): (r: Option<nat>)
    requires i <= |s|
    ensures r.Some? ==> i <= r.value < |s| && s[r.value] == c
    ensures r.Some? ==> forall k :: i <= k < r.value ==> s[k] != c
    ensures r.None? ==> forall k :: i <= k < |s| ==> s[k] != c
    decreases |s| - i
  {
    if i == |s| then None else if s[i] == c then Some(i) else FindChar(s, i + 1, c)
  }

  /** Where a match of the CREATE-header pattern puts its parenthesis, and
      where the match ends (after the whitespace that follows it). */
  datatype HeaderMatch = HeaderMatch(paren: nat, end: nat)

  /** The CREATE-header pattern tried at the start of `s`. The first `\s+`
      must take the whole whitespace run, since TABLE or VIEW follows it.
      The second `\s+` and the greedy `[^\(]+` together cover everything up
      to the first `(`, so they succeed exactly when that `(` lies at least
      two characters after the keyword and the first of those is whitespace. */
  function MatchHeader(s: string): (m: Option<HeaderMatch>)
    ensures m.Some? ==> 0 < m.value.paren < m.value.end <= |s| && s[m.value.paren] == '('
    ensures m.Some? ==> forall k :: m.value.paren < k < m.value.end ==> IsSpace(s[k])
    ensures m.Some? ==> m.value.end == |s| || !IsSpace(s[m.value.end])
    ensures m.Some? ==> WordAt(s, 0, "create")
  {
    if !WordAt(s, 0, "create") then None
    else
      var w := SpaceRunEnd(s, 6);
      var t := if WordAt(s, w, "table") then w + 5 else if WordAt(s, w, "view") then w + 4 else w;
      if w == 6 || t == w || t >= |s| || !IsSpace(s[t]) then None
      else
        match FindChar(s, t, '(')
        case None => None
        case Some(p) => if p < t + 2 then None else Some(HeaderMatch(p, SpaceRunEnd(s, p + 1)))
  }

  /** The CREATE-header pattern read as a regular expression: `CREATE`,
      whitespace up to `a`, TABLE or VIEW up to `b`, whitespace up to `c`,
      then characters other than `(` up to the `(` at `p`. */
  predicate HeaderParts(s: string, a: nat, b: nat, c: nat, p: nat) {
    && WordAt(s, 0, "create")
    && 6 < a < b < c < p < |s|
    && (forall k :: 6 <= k < a ==> IsSpace(s[k]))
    && ((WordAt(s, a, "table") && b == a + 5) || (WordAt(s, a, "view") && b == a + 4))
    && (forall k :: b <= k < c ==> IsSpace(s[k]))
    && (forall k :: c <= k < p ==> s[k] != '(')
    && s[p] == '('
  }

  /** The matcher agrees with the pattern: it succeeds exactly when some
      reading of the pattern fits at the start of `s`, and every reading ends
      at the parenthesis the matcher reports. */
  lemma MatchHeaderIff(s: string)
    ensures MatchHeader(s).Some? ==> exists a, b, c :: HeaderParts(s, a, b, c, MatchHeader(s).value.paren)
    ensures forall a, b, c, p :: HeaderParts(s, a, b, c, p) ==> MatchHeader(s).Some? && MatchHeader(s).value.paren == p
  {
    if MatchHeader(s).Some? {
      var w := SpaceRunEnd(s, 6);
      var t := if WordAt(s, w, "table") then w + 5 else if WordAt(s, w, "view") then w + 4 else w;
      var p := MatchHeader(s).value.paren;
      assert FindChar(s, t, '(') == Some(p);
      assert HeaderParts(s, w, t, t + 1, p);
    }
    forall a, b, c, p | HeaderParts(s, a, b, c, p)
      ensures MatchHeader(s).Some? && MatchHeader(s).value.paren == p
    {
      HeaderPartsMatch(s, a, b, c, p);
    }
  }

  lemma HeaderPartsMatch(s: string, a: nat, b: nat, c: nat, p: nat)
    requires HeaderParts(s, a, b, c, p)
    ensures MatchHeader(s).Some? && MatchHeader(s).value.paren == p
  {
    var w := SpaceRunEnd(s, 6);
    if WordAt(s, a, "table") {
      assert FoldsTo(s[a + 0], "table"[0]);
    }
    if WordAt(s, a, "view") {
      assert FoldsTo(s[a + 0], "view"[0]);
    }
    assert a == w;
    var t := if WordAt(s, w, "table") then w + 5 else if WordAt(s, w, "view") then w + 4 else w;
    assert t == b;
    assert IsSpace(s[t]);
    var q := FindChar(s, t, '(');
    assert q.Some?;
    assert q.value == p;
  }

  /** The substitution: scanning left to right, each match keeps its first
      group, and its `(` plus the whitespace after it become `(` and a line
      feed. Where no match starts, one character is copied and the scan moves on. */
  function CreateBreak(s: string): (r: string)
    ensures forall x :: x in r ==> x in s || x == '\n'
    decreases |s|
  {
    if |s| == 0 then ""
    else
      match MatchHeader(s)
      case Some(m) => s[..m.paren] + "(\n" + CreateBreak(s[m.end..])
      case None => [s[0]] + CreateBreak(s[1..])
  }

  // ---------------------------------------------------------------------
  // Stage 3: blank runs and commas
  // ---------------------------------------------------------------------

  predicate IsBlank(c: char) { c == ' ' || c == '\t' }

  /** Drops the leading run of spaces and tabs. */
  function SkipBlanks(s: string): (r: string)
    ensures |r| <= |s| && r == s[|s| - |r|..]
    ensures r == [] || !IsBlank(r[0])
  {
    if |s| > 0 && IsBlank(s[0]) then SkipBlanks(s[1..]) else s
  }

  /** `re.sub(r'[ \t]+', ' ', s)`: every run of spaces and tabs becomes one space. */
  function CollapseBlanks(s: string): (r: string)
    ensures '\t' !in r
    ensures forall x :: x in r ==> x in s || x == ' '
    ensures forall i :: 0 <= i < |r| - 1 ==> !(r[i] == ' ' && r[i + 1] == ' ')
    ensures |s| > 0 ==> |r| > 0 && r[0] == (if IsBlank(s[0]) then ' ' else s[0])
    decreases |s|
  {
    if |s| == 0 then ""
    else if IsBlank(s[0]) then " " + CollapseBlanks(SkipBlanks(s[1..]))
    else [s[0]] + CollapseBlanks(s[1..])
  }

  /** `re.sub(r',\s*', ',\n', s)`: a comma and the whitespace after it become a comma and a line feed. */
  function BreakAfterCommas(s: string): (r: string)
    ensures forall x :: x in r ==> x in s || x == '\n'
    ensures forall i :: 0 <= i < |r| && r[i] == ',' ==> i + 1 < |r| && r[i + 1] == '\n'
    decreases |s|
  {
    if |s| == 0 then ""
    else if s[0] == ',' then ",\n" + BreakAfterCommas(LStrip(s[1..]))
    else [s[0]] + BreakAfterCommas(s[1..])
  }

  // ---------------------------------------------------------------------
  // Stage 4: lines and indentation
  // ---------------------------------------------------------------------

  /** `sep.join(parts)` for a one-character separator. */
  function Join(parts: seq<string>, sep: char): (r: string)
    ensures forall x :: x in r ==> x == sep || exists i :: 0 <= i < |parts| && x in parts[i]
  {
    if |parts| == 0 then ""
    else if |parts| == 1 then parts[0]
    else parts[0] + [sep] + Join(parts[1..], sep)
  }

  /** `s.split(sep)`: every piece, empty ones included; joining them back gives `s`. */
  function Split(s: string, sep: char): (r: seq<string>)
    ensures |r| > 0
    ensures forall i :: 0 <= i < |r| ==> sep !in r[i]
    ensures forall i, x :: 0 <= i < |r| && x in r[i] ==> x in s
    ensures Join(r, sep) == s
    decreases |s|
  {
    if |s| == 0 then [""]
    else if s[0] == sep then
      var t := Split(s[1..], sep);
      var r := [""] + t;
      assert r[1..] == t;
      assert forall i, x :: 0 <= i < |r| && x in r[i] ==> x in s by {
        forall i, x | 0 <= i < |r| && x in r[i] ensures x in s {
          assert i > 0 && r[i] == t[i - 1];
          assert x in s[1..];
        }
      }
      r
    else
      var t := Split(s[1..], sep);
      var r := [[s[0]] + t[0]] + t[1..];
      assert r[1..] == t[1..];
      assert |t| > 1 ==> Join(t, sep) == t[0] + [sep] + Join(t[1..], sep);
      assert forall i, x :: 0 <= i < |r| && x in r[i] ==> x in s by {
        forall i, x | 0 <= i < |r| && x in r[i] ensures x in s {
          if i == 0 {
            if x != s[0] {
              assert x in t[0];
              assert x in s[1..];
            }
          } else {
            assert r[i] == t[i];
            assert x in s[1..];
          }
        }
      }
      r
  }

  /** A piece without the separator splits to itself. */
  lemma {:induction false} SplitNoSep(a: string, sep: char)
    requires sep !in a
    ensures Split(a, sep) == [a]
    decreases |a|
  {
    if |a| > 0 {
      SplitNoSep(a[1..], sep);
      assert [a[0]] + a[1..] == a;
    }
  }

  /** A piece followed by the separator splits off as the first piece. */
  lemma {:induction false} SplitAfterPiece(a: string, b: string, sep: char)
    requires sep !in a
    ensures Split(a + [sep] + b, sep) == [a] + Split(b, sep)
    decreases |a|
  {
    var s := a + [sep] + b;
    if |a| == 0 {
      assert s[1..] == b;
    } else {
      assert s[1..] == a[1..] + [sep] + b;
      SplitAfterPiece(a[1..], b, sep);
      assert [a[0]] + a[1..] == a;
    }
  }

  /** Joining lines that hold no separator and splitting the text again
      gives back the same lines, in order. */
  lemma {:induction false} JoinSplitRoundTrip(parts: seq<string>, sep: char)
    requires |parts| > 0 && forall i :: 0 <= i < |parts| ==> sep !in parts[i]
    ensures Split(Join(parts, sep), sep) == parts
    decreases |parts|
  {
    if |parts| == 1 {
      SplitNoSep(parts[0], sep);
    } else {
      JoinSplitRoundTrip(parts[1..], sep);
      SplitAfterPiece(parts[0], Join(parts[1..], sep), sep);
      assert [parts[0]] + parts[1..] == parts;
    }
  }

  /** `[f(x) for x in parts if f(x)]`: each piece mapped through `f`, the
      empty results dropped, the order kept. */
  function KeepNonEmpty(f: string -> string, parts: seq<string>): (r: seq<string>)
    ensures |r| <= |parts|
  {
    if |parts| == 0 then []
    else
      var rest := KeepNonEmpty(f, parts[1..]);
      if f(parts[0]) == [] then rest else [f(parts[0])] + rest
  }

  /** The comprehension runs piece by piece. */
  lemma {:induction false} KeepNonEmptyAppend(f: string -> string, a: seq<string>, b: seq<string>)
    ensures KeepNonEmpty(f, a + b) == KeepNonEmpty(f, a) + KeepNonEmpty(f, b)
    decreases |a|
  {
    if |a| == 0 {
      assert a + b == b;
    } else {
      assert (a + b)[0] == a[0];
      assert (a + b)[1..] == a[1..] + b;
      KeepNonEmptyAppend(f, a[1..], b);
    }
  }

  /** Every kept line is the non-empty image of some piece. */
  lemma {:induction false} KeepNonEmptySound(f: string -> string, parts: seq<string>, line: string)
    requires line in KeepNonEmpty(f, parts)
    ensures line != [] && exists i :: 0 <= i < |parts| && f(parts[i]) == line
    decreases |parts|
  {
    var rest := parts[1..];
    if line in KeepNonEmpty(f, rest) {
      KeepNonEmptySound(f, rest, line);
      var i :| 0 <= i < |rest| && f(rest[i]) == line;
      assert f(parts[i + 1]) == line;
    }
  }

  /** The non-empty image of every piece is kept. */
  lemma {:induction false} KeepNonEmptyComplete(f: string -> string, parts: seq<string>, line: string, i: nat)
    requires i < |parts| && f(parts[i]) == line && line != []
    ensures line in KeepNonEmpty(f, parts)
    decreases i
  {
    if i > 0 {
      assert parts[1..][i - 1] == parts[i];
      KeepNonEmptyComplete(f, parts[1..], line, i - 1);
    }
  }

  /** `[ln.strip() for ln in parts if ln.strip()]`. */
  function StripLines(parts: seq<string>): (r: seq<string>)
    ensures |r| <= |parts|
    ensures forall line :: line in r ==> Trimmed(line)
  {
    StripLinesTrimmed(parts);
    KeepNonEmpty(Strip, parts)
  }

  lemma StripLinesTrimmed(parts: seq<string>)
    ensures forall line :: line in KeepNonEmpty(Strip, parts) ==> Trimmed(line)
  {
    forall line | line in KeepNonEmpty(Strip, parts) ensures Trimmed(line) {
      KeepNonEmptySound(Strip, parts, line);
    }
  }

  /** The comprehension runs piece by piece: the kept lines of two runs of
      pieces are the kept lines of the first followed by those of the second. */
  lemma StripLinesAppend(a: seq<string>, b: seq<string>)
    ensures StripLines(a + b) == StripLines(a) + StripLines(b)
  {
    KeepNonEmptyAppend(Strip, a, b);
  }

  /** A single piece contributes its stripped text, unless that is empty. */
  lemma StripLinesSingle(p: string)
    ensures StripLines([p]) == if Strip(p) == [] then [] else [Strip(p)]
  {
    assert [p][1..] == [];
  }

  /** The kept lines are exactly the non-empty stripped pieces. */
  lemma StripLinesMembers(parts: seq<string>, line: string)
    ensures line in StripLines(parts) <==> line != [] && exists i :: 0 <= i < |parts| && Strip(parts[i]) == line
  {
    if line in StripLines(parts) {
      KeepNonEmptySound(Strip, parts, line);
    }
    if line != [] && exists i :: 0 <= i < |parts| && Strip(parts[i]) == line {
      var i :| 0 <= i < |parts| && Strip(parts[i]) == line;
      KeepNonEmptyComplete(Strip, parts, line, i);
    }
  }

  /** Stripping adds no character: whatever alphabet the lines are drawn
      from, the stripped lines are drawn from it too. */
  lemma StripLinesChars(parts: seq<string>, alphabet: string)
    requires forall i, x :: 0 <= i < |parts| && x in parts[i] ==> x in alphabet
    ensures forall i, x :: 0 <= i < |StripLines(parts)| && x in StripLines(parts)[i] ==> x in alphabet
  {
    var r := StripLines(parts);
    forall i, x | 0 <= i < |r| && x in r[i] ensures x in alphabet {
      KeepNonEmptySound(Strip, parts, r[i]);
      var j :| 0 <= j < |parts| && Strip(parts[j]) == r[i];
      StripChars(parts[j]);
    }
  }

  function Spaces(n: nat): (r: string)
    ensures |r| == n && forall k :: 0 <= k < n ==> r[k] == ' '
  {
    if n == 0 then "" else " " + Spaces(n - 1)
  }

  /** The indentation level the re-indentation pass gives `line` when the
      running level is `level`: a line opening with `)` closes one level. */
  function LineLevel(line: string, level: nat): nat {
    if |line| > 0 && line[0] == ')' then (if level > 0 then level - 1 else 0) else level
  }

  /** The running level after `line`: a line that ends with `(`, or holds a
      `(` and no `)`, opens one level. */
  function NextLevel(line: string, level: nat): nat {
    var here := LineLevel(line, level);
    if (|line| > 0 && line[|line| - 1] == '(') || ('(' in line && ')' !in line) then here + 1 else here
  }

  /** The re-indentation loop: each line is prefixed by four spaces per level. */
  function Indent(lines: seq<string>, level: nat): (r: seq<string>)
    ensures |r| == |lines|
    ensures forall i :: 0 <= i < |r| ==> |lines[i]| <= |r[i]| && r[i] == Spaces(|r[i]| - |lines[i]|) + lines[i]
    ensures forall i :: 0 <= i < |r| ==> (|r[i]| - |lines[i]|) % 4 == 0
    ensures |r| > 0 ==> r[0] == Spaces(4 * LineLevel(lines[0], level)) + lines[0]
    ensures forall i, x :: 0 <= i < |r| && x in r[i] ==> x == ' ' || x in lines[i]
  {
    if |lines| == 0 then []
    else
      var here := LineLevel(lines[0], level);
      var rest := Indent(lines[1..], NextLevel(lines[0], level));
      [Spaces(4 * here) + lines[0]] + rest
  }

  /** The running level after `lines`, taken left to right as the loop does. */
  function LevelAfter(lines: seq<string>, level: nat): nat {
    if |lines| == 0 then level else NextLevel(lines[|lines| - 1], LevelAfter(lines[..|lines| - 1], level))
  }

  /** Taking the first line and then the rest reaches the same level. */
  lemma {:induction false} LevelAfterCons(lines: seq<string>, level: nat)
    requires |lines| > 0
    ensures LevelAfter(lines, level) == LevelAfter(lines[1..], NextLevel(lines[0], level))
    decreases |lines|
  {
    if |lines| > 1 {
      var init := lines[..|lines| - 1];
      LevelAfterCons(init, level);
      assert lines[1..][..|lines| - 2] == init[1..];
    }
  }

  /** Every line is indented by four spaces per level, the level being the
      one the loop holds when it reaches that line. */
  lemma IndentLevels(lines: seq<string>, level: nat)
    ensures forall i :: 0 <= i < |lines| ==>
      Indent(lines, level)[i] == Spaces(4 * LineLevel(lines[i], LevelAfter(lines[..i], level))) + lines[i]
  {
    forall i | 0 <= i < |lines|
      ensures Indent(lines, level)[i] == Spaces(4 * LineLevel(lines[i], LevelAfter(lines[..i], level))) + lines[i]
    {
      IndentLevelAt(lines, level, i);
    }
  }

  /** Past its first line, an indentation is that of the remaining lines. */
  lemma IndentTail(lines: seq<string>, level: nat)
    requires |lines| > 0
    ensures Indent(lines, level)[1..] == Indent(lines[1..], NextLevel(lines[0], level))
  {
  }

  lemma {:induction false} IndentLevelAt(lines: seq<string>, level: nat, i: nat)
    requires i < |lines|
    ensures Indent(lines, level)[i] == Spaces(4 * LineLevel(lines[i], LevelAfter(lines[..i], level))) + lines[i]
    decreases i
  {
    if i > 0 {
      var next := NextLevel(lines[0], level);
      IndentTail(lines, level);
      assert Indent(lines, level)[i] == Indent(lines, level)[1..][i - 1];
      IndentLevelAt(lines[1..], next, i - 1);
      LevelAfterCons(lines[..i], level);
      assert lines[..i][1..] == lines[1..][..i - 1];
    }
  }

  // ---------------------------------------------------------------------
  // Stage 5: flattening
  // ---------------------------------------------------------------------

  /** Drops the leading run of line feeds. */
  function SkipNewlines(s: string): (r: string)
    ensures |r| <= |s| && r == s[|s| - |r|..]
    ensures r == [] || r[0] != '\n'
  {
    if |s| > 0 && s[0] == '\n' then SkipNewlines(s[1..]) else s
  }

  /** `re.sub(r'\n{2,}', '\n\n', s)`: every run of two or more line feeds becomes exactly two. */
  function SquashNewlineRuns(s: string): (r: string)
    ensures |s| > 0 ==> |r| > 0 && r[0] == s[0]
    decreases |s|
  {
    if |s| == 0 then ""
    else if s[0] == '\n' then
      var t := SkipNewlines(s);
      if |s| - |t| >= 2 then "\n\n" + SquashNewlineRuns(t) else "\n" + SquashNewlineRuns(t)
    else [s[0]] + SquashNewlineRuns(s[1..])
  }

  /** The squashing adds no character. */
  lemma {:induction false} SquashNewlineRunsChars(s: string)
    ensures forall x :: x in SquashNewlineRuns(s) ==> x in s
    decreases |s|
  {
    if |s| > 0 {
      var t := if s[0] == '\n' then SkipNewlines(s) else s[1..];
      SquashNewlineRunsChars(t);
      assert forall x :: x in t ==> x in s;
    }
  }

  /** No three consecutive line feeds anywhere in `r`. */
  predicate NoTripleNewline(r: string) {
    |r| < 3 || (!(r[0] == '\n' && r[1] == '\n' && r[2] == '\n') && NoTripleNewline(r[1..]))
  }

  /** No run of three or more line feeds survives the squashing. */
  lemma {:induction false} SquashLeavesNoTripleNewline(s: string)
    ensures NoTripleNewline(SquashNewlineRuns(s))
    decreases |s|
  {
    if |s| > 0 {
      var t := if s[0] == '\n' then SkipNewlines(s) else s[1..];
      var rest := SquashNewlineRuns(t);
      SquashLeavesNoTripleNewline(t);
      assert s[0] == '\n' ==> rest == [] || rest[0] != '\n';
      if s[0] != '\n' || |s| - |t| < 2 {
        var r := [s[0]] + rest;
        assert SquashNewlineRuns(s) == r;
        assert r[1..] == rest;
      } else {
        var r := "\n\n" + rest;
        assert SquashNewlineRuns(s) == r;
        assert r[1..] == "\n" + rest;
        assert r[1..][1..] == rest;
      }
    }
  }

  /** Position `i` holds half of a backslash, `n` pair. */
  predicate InEscapedNewline(s: string, i: nat)
    requires i < |s|
  {
    (s[i] == '\\' && i + 1 < |s| && s[i + 1] == 'n') || (s[i] == 'n' && 0 < i && s[i - 1] == '\\')
  }

  /** The characters of `s` from `i` on that are not part of a backslash, `n` pair. */
  function KeepOutsidePairs(s: string, i: nat): string
    requires i <= |s|
    decreases |s| - i
  {
    if i == |s| then ""
    else (if InEscapedNewline(s, i) then "" else [s[i]]) + KeepOutsidePairs(s, i + 1)
  }

  /** `s.replace('\\n', '')`: every two-character sequence backslash, `n` is removed. */
  function DropEscapedNewlines(s: string): (r: string)
    ensures |r| <= |s|
    ensures forall x :: x in r ==> x in s
    ensures '\\' !in s ==> r == s
    decreases |s|
  {
    if |s| == 0 then ""
    else if |s| >= 2 && s[0] == '\\' && s[1] == 'n' then DropEscapedNewlines(s[2..])
    else [s[0]] + DropEscapedNewlines(s[1..])
  }

  /** The left-to-right removal deletes exactly the characters that belong to
      a backslash, `n` pair of the input, so no pair is missed and no other
      character is lost (a pair that only forms once another is removed stays). */
  lemma DropEscapedNewlinesKeepsOutside(s: string)
    ensures DropEscapedNewlines(s) == KeepOutsidePairs(s, 0)
  {
    DropEscapedFrom(s, 0);
  }

  lemma {:induction false} DropEscapedFrom(s: string, j: nat)
    requires j <= |s| && !(0 < j < |s| && s[j - 1] == '\\' && s[j] == 'n')
    ensures DropEscapedNewlines(s[j..]) == KeepOutsidePairs(s, j)
    decreases |s| - j
  {
    if j < |s| {
      var t := s[j..];
      if |t| >= 2 && t[0] == '\\' && t[1] == 'n' {
        assert InEscapedNewline(s, j) && InEscapedNewline(s, j + 1);
        assert t[2..] == s[j + 2..];
        DropEscapedFrom(s, j + 2);
        if j + 2 < |s| {
          assert KeepOutsidePairs(s, j + 1) == KeepOutsidePairs(s, j + 2);
        }
      } else {
        assert !InEscapedNewline(s, j);
        assert t[1..] == s[j + 1..];
        DropEscapedFrom(s, j + 1);
      }
    }
  }

  /** `re.sub(r'\n\s*', '', s)`: every line feed goes, with the whitespace after it. */
  function Flatten(s: string): (r: string)
    ensures '\n' !in r
    ensures forall x :: x in r ==> x in s
    ensures '\n' !in s ==> r == s
    decreases |s|
  {
    if |s| == 0 then ""
    else if s[0] == '\n' then Flatten(LStrip(s[1..]))
    else [s[0]] + Flatten(s[1..])
  }

  /** `re.sub(r',', ', ', s)`: every comma is followed by a space. */
  function SpaceAfterCommas(s: string): (r: string)
    ensures forall i :: 0 <= i < |r| && r[i] == ',' ==> i + 1 < |r| && r[i + 1] == ' '
    ensures forall x :: x in r ==> x in s || x == ' '
    ensures |s| > 0 ==> |r| > 0 && r[0] == s[0]
    decreases |s|
  {
    if |s| == 0 then ""
    else if s[0] == ',' then ", " + SpaceAfterCommas(s[1..])
    else [s[0]] + SpaceAfterCommas(s[1..])
  }

  /** Removes the character after each comma: the inverse of `SpaceAfterCommas`. */
  function DropAfterCommas(s: string): string
    decreases |s|
  {
    if |s| == 0 then ""
    else if s[0] == ',' then "," + (if |s| >= 2 then DropAfterCommas(s[2..]) else "")
    else [s[0]] + DropAfterCommas(s[1..])
  }

  /** The comma spacing loses nothing: the text before it is recoverable. */
  lemma {:induction false} SpaceAfterCommasRoundTrip(s: string)
    ensures DropAfterCommas(SpaceAfterCommas(s)) == s
    decreases |s|
  {
    if |s| > 0 {
      SpaceAfterCommasRoundTrip(s[1..]);
      if s[0] == ',' {
        assert (", " + SpaceAfterCommas(s[1..]))[2..] == SpaceAfterCommas(s[1..]);
      } else {
        assert ([s[0]] + SpaceAfterCommas(s[1..]))[1..] == SpaceAfterCommas(s[1..]);
      }
    }
  }

  // ---------------------------------------------------------------------
  // The whole normaliser
  // ---------------------------------------------------------------------

  /** The characters `clean_sql` guarantees never to emit. */
  predicate Flattened(c: char) {
    c != '\n' && Unquoted(c)
  }

  /** The characters gone after the first stages: carriage returns, tabs, quotes and brackets. */
  predicate Unquoted(c: char) {
    c != '\r' && c != '\t' && c != '"' && c != '[' && c != ']'
  }

  /** Lines 10-14 of the normaliser: line endings, quoting, the CREATE
      header break, blank runs and comma breaks. Only line feeds and spaces
      are added, and no carriage return, tab, quote or bracket survives. */
  function BreakDdl(text: string): (r: string)
    ensures forall x :: x in r ==> (x in text || x == '\n' || x == ' ') && Unquoted(x)
  {
    var s1 := NormalizeNewlines(text);
    var s2 := StripQuoting(s1);
    var s3 := CreateBreak(s2);
    var s4 := CollapseBlanks(s3);
    BreakAfterCommas(s4)
  }

  /** Lines 15-29: split into stripped non-blank lines, re-indent, join. */
  function Reindent(s: string): (r: string)
    ensures forall x :: x in r ==> x in s || x == '\n' || x == ' '
  {
    var parts := Split(s, '\n');
    var lines := StripLines(parts);
    StripLinesChars(parts, s);
    var indented := Indent(lines, 0);
    var r := Join(indented, '\n');
    assert forall x :: x in r ==> x in s || x == '\n' || x == ' ' by {
      forall x | x in r && x != '\n' && x != ' ' ensures x in s {
        var i :| 0 <= i < |indented| && x in indented[i];
        assert x in lines[i];
      }
    }
    r
  }

  /** Lines 30-32: squash blank-line runs, strip, drop escaped newlines, remove every line feed. */
  function FlattenLines(s: string): (r: string)
    ensures '\n' !in r
    ensures forall x :: x in r ==> x in s
  {
    SquashNewlineRunsChars(s);
    StripChars(SquashNewlineRuns(s));
    Flatten(DropEscapedNewlines(Strip(SquashNewlineRuns(s))))
  }

  /** Every stage but the comma spacing. Its characters all come from the
      input or are spaces, and none is a line feed, tab, quote or bracket. */
  function Flat(text: string): (r: string)
    ensures forall x :: x in r ==> (x in text || x == ' ') && Flattened(x)
  {
    var broken := BreakDdl(text);
    var lines := Reindent(broken);
    var flat := FlattenLines(lines);
    assert forall x :: x in flat ==> (x in text || x == ' ') && Flattened(x) by {
      forall x | x in flat ensures (x in text || x == ' ') && Flattened(x) {
        assert x in lines && x != '\n';
        assert x in broken || x == ' ';
      }
    }
    flat
  }

  /** `clean_sql(sql_text)`. Empty text gives the empty string; otherwise the
      result is one line with no tab, quote or bracket, and every comma in it
      is followed by a space. */
  function CleanSql(text: string): (r: string)
    ensures text == "" ==> r == ""
    ensures forall i :: 0 <= i < |r| ==> Flattened(r[i])
    ensures forall i :: 0 <= i < |r| && r[i] == ',' ==> i + 1 < |r| && r[i + 1] == ' '
    ensures forall x :: x in r ==> x in text || x == ' '
  {
    if text == "" then ""
    else
      var flat := Flat(text);
      var r := SpaceAfterCommas(flat);
      FlattenedAfterCommas(flat, r);
      r
  }

  /** Inserting spaces keeps a flattened text flattened. */
  lemma FlattenedAfterCommas(flat: string, r: string)
    requires forall x :: x in flat ==> Flattened(x)
    requires forall x :: x in r ==> x in flat || x == ' '
    ensures forall i :: 0 <= i < |r| ==> Flattened(r[i])
  {
    forall i | 0 <= i < |r| ensures Flattened(r[i]) {
      assert r[i] in r;
    }
  }

  // ---------------------------------------------------------------------
  // What the stages keep
  // ---------------------------------------------------------------------

  /** `str.replace` of a single character runs character by character: the
      result for a concatenation is the concatenation of the results, so,
      with `DeleteCharOne`, the characters kept keep their order and their
      number. */
  lemma {:induction false} DeleteCharAppend(a: string, b: string, c: char)
    ensures DeleteChar(a + b, c) == DeleteChar(a, c) + DeleteChar(b, c)
    decreases |a|
  {
    if |a| == 0 {
      assert a + b == b;
    } else {
      assert (a + b)[0] == a[0];
      assert (a + b)[1..] == a[1..] + b;
      DeleteCharAppend(a[1..], b, c);
    }
  }

  /** A lone character is dropped exactly when it is the one deleted. */
  lemma DeleteCharOne(x: char, c: char)
    ensures DeleteChar([x], c) == (if x == c then "" else [x])
  {
    assert [x][1..] == "";
  }

  /** The quote removal runs character by character too, so it keeps the
      order and number of the characters it does not remove. */
  lemma StripQuotingAppend(a: string, b: string)
    ensures |a| == 1 ==> StripQuoting(a) == (if a[0] == '"' || a[0] == '[' || a[0] == ']' then "" else a)
    ensures StripQuoting(a + b) == StripQuoting(a) + StripQuoting(b)
  {
    if |a| == 1 {
      assert a == [a[0]];
      DeleteCharOne(a[0], '"');
      if a[0] != '"' {
        DeleteCharOne(a[0], '[');
        if a[0] != '[' {
          DeleteCharOne(a[0], ']');
        }
      }
    }
    DeleteCharAppend(a, b, '"');
    DeleteCharAppend(DeleteChar(a, '"'), DeleteChar(b, '"'), '[');
    DeleteCharAppend(DeleteChar(DeleteChar(a, '"'), '['), DeleteChar(DeleteChar(b, '"'), '['), ']');
  }

  /** Deleting a non-space character commutes with dropping the whitespace. */
  lemma {:induction false} NonSpaceDeleteChar(s: string, c: char)
    requires !IsSpace(c)
    ensures NonSpace(DeleteChar(s, c)) == DeleteChar(NonSpace(s), c)
    decreases |s|
  {
    if |s| > 0 {
      NonSpaceDeleteChar(s[1..], c);
      var h := if IsSpace(s[0]) then "" else [s[0]];
      assert NonSpace(s) == h + NonSpace(s[1..]);
      DeleteCharAppend(h, NonSpace(s[1..]), c);
      if s[0] != c {
        assert DeleteChar(s, c) == [s[0]] + DeleteChar(s[1..], c);
        NonSpaceAppend([s[0]], DeleteChar(s[1..], c));
      }
    }
  }

  /** Deleting a whitespace character keeps the text. */
  lemma {:induction false} NonSpaceDeleteSpace(s: string, c: char)
    requires IsSpace(c)
    ensures NonSpace(DeleteChar(s, c)) == NonSpace(s)
    decreases |s|
  {
    if |s| > 0 {
      NonSpaceDeleteSpace(s[1..], c);
      if s[0] != c {
        NonSpaceAppend([s[0]], DeleteChar(s[1..], c));
      }
    }
  }

  lemma NonSpaceStripQuoting(s: string)
    ensures NonSpace(StripQuoting(s)) == StripQuoting(NonSpace(s))
  {
    NonSpaceDeleteChar(s, '"');
    NonSpaceDeleteChar(DeleteChar(s, '"'), '[');
    NonSpaceDeleteChar(DeleteChar(DeleteChar(s, '"'), '['), ']');
  }

  lemma {:induction false} ReplaceCrlfKeepsText(s: string)
    ensures NonSpace(ReplaceCrlf(s)) == NonSpace(s)
    decreases |s|
  {
    if |s| >= 2 && s[0] == '\r' && s[1] == '\n' {
      ReplaceCrlfKeepsText(s[2..]);
      NonSpaceAppend("\n", ReplaceCrlf(s[2..]));
      assert s == "\r\n" + s[2..];
      NonSpaceAppend("\r\n", s[2..]);
    } else if |s| > 0 {
      ReplaceCrlfKeepsText(s[1..]);
      NonSpaceAppend([s[0]], ReplaceCrlf(s[1..]));
    }
  }

  lemma {:induction false} ReplaceSpaceKeepsText(s: string, c: char, d: char)
    requires IsSpace(c) && IsSpace(d)
    ensures NonSpace(ReplaceChar(s, c, d)) == NonSpace(s)
    decreases |s|
  {
    if |s| > 0 {
      ReplaceSpaceKeepsText(s[1..], c, d);
      var h := if s[0] == c then d else s[0];
      assert ReplaceChar(s, c, d) == [h] + ReplaceChar(s[1..], c, d);
      NonSpaceAppend([h], ReplaceChar(s[1..], c, d));
    }
  }

  /** Turning line endings into line feeds keeps the text. */
  lemma NormalizeNewlinesKeepsText(s: string)
    ensures NonSpace(NormalizeNewlines(s)) == NonSpace(s)
  {
    ReplaceCrlfKeepsText(s);
    ReplaceSpaceKeepsText(ReplaceCrlf(s), '\r', '\n');
  }

  /** The header break keeps the text: the group is copied, the `(` kept,
      and only the whitespace after it becomes a line feed. */
  lemma {:induction false} CreateBreakKeepsText(s: string)
    ensures NonSpace(CreateBreak(s)) == NonSpace(s)
    decreases |s|
  {
    if |s| > 0 {
      match MatchHeader(s)
      case Some(m) =>
        CreateBreakKeepsText(s[m.end..]);
        CreateBreakMatchKeepsText(s, m);
      case None =>
        CreateBreakKeepsText(s[1..]);
        CreateBreakCopyKeepsText(s);
    }
  }

  lemma CreateBreakMatchKeepsText(s: string, m: HeaderMatch)
    requires |s| > 0 && MatchHeader(s) == Some(m)
    requires NonSpace(CreateBreak(s[m.end..])) == NonSpace(s[m.end..])
    ensures NonSpace(CreateBreak(s)) == NonSpace(s)
  {
    CreateBreakAtMatch(s, m);
    HeaderGapIsSpace(s, m);
    HeaderBreakKeepsText(s, m.paren, m.end, CreateBreak(s[m.end..]));
  }

  lemma CreateBreakAtMatch(s: string, m: HeaderMatch)
    requires |s| > 0 && MatchHeader(s) == Some(m)
    ensures CreateBreak(s) == s[..m.paren] + "(\n" + CreateBreak(s[m.end..])
  {
  }

  lemma HeaderGapIsSpace(s: string, m: HeaderMatch)
    requires MatchHeader(s) == Some(m)
    ensures NonSpace(s[m.paren + 1..m.end]) == ""
  {
    var gap := s[m.paren + 1..m.end];
    assert forall k :: 0 <= k < |gap| ==> IsSpace(gap[k]);
    NonSpaceOfSpaces(gap);
  }

  lemma CreateBreakCopyKeepsText(s: string)
    requires |s| > 0 && MatchHeader(s).None?
    requires NonSpace(CreateBreak(s[1..])) == NonSpace(s[1..])
    ensures NonSpace(CreateBreak(s)) == NonSpace(s)
  {
    NonSpaceAppend([s[0]], CreateBreak(s[1..]));
  }

  /** `s` cut before and after position `i` and again at `j`. */
  lemma CutAround(s: string, i: nat, j: nat)
    requires i < j <= |s|
    ensures s == s[..i] + ([s[i]] + (s[i + 1..j] + s[j..]))
  {
    assert s[i..] == [s[i]] + (s[i + 1..j] + s[j..]);
    assert s == s[..i] + s[i..];
  }

  /** One header break: the whitespace after the `(` at `p` becomes a line feed. */
  lemma HeaderBreakKeepsText(s: string, p: nat, e: nat, done: string)
    requires p < e <= |s| && s[p] == '(' && NonSpace(s[p + 1..e]) == ""
    requires NonSpace(done) == NonSpace(s[e..])
    ensures NonSpace(s[..p] + "(\n" + done) == NonSpace(s)
  {
    NonSpaceAtParen(s, p, e);
    NonSpaceParenBreak(s[..p], done);
  }

  lemma NonSpaceAtParen(s: string, p: nat, e: nat)
    requires p < e <= |s| && s[p] == '(' && NonSpace(s[p + 1..e]) == ""
    ensures NonSpace(s) == NonSpace(s[..p]) + ("(" + NonSpace(s[e..]))
  {
    var pre, gap, rest := s[..p], s[p + 1..e], s[e..];
    CutAround(s, p, e);
    assert [s[p]] == "(";
    NonSpaceAppend(gap, rest);
    assert NonSpace(gap + rest) == NonSpace(rest);
    NonSpaceAppend("(", gap + rest);
    NonSpaceAppend(pre, "(" + (gap + rest));
  }

  lemma NonSpaceParenBreak(pre: string, done: string)
    ensures NonSpace(pre + "(\n" + done) == NonSpace(pre) + ("(" + NonSpace(done))
  {
    assert NonSpace("(\n") == "(";
    NonSpaceAppend(pre, "(\n");
    NonSpaceAppend(pre + "(\n", done);
    assert (NonSpace(pre) + "(") + NonSpace(done) == NonSpace(pre) + ("(" + NonSpace(done));
  }

  lemma {:induction false} SkipBlanksKeepsText(s: string)
    ensures NonSpace(SkipBlanks(s)) == NonSpace(s)
    decreases |s|
  {
    if |s| > 0 && IsBlank(s[0]) {
      SkipBlanksKeepsText(s[1..]);
    }
  }

  /** Collapsing blank runs keeps the text. */
  lemma {:induction false} CollapseBlanksKeepsText(s: string)
    ensures NonSpace(CollapseBlanks(s)) == NonSpace(s)
    decreases |s|
  {
    if |s| > 0 {
      if IsBlank(s[0]) {
        var t := SkipBlanks(s[1..]);
        CollapseBlanksKeepsText(t);
        SkipBlanksKeepsText(s[1..]);
        NonSpaceSkipSpace(s);
        NonSpaceAppend(" ", CollapseBlanks(t));
      } else {
        CollapseBlanksKeepsText(s[1..]);
        NonSpaceAppend([s[0]], CollapseBlanks(s[1..]));
      }
    }
  }

  /** Breaking after commas keeps the text. */
  lemma {:induction false} BreakAfterCommasKeepsText(s: string)
    ensures NonSpace(BreakAfterCommas(s)) == NonSpace(s)
    decreases |s|
  {
    if |s| > 0 {
      if s[0] == ',' {
        var t := LStrip(s[1..]);
        BreakAfterCommasKeepsText(t);
        LStripKeepsText(s[1..]);
        NonSpaceAppend(",\n", BreakAfterCommas(t));
      } else {
        BreakAfterCommasKeepsText(s[1..]);
        NonSpaceAppend([s[0]], BreakAfterCommas(s[1..]));
      }
    }
  }

  /** A leading whitespace character adds nothing to the text. */
  lemma NonSpaceSkipSpace(s: string)
    requires |s| > 0 && IsSpace(s[0])
    ensures NonSpace(s) == NonSpace(s[1..])
  {
  }

  /** The text of a list of lines, line after line. */
  function NonSpaceAll(parts: seq<string>): string {
    if |parts| == 0 then "" else NonSpace(parts[0]) + NonSpaceAll(parts[1..])
  }

  /** Joining with a whitespace separator keeps the lines' text. */
  lemma {:induction false} NonSpaceJoin(parts: seq<string>, sep: char)
    requires IsSpace(sep)
    ensures NonSpace(Join(parts, sep)) == NonSpaceAll(parts)
    decreases |parts|
  {
    if |parts| == 1 {
      assert NonSpaceAll(parts) == NonSpace(parts[0]) + NonSpaceAll(parts[1..]);
    } else if |parts| > 1 {
      NonSpaceJoin(parts[1..], sep);
      NonSpaceAroundSpace(parts[0], sep, Join(parts[1..], sep));
    }
  }

  /** A whitespace character between two texts adds nothing to their text. */
  lemma NonSpaceAroundSpace(a: string, sep: char, b: string)
    requires IsSpace(sep)
    ensures NonSpace(a + [sep] + b) == NonSpace(a) + NonSpace(b)
  {
    NonSpaceAppend(a + [sep], b);
    NonSpaceAppend(a, [sep]);
  }

  /** The text of a list of lines with one more line in front. */
  lemma NonSpaceAllCons(x: string, rest: seq<string>)
    ensures NonSpaceAll([x] + rest) == NonSpace(x) + NonSpaceAll(rest)
  {
    assert ([x] + rest)[1..] == rest;
  }

  /** A comprehension whose map keeps each piece's text keeps the text of all. */
  lemma {:induction false} KeepNonEmptyKeepsText(f: string -> string, parts: seq<string>)
    requires forall i :: 0 <= i < |parts| ==> NonSpace(f(parts[i])) == NonSpace(parts[i])
    ensures NonSpaceAll(KeepNonEmpty(f, parts)) == NonSpaceAll(parts)
    decreases |parts|
  {
    if |parts| > 0 {
      KeepNonEmptyKeepsText(f, parts[1..]);
      var rest := KeepNonEmpty(f, parts[1..]);
      if f(parts[0]) != [] {
        NonSpaceAllCons(f(parts[0]), rest);
      }
    }
  }

  /** Indenting keeps every line's text. */
  lemma {:induction false} IndentKeepsText(lines: seq<string>, level: nat)
    ensures NonSpaceAll(Indent(lines, level)) == NonSpaceAll(lines)
    decreases |lines|
  {
    if |lines| > 0 {
      var pad := Spaces(4 * LineLevel(lines[0], level));
      var rest := Indent(lines[1..], NextLevel(lines[0], level));
      IndentKeepsText(lines[1..], NextLevel(lines[0], level));
      NonSpaceOfSpaces(pad);
      PaddedLineKeepsText(pad, lines[0], rest, lines[1..]);
      assert [lines[0]] + lines[1..] == lines;
    }
  }

  /** A line with whitespace in front, followed by lines with the same text as
      `more`, has the text of the line followed by `more`. */
  lemma PaddedLineKeepsText(pad: string, line: string, rest: seq<string>, more: seq<string>)
    requires NonSpace(pad) == "" && NonSpaceAll(rest) == NonSpaceAll(more)
    ensures NonSpaceAll([pad + line] + rest) == NonSpaceAll([line] + more)
  {
    NonSpaceAppend(pad, line);
    NonSpaceAllCons(pad + line, rest);
    NonSpaceAllCons(line, more);
  }

  /** The re-indentation keeps the text. */
  lemma ReindentKeepsText(s: string)
    ensures NonSpace(Reindent(s)) == NonSpace(s)
  {
    var parts := Split(s, '\n');
    NonSpaceJoin(parts, '\n');
    forall i | 0 <= i < |parts| ensures NonSpace(Strip(parts[i])) == NonSpace(parts[i]) {
      StripKeepsText(parts[i]);
    }
    KeepNonEmptyKeepsText(Strip, parts);
    var lines := StripLines(parts);
    IndentKeepsText(lines, 0);
    NonSpaceJoin(Indent(lines, 0), '\n');
  }

  lemma {:induction false} SkipNewlinesKeepsOthers(s: string)
    ensures DeleteChar(SkipNewlines(s), '\n') == DeleteChar(s, '\n')
    decreases |s|
  {
    if |s| > 0 && s[0] == '\n' {
      SkipNewlinesKeepsOthers(s[1..]);
    }
  }

  /** Squashing blank-line runs removes line feeds only: every other
      character is kept, in order. */
  lemma {:induction false} SquashNewlineRunsKeepsOthers(s: string)
    ensures DeleteChar(SquashNewlineRuns(s), '\n') == DeleteChar(s, '\n')
    decreases |s|
  {
    if |s| > 0 {
      if s[0] == '\n' {
        var t := SkipNewlines(s);
        SquashNewlineRunsKeepsOthers(t);
        SkipNewlinesKeepsOthers(s);
        var lead := if |s| - |t| >= 2 then "\n\n" else "\n";
        assert SquashNewlineRuns(s) == lead + SquashNewlineRuns(t);
        LeadingNewlinesDropped(lead, SquashNewlineRuns(t));
      } else {
        SquashNewlineRunsKeepsOthers(s[1..]);
        DeleteCharAppend([s[0]], SquashNewlineRuns(s[1..]), '\n');
      }
    }
  }

  /** One or two line feeds in front are all deleted. */
  lemma LeadingNewlinesDropped(lead: string, rest: string)
    requires lead == "\n" || lead == "\n\n"
    ensures DeleteChar(lead + rest, '\n') == DeleteChar(rest, '\n')
  {
    DeleteCharAppend(lead, rest, '\n');
    if lead == "\n" {
      DeleteCharOne('\n', '\n');
    } else {
      DeleteCharAppend("\n", "\n", '\n');
      DeleteCharOne('\n', '\n');
    }
  }

  lemma SquashNewlineRunsKeepsText(s: string)
    ensures NonSpace(SquashNewlineRuns(s)) == NonSpace(s)
  {
    SquashNewlineRunsKeepsOthers(s);
    NonSpaceDeleteSpace(SquashNewlineRuns(s), '\n');
    NonSpaceDeleteSpace(s, '\n');
  }

  /** Removing the line feeds and the whitespace after them keeps the text. */
  lemma {:induction false} FlattenKeepsText(s: string)
    ensures NonSpace(Flatten(s)) == NonSpace(s)
    decreases |s|
  {
    if |s| > 0 {
      if s[0] == '\n' {
        FlattenKeepsText(LStrip(s[1..]));
        LStripKeepsText(s[1..]);
        NonSpaceSkipSpace(s);
      } else {
        FlattenKeepsText(s[1..]);
        NonSpaceAppend([s[0]], Flatten(s[1..]));
      }
    }
  }

  /** The comma spacing keeps the text. */
  lemma {:induction false} SpaceAfterCommasKeepsText(s: string)
    ensures NonSpace(SpaceAfterCommas(s)) == NonSpace(s)
    decreases |s|
  {
    if |s| > 0 {
      SpaceAfterCommasKeepsText(s[1..]);
      var lead := if s[0] == ',' then ", " else [s[0]];
      assert SpaceAfterCommas(s) == lead + SpaceAfterCommas(s[1..]);
      NonSpaceAppend(lead, SpaceAfterCommas(s[1..]));
    }
  }

  /** The first stages, up to the comma breaks, keep the text apart from
      the quotes and brackets they remove. */
  lemma BreakDdlKeepsText(text: string)
    ensures NonSpace(BreakDdl(text)) == NonSpace(StripQuoting(text))
  {
    var s1 := NormalizeNewlines(text);
    var s2 := StripQuoting(s1);
    var s3 := CreateBreak(s2);
    var s4 := CollapseBlanks(s3);
    NormalizeNewlinesKeepsText(text);
    NonSpaceStripQuoting(s1);
    NonSpaceStripQuoting(text);
    CreateBreakKeepsText(s2);
    CollapseBlanksKeepsText(s3);
    BreakAfterCommasKeepsText(s4);
  }

  /** The final squash and flatten keep the text of a text without backslashes. */
  lemma FlattenLinesKeepsText(s: string)
    requires '\\' !in s
    ensures NonSpace(FlattenLines(s)) == NonSpace(s)
  {
    var q := SquashNewlineRuns(s);
    SquashNewlineRunsChars(s);
    StripChars(q);
    SquashNewlineRunsKeepsText(s);
    StripKeepsText(q);
    assert '\\' !in Strip(q);
    FlattenKeepsText(Strip(q));
  }

  /** Every stage but the comma spacing keeps the text of a DDL without
      backslashes, apart from the quotes and brackets. */
  lemma FlatKeepsText(text: string)
    requires '\\' !in text
    ensures NonSpace(Flat(text)) == NonSpace(StripQuoting(text))
  {
    var broken := BreakDdl(text);
    BreakDdlKeepsText(text);
    ReindentKeepsText(broken);
    assert '\\' !in broken;
    assert '\\' !in Reindent(broken);
    FlattenLinesKeepsText(Reindent(broken));
  }

  /** `clean_sql` keeps the table's text: apart from whitespace, the quotes
      and the brackets, its output has exactly the characters of the DDL, in
      order, as long as the DDL holds no backslash (which the escaped-newline
      removal could act on). */
  lemma CleanSqlKeepsText(text: string)
    requires '\\' !in text
    ensures NonSpace(CleanSql(text)) == NonSpace(StripQuoting(text))
  {
    if text != "" {
      FlatKeepsText(text);
      SpaceAfterCommasKeepsText(Flat(text));
    }
  }
}
