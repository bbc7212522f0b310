/** The temperature probe of the stress script: the output of the vendor's
    system-management tool is split into lines, each line is lower-cased, and the
    first line holding a number followed by `c` (as in "42.0c") gives the reading.
    The tool itself is not modelled: its standard output arrives as an input,
    `None` when running it failed or timed out. */
module Temperature {
  import opened Common

  // ---------------------------------------------------------------------------
  // str.split('\n')

  /** The lines of `s` joined back with newlines: the inverse of Split. */
  function Join(lines: seq<string>): string
    requires |lines| >= 1
  {
    if |lines| == 1 then lines[0] else lines[0] + "\n" + Join(lines[1..])
  }

  function IndexOfNewline(s: string): (i: nat)
    requires '\n' in s
    ensures i < |s| && s[i] == '\n' && '\n' !in s[..i]
  {
    if s[0] == '\n' then 0
    else
      assert '\n' in s[1..] by {
        var k :| 0 <= k < |s| && s[k] == '\n';
        assert s[1..][k - 1] == '\n';
      }
      var j := IndexOfNewline(s[1..]);
      assert s[..j + 1] == [s[0]] + s[1..][..j];
      j + 1
  }

  /** Python's `s.split('\n')`: the pieces between newlines, always at least one. */
  function Split(s: string): (lines: seq<string>)
    ensures |lines| >= 1
    ensures forall k :: 0 <= k < |lines| ==> '\n' !in lines[k]
    ensures Join(lines) == s
    decreases |s|
  {
    if '\n' in s then
      var i := IndexOfNewline(s);
      var rest := Split(s[i + 1..]);
      assert s == s[..i] + "\n" + s[i + 1..];
      [s[..i]] + rest
    else
      [s]
  }

  // ---------------------------------------------------------------------------
  // str.lower()

  predicate IsUpper(ch: char) {
    'A' <= ch <= 'Z'
  }

  function LowerChar(ch: char): char {
    if IsUpper(ch) then (ch as int + 32) as char else ch
  }

  /** `s.lower()` on ASCII: no capital letter is left, each capital becomes its small
      letter (32 code points further on), and every other character is kept. */
  function Lower(s: string): (t: string)
    ensures |t| == |s|
    ensures forall k :: 0 <= k < |t| ==> !IsUpper(t[k])
    ensures forall k :: 0 <= k < |s| && IsUpper(s[k]) ==> t[k] as int == s[k] as int + 32
    ensures forall k :: 0 <= k < |s| && !IsUpper(s[k]) ==> t[k] == s[k]
  {
    seq(|s|, k requires 0 <= k < |s| => LowerChar(s[k]))
  }

  /** The script's guard `'c' in line.lower()` holds exactly when the raw line holds
      a 'c' or a 'C'. */
  lemma LowerHasC(s: string)
    ensures 'c' in Lower(s) <==> 'c' in s || 'C' in s
  {
    var t := Lower(s);
    if 'c' in t {
      var k :| 0 <= k < |t| && t[k] == 'c';
      assert s[k] == 'c' || s[k] == 'C';
    }
    if 'c' in s {
      var k :| 0 <= k < |s| && s[k] == 'c';
      assert t[k] == 'c';
    }
    if 'C' in s {
      var k :| 0 <= k < |s| && s[k] == 'C';
      assert t[k] == 'c';
    }
  }

  /** Lower-casing leaves the text of a reading alone: it holds no letters. */
  lemma LowerKeepsNumeral(g: string)
    requires IsNumeral(g)
    ensures Lower(g) == g
  {
    assert forall k :: 0 <= k < |g| ==> !IsUpper(g[k]);
  }

  /** A match in the lower-cased line is there in the raw line too, digits for
      digits, followed by a 'c' or a 'C': the reading is the line's own text. */
  lemma LowerMatchInOriginal(line: string, i: nat, g: string)
    requires MatchAt(Lower(line), i, g)
    ensures line[i..i + |g|] == g
    ensures line[i + |g|] == 'c' || line[i + |g|] == 'C'
  {
    var t := Lower(line);
    forall k | 0 <= k < |g|
      ensures line[i + k] == g[k]
    {
      assert t[i + k] == g[k];
    }
  }

  // ---------------------------------------------------------------------------
  // re.search(r'(\d+\.?\d*)c', s)

  predicate IsDigit(ch: char) {
    '0' <= ch <= '9'
  }

  /** The strings `\d+\.?\d*` accepts: a leading digit, then digits with at most one '.'. */
  predicate IsNumeral(g: string) {
    |g| >= 1 && IsDigit(g[0]) &&
    (forall k :: 0 <= k < |g| ==> IsDigit(g[k]) || g[k] == '.') &&
    (forall j, k :: 0 <= j < k < |g| ==> !(g[j] == '.' && g[k] == '.'))
  }

  /** The pattern matches `s` at position i, capturing g. */
  predicate MatchAt(s: string, i: int, g: string) {
    0 <= i && i + |g| < |s| && s[i..i + |g|] == g && s[i + |g|] == 'c' && IsNumeral(g)
  }

  /** A match object: where it starts and the text of group 1. */
  datatype Match = Match(start: nat, group: string)

  /** At a given start the pattern can capture only one string: the character after
      the group is 'c', which is neither a digit nor a '.'. */
  lemma MatchAtUnique(s: string, i: int, g1: string, g2: string)
    requires MatchAt(s, i, g1) && MatchAt(s, i, g2)
    ensures g1 == g2
  {
  }

  /** The end of the run of digits starting at i. */
  function DigitsEnd(s: string, i: nat): (j: nat)
    requires i <= |s|
    ensures i <= j <= |s|
    ensures forall k :: i <= k < j ==> IsDigit(s[k])
    ensures j == |s| || !IsDigit(s[j])
    decreases |s| - i
  {
    if i < |s| && IsDigit(s[i]) then DigitsEnd(s, i + 1) else i
  }

  /** The pattern tried at position i the way the regex engine does: `\d+` takes the
      whole digit run, `\.?` a following '.', `\d*` the next digit run, then 'c'. */
  function MatchHere(s: string, i: nat): (r: Option<string>)
    requires i <= |s|
    ensures r.Some? ==> MatchAt(s, i, r.value)
  {
    var j := DigitsEnd(s, i);
    if j == i || j == |s| then None
    else if s[j] == 'c' then Some(s[i..j])
    else if s[j] == '.' then
      var k := DigitsEnd(s, j + 1);
      if k < |s| && s[k] == 'c' then
        assert forall a :: i <= a < k && a != j ==> IsDigit(s[a]);
        Some(s[i..k])
      else None
    else None
  }

  /** Backtracking finds no other match: whenever the pattern matches at i, MatchHere finds it. */
  lemma MatchHereComplete(s: string, i: nat, g: string)
    requires i <= |s| && MatchAt(s, i, g)
    ensures MatchHere(s, i) == Some(g)
  {
    var e := i + |g|;
    var j := DigitsEnd(s, i);
    assert IsDigit(s[i]) by { assert s[i] == g[0]; }
    assert forall a :: i <= a < e ==> s[a] == g[a - i];
    // the digit run cannot pass the 'c' that ends the match
    assert j <= e;
    if j < e {
      assert s[j] == '.';
      var k := DigitsEnd(s, j + 1);
      assert k <= e;
      assert k == e;
    }
    MatchAtUnique(s, i, MatchHere(s, i).value, g);
  }

  /** Leftmost search from position i onwards. */
  function SearchFrom(s: string, i: nat): (m: Option<Match>)
    requires i <= |s|
    ensures m.Some? ==> i <= m.value.start && MatchAt(s, m.value.start, m.value.group)
    ensures m.Some? ==> forall j, g :: i <= j < m.value.start ==> !MatchAt(s, j, g)
    ensures m.None? ==> forall j, g :: i <= j ==> !MatchAt(s, j, g)
    decreases |s| - i
  {
    if i == |s| then None
    else
      match MatchHere(s, i)
      case Some(g) => Some(Match(i, g))
      case None =>
        assert forall g :: !MatchAt(s, i, g) by {
          forall g | MatchAt(s, i, g) ensures false {
            MatchHereComplete(s, i, g);
          }
        }
        SearchFrom(s, i + 1)
  }

  /** `re.search(r'(\d+\.?\d*)c', s)`: the leftmost match, or None when there is none. */
  function Search(s: string): (m: Option<Match>)
    ensures m.Some? ==> MatchAt(s, m.value.start, m.value.group)
    ensures m.Some? ==> forall j, g :: 0 <= j < m.value.start ==> !MatchAt(s, j, g)
    ensures m.None? <==> forall j, g :: !MatchAt(s, j, g)
  {
    SearchFrom(s, 0)
  }

  /** A line with no 'c' in it cannot match, so the script's `'c' in line` guard skips
      only lines the regex would reject anyway. */
  lemma NoLetterCNoMatch(s: string)
    requires 'c' !in s
    ensures Search(s).None?
  {
  }

  // ---------------------------------------------------------------------------
  // get_gpu_temp

  /** The reading one line gives: the group of the leftmost match in the lower-cased line. */
  function LineReading(line: string): (g: Option<string>)
    ensures g.Some? ==> IsNumeral(g.value)
  {
    match Search(Lower(line))
    case Some(m) => Some(m.group)
    case None => None
  }

  /** The reading taken from a list of lines: that of the first line giving one. */
  function Reading(lines: seq<string>): (r: Option<string>)
    ensures r.Some? ==> IsNumeral(r.value)
  {
    if lines == [] then None
    else if LineReading(lines[0]).Some? then LineReading(lines[0])
    else Reading(lines[1..])
  }

  /** No line gives a reading exactly when the list gives none. */
  lemma {:induction false} ReadingNone(lines: seq<string>)
    ensures Reading(lines).None? <==> forall k :: 0 <= k < |lines| ==> LineReading(lines[k]).None?
  {
    if lines != [] {
      ReadingNone(lines[1..]);
      assert forall k :: 1 <= k < |lines| ==> lines[k] == lines[1..][k - 1];
    }
  }

  /** The list's reading is that of the first line giving one. */
  lemma {:induction false} ReadingFirst(lines: seq<string>, k: nat)
    requires k < |lines| && LineReading(lines[k]).Some?
    requires forall j :: 0 <= j < k ==> LineReading(lines[j]).None?
    ensures Reading(lines) == LineReading(lines[k])
  {
    if k > 0 {
      assert forall j :: 0 <= j < k - 1 ==> lines[1..][j] == lines[j + 1];
      ReadingFirst(lines[1..], k - 1);
    }
  }

  /** The reading for the tool's whole output (None when the tool could not be run). */
  function TemperatureOf(stdout: Option<string>): (r: Option<string>)
    ensures r.Some? ==> IsNumeral(r.value)
    ensures stdout.None? ==> r.None?
  {
    if stdout.None? then None else Reading(Split(stdout.value))
  }

  /** The body of the scanning loop for one line: lower-case it and, when it holds a
      'c', search it. */
  method CheckLine(raw: string) returns (g: Option<string>)
    ensures g == LineReading(raw)
  {
    var line := Lower(raw);
    if 'c' in line {
      var m := Search(line);
      if m.Some? {
        return Some(m.value.group);
      }
    } else {
      NoLetterCNoMatch(line);
    }
    return None;
  }

  /** `get_gpu_temp`: scans the lines in order and returns at the first one that holds
      a 'c' and matches. The reading is the matched digit text; its conversion with
      `float` cannot fail on such text and is not modelled. */
  method GpuTemp(stdout: Option<string>) returns (t: Option<string>)
    ensures t == TemperatureOf(stdout)
    ensures t.Some? ==> IsNumeral(t.value)
  {
    if stdout.None? {
      return None;
    }
    var lines := Split(stdout.value);
    for i := 0 to |lines|
      invariant Reading(lines) == Reading(lines[i..])
    {
      assert lines[i..][1..] == lines[i + 1..];
      var g := CheckLine(lines[i]);
      if g.Some? {
        return g;
      }
    }
    assert lines[|lines|..] == [];
    return None;
  }
}
