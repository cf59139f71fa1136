/** String vocabulary shared by the chunker, the keyword store and the
    answering step: Python's whitespace set, maximal runs of characters
    (`str.split()` and `re.findall(r"\w+", ...)`), joining, stripping,
    lower-casing, substring search and decimal rendering of numbers. */
module Text {

  /** The characters Python's `str.split()` and `str.strip()` treat as
      whitespace when called without arguments. */
  predicate IsSpace(c: char) {
    || c == ' ' || c == '\t' || c == '\n' || c == '\r'
    || c == '\U{0B}' || c == '\U{0C}'
    || ('\U{1C}' <= c <= '\U{1F}')
    || c == '\U{85}' || c == '\U{A0}' || c == '\U{1680}'
    || ('\U{2000}' <= c <= '\U{200A}')
    || c == '\U{2028}' || c == '\U{2029}' || c == '\U{202F}'
    || c == '\U{205F}' || c == '\U{3000}'
  }

  predicate NotSpace(c: char) {
    !IsSpace(c)
  }

  /** Characters matched by the regular-expression class `\w`, restricted
      to ASCII: letters, digits and underscore. */
  predicate IsWordChar(c: char) {
    ('a' <= c <= 'z') || ('A' <= c <= 'Z') || ('0' <= c <= '9') || c == '_'
  }

  predicate IsUpper(c: char) {
    'A' <= c <= 'Z'
  }

  predicate AllSpace(s: string) {
    forall i :: 0 <= i < |s| ==> IsSpace(s[i])
  }

  /** `w` is one non-empty run of characters accepted by `inRun`. */
  predicate IsRun(w: string, inRun: char -> bool) {
    |w| > 0 && forall i :: 0 <= i < |w| ==> inRun(w[i])
  }

  // ---------------------------------------------------------------------
  // Maximal runs
  // ---------------------------------------------------------------------

  /** Length of the longest prefix of `s` made only of `inRun` characters. */
  function RunLength(s: string, inRun: char -> bool): (n: nat)
    ensures n <= |s|
    ensures forall i :: 0 <= i < n ==> inRun(s[i])
    ensures n < |s| ==> !inRun(s[n])
  {
    if s == [] || !inRun(s[0]) then 0 else 1 + RunLength(s[1..], inRun)
  }

  /** The maximal runs of `inRun` characters of `s`, left to right. */
  function Runs(s: string, inRun: char -> bool): (r: seq<string>)
    ensures forall k :: 0 <= k < |r| ==> IsRun(r[k], inRun)
    decreases |s|
  {
    if s == [] then []
    else if !inRun(s[0]) then Runs(s[1..], inRun)
    else
      var n := RunLength(s, inRun);
      [s[..n]] + Runs(s[n..], inRun)
  }

  /** The words of `s`, as Python's `s.split()` returns them. */
  function Words(s: string): seq<string> {
    Runs(s, NotSpace)
  }

  /** A string made of one run is that single run. */
  lemma {:induction false} RunsOfRun(w: string, inRun: char -> bool)
    requires IsRun(w, inRun)
    ensures Runs(w, inRun) == [w]
  {
    assert RunLength(w, inRun) == |w| by {
      RunLengthOfRun(w, inRun);
    }
    assert w[..|w|] == w;
    assert w[|w|..] == [];
    assert Runs(w, inRun) == [w[..|w|]] + Runs(w[|w|..], inRun);
  }

  lemma {:induction false} RunLengthOfRun(w: string, inRun: char -> bool)
    requires forall i :: 0 <= i < |w| ==> inRun(w[i])
    ensures RunLength(w, inRun) == |w|
    decreases |w|
  {
    if w != [] {
      RunLengthOfRun(w[1..], inRun);
    }
  }

  /** A run never extends past a character that does not belong to it. */
  lemma {:induction false} RunLengthStops(a: string, c: char, b: string, inRun: char -> bool)
    requires !inRun(c)
    ensures RunLength(a + [c] + b, inRun) <= |a|
    ensures RunLength(a + [c] + b, inRun) == RunLength(a, inRun)
    decreases |a|
  {
    if a != [] && inRun(a[0]) {
      assert (a + [c] + b)[1..] == a[1..] + [c] + b;
      RunLengthStops(a[1..], c, b, inRun);
    }
  }

  /** A character outside the run class separates the runs on either side:
      splitting distributes over it. */
  lemma {:induction false} RunsSeparated(a: string, c: char, b: string, inRun: char -> bool)
    requires !inRun(c)
    ensures Runs(a + [c] + b, inRun) == Runs(a, inRun) + Runs(b, inRun)
    decreases |a|
  {
    var s := a + [c] + b;
    if a == [] {
      assert s[1..] == b;
    } else if !inRun(a[0]) {
      assert s[1..] == a[1..] + [c] + b;
      RunsSeparated(a[1..], c, b, inRun);
    } else {
      var n := RunLength(s, inRun);
      RunLengthStops(a, c, b, inRun);
      assert n == RunLength(a, inRun);
      assert s[..n] == a[..n];
      assert s[n..] == a[n..] + [c] + b;
      RunsSeparated(a[n..], c, b, inRun);
    }
  }

  /** A string has no runs exactly when none of its characters belong to one. */
  lemma {:induction false} RunsEmptyIff(s: string, inRun: char -> bool)
    ensures Runs(s, inRun) == [] <==> forall i :: 0 <= i < |s| ==> !inRun(s[i])
    decreases |s|
  {
    if s != [] && !inRun(s[0]) {
      RunsEmptyIff(s[1..], inRun);
      assert forall i :: 1 <= i < |s| ==> s[i] == s[1..][i - 1];
    }
  }

  /** Every character of every run satisfies `good` when every character of
      the input does. */
  lemma {:induction false} RunsKeep(s: string, inRun: char -> bool, good: char -> bool)
    requires forall i :: 0 <= i < |s| ==> good(s[i])
    ensures forall k, i :: 0 <= k < |Runs(s, inRun)| && 0 <= i < |Runs(s, inRun)[k]| ==> good(Runs(s, inRun)[k][i])
    decreases |s|
  {
    if s == [] {
    } else if !inRun(s[0]) {
      RunsKeep(s[1..], inRun, good);
    } else {
      var n := RunLength(s, inRun);
      RunsKeep(s[n..], inRun, good);
    }
  }

  // ---------------------------------------------------------------------
  // Joining
  // ---------------------------------------------------------------------

  /** Python's `sep.join(ws)`. */
  function Join(ws: seq<string>, sep: string): (r: string)
    ensures ws == [] ==> r == []
    ensures |ws| == 1 ==> r == ws[0]
  {
    if ws == [] then [] else if |ws| == 1 then ws[0] else ws[0] + sep + Join(ws[1..], sep)
  }

  /** Joining runs with a one-character separator outside the run class and
      splitting again gives back the runs. */
  lemma {:induction false} RunsOfJoin(ws: seq<string>, c: char, inRun: char -> bool)
    requires !inRun(c)
    requires forall k :: 0 <= k < |ws| ==> IsRun(ws[k], inRun)
    ensures Runs(Join(ws, [c]), inRun) == ws
    decreases |ws|
  {
    if ws == [] {
    } else if |ws| == 1 {
      RunsOfRun(ws[0], inRun);
    } else {
      RunsSeparated(ws[0], c, Join(ws[1..], [c]), inRun);
      RunsOfRun(ws[0], inRun);
      RunsOfJoin(ws[1..], c, inRun);
      assert ws == [ws[0]] + ws[1..];
    }
  }

  /** `s.split()` recovers the words of `" ".join(words)`. */
  lemma WordsOfJoin(ws: seq<string>)
    requires forall k :: 0 <= k < |ws| ==> IsRun(ws[k], NotSpace)
    ensures Words(Join(ws, " ")) == ws
  {
    RunsOfJoin(ws, ' ', NotSpace);
  }

  // ---------------------------------------------------------------------
  // Stripping
  // ---------------------------------------------------------------------

  /** Python's `s.strip()`: `s` without its leading and trailing whitespace. */
  function Strip(s: string): (r: string)
    ensures |r| <= |s|
    ensures r == [] <==> AllSpace(s)
    ensures r != [] ==> !IsSpace(r[0]) && !IsSpace(r[|r| - 1])
    decreases |s|
  {
    if s == [] then []
    else if IsSpace(s[0]) then
      var r := Strip(s[1..]);
      assert AllSpace(s[1..]) ==> AllSpace(s) by {
        if AllSpace(s[1..]) {
          assert forall i :: 1 <= i < |s| ==> s[i] == s[1..][i - 1];
        }
      }
      r
    else if IsSpace(s[|s| - 1]) then
      Strip(s[..|s| - 1])
    else s
  }

  /** `r` is the slice `s[i..j]` and only whitespace lies outside it. */
  predicate TrimmedAt(s: string, r: string, i: int, j: int) {
    0 <= i <= j <= |s| && r == s[i..j] && AllSpace(s[..i]) && AllSpace(s[j..])
  }

  lemma TrimmedAfterSpace(s: string, r: string, i: int, j: int)
    requires s != [] && IsSpace(s[0]) && TrimmedAt(s[1..], r, i, j)
    ensures TrimmedAt(s, r, i + 1, j + 1)
  {
    assert s[1..][i..j] == s[i + 1..j + 1];
    assert s[..i + 1] == [s[0]] + s[1..][..i];
    assert s[j + 1..] == s[1..][j..];
  }

  lemma TrimmedBeforeSpace(s: string, r: string, i: int, j: int)
    requires s != [] && IsSpace(s[|s| - 1]) && TrimmedAt(s[..|s| - 1], r, i, j)
    ensures TrimmedAt(s, r, i, j)
  {
    var t := s[..|s| - 1];
    assert t[i..j] == s[i..j];
    assert t[..i] == s[..i];
    assert s[j..] == t[j..] + [s[|s| - 1]];
  }

  /** What `Strip` removes is whitespace at the two ends: the result is a
      slice of the text with only whitespace before and after it. */
  lemma {:induction false} StripIsTrim(s: string)
    ensures exists i, j :: TrimmedAt(s, Strip(s), i, j)
    decreases |s|
  {
    if s == [] {
      assert TrimmedAt(s, Strip(s), 0, 0);
    } else if IsSpace(s[0]) {
      StripIsTrim(s[1..]);
      var i, j :| TrimmedAt(s[1..], Strip(s[1..]), i, j);
      TrimmedAfterSpace(s, Strip(s[1..]), i, j);
      assert Strip(s) == Strip(s[1..]);
    } else if IsSpace(s[|s| - 1]) {
      StripIsTrim(s[..|s| - 1]);
      var i, j :| TrimmedAt(s[..|s| - 1], Strip(s[..|s| - 1]), i, j);
      TrimmedBeforeSpace(s, Strip(s[..|s| - 1]), i, j);
      assert Strip(s) == Strip(s[..|s| - 1]);
    } else {
      assert TrimmedAt(s, Strip(s), 0, |s|);
    }
  }

  /** Stripping twice is stripping once. */
  lemma StripIdempotent(s: string)
    ensures Strip(Strip(s)) == Strip(s)
  {
  }

  /** A text with no whitespace at either end strips to itself. */
  lemma StripKeeps(s: string)
    requires s != [] && !IsSpace(s[0]) && !IsSpace(s[|s| - 1])
    ensures Strip(s) == s
  {
  }

  // ---------------------------------------------------------------------
  // Lower case
  // ---------------------------------------------------------------------

  function LowerChar(c: char): (d: char)
    ensures !IsUpper(d)
    ensures IsWordChar(d) == IsWordChar(c)
  {
    if IsUpper(c) then (c as int + 32) as char else c
  }

  /** Python's `s.lower()` on the ASCII letters. */
  function Lower(s: string): (r: string)
    ensures |r| == |s|
    ensures forall i :: 0 <= i < |r| ==> r[i] == LowerChar(s[i])
  {
    seq(|s|, i requires 0 <= i < |s| => LowerChar(s[i]))
  }

  /** Lower-casing works character by character. */
  lemma LowerAppend(a: string, b: string)
    ensures Lower(a + b) == Lower(a) + Lower(b)
  {
  }

  /** Lower-casing is idempotent. */
  lemma LowerIdempotent(s: string)
    ensures Lower(Lower(s)) == Lower(s)
  {
  }

  // ---------------------------------------------------------------------
  // Substrings
  // ---------------------------------------------------------------------

  predicate OccursAt(s: string, sub: string, i: int) {
    0 <= i && i + |sub| <= |s| && s[i..i + |sub|] == sub
  }

  /** Python's `sub in s`. */
  predicate Contains(s: string, sub: string) {
    exists i | 0 <= i <= |s| - |sub| :: OccursAt(s, sub, i)
  }

  /** A substring of a substring is a substring. */
  lemma ContainsTransitive(s: string, mid: string, sub: string)
    requires Contains(s, mid) && Contains(mid, sub)
    ensures Contains(s, sub)
  {
    var i :| 0 <= i <= |s| - |mid| && OccursAt(s, mid, i);
    var j :| 0 <= j <= |mid| - |sub| && OccursAt(mid, sub, j);
    forall k | 0 <= k < |sub|
      ensures s[i + j..i + j + |sub|][k] == sub[k]
    {
      assert sub[k] == mid[j..j + |sub|][k] == mid[j + k];
      assert mid[j + k] == s[i..i + |mid|][j + k] == s[i + j + k];
    }
    assert s[i + j..i + j + |sub|] == sub;
    assert OccursAt(s, sub, i + j);
  }

  /** Text appended after a match does not hide it. */
  lemma ContainsExtend(s: string, more: string, sub: string)
    requires Contains(s, sub)
    ensures Contains(s + more, sub)
  {
    var i :| 0 <= i <= |s| - |sub| && OccursAt(s, sub, i);
    assert (s + more)[i..i + |sub|] == s[i..i + |sub|];
    assert OccursAt(s + more, sub, i);
  }

  // ---------------------------------------------------------------------
  // Decimal numerals
  // ---------------------------------------------------------------------

  function DigitChar(d: nat): (c: char)
    requires d < 10
    ensures '0' <= c <= '9'
  {
    "0123456789"[d]
  }

  predicate IsDigits(s: string) {
    forall i :: 0 <= i < |s| ==> '0' <= s[i] <= '9'
  }

  /** Python's `str(n)` for a non-negative integer. */
  function NatToString(n: nat): (r: string)
    ensures |r| > 0 && IsDigits(r)
  {
    if n < 10 then [DigitChar(n)] else NatToString(n / 10) + [DigitChar(n % 10)]
  }

  /** Reads a string of decimal digits back as a number. */
  function ParseDigits(s: string): nat
    requires IsDigits(s)
  {
    if s == [] then 0 else 10 * ParseDigits(s[..|s| - 1]) + (s[|s| - 1] as int - '0' as int)
  }

  /** Reading back the decimal rendering of `n` gives `n`. */
  lemma {:induction false} ParseNatToString(n: nat)
    ensures ParseDigits(NatToString(n)) == n
  {
    if n >= 10 {
      var r := NatToString(n);
      assert r[..|r| - 1] == NatToString(n / 10);
      ParseNatToString(n / 10);
      assert "0123456789"[n % 10] as int - '0' as int == n % 10;
    } else {
      assert "0123456789"[n] as int - '0' as int == n;
    }
  }

  /** Distinct numbers have distinct decimal renderings. */
  lemma NatToStringInjective(a: nat, b: nat)
    requires NatToString(a) == NatToString(b)
    ensures a == b
  {
    ParseNatToString(a);
    ParseNatToString(b);
  }
}
