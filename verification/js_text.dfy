/** JavaScript string and array operations the extension relies on, modelled on
    `seq<char>`: `split`/`join` with a one-character separator, `includes`, the
    `\s` and `.` character classes of regular expressions, whitespace trimming,
    assignment past the end of an array, and `Number.prototype.toString`. */
module JsText {
  import opened Js

  // ---------------------------------------------------------------------------
  // Character classes
  // ---------------------------------------------------------------------------

  /** The LineTerminator code points: the characters `.` refuses to match. */
  predicate IsLineTerminator(c: char)
  {
    c == '\n' || c == '\r' || c == '\U{2028}' || c == '\U{2029}'
  }

  /** The `\s` class: WhiteSpace and LineTerminator code points. */
  predicate IsSpace(c: char)
  {
    || c == '\t' || c == '\U{000B}' || c == '\U{000C}' || c == ' '
    || c == '\U{00A0}' || c == '\U{1680}' || ('\U{2000}' <= c <= '\U{200A}')
    || c == '\U{202F}' || c == '\U{205F}' || c == '\U{3000}' || c == '\U{FEFF}'
    || IsLineTerminator(c)
  }

  predicate AllSpace(s: string)
  {
    forall k :: 0 <= k < |s| ==> IsSpace(s[k])
  }

  predicate NoTerminator(s: string)
  {
    forall k :: 0 <= k < |s| ==> !IsLineTerminator(s[k])
  }

  // ---------------------------------------------------------------------------
  // Whitespace runs and trimming
  // ---------------------------------------------------------------------------

  /** Length of the longest whitespace prefix: where a greedy `^\s*` stops. */
  function SpaceRun(s: string): (n: nat)
    ensures n <= |s|
    ensures AllSpace(s[..n])
    ensures n < |s| ==> !IsSpace(s[n])
  {
    if |s| == 0 || !IsSpace(s[0]) then 0
    else
      var n := 1 + SpaceRun(s[1..]);
      assert forall k :: 1 <= k < n ==> s[..n][k] == s[1..][..n - 1][k - 1];
      n
  }

  /** A whitespace prefix never reaches past the longest one. */
  lemma {:induction false} SpacePrefixWithinRun(s: string, j: int)
    requires 0 <= j <= |s| && AllSpace(s[..j])
    ensures j <= SpaceRun(s)
    decreases j
  {
    if j > 0 {
      assert s[..j][0] == s[0];
      assert s[1..][..j - 1] == s[..j][1..];
      SpacePrefixWithinRun(s[1..], j - 1);
    }
  }

  lemma AllSpaceConcat(u: string, v: string)
    requires AllSpace(u) && AllSpace(v)
    ensures AllSpace(u + v)
  {
  }

  /** The longest whitespace prefix ends at the first non-whitespace character. */
  lemma SpaceRunStopsAt(s: string, i: int)
    requires 0 <= i < |s| && AllSpace(s[..i]) && !IsSpace(s[i])
    ensures SpaceRun(s) == i
    decreases i
  {
    if i > 0 {
      assert s[..i][0] == s[0];
      assert s[1..][..i - 1] == s[..i][1..];
      SpaceRunStopsAt(s[1..], i - 1);
    }
  }

  /** Length of the longest whitespace suffix. */
  function TrailingSpaceRun(s: string): (n: nat)
    ensures n <= |s|
    ensures AllSpace(s[|s| - n..])
    ensures n < |s| ==> !IsSpace(s[|s| - n - 1])
  {
    if |s| == 0 || !IsSpace(s[|s| - 1]) then 0
    else
      var t := s[..|s| - 1];
      var m := TrailingSpaceRun(t);
      assert s[|s| - 1 - m..] == t[|t| - m..] + [s[|s| - 1]];
      AllSpaceConcat(t[|t| - m..], [s[|s| - 1]]);
      assert 1 + m < |s| ==> s[|s| - m - 2] == t[|t| - m - 1];
      1 + m
  }

  /** `s.replace` of the pattern `^\s\s*` with the empty string: the
      whitespace prefix is dropped and the rest is kept as it was. */
  function TrimStart(s: string): (t: string)
    ensures |t| <= |s| && t == s[|s| - |t|..]
    ensures AllSpace(s[..|s| - |t|])
    ensures |t| > 0 ==> !IsSpace(t[0])
  {
    s[SpaceRun(s)..]
  }

  /** `s.replace` of the pattern `\s\s*$` with the empty string: the
      leftmost position from which only whitespace remains is where the
      trailing run begins, and that run is dropped. */
  function TrimEnd(s: string): (t: string)
    ensures |t| <= |s| && t == s[..|t|]
    ensures AllSpace(s[|t|..])
    ensures |t| > 0 ==> !IsSpace(t[|t| - 1])
  {
    s[..|s| - TrailingSpaceRun(s)]
  }

  /** The two replacements `getScenarioName` chains, leading run first. */
  function Trim(s: string): (t: string)
    ensures |t| == 0 || (!IsSpace(t[0]) && !IsSpace(t[|t| - 1]))
    ensures exists a, b :: Core(s, a, b) && t == s[a..b]
  {
    var a := SpaceRun(s);
    var u := s[a..];
    var b := a + |u| - TrailingSpaceRun(u);
    assert s[b..] == u[|u| - TrailingSpaceRun(u)..];
    assert Core(s, a, b) && s[a..b] == TrimEnd(u);
    TrimEnd(u)
  }

  /** `s[a..b]` is `s` with a whitespace prefix and a whitespace suffix removed. */
  predicate Core(s: string, a: int, b: int)
  {
    0 <= a <= b <= |s| && AllSpace(s[..a]) && AllSpace(s[b..])
  }

  /** `Trim` is the only way to strip whitespace from both ends so that no
      whitespace remains at either end: its result is determined by those
      two properties alone. */
  lemma TrimUnique(s: string, a: int, b: int)
    requires Core(s, a, b)
    requires a == b || (!IsSpace(s[a]) && !IsSpace(s[b - 1]))
    ensures Trim(s) == s[a..b]
  {
    var t := Trim(s);
    var a', b' :| Core(s, a', b') && t == s[a'..b'];
    if a == b {
      // all of `s` is whitespace, so nothing non-blank can survive
      EmptyCoreAllSpace(s, a);
    } else {
      CoreEnds(s, a, b, a', b');
      CoreEnds(s, a', b', a, b);
    }
  }

  /** Helper for `TrimUnique`: an empty core leaves only whitespace around it. */
  lemma EmptyCoreAllSpace(s: string, a: int)
    requires Core(s, a, a)
    ensures AllSpace(s)
  {
    forall k | 0 <= k < |s| ensures IsSpace(s[k]) {
      if k < a { assert s[..a][k] == s[k]; } else { assert s[a..][k - a] == s[k]; }
    }
  }

  /** Helper for `TrimUnique`: a blank-ended core's bounds are tight against any other core. */
  lemma CoreEnds(s: string, a: int, b: int, a': int, b': int)
    requires Core(s, a, b) && a < b && !IsSpace(s[a]) && !IsSpace(s[b - 1])
    requires Core(s, a', b')
    requires a' == b' || (!IsSpace(s[a']) && !IsSpace(s[b' - 1]))
    ensures a' == b' || (a' == a && b' == b)
    ensures a' < b'
  {
  }

  // ---------------------------------------------------------------------------
  // Substrings
  // ---------------------------------------------------------------------------

  predicate OccursAt(s: string, m: string, i: int)
  {
    0 <= i && i + |m| <= |s| && s[i..i + |m|] == m
  }

  /** The leftmost occurrence of `m` at or after `from`, or `None`. */
  function IndexOf(s: string, m: string, from: nat): (r: Option<nat>)
    ensures r.Some? ==> from <= r.value && OccursAt(s, m, r.value)
    ensures r.Some? ==> forall j :: from <= j < r.value ==> !OccursAt(s, m, j)
    ensures r.None? ==> forall j :: from <= j ==> !OccursAt(s, m, j)
    decreases |s| - from
  {
    if from + |m| > |s| then None
    else if s[from..from + |m|] == m then Some(from)
    else IndexOf(s, m, from + 1)
  }

  /** `s.includes(m)`. */
  function Includes(s: string, m: string): (b: bool)
    ensures b <==> exists i :: OccursAt(s, m, i)
  {
    IndexOf(s, m, 0).Some?
  }

  // ---------------------------------------------------------------------------
  // split and join with a one-character separator
  // ---------------------------------------------------------------------------

  /** `parts.join(sep)`; an empty array joins to the empty string. */
  function Join(parts: seq<string>, sep: char): (s: string)
  {
    if |parts| == 0 then ""
    else if |parts| == 1 then parts[0]
    else parts[0] + [sep] + Join(parts[1..], sep)
  }

  /** A join begins with its first piece and, when no piece holds the
      separator, holds exactly one separator between each two pieces. */
  lemma {:induction false} JoinShape(parts: seq<string>, sep: char)
    requires |parts| >= 1
    ensures |parts[0]| <= |Join(parts, sep)| && Join(parts, sep)[..|parts[0]|] == parts[0]
    ensures (forall k :: 0 <= k < |parts| ==> sep !in parts[k]) ==>
              multiset(Join(parts, sep))[sep] == |parts| - 1
    decreases |parts|
  {
    if |parts| > 1 {
      var rest := Join(parts[1..], sep);
      JoinShape(parts[1..], sep);
      assert Join(parts, sep) == parts[0] + [sep] + rest;
      assert (parts[0] + [sep] + rest)[..|parts[0]|] == parts[0];
      if forall k :: 0 <= k < |parts| ==> sep !in parts[k] {
        assert forall k :: 0 <= k < |parts| - 1 ==> parts[1..][k] == parts[k + 1];
        assert multiset(parts[0] + [sep] + rest) == multiset(parts[0]) + multiset([sep]) + multiset(rest);
      }
    }
  }

  /** The first index of `c` in `s`. */
  function FirstIndex(s: string, c: char): (r: Option<nat>)
    ensures r.Some? ==> r.value < |s| && s[r.value] == c && c !in s[..r.value]
    ensures r.None? ==> c !in s
  {
    if |s| == 0 then None
    else if s[0] == c then Some(0)
    else
      match FirstIndex(s[1..], c)
      case None => None
      case Some(i) =>
        assert s[..i + 1] == [s[0]] + s[1..][..i];
        Some(i + 1)
  }

  /** An occurrence of `c` with none before it is the first. */
  lemma {:induction false} FirstIndexAt(s: string, c: char, i: nat)
    requires i < |s| && s[i] == c && c !in s[..i]
    ensures FirstIndex(s, c) == Some(i)
    decreases i
  {
    if i > 0 {
      assert s[0] == s[..i][0];
      assert s[1..][..i - 1] == s[..i][1..];
      FirstIndexAt(s[1..], c, i - 1);
    }
  }

  /** `s.split(sep)`: the text up to the first separator, then the pieces of
      the rest. There is one piece more than there are separators (adjacent
      separators giving empty pieces), no piece holds the separator, and
      joining the pieces gives `s` back. */
  function Split(s: string, sep: char): (parts: seq<string>)
    ensures |parts| == multiset(s)[sep] + 1
    ensures forall k :: 0 <= k < |parts| ==> sep !in parts[k]
    ensures Join(parts, sep) == s
    decreases |s|
  {
    match FirstIndex(s, sep)
    case None =>
      assert multiset(s)[sep] == 0;
      [s]
    case Some(i) =>
      var rest := Split(s[i + 1..], sep);
      SplitStep(s, sep, i, rest);
      [s[..i]] + rest
  }

  /** Helper for `Split`: the first piece and the pieces after it. */
  lemma SplitStep(s: string, sep: char, i: nat, rest: seq<string>)
    requires i < |s| && s[i] == sep && sep !in s[..i]
    requires |rest| == multiset(s[i + 1..])[sep] + 1
    requires Join(rest, sep) == s[i + 1..]
    ensures |[s[..i]] + rest| == multiset(s)[sep] + 1
    ensures Join([s[..i]] + rest, sep) == s
  {
    var parts := [s[..i]] + rest;
    assert parts[1..] == rest;
    assert s == s[..i] + [sep] + s[i + 1..];
    assert multiset(s) == multiset(s[..i]) + multiset([sep]) + multiset(s[i + 1..]);
    assert multiset(s[..i])[sep] == 0;
  }

  /** A piece without the separator is split back into itself. */
  lemma SplitPiece(p: string, sep: char)
    requires sep !in p
    ensures Split(p, sep) == [p]
  {
  }

  /** Splitting stops at the first separator. */
  lemma SplitAtSeparator(p: string, t: string, sep: char)
    requires sep !in p
    ensures Split(p + [sep] + t, sep) == [p] + Split(t, sep)
  {
    var s := p + [sep] + t;
    assert s[..|p|] == p;
    FirstIndexAt(s, sep, |p|);
    assert s[|p| + 1..] == t;
  }

  /** `split` undoes `join` when no piece holds the separator. */
  lemma {:induction false} SplitJoin(parts: seq<string>, sep: char)
    requires |parts| >= 1
    requires forall k :: 0 <= k < |parts| ==> sep !in parts[k]
    ensures Split(Join(parts, sep), sep) == parts
    decreases |parts|
  {
    if |parts| == 1 {
      SplitPiece(parts[0], sep);
    } else {
      SplitJoin(parts[1..], sep);
      SplitAtSeparator(parts[0], Join(parts[1..], sep), sep);
      assert [parts[0]] + parts[1..] == parts;
    }
  }

  /** Where piece `k` begins in `Join(parts, sep)`. */
  function PieceStart(parts: seq<string>, k: nat): (n: nat)
    requires k < |parts|
  {
    if k == 0 then 0 else |parts[0]| + 1 + PieceStart(parts[1..], k - 1)
  }

  /** Each piece of a join sits, unchanged, at its offset in the joined text. */
  lemma {:induction false} PieceInJoin(parts: seq<string>, sep: char, k: nat)
    requires k < |parts|
    ensures PieceStart(parts, k) + |parts[k]| <= |Join(parts, sep)|
    ensures Join(parts, sep)[PieceStart(parts, k)..PieceStart(parts, k) + |parts[k]|] == parts[k]
    decreases k
  {
    if k > 0 {
      PieceInJoin(parts[1..], sep, k - 1);
      var o := |parts[0]| + 1;
      var j := Join(parts, sep);
      assert j == parts[0] + [sep] + Join(parts[1..], sep);
      assert j[o..] == Join(parts[1..], sep);
    } else if |parts| > 1 {
      assert Join(parts, sep) == parts[0] + ([sep] + Join(parts[1..], sep));
    }
  }

  /** A text occurring inside one piece occurs in the joined text. */
  lemma OccursInPiece(parts: seq<string>, sep: char, k: nat, m: string, i: int)
    requires k < |parts| && OccursAt(parts[k], m, i)
    ensures OccursAt(Join(parts, sep), m, PieceStart(parts, k) + i)
  {
    PieceInJoin(parts, sep, k);
    var o := PieceStart(parts, k);
    var j := Join(parts, sep);
    var piece := j[o..o + |parts[k]|];
    assert piece == parts[k];
    assert piece[i..i + |m|] == m;
    assert j[o + i..o + i + |m|] == piece[i..i + |m|];
  }

  // ---------------------------------------------------------------------------
  // Array element assignment
  // ---------------------------------------------------------------------------

  /** The text `join` renders for index `k` of `slots`: a missing element
      (a hole) renders as the empty string. */
  function SlotText(slots: seq<string>, k: nat): (t: string)
  {
    if k < |slots| then slots[k] else ""
  }

  /** `a[i] = v` on an array of strings: past the end the array grows to
      `i + 1` elements, leaving holes in between. */
  function SetSlot(slots: seq<string>, i: nat, v: string): (r: seq<string>)
    ensures |r| == Max(|slots|, i + 1)
    ensures r[i] == v
    ensures forall k :: 0 <= k < |r| && k != i ==> r[k] == SlotText(slots, k)
  {
    if i < |slots| then slots[i := v]
    else slots + seq(i - |slots|, _ => "") + [v]
  }

  // ---------------------------------------------------------------------------
  // Decimal numerals
  // ---------------------------------------------------------------------------

  predicate IsDigit(c: char)
  {
    '0' <= c <= '9'
  }

  predicate AllDigits(s: string)
  {
    forall k :: 0 <= k < |s| ==> IsDigit(s[k])
  }

  function DigitChar(d: nat): (c: char)
    requires d < 10
  {
    "0123456789"[d]
  }

  /** `n.toString()` for a non-negative integer: a non-empty numeral with no
      leading zero. */
  function DecimalString(n: nat): (s: string)
    ensures 1 <= |s|
    ensures AllDigits(s)
    ensures 1 < |s| ==> s[0] != '0'
  {
    if n < 10 then [DigitChar(n)]
    else DecimalString(n / 10) + [DigitChar(n % 10)]
  }

  /** The number a numeral denotes, read left to right. */
  function DecimalValue(s: string): (v: int)
    requires AllDigits(s)
  {
    if |s| == 0 then 0
    else DecimalValue(s[..|s| - 1]) * 10 + (s[|s| - 1] as int - '0' as int)
  }

  /** The numeral `toString` writes reads back as the number. */
  lemma {:induction false} DecimalRoundTrip(n: nat)
    ensures DecimalValue(DecimalString(n)) == n
    decreases n
  {
    var s := DecimalString(n);
    if n >= 10 {
      DecimalRoundTrip(n / 10);
      assert s[..|s| - 1] == DecimalString(n / 10);
    }
  }

  /** Different numbers get different numerals. */
  lemma DecimalStringInjective(m: nat, n: nat)
    requires m != n
    ensures DecimalString(m) != DecimalString(n)
  {
    DecimalRoundTrip(m);
    DecimalRoundTrip(n);
  }
}
