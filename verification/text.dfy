/** The parts of java.lang.String the vehicle model relies on: `trim`, the
    blank test `trim().isEmpty()`, `split(",", -1)`, the ASCII part of
    case-insensitive comparison, and the natural order of `compareTo`
    (lexicographic on UTF-16 code units, a proper prefix first). */
module Text {

  /** True when `trim()` leaves nothing: every character is at or below U+0020. */
  predicate IsBlank(s: string) {
    forall i | 0 <= i < |s| :: s[i] <= ' '
  }

  /** `s` without its leading characters at or below U+0020. */
  function TrimStart(s: string): string {
    if |s| > 0 && s[0] <= ' ' then TrimStart(s[1..]) else s
  }

  /** `s` without its trailing characters at or below U+0020. */
  function TrimEnd(s: string): string {
    if |s| > 0 && s[|s| - 1] <= ' ' then TrimEnd(s[..|s| - 1]) else s
  }

  /** Java's `String.trim`. */
  function Trim(s: string): string {
    TrimEnd(TrimStart(s))
  }

  /** `TrimStart` drops a blank prefix and stops at the first character
      above U+0020. */
  lemma {:induction false} TrimStartDropsBlankPrefix(s: string)
    ensures var r := TrimStart(s);
            && |r| <= |s| && r == s[|s| - |r|..] && IsBlank(s[..|s| - |r|])
            && (|r| > 0 ==> r[0] > ' ')
  {
    if |s| > 0 && s[0] <= ' ' {
      TrimStartDropsBlankPrefix(s[1..]);
      var r := TrimStart(s[1..]);
      assert s[..|s| - |r|] == [s[0]] + s[1..][..|s| - 1 - |r|];
    }
  }

  /** `TrimEnd` drops a blank suffix and stops at the last character above
      U+0020. */
  lemma {:induction false} TrimEndDropsBlankSuffix(s: string)
    ensures var r := TrimEnd(s);
            && |r| <= |s| && r == s[..|r|] && IsBlank(s[|r|..])
            && (|r| > 0 ==> r[|r| - 1] > ' ')
  {
    if |s| > 0 && s[|s| - 1] <= ' ' {
      TrimEndDropsBlankSuffix(s[..|s| - 1]);
      var r := TrimEnd(s[..|s| - 1]);
      assert s[|r|..] == s[..|s| - 1][|r|..] + [s[|s| - 1]];
    }
  }

  /** `trim` cuts `s` into a blank prefix, the result and a blank suffix;
      the result is empty exactly for a blank `s`, and otherwise begins and
      ends above U+0020. */
  lemma TrimStrips(s: string)
    ensures var r := Trim(s);
            var k := |s| - |TrimStart(s)|;
            && |r| <= |TrimStart(s)| <= |s|
            && IsBlank(s[..k]) && s[k..k + |r|] == r && IsBlank(s[k + |r|..])
            && (|r| == 0 <==> IsBlank(s))
            && (|r| > 0 ==> r[0] > ' ' && r[|r| - 1] > ' ')
  {
    var t := TrimStart(s);
    var r := Trim(s);
    var k := |s| - |t|;
    TrimStartDropsBlankPrefix(s);
    TrimEndDropsBlankSuffix(t);
    assert s[k..k + |r|] == t[..|r|];
    assert s[k + |r|..] == t[|r|..];
    if |r| == 0 {
      assert |t| == 0;
      assert s == s[..k];
    } else {
      assert r[0] == s[k];
    }
  }

  /** A string with no blank at either end is its own trim. */
  lemma TrimUnpadded(s: string)
    requires |s| == 0 || (s[0] > ' ' && s[|s| - 1] > ' ')
    ensures Trim(s) == s
  {
  }

  /** The index of the first `c` in `s`, or `|s|` when there is none. */
  function IndexOf(s: string, c: char): (i: nat)
    ensures i <= |s|
    ensures i < |s| ==> s[i] == c
    ensures forall k | 0 <= k < i :: s[k] != c
  {
    if |s| == 0 then 0
    else if s[0] == c then 0
    else 1 + IndexOf(s[1..], c)
  }

  /** Java's `s.split(sep, -1)` for a one-character, non-meta separator:
      every field between separators, trailing empty fields included. */
  function Split(s: string, sep: char): (parts: seq<string>)
    ensures |parts| >= 1
    ensures forall k | 0 <= k < |parts| :: sep !in parts[k]
    decreases |s|
  {
    var i := IndexOf(s, sep);
    if i == |s| then
      [s]
    else
      [s[..i]] + Split(s[i + 1..], sep)
  }

  /** The fields of `parts` written one after another, separated by `sep`. */
  function Join(parts: seq<string>, sep: char): string
    requires |parts| >= 1
  {
    if |parts| == 1 then parts[0] else parts[0] + [sep] + Join(parts[1..], sep)
  }

  lemma {:induction false} IndexOfFirst(a: string, c: char, b: string)
    requires c !in a
    ensures IndexOf(a + [c] + b, c) == |a|
  {
    if |a| > 0 {
      assert (a + [c] + b)[1..] == a[1..] + [c] + b;
      IndexOfFirst(a[1..], c, b);
    }
  }

  /** Splitting a joined record gives back its fields, provided no field
      contains the separator. */
  lemma {:induction false} SplitJoin(parts: seq<string>, sep: char)
    requires |parts| >= 1
    requires forall k | 0 <= k < |parts| :: sep !in parts[k]
    ensures Split(Join(parts, sep), sep) == parts
  {
    if |parts| > 1 {
      var s := Join(parts, sep);
      var rest := Join(parts[1..], sep);
      assert s == parts[0] + [sep] + rest;
      IndexOfFirst(parts[0], sep, rest);
      assert s[..|parts[0]|] == parts[0];
      assert s[|parts[0]| + 1..] == rest;
      SplitJoin(parts[1..], sep);
      assert parts == [parts[0]] + parts[1..];
    }
  }

  /** Joining the fields of a split line gives back the line. */
  lemma {:induction false} JoinSplit(s: string, sep: char)
    ensures Join(Split(s, sep), sep) == s
    decreases |s|
  {
    var i := IndexOf(s, sep);
    var parts := Split(s, sep);
    if i < |s| {
      var tail := Split(s[i + 1..], sep);
      assert parts == [s[..i]] + tail;
      JoinSplit(s[i + 1..], sep);
      assert parts[1..] == tail;
      assert Join(parts, sep) == s[..i] + [sep] + s[i + 1..];
      assert s == s[..i] + [sep] + s[i + 1..];
    }
  }

  /** The ASCII part of Java's per-character case folding. */
  function LowerAscii(c: char): char {
    if 'A' <= c <= 'Z' then (c as int + 32) as char else c
  }

  /** `s` with every ASCII capital replaced by its small letter. */
  function FoldCase(s: string): string {
    seq(|s|, i requires 0 <= i < |s| => LowerAscii(s[i]))
  }

  /** Java's `Boolean.parseBoolean`: true exactly for "true" in any letter case. */
  function ParseBoolean(s: string): (b: bool)
    ensures b ==> |s| == 4
    ensures s == "true" || s == "TRUE" ==> b
    ensures s == "false" ==> !b
  {
    FoldCase(s) == "true"
  }

  /** How `%b` renders a boolean. */
  function ShowBoolean(b: bool): string {
    if b then "true" else "false"
  }

  lemma ParseShowBoolean(b: bool)
    ensures ParseBoolean(ShowBoolean(b)) == b
  {
    if !b {
      assert FoldCase("false")[0] == 'f';
    }
  }

  /** Where `c` falls when text is compared by UTF-16 code units. A
      character above U+FFFF is written as a surrogate pair whose first unit
      lies in U+D800..U+DBFF, so it sorts after every character below U+D800
      and before U+E000..U+FFFF; the rank moves the latter above all
      supplementary characters. */
  function UnitRank(c: char): int {
    if 0xE000 <= c as int < 0x10000 then c as int + 0x110000 else c as int
  }

  /** `a.compareTo(b) < 0` for Java strings: the first differing character
      decides by its UTF-16 code units, and a proper prefix comes first. */
  predicate LexLess(a: string, b: string)
    decreases |a|
  {
    if |a| == 0 then |b| > 0
    else if |b| == 0 then false
    else if a[0] != b[0] then UnitRank(a[0]) < UnitRank(b[0])
    else LexLess(a[1..], b[1..])
  }

  /** The UTF-16 code units of `c`: itself below U+10000, else a high and a
      low surrogate. */
  function Units(c: char): (u: seq<int>)
    ensures 1 <= |u| <= 2
    ensures |u| == 2 <==> c as int >= 0x10000
    ensures forall i | 0 <= i < |u| :: 0 <= u[i] < 0x10000
  {
    var n := c as int;
    if n < 0x10000 then [n]
    else [0xD800 + (n - 0x10000) / 0x400, 0xDC00 + (n - 0x10000) % 0x400]
  }

  /** The UTF-16 form of `s`, the sequence Java keeps for a string. */
  function Utf16(s: string): seq<int> {
    if |s| == 0 then [] else Units(s[0]) + Utf16(s[1..])
  }

  /** Lexicographic order on code-unit sequences. */
  predicate UnitsLess(a: seq<int>, b: seq<int>)
    decreases |a|
  {
    if |a| == 0 then |b| > 0
    else if |b| == 0 then false
    else if a[0] != b[0] then a[0] < b[0]
    else UnitsLess(a[1..], b[1..])
  }

  /** A shared prefix does not decide the code-unit order. */
  lemma {:induction false} UnitsLessSharedPrefix(p: seq<int>, x: seq<int>, y: seq<int>)
    ensures UnitsLess(p + x, p + y) <==> UnitsLess(x, y)
    decreases |p|
  {
    if |p| > 0 {
      assert (p + x)[0] == p[0] && (p + y)[0] == p[0];
      assert (p + x)[1..] == p[1..] + x && (p + y)[1..] == p[1..] + y;
      UnitsLessSharedPrefix(p[1..], x, y);
    } else {
      assert p + x == x && p + y == y;
    }
  }

  /** Two different characters are ordered by their code units as their
      ranks say, whatever follows them. */
  lemma FirstUnitsDecide(c: char, d: char, x: seq<int>, y: seq<int>)
    requires c != d
    ensures UnitsLess(Units(c) + x, Units(d) + y) <==> UnitRank(c) < UnitRank(d)
  {
    var u := Units(c) + x;
    var w := Units(d) + y;
    var n := c as int;
    var m := d as int;
    assert u[0] == Units(c)[0] && w[0] == Units(d)[0];
    if n >= 0x10000 && m >= 0x10000 && u[0] == w[0] {
      assert u[1..][0] == Units(c)[1] && w[1..][0] == Units(d)[1];
      assert (n - 0x10000) / 0x400 == (m - 0x10000) / 0x400;
      assert n == 0x10000 + (n - 0x10000) / 0x400 * 0x400 + (n - 0x10000) % 0x400;
      assert m == 0x10000 + (m - 0x10000) / 0x400 * 0x400 + (m - 0x10000) % 0x400;
    } else if n >= 0x10000 && m >= 0x10000 {
      assert n == 0x10000 + (n - 0x10000) / 0x400 * 0x400 + (n - 0x10000) % 0x400;
      assert m == 0x10000 + (m - 0x10000) / 0x400 * 0x400 + (m - 0x10000) % 0x400;
    }
  }

  /** `LexLess` is the order `String.compareTo` gives: lexicographic on the
      UTF-16 code units. */
  lemma {:induction false} LexLessIsCodeUnitOrder(a: string, b: string)
    ensures LexLess(a, b) <==> UnitsLess(Utf16(a), Utf16(b))
    decreases |a|
  {
    if |a| > 0 && |b| > 0 {
      if a[0] == b[0] {
        LexLessIsCodeUnitOrder(a[1..], b[1..]);
        UnitsLessSharedPrefix(Units(a[0]), Utf16(a[1..]), Utf16(b[1..]));
      } else {
        FirstUnitsDecide(a[0], b[0], Utf16(a[1..]), Utf16(b[1..]));
      }
    }
  }

  /** A character above U+FFFF sorts before U+FFFF, although its code point
      is larger. */
  lemma SupplementaryBeforeHighBmp()
    ensures LexLess("\U{10000}", "\U{FFFF}") && !LexLess("\U{FFFF}", "\U{10000}")
  {
  }

  lemma {:induction false} LexIrreflexive(a: string)
    ensures !LexLess(a, a)
    decreases |a|
  {
    if |a| > 0 {
      LexIrreflexive(a[1..]);
    }
  }

  lemma {:induction false} LexTransitive(a: string, b: string, c: string)
    requires LexLess(a, b) && LexLess(b, c)
    ensures LexLess(a, c)
    decreases |a|
  {
    if |a| > 0 && |b| > 0 && |c| > 0 && a[0] == b[0] && b[0] == c[0] {
      LexTransitive(a[1..], b[1..], c[1..]);
    }
  }

  lemma {:induction false} LexConnected(a: string, b: string)
    requires a != b
    ensures LexLess(a, b) || LexLess(b, a)
    decreases |a|
  {
    if |a| > 0 && |b| > 0 && a[0] == b[0] {
      assert a == [a[0]] + a[1..] && b == [b[0]] + b[1..];
      LexConnected(a[1..], b[1..]);
    }
  }

  lemma LexAsymmetric(a: string, b: string)
    requires LexLess(a, b)
    ensures !LexLess(b, a)
  {
    if LexLess(b, a) {
      LexTransitive(a, b, a);
      LexIrreflexive(a);
    }
  }
}
