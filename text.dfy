/** String operations the pipeline borrows from Python's `str` and `re`:
    `strip`, `split('\n')`, `sep.join`, `re.sub(r' +', ' ', s)` and `str(n)`
    for a natural number. */
module Text {

  /** The characters for which Python's `str.isspace()` holds; `str.strip()`
      with no argument removes exactly these from both ends. */
  predicate IsSpace(c: char)
  {
    c == '\U{0009}' || c == '\U{000A}' || c == '\U{000B}' || c == '\U{000C}' || c == '\U{000D}'
    || c == '\U{001C}' || c == '\U{001D}' || c == '\U{001E}' || c == '\U{001F}' || c == '\U{0020}'
    || c == '\U{0085}' || c == '\U{00A0}' || c == '\U{1680}' || c == '\U{2000}' || c == '\U{2001}'
    || c == '\U{2002}' || c == '\U{2003}' || c == '\U{2004}' || c == '\U{2005}' || c == '\U{2006}'
    || c == '\U{2007}' || c == '\U{2008}' || c == '\U{2009}' || c == '\U{200A}' || c == '\U{2028}'
    || c == '\U{2029}' || c == '\U{202F}' || c == '\U{205F}' || c == '\U{3000}'
  }

  /** Every character is whitespace (`not s.strip()` in Python). */
  predicate IsBlank(s: string)
  {
    forall k :: 0 <= k < |s| ==> IsSpace(s[k])
  }

  /** Index of the first non-whitespace character of `s` at or after `i`
      (`|s|` when there is none): where `s.lstrip()` begins. */
  function SkipSpace(s: string, i: nat): (r: nat)
    requires i <= |s|
    ensures i <= r <= |s|
    decreases |s| - i
  {
    if i < |s| && IsSpace(s[i]) then SkipSpace(s, i + 1) else i
  }

  /** Everything `SkipSpace` passes over is whitespace, and it stops at a
      character that is not. */
  lemma {:induction false} SkipSpaceSkipsSpace(s: string, i: nat)
    requires i <= |s|
    ensures forall k :: i <= k < SkipSpace(s, i) ==> IsSpace(s[k])
    ensures SkipSpace(s, i) < |s| ==> !IsSpace(s[SkipSpace(s, i)])
    decreases |s| - i
  {
    if i < |s| && IsSpace(s[i]) {
      SkipSpaceSkipsSpace(s, i + 1);
    }
  }

  /** One past the last non-whitespace character of `s[lo..j]` (`lo` when
      there is none): where `s.rstrip()` ends. */
  function SkipSpaceBack(s: string, lo: nat, j: nat): (r: nat)
    requires lo <= j <= |s|
    ensures lo <= r <= j
    decreases j
  {
    if j > lo && IsSpace(s[j - 1]) then SkipSpaceBack(s, lo, j - 1) else j
  }

  /** Everything `SkipSpaceBack` passes over is whitespace, and it stops
      after a character that is not. */
  lemma {:induction false} SkipSpaceBackSkipsSpace(s: string, lo: nat, j: nat)
    requires lo <= j <= |s|
    ensures forall k :: SkipSpaceBack(s, lo, j) <= k < j ==> IsSpace(s[k])
    ensures SkipSpaceBack(s, lo, j) > lo ==> !IsSpace(s[SkipSpaceBack(s, lo, j) - 1])
    decreases j
  {
    if j > lo && IsSpace(s[j - 1]) {
      SkipSpaceBackSkipsSpace(s, lo, j - 1);
    }
  }

  /** `s.strip()`. */
  function Strip(s: string): (r: string)
    ensures |r| <= |s|
  {
    var a := SkipSpace(s, 0);
    s[a..SkipSpaceBack(s, a, |s|)]
  }

  /** `s.strip()` is empty exactly when `s` is all whitespace. */
  lemma StripEmptyIffBlank(s: string)
    ensures Strip(s) == [] <==> IsBlank(s)
    ensures Strip(s) != [] ==> !IsSpace(Strip(s)[0]) && !IsSpace(Strip(s)[|Strip(s)| - 1])
  {
    SkipSpaceSkipsSpace(s, 0);
    SkipSpaceBackSkipsSpace(s, SkipSpace(s, 0), |s|);
  }

  /** Stripping a string that neither starts nor ends with whitespace leaves it as it is. */
  lemma StripStable(s: string)
    requires s != [] && !IsSpace(s[0]) && !IsSpace(s[|s| - 1])
    ensures Strip(s) == s
  {
  }

  /** `sep.join(parts)`. */
  function Join(parts: seq<string>, sep: string): string
    decreases |parts|
  {
    if |parts| == 0 then ""
    else if |parts| == 1 then parts[0]
    else parts[0] + sep + Join(parts[1..], sep)
  }

  /** `s.split(c)` for a one-character separator: the pieces between
      occurrences of `c`, empty pieces included. */
  function Split(s: string, c: char): (r: seq<string>)
    ensures |r| >= 1
    ensures forall i :: 0 <= i < |r| ==> c !in r[i]
    decreases |s|
  {
    if s == [] then [[]]
    else
      var rest := Split(s[1..], c);
      if s[0] == c then [[]] + rest
      else [[s[0]] + rest[0]] + rest[1..]
  }

  /** Joining the pieces of a split with the separator gives back the string. */
  lemma {:induction false} JoinSplit(s: string, c: char)
    ensures Join(Split(s, c), [c]) == s
    decreases |s|
  {
    if s != [] {
      var rest := Split(s[1..], c);
      JoinSplit(s[1..], c);
      if s[0] == c {
        assert Split(s, c) == [[]] + rest;
        assert Join([[]] + rest, [c]) == [] + [c] + Join(rest, [c]);
      } else {
        var r := Split(s, c);
        assert r == [[s[0]] + rest[0]] + rest[1..];
        if |rest| == 1 {
          assert Join(r, [c]) == [s[0]] + rest[0];
          assert Join(rest, [c]) == rest[0];
        } else {
          assert Join(rest, [c]) == rest[0] + [c] + Join(rest[1..], [c]);
          assert r[1..] == rest[1..];
          assert Join(r, [c]) == [s[0]] + rest[0] + [c] + Join(rest[1..], [c]);
        }
      }
    }
  }

  /** A string without the separator splits into itself alone. */
  lemma {:induction false} SplitNoSeparator(s: string, c: char)
    requires c !in s
    ensures Split(s, c) == [s]
    decreases |s|
  {
    if s != [] {
      assert c !in s[1..];
      SplitNoSeparator(s[1..], c);
      assert s[0] != c;
      assert [s[0]] + s[1..] == s;
    }
  }

  /** A separator-free prefix followed by the separator splits off as one piece. */
  lemma {:induction false} SplitAfterPiece(x: string, c: char, y: string)
    requires c !in x
    ensures Split(x + [c] + y, c) == [x] + Split(y, c)
    decreases |x|
  {
    if x == [] {
      assert [c] + y == x + [c] + y;
      assert ([c] + y)[1..] == y;
    } else {
      var s := x + [c] + y;
      assert s[1..] == x[1..] + [c] + y;
      assert c !in x[1..];
      SplitAfterPiece(x[1..], c, y);
      var rest := Split(s[1..], c);
      assert rest == [x[1..]] + Split(y, c);
      assert s[0] == x[0] && x[0] != c;
      assert Split(s, c) == [[x[0]] + rest[0]] + rest[1..];
      assert [x[0]] + x[1..] == x;
    }
  }

  /** Splitting a join of separator-free pieces recovers the pieces. */
  lemma {:induction false} SplitJoin(parts: seq<string>, c: char)
    requires |parts| >= 1
    requires forall i :: 0 <= i < |parts| ==> c !in parts[i]
    ensures Split(Join(parts, [c]), c) == parts
    decreases |parts|
  {
    if |parts| == 1 {
      SplitNoSeparator(parts[0], c);
    } else {
      SplitJoin(parts[1..], c);
      SplitAfterPiece(parts[0], c, Join(parts[1..], [c]));
      assert [parts[0]] + parts[1..] == parts;
    }
  }

  /** No two consecutive spaces. */
  predicate NoDoubleSpace(s: string)
  {
    forall i :: 0 <= i < |s| - 1 ==> !(s[i] == ' ' && s[i + 1] == ' ')
  }

  /** `re.sub(r' +', ' ', s)`: every run of spaces becomes one space. A space
      is dropped exactly when the next character is a space too. */
  function Collapse(s: string): (r: string)
    ensures |r| <= |s|
    ensures s != [] ==> r != [] && r[0] == s[0] && r[|r| - 1] == s[|s| - 1]
    ensures NoDoubleSpace(r)
    decreases |s|
  {
    if |s| < 2 then s
    else if s[0] == ' ' && s[1] == ' ' then Collapse(s[1..])
    else [s[0]] + Collapse(s[1..])
  }

  /** Collapsing a string that has no run of spaces leaves it unchanged. */
  lemma {:induction false} CollapseStable(s: string)
    requires NoDoubleSpace(s)
    ensures Collapse(s) == s
    decreases |s|
  {
    if |s| >= 2 {
      CollapseStable(s[1..]);
    }
  }

  /** A leading non-space character is kept and does not merge with what follows. */
  lemma CollapseCons(c: char, y: string)
    requires c != ' '
    ensures Collapse([c] + y) == [c] + Collapse(y)
  {
    if y != [] {
      assert ([c] + y)[1..] == y;
    }
  }

  /** Collapsing only removes spaces: a character absent before is absent after. */
  lemma {:induction false} CollapseAbsent(s: string, ch: char)
    requires ch !in s
    ensures ch !in Collapse(s)
    decreases |s|
  {
    if |s| >= 2 {
      assert ch !in s[1..];
      CollapseAbsent(s[1..], ch);
    }
  }

  /** A run of spaces cannot cross a non-space character, so collapsing
      distributes over a split at one. */
  lemma {:induction false} CollapseAppend(x: string, z: string)
    requires z != [] && z[0] != ' '
    ensures Collapse(x + z) == Collapse(x) + Collapse(z)
    decreases |x|
  {
    var s := x + z;
    if x == [] {
      assert s == z;
    } else if |x| == 1 {
      assert s == [x[0]] + z;
      CollapseCons2(x[0], z);
    } else {
      assert s[1..] == x[1..] + z;
      assert s[0] == x[0] && s[1] == x[1];
      CollapseAppend(x[1..], z);
    }
  }

  lemma CollapseCons2(a: char, z: string)
    requires z != [] && z[0] != ' '
    ensures Collapse([a] + z) == [a] + Collapse(z)
  {
    assert ([a] + z)[1..] == z;
  }

  /** Collapsing a text of lines equals collapsing each line. */
  lemma {:induction false} CollapseJoinLines(lines: seq<string>)
    ensures Collapse(Join(lines, "\n")) == Join(CollapseEach(lines), "\n")
    decreases |lines|
  {
    if |lines| >= 2 {
      var a, rest := lines[0], Join(lines[1..], "\n");
      assert Join(lines, "\n") == a + ("\n" + rest);
      CollapseAppend(a, "\n" + rest);
      CollapseCons('\n', rest);
      CollapseJoinLines(lines[1..]);
      var ce := CollapseEach(lines);
      assert ce[1..] == CollapseEach(lines[1..]);
      assert Join(ce, "\n") == ce[0] + "\n" + Join(ce[1..], "\n");
    }
  }

  function CollapseEach(lines: seq<string>): (r: seq<string>)
    ensures |r| == |lines|
    ensures forall i :: 0 <= i < |lines| ==> r[i] == Collapse(lines[i])
    decreases |lines|
  {
    if lines == [] then [] else [Collapse(lines[0])] + CollapseEach(lines[1..])
  }

  /** The decimal digit for `d`. */
  function DigitChar(d: nat): (c: char)
    requires d < 10
    ensures '0' <= c <= '9'
    ensures c as int - '0' as int == d
  {
    ('0' as int + d) as char
  }

  /** `str(n)` for a natural number: its decimal digits, most significant first. */
  function NatToString(n: nat): (r: string)
    ensures 1 <= |r|
    ensures n >= 10 ==> |r| >= 2
    ensures forall i :: 0 <= i < |r| ==> '0' <= r[i] <= '9'
    decreases n
  {
    if n < 10 then [DigitChar(n)] else NatToString(n / 10) + [DigitChar(n % 10)]
  }

  /** Distinct numbers print differently. */
  lemma {:induction false} NatToStringInjective(a: nat, b: nat)
    requires NatToString(a) == NatToString(b)
    ensures a == b
    decreases a
  {
    if a >= 10 && b >= 10 {
      var sa, sb := NatToString(a), NatToString(b);
      assert sa[..|sa| - 1] == NatToString(a / 10);
      assert sb[..|sb| - 1] == NatToString(b / 10);
      NatToStringInjective(a / 10, b / 10);
      assert DigitChar(a % 10) == DigitChar(b % 10);
      assert a == 10 * (a / 10) + a % 10;
      assert b == 10 * (b / 10) + b % 10;
    }
  }
}
