/**
 * The JavaScript string operations the console relies on: `split` and `join`
 * on a one-character separator, the `^\d+$` and `^\d+\.\d+\.\d+$` tests,
 * decimal conversion, `indexOf`, and the relational operators on strings.
 */
module Strings {

  /** `s.split(sep)`: never empty, and no piece contains the separator. */
  function Split(s: string, sep: char): (parts: seq<string>)
    ensures |parts| >= 1
    ensures forall i :: 0 <= i < |parts| ==> sep !in parts[i]
    decreases |s|
  {
    if |s| == 0 then [""]
    else
      var rest := Split(s[1..], sep);
      if s[0] == sep then [""] + rest
      else [[s[0]] + rest[0]] + rest[1..]
  }

  /** `parts.join(sep)`; the empty array joins to the empty string. */
  function Join(parts: seq<string>, sep: char): string
  {
    if |parts| == 0 then ""
    else if |parts| == 1 then parts[0]
    else parts[0] + [sep] + Join(parts[1..], sep)
  }

  /** Joining the pieces of a split gives back the original string. */
  lemma {:induction false} JoinSplit(s: string, sep: char)
    ensures Join(Split(s, sep), sep) == s
    decreases |s|
  {
    if |s| > 0 {
      var rest := Split(s[1..], sep);
      JoinSplit(s[1..], sep);
      if s[0] == sep {
        assert Split(s, sep) == [""] + rest;
      } else {
        var parts := Split(s, sep);
        assert parts == [[s[0]] + rest[0]] + rest[1..];
        if |rest| == 1 {
          assert Join(rest, sep) == rest[0];
        } else {
          assert Join(rest, sep) == rest[0] + [sep] + Join(rest[1..], sep);
          assert parts[1..] == rest[1..];
        }
      }
    }
  }

  /** A string without the separator splits into itself alone. */
  lemma {:induction false} SplitNoSeparator(s: string, sep: char)
    requires sep !in s
    ensures Split(s, sep) == [s]
    decreases |s|
  {
    if |s| > 0 {
      assert s[0] != sep && sep !in s[1..];
      SplitNoSeparator(s[1..], sep);
      assert s == [s[0]] + s[1..];
    }
  }

  /** Splitting distributes over any one occurrence of the separator. */
  lemma {:induction false} SplitAround(a: string, sep: char, b: string)
    ensures Split(a + [sep] + b, sep) == Split(a, sep) + Split(b, sep)
    decreases |a|
  {
    if |a| == 0 {
      assert a + [sep] + b == [sep] + b;
      assert ([sep] + b)[1..] == b;
    } else {
      assert (a + [sep] + b)[0] == a[0];
      assert (a + [sep] + b)[1..] == a[1..] + [sep] + b;
      SplitAround(a[1..], sep, b);
    }
  }

  /** A string that contains the separator splits into at least two pieces. */
  lemma SplitsInTwo(s: string, sep: char)
    requires sep in s
    ensures |Split(s, sep)| >= 2
  {
    JoinSplit(s, sep);
  }

  /** Joining separator-free pieces and splitting again gives the pieces back. */
  lemma {:induction false} SplitJoin(parts: seq<string>, sep: char)
    requires |parts| >= 1
    requires forall i :: 0 <= i < |parts| ==> sep !in parts[i]
    ensures Split(Join(parts, sep), sep) == parts
    decreases |parts|
  {
    if |parts| == 1 {
      SplitNoSeparator(parts[0], sep);
    } else {
      var tail := Join(parts[1..], sep);
      SplitJoin(parts[1..], sep);
      SplitAround(parts[0], sep, tail);
      SplitNoSeparator(parts[0], sep);
      assert Join(parts, sep) == parts[0] + [sep] + tail;
      assert Split(Join(parts, sep), sep) == [parts[0]] + parts[1..];
    }
  }

  /** Appending one more piece appends the separator and that piece. */
  lemma {:induction false} JoinSnoc(parts: seq<string>, sep: char, last: string)
    requires |parts| >= 1
    ensures Join(parts + [last], sep) == Join(parts, sep) + [sep] + last
    decreases |parts|
  {
    if |parts| == 1 {
      assert (parts + [last])[1..] == [last];
    } else {
      assert (parts + [last])[1..] == parts[1..] + [last];
      JoinSnoc(parts[1..], sep, last);
    }
  }

  /** The join of all pieces is the join of all but the last, the separator, and the last. */
  lemma JoinInit(parts: seq<string>, sep: char)
    requires |parts| >= 2
    ensures Join(parts[..|parts| - 1], sep) + [sep] + parts[|parts| - 1] == Join(parts, sep)
  {
    var init, last := parts[..|parts| - 1], parts[|parts| - 1];
    assert init + [last] == parts;
    JoinSnoc(init, sep, last);
  }

  /** A split whose last piece is split off joins back around that piece. */
  lemma SplitLast(s: string, sep: char)
    requires |Split(s, sep)| >= 2
    ensures var p := Split(s, sep);
      Join(p[..|p| - 1], sep) + [sep] + p[|p| - 1] == s
  {
    JoinInit(Split(s, sep), sep);
    JoinSplit(s, sep);
  }

  /** `\d`: an ASCII decimal digit. */
  predicate IsDigit(c: char) {
    '0' <= c <= '9'
  }

  /** `/^\d+$/.test(s)`. */
  predicate IsDigits(s: string) {
    |s| > 0 && forall i :: 0 <= i < |s| ==> IsDigit(s[i])
  }

  /** `/^\d+\.\d+\.\d+$/.test(s)`: three digit runs separated by dots. */
  predicate IsSemver(s: string) {
    var p := Split(s, '.');
    |p| == 3 && IsDigits(p[0]) && IsDigits(p[1]) && IsDigits(p[2])
  }

  /** The semver test accepts exactly the strings of the form `a.b.c` with digit runs `a`, `b`, `c`. */
  lemma SemverShape(a: string, b: string, c: string)
    requires IsDigits(a) && IsDigits(b) && IsDigits(c)
    ensures IsSemver(a + "." + b + "." + c)
    ensures Split(a + "." + b + "." + c, '.') == [a, b, c]
  {
    assert '.' !in a && '.' !in b && '.' !in c by {
      assert !IsDigit('.');
    }
    SplitNoSeparator(a, '.');
    SplitNoSeparator(b, '.');
    SplitNoSeparator(c, '.');
    SplitAround(b, '.', c);
    assert a + "." + b + "." + c == a + ['.'] + (b + ['.'] + c);
    SplitAround(a, '.', b + ['.'] + c);
  }

  /** Conversely, every string the semver test accepts is `a.b.c` with digit runs. */
  lemma SemverParts(s: string)
    requires IsSemver(s)
    ensures var p := Split(s, '.'); s == p[0] + "." + p[1] + "." + p[2]
  {
    var p := Split(s, '.');
    JoinSplit(s, '.');
    assert p[1..][1..] == [p[2]];
    assert Join(p[1..], '.') == p[1] + "." + p[2];
    assert Join(p, '.') == p[0] + "." + (p[1] + "." + p[2]);
  }

  /** A semver string contains no underscore, so it survives a split on `_` whole. */
  lemma SemverHasNo(s: string, c: char)
    requires IsSemver(s) && c != '.' && !IsDigit(c)
    ensures c !in s
  {
    SemverParts(s);
  }

  /** A digit run contains neither a dot nor an underscore. */
  lemma DigitsHaveNo(s: string, c: char)
    requires IsDigits(s) && !IsDigit(c)
    ensures c !in s
  {
  }

  /** The value of a string of decimal digits. */
  function DecimalValue(s: string): nat
    requires forall i :: 0 <= i < |s| ==> IsDigit(s[i])
    decreases |s|
  {
    if |s| == 0 then 0
    else
      assert IsDigit(s[|s| - 1]);
      DecimalValue(s[..|s| - 1]) * 10 + (s[|s| - 1] as int - '0' as int)
  }

  /** The character of one decimal digit. */
  function DigitChar(d: nat): (c: char)
    requires d < 10
    ensures IsDigit(c) && c as int - '0' as int == d
  {
    (d + '0' as int) as char
  }

  /** `String(n)` for a non-negative integer. */
  function NatToString(n: nat): (s: string)
    ensures IsDigits(s)
    ensures DecimalValue(s) == n
    decreases n
  {
    if n < 10 then [DigitChar(n)]
    else
      var s := NatToString(n / 10) + [DigitChar(n % 10)];
      assert s[..|s| - 1] == NatToString(n / 10);
      s
  }

  /** `s.indexOf(c)`: the first position of `c`, or -1 when `c` does not occur. */
  function IndexOf(s: string, c: char): (i: int)
    ensures -1 <= i < |s|
    ensures i == -1 <==> c !in s
    ensures 0 <= i ==> s[i] == c && c !in s[..i]
    decreases |s|
  {
    if |s| == 0 then -1
    else if s[0] == c then 0
    else
      var j := IndexOf(s[1..], c);
      if j == -1 then -1
      else
        assert s[..j + 1] == [s[0]] + s[1..][..j];
        j + 1
  }

  /** The number of occurrences of `c` in `s`. */
  function Count(s: string, c: char): (n: nat)
    ensures n == 0 <==> c !in s
    decreases |s|
  {
    if |s| == 0 then 0
    else Count(s[1..], c) + (if s[0] == c then 1 else 0)
  }

  /** Occurrences add up over a concatenation. */
  lemma {:induction false} CountConcat(a: string, b: string, c: char)
    ensures Count(a + b, c) == Count(a, c) + Count(b, c)
    decreases |a|
  {
    if |a| == 0 {
      assert a + b == b;
    } else {
      assert (a + b)[0] == a[0] && (a + b)[1..] == a[1..] + b;
      CountConcat(a[1..], b, c);
    }
  }

  /** JavaScript's `a < b` on strings: lexicographic by character code. */
  predicate Less(a: string, b: string)
    decreases |a|
  {
    if |a| == 0 then |b| > 0
    else if |b| == 0 then false
    else if a[0] != b[0] then a[0] < b[0]
    else Less(a[1..], b[1..])
  }

  /** `!(b < a)`: the order the console's comparators sort by. */
  predicate LessOrEqual(a: string, b: string) {
    !Less(b, a)
  }

  lemma {:induction false} LessIrreflexive(a: string)
    ensures !Less(a, a)
    decreases |a|
  {
    if |a| > 0 {
      LessIrreflexive(a[1..]);
    }
  }

  /** Any two different strings are ordered one way or the other. */
  lemma {:induction false} LessTrichotomy(a: string, b: string)
    ensures Less(a, b) || a == b || Less(b, a)
    decreases |a|
  {
    if |a| > 0 && |b| > 0 && a[0] == b[0] {
      LessTrichotomy(a[1..], b[1..]);
      if a[1..] == b[1..] {
        assert a == [a[0]] + a[1..] && b == [b[0]] + b[1..];
      }
    }
  }

  lemma {:induction false} LessAsymmetric(a: string, b: string)
    ensures !(Less(a, b) && Less(b, a))
    decreases |a|
  {
    if |a| > 0 && |b| > 0 && a[0] == b[0] {
      LessAsymmetric(a[1..], b[1..]);
    }
  }

  lemma {:induction false} LessTransitive(a: string, b: string, c: string)
    requires Less(a, b) && Less(b, c)
    ensures Less(a, c)
    decreases |a|
  {
    if |a| > 0 && |b| > 0 && |c| > 0 && a[0] == b[0] && b[0] == c[0] {
      LessTransitive(a[1..], b[1..], c[1..]);
    }
  }

  /** `LessOrEqual` is total and transitive, and strict on distinct strings. */
  lemma LessOrEqualFacts(a: string, b: string, c: string)
    ensures LessOrEqual(a, b) || LessOrEqual(b, a)
    ensures LessOrEqual(a, b) && LessOrEqual(b, c) ==> LessOrEqual(a, c)
    ensures LessOrEqual(a, b) && a != b ==> Less(a, b)
  {
    LessAsymmetric(a, b);
    LessTrichotomy(a, b);
    LessTrichotomy(b, c);
    LessTrichotomy(a, c);
    if Less(c, a) && !Less(b, a) && !Less(c, b) {
      if b == a {
      } else if b == c {
      } else {
        LessTransitive(a, b, c);
        LessAsymmetric(a, c);
      }
    }
  }
}
