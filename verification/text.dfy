/**
  String operations the upload code borrows from JavaScript: `split` on a
  one-character separator, `startsWith`, the decimal rendering of a
  non-negative integer inside a template literal, and ASCII character classes.
  A JavaScript string is modelled as `seq<char>`.
 */
module Text {

  /** `parts` joined back together with `c` between neighbours. */
  function Join(parts: seq<string>, c: char): string
    requires |parts| >= 1
  {
    if |parts| == 1 then parts[0] else parts[0] + [c] + Join(parts[1..], c)
  }

  /**
    JavaScript's `s.split(c)` for a one-character separator: the maximal
    separator-free runs of `s`, in order, including empty runs at either end
    and between adjacent separators. There is always at least one part.
   */
  function Split(s: string, c: char): (parts: seq<string>)
    ensures |parts| >= 1
    ensures forall i :: 0 <= i < |parts| ==> c !in parts[i]
    ensures Join(parts, c) == s
    decreases |s|
  {
    if |s| == 0 then [""]
    else
      var rest := Split(s[1..], c);
      if s[0] == c then
        assert ([""] + rest)[1..] == rest;
        [""] + rest
      else
        var parts := [[s[0]] + rest[0]] + rest[1..];
        assert parts[1..] == rest[1..];
        assert |rest| > 1 ==> Join(rest, c) == rest[0] + [c] + Join(rest[1..], c);
        assert s == [s[0]] + s[1..];
        parts
  }

  /** `s.split(c)[0]`: the text before the first `c`, or all of `s` if there is none. */
  function FirstSegment(s: string, c: char): string {
    Split(s, c)[0]
  }

  /** `s.split(c).pop()`: the text after the last `c`, or all of `s` if there is none. */
  function LastSegment(s: string, c: char): string {
    var parts := Split(s, c);
    parts[|parts| - 1]
  }

  /** Splitting at a separator that sits between `x` and `y` splits each side independently. */
  lemma {:induction false} SplitAtSeparator(x: string, y: string, c: char)
    ensures Split(x + [c] + y, c) == Split(x, c) + Split(y, c)
    decreases |x|
  {
    var s := x + [c] + y;
    if |x| == 0 {
      assert s[1..] == y;
    } else {
      assert s[1..] == x[1..] + [c] + y;
      SplitAtSeparator(x[1..], y, c);
      var p := Split(x[1..], c);
      var q := Split(y, c);
      var rest := Split(s[1..], c);
      assert rest == p + q;
      if x[0] == c {
        assert Split(s, c) == [""] + rest;
        assert Split(x, c) == [""] + p;
      } else {
        assert rest[0] == p[0];
        assert rest[1..] == p[1..] + q;
        assert Split(s, c) == [[x[0]] + rest[0]] + rest[1..];
        assert Split(x, c) == [[x[0]] + p[0]] + p[1..];
      }
    }
  }

  /** A string without the separator splits into itself alone. */
  lemma {:induction false} SplitWithoutSeparator(s: string, c: char)
    requires c !in s
    ensures Split(s, c) == [s]
    decreases |s|
  {
    if |s| > 0 {
      assert c !in s[1..];
      SplitWithoutSeparator(s[1..], c);
      assert s == [s[0]] + s[1..];
    }
  }

  /** Split undoes Join when no part contains the separator: the two are inverse. */
  lemma {:induction false} SplitJoin(parts: seq<string>, c: char)
    requires |parts| >= 1
    requires forall i :: 0 <= i < |parts| ==> c !in parts[i]
    ensures Split(Join(parts, c), c) == parts
    decreases |parts|
  {
    if |parts| == 1 {
      SplitWithoutSeparator(parts[0], c);
    } else {
      SplitAtSeparator(parts[0], Join(parts[1..], c), c);
      SplitWithoutSeparator(parts[0], c);
      SplitJoin(parts[1..], c);
      assert parts == [parts[0]] + parts[1..];
    }
  }

  /**
    The first segment is the longest separator-free prefix: either the
    whole string, or the text up to the first separator.
   */
  lemma FirstSegmentShape(s: string, c: char)
    ensures c !in FirstSegment(s, c)
    ensures c !in s ==> FirstSegment(s, c) == s
    ensures c in s ==> exists rest :: s == FirstSegment(s, c) + [c] + rest
    ensures StartsWith(s, FirstSegment(s, c))
  {
    var parts := Split(s, c);
    if c in s {
      assert Join(parts, c) == parts[0] + [c] + Join(parts[1..], c);
    } else {
      SplitWithoutSeparator(s, c);
    }
  }

  /** The last segment is the text after the final separator, or the whole string. */
  lemma LastSegmentShape(s: string, c: char)
    ensures c !in LastSegment(s, c)
    ensures c !in s ==> LastSegment(s, c) == s
    ensures c in s ==> exists front :: s == front + [c] + LastSegment(s, c)
  {
    if c !in s {
      SplitWithoutSeparator(s, c);
    } else {
      JoinSplitsLast(Split(s, c), c);
    }
  }

  /** A join of two or more parts ends with the separator followed by the last part. */
  lemma {:induction false} JoinSplitsLast(parts: seq<string>, c: char)
    requires |parts| >= 2
    ensures exists front :: Join(parts, c) == front + [c] + parts[|parts| - 1]
    decreases |parts|
  {
    if |parts| == 2 {
      assert Join(parts[1..], c) == parts[1];
      assert Join(parts, c) == parts[0] + [c] + parts[1];
    } else {
      JoinSplitsLast(parts[1..], c);
      var front :| Join(parts[1..], c) == front + [c] + parts[|parts| - 1];
      assert Join(parts, c) == (parts[0] + [c] + front) + [c] + parts[|parts| - 1];
    }
  }

  /** The segment after the last `c` of `front + [c] + tail`, when `tail` holds no `c`, is `tail`. */
  lemma LastSegmentAfter(front: string, tail: string, c: char)
    requires c !in tail
    ensures LastSegment(front + [c] + tail, c) == tail
  {
    SplitAtSeparator(front, tail, c);
    SplitWithoutSeparator(tail, c);
  }

  /** The segment before the first `c` of `head + [c] + back`, when `head` holds no `c`, is `head`. */
  lemma FirstSegmentBefore(head: string, back: string, c: char)
    requires c !in head
    ensures FirstSegment(head + [c] + back, c) == head
  {
    SplitAtSeparator(head, back, c);
    SplitWithoutSeparator(head, c);
  }

  /** The first segment of `x + [c] + y` lies wholly in `x`, whatever `y` holds. */
  lemma FirstSegmentOfJoined(x: string, y: string, c: char)
    ensures FirstSegment(x + [c] + y, c) == FirstSegment(x, c)
  {
    SplitAtSeparator(x, y, c);
  }

  /** `p + rest` starts with `p`. */
  lemma ConcatStartsWith(p: string)
    ensures forall rest :: StartsWith(p + rest, p)
  {
    forall rest ensures StartsWith(p + rest, p) {
      assert (p + rest)[..|p|] == p;
    }
  }

  /** JavaScript's `s.startsWith(p)`. */
  predicate StartsWith(s: string, p: string) {
    |p| <= |s| && s[..|p|] == p
  }

  predicate IsDigit(ch: char) {
    '0' <= ch <= '9'
  }

  predicate IsAsciiAlnum(ch: char) {
    ('a' <= ch <= 'z') || ('A' <= ch <= 'Z') || IsDigit(ch)
  }

  predicate AllDigits(s: string) {
    forall i :: 0 <= i < |s| ==> IsDigit(s[i])
  }

  function DigitChar(d: nat): (ch: char)
    requires d < 10
    ensures IsDigit(ch)
  {
    (48 + d) as char
  }

  function DigitValue(ch: char): (d: nat)
    requires IsDigit(ch)
    ensures d < 10
  {
    (ch as int) - 48
  }

  /** The decimal rendering of `n` (what a template literal prints for a non-negative integer). */
  function Decimal(n: nat): (s: string)
    ensures |s| >= 1
    ensures AllDigits(s)
    ensures n == 0 ==> s == "0"
    ensures n > 0 ==> s[0] != '0'
    decreases n
  {
    if n < 10 then [DigitChar(n)] else Decimal(n / 10) + [DigitChar(n % 10)]
  }

  /** The value of a string of decimal digits, most significant first. */
  function DecimalValue(s: string): nat
    requires AllDigits(s)
    decreases |s|
  {
    if |s| == 0 then 0 else 10 * DecimalValue(s[..|s| - 1]) + DigitValue(s[|s| - 1])
  }

  /** Reading the rendering of `n` gives `n` back. */
  lemma {:induction false} DecimalRoundTrip(n: nat)
    ensures DecimalValue(Decimal(n)) == n
    decreases n
  {
    var s := Decimal(n);
    if n >= 10 {
      DecimalRoundTrip(n / 10);
      assert s[..|s| - 1] == Decimal(n / 10);
    }
  }

  /** Different numbers render differently. */
  lemma DecimalInjective(m: nat, n: nat)
    requires Decimal(m) == Decimal(n)
    ensures m == n
  {
    DecimalRoundTrip(m);
    DecimalRoundTrip(n);
  }

  /** `ch.toUpperCase()` on the ASCII letters; every other character is left as it is. */
  function UpperChar(ch: char): char {
    if 'a' <= ch <= 'z' then (ch as int - 32) as char else ch
  }

  /** `s.toUpperCase()`, restricted to ASCII letters. */
  function Upper(s: string): (r: string)
    ensures |r| == |s|
    ensures forall i :: 0 <= i < |s| ==> r[i] == UpperChar(s[i])
    ensures forall i :: 0 <= i < |r| ==> !('a' <= r[i] <= 'z')
    decreases |s|
  {
    if |s| == 0 then "" else [UpperChar(s[0])] + Upper(s[1..])
  }
}
