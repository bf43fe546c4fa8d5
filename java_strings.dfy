/**
 * The parts of java.lang.String and of Spring's StringUtils that the client
 * relies on: `String.split` with a one-character literal separator,
 * `StringUtils.hasText`, and the decimal rendering of an `int` used when a
 * number is concatenated into a message.
 */
module JavaStrings {
  import opened Wrappers

  // ---------------------------------------------------------------------
  // Reference definitions: the first occurrence of a character
  // ---------------------------------------------------------------------

  /** Index of the first `c` in `s`, or `|s|` when there is none. */
  function FirstIndex(s: string, c: char): (i: nat)
    ensures i <= |s|
    ensures i < |s| ==> s[i] == c
    ensures forall j :: 0 <= j < i ==> s[j] != c
    ensures i == |s| <==> c !in s
  {
    if s == [] then 0
    else if s[0] == c then 0
    else 1 + FirstIndex(s[1..], c)
  }

  /** The text before the first `c` (all of `s` when there is no `c`). */
  function BeforeFirst(s: string, c: char): string {
    s[..FirstIndex(s, c)]
  }

  /** The text after the first `c`. */
  function AfterFirst(s: string, c: char): string
    requires c in s
  {
    s[FirstIndex(s, c) + 1..]
  }

  lemma BeforeAndAfter(s: string, c: char)
    requires c in s
    ensures s == BeforeFirst(s, c) + [c] + AfterFirst(s, c)
    ensures c !in BeforeFirst(s, c)
  {
  }

  /** Every character of `s` is the separator `c` (true of the empty string). */
  predicate OnlySeparators(s: string, c: char) {
    forall i :: 0 <= i < |s| ==> s[i] == c
  }

  // ---------------------------------------------------------------------
  // String.split(String.valueOf(c))
  // ---------------------------------------------------------------------

  /**
   * All pieces of `s` between occurrences of `c`, empty ones included:
   * one more piece than there are separators.
   */
  function Segments(s: string, c: char): (parts: seq<string>)
    ensures |parts| >= 1
    ensures forall k :: 0 <= k < |parts| ==> c !in parts[k]
    decreases |s|
  {
    if s == [] then [[]]
    else
      var rest := Segments(s[1..], c);
      if s[0] == c then [[]] + rest
      else [[s[0]] + rest[0]] + rest[1..]
  }

  /** The pieces put back together, with `c` between consecutive pieces. */
  function Join(parts: seq<string>, c: char): string
    requires |parts| >= 1
    decreases |parts|
  {
    if |parts| == 1 then parts[0]
    else parts[0] + [c] + Join(parts[1..], c)
  }

  /**
   * Java's removal of trailing empty strings from the result of a split
   * with limit 0: the result is a prefix of `parts`, ends with a non-empty
   * piece, and only empty pieces were dropped.
   */
  function DropTrailingEmpty(parts: seq<string>): (r: seq<string>)
    ensures |r| <= |parts| && r == parts[..|r|]
    ensures r == [] || r[|r| - 1] != []
    ensures forall k :: |r| <= k < |parts| ==> parts[k] == []
  {
    if parts == [] then []
    else if parts[|parts| - 1] == [] then DropTrailingEmpty(parts[..|parts| - 1])
    else parts
  }

  /**
   * `s.split(String.valueOf(c))`: when `c` does not occur the result is
   * the one-element array `{s}` (even for the empty string); otherwise the
   * pieces between separators with trailing empty pieces removed.
   */
  function Split(s: string, c: char): seq<string> {
    if c !in s then [s] else DropTrailingEmpty(Segments(s, c))
  }

  // ---------------------------------------------------------------------
  // Lemmas about Segments and Join
  // ---------------------------------------------------------------------

  lemma {:induction false} SegmentsOfPlain(a: string, c: char)
    requires c !in a
    ensures Segments(a, c) == [a]
    decreases |a|
  {
    if a != [] {
      SegmentsOfPlain(a[1..], c);
      assert [a[0]] + a[1..] == a;
    }
  }

  /** A piece free of `c` followed by `c` splits off as the first segment. */
  lemma {:induction false} SegmentsAfterPiece(a: string, c: char, t: string)
    requires c !in a
    ensures Segments(a + [c] + t, c) == [a] + Segments(t, c)
    decreases |a|
  {
    var s := a + [c] + t;
    if a == [] {
      assert s[1..] == t;
    } else {
      assert s[1..] == a[1..] + [c] + t;
      SegmentsAfterPiece(a[1..], c, t);
      assert [a[0]] + a[1..] == a;
    }
  }

  /** The first segment is the text before the first separator, the rest are the segments of what follows it. */
  lemma SegmentsUnfold(s: string, c: char)
    ensures c !in s ==> Segments(s, c) == [s]
    ensures c in s ==> Segments(s, c) == [BeforeFirst(s, c)] + Segments(AfterFirst(s, c), c)
    ensures Segments(s, c)[0] == BeforeFirst(s, c)
  {
    if c in s {
      BeforeAndAfter(s, c);
      SegmentsAfterPiece(BeforeFirst(s, c), c, AfterFirst(s, c));
    } else {
      SegmentsOfPlain(s, c);
    }
  }

  /** Joining the segments restores the string. */
  lemma {:induction false} JoinSegments(s: string, c: char)
    ensures Join(Segments(s, c), c) == s
    decreases |s|
  {
    SegmentsUnfold(s, c);
    if c in s {
      var after := AfterFirst(s, c);
      assert |after| < |s|;
      JoinSegments(after, c);
      BeforeAndAfter(s, c);
    }
  }

  /** Splitting a join of separator-free pieces gives the pieces back. */
  lemma {:induction false} SegmentsOfJoin(parts: seq<string>, c: char)
    requires |parts| >= 1
    requires forall k :: 0 <= k < |parts| ==> c !in parts[k]
    ensures Segments(Join(parts, c), c) == parts
    decreases |parts|
  {
    if |parts| == 1 {
      SegmentsOfPlain(parts[0], c);
    } else {
      SegmentsOfJoin(parts[1..], c);
      SegmentsAfterPiece(parts[0], c, Join(parts[1..], c));
      assert [parts[0]] + parts[1..] == parts;
    }
  }

  /** Every segment is empty exactly when the string holds nothing but separators. */
  lemma {:induction false} SegmentsAllEmpty(s: string, c: char)
    ensures (forall k :: 0 <= k < |Segments(s, c)| ==> Segments(s, c)[k] == []) <==> OnlySeparators(s, c)
    decreases |s|
  {
    SegmentsUnfold(s, c);
    if c in s {
      var after := AfterFirst(s, c);
      BeforeAndAfter(s, c);
      SegmentsAllEmpty(after, c);
      var segs := Segments(s, c);
      var before := BeforeFirst(s, c);
      if OnlySeparators(s, c) {
        forall i | 0 <= i < |after| ensures after[i] == c {
          assert after[i] == s[|before| + 1 + i];
        }
        forall k | 0 <= k < |segs| ensures segs[k] == [] {
          if k > 0 { assert segs[k] == Segments(after, c)[k - 1]; }
        }
      } else {
        var i :| 0 <= i < |s| && s[i] != c;
        if i < |before| {
          assert before[i] == s[i];
          assert segs[0] != [];
        } else {
          assert i != |before|;
          assert after[i - |before| - 1] == s[i];
          var k :| 0 <= k < |Segments(after, c)| && Segments(after, c)[k] != [];
          assert segs[k + 1] == Segments(after, c)[k];
        }
      }
    } else {
      if s != [] {
        assert s[0] != c;
      }
    }
  }

  // ---------------------------------------------------------------------
  // What Split yields at indexes 0 and 1
  // ---------------------------------------------------------------------

  /** Dropping trailing empty pieces keeps more than `k` pieces exactly when some piece at `k` or beyond is non-empty. */
  lemma DropTrailingEmptyLength(parts: seq<string>, k: nat)
    ensures |DropTrailingEmpty(parts)| > k <==> exists j :: k <= j < |parts| && parts[j] != []
  {
    var r := DropTrailingEmpty(parts);
    if |r| > k {
      assert parts[|r| - 1] == r[|r| - 1];
    }
  }

  /** The split is empty exactly when the string is non-empty and made only of separators (e.g. "@"). */
  lemma SplitIsEmpty(s: string, c: char)
    ensures |Split(s, c)| == 0 <==> s != [] && OnlySeparators(s, c)
  {
    if c in s {
      SegmentsAllEmpty(s, c);
      DropTrailingEmptyLength(Segments(s, c), 0);
    } else if s != [] {
      assert s[0] != c;
    }
  }

  /** Element 0 of a non-empty split is the text before the first separator. */
  lemma SplitFirst(s: string, c: char)
    requires |Split(s, c)| >= 1
    ensures Split(s, c)[0] == BeforeFirst(s, c)
  {
    SegmentsUnfold(s, c);
  }

  /**
   * Element 1 exists exactly when a separator occurs and is followed by some
   * character other than the separator; it is then the text between the
   * first separator and the next one.
   */
  lemma SplitSecond(s: string, c: char)
    ensures |Split(s, c)| >= 2 <==> c in s && !OnlySeparators(AfterFirst(s, c), c)
    ensures |Split(s, c)| >= 2 ==> Split(s, c)[1] == BeforeFirst(AfterFirst(s, c), c)
  {
    if c in s {
      var after := AfterFirst(s, c);
      var segs := Segments(s, c);
      SegmentsUnfold(s, c);
      SegmentsUnfold(after, c);
      SegmentsAllEmpty(after, c);
      DropTrailingEmptyLength(segs, 1);
      if |Split(s, c)| >= 2 {
        var j :| 1 <= j < |segs| && segs[j] != [];
        assert Segments(after, c)[j - 1] == segs[j];
      }
      if !OnlySeparators(after, c) {
        var k :| 0 <= k < |Segments(after, c)| && Segments(after, c)[k] != [];
        assert segs[k + 1] == Segments(after, c)[k];
      }
    }
  }

  // ---------------------------------------------------------------------
  // StringUtils.hasText
  // ---------------------------------------------------------------------

  /** `Character.isWhitespace` for a UTF-16 code unit. */
  predicate IsJavaWhitespace(ch: char) {
    || ch == ' '
    || '\t' <= ch <= '\r'
    || '\U{1C}' <= ch <= '\U{1F}'
    || ch == '\U{1680}'
    || '\U{2000}' <= ch <= '\U{2006}'
    || '\U{2008}' <= ch <= '\U{200A}'
    || ch == '\U{2028}' || ch == '\U{2029}'
    || ch == '\U{205F}'
    || ch == '\U{3000}'
  }

  /** `StringUtils.hasText`: not null and holding at least one non-whitespace character. */
  predicate HasText(s: Option<string>) {
    s.Some? && exists i :: 0 <= i < |s.value| && !IsJavaWhitespace(s.value[i])
  }

  // ---------------------------------------------------------------------
  // Integer.toString, as used by string concatenation
  // ---------------------------------------------------------------------

  function DigitChar(d: nat): char
    requires d < 10
  {
    "0123456789"[d]
  }

  function DigitValue(ch: char): nat {
    if '0' <= ch <= '9' then (ch as int - '0' as int) as nat else 0
  }

  /** Decimal digits of `n`, most significant first, without leading zeros. */
  function Digits(n: nat): (r: string)
    ensures |r| >= 1
    ensures forall i :: 0 <= i < |r| ==> '0' <= r[i] <= '9'
    ensures |r| > 1 ==> r[0] != '0'
  {
    if n < 10 then [DigitChar(n)] else Digits(n / 10) + [DigitChar(n % 10)]
  }

  /** The decimal text of an int, with a leading '-' for negative values. */
  function DecimalString(n: int): string {
    if n < 0 then "-" + Digits(-n) else Digits(n)
  }

  /** Reads back a run of decimal digits. */
  function ParseDigits(s: string): nat {
    if s == [] then 0 else 10 * ParseDigits(s[..|s| - 1]) + DigitValue(s[|s| - 1])
  }

  /** Reads back an optionally negative decimal number. */
  function ParseDecimal(s: string): int {
    if s != [] && s[0] == '-' then -(ParseDigits(s[1..]) as int) else ParseDigits(s)
  }

  lemma {:induction false} ParseDigitsOfDigits(n: nat)
    ensures ParseDigits(Digits(n)) == n
  {
    var d := Digits(n);
    if n >= 10 {
      assert d[..|d| - 1] == Digits(n / 10);
      ParseDigitsOfDigits(n / 10);
    }
  }

  /** The rendering of a number determines the number. */
  lemma DecimalStringRoundTrip(n: int)
    ensures ParseDecimal(DecimalString(n)) == n
  {
    if n < 0 {
      assert DecimalString(n)[1..] == Digits(-n);
      ParseDigitsOfDigits(-n);
    } else {
      ParseDigitsOfDigits(n);
    }
  }
}
