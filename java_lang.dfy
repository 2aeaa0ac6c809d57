/**
 * The few pieces of the Java platform that the plugin's core leans on, stated
 * precisely enough to reason about: null-able values, exceptions that escape,
 * IEEE doubles reduced to the cases the code tests, Math.round, and the
 * java.lang.String operations trim, isBlank, split, getBytes(UTF_8).length and
 * the decimal rendering of an int.
 */
module JavaLang {

  /** A Java reference that may be null. */
  datatype Option<+T> = None | Some(value: T)

  /** The exceptions the core can let escape. */
  datatype JavaException = NullPointer | ArrayIndexOutOfBounds

  /** A value, or the exception thrown while computing it. */
  datatype Result<+T> = Ok(value: T) | Thrown(exception: JavaException)

  /** A Java double: NaN, the two infinities, or a finite value taken as an exact real. */
  datatype Double = NaN | PosInf | NegInf | Finite(r: real)

  type Int = x: int | -0x8000_0000 <= x <= 0x7FFF_FFFF
  type Long = x: int | -0x8000_0000_0000_0000 <= x <= 0x7FFF_FFFF_FFFF_FFFF

  const LONG_MIN: Long := -0x8000_0000_0000_0000
  const LONG_MAX: Long := 0x7FFF_FFFF_FFFF_FFFF

  function Max(a: int, b: int): int { if a < b then b else a }
  function Min(a: int, b: int): int { if a < b then a else b }

  /** The long nearest to n, as a narrowing that saturates. */
  function Saturate(n: int): Long
  {
    if n < LONG_MIN then LONG_MIN else if n > LONG_MAX then LONG_MAX else n
  }

  /**
   * Math.round(double): floor(v + 1/2), so ties go toward positive infinity;
   * NaN gives 0 and values beyond the long range saturate.
   */
  function Round(v: Double): (r: Long)
    ensures v.NaN? ==> r == 0
    ensures v.PosInf? ==> r == LONG_MAX
    ensures v.NegInf? ==> r == LONG_MIN
  {
    match v
    case NaN => 0
    case PosInf => LONG_MAX
    case NegInf => LONG_MIN
    case Finite(x) => Saturate((x + 0.5).Floor)
  }

  /** Inside the long range, Round picks the unique integer in (v - 1/2, v + 1/2]. */
  lemma RoundIsNearest(x: real)
    requires LONG_MIN as real <= x <= LONG_MAX as real
    ensures x - 0.5 < Round(Finite(x)) as real <= x + 0.5
  {
  }

  /** Java's `a < b` on doubles: false whenever either side is NaN. */
  predicate Less(a: Double, b: Double)
  {
    match (a, b)
    case (NaN, _) => false
    case (_, NaN) => false
    case (PosInf, _) => false
    case (_, PosInf) => true
    case (_, NegInf) => false
    case (NegInf, _) => true
    case (Finite(x), Finite(y)) => x < y
  }

  /**
   * On doubles other than NaN, `<` is a strict total order; NaN is neither
   * below nor above anything, itself included.
   */
  lemma LessIsStrictOrderBesideNaN(a: Double, b: Double, c: Double)
    ensures !Less(a, a)
    ensures Less(a, b) ==> !Less(b, a)
    ensures Less(a, b) && Less(b, c) ==> Less(a, c)
    ensures !a.NaN? && !b.NaN? && a != b ==> Less(a, b) || Less(b, a)
    ensures a.NaN? || b.NaN? ==> !Less(a, b)
  {
  }

  // ---------------------------------------------------------------------
  // Characters and strings
  // ---------------------------------------------------------------------

  /**
   * Character.isWhitespace: the space, line and paragraph separators except
   * the non-breaking ones (U+00A0, U+2007, U+202F), plus U+0009-U+000D and
   * U+001C-U+001F.
   */
  predicate IsWhitespace(c: char)
  {
    var n := c as int;
    (0x09 <= n <= 0x0D) || (0x1C <= n <= 0x20) || n == 0x1680
    || (0x2000 <= n <= 0x2006) || (0x2008 <= n <= 0x200A)
    || n == 0x2028 || n == 0x2029 || n == 0x205F || n == 0x3000
  }

  /** String.isBlank: empty, or whitespace only. */
  predicate IsBlank(s: string)
  {
    forall i | 0 <= i < |s| :: IsWhitespace(s[i])
  }

  /**
   * isBlank and trimming to nothing are different tests: an ideographic
   * space is blank but survives trim, and U+0000 is not blank but is trimmed.
   */
  lemma BlankAndTrimDiffer()
    ensures IsBlank("") && IsBlank(" \t\r\n") && Trim(" \t\r\n") == ""
    ensures IsBlank("\U{3000}") && Trim("\U{3000}") == "\U{3000}"
    ensures !IsBlank("\U{0}") && Trim("\U{0}") == ""
    ensures !IsBlank("\U{A0}")
  {
    assert !IsWhitespace("\U{A0}"[0]);
    TrimOfUntrimmedEnds("\U{3000}");
    assert Trim("\U{0}") == "" by {
      assert LeadingTrimmable("\U{0}") == 1;
    }
    assert Trim(" \t\r\n") == "" by {
      assert LeadingTrimmable(" \t\r\n") == 4;
    }
  }

  /** The characters String.trim removes: every code at or below U+0020. */
  predicate IsTrimmable(c: char)
  {
    c as int <= 0x20
  }

  /** The length of the leading run of trimmable characters. */
  function LeadingTrimmable(s: string): (k: nat)
    ensures k <= |s|
    ensures forall i | 0 <= i < k :: IsTrimmable(s[i])
    ensures k < |s| ==> !IsTrimmable(s[k])
  {
    if s == [] || !IsTrimmable(s[0]) then 0
    else
      var k := LeadingTrimmable(s[1..]);
      assert forall i | 1 <= i <= k :: s[i] == s[1..][i - 1];
      k + 1
  }

  /** The length of s without its trailing run of trimmable characters. */
  function UntrimmedLength(s: string): (e: nat)
    ensures e <= |s|
    ensures forall i | e <= i < |s| :: IsTrimmable(s[i])
    ensures e > 0 ==> !IsTrimmable(s[e - 1])
  {
    if s == [] || !IsTrimmable(s[|s| - 1]) then |s| else UntrimmedLength(s[..|s| - 1])
  }

  /** Drops the leading run of trimmable characters. */
  function TrimStart(s: string): (r: string)
    ensures r == [] || !IsTrimmable(r[0])
  {
    s[LeadingTrimmable(s)..]
  }

  /** Drops the trailing run of trimmable characters. */
  function TrimEnd(s: string): (r: string)
    ensures r == [] || !IsTrimmable(r[|r| - 1])
  {
    s[..UntrimmedLength(s)]
  }

  /**
   * String.trim: the text between the leading and the trailing run of
   * trimmable characters; what is left has no trimmable character at either
   * end and holds characters of s only.
   */
  function Trim(s: string): (r: string)
    ensures |r| <= |s|
    ensures forall c | c in r :: c in s
    ensures r == [] || (!IsTrimmable(r[0]) && !IsTrimmable(r[|r| - 1]))
    ensures exists i, j | 0 <= i <= j <= |s| :: r == s[i..j] && TrimmedAround(s, i, j)
  {
    var i := LeadingTrimmable(s);
    var t := TrimStart(s);
    var r := TrimEnd(t);
    var j := i + UntrimmedLength(t);
    assert r == s[i..j];
    assert forall k | j <= k < |s| :: s[k] == t[k - i];
    assert TrimmedAround(s, i, j);
    assert forall c | c in r :: c in t;
    r
  }

  /** Everything of s before index i and from index j on is trimmable. */
  predicate TrimmedAround(s: string, i: nat, j: nat)
    requires i <= j <= |s|
  {
    (forall k | 0 <= k < i :: IsTrimmable(s[k])) && (forall k | j <= k < |s| :: IsTrimmable(s[k]))
  }

  /** Trimmable padding around a text with untrimmable ends is removed, and nothing else. */
  lemma TrimOfPadded(pre: string, x: string, post: string)
    requires forall k | 0 <= k < |pre| :: IsTrimmable(pre[k])
    requires forall k | 0 <= k < |post| :: IsTrimmable(post[k])
    requires x != [] && !IsTrimmable(x[0]) && !IsTrimmable(x[|x| - 1])
    ensures Trim(pre + x + post) == x
  {
    var s := pre + x + post;
    var i := LeadingTrimmable(s);
    assert s[|pre|] == x[0];
    assert i == |pre|;
    var t := s[i..];
    assert t == x + post;
    var e := UntrimmedLength(t);
    assert t[|x| - 1] == x[|x| - 1];
    assert forall k | |x| <= k < |t| :: t[k] == post[k - |x|];
    assert e == |x|;
    assert t[..e] == x;
  }

  /** A string without trimmable characters at either end is its own trim. */
  lemma TrimOfUntrimmedEnds(s: string)
    requires s == [] || (!IsTrimmable(s[0]) && !IsTrimmable(s[|s| - 1]))
    ensures Trim(s) == s
  {
    assert TrimStart(s) == s;
    assert TrimEnd(s) == s;
  }

  /** String.indexOf(c) for a character that occurs. */
  function IndexOf(s: string, c: char): (i: nat)
    requires c in s
    ensures i < |s| && s[i] == c && c !in s[..i]
  {
    if s[0] == c then 0
    else
      var j := IndexOf(s[1..], c);
      assert s[..j + 1] == [s[0]] + s[1..][..j];
      j + 1
  }

  /** The text before the first occurrence of sep, or all of s when there is none. */
  function BeforeFirst(s: string, sep: char): (r: string)
    ensures sep !in r
    ensures |r| <= |s| && r == s[..|r|]
    ensures |r| < |s| ==> s[|r|] == sep
  {
    if sep in s then s[..IndexOf(s, sep)] else s
  }

  /** Every piece of s between separators, empty pieces included. */
  function Segments(s: string, sep: char): (ts: seq<string>)
    ensures |ts| >= 1 && ts[0] == BeforeFirst(s, sep)
    ensures forall k | 0 <= k < |ts| :: sep !in ts[k]
    decreases |s|
  {
    if sep in s then
      var i := IndexOf(s, sep);
      [s[..i]] + Segments(s[i + 1..], sep)
    else [s]
  }

  /** Removes the empty strings at the end of ts. */
  function DropTrailingEmpty(ts: seq<string>): (r: seq<string>)
    ensures |r| <= |ts| && r == ts[..|r|]
    ensures r == [] || r[|r| - 1] != []
    ensures forall i | |r| <= i < |ts| :: ts[i] == []
    decreases |ts|
  {
    if ts != [] && ts[|ts| - 1] == [] then DropTrailingEmpty(ts[..|ts| - 1]) else ts
  }

  /**
   * String.split with a one-character literal pattern and no limit: the input
   * itself when the separator does not occur; otherwise its segments with the
   * trailing empty ones removed.
   */
  function Split(s: string, sep: char): (r: seq<string>)
    ensures sep !in s ==> r == [s]
    ensures forall k | 0 <= k < |r| :: sep !in r[k]
    ensures sep in s ==> r == [] || r[|r| - 1] != []
  {
    if sep !in s then [s] else DropTrailingEmpty(Segments(s, sep))
  }

  /** Every character of s is sep. */
  predicate AllSep(s: string, sep: char)
  {
    forall j | 0 <= j < |s| :: s[j] == sep
  }

  /** Every string of ts is empty. */
  predicate AllEmpty(ts: seq<string>)
  {
    forall k | 0 <= k < |ts| :: ts[k] == []
  }

  /** Every segment is empty exactly when every character is the separator. */
  lemma {:induction false} SegmentsAllEmpty(s: string, sep: char)
    ensures AllEmpty(Segments(s, sep)) <==> AllSep(s, sep)
    decreases |s|
  {
    var ts := Segments(s, sep);
    if sep in s {
      var i := IndexOf(s, sep);
      var rest := s[i + 1..];
      SegmentsAllEmpty(rest, sep);
      var tail := Segments(rest, sep);
      assert ts == [s[..i]] + tail;
      if i == 0 {
        assert AllSep(s, sep) <==> AllSep(rest, sep) by {
          assert forall j | 0 <= j < |rest| :: rest[j] == s[j + 1];
          assert forall j | 1 <= j < |s| :: s[j] == rest[j - 1];
        }
        assert AllEmpty(ts) <==> AllEmpty(tail) by {
          assert forall k | 0 <= k < |tail| :: tail[k] == ts[k + 1];
          assert forall k | 1 <= k < |ts| :: ts[k] == tail[k - 1];
        }
      } else {
        assert ts[0] != [];
        assert s[0] != sep by { assert s[0] == s[..i][0]; }
      }
    } else if s != [] {
      assert ts == [s];
      assert s[0] != sep;
    } else {
      assert ts == [[]];
    }
  }

  /** split(sep) yields no element at all exactly when s is a non-empty run of separators. */
  lemma SplitEmptyIff(s: string, sep: char)
    ensures Split(s, sep) == [] <==> (|s| > 0 && AllSep(s, sep))
  {
    if sep in s {
      SegmentsAllEmpty(s, sep);
      var ts := Segments(s, sep);
      var r := DropTrailingEmpty(ts);
      if r != [] {
        assert r[|r| - 1] == ts[|r| - 1];
      }
    } else if s != [] {
      assert s[0] != sep;
    }
  }

  /** When split(sep) yields something, its first element is the text before the first separator. */
  lemma SplitFirst(s: string, sep: char)
    requires Split(s, sep) != []
    ensures Split(s, sep)[0] == BeforeFirst(s, sep)
  {
  }

  /** Number of bytes of the UTF-8 encoding of one code point. */
  function Utf8Width(c: char): (n: nat)
    ensures 1 <= n <= 4
  {
    if c as int < 0x80 then 1
    else if c as int < 0x800 then 2
    else if c as int < 0x1_0000 then 3
    else 4
  }

  /** getBytes(StandardCharsets.UTF_8).length. */
  function Utf8Length(s: string): (n: nat)
    ensures |s| <= n <= 4 * |s|
  {
    if s == [] then 0 else Utf8Width(s[0]) + Utf8Length(s[1..])
  }

  // ---------------------------------------------------------------------
  // Decimal rendering of a non-negative int (string concatenation)
  // ---------------------------------------------------------------------

  function DigitChar(d: nat): char
    requires d < 10
  {
    ['0', '1', '2', '3', '4', '5', '6', '7', '8', '9'][d]
  }

  predicate IsDigit(c: char) { '0' as int <= c as int <= '9' as int }

  /** The decimal text of n, as `"" + n` writes it. */
  function DecimalString(n: nat): (s: string)
    ensures |s| >= 1
    ensures forall i | 0 <= i < |s| :: IsDigit(s[i])
    ensures s[0] == '0' ==> n == 0
  {
    if n < 10 then [DigitChar(n)] else DecimalString(n / 10) + [DigitChar(n % 10)]
  }

  /** Reads a run of decimal digits back as a number. */
  function ParseDecimal(s: string): nat
    requires forall i | 0 <= i < |s| :: IsDigit(s[i])
  {
    if s == [] then 0
    else
      assert IsDigit(s[|s| - 1]);
      ParseDecimal(s[..|s| - 1]) * 10 + (s[|s| - 1] as int - '0' as int)
  }

  /** The decimal text of n reads back as n. */
  lemma {:induction false} ParseDecimalString(n: nat)
    ensures ParseDecimal(DecimalString(n)) == n
  {
    if n >= 10 {
      ParseDecimalString(n / 10);
      var s := DecimalString(n);
      assert s[..|s| - 1] == DecimalString(n / 10);
    }
  }

  /** Numbers below 10^k have at most k digits. */
  lemma {:induction false} DecimalStringLength(n: nat, k: nat, bound: nat)
    requires bound == Pow10(k) && n < bound
    ensures |DecimalString(n)| <= Max(k, 1)
  {
    if n >= 10 {
      assert k >= 2;
      Pow10Step(k - 1);
      DecimalStringLength(n / 10, k - 1, Pow10(k - 1));
    }
  }

  function Pow10(k: nat): (p: nat)
    ensures p >= 1
  {
    if k == 0 then 1 else 10 * Pow10(k - 1)
  }

  lemma Pow10Step(k: nat)
    ensures Pow10(k + 1) == 10 * Pow10(k)
  {
  }
}
