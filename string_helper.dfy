/**
 * StringHelper: the sanitiser applied to every untrusted string, the client
 * address taken from X-Forwarded-For, and the bounded preview used when a
 * payload is logged.
 */
module StringHelper {
  import opened JavaLang

  /** Longest string any sanitised field may have. */
  const MAX_STRING_LEN: nat := 256

  /** Longest payload logged verbatim, and the prefix kept of a longer one. */
  const MAX_LOGGED_LEN: nat := 512
  const LOGGED_PREFIX_LEN: nat := 256

  /** Java's regex class \p{Cntrl}: ASCII only, U+0000-U+001F and U+007F. */
  predicate IsCntrl(c: char)
  {
    c as int <= 0x1F || c as int == 0x7F
  }

  predicate NoControls(s: string)
  {
    forall i | 0 <= i < |s| :: !IsCntrl(s[i])
  }

  /** s.replaceAll("\\p{Cntrl}", ""): every control character deleted, the rest kept. */
  function RemoveControls(s: string): (r: string)
    ensures |r| <= |s|
    ensures NoControls(r)
  {
    if s == [] then []
    else
      assert s == [s[0]] + s[1..];
      (if IsCntrl(s[0]) then [] else [s[0]]) + RemoveControls(s[1..])
  }

  /** Every character that is not a control character is kept, as often as it occurs. */
  lemma {:induction false} RemoveControlsKeepsText(s: string)
    ensures forall c | !IsCntrl(c) :: multiset(RemoveControls(s))[c] == multiset(s)[c]
  {
    if s != [] {
      RemoveControlsKeepsText(s[1..]);
      assert s == [s[0]] + s[1..];
    }
  }

  /** Control characters are removed piece by piece: what is kept stays in its order. */
  lemma {:induction false} RemoveControlsAppend(a: string, b: string)
    ensures RemoveControls(a + b) == RemoveControls(a) + RemoveControls(b)
  {
    if a != [] {
      RemoveControlsAppend(a[1..], b);
      assert (a + b)[1..] == a[1..] + b;
      assert (a + b)[0] == a[0];
    } else {
      assert a + b == b;
    }
  }

  /** A string without control characters passes through unchanged. */
  lemma {:induction false} RemoveControlsKeepsClean(s: string)
    requires NoControls(s)
    ensures RemoveControls(s) == s
  {
    if s != [] {
      RemoveControlsKeepsClean(s[1..]);
    }
  }

  /** The text sanitizeString works on before the length cut. */
  function Cleaned(s: string): (r: string)
    ensures NoControls(r)
    ensures r == [] || (r[0] != ' ' && r[|r| - 1] != ' ')
    ensures exists i, j | 0 <= i <= j <= |RemoveControls(s)| ::
      r == RemoveControls(s)[i..j] && TrimmedAround(RemoveControls(s), i, j)
  {
    var t := RemoveControls(s);
    TrimKeepsNoControls(t);
    Trim(t)
  }

  /** Trimming text without control characters leaves none, and leaves no space at either end. */
  lemma TrimKeepsNoControls(t: string)
    requires NoControls(t)
    ensures NoControls(Trim(t))
    ensures Trim(t) == [] || (Trim(t)[0] != ' ' && Trim(t)[|Trim(t)| - 1] != ' ')
  {
    var r := Trim(t);
    forall i | 0 <= i < |r|
      ensures !IsCntrl(r[i])
    {
      assert r[i] in r;
    }
    if r != [] {
      assert ' ' as int == 0x20;
    }
  }

  /**
   * sanitizeString: null gives ""; otherwise the control characters are
   * deleted, the ends trimmed, and the result cut to 256 characters.
   */
  function SanitizeString(s: Option<string>): (r: string)
    ensures s.None? ==> r == ""
    ensures |r| <= MAX_STRING_LEN
    ensures NoControls(r)
    ensures r == [] || r[0] != ' '
    ensures s.Some? ==> |r| == Min(|Cleaned(s.value)|, MAX_STRING_LEN) && r == Cleaned(s.value)[..|r|]
    ensures s.Some? && |Cleaned(s.value)| <= MAX_STRING_LEN ==> r == [] || r[|r| - 1] != ' '
  {
    if s.None? then ""
    else
      var cleaned := Cleaned(s.value);
      if |cleaned| > MAX_STRING_LEN then cleaned[..MAX_STRING_LEN] else cleaned
  }

  /** safeString: null gives "", anything else is sanitised; the two agree on every input. */
  function SafeString(s: Option<string>): (r: string)
    ensures r == SanitizeString(s)
  {
    if s.None? then "" else SanitizeString(s)
  }

  /** Clean text with no blank at either end is its own cleaned form. */
  lemma CleanedOfCleanText(s: string)
    requires NoControls(s)
    requires s == [] || (s[0] != ' ' && s[|s| - 1] != ' ')
    ensures Cleaned(s) == s
  {
    RemoveControlsKeepsClean(s);
    if s != [] {
      assert s[0] as int != 0x20 && !IsCntrl(s[0]);
      assert !IsTrimmable(s[0]);
      assert !IsTrimmable(s[|s| - 1]);
    }
    TrimOfUntrimmedEnds(s);
  }

  /** A character sanitising removes from the ends of a text: a control character, or one that trim removes. */
  predicate IsPadding(c: char)
  {
    IsTrimmable(c) || IsCntrl(c)
  }

  /**
   * Padding of spaces and control characters around a text whose first and
   * last characters are neither is removed, and from the text itself only
   * its control characters are.
   */
  lemma CleanedOfPaddedText(pre: string, x: string, post: string)
    requires forall k | 0 <= k < |pre| :: IsPadding(pre[k])
    requires forall k | 0 <= k < |post| :: IsPadding(post[k])
    requires x != [] && !IsPadding(x[0]) && !IsPadding(x[|x| - 1])
    ensures Cleaned(pre + x + post) == RemoveControls(x)
  {
    var p := RemoveControls(pre);
    var q := RemoveControls(post);
    var m := RemoveControls(x);
    assert RemoveControls(pre + x + post) == p + m + q by {
      RemoveControlsAppend(pre + x, post);
      RemoveControlsAppend(pre, x);
    }
    PaddingKeepsTrimmable(pre);
    PaddingKeepsTrimmable(post);
    RemoveControlsKeepsEnds(x);
    TrimOfPadded(p, m, q);
  }

  /** A text whose ends are not control characters keeps both ends. */
  lemma RemoveControlsKeepsEnds(x: string)
    requires x != [] && !IsCntrl(x[0]) && !IsCntrl(x[|x| - 1])
    ensures var m := RemoveControls(x);
      m != [] && m[0] == x[0] && m[|m| - 1] == x[|x| - 1]
  {
    var m := RemoveControls(x);
    assert x == [x[0]] + x[1..];
    RemoveControlsAppend([x[0]], x[1..]);
    assert x == x[..|x| - 1] + [x[|x| - 1]];
    RemoveControlsAppend(x[..|x| - 1], [x[|x| - 1]]);
  }

  /** Removing the control characters from padding leaves only trimmable characters. */
  lemma {:induction false} PaddingKeepsTrimmable(s: string)
    requires forall k | 0 <= k < |s| :: IsPadding(s[k])
    ensures forall k | 0 <= k < |RemoveControls(s)| :: IsTrimmable(RemoveControls(s)[k])
  {
    if s != [] {
      PaddingKeepsTrimmable(s[1..]);
    }
  }

  /** Cleaning clean text that ends in one space removes just that space. */
  lemma CleanedDropsTrailingSpace(a: string)
    requires NoControls(a) && a != []
    requires a[0] != ' ' && a[|a| - 1] != ' '
    ensures Cleaned(a + " ") == a
  {
    var once := a + " ";
    assert NoControls(once) by {
      assert forall i | 0 <= i < |a| :: once[i] == a[i];
    }
    RemoveControlsKeepsClean(once);
    assert a[0] as int != 0x20 && !IsCntrl(a[0]);
    assert a[|a| - 1] as int != 0x20 && !IsCntrl(a[|a| - 1]);
    assert !IsTrimmable(once[0]);
    assert TrimStart(once) == once;
    assert IsTrimmable(once[|once| - 1]);
    assert once[..|once| - 1] == a;
    assert UntrimmedLength(once) == UntrimmedLength(a);
    assert TrimEnd(once) == TrimEnd(a);
    TrimOfUntrimmedEnds(a);
  }

  /**
   * Sanitising is not idempotent: for a 255-character clean text a, the input
   * a + " b" is cut to a + " ", and a second pass trims that trailing space.
   */
  lemma SanitizeNotIdempotent(a: string)
    requires |a| == MAX_STRING_LEN - 1 && NoControls(a)
    requires a[0] != ' ' && a[|a| - 1] != ' '
    ensures SanitizeString(Some(a + " b")) == a + " "
    ensures SanitizeString(Some(a + " ")) == a
  {
    var s := a + " b";
    assert NoControls(s) by {
      assert forall i | 0 <= i < |a| :: s[i] == a[i];
    }
    CleanedOfCleanText(s);
    assert s[..MAX_STRING_LEN] == a + " ";
    CleanedDropsTrailingSpace(a);
  }

  /**
   * A sanitised string passed through the sanitiser again ends with no blank
   * at either end: it is short enough that the second pass does not cut it.
   */
  lemma SanitizeTwiceHasNoOuterBlank(s: Option<string>)
    ensures var r := SanitizeString(Some(SanitizeString(s)));
      r == [] || (r[0] != ' ' && r[|r| - 1] != ' ')
  {
    var t := SanitizeString(s);
    assert |Cleaned(t)| <= |RemoveControls(t)| <= |t| <= MAX_STRING_LEN;
  }

  /**
   * extractClientIp over the X-Forwarded-For value and the peer address: the
   * trimmed first element of split(",") when the header is present and not
   * blank and that element is not empty, the peer address otherwise. A
   * header made of commas alone makes split return nothing, and reading its
   * element 0 throws.
   */
  function ExtractClientIp(forwardedFor: Option<string>, remoteAddr: Option<string>): (r: Result<Option<string>>)
    ensures forwardedFor.None? || IsBlank(forwardedFor.value) ==> r == Ok(remoteAddr)
    ensures r.Thrown? ==> r.exception == ArrayIndexOutOfBounds && forwardedFor.Some? && OnlyCommas(forwardedFor.value)
    ensures r.Ok? && r.value != remoteAddr ==>
      && r.value.Some? && forwardedFor.Some?
      && var ip := r.value.value;
         ip != [] && ',' !in ip && !IsTrimmable(ip[0]) && !IsTrimmable(ip[|ip| - 1])
         && ip == Trim(BeforeFirst(forwardedFor.value, ','))
  {
    if forwardedFor.Some? && !IsBlank(forwardedFor.value) then
      var parts := Split(forwardedFor.value, ',');
      if |parts| == 0 then
        SplitEmptyIff(forwardedFor.value, ',');
        Thrown(ArrayIndexOutOfBounds)
      else
        var first := Trim(parts[0]);
        SplitFirst(forwardedFor.value, ',');
        if first != [] then Ok(Some(first)) else Ok(remoteAddr)
    else Ok(remoteAddr)
  }

  predicate OnlyCommas(s: string)
  {
    |s| > 0 && forall j | 0 <= j < |s| :: s[j] == ','
  }

  /** The outcome of extractClientIp in terms of the text before the header's first comma. */
  lemma ExtractClientIpChoice(forwardedFor: Option<string>, remoteAddr: Option<string>)
    ensures var r := ExtractClientIp(forwardedFor, remoteAddr);
      if forwardedFor.None? || IsBlank(forwardedFor.value) then r == Ok(remoteAddr)
      else if OnlyCommas(forwardedFor.value) then r == Thrown(ArrayIndexOutOfBounds)
      else if Trim(BeforeFirst(forwardedFor.value, ',')) != [] then
        r == Ok(Some(Trim(BeforeFirst(forwardedFor.value, ','))))
      else r == Ok(remoteAddr)
  {
    if forwardedFor.Some? && !IsBlank(forwardedFor.value) {
      var h := forwardedFor.value;
      SplitEmptyIff(h, ',');
      if Split(h, ',') != [] {
        SplitFirst(h, ',');
      }
    }
  }

  /** The marker appended to a truncated payload preview. */
  function TruncationMarker(length: nat): string
  {
    "...[truncated:" + DecimalString(length) + " bytes]"
  }

  /**
   * maskPayloadForLogs: null gives ""; up to 512 characters are logged as
   * they are; a longer payload is cut to its first 256 characters followed by
   * a marker that carries its length (a count of characters, labelled bytes).
   */
  function MaskPayloadForLogs(json: Option<string>): (r: string)
    ensures json.None? ==> r == ""
    ensures json.Some? && |json.value| <= MAX_LOGGED_LEN ==> r == json.value
    ensures json.Some? && |json.value| > MAX_LOGGED_LEN ==>
      |r| > LOGGED_PREFIX_LEN && r[..LOGGED_PREFIX_LEN] == json.value[..LOGGED_PREFIX_LEN]
    ensures json.Some? && |json.value| > MAX_LOGGED_LEN ==>
      && |r| >= LOGGED_PREFIX_LEN + 21
      && r[LOGGED_PREFIX_LEN..LOGGED_PREFIX_LEN + 14] == "...[truncated:"
      && r[|r| - 7..] == " bytes]"
  {
    if json.None? then ""
    else if |json.value| <= MAX_LOGGED_LEN then json.value
    else json.value[..LOGGED_PREFIX_LEN] + TruncationMarker(|json.value|)
  }

  /**
   * A truncated preview is shorter than the payload, stays within 512
   * characters for any Java string (length below 2^31), and its marker
   * reads back as the payload's length.
   */
  lemma {:induction false} MaskedPreviewIsBounded(json: string)
    requires |json| > MAX_LOGGED_LEN
    ensures var r := MaskPayloadForLogs(Some(json));
      var digits := r[LOGGED_PREFIX_LEN + 14..|r| - 7];
      && |r| < |json|
      && (|json| < 0x8000_0000 ==> |r| <= MAX_LOGGED_LEN)
      && (forall i | 0 <= i < |digits| :: IsDigit(digits[i]))
      && ParseDecimal(digits) == |json|
  {
    var n := |json|;
    var r := MaskPayloadForLogs(Some(json));
    var d := DecimalString(n);
    assert r == json[..LOGGED_PREFIX_LEN] + "...[truncated:" + d + " bytes]";
    assert r[LOGGED_PREFIX_LEN + 14..|r| - 7] == d;
    ParseDecimalString(n);
    DecimalStringShort(n);
    if n < 0x8000_0000 {
      assert Pow10(10) == 10_000_000_000;
      DecimalStringLength(n, 10, Pow10(10));
    }
  }

  /** A number of at least 10 has fewer digits than a tenth of it plus one. */
  lemma {:induction false} DecimalStringShort(n: nat)
    ensures |DecimalString(n)| <= 1 + n / 10
  {
    if n >= 10 {
      DecimalStringShort(n / 10);
    }
  }
}
