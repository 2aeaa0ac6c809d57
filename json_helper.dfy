/**
 * JsonHelper.sanitizeAndValidateMetrics: reduces the raw telemetry string to
 * an object holding only allow-listed fields, each of the declared type and
 * forced into its bounds, and rejects the whole payload when it is null,
 * too large, not JSON, not an object, or when the rebuilt object is too large.
 */
module JsonHelper {
  import opened JavaLang
  import opened NumberHelper
  import opened StringHelper
  import opened Json
  import opened AllowedFields

  const MAX_METRICS_BYTES: nat := 8 * 1024
  const MAX_NUM_PARTITION: Int := 1_000_000_000
  const MAX_KEY_COUNT: Int := 10_000
  const MAX_CLICK_COUNT: Int := 10_000
  const MAX_POINTER_DISTANCE_PX: Int := 10_000_000
  const MAX_SCROLL_DISTANCE_PX: Int := 10_000_000
  const MAX_DOM_READY_MS: Int := 86_400_000
  const MAX_TZ_OFFSET_MIN: Int := 24 * 60
  const MAX_DEVICE_MEMORY_GB: Int := 1024
  const MAX_HW_CONCURRENCY: Int := 1024
  const MAX_PIXEL_RATIO: real := 16.0
  const MAX_COLLECTION_TIMESTAMP_LEN: nat := 64
  const METRICS_VERSION_MAX: Int := 1000

  /** How a number field is bounded: rounded into an integer range, or clamped as a double. */
  datatype Bound = IntBound(lo: Int, hi: Int) | RealBound(rlo: real, rhi: real)

  /** The explicit cases of the per-key switch over number fields. */
  const NUMBER_BOUNDS: map<string, Bound> := map[
    "key_count" := IntBound(0, MAX_KEY_COUNT),
    "click_count" := IntBound(0, MAX_CLICK_COUNT),
    "pointer_distance_px" := IntBound(0, MAX_POINTER_DISTANCE_PX),
    "pointer_event_count" := IntBound(0, MAX_NUM_PARTITION),
    "focus_changes" := IntBound(0, MAX_NUM_PARTITION),
    "blur_events" := IntBound(0, MAX_NUM_PARTITION),
    "input_focus_count" := IntBound(0, MAX_NUM_PARTITION),
    "paste_events" := IntBound(0, MAX_NUM_PARTITION),
    "resize_events" := IntBound(0, MAX_NUM_PARTITION),
    "scroll_event_count" := IntBound(0, MAX_NUM_PARTITION),
    "screen_width_px" := IntBound(0, MAX_NUM_PARTITION),
    "screen_height_px" := IntBound(0, MAX_NUM_PARTITION),
    "color_depth" := IntBound(0, MAX_NUM_PARTITION),
    "scroll_distance_px" := IntBound(0, MAX_SCROLL_DISTANCE_PX),
    "avg_key_delay_ms" := IntBound(0, MAX_DOM_READY_MS),
    "time_to_first_key_ms" := IntBound(0, MAX_DOM_READY_MS),
    "time_to_first_click_ms" := IntBound(0, MAX_DOM_READY_MS),
    "idle_time_total_ms" := IntBound(0, MAX_DOM_READY_MS),
    "dom_ready_ms" := IntBound(0, MAX_DOM_READY_MS),
    "metrics_version" := IntBound(0, METRICS_VERSION_MAX),
    "tz_offset_min" := IntBound(-MAX_TZ_OFFSET_MIN, MAX_TZ_OFFSET_MIN),
    "device_memory_gb" := IntBound(0, MAX_DEVICE_MEMORY_GB),
    "hardware_concurrency" := IntBound(1, MAX_HW_CONCURRENCY),
    "pixel_ratio" := RealBound(0.0, MAX_PIXEL_RATIO)
  ]

  /**
   * The bound of a number field: its explicit case, else the generic double
   * clamp. Every bound is a non-empty interval; integer bounds stay within
   * [-1440, 10^9], so every stored int fits Java's int, and only
   * tz_offset_min may go below 0; pixel_ratio is the one explicit case
   * clamped as a double.
   */
  function NumberBound(key: string): (b: Bound)
    ensures WellFormed(b)
    ensures b.IntBound? ==> -MAX_TZ_OFFSET_MIN <= b.lo && b.hi <= MAX_NUM_PARTITION
    ensures b.IntBound? && key != "tz_offset_min" ==> 0 <= b.lo
    ensures b.RealBound? ==> key == "pixel_ratio" || key !in NUMBER_BOUNDS
    ensures key !in NUMBER_BOUNDS ==> b == RealBound(-MAX_NUM_PARTITION as real, MAX_NUM_PARTITION as real)
  {
    if key in NUMBER_BOUNDS then NUMBER_BOUNDS[key]
    else RealBound(-MAX_NUM_PARTITION as real, MAX_NUM_PARTITION as real)
  }

  /** Every bound in the table is a non-empty interval. */
  predicate WellFormed(b: Bound)
  {
    match b
    case IntBound(lo, hi) => lo <= hi
    case RealBound(lo, hi) => lo <= hi
  }

  /** A stored value lies in bound b, with the representation b calls for. */
  predicate InBound(b: Bound, v: Val)
  {
    match b
    case IntBound(lo, hi) => v.VInt? && lo <= v.i <= hi
    case RealBound(lo, hi) => v.VReal? && lo <= v.r <= hi
  }

  /**
   * The stored value of a number field: clamp for integer bounds, clampDouble
   * for the others. A finite value under an integer bound is stored as
   * floor(x + 1/2) forced into the bound; under a double bound it is stored
   * as x forced into the bound, without rounding.
   */
  function ClampNumber(key: string, d: Double): (v: Val)
    ensures WellFormed(NumberBound(key)) ==> InBound(NumberBound(key), v)
    ensures d.Finite? && NumberBound(key).RealBound? && NumberBound(key).rlo <= d.r <= NumberBound(key).rhi
      ==> v == VReal(d.r)
    ensures d.Finite? && NumberBound(key).IntBound? ==>
      var lo, hi, n := NumberBound(key).lo, NumberBound(key).hi, (d.r + 0.5).Floor;
      v == VInt(if n < lo then lo else if n > hi then hi else n)
    ensures d.Finite? && NumberBound(key).RealBound? ==>
      var lo, hi := NumberBound(key).rlo, NumberBound(key).rhi;
      v == VReal(if d.r < lo then lo else if d.r > hi then hi else d.r)
  {
    match NumberBound(key)
    case IntBound(lo, hi) =>
      if d.Finite? then ClampFinite(d.r, lo, hi); VInt(Clamp(d, lo, hi))
      else VInt(Clamp(d, lo, hi))
    case RealBound(lo, hi) => VReal(ClampDouble(d, lo, hi))
  }

  /** A stored number as the double Gson would read back from it. */
  function StoredNumber(v: Val): Double
  {
    match v
    case VInt(i) => Finite(i as real)
    case VReal(r) => Finite(r)
    case _ => NaN
  }

  /** Clamping a stored number of a field again stores the same value. */
  lemma ClampNumberIdempotent(key: string, d: Double)
    ensures ClampNumber(key, StoredNumber(ClampNumber(key, d))) == ClampNumber(key, d)
  {
    match NumberBound(key)
    case IntBound(lo, hi) => ClampIdempotent(d, lo, hi);
    case RealBound(lo, hi) => ClampDoubleIdempotent(d, lo, hi);
  }

  /**
   * Field-level round trip: a number field's stored value, put back into the
   * object as a JSON number, is stored unchanged.
   */
  lemma StoredNumberFieldIsFixed(key: string, obj: map<string, Json>)
    requires ValidateField(key, Number, obj).Some?
    ensures ValidateField(key, Number, obj[key := JNumber(Some(StoredNumber(ValidateField(key, Number, obj).value)))])
      == ValidateField(key, Number, obj)
  {
    ClampNumberIdempotent(key, obj[key].asDouble.value);
  }

  /** The stored text of a string field: sanitised, and cut to 64 characters for collection_timestamp. */
  function SanitizeText(key: string, s: string): (r: string)
    ensures |r| <= MAX_STRING_LEN && NoControls(r)
    ensures |r| <= |SanitizeString(Some(s))| && r == SanitizeString(Some(s))[..|r|]
    ensures key == "collection_timestamp" ==> |r| == Min(|SanitizeString(Some(s))|, MAX_COLLECTION_TIMESTAMP_LEN)
    ensures key != "collection_timestamp" ==> r == SanitizeString(Some(s))
  {
    var t := SanitizeString(Some(s));
    if key == "collection_timestamp" && |t| > MAX_COLLECTION_TIMESTAMP_LEN then
      PrefixKeepsNoControls(t, MAX_COLLECTION_TIMESTAMP_LEN);
      t[..MAX_COLLECTION_TIMESTAMP_LEN]
    else t
  }

  /** The first n characters of a text without control characters have none either. */
  lemma PrefixKeepsNoControls(t: string, n: nat)
    requires n <= |t| && NoControls(t)
    ensures NoControls(t[..n])
  {
    assert forall i | 0 <= i < n :: t[..n][i] == t[i];
  }

  /** The runtime type of a JSON element matches the declared type. */
  predicate HasType(el: Json, expected: FieldType)
  {
    match expected
    case Number => el.JNumber?
    case Boolean => el.JBool?
    case String => el.JString?
  }

  /**
   * One pass of the loop body: the value stored for allowed field key, or None
   * when the field is skipped (absent, JSON null, wrong type, unreadable or
   * non-finite number).
   */
  function ValidateField(key: string, expected: FieldType, obj: map<string, Json>): (r: Option<Val>)
    ensures key !in obj || obj[key].JNull? ==> r.None?
    ensures r.Some? ==> key in obj && HasType(obj[key], expected)
    ensures r.Some? && expected == Number ==> InBound(NumberBound(key), r.value)
    ensures key in obj && expected == Number && obj[key].JNumber? ==>
      (r.Some? <==> obj[key].asDouble.Some? && obj[key].asDouble.value.Finite?)
    ensures key in obj && expected == Number && obj[key].JNumber? && obj[key].asDouble.Some? && obj[key].asDouble.value.Finite?
      ==> r == Some(ClampNumber(key, obj[key].asDouble.value))
    ensures key in obj && expected == Boolean && obj[key].JBool? ==> r == Some(VBool(obj[key].b))
    ensures key in obj && expected == String && obj[key].JString? ==> r == Some(VStr(SanitizeText(key, obj[key].s)))
  {
    if key !in obj then None
    else
      var el := obj[key];
      if el.JNull? || !HasType(el, expected) then None
      else match el
        case JNumber(d) =>
          if d.None? || !d.value.Finite? then None
          else Some(ClampNumber(key, d.value))
        case JBool(b) => Some(VBool(b))
        case JString(s) => Some(VStr(SanitizeText(key, s)))
        case _ => None
  }

  /** A one-entry object for a kept field, nothing for a skipped one. */
  function Emit(key: string, v: Option<Val>): Fields
  {
    if v.Some? then [(key, v.value)] else []
  }

  /** The object built by walking table in order over the parsed members obj. */
  function SanitizeFields(table: AllowList, obj: map<string, Json>): (out: Fields)
    ensures |out| <= |table|
    decreases |table|
  {
    if table == [] then []
    else
      var n := |table| - 1;
      SanitizeFields(table[..n], obj) + Emit(table[n].0, ValidateField(table[n].0, table[n].1, obj))
  }

  /**
   * The whole of sanitizeAndValidateMetrics, given how Gson parses raw and how
   * many UTF-8 bytes the built object serialises to.
   */
  function ValidateMetrics(raw: Option<string>, parse: string -> Option<Json>, outBytes: Fields -> nat): (r: Option<Fields>)
    ensures raw.None? ==> r.None?
    ensures raw.Some? && Utf8Length(raw.value) > MAX_METRICS_BYTES ==> r.None?
    ensures r.Some? ==> raw.Some? && Utf8Length(raw.value) <= MAX_METRICS_BYTES
    ensures r.Some? ==> parse(raw.value).Some? && parse(raw.value).value.JObject?
    ensures r.Some? ==> r.value == SanitizeFields(ALLOWED_FIELDS, parse(raw.value).value.members)
    ensures r.Some? ==> outBytes(r.value) <= MAX_METRICS_BYTES
    ensures raw.Some? && Utf8Length(raw.value) <= MAX_METRICS_BYTES
      && parse(raw.value).Some? && parse(raw.value).value.JObject?
      && outBytes(SanitizeFields(ALLOWED_FIELDS, parse(raw.value).value.members)) <= MAX_METRICS_BYTES
      ==> r == Some(SanitizeFields(ALLOWED_FIELDS, parse(raw.value).value.members))
  {
    if raw.None? then None
    else if Utf8Length(raw.value) > MAX_METRICS_BYTES then None
    else match parse(raw.value)
      case None => None
      case Some(parsed) =>
        if !parsed.JObject? then None
        else
          var out := SanitizeFields(ALLOWED_FIELDS, parsed.members);
          if outBytes(out) > MAX_METRICS_BYTES then None else Some(out)
  }

  /**
   * sanitizeAndValidateMetrics. Parsing (JsonParser.parseString, None when it
   * throws) and the UTF-8 size of out.toString() are Gson's and come in as
   * functions.
   */
  method SanitizeAndValidateMetrics(raw: Option<string>, parse: string -> Option<Json>, outBytes: Fields -> nat)
    returns (r: Option<Fields>)
    ensures r == ValidateMetrics(raw, parse, outBytes)
  {
    if raw.None? {
      return None;
    }
    if Utf8Length(raw.value) > MAX_METRICS_BYTES {
      return None;
    }
    var parsed := parse(raw.value);
    if parsed.None? {
      return None;
    }
    if !parsed.value.JObject? {
      return None;
    }
    var out := SanitizeObject(ALLOWED_FIELDS, parsed.value.members);
    if outBytes(out) > MAX_METRICS_BYTES {
      return None;
    }
    return Some(out);
  }

  /**
   * The loop of sanitizeAndValidateMetrics over the allow-list table: each
   * allowed field present in obj, not JSON null and of the declared type is
   * added, in table order, as its clamped or sanitised value.
   */
  method SanitizeObject(table: AllowList, obj: map<string, Json>) returns (out: Fields)
    ensures out == SanitizeFields(table, obj)
  {
    out := [];
    for i := 0 to |table|
      invariant out == SanitizeFields(table[..i], obj)
    {
      var (key, expected) := table[i];
      assert table[..i + 1][..i] == table[..i];
      if key !in obj {
        continue;
      }
      var el := obj[key];
      if el.JNull? {
        continue;
      }
      match expected {
        case Number =>
          if !el.JNumber? {
            continue;
          }
          if el.asDouble.None? {
            continue;  // getAsDouble threw: the catch block drops the field
          }
          var dv := el.asDouble.value;
          if !dv.Finite? {
            continue;
          }
          out := out + [(key, ClampNumber(key, dv))];
        case Boolean =>
          if !el.JBool? {
            continue;
          }
          out := out + [(key, VBool(el.b))];
        case String =>
          if !el.JString? {
            continue;
          }
          var s := SanitizeString(Some(el.s));
          if key == "collection_timestamp" && |s| > MAX_COLLECTION_TIMESTAMP_LEN {
            s := s[..MAX_COLLECTION_TIMESTAMP_LEN];
          }
          assert s == SanitizeText(key, el.s);
          out := out + [(key, VStr(s))];
      }
    }
    assert table[..|table|] == table;
  }

  // ---------------------------------------------------------------------
  // Properties of the built object
  // ---------------------------------------------------------------------

  /** Every number field of the allow-list has its own case: the generic clamp is never used. */
  lemma NumberFieldsHaveExplicitBound()
    ensures forall i | 0 <= i < |ALLOWED_FIELDS| && ALLOWED_FIELDS[i].1 == Number ::
      ALLOWED_FIELDS[i].0 in NUMBER_BOUNDS
  {
  }

  /** Reading a key from a concatenation looks in the first part first. */
  lemma {:induction false} LookupAppend(a: Fields, b: Fields, k: string)
    ensures Lookup(a + b, k) == if Lookup(a, k).Some? then Lookup(a, k) else Lookup(b, k)
  {
    if a == [] {
      assert a + b == b;
    } else {
      assert (a + b)[0] == a[0];
      assert (a + b)[1..] == a[1..] + b;
      LookupAppend(a[1..], b, k);
    }
  }

  /** Positions in a table agree with positions in the table without its last entry, for names found there. */
  lemma PositionInPrefix(table: AllowList, k: string)
    requires table != []
    ensures var pre := table[..|table| - 1];
      Position(pre, k) < |pre| ==> Position(table, k) == Position(pre, k)
    ensures var pre := table[..|table| - 1];
      Position(pre, k) == |pre| ==> Position(table, k) == (if table[|pre|].0 == k then |pre| else |table|)
  {
    var pre := table[..|table| - 1];
    assert forall i | 0 <= i < |pre| :: pre[i] == table[i];
  }

  /**
   * Read as a map, the built object holds exactly the allowed fields that
   * survive validation, each with the value its own entry gives it.
   */
  lemma {:induction false} LookupSanitized(table: AllowList, obj: map<string, Json>, k: string)
    requires DistinctNames(table)
    ensures Lookup(SanitizeFields(table, obj), k)
      == if TypeOf(table, k).Some? then ValidateField(k, TypeOf(table, k).value, obj) else None
    decreases |table|
  {
    if table != [] {
      var n := |table| - 1;
      var pre := table[..n];
      assert DistinctNames(pre);
      LookupSanitized(pre, obj, k);
      var e := Emit(table[n].0, ValidateField(table[n].0, table[n].1, obj));
      LookupAppend(SanitizeFields(pre, obj), e, k);
      PositionInPrefix(table, k);
      if Position(pre, k) == n && table[n].0 == k {
        assert Position(table, k) == n;
      }
      if Position(pre, k) < n {
        assert pre[Position(pre, k)].0 == k;
        assert table[n].0 != k by { assert table[Position(pre, k)].0 == k; }
      }
    }
  }

  /** Every key of out is a name of table. */
  predicate NamesFrom(table: AllowList, out: Fields)
  {
    forall i | 0 <= i < |out| :: Position(table, out[i].0) < |table|
  }

  /** The keys of out follow the order of table, strictly. */
  predicate InTableOrder(table: AllowList, out: Fields)
  {
    forall i, j | 0 <= i < j < |out| :: Position(table, out[i].0) < Position(table, out[j].0)
  }

  /**
   * The built object's keys are allow-list names, in allow-list order; in
   * particular no key occurs twice.
   */
  lemma {:induction false} SanitizedInTableOrder(table: AllowList, obj: map<string, Json>)
    requires DistinctNames(table)
    ensures NamesFrom(table, SanitizeFields(table, obj))
    ensures InTableOrder(table, SanitizeFields(table, obj))
    decreases |table|
  {
    if table != [] {
      var n := |table| - 1;
      var pre := table[..n];
      assert DistinctNames(pre);
      SanitizedInTableOrder(pre, obj);
      var prev := SanitizeFields(pre, obj);
      var out := SanitizeFields(table, obj);
      assert NamesFrom(pre, prev) && InTableOrder(pre, prev);
      forall i | 0 <= i < |prev|
        ensures Position(table, prev[i].0) == Position(pre, prev[i].0) < n
      {
        PositionInPrefix(table, prev[i].0);
      }
      assert forall i | 0 <= i < |prev| :: out[i] == prev[i];
      if |out| > |prev| {
        assert out[|prev|].0 == table[n].0;
        assert forall i | 0 <= i < n :: pre[i] == table[i];
        assert Position(pre, table[n].0) == n;
        PositionInPrefix(table, table[n].0);
        assert Position(table, out[|prev|].0) == n;
      }
      forall i, j | 0 <= i < j < |out|
        ensures Position(table, out[i].0) < Position(table, out[j].0)
      {
        if j >= |prev| {
          assert Position(table, out[i].0) < n;
        } else {
          assert Position(pre, prev[i].0) < Position(pre, prev[j].0);
        }
      }
    }
  }

  /**
   * What one field becomes depends on that field alone: a malformed or
   * missing field elsewhere changes nothing about it.
   */
  lemma FieldIndependence(obj1: map<string, Json>, obj2: map<string, Json>, k: string)
    requires (k in obj1 <==> k in obj2) && (k in obj1 ==> obj1[k] == obj2[k])
    ensures Lookup(SanitizeFields(ALLOWED_FIELDS, obj1), k) == Lookup(SanitizeFields(ALLOWED_FIELDS, obj2), k)
  {
    AllowedFieldsDistinct();
    LookupSanitized(ALLOWED_FIELDS, obj1, k);
    LookupSanitized(ALLOWED_FIELDS, obj2, k);
  }

  /** Every value in an accepted object has its field's declared type and lies in its bound. */
  lemma AcceptedValuesInBounds(raw: Option<string>, parse: string -> Option<Json>, outBytes: Fields -> nat, k: string)
    requires ValidateMetrics(raw, parse, outBytes).Some?
    ensures var out := ValidateMetrics(raw, parse, outBytes).value;
      Lookup(out, k).Some? ==>
        && TypeOf(ALLOWED_FIELDS, k).Some?
        && (TypeOf(ALLOWED_FIELDS, k) == Some(Number) ==> InBound(NumberBound(k), Lookup(out, k).value))
        && (TypeOf(ALLOWED_FIELDS, k) == Some(Boolean) ==> Lookup(out, k).value.VBool?)
        && (TypeOf(ALLOWED_FIELDS, k) == Some(String) ==>
              Lookup(out, k).value.VStr? && |Lookup(out, k).value.s| <= MAX_STRING_LEN)
  {
    AllowedFieldsDistinct();
    LookupSanitized(ALLOWED_FIELDS, parse(raw.value).value.members, k);
  }

  /** Only fields present in the parsed object can appear in the built one. */
  lemma OnlyPresentFieldsAppear(obj: map<string, Json>, k: string)
    requires Lookup(SanitizeFields(ALLOWED_FIELDS, obj), k).Some?
    ensures k in obj && !obj[k].JNull?
  {
    AllowedFieldsDistinct();
    LookupSanitized(ALLOWED_FIELDS, obj, k);
  }

  /**
   * The shape of {"key_count": 99999999, "touch_support": "yes"}: exactly
   * these two members, key_count a number at or above its maximum and
   * touch_support a string.
   */
  predicate OversizedKeyCountExample(obj: map<string, Json>, x: real)
  {
    && obj.Keys == {"key_count", "touch_support"}
    && obj["key_count"] == JNumber(Some(Finite(x))) && x >= MAX_KEY_COUNT as real
    && obj["touch_support"].JString?
  }

  /** key_count is clamped to its maximum, over any table declaring it a number. */
  lemma KeyCountClamped(table: AllowList, obj: map<string, Json>, x: real)
    requires DistinctNames(table) && 3 < |table| && table[3] == ("key_count", Number)
    requires OversizedKeyCountExample(obj, x)
    ensures Lookup(SanitizeFields(table, obj), "key_count") == Some(VInt(MAX_KEY_COUNT))
  {
    KeyCountFieldClamped(obj, x);
    EntryFound(table, 3);
    LookupSanitized(table, obj, "key_count");
  }

  lemma KeyCountFieldClamped(obj: map<string, Json>, x: real)
    requires OversizedKeyCountExample(obj, x)
    ensures ValidateField("key_count", Number, obj) == Some(VInt(MAX_KEY_COUNT))
  {
    assert NumberBound("key_count") == IntBound(0, MAX_KEY_COUNT);
    ClampSaturates(x, 0, MAX_KEY_COUNT);
    assert ClampNumber("key_count", Finite(x)) == VInt(MAX_KEY_COUNT);
  }

  /** No field other than key_count is kept, over any table declaring touch_support a boolean. */
  lemma OnlyKeyCountKept(table: AllowList, obj: map<string, Json>, x: real)
    requires DistinctNames(table) && 27 < |table| && table[27] == ("touch_support", Boolean)
    requires OversizedKeyCountExample(obj, x)
    ensures forall k | k != "key_count" :: Lookup(SanitizeFields(table, obj), k) == None
  {
    EntryFound(table, 27);
    forall k | k != "key_count"
      ensures Lookup(SanitizeFields(table, obj), k) == None
    {
      LookupSanitized(table, obj, k);
      if k == "touch_support" {
        assert TypeOf(table, k) == Some(Boolean);
      } else {
        assert k !in obj;
      }
    }
  }

  /**
   * {"key_count": 99999999, "touch_support": "yes"}, and any object of that
   * shape: key_count is stored as 10000, touch_support (a string where a
   * boolean is declared) is dropped, and nothing else appears.
   */
  lemma ClampsKeyCountDropsWrongType(obj: map<string, Json>, x: real)
    requires OversizedKeyCountExample(obj, x)
    ensures var out := SanitizeFields(ALLOWED_FIELDS, obj);
      && Lookup(out, "key_count") == Some(VInt(MAX_KEY_COUNT))
      && forall k | k != "key_count" :: Lookup(out, k) == None
  {
    AllowedFieldsDistinct();
    KeyCountClamped(ALLOWED_FIELDS, obj, x);
    OnlyKeyCountKept(ALLOWED_FIELDS, obj, x);
  }
}
