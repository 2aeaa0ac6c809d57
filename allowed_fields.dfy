/**
 * The allow-list of telemetry fields (RiskBasedAuthAction.ALLOWED_FIELDS): an
 * insertion-ordered map from field name to the JSON type the field must have.
 */
module AllowedFields {
  import opened JavaLang

  datatype FieldType = Number | Boolean | String

  type AllowList = seq<(string, FieldType)>

  /**
   * The thirty allowed fields, in the order they were inserted. The list is
   * written in three runs of ten so that its distinctness is checked run by run.
   */
  const ALLOWED_FIELDS: AllowList := INPUT_FIELDS + SESSION_FIELDS + DEVICE_FIELDS

  /** Entries 0-9: focus, pointer, keyboard and scrolling counters, and page readiness. */
  const INPUT_FIELDS: AllowList := [
    ("focus_changes", Number),
    ("blur_events", Number),
    ("click_count", Number),
    ("key_count", Number),
    ("avg_key_delay_ms", Number),
    ("pointer_distance_px", Number),
    ("pointer_event_count", Number),
    ("scroll_distance_px", Number),
    ("scroll_event_count", Number),
    ("dom_ready_ms", Number)
  ]

  /** Entries 10-19: first-input timings, idle time, paste and resize counts, version, time stamp, time zone and language. */
  const SESSION_FIELDS: AllowList := [
    ("time_to_first_key_ms", Number),
    ("time_to_first_click_ms", Number),
    ("idle_time_total_ms", Number),
    ("input_focus_count", Number),
    ("paste_events", Number),
    ("resize_events", Number),
    ("metrics_version", Number),
    ("collection_timestamp", String),
    ("tz_offset_min", Number),
    ("language", String)
  ]

  /** Entries 20-29: platform, hardware and screen properties, capabilities and the device identifier. */
  const DEVICE_FIELDS: AllowList := [
    ("platform", String),
    ("device_memory_gb", Number),
    ("hardware_concurrency", Number),
    ("screen_width_px", Number),
    ("screen_height_px", Number),
    ("pixel_ratio", Number),
    ("color_depth", Number),
    ("touch_support", Boolean),
    ("webauthn_supported", Boolean),
    ("device_uuid", String)
  ]

  /** A map has one entry per key. */
  predicate DistinctNames(table: AllowList)
  {
    forall i, j | 0 <= i < j < |table| :: table[i].0 != table[j].0
  }

  /** No name of a occurs in b. */
  predicate Disjoint(a: AllowList, b: AllowList)
  {
    forall i, j | 0 <= i < |a| && 0 <= j < |b| :: a[i].0 != b[j].0
  }

  /** Two lists without repeated names and with no name in common concatenate to one. */
  lemma {:induction false} DistinctAppend(a: AllowList, b: AllowList)
    requires DistinctNames(a) && DistinctNames(b) && Disjoint(a, b)
    ensures DistinctNames(a + b)
  {
    forall i, j | 0 <= i < j < |a + b|
      ensures (a + b)[i].0 != (a + b)[j].0
    {
      if j >= |a| {
        assert (a + b)[j] == b[j - |a|];
        if i >= |a| {
          assert (a + b)[i] == b[i - |a|];
        }
      }
    }
  }

  lemma InputFieldsDistinct() ensures DistinctNames(INPUT_FIELDS) {}
  lemma SessionFieldsDistinct() ensures DistinctNames(SESSION_FIELDS) {}
  lemma DeviceFieldsDistinct() ensures DistinctNames(DEVICE_FIELDS) {}
  lemma InputSessionDisjoint() ensures Disjoint(INPUT_FIELDS, SESSION_FIELDS) {}
  lemma InputDeviceDisjoint() ensures Disjoint(INPUT_FIELDS, DEVICE_FIELDS) {}
  lemma SessionDeviceDisjoint() ensures Disjoint(SESSION_FIELDS, DEVICE_FIELDS) {}

  /** The allow-list is a genuine map: no name occurs twice. */
  lemma AllowedFieldsDistinct()
    ensures |ALLOWED_FIELDS| == 30
    ensures DistinctNames(ALLOWED_FIELDS)
  {
    InputFieldsDistinct();
    SessionFieldsDistinct();
    DeviceFieldsDistinct();
    InputSessionDisjoint();
    InputDeviceDisjoint();
    SessionDeviceDisjoint();
    var first := INPUT_FIELDS + SESSION_FIELDS;
    DistinctAppend(INPUT_FIELDS, SESSION_FIELDS);
    assert Disjoint(first, DEVICE_FIELDS) by {
      forall i, j | 0 <= i < |first| && 0 <= j < |DEVICE_FIELDS|
        ensures first[i].0 != DEVICE_FIELDS[j].0
      {
        if i >= |INPUT_FIELDS| {
          assert first[i] == SESSION_FIELDS[i - |INPUT_FIELDS|];
        }
      }
    }
    DistinctAppend(first, DEVICE_FIELDS);
  }

  /** The index of the entry named k (the first, if several), or |table| when there is none. */
  function Position(table: AllowList, k: string): (p: nat)
    ensures p <= |table|
    ensures p < |table| ==> table[p].0 == k
    ensures forall i | 0 <= i < p :: table[i].0 != k
  {
    if table == [] then 0
    else if table[0].0 == k then 0
    else
      var p := Position(table[1..], k);
      assert forall i | 1 <= i < |table| :: table[i] == table[1..][i - 1];
      p + 1
  }

  /** In a table without repeated names, each entry is found at its own index. */
  lemma {:induction false} EntryFound(table: AllowList, i: nat)
    requires DistinctNames(table) && i < |table|
    ensures Position(table, table[i].0) == i
    ensures TypeOf(table, table[i].0) == Some(table[i].1)
  {
  }

  /** get(k) on the allow-list map: the declared type of field k, if it is allowed. */
  function TypeOf(table: AllowList, k: string): (r: Option<FieldType>)
    ensures r.Some? <==> exists i | 0 <= i < |table| :: table[i].0 == k
  {
    var p := Position(table, k);
    if p < |table| then Some(table[p].1) else None
  }
}
