/** Label derivation for one watched object (internal/kubernetes/kubernetes.go):
    the configured extra labels, the status labels and value, the duration
    labels and value, and the common labels that identify the object. */
module Kubernetes {
  import opened Wrappers
  import opened Resource
  import Metrics
  import Decimal
  import Rfc3339

  type Labels = map<string, string>

  /** The value of a configured label or timestamp the object lacks. */
  const Sentinel: string := "#"

  /** Go's read of a string map: the empty string for a missing key. */
  function Get(m: Labels, k: string): string {
    if k in m then m[k] else ""
  }

  // ---------------------------------------------------------------------
  // Populated labels (GetRunPopulatedLabels)
  // ---------------------------------------------------------------------

  function LabelOrSentinel(objectLabels: Labels, raw: string): string {
    if raw in objectLabels then objectLabels[raw] else Sentinel
  }

  /** The map the loop of GetRunPopulatedLabels has built after visiting
      `names`: each name seeds its sanitized key with `#` and then the
      object's own value, when it has one, overwrites it. */
  function SeededLabels(names: seq<string>, objectLabels: Labels): Labels {
    if names == [] then map[]
    else
      var raw := names[|names| - 1];
      SeededLabels(names[..|names| - 1], objectLabels)[Metrics.Sanitize(raw) := LabelOrSentinel(objectLabels, raw)]
  }

  /** What GetRunPopulatedLabels returns: the label-read error, no labels
      at all for an object without labels, or the seeded map. */
  function PopulatedLabels(names: seq<string>, o: Run): Result<Labels, AccessError> {
    match GetObjectLabels(o)
    case Err(e) => Err(e)
    case Ok(objectLabels) => if |objectLabels| == 0 then Ok(map[]) else Ok(SeededLabels(names, objectLabels))
  }

  /** No later configured name sanitizes to the same key as `names[i]`. */
  ghost predicate LastForKey(names: seq<string>, i: int)
    requires 0 <= i < |names|
  {
    forall j :: i < j < |names| ==> Metrics.Sanitize(names[j]) != Metrics.Sanitize(names[i])
  }

  /** The seeded map has exactly the sanitized configured names as keys. */
  lemma {:induction false} SeededLabelsKeys(names: seq<string>, objectLabels: Labels)
    ensures SeededLabels(names, objectLabels).Keys == Metrics.SanitizedNames(names)
  {
    if names != [] {
      var init := names[..|names| - 1];
      SeededLabelsKeys(init, objectLabels);
      Metrics.SanitizedNamesSnoc(init, names[|names| - 1]);
      assert names == init + [names[|names| - 1]];
    }
  }

  /** Each key holds the object's label under the last raw name with that
      sanitized form, or `#` when the object lacks it. */
  lemma {:induction false} SeededLabelsValues(names: seq<string>, objectLabels: Labels, i: int)
    requires 0 <= i < |names| && LastForKey(names, i)
    ensures Metrics.Sanitize(names[i]) in SeededLabels(names, objectLabels)
    ensures SeededLabels(names, objectLabels)[Metrics.Sanitize(names[i])] == LabelOrSentinel(objectLabels, names[i])
  {
    var init := names[..|names| - 1];
    if i < |names| - 1 {
      assert init[i] == names[i];
      assert LastForKey(init, i);
      SeededLabelsValues(init, objectLabels, i);
    }
  }

  /** GetRunPopulatedLabels, step by step as the Go loop does it. */
  method GetRunPopulatedLabels(populatedLabelNames: seq<string>, o: Run) returns (r: Result<Labels, AccessError>)
    ensures r == PopulatedLabels(populatedLabelNames, o)
  {
    var labelsRead := GetObjectLabels(o);
    if labelsRead.Err? {
      return Err(labelsRead.error);
    }
    var objectLabels := labelsRead.value;
    if |objectLabels| == 0 {
      return Ok(map[]);
    }
    var populatedLabels: Labels := map[];
    var parsedLabelsMap := Metrics.GetProcessedLabels(populatedLabelNames);
    for i := 0 to |populatedLabelNames|
      invariant populatedLabels == SeededLabels(populatedLabelNames[..i], objectLabels)
    {
      var populatedLabelName := populatedLabelNames[i];
      assert populatedLabelNames[..i + 1][..i] == populatedLabelNames[..i];
      populatedLabels := populatedLabels[parsedLabelsMap[populatedLabelName] := Sentinel];
      if populatedLabelName in objectLabels {
        populatedLabels := populatedLabels[parsedLabelsMap[populatedLabelName] := objectLabels[populatedLabelName]];
      }
    }
    assert populatedLabelNames[..|populatedLabelNames|] == populatedLabelNames;
    return Ok(populatedLabels);
  }

  /** For an object with at least one label the populated labels are
      exactly the sanitized configured names, each with the object's value
      (last configured name winning) or `#`; an object with no labels gets
      no labels at all, not even `#`; a label-read error is reported. */
  lemma PopulatedLabelsSpec(names: seq<string>, o: Run)
    ensures o.labels.Malformed? <==> PopulatedLabels(names, o).Err?
    ensures o.labels.Absent? || o.labels == Present(map[]) ==> PopulatedLabels(names, o) == Ok(map[])
    ensures o.labels.Present? && |o.labels.value| > 0 ==>
      var p := PopulatedLabels(names, o).value;
      && p.Keys == Metrics.SanitizedNames(names)
      && forall i :: 0 <= i < |names| && LastForKey(names, i) ==>
           p[Metrics.Sanitize(names[i])] == LabelOrSentinel(o.labels.value, names[i])
  {
    if o.labels.Present? {
      SeededLabelsKeys(names, o.labels.value);
      forall i | 0 <= i < |names| && LastForKey(names, i) {
        SeededLabelsValues(names, o.labels.value, i);
      }
    }
  }

  // ---------------------------------------------------------------------
  // Status labels (GetRunStatusLabels)
  // ---------------------------------------------------------------------

  function LowerAscii(c: char): char {
    if 'A' <= c <= 'Z' then (c as int + 32) as char else c
  }

  /** `strings.ToLower` on ASCII letters; other characters are kept. */
  function ToLower(s: string): (r: string)
    ensures |r| == |s|
  {
    seq(|s|, i requires 0 <= i < |s| => LowerAscii(s[i]))
  }

  /** `s` spells "true" in any mix of cases. */
  predicate SpellsTrue(s: string) {
    |s| == 4 && (s[0] == 't' || s[0] == 'T') && (s[1] == 'r' || s[1] == 'R')
    && (s[2] == 'u' || s[2] == 'U') && (s[3] == 'e' || s[3] == 'E')
  }

  /** Lower-casing gives "true" exactly for the case variants of "true". */
  lemma ToLowerIsTrue(s: string)
    ensures ToLower(s) == "true" <==> SpellsTrue(s)
  {
    var l := ToLower(s);
    if l == "true" {
      assert l[0] == LowerAscii(s[0]) == 't' && l[1] == LowerAscii(s[1]) == 'r';
      assert l[2] == LowerAscii(s[2]) == 'u' && l[3] == LowerAscii(s[3]) == 'e';
    }
    if SpellsTrue(s) {
      assert ToLower(s) == "true";
    }
  }

  /** The condition assumed when an object has no `Succeeded` condition. */
  const DefaultCondition: Condition := Condition("Succeeded", "False", "Unknown")

  /** GetRunStatusLabels: `status` is `success` or `failed` by the
      `Succeeded` condition, `reason` is copied from it. */
  function GetRunStatusLabels(o: Run): (r: Result<Labels, AccessError>)
    ensures r.Ok? ==> r.value.Keys == {"status", "reason"}
  {
    match GetObjectCondition(o, "Succeeded")
    case Err(e) => Err(e)
    case Ok(found) =>
      var condition := found.GetOr(DefaultCondition);
      var runStatusLabelStatus := if ToLower(condition.status) == "true" then "success" else "failed";
      Ok(map["status" := runStatusLabelStatus, "reason" := condition.reason])
  }

  /** `status` is `success` exactly when the `Succeeded` condition's status
      is "true" in any case, `reason` is its reason, and a missing
      condition gives {failed, Unknown}. */
  lemma StatusLabelsSpec(o: Run)
    ensures GetRunStatusLabels(o).Err? <==> GetObjectCondition(o, "Succeeded").Err?
    ensures GetObjectCondition(o, "Succeeded") == Ok(None) ==>
      GetRunStatusLabels(o) == Ok(map["status" := "failed", "reason" := "Unknown"])
    ensures GetObjectCondition(o, "Succeeded").Ok? && GetObjectCondition(o, "Succeeded").value.Some? ==>
      var c := GetObjectCondition(o, "Succeeded").value.value;
      var l := GetRunStatusLabels(o).value;
      && (l["status"] == "success" <==> SpellsTrue(c.status))
      && (l["status"] == "failed" <==> !SpellsTrue(c.status))
      && l["reason"] == c.reason
  {
    match GetObjectCondition(o, "Succeeded")
    case Err(_) =>
    case Ok(None) =>
      assert !SpellsTrue("False");
      ToLowerIsTrue("False");
    case Ok(Some(c)) =>
      ToLowerIsTrue(c.status);
  }

  /** The 0/1 status value: 1 exactly for the `success` label. */
  function StatusValue(statusLabels: Labels): (v: int)
    ensures v == 0 || v == 1
  {
    if Get(statusLabels, "status") == "success" then 1 else 0
  }

  // ---------------------------------------------------------------------
  // Duration labels (GetRunDurationLabels)
  // ---------------------------------------------------------------------

  datatype DurationError = StatusError(cause: AccessError) | UnparsableTimestamp(text: string)

  /** The label for one optional timestamp: `#` when absent, the decimal
      epoch seconds when it parses, an error otherwise. */
  function TimestampLabel(t: Option<string>): Result<string, DurationError> {
    match t
    case None => Ok(Sentinel)
    case Some(text) =>
      match Rfc3339.Parse(text)
      case None => Err(UnparsableTimestamp(text))
      case Some(seconds) => Ok(Decimal.Itoa(seconds))
  }

  /** What GetRunDurationLabels returns: an error, no map at all for an
      object without status, or the two timestamp labels. */
  function DurationLabels(o: Run): (r: Result<Option<Labels>, DurationError>)
    ensures r.Ok? && r.value.Some? ==> r.value.value.Keys == {"start_timestamp", "completion_timestamp"}
  {
    match GetObjectStatus(o)
    case Err(e) => Err(StatusError(e))
    case Ok(None) => Ok(None)
    case Ok(Some(st)) =>
      match TimestampLabel(st.startTime)
      case Err(e) => Err(e)
      case Ok(start) =>
        match TimestampLabel(st.completionTime)
        case Err(e) => Err(e)
        case Ok(completion) => Ok(Some(TimestampLabels(start, completion)))
  }

  /** The duration label map with the given two values. */
  function TimestampLabels(start: string, completion: string): Labels {
    map["start_timestamp" := start, "completion_timestamp" := completion]
  }

  lemma OverwriteTimestamps(start: string, completion: string, value: string)
    ensures TimestampLabels(start, completion)["start_timestamp" := value] == TimestampLabels(value, completion)
    ensures TimestampLabels(start, completion)["completion_timestamp" := value] == TimestampLabels(start, value)
  {
    assert "start_timestamp" != "completion_timestamp" by { assert |"start_timestamp"| != |"completion_timestamp"|; }
  }

  /** GetRunDurationLabels, overwriting the `#` defaults one by one. */
  method GetRunDurationLabels(o: Run) returns (r: Result<Option<Labels>, DurationError>)
    ensures r == DurationLabels(o)
  {
    var statusRead := GetObjectStatus(o);
    if statusRead.Err? {
      return Err(StatusError(statusRead.error));
    }
    if statusRead.value.None? {
      return Ok(None);
    }
    var status := statusRead.value.value;
    var timestampLabels: Labels := TimestampLabels(Sentinel, Sentinel);
    ghost var start, completion := Sentinel, Sentinel;
    if status.startTime.Some? {
      var parsedTime := Rfc3339.Parse(status.startTime.value);
      if parsedTime.None? {
        return Err(UnparsableTimestamp(status.startTime.value));
      }
      OverwriteTimestamps(start, completion, Decimal.Itoa(parsedTime.value));
      timestampLabels := timestampLabels["start_timestamp" := Decimal.Itoa(parsedTime.value)];
      start := Decimal.Itoa(parsedTime.value);
    }
    assert TimestampLabel(status.startTime) == Ok(start);
    if status.completionTime.Some? {
      var parsedTime := Rfc3339.Parse(status.completionTime.value);
      if parsedTime.None? {
        return Err(UnparsableTimestamp(status.completionTime.value));
      }
      OverwriteTimestamps(start, completion, Decimal.Itoa(parsedTime.value));
      timestampLabels := timestampLabels["completion_timestamp" := Decimal.Itoa(parsedTime.value)];
      completion := Decimal.Itoa(parsedTime.value);
    }
    assert TimestampLabel(status.completionTime) == Ok(completion);
    assert timestampLabels == TimestampLabels(start, completion);
    return Ok(Some(timestampLabels));
  }

  /** A present timestamp is written as its epoch seconds and reads back
      as them; an absent one is `#`; an unparsable one is an error. */
  lemma TimestampLabelSpec(t: Option<string>)
    ensures t.None? ==> TimestampLabel(t) == Ok(Sentinel)
    ensures t.Some? ==> (TimestampLabel(t).Err? <==> Rfc3339.Parse(t.value).None?)
    ensures TimestampLabel(t).Ok? && t.Some? ==>
      TimestampLabel(t).value != Sentinel && Decimal.Atoi(TimestampLabel(t).value) == Rfc3339.Parse(t.value)
  {
    if t.Some? && Rfc3339.Parse(t.value).Some? {
      Decimal.AtoiItoa(Rfc3339.Parse(t.value).value);
      Decimal.ItoaNotSentinel(Rfc3339.Parse(t.value).value);
    }
  }

  /** With a status, the duration labels are exactly `start_timestamp` and
      `completion_timestamp`, each `#` unless its field is present; without
      a status there is no map; a present but unparsable field fails. */
  lemma DurationLabelsSpec(o: Run)
    ensures DurationLabels(o) == Ok(None) <==> o.status.Absent?
    ensures o.status.Malformed? ==> DurationLabels(o).Err?
    ensures o.status.Present? ==>
      var st := o.status.value;
      && (DurationLabels(o).Err? <==>
            (st.startTime.Some? && Rfc3339.Parse(st.startTime.value).None?)
            || (st.completionTime.Some? && Rfc3339.Parse(st.completionTime.value).None?))
      && (DurationLabels(o).Ok? ==>
            var l := DurationLabels(o).value.value;
            && l.Keys == {"start_timestamp", "completion_timestamp"}
            && (l["start_timestamp"] == Sentinel <==> st.startTime.None?)
            && (l["completion_timestamp"] == Sentinel <==> st.completionTime.None?)
            && (st.startTime.Some? ==> Decimal.Atoi(l["start_timestamp"]) == Rfc3339.Parse(st.startTime.value))
            && (st.completionTime.Some? ==> Decimal.Atoi(l["completion_timestamp"]) == Rfc3339.Parse(st.completionTime.value)))
  {
    if o.status.Present? {
      TimestampLabelSpec(o.status.value.startTime);
      TimestampLabelSpec(o.status.value.completionTime);
    }
  }

  /** The duration value of kubernetes.go: completion minus start when
      neither label is `#` (an unreadable number counts as 0, as
      `strconv.Atoi` leaves it), else 0. */
  function DurationValue(durationLabels: Labels): int {
    var start := Get(durationLabels, "start_timestamp");
    var completion := Get(durationLabels, "completion_timestamp");
    if start != Sentinel && completion != Sentinel then
      Decimal.Atoi(completion).GetOr(0) - Decimal.Atoi(start).GetOr(0)
    else 0
  }

  /** The duration is the difference of the parsed epoch seconds, not
      clamped, when both timestamps are present, and 0 otherwise. */
  lemma DurationValueSpec(o: Run)
    requires DurationLabels(o).Ok? && DurationLabels(o).value.Some?
    ensures var st := o.status.value;
      var v := DurationValue(DurationLabels(o).value.value);
      if st.startTime.Some? && st.completionTime.Some? then
        v == Rfc3339.Parse(st.completionTime.value).value - Rfc3339.Parse(st.startTime.value).value
      else v == 0
  {
    DurationLabelsSpec(o);
  }

  // ---------------------------------------------------------------------
  // One event's labels and values (the loop body of WatchPipelineRuns
  // and WatchTaskRuns before the registry is touched)
  // ---------------------------------------------------------------------

  /** Why the loop body stops before touching the registry. The first two
      make the watch function return its error; the last is the write into
      the nil duration map of an object without status, a Go panic. */
  datatype Failure =
    | StatusLabelsFailed(statusCause: AccessError)
    | DurationLabelsFailed(durationCause: DurationError)
    | NilDurationMap

  /** Everything one event contributes to the registry. */
  datatype Derived = Derived(
    common: Labels,
    statusLabels: Labels,
    statusValue: int,
    durationLabels: Labels,
    durationValue: int)

  /** `{name, namespace}` overwritten by the populated labels; a label-read
      error leaves the populated labels empty, as the Go caller ignores it. */
  function CommonLabels(names: seq<string>, o: Run): Labels {
    var basic := GetObjectBasicData(o);
    var populated := match PopulatedLabels(names, o) case Ok(p) => p case Err(_) => map[];
    map["name" := basic.name, "namespace" := basic.namespace] + populated
  }

  /** The labels and values the loop body computes for one object, or why
      it stops. Each value is computed before the common labels are merged
      into its label map, and the common labels win on a shared key. */
  function Derive(names: seq<string>, o: Run): Result<Derived, Failure> {
    var common := CommonLabels(names, o);
    match GetRunStatusLabels(o)
    case Err(e) => Err(StatusLabelsFailed(e))
    case Ok(statusLabels) =>
      match DurationLabels(o)
      case Err(e) => Err(DurationLabelsFailed(e))
      case Ok(None) => Err(NilDurationMap)
      case Ok(Some(durationLabels)) =>
        Ok(Derived(common, statusLabels + common, StatusValue(statusLabels),
                   durationLabels + common, DurationValue(durationLabels)))
  }

  /** Steps 1 to 3 of the loop body, as the Go code takes them: the common
      labels, the status labels and value, the duration labels and value,
      each value computed before the common labels are copied into its
      map. A missing duration map reads as empty; copying into it panics. */
  method CraftLabels(populatedLabelNames: seq<string>, o: Run) returns (r: Result<Derived, Failure>)
    ensures r == Derive(populatedLabelNames, o)
  {
    // 1. common labels
    var objectBasicData := GetObjectBasicData(o);
    var commonLabels: Labels := map["name" := objectBasicData.name, "namespace" := objectBasicData.namespace];
    var populated := GetRunPopulatedLabels(populatedLabelNames, o);
    var populatedLabels: Labels := if populated.Ok? then populated.value else map[];
    commonLabels := commonLabels + populatedLabels;
    assert commonLabels == CommonLabels(populatedLabelNames, o);

    // 2. status labels and value
    var statusRead := GetRunStatusLabels(o);
    if statusRead.Err? {
      return Err(StatusLabelsFailed(statusRead.error));
    }
    var statusLabels := statusRead.value;
    var runStatusLabelStatusValue := 0;
    if Get(statusLabels, "status") == "success" {
      runStatusLabelStatusValue := 1;
    }
    assert runStatusLabelStatusValue == StatusValue(statusLabels);
    var statusLabelMap := statusLabels + commonLabels;

    // 3. duration labels and value
    var durationRead := GetRunDurationLabels(o);
    if durationRead.Err? {
      return Err(DurationLabelsFailed(durationRead.error));
    }
    var durationLabels: Labels := if durationRead.value.Some? then durationRead.value.value else map[];
    var runDurationValue := 0;
    if Get(durationLabels, "start_timestamp") != Sentinel && Get(durationLabels, "completion_timestamp") != Sentinel {
      var runStartTime := Decimal.Atoi(Get(durationLabels, "start_timestamp")).GetOr(0);
      var runCompletionTime := Decimal.Atoi(Get(durationLabels, "completion_timestamp")).GetOr(0);
      runDurationValue := runCompletionTime - runStartTime;
    }
    if durationRead.value.None? {
      return Err(NilDurationMap);
    }
    assert runDurationValue == DurationValue(durationLabels);
    var durationLabelMap := durationLabels + commonLabels;
    return Ok(Derived(commonLabels, statusLabelMap, runStatusLabelStatusValue, durationLabelMap, runDurationValue));
  }

  /** `sub` is contained in `labels`: the partial match of the registry. */
  predicate PartialMatch(sub: Labels, labels: Labels) {
    forall k :: k in sub ==> k in labels && labels[k] == sub[k]
  }

  /** Merging `common` over `labels` keeps every key of both, and the
      common value wins on a shared key. */
  lemma MergeSpec(labels: Labels, common: Labels)
    ensures PartialMatch(common, labels + common)
    ensures (labels + common).Keys == common.Keys + labels.Keys
    ensures forall k :: k in labels + common && k !in common ==> (labels + common)[k] == labels[k]
  {
  }

  /** The common labels always hold name and namespace (overridable by a
      configured label of that name), and every series label map holds all
      of them, with the common value winning; the other keys come from the
      status or duration labels. */
  lemma DeriveLabelsSpec(names: seq<string>, o: Run)
    requires Derive(names, o).Ok?
    ensures var d := Derive(names, o).value;
      && d.common == CommonLabels(names, o)
      && "name" in d.common && "namespace" in d.common
      && PartialMatch(d.common, d.statusLabels) && PartialMatch(d.common, d.durationLabels)
      && d.statusLabels.Keys == d.common.Keys + {"status", "reason"}
      && d.durationLabels.Keys == d.common.Keys + {"start_timestamp", "completion_timestamp"}
      && (forall k :: k in d.statusLabels && k !in d.common ==> d.statusLabels[k] == GetRunStatusLabels(o).value[k])
      && (forall k :: k in d.durationLabels && k !in d.common ==> d.durationLabels[k] == DurationLabels(o).value.value[k])
  {
    var common := CommonLabels(names, o);
    var statusLabels := GetRunStatusLabels(o).value;
    var durationLabels := DurationLabels(o).value.value;
    DurationLabelsSpec(o);
    MergeSpec(statusLabels, common);
    MergeSpec(durationLabels, common);
    assert Derive(names, o).value == Derived(common, statusLabels + common, StatusValue(statusLabels),
                                             durationLabels + common, DurationValue(durationLabels));
  }

  /** The keys of the populated labels: the sanitized configured names
      for an object with at least one label, none otherwise. */
  lemma PopulatedKeys(names: seq<string>, o: Run)
    requires PopulatedLabels(names, o).Ok?
    ensures PopulatedLabels(names, o).value.Keys ==
      if o.labels.Present? && |o.labels.value| > 0 then Metrics.SanitizedNames(names) else {}
  {
    if o.labels.Present? {
      SeededLabelsKeys(names, o.labels.value);
    }
  }

  /** The label names of the two series an object produces: the fixed
      names plus, for an object with at least one label, the sanitized
      configured names; an object without labels adds none. */
  lemma DerivedKeys(names: seq<string>, o: Run)
    requires Derive(names, o).Ok?
    ensures var d := Derive(names, o).value;
      var extra := if o.labels.Present? && |o.labels.value| > 0 then Metrics.SanitizedNames(names) else {};
      && d.statusLabels.Keys == {"name", "namespace", "status", "reason"} + extra
      && d.durationLabels.Keys == {"name", "namespace", "start_timestamp", "completion_timestamp"} + extra
  {
    var common := CommonLabels(names, o);
    CommonKeys(names, o);
    var statusLabels := GetRunStatusLabels(o).value;
    var durationLabels := DurationLabels(o).value.value;
    assert Derive(names, o).value == Derived(common, statusLabels + common, StatusValue(statusLabels),
                                             durationLabels + common, DurationValue(durationLabels));
    MergeKeys(statusLabels, common);
    MergeKeys(durationLabels, common);
  }

  /** The common label names: `name`, `namespace` and, for an object with
      at least one label, the sanitized configured names. */
  lemma CommonKeys(names: seq<string>, o: Run)
    ensures CommonLabels(names, o).Keys == {"name", "namespace"} +
      if o.labels.Present? && |o.labels.value| > 0 then Metrics.SanitizedNames(names) else {}
  {
    var basic: Labels := map["name" := o.name, "namespace" := o.namespace];
    var populated := match PopulatedLabels(names, o) case Ok(p) => p case Err(_) => map[];
    if PopulatedLabels(names, o).Ok? {
      PopulatedKeys(names, o);
    }
    MergeKeys(basic, populated);
  }

  lemma MergeKeys(a: Labels, b: Labels)
    ensures (a + b).Keys == a.Keys + b.Keys
  {
  }

  /** Whether the run failed, succeeded or has not finished, the status
      value is 1 exactly when its `Succeeded` condition says "true" in any
      case, and the duration value is completion minus start when both
      timestamps are present and 0 otherwise. */
  lemma DeriveValuesSpec(names: seq<string>, o: Run)
    requires Derive(names, o).Ok?
    ensures var d := Derive(names, o).value;
      var c := GetObjectCondition(o, "Succeeded").value;
      var st := o.status.value;
      && (d.statusValue == 1 <==> c.Some? && SpellsTrue(c.value.status))
      && (d.statusValue == 0 <==> !(c.Some? && SpellsTrue(c.value.status)))
      && (if st.startTime.Some? && st.completionTime.Some? then
            d.durationValue == Rfc3339.Parse(st.completionTime.value).value - Rfc3339.Parse(st.startTime.value).value
          else d.durationValue == 0)
  {
    StatusLabelsSpec(o);
    DurationLabelsSpec(o);
    DurationValueSpec(o);
  }

  /** A run whose `Succeeded` condition says "true" in any case and whose
      two timestamps parse: status value 1 and the elapsed seconds. */
  lemma DeriveSucceeded(names: seq<string>, o: Run, c: Condition, start: string, completion: string, t0: int, t1: int)
    requires o.status.Present? && GetObjectCondition(o, "Succeeded") == Ok(Some(c)) && SpellsTrue(c.status)
    requires o.status.value.startTime == Some(start) && o.status.value.completionTime == Some(completion)
    requires Rfc3339.Parse(start) == Some(t0) && Rfc3339.Parse(completion) == Some(t1)
    ensures Derive(names, o).Ok?
    ensures Derive(names, o).value.statusValue == 1
    ensures Derive(names, o).value.durationValue == t1 - t0
  {
    var st := o.status.value;
    assert GetRunStatusLabels(o).Ok?;
    assert TimestampLabel(st.startTime).Ok? && TimestampLabel(st.completionTime).Ok?;
    assert DurationLabels(o).Ok? && DurationLabels(o).value.Some?;
    DeriveValuesSpec(names, o);
  }

  /** A run that started at `2024-01-01T00:00:00Z` and succeeded at
      `2024-01-01T00:05:00Z`: status value 1 and duration 300 seconds. */
  lemma DeriveExample(names: seq<string>, o: Run, start: string, completion: string)
    requires start == Rfc3339.FormatUtc(2024, 1, 1, 0, 0, 0) && completion == Rfc3339.FormatUtc(2024, 1, 1, 0, 5, 0)
    requires o.status == Present(RunStatus(Present([Condition("Succeeded", "True", "Succeeded")]), Some(start), Some(completion)))
    ensures Derive(names, o).Ok?
    ensures Derive(names, o).value.statusValue == 1
    ensures Derive(names, o).value.durationValue == 300
  {
    assert Rfc3339.Parse(start) == Some(1704067200) by {
      Rfc3339.ParseStartOf2024();
    }
    assert Rfc3339.Parse(completion) == Some(1704067500) by {
      Rfc3339.ParseFiveMinutesLater();
    }
    assert SpellsTrue("True");
    DeriveSucceeded(names, o, Condition("Succeeded", "True", "Succeeded"), start, completion, 1704067200, 1704067500);
  }

  /** A run labelled `team=payments`, with `team` configured: the common
      labels are its name, its namespace and its team. */
  lemma CommonLabelsExample(o: Run)
    requires o.name == "build-1" && o.namespace == "ci" && o.labels == Present(map["team" := "payments"])
    ensures CommonLabels(["team"], o) == map["name" := "build-1", "namespace" := "ci", "team" := "payments"]
  {
    var team, names := "team", ["team"];
    assert Metrics.IsAlnumString(team);
    Metrics.SanitizeKeepsAlnum(team);
    var objectLabels := o.labels.value;
    assert LabelOrSentinel(objectLabels, team) == "payments";
    assert SeededLabels(names, objectLabels) == map[team := "payments"] by {
      assert names[..0] == [];
    }
    assert PopulatedLabels(names, o) == Ok(map[team := "payments"]);
    var basic: Labels := map["name" := "build-1", "namespace" := "ci"];
    assert basic + map[team := "payments"] == basic[team := "payments"];
  }

  /** An object without status never reaches the registry: the Go code
      writes into a nil map and panics. */
  lemma NoStatusPanics(names: seq<string>, o: Run)
    requires o.status.Absent?
    ensures Derive(names, o) == Err(NilDurationMap)
  {
    assert GetObjectCondition(o, "Succeeded") == Ok(None);
  }
}
