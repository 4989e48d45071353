# tekton-exporter: event-to-metric projection

tekton-exporter watches Tekton `PipelineRun` and `TaskRun` objects in a
Kubernetes cluster and exposes them as Prometheus gauges. For every add,
modify or delete notification about a run, it does the following:

- It derives a set of labels from the object: `name`, `namespace`, the
  operator-configured "populated" labels, the `status`/`reason` of the
  `Succeeded` condition, and the start and completion timestamps.
- It computes two values: a 0/1 status and a duration in seconds.
- It updates four labelled gauge vectors:
  - `tekton_exporter_pipelinerun_status`
  - `tekton_exporter_taskrun_status`
  - `tekton_exporter_pipelinerun_duration_seconds`
  - `tekton_exporter_taskrun_duration_seconds`

This project models that projection in Dafny, and proves what each step
promises.

| file | module | what it models |
|---|---|---|
| `wrappers.dfy` | `Wrappers` | `Option` and `Result`, for optional fields and Go error returns |
| `decimal.dfy` | `Decimal` | `strconv.Itoa` / `strconv.Atoi` on decimal text, with the round trip |
| `rfc3339.dfy` | `Rfc3339` | `time.Parse(time.RFC3339, ·).Unix()` on the strict form of section 5.6 of RFC 3339, in integer arithmetic |
| `metrics.dfy` | `Metrics` | the label sanitizer (`[^a-zA-Z0-9]+` → `_`), `GetProcessedLabels`, the extra schema labels of `RegisterMetrics`, gauge names and schemas |
| `resource.dfy` | `Resource` | the parts of a watched object the exporter reads, and the accessors that read them |
| `kubernetes.dfy` | `Kubernetes` | `GetRunPopulatedLabels`, `GetRunStatusLabels`, `GetRunDurationLabels`, and the label/value derivation of one loop iteration of `WatchPipelineRuns` / `WatchTaskRuns` |
| `utils.dfy` | `Utils` | `CopyMap` |
| `registry.dfy` | `Pool` | the gauge pool as a `Registry` class with four `map<Labels, int>` fields; `Set`, `DeletePartialMatch`, `RegisterMetrics`, and `Project`, the registry update of one event |

Each imperative Go function is a Dafny method with the same loop or
sequence of overwrites. The method is proved equal to a specification
function, and the lemmas state what that function guarantees:

| method | specification function |
|---|---|
| `GetRunPopulatedLabels` | `PopulatedLabels` |
| `GetRunDurationLabels` | `DurationLabels` |
| `CraftLabels` | `Derive` |
| `DeletePartialMatch` | `DeleteMatching` |
| `Project` | `ApplyEvent` applied to `Derive` |

Go iterates maps in an unspecified order. The loops that range over a map
(`CopyMap`, the series loop of `DeletePartialMatch`, `maps.Values` in
`RegisterMetrics`) therefore pick an arbitrary unvisited key, and their
contracts hold whichever order is taken.

Behaviour that follows the code, where a plain description of the exporter
might suggest otherwise:

- When the status or the duration labels cannot be extracted (a malformed
  status, or an unparsable timestamp), the loop body returns the error.
  The watch function ends there, before any series is touched. `Project`
  reports this as `Stopped(StatusLabelsFailed(_))` or
  `Stopped(DurationLabelsFailed(_))` and leaves the registry unchanged.
- An error reading the labels is ignored by the caller. The populated
  labels are then empty.
- An object carrying no labels at all gets no `#` seeding: its series
  lack the configured labels. `UnlabelledMissesSchema` shows the resulting
  mismatch with the registered schema.
- An object without `status` makes `GetRunDurationLabels` return no map.
  The next write into it (`maps.Copy` at kubernetes.go:118) is a Go panic.
  This is modelled as `Stopped(NilDurationMap)`, reached before any series
  is touched (`NoStatusPanics`).
- A bookmark or error notification matches no case of the switch. After
  the labels are derived it changes nothing (`EventType.Other`).

## Model

| member | source | states |
|---|---|---|
| Decimal.Digits | internal/kubernetes/kubernetes.go:364 | the decimal digits of a natural number are at least one digit, all digits, and without a leading zero unless the number is 0 |
| Decimal.Itoa | internal/kubernetes/kubernetes.go:364 | the decimal text of an integer is non-empty and starts with a digit or `-` |
| Decimal.DigitsValueOfDigits | internal/kubernetes/kubernetes.go:364 | reading back the digits of `n` gives `n` |
| Decimal.Atoi | internal/kubernetes/kubernetes.go:112-113 | text is read as a number exactly when it is an optional `+` or `-` followed by at least one digit; a negative reading comes only from a leading `-` |
| Decimal.AtoiItoa | internal/kubernetes/kubernetes.go:112-113 | `Atoi(Itoa(n)) == Some(n)` for every integer: the epoch written as a label is read back exactly |
| Decimal.ItoaNotSentinel | internal/kubernetes/kubernetes.go:111 | the text of a number is never the `#` placeholder |
| Rfc3339.ParseUint | internal/kubernetes/kubernetes.go:359 | a numeric field is accepted only within its range |
| Rfc3339.DaysIn | internal/kubernetes/kubernetes.go:359 | a month has 28 to 31 days |
| Rfc3339.DigitRun | internal/kubernetes/kubernetes.go:359 | the leading digit run is all digits and is followed by a non-digit or the end |
| Rfc3339.SkipFraction | internal/kubernetes/kubernetes.go:359 | skipping a fractional-second part never lengthens the text |
| Rfc3339.Parse | internal/kubernetes/kubernetes.go:359 | an accepted timestamp is at least 20 characters long, with `-`, `-`, `T`, `:`, `:` at the RFC 3339 positions |
| Rfc3339.ParseAcceptsUtc | internal/kubernetes/kubernetes.go:359 | every valid UTC date-time written zero-padded as `YYYY-MM-DDTHH:MM:SSZ` is accepted, and reads as its day number times 86400 plus the seconds of its time of day |
| Rfc3339.ParseRejectsDayPastMonth | internal/kubernetes/kubernetes.go:359-362 | a date-time whose day lies past the end of its month (a 30th of February, a 31st of April) is rejected |
| Rfc3339.ParseOffset | internal/kubernetes/kubernetes.go:359 | an accepted zone offset is less than a day in magnitude |
| Rfc3339.ParseOffsetShift | internal/kubernetes/kubernetes.go:359 | a zone offset shifts the reading by exactly that offset: a time east of UTC reads that many seconds earlier than the same wall clock with `Z`, and it parses exactly when the `Z` form does |
| Rfc3339.ParseDropsFraction | internal/kubernetes/kubernetes.go:359 | a `.digits` fraction of a second is read and dropped: the reading equals the one without it |
| Rfc3339.EpochDay | internal/kubernetes/kubernetes.go:359 | day 0 of the day count is 1970-01-01, the Unix epoch |
| Rfc3339.NextDayInMonth | internal/kubernetes/kubernetes.go:359 | the next day of the same month is the next day number |
| Rfc3339.NextMonth | internal/kubernetes/kubernetes.go:359 | the first of the next month is the day after the last day of a month |
| Rfc3339.MarchFollowsFebruary | internal/kubernetes/kubernetes.go:359 | March 1st is the day after February's last day, the 29th in a Gregorian leap year and the 28th otherwise |
| Rfc3339.NextYear | internal/kubernetes/kubernetes.go:359 | January 1st is the day after the previous December 31st |
| Rfc3339.NewYear2024 | internal/kubernetes/kubernetes.go:359 | 2024-01-01 is day 19723 after 1970-01-01 |
| Rfc3339.ParseStartOf2024 | internal/kubernetes/kubernetes.go:359 | `2024-01-01T00:00:00Z` (the text of `FormatUtc(2024, 1, 1, 0, 0, 0)`, by `StartOf2024Text`) is epoch second 1704067200 |
| Rfc3339.ParseFiveMinutesLater | internal/kubernetes/kubernetes.go:371 | `2024-01-01T00:05:00Z` (by `FiveMinutesLaterText`) is epoch second 1704067500 |
| Rfc3339.SkipFractionExample | internal/kubernetes/kubernetes.go:359 | a fractional-second part is skipped |
| Rfc3339.ParseOffsetExample | internal/kubernetes/kubernetes.go:359 | `+01:00` is an offset of 3600 seconds |
| Rfc3339.ParseRejectsMissingDay | internal/kubernetes/kubernetes.go:359-362 | `2024-02-30T00:00:00Z` (by `MissingDayText`) is rejected, so that timestamp yields an error |
| Metrics.Sanitize | internal/metrics/metrics.go:35 | no longer than the input, empty only for empty input, and starts with `_` exactly when the input starts with a non-alphanumeric character |
| Metrics.SanitizeCharset | internal/metrics/metrics.go:27 | the result contains only ASCII letters, digits and `_` |
| Metrics.SanitizeNoDoubleUnderscore | internal/metrics/metrics.go:27 | the result never holds two consecutive `_`, because each maximal run becomes one `_` |
| Metrics.SanitizeKeepsAlnum | internal/metrics/metrics.go:35 | a purely alphanumeric name is returned unchanged |
| Metrics.SanitizeKeepsAlnumChars | internal/metrics/metrics.go:35 | the alphanumeric characters of the name are kept in order |
| Metrics.SanitizeIdempotent | internal/metrics/metrics.go:35 | sanitizing twice is sanitizing once |
| Metrics.SanitizeAlnumPrefix | internal/metrics/metrics.go:35 | an alphanumeric prefix passes through unchanged |
| Metrics.SanitizeSeparator | internal/metrics/metrics.go:35 | a maximal run of one or more non-alphanumeric characters before an alphanumeric rest (or the end) becomes one `_` |
| Metrics.SanitizeSegment | internal/metrics/metrics.go:35 | an alphanumeric word, a run of one or more separators and a rest starting with a letter or digit become the word, one `_` and the sanitized rest (`a..b` gives `a_b`) |
| Metrics.SanitizePath | internal/metrics/metrics.go:35 | four alphanumeric segments joined by separator runs become the segments joined by single `_` |
| Metrics.SanitizeExample | internal/metrics/metrics.go:35 | `app.kubernetes.io/team` becomes `app_kubernetes_io_team` |
| Metrics.GetProcessedLabels | internal/metrics/metrics.go:22-40 | the map's keys are exactly the input names, each mapped to its sanitized form |
| Metrics.ExtraLabelNames | internal/metrics/metrics.go:45-46 | the extra labels hold each value as often as distinct raw names sanitize to it (duplicates included), in any order |
| Metrics.CountsGiveMembership | internal/metrics/metrics.go:45-46 | a value is an extra label exactly when some configured name sanitizes to it |
| Metrics.Gauge.Name | internal/metrics/metrics.go:53 | every gauge name starts with `tekton_exporter_` |
| Metrics.GaugeNamesDistinct | internal/metrics/metrics.go:52-82 | the four gauges have four different names |
| Metrics.Gauge.Schema | internal/metrics/metrics.go:49-50 | a schema is four fixed names, starting with `name`, `namespace`, followed by exactly the extra labels |
| Resource.FirstOfType | internal/kubernetes/kubernetes.go:305 | the condition found has the requested type and is the first entry of that type in the list; none is found exactly when no entry has that type |
| Kubernetes.SeededLabelsKeys | internal/kubernetes/kubernetes.go:283-294 | the seeded map's keys are exactly the sanitized configured names |
| Kubernetes.SeededLabelsValues | internal/kubernetes/kubernetes.go:283-294 | each key holds the object's label under the last configured name with that sanitized form, or `#` |
| Kubernetes.GetRunPopulatedLabels | internal/kubernetes/kubernetes.go:264-297 | the loop that seeds `#` then overwrites computes `PopulatedLabels` |
| Kubernetes.PopulatedLabelsSpec | internal/kubernetes/kubernetes.go:267-294 | a label-read error is reported; an object without labels gets none, not even `#`; otherwise keys and values are as seeded |
| Kubernetes.PopulatedKeys | internal/kubernetes/kubernetes.go:273-294 | the populated keys are the sanitized configured names for a labelled object and none otherwise |
| Kubernetes.ToLower | internal/kubernetes/kubernetes.go:321 | lower-casing keeps the length |
| Kubernetes.ToLowerIsTrue | internal/kubernetes/kubernetes.go:321 | lower-casing gives `true` exactly for the case variants of `true` |
| Kubernetes.GetRunStatusLabels | internal/kubernetes/kubernetes.go:302-331 | the status labels have exactly the keys `status` and `reason` |
| Kubernetes.StatusLabelsSpec | internal/kubernetes/kubernetes.go:311-328 | an error only from the condition read; `status` is `success` exactly when the condition status spells `true`, else `failed`; `reason` is copied; no condition gives `{failed, Unknown}` |
| Kubernetes.StatusValue | internal/kubernetes/kubernetes.go:94-97 | the status value is 0 or 1; which of them, in terms of the object, is stated by `DeriveValuesSpec` |
| Kubernetes.DurationLabels | internal/kubernetes/kubernetes.go:349-353 | a duration map has exactly the keys `start_timestamp` and `completion_timestamp` |
| Kubernetes.GetRunDurationLabels | internal/kubernetes/kubernetes.go:336-380 | the overwrite sequence computes `DurationLabels` |
| Kubernetes.TimestampLabelSpec | internal/kubernetes/kubernetes.go:357-365 | an absent timestamp gives `#`; a present one gives an error exactly when it does not parse, else decimal text that is not `#` and reads back as the parsed epoch |
| Kubernetes.DurationLabelsSpec | internal/kubernetes/kubernetes.go:345-377 | no map exactly when there is no status; with a status, both keys, each `#` exactly when its field is absent, the epoch otherwise, and an error exactly when a present field does not parse |
| Kubernetes.DurationValueSpec | internal/kubernetes/kubernetes.go:110-115 | the duration is completion minus start epoch seconds, not clamped, when both timestamps are present, else 0 |
| Kubernetes.CraftLabels | internal/kubernetes/kubernetes.go:71-118 | steps 1 to 3 of the loop body compute `Derive`: the labels and values, or the error or panic that stops the loop |
| Kubernetes.MergeSpec | internal/kubernetes/kubernetes.go:100 | copying the common labels into a map keeps all keys of both, with the common value winning |
| Kubernetes.DeriveLabelsSpec | internal/kubernetes/kubernetes.go:73-118 | common labels hold `name` and `namespace`; both series label maps contain every common label with the common value; their other keys are `status`/`reason` or the two timestamps, with the derived values |
| Kubernetes.CommonKeys | internal/kubernetes/kubernetes.go:72-79 | the common label names are `name`, `namespace` and, for an object with at least one label, the sanitized configured names |
| Kubernetes.DerivedKeys | internal/kubernetes/kubernetes.go:73-118 | a series' label names are its four fixed names plus the sanitized configured names, the latter only for a labelled object |
| Kubernetes.DeriveValuesSpec | internal/kubernetes/kubernetes.go:94-115 | the status value is 1 exactly when the `Succeeded` condition spells `true`; the duration is completion minus start, or 0 |
| Kubernetes.DeriveSucceeded | internal/kubernetes/kubernetes.go:86-115 | a run with a status, whose `Succeeded` condition (wherever it sits among the conditions) spells `true` and whose two timestamps parse, is derived without error, with status value 1 and duration the completion minus the start epoch |
| Kubernetes.DeriveExample | internal/kubernetes/kubernetes.go:86-115 | a run that succeeded after five minutes has status value 1 and duration 300 |
| Kubernetes.CommonLabelsExample | internal/kubernetes/kubernetes.go:72-79 | a run labelled `team=payments`, with `team` configured, has common labels name, namespace and team |
| Kubernetes.NoStatusPanics | internal/kubernetes/kubernetes.go:345-346 | an object without status stops at the nil-map write |
| Utils.CopyMap | internal/kubernetes/utils.go:5-11 | the copy has exactly the keys of the source, the same value under each, and the same size |
| Pool.AddedSpec | internal/kubernetes/kubernetes.go:124-129 | Added sets exactly the one series, leaves every other series as it was, and replaying it changes nothing |
| Pool.ModifiedSpec | internal/kubernetes/kubernetes.go:131-141 | after Modified the new series is the only one matching the common labels; non-matching series are untouched; replaying changes nothing |
| Pool.DeletedSpec | internal/kubernetes/kubernetes.go:143-148 | Deleted removes every matching series, inserts nothing, keeps the rest, and replaying changes nothing |
| Pool.DeleteUndoesAdd | internal/kubernetes/kubernetes.go:124-148 | a Deleted event after an Added event for the same object leaves what Deleted alone would |
| Pool.KeepUnmatched | internal/kubernetes/kubernetes.go:136 | the series loop keeps exactly the series not matching the subset, and counts the dropped ones |
| Pool.Registry.RegisterMetrics | internal/metrics/metrics.go:43-83 | every gauge starts empty; the extra labels are the sanitized configured names, one per distinct raw name |
| Pool.Registry.Set | internal/kubernetes/kubernetes.go:128 | `With(labels).Set(v)` sets that one series of that gauge, and the other three gauges are unchanged |
| Pool.Registry.DeletePartialMatch | internal/kubernetes/kubernetes.go:136 | removes exactly the matching series of that gauge and returns how many; the other gauges are unchanged |
| Pool.Registry.Apply | internal/kubernetes/kubernetes.go:122-149 | the switch updates the two gauges of the run's kind as `ApplyEvent` says and leaves the other kind's two alone |
| Pool.Registry.Project | internal/kubernetes/kubernetes.go:71-149 | one loop iteration: on a derivation failure it stops with that failure and the registry unchanged; otherwise both gauges of the kind are updated per event type, and the other kind is untouched; given the names the gauges were registered with, a labelled object's series carry exactly the names of their gauge's schema |
| Pool.ModifiedLeavesOneSeries | internal/kubernetes/kubernetes.go:131-141 | after a Modified event each gauge of the kind has exactly one series matching the object's common labels: the new one |
| Pool.SchemaNames | internal/metrics/metrics.go:49-77 | a schema's names are its four fixed names and the extra labels |
| Pool.SchemaAgreement | internal/metrics/metrics.go:45-77 | a labelled object's status and duration series carry exactly the label names their gauges were registered with |
| Pool.UnlabelledMissesSchema | internal/kubernetes/kubernetes.go:273-275 | for an object without labels, every configured name is in the schema of both the status and the duration gauge, yet absent from the status series unless it is a fixed status name and absent from the duration series unless it is a fixed duration name |

## Left out

- The Kubernetes client and watch subscription (`NewClient`, `Watch`,
  `ResultChan`, and the hard-coded `freeclip` namespace of the TaskRun
  watch) are left out. The model is one loop iteration, applied to a given
  event.
- The command line, flag parsing, the context, the goroutines and the HTTP
  `/metrics` server (`internal/cmd/...`, `cmd/tekton-exporter/main.go`) are
  left out. The configured label names are a plain parameter.
- zap logging is left out.
- Prometheus library internals are left out: registration, the panic of
  `With` on a label set that differs from the schema, the panic at
  registration on duplicate label names, and `float64` storage. Gauge
  values are `int`. Label-set agreement is stated as lemmas
  (`SchemaAgreement`, `UnlabelledMissesSchema`) instead of a panic.
- The accessors `GetObjectBasicData`, `GetObjectLabels`,
  `GetObjectCondition` and `GetObjectStatus` are not part of the modelled
  files. They are modelled on a typed object: an absent part is no error,
  a wrongly shaped part is an error.
- Go type-assertion panics are excluded by typing: `name` and `namespace`,
  the condition's `status` and `reason`, and the timestamps are strings.
- Rfc3339.Parse: models only the strict fixed-width layout. Go's
  fallback parser also accepts a few looser spellings (for example a comma
  before the fractional seconds), and those are rejected here.
- Decimal.Atoi: does not model the 64-bit range limit of `strconv.Atoi`
  or of `int(parsedTime.Unix())`. Values are unbounded integers.
- Kubernetes.ToLower: lower-cases ASCII letters only. Go's Unicode
  lower-casing cannot map any non-ASCII character to one of `t`, `r`, `u`,
  `e`, so the comparison with `true` is unaffected.
- Utils.CopyMap: the copy being a fresh allocation is implicit, since a
  Dafny map is a value that later writes to either map cannot reach.
