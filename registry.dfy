/** The gauge pool of internal/metrics (the four gauge vectors that
    RegisterMetrics creates) and the per-event step of WatchPipelineRuns and
    WatchTaskRuns (internal/kubernetes/kubernetes.go) that updates it. A
    gauge vector is a map from a series' label map to its value. */
module Pool {
  import opened Wrappers
  import opened Resource
  import opened Metrics
  import opened Kubernetes
  import Utils

  /** The series of one gauge vector: one value per label map. */
  type GaugeVec = map<Labels, int>

  /** The kind of a watch notification. `Other` stands for the bookmark and
      error notifications, which the Go switch has no case for. */
  datatype EventType = Added | Modified | Deleted | Other

  datatype Event = Event(eventType: EventType, run: Run)

  /** What one loop iteration does: it reaches the registry, or it stops
      the watch (an extraction error, or the nil-map panic). */
  datatype Outcome = Applied | Stopped(reason: Failure)

  /** The series of `v` that do not contain `sub`: what DeletePartialMatch
      keeps. */
  function DeleteMatching(v: GaugeVec, sub: Labels): GaugeVec {
    map k | k in v && !PartialMatch(sub, k) :: v[k]
  }

  /** One gauge vector after an event whose common labels are `common`
      and whose series for this vector is `labels` with `value`. */
  function ApplyEvent(t: EventType, common: Labels, labels: Labels, value: int, v: GaugeVec): GaugeVec {
    match t
    case Added => v[labels := value]
    case Modified => DeleteMatching(v, common)[labels := value]
    case Deleted => DeleteMatching(v, common)
    case Other => v
  }

  /** Added sets exactly one series, leaves every other series as it was,
      and replaying it changes nothing. */
  lemma AddedSpec(common: Labels, labels: Labels, value: int, v: GaugeVec)
    ensures var r := ApplyEvent(Added, common, labels, value, v);
      && labels in r && r[labels] == value
      && (forall k :: k != labels ==> (k in r <==> k in v))
      && (forall k :: k in r && k != labels ==> r[k] == v[k])
      && ApplyEvent(Added, common, labels, value, r) == r
  {
  }

  /** After Modified, when the new series contains the common labels (as
      every derived series does), it is the only series that matches them;
      series that do not match are untouched, and replaying the event
      changes nothing. */
  lemma ModifiedSpec(common: Labels, labels: Labels, value: int, v: GaugeVec)
    requires PartialMatch(common, labels)
    ensures var r := ApplyEvent(Modified, common, labels, value, v);
      && labels in r && r[labels] == value
      && (forall k :: k in r && PartialMatch(common, k) ==> k == labels)
      && (forall k :: !PartialMatch(common, k) ==> (k in r <==> k in v))
      && (forall k :: k in r && !PartialMatch(common, k) ==> r[k] == v[k])
      && ApplyEvent(Modified, common, labels, value, r) == r
  {
    var r := ApplyEvent(Modified, common, labels, value, v);
    assert DeleteMatching(r, common) == DeleteMatching(v, common);
  }

  /** Deleted removes every series matching the common labels, inserts
      nothing, keeps the others, and replaying it changes nothing. */
  lemma DeletedSpec(common: Labels, labels: Labels, value: int, v: GaugeVec)
    ensures var r := ApplyEvent(Deleted, common, labels, value, v);
      && r.Keys <= v.Keys
      && (forall k :: k in r ==> !PartialMatch(common, k))
      && (forall k :: k in v && !PartialMatch(common, k) ==> k in r && r[k] == v[k])
      && ApplyEvent(Deleted, common, labels, value, r) == r
  {
    var r := ApplyEvent(Deleted, common, labels, value, v);
    assert DeleteMatching(r, common) == r;
  }

  /** Deleting an object undoes adding it: a Deleted event after an Added
      event with the same common labels leaves what Deleted alone would. */
  lemma DeleteUndoesAdd(common: Labels, labels: Labels, value: int, v: GaugeVec)
    requires PartialMatch(common, labels)
    ensures ApplyEvent(Deleted, common, labels, value, ApplyEvent(Added, common, labels, value, v))
         == ApplyEvent(Deleted, common, labels, value, v)
  {
    var added := ApplyEvent(Added, common, labels, value, v);
    assert DeleteMatching(added, common) == DeleteMatching(v, common);
  }

  /** `kept` holds some of the series of `series`, with their values. */
  ghost predicate SubVec(kept: GaugeVec, series: GaugeVec) {
    kept.Keys <= series.Keys && forall k :: k in kept ==> kept[k] == series[k]
  }

  /** Every series outside `rest` has been decided: kept exactly when its
      labels do not contain `sub`. */
  ghost predicate Decided(series: GaugeVec, kept: GaugeVec, rest: set<Labels>, sub: Labels) {
    forall k :: k in series && k !in rest ==> (k in kept <==> !PartialMatch(sub, k))
  }

  /** Dropping one more kept series adds one to the number dropped. */
  lemma DropOneMore(all: set<Labels>, kept: set<Labels>, k: Labels)
    requires kept <= all && k in kept
    ensures |all - (kept - {k})| == |all - kept| + 1
  {
    assert all - (kept - {k}) == (all - kept) + {k};
  }

  /** The series loop of DeletePartialMatch: visit the series in any
      order and drop those whose labels contain `sub`, counting them. */
  method KeepUnmatched(series: GaugeVec, sub: Labels) returns (kept: GaugeVec, deleted: nat)
    ensures kept == DeleteMatching(series, sub)
    ensures deleted == |series.Keys - kept.Keys|
  {
    kept := series;
    var rest := series.Keys;
    deleted := 0;
    while rest != {}
      invariant rest <= kept.Keys
      invariant SubVec(kept, series)
      invariant Decided(series, kept, rest, sub)
      invariant deleted == |series.Keys - kept.Keys|
      decreases rest
    {
      var k :| k in rest;
      if PartialMatch(sub, k) {
        DropOneMore(series.Keys, kept.Keys, k);
        kept := kept - {k};
        deleted := deleted + 1;
      }
      rest := rest - {k};
    }
    assert kept == DeleteMatching(series, sub);
  }

  class Registry {
    /** The sanitized configured labels appended to every schema. */
    const extraLabels: seq<string>
    var pipelineRunStatus: GaugeVec
    var taskRunStatus: GaugeVec
    var pipelineRunDuration: GaugeVec
    var taskRunDuration: GaugeVec

    /** The series of gauge `g`. */
    function Vec(g: Gauge): GaugeVec
      reads this
    {
      match g
      case Status(PipelineRun) => pipelineRunStatus
      case Status(TaskRun) => taskRunStatus
      case Duration(PipelineRun) => pipelineRunDuration
      case Duration(TaskRun) => taskRunDuration
    }

    /** RegisterMetrics: every gauge starts without series; its schema is
        its fixed names followed by the sanitized configured names, one
        entry per distinct raw name. */
    constructor RegisterMetrics(extraLabelNames: seq<string>)
      ensures CountsMatch(extraLabels, NameSet(extraLabelNames))
      ensures forall v :: v in extraLabels <==> exists n :: n in extraLabelNames && Sanitize(n) == v
      ensures forall g :: Vec(g) == map[]
    {
      var parsedLabels := ExtraLabelNames(extraLabelNames);
      extraLabels := parsedLabels;
      pipelineRunStatus := map[];
      taskRunStatus := map[];
      pipelineRunDuration := map[];
      taskRunDuration := map[];
    }

    /** Replace the series of gauge `g`. */
    method Store(g: Gauge, v: GaugeVec)
      modifies this
      ensures Vec(g) == v
      ensures Vec(g.Sibling()) == old(Vec(g.Sibling()))
      ensures Vec(Status(g.kind.Other())) == old(Vec(Status(g.kind.Other())))
      ensures Vec(Duration(g.kind.Other())) == old(Vec(Duration(g.kind.Other())))
    {
      match g
      case Status(PipelineRun) => pipelineRunStatus := v;
      case Status(TaskRun) => taskRunStatus := v;
      case Duration(PipelineRun) => pipelineRunDuration := v;
      case Duration(TaskRun) => taskRunDuration := v;
    }

    /** `With(labels).Set(value)`: the series at `labels` gets `value`. */
    method Set(g: Gauge, labels: Labels, value: int)
      modifies this
      ensures Vec(g) == old(Vec(g))[labels := value]
      ensures Vec(g.Sibling()) == old(Vec(g.Sibling()))
      ensures Vec(Status(g.kind.Other())) == old(Vec(Status(g.kind.Other())))
      ensures Vec(Duration(g.kind.Other())) == old(Vec(Duration(g.kind.Other())))
    {
      Store(g, Vec(g)[labels := value]);
    }

    /** `DeletePartialMatch(labels)` on gauge `g`: every series whose
        labels contain `labels` goes; returns how many went. */
    method DeletePartialMatch(g: Gauge, labels: Labels) returns (deleted: nat)
      modifies this
      ensures Vec(g) == DeleteMatching(old(Vec(g)), labels)
      ensures deleted == |old(Vec(g)).Keys - Vec(g).Keys|
      ensures Vec(g.Sibling()) == old(Vec(g.Sibling()))
      ensures Vec(Status(g.kind.Other())) == old(Vec(Status(g.kind.Other())))
      ensures Vec(Duration(g.kind.Other())) == old(Vec(Duration(g.kind.Other())))
    {
      var kept;
      kept, deleted := KeepUnmatched(Vec(g), labels);
      Store(g, kept);
    }

    /** The switch of the loop body: the series an event of type `t`
        sets and deletes in the two gauges of kind `kind`. */
    method Apply(kind: RunKind, t: EventType, d: Derived)
      modifies this
      ensures Vec(Status(kind)) == ApplyEvent(t, d.common, d.statusLabels, d.statusValue, old(Vec(Status(kind))))
      ensures Vec(Duration(kind)) == ApplyEvent(t, d.common, d.durationLabels, d.durationValue, old(Vec(Duration(kind))))
      ensures Vec(Status(kind.Other())) == old(Vec(Status(kind.Other())))
      ensures Vec(Duration(kind.Other())) == old(Vec(Duration(kind.Other())))
    {
      var commonLabelsProm := Utils.CopyMap(d.common);
      assert commonLabelsProm == d.common;
      match t {
      case Added =>
        Set(Status(kind), d.statusLabels, d.statusValue);
        Set(Duration(kind), d.durationLabels, d.durationValue);
      case Modified =>
        var deletedStatus := DeletePartialMatch(Status(kind), commonLabelsProm);
        var deletedDuration := DeletePartialMatch(Duration(kind), commonLabelsProm);
        Set(Status(kind), d.statusLabels, d.statusValue);
        Set(Duration(kind), d.durationLabels, d.durationValue);
      case Deleted =>
        var deletedStatus := DeletePartialMatch(Status(kind), commonLabelsProm);
        var deletedDuration := DeletePartialMatch(Duration(kind), commonLabelsProm);
      case Other =>
      }
    }

    /** One iteration of the watch loop for a run of kind `kind`: derive
        the labels and values, then set or delete series. An extraction
        error or the nil-map panic stops before any series is touched. The
        watch is given the same configured names the gauges were
        registered with; for a labelled object the series it writes then
        carry exactly the names of their gauge's schema. */
    method Project(kind: RunKind, event: Event, populatedLabelNames: seq<string>) returns (outcome: Outcome)
      requires forall v :: v in extraLabels <==> exists n :: n in populatedLabelNames && Sanitize(n) == v
      modifies this
      ensures var o := event.run;
        Derive(populatedLabelNames, o).Ok? && o.labels.Present? && |o.labels.value| > 0 ==>
          && Derive(populatedLabelNames, o).value.statusLabels.Keys == NamesOf(Status(kind).Schema(extraLabels))
          && Derive(populatedLabelNames, o).value.durationLabels.Keys == NamesOf(Duration(kind).Schema(extraLabels))
      ensures match Derive(populatedLabelNames, event.run)
        case Err(f) => outcome == Stopped(f) && unchanged(this)
        case Ok(d) =>
          && outcome == Applied
          && Vec(Status(kind)) == ApplyEvent(event.eventType, d.common, d.statusLabels, d.statusValue, old(Vec(Status(kind))))
          && Vec(Duration(kind)) == ApplyEvent(event.eventType, d.common, d.durationLabels, d.durationValue, old(Vec(Duration(kind))))
      ensures Vec(Status(kind.Other())) == old(Vec(Status(kind.Other())))
      ensures Vec(Duration(kind.Other())) == old(Vec(Duration(kind.Other())))
    {
      var crafted := CraftLabels(populatedLabelNames, event.run);
      if crafted.Err? {
        return Stopped(crafted.error);
      }
      var o := event.run;
      if o.labels.Present? && |o.labels.value| > 0 {
        SchemaAgreement(kind, populatedLabelNames, o, extraLabels);
      }
      Apply(kind, event.eventType, crafted.value);
      return Applied;
    }
  }

  /** After a Modified event has been applied, each vector of its kind has
      exactly one series matching the object's common labels: the new one. */
  lemma ModifiedLeavesOneSeries(names: seq<string>, o: Run, status: GaugeVec, duration: GaugeVec)
    requires Derive(names, o).Ok?
    ensures var d := Derive(names, o).value;
      var s := ApplyEvent(Modified, d.common, d.statusLabels, d.statusValue, status);
      var u := ApplyEvent(Modified, d.common, d.durationLabels, d.durationValue, duration);
      && (forall k :: k in s && PartialMatch(d.common, k) <==> k == d.statusLabels)
      && (forall k :: k in u && PartialMatch(d.common, k) <==> k == d.durationLabels)
  {
    var d := Derive(names, o).value;
    DeriveLabelsSpec(names, o);
    ModifiedSpec(d.common, d.statusLabels, d.statusValue, status);
    ModifiedSpec(d.common, d.durationLabels, d.durationValue, duration);
  }

  /** The distinct label names of a series, as a set. */
  function NamesOf(schema: seq<string>): set<string> {
    set x | x in schema
  }

  /** The names of a schema: its four fixed names and the extra ones. */
  lemma SchemaNames(g: Gauge, extra: seq<string>)
    ensures g.Status? ==> NamesOf(g.Schema(extra)) == {"name", "namespace", "status", "reason"} + NamesOf(extra)
    ensures g.Duration? ==> NamesOf(g.Schema(extra)) == {"name", "namespace", "start_timestamp", "completion_timestamp"} + NamesOf(extra)
  {
    if g.Status? {
      assert g.Schema(extra) == StatusLabelNames + extra;
      NamesOfConcat(StatusLabelNames, extra);
      assert NamesOf(StatusLabelNames) == {"name", "namespace", "status", "reason"};
    } else {
      assert g.Schema(extra) == DurationLabelNames + extra;
      NamesOfConcat(DurationLabelNames, extra);
      assert NamesOf(DurationLabelNames) == {"name", "namespace", "start_timestamp", "completion_timestamp"};
    }
  }

  lemma NamesOfConcat(xs: seq<string>, ys: seq<string>)
    ensures NamesOf(xs + ys) == NamesOf(xs) + NamesOf(ys)
  {
  }

  /** For an object with labels, every series it produces carries exactly
      the label names its gauge was registered with. */
  lemma SchemaAgreement(kind: RunKind, names: seq<string>, o: Run, extra: seq<string>)
    requires Derive(names, o).Ok?
    requires o.labels.Present? && |o.labels.value| > 0
    requires forall v :: v in extra <==> exists n :: n in names && Sanitize(n) == v
    ensures Derive(names, o).value.statusLabels.Keys == NamesOf(Status(kind).Schema(extra))
    ensures Derive(names, o).value.durationLabels.Keys == NamesOf(Duration(kind).Schema(extra))
  {
    DerivedKeys(names, o);
    SchemaNames(Status(kind), extra);
    SchemaNames(Duration(kind), extra);
    assert NamesOf(extra) == SanitizedNames(names);
  }

  /** An object with no labels at all gets no `#` seeding, so a configured
      name is in the schema of both gauges of its kind but, unless it
      sanitizes to one of that gauge's fixed labels, missing from the
      object's series. */
  lemma UnlabelledMissesSchema(kind: RunKind, names: seq<string>, o: Run, extra: seq<string>, n: string)
    requires o.labels.Absent?
    requires forall v :: v in extra <==> exists m :: m in names && Sanitize(m) == v
    requires n in names
    ensures Sanitize(n) in Status(kind).Schema(extra) && Sanitize(n) in Duration(kind).Schema(extra)
    ensures Derive(names, o).Ok? && Sanitize(n) !in StatusLabelNames
            ==> Sanitize(n) !in Derive(names, o).value.statusLabels
    ensures Derive(names, o).Ok? && Sanitize(n) !in DurationLabelNames
            ==> Sanitize(n) !in Derive(names, o).value.durationLabels
  {
    if Derive(names, o).Ok? {
      DerivedKeys(names, o);
    }
    assert Sanitize(n) in extra;
    assert Status(kind).Schema(extra)[4..] == extra;
    assert Duration(kind).Schema(extra)[4..] == extra;
  }
}
