/** The label sanitizer and the fixed label schemas of the four gauges
    (internal/metrics/metrics.go). */
module Metrics {

  /** Characters the sanitizer keeps: ASCII letters and digits. */
  predicate IsAlnum(c: char) {
    'a' <= c <= 'z' || 'A' <= c <= 'Z' || '0' <= c <= '9'
  }

  predicate IsAlnumString(s: string) {
    forall i :: 0 <= i < |s| ==> IsAlnum(s[i])
  }

  /** `s` without its leading run of characters outside [A-Za-z0-9]. */
  function DropRun(s: string): (r: string)
    ensures |r| <= |s|
    ensures r == [] || IsAlnum(r[0])
  {
    if s != [] && !IsAlnum(s[0]) then DropRun(s[1..]) else s
  }

  /** The regular-expression replacement of metrics.go: every maximal run of
      characters outside [A-Za-z0-9] becomes one `_`. */
  function Sanitize(s: string): (r: string)
    ensures |r| <= |s|
    ensures r == [] <==> s == []
    ensures s != [] ==> (r[0] == '_' <==> !IsAlnum(s[0]))
    decreases |s|
  {
    if s == [] then []
    else if IsAlnum(s[0]) then [s[0]] + Sanitize(s[1..])
    else "_" + Sanitize(DropRun(s[1..]))
  }

  /** A sanitized name holds only ASCII letters, digits and `_`. */
  lemma {:induction false} SanitizeCharset(s: string)
    ensures forall i :: 0 <= i < |Sanitize(s)| ==> IsAlnum(Sanitize(s)[i]) || Sanitize(s)[i] == '_'
    decreases |s|
  {
    if s != [] {
      if IsAlnum(s[0]) {
        SanitizeCharset(s[1..]);
        assert Sanitize(s)[1..] == Sanitize(s[1..]);
      } else {
        SanitizeCharset(DropRun(s[1..]));
        assert Sanitize(s)[1..] == Sanitize(DropRun(s[1..]));
      }
    }
  }

  /** The letters and digits of `s`, in order. */
  function AlnumChars(s: string): string {
    if s == [] then []
    else if IsAlnum(s[0]) then [s[0]] + AlnumChars(s[1..])
    else AlnumChars(s[1..])
  }

  /** A sanitized name never holds two `_` in a row: each run became one. */
  lemma {:induction false} SanitizeNoDoubleUnderscore(s: string)
    ensures var r := Sanitize(s); forall i :: 0 <= i < |r| - 1 ==> !(r[i] == '_' && r[i + 1] == '_')
    decreases |s|
  {
    if s != [] {
      if IsAlnum(s[0]) {
        SanitizeNoDoubleUnderscore(s[1..]);
        assert Sanitize(s)[1..] == Sanitize(s[1..]);
      } else {
        var t := DropRun(s[1..]);
        SanitizeNoDoubleUnderscore(t);
        assert Sanitize(s)[1..] == Sanitize(t);
      }
    }
  }

  /** A name made only of letters and digits is returned unchanged. */
  lemma {:induction false} SanitizeKeepsAlnum(s: string)
    requires IsAlnumString(s)
    ensures Sanitize(s) == s
  {
    if s != [] {
      SanitizeKeepsAlnum(s[1..]);
    }
  }

  lemma {:induction false} DropRunKeepsAlnumChars(s: string)
    ensures AlnumChars(DropRun(s)) == AlnumChars(s)
  {
    if s != [] && !IsAlnum(s[0]) {
      DropRunKeepsAlnumChars(s[1..]);
    }
  }

  /** Only the characters outside [A-Za-z0-9] are touched: the letters and
      digits survive, in their order. */
  lemma {:induction false} SanitizeKeepsAlnumChars(s: string)
    ensures AlnumChars(Sanitize(s)) == AlnumChars(s)
    decreases |s|
  {
    if s != [] {
      if IsAlnum(s[0]) {
        SanitizeKeepsAlnumChars(s[1..]);
        assert Sanitize(s)[1..] == Sanitize(s[1..]);
      } else {
        var t := DropRun(s[1..]);
        SanitizeKeepsAlnumChars(t);
        DropRunKeepsAlnumChars(s[1..]);
        assert Sanitize(s)[1..] == Sanitize(t);
      }
    }
  }

  /** Sanitizing a sanitized name changes nothing. */
  lemma {:induction false} SanitizeIdempotent(s: string)
    ensures Sanitize(Sanitize(s)) == Sanitize(s)
    decreases |s|
  {
    if s != [] {
      var r := Sanitize(s);
      if IsAlnum(s[0]) {
        SanitizeIdempotent(s[1..]);
        assert r[1..] == Sanitize(s[1..]);
      } else {
        var t := DropRun(s[1..]);
        SanitizeIdempotent(t);
        assert r[1..] == Sanitize(t);
        assert DropRun(r[1..]) == r[1..];
      }
    }
  }

  /** A leading stretch of letters and digits is copied as it is. */
  lemma {:induction false} SanitizeAlnumPrefix(a: string, t: string)
    requires IsAlnumString(a)
    ensures Sanitize(a + t) == a + Sanitize(t)
  {
    if a != [] {
      var s := a + t;
      assert s[0] == a[0] && IsAlnum(s[0]);
      assert s[1..] == a[1..] + t;
      SanitizeAlnumPrefix(a[1..], t);
      calc {
        Sanitize(s);
        [s[0]] + Sanitize(s[1..]);
        [a[0]] + (a[1..] + Sanitize(t));
        { assert a == [a[0]] + a[1..]; }
        a + Sanitize(t);
      }
    } else {
      assert a + t == t;
    }
  }

  /** No character of `sep` is a letter or digit. */
  predicate IsSeparatorRun(sep: string) {
    forall i :: 0 <= i < |sep| ==> !IsAlnum(sep[i])
  }

  /** `DropRun` removes a whole run of separators standing before a letter
      or digit. */
  lemma {:induction false} DropRunSkipsRun(sep: string, t: string)
    requires IsSeparatorRun(sep) && (t == [] || IsAlnum(t[0]))
    ensures DropRun(sep + t) == t
  {
    if sep == [] {
      assert sep + t == t;
    } else {
      var u := sep + t;
      assert u[0] == sep[0] && u[1..] == sep[1..] + t;
      DropRunSkipsRun(sep[1..], t);
    }
  }

  /** A maximal run of separators at the front becomes one `_`. */
  lemma SanitizeSeparator(sep: string, t: string)
    requires sep != [] && IsSeparatorRun(sep) && (t == [] || IsAlnum(t[0]))
    ensures Sanitize(sep + t) == "_" + Sanitize(t)
  {
    var u := sep + t;
    assert u[0] == sep[0] && u[1..] == sep[1..] + t;
    DropRunSkipsRun(sep[1..], t);
  }

  /** A run of separators between a name made of letters and digits and
      the rest becomes one `_`: `app.kubernetes.io/team` sanitizes to
      `app_kubernetes_io_team` one segment at a time, and `a..b` to `a_b`. */
  lemma SanitizeSegment(a: string, sep: string, t: string)
    requires IsAlnumString(a) && sep != [] && IsSeparatorRun(sep) && (t == [] || IsAlnum(t[0]))
    ensures Sanitize(a + sep + t) == a + "_" + Sanitize(t)
  {
    SanitizeSeparator(sep, t);
    SanitizeAlnumPrefix(a, sep + t);
    ConcatAssoc(a, sep, t);
    ConcatAssoc(a, "_", Sanitize(t));
  }

  lemma ConcatAssoc(x: string, y: string, z: string)
    ensures x + y + z == x + (y + z)
  {
  }

  /** A path of four alphanumeric segments joined by separator runs
      becomes those segments joined by single underscores. */
  lemma SanitizePath(a: string, s1: string, b: string, s2: string, c: string, s3: string, d: string)
    requires IsAlnumString(a) && IsAlnumString(b) && IsAlnumString(c) && IsAlnumString(d)
    requires b != [] && c != [] && d != []
    requires s1 != [] && IsSeparatorRun(s1) && s2 != [] && IsSeparatorRun(s2) && s3 != [] && IsSeparatorRun(s3)
    ensures Sanitize(a + (s1 + (b + (s2 + (c + (s3 + d))))))
         == a + ("_" + (b + ("_" + (c + ("_" + d)))))
  {
    var y := c + (s3 + d);
    var x := b + (s2 + y);
    SanitizeKeepsAlnum(d);
    SanitizeSegment(c, s3, d);
    ConcatAssoc(c, s3, d);
    ConcatAssoc(c, "_", d);
    SanitizeSegment(b, s2, y);
    ConcatAssoc(b, s2, y);
    ConcatAssoc(b, "_", Sanitize(y));
    SanitizeSegment(a, s1, x);
    ConcatAssoc(a, s1, x);
    ConcatAssoc(a, "_", Sanitize(x));
  }

  /** For example, `app.kubernetes.io/team` becomes `app_kubernetes_io_team`. */
  lemma SanitizeExample(app: string, kubernetes: string, io: string, team: string)
    requires app == "app" && kubernetes == "kubernetes" && io == "io" && team == "team"
    ensures Sanitize(app + ("." + (kubernetes + ("." + (io + ("/" + team))))))
         == app + ("_" + (kubernetes + ("_" + (io + ("_" + team)))))
  {
    SanitizePath(app, ".", kubernetes, ".", io, "/", team);
  }

  /** GetProcessedLabels: a map from every configured raw name to its
      sanitized form. The regular expression is a constant that always
      compiles, so the Go error result is always nil and is not modelled. */
  method GetProcessedLabels(labelNames: seq<string>) returns (promLabelNames: map<string, string>)
    ensures promLabelNames.Keys == NameSet(labelNames)
    ensures forall n :: n in promLabelNames ==> promLabelNames[n] == Sanitize(n)
  {
    promLabelNames := map[];
    for i := 0 to |labelNames|
      invariant promLabelNames.Keys == set n | n in labelNames[..i]
      invariant forall n :: n in promLabelNames ==> promLabelNames[n] == Sanitize(n)
    {
      assert labelNames[..i + 1] == labelNames[..i] + [labelNames[i]];
      var labelName := labelNames[i];
      promLabelNames := promLabelNames[labelName := Sanitize(labelName)];
    }
    assert labelNames[..|labelNames|] == labelNames;
  }

  /** The distinct names of a configured list. */
  function NameSet(names: seq<string>): set<string> {
    set n | n in names
  }

  /** The sanitized forms of a configured list. */
  function SanitizedNames(names: seq<string>): set<string> {
    set n | n in names :: Sanitize(n)
  }

  lemma SanitizedNamesSnoc(names: seq<string>, n: string)
    ensures SanitizedNames(names + [n]) == SanitizedNames(names) + {Sanitize(n)}
  {
    assert forall m :: m in names + [n] <==> m in names || m == n;
  }

  /** The raw names among `names` that sanitize to `v`. */
  function RawNamesFor(names: set<string>, v: string): set<string> {
    set n | n in names && Sanitize(n) == v
  }

  /** Every name occurs in `extra` as often as raw names in `names`
      sanitize to it. */
  ghost predicate CountsMatch(extra: seq<string>, names: set<string>) {
    forall v :: multiset(extra)[v] == |RawNamesFor(names, v)|
  }

  /** Adding one more raw name adds one entry for its sanitized form. */
  lemma CountAfterInsert(extra: seq<string>, done: set<string>, k: string)
    requires k !in done
    requires CountsMatch(extra, done)
    ensures CountsMatch(extra + [Sanitize(k)], done + {k})
  {
    forall v
      ensures multiset(extra + [Sanitize(k)])[v] == |RawNamesFor(done + {k}, v)|
    {
      if v == Sanitize(k) {
        assert RawNamesFor(done + {k}, v) == RawNamesFor(done, v) + {k};
      } else {
        assert RawNamesFor(done + {k}, v) == RawNamesFor(done, v);
      }
    }
  }

  /** The extra label names of RegisterMetrics: the values of the processed
      map, in Go's unspecified map order (a nondeterministic choice here).
      Each distinct raw name contributes one entry, so two raw names that
      sanitize alike give a duplicate. */
  method ExtraLabelNames(labelNames: seq<string>) returns (extra: seq<string>)
    ensures CountsMatch(extra, NameSet(labelNames))
    ensures forall v :: v in extra <==> exists n :: n in labelNames && Sanitize(n) == v
  {
    var parsed := GetProcessedLabels(labelNames);
    extra := [];
    var rest := parsed.Keys;
    ghost var done: set<string> := {};
    while rest != {}
      invariant rest !! done && rest + done == parsed.Keys
      invariant CountsMatch(extra, done)
      decreases rest
    {
      var k :| k in rest;
      var sanitized := parsed[k];
      CountAfterInsert(extra, done, k);
      extra := extra + [sanitized];
      rest := rest - {k};
      done := done + {k};
    }
    CountsGiveMembership(extra, labelNames);
  }

  /** An entry occurs in the extra names exactly when some raw name
      sanitizes to it. */
  lemma CountsGiveMembership(extra: seq<string>, labelNames: seq<string>)
    requires CountsMatch(extra, NameSet(labelNames))
    ensures forall v :: v in extra <==> exists n :: n in labelNames && Sanitize(n) == v
  {
    forall v ensures v in extra <==> exists n :: n in labelNames && Sanitize(n) == v {
      var raw := RawNamesFor(NameSet(labelNames), v);
      if exists n :: n in labelNames && Sanitize(n) == v {
        var n :| n in labelNames && Sanitize(n) == v;
        assert n in raw;
      }
      if v in extra {
        assert multiset(extra)[v] > 0;
        assert raw != {};
        var n :| n in raw;
      }
    }
  }

  const MetricsPrefix: string := "tekton_exporter_"

  /** The label schema every status series is registered with, before the
      extra labels. */
  const StatusLabelNames: seq<string> := ["name", "namespace", "status", "reason"]

  /** The label schema every duration series is registered with, before the
      extra labels. */
  const DurationLabelNames: seq<string> := ["name", "namespace", "start_timestamp", "completion_timestamp"]

  /** The two watched resource kinds. */
  datatype RunKind = PipelineRun | TaskRun {

    /** The kind whose gauges an event about this kind leaves alone. */
    function Other(): (r: RunKind)
      ensures r != this
    {
      if PipelineRun? then TaskRun else PipelineRun
    }
  }

  /** The four gauge vectors of the pool. */
  datatype Gauge = Status(kind: RunKind) | Duration(kind: RunKind) {

    /** The series name the gauge is exposed under. */
    function Name(): (r: string)
      ensures |r| > |MetricsPrefix| && r[..|MetricsPrefix|] == MetricsPrefix
    {
      MetricsPrefix + match this
        case Status(PipelineRun) => "pipelinerun_status"
        case Status(TaskRun) => "taskrun_status"
        case Duration(PipelineRun) => "pipelinerun_duration_seconds"
        case Duration(TaskRun) => "taskrun_duration_seconds"
    }

    /** The other gauge of the same kind. */
    function Sibling(): (r: Gauge)
      ensures r != this && r.kind == kind
    {
      if Status? then Duration(kind) else Status(kind)
    }

    /** The registered label schema, given the extra label names. */
    function Schema(extra: seq<string>): (r: seq<string>)
      ensures |r| == 4 + |extra| && r[4..] == extra
      ensures r[..2] == ["name", "namespace"]
    {
      (if Status? then StatusLabelNames else DurationLabelNames) + extra
    }
  }

  /** The four gauges are exposed under four different names. */
  lemma GaugeNamesDistinct(g: Gauge, h: Gauge)
    requires g != h
    ensures g.Name() != h.Name()
  {
    var p := |MetricsPrefix|;
    assert g.Name()[p..] != h.Name()[p..];
  }
}
