/** The parts of a PipelineRun or TaskRun object that the exporter reads,
    and the accessors that extract them (GetObjectBasicData,
    GetObjectLabels, GetObjectCondition, GetObjectStatus). The objects are
    semi-structured maps in the cluster; here each substructure the
    accessors look into is a `Field`: absent, present but of the wrong
    shape, or present and well-formed. The accessors themselves are not
    part of the repository files modelled here; the model assumes that an
    absent part reads as empty or missing without an error, and that a
    part of the wrong shape is an error. */
module Resource {
  import opened Wrappers

  /** One substructure of the object. */
  datatype Field<T> = Absent | Malformed | Present(value: T)

  /** An entry of `status.conditions`. The name and the `status` and
      `reason` strings are plain strings: a condition whose `status` or
      `reason` is not a string makes the Go code panic on a type
      assertion, and such objects are outside the model. */
  datatype Condition = Condition(conditionType: string, status: string, reason: string)

  /** The `status` of a run: its conditions and its optional timestamps
      (RFC 3339 text). */
  datatype RunStatus = RunStatus(
    conditions: Field<seq<Condition>>,
    startTime: Option<string>,
    completionTime: Option<string>)

  /** A watched object. `name` and `namespace` are always strings (the Go
      code asserts them to be and would panic otherwise). */
  datatype Run = Run(
    name: string,
    namespace: string,
    labels: Field<map<string, string>>,
    status: Field<RunStatus>)

  datatype AccessError = LabelsUnreadable | StatusUnreadable | ConditionsUnreadable

  datatype BasicData = BasicData(name: string, namespace: string)

  function GetObjectBasicData(o: Run): BasicData {
    BasicData(o.name, o.namespace)
  }

  /** The object's labels; no labels is an empty map, not an error. */
  function GetObjectLabels(o: Run): (r: Result<map<string, string>, AccessError>)
  {
    match o.labels
    case Absent => Ok(map[])
    case Malformed => Err(LabelsUnreadable)
    case Present(m) => Ok(m)
  }

  /** The object's status, None when it has none yet. */
  function GetObjectStatus(o: Run): (r: Result<Option<RunStatus>, AccessError>)
  {
    match o.status
    case Absent => Ok(None)
    case Malformed => Err(StatusUnreadable)
    case Present(s) => Ok(Some(s))
  }

  /** The first condition of type `t` in a list, if any. */
  function FirstOfType(cs: seq<Condition>, t: string): (r: Option<Condition>)
    ensures r.Some? ==> r.value in cs && r.value.conditionType == t
    ensures r.Some? ==> exists i :: 0 <= i < |cs| && cs[i] == r.value && forall j :: 0 <= j < i ==> cs[j].conditionType != t
    ensures r.None? <==> forall c :: c in cs ==> c.conditionType != t
  {
    if cs == [] then None
    else if cs[0].conditionType == t then Some(cs[0])
    else FirstOfType(cs[1..], t)
  }

  /** The first condition of type `t` of the object; None when the status,
      the condition list or a matching entry is missing. */
  function GetObjectCondition(o: Run, t: string): (r: Result<Option<Condition>, AccessError>)
  {
    match o.status
    case Absent => Ok(None)
    case Malformed => Err(StatusUnreadable)
    case Present(s) =>
      match s.conditions
      case Absent => Ok(None)
      case Malformed => Err(ConditionsUnreadable)
      case Present(cs) => Ok(FirstOfType(cs, t))
  }
}
