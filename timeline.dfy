/** The timeline model init_data builds out of the records: one y axis per
    process plus one for GPU jobs, each holding its points, marker stamps and
    marker labels. This module states, as functions on the model's value, what
    the axis registry (update_y_axis, set_axis_name), the accumulator
    (add_data_point, make_job_color, update_y_markers) and the list order
    (add_items, sort_y_axes) do to it. */
module Timeline {
  import opened CText
  import opened Tokenizer
  import opened Records
  import opened Colors

  /** struct point. A member the source leaves uninitialised for some kind of
      point is None there: the cpu of a monitor sample, the pid and colour of
      scheduler and monitor points. state and visible are display state. */
  datatype Point = Point(x: real, y: real, cpu: Option<nat>, pid: Option<int>, arrived: bool, xx: real, color: Option<nat>)

  /** struct marker_label, without its display flag. */
  datatype MarkerLabel = MarkerLabel(name: string, ts: real)

  /** struct y_axis, without its display state (selected, measure, prev_ex and
      the offsets). The colour is kept packed in 32 bits. */
  datatype Axis = Axis(
    pid: nat,
    maxY: real,
    name: string,
    listName: string,
    points: seq<Point>,
    markers: seq<real>,
    labels: seq<MarkerLabel>,
    added: bool,
    monitor: bool,
    gpu: bool,
    color: nat)

  /** The members of struct plot that parsing writes; id and gpuPlotId are
      uint16_t counters. */
  datatype Model = Model(plotData: seq<PlotData>, axes: seq<Axis>, id: nat, gpuPlotId: nat, minTs: real)

  /** The zero-initialised static plot_. */
  const EMPTY: Model := Model([], [], 0, 0, 0.0)

  /** The inputs on which the source dereferences a null pointer or reads an
      empty vector, and so does not produce a model. */
  datatype Fault =
    | CommentWithoutNewline  // strchr finds no newline after '#'
    | JobWithoutPayload      // parse_gpu_job on a scheduler record, whose marker is null
    | JobWithoutName         // make_job_color builds a std::string from a null job name
    | NoRecords              // back() and front() of an empty plot_data

  datatype Result<T> = Success(value: T) | Failure(fault: Fault)

  // ------------------------------------------------------------ axis names

  const GPU_AXIS_NAME: string := " GPU jobs"

  /** set_axis_name: " <comm> <pid>". */
  function AxisName(comm: string, pid: nat): string {
    " " + comm + " " + Dec(pid)
  }

  /** The text after the last blank of a name. */
  function LastWord(s: string): string {
    if s == [] || s[|s| - 1] == ' ' then [] else LastWord(s[..|s| - 1]) + [s[|s| - 1]]
  }

  lemma {:induction false} LastWordAfterBlank(pre: string, w: string)
    requires NoSpace(w)
    ensures LastWord(pre + " " + w) == w
    decreases |w|
  {
    var s := pre + " " + w;
    if w == [] {
      assert s[|s| - 1] == ' ';
    } else {
      assert s[..|s| - 1] == pre + " " + w[..|w| - 1];
      assert !IsSpace(w[|w| - 1]);
      LastWordAfterBlank(pre, w[..|w| - 1]);
      assert w == w[..|w| - 1] + [w[|w| - 1]];
    }
  }

  /** An axis name ends in the decimal pid, so axes of different processes
      never share a name; and no process axis is named like the GPU axis. */
  lemma AxisNamePid(comm: string, pid: nat)
    requires NoSpace(comm)
    ensures LastWord(AxisName(comm, pid)) == Dec(pid)
    ensures LastWord(GPU_AXIS_NAME) != Dec(pid)
  {
    NoCommaInDec(pid);
    forall k | 0 <= k < |Dec(pid)| ensures !IsSpace(Dec(pid)[k]) {
      assert IsDigit(Dec(pid)[k]);
    }
    LastWordAfterBlank(" " + comm, Dec(pid));
    assert GPU_AXIS_NAME == " GPU" + " " + "jobs";
    LastWordAfterBlank(" GPU", "jobs");
    assert IsDigit(Dec(pid)[0]);
  }

  // -------------------------------------------------------------- registry

  function NewAxis(pid: nat, name: string, gpu: bool, color: nat): Axis {
    Axis(pid, 0.0, name, "", [], [], [], false, false, gpu, color)
  }

  /** The test update_y_axis applies to each axis in turn: a GPU record takes
      the GPU axis, any other record the axis with its pid. */
  predicate Matches(a: Axis, gpu: bool, pid: nat) {
    if gpu then a.gpu else a.pid == pid
  }

  /** The first axis from index i on that passes the test. */
  function FindAxis(axes: seq<Axis>, gpu: bool, pid: nat, i: nat): (r: Option<nat>)
    requires i <= |axes|
    ensures r.Some? ==> i <= r.value < |axes|
    decreases |axes| - i
  {
    if i == |axes| then None
    else if Matches(axes[i], gpu, pid) then Some(i)
    else FindAxis(axes, gpu, pid, i + 1)
  }

  lemma {:induction false} FindAxisSpec(axes: seq<Axis>, gpu: bool, pid: nat, i: nat)
    requires i <= |axes|
    ensures var r := FindAxis(axes, gpu, pid, i);
      && (r.None? <==> forall j | i <= j < |axes| :: !Matches(axes[j], gpu, pid))
      && (r.Some? ==> Matches(axes[r.value], gpu, pid) && forall j | i <= j < r.value :: !Matches(axes[j], gpu, pid))
    decreases |axes| - i
  {
    if i < |axes| && !Matches(axes[i], gpu, pid) {
      FindAxisSpec(axes, gpu, pid, i + 1);
    }
  }

  /** update_y_axis: the record gets the index of its axis, stored into the
      uint8_t data->id. A matching process axis is renamed after the record's
      comm; with no match an axis is appended under the counter plot_.id. */
  function Resolve(m: Model, comm: string, d: PlotData): (Model, PlotData) {
    match FindAxis(m.axes, d.gpu, d.pid, 0)
    case Some(i) => (if d.gpu then m else Rename(m, i, comm), d.(id := U8(i)))
    case None => (Append(m, comm, d), d.(id := U8(m.id)))
  }

  /** set_axis_name on axis i, which uses the axis's own pid. */
  function Rename(m: Model, i: nat, comm: string): Model
    requires i < |m.axes|
  {
    m.(axes := m.axes[i := m.axes[i].(name := AxisName(comm, m.axes[i].pid))])
  }

  /** The axis update_y_axis appends: the grey GPU axis (whose index becomes
      gpu_plot_id), or a process axis named after the record, coloured by the
      counter truncated to the uint8_t data->id. */
  function Append(m: Model, comm: string, d: PlotData): Model {
    var nid := U8(m.id);
    var axis := if d.gpu then NewAxis(0, GPU_AXIS_NAME, true, GPU_COLOR)
                else NewAxis(d.pid, AxisName(comm, d.pid), false, GenerateColor(nid));
    m.(axes := m.axes + [axis], id := U16(m.id + 1), gpuPlotId := if d.gpu then nid else m.gpuPlotId)
  }

  /** What update_y_axis keeps true of the axis list, as long as every index
      fits the uint8_t data->id (at most 256 axes):
      - the counter is the number of axes (modulo 2^16);
      - there is at most one GPU axis, its pid is 0 and gpuPlotId is its index;
      - a pid repeats only as a later GPU axis, which keeps the GPU name;
      - every other name ends in the axis pid;
      - every axis has as many marker labels as markers;
      - max_y is at least 0 and at least every y on its axis. */
  ghost predicate Registry(m: Model) {
    && m.id == |m.axes| % 0x1_0000
    && |m.axes| <= 256
    && (forall i, j | 0 <= i < j < |m.axes| :: !(m.axes[i].gpu && m.axes[j].gpu))
    && (forall i | 0 <= i < |m.axes| && m.axes[i].gpu :: m.axes[i].pid == 0 && m.gpuPlotId == i)
    && (forall i, j | 0 <= i < j < |m.axes| && m.axes[i].pid == m.axes[j].pid ::
          m.axes[j].gpu && m.axes[j].name == GPU_AXIS_NAME)
    && (forall i | 0 <= i < |m.axes| ::
          (m.axes[i].gpu && m.axes[i].name == GPU_AXIS_NAME) || LastWord(m.axes[i].name) == Dec(m.axes[i].pid))
    && (forall i | 0 <= i < |m.axes| :: AxisOk(m.axes[i]))
  }

  /** The per-axis part of the registry invariant. */
  ghost predicate AxisOk(a: Axis) {
    && |a.markers| == |a.labels|
    && 0.0 <= a.maxY
    && (forall k | 0 <= k < |a.points| :: a.points[k].y <= a.maxY)
  }

  predicate DistinctNames(axes: seq<Axis>) {
    forall i, j | 0 <= i < j < |axes| :: axes[i].name != axes[j].name
  }

  /** Axis names are pairwise distinct in any registry. */
  lemma RegistryNames(m: Model)
    requires Registry(m)
    ensures DistinctNames(m.axes)
  {
    forall i, j | 0 <= i < j < |m.axes| ensures m.axes[i].name != m.axes[j].name {
      var a, b := m.axes[i], m.axes[j];
      AxisNamePid("", a.pid);
      AxisNamePid("", b.pid);
      if a.name == b.name && a.pid != b.pid && LastWord(a.name) == Dec(a.pid) && LastWord(b.name) == Dec(b.pid) {
        DecInjective(a.pid, b.pid);
      }
    }
  }

  /** update_y_axis only renames or appends: the axes before it keep their
      order and everything but the name; the record keeps everything but its
      id. A new axis is appended exactly when no axis passes the test. */
  lemma ResolveFrame(m: Model, comm: string, d: PlotData)
    ensures var (m2, d2) := Resolve(m, comm, d);
      && d2 == d.(id := d2.id) && d2.id < TWO_8
      && m2.plotData == m.plotData && m2.minTs == m.minTs
      && (forall i | 0 <= i < |m.axes| :: m2.axes[i] == m.axes[i].(name := m2.axes[i].name))
      && (|m2.axes| == |m.axes| + 1 <==> forall i | 0 <= i < |m.axes| :: !Matches(m.axes[i], d.gpu, d.pid))
      && (|m2.axes| == |m.axes| <==> exists i | 0 <= i < |m.axes| :: Matches(m.axes[i], d.gpu, d.pid))
  {
    FindAxisSpec(m.axes, d.gpu, d.pid, 0);
  }

  /** update_y_axis keeps the registry as long as the axes still fit the
      uint8_t data->id afterwards. */
  lemma ResolveRegistry(m: Model, comm: string, d: PlotData)
    requires Registry(m)
    requires NoSpace(comm)
    ensures |Resolve(m, comm, d).0.axes| <= 256 ==> Registry(Resolve(m, comm, d).0)
  {
    FindAxisSpec(m.axes, d.gpu, d.pid, 0);
    match FindAxis(m.axes, d.gpu, d.pid, 0)
    case Some(i) =>
      if !d.gpu {
        RegistryRename(m, i, comm);
      }
    case None =>
      if |m.axes| < 256 {
        RegistryAppend(m, comm, d);
      }
  }

  /** Within 256 axes, the record's id is the index of its axis: the GPU axis
      for a GPU record, otherwise the axis with its pid, renamed after the
      record's comm; no other axis changes. */
  lemma ResolveIndex(m: Model, comm: string, d: PlotData)
    requires Registry(m)
    ensures var (m2, d2) := Resolve(m, comm, d);
      |m2.axes| <= 256 ==>
      && d2.id < |m2.axes|
      && Matches(m2.axes[d2.id], d.gpu, d.pid)
      && (!d.gpu ==> m2.axes[d2.id].name == AxisName(comm, d.pid))
      && (forall i | 0 <= i < |m.axes| && i != d2.id :: m2.axes[i] == m.axes[i])
  {
    FindAxisSpec(m.axes, d.gpu, d.pid, 0);
    match FindAxis(m.axes, d.gpu, d.pid, 0)
    case Some(i) =>
      assert U8(i) == i;
    case None =>
      if |m.axes| < 256 {
        CounterIndex(m.id, |m.axes|);
      }
  }

  /** The 257th axis: with 256 axes and none passing the test, an axis is
      appended at index 256, but the record's uint8_t id wraps to 0 and names
      the first axis, which is not the record's. */
  lemma ResolvePast256(m: Model, comm: string, d: PlotData)
    requires Registry(m) && |m.axes| == 256
    requires forall i | 0 <= i < |m.axes| :: !Matches(m.axes[i], d.gpu, d.pid)
    ensures var (m2, d2) := Resolve(m, comm, d);
      && |m2.axes| == 257 && Matches(m2.axes[256], d.gpu, d.pid)
      && d2.id == 0 && !Matches(m2.axes[d2.id], d.gpu, d.pid)
  {
    FindAxisSpec(m.axes, d.gpu, d.pid, 0);
    assert m.id == 256;
  }

  /** Renaming the first axis of a pid keeps the registry: the new name
      still ends in that pid. */
  lemma RegistryRename(m: Model, i: nat, comm: string)
    requires Registry(m) && i < |m.axes| && NoSpace(comm)
    requires forall j | 0 <= j < i :: m.axes[j].pid != m.axes[i].pid
    ensures Registry(Rename(m, i, comm))
  {
    AxisNamePid(comm, m.axes[i].pid);
    RenameKeeps(m, i, AxisName(comm, m.axes[i].pid));
  }

  lemma RenameKeeps(m: Model, i: nat, name: string)
    requires Registry(m) && i < |m.axes|
    requires forall j | 0 <= j < i :: m.axes[j].pid != m.axes[i].pid
    requires LastWord(name) == Dec(m.axes[i].pid)
    ensures Registry(m.(axes := m.axes[i := m.axes[i].(name := name)]))
  {
    var axes := m.axes[i := m.axes[i].(name := name)];
    forall j, k | 0 <= j < k < |axes| && axes[j].pid == axes[k].pid
      ensures axes[k].gpu && axes[k].name == GPU_AXIS_NAME
    {
      assert k != i;
    }
    forall j | 0 <= j < |axes| ensures AxisOk(axes[j]) {
      assert AxisOk(m.axes[j]);
    }
  }

  /** Below 256 axes the counter, truncated to uint8_t, is the number of
      axes, and incrementing it counts the appended axis. */
  lemma CounterIndex(id: nat, n: nat)
    requires id == n % 0x1_0000 && n < 256
    ensures U8(id) == n && U16(id + 1) == n + 1
  {
  }

  /** Appending under a counter below 256 keeps the registry when the axis is
      the first GPU axis, or a process axis of a new pid. */
  lemma RegistryAppend(m: Model, comm: string, d: PlotData)
    requires Registry(m) && |m.axes| < 256 && NoSpace(comm)
    requires forall j | 0 <= j < |m.axes| :: !Matches(m.axes[j], d.gpu, d.pid)
    ensures Registry(Append(m, comm, d))
  {
    var m2 := Append(m, comm, d);
    CounterIndex(m.id, |m.axes|);
    if !d.gpu {
      AxisNamePid(comm, d.pid);
    }
    AppendKeeps(m, m2.axes[|m.axes|], m2);
  }

  lemma AppendKeeps(m: Model, a: Axis, m2: Model)
    requires Registry(m) && |m.axes| < 256
    requires m2 == m.(axes := m.axes + [a], id := U16(m.id + 1), gpuPlotId := m2.gpuPlotId)
    requires a.maxY == 0.0 && a.points == [] && a.markers == [] && a.labels == []
    requires a.gpu ==> a.pid == 0 && a.name == GPU_AXIS_NAME && m2.gpuPlotId == |m.axes|
    requires a.gpu ==> forall j | 0 <= j < |m.axes| :: !m.axes[j].gpu
    requires !a.gpu ==> m2.gpuPlotId == m.gpuPlotId && LastWord(a.name) == Dec(a.pid)
    requires !a.gpu ==> forall j | 0 <= j < |m.axes| :: m.axes[j].pid != a.pid
    ensures Registry(m2)
  {
    var axes := m2.axes;
    assert axes[|m.axes|] == a;
    forall j | 0 <= j < |axes| ensures AxisOk(axes[j]) {
      if j < |m.axes| {
        assert AxisOk(m.axes[j]);
      }
    }
    forall j | 0 <= j < |axes| && axes[j].gpu ensures axes[j].pid == 0 && m2.gpuPlotId == j {
      if j < |m.axes| {
        assert m.axes[j].gpu;
      }
    }
  }

  // ------------------------------------------------------------- job colour

  /** make_job_color: the colour of the first axis whose pid is the job's
      (the GPU axis itself has pid 0), else the 32-bit truncation of the
      string hash of the job name followed by the decimal job id. */
  function JobColor(axes: seq<Axis>, job: GpuJob, hash: string -> nat): Result<nat> {
    match FindAxis(axes, false, job.pid, 0)
    case Some(i) => Success(axes[i].color)
    case None =>
      if job.name.None? then Failure(JobWithoutName)
      else Success(U32(hash(job.name.value + IntToString(job.id))))
  }

  /** The job colour is the colour of the first axis of the job's process;
      only a job of no known process falls back to the hash of its name, and
      only a nameless one of those faults. */
  lemma JobColorSpec(axes: seq<Axis>, job: GpuJob, hash: string -> nat)
    ensures var r := JobColor(axes, job, hash);
      && (r.Failure? <==> job.name.None? && forall i | 0 <= i < |axes| :: axes[i].pid != job.pid)
      && (forall i | 0 <= i < |axes| && axes[i].pid == job.pid && (forall j | 0 <= j < i :: axes[j].pid != job.pid) ::
            r == Success(axes[i].color))
      && ((forall i | 0 <= i < |axes| :: axes[i].pid != job.pid) && job.name.Some? ==>
            r == Success(U32(hash(job.name.value + IntToString(job.id)))))
  {
    FindAxisSpec(axes, false, job.pid, 0);
  }

  // ------------------------------------------------------------ data points

  /** The point of a GPU job. The job id goes into the uint16_t cpu member and
      the uint32_t job pid into the int32_t pid member. */
  function GpuPoint(job: GpuJob, color: nat): Point {
    Point(job.startTs, 0.0, Some(U16(job.id)), Some(I32(job.pid)), true, job.stopTs, Some(color))
  }

  /** add_data_point, for a record whose id names its axis. It first raises
      the axis monitor and gpu flags the record carries; then a GPU axis gets
      the record's decoded job, a plain process axis a scheduler point, and a
      monitor axis the sample of a marker record (and nothing for a scheduler
      record). A record that reaches it with a payload is a monitor sample or
      a GPU job, since init_data keeps the plain labels away from it. */
  function AddPoint(m: Model, d: PlotData, hash: string -> nat): Result<Model>
    requires d.id < |m.axes|
    requires d.marker.Some? && !d.gpu ==> IsMonitor(d.marker.value)
  {
    var prev := m.axes[d.id];
    var a := prev.(monitor := prev.monitor || d.monitor, gpu := prev.gpu || d.gpu);
    var axes := m.axes[d.id := a];
    var cpu := if d.sched.Some? then Some(d.sched.value.cpu) else None;
    if a.gpu then
      if d.marker.None? then Failure(JobWithoutPayload)
      else
        var job := DecodeGpuJob(d.marker.value, m.minTs);
        match JobColor(axes, job, hash)
        case Failure(f) => Failure(f)
        case Success(c) => Success(m.(axes := axes[d.id := a.(points := a.points + [GpuPoint(job, c)])]))
    else if !a.monitor then
      var arrived := d.sched.Some? && d.sched.value.arrived;
      Success(m.(axes := axes[d.id := a.(points := a.points + [Point(d.ts, 0.0, cpu, None, arrived, -1.0, None)])]))
    else if d.marker.Some? then
      var y := MonitorValue(d.marker.value) as real;
      Success(m.(axes := axes[d.id := a.(points := a.points + [Point(d.ts, y, cpu, None, true, -1.0, None)],
                                          maxY := if a.maxY < y then y else a.maxY)]))
    else
      Success(m.(axes := axes))
  }

  /** add_data_point touches only the record's axis. On it, the monitor and
      gpu flags are only ever raised, the name, pid, colour and marker lists
      stay, and exactly one point is appended, except on a monitor axis for a
      record with no payload, where nothing changes. It fails only on a GPU
      axis: for a record with no payload, or, never for a well-formed record,
      for a job with no name. */
  lemma AddPointFrame(m: Model, d: PlotData, hash: string -> nat)
    requires d.id < |m.axes|
    requires d.marker.Some? && !d.gpu ==> IsMonitor(d.marker.value)
    ensures var a := m.axes[d.id];
      var gpu := a.gpu || d.gpu;
      match AddPoint(m, d, hash)
      case Failure(f) =>
        && gpu
        && (f == JobWithoutPayload <==> d.marker.None?)
        && (WellFormed(d) ==> f == JobWithoutPayload)
      case Success(m2) =>
        && m2 == m.(axes := m2.axes) && |m2.axes| == |m.axes|
        && (forall i | 0 <= i < |m.axes| && i != d.id :: m2.axes[i] == m.axes[i])
        && var a2 := m2.axes[d.id];
        && a2 == a.(monitor := a.monitor || d.monitor, gpu := gpu, points := a2.points, maxY := a2.maxY)
        && (a2.points == a.points <==> !gpu && a2.monitor && d.marker.None?)
        && (a2.points == a.points && WellFormed(d) ==> m2 == m)
        && (a2.points != a.points ==> a2.points == a.points + [a2.points[|a.points|]])
  {
    var a := m.axes[d.id];
    if (a.gpu || d.gpu) && d.marker.Some? && WellFormed(d) {
      JobNamedByTag(d.marker.value, m.minTs);
    }
  }

  /** The point add_data_point appends: a GPU job's span, id and pid with
      arrived set; a scheduler event's time, cpu and arrived flag; a monitor
      sample's value as y, which raises max_y to max(max_y, y). */
  lemma AddPointContents(m: Model, d: PlotData, hash: string -> nat)
    requires d.id < |m.axes|
    requires d.marker.Some? && !d.gpu ==> IsMonitor(d.marker.value)
    requires AddPoint(m, d, hash).Success?
    ensures var a := m.axes[d.id];
      var a2 := AddPoint(m, d, hash).value.axes[d.id];
      |a2.points| > |a.points| ==>
      var p := a2.points[|a.points|];
      && (a2.gpu ==> (
            && d.marker.Some?
            && var job := DecodeGpuJob(d.marker.value, m.minTs);
            && p.x == job.startTs && p.xx == job.stopTs && p.y == 0.0
            && p.cpu == Some(U16(job.id)) && p.pid == Some(I32(job.pid)) && p.arrived
            && Success(p.color.value) == JobColor(m.axes[d.id := a2.(points := a.points)], job, hash)))
      && (!a2.gpu && !a2.monitor ==> (
            && p.x == d.ts && p.y == 0.0 && p.arrived == (d.sched.Some? && d.sched.value.arrived)
            && p.cpu == (if d.sched.Some? then Some(d.sched.value.cpu) else None)))
      && (!a2.gpu && a2.monitor ==> (
            && d.marker.Some?
            && p.x == d.ts && p.y == MonitorValue(d.marker.value) as real && p.arrived
            && a2.maxY == (if a.maxY < p.y then p.y else a.maxY)))
  {
  }

  /** add_data_point keeps the registry for a record update_y_axis resolved:
      a GPU record's axis already is the GPU axis, so no second one appears,
      and max_y stays at least every y on the axis. */
  lemma AddPointRegistry(m: Model, d: PlotData, hash: string -> nat)
    requires Registry(m) && d.id < |m.axes| && Matches(m.axes[d.id], d.gpu, d.pid)
    requires d.marker.Some? && !d.gpu ==> IsMonitor(d.marker.value)
    requires AddPoint(m, d, hash).Success?
    ensures Registry(AddPoint(m, d, hash).value)
  {
    var m2 := AddPoint(m, d, hash).value;
    var a := m.axes[d.id];
    AddPointFrame(m, d, hash);
    AddPointContents(m, d, hash);
    var a2 := m2.axes[d.id];
    assert AxisOk(a);
    forall k | 0 <= k < |a2.points| ensures a2.points[k].y <= a2.maxY {
      if k < |a.points| {
        assert a2.points[k] == a.points[k];
      }
    }
    assert AxisOk(a2);
    forall i | 0 <= i < |m2.axes| ensures AxisOk(m2.axes[i]) {
      if i != d.id {
        assert AxisOk(m.axes[i]);
      }
    }
  }

  // ---------------------------------------------------------- marker labels

  /** The first axis from index i on with the given pid and at least one
      point (an axis without points is a leftover of an incomplete log). */
  function MarkerAxis(axes: seq<Axis>, pid: nat, i: nat): (r: Option<nat>)
    requires i <= |axes|
    ensures r.Some? ==> i <= r.value < |axes|
    decreases |axes| - i
  {
    if i == |axes| then None
    else if axes[i].pid == pid && |axes[i].points| > 0 then Some(i)
    else MarkerAxis(axes, pid, i + 1)
  }

  lemma {:induction false} MarkerAxisSpec(axes: seq<Axis>, pid: nat, i: nat)
    requires i <= |axes|
    ensures var r := MarkerAxis(axes, pid, i);
      && (r.None? <==> forall j | i <= j < |axes| :: !(axes[j].pid == pid && |axes[j].points| > 0))
      && (r.Some? ==> axes[r.value].pid == pid && |axes[r.value].points| > 0
                      && forall j | i <= j < r.value :: !(axes[j].pid == pid && |axes[j].points| > 0))
    decreases |axes| - i
  {
    if i < |axes| && !(axes[i].pid == pid && |axes[i].points| > 0) {
      MarkerAxisSpec(axes, pid, i + 1);
    }
  }

  /** update_y_markers: the label's time stamp and the label itself go to the
      marker lists of the first axis of the pid that has points. */
  function AddMarker(axes: seq<Axis>, text: string, ts: real, pid: nat): seq<Axis> {
    match MarkerAxis(axes, pid, 0)
    case None => axes
    case Some(i) =>
      axes[i := axes[i].(markers := axes[i].markers + [ts], labels := axes[i].labels + [MarkerLabel(text, ts)])]
  }

  /** A marker label changes at most one axis: the first of its pid with
      points, which gets the stamp and the label together. With no such axis
      nothing changes. */
  lemma AddMarkerSpec(axes: seq<Axis>, text: string, ts: real, pid: nat)
    ensures var r := AddMarker(axes, text, ts, pid);
      && |r| == |axes|
      && (r == axes <==> forall i | 0 <= i < |axes| :: !(axes[i].pid == pid && |axes[i].points| > 0))
      && (forall i | 0 <= i < |axes| && r[i] != axes[i] ::
            && axes[i].pid == pid && |axes[i].points| > 0
            && (forall j | 0 <= j < i :: !(axes[j].pid == pid && |axes[j].points| > 0))
            && r[i] == axes[i].(markers := axes[i].markers + [ts], labels := axes[i].labels + [MarkerLabel(text, ts)])
            && (forall j | 0 <= j < |axes| && j != i :: r[j] == axes[j]))
      && (forall i | 0 <= i < |axes| :: |r[i].markers| - |r[i].labels| == |axes[i].markers| - |axes[i].labels|)
  {
    MarkerAxisSpec(axes, pid, 0);
    match MarkerAxis(axes, pid, 0)
    case None =>
    case Some(i) =>
      var r := AddMarker(axes, text, ts, pid);
      assert r[i] != axes[i] by {
        assert |r[i].markers| == |axes[i].markers| + 1;
      }
  }

  /** The registry only looks at each axis's pid, name and gpu flag, apart
      from the per-axis part. */
  lemma RegistrySameKeys(m: Model, axes: seq<Axis>)
    requires Registry(m) && |axes| == |m.axes|
    requires forall i | 0 <= i < |axes| ::
      axes[i].pid == m.axes[i].pid && axes[i].name == m.axes[i].name && axes[i].gpu == m.axes[i].gpu && AxisOk(axes[i])
    ensures Registry(m.(axes := axes))
  {
  }

  lemma AddMarkerRegistry(m: Model, text: string, ts: real, pid: nat)
    requires Registry(m)
    ensures Registry(m.(axes := AddMarker(m.axes, text, ts, pid)))
  {
    var r := AddMarker(m.axes, text, ts, pid);
    AddMarkerSpec(m.axes, text, ts, pid);
    forall i | 0 <= i < |r|
      ensures r[i].pid == m.axes[i].pid && r[i].name == m.axes[i].name && r[i].gpu == m.axes[i].gpu && AxisOk(r[i])
    {
      assert AxisOk(m.axes[i]);
    }
    RegistrySameKeys(m, r);
  }

  // ------------------------------------------------------------- axis list

  /** The list prefix: '*' for an axis with markers, '=' for a monitor, '#'
      for the GPU axis, a blank otherwise, in that order of priority. */
  function Prefix(a: Axis): char {
    if |a.markers| > 0 then '*' else if a.monitor then '=' else if a.gpu then '#' else ' '
  }

  /** snprintf(list_name, 32, "%c%s", prefix, name): at most 31 bytes before
      the terminating NUL. */
  function ListName(a: Axis): string {
    var s := [Prefix(a)] + CStr(a.name);
    if |s| <= 31 then s else s[..31]
  }

  /** The list name starts with the prefix, goes on with the start of the
      name (all of it when it fits) and is never longer than 31 bytes. */
  lemma ListNameSpec(a: Axis)
    ensures var l := ListName(a);
      && 1 <= |l| <= 31 && l[0] == Prefix(a)
      && l[1..] == CStr(a.name)[..|l| - 1]
      && (|CStr(a.name)| <= 30 ==> l[1..] == CStr(a.name))
      && (a.name == CStr(a.name) ==> l[1..] == a.name[..|l| - 1])
  {
    var s := [Prefix(a)] + CStr(a.name);
    assert s[1..] == CStr(a.name);
  }

  /** An axis as add_items moves it into the new list. */
  function Listed(a: Axis): Axis {
    a.(listName := ListName(a), added := true)
  }

  /** add_items over the slots of plot_.y_axes from index j on: every axis
      named `name` is listed, flagged added and moved out (its slot becomes
      None). The name compared is the one the call started with: the source
      compares against the name of an axis it moves out during the loop,
      which this model reads as a copy; since axis names are distinct
      (RegistryNames) only that axis matches either way. */
  function AddItems(slots: seq<Option<Axis>>, name: string, j: nat, out: seq<Axis>): (r: (seq<Option<Axis>>, seq<Axis>))
    requires j <= |slots|
    ensures |r.0| == |slots|
    decreases |slots| - j
  {
    if j == |slots| then (slots, out)
    else if slots[j].Some? && slots[j].value.name == name then
      AddItems(slots[j := None], name, j + 1, out + [Listed(slots[j].value)])
    else AddItems(slots, name, j + 1, out)
  }

  /** sort_y_axes from index i on: each axis not yet added gathers the axes
      of its name. */
  function SortFrom(slots: seq<Option<Axis>>, i: nat, out: seq<Axis>): seq<Axis>
    requires i <= |slots|
    decreases |slots| - i
  {
    if i == |slots| then out
    else if slots[i].Some? && !slots[i].value.added then
      var r := AddItems(slots, slots[i].value.name, 0, out);
      SortFrom(r.0, i + 1, r.1)
    else SortFrom(slots, i + 1, out)
  }

  function Slots(axes: seq<Axis>): (r: seq<Option<Axis>>)
    ensures |r| == |axes| && forall i | 0 <= i < |axes| :: r[i] == Some(axes[i])
  {
    seq(|axes|, i requires 0 <= i < |axes| => Some(axes[i]))
  }

  /** sort_y_axes: the new axis list. */
  function SortAxes(axes: seq<Axis>): seq<Axis> {
    SortFrom(Slots(axes), 0, [])
  }

  /** The reference order: the axes not yet added, in their order, listed. */
  function Unadded(axes: seq<Axis>): seq<Axis> {
    if axes == [] then []
    else (if axes[0].added then [] else [Listed(axes[0])]) + Unadded(axes[1..])
  }

  /** With no slot of the name left from j on, add_items changes nothing. */
  lemma {:induction false} AddItemsNone(slots: seq<Option<Axis>>, name: string, j: nat, out: seq<Axis>)
    requires j <= |slots|
    requires forall k | j <= k < |slots| :: slots[k].None? || slots[k].value.name != name
    ensures AddItems(slots, name, j, out) == (slots, out)
    decreases |slots| - j
  {
    if j < |slots| {
      AddItemsNone(slots, name, j + 1, out);
    }
  }

  /** With exactly one slot of the name from j on, add_items moves that one. */
  lemma {:induction false} AddItemsOne(slots: seq<Option<Axis>>, name: string, j: nat, out: seq<Axis>, i: nat)
    requires j <= i < |slots| && slots[i].Some? && slots[i].value.name == name
    requires forall k | j <= k < |slots| && k != i :: slots[k].None? || slots[k].value.name != name
    ensures AddItems(slots, name, j, out) == (slots[i := None], out + [Listed(slots[i].value)])
    decreases |slots| - j
  {
    if j < i {
      AddItemsOne(slots, name, j + 1, out, i);
    } else {
      AddItemsNone(slots[i := None], name, i + 1, out + [Listed(slots[i].value)]);
    }
  }

  /** The sort from index i on, while the slots from i on still hold the
      axes and every slot still holding an axis holds its own. */
  lemma {:induction false} SortFromUnadded(axes: seq<Axis>, slots: seq<Option<Axis>>, i: nat, out: seq<Axis>)
    requires DistinctNames(axes) && |slots| == |axes| && i <= |axes|
    requires forall k | 0 <= k < |axes| :: slots[k].None? || slots[k] == Some(axes[k])
    requires forall k | i <= k < |axes| :: slots[k] == Some(axes[k])
    ensures SortFrom(slots, i, out) == out + Unadded(axes[i..])
    decreases |axes| - i
  {
    if i == |axes| {
      assert axes[i..] == [];
    } else {
      assert axes[i..][1..] == axes[i + 1..];
      if axes[i].added {
        SortFromUnadded(axes, slots, i + 1, out);
      } else {
        AddItemsOne(slots, axes[i].name, 0, out, i);
        SortFromUnadded(axes, slots[i := None], i + 1, out + [Listed(axes[i])]);
      }
    }
  }

  /** With distinct names (as in any registry), sort_y_axes keeps the order
      and drops exactly the axes already added; each kept axis is flagged
      added and carries its list name. */
  lemma SortAxesSpec(axes: seq<Axis>)
    requires DistinctNames(axes)
    ensures SortAxes(axes) == Unadded(axes)
  {
    SortFromUnadded(axes, Slots(axes), 0, []);
    assert axes[0..] == axes;
  }

  /** Every axis add_items lists is flagged added. */
  lemma {:induction false} AddItemsAdded(slots: seq<Option<Axis>>, name: string, j: nat, out: seq<Axis>)
    requires j <= |slots| && forall a | a in out :: a.added
    ensures forall a | a in AddItems(slots, name, j, out).1 :: a.added
    decreases |slots| - j
  {
    if j < |slots| {
      if slots[j].Some? && slots[j].value.name == name {
        AddItemsAdded(slots[j := None], name, j + 1, out + [Listed(slots[j].value)]);
      } else {
        AddItemsAdded(slots, name, j + 1, out);
      }
    }
  }

  lemma {:induction false} SortFromAdded(slots: seq<Option<Axis>>, i: nat, out: seq<Axis>)
    requires i <= |slots| && forall a | a in out :: a.added
    ensures forall a | a in SortFrom(slots, i, out) :: a.added
    decreases |slots| - i
  {
    if i < |slots| {
      if slots[i].Some? && !slots[i].value.added {
        var r := AddItems(slots, slots[i].value.name, 0, out);
        AddItemsAdded(slots, slots[i].value.name, 0, out);
        SortFromAdded(r.0, i + 1, r.1);
      } else {
        SortFromAdded(slots, i + 1, out);
      }
    }
  }

  /** A sort over axes that are all added lists nothing. */
  lemma {:induction false} SortFromAllAdded(slots: seq<Option<Axis>>, i: nat, out: seq<Axis>)
    requires i <= |slots| && forall k | 0 <= k < |slots| :: slots[k].Some? && slots[k].value.added
    ensures SortFrom(slots, i, out) == out
    decreases |slots| - i
  {
    if i < |slots| {
      SortFromAllAdded(slots, i + 1, out);
    }
  }

  /** sort_y_axes is not idempotent: every axis it keeps is flagged added, so
      a second call empties the list. */
  lemma SortTwice(axes: seq<Axis>)
    ensures forall a | a in SortAxes(axes) :: a.added
    ensures SortAxes(SortAxes(axes)) == []
  {
    SortFromAdded(Slots(axes), 0, []);
    var once := SortAxes(axes);
    SortFromAllAdded(Slots(once), 0, []);
  }
}
