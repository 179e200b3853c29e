/** init_data as a function of the buffer: the loop over the lines (comment
    lines, the header of every other line, its record), the model each line
    leaves behind, and the final max_x and sort. */
module Driver {
  import opened CText
  import opened Tokenizer
  import opened Records
  import opened Colors
  import opened Timeline

  /** What init_data ends with: true with the model and max_x, false at a
      malformed task-pid field (with the model built so far), or a crash. */
  datatype Outcome = Parsed(m: Model, maxX: real) | Malformed(at: int, m: Model) | Crashed(fault: Fault)

  /** One turn of the loop: the cursor and model it continues with, or the end. */
  datatype Turn = Next(q: int, m: Model) | Stop(outcome: Outcome)

  /** The counter invariant every model reached by init_data satisfies, at
      any number of axes. */
  predicate Counted(m: Model) {
    m.id == |m.axes| % 0x1_0000
  }

  /** The record of a line with header h, stamped relative to min_ts; the
      second component is the cursor after the record's last field. */
  function Record(buf: string, h: Header, minTs: real): (PlotData, int) {
    var r := if h.isMarker then DecodeMarker(buf, h.next, h.task, h.pid) else DecodeInfo(buf, h.next);
    (r.0.(ts := h.traceTs - minTs), r.1)
  }

  /** A record is a marker exactly on a marker line, its flags classify the
      payload, and its fields end after the header. */
  lemma RecordSpec(buf: string, h: Header, minTs: real)
    ensures var (d, next) := Record(buf, h, minTs);
      && (d.marker.Some? <==> h.isMarker)
      && (d.marker.Some? ==> d.monitor == IsMonitor(d.marker.value) && d.gpu == IsGpu(d.marker.value))
      && (d.marker.None? ==> !d.monitor && !d.gpu)
      && next > h.next
      && d.ts == h.traceTs - minTs
      && (NoSpace(h.task) && h.pid < TWO_32 ==> WellFormed(d) && (h.isMarker ==> d.pid == h.pid))
  {
    if h.isMarker {
      BlankRunEndSpec(buf, h.next);
      LineEndSpec(buf, MarkerField(buf, h.next).start);
      if NoSpace(h.task) && h.pid < TWO_32 {
        DecodeMarkerSpec(buf, h.next, h.task, h.pid);
      }
    } else {
      DecodeInfoSpec(buf, h.next);
    }
  }

  /** update_y_axis keeps the counter, and the record's id names an axis. */
  lemma ResolveCounted(m: Model, comm: string, d: PlotData)
    requires Counted(m)
    ensures var (m2, d2) := Resolve(m, comm, d);
      Counted(m2) && d2.id < |m2.axes| && d2 == d.(id := d2.id)
      && m2.plotData == m.plotData && m2.minTs == m.minTs
  {
    ResolveFrame(m, comm, d);
    match FindAxis(m.axes, d.gpu, d.pid, 0)
    case Some(i) =>
    case None =>
      CounterStep(m.id, |m.axes|);
  }

  /** The counter after an append counts the appended axis, and its uint8_t
      truncation is at most the number of axes before it. */
  lemma CounterStep(id: nat, n: nat)
    requires id == n % 0x1_0000
    ensures U16(id + 1) == (n + 1) % 0x1_0000 && U8(id) <= n
  {
    var q := n / 0x1_0000;
    assert n == q * 0x1_0000 + id;
    assert n + 1 == q * 0x1_0000 + (id + 1);
  }

  /** The rest of the loop body once the header is decoded: min_ts is set by
      the first record (while it is still zero), the record is decoded and
      resolved to its axis, then placed. */
  function Line(buf: string, h: Header, m: Model, hash: string -> nat): Turn
    requires Counted(m)
  {
    var minTs := if m.minTs == 0.0 then h.traceTs else m.minTs;
    var (d0, next) := Record(buf, h, minTs);
    var m1 := m.(minTs := minTs);
    ResolveCounted(m1, d0.comm, d0);
    RecordSpec(buf, h, minTs);
    var (m2, d) := Resolve(m1, d0.comm, d0);
    Place(m2, d, h.pid, next, hash)
  }

  /** A resolved record of the line's pid: a plain label becomes a marker
      label, any other record a point and an entry of plot_data. The loop
      goes on one byte past the record's end. */
  function Place(m: Model, d: PlotData, pid: nat, next: int, hash: string -> nat): Turn
    requires d.id < |m.axes|
    requires d.marker.Some? ==> d.monitor == IsMonitor(d.marker.value)
  {
    if IsPlainLabel(d) then
      Next(next + 1, m.(axes := AddMarker(m.axes, d.marker.value, d.ts, pid)))
    else
      match AddPoint(m, d, hash)
      case Failure(f) => Stop(Crashed(f))
      case Success(m3) => Next(next + 1, m3.(plotData := m3.plotData + [d]))
  }

  /** Placing a record keeps the number of axes and the counter, and appends
      at most the record itself to plot_data: exactly it when it is not a
      plain label. */
  lemma PlaceFrame(m: Model, d: PlotData, pid: nat, next: int, hash: string -> nat)
    requires d.id < |m.axes|
    requires d.marker.Some? ==> d.monitor == IsMonitor(d.marker.value)
    ensures var t := Place(m, d, pid, next, hash);
      && (t.Stop? ==> t.outcome.Crashed?)
      && (t.Next? ==>
        && t.q == next + 1 && |t.m.axes| == |m.axes| && t.m.id == m.id && t.m.minTs == m.minTs
        && t.m.plotData == (if IsPlainLabel(d) then m.plotData else m.plotData + [d]))
  {
    if IsPlainLabel(d) {
      AddMarkerSpec(m.axes, d.marker.value, d.ts, pid);
    } else {
      AddPointFrame(m, d, hash);
    }
  }

  /** One turn of init_data's loop at cursor p: a comment line is skipped up
      to its newline; any other line is a header and a record. The cursor
      goes one byte past the record's terminating byte. */
  function Step(buf: string, p: nat, m: Model, hash: string -> nat): Turn
    requires Counted(m)
  {
    if At(buf, p) == '#' then
      match NewlineFrom(buf, p)
      case None => Stop(Crashed(CommentWithoutNewline))
      case Some(nl) => Next(nl + 1, m)
    else
      match DecodeHeader(buf, p)
      case None => Stop(Malformed(p, m))
      case Some(h) => Line(buf, h, m, hash)
  }

  /** Every turn moves the cursor forward and keeps the counter; the axes
      and plot_data only grow, and min_ts changes only while it is zero. */
  lemma StepAdvances(buf: string, p: nat, m: Model, hash: string -> nat)
    requires Counted(m)
    ensures var t := Step(buf, p, m, hash);
      t.Next? ==>
        && t.q > p && Counted(t.m)
        && |m.axes| <= |t.m.axes| <= |m.axes| + 1
        && m.plotData <= t.m.plotData && |t.m.plotData| <= |m.plotData| + 1
        && (m.minTs != 0.0 ==> t.m.minTs == m.minTs)
  {
    if At(buf, p) != '#' {
      match DecodeHeader(buf, p)
      case None =>
      case Some(h) =>
        DecodeHeaderAdvances(buf, p);
        var minTs := if m.minTs == 0.0 then h.traceTs else m.minTs;
        var (d0, next) := Record(buf, h, minTs);
        RecordSpec(buf, h, minTs);
        ResolvePlaceFrame(m.(minTs := minTs), d0, h.pid, next, hash);
    }
  }

  /** While min_ts is still zero, a line whose header decodes and whose turn
      goes on sets min_ts to that header's trace timestamp. */
  lemma StepSetsMinTs(buf: string, p: nat, m: Model, hash: string -> nat)
    requires Counted(m)
    ensures var t := Step(buf, p, m, hash);
      m.minTs == 0.0 && At(buf, p) != '#' && DecodeHeader(buf, p).Some? && t.Next? ==>
        t.m.minTs == DecodeHeader(buf, p).value.traceTs
  {
    if m.minTs == 0.0 && At(buf, p) != '#' && DecodeHeader(buf, p).Some? {
      var h := DecodeHeader(buf, p).value;
      var (d0, next) := Record(buf, h, h.traceTs);
      RecordSpec(buf, h, h.traceTs);
      ResolvePlaceFrame(m.(minTs := h.traceTs), d0, h.pid, next, hash);
    }
  }

  /** The frame of resolving and placing one record. */
  lemma ResolvePlaceFrame(m: Model, d0: PlotData, pid: nat, next: int, hash: string -> nat)
    requires Counted(m)
    requires d0.marker.Some? ==> d0.monitor == IsMonitor(d0.marker.value)
    ensures var (m2, d) := Resolve(m, d0.comm, d0);
      && d.id < |m2.axes| && d == d0.(id := d.id)
      && var t := Place(m2, d, pid, next, hash);
      && (t.Stop? ==> t.outcome.Crashed?)
      && (t.Next? ==>
        && t.q == next + 1 && Counted(t.m)
        && |m.axes| <= |t.m.axes| <= |m.axes| + 1
        && m.plotData <= t.m.plotData && |t.m.plotData| <= |m.plotData| + 1
        && t.m.minTs == m.minTs)
  {
    ResolveCounted(m, d0.comm, d0);
    ResolveFrame(m, d0.comm, d0);
    var (m2, d) := Resolve(m, d0.comm, d0);
    PlaceFrame(m2, d, pid, next, hash);
  }

  /** The loop stops with false only at a malformed header, leaving the
      model as it was. */
  lemma StepMalformed(buf: string, p: nat, m: Model, hash: string -> nat)
    requires Counted(m)
    ensures var t := Step(buf, p, m, hash);
      t.Stop? && t.outcome.Malformed? ==> t.outcome == Malformed(p, m) && DecodeHeader(buf, p).None?
  {
    if At(buf, p) != '#' {
      match DecodeHeader(buf, p)
      case None =>
      case Some(h) =>
        var minTs := if m.minTs == 0.0 then h.traceTs else m.minTs;
        var r := Record(buf, h, minTs);
        RecordSpec(buf, h, minTs);
        ResolvePlaceFrame(m.(minTs := minTs), r.0, h.pid, r.1, hash);
    }
  }

  /** How init_data's loop ends: at the end of the buffer with the model it
      built, or early with an outcome. */
  datatype Ending = Ended(m: Model) | Stopped(outcome: Outcome)

  /** init_data's loop from cursor p to the end of the buffer. */
  function Loop(buf: string, p: nat, m: Model, hash: string -> nat): Ending
    requires Counted(m)
    decreases |buf| - p
  {
    if p >= |buf| then Ended(m)
    else
      StepAdvances(buf, p, m, hash);
      match Step(buf, p, m, hash)
      case Stop(o) => Stopped(o)
      case Next(q, m2) => Loop(buf, q, m2, hash)
  }

  /** init_data from cursor p: the loop, then max_x and the sort. */
  function Run(buf: string, p: nat, m: Model, hash: string -> nat): Outcome
    requires Counted(m)
  {
    match Loop(buf, p, m, hash)
    case Ended(m2) => Finish(m2)
    case Stopped(o) => o
  }

  /** After the loop: max_x is the span from the first to the last record of
      plot_data (an empty plot_data is read out of bounds), then the axes are
      sorted. */
  function Finish(m: Model): Outcome {
    if m.plotData == [] then Crashed(NoRecords)
    else Parsed(m.(axes := SortAxes(m.axes)), m.plotData[|m.plotData| - 1].ts - m.plotData[0].ts)
  }

  /** init_data on the zero-initialised plot_. */
  function InitData(buf: string, hash: string -> nat): Outcome {
    Run(buf, 0, EMPTY, hash)
  }

  /** make_job_color's null-name fault never ends init_data: a record that
      reaches add_data_point on the GPU axis has a payload starting with its
      tag, or none at all, so parse_gpu_job names every job it decodes. */
  lemma InitDataNamesJobs(buf: string, hash: string -> nat)
    ensures InitData(buf, hash) != Crashed(JobWithoutName)
  {
    LoopNamesJobs(buf, 0, EMPTY, hash);
  }

  /** The loop, from any cursor and counted model, never stops there. */
  lemma {:induction false} LoopNamesJobs(buf: string, p: nat, m: Model, hash: string -> nat)
    requires Counted(m)
    ensures Loop(buf, p, m, hash) != Stopped(Crashed(JobWithoutName))
    decreases |buf| - p
  {
    if p < |buf| {
      StepAdvances(buf, p, m, hash);
      StepNamesJobs(buf, p, m, hash);
      match Step(buf, p, m, hash)
      case Stop(o) =>
      case Next(q, m2) => LoopNamesJobs(buf, q, m2, hash);
    }
  }

  /** Nor does one turn of it. */
  lemma StepNamesJobs(buf: string, p: nat, m: Model, hash: string -> nat)
    requires Counted(m)
    ensures Step(buf, p, m, hash) != Stop(Crashed(JobWithoutName))
  {
    if At(buf, p) != '#' {
      match DecodeHeader(buf, p)
      case None =>
      case Some(h) =>
        DecodeHeaderTask(buf, p);
        var minTs := if m.minTs == 0.0 then h.traceTs else m.minTs;
        var (d0, next) := Record(buf, h, minTs);
        RecordSpec(buf, h, minTs);
        var m1 := m.(minTs := minTs);
        ResolveCounted(m1, d0.comm, d0);
        ResolveFrame(m1, d0.comm, d0);
        var (m2, d) := Resolve(m1, d0.comm, d0);
        assert WellFormed(d);
        if !IsPlainLabel(d) {
          AddPointFrame(m2, d, hash);
        }
    }
  }

  // ------------------------------------------------------------- soundness

  /** What a record kept in plot_data satisfies: it is well formed, it is not
      a plain label, and its id names an axis that passes update_y_axis's
      test for it. */
  ghost predicate Entry(axes: seq<Axis>, d: PlotData) {
    && WellFormed(d)
    && !IsPlainLabel(d)
    && d.id < |axes|
    && Matches(axes[d.id], d.gpu, d.pid)
  }

  /** What init_data keeps true of plot_ while the axes fit the uint8_t
      data->id: the registry, no axis listed yet, and every record of
      plot_data naming its axis. */
  ghost predicate Sound(m: Model) {
    && Registry(m)
    && (forall i | 0 <= i < |m.axes| :: !m.axes[i].added)
    && (forall k | 0 <= k < |m.plotData| :: Entry(m.axes, m.plotData[k]))
  }

  /** Records keep naming their axes when axes are only appended and the
      existing ones keep their pid and gpu flag. */
  lemma EntriesKept(ds: seq<PlotData>, axes: seq<Axis>, axes2: seq<Axis>)
    requires |axes| <= |axes2|
    requires forall i | 0 <= i < |axes| :: axes2[i].pid == axes[i].pid && axes2[i].gpu == axes[i].gpu
    requires forall k | 0 <= k < |ds| :: Entry(axes, ds[k])
    ensures forall k | 0 <= k < |ds| :: Entry(axes2, ds[k])
  {
    forall k | 0 <= k < |ds| ensures Entry(axes2, ds[k]) {
      assert Entry(axes, ds[k]);
    }
  }

  /** update_y_axis keeps the model sound while the axes fit, and the record
      then names its axis. */
  lemma ResolveSound(m: Model, comm: string, d: PlotData)
    requires Sound(m) && NoSpace(comm)
    ensures var (m2, d2) := Resolve(m, comm, d);
      |m2.axes| <= 256 ==> Sound(m2) && d2.id < |m2.axes| && Matches(m2.axes[d2.id], d.gpu, d.pid)
  {
    var (m2, d2) := Resolve(m, comm, d);
    ResolveRegistry(m, comm, d);
    ResolveIndex(m, comm, d);
    ResolveFrame(m, comm, d);
    if |m2.axes| <= 256 {
      if |m2.axes| > |m.axes| {
        assert m2.axes[|m.axes|] == Append(m, comm, d).axes[|m.axes|];
      }
      EntriesKept(m.plotData, m.axes, m2.axes);
    }
  }

  /** update_y_markers keeps the model sound. */
  lemma MarkerSound(m: Model, text: string, ts: real, pid: nat)
    requires Sound(m)
    ensures Sound(m.(axes := AddMarker(m.axes, text, ts, pid)))
  {
    AddMarkerRegistry(m, text, ts, pid);
    AddMarkerSpec(m.axes, text, ts, pid);
    EntriesKept(m.plotData, m.axes, AddMarker(m.axes, text, ts, pid));
  }

  /** add_data_point followed by the push onto plot_data keeps the model
      sound for a record that names its axis. */
  lemma PointSound(m: Model, d: PlotData, hash: string -> nat)
    requires Sound(m) && Entry(m.axes, d)
    requires AddPoint(m, d, hash).Success?
    ensures var m3 := AddPoint(m, d, hash).value; Sound(m3.(plotData := m3.plotData + [d]))
  {
    var m3 := AddPoint(m, d, hash).value;
    AddPointRegistry(m, d, hash);
    AddPointFrame(m, d, hash);
    EntriesKept(m.plotData + [d], m.axes, m3.axes);
  }

  /** Placing a record that names its axis keeps the model sound. */
  lemma PlaceSound(m: Model, d: PlotData, pid: nat, next: int, hash: string -> nat)
    requires Sound(m) && WellFormed(d) && d.id < |m.axes| && Matches(m.axes[d.id], d.gpu, d.pid)
    ensures var t := Place(m, d, pid, next, hash); t.Next? ==> Sound(t.m)
  {
    if IsPlainLabel(d) {
      MarkerSound(m, d.marker.value, d.ts, pid);
    } else if AddPoint(m, d, hash).Success? {
      PointSound(m, d, hash);
    }
  }

  /** Resolving and placing a well-formed record keeps the model sound
      while the axes fit. */
  lemma ResolvePlaceSound(m: Model, d0: PlotData, pid: nat, next: int, hash: string -> nat)
    requires Sound(m) && WellFormed(d0)
    ensures var (m2, d) := Resolve(m, d0.comm, d0);
      && d.id < |m2.axes| && d == d0.(id := d.id)
      && var t := Place(m2, d, pid, next, hash);
      t.Next? && |t.m.axes| <= 256 ==> Sound(t.m)
  {
    ResolveSound(m, d0.comm, d0);
    ResolveCounted(m, d0.comm, d0);
    var (m2, d) := Resolve(m, d0.comm, d0);
    PlaceFrame(m2, d, pid, next, hash);
    if |m2.axes| <= 256 {
      PlaceSound(m2, d, pid, next, hash);
    }
  }

  /** The rest of a line keeps the model sound while the axes fit. */
  lemma LineSound(buf: string, h: Header, m: Model, hash: string -> nat)
    requires Sound(m) && NoSpace(h.task) && h.pid < TWO_32
    ensures var t := Line(buf, h, m, hash); t.Next? && |t.m.axes| <= 256 ==> Sound(t.m)
  {
    var minTs := if m.minTs == 0.0 then h.traceTs else m.minTs;
    var r := Record(buf, h, minTs);
    RecordSpec(buf, h, minTs);
    StampSound(m, minTs);
    ResolvePlaceSound(m.(minTs := minTs), r.0, h.pid, r.1, hash);
  }

  /** Setting min_ts keeps the model sound. */
  lemma StampSound(m: Model, minTs: real)
    requires Sound(m)
    ensures Sound(m.(minTs := minTs))
  {
  }

  /** One turn keeps the model sound while the axes fit. */
  lemma StepSound(buf: string, p: nat, m: Model, hash: string -> nat)
    requires Sound(m)
    ensures var t := Step(buf, p, m, hash); t.Next? && |t.m.axes| <= 256 ==> Sound(t.m)
  {
    if At(buf, p) != '#' {
      match DecodeHeader(buf, p)
      case None =>
      case Some(h) =>
        DecodeHeaderTask(buf, p);
        LineSound(buf, h, m, hash);
    }
  }

  /** The loop never drops an axis. */
  lemma {:induction false} LoopGrows(buf: string, p: nat, m: Model, hash: string -> nat)
    requires Counted(m)
    ensures var e := Loop(buf, p, m, hash);
      && (e.Ended? ==> |m.axes| <= |e.m.axes|)
      && (e.Stopped? && e.outcome.Malformed? ==> |m.axes| <= |e.outcome.m.axes|)
    decreases |buf| - p
  {
    if p < |buf| {
      var t := Step(buf, p, m, hash);
      StepAdvances(buf, p, m, hash);
      StepMalformed(buf, p, m, hash);
      if t.Next? {
        LoopGrows(buf, t.q, t.m, hash);
      }
    }
  }

  /** The loop keeps the model sound as long as its axes fit at the end. */
  lemma {:induction false} LoopSound(buf: string, p: nat, m: Model, hash: string -> nat)
    requires Sound(m)
    ensures var e := Loop(buf, p, m, hash);
      && (e.Ended? && |e.m.axes| <= 256 ==> Sound(e.m))
      && (e.Stopped? && e.outcome.Malformed? && |e.outcome.m.axes| <= 256 ==> Sound(e.outcome.m))
    decreases |buf| - p
  {
    if p < |buf| {
      var t := Step(buf, p, m, hash);
      StepAdvances(buf, p, m, hash);
      StepMalformed(buf, p, m, hash);
      StepSound(buf, p, m, hash);
      if t.Next? {
        LoopGrows(buf, t.q, t.m, hash);
        if |t.m.axes| <= 256 {
          LoopSound(buf, t.q, t.m, hash);
        }
      }
    }
  }

  /** Axes of which none is listed yet are all listed, in their order. */
  lemma {:induction false} UnaddedAll(axes: seq<Axis>)
    requires forall i | 0 <= i < |axes| :: !axes[i].added
    ensures |Unadded(axes)| == |axes|
    ensures forall i | 0 <= i < |axes| :: Unadded(axes)[i] == Listed(axes[i])
  {
    if axes != [] {
      UnaddedAll(axes[1..]);
    }
  }

  /** init_data, when its loop ends with at most 256 axes: it faults exactly
      when no record reached plot_data; otherwise the sorted list holds every
      axis in order of creation, listed, with pairwise distinct names, and
      every record of plot_data names its axis in that list. */
  lemma InitDataSpec(buf: string, hash: string -> nat)
    ensures var e := Loop(buf, 0, EMPTY, hash);
      var o := InitData(buf, hash);
      e.Ended? && |e.m.axes| <= 256 ==>
        && (o.Crashed? <==> e.m.plotData == [])
        && (o.Parsed? ==>
              && o.m == e.m.(axes := o.m.axes)
              && |o.m.axes| == |e.m.axes|
              && (forall i | 0 <= i < |o.m.axes| :: o.m.axes[i] == Listed(e.m.axes[i]))
              && DistinctNames(o.m.axes)
              && (forall k | 0 <= k < |o.m.plotData| :: Entry(o.m.axes, o.m.plotData[k]))
              && o.maxX == e.m.plotData[|e.m.plotData| - 1].ts - e.m.plotData[0].ts)
  {
    var e := Loop(buf, 0, EMPTY, hash);
    LoopSound(buf, 0, EMPTY, hash);
    if e.Ended? && |e.m.axes| <= 256 {
      var axes := e.m.axes;
      RegistryNames(e.m);
      SortAxesSpec(axes);
      UnaddedAll(axes);
      var sorted := SortAxes(axes);
      EntriesKept(e.m.plotData, axes, sorted);
      forall i, j | 0 <= i < j < |sorted| ensures sorted[i].name != sorted[j].name {
        assert sorted[i].name == axes[i].name && sorted[j].name == axes[j].name;
      }
    }
  }

  // -------------------------------------------------------------- examples

  /** A log of comment lines only leaves plot_data empty, which faults at
      plot_data.back(); a comment line without its newline faults first. */
  lemma CommentLogs(hash: string -> nat)
    ensures InitData("#\n", hash) == Crashed(NoRecords)
    ensures InitData("#", hash) == Crashed(CommentWithoutNewline)
  {
    assert NewlineFrom("#\n", 0) == Some(1) by {
      assert NewlineFrom("#\n", 1) == Some(1);
    }
    assert Step("#\n", 0, EMPTY, hash) == Next(2, EMPTY);
    assert Loop("#\n", 2, EMPTY, hash) == Ended(EMPTY);
    assert NewlineFrom("#", 0) == None by {
      assert NewlineFrom("#", 1) == None;
    }
  }

  /** A log that holds no dash at all, and does not open with a comment,
      has no task-pid field to decode: the parse stops at its first line with
      false, leaving the model empty. */
  lemma MalformedLog(buf: string, hash: string -> nat)
    requires buf != [] && buf[0] != '#' && '-' !in buf
    ensures InitData(buf, hash) == Malformed(0, EMPTY)
  {
    forall k: int | DataField(buf, 0).start < k < DataField(buf, 0).stop ensures !DashDigit(buf, k) {
      if 1 <= k <= |buf| {
        assert buf[k - 1] in buf;
      }
    }
    DecodeHeaderMalformed(buf, 0);
    assert Step(buf, 0, EMPTY, hash) == Stop(Malformed(0, EMPTY));
  }
}
