/** The global plot_ and the routines of the parser that update it in place:
    update_y_axis, make_job_color, add_data_point, update_y_markers,
    add_items, sort_y_axes and init_data. Each is proved to leave plot_ in
    the state the corresponding function of Timeline or Driver describes. */
module PlotState {
  import opened CText
  import opened Tokenizer
  import opened Records
  import opened Colors
  import opened Timeline
  import opened Driver

  /** struct plot (the members the parser touches). */
  class Plot {
    var plotData: seq<PlotData>
    var axes: seq<Axis>
    var id: nat
    var gpuPlotId: nat
    var minTs: real
    var maxX: real

    /** The members the timeline functions describe. */
    function State(): Model
      reads this
    {
      Model(plotData, axes, id, gpuPlotId, minTs)
    }

    /** The zero-initialised static plot_. */
    constructor ()
      ensures State() == EMPTY && maxX == 0.0
    {
      plotData, axes, id, gpuPlotId, minTs, maxX := [], [], 0, 0, 0.0, 0.0;
    }

    /** update_y_axis: the record's axis is looked up (and renamed), or
        appended; the record comes back with its id. */
    method UpdateYAxis(comm: string, d: PlotData) returns (d2: PlotData)
      modifies this
      ensures (State(), d2) == Resolve(old(State()), comm, d)
      ensures maxX == old(maxX)
    {
      var i := 0;
      while i < |axes|
        invariant 0 <= i <= |axes|
        invariant State() == old(State())
        invariant FindAxis(axes, d.gpu, d.pid, i) == FindAxis(axes, d.gpu, d.pid, 0)
        decreases |axes| - i
      {
        if d.gpu && axes[i].gpu {
          return d.(id := U8(i));
        } else if axes[i].pid == d.pid && !d.gpu {
          axes := axes[i := axes[i].(name := AxisName(comm, axes[i].pid))];
          return d.(id := U8(i));
        }
        i := i + 1;
      }
      d2 := d.(id := U8(id));
      id := U16(id + 1);
      var axis;
      if !d.gpu {
        axis := NewAxis(d.pid, AxisName(comm, d.pid), false, GenerateColor(d2.id));
      } else {
        gpuPlotId := d2.id;
        axis := NewAxis(0, GPU_AXIS_NAME, true, GPU_COLOR);
      }
      axes := axes + [axis];
    }

    /** make_job_color over the current axes. */
    method MakeJobColor(job: GpuJob, hash: string -> nat) returns (r: Result<nat>)
      ensures r == JobColor(axes, job, hash)
    {
      var i := 0;
      while i < |axes|
        invariant 0 <= i <= |axes|
        invariant FindAxis(axes, false, job.pid, i) == FindAxis(axes, false, job.pid, 0)
        decreases |axes| - i
      {
        if axes[i].pid == job.pid {
          return Success(axes[i].color);
        }
        i := i + 1;
      }
      if job.name.None? {
        return Failure(JobWithoutName);
      }
      return Success(U32(hash(job.name.value + IntToString(job.id))));
    }

    /** add_data_point: on a fault (a null dereference of the source) the
        fault is returned. */
    method AddDataPoint(d: PlotData, hash: string -> nat) returns (fault: Option<Fault>)
      requires d.id < |axes|
      requires d.marker.Some? && !d.gpu ==> IsMonitor(d.marker.value)
      modifies this
      ensures fault.None? <==> AddPoint(old(State()), d, hash).Success?
      ensures fault.None? ==> State() == AddPoint(old(State()), d, hash).value
      ensures fault.Some? ==> Failure(fault.value) == AddPoint(old(State()), d, hash)
      ensures plotData == old(plotData) && maxX == old(maxX)
    {
      var a := axes[d.id];
      var cpu := if d.sched.Some? then Some(d.sched.value.cpu) else None;
      if d.monitor && !a.monitor {
        a := a.(monitor := d.monitor);
      }
      if d.gpu && !a.gpu {
        a := a.(gpu := d.gpu);
      }
      axes := axes[d.id := a];
      var point;
      if a.gpu {
        if d.marker.None? {
          return Some(JobWithoutPayload);
        }
        var job := ParseGpuJob(d.marker.value, minTs);
        var color := MakeJobColor(job, hash);
        if color.Failure? {
          return Some(color.fault);
        }
        point := GpuPoint(job, color.value);
      } else if !a.monitor {
        var arrived := d.sched.Some? && d.sched.value.arrived;
        point := Point(d.ts, 0.0, cpu, None, arrived, -1.0, None);
      } else if d.marker.Some? {
        var y := MonitorValue(d.marker.value) as real;
        point := Point(d.ts, y, cpu, None, true, -1.0, None);
        if a.maxY < y {
          a := a.(maxY := y);
        }
      } else {
        return None;
      }
      axes := axes[d.id := a.(points := a.points + [point])];
      return None;
    }

    /** update_y_markers: the label goes to the first axis of the pid that
        has points. */
    method UpdateYMarkers(text: string, ts: real, pid: nat)
      modifies this
      ensures State() == old(State()).(axes := AddMarker(old(axes), text, ts, pid))
      ensures maxX == old(maxX)
    {
      var i := 0;
      while i < |axes|
        invariant 0 <= i <= |axes|
        invariant State() == old(State())
        invariant MarkerAxis(axes, pid, i) == MarkerAxis(axes, pid, 0)
        decreases |axes| - i
      {
        if axes[i].pid == pid && |axes[i].points| > 0 {
          axes := axes[i := axes[i].(markers := axes[i].markers + [ts],
                                     labels := axes[i].labels + [MarkerLabel(text, ts)])];
          return;
        }
        i := i + 1;
      }
    }

    /** add_items over the axis slots (a moved-out slot is None): every axis
        of the name is listed and moved to the end of `out`. */
    static method AddItems(slots: seq<Option<Axis>>, name: string, out: seq<Axis>)
      returns (slots2: seq<Option<Axis>>, out2: seq<Axis>)
      ensures (slots2, out2) == Timeline.AddItems(slots, name, 0, out)
    {
      slots2, out2 := slots, out;
      var j := 0;
      while j < |slots2|
        invariant 0 <= j <= |slots2| == |slots|
        invariant Timeline.AddItems(slots2, name, j, out2) == Timeline.AddItems(slots, name, 0, out)
        decreases |slots2| - j
      {
        if slots2[j].Some? && slots2[j].value.name == name {
          out2 := out2 + [Listed(slots2[j].value)];
          slots2 := slots2[j := None];
        }
        j := j + 1;
      }
    }

    /** sort_y_axes: the axes are regrouped by name into a new list, which
        replaces y_axes. */
    method SortYAxes()
      modifies this
      ensures State() == old(State()).(axes := SortAxes(old(axes)))
      ensures maxX == old(maxX)
    {
      var slots := Slots(axes);
      var out := [];
      var i := 0;
      while i < |slots|
        invariant 0 <= i <= |slots|
        invariant SortFrom(slots, i, out) == SortAxes(old(axes))
        invariant State() == old(State()) && maxX == old(maxX)
        decreases |slots| - i
      {
        if slots[i].Some? && !slots[i].value.added {
          slots, out := AddItems(slots, slots[i].value.name, out);
        }
        i := i + 1;
      }
      axes := out;
    }

    /** init_data on the mapped log `buf`: the loop over its lines, then
        max_x and the sort. When it returns true plot_ holds the parsed
        model; when it returns false, the model built so far. */
    method InitData(buf: string, hash: string -> nat) returns (o: Outcome)
      requires Counted(State())
      modifies this
      ensures o == Run(buf, 0, old(State()), hash)
      ensures o.Parsed? ==> State() == o.m && maxX == o.maxX
      ensures o.Malformed? ==> State() == o.m
    {
      var ptr: nat := 0;
      while ptr < |buf|
        invariant Counted(State())
        invariant Run(buf, ptr, State(), hash) == Run(buf, 0, old(State()), hash)
        decreases |buf| - ptr
      {
        StepAdvances(buf, ptr, State(), hash);
        var t := ReadStep(buf, ptr, hash);
        if t.Stop? {
          return t.outcome;
        }
        ptr := t.q;
      }
      if plotData == [] {
        return Crashed(NoRecords);
      }
      maxX := plotData[|plotData| - 1].ts - plotData[0].ts;
      SortYAxes();
      return Parsed(State(), maxX);
    }

    /** One turn of init_data's loop at cursor ptr: a comment line is
        skipped through its newline (strchr), any other line has its header
        parsed and its record read. */
    method ReadStep(buf: string, ptr: nat, hash: string -> nat) returns (t: Turn)
      requires Counted(State())
      modifies this
      ensures t == Step(buf, ptr, old(State()), hash)
      ensures t.Next? ==> State() == t.m
      ensures t.Stop? ==> t.outcome.Crashed? || t.outcome == Malformed(ptr, State())
    {
      if At(buf, ptr) == '#' {
        var nl := NewlineFrom(buf, ptr);
        if nl.None? {
          return Stop(Crashed(CommentWithoutNewline));
        }
        return Next(nl.value + 1, State());
      }
      var h := ParseLineHead(buf, ptr);
      if h.None? {
        return Stop(Malformed(ptr, State()));
      }
      t := ReadLine(buf, h.value, hash);
    }

    /** The body of init_data's loop after the header: min_ts, the record,
        update_y_axis, then update_y_markers or add_data_point and the push
        onto plot_data. */
    method ReadLine(buf: string, h: Header, hash: string -> nat) returns (t: Turn)
      requires Counted(State())
      modifies this
      ensures t == Line(buf, h, old(State()), hash)
      ensures t.Next? ==> State() == t.m
      ensures t.Stop? ==> t.outcome.Crashed?
    {
      if minTs == 0.0 {
        minTs := h.traceTs;
      }
      var d, next := ReadRecord(buf, h);
      ghost var m1 := State();
      ResolveCounted(m1, d.comm, d);
      RecordSpec(buf, h, minTs);
      var d2 := UpdateYAxis(d.comm, d);
      t := PlaceRecord(d2, h.pid, next, hash);
    }

    /** The record of a marker line or a scheduler event, stamped relative
        to min_ts. */
    method ReadRecord(buf: string, h: Header) returns (d: PlotData, next: int)
      ensures d == Record(buf, h, minTs).0 && next == Record(buf, h, minTs).1
    {
      if h.isMarker {
        d, next := InitMarkerData(buf, h.next, h.task, h.pid);
      } else {
        d, next := InitInfoData(buf, h.next);
      }
      d := d.(ts := h.traceTs - minTs);
    }

    /** The end of init_data's loop body: a plain label goes to
        update_y_markers, any other record to add_data_point and onto
        plot_data. */
    method PlaceRecord(d: PlotData, pid: nat, next: int, hash: string -> nat) returns (t: Turn)
      requires d.id < |axes|
      requires d.marker.Some? ==> d.monitor == IsMonitor(d.marker.value)
      modifies this
      ensures t == Place(old(State()), d, pid, next, hash)
      ensures t.Next? ==> State() == t.m
      ensures t.Stop? ==> t.outcome.Crashed?
    {
      if IsPlainLabel(d) {
        UpdateYMarkers(d.marker.value, d.ts, pid);
      } else {
        var fault := AddDataPoint(d, hash);
        if fault.Some? {
          return Stop(Crashed(fault.value));
        }
        plotData := plotData + [d];
      }
      return Next(next + 1, State());
    }
  }
}
