/** Decoding of one trace line into a record (struct plot_data): the common
    ftrace header (init_data, the fields up to the function name), the marker
    payload (init_marker_data) or the six fields of a scheduler event
    (init_info_data); and the comma decoding of a GPU-job payload
    (parse_gpu_job). */
module Records {
  import opened CText
  import opened Tokenizer

  /** The function-name field of a user-space marker line. */
  const MARK_TAG: string := "tracing_mark_write:"

  /** Nanoseconds per second, as the double constant 1e9. */
  const NS_PER_SEC: real := 1000000000.0

  /** The members of struct plot_data that only a scheduler event assigns; a
      marker record leaves them uninitialised, which is modelled as None. */
  datatype SchedFields = SchedFields(rawTs: int, arrived: bool, cpu: nat, pcount: nat)

  /** struct plot_data. `ts` and `id` are assigned by init_data and
      update_y_axis after decoding. */
  datatype PlotData = PlotData(
    comm: string,
    marker: Option<string>,
    monitor: bool,
    gpu: bool,
    pid: nat,
    ts: real,
    id: nat,
    sched: Option<SchedFields>)

  /** What decoding guarantees about a record: it is a marker or a scheduler
      event, never both; the monitor and gpu flags are the classification of
      the marker payload; the comm holds no white space (it was cut out of a
      white-space delimited field). */
  ghost predicate WellFormed(d: PlotData) {
    && (d.marker.Some? <==> d.sched.None?)
    && (d.marker.Some? ==> d.monitor == IsMonitor(d.marker.value) && d.gpu == IsGpu(d.marker.value))
    && (d.marker.None? ==> !d.monitor && !d.gpu)
    && NoSpace(d.comm)
    && d.pid < TWO_32
  }

  /** A record that becomes a point (all but the plain-label markers). */
  predicate IsPlainLabel(d: PlotData) { d.marker.Some? && !d.monitor && !d.gpu }

  lemma CStrNoSpace(s: string)
    requires NoSpace(s)
    ensures NoSpace(CStr(s))
  {
    CStrSpec(s);
    forall k | 0 <= k < |CStr(s)| ensures !IsSpace(CStr(s)[k]) {
      assert CStr(s)[k] == s[k];
    }
  }

  /** Any part of a stretch of the buffer free of white space, read as a C
      string, holds no white space. */
  lemma SliceNoSpace(buf: string, start: int, stop: int)
    requires start < stop ==> 0 <= start && stop <= |buf|
    requires forall k | start <= k < stop :: !IsSpace(buf[k])
    ensures NoSpace(Field(buf, start, stop))
  {
    if start < stop {
      assert Slice(buf, start, stop) == buf[start..stop];
      CStrNoSpace(buf[start..stop]);
    } else {
      assert Slice(buf, start, stop) == [];
    }
  }

  /** Any part of a white-space delimited field, read as a C string, holds no
      white space. */
  lemma FieldNoSpace(buf: string, p: int, start: int, stop: int)
    requires DataField(buf, p).start <= start <= stop <= DataField(buf, p).stop
    ensures NoSpace(Field(buf, start, stop))
  {
    DataFieldSpec(buf, p);
    SliceNoSpace(buf, start, stop);
  }

  // ------------------------------------------------------------ line header

  /** The header fields of one line: task and pid, the ftrace timestamp in
      seconds, whether the function is the marker tag, and the cursor just past
      the function field. */
  datatype Header = Header(task: string, pid: nat, traceTs: real, isMarker: bool, next: int)

  /** The header as init_data decodes it: "<task>-<pid> [<cpu>] <flags>
      <timestamp>: <function>", five fields cut out in a run. None is the
      malformed task-pid field that aborts the parse. The cpu and flags fields
      are read and dropped; the timestamp is atof of its field, in seconds. */
  function DecodeHeader(buf: string, p: int): Option<Header> {
    var f0 := NthField(buf, p, 0);
    match DecodeTaskPid(buf, f0.start, f0.stop)
    case None => None
    case Some(tp) =>
      Some(Header(tp.task, tp.pid, Atof(NthText(buf, p, 3)), NthText(buf, p, 4) == MARK_TAG, Cursor(buf, p, 5)))
  }

  /** The line is rejected exactly when its first field holds no digit right
      after a dash. */
  lemma DecodeHeaderMalformed(buf: string, p: int)
    ensures DecodeHeader(buf, p).None? <==>
      forall k: int | DataField(buf, p).start < k < DataField(buf, p).stop :: !DashDigit(buf, k)
  {
    DecodeTaskPidSpec(buf, DataField(buf, p).start, DataField(buf, p).stop);
  }

  /** A decoded header's task holds no white space, and its pid fits 32 bits. */
  lemma DecodeHeaderTask(buf: string, p: int)
    requires DecodeHeader(buf, p).Some?
    ensures NoSpace(DecodeHeader(buf, p).value.task) && DecodeHeader(buf, p).value.pid < TWO_32
  {
    var f0 := DataField(buf, p);
    var tp := DecodeTaskPid(buf, f0.start, f0.stop);
    assert NthField(buf, p, 0) == f0;
    assert tp.Some? && DecodeHeader(buf, p).value.task == tp.value.task;
    TaskPidNoSpace(buf, p);
  }

  /** The task cut out of a line's first field holds no white space. */
  lemma TaskPidNoSpace(buf: string, p: int)
    requires DecodeTaskPid(buf, DataField(buf, p).start, DataField(buf, p).stop).Some?
    ensures NoSpace(DecodeTaskPid(buf, DataField(buf, p).start, DataField(buf, p).stop).value.task)
  {
    DataFieldSpec(buf, p);
    TaskNoSpace(buf, DataField(buf, p).start, DataField(buf, p).stop);
  }

  /** The task decoded from a stretch free of white space holds none. */
  lemma TaskNoSpace(buf: string, start: int, stop: int)
    requires start < stop ==> 0 <= start && stop <= |buf|
    requires forall k | start <= k < stop :: !IsSpace(buf[k])
    requires DecodeTaskPid(buf, start, stop).Some?
    ensures NoSpace(DecodeTaskPid(buf, start, stop).value.task)
  {
    ScanDashDigitRange(buf, start, stop - 1);
    var k := ScanDashDigit(buf, start, stop - 1).value;
    SliceNoSpace(buf, start, k - 1);
  }

  /** The line continues after the header: the cursor has moved past p. */
  lemma DecodeHeaderAdvances(buf: string, p: int)
    requires DecodeHeader(buf, p).Some?
    ensures DecodeHeader(buf, p).value.next > p
  {
    CursorAdvances(buf, p, 5);
  }

  /** The header part of init_data's loop body: task-pid, cpu (its atoi
      result is never used), flags, timestamp and function fields. */
  method ParseLineHead(buf: string, p: int) returns (h: Option<Header>)
    ensures h == DecodeHeader(buf, p)
  {
    var ptr := p;
    var start, next := GetDataField(buf, ptr);
    var ok, task, pid := ParseTaskPid(buf, start, next);
    if !ok {
      return None;
    }
    ptr := next + 1;
    assert ptr == Cursor(buf, p, 1);
    start, next := GetDataField(buf, ptr);
    ptr := next + 1;
    assert ptr == Cursor(buf, p, 2);
    start, next := GetDataField(buf, ptr);
    ptr := next + 1;
    assert ptr == Cursor(buf, p, 3);
    start, next := GetDataField(buf, ptr);
    var traceTs := Atof(Field(buf, start, next));
    ptr := next + 1;
    assert ptr == Cursor(buf, p, 4);
    start, next := GetDataField(buf, ptr);
    var isMarker := Field(buf, start, next) == MARK_TAG;
    ptr := next + 1;
    assert ptr == Cursor(buf, p, 5);
    h := Some(Header(task, pid, traceTs, isMarker, ptr));
  }

  // ---------------------------------------------------------------- records

  /** A marker line's record: the payload is the rest of the line, kept
      verbatim; comm and pid come from the task-pid field, except that a GPU
      payload gets the comm "gpu". The second component is the cursor after
      the payload's terminating byte. */
  function DecodeMarker(buf: string, p: int, task: string, pid: nat): (PlotData, int) {
    var f := MarkerField(buf, p);
    var m := Field(buf, f.start, f.stop);
    var gpu := IsGpu(m);
    (PlotData(if gpu then "gpu" else task, Some(m), IsMonitor(m), gpu, pid, 0.0, 0, None), f.stop + 1)
  }

  /** A marker record is well formed and carries the payload the line holds
      after the header; its comm is the task unless the payload is a GPU job. */
  lemma DecodeMarkerSpec(buf: string, p: int, task: string, pid: nat)
    requires NoSpace(task) && pid < TWO_32
    ensures var (d, next) := DecodeMarker(buf, p, task, pid);
      && WellFormed(d) && d.pid == pid && next > p
      && d.marker == Some(Field(buf, MarkerField(buf, p).start, MarkerField(buf, p).stop))
      && d.comm == (if d.gpu then "gpu" else task)
  {
    var f := MarkerField(buf, p);
    BlankRunEndSpec(buf, p);
    LineEndSpec(buf, f.start);
  }

  /** Decoding a marker line whose payload the tracer wrote after the header
      gives back that payload, classified, and moves the cursor just past the
      line's newline. The payload holds no NUL and no end-of-line byte, and
      does not open with a blank (skip_blanks would eat it). */
  lemma MarkerRoundTrip(buf: string, p: int, payload: string, rest: string, task: string, pid: nat)
    requires 0 <= p <= |buf| && buf[p..] == payload + "\n" + rest
    requires payload == [] || !IsBlank(payload[0])
    requires forall k | 0 <= k < |payload| :: !IsEol(payload[k])
    requires '\0' !in payload
    ensures DecodeMarker(buf, p, task, pid)
      == (PlotData(if IsGpu(payload) then "gpu" else task, Some(payload), IsMonitor(payload), IsGpu(payload),
                   pid, 0.0, 0, None),
          p + |payload| + 1)
  {
    assert payload + "\n" + rest == payload + ("\n" + rest);
    PayloadAt(buf, p, payload, "\n" + rest);
  }

  /** init_marker_data, with the classification init_data applies to the
      payload right after it. */
  method InitMarkerData(buf: string, p: int, task: string, pid: nat) returns (data: PlotData, next: int)
    ensures (data, next) == DecodeMarker(buf, p, task, pid)
  {
    var start, stop := GetMarkerField(buf, p);
    var m := Field(buf, start, stop);
    data := PlotData(task, Some(m), false, false, pid, 0.0, 0, None);
    data := data.(monitor := IsMonitor(m), gpu := IsGpu(m));
    if data.gpu {
      data := data.(comm := "gpu");
    }
    next := stop + 1;
  }

  /** A scheduler event's record: "<ts_ns> <pid> <arrived> <cpu> <pcount>
      <comm>", six fields cut out in a run and read with atoll, atoi, atoi,
      atoi, atol and as text, each stored into its member's width. `ts` is the
      nanosecond stamp in seconds, which init_data overwrites. */
  function DecodeInfo(buf: string, p: int): (PlotData, int) {
    var rawTs := Atol(NthText(buf, p, 0));
    var sched := SchedFields(rawTs, Atoi(NthText(buf, p, 2)) != 0,
                             U8(Atoi(NthText(buf, p, 3))), U64(Atol(NthText(buf, p, 4))));
    (PlotData(NthText(buf, p, 5), None, false, false, U32(Atoi(NthText(buf, p, 1))),
              rawTs as real / NS_PER_SEC, 0, Some(sched)),
     Cursor(buf, p, 6))
  }

  /** A scheduler record is well formed and the cursor moves on. */
  lemma DecodeInfoSpec(buf: string, p: int)
    ensures WellFormed(DecodeInfo(buf, p).0) && DecodeInfo(buf, p).0.sched.Some?
    ensures DecodeInfo(buf, p).1 > p
  {
    var f5 := NthField(buf, p, 5);
    DataFieldSpec(buf, Cursor(buf, p, 5));
    FieldNoSpace(buf, Cursor(buf, p, 5), f5.start, f5.stop);
    CursorAdvances(buf, p, 6);
  }

  /** Numbers in decimal and then a word, separated by single spaces and
      ended by a newline, as the tracer writes its scheduler events. */
  function NumbersLine(ns: seq<nat>, w: string): string {
    if ns == [] then w + "\n" else Dec(ns[0]) + (" " + NumbersLine(ns[1..], w))
  }

  /** A decimal spelling is a word. */
  lemma DecIsWord(n: nat)
    ensures IsWord(Dec(n))
  {
    DecSpec(n);
    forall k | 0 <= k < |Dec(n)| ensures !IsSpace(Dec(n)[k]) { assert IsDigit(Dec(n)[k]); }
  }

  /** The i-th field of a run, when a number is written there. */
  lemma DecFieldAt(buf: string, p: int, i: nat, n: nat, more: string)
    requires 0 <= Cursor(buf, p, i) <= |buf| && buf[Cursor(buf, p, i)..] == Dec(n) + (" " + more)
    ensures NthText(buf, p, i) == Dec(n)
    ensures 0 <= Cursor(buf, p, i + 1) <= |buf| && buf[Cursor(buf, p, i + 1)..] == more
    ensures Cursor(buf, p, i + 1) == Cursor(buf, p, i) + |Dec(n)| + 1
  {
    DecIsWord(n);
    WordField(buf, p, i, Dec(n), ' ', more);
  }

  /** A run of get_data_field calls over such a line reads each number's
      spelling and then the word, and the call after the word starts just
      past the newline. */
  lemma {:induction false} NumbersFields(buf: string, p: int, i: nat, c: int, ns: seq<nat>, w: string, rest: string, e: nat)
    requires c == Cursor(buf, p, i) && 0 <= c <= |buf| && buf[c..] == NumbersLine(ns, w) + rest
    requires IsWord(w) && e == i + |ns|
    ensures forall j | i <= j < e :: NthText(buf, p, j) == Dec(ns[j - i])
    ensures NthText(buf, p, e) == w
    ensures Cursor(buf, p, e + 1) == c + |NumbersLine(ns, w)|
    decreases |ns|
  {
    if ns == [] {
      LastField(buf, p, i, w, rest);
    } else {
      FirstNumber(buf, p, i, ns, w, rest);
      NumbersFields(buf, p, i + 1, Cursor(buf, p, i + 1), ns[1..], w, rest, e);
      forall j | i < j < e ensures NthText(buf, p, j) == Dec(ns[j - i]) {
        assert ns[j - i] == ns[1..][j - (i + 1)];
      }
    }
  }

  /** The word that ends a numbers line. */
  lemma LastField(buf: string, p: int, i: nat, w: string, rest: string)
    requires 0 <= Cursor(buf, p, i) <= |buf| && buf[Cursor(buf, p, i)..] == NumbersLine([], w) + rest
    requires IsWord(w)
    ensures NthText(buf, p, i) == w
    ensures Cursor(buf, p, i + 1) == Cursor(buf, p, i) + |NumbersLine([], w)|
  {
    assert NumbersLine([], w) + rest == w + ("\n" + rest);
    WordField(buf, p, i, w, '\n', rest);
  }

  /** The first number of a numbers line. */
  lemma FirstNumber(buf: string, p: int, i: nat, ns: seq<nat>, w: string, rest: string)
    requires 0 <= Cursor(buf, p, i) <= |buf| && buf[Cursor(buf, p, i)..] == NumbersLine(ns, w) + rest
    requires ns != []
    ensures NthText(buf, p, i) == Dec(ns[0])
    ensures 0 <= Cursor(buf, p, i + 1) <= |buf| && buf[Cursor(buf, p, i + 1)..] == NumbersLine(ns[1..], w) + rest
    ensures |NumbersLine(ns, w)| == Cursor(buf, p, i + 1) - Cursor(buf, p, i) + |NumbersLine(ns[1..], w)|
  {
    var n, tail := ns[0], NumbersLine(ns[1..], w);
    assert NumbersLine(ns, w) == Dec(n) + (" " + tail);
    Regroup(Dec(n), " ", tail, rest);
    DecFieldAt(buf, p, i, n, tail + rest);
  }

  lemma Regroup(a: string, b: string, c: string, d: string)
    ensures (a + (b + c)) + d == a + (b + (c + d))
  {
  }

  /** Decoding a scheduler event the tracer wrote as "<ts_ns> <pid>
      <arrived> <cpu> <pcount> <comm>" (ns holds the five numbers) gives back
      every field, in its member's width, and moves the cursor just past the
      line's newline. The flag reads as true exactly when it was written
      nonzero. */
  lemma InfoRoundTrip(buf: string, p: int, ns: seq<nat>, comm: string, rest: string)
    requires 0 <= p <= |buf| && buf[p..] == NumbersLine(ns, comm) + rest
    requires |ns| == 5 && IsWord(comm)
    requires ns[0] <= LONG_MAX && ns[1] < TWO_32 && ns[2] < TWO_31 && ns[3] < TWO_8 && ns[4] <= LONG_MAX
    ensures DecodeInfo(buf, p).0
      == PlotData(comm, None, false, false, ns[1], ns[0] as real / NS_PER_SEC, 0,
                  Some(SchedFields(ns[0], ns[2] != 0, ns[3], ns[4])))
    ensures DecodeInfo(buf, p).1 == p + |NumbersLine(ns, comm)|
  {
    NumbersFields(buf, p, 0, p, ns, comm, rest, 5);
    assert NthText(buf, p, 0) == Dec(ns[0]) && NthText(buf, p, 1) == Dec(ns[1]) && NthText(buf, p, 2) == Dec(ns[2]);
    assert NthText(buf, p, 3) == Dec(ns[3]) && NthText(buf, p, 4) == Dec(ns[4]);
    StrToLOfDec(ns[0]);
    assert Atol(NthText(buf, p, 0)) == ns[0];
    AtoiOfDec(ns[1]);
    assert U32(Atoi(NthText(buf, p, 1))) == ns[1];
    StrToLOfDec(ns[2]);
    I32Small(ns[2]);
    assert Atoi(NthText(buf, p, 2)) == ns[2];
    StrToLOfDec(ns[3]);
    I32Small(ns[3]);
    UnsignedSmall(ns[3]);
    assert U8(Atoi(NthText(buf, p, 3))) == ns[3];
    StrToLOfDec(ns[4]);
    UnsignedSmall(ns[4]);
    assert U64(Atol(NthText(buf, p, 4))) == ns[4];
  }

  /** init_info_data. Its "return nullptr" branches test get_data_field for
      null, which it never returns; they are dead. */
  method InitInfoData(buf: string, p: int) returns (data: PlotData, ptr: int)
    ensures (data, ptr) == DecodeInfo(buf, p)
  {
    ptr := p;
    var start, next := GetDataField(buf, ptr);
    var rawTs := Atol(Field(buf, start, next));
    ptr := next + 1;
    assert ptr == Cursor(buf, p, 1);
    start, next := GetDataField(buf, ptr);
    var pid := U32(Atoi(Field(buf, start, next)));
    ptr := next + 1;
    assert ptr == Cursor(buf, p, 2);
    start, next := GetDataField(buf, ptr);
    var arrived := Atoi(Field(buf, start, next)) != 0;
    ptr := next + 1;
    assert ptr == Cursor(buf, p, 3);
    start, next := GetDataField(buf, ptr);
    var cpu := U8(Atoi(Field(buf, start, next)));
    ptr := next + 1;
    assert ptr == Cursor(buf, p, 4);
    start, next := GetDataField(buf, ptr);
    var pcount := U64(Atol(Field(buf, start, next)));
    ptr := next + 1;
    assert ptr == Cursor(buf, p, 5);
    start, next := GetDataField(buf, ptr);
    var comm := Field(buf, start, next);
    ptr := next + 1;
    assert ptr == Cursor(buf, p, 6);
    data := PlotData(comm, None, false, false, pid, rawTs as real / NS_PER_SEC, 0,
                     Some(SchedFields(rawTs, arrived, cpu, pcount)));
  }

  // --------------------------------------------------------------- monitor

  /** The sample value of a monitor payload: atol of the text after the
      four-byte tag "mon,". */
  function MonitorValue(m: string): int
    requires IsMonitor(m)
  {
    Atol(m[4..])
  }

  /** The sampling tools write "mon,<count>,<tag>" with the count printed by
      %zu. Reading the payload back gives the count, saturated at LONG_MAX. */
  lemma MonitorRoundTrip(count: nat, tag: string)
    ensures IsMonitor("mon," + Dec(count) + "," + tag)
    ensures MonitorValue("mon," + Dec(count) + "," + tag) == if count > LONG_MAX then LONG_MAX else count
  {
    var m := "mon," + Dec(count) + "," + tag;
    DecSpec(count);
    assert m[..4] == "mon,";
    assert m[4..] == Dec(count) + ("," + tag);
    StrToLOfDigits(Dec(count), "," + tag);
    DecRoundTrip(count);
  }

  // --------------------------------------------------------------- GPU jobs

  /** struct gpu_job. Its offset_sec member is never written (parse_gpu_job
      keeps the offset in a local) and is left out. -1 is the "not yet read"
      sentinel of each numeric member, a null name that of the name. */
  datatype GpuJob = GpuJob(name: Option<string>, id: int, pid: nat, startTs: real, stopTs: real, runtimeMs: real)

  const FRESH_JOB: GpuJob := GpuJob(None, -1, 0, -1.0, -1.0, -1.0)

  /** strchr(s, c) on a NUL-free string: the index of the first c. */
  function IndexOf(s: string, c: char): (r: Option<nat>)
    ensures r.Some? ==> r.value < |s| && s[r.value] == c && c !in s[..r.value]
    ensures r.None? ==> c !in s
  {
    if s == [] then None
    else if s[0] == c then Some(0)
    else match IndexOf(s[1..], c)
      case None => None
      case Some(i) =>
        assert s[..i + 1] == [s[0]] + s[1..][..i];
        Some(i + 1)
  }

  /** One comma-terminated field of a GPU payload, stored in the first slot
      still holding its sentinel: name, offset, id, start, stop, runtime. A
      numeric field that reads as negative leaves its slot "unset", so the next
      field goes to the same slot. `seg` is the field (the name is cut at the
      comma); the numbers are read from `rest`, the text from the field on,
      where atoi and atof stop at the comma. */
  function StoreJobField(seg: string, rest: string, job: GpuJob, offset: real): (r: (GpuJob, real))
  {
    if job.name.None? then (job.(name := Some(seg)), offset)
    else if offset < 0.0 then (job, Atof(rest))
    else if job.id < 0 then (job.(id := Atoi(rest)), offset)
    else if job.startTs < 0.0 then (job.(startTs := Atof(rest) / NS_PER_SEC), offset)
    else if job.stopTs < 0.0 then (job.(stopTs := Atof(rest) / NS_PER_SEC), offset)
    else if job.runtimeMs < 0.0 then (job.(runtimeMs := Atof(rest)), offset)
    else (job, offset)
  }

  /** The loop of parse_gpu_job over the rest of the payload: every field
      followed by a comma is stored; the final comma-free field is the pid. */
  function FillJob(rest: string, job: GpuJob, offset: real): (r: (GpuJob, real))
    decreases |rest|
  {
    if rest == [] then (job, offset)
    else match IndexOf(rest, ',')
      case None => (job.(pid := U32(Atoi(rest))), offset)
      case Some(c) =>
        var stored := StoreJobField(rest[..c], rest, job, offset);
        FillJob(rest[c + 1..], stored.0, stored.1)
  }

  /** The job parse_gpu_job decodes from a payload: start and stop are moved
      from the GPU clock to the trace clock by subtracting min_ts plus the
      payload's own clock offset. */
  function DecodeGpuJob(m: string, minTs: real): GpuJob {
    var filled := FillJob(m, FRESH_JOB, -1.0);
    var shift := minTs + filled.1;
    filled.0.(startTs := filled.0.startTs - shift, stopTs := filled.0.stopTs - shift)
  }

  /** parse_gpu_job. The payload is a C string, so it holds no NUL and the
      loop's "*ptr != '\0'" is "text remains". */
  method ParseGpuJob(m: string, minTs: real) returns (job: GpuJob)
    ensures job == DecodeGpuJob(m, minTs)
  {
    job := FRESH_JOB;
    var offset := -1.0;
    var ptr := m;
    while ptr != []
      invariant FillJob(ptr, job, offset) == FillJob(m, FRESH_JOB, -1.0)
      decreases |ptr|
    {
      var tmp := IndexOf(ptr, ',');
      if tmp.None? {
        job := job.(pid := U32(Atoi(ptr)));
        break;
      }
      ghost var stored := StoreJobField(ptr[..tmp.value], ptr, job, offset);
      if job.name.None? {
        job := job.(name := Some(ptr[..tmp.value]));
      } else if offset < 0.0 {
        offset := Atof(ptr);
      } else if job.id < 0 {
        job := job.(id := Atoi(ptr));
      } else if job.startTs < 0.0 {
        job := job.(startTs := Atof(ptr) / NS_PER_SEC);
      } else if job.stopTs < 0.0 {
        job := job.(stopTs := Atof(ptr) / NS_PER_SEC);
      } else if job.runtimeMs < 0.0 {
        job := job.(runtimeMs := Atof(ptr));
      }
      assert (job, offset) == stored;
      ptr := ptr[tmp.value + 1..];
    }
    job := job.(startTs := job.startTs - (minTs + offset), stopTs := job.stopTs - (minTs + offset));
  }

  // ------------------------------------------------------ GPU payload facts

  /** atof of a field that is a digit run followed by a comma: the run's value. */
  lemma AtofOfDigits(ds: string, tail: string)
    requires ds != [] && AllDigits(ds)
    ensures Atof(ds + "," + tail) == DigitsValue(ds) as real
  {
    var s := ds + ("," + tail);
    assert ds + "," + tail == s;
    assert IsDigit(s[0]);
    assert SkipSpace(s) == s;
    MagnitudeOfDigits(ds, "," + tail);
  }

  /** atof of a field that is a minus sign, a digit run and a comma. */
  lemma AtofOfNegative(ds: string, tail: string)
    requires ds != [] && AllDigits(ds)
    ensures Atof("-" + ds + "," + tail) == -(DigitsValue(ds) as real)
  {
    var s := "-" + (ds + ("," + tail));
    assert "-" + ds + "," + tail == s;
    assert SkipSpace(s) == s;
    assert s[1..] == ds + ("," + tail);
    MagnitudeOfDigits(ds, "," + tail);
  }

  /** strchr finds the comma that ends a comma-free field. */
  lemma {:induction false} IndexOfComma(seg: string, tail: string)
    requires ',' !in seg
    ensures IndexOf(seg + "," + tail, ',') == Some(|seg|)
    decreases |seg|
  {
    var s := seg + "," + tail;
    if seg == [] {
      assert s[0] == ',';
    } else {
      assert s[0] == seg[0] && seg[0] in seg;
      assert s[1..] == seg[1..] + "," + tail;
      IndexOfComma(seg[1..], tail);
    }
  }

  /** One turn of parse_gpu_job's loop: the field before the first comma is
      stored and the loop goes on after that comma. */
  lemma FillJobStep(seg: string, tail: string, job: GpuJob, offset: real)
    requires ',' !in seg
    ensures var st := StoreJobField(seg, seg + "," + tail, job, offset);
      FillJob(seg + "," + tail, job, offset) == FillJob(tail, st.0, st.1)
  {
    var s := seg + "," + tail;
    IndexOfComma(seg, tail);
    assert s[..|seg|] == seg;
    assert s[|seg| + 1..] == tail;
  }

  lemma NoCommaInDec(n: nat)
    ensures ',' !in Dec(n) && Dec(n) != [] && AllDigits(Dec(n))
  {
    DecSpec(n);
    var s := Dec(n);
    forall i | 0 <= i < |s| ensures s[i] != ',' { assert IsDigit(s[i]); }
  }

  /** A numeric field written with %u-style digits reads back as its value. */
  lemma ReadDec(n: nat, tail: string)
    ensures Atof(Dec(n) + "," + tail) == n as real
    ensures n < TWO_31 ==> Atoi(Dec(n) + "," + tail) == n
  {
    NoCommaInDec(n);
    DecRoundTrip(n);
    AtofOfDigits(Dec(n), tail);
    if n < TWO_31 {
      var s := Dec(n) + ("," + tail);
      assert Dec(n) + "," + tail == s;
      StrToLOfDigits(Dec(n), "," + tail);
      assert StrToL(s) == n;
      I32Small(n);
    }
  }

  /** A field the tracer writes with "%f"-style digits (a fraction is
      optional) holds no comma and reads back through atof as its value. */
  lemma ReadDecimal(d: Decimal, tail: string)
    requires d.Valid()
    ensures ',' !in d.Text()
    ensures Atof(d.Text() + "," + tail) == d.Value()
  {
    DecimalTextSpec(d);
    var t := d.Text();
    forall k | 0 <= k < |t| ensures t[k] != ',' {
      assert IsDigit(t[k]) || t[k] == '.';
    }
    var s := t + ("," + tail);
    assert t + "," + tail == s;
    assert s[0] == t[0];
    assert SkipSpace(s) == s;
    MagnitudeOfDecimal(d, "," + tail);
  }

  /** The payload a GPU tracer writes for one job, as the format comment of
      parse_gpu_job describes it: tag, clock offset in seconds, job id, start
      and stop in nanoseconds, runtime in milliseconds, pid. The four atof
      fields may carry a fraction. */
  function GpuPayload(offset: Decimal, id: nat, start: Decimal, stop: Decimal, runtime: Decimal, pid: nat): string {
    "gpu" + "," + (offset.Text() + "," + (Dec(id) + "," + (start.Text() + "," + (stop.Text() + "," + (runtime.Text() + "," + Dec(pid))))))
  }

  /** Decoding a written payload gives the job back: the tag is taken as the
      name, the fields are assigned in order, the final one is the pid, and the
      start and stop stamps become seconds on the trace clock. */
  lemma GpuJobRoundTrip(offset: Decimal, id: nat, start: Decimal, stop: Decimal, runtime: Decimal, pid: nat, minTs: real)
    requires offset.Valid() && start.Valid() && stop.Valid() && runtime.Valid()
    requires id < TWO_31 && pid < TWO_32
    ensures DecodeGpuJob(GpuPayload(offset, id, start, stop, runtime, pid), minTs)
      == GpuJob(Some("gpu"), id, pid,
                start.Value() / NS_PER_SEC - (minTs + offset.Value()),
                stop.Value() / NS_PER_SEC - (minTs + offset.Value()),
                runtime.Value())
  {
    FillPayload(offset, id, start, stop, runtime, pid);
  }

  /** The loop of parse_gpu_job over a written payload, field by field. */
  lemma FillPayload(offset: Decimal, id: nat, start: Decimal, stop: Decimal, runtime: Decimal, pid: nat)
    requires offset.Valid() && start.Valid() && stop.Valid() && runtime.Valid()
    requires id < TWO_31 && pid < TWO_32
    ensures FillJob(GpuPayload(offset, id, start, stop, runtime, pid), FRESH_JOB, -1.0)
      == (GpuJob(Some("gpu"), id, pid, start.Value() / NS_PER_SEC, stop.Value() / NS_PER_SEC, runtime.Value()),
          offset.Value())
  {
    var t3 := start.Text() + "," + (stop.Text() + "," + (runtime.Text() + "," + Dec(pid)));
    var t2 := Dec(id) + "," + t3;
    var t1 := offset.Text() + "," + t2;
    var off := offset.Value();
    var j1 := FRESH_JOB.(name := Some("gpu"));
    calc {
      FillJob(GpuPayload(offset, id, start, stop, runtime, pid), FRESH_JOB, -1.0);
      { FillJobStep("gpu", t1, FRESH_JOB, -1.0); }
      FillJob(t1, j1, -1.0);
      { ReadDecimal(offset, t2); FillJobStep(offset.Text(), t2, j1, -1.0); }
      FillJob(t2, j1, off);
      { NoCommaInDec(id); ReadDec(id, t3); FillJobStep(Dec(id), t3, j1, off); }
      FillJob(t3, j1.(id := id), off);
      { FillStamps(start, stop, runtime, pid, j1.(id := id), off); }
      (GpuJob(Some("gpu"), id, pid, start.Value() / NS_PER_SEC, stop.Value() / NS_PER_SEC, runtime.Value()), off);
    }
  }

  /** The last four fields of a written payload, read once the name, the
      offset and the id are in place: start, stop, runtime, then the pid. */
  lemma FillStamps(start: Decimal, stop: Decimal, runtime: Decimal, pid: nat, job: GpuJob, off: real)
    requires start.Valid() && stop.Valid() && runtime.Valid() && pid < TWO_32
    requires job.name.Some? && off >= 0.0 && job.id >= 0
    requires job.startTs < 0.0 && job.stopTs < 0.0 && job.runtimeMs < 0.0
    ensures FillJob(start.Text() + "," + (stop.Text() + "," + (runtime.Text() + "," + Dec(pid))), job, off)
      == (job.(startTs := start.Value() / NS_PER_SEC, stopTs := stop.Value() / NS_PER_SEC,
               runtimeMs := runtime.Value(), pid := pid), off)
  {
    var t5 := runtime.Text() + "," + Dec(pid);
    var t4 := stop.Text() + "," + t5;
    var j3 := job.(startTs := start.Value() / NS_PER_SEC);
    var j4 := j3.(stopTs := stop.Value() / NS_PER_SEC);
    var j5 := j4.(runtimeMs := runtime.Value());
    calc {
      FillJob(start.Text() + "," + t4, job, off);
      { ReadDecimal(start, t4); FillJobStep(start.Text(), t4, job, off); }
      FillJob(t4, j3, off);
      { ReadDecimal(stop, t5); FillJobStep(stop.Text(), t5, j3, off); }
      FillJob(t5, j4, off);
      { ReadDecimal(runtime, Dec(pid)); FillJobStep(runtime.Text(), Dec(pid), j4, off); }
      FillJob(Dec(pid), j5, off);
      { NoCommaInDec(pid); AtoiOfDec(pid); }
      (j5.(pid := pid), off);
    }
  }

  /** Once a name is stored it stays: later fields never overwrite it. */
  lemma {:induction false} FillJobKeepsName(rest: string, job: GpuJob, offset: real)
    requires job.name.Some?
    ensures FillJob(rest, job, offset).0.name == job.name
    decreases |rest|
  {
    if rest != [] {
      match IndexOf(rest, ',')
      case None =>
      case Some(c) =>
        var st := StoreJobField(rest[..c], rest, job, offset);
        FillJobKeepsName(rest[c + 1..], st.0, st.1);
    }
  }

  /** A payload that starts with a three-letter tag and a comma ("gpu," or
      "mon,") yields a job named by its tag: the name the fallback colour of
      make_job_color reads is never null for it. */
  lemma JobNamedByTag(m: string, minTs: real)
    requires IsGpu(m) || IsMonitor(m)
    ensures DecodeGpuJob(m, minTs).name == Some(m[..3])
  {
    assert m == m[..3] + "," + m[4..];
    FillJobStep(m[..3], m[4..], FRESH_JOB, -1.0);
    FillJobKeepsName(m[4..], FRESH_JOB.(name := Some(m[..3])), -1.0);
  }

  /** The sentinel refill: a clock-offset field that reads as negative leaves
      the offset unset, so the field after it (written as the job id) is read
      as the offset instead. The job id and runtime keep their sentinel -1,
      and start and stop keep theirs before the shift by the clock offset. */
  lemma GpuSentinelRefill(off: nat, a: nat, pid: nat, minTs: real)
    requires off > 0 && pid < TWO_32
    ensures DecodeGpuJob("gpu" + "," + ("-" + Dec(off) + "," + (Dec(a) + "," + Dec(pid))), minTs)
      == GpuJob(Some("gpu"), -1, pid, -1.0 - (minTs + a as real), -1.0 - (minTs + a as real), -1.0)
  {
    var t2 := Dec(a) + "," + Dec(pid);
    var t1 := "-" + Dec(off) + "," + t2;
    var j1 := FRESH_JOB.(name := Some("gpu"));
    calc {
      FillJob("gpu" + "," + t1, FRESH_JOB, -1.0);
      { FillJobStep("gpu", t1, FRESH_JOB, -1.0); }
      FillJob(t1, j1, -1.0);
      { NoCommaInDec(off); DecRoundTrip(off); AtofOfNegative(Dec(off), t2);
        assert "-" + Dec(off) == ['-'] + Dec(off);
        FillJobStep("-" + Dec(off), t2, j1, -1.0); }
      FillJob(t2, j1, -(off as real));
      { NoCommaInDec(a); ReadDec(a, Dec(pid)); FillJobStep(Dec(a), Dec(pid), j1, -(off as real)); }
      FillJob(Dec(pid), j1, a as real);
      { NoCommaInDec(pid); AtoiOfDec(pid); }
      (j1.(pid := pid), a as real);
    }
  }
}
