/** Field splitting for one trace line (skip_blanks, get_field_end, is_eol,
    get_data_field, get_marker_field, parse_task_pid) and the classifiers of a
    marker payload (is_monitor, is_gpu).

    A cursor is an index into the buffer and may run past its end, as the C
    cursor does; the end of the buffer is |buf|. The C code cuts fields out by
    writing NUL over the byte that ends them. Every such write lands at or
    behind the cursor, in the zero fill past the end, or (for a log whose size
    is a multiple of the page size and whose last line has no newline) on the
    first byte past the mapping, where the C code faults and this model does
    not. So the scans here read the original buffer, and a field is its
    [start, stop) range read as a C string (CText.Field). */
module Tokenizer {
  import opened CText

  // --------------------------------------------------------------- scanning

  /** Where skip_blanks stops: the first position at or after p that is the
      end of the buffer or holds a byte other than ' ' and '\t'. A newline is
      not blank, so the scan never crosses a line end. */
  function BlankRunEnd(buf: string, p: int): (q: int)
    decreases |buf| - p
  {
    if 0 <= p < |buf| && IsBlank(buf[p]) then BlankRunEnd(buf, p + 1) else p
  }

  lemma {:induction false} BlankRunEndSpec(buf: string, p: int)
    ensures p <= BlankRunEnd(buf, p)
    ensures p < BlankRunEnd(buf, p) ==> 0 <= p && BlankRunEnd(buf, p) <= |buf|
    ensures forall k | p <= k < BlankRunEnd(buf, p) :: 0 <= k < |buf| && IsBlank(buf[k])
    ensures BlankRunEnd(buf, p) < |buf| ==> BlankRunEnd(buf, p) < 0 || !IsBlank(buf[BlankRunEnd(buf, p)])
    decreases |buf| - p
  {
    if 0 <= p < |buf| && IsBlank(buf[p]) {
      BlankRunEndSpec(buf, p + 1);
    }
  }

  /** skip_blanks */
  method SkipBlanks(buf: string, p: int) returns (q: int)
    ensures q == BlankRunEnd(buf, p)
  {
    q := p;
    while 0 <= q < |buf| && IsBlank(buf[q])
      invariant p <= q
      invariant BlankRunEnd(buf, q) == BlankRunEnd(buf, p)
      decreases |buf| - q
    {
      q := q + 1;
    }
  }

  /** Where get_field_end stops: the first position at or after p that is the
      end of the buffer or holds white space (newline included). */
  function WordEnd(buf: string, p: int): (q: int)
    decreases |buf| - p
  {
    if 0 <= p < |buf| && !IsSpace(buf[p]) then WordEnd(buf, p + 1) else p
  }

  lemma {:induction false} WordEndSpec(buf: string, p: int)
    ensures p <= WordEnd(buf, p)
    ensures p < WordEnd(buf, p) ==> 0 <= p && WordEnd(buf, p) <= |buf|
    ensures forall k | p <= k < WordEnd(buf, p) :: 0 <= k < |buf| && !IsSpace(buf[k])
    ensures WordEnd(buf, p) < |buf| ==> WordEnd(buf, p) < 0 || IsSpace(buf[WordEnd(buf, p)])
    decreases |buf| - p
  {
    if 0 <= p < |buf| && !IsSpace(buf[p]) {
      WordEndSpec(buf, p + 1);
    }
  }

  /** get_field_end */
  method GetFieldEnd(buf: string, p: int) returns (q: int)
    ensures q == WordEnd(buf, p)
  {
    q := p;
    while 0 <= q < |buf| && !IsSpace(buf[q])
      invariant p <= q
      invariant WordEnd(buf, q) == WordEnd(buf, p)
      decreases |buf| - q
    {
      q := q + 1;
    }
  }

  /** is_eol */
  predicate IsEol(c: char) { c == '\n' || c == '\r' }

  /** Where the marker scan of get_marker_field stops: the first position at or
      after p that is the end of the buffer or holds '\n' or '\r'. */
  function LineEnd(buf: string, p: int): (q: int)
    decreases |buf| - p
  {
    if 0 <= p < |buf| && !IsEol(buf[p]) then LineEnd(buf, p + 1) else p
  }

  lemma {:induction false} LineEndSpec(buf: string, p: int)
    ensures p <= LineEnd(buf, p)
    ensures p < LineEnd(buf, p) ==> 0 <= p && LineEnd(buf, p) <= |buf|
    ensures forall k | p <= k < LineEnd(buf, p) :: 0 <= k < |buf| && !IsEol(buf[k])
    ensures LineEnd(buf, p) < |buf| ==> LineEnd(buf, p) < 0 || IsEol(buf[LineEnd(buf, p)])
    decreases |buf| - p
  {
    if 0 <= p < |buf| && !IsEol(buf[p]) {
      LineEndSpec(buf, p + 1);
    }
  }

  /** The span [start, stop) of one field. */
  datatype Span = Span(start: int, stop: int)

  /** The field get_data_field cuts out at cursor p: leading blanks skipped,
      then everything up to the next white space. */
  function DataField(buf: string, p: int): Span
  {
    var s := BlankRunEnd(buf, p);
    Span(s, WordEnd(buf, s))
  }

  /** get_data_field: returns the field's first position and (C's *next) the
      position just past it. */
  method GetDataField(buf: string, p: int) returns (start: int, next: int)
    ensures start == DataField(buf, p).start && next == DataField(buf, p).stop
  {
    start := SkipBlanks(buf, p);
    next := GetFieldEnd(buf, start);
  }

  /** A data field: blanks before it, no white space in it, and white space
      or the end of the buffer right after it. */
  lemma DataFieldSpec(buf: string, p: int)
    ensures p <= DataField(buf, p).start <= DataField(buf, p).stop
    ensures DataField(buf, p).start < DataField(buf, p).stop ==> 0 <= DataField(buf, p).start && DataField(buf, p).stop <= |buf|
    ensures forall k | p <= k < DataField(buf, p).start :: 0 <= k < |buf| && IsBlank(buf[k])
    ensures forall k | DataField(buf, p).start <= k < DataField(buf, p).stop :: 0 <= k < |buf| && !IsSpace(buf[k])
    ensures DataField(buf, p).stop < |buf| ==> DataField(buf, p).stop < 0 || IsSpace(buf[DataField(buf, p).stop])
  {
    BlankRunEndSpec(buf, p);
    WordEndSpec(buf, BlankRunEnd(buf, p));
  }

  /** A word written at the cursor and ended by white space is the field
      get_data_field cuts out there, and the next call resumes right after
      the white space. */
  lemma WordAt(buf: string, p: int, w: string, tail: string)
    requires 0 <= p <= |buf| && buf[p..] == w + tail
    requires w != [] && NoSpace(w) && '\0' !in w
    requires tail != [] && IsSpace(tail[0])
    ensures DataField(buf, p) == Span(p, p + |w|)
    ensures Field(buf, p, p + |w|) == w
    ensures p + |w| < |buf| && buf[p + |w| + 1..] == tail[1..]
  {
    var q := p + |w|;
    assert buf[p..q] == w;
    WordSpan(buf, p, q);
    CStrOfNulFree(w);
    assert buf[q] == tail[0];
  }

  /** A stretch free of white space, starting at the cursor and ended by
      white space, is the field get_data_field cuts out there. */
  lemma WordSpan(buf: string, p: int, q: int)
    requires 0 <= p < q < |buf| && NoSpace(buf[p..q]) && IsSpace(buf[q])
    ensures DataField(buf, p) == Span(p, q)
  {
    assert buf[p] == buf[p..q][0];
    assert BlankRunEnd(buf, p) == p;
    WordEndSpec(buf, p);
    assert forall k | p <= k < q :: buf[k] == buf[p..q][k - p];
  }

  /** Where the i-th of a run of successive get_data_field calls starts, the
      run starting at cursor p: each call resumes one byte past the end of the
      field before it (past the NUL the previous call wrote). */
  function Cursor(buf: string, p: int, i: nat): int {
    if i == 0 then p else DataField(buf, Cursor(buf, p, i - 1)).stop + 1
  }

  /** The i-th field of such a run. */
  function NthField(buf: string, p: int, i: nat): Span {
    DataField(buf, Cursor(buf, p, i))
  }

  /** The text of that field, as the C string the parser reads. */
  function NthText(buf: string, p: int, i: nat): string {
    var f := NthField(buf, p, i);
    Field(buf, f.start, f.stop)
  }

  /** A word get_data_field can cut out: nonempty, no white space, no NUL. */
  predicate IsWord(w: string) { w != [] && NoSpace(w) && '\0' !in w }

  /** The i-th call of a run lands on a word written there and followed by
      one white-space byte: it reads the word, and the next call starts right
      after that byte. */
  lemma WordField(buf: string, p: int, i: nat, w: string, sep: char, more: string)
    requires 0 <= Cursor(buf, p, i) <= |buf| && buf[Cursor(buf, p, i)..] == w + ([sep] + more)
    requires IsWord(w) && IsSpace(sep)
    ensures NthText(buf, p, i) == w
    ensures 0 <= Cursor(buf, p, i + 1) <= |buf| && buf[Cursor(buf, p, i + 1)..] == more
    ensures Cursor(buf, p, i + 1) == Cursor(buf, p, i) + |w| + 1
  {
    var c := Cursor(buf, p, i);
    WordAt(buf, c, w, [sep] + more);
    assert ([sep] + more)[1..] == more;
    assert NthField(buf, p, i) == Span(c, c + |w|);
  }

  /** The fields of a run lie one after another, each starting after the
      previous one ends, so every call after the first starts past p. */
  lemma {:induction false} CursorAdvances(buf: string, p: int, i: nat)
    ensures p <= Cursor(buf, p, i) <= NthField(buf, p, i).start <= NthField(buf, p, i).stop
    ensures i > 0 ==> p < Cursor(buf, p, i)
  {
    if i > 0 {
      CursorAdvances(buf, p, i - 1);
    }
    DataFieldSpec(buf, Cursor(buf, p, i));
  }

  /** The marker payload get_marker_field cuts out at cursor p: leading
      blanks skipped, then the rest of the line, blanks and all. */
  function MarkerField(buf: string, p: int): Span
  {
    var s := BlankRunEnd(buf, p);
    Span(s, LineEnd(buf, s))
  }

  /** A payload written at the cursor, not opening with a blank and ended by
      an end-of-line byte, is the marker field get_marker_field cuts out
      there, and it reads back unchanged as a C string. */
  lemma PayloadAt(buf: string, p: int, payload: string, tail: string)
    requires 0 <= p <= |buf| && buf[p..] == payload + tail
    requires payload == [] || !IsBlank(payload[0])
    requires forall k | 0 <= k < |payload| :: !IsEol(payload[k])
    requires '\0' !in payload
    requires tail != [] && IsEol(tail[0])
    ensures MarkerField(buf, p) == Span(p, p + |payload|)
    ensures Field(buf, p, p + |payload|) == payload
  {
    var q := p + |payload|;
    assert buf[p..q] == payload;
    assert buf[q] == tail[0];
    assert buf[p] == (payload + tail)[0];
    assert BlankRunEnd(buf, p) == p;
    LineEndAt(buf, p, q);
    CStrOfNulFree(payload);
  }

  /** The marker scan from p stops at the first end-of-line byte. */
  lemma LineEndAt(buf: string, p: int, q: int)
    requires 0 <= p <= q < |buf| && IsEol(buf[q])
    requires forall k | 0 <= k < q - p :: !IsEol(buf[p..q][k])
    ensures LineEnd(buf, p) == q
  {
    LineEndSpec(buf, p);
    assert forall k | p <= k < q :: buf[k] == buf[p..q][k - p];
  }

  /** get_marker_field. Its "unexpected end of data" branch tests the result
      of skip_blanks for null, which skip_blanks never returns: the branch is
      dead and has no counterpart here. */
  method GetMarkerField(buf: string, p: int) returns (start: int, next: int)
    ensures start == MarkerField(buf, p).start && next == MarkerField(buf, p).stop
  {
    start := SkipBlanks(buf, p);
    next := start;
    while 0 <= next < |buf| && !IsEol(buf[next])
      invariant start <= next
      invariant LineEnd(buf, next) == LineEnd(buf, start)
      decreases |buf| - next
    {
      next := next + 1;
    }
  }

  /** strchr(p, '\n') as init_data uses it to skip a comment line: the first
      '\n' of the C string at p, or None when a NUL (at the latest the zero
      fill past the end) comes first. */
  function NewlineFrom(buf: string, p: nat): (r: Option<nat>)
    ensures r.Some? ==> p <= r.value < |buf| && buf[r.value] == '\n'
    ensures r.Some? ==> forall k | p <= k < r.value :: buf[k] != '\n' && buf[k] != '\0'
    ensures r.None? ==> '\n' !in CStr(Slice(buf, p, |buf|))
    decreases |buf| - p
  {
    if p >= |buf| || buf[p] == '\0' then None
    else if buf[p] == '\n' then Some(p)
    else
      var r := NewlineFrom(buf, p + 1);
      assert Slice(buf, p, |buf|)[1..] == Slice(buf, p + 1, |buf|);
      r
  }

  // -------------------------------------------------------------- classifiers

  /** is_monitor: the payload starts with the tag "mon,". The C test reads four
      bytes but stops at the first mismatch, so on a shorter C string it stops
      at the terminating NUL: the test is exactly "at least four bytes and this
      prefix". */
  predicate IsMonitor(m: string) { |m| >= 4 && m[..4] == "mon," }

  /** is_gpu: the payload starts with the tag "gpu,". */
  predicate IsGpu(m: string) { |m| >= 4 && m[..4] == "gpu," }

  // ---------------------------------------------------------------- task-pid

  /** Position k holds a digit and k - 1 a dash. */
  predicate DashDigit(buf: string, k: int) {
    k >= 1 && IsDigit(At(buf, k)) && At(buf, k - 1) == '-'
  }

  /** The downward scan of parse_task_pid from position t: the highest k with
      start < k <= t at which a digit follows a dash. */
  function ScanDashDigit(buf: string, start: int, t: int): Option<int>
    decreases t - start
  {
    if t <= start then None
    else if DashDigit(buf, t) then Some(t)
    else ScanDashDigit(buf, start, t - 1)
  }

  /** The scan finds the highest dash-digit position in (start, t], if any. */
  lemma {:induction false} ScanDashDigitSpec(buf: string, start: int, t: int)
    ensures var r := ScanDashDigit(buf, start, t);
      && (r.Some? ==> start < r.value <= t && DashDigit(buf, r.value))
      && (r.Some? ==> forall k: int | r.value < k <= t :: !DashDigit(buf, k))
      && (r.None? ==> forall k: int | start < k <= t :: !DashDigit(buf, k))
    decreases t - start
  {
    if t > start && !DashDigit(buf, t) {
      ScanDashDigitSpec(buf, start, t - 1);
    }
  }

  /** Where the scan's answer lies. */
  lemma ScanDashDigitRange(buf: string, start: int, t: int)
    ensures ScanDashDigit(buf, start, t).Some? ==> start < ScanDashDigit(buf, start, t).value <= t
  {
    ScanDashDigitSpec(buf, start, t);
  }

  /** Conversely, a dash-digit position with none above it up to t is what
      the scan finds. */
  lemma {:induction false} ScanFindsHighest(buf: string, start: int, t: int, k: int)
    requires start < k <= t && DashDigit(buf, k)
    requires forall j: int | k < j <= t :: !DashDigit(buf, j)
    ensures ScanDashDigit(buf, start, t) == Some(k)
    decreases t - start
  {
    if t > k {
      ScanFindsHighest(buf, start, t - 1, k);
    }
  }

  /** The task and pid decoded from a "<task>-<pid>" field. */
  datatype TaskPid = TaskPid(task: string, pid: nat)

  /** What parse_task_pid decodes from the field [start, stop). It succeeds
      exactly when some k with start < k < stop holds a digit right after a
      dash; it takes the rightmost such k. The pid is atoi of the bytes from k
      on, stored in a uint32_t; the task is the C string before the dash (the
      dash is overwritten with NUL). */
  function DecodeTaskPid(buf: string, start: int, stop: int): Option<TaskPid> {
    match ScanDashDigit(buf, start, stop - 1)
    case None => None
    case Some(k) => Some(TaskPid(Field(buf, start, k - 1), U32(Atoi(Field(buf, k, stop)))))
  }

  /** The decoding succeeds exactly when a digit follows a dash somewhere
      inside the field, and then splits the field at the rightmost such dash. */
  lemma DecodeTaskPidSpec(buf: string, start: int, stop: int)
    ensures DecodeTaskPid(buf, start, stop).None? <==> forall k: int | start < k < stop :: !DashDigit(buf, k)
    ensures DecodeTaskPid(buf, start, stop).Some? ==> exists k: int | start < k < stop ::
      && DashDigit(buf, k)
      && (forall j: int | k < j < stop :: !DashDigit(buf, j))
      && DecodeTaskPid(buf, start, stop).value == TaskPid(Field(buf, start, k - 1), U32(Atoi(Field(buf, k, stop))))
  {
    ScanDashDigitSpec(buf, start, stop - 1);
    var r := ScanDashDigit(buf, start, stop - 1);
    if r.Some? {
      DecodeAtScan(buf, start, stop, r.value);
    }
  }

  /** The decoding splits the field where the scan stopped. */
  lemma DecodeAtScan(buf: string, start: int, stop: int, k: int)
    requires ScanDashDigit(buf, start, stop - 1) == Some(k)
    ensures start < k < stop && DashDigit(buf, k) && (forall j: int | k < j < stop :: !DashDigit(buf, j))
    ensures DecodeTaskPid(buf, start, stop).value == TaskPid(Field(buf, start, k - 1), U32(Atoi(Field(buf, k, stop))))
  {
    ScanDashDigitSpec(buf, start, stop - 1);
  }

  /** parse_task_pid: the scan runs from stop - 1 down to start + 1. */
  method ParseTaskPid(buf: string, start: int, stop: int) returns (ok: bool, task: string, pid: nat)
    ensures ok <==> DecodeTaskPid(buf, start, stop).Some?
    ensures ok ==> DecodeTaskPid(buf, start, stop).value == TaskPid(task, pid)
  {
    var t := stop - 1;
    while t > start
      invariant ScanDashDigit(buf, start, t) == ScanDashDigit(buf, start, stop - 1)
      decreases t - start
    {
      if IsDigit(At(buf, t)) && At(buf, t - 1) == '-' {
        task := Field(buf, start, t - 1);
        DecodeAtDash(buf, start, stop, t, task, Field(buf, t, stop));
        pid := U32(Atoi(Field(buf, t, stop)));
        return true, task, pid;
      }
      t := t - 1;
    }
    return false, [], 0;
  }

  /** In a field spelled "<comm>-<digits>", the dash before the digits is the
      rightmost dash-digit: every later position has a digit before it. */
  lemma RightmostDashDigit(buf: string, start: nat, stop: nat, comm: string, d: string)
    requires start <= stop <= |buf|
    requires buf[start..stop] == comm + "-" + d
    requires d != [] && AllDigits(d)
    ensures ScanDashDigit(buf, start, stop - 1) == Some(start + |comm| + 1)
  {
    var w := buf[start..stop];
    var k := start + |comm| + 1;
    assert w[|comm|] == '-' && w[|comm| + 1] == d[0];
    assert DashDigit(buf, k);
    forall j: int | k < j < stop ensures !DashDigit(buf, j) {
      assert w[j - 1 - start] == d[j - 1 - k];
      assert IsDigit(d[j - 1 - k]);
    }
    ScanFindsHighest(buf, start, stop - 1, k);
  }

  lemma SliceOfSpelling(buf: string, start: nat, stop: nat, comm: string, d: string)
    requires start <= stop <= |buf|
    requires buf[start..stop] == comm + "-" + d
    ensures Slice(buf, start, start + |comm|) == comm
    ensures Slice(buf, start + |comm| + 1, stop) == d
  {
    var w := buf[start..stop];
    assert buf[start..start + |comm|] == w[..|comm|];
    assert buf[start + |comm| + 1..stop] == w[|comm| + 1..];
  }

  lemma U32OfI32(x: int)
    requires 0 <= x < TWO_32
    ensures U32(I32(x)) == x
  {
  }

  /** atoi reads back the decimal spelling of a uint32_t value. */
  lemma AtoiOfDec(n: nat)
    requires n < TWO_32
    ensures U32(Atoi(Dec(n))) == n
  {
    var d := Dec(n);
    DecSpec(n);
    StrToLOfDigits(d, []);
    assert d + [] == d;
    DecRoundTrip(n);
    assert StrToL(d) == n;
    U32OfI32(n);
  }

  /** The two parts of a "<comm>-<digits>" field, read as C strings. */
  lemma FieldsOfSpelling(buf: string, start: nat, stop: nat, comm: string, d: string, k: int)
    requires start <= stop <= |buf|
    requires buf[start..stop] == comm + "-" + d
    requires '\0' !in comm && '\0' !in d
    requires k == start + |comm| + 1
    ensures Field(buf, start, k - 1) == comm
    ensures Field(buf, k, stop) == d
  {
    SliceOfSpelling(buf, start, stop, comm, d);
    assert k - 1 == start + |comm|;
    CStrOfNulFree(comm);
    CStrOfNulFree(d);
  }

  /** A field "<comm>-<digits>" decodes to the comm and atoi of the digits. */
  lemma DecodeSpelling(buf: string, start: nat, stop: nat, comm: string, d: string)
    requires start <= stop <= |buf|
    requires buf[start..stop] == comm + "-" + d
    requires '\0' !in comm && d != [] && AllDigits(d)
    ensures DecodeTaskPid(buf, start, stop) == Some(TaskPid(comm, U32(Atoi(d))))
  {
    var k := start + |comm| + 1;
    RightmostDashDigit(buf, start, stop, comm, d);
    DigitsNulFree(d);
    FieldsOfSpelling(buf, start, stop, comm, d, k);
    DecodeAtDash(buf, start, stop, k, comm, d);
  }

  /** ftrace writes this field as "<comm>-<pid>". Decoding such a field gives
      back the comm and the pid, whatever dashes and digits the comm itself
      holds: the rightmost dash-digit is the one before the pid. */
  lemma TaskPidRoundTrip(buf: string, start: nat, stop: nat, comm: string, pid: nat)
    requires start <= stop <= |buf|
    requires buf[start..stop] == comm + "-" + Dec(pid)
    requires '\0' !in comm && pid < TWO_32
    ensures DecodeTaskPid(buf, start, stop) == Some(TaskPid(comm, pid))
  {
    DecSpec(pid);
    DecodeSpelling(buf, start, stop, comm, Dec(pid));
    AtoiOfDec(pid);
  }

  lemma DecodeAtDash(buf: string, start: int, stop: int, k: int, task: string, digits: string)
    requires ScanDashDigit(buf, start, stop - 1) == Some(k)
    requires Field(buf, start, k - 1) == task && Field(buf, k, stop) == digits
    ensures DecodeTaskPid(buf, start, stop) == Some(TaskPid(task, U32(Atoi(digits))))
  {
  }
}
