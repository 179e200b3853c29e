# ftrace-viewer trace parser, modelled in Dafny

This project models the part of ftrace-viewer that turns an ftrace text log into
the timeline the viewer draws (`src/ftrace-plotter.h`, lines 147–689). The log
is a mapped byte buffer read in one pass by `init_data`. The pass works like this:

- Comment lines (`#`) are skipped.
- Every other line is split into the ftrace header:
  `<task>-<pid> [<cpu>] <flags> <timestamp>: <function>`.
- A line whose function is `tracing_mark_write:` is a user-space marker.
  - Its payload is the rest of the line: a monitor sample (`mon,<count>,<label>`),
    a GPU job (`gpu,<offset>,<id>,<start_ns>,<stop_ns>,<runtime_ms>,<pid>`) or a plain label.
  - A plain label becomes a marker label on its process's axis.
- Any other line is a scheduler event with six more fields.
- Every record, plain labels included, is resolved to a y axis:
  - one axis per process, plus one shared GPU axis;
  - axes are numbered by a counter and coloured by `generate_color`;
  - so a plain label from a process not seen before creates an empty axis.
- A plain label then goes to `update_y_markers`. Any other record becomes a point
  on its axis and an entry of `plot_data`.
- At the end, `max_x` is the span of `plot_data`, and `sort_y_axes` rebuilds the
  axis list grouped by name, giving each axis its list name (`*`, `=`, `#` or blank, then the name).

## How the model is laid out

- `ctext.dfy` (`CText`) covers the C library behaviour the parser relies on:
  - `<ctype.h>` classes;
  - reads through a cursor, with the zero fill past the end of the mapping;
  - NUL-terminated views of a byte range;
  - `uint8_t`/`uint16_t`/`uint32_t`/`int32_t` conversions;
  - `std::to_string`;
  - `atoi`/`atol`/`atoll`/`atof` as functions of the digit prefix;
  - `Decimal`, a number as a `%f`-style conversion spells it, for the payloads a tracer writes.
- `tokenizer.dfy` (`Tokenizer`) covers the field scanners and the payload classifiers:
  - `skip_blanks`, `get_field_end`, `is_eol`, `get_data_field`, `get_marker_field`;
  - `is_monitor`, `is_gpu`;
  - `parse_task_pid`;
  - the `strchr` that skips a comment line.
- `records.dfy` (`Records`) covers `struct plot_data` and the decoding of one line:
  - the header;
  - `init_marker_data` and `init_info_data`;
  - the monitor value;
  - `parse_gpu_job`.
- `colors.dfy` (`Colors`) covers `generate_color`, in exact 8-bit arithmetic.
- `timeline.dfy` (`Timeline`) covers the axes and the model as values:
  - `set_axis_name`, `update_y_axis`, `make_job_color`, `add_data_point`,
    `update_y_markers`, `add_items` and `sort_y_axes`, written as functions on the model;
  - the invariant of the axis registry.
- `driver.dfy` (`Driver`) covers `init_data` as a function of the buffer:
  - one loop turn (`Step`), the loop (`Loop`) and the outcome (`InitData`);
  - the soundness of the model it builds.
- `plot.dfy` (`PlotState`) is the global `plot_` as the class `Plot`. Its methods
  update the fields in place with the source's loops. Each method is proved to
  leave `plot_` in the state the corresponding `Timeline` or `Driver` function
  describes.

`init_data` can end in three ways, modelled by `Outcome`:

- `Parsed`: the model and `max_x`.
- `Malformed`: false at a task-pid field without a dash-digit, with the model built so far.
- `Crashed`: one of the inputs on which the C code dereferences null or reads an empty vector:
  - a comment without a newline;
  - a GPU-axis record without a payload;
  - an empty `plot_data`.

`make_job_color` also dereferences a null job name (the fault `JobWithoutName` of
`Timeline.JobColor`), but `init_data` never reaches it: a record placed on the GPU axis has
a payload that starts with its tag, or none at all (`Driver.InitDataNamesJobs`).

## Model

| member | source | states |
|---|---|---|
| Tokenizer.BlankRunEndSpec | src/ftrace-plotter.h:195-205 | skip_blanks stops at the first position that is the end or holds a non-blank byte; every byte it skipped is a blank, so it never crosses a newline |
| Tokenizer.SkipBlanks | src/ftrace-plotter.h:195-205 | the loop returns exactly the stopping position BlankRunEndSpec characterises |
| Tokenizer.WordEndSpec | src/ftrace-plotter.h:224-234 | get_field_end stops at the first white-space byte or the end; every byte before it is not white space |
| Tokenizer.GetFieldEnd | src/ftrace-plotter.h:224-234 | the loop returns exactly that position |
| Tokenizer.LineEndSpec | src/ftrace-plotter.h:207-210 | the marker scan stops at the first '\n' or '\r' (is_eol) or the end, and passes no end-of-line byte |
| Tokenizer.GetMarkerField | src/ftrace-plotter.h:282-299 | get_marker_field returns the payload start after the blanks and the end of the line |
| Tokenizer.LineEndAt | src/ftrace-plotter.h:289-295 | the marker scan stops exactly at the first end-of-line byte after the cursor |
| Tokenizer.PayloadAt | src/ftrace-plotter.h:282-299 | a payload written at the cursor, not opening with a blank and ended by an end-of-line byte, is the marker field returned, and it reads back unchanged as a C string |
| Tokenizer.DataFieldSpec | src/ftrace-plotter.h:301-311 | a data field lies after a run of blanks, holds no white space and is followed by white space or the end |
| Tokenizer.GetDataField | src/ftrace-plotter.h:301-311 | get_data_field returns that field's start and end |
| Tokenizer.WordSpan | src/ftrace-plotter.h:301-311 | a stretch without white space that starts at the cursor and is followed by white space is exactly the field get_data_field returns there |
| Tokenizer.WordAt | src/ftrace-plotter.h:301-311 | a word written at the cursor and ended by white space is the field returned, it reads back unchanged as a C string, and the text after its separator is what follows |
| Tokenizer.WordField | src/ftrace-plotter.h:301-311 | the i-th call of a run over a written word reads that word, and the next call starts one byte past it, just after its separator |
| Tokenizer.CursorAdvances | src/ftrace-plotter.h:596-635 | in a run of fields, each read after the previous one ends, every cursor after the first lies strictly past the line start |
| Tokenizer.NewlineFrom | src/ftrace-plotter.h:588-592 | strchr finds the first '\n' of the C string at the cursor; None means the C string holds no newline |
| Tokenizer.ScanDashDigitSpec | src/ftrace-plotter.h:236-253 | the downward scan returns the highest position in range with a digit after a dash, or None when there is none |
| Tokenizer.ScanFindsHighest | src/ftrace-plotter.h:236-253 | conversely, the highest dash-digit position is the one the scan returns |
| Tokenizer.DecodeAtScan | src/ftrace-plotter.h:236-253 | decoding splits the field where the scan stops: a dash-digit position with no other to its right, the task before the dash and atoi of the rest as the pid |
| Tokenizer.DecodeTaskPidSpec | src/ftrace-plotter.h:236-253 | parsing fails iff no digit follows a dash inside the field; otherwise task and pid are split at the rightmost dash-digit |
| Tokenizer.ParseTaskPid | src/ftrace-plotter.h:236-253 | the loop succeeds exactly when the decoding does, with the same task and pid |
| Tokenizer.RightmostDashDigit | src/ftrace-plotter.h:236-253 | in a field spelled comm-digits, the scan finds the dash before the digits, whatever dashes the comm holds |
| Tokenizer.AtoiOfDec | src/ftrace-plotter.h:245 | atoi stored into a uint32_t reads back a decimal pid |
| Tokenizer.DecodeSpelling | src/ftrace-plotter.h:236-253 | a field comm-digits decodes to the comm and atoi of the digits |
| Tokenizer.TaskPidRoundTrip | src/ftrace-plotter.h:236-253 | decoding the field ftrace writes as comm-pid gives back that comm and pid |
| Records.FieldNoSpace | src/ftrace-plotter.h:301-311 | any part of a data field, read as a C string, holds no white space |
| Records.DecodeHeaderMalformed | src/ftrace-plotter.h:596-603 | a line header is rejected exactly when its first field has no digit after a dash |
| Records.TaskPidNoSpace | src/ftrace-plotter.h:236-253 | the task cut out of the first field holds no white space |
| Records.TaskNoSpace | src/ftrace-plotter.h:236-253 | the task decoded from a stretch without white space holds none |
| Records.DecodeHeaderTask | src/ftrace-plotter.h:596-605 | a decoded header's task holds no white space and its pid fits 32 bits |
| Records.DecodeHeaderAdvances | src/ftrace-plotter.h:596-635 | after a decoded header the cursor lies past the line start |
| Records.ParseLineHead | src/ftrace-plotter.h:594-635 | the header part of init_data's loop body yields the decoded header, or None at a malformed task-pid field |
| Records.DecodeMarkerSpec | src/ftrace-plotter.h:644-656 | a marker record carries the rest of the line verbatim; its flags classify the payload; its comm is the task, or "gpu" for a GPU job |
| Records.InitMarkerData | src/ftrace-plotter.h:514-525 | init_marker_data and the classification after it yield that record and the cursor past the payload's end |
| Records.MarkerRoundTrip | src/ftrace-plotter.h:514-525 | decoding a marker line whose payload was written after the header gives back that payload as the marker, monitor and gpu set by its tag, comm "gpu" exactly for a GPU job, and the cursor just past the newline |
| Records.DecodeInfoSpec | src/ftrace-plotter.h:527-574 | a scheduler record is well formed, carries the scheduler fields, and its cursor moves on |
| Records.NumbersFields | src/ftrace-plotter.h:527-574 | over a line written as decimal numbers and a final word, each separated by one space, the run of get_data_field calls reads every number's spelling in order, then the word, and the call after the word starts just past the newline |
| Records.InfoRoundTrip | src/ftrace-plotter.h:527-574 | decoding a scheduler line written as "ts pid arrived cpu pcount comm" gives back ts (and ts/1e9), pid, cpu and pcount in their members' widths, arrived as true exactly when written nonzero, comm unchanged, and the cursor just past the line's newline |
| Records.InitInfoData | src/ftrace-plotter.h:527-574 | the six reads store ts, pid, arrived, cpu, pcount and comm in their members' widths |
| Records.MonitorRoundTrip | src/ftrace-plotter.h:443-445 | a payload written as "mon,%zu,label" is a monitor sample, and its value reads back as the count (saturated at LONG_MAX) |
| Records.IndexOf | src/ftrace-plotter.h:338 | strchr returns the first comma, or None when the rest holds no comma |
| Records.IndexOfComma | src/ftrace-plotter.h:338 | strchr finds the comma that ends a comma-free field |
| Records.ParseGpuJob | src/ftrace-plotter.h:328-369 | the loop over the comma fields yields exactly the decoded job |
| Records.FillJobStep | src/ftrace-plotter.h:336-359 | one loop turn stores the field before the first comma into the first slot still at its sentinel, then continues after that comma |
| Records.AtofOfDigits | src/ftrace-plotter.h:347 | atof of a digit run ended by a comma is the run's value |
| Records.AtofOfNegative | src/ftrace-plotter.h:347 | atof of a minus sign and a digit run ended by a comma is minus the run's value |
| Records.ReadDec | src/ftrace-plotter.h:347-355 | a numeric field written in decimal reads back as its value through atof, and through atoi when it fits int32_t |
| CText.MagnitudeOfDecimal | src/ftrace-plotter.h:347 | the digits a "%f"-style conversion writes, with or without a fraction, read back through atof's magnitude as the number's value |
| Records.ReadDecimal | src/ftrace-plotter.h:347-357 | such a field holds no comma, and atof of it and the rest of the payload is its value |
| Records.FillPayload | src/ftrace-plotter.h:330-359 | the fields of a written payload land in name, offset, id, start, stop, runtime, with the last one as the pid; the offset, start, stop and runtime may carry fractions |
| Records.FillStamps | src/ftrace-plotter.h:350-359 | with name, offset and id in place, the start, stop and runtime fields land in their slots (start and stop divided by 1e9) and the last field is the pid |
| Records.GpuJobRoundTrip | src/ftrace-plotter.h:328-369 | decoding a written payload, whose offset, start, stop and runtime may carry fractions, gives the job back: the tag is taken as the name, and start and stop become ns/1e9 - (min_ts + offset) |
| Records.FillJobKeepsName | src/ftrace-plotter.h:343-356 | once the name is stored, later fields never overwrite it |
| Records.JobNamedByTag | src/ftrace-plotter.h:343-345 | a payload starting with "gpu," or "mon," yields a job named by its three-letter tag |
| Records.GpuSentinelRefill | src/ftrace-plotter.h:346-356 | an offset field that reads as negative leaves the offset unset, so the next field is read as the offset and the id, start, stop and runtime keep their sentinels |
| Colors.PackChannels | src/ftrace-plotter.h:191 | the packed colour fits 32 bits, has alpha 0xff, and its channels are the uint8_t values packed |
| Colors.GenerateColorBranch | src/ftrace-plotter.h:156-189 | the branch taken is the raise/lower pattern for id % 5; the branches for 5, 6, 7 and the else are never taken |
| Colors.GenerateColorSpec | src/ftrace-plotter.h:147-193 | the colour uses base colour id % 11 and moves each channel up by 10·id or down by 20·id with 8-bit wrap-around, as the pattern for id % 5 says; alpha is 0xff |
| Timeline.AxisNamePid | src/ftrace-plotter.h:371-377 | an axis name ends in the decimal pid, and no process axis is named like the GPU axis |
| Timeline.FindAxisSpec | src/ftrace-plotter.h:381-394 | the lookup returns the first axis that passes update_y_axis's test, or None when none does |
| Timeline.RegistryNames | src/ftrace-plotter.h:371-416 | in a registry the axis names are pairwise distinct |
| Timeline.ResolveFrame | src/ftrace-plotter.h:379-416 | update_y_axis only renames existing axes or appends one, and appends exactly when no axis matches; the record changes only in its uint8_t id |
| Timeline.ResolveRegistry | src/ftrace-plotter.h:379-416 | update_y_axis keeps the registry invariant: counter = number of axes, one GPU axis at gpu_plot_id, distinct process pids, names ending in the pid, markers and labels paired, max_y bounding the points |
| Timeline.ResolveIndex | src/ftrace-plotter.h:379-416 | with at most 256 axes the record's id names an axis that passes its test, a process axis is renamed after the record's comm, and no other axis changes |
| Timeline.ResolvePast256 | src/ftrace-plotter.h:396-397 | the 257th axis is appended, but the uint8_t id of its record wraps to 0 and names an axis that does not match |
| Timeline.RegistryRename | src/ftrace-plotter.h:385-392 | renaming a process axis after a comm keeps the registry |
| Timeline.RegistryAppend | src/ftrace-plotter.h:396-415 | appending a fresh axis for an unmatched record keeps the registry |
| Timeline.JobColorSpec | src/ftrace-plotter.h:313-326 | the job colour is that of the first axis of the job's pid; only a job of no known process falls back to the hash of name + id, and only a nameless one faults |
| Timeline.AddPointFrame | src/ftrace-plotter.h:418-453 | only the record's axis changes; its monitor and gpu flags are only raised; exactly one point is appended except on a monitor axis for a record without payload; a fault only on a GPU axis |
| Timeline.AddPointContents | src/ftrace-plotter.h:433-447 | a GPU point takes x, xx, cpu and pid from the decoded job; a scheduler point copies ts, cpu and arrived; a monitor point's y is the sample and max_y becomes the larger of the two |
| Timeline.AddPointRegistry | src/ftrace-plotter.h:418-453 | add_data_point keeps the registry invariant, including max_y ≥ 0 and ≥ every y |
| Timeline.MarkerAxisSpec | src/ftrace-plotter.h:457-459 | the label goes to the first axis of the pid that has points, or nowhere |
| Timeline.AddMarkerSpec | src/ftrace-plotter.h:455-469 | update_y_markers appends the stamp and the label together to that one axis, changes nothing if there is none, and keeps markers and labels paired |
| Timeline.AddMarkerRegistry | src/ftrace-plotter.h:455-469 | update_y_markers keeps the registry invariant |
| Timeline.ListNameSpec | src/ftrace-plotter.h:475-487 | the list name is the prefix ('*' markers > '=' monitor > '#' GPU > blank) followed by the name, at most 31 bytes |
| Timeline.AddItemsNone | src/ftrace-plotter.h:471-499 | add_items with no axis of the name left changes nothing |
| Timeline.AddItemsOne | src/ftrace-plotter.h:471-499 | add_items with one axis of the name moves exactly that axis, listed and flagged added, to the end of the new list |
| Timeline.AddItemsAdded | src/ftrace-plotter.h:494-495 | every axis add_items moves out is flagged added |
| Timeline.SortFromUnadded | src/ftrace-plotter.h:501-512 | on distinct names, the sorter's loop appends the axes not yet added, listed, in their order |
| Timeline.SortAxesSpec | src/ftrace-plotter.h:501-512 | with distinct names, sort_y_axes yields exactly the axes not yet added, listed, in their original order |
| Timeline.SortFromAdded | src/ftrace-plotter.h:501-512 | every axis of the new list is flagged added |
| Timeline.SortFromAllAdded | src/ftrace-plotter.h:505-508 | when every axis is already added, the loop adds nothing |
| Timeline.SortTwice | src/ftrace-plotter.h:501-512 | every sorted axis is flagged added, so sorting a second time yields the empty list: the sorter is not idempotent |
| Driver.RecordSpec | src/ftrace-plotter.h:642-661 | a record is a marker exactly on a marker line, its flags classify the payload, its ts is the trace stamp minus min_ts, and its fields end past the header |
| Driver.CounterStep | src/ftrace-plotter.h:396-397 | the uint16_t counter after an append counts the new axis, and its uint8_t truncation is at most the number of axes before it |
| Driver.ResolveCounted | src/ftrace-plotter.h:379-416 | at any number of axes, update_y_axis keeps counter = number of axes (mod 2^16) and gives the record an id below the number of axes |
| Driver.PlaceFrame | src/ftrace-plotter.h:664-681 | placing a record keeps axes and counter; it adds the record to plot_data exactly when it is not a plain label; the cursor moves one past the record; a stop is a fault |
| Driver.ResolvePlaceFrame | src/ftrace-plotter.h:662-681 | resolving then placing a record grows the axes by at most one and plot_data by at most the record |
| Driver.StepAdvances | src/ftrace-plotter.h:587-682 | every loop turn moves the cursor forward and keeps the counter; axes and plot_data only grow, and min_ts changes only while it is zero |
| Driver.StepSetsMinTs | src/ftrace-plotter.h:637-638 | a turn that starts with min_ts zero and decodes a header sets min_ts to that header's trace timestamp, so min_ts is the first record's timestamp |
| Driver.StepMalformed | src/ftrace-plotter.h:600-603 | the loop returns false only at a malformed header, with the model left as it was |
| Driver.ResolveSound | src/ftrace-plotter.h:662 | update_y_axis keeps the model sound while the axes fit uint8_t, and the record names its axis |
| Driver.MarkerSound | src/ftrace-plotter.h:664-665 | update_y_markers keeps the model sound |
| Driver.PointSound | src/ftrace-plotter.h:677-678 | add_data_point and the push onto plot_data keep the model sound |
| Driver.PlaceSound | src/ftrace-plotter.h:664-679 | placing a record that names its axis keeps the model sound |
| Driver.ResolvePlaceSound | src/ftrace-plotter.h:662-679 | resolving and placing a well-formed record keeps the model sound while the axes fit |
| Driver.LineSound | src/ftrace-plotter.h:637-679 | the rest of a line after the header keeps the model sound while the axes fit |
| Driver.StepSound | src/ftrace-plotter.h:587-682 | one loop turn keeps the model sound while the axes fit |
| Driver.LoopGrows | src/ftrace-plotter.h:587-682 | the loop never drops an axis |
| Driver.LoopSound | src/ftrace-plotter.h:587-682 | the loop keeps the model sound as long as its axes fit at the end, whether it runs to the end or returns false |
| Driver.UnaddedAll | src/ftrace-plotter.h:501-512 | when no axis is listed yet, every axis enters the sorted list, in order |
| Driver.InitDataSpec | src/ftrace-plotter.h:576-689 | with at most 256 axes, init_data faults iff no record reached plot_data; otherwise the sorted list holds every axis, listed, in creation order, with distinct names, and every record of plot_data names its axis, and max_x is the last record's timestamp minus the first's (684) |
| Driver.CommentLogs | src/ftrace-plotter.h:588-592 | a log of one comment line faults at the empty plot_data; a comment without a newline faults at strchr |
| Driver.MalformedLog | src/ftrace-plotter.h:600-603 | a log with no dash that does not open with a comment returns false at its first line, with an empty model |
| Driver.StepNamesJobs | src/ftrace-plotter.h:587-682 | no loop turn ends in make_job_color's null-name fault |
| Driver.LoopNamesJobs | src/ftrace-plotter.h:587-682 | the loop never ends in that fault, from any cursor and counted model |
| Driver.InitDataNamesJobs | src/ftrace-plotter.h:576-689 | init_data never ends in that fault: every GPU job it decodes has a name |
| PlotState.Plot.constructor | src/ftrace-plotter.h:102-124 | the static plot_ starts empty, with both counters and min_ts at zero |
| PlotState.Plot.UpdateYAxis | src/ftrace-plotter.h:379-416 | the loop leaves plot_ and the record as the update_y_axis function says |
| PlotState.Plot.MakeJobColor | src/ftrace-plotter.h:313-326 | the loop returns the job colour that JobColorSpec characterises |
| PlotState.Plot.AddDataPoint | src/ftrace-plotter.h:418-453 | the update leaves plot_ as add_data_point describes, and reports a fault exactly when the C code would dereference null |
| PlotState.Plot.UpdateYMarkers | src/ftrace-plotter.h:455-469 | the loop changes only the axes, as update_y_markers describes |
| PlotState.Plot.AddItems | src/ftrace-plotter.h:471-499 | the loop moves the axes of the name as add_items describes |
| PlotState.Plot.SortYAxes | src/ftrace-plotter.h:501-512 | the axis list is replaced by the sorted list and nothing else changes |
| PlotState.Plot.InitData | src/ftrace-plotter.h:576-689 | the loop over the buffer returns init_data's outcome; on success plot_ holds the parsed model and max_x, and on false the model built so far |
| PlotState.Plot.ReadStep | src/ftrace-plotter.h:587-635 | one loop turn updates plot_ as Step says; it stops with false only on the model as it was |
| PlotState.Plot.ReadLine | src/ftrace-plotter.h:637-681 | min_ts, the record, update_y_axis and the placing update plot_ as Line says; a stop is a fault |
| PlotState.Plot.ReadRecord | src/ftrace-plotter.h:642-661 | the record of a marker or scheduler line, stamped relative to min_ts |
| PlotState.Plot.PlaceRecord | src/ftrace-plotter.h:664-681 | update_y_markers, or add_data_point and the push, update plot_ as Place says |

"Sound" (`Driver.Sound`) is what `init_data` keeps true of `plot_` while every axis index fits the
`uint8_t` `plot_data.id`. It has three parts:

- the registry invariant of `Timeline.Registry`;
- no axis is flagged `added` yet;
- every record in `plot_data` is well formed, is not a plain label, and names an axis that passes
  `update_y_axis`'s test for it.

## Where the model follows the code over the format's description

- The palette is indexed by `id % 11`, so the twelfth base colour is never used.
- `sort_y_axes` lists only axes not yet flagged `added`, so a second call empties the axis list.
- The `gpu` tag at the head of a GPU payload is consumed as the job name. The clock offset is therefore the
  second field and the pid the last.
- `min_ts` is set from the first record's timestamp while it is still zero. It is therefore set again
  whenever the first timestamps read are 0.

## Left out

- Loading the log: `open_data` (`open`, `lseek`, `mmap`) is left out. The buffer is an input sequence, and
  the zero fill of the mapping's last page is modelled as reads past the end giving NUL.
- A log whose size is an exact multiple of the page size and whose last line has no final newline:
  `get_marker_field` or `get_data_field` then writes its NUL at `end`, the first byte past the
  mapping, and with no zero fill there the source faults. The model reads NUL past the end and parses
  such a log as if the zero fill were there.
- The NUL bytes the parser writes in place are not modelled. Those of the field scans land at or behind
  the cursor, in the zero fill, or past the mapping in the case above. So the scans read the original
  buffer, and each kept string is its byte range cut at the first NUL.
- Driver.Place and PlotState.Plot.PlaceRecord store the full payload as the `marker` of a record placed on
  the GPU axis. The source leaves that marker cut at its first comma: `parse_gpu_job` writes a NUL there
  after taking the tag as the job name, so the stored marker reads `gpu` (or `mon` for a monitor sample
  that resolves to the GPU axis). Nothing in the core reads the marker of such a record afterwards.
- The parser's diagnostic output is dropped: the error and info prints, the summary `printf` at the end of
  `init_data`, and the `#if 0` debugging `printf`s of its loop.
- Floating point:
  - `atof` is the exact value of `[space][sign]digits[.digits]`, without exponents, hexadecimal, inf or nan;
  - the `/1e9` conversions and the subtractions are on `real`, without IEEE rounding.
- Colours are packed 32-bit values. `ImGui::ColorConvertU32ToFloat4` and its inverse are left out.
- `make_job_color`'s `std::hash<std::string>` is a parameter `hash`.
- `trace_cpu` (the cpu field of the header) is read by the source but never used, and is dropped.
- The display-only members of `plot`, `y_axis`, `point` and `marker_label` are left out, and so is
  everything after `init_data` (drawing and interaction).
- A member the source leaves uninitialised is `None` in the model:
  - the scheduler fields of a marker record;
  - the cpu of a monitor sample;
  - the pid and colour of non-GPU points.
- PlotState.Plot.InitData requires the counter invariant (counter = number of axes modulo 2^16). The
  zero-initialised `plot_` meets it, and a second call on a parsed model is not modelled.
- Driver.InitDataSpec and the other soundness lemmas assume that the axes end at most 256. Past that, the
  `uint8_t` id wraps. `Timeline.ResolvePast256` shows the record of the 257th axis naming axis 0.
- Timeline.AddItems: the name compared is a copy of the first axis's name. The source compares against a
  moved-from string once that axis is moved out, but axis names are pairwise distinct
  (`Timeline.RegistryNames`), so only that axis matches either way.
- A moved-from slot of `plot_.y_axes` is `None` in a local copy of the list.
- The "unexpected end of data" branches of `get_marker_field`, `get_data_field`, `init_marker_data` and
  `init_info_data` test for null, which `skip_blanks` never returns. They are dead and have no counterpart.
