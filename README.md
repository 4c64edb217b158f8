# gofail rewriter, modelled in Dafny

gofail lets a Go program declare failpoints as comments. A comment block
starts with a header, `// gofail: var NAME TYPE` or
`// gofail-go: var NAME TYPE`. The comment lines after the header hold the
code to run when the failpoint triggers.

The rewriter in `code/` turns such a source file into Go code and back:

- `ToFailpoints` (activation) reads the source line by line.
  - It collects every comment block into a failpoint.
  - It writes the failpoint as generated code: an `if` header that acquires
    the runtime failpoint `__fp_NAME` and asserts its value's type, the
    block's code lines, and a `__badType` footer.
  - It exposes label comments (`// gofail: LABEL:`) as
    `/* gofail-label */ LABEL:`.
- `ToComments` (deactivation) reads generated code back.
  - It recognises a generated header by its error variable.
  - It counts braces to find the end of the code.
  - It writes the comment block back and hides exposed labels again.

The model has these modules:

| module | file | what it holds |
|---|---|---|
| `Wrappers` | `wrappers.dfy` | `Option`, `Result` and the rewriter's errors |
| `GoStrings` | `gostrings.dfy` | the `strings`/`unicode` functions the rewriter calls, defined on `seq<char>`; the contracts pin down each result |
| `Lines` | `lines.dfy` | the segments that successive `ReadString('\n')` calls return, and their concatenation |
| `Failpoints` | `failpoint.dfy` | the `Failpoint` record, `newFailpoint`, `hdr`, `footer` and the three flush methods |
| `Rewrite` | `rewrite.dfy` | the two scans, first as functions (`Activated`, `Deactivated`) and then as the loop methods `ToFailpoints` and `ToComments`, which are proved equal to them; also `gofailLabel`, `numBraces` and `wsPrefix` |
| `WellFormed`, `Generated`, `Labels` | `wellformed.dfy`, `generated.dfy`, `labels.dfy` | what the two scans do with each kind of line: canonical headers, the generated header and code lines, plain lines and labels |
| `RoundTrip` | `roundtrip.dfy` | the round trip over well-formed sources |

Writers and readers become strings:

- `ToFailpoints` and `ToComments` take the whole input as a string and
  return the text written, together with the failpoints found.
- The flush methods append to a string `dst`.
- The scans read the input through `Segments`, the pieces successive
  `ReadString('\n')` calls return.

A well-formed source is a sequence of items, followed by a last line
without a newline. An item is one of:

- a plain line that mentions neither `gofail` nor `__fp_`;
- a label comment;
- a gofail comment block in canonical form, whose braces balance against
  the footer's closing brace.

On every well-formed source, `ToFailpoints` succeeds. `ToComments`, run on
its output:

- gives the source back;
- reads as many lines as the source has;
- reports one failpoint per block, in order, with the same name and type
  as the one activated.

## Model

| member | source | states |
|---|---|---|
| Lines.Segments | code/rewrite.go:50-52 | The segments that successive `ReadString('\n')` calls return. Every segment but the last is one complete line, and the last holds no newline. Together they concatenate to the input. |
| Lines.SegmentsOfConcat | code/rewrite.go:94-95 | Reading complete lines followed by a last line gives those same lines back. This is the inverse of concatenation that the line-count promise rests on. |
| GoStrings.TrimSpace | code/rewrite.go:97 | `strings.TrimSpace`: the text between the leading and trailing white space. It neither starts nor ends with white space. It starts the text after the leading white space, and only white space follows it there. |
| GoStrings.Fields | code/failpoint.go:48 | `strings.Fields`: every field is non-empty and holds no white space. There are no fields exactly when the text is blank. |
| GoStrings.Gaps | code/failpoint.go:48 | The text is its fields with blank runs around them, and the runs between two fields are non-empty. |
| GoStrings.FieldsOfJoin | code/failpoint.go:48 | Any fields joined with such blank runs have exactly those fields. With `Gaps`, the fields of a text are the one split of it into fields and blank runs. |
| GoStrings.Replace1 | code/rewrite.go:58 | `strings.Replace(s, old, new, 1)`: when `old` occurs, the text before its first occurrence, then `new`, then the rest; otherwise `s` unchanged. |
| GoStrings.SplitSecond | code/rewrite.go:120-121 | `strings.Split(s, sep)[1]`: it starts the text after the first `sep` and holds no `sep`. A second `sep` follows it directly; without a second `sep` it is all of the text after the first. |
| GoStrings.SplitAfterSecond | code/rewrite.go:153 | `strings.SplitAfter(s, sep)[1]`: it starts the text after the first `sep`. With a second `sep` it is `SplitSecond` followed by `sep`; otherwise it is all of the text after the first `sep`. |
| Failpoints.NewFailpoint | code/failpoint.go:36-53 | `Ok(None)` exactly when the trimmed line starts with neither header prefix. `MalformedHeader(l)` exactly when it is a header whose command is not `var NAME TYPE`. Otherwise it returns the failpoint with the kind, name and type read from the command, no code, and the indentation before the first `//`. |
| WellFormed.HeaderParses | code/failpoint.go:36-53 | A canonical header line reads back into exactly the failpoint it was written from. |
| WellFormed.CommandFields | code/failpoint.go:47-49 | The command of a canonical header has the three fields `var`, the name and the type. |
| Failpoints.FlushLines | code/failpoint.go:56-108 | A failpoint without code is written as one line: the header with `_` bound, then the footer. A failpoint with code is written as the header line, then one line per code line, with the footer on the last. |
| Failpoints.CodeLines | code/failpoint.go:100-106 | One line per code line; only the last carries the footer. |
| Failpoints.FlushLinesAreLines | code/failpoint.go:63-108 | Each line flush writes is one complete line, so the output keeps the line structure. |
| Failpoints.Flush | code/failpoint.go:56-61 | It appends exactly the lines of `FlushLines` to `dst`, choosing the single-line form exactly when there is no code. |
| Failpoints.FlushSingle | code/failpoint.go:87-93 | It appends `hdr("_") + footer + "\n"` to `dst`. |
| Failpoints.FlushMulti | code/failpoint.go:95-108 | It appends the header line and then the code lines, with the footer on the last one. |
| Failpoints.WriteCode | code/failpoint.go:100-106 | The loop over the code lines appends every line but the last, then the last with the footer. |
| Generated.HeaderReads | code/failpoint.go:63-80 | From the header `hdr` writes, ToComments' readers recover the `if`, the kind's error variable, the indentation, the name (after `__fp_`) and the type (inside `.(`…`)`). |
| Generated.NoGoMarker | code/failpoint.go:64-68 | A `gofail` header holds no `gofail-go` error declaration, so ToComments gives it the right prefix back. |
| Generated.MultiNoFooter | code/failpoint.go:95-96 | The header line of a failpoint with code holds no `; __badType`, so ToComments opens a block after it. |
| Generated.SingleHasFooter | code/failpoint.go:87-92 | The one-line form holds `; __badType`, so ToComments opens no block after it. |
| Generated.NetFooter | code/failpoint.go:82-85 | The footer closes one brace more than the type opens: the brace the header opened. |
| Generated.FooterCut | code/rewrite.go:102-105 | Cutting a code line at the footer marker gives the code back. |
| Rewrite.HdrMarker | code/rewrite.go:111-112 | The marker ToComments looks for starts with the error declaration `hdr` writes. |
| Rewrite.HeaderHoldsRuntime | code/rewrite.go:111-120 | A line ToComments takes for a header holds `__fp_`, so splitting at it has a second part. |
| Rewrite.GofailLabel | code/rewrite.go:149-158 | The result is non-empty exactly when the trimmed line starts with the prefix, the line holds the prefix, and the second `SplitAfter` part holds a `:`. That result is the line with its first prefix replaced by the marker. |
| Labels.ExposeLabel | code/rewrite.go:149-158 | On a label comment, the result is the indentation, then the marker, then the label text. |
| WellFormed.HeaderNoLabel | code/rewrite.go:65-70 | A canonical header is exposed as no label under either prefix, so it reaches `newFailpoint`. |
| Rewrite.NumBraces | code/rewrite.go:160-170 | Exactly the number of `{` and of `}` in the line, which together are at most its length. |
| Rewrite.WsPrefixOf | code/rewrite.go:173-190 | The result is blank. When `wsPfx` is empty it is all the leading white space of the line. When the line lacks `wsPfx` it is "". Otherwise it is all the white space that directly follows the first `wsPfx`. |
| Rewrite.WsPrefix | code/rewrite.go:173-190 | The loop returns the leading white space that `WsPrefixOf` specifies. |
| Rewrite.StripNewline | code/rewrite.go:55-57 | The line without its final newline, when it has one; otherwise the line unchanged. |
| Rewrite.EmptyLine | code/rewrite.go:52-76 | The "" read again after EOF is no comment, no label and no header. |
| Rewrite.RealEmpty | code/rewrite.go:52-76 | The rewriter's reader neither absorbs nor opens a block on "". |
| WellFormed.CommentAbsorbed | code/rewrite.go:54-58 | A comment line of a block is a comment, and absorbing it adds its code line: `//` becomes a tab and the newline is dropped. |
| WellFormed.HeaderOpens | code/rewrite.go:71-76 | Outside a block, a canonical header opens a block on its failpoint. |
| Labels.PlainOutside | code/rewrite.go:65-82 | Outside a block, a plain line is written as it is. |
| Labels.LabelOutside | code/rewrite.go:65-70 | Outside a block, a label comment is written with its label exposed. |
| Rewrite.ActivateAbsorb | code/rewrite.go:53-59 | Inside a block, a comment line is absorbed into the block's code and nothing is written. |
| Rewrite.ActivateOpen | code/rewrite.go:71-76 | Outside a block, a header opens the block and nothing is written. |
| Rewrite.ActivateMalformed | code/rewrite.go:71-72 | A malformed header ends the scan with its error. |
| Rewrite.ActivateWrite | code/rewrite.go:60-82 | A line that ends a block flushes the block, records its failpoint and writes the line; any other line is written as the reader has it. The scan stops after the segment read with EOF. |
| Rewrite.ReadInBlock | code/rewrite.go:53-64 | The loop body inside a block: `dst` stays the concatenation of what was written, and the scan from here equals the scan resumed after this line. |
| Rewrite.ReadOutside | code/rewrite.go:65-82 | The loop body outside a block: a malformed header ends the scan with its error; otherwise the scan resumes as `Activate` does. |
| Rewrite.ActivateLines | code/rewrite.go:50-83 | The read loop returns the text and the failpoints of the scan `Activate`, or its error. |
| Rewrite.ToFailpoints | code/rewrite.go:37-85 | It succeeds exactly when `Activated(src)` does. It then returns the concatenation of the lines written and the failpoints activated; otherwise it returns the same error. |
| Rewrite.RestoreLabel | code/rewrite.go:131-136 | When the line holds a tab followed by the marker, the first marker is replaced by the prefix; otherwise the line is unchanged. |
| Rewrite.DeactivateStep | code/rewrite.go:94-140 | One iteration writes what the line is undone to, adds what it found, and carries the new indentation and brace count forward. |
| Rewrite.UndoInside | code/rewrite.go:99-109 | With braces unmatched, the line is a code line that goes back to a comment line. |
| Rewrite.UndoHeader | code/rewrite.go:111-129 | With no braces unmatched, a generated header goes back to a gofail header with the line's indentation, name and type. A block opens unless the footer is on the same line. A missing `.(` is an index-out-of-range error. |
| Rewrite.UndoOther | code/rewrite.go:131-136 | With no braces unmatched, any other line is written with its exposed labels hidden. |
| Rewrite.UndoStep | code/rewrite.go:95-140 | The loop body equals `UndoLine`. |
| Rewrite.UndoCodeLine | code/rewrite.go:99-109 | The code-line branch equals `CodeBack` with the line's braces and padding. |
| Rewrite.UndoGeneratedHeader | code/rewrite.go:111-129 | The header branch equals `UndoLine` on a generated header. |
| Rewrite.HideLabels | code/rewrite.go:131-140 | The label branch equals `UndoLine` on any other line. |
| Rewrite.DeactivateLines | code/rewrite.go:93-141 | The read loop returns the text and the failpoints of the scan `Deactivate`, or its error. |
| Rewrite.ToComments | code/rewrite.go:89-147 | It succeeds exactly when `Deactivated(src)` does. It then returns the concatenation of the lines written and the failpoints found; otherwise it returns the same error. |
| Generated.HeaderUndone | code/rewrite.go:111-129 | ToComments writes back the canonical header from the indentation, name and type it reads. It opens a block exactly when the line holds no footer. |
| Generated.GeneratedHeaderUndo | code/rewrite.go:111-129 | On the first line flush writes, ToComments writes back the failpoint's canonical header and reports its name and type. It opens a block exactly when the failpoint has code. |
| Generated.UndoCode | code/rewrite.go:99-108 | A generated code line, before the last one, goes back to its comment line and adds its braces to the count. |
| Generated.UndoEmptyBody | code/rewrite.go:99-108 | A code line generated from a comment line with nothing after its `//` goes back to that comment line followed by an extra empty line: the padding ToComments finds after the indentation is the tab and the newline. |
| Generated.UndoLastCode | code/rewrite.go:99-108 | The last code line balances the braces, loses its footer and goes back to its comment line. |
| Labels.PlainUndo | code/rewrite.go:131-140 | ToComments writes a plain line as it is. |
| Labels.LabelUndo | code/rewrite.go:131-136 | ToComments turns an exposed label back into the label comment. |
| RoundTrip.RealReadsSource | code/rewrite.go:53-76 | The rewriter reads each kind of source line as the round trip needs. |
| RoundTrip.RealReadsGenerated | code/rewrite.go:99-136 | ToComments reads back each kind of generated line as the round trip needs. |
| RoundTrip.RunItems | code/rewrite.go:37-85 | On well-formed items, the scan writes their generated lines and activates one failpoint per block. |
| RoundTrip.DRunItems | code/rewrite.go:89-147 | On those generated lines, the undo scan writes the source lines back and reports one failpoint per block. |
| RoundTrip.ActivatedText | code/rewrite.go:37-85 | On a well-formed source, ToFailpoints succeeds, writes `Written(items)` and the last line, and activates `Activations(items)`. |
| RoundTrip.DeactivatedText | code/rewrite.go:89-147 | ToComments on that output succeeds, writes the source lines back and reports `Deactivations(items)`. |
| RoundTrip.RoundTrip | code/rewrite_test.go:116-140 | ToComments undoes ToFailpoints on every well-formed source, and the failpoints each reports are those of the blocks. |
| RoundTrip.SameHeight | code/rewrite_test.go:107-109 | ToFailpoints writes as many lines as the source has. |
| RoundTrip.SamePoints | code/rewrite_test.go:103-105 | Both directions report the same number of failpoints, with equal names and types index by index. |
| RoundTrip.RewriteBack | code/rewrite_test.go:95-140 | The round trip through the two methods: the text back equals the source, both read the same number of segments, and the failpoints pair up by name and type. |

## Left out

- ToFailpoints: on a malformed header Go returns the failpoints collected so far together with the error (code/rewrite.go:71-72). The model returns only the error. The failpoints so far are `Activate`'s accumulator at that point.
- ToFailpoints: the deferred flush at code/rewrite.go:41-48 is not modelled. A block still open at the end is flushed in the loop by the "" read after EOF, so the deferred flush never finds `curfp` set while `err` is nil.
- ToFailpoints, ToComments, Flush, FlushSingle, FlushMulti: writer errors are left out, and so is the ignored error of `curfp.flush` at code/rewrite.go:61. Output goes to a string, which cannot fail. Readers become the whole input as a string.
- ToFailpoints: the loop runs through `ActivateLines`, which reads lines through a `Reader` value whose fields are the rewriter's own functions (`Real`). This keeps the loop's proof independent of how a line is classified. The loop is the same as the Go one.
- UndoLine, CodeBack: Go panics on `wsPrefix(l, ws)[1:]` when the padding is empty (code/rewrite.go:106) and on `strings.Split(l, ".(")[1]` when `.(` is missing (code/rewrite.go:121). The model turns both panics into `Err(IndexOutOfRange(l))`.
- WsPrefix, IsSpace, TrimSpace: strings are sequences of Unicode code points, not bytes. Go slices `wsPrefix(l, ws)[1:]` by bytes (code/rewrite.go:106), so a multi-byte first padding character such as U+00A0 is cut in the middle in Go, while the model drops the whole character. Invalid UTF-8 cannot be represented.
- RoundTrip, Wf: the round trip is stated for well-formed sources only. Names are letters and digits. Types use letters, digits and `_*[]{}.`. The indentation of a label comment ends in a tab, as ToComments requires before an exposed label. Label text holds no `/`. Every comment line of a block is indented exactly like its header. Block bodies are non-empty and do not end in white space. A bare `//` inside a block does not come back as it was: `UndoEmptyBody` shows that ToComments writes an extra empty line after it, because `wsPrefix` keeps the newline (code/rewrite.go:106, 184-189). The braces of a block's code stay open until its last line, which the footer closes. The line after a block is no comment.
- The runtime package (runtime/failpoint.go, runtime/http.go, terms) and the command-line tool are not part of this model.
