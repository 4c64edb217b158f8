/** code/rewrite.go: turning `// gofail:` comment blocks into failpoint code
    (ToFailpoints) and failpoint code back into comments (ToComments).

    The input is read with bufio.Reader.ReadString('\n'): the segments of
    Lines.Segments, then, once past the end, the empty string with EOF.
    The output is the sequence of strings the rewriter writes, in order;
    the text written is their concatenation. */
module Rewrite {
  import opened GoStrings
  import opened Lines
  import opened Wrappers
  import opened Failpoints

  /** What a rewrite returns: the strings written, and the failpoints found. */
  datatype Rewritten = Rewritten(out: seq<string>, fps: seq<Failpoint>)

  // ---------------------------------------------------------------------
  // Helpers of rewrite.go

  /** gofailLabel: a label comment, whose trimmed text starts with `pfx` and
      whose text after the first `pfx` holds a colon before any second `pfx`,
      with its prefix replaced by the label marker `lb`; "" for any other
      line. */
  function GofailLabel(l: string, pfx: string, lb: string): (r: string)
    requires pfx != [] && lb != []
    ensures r != [] <==> HasPrefix(TrimSpace(l), pfx) && Contains(l, pfx) && Contains(SplitAfterSecond(l, pfx), ":")
    ensures r != [] ==> r == Before(l, pfx) + lb + After(l, pfx)
  {
    if !HasPrefix(TrimSpace(l), pfx) then ""
    else
      TrimmedContains(l, pfx);
      var text := SplitAfterSecond(l, pfx);
      if |text| == 0 || !Contains(text, ":") then ""
      else Replace1(l, pfx, lb)
  }

  /** numBraces: the number of `{` and of `}` in the line. */
  method NumBraces(l: string) returns (opening: nat, closing: nat)
    ensures opening == Count(l, '{') && closing == Count(l, '}')
    ensures opening + closing <= |l|
  {
    opening, closing := 0, 0;
    var i := 0;
    while i < |l|
      invariant 0 <= i <= |l|
      invariant opening == Count(l[..i], '{') && closing == Count(l[..i], '}')
      invariant opening + closing <= i
    {
      assert l[..i + 1] == l[..i] + [l[i]];
      if l[i] == '{' {
        opening := opening + 1;
      } else if l[i] == '}' {
        closing := closing + 1;
      }
      i := i + 1;
    }
    assert l[..i] == l;
  }

  /** The change a line makes to the count of unmatched braces. */
  function Net(l: string): int {
    Count(l, '{') - Count(l, '}')
  }

  /** wsPrefix, as a value: the leading white space of the text after the
      first `wsPfx`, or of the whole line when `wsPfx` is empty; "" when the
      line does not hold `wsPfx`. */
  function WsPrefixOf(l: string, wsPfx: string): (r: string)
    ensures Blank(r)
    ensures wsPfx == [] ==> HasPrefix(l, r) && (|r| == |l| || !IsSpace(l[|r|]))
    ensures wsPfx != [] && !Contains(l, wsPfx) ==> r == []
    ensures wsPfx != [] && Contains(l, wsPfx) ==>
      HasPrefix(After(l, wsPfx), r) && (|r| == |After(l, wsPfx)| || !IsSpace(After(l, wsPfx)[|r|]))
  {
    if wsPfx == [] then Lead(l)
    else if !Contains(l, wsPfx) then []
    else Lead(After(l, wsPfx))
  }

  /** wsPrefix: the left padding of a line, after the indentation `wsPfx`. */
  method WsPrefix(l: string, wsPfx: string) returns (r: string)
    ensures r == WsPrefixOf(l, wsPfx)
  {
    var lws: string;
    if |wsPfx| == 0 {
      lws := l;
    } else {
      if !Contains(l, wsPfx) {
        return "";
      }
      lws := After(l, wsPfx);
    }
    var i := 0;
    while i < |lws|
      invariant 0 <= i <= |lws| && Blank(lws[..i])
    {
      if !IsSpace(lws[i]) {
        LeadUnique(lws, lws[..i]);
        return lws[..i];
      }
      i := i + 1;
    }
    assert lws[..i] == lws;
    LeadUnique(lws, lws);
    r := lws;
  }

  /** The leading white space is the only blank prefix followed by a
      non-space character or the end. */
  lemma LeadUnique(s: string, w: string)
    requires Blank(w) && HasPrefix(s, w) && (|w| == |s| || !IsSpace(s[|w|]))
    ensures Lead(s) == w
  {
    var r := Lead(s);
    assert forall j :: 0 <= j < |w| ==> s[j] == w[j];
    assert forall j :: 0 <= j < |r| ==> s[j] == r[j];
    assert r == s[..|r|];
  }

  // ---------------------------------------------------------------------
  // ToFailpoints

  /** The line read at position `k` of the segments: past the end, "". */
  function ReadAt(segs: seq<string>, k: nat): string {
    if k < |segs| then segs[k] else ""
  }

  /** A comment line: its trimmed text starts with `//`. */
  predicate IsComment(l: string) {
    HasPrefix(TrimSpace(l), "//")
  }

  /** The line without its trailing newline, if it has one. */
  function StripNewline(l: string): (r: string)
    ensures if |l| > 0 && l[|l| - 1] == '\n' then l == r + "\n" else r == l
  {
    if |l| > 0 && l[|l| - 1] == '\n' then l[..|l| - 1] else l
  }

  /** A comment line of a block becomes code: without its newline, and with
      its first `//` replaced by a tab. */
  function Absorb(fp: Failpoint, l: string): Failpoint {
    fp.(code := fp.code + [Replace1(StripNewline(l), "//", "\t")])
  }

  /** The empty string read at the end of the input is neither a comment, a
      label nor a header. */
  lemma EmptyLine()
    ensures !IsComment("") && !IsHeader("")
    ensures GofailLabel("", PfxGofail, LabelGofail) == [] && GofailLabel("", PfxGofailGo, LabelGofailGo) == []
  {
    assert TrimSpace("") == [];
  }

  /** What ToFailpoints does with a line read outside a block. */
  datatype Action = Write(w: string) | Open(fp: Failpoint) | Fail(e: RewriteError)

  /** The else-if chain of ToFailpoints on a line outside a block: expose a
      label, open a block on a header, stop on a malformed header, or write
      the line as it is. */
  function Outside(l: string): Action {
    var exposed := GofailLabel(l, PfxGofail, LabelGofail);
    if exposed != [] then Write(exposed)
    else
      var exposedGo := GofailLabel(l, PfxGofailGo, LabelGofailGo);
      if exposedGo != [] then Write(exposedGo)
      else match NewFailpoint(l)
        case Err(e) => Fail(e)
        case Ok(Some(fp)) => Open(fp)
        case Ok(None) => Write(l)
  }

  /** How the two scans read and write single lines: whether a line is a
      comment, what absorbing a comment line does to the block's failpoint,
      what a line outside a block is, the lines a failpoint is written as
      and the footer of its last line, and what ToComments makes of a line.
      Real is the rewriter's own reading; the scans are stated for any
      reader so that proofs about whole texts need only the facts about
      single lines they name. */
  datatype Reader = Reader(
    comment: string -> bool,
    absorb: (Failpoint, string) -> Failpoint,
    outside: string -> Action,
    flush: Failpoint -> seq<string>,
    footer: Failpoint -> string,
    undo: (string, string, int) -> Result<Undo, RewriteError>)

  const Real := Reader(IsComment, Absorb, Outside, FlushLines, Footer, UndoLine)

  /** The strings ToFailpoints writes and the failpoints it activates, from
      the segment at `k` on, with `cur` the block being read and `acc` what
      was written and found before; lines are read by `r`. */
  function Activate(r: Reader, segs: seq<string>, k: nat, cur: Option<Failpoint>, acc: Rewritten): Result<Rewritten, RewriteError>
    requires k <= |segs| && !r.comment("") && !r.outside("").Open?
    decreases |segs| - k
  {
    var l := ReadAt(segs, k);
    var eof := k + 1 >= |segs|;
    if cur.Some? then
      if r.comment(l) then
        Activate(r, segs, k + 1, Some(r.absorb(cur.value, l)), acc)
      else
        var acc' := Rewritten(acc.out + r.flush(cur.value) + [l], acc.fps + [cur.value]);
        if eof then Ok(acc') else Activate(r, segs, k + 1, None, acc')
    else
      match r.outside(l)
      case Fail(e) => Err(e)
      case Open(fp) => Activate(r, segs, k + 1, Some(fp), acc)
      case Write(w) =>
        var acc' := acc.(out := acc.out + [w]);
        if eof then Ok(acc') else Activate(r, segs, k + 1, None, acc')
  }

  /** The strings ToComments writes and the failpoints it deactivates, from
      the segment at `k` on; lines are read by `r`. */
  function Deactivate(r: Reader, segs: seq<string>, k: nat, ws: string, unmatched: int, acc: Rewritten): Result<Rewritten, RewriteError>
    requires k <= |segs|
    decreases |segs| - k
  {
    if k == |segs| then Ok(acc)
    else match r.undo(segs[k], ws, unmatched)
      case Err(e) => Err(e)
      case Ok(u) => Deactivate(r, segs, k + 1, u.ws, u.unmatched, Rewritten(acc.out + [u.w], acc.fps + u.found))
  }

  /** The empty string read past the end is no comment and opens no block. */
  lemma RealEmpty()
    ensures !Real.comment("") && !Real.outside("").Open?
  {
    EmptyLine();
  }

  /** ToFailpoints, as a value: the scan with the rewriter's reader. */
  function Activated(src: string): Result<Rewritten, RewriteError> {
    RealEmpty();
    Activate(Real, Segments(src), 0, None, Rewritten([], []))
  }

  /** One step of Activate on a comment line inside a block. */
  lemma ActivateAbsorb(r: Reader, segs: seq<string>, k: nat, fp: Failpoint, acc: Rewritten)
    requires !r.comment("") && !r.outside("").Open?
    requires k <= |segs| && r.comment(ReadAt(segs, k))
    ensures k < |segs|
    ensures Activate(r, segs, k, Some(fp), acc) == Activate(r, segs, k + 1, Some(r.absorb(fp, ReadAt(segs, k))), acc)
  {
  }

  /** One step of Activate on a line that opens a block. */
  lemma ActivateOpen(r: Reader, segs: seq<string>, k: nat, acc: Rewritten, fp: Failpoint)
    requires !r.comment("") && !r.outside("").Open?
    requires k <= |segs| && r.outside(ReadAt(segs, k)) == Open(fp)
    ensures k < |segs|
    ensures Activate(r, segs, k, None, acc) == Activate(r, segs, k + 1, Some(fp), acc)
  {
  }

  /** One step of Activate on a line it fails on. */
  lemma ActivateMalformed(r: Reader, segs: seq<string>, k: nat, acc: Rewritten, e: RewriteError)
    requires !r.comment("") && !r.outside("").Open?
    requires k <= |segs| && r.outside(ReadAt(segs, k)) == Fail(e)
    ensures Activate(r, segs, k, None, acc) == Err(e)
  {
  }

  /** One step of Activate that writes `w`. */
  lemma ActivateWrite(r: Reader, segs: seq<string>, k: nat, cur: Option<Failpoint>, acc: Rewritten, w: string, next: Rewritten)
    requires !r.comment("") && !r.outside("").Open?
    requires k <= |segs|
    requires var l := ReadAt(segs, k);
      if cur.Some? then
        !r.comment(l) && w == l && next == Rewritten(acc.out + r.flush(cur.value) + [l], acc.fps + [cur.value])
      else
        r.outside(l) == Write(w) && next == acc.(out := acc.out + [w])
    ensures Activate(r, segs, k, cur, acc) == if k + 1 >= |segs| then Ok(next) else Activate(r, segs, k + 1, None, next)
  {
  }

  /** Where Activate goes on after the line at `k` has left `cur` open and
      `acc` written: to the next line, unless no block is open at the end. */
  function Resume(r: Reader, segs: seq<string>, k: nat, cur: Option<Failpoint>, acc: Rewritten): Result<Rewritten, RewriteError>
    requires k <= |segs| && (cur.Some? ==> k < |segs|) && !r.comment("") && !r.outside("").Open?
  {
    if cur.Some? then Activate(r, segs, k + 1, cur, acc)
    else if k + 1 >= |segs| then Ok(acc)
    else Activate(r, segs, k + 1, None, acc)
  }

  /** The loop body of ToFailpoints on the line at `k` inside block `fp`:
      absorbs a comment line, or flushes the block and writes the line. */
  method ReadInBlock(r: Reader, segs: seq<string>, k: nat, fp: Failpoint, ghost written: seq<string>, fps: seq<Failpoint>, dst: string)
    returns (cur: Option<Failpoint>, ghost written': seq<string>, fps': seq<Failpoint>, dst': string)
    requires r.flush == FlushLines && !r.comment("") && !r.outside("").Open?
    requires k <= |segs| && dst == Concat(written)
    ensures dst' == Concat(written') && (cur.Some? ==> k < |segs|)
    ensures Activate(r, segs, k, Some(fp), Rewritten(written, fps)) == Resume(r, segs, k, cur, Rewritten(written', fps'))
  {
    var l := ReadAt(segs, k);
    if r.comment(l) {
      ActivateAbsorb(r, segs, k, fp, Rewritten(written, fps));
      return Some(r.absorb(fp, l)), written, fps, dst;
    }
    written' := written + FlushLines(fp) + [l];
    fps' := fps + [fp];
    ActivateWrite(r, segs, k, Some(fp), Rewritten(written, fps), l, Rewritten(written', fps'));
    dst' := Flush(fp, dst);
    ConcatAppend(written, FlushLines(fp));
    ConcatSnoc(written + FlushLines(fp), l);
    dst' := dst' + l;
    cur := None;
  }

  /** The loop body of ToFailpoints on the line at `k` outside a block:
      fails on a malformed header, opens a block, or writes the line as
      the reader has it. */
  method ReadOutside(r: Reader, segs: seq<string>, k: nat, ghost written: seq<string>, fps: seq<Failpoint>, dst: string)
    returns (res: Result<Option<Failpoint>, RewriteError>, ghost written': seq<string>, dst': string)
    requires !r.comment("") && !r.outside("").Open?
    requires k <= |segs| && dst == Concat(written)
    ensures res.Err? ==> Activate(r, segs, k, None, Rewritten(written, fps)) == Err(res.error)
    ensures res.Ok? ==> dst' == Concat(written') && (res.value.Some? ==> k < |segs|)
    ensures res.Ok? ==> Activate(r, segs, k, None, Rewritten(written, fps)) == Resume(r, segs, k, res.value, Rewritten(written', fps))
  {
    written', dst' := written, dst;
    match r.outside(ReadAt(segs, k))
    case Fail(e) =>
      ActivateMalformed(r, segs, k, Rewritten(written, fps), e);
      res := Err(e);
    case Open(fp) =>
      ActivateOpen(r, segs, k, Rewritten(written, fps), fp);
      res := Ok(Some(fp));
    case Write(w) =>
      written' := written + [w];
      ActivateWrite(r, segs, k, None, Rewritten(written, fps), w, Rewritten(written', fps));
      ConcatSnoc(written, w);
      dst' := dst + w;
      res := Ok(None);
  }

  /** ToFailpoints: turns every gofail comment block into failpoint code and
      exposes gofail labels; returns the text written and the failpoints. */
  method ToFailpoints(src: string) returns (res: Result<(string, seq<Failpoint>), RewriteError>)
    ensures res.Ok? <==> Activated(src).Ok?
    ensures res.Ok? ==> res.value.0 == Concat(Activated(src).value.out) && res.value.1 == Activated(src).value.fps
    ensures res.Err? ==> res.error == Activated(src).error
  {
    var segs := Segments(src);
    RealEmpty();
    res := ActivateLines(Real, segs);
  }

  /** The loop of ToFailpoints over the segments of the source, reading
      lines with `r`; ToFailpoints runs it with the rewriter's reader. */
  method ActivateLines(r: Reader, segs: seq<string>) returns (res: Result<(string, seq<Failpoint>), RewriteError>)
    requires r.flush == FlushLines && !r.comment("") && !r.outside("").Open?
    ensures var spec := Activate(r, segs, 0, None, Rewritten([], []));
      && (res.Ok? <==> spec.Ok?)
      && (res.Ok? ==> res.value.0 == Concat(spec.value.out) && res.value.1 == spec.value.fps)
      && (res.Err? ==> res.error == spec.error)
  {
    ghost var spec := Activate(r, segs, 0, None, Rewritten([], []));
    var k := 0;
    var curfp: Option<Failpoint> := None;
    var dst := "";
    ghost var written: seq<string> := [];
    var fps: seq<Failpoint> := [];
    while true
      invariant k <= |segs| && dst == Concat(written)
      invariant Activate(r, segs, k, curfp, Rewritten(written, fps)) == spec
      decreases |segs| - k
    {
      var eof := k + 1 >= |segs|;
      if curfp.Some? {
        curfp, written, fps, dst := ReadInBlock(r, segs, k, curfp.value, written, fps, dst);
      } else {
        var a;
        a, written, dst := ReadOutside(r, segs, k, written, fps, dst);
        if a.Err? {
          return Err(a.error);
        }
        curfp := a.value;
      }
      if curfp.None? && eof {
        break;
      }
      k := k + 1;
    }
    res := Ok((dst, fps));
  }

  // ---------------------------------------------------------------------
  // ToComments

  /** The footer marker that ends a one-line failpoint and the last line of
      a multi-line one. */
  const BadTypeMarker := "; __badType"

  /** The text a generated header holds right after its value variable: the
      error variable and the start of the runtime name. */
  function HdrMarker(ev: string): (r: string)
    ensures HasPrefix(r, ErrDecl(ev))
  {
    ErrDecl(ev) + "__fp_"
  }

  /** A line ToComments reads as the header of generated failpoint code. */
  predicate IsGeneratedHeader(l: string) {
    (Contains(l, HdrMarker(ErrVarGoFail)) || Contains(l, HdrMarker(ErrVarGoFailGo)))
    && HasPrefix(TrimSpace(l), "if")
  }

  /** A generated header names its runtime failpoint, `__fp_NAME`. */
  lemma HeaderHoldsRuntime(l: string)
    requires IsGeneratedHeader(l)
    ensures Contains(l, "__fp_")
  {
    if Contains(l, HdrMarker(ErrVarGoFail)) {
      ContainsEnd(l, ErrDecl(ErrVarGoFail), "__fp_");
    } else {
      ContainsEnd(l, ErrDecl(ErrVarGoFailGo), "__fp_");
    }
  }

  /** An exposed label `lb` preceded by a tab goes back to the comment `pfx`:
      the first `lb` of the line is replaced. */
  function RestoreLabel(l: string, lb: string, pfx: string): (r: string)
    requires lb != []
    ensures !Contains(l, "\t" + lb) ==> r == l
    ensures Contains(l, "\t" + lb) ==> Contains(l, lb) && r == Before(l, lb) + pfx + After(l, lb)
  {
    if Contains(l, "\t" + lb) then
      ContainsEnd(l, "\t", lb);
      Replace1(l, lb, pfx)
    else l
  }

  /** What ToComments does with one line: the string written, the
      indentation and unmatched-brace count it goes on with, and the
      failpoint found, if any. */
  datatype Undo = Undo(w: string, ws: string, unmatched: int, found: seq<Failpoint>)

  /** A code line `l` of a multi-line failpoint back as a comment line, with
      `unmatched` braces open before it, `opening` and `closing` the braces it
      holds and `pad` its padding after the indentation `ws`: the footer goes
      with the last line. */
  function CodeBack(l: string, ws: string, unmatched: int, opening: int, closing: int, pad: string): Result<Undo, RewriteError> {
    var u := unmatched + opening - closing;
    var lTrim := TrimSpace(l);
    var text := if u == 0 then Before(lTrim, BadTypeMarker) else lTrim;
    if |pad| == 0 then Err(IndexOutOfRange(l))
    else Ok(Undo(ws + "//" + pad[1..] + text + "\n", ws, u, []))
  }

  /** One iteration of the ToComments loop on line `l`, with indentation `ws`
      and `unmatched` braces open. */
  function UndoLine(l: string, ws: string, unmatched: int): Result<Undo, RewriteError> {
    if unmatched > 0 then CodeBack(l, ws, unmatched, Count(l, '{'), Count(l, '}'), WsPrefixOf(l, ws))
    else if IsGeneratedHeader(l) then
      var pfx := if Contains(l, HdrMarker(ErrVarGoFailGo)) then PfxGofailGo else PfxGofail;
      var ws' := Before(l, "i");
      HeaderHoldsRuntime(l);
      var n := Before(SplitSecond(l, "__fp_"), ".");
      if !Contains(l, ".(") then Err(IndexOutOfRange(l))
      else
        var t := Before(SplitSecond(l, ".("), ")");
        var u := if Contains(l, BadTypeMarker) then unmatched else 1;
        Ok(Undo(ws' + pfx + " var " + n + " " + t + "\n", ws', u, [Failpoint(false, n, t, [], "")]))
    else
      Ok(Undo(RestoreLabel(RestoreLabel(l, LabelGofail, PfxGofail), LabelGofailGo, PfxGofailGo), ws, unmatched, []))
  }

  /** ToComments, as a value: the scan with the rewriter's reader. */
  function Deactivated(src: string): Result<Rewritten, RewriteError> {
    Deactivate(Real, Segments(src), 0, "", 0, Rewritten([], []))
  }

  /** One step of Deactivate, on a line it reads without error. */
  lemma DeactivateStep(r: Reader, segs: seq<string>, k: nat, ws: string, unmatched: int, acc: Rewritten, u: Undo)
    requires k < |segs| && r.undo(segs[k], ws, unmatched) == Ok(u)
    ensures Deactivate(r, segs, k, ws, unmatched, acc)
      == Deactivate(r, segs, k + 1, u.ws, u.unmatched, Rewritten(acc.out + [u.w], acc.fps + u.found))
  {
  }

  /** ToComments on a line inside a multi-line failpoint. */
  lemma UndoInside(l: string, ws: string, unmatched: int)
    requires unmatched > 0
    ensures UndoLine(l, ws, unmatched) == CodeBack(l, ws, unmatched, Count(l, '{'), Count(l, '}'), WsPrefixOf(l, ws))
  {
  }

  /** ToComments on a generated header outside a block. */
  lemma UndoHeader(l: string, ws: string, unmatched: int)
    requires unmatched <= 0 && IsGeneratedHeader(l)
    ensures Contains(l, "__fp_")
    ensures var pfx := if Contains(l, HdrMarker(ErrVarGoFailGo)) then PfxGofailGo else PfxGofail;
      var ws' := Before(l, "i");
      var n := Before(SplitSecond(l, "__fp_"), ".");
      UndoLine(l, ws, unmatched) ==
        if !Contains(l, ".(") then Err(IndexOutOfRange(l))
        else
          var t := Before(SplitSecond(l, ".("), ")");
          var u := if Contains(l, BadTypeMarker) then unmatched else 1;
          Ok(Undo(ws' + pfx + " var " + n + " " + t + "\n", ws', u, [Failpoint(false, n, t, [], "")]))
  {
    HeaderHoldsRuntime(l);
  }

  /** ToComments on a line outside a block that is no generated header. */
  lemma UndoOther(l: string, ws: string, unmatched: int)
    requires unmatched <= 0 && !IsGeneratedHeader(l)
    ensures UndoLine(l, ws, unmatched)
      == Ok(Undo(RestoreLabel(RestoreLabel(l, LabelGofail, PfxGofail), LabelGofailGo, PfxGofailGo), ws, unmatched, []))
  {
  }

  /** The body of the ToComments loop on line `l`: inside a multi-line
      failpoint, a code line goes back to a comment; a generated header goes
      back to a gofail header; any other line has its exposed labels hidden. */
  method UndoStep(l: string, ws: string, unmatched: int) returns (r: Result<Undo, RewriteError>)
    ensures r == UndoLine(l, ws, unmatched)
  {
    if unmatched > 0 {
      r := UndoCodeLine(l, ws, unmatched);
      UndoInside(l, ws, unmatched);
    } else if IsGeneratedHeader(l) {
      r := UndoGeneratedHeader(l, ws, unmatched);
    } else {
      r := HideLabels(l, ws, unmatched);
    }
  }

  /** A code line of a multi-line failpoint goes back to a comment line; the
      footer is dropped from the last one. */
  method UndoCodeLine(l: string, ws: string, unmatched: int) returns (r: Result<Undo, RewriteError>)
    ensures r == CodeBack(l, ws, unmatched, Count(l, '{'), Count(l, '}'), WsPrefixOf(l, ws))
  {
    var opening, closing := NumBraces(l);
    var pad := WsPrefix(l, ws);
    r := CodeBack(l, ws, unmatched, opening, closing, pad);
  }

  /** A generated header goes back to a gofail header, reporting the
      failpoint's name and type. */
  method UndoGeneratedHeader(l: string, ws: string, unmatched: int) returns (r: Result<Undo, RewriteError>)
    requires unmatched <= 0 && IsGeneratedHeader(l)
    ensures r == UndoLine(l, ws, unmatched)
  {
    UndoHeader(l, ws, unmatched);
    var pfx := PfxGofail;
    if Contains(l, HdrMarker(ErrVarGoFailGo)) {
      pfx := PfxGofailGo;
    }
    var ws' := Before(l, "i");
    var n := Before(SplitSecond(l, "__fp_"), ".");
    if !Contains(l, ".(") {
      return Err(IndexOutOfRange(l));
    }
    var t := Before(SplitSecond(l, ".("), ")");
    var u := unmatched;
    if !Contains(l, BadTypeMarker) {
      u := 1;
    }
    return Ok(Undo(ws' + pfx + " var " + n + " " + t + "\n", ws', u, [Failpoint(false, n, t, [], "")]));
  }

  /** Any other line is written with its exposed labels hidden again. */
  method HideLabels(l: string, ws: string, unmatched: int) returns (r: Result<Undo, RewriteError>)
    requires unmatched <= 0 && !IsGeneratedHeader(l)
    ensures r == UndoLine(l, ws, unmatched)
  {
    UndoOther(l, ws, unmatched);
    var restored := l;
    if Contains(restored, "\t" + LabelGofail) {
      restored := Replace1(restored, LabelGofail, PfxGofail);
    }
    if Contains(restored, "\t" + LabelGofailGo) {
      restored := Replace1(restored, LabelGofailGo, PfxGofailGo);
    }
    return Ok(Undo(restored, ws, unmatched, []));
  }

  /** ToComments: turns generated failpoint code back into gofail comments
      and hides exposed labels; returns the text written and the failpoints. */
  method ToComments(src: string) returns (res: Result<(string, seq<Failpoint>), RewriteError>)
    ensures res.Ok? <==> Deactivated(src).Ok?
    ensures res.Ok? ==> res.value.0 == Concat(Deactivated(src).value.out) && res.value.1 == Deactivated(src).value.fps
    ensures res.Err? ==> res.error == Deactivated(src).error
  {
    var segs := Segments(src);
    res := DeactivateLines(segs);
  }

  /** The loop of ToComments over the segments of the source. */
  method DeactivateLines(segs: seq<string>) returns (res: Result<(string, seq<Failpoint>), RewriteError>)
    ensures var spec := Deactivate(Real, segs, 0, "", 0, Rewritten([], []));
      && (res.Ok? <==> spec.Ok?)
      && (res.Ok? ==> res.value.0 == Concat(spec.value.out) && res.value.1 == spec.value.fps)
      && (res.Err? ==> res.error == spec.error)
  {
    ghost var spec := Deactivate(Real, segs, 0, "", 0, Rewritten([], []));
    var k := 0;
    var ws := "";
    var unmatched := 0;
    var dst := "";
    ghost var written: seq<string> := [];
    var fps: seq<Failpoint> := [];
    while k < |segs|
      invariant k <= |segs| && dst == Concat(written)
      invariant Deactivate(Real, segs, k, ws, unmatched, Rewritten(written, fps)) == spec
    {
      var step := UndoStep(segs[k], ws, unmatched);
      if step.Err? {
        assert spec == Err(step.error);
        return Err(step.error);
      }
      var u := step.value;
      DeactivateStep(Real, segs, k, ws, unmatched, Rewritten(written, fps), u);
      ConcatSnoc(written, u.w);
      dst := dst + u.w;
      written := written + [u.w];
      fps := fps + u.found;
      ws, unmatched := u.ws, u.unmatched;
      k := k + 1;
    }
    assert spec == Ok(Rewritten(written, fps));
    res := Ok((dst, fps));
  }
}
