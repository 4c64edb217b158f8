/** The round trip of the rewriter: on a source made of plain lines, label
    comments and gofail comment blocks in canonical form, ToFailpoints
    succeeds, and ToComments on its output gives the source back, reports
    a failpoint with the same name and type for every failpoint activated,
    and reads as many lines as the source has. */
module RoundTrip {
  import opened GoStrings
  import opened Lines
  import opened Wrappers
  import opened Failpoints
  import opened Rewrite
  import opened WellFormed
  import opened Generated
  import opened Labels

  // ---------------------------------------------------------------------
  // Sources

  /** A piece of a source file: a plain line, a label comment, or a gofail
      comment block, that is a header followed by comment lines, one per
      body (the text after the line's `//`). */
  datatype Item =
    | Plain(line: string)
    | Label(goFailGo: bool, lead: string, text: string)
    | Block(goFailGo: bool, ws: string, name: string, varType: string, bodies: seq<string>)

  /** The comment lines of a block indented by `ws`. */
  function Comments(ws: string, bs: seq<string>): (r: seq<string>)
    ensures |r| == |bs|
  {
    if bs == [] then [] else [CommentLine(ws, bs[0])] + Comments(ws, bs[1..])
  }

  /** The code ToFailpoints collects from those comment lines. */
  function Code(ws: string, bs: seq<string>): (r: seq<string>)
    ensures |r| == |bs|
  {
    if bs == [] then [] else [CodeLine(ws, bs[0])] + Code(ws, bs[1..])
  }

  /** The failpoint ToFailpoints activates for a block. */
  function Activation(it: Item): Failpoint
    requires it.Block?
  {
    Failpoint(it.goFailGo, it.name, it.varType, Code(it.ws, it.bodies), it.ws)
  }

  /** The failpoint ToComments reports for a block: name and type only. */
  function Deactivation(it: Item): Failpoint
    requires it.Block?
  {
    Failpoint(false, it.name, it.varType, [], "")
  }

  /** The source lines of an item. */
  function SrcLines(it: Item): seq<string> {
    match it
    case Plain(l) => [l]
    case Label(g, lead, text) => [LabelLine(g, lead, text)]
    case Block(g, ws, n, t, bs) => [HeaderLine(g, ws, n, t)] + Comments(ws, bs)
  }

  /** The lines ToFailpoints writes for an item, a block's failpoint being
      written by `flush`. */
  function GenLines(flush: Failpoint -> seq<string>, it: Item): seq<string> {
    match it
    case Plain(l) => [l]
    case Label(g, lead, text) => [ExposedLabel(g, lead, text)]
    case Block(_, _, _, _, _) => flush(Activation(it))
  }

  function SrcAll(items: seq<Item>): seq<string> {
    if items == [] then [] else SrcLines(items[0]) + SrcAll(items[1..])
  }

  function GenAll(flush: Failpoint -> seq<string>, items: seq<Item>): seq<string> {
    if items == [] then [] else GenLines(flush, items[0]) + GenAll(flush, items[1..])
  }

  /** The lines ToFailpoints writes for the items. */
  function Written(items: seq<Item>): seq<string> {
    GenAll(FlushLines, items)
  }

  function Activations(items: seq<Item>): seq<Failpoint> {
    if items == [] then []
    else (if items[0].Block? then [Activation(items[0])] else []) + Activations(items[1..])
  }

  function Deactivations(items: seq<Item>): seq<Failpoint> {
    if items == [] then []
    else (if items[0].Block? then [Deactivation(items[0])] else []) + Deactivations(items[1..])
  }

  /** The source text: the lines of the items, then a last line without a
      newline (possibly empty). */
  function Text(items: seq<Item>, tail: string): string {
    Concat(SrcAll(items) + [tail])
  }

  // ---------------------------------------------------------------------
  // Well-formed sources

  /** ToComments' count of unmatched braces, starting at `m` on the first
      body line, stays positive up to the last body line, where the closing
      brace of the footer brings it to zero (the type `t` is written in the
      footer too). */
  predicate Closes(bs: seq<string>, m: int, t: string)
    requires bs != []
    decreases |bs|
  {
    if |bs| == 1 then m + Net(bs[0]) + Net(t) - 1 == 0
    else m + Net(bs[0]) > 0 && Closes(bs[1..], m + Net(bs[0]), t)
  }

  predicate WfItem(it: Item) {
    match it
    case Plain(l) => IsLine(l) && IsPlain(l)
    case Label(_, lead, text) => IsLabelIndent(lead) && IsLabelText(text)
    case Block(_, ws, n, t, bs) =>
      && IsIndent(ws) && IsName(n) && IsType(t)
      && (forall j :: 0 <= j < |bs| ==> IsBody(bs[j]))
      && (bs != [] ==> Closes(bs, 1, t) && !Contains(bs[|bs| - 1], BadTypeMarker))
  }

  /** Every item is well formed, and the last line is plain and holds no
      newline. */
  predicate Formed(items: seq<Item>, tail: string)
    decreases |items|
  {
    if items == [] then IsPlain(tail) && '\n' !in tail
    else WfItem(items[0]) && Formed(items[1..], tail)
  }

  /** What follows a block ends it: a plain line that is no comment, or the
      last line, which is no comment. */
  predicate EndsBlock(comment: string -> bool, rest: seq<Item>, tail: string) {
    if rest == [] then !comment(tail) else rest[0].Plain? && !comment(rest[0].line)
  }

  /** Every block is ended by what follows it. */
  predicate Ended(comment: string -> bool, items: seq<Item>, tail: string)
    decreases |items|
  {
    items == [] || ((items[0].Block? ==> EndsBlock(comment, items[1..], tail)) && Ended(comment, items[1..], tail))
  }

  /** A source the round trip is stated for. */
  predicate Wf(items: seq<Item>, tail: string) {
    Formed(items, tail) && Ended(IsComment, items, tail)
  }

  // ---------------------------------------------------------------------
  // Sequences

  lemma {:induction false} SrcHeight(it: Item)
    requires it.Block?
    ensures |SrcLines(it)| == 1 + |it.bodies|
  {
  }

  /** The segments from `k` on start with `a`, then `x`. */
  lemma {:induction false} Advance(segs: seq<string>, k: nat, a: seq<string>, x: seq<string>)
    requires k <= |segs| && segs[k..] == a + x
    ensures k + |a| <= |segs| && segs[k..k + |a|] == a && segs[k + |a|..] == x
    ensures a != [] ==> ReadAt(segs, k) == a[0]
  {
    assert segs[k..][..|a|] == a;
    assert segs[k..][|a|..] == x;
    if a != [] {
      assert segs[k] == segs[k..][0];
    }
  }

  /** The segments `k` to `k + 1 + |x|` are `a`, then `x`. */
  lemma {:induction false} Cut(segs: seq<string>, k: nat, a: string, x: seq<string>)
    requires k + 1 + |x| <= |segs| && segs[k..k + 1 + |x|] == [a] + x
    ensures segs[k] == a && ReadAt(segs, k) == a && segs[k + 1..k + 1 + |x|] == x
  {
    assert segs[k] == segs[k..k + 1 + |x|][0];
    assert segs[k + 1..k + 1 + |x|] == segs[k..k + 1 + |x|][1..];
  }

  lemma {:induction false} Assoc3<T>(a: seq<T>, b: seq<T>, c: seq<T>)
    ensures a + b + c == a + (b + c)
  {
  }

  lemma {:induction false} Unit<T>(a: seq<T>)
    ensures a + [] == a && [] + a == a
  {
  }

  lemma {:induction false} Regroup<T>(a: seq<T>, b: seq<T>, c: seq<T>, d: seq<T>)
    ensures a + b + c + d == a + (b + c) + d
  {
  }

  lemma {:induction false} Regroup5<T>(a: seq<T>, b: seq<T>, x: T, c: seq<T>, d: seq<T>)
    ensures a + b + [x] + c + d == a + (b + ([x] + c)) + d
  {
  }

  // ---------------------------------------------------------------------
  // The two scans over an abstract reading of lines

  // Each fact about single lines is a predicate of its own arguments, so
  // that a proof draws on exactly the instances it names.

  /** A comment line of a block is a comment, and absorbing it adds its
      code line. */
  ghost predicate ReadsComment(r: Reader, fp: Failpoint, ws: string, b: string) {
    IsIndent(ws) && '\n' !in b ==>
      r.comment(CommentLine(ws, b)) && r.absorb(fp, CommentLine(ws, b)) == fp.(code := fp.code + [CodeLine(ws, b)])
  }

  /** A plain line outside a block is written as it is. */
  ghost predicate ReadsPlain(r: Reader, l: string) {
    IsPlain(l) ==> r.outside(l) == Write(l)
  }

  /** A label comment is written with its label exposed. */
  ghost predicate ReadsLabel(r: Reader, g: bool, lead: string, text: string) {
    IsLabelIndent(lead) && IsLabelText(text) ==> r.outside(LabelLine(g, lead, text)) == Write(ExposedLabel(g, lead, text))
  }

  /** The header of a block opens the block's failpoint. */
  ghost predicate ReadsHeader(r: Reader, it: Item) {
    it.Block? && IsIndent(it.ws) && IsName(it.name) && IsType(it.varType) ==>
      r.outside(HeaderLine(it.goFailGo, it.ws, it.name, it.varType)) == Open(Opened(it))
  }

  /** ToFailpoints reads the lines of a well-formed source as `r` does. */
  ghost predicate ReadsSource(r: Reader) {
    && !r.comment("") && !r.outside("").Open?
    && (forall fp, ws, b :: ReadsComment(r, fp, ws, b))
    && (forall l :: ReadsPlain(r, l))
    && (forall g, lead, text :: ReadsLabel(r, g, lead, text))
    && (forall it :: ReadsHeader(r, it))
  }

  /** A block's failpoint is written as a header line, then one line per
      body. */
  ghost predicate WritesBlock(r: Reader, it: Item) {
    it.Block? ==>
      && |r.flush(Activation(it))| == 1 + |it.bodies|
      && (it.bodies != [] ==> r.flush(Activation(it))[1..] == CodeRun(it.ws, it.bodies, r.footer(Activation(it))))
  }

  /** The header line written for a block goes back to the block's header,
      reporting its failpoint; its brace count is one when code follows. */
  ghost predicate UndoesHeader(r: Reader, it: Item, ws0: string) {
    it.Block? && IsIndent(it.ws) && IsName(it.name) && IsType(it.varType) ==>
      && |r.flush(Activation(it))| > 0
      && r.undo(r.flush(Activation(it))[0], ws0, 0)
         == Ok(Undo(HeaderLine(it.goFailGo, it.ws, it.name, it.varType), it.ws,
                    if it.bodies == [] then 0 else 1, [Deactivation(it)]))
  }

  /** A code line before the last goes back to its comment line. */
  ghost predicate UndoesCode(r: Reader, ws: string, b: string, m: int) {
    IsIndent(ws) && IsBody(b) && m > 0 && m + Net(b) != 0 ==>
      r.undo(CodeLine(ws, b) + "\n", ws, m) == Ok(Undo(CommentLine(ws, b), ws, m + Net(b), []))
  }

  /** The last code line, with the footer, goes back to its comment line and
      closes the block. */
  ghost predicate UndoesLast(r: Reader, fp: Failpoint, ws: string, b: string, m: int) {
    IsIndent(ws) && IsBody(b) && IsName(fp.name) && !Contains(b, BadTypeMarker) && m > 0 && m + Net(b) + Net(fp.varType) - 1 == 0 ==>
      r.undo(CodeLine(ws, b) + r.footer(fp) + "\n", ws, m) == Ok(Undo(CommentLine(ws, b), ws, 0, []))
  }

  /** A plain line outside a block is written back as it is. */
  ghost predicate UndoesPlain(r: Reader, l: string, ws: string) {
    IsPlain(l) ==> r.undo(l, ws, 0) == Ok(Undo(l, ws, 0, []))
  }

  /** An exposed label goes back to its label comment. */
  ghost predicate UndoesLabel(r: Reader, g: bool, lead: string, text: string, ws: string) {
    IsLabelIndent(lead) && IsLabelText(text) ==>
      r.undo(ExposedLabel(g, lead, text), ws, 0) == Ok(Undo(LabelLine(g, lead, text), ws, 0, []))
  }

  /** ToComments reads the lines ToFailpoints writes for a well-formed
      source as `r` does. */
  ghost predicate ReadsGenerated(r: Reader) {
    && (forall it :: WritesBlock(r, it))
    && (forall it, ws0 :: UndoesHeader(r, it, ws0))
    && (forall ws, b, m :: UndoesCode(r, ws, b, m))
    && (forall fp, ws, b, m :: UndoesLast(r, fp, ws, b, m))
    && (forall l, ws :: UndoesPlain(r, l, ws))
    && (forall g, lead, text, ws :: UndoesLabel(r, g, lead, text, ws))
  }

  /** The rewriter's own reading of source lines. */
  lemma RealReadsSource()
    ensures ReadsSource(Real)
  {
    EmptyLine();
    forall fp, ws, b ensures ReadsComment(Real, fp, ws, b) {
      if IsIndent(ws) && '\n' !in b {
        CommentAbsorbed(ws, b);
      }
    }
    forall l ensures ReadsPlain(Real, l) {
      if IsPlain(l) {
        PlainOutside(l);
      }
    }
    forall g, lead, text ensures ReadsLabel(Real, g, lead, text) {
      if IsLabelIndent(lead) && IsLabelText(text) {
        LabelOutside(g, lead, text);
      }
    }
    forall it ensures ReadsHeader(Real, it) {
      if it.Block? && IsIndent(it.ws) && IsName(it.name) && IsType(it.varType) {
        HeaderOpens(it.goFailGo, it.ws, it.name, it.varType);
      }
    }
  }

  /** The lines ToFailpoints writes for the code of a block with comment
      bodies `bs`, the footer `f` ending the last one. */
  function CodeRun(ws: string, bs: seq<string>, f: string): (r: seq<string>)
    requires bs != []
    ensures |r| == |bs|
    decreases |bs|
  {
    if |bs| == 1 then [CodeLine(ws, bs[0]) + f + "\n"]
    else [CodeLine(ws, bs[0]) + "\n"] + CodeRun(ws, bs[1..], f)
  }

  lemma {:induction false} CodeRunIs(ws: string, bs: seq<string>, f: string)
    requires bs != []
    ensures CodeLines(Code(ws, bs), f) == CodeRun(ws, bs, f)
    decreases |bs|
  {
    if |bs| > 1 {
      CodeRunIs(ws, bs[1..], f);
    }
  }

  /** The rewriter's own reading of generated lines. */
  lemma RealReadsGenerated()
    ensures ReadsGenerated(Real)
  {
    forall it ensures WritesBlock(Real, it) {
      if it.Block? && it.bodies != [] {
        CodeRunIs(it.ws, it.bodies, Footer(Activation(it)));
      }
    }
    forall it, ws0 ensures UndoesHeader(Real, it, ws0) {
      if it.Block? && IsIndent(it.ws) && IsName(it.name) && IsType(it.varType) {
        GeneratedHeaderUndo(Activation(it), ws0);
      }
    }
    forall ws, b, m ensures UndoesCode(Real, ws, b, m) {
      if IsIndent(ws) && IsBody(b) && m > 0 && m + Net(b) != 0 {
        UndoCode(ws, b, m);
      }
    }
    forall fp, ws, b, m ensures UndoesLast(Real, fp, ws, b, m) {
      if IsIndent(ws) && IsBody(b) && IsName(fp.name) && !Contains(b, BadTypeMarker) && m > 0 && m + Net(b) + Net(fp.varType) - 1 == 0 {
        UndoLastCode(fp, ws, b, m);
      }
    }
    forall l, ws ensures UndoesPlain(Real, l, ws) {
      if IsPlain(l) {
        PlainUndo(l, ws);
      }
    }
    forall g, lead, text, ws ensures UndoesLabel(Real, g, lead, text, ws) {
      if IsLabelIndent(lead) && IsLabelText(text) {
        LabelUndo(g, lead, text, ws);
      }
    }
  }

  // ---------------------------------------------------------------------
  // ToFailpoints on a well-formed source

  /** ToFailpoints absorbs one comment line into the code of a block. */
  lemma {:induction false} RunAbsorb(r: Reader, segs: seq<string>, k: nat, ws: string, b: string, fp: Failpoint, acc: Rewritten)
    requires ReadsSource(r)
    requires IsIndent(ws) && '\n' !in b && k < |segs| && segs[k] == CommentLine(ws, b)
    ensures Activate(r, segs, k, Some(fp), acc) == Activate(r, segs, k + 1, Some(fp.(code := fp.code + [CodeLine(ws, b)])), acc)
  {
    assert ReadAt(segs, k) == CommentLine(ws, b);
    assert ReadsComment(r, fp, ws, b);
  }

  /** ToFailpoints absorbs the comment lines of a block into its code: from
      segment `k` with the block's failpoint `fp` open, it reaches segment
      `j` with `fpEnd`, the failpoint whose code has those lines added. */
  lemma {:induction false} RunBodies(r: Reader, segs: seq<string>, k: nat, ws: string, bs: seq<string>, fp: Failpoint, acc: Rewritten,
                                     j: nat, fpEnd: Failpoint)
    requires ReadsSource(r)
    requires IsIndent(ws) && forall i :: 0 <= i < |bs| ==> '\n' !in bs[i]
    requires j == k + |bs| && fpEnd == fp.(code := fp.code + Code(ws, bs))
    requires j <= |segs| && segs[k..j] == Comments(ws, bs)
    ensures Activate(r, segs, k, Some(fp), acc) == Activate(r, segs, j, Some(fpEnd), acc)
    decreases |bs|
  {
    if bs == [] {
      Unit(fp.code);
      assert fpEnd == fp;
    } else {
      var c := CodeLine(ws, bs[0]);
      var fp' := fp.(code := fp.code + [c]);
      Assoc3(fp.code, [c], Code(ws, bs[1..]));
      assert fpEnd == fp'.(code := fp'.code + Code(ws, bs[1..]));
      Cut(segs, k, CommentLine(ws, bs[0]), Comments(ws, bs[1..]));
      RunBodies(r, segs, k + 1, ws, bs[1..], fp', acc, j, fpEnd);
      RunAbsorb(r, segs, k, ws, bs[0], fp, acc);
    }
  }

  /** ToFailpoints on the lines of well-formed items and the last line. */
  lemma {:induction false} RunItems(r: Reader, segs: seq<string>, k: nat, items: seq<Item>, tail: string, acc: Rewritten)
    requires ReadsSource(r) && Formed(items, tail) && Ended(r.comment, items, tail)
    requires k <= |segs| && segs[k..] == SrcAll(items) + [tail]
    ensures Activate(r, segs, k, None, acc) == Ok(Rewritten(acc.out + GenAll(r.flush, items) + [tail], acc.fps + Activations(items)))
    decreases |items|, 2
  {
    if items == [] {
      Advance(segs, k, [tail], []);
      assert ReadsPlain(r, tail);
      Unit(acc.out);
      Unit(acc.fps);
    } else {
      var it, rest := items[0], items[1..];
      Assoc3(SrcLines(it), SrcAll(rest), [tail]);
      match it
      case Plain(l) =>
        assert ReadsPlain(r, l);
        RunStep(r, segs, k, l, rest, tail, acc, l);
        Unit(Activations(rest));
      case Label(g, lead, text) =>
        assert ReadsLabel(r, g, lead, text);
        RunStep(r, segs, k, LabelLine(g, lead, text), rest, tail, acc, ExposedLabel(g, lead, text));
        Unit(Activations(rest));
      case Block(g, ws, n, t, bs) =>
        RunBlock(r, segs, k, it, rest, tail, acc);
    }
  }

  /** One step of ToFailpoints over a line written as `w`, then the rest. */
  lemma {:induction false} RunStep(r: Reader, segs: seq<string>, k: nat, l: string, rest: seq<Item>, tail: string, acc: Rewritten, w: string)
    requires ReadsSource(r) && Formed(rest, tail) && Ended(r.comment, rest, tail) && r.outside(l) == Write(w)
    requires k <= |segs| && segs[k..] == [l] + (SrcAll(rest) + [tail])
    ensures Activate(r, segs, k, None, acc)
      == Ok(Rewritten(acc.out + ([w] + GenAll(r.flush, rest)) + [tail], acc.fps + Activations(rest)))
    decreases |rest| + 1, 0
  {
    Advance(segs, k, [l], SrcAll(rest) + [tail]);
    var next := acc.(out := acc.out + [w]);
    RunItems(r, segs, k + 1, rest, tail, next);
    Regroup(acc.out, [w], GenAll(r.flush, rest), [tail]);
  }

  /** The failpoint a block's header opens, before its code is read. */
  function Opened(it: Item): Failpoint
    requires it.Block?
  {
    Failpoint(it.goFailGo, it.name, it.varType, [], it.ws)
  }

  /** ToFailpoints over a block, the line that ends it, then the rest. */
  lemma {:induction false} RunBlock(r: Reader, segs: seq<string>, k: nat, it: Item, rest: seq<Item>, tail: string, acc: Rewritten)
    requires ReadsSource(r) && it.Block? && WfItem(it)
    requires EndsBlock(r.comment, rest, tail) && Formed(rest, tail) && Ended(r.comment, rest, tail)
    requires k <= |segs| && segs[k..] == SrcLines(it) + (SrcAll(rest) + [tail])
    ensures Activate(r, segs, k, None, acc)
      == Ok(Rewritten(acc.out + (GenLines(r.flush, it) + GenAll(r.flush, rest)) + [tail], acc.fps + ([Activation(it)] + Activations(rest))))
    decreases |rest| + 1, 1
  {
    var j, fp := k + 1 + |it.bodies|, Activation(it);
    Advance(segs, k, SrcLines(it), SrcAll(rest) + [tail]);
    SrcHeight(it);
    assert segs[j..] == SrcAll(rest) + [tail];
    RunOpen(r, segs, k, it, acc);
    RunFlush(r, segs, j, fp, rest, tail, acc);
    assert GenLines(r.flush, it) == r.flush(fp);
  }

  /** ToFailpoints over the lines of a block: it opens the block on the
      header and absorbs the comment lines into the block's failpoint. */
  lemma {:induction false} RunOpen(r: Reader, segs: seq<string>, k: nat, it: Item, acc: Rewritten)
    requires ReadsSource(r) && it.Block? && WfItem(it)
    requires k + 1 + |it.bodies| <= |segs| && segs[k..k + 1 + |it.bodies|] == SrcLines(it)
    ensures Activate(r, segs, k, None, acc) == Activate(r, segs, k + 1 + |it.bodies|, Some(Activation(it)), acc)
  {
    var bs, ws := it.bodies, it.ws;
    var fp := Activation(it);
    Unit(Code(ws, bs));
    assert fp == Opened(it).(code := Opened(it).code + Code(ws, bs));
    BlockLines(segs, k, it);
    assert ReadsHeader(r, it);
    assert Activate(r, segs, k, None, acc) == Activate(r, segs, k + 1, Some(Opened(it)), acc);
    RunBodies(r, segs, k + 1, ws, bs, Opened(it), acc, k + 1 + |bs|, fp);
  }

  /** The lines of a block: its header, then its comment lines. */
  lemma {:induction false} BlockLines(segs: seq<string>, k: nat, it: Item)
    requires it.Block?
    requires k + 1 + |it.bodies| <= |segs| && segs[k..k + 1 + |it.bodies|] == SrcLines(it)
    ensures ReadAt(segs, k) == HeaderLine(it.goFailGo, it.ws, it.name, it.varType)
    ensures segs[k + 1..k + 1 + |it.bodies|] == Comments(it.ws, it.bodies)
  {
    Cut(segs, k, HeaderLine(it.goFailGo, it.ws, it.name, it.varType), Comments(it.ws, it.bodies));
  }

  /** ToFailpoints at the line that ends a block: the block's failpoint is
      flushed, then the rest. */
  lemma {:induction false} RunFlush(r: Reader, segs: seq<string>, k: nat, fp: Failpoint, rest: seq<Item>, tail: string, acc: Rewritten)
    requires ReadsSource(r) && EndsBlock(r.comment, rest, tail) && Formed(rest, tail) && Ended(r.comment, rest, tail)
    requires k <= |segs| && segs[k..] == SrcAll(rest) + [tail]
    ensures Activate(r, segs, k, Some(fp), acc)
      == Ok(Rewritten(acc.out + (r.flush(fp) + GenAll(r.flush, rest)) + [tail], acc.fps + ([fp] + Activations(rest))))
    decreases |rest| + 1, 0
  {
    var gen := r.flush(fp);
    if rest == [] {
      Advance(segs, k, [tail], []);
      Unit(gen);
      Unit([fp]);
    } else {
      var l := rest[0].line;
      Assoc3([l], SrcAll(rest[1..]), [tail]);
      Advance(segs, k, [l], SrcAll(rest[1..]) + [tail]);
      Regroup5(acc.out, gen, l, GenAll(r.flush, rest[1..]), [tail]);
      Unit(Activations(rest[1..]));
      Assoc3(acc.fps, [fp], Activations(rest[1..]));
      var next := Rewritten(acc.out + gen + [l], acc.fps + [fp]);
      RunItems(r, segs, k + 1, rest[1..], tail, next);
    }
  }

  // ---------------------------------------------------------------------
  // ToComments on what ToFailpoints wrote

  /** The brace counts ToComments holds before each code line of a block
      whose bodies are `bs`, from `m` on the first, and after the last. */
  function Counts(bs: seq<string>, m: int): (ms: seq<int>)
    requires bs != []
    ensures |ms| == |bs| + 1 && ms[0] == m && ms[|bs|] == 0
    decreases |bs|
  {
    if |bs| == 1 then [m, 0] else [m] + Counts(bs[1..], m + Net(bs[0]))
  }

  /** ToComments reads the code lines of a block back as its comment lines,
      with the brace counts Counts. */
  lemma {:induction false} CodeUndone(r: Reader, ws: string, bs: seq<string>, fp: Failpoint, m: int)
    requires ReadsGenerated(r)
    requires IsIndent(ws) && IsName(fp.name) && bs != [] && m > 0
    requires (forall j :: 0 <= j < |bs| ==> IsBody(bs[j])) && Closes(bs, m, fp.varType)
    requires !Contains(bs[|bs| - 1], BadTypeMarker)
    ensures forall i :: 0 <= i < |bs| ==>
      r.undo(CodeRun(ws, bs, r.footer(fp))[i], ws, Counts(bs, m)[i]) == Ok(Undo(Comments(ws, bs)[i], ws, Counts(bs, m)[i + 1], []))
    decreases |bs|
  {
    var f := r.footer(fp);
    var ls, cs, ms := CodeRun(ws, bs, f), Comments(ws, bs), Counts(bs, m);
    if |bs| == 1 {
      assert UndoesLast(r, fp, ws, bs[0], m);
      assert ls[0] == CodeLine(ws, bs[0]) + f + "\n";
      assert cs[0] == CommentLine(ws, bs[0]);
    } else {
      var m' := m + Net(bs[0]);
      assert bs[1..][|bs| - 2] == bs[|bs| - 1];
      CodeUndone(r, ws, bs[1..], fp, m');
      assert UndoesCode(r, ws, bs[0], m);
      assert ls[0] == CodeLine(ws, bs[0]) + "\n";
      assert cs[0] == CommentLine(ws, bs[0]);
      assert ms[1] == m';
      forall i | 1 <= i < |bs|
        ensures r.undo(ls[i], ws, ms[i]) == Ok(Undo(cs[i], ws, ms[i + 1], []))
      {
        assert ls[i] == CodeRun(ws, bs[1..], f)[i - 1];
        assert cs[i] == Comments(ws, bs[1..])[i - 1];
        assert ms[i] == Counts(bs[1..], m')[i - 1] && ms[i + 1] == Counts(bs[1..], m')[i];
      }
    }
  }

  /** ToComments over lines `ls` it reads back as `cs`, its brace count
      going through `ms`. */
  lemma {:induction false} DRunLines(r: Reader, segs: seq<string>, k: nat, ws: string, ls: seq<string>, cs: seq<string>, ms: seq<int>,
                                     acc: Rewritten)
    requires |cs| == |ls| && |ms| == |ls| + 1
    requires k + |ls| <= |segs| && segs[k..k + |ls|] == ls
    requires forall i :: 0 <= i < |ls| ==> r.undo(ls[i], ws, ms[i]) == Ok(Undo(cs[i], ws, ms[i + 1], []))
    ensures Deactivate(r, segs, k, ws, ms[0], acc) == Deactivate(r, segs, k + |ls|, ws, ms[|ls|], Rewritten(acc.out + cs, acc.fps))
    decreases |ls|
  {
    if ls == [] {
      Unit(acc.out);
    } else {
      assert segs[k] == ls[0];
      DeactivateStep(r, segs, k, ws, ms[0], acc, Undo(cs[0], ws, ms[1], []));
      Unit(acc.fps);
      var acc' := Rewritten(acc.out + [cs[0]], acc.fps);
      assert segs[k + 1..k + |ls|] == ls[1..];
      forall i | 0 <= i < |ls| - 1
        ensures r.undo(ls[1..][i], ws, ms[1..][i]) == Ok(Undo(cs[1..][i], ws, ms[1..][i + 1], []))
      {
        assert ls[1..][i] == ls[i + 1] && cs[1..][i] == cs[i + 1] && ms[1..][i] == ms[i + 1] && ms[1..][i + 1] == ms[i + 2];
      }
      DRunLines(r, segs, k + 1, ws, ls[1..], cs[1..], ms[1..], acc');
      assert cs == [cs[0]] + cs[1..];
      Assoc3(acc.out, [cs[0]], cs[1..]);
    }
  }

  /** ToComments on the lines ToFailpoints wrote for well-formed items and
      the last line: the source lines come back. */
  lemma {:induction false} DRunItems(r: Reader, segs: seq<string>, k: nat, items: seq<Item>, tail: string, ws: string, acc: Rewritten)
    requires ReadsGenerated(r) && Formed(items, tail)
    requires k <= |segs| && segs[k..] == GenAll(r.flush, items) + [tail]
    ensures Deactivate(r, segs, k, ws, 0, acc) == Ok(Rewritten(acc.out + SrcAll(items) + [tail], acc.fps + Deactivations(items)))
    decreases |items|, 1
  {
    if items == [] {
      Advance(segs, k, [tail], []);
      assert UndoesPlain(r, tail, ws);
      Unit(acc.out);
      Unit(acc.fps);
    } else {
      var it, rest := items[0], items[1..];
      Assoc3(GenLines(r.flush, it), GenAll(r.flush, rest), [tail]);
      match it
      case Plain(l) =>
        assert UndoesPlain(r, l, ws);
        DRunStepOver(r, segs, k, l, l, ws, rest, tail, acc);
        Unit(Deactivations(rest));
      case Label(g, lead, text) =>
        assert UndoesLabel(r, g, lead, text, ws);
        DRunStepOver(r, segs, k, ExposedLabel(g, lead, text), LabelLine(g, lead, text), ws, rest, tail, acc);
        Unit(Deactivations(rest));
      case Block(g, ws', n, t, bs) =>
        DRunBlock(r, segs, k, it, rest, tail, ws, acc);
    }
  }

  /** One step of ToComments over a line written back as `w`, then the rest. */
  lemma {:induction false} DRunStepOver(r: Reader, segs: seq<string>, k: nat, l: string, w: string, ws: string,
                                        rest: seq<Item>, tail: string, acc: Rewritten)
    requires ReadsGenerated(r) && Formed(rest, tail) && r.undo(l, ws, 0) == Ok(Undo(w, ws, 0, []))
    requires k <= |segs| && segs[k..] == [l] + (GenAll(r.flush, rest) + [tail])
    ensures Deactivate(r, segs, k, ws, 0, acc)
      == Ok(Rewritten(acc.out + ([w] + SrcAll(rest)) + [tail], acc.fps + Deactivations(rest)))
    decreases |rest| + 1, 0
  {
    Advance(segs, k, [l], GenAll(r.flush, rest) + [tail]);
    Unit(acc.fps);
    var next := Rewritten(acc.out + [w], acc.fps);
    DRunItems(r, segs, k + 1, rest, tail, ws, next);
    Regroup(acc.out, [w], SrcAll(rest), [tail]);
  }

  /** ToComments over the lines of a block, then the rest. */
  lemma {:induction false} DRunBlock(r: Reader, segs: seq<string>, k: nat, it: Item, rest: seq<Item>, tail: string, ws: string, acc: Rewritten)
    requires ReadsGenerated(r) && it.Block? && WfItem(it) && Formed(rest, tail)
    requires k <= |segs| && segs[k..] == GenLines(r.flush, it) + (GenAll(r.flush, rest) + [tail])
    ensures Deactivate(r, segs, k, ws, 0, acc)
      == Ok(Rewritten(acc.out + (SrcLines(it) + SrcAll(rest)) + [tail], acc.fps + ([Deactivation(it)] + Deactivations(rest))))
    decreases |rest| + 1, 0
  {
    var k2 := k + 1 + |it.bodies|;
    assert WritesBlock(r, it);
    GenBlockSegs(r, segs, k, it, GenAll(r.flush, rest) + [tail]);
    var acc2 := Rewritten(acc.out + SrcLines(it), acc.fps + [Deactivation(it)]);
    assert Deactivate(r, segs, k, ws, 0, acc) == Deactivate(r, segs, k2, it.ws, 0, acc2) by {
      DRunBlockLines(r, segs, k, it, ws, acc);
    }
    DRunItems(r, segs, k2, rest, tail, it.ws, acc2);
    Assoc3(acc.out, SrcLines(it), SrcAll(rest));
    Assoc3(acc.fps, [Deactivation(it)], Deactivations(rest));
  }

  /** The segments from `k` on: the lines written for a block, then `x`. */
  lemma {:induction false} GenBlockSegs(r: Reader, segs: seq<string>, k: nat, it: Item, x: seq<string>)
    requires it.Block? && WritesBlock(r, it)
    requires k <= |segs| && segs[k..] == GenLines(r.flush, it) + x
    ensures k + 1 + |it.bodies| <= |segs| && segs[k..k + 1 + |it.bodies|] == r.flush(Activation(it))
    ensures segs[k + 1 + |it.bodies|..] == x
  {
    assert GenLines(r.flush, it) == r.flush(Activation(it));
    Advance(segs, k, r.flush(Activation(it)), x);
  }

  /** ToComments over the lines ToFailpoints wrote for a block: the block's
      lines come back, with its failpoint, and the brace count is zero. */
  lemma {:induction false} DRunBlockLines(r: Reader, segs: seq<string>, k: nat, it: Item, ws: string, acc: Rewritten)
    requires ReadsGenerated(r) && it.Block? && WfItem(it)
    requires k + 1 + |it.bodies| <= |segs| && segs[k..k + 1 + |it.bodies|] == r.flush(Activation(it))
    ensures Deactivate(r, segs, k, ws, 0, acc)
      == Deactivate(r, segs, k + 1 + |it.bodies|, it.ws, 0, Rewritten(acc.out + SrcLines(it), acc.fps + [Deactivation(it)]))
  {
    var fp := Activation(it);
    var bs, ws' := it.bodies, it.ws;
    var h := HeaderLine(it.goFailGo, ws', it.name, it.varType);
    DRunHeader(r, segs, k, it, ws, acc);
    var acc1 := Rewritten(acc.out + [h], acc.fps + [Deactivation(it)]);
    if bs != [] {
      var gen := r.flush(fp);
      assert WritesBlock(r, it);
      assert segs[k + 1..k + 1 + |bs|] == CodeRun(ws', bs, r.footer(fp)) by {
        Cut(segs, k, gen[0], gen[1..]);
      }
      DRunCode(r, segs, k + 1, it, acc1);
    } else {
      Unit(acc1.out);
    }
    Assoc3(acc.out, [h], Comments(ws', bs));
  }

  /** ToComments on the header line ToFailpoints wrote for a block: the
      block's header comes back, with its failpoint, and a block opens
      exactly when the failpoint has code. */
  lemma {:induction false} DRunHeader(r: Reader, segs: seq<string>, k: nat, it: Item, ws: string, acc: Rewritten)
    requires ReadsGenerated(r) && it.Block? && WfItem(it)
    requires k + 1 + |it.bodies| <= |segs| && segs[k..k + 1 + |it.bodies|] == r.flush(Activation(it))
    ensures Deactivate(r, segs, k, ws, 0, acc)
      == Deactivate(r, segs, k + 1, it.ws, if it.bodies == [] then 0 else 1,
                    Rewritten(acc.out + [HeaderLine(it.goFailGo, it.ws, it.name, it.varType)], acc.fps + [Deactivation(it)]))
  {
    var gen := r.flush(Activation(it));
    assert WritesBlock(r, it) && UndoesHeader(r, it, ws);
    var u := Undo(HeaderLine(it.goFailGo, it.ws, it.name, it.varType), it.ws, if it.bodies == [] then 0 else 1, [Deactivation(it)]);
    assert k < |segs| && r.undo(segs[k], ws, 0) == Ok(u) by {
      assert segs[k] == gen[0];
    }
    DeactivateStep(r, segs, k, ws, 0, acc, u);
  }

  /** ToComments over the code lines ToFailpoints wrote for a block, the
      brace count going from one to zero. */
  lemma {:induction false} DRunCode(r: Reader, segs: seq<string>, k: nat, it: Item, acc: Rewritten)
    requires ReadsGenerated(r) && it.Block? && WfItem(it) && it.bodies != []
    requires k + |it.bodies| <= |segs| && segs[k..k + |it.bodies|] == CodeRun(it.ws, it.bodies, r.footer(Activation(it)))
    ensures Deactivate(r, segs, k, it.ws, 1, acc)
      == Deactivate(r, segs, k + |it.bodies|, it.ws, 0, Rewritten(acc.out + Comments(it.ws, it.bodies), acc.fps))
  {
    var fp := Activation(it);
    CodeUndone(r, it.ws, it.bodies, fp, 1);
    DRunLines(r, segs, k, it.ws, CodeRun(it.ws, it.bodies, r.footer(fp)), Comments(it.ws, it.bodies), Counts(it.bodies, 1), acc);
  }

  // ---------------------------------------------------------------------
  // The round trip

  /** The code line and the comment line of a block at body `j`. */
  lemma {:induction false} BodyAt(ws: string, bs: seq<string>, j: nat)
    requires j < |bs|
    ensures Code(ws, bs)[j] == CodeLine(ws, bs[j]) && Comments(ws, bs)[j] == CommentLine(ws, bs[j])
    decreases j
  {
    if j > 0 {
      BodyAt(ws, bs[1..], j - 1);
    }
  }

  /** A text without a newline, then the newline, is a complete line. */
  lemma LineOf3(a: string, b: string, c: string)
    requires '\n' !in a && '\n' !in b && '\n' !in c
    ensures IsLine(a + b + (c + "\n"))
  {
    assert a + b + (c + "\n") == a + b + c + "\n";
    LineOf(a + b + c);
  }

  /** What a well-formed item reads as and is written as are complete
      lines. */
  lemma ItemLines(it: Item)
    requires WfItem(it)
    ensures forall j :: 0 <= j < |SrcLines(it)| ==> IsLine(SrcLines(it)[j])
    ensures forall j :: 0 <= j < |GenLines(FlushLines, it)| ==> IsLine(GenLines(FlushLines, it)[j])
  {
    match it
    case Plain(l) =>
    case Label(g, lead, text) =>
      assert '\n' !in Pfx(g) && '\n' !in Marker(g);
      LineOf3(lead, Pfx(g), text);
      LineOf3(lead, Marker(g), text);
    case Block(g, ws, n, t, bs) =>
      NameTypeChars(n, t);
      var h := HeaderLine(g, ws, n, t);
      assert h == ws + Pfx(g) + " var " + n + " " + t + "\n";
      assert '\n' !in Pfx(g) + " var ";
      LineOf(ws + Pfx(g) + " var " + n + " " + t);
      forall j | 0 <= j < |SrcLines(it)| ensures IsLine(SrcLines(it)[j]) {
        if j > 0 {
          BodyAt(ws, bs, j - 1);
          assert SrcLines(it)[j] == CommentLine(ws, bs[j - 1]);
          LineOf(ws + "//" + bs[j - 1]);
        }
      }
      var fp := Activation(it);
      assert OneLineFields(fp) by {
        forall j | 0 <= j < |fp.code| ensures '\n' !in fp.code[j] {
          BodyAt(ws, bs, j);
        }
      }
      FlushLinesAreLines(fp);
  }

  /** The source of well-formed items and the text ToFailpoints writes for
      them are complete lines, then the last line. */
  lemma {:induction false} AllShaped(items: seq<Item>, tail: string)
    requires Formed(items, tail)
    ensures Shaped(SrcAll(items) + [tail]) && Shaped(Written(items) + [tail])
    decreases |items|
  {
    if items == [] {
      Unit([tail]);
    } else {
      var it, rest := items[0], items[1..];
      AllShaped(rest, tail);
      ItemLines(it);
      Assoc3(SrcLines(it), SrcAll(rest), [tail]);
      Assoc3(GenLines(FlushLines, it), GenAll(FlushLines, rest), [tail]);
      ShapedAppend(SrcLines(it), SrcAll(rest) + [tail]);
      ShapedAppend(GenLines(FlushLines, it), GenAll(FlushLines, rest) + [tail]);
    }
  }

  /** ToFailpoints on a well-formed source succeeds, writes the lines of
      Written and activates one failpoint per block, in order. */
  lemma ActivatedText(items: seq<Item>, tail: string)
    requires Wf(items, tail)
    ensures Activated(Text(items, tail)) == Ok(Rewritten(Written(items) + [tail], Activations(items)))
  {
    AllShaped(items, tail);
    SegmentsOfConcat(SrcAll(items) + [tail]);
    var segs := Segments(Text(items, tail));
    RealReadsSource();
    assert segs[0..] == segs;
    RunItems(Real, segs, 0, items, tail, Rewritten([], []));
    Unit(Written(items));
    Unit(Activations(items));
  }

  /** ToComments on what ToFailpoints writes for well-formed items gives
      the source lines back and reports one failpoint per block, in order. */
  lemma DeactivatedText(items: seq<Item>, tail: string)
    requires Formed(items, tail)
    ensures Deactivated(Concat(Written(items) + [tail])) == Ok(Rewritten(SrcAll(items) + [tail], Deactivations(items)))
  {
    AllShaped(items, tail);
    SegmentsOfConcat(Written(items) + [tail]);
    var segs := Segments(Concat(Written(items) + [tail]));
    RealReadsGenerated();
    assert segs[0..] == segs;
    DRunItems(Real, segs, 0, items, tail, "", Rewritten([], []));
    Unit(SrcAll(items));
    Unit(Deactivations(items));
  }

  /** The round trip: ToComments undoes ToFailpoints on a well-formed
      source, and the failpoints it reports are those ToFailpoints
      activated, with their names and types. */
  lemma RoundTrip(items: seq<Item>, tail: string)
    requires Wf(items, tail)
    ensures var a := Activated(Text(items, tail));
      && a.Ok? && a.value.fps == Activations(items)
      && var d := Deactivated(Concat(a.value.out));
      && d.Ok? && Concat(d.value.out) == Text(items, tail)
      && d.value.fps == Deactivations(items)
  {
    ActivatedText(items, tail);
    DeactivatedText(items, tail);
  }

  /** ToFailpoints writes as many lines as the source has: a block's
      comment lines become its header and code lines one for one. */
  lemma {:induction false} SameHeight(items: seq<Item>)
    ensures |Written(items)| == |SrcAll(items)|
    decreases |items|
  {
    if items != [] {
      SameHeight(items[1..]);
      var it := items[0];
      if it.Block? {
        assert |GenLines(FlushLines, it)| == |SrcLines(it)|;
      }
    }
  }

  /** The failpoints the two rewriters report pair up one for one, in
      order, with the same names and types. */
  lemma {:induction false} SamePoints(items: seq<Item>)
    ensures |Activations(items)| == |Deactivations(items)|
    ensures forall i :: 0 <= i < |Activations(items)| ==>
      Activations(items)[i].name == Deactivations(items)[i].name
      && Activations(items)[i].varType == Deactivations(items)[i].varType
    decreases |items|
  {
    if items != [] {
      SamePoints(items[1..]);
      var a, d := Activations(items), Deactivations(items);
      var a', d' := Activations(items[1..]), Deactivations(items[1..]);
      if items[0].Block? {
        assert a == [Activation(items[0])] + a' && d == [Deactivation(items[0])] + d';
        forall i | 0 < i < |a| ensures a[i] == a'[i - 1] && d[i] == d'[i - 1] {
        }
      } else {
        assert a == a' && d == d';
      }
    }
  }

  /** The round trip through the two methods: ToFailpoints, then ToComments
      on its text, on a well-formed source. */
  method RewriteBack(items: seq<Item>, tail: string) returns (text: string, fps: seq<Failpoint>, back: string, found: seq<Failpoint>)
    requires Wf(items, tail)
    ensures text == Concat(Written(items) + [tail]) && fps == Activations(items)
    ensures back == Text(items, tail) && found == Deactivations(items)
    ensures |Segments(text)| == |Segments(back)|
    ensures |fps| == |found| && forall i :: 0 <= i < |fps| ==> fps[i].name == found[i].name && fps[i].varType == found[i].varType
  {
    RoundTrip(items, tail);
    ActivatedText(items, tail);
    AllShaped(items, tail);
    SegmentsOfConcat(SrcAll(items) + [tail]);
    SegmentsOfConcat(Written(items) + [tail]);
    SameHeight(items);
    SamePoints(items);
    var a := ToFailpoints(Text(items, tail));
    text, fps := a.value.0, a.value.1;
    var d := ToComments(text);
    back, found := d.value.0, d.value.1;
  }
}
