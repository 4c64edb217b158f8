/** How ToComments reads back the code that flush generates: the header of a
    failpoint, whatever its name and type, is recognised as a header, and
    its indentation, kind, name and type are recovered from it.

    The generated text is long and mostly literal.  The lemmas that take it
    apart are stated over the pieces of the text as variables (the literal
    pieces passed in as arguments), with what each piece holds given as a
    precondition; the facts about each literal piece are proved on their own. */
module Generated {
  import opened GoStrings
  import opened Wrappers
  import opened Failpoints
  import opened Rewrite
  import opened WellFormed

  // ---------------------------------------------------------------------
  // Reading a header given piece by piece

  /** The prefixes of a generated header that the readers below look at.
      The pieces are, in order: the indentation, `if v`, the name, the error
      declaration, the runtime name, `.Acquire();`, the error check, `go` or
      `defer`, the runtime name, `.Release(); `, the bound variable,
      `, __fpTypeOK := v`, the name, `.(`, the type, the `goto`, the name,
      `} `, then whatever follows the header. */
  lemma ChainPrefixes(g: string, ws: string, lIf: string, name: string, d: string, rt: string, lAcq: string,
                      c: string, e: string, lRel: string, bv: string, lTok: string, lOpen: string, t: string,
                      lGoto: string, lClose: string, x: string)
    requires g == ws + lIf + name + d + rt + lAcq + c + e + rt + lRel + bv + lTok + name + lOpen + t + lGoto + name + lClose + x
    ensures HasPrefix(g, ws + lIf + name + d + rt + lAcq + c + e + rt + lRel + bv + lTok + name + lOpen + t + lGoto)
    ensures HasPrefix(g, ws + lIf + name + d + rt + lAcq)
    ensures HasPrefix(g, ws + lIf)
  {
    var h15 := ws + lIf + name + d + rt + lAcq + c + e + rt + lRel + bv + lTok + name + lOpen + t + lGoto;
    PrefixAppend(h15 + name + lClose, x);
    PrefixShrink(g, h15 + name, lClose);
    PrefixShrink(g, h15, name);
    var h14 := ws + lIf + name + d + rt + lAcq + c + e + rt + lRel + bv + lTok + name + lOpen + t;
    PrefixShrink(g, h14, lGoto);
    var h13 := ws + lIf + name + d + rt + lAcq + c + e + rt + lRel + bv + lTok + name + lOpen;
    PrefixShrink(g, h13, t);
    var h12 := ws + lIf + name + d + rt + lAcq + c + e + rt + lRel + bv + lTok + name;
    PrefixShrink(g, h12, lOpen);
    var h11 := ws + lIf + name + d + rt + lAcq + c + e + rt + lRel + bv + lTok;
    PrefixShrink(g, h11, name);
    var h10 := ws + lIf + name + d + rt + lAcq + c + e + rt + lRel + bv;
    PrefixShrink(g, h10, lTok);
    var h9 := ws + lIf + name + d + rt + lAcq + c + e + rt + lRel;
    PrefixShrink(g, h9, bv);
    var h8 := ws + lIf + name + d + rt + lAcq + c + e + rt;
    PrefixShrink(g, h8, lRel);
    var h7 := ws + lIf + name + d + rt + lAcq + c + e;
    PrefixShrink(g, h7, rt);
    var h6 := ws + lIf + name + d + rt + lAcq + c;
    PrefixShrink(g, h6, e);
    var h5 := ws + lIf + name + d + rt + lAcq;
    PrefixShrink(g, h5, c);
    var h4 := ws + lIf + name + d + rt;
    PrefixShrink(g, h4, lAcq);
    var h3 := ws + lIf + name + d;
    PrefixShrink(g, h3, rt);
    var h2 := ws + lIf + name;
    PrefixShrink(g, h2, d);
    PrefixShrink(g, ws + lIf, name);
  }

  /** Past its indentation, a generated header starts with `if`; the text
      before its first `i` is the indentation. */
  lemma ReadIndent(g: string, ws: string, lIf: string)
    requires HasPrefix(g, ws + lIf) && Blank(ws) && HasPrefix(lIf, "if")
    ensures HasPrefix(TrimSpace(g), "if") && Contains(g, "i") && Before(g, "i") == ws
  {
    PrefixExtend(ws, lIf, "i");
    PrefixTrans(g, ws + lIf, ws + "i");
    NoStartByFirstChar(ws, "i");
    FirstAt(g, ws, "i");
    var t := g[|ws|..];
    assert g == ws + t;
    assert t[..2] == lIf[..2];
    TrimSpaceKeeps(g, ws, t, 1);
  }

  /** The runtime name after the value variable and the error declaration:
      the error declaration is followed by `__fp_`, and the text after the
      first `__fp_`, up to the `.` of `.Acquire()`, is the name. */
  lemma ReadName(g: string, h2: string, d: string, p: string, name: string, lAcq: string)
    requires HasPrefix(g, h2 + d + (p + name) + lAcq) && HasPrefix(lAcq, ".") && p != []
    requires NoStartIn(h2 + d, p) && '.' !in name && NoStartIn(name + ".", p)
    ensures Contains(g, d + p) && Contains(g, p) && Before(SplitSecond(g, p), ".") == name
  {
    var h3 := h2 + d;
    PrefixExtend(h3 + (p + name), lAcq, ".");
    PrefixTrans(g, h3 + (p + name) + lAcq, h3 + (p + name) + ".");
    Assoc(h3, p, name);
    Assoc(h3 + p, name, ".");
    PrefixShrink(g, h3 + p, name + ".");
    FirstAt(g, h3, p);
    DropPrefix(g, h3 + p, name + ".");
    var after := After(g, p);
    assert after == g[|h3 + p|..];
    var rest := after[|name| + 1..];
    assert after == name + ['.'] + rest;
    BeforeOfBefore(name, '.', rest, p);
    Assoc(h2, d, p);
    DropPrefix(g, h2, d + p);
    ContainsAt(g, d + p, |h2|);
  }

  /** The asserted type: the text after the first `.(`, up to the `)` that
      starts the `goto`. */
  lemma ReadType(g: string, h12: string, lOpen: string, t: string, lGoto: string)
    requires HasPrefix(g, h12 + lOpen + t + lGoto) && HasPrefix(lGoto, ")") && lOpen != []
    requires NoStartIn(h12, lOpen) && ')' !in t && NoStartIn(t + ")", lOpen)
    ensures Contains(g, lOpen) && Before(SplitSecond(g, lOpen), ")") == t
  {
    var h13 := h12 + lOpen;
    PrefixExtend(h13 + t, lGoto, ")");
    PrefixTrans(g, h13 + t + lGoto, h13 + t + ")");
    Assoc(h13, t, ")");
    PrefixShrink(g, h13, t + ")");
    FirstAt(g, h12, lOpen);
    DropPrefix(g, h13, t + ")");
    var after := After(g, lOpen);
    assert after == g[|h13|..];
    var rest := after[|t| + 1..];
    assert after == t + [')'] + rest;
    BeforeOfBefore(t, ')', rest, lOpen);
  }

  /** No occurrence of `q` starts in the first four pieces of a header when
      none starts in any of them. */
  lemma NoStartHead(ws: string, lIf: string, name: string, d: string, q: string)
    requires NoStartIn(ws, q) && NoStartIn(lIf, q) && NoStartIn(name, q) && NoStartIn(d, q)
    ensures NoStartIn(ws + lIf + name + d, q)
  {
    NoStartConcat(ws, lIf, q);
    NoStartConcat(ws + lIf, name, q);
    NoStartConcat(ws + lIf + name, d, q);
  }

  /** The same for the first twelve pieces. */
  lemma NoStartHead12(ws: string, lIf: string, name: string, d: string, rt: string, lAcq: string,
                      c: string, e: string, lRel: string, bv: string, lTok: string, q: string)
    requires NoStartIn(ws, q) && NoStartIn(lIf, q) && NoStartIn(name, q) && NoStartIn(d, q)
    requires NoStartIn(rt, q) && NoStartIn(lAcq, q) && NoStartIn(c, q) && NoStartIn(e, q)
    requires NoStartIn(lRel, q) && NoStartIn(bv, q) && NoStartIn(lTok, q)
    ensures NoStartIn(ws + lIf + name + d + rt + lAcq + c + e + rt + lRel + bv + lTok + name, q)
  {
    NoStartHead(ws, lIf, name, d, q);
    var h := ws + lIf + name + d;
    NoStartConcat(h, rt, q); h := h + rt;
    NoStartConcat(h, lAcq, q); h := h + lAcq;
    NoStartConcat(h, c, q); h := h + c;
    NoStartConcat(h, e, q); h := h + e;
    NoStartConcat(h, rt, q); h := h + rt;
    NoStartConcat(h, lRel, q); h := h + lRel;
    NoStartConcat(h, bv, q); h := h + bv;
    NoStartConcat(h, lTok, q); h := h + lTok;
    NoStartConcat(h, name, q);
  }

  /** No occurrence of `q` starts anywhere in a header and what follows it
      when none starts in any piece; `.Acquire();` is taken together with
      the error check, and `.Release(); ` with the bound variable and the
      type check, since an occurrence could start in one and end in the
      other. */
  lemma NoStartChain(g: string, ws: string, lIf: string, name: string, d: string, rt: string, lAcq: string,
                     c: string, e: string, lRel: string, bv: string, lTok: string, lOpen: string, t: string,
                     lGoto: string, lClose: string, x: string, q: string)
    requires g == ws + lIf + name + d + rt + lAcq + c + e + rt + lRel + bv + lTok + name + lOpen + t + lGoto + name + lClose + x
    requires NoStartIn(ws, q) && NoStartIn(lIf, q) && NoStartIn(name, q) && NoStartIn(d, q) && NoStartIn(rt, q)
    requires NoStartIn(lAcq + c, q) && NoStartIn(e, q) && NoStartIn(lRel + bv + lTok, q)
    requires NoStartIn(lOpen, q) && NoStartIn(t, q) && NoStartIn(lGoto, q) && NoStartIn(lClose, q) && NoStartIn(x, q)
    ensures NoStartIn(g, q)
  {
    var h := ws;
    NoStartConcat(h, lIf, q); h := h + lIf;
    NoStartConcat(h, name, q); h := h + name;
    NoStartConcat(h, d, q); h := h + d;
    NoStartConcat(h, rt, q); h := h + rt;
    NoStartConcat3(h, lAcq, c, q); h := h + lAcq + c;
    NoStartConcat(h, e, q); h := h + e;
    NoStartConcat(h, rt, q); h := h + rt;
    NoStartConcat4(h, lRel, bv, lTok, q); h := h + lRel + bv + lTok;
    NoStartConcat(h, name, q); h := h + name;
    NoStartConcat(h, lOpen, q); h := h + lOpen;
    NoStartConcat(h, t, q); h := h + t;
    NoStartConcat(h, lGoto, q); h := h + lGoto;
    NoStartConcat(h, name, q); h := h + name;
    NoStartConcat(h, lClose, q); h := h + lClose;
    NoStartConcat(h, x, q);
  }

  lemma NoStartConcat4(h: string, a: string, b: string, c: string, q: string)
    requires NoStartIn(h, q) && NoStartIn(a + b + c, q)
    ensures NoStartIn(h + a + b + c, q)
  {
    NoStartConcat(h, a + b + c, q);
    Assoc(h, a, b);
    Assoc(h + a, b, c);
    Assoc(h, a + b, c);
  }

  // ---------------------------------------------------------------------
  // What each piece of a generated header holds

  lemma BlankNoStart(ws: string, q: string)
    requires Blank(ws) && q != [] && !IsSpace(q[0])
    ensures NoStartIn(ws, q)
  {
    NoStartByFirstChar(ws, q);
  }

  lemma NameNoStart(name: string, q: string)
    requires IsName(name) && q != [] && !IsAlnum(q[0])
    ensures NoStartIn(name, q)
  {
    NoStartByFirstChar(name, q);
  }

  lemma TypeNoStart(t: string, q: string)
    requires IsType(t) && q != [] && !IsTypeChar(q[0])
    ensures NoStartIn(t, q)
  {
    NoStartByFirstChar(t, q);
  }

  /** The runtime name holds `_` and letters and digits only. */
  lemma RuntimeNoStart(fp: Failpoint, q: string)
    requires IsName(fp.name) && q != [] && q[0] != '_' && !IsAlnum(q[0])
    ensures NoStartIn(Runtime(fp), q)
  {
    NoStartByFirstChar("__fp_", q);
    NameNoStart(fp.name, q);
    NoStartConcat("__fp_", fp.name, q);
  }

  /** The bound variable is `_` or the name. */
  lemma BoundNoStart(fp: Failpoint, v: string, q: string)
    requires IsName(fp.name) && (v == "_" || v == fp.name) && q != [] && q[0] != '_' && !IsAlnum(q[0])
    ensures NoStartIn(BoundVar(fp, v), q)
  {
    if BoundVar(fp, v) == "_" {
      NoStartByFirstChar("_", q);
    } else {
      NameNoStart(fp.name, q);
    }
  }

  /** The pieces before the first `.(`. */
  lemma PiecesBeforeAssert(fp: Failpoint)
    ensures NoStartIn("if v", ".(") && NoStartIn(ErrDecl(ErrVar(fp)), ".(") && NoStartIn(ErrCheck(ErrVar(fp)), ".(")
    ensures NoStartIn(Exec(fp), ".(") && NoStartIn(", __fpTypeOK := v", ".(")
    ensures NoStartIn(".Acquire();", ".(") && NoStartIn(".Release(); ", ".(")
  {
    NoStartByFirstChar("if v", ".(");
    NoStartByFirstChar(ErrDecl(ErrVar(fp)), ".(");
    NoStartByFirstChar(ErrCheck(ErrVar(fp)), ".(");
    NoStartByFirstChar(Exec(fp), ".(");
    NoStartByFirstChar(", __fpTypeOK := v", ".(");
    CallsBeforeAssert();
  }

  /** `.Acquire()` and `.Release()` start with a `.` that no `(` follows. */
  lemma CallsBeforeAssert()
    ensures NoStartIn(".Acquire();", ".(") && NoStartIn(".Release(); ", ".(")
  {
    NoStartWitness(".Acquire();", ".(", [1, 0, 0, 0, 0, 0, 0, 0, 0, 0, 0]);
    NoStartWitness(".Release(); ", ".(", [1, 0, 0, 0, 0, 0, 0, 0, 0, 0, 0, 0]);
  }

  /** The pieces before the first `__fp_`. */
  lemma PiecesBeforeRuntime(fp: Failpoint)
    ensures NoStartIn("if v", "__fp_") && NoStartIn(ErrDecl(ErrVar(fp)), "__fp_")
  {
    NoStartByFirstChar("if v", "__fp_");
    if fp.goFailGo {
      NoStartWitness(ErrDecl(ErrVarGoFailGo), "__fp_", [0, 0, 4, 1, 0, 0, 0, 0, 0, 0, 0, 0, 0, 0, 0]);
    } else {
      NoStartWitness(ErrDecl(ErrVarGoFail), "__fp_", [0, 0, 4, 1, 0, 0, 0, 0, 0, 0, 0, 0, 0]);
    }
  }

  // ---------------------------------------------------------------------
  // Reading back a generated header

  /** ToComments finds in a generated header, followed by anything: the
      `if` and the error declaration that mark it as a header, its
      indentation, its name and its type. */
  lemma HeaderReads(fp: Failpoint, v: string, x: string)
    requires IsIndent(fp.ws) && IsName(fp.name) && IsType(fp.varType) && (v == "_" || v == fp.name)
    ensures var g := Hdr(fp, v) + x;
      && HasPrefix(TrimSpace(g), "if") && Contains(g, HdrMarker(ErrVar(fp)))
      && Before(g, "i") == fp.ws
      && Contains(g, "__fp_") && Before(SplitSecond(g, "__fp_"), ".") == fp.name
      && Contains(g, ".(") && Before(SplitSecond(g, ".("), ")") == fp.varType
  {
    var ev := ErrVar(fp);
    var d, c, e, rt, bv := ErrDecl(ev), ErrCheck(ev), Exec(fp), Runtime(fp), BoundVar(fp, v);
    var ws, name, t := fp.ws, fp.name, fp.varType;
    var g := Hdr(fp, v) + x;
    ChainPrefixes(g, ws, "if v", name, d, rt, ".Acquire();", c, e, ".Release(); ", bv, ", __fpTypeOK := v",
      ".(", t, "); if !__fpTypeOK { goto __badType", "} ", x);
    LiteralStarts();
    ReadIndent(g, ws, "if v");
    RuntimeFirst(fp);
    ReadName(g, ws + "if v" + name, d, "__fp_", name, ".Acquire();");
    AssertFirst(fp, v);
    ReadType(g, ws + "if v" + name + d + rt + ".Acquire();" + c + e + rt + ".Release(); " + bv + ", __fpTypeOK := v" + name,
      ".(", t, "); if !__fpTypeOK { goto __badType");
  }

  lemma LiteralStarts()
    ensures HasPrefix("if v", "if") && HasPrefix(".Acquire();", ".") && HasPrefix("); if !__fpTypeOK { goto __badType", ")")
    ensures "__fp_" != [] && ".(" != []
  {
  }

  /** No `__fp_` starts before the runtime name, nor in the name and the
      `.` after it. */
  lemma RuntimeFirst(fp: Failpoint)
    requires IsIndent(fp.ws) && IsName(fp.name)
    ensures NoStartIn(fp.ws + "if v" + fp.name + ErrDecl(ErrVar(fp)), "__fp_")
    ensures '.' !in fp.name && NoStartIn(fp.name + ".", "__fp_")
  {
    PiecesBeforeRuntime(fp);
    BlankNoStart(fp.ws, "__fp_");
    NameNoStart(fp.name, "__fp_");
    NoStartHead(fp.ws, "if v", fp.name, ErrDecl(ErrVar(fp)), "__fp_");
    NameThenDot(fp.name);
  }

  /** No `.(` starts before the type assertion, nor in the type and the `)`
      after it. */
  lemma AssertFirst(fp: Failpoint, v: string)
    requires IsIndent(fp.ws) && IsName(fp.name) && IsType(fp.varType) && (v == "_" || v == fp.name)
    ensures var ev := ErrVar(fp);
      NoStartIn(fp.ws + "if v" + fp.name + ErrDecl(ev) + Runtime(fp) + ".Acquire();" + ErrCheck(ev) + Exec(fp)
        + Runtime(fp) + ".Release(); " + BoundVar(fp, v) + ", __fpTypeOK := v" + fp.name, ".(")
    ensures ')' !in fp.varType && NoStartIn(fp.varType + ")", ".(")
  {
    var ev := ErrVar(fp);
    PiecesBeforeAssert(fp);
    BlankNoStart(fp.ws, ".(");
    NameNoStart(fp.name, ".(");
    RuntimeNoStart(fp, ".(");
    BoundNoStart(fp, v, ".(");
    NoStartHead12(fp.ws, "if v", fp.name, ErrDecl(ev), Runtime(fp), ".Acquire();", ErrCheck(ev), Exec(fp),
      ".Release(); ", BoundVar(fp, v), ", __fpTypeOK := v", ".(");
    TypeAssertion(fp.varType);
  }

  /** A name holds no `.`, and no `__fp_` starts in it or in the `.` after it. */
  lemma NameThenDot(name: string)
    requires IsName(name)
    ensures '.' !in name && NoStartIn(name + ".", "__fp_")
  {
    NoStartByFirstChar(name + ".", "__fp_");
  }

  /** A type holds no `)`, and no `.(` starts in it or in the `)` after it. */
  lemma TypeAssertion(t: string)
    requires IsType(t)
    ensures ')' !in t && NoStartIn(t + ")", ".(")
  {
    NoStartSecond(t + ")", ".(");
  }

  // ---------------------------------------------------------------------
  // What a generated header does not hold

  /** The pieces of a header in which no `; __badType` starts. */
  lemma PiecesNoFooter(fp: Failpoint, v: string)
    requires IsName(fp.name) && (v == "_" || v == fp.name)
    ensures var ev, m := ErrVar(fp), BadTypeMarker;
      && NoStartIn("if v", m) && NoStartIn(ErrDecl(ev), m) && NoStartIn(Exec(fp), m) && NoStartIn(".(", m)
      && NoStartIn("} ", m) && NoStartIn("\n", m)
      && NoStartIn(".Acquire();" + ErrCheck(ev), m)
      && NoStartIn(".Release(); " + BoundVar(fp, v) + ", __fpTypeOK := v", m)
  {
    var ev, m := ErrVar(fp), BadTypeMarker;
    NoStartByFirstChar("if v", m);
    NoStartByFirstChar(ErrDecl(ev), m);
    NoStartByFirstChar(Exec(fp), m);
    NoStartByFirstChar(".(", m);
    NoStartByFirstChar("} ", m);
    NoStartByFirstChar("\n", m);
    AcquireNoFooter(ev);
    ReleaseNoFooter(fp, v);
  }

  /** The `;` after `.Acquire()` is followed by the error check, not by
      `__badType`. */
  lemma AcquireNoFooter(ev: string)
    requires ev == ErrVarGoFail || ev == ErrVarGoFailGo
    ensures NoStartIn(".Acquire();" + ErrCheck(ev), "; __badType")
  {
    if ev == ErrVarGoFail {
      AcquireNoFooterErr();
    } else {
      AcquireNoFooterGoErr();
    }
  }

  lemma AcquireNoFooterErr()
    ensures NoStartIn(".Acquire();" + ErrCheck(ErrVarGoFail), "; __badType")
  {
    NoStartWitness(".Acquire();" + ErrCheck(ErrVarGoFail), "; __badType",
      [0, 0, 0, 0, 0, 0, 0, 0, 0, 0, 4, 0, 0, 0, 0, 0, 0, 0, 0, 0, 0, 0, 0, 0, 0, 0, 0, 0, 0]);
  }

  lemma AcquireNoFooterGoErr()
    ensures NoStartIn(".Acquire();" + ErrCheck(ErrVarGoFailGo), "; __badType")
  {
    NoStartWitness(".Acquire();" + ErrCheck(ErrVarGoFailGo), "; __badType",
      [0, 0, 0, 0, 0, 0, 0, 0, 0, 0, 4, 0, 0, 0, 0, 0, 0, 0, 0, 0, 0, 0, 0, 0, 0, 0, 0, 0, 0, 0, 0]);
  }

  /** The `;` after `.Release()` is followed by the bound variable, `_` or
      the name, and then `, `: not by `__badType`. */
  lemma ReleaseNoFooter(fp: Failpoint, v: string)
    requires IsName(fp.name) && (v == "_" || v == fp.name)
    ensures NoStartIn(".Release(); " + BoundVar(fp, v) + ", __fpTypeOK := v", "; __badType")
  {
    if BoundVar(fp, v) == "_" {
      ReleaseBlankNoFooter();
    } else {
      ReleaseNameNoFooter(fp.name);
    }
  }

  lemma ReleaseBlankNoFooter()
    ensures NoStartIn(".Release(); " + "_" + ", __fpTypeOK := v", "; __badType")
  {
    NoStartWitness(".Release(); " + "_" + ", __fpTypeOK := v", "; __badType",
      [0, 0, 0, 0, 0, 0, 0, 0, 0, 0, 3, 0, 0, 0, 0, 0, 0, 0, 0, 0, 0, 0, 0, 0, 0, 0, 0, 0, 0, 0]);
  }

  lemma ReleaseNameNoFooter(name: string)
    requires IsName(name)
    ensures NoStartIn(".Release(); " + name + ", __fpTypeOK := v", "; __badType")
  {
    var m := "; __badType";
    var s := ".Release(); " + name;
    forall i | 0 <= i < |s| ensures !Agree(s[i..], m) {
      if i == 10 {
        assert s[i..][2] == name[0];
        Differs(s[i..], m, 2);
      } else {
        assert s[i] != m[0];
        Differs(s[i..], m, 0);
      }
    }
    NoStartByFirstChar(", __fpTypeOK := v", m);
    NoStartConcat(s, ", __fpTypeOK := v", m);
  }

  /** The `goto` holds `__badType`, but after `goto `, not after `;`. */
  lemma GotoNoFooter()
    ensures NoStartIn("); if !__fpTypeOK { goto __badType", "; __badType")
  {
    NoStartWitness("); if !__fpTypeOK { goto __badType", "; __badType",
      [0, 2, 0, 0, 0, 0, 0, 0, 0, 0, 0, 0, 0, 0, 0, 0, 0, 0, 0, 0, 0, 0, 0, 0, 0, 0, 0, 0, 0, 0, 0, 0, 0, 0]);
  }

  /** The header of a failpoint with code, on a line of its own, holds no
      footer: ToComments reads the lines after it as the failpoint's code. */
  lemma MultiNoFooter(fp: Failpoint)
    requires IsIndent(fp.ws) && IsName(fp.name) && IsType(fp.varType)
    ensures !Contains(Hdr(fp, fp.name) + "\n", BadTypeMarker)
  {
    var ev, m := ErrVar(fp), BadTypeMarker;
    var g := Hdr(fp, fp.name) + "\n";
    PiecesNoFooter(fp, fp.name);
    GotoNoFooter();
    BlankNoStart(fp.ws, m);
    NameNoStart(fp.name, m);
    RuntimeNoStart(fp, m);
    TypeNoStart(fp.varType, m);
    NoStartChain(g, fp.ws, "if v", fp.name, ErrDecl(ev), Runtime(fp), ".Acquire();", ErrCheck(ev), Exec(fp),
      ".Release(); ", BoundVar(fp, fp.name), ", __fpTypeOK := v", ".(", fp.varType,
      "); if !__fpTypeOK { goto __badType", "} ", "\n", m);
    NotContains(g, m);
  }

  /** A `gofail` header holds no `, __fpGoErr := __fp_`: ToComments does not
      take it for a `gofail-go` one.  `x` is what follows the header. */
  lemma NoGoMarker(fp: Failpoint, v: string, x: string)
    requires IsIndent(fp.ws) && IsName(fp.name) && IsType(fp.varType) && (v == "_" || v == fp.name)
    requires !fp.goFailGo && NoStartIn(x, HdrMarker(ErrVarGoFailGo))
    ensures !Contains(Hdr(fp, v) + x, HdrMarker(ErrVarGoFailGo))
  {
    var m := HdrMarker(ErrVarGoFailGo);
    var g := Hdr(fp, v) + x;
    PiecesNoGoMarker();
    BlankNoStart(fp.ws, m);
    NameNoStart(fp.name, m);
    RuntimeNoStart(fp, m);
    TypeNoStart(fp.varType, m);
    BoundNoStart(fp, v, m);
    NoStartConcat(".Release(); ", BoundVar(fp, v), m);
    NoStartConcat(".Release(); " + BoundVar(fp, v), ", __fpTypeOK := v", m);
    NoStartChain(g, fp.ws, "if v", fp.name, ErrDecl(ErrVarGoFail), Runtime(fp), ".Acquire();", ErrCheck(ErrVarGoFail),
      "defer ", ".Release(); ", BoundVar(fp, v), ", __fpTypeOK := v", ".(", fp.varType,
      "); if !__fpTypeOK { goto __badType", "} ", x, m);
    NotContains(g, m);
  }

  /** The literal pieces of a `gofail` header in which no
      `, __fpGoErr := __fp_` starts. */
  lemma PiecesNoGoMarker()
    ensures var m := HdrMarker(ErrVarGoFailGo);
      && NoStartIn("if v", m) && NoStartIn(".Acquire();" + ErrCheck(ErrVarGoFail), m) && NoStartIn("defer ", m)
      && NoStartIn(".Release(); ", m) && NoStartIn(".(", m) && NoStartIn("); if !__fpTypeOK { goto __badType", m)
      && NoStartIn("} ", m) && NoStartIn(ErrDecl(ErrVarGoFail), m) && NoStartIn(", __fpTypeOK := v", m)
  {
    CallsNoGoMarker();
    var m := HdrMarker(ErrVarGoFailGo);
    NoStartByFirstChar("if v", m);
    NoStartByFirstChar("defer ", m);
    NoStartByFirstChar(".(", m);
    NoStartByFirstChar("} ", m);
    CommasNoGoMarker();
  }

  lemma CallsNoGoMarker()
    ensures var m := HdrMarker(ErrVarGoFailGo);
      && NoStartIn(".Acquire();" + ErrCheck(ErrVarGoFail), m) && NoStartIn(".Release(); ", m)
      && NoStartIn("); if !__fpTypeOK { goto __badType", m)
  {
    var m := HdrMarker(ErrVarGoFailGo);
    NoStartByFirstChar(".Acquire();" + ErrCheck(ErrVarGoFail), m);
    NoStartByFirstChar(".Release(); ", m);
    NoStartByFirstChar("); if !__fpTypeOK { goto __badType", m);
  }

  /** The two commas of a `gofail` header are followed by ` __fpErr` and
      ` __fpTypeOK`. */
  lemma CommasNoGoMarker()
    ensures NoStartIn(ErrDecl(ErrVarGoFail), HdrMarker(ErrVarGoFailGo))
    ensures NoStartIn(", __fpTypeOK := v", HdrMarker(ErrVarGoFailGo))
  {
    NoStartWitness(ErrDecl(ErrVarGoFail), HdrMarker(ErrVarGoFailGo), [6, 0, 0, 0, 0, 0, 0, 0, 0, 0, 0, 0, 0]);
    NoStartWitness(", __fpTypeOK := v", HdrMarker(ErrVarGoFailGo), [6, 0, 0, 0, 0, 0, 0, 0, 0, 0, 0, 0, 0, 0, 0, 0, 0]);
  }

  // ---------------------------------------------------------------------
  // The footer

  /** The footer, piece by piece: `; __badType`, the name, `: `, the runtime
      name, `.BadType(v`, the name, `, "`, the type and `"); };`. */
  lemma FooterChain(f: string, m: string, name: string, lColon: string, rt: string, lBad: string,
                    lQuote: string, t: string, lEnd: string, q: string)
    requires f == m + name + lColon + rt + lBad + name + lQuote + t + lEnd
    ensures HasPrefix(f, m)
    ensures (NoStartIn(m, q) && NoStartIn(name, q) && NoStartIn(lColon, q) && NoStartIn(rt, q) && NoStartIn(lBad, q)
             && NoStartIn(lQuote, q) && NoStartIn(t, q) && NoStartIn(lEnd, q)) ==> NoStartIn(f, q)
  {
    var h := m + name + lColon + rt + lBad + name + lQuote + t;
    PrefixAppend(h, lEnd);
    PrefixShrink(f, m + name + lColon + rt + lBad + name + lQuote, t);
    PrefixShrink(f, m + name + lColon + rt + lBad + name, lQuote);
    PrefixShrink(f, m + name + lColon + rt + lBad, name);
    PrefixShrink(f, m + name + lColon + rt, lBad);
    PrefixShrink(f, m + name + lColon, rt);
    PrefixShrink(f, m + name, lColon);
    PrefixShrink(f, m, name);
    if NoStartIn(m, q) && NoStartIn(name, q) && NoStartIn(lColon, q) && NoStartIn(rt, q) && NoStartIn(lBad, q)
      && NoStartIn(lQuote, q) && NoStartIn(t, q) && NoStartIn(lEnd, q) {
      var h := m;
      NoStartConcat(h, name, q); h := h + name;
      NoStartConcat(h, lColon, q); h := h + lColon;
      NoStartConcat(h, rt, q); h := h + rt;
      NoStartConcat(h, lBad, q); h := h + lBad;
      NoStartConcat(h, name, q); h := h + name;
      NoStartConcat(h, lQuote, q); h := h + lQuote;
      NoStartConcat(h, t, q); h := h + t;
      NoStartConcat(h, lEnd, q);
    }
  }

  /** The one-line form holds the footer marker. */
  lemma SingleHasFooter(fp: Failpoint)
    ensures Contains(Hdr(fp, "_") + Footer(fp) + "\n", BadTypeMarker)
  {
    var h, f, m := Hdr(fp, "_"), Footer(fp), BadTypeMarker;
    var g := h + f + "\n";
    FooterChain(f, "; __badType", fp.name, ": ", Runtime(fp), ".BadType(v", ", \"", fp.varType, "\"); };", m);
    PrefixExtend(h, f, m);
    PrefixAppend(h + f, "\n");
    PrefixTrans(g, h + f, h + m);
    DropPrefix(g, h, m);
    ContainsAt(g, m, |h|);
  }

  /** No `, __fpGoErr := __fp_` starts in the footer or the newline after it. */
  lemma FooterNoGoMarker(fp: Failpoint)
    requires IsName(fp.name) && IsType(fp.varType)
    ensures NoStartIn(Footer(fp) + "\n", HdrMarker(ErrVarGoFailGo))
  {
    var f, q := Footer(fp), HdrMarker(ErrVarGoFailGo);
    FooterPiecesNoGoMarker();
    NameNoStart(fp.name, q);
    RuntimeNoStart(fp, q);
    TypeNoStart(fp.varType, q);
    FooterChain(f, "; __badType", fp.name, ": ", Runtime(fp), ".BadType(v", ", \"", fp.varType, "\"); };", q);
    NoStartConcat(f, "\n", q);
  }

  lemma FooterPiecesNoGoMarker()
    ensures var q := HdrMarker(ErrVarGoFailGo);
      && NoStartIn("; __badType", q) && NoStartIn(": ", q) && NoStartIn(".BadType(v", q)
      && NoStartIn(", \"", q) && NoStartIn("\"); };", q) && NoStartIn("\n", q)
  {
    var q := HdrMarker(ErrVarGoFailGo);
    NoStartByFirstChar("; __badType", q);
    NoStartByFirstChar(": ", q);
    NoStartByFirstChar(".BadType(v", q);
    NoStartWitness(", \"", q, [2, 0, 0]);
    NoStartByFirstChar("\"); };", q);
    NoStartByFirstChar("\n", q);
  }

  // ---------------------------------------------------------------------
  // ToComments on a generated header

  /** ToComments on a line it reads as a header, with no block open: it
      writes the `// gofail: var NAME TYPE` header back, with the line's
      indentation, and opens a block unless the footer is on the same line. */
  lemma HeaderUndone(l: string, ws0: string, goFailGo: bool, ws: string, name: string, t: string, single: bool)
    requires HasPrefix(TrimSpace(l), "if")
    requires Contains(l, HdrMarker(if goFailGo then ErrVarGoFailGo else ErrVarGoFail))
    requires Contains(l, HdrMarker(ErrVarGoFailGo)) == goFailGo
    requires Before(l, "i") == ws
    requires Contains(l, "__fp_") && Before(SplitSecond(l, "__fp_"), ".") == name
    requires Contains(l, ".(") && Before(SplitSecond(l, ".("), ")") == t
    requires Contains(l, BadTypeMarker) == single
    ensures UndoLine(l, ws0, 0)
      == Ok(Undo(HeaderLine(goFailGo, ws, name, t), ws, if single then 0 else 1, [Failpoint(false, name, t, [], "")]))
  {
    assert IsGeneratedHeader(l);
  }

  /** ToComments reads the first line flush writes as the header of the
      failpoint: it writes back the canonical header, goes on with the
      failpoint's indentation, opens a block exactly when the failpoint has
      code, and reports the failpoint's name and type. */
  lemma GeneratedHeaderUndo(fp: Failpoint, ws0: string)
    requires IsIndent(fp.ws) && IsName(fp.name) && IsType(fp.varType)
    ensures UndoLine(FlushLines(fp)[0], ws0, 0)
      == Ok(Undo(HeaderLine(fp.goFailGo, fp.ws, fp.name, fp.varType), fp.ws, if fp.code == [] then 0 else 1,
                 [Failpoint(false, fp.name, fp.varType, [], "")]))
  {
    var l := FlushLines(fp)[0];
    if fp.code == [] {
      var h, f := Hdr(fp, "_"), Footer(fp);
      Assoc(h, f, "\n");
      HeaderReads(fp, "_", f + "\n");
      SingleHasFooter(fp);
      if !fp.goFailGo {
        FooterNoGoMarker(fp);
        NoGoMarker(fp, "_", f + "\n");
      }
    } else {
      HeaderReads(fp, fp.name, "\n");
      MultiNoFooter(fp);
      if !fp.goFailGo {
        FooterPiecesNoGoMarker();
        NoGoMarker(fp, fp.name, "\n");
      }
    }
    HeaderUndone(l, ws0, fp.goFailGo, fp.ws, fp.name, fp.varType, fp.code == []);
  }

  // ---------------------------------------------------------------------
  // ToComments on the code lines of a block

  /** A line with neither brace leaves the count of unmatched braces alone. */
  lemma NetFree(s: string)
    requires '{' !in s && '}' !in s
    ensures Net(s) == 0
  {
    assert multiset(s)['{'] == 0 && multiset(s)['}'] == 0;
  }

  /** The count of unmatched braces adds up over a concatenation. */
  lemma NetConcat(a: string, b: string)
    ensures Net(a + b) == Net(a) + Net(b)
  {
    assert multiset(a + b) == multiset(a) + multiset(b);
  }

  /** White space holds no brace. */
  lemma NetBlank(s: string)
    requires Blank(s)
    ensures Net(s) == 0
  {
    NetFree(s);
  }

  /** A name holds no brace. */
  lemma NetName(s: string)
    requires IsName(s)
    ensures Net(s) == 0
  {
    NetFree(s);
  }

  /** The footer closes one brace more than the type opens: the one the
      header opened. */
  lemma NetFooter(fp: Failpoint)
    requires IsName(fp.name)
    ensures Net(Footer(fp)) == Net(fp.varType) - 1
  {
    var n := fp.name;
    NetName(n);
    NetBadType();
    NetColon();
    NetRuntimePrefix();
    NetBadTypeCall();
    NetQuote();
    NetFooterEnd();
    var f := "; __badType";
    NetConcat(f, n); f := f + n;
    NetConcat(f, ": "); f := f + ": ";
    NetConcat("__fp_", n);
    NetConcat(f, Runtime(fp)); f := f + Runtime(fp);
    NetConcat(f, ".BadType(v"); f := f + ".BadType(v";
    NetConcat(f, n); f := f + n;
    NetConcat(f, ", \""); f := f + ", \"";
    NetConcat(f, fp.varType); f := f + fp.varType;
    NetConcat(f, "\"); };");
  }

  lemma NetColon() ensures Net(": ") == 0 { NetFree(": "); }

  lemma NetRuntimePrefix() ensures Net("__fp_") == 0 { NetFree("__fp_"); }

  lemma NetQuote() ensures Net(", \"") == 0 { NetFree(", \""); }

  lemma NetBadType() ensures Net("; __badType") == 0 { NetFree("; __badType"); }

  lemma NetBadTypeCall() ensures Net(".BadType(v") == 0 { NetFree(".BadType(v"); }

  /** The end of the footer closes one brace. */
  lemma NetFooterEnd()
    ensures Net("\"); };") == -1
  {
    var e := "\"); };";
    NetConcat(e[..4], e[4..]);
    assert e[..4] + e[4..] == e;
    NetFree(e[..4]);
    assert e[4..] == "};";
    NetOne("};", 0);
  }

  /** A line whose only brace is one `}`. */
  lemma NetOne(s: string, k: nat)
    requires k < |s| && s[k] == '}' && '{' !in s && forall i :: 0 <= i < |s| && i != k ==> s[i] != '}'
    ensures Net(s) == -1
  {
    assert s == s[..k] + [s[k]] + s[k + 1..];
    NetFree(s[..k]);
    NetFree(s[k + 1..]);
    NetConcat(s[..k], [s[k]]);
    NetConcat(s[..k] + [s[k]], s[k + 1..]);
    assert multiset([s[k]])['}'] == 1;
  }

  /** A code line has the braces of its text. */
  lemma NetCode(ws: string, b: string, f: string)
    requires Blank(ws)
    ensures Net(CodeLine(ws, b) + f + "\n") == Net(b) + Net(f)
  {
    NetBlank(ws);
    NetFree("\t");
    NetFree("\n");
    NetConcat(ws, "\t");
    NetConcat(ws + "\t", b);
    NetConcat(CodeLine(ws, b), f);
    NetConcat(CodeLine(ws, b) + f, "\n");
  }

  /** The text of a comment line splits into its leading white space and
      the rest, which starts with a non-space character. */
  lemma BodySplit(b: string)
    requires IsBody(b)
    ensures |Lead(b)| < |b| && !IsSpace(b[|Lead(b)|])
    ensures b == Lead(b) + b[|Lead(b)|..]
  {
    var r := Lead(b);
    assert b[..|r|] == r;
  }

  /** The padding ToComments finds on a code line, after the indentation: a
      tab and the leading white space of the text. */
  lemma PadOfCode(l: string, ws: string, b: string)
    requires IsIndent(ws) && IsBody(b) && HasPrefix(l, ws + "\t" + b)
    ensures |WsPrefixOf(l, ws)| > 0 && WsPrefixOf(l, ws)[1..] == Lead(b)
  {
    if ws != [] {
      PrefixShrink(l, ws + "\t", b);
      PrefixShrink(l, ws, "\t");
      IndexAtPrefix(l, ws);
      Assoc(ws, "\t", b);
      DropPrefix(l, ws, "\t" + b);
      assert After(l, ws) == l[|ws|..];
      LeadOfCode(After(l, ws), b);
    } else {
      assert ws + "\t" + b == "\t" + b;
      LeadOfCode(l, b);
    }
  }

  /** The leading white space of a text that starts with a tab and a code
      text: the tab and the code text's own. */
  lemma LeadOfCode(s: string, b: string)
    requires IsBody(b) && HasPrefix(s, "\t" + b)
    ensures Lead(s) == "\t" + Lead(b)
  {
    BodySplit(b);
    var w := "\t" + Lead(b);
    PrefixExtend("\t", b, Lead(b));
    PrefixTrans(s, "\t" + b, w);
    PrefixAt(s, "\t" + b, |w|);
    assert ("\t" + b)[|w|] == b[|Lead(b)|];
    LeadUnique(s, w);
  }

  /** The trimmed text of a code line, followed by `f` on the same line. */
  lemma CodeTrim(ws: string, b: string, f: string)
    requires IsIndent(ws) && IsBody(b) && (f == [] || !IsSpace(f[|f| - 1]))
    ensures TrimSpace(CodeLine(ws, b) + f + "\n") == b[|Lead(b)|..] + f
  {
    BodySplit(b);
    var lead, core := ws + "\t" + Lead(b), b[|Lead(b)|..];
    var t := core + f;
    assert CodeLine(ws, b) + f + "\n" == lead + t + "\n" by {
      Assoc(ws + "\t", Lead(b), core);
      Assoc(lead, core, f);
    }
    assert Blank(lead) by {
      forall i | 0 <= i < |lead| ensures IsSpace(lead[i]) {
        if i < |ws| {
          assert lead[i] == ws[i];
        } else if i > |ws| {
          assert lead[i] == Lead(b)[i - |ws| - 1];
        }
      }
    }
    assert !IsSpace(t[0]) && !IsSpace(t[|t| - 1]) by {
      assert t[0] == core[0];
      if f == [] {
        assert t[|t| - 1] == b[|b| - 1];
      } else {
        assert t[|t| - 1] == f[|f| - 1];
      }
    }
    assert Blank("\n");
    TrimSpaceOf(CodeLine(ws, b) + f + "\n", lead, t, "\n");
  }

  /** ToComments on a line read inside a block, given its padding, trimmed
      text and braces. */
  lemma UndoInBlock(l: string, ws: string, m: int, lead: string, text: string)
    requires m > 0 && m + Net(l) != 0
    requires |WsPrefixOf(l, ws)| > 0 && WsPrefixOf(l, ws)[1..] == lead && TrimSpace(l) == text
    ensures UndoLine(l, ws, m) == Ok(Undo(ws + "//" + lead + text + "\n", ws, m + Net(l), []))
  {
    UndoInside(l, ws, m);
    assert m + Count(l, '{') - Count(l, '}') == m + Net(l);
  }

  /** ToComments on the line that closes a block, given its padding and
      trimmed text. */
  lemma UndoClosing(l: string, ws: string, m: int, lead: string, text: string)
    requires m > 0 && m + Net(l) == 0
    requires |WsPrefixOf(l, ws)| > 0 && WsPrefixOf(l, ws)[1..] == lead && TrimSpace(l) == text
    ensures UndoLine(l, ws, m) == Ok(Undo(ws + "//" + lead + Before(text, BadTypeMarker) + "\n", ws, 0, []))
  {
    UndoInside(l, ws, m);
    assert m + Count(l, '{') - Count(l, '}') == m + Net(l);
  }

  /** The comment line, from its indentation, padding and text. */
  lemma CommentOf(ws: string, b: string, lead: string, core: string)
    requires b == lead + core
    ensures ws + "//" + lead + core + "\n" == CommentLine(ws, b)
  {
    Assoc(ws + "//", lead, core);
  }

  /** The trimmed text and the braces of a code line alone on its line. */
  lemma CodeAlone(ws: string, b: string)
    requires IsIndent(ws) && IsBody(b)
    ensures TrimSpace(CodeLine(ws, b) + "\n") == b[|Lead(b)|..]
    ensures Net(CodeLine(ws, b) + "\n") == Net(b)
  {
    CodeTrim(ws, b, "");
    NetCode(ws, b, "");
    NetFree("");
    assert CodeLine(ws, b) + "" == CodeLine(ws, b);
    assert b[|Lead(b)|..] + "" == b[|Lead(b)|..];
  }

  /** ToComments, inside a block, turns a code line back into the comment
      line it came from and adds up its braces. */
  lemma UndoCode(ws: string, b: string, m: int)
    requires IsIndent(ws) && IsBody(b) && m > 0 && m + Net(b) != 0
    ensures UndoLine(CodeLine(ws, b) + "\n", ws, m) == Ok(Undo(CommentLine(ws, b), ws, m + Net(b), []))
  {
    var l := CodeLine(ws, b) + "\n";
    PrefixAppend(CodeLine(ws, b), "\n");
    PadOfCode(l, ws, b);
    CodeAlone(ws, b);
    BodySplit(b);
    UndoInBlock(l, ws, m, Lead(b), b[|Lead(b)|..]);
    CommentOf(ws, b, Lead(b), b[|Lead(b)|..]);
  }

  /** ToComments on the code line made of a comment line with nothing after
      its `//`: the padding it finds is the tab and the newline, so the
      comment line comes back followed by an empty line. */
  lemma UndoEmptyBody(ws: string, m: int)
    requires IsIndent(ws) && m > 0
    ensures UndoLine(CodeLine(ws, "") + "\n", ws, m) == Ok(Undo(CommentLine(ws, "") + "\n", ws, m, []))
  {
    var l := CodeLine(ws, "") + "\n";
    EmptyBodyLine(ws, l);
    UndoInBlock(l, ws, m, "\n", "");
    var c := ws + "//" + "\n";
    assert c + "" == c;
    assert ws + "//" + "" == ws + "//";
  }

  /** The code line of an empty comment body, with its newline: white space
      only, with the tab and the newline after the indentation. */
  lemma EmptyBodyLine(ws: string, l: string)
    requires IsIndent(ws) && l == CodeLine(ws, "") + "\n"
    ensures Net(l) == 0 && TrimSpace(l) == []
    ensures |WsPrefixOf(l, ws)| > 0 && WsPrefixOf(l, ws)[1..] == "\n"
  {
    var pad := "\t\n";
    assert l == ws + pad;
    assert Blank(pad) by { assert pad[0] == '\t' && pad[1] == '\n'; }
    assert Blank(l) by {
      assert forall i :: 0 <= i < |l| ==> l[i] == if i < |ws| then ws[i] else pad[i - |ws|];
    }
    NetBlank(l);
    LeadUnique(pad, pad);
    if ws != [] {
      PrefixAppend(ws, pad);
      IndexAtPrefix(l, ws);
      assert After(l, ws) == pad;
    } else {
      assert l == pad;
    }
    TrimLeftLead(l, []);
    assert l + [] == l;
  }

  /** ToComments, on the last code line of a block, with the footer after
      it: the braces balance, the footer is cut off and the comment line
      comes back. */
  lemma UndoLastCode(fp: Failpoint, ws: string, b: string, m: int)
    requires IsIndent(ws) && IsBody(b) && IsName(fp.name) && !Contains(b, BadTypeMarker)
    requires m > 0 && m + Net(b) + Net(fp.varType) - 1 == 0
    ensures UndoLine(CodeLine(ws, b) + Footer(fp) + "\n", ws, m) == Ok(Undo(CommentLine(ws, b), ws, 0, []))
  {
    var l := CodeLine(ws, b) + Footer(fp) + "\n";
    var f := Footer(fp);
    BodySplit(b);
    var core := b[|Lead(b)|..];
    PrefixAppend(CodeLine(ws, b), f + "\n");
    Assoc(CodeLine(ws, b), f, "\n");
    PadOfCode(l, ws, b);
    FooterLast(fp);
    CodeTrim(ws, b, f);
    NetCode(ws, b, f);
    NetFooter(fp);
    ContainsIn(Lead(b), core, BadTypeMarker);
    FooterCut(fp, core);
    UndoClosing(l, ws, m, Lead(b), core + f);
    CommentOf(ws, b, Lead(b), core);
  }

  /** A text that holds `p` still holds it with more in front. */
  lemma ContainsIn(x: string, y: string, p: string)
    ensures Contains(y, p) ==> Contains(x + y, p)
  {
    if Contains(y, p) {
      var i := Index(y, p);
      assert (x + y)[|x| + i..] == y[i..];
      ContainsAt(x + y, p, |x| + i);
    }
  }

  /** The footer marker does not overlap itself. */
  lemma MarkerFree()
    ensures BadTypeMarker[0] !in BadTypeMarker[1..]
  {
  }

  /** Cutting a text followed by the footer at the footer marker gives the
      text back, when the text holds no marker. */
  lemma FooterCut(fp: Failpoint, core: string)
    requires !Contains(core, BadTypeMarker)
    ensures Before(core + Footer(fp), BadTypeMarker) == core
  {
    var f, m := Footer(fp), BadTypeMarker;
    FooterChain(f, "; __badType", fp.name, ": ", Runtime(fp), ".BadType(v", ", \"", fp.varType, "\"); };", m);
    var rest := f[|m|..];
    assert f == m + rest;
    MarkerFree();
    IndexAfterFree(core, m, rest);
    Assoc(core, m, rest);
  }

  /** The footer ends in a non-space character. */
  lemma FooterLast(fp: Failpoint)
    ensures var f := Footer(fp); f != [] && !IsSpace(f[|f| - 1])
  {
    var f := Footer(fp);
    var h := "; __badType" + fp.name + ": " + Runtime(fp) + ".BadType(v" + fp.name + ", \"" + fp.varType;
    assert f == h + "\"); };";
    assert f[|f| - 1] == ';';
  }
}
