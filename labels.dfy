/** Lines outside a block: a line that mentions neither gofail nor `__fp_`
    goes through both rewriters unchanged, and a label comment is exposed by
    ToFailpoints and hidden again by ToComments. */
module Labels {
  import opened GoStrings
  import opened Lines
  import opened Wrappers
  import opened Failpoints
  import opened Rewrite
  import opened WellFormed

  // ---------------------------------------------------------------------
  // Plain lines

  /** A line the rewriters leave alone: it mentions neither `gofail` nor
      `__fp_`. */
  predicate IsPlain(l: string) {
    !Contains(l, "gofail") && !Contains(l, "__fp_")
  }

  /** The header prefixes and label markers all mention `gofail`. */
  lemma PrefixWords()
    ensures PfxGofail == "// " + "gofail" + ":"
    ensures PfxGofailGo == "// " + "gofail" + "-go:"
  {
  }

  lemma MarkerWords()
    ensures "\t" + LabelGofail == "\t/* " + "gofail" + "-label */"
    ensures "\t" + LabelGofailGo == "\t/* " + "gofail" + "-go-label */"
  {
  }

  /** A line without `gofail` does not start with a prefix that holds it. */
  lemma NotPrefixedBy(l: string, pfx: string, a: string, b: string)
    requires !Contains(l, "gofail") && pfx == a + "gofail" + b
    ensures !HasPrefix(TrimSpace(l), pfx)
  {
    if HasPrefix(TrimSpace(l), pfx) {
      TrimmedContains(l, pfx);
      ContainsPart(l, a, "gofail", b);
    }
  }

  /** ToFailpoints writes a plain line outside a block as it is. */
  lemma PlainOutside(l: string)
    requires IsPlain(l)
    ensures Outside(l) == Write(l)
  {
    PrefixWords();
    NotPrefixedBy(l, PfxGofail, "// ", ":");
    NotPrefixedBy(l, PfxGofailGo, "// ", "-go:");
  }

  /** ToComments writes a plain line outside a block as it is. */
  lemma PlainUndo(l: string, ws: string)
    requires IsPlain(l)
    ensures UndoLine(l, ws, 0) == Ok(Undo(l, ws, 0, []))
  {
    if IsGeneratedHeader(l) {
      HeaderHoldsRuntime(l);
    }
    MarkerWords();
    if Contains(l, "\t" + LabelGofail) {
      ContainsPart(l, "\t/* ", "gofail", "-label */");
    }
    if Contains(l, "\t" + LabelGofailGo) {
      ContainsPart(l, "\t/* ", "gofail", "-go-label */");
    }
  }

  // ---------------------------------------------------------------------
  // Label comments

  /** The text of a label comment after its prefix: it names a label, so it
      holds a colon, and it holds no slash and no newline. */
  predicate IsLabelText(text: string) {
    ':' in text && '/' !in text && '\n' !in text
  }

  /** Indentation ending in a tab, as ToComments needs in front of an
      exposed label. */
  predicate IsLabelIndent(lead: string) {
    IsIndent(lead) && lead != [] && lead[|lead| - 1] == '\t'
  }

  /** A label comment of a `gofail-go` (true) or `gofail` (false) block. */
  function LabelLine(goFailGo: bool, lead: string, text: string): string {
    lead + Pfx(goFailGo) + (text + "\n")
  }

  /** The label comment with its prefix replaced by the label marker. */
  function ExposedLabel(goFailGo: bool, lead: string, text: string): string {
    lead + Marker(goFailGo) + (text + "\n")
  }

  /** A label comment's trimmed text starts with its prefix. */
  lemma LabelTrimmed(lead: string, pfx: string, x: string)
    requires Blank(lead) && |pfx| >= 2 && pfx[0] == '/' && !IsSpace(pfx[|pfx| - 1])
    ensures HasPrefix(TrimSpace(lead + pfx + x), pfx)
  {
    var t := pfx + x;
    Assoc(lead, pfx, x);
    TrimSpaceKeeps(lead + pfx + x, lead, t, |pfx| - 1);
    assert t[..|pfx|] == pfx;
  }

  /** Where a label comment with the prefix `pfx` splits. */
  lemma LabelSplits(lead: string, pfx: string, text: string)
    requires '/' !in lead && IsLabelText(text) && pfx != [] && pfx[0] == '/'
    ensures var s, x := lead + pfx + (text + "\n"), text + "\n";
      && Contains(s, pfx) && Before(s, pfx) == lead && After(s, pfx) == x
      && SplitAfterSecond(s, pfx) == x && Contains(x, ":")
  {
    var x := text + "\n";
    NoStartByFirstChar(lead, pfx);
    SplitAt(lead + pfx + x, lead, pfx, x);
    NoStartByFirstChar(x, pfx);
    NotContains(x, pfx);
    IndexOfChar(x, ':');
  }

  /** gofailLabel on a label comment with the prefix `pfx`. */
  lemma ExposeLabel(lead: string, pfx: string, lb: string, text: string)
    requires Blank(lead) && '/' !in lead && IsLabelText(text)
    requires |pfx| >= 2 && pfx[0] == '/' && !IsSpace(pfx[|pfx| - 1]) && lb != []
    ensures GofailLabel(lead + pfx + (text + "\n"), pfx, lb) == lead + lb + (text + "\n")
  {
    LabelTrimmed(lead, pfx, text + "\n");
    LabelSplits(lead, pfx, text);
  }

  /** A line whose trimmed text starts with `t[..k + 1]` does not start with
      a `p` that differs from `t` at `k`. */
  lemma NotPrefixedAt(l: string, lead: string, t: string, p: string, k: nat)
    requires l == lead + t && Blank(lead) && k < |t| && k < |p|
    requires !IsSpace(t[0]) && !IsSpace(t[k]) && t[k] != p[k]
    ensures !HasPrefix(TrimSpace(l), p)
  {
    TrimSpaceKeeps(l, lead, t, k);
    var ts := TrimSpace(l);
    assert ts[k] == t[..k + 1][k];
  }

  /** ToFailpoints exposes a label comment outside a block. */
  lemma LabelOutside(goFailGo: bool, lead: string, text: string)
    requires IsIndent(lead) && IsLabelText(text)
    ensures Outside(LabelLine(goFailGo, lead, text)) == Write(ExposedLabel(goFailGo, lead, text))
  {
    var p, x := Pfx(goFailGo), text + "\n";
    assert '/' !in lead by {
      forall i | 0 <= i < |lead| ensures lead[i] != '/' {
        assert IsSpace(lead[i]);
      }
    }
    if goFailGo {
      Assoc(lead, p, x);
      NotPrefixedAt(LabelLine(goFailGo, lead, text), lead, p + x, PfxGofail, 9);
      ExposeLabel(lead, PfxGofailGo, LabelGofailGo, text);
    } else {
      ExposeLabel(lead, PfxGofail, LabelGofail, text);
    }
  }

  /** A blank text followed by one in which `q` does not start, where the
      second character of `q` is not white space and does not open the
      second text: `q` does not start in the two together. */
  lemma BlankThen(ind: string, rest: string, q: string)
    requires Blank(ind) && |q| >= 2 && !IsSpace(q[1]) && rest != [] && rest[0] != q[1]
    requires NoStartIn(rest, q)
    ensures NoStartIn(ind + rest, q)
  {
    var s := ind + rest;
    forall i | 0 <= i < |s| ensures !Agree(s[i..], q) {
      if i >= |ind| {
        assert s[i..] == rest[i - |ind|..];
      } else {
        assert s[i..][1] == s[i + 1];
        Differs(s[i..], q, 1);
      }
    }
  }

  /** RestoreLabel on a line holding the tab-preceded marker `lb`. */
  lemma Restores(lead: string, lb: string, pfx: string, x: string)
    requires Blank(lead) && lead != [] && lead[|lead| - 1] == '\t' && lb != [] && lb[0] == '/'
    ensures RestoreLabel(lead + lb + x, lb, pfx) == lead + pfx + x
  {
    var ind := lead[..|lead| - 1];
    assert lead + lb + x == ind + ("\t" + lb) + x;
    ContainsMiddle(ind, "\t" + lb, x);
    assert '/' !in lead by {
      forall i | 0 <= i < |lead| ensures lead[i] != '/' {
        assert IsSpace(lead[i]);
      }
    }
    NoStartByFirstChar(lead, lb);
    SplitAt(lead + lb + x, lead, lb, x);
  }

  /** RestoreLabel on a line that does not hold the tab-preceded marker. */
  lemma NotRestored(ind: string, m: string, x: string, lb: string, pfx: string)
    requires Blank(ind) && |lb| >= 1 && lb[0] == '/' && NoStartIn("\t" + m, "\t" + lb)
    requires x != [] && '/' !in x && x[|x| - 1] != '\t'
    ensures RestoreLabel(ind + "\t" + m + x, lb, pfx) == ind + "\t" + m + x
  {
    var q := "\t" + lb;
    assert q[1] == '/';
    NoStartSecond(x, q);
    NoStartConcat("\t" + m, x, q);
    assert ind + "\t" + m + x == ind + ("\t" + m + x);
    BlankThen(ind, "\t" + m + x, q);
    NotContains(ind + "\t" + m + x, q);
  }

  /** No gofail-go marker starts in the tab and the gofail prefix. */
  lemma PrefixNoGoMarker()
    ensures NoStartIn("\t" + PfxGofail, "\t" + LabelGofailGo)
  {
    NoStartWitness("\t" + PfxGofail, "\t" + LabelGofailGo, [2, 0, 0, 0, 0, 0, 0, 0, 0, 0, 0]);
  }

  /** No gofail marker starts in the tab and the gofail-go marker. */
  lemma GoMarkerNoMarker()
    ensures NoStartIn("\t" + LabelGofailGo, "\t" + LabelGofail)
  {
    NoStartWitness("\t" + LabelGofailGo, "\t" + LabelGofail,
                   [11, 0, 0, 0, 0, 0, 0, 0, 0, 0, 0, 0, 0, 0, 0, 0, 0, 0, 0, 0, 0, 0]);
  }

  /** ToComments, outside a block, on a line whose trimmed text does not
      start with `if`: only the labels are restored. */
  lemma UndoOutside(l: string, ws: string)
    requires !HasPrefix(TrimSpace(l), "if")
    ensures UndoLine(l, ws, 0) == Ok(Undo(RestoreLabel(RestoreLabel(l, LabelGofail, PfxGofail), LabelGofailGo, PfxGofailGo), ws, 0, []))
  {
  }

  /** ToComments hides an exposed label again, outside a block. */
  lemma LabelUndo(goFailGo: bool, lead: string, text: string, ws: string)
    requires IsLabelIndent(lead) && IsLabelText(text)
    ensures UndoLine(ExposedLabel(goFailGo, lead, text), ws, 0) == Ok(Undo(LabelLine(goFailGo, lead, text), ws, 0, []))
  {
    var e, m, x := ExposedLabel(goFailGo, lead, text), Marker(goFailGo), text + "\n";
    Assoc(lead, m, x);
    assert m[0] == '/';
    NotPrefixedAt(e, lead, m + x, "if", 0);
    UndoOutside(e, ws);
    assert x[|x| - 1] == '\n';
    if goFailGo {
      HideGoLabel(lead, x);
    } else {
      HideLabel(lead, x);
    }
  }

  /** Indentation ending in a tab is the rest of it and the tab. */
  lemma LastTab(lead: string)
    requires lead != [] && lead[|lead| - 1] == '\t'
    ensures lead == lead[..|lead| - 1] + "\t"
  {
  }

  lemma HideLabel(lead: string, x: string)
    requires IsLabelIndent(lead) && x != [] && '/' !in x && x[|x| - 1] != '\t'
    ensures RestoreLabel(RestoreLabel(lead + LabelGofail + x, LabelGofail, PfxGofail), LabelGofailGo, PfxGofailGo)
      == lead + PfxGofail + x
  {
    var ind := lead[..|lead| - 1];
    LastTab(lead);
    Restores(lead, LabelGofail, PfxGofail, x);
    PrefixNoGoMarker();
    NotRestored(ind, PfxGofail, x, LabelGofailGo, PfxGofailGo);
  }

  lemma HideGoLabel(lead: string, x: string)
    requires IsLabelIndent(lead) && x != [] && '/' !in x && x[|x| - 1] != '\t'
    ensures RestoreLabel(RestoreLabel(lead + LabelGofailGo + x, LabelGofail, PfxGofail), LabelGofailGo, PfxGofailGo)
      == lead + PfxGofailGo + x
  {
    var ind := lead[..|lead| - 1];
    LastTab(lead);
    GoMarkerNoMarker();
    NotRestored(ind, LabelGofailGo, x, LabelGofail, PfxGofail);
    Restores(lead, LabelGofailGo, PfxGofailGo, x);
  }
}
