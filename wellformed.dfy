/** The source lines a gofail round trip is stated for, and how the line
    functions of ToFailpoints read them: a header in canonical form opens a
    block, a label comment is exposed, a comment inside a block is absorbed,
    and a line that mentions neither gofail nor `__fp` is written as it is. */
module WellFormed {
  import opened GoStrings
  import opened Lines
  import opened Wrappers
  import opened Failpoints
  import opened Rewrite

  // ---------------------------------------------------------------------
  // Names, types and indentation

  predicate IsAlnum(c: char) {
    'a' <= c <= 'z' || 'A' <= c <= 'Z' || '0' <= c <= '9'
  }

  /** A failpoint name: letters and digits. */
  predicate IsName(s: string) {
    s != [] && forall i :: 0 <= i < |s| ==> IsAlnum(s[i])
  }

  predicate IsTypeChar(c: char) {
    IsAlnum(c) || c == '_' || c == '*' || c == '[' || c == ']' || c == '{' || c == '}' || c == '.'
  }

  /** A failpoint type: a Go type written without spaces, parentheses,
      commas, colons, semicolons, quotes or slashes, such as `int`,
      `*pkg.T`, `[]byte` or `struct{}`. */
  predicate IsType(s: string) {
    s != [] && forall i :: 0 <= i < |s| ==> IsTypeChar(s[i])
  }

  /** Indentation: white space on one line. */
  predicate IsIndent(s: string) {
    Blank(s) && '\n' !in s
  }

  /** The header prefix of a `gofail-go` (true) or `gofail` (false) block. */
  function Pfx(goFailGo: bool): (r: string)
    ensures |r| >= 10 && r[..2] == "//"
  {
    if goFailGo then PfxGofailGo else PfxGofail
  }

  /** The label marker that replaces the prefix `Pfx(goFailGo)`. */
  function Marker(goFailGo: bool): string {
    if goFailGo then LabelGofailGo else LabelGofail
  }

  // ---------------------------------------------------------------------
  // Headers

  /** A header in canonical form: indentation, prefix, `var NAME TYPE`,
      written as ToComments writes it back. */
  function HeaderLine(goFailGo: bool, ws: string, name: string, t: string): string {
    ws + Pfx(goFailGo) + " var " + name + " " + t + "\n"
  }

  /** The text of a canonical header after its prefix. */
  function VarCommand(name: string, t: string): string {
    " var " + name + " " + t + "\n"
  }

  /** Neither a name nor a type holds white space, a slash or a colon. */
  lemma NameTypeChars(name: string, t: string)
    requires IsName(name) && IsType(t)
    ensures NoSpace(name) && NoSpace(t)
    ensures '/' !in name && '/' !in t && ':' !in name && ':' !in t && '\n' !in name && '\n' !in t
  {
  }

  lemma VarLiteral()
    ensures " var " == [' '] + "var" + [' '] && NoSpace("var") && "var" != []
    ensures '/' !in " var " && ':' !in " var " && '\n' !in " var "
  {
  }

  /** The command holds no slash and no colon, and ends the line. */
  lemma CommandChars(name: string, t: string)
    requires IsName(name) && IsType(t)
    ensures var c := VarCommand(name, t);
      '/' !in c && ':' !in c && c[|c| - 1] == '\n' && '\n' !in c[..|c| - 1]
  {
    NameTypeChars(name, t);
    VarLiteral();
    var c := VarCommand(name, t);
    var body := " var " + name + " " + t;
    assert c == body + "\n";
    assert c[..|c| - 1] == body;
  }

  /** The fields of the command are `var`, the name and the type. */
  lemma CommandFields(name: string, t: string)
    requires IsName(name) && IsType(t)
    ensures Fields(VarCommand(name, t)) == ["var", name, t]
  {
    NameTypeChars(name, t);
    VarLiteral();
    SpaceLiterals();
    FieldsDecl(" var ", [' '], "var", name, t, "\n");
  }

  lemma SpaceLiterals()
    ensures Blank([' ']) && [' '] != [] && Blank("\n") && "\n" != []
  {
  }

  /** Fields of `sp kw sp name sp t nl`, with `sp` and `nl` blank. */
  lemma FieldsDecl(v: string, sp: string, kw: string, name: string, t: string, nl: string)
    requires v == sp + kw + sp && Blank(sp) && sp != [] && Blank(nl) && nl != []
    requires kw != [] && NoSpace(kw) && name != [] && NoSpace(name) && t != [] && NoSpace(t)
    ensures Fields(v + name + sp + t + nl) == [kw, name, t]
  {
    FieldsNested(sp, kw, name, t, nl);
    DeclNested(v, sp, kw, name, t, nl);
  }

  lemma FieldsNested(sp: string, kw: string, name: string, t: string, nl: string)
    requires Blank(sp) && sp != [] && Blank(nl) && nl != []
    requires kw != [] && NoSpace(kw) && name != [] && NoSpace(name) && t != [] && NoSpace(t)
    ensures Fields(sp + (kw + (sp + (name + (sp + (t + nl)))))) == [kw, name, t]
  {
    var r1 := sp + (name + (sp + (t + nl)));
    FieldsTwo(sp, name, t, nl);
    assert r1[0] == sp[0];
    FieldsOf(sp, kw, r1);
  }

  lemma FieldsTwo(sp: string, name: string, t: string, nl: string)
    requires Blank(sp) && sp != [] && Blank(nl) && nl != []
    requires name != [] && NoSpace(name) && t != [] && NoSpace(t)
    ensures Fields(sp + (name + (sp + (t + nl)))) == [name, t]
  {
    var r2 := sp + (t + nl);
    assert Fields(r2) == [t] by { FieldsOne(sp, t, nl); }
    assert Fields(sp + (name + r2)) == [name] + Fields(r2) by {
      assert r2[0] == sp[0];
      FieldsOf(sp, name, r2);
    }
    assert [name] + [t] == [name, t];
  }

  lemma FieldsOne(sp: string, t: string, nl: string)
    requires Blank(sp) && Blank(nl) && nl != []
    requires t != [] && NoSpace(t)
    ensures Fields(sp + (t + nl)) == [t]
  {
    assert IsSpace(nl[0]);
    FieldsOf(sp, t, nl);
    assert Fields(nl) == [];
    assert [t] + [] == [t];
  }

  lemma DeclNested(v: string, sp: string, kw: string, name: string, t: string, nl: string)
    requires v == sp + kw + sp
    ensures v + name + sp + t + nl == sp + (kw + (sp + (name + (sp + (t + nl)))))
  {
    var r1 := sp + (name + (sp + (t + nl)));
    RightNest(v, name, sp, t, nl);
    Assoc(sp + kw, sp, name + (sp + (t + nl)));
    Assoc(sp, kw, r1);
  }

  lemma RightNest(a: string, b: string, c: string, d: string, e: string)
    ensures a + b + c + d + e == a + (b + (c + (d + e)))
  {
    Assoc(a + b + c, d, e);
    Assoc(a + b, c, d + e);
    Assoc(a, b, c + (d + e));
  }

  /** A header prefix followed by more text does not start with the other
      header prefix. */
  lemma PrefixesApart(x: string)
    ensures !HasPrefix(PfxGofailGo + x, PfxGofail)
    ensures !HasPrefix(PfxGofail + x, PfxGofailGo)
  {
    assert (PfxGofailGo + x)[9] == '-';
    assert (PfxGofail + x)[9] == ':';
  }

  /** Where a canonical header splits. */
  lemma HeaderSplits(goFailGo: bool, ws: string, name: string, t: string)
    requires IsIndent(ws) && IsName(name) && IsType(t)
    ensures var h, p, c := HeaderLine(goFailGo, ws, name, t), Pfx(goFailGo), VarCommand(name, t);
      && TrimSpace(h) == p + c[..|c| - 1]
      && Contains(h, p) && After(h, p) == c && SplitAfterSecond(h, p) == c
      && Before(h, "//") == ws
  {
    var h, p, c := HeaderLine(goFailGo, ws, name, t), Pfx(goFailGo), VarCommand(name, t);
    CommandChars(name, t);
    HeaderIs(ws, p, name, t);
    var body := c[..|c| - 1];
    assert c == body + "\n";
    assert h == ws + (p + body) + "\n";
    assert body[|body| - 1] == t[|t| - 1];
    assert Blank("\n");
    TrimSpaceOf(h, ws, p + body, "\n");
    NoStartByFirstChar(ws, p);
    SplitAt(h, ws, p, c);
    NoStartByFirstChar(c, p);
    NotContains(c, p);
    NoStartByFirstChar(ws, "//");
    BeforePrefix(ws, p, c, "//");
  }

  lemma HeaderIs(ws: string, p: string, name: string, t: string)
    ensures ws + p + " var " + name + " " + t + "\n" == ws + p + (" var " + name + " " + t + "\n")
  {
  }

  /** A canonical header is no label line. */
  lemma HeaderNoLabel(goFailGo: bool, ws: string, name: string, t: string)
    requires IsIndent(ws) && IsName(name) && IsType(t)
    ensures var h := HeaderLine(goFailGo, ws, name, t);
      GofailLabel(h, PfxGofail, LabelGofail) == [] && GofailLabel(h, PfxGofailGo, LabelGofailGo) == []
  {
    var h, c := HeaderLine(goFailGo, ws, name, t), VarCommand(name, t);
    HeaderSplits(goFailGo, ws, name, t);
    CommandChars(name, t);
    PrefixesApart(c[..|c| - 1]);
    NoLabelText(h, PfxGofail, LabelGofail, c);
    NoLabelText(h, PfxGofailGo, LabelGofailGo, c);
  }

  /** gofailLabel leaves a line alone whose text after the prefix holds no
      colon. */
  lemma NoLabelText(l: string, pfx: string, lb: string, c: string)
    requires pfx != [] && lb != [] && ':' !in c
    requires HasPrefix(TrimSpace(l), pfx) ==> Contains(l, pfx) && SplitAfterSecond(l, pfx) == c
    ensures GofailLabel(l, pfx, lb) == []
  {
    IndexOfChar(c, ':');
    assert ":" == [':'];
  }

  /** newFailpoint reads a canonical header back into its parts. */
  lemma HeaderParses(goFailGo: bool, ws: string, name: string, t: string)
    requires IsIndent(ws) && IsName(name) && IsType(t)
    ensures NewFailpoint(HeaderLine(goFailGo, ws, name, t)) == Ok(Some(Failpoint(goFailGo, name, t, [], ws)))
  {
    var h, p, c := HeaderLine(goFailGo, ws, name, t), Pfx(goFailGo), VarCommand(name, t);
    HeaderSplits(goFailGo, ws, name, t);
    PrefixesApart(c[..|c| - 1]);
    CommandFields(name, t);
    ParsesAs(h, goFailGo, c, Failpoint(goFailGo, name, t, [], ws));
  }

  /** newFailpoint on a line whose trimmed text starts with exactly one of
      the prefixes, whose command has the fields `var NAME TYPE`. */
  lemma ParsesAs(h: string, goFailGo: bool, c: string, fp: Failpoint)
    requires HasPrefix(TrimSpace(h), PfxGofailGo) == goFailGo
    requires HasPrefix(TrimSpace(h), PfxGofail) == !goFailGo
    requires Contains(h, Pfx(goFailGo)) && SplitAfterSecond(h, Pfx(goFailGo)) == c
    requires Fields(c) == ["var", fp.name, fp.varType]
    requires fp.goFailGo == goFailGo && fp.code == [] && fp.ws == Before(h, "//")
    ensures NewFailpoint(h) == Ok(Some(fp))
  {
    assert IsHeader(h) && HeaderPrefix(h) == Pfx(goFailGo);
    assert Command(h) == c;
    assert IsVarCommand(Fields(Command(h)));
  }

  /** ToFailpoints opens a block on a canonical header. */
  lemma HeaderOpens(goFailGo: bool, ws: string, name: string, t: string)
    requires IsIndent(ws) && IsName(name) && IsType(t)
    ensures Outside(HeaderLine(goFailGo, ws, name, t)) == Open(Failpoint(goFailGo, name, t, [], ws))
  {
    HeaderNoLabel(goFailGo, ws, name, t);
    HeaderParses(goFailGo, ws, name, t);
  }

  // ---------------------------------------------------------------------
  // The comment lines of a block

  /** The text of a comment line of a block, after its `//`: one line, not
      ending in white space. */
  predicate IsBody(b: string) {
    b != [] && '\n' !in b && !IsSpace(b[|b| - 1])
  }

  /** A comment line of a block whose header is indented by `ws`. */
  function CommentLine(ws: string, b: string): string {
    ws + "//" + b + "\n"
  }

  /** The code ToFailpoints makes of that comment line: its `//` becomes a tab. */
  function CodeLine(ws: string, b: string): string {
    ws + "\t" + b
  }

  /** ToFailpoints absorbs a comment line of a block as the code line. */
  lemma CommentAbsorbed(ws: string, b: string)
    requires IsIndent(ws) && '\n' !in b
    ensures IsComment(CommentLine(ws, b))
    ensures Replace1(StripNewline(CommentLine(ws, b)), "//", "\t") == CodeLine(ws, b)
  {
    var l := CommentLine(ws, b);
    var s := ws + "//" + b;
    assert l == s + "\n";
    assert StripNewline(l) == s;
    NoStartByFirstChar(ws, "//");
    SplitAt(s, ws, "//", b);
    var t := "//" + b + "\n";
    assert l == ws + t;
    TrimSpaceKeeps(l, ws, t, 1);
    assert t[..2] == "//";
  }
}
