/** The per-block record of code/failpoint.go: parsing a `// gofail:` header
    and generating the failpoint code that replaces the block. */
module Failpoints {
  import opened GoStrings
  import opened Lines
  import opened Wrappers

  // The comment prefixes, label markers and error variables (code/rewrite.go).
  const PfxGofail := "// gofail:"
  const LabelGofail := "/* gofail-label */"
  const ErrVarGoFail := "__fpErr"
  const PfxGofailGo := "// gofail-go:"
  const LabelGofailGo := "/* gofail-go-label */"
  const ErrVarGoFailGo := "__fpGoErr"

  /** One `// gofail: var NAME TYPE` block.  `code` holds the block's comment
      lines, already turned into code; `ws` is the header's indentation. */
  datatype Failpoint = Failpoint(goFailGo: bool, name: string, varType: string, code: seq<string>, ws: string)

  /** The name of the runtime variable that backs the failpoint. */
  function Runtime(fp: Failpoint): string {
    "__fp_" + fp.name
  }

  /** What TrimSpace starts with, TrimLeft starts with. */
  lemma TrimmedStarts(l: string, p: string)
    requires HasPrefix(TrimSpace(l), p)
    ensures HasPrefix(TrimLeft(l), p)
  {
    var ts := TrimSpace(l);
    var t := TrimLeft(l);
    assert ts == t[..|ts|];
    assert t[..|p|] == ts[..|p|];
  }

  /** A line that, past its indentation, starts with `p`, is the indentation,
      `p` and the rest. */
  lemma LeadSplit(l: string, p: string, lead: string, rest: string)
    requires p != [] && !IsSpace(p[0]) && HasPrefix(TrimLeft(l), p)
    requires lead == l[..|l| - |TrimLeft(l)|] && rest == TrimLeft(l)[|p|..]
    ensures l == lead + p + rest && NoStartIn(lead, p) && Blank(lead)
  {
    var t := TrimLeft(l);
    assert t == p + t[|p|..];
    forall i | 0 <= i < |lead| ensures lead[i] != p[0] {
      assert IsSpace(lead[i]);
    }
    NoStartByFirstChar(lead, p);
  }

  /** A prefix that `TrimSpace(l)` starts with occurs in `l` right after
      `l`'s leading white space. */
  lemma TrimmedPrefix(l: string, p: string)
    requires p != [] && !IsSpace(p[0]) && HasPrefix(TrimSpace(l), p)
    ensures Contains(l, p) && Blank(Before(l, p))
    ensures Before(l, p) == l[..|l| - |TrimLeft(l)|]
    ensures After(l, p) == TrimLeft(l)[|p|..]
  {
    TrimmedStarts(l, p);
    var t := TrimLeft(l);
    var lead, rest := l[..|l| - |t|], t[|p|..];
    LeadSplit(l, p, lead, rest);
    SplitAt(l, lead, p, rest);
  }

  /** The trimmed line starts with one of the two header prefixes. */
  predicate IsHeader(l: string) {
    HasPrefix(TrimSpace(l), PfxGofail) || HasPrefix(TrimSpace(l), PfxGofailGo)
  }

  /** The prefix newFailpoint splits a header at: `// gofail-go:` when the
      trimmed line starts with it, `// gofail:` otherwise. */
  function HeaderPrefix(l: string): string {
    if HasPrefix(TrimSpace(l), PfxGofailGo) then PfxGofailGo else PfxGofail
  }

  /** The fields of a well-formed header command: `var NAME TYPE`. */
  predicate IsVarCommand(fields: seq<string>) {
    |fields| == 3 && fields[0] == "var"
  }

  /** The header's command: `strings.SplitAfter(l, pfx)[1]`, the text after
      the prefix up to and including a second prefix, if any. */
  function Command(l: string): string
    requires IsHeader(l)
  {
    HeaderPrefixFacts(l);
    SplitAfterSecond(l, HeaderPrefix(l))
  }

  /** newFailpoint: `Ok(None)` for a line that is no header, an error for a
      header that is not `var NAME TYPE`, the failpoint otherwise. */
  function NewFailpoint(l: string): (r: Result<Option<Failpoint>, RewriteError>)
    ensures r == Ok(None) <==> !IsHeader(l)
    ensures r.Err? <==> IsHeader(l) && !IsVarCommand(Fields(Command(l)))
    ensures r.Err? ==> r.error == MalformedHeader(l)
    ensures r.Ok? && r.value.Some? ==>
      var fp := r.value.value;
      && fp.goFailGo == HasPrefix(TrimSpace(l), PfxGofailGo)
      && IsVarCommand(Fields(Command(l)))
      && fp.name == Fields(Command(l))[1] && fp.varType == Fields(Command(l))[2]
      && fp.code == []
      && Blank(fp.ws) && HasPrefix(l, fp.ws + HeaderPrefix(l))
  {
    var lt := TrimSpace(l);
    var isGoFail, isGoFailGo := HasPrefix(lt, PfxGofail), HasPrefix(lt, PfxGofailGo);
    if !isGoFail && !isGoFailGo then Ok(None)
    else
      var fields := Fields(Command(l));
      if |fields| != 3 || fields[0] != "var" then Err(MalformedHeader(l))
      else
        HeaderPrefixFacts(l);
        Ok(Some(Failpoint(isGoFailGo, fields[1], fields[2], [], Before(l, "//"))))
  }

  /** What a header's prefix tells: it occurs after the line's indentation,
      and the indentation is the text before the first `//`. */
  lemma HeaderPrefixFacts(l: string)
    requires IsHeader(l)
    ensures var p := HeaderPrefix(l);
      && p != [] && HasPrefix(TrimSpace(l), p) && Contains(l, p)
      && Blank(Before(l, "//")) && HasPrefix(l, Before(l, "//") + p)
  {
    var p := HeaderPrefix(l);
    PrefixFacts();
    assert |p| >= 2 && p[..2] == "//" && !IsSpace(p[0]);
    TrimmedPrefix(l, p);
    TrimmedStarts(l, p);
    var t := TrimLeft(l);
    CommentIndent(l, p, l[..|l| - |t|]);
  }

  /** A line that, past its indentation, starts with a comment prefix `p`:
      the indentation is the text before the first `//`. */
  lemma CommentIndent(l: string, p: string, lead: string)
    requires |p| >= 2 && p[..2] == "//" && HasPrefix(TrimLeft(l), p)
    requires lead == l[..|l| - |TrimLeft(l)|]
    ensures Blank(Before(l, "//")) && Before(l, "//") == lead && HasPrefix(l, lead + p)
  {
    var t := TrimLeft(l);
    assert HasPrefix(t, "//") by {
      assert t[..2] == p[..2];
    }
    LeadSplit(l, p, lead, t[|p|..]);
    LeadSplit(l, "//", lead, t[2..]);
    SplitAt(l, lead, "//", t[2..]);
    assert l[..|lead| + |p|] == lead + p;
  }

  /** Both header prefixes start a `//` comment. */
  lemma PrefixFacts()
    ensures PfxGofail[..2] == "//" && PfxGofailGo[..2] == "//"
    ensures !IsSpace(PfxGofail[0]) && !IsSpace(PfxGofailGo[0])
  {
  }

  /** The error variable the generated code binds. */
  function ErrVar(fp: Failpoint): string {
    if fp.goFailGo then ErrVarGoFailGo else ErrVarGoFail
  }

  /** `fmt.Sprintf(", %s := ", ev)` */
  function ErrDecl(ev: string): string {
    ", " + ev + " := "
  }

  /** `fmt.Sprintf(" %s == nil { ", ev)` */
  function ErrCheck(ev: string): string {
    " " + ev + " == nil { "
  }

  /** How the generated code releases the failpoint: in a goroutine for
      `gofail-go`, deferred otherwise. */
  function Exec(fp: Failpoint): string {
    if fp.goFailGo then "go " else "defer "
  }

  /** The variable the failpoint's value is bound to: `_` for `struct{}`. */
  function BoundVar(fp: Failpoint, varname: string): string {
    if fp.varType == "struct{}" then "_" else varname
  }

  /** hdr: the `if` line that acquires the failpoint and binds its value. */
  function Hdr(fp: Failpoint, varname: string): string {
    var ev := ErrVar(fp);
    var hdr := fp.ws + "if v" + fp.name + ErrDecl(ev) + Runtime(fp) + ".Acquire();" + ErrCheck(ev);
    var hdr' := hdr + Exec(fp) + Runtime(fp) + ".Release(); ";
    hdr' + BoundVar(fp, varname) + ", __fpTypeOK := v" + fp.name + ".(" + fp.varType + "); if !__fpTypeOK { goto __badType" + fp.name + "} "
  }

  /** footer: the `__badType` label that reports a value of the wrong type, and
      the closing brace. */
  function Footer(fp: Failpoint): string {
    "; __badType" + fp.name + ": " + Runtime(fp) + ".BadType(v" + fp.name + ", \"" + fp.varType + "\"); };"
  }

  /** The text to appear in the lines after the header: each code line, the
      last one followed by the footer. */
  function CodeLines(code: seq<string>, footer: string): (r: seq<string>)
    requires code != []
    ensures |r| == |code|
    ensures forall j :: 0 <= j < |code| - 1 ==> r[j] == code[j] + "\n"
    ensures r[|code| - 1] == code[|code| - 1] + footer + "\n"
  {
    if |code| == 1 then [code[0] + footer + "\n"]
    else [code[0] + "\n"] + CodeLines(code[1..], footer)
  }

  /** The lines flush writes: the single-line form when the block has no code,
      otherwise a header line and one line per code line, the footer on the last. */
  function FlushLines(fp: Failpoint): (r: seq<string>)
    ensures |r| == if fp.code == [] then 1 else |fp.code| + 1
    ensures fp.code == [] ==> r[0] == Hdr(fp, "_") + Footer(fp) + "\n"
    ensures fp.code != [] ==> r[0] == Hdr(fp, fp.name) + "\n" && r[1..] == CodeLines(fp.code, Footer(fp))
  {
    if fp.code == [] then [Hdr(fp, "_") + Footer(fp) + "\n"]
    else [Hdr(fp, fp.name) + "\n"] + CodeLines(fp.code, Footer(fp))
  }

  /** No field of the failpoint holds a newline. */
  predicate OneLineFields(fp: Failpoint) {
    '\n' !in fp.ws && '\n' !in fp.name && '\n' !in fp.varType
    && forall j :: 0 <= j < |fp.code| ==> '\n' !in fp.code[j]
  }

  /** The literal parts of the header and footer hold no newline. */
  lemma HdrLiteralsOneLine()
    ensures '\n' !in "if v" && '\n' !in ".Acquire();" && '\n' !in ".Release(); " && '\n' !in ".("
  {
  }

  lemma TypeCheckOneLine()
    ensures '\n' !in ", __fpTypeOK := v" && '\n' !in "} "
  {
  }

  lemma BadTypeGotoOneLine()
    ensures '\n' !in "); if !__fpTypeOK { goto __badType"
  {
  }

  lemma FooterLiteralsOneLine()
    ensures '\n' !in "; __badType" && '\n' !in ": " && '\n' !in ".BadType(v" && '\n' !in ", \"" && '\n' !in "\"); };"
  {
  }

  /** The computed parts of the header hold no newline. */
  lemma HdrPartsOneLine(fp: Failpoint, varname: string)
    requires '\n' !in fp.name && '\n' !in varname
    ensures '\n' !in Runtime(fp) && '\n' !in ErrDecl(ErrVar(fp)) && '\n' !in ErrCheck(ErrVar(fp))
    ensures '\n' !in Exec(fp) && '\n' !in BoundVar(fp, varname)
  {
  }

  /** The header is written on one line. */
  lemma HdrOneLine(fp: Failpoint, varname: string)
    requires '\n' !in fp.ws && '\n' !in fp.name && '\n' !in fp.varType && '\n' !in varname
    ensures '\n' !in Hdr(fp, varname)
  {
    HdrLiteralsOneLine();
    TypeCheckOneLine();
    BadTypeGotoOneLine();
    HdrPartsOneLine(fp, varname);
  }

  /** The footer is written on one line. */
  lemma FooterOneLine(fp: Failpoint)
    requires '\n' !in fp.name && '\n' !in fp.varType
    ensures '\n' !in Footer(fp)
  {
    FooterLiteralsOneLine();
    HdrPartsOneLine(fp, fp.name);
  }

  /** flush writes one complete line per element of FlushLines: the output
      keeps the line structure. */
  lemma FlushLinesAreLines(fp: Failpoint)
    requires OneLineFields(fp)
    ensures forall j :: 0 <= j < |FlushLines(fp)| ==> IsLine(FlushLines(fp)[j])
  {
    var r := FlushLines(fp);
    HdrOneLine(fp, fp.name);
    HdrOneLine(fp, "_");
    FooterOneLine(fp);
    forall j | 0 <= j < |r| ensures IsLine(r[j]) {
      if j == 0 {
        if fp.code == [] {
          LineOf(Hdr(fp, "_") + Footer(fp));
        } else {
          LineOf(Hdr(fp, fp.name));
        }
      } else if j < |fp.code| {
        LineOf(fp.code[j - 1]);
      } else {
        LineOf(fp.code[j - 1] + Footer(fp));
      }
    }
  }

  /** flushSingle: writes the header, bound to `_`, and the footer as one line. */
  method FlushSingle(fp: Failpoint, dst: string) returns (out: string)
    ensures out == dst + (Hdr(fp, "_") + Footer(fp) + "\n")
  {
    var hdr := Hdr(fp, "_");
    out := dst + hdr;
    var tail := Footer(fp) + "\n";
    out := out + tail;
    Assoc(dst, hdr, tail);
    Assoc(hdr, Footer(fp), "\n");
  }

  /** The multi-line form is the header line followed by the code lines. */
  lemma FlushLinesMulti(fp: Failpoint)
    requires fp.code != []
    ensures Concat(FlushLines(fp)) == Hdr(fp, fp.name) + "\n" + Concat(CodeLines(fp.code, Footer(fp)))
  {
    var lines := FlushLines(fp);
    assert lines == [lines[0]] + lines[1..];
    ConcatCons(lines[0], lines[1..]);
  }

  /** flushMulti: writes the header line, then every code line, the footer
      appended to the last one. */
  method FlushMulti(fp: Failpoint, dst: string) returns (out: string)
    requires fp.code != []
    ensures out == dst + Concat(FlushLines(fp))
  {
    var hdr := Hdr(fp, fp.name) + "\n";
    out := dst + hdr;
    out := WriteCode(out, fp.code, Footer(fp));
    FlushLinesMulti(fp);
    Assoc(dst, hdr, Concat(CodeLines(fp.code, Footer(fp))));
  }

  /** The loop of flushMulti: every code line but the last, then the last
      one with the footer. */
  method WriteCode(dst: string, code: seq<string>, footer: string) returns (out: string)
    requires code != []
    ensures out == dst + Concat(CodeLines(code, footer))
  {
    var n := |code|;
    out := dst;
    ghost var body := CodeLines(code, footer);
    var i := 0;
    while i < n - 1
      invariant 0 <= i <= n - 1
      invariant out == dst + Concat(body[..i])
    {
      var line := code[i] + "\n";
      WriteLine(dst, body[..i], line, out);
      out := out + line;
      assert body[..i + 1] == body[..i] + [line];
      i := i + 1;
    }
    var last := code[n - 1] + footer + "\n";
    WriteLine(dst, body[..n - 1], last, out);
    out := out + last;
    assert body == body[..n - 1] + [last];
  }

  /** Writing one more line after `start` and the lines `done`. */
  lemma WriteLine(start: string, done: seq<string>, line: string, out: string)
    requires out == start + Concat(done)
    ensures out + line == start + Concat(done + [line])
  {
    ConcatSnoc(done, line);
    Assoc(start, Concat(done), line);
  }

  /** flush: the single-line form exactly when the block has no code. */
  method Flush(fp: Failpoint, dst: string) returns (out: string)
    ensures out == dst + Concat(FlushLines(fp))
  {
    if |fp.code| == 0 {
      out := FlushSingle(fp, dst);
      SingleConcat(FlushLines(fp));
    } else {
      out := FlushMulti(fp, dst);
    }
  }

  lemma SingleConcat(ls: seq<string>)
    requires |ls| == 1
    ensures Concat(ls) == ls[0]
  {
    ConcatCons(ls[0], []);
    assert [ls[0]] + [] == ls;
  }
}
