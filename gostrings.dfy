/** The parts of Go's `strings` and `unicode` packages that the rewriter uses,
    over strings as sequences of code points.  Separators passed by the
    rewriter are never empty, and the functions here require that. */
module GoStrings {

  /** unicode.IsSpace: the Unicode White_Space property. */
  predicate IsSpace(c: char) {
    ('\t' <= c <= '\r') || c == ' ' || c == '\U{0085}' || c == '\U{00A0}' || c == '\U{1680}'
    || ('\U{2000}' <= c <= '\U{200A}') || c == '\U{2028}' || c == '\U{2029}' || c == '\U{202F}'
    || c == '\U{205F}' || c == '\U{3000}'
  }

  /** Every character of `s` is white space. */
  predicate Blank(s: string) {
    forall i :: 0 <= i < |s| ==> IsSpace(s[i])
  }

  /** strings.HasPrefix */
  predicate HasPrefix(s: string, p: string) {
    |p| <= |s| && s[..|p|] == p
  }

  /** strings.TrimLeftFunc(s, unicode.IsSpace) */
  function TrimLeft(s: string): (r: string)
    ensures |r| <= |s| && r == s[|s| - |r|..]
    ensures Blank(s[..|s| - |r|])
    ensures r == [] || !IsSpace(r[0])
  {
    if s != [] && IsSpace(s[0]) then
      var t := TrimLeft(s[1..]);
      TrimLeftStep(s, t);
      t
    else s
  }

  /** Trimming one more white space character at the front. */
  lemma TrimLeftStep(s: string, t: string)
    requires s != [] && IsSpace(s[0])
    requires |t| <= |s| - 1 && t == s[1..][|s| - 1 - |t|..] && Blank(s[1..][..|s| - 1 - |t|])
    ensures t == s[|s| - |t|..] && Blank(s[..|s| - |t|])
  {
    var n := |s| - |t|;
    assert s[1..][n - 1..] == s[n..];
    forall i | 0 <= i < n ensures IsSpace(s[..n][i]) {
      if i > 0 {
        assert s[..n][i] == s[1..][..n - 1][i - 1];
      }
    }
  }

  /** strings.TrimRightFunc(s, unicode.IsSpace) */
  function TrimRight(s: string): (r: string)
    ensures |r| <= |s| && r == s[..|r|]
    ensures Blank(s[|r|..])
    ensures r == [] || !IsSpace(r[|r| - 1])
  {
    if s != [] && IsSpace(s[|s| - 1]) then
      var t := TrimRight(s[..|s| - 1]);
      TrimRightStep(s, t);
      t
    else s
  }

  /** Trimming one more white space character at the back. */
  lemma TrimRightStep(s: string, t: string)
    requires s != [] && IsSpace(s[|s| - 1])
    requires |t| <= |s| - 1 && t == s[..|s| - 1][..|t|] && Blank(s[..|s| - 1][|t|..])
    ensures t == s[..|t|] && Blank(s[|t|..])
  {
    var n := |t|;
    assert s[..|s| - 1][..n] == s[..n];
    forall i | 0 <= i < |s| - n ensures IsSpace(s[n..][i]) {
      if i < |s| - n - 1 {
        assert s[n..][i] == s[..|s| - 1][n..][i];
      }
    }
  }

  /** strings.TrimSpace: the text between the leading and trailing white
      space; what TrimLeft keeps is the result and a blank trail. */
  function TrimSpace(s: string): (r: string)
    ensures r == [] || (!IsSpace(r[0]) && !IsSpace(r[|r| - 1]))
    ensures |r| <= |TrimLeft(s)| && r == TrimLeft(s)[..|r|]
    ensures Blank(TrimLeft(s)[|r|..])
  {
    var t := TrimLeft(s);
    var r := TrimRight(t);
    assert r == [] || r[0] == t[0];
    r
  }

  /** Index(s, p): the position of the first occurrence of `p` in `s`, or -1
      (strings.Index). */
  function Index(s: string, p: string): (r: int)
    ensures r == -1 || 0 <= r <= |s| - |p|
    ensures r >= 0 ==> HasPrefix(s[r..], p)
    ensures forall i {:trigger HasPrefix(s[i..], p)} :: 0 <= i <= |s| && (r < 0 || i < r) ==> !HasPrefix(s[i..], p)
    decreases |s|
  {
    if HasPrefix(s, p) then 0
    else if s == [] then assert s[0..] == s; -1
    else
      var k := Index(s[1..], p);
      assert forall i :: 1 <= i <= |s| ==> s[i..] == s[1..][i - 1..];
      if k < 0 then -1 else k + 1
  }

  /** strings.Contains */
  predicate Contains(s: string, p: string) {
    Index(s, p) >= 0
  }

  /** strings.Split(s, sep)[0]: the text before the first `sep`, or all of `s`. */
  function Before(s: string, sep: string): (r: string)
    requires sep != []
    ensures HasPrefix(s, r)
    ensures !Contains(r, sep)
    ensures Contains(s, sep) ==> HasPrefix(s[|r|..], sep)
    ensures !Contains(s, sep) ==> r == s
  {
    var i := Index(s, sep);
    if i < 0 then s
    else
      NoOccurrenceInPrefix(s, sep, i);
      s[..i]
  }

  /** The text after the first `sep` (strings.Join(strings.SplitAfter(s, sep)[1:], "")). */
  function After(s: string, sep: string): (r: string)
    requires sep != [] && Contains(s, sep)
    ensures |Before(s, sep)| + |sep| + |r| == |s|
  {
    s[Index(s, sep) + |sep|..]
  }

  /** strings.Split(s, sep)[1]: the text between the first and the second `sep`. */
  function SplitSecond(s: string, sep: string): (r: string)
    requires sep != [] && Contains(s, sep)
    ensures HasPrefix(After(s, sep), r) && !Contains(r, sep)
    ensures Contains(After(s, sep), sep) ==> HasPrefix(After(s, sep)[|r|..], sep)
    ensures !Contains(After(s, sep), sep) ==> r == After(s, sep)
  {
    Before(After(s, sep), sep)
  }

  /** strings.SplitAfter(s, sep)[1]: the text after the first `sep`, up to and
      including the second `sep`. */
  function SplitAfterSecond(s: string, sep: string): (r: string)
    requires sep != [] && Contains(s, sep)
    ensures HasPrefix(After(s, sep), r)
    ensures !Contains(After(s, sep), sep) ==> r == After(s, sep)
    ensures Contains(After(s, sep), sep) ==> r == SplitSecond(s, sep) + sep
  {
    var a := After(s, sep);
    var j := Index(a, sep);
    if j < 0 then a
    else
      SplitAfterAt(a, sep, j);
      a[..j + |sep|]
  }

  /** The text up to and including the first `sep`, found at `j`: the text
      before it, then `sep`. */
  lemma SplitAfterAt(a: string, sep: string, j: int)
    requires sep != [] && j == Index(a, sep) && j >= 0
    ensures a[..j + |sep|] == Before(a, sep) + sep
  {
    assert Before(a, sep) == a[..j];
    assert a[..j + |sep|] == a[..j] + a[j..][..|sep|];
  }

  /** strings.Replace(s, old, new, 1) */
  function Replace1(s: string, pat: string, rep: string): (r: string)
    requires pat != []
    ensures !Contains(s, pat) ==> r == s
    ensures Contains(s, pat) ==> r == Before(s, pat) + rep + After(s, pat)
  {
    var i := Index(s, pat);
    if i < 0 then s else s[..i] + rep + s[i + |pat|..]
  }

  /** The longest prefix of `s` that holds no white space. */
  function Word(s: string): (r: string)
    ensures HasPrefix(s, r)
    ensures NoSpace(r)
    ensures |r| == |s| || IsSpace(s[|r|])
  {
    if s == [] || IsSpace(s[0]) then [] else [s[0]] + Word(s[1..])
  }

  /** No character of `s` is white space. */
  predicate NoSpace(s: string) {
    forall i :: 0 <= i < |s| ==> !IsSpace(s[i])
  }

  /** strings.Fields: the maximal runs of non-space characters, in order. */
  function Fields(s: string): (r: seq<string>)
    ensures AreFields(r)
    ensures r == [] <==> Blank(s)
    decreases |s|
  {
    var t := TrimLeft(s);
    if t == [] then
      assert s[..|s| - |t|] == s;
      []
    else
      var w := Word(t);
      assert |w| > 0 by { assert !IsSpace(t[0]); }
      var rest := Fields(t[|w|..]);
      FieldsCons(w, rest);
      assert !Blank(s) by { assert s[|s| - |t|] == t[0]; }
      [w] + rest
  }

  /** Non-empty runs of non-space characters. */
  predicate AreFields(ws: seq<string>) {
    forall k :: 0 <= k < |ws| ==> ws[k] != [] && NoSpace(ws[k])
  }

  /** One more field in front of fields. */
  lemma FieldsCons(w: string, ws: seq<string>)
    requires w != [] && NoSpace(w) && AreFields(ws)
    ensures AreFields([w] + ws)
  {
    assert forall k :: 0 < k <= |ws| ==> ([w] + ws)[k] == ws[k - 1];
  }

  /** Blank runs to go around the fields `ws`: one before each field and one
      after the last, the ones between two fields non-empty. */
  predicate Separates(gaps: seq<string>, ws: seq<string>) {
    && |gaps| == |ws| + 1
    && (forall i :: 0 <= i < |gaps| ==> Blank(gaps[i]))
    && (forall i :: 0 < i < |ws| ==> gaps[i] != [])
  }

  /** The text made of the blank runs `gaps` with the fields `ws` between them. */
  function Join(gaps: seq<string>, ws: seq<string>): string
    requires |gaps| == |ws| + 1
    decreases |ws|
  {
    if ws == [] then gaps[0] else gaps[0] + ws[0] + Join(gaps[1..], ws[1..])
  }

  /** The blank runs Fields leaves out: `s` is its fields with these runs
      around and between them. */
  function Gaps(s: string): (g: seq<string>)
    ensures Separates(g, Fields(s)) && Join(g, Fields(s)) == s
    ensures g[0] == Lead(s)
    decreases |s|
  {
    var t := TrimLeft(s);
    var lead := s[..|s| - |t|];
    assert s == lead + t by { assert s[|s| - |t|..] == t; }
    if t == [] then
      assert Fields(s) == [] && lead == s;
      assert Separates([s], []);
      [s]
    else
      var w := Word(t);
      assert |w| > 0 by { assert !IsSpace(t[0]); }
      var rest := t[|w|..];
      var g' := Gaps(rest);
      GapsStep(s, lead, t, w, rest, g');
      [lead] + g'
  }

  /** One field and the blank run before it, in front of the fields and gaps
      of the rest. */
  lemma GapsStep(s: string, lead: string, t: string, w: string, rest: string, g': seq<string>)
    requires s == lead + t && Blank(lead) && t != [] && !IsSpace(t[0])
    requires w == Word(t) && w != [] && rest == t[|w|..]
    requires Separates(g', Fields(rest)) && Join(g', Fields(rest)) == rest && g'[0] == Lead(rest)
    ensures Fields(s) == [w] + Fields(rest)
    ensures Separates([lead] + g', Fields(s)) && Join([lead] + g', Fields(s)) == s
  {
    var f := Fields(rest);
    assert t == w + rest;
    FieldsOf(lead, w, rest);
    JoinCons(lead, w, g', f);
    Assoc(lead, w, rest);
    if f != [] {
      assert rest != [] && IsSpace(rest[0]);
    }
    SeparatesCons(lead, w, g', f);
  }

  /** Joining one more blank run and field in front. */
  lemma JoinCons(b: string, w: string, gaps: seq<string>, ws: seq<string>)
    requires |gaps| == |ws| + 1
    ensures Join([b] + gaps, [w] + ws) == b + w + Join(gaps, ws)
  {
    assert ([b] + gaps)[1..] == gaps && ([w] + ws)[1..] == ws;
  }

  /** One more blank run in front of blank runs that separate fields, before
      one more field. */
  lemma SeparatesCons(b: string, w: string, gaps: seq<string>, ws: seq<string>)
    requires Blank(b) && Separates(gaps, ws)
    requires ws != [] ==> gaps[0] != []
    ensures Separates([b] + gaps, [w] + ws)
  {
    var g := [b] + gaps;
    assert forall i :: 0 < i < |g| ==> g[i] == gaps[i - 1];
  }

  /** Fields gives back the fields of a text made of fields and blank runs:
      with Gaps, its result is the one sequence of fields that makes up `s`. */
  lemma {:induction false} FieldsOfJoin(gaps: seq<string>, ws: seq<string>)
    requires Separates(gaps, ws) && AreFields(ws)
    ensures Fields(Join(gaps, ws)) == ws
    decreases |ws|
  {
    if ws != [] {
      var rest := Join(gaps[1..], ws[1..]);
      assert Fields(gaps[0] + (ws[0] + rest)) == ws by {
        SeparatesTail(gaps, ws);
        AreFieldsTail(ws);
        FieldsOfJoin(gaps[1..], ws[1..]);
        FieldsOf(gaps[0], ws[0], rest);
        HeadTail(ws);
      }
      assert Join(gaps, ws) == gaps[0] + (ws[0] + rest) by {
        Assoc(gaps[0], ws[0], rest);
      }
    }
  }

  /** Past the first blank run and field: blank runs that separate the other
      fields, and a join that is empty or starts with a space. */
  lemma SeparatesTail(gaps: seq<string>, ws: seq<string>)
    requires Separates(gaps, ws) && ws != []
    ensures Blank(gaps[0]) && Separates(gaps[1..], ws[1..])
    ensures var rest := Join(gaps[1..], ws[1..]); rest == [] || IsSpace(rest[0])
  {
    assert forall i :: 0 <= i < |gaps| - 1 ==> gaps[1..][i] == gaps[i + 1];
    JoinStarts(gaps[1..], ws[1..]);
    if |ws| > 1 {
      assert gaps[1..][0] == gaps[1];
    }
  }

  /** Past the first field: fields again. */
  lemma AreFieldsTail(ws: seq<string>)
    requires AreFields(ws) && ws != []
    ensures ws[0] != [] && NoSpace(ws[0]) && AreFields(ws[1..])
  {
    assert forall i :: 0 <= i < |ws| - 1 ==> ws[1..][i] == ws[i + 1];
  }

  /** A join starts with its first blank run: when that run is empty, with
      the first field or nothing. */
  lemma JoinStarts(gaps: seq<string>, ws: seq<string>)
    requires Separates(gaps, ws)
    ensures gaps[0] != [] ==> Join(gaps, ws) != [] && IsSpace(Join(gaps, ws)[0])
    ensures ws == [] ==> Join(gaps, ws) == gaps[0]
  {
    if gaps[0] != [] && ws != [] {
      assert Join(gaps, ws)[0] == gaps[0][0];
    }
  }

  lemma {:induction false} WordOf(w: string, rest: string)
    requires NoSpace(w) && (rest == [] || IsSpace(rest[0]))
    ensures Word(w + rest) == w
    decreases |w|
  {
    if w == [] {
      assert w + rest == rest;
    } else {
      assert (w + rest)[1..] == w[1..] + rest;
      WordOf(w[1..], rest);
      assert [w[0]] + w[1..] == w;
    }
  }

  /** Leading blanks, a word and a space: the word is the first field. */
  lemma FieldsOf(lead: string, w: string, rest: string)
    requires Blank(lead) && w != [] && NoSpace(w) && (rest == [] || IsSpace(rest[0]))
    ensures Fields(lead + (w + rest)) == [w] + Fields(rest)
  {
    var t := w + rest;
    assert t[0] == w[0];
    TrimLeftLead(lead, t);
    WordOf(w, rest);
    assert t[|w|..] == rest;
  }


  /** The number of occurrences of `c` in `s`. */
  function Count(s: string, c: char): nat {
    multiset(s)[c]
  }

  // ---------------------------------------------------------------------
  // Lemmas for computing Index on concatenations.

  /** `x` could be the start of an occurrence of `p`: `x` and `p` agree as far
      as both go. */
  predicate Agree(x: string, p: string) {
    if |x| < |p| then p[..|x|] == x else x[..|p|] == p
  }

  /** No occurrence of `p` can start inside `a`, whatever follows `a`. */
  predicate NoStartIn(a: string, p: string) {
    forall i {:trigger Agree(a[i..], p)} :: 0 <= i < |a| ==> !Agree(a[i..], p)
  }

  lemma NoOccurrenceInPrefix(s: string, p: string, k: nat)
    requires k <= |s| && p != []
    requires forall j {:trigger HasPrefix(s[j..], p)} :: 0 <= j < k ==> !HasPrefix(s[j..], p)
    ensures !Contains(s[..k], p)
  {
    var t := s[..k];
    forall j | 0 <= j <= |t| ensures !HasPrefix(t[j..], p) {
      if j + |p| <= k {
        assert !HasPrefix(s[j..], p);
        assert t[j..][..|p|] == s[j..][..|p|];
      }
    }
    IndexUnique(t, p, -1);
  }

  /** An occurrence in `a + b` that starts inside `a` agrees with `a`'s tail. */
  lemma AgreeOfOccurrence(a: string, b: string, p: string, i: nat)
    requires i < |a| && HasPrefix((a + b)[i..], p)
    ensures Agree(a[i..], p)
  {
    if |a[i..]| < |p| {
      assert p[..|a[i..]|] == (a + b)[i..][..|a[i..]|];
    } else {
      assert a[i..][..|p|] == (a + b)[i..][..|p|];
    }
  }

  /** The first occurrence in `a + b` when none starts inside `a`. */
  lemma IndexConcat(a: string, b: string, p: string)
    requires p != [] && NoStartIn(a, p)
    ensures Index(a + b, p) == if Index(b, p) < 0 then -1 else |a| + Index(b, p)
  {
    var s := a + b;
    forall i | 0 <= i < |a|
      ensures !HasPrefix(s[i..], p)
    {
      if HasPrefix(s[i..], p) {
        AgreeOfOccurrence(a, b, p, i);
      }
    }
    var k := Index(b, p);
    var r := if k < 0 then -1 else |a| + k;
    forall i | |a| <= i <= |s| ensures s[i..] == b[i - |a|..] {
    }
    IndexUnique(s, p, r);
  }

  /** Index is the only value satisfying its characterisation. */
  lemma IndexUnique(s: string, p: string, r: int)
    requires r == -1 || 0 <= r <= |s| - |p|
    requires r >= 0 ==> HasPrefix(s[r..], p)
    requires forall i {:trigger HasPrefix(s[i..], p)} :: 0 <= i <= |s| && (r < 0 || i < r) ==> !HasPrefix(s[i..], p)
    ensures Index(s, p) == r
  {
  }

  lemma IndexAtPrefix(s: string, p: string)
    requires HasPrefix(s, p)
    ensures Index(s, p) == 0
  {
  }

  /** `a + p + b` finds `p` right after `a` when no occurrence starts in `a`. */
  lemma IndexAfter(a: string, p: string, b: string)
    requires p != [] && NoStartIn(a, p)
    ensures Index(a + p + b, p) == |a|
    ensures Before(a + p + b, p) == a && After(a + p + b, p) == b
  {
    assert a + p + b == a + (p + b);
    IndexAtPrefix(p + b, p);
    IndexConcat(a, p + b, p);
    assert (a + p + b)[..|a|] == a;
    assert (a + p + b)[|a| + |p|..] == b;
  }

  /** IndexAfter for a text already known to be `a + p + b`. */
  lemma SplitAt(s: string, a: string, p: string, b: string)
    requires p != [] && NoStartIn(a, p) && s == a + p + b
    ensures Index(s, p) == |a| && Before(s, p) == a && After(s, p) == b
  {
    IndexAfter(a, p, b);
  }

  /** No occurrence at all when none can start anywhere. */
  lemma NotContains(s: string, p: string)
    requires p != [] && NoStartIn(s, p)
    ensures !Contains(s, p)
  {
    IndexConcat(s, [], p);
    assert s + [] == s;
  }

  /** A string that avoids the first character of `p` cannot start it. */
  lemma NoStartByFirstChar(a: string, p: string)
    requires p != [] && p[0] !in a
    ensures NoStartIn(a, p)
  {
    forall i | 0 <= i < |a| ensures !Agree(a[i..], p) {
      assert a[i..][0] == a[i];
    }
  }

  lemma AgreePrefix(x: string, y: string, p: string)
    requires Agree(x + y, p)
    ensures Agree(x, p)
  {
    if |x| < |p| {
      if |x + y| < |p| {
        assert p[..|x|] == p[..|x + y|][..|x|];
        assert x == (x + y)[..|x|];
      } else {
        assert p[..|x|] == (x + y)[..|p|][..|x|];
      }
    } else {
      assert x[..|p|] == (x + y)[..|p|];
    }
  }

  lemma NoStartConcat(a: string, b: string, p: string)
    requires NoStartIn(a, p) && NoStartIn(b, p)
    ensures NoStartIn(a + b, p)
  {
    forall i | 0 <= i < |a + b| ensures !Agree((a + b)[i..], p) {
      if i < |a| {
        assert (a + b)[i..] == a[i..] + b;
        if Agree((a + b)[i..], p) {
          AgreePrefix(a[i..], b, p);
        }
      } else {
        assert (a + b)[i..] == b[i - |a|..];
      }
    }
  }

  /** The first occurrence of `p` in `b + p + rest` when `b` holds none and
      `p`'s first character does not recur in `p`. */
  lemma IndexAfterFree(b: string, p: string, rest: string)
    requires p != [] && !Contains(b, p) && p[0] !in p[1..]
    ensures Index(b + p + rest, p) == |b|
    ensures Before(b + p + rest, p) == b && After(b + p + rest, p) == rest
  {
    var s := b + p + rest;
    forall i | 0 <= i < |b| ensures !HasPrefix(s[i..], p) {
      if i + |p| <= |b| {
        assert !HasPrefix(b[i..], p);
        assert b[i..][..|p|] == s[i..][..|p|];
      } else {
        var d := |b| - i;
        assert s[i..][d] == p[0];
        assert p[d] == p[1..][d - 1];
        assert s[i..][d] != p[d];
      }
    }
    assert s[|b|..][..|p|] == p;
    IndexUnique(s, p, |b|);
    assert s[..|b|] == b;
    assert s[|b| + |p|..] == rest;
  }

  /** An occurrence of `p` at position `i` makes `s` contain `p`. */
  lemma ContainsAt(s: string, p: string, i: nat)
    requires i <= |s| && HasPrefix(s[i..], p)
    ensures Contains(s, p)
  {
  }

  /** `p` occurs in `a + p + b`. */
  lemma ContainsMiddle(a: string, p: string, b: string)
    ensures Contains(a + p + b, p)
  {
    var s := a + p + b;
    assert s[|a|..][..|p|] == p;
    ContainsAt(s, p, |a|);
  }

  /** A string that avoids the second character of `p`, and does not end in
      its first, cannot start `p`. */
  lemma NoStartSecond(s: string, p: string)
    requires |p| >= 2 && p[1] !in s && (s == [] || s[|s| - 1] != p[0])
    ensures NoStartIn(s, p)
  {
    forall i | 0 <= i < |s| ensures !Agree(s[i..], p) {
      var x := s[i..];
      if i == |s| - 1 {
        assert x == [s[i]];
        assert p[..1] == [p[0]];
      } else {
        assert x[1] == s[i + 1];
        if |x| < |p| {
          assert p[..|x|][1] == p[1];
        } else {
          assert x[..|p|][1] == x[1];
        }
      }
    }
  }

  /** Three pieces that cannot start `p` when the last two are taken together. */
  lemma NoStartConcat3(x: string, a: string, b: string, p: string)
    requires NoStartIn(x, p) && NoStartIn(a + b, p)
    ensures NoStartIn(x + a + b, p)
  {
    NoStartConcat(x, a + b, p);
    assert x + a + b == x + (a + b);
  }

  /** strings.Split(strings.Split(s, q)[0], c)[0] on a text that starts with
      `n`, then `c`: the split at `q` leaves `n + c` in place. */
  lemma BeforeOfBefore(n: string, c: char, rest: string, q: string)
    requires q != [] && c !in n && NoStartIn(n + [c], q)
    ensures Before(Before(n + [c] + rest, q), [c]) == n
  {
    var s := n + [c] + rest;
    var y := Before(s, q);
    IndexConcat(n + [c], rest, q);
    assert HasPrefix(y, n + [c]);
    var tail := y[|n| + 1..];
    assert y == n + [c] + tail;
    NoStartByFirstChar(n, [c]);
    SplitAt(y, n, [c], tail);
  }

  /** TrimLeft drops exactly a white-space lead. */
  lemma {:induction false} TrimLeftLead(lead: string, t: string)
    requires Blank(lead) && (t == [] || !IsSpace(t[0]))
    ensures TrimLeft(lead + t) == t
    decreases |lead|
  {
    if lead == [] {
      assert lead + t == t;
    } else {
      assert (lead + t)[1..] == lead[1..] + t;
      TrimLeftLead(lead[1..], t);
    }
  }

  /** TrimRight drops exactly a white-space trail. */
  lemma {:induction false} TrimRightTrail(t: string, trail: string)
    requires Blank(trail) && (t == [] || !IsSpace(t[|t| - 1]))
    ensures TrimRight(t + trail) == t
    decreases |trail|
  {
    if trail == [] {
      assert t + trail == t;
    } else {
      var n := |trail| - 1;
      assert (t + trail)[..|t + trail| - 1] == t + trail[..n];
      TrimRightTrail(t, trail[..n]);
    }
  }

  /** TrimSpace of a text between a white-space lead and trail. */
  lemma TrimSpaceOf(s: string, lead: string, t: string, trail: string)
    requires s == lead + t + trail && Blank(lead) && Blank(trail)
    requires t != [] && !IsSpace(t[0]) && !IsSpace(t[|t| - 1])
    ensures TrimSpace(s) == t
  {
    assert s == lead + (t + trail);
    TrimLeftLead(lead, t + trail);
    TrimRightTrail(t, trail);
  }

  /** TrimRight keeps every character up to a non-space one. */
  lemma TrimRightKeeps(t: string, k: nat)
    requires k < |t| && !IsSpace(t[k])
    ensures |TrimRight(t)| > k
  {
    var r := TrimRight(t);
    assert forall j :: |r| <= j < |t| ==> IsSpace(t[j]) by {
      forall j | |r| <= j < |t| ensures IsSpace(t[j]) {
        assert t[|r|..][j - |r|] == t[j];
      }
    }
  }

  /** TrimRight keeps the text up to a non-space character. */
  lemma TrimRightPrefix(t: string, k: nat)
    requires k < |t| && !IsSpace(t[k])
    ensures HasPrefix(TrimRight(t), t[..k + 1])
  {
    TrimRightKeeps(t, k);
    var r := TrimRight(t);
    assert r[..k + 1] == t[..k + 1];
  }

  /** TrimSpace after a white-space lead is TrimRight of the rest. */
  lemma TrimSpaceLead(s: string, lead: string, t: string)
    requires s == lead + t && Blank(lead) && t != [] && !IsSpace(t[0])
    ensures TrimSpace(s) == TrimRight(t)
  {
    TrimLeftLead(lead, t);
  }

  /** TrimSpace of a text whose first non-space part starts with `t`, with a
      non-space character at position `k` of `t`, keeps `t[..k + 1]`. */
  lemma TrimSpaceKeeps(s: string, lead: string, t: string, k: nat)
    requires s == lead + t && Blank(lead) && k < |t| && !IsSpace(t[0]) && !IsSpace(t[k])
    ensures HasPrefix(TrimSpace(s), t[..k + 1])
  {
    TrimSpaceLead(s, lead, t);
    TrimRightPrefix(t, k);
  }

  lemma HeadTail<T>(s: seq<T>)
    requires s != []
    ensures [s[0]] + s[1..] == s
  {
  }

  lemma Assoc(a: string, b: string, c: string)
    ensures a + b + c == a + (b + c)
  {
  }

  /** The leading white space of `s`. */
  function Lead(s: string): (r: string)
    ensures Blank(r) && HasPrefix(s, r)
    ensures |r| == |s| || !IsSpace(s[|r|])
  {
    var t := TrimLeft(s);
    assert s[|s| - |t|..] == t;
    s[..|s| - |t|]
  }

  /** What TrimSpace starts with occurs in the text. */
  lemma TrimmedContains(s: string, p: string)
    requires HasPrefix(TrimSpace(s), p)
    ensures Contains(s, p)
  {
    var r := TrimSpace(s);
    var t := TrimLeft(s);
    var k := |s| - |t|;
    assert s[k..] == t;
    assert t[..|p|] == r[..|p|];
    ContainsAt(s, p, k);
  }

  /** An occurrence of `a + p + b` holds an occurrence of `p`. */
  lemma ContainsPart(s: string, a: string, p: string, b: string)
    requires Contains(s, a + p + b)
    ensures Contains(s, p)
  {
    var x := a + p + b;
    var i := Index(s, x);
    assert HasPrefix(s[i..], x);
    var j := i + |a|;
    forall k | 0 <= k < |p| ensures s[j..][k] == p[k] {
      PrefixAt(s[i..], x, |a| + k);
      assert x[|a| + k] == p[k];
    }
    assert s[j..][..|p|] == p;
    ContainsAt(s, p, j);
  }

  lemma ContainsEnd(s: string, a: string, p: string)
    requires Contains(s, a + p)
    ensures Contains(s, p)
  {
    assert a + p + [] == a + p;
    ContainsPart(s, a, p, []);
  }

  /** The text before the first `q`, when `q` starts the second part. */
  lemma BeforePrefix(a: string, p: string, c: string, q: string)
    requires q != [] && NoStartIn(a, q) && HasPrefix(p, q)
    ensures Contains(a + p + c, q) && Before(a + p + c, q) == a
  {
    var rest := p[|q|..] + c;
    assert p == q + p[|q|..];
    assert a + p + c == a + q + rest;
    SplitAt(a + p + c, a, q, rest);
  }

  // ---------------------------------------------------------------------
  // Reading a text that is known piece by piece.

  lemma PrefixAppend(a: string, b: string)
    ensures HasPrefix(a + b, a)
  {
    assert (a + b)[..|a|] == a;
  }

  /** A text agrees with its prefix at every position of the prefix. */
  lemma PrefixAt(s: string, a: string, i: nat)
    requires HasPrefix(s, a) && i < |a|
    ensures s[i] == a[i]
  {
    assert s[..|a|][i] == s[i];
  }

  lemma PrefixTrans(s: string, a: string, b: string)
    requires HasPrefix(s, a) && HasPrefix(a, b)
    ensures HasPrefix(s, b)
  {
    assert s[..|b|] == a[..|a|][..|b|];
  }

  /** The first `q` of a text that starts with `a + q`, when none can start
      inside `a`. */
  lemma FirstAt(s: string, a: string, q: string)
    requires q != [] && NoStartIn(a, q) && HasPrefix(s, a + q)
    ensures Contains(s, q) && Before(s, q) == a && After(s, q) == s[|a| + |q|..]
  {
    var rest := s[|a| + |q|..];
    assert s == s[..|a| + |q|] + rest;
    SplitAt(s, a, q, rest);
  }

  /** What follows the first `|a|` characters of a text that starts with
      `a + b`. */
  lemma DropPrefix(s: string, a: string, b: string)
    requires HasPrefix(s, a + b)
    ensures HasPrefix(s[|a|..], b)
  {
    assert s[|a|..][..|b|] == (a + b)[|a|..];
  }

  /** `x` and `p` part at position `d`. */
  lemma Differs(x: string, p: string, d: nat)
    requires d < |x| && d < |p| && x[d] != p[d]
    ensures !Agree(x, p)
  {
    if |x| < |p| {
      assert p[..|x|][d] != x[d];
    } else {
      assert x[..|p|][d] != p[d];
    }
  }

  /** No occurrence of `p` starts in `s` when, for every position `i`, the
      text at `i` parts from `p` at offset `w[i]`. */
  lemma NoStartWitness(s: string, p: string, w: seq<nat>)
    requires |w| == |s|
    requires forall i :: 0 <= i < |s| ==> i + w[i] < |s| && w[i] < |p| && s[i + w[i]] != p[w[i]]
    ensures NoStartIn(s, p)
  {
    forall i | 0 <= i < |s| ensures !Agree(s[i..], p) {
      Differs(s[i..], p, w[i]);
    }
  }

  lemma PrefixShrink(s: string, a: string, b: string)
    requires HasPrefix(s, a + b)
    ensures HasPrefix(s, a)
  {
    assert s[..|a|] == (a + b)[..|a|];
  }

  lemma PrefixExtend(a: string, b: string, c: string)
    requires HasPrefix(b, c)
    ensures HasPrefix(a + b, a + c)
  {
    assert (a + b)[..|a| + |c|] == a + b[..|c|];
  }
}
