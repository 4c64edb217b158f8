/** The line discipline of bufio.Reader.ReadString('\n') and of the text the
    rewriter writes: a text is a sequence of segments, each ending in a newline
    except the last, which may be empty and is returned together with EOF. */
module Lines {
  import opened GoStrings

  /** A complete line: exactly one newline, at its end. */
  predicate IsLine(l: string) {
    |l| > 0 && l[|l| - 1] == '\n' && '\n' !in l[..|l| - 1]
  }

  /** The shape of the segments of a text: complete lines, then a remainder
      without a newline. */
  predicate Shaped(ls: seq<string>) {
    |ls| > 0 && (forall i :: 0 <= i < |ls| - 1 ==> IsLine(ls[i])) && '\n' !in ls[|ls| - 1]
  }

  /** The text made of the segments `ls`, in order. */
  function Concat(ls: seq<string>): string {
    if ls == [] then [] else ls[0] + Concat(ls[1..])
  }

  lemma IndexOfChar(s: string, c: char)
    ensures Index(s, [c]) < 0 <==> c !in s
    ensures Index(s, [c]) >= 0 ==> s[Index(s, [c])] == c && c !in s[..Index(s, [c])]
  {
    var i := Index(s, [c]);
    if i >= 0 {
      assert s[i..][..1] == [c];
      assert s[i] == s[i..][..1][0];
      forall j | 0 <= j < i ensures s[j] != c {
        assert !HasPrefix(s[j..], [c]);
        assert s[j..][..1] == [s[j]];
      }
    } else {
      forall j | 0 <= j < |s| ensures s[j] != c {
        assert !HasPrefix(s[j..], [c]);
        assert s[j..][..1] == [s[j]];
      }
    }
  }

  /** The segments successive ReadString('\n') calls return on `s`, up to and
      including the one returned with EOF. */
  function Segments(s: string): (r: seq<string>)
    ensures Shaped(r)
    ensures Concat(r) == s
    decreases |s|
  {
    var i := Index(s, "\n");
    IndexOfChar(s, '\n');
    if i < 0 then [s]
    else
      var rest := Segments(s[i + 1..]);
      SegmentsStep(s, i, rest);
      [s[..i + 1]] + rest
  }

  /** One line read off the front of `s`, followed by the segments of the rest. */
  lemma SegmentsStep(s: string, i: int, rest: seq<string>)
    requires 0 <= i < |s| && s[i] == '\n' && '\n' !in s[..i]
    requires Shaped(rest) && Concat(rest) == s[i + 1..]
    ensures Shaped([s[..i + 1]] + rest)
    ensures Concat([s[..i + 1]] + rest) == s
  {
    var l := s[..i + 1];
    assert l[..i] == s[..i];
    ShapedCons(l, rest);
    ConcatCons(l, rest);
    assert s == l + s[i + 1..];
  }

  lemma ConcatAppend(a: seq<string>, b: seq<string>)
    ensures Concat(a + b) == Concat(a) + Concat(b)
  {
    if a != [] {
      assert (a + b)[1..] == a[1..] + b;
      ConcatAppend(a[1..], b);
    } else {
      assert a + b == b;
    }
  }

  lemma ConcatSnoc(ls: seq<string>, l: string)
    ensures Concat(ls + [l]) == Concat(ls) + l
  {
    ConcatAppend(ls, [l]);
    ConcatCons(l, []);
    assert [l] + [] == [l];
  }

  /** A character that no segment holds is not in their concatenation. */
  lemma {:induction false} ConcatFree(ls: seq<string>, c: char)
    requires forall j :: 0 <= j < |ls| ==> c !in ls[j]
    ensures c !in Concat(ls)
    decreases |ls|
  {
    if ls != [] {
      ConcatFree(ls[1..], c);
    }
  }

  /** A text without a newline, followed by one, is a complete line. */
  lemma LineOf(s: string)
    requires '\n' !in s
    ensures IsLine(s + "\n")
  {
    assert (s + "\n")[..|s|] == s;
  }

  lemma ConcatCons(l: string, ls: seq<string>)
    ensures Concat([l] + ls) == l + Concat(ls)
  {
    assert ([l] + ls)[1..] == ls;
  }

  /** Reading back a shaped sequence of segments gives the same segments. */
  lemma {:induction false} SegmentsOfConcat(ls: seq<string>)
    requires Shaped(ls)
    ensures Segments(Concat(ls)) == ls
    decreases |ls|
  {
    var s := Concat(ls);
    ConcatCons(ls[0], ls[1..]);
    assert [ls[0]] + ls[1..] == ls;
    if |ls| == 1 {
      assert s == ls[0];
      IndexOfChar(s, '\n');
    } else {
      var l := ls[0];
      var body := l[..|l| - 1];
      assert l == body + "\n";
      NoStartByFirstChar(body, "\n");
      IndexAfter(body, "\n", Concat(ls[1..]));
      assert s == body + "\n" + Concat(ls[1..]);
      assert s[..|body| + 1] == l;
      assert s[|body| + 1..] == Concat(ls[1..]);
      assert Shaped(ls[1..]) by {
        forall i | 0 <= i < |ls[1..]| - 1 ensures IsLine(ls[1..][i]) {
          assert ls[1..][i] == ls[i + 1];
        }
      }
      SegmentsOfConcat(ls[1..]);
    }
  }

  /** Appending one complete line in front keeps the shape. */
  lemma ShapedCons(l: string, ls: seq<string>)
    requires IsLine(l) && Shaped(ls)
    ensures Shaped([l] + ls)
  {
    var r := [l] + ls;
    forall i | 0 <= i < |r| - 1 ensures IsLine(r[i]) {
      if i > 0 { assert r[i] == ls[i - 1]; }
    }
  }

  /** Complete lines in front of a shaped sequence keep the shape. */
  lemma ShapedAppend(a: seq<string>, ls: seq<string>)
    requires forall i :: 0 <= i < |a| ==> IsLine(a[i])
    requires Shaped(ls)
    ensures Shaped(a + ls)
  {
    var r := a + ls;
    forall i | 0 <= i < |r| - 1 ensures IsLine(r[i]) {
      if i >= |a| { assert r[i] == ls[i - |a|]; }
    }
    assert r[|r| - 1] == ls[|ls| - 1];
  }
}
