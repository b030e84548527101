/**
 * The line view of a file that the file backend reads with a line scanner:
 * the content is cut after every '\n', a final piece without '\n' is a line
 * too, and one '\r' before the cut is dropped. `Join` is what the backend's
 * string builder writes: every URL followed by '\n'.
 */
module Lines {
  import opened Common

  /** The position of the first '\n' of `s`, or `|s|` when there is none. */
  function LineEnd(s: string): (i: nat)
    ensures i <= |s| && (i < |s| ==> s[i] == '\n')
    decreases |s|
  {
    if s == [] || s[0] == '\n' then 0 else 1 + LineEnd(s[1..])
  }

  /** No '\n' comes before the end of the first line. */
  lemma {:induction false} BeforeLineEnd(s: string, j: nat)
    requires j < LineEnd(s)
    ensures s[j] != '\n'
    decreases |s|
  {
    if j > 0 {
      BeforeLineEnd(s[1..], j - 1);
    }
  }

  /** The first line ends at the first '\n'. */
  lemma LineEndAt(s: string, i: nat)
    requires i < |s| && s[i] == '\n'
    requires forall j :: 0 <= j < i ==> s[j] != '\n'
    ensures LineEnd(s) == i
  {
    if i < LineEnd(s) {
      BeforeLineEnd(s, i);
    }
  }

  /** A text holding a '\n' scans as its first line, then the rest. */
  lemma LinesOfFirst(s: string)
    requires LineEnd(s) < |s|
    ensures LinesOf(s) == [DropCR(s[..LineEnd(s)])] + LinesOf(s[LineEnd(s) + 1..])
  {
  }

  /** The same, with the first line and the rest named. */
  lemma LinesOfCut(s: string, head: string, tail: string)
    requires LineEnd(s) < |s| && s[..LineEnd(s)] == head && s[LineEnd(s) + 1..] == tail
    ensures LinesOf(s) == [DropCR(head)] + LinesOf(tail)
  {
    LinesOfFirst(s);
  }

  /** How far one scan advances: past the first '\n', or to the end. */
  function TokenEnd(s: string): (n: nat)
    requires s != []
    ensures 0 < n <= |s|
  {
    if LineEnd(s) < |s| then LineEnd(s) + 1 else |s|
  }

  function DropCR(s: string): string
  {
    if s != [] && s[|s| - 1] == '\r' then s[..|s| - 1] else s
  }

  /** The lines a scan of `s` yields, in order. */
  function LinesOf(s: string): seq<string>
    decreases |s|
  {
    if s == [] then [] else [DropCR(s[..LineEnd(s)])] + LinesOf(s[TokenEnd(s)..])
  }

  /** The number of characters the first `k` scans consume. */
  function Consumed(s: string, k: nat): (n: nat)
    ensures n <= |s|
    ensures k == 0 ==> n == 0
    decreases k
  {
    if k == 0 || s == [] then 0 else TokenEnd(s) + Consumed(s[TokenEnd(s)..], k - 1)
  }

  /** A URL that is kept as one line, unchanged: no '\n' inside and no trailing '\r'. */
  predicate OneLine(u: string)
  {
    '\n' !in u && (u == [] || u[|u| - 1] != '\r')
  }

  /** Empty, or ending in '\n': what follows starts a new line. */
  predicate AtLineStart(s: string)
  {
    s == [] || s[|s| - 1] == '\n'
  }

  /** The text the builder of `CreateShort` holds after the URLs `urls`. */
  function Join(urls: seq<string>): (s: string)
    ensures AtLineStart(s)
    decreases |urls|
  {
    if urls == [] then "" else Join(urls[..|urls| - 1]) + urls[|urls| - 1] + "\n"
  }

  /** Text appended at a line start is scanned on its own. */
  lemma {:induction false} LinesOfAppend(a: string, b: string)
    requires AtLineStart(a)
    ensures LinesOf(a + b) == LinesOf(a) + LinesOf(b)
    decreases |a|
  {
    if a != [] {
      var i := LineEnd(a);
      assert i < |a| by {
        if i == |a| {
          BeforeLineEnd(a, |a| - 1);
        }
      }
      var rest := a[i + 1..];
      assert AtLineStart(rest) by {
        if rest != [] {
          assert rest[|rest| - 1] == a[|a| - 1];
        }
      }
      var line := DropCR(a[..i]);
      assert LinesOf(a) == [line] + LinesOf(rest) by {
        LinesOfFirst(a);
      }
      assert LinesOf(a + b) == [line] + LinesOf(rest + b) by {
        LinesOfAppendFirst(a, b);
      }
      LinesOfAppend(rest, b);
    } else {
      assert a + b == b;
    }
  }

  /** The first line of `a + b` is the first line of `a`, when `a` holds a newline. */
  lemma LinesOfAppendFirst(a: string, b: string)
    requires LineEnd(a) < |a|
    ensures LinesOf(a + b) == [DropCR(a[..LineEnd(a)])] + LinesOf(a[LineEnd(a) + 1..] + b)
  {
    var i := LineEnd(a);
    LineEndAppend(a, b);
    SliceAppend(a, b, i);
    LinesOfCut(a + b, a[..i], a[i + 1..] + b);
  }

  lemma SliceAppend(a: string, b: string, i: nat)
    requires i < |a|
    ensures (a + b)[..i] == a[..i] && (a + b)[i + 1..] == a[i + 1..] + b
  {
  }

  /** The first line of `a` ends where it ends in `a + b`, when `a` holds a '\n'. */
  lemma LineEndAppend(a: string, b: string)
    requires LineEnd(a) < |a|
    ensures LineEnd(a + b) == LineEnd(a)
  {
    var i := LineEnd(a);
    forall j | 0 <= j < i
      ensures (a + b)[j] != '\n'
    {
      BeforeLineEnd(a, j);
    }
    LineEndAt(a + b, i);
  }

  /** A one-line URL followed by '\n' scans as exactly that URL. */
  lemma LinesOfLine(u: string)
    requires OneLine(u)
    ensures LinesOf(u + "\n") == [u]
  {
    var s := u + "\n";
    assert s[..|u|] == u;
    assert forall j :: 0 <= j < |u| ==> s[j] == u[j] && s[j] != '\n';
    assert s[|u|] == '\n';
    LineEndAt(s, |u|);
    assert s[|u| + 1..] == [];
  }

  /** What the builder writes scans back as the URLs, when each is one line. */
  lemma {:induction false} LinesOfJoin(urls: seq<string>)
    requires forall j :: 0 <= j < |urls| ==> OneLine(urls[j])
    ensures LinesOf(Join(urls)) == urls
    decreases |urls|
  {
    if urls != [] {
      var n := |urls| - 1;
      var init, last := urls[..n], urls[n];
      LinesOfJoin(init);
      var text, line := Join(init), last + "\n";
      assert Join(urls) == text + line;
      LinesOfAppend(text, line);
      LinesOfLine(last);
      SplitLast(urls);
    }
  }
}
