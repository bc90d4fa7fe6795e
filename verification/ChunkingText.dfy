/** What the paragraphs of a text are, for every text: what stripping does, what is kept, and
    how a text comes apart at its blank lines. */
module ChunkingText {
  import opened Common
  import opened Chunking

  // ---------- White space ----------

  /** The white space characters, by code point. */
  lemma SpacesAre(c: char)
    ensures IsSpace(c) <==>
      (c as int) in {9, 10, 11, 12, 13, 28, 29, 30, 31, 32, 133, 160, 5760, 8192, 8193, 8194, 8195, 8196, 8197, 8198,
                     8199, 8200, 8201, 8202, 8232, 8233, 8239, 8287, 12288}
  {
  }

  predicate AllSpace(t: string)
  {
    forall i :: 0 <= i < |t| ==> IsSpace(t[i])
  }

  /** White space at neither end. */
  predicate Bare(t: string)
  {
    t == "" || (!IsSpace(t[0]) && !IsSpace(t[|t| - 1]))
  }

  lemma {:induction false} StripLeftIs(u: string, t: string)
    requires AllSpace(u) && (t == "" || !IsSpace(t[0]))
    ensures StripLeft(u + t) == t
  {
    if u == "" {
      assert u + t == t;
    } else {
      assert (u + t)[1..] == u[1..] + t;
      StripLeftIs(u[1..], t);
    }
  }

  lemma {:induction false} StripRightIs(t: string, v: string)
    requires AllSpace(v) && (t == "" || !IsSpace(t[|t| - 1]))
    ensures StripRight(t + v) == t
  {
    if v == "" {
      assert t + v == t;
    } else {
      var n := |v| - 1;
      assert (t + v)[..|t + v| - 1] == t + v[..n];
      StripRightIs(t, v[..n]);
    }
  }

  /** Stripping takes the white space off both ends, and nothing else. */
  lemma {:induction false} StripIs(u: string, s: string, v: string)
    requires AllSpace(u) && AllSpace(v) && Bare(s)
    ensures Strip(u + s + v) == s
  {
    if s == "" {
      assert AllSpace(u + v);
      assert u + s + v == (u + v) + "";
      StripLeftIs(u + v, "");
    } else {
      assert u + s + v == u + (s + v);
      StripLeftIs(u, s + v);
      StripRightIs(s, v);
    }
  }

  lemma {:induction false} StripLeftParts(t: string) returns (u: string)
    ensures AllSpace(u) && t == u + StripLeft(t) && (StripLeft(t) == "" || !IsSpace(StripLeft(t)[0]))
  {
    if t != "" && IsSpace(t[0]) {
      var w := StripLeftParts(t[1..]);
      u := [t[0]] + w;
      assert t == [t[0]] + t[1..] == [t[0]] + (w + StripLeft(t[1..])) == u + StripLeft(t[1..]);
    } else {
      u := "";
    }
  }

  lemma {:induction false} StripRightParts(t: string) returns (v: string)
    ensures AllSpace(v) && t == StripRight(t) + v
    ensures StripRight(t) == "" || !IsSpace(StripRight(t)[|StripRight(t)| - 1])
  {
    if t != "" && IsSpace(t[|t| - 1]) {
      var n := |t| - 1;
      var w := StripRightParts(t[..n]);
      v := w + [t[n]];
      assert t == t[..n] + [t[n]] == StripRight(t[..n]) + w + [t[n]] == StripRight(t[..n]) + v;
    } else {
      v := "";
    }
  }

  /** Every text is its stripped middle between white space. */
  lemma {:induction false} StripParts(t: string) returns (u: string, v: string)
    ensures AllSpace(u) && AllSpace(v) && Bare(Strip(t)) && t == u + Strip(t) + v
  {
    u := StripLeftParts(t);
    v := StripRightParts(StripLeft(t));
    assert u + (Strip(t) + v) == u + Strip(t) + v;
    if Strip(t) != "" { assert Strip(t)[0] == StripLeft(t)[0]; }
  }

  // ---------- Nothing visible is lost ----------

  /** The characters of a text that are not white space, in order. */
  function Visible(t: string): string
  {
    if t == "" then "" else Visible(t[..|t| - 1]) + if IsSpace(t[|t| - 1]) then "" else [t[|t| - 1]]
  }

  lemma {:induction false} VisibleAppend(a: string, b: string)
    ensures Visible(a + b) == Visible(a) + Visible(b)
  {
    if b == "" {
      assert a + b == a;
    } else {
      var n := |b| - 1;
      VisibleAppend(a, b[..n]);
      assert (a + b)[..|a + b| - 1] == a + b[..n];
    }
  }

  lemma {:induction false} SpaceIsInvisible(t: string)
    ensures Visible(t) == "" <==> AllSpace(t)
  {
    if t != "" {
      SpaceIsInvisible(t[..|t| - 1]);
      assert AllSpace(t) <==> AllSpace(t[..|t| - 1]) && IsSpace(t[|t| - 1]);
    }
  }

  lemma {:induction false} StripKeepsVisible(t: string)
    ensures Visible(Strip(t)) == Visible(t)
  {
    var u, v := StripParts(t);
    VisibleAppend(u + Strip(t), v);
    VisibleAppend(u, Strip(t));
    SpaceIsInvisible(u);
    SpaceIsInvisible(v);
  }

  lemma {:induction false} NonBlankKeepsVisible(parts: seq<string>)
    ensures Visible(Concat(NonBlank(parts))) == Visible(Concat(parts))
  {
    if parts != [] {
      var head, rest := parts[0], parts[1..];
      assert parts == [head] + rest;
      ConcatCons(head, rest);
      VisibleAppend(head, Concat(rest));
      NonBlankKeepsVisible(rest);
      StripKeepsVisible(head);
      if Strip(head) != "" {
        ConcatCons(Strip(head), NonBlank(rest));
        VisibleAppend(Strip(head), Concat(NonBlank(rest)));
      } else {
        assert NonBlank(parts) == NonBlank(rest);
        assert Visible(head) == "";
      }
    }
  }

  lemma {:induction false} BlankLineIsInvisible(a: string, b: string)
    ensures Visible(a + "\n\n" + b) == Visible(a) + Visible(b)
  {
    VisibleAppend(a + "\n\n", b);
    VisibleAppend(a, "\n\n");
    SpaceIsInvisible("\n\n");
    assert Visible(a) + "" == Visible(a);
  }

  lemma {:induction false} PartsKeepVisible(t: string)
    ensures Visible(Concat(SplitJoins(t))) == Visible(t)
    decreases |t|
  {
    var i := FirstJoin(t);
    if i == |t| {
      ConcatOne([], t);
      assert [] + [t] == [t] && [] + t == t;
    } else {
      var head, rest := t[..i], t[i + 2..];
      PartsKeepVisible(rest);
      ConcatCons(head, SplitJoins(rest));
      VisibleAppend(head, Concat(SplitJoins(rest)));
      BlankLineIsInvisible(head, rest);
      CutAtJoin(t, i);
    }
  }

  lemma CutAtJoin(t: string, i: nat)
    requires i + 2 <= |t| && t[i] == '\n' && t[i + 1] == '\n'
    ensures t == t[..i] + "\n\n" + t[i + 2..]
  {
  }

  /** The characters of a text that are not white space are, in order, those of its paragraphs. */
  lemma {:induction false} ParagraphsKeepText(text: string)
    ensures Visible(Concat(Paragraphs(text))) == Visible(text)
  {
    NonBlankKeepsVisible(SplitJoins(text));
    PartsKeepVisible(text);
  }

  // ---------- How a text comes apart ----------

  lemma {:induction false} NonBlankAppend(a: seq<string>, b: seq<string>)
    ensures NonBlank(a + b) == NonBlank(a) + NonBlank(b)
  {
    if a == [] {
      assert a + b == b;
    } else {
      assert (a + b)[0] == a[0] && (a + b)[1..] == a[1..] + b;
      NonBlankAppend(a[1..], b);
    }
  }

  lemma {:induction false} OnePart(t: string)
    requires NoJoin(t)
    ensures SplitJoins(t) == [t]
  {
    if FirstJoin(t) < |t| { assert JoinAt(t, FirstJoin(t)); }
  }

  lemma {:induction false} StrippedIsParagraph(t: string)
    requires NoJoin(t)
    ensures Paragraphs(t) == if Strip(t) == "" then [] else [Strip(t)]
  {
    OnePart(t);
    assert NonBlank([t][1..]) == [];
  }

  lemma {:induction false} StripsToNothing(t: string)
    ensures Strip(t) == "" <==> AllSpace(t)
  {
    SpaceIsInvisible(t);
    StripKeepsVisible(t);
    SpaceIsInvisible(Strip(t));
    var u, v := StripParts(t);
    assert Strip(t) != "" ==> !AllSpace(Strip(t));
  }

  /** A text without a blank line is one paragraph, stripped, or none if there is nothing in it. */
  lemma {:induction false} OneParagraph(t: string)
    requires NoJoin(t)
    ensures Paragraphs(t) == if AllSpace(t) then [] else [Strip(t)]
  {
    StrippedIsParagraph(t);
    StripsToNothing(t);
  }

  /** Whatever white space is around it. */
  lemma {:induction false} PaddedParagraph(u: string, p: string, v: string)
    requires AllSpace(u) && AllSpace(v) && NoJoin(u) && NoJoin(v) && Clean(p)
    ensures Paragraphs(u + p + v) == [p]
  {
    var t := u + p + v;
    forall j | 0 <= j < |t| - 1 ensures !JoinAt(t, j) {
      if j < |u| - 1 {
        assert !JoinAt(u, j) && t[j] == u[j] && t[j + 1] == u[j + 1];
      } else if j < |u| {
        assert t[j + 1] == p[0];
      } else if j < |u| + |p| - 1 {
        assert !JoinAt(p, j - |u|) && t[j] == p[j - |u|] && t[j + 1] == p[j + 1 - |u|];
      } else if j == |u| + |p| - 1 {
        assert t[j] == p[|p| - 1];
      } else {
        assert !JoinAt(v, j - |u| - |p|) && t[j] == v[j - |u| - |p|] && t[j + 1] == v[j + 1 - |u| - |p|];
      }
    }
    OneParagraph(t);
    StripIs(u, p, v);
    assert t[|u|] == p[0] && !IsSpace(t[|u|]);
  }

  lemma {:induction false} StripSkips(c: char, t: string)
    requires IsSpace(c)
    ensures Strip([c] + t) == Strip(t) == Strip(t + [c])
  {
    var u, v := StripParts(t);
    StripIs([c] + u, Strip(t), v);
    StripIs(u, Strip(t), v + [c]);
    assert [c] + t == [c] + u + Strip(t) + v;
    assert t + [c] == u + Strip(t) + (v + [c]);
  }

  lemma {:induction false} SplitAt(t: string, i: nat)
    requires i + 2 <= |t| && JoinAt(t, i) && forall j :: 0 <= j < i ==> !JoinAt(t, j)
    ensures Paragraphs(t) == NonBlank([t[..i]]) + Paragraphs(t[i + 2..])
  {
    FirstJoinIs(t, i);
    NonBlankAppend([t[..i]], SplitJoins(t[i + 2..]));
  }

  lemma {:induction false} BreakBeforePart(t: string)
    requires NoJoin(t) && (t != "" ==> t[0] != '\n')
    ensures Paragraphs("\n" + t) == Paragraphs(t)
  {
    var s := "\n" + t;
    forall j | 0 <= j < |s| - 1 ensures !JoinAt(s, j) {
      if j > 0 { assert s[j] == t[j - 1] && s[j + 1] == t[j] && !JoinAt(t, j - 1); }
    }
    StrippedIsParagraph(s);
    StrippedIsParagraph(t);
    StripSkips('\n', t);
  }

  lemma {:induction false} BreakBeforeParts(t: string, i: nat)
    requires i == FirstJoin(t) < |t| && t[0] != '\n'
    ensures Paragraphs("\n" + t) == Paragraphs(t)
  {
    var s := "\n" + t;
    forall j | 0 <= j < i + 1 ensures !JoinAt(s, j) {
      if j > 0 { assert s[j] == t[j - 1] && s[j + 1] == t[j]; }
    }
    assert JoinAt(t, i) && JoinAt(s, i + 1);
    SplitAt(s, i + 1);
    assert forall j :: 0 <= j < i ==> !JoinAt(t, j);
    SplitAt(t, i);
    assert s[..i + 1] == "\n" + t[..i] && s[i + 3..] == t[i + 2..];
    StripSkips('\n', t[..i]);
    assert NonBlank([s[..i + 1]][1..]) == [] == NonBlank([t[..i]][1..]);
  }

  /** A line break before a text makes no difference to its paragraphs. */
  lemma {:induction false} LeadingBreak(t: string)
    ensures Paragraphs("\n" + t) == Paragraphs(t)
  {
    if t != "" && t[0] == '\n' {
      LeadingBlank(t[1..]);
      LeadingBreak(t[1..]);
      assert "\n" + t[1..] == t && "\n\n" + t[1..] == "\n" + t;
    } else if FirstJoin(t) == |t| {
      BreakBeforePart(t);
    } else {
      BreakBeforeParts(t, FirstJoin(t));
    }
  }

  lemma {:induction false} LeadingBlank(t: string)
    ensures Paragraphs("\n\n" + t) == Paragraphs(t)
  {
    var s := "\n\n" + t;
    assert JoinAt(s, 0);
    SplitAt(s, 0);
    assert s[..0] == "" && s[2..] == t;
    assert NonBlank([""]) == [];
  }

  lemma {:induction false} OnePartOf(t: string)
    requires FirstJoin(t) == |t|
    ensures SplitJoins(t) == [t]
  {
  }

  /** A blank line separates: a text, a blank line and another text have the paragraphs of the
      one and then those of the other, wherever else there are line breaks. */
  lemma {:induction false} ParagraphsOfBoth(t: string, rest: string)
    ensures Paragraphs(t + "\n\n" + rest) == Paragraphs(t) + Paragraphs(rest)
    decreases |t|
  {
    var s, n := t + "\n\n" + rest, |t|;
    var i := FirstJoin(t);
    if i < n {
      EarlierBlank(t, rest, i);
      ParagraphsOfBoth(t[i + 2..], rest);
    } else if n > 0 && t[n - 1] == '\n' {
      BreakBeforeBlank(t, rest);
    } else {
      forall j | 0 <= j < n ensures !JoinAt(s, j) {
        assert s[j] == t[j] && (j + 1 < n ==> s[j + 1] == t[j + 1]);
      }
      assert JoinAt(s, n);
      SplitAt(s, n);
      OnePartOf(t);
      assert s[..n] == t && s[n + 2..] == rest;
    }
  }

  /** A blank line within the first text. */
  lemma {:induction false} EarlierBlank(t: string, rest: string, i: nat)
    requires i == FirstJoin(t) < |t|
    ensures Paragraphs(t) == NonBlank([t[..i]]) + Paragraphs(t[i + 2..])
    ensures Paragraphs(t + "\n\n" + rest) == NonBlank([t[..i]]) + Paragraphs(t[i + 2..] + "\n\n" + rest)
  {
    FirstJoinFirst(t, i);
    FirstJoinStays(t, "\n\n" + rest, i);
    SplitAt(t, i);
    SplitAt(t + ("\n\n" + rest), i);
    assert t + "\n\n" + rest == t + ("\n\n" + rest);
    assert (t + ("\n\n" + rest))[i + 2..] == t[i + 2..] + "\n\n" + rest;
  }

  lemma FirstJoinFirst(t: string, i: nat)
    requires i == FirstJoin(t) < |t|
    ensures i + 2 <= |t| && JoinAt(t, i) && forall j :: 0 <= j < i ==> !JoinAt(t, j)
  {
  }

  lemma FirstJoinStays(t: string, more: string, i: nat)
    requires i + 2 <= |t| && JoinAt(t, i) && forall j :: 0 <= j < i ==> !JoinAt(t, j)
    ensures JoinAt(t + more, i) && (t + more)[..i] == t[..i] && forall j :: 0 <= j < i ==> !JoinAt(t + more, j)
  {
    forall j | 0 <= j < i ensures !JoinAt(t + more, j) {
      assert !JoinAt(t, j);
    }
  }

  /** A text that ends in a line break, before a blank line: the blank line starts earlier. */
  lemma {:induction false} BreakBeforeBlank(t: string, rest: string)
    requires FirstJoin(t) == |t| && t != "" && t[|t| - 1] == '\n'
    ensures Paragraphs(t + "\n\n" + rest) == Paragraphs(t) + Paragraphs(rest)
  {
    var s, m := t + "\n\n" + rest, |t| - 1;
    var front := t[..m];
    forall j | 0 <= j < m ensures !JoinAt(s, j) {
      assert s[j] == t[j] && s[j + 1] == t[j + 1];
    }
    assert JoinAt(s, m);
    SplitAt(s, m);
    assert s[..m] == front && s[m + 2..] == "\n" + rest;
    LeadingBreak(rest);
    OnePartOf(t);
    assert t == front + "\n";
    StripSkips('\n', front);
    assert NonBlank([front][1..]) == [] == NonBlank([t][1..]);
  }

  /** Nor does a line break after a text: a file may end in one. */
  lemma {:induction false} TrailingBreak(t: string)
    ensures Paragraphs(t + "\n") == Paragraphs(t)
    decreases |t|
  {
    var i := FirstJoin(t);
    if i < |t| {
      var head, rest := t[..i], t[i + 2..];
      CutAtJoin(t, i);
      assert t + "\n" == head + "\n\n" + (rest + "\n");
      ParagraphsOfBoth(head, rest);
      ParagraphsOfBoth(head, rest + "\n");
      TrailingBreak(rest);
    } else if t != "" && t[|t| - 1] == '\n' {
      TwoBreaks(t);
    } else {
      BreakAfterPart(t);
    }
  }

  lemma {:induction false} NoText()
    ensures Paragraphs("") == []
  {
    OneParagraph("");
  }

  lemma {:induction false} TwoBreaks(t: string)
    requires FirstJoin(t) == |t| && t != "" && t[|t| - 1] == '\n'
    ensures Paragraphs(t + "\n") == Paragraphs(t)
  {
    var front := t[..|t| - 1];
    BlankAtEnd(front);
    assert t + "\n" == front + "\n\n" + "";
    NoJoinWhole(t);
    OneBreak(t, front);
  }

  lemma {:induction false} BlankAtEnd(front: string)
    ensures Paragraphs(front + "\n\n" + "") == Paragraphs(front)
  {
    ParagraphsOfBoth(front, "");
    NoText();
  }

  lemma {:induction false} OneBreak(t: string, front: string)
    requires NoJoin(t) && t == front + "\n"
    ensures Paragraphs(t) == Paragraphs(front)
  {
    NoJoinFront(t);
    assert t[..|t| - 1] == front;
    StrippedIsParagraph(t);
    StrippedIsParagraph(front);
    StripSkips('\n', front);
  }

  lemma NoJoinFront(t: string)
    requires NoJoin(t) && t != ""
    ensures NoJoin(t[..|t| - 1])
  {
    var front := t[..|t| - 1];
    forall j | 0 <= j < |front| - 1 ensures !JoinAt(front, j) {
      assert !JoinAt(t, j);
    }
  }

  lemma NoJoinWhole(t: string)
    requires FirstJoin(t) == |t|
    ensures NoJoin(t)
  {
    forall j | 0 <= j < |t| - 1 ensures !JoinAt(t, j) {}
  }

  lemma {:induction false} BreakAfterPart(t: string)
    requires FirstJoin(t) == |t| && (t != "" ==> t[|t| - 1] != '\n')
    ensures Paragraphs(t + "\n") == Paragraphs(t)
  {
    var s := t + "\n";
    NoJoinWhole(t);
    forall j | 0 <= j < |s| - 1 ensures !JoinAt(s, j) {
      assert s[j] == t[j] && (j + 1 < |t| ==> s[j + 1] == t[j + 1] && !JoinAt(t, j));
    }
    StrippedIsParagraph(s);
    StrippedIsParagraph(t);
    StripSkips('\n', t);
  }

  // ---------- Windows by position ----------

  /** A negative end leaves that many characters off the end of the text. */
  lemma SliceFromEnd(t: string, i: nat, j: int)
    requires j < 0
    ensures Slice(t, i, j) == if i <= |t| + j then t[..|t| + j][i..] else ""
  {
    if i <= |t| + j { assert t[i..|t| + j] == t[..|t| + j][i..]; }
  }

  lemma {:induction false} WindowStartIs(size: int, overlap: int, n: nat)
    ensures WindowStart(size, overlap, n) == n * (size - overlap)
  {
    if n > 0 { WindowStartIs(size, overlap, n - 1); }
  }

  lemma {:induction false} StartsShift(size: int, overlap: int, k: nat)
    ensures WindowStart(size, overlap, k + 1) == size - overlap + WindowStart(size, overlap, k)
  {
    if k > 0 { StartsShift(size, overlap, k - 1); }
  }

  /** The windows stand at every multiple of the step that lies within the paragraph, and each
      is the next `size` characters, or what is left. */
  lemma {:induction false} WindowsStand(para: string, size: int, overlap: int, i: nat, k: nat)
    requires 0 < size && overlap < size
    ensures var windows: seq<string>, start: int := Windows(para, size, overlap, i), i + WindowStart(size, overlap, k);
      && (k < |windows| <==> start < |para|)
      && (k < |windows| ==>
            start >= 0 && windows[k] == if start + size <= |para| then para[start..start + size] else para[start..])
    decreases k
  {
    WindowStartBounds(size, overlap, k);
    if i < |para| {
      if k > 0 {
        WindowsStand(para, size, overlap, i + size - overlap, k - 1);
        StartsShift(size, overlap, k - 1);
      } else {
        assert para[i..|para|] == para[i..];
      }
    }
  }
}
