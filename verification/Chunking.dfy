/** Splitting a document into chunks for indexing: paragraphs are packed while they fit, and a
    paragraph that is too long is cut into overlapping windows. */
module Chunking {
  import opened Common

  const JOIN := "\n\n"

  // ---------- Windows ----------

  /** The slice `t[i:j]` as the source's language takes it: a negative end counts from the end
      of the text, and an end before the start gives nothing. */
  function Slice(t: string, i: nat, j: int): string
  {
    var end := if j < 0 then j + |t| else Min(j, |t|);
    if i < end then t[i..end] else ""
  }

  /** The windows of a paragraph from position `i` on. */
  function Windows(para: string, size: int, overlap: int, i: nat): seq<string>
    requires overlap < size
    decreases |para| - i
  {
    if i >= |para| then [] else [Slice(para, i, i + size)] + Windows(para, size, overlap, i + size - overlap)
  }

  function Drop(w: string, n: nat): string
  {
    if n <= |w| then w[n..] else ""
  }

  /** What the windows after the first add, without the overlap with the one before. */
  function Rest(windows: seq<string>, overlap: nat): string
  {
    if windows == [] then "" else Drop(windows[0], overlap) + Rest(windows[1..], overlap)
  }

  function Reassemble(windows: seq<string>, overlap: nat): string
  {
    if windows == [] then "" else windows[0] + Rest(windows[1..], overlap)
  }

  lemma {:induction false} RestOfWindows(para: string, size: int, overlap: nat, i: nat)
    requires overlap < size && i <= |para|
    ensures Rest(Windows(para, size, overlap, i), overlap) == para[Min(i + overlap, |para|)..]
    decreases |para| - i
  {
    if i < |para| {
      var next := i + size - overlap;
      var w := Slice(para, i, i + size);
      var tail := Windows(para, size, overlap, next);
      assert Windows(para, size, overlap, i)[1..] == tail;
      if next <= |para| {
        RestOfWindows(para, size, overlap, next);
        assert Drop(w, overlap) == para[Min(i + overlap, |para|)..Min(i + size, |para|)];
      } else {
        assert tail == [];
      }
    }
  }

  /** Dropping the overlaps puts the paragraph back together. */
  lemma WindowsReassemble(para: string, size: int, overlap: nat)
    requires overlap < size
    ensures Reassemble(Windows(para, size, overlap, 0), overlap) == para
  {
    if para != "" {
      var next := size - overlap;
      var tail := Windows(para, size, overlap, next);
      assert Windows(para, size, overlap, 0)[1..] == tail;
      if next <= |para| {
        RestOfWindows(para, size, overlap, next);
      } else {
        assert tail == [];
      }
    }
  }

  lemma {:induction false} WindowsFit(para: string, size: int, overlap: int, i: nat)
    requires 0 < size && overlap < size
    ensures forall k :: 0 <= k < |Windows(para, size, overlap, i)| ==> 0 < |Windows(para, size, overlap, i)[k]| <= size
    decreases |para| - i
  {
    if i < |para| { WindowsFit(para, size, overlap, i + size - overlap); }
  }

  // ---------- When the window loop ends ----------

  /** Where the window loop stands after `n` passes. */
  function WindowStart(size: int, overlap: int, n: nat): int
  {
    if n == 0 then 0 else WindowStart(size, overlap, n - 1) + size - overlap
  }

  /** Some number of passes takes the loop past a paragraph of length `len`. */
  ghost predicate LoopEnds(len: int, size: int, overlap: int)
  {
    exists n: nat :: WindowStart(size, overlap, n) >= len
  }

  lemma {:induction false} WindowStartBounds(size: int, overlap: int, n: nat)
    ensures overlap < size ==> WindowStart(size, overlap, n) >= n
    ensures overlap >= size ==> WindowStart(size, overlap, n) <= 0
  {
    if n > 0 { WindowStartBounds(size, overlap, n - 1); }
  }

  /** On a non-empty paragraph longer than the size, the loop ends exactly when its step is positive. */
  lemma WindowLoopEndsIff(len: int, size: int, overlap: int)
    requires 0 < len && size < len
    ensures LoopEnds(len, size, overlap) <==> overlap < size
  {
    if overlap < size {
      WindowStartBounds(size, overlap, len);
    }
    if n: nat :| WindowStart(size, overlap, n) >= len {
      WindowStartBounds(size, overlap, n);
    }
  }

  /** Every window loop that is entered ends. */
  ghost predicate Ends(paras: seq<string>, size: int, overlap: int)
  {
    forall i :: 0 <= i < |paras| && |paras[i]| > size ==> LoopEnds(|paras[i]|, size, overlap)
  }

  /** The window step is positive, or no paragraph needs windows. */
  predicate Steps(paras: seq<string>, size: int, overlap: int)
  {
    overlap < size || forall i :: 0 <= i < |paras| ==> |paras[i]| <= size
  }

  /** The whole function ends exactly when the window step is positive or no paragraph is
      longer than the size. */
  lemma ChunkingEndsIff(paras: seq<string>, size: int, overlap: int)
    requires forall i :: 0 <= i < |paras| ==> paras[i] != ""
    ensures Ends(paras, size, overlap) <==> Steps(paras, size, overlap)
  {
    forall i | 0 <= i < |paras| && |paras[i]| > size ensures LoopEnds(|paras[i]|, size, overlap) <==> overlap < size {
      WindowLoopEndsIff(|paras[i]|, size, overlap);
    }
  }

  // ---------- Packing ----------

  /** Paragraphs joined by blank lines. */
  function Joined(paras: seq<string>): string
  {
    if paras == [] then ""
    else if |paras| == 1 then paras[0]
    else Joined(paras[..|paras| - 1]) + JOIN + paras[|paras| - 1]
  }

  /** Where a chunk comes from: packed paragraphs, or the windows of a long one. */
  datatype Group = Packed(paras: seq<string>) | Windowed(para: string)

  /** A packed group is within the size; a windowed paragraph is beyond it. */
  predicate GroupOk(g: Group, size: int, overlap: int)
  {
    match g
    case Packed(paras) => paras != [] && |Joined(paras)| <= size
    case Windowed(para) => |para| > size && overlap < size
  }

  predicate AllOk(groups: seq<Group>, size: int, overlap: int)
  {
    forall i :: 0 <= i < |groups| ==> GroupOk(groups[i], size, overlap)
  }

  function Render(g: Group, size: int, overlap: int): seq<string>
    requires GroupOk(g, size, overlap)
  {
    match g
    case Packed(paras) => [Joined(paras)]
    case Windowed(para) => Windows(para, size, overlap, 0)
  }

  function RenderAll(groups: seq<Group>, size: int, overlap: int): seq<string>
    requires AllOk(groups, size, overlap)
  {
    if groups == [] then []
    else RenderAll(groups[..|groups| - 1], size, overlap) + Render(groups[|groups| - 1], size, overlap)
  }

  function SourcesOf(g: Group): seq<string>
  {
    match g
    case Packed(paras) => paras
    case Windowed(para) => [para]
  }

  function Sources(groups: seq<Group>): seq<string>
  {
    if groups == [] then []
    else Sources(groups[..|groups| - 1]) + SourcesOf(groups[|groups| - 1])
  }

  /** What a chunk list is made of: groups that render to it and account for the paragraphs. */
  ghost predicate Explains(groups: seq<Group>, chunks: seq<string>, paras: seq<string>, size: int, overlap: int)
  {
    && AllOk(groups, size, overlap)
    && RenderAll(groups, size, overlap) == chunks
    && Sources(groups) == paras
  }

  function FirstOf(g: Group): string
  {
    if SourcesOf(g) == [] then "" else SourcesOf(g)[0]
  }

  /** A group that starts with `para` may follow: `para` did not fit into a packed `g`. */
  predicate MayFollow(g: Group, para: string, size: int)
  {
    g.Packed? ==> |Joined(g.paras)| + |para| + 2 > size
  }

  /** No packed group is closed early. */
  ghost predicate Tight(groups: seq<Group>, size: int)
  {
    forall i :: 0 < i < |groups| ==> MayFollow(groups[i - 1], FirstOf(groups[i]), size)
  }

  /** The chunks of a list of paragraphs: groups account for them, and none is closed early. */
  ghost predicate ChunksOf(chunks: seq<string>, paras: seq<string>, size: int, overlap: int)
  {
    exists groups :: Explains(groups, chunks, paras, size, overlap) && Tight(groups, size)
  }

  lemma Explain(groups: seq<Group>, g: Group, chunks: seq<string>, paras: seq<string>, size: int, overlap: int)
    requires Explains(groups, chunks, paras, size, overlap) && GroupOk(g, size, overlap)
    ensures Explains(groups + [g], chunks + Render(g, size, overlap), paras + SourcesOf(g), size, overlap)
  {
    assert (groups + [g])[..|groups|] == groups;
  }

  /** The loop's state: the groups yielded and the paragraphs being packed are those read, and
      a group that starts with the packed ones may follow. */
  ghost predicate Pending(groups: seq<Group>, packed: seq<string>, chunks: seq<string>, buf: string,
                          paras: seq<string>, size: int, overlap: int)
  {
    && buf == Joined(packed) && (buf != "" ==> |buf| <= size) && (buf == "" <==> packed == [])
    && Sources(groups) + packed == paras
    && Explains(groups, chunks, Sources(groups), size, overlap) && Tight(groups, size)
    && (groups != [] && packed != [] ==> MayFollow(groups[|groups| - 1], packed[0], size))
    && (groups != [] && packed == [] ==> groups[|groups| - 1].Windowed?)
  }

  /** Nothing is being packed, and a group that starts with `para` may follow. */
  ghost predicate Settled(groups: seq<Group>, chunks: seq<string>, paras: seq<string>, para: string, size: int, overlap: int)
  {
    && Explains(groups, chunks, paras, size, overlap) && Tight(groups, size)
    && (groups != [] ==> MayFollow(groups[|groups| - 1], para, size))
  }

  lemma NothingRead(size: int, overlap: int)
    ensures Pending([], [], [], "", [], size, overlap)
  {
  }

  lemma PackMore(groups: seq<Group>, packed: seq<string>, chunks: seq<string>, buf: string,
                 paras: seq<string>, para: string, size: int, overlap: int)
    requires Pending(groups, packed, chunks, buf, paras, size, overlap)
    requires para != "" && |buf| + |para| + 2 <= size
    ensures Pending(groups, packed + [para], chunks, if buf != "" then buf + JOIN + para else para, paras + [para], size, overlap)
  {
    assert (packed + [para])[..|packed|] == packed;
    assert Sources(groups) + (packed + [para]) == Sources(groups) + packed + [para];
  }

  lemma Yield(groups: seq<Group>, packed: seq<string>, chunks: seq<string>, buf: string, paras: seq<string>,
              para: string, size: int, overlap: int)
    requires Pending(groups, packed, chunks, buf, paras, size, overlap)
    requires buf != "" && |buf| + |para| + 2 > size
    ensures Settled(groups + [Packed(packed)], chunks + [buf], paras, para, size, overlap)
  {
    Explain(groups, Packed(packed), chunks, Sources(groups), size, overlap);
  }

  lemma NothingPacked(groups: seq<Group>, chunks: seq<string>, paras: seq<string>, para: string, size: int, overlap: int)
    requires Pending(groups, [], chunks, "", paras, size, overlap)
    ensures Settled(groups, chunks, paras, para, size, overlap)
  {
    assert Sources(groups) + [] == Sources(groups);
  }

  lemma CutUp(groups: seq<Group>, chunks: seq<string>, paras: seq<string>, para: string, size: int, overlap: int)
    requires overlap < size && Settled(groups, chunks, paras, para, size, overlap) && |para| > size
    ensures Pending(groups + [Windowed(para)], [], chunks + Windows(para, size, overlap, 0), "", paras + [para], size, overlap)
  {
    Explain(groups, Windowed(para), chunks, paras, size, overlap);
  }

  lemma StartPacking(groups: seq<Group>, chunks: seq<string>, paras: seq<string>, para: string, size: int, overlap: int)
    requires Settled(groups, chunks, paras, para, size, overlap) && 0 < |para| <= size
    ensures Pending(groups, [para], chunks, para, paras + [para], size, overlap)
  {
  }

  /** The groups of a finished list. */
  lemma Finish(groups: seq<Group>, packed: seq<string>, chunks: seq<string>, buf: string, paras: seq<string>, size: int, overlap: int)
    returns (all: seq<Group>)
    requires Pending(groups, packed, chunks, buf, paras, size, overlap)
    ensures Explains(all, if buf != "" then chunks + [buf] else chunks, paras, size, overlap) && Tight(all, size)
  {
    if buf != "" {
      all := groups + [Packed(packed)];
      Explain(groups, Packed(packed), chunks, Sources(groups), size, overlap);
    } else {
      all := groups;
      NothingPacked(groups, chunks, paras, "", size, overlap);
    }
  }

  method HardChunk(para: string, size: int, overlap: int) returns (windows: seq<string>)
    requires overlap < size
    ensures windows == Windows(para, size, overlap, 0)
  {
    windows := [];
    var i := 0;
    while i < |para|
      invariant 0 <= i && windows + Windows(para, size, overlap, i) == Windows(para, size, overlap, 0)
      decreases |para| - i
    {
      windows := windows + [Slice(para, i, i + size)];
      i := i + size - overlap;
    }
  }

  /** The body of the loop: one more paragraph. */
  method ChunkParagraph(chunks0: seq<string>, buf0: string, para: string, size: int, overlap: int,
                        ghost groups0: seq<Group>, ghost packed0: seq<string>, ghost paras: seq<string>)
    returns (chunks: seq<string>, buf: string, ghost groups: seq<Group>, ghost packed: seq<string>)
    requires para != "" && (|para| > size ==> overlap < size)
    requires Pending(groups0, packed0, chunks0, buf0, paras, size, overlap)
    ensures Pending(groups, packed, chunks, buf, paras + [para], size, overlap)
  {
    chunks, buf, groups, packed := chunks0, buf0, groups0, packed0;
    if |buf| + |para| + 2 <= size {
      PackMore(groups, packed, chunks, buf, paras, para, size, overlap);
      buf, packed := if buf != "" then buf + JOIN + para else para, packed + [para];
      return;
    }
    if buf != "" {
      Yield(groups, packed, chunks, buf, paras, para, size, overlap);
      groups, chunks := groups + [Packed(packed)], chunks + [buf];
    } else {
      NothingPacked(groups, chunks, paras, para, size, overlap);
    }
    if |para| > size {
      CutUp(groups, chunks, paras, para, size, overlap);
      var windows := HardChunk(para, size, overlap);
      groups, chunks := groups + [Windowed(para)], chunks + windows;
      buf, packed := "", [];
    } else {
      StartPacking(groups, chunks, paras, para, size, overlap);
      buf, packed := para, [para];
    }
  }

  /** The chunks of a list of paragraphs, with the groups they come from. The loop over a long
      paragraph has to end. */
  method ChunkParagraphs(paras: seq<string>, size: int, overlap: int)
    returns (chunks: seq<string>, ghost groups: seq<Group>)
    requires Steps(paras, size, overlap)
    requires forall i :: 0 <= i < |paras| ==> paras[i] != ""
    ensures ChunksOf(chunks, paras, size, overlap)
    ensures Explains(groups, chunks, paras, size, overlap) && Tight(groups, size)
  {
    groups, chunks := [], [];
    var buf := "";
    ghost var packed: seq<string> := [];
    NothingRead(size, overlap);
    assert paras[..0] == [];
    for i := 0 to |paras|
      invariant Pending(groups, packed, chunks, buf, paras[..i], size, overlap)
    {
      assert paras[..i + 1] == paras[..i] + [paras[i]];
      chunks, buf, groups, packed := ChunkParagraph(chunks, buf, paras[i], size, overlap, groups, packed, paras[..i]);
    }
    assert paras[..|paras|] == paras;
    groups := Finish(groups, packed, chunks, buf, paras, size, overlap);
    if buf != "" {
      chunks := chunks + [buf];
    }
  }

  // ---------- Paragraphs ----------

  predicate IsSpace(c: char)
  {
    var u := c as int;
    0x09 <= u <= 0x0D || 0x1C <= u <= 0x20 || u == 0x85 || u == 0xA0 || u == 0x1680
    || 0x2000 <= u <= 0x200A || u == 0x2028 || u == 0x2029 || u == 0x202F || u == 0x205F || u == 0x3000
  }

  function StripLeft(t: string): string
  {
    if t != "" && IsSpace(t[0]) then StripLeft(t[1..]) else t
  }

  function StripRight(t: string): string
  {
    if t != "" && IsSpace(t[|t| - 1]) then StripRight(t[..|t| - 1]) else t
  }

  function Strip(t: string): string { StripRight(StripLeft(t)) }

  /** The position of the first blank-line join; the length if there is none. */
  function FirstJoin(t: string): (i: nat)
    ensures i <= |t|
    ensures i < |t| ==> i + 2 <= |t| && t[i] == '\n' && t[i + 1] == '\n'
    ensures forall j :: 0 <= j < i && j + 1 < |t| ==> !(t[j] == '\n' && t[j + 1] == '\n')
  {
    if |t| < 2 then |t|
    else if t[0] == '\n' && t[1] == '\n' then 0
    else 1 + FirstJoin(t[1..])
  }

  function SplitJoins(t: string): seq<string>
    decreases |t|
  {
    var i := FirstJoin(t);
    if i == |t| then [t] else [t[..i]] + SplitJoins(t[i + 2..])
  }

  function NonBlank(parts: seq<string>): seq<string>
  {
    if parts == [] then []
    else (if Strip(parts[0]) != "" then [Strip(parts[0])] else []) + NonBlank(parts[1..])
  }

  /** The stripped, non-blank pieces between blank-line joins. */
  function Paragraphs(text: string): seq<string>
  {
    NonBlank(SplitJoins(text))
  }

  /** Not empty, no white space at either end, no join inside. */
  ghost predicate Clean(para: string)
  {
    && para != "" && !IsSpace(para[0]) && !IsSpace(para[|para| - 1])
    && NoJoin(para)
  }

  ghost predicate NoJoin(t: string)
  {
    forall j :: 0 <= j < |t| - 1 ==> !JoinAt(t, j)
  }

  ghost predicate JoinAt(t: string, j: nat)
    requires j + 1 < |t|
  {
    t[j] == '\n' && t[j + 1] == '\n'
  }

  ghost predicate AllClean(paras: seq<string>)
  {
    forall i :: 0 <= i < |paras| ==> Clean(paras[i])
  }

  lemma {:induction false} StripLeftIsPart(t: string)
    ensures NoJoin(t) ==> NoJoin(StripLeft(t))
    ensures StripLeft(t) != "" ==> !IsSpace(StripLeft(t)[0])
  {
    if t != "" && IsSpace(t[0]) {
      assert forall j :: 0 <= j < |t| - 2 ==> JoinAt(t[1..], j) == JoinAt(t, j + 1);
      StripLeftIsPart(t[1..]);
    }
  }

  lemma {:induction false} StripRightIsPart(t: string)
    ensures NoJoin(t) ==> NoJoin(StripRight(t))
    ensures StripRight(t) != "" ==> !IsSpace(StripRight(t)[|StripRight(t)| - 1]) && StripRight(t)[0] == t[0]
  {
    if t != "" && IsSpace(t[|t| - 1]) {
      var front := t[..|t| - 1];
      if NoJoin(t) {
        forall j | 0 <= j < |front| - 1 ensures !JoinAt(front, j) {
          assert !JoinAt(t, j);
        }
      }
      StripRightIsPart(front);
    }
  }

  lemma {:induction false} PartsHaveNoJoin(t: string)
    ensures forall i :: 0 <= i < |SplitJoins(t)| ==> NoJoin(SplitJoins(t)[i])
    decreases |t|
  {
    var i := FirstJoin(t);
    assert NoJoin(t[..i]);
    assert t[..|t|] == t;
    if i < |t| { PartsHaveNoJoin(t[i + 2..]); }
  }

  lemma {:induction false} NonBlankIsClean(parts: seq<string>)
    requires forall i :: 0 <= i < |parts| ==> NoJoin(parts[i])
    ensures AllClean(NonBlank(parts))
  {
    if parts != [] {
      StripLeftIsPart(parts[0]);
      StripRightIsPart(StripLeft(parts[0]));
      NonBlankIsClean(parts[1..]);
    }
  }

  lemma ParagraphsAreClean(text: string)
    ensures AllClean(Paragraphs(text))
  {
    PartsHaveNoJoin(text);
    NonBlankIsClean(SplitJoins(text));
  }

  lemma FirstJoinIs(t: string, i: nat)
    requires i <= |t| && (i < |t| ==> i + 2 <= |t| && JoinAt(t, i))
    requires forall j :: 0 <= j < i && j + 1 < |t| ==> !JoinAt(t, j)
    ensures FirstJoin(t) == i
  {
    if FirstJoin(t) + 1 < |t| { assert FirstJoin(t) < i ==> !JoinAt(t, FirstJoin(t)); }
  }

  /** The first join after a clean paragraph is the one that was put there. */
  lemma JoinAfterClean(para: string, rest: string)
    requires Clean(para)
    ensures SplitJoins(para) == [para]
    ensures SplitJoins(para + JOIN + rest) == [para] + SplitJoins(rest)
  {
    var t, n := para + JOIN + rest, |para|;
    FirstJoinIs(para, n);
    forall j | 0 <= j < n ensures !JoinAt(t, j) {
      if j < n - 1 {
        assert !JoinAt(para, j);
      } else {
        assert t[j] == para[n - 1];
      }
    }
    assert JoinAt(t, n);
    FirstJoinIs(t, n);
    assert t[..n] == para && t[n + 2..] == rest;
  }

  lemma {:induction false} JoinedHead(paras: seq<string>)
    requires |paras| >= 2
    ensures Joined(paras) == paras[0] + JOIN + Joined(paras[1..])
  {
    var n := |paras| - 1;
    if n == 1 {
      assert paras[..1] == [paras[0]] && paras[1..] == [paras[1]];
    } else {
      JoinedHead(paras[..n]);
      assert paras[..n][1..] == paras[1..][..n - 1];
      assert paras[1..][n - 1] == paras[n];
      assert Joined(paras) == paras[0] + JOIN + Joined(paras[1..][..n - 1]) + JOIN + paras[n];
      assert Joined(paras[1..]) == Joined(paras[1..][..n - 1]) + JOIN + paras[n];
      assert paras[0] + JOIN + Joined(paras[1..][..n - 1]) + JOIN + paras[n]
          == paras[0] + JOIN + (Joined(paras[1..][..n - 1]) + JOIN + paras[n]);
    }
  }

  /** Splitting a packed chunk at its joins gives back the paragraphs it was packed from. */
  lemma {:induction false} SplitPacked(paras: seq<string>)
    requires paras != [] && AllClean(paras)
    ensures SplitJoins(Joined(paras)) == paras
  {
    var head, rest := paras[0], paras[1..];
    assert paras == [head] + rest;
    CleanParts([head], rest);
    assert Clean([head][0]);
    if rest == [] {
      JoinAfterClean(head, "");
      assert Joined(paras) == head;
    } else {
      JoinedHead(paras);
      JoinAfterClean(head, Joined(rest));
      SplitPacked(rest);
    }
  }

  // ---------- The chunks are determined ----------

  lemma {:induction false} SourcesHead(groups: seq<Group>)
    requires groups != []
    ensures Sources(groups) == SourcesOf(groups[0]) + Sources(groups[1..])
  {
    var n := |groups| - 1;
    if n == 0 {
      assert groups[..0] == [] && groups[1..] == [];
    } else {
      var head, middle, last := SourcesOf(groups[0]), Sources(groups[1..n]), SourcesOf(groups[n]);
      SourcesHead(groups[..n]);
      assert groups[..n][1..] == groups[1..n] == groups[1..][..n - 1];
      assert groups[1..][n - 1] == groups[n];
      SeqAssoc(head, middle, last);
    }
  }

  lemma SeqAssoc<T>(a: seq<T>, b: seq<T>, c: seq<T>)
    ensures (a + b) + c == a + (b + c)
  {
  }

  /** Joining more paragraphs never makes the text shorter. */
  lemma {:induction false} JoinedGrows(paras: seq<string>, k: nat)
    requires 0 < k < |paras|
    ensures |Joined(paras[..k])| + 2 + |paras[k]| <= |Joined(paras)|
    decreases |paras|
  {
    var n := |paras| - 1;
    assert paras[..n + 1] == paras;
    if k < n {
      JoinedGrows(paras[..n], k);
      assert paras[..n][..k] == paras[..k];
    }
  }

  lemma PrefixLonger(paras: seq<string>, p: seq<string>, q: seq<string>)
    requires p <= paras && q <= paras && 0 < |p| < |q|
    ensures |Joined(p)| + 2 + |paras[|p|]| <= |Joined(q)|
  {
    assert q[..|p|] == p && q[|p|] == paras[|p|];
    JoinedGrows(q, |p|);
  }

  /** The paragraph after a first packed group starts the second group. */
  lemma SecondStarts(groups: seq<Group>, size: int, overlap: int)
    requires AllOk(groups, size, overlap) && groups != [] && groups[0].Packed?
    requires |groups[0].paras| < |Sources(groups)|
    ensures |groups| > 1 && FirstOf(groups[1]) == Sources(groups)[|groups[0].paras|]
  {
    SourcesHead(groups);
    if |groups| > 1 {
      SourcesHead(groups[1..]);
      assert GroupOk(groups[1], size, overlap);
    }
  }

  /** A first packed group is not shorter than another one: it was not closed early. */
  lemma NotClosedEarly(a: seq<Group>, b: seq<Group>, size: int, overlap: int)
    requires AllOk(a, size, overlap) && AllOk(b, size, overlap) && Tight(a, size)
    requires a != [] && b != [] && a[0].Packed? && b[0].Packed? && Sources(a) == Sources(b)
    ensures |a[0].paras| >= |b[0].paras|
  {
    SourcesHead(a);
    SourcesHead(b);
    var p, q := a[0].paras, b[0].paras;
    assert GroupOk(a[0], size, overlap) && GroupOk(b[0], size, overlap);
    if |p| < |q| {
      SecondStarts(a, size, overlap);
      PrefixLonger(Sources(a), p, q);
    }
  }

  lemma SameFirst(a: seq<Group>, b: seq<Group>, size: int, overlap: int)
    requires AllOk(a, size, overlap) && AllOk(b, size, overlap) && Tight(a, size) && Tight(b, size)
    requires a != [] && b != [] && Sources(a) == Sources(b)
    ensures a[0] == b[0]
  {
    SourcesHead(a);
    SourcesHead(b);
    assert GroupOk(a[0], size, overlap) && GroupOk(b[0], size, overlap);
    assert FirstOf(a[0]) == Sources(a)[0] == FirstOf(b[0]);
    if a[0].Packed? { PackedParasFit(a[0], size, overlap); }
    if b[0].Packed? { PackedParasFit(b[0], size, overlap); }
    if a[0].Packed? && b[0].Packed? {
      NotClosedEarly(a, b, size, overlap);
      NotClosedEarly(b, a, size, overlap);
      assert a[0].paras == Sources(a)[..|a[0].paras|] == b[0].paras;
    }
  }

  /** The paragraphs of a packed group fit. */
  lemma PackedParasFit(g: Group, size: int, overlap: int)
    requires GroupOk(g, size, overlap) && g.Packed?
    ensures |g.paras[0]| <= size
  {
    if |g.paras| > 1 { JoinedHead(g.paras); }
  }

  /** There is only one way to group a list of paragraphs. */
  lemma {:induction false} GroupsAreUnique(a: seq<Group>, b: seq<Group>, size: int, overlap: int)
    requires AllOk(a, size, overlap) && AllOk(b, size, overlap) && Tight(a, size) && Tight(b, size)
    requires Sources(a) == Sources(b)
    ensures a == b
  {
    if a == [] || b == [] {
      NoSources(a, size, overlap);
      NoSources(b, size, overlap);
    } else {
      SameFirst(a, b, size, overlap);
      SameRest(a, b);
      TightRest(a, size);
      TightRest(b, size);
      GroupsAreUnique(a[1..], b[1..], size, overlap);
      assert a == [a[0]] + a[1..] && b == [b[0]] + b[1..];
    }
  }

  lemma SameRest(a: seq<Group>, b: seq<Group>)
    requires a != [] && b != [] && a[0] == b[0] && Sources(a) == Sources(b)
    ensures Sources(a[1..]) == Sources(b[1..])
  {
    SourcesHead(a);
    SourcesHead(b);
    assert Sources(a[1..]) == Sources(a)[|SourcesOf(a[0])|..];
  }

  lemma NoSources(groups: seq<Group>, size: int, overlap: int)
    requires AllOk(groups, size, overlap)
    ensures Sources(groups) == [] <==> groups == []
  {
    if groups != [] {
      assert GroupOk(groups[|groups| - 1], size, overlap);
    }
  }

  lemma TightRest(groups: seq<Group>, size: int)
    requires groups != [] && Tight(groups, size)
    ensures Tight(groups[1..], size)
  {
    forall i | 0 < i < |groups| - 1 ensures MayFollow(groups[1..][i - 1], FirstOf(groups[1..][i]), size) {
      assert MayFollow(groups[i + 1 - 1], FirstOf(groups[i + 1]), size);
    }
  }

  /** So the paragraphs determine the chunks. */
  lemma {:induction false} ChunksAreDetermined(chunks: seq<string>, chunks': seq<string>, paras: seq<string>, size: int, overlap: int)
    requires ChunksOf(chunks, paras, size, overlap) && ChunksOf(chunks', paras, size, overlap)
    ensures chunks == chunks'
  {
    var a :| Explains(a, chunks, paras, size, overlap) && Tight(a, size);
    var b :| Explains(b, chunks', paras, size, overlap) && Tight(b, size);
    GroupsAreUnique(a, b, size, overlap);
  }

  // ---------- Reading the paragraphs back ----------

  /** Where a chunk comes from, without saying what: packed paragraphs, the first window of a
      long one, or another window of it. */
  datatype Mark = Whole | FirstWindow | NextWindow

  function MarksOf(g: Group, size: int, overlap: int): seq<Mark>
    requires GroupOk(g, size, overlap)
  {
    match g
    case Packed(_) => [Whole]
    case Windowed(para) => WindowMarks(|Windows(para, size, overlap, 0)|)
  }

  function WindowMarks(n: nat): (marks: seq<Mark>)
    ensures |marks| == n
  {
    if n == 0 then [] else WindowMarks(n - 1) + [if n == 1 then FirstWindow else NextWindow]
  }

  function MarkAll(groups: seq<Group>, size: int, overlap: int): seq<Mark>
    requires AllOk(groups, size, overlap)
  {
    if groups == [] then []
    else MarkAll(groups[..|groups| - 1], size, overlap) + MarksOf(groups[|groups| - 1], size, overlap)
  }

  /** The paragraphs read off the chunks and their marks: packed chunks are split at their
      joins, and a further window adds what it has beyond the overlap. */
  function Recover(chunks: seq<string>, marks: seq<Mark>, overlap: nat): seq<string>
    requires |chunks| == |marks|
  {
    if chunks == [] then []
    else
      var n := |chunks| - 1;
      var before := Recover(chunks[..n], marks[..n], overlap);
      match marks[n]
      case Whole => before + SplitJoins(chunks[n])
      case FirstWindow => before + [chunks[n]]
      case NextWindow =>
        if before == [] then [Drop(chunks[n], overlap)]
        else before[..|before| - 1] + [before[|before| - 1] + Drop(chunks[n], overlap)]
  }

  lemma {:induction false} RestAppend(windows: seq<string>, w: string, overlap: nat)
    ensures Rest(windows + [w], overlap) == Rest(windows, overlap) + Drop(w, overlap)
  {
    if windows == [] {
      assert windows + [w] == [w];
    } else {
      RestAppend(windows[1..], w, overlap);
      assert (windows + [w])[0] == windows[0] && (windows + [w])[1..] == windows[1..] + [w];
      SeqAssoc(Drop(windows[0], overlap), Rest(windows[1..], overlap), Drop(w, overlap));
    }
  }

  lemma ReassembleAppend(windows: seq<string>, w: string, overlap: nat)
    requires windows != []
    ensures Reassemble(windows + [w], overlap) == Reassemble(windows, overlap) + Drop(w, overlap)
  {
    assert (windows + [w])[1..] == windows[1..] + [w];
    RestAppend(windows[1..], w, overlap);
  }

  lemma RecoverOne(chunks: seq<string>, marks: seq<Mark>, chunk: string, mark: Mark, overlap: nat)
    requires |chunks| == |marks|
    ensures var before := Recover(chunks, marks, overlap);
      Recover(chunks + [chunk], marks + [mark], overlap) == match mark {
        case Whole => before + SplitJoins(chunk)
        case FirstWindow => before + [chunk]
        case NextWindow =>
          if before == [] then [Drop(chunk, overlap)]
          else before[..|before| - 1] + [before[|before| - 1] + Drop(chunk, overlap)]
      }
  {
    assert (chunks + [chunk])[..|chunks|] == chunks && (marks + [mark])[..|marks|] == marks;
  }

  /** A run of windows is read as one paragraph. */
  lemma {:induction false} RecoverWindows(chunks: seq<string>, marks: seq<Mark>, windows: seq<string>, overlap: nat)
    requires |chunks| == |marks| && windows != []
    ensures Recover(chunks + windows, marks + WindowMarks(|windows|), overlap)
         == Recover(chunks, marks, overlap) + [Reassemble(windows, overlap)]
  {
    var n := |windows| - 1;
    var front, last := windows[..n], windows[n];
    assert windows == front + [last];
    assert chunks + windows == (chunks + front) + [last];
    if n == 0 {
      assert marks + WindowMarks(1) == marks + [FirstWindow];
      assert chunks + windows == chunks + [last];
      RecoverOne(chunks, marks, last, FirstWindow, overlap);
      assert windows[1..] == [] && Reassemble(windows, overlap) == last + "" == last;
    } else {
      RecoverWindows(chunks, marks, front, overlap);
      assert marks + WindowMarks(n + 1) == (marks + WindowMarks(n)) + [NextWindow];
      RecoverOne(chunks + front, marks + WindowMarks(n), last, NextWindow, overlap);
      ReassembleAppend(front, last, overlap);
      var before := Recover(chunks + front, marks + WindowMarks(n), overlap);
      assert before[..|before| - 1] == Recover(chunks, marks, overlap);
    }
  }

  lemma RecoverGroup(chunks: seq<string>, marks: seq<Mark>, g: Group, size: int, overlap: nat)
    requires GroupOk(g, size, overlap) && AllClean(SourcesOf(g)) && |chunks| == |marks|
    ensures |MarksOf(g, size, overlap)| == |Render(g, size, overlap)|
    ensures Recover(chunks + Render(g, size, overlap), marks + MarksOf(g, size, overlap), overlap)
         == Recover(chunks, marks, overlap) + SourcesOf(g)
  {
    match g {
      case Packed(paras) =>
        SplitPacked(paras);
        RecoverOne(chunks, marks, Joined(paras), Whole, overlap);
      case Windowed(para) =>
        WindowsReassemble(para, size, overlap);
        RecoverWindows(chunks, marks, Windows(para, size, overlap, 0), overlap);
    }
  }

  lemma CleanParts(a: seq<string>, b: seq<string>)
    requires AllClean(a + b)
    ensures AllClean(a) && AllClean(b)
  {
    forall i | 0 <= i < |a| ensures Clean(a[i]) {
      assert Clean((a + b)[i]);
    }
    forall i | 0 <= i < |b| ensures Clean(b[i]) {
      assert Clean((a + b)[|a| + i]);
    }
  }

  /** Splitting the packed chunks at their joins and dropping the overlap of further windows
      recovers the exact sequence of paragraphs. */
  lemma {:induction false} ChunksRecoverParagraphs(groups: seq<Group>, size: int, overlap: nat)
    requires AllOk(groups, size, overlap) && AllClean(Sources(groups))
    ensures |MarkAll(groups, size, overlap)| == |RenderAll(groups, size, overlap)|
    ensures Recover(RenderAll(groups, size, overlap), MarkAll(groups, size, overlap), overlap) == Sources(groups)
  {
    if groups != [] {
      var n := |groups| - 1;
      CleanParts(Sources(groups[..n]), SourcesOf(groups[n]));
      ChunksRecoverParagraphs(groups[..n], size, overlap);
      RecoverGroup(RenderAll(groups[..n], size, overlap), MarkAll(groups[..n], size, overlap), groups[n], size, overlap);
    }
  }

  // ---------- The whole function ----------

  /** The marks are those of the groups the chunks come from. */
  ghost predicate MarkedAs(marks: seq<Mark>, chunks: seq<string>, paras: seq<string>, size: int, overlap: int)
  {
    exists groups ::
      Explains(groups, chunks, paras, size, overlap) && Tight(groups, size) && marks == MarkAll(groups, size, overlap)
  }

  /** The chunks of a text, with a mark for each. */
  method ChunkText(text: string, size: int, overlap: int) returns (chunks: seq<string>, ghost marks: seq<Mark>)
    requires Steps(Paragraphs(text), size, overlap)
    ensures ChunksOf(chunks, Paragraphs(text), size, overlap)
    ensures 0 < size ==> forall k :: 0 <= k < |chunks| ==> 0 < |chunks[k]| <= size
    ensures MarkedAs(marks, chunks, Paragraphs(text), size, overlap)
    ensures overlap >= 0 ==> |marks| == |chunks| && Recover(chunks, marks, overlap) == Paragraphs(text)
  {
    var paras := Paragraphs(text);
    ParagraphsAreClean(text);
    assert forall i :: 0 <= i < |paras| ==> Clean(paras[i]);
    ghost var groups;
    chunks, groups := ChunkParagraphs(paras, size, overlap);
    if 0 < size {
      ChunksFit(groups, size, overlap);
    }
    marks := MarkAll(groups, size, overlap);
    if overlap >= 0 {
      ChunksRecoverParagraphs(groups, size, overlap);
    }
  }

  lemma RenderFits(g: Group, size: int, overlap: int)
    requires 0 < size && GroupOk(g, size, overlap) && AllClean(SourcesOf(g))
    ensures forall k :: 0 <= k < |Render(g, size, overlap)| ==> 0 < |Render(g, size, overlap)[k]| <= size
  {
    match g {
      case Packed(paras) => assert Clean(paras[|paras| - 1]);
      case Windowed(para) => WindowsFit(para, size, overlap, 0);
    }
  }

  /** Every chunk is non-empty and at most `size` long. */
  lemma {:induction false} ChunksFit(groups: seq<Group>, size: int, overlap: int)
    requires 0 < size && AllOk(groups, size, overlap) && AllClean(Sources(groups))
    ensures forall k :: 0 <= k < |RenderAll(groups, size, overlap)| ==> 0 < |RenderAll(groups, size, overlap)[k]| <= size
  {
    if groups != [] {
      var n := |groups| - 1;
      CleanParts(Sources(groups[..n]), SourcesOf(groups[n]));
      ChunksFit(groups[..n], size, overlap);
      RenderFits(groups[n], size, overlap);
    }
  }

  lemma {:induction false} CleanIsStripped(para: string)
    requires Clean(para)
    ensures Strip(para) == para
  {
  }

  lemma {:induction false} CleanPartsStay(parts: seq<string>)
    requires AllClean(parts)
    ensures NonBlank(parts) == parts
  {
    if parts != [] {
      assert Clean(parts[0]);
      CleanIsStripped(parts[0]);
      assert forall i :: 0 <= i < |parts| - 1 ==> parts[1..][i] == parts[i + 1];
      CleanPartsStay(parts[1..]);
    }
  }

  /** Joining clean paragraphs gives a text with just those paragraphs. */
  lemma {:induction false} ParagraphsOfJoined(paras: seq<string>)
    requires paras != [] && AllClean(paras)
    ensures Paragraphs(Joined(paras)) == paras
  {
    SplitPacked(paras);
    CleanPartsStay(paras);
  }

  // ---------- Reading the chunks without the marks ----------

  /** Every chunk split at its joins: the reading that takes no chunk for a window. */
  function SplitAll(chunks: seq<string>): seq<string>
  {
    if chunks == [] then [] else SplitAll(chunks[..|chunks| - 1]) + SplitJoins(chunks[|chunks| - 1])
  }

  lemma {:induction false} SplitAllAppend(a: seq<string>, b: seq<string>)
    ensures SplitAll(a + b) == SplitAll(a) + SplitAll(b)
  {
    if b == [] {
      assert a + b == a;
    } else {
      var n := |b| - 1;
      SplitAllAppend(a, b[..n]);
      assert (a + b)[..|a + b| - 1] == a + b[..n];
      SeqAssoc(SplitAll(a), SplitAll(b[..n]), SplitJoins(b[n]));
    }
  }

  lemma SplitAllOne(chunk: string)
    ensures SplitAll([chunk]) == SplitJoins(chunk)
  {
    assert [chunk][..0] == [];
  }

  lemma {:induction false} SplitAllCount(chunks: seq<string>)
    ensures |SplitAll(chunks)| >= |chunks|
  {
    if chunks != [] { SplitAllCount(chunks[..|chunks| - 1]); }
  }

  lemma OnePart(t: string)
    ensures SplitJoins(t) != [] && (|SplitJoins(t)| == 1 ==> SplitJoins(t) == [t])
  {
  }

  /** A windowed paragraph is never read back by splitting: there is a further window, or the
      only one is shorter than the paragraph. */
  lemma {:induction false} WindowsMisread(para: string, size: int, overlap: int)
    requires overlap < size < |para| && para != ""
    ensures |SplitAll(Windows(para, size, overlap, 0))| >= 1
    ensures SplitAll(Windows(para, size, overlap, 0)) != [para]
  {
    var windows := Windows(para, size, overlap, 0);
    var first := Slice(para, 0, 0 + size);
    SplitAllCount(windows);
    assert windows == [first] + Windows(para, size, overlap, size - overlap);
    if |windows| == 1 {
      assert windows == [first];
      SplitAllOne(first);
      OnePart(first);
    }
  }

  lemma {:induction false} GroupMisread(g: Group, size: int, overlap: int)
    requires GroupOk(g, size, overlap) && AllClean(SourcesOf(g))
    ensures |SplitAll(Render(g, size, overlap))| >= |SourcesOf(g)|
    ensures SplitAll(Render(g, size, overlap)) == SourcesOf(g) <==> g.Packed?
  {
    match g {
      case Packed(paras) =>
        SplitAllOne(Joined(paras));
        SplitPacked(paras);
      case Windowed(para) =>
        assert Clean([para][0]);
        WindowsMisread(para, size, overlap);
    }
  }

  ghost predicate AllPacked(groups: seq<Group>)
  {
    forall i :: 0 <= i < |groups| ==> groups[i].Packed?
  }

  /** Two lists in a row match two others, none of them shorter, just when each matches. */
  lemma BothMatch<T>(a: seq<T>, b: seq<T>, s: seq<T>, t: seq<T>)
    requires |a| >= |s| && |b| >= |t|
    ensures |a + b| >= |s + t|
    ensures a + b == s + t <==> a == s && b == t
  {
    if a + b == s + t {
      assert |a| == |s|;
      assert a == (a + b)[..|a|] && s == (s + t)[..|s|];
      assert b == (a + b)[|a|..] && t == (s + t)[|s|..];
    }
  }

  lemma {:induction false} SplitAllOfGroups(groups: seq<Group>, size: int, overlap: int)
    requires groups != [] && AllOk(groups, size, overlap)
    ensures var n := |groups| - 1;
      SplitAll(RenderAll(groups, size, overlap))
        == SplitAll(RenderAll(groups[..n], size, overlap)) + SplitAll(Render(groups[n], size, overlap))
  {
    var n := |groups| - 1;
    SplitAllAppend(RenderAll(groups[..n], size, overlap), Render(groups[n], size, overlap));
  }

  lemma {:induction false} GroupsMisread(groups: seq<Group>, size: int, overlap: int)
    requires AllOk(groups, size, overlap) && AllClean(Sources(groups))
    ensures |SplitAll(RenderAll(groups, size, overlap))| >= |Sources(groups)|
    ensures SplitAll(RenderAll(groups, size, overlap)) == Sources(groups) <==> AllPacked(groups)
  {
    if groups != [] {
      var n := |groups| - 1;
      CleanParts(Sources(groups[..n]), SourcesOf(groups[n]));
      GroupsMisread(groups[..n], size, overlap);
      GroupMisread(groups[n], size, overlap);
      SplitAllOfGroups(groups, size, overlap);
      BothMatch(SplitAll(RenderAll(groups[..n], size, overlap)), SplitAll(Render(groups[n], size, overlap)),
                Sources(groups[..n]), SourcesOf(groups[n]));
      PackedMore(groups);
    }
  }

  lemma PackedMore(groups: seq<Group>)
    requires groups != []
    ensures AllPacked(groups) <==> AllPacked(groups[..|groups| - 1]) && groups[|groups| - 1].Packed?
  {
  }

  /** No paragraph is longer than the size. */
  predicate AllShort(paras: seq<string>, size: int)
  {
    forall i :: 0 <= i < |paras| ==> |paras[i]| <= size
  }

  lemma {:induction false} JoinedHolds(paras: seq<string>, i: nat)
    requires i < |paras|
    ensures |paras[i]| <= |Joined(paras)|
  {
    var n := |paras| - 1;
    if i < n { JoinedHolds(paras[..n], i); }
  }

  lemma GroupShort(g: Group, size: int, overlap: int)
    requires GroupOk(g, size, overlap)
    ensures AllShort(SourcesOf(g), size) <==> g.Packed?
  {
    match g {
      case Packed(paras) =>
        forall i | 0 <= i < |paras| ensures |paras[i]| <= size { JoinedHolds(paras, i); }
      case Windowed(para) =>
        assert SourcesOf(g)[0] == para;
    }
  }

  lemma ShortParts(a: seq<string>, b: seq<string>, size: int)
    ensures AllShort(a + b, size) <==> AllShort(a, size) && AllShort(b, size)
  {
    if AllShort(a + b, size) {
      forall i | 0 <= i < |a| ensures |a[i]| <= size { assert (a + b)[i] == a[i]; }
      forall i | 0 <= i < |b| ensures |b[i]| <= size { assert (a + b)[|a| + i] == b[i]; }
    }
  }

  lemma {:induction false} GroupsShort(groups: seq<Group>, size: int, overlap: int)
    requires AllOk(groups, size, overlap)
    ensures AllShort(Sources(groups), size) <==> AllPacked(groups)
  {
    if groups != [] {
      var n := |groups| - 1;
      GroupsShort(groups[..n], size, overlap);
      GroupShort(groups[n], size, overlap);
      ShortParts(Sources(groups[..n]), SourcesOf(groups[n]), size);
      PackedMore(groups);
    }
  }

  /** Splitting every chunk at its joins gives the paragraphs exactly when none of them is
      longer than the size. */
  lemma {:induction false} SplittingRecoversIff(chunks: seq<string>, paras: seq<string>, size: int, overlap: int)
    requires ChunksOf(chunks, paras, size, overlap) && AllClean(paras)
    ensures SplitAll(chunks) == paras <==> AllShort(paras, size)
  {
    var groups :| Explains(groups, chunks, paras, size, overlap) && Tight(groups, size);
    GroupsMisread(groups, size, overlap);
    GroupsShort(groups, size, overlap);
  }

  /** Some chunk has exactly `size` characters. */
  predicate HasFullChunk(chunks: seq<string>, size: int)
  {
    exists k :: 0 <= k < |chunks| && |chunks[k]| == size
  }

  /** The first window of a long paragraph is a full chunk. */
  lemma {:induction false} WindowIsFull(groups: seq<Group>, size: int, overlap: int)
    requires 0 <= size && AllOk(groups, size, overlap) && !AllPacked(groups)
    ensures HasFullChunk(RenderAll(groups, size, overlap), size)
  {
    var n := |groups| - 1;
    var chunks, more := RenderAll(groups[..n], size, overlap), Render(groups[n], size, overlap);
    if AllPacked(groups[..n]) {
      assert groups[n].Windowed?;
      assert more[0] == Slice(groups[n].para, 0, 0 + size);
      assert (chunks + more)[|chunks|] == more[0];
    } else {
      WindowIsFull(groups[..n], size, overlap);
      var k :| 0 <= k < |chunks| && |chunks[k]| == size;
      assert (chunks + more)[k] == chunks[k];
    }
  }

  /** Chunks none of which is full can be read only one way: splitting them gives the
      paragraphs, and no other paragraphs have these chunks. */
  lemma {:induction false} WithoutFullChunks(chunks: seq<string>, paras: seq<string>, size: int, overlap: int)
    requires 0 <= size && ChunksOf(chunks, paras, size, overlap) && AllClean(paras)
    requires !HasFullChunk(chunks, size)
    ensures SplitAll(chunks) == paras
    ensures forall paras' :: ChunksOf(chunks, paras', size, overlap) && AllClean(paras') ==> paras' == paras
  {
    forall ps | ChunksOf(chunks, ps, size, overlap) && AllClean(ps) ensures SplitAll(chunks) == ps {
      var groups :| Explains(groups, chunks, ps, size, overlap) && Tight(groups, size);
      if !AllPacked(groups) { WindowIsFull(groups, size, overlap); }
      GroupsMisread(groups, size, overlap);
    }
  }

  // ---------- Different paragraphs, same chunks ----------

  lemma PairJoined(p: string, q: string)
    ensures Joined([p, q]) == p + JOIN + q
  {
    assert [p, q][..1] == [p];
  }

  lemma {:induction false} TwoGroups(g: Group, h: Group, size: int, overlap: int)
    requires GroupOk(g, size, overlap) && GroupOk(h, size, overlap) && MayFollow(g, FirstOf(h), size)
    ensures ChunksOf(Render(g, size, overlap) + Render(h, size, overlap), SourcesOf(g) + SourcesOf(h), size, overlap)
  {
    OneGroup(g, size, overlap);
    Explain([g], h, Render(g, size, overlap), SourcesOf(g), size, overlap);
    assert Tight([g] + [h], size);
  }

  /** Two paragraphs that do not fit together are two chunks. */
  lemma {:induction false} TwoShort(p: string, q: string, size: int, overlap: int)
    requires |p| <= size && |q| <= size && |p| + |q| + 2 > size
    ensures ChunksOf([p, q], [p, q], size, overlap)
  {
    TwoGroups(Packed([p]), Packed([q]), size, overlap);
    assert [p] + [q] == [p, q];
  }

  /** A paragraph a little longer than the size is two windows. */
  lemma {:induction false} OneLong(para: string, size: int, overlap: int)
    requires 0 < size < |para| && overlap < size && |para| <= 2 * (size - overlap) && 0 <= overlap
    ensures ChunksOf([para[..size], para[size - overlap..]], [para], size, overlap)
  {
    var step := size - overlap;
    assert Slice(para, step, step + size) == para[step..] && Slice(para, 0, 0 + size) == para[..size];
    assert Windows(para, size, overlap, step) == [para[step..]] + Windows(para, size, overlap, step + step);
    assert Windows(para, size, overlap, 0) == [para[..size]] + Windows(para, size, overlap, step);
    OneGroup(Windowed(para), size, overlap);
  }

  /** The windows of a paragraph from the second on are those of the paragraph without its
      first step. */
  lemma {:induction false} WindowsShift(para: string, size: int, overlap: int, i: nat)
    requires 0 < size && overlap < size <= |para| + overlap
    ensures Windows(para[size - overlap..], size, overlap, i) == Windows(para, size, overlap, i + size - overlap)
    decreases |para| - i
  {
    var step := size - overlap;
    var rest := para[step..];
    if i < |rest| {
      WindowsShift(para, size, overlap, i + step);
      assert Slice(rest, i, i + size) == Slice(para, i + step, i + step + size);
    }
  }

  lemma {:induction false} FirstWindowThenRest(para: string, size: int, overlap: int)
    requires 0 < size && overlap < size <= |para| && size <= |para| + overlap
    ensures Windows(para, size, overlap, 0) == [para[..size]] + Windows(para[size - overlap..], size, overlap, 0)
  {
    WindowsShift(para, size, overlap, 0);
    assert Slice(para, 0, 0 + size) == para[..size];
  }

  /** A paragraph much longer than the size has the chunks of two paragraphs: its first window,
      and what is left of it after the first step. */
  lemma {:induction false} LongIsAmbiguous(para: string, size: int, overlap: int)
    requires 0 <= overlap < size && |para| > 2 * size - overlap
    ensures var chunks := Windows(para, size, overlap, 0);
      && ChunksOf(chunks, [para], size, overlap)
      && ChunksOf(chunks, [para[..size], para[size - overlap..]], size, overlap)
  {
    var p, q := para[..size], para[size - overlap..];
    OneGroup(Windowed(para), size, overlap);
    TwoGroups(Packed([p]), Windowed(q), size, overlap);
    FirstWindowThenRest(para, size, overlap);
    assert [p] + [q] == [p, q];
  }

  lemma {:induction false} WindowsSkip(para: string, size: int, overlap: int, c: char, i: nat)
    requires overlap < 0 <= size < |para| && (i == 0 || i > size)
    ensures Windows(para[size := c], size, overlap, i) == Windows(para, size, overlap, i)
    decreases |para| - i
  {
    if i < |para| {
      assert Slice(para[size := c], i, i + size) == Slice(para, i, i + size);
      WindowsSkip(para, size, overlap, c, i + size - overlap);
    }
  }

  /** With a negative overlap the windows skip characters, and nothing can bring them back: the
      character after the first window can be any, and the chunks are the same. */
  lemma {:induction false} NegativeOverlapLoses(para: string, size: int, overlap: int, c: char)
    requires overlap < 0 <= size < |para|
    ensures var chunks := Windows(para, size, overlap, 0);
      ChunksOf(chunks, [para], size, overlap) && ChunksOf(chunks, [para[size := c]], size, overlap)
  {
    WindowsSkip(para, size, overlap, c, 0);
    OneGroup(Windowed(para), size, overlap);
    OneGroup(Windowed(para[size := c]), size, overlap);
  }

  lemma {:induction false} SameChunks(para: string, p: string, q: string, size: int, overlap: int)
    requires 0 <= overlap && 0 < size < |para| <= 2 * (size - overlap)
    requires p == para[..size] && q == para[size - overlap..] && Clean(para) && Clean(p) && Clean(q)
    ensures Paragraphs(para) == [para] && Paragraphs(p + JOIN + q) == [p, q]
    ensures ChunksOf([p, q], [para], size, overlap) && ChunksOf([p, q], [p, q], size, overlap)
  {
    OneLong(para, size, overlap);
    TwoShort(p, q, size, overlap);
    ParagraphsOfJoined([para]);
    PairJoined(p, q);
    ParagraphsOfJoined([p, q]);
  }

  /** The shortest case: one long paragraph and two short ones with the same chunks. */
  lemma ChunksAreAmbiguous()
    ensures Paragraphs("abcde") != Paragraphs("abcd\n\nde")
    ensures ChunksOf(["abcd", "de"], Paragraphs("abcde"), 4, 1)
    ensures ChunksOf(["abcd", "de"], Paragraphs("abcd\n\nde"), 4, 1)
  {
    assert "abcde"[..4] == "abcd" && "abcde"[4 - 1..] == "de";
    assert "abcd" + JOIN + "de" == "abcd\n\nde";
    SameChunks("abcde", "abcd", "de", 4, 1);
  }

  lemma OneGroup(g: Group, size: int, overlap: int)
    requires GroupOk(g, size, overlap)
    ensures Explains([g], Render(g, size, overlap), SourcesOf(g), size, overlap) && Tight([g], size)
  {
    assert [g][..0] == [];
  }

  /** With an overlap as large as the size, the loop over "abcde" never ends. */
  lemma EndlessLoop()
    ensures Paragraphs("abcde") == ["abcde"] && !Ends(Paragraphs("abcde"), 4, 4)
  {
    ParagraphsOfJoined(["abcde"]);
    ChunkingEndsIff(["abcde"], 4, 4);
    assert |["abcde"][0]| > 4;
  }
}
