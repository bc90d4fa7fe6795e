/** Rotating the log: entries beyond the byte cap move to the day's archive. Texts are as the
    source reads them, with carriage returns already translated to line feeds. */
module LogRotation {
  import opened Common

  // ---------- Lines ----------

  /** The characters at which the source splits lines. */
  predicate IsBreak(c: char)
  {
    var u := c as int;
    u == 0x0A || u == 0x0B || u == 0x0C || 0x1C <= u <= 0x1E || u == 0x85 || u == 0x2028 || u == 0x2029
  }

  function FirstBreak(t: string): (i: nat)
    ensures i <= |t|
    ensures i < |t| ==> IsBreak(t[i])
    ensures forall j :: 0 <= j < i ==> !IsBreak(t[j])
  {
    if t == "" || IsBreak(t[0]) then 0 else 1 + FirstBreak(t[1..])
  }

  /** The lines of a text, each with its break. */
  function SplitLines(t: string): seq<string>
    decreases |t|
  {
    if t == "" then []
    else
      var i := FirstBreak(t);
      if i == |t| then [t] else [t[..i + 1]] + SplitLines(t[i + 1..])
  }

  lemma Single(t: string)
    ensures Concat([t]) == t
  {
    assert [t][..0] == [];
  }

  lemma {:induction false} LinesJoin(t: string)
    ensures Concat(SplitLines(t)) == t
    decreases |t|
  {
    var i := FirstBreak(t);
    if i < |t| {
      var lines := SplitLines(t[i + 1..]);
      LinesJoin(t[i + 1..]);
      ConcatCons(t[..i + 1], lines);
      assert SplitLines(t) == [t[..i + 1]] + lines;
    } else if t != "" {
      Single(t);
    }
  }

  lemma {:induction false} LinesNotEmpty(t: string)
    ensures forall i :: 0 <= i < |SplitLines(t)| ==> SplitLines(t)[i] != ""
    decreases |t|
  {
    if t != "" && FirstBreak(t) < |t| {
      LinesNotEmpty(t[FirstBreak(t) + 1..]);
    }
  }

  predicate EndsLine(t: string)
  {
    t == "" || IsBreak(t[|t| - 1])
  }

  lemma RestEndsLine(a: string, i: nat)
    requires a != "" && EndsLine(a)
    requires i <= |a| && forall j :: 0 <= j < i ==> !IsBreak(a[j])
    ensures i < |a| && EndsLine(a[i + 1..])
  {
    assert IsBreak(a[|a| - 1]);
    if i < |a| - 1 { assert a[i + 1..][|a| - i - 2] == a[|a| - 1]; }
  }

  lemma {:induction false} SplitStep(t: string)
    requires FirstBreak(t) < |t|
    ensures SplitLines(t) == [t[..FirstBreak(t) + 1]] + SplitLines(t[FirstBreak(t) + 1..])
  {
    assert t != "";
  }

  /** A text that ends its last line splits independently of what follows. */
  lemma {:induction false} SplitAtLineEnd(a: string, b: string)
    requires EndsLine(a)
    ensures SplitLines(a + b) == SplitLines(a) + SplitLines(b)
    decreases |a|
  {
    if a == "" {
      assert a + b == b;
    } else {
      RestEndsLine(a, FirstBreak(a));
      SplitStep(a);
      SplitFirst(a, b);
      var rest := a[FirstBreak(a) + 1..];
      SplitAtLineEnd(rest, b);
      FirstInBoth(a[..FirstBreak(a) + 1], SplitLines(rest), SplitLines(b), SplitLines(a), SplitLines(a + b));
    }
  }

  lemma {:induction false} SplitFirst(a: string, b: string)
    requires FirstBreak(a) < |a|
    ensures SplitLines(a + b) == [a[..FirstBreak(a) + 1]] + SplitLines(a[FirstBreak(a) + 1..] + b)
  {
    var i := FirstBreak(a);
    FirstBreakOf(a + b, i);
    assert (a + b)[..i + 1] == a[..i + 1];
    assert (a + b)[i + 1..] == a[i + 1..] + b;
  }

  lemma FirstInBoth(x: string, p: seq<string>, q: seq<string>, first: seq<string>, both: seq<string>)
    requires first == [x] + p && both == [x] + (p + q)
    ensures both == first + q
  {
  }

  lemma FirstBreakOf(t: string, i: nat)
    requires i < |t| && IsBreak(t[i]) && forall j :: 0 <= j < i ==> !IsBreak(t[j])
    ensures FirstBreak(t) == i
  {
  }

  // ---------- Segments ----------

  const HEADING := "## "

  predicate IsHeading(line: string) { HEADING <= line }

  /** Finished segments and the one being collected. */
  datatype Cut = Cut(done: seq<string>, buf: string)
  {
    function All(): seq<string> { if buf == "" then done else done + [buf] }
  }

  function CutLines(lines: seq<string>): Cut
  {
    if lines == [] then Cut([], "")
    else
      var c, line := CutLines(lines[..|lines| - 1]), lines[|lines| - 1];
      if IsHeading(line) && c.buf != "" then Cut(c.done + [c.buf], line) else Cut(c.done, c.buf + line)
  }

  /** A text cut before every heading line but a leading one. */
  function Segments(t: string): seq<string>
  {
    CutLines(SplitLines(t)).All()
  }

  method SplitSegments(t: string) returns (segments: seq<string>)
    ensures segments == Segments(t)
  {
    segments := [];
    var buf: seq<string> := [];
    var lines := SplitLines(t);
    LinesNotEmpty(t);
    for i := 0 to |lines|
      invariant CutLines(lines[..i]) == Cut(segments, Concat(buf))
      invariant buf == [] <==> Concat(buf) == ""
    {
      assert lines[..i + 1][..i] == lines[..i];
      ConcatAppend(buf, [lines[i]]);
      Single(lines[i]);
      if IsHeading(lines[i]) && buf != [] {
        segments := segments + [Concat(buf)];
        buf := [lines[i]];
      } else {
        buf := buf + [lines[i]];
      }
    }
    assert lines[..|lines|] == lines;
    if buf != [] {
      segments := segments + [Concat(buf)];
    }
  }

  lemma {:induction false} CutJoins(lines: seq<string>)
    ensures Concat(CutLines(lines).done) + CutLines(lines).buf == Concat(lines)
  {
    if lines != [] {
      var n := |lines| - 1;
      var c := CutLines(lines[..n]);
      CutJoins(lines[..n]);
      ConcatOne(c.done, c.buf);
      assert Concat(c.done) + (c.buf + lines[n]) == Concat(c.done) + c.buf + lines[n];
    }
  }

  predicate HeadingsAfterFirst(segments: seq<string>)
  {
    forall i :: 0 < i < |segments| ==> IsHeading(segments[i])
  }

  lemma {:induction false} CutAtHeadings(lines: seq<string>)
    ensures var c := CutLines(lines);
      && (c.buf == "" ==> c.done == [])
      && HeadingsAfterFirst(c.done) && (c.done != [] ==> IsHeading(c.buf))
  {
    if lines != [] { CutAtHeadings(lines[..|lines| - 1]); }
  }

  /** The segments are the text, and every cut is at a heading line. */
  lemma SegmentsJoin(t: string)
    ensures Concat(Segments(t)) == t
    ensures HeadingsAfterFirst(Segments(t))
  {
    var c := CutLines(SplitLines(t));
    LinesJoin(t);
    CutJoins(SplitLines(t));
    CutAtHeadings(SplitLines(t));
    ConcatAppend(c.done, [c.buf]);
    Single(c.buf);
  }

  /** Entries: nothing, or a text that begins at a heading and ends its last line. */
  predicate Entries(t: string)
  {
    t == "" || (IsHeading(t) && EndsLine(t))
  }

  lemma FirstLineIsHeading(t: string)
    requires IsHeading(t)
    ensures SplitLines(t) != [] && IsHeading(SplitLines(t)[0])
  {
    assert t[0] == '#' && t[1] == '#' && t[2] == ' ';
    assert FirstBreak(t) >= 3;
  }

  lemma {:induction false} CutAfter(a: seq<string>, b: seq<string>)
    requires b != [] && IsHeading(b[0]) && CutLines(a).buf != ""
    ensures CutLines(a + b) == Cut(CutLines(a).All() + CutLines(b).done, CutLines(b).buf)
    ensures CutLines(b).buf != ""
  {
    var n := |b| - 1;
    assert (a + b)[..|a + b| - 1] == a + b[..n];
    if n == 0 {
      assert a + b[..0] == a && b[..0] == [];
    } else {
      assert b[..n][0] == b[0];
      CutAfter(a, b[..n]);
    }
  }

  lemma {:induction false} BufferNotEmpty(lines: seq<string>)
    requires lines != [] && forall i :: 0 <= i < |lines| ==> lines[i] != ""
    ensures CutLines(lines).buf != ""
  {
  }

  /** Entries placed one after the other keep their segments. */
  lemma SegmentsOfBoth(a: string, b: string)
    requires EndsLine(a) && (b == "" || IsHeading(b))
    ensures Segments(a + b) == Segments(a) + Segments(b)
  {
    SplitAtLineEnd(a, b);
    var la, lb := SplitLines(a), SplitLines(b);
    LinesNotEmpty(a);
    if a == "" {
      assert la + lb == lb;
    } else if b == "" {
      assert la + lb == la;
    } else {
      FirstLineIsHeading(b);
      BufferNotEmpty(la);
      CutAfter(la, lb);
      var c, d := CutLines(la), CutLines(lb);
      assert c.All() + d.done + [d.buf] == c.All() + (d.done + [d.buf]);
    }
  }

  // ---------- The cap ----------

  function CharBytes(c: char): nat
  {
    var u := c as int;
    if u < 0x80 then 1 else if u < 0x800 then 2 else if u < 0x1_0000 then 3 else 4
  }

  /** The length of a text in UTF-8. */
  function Bytes(t: string): nat
  {
    if t == "" then 0 else Bytes(t[..|t| - 1]) + CharBytes(t[|t| - 1])
  }

  lemma {:induction false} BytesAppend(a: string, b: string)
    ensures Bytes(a + b) == Bytes(a) + Bytes(b)
  {
    if b == "" {
      assert a + b == a;
    } else {
      var n := |b| - 1;
      BytesAppend(a, b[..n]);
      assert (a + b)[..|a + b| - 1] == a + b[..n];
    }
  }

  /** How many leading segments stay: the most that fit, if any do. */
  function Keep(segments: seq<string>, cap: int): (k: nat)
    ensures k <= |segments|
    ensures k > 0 ==> Bytes(Concat(segments[..k])) <= cap
    ensures forall j :: k < j <= |segments| ==> Bytes(Concat(segments[..j])) > cap
  {
    if segments == [] then 0
    else
      var front := segments[..|segments| - 1];
      var k := Keep(front, cap);
      assert forall j :: 0 <= j < |segments| ==> front[..j] == segments[..j];
      assert segments[..|segments|] == segments;
      ConcatGrows(front, segments);
      if k == |front| && Bytes(Concat(segments)) <= cap then k + 1 else k
  }

  lemma ConcatGrows(front: seq<string>, segments: seq<string>)
    requires segments != [] && front == segments[..|segments| - 1]
    ensures Bytes(Concat(segments)) >= Bytes(Concat(front))
  {
    BytesAppend(Concat(front), segments[|segments| - 1]);
  }

  lemma KeepStep(segments: seq<string>, i: nat)
    requires i < |segments|
    ensures Bytes(Concat(segments[..i + 1])) == Bytes(Concat(segments[..i])) + Bytes(segments[i])
  {
    assert segments[..i + 1][..i] == segments[..i];
    BytesAppend(Concat(segments[..i]), segments[i]);
  }

  lemma {:induction false} PrefixBytesMonotone(segments: seq<string>, i: nat, j: nat)
    requires i <= j <= |segments|
    ensures Bytes(Concat(segments[..i])) <= Bytes(Concat(segments[..j]))
    decreases j
  {
    if i < j {
      PrefixBytesMonotone(segments, i, j - 1);
      KeepStep(segments, j - 1);
    }
  }

  // ---------- The memory ----------

  datatype Files = Files(log: Option<string>, archives: map<string, string>)

  function ArchiveOf(f: Files, stamp: string): string
  {
    if stamp in f.archives then f.archives[stamp] else ""
  }

  /** The part of a log that stays under `cap` bytes, and the part that goes. */
  function Kept(text: string, cap: int): string
  {
    Concat(Segments(text)[..Keep(Segments(text), cap)])
  }

  function Overflow(text: string, cap: int): string
  {
    Concat(Segments(text)[Keep(Segments(text), cap)..])
  }

  /** What a rotation on the day `stamp` does; None if there is nothing to rotate. */
  function Rotation(f: Files, capKb: int, stamp: string): Option<Files>
  {
    if f.log.None? || Bytes(f.log.value) <= capKb * 1024 then None
    else
      var text, cap := f.log.value, capKb * 1024;
      if Keep(Segments(text), cap) == |Segments(text)| then None
      else Some(Files(Some(Kept(text, cap)), f.archives[stamp := ArchiveOf(f, stamp) + Overflow(text, cap)]))
  }

  function Rotated(f: Files, capKb: int, stamp: string): Files
  {
    var r := Rotation(f, capKb, stamp);
    if r.Some? then r.value else f
  }

  datatype InsertError = NoSuchFile | OutOfRange

  function InsertLine(file: Option<string>, at: int, text: string): Result<string, InsertError>
  {
    if file.None? then Err(NoSuchFile)
    else
      var lines := SplitLines(file.value);
      if at < 0 || at > |lines| then Err(OutOfRange)
      else Ok(Concat(lines[..at]) + text + Concat(lines[at..]))
  }

  /** The loop that keeps segments until one does not fit. */
  method FirstOverflow(segments: seq<string>, cap: int) returns (overflowStart: nat)
    ensures overflowStart == Keep(segments, cap)
  {
    var keptSize := 0;
    overflowStart := |segments|;
    for i := 0 to |segments|
      invariant keptSize == Bytes(Concat(segments[..i])) && overflowStart == |segments|
      invariant i > 0 ==> keptSize <= cap
    {
      KeepStep(segments, i);
      if keptSize + Bytes(segments[i]) > cap {
        overflowStart := i;
        break;
      }
      keptSize := keptSize + Bytes(segments[i]);
    }
    KeepIs(segments, cap, overflowStart);
  }

  class Memory {
    var log: Option<string>
    var archives: map<string, string>

    constructor (f: Files)
      ensures Value() == f
    {
      log, archives := f.log, f.archives;
    }

    function Value(): Files
      reads this
    {
      Files(log, archives)
    }

    method RotateLog(capKb: int, stamp: string) returns (rotated: bool)
      modifies this
      ensures rotated <==> Rotation(old(Value()), capKb, stamp).Some?
      ensures Value() == Rotated(old(Value()), capKb, stamp)
    {
      if log.None? {
        return false;
      }
      var cap := capKb * 1024;
      var content := log.value;
      if Bytes(content) <= cap {
        return false;
      }
      var segments := SplitSegments(content);
      var overflowStart := FirstOverflow(segments, cap);
      var kept, overflow := segments[..overflowStart], segments[overflowStart..];
      if overflow == [] {
        return false;
      }
      var existing := if stamp in archives then archives[stamp] else "";
      archives := archives[stamp := existing + Concat(overflow)];
      log := Some(Concat(kept));
      rotated := true;
    }

    method InsertIntoLog(at: int, text: string) returns (r: Result<string, InsertError>)
      modifies this
      ensures r == InsertLine(old(log), at, text)
      ensures Value() == if r.Ok? then old(Value()).(log := Some(r.value)) else old(Value())
    {
      if log.None? {
        return Err(NoSuchFile);
      }
      var lines := SplitLines(log.value);
      if at < 0 || at > |lines| {
        return Err(OutOfRange);
      }
      ConcatAppend(lines[..at] + [text], lines[at..]);
      ConcatAppend(lines[..at], [text]);
      Single(text);
      r := Ok(Concat(lines[..at] + [text] + lines[at..]));
      log := Some(r.value);
    }
  }

  /** The first overflow decides: before it everything fits, from it on nothing does. */
  lemma KeepIs(segments: seq<string>, cap: int, k: nat)
    requires k <= |segments|
    requires k > 0 ==> Bytes(Concat(segments[..k])) <= cap
    requires k < |segments| ==> Bytes(Concat(segments[..k + 1])) > cap
    ensures Keep(segments, cap) == k
  {
    var m := Keep(segments, cap);
    if m > k {
      PrefixBytesMonotone(segments, k + 1, m);
    }
  }

  // ---------- Conservation ----------

  lemma NoSegments(t: string)
    ensures Segments(t) == [] <==> t == ""
  {
    SegmentsJoin(t);
    if t == "" { assert SplitLines(t) == []; }
  }

  lemma TailIsHeading(segments: seq<string>, k: nat)
    requires HeadingsAfterFirst(segments) && 0 < k < |segments|
    ensures IsHeading(Concat(segments[k..]))
  {
    ConcatCons(segments[k], segments[k + 1..]);
    assert [segments[k]] + segments[k + 1..] == segments[k..];
    assert IsHeading(segments[k]);
  }

  /** `kept` and `overflow` are the text, cut before a heading line or at its beginning. */
  ghost predicate CutInTwo(text: string, kept: string, overflow: string)
  {
    kept + overflow == text && overflow != "" && (kept != "" ==> IsHeading(overflow))
  }

  /** Over the cap, a non-empty log is cut in two, and what stays fits. */
  lemma {:induction false} PartsOfText(text: string, cap: int)
    requires text != "" && Bytes(text) > cap
    ensures Keep(Segments(text), cap) < |Segments(text)|
    ensures CutInTwo(text, Kept(text, cap), Overflow(text, cap))
    ensures Kept(text, cap) != "" ==> Bytes(Kept(text, cap)) <= cap
  {
    SegmentsJoin(text);
    NoSegments(text);
    KeepBelow(Segments(text), cap);
    CutAt(text, Segments(text), Keep(Segments(text), cap));
  }

  lemma KeepBelow(segments: seq<string>, cap: int)
    requires segments != [] && Bytes(Concat(segments)) > cap
    ensures Keep(segments, cap) < |segments|
    ensures Keep(segments, cap) == 0 ==> Concat(segments[..Keep(segments, cap)]) == ""
    ensures Keep(segments, cap) > 0 ==> Bytes(Concat(segments[..Keep(segments, cap)])) <= cap
  {
    assert segments[..|segments|] == segments;
  }

  /** A rotation happens exactly when a non-empty log is over the cap. It cuts the log before
      a heading line; what stays fits under the cap (and is the longest run of whole segments
      that does, by the contract of `Keep`); the rest, which is not empty, is appended to the
      day's archive, and no other archive changes. */
  lemma {:induction false} RotationConserves(f: Files, capKb: int, stamp: string)
    requires f.log.Some?
    ensures var r, text, cap := Rotation(f, capKb, stamp), f.log.value, capKb * 1024;
      && (r.Some? <==> Bytes(text) > cap && text != "")
      && (r.Some? ==>
            && CutInTwo(text, Kept(text, cap), Overflow(text, cap))
            && (Kept(text, cap) != "" ==> Bytes(Kept(text, cap)) <= cap)
            && r.value.log == Some(Kept(text, cap))
            && r.value.archives == f.archives[stamp := ArchiveOf(f, stamp) + Overflow(text, cap)])
  {
    if f.log.value == "" {
      NoSegments("");
    } else if Bytes(f.log.value) > capKb * 1024 {
      PartsOfText(f.log.value, capKb * 1024);
    }
  }

  lemma {:induction false} ConcatSplit(segments: seq<string>, k: nat)
    requires k <= |segments|
    ensures Concat(segments) == Concat(segments[..k]) + Concat(segments[k..])
  {
    ConcatAppend(segments[..k], segments[k..]);
    assert segments[..k] + segments[k..] == segments;
  }

  lemma {:induction false} CutAt(text: string, segments: seq<string>, k: nat)
    requires Concat(segments) == text && text != "" && HeadingsAfterFirst(segments) && k < |segments|
    ensures CutInTwo(text, Concat(segments[..k]), Concat(segments[k..]))
  {
    var kept, overflow := Concat(segments[..k]), Concat(segments[k..]);
    ConcatSplit(segments, k);
    if k > 0 {
      assert IsHeading(overflow) by { TailIsHeading(segments, k); }
      assert overflow[0] == '#';
    } else {
      assert kept == "";
    }
  }

  /** Rotating again with the same cap changes nothing. */
  lemma {:induction false} SecondRotationIsNoOp(f: Files, capKb: int, stamp: string, stamp': string)
    ensures Rotation(Rotated(f, capKb, stamp), capKb, stamp') == None
  {
    if f.log.Some? {
      RotationConserves(f, capKb, stamp);
      var g := Rotated(f, capKb, stamp);
      RotationConserves(g, capKb, stamp');
    }
  }

  // ---------- Histories ----------

  /** Something that happens to the log: an entry put at its head, or a rotation. */
  datatype Op = Insert(entry: string) | Rotate(capKb: int, stamp: string)

  /** An entry begins at a heading and ends its last line. */
  predicate ValidEntry(entry: string)
  {
    entry != "" && Entries(entry)
  }

  predicate ValidOp(op: Op)
  {
    op.Insert? ==> ValidEntry(op.entry)
  }

  function ApplyOp(f: Files, op: Op): Files
  {
    match op
    case Insert(entry) =>
      var r := InsertLine(f.log, 0, entry);
      if r.Ok? then f.(log := Some(r.value)) else f
    case Rotate(capKb, stamp) => Rotated(f, capKb, stamp)
  }

  function ApplyAll(f: Files, ops: seq<Op>): Files
  {
    if ops == [] then f else ApplyOp(ApplyAll(f, ops[..|ops| - 1]), ops[|ops| - 1])
  }

  /** Log and archives end their last lines; they may begin with anything. */
  ghost predicate LineEnded(f: Files)
  {
    f.log.Some? && EndsLine(f.log.value) && forall stamp :: stamp in f.archives ==> EndsLine(f.archives[stamp])
  }

  /** The log holds entries and nothing before them. */
  ghost predicate Headed(f: Files)
  {
    LineEnded(f) && Entries(f.log.value)
  }

  ghost predicate OnlyEntries(f: Files)
  {
    f.log.Some? && Entries(f.log.value) && forall stamp :: stamp in f.archives ==> Entries(f.archives[stamp])
  }

  predicate WholeLines(parts: seq<string>)
  {
    forall i :: 0 <= i < |parts| ==> parts[i] != "" && EndsLine(parts[i])
  }

  lemma {:induction false} LinesAreWhole(t: string)
    requires EndsLine(t)
    ensures WholeLines(SplitLines(t))
    decreases |t|
  {
    if t != "" {
      var i := FirstBreak(t);
      LinesAreWhole(t[i + 1..]);
    }
  }

  lemma {:induction false} SegmentsAreWhole(lines: seq<string>)
    requires WholeLines(lines)
    ensures WholeLines(CutLines(lines).All())
  {
    if lines != [] {
      var n := |lines| - 1;
      var c := CutLines(lines[..n]);
      SegmentsAreWhole(lines[..n]);
      assert forall i :: 0 <= i < |c.done| ==> c.All()[i] == c.done[i];
      if c.buf != "" { assert c.All()[|c.done|] == c.buf; }
    }
  }

  lemma {:induction false} FirstSegmentStarts(lines: seq<string>)
    requires lines != [] && WholeLines(lines)
    ensures CutLines(lines).All() != [] && lines[0] <= CutLines(lines).All()[0]
  {
    var n := |lines| - 1;
    if n == 0 {
      assert lines[..0] == [];
    } else {
      FirstSegmentStarts(lines[..n]);
      assert lines[..n][0] == lines[0];
      CutAtHeadings(lines[..n]);
    }
  }

  predicate AllHeadings(segments: seq<string>)
  {
    forall i :: 0 <= i < |segments| ==> IsHeading(segments[i])
  }

  /** Every segment of a text of entries is an entry. */
  lemma SegmentsAreEntries(t: string)
    requires Entries(t)
    ensures WholeLines(Segments(t)) && AllHeadings(Segments(t))
  {
    SegmentsJoin(t);
    NoSegments(t);
    LinesAreWhole(t);
    SegmentsAreWhole(SplitLines(t));
    if t != "" {
      FirstLineIsHeading(t);
      FirstSegmentStarts(SplitLines(t));
    }
  }

  lemma JoinedEntries(segments: seq<string>)
    requires WholeLines(segments) && AllHeadings(segments)
    ensures Entries(Concat(segments))
  {
    if segments != [] {
      ConcatCons(segments[0], segments[1..]);
      assert [segments[0]] + segments[1..] == segments;
    }
  }

  /** Any number of leading segments of a text of entries is itself a text of entries, with
      just those segments, and so is the rest. */
  lemma CutEntries(t: string, k: nat)
    requires Entries(t) && k <= |Segments(t)|
    ensures var kept, overflow := Concat(Segments(t)[..k]), Concat(Segments(t)[k..]);
      Entries(kept) && Entries(overflow) && Segments(t) == Segments(kept) + Segments(overflow)
  {
    var segments := Segments(t);
    SegmentsAreEntries(t);
    JoinedEntries(segments[..k]);
    JoinedEntries(segments[k..]);
    SegmentsJoin(t);
    ConcatSplit(segments, k);
    SegmentsOfBoth(Concat(segments[..k]), Concat(segments[k..]));
  }

  lemma {:induction false} WholePartsEnd(parts: seq<string>)
    requires WholeLines(parts)
    ensures EndsLine(Concat(parts))
  {
    if parts != [] {
      assert Concat(parts) == Concat(parts[..|parts| - 1]) + parts[|parts| - 1];
    }
  }

  /** Cutting a text that ends its last line after some of its segments leaves two such texts,
      with the same segments between them. */
  lemma {:induction false} CutText(t: string, k: nat)
    requires EndsLine(t) && k <= |Segments(t)|
    ensures var kept, overflow := Concat(Segments(t)[..k]), Concat(Segments(t)[k..]);
      && EndsLine(kept) && EndsLine(overflow)
      && Segments(t) == Segments(kept) + Segments(overflow)
  {
    var segments := Segments(t);
    LinesAreWhole(t);
    SegmentsAreWhole(SplitLines(t));
    WholePartsEnd(segments[..k]);
    WholePartsEnd(segments[k..]);
    SegmentsJoin(t);
    NoSegments("");
    if 0 < k < |segments| {
      ConcatSplit(segments, k);
      TailIsHeading(segments, k);
      SegmentsOfBoth(Concat(segments[..k]), Concat(segments[k..]));
    } else {
      assert segments[0..] == segments[..|segments|] == segments && segments[..0] == segments[|segments|..] == [];
    }
  }

  // ---------- Seams ----------

  /** Putting `b` behind `a` makes the last segment of the one run into the first of the other. */
  predicate Seam(a: string, b: string)
  {
    a != "" && b != "" && !IsHeading(b)
  }

  function JoinEnds(a: seq<string>, b: seq<string>): seq<string>
    requires a != [] && b != []
  {
    a[..|a| - 1] + [a[|a| - 1] + b[0]] + b[1..]
  }

  lemma {:induction false} CutRunsOn(a: seq<string>, b: seq<string>)
    requires CutLines(a).buf != "" && b != [] && !IsHeading(b[0]) && forall i :: 0 <= i < |b| ==> b[i] != ""
    ensures CutLines(b).buf != ""
    ensures var c, d := CutLines(a), CutLines(b);
      CutLines(a + b) == if d.done == [] then Cut(c.done, c.buf + d.buf)
                         else Cut(c.done + [c.buf + d.done[0]] + d.done[1..], d.buf)
  {
    var n := |b| - 1;
    assert (a + b)[..|a + b| - 1] == a + b[..n];
    if n == 0 {
      assert a + b[..0] == a && b[..0] == [];
    } else {
      assert b[..n][0] == b[0];
      CutRunsOn(a, b[..n]);
    }
  }

  lemma {:induction false} FirstLineStarts(t: string)
    requires t != ""
    ensures SplitLines(t) != [] && (IsHeading(SplitLines(t)[0]) ==> IsHeading(t))
  {
  }

  /** What a seam does: exactly two segments become one. */
  lemma {:induction false} SegmentsRunOn(a: string, b: string)
    requires EndsLine(a) && Seam(a, b)
    ensures Segments(a) != [] && Segments(b) != []
    ensures Segments(a + b) == JoinEnds(Segments(a), Segments(b))
  {
    SplitAtLineEnd(a, b);
    var la, lb := SplitLines(a), SplitLines(b);
    LinesNotEmpty(a);
    LinesNotEmpty(b);
    NoSegments(a);
    BufferNotEmpty(la);
    FirstLineStarts(b);
    CutRunsOn(la, lb);
  }

  lemma {:induction false} SeamCount(a: string, b: string)
    requires EndsLine(a)
    ensures |Segments(a + b)| + (if Seam(a, b) then 1 else 0) == |Segments(a)| + |Segments(b)|
    ensures !Seam(a, b) ==> multiset(Segments(a + b)) == multiset(Segments(a)) + multiset(Segments(b))
  {
    if Seam(a, b) {
      SegmentsRunOn(a, b);
    } else if a == "" {
      NoSegments("");
      assert a + b == b;
    } else {
      SegmentsOfBoth(a, b);
    }
  }

  // ---------- Conservation over histories ----------

  /** The segments found in the archives of the given days. */
  function Archived(archives: map<string, string>, stamps: seq<string>): multiset<string>
  {
    if stamps == [] then multiset{}
    else
      var last := stamps[|stamps| - 1];
      Archived(archives, stamps[..|stamps| - 1]) + Day(archives, last)
  }

  function Day(archives: map<string, string>, stamp: string): multiset<string>
  {
    if stamp in archives then multiset(Segments(archives[stamp])) else multiset{}
  }

  function Everything(f: Files, stamps: seq<string>): multiset<string>
    requires f.log.Some?
  {
    multiset(Segments(f.log.value)) + Archived(f.archives, stamps)
  }

  ghost predicate Distinct(stamps: seq<string>)
  {
    forall i, j :: 0 <= i < j < |stamps| ==> stamps[i] != stamps[j]
  }

  lemma {:induction false} ArchivedElsewhere(archives: map<string, string>, stamps: seq<string>, stamp: string, text: string)
    requires stamp !in stamps
    ensures Archived(archives[stamp := text], stamps) == Archived(archives, stamps)
  {
    if stamps != [] { ArchivedElsewhere(archives, stamps[..|stamps| - 1], stamp, text); }
  }

  lemma SwapLast(x: multiset<string>, d: multiset<string>, e: multiset<string>, a: multiset<string>, b: multiset<string>)
    requires a == x + d && b == x + e
    ensures b + d == a + e
  {
  }

  lemma SwapInFront(x: multiset<string>, y: multiset<string>, z: multiset<string>, d: multiset<string>, e: multiset<string>,
                    a: multiset<string>, b: multiset<string>)
    requires y + d == x + e && a == x + z && b == y + z
    ensures b + d == a + e
  {
    assert b + d == (y + d) + z && a + e == (x + e) + z;
  }

  /** Replacing the archive of one day replaces what is found in it. */
  lemma {:induction false} ArchivedUpdate(archives: map<string, string>, stamps: seq<string>, stamp: string, text: string)
    requires Distinct(stamps) && stamp in stamps
    ensures Archived(archives[stamp := text], stamps) + Day(archives, stamp)
         == Archived(archives, stamps) + multiset(Segments(text))
  {
    var n := |stamps| - 1;
    var archives', found := archives[stamp := text], multiset(Segments(text));
    var front, front' := Archived(archives, stamps[..n]), Archived(archives', stamps[..n]);
    var all, all' := Archived(archives, stamps), Archived(archives', stamps);
    if stamps[n] == stamp {
      ArchivedElsewhere(archives, stamps[..n], stamp, text);
      SwapLast(front, Day(archives, stamp), found, all, all');
    } else {
      ArchivedUpdate(archives, stamps[..n], stamp, text);
      SwapInFront(front, front', Day(archives, stamps[n]), Day(archives, stamp), found, all, all');
    }
  }

  lemma Cancel(a: multiset<string>, b: multiset<string>, c: multiset<string>)
    requires a + c == b + c
    ensures a == b
  {
    assert a == (a + c) - c && b == (b + c) - c;
  }

  /** The day's archive grows by the overflow's segments, one fewer if there is a seam. */
  lemma {:induction false} ArchiveGrows(f: Files, stamps: seq<string>, stamp: string, overflow: string)
    requires LineEnded(f) && Distinct(stamps) && stamp in stamps
    ensures var before, after := Archived(f.archives, stamps), Archived(f.archives[stamp := ArchiveOf(f, stamp) + overflow], stamps);
      && |after| + (if Seam(ArchiveOf(f, stamp), overflow) then 1 else 0) == |before| + |Segments(overflow)|
      && (!Seam(ArchiveOf(f, stamp), overflow) ==> after == before + multiset(Segments(overflow)))
  {
    var was := ArchiveOf(f, stamp);
    var before, after := Archived(f.archives, stamps), Archived(f.archives[stamp := was + overflow], stamps);
    ArchivedUpdate(f.archives, stamps, stamp, was + overflow);
    NoSegments("");
    assert Day(f.archives, stamp) == multiset(Segments(was));
    SeamCount(was, overflow);
    assert |after| + |Segments(was)| == |after + Day(f.archives, stamp)| == |before| + |Segments(was + overflow)|;
    if !Seam(was, overflow) {
      Cancel(after, before + multiset(Segments(overflow)), Day(f.archives, stamp));
    }
  }

  /** What an operation puts in. */
  function Added(op: Op): multiset<string>
  {
    if op.Insert? then multiset(Segments(op.entry)) else multiset{}
  }

  /** The operation puts a text that does not begin at a heading behind another one. */
  predicate Joins(f: Files, op: Op)
  {
    match op
    case Insert(entry) => f.log.Some? && Seam(entry, f.log.value)
    case Rotate(capKb, stamp) =>
      Rotation(f, capKb, stamp).Some? && Seam(ArchiveOf(f, stamp), Overflow(f.log.value, capKb * 1024))
  }

  lemma EntriesAppend(a: string, b: string)
    requires Entries(a) && Entries(b)
    ensures Entries(a + b)
  {
    if a == "" { assert a + b == b; }
    if b == "" { assert a + b == a; }
  }

  /** Inserting before the first line puts the text in front. */
  lemma {:induction false} InsertAtHead(text: string, entry: string)
    ensures InsertLine(Some(text), 0, entry) == Ok(entry + text)
  {
    var lines := SplitLines(text);
    LinesJoin(text);
    assert lines[..0] == [] && lines[0..] == lines;
    assert "" + entry + text == entry + text;
  }

  lemma {:induction false} LinesButLastEnd(t: string)
    ensures forall i :: 0 <= i < |SplitLines(t)| - 1 ==> EndsLine(SplitLines(t)[i])
    decreases |t|
  {
    if t != "" && FirstBreak(t) < |t| {
      LinesButLastEnd(t[FirstBreak(t) + 1..]);
    }
  }

  /** Every segment but the last ends its last line. */
  lemma SegmentsButLastEnd(t: string)
    ensures WholeLines(CutLines(SplitLines(t)).done)
  {
    var lines := SplitLines(t);
    if lines != [] {
      var n := |lines| - 1;
      LinesNotEmpty(t);
      LinesButLastEnd(t);
      SegmentsAreWhole(lines[..n]);
      var c := CutLines(lines[..n]);
      assert forall i :: 0 <= i < |c.done| ==> c.All()[i] == c.done[i];
    }
  }

  lemma LastSegmentEndsText(t: string)
    requires t != ""
    ensures Segments(t) != [] && (EndsLine(Segments(t)[|Segments(t)| - 1]) ==> EndsLine(t))
  {
    NoSegments(t);
    SegmentsJoin(t);
    LinesNotEmpty(t);
    BufferNotEmpty(SplitLines(t));
    var segments := Segments(t);
    assert Concat(segments) == Concat(segments[..|segments| - 1]) + segments[|segments| - 1];
  }

  /** Text put before entries keeps its segments apart from theirs exactly when it ends its
      last line: without the line break it runs into the entry that follows. */
  lemma HeadInsertSeparatesIff(entry: string, text: string)
    requires entry != "" && Entries(text) && text != ""
    ensures Segments(entry + text) == Segments(entry) + Segments(text) <==> EndsLine(entry)
  {
    if EndsLine(entry) {
      SegmentsOfBoth(entry, text);
    }
    if Segments(entry + text) == Segments(entry) + Segments(text) {
      var k := |Segments(entry)| - 1;
      LastSegmentEndsText(entry);
      NoSegments(text);
      SegmentsButLastEnd(entry + text);
      assert Segments(entry + text)[k] == Segments(entry)[k];
      assert CutLines(SplitLines(entry + text)).done[k] == Segments(entry)[k];
    }
  }

  /** Without its line break, a new entry and the one it is put before become one. */
  lemma EntriesRunTogether()
    ensures Segments("## a" + "## b\n") != Segments("## a") + Segments("## b\n")
  {
    HeadInsertSeparatesIff("## a", "## b\n");
  }

  /** The segments of every entry a history inserts. */
  function InsertedBy(ops: seq<Op>): multiset<string>
  {
    if ops == [] then multiset{}
    else
      var last := ops[|ops| - 1];
      InsertedBy(ops[..|ops| - 1]) + Added(last)
  }

  /** An operation keeps every segment and adds what it puts in, but for two that become one
      if it joins. */
  ghost predicate Accounts(f: Files, op: Op, stamps: seq<string>)
    requires f.log.Some?
  {
    var g := ApplyOp(f, op);
    && LineEnded(g)
    && |Everything(g, stamps)| + (if Joins(f, op) then 1 else 0) == |Everything(f, stamps)| + |Added(op)|
    && (!Joins(f, op) ==> Everything(g, stamps) == Everything(f, stamps) + Added(op))
  }

  lemma {:induction false} InsertResult(f: Files, entry: string)
    requires LineEnded(f) && EndsLine(entry)
    ensures ApplyOp(f, Insert(entry)) == f.(log := Some(entry + f.log.value))
    ensures LineEnded(f.(log := Some(entry + f.log.value)))
  {
    InsertAtHead(f.log.value, entry);
    assert EndsLine(entry + f.log.value);
  }

  lemma {:induction false} InsertAccounts(f: Files, entry: string, stamps: seq<string>)
    requires LineEnded(f) && ValidEntry(entry)
    ensures Accounts(f, Insert(entry), stamps)
  {
    var text := f.log.value;
    var t, m, both := multiset(Segments(text)), multiset(Segments(entry)), multiset(Segments(entry + text));
    InsertResult(f, entry);
    SeamCount(entry, text);
    assert m + t == t + m;
    PutIn(t, m, both, Archived(f.archives, stamps));
    assert Everything(ApplyOp(f, Insert(entry)), stamps) == both + Archived(f.archives, stamps);
  }

  lemma PutIn(t: multiset<string>, m: multiset<string>, both: multiset<string>, rest: multiset<string>)
    ensures both == m + t ==> both + rest == t + rest + m
  {
  }

  lemma {:induction false} RotationAccounts(f: Files, capKb: int, stamp: string, stamps: seq<string>)
    requires LineEnded(f) && Distinct(stamps) && stamp in stamps
    ensures Accounts(f, Rotate(capKb, stamp), stamps)
  {
    if Rotation(f, capKb, stamp).Some? {
      var text, cap := f.log.value, capKb * 1024;
      CutText(text, Keep(Segments(text), cap));
      MoveEndsLines(f, Kept(text, cap), Overflow(text, cap), stamp);
      ArchiveGrows(f, stamps, stamp, Overflow(text, cap));
      assert multiset(Segments(text)) == multiset(Segments(Kept(text, cap))) + multiset(Segments(Overflow(text, cap)));
    }
  }

  lemma {:induction false} MoveEndsLines(f: Files, kept: string, overflow: string, stamp: string)
    requires LineEnded(f) && EndsLine(kept) && EndsLine(overflow)
    ensures LineEnded(Files(Some(kept), f.archives[stamp := ArchiveOf(f, stamp) + overflow]))
  {
    assert EndsLine(ArchiveOf(f, stamp) + overflow);
  }

  predicate ValidOps(ops: seq<Op>, stamps: seq<string>)
  {
    forall i :: 0 <= i < |ops| ==> ValidOp(ops[i]) && (ops[i].Rotate? ==> ops[i].stamp in stamps)
  }

  lemma {:induction false} OpAccounts(f: Files, op: Op, stamps: seq<string>)
    requires LineEnded(f) && Distinct(stamps) && ValidOps([op], stamps)
    ensures Accounts(f, op, stamps)
  {
    assert ValidOp([op][0]);
    match op {
      case Insert(entry) => InsertAccounts(f, entry, stamps);
      case Rotate(capKb, stamp) => RotationAccounts(f, capKb, stamp, stamps);
    }
  }

  /** How often a history joins. */
  function Seams(f: Files, ops: seq<Op>): nat
  {
    if ops == [] then 0
    else
      var n := |ops| - 1;
      Seams(f, ops[..n]) + if Joins(ApplyAll(f, ops[..n]), ops[n]) then 1 else 0
  }

  lemma LastOp(ops: seq<Op>, stamps: seq<string>)
    requires ops != [] && ValidOps(ops, stamps)
    ensures ValidOps(ops[..|ops| - 1], stamps) && ValidOps([ops[|ops| - 1]], stamps)
  {
  }

  lemma {:induction false} HistoryAccounts(f: Files, ops: seq<Op>, stamps: seq<string>)
    requires LineEnded(f) && Distinct(stamps) && ValidOps(ops, stamps)
    ensures var g := ApplyAll(f, ops);
      && LineEnded(g)
      && |Everything(g, stamps)| + Seams(f, ops) == |Everything(f, stamps)| + |InsertedBy(ops)|
      && (Seams(f, ops) == 0 ==> Everything(g, stamps) == Everything(f, stamps) + InsertedBy(ops))
  {
    if ops != [] {
      var n := |ops| - 1;
      LastOp(ops, stamps);
      HistoryAccounts(f, ops[..n], stamps);
      OpAccounts(ApplyAll(f, ops[..n]), ops[n], stamps);
    }
  }

  /** From any log and archives that end their last lines, over any history of entries put at
      the head of the log and rotations, on whatever days and with whatever caps: the live log
      and the archives together hold exactly the segments there were and those put in, each as
      often as before, if and only if no operation put a text without a heading behind another. */
  lemma {:induction false} HistoryConservesIff(f: Files, ops: seq<Op>, stamps: seq<string>)
    requires LineEnded(f) && Distinct(stamps) && ValidOps(ops, stamps)
    ensures LineEnded(ApplyAll(f, ops))
    ensures Everything(ApplyAll(f, ops), stamps) == Everything(f, stamps) + InsertedBy(ops) <==> Seams(f, ops) == 0
  {
    HistoryAccounts(f, ops, stamps);
  }

  // ---------- When there are no seams ----------

  /** A rotation of a log of entries moves entries. */
  lemma {:induction false} RotationMovesEntries(f: Files, capKb: int, stamp: string)
    requires Headed(f)
    ensures Headed(Rotated(f, capKb, stamp)) && !Joins(f, Rotate(capKb, stamp))
    ensures OnlyEntries(f) ==> OnlyEntries(Rotated(f, capKb, stamp))
  {
    if Rotation(f, capKb, stamp).Some? {
      var text, cap := f.log.value, capKb * 1024;
      CutEntries(text, Keep(Segments(text), cap));
      MoveEndsLines(f, Kept(text, cap), Overflow(text, cap), stamp);
      if OnlyEntries(f) {
        EntriesAppend(ArchiveOf(f, stamp), Overflow(text, cap));
      }
    }
  }

  /** Once an entry was put at its head, a log holds only entries, whatever it held before. */
  lemma {:induction false} InsertionHeads(f: Files, entry: string)
    requires LineEnded(f) && ValidEntry(entry)
    ensures Headed(ApplyOp(f, Insert(entry)))
    ensures OnlyEntries(f) ==> OnlyEntries(ApplyOp(f, Insert(entry)))
  {
    InsertResult(f, entry);
    assert IsHeading(entry + f.log.value);
  }

  lemma OpStaysHeaded(f: Files, op: Op)
    requires Headed(f) && ValidOp(op)
    ensures Headed(ApplyOp(f, op)) && !Joins(f, op)
    ensures OnlyEntries(f) ==> OnlyEntries(ApplyOp(f, op))
  {
    match op {
      case Insert(entry) => InsertionHeads(f, entry);
      case Rotate(capKb, stamp) => RotationMovesEntries(f, capKb, stamp);
    }
  }

  lemma {:induction false} HeadedHasNoSeams(f: Files, ops: seq<Op>, stamps: seq<string>)
    requires Headed(f) && ValidOps(ops, stamps)
    ensures Headed(ApplyAll(f, ops)) && Seams(f, ops) == 0
    ensures OnlyEntries(f) ==> OnlyEntries(ApplyAll(f, ops))
  {
    if ops != [] {
      var n := |ops| - 1;
      LastOp(ops, stamps);
      HeadedHasNoSeams(f, ops[..n], stamps);
      assert ValidOp(ops[n]);
      OpStaysHeaded(ApplyAll(f, ops[..n]), ops[n]);
    }
  }

  /** A log of entries keeps every one of them over any history. */
  lemma {:induction false} HistoryConserves(f: Files, ops: seq<Op>, stamps: seq<string>)
    requires Headed(f) && Distinct(stamps) && ValidOps(ops, stamps)
    ensures var g := ApplyAll(f, ops);
      && Headed(g) && (OnlyEntries(f) ==> OnlyEntries(g))
      && Everything(g, stamps) == Everything(f, stamps) + InsertedBy(ops)
  {
    HeadedHasNoSeams(f, ops, stamps);
    HistoryConservesIff(f, ops, stamps);
  }

  /** A history that begins with an insertion has one seam if the log began with a preamble,
      which runs into the entry put before it (`SegmentsRunOn`), and none otherwise. */
  lemma {:induction false} OnlyThePreambleJoins(f: Files, ops: seq<Op>, stamps: seq<string>)
    requires LineEnded(f) && ValidOps(ops, stamps) && ops != [] && ops[0].Insert?
    ensures Headed(ApplyAll(f, ops))
    ensures Seams(f, ops) == if Seam(ops[0].entry, f.log.value) then 1 else 0
  {
    var n := |ops| - 1;
    assert ValidOp(ops[0]) && ValidOp(ops[n]);
    if n == 0 {
      assert ops[..0] == [];
      InsertionHeads(f, ops[0].entry);
    } else {
      LastOp(ops, stamps);
      assert ops[..n][0] == ops[0];
      OnlyThePreambleJoins(f, ops[..n], stamps);
      OpStaysHeaded(ApplyAll(f, ops[..n]), ops[n]);
    }
  }

  // ---------- Lines, headings and bytes, by character ----------

  /** The characters that end a line, by code point. */
  lemma BreaksAre(c: char)
    ensures IsBreak(c) <==> (c as int) in {10, 11, 12, 28, 29, 30, 133, 8232, 8233}
  {
  }

  /** A heading line begins with two number signs and a blank. */
  lemma HeadingIs(line: string)
    ensures IsHeading(line) <==> |line| >= 3 && line[0] == '#' && line[1] == '#' && line[2] == ' '
  {
  }

  /** Lines as they come out of a text: not empty, a line break at the end of each but perhaps
      the last, and none inside. */
  ghost predicate Lined(lines: seq<string>)
  {
    && (forall i :: 0 <= i < |lines| ==> lines[i] != "" && forall j :: 0 <= j < |lines[i]| - 1 ==> !IsBreak(lines[i][j]))
    && forall i :: 0 <= i < |lines| - 1 ==> IsBreak(lines[i][|lines[i]| - 1])
  }

  lemma LinedRest(lines: seq<string>)
    requires Lined(lines) && lines != []
    ensures Lined(lines[1..])
  {
    forall i | 0 <= i < |lines| - 1
      ensures lines[1..][i] != "" && forall j :: 0 <= j < |lines[1..][i]| - 1 ==> !IsBreak(lines[1..][i][j])
    {
      assert lines[1..][i] == lines[i + 1];
    }
    forall i | 0 <= i < |lines| - 2 ensures IsBreak(lines[1..][i][|lines[1..][i]| - 1]) {
      assert lines[1..][i] == lines[i + 1];
    }
  }

  lemma {:induction false} OneLine(line: string)
    requires line != "" && forall j :: 0 <= j < |line| - 1 ==> !IsBreak(line[j])
    ensures SplitLines(line) == [line]
  {
    var i := FirstBreak(line);
    if i < |line| {
      assert i == |line| - 1 && line[..i + 1] == line && line[i + 1..] == "";
      SplitStep(line);
    }
  }

  /** The lines of a text are the only such lines that join to it. */
  lemma {:induction false} LinesAreUnique(lines: seq<string>)
    requires Lined(lines)
    ensures SplitLines(Concat(lines)) == lines
  {
    if lines != [] {
      var first, rest := lines[0], lines[1..];
      assert lines == [first] + rest;
      ConcatCons(first, rest);
      LinedRest(lines);
      LinesAreUnique(rest);
      OneLine(first);
      if rest == [] {
        assert first + Concat(rest) == first;
      } else {
        SplitAtLineEnd(first, Concat(rest));
      }
    }
  }

  lemma {:induction false} LinesAreLined(t: string)
    ensures Lined(SplitLines(t))
    decreases |t|
  {
    if t != "" {
      var i := FirstBreak(t);
      if i < |t| {
        var rest := SplitLines(t[i + 1..]);
        SplitStep(t);
        LinesAreLined(t[i + 1..]);
        LinedMore(t[..i + 1], rest);
      }
    }
  }

  lemma LinedMore(line: string, rest: seq<string>)
    requires line != "" && (forall j :: 0 <= j < |line| - 1 ==> !IsBreak(line[j])) && IsBreak(line[|line| - 1]) && Lined(rest)
    ensures Lined([line] + rest)
  {
    var all := [line] + rest;
    forall i | 0 <= i < |all| ensures all[i] != "" && forall j :: 0 <= j < |all[i]| - 1 ==> !IsBreak(all[i][j]) {
      if i > 0 { assert all[i] == rest[i - 1]; }
    }
    forall i | 0 <= i < |all| - 1 ensures IsBreak(all[i][|all[i]| - 1]) {
      if i > 0 { assert all[i] == rest[i - 1]; }
    }
  }

  lemma LinedPart(lines: seq<string>, k: nat)
    requires Lined(lines) && k <= |lines|
    ensures Lined(lines[..k]) && Lined(lines[k..])
  {
    forall i | 0 <= i < |lines| - k ensures lines[k..][i] != "" && forall j :: 0 <= j < |lines[k..][i]| - 1 ==> !IsBreak(lines[k..][i][j]) {
      assert lines[k..][i] == lines[k + i];
    }
    forall i | 0 <= i < |lines| - k - 1 ensures IsBreak(lines[k..][i][|lines[k..][i]| - 1]) {
      assert lines[k..][i] == lines[k + i];
    }
  }

  /** An insertion before line `at` splits the text behind its first `at` lines and puts the new
      text in between; a missing file and a line that is not there are the only errors. */
  lemma {:induction false} InsertStands(text: string, at: int, added: string) returns (front: string, back: string)
    ensures 0 <= at <= |SplitLines(text)| ==>
      && front + back == text && InsertLine(Some(text), at, added) == Ok(front + added + back)
      && SplitLines(front) == SplitLines(text)[..at] && SplitLines(back) == SplitLines(text)[at..]
    ensures at < 0 || at > |SplitLines(text)| ==> InsertLine(Some(text), at, added) == Err(OutOfRange)
    ensures InsertLine(None, at, added) == Err(NoSuchFile)
  {
    front, back := "", "";
    if 0 <= at <= |SplitLines(text)| {
      var lines := SplitLines(text);
      LinesAreLined(text);
      LinedPart(lines, at);
      front, back := Concat(lines[..at]), Concat(lines[at..]);
      LinesAreUnique(lines[..at]);
      LinesAreUnique(lines[at..]);
      LinesJoin(text);
      ConcatSplit(lines, at);
    }
  }

  /** The UTF-8 form of a character. */
  function Utf8(c: char): seq<int>
  {
    var u := c as int;
    if u < 128 then [u]
    else if u < 2048 then [192 + u / 64, 128 + u % 64]
    else if u < 65536 then [224 + u / 4096, 128 + u / 64 % 64, 128 + u % 64]
    else [240 + u / 262144, 128 + u / 4096 % 64, 128 + u / 64 % 64, 128 + u % 64]
  }

  /** Reading it back, by the number of bytes its first byte announces. */
  function FromUtf8(b: seq<int>): int
  {
    if |b| == 1 && 0 <= b[0] < 128 then b[0]
    else if |b| == 2 && 192 <= b[0] < 224 then (b[0] - 192) * 64 + (b[1] - 128)
    else if |b| == 3 && 224 <= b[0] < 240 then (b[0] - 224) * 4096 + (b[1] - 128) * 64 + (b[2] - 128)
    else if |b| == 4 && 240 <= b[0] < 248 then (b[0] - 240) * 262144 + (b[1] - 128) * 4096 + (b[2] - 128) * 64 + (b[3] - 128)
    else -1
  }

  lemma SixBits(u: nat)
    ensures u == u / 64 * 64 + u % 64
    ensures u / 64 == u / 4096 * 64 + u / 64 % 64
    ensures u / 4096 == u / 262144 * 64 + u / 4096 % 64
  {
  }

  lemma Utf8Back(c: char)
    ensures FromUtf8(Utf8(c)) == c as int
  {
    SixBits(c as int);
  }

  /** The size a character counts with is the number of its bytes in UTF-8. */
  lemma CharBytesIsUtf8(c: char)
    ensures CharBytes(c) == |Utf8(c)| && FromUtf8(Utf8(c)) == c as int
  {
    Utf8Back(c);
  }

  /** And the size of a text is the sum over its characters. */
  lemma BytesOfMore(t: string, c: char)
    ensures Bytes("") == 0 && Bytes(t + [c]) == Bytes(t) + |Utf8(c)|
  {
    CharBytesIsUtf8(c);
    assert (t + [c])[..|t|] == t;
  }
}
