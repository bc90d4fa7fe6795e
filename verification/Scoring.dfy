/** Scoring requests in batches: a greedy order-preserving partition under a byte budget,
    and the realignment of each batch's results by item id. */
module Scoring {
  import opened Common

  // ---------- The partition ----------

  /** A request with the size of its serialized line in bytes. */
  datatype Item = Item(prompt: string, continuation: string, bytes: nat)

  function Size(batch: seq<Item>): nat
  {
    if batch == [] then 0 else Size(batch[..|batch| - 1]) + batch[|batch| - 1].bytes
  }

  predicate Fits(batch: seq<Item>, budget: int)
  {
    batch != [] && (|batch| == 1 || Size(batch) <= budget)
  }

  /** An order-preserving partition into non-empty batches that fit or are singletons. */
  ghost predicate Partition(batches: seq<seq<Item>>, items: seq<Item>, budget: int)
  {
    Concat(batches) == items && forall i :: 0 <= i < |batches| ==> Fits(batches[i], budget)
  }

  /** No batch could have taken the first item of the next one. */
  ghost predicate Packed(batches: seq<seq<Item>>, budget: int)
  {
    forall i :: 0 < i < |batches| ==> Overflows(batches, i, budget)
  }

  predicate Overflows(batches: seq<seq<Item>>, i: nat, budget: int)
    requires 0 < i < |batches|
  {
    batches[i] != [] && Size(batches[i - 1] + [batches[i][0]]) > budget
  }

  lemma SizeAppend(batch: seq<Item>, item: Item)
    ensures Size(batch + [item]) == Size(batch) + item.bytes
  {
    assert (batch + [item])[..|batch|] == batch;
  }

  /** The pending batch extends the ones already yielded to a packed partition of `items`. */
  ghost predicate Pending(done: seq<seq<Item>>, batch: seq<Item>, items: seq<Item>, budget: int)
  {
    && Concat(done) + batch == items
    && (forall i :: 0 <= i < |done| ==> Fits(done[i], budget))
    && Packed(done, budget)
    && (batch != [] ==> Size(batch) <= budget)
    && (batch != [] && done != [] ==> Size(done[|done| - 1] + [batch[0]]) > budget)
    && (batch == [] && done != [] ==> Size(done[|done| - 1]) > budget)
  }

  lemma Flush(done: seq<seq<Item>>, batch: seq<Item>, items: seq<Item>, budget: int)
    requires Pending(done, batch, items, budget) && batch != []
    ensures Partition(done + [batch], items, budget) && Packed(done + [batch], budget)
  {
    ConcatOne(done, batch);
    forall i | 0 < i < |done| + 1 ensures Overflows(done + [batch], i, budget) {
      if i < |done| { assert Overflows(done, i, budget); }
    }
  }

  lemma NothingPending(done: seq<seq<Item>>, items: seq<Item>, budget: int)
    requires Pending(done, [], items, budget)
    ensures Partition(done, items, budget) && Packed(done, budget)
  {
    assert Concat(done) + [] == Concat(done);
  }

  lemma Oversized(done: seq<seq<Item>>, items: seq<Item>, item: Item, budget: int)
    requires Partition(done, items, budget) && Packed(done, budget) && item.bytes > budget
    ensures Pending(done + [[item]], [], items + [item], budget)
  {
    ConcatOne(done, [item]);
    SizeAppend([], item);
    forall i | 0 < i < |done| + 1 ensures Overflows(done + [[item]], i, budget) {
      if i < |done| { assert Overflows(done, i, budget); } else { SizeAppend(done[|done| - 1], item); }
    }
  }

  lemma Appended(done: seq<seq<Item>>, batch: seq<Item>, items: seq<Item>, item: Item, budget: int)
    requires Pending(done, batch, items, budget) && Size(batch) + item.bytes <= budget
    ensures Pending(done, batch + [item], items + [item], budget)
  {
    SizeAppend(batch, item);
    if done != [] { SizeAppend(done[|done| - 1], item); }
  }

  lemma StartedAfter(done: seq<seq<Item>>, batch: seq<Item>, items: seq<Item>, item: Item, budget: int)
    requires Pending(done, batch, items, budget) && batch != []
    requires item.bytes <= budget < Size(batch) + item.bytes
    ensures Pending(done + [batch], [] + [item], items + [item], budget)
  {
    assert [] + [item] == [item];
    Flush(done, batch, items, budget);
    SizeAppend([], item);
    SizeAppend(batch, item);
  }

  /** Places one more item. An item over the budget flushes the pending batch and goes alone;
      one that would push the batch over it starts a new batch. */
  method Place(done: seq<seq<Item>>, pending: seq<Item>, pendingBytes: nat, item: Item, budget: int, ghost items: seq<Item>)
    returns (batches: seq<seq<Item>>, batch: seq<Item>, batchBytes: nat)
    requires Pending(done, pending, items, budget) && pendingBytes == Size(pending)
    ensures Pending(batches, batch, items + [item], budget) && batchBytes == Size(batch)
  {
    batches, batch, batchBytes := done, pending, pendingBytes;
    if item.bytes > budget {
      if batch != [] {
        Flush(batches, batch, items, budget);
        batches := batches + [batch];
        batch, batchBytes := [], 0;
      } else {
        NothingPending(batches, items, budget);
      }
      Oversized(batches, items, item, budget);
      batches := batches + [[item]];
      return;
    }
    if batch != [] && batchBytes + item.bytes > budget {
      StartedAfter(batches, batch, items, item, budget);
      batches := batches + [batch];
      batch, batchBytes := [], 0;
    } else {
      Appended(batches, batch, items, item, budget);
    }
    SizeAppend(batch, item);
    batch := batch + [item];
    batchBytes := batchBytes + item.bytes;
  }

  /** Splits `items` into batches under the budget; an item that exceeds it goes alone. */
  method BatchUnderByteBudget(items: seq<Item>, budget: int) returns (batches: seq<seq<Item>>)
    ensures Partition(batches, items, budget) && Packed(batches, budget)
  {
    batches := [];
    var batch: seq<Item>, batchBytes := [], 0;
    for i := 0 to |items|
      invariant Pending(batches, batch, items[..i], budget) && batchBytes == Size(batch)
    {
      assert items[..i + 1] == items[..i] + [items[i]];
      batches, batch, batchBytes := Place(batches, batch, batchBytes, items[i], budget, items[..i]);
    }
    assert items[..|items|] == items;
    if batch != [] {
      Flush(batches, batch, items, budget);
      batches := batches + [batch];
    } else {
      NothingPending(batches, items, budget);
    }
  }

  // ---------- Optimality ----------

  /** Where the first `k` batches end in the list of items. */
  function End<T>(parts: seq<seq<T>>, k: nat): nat
    requires k <= |parts|
  {
    if k == 0 then 0 else End(parts, k - 1) + |parts[k - 1]|
  }

  lemma {:induction false} EndIsPrefix<T>(parts: seq<seq<T>>, k: nat)
    requires k <= |parts|
    ensures End(parts, k) <= |Concat(parts)| && Concat(parts)[..End(parts, k)] == Concat(parts[..k])
    ensures k == |parts| ==> End(parts, k) == |Concat(parts)|
    decreases |parts|
  {
    var n := |parts| - 1;
    if k == |parts| {
      assert parts[..k] == parts;
      if parts != [] {
        EndIsPrefix(parts[..n], n);
        SameEnd(parts, n, n);
      }
    } else {
      EndIsPrefix(parts[..n], k);
      SameEnd(parts, n, k);
      assert parts[..n][..k] == parts[..k];
      assert Concat(parts)[..End(parts, k)] == Concat(parts[..n])[..End(parts, k)];
    }
  }

  lemma {:induction false} SameEnd<T>(parts: seq<seq<T>>, n: nat, k: nat)
    requires k <= n <= |parts|
    ensures End(parts[..n], k) == End(parts, k)
  {
    if k > 0 { SameEnd(parts, n, k - 1); }
  }

  /** Batch `k` is the stretch of items between the ends of its neighbours. */
  lemma BatchIsStretch(parts: seq<seq<Item>>, items: seq<Item>, k: nat)
    requires Concat(parts) == items && k < |parts|
    ensures End(parts, k + 1) <= |items| && parts[k] == items[End(parts, k)..End(parts, k + 1)]
  {
    EndIsPrefix(parts, k);
    EndIsPrefix(parts, k + 1);
    assert parts[..k + 1] == parts[..k] + [parts[k]];
    ConcatOne(parts[..k], parts[k]);
    var cut := items[..End(parts, k + 1)];
    assert cut == Concat(parts[..k]) + parts[k];
    assert parts[k] == cut[End(parts, k)..];
  }

  lemma {:induction false} SizeMonotone(items: seq<Item>, lo: nat, lo': nat, hi: nat, hi': nat)
    requires lo <= lo' <= hi' <= hi <= |items|
    ensures Size(items[lo'..hi']) <= Size(items[lo..hi])
    decreases hi
  {
    if hi' < hi {
      assert items[lo..hi][..hi - lo - 1] == items[lo..hi - 1];
      SizeMonotone(items, lo, lo', hi - 1, hi');
    } else if lo' < hi' {
      assert items[lo..hi][..hi - lo - 1] == items[lo..hi - 1];
      assert items[lo'..hi'][..hi' - lo' - 1] == items[lo'..hi' - 1];
      SizeMonotone(items, lo, lo', hi - 1, hi' - 1);
    } else {
      assert items[lo'..hi'] == [];
    }
  }

  /** A stretch that covers a batch and the item after it does not fit if those do not. */
  lemma CoversTooMuch(items: seq<Item>, lo: nat, start: nat, end: nat, hi: nat, budget: int)
    requires lo <= start < end < hi <= |items|
    requires Size(items[start..end] + [items[end]]) > budget
    ensures !Fits(items[lo..hi], budget)
  {
    assert items[start..end + 1] == items[start..end] + [items[end]];
    SizeMonotone(items, lo, start, hi, end + 1);
  }

  /** Where packed batch `k` ends, taking the next item would have been too much. */
  lemma PackedEnd(greedy: seq<seq<Item>>, items: seq<Item>, budget: int, k: nat)
    requires Concat(greedy) == items && Packed(greedy, budget) && 0 < k < |greedy| && greedy[k - 1] != []
    ensures End(greedy, k - 1) < End(greedy, k) < |items|
    ensures Size(items[End(greedy, k - 1)..End(greedy, k)] + [items[End(greedy, k)]]) > budget
  {
    BatchIsStretch(greedy, items, k - 1);
    BatchIsStretch(greedy, items, k);
    assert Overflows(greedy, k, budget);
  }

  /** A batch of `other` cannot start at or before a packed batch and end beyond it. */
  lemma PackedBatchReachesFar(greedy: seq<seq<Item>>, other: seq<seq<Item>>, items: seq<Item>, budget: int, k: nat)
    requires Concat(greedy) == items && Packed(greedy, budget) && Partition(other, items, budget)
    requires 0 < k < |greedy| && k <= |other| && greedy[k - 1] != []
    requires End(greedy, k - 1) >= End(other, k - 1)
    ensures End(greedy, k) >= End(other, k)
  {
    BatchIsStretch(other, items, k - 1);
    assert Fits(other[k - 1], budget);
    PackedEnd(greedy, items, budget, k);
    if End(greedy, k) < End(other, k) {
      CoversTooMuch(items, End(other, k - 1), End(greedy, k - 1), End(greedy, k), End(other, k), budget);
    }
  }

  /** The packed partition is never behind: its first `k` batches reach at least as far as
      the first `k` of any other. */
  lemma {:induction false} PackedStaysAhead(greedy: seq<seq<Item>>, other: seq<seq<Item>>, items: seq<Item>, budget: int, k: nat)
    requires Partition(greedy, items, budget) && Packed(greedy, budget) && Partition(other, items, budget)
    requires k <= |greedy| && k <= |other|
    ensures End(greedy, k) >= End(other, k)
  {
    if k == |greedy| {
      EndIsPrefix(greedy, k);
      EndIsPrefix(other, k);
    } else if k > 0 {
      PackedStaysAhead(greedy, other, items, budget, k - 1);
      assert Fits(greedy[k - 1], budget);
      PackedBatchReachesFar(greedy, other, items, budget, k);
    }
  }

  /** No order-preserving partition under the budget has fewer batches. */
  lemma GreedyIsOptimal(greedy: seq<seq<Item>>, other: seq<seq<Item>>, items: seq<Item>, budget: int)
    requires Partition(greedy, items, budget) && Packed(greedy, budget) && Partition(other, items, budget)
    ensures |greedy| <= |other|
  {
    if |other| < |greedy| {
      var k := |other|;
      PackedStaysAhead(greedy, other, items, budget, k);
      EndIsPrefix(other, k);
      BatchIsStretch(greedy, items, k);
    }
  }

  // ---------- Reading one batch's output ----------

  /** One line of the scorer's output: blank or not JSON; an object with an item id and
      choices, of which only the first one's log-probability matters; any other object; or a
      line the parser raises on. */
  datatype OutputLine = Noise | Row(id: int, logprobs: seq<real>) | OtherObject | Malformed

  datatype ScoreError = MalformedLine | WrongCount | MissingId | ScorerFailed

  /** The last score each id was given. */
  function RowsOf(lines: seq<OutputLine>): map<int, real>
  {
    if lines == [] then map[]
    else
      var rows := RowsOf(lines[..|lines| - 1]);
      match lines[|lines| - 1]
      case Row(id, logprobs) => if logprobs != [] then rows[id := logprobs[0]] else rows
      case _ => rows
  }

  ghost predicate Ids(rows: map<int, real>, n: nat)
  {
    forall id :: id in rows <==> 0 <= id < n
  }

  ghost function Upto(n: nat): (s: set<int>)
    ensures forall i :: i in s <==> 0 <= i < n
  {
    if n == 0 then {} else Upto(n - 1) + {n - 1}
  }

  lemma {:induction false} UptoCount(n: nat)
    ensures |Upto(n)| == n
  {
    if n > 0 { UptoCount(n - 1); }
  }

  /** As many rows as items and none missing leaves no room for another id. */
  lemma CountedIds(rows: map<int, real>, n: nat)
    ensures Ids(rows, n) <==> |rows| == n && forall i :: 0 <= i < n ==> i in rows
  {
    UptoCount(n);
    if Ids(rows, n) {
      assert rows.Keys == Upto(n);
    }
    if |rows| == n && forall i :: 0 <= i < n ==> i in rows {
      assert Upto(n) <= rows.Keys && |rows.Keys| == n;
      SubsetOfSameSize(Upto(n), rows.Keys);
    }
  }

  lemma SubsetOfSameSize(a: set<int>, b: set<int>)
    requires a <= b && |a| == |b|
    ensures a == b
  {
    assert |b - a| == 0;
  }

  /** What is raised about an output that cannot be read. */
  ghost function ParseComplaint(lines: seq<OutputLine>, n: nat): ScoreError
  {
    if Malformed in lines then MalformedLine else if |RowsOf(lines)| != n then WrongCount else MissingId
  }

  /** The scores of one batch in item order. It returns them exactly when no line is
      malformed and the scored ids are 0, 1, ..., n - 1. */
  method ParseScores(lines: seq<OutputLine>, n: nat) returns (r: Result<seq<real>, ScoreError>)
    ensures r.Ok? <==> Malformed !in lines && Ids(RowsOf(lines), n)
    ensures r.Ok? ==> |r.value| == n && forall i :: 0 <= i < n ==> r.value[i] == RowsOf(lines)[i]
    ensures r.Err? ==> r.error == ParseComplaint(lines, n)
  {
    var rows: map<int, real> := map[];
    for i := 0 to |lines|
      invariant rows == RowsOf(lines[..i]) && Malformed !in lines[..i]
    {
      assert lines[..i + 1][..i] == lines[..i];
      match lines[i] {
        case Row(id, logprobs) => if logprobs != [] { rows := rows[id := logprobs[0]]; }
        case Malformed => return Err(MalformedLine);
        case _ =>
      }
    }
    assert lines[..|lines|] == lines;
    CountedIds(rows, n);
    if |rows| != n {
      return Err(WrongCount);
    }
    var scores: seq<real> := [];
    for i := 0 to n
      invariant |scores| == i && forall j :: 0 <= j < i ==> j in rows && scores[j] == rows[j]
    {
      if i !in rows {
        return Err(MissingId);
      }
      scores := scores + [rows[i]];
    }
    r := Ok(scores);
  }

  /** The output of a scorer that answers each item of the batch at least once and always
      with its score, in any order and between any other lines. */
  ghost predicate Answers(lines: seq<OutputLine>, batch: seq<Item>, score: Item -> real)
  {
    && Malformed !in lines
    && (forall i :: 0 <= i < |lines| && lines[i].Row? && lines[i].logprobs != [] ==>
          0 <= lines[i].id < |batch| && lines[i].logprobs[0] == score(batch[lines[i].id]))
    && forall k :: 0 <= k < |batch| ==> Scored(lines, k)
  }

  ghost predicate Scored(lines: seq<OutputLine>, k: int)
  {
    exists i :: 0 <= i < |lines| && lines[i].Row? && lines[i].logprobs != [] && lines[i].id == k
  }

  /** Line `i` is the last one that scores `k`. */
  ghost predicate LastScore(lines: seq<OutputLine>, i: int, k: int)
  {
    && 0 <= i < |lines| && lines[i].Row? && lines[i].logprobs != [] && lines[i].id == k
    && forall j :: i < j < |lines| && lines[j].Row? && lines[j].logprobs != [] ==> lines[j].id != k
  }

  /** An id has a row exactly if some line scores it, and its score is the first log-probability
      of the last such line. */
  lemma {:induction false} RowsComeFromLines(lines: seq<OutputLine>, k: int)
    ensures k in RowsOf(lines) <==> Scored(lines, k)
    ensures k in RowsOf(lines) ==> exists i :: LastScore(lines, i, k) && RowsOf(lines)[k] == lines[i].logprobs[0]
  {
    if lines != [] {
      var n := |lines| - 1;
      var front := lines[..n];
      RowsComeFromLines(front, k);
      assert forall i :: 0 <= i < n ==> lines[i] == front[i];
      if lines[n].Row? && lines[n].logprobs != [] && lines[n].id == k {
        assert LastScore(lines, n, k);
      } else if k in RowsOf(front) {
        var i :| LastScore(front, i, k) && RowsOf(front)[k] == front[i].logprobs[0];
        assert LastScore(lines, i, k);
      }
    }
  }

  function Scores(items: seq<Item>, score: Item -> real): seq<real>
  {
    seq(|items|, i requires 0 <= i < |items| => score(items[i]))
  }

  lemma AnswersAreRead(lines: seq<OutputLine>, batch: seq<Item>, score: Item -> real)
    requires Answers(lines, batch, score)
    ensures Ids(RowsOf(lines), |batch|)
    ensures forall k :: 0 <= k < |batch| ==> RowsOf(lines)[k] == score(batch[k])
  {
    forall k ensures k in RowsOf(lines) <==> 0 <= k < |batch| {
      RowsComeFromLines(lines, k);
    }
    forall k | 0 <= k < |batch| ensures RowsOf(lines)[k] == score(batch[k]) {
      RowsComeFromLines(lines, k);
    }
  }

  // ---------- The whole call ----------

  /** One run of the scorer on one batch. */
  datatype Process = Process(exitCode: int, lines: seq<OutputLine>)

  /** The adapter takes this process for a complete answer to a batch of `n` items. */
  ghost predicate Usable(p: Process, n: nat)
  {
    p.exitCode == 0 && Malformed !in p.lines && Ids(RowsOf(p.lines), n)
  }

  /** What the adapter raises about such a process. */
  ghost function Complaint(p: Process, n: nat): ScoreError
  {
    if p.exitCode != 0 then ScorerFailed else ParseComplaint(p.lines, n)
  }

  type Scorer = (nat, seq<Item>) -> Process

  /** The k-th invocation answers the k-th batch, for the first `n` batches. */
  ghost predicate Faithful(scorer: Scorer, batches: seq<seq<Item>>, n: nat, score: Item -> real)
    requires n <= |batches|
  {
    forall k :: 0 <= k < n ==>
      scorer(k, batches[k]).exitCode == 0 && Answers(scorer(k, batches[k]).lines, batches[k], score)
  }

  /** Invocation `k` is the first that is not usable, and this is the complaint about it. */
  ghost predicate Fails(scorer: Scorer, batches: seq<seq<Item>>, k: nat, error: ScoreError)
    requires k < |batches|
  {
    && !Usable(scorer(k, batches[k]), |batches[k]|) && error == Complaint(scorer(k, batches[k]), |batches[k]|)
    && forall j :: 0 <= j < k ==> Usable(scorer(j, batches[j]), |batches[j]|)
  }

  lemma FailsFirst(scorer: Scorer, batches: seq<seq<Item>>, k: nat, error: ScoreError)
    requires k < |batches| && forall j :: 0 <= j < k ==> Usable(scorer(j, batches[j]), |batches[j]|)
    requires !Usable(scorer(k, batches[k]), |batches[k]|) && error == Complaint(scorer(k, batches[k]), |batches[k]|)
    ensures Fails(scorer, batches, k, error)
  {
  }

  lemma ScoresAppend(a: seq<Item>, b: seq<Item>, score: Item -> real)
    ensures Scores(a + b, score) == Scores(a, score) + Scores(b, score)
  {
  }

  /** `scorer(k, batch)` is what the k-th invocation does. When each invocation answers its
      batch, the result is the score of each request at the position of the request, whatever
      the budget; and there is a result exactly when every invocation is usable. */
  method LogLikelihood(items: seq<Item>, budget: int, scorer: Scorer, ghost score: Item -> real)
    returns (r: Result<seq<real>, ScoreError>, ghost batches: seq<seq<Item>>)
    ensures Partition(batches, items, budget)
    ensures Faithful(scorer, batches, |batches|, score) ==> r == Ok(Scores(items, score))
    ensures r.Ok? <==> forall k :: 0 <= k < |batches| ==> Usable(scorer(k, batches[k]), |batches[k]|)
    ensures r.Ok? ==> |r.value| == |items|
    ensures r.Err? ==> exists k :: 0 <= k < |batches| && Fails(scorer, batches, k, r.error)
  {
    batches := [];
    if items == [] {
      assert Scores([], score) == [];
      return Ok([]), [];
    }
    var parts := BatchUnderByteBudget(items, budget);
    batches := parts;
    var logprobs: seq<real> := [];
    for i := 0 to |parts|
      invariant |logprobs| == |Concat(parts[..i])|
      invariant Faithful(scorer, parts, i, score) ==> logprobs == Scores(Concat(parts[..i]), score)
      invariant forall k :: 0 <= k < i ==> Usable(scorer(k, parts[k]), |parts[k]|)
    {
      var batch := parts[i];
      assert parts[..i + 1] == parts[..i] + [batch];
      ConcatOne(parts[..i], batch);
      ScoresAppend(Concat(parts[..i]), batch, score);
      var process := scorer(i, batch);
      if Faithful(scorer, parts, i + 1, score) {
        AnswersAreRead(process.lines, batch, score);
      }
      if process.exitCode != 0 {
        FailsFirst(scorer, parts, i, ScorerFailed);
        return Err(ScorerFailed), parts;
      }
      var parsed := ParseScores(process.lines, |batch|);
      if parsed.Err? {
        FailsFirst(scorer, parts, i, parsed.error);
        return Err(parsed.error), parts;
      }
      assert Faithful(scorer, parts, i + 1, score) ==> parsed.value == Scores(batch, score);
      logprobs := logprobs + parsed.value;
    }
    assert parts[..|parts|] == parts;
    r := Ok(logprobs);
  }
}
