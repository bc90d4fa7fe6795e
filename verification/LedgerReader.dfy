/** The reader: it checks one run's file line by line and rebuilds its receipts. */
module LedgerReader {
  import opened Common
  import opened LedgerRecords

  datatype Receipt = Receipt(
    receipt: string, run: string, role: string, parent: Option<string>, dispatchedAt: Time,
    description: string, completedAt: Option<Time>, isError: bool, attests: seq<Attest>,
    dictated: seq<Attest>, background: bool)

  datatype RunInfo = RunInfo(isSealed: bool, sandbox: string, openedAt: Time)

  datatype Error =
    | BadJson | BadRecord | BadMac | WrongRun | ChainBroken | AfterSeal
    | DuplicateReceipt | NoOpenDispatch | SealCount | UnknownKind

  /** The reader's variables after some lines of the file of `run`. */
  datatype Scan = Scan(prev: Mac, expected: nat, dispatches: nat, isSealed: bool, info: RunInfo,
                       receipts: map<string, Receipt>)

  function Start(run: string): Scan
  {
    Scan(Genesis(run), 0, 0, false, RunInfo(false, "unknown", 0.0), map[])
  }

  function NewReceipt(run: string, b: Body): Receipt
    requires b.kind.Dispatch?
  {
    Receipt(b.kind.receipt, run, b.kind.role, b.kind.parent, b.ts, b.kind.description,
            None, false, [], b.kind.dictated, b.kind.background)
  }

  function Closed(r: Receipt, b: Body): Receipt
    requires b.kind.Complete?
  {
    r.(completedAt := Some(b.ts), isError := b.kind.isError, attests := b.kind.attests)
  }

  /** The checks every line goes through, in the reader's order. `key` is absent when only the
      chain is to be checked. */
  function CheckLine(run: string, key: Option<Key>, s: Scan, line: Line): Option<Error>
  {
    match line
    case NotJson => Some(BadJson)
    case NotRecord => Some(BadRecord)
    case Rec(r) =>
      if key.Some? && r.mac != Hmac(key.value, r.body) then Some(BadMac)
      else if r.body.run != run then Some(WrongRun)
      else if r.body.seqNo != s.expected || r.body.prev != s.prev then Some(ChainBroken)
      else if s.isSealed then Some(AfterSeal)
      else None
  }

  /** One line. `others` are the receipt ids already taken by other runs of the ledger. */
  function Step(run: string, key: Option<Key>, others: set<string>, s0: Scan, line: Line): Result<Scan, Error>
  {
    match CheckLine(run, key, s0, line)
    case Some(e) => Err(e)
    case None =>
      var b := line.record.body;
      var s := s0.(prev := line.record.mac, expected := s0.expected + 1);
      match b.kind
      case Open(sandbox, _) => Ok(s.(info := s.info.(sandbox := sandbox, openedAt := b.ts)))
      case Dispatch(id, _, _, _, _, _, _, _) =>
        if id in others || id in s.receipts then Err(DuplicateReceipt)
        else Ok(s.(dispatches := s.dispatches + 1, receipts := s.receipts[id := NewReceipt(run, b)]))
      case Complete(id, _, _, _) =>
        if id !in s.receipts || s.receipts[id].completedAt.Some? then Err(NoOpenDispatch)
        else Ok(s.(receipts := s.receipts[id := Closed(s.receipts[id], b)]))
      case Seal(dispatches, _, _) =>
        if dispatches != s.dispatches then Err(SealCount)
        else Ok(s.(isSealed := true, info := s.info.(isSealed := true)))
      case Unknown(_) => Err(UnknownKind)
  }

  function ScanAll(run: string, key: Option<Key>, others: set<string>, lines: seq<Line>): Result<Scan, Error>
  {
    if lines == [] then Ok(Start(run))
    else
      match ScanAll(run, key, others, lines[..|lines| - 1])
      case Err(e) => Err(e)
      case Ok(s) => Step(run, key, others, s, lines[|lines| - 1])
  }

  // ---------- The ledger object ----------

  class Ledger {
    var receipts: map<string, Receipt>
    var runs: map<string, RunInfo>
    const authenticated: bool

    constructor (authenticated: bool)
      ensures receipts == map[] && runs == map[] && this.authenticated == authenticated
    {
      receipts, runs := map[], map[];
      this.authenticated := authenticated;
    }

    function Value(): LedgerValue
      reads this
    {
      LedgerValue(receipts, runs)
    }
  }

  datatype LedgerValue = LedgerValue(receipts: map<string, Receipt>, runs: map<string, RunInfo>)

  /** No receipt of the ledger belongs to `run`: its file has not been read yet. */
  ghost predicate NotYetRead(run: string, receipts: map<string, Receipt>)
  {
    forall id :: id in receipts ==> receipts[id].run != run
  }

  lemma {:induction false} ErrorStays(run: string, key: Option<Key>, others: set<string>, lines: seq<Line>, i: nat)
    requires i <= |lines| && ScanAll(run, key, others, lines[..i]).Err?
    ensures ScanAll(run, key, others, lines) == ScanAll(run, key, others, lines[..i])
    decreases |lines|
  {
    if i == |lines| {
      assert lines[..i] == lines;
    } else {
      var front := lines[..|lines| - 1];
      assert front[..i] == lines[..i];
      ErrorStays(run, key, others, front, i);
    }
  }

  /** Receipts of a scan belong to its run and to no other run's ids. */
  lemma {:induction false} ScanOwnsItsReceipts(run: string, key: Option<Key>, others: set<string>, lines: seq<Line>)
    ensures var r := ScanAll(run, key, others, lines);
      r.Ok? ==> forall id :: id in r.value.receipts ==> id !in others && r.value.receipts[id].run == run
  {
    if lines != [] {
      ScanOwnsItsReceipts(run, key, others, lines[..|lines| - 1]);
    }
  }

  lemma PutOnTop(a: map<string, Receipt>, b: map<string, Receipt>, id: string, r: Receipt)
    ensures (a + b)[id := r] == a + b[id := r]
  {
  }

  /** The body of the reader's loop: one line, the loop variables, and the ledger, which holds
      the receipts of other runs and those of this one. */
  method ReadLine(run: string, key: Option<Key>, ledger: Ledger, line: Line, prev0: Mac, expected0: nat, dispatches0: nat,
                  isSealed0: bool, info0: RunInfo, ghost before: map<string, Receipt>, ghost own: map<string, Receipt>)
    returns (error: Option<Error>, prev: Mac, expected: nat, dispatches: nat, isSealed: bool, info: RunInfo)
    requires ledger.receipts == before + own && NotYetRead(run, before)
    requires forall id :: id in own ==> id !in before && own[id].run == run
    modifies ledger`receipts
    ensures match Step(run, key, before.Keys, Scan(prev0, expected0, dispatches0, isSealed0, info0, own), line)
      case Err(e) => error == Some(e)
      case Ok(s) => error == None && s == Scan(prev, expected, dispatches, isSealed, info, s.receipts)
                    && ledger.receipts == before + s.receipts
  {
    error, prev, expected, dispatches, isSealed, info := None, prev0, expected0, dispatches0, isSealed0, info0;
    if line.NotJson? { error := Some(BadJson); return; }
    if line.NotRecord? { error := Some(BadRecord); return; }
    var record := line.record;
    if key.Some? && record.mac != Hmac(key.value, record.body) { error := Some(BadMac); return; }
    if record.body.run != run { error := Some(WrongRun); return; }
    if record.body.seqNo != expected || record.body.prev != prev { error := Some(ChainBroken); return; }
    if isSealed { error := Some(AfterSeal); return; }
    expected := expected + 1;
    prev := record.mac;
    var ts := record.body.ts;
    match record.body.kind {
      case Open(sandbox, _) =>
        info := info.(sandbox := sandbox, openedAt := ts);
      case Dispatch(id, _, _, _, _, _, _, _) =>
        if id in ledger.receipts { error := Some(DuplicateReceipt); return; }
        dispatches := dispatches + 1;
        PutOnTop(before, own, id, NewReceipt(run, record.body));
        ledger.receipts := ledger.receipts[id := NewReceipt(run, record.body)];
      case Complete(id, _, _, _) =>
        if id !in ledger.receipts || ledger.receipts[id].run != run || ledger.receipts[id].completedAt.Some? {
          error := Some(NoOpenDispatch);
          return;
        }
        PutOnTop(before, own, id, Closed(ledger.receipts[id], record.body));
        ledger.receipts := ledger.receipts[id := Closed(ledger.receipts[id], record.body)];
      case Seal(n, _, _) =>
        if n != dispatches { error := Some(SealCount); return; }
        info := info.(isSealed := true);
        isSealed := true;
      case Unknown(_) =>
        error := Some(UnknownKind);
    }
  }

  /** Reads one run's file into the ledger. */
  method ReadRun(run: string, lines: seq<Line>, key: Option<Key>, ledger: Ledger) returns (error: Option<Error>)
    requires NotYetRead(run, ledger.receipts)
    modifies ledger
    ensures match ScanAll(run, key, old(ledger.receipts).Keys, lines)
      case Err(e) => error == Some(e) && ledger.runs == old(ledger.runs)
      case Ok(s) =>
        && error == None
        && ledger.receipts == old(ledger.receipts) + s.receipts
        && ledger.runs == old(ledger.runs)[run := s.info]
  {
    ghost var before := ledger.receipts;
    ghost var s := Start(run);
    var info := RunInfo(false, "unknown", 0.0);
    var prev := Genesis(run);
    var expected: nat := 0;
    var dispatches: nat := 0;
    var isSealed := false;
    for i := 0 to |lines|
      invariant ScanAll(run, key, before.Keys, lines[..i]) == Ok(s)
      invariant s == Scan(prev, expected, dispatches, isSealed, info, s.receipts)
      invariant ledger.receipts == before + s.receipts && ledger.runs == old(ledger.runs)
    {
      assert lines[..i + 1][..i] == lines[..i];
      ScanOwnsItsReceipts(run, key, before.Keys, lines[..i]);
      error, prev, expected, dispatches, isSealed, info :=
        ReadLine(run, key, ledger, lines[i], prev, expected, dispatches, isSealed, info, before, s.receipts);
      if error.Some? {
        ErrorStays(run, key, before.Keys, lines, i + 1);
        return;
      }
      s := Step(run, key, before.Keys, s, lines[i]).value;
    }
    assert lines[..|lines|] == lines;
    ledger.runs := ledger.runs[run := info];
    error := None;
  }

  datatype RunFile = RunFile(run: string, lines: seq<Line>)

  ghost predicate DistinctRuns(files: seq<RunFile>)
  {
    forall i, j :: 0 <= i < j < |files| ==> files[i].run != files[j].run
  }

  /** Every file of the ledger directory, read in order. */
  function ReadFiles(files: seq<RunFile>, key: Option<Key>): Result<LedgerValue, Error>
  {
    if files == [] then Ok(LedgerValue(map[], map[]))
    else
      var last := files[|files| - 1];
      match ReadFiles(files[..|files| - 1], key)
      case Err(e) => Err(e)
      case Ok(v) =>
        match ScanAll(last.run, key, v.receipts.Keys, last.lines)
        case Err(e) => Err(e)
        case Ok(s) => Ok(LedgerValue(v.receipts + s.receipts, v.runs[last.run := s.info]))
  }

  lemma {:induction false} FilesErrorStays(files: seq<RunFile>, key: Option<Key>, i: nat)
    requires i <= |files| && ReadFiles(files[..i], key).Err?
    ensures ReadFiles(files, key) == ReadFiles(files[..i], key)
    decreases |files|
  {
    if i == |files| {
      assert files[..i] == files;
    } else {
      var front := files[..|files| - 1];
      assert front[..i] == files[..i];
      FilesErrorStays(front, key, i);
    }
  }

  ghost predicate NamesRun(files: seq<RunFile>, r: Receipt)
  {
    exists k :: 0 <= k < |files| && files[k].run == r.run
  }

  lemma NamesRunStill(files: seq<RunFile>, last: RunFile, r: Receipt)
    requires NamesRun(files, r) || r.run == last.run
    ensures NamesRun(files + [last], r)
  {
    if NamesRun(files, r) {
      var k :| 0 <= k < |files| && files[k].run == r.run;
      assert (files + [last])[k].run == r.run;
    } else {
      assert (files + [last])[|files|].run == r.run;
    }
  }

  lemma {:induction false} ReceiptsNameTheirRun(files: seq<RunFile>, key: Option<Key>)
    ensures var r := ReadFiles(files, key);
      r.Ok? ==> forall id :: id in r.value.receipts ==> NamesRun(files, r.value.receipts[id])
  {
    if files != [] && ReadFiles(files, key).Ok? {
      var n := |files| - 1;
      var front, last := files[..n], files[n];
      assert files == front + [last];
      ReceiptsNameTheirRun(front, key);
      var v := ReadFiles(front, key).value;
      var own := ScanAll(last.run, key, v.receipts.Keys, last.lines).value.receipts;
      ScanOwnsItsReceipts(last.run, key, v.receipts.Keys, last.lines);
      var all := ReadFiles(files, key).value.receipts;
      assert all == v.receipts + own;
      forall id | id in all ensures NamesRun(files, all[id]) {
        if id in own {
          assert all[id] == own[id];
        } else {
          assert all[id] == v.receipts[id];
        }
        NamesRunStill(front, last, all[id]);
      }
    }
  }

  /** Reads the whole directory; run files have distinct names. */
  method ReadLedger(files: seq<RunFile>, key: Option<Key>) returns (ledger: Ledger, error: Option<Error>)
    requires DistinctRuns(files)
    ensures fresh(ledger) && ledger.authenticated == key.Some?
    ensures match ReadFiles(files, key)
      case Err(e) => error == Some(e)
      case Ok(v) => error == None && ledger.Value() == v
  {
    ledger := new Ledger(key.Some?);
    for i := 0 to |files|
      invariant fresh(ledger)
      invariant ReadFiles(files[..i], key) == Ok(ledger.Value())
    {
      assert files[..i + 1][..i] == files[..i];
      ReceiptsNameTheirRun(files[..i], key);
      error := ReadRun(files[i].run, files[i].lines, key, ledger);
      if error.Some? {
        FilesErrorStays(files, key, i + 1);
        return;
      }
    }
    assert files[..|files|] == files;
    error := None;
  }

  // ---------- What the reader accepts ----------

  ghost predicate IsDispatch(lines: seq<Line>, i: int, id: string)
  {
    0 <= i < |lines| && lines[i].Rec? && lines[i].record.body.kind.Dispatch? && lines[i].record.body.kind.receipt == id
  }

  ghost predicate IsComplete(lines: seq<Line>, i: int, id: string)
  {
    0 <= i < |lines| && lines[i].Rec? && lines[i].record.body.kind.Complete? && lines[i].record.body.kind.receipt == id
  }

  ghost predicate IsSeal(lines: seq<Line>, i: int)
  {
    0 <= i < |lines| && lines[i].Rec? && lines[i].record.body.kind.Seal?
  }

  ghost predicate IsOpen(lines: seq<Line>, i: int)
  {
    0 <= i < |lines| && lines[i].Rec? && lines[i].record.body.kind.Open?
  }

  ghost predicate IsLastOpen(lines: seq<Line>, i: int)
  {
    IsOpen(lines, i) && forall j :: IsOpen(lines, j) ==> j <= i
  }

  /** Sandbox and opening time are those of the last opening record, or the defaults. */
  ghost predicate OpenedAs(lines: seq<Line>, info: RunInfo)
  {
    && (forall i :: IsLastOpen(lines, i) ==>
          info.sandbox == lines[i].record.body.kind.sandbox && info.openedAt == lines[i].record.body.ts)
    && ((forall i :: !IsOpen(lines, i)) ==> info.sandbox == "unknown" && info.openedAt == 0.0)
    && ((exists i :: IsOpen(lines, i)) ==> exists i :: IsLastOpen(lines, i))
  }

  ghost function DispatchCount(lines: seq<Line>): nat
  {
    if lines == [] then 0
    else
      var n := |lines| - 1;
      DispatchCount(lines[..n]) + if lines[n].Rec? && lines[n].record.body.kind.Dispatch? then 1 else 0
  }

  ghost function PrevMac(run: string, lines: seq<Line>, i: nat): Mac
    requires i < |lines| && (i > 0 ==> lines[i - 1].Rec?)
  {
    if i == 0 then Genesis(run) else lines[i - 1].record.mac
  }

  /** Line `i` is authentic, continues the chain and follows no seal. */
  ghost predicate InChain(run: string, key: Option<Key>, lines: seq<Line>, i: nat)
    requires i < |lines|
  {
    && lines[i].Rec?
    && (i > 0 ==> lines[i - 1].Rec?)
    && var r := lines[i].record;
    && (key.Some? ==> r.mac == Hmac(key.value, r.body))
    && r.body.run == run
    && r.body.seqNo == i
    && r.body.prev == PrevMac(run, lines, i)
    && (forall j :: 0 <= j < i ==> !IsSeal(lines, j))
  }

  /** A line is in the chain, and its kind fits what came before it. */
  ghost predicate LineOk(run: string, key: Option<Key>, others: set<string>, lines: seq<Line>, i: nat)
    requires i < |lines|
  {
    && InChain(run, key, lines, i)
    && match lines[i].record.body.kind
       case Open(_, _) => true
       case Dispatch(id, _, _, _, _, _, _, _) => id !in others && forall j :: 0 <= j < i ==> !IsDispatch(lines, j, id)
       case Complete(id, _, _, _) =>
         && (exists j :: 0 <= j < i && IsDispatch(lines, j, id))
         && (forall j :: 0 <= j < i ==> !IsComplete(lines, j, id))
       case Seal(n, _, _) => n == DispatchCount(lines[..i])
       case Unknown(_) => false
  }

  ghost predicate WellFormed(run: string, key: Option<Key>, others: set<string>, lines: seq<Line>)
  {
    forall i :: 0 <= i < |lines| ==> LineOk(run, key, others, lines, i)
  }

  /** A line is judged on the lines before it only. */
  lemma LineOkPrefix(run: string, key: Option<Key>, others: set<string>, lines: seq<Line>, n: nat, i: nat)
    requires i < n <= |lines|
    ensures LineOk(run, key, others, lines[..n], i) <==> LineOk(run, key, others, lines, i)
  {
    var front := lines[..n];
    assert front[..i] == lines[..i];
    assert forall j :: 0 <= j < i ==> IsSeal(front, j) == IsSeal(lines, j);
    assert forall j, id :: 0 <= j < i ==> IsDispatch(front, j, id) == IsDispatch(lines, j, id);
    assert forall j, id :: 0 <= j < i ==> IsComplete(front, j, id) == IsComplete(lines, j, id);
  }

  lemma WellFormedPrefix(run: string, key: Option<Key>, others: set<string>, lines: seq<Line>, n: nat)
    requires n <= |lines| && WellFormed(run, key, others, lines)
    ensures WellFormed(run, key, others, lines[..n])
  {
    forall i | 0 <= i < n ensures LineOk(run, key, others, lines[..n], i) {
      LineOkPrefix(run, key, others, lines, n, i);
    }
  }

  /** The receipt of `id` carries what its dispatch line and its completion line, if it has
      one, say. */
  ghost predicate Rebuilt(run: string, lines: seq<Line>, id: string, r: Receipt)
  {
    && (exists i :: IsDispatch(lines, i, id) && r == WithCompletionOf(NewReceipt(run, lines[i].record.body), r))
    && (r.completedAt.None? ==> !r.isError && r.attests == [] && forall j :: !IsComplete(lines, j, id))
    && (r.completedAt.Some? ==> exists j :: IsComplete(lines, j, id) && r == Closed(r, lines[j].record.body))
  }

  /** `open` with the completion fields of `r`. */
  ghost function WithCompletionOf(open: Receipt, r: Receipt): Receipt
  {
    open.(completedAt := r.completedAt, isError := r.isError, attests := r.attests)
  }

  /** The reader's variables say of the lines read what a look back at them would. */
  ghost predicate Describes(run: string, lines: seq<Line>, s: Scan)
  {
    && s.expected == |lines|
    && (lines == [] ==> s.prev == Genesis(run))
    && (lines != [] ==> lines[|lines| - 1].Rec? && s.prev == lines[|lines| - 1].record.mac)
    && s.dispatches == DispatchCount(lines)
    && (s.isSealed <==> exists i :: IsSeal(lines, i))
    && s.info.isSealed == s.isSealed && OpenedAs(lines, s.info)
    && (forall id :: id in s.receipts <==> exists i :: IsDispatch(lines, i, id))
    && (forall j, id :: IsComplete(lines, j, id) ==> id in s.receipts)
    && forall id :: id in s.receipts ==> Rebuilt(run, lines, id, s.receipts[id])
  }

  lemma GrowFacts(lines: seq<Line>, n: nat)
    requires |lines| == n + 1
    ensures forall i :: 0 <= i < n ==> IsSeal(lines, i) == IsSeal(lines[..n], i)
    ensures forall i, id :: 0 <= i < n ==> IsDispatch(lines, i, id) == IsDispatch(lines[..n], i, id)
    ensures forall i, id :: 0 <= i < n ==> IsComplete(lines, i, id) == IsComplete(lines[..n], i, id)
  {
  }

  lemma CheckAccepts(run: string, key: Option<Key>, lines: seq<Line>, s: Scan)
    requires lines != []
    requires var n := |lines| - 1; Describes(run, lines[..n], s)
    ensures CheckLine(run, key, s, lines[|lines| - 1]) == None <==> InChain(run, key, lines, |lines| - 1)
  {
    var n := |lines| - 1;
    GrowFacts(lines, n);
    assert n > 0 ==> lines[..n][n - 1] == lines[n - 1];
  }

  /** A receipt is there if an earlier line dispatched it, and completed if one completed it. */
  lemma ReceiptsTell(run: string, lines: seq<Line>, s: Scan, id: string)
    requires lines != [] && Describes(run, lines[..|lines| - 1], s)
    ensures id in s.receipts <==> exists j :: 0 <= j < |lines| - 1 && IsDispatch(lines, j, id)
    ensures id in s.receipts ==>
      (s.receipts[id].completedAt.Some? <==> exists j :: 0 <= j < |lines| - 1 && IsComplete(lines, j, id))
  {
    var n := |lines| - 1;
    GrowFacts(lines, n);
    if id in s.receipts {
      assert Rebuilt(run, lines[..n], id, s.receipts[id]);
    }
  }

  lemma DispatchAccepts(run: string, key: Option<Key>, others: set<string>, lines: seq<Line>, s: Scan)
    requires lines != []
    requires var n := |lines| - 1;
      Describes(run, lines[..n], s) && InChain(run, key, lines, n) && lines[n].record.body.kind.Dispatch?
    ensures Step(run, key, others, s, lines[|lines| - 1]).Ok? <==> LineOk(run, key, others, lines, |lines| - 1)
  {
    CheckAccepts(run, key, lines, s);
    ReceiptsTell(run, lines, s, lines[|lines| - 1].record.body.kind.receipt);
  }

  lemma CompleteAccepts(run: string, key: Option<Key>, others: set<string>, lines: seq<Line>, s: Scan)
    requires lines != []
    requires var n := |lines| - 1;
      Describes(run, lines[..n], s) && InChain(run, key, lines, n) && lines[n].record.body.kind.Complete?
    ensures Step(run, key, others, s, lines[|lines| - 1]).Ok? <==> LineOk(run, key, others, lines, |lines| - 1)
  {
    CheckAccepts(run, key, lines, s);
    ReceiptsTell(run, lines, s, lines[|lines| - 1].record.body.kind.receipt);
  }

  lemma OtherAccepts(run: string, key: Option<Key>, others: set<string>, lines: seq<Line>, s: Scan)
    requires lines != []
    requires Describes(run, lines[..|lines| - 1], s) && InChain(run, key, lines, |lines| - 1)
    requires var kind := lines[|lines| - 1].record.body.kind; !kind.Dispatch? && !kind.Complete?
    ensures Step(run, key, others, s, lines[|lines| - 1]).Ok? <==> LineOk(run, key, others, lines, |lines| - 1)
  {
    CheckAccepts(run, key, lines, s);
  }

  /** What the reader demands of one line, in terms of its own variables, is what looking back
      at the lines before it demands. */
  lemma StepAccepts(run: string, key: Option<Key>, others: set<string>, lines: seq<Line>, s: Scan)
    requires lines != []
    requires var n := |lines| - 1; Describes(run, lines[..n], s)
    ensures Step(run, key, others, s, lines[|lines| - 1]).Ok? <==> LineOk(run, key, others, lines, |lines| - 1)
  {
    var n := |lines| - 1;
    if !InChain(run, key, lines, n) {
      CheckAccepts(run, key, lines, s);
    } else if lines[n].record.body.kind.Dispatch? {
      DispatchAccepts(run, key, others, lines, s);
    } else if lines[n].record.body.kind.Complete? {
      CompleteAccepts(run, key, others, lines, s);
    } else {
      OtherAccepts(run, key, others, lines, s);
    }
  }

  /** The three ways a receipt comes out of a step: untouched, opened, or completed. */
  lemma StepTouches(run: string, key: Option<Key>, others: set<string>, s: Scan, t: Scan, line: Line)
    requires Step(run, key, others, s, line) == Ok(t)
    ensures line.Rec?
    ensures var k := line.record.body.kind;
      t.receipts == if k.Dispatch? then s.receipts[k.receipt := NewReceipt(run, line.record.body)]
                    else if k.Complete? && k.receipt in s.receipts
                    then s.receipts[k.receipt := Closed(s.receipts[k.receipt], line.record.body)]
                    else s.receipts
    ensures line.record.body.kind.Dispatch? ==> line.record.body.kind.receipt !in s.receipts
    ensures line.record.body.kind.Complete? ==>
      var c := line.record.body.kind.receipt; c in s.receipts && s.receipts[c].completedAt.None?
  {
  }

  lemma StepKeeps(run: string, lines: seq<Line>, id: string, r: Receipt)
    requires lines != [] && Rebuilt(run, lines[..|lines| - 1], id, r)
    requires !IsComplete(lines, |lines| - 1, id)
    ensures Rebuilt(run, lines, id, r)
  {
    var front := lines[..|lines| - 1];
    GrowFacts(lines, |lines| - 1);
    var i :| IsDispatch(front, i, id) && r == WithCompletionOf(NewReceipt(run, front[i].record.body), r);
    assert IsDispatch(lines, i, id);
    if r.completedAt.Some? {
      var j :| IsComplete(front, j, id) && r == Closed(r, front[j].record.body);
      assert IsComplete(lines, j, id);
    }
  }

  lemma StepCloses(run: string, lines: seq<Line>, id: string, r: Receipt)
    requires lines != [] && Rebuilt(run, lines[..|lines| - 1], id, r)
    requires IsComplete(lines, |lines| - 1, id)
    ensures Rebuilt(run, lines, id, Closed(r, lines[|lines| - 1].record.body))
  {
    var n := |lines| - 1;
    var i :| IsDispatch(lines[..n], i, id) && r == WithCompletionOf(NewReceipt(run, lines[..n][i].record.body), r);
    assert IsDispatch(lines, i, id);
  }

  lemma StepRebuilds(run: string, key: Option<Key>, others: set<string>, lines: seq<Line>, s: Scan, t: Scan, id: string)
    requires lines != []
    requires var n := |lines| - 1; Describes(run, lines[..n], s) && Step(run, key, others, s, lines[n]) == Ok(t)
    requires id in t.receipts
    ensures Rebuilt(run, lines, id, t.receipts[id])
  {
    var n := |lines| - 1;
    StepTouches(run, key, others, s, t, lines[n]);
    GrowFacts(lines, n);
    if IsDispatch(lines, n, id) {
      assert forall j :: 0 <= j < n ==> !IsComplete(lines[..n], j, id);
    } else if IsComplete(lines, n, id) {
      StepCloses(run, lines, id, s.receipts[id]);
    } else {
      StepKeeps(run, lines, id, s.receipts[id]);
    }
  }

  lemma StepKnows(run: string, key: Option<Key>, others: set<string>, lines: seq<Line>, s: Scan, t: Scan)
    requires lines != []
    requires var n := |lines| - 1; Describes(run, lines[..n], s) && Step(run, key, others, s, lines[n]) == Ok(t)
    ensures forall id :: id in t.receipts <==> exists i :: IsDispatch(lines, i, id)
    ensures forall j, id :: IsComplete(lines, j, id) ==> id in t.receipts
  {
    var n := |lines| - 1;
    GrowFacts(lines, n);
    forall id | id in t.receipts ensures exists i :: IsDispatch(lines, i, id) {
      StepRebuilds(run, key, others, lines, s, t, id);
    }
    forall i, id | IsDispatch(lines, i, id) ensures id in t.receipts {
      StepTouches(run, key, others, s, t, lines[n]);
      if i < n { assert IsDispatch(lines[..n], i, id); }
    }
    forall i, id | IsComplete(lines, i, id) ensures id in t.receipts {
      StepTouches(run, key, others, s, t, lines[n]);
      if i < n { assert IsComplete(lines[..n], i, id); }
    }
  }

  lemma StepOpens(run: string, key: Option<Key>, others: set<string>, lines: seq<Line>, s: Scan, t: Scan)
    requires lines != []
    requires var n := |lines| - 1; OpenedAs(lines[..n], s.info) && Step(run, key, others, s, lines[n]) == Ok(t)
    ensures OpenedAs(lines, t.info)
  {
    var n := |lines| - 1;
    var front := lines[..n];
    assert forall i :: i != n ==> IsOpen(lines, i) == IsOpen(front, i);
    if IsOpen(lines, n) {
      assert IsLastOpen(lines, n);
    } else {
      assert forall i :: IsLastOpen(lines, i) == IsLastOpen(front, i);
    }
  }

  lemma StepCounts(run: string, key: Option<Key>, others: set<string>, lines: seq<Line>, s: Scan, t: Scan)
    requires lines != []
    requires Step(run, key, others, s, lines[|lines| - 1]) == Ok(t)
    requires var front := lines[..|lines| - 1];
      && s.expected == |front| && s.dispatches == DispatchCount(front)
      && s.info.isSealed == s.isSealed && (s.isSealed <==> exists i :: IsSeal(front, i))
    ensures t.expected == |lines| && t.prev == lines[|lines| - 1].record.mac
    ensures t.dispatches == DispatchCount(lines)
    ensures t.info.isSealed == t.isSealed && (t.isSealed <==> exists i :: IsSeal(lines, i))
  {
    var n := |lines| - 1;
    assert forall i :: i != n ==> IsSeal(lines, i) == IsSeal(lines[..n], i);
    assert lines[n].record.body.kind.Seal? <==> IsSeal(lines, n);
    assert lines[n].record.body.kind.Seal? <==> t.isSealed;
  }

  lemma StepDescribes(run: string, key: Option<Key>, others: set<string>, lines: seq<Line>, s: Scan, t: Scan)
    requires lines != []
    requires var n := |lines| - 1; Describes(run, lines[..n], s) && Step(run, key, others, s, lines[n]) == Ok(t)
    ensures Describes(run, lines, t)
  {
    StepCounts(run, key, others, lines, s, t);
    StepKnows(run, key, others, lines, s, t);
    StepOpens(run, key, others, lines, s, t);
    forall id | id in t.receipts ensures Rebuilt(run, lines, id, t.receipts[id]) {
      StepRebuilds(run, key, others, lines, s, t, id);
    }
  }

  /** The reader accepts exactly the well-formed files, and what it rebuilds from one is what
      its lines say. */
  lemma {:induction false} ReaderIsExact(run: string, key: Option<Key>, others: set<string>, lines: seq<Line>)
    ensures ScanAll(run, key, others, lines).Ok? <==> WellFormed(run, key, others, lines)
    ensures var r := ScanAll(run, key, others, lines); r.Ok? ==> Describes(run, lines, r.value)
  {
    if lines != [] {
      var n := |lines| - 1;
      var front := lines[..n];
      ReaderIsExact(run, key, others, front);
      if ScanAll(run, key, others, front).Ok? {
        var s := ScanAll(run, key, others, front).value;
        StepAccepts(run, key, others, lines, s);
        if Step(run, key, others, s, lines[n]).Ok? {
          StepDescribes(run, key, others, lines, s, Step(run, key, others, s, lines[n]).value);
        }
        forall i | 0 <= i < n ensures LineOk(run, key, others, lines, i) {
          LineOkPrefix(run, key, others, lines, n, i);
        }
      } else if WellFormed(run, key, others, lines) {
        WellFormedPrefix(run, key, others, lines, n);
      }
    }
  }

  // ---------- Which error ----------

  ghost predicate SomeDispatch(lines: seq<Line>, n: nat, id: string)
  {
    exists j :: 0 <= j < n && IsDispatch(lines, j, id)
  }

  ghost predicate SomeComplete(lines: seq<Line>, n: nat, id: string)
  {
    exists j :: 0 <= j < n && IsComplete(lines, j, id)
  }

  ghost predicate SomeSeal(lines: seq<Line>, n: nat)
  {
    exists j :: 0 <= j < n && IsSeal(lines, j)
  }

  /** What is wrong with the last line, looking back at those before it: the first of these. */
  ghost function LastFault(run: string, key: Option<Key>, others: set<string>, lines: seq<Line>): Option<Error>
    requires lines != [] && (|lines| > 1 ==> lines[|lines| - 2].Rec?)
  {
    var n := |lines| - 1;
    match lines[n]
    case NotJson => Some(BadJson)
    case NotRecord => Some(BadRecord)
    case Rec(r) =>
      if key.Some? && r.mac != Hmac(key.value, r.body) then Some(BadMac)
      else if r.body.run != run then Some(WrongRun)
      else if r.body.seqNo != n || r.body.prev != PrevMac(run, lines, n) then Some(ChainBroken)
      else if SomeSeal(lines, n) then Some(AfterSeal)
      else
        match r.body.kind
        case Open(_, _) => None
        case Dispatch(id, _, _, _, _, _, _, _) =>
          if id in others || SomeDispatch(lines, n, id) then Some(DuplicateReceipt) else None
        case Complete(id, _, _, _) =>
          if !SomeDispatch(lines, n, id) || SomeComplete(lines, n, id) then Some(NoOpenDispatch) else None
        case Seal(count, _, _) => if count != DispatchCount(lines[..n]) then Some(SealCount) else None
        case Unknown(_) => Some(UnknownKind)
  }

  function FaultIn(r: Result<Scan, Error>): Option<Error>
  {
    if r.Err? then Some(r.error) else None
  }

  lemma CheckFault(run: string, key: Option<Key>, others: set<string>, lines: seq<Line>, s: Scan)
    requires lines != [] && Describes(run, lines[..|lines| - 1], s)
    ensures |lines| > 1 ==> lines[|lines| - 2].Rec?
    ensures CheckLine(run, key, s, lines[|lines| - 1]).Some? ==>
      CheckLine(run, key, s, lines[|lines| - 1]) == LastFault(run, key, others, lines)
  {
    var n := |lines| - 1;
    GrowFacts(lines, n);
    assert n > 0 ==> lines[..n][n - 1] == lines[n - 1];
  }

  /** The error raised for a line is its first fault. */
  lemma StepFault(run: string, key: Option<Key>, others: set<string>, lines: seq<Line>, s: Scan)
    requires lines != [] && Describes(run, lines[..|lines| - 1], s)
    ensures |lines| > 1 ==> lines[|lines| - 2].Rec?
    ensures FaultIn(Step(run, key, others, s, lines[|lines| - 1])) == LastFault(run, key, others, lines)
  {
    var n := |lines| - 1;
    CheckFault(run, key, others, lines, s);
    StepAccepts(run, key, others, lines, s);
    CheckAccepts(run, key, lines, s);
    if InChain(run, key, lines, n) {
      if lines[n].record.body.kind.Dispatch? {
        ReceiptsTell(run, lines, s, lines[n].record.body.kind.receipt);
      } else if lines[n].record.body.kind.Complete? {
        ReceiptsTell(run, lines, s, lines[n].record.body.kind.receipt);
      }
    }
  }

  /** The error raised for a file is the fault of its first faulty line. */
  lemma {:induction false} FileFault(run: string, key: Option<Key>, others: set<string>, lines: seq<Line>) returns (i: nat)
    requires ScanAll(run, key, others, lines).Err?
    ensures i < |lines| && ScanAll(run, key, others, lines[..i]).Ok?
    ensures |lines[..i + 1]| > 1 ==> lines[..i + 1][|lines[..i + 1]| - 2].Rec?
    ensures LastFault(run, key, others, lines[..i + 1]) == Some(ScanAll(run, key, others, lines).error)
  {
    var n := |lines| - 1;
    var front := lines[..n];
    if ScanAll(run, key, others, front).Err? {
      i := FileFault(run, key, others, front);
      assert front[..i] == lines[..i] && front[..i + 1] == lines[..i + 1];
    } else {
      i := n;
      assert lines[..n + 1] == lines;
      ReaderIsExact(run, key, others, front);
      StepFault(run, key, others, lines, ScanAll(run, key, others, front).value);
    }
  }
}
