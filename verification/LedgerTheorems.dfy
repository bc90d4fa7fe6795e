/** What links the recorder and the reader: every recorded run is accepted and rebuilt
    exactly, the chain admits nothing else, and losing records only loses evidence. */
module LedgerTheorems {
  import opened Common
  import opened LedgerRecords
  import opened LedgerReader
  import R = LedgerRecorder

  type Env = R.Env
  type Event = R.Event
  type State = R.State

  // ---------- What a stream says about a dispatch id ----------

  predicate IsUse(e: Event, id: string) { e.Use? && e.id == id }

  predicate IsResult(e: Event, id: string) { e.Result? && e.id == id }

  /** The first dispatch of `id` in the stream; its length if there is none. */
  function FirstUse(events: seq<Event>, id: string): (i: nat)
    ensures i <= |events|
    ensures i < |events| ==> IsUse(events[i], id)
    ensures forall j :: 0 <= j < i ==> !IsUse(events[j], id)
  {
    if events == [] then 0
    else
      var n := |events| - 1;
      var i := FirstUse(events[..n], id);
      if i < n || IsUse(events[n], id) then i else n + 1
  }

  /** The first result for `id` that follows its first dispatch; the length if there is none. */
  function FirstResult(events: seq<Event>, id: string): (i: nat)
    ensures i <= |events|
    ensures i < |events| ==> IsResult(events[i], id) && FirstUse(events, id) < i
    ensures forall j :: FirstUse(events, id) < j < i ==> !IsResult(events[j], id)
  {
    if events == [] then 0
    else
      var n := |events| - 1;
      var i := FirstResult(events[..n], id);
      if i < n || (IsResult(events[n], id) && FirstUse(events[..n], id) < n) then i else n + 1
  }

  /** The recorder's clock when it wrote the record for event `i`, if it wrote one. */
  function WrittenAt(env: Env, events: seq<Event>, i: nat): Time
    requires i <= |events|
  {
    env.clock(|R.Fold(env, R.Opened(env), events[..i]).log|)
  }

  /** The receipt repeats what the stream's first dispatch of `id` said, and is completed
      exactly when the stream answers it, with what the first answer said; its times are those
      at which the recorder wrote the two records. */
  ghost predicate Faithful(env: Env, events: seq<Event>, id: string, r: Receipt)
  {
    var i, j := FirstUse(events, id), FirstResult(events, id);
    && i < |events|
    && r.receipt == id && r.run == env.run
    && r.role == events[i].role && r.parent == events[i].parent
    && r.description == events[i].description && r.background == events[i].background
    && r.dictated == Attestations(events[i].prompt.signoffs)
    && r.dispatchedAt == WrittenAt(env, events, i)
    && r.completedAt == (if j < |events| then Some(WrittenAt(env, events, j)) else None)
    && r.isError == (j < |events| && events[j].isError)
    && r.attests == if j < |events| then Attestations(events[j].text.signoffs) else []
  }

  // ---------- Completeness ----------

  /** What is known of `id`: it has a receipt if it was dispatched, it is pending if that
      receipt is open, and the stream accounts for the receipt. */
  ghost predicate AccountedId(env: Env, events: seq<Event>, seen: set<string>, pending: set<string>, receipts: map<string, Receipt>, id: string)
  {
    && (id in receipts <==> id in seen)
    && (id in seen <==> FirstUse(events, id) < |events|)
    && (id in pending <==> id in receipts && receipts[id].completedAt.None?)
    && (id in receipts ==> Faithful(env, events, id, receipts[id]))
  }

  ghost predicate Accounted(env: Env, events: seq<Event>, seen: set<string>, pending: set<string>, receipts: map<string, Receipt>)
  {
    forall id :: AccountedId(env, events, seen, pending, receipts, id)
  }

  /** The reader, having read what the recorder has written so far, has the same chain tip
      and the same ids, and accounts for the same dispatches. */
  ghost predicate InStep(env: Env, events: seq<Event>, s: State, r: Scan)
  {
    && s == R.Fold(env, R.Opened(env), events) && s.log != []
    && r.prev == Tip(env.run, s.log) && r.expected == |s.log|
    && r.dispatches == |s.seen| && !r.isSealed && r.info == RunInfo(false, env.sandbox, env.clock(0))
    && Accounted(env, events, s.seen, s.pending, r.receipts)
  }

  lemma ScanOneMore(run: string, key: Option<Key>, others: set<string>, log: seq<Record>, record: Record)
    ensures var before := ScanAll(run, key, others, Lines(log));
      ScanAll(run, key, others, Lines(log + [record])) ==
        if before.Ok? then Step(run, key, others, before.value, Rec(record)) else before
  {
    var lines := Lines(log + [record]);
    assert lines[..|log|] == Lines(log);
  }

  /** How one more event moves the two positions. */
  lemma OneMoreEvent(events: seq<Event>, e: Event, id: string)
    ensures var all, n := events + [e], |events|;
      && FirstUse(all, id) == (if FirstUse(events, id) < n || IsUse(e, id) then FirstUse(events, id) else n + 1)
      && FirstResult(all, id) == (if FirstResult(events, id) < n || (IsResult(e, id) && FirstUse(events, id) < n)
                                  then FirstResult(events, id) else n + 1)
  {
    assert (events + [e])[..|events|] == events;
  }

  /** No id the stream dispatches is taken by another run. */
  ghost predicate FreshIds(events: seq<Event>, others: set<string>)
  {
    forall id :: id in others ==> FirstUse(events, id) == |events|
  }

  lemma UntouchedStaysFaithful(env: Env, events: seq<Event>, e: Event, id: string, r: Receipt)
    requires Faithful(env, events, id, r)
    requires IsResult(e, id) ==> FirstResult(events, id) < |events|
    ensures Faithful(env, events + [e], id, r)
  {
    OneMoreEvent(events, e, id);
    var i, j := FirstUse(events, id), FirstResult(events, id);
    assert (events + [e])[i] == events[i] && (events + [e])[..i] == events[..i];
    if j < |events| { assert (events + [e])[j] == events[j] && (events + [e])[..j] == events[..j]; }
  }

  lemma NewUseFaithful(env: Env, events: seq<Event>, e: Event, b: Body)
    requires e.Use? && FirstUse(events, e.id) == |events|
    requires b.kind == R.DispatchKind(e) && b.ts == WrittenAt(env, events, |events|)
    ensures Faithful(env, events + [e], e.id, NewReceipt(env.run, b))
  {
    NoUseNoResult(events, e.id);
    OneMoreEvent(events, e, e.id);
    assert (events + [e])[|events|] == e && (events + [e])[..|events|] == events[..|events|];
  }

  lemma FirstAnswerFaithful(env: Env, events: seq<Event>, e: Event, b: Body, r: Receipt)
    requires e.Result? && b.kind == R.CompleteKind(e) && b.ts == WrittenAt(env, events, |events|)
    requires Faithful(env, events, e.id, r) && r.completedAt.None?
    ensures Faithful(env, events + [e], e.id, Closed(r, b))
  {
    OneMoreEvent(events, e, e.id);
    var i := FirstUse(events, e.id);
    assert (events + [e])[|events|] == e && (events + [e])[..|events|] == events[..|events|];
    assert (events + [e])[i] == events[i] && (events + [e])[..i] == events[..i];
  }

  /** Nothing changes for an id the event does not concern. */
  lemma OtherIdAccounted(env: Env, events: seq<Event>, e: Event, seen: set<string>, pending: set<string>, receipts: map<string, Receipt>, id: string)
    requires AccountedId(env, events, seen, pending, receipts, id)
    requires IsUse(e, id) ==> id in seen
    requires IsResult(e, id) ==> id !in pending
    ensures AccountedId(env, events + [e], seen, pending, receipts, id)
  {
    OneMoreEvent(events, e, id);
    if id in seen {
      UntouchedStaysFaithful(env, events, e, id, receipts[id]);
    }
  }

  lemma UseAccounted(env: Env, events: seq<Event>, e: Event, b: Body, seen: set<string>, pending: set<string>, receipts: map<string, Receipt>)
    requires Accounted(env, events, seen, pending, receipts)
    requires e.Use? && e.id !in seen
    requires b.kind == R.DispatchKind(e) && b.ts == WrittenAt(env, events, |events|)
    ensures Accounted(env, events + [e], seen + {e.id}, pending + {e.id}, receipts[e.id := NewReceipt(env.run, b)])
  {
    var seen', pending', receipts' := seen + {e.id}, pending + {e.id}, receipts[e.id := NewReceipt(env.run, b)];
    forall id ensures AccountedId(env, events + [e], seen', pending', receipts', id) {
      assert AccountedId(env, events, seen, pending, receipts, id);
      if id == e.id {
        NewUseFaithful(env, events, e, b);
      } else {
        OtherIdAccounted(env, events, e, seen, pending, receipts, id);
      }
    }
  }

  lemma ResultAccounted(env: Env, events: seq<Event>, e: Event, b: Body, seen: set<string>, pending: set<string>, receipts: map<string, Receipt>)
    requires Accounted(env, events, seen, pending, receipts)
    requires e.Result? && e.id in pending && e.id in receipts
    requires b.kind == R.CompleteKind(e) && b.ts == WrittenAt(env, events, |events|)
    ensures Accounted(env, events + [e], seen, pending - {e.id}, receipts[e.id := Closed(receipts[e.id], b)])
  {
    var pending', receipts' := pending - {e.id}, receipts[e.id := Closed(receipts[e.id], b)];
    forall id ensures AccountedId(env, events + [e], seen, pending', receipts', id) {
      assert AccountedId(env, events, seen, pending, receipts, id);
      if id == e.id {
        FirstAnswerFaithful(env, events, e, b, receipts[id]);
      } else {
        OtherIdAccounted(env, events, e, seen, pending, receipts, id);
      }
    }
  }

  lemma SkipAccounted(env: Env, events: seq<Event>, e: Event, seen: set<string>, pending: set<string>, receipts: map<string, Receipt>)
    requires Accounted(env, events, seen, pending, receipts)
    requires if e.Use? then e.id in seen else e.id !in pending
    ensures Accounted(env, events + [e], seen, pending, receipts)
  {
    forall id ensures AccountedId(env, events + [e], seen, pending, receipts, id) {
      assert AccountedId(env, events, seen, pending, receipts, id);
      OtherIdAccounted(env, events, e, seen, pending, receipts, id);
    }
  }

  /** A record the recorder appends passes the checks every line goes through. */
  lemma NextRecordChecks(env: Env, events: seq<Event>, s: State, r: Scan, kind: Kind)
    requires InStep(env, events, s, r)
    ensures CheckLine(env.run, Some(env.key), r, Rec(R.NextRecord(env, s.log, kind))) == None
    ensures Tip(env.run, s.log + [R.NextRecord(env, s.log, kind)]) == R.NextRecord(env, s.log, kind).mac
  {
  }

  lemma CompletionStep(run: string, key: Key, others: set<string>, r: Scan, record: Record)
    requires CheckLine(run, Some(key), r, Rec(record)) == None && record.body.kind.Complete?
    requires var id := record.body.kind.receipt; id in r.receipts && r.receipts[id].completedAt.None?
    ensures var id := record.body.kind.receipt;
      Step(run, Some(key), others, r, Rec(record))
        == Ok(r.(prev := record.mac, expected := r.expected + 1, receipts := r.receipts[id := Closed(r.receipts[id], record.body)]))
  {
  }

  lemma FoldOneMore(env: Env, events: seq<Event>, e: Event)
    ensures R.Fold(env, R.Opened(env), events + [e]) == R.React(env, R.Fold(env, R.Opened(env), events), e)
    ensures WrittenAt(env, events, |events|) == env.clock(|R.Fold(env, R.Opened(env), events).log|)
  {
    assert (events + [e])[..|events|] == events == events[..|events|];
  }

  lemma UseInStep(env: Env, others: set<string>, events: seq<Event>, e: Event, s: State, r: Scan)
    requires InStep(env, events, s, r) && e.Use? && e.id !in others && e.id !in s.seen
    ensures var r' := Step(env.run, Some(env.key), others, r, Rec(R.NextRecord(env, s.log, R.DispatchKind(e))));
      r'.Ok? && InStep(env, events + [e], R.React(env, s, e), r'.value)
  {
    NextRecordChecks(env, events, s, r, R.DispatchKind(e));
    FoldOneMore(env, events, e);
    assert AccountedId(env, events, s.seen, s.pending, r.receipts, e.id);
    UseAccounted(env, events, e, R.NextRecord(env, s.log, R.DispatchKind(e)).body, s.seen, s.pending, r.receipts);
  }

  lemma ResultInStep(env: Env, others: set<string>, events: seq<Event>, e: Event, s: State, r: Scan)
    requires InStep(env, events, s, r) && e.Result? && e.id in s.pending
    ensures var r' := Step(env.run, Some(env.key), others, r, Rec(R.NextRecord(env, s.log, R.CompleteKind(e))));
      r'.Ok? && InStep(env, events + [e], R.React(env, s, e), r'.value)
  {
    var record := R.NextRecord(env, s.log, R.CompleteKind(e));
    NextRecordChecks(env, events, s, r, R.CompleteKind(e));
    FoldOneMore(env, events, e);
    assert AccountedId(env, events, s.seen, s.pending, r.receipts, e.id);
    CompletionStep(env.run, env.key, others, r, record);
    ResultAccounted(env, events, e, record.body, s.seen, s.pending, r.receipts);
  }

  lemma ReactInStep(env: Env, others: set<string>, events: seq<Event>, e: Event, s: State, r: Scan)
    requires InStep(env, events, s, r)
    requires ScanAll(env.run, Some(env.key), others, Lines(s.log)) == Ok(r)
    requires e.Use? ==> e.id !in others
    ensures var s' := R.React(env, s, e);
      var r' := ScanAll(env.run, Some(env.key), others, Lines(s'.log));
      r'.Ok? && InStep(env, events + [e], s', r'.value)
  {
    if e.Use? && e.id !in s.seen {
      ScanOneMore(env.run, Some(env.key), others, s.log, R.NextRecord(env, s.log, R.DispatchKind(e)));
      UseInStep(env, others, events, e, s, r);
    } else if e.Result? && e.id in s.pending {
      ScanOneMore(env.run, Some(env.key), others, s.log, R.NextRecord(env, s.log, R.CompleteKind(e)));
      ResultInStep(env, others, events, e, s, r);
    } else {
      FoldOneMore(env, events, e);
      SkipAccounted(env, events, e, s.seen, s.pending, r.receipts);
    }
  }

  lemma NoUseNoResult(events: seq<Event>, id: string)
    requires FirstUse(events, id) == |events|
    ensures FirstResult(events, id) == |events|
  {
  }

  lemma {:induction false} RunInStep(env: Env, others: set<string>, events: seq<Event>)
    requires FreshIds(events, others)
    ensures var s := R.Fold(env, R.Opened(env), events);
      var r := ScanAll(env.run, Some(env.key), others, Lines(s.log));
      r.Ok? && InStep(env, events, s, r.value)
  {
    if events == [] {
      var open := R.NextRecord(env, [], Open(env.sandbox, env.roster));
      ScanOneMore(env.run, Some(env.key), others, [], open);
      assert [] + [open] == R.Opened(env).log;
      assert Lines([]) == [];
    } else {
      var n := |events| - 1;
      var front := events[..n];
      assert front + [events[n]] == events;
      forall id | id in others ensures FirstUse(front, id) == |front| {}
      RunInStep(env, others, front);
      OneMoreEvent(front, events[n], events[n].id);
      var s := R.Fold(env, R.Opened(env), front);
      ReactInStep(env, others, front, events[n], s, ScanAll(env.run, Some(env.key), others, Lines(s.log)).value);
    }
  }

  /** How a recorded run is listed: sealed, with its sandbox and its opening time. */
  function SealedInfo(env: Env): RunInfo
  {
    RunInfo(true, env.sandbox, env.clock(0))
  }

  /** The sealed log of any stream is accepted, exactly when none of its dispatch ids is taken
      by another run, and then holds one faithful receipt for each id the stream dispatched. */
  lemma SealedRunIsRebuilt(env: Env, others: set<string>, events: seq<Event>)
    ensures var log := R.SealedLog(env, R.Fold(env, R.Opened(env), events));
      var r := ScanAll(env.run, Some(env.key), others, Lines(log));
      && (r.Ok? <==> FreshIds(events, others))
      && (r.Ok? ==>
            && r.value.info == SealedInfo(env)
            && (forall id :: id in r.value.receipts <==> FirstUse(events, id) < |events|)
            && forall id :: id in r.value.receipts ==> Faithful(env, events, id, r.value.receipts[id]))
  {
    var s := R.Fold(env, R.Opened(env), events);
    ScanOneMore(env.run, Some(env.key), others, s.log, R.NextRecord(env, s.log, R.SealKind(s)));
    if FreshIds(events, others) {
      RunInStep(env, others, events);
      var r := ScanAll(env.run, Some(env.key), others, Lines(s.log)).value;
      NextRecordChecks(env, events, s, r, R.SealKind(s));
      forall id
        ensures id in r.receipts <==> FirstUse(events, id) < |events|
        ensures id in r.receipts ==> Faithful(env, events, id, r.receipts[id])
      {
        assert AccountedId(env, events, s.seen, s.pending, r.receipts, id);
      }
    } else {
      TakenIdIsRefused(env, others, events);
    }
  }

  lemma TakenIdIsRefused(env: Env, others: set<string>, events: seq<Event>)
    requires !FreshIds(events, others)
    ensures ScanAll(env.run, Some(env.key), others, Lines(R.Fold(env, R.Opened(env), events).log)).Err?
  {
    var lines := Lines(R.Fold(env, R.Opened(env), events).log);
    var id :| id in others && FirstUse(events, id) < |events|;
    RunInStep(env, {}, events);
    ReaderIsExact(env.run, Some(env.key), {}, lines);
    var s, r := R.Fold(env, R.Opened(env), events), ScanAll(env.run, Some(env.key), {}, lines).value;
    assert AccountedId(env, events, s.seen, s.pending, r.receipts, id);
    var i :| IsDispatch(lines, i, id);
    ReaderIsExact(env.run, Some(env.key), others, lines);
    assert !LineOk(env.run, Some(env.key), others, lines, i);
  }

  /** One recorded run of a directory. */
  datatype Recorded = Recorded(env: Env, events: seq<Event>)

  predicate Dispatches(r: Recorded, id: string)
  {
    FirstUse(r.events, id) < |r.events|
  }

  function SealedFile(r: Recorded): RunFile
  {
    RunFile(r.env.run, Lines(R.SealedLog(r.env, R.Fold(r.env, R.Opened(r.env), r.events))))
  }

  function SealedFiles(runs: seq<Recorded>): (files: seq<RunFile>)
    ensures |files| == |runs|
  {
    seq(|runs|, i requires 0 <= i < |runs| => SealedFile(runs[i]))
  }

  ghost predicate NoSharedId(runs: seq<Recorded>)
  {
    forall i, j, id :: 0 <= i < j < |runs| && Dispatches(runs[i], id) ==> !Dispatches(runs[j], id)
  }

  ghost predicate NoSharedRun(runs: seq<Recorded>)
  {
    forall i, j :: 0 <= i < j < |runs| ==> runs[i].env.run != runs[j].env.run
  }

  /** If `r` dispatched `id`, the receipt of `id` is what `r` recorded. */
  ghost predicate ReceiptOf(r: Recorded, id: string, receipts: map<string, Receipt>)
  {
    Dispatches(r, id) ==> id in receipts && Faithful(r.env, r.events, id, receipts[id])
  }

  ghost predicate SomeDispatches(runs: seq<Recorded>, id: string)
  {
    exists i :: 0 <= i < |runs| && Dispatches(runs[i], id)
  }

  /** The ledger holds what the runs recorded, and nothing else: one receipt for each id any of
      them dispatched, faithful to the run that did. */
  ghost predicate Holds(runs: seq<Recorded>, receipts: map<string, Receipt>)
  {
    && (forall id :: id in receipts <==> SomeDispatches(runs, id))
    && forall i, id :: 0 <= i < |runs| ==> ReceiptOf(runs[i], id, receipts)
  }

  ghost predicate Listed(runs: seq<Recorded>, infos: map<string, RunInfo>)
  {
    && (forall i :: 0 <= i < |runs| ==> ListedAs(runs[i], infos))
    && forall run :: run in infos ==> exists i :: 0 <= i < |runs| && runs[i].env.run == run
  }

  ghost predicate ListedAs(r: Recorded, infos: map<string, RunInfo>)
  {
    r.env.run in infos && infos[r.env.run] == SealedInfo(r.env)
  }

  lemma SomeDispatchesMore(front: seq<Recorded>, last: Recorded, id: string)
    ensures SomeDispatches(front + [last], id) <==> SomeDispatches(front, id) || Dispatches(last, id)
  {
    var runs := front + [last];
    if i :| 0 <= i < |front| && Dispatches(front[i], id) { assert Dispatches(runs[i], id); }
    if Dispatches(last, id) { assert Dispatches(runs[|front|], id); }
  }

  lemma HoldsMore(front: seq<Recorded>, last: Recorded, receipts: map<string, Receipt>, more: map<string, Receipt>)
    requires Holds(front, receipts) && FreshIds(last.events, receipts.Keys)
    requires forall id :: id in more <==> Dispatches(last, id)
    requires forall id :: ReceiptOf(last, id, more)
    ensures Holds(front + [last], receipts + more)
  {
    var all := receipts + more;
    forall id ensures id in all <==> SomeDispatches(front + [last], id) {
      SomeDispatchesMore(front, last, id);
    }
    forall i, id | 0 <= i < |front| ensures ReceiptOf(front[i], id, all) {
      assert ReceiptOf(front[i], id, receipts);
      assert id in receipts ==> id !in more;
    }
    forall id ensures ReceiptOf(last, id, all) {
      assert ReceiptOf(last, id, more);
    }
  }

  lemma ListedMore(front: seq<Recorded>, last: Recorded, infos: map<string, RunInfo>)
    requires Listed(front, infos) && NoSharedRun(front + [last])
    ensures Listed(front + [last], infos[last.env.run := SealedInfo(last.env)])
  {
    var runs, infos' := front + [last], infos[last.env.run := SealedInfo(last.env)];
    forall i | 0 <= i < |runs| ensures ListedAs(runs[i], infos') {
      if i < |front| { assert ListedAs(front[i], infos) && runs[i].env.run != runs[|front|].env.run; }
    }
    forall run | run in infos' ensures exists i :: 0 <= i < |runs| && runs[i].env.run == run {
      if run == last.env.run {
        assert runs[|front|].env.run == run;
      } else {
        var i :| 0 <= i < |front| && front[i].env.run == run;
        assert runs[i].env.run == run;
      }
    }
  }

  lemma SharedStaysShared(front: seq<Recorded>, last: Recorded)
    requires !NoSharedId(front)
    ensures !NoSharedId(front + [last])
  {
    var i, j, id :| 0 <= i < j < |front| && Dispatches(front[i], id) && Dispatches(front[j], id);
    assert Dispatches((front + [last])[i], id) && Dispatches((front + [last])[j], id);
  }

  lemma LastShares(front: seq<Recorded>, last: Recorded, taken: set<string>)
    requires NoSharedId(front)
    requires forall id :: id in taken <==> SomeDispatches(front, id)
    ensures FreshIds(last.events, taken) <==> NoSharedId(front + [last])
  {
    var runs := front + [last];
    if FreshIds(last.events, taken) {
      forall i, j, id | 0 <= i < j < |runs| && Dispatches(runs[i], id) ensures !Dispatches(runs[j], id) {
        assert Dispatches(front[i], id);
        assert SomeDispatches(front, id);
      }
    } else {
      var id :| id in taken && Dispatches(last, id);
      var i :| 0 <= i < |front| && Dispatches(front[i], id);
      assert Dispatches(runs[i], id) && Dispatches(runs[|front|], id);
    }
  }

  lemma ReadOneMore(front: seq<Recorded>, last: Recorded, key: Key)
    requires last.env.key == key
    ensures var before := ReadFiles(SealedFiles(front), Some(key));
      ReadFiles(SealedFiles(front + [last]), Some(key)) ==
        if before.Err? then before
        else
          var r := ScanAll(last.env.run, Some(key), before.value.receipts.Keys, SealedFile(last).lines);
          if r.Err? then Err(r.error)
          else Ok(LedgerValue(before.value.receipts + r.value.receipts, before.value.runs[last.env.run := r.value.info]))
  {
    assert SealedFiles(front + [last])[..|front|] == SealedFiles(front);
  }

  /** A directory of recorded runs reads as a whole exactly when no two of them dispatched the
      same id, and then holds what the runs recorded; run names being distinct, it lists each
      of them as sealed, and no other. */
  lemma {:induction false} RecordedDirectory(runs: seq<Recorded>, key: Key)
    requires forall i :: 0 <= i < |runs| ==> runs[i].env.key == key
    ensures ReadFiles(SealedFiles(runs), Some(key)).Ok? <==> NoSharedId(runs)
    ensures var r := ReadFiles(SealedFiles(runs), Some(key));
      r.Ok? ==> Holds(runs, r.value.receipts) && (NoSharedRun(runs) ==> Listed(runs, r.value.runs))
  {
    if runs != [] {
      var n := |runs| - 1;
      var front, last := runs[..n], runs[n];
      assert runs == front + [last];
      RecordedDirectory(front, key);
      ReadOneMore(front, last, key);
      if NoSharedId(front) {
        var v := ReadFiles(SealedFiles(front), Some(key)).value;
        LastShares(front, last, v.receipts.Keys);
        SealedRunIsRebuilt(last.env, v.receipts.Keys, last.events);
        if NoSharedId(runs) {
          LastRunHeld(front, last, v);
        }
      } else {
        SharedStaysShared(front, last);
      }
    }
  }

  lemma LastRunHeld(front: seq<Recorded>, last: Recorded, v: LedgerValue)
    requires Holds(front, v.receipts) && FreshIds(last.events, v.receipts.Keys)
    requires NoSharedRun(front) ==> Listed(front, v.runs)
    ensures var r := ScanAll(last.env.run, Some(last.env.key), v.receipts.Keys, SealedFile(last).lines);
      && r.Ok?
      && Holds(front + [last], v.receipts + r.value.receipts)
      && (NoSharedRun(front + [last]) ==> Listed(front + [last], v.runs[last.env.run := r.value.info]))
  {
    SealedRunIsRebuilt(last.env, v.receipts.Keys, last.events);
    var r := ScanAll(last.env.run, Some(last.env.key), v.receipts.Keys, SealedFile(last).lines).value;
    HoldsMore(front, last, v.receipts, r.receipts);
    if NoSharedRun(front + [last]) {
      forall i, j | 0 <= i < j < |front| ensures front[i].env.run != front[j].env.run {
        assert (front + [last])[i].env.run != (front + [last])[j].env.run;
      }
      ListedMore(front, last, v.runs);
    }
  }

  /** What is seen is either completed or pending, and the log is one chain. */
  ghost predicate Consistent(env: Env, s: State)
  {
    s.pending <= s.seen && s.completed + |s.pending| == |s.seen| && Chained(env.run, env.key, s.log)
  }

  lemma ReactKeepsConsistent(env: Env, s: State, e: Event)
    requires Consistent(env, s)
    ensures Consistent(env, R.React(env, s, e))
  {
    if e.Use? && e.id !in s.seen {
      ChainGrows(env, s.log, R.DispatchKind(e));
      assert e.id !in s.pending;
    } else if e.Result? && e.id in s.pending {
      ChainGrows(env, s.log, R.CompleteKind(e));
    }
  }

  /** Every run: the counts the seal reports add up, and the whole log is one chain. */
  lemma {:induction false} RecorderInvariant(env: Env, events: seq<Event>)
    ensures var s := R.Fold(env, R.Opened(env), events);
      Consistent(env, s) && Chained(env.run, env.key, R.SealedLog(env, s))
  {
    var s := R.Fold(env, R.Opened(env), events);
    if events == [] {
      ChainGrows(env, [], Open(env.sandbox, env.roster));
    } else {
      var n := |events| - 1;
      RecorderInvariant(env, events[..n]);
      ReactKeepsConsistent(env, R.Fold(env, R.Opened(env), events[..n]), events[n]);
    }
    ChainGrows(env, s.log, R.SealKind(s));
  }

  lemma ChainGrows(env: Env, log: seq<Record>, kind: Kind)
    requires Chained(env.run, env.key, log)
    ensures Chained(env.run, env.key, log + [R.NextRecord(env, log, kind)])
  {
    var all := log + [R.NextRecord(env, log, kind)];
    forall i | 0 <= i < |all|
      ensures all[i].body.prev == Tip(env.run, all[..i])
      ensures all[i].mac == Hmac(env.key, all[i].body) && all[i].body.run == env.run && all[i].body.seqNo == i
    {
      assert all[..i] == log[..i];
      if i == |log| { assert log[..i] == log; }
    }
  }

  // ---------- Binding ----------

  /** Two authenticated files of one run that end in the same mac are the same file. */
  lemma {:induction false} ChainBinds(run: string, key: Key, others: set<string>, others': set<string>, a: seq<Line>, b: seq<Line>)
    requires WellFormed(run, Some(key), others, a) && WellFormed(run, Some(key), others', b)
    requires a != [] && b != [] && a[|a| - 1].Rec? && b[|b| - 1].Rec?
    requires a[|a| - 1].record.mac == b[|b| - 1].record.mac
    ensures a == b
  {
    var n := |a| - 1;
    assert LineOk(run, Some(key), others, a, n);
    assert LineOk(run, Some(key), others', b, |b| - 1);
    assert |b| == |a|;
    if n > 0 {
      WellFormedPrefix(run, Some(key), others, a, n);
      WellFormedPrefix(run, Some(key), others', b, n);
      ChainBinds(run, key, others, others', a[..n], b[..n]);
    }
    assert a == a[..n] + [a[n]];
    assert b == b[..n] + [b[n]];
  }

  /** A mac some writer issued. */
  ghost predicate Issued(logs: map<string, seq<Record>>, mac: Mac)
  {
    exists run, k :: IssuedAt(logs, mac, run, k)
  }

  ghost predicate IssuedAt(logs: map<string, seq<Record>>, mac: Mac, run: string, k: int)
  {
    run in logs && 0 <= k < |logs[run]| && logs[run][k].mac == mac
  }

  /** Without the key, which is to say using only macs that writers issued under it, the one
      file a reader accepts for a run is a prefix of what that run's own writer wrote. */
  lemma {:induction false} OnlyPrefixesAreAccepted(run: string, key: Key, others: set<string>, lines: seq<Line>, logs: map<string, seq<Record>>)
    requires forall r :: r in logs ==> Chained(r, key, logs[r])
    requires ScanAll(run, Some(key), others, lines).Ok?
    requires forall i :: 0 <= i < |lines| && lines[i].Rec? ==> Issued(logs, lines[i].record.mac)
    ensures lines != [] ==> run in logs && lines <= Lines(logs[run])
  {
    ReaderIsExact(run, Some(key), others, lines);
    forall i | 0 <= i < |lines|
      ensures run in logs && i < |logs[run]| && lines[i] == Rec(logs[run][i])
    {
      assert LineOk(run, Some(key), others, lines, i);
      var record := lines[i].record;
      var r, k :| IssuedAt(logs, record.mac, r, k);
      assert logs[r][k].mac == Hmac(key, logs[r][k].body);
    }
  }

  // ---------- Losing records ----------

  ghost function Reopened(r: Receipt): Receipt
  {
    r.(completedAt := None, isError := false, attests := [])
  }

  /** Each receipt of `small` is one of `big`, complete with all its evidence or open with
      none of it. */
  ghost predicate NoMoreEvidence(small: map<string, Receipt>, big: map<string, Receipt>)
  {
    forall id :: id in small ==> id in big && (small[id] == big[id] || small[id] == Reopened(big[id]))
  }

  /** The scan does not depend on the other runs' ids beyond accepting or refusing. */
  lemma {:induction false} SameScan(run: string, key: Option<Key>, few: set<string>, many: set<string>, lines: seq<Line>)
    requires few <= many && ScanAll(run, key, many, lines).Ok?
    ensures ScanAll(run, key, few, lines) == ScanAll(run, key, many, lines)
  {
    if lines != [] {
      SameScan(run, key, few, many, lines[..|lines| - 1]);
    }
  }

  lemma StepOnlyAdds(run: string, key: Option<Key>, others: set<string>, small: map<string, Receipt>, s: Scan, t: Scan, line: Line)
    requires Step(run, key, others, s, line) == Ok(t) && NoMoreEvidence(small, s.receipts)
    requires forall id :: id in s.receipts && s.receipts[id].completedAt.None? ==> Reopened(s.receipts[id]) == s.receipts[id]
    ensures NoMoreEvidence(small, t.receipts)
    ensures forall id :: id in t.receipts && t.receipts[id].completedAt.None? ==> Reopened(t.receipts[id]) == t.receipts[id]
  {
    StepTouches(run, key, others, s, t, line);
    forall id | id in small
      ensures id in t.receipts && (small[id] == t.receipts[id] || small[id] == Reopened(t.receipts[id]))
    {
      assert id in s.receipts && (small[id] == s.receipts[id] || small[id] == Reopened(s.receipts[id]));
    }
  }

  lemma SealIsLast(run: string, key: Option<Key>, others: set<string>, lines: seq<Line>, n: nat)
    requires n < |lines| && ScanAll(run, key, others, lines).Ok? && ScanAll(run, key, others, lines[..n]).Ok?
    ensures !ScanAll(run, key, others, lines[..n]).value.isSealed
  {
    ReaderIsExact(run, key, others, lines[..n]);
    ReaderIsExact(run, key, others, lines);
    assert LineOk(run, key, others, lines, n);
    forall i | 0 <= i < n ensures !IsSeal(lines[..n], i) {
      assert !IsSeal(lines, i);
    }
  }

  lemma {:induction false} TruncationLosesEvidence(run: string, key: Option<Key>, others: set<string>, lines: seq<Line>, n: nat)
    requires n <= |lines| && ScanAll(run, key, others, lines).Ok?
    ensures ScanAll(run, key, others, lines[..n]).Ok?
    ensures var full := ScanAll(run, key, others, lines).value;
      && NoMoreEvidence(ScanAll(run, key, others, lines[..n]).value.receipts, full.receipts)
      && (forall id :: id in full.receipts && full.receipts[id].completedAt.None? ==> Reopened(full.receipts[id]) == full.receipts[id])
    ensures ScanAll(run, key, others, lines[..n]).value.isSealed ==> n == |lines|
    decreases |lines|
  {
    var m := |lines| - 1;
    if n == |lines| {
      assert lines[..n] == lines;
      if lines != [] {
        TruncationLosesEvidence(run, key, others, lines[..m], m);
        StepOnlyAdds(run, key, others, map[], ScanAll(run, key, others, lines[..m]).value, ScanAll(run, key, others, lines).value, lines[m]);
      }
    } else {
      assert lines[..m][..n] == lines[..n];
      TruncationLosesEvidence(run, key, others, lines[..m], n);
      StepOnlyAdds(run, key, others, ScanAll(run, key, others, lines[..n]).value.receipts,
                   ScanAll(run, key, others, lines[..m]).value, ScanAll(run, key, others, lines).value, lines[m]);
      SealIsLast(run, key, others, lines, n);
    }
  }

  /** `small` is the directory `big` after whole runs were deleted and tails were cut off. */
  ghost predicate Degraded(small: seq<RunFile>, big: seq<RunFile>)
  {
    if big == [] then small == []
    else
      var n, m := |big| - 1, |small| - 1;
      || Degraded(small, big[..n])
      || (small != [] && small[m].run == big[n].run && small[m].lines <= big[n].lines && Degraded(small[..m], big[..n]))
  }

  lemma {:induction false} RunsAreFiles(files: seq<RunFile>, key: Option<Key>)
    requires ReadFiles(files, key).Ok?
    ensures forall run :: run in ReadFiles(files, key).value.runs <==> exists k :: 0 <= k < |files| && files[k].run == run
  {
    if files != [] {
      var n := |files| - 1;
      RunsAreFiles(files[..n], key);
      assert forall k :: 0 <= k < n ==> files[..n][k] == files[k];
    }
  }

  /** The name of the last file is not among the others. */
  lemma LastRunIsNew(files: seq<RunFile>, key: Option<Key>)
    requires files != [] && DistinctRuns(files) && ReadFiles(files, key).Ok?
    ensures DistinctRuns(files[..|files| - 1])
    ensures files[|files| - 1].run !in ReadFiles(files[..|files| - 1], key).value.runs
  {
    RunsAreFiles(files[..|files| - 1], key);
  }

  /** No more evidence, no more runs, and a run that reads as sealed reads the same. */
  ghost predicate NoMore(v: LedgerValue, w: LedgerValue)
  {
    && NoMoreEvidence(v.receipts, w.receipts)
    && v.runs.Keys <= w.runs.Keys
    && forall run :: run in v.runs && v.runs[run].isSealed ==> v.runs[run] == w.runs[run]
  }

  /** Losing records only loses evidence: whatever an accepted directory holds, with runs
      deleted and tails cut off it is still accepted, and no receipt, completion or sign-off
      is there that the whole directory does not have. A run that still reads as sealed has
      lost nothing. */
  lemma {:induction false} LosingRecordsLosesEvidence(small: seq<RunFile>, big: seq<RunFile>, key: Option<Key>)
    requires Degraded(small, big) && DistinctRuns(big)
    requires ReadFiles(big, key).Ok?
    ensures ReadFiles(small, key).Ok? && NoMore(ReadFiles(small, key).value, ReadFiles(big, key).value)
    decreases |big|
  {
    if big != [] {
      var n, m := |big| - 1, |small| - 1;
      LastRunIsNew(big, key);
      var last, w0 := big[n], ReadFiles(big[..n], key).value;
      if Degraded(small, big[..n]) {
        LosingRecordsLosesEvidence(small, big[..n], key);
        ScanOwnsItsReceipts(last.run, key, w0.receipts.Keys, last.lines);
      } else {
        LosingRecordsLosesEvidence(small[..m], big[..n], key);
        LastRunLosesEvidence(small[m], last, ReadFiles(small[..m], key).value, w0, key);
      }
    }
  }

  lemma LastRunLosesEvidence(cut: RunFile, last: RunFile, v0: LedgerValue, w0: LedgerValue, key: Option<Key>)
    requires cut.run == last.run && cut.lines <= last.lines
    requires NoMoreEvidence(v0.receipts, w0.receipts)
    requires ScanAll(last.run, key, w0.receipts.Keys, last.lines).Ok?
    ensures var r := ScanAll(cut.run, key, v0.receipts.Keys, cut.lines);
      var full := ScanAll(last.run, key, w0.receipts.Keys, last.lines).value;
      && r.Ok?
      && NoMoreEvidence(v0.receipts + r.value.receipts, w0.receipts + full.receipts)
      && (r.value.info.isSealed ==> r.value.info == full.info)
  {
    var n := |cut.lines|;
    var others := w0.receipts.Keys;
    assert cut.lines == last.lines[..n];
    TruncationLosesEvidence(last.run, key, others, last.lines, n);
    SameScan(last.run, key, v0.receipts.Keys, others, cut.lines);
    ScanOwnsItsReceipts(last.run, key, others, last.lines);
    ReaderIsExact(last.run, key, others, cut.lines);
    if n == |last.lines| { assert cut.lines == last.lines; }
  }
}
