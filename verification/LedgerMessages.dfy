/** From messages to receipts: what the recorder makes of a stream of harness messages, said of
    the messages and their blocks, by position. */
module LedgerMessages {
  import opened Common
  import opened LedgerRecords
  import opened LedgerReader
  import opened LedgerRecorder
  import T = LedgerTheorems

  // ---------- Positions ----------

  function BlocksOf(msg: Msg): seq<Block>
  {
    if msg.content.Some? then msg.content.value else []
  }

  ghost predicate Stands(msgs: seq<Msg>, m: nat, b: nat)
  {
    m < |msgs| && b < |BlocksOf(msgs[m])|
  }

  /** Earlier message, or the same message and an earlier block. */
  ghost predicate Before(m: nat, b: nat, m': nat, b': nat)
  {
    m < m' || (m == m' && b < b')
  }

  /** A dispatching tool call of the assistant, with this id. */
  ghost predicate DispatchedAt(msgs: seq<Msg>, m: nat, b: nat, id: string)
  {
    && Stands(msgs, m, b) && msgs[m].sender.Assistant? && id != ""
    && var block := BlocksOf(msgs[m])[b];
    block.ToolUse? && (block.name == "Agent" || block.name == "Task") && block.id == Some(id)
  }

  /** A tool result of the user, for this id. */
  ghost predicate AnsweredAt(msgs: seq<Msg>, m: nat, b: nat, id: string)
  {
    && Stands(msgs, m, b) && msgs[m].sender.User?
    && var block := BlocksOf(msgs[m])[b];
    block.ToolResult? && block.toolUseId == Some(id)
  }

  ghost predicate FirstDispatchAt(msgs: seq<Msg>, m: nat, b: nat, id: string)
  {
    && DispatchedAt(msgs, m, b, id)
    && forall m': nat, b': nat :: Before(m', b', m, b) ==> !DispatchedAt(msgs, m', b', id)
  }

  /** The first result after the dispatch at (m, b). */
  ghost predicate FirstAnswerAt(msgs: seq<Msg>, m: nat, b: nat, m': nat, b': nat, id: string)
  {
    && AnsweredAt(msgs, m', b', id) && Before(m, b, m', b')
    && forall x: nat, y: nat :: Before(m, b, x, y) && Before(x, y, m', b') ==> !AnsweredAt(msgs, x, y, id)
  }

  ghost predicate NeverAnswered(msgs: seq<Msg>, m: nat, b: nat, id: string)
  {
    forall x: nat, y: nat :: Before(m, b, x, y) ==> !AnsweredAt(msgs, x, y, id)
  }

  // ---------- The events of a stream, by position ----------

  ghost function EventsUpTo(msgs: seq<Msg>, m: nat, b: nat): seq<Event>
    requires Stands(msgs, m, b)
  {
    StreamEvents(msgs[..m]) + BlockEvents(msgs[m], BlocksOf(msgs[m])[..b])
  }

  ghost function EventAt(msgs: seq<Msg>, m: nat, b: nat): seq<Event>
    requires Stands(msgs, m, b)
  {
    BlockEvent(msgs[m], BlocksOf(msgs[m])[b])
  }

  lemma {:induction false} StreamPrefix(msgs: seq<Msg>, m: nat)
    requires m <= |msgs|
    ensures StreamEvents(msgs[..m]) <= StreamEvents(msgs)
    decreases |msgs|
  {
    if m == |msgs| {
      assert msgs[..m] == msgs;
    } else {
      StreamPrefix(msgs[..|msgs| - 1], m);
      assert msgs[..|msgs| - 1][..m] == msgs[..m];
    }
  }

  lemma {:induction false} BlocksPrefix(msg: Msg, blocks: seq<Block>, b: nat)
    requires b <= |blocks|
    ensures BlockEvents(msg, blocks[..b]) <= BlockEvents(msg, blocks)
    decreases |blocks|
  {
    if b == |blocks| {
      assert blocks[..b] == blocks;
    } else {
      BlocksPrefix(msg, blocks[..|blocks| - 1], b);
      assert blocks[..|blocks| - 1][..b] == blocks[..b];
    }
  }

  lemma {:induction false} NextBlock(msgs: seq<Msg>, m: nat, b: nat)
    requires Stands(msgs, m, b)
    ensures EventsUpTo(msgs, m, b) + EventAt(msgs, m, b)
         == StreamEvents(msgs[..m]) + BlockEvents(msgs[m], BlocksOf(msgs[m])[..b + 1])
  {
    var blocks := BlocksOf(msgs[m]);
    assert blocks[..b + 1][..b] == blocks[..b];
  }

  lemma {:induction false} NextMessage(msgs: seq<Msg>, m: nat)
    requires m < |msgs|
    ensures StreamEvents(msgs[..m + 1]) == StreamEvents(msgs[..m]) + BlockEvents(msgs[m], BlocksOf(msgs[m]))
  {
    assert msgs[..m + 1][..m] == msgs[..m];
  }

  /** What a position contributes comes before the rest of its message and what follows it. */
  lemma {:induction false} WithinStream(msgs: seq<Msg>, m: nat, b: nat, n: nat)
    requires Stands(msgs, m, b) && m < n <= |msgs|
    ensures EventsUpTo(msgs, m, b) + EventAt(msgs, m, b) <= StreamEvents(msgs[..n])
  {
    var blocks := BlocksOf(msgs[m]);
    NextBlock(msgs, m, b);
    NextMessage(msgs, m);
    BlocksPrefix(msgs[m], blocks, b + 1);
    StreamPrefix(msgs[..n], m + 1);
    assert msgs[..n][..m + 1] == msgs[..m + 1];
  }

  lemma {:induction false} LaterPosition(msgs: seq<Msg>, m: nat, b: nat, m': nat, b': nat)
    requires Stands(msgs, m, b) && Stands(msgs, m', b') && Before(m, b, m', b')
    ensures EventsUpTo(msgs, m, b) + EventAt(msgs, m, b) <= EventsUpTo(msgs, m', b')
  {
    if m == m' {
      var blocks := BlocksOf(msgs[m]);
      NextBlock(msgs, m, b);
      BlocksPrefix(msgs[m], blocks[..b'], b + 1);
      assert blocks[..b'][..b + 1] == blocks[..b + 1];
    } else {
      WithinStream(msgs, m, b, m');
    }
  }

  /** The event of a position that has one, at its place in the stream. */
  lemma {:induction false} EventStands(msgs: seq<Msg>, m: nat, b: nat, e: Event)
    requires Stands(msgs, m, b) && EventAt(msgs, m, b) == [e]
    ensures var k := |EventsUpTo(msgs, m, b)|; k < |StreamEvents(msgs)| && StreamEvents(msgs)[k] == e
  {
    WithinStream(msgs, m, b, |msgs|);
    assert msgs[..|msgs|] == msgs;
    var upTo := EventsUpTo(msgs, m, b);
    assert (upTo + [e])[|upTo|] == e;
  }

  lemma {:induction false} BlockOfEvent(msg: Msg, blocks: seq<Block>, k: nat) returns (b: nat)
    requires k < |BlockEvents(msg, blocks)|
    ensures b < |blocks| && |BlockEvents(msg, blocks[..b])| == k
    ensures BlockEvent(msg, blocks[b]) == [BlockEvents(msg, blocks)[k]]
  {
    var n := |blocks| - 1;
    if k < |BlockEvents(msg, blocks[..n])| {
      b := BlockOfEvent(msg, blocks[..n], k);
      assert blocks[..n][..b] == blocks[..b];
    } else {
      b := n;
    }
  }

  /** Every event of the stream comes from one position. */
  lemma {:induction false} PositionOfEvent(msgs: seq<Msg>, k: nat) returns (m: nat, b: nat)
    requires k < |StreamEvents(msgs)|
    ensures Stands(msgs, m, b) && |EventsUpTo(msgs, m, b)| == k && EventAt(msgs, m, b) == [StreamEvents(msgs)[k]]
  {
    var n := |msgs| - 1;
    var front := msgs[..n];
    if k < |StreamEvents(front)| {
      m, b := PositionOfEvent(front, k);
      assert front[..m] == msgs[..m];
    } else {
      m := n;
      b := BlockOfEvent(msgs[n], BlocksOf(msgs[n]), k - |StreamEvents(front)|);
    }
  }

  /** Positions and their events are in the same order. */
  lemma {:induction false} SameOrder(msgs: seq<Msg>, m: nat, b: nat, m': nat, b': nat)
    requires Stands(msgs, m, b) && Stands(msgs, m', b')
    requires EventAt(msgs, m, b) != [] && EventAt(msgs, m', b') != []
    ensures Before(m, b, m', b') <==> |EventsUpTo(msgs, m, b)| < |EventsUpTo(msgs, m', b')|
  {
    if Before(m, b, m', b') {
      LaterPosition(msgs, m, b, m', b');
    } else if (m, b) != (m', b') {
      LaterPosition(msgs, m', b', m, b);
    }
  }

  lemma UseIsDispatch(msgs: seq<Msg>, m: nat, b: nat, id: string)
    requires Stands(msgs, m, b)
    ensures DispatchedAt(msgs, m, b, id) <==> EventAt(msgs, m, b) != [] && T.IsUse(EventAt(msgs, m, b)[0], id)
    ensures AnsweredAt(msgs, m, b, id) <==> EventAt(msgs, m, b) != [] && T.IsResult(EventAt(msgs, m, b)[0], id)
    ensures |EventAt(msgs, m, b)| <= 1
  {
  }

  /** The first dispatch by position is the first dispatch of the stream. */
  lemma {:induction false} FirstUseIs(msgs: seq<Msg>, m: nat, b: nat, id: string)
    requires FirstDispatchAt(msgs, m, b, id)
    ensures T.FirstUse(StreamEvents(msgs), id) == |EventsUpTo(msgs, m, b)|
    ensures T.FirstUse(StreamEvents(msgs), id) < |StreamEvents(msgs)|
    ensures [StreamEvents(msgs)[T.FirstUse(StreamEvents(msgs), id)]] == EventAt(msgs, m, b)
  {
    var k := T.FirstUse(StreamEvents(msgs), id);
    UseIsDispatch(msgs, m, b, id);
    EventStands(msgs, m, b, EventAt(msgs, m, b)[0]);
    var x, y := PositionOfEvent(msgs, k);
    UseIsDispatch(msgs, x, y, id);
    SameOrder(msgs, x, y, m, b);
  }

  lemma {:induction false} SomeDispatchIsUse(msgs: seq<Msg>, id: string)
    ensures T.FirstUse(StreamEvents(msgs), id) < |StreamEvents(msgs)| <==>
      exists m: nat, b: nat :: DispatchedAt(msgs, m, b, id)
  {
    var k := T.FirstUse(StreamEvents(msgs), id);
    if k < |StreamEvents(msgs)| {
      var m, b := PositionOfEvent(msgs, k);
      UseIsDispatch(msgs, m, b, id);
    }
    if m: nat, b: nat :| DispatchedAt(msgs, m, b, id) {
      UseIsDispatch(msgs, m, b, id);
      EventStands(msgs, m, b, EventAt(msgs, m, b)[0]);
    }
  }

  /** The first answer by position is the first answer of the stream, if there is one. */
  lemma {:induction false} FirstResultIs(msgs: seq<Msg>, m: nat, b: nat, m': nat, b': nat, id: string)
    requires FirstDispatchAt(msgs, m, b, id) && FirstAnswerAt(msgs, m, b, m', b', id)
    ensures T.FirstResult(StreamEvents(msgs), id) == |EventsUpTo(msgs, m', b')|
    ensures T.FirstResult(StreamEvents(msgs), id) < |StreamEvents(msgs)|
    ensures [StreamEvents(msgs)[T.FirstResult(StreamEvents(msgs), id)]] == EventAt(msgs, m', b')
  {
    FirstUseIs(msgs, m, b, id);
    UseIsDispatch(msgs, m, b, id);
    UseIsDispatch(msgs, m', b', id);
    EventStands(msgs, m', b', EventAt(msgs, m', b')[0]);
    SameOrder(msgs, m, b, m', b');
    var k := T.FirstResult(StreamEvents(msgs), id);
    assert k <= |EventsUpTo(msgs, m', b')|;
    var x, y := PositionOfEvent(msgs, k);
    UseIsDispatch(msgs, x, y, id);
    SameOrder(msgs, m, b, x, y);
    SameOrder(msgs, x, y, m', b');
  }

  lemma {:induction false} NoResultIs(msgs: seq<Msg>, m: nat, b: nat, id: string)
    requires FirstDispatchAt(msgs, m, b, id)
    ensures T.FirstResult(StreamEvents(msgs), id) == |StreamEvents(msgs)| <==> NeverAnswered(msgs, m, b, id)
  {
    FirstUseIs(msgs, m, b, id);
    UseIsDispatch(msgs, m, b, id);
    var k := T.FirstResult(StreamEvents(msgs), id);
    if k < |StreamEvents(msgs)| {
      var x, y := PositionOfEvent(msgs, k);
      UseIsDispatch(msgs, x, y, id);
      SameOrder(msgs, m, b, x, y);
    }
    if x: nat, y: nat :| Before(m, b, x, y) && AnsweredAt(msgs, x, y, id) {
      UseIsDispatch(msgs, x, y, id);
      EventStands(msgs, x, y, EventAt(msgs, x, y)[0]);
      SameOrder(msgs, m, b, x, y);
    }
  }

  // ---------- The receipts ----------

  /** The role a tool call asks for; without one it is the general-purpose role. */
  ghost predicate RoleAskedFor(block: Block, role: string)
    requires block.ToolUse?
  {
    && (forall s :: block.subagentType == Some(s) && s != "" ==> role == s)
    && (block.subagentType == None || block.subagentType == Some("") ==> role == "general-purpose")
  }

  /** At most the first 200 characters. */
  ghost predicate Shortened(short: string, text: string)
  {
    short <= text && (|text| <= 200 ==> |short| == |text|) && (|text| > 200 ==> |short| == 200)
  }

  /** The receipt says what the tool call at (m, b) says. */
  ghost predicate SaysDispatch(msgs: seq<Msg>, m: nat, b: nat, run: string, r: Receipt)
    requires Stands(msgs, m, b) && BlocksOf(msgs[m])[b].ToolUse?
  {
    var block := BlocksOf(msgs[m])[b];
    && Some(r.receipt) == block.id && r.run == run
    && RoleAskedFor(block, r.role) && Shortened(r.description, block.description)
    && r.parent == msgs[m].parent && r.background == block.background
    && r.dictated == Attestations(block.prompt.signoffs)
  }

  /** The receipt is completed with what the tool result at (m, b) says. */
  ghost predicate SaysAnswer(msgs: seq<Msg>, m: nat, b: nat, r: Receipt)
    requires Stands(msgs, m, b) && BlocksOf(msgs[m])[b].ToolResult?
  {
    var block := BlocksOf(msgs[m])[b];
    r.completedAt.Some? && r.isError == block.isError && r.attests == Attestations(block.text.signoffs)
  }

  lemma UseSays(msgs: seq<Msg>, m: nat, b: nat, id: string, run: string, r: Receipt)
    requires DispatchedAt(msgs, m, b, id) && EventAt(msgs, m, b) != []
    requires var e := EventAt(msgs, m, b)[0];
      && e.Use? && r.receipt == e.id && r.run == run && r.role == e.role && r.parent == e.parent
      && r.description == e.description && r.background == e.background && r.dictated == Attestations(e.prompt.signoffs)
    ensures SaysDispatch(msgs, m, b, run, r)
  {
  }

  /** The receipt of an id, by the positions of its first dispatch and first answer. */
  lemma {:induction false} FaithfulToMessages(env: Env, msgs: seq<Msg>, m: nat, b: nat, id: string, r: Receipt)
    requires FirstDispatchAt(msgs, m, b, id) && T.Faithful(env, StreamEvents(msgs), id, r)
    ensures SaysDispatch(msgs, m, b, env.run, r)
    ensures forall x: nat, y: nat :: FirstAnswerAt(msgs, m, b, x, y, id) ==> SaysAnswer(msgs, x, y, r)
    ensures NeverAnswered(msgs, m, b, id) ==> r.completedAt == None && !r.isError && r.attests == []
  {
    FirstUseIs(msgs, m, b, id);
    UseSays(msgs, m, b, id, env.run, r);
    NoResultIs(msgs, m, b, id);
    forall x: nat, y: nat | FirstAnswerAt(msgs, m, b, x, y, id) ensures SaysAnswer(msgs, x, y, r) {
      FirstResultIs(msgs, m, b, x, y, id);
    }
  }

  /** What a run's receipts say of its messages. */
  ghost predicate Retold(env: Env, msgs: seq<Msg>, receipts: map<string, Receipt>)
  {
    && (forall id :: id in receipts <==> exists m: nat, b: nat :: DispatchedAt(msgs, m, b, id))
    && forall m: nat, b: nat, id :: FirstDispatchAt(msgs, m, b, id) ==> RetoldAt(env, msgs, m, b, id, receipts)
  }

  ghost predicate RetoldAt(env: Env, msgs: seq<Msg>, m: nat, b: nat, id: string, receipts: map<string, Receipt>)
    requires FirstDispatchAt(msgs, m, b, id)
  {
    && id in receipts && SaysDispatch(msgs, m, b, env.run, receipts[id])
    && (forall x: nat, y: nat :: FirstAnswerAt(msgs, m, b, x, y, id) ==> SaysAnswer(msgs, x, y, receipts[id]))
    && (NeverAnswered(msgs, m, b, id) ==> receipts[id].completedAt == None && !receipts[id].isError && receipts[id].attests == [])
  }

  /** The sealed log of a stream of messages reads back, exactly when no id it dispatches is
      taken by another run: one receipt for each id that a tool call of the assistant named
      "Agent" or "Task" carries, saying what the first such call and the first result after it
      say. */
  lemma {:induction false} MessagesAreRetold(env: Env, others: set<string>, msgs: seq<Msg>, log: seq<Record>)
    requires log == SealedLog(env, Fold(env, Opened(env), StreamEvents(msgs)))
    ensures var r := ScanAll(env.run, Some(env.key), others, Lines(log));
      && (r.Ok? <==> forall m: nat, b: nat, id :: DispatchedAt(msgs, m, b, id) ==> id !in others)
      && (r.Ok? ==> Retold(env, msgs, r.value.receipts))
  {
    var events := StreamEvents(msgs);
    T.SealedRunIsRebuilt(env, others, events);
    forall id ensures T.FirstUse(events, id) < |events| <==> exists m: nat, b: nat :: DispatchedAt(msgs, m, b, id) {
      SomeDispatchIsUse(msgs, id);
    }
    var r := ScanAll(env.run, Some(env.key), others, Lines(log));
    if r.Ok? {
      forall m: nat, b: nat, id | FirstDispatchAt(msgs, m, b, id) ensures RetoldAt(env, msgs, m, b, id, r.value.receipts) {
        FaithfulToMessages(env, msgs, m, b, id, r.value.receipts[id]);
      }
    }
  }

  /** The first dispatch of a dispatched id, and its first answer if it is ever answered. */
  lemma {:induction false} FirstPositions(msgs: seq<Msg>, m: nat, b: nat, id: string) returns (x: nat, y: nat)
    requires DispatchedAt(msgs, m, b, id)
    ensures FirstDispatchAt(msgs, x, y, id)
    ensures NeverAnswered(msgs, x, y, id) || exists u: nat, v: nat :: FirstAnswerAt(msgs, x, y, u, v, id)
  {
    SomeDispatchIsUse(msgs, id);
    x, y := PositionOfEvent(msgs, T.FirstUse(StreamEvents(msgs), id));
    UseIsDispatch(msgs, x, y, id);
    forall p: nat, q: nat | Before(p, q, x, y) ensures !DispatchedAt(msgs, p, q, id) {
      if DispatchedAt(msgs, p, q, id) {
        UseIsDispatch(msgs, p, q, id);
        EventStands(msgs, p, q, EventAt(msgs, p, q)[0]);
        SameOrder(msgs, p, q, x, y);
      }
    }
    NoResultIs(msgs, x, y, id);
    if !NeverAnswered(msgs, x, y, id) {
      AnswerPosition(msgs, x, y, id);
    }
  }

  lemma {:induction false} AnswerPosition(msgs: seq<Msg>, x: nat, y: nat, id: string)
    requires FirstDispatchAt(msgs, x, y, id) && T.FirstResult(StreamEvents(msgs), id) < |StreamEvents(msgs)|
    ensures exists u: nat, v: nat :: FirstAnswerAt(msgs, x, y, u, v, id)
  {
    FirstUseIs(msgs, x, y, id);
    UseIsDispatch(msgs, x, y, id);
    var u, v := PositionOfEvent(msgs, T.FirstResult(StreamEvents(msgs), id));
    UseIsDispatch(msgs, u, v, id);
    SameOrder(msgs, x, y, u, v);
    forall p: nat, q: nat | Before(x, y, p, q) && Before(p, q, u, v) ensures !AnsweredAt(msgs, p, q, id) {
      if AnsweredAt(msgs, p, q, id) {
        UseIsDispatch(msgs, p, q, id);
        EventStands(msgs, p, q, EventAt(msgs, p, q)[0]);
        SameOrder(msgs, x, y, p, q);
        SameOrder(msgs, p, q, u, v);
      }
    }
    assert FirstAnswerAt(msgs, x, y, u, v, id);
  }

  // ---------- The records ----------

  ghost predicate Recorded(log: seq<Record>, kind: Kind)
  {
    exists i :: 0 <= i < |log| && log[i].body.kind == kind
  }

  ghost predicate UseRecorded(events: seq<Event>, log: seq<Record>, id: string)
  {
    var k := T.FirstUse(events, id);
    k < |events| ==> Recorded(log, DispatchKind(events[k]))
  }

  ghost predicate ResultRecorded(events: seq<Event>, log: seq<Record>, id: string)
  {
    var k := T.FirstResult(events, id);
    k < |events| ==> Recorded(log, CompleteKind(events[k]))
  }

  /** The kind is that of the first dispatch of some id, or of its first answer. */
  ghost predicate Called(events: seq<Event>, kind: Kind)
  {
    exists id :: CalledFor(events, kind, id)
  }

  ghost predicate CalledFor(events: seq<Event>, kind: Kind, id: string)
  {
    || (T.FirstUse(events, id) < |events| && kind == DispatchKind(events[T.FirstUse(events, id)]))
    || (T.FirstResult(events, id) < |events| && kind == CompleteKind(events[T.FirstResult(events, id)]))
  }

  /** What the recorder knows and has written of an id. */
  ghost predicate Kept(events: seq<Event>, s: State, id: string)
  {
    && (id in s.seen <==> T.FirstUse(events, id) < |events|)
    && (id in s.pending <==> T.FirstUse(events, id) < |events| && T.FirstResult(events, id) == |events|)
    && UseRecorded(events, s.log, id) && ResultRecorded(events, s.log, id)
  }

  lemma RecordedStill(log: seq<Record>, more: seq<Record>, kind: Kind)
    requires Recorded(log, kind)
    ensures Recorded(log + more, kind)
  {
    var i :| 0 <= i < |log| && log[i].body.kind == kind;
    assert (log + more)[i].body.kind == kind;
  }

  lemma RecordedNow(log: seq<Record>, record: Record)
    ensures Recorded(log + [record], record.body.kind)
  {
    assert (log + [record])[|log|] == record;
  }

  lemma KeptStill(env: Env, events: seq<Event>, e: Event, s: State, id: string)
    requires Kept(events, s, id)
    ensures Kept(events + [e], React(env, s, e), id)
  {
    T.OneMoreEvent(events, e, id);
    var all, s' := events + [e], React(env, s, e);
    assert all[|events|] == e;
    if T.FirstUse(events, id) < |events| {
      assert all[T.FirstUse(events, id)] == events[T.FirstUse(events, id)];
    }
    if T.FirstResult(events, id) < |events| {
      assert all[T.FirstResult(events, id)] == events[T.FirstResult(events, id)];
    }
    var added := s'.log[|s.log|..];
    assert s'.log == s.log + added;
    if T.FirstUse(events, id) < |events| {
      RecordedStill(s.log, added, DispatchKind(events[T.FirstUse(events, id)]));
    } else if T.IsUse(e, id) {
      RecordedNow(s.log, NextRecord(env, s.log, DispatchKind(e)));
    }
    if T.FirstResult(events, id) < |events| {
      RecordedStill(s.log, added, CompleteKind(events[T.FirstResult(events, id)]));
    } else if T.IsResult(e, id) && T.FirstUse(events, id) < |events| {
      RecordedNow(s.log, NextRecord(env, s.log, CompleteKind(e)));
    }
  }

  /** Every record after the first was called for, and each is dated when it was written. */
  ghost predicate AllCalled(env: Env, events: seq<Event>, log: seq<Record>)
  {
    && log != [] && log[0].body.kind == Open(env.sandbox, env.roster)
    && (forall i :: 0 <= i < |log| ==> log[i].body.ts == env.clock(i))
    && forall i :: 0 < i < |log| ==> Called(events, log[i].body.kind)
  }

  lemma CalledStill(events: seq<Event>, e: Event, kind: Kind)
    requires Called(events, kind)
    ensures Called(events + [e], kind)
  {
    var id :| CalledFor(events, kind, id);
    T.OneMoreEvent(events, e, id);
    assert forall k :: 0 <= k < |events| ==> (events + [e])[k] == events[k];
    assert CalledFor(events + [e], kind, id);
  }

  lemma CalledNow(env: Env, events: seq<Event>, e: Event, s: State)
    requires Kept(events, s, e.id) && AllCalled(env, events, s.log)
    ensures AllCalled(env, events + [e], React(env, s, e).log)
  {
    T.OneMoreEvent(events, e, e.id);
    var log' := React(env, s, e).log;
    assert (events + [e])[|events|] == e;
    forall i | 0 < i < |log'| ensures Called(events + [e], log'[i].body.kind) {
      if i < |s.log| {
        CalledStill(events, e, s.log[i].body.kind);
      } else {
        assert CalledFor(events + [e], log'[i].body.kind, e.id);
      }
    }
  }

  lemma {:induction false} FoldKeeps(env: Env, events: seq<Event>)
    ensures var s := Fold(env, Opened(env), events);
      AllCalled(env, events, s.log) && forall id :: Kept(events, s, id)
  {
    if events != [] {
      var n := |events| - 1;
      var front, e := events[..n], events[n];
      var s := Fold(env, Opened(env), front);
      assert events == front + [e];
      FoldKeeps(env, front);
      CalledNow(env, front, e, s);
      forall id ensures Kept(events, React(env, s, e), id) {
        KeptStill(env, front, e, s, id);
      }
    }
  }

  /** The record says what the tool call at (m, b) says. */
  ghost predicate RecordsDispatch(msgs: seq<Msg>, m: nat, b: nat, kind: Kind)
    requires Stands(msgs, m, b) && BlocksOf(msgs[m])[b].ToolUse?
  {
    var block := BlocksOf(msgs[m])[b];
    && kind.Dispatch? && Some(kind.receipt) == block.id
    && RoleAskedFor(block, kind.role) && Shortened(kind.description, block.description)
    && kind.parent == msgs[m].parent && kind.session == msgs[m].session && kind.background == block.background
    && kind.promptSha == Sha256(block.prompt.content) && kind.dictated == Attestations(block.prompt.signoffs)
  }

  /** The record says what the tool result at (m, b) says. */
  ghost predicate RecordsAnswer(msgs: seq<Msg>, m: nat, b: nat, kind: Kind)
    requires Stands(msgs, m, b) && BlocksOf(msgs[m])[b].ToolResult?
  {
    var block := BlocksOf(msgs[m])[b];
    && kind.Complete? && Some(kind.receipt) == block.toolUseId && kind.isError == block.isError
    && kind.resultSha == Sha256(block.text.content) && kind.attests == Attestations(block.text.signoffs)
  }

  lemma KindsTell(msgs: seq<Msg>, m: nat, b: nat, id: string)
    requires Stands(msgs, m, b) && EventAt(msgs, m, b) != []
    ensures DispatchedAt(msgs, m, b, id) ==> RecordsDispatch(msgs, m, b, DispatchKind(EventAt(msgs, m, b)[0]))
    ensures AnsweredAt(msgs, m, b, id) ==> RecordsAnswer(msgs, m, b, CompleteKind(EventAt(msgs, m, b)[0]))
  {
  }

  ghost predicate DispatchInLog(msgs: seq<Msg>, m: nat, b: nat, log: seq<Record>)
    requires Stands(msgs, m, b) && BlocksOf(msgs[m])[b].ToolUse?
  {
    exists i :: 0 <= i < |log| && RecordsDispatch(msgs, m, b, log[i].body.kind)
  }

  ghost predicate AnswerInLog(msgs: seq<Msg>, m: nat, b: nat, log: seq<Record>)
    requires Stands(msgs, m, b) && BlocksOf(msgs[m])[b].ToolResult?
  {
    exists i :: 0 <= i < |log| && RecordsAnswer(msgs, m, b, log[i].body.kind)
  }

  /** The records of a whole run: the opening one, one for each first dispatch and each first
      answer, and the seal, which counts the dispatched ids and those answered, and names those
      that never were; each dated by the clock at its place. */
  lemma {:induction false} RecordsTell(env: Env, msgs: seq<Msg>, log: seq<Record>)
    requires log == SealedLog(env, Fold(env, Opened(env), StreamEvents(msgs)))
    ensures |log| >= 2 && log[0].body.kind == Open(env.sandbox, env.roster)
    ensures forall i :: 0 <= i < |log| ==> log[i].body.ts == env.clock(i)
    ensures forall m: nat, b: nat, id :: FirstDispatchAt(msgs, m, b, id) ==> DispatchInLog(msgs, m, b, log)
    ensures forall m: nat, b: nat, x: nat, y: nat, id ::
      FirstDispatchAt(msgs, m, b, id) && FirstAnswerAt(msgs, m, b, x, y, id) ==> AnswerInLog(msgs, x, y, log)
    ensures var seal := log[|log| - 1].body.kind;
      && seal.Seal? && seal.dispatches == seal.completed + |seal.unresolved|
      && (forall id :: id in seal.unresolved <==>
            exists m: nat, b: nat :: FirstDispatchAt(msgs, m, b, id) && NeverAnswered(msgs, m, b, id))
      && exists ids: set<string> :: |ids| == seal.dispatches && forall id :: id in ids <==> exists m: nat, b: nat :: DispatchedAt(msgs, m, b, id)
  {
    var events := StreamEvents(msgs);
    var s := Fold(env, Opened(env), events);
    FoldKeeps(env, events);
    T.RecorderInvariant(env, events);
    forall m: nat, b: nat, id | FirstDispatchAt(msgs, m, b, id) ensures DispatchInLog(msgs, m, b, log) {
      DispatchIsInLog(msgs, m, b, id, s, log);
    }
    forall m: nat, b: nat, x: nat, y: nat, id | FirstDispatchAt(msgs, m, b, id) && FirstAnswerAt(msgs, m, b, x, y, id)
      ensures AnswerInLog(msgs, x, y, log)
    {
      AnswerIsInLog(msgs, m, b, x, y, id, s, log);
    }
    forall id
      ensures id in s.seen <==> exists m: nat, b: nat :: DispatchedAt(msgs, m, b, id)
      ensures id in s.pending <==> exists m: nat, b: nat :: FirstDispatchAt(msgs, m, b, id) && NeverAnswered(msgs, m, b, id)
    {
      PendingMeans(msgs, id, s);
    }
  }

  lemma {:induction false} DispatchIsInLog(msgs: seq<Msg>, m: nat, b: nat, id: string, s: State, log: seq<Record>)
    requires FirstDispatchAt(msgs, m, b, id) && Kept(StreamEvents(msgs), s, id) && s.log <= log
    ensures DispatchInLog(msgs, m, b, log)
  {
    FirstUseIs(msgs, m, b, id);
    KindsTell(msgs, m, b, id);
    var kind := DispatchKind(EventAt(msgs, m, b)[0]);
    assert Recorded(s.log, kind);
    var i :| 0 <= i < |s.log| && s.log[i].body.kind == kind;
    assert log[i] == s.log[i];
  }

  lemma {:induction false} AnswerIsInLog(msgs: seq<Msg>, m: nat, b: nat, x: nat, y: nat, id: string, s: State, log: seq<Record>)
    requires FirstDispatchAt(msgs, m, b, id) && FirstAnswerAt(msgs, m, b, x, y, id)
    requires Kept(StreamEvents(msgs), s, id) && s.log <= log
    ensures AnswerInLog(msgs, x, y, log)
  {
    FirstResultIs(msgs, m, b, x, y, id);
    KindsTell(msgs, x, y, id);
    var kind := CompleteKind(EventAt(msgs, x, y)[0]);
    assert Recorded(s.log, kind);
    var i :| 0 <= i < |s.log| && s.log[i].body.kind == kind;
    assert log[i] == s.log[i];
  }

  lemma {:induction false} PendingMeans(msgs: seq<Msg>, id: string, s: State)
    requires Kept(StreamEvents(msgs), s, id)
    ensures id in s.seen <==> exists m: nat, b: nat :: DispatchedAt(msgs, m, b, id)
    ensures id in s.pending <==> exists m: nat, b: nat :: FirstDispatchAt(msgs, m, b, id) && NeverAnswered(msgs, m, b, id)
  {
    SomeDispatchIsUse(msgs, id);
    if m: nat, b: nat :| DispatchedAt(msgs, m, b, id) {
      var x, y := FirstPositions(msgs, m, b, id);
      NoResultIs(msgs, x, y, id);
    }
    if m: nat, b: nat :| FirstDispatchAt(msgs, m, b, id) && NeverAnswered(msgs, m, b, id) {
      NoResultIs(msgs, m, b, id);
    }
  }

  /** And no other record: whatever stands between the opening and the seal is one of those. */
  lemma {:induction false} NothingElseRecorded(env: Env, msgs: seq<Msg>, log: seq<Record>, i: nat)
    requires log == SealedLog(env, Fold(env, Opened(env), StreamEvents(msgs))) && 0 < i < |log| - 1
    ensures exists m: nat, b: nat ::
      && Stands(msgs, m, b)
      && ((BlocksOf(msgs[m])[b].ToolUse? && RecordsDispatch(msgs, m, b, log[i].body.kind))
          || (BlocksOf(msgs[m])[b].ToolResult? && RecordsAnswer(msgs, m, b, log[i].body.kind)))
  {
    var events, kind := StreamEvents(msgs), log[i].body.kind;
    FoldKeeps(env, events);
    assert Called(events, kind);
    var id :| CalledFor(events, kind, id);
    var k := if T.FirstUse(events, id) < |events| && kind == DispatchKind(events[T.FirstUse(events, id)])
             then T.FirstUse(events, id) else T.FirstResult(events, id);
    var m, b := PositionOfEvent(msgs, k);
    UseIsDispatch(msgs, m, b, id);
    KindsTell(msgs, m, b, id);
  }
}
