/** The recorder: it turns a stream of harness messages into a chained log. */
module LedgerRecorder {
  import opened Common
  import opened LedgerRecords

  const GENERIC_ROLE := "general-purpose"
  const DISPATCH_TOOLS: set<string> := {"Agent", "Task"}
  const DESCRIPTION_LIMIT := 200

  datatype Block =
    | ToolUse(name: string, id: Option<string>, subagentType: Option<string>, prompt: Text,
              description: string, background: bool)
    | ToolResult(toolUseId: Option<string>, isError: bool, text: Text)
    | OtherBlock

  datatype Sender = Assistant | User | OtherSender

  /** `content` is absent when it is not a list of blocks. */
  datatype Msg = Msg(sender: Sender, content: Option<seq<Block>>, parent: Option<string>, session: Option<string>)

  /** What a recorder is given: its run, key, environment and the clock it reads when it
      writes record number `i`. */
  datatype Env = Env(run: string, key: Key, clock: nat -> Time, sandbox: string, roster: Option<string>)

  function Sign(key: Key, body: Body): Record
  {
    Record(body, Hmac(key, body))
  }

  /** The record appended to `log`. */
  function NextRecord(env: Env, log: seq<Record>, kind: Kind): Record
  {
    Sign(env.key, Body(env.run, |log|, Tip(env.run, log), env.clock(|log|), kind))
  }

  // ---------- Events ----------

  /** The part of a stream the recorder reacts to: a dispatching tool call of the assistant
      with a usable id, or a tool result of the user with an id. */
  datatype Event =
    | Use(id: string, role: string, parent: Option<string>, session: Option<string>,
          description: string, prompt: Text, background: bool)
    | Result(id: string, isError: bool, text: Text)

  function RoleOf(subagentType: Option<string>): string
  {
    if subagentType.Some? && subagentType.value != "" then subagentType.value else GENERIC_ROLE
  }

  function Clip(text: string): string
  {
    if |text| > DESCRIPTION_LIMIT then text[..DESCRIPTION_LIMIT] else text
  }

  function BlockEvent(msg: Msg, block: Block): seq<Event>
  {
    match (msg.sender, block)
    case (Assistant, ToolUse(name, id, subagentType, prompt, description, background)) =>
      if name in DISPATCH_TOOLS && id.Some? && id.value != "" then
        [Use(id.value, RoleOf(subagentType), msg.parent, msg.session, Clip(description), prompt, background)]
      else []
    case (User, ToolResult(id, isError, text)) =>
      if id.Some? then [Result(id.value, isError, text)] else []
    case (_, _) => []
  }

  function BlockEvents(msg: Msg, blocks: seq<Block>): seq<Event>
  {
    if blocks == [] then []
    else BlockEvents(msg, blocks[..|blocks| - 1]) + BlockEvent(msg, blocks[|blocks| - 1])
  }

  function MsgEvents(msg: Msg): seq<Event>
  {
    if msg.content.Some? then BlockEvents(msg, msg.content.value) else []
  }

  function StreamEvents(msgs: seq<Msg>): seq<Event>
  {
    if msgs == [] then []
    else StreamEvents(msgs[..|msgs| - 1]) + MsgEvents(msgs[|msgs| - 1])
  }

  // ---------- The recorder as a fold over events ----------

  datatype State = State(log: seq<Record>, seen: set<string>, pending: set<string>, completed: nat)

  function DispatchKind(e: Event): Kind
    requires e.Use?
  {
    Dispatch(e.id, e.role, e.parent, e.session, e.description, Sha256(e.prompt.content),
             Attestations(e.prompt.signoffs), e.background)
  }

  function CompleteKind(e: Event): Kind
    requires e.Result?
  {
    Complete(e.id, e.isError, Attestations(e.text.signoffs), Sha256(e.text.content))
  }

  function SealKind(s: State): Kind
  {
    Seal(|s.seen|, s.completed, s.pending)
  }

  function Opened(env: Env): State
  {
    State([NextRecord(env, [], Open(env.sandbox, env.roster))], {}, {}, 0)
  }

  /** A repeated dispatch id and a result for no pending dispatch leave no trace. */
  function React(env: Env, s: State, e: Event): State
  {
    match e
    case Use(id, _, _, _, _, _, _) =>
      if id in s.seen then s
      else State(s.log + [NextRecord(env, s.log, DispatchKind(e))], s.seen + {id}, s.pending + {id}, s.completed)
    case Result(id, _, _) =>
      if id !in s.pending then s
      else State(s.log + [NextRecord(env, s.log, CompleteKind(e))], s.seen, s.pending - {id}, s.completed + 1)
  }

  function Fold(env: Env, s: State, events: seq<Event>): State
  {
    if events == [] then s
    else React(env, Fold(env, s, events[..|events| - 1]), events[|events| - 1])
  }

  lemma {:induction false} FoldAppend(env: Env, s: State, a: seq<Event>, b: seq<Event>)
    ensures Fold(env, s, a + b) == Fold(env, Fold(env, s, a), b)
  {
    if b == [] {
      assert a + b == a;
    } else {
      var n := |b| - 1;
      FoldAppend(env, s, a, b[..n]);
      assert (a + b)[..|a + b| - 1] == a + b[..n];
    }
  }

  function SealedLog(env: Env, s: State): seq<Record>
  {
    s.log + [NextRecord(env, s.log, SealKind(s))]
  }

  // ---------- The objects ----------

  class LedgerWriter {
    const env: Env
    var seqNo: nat
    var prev: Mac
    var file: seq<Record>

    ghost predicate Valid()
      reads this
    {
      seqNo == |file| && prev == Tip(env.run, file)
    }

    constructor (env: Env)
      ensures Valid() && this.env == env && file == []
    {
      this.env := env;
      seqNo, prev, file := 0, Genesis(env.run), [];
    }

    method Append(kind: Kind) returns (record: Record)
      requires Valid()
      modifies this
      ensures Valid()
      ensures record == NextRecord(env, old(file), kind) && file == old(file) + [record]
    {
      var body := Body(env.run, seqNo, prev, env.clock(seqNo), kind);
      record := Record(body, Hmac(env.key, body));
      file := file + [record];
      seqNo := seqNo + 1;
      prev := record.mac;
    }
  }

  class Recorder {
    const writer: LedgerWriter
    var pending: set<string>
    var seen: set<string>
    var completed: nat

    ghost predicate Valid()
      reads this, writer
    {
      writer.Valid()
    }

    ghost function Value(): State
      reads this, writer
    {
      State(writer.file, seen, pending, completed)
    }

    constructor (writer: LedgerWriter)
      requires writer.Valid() && writer.file == []
      modifies writer
      ensures this.writer == writer && Valid() && Value() == Opened(writer.env)
    {
      this.writer := writer;
      pending, seen, completed := {}, {}, 0;
      new;
      var _ := writer.Append(Open(writer.env.sandbox, writer.env.roster));
    }

    method Dispatched(block: Block, msg: Msg)
      requires Valid() && block.ToolUse? && msg.sender.Assistant? && block.name in DISPATCH_TOOLS
      modifies this, writer
      ensures Valid() && Value() == Fold(writer.env, old(Value()), BlockEvent(msg, block))
    {
      if block.id.None? || block.id.value == "" || block.id.value in seen {
        return;
      }
      var receipt := block.id.value;
      var dictated := ParseAttestations(block.prompt);
      var _ := writer.Append(Dispatch(
        receipt, RoleOf(block.subagentType), msg.parent, msg.session, Clip(block.description),
        Sha256(block.prompt.content), dictated, block.background));
      seen := seen + {receipt};
      pending := pending + {receipt};
    }

    method Completed(block: Block, msg: Msg)
      requires Valid() && block.ToolResult? && msg.sender.User?
      requires block.toolUseId.Some? && block.toolUseId.value in pending
      modifies this, writer
      ensures Valid() && Value() == Fold(writer.env, old(Value()), BlockEvent(msg, block))
    {
      var receipt := block.toolUseId.value;
      var attests := ParseAttestations(block.text);
      var _ := writer.Append(Complete(receipt, block.isError, attests, Sha256(block.text.content)));
      pending := pending - {receipt};
      completed := completed + 1;
    }

    /** One message of the stream. */
    method Observe(msg: Msg)
      requires Valid()
      modifies this, writer
      ensures Valid() && Value() == Fold(writer.env, old(Value()), MsgEvents(msg))
    {
      if msg.content.None? {
        return;
      }
      var blocks := msg.content.value;
      ghost var start := Value();
      for i := 0 to |blocks|
        invariant Valid() && Value() == Fold(writer.env, start, BlockEvents(msg, blocks[..i]))
      {
        assert blocks[..i + 1][..i] == blocks[..i];
        FoldAppend(writer.env, start, BlockEvents(msg, blocks[..i]), BlockEvent(msg, blocks[i]));
        var block := blocks[i];
        if msg.sender.Assistant? {
          if block.ToolUse? && block.name in DISPATCH_TOOLS {
            Dispatched(block, msg);
          }
        } else if msg.sender.User? {
          if block.ToolResult? && block.toolUseId.Some? && block.toolUseId.value in pending {
            Completed(block, msg);
          }
        }
      }
      assert blocks[..|blocks|] == blocks;
    }

    method WriteSeal()
      requires Valid()
      modifies this, writer
      ensures Valid() && writer.file == SealedLog(writer.env, old(Value()))
    {
      var _ := writer.Append(Seal(|seen|, completed, pending));
    }
  }

  /** A whole run: open, observe every message, seal. */
  method RecordRun(env: Env, msgs: seq<Msg>) returns (log: seq<Record>)
    ensures log == SealedLog(env, Fold(env, Opened(env), StreamEvents(msgs)))
  {
    var writer := new LedgerWriter(env);
    var recorder := new Recorder(writer);
    for i := 0 to |msgs|
      invariant fresh(writer) && fresh(recorder) && recorder.writer == writer && recorder.Valid() && writer.env == env
      invariant recorder.Value() == Fold(env, Opened(env), StreamEvents(msgs[..i]))
    {
      assert msgs[..i + 1][..i] == msgs[..i];
      FoldAppend(env, Opened(env), StreamEvents(msgs[..i]), MsgEvents(msgs[i]));
      recorder.Observe(msgs[i]);
    }
    assert msgs[..|msgs|] == msgs;
    recorder.WriteSeal();
    log := writer.file;
  }
}
