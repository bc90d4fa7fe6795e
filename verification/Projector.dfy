/** The artifact projector: the workspace is the queue. Missing artifacts of the active phase
    whose prerequisites all exist become queue items. */
module Projector {
  import opened Common
  import opened DependencyGraph

  /** One declared artifact, its path already rendered; an absent or empty id is skipped. */
  datatype Artifact = Artifact(id: string, path: string, handlerType: string, prereqs: seq<string>)

  datatype Phase = Phase(id: string, artifacts: seq<Artifact>)

  datatype Schema = Schema(currentPhase: string, phases: seq<Phase>)

  /** A queue item, named by the artifact it asks for. */
  datatype Item = Item(id: string, handlerType: string)

  // ---------- The tables ----------

  /** One row of the projector's four tables. */
  datatype Row = Row(present: bool, handlerType: string, prereqs: seq<string>, active: bool)

  /** A declared artifact with whether its phase is the active one. */
  datatype Declared = Declared(artifact: Artifact, active: bool)

  function InPhase(artifacts: seq<Artifact>, active: bool): seq<Declared>
  {
    if artifacts == [] then []
    else
      var rest, last := InPhase(artifacts[..|artifacts| - 1], active), artifacts[|artifacts| - 1];
      if last.id == "" then rest else rest + [Declared(last, active)]
  }

  /** Every artifact with an id, across all phases, in the order they are declared. */
  function InOrder(phases: seq<Phase>, current: string): seq<Declared>
  {
    if phases == [] then []
    else
      var last := phases[|phases| - 1];
      InOrder(phases[..|phases| - 1], current) + InPhase(last.artifacts, last.id == current)
  }

  function RowOf(d: Declared, fs: set<string>): Row
  {
    Row(d.artifact.path in fs, d.artifact.handlerType, d.artifact.prereqs, d.active)
  }

  /** Ids in order of first declaration; a repeated id keeps its place. */
  function Ids(ds: seq<Declared>): seq<string>
  {
    if ds == [] then []
    else
      var rest, id := Ids(ds[..|ds| - 1]), ds[|ds| - 1].artifact.id;
      if id in rest then rest else rest + [id]
  }

  lemma {:induction false} IdsDistinct(ds: seq<Declared>)
    ensures forall i, j :: 0 <= i < j < |Ids(ds)| ==> Ids(ds)[i] != Ids(ds)[j]
  {
    if ds != [] { IdsDistinct(ds[..|ds| - 1]); }
  }

  /** The last declaration of an id wins. */
  function Table(ds: seq<Declared>, fs: set<string>): (rows: map<string, Row>)
    ensures forall id :: id in rows <==> id in Ids(ds)
  {
    if ds == [] then map[]
    else
      var last := ds[|ds| - 1];
      Table(ds[..|ds| - 1], fs)[last.artifact.id := RowOf(last, fs)]
  }

  predicate Exists(rows: map<string, Row>, id: string)
  {
    id in rows && rows[id].present
  }

  /** Missing, in the active phase, with a handler type, and with every prerequisite there. */
  predicate Ready(rows: map<string, Row>, id: string)
    requires id in rows
  {
    && !rows[id].present
    && rows[id].active
    && (forall i :: 0 <= i < |rows[id].prereqs| ==> Exists(rows, rows[id].prereqs[i]))
    && rows[id].handlerType != ""
  }

  function Emitted(rows: map<string, Row>, ids: seq<string>): seq<Item>
    requires forall id :: id in ids ==> id in rows
  {
    if ids == [] then []
    else
      var last := ids[|ids| - 1];
      Emitted(rows, ids[..|ids| - 1]) + if Ready(rows, last) then [Item(last, rows[last].handlerType)] else []
  }

  function Projection(schema: Schema, fs: set<string>): seq<Item>
  {
    var ds := InOrder(schema.phases, schema.currentPhase);
    Emitted(Table(ds, fs), Ids(ds))
  }

  /** The four dictionaries the projector fills. The first also remembers the order in which
      its keys were first inserted. */
  datatype Tables = Tables(order: seq<string>, present: map<string, bool>, handlers: map<string, string>,
                           prereqs: map<string, seq<string>>, active: map<string, bool>)
  {
    function Put(a: Artifact, isActive: bool, fs: set<string>): Tables
    {
      Tables(if a.id in order then order else order + [a.id],
             present[a.id := a.path in fs], handlers[a.id := a.handlerType],
             prereqs[a.id := a.prereqs], active[a.id := isActive])
    }

    /** Of one id, the four dictionaries and the order say what the table says. */
    ghost predicate Agrees(rows: map<string, Row>, id: string)
    {
      if id in rows then
        && id in present && id in handlers && id in prereqs && id in active
        && rows[id] == Row(present[id], handlers[id], prereqs[id], active[id])
      else id !in present && id !in handlers && id !in prereqs && id !in active
    }

    /** Side by side, the dictionaries are the table of `ds`. */
    ghost predicate Represents(ds: seq<Declared>, fs: set<string>)
    {
      order == Ids(ds) && forall id :: Agrees(Table(ds, fs), id)
    }
  }

  lemma PutRepresents(t: Tables, ds: seq<Declared>, fs: set<string>, a: Artifact, isActive: bool)
    requires t.Represents(ds, fs)
    ensures t.Put(a, isActive, fs).Represents(ds + [Declared(a, isActive)], fs)
  {
    TableGrows(ds, Declared(a, isActive), fs);
    forall id ensures t.Put(a, isActive, fs).Agrees(Table(ds + [Declared(a, isActive)], fs), id) {
      assert t.Agrees(Table(ds, fs), id);
    }
  }

  lemma TableGrows(ds: seq<Declared>, d: Declared, fs: set<string>)
    ensures Table(ds + [d], fs) == Table(ds, fs)[d.artifact.id := RowOf(d, fs)]
    ensures Ids(ds + [d]) == if d.artifact.id in Ids(ds) then Ids(ds) else Ids(ds) + [d.artifact.id]
  {
    assert (ds + [d])[..|ds|] == ds;
  }

  lemma InPhaseGrows(ds: seq<Declared>, artifacts: seq<Artifact>, isActive: bool, j: nat)
    requires j < |artifacts|
    ensures var sofar := ds + InPhase(artifacts[..j], isActive);
      ds + InPhase(artifacts[..j + 1], isActive) ==
        if artifacts[j].id == "" then sofar else sofar + [Declared(artifacts[j], isActive)]
  {
    assert artifacts[..j + 1][..j] == artifacts[..j];
  }

  method FillPhase(t0: Tables, ghost ds: seq<Declared>, artifacts: seq<Artifact>, isActive: bool, fs: set<string>)
    returns (t: Tables)
    requires t0.Represents(ds, fs)
    ensures t.Represents(ds + InPhase(artifacts, isActive), fs)
  {
    t := t0;
    assert ds + InPhase([], isActive) == ds;
    for j := 0 to |artifacts|
      invariant t.Represents(ds + InPhase(artifacts[..j], isActive), fs)
    {
      ghost var sofar := ds + InPhase(artifacts[..j], isActive);
      InPhaseGrows(ds, artifacts, isActive, j);
      if artifacts[j].id == "" {
        continue;
      }
      PutRepresents(t, sofar, fs, artifacts[j], isActive);
      t := t.Put(artifacts[j], isActive, fs);
    }
    assert artifacts[..|artifacts|] == artifacts;
  }

  method FillTables(schema: Schema, fs: set<string>) returns (t: Tables)
    ensures t.Represents(InOrder(schema.phases, schema.currentPhase), fs)
  {
    t := Tables.Tables([], map[], map[], map[], map[]);
    var phases, current := schema.phases, schema.currentPhase;
    for i := 0 to |phases|
      invariant t.Represents(InOrder(phases[..i], current), fs)
    {
      assert phases[..i + 1][..i] == phases[..i];
      t := FillPhase(t, InOrder(phases[..i], current), phases[i].artifacts, phases[i].id == current, fs);
    }
    assert phases[..|phases|] == phases;
  }

  /** The tests of the emitting loop, read off the dictionaries. */
  predicate ReadyIn(t: Tables, id: string)
    requires id in t.present && id in t.active && id in t.prereqs && id in t.handlers
  {
    && !t.present[id]
    && t.active[id]
    && (forall k :: 0 <= k < |t.prereqs[id]| ==> t.prereqs[id][k] in t.present && t.present[t.prereqs[id][k]])
    && t.handlers[id] != ""
  }

  lemma ReadyInIsReady(t: Tables, ds: seq<Declared>, fs: set<string>, id: string)
    requires t.Represents(ds, fs) && id in t.order
    ensures id in t.present && id in t.active && id in t.prereqs && id in t.handlers
    ensures id in Table(ds, fs) && (ReadyIn(t, id) <==> Ready(Table(ds, fs), id))
    ensures t.handlers[id] == Table(ds, fs)[id].handlerType
  {
    var rows := Table(ds, fs);
    assert t.Agrees(rows, id);
    forall k | 0 <= k < |t.prereqs[id]|
      ensures Exists(rows, t.prereqs[id][k]) <==> t.prereqs[id][k] in t.present && t.present[t.prereqs[id][k]]
    {
      assert t.Agrees(rows, t.prereqs[id][k]);
    }
  }

  method ProjectArtifacts(schema: Option<Schema>, fs: set<string>) returns (items: seq<Item>)
    ensures items == if schema.None? then [] else Projection(schema.value, fs)
  {
    items := [];
    if schema.None? {
      return;
    }
    var t := FillTables(schema.value, fs);
    ghost var ds := InOrder(schema.value.phases, schema.value.currentPhase);
    for i := 0 to |t.order|
      invariant items == Emitted(Table(ds, fs), t.order[..i])
    {
      assert t.order[..i + 1][..i] == t.order[..i];
      var id := t.order[i];
      ReadyInIsReady(t, ds, fs, id);
      if ReadyIn(t, id) {
        items := items + [Item(id, t.handlers[id])];
      }
    }
    assert t.order[..|t.order|] == t.order;
  }

  // ---------- What is emitted ----------

  /** Some item asks for `id`. */
  predicate Asks(items: seq<Item>, id: string)
  {
    exists k :: 0 <= k < |items| && items[k].id == id
  }

  lemma AsksAppend(items: seq<Item>, more: seq<Item>, id: string)
    ensures Asks(items + more, id) <==> Asks(items, id) || Asks(more, id)
  {
    if k :| 0 <= k < |items| && items[k].id == id { assert (items + more)[k].id == id; }
    if k :| 0 <= k < |more| && more[k].id == id { assert (items + more)[|items| + k].id == id; }
  }

  lemma {:induction false} EmittedExactly(rows: map<string, Row>, ids: seq<string>, id: string)
    requires forall i :: i in ids ==> i in rows
    ensures Asks(Emitted(rows, ids), id) <==> id in ids && Ready(rows, id)
  {
    if ids != [] {
      var n := |ids| - 1;
      EmittedExactly(rows, ids[..n], id);
      AsksAppend(Emitted(rows, ids[..n]), if Ready(rows, ids[n]) then [Item(ids[n], rows[ids[n]].handlerType)] else [], id);
      assert ids == ids[..n] + [ids[n]];
      if id == ids[n] && Ready(rows, id) {
        assert [Item(id, rows[id].handlerType)][0].id == id;
      }
    }
  }

  function Declarations(schema: Schema): seq<Declared>
  {
    InOrder(schema.phases, schema.currentPhase)
  }

  function Rows(schema: Schema, fs: set<string>): map<string, Row>
  {
    Table(Declarations(schema), fs)
  }

  /** The projection asks for an artifact exactly when it is declared and ready, and for each
      at most once. */
  lemma ProjectionExact(schema: Schema, fs: set<string>, id: string)
    ensures Asks(Projection(schema, fs), id) <==> id in Rows(schema, fs) && Ready(Rows(schema, fs), id)
    ensures forall i, j :: 0 <= i < j < |Projection(schema, fs)| ==> Projection(schema, fs)[i].id != Projection(schema, fs)[j].id
  {
    var ds := Declarations(schema);
    EmittedExactly(Table(ds, fs), Ids(ds), id);
    IdsDistinct(ds);
    EmittedOnce(Table(ds, fs), Ids(ds));
  }

  lemma {:induction false} EmittedOnce(rows: map<string, Row>, ids: seq<string>)
    requires forall i :: i in ids ==> i in rows
    requires forall i, j :: 0 <= i < j < |ids| ==> ids[i] != ids[j]
    ensures forall i, j :: 0 <= i < j < |Emitted(rows, ids)| ==> Emitted(rows, ids)[i].id != Emitted(rows, ids)[j].id
  {
    if ids != [] {
      var n := |ids| - 1;
      EmittedOnce(rows, ids[..n]);
      EmittedExactly(rows, ids[..n], ids[n]);
      var front := Emitted(rows, ids[..n]);
      assert forall k :: 0 <= k < |front| ==> front[k].id != ids[n];
    }
  }

  // ---------- How the frontier moves ----------

  /** The declaration of an id that counts, and whether it is in the active phase. */
  function DeclaredAs(ds: seq<Declared>, id: string): (d: Option<Declared>)
    ensures d.Some? <==> id in Ids(ds)
    ensures d.Some? ==> d.value.artifact.id == id
  {
    if ds == [] then None
    else if ds[|ds| - 1].artifact.id == id then Some(ds[|ds| - 1])
    else DeclaredAs(ds[..|ds| - 1], id)
  }

  lemma {:induction false} TableIsDeclarations(ds: seq<Declared>, fs: set<string>, id: string)
    requires id in Ids(ds)
    ensures Table(ds, fs)[id] == RowOf(DeclaredAs(ds, id).value, fs)
  {
    if ds[|ds| - 1].artifact.id != id {
      TableIsDeclarations(ds[..|ds| - 1], fs, id);
    }
  }

  function PathOf(schema: Schema, id: string): string
    requires id in Ids(Declarations(schema))
  {
    DeclaredAs(Declarations(schema), id).value.artifact.path
  }

  function PrereqsOf(schema: Schema, id: string): seq<string>
    requires id in Ids(Declarations(schema))
  {
    DeclaredAs(Declarations(schema), id).value.artifact.prereqs
  }

  ghost predicate Missing(schema: Schema, fs: set<string>, id: string)
  {
    id in Ids(Declarations(schema)) && PathOf(schema, id) !in fs
  }

  ghost function MissingIds(schema: Schema, fs: set<string>): set<string>
  {
    set id | id in Ids(Declarations(schema)) && PathOf(schema, id) !in fs
  }

  lemma ExistsMeans(schema: Schema, fs: set<string>, id: string)
    ensures Exists(Rows(schema, fs), id) <==> id in Ids(Declarations(schema)) && PathOf(schema, id) in fs
  {
    if id in Ids(Declarations(schema)) { TableIsDeclarations(Declarations(schema), fs, id); }
  }

  lemma ReadyMeans(schema: Schema, fs: set<string>, id: string)
    requires id in Ids(Declarations(schema))
    ensures Ready(Rows(schema, fs), id) <==>
      && Missing(schema, fs, id)
      && DeclaredAs(Declarations(schema), id).value.active
      && DeclaredAs(Declarations(schema), id).value.artifact.handlerType != ""
      && forall k :: 0 <= k < |PrereqsOf(schema, id)| ==>
           PrereqsOf(schema, id)[k] in Ids(Declarations(schema)) && PathOf(schema, PrereqsOf(schema, id)[k]) in fs
  {
    TableIsDeclarations(Declarations(schema), fs, id);
    var row := Rows(schema, fs)[id];
    assert row.prereqs == PrereqsOf(schema, id);
    forall k | 0 <= k < |PrereqsOf(schema, id)|
      ensures Exists(Rows(schema, fs), row.prereqs[k]) <==>
        PrereqsOf(schema, id)[k] in Ids(Declarations(schema)) && PathOf(schema, PrereqsOf(schema, id)[k]) in fs
    {
      ExistsMeans(schema, fs, PrereqsOf(schema, id)[k]);
    }
  }

  /** An artifact asked for stays asked for, whatever else is created, until it exists. */
  lemma StaysEmitted(schema: Schema, fs: set<string>, fs': set<string>, id: string)
    requires fs <= fs' && Asks(Projection(schema, fs), id)
    ensures id in Ids(Declarations(schema)) && (Asks(Projection(schema, fs'), id) <==> PathOf(schema, id) !in fs')
  {
    ProjectionExact(schema, fs, id);
    ProjectionExact(schema, fs', id);
    ReadyMeans(schema, fs, id);
    ReadyMeans(schema, fs', id);
  }

  /** What happens to the workspace: an artifact is created, or some file appears. */
  datatype Step = Create(id: string) | Appear(path: string)

  /** Artifacts are created one at a time, each only when the projection asks for it; other
      files may appear in between. */
  ghost predicate Run(schema: Schema, fs: set<string>, steps: seq<Step>)
  {
    steps == [] || (
      var n := |steps| - 1;
      && Run(schema, fs, steps[..n])
      && (steps[n].Create? ==> Asks(Projection(schema, After(schema, fs, steps[..n])), steps[n].id)))
  }

  ghost function After(schema: Schema, fs: set<string>, steps: seq<Step>): set<string>
  {
    if steps == [] then fs
    else
      var n := |steps| - 1;
      After(schema, fs, steps[..n]) + Made(schema, steps[n])
  }

  function Made(schema: Schema, step: Step): set<string>
  {
    match step
    case Create(id) => if id in Ids(Declarations(schema)) then {PathOf(schema, id)} else {}
    case Appear(path) => {path}
  }

  function Creations(steps: seq<Step>): nat
  {
    if steps == [] then 0
    else Creations(steps[..|steps| - 1]) + if steps[|steps| - 1].Create? then 1 else 0
  }

  lemma AskedIsMissing(schema: Schema, fs: set<string>, id: string)
    requires Asks(Projection(schema, fs), id)
    ensures id in MissingIds(schema, fs)
    ensures forall k :: 0 <= k < |PrereqsOf(schema, id)| ==>
      PrereqsOf(schema, id)[k] in Ids(Declarations(schema)) && PathOf(schema, PrereqsOf(schema, id)[k]) in fs
  {
    ProjectionExact(schema, fs, id);
    ReadyMeans(schema, fs, id);
  }

  /** Every run is short of creations: each removes an artifact from the missing ones. */
  lemma {:induction false} RunsTerminate(schema: Schema, fs: set<string>, steps: seq<Step>)
    requires Run(schema, fs, steps)
    ensures Creations(steps) + |MissingIds(schema, After(schema, fs, steps))| <= |MissingIds(schema, fs)|
  {
    if steps != [] {
      var n := |steps| - 1;
      RunsTerminate(schema, fs, steps[..n]);
      StepShrinks(schema, After(schema, fs, steps[..n]), steps[n]);
    }
  }

  lemma StepShrinks(schema: Schema, fs: set<string>, step: Step)
    requires step.Create? ==> Asks(Projection(schema, fs), step.id)
    ensures |MissingIds(schema, fs + Made(schema, step))| + (if step.Create? then 1 else 0) <= |MissingIds(schema, fs)|
  {
    var before, after := MissingIds(schema, fs), MissingIds(schema, fs + Made(schema, step));
    if step.Create? {
      AskedIsMissing(schema, fs, step.id);
      assert step.id !in after;
      SubsetCount(after, before - {step.id});
    } else {
      SubsetCount(after, before);
    }
  }

  lemma {:induction false} SubsetCount(a: set<string>, b: set<string>)
    requires a <= b
    ensures |a| <= |b|
    decreases a
  {
    if x :| x in a {
      SubsetCount(a - {x}, b - {x});
    }
  }

  /** A run creates nothing before the prerequisites it declares are there. */
  lemma RunRespectsPrereqs(schema: Schema, fs: set<string>, steps: seq<Step>, i: nat, k: nat)
    requires Run(schema, fs, steps) && i < |steps| && steps[i].Create?
    requires steps[i].id in Ids(Declarations(schema)) && k < |PrereqsOf(schema, steps[i].id)|
    ensures var p := PrereqsOf(schema, steps[i].id)[k];
      p in Ids(Declarations(schema)) && PathOf(schema, p) in After(schema, fs, steps[..i])
  {
    RunPrefix(schema, fs, steps, i + 1);
    assert steps[..i + 1][..i] == steps[..i];
    AskedIsMissing(schema, After(schema, fs, steps[..i]), steps[i].id);
  }

  lemma {:induction false} RunPrefix(schema: Schema, fs: set<string>, steps: seq<Step>, n: nat)
    requires Run(schema, fs, steps) && n <= |steps|
    ensures Run(schema, fs, steps[..n])
  {
    if n < |steps| {
      RunPrefix(schema, fs, steps[..|steps| - 1], n);
      assert steps[..|steps| - 1][..n] == steps[..n];
    } else {
      assert steps[..n] == steps;
    }
  }

  lemma {:induction false} AfterKeeps(schema: Schema, fs: set<string>, steps: seq<Step>)
    ensures fs <= After(schema, fs, steps)
  {
    if steps != [] { AfterKeeps(schema, fs, steps[..|steps| - 1]); }
  }

  // ---------- What can be created ----------

  /** Only creations happen. */
  predicate Creates(steps: seq<Step>)
  {
    forall i :: 0 <= i < |steps| ==> steps[i].Create?
  }

  /** `path` is there, or some artifact with that path can be asked for once files are there
      that can be obtained in fewer rounds. */
  ghost predicate ObtainableIn(schema: Schema, fs: set<string>, path: string, rounds: nat)
    decreases rounds, 0
  {
    path in fs || (
      rounds > 0 && exists id :: id in Ids(Declarations(schema)) && PathOf(schema, id) == path && CreatableIn(schema, fs, id, rounds - 1))
  }

  ghost predicate CreatableIn(schema: Schema, fs: set<string>, id: string, rounds: nat)
    requires id in Ids(Declarations(schema))
    decreases rounds, 1
  {
    && DeclaredAs(Declarations(schema), id).value.active
    && DeclaredAs(Declarations(schema), id).value.artifact.handlerType != ""
    && forall k :: 0 <= k < |PrereqsOf(schema, id)| ==>
         PrereqsOf(schema, id)[k] in Ids(Declarations(schema))
         && ObtainableIn(schema, fs, PathOf(schema, PrereqsOf(schema, id)[k]), rounds)
  }

  ghost predicate Obtainable(schema: Schema, fs: set<string>, path: string)
  {
    exists rounds: nat :: ObtainableIn(schema, fs, path, rounds)
  }

  /** More files and more rounds obtain no less. */
  lemma {:induction false} ObtainableMore(schema: Schema, fs: set<string>, fs': set<string>, path: string, rounds: nat, rounds': nat)
    requires ObtainableIn(schema, fs, path, rounds) && fs <= fs' && rounds <= rounds'
    ensures ObtainableIn(schema, fs', path, rounds')
    decreases rounds
  {
    if path !in fs {
      var id :| id in Ids(Declarations(schema)) && PathOf(schema, id) == path && CreatableIn(schema, fs, id, rounds - 1);
      var ps := PrereqsOf(schema, id);
      forall k | 0 <= k < |ps| ensures ObtainableIn(schema, fs', PathOf(schema, ps[k]), rounds' - 1) {
        ObtainableMore(schema, fs, fs', PathOf(schema, ps[k]), rounds - 1, rounds' - 1);
      }
      assert CreatableIn(schema, fs', id, rounds' - 1);
    }
  }

  /** Whatever a run of creations makes can be obtained in as many rounds as it has steps. */
  lemma {:induction false} MadeIsObtainable(schema: Schema, fs: set<string>, steps: seq<Step>, path: string)
    requires Run(schema, fs, steps) && Creates(steps) && path in After(schema, fs, steps)
    ensures ObtainableIn(schema, fs, path, |steps|)
  {
    if steps != [] {
      var n := |steps| - 1;
      var before, id := After(schema, fs, steps[..n]), steps[n].id;
      if path in before {
        MadeIsObtainable(schema, fs, steps[..n], path);
        ObtainableMore(schema, fs, fs, path, n, n + 1);
      } else {
        AskedIsMissing(schema, before, id);
        ProjectionExact(schema, before, id);
        ReadyMeans(schema, before, id);
        var ps := PrereqsOf(schema, id);
        forall k | 0 <= k < |ps| ensures ObtainableIn(schema, fs, PathOf(schema, ps[k]), n) {
          MadeIsObtainable(schema, fs, steps[..n], PathOf(schema, ps[k]));
        }
        assert CreatableIn(schema, fs, id, n);
      }
    }
  }

  /** A workspace in which nothing is asked for holds all that can be obtained. */
  lemma {:induction false} NothingLeftToObtain(schema: Schema, fs: set<string>, path: string, rounds: nat)
    requires Projection(schema, fs) == [] && ObtainableIn(schema, fs, path, rounds)
    ensures path in fs
    decreases rounds
  {
    if path !in fs {
      var id :| id in Ids(Declarations(schema)) && PathOf(schema, id) == path && CreatableIn(schema, fs, id, rounds - 1);
      var ps := PrereqsOf(schema, id);
      forall k | 0 <= k < |ps| ensures PathOf(schema, ps[k]) in fs {
        NothingLeftToObtain(schema, fs, PathOf(schema, ps[k]), rounds - 1);
      }
      ReadyMeans(schema, fs, id);
      ProjectionExact(schema, fs, id);
    }
  }

  /** A run of creations only that cannot go on. */
  lemma Exhaust(schema: Schema, fs: set<string>, steps: seq<Step>) returns (all: seq<Step>)
    requires Run(schema, fs, steps) && Creates(steps)
    ensures Run(schema, fs, all) && Creates(all) && Projection(schema, After(schema, fs, all)) == []
    decreases |MissingIds(schema, After(schema, fs, steps))|
  {
    var now := After(schema, fs, steps);
    if Projection(schema, now) == [] {
      all := steps;
    } else {
      var step := Create(Projection(schema, now)[0].id);
      assert Asks(Projection(schema, now), step.id);
      assert (steps + [step])[..|steps|] == steps;
      StepShrinks(schema, now, step);
      all := Exhaust(schema, fs, steps + [step]);
    }
  }

  /** Creations that cannot go on have made exactly what can be obtained, in whatever order
      they came. */
  lemma {:induction false} ExhaustedRunsMakeAll(schema: Schema, fs: set<string>, steps: seq<Step>, path: string)
    requires Run(schema, fs, steps) && Creates(steps) && Projection(schema, After(schema, fs, steps)) == []
    ensures path in After(schema, fs, steps) <==> Obtainable(schema, fs, path)
  {
    var last := After(schema, fs, steps);
    if path in last {
      MadeIsObtainable(schema, fs, steps, path);
    }
    if rounds: nat :| ObtainableIn(schema, fs, path, rounds) {
      AfterKeeps(schema, fs, steps);
      ObtainableMore(schema, fs, last, path, rounds, rounds);
      NothingLeftToObtain(schema, last, path, rounds);
    }
  }

  /** So any two of them end in the same workspace. */
  lemma {:induction false} ExhaustedRunsAgree(schema: Schema, fs: set<string>, a: seq<Step>, b: seq<Step>)
    requires Run(schema, fs, a) && Creates(a) && Projection(schema, After(schema, fs, a)) == []
    requires Run(schema, fs, b) && Creates(b) && Projection(schema, After(schema, fs, b)) == []
    ensures After(schema, fs, a) == After(schema, fs, b)
  {
    forall path ensures path in After(schema, fs, a) <==> path in After(schema, fs, b) {
      ExhaustedRunsMakeAll(schema, fs, a, path);
      ExhaustedRunsMakeAll(schema, fs, b, path);
    }
  }

  /** Exactly the obtainable files are there or made by some run of creations. */
  lemma {:induction false} SomeRunMakesIff(schema: Schema, fs: set<string>, path: string)
    ensures (exists steps :: Run(schema, fs, steps) && Creates(steps) && path in After(schema, fs, steps)) <==>
      Obtainable(schema, fs, path)
  {
    if steps :| Run(schema, fs, steps) && Creates(steps) && path in After(schema, fs, steps) {
      MadeIsObtainable(schema, fs, steps, path);
    }
    if Obtainable(schema, fs, path) {
      var steps := Exhaust(schema, fs, []);
      ExhaustedRunsMakeAll(schema, fs, steps, path);
    }
  }

  // ---------- Getting stuck ----------

  /** Something is missing and nothing is asked for. */
  ghost predicate Stuck(schema: Schema, fs: set<string>)
  {
    Projection(schema, fs) == [] && MissingIds(schema, fs) != {}
  }

  ghost predicate AllObtainable(schema: Schema, fs: set<string>)
  {
    forall id :: id in Ids(Declarations(schema)) ==> Obtainable(schema, fs, PathOf(schema, id))
  }

  /** From any workspace and for any schema, some run gets stuck exactly when some declared
      artifact cannot be obtained. */
  lemma {:induction false} RunsGetStuckIff(schema: Schema, fs: set<string>)
    ensures (exists steps :: Run(schema, fs, steps) && Stuck(schema, After(schema, fs, steps))) <==> !AllObtainable(schema, fs)
  {
    if steps :| Run(schema, fs, steps) && Stuck(schema, After(schema, fs, steps)) {
      var last := After(schema, fs, steps);
      AfterKeeps(schema, fs, steps);
      var id :| id in MissingIds(schema, last);
      if rounds: nat :| ObtainableIn(schema, fs, PathOf(schema, id), rounds) {
        ObtainableMore(schema, fs, last, PathOf(schema, id), rounds, rounds);
        NothingLeftToObtain(schema, last, PathOf(schema, id), rounds);
      }
    }
    if !AllObtainable(schema, fs) {
      var id :| id in Ids(Declarations(schema)) && !Obtainable(schema, fs, PathOf(schema, id));
      var steps := Exhaust(schema, fs, []);
      ExhaustedRunsMakeAll(schema, fs, steps, PathOf(schema, id));
      assert id in MissingIds(schema, After(schema, fs, steps));
    }
  }

  // ---------- Why something cannot be obtained ----------

  /** Nothing but a prerequisite that is still to come keeps an artifact from being asked for. */
  ghost predicate Sound(schema: Schema, id: string)
    requires id in Ids(Declarations(schema))
  {
    && DeclaredAs(Declarations(schema), id).value.active
    && DeclaredAs(Declarations(schema), id).value.artifact.handlerType != ""
    && forall k :: 0 <= k < |PrereqsOf(schema, id)| ==> PrereqsOf(schema, id)[k] in Ids(Declarations(schema))
  }

  /** A missing artifact that is outside the active phase, has no handler type, or has a
      prerequisite that nobody declares. */
  ghost predicate HasDefect(schema: Schema, fs: set<string>)
  {
    exists id :: id in MissingIds(schema, fs) && !Sound(schema, id)
  }

  /** No two missing artifacts have the same path. */
  ghost predicate DistinctPaths(schema: Schema, fs: set<string>)
  {
    forall a, b :: a in MissingIds(schema, fs) && b in MissingIds(schema, fs) && a != b ==>
      PathOf(schema, a) != PathOf(schema, b)
  }

  /** The declared prerequisites of every artifact. */
  function Prereqs(schema: Schema): Edges
  {
    map id | id in Ids(Declarations(schema)) :: PrereqsOf(schema, id)
  }

  /** A cycle of prerequisites among the missing artifacts. */
  ghost predicate MissingCycle(schema: Schema, fs: set<string>, cycle: seq<string>)
  {
    Cycle(Prereqs(schema), cycle) && Within(cycle, MissingIds(schema, fs))
  }

  ghost predicate HasMissingCycle(schema: Schema, fs: set<string>)
  {
    exists cycle :: MissingCycle(schema, fs, cycle)
  }

  lemma StuckNeedsMissing(schema: Schema, fs: set<string>)
    requires !HasDefect(schema, fs) && Projection(schema, fs) == []
    ensures AllNeedSome(Prereqs(schema), MissingIds(schema, fs))
  {
    forall id | id in MissingIds(schema, fs) ensures NeedsSome(Prereqs(schema), id, MissingIds(schema, fs)) {
      assert Sound(schema, id);
      ProjectionExact(schema, fs, id);
      ReadyMeans(schema, fs, id);
      var k :| 0 <= k < |PrereqsOf(schema, id)| &&
        !(PrereqsOf(schema, id)[k] in Ids(Declarations(schema)) && PathOf(schema, PrereqsOf(schema, id)[k]) in fs);
      assert Needs(Prereqs(schema), id, PrereqsOf(schema, id)[k]);
    }
  }

  /** A stuck workspace shows why: a defect, or a cycle among what it lacks. */
  lemma StuckHasReason(schema: Schema, fs: set<string>)
    requires Stuck(schema, fs)
    ensures HasDefect(schema, fs) || HasMissingCycle(schema, fs)
  {
    if !HasDefect(schema, fs) {
      var id :| id in MissingIds(schema, fs);
      StuckNeedsMissing(schema, fs);
      var cycle := EndlessNeedIsCyclic(Prereqs(schema), MissingIds(schema, fs), id);
      assert MissingCycle(schema, fs, cycle);
    }
  }

  /** With neither, the list is empty exactly when nothing is missing. */
  lemma {:induction false} AcyclicMakesProgress(schema: Schema, fs: set<string>)
    ensures !HasDefect(schema, fs) && !HasMissingCycle(schema, fs) ==>
      (Projection(schema, fs) == [] <==> MissingIds(schema, fs) == {})
  {
    if Stuck(schema, fs) {
      StuckHasReason(schema, fs);
    }
    if Projection(schema, fs) != [] {
      assert Asks(Projection(schema, fs), Projection(schema, fs)[0].id);
      AskedIsMissing(schema, fs, Projection(schema, fs)[0].id);
    }
  }

  /** A defect or a missing cycle of a later workspace was there from the start. */
  lemma ReasonWasThere(schema: Schema, fs: set<string>, fs': set<string>)
    requires fs <= fs'
    ensures HasDefect(schema, fs') ==> HasDefect(schema, fs)
    ensures HasMissingCycle(schema, fs') ==> HasMissingCycle(schema, fs)
  {
    assert MissingIds(schema, fs') <= MissingIds(schema, fs);
    if cycle :| MissingCycle(schema, fs', cycle) {
      forall i | 0 <= i < |cycle| ensures cycle[i] in MissingIds(schema, fs) {
        assert cycle[i] in MissingIds(schema, fs');
      }
      assert MissingCycle(schema, fs, cycle);
    }
  }

  /** With neither at its start, a run is asked for nothing more exactly when everything is
      there, whatever files appeared on the way. */
  lemma {:induction false} FinishedRunsLackNothing(schema: Schema, fs: set<string>, steps: seq<Step>)
    requires Run(schema, fs, steps)
    ensures !HasDefect(schema, fs) && !HasMissingCycle(schema, fs) ==>
      var last := After(schema, fs, steps);
      (Projection(schema, last) == [] <==> forall id :: id in Ids(Declarations(schema)) ==> PathOf(schema, id) in last)
  {
    var last := After(schema, fs, steps);
    AfterKeeps(schema, fs, steps);
    ReasonWasThere(schema, fs, last);
    AcyclicMakesProgress(schema, last);
    NothingMissing(schema, last);
  }

  lemma NothingMissing(schema: Schema, fs: set<string>)
    ensures MissingIds(schema, fs) == {} <==> forall id :: id in Ids(Declarations(schema)) ==> PathOf(schema, id) in fs
  {
    forall id | id in Ids(Declarations(schema)) ensures id in MissingIds(schema, fs) <==> PathOf(schema, id) !in fs {}
  }

  /** Each member of a missing cycle lacks the next one. */
  lemma CycleLacks(schema: Schema, fs: set<string>, cycle: seq<string>, id: string)
    requires MissingCycle(schema, fs, cycle) && id in cycle && id in Ids(Declarations(schema))
    ensures exists k :: 0 <= k < |PrereqsOf(schema, id)| && PrereqsOf(schema, id)[k] in MissingIds(schema, fs)
  {
    var next := CycleIsEndless(Prereqs(schema), cycle, id);
    var k :| 0 <= k < |PrereqsOf(schema, id)| && PrereqsOf(schema, id)[k] == next;
    var i :| 0 <= i < |cycle| && cycle[i] == next;
    assert PrereqsOf(schema, id)[k] in MissingIds(schema, fs);
  }

  lemma CycleNotAsked(schema: Schema, fs: set<string>, cycle: seq<string>, id: string)
    requires MissingCycle(schema, fs, cycle) && Asks(Projection(schema, fs), id)
    ensures id !in cycle
  {
    AskedIsMissing(schema, fs, id);
    if id in cycle {
      CycleLacks(schema, fs, cycle, id);
    }
  }

  /** Creating an artifact leaves every other one missing that was. */
  lemma OthersStayMissing(schema: Schema, fs: set<string>, step: Step, id: string)
    requires DistinctPaths(schema, fs) && id in MissingIds(schema, fs)
    requires step.Create? && Asks(Projection(schema, fs), step.id) && step.id != id
    ensures id in MissingIds(schema, fs + Made(schema, step))
  {
    AskedIsMissing(schema, fs, step.id);
  }

  lemma DistinctStays(schema: Schema, fs: set<string>, fs': set<string>)
    requires DistinctPaths(schema, fs) && fs <= fs'
    ensures DistinctPaths(schema, fs')
  {
    assert MissingIds(schema, fs') <= MissingIds(schema, fs);
  }

  /** Creations leave a missing cycle missing. */
  lemma {:induction false} CycleStaysMissing(schema: Schema, fs: set<string>, steps: seq<Step>, cycle: seq<string>)
    requires Run(schema, fs, steps) && Creates(steps)
    requires DistinctPaths(schema, fs) && MissingCycle(schema, fs, cycle)
    ensures MissingCycle(schema, After(schema, fs, steps), cycle)
  {
    if steps != [] {
      var n := |steps| - 1;
      var before := After(schema, fs, steps[..n]);
      CycleStaysMissing(schema, fs, steps[..n], cycle);
      AfterKeeps(schema, fs, steps[..n]);
      DistinctStays(schema, fs, before);
      CycleNotAsked(schema, before, cycle, steps[n].id);
      forall i | 0 <= i < |cycle| ensures cycle[i] in MissingIds(schema, After(schema, fs, steps)) {
        assert cycle[i] in MissingIds(schema, before) && cycle[i] in cycle;
        OthersStayMissing(schema, before, steps[n], cycle[i]);
      }
    }
  }

  /** And they leave a defective artifact missing. */
  lemma {:induction false} DefectStaysMissing(schema: Schema, fs: set<string>, steps: seq<Step>, id: string)
    requires Run(schema, fs, steps) && Creates(steps)
    requires DistinctPaths(schema, fs) && id in MissingIds(schema, fs) && !Sound(schema, id)
    ensures id in MissingIds(schema, After(schema, fs, steps))
  {
    if steps != [] {
      var n := |steps| - 1;
      var before := After(schema, fs, steps[..n]);
      DefectStaysMissing(schema, fs, steps[..n], id);
      AfterKeeps(schema, fs, steps[..n]);
      DistinctStays(schema, fs, before);
      ProjectionExact(schema, before, steps[n].id);
      ReadyMeans(schema, before, steps[n].id);
      OthersStayMissing(schema, before, steps[n], id);
    }
  }

  /** Unless two missing artifacts share a path, some run gets stuck exactly when one of the
      missing artifacts has a defect or some of them form a cycle of prerequisites. */
  lemma {:induction false} RunsGetStuckIffCycle(schema: Schema, fs: set<string>)
    requires DistinctPaths(schema, fs)
    ensures (exists steps :: Run(schema, fs, steps) && Stuck(schema, After(schema, fs, steps))) <==>
      HasDefect(schema, fs) || HasMissingCycle(schema, fs)
  {
    if steps :| Run(schema, fs, steps) && Stuck(schema, After(schema, fs, steps)) {
      AfterKeeps(schema, fs, steps);
      StuckHasReason(schema, After(schema, fs, steps));
      ReasonWasThere(schema, fs, After(schema, fs, steps));
    }
    if HasDefect(schema, fs) || HasMissingCycle(schema, fs) {
      var steps := Exhaust(schema, fs, []);
      if cycle :| MissingCycle(schema, fs, cycle) {
        CycleStaysMissing(schema, fs, steps, cycle);
        assert cycle[0] in MissingIds(schema, After(schema, fs, steps));
      } else {
        var id :| id in MissingIds(schema, fs) && !Sound(schema, id);
        DefectStaysMissing(schema, fs, steps, id);
      }
    }
  }

  /** Every artifact of a cycle is declared. */
  lemma CycleIsDeclared(schema: Schema, cycle: seq<string>)
    requires Cycle(Prereqs(schema), cycle)
    ensures MissingCycle(schema, {}, cycle)
  {
    forall i | 0 <= i < |cycle| ensures cycle[i] in MissingIds(schema, {}) {
      var next := CycleIsEndless(Prereqs(schema), cycle, cycle[i]);
    }
  }

  /** So over all workspaces: one can be stuck exactly when the schema declares a defective
      artifact or a cycle of prerequisites. */
  lemma {:induction false} StuckIffCycle(schema: Schema)
    requires DistinctPaths(schema, {})
    ensures (exists fs :: Stuck(schema, fs)) <==>
      HasDefect(schema, {}) || exists cycle :: Cycle(Prereqs(schema), cycle)
  {
    if fs :| Stuck(schema, fs) {
      StuckHasReason(schema, fs);
      ReasonWasThere(schema, {}, fs);
    }
    if cycle :| Cycle(Prereqs(schema), cycle) {
      CycleIsDeclared(schema, cycle);
    }
    RunsGetStuckIffCycle(schema, {});
  }
}
