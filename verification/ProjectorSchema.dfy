/** What the projector emits, said of the schema itself: of phases and artifacts by position. */
module ProjectorSchema {
  import opened Common
  import opened Projector

  // ---------- Positions ----------

  ghost predicate Stands(schema: Schema, p: nat, j: nat)
  {
    p < |schema.phases| && j < |schema.phases[p].artifacts|
  }

  ghost function ArtifactAt(schema: Schema, p: nat, j: nat): Artifact
    requires Stands(schema, p, j)
  {
    schema.phases[p].artifacts[j]
  }

  /** Phase by phase, and within a phase artifact by artifact. */
  ghost predicate Before(p: nat, j: nat, p': nat, j': nat)
  {
    p < p' || (p == p' && j < j')
  }

  ghost predicate DeclaredAt(schema: Schema, p: nat, j: nat, id: string)
  {
    Stands(schema, p, j) && id != "" && ArtifactAt(schema, p, j).id == id
  }

  ghost predicate LastDeclaredAt(schema: Schema, p: nat, j: nat, id: string)
  {
    && DeclaredAt(schema, p, j, id)
    && forall p': nat, j': nat :: Before(p, j, p', j') ==> !DeclaredAt(schema, p', j', id)
  }

  ghost predicate FirstDeclaredAt(schema: Schema, p: nat, j: nat, id: string)
  {
    && DeclaredAt(schema, p, j, id)
    && forall p': nat, j': nat :: Before(p', j', p, j) ==> !DeclaredAt(schema, p', j', id)
  }

  // ---------- The declarations, by position ----------

  ghost function UpTo(schema: Schema, p: nat, j: nat): seq<Declared>
    requires Stands(schema, p, j)
  {
    var phase := schema.phases[p];
    InOrder(schema.phases[..p], schema.currentPhase) + InPhase(phase.artifacts[..j], phase.id == schema.currentPhase)
  }

  /** What a position declares: itself, as active exactly if its phase is the current one. */
  ghost function DeclaredThere(schema: Schema, p: nat, j: nat): seq<Declared>
    requires Stands(schema, p, j)
  {
    var a := ArtifactAt(schema, p, j);
    if a.id == "" then [] else [Declared(a, schema.phases[p].id == schema.currentPhase)]
  }

  lemma {:induction false} OrderPrefix(phases: seq<Phase>, current: string, p: nat)
    requires p <= |phases|
    ensures InOrder(phases[..p], current) <= InOrder(phases, current)
    decreases |phases|
  {
    if p == |phases| {
      assert phases[..p] == phases;
    } else {
      OrderPrefix(phases[..|phases| - 1], current, p);
      assert phases[..|phases| - 1][..p] == phases[..p];
    }
  }

  lemma {:induction false} PhasePrefix(artifacts: seq<Artifact>, active: bool, j: nat)
    requires j <= |artifacts|
    ensures InPhase(artifacts[..j], active) <= InPhase(artifacts, active)
    decreases |artifacts|
  {
    if j == |artifacts| {
      assert artifacts[..j] == artifacts;
    } else {
      PhasePrefix(artifacts[..|artifacts| - 1], active, j);
      assert artifacts[..|artifacts| - 1][..j] == artifacts[..j];
    }
  }

  lemma {:induction false} NextArtifact(schema: Schema, p: nat, j: nat)
    requires Stands(schema, p, j)
    ensures UpTo(schema, p, j) + DeclaredThere(schema, p, j)
         == InOrder(schema.phases[..p], schema.currentPhase)
            + InPhase(schema.phases[p].artifacts[..j + 1], schema.phases[p].id == schema.currentPhase)
  {
    var artifacts := schema.phases[p].artifacts;
    assert artifacts[..j + 1][..j] == artifacts[..j];
  }

  lemma {:induction false} NextPhase(schema: Schema, p: nat)
    requires p < |schema.phases|
    ensures InOrder(schema.phases[..p + 1], schema.currentPhase)
         == InOrder(schema.phases[..p], schema.currentPhase)
            + InPhase(schema.phases[p].artifacts, schema.phases[p].id == schema.currentPhase)
  {
    assert schema.phases[..p + 1][..p] == schema.phases[..p];
  }

  lemma {:induction false} WithinPhases(schema: Schema, p: nat, j: nat, n: nat)
    requires Stands(schema, p, j) && p < n <= |schema.phases|
    ensures UpTo(schema, p, j) + DeclaredThere(schema, p, j) <= InOrder(schema.phases[..n], schema.currentPhase)
  {
    var phase := schema.phases[p];
    NextArtifact(schema, p, j);
    NextPhase(schema, p);
    PhasePrefix(phase.artifacts, phase.id == schema.currentPhase, j + 1);
    OrderPrefix(schema.phases[..n], schema.currentPhase, p + 1);
    assert schema.phases[..n][..p + 1] == schema.phases[..p + 1];
  }

  lemma {:induction false} LaterPosition(schema: Schema, p: nat, j: nat, p': nat, j': nat)
    requires Stands(schema, p, j) && Stands(schema, p', j') && Before(p, j, p', j')
    ensures UpTo(schema, p, j) + DeclaredThere(schema, p, j) <= UpTo(schema, p', j')
  {
    if p == p' {
      var artifacts := schema.phases[p].artifacts;
      NextArtifact(schema, p, j);
      PhasePrefix(artifacts[..j'], schema.phases[p].id == schema.currentPhase, j + 1);
      assert artifacts[..j'][..j + 1] == artifacts[..j + 1];
    } else {
      WithinPhases(schema, p, j, p');
    }
  }

  /** A declaration stands at its place among all of them. */
  lemma {:induction false} DeclarationStands(schema: Schema, p: nat, j: nat)
    requires Stands(schema, p, j) && ArtifactAt(schema, p, j).id != ""
    ensures var k := |UpTo(schema, p, j)|;
      k < |Declarations(schema)| && [Declarations(schema)[k]] == DeclaredThere(schema, p, j)
  {
    WithinPhases(schema, p, j, |schema.phases|);
    assert schema.phases[..|schema.phases|] == schema.phases;
    var upTo := UpTo(schema, p, j);
    assert (upTo + DeclaredThere(schema, p, j))[|upTo|] == DeclaredThere(schema, p, j)[0];
  }

  lemma {:induction false} ArtifactOf(artifacts: seq<Artifact>, active: bool, k: nat) returns (j: nat)
    requires k < |InPhase(artifacts, active)|
    ensures j < |artifacts| && |InPhase(artifacts[..j], active)| == k
    ensures artifacts[j].id != "" && InPhase(artifacts, active)[k] == Declared(artifacts[j], active)
  {
    var n := |artifacts| - 1;
    if k < |InPhase(artifacts[..n], active)| {
      j := ArtifactOf(artifacts[..n], active, k);
      assert artifacts[..n][..j] == artifacts[..j];
    } else {
      j := n;
    }
  }

  /** Every declaration comes from one position. */
  lemma {:induction false} PositionOf(schema: Schema, n: nat, k: nat) returns (p: nat, j: nat)
    requires n <= |schema.phases| && k < |InOrder(schema.phases[..n], schema.currentPhase)|
    ensures Stands(schema, p, j) && |UpTo(schema, p, j)| == k
    ensures DeclaredThere(schema, p, j) == [InOrder(schema.phases[..n], schema.currentPhase)[k]]
  {
    NextPhase(schema, n - 1);
    var front := InOrder(schema.phases[..n - 1], schema.currentPhase);
    if k < |front| {
      p, j := PositionOf(schema, n - 1, k);
    } else {
      p := n - 1;
      j := ArtifactOf(schema.phases[p].artifacts, schema.phases[p].id == schema.currentPhase, k - |front|);
    }
  }

  lemma {:induction false} PositionOfDeclaration(schema: Schema, k: nat) returns (p: nat, j: nat)
    requires k < |Declarations(schema)|
    ensures Stands(schema, p, j) && |UpTo(schema, p, j)| == k && DeclaredThere(schema, p, j) == [Declarations(schema)[k]]
  {
    assert schema.phases[..|schema.phases|] == schema.phases;
    p, j := PositionOf(schema, |schema.phases|, k);
  }

  lemma {:induction false} SameOrder(schema: Schema, p: nat, j: nat, p': nat, j': nat)
    requires Stands(schema, p, j) && Stands(schema, p', j')
    requires ArtifactAt(schema, p, j).id != "" && ArtifactAt(schema, p', j').id != ""
    ensures Before(p, j, p', j') <==> |UpTo(schema, p, j)| < |UpTo(schema, p', j')|
  {
    if Before(p, j, p', j') {
      LaterPosition(schema, p, j, p', j');
    } else if (p, j) != (p', j') {
      LaterPosition(schema, p', j', p, j);
    }
  }

  // ---------- The declaration that counts ----------

  /** Where the declaration that counts stands: no later one has the id. */
  lemma {:induction false} LastIndex(ds: seq<Declared>, id: string) returns (k: nat)
    requires id in Ids(ds)
    ensures k < |ds| && DeclaredAs(ds, id) == Some(ds[k]) && ds[k].artifact.id == id
    ensures forall l :: k < l < |ds| ==> ds[l].artifact.id != id
  {
    var n := |ds| - 1;
    if ds[n].artifact.id == id {
      k := n;
    } else {
      k := LastIndex(ds[..n], id);
    }
  }

  lemma {:induction false} IdsAre(ds: seq<Declared>, id: string)
    ensures id in Ids(ds) <==> exists k :: 0 <= k < |ds| && ds[k].artifact.id == id
  {
    if ds != [] {
      var n := |ds| - 1;
      IdsAre(ds[..n], id);
      if k :| 0 <= k < n && ds[..n][k].artifact.id == id { assert ds[k].artifact.id == id; }
      if k :| 0 <= k < n && ds[k].artifact.id == id { assert ds[..n][k].artifact.id == id; }
    }
  }

  /** An id is known exactly if some position declares it. */
  lemma {:induction false} KnownIff(schema: Schema, id: string)
    ensures id in Ids(Declarations(schema)) <==> exists p: nat, j: nat :: DeclaredAt(schema, p, j, id)
  {
    var ds := Declarations(schema);
    IdsAre(ds, id);
    if k: nat :| k < |ds| && ds[k].artifact.id == id {
      var p, j := PositionOfDeclaration(schema, k);
      assert DeclaredAt(schema, p, j, id);
    }
    if p: nat, j: nat :| DeclaredAt(schema, p, j, id) {
      DeclarationStands(schema, p, j);
    }
  }

  /** The declaration that counts is the last one by position, active exactly if its phase is
      the current one. */
  lemma {:induction false} LastCounts(schema: Schema, p: nat, j: nat, id: string)
    requires LastDeclaredAt(schema, p, j, id)
    ensures id in Ids(Declarations(schema))
    ensures DeclaredAs(Declarations(schema), id) == Some(Declared(ArtifactAt(schema, p, j), schema.phases[p].id == schema.currentPhase))
  {
    KnownIff(schema, id);
    DeclarationStands(schema, p, j);
    var ds := Declarations(schema);
    var k := LastIndex(ds, id);
    var x, y := PositionOfDeclaration(schema, k);
    assert DeclaredAt(schema, x, y, id);
    SameOrder(schema, p, j, x, y);
  }

  lemma {:induction false} SomeLast(schema: Schema, id: string) returns (p: nat, j: nat)
    requires id in Ids(Declarations(schema))
    ensures LastDeclaredAt(schema, p, j, id)
  {
    var k := LastIndex(Declarations(schema), id);
    p, j := PositionOfDeclaration(schema, k);
    forall x: nat, y: nat | Before(p, j, x, y) ensures !DeclaredAt(schema, x, y, id) {
      if DeclaredAt(schema, x, y, id) {
        DeclarationStands(schema, x, y);
        SameOrder(schema, p, j, x, y);
      }
    }
  }

  // ---------- What is emitted ----------

  /** The last declaration of `id` has a path that exists. */
  ghost predicate There(schema: Schema, fs: set<string>, id: string)
  {
    exists p: nat, j: nat :: LastDeclaredAt(schema, p, j, id) && ArtifactAt(schema, p, j).path in fs
  }

  /** The artifact at (p, j) is declared last under its id, in the current phase, is missing,
      has a handler type, and everything it needs is there. */
  ghost predicate Wanted(schema: Schema, fs: set<string>, p: nat, j: nat, id: string)
  {
    && LastDeclaredAt(schema, p, j, id)
    && schema.phases[p].id == schema.currentPhase
    && var a := ArtifactAt(schema, p, j);
    && a.path !in fs && a.handlerType != ""
    && forall k :: 0 <= k < |a.prereqs| ==> There(schema, fs, a.prereqs[k])
  }

  lemma {:induction false} ThereMeans(schema: Schema, fs: set<string>, id: string)
    ensures There(schema, fs, id) <==> id in Ids(Declarations(schema)) && PathOf(schema, id) in fs
  {
    if id in Ids(Declarations(schema)) {
      var p, j := SomeLast(schema, id);
      LastCounts(schema, p, j, id);
    }
    if p: nat, j: nat :| LastDeclaredAt(schema, p, j, id) && ArtifactAt(schema, p, j).path in fs {
      LastCounts(schema, p, j, id);
    }
  }

  lemma {:induction false} WantedIsReady(schema: Schema, fs: set<string>, p: nat, j: nat, id: string)
    requires LastDeclaredAt(schema, p, j, id)
    ensures id in Rows(schema, fs) && (Wanted(schema, fs, p, j, id) <==> Ready(Rows(schema, fs), id))
  {
    LastCounts(schema, p, j, id);
    ReadyMeans(schema, fs, id);
    var ps := ArtifactAt(schema, p, j).prereqs;
    assert ps == PrereqsOf(schema, id);
    forall k | 0 <= k < |ps|
      ensures There(schema, fs, ps[k]) <==> ps[k] in Ids(Declarations(schema)) && PathOf(schema, ps[k]) in fs
    {
      ThereMeans(schema, fs, ps[k]);
    }
  }

  /** The projection asks for an id exactly if some artifact of the schema under it is wanted,
      once, and with that artifact's handler type. */
  lemma {:induction false} EmittedIff(schema: Schema, fs: set<string>, id: string)
    ensures Asks(Projection(schema, fs), id) <==> exists p: nat, j: nat :: Wanted(schema, fs, p, j, id)
    ensures forall i, p: nat, j: nat :: 0 <= i < |Projection(schema, fs)| && Projection(schema, fs)[i].id == id && LastDeclaredAt(schema, p, j, id) ==>
      Projection(schema, fs)[i].handlerType == ArtifactAt(schema, p, j).handlerType
  {
    ProjectionExact(schema, fs, id);
    KnownIff(schema, id);
    if id in Ids(Declarations(schema)) {
      var p, j := SomeLast(schema, id);
      WantedIsReady(schema, fs, p, j, id);
    }
    if p: nat, j: nat :| Wanted(schema, fs, p, j, id) {
      WantedIsReady(schema, fs, p, j, id);
    }
    forall i, p: nat, j: nat | 0 <= i < |Projection(schema, fs)| && Projection(schema, fs)[i].id == id && LastDeclaredAt(schema, p, j, id)
      ensures Projection(schema, fs)[i].handlerType == ArtifactAt(schema, p, j).handlerType
    {
      LastCounts(schema, p, j, id);
      TableIsDeclarations(Declarations(schema), fs, id);
      EmittedHandler(Rows(schema, fs), Ids(Declarations(schema)), i);
    }
  }

  lemma {:induction false} EmittedHandler(rows: map<string, Row>, ids: seq<string>, i: nat)
    requires (forall id :: id in ids ==> id in rows) && i < |Emitted(rows, ids)|
    ensures Emitted(rows, ids)[i].id in rows && Emitted(rows, ids)[i].handlerType == rows[Emitted(rows, ids)[i].id].handlerType
  {
    var n := |ids| - 1;
    if i < |Emitted(rows, ids[..n])| {
      EmittedHandler(rows, ids[..n], i);
    }
  }

  // ---------- In which order ----------

  /** Ids come in the order of their first declarations. */
  lemma {:induction false} FirstIndex(ds: seq<Declared>, a: nat) returns (k: nat)
    requires a < |Ids(ds)|
    ensures k < |ds| && ds[k].artifact.id == Ids(ds)[a]
    ensures forall l :: 0 <= l < k ==> ds[l].artifact.id in Ids(ds)[..a]
  {
    var n := |ds| - 1;
    if a < |Ids(ds[..n])| {
      k := FirstIndex(ds[..n], a);
      assert Ids(ds)[..a] == Ids(ds[..n])[..a];
    } else {
      k := n;
      forall l | 0 <= l < k ensures ds[l].artifact.id in Ids(ds)[..a] {
        IdsAre(ds[..n], ds[l].artifact.id);
        assert ds[..n][l] == ds[l];
        assert Ids(ds)[..a] == Ids(ds[..n]);
      }
    }
  }

  /** Items keep the order of the ids they are picked from. */
  lemma {:induction false} EmittedInOrder(rows: map<string, Row>, ids: seq<string>, i: nat, l: nat) returns (a: nat, b: nat)
    requires (forall id :: id in ids ==> id in rows) && i < l < |Emitted(rows, ids)|
    ensures a < b < |ids| && ids[a] == Emitted(rows, ids)[i].id && ids[b] == Emitted(rows, ids)[l].id
  {
    var n := |ids| - 1;
    if l < |Emitted(rows, ids[..n])| {
      a, b := EmittedInOrder(rows, ids[..n], i, l);
    } else {
      b := n;
      EmittedExactly(rows, ids[..n], Emitted(rows, ids[..n])[i].id);
      assert Asks(Emitted(rows, ids[..n]), Emitted(rows, ids[..n])[i].id);
      a :| 0 <= a < n && ids[a] == Emitted(rows, ids)[i].id;
    }
  }

  /** The projection lists artifacts in the order in which the schema first declares them. */
  lemma {:induction false} EmittedAsDeclared(schema: Schema, fs: set<string>, i: nat, l: nat, p: nat, j: nat, p': nat, j': nat)
    requires i < l < |Projection(schema, fs)|
    requires FirstDeclaredAt(schema, p, j, Projection(schema, fs)[i].id)
    requires FirstDeclaredAt(schema, p', j', Projection(schema, fs)[l].id)
    ensures Before(p, j, p', j')
  {
    var ds := Declarations(schema);
    var a, b := EmittedInOrder(Table(ds, fs), Ids(ds), i, l);
    DeclarationStands(schema, p, j);
    DeclarationStands(schema, p', j');
    var m := FirstIndex(ds, a);
    var u, v := PositionOfDeclaration(schema, m);
    assert DeclaredAt(schema, u, v, Ids(ds)[a]);
    SameOrder(schema, p, j, u, v);
    SameOrder(schema, p, j, p', j');
    assert |UpTo(schema, p, j)| <= m;
    FirstBefore(ds, a, b, m, |UpTo(schema, p', j')|);
  }

  lemma FirstBefore(ds: seq<Declared>, a: nat, b: nat, m: nat, q: nat)
    requires a < b < |Ids(ds)| && m < |ds| && q < |ds|
    requires ds[m].artifact.id == Ids(ds)[a] && ds[q].artifact.id == Ids(ds)[b]
    requires forall l :: 0 <= l < m ==> ds[l].artifact.id in Ids(ds)[..a]
    ensures m < q
  {
    IdsDistinct(ds);
  }
}
