/** Running evaluation drivers without touching the canonical results: each canonical file is
    moved aside, the driver runs, its output is harvested, and the file is moved back. */
module Forensic {
  import opened Common

  type Content = string

  /** The evaluation directory: canonical files, files moved aside under a save name, and the
      forensic results of this run. */
  datatype Dir = Dir(canon: map<string, Content>, saves: map<string, Content>, results: map<string, Content>)

  /** The JSON file each benchmark's driver writes, and the scorecard they all write. */
  datatype Setup = Setup(drivers: map<string, string>, scorecard: string)

  ghost predicate ValidSetup(setup: Setup)
  {
    setup.scorecard !in setup.drivers.Values
  }

  const SETUP := Setup(
    map["mmlu" := "mmlu_results.json", "hellaswag" := "hellaswag_results.json",
        "gsm8k" := "gsm8k_results.json", "winogrande" := "winogrande_results.json"],
    "scorecard.md")

  lemma SetupIsValid()
    ensures ValidSetup(SETUP) && SETUP.scorecard == "scorecard.md"
    ensures forall bench :: bench in SETUP.drivers <==> bench in {"mmlu", "hellaswag", "gsm8k", "winogrande"}
    ensures forall bench :: bench in SETUP.drivers ==> SETUP.drivers[bench] == bench + "_results.json"
  {
    assert SETUP.drivers["mmlu"] == "mmlu" + "_results.json";
    assert SETUP.drivers["hellaswag"] == "hellaswag" + "_results.json";
    assert SETUP.drivers["gsm8k"] == "gsm8k" + "_results.json";
    assert SETUP.drivers["winogrande"] == "winogrande" + "_results.json";
  }

  /** What a driver leaves in the two canonical files it may touch; None if it leaves none. */
  datatype Left = Left(json: Option<Content>, scorecard: Option<Content>)

  /** The behaviour of the k-th driver run, which may depend on all it can see. */
  type Behaviour = (nat, Dir) -> Left

  // ---------- The file moves ----------

  function Put(files: map<string, Content>, name: string, content: Option<Content>): map<string, Content>
  {
    if content.Some? then files[name := content.value] else files - {name}
  }

  function Get(files: map<string, Content>, name: string): Option<Content>
  {
    if name in files then Some(files[name]) else None
  }

  function SavedAside(d: Dir, name: string): Dir
  {
    if name !in d.canon then d
    else d.(canon := d.canon - {name}, saves := d.saves[name := d.canon[name]])
  }

  /** Nothing is restored if nothing was saved. */
  function Restored(d: Dir, saved: bool, name: string): Dir
  {
    if !saved || name !in d.saves then d
    else d.(canon := d.canon[name := d.saves[name]], saves := d.saves - {name})
  }

  function Harvested(d: Dir, name: string): Dir
  {
    if name !in d.canon then d
    else d.(canon := d.canon - {name}, results := d.results[name := d.canon[name]])
  }

  function Driven(d: Dir, json: string, scorecard: string, left: Left): Dir
  {
    d.(canon := Put(Put(d.canon, json, left.json), scorecard, left.scorecard))
  }

  /** The safety net: a save whose canonical file is absent is moved back. */
  function Recovered(d: Dir, name: string): Dir
  {
    if name in d.saves && name !in d.canon
    then d.(canon := d.canon[name := d.saves[name]], saves := d.saves - {name})
    else d
  }

  // ---------- The run ----------

  /** The directory and the number of drivers run. */
  datatype Progress = Progress(dir: Dir, runs: nat)

  function LeftBy(setup: Setup, p: Progress, bench: string, behaviour: Behaviour): Left
    requires bench in setup.drivers
  {
    behaviour(p.runs, SavedAside(p.dir, setup.drivers[bench]))
  }

  function OneBench(setup: Setup, p: Progress, bench: string, behaviour: Behaviour): Progress
  {
    if bench !in setup.drivers then p
    else
      var json := setup.drivers[bench];
      var driven := Driven(SavedAside(p.dir, json), json, setup.scorecard, LeftBy(setup, p, bench, behaviour));
      Progress(Restored(Harvested(driven, json), json in p.dir.canon, json), p.runs + 1)
  }

  function Benches(setup: Setup, p: Progress, benches: seq<string>, behaviour: Behaviour): Progress
  {
    if benches == [] then p
    else OneBench(setup, Benches(setup, p, benches[..|benches| - 1], behaviour), benches[|benches| - 1], behaviour)
  }

  function RecoverAll(d: Dir, names: seq<string>): Dir
  {
    if names == [] then d else Recovered(RecoverAll(d, names[..|names| - 1]), names[|names| - 1])
  }

  /** All benchmarks, with the scorecard set aside throughout. */
  function Cycled(setup: Setup, d: Dir, benches: seq<string>, behaviour: Behaviour): Dir
  {
    var start := Progress(SavedAside(d, setup.scorecard), 0);
    var dir := Benches(setup, start, benches, behaviour).dir;
    Restored(Harvested(dir, setup.scorecard), setup.scorecard in d.canon, setup.scorecard)
  }

  /** The directory as files, changed in place. */
  class EvalDir {
    var canon: map<string, Content>
    var saves: map<string, Content>
    var results: map<string, Content>

    constructor (d: Dir)
      ensures Value() == d
    {
      canon, saves, results := d.canon, d.saves, d.results;
    }

    function Value(): Dir
      reads this
    {
      Dir(canon, saves, results)
    }

    method SaveAside(name: string) returns (saved: bool)
      modifies this
      ensures saved == (name in old(canon)) && Value() == SavedAside(old(Value()), name)
    {
      if name !in canon {
        return false;
      }
      saves := saves[name := canon[name]];
      canon := canon - {name};
      saved := true;
    }

    method Restore(saved: bool, name: string)
      requires saved ==> name in saves
      modifies this
      ensures Value() == Restored(old(Value()), saved, name)
    {
      if !saved {
        return;
      }
      if name in canon {
        canon := canon - {name};
      }
      canon := canon[name := saves[name]];
      assert canon == old(canon)[name := old(saves)[name]];
      saves := saves - {name};
    }

    method Harvest(name: string)
      modifies this
      ensures Value() == Harvested(old(Value()), name)
    {
      if name !in canon {
        return;
      }
      if name in results {
        results := results - {name};
      }
      results := results[name := canon[name]];
      assert results == old(results)[name := old(canon)[name]];
      canon := canon - {name};
    }

    method RunDriver(json: string, scorecard: string, run: nat, behaviour: Behaviour)
      modifies this
      ensures Value() == Driven(old(Value()), json, scorecard, behaviour(run, old(Value())))
    {
      var left := behaviour(run, Value());
      canon := Put(Put(canon, json, left.json), scorecard, left.scorecard);
    }

    method Recover(name: string)
      modifies this
      ensures Value() == Recovered(old(Value()), name)
    {
      if name in saves && name !in canon {
        canon := canon[name := saves[name]];
        saves := saves - {name};
      }
    }

    /** A run that returns. `names` are the drivers' JSON files in the order of the recovery loop. */
    method RunForensic(setup: Setup, names: seq<string>, benches: seq<string>, behaviour: Behaviour, dryRun: bool)
      requires ValidSetup(setup) && results == map[]
      requires forall n :: n in names <==> n in setup.drivers.Values
      modifies this
      ensures Value() == if dryRun then old(Value())
                         else RecoverAll(Cycled(setup, old(Value()), benches, behaviour), names + [setup.scorecard])
    {
      if dryRun {
        return;
      }
      ghost var before := Value();
      var scorecardSaved := SaveAside(setup.scorecard);
      var runs := 0;
      ghost var start := Progress(Value(), 0);
      for i := 0 to |benches|
        invariant Benches(setup, start, benches[..i], behaviour) == Progress(Value(), runs)
        invariant scorecardSaved ==> setup.scorecard in saves
      {
        assert benches[..i + 1][..i] == benches[..i];
        var bench := benches[i];
        if bench !in setup.drivers {
          continue;
        }
        var json := setup.drivers[bench];
        assert json != setup.scorecard;
        var saved := SaveAside(json);
        RunDriver(json, setup.scorecard, runs, behaviour);
        runs := runs + 1;
        Harvest(json);
        Restore(saved, json);
      }
      assert benches[..|benches|] == benches;
      Harvest(setup.scorecard);
      Restore(scorecardSaved, setup.scorecard);
      ghost var cycled := Value();
      var all := names + [setup.scorecard];
      for i := 0 to |all|
        invariant Value() == RecoverAll(cycled, all[..i])
      {
        assert all[..i + 1][..i] == all[..i];
        Recover(all[i]);
      }
      assert all[..|all|] == all;
    }
  }

  // ---------- What a run leaves behind ----------

  /** A canonical name with a leftover save and no file of its own. */
  ghost predicate Orphan(d: Dir, name: string)
  {
    name in d.saves && name !in d.canon
  }

  /** One benchmark leaves every canonical file but the scorecard as it was, and its save
      names too, except that a save of its own file is gone if there was a file. */
  lemma OneBenchKeeps(setup: Setup, p: Progress, bench: string, behaviour: Behaviour, name: string)
    requires ValidSetup(setup) && name != setup.scorecard
    ensures var q := OneBench(setup, p, bench, behaviour);
      && Get(q.dir.canon, name) == Get(p.dir.canon, name)
      && (Orphan(q.dir, name) <==> Orphan(p.dir, name))
      && (name !in p.dir.canon ==> Get(q.dir.saves, name) == Get(p.dir.saves, name))
  {
  }

  lemma OneBenchKeepsScorecardSave(setup: Setup, p: Progress, bench: string, behaviour: Behaviour)
    requires ValidSetup(setup)
    ensures Get(OneBench(setup, p, bench, behaviour).dir.saves, setup.scorecard) == Get(p.dir.saves, setup.scorecard)
  {
    if bench in setup.drivers {
      assert setup.drivers[bench] in setup.drivers.Values;
    }
  }

  lemma {:induction false} BenchesKeep(setup: Setup, p: Progress, benches: seq<string>, behaviour: Behaviour, name: string)
    requires ValidSetup(setup)
    ensures var q := Benches(setup, p, benches, behaviour);
      && (name != setup.scorecard ==> Get(q.dir.canon, name) == Get(p.dir.canon, name))
      && (name != setup.scorecard ==> (Orphan(q.dir, name) <==> Orphan(p.dir, name)))
      && (name == setup.scorecard ==> Get(q.dir.saves, name) == Get(p.dir.saves, name))
  {
    if benches != [] {
      var n := |benches| - 1;
      BenchesKeep(setup, p, benches[..n], behaviour, name);
      var q := Benches(setup, p, benches[..n], behaviour);
      if name == setup.scorecard {
        OneBenchKeepsScorecardSave(setup, q, benches[n], behaviour);
      } else {
        OneBenchKeeps(setup, q, benches[n], behaviour, name);
      }
    }
  }

  /** After all cycles every canonical file is as before, and so is every orphan. */
  lemma CycledKeeps(setup: Setup, d: Dir, benches: seq<string>, behaviour: Behaviour, name: string)
    requires ValidSetup(setup)
    ensures var c := Cycled(setup, d, benches, behaviour);
      Get(c.canon, name) == Get(d.canon, name) && (Orphan(c, name) <==> Orphan(d, name))
  {
    BenchesKeep(setup, Progress(SavedAside(d, setup.scorecard), 0), benches, behaviour, name);
    BenchesKeep(setup, Progress(SavedAside(d, setup.scorecard), 0), benches, behaviour, setup.scorecard);
  }

  /** The safety net moves back exactly the orphans it looks at. */
  lemma {:induction false} RecoverAllMeans(d: Dir, names: seq<string>, name: string)
    ensures var r := RecoverAll(d, names);
      && (name in r.canon <==> name in d.canon || (name in names && Orphan(d, name)))
      && (name in d.canon ==> Get(r.canon, name) == Get(d.canon, name))
      && (name !in names ==> Get(r.saves, name) == Get(d.saves, name))
      && (!Orphan(d, name) ==> Get(r.saves, name) == Get(d.saves, name))
      && (name in names && Orphan(d, name) ==> Get(r.canon, name) == Get(d.saves, name) && name !in r.saves)
  {
    if names != [] {
      var n := |names| - 1;
      RecoverAllMeans(d, names[..n], name);
      assert names == names[..n] + [names[n]];
    }
  }

  /** A run leaves all canonical files unchanged exactly when it starts without an orphaned
      save of one of the files it manages, whatever the drivers do. */
  lemma CanonicalFilesUnchanged(setup: Setup, d: Dir, names: seq<string>, benches: seq<string>, behaviour: Behaviour)
    requires ValidSetup(setup) && forall n :: n in names <==> n in setup.drivers.Values
    ensures RecoverAll(Cycled(setup, d, benches, behaviour), names + [setup.scorecard]).canon == d.canon
       <==> forall n :: n in setup.drivers.Values || n == setup.scorecard ==> !Orphan(d, n)
  {
    var all := names + [setup.scorecard];
    var c := Cycled(setup, d, benches, behaviour);
    var r := RecoverAll(c, all);
    forall n
      ensures n in r.canon <==> n in d.canon || (n in all && Orphan(d, n))
      ensures n in d.canon ==> Get(r.canon, n) == Get(d.canon, n)
    {
      CycledKeeps(setup, d, benches, behaviour, n);
      RecoverAllMeans(c, all, n);
    }
    if r.canon == d.canon {
      forall n | n in setup.drivers.Values || n == setup.scorecard ensures !Orphan(d, n) {
        assert n in all;
        assert n in r.canon <==> n in d.canon;
      }
    } else if forall n :: n in setup.drivers.Values || n == setup.scorecard ==> !Orphan(d, n) {
      assert forall n :: n in r.canon <==> n in d.canon;
      assert forall n :: n in d.canon ==> r.canon[n] == d.canon[n];
    }
  }

  /** A leftover scorecard save is moved into place, where there was no scorecard. */
  lemma OrphanIsMovedIn(names: seq<string>, benches: seq<string>, behaviour: Behaviour)
    requires forall n :: n in names <==> n in SETUP.drivers.Values
    ensures var d := Dir(map[], map["scorecard.md" := "x"], map[]);
      RecoverAll(Cycled(SETUP, d, benches, behaviour), names + [SETUP.scorecard]).canon != d.canon
  {
    var d := Dir(map[], map["scorecard.md" := "x"], map[]);
    CanonicalFilesUnchanged(SETUP, d, names, benches, behaviour);
    assert Orphan(d, SETUP.scorecard);
  }

  // ---------- What drivers see, and what saves are left ----------

  /** While a driver runs, its JSON is not there, and what was there is under its save name;
      nothing else has changed. */
  lemma DriverSeesNoJson(d: Dir, json: string)
    ensures var seen := SavedAside(d, json);
      && json !in seen.canon && seen.results == d.results
      && (json in d.canon ==> Get(seen.saves, json) == Get(d.canon, json))
      && (json !in d.canon ==> seen.saves == d.saves)
      && forall n :: n != json ==> Get(seen.canon, n) == Get(d.canon, n) && Get(seen.saves, n) == Get(d.saves, n)
  {
  }

  /** Drivers are numbered in the order they run: unknown benchmarks run none. */
  lemma RunsCount(setup: Setup, p: Progress, bench: string, behaviour: Behaviour)
    ensures OneBench(setup, p, bench, behaviour).runs == p.runs + if bench in setup.drivers then 1 else 0
    ensures bench !in setup.drivers ==> OneBench(setup, p, bench, behaviour) == p
  {
  }

  /** The first driver finds no scorecard either. */
  lemma ScorecardIsAside(setup: Setup, d: Dir, bench: string, behaviour: Behaviour)
    requires ValidSetup(setup) && bench in setup.drivers
    ensures var p := Progress(SavedAside(d, setup.scorecard), 0);
      && setup.scorecard !in SavedAside(p.dir, setup.drivers[bench]).canon
      && LeftBy(setup, p, bench, behaviour) == behaviour(0, SavedAside(p.dir, setup.drivers[bench]))
  {
    assert setup.drivers[bench] in setup.drivers.Values;
  }

  /** A benchmark with a canonical file leaves no save of it behind, and touches no other save. */
  lemma OneBenchSaves(setup: Setup, p: Progress, bench: string, behaviour: Behaviour, name: string)
    requires ValidSetup(setup)
    ensures var q := OneBench(setup, p, bench, behaviour);
      Get(q.dir.saves, name) ==
        if bench in setup.drivers && setup.drivers[bench] == name && name in p.dir.canon then None else Get(p.dir.saves, name)
  {
    if bench in setup.drivers { assert setup.drivers[bench] in setup.drivers.Values; }
  }

  /** Some benchmark of the list writes this file. */
  predicate Writes(setup: Setup, benches: seq<string>, name: string)
  {
    exists i :: 0 <= i < |benches| && benches[i] in setup.drivers && setup.drivers[benches[i]] == name
  }

  lemma WritesMore(setup: Setup, benches: seq<string>, bench: string, name: string)
    ensures Writes(setup, benches + [bench], name) <==>
      Writes(setup, benches, name) || (bench in setup.drivers && setup.drivers[bench] == name)
  {
    var all := benches + [bench];
    if i :| 0 <= i < |benches| && benches[i] in setup.drivers && setup.drivers[benches[i]] == name { assert all[i] == benches[i]; }
    if bench in setup.drivers && setup.drivers[bench] == name { assert all[|benches|] == bench; }
  }

  lemma {:induction false} BenchesSaves(setup: Setup, p: Progress, benches: seq<string>, behaviour: Behaviour, name: string)
    requires ValidSetup(setup) && name != setup.scorecard
    ensures Get(Benches(setup, p, benches, behaviour).dir.saves, name) ==
      if Writes(setup, benches, name) && name in p.dir.canon then None else Get(p.dir.saves, name)
  {
    if benches != [] {
      var n := |benches| - 1;
      assert benches == benches[..n] + [benches[n]];
      BenchesSaves(setup, p, benches[..n], behaviour, name);
      BenchesKeep(setup, p, benches[..n], behaviour, name);
      WritesMore(setup, benches[..n], benches[n], name);
      OneBenchSaves(setup, Benches(setup, p, benches[..n], behaviour), benches[n], behaviour, name);
    }
  }

  /** After a run no canonical file it handled has a save left, orphaned saves of managed files
      have been moved into place as they were, and every other save is as it was. */
  lemma {:induction false} SavesAfter(setup: Setup, d: Dir, names: seq<string>, benches: seq<string>, behaviour: Behaviour, name: string)
    requires ValidSetup(setup) && forall n :: n in names <==> n in setup.drivers.Values
    ensures var all := names + [setup.scorecard];
      var r := RecoverAll(Cycled(setup, d, benches, behaviour), all);
      && (name in d.canon && (name == setup.scorecard || Writes(setup, benches, name)) ==> name !in r.saves)
      && (Orphan(d, name) && name in all ==> name !in r.saves && Get(r.canon, name) == Get(d.saves, name))
      && (name in d.canon && name != setup.scorecard && !Writes(setup, benches, name) ==> Get(r.saves, name) == Get(d.saves, name))
      && (name !in all ==> Get(r.saves, name) == Get(d.saves, name))
  {
    var start := Progress(SavedAside(d, setup.scorecard), 0);
    var c := Cycled(setup, d, benches, behaviour);
    var all := names + [setup.scorecard];
    RecoverAllMeans(c, all, name);
    CycledKeeps(setup, d, benches, behaviour, name);
    if name == setup.scorecard {
      BenchesKeep(setup, start, benches, behaviour, name);
    } else {
      BenchesSaves(setup, start, benches, behaviour, name);
      assert Writes(setup, benches, name) ==> name in setup.drivers.Values;
    }
  }

  // ---------- What a run collects ----------

  /** The last JSON a driver of `name` wrote, before the benchmark list ran out. */
  function LastJson(setup: Setup, p: Progress, benches: seq<string>, behaviour: Behaviour, name: string): Option<Content>
  {
    if benches == [] then None
    else
      var n := |benches| - 1;
      var before := Benches(setup, p, benches[..n], behaviour);
      if benches[n] in setup.drivers && setup.drivers[benches[n]] == name && LeftBy(setup, before, benches[n], behaviour).json.Some?
      then LeftBy(setup, before, benches[n], behaviour).json
      else LastJson(setup, p, benches[..n], behaviour, name)
  }

  /** The scorecard the last driver left; None if no driver ran. */
  function LastScorecard(setup: Setup, p: Progress, benches: seq<string>, behaviour: Behaviour): Option<Content>
  {
    if benches == [] then None
    else
      var n := |benches| - 1;
      if benches[n] in setup.drivers
      then LeftBy(setup, Benches(setup, p, benches[..n], behaviour), benches[n], behaviour).scorecard
      else LastScorecard(setup, p, benches[..n], behaviour)
  }

  lemma OneBenchCollects(setup: Setup, p: Progress, bench: string, behaviour: Behaviour, name: string)
    requires ValidSetup(setup) && bench in setup.drivers
    ensures var q, left := OneBench(setup, p, bench, behaviour), LeftBy(setup, p, bench, behaviour);
      && Get(q.dir.canon, setup.scorecard) == left.scorecard
      && Get(q.dir.results, name) ==
           if setup.drivers[bench] == name && left.json.Some? then left.json else Get(p.dir.results, name)
  {
    assert setup.drivers[bench] in setup.drivers.Values;
  }

  lemma {:induction false} BenchesCollect(setup: Setup, p: Progress, benches: seq<string>, behaviour: Behaviour, name: string)
    requires ValidSetup(setup) && p.dir.results == map[] && setup.scorecard !in p.dir.canon
    ensures var q := Benches(setup, p, benches, behaviour);
      && Get(q.dir.results, name) == LastJson(setup, p, benches, behaviour, name)
      && Get(q.dir.canon, setup.scorecard) == LastScorecard(setup, p, benches, behaviour)
  {
    if benches != [] {
      var n := |benches| - 1;
      BenchesCollect(setup, p, benches[..n], behaviour, name);
      if benches[n] in setup.drivers {
        OneBenchCollects(setup, Benches(setup, p, benches[..n], behaviour), benches[n], behaviour, name);
      }
    }
  }

  lemma {:induction false} NoScorecardJson(setup: Setup, p: Progress, benches: seq<string>, behaviour: Behaviour)
    requires ValidSetup(setup)
    ensures LastJson(setup, p, benches, behaviour, setup.scorecard) == None
  {
    if benches != [] {
      NoScorecardJson(setup, p, benches[..|benches| - 1], behaviour);
      if benches[|benches| - 1] in setup.drivers {
        assert setup.drivers[benches[|benches| - 1]] in setup.drivers.Values;
      }
    }
  }

  lemma {:induction false} RecoverAllKeepsResults(d: Dir, names: seq<string>)
    ensures RecoverAll(d, names).results == d.results
  {
    if names != [] { RecoverAllKeepsResults(d, names[..|names| - 1]); }
  }

  /** The forensic directory ends up with the last output of each driver and the last
      scorecard, and nothing else. */
  lemma ResultsAreLastOutputs(setup: Setup, d: Dir, names: seq<string>, benches: seq<string>, behaviour: Behaviour, name: string)
    requires ValidSetup(setup) && d.results == map[]
    ensures var start := Progress(SavedAside(d, setup.scorecard), 0);
      Get(RecoverAll(Cycled(setup, d, benches, behaviour), names).results, name) ==
        if name == setup.scorecard then LastScorecard(setup, start, benches, behaviour)
        else LastJson(setup, start, benches, behaviour, name)
  {
    var start := Progress(SavedAside(d, setup.scorecard), 0);
    BenchesCollect(setup, start, benches, behaviour, name);
    NoScorecardJson(setup, start, benches, behaviour);
    RecoverAllKeepsResults(Cycled(setup, d, benches, behaviour), names);
  }
}
