/** The records of a dispatch ledger and the chain that binds them.

    Cryptography is symbolic: a digest or a MAC is the constructor term over what was hashed,
    so two are equal exactly when they were taken over equal data under the same key. */
module LedgerRecords {
  import opened Common

  type Time = real

  datatype Key = Key(bytes: seq<int>)

  datatype Digest = Sha256(text: string)

  datatype Verdict = Approve | Modify | Reject

  datatype Attest = Attest(target: string, verdict: Verdict)

  datatype Kind =
    | Open(sandbox: string, roster: Option<string>)
    | Dispatch(receipt: string, role: string, parent: Option<string>, session: Option<string>,
               description: string, promptSha: Digest, dictated: seq<Attest>, background: bool)
    | Complete(receipt: string, isError: bool, attests: seq<Attest>, resultSha: Digest)
    | Seal(dispatches: int, completed: int, unresolved: set<string>)
    | Unknown(name: string)

  /** Everything the MAC is taken over. */
  datatype Body = Body(run: string, seqNo: int, prev: Mac, ts: Time, kind: Kind)

  datatype Mac = Genesis(run: string) | Hmac(key: Key, body: Body)

  datatype Record = Record(body: Body, mac: Mac)

  /** What one line of a ledger file decodes to. */
  datatype Line = NotJson | NotRecord | Rec(record: Record)

  function Lines(log: seq<Record>): (lines: seq<Line>)
    ensures |lines| == |log| && forall i :: 0 <= i < |log| ==> lines[i] == Rec(log[i])
  {
    seq(|log|, i requires 0 <= i < |log| => Rec(log[i]))
  }

  /** The mac the next record has to name. */
  function Tip(run: string, log: seq<Record>): Mac
  {
    if log == [] then Genesis(run) else log[|log| - 1].mac
  }

  /** A log as one writer produces it. */
  ghost predicate Chained(run: string, key: Key, log: seq<Record>)
  {
    forall i :: 0 <= i < |log| ==>
      && log[i].mac == Hmac(key, log[i].body)
      && log[i].body.run == run
      && log[i].body.seqNo == i
      && log[i].body.prev == Tip(run, log[..i])
  }

  // ---------- Sign-off lines ----------

  /** A text together with the sign-off lines a scan finds in it: raw target and verdict. */
  datatype Text = Text(content: string, signoffs: seq<(string, Verdict)>)

  function StripDotSlash(target: string): string
  {
    if "./" <= target then StripDotSlash(target[2..]) else target
  }

  /** Some component of the path is "..". */
  predicate Escapes(target: string)
  {
    exists i :: 0 <= i <= |target| && ComponentAt(target, i)
  }

  predicate ComponentAt(target: string, i: nat)
    requires i <= |target|
  {
    && ".." <= target[i..]
    && (i == 0 || target[i - 1] == '/')
    && (i + 2 == |target| || target[i + 2] == '/')
  }

  function NormalizeTarget(raw: string): Option<string>
  {
    var target := StripDotSlash(raw);
    if target == "" || target[0] == '/' || Escapes(target) then None else Some(target)
  }

  /** The sign-offs with a usable target, each once, in order of first appearance. */
  function Attestations(signoffs: seq<(string, Verdict)>): seq<Attest>
  {
    if signoffs == [] then []
    else
      var found := Attestations(signoffs[..|signoffs| - 1]);
      var (raw, verdict) := signoffs[|signoffs| - 1];
      match NormalizeTarget(raw)
      case None => found
      case Some(target) =>
        if Attest(target, verdict) in found then found else found + [Attest(target, verdict)]
  }

  method ParseAttestations(text: Text) returns (found: seq<Attest>)
    ensures found == Attestations(text.signoffs)
  {
    found := [];
    for i := 0 to |text.signoffs|
      invariant found == Attestations(text.signoffs[..i])
    {
      assert text.signoffs[..i + 1][..i] == text.signoffs[..i];
      var target := NormalizeTarget(text.signoffs[i].0);
      if target.Some? {
        var a := Attest(target.value, text.signoffs[i].1);
        if a !in found {
          found := found + [a];
        }
      }
    }
    assert text.signoffs[..|text.signoffs|] == text.signoffs;
  }

  /** A text attests exactly what one of its sign-off lines says, and says it once. */
  lemma {:induction false} AttestationsExact(signoffs: seq<(string, Verdict)>)
    ensures forall a :: a in Attestations(signoffs) <==>
      exists i :: 0 <= i < |signoffs| && signoffs[i].1 == a.verdict && NormalizeTarget(signoffs[i].0) == Some(a.target)
    ensures forall i, j :: 0 <= i < j < |Attestations(signoffs)| ==> Attestations(signoffs)[i] != Attestations(signoffs)[j]
  {
    if signoffs != [] {
      var n := |signoffs| - 1;
      var rest := signoffs[..n];
      AttestationsExact(rest);
      forall a
        ensures a in Attestations(signoffs) <==>
          exists i :: 0 <= i < |signoffs| && signoffs[i].1 == a.verdict && NormalizeTarget(signoffs[i].0) == Some(a.target)
      {
        if a in Attestations(rest) {
          var i :| 0 <= i < n && rest[i].1 == a.verdict && NormalizeTarget(rest[i].0) == Some(a.target);
          assert signoffs[i] == rest[i];
        }
        if i :| 0 <= i < n && signoffs[i].1 == a.verdict && NormalizeTarget(signoffs[i].0) == Some(a.target) {
          assert rest[i] == signoffs[i];
        }
      }
    }
  }

  /** A normalized target is relative, stays inside, and normalizes to itself. */
  lemma {:induction false} NormalizedIsStable(raw: string)
    ensures NormalizeTarget(raw).Some? ==>
      var t := NormalizeTarget(raw).value;
      t != "" && t[0] != '/' && !("./" <= t) && !Escapes(t) && NormalizeTarget(t) == Some(t)
  {
    StripEnds(raw);
  }

  lemma {:induction false} StripEnds(raw: string)
    ensures !("./" <= StripDotSlash(raw))
  {
    if "./" <= raw {
      StripEnds(raw[2..]);
    }
  }

  /** More text only adds sign-offs behind those there are. */
  lemma {:induction false} AttestationsInOrder(signoffs: seq<(string, Verdict)>, n: nat)
    requires n <= |signoffs|
    ensures Attestations(signoffs[..n]) <= Attestations(signoffs)
    decreases |signoffs|
  {
    if n == |signoffs| {
      assert signoffs[..n] == signoffs;
    } else {
      AttestationsInOrder(signoffs[..|signoffs| - 1], n);
      assert signoffs[..|signoffs| - 1][..n] == signoffs[..n];
    }
  }

  // ---------- What normalizing does ----------

  /** The parts of a path between its slashes. */
  function Components(t: string): (parts: seq<string>)
    ensures parts != []
  {
    if t == "" then [""]
    else
      var rest := Components(t[1..]);
      if t[0] == '/' then [""] + rest else [[t[0]] + rest[0]] + rest[1..]
  }

  function JoinSlash(parts: seq<string>): string
  {
    if parts == [] then ""
    else if |parts| == 1 then parts[0]
    else parts[0] + "/" + JoinSlash(parts[1..])
  }

  /** They have no slash, and joining them gives the path back. */
  lemma {:induction false} ComponentsJoin(t: string)
    ensures JoinSlash(Components(t)) == t
    ensures forall i :: 0 <= i < |Components(t)| ==> '/' !in Components(t)[i]
  {
    if t != "" {
      ComponentsJoin(t[1..]);
      var rest := Components(t[1..]);
      if t[0] == '/' {
        assert ([""] + rest)[1..] == rest;
        assert "" + "/" + t[1..] == t;
      } else {
        var parts := [[t[0]] + rest[0]] + rest[1..];
        assert parts[1..] == rest[1..];
        assert [t[0]] + t[1..] == t;
      }
    }
  }

  /** What stands at position `i` of a path is a component "..". */
  lemma ComponentAtMeans(t: string, i: nat)
    requires i <= |t|
    ensures ComponentAt(t, i) <==>
      && i + 2 <= |t| && t[i] == '.' && t[i + 1] == '.'
      && (i > 0 ==> t[i - 1] == '/') && (i + 2 < |t| ==> t[i + 2] == '/')
  {
  }

  /** The first component, and whether there are more. */
  lemma {:induction false} FirstComponent(t: string)
    ensures Components(t)[0] == ".." <==> ComponentAt(t, 0)
  {
    ComponentAtMeans(t, 0);
    if t != "" && t[0] != '/' {
      var u := t[1..];
      assert Components(t)[0] == [t[0]] + Components(u)[0];
      if u != "" && u[0] != '/' {
        var v := u[1..];
        assert Components(u)[0] == [u[0]] + Components(v)[0];
        assert Components(v)[0] == "" <==> v == "" || v[0] == '/';
      }
    }
  }

  /** Some component but the first is "..". */
  ghost predicate EscapesLater(t: string)
  {
    exists i :: 0 < i <= |t| && ComponentAt(t, i)
  }

  lemma ComponentShift(t: string, i: nat)
    requires 0 < i <= |t|
    ensures ComponentAt(t, i) <==> if i == 1 then t[0] == '/' && ComponentAt(t[1..], 0) else ComponentAt(t[1..], i - 1)
  {
    ComponentAtMeans(t, i);
    ComponentAtMeans(t[1..], i - 1);
  }

  lemma EscapesShift(t: string)
    requires t != ""
    ensures EscapesLater(t) <==> (t[0] == '/' && ComponentAt(t[1..], 0)) || EscapesLater(t[1..])
  {
    if i: nat :| 0 < i <= |t| && ComponentAt(t, i) {
      ComponentShift(t, i);
      if i > 1 { assert ComponentAt(t[1..], i - 1); }
    }
    ComponentShift(t, 1);
    if i: nat :| 0 < i <= |t[1..]| && ComponentAt(t[1..], i) {
      ComponentShift(t, i + 1);
      assert ComponentAt(t, i + 1);
    }
  }

  lemma {:induction false} LaterComponents(t: string)
    ensures ".." in Components(t)[1..] <==> EscapesLater(t)
  {
    if t != "" {
      var rest := Components(t[1..]);
      LaterComponents(t[1..]);
      FirstComponent(t[1..]);
      EscapesShift(t);
      assert rest == [rest[0]] + rest[1..];
      assert Components(t)[1..] == if t[0] == '/' then rest else rest[1..];
    }
  }

  /** A path escapes exactly when one of its components is "..". */
  lemma EscapesIff(t: string)
    ensures Escapes(t) <==> ".." in Components(t)
  {
    FirstComponent(t);
    LaterComponents(t);
    assert Components(t) == [Components(t)[0]] + Components(t)[1..];
    if i: nat :| i <= |t| && ComponentAt(t, i) {
      assert i == 0 || EscapesLater(t);
    }
  }

  function DotSlashes(k: nat): string
  {
    if k == 0 then "" else "./" + DotSlashes(k - 1)
  }

  lemma {:induction false} StripIff(raw: string, t: string)
    requires !("./" <= t)
    ensures StripDotSlash(raw) == t <==> exists k: nat :: raw == DotSlashes(k) + t
  {
    if StripDotSlash(raw) == t {
      var k := StripCount(raw);
      assert raw == DotSlashes(k) + t;
    }
    if k: nat :| raw == DotSlashes(k) + t {
      StripDots(k, t);
    }
  }

  lemma {:induction false} StripCount(raw: string) returns (k: nat)
    ensures raw == DotSlashes(k) + StripDotSlash(raw)
  {
    if "./" <= raw {
      k := StripCount(raw[2..]);
      k := k + 1;
      assert raw == "./" + raw[2..];
      assert "./" + (DotSlashes(k - 1) + StripDotSlash(raw)) == DotSlashes(k) + StripDotSlash(raw);
    } else {
      k := 0;
    }
  }

  lemma {:induction false} StripDots(k: nat, t: string)
    requires !("./" <= t)
    ensures StripDotSlash(DotSlashes(k) + t) == t
  {
    if k == 0 {
      assert DotSlashes(0) + t == t;
    } else {
      StripDots(k - 1, t);
      assert (DotSlashes(k) + t)[2..] == DotSlashes(k - 1) + t;
    }
  }

  /** A target is accepted as `t` exactly when it is `t` behind any number of "./", and `t` is
      not empty, does not begin with "./" or a slash, and has no component "..". */
  lemma NormalizeIff(raw: string, t: string)
    ensures NormalizeTarget(raw) == Some(t) <==>
      && (exists k: nat :: raw == DotSlashes(k) + t)
      && !("./" <= t) && t != "" && t[0] != '/' && ".." !in Components(t)
  {
    StripEnds(raw);
    EscapesIff(t);
    if !("./" <= t) { StripIff(raw, t); }
  }
}
