/** Byte-pair encoding: what one greedy merge does to a token sequence, how often a pair
    occurs, and what a whole merge table does to a byte string.

    Token ids are plain integers; a byte string is a token sequence whose ids are bytes. */
module Bpe {
  import opened Common

  type Byte = b: int | 0 <= b < 256

  type Pair = (int, int)

  datatype Rule = Rule(left: int, right: int, merged: int) {
    function Pair(): Pair { (left, right) }
  }

  // ---------- One merge ----------

  /** The greedy left-to-right replacement of `p` by `id`. */
  function Merge(w: seq<int>, p: Pair, id: int): seq<int>
  {
    if |w| < 2 then w
    else if (w[0], w[1]) == p then [id] + Merge(w[2..], p, id)
    else [w[0]] + Merge(w[1..], p, id)
  }

  /** One step of a merge that has come to position `i` with `r` behind it. */
  lemma {:induction false} MergeFrom(w: seq<int>, p: Pair, id: int, i: nat, r: seq<int>)
    requires i < |w|
    ensures r + Merge(w[i..], p, id) ==
      if i < |w| - 1 && (w[i], w[i + 1]) == p then r + [id] + Merge(w[i + 2..], p, id)
      else r + [w[i]] + Merge(w[i + 1..], p, id)
  {
    assert w[i..][1..] == w[i + 1..];
    if i < |w| - 1 {
      assert w[i..][2..] == w[i + 2..];
    } else {
      assert w[i..] == [w[i]] && w[i + 1..] == [];
    }
  }

  method MergeWord(w: seq<int>, p: Pair, id: int) returns (r: seq<int>)
    ensures r == Merge(w, p, id)
  {
    if |w| < 2 {
      return w;
    }
    r := [];
    var i := 0;
    while i < |w|
      invariant 0 <= i <= |w|
      invariant r + Merge(w[i..], p, id) == Merge(w, p, id)
    {
      MergeFrom(w, p, id, i, r);
      if i < |w| - 1 && w[i] == p.0 && w[i + 1] == p.1 {
        r := r + [id];
        i := i + 2;
      } else {
        r := r + [w[i]];
        i := i + 1;
      }
    }
  }

  /** Adjacent occurrences of `p`, overlapping ones included. */
  function Occ(p: Pair, w: seq<int>): nat
  {
    if |w| < 2 then 0
    else (if (w[0], w[1]) == p then 1 else 0) + Occ(p, w[1..])
  }

  lemma {:induction false} OccPositive(p: Pair, w: seq<int>)
    ensures Occ(p, w) > 0 <==> exists j :: 0 <= j < |w| - 1 && w[j] == p.0 && w[j + 1] == p.1
  {
    if |w| >= 2 {
      var rest := w[1..];
      OccPositive(p, rest);
      if Occ(p, rest) > 0 {
        var j :| 0 <= j < |rest| - 1 && rest[j] == p.0 && rest[j + 1] == p.1;
        assert w[j + 1] == p.0 && w[j + 1 + 1] == p.1;
      }
      if j :| 0 <= j < |w| - 1 && w[j] == p.0 && w[j + 1] == p.1 {
        if j > 0 {
          assert rest[j - 1] == p.0 && rest[j - 1 + 1] == p.1;
        } else {
          assert (w[0], w[1]) == p;
        }
      }
    }
  }

  /** Merging an absent pair changes nothing. */
  lemma {:induction false} MergeAbsent(w: seq<int>, p: Pair, id: int)
    requires Occ(p, w) == 0
    ensures Merge(w, p, id) == w
  {
    if |w| >= 2 {
      MergeAbsent(w[1..], p, id);
    }
  }

  /** The leftmost occurrence is the one replaced, and what follows it is merged afresh; with
      `MergeAbsent` this says what a merge is without saying how it is computed. */
  lemma {:induction false} MergeTakesLeftmost(w: seq<int>, p: Pair, id: int, i: nat)
    requires i + 1 < |w| && (w[i], w[i + 1]) == p && Occ(p, w[..i + 1]) == 0
    ensures Merge(w, p, id) == w[..i] + [id] + Merge(w[i + 2..], p, id)
  {
    if i > 0 {
      var front, rest := w[..i + 1], w[1..];
      assert front[1..] == rest[..i];
      MergeTakesLeftmost(rest, p, id, i - 1);
      assert rest[i + 1..] == w[i + 2..];
      assert [w[0]] + rest[..i - 1] == w[..i];
    }
  }

  /** Whatever stands first after a merge: the old first token, or the fresh one. */
  lemma MergeHead(w: seq<int>, p: Pair, id: int)
    ensures w == [] <==> Merge(w, p, id) == []
    ensures w != [] ==> Merge(w, p, id)[0] in {w[0], id}
    ensures |w| >= 2 && (w[0], w[1]) == p ==> Merge(w, p, id)[0] == id
  {
  }

  /** A pair that does not use the fresh id is adjacent after a merge only if it was adjacent
      before, and the merged pair itself is never adjacent afterwards. */
  lemma {:induction false} MergeCreatesOnlyFreshPairs(w: seq<int>, p: Pair, id: int, q: Pair)
    requires q.0 != id && q.1 != id
    ensures Occ(q, w) == 0 || q == p ==> Occ(q, Merge(w, p, id)) == 0
  {
    if |w| >= 2 && (Occ(q, w) == 0 || q == p) {
      var r := Merge(w, p, id);
      if (w[0], w[1]) == p {
        MergeCreatesOnlyFreshPairs(w[2..], p, id, q);
        assert r[1..] == Merge(w[2..], p, id);
        assert Occ(q, w) == 0 ==> Occ(q, w[1..]) == 0;
      } else {
        MergeCreatesOnlyFreshPairs(w[1..], p, id, q);
        assert r[1..] == Merge(w[1..], p, id);
        MergeHead(w[1..], p, id);
      }
    }
  }

  /** How far one merge shrinks a word: by at least half the overlapping occurrences, by at
      most all of them, and by exactly all of them when the two halves differ. */
  lemma {:induction false} MergeShrinks(w: seq<int>, p: Pair, id: int)
    ensures |w| - Occ(p, w) <= |Merge(w, p, id)| <= |w|
    ensures Occ(p, w) <= 2 * (|w| - |Merge(w, p, id)|)
    ensures p.0 != p.1 ==> |Merge(w, p, id)| == |w| - Occ(p, w)
  {
    if |w| >= 2 {
      if (w[0], w[1]) == p {
        MergeShrinks(w[2..], p, id);
        assert w[1..][1..] == w[2..];
      } else {
        MergeShrinks(w[1..], p, id);
      }
    }
  }

  // ---------- A whole table ----------

  /** Every rule of `rules` applied once, in priority order. */
  function Apply(ids: seq<int>, rules: seq<Rule>): seq<int>
  {
    if rules == [] then ids
    else
      var last := rules[|rules| - 1];
      Merge(Apply(ids, rules[..|rules| - 1]), last.Pair(), last.merged)
  }

  method EncodeBytes(data: seq<Byte>, rules: seq<Rule>) returns (ids: seq<int>)
    ensures ids == Apply(data, rules)
  {
    ids := data;
    for k := 0 to |rules|
      invariant ids == Apply(data, rules[..k])
    {
      var rule := rules[k];
      var out: seq<int> := [];
      var i := 0;
      var n := |ids|;
      while i < n
        invariant 0 <= i <= n
        invariant out + Merge(ids[i..], rule.Pair(), rule.merged) == Merge(ids, rule.Pair(), rule.merged)
      {
        MergeFrom(ids, rule.Pair(), rule.merged, i, out);
        if i < n - 1 && ids[i] == rule.left && ids[i + 1] == rule.right {
          out := out + [rule.merged];
          i := i + 2;
        } else {
          out := out + [ids[i]];
          i := i + 1;
        }
      }
      assert rules[..k + 1][..k] == rules[..k];
      ids := out;
    }
    assert rules[..|rules|] == rules;
  }

  /** Earlier rules have priority: a table is its first part, then the rest. */
  lemma {:induction false} ApplyInOrder(ids: seq<int>, first: seq<Rule>, rest: seq<Rule>)
    ensures Apply(ids, first + rest) == Apply(Apply(ids, first), rest)
  {
    if rest == [] {
      assert first + rest == first;
    } else {
      var n := |rest| - 1;
      ApplyInOrder(ids, first, rest[..n]);
      assert (first + rest)[..|first + rest| - 1] == first + rest[..n];
    }
  }

  /** The k-th rule mints id 256 + k out of two smaller ids. */
  ghost predicate Fresh(rules: seq<Rule>)
  {
    forall k :: 0 <= k < |rules| ==>
      && rules[k].merged == 256 + k
      && 0 <= rules[k].left < 256 + k
      && 0 <= rules[k].right < 256 + k
  }

  ghost predicate NormalForm(ids: seq<int>, rules: seq<Rule>)
  {
    forall k :: 0 <= k < |rules| ==> Occ(rules[k].Pair(), ids) == 0
  }

  /** No pair of the table survives encoding, whatever was encoded. */
  lemma {:induction false} EncodingIsNormal(ids: seq<int>, rules: seq<Rule>)
    requires Fresh(rules)
    ensures NormalForm(Apply(ids, rules), rules)
  {
    if rules != [] {
      var n := |rules| - 1;
      var rest := rules[..n];
      EncodingIsNormal(ids, rest);
      forall k | 0 <= k < |rules|
        ensures Occ(rules[k].Pair(), Apply(ids, rules)) == 0
      {
        if k < n {
          assert rules[k] == rest[k];
        }
        MergeCreatesOnlyFreshPairs(Apply(ids, rest), rules[n].Pair(), rules[n].merged, rules[k].Pair());
      }
    }
  }

  /** The table leaves a normal form alone. */
  lemma {:induction false} NormalFormIsFixed(ids: seq<int>, rules: seq<Rule>)
    requires NormalForm(ids, rules)
    ensures Apply(ids, rules) == ids
  {
    if rules != [] {
      var n := |rules| - 1;
      forall k | 0 <= k < n
        ensures Occ(rules[..n][k].Pair(), ids) == 0
      {
        assert rules[..n][k] == rules[k];
      }
      NormalFormIsFixed(ids, rules[..n]);
      MergeAbsent(ids, rules[n].Pair(), rules[n].merged);
    }
  }

  /** The sequences a table with fresh ids leaves alone are exactly the normal forms. */
  lemma {:induction false} NormalFormIffFixed(ids: seq<int>, rules: seq<Rule>)
    requires Fresh(rules)
    ensures NormalForm(ids, rules) <==> Apply(ids, rules) == ids
  {
    EncodingIsNormal(ids, rules);
    if NormalForm(ids, rules) { NormalFormIsFixed(ids, rules); }
  }

  /** Encoding an encoding changes nothing. */
  lemma {:induction false} EncodingIsIdempotent(ids: seq<int>, rules: seq<Rule>)
    requires Fresh(rules)
    ensures Apply(Apply(ids, rules), rules) == Apply(ids, rules)
  {
    EncodingIsNormal(ids, rules);
    NormalFormIsFixed(Apply(ids, rules), rules);
  }

  ghost predicate Below(ids: seq<int>, n: int)
  {
    forall i :: 0 <= i < |ids| ==> 0 <= ids[i] < n
  }

  /** A merge of tokens in range keeps them in range, the fresh one included. */
  lemma {:induction false} MergeBelow(w: seq<int>, p: Pair, id: int, n: int)
    requires Below(w, n) && 0 <= id < n
    ensures Below(Merge(w, p, id), n)
  {
    if |w| >= 2 {
      if (w[0], w[1]) == p {
        MergeBelow(w[2..], p, id, n);
      } else {
        MergeBelow(w[1..], p, id, n);
      }
    }
  }

  /** Encoding bytes uses only the bytes and the ids of the table. */
  lemma {:induction false} ApplyRange(ids: seq<int>, rules: seq<Rule>)
    requires Fresh(rules) && Below(ids, 256)
    ensures Below(Apply(ids, rules), 256 + |rules|)
  {
    if rules != [] {
      var n := |rules| - 1;
      ApplyRange(ids, rules[..n]);
      MergeBelow(Apply(ids, rules[..n]), rules[n].Pair(), rules[n].merged, 256 + |rules|);
    }
  }

  lemma {:induction false} EncodingNeverGrows(ids: seq<int>, rules: seq<Rule>)
    ensures |Apply(ids, rules)| <= |ids|
  {
    if rules != [] {
      var last := rules[|rules| - 1];
      EncodingNeverGrows(ids, rules[..|rules| - 1]);
      MergeShrinks(Apply(ids, rules[..|rules| - 1]), last.Pair(), last.merged);
    }
  }
}
