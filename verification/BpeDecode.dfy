/** Decoding: looking tokens up in the vocab, and why that undoes encoding. */
module BpeDecode {
  import opened Common
  import opened Bpe

  /** List indexing as the source's language does it: a negative index counts from the end,
      and an index outside the list is an error. */
  function Lookup(vocab: seq<seq<Byte>>, i: int): Option<seq<Byte>>
  {
    if 0 <= i < |vocab| then Some(vocab[i])
    else if -|vocab| <= i < 0 then Some(vocab[|vocab| + i])
    else None
  }

  function Decode(ids: seq<int>, vocab: seq<seq<Byte>>): Option<seq<Byte>>
  {
    if ids == [] then Some([])
    else
      match (Lookup(vocab, ids[0]), Decode(ids[1..], vocab))
      case (Some(head), Some(tail)) => Some(head + tail)
      case (_, _) => None
  }

  /** Decoding goes token by token. */
  lemma {:induction false} DecodeAppend(a: seq<int>, b: seq<int>, vocab: seq<seq<Byte>>)
    ensures Decode(a + b, vocab) ==
      if Decode(a, vocab).Some? && Decode(b, vocab).Some?
      then Some(Decode(a, vocab).value + Decode(b, vocab).value) else None
  {
    if a == [] {
      assert a + b == b;
      if Decode(b, vocab).Some? { assert [] + Decode(b, vocab).value == Decode(b, vocab).value; }
    } else {
      DecodeAppend(a[1..], b, vocab);
      assert (a + b)[1..] == a[1..] + b;
      if Decode(a, vocab).Some? && Decode(b, vocab).Some? {
        var head, tail := Lookup(vocab, a[0]).value, Decode(a[1..], vocab).value;
        assert head + (tail + Decode(b, vocab).value) == head + tail + Decode(b, vocab).value;
      }
    }
  }

  /** One token: its entry, counted from the end if it is negative; no entry, no text. */
  lemma DecodeOne(i: int, vocab: seq<seq<Byte>>)
    ensures 0 <= i < |vocab| ==> Decode([i], vocab) == Some(vocab[i]) == Decode([i - |vocab|], vocab)
    ensures Decode([i], vocab) == None <==> !(-|vocab| <= i < |vocab|)
  {
    assert [i][1..] == [] && [i - |vocab|][1..] == [];
    if 0 <= i < |vocab| {
      assert vocab[i] + [] == vocab[i];
    }
  }

  /** The table a trainer hands over: single bytes first, then one entry per rule, spelling
      out the two entries it joins. */
  ghost predicate TableShape(vocab: seq<seq<Byte>>, rules: seq<Rule>)
  {
    && Fresh(rules)
    && |vocab| == 256 + |rules|
    && (forall b: Byte :: vocab[b] == [b])
    && forall k :: 0 <= k < |rules| ==> vocab[256 + k] == vocab[rules[k].left] + vocab[rules[k].right]
  }

  lemma {:induction false} DecodeBytes(data: seq<Byte>, vocab: seq<seq<Byte>>)
    requires |vocab| >= 256 && forall b: Byte :: vocab[b] == [b]
    ensures Decode(data, vocab) == Some(data)
  {
    if data != [] {
      DecodeBytes(data[1..], vocab);
      assert vocab[data[0]] == [data[0]];
      assert data == [data[0]] + data[1..];
    }
  }

  /** A merge does not change what a sequence spells, if the new entry spells the pair. */
  lemma {:induction false} MergeKeepsSpelling(w: seq<int>, p: Pair, id: int, vocab: seq<seq<Byte>>)
    requires 0 <= p.0 < |vocab| && 0 <= p.1 < |vocab| && 0 <= id < |vocab|
    requires vocab[id] == vocab[p.0] + vocab[p.1]
    ensures Decode(Merge(w, p, id), vocab) == Decode(w, vocab)
  {
    if |w| >= 2 {
      if (w[0], w[1]) == p {
        var rest := w[2..];
        MergeKeepsSpelling(rest, p, id, vocab);
        assert Merge(w, p, id)[1..] == Merge(rest, p, id);
        assert w[1..][1..] == rest;
        if Decode(rest, vocab).Some? {
          var tail := Decode(rest, vocab).value;
          assert vocab[p.0] + vocab[p.1] + tail == vocab[p.0] + (vocab[p.1] + tail);
        }
      } else {
        MergeKeepsSpelling(w[1..], p, id, vocab);
        assert Merge(w, p, id)[1..] == Merge(w[1..], p, id);
      }
    }
  }

  lemma {:induction false} ApplyKeepsSpelling(ids: seq<int>, rules: seq<Rule>, n: nat, vocab: seq<seq<Byte>>)
    requires TableShape(vocab, rules) && n <= |rules|
    ensures Decode(Apply(ids, rules[..n]), vocab) == Decode(ids, vocab)
  {
    if n > 0 {
      ApplyKeepsSpelling(ids, rules, n - 1, vocab);
      assert rules[..n][..n - 1] == rules[..n - 1];
      var rule := rules[n - 1];
      assert vocab[256 + (n - 1)] == vocab[rule.left] + vocab[rule.right];
      MergeKeepsSpelling(Apply(ids, rules[..n - 1]), rule.Pair(), rule.merged, vocab);
    }
  }

  /** Decoding inverts encoding on every byte string. */
  lemma {:induction false} RoundTrip(data: seq<Byte>, vocab: seq<seq<Byte>>, rules: seq<Rule>)
    requires TableShape(vocab, rules)
    ensures Decode(Apply(data, rules), vocab) == Some(data)
    ensures |Apply(data, rules)| <= |data|
  {
    ApplyKeepsSpelling(data, rules, |rules|, vocab);
    assert rules[..|rules|] == rules;
    DecodeBytes(data, vocab);
    EncodingNeverGrows(data, rules);
  }
}
