/** The trainer: it keeps a weighted pair count and a reverse index up to date
    incrementally, and never recounts. What it must agree with is the naive trainer below,
    which recounts every word at every step and has no index at all. */
module BpeTrain {
  import opened Common
  import opened Bpe
  import opened BpeDecode

  /** A distinct word of the corpus with the number of times it occurs. */
  datatype Word = Word(bytes: seq<Byte>, freq: int)

  datatype Trained = BadVocabSize | Trained(vocab: seq<seq<Byte>>, rules: seq<Rule>)

  // ---------- The naive trainer ----------

  /** The weighted number of occurrences of `p`, counted from scratch. */
  function Count(p: Pair, data: seq<seq<int>>, words: seq<Word>): int
    requires |data| <= |words|
  {
    if data == [] then 0
    else
      var n := |data| - 1;
      Count(p, data[..n], words) + words[n].freq * Occ(p, data[n])
  }

  /** Every word of the corpus, encoded from its own bytes under the rules so far. */
  function EncodeAll(words: seq<Word>, rules: seq<Rule>): (data: seq<seq<int>>)
    ensures |data| == |words|
  {
    seq(|words|, i requires 0 <= i < |words| => Apply(words[i].bytes, rules))
  }

  /** `p` is worth merging, and no pair of the corpus is worth more. */
  ghost predicate IsBest(p: Pair, data: seq<seq<int>>, words: seq<Word>, minFreq: int)
    requires |data| <= |words|
  {
    && Count(p, data, words) > 0
    && Count(p, data, words) >= minFreq
    && forall q: Pair :: Count(q, data, words) <= Count(p, data, words)
  }

  ghost predicate NothingLeft(data: seq<seq<int>>, words: seq<Word>, minFreq: int)
    requires |data| <= |words|
  {
    forall q: Pair :: Count(q, data, words) == 0 || Count(q, data, words) < minFreq
  }

  /** Each rule merges a best pair of the corpus as the earlier rules encode it. */
  ghost predicate NaiveRun(words: seq<Word>, rules: seq<Rule>, minFreq: int)
  {
    forall k :: 0 <= k < |rules| ==>
      IsBest(rules[k].Pair(), EncodeAll(words, rules[..k]), words, minFreq)
  }

  ghost predicate Corpus(words: seq<Word>)
  {
    forall i :: 0 <= i < |words| ==> words[i].freq > 0
  }

  // ---------- Facts about counting ----------

  lemma {:induction false} CountNonNegative(p: Pair, data: seq<seq<int>>, words: seq<Word>)
    requires |data| <= |words| && Corpus(words)
    ensures Count(p, data, words) >= 0
    ensures Count(p, data, words) > 0 <==> exists i :: 0 <= i < |data| && Occ(p, data[i]) > 0
  {
    if data != [] {
      var n := |data| - 1;
      CountNonNegative(p, data[..n], words);
      if Count(p, data[..n], words) > 0 {
        var i :| 0 <= i < n && Occ(p, data[..n][i]) > 0;
        assert Occ(p, data[i]) > 0;
      } else {
        assert forall i :: 0 <= i < n ==> data[..n][i] == data[i];
      }
    }
  }

  lemma {:induction false} CountAtLeastOneWord(p: Pair, data: seq<seq<int>>, words: seq<Word>, wi: nat)
    requires |data| <= |words| && Corpus(words) && wi < |data|
    ensures Count(p, data, words) >= words[wi].freq * Occ(p, data[wi])
  {
    var n := |data| - 1;
    CountNonNegative(p, data[..n], words);
    if wi < n {
      CountAtLeastOneWord(p, data[..n], words, wi);
    }
  }

  /** The per-word delta: rewriting one word takes its old pairs out and puts its new ones in. */
  lemma {:induction false} CountDelta(p: Pair, data: seq<seq<int>>, words: seq<Word>, wi: nat, w: seq<int>)
    requires |data| <= |words| && wi < |data|
    ensures Count(p, data[wi := w], words)
         == Count(p, data, words) - words[wi].freq * Occ(p, data[wi]) + words[wi].freq * Occ(p, w)
  {
    var n := |data| - 1;
    if wi < n {
      assert data[wi := w][..n] == data[..n][wi := w];
      CountDelta(p, data[..n], words, wi, w);
    } else {
      assert data[wi := w][..n] == data[..n];
    }
  }

  // ---------- The incremental state ----------

  function Get(counts: map<Pair, int>, p: Pair): int
  {
    if p in counts then counts[p] else 0
  }

  function Users(index: map<Pair, set<nat>>, p: Pair): set<nat>
  {
    if p in index then index[p] else {}
  }

  ghost function Containing(p: Pair, data: seq<seq<int>>): set<nat>
  {
    set wi: nat | wi < |data| && Occ(p, data[wi]) > 0
  }

  lemma ContainingHas(p: Pair, data: seq<seq<int>>, wi: nat)
    requires wi < |data|
    ensures wi in Containing(p, data) <==> Occ(p, data[wi]) > 0
  {
  }

  /** Present entries are positive; present index sets are non-empty. */
  ghost predicate Tidy(counts: map<Pair, int>, index: map<Pair, set<nat>>)
  {
    && (forall p :: p in counts ==> counts[p] > 0)
    && (forall p :: p in index ==> index[p] != {})
  }

  /** The cache and the index say exactly what a recount and a scan would say of `p`. */
  ghost predicate ExactAt(p: Pair, counts: map<Pair, int>, index: map<Pair, set<nat>>, data: seq<seq<int>>, words: seq<Word>)
    requires |data| == |words|
  {
    Get(counts, p) == Count(p, data, words) && Users(index, p) == Containing(p, data)
  }

  ghost predicate Exact(counts: map<Pair, int>, index: map<Pair, set<nat>>, data: seq<seq<int>>, words: seq<Word>)
    requires |data| == |words|
  {
    Tidy(counts, index) && forall p :: ExactAt(p, counts, index, data, words)
  }

  /** Spelled out on the maps: a pair has an entry exactly when some word contains it; the
      entry is its full recount, and its index set the words a scan would find. */
  lemma ExactMeans(counts: map<Pair, int>, index: map<Pair, set<nat>>, data: seq<seq<int>>, words: seq<Word>, p: Pair)
    requires |data| == |words| && Corpus(words)
    requires Exact(counts, index, data, words)
    ensures p in counts <==> exists i :: 0 <= i < |data| && Occ(p, data[i]) > 0
    ensures p in counts ==> counts[p] == Count(p, data, words)
    ensures p in index <==> p in counts
    ensures p in index ==> index[p] == Containing(p, data)
  {
    assert ExactAt(p, counts, index, data, words);
    CountNonNegative(p, data, words);
    if p in counts {
      var i :| 0 <= i < |data| && Occ(p, data[i]) > 0;
      assert i in Containing(p, data);
    }
    if p in index {
      var i :| i in index[p];
      assert i in Containing(p, data);
    }
  }

  lemma Distribute(f: int, k: int)
    ensures f * (k + 1) == f * k + f
  {
  }

  lemma Scale(f: int, a: int, b: int)
    requires f >= 0 && a <= b
    ensures f * a <= f * b
  {
  }

  lemma OccStep(p: Pair, w: seq<int>, j: nat)
    requires j < |w| - 1
    ensures Occ(p, w[j..]) == (if (w[j], w[j + 1]) == p then 1 else 0) + Occ(p, w[j + 1..])
  {
    assert w[j..][1..] == w[j + 1..];
  }

  /** Adds every pair of `w` to the counts and the index. */
  method AddPairs(counts0: map<Pair, int>, index0: map<Pair, set<nat>>, w: seq<int>, wi: nat, freq: int)
    returns (counts: map<Pair, int>, index: map<Pair, set<nat>>)
    requires freq > 0 && Tidy(counts0, index0)
    ensures Tidy(counts, index)
    ensures forall p :: Get(counts, p) == Get(counts0, p) + freq * Occ(p, w)
    ensures forall p :: Users(index, p) == Users(index0, p) + if Occ(p, w) > 0 then {wi} else {}
  {
    counts, index := counts0, index0;
    var j := 0;
    while j < |w| - 1
      invariant 0 <= j <= |w|
      invariant Tidy(counts, index)
      invariant forall p :: Get(counts, p) + freq * Occ(p, w[j..]) == Get(counts0, p) + freq * Occ(p, w)
      invariant forall p :: Users(index, p) + (if Occ(p, w[j..]) > 0 then {wi} else {})
                         == Users(index0, p) + (if Occ(p, w) > 0 then {wi} else {})
    {
      var p := (w[j], w[j + 1]);
      counts := counts[p := Get(counts, p) + freq];
      index := index[p := Users(index, p) + {wi}];
      Distribute(freq, Occ(p, w[j + 1..]));
      forall q
        ensures Occ(q, w[j..]) == (if q == p then 1 else 0) + Occ(q, w[j + 1..])
      {
        OccStep(q, w, j);
      }
      j := j + 1;
    }
    forall p ensures Occ(p, w[j..]) == 0 {}
  }

  /** Takes one occurrence of `p` in word `wi` out of both maps. An entry whose count falls to
      zero is dropped, and so is a set that empties; a pair with no entry gets a negative one,
      which is dropped at once. */
  method DropPair(counts0: map<Pair, int>, index0: map<Pair, set<nat>>, p: Pair, wi: nat, freq: int)
    returns (counts: map<Pair, int>, index: map<Pair, set<nat>>)
    requires freq > 0 && Tidy(counts0, index0)
    requires p in counts0 ==> counts0[p] >= freq
    ensures Tidy(counts, index) && counts.Keys <= counts0.Keys && index.Keys <= index0.Keys
    ensures forall q :: Get(counts, q) == Get(counts0, q) - if q == p && p in counts0 then freq else 0
    ensures forall q :: Users(index, q) == Users(index0, q) - if q == p then {wi} else {}
  {
    counts, index := counts0, index0;
    counts := counts[p := Get(counts, p) - freq];
    if counts[p] <= 0 {
      counts := counts - {p};
    }
    if p in index {
      index := index[p := index[p] - {wi}];
      if index[p] == {} {
        index := index - {p};
      }
    }
  }

  /** Takes every pair of `w` out of the counts and the index; `best` has no entry any more. */
  method RemovePairs(counts0: map<Pair, int>, index0: map<Pair, set<nat>>, w: seq<int>, wi: nat, freq: int, ghost best: Pair)
    returns (counts: map<Pair, int>, index: map<Pair, set<nat>>)
    requires freq > 0 && Tidy(counts0, index0)
    requires best !in counts0 && best !in index0
    requires forall p :: p != best ==> Get(counts0, p) >= freq * Occ(p, w)
    ensures Tidy(counts, index)
    ensures best !in counts && best !in index
    ensures forall p :: p != best ==> Get(counts, p) == Get(counts0, p) - freq * Occ(p, w)
    ensures forall p :: p != best ==> Users(index, p) == Users(index0, p) - if Occ(p, w) > 0 then {wi} else {}
  {
    counts, index := counts0, index0;
    var j := 0;
    while j < |w| - 1
      invariant 0 <= j <= |w|
      invariant Tidy(counts, index)
      invariant best !in counts && best !in index
      invariant forall p :: p != best ==>
        Get(counts, p) - freq * Occ(p, w[j..]) == Get(counts0, p) - freq * Occ(p, w)
      invariant forall p :: p != best ==>
        Users(index, p) - (if Occ(p, w[j..]) > 0 then {wi} else {})
          == Users(index0, p) - (if Occ(p, w) > 0 then {wi} else {})
    {
      var p := (w[j], w[j + 1]);
      Distribute(freq, Occ(p, w[j + 1..]));
      Scale(freq, 0, Occ(p, w[j + 1..]));
      OccStep(p, w, j);
      ghost var c, x := counts, index;
      assert p != best ==> Get(c, p) >= freq;
      counts, index := DropPair(counts, index, p, wi, freq);
      forall q | q != best
        ensures Get(counts, q) - freq * Occ(q, w[j + 1..]) == Get(c, q) - freq * Occ(q, w[j..])
        ensures Users(index, q) - (if Occ(q, w[j + 1..]) > 0 then {wi} else {})
             == Users(x, q) - (if Occ(q, w[j..]) > 0 then {wi} else {})
      {
        OccStep(q, w, j);
      }
      j := j + 1;
    }
    forall p ensures Occ(p, w[j..]) == 0 {}
  }

  // ---------- One merge step ----------

  /** Exactness for every pair but `best`, which has been popped from both maps. */
  ghost predicate ExactBut(best: Pair, counts: map<Pair, int>, index: map<Pair, set<nat>>, data: seq<seq<int>>, words: seq<Word>)
    requires |data| == |words|
  {
    && Tidy(counts, index)
    && best !in counts && best !in index
    && forall p :: p != best ==> ExactAt(p, counts, index, data, words)
  }

  lemma ContainingUpdate(p: Pair, data: seq<seq<int>>, wi: nat, w: seq<int>)
    requires wi < |data|
    ensures Containing(p, data[wi := w])
         == Containing(p, data) - {wi} + if Occ(p, w) > 0 then {wi} else {}
  {
  }

  /** Rewrites one word and brings the maps up to date with it. */
  method RewriteWord(counts0: map<Pair, int>, index0: map<Pair, set<nat>>, data0: seq<seq<int>>,
                     words: seq<Word>, wi: nat, best: Pair, id: int)
    returns (counts: map<Pair, int>, index: map<Pair, set<nat>>, data: seq<seq<int>>)
    requires |data0| == |words| && Corpus(words) && wi < |words|
    requires ExactBut(best, counts0, index0, data0, words)
    requires best.0 != id && best.1 != id
    ensures data == data0[wi := Merge(data0[wi], best, id)]
    ensures ExactBut(best, counts, index, data, words)
  {
    var w := data0[wi];
    var freq := words[wi].freq;
    forall p | p != best
      ensures Get(counts0, p) >= freq * Occ(p, w)
    {
      assert ExactAt(p, counts0, index0, data0, words);
      CountAtLeastOneWord(p, data0, words, wi);
    }
    var c1, x1 := RemovePairs(counts0, index0, w, wi, freq, best);
    var merged := MergeWord(w, best, id);
    data := data0[wi := merged];
    counts, index := AddPairs(c1, x1, merged, wi, freq);
    MergeCreatesOnlyFreshPairs(w, best, id, best);
    assert Get(counts, best) == 0 && Users(index, best) == {};
    forall p | p != best
      ensures ExactAt(p, counts, index, data, words)
    {
      assert ExactAt(p, counts0, index0, data0, words);
      CountDelta(p, data0, words, wi, merged);
      ContainingUpdate(p, data0, wi, merged);
      assert Occ(p, w) > 0 <==> wi in Containing(p, data0);
    }
  }

  /** Merges `best` everywhere by visiting only the words its index names, in any order. */
  method ApplyBest(counts0: map<Pair, int>, index0: map<Pair, set<nat>>, data0: seq<seq<int>>,
                   words: seq<Word>, best: Pair, id: int)
    returns (counts: map<Pair, int>, index: map<Pair, set<nat>>, data: seq<seq<int>>)
    requires |data0| == |words| && Corpus(words)
    requires Exact(counts0, index0, data0, words)
    requires best in counts0
    requires best.0 != id && best.1 != id
    ensures |data| == |data0| && forall i :: 0 <= i < |data| ==> data[i] == Merge(data0[i], best, id)
    ensures Exact(counts, index, data, words)
  {
    assert ExactAt(best, counts0, index0, data0, words);
    var affected := Users(index0, best);
    index := index0 - {best};
    counts := counts0 - {best};
    data := data0;
    forall p | p != best
      ensures ExactAt(p, counts, index, data, words)
    {
      assert ExactAt(p, counts0, index0, data0, words);
    }
    while affected != {}
      invariant affected <= Containing(best, data0)
      invariant |data| == |data0|
      invariant forall i :: 0 <= i < |data| ==>
        data[i] == if i in Containing(best, data0) - affected then Merge(data0[i], best, id) else data0[i]
      invariant ExactBut(best, counts, index, data, words)
      decreases affected
    {
      var wi :| wi in affected;
      counts, index, data := RewriteWord(counts, index, data, words, wi, best, id);
      affected := affected - {wi};
    }
    forall i: nat | i < |data|
      ensures data[i] == Merge(data0[i], best, id) && Occ(best, data[i]) == 0
    {
      MergeCreatesOnlyFreshPairs(data0[i], best, id, best);
      if Occ(best, data0[i]) == 0 {
        MergeAbsent(data0[i], best, id);
      } else {
        ContainingHas(best, data0, i);
      }
    }
    CountNonNegative(best, data, words);
    assert ExactAt(best, counts, index, data, words);
  }

  // ---------- The trainer ----------

  lemma PrefixDelta(p: Pair, data: seq<seq<int>>, words: seq<Word>, i: nat)
    requires |data| <= |words| && i < |data|
    ensures Count(p, data[..i + 1], words) == Count(p, data[..i], words) + words[i].freq * Occ(p, data[i])
  {
    assert data[..i + 1][..i] == data[..i];
  }

  method BuildIndex(data: seq<seq<int>>, words: seq<Word>)
    returns (counts: map<Pair, int>, index: map<Pair, set<nat>>)
    requires |data| == |words| && Corpus(words)
    ensures Exact(counts, index, data, words)
  {
    counts, index := map[], map[];
    for i := 0 to |data|
      invariant Tidy(counts, index)
      invariant forall p :: Get(counts, p) == Count(p, data[..i], words)
      invariant forall p :: Users(index, p) == Containing(p, data[..i])
    {
      forall p
        ensures Count(p, data[..i + 1], words) == Count(p, data[..i], words) + words[i].freq * Occ(p, data[i])
        ensures Containing(p, data[..i + 1]) == Containing(p, data[..i]) + if Occ(p, data[i]) > 0 then {i} else {}
      {
        PrefixDelta(p, data, words, i);
      }
      counts, index := AddPairs(counts, index, data[i], i, words[i].freq);
    }
    assert data[..|data|] == data;
  }

  /** A maximum over the entries, taken in any order; which of several is left open. */
  method MaxPair(counts: map<Pair, int>) returns (best: Pair)
    requires counts != map[]
    ensures best in counts
    ensures forall p :: p in counts ==> counts[p] <= counts[best]
  {
    var todo := counts.Keys;
    assert todo != {};
    best :| best in todo;
    todo := todo - {best};
    while todo != {}
      invariant todo <= counts.Keys && best in counts
      invariant forall p :: p in counts.Keys - todo ==> counts[p] <= counts[best]
      decreases todo
    {
      var p :| p in todo;
      todo := todo - {p};
      if counts[p] > counts[best] {
        best := p;
      }
    }
  }

  lemma EncodeAllStep(words: seq<Word>, rules: seq<Rule>, rule: Rule, i: nat)
    requires i < |words|
    ensures EncodeAll(words, rules + [rule])[i] == Merge(EncodeAll(words, rules)[i], rule.Pair(), rule.merged)
  {
    assert (rules + [rule])[..|rules|] == rules;
  }

  lemma EncodeAllNext(words: seq<Word>, rules: seq<Rule>, rule: Rule, data: seq<seq<int>>)
    requires |data| == |words|
    requires forall i :: 0 <= i < |data| ==> data[i] == Merge(EncodeAll(words, rules)[i], rule.Pair(), rule.merged)
    ensures data == EncodeAll(words, rules + [rule])
  {
    forall i | 0 <= i < |words| ensures data[i] == EncodeAll(words, rules + [rule])[i] {
      EncodeAllStep(words, rules, rule, i);
    }
  }

  lemma ShapeExtends(vocab: seq<seq<Byte>>, rules: seq<Rule>, rule: Rule)
    requires TableShape(vocab, rules) && rule.merged == 256 + |rules|
    requires 0 <= rule.left < |vocab| && 0 <= rule.right < |vocab|
    ensures TableShape(vocab + [vocab[rule.left] + vocab[rule.right]], rules + [rule])
  {
  }

  /** The corpus a recount looks at is made of the words' own bytes: before the first rule it is
      those bytes, a rule merges its pair in every word, and under any table a word still spells
      its bytes and has no pair of the table left. */
  lemma {:induction false} EncodedWord(words: seq<Word>, rules: seq<Rule>, vocab: seq<seq<Byte>>, i: nat)
    requires i < |words| && TableShape(vocab, rules)
    ensures EncodeAll(words, [])[i] == words[i].bytes
    ensures rules != [] ==>
      var n := |rules| - 1;
      EncodeAll(words, rules)[i] == Merge(EncodeAll(words, rules[..n])[i], rules[n].Pair(), rules[n].merged)
    ensures Decode(EncodeAll(words, rules)[i], vocab) == Some(words[i].bytes)
    ensures NormalForm(EncodeAll(words, rules)[i], rules)
  {
    RoundTrip(words[i].bytes, vocab, rules);
    EncodingIsNormal(words[i].bytes, rules);
  }

  /** A pair with a positive count is made of tokens the corpus already uses. */
  lemma BestIsInRange(p: Pair, words: seq<Word>, rules: seq<Rule>)
    requires Corpus(words) && Fresh(rules)
    requires Count(p, EncodeAll(words, rules), words) > 0
    ensures 0 <= p.0 < 256 + |rules| && 0 <= p.1 < 256 + |rules|
  {
    var data := EncodeAll(words, rules);
    CountNonNegative(p, data, words);
    var i :| 0 <= i < |data| && Occ(p, data[i]) > 0;
    OccPositive(p, data[i]);
    var j :| 0 <= j < |data[i]| - 1 && data[i][j] == p.0 && data[i][j + 1] == p.1;
    ApplyRange(words[i].bytes, rules);
    assert 0 <= data[i][j] < 256 + |rules| && 0 <= data[i][j + 1] < 256 + |rules|;
  }

  /** The trainer refines the naive one: whatever its maps say, each rule it returns merges a
      true best pair of a full recount, and it stops exactly when the table is full or a
      recount would find nothing worth merging. */
  method TrainBpe(words: seq<Word>, maxVocabSize: int, minFreq: int) returns (r: Trained)
    requires Corpus(words)
    ensures r.BadVocabSize? <==> maxVocabSize <= 256
    ensures r.Trained? ==>
      && TableShape(r.vocab, r.rules)
      && |r.vocab| <= maxVocabSize
      && NaiveRun(words, r.rules, minFreq)
      && (|r.vocab| == maxVocabSize || NothingLeft(EncodeAll(words, r.rules), words, minFreq))
  {
    var maxMerges := maxVocabSize - 256;
    if maxMerges <= 0 {
      return BadVocabSize;
    }
    var vocab: seq<seq<Byte>> := seq(256, i requires 0 <= i < 256 => [i]);
    var rules: seq<Rule> := [];
    var data: seq<seq<int>> := seq(|words|, i requires 0 <= i < |words| => words[i].bytes);
    assert data == EncodeAll(words, rules);
    var counts, index := BuildIndex(data, words);

    var step := 0;
    while step < maxMerges
      invariant 0 <= step <= maxMerges && |rules| == step
      invariant TableShape(vocab, rules)
      invariant data == EncodeAll(words, rules)
      invariant Exact(counts, index, data, words)
      invariant NaiveRun(words, rules, minFreq)
    {
      if counts == map[] {
        assert forall q :: ExactAt(q, counts, index, data, words) ==> Count(q, data, words) == 0;
        break;
      }
      var best := MaxPair(counts);
      forall q ensures Count(q, data, words) <= counts[best] {
        assert ExactAt(q, counts, index, data, words);
      }
      assert ExactAt(best, counts, index, data, words);
      if counts[best] < minFreq {
        break;
      }
      BestIsInRange(best, words, rules);
      var newId := 256 + step;
      var rule := Rule(best.0, best.1, newId);
      ShapeExtends(vocab, rules, rule);
      NaiveRunExtends(words, rules, rule, minFreq);
      counts, index, data := ApplyBest(counts, index, data, words, best, newId);
      EncodeAllNext(words, rules, rule, data);
      vocab := vocab + [vocab[best.0] + vocab[best.1]];
      rules := rules + [rule];
      step := step + 1;
    }
    r := Trained(vocab, rules);
  }

  lemma NaiveRunExtends(words: seq<Word>, rules: seq<Rule>, rule: Rule, minFreq: int)
    requires NaiveRun(words, rules, minFreq)
    requires IsBest(rule.Pair(), EncodeAll(words, rules), words, minFreq)
    ensures NaiveRun(words, rules + [rule], minFreq)
  {
    forall k | 0 <= k < |rules| + 1
      ensures IsBest((rules + [rule])[k].Pair(), EncodeAll(words, (rules + [rule])[..k]), words, minFreq)
    {
      assert (rules + [rule])[..k] == rules[..k];
    }
  }

  // ---------- What every naive run has ----------

  /** Training never selects a pair twice. */
  lemma NoPairTwice(words: seq<Word>, rules: seq<Rule>, minFreq: int, j: nat, k: nat)
    requires Corpus(words) && Fresh(rules) && NaiveRun(words, rules, minFreq)
    requires j < k < |rules|
    ensures rules[j].Pair() != rules[k].Pair()
  {
    var data := EncodeAll(words, rules[..k]);
    var p := rules[k].Pair();
    assert IsBest(p, data, words, minFreq);
    CountNonNegative(p, data, words);
    var i :| 0 <= i < |data| && Occ(p, data[i]) > 0;
    EncodingIsNormal(words[i].bytes, rules[..k]);
    assert Occ(rules[..k][j].Pair(), data[i]) == 0;
  }

  /** The corpus length in tokens, weighted by frequency. */
  function Total(data: seq<seq<int>>, words: seq<Word>): int
    requires |data| <= |words|
  {
    if data == [] then 0
    else
      var n := |data| - 1;
      Total(data[..n], words) + words[n].freq * |data[n]|
  }

  /** Merging a pair of weighted count c takes at least c/2 and at most c tokens off the
      corpus, and exactly c when its two halves differ. */
  lemma {:induction false} MergeShrinksCorpus(data: seq<seq<int>>, data': seq<seq<int>>, words: seq<Word>, p: Pair, id: int)
    requires |data| == |data'| <= |words| && Corpus(words)
    requires forall i :: 0 <= i < |data| ==> data'[i] == Merge(data[i], p, id)
    ensures Total(data, words) - Count(p, data, words) <= Total(data', words)
    ensures Count(p, data, words) <= 2 * (Total(data, words) - Total(data', words))
    ensures p.0 != p.1 ==> Total(data', words) == Total(data, words) - Count(p, data, words)
  {
    if data != [] {
      var n := |data| - 1;
      MergeShrinksCorpus(data[..n], data'[..n], words, p, id);
      MergeShrinks(data[n], p, id);
      WeighShrink(words[n].freq, |data[n]|, |data'[n]|, Occ(p, data[n]));
    }
  }

  lemma WeighShrink(f: int, len: int, len': int, c: int)
    requires f > 0 && len - c <= len' && c <= 2 * (len - len')
    ensures f * len - f * c <= f * len'
    ensures f * c <= 2 * (f * len - f * len')
    ensures len' == len - c ==> f * len' == f * len - f * c
  {
    Scale(f, len - c, len');
    Scale(f, c, 2 * (len - len'));
  }

  /** The weighted length falls at every step, so a run has at most as many rules as the
      tokens it saves, whatever limits it was given. */
  lemma {:induction false} RunIsBounded(words: seq<Word>, rules: seq<Rule>, minFreq: int)
    requires Corpus(words) && Fresh(rules) && NaiveRun(words, rules, minFreq)
    ensures |rules| <= Total(EncodeAll(words, []), words) - Total(EncodeAll(words, rules), words)
  {
    if rules != [] {
      var n := |rules| - 1;
      var rest, rule := rules[..n], rules[n];
      forall k | 0 <= k < n
        ensures IsBest(rest[k].Pair(), EncodeAll(words, rest[..k]), words, minFreq)
      {
        assert rest[..k] == rules[..k];
      }
      RunIsBounded(words, rest, minFreq);
      assert rules == rest + [rule];
      var data, data' := EncodeAll(words, rest), EncodeAll(words, rules);
      forall i | 0 <= i < |data| ensures data'[i] == Merge(data[i], rule.Pair(), rule.merged) {
        EncodeAllStep(words, rest, rule, i);
      }
      MergeShrinksCorpus(data, data', words, rule.Pair(), rule.merged);
      assert IsBest(rule.Pair(), data, words, minFreq);
    }
  }
}
