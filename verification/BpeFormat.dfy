/** The tokenizer file: one printer and two independent parsers of the same bytes. */
module BpeFormat {
  import opened Common
  import opened Bpe
  import opened BpeDecode

  datatype Specials = Specials(pad: int, unk: int, bos: int, eos: int)

  /** What a loader returns, with the file position it stops at. */
  datatype Loaded = Loaded(vocab: seq<seq<Byte>>, rules: seq<Rule>, specials: Specials, consumed: nat)

  /** The second loader skips the special ids. */
  datatype Compared = Compared(vocab: seq<seq<Byte>>, rules: seq<Rule>, consumed: nat)

  /** Items read in a row and the position after them, or a file too short for them. */
  datatype Scan<+T> = Short | Scanned(items: seq<T>, pos: nat)

  const MAGIC: seq<Byte> := [66, 80, 69, 0]

  // ---------- 32-bit little-endian integers ----------

  predicate Int32(x: int) { -0x8000_0000 <= x < 0x8000_0000 }

  /** The `n` low base-256 digits of `u`, least significant first. */
  function Digits(u: nat, n: nat): (b: seq<Byte>)
    ensures |b| == n
  {
    if n == 0 then [] else [u % 0x100] + Digits(u / 0x100, n - 1)
  }

  function Value(b: seq<Byte>): nat
  {
    if b == [] then 0 else b[0] + 0x100 * Value(b[1..])
  }

  function Power(n: nat): nat
  {
    if n == 0 then 1 else 0x100 * Power(n - 1)
  }

  lemma {:induction false} DigitsRoundTrip(u: nat, n: nat)
    requires u < Power(n)
    ensures Value(Digits(u, n)) == u
  {
    if n > 0 {
      DigitsRoundTrip(u / 0x100, n - 1);
      assert Digits(u, n)[1..] == Digits(u / 0x100, n - 1);
    }
  }

  /** Two's complement in four bytes. */
  function Pack(x: int): (b: seq<Byte>)
    requires Int32(x)
    ensures |b| == 4
  {
    Digits(if x < 0 then x + 0x1_0000_0000 else x, 4)
  }

  function Unpack(b: seq<Byte>): int
  {
    var u := Value(b);
    if u >= 0x8000_0000 then u - 0x1_0000_0000 else u
  }

  function IntAt(data: seq<Byte>, pos: nat): int
    requires pos + 4 <= |data|
  {
    Unpack(data[pos..pos + 4])
  }

  /** `part` stands in `data` at `pos`. */
  ghost predicate At(data: seq<Byte>, pos: nat, part: seq<Byte>)
  {
    pos + |part| <= |data| && data[pos..pos + |part|] == part
  }

  lemma IntRoundTrip(data: seq<Byte>, pos: nat, x: int)
    requires Int32(x) && At(data, pos, Pack(x))
    ensures IntAt(data, pos) == x
  {
    assert Power(4) == 0x1_0000_0000;
    DigitsRoundTrip(if x < 0 then x + 0x1_0000_0000 else x, 4);
  }

  // ---------- The printer ----------

  predicate StorableRule(r: Rule) { Int32(r.left) && Int32(r.right) && Int32(r.merged) }

  predicate StorableSpecials(s: Specials) { Int32(s.pad) && Int32(s.unk) && Int32(s.bos) && Int32(s.eos) }

  predicate StorableEntries(vocab: seq<seq<Byte>>) { forall i :: 0 <= i < |vocab| ==> Int32(|vocab[i]|) }

  predicate StorableRules(rules: seq<Rule>) { forall k :: 0 <= k < |rules| ==> StorableRule(rules[k]) }

  /** Everything the format has a 32-bit field for fits in it. */
  predicate Storable(vocab: seq<seq<Byte>>, rules: seq<Rule>, s: Specials)
  {
    Int32(|vocab|) && Int32(|rules|) && StorableSpecials(s) && StorableEntries(vocab) && StorableRules(rules)
  }

  function PackSpecials(s: Specials): (b: seq<Byte>)
    requires StorableSpecials(s)
    ensures |b| == 16
  {
    Pack(s.pad) + Pack(s.unk) + Pack(s.bos) + Pack(s.eos)
  }

  function Header(nVocab: int, nRules: int, s: Specials): (b: seq<Byte>)
    requires Int32(nVocab) && Int32(nRules) && StorableSpecials(s)
    ensures |b| == 28
  {
    MAGIC + Pack(nVocab) + Pack(nRules) + PackSpecials(s)
  }

  function Entry(e: seq<Byte>): (b: seq<Byte>)
    requires Int32(|e|)
    ensures |b| == 4 + |e|
  {
    Pack(|e|) + e
  }

  function EntryTotal(vocab: seq<seq<Byte>>): nat
  {
    if vocab == [] then 0 else EntryTotal(vocab[..|vocab| - 1]) + 4 + |vocab[|vocab| - 1]|
  }

  function Entries(vocab: seq<seq<Byte>>): (b: seq<Byte>)
    requires StorableEntries(vocab)
    ensures |b| == EntryTotal(vocab)
  {
    if vocab == [] then [] else Entries(vocab[..|vocab| - 1]) + Entry(vocab[|vocab| - 1])
  }

  function PackRule(r: Rule): (b: seq<Byte>)
    requires StorableRule(r)
    ensures |b| == 12
  {
    Pack(r.left) + Pack(r.right) + Pack(r.merged)
  }

  function RuleBytes(rules: seq<Rule>): (b: seq<Byte>)
    requires StorableRules(rules)
    ensures |b| == 12 * |rules|
  {
    if rules == [] then [] else RuleBytes(rules[..|rules| - 1]) + PackRule(rules[|rules| - 1])
  }

  function Image(vocab: seq<seq<Byte>>, rules: seq<Rule>, s: Specials): seq<Byte>
    requires Storable(vocab, rules, s)
  {
    Header(|vocab|, |rules|, s) + Entries(vocab) + RuleBytes(rules)
  }

  lemma EntriesGrow(front: seq<Byte>, vocab: seq<seq<Byte>>, i: nat)
    requires i < |vocab| && StorableEntries(vocab[..i]) && Int32(|vocab[i]|)
    ensures StorableEntries(vocab[..i + 1])
    ensures front + Entries(vocab[..i + 1]) == front + Entries(vocab[..i]) + Pack(|vocab[i]|) + vocab[i]
  {
    assert vocab[..i + 1][..i] == vocab[..i];
  }

  lemma RulesGrow(front: seq<Byte>, rules: seq<Rule>, k: nat)
    requires k < |rules| && StorableRules(rules[..k]) && StorableRule(rules[k])
    ensures StorableRules(rules[..k + 1])
    ensures front + RuleBytes(rules[..k + 1]) == front + RuleBytes(rules[..k]) + PackRule(rules[k])
  {
    assert rules[..k + 1][..k] == rules[..k];
  }

  /** Writes the file; a field that does not fit raises, whatever was written before it. */
  method SaveTokenizerBin(vocab: seq<seq<Byte>>, rules: seq<Rule>, s: Specials) returns (r: Option<seq<Byte>>)
    ensures r.Some? <==> Storable(vocab, rules, s)
    ensures r.Some? ==> r.value == Image(vocab, rules, s)
  {
    if !Int32(|vocab|) || !Int32(|rules|) || !StorableSpecials(s) {
      return None;
    }
    var out := Header(|vocab|, |rules|, s);
    ghost var header := out;
    for i := 0 to |vocab|
      invariant StorableEntries(vocab[..i])
      invariant out == header + Entries(vocab[..i])
    {
      if !Int32(|vocab[i]|) {
        return None;
      }
      EntriesGrow(header, vocab, i);
      out := out + Pack(|vocab[i]|);
      out := out + vocab[i];
    }
    assert vocab[..|vocab|] == vocab;
    ghost var front := out;
    for k := 0 to |rules|
      invariant StorableRules(rules[..k])
      invariant out == front + RuleBytes(rules[..k])
    {
      if !StorableRule(rules[k]) {
        return None;
      }
      RulesGrow(front, rules, k);
      out := out + PackRule(rules[k]);
    }
    assert rules[..|rules|] == rules;
    r := Some(out);
  }

  // ---------- The parsers ----------

  /** Where the body of an entry ends: a length of zero or less reads nothing, and a body cut
      off by the end of the file is not an error. */
  function EntryEnd(data: seq<Byte>, pos: nat): (end: nat)
    requires pos + 4 <= |data|
    ensures pos + 4 <= end <= |data|
  {
    var length := IntAt(data, pos);
    Min(pos + 4 + if length > 0 then length else 0, |data|)
  }

  /** The first `n` entries from `pos`, and the position after them. */
  function ReadEntries(data: seq<Byte>, pos: nat, n: int): (r: Scan<seq<Byte>>)
    requires pos <= |data|
    ensures r.Scanned? ==> pos <= r.pos <= |data|
    decreases if n > 0 then n else 0
  {
    if n <= 0 then Scanned([], pos)
    else
      match ReadEntries(data, pos, n - 1)
      case Short => Short
      case Scanned(es, p) =>
        if p + 4 > |data| then Short
        else Scanned(es + [data[p + 4..EntryEnd(data, p)]], EntryEnd(data, p))
  }

  function RuleAt(data: seq<Byte>, pos: nat): Rule
    requires pos + 12 <= |data|
  {
    Rule(IntAt(data, pos), IntAt(data, pos + 4), IntAt(data, pos + 8))
  }

  /** The first `n` rules from `pos`, if the file holds that many. */
  function ReadRules(data: seq<Byte>, pos: nat, n: int): (r: Scan<Rule>)
    requires pos <= |data|
    ensures r.Scanned? ==> pos <= r.pos <= |data|
    decreases if n > 0 then n else 0
  {
    if n <= 0 then Scanned([], pos)
    else
      match ReadRules(data, pos, n - 1)
      case Short => Short
      case Scanned(rs, p) =>
        if p + 12 > |data| then Short else Scanned(rs + [RuleAt(data, p)], p + 12)
  }

  predicate HasMagic(data: seq<Byte>)
  {
    data[..Min(4, |data|)] == MAGIC
  }

  function SpecialsAt(data: seq<Byte>): Specials
    requires |data| >= 28
  {
    Specials(IntAt(data, 12), IntAt(data, 16), IntAt(data, 20), IntAt(data, 24))
  }

  function ReadTables(data: seq<Byte>, pos: nat, nVocab: int, nRules: int): Option<Compared>
    requires pos <= |data|
  {
    match ReadEntries(data, pos, nVocab)
    case Short => None
    case Scanned(vocab, p) =>
      match ReadRules(data, p, nRules)
      case Short => None
      case Scanned(rules, end) => Some(Compared(vocab, rules, end))
  }

  /** The trainer's own loader: it unpacks every special id, so it needs a whole header. */
  function ParseBin(data: seq<Byte>): Option<Loaded>
  {
    if !HasMagic(data) || |data| < 28 then None
    else
      match ReadTables(data, 28, IntAt(data, 4), IntAt(data, 8))
      case None => None
      case Some(t) => Some(Loaded(t.vocab, t.rules, SpecialsAt(data), t.consumed))
  }

  /** The comparison tool's loader: it skips up to 16 bytes where the special ids should be. */
  function ParseCompare(data: seq<Byte>): Option<Compared>
  {
    if !HasMagic(data) || |data| < 12 then None
    else ReadTables(data, Min(28, |data|), IntAt(data, 4), IntAt(data, 8))
  }

  lemma {:induction false} FailureStays(data: seq<Byte>, pos: nat, i: int, n: int)
    requires pos <= |data| && i <= n
    ensures ReadEntries(data, pos, i).Short? ==> ReadEntries(data, pos, n).Short?
    ensures ReadRules(data, pos, i).Short? ==> ReadRules(data, pos, n).Short?
    decreases n - i
  {
    if i < n {
      FailureStays(data, pos, i, n - 1);
    }
  }

  lemma OneMoreEntry(data: seq<Byte>, pos0: nat, i: nat, es: seq<seq<Byte>>, pos: nat)
    requires pos0 <= |data| && pos <= |data| && ReadEntries(data, pos0, i) == Scanned(es, pos)
    ensures ReadEntries(data, pos0, i + 1) ==
      if pos + 4 > |data| then Short else Scanned(es + [data[pos + 4..EntryEnd(data, pos)]], EntryEnd(data, pos))
  {
  }

  lemma OneMoreRule(data: seq<Byte>, pos0: nat, i: nat, rs: seq<Rule>, pos: nat)
    requires pos0 <= |data| && pos <= |data| && ReadRules(data, pos0, i) == Scanned(rs, pos)
    ensures ReadRules(data, pos0, i + 1) ==
      if pos + 12 > |data| then Short else Scanned(rs + [RuleAt(data, pos)], pos + 12)
  {
  }

  method LoadEntries(data: seq<Byte>, pos0: nat, n: int) returns (vocab: Scan<seq<Byte>>)
    requires pos0 <= |data|
    ensures vocab == ReadEntries(data, pos0, n)
  {
    var es: seq<seq<Byte>>, pos := [], pos0;
    var i := 0;
    while i < n
      invariant 0 <= i && (i <= n || i == 0) && 0 <= pos <= |data|
      invariant ReadEntries(data, pos0, i) == Scanned(es, pos)
    {
      OneMoreEntry(data, pos0, i, es, pos);
      if pos + 4 > |data| {
        FailureStays(data, pos0, i + 1, n);
        return Short;
      }
      es, pos := es + [data[pos + 4..EntryEnd(data, pos)]], EntryEnd(data, pos);
      i := i + 1;
    }
    vocab := Scanned(es, pos);
  }

  method LoadRules(data: seq<Byte>, pos0: nat, n: int) returns (rules: Scan<Rule>)
    requires pos0 <= |data|
    ensures rules == ReadRules(data, pos0, n)
  {
    var rs: seq<Rule>, pos := [], pos0;
    var i := 0;
    while i < n
      invariant 0 <= i && (i <= n || i == 0) && 0 <= pos <= |data|
      invariant ReadRules(data, pos0, i) == Scanned(rs, pos)
    {
      OneMoreRule(data, pos0, i, rs, pos);
      if pos + 12 > |data| {
        FailureStays(data, pos0, i + 1, n);
        return Short;
      }
      rs, pos := rs + [RuleAt(data, pos)], pos + 12;
      i := i + 1;
    }
    rules := Scanned(rs, pos);
  }

  method LoadTokenizerBin(data: seq<Byte>) returns (r: Option<Loaded>)
    ensures r == ParseBin(data)
  {
    if !HasMagic(data) || |data| < 28 {
      return None;
    }
    var vocab := LoadEntries(data, 28, IntAt(data, 4));
    if vocab.Short? {
      return None;
    }
    var rules := LoadRules(data, vocab.pos, IntAt(data, 8));
    if rules.Short? {
      return None;
    }
    r := Some(Loaded(vocab.items, rules.items, SpecialsAt(data), rules.pos));
  }

  method LoadTokenizer(data: seq<Byte>) returns (r: Option<Compared>)
    ensures r == ParseCompare(data)
  {
    if !HasMagic(data) || |data| < 12 {
      return None;
    }
    var vocab := LoadEntries(data, Min(28, |data|), IntAt(data, 4));
    if vocab.Short? {
      return None;
    }
    var rules := LoadRules(data, vocab.pos, IntAt(data, 8));
    if rules.Short? {
      return None;
    }
    r := Some(Compared(vocab.items, rules.items, rules.pos));
  }

  // ---------- Round trip ----------

  lemma AtSplit(data: seq<Byte>, pos: nat, a: seq<Byte>, b: seq<Byte>)
    requires At(data, pos, a + b)
    ensures At(data, pos, a) && At(data, pos + |a|, b)
  {
    var both := data[pos..pos + |a + b|];
    assert data[pos..pos + |a|] == both[..|a|] == a;
    assert data[pos + |a|..pos + |a| + |b|] == both[|a|..] == b;
  }

  lemma EntryRoundTrip(data: seq<Byte>, pos: nat, e: seq<Byte>)
    requires Int32(|e|) && At(data, pos, Entry(e))
    ensures EntryEnd(data, pos) == pos + 4 + |e| && data[pos + 4..pos + 4 + |e|] == e
  {
    AtSplit(data, pos, Pack(|e|), e);
    IntRoundTrip(data, pos, |e|);
  }

  /** A table is its first entries, and then the last one. */
  lemma {:induction false} EntriesSplit(data: seq<Byte>, pos: nat, vocab: seq<seq<Byte>>)
    requires vocab != [] && StorableEntries(vocab) && At(data, pos, Entries(vocab))
    ensures var n := |vocab| - 1;
      && StorableEntries(vocab[..n]) && EntryTotal(vocab) == EntryTotal(vocab[..n]) + 4 + |vocab[n]|
      && At(data, pos, Entries(vocab[..n])) && At(data, pos + EntryTotal(vocab[..n]), Entry(vocab[n]))
  {
    AtSplit(data, pos, Entries(vocab[..|vocab| - 1]), Entry(vocab[|vocab| - 1]));
  }

  lemma {:induction false} EntriesRoundTrip(data: seq<Byte>, pos: nat, vocab: seq<seq<Byte>>, end: nat)
    requires StorableEntries(vocab) && At(data, pos, Entries(vocab)) && end == pos + EntryTotal(vocab)
    ensures ReadEntries(data, pos, |vocab|) == Scanned(vocab, end)
  {
    if vocab != [] {
      var n := |vocab| - 1;
      var front, last := vocab[..n], vocab[n];
      var start := pos + EntryTotal(front);
      EntriesSplit(data, pos, vocab);
      EntriesRoundTrip(data, pos, front, start);
      LastEntry(data, pos, front, last, start);
      assert front + [last] == vocab;
    }
  }

  lemma LastEntry(data: seq<Byte>, pos: nat, front: seq<seq<Byte>>, e: seq<Byte>, start: nat)
    requires pos <= |data| && Int32(|e|) && At(data, start, Entry(e))
    requires ReadEntries(data, pos, |front|) == Scanned(front, start)
    ensures ReadEntries(data, pos, |front| + 1) == Scanned(front + [e], start + 4 + |e|)
  {
    OneMoreEntry(data, pos, |front|, front, start);
    EntryRoundTrip(data, start, e);
  }

  lemma RuleRoundTrip(data: seq<Byte>, pos: nat, r: Rule)
    requires StorableRule(r) && At(data, pos, PackRule(r))
    ensures RuleAt(data, pos) == r
  {
    AtSplit(data, pos, Pack(r.left) + Pack(r.right), Pack(r.merged));
    AtSplit(data, pos, Pack(r.left), Pack(r.right));
    IntRoundTrip(data, pos, r.left);
    IntRoundTrip(data, pos + 4, r.right);
    IntRoundTrip(data, pos + 8, r.merged);
  }

  lemma {:induction false} RulesRoundTrip(data: seq<Byte>, pos: nat, rules: seq<Rule>, end: nat)
    requires StorableRules(rules) && At(data, pos, RuleBytes(rules)) && end == pos + 12 * |rules|
    ensures ReadRules(data, pos, |rules|) == Scanned(rules, end)
  {
    if rules != [] {
      var n := |rules| - 1;
      AtSplit(data, pos, RuleBytes(rules[..n]), PackRule(rules[n]));
      RulesRoundTrip(data, pos, rules[..n], end - 12);
      RuleRoundTrip(data, end - 12, rules[n]);
      assert rules[..n] + [rules[n]] == rules;
    }
  }

  /** The first twelve bytes of a header. */
  lemma CountsRoundTrip(data: seq<Byte>, nVocab: int, nRules: int)
    requires Int32(nVocab) && Int32(nRules) && At(data, 0, MAGIC + Pack(nVocab) + Pack(nRules))
    ensures HasMagic(data) && IntAt(data, 4) == nVocab && IntAt(data, 8) == nRules
  {
    AtSplit(data, 0, MAGIC + Pack(nVocab), Pack(nRules));
    AtSplit(data, 0, MAGIC, Pack(nVocab));
    assert data[..4] == data[0..4];
    IntRoundTrip(data, 4, nVocab);
    IntRoundTrip(data, 8, nRules);
  }

  lemma HeaderRoundTrip(data: seq<Byte>, nVocab: int, nRules: int, s: Specials)
    requires Int32(nVocab) && Int32(nRules) && StorableSpecials(s) && At(data, 0, Header(nVocab, nRules, s))
    ensures HasMagic(data) && IntAt(data, 4) == nVocab && IntAt(data, 8) == nRules && SpecialsAt(data) == s
  {
    AtSplit(data, 0, MAGIC + Pack(nVocab) + Pack(nRules), PackSpecials(s));
    CountsRoundTrip(data, nVocab, nRules);
    AtSplit(data, 12, Pack(s.pad) + Pack(s.unk) + Pack(s.bos), Pack(s.eos));
    AtSplit(data, 12, Pack(s.pad) + Pack(s.unk), Pack(s.bos));
    AtSplit(data, 12, Pack(s.pad), Pack(s.unk));
    IntRoundTrip(data, 12, s.pad);
    IntRoundTrip(data, 16, s.unk);
    IntRoundTrip(data, 20, s.bos);
    IntRoundTrip(data, 24, s.eos);
  }

  lemma {:induction false} ImageParts(data: seq<Byte>, vocab: seq<seq<Byte>>, rules: seq<Rule>, s: Specials)
    requires Storable(vocab, rules, s) && At(data, 0, Image(vocab, rules, s))
    ensures At(data, 0, Header(|vocab|, |rules|, s))
    ensures At(data, 28, Entries(vocab))
    ensures At(data, 28 + EntryTotal(vocab), RuleBytes(rules))
  {
    AtSplit(data, 0, Header(|vocab|, |rules|, s) + Entries(vocab), RuleBytes(rules));
    AtSplit(data, 0, Header(|vocab|, |rules|, s), Entries(vocab));
  }

  lemma {:induction false} TablesRoundTrip(data: seq<Byte>, vocab: seq<seq<Byte>>, rules: seq<Rule>, middle: nat, end: nat)
    requires StorableEntries(vocab) && StorableRules(rules) && |data| >= 28
    requires At(data, 28, Entries(vocab)) && At(data, middle, RuleBytes(rules))
    requires middle == 28 + EntryTotal(vocab) && end == middle + 12 * |rules|
    ensures ReadTables(data, 28, |vocab|, |rules|) == Some(Compared(vocab, rules, end))
  {
    EntriesRoundTrip(data, 28, vocab, middle);
    RulesRoundTrip(data, middle, rules, end);
  }

  /** Loading what was saved gives it back, and reads exactly the bytes that were written,
      whatever follows them in the file. */
  lemma {:induction false} FileRoundTrip(vocab: seq<seq<Byte>>, rules: seq<Rule>, s: Specials, data: seq<Byte>)
    requires Storable(vocab, rules, s) && At(data, 0, Image(vocab, rules, s))
    ensures |Image(vocab, rules, s)| == 28 + EntryTotal(vocab) + 12 * |rules|
    ensures ParseBin(data) == Some(Loaded(vocab, rules, s, |Image(vocab, rules, s)|))
    ensures ParseCompare(data) == Some(Compared(vocab, rules, |Image(vocab, rules, s)|))
  {
    var middle, end := 28 + EntryTotal(vocab), |Image(vocab, rules, s)|;
    ImageParts(data, vocab, rules, s);
    HeaderRoundTrip(data, |vocab|, |rules|, s);
    TablesRoundTrip(data, vocab, rules, middle, end);
  }

  /** What the comparison tool checks of a saved tokenizer: the tables it loads still decode
      every encoding of `text` to `text`. */
  lemma {:induction false} SavedTokenizerRoundTrips(vocab: seq<seq<Byte>>, rules: seq<Rule>, s: Specials, text: seq<Byte>)
    requires TableShape(vocab, rules) && Storable(vocab, rules, s)
    ensures var t := ParseCompare(Image(vocab, rules, s));
      t.Some? && Decode(Apply(text, t.value.rules), t.value.vocab) == Some(text)
  {
    var data := Image(vocab, rules, s);
    assert data[..|data|] == data;
    FileRoundTrip(vocab, rules, s, data);
    RoundTrip(text, vocab, rules);
  }

  /** The two loaders accept the same files and read the same tables from them, except for a
      file cut off inside the special ids whose counts are both zero or negative: the loader
      that skips those ids takes it for an empty tokenizer, the other one refuses it. */
  lemma {:induction false} LoadersAgree(data: seq<Byte>)
    ensures
      var same := ParseCompare(data) == match ParseBin(data) {
        case None => None
        case Some(l) => Some(Compared(l.vocab, l.rules, l.consumed))
      };
      same <==> !(HasMagic(data) && 12 <= |data| < 28 && IntAt(data, 4) <= 0 && IntAt(data, 8) <= 0)
  {
  }

  // ---------- Truncated files ----------

  /** What stands in a file also stands in a beginning of it that is long enough. */
  lemma AtPrefix(data: seq<Byte>, whole: seq<Byte>, pos: nat, part: seq<Byte>)
    requires At(whole, pos, part) && data <= whole && pos + |part| <= |data|
    ensures At(data, pos, part)
  {
    assert data == whole[..|data|];
    assert data[pos..pos + |part|] == whole[pos..pos + |part|];
  }

  /** The vocab with its last entry cut down to its first `k` bytes. */
  function CutLast(vocab: seq<seq<Byte>>, k: nat): seq<seq<Byte>>
    requires vocab != [] && k <= |vocab[|vocab| - 1]|
  {
    vocab[..|vocab| - 1] + [vocab[|vocab| - 1][..k]]
  }

  lemma {:induction false} TruncatedEntries(data: seq<Byte>, whole: seq<Byte>, pos: nat, vocab: seq<seq<Byte>>)
    requires StorableEntries(vocab) && At(whole, pos, Entries(vocab))
    requires data <= whole && pos <= |data| < pos + EntryTotal(vocab)
    ensures vocab != []
    ensures var body := pos + EntryTotal(vocab) - |vocab[|vocab| - 1]|;
      ReadEntries(data, pos, |vocab|) == if |data| >= body then Scanned(CutLast(vocab, |data| - body), |data|) else Short
  {
    var n := |vocab| - 1;
    var front := vocab[..n];
    AtSplit(whole, pos, Entries(front), Entry(vocab[n]));
    var start := pos + EntryTotal(front);
    if |data| < start {
      TruncatedEntries(data, whole, pos, front);
      FailureStays(data, pos, n, n + 1);
    } else {
      AtPrefix(data, whole, pos, Entries(front));
      EntriesRoundTrip(data, pos, front, start);
      OneMoreEntry(data, pos, n, front, start);
      if |data| >= start + 4 {
        TruncatedBody(data, whole, start, vocab[n]);
      }
    }
  }

  lemma TruncatedBody(data: seq<Byte>, whole: seq<Byte>, start: nat, e: seq<Byte>)
    requires Int32(|e|) && At(whole, start, Entry(e))
    requires data <= whole && start + 4 <= |data| < start + 4 + |e|
    ensures EntryEnd(data, start) == |data| && data[start + 4..|data|] == e[..|data| - (start + 4)]
  {
    AtSplit(whole, start, Pack(|e|), e);
    assert data == whole[..|data|];
    AtPrefix(data, whole, start, Pack(|e|));
    IntRoundTrip(data, start, |e|);
  }

  lemma {:induction false} TruncatedRules(data: seq<Byte>, pos: nat, n: nat)
    requires pos <= |data| < pos + 12 * n
    ensures ReadRules(data, pos, n).Short?
  {
    if |data| < pos + 12 * (n - 1) {
      TruncatedRules(data, pos, n - 1);
    } else {
      RulePosition(data, pos, n - 1);
    }
  }

  lemma {:induction false} RulePosition(data: seq<Byte>, pos: nat, n: nat)
    requires pos <= |data|
    ensures var r := ReadRules(data, pos, n); r.Scanned? ==> r.pos == pos + 12 * n
  {
    if n > 0 { RulePosition(data, pos, n - 1); }
  }

  /** The trainer's loader refuses a saved file that lost its tail, except when there are no
      rules and only bytes of the last vocab entry are missing: that entry is then silently
      shortened. */
  lemma {:induction false} TruncationDetected(vocab: seq<seq<Byte>>, rules: seq<Rule>, s: Specials, m: nat)
    requires Storable(vocab, rules, s)
    requires m < |Image(vocab, rules, s)|
    ensures var r := ParseBin(Image(vocab, rules, s)[..m]);
      && (r.Some? <==> rules == [] && vocab != [] && m >= |Image(vocab, rules, s)| - |vocab[|vocab| - 1]|)
      && (r.Some? ==> r.value.vocab == CutLast(vocab, m - (|Image(vocab, rules, s)| - |vocab[|vocab| - 1]|)))
  {
    var whole := Image(vocab, rules, s);
    var data := whole[..m];
    ImageParts(whole, vocab, rules, s);
    if m >= 28 {
      AtPrefix(data, whole, 0, Header(|vocab|, |rules|, s));
      HeaderRoundTrip(data, |vocab|, |rules|, s);
      if m < 28 + EntryTotal(vocab) {
        TruncatedEntries(data, whole, 28, vocab);
        if rules != [] && ReadEntries(data, 28, |vocab|).Scanned? {
          TruncatedRules(data, m, |rules|);
        }
      } else {
        AtPrefix(data, whole, 28, Entries(vocab));
        var middle := 28 + EntryTotal(vocab);
        EntriesRoundTrip(data, 28, vocab, middle);
        TruncatedRules(data, middle, |rules|);
      }
    }
  }

  /** The comparison tool's loader misses those, and an empty tokenizer cut inside its special
      ids as well. */
  lemma {:induction false} TruncationDetectedByCompare(vocab: seq<seq<Byte>>, rules: seq<Rule>, s: Specials, m: nat)
    requires Storable(vocab, rules, s)
    requires m < |Image(vocab, rules, s)|
    ensures ParseCompare(Image(vocab, rules, s)[..m]).Some? <==>
      rules == [] && if vocab == [] then m >= 12 else m >= |Image(vocab, rules, s)| - |vocab[|vocab| - 1]|
  {
    var whole := Image(vocab, rules, s);
    var data := whole[..m];
    TruncationDetected(vocab, rules, s, m);
    LoadersAgree(data);
    if 12 <= m < 28 {
      ImageParts(whole, vocab, rules, s);
      var counts := MAGIC + Pack(|vocab|) + Pack(|rules|);
      assert Header(|vocab|, |rules|, s) == counts + PackSpecials(s);
      AtSplit(whole, 0, counts, PackSpecials(s));
      AtPrefix(data, whole, 0, counts);
      CountsRoundTrip(data, |vocab|, |rules|);
    }
  }

  // ---------- Inputs that show the differences ----------

  /** Twelve bytes on which the two loaders differ. */
  lemma {:induction false} LoadersDiffer(s: Specials, data: seq<Byte>)
    requires StorableSpecials(s) && data == Image([], [], s)[..12]
    ensures ParseBin(data) == None && ParseCompare(data) == Some(Compared([], [], 12))
  {
    TruncationDetectedByCompare([], [], s, 12);
    ImageParts(Image([], [], s), [], [], s);
  }

  /** One byte short of a saved file, and its loader does not notice. */
  lemma {:induction false} OneByteShort(s: Specials, vocab: seq<seq<Byte>>)
    requires StorableSpecials(s) && vocab == [[97, 98]]
    ensures Storable(vocab, [], s) && |Image(vocab, [], s)| == 34
    ensures ParseBin(Image(vocab, [], s)[..33]).Some? && ParseBin(Image(vocab, [], s)[..33]).value.vocab == [[97]]
  {
    assert Storable(vocab, [], s);
    assert vocab[..0] == [] && EntryTotal(vocab) == 6;
    TruncationDetected(vocab, [], s, 33);
    assert vocab[0][..1] == [97];
  }

  // ---------- The bytes themselves ----------

  /** The four bytes at `pos` are `x` modulo 2^32, least significant byte first. */
  ghost predicate FieldAt(data: seq<Byte>, pos: nat, x: int)
  {
    && pos + 4 <= |data|
    && data[pos] == x % 4294967296 % 256
    && data[pos + 1] == x % 4294967296 / 256 % 256
    && data[pos + 2] == x % 4294967296 / 65536 % 256
    && data[pos + 3] == x % 4294967296 / 16777216 % 256
  }

  lemma PackedDigits(u: nat)
    requires u < 4294967296
    ensures var d := Digits(u, 4);
      d[0] == u % 256 && d[1] == u / 256 % 256 && d[2] == u / 65536 % 256 && d[3] == u / 16777216 % 256
  {
    var v, w, x := u / 256, u / 65536, u / 16777216;
    assert v / 256 == w && w / 256 == x;
    assert Digits(u, 4)[1..] == Digits(v, 3) && Digits(v, 3)[1..] == Digits(w, 2) && Digits(w, 2)[1..] == Digits(x, 1);
  }

  lemma PackedField(data: seq<Byte>, pos: nat, x: int)
    requires Int32(x) && At(data, pos, Pack(x))
    ensures FieldAt(data, pos, x)
  {
    var u := if x < 0 then x + 0x1_0000_0000 else x;
    assert u == x % 4294967296;
    PackedDigits(u);
    var b := data[pos..pos + 4];
    assert data[pos] == b[0] && data[pos + 1] == b[1] && data[pos + 2] == b[2] && data[pos + 3] == b[3];
  }

  /** Reading a field is the inverse, on any bytes. */
  lemma IntAtIs(data: seq<Byte>, pos: nat)
    requires pos + 4 <= |data|
    ensures var b0: int, b1: int, b2: int, b3: int := data[pos], data[pos + 1], data[pos + 2], data[pos + 3];
      var u: int := b0 + 256 * b1 + 65536 * b2 + 16777216 * b3;
      IntAt(data, pos) == if u >= 2147483648 then u - 4294967296 else u
  {
    var b := data[pos..pos + 4];
    var b0: int, b1: int, b2: int, b3: int := b[0], b[1], b[2], b[3];
    assert b[1..][1..] == b[2..] && b[2..][1..] == b[3..] && b[3..][1..] == [];
    assert Value(b) == b0 + 0x100 * Value(b[1..]) && Value(b[1..]) == b1 + 0x100 * Value(b[2..]);
    assert Value(b[2..]) == b2 + 0x100 * Value(b[3..]) && Value(b[3..]) == b3;
  }

  /** The header, field by field. */
  lemma HeaderBytes(data: seq<Byte>, nVocab: int, nRules: int, s: Specials)
    requires Int32(nVocab) && Int32(nRules) && StorableSpecials(s) && At(data, 0, Header(nVocab, nRules, s))
    ensures HeaderStands(data, nVocab, nRules, s)
  {
    AtSplit(data, 0, MAGIC + Pack(nVocab) + Pack(nRules), PackSpecials(s));
    AtSplit(data, 0, MAGIC + Pack(nVocab), Pack(nRules));
    AtSplit(data, 0, MAGIC, Pack(nVocab));
    var magic := data[0..4];
    assert data[0] == magic[0] && data[1] == magic[1] && data[2] == magic[2] && data[3] == magic[3];
    PackedField(data, 4, nVocab);
    PackedField(data, 8, nRules);
    AtSplit(data, 12, Pack(s.pad) + Pack(s.unk) + Pack(s.bos), Pack(s.eos));
    AtSplit(data, 12, Pack(s.pad) + Pack(s.unk), Pack(s.bos));
    AtSplit(data, 12, Pack(s.pad), Pack(s.unk));
    PackedField(data, 12, s.pad);
    PackedField(data, 16, s.unk);
    PackedField(data, 20, s.bos);
    PackedField(data, 24, s.eos);
  }

  /** The size of a vocab table: four bytes and its own for each entry. */
  lemma EntryTotalIs(vocab: seq<seq<Byte>>, e: seq<Byte>)
    ensures EntryTotal([]) == 0
    ensures EntryTotal(vocab + [e]) == EntryTotal(vocab) + 4 + |e|
  {
    assert (vocab + [e])[..|vocab|] == vocab;
  }

  /** Entry `i` of a table: its length, then its bytes, behind the entries before it. */
  lemma {:induction false} EntryBytes(data: seq<Byte>, pos: nat, vocab: seq<seq<Byte>>, i: nat, p: nat)
    requires StorableEntries(vocab) && At(data, pos, Entries(vocab)) && i < |vocab| && p == pos + EntryTotal(vocab[..i])
    ensures EntryStands(data, p, vocab[i])
    decreases |vocab|
  {
    var n := |vocab| - 1;
    EntriesSplit(data, pos, vocab);
    if i < n {
      assert vocab[..n][..i] == vocab[..i];
      EntryBytes(data, pos, vocab[..n], i, p);
    } else {
      AtSplit(data, p, Pack(|vocab[n]|), vocab[n]);
      PackedField(data, p, |vocab[n]|);
    }
  }

  /** Rule `k` of a table: three fields, behind the rules before it. */
  lemma {:induction false} RuleBytesAt(data: seq<Byte>, pos: nat, rules: seq<Rule>, k: nat, p: nat)
    requires StorableRules(rules) && At(data, pos, RuleBytes(rules)) && k < |rules| && p == pos + 12 * k
    ensures RuleStands(data, p, rules[k])
    decreases |rules|
  {
    var n := |rules| - 1;
    AtSplit(data, pos, RuleBytes(rules[..n]), PackRule(rules[n]));
    if k < n {
      RuleBytesAt(data, pos, rules[..n], k, p);
    } else {
      RuleFields(data, p, rules[n]);
    }
  }

  lemma RuleFields(data: seq<Byte>, pos: nat, r: Rule)
    requires StorableRule(r) && At(data, pos, PackRule(r))
    ensures RuleStands(data, pos, r)
  {
    AtSplit(data, pos, Pack(r.left) + Pack(r.right), Pack(r.merged));
    AtSplit(data, pos, Pack(r.left), Pack(r.right));
    PackedField(data, pos, r.left);
    PackedField(data, pos + 4, r.right);
    PackedField(data, pos + 8, r.merged);
  }

  ghost predicate HeaderStands(data: seq<Byte>, nVocab: int, nRules: int, s: Specials)
  {
    && |data| >= 28 && data[0] == 66 && data[1] == 80 && data[2] == 69 && data[3] == 0
    && FieldAt(data, 4, nVocab) && FieldAt(data, 8, nRules)
    && FieldAt(data, 12, s.pad) && FieldAt(data, 16, s.unk) && FieldAt(data, 20, s.bos) && FieldAt(data, 24, s.eos)
  }

  ghost predicate EntryStands(data: seq<Byte>, pos: nat, e: seq<Byte>)
  {
    FieldAt(data, pos, |e|) && At(data, pos + 4, e)
  }

  ghost predicate RuleStands(data: seq<Byte>, pos: nat, r: Rule)
  {
    FieldAt(data, pos, r.left) && FieldAt(data, pos + 4, r.right) && FieldAt(data, pos + 8, r.merged)
  }

  /** What a saved file is, byte by byte: 28 bytes of header, then every entry behind the
      entries before it, then every rule behind the rules before it, and nothing else. */
  lemma {:induction false} ImageBytes(vocab: seq<seq<Byte>>, rules: seq<Rule>, s: Specials, data: seq<Byte>)
    requires Storable(vocab, rules, s) && data == Image(vocab, rules, s)
    ensures |data| == 28 + EntryTotal(vocab) + 12 * |rules|
    ensures HeaderStands(data, |vocab|, |rules|, s)
    ensures forall i, p: nat :: 0 <= i < |vocab| && p == 28 + EntryTotal(vocab[..i]) ==> EntryStands(data, p, vocab[i])
    ensures forall k, p: nat :: 0 <= k < |rules| && p == 28 + EntryTotal(vocab) + 12 * k ==> RuleStands(data, p, rules[k])
  {
    assert data[0..|data|] == data;
    ImageParts(data, vocab, rules, s);
    HeaderBytes(data, |vocab|, |rules|, s);
    forall i, p: nat | 0 <= i < |vocab| && p == 28 + EntryTotal(vocab[..i]) ensures EntryStands(data, p, vocab[i]) {
      EntryBytes(data, 28, vocab, i, p);
    }
    var middle := 28 + EntryTotal(vocab);
    forall k, p: nat | 0 <= k < |rules| && p == middle + 12 * k ensures RuleStands(data, p, rules[k]) {
      RuleBytesAt(data, middle, rules, k, p);
    }
  }

  // ---------- What the loaders read from any file ----------

  /** What stands at `p` is read as `e`: as many bytes as the length field says, none for a
      length of zero or less, and no more than the file has. */
  ghost predicate ReadsAs(data: seq<Byte>, p: nat, e: seq<Byte>)
  {
    && p + 4 <= |data|
    && var length := IntAt(data, p);
    && (length <= 0 ==> e == [])
    && (0 < length <= |data| - p - 4 ==> e == data[p + 4..p + 4 + length])
    && (length > 0 && length > |data| - p - 4 ==> e == data[p + 4..])
  }

  lemma EntryEndReads(data: seq<Byte>, p: nat)
    requires p + 4 <= |data|
    ensures ReadsAs(data, p, data[p + 4..EntryEnd(data, p)])
  {
    assert data[p + 4..|data|] == data[p + 4..];
  }

  /** Entry `i` is read as `e`, and the next one starts behind it. */
  ghost predicate EntryReadAs(data: seq<Byte>, pos: nat, i: nat, e: seq<Byte>)
    requires pos <= |data|
  {
    var here, next := ReadEntries(data, pos, i), ReadEntries(data, pos, i + 1);
    here.Scanned? && next.Scanned? && ReadsAs(data, here.pos, e) && next.pos == here.pos + 4 + |e|
  }

  lemma {:induction false} LastEntryRead(data: seq<Byte>, pos: nat, n: nat, es: seq<seq<Byte>>, p: nat)
    requires pos <= |data| && p <= |data| && ReadEntries(data, pos, n) == Scanned(es, p) && ReadEntries(data, pos, n + 1).Scanned?
    ensures var r := ReadEntries(data, pos, n + 1);
      |r.items| == |es| + 1 && r.items[..|es|] == es && EntryReadAs(data, pos, n, r.items[|es|])
  {
    OneMoreEntry(data, pos, n, es, p);
    EntryEndReads(data, p);
  }

  /** The entries a loader reads, one after the other. */
  lemma {:induction false} EntryRead(data: seq<Byte>, pos: nat, n: nat, i: nat, es: seq<seq<Byte>>)
    requires pos <= |data| && i < n && ReadEntries(data, pos, n).Scanned? && es == ReadEntries(data, pos, n).items
    ensures |es| == n && EntryReadAs(data, pos, i, es[i])
    decreases n
  {
    var before := ReadEntries(data, pos, n - 1);
    EntriesCount(data, pos, n - 1);
    LastEntryRead(data, pos, n - 1, before.items, before.pos);
    if i < n - 1 {
      EntryRead(data, pos, n - 1, i, before.items);
      assert es[i] == es[..n - 1][i];
    }
  }

  lemma {:induction false} EntriesCount(data: seq<Byte>, pos: nat, n: nat)
    requires pos <= |data| && ReadEntries(data, pos, n).Scanned?
    ensures |ReadEntries(data, pos, n).items| == n
  {
    if n > 0 { EntriesCount(data, pos, n - 1); }
  }

  /** Reading fails exactly when some length field is not all there. */
  lemma {:induction false} EntriesShortIff(data: seq<Byte>, pos: nat, n: nat)
    requires pos <= |data|
    ensures ReadEntries(data, pos, n).Short? <==>
      exists i :: 0 <= i < n && ReadEntries(data, pos, i).Scanned? && ReadEntries(data, pos, i).pos + 4 > |data|
  {
    if n > 0 {
      EntriesShortIff(data, pos, n - 1);
      if ReadEntries(data, pos, n).Scanned? {
        forall i | 0 <= i < n ensures !(ReadEntries(data, pos, i).Scanned? && ReadEntries(data, pos, i).pos + 4 > |data|) {
          EntryRead(data, pos, n, i, ReadEntries(data, pos, n).items);
        }
      } else if ReadEntries(data, pos, n - 1).Scanned? {
        assert ReadEntries(data, pos, n - 1).pos + 4 > |data|;
      }
    }
  }

  /** The rules a loader reads: twelve bytes each, all of them or none. */
  lemma {:induction false} RulesRead(data: seq<Byte>, pos: nat, n: nat)
    requires pos <= |data|
    ensures ReadRules(data, pos, n).Scanned? <==> pos + 12 * n <= |data|
    ensures var r := ReadRules(data, pos, n); r.Scanned? ==>
      && r.pos == pos + 12 * n && |r.items| == n
      && forall k :: 0 <= k < n ==> RuleIs(data, pos, k, r.items[k])
  {
    if n > 0 {
      RulesRead(data, pos, n - 1);
    }
  }

  ghost predicate RuleIs(data: seq<Byte>, pos: nat, k: nat, r: Rule)
  {
    && pos + 12 * k + 12 <= |data|
    && r.left == IntAt(data, pos + 12 * k)
    && r.right == IntAt(data, pos + 12 * k + 4)
    && r.merged == IntAt(data, pos + 12 * k + 8)
  }

  /** A count of zero or less reads nothing. */
  lemma NoEntries(data: seq<Byte>, pos: nat, n: int)
    requires pos <= |data| && n <= 0
    ensures ReadEntries(data, pos, n) == Scanned([], pos) && ReadRules(data, pos, n) == Scanned([], pos)
  {
  }

  /** A file loads exactly when it begins with its four magic bytes, has a whole header, and
      holds the tables its counts announce, which start behind the header. */
  lemma LoadsIff(data: seq<Byte>)
    ensures ParseBin(data).Some? <==>
      && |data| >= 28 && data[0] == 66 && data[1] == 80 && data[2] == 69 && data[3] == 0
      && ReadEntries(data, 28, IntAt(data, 4)).Scanned?
      && ReadRules(data, ReadEntries(data, 28, IntAt(data, 4)).pos, IntAt(data, 8)).Scanned?
    ensures ParseBin(data).Some? ==>
      var l, vocab := ParseBin(data).value, ReadEntries(data, 28, IntAt(data, 4));
      var rules := ReadRules(data, vocab.pos, IntAt(data, 8));
      && l.vocab == vocab.items && l.rules == rules.items && l.consumed == rules.pos
      && l.specials.pad == IntAt(data, 12) && l.specials.unk == IntAt(data, 16)
      && l.specials.bos == IntAt(data, 20) && l.specials.eos == IntAt(data, 24)
  {
    if |data| >= 4 {
      assert data[..4] == [data[0], data[1], data[2], data[3]];
    }
  }

  /** Inside the special ids the comparison tool's loader takes what it skipped for granted. */
  lemma CompareInsideSpecials(data: seq<Byte>)
    requires HasMagic(data) && 12 <= |data| < 28 && IntAt(data, 4) <= 0 && IntAt(data, 8) <= 0
    ensures ParseCompare(data) == Some(Compared([], [], |data|))
  {
  }

  lemma {:induction false} ValueBelow(b: seq<Byte>)
    ensures Value(b) < Power(|b|)
  {
    if b != [] { ValueBelow(b[1..]); }
  }

  /** A number can be stored exactly when some four bytes read as it. */
  lemma FieldHolds(x: int)
    ensures Int32(x) <==> exists b: seq<Byte> :: |b| == 4 && Unpack(b) == x
  {
    if Int32(x) {
      var b := Pack(x);
      assert At(b, 0, b) && b[0..4] == b;
      IntRoundTrip(b, 0, x);
      assert Unpack(b) == x;
    }
    if b: seq<Byte> :| |b| == 4 && Unpack(b) == x {
      ValueBelow(b);
      assert Power(4) == 0x1_0000_0000;
    }
  }

  predicate InRange(x: int) { -2147483648 <= x <= 2147483647 }

  /** Saving fails on nothing but a number that no field holds. */
  lemma StorableIff(vocab: seq<seq<Byte>>, rules: seq<Rule>, s: Specials)
    ensures Storable(vocab, rules, s) <==>
      && InRange(|vocab|) && InRange(|rules|)
      && (forall i :: 0 <= i < |vocab| ==> InRange(|vocab[i]|))
      && (forall k :: 0 <= k < |rules| ==> InRange(rules[k].left) && InRange(rules[k].right) && InRange(rules[k].merged))
      && InRange(s.pad) && InRange(s.unk) && InRange(s.bos) && InRange(s.eos)
  {
    if StorableRules(rules) {
      assert forall k :: 0 <= k < |rules| ==> StorableRule(rules[k]);
    }
  }
}
