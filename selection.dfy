/** Exam assembly (`selecionar_questoes_simulado`): per-block draws from the
    question pool, placeholders for empty blocks, and the load-error exam.

    The random module is not modelled; each block's draw comes in as a
    `BlockDraw`, and `DrawFits` states what `random.sample`,
    `random.choices` and `random.choice` guarantee about what they return.
    The contracts therefore hold for every draw the random module can make. */
module Selection {
  import opened Decimal
  import opened Exam

  /** One block's random draw: `picks` are the positions, in that block's
      sub-pool, of the records drawn; `keys` are the coin tosses that
      `random.choice(["C", "E"])` makes for placeholders (true is "C"). */
  datatype BlockDraw = BlockDraw(picks: seq<int>, keys: seq<bool>)

  predicate InRange(picks: seq<int>, n: nat) {
    forall k :: 0 <= k < |picks| ==> 0 <= picks[k] < n
  }

  predicate Distinct(xs: seq<int>) {
    forall j, k :: 0 <= j < k < |xs| ==> xs[j] != xs[k]
  }

  /** What the random module returns for a block with `available` records and
      `quota` places: `sample` draws distinct positions, `choices` draws
      positions that may repeat, and an empty block only tosses keys. */
  predicate DrawFits(available: nat, quota: nat, d: BlockDraw) {
    if available >= quota then |d.picks| == quota && InRange(d.picks, available) && Distinct(d.picks)
    else if available > 0 then |d.picks| == quota && InRange(d.picks, available)
    else |d.keys| == quota
  }

  /** The three draws of one exam, for blocks 1, 2 and 3 in that order. */
  predicate DrawsFit(pool: seq<Question>, draws: seq<BlockDraw>) {
    && |draws| == 3
    && DrawFits(|SubPool(pool, 1)|, Quota(1), draws[0])
    && DrawFits(|SubPool(pool, 2)|, Quota(2), draws[1])
    && DrawFits(|SubPool(pool, 3)|, Quota(3), draws[2])
  }

  /** The positions in pool of the records of block b, in pool order. */
  function BlockPositions(pool: seq<Question>, b: int): (ps: seq<nat>)
    ensures forall k :: 0 <= k < |ps| ==> ps[k] < |pool| && pool[ps[k]].block == b
    ensures forall i :: 0 <= i < |pool| && pool[i].block == b ==> i in ps
    ensures forall j, k :: 0 <= j < k < |ps| ==> ps[j] < ps[k]
  {
    if pool == [] then []
    else
      var ps := BlockPositions(pool[..|pool| - 1], b);
      if pool[|pool| - 1].block == b then ps + [|pool| - 1] else ps
  }

  /** The sub-pool of block b: the records of pool whose block is b, in pool
      order (the comprehension at the head of the per-block loop). */
  function SubPool(pool: seq<Question>, b: int): (sub: seq<Question>)
    ensures |sub| == |BlockPositions(pool, b)|
    ensures forall k :: 0 <= k < |sub| ==> sub[k] == pool[BlockPositions(pool, b)[k]]
    ensures forall q :: q in sub <==> q in pool && q.block == b
  {
    var ps := BlockPositions(pool, b);
    var sub := seq(|ps|, k requires 0 <= k < |ps| => pool[ps[k]]);
    assert forall q :: q in pool && q.block == b ==> q in sub by {
      forall q | q in pool && q.block == b
        ensures q in sub
      {
        var i :| 0 <= i < |pool| && pool[i] == q;
        var k :| 0 <= k < |ps| && ps[k] == i;
        assert sub[k] == q;
      }
    }
    sub
  }

  /** The records at the drawn positions of a sub-pool, in draw order. */
  function Pick(sub: seq<Question>, picks: seq<int>): (r: seq<Question>)
    requires InRange(picks, |sub|)
    ensures |r| == |picks|
    ensures forall k :: 0 <= k < |r| ==> r[k] == sub[picks[k]]
  {
    seq(|picks|, k requires 0 <= k < |picks| => sub[picks[k]])
  }

  function KeyOf(heads: bool): string {
    if heads then "C" else "E"
  }

  // The fixed texts of the generated records.
  const PLACEHOLDER_SUBJECT: string := "Placeholder"
  const PLACEHOLDER_STATEMENT: string := "Questão placeholder de emergência Bloco "
  const LOAD_ERROR_SUBJECT: string := "Erro Carregamento"
  const LOAD_ERROR_STATEMENT: string := "Nenhuma questão pôde ser carregada. Verifique o arquivo JSON e o console."
  const PAD_SUBJECT: string := "Placeholder Preenchimento"
  const PAD_STATEMENT: string := "Questão de preenchimento para totalizar."

  /** The i-th emergency placeholder of block b. */
  function Placeholder(b: nat, i: nat, heads: bool): Question {
    Question("PLACEHOLDER_B" + NatToString(b) + "_" + NatToString(i), b, PLACEHOLDER_SUBJECT,
             PLACEHOLDER_STATEMENT + NatToString(b) + " - " + NatToString(i + 1),
             KeyOf(heads))
  }

  function Placeholders(b: nat, keys: seq<bool>): (r: seq<Question>)
    ensures |r| == |keys|
    ensures forall i :: 0 <= i < |r| ==> r[i] == Placeholder(b, i, keys[i])
  {
    seq(|keys|, i requires 0 <= i < |keys| => Placeholder(b, i, keys[i]))
  }

  /** Block b's part of the exam: a sample without replacement when the
      sub-pool can fill the quota, a draw with replacement when it has some
      records, and placeholders when it has none. */
  function Segment(pool: seq<Question>, b: int, d: BlockDraw): (seg: seq<Question>)
    requires IsBlock(b)
    requires DrawFits(|SubPool(pool, b)|, Quota(b), d)
    ensures |seg| == Quota(b)
    ensures forall k :: 0 <= k < |seg| ==> seg[k].block == b
  {
    var sub := SubPool(pool, b);
    if |sub| >= Quota(b) then Pick(sub, d.picks)
    else if sub != [] then Pick(sub, d.picks)
    else Placeholders(b, d.keys)
  }

  /** The segments of the first n blocks, concatenated in block order. */
  function Assembled(pool: seq<Question>, draws: seq<BlockDraw>, n: nat): (r: seq<Question>)
    requires DrawsFit(pool, draws)
    requires n <= 3
  {
    if n == 0 then [] else Assembled(pool, draws, n - 1) + Segment(pool, n, draws[n - 1])
  }

  /** The record at position i of the exam returned when the pool is empty. */
  function LoadErrorRecord(i: nat): Question {
    Question("ERRO_Q_" + NatToString(i), (i % 3) + 1, LOAD_ERROR_SUBJECT, LOAD_ERROR_STATEMENT, "C")
  }

  /** The exam returned for an empty pool: a full-length exam whose blocks
      cycle 1, 2, 3 and whose keys are all "C". */
  function LoadErrorExam(): (r: seq<Question>)
    ensures |r| == TOTAL_QUESTIONS
    ensures forall i :: 0 <= i < |r| ==> r[i].block == (i % 3) + 1 && r[i].key == "C"
  {
    seq(TOTAL_QUESTIONS, i requires 0 <= i < TOTAL_QUESTIONS => LoadErrorRecord(i))
  }

  /** The record appended at position n by the final padding loop. */
  function PadRecord(n: nat): Question {
    Question("TOTAL_FILL_PAD_" + NatToString(n), (n % 3) + 1, PAD_SUBJECT, PAD_STATEMENT, "C")
  }

  /** The block that position k of an assembled exam belongs to. */
  function BlockOfPosition(k: nat): int {
    if k < QUOTA_BLOCK_1 then 1
    else if k < QUOTA_BLOCK_1 + QUOTA_BLOCK_2 then 2
    else 3
  }

  /** The padding loop: appends records until the exam has TOTAL_QUESTIONS,
      each one's block following its position. */
  method FillToTotal(selected: seq<Question>) returns (padded: seq<Question>)
    ensures |padded| == if |selected| < TOTAL_QUESTIONS then TOTAL_QUESTIONS else |selected|
    ensures padded[..|selected|] == selected
    ensures forall j :: |selected| <= j < |padded| ==> padded[j] == PadRecord(j)
  {
    padded := selected;
    while |padded| < TOTAL_QUESTIONS
      invariant |selected| <= |padded|
      invariant |selected| < TOTAL_QUESTIONS ==> |padded| <= TOTAL_QUESTIONS
      invariant |selected| >= TOTAL_QUESTIONS ==> padded == selected
      invariant padded[..|selected|] == selected
      invariant forall j :: |selected| <= j < |padded| ==> padded[j] == PadRecord(j)
      decreases TOTAL_QUESTIONS - |padded|
    {
      padded := padded + [PadRecord(|padded|)];
    }
  }

  /** `selecionar_questoes_simulado`: the load-error exam for an empty pool;
      otherwise the segments of blocks 1, 2 and 3 in that order, so that
      the exam has exactly TOTAL_QUESTIONS records and the padding is never
      needed. */
  method SelectQuestions(pool: seq<Question>, draws: seq<BlockDraw>) returns (exam: seq<Question>)
    requires pool != [] ==> DrawsFit(pool, draws)
    ensures |exam| == TOTAL_QUESTIONS
    ensures pool == [] ==> exam == LoadErrorExam()
    ensures pool != [] ==>
      exam == Segment(pool, 1, draws[0]) + Segment(pool, 2, draws[1]) + Segment(pool, 3, draws[2])
    ensures pool != [] ==> forall k :: 0 <= k < |exam| ==> exam[k].block == BlockOfPosition(k)
  {
    if pool == [] {
      return LoadErrorExam();
    }
    exam := [];
    for b := 1 to 4
      invariant exam == Assembled(pool, draws, b - 1)
    {
      var sub := SubPool(pool, b);
      assert DrawFits(|sub|, Quota(b), draws[b - 1]) by {
        if b == 1 {} else if b == 2 {} else {}
      }
      var chosen;
      if |sub| >= Quota(b) {
        chosen := Pick(sub, draws[b - 1].picks);
      } else if sub != [] {
        chosen := Pick(sub, draws[b - 1].picks);
      } else {
        chosen := Placeholders(b, draws[b - 1].keys);
      }
      assert chosen == Segment(pool, b, draws[b - 1]);
      exam := exam + chosen;
    }
    AssembledLayout(pool, draws);
    if |exam| != TOTAL_QUESTIONS {
      exam := FillToTotal(exam);
    }
  }

  /** The assembled exam of a non-empty pool is the three segments in order,
      has TOTAL_QUESTIONS records, and each position holds a record of the
      block that position belongs to. */
  lemma AssembledLayout(pool: seq<Question>, draws: seq<BlockDraw>)
    requires DrawsFit(pool, draws)
    ensures Assembled(pool, draws, 3) ==
      Segment(pool, 1, draws[0]) + Segment(pool, 2, draws[1]) + Segment(pool, 3, draws[2])
    ensures |Assembled(pool, draws, 3)| == TOTAL_QUESTIONS
    ensures forall k :: 0 <= k < TOTAL_QUESTIONS ==> Assembled(pool, draws, 3)[k].block == BlockOfPosition(k)
  {
    var s1, s2, s3 := Segment(pool, 1, draws[0]), Segment(pool, 2, draws[1]), Segment(pool, 3, draws[2]);
    assert Assembled(pool, draws, 1) == s1;
    var e := s1 + s2 + s3;
    forall k | 0 <= k < |e|
      ensures e[k].block == BlockOfPosition(k)
    {
      if k < |s1| {
        assert e[k] == s1[k];
      } else if k < |s1| + |s2| {
        assert e[k] == s2[k - |s1|];
      } else {
        assert e[k] == s3[k - |s1| - |s2|];
      }
    }
  }

  /** For a non-empty pool, every block of the selected exam holds exactly its
      quota of records. */
  lemma AssembledBlockCounts(pool: seq<Question>, draws: seq<BlockDraw>, b: int)
    requires DrawsFit(pool, draws)
    requires IsBlock(b)
    ensures CountBlock(Assembled(pool, draws, 3), b) == Quota(b)
  {
    AssembledLayout(pool, draws);
    var s1, s2, s3 := Segment(pool, 1, draws[0]), Segment(pool, 2, draws[1]), Segment(pool, 3, draws[2]);
    CountBlockConcat(s1 + s2, s3, b);
    CountBlockConcat(s1, s2, b);
    CountBlockUniform(s1, 1, b);
    CountBlockUniform(s2, 2, b);
    CountBlockUniform(s3, 3, b);
  }

  /** A block whose sub-pool fills its quota is a sample without replacement:
      its records come from pool, belong to block b, and sit at pairwise
      distinct positions of pool. */
  lemma SampledSegment(pool: seq<Question>, b: int, d: BlockDraw)
    requires IsBlock(b)
    requires DrawFits(|SubPool(pool, b)|, Quota(b), d)
    requires |SubPool(pool, b)| >= Quota(b)
    ensures var seg, ps := Segment(pool, b, d), BlockPositions(pool, b);
      && |seg| == Quota(b)
      && (forall k :: 0 <= k < |seg| ==> 0 <= d.picks[k] < |ps| && seg[k] == pool[ps[d.picks[k]]] && seg[k].block == b)
      && (forall j, k :: 0 <= j < k < |seg| ==> ps[d.picks[j]] != ps[d.picks[k]])
  {
    var ps := BlockPositions(pool, b);
    forall j, k | 0 <= j < k < |d.picks|
      ensures ps[d.picks[j]] != ps[d.picks[k]]
    {
      if d.picks[j] < d.picks[k] {
        assert ps[d.picks[j]] < ps[d.picks[k]];
      } else {
        assert ps[d.picks[k]] < ps[d.picks[j]];
      }
    }
  }

  predicate UniqueIds(qs: seq<Question>) {
    forall i, j :: 0 <= i < j < |qs| ==> qs[i].id != qs[j].id
  }

  /** When the pool's identifiers are unique, a sampled block repeats no
      question. */
  lemma SampledSegmentUniqueIds(pool: seq<Question>, b: int, d: BlockDraw)
    requires IsBlock(b)
    requires DrawFits(|SubPool(pool, b)|, Quota(b), d)
    requires |SubPool(pool, b)| >= Quota(b)
    requires UniqueIds(pool)
    ensures UniqueIds(Segment(pool, b, d))
  {
    SampledSegment(pool, b, d);
    var seg, ps := Segment(pool, b, d), BlockPositions(pool, b);
    forall i, j | 0 <= i < j < |seg|
      ensures seg[i].id != seg[j].id
    {
      var pi, pj := ps[d.picks[i]], ps[d.picks[j]];
      assert pi != pj;
      if pi < pj {
        assert pool[pi].id != pool[pj].id;
      } else {
        assert pool[pj].id != pool[pi].id;
      }
    }
  }

  /** A block with some records but fewer than its quota is drawn with
      replacement: still its full quota, every record taken from its
      sub-pool. */
  lemma ResampledSegment(pool: seq<Question>, b: int, d: BlockDraw)
    requires IsBlock(b)
    requires DrawFits(|SubPool(pool, b)|, Quota(b), d)
    requires 0 < |SubPool(pool, b)| < Quota(b)
    ensures var seg := Segment(pool, b, d);
      && |seg| == Quota(b)
      && forall k :: 0 <= k < |seg| ==> seg[k] in SubPool(pool, b) && seg[k] in pool && seg[k].block == b
  {
    var seg, sub := Segment(pool, b, d), SubPool(pool, b);
    forall k | 0 <= k < |seg|
      ensures seg[k] in sub
    {
      assert seg[k] == sub[d.picks[k]];
    }
  }

  /** A block with no records is its quota of placeholders of that block,
      each keyed "C" or "E", with pairwise distinct identifiers. */
  lemma PlaceholderSegment(pool: seq<Question>, b: int, d: BlockDraw)
    requires IsBlock(b)
    requires DrawFits(|SubPool(pool, b)|, Quota(b), d)
    requires SubPool(pool, b) == []
    ensures var seg := Segment(pool, b, d);
      && |seg| == Quota(b)
      && (forall k :: 0 <= k < |seg| ==>
            seg[k].block == b && seg[k].subject == PLACEHOLDER_SUBJECT && seg[k].key in {"C", "E"})
      && UniqueIds(seg)
  {
    var seg := Segment(pool, b, d);
    var prefix := "PLACEHOLDER_B" + NatToString(b) + "_";
    forall i, j | 0 <= i < j < |seg|
      ensures seg[i].id != seg[j].id
    {
      assert seg[i].id == prefix + NatToString(i);
      assert seg[j].id == prefix + NatToString(j);
      PrefixedNumbersDistinct(prefix, i, j);
    }
  }

  /** The load-error exam has pairwise distinct identifiers. */
  lemma LoadErrorExamUniqueIds()
    ensures UniqueIds(LoadErrorExam())
  {
    var e := LoadErrorExam();
    forall i, j | 0 <= i < j < |e|
      ensures e[i].id != e[j].id
    {
      PrefixedNumbersDistinct("ERRO_Q_", i, j);
    }
  }

  /** In the first n records of the load-error exam, block b holds every
      third record starting at position b - 1. */
  lemma {:induction false} LoadErrorPrefixCounts(n: nat, b: int)
    requires n <= TOTAL_QUESTIONS
    requires IsBlock(b)
    ensures CountBlock(LoadErrorExam()[..n], b) == (n + 3 - b) / 3
  {
    var e := LoadErrorExam();
    if n == 0 {
      assert e[..0] == [];
    } else {
      LoadErrorPrefixCounts(n - 1, b);
      assert e[..n][..n - 1] == e[..n - 1];
      assert e[..n][n - 1].block == (n - 1) % 3 + 1;
      ThirdsStep(n - 1, b);
    }
  }

  /** One more position adds one to the count of exactly the block it
      cycles to. */
  lemma ThirdsStep(m: nat, b: int)
    requires IsBlock(b)
    ensures (m + 4 - b) / 3 == (m + 3 - b) / 3 + (if m % 3 + 1 == b then 1 else 0)
  {
    var q, r := m / 3, m % 3;
    assert m == 3 * q + r;
  }

  /** Unlike an assembled exam, the load-error exam spreads its records
      evenly: 40 per block, whatever the block's quota. */
  lemma LoadErrorExamBlockCounts(b: int)
    requires IsBlock(b)
    ensures CountBlock(LoadErrorExam(), b) == TOTAL_QUESTIONS / 3
  {
    LoadErrorPrefixCounts(TOTAL_QUESTIONS, b);
    assert LoadErrorExam()[..TOTAL_QUESTIONS] == LoadErrorExam();
  }
}
