/** Scoring (`calcular_pontuacao`) under the Cebraspe rule: +1 for a correct
    answer, -1 for a wrong one, 0 for a blank, counted per block, followed by
    the pass marks of each block and of the total. */
module Scoring {
  import opened Exam

  /** The test-taker's answers (`respostas`): question id to the option
      marked, or None when the question was left blank. */
  type Answers = map<string, Option<string>>

  datatype Outcome = Correct | Wrong | Blank

  /** `respostas.get(q_id)`: a missing id reads as None. */
  function Lookup(answers: Answers, id: string): Option<string> {
    if id in answers then answers[id] else None
  }

  /** A missing answer and an explicit "Branco" both count as blank. */
  predicate IsBlankAnswer(answer: Option<string>) {
    answer == None || answer == Some("Branco")
  }

  /** A blank answer scores nothing; an answer equal to the key is correct;
      anything else is wrong. */
  function Classify(answer: Option<string>, key: string): Outcome {
    if IsBlankAnswer(answer) then Blank
    else if answer.value == key then Correct
    else Wrong
  }

  function OutcomeOf(answers: Answers, q: Question): Outcome {
    Classify(Lookup(answers, q.id), q.key)
  }

  /** The number of records of qs in block b whose answer has outcome o. */
  function CountOutcome(answers: Answers, qs: seq<Question>, b: int, o: Outcome): nat
  {
    if qs == [] then 0
    else
      var last := qs[|qs| - 1];
      CountOutcome(answers, qs[..|qs| - 1], b, o)
        + (if last.block == b && OutcomeOf(answers, last) == o then 1 else 0)
  }

  function MinPoints(b: int): int
    requires IsBlock(b)
  {
    if b == 1 then MIN_POINTS_BLOCK_1 else if b == 2 then MIN_POINTS_BLOCK_2 else MIN_POINTS_BLOCK_3
  }

  /** One block's line of the report: points, the three counts, and whether
      the block reached its pass mark (`aprovado_no_bloco`). */
  datatype BlockScore = BlockScore(points: int, correct: nat, wrong: nat, blank: nat, passed: bool)

  /** A failed check, carrying the points reached and the mark required, in
      place of the formatted reason string. */
  datatype Reason = BlockBelow(block: int, points: int, minimum: int) | TotalBelow(points: int, minimum: int)

  /** `status_geral`: "APROVADO(A)" or "REPROVADO(A)". */
  datatype Status = Approved | Failed

  datatype ScoreReport = ScoreReport(
    block1: BlockScore, block2: BlockScore, block3: BlockScore,
    totalPoints: int, totalPassed: bool, status: Status, reasons: seq<Reason>)

  /** The position of a check in the fixed order Block I, II, III, Total. */
  function Rank(r: Reason): int {
    match r
    case BlockBelow(b, _, _) => b
    case TotalBelow(_, _) => 4
  }

  /** The failed checks for the given block and total points, in the order
      of the checks. */
  function ReasonsFor(p1: int, p2: int, p3: int, total: int): seq<Reason> {
    (if p1 < MIN_POINTS_BLOCK_1 then [BlockBelow(1, p1, MIN_POINTS_BLOCK_1)] else [])
    + (if p2 < MIN_POINTS_BLOCK_2 then [BlockBelow(2, p2, MIN_POINTS_BLOCK_2)] else [])
    + (if p3 < MIN_POINTS_BLOCK_3 then [BlockBelow(3, p3, MIN_POINTS_BLOCK_3)] else [])
    + (if total < MIN_POINTS_TOTAL then [TotalBelow(total, MIN_POINTS_TOTAL)] else [])
  }

  /** The reasons are exactly the checks below their mark, each once, in the
      order Block I, II, III, Total, and there are none iff all four pass. */
  lemma ReasonsExact(p1: int, p2: int, p3: int, total: int)
    ensures var rs := ReasonsFor(p1, p2, p3, total);
      && (BlockBelow(1, p1, MIN_POINTS_BLOCK_1) in rs <==> p1 < MIN_POINTS_BLOCK_1)
      && (BlockBelow(2, p2, MIN_POINTS_BLOCK_2) in rs <==> p2 < MIN_POINTS_BLOCK_2)
      && (BlockBelow(3, p3, MIN_POINTS_BLOCK_3) in rs <==> p3 < MIN_POINTS_BLOCK_3)
      && (TotalBelow(total, MIN_POINTS_TOTAL) in rs <==> total < MIN_POINTS_TOTAL)
      && (forall r :: r in rs ==>
            r in [BlockBelow(1, p1, MIN_POINTS_BLOCK_1), BlockBelow(2, p2, MIN_POINTS_BLOCK_2),
                  BlockBelow(3, p3, MIN_POINTS_BLOCK_3), TotalBelow(total, MIN_POINTS_TOTAL)])
      && (forall j, k :: 0 <= j < k < |rs| ==> Rank(rs[j]) < Rank(rs[k]))
      && (rs == [] <==>
            p1 >= MIN_POINTS_BLOCK_1 && p2 >= MIN_POINTS_BLOCK_2 && p3 >= MIN_POINTS_BLOCK_3 && total >= MIN_POINTS_TOTAL)
  {
  }

  /** Block b's line of the report, from the counts of its outcomes. */
  function BlockScoreOf(answers: Answers, exam: seq<Question>, b: int): BlockScore
    requires IsBlock(b)
  {
    var c := CountOutcome(answers, exam, b, Correct);
    var w := CountOutcome(answers, exam, b, Wrong);
    var k := CountOutcome(answers, exam, b, Blank);
    BlockScore(c - w, c, w, k, c - w >= MinPoints(b))
  }

  /** The report for three block lines: the total is their sum, each check
      is its pass mark, and the reasons are the failed checks. */
  function Verdict(s1: BlockScore, s2: BlockScore, s3: BlockScore): ScoreReport {
    var total := s1.points + s2.points + s3.points;
    var totalPassed := total >= MIN_POINTS_TOTAL;
    ScoreReport(s1, s2, s3, total, totalPassed,
                if s1.passed && s2.passed && s3.passed && totalPassed then Approved else Failed,
                ReasonsFor(s1.points, s2.points, s3.points, total))
  }

  /** The report the scoring must produce, stated on counts. */
  function ReportOf(answers: Answers, exam: seq<Question>): ScoreReport {
    Verdict(BlockScoreOf(answers, exam, 1), BlockScoreOf(answers, exam, 2), BlockScoreOf(answers, exam, 3))
  }

  /** `calcular_pontuacao`: one pass over the exam updating twelve counters,
      then the pass checks and the list of failed ones. The result is the
      report `ReportOf` states on counts; `ReportConsistent` and
      `ReasonsExact` give its properties. */
  method CalculateScore(answers: Answers, exam: seq<Question>) returns (report: ScoreReport)
    ensures report == ReportOf(answers, exam)
  {
    var p1, c1, w1, k1 := 0, 0, 0, 0;
    var p2, c2, w2, k2 := 0, 0, 0, 0;
    var p3, c3, w3, k3 := 0, 0, 0, 0;
    for i := 0 to |exam|
      invariant c1 == CountOutcome(answers, exam[..i], 1, Correct)
      invariant w1 == CountOutcome(answers, exam[..i], 1, Wrong)
      invariant k1 == CountOutcome(answers, exam[..i], 1, Blank)
      invariant c2 == CountOutcome(answers, exam[..i], 2, Correct)
      invariant w2 == CountOutcome(answers, exam[..i], 2, Wrong)
      invariant k2 == CountOutcome(answers, exam[..i], 2, Blank)
      invariant c3 == CountOutcome(answers, exam[..i], 3, Correct)
      invariant w3 == CountOutcome(answers, exam[..i], 3, Wrong)
      invariant k3 == CountOutcome(answers, exam[..i], 3, Blank)
      invariant p1 == c1 - w1 && p2 == c2 - w2 && p3 == c3 - w3
    {
      var q := exam[i];
      var answer := Lookup(answers, q.id);
      CountOutcomeStep(answers, exam, i);
      if answer == None || answer == Some("Branco") {
        if q.block == 1 { k1 := k1 + 1; }
        else if q.block == 2 { k2 := k2 + 1; }
        else if q.block == 3 { k3 := k3 + 1; }
      } else if answer.value == q.key {
        if q.block == 1 { p1 := p1 + 1; c1 := c1 + 1; }
        else if q.block == 2 { p2 := p2 + 1; c2 := c2 + 1; }
        else if q.block == 3 { p3 := p3 + 1; c3 := c3 + 1; }
      } else {
        if q.block == 1 { p1 := p1 - 1; w1 := w1 + 1; }
        else if q.block == 2 { p2 := p2 - 1; w2 := w2 + 1; }
        else if q.block == 3 { p3 := p3 - 1; w3 := w3 + 1; }
      }
    }
    assert exam[..|exam|] == exam;
    var line1 := BlockScore(p1, c1, w1, k1, p1 >= MIN_POINTS_BLOCK_1);
    var line2 := BlockScore(p2, c2, w2, k2, p2 >= MIN_POINTS_BLOCK_2);
    var line3 := BlockScore(p3, c3, w3, k3, p3 >= MIN_POINTS_BLOCK_3);
    assert line1 == BlockScoreOf(answers, exam, 1);
    assert line2 == BlockScoreOf(answers, exam, 2);
    assert line3 == BlockScoreOf(answers, exam, 3);
    report := Judge(line1, line2, line3);
  }

  /** The second half of `calcular_pontuacao`, given the three block lines
      with their pass flags: the total, its check, one
      reason appended per failed check in the order Block I, II, III, Total,
      and the overall status. */
  method Judge(line1: BlockScore, line2: BlockScore, line3: BlockScore) returns (report: ScoreReport)
    requires line1.passed == (line1.points >= MIN_POINTS_BLOCK_1)
    requires line2.passed == (line2.points >= MIN_POINTS_BLOCK_2)
    requires line3.passed == (line3.points >= MIN_POINTS_BLOCK_3)
    ensures report == Verdict(line1, line2, line3)
  {
    var p1, p2, p3 := line1.points, line2.points, line3.points;
    var total := p1 + p2 + p3;
    var totalPassed := total >= MIN_POINTS_TOTAL;

    var status := Approved;
    var reasons: seq<Reason> := [];
    var allPassed := line1.passed && line2.passed && line3.passed && totalPassed;
    ghost var r1 := if !line1.passed then [BlockBelow(1, p1, MIN_POINTS_BLOCK_1)] else [];
    ghost var r2 := if !line2.passed then [BlockBelow(2, p2, MIN_POINTS_BLOCK_2)] else [];
    ghost var r3 := if !line3.passed then [BlockBelow(3, p3, MIN_POINTS_BLOCK_3)] else [];
    if !line1.passed { reasons := reasons + [BlockBelow(1, p1, MIN_POINTS_BLOCK_1)]; }
    assert reasons == r1;
    if !line2.passed { reasons := reasons + [BlockBelow(2, p2, MIN_POINTS_BLOCK_2)]; }
    assert reasons == r1 + r2;
    if !line3.passed { reasons := reasons + [BlockBelow(3, p3, MIN_POINTS_BLOCK_3)]; }
    assert reasons == r1 + r2 + r3;
    if !totalPassed { reasons := reasons + [TotalBelow(total, MIN_POINTS_TOTAL)]; }
    if !allPassed { status := Failed; }

    report := ScoreReport(line1, line2, line3, total, totalPassed, status, reasons);
  }

  /** The report's figures agree with one another: points are correct minus
      wrong answers, the three counts cover the block, the total is the sum
      of the blocks, every flag is its non-strict pass mark, and the exam is
      approved exactly when all four checks pass, which is exactly when no
      reason is listed. */
  lemma ReportConsistent(answers: Answers, exam: seq<Question>)
    ensures var r := ReportOf(answers, exam);
      && r.block1.points == r.block1.correct - r.block1.wrong
      && r.block2.points == r.block2.correct - r.block2.wrong
      && r.block3.points == r.block3.correct - r.block3.wrong
      && r.block1.correct + r.block1.wrong + r.block1.blank == CountBlock(exam, 1)
      && r.block2.correct + r.block2.wrong + r.block2.blank == CountBlock(exam, 2)
      && r.block3.correct + r.block3.wrong + r.block3.blank == CountBlock(exam, 3)
      && r.totalPoints == r.block1.points + r.block2.points + r.block3.points
      && (r.block1.passed <==> r.block1.points >= MIN_POINTS_BLOCK_1)
      && (r.block2.passed <==> r.block2.points >= MIN_POINTS_BLOCK_2)
      && (r.block3.passed <==> r.block3.points >= MIN_POINTS_BLOCK_3)
      && (r.totalPassed <==> r.totalPoints >= MIN_POINTS_TOTAL)
      && (r.status == Approved <==> r.block1.passed && r.block2.passed && r.block3.passed && r.totalPassed)
      && (r.status == Approved <==> r.reasons == [])
  {
    OutcomesPartitionBlock(answers, exam, 1);
    OutcomesPartitionBlock(answers, exam, 2);
    OutcomesPartitionBlock(answers, exam, 3);
    var r := ReportOf(answers, exam);
    ReasonsExact(r.block1.points, r.block2.points, r.block3.points, r.totalPoints);
  }

  /** Extending a prefix of the exam by one record adds that record to the
      count of its own block and outcome only. */
  lemma CountOutcomeStep(answers: Answers, exam: seq<Question>, i: nat)
    requires i < |exam|
    ensures forall b, o ::
      CountOutcome(answers, exam[..i + 1], b, o) ==
      CountOutcome(answers, exam[..i], b, o) + (if exam[i].block == b && OutcomeOf(answers, exam[i]) == o then 1 else 0)
  {
    assert exam[..i + 1][..i] == exam[..i];
  }

  /** Every record of block b is counted exactly once, as correct, wrong or
      blank. */
  lemma {:induction false} OutcomesPartitionBlock(answers: Answers, qs: seq<Question>, b: int)
    ensures CountOutcome(answers, qs, b, Correct) + CountOutcome(answers, qs, b, Wrong)
            + CountOutcome(answers, qs, b, Blank) == CountBlock(qs, b)
    decreases |qs|
  {
    if qs != [] {
      OutcomesPartitionBlock(answers, qs[..|qs| - 1], b);
    }
  }

  /** The records of the exam that lie in blocks 1 to 3. */
  function InBlocks(qs: seq<Question>): (r: seq<Question>)
    ensures forall k :: 0 <= k < |r| ==> IsBlock(r[k].block)
  {
    if qs == [] then []
    else if IsBlock(qs[|qs| - 1].block) then InBlocks(qs[..|qs| - 1]) + [qs[|qs| - 1]]
    else InBlocks(qs[..|qs| - 1])
  }

  lemma {:induction false} InBlocksCounts(answers: Answers, qs: seq<Question>, b: int, o: Outcome)
    requires IsBlock(b)
    ensures CountOutcome(answers, InBlocks(qs), b, o) == CountOutcome(answers, qs, b, o)
    decreases |qs|
  {
    if qs != [] {
      var init, last := qs[..|qs| - 1], qs[|qs| - 1];
      InBlocksCounts(answers, init, b, o);
      var step := if last.block == b && OutcomeOf(answers, last) == o then 1 else 0;
      assert CountOutcome(answers, qs, b, o) == CountOutcome(answers, init, b, o) + step;
      if IsBlock(last.block) {
        var kept := InBlocks(init) + [last];
        assert kept[..|kept| - 1] == InBlocks(init);
        assert CountOutcome(answers, kept, b, o) == CountOutcome(answers, InBlocks(init), b, o) + step;
      } else {
        assert step == 0;
      }
    }
  }

  /** Records whose block lies outside 1 to 3 contribute nothing: dropping
      them leaves the report unchanged. */
  lemma OutsideBlocksIgnored(answers: Answers, exam: seq<Question>)
    ensures ReportOf(answers, InBlocks(exam)) == ReportOf(answers, exam)
  {
    var kept := InBlocks(exam);
    forall b | IsBlock(b)
      ensures BlockScoreOf(answers, kept, b) == BlockScoreOf(answers, exam, b)
    {
      InBlocksCounts(answers, exam, b, Correct);
      InBlocksCounts(answers, exam, b, Wrong);
      InBlocksCounts(answers, exam, b, Blank);
    }
    assert IsBlock(1) && IsBlock(2) && IsBlock(3);
  }

  /** Every record answered with its key (a key other than "Branco"). */
  predicate AllAnsweredCorrectly(answers: Answers, qs: seq<Question>) {
    forall k :: 0 <= k < |qs| ==> Lookup(answers, qs[k].id) == Some(qs[k].key) && qs[k].key != "Branco"
  }

  lemma {:induction false} AllCorrectCounts(answers: Answers, qs: seq<Question>, b: int)
    requires AllAnsweredCorrectly(answers, qs)
    ensures CountOutcome(answers, qs, b, Correct) == CountBlock(qs, b)
    ensures CountOutcome(answers, qs, b, Wrong) == 0
    ensures CountOutcome(answers, qs, b, Blank) == 0
    decreases |qs|
  {
    if qs != [] {
      AllCorrectCounts(answers, qs[..|qs| - 1], b);
    }
  }

  /** An exam holding its quota in every block, answered entirely with the
      keys, scores its quota in every block and is approved with no reasons. */
  lemma AllCorrectApproved(answers: Answers, exam: seq<Question>)
    requires AllAnsweredCorrectly(answers, exam)
    requires forall b :: IsBlock(b) ==> CountBlock(exam, b) == Quota(b)
    ensures var r := ReportOf(answers, exam);
      && r.block1 == BlockScore(QUOTA_BLOCK_1, QUOTA_BLOCK_1, 0, 0, true)
      && r.block2 == BlockScore(QUOTA_BLOCK_2, QUOTA_BLOCK_2, 0, 0, true)
      && r.block3 == BlockScore(QUOTA_BLOCK_3, QUOTA_BLOCK_3, 0, 0, true)
      && r.totalPoints == TOTAL_QUESTIONS
      && r.status == Approved && r.reasons == []
  {
    assert IsBlock(1) && IsBlock(2) && IsBlock(3);
    AllCorrectCounts(answers, exam, 1);
    AllCorrectCounts(answers, exam, 2);
    AllCorrectCounts(answers, exam, 3);
  }

  /** Every record left blank or missing from the answers. */
  predicate AllBlank(answers: Answers, qs: seq<Question>) {
    forall k :: 0 <= k < |qs| ==> Lookup(answers, qs[k].id) in {None, Some("Branco")}
  }

  lemma {:induction false} AllBlankCounts(answers: Answers, qs: seq<Question>, b: int)
    requires AllBlank(answers, qs)
    ensures CountOutcome(answers, qs, b, Correct) == 0
    ensures CountOutcome(answers, qs, b, Wrong) == 0
    ensures CountOutcome(answers, qs, b, Blank) == CountBlock(qs, b)
    decreases |qs|
  {
    if qs != [] {
      AllBlankCounts(answers, qs[..|qs| - 1], b);
    }
  }

  /** An exam left entirely blank scores zero everywhere and fails all four
      checks, block III included, since its mark is 2. */
  lemma AllBlankFails(answers: Answers, exam: seq<Question>)
    requires AllBlank(answers, exam)
    ensures var r := ReportOf(answers, exam);
      && r.block1.points == 0 && r.block2.points == 0 && r.block3.points == 0 && r.totalPoints == 0
      && r.status == Failed
      && r.reasons == [BlockBelow(1, 0, MIN_POINTS_BLOCK_1), BlockBelow(2, 0, MIN_POINTS_BLOCK_2),
                       BlockBelow(3, 0, MIN_POINTS_BLOCK_3), TotalBelow(0, MIN_POINTS_TOTAL)]
  {
    AllBlankCounts(answers, exam, 1);
    AllBlankCounts(answers, exam, 2);
    AllBlankCounts(answers, exam, 3);
  }

  /** Block I at 5 points, Block II at 36 and Block III at 0 (a total of 41)
      fail Block I, Block III and the total, in that order. */
  lemma MixedScenarioReasons()
    ensures ReasonsFor(5, 36, 0, 41) ==
      [BlockBelow(1, 5, MIN_POINTS_BLOCK_1), BlockBelow(3, 0, MIN_POINTS_BLOCK_3), TotalBelow(41, MIN_POINTS_TOTAL)]
  {
  }

  /** The same scenario on counts: Block I with 10 correct, 5 wrong and 45
      blank, Block II with all 36 correct, Block III with all 24 blank. */
  lemma MixedScenarioReport(answers: Answers, exam: seq<Question>)
    requires CountOutcome(answers, exam, 1, Correct) == 10
    requires CountOutcome(answers, exam, 1, Wrong) == 5
    requires CountOutcome(answers, exam, 1, Blank) == 45
    requires CountOutcome(answers, exam, 2, Correct) == 36
    requires CountOutcome(answers, exam, 2, Wrong) == 0
    requires CountOutcome(answers, exam, 2, Blank) == 0
    requires CountOutcome(answers, exam, 3, Correct) == 0
    requires CountOutcome(answers, exam, 3, Wrong) == 0
    requires CountOutcome(answers, exam, 3, Blank) == 24
    ensures var r := ReportOf(answers, exam);
      && r.block1 == BlockScore(5, 10, 5, 45, false)
      && r.block2 == BlockScore(36, 36, 0, 0, true)
      && r.block3 == BlockScore(0, 0, 0, 24, false)
      && r.totalPoints == 41 && !r.totalPassed
      && r.status == Failed
      && r.reasons == [BlockBelow(1, 5, MIN_POINTS_BLOCK_1), BlockBelow(3, 0, MIN_POINTS_BLOCK_3),
                       TotalBelow(41, MIN_POINTS_TOTAL)]
  {
    MixedScenarioReasons();
  }

  /** The answer screen records "Certo" or "Errado", while the keys the
      selection generates are "C" or "E": such an answer never equals such a
      key, so it is scored as wrong. */
  lemma ScreenLabelsMissLetterKeys(marked: string, key: string)
    requires marked in {"Certo", "Errado"}
    requires key in {"C", "E"}
    ensures Classify(Some(marked), key) == Wrong
  {
  }
}
