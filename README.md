# Police exam simulator core, in Dafny

This project models the core of `simulador_pf_agente.py`, a practice-exam
simulator for the Polícia Federal agent test. The test has 120 true/false
items in three blocks and is scored by the Cebraspe rule. The core has four
parts:

- **Constants** (module `Exam`, `exam.dfy`). The block quotas are 60, 36 and
  24, so the exam has 120 questions. The pass marks are 6, 3 and 2 points for
  the blocks and 48 for the total. The question record is also defined here.
- **Exam assembly** (module `Selection`, `selection.dfy`). This models
  `selecionar_questoes_simulado`:
  - an empty pool gives a full-length "load error" exam;
  - otherwise each block takes its quota from that block's sub-pool: a sample
    without replacement when the sub-pool is large enough, a draw with
    replacement when it is smaller, and emergency placeholders when it is
    empty;
  - a final loop pads the exam to 120 records. For a non-empty pool this loop
    is proved never needed.

  The random module is an oracle. Each block's draw is a `BlockDraw` value,
  and `DrawFits` states what `random.sample`, `random.choices` and
  `random.choice` guarantee. So every contract holds for every draw the
  random module can make.
- **Scoring** (module `Scoring`, `scoring.dfy`). This models
  `calcular_pontuacao`:
  - one loop updates twelve counters: points, correct, wrong and blank for
    each block;
  - then come the four pass checks, the failure reasons (appended in the
    order Block I, II, III, Total) and the overall status.

  `CalculateScore` is proved to compute `ReportOf`, a definition on counts.
  Lemmas state what the report means.
- **Paging** (module `Pagination`, `pagination.dfy`). The exam screen shows
  ten questions per page. This part covers the page count, the clamping of
  the current page index and the slice shown.

`decimal.dfy` (module `Decimal`) renders numbers in decimal, as Python's
f-strings do for the generated ids. It also proves this rendering injective,
which gives the generated records distinct ids.

### Two behaviours of the code worth knowing

- **Empty pool.** The docstring of `selecionar_questoes_simulado`
  (`simulador_pf_agente.py:53`) promises the right number of questions for
  each block. For an empty pool the code (`simulador_pf_agente.py:54-55`)
  returns 120 `ERRO_Q_i` records whose blocks cycle 1, 2, 3, so each block
  holds 40 records whatever its quota (`LoadErrorExamBlockCounts`). Only a
  non-empty pool gets the quotas 60/36/24 (`AssembledBlockCounts`).
- **All answers blank.** Every block scores 0, and every mark is positive,
  Block III's included (it is 2). So an exam left wholly blank fails all
  four checks and lists all four reasons (`AllBlankFails`).

### Answer labels

The answer screen stores the option marked, "Certo" or "Errado"
(`simulador_pf_agente.py:281-289`). Scoring compares that text with the
record's key (`simulador_pf_agente.py:111`). The keys the selection generates
for placeholders are "C" and "E", and so are the keys of the built-in
fallback pool (`simulador_pf_agente.py:161-165`), which replaces the question
file whenever loading it yields nothing. An answer "Certo" or "Errado" never
equals such a key, so on those paths every answered question is scored as
wrong (`ScreenLabelsMissLetterKeys`). The model keeps the comparison as
written. For questions loaded from the file, the outcome depends on the keys
the file uses; the file is not part of this model.

## Model

| member | source | states |
|---|---|---|
| Selection.SelectQuestions | simulador_pf_agente.py:52-91 | Every result has exactly 120 records. An empty pool gives the load-error exam. A non-empty pool gives the Block 1, 2 and 3 segments concatenated in that order, with each position holding a record of the block it belongs to. |
| Selection.PadRecord | simulador_pf_agente.py:88-89 | Definition: the padding record for position n has id `TOTAL_FILL_PAD_{n}`, block (n mod 3) + 1, the subject "Placeholder Preenchimento", the fixed statement and key "C". |
| Selection.FillToTotal | simulador_pf_agente.py:84-89 | The padding loop keeps the exam it is given as a prefix. It appends records until there are 120 (none if there are already 120 or more). The record at position j has id `TOTAL_FILL_PAD_j`, block (j mod 3) + 1 and key "C". |
| Selection.LoadErrorRecord | simulador_pf_agente.py:55 | Definition: record i of the empty-pool exam has id `ERRO_Q_{i}`, block (i mod 3) + 1, the subject "Erro Carregamento", the fixed statement and key "C". |
| Selection.LoadErrorExam | simulador_pf_agente.py:54-55 | The empty-pool exam has 120 records. Record i has block (i mod 3) + 1 and key "C". |
| Selection.LoadErrorExamBlockCounts | simulador_pf_agente.py:54-55 | The empty-pool exam holds 40 records in each block, not the quotas. |
| Selection.LoadErrorPrefixCounts | simulador_pf_agente.py:55 | In its first n records, block b holds every third record, starting at position b - 1. |
| Selection.LoadErrorExamUniqueIds | simulador_pf_agente.py:55 | The `ERRO_Q_i` ids of the empty-pool exam are pairwise distinct. |
| Selection.BlockPositions | simulador_pf_agente.py:68 | The positions a block's filter keeps are exactly the positions of that block's records, in increasing pool order. |
| Selection.SubPool | simulador_pf_agente.py:68 | A record is in block b's sub-pool iff it is in the pool and its block is b. The sub-pool lists them in pool order. |
| Selection.Segment | simulador_pf_agente.py:66-81 | Every block's segment has exactly its quota of records, all of that block, in each of the three cases. |
| Selection.SampledSegment | simulador_pf_agente.py:71-73 | When the sub-pool fills the quota, the segment's records come from the pool, belong to the block, and come from pairwise distinct pool positions (no replacement). |
| Selection.SampledSegmentUniqueIds | simulador_pf_agente.py:71-73 | In that case, if the pool's ids are unique, the segment repeats no question. |
| Selection.ResampledSegment | simulador_pf_agente.py:74-76 | When the sub-pool is non-empty but short, the segment still has the full quota, and every record is a member of the sub-pool; repeats are allowed. |
| Selection.DrawFits | simulador_pf_agente.py:71-79 | Definition: what the random module returns for one block. `random.sample` gives quota distinct in-range positions when the sub-pool fills the quota. `random.choices` gives quota in-range positions, possibly repeated, when it is non-empty but short. Otherwise `random.choice` gives quota "C"/"E" tosses. Every Selection contract holds for all draws that fit. |
| Selection.Placeholder | simulador_pf_agente.py:79 | Definition: the i-th placeholder of block b has id `PLACEHOLDER_B{b}_{i}`, the block b and the subject "Placeholder". Its statement ends with the block number and i + 1, and its key is "C" or "E" by the toss. |
| Selection.PlaceholderSegment | simulador_pf_agente.py:77-79 | When the sub-pool is empty, the segment is the quota of placeholders. Each has the block, the subject "Placeholder" and a key in {"C", "E"}, and their ids are pairwise distinct. |
| Selection.AssembledLayout | simulador_pf_agente.py:59-81 | The per-block loop builds the three segments concatenated in block order. The result has 120 records, with 0-59 in Block 1, 60-95 in Block 2 and 96-119 in Block 3, so the length check at the end never pads. |
| Selection.AssembledBlockCounts | simulador_pf_agente.py:59-81 | For a non-empty pool, each block of the exam holds exactly its quota. |
| Decimal.NatToString | simulador_pf_agente.py:55 | The decimal rendering of n, as f"{i}" gives it: a non-empty string of digits (and `ValueOfNatToString` reads it back as n). |
| Decimal.PrefixedNumbersDistinct | simulador_pf_agente.py:55 | Ids formed as a fixed prefix plus a decimal index differ for different indices. |
| Decimal.ValueOfNatToString | simulador_pf_agente.py:79 | Reading back the decimal rendering of n gives n. |
| Scoring.Lookup | simulador_pf_agente.py:104 | Definition: `respostas.get(q_id)`, so an id missing from the answers reads as no answer. |
| Scoring.IsBlankAnswer | simulador_pf_agente.py:107 | Definition: an answer is blank iff it is missing or is the text "Branco". |
| Scoring.Classify | simulador_pf_agente.py:107-118 | Definition: the rule in the source's order. Blank first, then correct iff the answer equals the key, otherwise wrong. |
| Scoring.ReasonsFor | simulador_pf_agente.py:133-140 | Definition: one reason per check below its mark, in the order Block I, II, III, Total. `ReasonsExact` states what it means. |
| Scoring.Verdict | simulador_pf_agente.py:120-143 | Definition: from three block lines, the total (their sum), its check, the status (Approved iff all four flags hold) and the reasons. |
| Scoring.ReportOf | simulador_pf_agente.py:94-153 | Definition: the report on counts. Each block's line is built from its correct, wrong and blank counts, with points = correct - wrong and the flag set iff points ≥ mark, and then `Verdict` applies. `CalculateScore` is proved to compute it. |
| Scoring.CalculateScore | simulador_pf_agente.py:94-153 | The twelve-counter loop and its checks produce exactly `ReportOf`. That is the count of correct, wrong and blank answers of each block, the points, the four checks, the reasons and the status. |
| Scoring.Judge | simulador_pf_agente.py:120-143 | Given block lines whose flags are their pass marks, the second half computes the total as their sum, appends one reason per failed check in order, and sets the status. |
| Scoring.ReportConsistent | simulador_pf_agente.py:100-143 | For every exam and answer set: points = correct - wrong, and the three counts add up to the block's record count. The total is the sum of the blocks. Each flag holds iff points ≥ its mark (equal passes). The status is Approved iff all four checks pass, iff the reason list is empty. |
| Scoring.ReasonsExact | simulador_pf_agente.py:133-140 | A reason for a check is listed iff that check is below its mark. Nothing else is listed, each check appears at most once in the order Block I, II, III, Total, and the list is empty iff all four pass. |
| Scoring.OutcomesPartitionBlock | simulador_pf_agente.py:107-118 | Each record of a block is classified exactly once, as correct, wrong or blank. |
| Scoring.CountOutcomeStep | simulador_pf_agente.py:100-118 | One more record counts only in its own block and outcome. |
| Scoring.InBlocksCounts | simulador_pf_agente.py:108-118 | Dropping records outside blocks 1-3 leaves every count of blocks 1-3 unchanged. |
| Scoring.OutsideBlocksIgnored | simulador_pf_agente.py:108-118 | Records whose block is not 1, 2 or 3 contribute nothing: the report is the same without them. |
| Scoring.AllCorrectApproved | simulador_pf_agente.py:94-153 | An exam with each block at its quota, answered entirely with the keys, scores 60/36/24 with no wrong or blank answers. Its total is 120, it is approved and it lists no reasons. |
| Scoring.AllBlankFails | simulador_pf_agente.py:107-143 | An exam left blank or unanswered scores 0 everywhere. It fails, with the reasons Block I, Block II, Block III and Total, in that order. |
| Scoring.MixedScenarioReasons | simulador_pf_agente.py:133-140 | Points 5, 36 and 0 (total 41) give the reasons Block I, Block III and Total, in that order. |
| Scoring.MixedScenarioReport | simulador_pf_agente.py:94-153 | Block I with counts 10/5/45, Block II with 36/0/0 and Block III with 0/0/24 score 5, 36 and 0, a total of 41. That fails, with the reasons Block I, Block III and Total. |
| Scoring.ScreenLabelsMissLetterKeys | simulador_pf_agente.py:107-118 | An answer "Certo" or "Errado" checked against a key "C" or "E" is scored as wrong. |
| Pagination.PageCount | simulador_pf_agente.py:229-234 | The page count is at least 1. It is 1 for an empty exam; otherwise it is the ceiling of n / 10 (the last page is non-empty and no record is beyond it). |
| Pagination.ClampPage | simulador_pf_agente.py:236-237 | The clamped index is never negative and is below the page count. An in-range index is kept; one too large becomes the last page; a negative one becomes 0. |
| Pagination.PageSlice | simulador_pf_agente.py:255-260 | A page holds up to ten records, none past the end. Its j-th record is the exam's record at position page * 10 + j, which the screen shows one-based as question page * 10 + j + 1. |
| Pagination.PagesArePrefix | simulador_pf_agente.py:255-260 | The first k pages read in order are the exam's first k * 10 records. |
| Pagination.PagesCoverExam | simulador_pf_agente.py:229-260 | Reading all pages in order shows the whole exam, each record once, in place. |
| Pagination.RecordPage | simulador_pf_agente.py:255-260 | Record i appears on page i / 10, at offset i mod 10, and that page exists. |
| Pagination.ShownPageNonEmpty | simulador_pf_agente.py:236-263 | For a non-empty exam the page shown after clamping is never empty, so the "no questions on this page" warning cannot appear. |

## Left out

- Streamlit rendering, widgets, `st.session_state` and `st.rerun` are left out; they are user-interface glue. Paging is modelled on values: the stored page index is a parameter, not a session field.
- Loading the questions from JSON (`carregar_questoes_do_json`) is file I/O and parsing. The pool is a parameter.
- The `print` logging is output only.
- The wall-clock exam timer and its h:m:s display depend on an external clock.
- The random module is an oracle: draws are parameters constrained by `DrawFits`. The shuffle of a throwaway copy of the pool has no effect on the result.
- The `random.randint` fallback id for a record without `id` is left out. Every record has an id.
- Question records carry an integer block and a string key. A JSON `bloco` of another type, or a missing `gabarito`, is not modelled.
- Scoring.CalculateScore: points are integers, not Python floats. Every point total is a whole number far below 2^53, so the float sums are exact and the comparisons against 6.00, 3.00, 2.00 and 48.00 agree.
- Scoring.CalculateScore: the reasons are `Reason` values carrying the check, the points and the mark, not the `:.2f` formatted strings. The status is `Approved`/`Failed`, not the display strings.
- Pagination.PageSlice: the page index is a natural number, so Python's negative slice indices are not modelled. The clamp that precedes the slice never yields a negative index (`ClampPage`).
