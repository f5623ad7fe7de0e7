/** The exam's fixed configuration and its question records. */
module Exam {

  // Questions per block (NUM_QUESTOES_BLOCO_1..3) and their sum.
  const QUOTA_BLOCK_1: nat := 60
  const QUOTA_BLOCK_2: nat := 36
  const QUOTA_BLOCK_3: nat := 24
  const TOTAL_QUESTIONS: nat := QUOTA_BLOCK_1 + QUOTA_BLOCK_2 + QUOTA_BLOCK_3

  // Pass marks (MIN_PONTOS_*): a check passes when the points are at least
  // the mark. The source writes them as 6.00, 3.00, 2.00 and 48.00; every
  // score is a whole number, so they are whole numbers here.
  const MIN_POINTS_BLOCK_1: int := 6
  const MIN_POINTS_BLOCK_2: int := 3
  const MIN_POINTS_BLOCK_3: int := 2
  const MIN_POINTS_TOTAL: int := 48

  datatype Option<T> = None | Some(value: T)

  /** One question record: `id`, `bloco`, `disciplina`, `enunciado` and
      `gabarito` (the answer key, "C" for Certo or "E" for Errado). The block
      is any integer: records outside blocks 1 to 3 can reach the core. */
  datatype Question = Question(id: string, block: int, subject: string, statement: string, key: string)

  predicate IsBlock(b: int) {
    1 <= b <= 3
  }

  function Quota(b: int): (n: nat)
    requires IsBlock(b)
  {
    if b == 1 then QUOTA_BLOCK_1 else if b == 2 then QUOTA_BLOCK_2 else QUOTA_BLOCK_3
  }

  /** The number of records of qs that belong to block b. */
  function CountBlock(qs: seq<Question>, b: int): (n: nat)
    ensures n <= |qs|
  {
    if qs == [] then 0
    else CountBlock(qs[..|qs| - 1], b) + (if qs[|qs| - 1].block == b then 1 else 0)
  }

  lemma {:induction false} CountBlockConcat(xs: seq<Question>, ys: seq<Question>, b: int)
    ensures CountBlock(xs + ys, b) == CountBlock(xs, b) + CountBlock(ys, b)
    decreases |ys|
  {
    if ys == [] {
      assert xs + ys == xs;
    } else {
      CountBlockConcat(xs, ys[..|ys| - 1], b);
      assert (xs + ys)[..|xs + ys| - 1] == xs + ys[..|ys| - 1];
    }
  }

  /** A sequence whose records all belong to block b has all of them counted
      in b and none in any other block. */
  lemma {:induction false} CountBlockUniform(qs: seq<Question>, b: int, c: int)
    requires forall k :: 0 <= k < |qs| ==> qs[k].block == b
    ensures CountBlock(qs, c) == if c == b then |qs| else 0
    decreases |qs|
  {
    if qs != [] {
      CountBlockUniform(qs[..|qs| - 1], b, c);
    }
  }
}
