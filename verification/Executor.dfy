/** Running a pipeline: a loop over the stages that fills in their outputs. */
module Executor {
  import opened Basics
  import opened Decimal
  import opened PipelineText
  import Rle

  datatype StageResult = StageResult(success: bool, error: string, data: seq<byte>)

  type StageFunction = (seq<byte>, string) -> StageResult

  type Repository = map<string, StageFunction>

  function Success(data: seq<byte>): StageResult {
    StageResult(true, "", data)
  }

  function Failed(error: string): StageResult {
    StageResult(false, error, [])
  }

  // ---------------------------------------------------------------------------
  // Meaning
  // ---------------------------------------------------------------------------

  /** What stage `i` reads: the source data, or the output of an earlier stage. */
  function Argument(stages: seq<Stage>, i: nat, input: seq<byte>, repo: Repository): Option<seq<byte>>
    requires i < |stages|
    decreases i, 0
  {
    var from := stages[i].inputStage;
    if from < 0 then Some(input) else if from < i then Output(stages, from, input, repo) else None
  }

  /** The output of stage `i`, evaluated backwards from it, if there is one. */
  function Output(stages: seq<Stage>, i: nat, input: seq<byte>, repo: Repository): Option<seq<byte>>
    requires i < |stages|
    decreases i, 1
  {
    var argument := Argument(stages, i, input, repo);
    if stages[i].operation in repo && argument.Some? then
      var r := repo[stages[i].operation](argument.value, stages[i].args);
      if r.success then Some(r.data) else None
    else None
  }

  /** Every stage has a known function, a source or strictly backward input, and
      its call succeeds. */
  ghost predicate AllSucceed(stages: seq<Stage>, input: seq<byte>, repo: Repository) {
    forall i :: 0 <= i < |stages| ==> Output(stages, i, input, repo).Some?
  }

  /** Stage `i` is the first that fails, and `r` says why. */
  ghost predicate FailsAt(stages: seq<Stage>, i: nat, input: seq<byte>, repo: Repository, r: StageResult) {
    && i < |stages| && Output(stages, i, input, repo).None?
    && (forall j :: 0 <= j < i ==> Output(stages, j, input, repo).Some?)
    && var s := stages[i];
       if s.operation !in repo then r == Failed("unknown SDS function: " + s.operation)
       else if s.inputStage >= i then
         r == Failed("stage " + OfNat(i) + " references future or self input_stage=" + OfInt(s.inputStage))
       else
         var argument := Argument(stages, i, input, repo);
         argument.Some? && r == repo[s.operation](argument.value, s.args)
  }

  /** The stage whose output is the result of the pipeline. */
  ghost predicate IsResultStage(stages: seq<Stage>, i: nat) {
    && i < |stages|
    && (forall j :: i < j < |stages| ==> stages[j].outputStage >= 0)
    && (stages[i].outputStage < 0 ||
        (i == |stages| - 1 && forall j :: 0 <= j < |stages| ==> stages[j].outputStage >= 0))
  }

  method ExecutePipeline(stages: seq<Stage>, input: seq<byte>, repo: Repository)
    returns (result: StageResult, ghost last: nat)
    ensures stages == [] ==> result == Success(input)
    ensures stages != [] && AllSucceed(stages, input, repo) ==>
      IsResultStage(stages, last) && result == Success(Output(stages, last, input, repo).value)
    ensures !AllSucceed(stages, input, repo) ==> FailsAt(stages, last, input, repo, result)
    ensures result.success <==> AllSucceed(stages, input, repo)
  {
    last := 0;
    if stages == [] {
      return Success(input), 0;
    }
    var outputs := new seq<byte>[|stages|](_ => []);
    var sourceData := input;
    for i := 0 to |stages|
      invariant forall j :: 0 <= j < i ==> Output(stages, j, input, repo) == Some(outputs[j])
    {
      var stage := stages[i];
      if stage.operation !in repo {
        assert Output(stages, i, input, repo).None?;
        return Failed("unknown SDS function: " + stage.operation), i;
      }
      var stageInput;
      if stage.inputStage < 0 {
        stageInput := sourceData;
      } else if stage.inputStage < i {
        stageInput := outputs[stage.inputStage];
      } else {
        assert Output(stages, i, input, repo).None?;
        return Failed("stage " + OfNat(i) + " references future or self input_stage=" + OfInt(stage.inputStage)), i;
      }
      assert Argument(stages, i, input, repo) == Some(stageInput);
      var r := repo[stage.operation](stageInput, stage.args);
      if !r.success {
        assert Output(stages, i, input, repo).None?;
        return r, i;
      }
      outputs[i] := r.data;
    }
    var k := |stages| - 1;
    while k >= 0
      invariant -1 <= k < |stages|
      invariant forall j :: k < j < |stages| ==> stages[j].outputStage >= 0
    {
      if stages[k].outputStage < 0 {
        return Success(outputs[k]), k;
      }
      k := k - 1;
    }
    return Success(outputs[|stages| - 1]), |stages| - 1;
  }

  // ---------------------------------------------------------------------------
  // Consequences
  // ---------------------------------------------------------------------------

  /** What stage `i` is called on, given the outputs before it. */
  function Given(s: Stage, input: seq<byte>, outputs: seq<seq<byte>>): seq<byte>
    requires s.inputStage < |outputs|
  {
    if s.inputStage < 0 then input else outputs[s.inputStage]
  }

  /** The stage is known, reads the source data or one of the earlier outputs, and
      its call succeeds with `output`. */
  predicate Yields(s: Stage, input: seq<byte>, repo: Repository, earlier: seq<seq<byte>>, output: seq<byte>) {
    && s.operation in repo && s.inputStage < |earlier|
    && var r := repo[s.operation](Given(s, input, earlier), s.args);
       r.success && r.data == output
  }

  ghost predicate Solves(stages: seq<Stage>, input: seq<byte>, repo: Repository, outputs: seq<seq<byte>>) {
    && |outputs| == |stages|
    && forall i :: 0 <= i < |stages| ==> Yields(stages[i], input, repo, outputs[..i], outputs[i])
  }

  lemma {:induction false} SolvedOutput(
      stages: seq<Stage>, input: seq<byte>, repo: Repository, outputs: seq<seq<byte>>, i: nat)
    requires Solves(stages, input, repo, outputs) && i < |stages|
    ensures Output(stages, i, input, repo) == Some(outputs[i])
    decreases i
  {
    var from := stages[i].inputStage;
    assert Yields(stages[i], input, repo, outputs[..i], outputs[i]);
    if from >= 0 {
      SolvedOutput(stages, input, repo, outputs, from);
    }
  }

  lemma OutputSolved(stages: seq<Stage>, input: seq<byte>, repo: Repository, outputs: seq<seq<byte>>, i: nat)
    requires |outputs| == |stages| && i < |stages|
    requires forall j :: 0 <= j <= i ==> Output(stages, j, input, repo) == Some(outputs[j])
    ensures Yields(stages[i], input, repo, outputs[..i], outputs[i])
  {
    var from := stages[i].inputStage;
    assert Output(stages, i, input, repo).Some?;
    assert 0 <= from < i ==> outputs[..i][from] == outputs[from];
  }

  /** The outputs solve the equations of the stages, and nothing else does. */
  lemma SolvesExact(stages: seq<Stage>, input: seq<byte>, repo: Repository, outputs: seq<seq<byte>>)
    requires |outputs| == |stages|
    ensures Solves(stages, input, repo, outputs) <==>
      forall i :: 0 <= i < |stages| ==> Output(stages, i, input, repo) == Some(outputs[i])
  {
    if Solves(stages, input, repo, outputs) {
      forall i | 0 <= i < |stages|
        ensures Output(stages, i, input, repo) == Some(outputs[i])
      {
        SolvedOutput(stages, input, repo, outputs, i);
      }
    }
    if forall i :: 0 <= i < |stages| ==> Output(stages, i, input, repo) == Some(outputs[i]) {
      forall i | 0 <= i < |stages|
        ensures Yields(stages[i], input, repo, outputs[..i], outputs[i])
      {
        OutputSolved(stages, input, repo, outputs, i);
      }
    }
  }

  /** Execution succeeds exactly if the stages have a solution. */
  lemma SucceedsExact(stages: seq<Stage>, input: seq<byte>, repo: Repository)
    ensures AllSucceed(stages, input, repo) <==> exists outputs :: Solves(stages, input, repo, outputs)
  {
    if AllSucceed(stages, input, repo) {
      var outputs := seq(|stages|, i requires 0 <= i < |stages| => Output(stages, i, input, repo).value);
      SolvesExact(stages, input, repo, outputs);
      assert Solves(stages, input, repo, outputs);
    }
    if outputs :| Solves(stages, input, repo, outputs) {
      SolvesExact(stages, input, repo, outputs);
    }
  }

  /** The stages before the first failing one have a solution, and the result is
      why the next one cannot go on. */
  lemma FailureExact(
      stages: seq<Stage>, i: nat, input: seq<byte>, repo: Repository, r: StageResult, outputs: seq<seq<byte>>)
    requires FailsAt(stages, i, input, repo, r) && Solves(stages[..i], input, repo, outputs)
    ensures var s := stages[i];
      if s.operation !in repo then r == Failed("unknown SDS function: " + s.operation)
      else if s.inputStage >= i then
        r == Failed("stage " + OfNat(i) + " references future or self input_stage=" + OfInt(s.inputStage))
      else
        r == repo[s.operation](Given(s, input, outputs), s.args) && !r.success
  {
    var from := stages[i].inputStage;
    if 0 <= from < i {
      SolvedOutput(stages[..i], input, repo, outputs, from);
      OutputOfPrefix(stages[..i], stages[i..], from, input, repo);
      assert stages[..i] + stages[i..] == stages;
    }
  }

  /** An output depends only on the stages up to it. */
  lemma {:induction false} OutputOfPrefix(
      stages: seq<Stage>, more: seq<Stage>, i: nat, input: seq<byte>, repo: Repository)
    requires i < |stages|
    ensures Output(stages + more, i, input, repo) == Output(stages, i, input, repo)
    decreases i
  {
    var from := stages[i].inputStage;
    assert (stages + more)[i] == stages[i];
    if 0 <= from < i {
      OutputOfPrefix(stages, more, from, input, repo);
    }
  }

  /** The result stage is unique, so the contract of execution fixes the result. */
  lemma ResultStageUnique(stages: seq<Stage>, i: nat, j: nat)
    requires IsResultStage(stages, i) && IsResultStage(stages, j)
    ensures i == j
  {
  }

  /** Each stage reads its predecessor, and the first one the source data. */
  ghost predicate Chain(stages: seq<Stage>) {
    && (stages != [] ==> stages[0].inputStage < 0)
    && forall i :: 0 < i < |stages| ==> stages[i].inputStage == i - 1
  }

  /** The calls one after the other, last one outermost. */
  function Composed(stages: seq<Stage>, input: seq<byte>, repo: Repository): Option<seq<byte>> {
    if stages == [] then Some(input) else
      var s := stages[|stages| - 1];
      match Composed(stages[..|stages| - 1], input, repo)
      case None => None
      case Some(argument) =>
        if s.operation !in repo then None else
          var r := repo[s.operation](argument, s.args);
          if r.success then Some(r.data) else None
  }

  /** A chain computes the composition of its functions. */
  lemma {:induction false} ChainComposes(stages: seq<Stage>, i: nat, input: seq<byte>, repo: Repository)
    requires Chain(stages) && i < |stages|
    ensures Output(stages, i, input, repo) == Composed(stages[..i + 1], input, repo)
  {
    assert stages[..i + 1][..i] == stages[..i];
    if i == 0 {
      assert stages[..0] == [];
    } else {
      ChainComposes(stages, i - 1, input, repo);
    }
  }

  const COMPRESS := "builtin://compress_rle"
  const DECOMPRESS := "builtin://decompress_rle"

  /** The repository holds the run-length codec under its built-in names. */
  ghost predicate HasRle(repo: Repository) {
    && COMPRESS in repo && DECOMPRESS in repo
    && (forall x, args :: repo[COMPRESS](x, args) == Success(Rle.Greedy(x)))
    && (forall x, args :: repo[DECOMPRESS](x, args) ==
          if |x| % 2 == 0 then Success(Rle.Decoded(x)) else Failed(Rle.ODD_LENGTH))
  }

  /** Compressing and then decompressing is a pipeline that changes nothing. */
  lemma CompressThenDecompress(first: Stage, second: Stage, input: seq<byte>, repo: Repository)
    requires HasRle(repo) && Chain([first, second])
    requires first.operation == COMPRESS && second.operation == DECOMPRESS
    ensures AllSucceed([first, second], input, repo)
    ensures Output([first, second], 1, input, repo) == Some(input)
  {
    var stages := [first, second];
    assert Output(stages, 0, input, repo) == Some(Rle.Greedy(input));
    Rle.Lossless(input);
    assert stages[1].inputStage == 0;
    assert Argument(stages, 1, input, repo) == Some(Rle.Greedy(input));
  }
}
