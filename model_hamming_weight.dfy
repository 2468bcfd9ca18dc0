/**
  The Hamming-weight leakage model (`Model_Hamming_Weight`): one sample per
  clock cycle, 0 for a stall or flush in the Execute stage and otherwise the
  Hamming weight of the first operand of the instruction being executed.
*/
module ModelHammingWeight {
  import opened Bitsets
  import opened Collaborators

  /** `m_required_interaction_terms`: this model needs no coefficients. */
  function GetInteractionTerms(): (r: set<string>)
    ensures r == {}
    ensures forall coefficients: Coefficients :: CheckInteractionTerms(r, coefficients)
  {
    {}
  }

  /** The sample of one cycle. */
  function Sample(state: CycleState): (s: real)
    ensures 0.0 <= s <= 32.0
  {
    if !state.executeNormal then 0.0 else HammingWeight(state.operand1) as real
  }

  /** The trace the model produces: the samples of the cycles, in cycle order. */
  function Traces(execution: Execution): (t: seq<real>)
    ensures |t| == execution.CycleCount()
  {
    seq(|execution.cycles|, i requires 0 <= i < |execution.cycles| => Sample(execution.cycles[i]))
  }

  /**
    `Generate_Traces`: appends one sample per cycle, a 0 for every cycle whose
    Execute stage is not normal.
  */
  method GenerateTraces(execution: Execution) returns (traces: seq<real>)
    ensures traces == Traces(execution)
    ensures |traces| == execution.CycleCount()
    ensures forall i | 0 <= i < |traces| && !execution.cycles[i].executeNormal :: traces[i] == 0.0
    ensures forall i | 0 <= i < |traces| && execution.cycles[i].executeNormal ::
      traces[i] == HammingWeight(execution.cycles[i].operand1) as real
  {
    traces := [];
    for i := 0 to execution.CycleCount()
      invariant traces == Traces(Execution(execution.cycles[..i]))
    {
      assert execution.cycles[..i + 1] == execution.cycles[..i] + [execution.cycles[i]];
      if !execution.cycles[i].executeNormal {
        traces := traces + [0.0];
        continue;
      }
      traces := traces + [HammingWeight(execution.cycles[i].operand1) as real];
    }
    assert execution.cycles[..|execution.cycles|] == execution.cycles;
  }

  /** The trace of two consecutive runs of cycles is the first trace followed by the second. */
  lemma TracesAppend(first: seq<CycleState>, second: seq<CycleState>)
    ensures Traces(Execution(first + second)) == Traces(Execution(first)) + Traces(Execution(second))
  {
    var joined := Traces(Execution(first + second));
    var parts := Traces(Execution(first)) + Traces(Execution(second));
    forall i | 0 <= i < |joined|
      ensures joined[i] == parts[i]
    {
      if i >= |first| {
        assert (first + second)[i] == second[i - |first|];
      }
    }
  }

  /** Sample i depends on cycle i alone. */
  lemma TracesLocal(execution1: Execution, execution2: Execution, i: nat)
    requires i < execution1.CycleCount() && i < execution2.CycleCount()
    requires execution1.cycles[i] == execution2.cycles[i]
    ensures Traces(execution1)[i] == Traces(execution2)[i]
  {
  }

  /**
    Three cycles: a stall, then operand 1 = 0b0110, then operand 1 = 0b1111,
    give the samples 0, 2 and 4.
  */
  lemma ThreeCycleExample(stall: Instruction, instruction: Instruction)
    ensures Traces(Execution([
      CycleState(false, stall, 0, 0),
      CycleState(true, instruction, 0x06, 0),
      CycleState(true, instruction, 0x0F, 0)])) == [0.0, 2.0, 4.0]
  {
    HammingWeightExamples();
  }
}
