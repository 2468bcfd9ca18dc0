/**
  The read-only collaborators a leakage model borrows: the execution trace
  accessor (per-cycle pipeline state) and the coefficient source, together
  with the two fatal error kinds of the leakage models.

  Only the Execute pipeline stage is consulted by the models, so a cycle
  records the state of that stage alone. Operand values are already
  resolved (register contents or immediate literal) by the accessor.
*/
module Collaborators {
  import opened Bitsets

  /** An assembly instruction: its opcode and its operand descriptors. */
  datatype Instruction = Instruction(opcode: string, operands: seq<string>)

  /**
    The Execute stage at one clock cycle: whether it holds a real
    instruction (`false` for a stall or flush), the instruction it holds,
    and the resolved values of that instruction's operands 1 and 2.
  */
  datatype CycleState = CycleState(
    executeNormal: bool,
    executeInstruction: Instruction,
    operand1: SizeT,
    operand2: SizeT)

  /** The execution trace accessor: one state per clock cycle, in cycle order. */
  datatype Execution = Execution(cycles: seq<CycleState>)
  {
    /** `Get_Cycle_Count`. */
    function CycleCount(): nat
    {
      |cycles|
    }
  }

  /** The coefficient source, reduced to the interaction terms it supplies. */
  datatype Coefficients = Coefficients(providedTerms: set<string>)

  /** The fatal errors a model can raise. */
  datatype Error =
    | ConfigurationError  // required interaction terms not supplied
    | TraceCorruption     // cycle index outside the trace

  datatype Result<+T> = Success(value: T) | Failure(error: Error)

  /**
    `Check_Interaction_Terms`: the coefficient source supplies every
    interaction term the model requires.
  */
  predicate CheckInteractionTerms(required: set<string>, coefficients: Coefficients)
  {
    required <= coefficients.providedTerms
  }

}
