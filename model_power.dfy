/**
  The power leakage model (`Model_Power`): its bit-interaction helpers, the
  per-instruction and cross-instruction records it keeps, the lookup of
  the record for one cycle, and its construction-time term check.
*/
module ModelPower {
  import opened Bitsets
  import opened Collaborators

  // ---------------------------------------------------------------------
  // Instruction_Terms_Helper::calculate_interactions

  /**
    Pairs (i, k) with i < k < j and bits i and k both set: row i of the
    double loop, up to column j.
  */
  function PairsWith(term: seq<bool>, i: nat, j: nat): nat
    requires i < j <= |term|
    decreases j
  {
    if j == i + 1 then 0
    else PairsWith(term, i, j - 1) + (if term[i] && term[j - 1] then 1 else 0)
  }

  /** Pairs i < k with both bits set and i < n: the first n rows of the double loop. */
  function PairsBefore(term: seq<bool>, n: nat): nat
    requires n <= |term|
  {
    if n == 0 then 0 else PairsBefore(term, n - 1) + PairsWith(term, n - 1, |term|)
  }

  /** Row i counts the set bits after position i when bit i is set, and nothing otherwise. */
  lemma {:induction false} PairsWithCount(term: seq<bool>, i: nat, j: nat)
    requires i < j <= |term|
    ensures PairsWith(term, i, j) == if term[i] then CountIn(term, i + 1, j) else 0
    decreases j
  {
    if j > i + 1 {
      PairsWithCount(term, i, j - 1);
    }
  }

  /** The arithmetic of one row: adding row n to the closed form for n rows. */
  lemma PairsStep(c: nat, e: nat, bitSet: bool)
    ensures var b := if bitSet then 1 else 0;
      Choose2(c) + c * (b + e) + b * e == Choose2(c + b) + (c + b) * e
  {
    if bitSet {
      assert c * (1 + e) == c + c * e;
      assert (c + 1) * e == c * e + e;
      Choose2Succ(c);
    }
  }

  /**
    The first n rows count the pairs inside the first n bits plus the pairs
    with one bit below n and one at or above n.
  */
  lemma {:induction false} PairsBeforeClosedForm(term: seq<bool>, n: nat)
    requires n <= |term|
    ensures PairsBefore(term, n)
         == Choose2(CountIn(term, 0, n)) + CountIn(term, 0, n) * CountIn(term, n, |term|)
  {
    if n > 0 {
      var len := |term|;
      PairsBeforeClosedForm(term, n - 1);
      PairsWithCount(term, n - 1, len);
      CountInSplit(term, n - 1, n, len);
      var c, e := CountIn(term, 0, n - 1), CountIn(term, n, len);
      var b := if term[n - 1] then 1 else 0;
      assert CountIn(term, n - 1, n) == b;
      assert CountIn(term, 0, n) == c + b;
      assert PairsWith(term, n - 1, len) == b * e;
      PairsStep(c, e, term[n - 1]);
    }
  }

  /** Number of set-bit pairs of a bitset: C(popcount, 2). */
  function BitInteractions(term: Bitset): (r: nat)
    ensures r <= 496
    ensures r == 0 <==> Popcount(term) <= 1
  {
    CountInBound(term, 0, 32);
    Choose2Bounds(Popcount(term));
    Choose2(Popcount(term))
  }

  /**
    `calculate_interactions`: the double loop over i < j < 32 adding
    `term[i] * term[j]` counts the unordered pairs of set bits.
  */
  method CalculateInteractions(term: Bitset) returns (result: nat)
    ensures result == Choose2(Popcount(term))
    ensures result == BitInteractions(term)
    ensures result <= 496
    ensures result == 0 <==> Popcount(term) <= 1
  {
    result := 0;
    for term1 := 0 to 32
      invariant result == PairsBefore(term, term1)
    {
      for term2 := term1 + 1 to 32
        invariant result == PairsBefore(term, term1) + PairsWith(term, term1, term2)
      {
        result := result + (if term[term1] then 1 else 0) * (if term[term2] then 1 else 0);
      }
    }
    PairsBeforeClosedForm(term, 32);
  }

  /** Interactions of the bitset built from a value, for the two extreme values. */
  lemma BitInteractionsExtremes()
    ensures BitInteractions(ToBitset(0)) == 0
    ensures BitInteractions(ToBitset(0xFFFF_FFFF)) == 496
  {
    HammingWeightOfZero();
    HammingWeightOfAllOnes();
    Choose2Bounds(32);
  }

  // ---------------------------------------------------------------------
  // Instruction_Terms_Interactions::calculate_bitflips

  /**
    `calculate_bitflips`: bit i of the result is set when the two inputs
    differ at bit i, which makes the result their exclusive or.
  */
  method CalculateBitflips(operand1: Bitset, operand2: Bitset) returns (result: Bitset)
    ensures forall i | 0 <= i < 32 :: result[i] == (operand1[i] != operand2[i])
    ensures Value(result) == Xor(Value(operand1), Value(operand2))
    ensures Value(result) == Xor(Value(operand2), Value(operand1))
    ensures operand1 == operand2 ==> Value(result) == 0
    ensures (forall i | 0 <= i < 32 :: operand2[i] == !operand1[i]) ==> Value(result) == 0xFFFF_FFFF
  {
    result := seq(32, _ => false);
    for i := 0 to 32
      invariant forall k | 0 <= k < i :: result[k] == (operand1[k] != operand2[k])
    {
      result := result[i := operand1[i] != operand2[i]];
    }
    assert result == Differ(operand1, operand2);
    ValueOfDiffer(operand1, operand2);
    XorSymmetric(Value(operand1), Value(operand2));
    if operand1 == operand2 {
      XorSelf(Value(operand1));
    }
    if forall i | 0 <= i < 32 :: operand2[i] == !operand1[i] {
      ValueAllSet(result);
      Pow2Of32();
    }
  }

  // ---------------------------------------------------------------------
  // Records

  /**
    `Assembly_Instruction_Power`: an instruction with its two resolved
    operand values (as `std::uint32_t`) and their bit-interaction counts.
  */
  datatype AssemblyInstructionPower = AssemblyInstructionPower(
    instruction: Instruction,
    operand1: Uint32,
    operand2: Uint32,
    operand1BitInteractions: nat,
    operand2BitInteractions: nat)

  /**
    The `Assembly_Instruction_Power` constructor: the operands arrive as
    `std::size_t`; the stored values and the bitsets whose interactions are
    counted keep their low 32 bits.
  */
  function NewAssemblyInstructionPower(instruction: Instruction, operand1: SizeT, operand2: SizeT)
    : (r: AssemblyInstructionPower)
    ensures r.instruction == instruction
    ensures r.operand1 == operand1 % Word32 && r.operand2 == operand2 % Word32
    ensures r.operand1BitInteractions == Choose2(HammingWeight(operand1 % Word32))
    ensures r.operand2BitInteractions == Choose2(HammingWeight(operand2 % Word32))
    ensures r.operand1BitInteractions <= 496 && r.operand2BitInteractions <= 496
  {
    ToBitsetLow32(operand1);
    ToBitsetLow32(operand2);
    AssemblyInstructionPower(
      instruction,
      operand1 % Word32,
      operand2 % Word32,
      BitInteractions(ToBitset(operand1)),
      BitInteractions(ToBitset(operand2)))
  }

  /**
    `Instruction_Terms_Interactions`: the bit-flip vectors between two
    instructions and their bit-interaction counts.
  */
  datatype InstructionTermsInteractions = InstructionTermsInteractions(
    operand1BitFlip: Bitset,
    operand2BitFlip: Bitset,
    bitFlip1BitInteractions: nat,
    bitFlip2BitInteractions: nat)

  /** The flip vector of two 32-bit values is the bitset of their exclusive or. */
  lemma FlipOfValues(x: Uint32, y: Uint32)
    ensures Differ(ToBitset(x), ToBitset(y)) == ToBitset(Xor(x, y))
    ensures Value(Differ(ToBitset(x), ToBitset(y))) == Xor(x, y)
    ensures forall i | 0 <= i < 32 :: Differ(ToBitset(x), ToBitset(y))[i] == (Bit(x, i) != Bit(y, i))
  {
    var a, b := ToBitset(x), ToBitset(y);
    ValueOfDiffer(a, b);
    ValueOfToBitset(x);
    ValueOfToBitset(y);
    assert Value(a) == x && Value(b) == y;
    DifferOfToBitset(x, y);
  }

  /**
    The `Instruction_Terms_Interactions` constructor. Both flip vectors are
    computed from the same pair, operand 1 of the first instruction against
    operand 2 of the second, so the two fields always agree.
  */
  function NewInstructionTermsInteractions(
    instruction1: AssemblyInstructionPower,
    instruction2: AssemblyInstructionPower)
    : (r: InstructionTermsInteractions)
    ensures forall i | 0 <= i < 32 ::
      r.operand1BitFlip[i] == (Bit(instruction1.operand1, i) != Bit(instruction2.operand2, i))
    ensures Value(r.operand1BitFlip) == Xor(instruction1.operand1, instruction2.operand2)
    ensures r.bitFlip1BitInteractions
         == Choose2(HammingWeight(Xor(instruction1.operand1, instruction2.operand2)))
    ensures r.operand2BitFlip == r.operand1BitFlip
    ensures r.bitFlip2BitInteractions == r.bitFlip1BitInteractions
  {
    var a, b := ToBitset(instruction1.operand1), ToBitset(instruction2.operand2);
    var flip1 := Differ(a, b);
    var flip2 := Differ(a, b);
    FlipOfValues(instruction1.operand1, instruction2.operand2);
    InstructionTermsInteractions(flip1, flip2, BitInteractions(flip1), BitInteractions(flip2))
  }

  // ---------------------------------------------------------------------
  // Model_Power

  /**
    The static `m_required_interaction_terms` of `Model_Power`. Its
    definition is not part of this model: it is a fixed set whose contents
    are left unspecified.
  */
  const RequiredInteractionTerms: set<string>

  /** A constructed power model: the collaborators it borrows. */
  datatype ModelPower = ModelPower(execution: Execution, coefficients: Coefficients)

  /**
    The `Model_Power` constructor: it raises a configuration error, and
    yields no model, when the coefficients do not supply the required terms.
  */
  function NewModelPower(execution: Execution, coefficients: Coefficients): (r: Result<ModelPower>)
    ensures r.Success? <==> CheckInteractionTerms(RequiredInteractionTerms, coefficients)
    ensures r.Failure? ==> r.error == ConfigurationError
    ensures r.Success? ==> r.value.execution == execution && r.value.coefficients == coefficients
  {
    if !CheckInteractionTerms(RequiredInteractionTerms, coefficients) then Failure(ConfigurationError)
    else Success(ModelPower(execution, coefficients))
  }

  /** `Get_Interaction_Terms`: the same fixed set for every power model. */
  function GetInteractionTerms(model: ModelPower): (r: set<string>)
    ensures r == RequiredInteractionTerms
  {
    RequiredInteractionTerms
  }

  /** Every successfully constructed power model has all its terms supplied. */
  lemma ConstructedModelHasTerms(execution: Execution, coefficients: Coefficients)
    requires NewModelPower(execution, coefficients).Success?
    ensures CheckInteractionTerms(
      GetInteractionTerms(NewModelPower(execution, coefficients).value), coefficients)
  {
  }

  /**
    `get_instruction_terms`: the record for the instruction in the Execute
    stage at `cycle`. A stall or flush is recorded with operands 0 and 0; a
    cycle outside the trace is a trace corruption error.
  */
  function GetInstructionTerms(model: ModelPower, cycle: nat): (r: Result<AssemblyInstructionPower>)
    ensures r.Failure? <==> cycle >= model.execution.CycleCount()
    ensures r.Failure? ==> r.error == TraceCorruption
    ensures r.Success? ==> r.value.instruction == model.execution.cycles[cycle].executeInstruction
    ensures r.Success? && !model.execution.cycles[cycle].executeNormal ==>
      && r.value.operand1 == 0 && r.value.operand2 == 0
      && r.value.operand1BitInteractions == 0 && r.value.operand2BitInteractions == 0
    ensures r.Success? && model.execution.cycles[cycle].executeNormal ==>
      var state := model.execution.cycles[cycle];
      && r.value.operand1 == state.operand1 % Word32
      && r.value.operand2 == state.operand2 % Word32
      && r.value.operand1BitInteractions == Choose2(HammingWeight(state.operand1 % Word32))
      && r.value.operand2BitInteractions == Choose2(HammingWeight(state.operand2 % Word32))
  {
    if cycle >= model.execution.CycleCount() then Failure(TraceCorruption)
    else
      var state := model.execution.cycles[cycle];
      if !state.executeNormal then
        HammingWeightOfZero();
        Success(NewAssemblyInstructionPower(state.executeInstruction, 0, 0))
      else
        Success(NewAssemblyInstructionPower(state.executeInstruction, state.operand1, state.operand2))
  }
}
