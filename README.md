# Leakage models of a power side-channel simulator

This project models the leakage-model core of a side-channel leakage
estimator. The estimator turns a simulated instruction-level execution
trace into one synthetic power sample per clock cycle. The project proves
properties of that model in Dafny.

Two models are covered:

- **`Model_Power`**. These are the bit-level helpers it uses:
  - `calculate_interactions`: a double loop that counts the pairs of set
    bits of a `std::bitset<32>`.
  - `calculate_bitflips`: a loop that builds the bit-flip vector of two
    bitsets.

  Also covered: the per-instruction record `Assembly_Instruction_Power`,
  the cross-instruction record `Instruction_Terms_Interactions`,
  `get_instruction_terms` (the record for one cycle), `Get_Interaction_Terms`,
  and the constructor's check of the required interaction terms.
- **`Model_Hamming_Weight`**. `Generate_Traces` appends one sample per
  cycle. The sample is 0 when the Execute stage holds a stall or flush.
  Otherwise it is the Hamming weight of operand 1 of the instruction being
  executed. The model's required term set is empty.

Files:

- `bitsets.dfy` (module `Bitsets`): unsigned values and `std::bitset<32>`.
  A bitset is 32 booleans, index 0 being the least significant bit. It also
  holds Hamming weight, exclusive or (`Xor`, defined digit by binary digit)
  and C(k, 2), with their lemmas.
- `collaborators.dfy` (module `Collaborators`): the borrowed collaborators,
  as immutable records. The execution accessor is one Execute-stage state per
  cycle: normal or not, the instruction, and resolved operands 1 and 2. The
  coefficient source is reduced to the set of terms it supplies. Also here:
  the error kinds and `Check_Interaction_Terms`.
- `model_power.dfy` (module `ModelPower`): the two loops as methods proved
  against closed forms, the two records as functions, and the model's
  construction and per-cycle lookup.
- `model_hamming_weight.dfy` (module `ModelHammingWeight`): `Generate_Traces`
  as a method with a loop. It is proved equal to the specification function
  `Traces`.

Points where the model follows the code rather than the design description:

- `Instruction_Terms_Interactions` computes both flip vectors from the same
  pair: operand 1 of the first instruction against operand 2 of the second.
  The model keeps this. `NewInstructionTermsInteractions` proves that the
  two flip fields, and so their interaction counts, are always equal.
- The design calls the argument of the pair count a 32-bit value. The code
  passes a `std::size_t` to `Assembly_Instruction_Power` and builds a
  `std::bitset<32>` from it. Only the low 32 bits count, and
  `Bitsets.ToBitsetLow32` proves this.
- `calculate_interactions` adds `p_term[i] * p_term[j]`, a product of two
  bits. The model keeps the product. Its loop invariant shows that the
  product counts the pairs where both bits are set.

## Model

| member | source | states |
|---|---|---|
| `ModelPower.CalculateInteractions` | src/Model_Power.hpp:61-77 | the double loop over 0 <= i < j < 32 adding `term[i] * term[j]` returns C(popcount, 2) = popcount·(popcount−1)/2; the result is at most 496, and it is 0 exactly when at most one bit is set |
| `ModelPower.PairsBeforeClosedForm` | src/Model_Power.hpp:65-75 | after the first n outer iterations, the count is C(set bits below n, 2) plus (set bits below n)·(set bits at or above n) |
| `ModelPower.PairsWithCount` | src/Model_Power.hpp:69-74 | the inner loop for row i counts the set bits after position i when bit i is set, and adds nothing otherwise |
| `ModelPower.BitInteractions` | src/Model_Power.hpp:63-76 | the pair count of a bitset never exceeds 496 and is 0 exactly when the popcount is at most 1 |
| `ModelPower.BitInteractionsExtremes` | src/Model_Power.hpp:63-76 | the pair count is 0 for the bitset of 0 and 496 for the bitset of 0xFFFFFFFF |
| `ModelPower.CalculateBitflips` | src/Model_Power.hpp:148-159 | bit i of the result is set exactly when the inputs differ at bit i; the value of the result is the XOR of the inputs' values, in either order; it is 0 when the inputs are equal and 0xFFFFFFFF when one is the bitwise complement of the other |
| `Bitsets.XorBit` | src/Model_Power.hpp:153-157 | bit i of `Xor(x, y)` is set exactly when bits i of x and y differ |
| `Bitsets.XorSymmetric` | src/Model_Power.hpp:153-157 | the bit-flip value is symmetric in its two arguments |
| `Bitsets.XorSelf` | src/Model_Power.hpp:153-157 | the bit-flip value of a value with itself is 0 |
| `Bitsets.XorComplement` | src/Model_Power.hpp:153-157 | a value below 2^n and its n-bit complement flip all n bits (2^n − 1) |
| `Bitsets.XorBound` | src/Model_Power.hpp:152-158 | the XOR of two values below 2^n is below 2^n, so a flip of 32-bit values fits in 32 bits |
| `Bitsets.ValueOfDiffer` | src/Model_Power.hpp:152-158 | building the flip vector bit by bit gives, as an unsigned value, the XOR of the two values |
| `Bitsets.ToBitsetLow32` | src/Model_Power.hpp:97-103 | a `std::bitset<32>` built from a `std::size_t` depends only on the value's low 32 bits |
| `Bitsets.ValueOfToBitset` | src/Model_Power.hpp:129-132 | the unsigned value of the bitset built from v is v mod 2^32 |
| `ModelPower.FlipOfValues` | src/Model_Power.hpp:129-132 | the flip vector of two 32-bit operand values is the bitset of their XOR, its value is that XOR, and bit i is set exactly when the operands differ at bit i |
| `ModelPower.NewAssemblyInstructionPower` | src/Model_Power.hpp:94-115 | the record keeps the instruction and each operand truncated to `std::uint32_t`; each operand's interaction count is C(Hamming weight of its low 32 bits, 2), at most 496 |
| `ModelPower.NewInstructionTermsInteractions` | src/Model_Power.hpp:122-145 | flip vector 1 marks the bits where instruction 1's operand 1 and instruction 2's operand 2 differ, and its value is their XOR; its count is C(Hamming weight of that XOR, 2); flip vector 2 and its count equal flip vector 1 and its count |
| `ModelPower.GetInstructionTerms` | src/Model_Power.hpp:174-195 | a cycle outside the trace is a trace-corruption error; a stall or flush yields operands 0 and 0 with interaction counts 0; a normal cycle yields the truncated operands 1 and 2 with their interaction counts; the record keeps the Execute-stage instruction |
| `ModelPower.NewModelPower` | src/Model_Power.hpp:217-243 | construction succeeds exactly when the coefficients supply every required term, and otherwise fails with a configuration error and yields no model |
| `ModelPower.ConstructedModelHasTerms` | src/Model_Power.hpp:237-242 | every model that was constructed has all of its required terms supplied |
| `ModelPower.GetInteractionTerms` | src/Model_Power.hpp:162-172 | every power model returns the same fixed set of required terms |
| `Bitsets.HammingWeight` | src/Model_Hamming_Weight.cpp:94-97 | the Hamming weight of a value is at most 32 |
| `Bitsets.HammingWeightBounds` | src/Model_Hamming_Weight.cpp:94-97 | the Hamming weight is 0 exactly when the low 32 bits are all clear, and 32 exactly when they are all set |
| `Bitsets.HammingWeightExamples` | src/Model_Hamming_Weight.cpp:94-97 | the Hamming weights of 0b1011, 0b0110, 0b1111, 0 and 0xFFFFFFFF are 3, 2, 4, 0 and 32 |
| `ModelHammingWeight.GetInteractionTerms` | src/Model_Hamming_Weight.cpp:38-41 | the required term set is empty, so every coefficient source passes the term check |
| `ModelHammingWeight.Sample` | src/Model_Hamming_Weight.cpp:54-97 | every sample lies between 0 and 32 |
| `ModelHammingWeight.Traces` | src/Model_Hamming_Weight.cpp:51-98 | the trace has exactly one sample per cycle |
| `ModelHammingWeight.GenerateTraces` | src/Model_Hamming_Weight.cpp:46-106 | the loop appends one sample per cycle: 0 for each cycle whose Execute stage is not normal, otherwise the Hamming weight of operand 1 at that cycle. The result equals `Traces(execution)`, so it is determined by the execution alone and two calls give the same trace |
| `ModelHammingWeight.TracesAppend` | src/Model_Hamming_Weight.cpp:51-98 | samples come in cycle order: the trace of two consecutive runs of cycles is the first run's trace followed by the second's |
| `ModelHammingWeight.TracesLocal` | src/Model_Hamming_Weight.cpp:52-97 | sample i depends only on the state of cycle i |
| `ModelHammingWeight.ThreeCycleExample` | src/Model_Hamming_Weight.cpp:52-98 | a stall, then operand 1 = 0b0110, then operand 1 = 0b1111 give the trace [0, 2, 4] |

## Left out

- `calculate_term`: left out because its arithmetic is floating point. It
  multiplies a `double` by each coefficient and accumulates into an `int`
  that truncates at each step. Coefficient vectors are left out with it.
  The coefficient source is reduced to the set of term names it supplies.
- `Model_Power::Generate_Traces`: only its declaration is part of this
  model, not its body. The pairing of cycles that feeds
  `Instruction_Terms_Interactions` is therefore not modelled.
- The definition of `Model_Power::m_required_interaction_terms` is not part
  of this model. `ModelPower.RequiredInteractionTerms` is a fixed set whose
  contents are unspecified.
- `Check_Interaction_Terms`: its body is in `Model.hpp`, which is not part
  of this model. `Collaborators.CheckInteractionTerms` takes the meaning the
  design gives it: every required term is supplied by the coefficient source.
- Self-registration is left out because it is static-initialisation plumbing
  with no algorithm. This covers `Model_Factory_Register`, `m_is_registered`
  and `Get_Name`.
- The internals of the execution accessor are not part of this model:
  register lookup, operand resolution, and pipeline stages other than
  Execute.
  - The accessor is an immutable record of already resolved operand values.
  - An unresolvable operand reference is not modelled.
  - A cycle outside the trace is modelled as a trace-corruption error in
    `ModelPower.GetInstructionTerms`. This follows the design's error policy.
    The code leaves that case to the accessor.
- `hamming_weight` is not part of this model. `Bitsets.HammingWeight` is the
  number of set bits among the value's low 32 bits.
- Samples are `real`. The source stores `float`, which represents every
  Hamming weight (0 to 32) exactly.
- `ModelPower.NewAssemblyInstructionPower`: the C++ constructor never
  initialises `Operand_1` and `Operand_2`. The model stores the resolved
  operand values in them, truncated to `std::uint32_t`.
- The opcode and operand moves in the `Assembly_Instruction_Power`
  initialiser are ownership details and are left out.
  - The record keeps the instruction as a value.
  - The field names used there do not match the declared fields.
- The commented-out debug printing is left out.
