# O-MVLL obfuscation passes, modelled in Dafny

O-MVLL is an LLVM plugin that obfuscates code during compilation. Each of its
passes walks the module's functions, asks a user-written Python
configuration (`PyObfuscationConfig`) whether and how to protect each
function, string, constant or field access, and rewrites the LLVM IR
accordingly. The rewriting itself depends on LLVM; every pass, though, rests
on a small rule that can be stated without it: a bit-vector identity, an
encoding and its inverse, a dispatcher that reaches the same successor, a
selection of blocks by random draws, a pair of address shares that add back
up. This project models those rules and the passes around them, on plain
datatypes for blocks, instructions, globals and functions, and proves what
each pass promises about the IR it produces.

The modules follow the source tree:

- `Wrappers` (wrappers.dfy): `Option` and the `Result` of a pass, which is a
  value or a fatal error (`fatalError` never returns).
- `Words` (words.dfy): `w`-bit words as naturals modulo `2^w`, the bitwise
  operations bit by bit, and LLVM's `getLimitedValue`.
- `Random` (random.dfy): the module's random number generator as an oracle
  of draws within the bounds each distribution is given.
- `IR` (ir.dfy): the small pieces of IR the passes share.
- `ObfMetadata` (metadata.dfy): the `obf` metadata attached to
  instructions, its serialisation and its lookups (src/passes/Metadata.cpp).
- `PyObfuscationConfig` (py_config.dfy): how each user hook's Python return
  value becomes a typed option (src/core/python/PyObfuscationConfig.cpp).
- `Utils` (utils.dfy): `TypeIDStr` and the function-order shuffle
  (src/core/utils.cpp).
- `ArithmeticOpts`, `Arithmetic` (arithmetic_opt.dfy, arithmetic.dfy): the
  mixed boolean-arithmetic rewrites, proved for every word width, and the
  round selection of the pass.
- `OpaqueConstantsOpts`, `GenOpaque`, `OpaqueConstants`
  (opaque_constants_opt.dfy, gen_opaque.dfy, opaque_constants.dfy): which
  constants are protected and how an opaque 0, 1 or constant rebuilds its
  value.
- `OpaqueFieldAccess` (opaque_field_access.dfy): struct, buffer and
  constant-expression accesses rewritten to byte offsets that denote the
  same address.
- `Routines`, `StringEncoding`, `StringsEncodingLegacy` (routines.dfy,
  string_encoding.dfy, strings_encoding_legacy.dfy): the two generations of
  string encoding, their routine pairs and their bookkeeping of encoded
  globals.
- `CfgFlattening`, `FlatteningLegacy` (cfg_flattening.dfy,
  flattening_legacy.dfy): the two generations of control-flow flattening,
  with the encoded case values, the unique-id draw loop and the proof that
  every rewritten terminator makes the dispatcher reach the original
  successor.
- `IndirectCall`, `IndirectBranch`, `BreakControlFlow`
  (indirect_call.dfy, indirect_branch.dfy, break_cfg.dfy): calls through
  address shares, branches through a shuffled jump table, and the padded
  JIT prologue with its trampoline.
- `BlockSelection`, `BasicBlockDuplicate`, `FunctionOutline`
  (block_selection.dfy, basic_block_duplicate.dfy, function_outline.dfy):
  the `rng % 100 < P` block selection shared by block duplication and
  function outlining, and what those two passes do to the selected blocks.

Random draws, the user's hooks and the results of LLVM utilities the
passes call (CodeExtractor's verdicts, the JIT's bytes) are parameters of
the model.

Where O-MVLL's own documentation of a pass and its code differ, the model
follows the code. In particular, an exception raised by a user hook is a fatal error
(src/core/python/PyObfuscationConfig.cpp), not a verdict to skip.

## Model

| member | source | states |
|---|---|---|
| ArithmeticOpts.Default | src/include/omvll/passes/arithmetic/ArithmeticOpt.hpp:9-14 | the default option applies `DEFAULT_NB_ROUND` (3) rounds and is truthy |
| ArithmeticOpts.FromRounds | src/include/omvll/passes/arithmetic/ArithmeticOpt.hpp:11-13 | the round count is kept as given; the option is truthy exactly when it is non-zero |
| ArithmeticOpts.FromBool | src/include/omvll/passes/arithmetic/ArithmeticOpt.hpp:12-13 | `true` gives the default option, `false` zero rounds; truthiness equals the flag |
| OpaqueConstantsOpts.SetOf | src/include/omvll/passes/opaque-constants/OpaqueConstantsOpt.hpp:26-30 | the set option holds exactly the listed values, duplicates collapsed |
| OpaqueConstantsOpts.SetTruthiness | src/include/omvll/passes/opaque-constants/OpaqueConstantsOpt.hpp:31-32 | a set option is truthy exactly when the list was non-empty, and `empty()` is its negation |
| ObfMetadata.Serialize | src/passes/Metadata.cpp:19-35 | a tuple whose first operand is the kind as an i32 constant and which has a second operand exactly when the annotation has a value |
| ObfMetadata.Deserialize | src/passes/Metadata.cpp:37-72 | anything but a tuple starting with an integer constant decodes to `MetaObf::None`; a value is read only from a second integer operand; both are clamped to `uint64_t` |
| ObfMetadata.DeserializeSerialize | src/passes/Metadata.cpp:19-72 | reading back a written annotation gives it unchanged (round trip) |
| ObfMetadata.SerializeAll | src/passes/Metadata.cpp:74-82 | each tuple written for a list decodes to its entry |
| ObfMetadata.AddMetadata | src/passes/Metadata.cpp:74-82 | the "obf" node is replaced by one serialised tuple per entry, in order |
| ObfMetadata.Annotations | src/passes/Metadata.cpp:86-97 | no `None` entry is returned; an instruction without a node has no annotations |
| ObfMetadata.GetObfMetadata | src/passes/Metadata.cpp:86-97 | the loop returns exactly the decoded non-`None` entries in order |
| ObfMetadata.AnnotationsOfAdded | src/passes/Metadata.cpp:74-97 | annotations written by `addMetadata` read back as the non-`None` entries, in order |
| ObfMetadata.FirstOfKind | src/passes/Metadata.cpp:104-109 | the position found has the kind and no earlier one has it; none is found only when no entry has it |
| ObfMetadata.FindObf | src/passes/Metadata.cpp:99-111 | a found annotation has the requested kind |
| ObfMetadata.GetObf | src/passes/Metadata.cpp:99-111 | the scan returns the first entry of the kind, and returns one exactly when some operand decodes to it |
| ObfMetadata.HasObfExactly | src/passes/Metadata.cpp:114-117 | `hasObf` holds exactly when the kind is not `NONE` and some operand decodes to it |
| ObfMetadata.FindObfOfAdded | src/passes/Metadata.cpp:74-111 | after `addMetadata`, `getObf` returns the first written entry of the kind |
| BlockSelection.Generator.constructor | src/passes/basic-block-duplicate/BasicBlockDuplicate.cpp:175 | a fresh module generator has handed out no draw |
| BlockSelection.Generator.Draw | src/passes/basic-block-duplicate/BasicBlockDuplicate.cpp:38 | the next raw draw of the stream is returned and the generator advances by one |
| BlockSelection.DrawsFor | src/passes/basic-block-duplicate/BasicBlockDuplicate.cpp:38-45 | at most one draw is spent per block |
| BlockSelection.PickedMembers | src/passes/basic-block-duplicate/BasicBlockDuplicate.cpp:37-45 | a block is picked exactly when it may be transformed and its own draw, taken after those of the earlier eligible blocks, is below the probability modulo 100 |
| BlockSelection.PickedIncreasing | src/passes/basic-block-duplicate/BasicBlockDuplicate.cpp:39-45 | picked blocks come in layout order, each once |
| BlockSelection.PickedExtremes | src/passes/basic-block-duplicate/BasicBlockDuplicate.cpp:38 | a probability of 100 or more picks every eligible block, 0 picks none |
| Words.LimitedValue | src/passes/Metadata.cpp:60-67 | `getLimitedValue`: the value when it is within the limit, never more than the limit |
| Arithmetic.MbaXor | src/passes/arithmetic/Arithmetic.cpp:43-48 | `(X \| Y) - (X & Y)` equals `X ^ Y` at every width |
| Arithmetic.MbaAdd | src/passes/arithmetic/Arithmetic.cpp:59-64 | `(X & Y) + (X \| Y)` equals `X + Y` modulo 2^w |
| Arithmetic.MbaAnd | src/passes/arithmetic/Arithmetic.cpp:75-80 | `(X + Y) - (X \| Y)` equals `X & Y` with wrapping arithmetic |
| Arithmetic.MbaOr | src/passes/arithmetic/Arithmetic.cpp:91-101 | `X + Y + 1 + (~X \| ~Y)`, wrapped after each addition, equals `X \| Y` |
| Arithmetic.MbaSub | src/passes/arithmetic/Arithmetic.cpp:112-118 | `(X ^ -Y) + 2 * (X & -Y)` equals `X - Y` modulo 2^w |
| Arithmetic.EvalNot | src/passes/arithmetic/Arithmetic.cpp:98-99 | `CreateNot` computes the bitwise complement of its operand |
| Arithmetic.EvalNegate | src/passes/arithmetic/Arithmetic.cpp:114-116 | `CreateNeg` computes the two's-complement negation of its operand |
| Arithmetic.EvalBin | src/passes/arithmetic/Arithmetic.cpp:151 | a binary node applies its opcode to its operands' words |
| Arithmetic.Rewrite | src/passes/arithmetic/Arithmetic.cpp:35-119 | the visitor's replacement of a supported `X op Y` is a well-formed binary expression of supported operations |
| Arithmetic.RewriteOrCorrect | src/passes/arithmetic/Arithmetic.cpp:83-102 | the `Or` rewrite evaluates to `X \| Y` for any operand expressions |
| Arithmetic.RewriteSubCorrect | src/passes/arithmetic/Arithmetic.cpp:104-119 | the `Sub` rewrite evaluates to `X - Y` modulo 2^w |
| Arithmetic.RewriteLogicCorrect | src/passes/arithmetic/Arithmetic.cpp:35-81 | the `Xor`, `Add` and `And` rewrites evaluate to the operation they replace |
| Arithmetic.RewriteCorrect | src/passes/arithmetic/Arithmetic.cpp:35-122 | every rewrite computes the operation it replaces, at every width and for all operands |
| Arithmetic.Round | src/passes/arithmetic/Arithmetic.cpp:212-227 | one visiting round keeps a body well formed |
| Arithmetic.RoundPreserves | src/passes/arithmetic/Arithmetic.cpp:209-231 | a round never changes the word a wrapper body computes |
| Arithmetic.WrapperBody | src/passes/arithmetic/Arithmetic.cpp:133-153 | `injectFunWrapper`'s body computes `op` on its two parameters |
| Arithmetic.ObfuscateWrapper | src/passes/arithmetic/Arithmetic.cpp:209-231 | after any number of rounds the wrapper still computes its operation, and at least one round changes the body |
| Arithmetic.NbRounds | src/passes/arithmetic/Arithmetic.cpp:163-171 | without an `OPAQUE_OP` annotation the function's round count applies; an annotation's value is a `uint64_t` |
| Arithmetic.AnnotationOverrides | src/passes/arithmetic/Arithmetic.cpp:164-168 | an `OPAQUE_OP` annotation decides the rounds whatever the function's option |
| Arithmetic.CountSelectedZero | src/passes/arithmetic/Arithmetic.cpp:173-197 | no wrapper is created exactly when no instruction has positive rounds and a supported opcode |
| Arithmetic.Outlining | src/passes/arithmetic/Arithmetic.cpp:160-201 | the first walk keeps the block's length and creates one wrapper per selected instruction |
| Arithmetic.OutliningKeeps | src/passes/arithmetic/Arithmetic.cpp:173-186 | instructions with zero rounds, not binary or unsupported stay where they were |
| Arithmetic.OutliningCalls | src/passes/arithmetic/Arithmetic.cpp:188-200 | each selected instruction is replaced by a call to a wrapper for its opcode and rounds |
| Arithmetic.OutliningOrdered | src/passes/arithmetic/Arithmetic.cpp:191-197 | later selected instructions call later wrappers, so each wrapper has one caller |
| Arithmetic.OutliningBodies | src/passes/arithmetic/Arithmetic.cpp:133-153 | every created wrapper computes `X op Y` for a supported opcode before its rounds |
| Arithmetic.OutlineSelected | src/passes/arithmetic/Arithmetic.cpp:160-201 | the first loop of `runOnBasicBlock` computes exactly the outlining |
| Arithmetic.ObfuscateWrappers | src/passes/arithmetic/Arithmetic.cpp:209-231 | the second loop keeps each wrapper's opcode and rounds, and every wrapper still computes its operation |
| Arithmetic.RunOnBasicBlock | src/passes/arithmetic/Arithmetic.cpp:155-236 | unselected instructions stay, selected ones call a wrapper computing the same operation, each wrapper has one caller, and the block reports a change exactly when something was selected |
| Arithmetic.RunOnBlocks | src/passes/arithmetic/Arithmetic.cpp:263-265 | every block of a function goes through `runOnBasicBlock`, and the function changes exactly when some block selects an instruction |
| Arithmetic.Run | src/passes/arithmetic/Arithmetic.cpp:238-271 | functions with a falsy option are left alone, the others have every block outlined, every wrapper computes its operation, and the module changes exactly when some selected function has a selected instruction |
| Utils.TypeIDStr | src/core/utils.cpp:64-87 | every type id is named by a string ending in "TyID" |
| Utils.TypeIDStrRoundTrip | src/core/utils.cpp:64-87 | the name gives the type id back, so no two ids share a name |
| Utils.NextFresh | src/core/utils.cpp:246-249 | the retry loop yields the first draw at or after the current one that no earlier function holds |
| Utils.AssignIds | src/core/utils.cpp:245-251 | one id per function, using no more draws than the stream has |
| Utils.AssignIdsDistinct | src/core/utils.cpp:245-251 | the ids are pairwise distinct (`Taken`) and each is a draw |
| Utils.AssignIdsInRange | src/core/utils.cpp:243-251 | every id lies in `[0, UINT32_MAX - 1]` when the draws do |
| Utils.AssignIdsPrefix | src/core/utils.cpp:242-251 | the generator is default-seeded, so a function's id depends only on the functions before it |
| Utils.DrawIds | src/core/utils.cpp:245-251 | the first loop of `shuffleFunctions` computes exactly those ids |
| Utils.SortByIds | src/core/utils.cpp:253-256 | the sort lists every function position once |
| Utils.SortByIdsSorted | src/core/utils.cpp:253-256 | with distinct ids the new order has strictly increasing ids and no repeats |
| Utils.ShuffledIsPermutation | src/core/utils.cpp:231-257 | `shuffleFunctions` is a permutation of the function list, ordered by increasing id |
| Utils.ShuffleFunctions | src/core/utils.cpp:231-257 | the method's result is the shuffled list, or none when the draws run out |
| PyObfuscationConfig.ObfuscateString | src/core/python/PyObfuscationConfig.cpp:19-61 | no override gives Skip; a raising override is fatal |
| PyObfuscationConfig.StringSkips | src/core/python/PyObfuscationConfig.cpp:19-61 | `obfuscate_string` skips exactly for a missing override, `None`, `False` or a returned skip option; an int, a list or another object is fatal |
| PyObfuscationConfig.FlagHookAnswer | src/core/python/PyObfuscationConfig.cpp:63-198 | for the five flag hooks, no override gives `false` and a raising override is fatal |
| PyObfuscationConfig.FlagOn | src/core/python/PyObfuscationConfig.cpp:63-198 | a flag hook turns its pass on exactly for `True` or a bound option object of its own hook set to true |
| PyObfuscationConfig.ObfuscateArithmetic | src/core/python/PyObfuscationConfig.cpp:220-245 | no override gives zero rounds; a raising override is fatal |
| PyObfuscationConfig.ArithmeticTable | src/core/python/PyObfuscationConfig.cpp:227-234 | for `None` or a bool the answer is accepted and asks for rounds exactly when it is `True` |
| PyObfuscationConfig.AsUInt64 | src/core/python/PyObfuscationConfig.cpp:268 | `cast<uint64_t>` accepts exactly an int in `[0, 2^64)` or a bool, and yields a `uint64_t` |
| PyObfuscationConfig.CastAll | src/core/python/PyObfuscationConfig.cpp:263-269 | every list item casts to the value kept at its position, or some item does not cast and the whole list fails |
| PyObfuscationConfig.ObfuscateConstants | src/core/python/PyObfuscationConfig.cpp:247-283 | no override gives Skip; a raising override is fatal |
| PyObfuscationConfig.ConstantsListTable | src/core/python/PyObfuscationConfig.cpp:263-271 | a list of `uint64_t`-sized ints becomes the set of exactly those values |
| PyObfuscationConfig.ConstantsListBools | src/core/python/PyObfuscationConfig.cpp:263-271 | a bool in the list counts as 0 or 1: `[True, False]` protects exactly 0 and 1 |
| PyObfuscationConfig.ConstantsListFatal | src/core/python/PyObfuscationConfig.cpp:267-280 | a list with an item that does not cast is fatal |
| PyObfuscationConfig.ReportDiff | src/core/python/PyObfuscationConfig.cpp:200-218 | without an override nothing is reported; an override gets the three strings; a raising one is fatal |
| PyObfuscationConfig.NoOverrideDoesNothing | src/core/python/PyObfuscationConfig.cpp:60 | without overrides every hook answers "do nothing" (the fallback shown for `obfuscate_string`; the other hooks fall back alike) |
| GenOpaque.OpaqueZero | src/passes/opaque-constants/GenOpaque.cpp:20-48 | the emitted `MBA(x ^ y) - (x ^ y)` is 0 whatever T1 and T2 hold |
| GenOpaque.MakeOdd | src/passes/opaque-constants/GenOpaque.cpp:55-57 | the draw made odd stays in `[1, 51]` |
| GenOpaque.OpaqueOne | src/passes/opaque-constants/GenOpaque.cpp:54-74 | the generator adds an odd constant to T2's address |
| GenOpaque.OneCorrect | src/passes/opaque-constants/GenOpaque.cpp:54-74 | the low bit of T2's address plus an odd number is 1 in any `iN` when the address is even |
| GenOpaque.SplitBoundsAsWritten | src/passes/opaque-constants/GenOpaque.cpp:88 | the distribution's upper bound is `Val` narrowed to `uint8_t` |
| GenOpaque.SplitBoundsEmptyAsWritten | src/passes/opaque-constants/GenOpaque.cpp:88 | for `Val = 256` the narrowed range `[1, 0]` is empty |
| GenOpaque.SplitBounds | src/passes/opaque-constants/GenOpaque.cpp:88-89 | the intended range `[1, Val]` is never empty for `Val >= 2` |
| GenOpaque.OpaqueConstAsWritten | src/passes/opaque-constants/GenOpaque.cpp:81-125 | nothing is generated for values 0 and 1; otherwise the two halves add up to `getLimitedValue()`, not to the constant |
| GenOpaque.WideConstantAsWritten | src/passes/opaque-constants/GenOpaque.cpp:82 | an `i128` constant 2^64 is rebuilt as 2^64 - 1 |
| GenOpaque.OpaqueConst | src/passes/opaque-constants/GenOpaque.cpp:81-125 | nothing is generated for 0 and 1; otherwise the halves, in the constant's own width, add up to the constant |
| GenOpaque.ConstCorrect | src/passes/opaque-constants/GenOpaque.cpp:97-124 | the rebuilt constant equals the constant in any `iN` that holds it when T2's address is 8-aligned |
| OpaqueConstants.ShouldProtectAsWritten | src/passes/opaque-constants/OpaqueConstants.cpp:50-112 | the three visitors as written: Skip protects nothing and a flag protects exactly when set |
| OpaqueConstants.LowerLimitOneAsWritten | src/passes/opaque-constants/OpaqueConstants.cpp:82 | as written, a lower limit of 100 protects the constant 1 and a lower limit of 0 does not |
| OpaqueConstants.MagicAsWritten | src/passes/opaque-constants/OpaqueConstants.cpp:104-110 | as written, an empty set protects `MAGIC`, a constant that fits in 64 bits |
| OpaqueConstants.ShouldProtect | src/passes/opaque-constants/OpaqueConstants.cpp:50-112 | the corrected visitors: Skip protects nothing and a flag protects exactly when set |
| OpaqueConstants.ShouldProtectUniform | src/passes/opaque-constants/OpaqueConstants.cpp:50-112 | corrected, one rule covers 0, 1 and the rest: a lower limit protects the values above it, a set its members and the values too wide for `uint64_t` |
| OpaqueConstants.AsWrittenAgreesElsewhere | src/passes/opaque-constants/OpaqueConstants.cpp:50-112 | the two readings differ only for 1 under a lower limit and for `[MAGIC, 2^64)` under a set |
| OpaqueConstants.FalsyProtectsNothing | src/passes/opaque-constants/OpaqueConstants.cpp:50-112 | a false flag or an empty set protects no `uint64_t` constant; a true flag protects every one |
| OpaqueConstants.Effective | src/passes/opaque-constants/OpaqueConstants.cpp:229-237 | an `OPAQUE_CST` annotation forces the option `true`; otherwise the function's option applies |
| OpaqueConstants.AnyTouchesExactly | src/passes/opaque-constants/OpaqueConstants.cpp:226-237 | a block asks for a context exactly when one of its instructions is processed, eligible and has a `ConstantInt` operand |
| OpaqueConstants.InsertOpts | src/passes/opaque-constants/OpaqueConstants.cpp:258-272 | `run` keeps the options recorded before and records only non-skip options of the module's functions |
| OpaqueConstants.InsertOptsStep | src/passes/opaque-constants/OpaqueConstants.cpp:261-267 | one more function adds its option when it is not skipped and its identity is new |
| OpaqueConstants.RunResultFrom | src/passes/opaque-constants/OpaqueConstants.cpp:264-271 | a function's result depends only on which blocks have contexts and whether an option was recorded before |
| OpaqueConstants.ChangesExactlyCtx | src/passes/opaque-constants/OpaqueConstants.cpp:203-224 | only which blocks have a context decides which operands change |
| OpaqueConstants.OnlyAnnotated | src/passes/opaque-constants/OpaqueConstants.cpp:226-237 | a function without a recorded option changes only in instructions annotated `OPAQUE_CST` |
| OpaqueConstants.Recorded | src/passes/opaque-constants/OpaqueConstants.cpp:264-267 | a function gets an option exactly when none was recorded for it before |
| OpaqueConstants.NewContextsElsewhere | src/passes/opaque-constants/OpaqueConstants.cpp:203-224 | contexts created for one function's blocks are not contexts of later functions' blocks |
| OpaqueConstants.OpaqueConstantsPass.constructor | src/passes/opaque-constants/OpaqueConstants.cpp:243 | a fresh pass has drawn nothing and holds no context and no option |
| OpaqueConstants.OpaqueConstantsPass.GetOrCreateContext | src/passes/opaque-constants/OpaqueConstants.cpp:203-224 | a block's context is found, or created when the block has an insertion point, or there is none; only that block's entry is added |
| OpaqueConstants.OpaqueConstantsPass.Draw | src/passes/opaque-constants/OpaqueConstants.cpp:131-133 | one draw within the requested bounds, taken from the stream in order |
| OpaqueConstants.OpaqueConstantsPass.Generate | src/passes/opaque-constants/OpaqueConstants.cpp:128-181 | whichever of the three generators is drawn, the emitted code rebuilds the constant in every frame where T2 is 8-aligned |
| OpaqueConstants.OpaqueConstantsPass.ProcessConstant | src/passes/opaque-constants/OpaqueConstants.cpp:35-126 | the operand changes exactly when the instruction is eligible, the block has or gets a context and the option protects the value; a replacement rebuilds the constant |
| OpaqueConstants.OpaqueConstantsPass.ProcessInst | src/passes/opaque-constants/OpaqueConstants.cpp:183-200 | every `ConstantInt` operand is processed in turn; each changes exactly when `Process` protects it |
| OpaqueConstants.OpaqueConstantsPass.ProcessOperand | src/passes/opaque-constants/OpaqueConstants.cpp:188-192 | one operand's turn keeps the loop's invariant: earlier operands changed exactly as protected, later ones untouched |
| OpaqueConstants.OpaqueConstantsPass.RunOnBasicBlock | src/passes/opaque-constants/OpaqueConstants.cpp:226-239 | an operand changes exactly when its instruction's effective option protects it; the block gets a context exactly when some instruction asked and it has an insertion point |
| OpaqueConstants.OpaqueConstantsPass.RunOnInst | src/passes/opaque-constants/OpaqueConstants.cpp:229-237 | one instruction's turn keeps the block loop's invariant |
| OpaqueConstants.OpaqueConstantsPass.RunOnFunction | src/passes/opaque-constants/OpaqueConstants.cpp:269-271 | every block is processed: exactly the protected operands change, and without an option only annotated instructions change |
| OpaqueConstants.OpaqueConstantsPass.RunOnBlock | src/passes/opaque-constants/OpaqueConstants.cpp:269-271 | one block's turn keeps the function loop's invariant |
| OpaqueConstants.OpaqueConstantsPass.RunFunction | src/passes/opaque-constants/OpaqueConstants.cpp:259-271 | a skipped function is untouched; otherwise its option is recorded when new and its blocks are processed under the recorded option |
| OpaqueConstants.OpaqueConstantsPass.RunStep | src/passes/opaque-constants/OpaqueConstants.cpp:258-272 | one function's turn keeps the module loop's invariant |
| OpaqueConstants.OpaqueConstantsPass.Run | src/passes/opaque-constants/OpaqueConstants.cpp:241-277 | the options recorded are `InsertOpts`, each function is processed as `RunResult` says, and the module changes exactly when some function changed |
| OpaqueFieldAccess.TaggedForLaterPasses | src/passes/opaque-field-access/OpaqueFieldAccess.cpp:69-71 | every rebuilt offset carries `OPAQUE_CST` and `OPAQUE_OP` with two rounds |
| OpaqueFieldAccess.SplitOffset | src/passes/opaque-field-access/OpaqueFieldAccess.cpp:92-101 | the halves are 32-bit; below 2^32 they add up to the offset and differ by at most one, the second not smaller |
| OpaqueFieldAccess.SplitOffsetWraps | src/passes/opaque-field-access/OpaqueFieldAccess.cpp:92-101 | for any 64-bit offset the truncated halves add up to it modulo 2^32 |
| OpaqueFieldAccess.AddOffsetSmall | src/passes/opaque-field-access/OpaqueFieldAccess.cpp:103-106 | an `add` of two halves whose sum fits a signed `i32` evaluates to that sum |
| OpaqueFieldAccess.ZeroOperandSmall | src/passes/opaque-field-access/OpaqueFieldAccess.cpp:153-156 | `off - 0` (the read side) and `off \| 0` (the write side) evaluate to `off` below 2^31 |
| OpaqueFieldAccess.StructAccessAsWritten | src/passes/opaque-field-access/OpaqueFieldAccess.cpp:22-83 | as written, for reads and for the matching writes: rewritten exactly when the hook agrees and both indices are constant, whatever the first one is |
| OpaqueFieldAccess.StructFirstIndexAsWritten | src/passes/opaque-field-access/OpaqueFieldAccess.cpp:51-54 | as written, `s[1].x` on `{i32, i32}` is byte 8 and the rewritten access reads byte 0 |
| OpaqueFieldAccess.StructAccess | src/passes/opaque-field-access/OpaqueFieldAccess.cpp:22-83 | corrected, for reads and for the matching writes: rewritten exactly when the hook agrees, the first index is 0 and the field index is constant; the result is a byte offset from the same base |
| OpaqueFieldAccess.StructAccessPreserves | src/passes/opaque-field-access/OpaqueFieldAccess.cpp:56-79 | the rewritten struct access reaches the field's byte offset, the address the original denotes |
| OpaqueFieldAccess.BufferAccess | src/passes/opaque-field-access/OpaqueFieldAccess.cpp:85-121 | a byte read, or the matching write, is rewritten exactly when tagged `PROTECT_FIELD_ACCESS`, to an `add` of two halves from the same base |
| OpaqueFieldAccess.BufferAccessPreserves | src/passes/opaque-field-access/OpaqueFieldAccess.cpp:92-116 | below 2^31 the rewritten buffer access reaches the same byte |
| OpaqueFieldAccess.ConstExprAccessAsWritten | src/passes/opaque-field-access/OpaqueFieldAccess.cpp:123-170 | as written, for reads and for the matching writes: rewritten exactly when the expression is `getelementptr` on a global array with a constant third operand and the hook agrees |
| OpaqueFieldAccess.ConstExprNestedAsWritten | src/passes/opaque-field-access/OpaqueFieldAccess.cpp:125-166 | as written, `g[1][2]` on `int g[2][4]` is byte 24 and the rewritten access reads byte 16 |
| OpaqueFieldAccess.ConstExprAccess | src/passes/opaque-field-access/OpaqueFieldAccess.cpp:123-170 | corrected, for reads and for the matching writes: only `getelementptr T, @g, 0, off` is rewritten; a read builds `off - 0` and a write `off \| 0` |
| OpaqueFieldAccess.ConstExprAccessPreserves | src/passes/opaque-field-access/OpaqueFieldAccess.cpp:150-166 | the rewritten global array access reaches element `off`, the address the original denotes |
| OpaqueFieldAccess.GlobalElementAddress | src/passes/opaque-field-access/OpaqueFieldAccess.cpp:123-143 | `getelementptr [n x e], @g, 0, off` is byte `off * sizeof(e)` of `g` |
| OpaqueFieldAccess.ElementsAddress | src/passes/opaque-field-access/OpaqueFieldAccess.cpp:160-166 | the rebuilt `off - 0` or `off \| 0` selects element `off` of the global |
| OpaqueFieldAccess.RewritePointer | src/passes/opaque-field-access/OpaqueFieldAccess.cpp:172-216 | on a load or a store, a rewrite differs from the original pointer, and comes from the handler the pointer's shape selects |
| OpaqueFieldAccess.RewritePreservesAddress | src/passes/opaque-field-access/OpaqueFieldAccess.cpp:172-216 | on a load or a store, a rewritten pointer denotes the address the original denotes when its offsets fit a signed `i32` |
| OpaqueFieldAccess.RunOnInst | src/passes/opaque-field-access/OpaqueFieldAccess.cpp:417-427 | a load stays a load and a store a store, keeping its annotations; it changes exactly when its pointer is rewritten |
| OpaqueFieldAccess.RunOnInstPreserves | src/passes/opaque-field-access/OpaqueFieldAccess.cpp:417-427 | a rewritten load or store touches the byte it touched before |
| OpaqueFieldAccess.RunOnBasicBlock | src/passes/opaque-field-access/OpaqueFieldAccess.cpp:417-428 | the block becomes `RunOnBlock`; the result is true exactly when some load or store was rewritten, that is when the block changed |
| OpaqueFieldAccess.RunOnFunction | src/passes/opaque-field-access/OpaqueFieldAccess.cpp:434-438 | same function, same number of blocks, each after `RunOnBlock` |
| OpaqueFieldAccess.Run | src/passes/opaque-field-access/OpaqueFieldAccess.cpp:430-448 | every function becomes `RunOnFunction`; the result is true exactly when the module changed |
| CfgFlattening.EncodeInjective | src/passes/cfg-flattening/ControlFlowFlattening.cpp:28-30 | `(id ^ X) + Y` on 32-bit words is injective in the ID for fixed X and Y |
| CfgFlattening.CaseFor | src/passes/cfg-flattening/ControlFlowFlattening.cpp:361-390 | a switch's chosen case carries the selector's value and the case's target |
| CfgFlattening.Dispatch | src/passes/cfg-flattening/ControlFlowFlattening.cpp:313-333 | the dispatcher switch finds a case with the state's value, or none exists |
| CfgFlattening.NonEntryBlocks | src/passes/cfg-flattening/ControlFlowFlattening.cpp:207-212 | the blocks after the entry, in layout order |
| CfgFlattening.CountFlattenable | src/passes/cfg-flattening/ControlFlowFlattening.cpp:214-215 | the number of listed blocks that are not landing pads, at most the list's length |
| CfgFlattening.CountTrampolines | src/passes/cfg-flattening/ControlFlowFlattening.cpp:140-152 | one `.normal_split` trampoline per block in `NormalDest2Split`, never more than the blocks counted |
| CfgFlattening.CountTrampolinesZero | src/passes/cfg-flattening/ControlFlowFlattening.cpp:140-152 | no trampoline is created exactly when no block that is not a landing pad is reached from an invoke |
| CfgFlattening.InvokeTrampolineCounts | src/passes/cfg-flattening/ControlFlowFlattening.cpp:172-215 | the trampolines are counted by `BlockSize`: an entry invoking block 1 and unwinding to a landing pad gives block size 2, so the function is flattened |
| CfgFlattening.FlattenedOrder | src/passes/cfg-flattening/ControlFlowFlattening.cpp:222-258 | corrected: every block is flattened, the entry first (split before its terminator), then the rest in layout order |
| CfgFlattening.EncodedIdsDistinct | src/passes/cfg-flattening/ControlFlowFlattening.cpp:264-283 | two blocks with the same encoded ID are the same block |
| CfgFlattening.DrawId | src/passes/cfg-flattening/ControlFlowFlattening.cpp:271-281 | draws until a value at least 10 with it and its encoding unused; with fresh draws the next draw is accepted |
| CfgFlattening.RecordId | src/passes/cfg-flattening/ControlFlowFlattening.cpp:276-282 | the block takes the accepted ID; `SwitchRnd` takes the ID and its encoding, and the IDs stay distinct |
| CfgFlattening.AssignIds | src/passes/cfg-flattening/ControlFlowFlattening.cpp:264-283 | every flattened non-landing-pad block gets an ID at least 10, the encoded IDs are distinct, and fresh draws never run out |
| CfgFlattening.DispatchTable | src/passes/cfg-flattening/ControlFlowFlattening.cpp:317-333 | one case per flattened non-landing-pad block, with its encoded ID |
| CfgFlattening.BuildDispatchTable | src/passes/cfg-flattening/ControlFlowFlattening.cpp:317-333 | the loop builds exactly `DispatchTable` |
| CfgFlattening.DispatchTableFinds | src/passes/cfg-flattening/ControlFlowFlattening.cpp:317-333 | the dispatcher sends a block's encoded ID to that block |
| CfgFlattening.DispatchTableCorrect | src/passes/cfg-flattening/ControlFlowFlattening.cpp:317-333 | the dispatcher sends every block's encoded ID to that block |
| CfgFlattening.TransitionCases | src/passes/cfg-flattening/ControlFlowFlattening.cpp:361-390 | a switch is rewritten case by case with each target's ID, and is fatal exactly when some target has no ID |
| CfgFlattening.Transition | src/passes/cfg-flattening/ControlFlowFlattening.cpp:342-460 | return, unreachable, resume and invoke are kept; any other non-branch is fatal; a branch or switch is fatal exactly when a target lacks an ID |
| CfgFlattening.FlatCaseForAgrees | src/passes/cfg-flattening/ControlFlowFlattening.cpp:361-390 | the rewritten switch picks the same case as the original, carrying its target's ID |
| CfgFlattening.TransitionCorrect | src/passes/cfg-flattening/ControlFlowFlattening.cpp:33-66 | each emitted transition stores the encoding the dispatcher maps to the original successor |
| CfgFlattening.RewriteTerminators | src/passes/cfg-flattening/ControlFlowFlattening.cpp:337-460 | fatal exactly when some flattened block's terminator is fatal; otherwise each block holds its `Transition` |
| CfgFlattening.IdsForAllBlocks | src/passes/cfg-flattening/ControlFlowFlattening.cpp:207-283 | since every block is flattened, every non-landing-pad block has an ID and only those |
| CfgFlattening.TransitionFatalExactly | src/passes/cfg-flattening/ControlFlowFlattening.cpp:342-460 | with all blocks numbered, the rewrite fails exactly on a non-branch or on a target that is a landing pad or missing |
| CfgFlattening.RunOnFunction | src/passes/cfg-flattening/ControlFlowFlattening.cpp:119-462 | unchanged exactly when the function is empty or its block size, trampolines included, is at most one; a change is a full flattening; fatal only on an unrewritable terminator, and with fresh draws fatal exactly when a flattenable function has one; with fresh draws every other flattenable function changes |
| CfgFlattening.FlattenedRewritesAll | src/passes/cfg-flattening/ControlFlowFlattening.cpp:337-460 | a flattened function has no unrewritable terminator |
| CfgFlattening.FlattenedPreservesSuccessors | src/passes/cfg-flattening/ControlFlowFlattening.cpp:33-66 | the initial state dispatches to the entry, landing pads have no case, and every rewritten terminator leads where the original did |
| CfgFlattening.FlattenedBlockAgrees | src/passes/cfg-flattening/ControlFlowFlattening.cpp:337-460 | one block's rewritten terminator leads where the original did |
| CfgFlattening.EntryNotSplitAsWritten | src/passes/cfg-flattening/ControlFlowFlattening.cpp:222-258 | as written, an entry ending in `br` (or `br` on a non-instruction) is not split and the dispatcher starts at block 1 instead of the entry's target |
| CfgFlattening.AnyChanged | src/passes/cfg-flattening/ControlFlowFlattening.cpp:479 | true exactly when some function changed |
| CfgFlattening.RunSelected | src/passes/cfg-flattening/ControlFlowFlattening.cpp:471-476 | an unselected function is unchanged; a selected one has `RunOnFunction`'s outcome (`OutcomeFor`): unchanged exactly when too small, changed only by a full flattening and always with fresh draws and rewritable terminators, fatal exactly when (with fresh draws) it has an unrewritable terminator |
| CfgFlattening.Run | src/passes/cfg-flattening/ControlFlowFlattening.cpp:464-486 | every recorded outcome is its function's `OutcomeFor` under the hook (a change is `FlattenedFrom`); the pass stops at the first function it fails on; with fresh draws it fails exactly when some selected flattenable function has an unrewritable terminator; the result is true exactly when some function changed |
| FlatteningLegacy.LegacyAssignIds | src/passes/flattening/ControlFlowFlattening.cpp:108-123 | every flattened block, landing pads included, gets an ID at least 10, the encoded IDs are distinct, and fresh draws never run out |
| FlatteningLegacy.LegacyDispatchTable | src/passes/flattening/ControlFlowFlattening.cpp:164-174 | one case per flattened block, in order, with its encoded ID |
| FlatteningLegacy.BuildLegacyDispatchTable | src/passes/flattening/ControlFlowFlattening.cpp:164-174 | the loop builds exactly `LegacyDispatchTable` |
| FlatteningLegacy.LegacyDispatchTableFinds | src/passes/flattening/ControlFlowFlattening.cpp:164-174 | with distinct IDs the dispatcher sends a block's encoded ID to that block |
| FlatteningLegacy.LegacyOrder | src/passes/flattening/ControlFlowFlattening.cpp:46-107 | corrected: every block is flattened, the entry first and the rest in layout order |
| FlatteningLegacy.LegacyTransitionFatalExactly | src/passes/flattening/ControlFlowFlattening.cpp:178-341 | with IDs for all blocks, the rewrite fails exactly on a non-branch or a target outside the function |
| FlatteningLegacy.LegacyIdsForAllBlocks | src/passes/flattening/ControlFlowFlattening.cpp:46-123 | every block of the function has an ID, and only those |
| FlatteningLegacy.LegacyRunOnFunction | src/passes/flattening/ControlFlowFlattening.cpp:24-346 | unchanged exactly when empty, unselected, too small or with an invoke entry; a change is a full flattening; fatal only on an unrewritable terminator, and with fresh draws fatal exactly when an eligible function has one; with fresh draws every other eligible function changes |
| FlatteningLegacy.LegacyRunStep | src/passes/flattening/ControlFlowFlattening.cpp:354-355 | one loop turn has `LegacyRunOnFunction`'s outcome (`LegacyOutcomeFor`), fails only on an eligible unrewritable function, and with fresh draws exactly then |
| FlatteningLegacy.LegacyFlattenedPreservesSuccessors | src/passes/flattening/ControlFlowFlattening.cpp:131-341 | the initial state dispatches to the entry and every rewritten terminator leads where the original did |
| FlatteningLegacy.LegacyEntryNotSplitAsWritten | src/passes/flattening/ControlFlowFlattening.cpp:74-107 | as written, an entry ending in `br` is not split and the dispatcher starts at block 1 instead of the entry's target |
| FlatteningLegacy.LegacyRun | src/passes/flattening/ControlFlowFlattening.cpp:349-370 | every recorded outcome is its function's `LegacyOutcomeFor` (a change is `LegacyFlattenedFrom`); the pass stops at the first function it fails on; with fresh draws it fails exactly when some eligible function has an unrewritable terminator; the result is true exactly when some function changed |
| BasicBlockDuplicate.CoinflipIsLowBit | src/passes/basic-block-duplicate/BasicBlockDuplicate.cpp:156-160 | the coin is true exactly for an odd `lrand48()` value, so consecutive values land on opposite sides |
| BasicBlockDuplicate.EligibleFlags | src/passes/basic-block-duplicate/BasicBlockDuplicate.cpp:39-43 | one flag per block: not the entry, not an EH block and without a `swifterror` alloca |
| BasicBlockDuplicate.ToDupSelects | src/passes/basic-block-duplicate/BasicBlockDuplicate.cpp:37-46 | the entry, EH and `swifterror` blocks are never picked; any other block is picked exactly when its draw modulo 100 is below the probability |
| BasicBlockDuplicate.RemapDefined | src/passes/basic-block-duplicate/BasicBlockDuplicate.cpp:57-62 | `VMap` sends a value the block defines to its copy |
| BasicBlockDuplicate.RemapOutside | src/passes/basic-block-duplicate/BasicBlockDuplicate.cpp:57-62 | `VMap` leaves a value defined elsewhere unchanged |
| BasicBlockDuplicate.CloneIsRenamedCopy | src/passes/basic-block-duplicate/BasicBlockDuplicate.cpp:57-62 | the clone does what the tail does, reading copies of the tail's values; its values are new and pairwise distinct |
| BasicBlockDuplicate.IncomingForRename | src/passes/basic-block-duplicate/BasicBlockDuplicate.cpp:58 | after the split, a phi takes from the tail what it took from the split block and nothing from the split block |
| BasicBlockDuplicate.IncomingForAppend | src/passes/basic-block-duplicate/BasicBlockDuplicate.cpp:82 | an appended incoming entry is found only when no earlier one names the block |
| BasicBlockDuplicate.IncomingForRepeat | src/passes/basic-block-duplicate/BasicBlockDuplicate.cpp:73-83 | the clone's entries, one per edge, all name the clone with one value |
| BasicBlockDuplicate.FixPhiEntries | src/passes/basic-block-duplicate/BasicBlockDuplicate.cpp:73-83 | each successor phi takes from the tail what it took from the block, from the clone the copy of that value, no longer names the block, and keeps every other predecessor |
| BasicBlockDuplicate.FixSuccessors | src/passes/basic-block-duplicate/BasicBlockDuplicate.cpp:73-83 | the phi fix-up keeps the number of blocks |
| BasicBlockDuplicate.FixSuccessorsShape | src/passes/basic-block-duplicate/BasicBlockDuplicate.cpp:73-83 | only the successors' phis change; every body and terminator stays |
| BasicBlockDuplicate.Laid | src/passes/basic-block-duplicate/BasicBlockDuplicate.cpp:52-70 | the split and the clone append two blocks |
| BasicBlockDuplicate.LaidShape | src/passes/basic-block-duplicate/BasicBlockDuplicate.cpp:52-70 | the block becomes the coin head, the tail and the clone are appended, every other block stays |
| BasicBlockDuplicate.DuplicateBlockShape | src/passes/basic-block-duplicate/BasicBlockDuplicate.cpp:52-83 | what rewriting one block does to every block, from the split, clone and phi stages |
| BasicBlockDuplicate.DuplicateBlock | src/passes/basic-block-duplicate/BasicBlockDuplicate.cpp:52-83 | rewriting one block appends exactly two blocks |
| BasicBlockDuplicate.CountPositive | src/passes/basic-block-duplicate/BasicBlockDuplicate.cpp:73-83 | a successor reached by the clone has at least one edge from it |
| BasicBlockDuplicate.InRangeNone | src/passes/basic-block-duplicate/BasicBlockDuplicate.cpp:73-83 | a phi names no block beyond the function's |
| BasicBlockDuplicate.OriginalArmRunsBlock | src/passes/basic-block-duplicate/BasicBlockDuplicate.cpp:64-70 | the head branches on the coin, and on the original side the block's own instructions and terminator run |
| BasicBlockDuplicate.CloneArmRunsCopy | src/passes/basic-block-duplicate/BasicBlockDuplicate.cpp:57-70 | on the clone's side a renamed copy of the block runs, with values of its own, and continues to the block's successors |
| BasicBlockDuplicate.DuplicatePhis | src/passes/basic-block-duplicate/BasicBlockDuplicate.cpp:73-83 | in every successor, each phi takes the tail's value from the tail, its copy from the clone and every other entry as before |
| BasicBlockDuplicate.DuplicateFirst | src/passes/basic-block-duplicate/BasicBlockDuplicate.cpp:52-122 | rewriting the first n picked blocks appends 2n blocks |
| BasicBlockDuplicate.DuplicateAll | src/passes/basic-block-duplicate/BasicBlockDuplicate.cpp:52-122 | rewriting every picked block appends two blocks per pick |
| BasicBlockDuplicate.DuplicateBlockStep | src/passes/basic-block-duplicate/BasicBlockDuplicate.cpp:52-83 | one rewrite has the shape the induction over picked blocks needs |
| BasicBlockDuplicate.HeadsStep | src/passes/basic-block-duplicate/BasicBlockDuplicate.cpp:52-70 | one more rewrite keeps every earlier head a coin head |
| BasicBlockDuplicate.TailsStep | src/passes/basic-block-duplicate/BasicBlockDuplicate.cpp:52-62 | one more rewrite keeps every earlier tail with its block's instructions and terminator |
| BasicBlockDuplicate.ClonesStep | src/passes/basic-block-duplicate/BasicBlockDuplicate.cpp:57-62 | one more rewrite keeps every earlier clone continuing to its block's successors |
| BasicBlockDuplicate.OthersStep | src/passes/basic-block-duplicate/BasicBlockDuplicate.cpp:73-83 | one more rewrite changes the other blocks at most in their phis |
| BasicBlockDuplicate.DuplicateAllShape | src/passes/basic-block-duplicate/BasicBlockDuplicate.cpp:52-122 | rewriting the picked blocks gives the function with exactly those blocks duplicated: a coin head, the original tail and a clone each, others changed only in phis |
| BasicBlockDuplicate.DuplicateFirstShape | src/passes/basic-block-duplicate/BasicBlockDuplicate.cpp:52-122 | the first n rewrites give the first n picked blocks duplicated |
| BasicBlockDuplicate.DuplicateEach | src/passes/basic-block-duplicate/BasicBlockDuplicate.cpp:52-122 | the second loop of `process` yields `DuplicateAll` of the picked blocks |
| BasicBlockDuplicate.Outcomes | src/passes/basic-block-duplicate/BasicBlockDuplicate.cpp:183-193 | one outcome per function considered |
| BasicBlockDuplicate.OutcomeAt | src/passes/basic-block-duplicate/BasicBlockDuplicate.cpp:183-193 | the i-th function after `run` is its own outcome, drawn for after the selected functions before it |
| BasicBlockDuplicate.AnyChangeSome | src/passes/basic-block-duplicate/BasicBlockDuplicate.cpp:183-193 | the module changed exactly when some function changed |
| BasicBlockDuplicate.AnyChangeGrows | src/passes/basic-block-duplicate/BasicBlockDuplicate.cpp:183-193 | once a function has changed, the module has changed whatever follows |
| BasicBlockDuplicate.OutcomesEach | src/passes/basic-block-duplicate/BasicBlockDuplicate.cpp:165-200 | after `run` every function is its own outcome and the module changed exactly when some function did |
| BasicBlockDuplicate.ProcessedShape | src/passes/basic-block-duplicate/BasicBlockDuplicate.cpp:32-127 | `process` leaves the function with exactly the picked blocks duplicated, unchanged when none is picked |
| BasicBlockDuplicate.BasicBlockDuplicatePass.constructor | src/passes/basic-block-duplicate/BasicBlockDuplicate.cpp:165-181 | a fresh pass has no generator and no coinflip routine |
| BasicBlockDuplicate.BasicBlockDuplicatePass.CollectToDup | src/passes/basic-block-duplicate/BasicBlockDuplicate.cpp:37-46 | the first loop draws once per eligible block and collects exactly `ToDup` |
| BasicBlockDuplicate.BasicBlockDuplicatePass.Process | src/passes/basic-block-duplicate/BasicBlockDuplicate.cpp:32-127 | one draw per eligible block; fatal exactly when a block is picked without the coinflip routine; otherwise true exactly when a block was picked, and the function becomes `Processed` |
| BasicBlockDuplicate.BasicBlockDuplicatePass.Run | src/passes/basic-block-duplicate/BasicBlockDuplicate.cpp:165-200 | an excluded module is untouched; otherwise a fresh generator, the coinflip routine only for a probability option, every function becomes its outcome, and the result is true exactly when one changed; fatal at the first change without the routine |
| FunctionOutline.StackFrameDependentExactly | src/passes/function-outline/FunctionOutline.cpp:25-40 | exactly ten intrinsics depend on the stack frame; the lifetime markers are not among them |
| FunctionOutline.CallBrTestRedundant | src/passes/function-outline/FunctionOutline.cpp:61-73 | the candidate test is the same without its `callbr` terminator check, since a `callbr` already makes the block unfavourable |
| FunctionOutline.CandidateIsFrameIndependent | src/passes/function-outline/FunctionOutline.cpp:43-73 | no instruction of a candidate calls a frame-dependent intrinsic, is a `musttail` call or inline assembly, or is an `invoke`, `callbr` or `resume` |
| FunctionOutline.Unmarked | src/passes/function-outline/FunctionOutline.cpp:97-104 | erasing markers never lengthens a block |
| FunctionOutline.UnmarkedMembers | src/passes/function-outline/FunctionOutline.cpp:97-104 | what stays is exactly the instructions that are not lifetime markers |
| FunctionOutline.UnmarkedNone | src/passes/function-outline/FunctionOutline.cpp:97-104 | a body without markers is left as it is |
| FunctionOutline.UnmarkedIdempotent | src/passes/function-outline/FunctionOutline.cpp:97-104 | erasing markers twice is erasing them once |
| FunctionOutline.UnmarkedBlocks | src/passes/function-outline/FunctionOutline.cpp:97-104 | every block keeps its attributes and loses only its markers |
| FunctionOutline.EraseMarkers | src/passes/function-outline/FunctionOutline.cpp:99-103 | the loop over one block keeps exactly `Unmarked` |
| FunctionOutline.EraseLifetimeMarkers | src/passes/function-outline/FunctionOutline.cpp:97-104 | the loop over a function yields `UnmarkedBlocks` |
| FunctionOutline.CandidateFlags | src/passes/function-outline/FunctionOutline.cpp:113-119 | one flag per block: not the entry and an outline candidate |
| FunctionOutline.ToOutline | src/passes/function-outline/FunctionOutline.cpp:108-122 | the picked blocks, in increasing order, inside the function |
| FunctionOutline.ToOutlineSelects | src/passes/function-outline/FunctionOutline.cpp:108-122 | the entry and non-candidates are never picked; a candidate is picked exactly when its draw modulo 100 is below the probability |
| FunctionOutline.CallSiteShape | src/passes/function-outline/FunctionOutline.cpp:144-147 | a call site is well formed, not itself a candidate, and has no lifetime markers |
| FunctionOutline.OutlineAll | src/passes/function-outline/FunctionOutline.cpp:128-149 | the loop keeps the number of blocks and creates at most one function per picked block |
| FunctionOutline.Extracted | src/passes/function-outline/FunctionOutline.cpp:128-142 | the accepted blocks lie inside the function |
| FunctionOutline.ExtractedMembers | src/passes/function-outline/FunctionOutline.cpp:128-142 | a block is accepted exactly when it was picked and is extractable |
| FunctionOutline.OutlinedStep | src/passes/function-outline/FunctionOutline.cpp:144-147 | one more extraction replaces its block by a call site and appends its unmarked body |
| FunctionOutline.OutlineAllShape | src/passes/function-outline/FunctionOutline.cpp:128-149 | the loop replaces exactly the accepted blocks by call sites and appends their unmarked bodies in order |
| FunctionOutline.OutlineAllSnoc | src/passes/function-outline/FunctionOutline.cpp:128-149 | one more picked block extends the outlining by that block when it is extractable, and leaves it otherwise |
| FunctionOutline.ProcessedFunctions | src/passes/function-outline/FunctionOutline.cpp:106-160 | `process` creates one function per accepted picked block, in order, holding that block without markers |
| FunctionOutline.ProcessedBlocks | src/passes/function-outline/FunctionOutline.cpp:106-160 | each accepted block becomes a call site; after a change every other block only loses its lifetime markers |
| FunctionOutline.ProcessedUnchanged | src/passes/function-outline/FunctionOutline.cpp:151-152 | when no picked block is accepted the function is untouched and nothing is created |
| FunctionOutline.NewBodiesUnmarked | src/passes/function-outline/FunctionOutline.cpp:144-147 | no outlined function calls a lifetime marker |
| FunctionOutline.OutlineEach | src/passes/function-outline/FunctionOutline.cpp:128-149 | the second loop of `process` yields `OutlineAll`, counting the functions it created |
| FunctionOutline.ToVisit | src/passes/function-outline/FunctionOutline.cpp:171-180 | only functions of the module are queued |
| FunctionOutline.ToVisitSelected | src/passes/function-outline/FunctionOutline.cpp:171-180 | every queued function is selected, with its own probability |
| FunctionOutline.ToVisitComplete | src/passes/function-outline/FunctionOutline.cpp:171-180 | every selected function is queued |
| FunctionOutline.ToVisitOrdered | src/passes/function-outline/FunctionOutline.cpp:171-180 | functions are queued in module order |
| FunctionOutline.CollectToVisit | src/passes/function-outline/FunctionOutline.cpp:171-180 | the loop yields exactly `ToVisit` |
| FunctionOutline.ProcessAll | src/passes/function-outline/FunctionOutline.cpp:189-190 | visiting keeps the number of functions |
| FunctionOutline.Visit | src/passes/function-outline/FunctionOutline.cpp:189-190 | one visit keeps the number of functions |
| FunctionOutline.ProcessAllChanged | src/passes/function-outline/FunctionOutline.cpp:189-190 | the visits report a change exactly when some block was outlined |
| FunctionOutline.ProcessAllUnchanged | src/passes/function-outline/FunctionOutline.cpp:189-190 | when nothing is outlined every function is as it was |
| FunctionOutline.ProcessAllUnvisited | src/passes/function-outline/FunctionOutline.cpp:189-190 | a function that is not queued is untouched |
| FunctionOutline.ProcessAllUnmarked | src/passes/function-outline/FunctionOutline.cpp:189-190 | no outlined body holds a lifetime marker |
| FunctionOutline.RemovalsMembers | src/passes/function-outline/FunctionOutline.cpp:193-201 | a declaration is removed exactly when it is an unused lifetime intrinsic |
| FunctionOutline.WithoutMembers | src/passes/function-outline/FunctionOutline.cpp:203-204 | what remains is exactly the functions not removed |
| FunctionOutline.PrunedKeeps | src/passes/function-outline/FunctionOutline.cpp:192-205 | a function survives exactly when it is not an unused lifetime declaration; nothing is added |
| FunctionOutline.RemoveUnusedLifetime | src/passes/function-outline/FunctionOutline.cpp:192-205 | the two loops yield exactly `Pruned` |
| FunctionOutline.AfterRunChanged | src/passes/function-outline/FunctionOutline.cpp:162-210 | `run` changes the module exactly when it outlined a block; when it did not, every function is as it was |
| FunctionOutline.FunctionOutlinePass.constructor | src/passes/function-outline/FunctionOutline.cpp:162-187 | a fresh pass has no generator |
| FunctionOutline.FunctionOutlinePass.CollectToOutline | src/passes/function-outline/FunctionOutline.cpp:108-122 | the first loop draws once per candidate and collects exactly `ToOutline` |
| FunctionOutline.FunctionOutlinePass.Process | src/passes/function-outline/FunctionOutline.cpp:106-160 | one draw per candidate; the function becomes `Processed` and the result is true exactly when something was outlined |
| FunctionOutline.FunctionOutlinePass.Run | src/passes/function-outline/FunctionOutline.cpp:162-210 | an excluded module or one with nothing selected is untouched and draws nothing; otherwise a fresh generator and the module becomes `AfterRun` |
| FunctionOutline.FunctionOutlinePass.VisitAll | src/passes/function-outline/FunctionOutline.cpp:189-190 | visiting the queue in order yields `ProcessAll` |
| FunctionOutline.FunctionOutlinePass.VisitOne | src/passes/function-outline/FunctionOutline.cpp:189-190 | one visit yields `Visit` |
| BreakControlFlow.AlignTo | src/passes/break-cfg/BreakControlFlow.cpp:102 | the least multiple of 32 at or above n |
| BreakControlFlow.NopAt | src/passes/break-cfg/BreakControlFlow.cpp:107-110 | each draw picks one of the four 4-byte NOP-like instructions |
| BreakControlFlow.Padding | src/passes/break-cfg/BreakControlFlow.cpp:105-112 | n draws give 4n bytes of padding |
| BreakControlFlow.PaddingIsNops | src/passes/break-cfg/BreakControlFlow.cpp:105-112 | the padding is made of NOP-like instructions only |
| BreakControlFlow.PrologueLayout | src/passes/break-cfg/BreakControlFlow.cpp:84-121 | a built prologue is a multiple of 32 bytes: the JIT bytes, the old prologue bytes, then under 32 bytes of padding |
| BreakControlFlow.ThreeParts | src/passes/break-cfg/BreakControlFlow.cpp:96-112 | the JIT bytes, the old prologue and the padding are found at their offsets |
| BreakControlFlow.PaddedLength | src/passes/break-cfg/BreakControlFlow.cpp:101-112 | whole-instruction padding brings the prologue exactly to the next multiple of 32 |
| BreakControlFlow.PrologueFatalIff | src/passes/break-cfg/BreakControlFlow.cpp:84-126 | building fails exactly for a misaligned JIT block, a prologue that is not a constant data sequence (of any element type), or an old prologue whose raw bytes are not whole 4-byte instructions, whatever the draws |
| BreakControlFlow.AlignedPrefixMod | src/passes/break-cfg/BreakControlFlow.cpp:101-104 | bytes after a 32-byte aligned JIT block keep their length modulo 4 |
| BreakControlFlow.GapWholeInsts | src/passes/break-cfg/BreakControlFlow.cpp:101-104 | the gap to the next multiple of 32 is whole instructions exactly when the length is |
| BreakControlFlow.Demoted | src/passes/break-cfg/BreakControlFlow.cpp:131-139 | a `sret` parameter loses `sret` and gains `noalias`; every other attribute is kept |
| BreakControlFlow.DemoteStructRet | src/passes/break-cfg/BreakControlFlow.cpp:133-139 | the loop demotes every parameter of the copy |
| BreakControlFlow.TrampolineSkipsPrologue | src/passes/break-cfg/BreakControlFlow.cpp:150-180 | the trampoline calls the first instruction after the copy's prologue |
| BreakControlFlow.TrampolineAnnotated | src/passes/break-cfg/BreakControlFlow.cpp:156-183 | both additions ask for two opaque-operation rounds and opaque constants; the store asks for field-access protection and opaque constants; the trampoline is optimised for size and never inlined |
| BreakControlFlow.BreakControlFlowPass.constructor | src/passes/break-cfg/BreakControlFlow.cpp:193 | a fresh pass holds the module's stream and has drawn nothing |
| BreakControlFlow.BreakControlFlowPass.Pad | src/passes/break-cfg/BreakControlFlow.cpp:105-112 | the padding loop appends `Padding` and draws once per instruction |
| BreakControlFlow.BreakControlFlowPass.BuildPrologue | src/passes/break-cfg/BreakControlFlow.cpp:84-126 | the prologue built is `PrologueFor`, taking `DrawsFor` draws |
| BreakControlFlow.BreakControlFlowPass.RunOnFunction | src/passes/break-cfg/BreakControlFlow.cpp:44-187 | an empty or unselected function is left alone without drawing; otherwise it is fatal exactly when the prologue is, which is exactly `BreaksFatally`, and else split into the copy and the trampoline |
| BreakControlFlow.BreakControlFlowPass.Run | src/passes/break-cfg/BreakControlFlow.cpp:191-209 | every function in order: split exactly when non-empty and selected, into the copy and trampoline `BrokenFrom` states; the pass fails exactly when some non-empty selected function's prologue cannot be built; the module changed exactly when some function was split |
| IndirectBranch.CaseDests | src/passes/indirect-branch/IndirectBranch.cpp:113-118 | one destination per case, in order |
| IndirectBranch.SwitchTarget | src/passes/indirect-branch/IndirectBranch.cpp:110-118 | a switch goes to a case's destination or its default, and to the default when no case value matches |
| IndirectBranch.BranchTarget | src/passes/indirect-branch/IndirectBranch.cpp:103-118 | the block a branch or switch jumps to is one of its successors |
| IndirectBranch.SuccessorSetHas | src/passes/indirect-branch/IndirectBranch.cpp:37-44 | every successor of a branch or switch is in `SuccBlocks` |
| IndirectBranch.Enumerate | src/passes/indirect-branch/IndirectBranch.cpp:50-53 | each element of `SuccBlocks` is listed exactly once |
| IndirectBranch.Shuffle | src/passes/indirect-branch/IndirectBranch.cpp:55-56 | the shuffle is a permutation, so distinct block addresses stay distinct |
| IndirectBranch.Swap | src/passes/indirect-branch/IndirectBranch.cpp:55-56 | a swap keeps the length and the multiset of elements |
| IndirectBranch.IndexBlocks | src/passes/indirect-branch/IndirectBranch.cpp:70-77 | `BlockToIdx` maps exactly the table's blocks, each to its slot |
| IndirectBranch.SwitchTargetSnoc | src/passes/indirect-branch/IndirectBranch.cpp:113-118 | the first matching case of a list plus one more is the list's if any matches, else the last one's |
| IndirectBranch.FoldCasesSelects | src/passes/indirect-branch/IndirectBranch.cpp:110-118 | with distinct case values the `select` chain picks the slot of the block the switch takes |
| IndirectBranch.LowerSwitch | src/passes/indirect-branch/IndirectBranch.cpp:111-118 | the loop over cases builds the `select` chain over the default's slot |
| IndirectBranch.LowerTerminator | src/passes/indirect-branch/IndirectBranch.cpp:94-127 | the `indirectbr` has the original successors and, for every condition value, loads the slot of the block the original jumped to |
| IndirectBranch.Gathered | src/passes/indirect-branch/IndirectBranch.cpp:37-44 | the gathered positions are increasing and are exactly the branches and switches |
| IndirectBranch.ReplaceTerminators | src/passes/indirect-branch/IndirectBranch.cpp:79-135 | a replaceable block gets an `indirectbr` that jumps where the original did; others are untouched; something is replaced exactly when some block is replaceable |
| IndirectBranch.AllDone | src/passes/indirect-branch/IndirectBranch.cpp:85-133 | after the loop each replaceable block is lowered and each other block untouched |
| IndirectBranch.GatheredIndexed | src/passes/indirect-branch/IndirectBranch.cpp:37-44 | every successor of a gathered terminator has a slot |
| IndirectBranch.LoweredJumpsAlike | src/passes/indirect-branch/IndirectBranch.cpp:97-127 | an `indirectbr` through the original target's slot jumps to that target |
| IndirectBranch.DoneStep | src/passes/indirect-branch/IndirectBranch.cpp:85-133 | one more terminator done rewrites only its block |
| IndirectBranch.LoneBranchBuildsTable | src/passes/indirect-branch/IndirectBranch.cpp:46-92 | a function whose only block is a lone branch gets a jump table yet reports no change |
| IndirectBranch.IndirectBranchPass.constructor | src/passes/indirect-branch/IndirectBranch.cpp:146 | the pass holds the engine seeded for the module |
| IndirectBranch.IndirectBranchPass.Process | src/passes/indirect-branch/IndirectBranch.cpp:30-136 | `process` leaves the table and blocks `ProcessedAs` says: no table without a branch or switch, otherwise every replaceable block lowered through the shuffled table |
| IndirectBranch.IndirectBranchPass.BuildTable | src/passes/indirect-branch/IndirectBranch.cpp:49-77 | the table holds each successor block exactly once, and `BlockToIdx` is its inverse |
| IndirectBranch.IndirectBranchPass.Run | src/passes/indirect-branch/IndirectBranch.cpp:138-171 | an excluded module is untouched; each function is processed exactly when selected, and the module changed exactly when some function did |
| IndirectBranch.IndirectBranchPass.ProcessFunction | src/passes/indirect-branch/IndirectBranch.cpp:151-165 | one function is processed when selected and left alone otherwise; it changed exactly when selected with a replaceable terminator |
| IndirectCall.ShareAligned | src/passes/indirect-call/IndirectCall.cpp:24-28 | a share is a multiple of 256 within 256 below the draw |
| IndirectCall.ShareAlignedIsMask | src/passes/indirect-call/IndirectCall.cpp:27 | rounding down to 256 is the `& 0xFFFFFF00` mask on a 32-bit draw |
| IndirectCall.Positions | src/passes/indirect-call/IndirectCall.cpp:45-63 | `DirectCalls` lists, in increasing order, exactly the calls to a function that is neither an intrinsic nor always inlined |
| IndirectCall.FirstShares | src/passes/indirect-call/IndirectCall.cpp:56-60 | one share per candidate, in draw order |
| IndirectCall.SecondShares | src/passes/indirect-call/IndirectCall.cpp:58-61 | one second share per first share |
| IndirectCall.RewriteKeepsTargets | src/passes/indirect-call/IndirectCall.cpp:82-99 | every call reaches the address it reached before: `Share2 - Share1` is the callee's address modulo 2^pw |
| IndirectCall.PositionsSnoc | src/passes/indirect-call/IndirectCall.cpp:45-63 | one more instruction appends its position exactly when it is a candidate |
| IndirectCall.SecondSharesSnoc | src/passes/indirect-call/IndirectCall.cpp:58-61 | one more candidate appends its callee's address plus its share |
| IndirectCall.SecondSharesSkip | src/passes/indirect-call/IndirectCall.cpp:45-63 | a non-candidate adds no share |
| IndirectCall.RewriteCalls | src/passes/indirect-call/IndirectCall.cpp:82-99 | the second loop rewrites the j-th candidate to call through slot j and touches nothing else |
| IndirectCall.RewriteOne | src/passes/indirect-call/IndirectCall.cpp:83-98 | one turn rewrites exactly one more candidate |
| IndirectCall.IndirectCallPass.constructor | src/passes/indirect-call/IndirectCall.cpp:114 | a fresh pass holds the module's stream and has drawn nothing |
| IndirectCall.IndirectCallPass.GatherCandidates | src/passes/indirect-call/IndirectCall.cpp:45-63 | one draw per candidate; the positions, first shares and second shares are those the functions state |
| IndirectCall.IndirectCallPass.GatherOne | src/passes/indirect-call/IndirectCall.cpp:46-62 | one turn of the first loop keeps its invariant |
| IndirectCall.IndirectCallPass.Process | src/passes/indirect-call/IndirectCall.cpp:37-102 | one draw per candidate; the calls are rewritten, and the two arrays exist exactly when some call was |
| IndirectCall.IndirectCallPass.Run | src/passes/indirect-call/IndirectCall.cpp:104-133 | an excluded module is untouched and draws nothing; each function is processed exactly when selected; the module changed exactly when some function got arrays |
| StringEncoding.EncodingFor | src/passes/string-encoding/StringEncoding.cpp:399-417 | Replace and Global verdicts keep their encoding; Local and Default both encode locally |
| StringEncoding.Verdict | src/passes/string-encoding/StringEncoding.cpp:293-307 | the hook is asked only about eligible data; anything else is Skip |
| StringEncoding.Zeros | src/passes/string-encoding/StringEncoding.cpp:427-430 | n NUL bytes |
| StringEncoding.FitReplacementShape | src/passes/string-encoding/StringEncoding.cpp:419-436 | the fitted replacement is one byte shorter than the original, keeps the replacement's prefix and pads with NULs |
| StringEncoding.ReplacementKeepsSize | src/passes/string-encoding/StringEncoding.cpp:426-438 | the new NUL-terminated initializer has the original element count |
| StringEncoding.Insert | src/passes/string-encoding/StringEncoding.cpp:439 | `insert` keeps an existing key's value and adds a new key |
| StringEncoding.StringEncodingPass.constructor | src/passes/string-encoding/StringEncoding.cpp:325-336 | a fresh pass holds the module's globals and has recorded, queued and registered nothing |
| StringEncoding.StringEncodingPass.InjectDecodingLocally | src/passes/string-encoding/StringEncoding.cpp:384-397 | a key that is not an integer is fatal; otherwise one decode call is queued for inlining |
| StringEncoding.StringEncodingPass.InjectDecoding | src/passes/string-encoding/StringEncoding.cpp:370-382 | only a locally encoded global gets a decode call; a local one without an integer key is fatal |
| StringEncoding.StringEncodingPass.ProcessReplace | src/passes/string-encoding/StringEncoding.cpp:419-441 | the global takes the fitted replacement, NUL-terminated, and is recorded as Replace |
| StringEncoding.StringEncodingPass.EncodeData | src/passes/string-encoding/StringEncoding.cpp:543-544 | the encoded bytes are `Encode` of the chosen routine over the raw bytes |
| StringEncoding.StringEncodingPass.ProcessLocal | src/passes/string-encoding/StringEncoding.cpp:530-556 | the string is encoded in place with the drawn key and routine, recorded as Local, and one decode call is queued |
| StringEncoding.StringEncodingPass.ProcessGlobal | src/passes/string-encoding/StringEncoding.cpp:443-491 | the string is encoded in place, recorded as Global, one constructor registered and one decode call queued |
| StringEncoding.StringEncodingPass.Process | src/passes/string-encoding/StringEncoding.cpp:399-417 | Skip changes nothing; any other verdict records its encoding for this global only, keeps earlier records and only appends to the queues |
| StringEncoding.StringEncodingPass.EncodeOperand | src/passes/string-encoding/StringEncoding.cpp:251-320 | one operand: an encoded string only gets a decode call; an unencoded one is encoded exactly when `Selected`; nothing else changes |
| StringEncoding.StringEncodingPass.DecodeAgain | src/passes/string-encoding/StringEncoding.cpp:295-300 | an operand reaching an encoded string changes only the queue |
| StringEncoding.StringEncodingPass.EncodeSelected | src/passes/string-encoding/StringEncoding.cpp:302-319 | a selected operand is processed with its verdict, consuming a draw unless replaced |
| StringEncoding.StringEncodingPass.EncodeStrings | src/passes/string-encoding/StringEncoding.cpp:247-323 | earlier encodings are kept, every new one comes from a selected operand and decodes back to the original bytes, every selected operand's global is encoded, and the result says whether anything was emitted |
| StringEncoding.StringEncodingPass.EncodeNext | src/passes/string-encoding/StringEncoding.cpp:251-320 | one operand extends the loop's progress by one step |
| StringEncoding.ProgressInit | src/passes/string-encoding/StringEncoding.cpp:248 | before any operand nothing has happened |
| StringEncoding.ProgressStep | src/passes/string-encoding/StringEncoding.cpp:251-320 | one more operand extends the progress of `encodeStrings` |
| StringEncoding.SubsetChain | src/passes/string-encoding/StringEncoding.cpp:248-322 | along growing sets the last differs from the first exactly when some step adds |
| StringEncoding.ProgressStepNew | src/passes/string-encoding/StringEncoding.cpp:251-320 | after one more operand every new encoding still comes from a selected operand and decodes back |
| StringEncoding.ProgressStepSelected | src/passes/string-encoding/StringEncoding.cpp:251-320 | after one more operand every selected operand's global is encoded |
| StringEncoding.ProgressStepUntouched | src/passes/string-encoding/StringEncoding.cpp:251-320 | after one more operand unencoded globals and earlier records are untouched |
| StringEncoding.FunctionsToVisit | src/passes/string-encoding/StringEncoding.cpp:325-344 | an excluded module visits nothing; otherwise exactly the functions that are not excluded, empty or declarations |
| StringEncoding.VisitedExactly | src/passes/string-encoding/StringEncoding.cpp:338-343 | a function is visited exactly when it passes the filter |
| StringEncoding.DecodeOnceWrapper.constructor | src/passes/string-encoding/StringEncoding.cpp:189-191 | the wrapper starts with `NeedDecode` false and a fresh buffer |
| StringEncoding.DecodeOnceWrapper.Call | src/passes/string-encoding/StringEncoding.cpp:194-223 | the decode routine runs only on the first call; every call leaves the decoded string in the buffer |
| StringEncoding.WrapperRecoversPlain | src/passes/string-encoding/StringEncoding.cpp:530-556 | with the recorded key and routine, a locally encoded global decodes back to its original bytes |
| Routines.NumEncodeDecodeRoutines | src/passes/string-encoding/Routines.cpp:53-56 | both tables have the same size, two |
| Routines.GetEncodeRoutine | src/passes/string-encoding/Routines.cpp:58-61 | index 0 is the key XOR and index 1 the key-and-position XOR |
| Routines.GetDecodeRoutine | src/passes/string-encoding/Routines.cpp:63-66 | decoder `idx` implements the same routine as encoder `idx` |
| Routines.Pow256 | src/passes/string-encoding/Routines.cpp:14 | the weight of a little-endian byte is positive |
| Routines.Apply | src/passes/string-encoding/Routines.cpp:31-42 | a routine's output has the input's length |
| Routines.ApplyAt | src/passes/string-encoding/Routines.cpp:33-35 | output byte i depends only on input byte i and on i |
| Routines.MixByteTwice | src/passes/string-encoding/Routines.cpp:16-24 | mixing a byte twice with the same routine, key and position restores it |
| Routines.ApplyInvolution | src/passes/string-encoding/Routines.cpp:31-42 | applying a routine twice with the same key restores the buffer |
| Routines.RoundTrip | src/passes/string-encoding/Routines.cpp:11-42 | decoder `idx` undoes encoder `idx` with the same key |
| Routines.EncodeInvolution | src/passes/string-encoding/Routines.cpp:30-42 | encoding twice with the same key restores the buffer |
| Routines.EncodeBytes | src/passes/string-encoding/Routines.cpp:31-42 | routine 0 XORs each byte with the key byte at `i % 8`; routine 1 also XORs the low byte of i |
| Routines.RunRoutine | src/passes/string-encoding/Routines.cpp:31-42 | the loop writes `Apply` over the first `size` bytes and nothing for a non-positive size; the rest of `out` is kept |
| StringsEncodingLegacy.LegacyRoundTrip | src/passes/strings-encoding/StringEncoding.cpp:43-75 | for both embedded routine pairs, decode keeps the length and undoes encode for every 64-bit key and every input |
| StringsEncodingLegacy.ResolveDefault | src/passes/strings-encoding/StringEncoding.cpp:423-429 | Default resolves to a stack encoding with loop threshold 6 exactly when the element size is below 20 bytes, and to a global encoding exactly otherwise |
| StringsEncodingLegacy.DefaultOnCStrings | src/passes/strings-encoding/StringEncoding.cpp:423-429 | a C string always takes the stack path under Default, and takes the loop variant exactly when it has at least 5 characters before the terminator |
| StringsEncodingLegacy.XorBytes | src/passes/strings-encoding/StringEncoding.cpp:750-752 | the byte-wise XOR of two equal-length buffers has their length |
| StringsEncodingLegacy.XorRoundTrip | src/passes/strings-encoding/StringEncoding.cpp:733-763 | XORing the encoded buffer with the same per-byte key gives the original string back |
| StringsEncodingLegacy.StackEncodingChangesEveryByte | src/passes/strings-encoding/StringEncoding.cpp:737 | key bytes drawn from [1, 254] are non-zero, so the stack encoding changes every byte of the string |
| StringsEncodingLegacy.EncodeOnStack | src/passes/strings-encoding/StringEncoding.cpp:745-752 | the key is the first draws in order, one per byte, all in [1, 254]; the output is the string XOR the key, and XORing it with the key recovers the string |
| StringsEncodingLegacy.RunStackDecoding | src/passes/strings-encoding/StringEncoding.cpp:251-289 | running the emitted stores, loads and XORs in any shuffled order leaves every slot of the stack buffer holding key XOR encoded, the decoded byte |
| StringsEncodingLegacy.RecordKeepsValid | src/passes/strings-encoding/StringEncoding.cpp:727 | inserting a consistent encoding record for a global not yet in gve_info_ keeps every emitted decoding consistent |
| StringsEncodingLegacy.PushSiteKeepsValid | src/passes/strings-encoding/StringEncoding.cpp:251-292 | emitting a stack decoding with a permutation of the indices for a stack-encoded global keeps the pass state consistent |
| StringsEncodingLegacy.PushCallKeepsValid | src/passes/strings-encoding/StringEncoding.cpp:397 | queueing a decode call that carries the recorded key, routine and size keeps the pass state consistent |
| StringsEncodingLegacy.ProcessedRecordsVerdict | src/passes/strings-encoding/StringEncoding.cpp:414-432 | Skip changes nothing; every other verdict records g; Stack picks the loop variant exactly from the threshold; Global also registers g's constructor; Replace records a replacement; no other global changes |
| StringsEncodingLegacy.GlobalEncodedValid | src/passes/strings-encoding/StringEncoding.cpp:453-555 | encoding a fresh global in place, queueing its decode call and registering its constructor keeps the pass state consistent |
| StringsEncodingLegacy.CtorsKeepValid | src/passes/strings-encoding/StringEncoding.cpp:549 | the list of registered constructors plays no part in consistency |
| StringsEncodingLegacy.LegacyStringEncodingPass.constructor | src/passes/strings-encoding/StringEncoding.cpp:167-175 | the pass starts on the module's globals with no encoding records, no queued calls, no constructors and no stack decodings |
| StringsEncodingLegacy.LegacyStringEncodingPass.InjectOnStack | src/passes/strings-encoding/StringEncoding.cpp:231-294 | a record without a byte-buffer key is fatal and emits nothing; otherwise one stack decoding with the shuffled order is emitted and the use is rewritten |
| StringsEncodingLegacy.LegacyStringEncodingPass.InjectOnStackLoop | src/passes/strings-encoding/StringEncoding.cpp:313-412 | a record without an integer key is fatal and queues nothing; otherwise exactly one decode call with the recorded key, routine and size is queued for inlining |
| StringsEncodingLegacy.LegacyStringEncodingPass.InjectDecoding | src/passes/strings-encoding/StringEncoding.cpp:207-229 | no code is emitted for unencoded, replaced or globally encoded strings; a stack encoding emits one stack decoding and a stack-loop encoding queues one decode call; consistency is kept |
| StringsEncodingLegacy.LegacyStringEncodingPass.EncodeWithRoutine | src/passes/strings-encoding/StringEncoding.cpp:714-723 | the encoded bytes are the drawn routine's encode applied to the global's bytes with the drawn key |
| StringsEncodingLegacy.LegacyStringEncodingPass.ProcessOnStackLoop | src/passes/strings-encoding/StringEncoding.cpp:704-731 | the global's initializer becomes its routine-encoded bytes, a stack-loop record is stored and one decode call is queued; consistency is kept |
| StringsEncodingLegacy.LegacyStringEncodingPass.ProcessOnStack | src/passes/strings-encoding/StringEncoding.cpp:733-763 | strings at or above the loop threshold take the loop path; shorter ones are XORed with per-byte keys, recorded as stack encodings and decoded on the stack; consistency is kept |
| StringsEncodingLegacy.LegacyStringEncodingPass.ProcessGlobal | src/passes/strings-encoding/StringEncoding.cpp:453-555 | the global is encoded in place with the drawn key and routine, one decode call is queued and g's constructor is registered; consistency is kept |
| StringsEncodingLegacy.LegacyStringEncodingPass.ProcessReplace | src/passes/strings-encoding/StringEncoding.cpp:434-451 | the initializer becomes the replacement padded with zeros or cut to the original element count and a replacement record is stored; consistency is kept |
| StringsEncodingLegacy.LegacyStringEncodingPass.Process | src/passes/strings-encoding/StringEncoding.cpp:414-432 | Skip reports no change and leaves the globals and records alone; every other verdict reports a change and records g; the new state is the one ProcessedRecordsVerdict describes |
| StringsEncodingLegacy.StackSiteRecoversPlain | src/passes/strings-encoding/StringEncoding.cpp:231-294 | every emitted stack decoding has a byte-buffer key of the string's length and a permutation order, and XORing key and encoded bytes yields the original string |
| StringsEncodingLegacy.InlineCallRecoversPlain | src/passes/strings-encoding/StringEncoding.cpp:397 | every queued decode call, run with its key and routine on its global's encoded bytes, yields the original string |

## Left out

- LLVM IR machinery: `IRBuilder` output, `CloneFunctionInto`, `InlineFunction` and the instruction-level shape of every emitted sequence are abstracted into datatypes that record what each rewrite computes. Only the arithmetic, selection, encoding and control flow these rely on is modelled.
- FunctionOutline.FunctionOutlinePass.Process: CodeExtractor is not modelled. Whether a picked region is eligible, what its inputs are and whether extraction succeeds are parameters; the body of the new function is not built.
- FunctionOutline.CallSite, FunctionOutline.ProcessedBlocks: an outlined block is left in place as a two-instruction block, a call followed by a branch. CodeExtractor's `splitReturnBlocks` and `severSplitPHINodes` can add blocks and loads of outputs, so `|r.blocks| == |blocks|` is a property of the model, not of LLVM.
- BasicBlockDuplicate.DuplicateBlock: the `SSAUpdater` rewrite of values that are defined in a duplicated block and used after it (src/passes/basic-block-duplicate/BasicBlockDuplicate.cpp:88-122) is not modelled. Phi nodes in the successors are updated. New blocks are appended; their placement in the function is not modelled.
- BasicBlockDuplicate.Coinflip: the value `lrand48()` returns at run time is a parameter. Which way each duplicated head branches at run time is not modelled.
- CfgFlattening.RunOnFunction, FlatteningLegacy.LegacyRunOnFunction: `reg2mem` and `demotePHINode` are not modelled. Blocks are taken to carry no phi nodes. The same holds for the `demotePHINode` call in the older string-encoding pass.
- CfgFlattening.RunOnFunction: the trampolines that `NormalDest2Split` inserts before the normal destination of an `invoke` (src/passes/cfg-flattening/ControlFlowFlattening.cpp:138-205) are counted by the block-size test (`BlockSize`, `CountTrampolines`), as in the source, but are not added as blocks: the flattened function has no dispatcher case for them, and its invokes keep their original normal destination. In the source they are inserted before the block-size check, so a function too small to flatten still gains them; the model leaves such a function unchanged.
- CfgFlattening.Run, FlatteningLegacy.LegacyRun: each function gets its own `FunctionDraws`. In the source all functions share the module generator. X and Y are drawn before the instruction-count, block-count and hook checks (src/passes/cfg-flattening/ControlFlowFlattening.cpp:126-129; src/passes/flattening/ControlFlowFlattening.cpp:27-28), so a function that is left alone still uses up two draws. The order of draws across functions is not modelled.
- Random number distributions: every `std::uniform_int_distribution` and `std::shuffle` is an oracle or an input sequence whose values lie in the distribution's bounds. Probabilities are not modelled. Nor is the order in which one pass consumes draws of the shared module generator, except where a member states it, such as `Utils.AssignIdsPrefix`.
- Utils.ShuffleFunctions, CfgFlattening.AssignIds, FlatteningLegacy.LegacyAssignIds, CfgFlattening.Run, FlatteningLegacy.LegacyRun: the retry loops draw from a finite sequence. When it runs out, the result is "out of draws", where the source would keep drawing. So the flattening passes' exact failure condition is stated for draws that suffice (`EnoughDraws`).
- Inline assembly: the inline-asm sequences the two flattening passes emit in the dispatcher's default case (src/passes/cfg-flattening/ControlFlowFlattening.cpp:68-117; src/passes/flattening/ControlFlowFlattening.cpp:146-159) are not modelled; a state value with no case reaches `Trap`. `FunctionOutline` sees inline asm only as the callee kind of a call.
- JIT and native code: the bytes `jitAsm` produces for BreakControlFlow are an input buffer whose length is a parameter. The older string-encoding pass compiles `ROUTINES` with clang and runs `encode` through the host JIT (`genRoutines`, `runClangExecutable`, `generateModule`, `loadModule`); the model applies the routine's semantics directly.
- Python embedding: the interpreter, pybind11, the GIL and the bindings are not modelled. A hook's return value is a datatype of the Python values the code distinguishes. The include/exclude/probability helper the sample configurations call is not part of this model; the hooks' answers are parameters.
- Plugin registration, YAML lookup, logging, and the `AntiHook`, `ObjCleaner` and `Cleaning` passes are not part of this model.
- OpaqueFieldAccess.RewritePointer: the source replaces every use of the rewritten `getelementptr` (`replaceAllUsesWith`, src/passes/opaque-field-access/OpaqueFieldAccess.cpp:80). The model rewrites the pointer of each load or store on its own; other users of the same instruction are not modelled.
- OpaqueFieldAccess.RewritePreservesAddress, OpaqueFieldAccess.BufferAccessPreserves: indices are natural numbers and offsets must lie below 2^31. Negative offsets such as `p[-1]`, which the source reads with `getLimitedValue()` and relies on 64-bit wrap-around for, are not modelled.
- StringEncoding.StringEncodingPass.EncodeOperand: how an operand is resolved to a global is not modelled. That covers `stripPointerCasts`, `extractGlobalVariable` on a constant expression, the nested global behind a constant-expression initializer with one use, and the global behind the initializer's pointer casts (src/passes/string-encoding/StringEncoding.cpp:255-282). An `Operand` carries the resolved global, if any, and whether it came through a constant-expression initializer.
- Arithmetic.Rewrite: operands are single `w`-bit integers. Vector operands are not modelled; the identities apply to each lane on its own.
- StringEncoding.StringEncodingPass.EncodeStrings: the pass records its decode calls in `ToInline` and its constructors in `Ctors`. Inlining those calls and appending the constructors to the global constructor list at the end of `run` (src/passes/string-encoding/StringEncoding.cpp:357-362) is not modelled.
- StringsEncodingLegacy.LegacyStringEncodingPass.Process: `isEligible`, `runOnBasicBlock` and `run` of the older string-encoding pass are not modelled. That includes the walk over operands, inlining `inline_wlist_` and registering `ctor_` (src/passes/strings-encoding/StringEncoding.cpp:76-205). The model starts from a global whose data has been found eligible. The materialisation of a constant-expression operand in `injectOnStackLoop` is not modelled either.
- StringsEncodingLegacy.LegacyStringEncodingPass.ProcessReplace: requires the string to have at least one element. Every `ConstantDataSequential` has one, and the source computes `getNumElements() - 1` on an unsigned value.
- CfgFlattening.RunOnFunction, FlatteningLegacy.LegacyRunOnFunction, OpaqueConstants.OpaqueConstantsPass.ProcessConstant, OpaqueConstants.OpaqueConstantsPass.Generate, OpaqueFieldAccess.RewritePointer: these pass-level members use the corrected helpers of "## Findings" (`FlattenedOrder`, `LegacyOrder`, `ShouldProtect`, `OpaqueConst`, `SplitBounds`, `StructAccess`, `ConstExprAccess`). The code as written is modelled beside each helper. Where the two differ is shown by the as-written members named in each row.

## Findings

| source | as written | input that shows it | evidently intended | confidence | as-written member | corrected member |
|---|---|---|---|---|---|---|
| src/passes/opaque-constants/GenOpaque.cpp:88-89 | `Split` is drawn from a `uint8_t` distribution over `[1, Val]`, so `Val` is narrowed to 8 bits | `Val = 256`: the bounds become `[1, 0]`, an empty range | draw `Split` in `[1, Val]` | not executed | GenOpaque.SplitBoundsEmptyAsWritten | GenOpaque.SplitBounds |
| src/passes/opaque-constants/GenOpaque.cpp:82 | `Val = getLimitedValue()` saturates a constant wider than 64 bits at `UINT64_MAX` | the `i128` constant 2^64 is rebuilt as 2^64 - 1 | rebuild the constant's own value | not executed | GenOpaque.WideConstantAsWritten | GenOpaque.ConstCorrect |
| src/passes/opaque-constants/OpaqueConstants.cpp:82 | a lower limit `v` protects the constant 1 when `v >= 1` | `LowerLimit(100)` protects 1 but not 50; `LowerLimit(0)` leaves 1 alone | protect 1 exactly when `1 > v`, as for every other value | not executed | OpaqueConstants.LowerLimitOneAsWritten | OpaqueConstants.ShouldProtectUniform |
| src/passes/opaque-constants/OpaqueConstants.cpp:104-110 | under a set, `getLimitedValue(MAGIC)` clamps every value at or above `MAGIC` to `MAGIC`, and that is always protected | the empty set protects `MAGIC`, a constant that fits in 64 bits | protect the set's members and the constants too wide for 64 bits | not executed | OpaqueConstants.MagicAsWritten | OpaqueConstants.ShouldProtectUniform |
| src/passes/opaque-field-access/OpaqueFieldAccess.cpp:51-54 | a struct access whose first index is not 0 draws a warning and is rewritten anyway, to the field offset from the base | `getelementptr {i32, i32}, p, 1, 0` addresses byte 8 of `p`; the rewrite addresses byte 0 | rewrite only accesses whose first index is 0 | not executed | OpaqueFieldAccess.StructFirstIndexAsWritten | OpaqueFieldAccess.StructAccessPreserves |
| src/passes/opaque-field-access/OpaqueFieldAccess.cpp:125-166 | a constant-expression access uses operand 2 as the element index, ignores operand 1 and drops the indices after operand 2 | `getelementptr [2 x [4 x i32]], @g, 0, 1, 2` addresses byte 24 of `@g`; the rewrite addresses byte 16 | rewrite only `getelementptr T, @g, 0, off` | not executed | OpaqueFieldAccess.ConstExprNestedAsWritten | OpaqueFieldAccess.ConstExprAccessPreserves |
| src/passes/cfg-flattening/ControlFlowFlattening.cpp:222-258 | the entry block is split before its terminator only for a conditional branch on an instruction, a switch or an invoke; any other entry terminator is erased and the dispatcher starts at the first non-entry block | an entry `br label %2` in front of blocks 1 and 2: the flattened function starts at block 1 | always split the entry, so that it runs its own terminator | not executed | CfgFlattening.EntryNotSplitAsWritten | CfgFlattening.FlattenedOrder |
| src/passes/flattening/ControlFlowFlattening.cpp:74-107 | the entry block is split only before a conditional branch on an instruction or a switch; an unconditional branch is erased | an entry `br label %2` in front of blocks 1 and 2: the flattened function starts at block 1 | always split the entry, so that it runs its own terminator | not executed | FlatteningLegacy.LegacyEntryNotSplitAsWritten | FlatteningLegacy.LegacyOrder |
