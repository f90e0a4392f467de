# Icarus Verilog front end: a verified model

Icarus Verilog compiles IEEE 1364 and IEEE 1800 sources. This project models four hard parts of
its front end (`iverilog-13_0/`) in Dafny and proves what they promise. Check it with
`dafny verify dfyconfig.toml`.

**Constant propagation over the netlist** (`FourState`, `Netlists`, `Cprop*`). A netlist is a map
of nodes over nexuses. Its meaning is the set of its settled valuations: every bit of every nexus
is the four-state resolution (section 4.6 of IEEE 1364-2005) of what its drivers put on it, for any
behaviour of the gates and of whatever drives from outside (`World`); the order of the drivers does
not matter (`FourState.ResolveListIsResolve`). The three rewrites of the
pass (merging part selects into a concatenation, folding a constant concatenation, turning a mux
with a constant select into a buffer) are proved to keep that meaning, in any order and number, and
the scan loop and the sweep of dangling constants are proved against them. `CpropDesign.Design` is
the imperative pass itself, with the guess that each nexus keeps about its drivers (`driven_`).
`CpropFields` says by the fields of signals and nodes alone which rewrites and deletions happen.

A net of a two-state type reads as 0 where nothing drives it, and there the pass is not always
right. The mux rewrite always is. A fold is safe when no operand hides a z, which a two-state net
shows as 0, or when the concatenation alone drives a net that reads z as 0 (`FoldSafe`); a merge is
safe when a driver from outside absorbs the filler 0 of a two-state net (`GapsAbsorbed`), which only
matters where such a net is driven from outside. Whole runs and the whole pass are proved for safe
runs, in both directions, and `CpropPlain` gives a condition on the netlist before the pass under
which every run is safe. `CpropLimits` shows three netlists on which the pass goes wrong: an undriven
two-state operand, the same behind a NetSubstitute, and a two-state inout port with a part select;
and it gives the exact conditions.

The pass can also miss a constant. A nexus once found not constant stays marked until one of its own
drivers is relinked, so a constant that reaches it later through a NetSubstitute is not seen
(`CpropStale`). The pass is proved to stop only where no rewrite is left but such folds, and to miss
nothing when no concatenation or part select reads a net behind a NetSubstitute.

**Expression sizing** (`Sizing`, `SizingNodes`, `SizingLaws`, `SizingExact`, `Congruence`). The stateful
`test_width` pass with its by-reference mode refines a two-pass specification; pruning to a
smaller width keeps low bits; in a lossless mode the exact value never wraps, and below it the width
is the largest of the leaves. Two findings: whether a
shift or power passes on the lossless mode of its left operand depends on the order in which the
operands around it are tested, and the lossless width of an unsigned power with exponent 0 is no
bound.

**Selects, targets and constants** (`Ranges`, `Selects`, `VariableBase`, `Concatenations`,
`ConstantCases`, `ShiftMeaning`, `ParameterSelects`). The code for reading, for procedural assignment, for net
targets and for run-time bases is each proved against one definition of the bits that an indexed
part select names. Two findings are outside the declared range: a downward select of the width of
the vector whose lowest bit is its own width less one is read as the whole vector, and a downward select of
several bits of a one-bit range keeps the wrong end. A third is within the range: an unsigned base
that does not fit 32 bits with a sign addresses nothing. Concatenation targets are proved for any
nesting.

**Scopes and types** (`Enumeration`, `Integers`, `Instantiation`, `TypeGraph`, `TypeMeaning`,
`TypeErrors`, `TypeElaboration`, `Constructors`). What type elaboration gives is stated twice: as plain
recursion, and by what the declarations say along the references. Findings: an enumeration of one signed bit steps from 0 to -1 without an error,
because its increment counts as -1 when the maximum is computed; blending stops the compiler when
the constructor that should receive a statement is a lone fork-join block, or, with no hidden
constructor, has no body at all.

Errors that the program prints are counters here. Where a comment in the source and the code
disagree the model follows the code.

## Model

| member | source | states |
|---|---|---|
| Netlists.ConstVecSound | iverilog-13_0/link_const.cc:32-269 | wherever the constants are settled, the constant read off a nexus, through any substitutions, is what the nexus holds, bit by bit, except that a hidden z shows as 0 |
| Netlists.AbsorbsZeroIff | iverilog-13_0/cprop.cc:318-340 | a 0 more on a bit makes no difference if and only if the net absorbs it, for all wirings, pulls and two-state nets |
| CpropFields.SignalFields | iverilog-13_0/link_const.cc:42-104 | by the fields of a signal: which let a value in from elsewhere, and which pull the net, to what |
| CpropFields.NeverConstant | iverilog-13_0/link_const.cc:42-88 | a nexus with a tran, an assigned or forced signal, a variable or an input or inout port of the root module is never found constant, past any marks |
| CpropFields.ReadIff | iverilog-13_0/link_const.cc:32-269 | where no NetSubstitute drives the nexus, the constant read is v if and only if v is what one constant, one pull or nothing at all holds it at, by the fields |
| CpropFields.SubstitutedBits | iverilog-13_0/link_const.cc:106-116 | behind a NetSubstitute: each bit is that of the part, or of the vector outside it |
| CpropRules.FoldSameMeaning | iverilog-13_0/cprop.cc:82-124 | folding a concatenation keeps the settled valuations when no operand hides a z or the concatenation alone drives a net that reads z as 0 |
| CpropRules.FoldBit | iverilog-13_0/cprop.cc:92-119 | a bit of the output stays as it is if and only if it hides no z or what else drives it absorbs a 0 |
| CpropRules.MuxSameMeaning | iverilog-13_0/cprop.cc:152-195 | replacing a two-way mux with a defined constant select by a buffer keeps the settled valuations, always |
| CpropFields.MuxIff | iverilog-13_0/cprop.cc:152-195 | a mux becomes a buffer if and only if it has two data inputs and a select of one bit that is held at 0 or 1, and then of the input that this selects |
| CpropFields.FoldIff | iverilog-13_0/cprop.cc:82-97 | a concatenation with no operand behind a NetSubstitute is folded if and only if it is not transparent and every operand is held at something |
| CpropFields.FoldFires | iverilog-13_0/cprop.cc:82-124 | operands held at constants fold into these in a row, the first one lowest |
| CpropRules.SameMeaningTrans | iverilog-13_0/cprop.cc:447-459 | equality of meaning composes, extra nexuses included |
| CpropCollapse.AcceptedIff | iverilog-13_0/cprop.cc:267-295 | for parts sorted by base, the check of neighbours and of the last part hold if and only if all parts are pairwise disjoint and inside the vector |
| CpropCollapse.RenderLayout | iverilog-13_0/cprop.cc:318-341 | the pins laid out for accepted parts have widths that add up to the vector, and every bit is the bit of the covering part or the filler |
| CpropMerge.MergeOrderAccepted | iverilog-13_0/cprop.cc:267-295 | what the checks accept in sorted order is a property of the set of part selects alone |
| CpropFields.MergeFires | iverilog-13_0/cprop.cc:213-295 | a net is merged if and only if its signals are plain nets, only part selects drive it, two or more or one if two-state, and these end inside it and lie beside each other |
| CpropMerge.MergeUnique | iverilog-13_0/cprop.cc:224-345 | any two sorted driver lists of one net give the same merged netlist: link order does not matter |
| CpropMergeProof.MergedBit | iverilog-13_0/cprop.cc:312-345 | a bit of the merged net resolves to what the old part selects resolved to if and only if it is not a gap of a two-state net, or what drives from outside absorbs a 0 |
| CpropMergeProof.MergeSameMeaning | iverilog-13_0/cprop.cc:213-348 | merging keeps the settled valuations when the fillers are absorbed: each extends over the new filler nexuses, each new one restricts to an old one |
| CpropMergeProof.MergeExact | iverilog-13_0/cprop.cc:213-348 | where the netlist can settle, a merge keeps its meaning if and only if the fillers are absorbed |
| CpropRun.MergedWidth | iverilog-13_0/cprop.cc:297-341 | the pin widths of the merged concatenation sum to the width of the signal |
| CpropRun.MergeRank | iverilog-13_0/cprop.cc:312-347 | a merge lowers 2 * part selects + concatenations + muxes |
| CpropRun.RewriteKeeps | iverilog-13_0/cprop.cc:82-348 | every enabled rewrite keeps well-formedness and lowers the rank |
| CpropRun.RunTerminates | iverilog-13_0/cprop.cc:451-459 | every run, safe or not, is no longer than the rank it starts with |
| CpropRun.RewriteStep | iverilog-13_0/cprop.cc:82-348 | every enabled and safe rewrite keeps the meaning |
| CpropRun.RunKeepsMeaning | iverilog-13_0/cprop.cc:447-459 | every safe run of rewrites, of any length and order, keeps exactly the settled values of the original nexuses |
| CpropPlain.PlainRunIsSafe | iverilog-13_0/cprop.cc:447-459 | from a netlist whose two-state nets are not read where constants travel every run is safe in every world |
| CpropPlain.PlainPass | iverilog-13_0/cprop.cc:447-470 | the whole pass on such a netlist shows what the netlist showed, and nothing else |
| CpropSweep.SweepSameView | iverilog-13_0/cprop.cc:367-444 | removing an all-z or unobserved constant cannot be seen, in either direction |
| CpropFields.SweepFires | iverilog-13_0/cprop.cc:367-444 | a constant is deleted if and only if it is all z, or no node reads its net and every signal of it is local, read by no expression and no port of the root module |
| CpropSweep.SweepKeepsView | iverilog-13_0/cprop.cc:367-459 | nor can a whole sweep of any constants in any order |
| CpropSweep.PassKeepsObservables | iverilog-13_0/cprop.cc:447-470 | a safe run and then a sweep: what a settled valuation shows on an original nexus is shown by the result |
| CpropSweep.PassAddsNothing | iverilog-13_0/cprop.cc:447-470 | conversely, two-state nets included, what the result shows some settled valuation of the original shows |
| CpropBuild.Links | iverilog-13_0/cprop.cc:224-252 | lists each driver of a nexus once |
| CpropBuild.FindParts | iverilog-13_0/cprop.cc:222-295 | finds the sorted part selects of a net exactly when they can be merged |
| CpropBuild.SortByBase | iverilog-13_0/cprop.cc:267-268 | the driver list becomes a sorted permutation of itself |
| CpropBuild.CheckParts | iverilog-13_0/cprop.cc:270-295 | accepts exactly the lists that pass the neighbour and tail checks |
| CpropBuild.CountPins | iverilog-13_0/cprop.cc:297-310 | the counting loop finds the number of pins that the building loop connects |
| CpropBuild.BuildPins | iverilog-13_0/cprop.cc:318-341 | the building loop creates the fillers, their nets and the connections of the layout |
| CpropBuild.BuildMerge | iverilog-13_0/cprop.cc:312-345 | the netlist built is the merge of the part selects |
| CpropDesign.Design.DriversConstant | iverilog-13_0/link_const.cc:32-137 | finds a nexus constant exactly when its links and the guesses say so, and then neither a tran nor a signal that lets a value in is there; marks it otherwise, and keeps every guess right |
| CpropDesign.Design.DrivenValue | iverilog-13_0/link_const.cc:139-207 | the bit of a nexus seen to be constant, z behind a NetSubstitute, kept as the guess |
| CpropBuild.DrivenVector | iverilog-13_0/link_const.cc:210-269 | the vector of a constant nexus, patched through substitutions |
| CpropCache.SeenIff | iverilog-13_0/link_const.cc:32-137 | what one look at the links decides is what reading past the marks finds |
| CpropCache.SeenSame | iverilog-13_0/link_const.cc:113-137 | the marks that looking leaves change nothing about what is seen |
| CpropCache.StaleBySubstitute | iverilog-13_0/link_const.cc:106-116 | a constant that is not seen is driven by a NetSubstitute |
| CpropCache.CacheKept | iverilog-13_0/net_link.cc:388-418 | clearing the guess about the rewired nexus keeps all others right |
| CpropVisit.EnabledSomewhere | iverilog-13_0/functor.cc:141-184 | every enabled rewrite shows at some node, so that a scan over all nodes misses none |
| CpropVisit.UnseenIsBlinded | iverilog-13_0/cprop.cc:92-97 | an enabled fold is not seen if and only if an operand behind a NetSubstitute is not seen |
| CpropVisit.NoSubstituteRun | iverilog-13_0/cprop.cc:447-459 | that no concatenation or part select reads behind a NetSubstitute is kept by every run |
| CpropStale.MissedConstant | iverilog-13_0/link_const.cc:32-137 | the concrete case: visiting the reader first leaves a fold that no later scan finds |
| CpropDesign.Design.LpmConcat | iverilog-13_0/cprop.cc:82-124 | folds exactly when all operands are seen to be constant past the marks that the nexuses carry, counts it and clears the mark of the output; else leaves a mark on an operand |
| CpropDesign.Design.LpmMux | iverilog-13_0/cprop.cc:152-195 | becomes a buffer exactly when the select is a defined constant and counts it |
| CpropDesign.Design.LpmPartSelect | iverilog-13_0/cprop.cc:213-348 | merges exactly when merging is enabled and counts it |
| CpropDesign.Design.Scan | iverilog-13_0/cprop.cc:451-459 | a scan lowers the rank by at least the count, and counts 0 if and only if no visit can do anything |
| CpropDesign.Design.LpmConst | iverilog-13_0/cprop.cc:367-444 | deletes the constant if and only if it is all z, or no node reads its net and every signal of it is local, read by no expression and no port of the root module |
| CpropDesign.Design.SweepAll | iverilog-13_0/cprop.cc:460-470 | the last scan is a sweep, and leaves no constant that could be deleted |
| CpropDesign.Design.Cprop | iverilog-13_0/cprop.cc:447-470 | terminates within rank + 1 scans; its history is a run of rewrites, followed by a sweep; after the run only folds with an operand that a stale mark hides are enabled, and none if nothing read a net behind a NetSubstitute; in the end no constant can be deleted |
| CpropLimits.ReadExact | iverilog-13_0/link_const.cc:139-269 | a constant read off a nexus, through any substitutions, is its settled value if and only if it hides no z |
| CpropLimits.OperandsExact | iverilog-13_0/cprop.cc:92-101 | the folded constant is what the settled operands make if and only if none hides a z |
| CpropLimits.FoldExact | iverilog-13_0/cprop.cc:92-119 | a settled valuation survives a fold if and only if every hidden z is absorbed by what else drives the bit |
| CpropLimits.FoldUndrivenTwoState | iverilog-13_0/cprop.cc:92-108 | the concrete case: an undriven two-state operand turns 0 into z |
| CpropLimits.FoldBehindSubstitute | iverilog-13_0/cprop.cc:92-119 | a four-state operand can hide a z behind a NetSubstitute: the settled valuation does not survive |
| CpropLimits.MergeSharedTwoState | iverilog-13_0/cprop.cc:222-260 | the concrete merge: a two-state inout port driven to 1 from outside becomes x |
| CpropLimits.GapExact | iverilog-13_0/cprop.cc:322-340 | when an outside driver absorbs the filler 0 of a two-state net: on a wire, a wired-and and a wired-or |
| Sizing.TestWidthIsTwoPass | iverilog-13_0/elab_expr.cc:465-559 | the single pass with re-test ends in the mode of a first pass over the leaves and the width of one uniform rule; the mode never goes down |
| SizingLaws.SizedIsLargest | iverilog-13_0/elab_expr.cc:465-559 | a test that starts sized or unsized and ends below lossless returns the largest width of the leaves that count, an unsized number counted at least as an integer |
| SizingLaws.ExpandIsEnough | iverilog-13_0/elab_expr.cc:465-559 | a test that starts with EXPAND returns at least that |
| SizingLaws.SignIsAllLeaves | iverilog-13_0/elab_expr.cc:465-559 | an expression is signed if and only if all leaves that count are |
| SizingLaws.HasUnsizedIsSomeLeaf | iverilog-13_0/elab_expr.cc:6899-6929 | a sized test turns unsized if and only if some leaf is a short unsized number |
| SizingLaws.MinIsLargest | iverilog-13_0/elab_expr.cc:465-559 | the minimum width is the largest of the leaves where pruning is allowed, else disabled |
| SizingLaws.LooseIsLeast | iverilog-13_0/elab_expr.cc:509-531 | the lossless width of a sum, difference or product is the least that holds all results of signed operands |
| Sizing.ForcesIsSomeLeaf | iverilog-13_0/elab_expr.cc:6899-6929 | without shifts the lossless mode is forced if and only if some leaf forces it |
| Sizing.ShiftOrderMatters | iverilog-13_0/elab_expr.cc:992-1155 | with shifts it depends on the order of the operands: a concrete pair |
| Sizing.UpsizeIff | iverilog-13_0/elab_expr.cc:465-559 | for every expression, shifts included, the mode becomes UPSIZE if and only if a first pass finds operands of different signedness or a signed right shift, and the stored width follows |
| Sizing.ClashIsMixed | iverilog-13_0/elab_expr.cc:7014-7072 | without shifts that is any operator whose operands differ in signedness, wherever it stands |
| SizingNodes.PExpr.FixWidth | iverilog-13_0/elab_expr.cc:185-193 | returns the tested width and widens the stored one only in UPSIZE |
| SizingNodes.PExpr.TestWidth | iverilog-13_0/elab_expr.cc:465-559 | the methods that write the fields of the expression nodes refine the sizing function |
| SizingNodes.PExpr.TestBinary | iverilog-13_0/elab_expr.cc:465-559 | the same for binary operators, with the re-test of the right operand |
| SizingNodes.PExpr.TestTernary | iverilog-13_0/elab_expr.cc:7014-7072 | the same for the conditional operator |
| SizingNodes.PExpr.TestShift | iverilog-13_0/elab_expr.cc:992-1155 | the same for shifts and powers |
| SizingExact.PruningSound | iverilog-13_0/PExpr.h:81-130 | where min_width is not disabled, any width from max(min_width, k) on gives the same low k bits as the full width |
| SizingExact.RightShiftNotPrunable | iverilog-13_0/elab_expr.cc:1142-1145 | a right shift, where it is disabled, does need its upper bits |
| SizingExact.ExactFits | iverilog-13_0/elab_expr.cc:509-531 | the exact integer value of every expression of + - * ?: over signed leaves, or + * ?: over unsigned ones, fits the lossless width |
| SizingExact.EvalIsExact | iverilog-13_0/elab_expr.cc:509-531 | evaluation at a width is the exact value modulo that width |
| SizingExact.LosslessNeverWraps | iverilog-13_0/elab_expr.cc:7051-7062 | when the test ends lossless, evaluation at the returned width gives the exact value |
| SizingExact.UnsignedPower | iverilog-13_0/elab_expr.cc:1037-1140 | an unsigned base of w bits to the power r >= 1 fits w * r bits |
| SizingExact.SignedPower | iverilog-13_0/elab_expr.cc:1037-1140 | a signed base of w bits to the power r fits (w - 1) * r + 2 bits |
| SizingExact.ShiftFits | iverilog-13_0/elab_expr.cc:1037-1140 | a base of w bits shifted left by r fits w + r bits |
| SizingExact.ShiftWidthBounds | iverilog-13_0/elab_expr.cc:1037-1140 | the width computed for a constant amount up to the cap bounds every result, an unsigned power that is not one of literals if and only if the exponent is not 0 |
| SizingLaws.LeftIsLeast | iverilog-13_0/elab_expr.cc:1037-1140 | for a constant left shift it is the least width |
| SizingLaws.SignedPowerIsLeast | iverilog-13_0/elab_expr.cc:1037-1140 | for a signed base and an even constant exponent it is too |
| SizingLaws.UnsignedPowerStep | iverilog-13_0/elab_expr.cc:1037-1140 | for an unsigned base it starts from 0 and grows by the width of the base with the exponent |
| SizingLaws.NoGrowth | iverilog-13_0/elab_expr.cc:1037-1140 | a right shift, and a left shift of a sized operand, keeps the width |
| SizingLaws.UnknownAmount | iverilog-13_0/elab_expr.cc:1037-1140 | an amount that is not constant counts as the largest of its width, cut to an integer's width; a negative one counts as 0 and a large one as the cap |
| Ranges.SbToIdx | iverilog-13_0/netlist.cc:769-805 | the loop from the innermost dimension out computes the canonical position of a full index list |
| Ranges.SbToSlice | iverilog-13_0/nettypes.cc:132-194 | gives offset and width of a slice and refuses exactly the indices outside the range |
| Ranges.OffsetInside | iverilog-13_0/nettypes.cc:132-194 | a slice with all indices in range lies inside the vector |
| Ranges.OffsetDisjoint | iverilog-13_0/nettypes.cc:132-194 | slices of different indices share no bit |
| Ranges.OffsetDown | iverilog-13_0/netlist.cc:769-805 | a slice begins where its own lowest element begins |
| Selects.SelectMeans | iverilog-13_0/elab_net.cc:295-343 | a canonical bit belongs to a select if and only if it is a bit of an element that the select names |
| Selects.SelectInside | iverilog-13_0/elab_net.cc:295-343 | a select within the declared range lies inside the vector |
| Selects.ReadSelect | iverilog-13_0/elab_expr.cc:6034-6080 | the bits read for [b +: w] and [b -: w], sub-arrays included, with bounds errors and the whole-vector case |
| Selects.AssignSelect | iverilog-13_0/elab_lval.cc:905-988 | the bits assigned procedurally, refused when out of bounds or when a bit of an unresolved net is driven already |
| Selects.NetSelect | iverilog-13_0/elab_net.cc:253-390 | the bits of a net target; out of range too they are those that the select names, unless wholly outside |
| Selects.RelBaseExact | iverilog-13_0/elab_lval.cc:962-975 | the computed base is the lowest named bit if and only if it is not a downward select of several bits of a one-bit range |
| Selects.InRangeAgree | iverilog-13_0/elab_expr.cc:6034-6071 | within the declared range the bases that the code computes are that of the bits named |
| Selects.AllThree | iverilog-13_0/elab_net.cc:253-343 | a select within the range elaborated for reading, for assignment and as a net target: all three agree, and address the bits named if the base is signed or from 0 to below 2^31, nothing if it is unsigned and from there to below 2^32 |
| Selects.AssignThenRead | iverilog-13_0/elab_lval.cc:905-988 | assigning and then reading gives the value assigned, for every signed base and every one from 0 to below 2^31, and keeps the other elements; a base that wraps assigns nothing and reads x |
| VariableBase.WrappedBaseIff | iverilog-13_0/elab_lval.cc:910-925 | a base wraps if and only if it is unsigned and its low 32 bits, read with a sign, are negative |
| Selects.WrappedInRange | iverilog-13_0/elab_lval.cc:910-925 | the concrete base within its range that addresses nothing |
| Selects.ReadExact | iverilog-13_0/elab_expr.cc:6229-6247 | exactly when a single-level read means the bits that it names, for every base and width |
| Selects.OutOfRangeReads | iverilog-13_0/elab_expr.cc:6226-6247 | two concrete reads outside the range that give other bits |
| Selects.WriteRead | iverilog-13_0/elab_lval.cc:928-975 | bits written to a select within the range are read back from it, and elements that it does not name keep their value |
| VariableBase.NumBits | iverilog-13_0/netmisc.cc:300-318 | the number of bits is enough for the number and, for a positive one, no more than enough |
| VariableBase.Normalize | iverilog-13_0/netmisc.cc:327-376 | the expression built for a run-time base has the exact canonical base for every value of the base: it never overflows |
| VariableBase.ExactIsSelect | iverilog-13_0/netmisc.cc:393-407 | that is the base of the bits that the select names, in and out of range |
| Concatenations.Link | iverilog-13_0/elab_lval.cc:144-153 | walking a chain to its end and relinking it gives the two chains in a row |
| Concatenations.CleanIff | iverilog-13_0/elab_lval.cc:104-156 | a target is without errors if and only if no operand at any depth is bad by itself and no concatenation is repeated |
| Concatenations.FlatLeaves | iverilog-13_0/elab_lval.cc:104-156 | the chain of a target without errors has its leaves, at any depth, and nothing else |
| Concatenations.ElaborateLval | iverilog-13_0/elab_lval.cc:104-156 | the chain is the flattened operand list, least significant first, and errors are counted exactly when an operand has one |
| Concatenations.CutVector | iverilog-13_0/elab_net.cc:102-162 | the part selects tile the vector with nothing left over |
| Concatenations.ElaborateLnet | iverilog-13_0/elab_net.cc:45-165 | for any nesting every declared net receives the bits that the procedural chain gives it |
| Concatenations.DealGather | iverilog-13_0/elab_lval.cc:104-156 | dealing a value to a chain gives each target its width, in order, and loses or doubles no bit |
| ConstantCases.AsUlong | iverilog-13_0/verinum.cc:432-449 | the number, saturated at 64 bits |
| ConstantCases.ElaborateShift | iverilog-13_0/elab_expr.cc:1261-1364 | every short cut of a shift gives what the four-state shift gives, for all operands that agree with what is known; and exactly when each is taken |
| ShiftMeaning.LeftShiftMeans | iverilog-13_0/elab_expr.cc:1261-1364 | the shift left of defined vectors multiplies by the power of two, reduced to the width |
| ShiftMeaning.RightShiftMeans | iverilog-13_0/elab_expr.cc:1261-1364 | the shift right divides by it, rounding down; an arithmetic one of a signed vector divides the signed number |
| ConstantCases.ElaborateMultiply | iverilog-13_0/elab_expr.cc:749-780 | the same for a product with an undefined or zero constant on either side |
| ConstantCases.MultiplyMeans | iverilog-13_0/elab_expr.cc:749-780 | the product of defined vectors is the product of the numbers reduced to the width |
| ConstantCases.LogicalNot | iverilog-13_0/elab_expr.cc:7415-7441 | 0 if some bit is 1, 1 if all are 0, else x: the negated or of the bits |
| ConstantCases.ElaborateTernary | iverilog-13_0/elab_expr.cc:7107-7157 | the first clause if and only if the condition is the single bit 1, the second if and only if it is the single bit 0, which is what the four-state operator gives |
| ConstantCases.TernaryMeans | iverilog-13_0/elab_expr.cc:7107-7157 | a condition with a 1 picks the first clause, one of zeros the second, any other the bits that the clauses share |
| ConstantCases.WideCondition | iverilog-13_0/netmisc.cc:794-807 | a known condition of two bits is left to the general operator |
| ConstantCases.OrFoldMeans | iverilog-13_0/netmisc.cc:774-808 | the or of the bits: 1 if some bit is 1, 0 if all are 0, else x |
| ParameterSelects.PartSelectBits | iverilog-13_0/elab_expr.cc:5140-5165 | each bit of the result is the bit select of the corresponding declared index |
| ParameterSelects.UnsizedBit | iverilog-13_0/elab_expr.cc:5223-5240 | a defined parameter without a length has the bits of its integer, signed or not, at every position from 0 up |
| ParameterSelects.PartSelect | iverilog-13_0/elab_expr.cc:5317-5352 | the same for P[m:l], from l up to m, refused exactly when out of order |
| ParameterSelects.IndexedSelect | iverilog-13_0/elab_expr.cc:5440-5552 | the same for P[b+:w] and P[b-:w], all x for an undefined base |
| ParameterSelects.NamedOnce | iverilog-13_0/elab_expr.cc:5440-5552 | the declared indices delivered are those that the select names, each once |
| Integers.IncAsInt | iverilog-13_0/elab_scope.cc:197-211 | a value not taken for the maximum is incremented to its integer plus one if and only if it is not one signed bit holding 0 |
| Integers.PadAsInt | iverilog-13_0/verinum.cc:645-676 | padding keeps the integer unless a negative number is then read unsigned |
| Integers.CutAsInt | iverilog-13_0/elab_scope.cc:273-324 | a value that may be cut keeps its integer |
| Integers.CutComplete | iverilog-13_0/elab_scope.cc:273-324 | a value whose integer fits may be cut |
| Enumeration.CheckTrimmed | iverilog-13_0/elab_scope.cc:275-310 | the loop accepts exactly the values whose upper bits repeat the top kept bit or, unsigned, are zero |
| Enumeration.ElaborateExplicit | iverilog-13_0/elab_scope.cc:217-330 | no error exactly when the bits and attributes of the constant meet the rules, and then every bit is that of the constant, or extends it |
| Enumeration.FitsBits | iverilog-13_0/elab_scope.cc:217-330 | whatever its width, and defined or not, the value recorded has the bits of the constant, extended above them |
| Enumeration.AcceptableIff | iverilog-13_0/elab_scope.cc:217-330 | the rules on bits and attributes hold if and only if some value fits |
| Enumeration.AcceptableRange | iverilog-13_0/elab_scope.cc:217-330 | a defined constant of another width is accepted if and only if its integer is in the range of the enumeration and a literal width agrees |
| Enumeration.AssignedUnique | iverilog-13_0/elab_scope.cc:214-373 | the rules leave at most one assignment of values |
| Enumeration.Elaborate | iverilog-13_0/elab_scope.cc:197-373 | no error if and only if the names can be given distinct values by the rules, and then the tables hold those |
| Enumeration.AcceptedTable | iverilog-13_0/elab_scope.cc:197-373 | accepted values are distinct and of the enumeration's width, explicit ones of another width keep their integer, inferred ones are the predecessor plus one |
| Enumeration.AcceptedBits | iverilog-13_0/elab_scope.cc:197-373 | in an accepted table every explicit value has the bits of its constant, and a first name without a value is all zeros |
| Enumeration.AcceptedNames | iverilog-13_0/elab_scope.cc:335-373 | accepted names differ from each other and from those of the scope |
| Enumeration.PlainNames | iverilog-13_0/elab_scope.cc:197-373 | distinct names without values are accepted as 0, 1, 2, ... as far as the range goes |
| Enumeration.ExplicitNames | iverilog-13_0/elab_scope.cc:197-373 | distinct names with acceptable and distinct constants are accepted with the bits of these |
| Enumeration.OneBitCounts | iverilog-13_0/elab_scope.cc:201-212 | with one signed bit inferred values count up if and only if each follows an explicit -1 |
| Enumeration.OneBitWraps | iverilog-13_0/elab_scope.cc:201-212 | the concrete case: two names get 0 and -1 without an error |
| Instantiation.MayInstantiate | iverilog-13_0/elab_scope.cc:1421-1464 | the walk up the scopes accepts exactly when the module occurs at most limit times above, each time behind a generate block |
| Instantiation.AllowedMeans | iverilog-13_0/elab_scope.cc:1421-1464 | a module that is not above is accepted; one that is above needs a generate block below each instance, and a limit above 0 |
| Instantiation.CountIs | iverilog-13_0/elab_scope.cc:1421-1464 | the count is the number of places where the module stands above |
| Instantiation.AcceptedIff | iverilog-13_0/elab_scope.cc:1421-1464 | a chain of accepted scopes is exactly one with at most limit + 1 instances of any module, any two separated by a generate block |
| Instantiation.NestingBound | iverilog-13_0/elab_scope.cc:1421-1464 | module nesting is at most modules * (limit + 1) deep |
| Instantiation.ElaborateScope | iverilog-13_0/elab_scope.cc:859-864 | recursive scope elaboration terminates whatever the modules contain, creates exactly the scopes granted all the way, and reports an error exactly when one asks for a refused instance |
| Instantiation.TextIsElaborated | iverilog-13_0/elab_scope.cc:859-864 | every block in the text of a known module that has a scope has one too, and every instance that is granted |
| Instantiation.BlockIsElaborated | iverilog-13_0/elab_scope.cc:859-864 | the same for the text of a block, generate block or not |
| Instantiation.NothingElse | iverilog-13_0/elab_scope.cc:1351-1355 | every scope but the root stands for an item in the text of its parent |
| Instantiation.ScopesAreAccepted | iverilog-13_0/elab_scope.cc:1351-1355 | every scope created obeys all these bounds |
| TypeGraph.GroundedMeansAcyclic | iverilog-13_0/elab_type.cc:42-68 | a type for which plain recursion ends reaches no cycle |
| TypeGraph.PlainUnique | iverilog-13_0/elab_type.cc:199-261 | plain recursion gives one result, whatever the bound on its depth |
| TypeElaboration.Elaborator.ElaborateType | iverilog-13_0/elab_type.cc:42-68 | with the in-progress flags as a stack: the stack comes back, the cache grows and stays right, a circularity error has a cycle behind it, and the other errors are those of the types added |
| TypeElaboration.Elaborator.ElaborateRaw | iverilog-13_0/elab_type.cc:139-414 | the type made is the one that the cached parts give; its own errors are counted once |
| TypeElaboration.Elaborator.ElaborateMembers | iverilog-13_0/elab_type.cc:199-261 | the same for the members of a struct, in order |
| TypeElaboration.ElaborateFresh | iverilog-13_0/elab_type.cc:42-68 | elaboration from an empty cache terminates and reports a circularity if and only if a cycle is reachable; otherwise the cache holds exactly the reachable types, each as plain recursion gives it, the result says what the declarations say, and the errors are the sum over these types |
| TypeMeaning.PlainDeclares | iverilog-13_0/elab_type.cc:139-414 | the unpacked dimensions of the result are those declared along the references, what is inside them is the type that these lead to, with the declared field names in order, and the number of scalars is the declared product and sum |
| TypeMeaning.StructFields | iverilog-13_0/elab_type.cc:217-258 | each name of a struct has its own dimensions in front of those of its member type, and inside them what the member type declares |
| TypeMeaning.NamesAre | iverilog-13_0/elab_type.cc:217-258 | the field names are the declared names, in order |
| TypeErrors.PackedMeans | iverilog-13_0/elab_type.cc:139-197 | a type counts as packed, or as the base of an enumeration, by the declaration that the references lead to through no unpacked dimension |
| TypeErrors.LocalErrorsMean | iverilog-13_0/elab_type.cc:139-197 | which packed arrays and enumerations have an error, by their declarations |
| TypeErrors.InitialisedInIs | iverilog-13_0/elab_type.cc:234-243 | a packed struct has as many errors as it has names with an initial value |
| Constructors.PBlock.ExtractChain | iverilog-13_0/Statement.cc:126-139 | shifting in place takes off exactly a leading chain call |
| Constructors.PBlock.PushFront | iverilog-13_0/Statement.cc:153-162 | shifting in place puts a statement in front and keeps the others in order |
| Constructors.PFunction.ExtractChain | iverilog-13_0/PFunction.cc:74-87 | the same for a function body, a lone chain call included |
| Constructors.PFunction.PushFront | iverilog-13_0/PFunction.cc:45-67 | the same for a function body, wrapped into a block where needed; stops without a sequential body |
| Constructors.ExtractAndPush | iverilog-13_0/PFunction.cc:45-87 | taking a leading chain call off and pushing it back restores the body |
| Constructors.BlendBoth | iverilog-13_0/elab_scope.cc:433-476 | the explicit constructor becomes chain call, initialisers, remaining statements; goes through exactly when nothing is pushed or it is not a lone fork-join |
| Constructors.PClass.Blend | iverilog-13_0/elab_scope.cc:404-476 | all four combinations of explicit and hidden constructor |
| Constructors.StoppedClasses | iverilog-13_0/PFunction.cc:45-67 | two classes that stop the compiler: a lone fork-join constructor, and a derived class whose constructor has no body |
| Constructors.BlendedConserves | iverilog-13_0/elab_scope.cc:404-476 | no statement is lost or doubled; only an implied chain call is new |
| Constructors.BlendedIsFinal | iverilog-13_0/elab_scope.cc:404-476 | the chain call comes first, and blending again changes nothing |

## Left out

- The RISC-V design that the repository's top-level documentation describes: its RTL is not part of this model.
- Delays, drive strengths and the flip-flop rule `lpm_ff` of the propagation pass: settled values are the level of the model, and a removed self-loop flip-flop is no equality at that level.
- Devices with several outputs are several nodes here, and transmission-gate islands are an outside driver; the order in which a scan visits nodes is arbitrary.
- Cycles of substitutions, on which the program does not return: `Design` asks for a level of each nexus that they descend.
- CpropDesign.Design.DriversConstant: signals are looked at before nodes; the order of links only decides which nexuses behind a NetSubstitute are marked along the way. Guesses made before the pass are any that are right.
- Unsigned 32-bit overflow of part-select bases and widths, and of widths in sizing.
- Strict-width mode, reals, strings, classes, queues, dynamic arrays, system functions and casts in expression sizing.
- SizingExact.ExactFits: leaves out unary minus, which is not widened, and unsigned subtraction.
- Selects.ReadSelect: warnings and undefined bases (all x, or passed on to code generation) are not modelled.
- Selects.AssignThenRead: states the round trip for selects within the declared range.
- SizingNodes.PExpr.TestShift: the length of the power of two literal numbers is given, not computed.
- VariableBase.Normalize: the x and z bits of a run-time base are not modelled.
- Concatenations.ElaborateLnet: the bidirectional form, which uses transmission gates with the same offsets and widths, is not separate; operands that are missing, real or undeclared are one kind of error.
- ConstantCases.ElaborateShift: both operands constant and nonzero goes to the general operator, as in the program.
- Parameters that are strings, which pad with nulls.
- Enumeration.Elaborate: the order of names and the bit strings kept for code generation are left out; string constants are too.
- Instantiation.ElaborateScope: instance names, arrays of instances and the delayed work list are left out; what a module contains is any function of its path.
- TypeElaboration.ElaborateFresh: class types, dynamic arrays and queues are left out, and so are the recovery type that a circular entry leaves behind and the error for an enumeration based on more than one packed dimension.
- Statement bodies are opaque in constructor blending; deletion of the hidden constructor is removal from the table.
- Attributes, gates' delays, host-name handling, dumping and code emission: they would add easy members only.
