# A verified model of the core of a transient gas-network simulator

The simulator integrates the differential-algebraic system of a gas network
in time. It has three layers, and this project models the core of each one
in Dafny. The code it models is Python and C++.

- **paso** is the numerical toolbox:
  - the implicit Euler integrator and its step-size control;
  - the damped Newton solver with optional row scaling;
  - the homotopy continuation around Newton;
  - the finite-difference Jacobian in compressed sparse row (CSR) form, with
    its column grouping (directions);
  - the options base class that records overridden defaults;
  - the helpers `iter_window`, `force_array` and `fuse`;
  - the smooth `max`/`min` functions.
- **simulator** reads and builds the network:
  - the time profiles (`table_lookup`);
  - the unit strings and the casting of arithmetic strings;
  - the scenario CSV reader;
  - the parts of the network YAML reader that decide how a description is read;
  - the network graph, which hands every element a block of the state vector.
- **cycADa** is the automatic-differentiation tape:
  - the ordering of variable ids;
  - the permutation maps;
  - the merged variable sets of binary operations and their sparse gradients;
  - comparison codes;
  - the tape's op list, id counters, gradient offsets and vector sizes, and
    the reverse sweep.

Each source file becomes one module:
- pure code becomes datatypes, functions and lemmas;
- code that updates state becomes classes whose methods state the new state
  and the invariants they keep.

Floating-point values are modelled as `real`. Callbacks the code receives
become function-typed parameters:
- the system function;
- the linear solver;
- the unit conversions;
- the float parser.

Strings are sequences of characters. A small `Strings` module supplies
Python's `in`, `split`, `join`, `replace`, `lower` and string order. A
`Sorting` module supplies an insertion sort that stands for Python's
`sorted`.

## Model

| member | source | states |
|---|---|---|
| MathAux.ClippedFunc | paso/differentiation/util/math_aux.py:21 | for a <= b the result is a below a, b above b and x in between; it always lies between a and b |
| MathAux.Relu | paso/differentiation/util/math_aux.py:24 | the result is the positive part of x: non-negative, at least x, and either x or 0 |
| MathAux.Max2 | paso/differentiation/util/math_aux.py:65-66 | the smooth form is the maximum: at least both arguments and equal to one of them |
| MathAux.Min2 | paso/differentiation/util/math_aux.py:68-69 | the smooth form is the minimum: at most both arguments and equal to one of them |
| MathAux.PairMax | paso/differentiation/util/math_aux.py:77 | the even-length step keeps half the entries, entry i the maximum of arguments 2i and 2i+1 |
| MathAux.PairMin | paso/differentiation/util/math_aux.py:85 | the same for the minimum |
| MathAux.Maximum | paso/differentiation/util/math_aux.py:71-77 | the result is None exactly when there are no arguments |
| MathAux.MaximumIsMax | paso/differentiation/util/math_aux.py:71-77 | with arguments, the n-ary maximum is one of them and no argument exceeds it |
| MathAux.Minimum | paso/differentiation/util/math_aux.py:79-85 | the result is None exactly when there are no arguments |
| MathAux.MinimumIsMin | paso/differentiation/util/math_aux.py:79-85 | with arguments, the n-ary minimum is one of them and no argument is below it |
| Basics.IterWindow | paso/util/basics.py:35-61 | n = 0 raises IndexError. A negative n yields the empty window and fails on the first further item. A positive n yields 1 + max(0, len - n) windows of length n: the first n items padded with the default, then sliding by one |
| Basics.FillWindow | paso/util/basics.py:55-56 | the first window is the first n items, padded with the default when there are fewer, and empty for n <= 0 |
| Basics.SlideWindows | paso/util/basics.py:58-61 | every further window is the previous one without its oldest item and with the next item appended, so window j is items[j..j+n] |
| Basics.ForceArray | paso/util/basics.py:82-108 | with force_1D the result is the flat array of all values. The values, in order, are never changed, and a scalar becomes a one-element array |
| Basics.FlattenAllAppend | paso/util/basics.py:98-99 | flattening a list is the concatenation of its flattened entries |
| Basics.FlattenScalars | paso/util/basics.py:100 | a list of scalars flattens to the list of their values |
| Basics.FlattenIdempotent | paso/util/basics.py:92-102 | flattening the flat result again changes nothing |
| Basics.Fuse | paso/util/basics.py:126-144 | the result is FuseFrom of the sorted input: each recorded pass is GreedyPass of the one before, fuse raises exactly when ten passes all merged, and otherwise returns the last pass. On success the result is ascending, no two entries closer than min_dist, no longer than the input, within the input's minimum and maximum, and empty for empty input; input whose sorted form is already separated comes back sorted and unchanged. Each pass shortens the list before it by replacing consecutive blocks of it with their means |
| Basics.FusePass | paso/util/basics.py:129-139 | one pass returns exactly GreedyPass of its ascending input: the means of the consecutive blocks the greedy scan forms (a mean taken as often as its block has entries sums to the block), ascending and within the input's ends. It reports mergers exactly when the list got shorter; without a merger the list comes back unchanged and is separated |
| Basics.AbsorbSuccessors | paso/util/basics.py:133-138 | the inner loop folds the m entries right after idx into the running mean at idx, whose m + 1 copies sum to the values they replace, and the block it forms is the one Grow forms at idx (same length, same mean); the absorbed slots become None and the rest of the list is untouched. It merges nothing exactly when every later entry is at least min_dist away |
| Basics.AbsorbNext | paso/util/basics.py:134-137 | one successor step keeps the inner loop's state: a successor closer than min_dist joins the mean and its slot becomes None; a farther one ends the merging |
| Basics.MeanStep | paso/util/basics.py:135 | the new mean (j e + s)/(j + 1), taken j + 1 times, sums to j copies of the old mean e plus the absorbed value s |
| Basics.ScanLive | paso/util/basics.py:132-138 | visiting a live slot closes one more block of the input, the one Grow forms at that slot, whose mean joins the means so far, keeping the state of the pass |
| Basics.FuseScan | paso/util/basics.py:131-138 | the loop over the slots leaves as live entries exactly GreedyPass of the input: ascending, within the input's ends, the means of consecutive blocks that cover the input in order. A separated input merges nothing, and without a merger the slots hold the input unchanged, which is then separated |
| Basics.BlocksKeepSum | paso/util/basics.py:126-141 | block means, each weighted by the size of its block, sum to the sum of the input, and the block sizes add up to the input's length |
| Basics.MergingSnoc | paso/util/basics.py:139-141 | a pass that merged and shortened the list extends the record of passes |
| Basics.FuseStep | paso/util/basics.py:128-141 | a pass without mergers leaves a separated list that is the final FuseFrom result; a pass with mergers is recorded as the greedy pass over the last one and keeps the list ascending, within the data's range and no longer than the data |
| Basics.FuseStart | paso/util/basics.py:126 | before the first pass the state holds the sorted data alone, whose ends are the data's minimum and maximum |
| Basics.FuseEnd | paso/util/basics.py:128-144 | stopping on a pass without mergers returns the last pass, and ten merging passes raise the RuntimeError; either way what Basics.Fuse promises holds |
| Basics.Grow | paso/util/basics.py:133-137 | the block the inner loop forms at the head of a list, given j entries folded into the mean e, ends no earlier than j and no later than the list's end |
| Basics.GreedyPass | paso/util/basics.py:131-139 | the greedy pass is no longer than its input and non-empty for non-empty input |
| Basics.FuseMergesOnlyClose | paso/util/basics.py:126-144 | at min_dist 1e-7, [0, 5e-8, 10] becomes [2.5e-8, 10] in one pass and fuse then stops with it: only close entries merge, into their mean |
| Basics.GreedyHead | paso/util/basics.py:131-139 | a greedy pass starts with the mean of the block at the head and goes on with the rest |
| Basics.GreedyNext | paso/util/basics.py:131-138 | closing the block formed at the current slot carries the means so far one block further along the greedy pass |
| Basics.GrowStart | paso/util/basics.py:133 | before any successor the block is the head entry alone |
| Basics.GrowJoin | paso/util/basics.py:134-136 | a successor closer than min_dist to the mean joins the block, with the mean (j e + s[j]) / (j + 1) |
| Basics.GrowHalt | paso/util/basics.py:134-137 | a successor at least min_dist from the mean ends the block |
| Basics.GrowDone | paso/util/basics.py:133-137 | reaching the end of the list ends the block |
| Basics.ScanEntry | paso/util/basics.py:131-138 | one iteration of the slot loop keeps the pass's state and the greedy-pass equation |
| Basics.ScanDone | paso/util/basics.py:131-139 | after the slot loop the live entries are the block means and equal the greedy pass |
| Basics.GreedySnoc | paso/util/basics.py:128-139 | recording the greedy pass of the last pass keeps every pass the greedy pass of the one before |
| Basics.FuseFromNext | paso/util/basics.py:128-141 | a pass that shortens the list hands the outcome of fuse on to the shorter list with one try used |
| Basics.MergeBetween | paso/util/basics.py:135 | the running mean after a merge lies between the old mean and the merged value |
| Basics.SomesAscending | paso/util/basics.py:139 | dropping the None slots of an ascending list leaves an ascending list |
| Basics.SomesShorter | paso/util/basics.py:139 | a list with a None slot gets shorter when the slots are dropped |
| Basics.SortedEnds | paso/util/basics.py:126 | the sorted data is ascending and runs from the minimum to the maximum of the data |
| Options.KeyRegistry.constructor | paso/util/report_and_option_class.py:29 | the shared key list starts as ['name'] |
| Options.AssignTrail | paso/util/report_and_option_class.py:70-76 | setting a recognised key appends the new value to its record (default, former values, current) exactly when it differs from the current value; no other record changes |
| Options.AssignUnknown | paso/util/report_and_option_class.py:70-76 | setting an attribute that is not a recognised key records nothing |
| Options.OptionsBase.SetAttr | paso/util/report_and_option_class.py:70-76 | the new state is the assignment on the old one, so the record grows as AssignTrail says |
| Options.OptionsBase.SetItem | paso/util/report_and_option_class.py:78-80 | it fails exactly for a key that is not recognised and then changes nothing; otherwise it acts as attribute assignment |
| Options.OptionsBase.GetItem | paso/util/report_and_option_class.py:82-84 | a value comes back exactly for a recognised key the object has, and it is that attribute's value |
| Options.OptionsBase.AsDict | paso/util/report_and_option_class.py:86-92 | it succeeds exactly when every recognised key has a value. The dictionary then has exactly those keys and their values; otherwise the error names a recognised key without a value |
| Options.RegisterKeysResult | paso/util/report_and_option_class.py:61-64 | registration only appends and keeps the key list free of duplicates. It succeeds exactly when no new key is already an attribute, and then every new key is recognised |
| Options.OptionsBase.Register | paso/util/report_and_option_class.py:61-64 | the shared key list and the error are those of the registration |
| Options.OptionsBase.Init | paso/util/report_and_option_class.py:53-68 | keys are registered; on success the record starts empty, the name is set and the object is consistent; on failure nothing else changes |
| Options.ApplyAllResult | paso/util/report_and_option_class.py:42-49 | keyword arguments fail exactly when one is not a recognised key, and the first such key is reported. The record stays consistent |
| Options.ApplyAllSets | paso/util/report_and_option_class.py:42-49 | after a successful application with distinct keys every key holds its keyword's value and other attributes are untouched |
| Options.OptionsBase.ApplyKwargs | paso/util/report_and_option_class.py:42-49 | the new state and the error are those of applying the keywords in order |
| Options.IntegrationDefaults | paso/util/report_and_option_class.py:124-138 | there is one default per integration key, in the order the keys are listed |
| Options.NewIntegrationOptions | paso/util/report_and_option_class.py:42-138 | a new object has every integration key registered and is consistent. Its state is the name, then the defaults, then the keyword arguments applied on top. It fails exactly when some keyword is not a registered key, and then names the first such keyword |
| Options.DefaultsRecordNothing | paso/util/report_and_option_class.py:124-138 | setting defaults for keys the object does not have yet records no override |
| Options.OverrideKeepsDefault | paso/util/report_and_option_class.py:73-75 | a keyword argument that changes a default leaves the record [default, new value] |
| Options.IntegrationOverride | paso/util/report_and_option_class.py:125-138 | after the defaults, a keyword argument that changes an integration default (h_min = v with v != 0, say) leaves exactly [default, v] on record |
| JacobianCsr.Place | paso/differentiation/util/jacobian_csr_handler.py:99-106 | placing a column adds at most one group |
| JacobianCsr.PlaceCols | paso/differentiation/util/jacobian_csr_handler.py:99-106 | placing column n adds n to exactly one group, either an existing group or a new last one, and changes no other column set |
| JacobianCsr.PlaceColsOk | paso/differentiation/util/jacobian_csr_handler.py:98-106 | after column n, the groups hold only columns 0..n, and each group's row set is the union of its columns' rows |
| JacobianCsr.PlaceExclusive | paso/differentiation/util/jacobian_csr_handler.py:99-106 | placing a column keeps the column sets of the groups pairwise disjoint |
| JacobianCsr.PlaceOnce | paso/differentiation/util/jacobian_csr_handler.py:99-106 | a column that is in no group lands in one group only |
| JacobianCsr.PlaceCovers | paso/differentiation/util/jacobian_csr_handler.py:98-106 | once columns 0..n-1 are each in some group, placing column n covers 0..n |
| JacobianCsr.PlaceAdds | paso/differentiation/util/jacobian_csr_handler.py:99-106 | the placed column is in some group afterwards |
| JacobianCsr.PlaceCompatible | paso/differentiation/util/jacobian_csr_handler.py:100-102 | placing keeps every group free of two columns that share a row |
| JacobianCsr.MergeCompatible | paso/differentiation/util/jacobian_csr_handler.py:100-102 | merging a column into a group whose rows it does not meet keeps the group free of two columns that share a row |
| JacobianCsr.FirstFitOk | paso/differentiation/util/jacobian_csr_handler.py:93-108 | the first-fit groups partition the columns 0..dim_x-1, and two columns share a group only if no output depends on both |
| JacobianCsr.FirstFit | paso/differentiation/util/jacobian_csr_handler.py:96-106 | the groups after placing columns 0 .. dim_x - 1 in order, each into the first group whose rows it does not meet. JacobianCsr.FirstFitOk and JacobianCsr.PlaceCovers state its properties |
| JacobianCsr.DirVector | paso/differentiation/util/jacobian_csr_handler.py:112-115 | a direction is a 0/1 vector of length dim_x that is 1.0 exactly at its group's columns |
| JacobianCsr.RowIndices | paso/differentiation/util/jacobian_csr_handler.py:79-81 | every column index of a row is below dim_x |
| JacobianCsr.Relation | paso/differentiation/util/jacobian_csr_handler.py:85-91 | output i is in the set of input j exactly when row i lists j, and every such output is below dim_f |
| JacobianCsr.Dirs | paso/differentiation/util/jacobian_csr_handler.py:111-116 | every direction has length dim_x |
| JacobianCsr.LastHit | paso/differentiation/util/jacobian_csr_handler.py:131-138 | the result is the index of the last direction that is non-zero in the column, or -1 when none is |
| JacobianCsr.SlotSnoc | paso/differentiation/util/jacobian_csr_handler.py:136-138 | one more direction overwrites a slot exactly when it covers the slot's column |
| JacobianCsr.FirstFitHit | paso/differentiation/util/jacobian_csr_handler.py:93-115 | with the first-fit directions, the last direction covering a column is that column's own group, and every other direction is zero there |
| JacobianCsr.CallSlotIsHome | paso/differentiation/util/jacobian_csr_handler.py:129-138 | with the first-fit directions, a slot of row i and column j ends up holding the derivative of the one group that contains j |
| JacobianCsr.FiniteDiff | paso/differentiation/util/jacobian_csr_handler.py:120-127 | the second result is f0 (fun(x0) when none is given). The quotient d satisfies f0 + h d = fun(x0 + h direction), entry by entry |
| JacobianCsr.Step | paso/differentiation/util/jacobian_csr_handler.py:127 | each entry is x0 + h * direction |
| JacobianCsr.JacCsr.constructor | paso/differentiation/util/jacobian_csr_handler.py:33-55 | a handler without a pattern keeps the callbacks and shape, has precision 1e-8 and no directions |
| JacobianCsr.JacCsr.AssignSparsityPattern | paso/differentiation/util/jacobian_csr_handler.py:57-71 | indices and indptr are always laid out first, from all columns for every output without a pattern (indptr[i] = i * dim_x) or from the pattern's rows, any number of them. The call then fails with IndexError exactly when the pattern has fewer than dim_f rows or lists a column at or above dim_x in one of its first dim_f rows; the directions and the data buffer are then left as they were. Otherwise the handler is valid, row i of the first dim_f lists the pattern's row i, the directions are those of the pattern, and the data buffer is zero over all entries, extra rows included |
| JacobianCsr.JacCsr.FitsCheck | paso/differentiation/util/jacobian_csr_handler.py:71-91 | the check is true exactly when update_directions gets through the rows: at least dim_f of them, whose columns are all below dim_x |
| JacobianCsr.JacCsr.InputToOutputRelation | paso/differentiation/util/jacobian_csr_handler.py:85-91 | the loop computes exactly the input-to-output relation |
| JacobianCsr.JacCsr.UpdateDirections | paso/differentiation/util/jacobian_csr_handler.py:93-118 | the pattern is unchanged, the directions are the first-fit 0/1 vectors of the pattern, and the data buffer is a fresh array of zeros |
| JacobianCsr.GroupColumns | paso/differentiation/util/jacobian_csr_handler.py:96-106 | the column loop builds exactly the first-fit groups |
| JacobianCsr.FirstFree | paso/differentiation/util/jacobian_csr_handler.py:99-103 | the index found is the first group whose rows do not meet the column's rows, or the number of groups when none is free |
| JacobianCsr.PlaceAt | paso/differentiation/util/jacobian_csr_handler.py:100-103 | placing into a free group merges the column and its rows there and leaves the other groups alone |
| JacobianCsr.MakeDirection | paso/differentiation/util/jacobian_csr_handler.py:113-114 | the loop builds the 0/1 vector of the group's columns |
| JacobianCsr.RowPointers | paso/differentiation/util/jacobian_csr_handler.py:61-67 | the pointers start at 0 and grow by each row's length |
| JacobianCsr.FlattenSlices | paso/differentiation/util/jacobian_csr_handler.py:65-69 | prefix-sum pointers are monotone, end at the length of the concatenated rows, and slice the concatenation back into the rows |
| JacobianCsr.PatternLaidOut | paso/differentiation/util/jacobian_csr_handler.py:64-69 | the indices and pointers built from rows that fit the shape form a well-formed CSR pattern whose row i, for i below dim_f, is the pattern's row i |
| JacobianCsr.LayOutPattern | paso/differentiation/util/jacobian_csr_handler.py:57-69 | the indices are the rows concatenated and the pointers their running lengths from 0, for any pattern; when the rows fit the shape this is a well-formed CSR pattern whose row i is the pattern's row i. Without a pattern every row lists all columns and indptr[i] = i * dim_x |
| JacobianCsr.PatternRows | paso/differentiation/util/jacobian_csr_handler.py:58-65 | without a pattern there are dim_f rows, each listing every column 0 .. dim_x - 1; with one, the rows are the pattern's |
| JacobianCsr.FlattenRow | paso/differentiation/util/jacobian_csr_handler.py:65-69 | row i of the rows is the slice of their concatenation from indptr[i] on, of the row's length |
| JacobianCsr.JacCsr.Call | paso/differentiation/util/jacobian_csr_handler.py:129-141 | it returns (data, indices, indptr). Every slot of row i holds, for its column, the derivative of the last direction covering that column; slots no direction covers keep their value |
| JacobianCsr.JacCsr.ScatterDirections | paso/differentiation/util/jacobian_csr_handler.py:131-138 | the direction loop computes the derivatives along all directions and leaves every slot holding, for its column, the derivative of the last direction covering that column |
| JacobianCsr.JacCsr.DirectionalDerivative | paso/differentiation/util/jacobian_csr_handler.py:131-135 | one directional derivative: the difference quotient around f0 = fun(x0), or dfun(direction) when dfun is given |
| JacobianCsr.JacCsr.Deriv | paso/differentiation/util/jacobian_csr_handler.py:131-135 | a directional derivative has dim_f entries |
| JacobianCsr.JacCsr.Derivs | paso/differentiation/util/jacobian_csr_handler.py:131-135 | there is one derivative per direction, each the derivative along that direction |
| JacobianCsr.JacCsr.Scatter | paso/differentiation/util/jacobian_csr_handler.py:136-138 | every slot of row i whose column the direction covers gets entry i of the derivative; the other slots keep their values |
| JacobianCsr.JacCsr.ScatterRow | paso/differentiation/util/jacobian_csr_handler.py:137-138 | only row i's slots change, and only those whose column the direction covers |
| Newton.DefaultsUsable | paso/solvers/nlin/sparse_nl_solver/newton/core.py:298-314 | the default options switch a criterion on, do not gate success on atol_root, allow 100 steps and have gamma_min > 0 |
| Newton.Axpy | paso/solvers/nlin/sparse_nl_solver/newton/core.py:166 | each entry of the candidate is x + gamma * d |
| Newton.NegScaled | paso/solvers/nlin/sparse_nl_solver/newton/core.py:153 | the right-hand side is -(scaling * f), entry by entry |
| Newton.NormSq | paso/solvers/nlin/sparse_nl_solver/newton/core.py:138 | the squared norm, by which norms are compared, is non-negative |
| Newton.Criteria | paso/solvers/nlin/sparse_nl_solver/newton/core.py:198-215 | each criterion holds exactly when its tolerance is set and every entry of the corresponding difference or residual is below it |
| Newton.AcceptedMeansCriterion | paso/solvers/nlin/sparse_nl_solver/newton/core.py:245-248 | an accepted step has some criterion switched on. When atol_root gates success, every entry of the new transformed residual is below atol_root |
| Newton.ZeroRootNeverHolds | paso/solvers/nlin/sparse_nl_solver/newton/core.py:214-246 | with atol_root = 0.0 the root criterion never holds on a non-empty residual, and it does not gate success |
| Newton.FloorDrops | paso/solvers/nlin/sparse_nl_solver/newton/core.py:165-188 | dividing gamma by 2 or more while gamma >= gamma_min lowers gamma / gamma_min by at least one whole unit, so the damping loop terminates |
| Newton.Accepts | paso/solvers/nlin/sparse_nl_solver/newton/core.py:245-248 | the success test of a step: some criterion holds and, when atol_root is set and non-zero, the root criterion holds too. Newton.AcceptedMeansCriterion states what it implies |
| Newton.NextGamma | paso/solvers/nlin/sparse_nl_solver/newton/core.py:170-188 | the next gamma is positive and below the current one: halved when the candidate is out of the domain, divided by 100 otherwise |
| Newton.RungsDrop | paso/solvers/nlin/sparse_nl_solver/newton/core.py:165-188 | every rejected gamma at or above gamma_min lowers the number of rungs left, so the damping loop ends |
| Newton.Search | paso/solvers/nlin/sparse_nl_solver/newton/core.py:164-196 | the damping loop from a given gamma: below gamma_min it fails out of domain, a rejected gamma passes to the next one, and otherwise the candidate is accepted, with a recompute requested when one was pending, the Jacobian is stale or the norm did not decrease. Newton.SearchFirstAcceptable and Newton.SearchAccepts state its properties |
| Newton.SearchFirstAcceptable | paso/solvers/nlin/sparse_nl_solver/newton/core.py:164-196 | the gammas tried start at the first one, stay in [gamma_min, first], and each follows a rejected one by halving (out of domain) or division by 100. The search succeeds exactly when the last gamma tried is not rejected and returns that gamma, the first acceptable one. It fails only with 'out of domain', when every gamma was rejected and the next would fall below gamma_min |
| Newton.SearchAccepts | paso/solvers/nlin/sparse_nl_solver/newton/core.py:164-195 | an accepted candidate has gamma in [gamma_min, the first gamma], equals x + gamma * dir, lies in the domain and carries fun of itself. A recompute is requested exactly when one was pending, the Jacobian is stale or the residual did not decrease; a non-decrease without such a reason happens only once gamma / 100 <= gamma_min |
| Newton.LineSearch | paso/solvers/nlin/sparse_nl_solver/newton/core.py:164-196 | the loop returns exactly the search from gamma = 1, so Newton.SearchFirstAcceptable and Newton.SearchAccepts describe its result |
| Newton.NewtonStep | paso/solvers/nlin/sparse_nl_solver/newton/core.py:146-248 | one pass of the Newton loop: the linear solve with the current Jacobian, the recompute-and-repeat on a stale Jacobian the solver rejects, the line search, the optional recompute at the new iterate and the criteria. Newton.StepCases states its properties |
| Newton.StepCases | paso/solvers/nlin/sparse_nl_solver/newton/core.py:152-248 | a pass restarts exactly when the linear solver rejects a stale Jacobian, and then recomputes the Jacobian at the same iterate and step index. The solver rejecting a fresh Jacobian fails with LinSolveRaised, and a non-array result fails too. A pass that steps raises the step index by one, remembers the iterate it left, moves into the domain, and is accepted exactly when the criteria of that step accept. Its only other failure is 'out of domain' |
| Newton.Pass | paso/solvers/nlin/sparse_nl_solver/newton/core.py:147-248 | the method makes exactly the pass Newton.NewtonStep describes |
| Newton.Iterations | paso/solvers/nlin/sparse_nl_solver/newton/core.py:146-250 | the Newton loop from an iterate: it ends on an accepted step, on a failing pass, or once the step index reaches max_it, which is an error when no_convergence_is_Error. Newton.IterationsEnd states its properties |
| Newton.IterationsEnd | paso/solvers/nlin/sparse_nl_solver/newton/core.py:146-250 | success comes from a step from the previous iterate that the criteria accept, within max_it steps. Without success the loop ran to max_it and non-convergence is no error. The errors are a pass's errors, and 'did not converge' only when non-convergence is an error |
| Newton.NlSolve | paso/solvers/nlin/sparse_nl_solver/newton/core.py:98-269 | sparse_nl_solve on its callbacks: no criterion switched on is an error; otherwise the Newton loop from x0, reported with nit the step index and status 1 exactly on success |
| Newton.NlSolveReport | paso/solvers/nlin/sparse_nl_solver/newton/core.py:98-269 | it fails with 'no criterion' exactly when all tolerances are None, and with 'did not converge' only when that is an error. A report has nit within max_it, status 1 iff success, x of the size of x0 and fun = fun(x), and lies in the domain once a step was taken. Without success, nit = max_it and non-convergence is not an error; with success, at least one step was taken |
| Newton.SparseNlSolve | paso/solvers/nlin/sparse_nl_solver/newton/core.py:60-269 | the solver returns exactly Newton.NlSolve of its callbacks, options and x0, so Newton.NlSolveReport and Newton.IterationsEnd describe its result |
| Newton.CsrMatrix.RowSums | paso/solvers/nlin/sparse_nl_solver/newton/core.py:54 | entry k is the sum of the absolute stored values of row k |
| Newton.CsrMatrix.RowScaling | paso/solvers/nlin/sparse_nl_solver/newton/core.py:34-57 | without scaling the matrix is unchanged and the vector is all ones. With scaling, v[i] is the reciprocal of row i's absolute sum and every entry of row i is multiplied by v[i] |
| Newton.CsrMatrix.ScaleAllRows | paso/solvers/nlin/sparse_nl_solver/newton/core.py:52-55 | the row loop multiplies each row by the reciprocal of its absolute sum |
| Newton.CsrMatrix.NormalizeRow | paso/solvers/nlin/sparse_nl_solver/newton/core.py:54-55 | one row is multiplied by the reciprocal of its absolute sum and nothing else changes |
| Newton.CsrMatrix.ScaleRow | paso/solvers/nlin/sparse_nl_solver/newton/core.py:55 | the stored entries of row i are multiplied by c and nothing else changes |
| Newton.ScaledRowsSumToOne | paso/solvers/nlin/sparse_nl_solver/newton/core.py:53-55 | after scaling, each row's absolute values sum to 1 |
| Newton.AbsSumScale | paso/solvers/nlin/sparse_nl_solver/newton/core.py:54-55 | multiplying by c >= 0 multiplies the absolute sum by c |
| Homotopy.DefaultsOk | paso/solvers/nlin/sparse_nl_solver/homotopy/core.py:206-215 | the default steps satisfy 0 < mu_step_min <= mu_step_initial = mu_step_max, 1 <= expansion and 0 < shrink < 1 |
| Homotopy.Start | paso/solvers/nlin/sparse_nl_solver/homotopy/core.py:99-103 | the first stage has mu = mu_reset = 0 and the initial step |
| Homotopy.Advance | paso/solvers/nlin/sparse_nl_solver/homotopy/core.py:123-156 | a success counts one more success in a row and resets to the current mu. A failure ends the loop exactly when the shrunk step is at its floor, and otherwise keeps the reset point and zeroes the count. The next mu is the reset point plus the step |
| Homotopy.AdvanceSteps | paso/solvers/nlin/sparse_nl_solver/homotopy/core.py:144-156 | after two successes in a row the step grows by the expansion factor, capped at mu_step_max; a failure shrinks it. A stage that would pass mu = 1 is clipped to mu = 1 with step 1 - base |
| Homotopy.AdvanceKeepsInv | paso/solvers/nlin/sparse_nl_solver/homotopy/core.py:144-156 | a stepping stage keeps 0 <= mu_reset <= mu <= 1 and a step within (0, mu_step_max], at least mu_step_min away from mu = 1 |
| Homotopy.StartInv | paso/solvers/nlin/sparse_nl_solver/homotopy/core.py:99-103 | the first stage satisfies the stepping invariant |
| Homotopy.Progress | paso/solvers/nlin/sparse_nl_solver/homotopy/core.py:114-158 | every stage that does not complete decreases a well-founded measure, so the homotopy loop terminates |
| Homotopy.FailureProgress | paso/solvers/nlin/sparse_nl_solver/homotopy/core.py:147-149 | a failure above the floor keeps the reset point and takes a fixed positive amount off the step |
| Homotopy.SuccessProgress | paso/solvers/nlin/sparse_nl_solver/homotopy/core.py:123-156 | a success moves the reset point forward or leaves the start point |
| Homotopy.HomotopySolve | paso/solvers/nlin/sparse_nl_solver/homotopy/core.py:99-178 | the stages start from the first stage and x0. Every stage but the last returned from the inner solver, did not complete, and stepped by the stepping scheme, from the solver's iterate on success and the same iterate otherwise; every stage keeps the invariant. The last stage ends the loop: its solve raised, it completed (mu within a hundredth of mu_step_min of 1), or it failed with the step at its floor. The result is the inner solver's error; else 'did not converge' when that is an error and the last solve failed; else the report of the last solve, with nit the number of stages stepped |
| Homotopy.Outcome | paso/solvers/nlin/sparse_nl_solver/homotopy/core.py:114-178 | what the loop returns after its last stage: the inner solver's error, 'did not converge' when that is an error and the last solve failed, or the report whose nit counts the stages stepped |
| Homotopy.TracedSnoc | paso/solvers/nlin/sparse_nl_solver/homotopy/core.py:143-158 | a stage that returned, did not complete and stepped extends the trace of stages |
| Homotopy.StoppedOutcome | paso/solvers/nlin/sparse_nl_solver/homotopy/core.py:160-178 | after the loop, the footer raises 'did not converge' exactly when that is an error and the last solve failed, and otherwise reports the last iterate, the success flag, the number of stages stepped as nit, the status and fun of the iterate |
| Homotopy.SuccessCompletes | paso/solvers/nlin/sparse_nl_solver/homotopy/core.py:123-150 | a success never ends the loop at the floor, so a successful last stage is the completing one |
| ImpEuler.ChooseSolver | paso/solvers/dae/ImpEuler.py:47-63 | None or False choose the sparse Newton solver. True or 'least_squares' choose least squares, 'root' the root finder, and every other name raises; each choice holds exactly for its inputs |
| ImpEuler.Quotient | paso/solvers/dae/ImpEuler.py:41 | the quotient q satisfies x_n + h q = x entry by entry, so it is the implicit Euler derivative |
| ImpEuler.ImpEulerStep | paso/solvers/dae/ImpEuler.py:31-68 | it raises when the solver choice raises, and otherwise exactly when the chosen solver raises (sparse_nl_solve's NLinSolveError, say), with that error. Otherwise the new time is t_n + h, and the residual at x is sys((x - x_n)/h, x, t_n + h). The new state and success flag are the chosen solver's result on that residual from x_n |
| ImpEuler.DefaultEulerOptions | paso/solvers/dae/ImpEuler.py:222-229 | the defaults of the integration options, with cycADa off |
| ImpEuler.OrElse | paso/solvers/dae/ImpEuler.py:94-96 | Python's 'or' on an optional float: a set non-zero value wins, and None or 0.0 falls through to the alternative |
| ImpEuler.ParseGrid | paso/solvers/dae/ImpEuler.py:93-97 | the threshold is min(1e-14, T - t0), and threshold <= h_min <= h_max <= h_grid <= T - t0 with h_min > 0 for t0 < T. Each option is taken as given whenever it lies in its allowed range |
| ImpEuler.StartStep | paso/solvers/dae/ImpEuler.py:98-100 | a single step uses h, or (T - t0)/100, as given; otherwise the start step is clamped into [h_min, h_max] and is unchanged when it already lies there |
| ImpEuler.Inside | paso/solvers/dae/ImpEuler.py:109 | the kept checkpoints are exactly the given ones strictly inside (t0, T) |
| ImpEuler.CustomPoints | paso/solvers/dae/ImpEuler.py:109-110 | the queue is the inside checkpoints followed by the sentinel T + 2 h_max |
| ImpEuler.InitialStepperAsWritten | paso/solvers/dae/ImpEuler.py:121-129 | the start state as written: a first checkpoint that comes before the first grid point becomes the target but stays the current checkpoint |
| ImpEuler.InitialStepper | paso/solvers/dae/ImpEuler.py:121-129 | corrected (see ImpEuler.InitialStepperAsWritten): the start state with a checkpoint that became the target taken off the queue; h = h_mem = start step, ratio 1, no solves counted |
| ImpEuler.Relax | paso/solvers/dae/ImpEuler.py:136-147 | after more than min(20, ratio) solves without a failure, h moves toward h_mem and never past it: down by at most a factor 2.02, up by at most 3.1. It stays at least h_min and at most h_max. Otherwise nothing changes, and only h and the ratio ever change |
| ImpEuler.SnapAsWritten | paso/solvers/dae/ImpEuler.py:149-160 | as written, the snap raises exactly when it reaches the next() call on the checkpoint queue after the sentinel has been taken |
| ImpEuler.Snap | paso/solvers/dae/ImpEuler.py:149-160 | corrected (see ImpEuler.SnapAsWritten): the sentinel stays the target once the queue is exhausted; a step that would come within h_min of T lands on T (or is h_min), and h_mem never exceeds it. Otherwise h_mem is cut back the same way, or a step near the target lands on it and the target moves to the next grid point or the checkpoint before it. The queue only loses its head, and h and h_mem stay at least h_min |
| ImpEuler.SnapCorrects | paso/solvers/dae/ImpEuler.py:149-160 | the corrected snap agrees with the code as written wherever the latter does not raise |
| ImpEuler.Retarget | paso/solvers/dae/ImpEuler.py:136-160 | relaxing and snapping keep h and h_mem at least h_min |
| ImpEuler.RetargetAsWritten | paso/solvers/dae/ImpEuler.py:136-160 | the adjustment before a step as written: relaxing towards h_mem, then the snap as written, which can raise on an exhausted checkpoint queue |
| ImpEuler.Fail | paso/solvers/dae/ImpEuler.py:179-187 | a failed solve at h > h_min retries with max(h_min, h / 2.02) < h, multiplies the ratio by 2.02 and restarts the count of solves |
| ImpEuler.FirstCheckpointTargetedTwice | paso/solvers/dae/ImpEuler.py:121-160 | with checkpoints 5 and 7 on [0, 10], the code as written targets 5 twice and steps from 5 with h_min; the corrected start keeps the step 0.1 toward 7 |
| ImpEuler.SentinelExhausted | paso/solvers/dae/ImpEuler.py:155-160 | on [0, 25] with h_grid = 10 and h_max = 1, the snap at 19.75 raises on the exhausted queue as written; the corrected snap aims at the sentinel 27 |
| ImpEuler.RetryResnapped | paso/solvers/dae/ImpEuler.py:150-187 | on [0, 3] with h_min = 1, a failed step of 2 from t = 1 is cut to 1 and snapped back to 2 in a state that recurs, so as written the loop retries the same failing step forever |
| ImpEuler.TracedSnoc | paso/solvers/dae/ImpEuler.py:197-200 | an accepted step extends the trace of times, steps and states |
| ImpEuler.AcceptDrops | paso/solvers/dae/ImpEuler.py:197-202 | an accepted step short of T - h_min lowers the remaining distance, counted in units of h_min |
| ImpEuler.FailDrops | paso/solvers/dae/ImpEuler.py:185 | a failed step lowers the number of halvings left before h_min |
| ImpEuler.Prepared | paso/solvers/dae/ImpEuler.py:134-160 | with the corrected start and snap, and a retry not snapped again: the step an iteration attempts keeps h and h_mem at least h_min |
| ImpEuler.LoopStart | paso/solvers/dae/ImpEuler.py:114-129 | the loop invariant holds before the first iteration |
| ImpEuler.AcceptKeeps | paso/solvers/dae/ImpEuler.py:165-202 | an accepted attempt extends the trace and keeps the invariant, and the loop goes on only while the new time is below T - h_min |
| ImpEuler.AcceptedConfig | paso/solvers/dae/ImpEuler.py:165-202 | the configuration an accepted attempt leads to keeps the invariant and is strictly closer to T, or stops the loop |
| ImpEuler.FailKeeps | paso/solvers/dae/ImpEuler.py:179-187 | a failed attempt above h_min keeps the trace and leaves a retry with the reduced step |
| ImpEuler.ShrinkSnoc | paso/solvers/dae/ImpEuler.py:179-187 | after a failed attempt, the next attempt is at the same time with step max(h_min, h/2.02); appending an attempt that obeys this keeps the rule for the whole attempt list |
| ImpEuler.ExitNormally | paso/solvers/dae/ImpEuler.py:202-216 | a loop left normally has a full trace, bounded steps and, unless it was a single step, a last time of at least T - h_min |
| ImpEuler.ExitByFailure | paso/solvers/dae/ImpEuler.py:180 | a loop left by a failure at h <= h_min still has a valid trace |
| ImpEuler.Integrate | paso/solvers/dae/ImpEuler.py:71-216 | the corrected loop (see the Findings rows): the passes follow the one-pass function from the start state, each making the attempt recorded for it: from the last accepted time, with the prepared (relaxed and snapped) step, its success the step callback's. The returned times, steps and states are the last state's trace of successful steps from (t0, x0). Every step and attempt is at least h_min, and a failed attempt is followed by one from the same time with max(h_min, h / 2.02). A single-step run makes one attempt. The report holds that trace and the completion message, and its last time is at least T - h_min. Otherwise the error is the re-raised failure of the last attempt, made at h <= h_min from the last accepted time |
| ImpEuler.StepFn | paso/solvers/dae/ImpEuler.py:131-208 | the corrected pass: one pass of the loop as a function of the state it starts from: the step is kept for a single step or a retry and relaxed and snapped otherwise, then attempted; a success extends the trace, a failure at h <= h_min is re-raised, and any other failure sets up a retry. ImpEuler.StepFnCases states its properties |
| ImpEuler.StepFnCases | paso/solvers/dae/ImpEuler.py:165-208 | a successful attempt appends t + h, h and the new state, and the loop goes on exactly when it is not a single step and t + h < T - h_min. A failed attempt keeps the trace. It is re-raised exactly when its h was at most h_min; otherwise the retry's step is max(h_min, h / 2.02) and the count of solves since a failure restarts |
| ImpEuler.IntegrateStep | paso/solvers/dae/ImpEuler.py:131-208 | the corrected pass: the method makes exactly the pass ImpEuler.StepFn describes |
| ImpEuler.PassAccepts | paso/solvers/dae/ImpEuler.py:165-208 | a successful pass keeps the loop invariant and, when the loop goes on, brings the last time closer to T, counted in units of h_min |
| ImpEuler.PassRetries | paso/solvers/dae/ImpEuler.py:179-187 | a failed pass above h_min keeps the trace and the invariant and sets up a retry with fewer halvings left |
| ImpEuler.PassGivesUp | paso/solvers/dae/ImpEuler.py:179-180 | a failed pass at h <= h_min ends the run with the error re-raised for that attempt |
| ImpEuler.Pass | paso/solvers/dae/ImpEuler.py:131-208 | one more pass extends the run from the start state; it either lowers the loop's measure or gives up |
| ImpEuler.Advance | paso/solvers/dae/ImpEuler.py:131-208 | the method makes one more pass with what ImpEuler.Pass says it keeps |
| ImpEuler.RunStart | paso/solvers/dae/ImpEuler.py:114-129 | the run of no passes from the start state has reached the loop invariant |
| ImpEuler.RunStops | paso/solvers/dae/ImpEuler.py:202-216 | a run that stopped without re-raising has a full trace and, unless it was a single step, a last time of at least T - h_min |
| ImpEuler.RunEnds | paso/solvers/dae/ImpEuler.py:179-216 | a run that stopped or re-raised gives what ImpEuler.Integrate promises |
| Profiles.ParseModeIgnoresCase | simulator/resources/profiles.py:46-52 | the mode is read without regard to case, and an unknown mode is refused |
| Profiles.PairLeTotalPreorder | simulator/resources/profiles.py:41 | the order on (time, value) pairs used for sorting is a total preorder |
| Profiles.Zip | simulator/resources/profiles.py:41 | pair i is (time i, value i) |
| Profiles.Times | simulator/resources/profiles.py:41-42 | entry i is the time of pair i |
| Profiles.Values | simulator/resources/profiles.py:41-43 | entry i is the value of pair i |
| Profiles.AdjacentAscending | simulator/resources/profiles.py:63-79 | neighbouring entries in order put the whole sequence in order, strictly when they are strict |
| Profiles.SortPairsSorted | simulator/resources/profiles.py:41 | sorting keeps exactly the given (time, value) pairs, as a multiset, and orders them by time |
| Profiles.SmoothPrefix | simulator/resources/profiles.py:63-76 | after n points the smoothed table starts at the first point and ends at point n, with as many values as times |
| Profiles.Smooth | simulator/resources/profiles.py:63-79 | the loop computes the smoothed table |
| Profiles.SmoothAscending | simulator/resources/profiles.py:69-71 | with a positive offset the smoothed times stay in order, strictly if they were strict |
| Profiles.SmoothPrefixGrows | simulator/resources/profiles.py:68-76 | a later stage of the loop extends the table of an earlier stage |
| Profiles.SmoothPoints | simulator/resources/profiles.py:63-79 | every original point is in the smoothed table in its original order. Between two of them a point is inserted exactly when they are more than the offset apart; it sits offset before the later point and carries the earlier value |
| Profiles.Slopes | simulator/resources/profiles.py:90-92 | the buffer is one longer than the table, zero at both ends, and entry i is the slope of the segment that ends at point i |
| Profiles.SlopesThrough | simulator/resources/profiles.py:90-92 | each segment's line through its left point passes through its right point |
| Profiles.SlopesUnique | simulator/resources/profiles.py:90-92 | the slope buffer is determined by the table |
| Profiles.PreparedSorted | simulator/resources/profiles.py:39-43 | the prepared table holds the given pairs sorted by time |
| Profiles.TableAscending | simulator/resources/profiles.py:41-79 | the stored times are in order, whether or not smoothing applies |
| Profiles.ConfigureErrors | simulator/resources/profiles.py:39-87 | the constructor fails exactly on: an empty table or mismatched lengths; an unknown mode; a negative offset in piecewise constant mode; or, unless the table is a plain step function, a horizon that does not contain 0 |
| Profiles.ConfigureWellFormed | simulator/resources/profiles.py:39-104 | an accepted table is well formed and its horizon diameter is non-negative. The mode is 'lin' exactly for an interpolating mode name and the pc offset is non-negative. Without smoothing the table holds exactly the given pairs sorted by time |
| Profiles.Configure | simulator/resources/profiles.py:39-104 | the configuration on values: empty or unequal time and value lists and an unknown mode are errors; otherwise the sorted table, the smoothed steps, the horizon and the slopes. Profiles.ConfigureErrors and Profiles.ConfigureWellFormed state its properties |
| Profiles.ScanFromBounds | simulator/resources/profiles.py:109-113 | the scan passes every later point at or before t and stops at the first point after t, or at the last point |
| Profiles.ScanBounds | simulator/resources/profiles.py:106-115 | the found index is at or after the start and every point passed is at or before t; no next index exists only when the start is the last point |
| Profiles.ScanFrom | simulator/resources/profiles.py:109-113 | the search loop from index i: it stops at the first later point after t, or at the last point. Profiles.ScanFromBounds states its properties |
| Profiles.ScanFromAnyStart | simulator/resources/profiles.py:144 | in an ordered table, a scan from any point at or before t finds the same interval as a scan from the start |
| Profiles.LookupFrom | simulator/resources/profiles.py:127-149 | the new cached index is a valid index |
| Profiles.IndexOrder | simulator/resources/profiles.py:106-115 | in an ordered table a smaller time has a smaller index, and with strict order a time at most another has an index at most the other's |
| Profiles.ScanFindsPoint | simulator/resources/profiles.py:136 | in a strictly increasing table the scan for a stored time stops at that time's index |
| Profiles.CacheIrrelevant | simulator/resources/profiles.py:127-149 | with strictly increasing times the cached index never changes a value: every lookup returns the table's value at t |
| Profiles.Interp | simulator/resources/profiles.py:127-149 | the table's value at t found without the cached index: the first value before the first point, the last after the last point, and otherwise the step or interpolated value of the segment holding t. Profiles.CacheIrrelevant ties the cached lookup to it |
| Profiles.InterpOutside | simulator/resources/profiles.py:128-142 | a one-point table is constant; before the first time the first value is returned, and after the last time the last value |
| Profiles.InterpAtPoint | simulator/resources/profiles.py:138-149 | at a stored time the stored value comes back exactly |
| Profiles.InterpWithin | simulator/resources/profiles.py:147-149 | between two times a step table returns the left value, and an interpolating one a value between the two |
| Profiles.TableLookup.constructor | simulator/resources/profiles.py:96-97 | a new table starts with cached index 0 |
| Profiles.TableLookup.Search | simulator/resources/profiles.py:106-115 | the search loop returns exactly the scan's interval |
| Profiles.TableLookup.Call | simulator/resources/profiles.py:127-149 | for a zero horizon the value and the new cached index are those of the lookup from the old cached index |
| Profiles.TableLookup.SegmentValue | simulator/resources/profiles.py:147-149 | the value on a segment is the segment function of the table: the linear piece through fs[j] when interpolating, fs[j] otherwise |
| Profiles.NewTableLookup | simulator/resources/profiles.py:23-104 | it fails exactly when the configuration fails, with its message; otherwise the new table holds the configured data with cached index 0 |
| Units.OperatorOf | simulator/resources/units.py:30-48 | the operator found is never empty; '//' is tried before '/', '/' before '**', and '**' before '*' |
| Units.Divide | simulator/resources/units.py:30-38 | a real quotient; a zero divisor is Python's ZeroDivisionError. Both '//' and '/' entries use it, since the source divides truly on both paths |
| Units.AdvancedCast | simulator/resources/units.py:29-50 | the entry's operator decides: a quotient, power or product of the two operands split around it, a ValueError for anything but two castable operands, and otherwise a plain cast. Units.CastQuotient, Units.CastFloorQuotient, Units.CastPower, Units.CastProduct and Units.CastPlain state its results |
| Units.CastQuotient | simulator/resources/units.py:35-38 | "a/b" with plain operands casts to the quotient of a and b, and a zero divisor fails |
| Units.CastFloorQuotient | simulator/resources/units.py:30-33 | "a//b" with plain operands is split on '//' and casts to the true quotient of a and b, the same value as "a/b" (nothing is floored); a zero divisor fails |
| Units.CastPower | simulator/resources/units.py:40-43 | "a**b" casts to a raised to b |
| Units.CastProduct | simulator/resources/units.py:45-48 | "a*b" casts to the product of a and b |
| Units.CastPlain | simulator/resources/units.py:50 | text without operators is cast as a whole and fails when the cast fails |
| Units.CastChainRefused | simulator/resources/units.py:35-36 | "a/b/c" is refused, because the split must give exactly two operands |
| Units.StripBrackets | simulator/resources/units.py:97-98 | the unit is unchanged, or it loses exactly its first and last characters |
| Units.ReplaceAvoids | simulator/resources/units.py:104-106 | replacing a target leaves none of it behind and creates no pattern that avoids the characters of the replacement |
| Units.RewriteRemoves | simulator/resources/units.py:104-106 | after the rewriting no '_per_', '_square' or '_cube' is left |
| Units.DropCarets | simulator/resources/units.py:108-119 | the result holds no caret |
| Units.Carets | simulator/resources/units.py:108-119 | the caret rule as intended: a '^' before every '2' or '3' whose predecessor is neither '_' nor '^', never before the first character. Units.CaretsMarked and Units.CaretsIdempotent state its properties |
| Units.CaretPasses | simulator/resources/units.py:108-119 | the repeat loop as written: passes that insert one caret each until a pass inserts none, with the previous position and letter carried over between passes |
| Units.CaretsMarked | simulator/resources/units.py:108-119 | after the intended caret rule every '2' or '3' with a predecessor is preceded by '_' or '^', and a leading one only when nothing precedes it |
| Units.CaretsFixedPoint | simulator/resources/units.py:108-119 | the rule adds nothing to a string that is already marked |
| Units.CaretsIdempotent | simulator/resources/units.py:108-119 | inserting the carets a second time changes nothing |
| Units.CaretsOnlyInsert | simulator/resources/units.py:114 | the rule only inserts carets: without carets the string is the same |
| Units.InsertLowersPending | simulator/resources/units.py:113-115 | each insertion lowers the number of unmarked powers, so the repeat loop terminates |
| Units.ScanPass | simulator/resources/units.py:112-117 | a pass stops only at a '2' or '3' whose predecessor is unmarked |
| Units.InsertCaretsAsWritten | simulator/resources/units.py:108-119 | the repeat loop computes the caret passes as written |
| Units.TokensAvoid | simulator/resources/units.py:121-124 | the tokens of a group without '/' contain no '/' either |
| Units.PermutationAvoids | simulator/resources/units.py:124 | every token of a reordering comes from the original tokens |
| Units.SortTokensSorted | simulator/resources/units.py:123-124 | a group's tokens come out sorted, as the same multiset of tokens, and no '/' appears |
| Units.GroupsSorted | simulator/resources/units.py:121-125 | splitting the result on '/' gives as many groups as before, each with its '_' tokens sorted and unchanged as a multiset |
| Units.UnifyErrors | simulator/resources/units.py:97-100 | the normalisation fails with an index error exactly on "", with the zero-length unit error exactly on "[]", and on nothing else |
| Units.Unify | simulator/resources/units.py:94-127 | _unit_unify with the intended caret rule: '' is an index error, '[]' a UnitError, and otherwise the brackets are stripped, the text lower-cased and rewritten, carets inserted and the '_' tokens of each '/' group sorted. Units.UnifyErrors states its errors |
| Units.UnifyAsWritten | simulator/resources/units.py:94-127 | the same normalisation with the caret loop as written |
| Units.LeadingCaretAsWritten | simulator/resources/units.py:108-119 | as written, "2m2" becomes "^2m^2" while "2m" stays as it is; the intended rule gives "2m^2" |
| Units.Lookup | simulator/resources/units.py:133-137 | the scan finds the unit exactly when some register entry whose key matches the spec lists it |
| Units.ValidateUnit | simulator/resources/units.py:129-141 | the normalisation's failure is passed on. A normalised unit the register knows under a matching key is returned, and otherwise the unknown-unit error names the unit, its normal form and the spec if given |
| Units.DateToSec | simulator/resources/units.py:185-195 | the timedelta's total seconds: a day is 86400 s, an hour 3600 s, a minute 60 s |
| Units.DateCarries | simulator/resources/units.py:195 | 24 hours give the same offset as one more day, 60 minutes as one more hour, 60 seconds as one more minute; with no negative days, hours or minutes the offset is at least the seconds |
| SceneCsv.CastAll | simulator/readerWriter/read_scene_csv.py:35 | the cast succeeds exactly when every field is a number, and then gives one value per field |
| SceneCsv.TimeFormats | simulator/readerWriter/read_scene_csv.py:29-58 | one to four numeric fields read as seconds, hours:minutes, hours:minutes:seconds or days:hours:minutes:seconds, converted to seconds. More fields give the time-format error, and a field that is not a number gives a value error |
| SceneCsv.TimeText | simulator/readerWriter/read_scene_csv.py:35 | a time written as fields joined by ':' is read field by field |
| SceneCsv.AppendAllGrows | simulator/readerWriter/read_scene_csv.py:64-68 | with distinct keys, each given key's list grows by exactly its value, every other key keeps its list, and no other key appears |
| SceneCsv.AppendGrows | simulator/readerWriter/read_scene_csv.py:60-68 | appending creates the object's entry if needed, grows only the given keys' lists by one value each, and leaves '_SYS' and the other objects alone |
| SceneCsv.EventDict.constructor | simulator/readerWriter/read_scene_csv.py:78-83 | the dictionary starts with an empty checkpoint list, no end time, no step size and no objects |
| SceneCsv.EventDict.AppendEvents | simulator/readerWriter/read_scene_csv.py:60-68 | the new dictionary is the append of the entries to the old one |
| SceneCsv.EventDict.ApplyRow | simulator/readerWriter/read_scene_csv.py:95-176 | the row either fails with the error of the row semantics or leaves the dictionary and the time in effect that the semantics gives |
| SceneCsv.EventDict.ApplySys | simulator/readerWriter/read_scene_csv.py:107-116 | a '_SYS' row fails as the row semantics does, or updates only the '_SYS' entry as it says |
| SceneCsv.EventDict.ApplyNode | simulator/readerWriter/read_scene_csv.py:121-137 | a node row fails as the row semantics does (the xor error included), or leaves the dictionary the semantics gives |
| SceneCsv.EventDict.ApplyActive | simulator/readerWriter/read_scene_csv.py:139-176 | a valve, compressor or control-valve row fails as the row semantics does, or leaves the dictionary the semantics gives |
| SceneCsv.SysRow | simulator/readerWriter/read_scene_csv.py:107-116 | a '_SYS' row: DT sets the step size, CHECKPOINT adds a checkpoint, ENDOFSIMULATION sets the end time and raises when it is set already. SceneCsv.EventDict.ApplySys is proved to compute it |
| SceneCsv.NodeRow | simulator/readerWriter/read_scene_csv.py:121-137 | a node row: Q adds a flow event, P a pressure event, and either raises when the node already has events of the other kind. SceneCsv.EventDict.ApplyNode is proved to compute it |
| SceneCsv.ActiveRow | simulator/readerWriter/read_scene_csv.py:139-176 | a compressor or control-valve row: OFF, BP and CONF FREE switch io and by-pass io, and a target value is stored clamped at zero. SceneCsv.EventDict.ApplyActive is proved to compute it |
| SceneCsv.Step | simulator/readerWriter/read_scene_csv.py:95-176 | one row: rows marked '!' are skipped, a time given in the row becomes the time in effect, and the row's object decides its effect. SceneCsv.EventDict.ApplyRow is proved to compute it |
| SceneCsv.Parse | simulator/readerWriter/read_scene_csv.py:78-181 | all rows in order, then an error when no end time was given. SceneCsv.ParseSceneCsv is proved to compute it |
| SceneCsv.IndexOf | simulator/readerWriter/read_scene_csv.py:143-176 | the index found holds the element |
| SceneCsv.AppendKeeps | simulator/readerWriter/read_scene_csv.py:60-137 | an append that adds pressure events only where there are no flow events (and the other way round), and only non-negative targets, keeps both properties |
| SceneCsv.AppendKeepsKeys3 | simulator/readerWriter/read_scene_csv.py:127-137 | a node append of time, pset or qInOut, and behaviour keeps both properties when the xor check passed |
| SceneCsv.AppendKeepsKeys2 | simulator/readerWriter/read_scene_csv.py:140-176 | a valve or compressor append of a time key and a clamped value keeps both properties |
| SceneCsv.StepKeeps | simulator/readerWriter/read_scene_csv.py:95-176 | every row that is read keeps both properties |
| SceneCsv.ActiveKeeps | simulator/readerWriter/read_scene_csv.py:139-176 | a valve, compressor or control-valve row keeps both properties, since targets are clamped at 0 |
| SceneCsv.RunKeeps | simulator/readerWriter/read_scene_csv.py:95-176 | the rest of the table keeps both properties |
| SceneCsv.Credentials | simulator/readerWriter/read_scene_csv.py:284-293 | t0 is always 0 |
| SceneCsv.ParseResult | simulator/readerWriter/read_scene_csv.py:78-293 | a scenario that parses has an end time, which the credentials carry with t0 = 0. No node has both pressure and flow events, and no target is negative |
| SceneCsv.StepRefuses | simulator/readerWriter/read_scene_csv.py:96-119 | a '!' row changes nothing; a second end time is refused; an object the network does not know is refused |
| SceneCsv.RunKeepsEnd | simulator/readerWriter/read_scene_csv.py:112-116 | once the end time is set, later rows either fail or leave it unchanged |
| SceneCsv.StepKeepsEnd | simulator/readerWriter/read_scene_csv.py:112-116 | a row that is read leaves a set end time unchanged |
| SceneCsv.RunSkips | simulator/readerWriter/read_scene_csv.py:95-97 | the rows marked '!' take no part: the table reads as the table without them |
| SceneCsv.ParseSceneCsv | simulator/readerWriter/read_scene_csv.py:70-181 | the reader's loop gives exactly the parse of the table: the events, or the first row's error, or the missing-end error |
| NetYaml.EntriesStep | simulator/readerWriter/read_net_yaml.py:41-45 | the entries seen after one more group are those seen before followed by that group's entries, the order in which the nested loops visit them |
| NetYaml.EntriesPrefix | simulator/readerWriter/read_net_yaml.py:41-45 | the entries of the first groups are a prefix of all entries, in the visiting order |
| NetYaml.PrefixKeeps | simulator/readerWriter/read_net_yaml.py:49-60 | a scheme used, an unpaired end or a mixture seen in the first entries is still seen once all entries are read, so an error found early stands |
| NetYaml.ScanEntries | simulator/readerWriter/read_net_yaml.py:45-65 | the scan of one group fails exactly when the entries seen so far are inconsistent, with one of the four messages, each only when its defect is present; otherwise it returns which schemes were used |
| NetYaml.TopoKeys | simulator/readerWriter/read_net_yaml.py:37-70 | succeeds exactly when every group is a list and every edge uses exactly one complete scheme, the same for all edges; the result is left/right when any edge uses it and from/to otherwise (also with no edges); each error message appears only when its defect is present |
| NetYaml.PModelSource | simulator/readerWriter/read_net_yaml.py:260-269 | pModel's source tag is in the dictionary, and there is none exactly when none of model, edgeModel, arcModel, resistorModel, pipeModel is present |
| NetYaml.ElementDict.constructor | simulator/readerWriter/read_net_yaml.py:253 | the element dictionary holds the given tags |
| NetYaml.ElementDict.DeprecationAliasChecks | simulator/readerWriter/read_net_yaml.py:253-273 | the dictionary becomes its alias resolution in place and the logging flag comes back unchanged |
| NetYaml.Copy | simulator/readerWriter/read_net_yaml.py:266-271 | one alias line: the target takes the alias's value when the alias is present, and nothing changes otherwise |
| NetYaml.CopiesResolve | simulator/readerWriter/read_net_yaml.py:260-271 | the seven renaming steps, in the source's order, give exactly the alias resolution |
| NetYaml.Aliased | simulator/readerWriter/read_net_yaml.py:253-273 | an element's dictionary with its aliases resolved: pModel, frictionModel and zModel take the values of their aliases, and the deprecated 'model' key is dropped. NetYaml.AliasedFacts and NetYaml.AliasedIdempotent state its properties |
| NetYaml.PModelChain | simulator/readerWriter/read_net_yaml.py:260-269 | after the five pModel lines, pModel holds the value of the last alias present and 'model' is removed |
| NetYaml.AliasedFacts | simulator/readerWriter/read_net_yaml.py:260-271 | after resolution 'model' is gone, pModel is present iff it was or an alias was, pipeModel wins over resistorModel, which wins over the rest, frictionModel and zModel follow fModel and compressibilityFactorModel, and every other tag is untouched |
| NetYaml.AliasedIdempotent | simulator/readerWriter/read_net_yaml.py:253-273 | resolving the aliases a second time changes nothing |
| NetYaml.PipeTuples | simulator/readerWriter/read_net_yaml.py:206-207 | reading one entry succeeds exactly when all four geometry keys are present and gives its (value, unit) pairs; an error names a missing key |
| NetYaml.LastMatch | simulator/readerWriter/read_net_yaml.py:204-205 | the position found is the last entry whose key names both internal_pipe and the object; none means no entry matches |
| NetYaml.OverrideInternalPipeTuple | simulator/readerWriter/read_net_yaml.py:200-210 | fails exactly when some matching entry lacks a geometry key; otherwise the last matching entry gives the geometry, and with none the defaults come back unchanged |
| NetGraph.Element.constructor | simulator/netgraph.py:146-158 | a new element has its name, type and dimension and no block yet |
| NetGraph.Element.VarIds | simulator/netgraph.py:163-177 | the id list fails exactly for an element with variables but no block; otherwise it has one id per variable, each agreeing with variable_id and forming the block's consecutive range |
| NetGraph.Element.VariableId | simulator/netgraph.py:163-167 | an index below dim gives the block index plus the index; an index at or above dim raises IndexError, and an element without a block raises TypeError |
| NetGraph.TotalGrows | simulator/netgraph.py:101-103 | the variables of a longer prefix of the components include those of a shorter prefix and of the element between them |
| NetGraph.Network.constructor | simulator/netgraph.py:25-54 | a new network has dimension 0, no components, empty registers and type lists, and no gas mixture; it is placed and its types are recorded |
| NetGraph.Network.GasMixValue | simulator/netgraph.py:56-60 | reading the mixture fails exactly when it was never set, and returns the stored mixture otherwise |
| NetGraph.Network.SetGasMix | simulator/netgraph.py:66-69 | an assignment stores the mixture, counts one more update, makes the mixture readable and changes nothing else |
| NetGraph.Network.Append | simulator/netgraph.py:101-122 | the element gets the block starting at the old dimension, the dimension grows by its size and it joins the components even when the call fails; the call fails exactly for a name already registered, with the source's message and the registers unchanged; otherwise the name and type are registered, a new type is recorded once in the right lists, the blocks stay laid out end to end and the mixture is untouched |
| NetGraph.Network.Place | simulator/netgraph.py:102-105 | the element's block starts at the old dimension, which grows by its size, and it is appended to the components; the blocks stay laid out end to end |
| NetGraph.Network.Register | simulator/netgraph.py:107-122 | the name maps to the element, the type's list gains it at the end, the type lists gain the type only if it is new, and the recorded-types invariant is kept |
| NetGraph.Network.RecordType | simulator/netgraph.py:114-122 | a type not seen before goes to the visible or hidden list by whether it contains 'hidden', and to the node or edge list by whether it contains 'node'; a known type changes nothing |
| NetGraph.AppendPlaces | simulator/netgraph.py:101-105 | after an append every component's block starts at the total size of the components before it |
| NetGraph.BlocksDisjoint | simulator/netgraph.py:101-105 | in a network built by appends, earlier components' blocks end before later ones start and all lie within the network's dimension |
| NetGraph.VarIdsApart | simulator/netgraph.py:163-177 | every variable id of a placed component indexes the state vector, and two different components never share an id |
| NetGraph.Node.constructor | simulator/netgraph.py:195-215 | a new node starts with behaviour 0.5, so it balances flows, has no height yet and no incident edges |
| NetGraph.Node.AssignTopoInfo | simulator/netgraph.py:217-223 | the behaviour goes through its setter (nothing for None, the pressure condition exactly for 0) and the height is stored in metres |
| NetGraph.Node.SetBehaviour | simulator/netgraph.py:241-249 | no value leaves the node as it is; a value is stored and selects the pressure condition exactly when it is 0, and otherwise the flow balance |
| NetGraph.AppendNew | simulator/netgraph.py:146-161 | a new element with the given name, type and dimension gets the block at the old dimension and joins the components even when its name is taken; the append fails exactly then, with the taken-name error and the name register unchanged, and otherwise registers the name; the network's invariants are kept |
| NetGraph.NewNode | simulator/netgraph.py:188-195 | creating a node fails exactly when its name is taken; its type is the prefix followed by 'node', it starts with no edges, and the network grows by one component and the node's dimension, keeping its invariants |
| NetGraph.Edge.constructor | simulator/netgraph.py:284-338 | a new edge is single-flow unless its type contains 'pipe' and it has more than one variable, its flows fit its variables, no geometry, slope factor or own mixture is set, and it is appended to its left node's left edges and its right node's right edges |
| NetGraph.Edge.SetSingleFlow | simulator/netgraph.py:344-350 | switching to two flows fails exactly when the edge has fewer than two variables, with the source's message and nothing changed; otherwise the flag is set and the flows still fit the variables |
| NetGraph.Edge.SetLength | simulator/netgraph.py:372-385 | a length that is not strictly positive is refused with the ModellingError and changes nothing. Otherwise the length is stored in metres first; then the slope factor g (right height - left height) / length is computed, which fails with TypeError, after storing the length, while either end node has no height, and with ZeroDivisionError when the length converts to 0. It succeeds exactly when both heights are set and the length is non-zero, and no other field changes |
| NetGraph.Edge.SetDiameter | simulator/netgraph.py:391-403 | a diameter that is not strictly positive is refused; otherwise it is stored in metres and raises the diameter reset flag |
| NetGraph.Edge.SetGasMix | simulator/netgraph.py:430-433 | the edge's own mixture is stored and its reset flag raised; nothing else changes |
| NetGraph.Edge.GasMix | simulator/netgraph.py:420-428 | an edge with its own mixture returns it; otherwise it returns the network's, remembers the network's update id and raises its reset flag exactly when that id changed since it last looked |
| NetGraph.Edge.LeftFlowId | simulator/netgraph.py:527-529 | the left flow is the element's variable 0 |
| NetGraph.Edge.RightFlowId | simulator/netgraph.py:539-546 | the right flow is variable 0 of a single-flow edge and variable 1 otherwise |
| NetGraph.FlowIds | simulator/netgraph.py:528-547 | a placed edge whose flows fit has both flow ids, which coincide exactly for a single-flow edge and lie in the edge's block |
| NetGraph.NewEdge | simulator/netgraph.py:273-301 | creating an edge fails exactly when its name is taken, and then neither end node's edge lists change; otherwise its type is the prefix followed by 'edge-' and its kind, it offers as many flows as its variables allow, and it is appended to the left node's left edges and the right node's right edges |
| ElemOp.AbsCmp | ad/cycADa/src_cpp/cycADa_elemOp.cpp:35-64 | the documented order of ids: every independent variable (id >= 0) before every switching variable (id < 0), each kind by ascending magnitude |
| ElemOp.AbsCmpStrictTotalOrder | ad/cycADa/src_cpp/cycADa_elemOp.cpp:44-69 | the corrected comparison is irreflexive, transitive and total on distinct ids, so it is a valid ordering for std::sort |
| ElemOp.AbsCmpAgreesAwayFromZero | ad/cycADa/src_cpp/cycADa_elemOp.cpp:44-64 | for non-zero ids the comparison as written and the corrected one agree |
| ElemOp.AbsCmpAsWrittenNotTransitive | ad/cycADa/src_cpp/cycADa_elemOp.cpp:44-64 | as written, id 0 sorts before 5 and 5 before -3, but 0 and -3 are incomparable, so the comparison is not a strict weak ordering |
| ElemOp.AbsCmpAsWritten | ad/cycADa/src_cpp/cycADa_elemOp.cpp:44-64 | absCmp exactly as written, with its u * w < 0 test for ids of different kinds |
| ElemOp.CreatePermutationMap | ad/cycADa/src_cpp/cycADa_elemOp.cpp:66-71 | the map is a permutation of the positions, and reading the ids through it gives them in the corrected order |
| ElemOp.SortedIndices | ad/cycADa/src_cpp/cycADa_elemOp.cpp:66-71 | sorting the (id, position) pairs and keeping the positions gives a permutation that orders the ids |
| ElemOp.ApplyPermutationMap | ad/cycADa/src_cpp/cycADa_elemOp.cpp:75-93 | after the cycle walk, position k holds the old value at p[k], for every k |
| ElemOp.CycleFollow | ad/cycADa/src_cpp/cycADa_elemOp.cpp:84-90 | following one cycle marks its start done, keeps every position already done, and leaves each done position holding its target value |
| ElemOp.IndexOf | ad/cycADa/src_cpp/cycADa_elemOp.cpp:202-219 | std::find minus begin: the first position holding x, or the length exactly when x is absent |
| ElemOp.AppendMissing | ad/cycADa/src_cpp/cycADa_elemOp.cpp:194-212 | u's ids stay in front, w's missing ids are appended, every entry of the map points at a position holding its own id, no id is lost or invented, and distinct u ids stay distinct |
| ElemOp.SortIds | ad/cycADa/src_cpp/cycADa_elemOp.cpp:215-216 | the ids are rearranged by a permutation into the corrected order, keeping the same ids and their distinctness |
| ElemOp.PermutedIds | ad/cycADa/src_cpp/cycADa_elemOp.cpp:215-216 | rearranging by a permutation keeps exactly the same ids and keeps them distinct |
| ElemOp.Remap | ad/cycADa/src_cpp/cycADa_elemOp.cpp:218-220 | each map entry becomes the position of its old target in the permutation |
| ElemOp.MergeVarSets | ad/cycADa/src_cpp/cycADa_elemOp.cpp:180-229 | the id set of a binary operation holds exactly the ids of its two operands, sorted in the corrected order and without repeats when u's were distinct; the map sends every operand id to its position in that set |
| ElemOp.SparseGrad | ad/cycADa/src_cpp/cycADa_elemOp.cpp:231-251 | after the call each of the first nVars gradient slots holds the sum of c0 times u's and c1 times w's gradient entries mapped to it; the slots beyond are untouched |
| ElemOp.ContribSnoc | ad/cycADa/src_cpp/cycADa_elemOp.cpp:245-250 | one more accumulation adds its weight to exactly the slot it maps to |
| ElemOp.RootVarSet | ad/cycADa/src_cpp/cycADa_elemOp.cpp:311-314 | an independent variable's id set is the magnitude of its id, which is non-negative |
| ElemOp.AbsVarSet | ad/cycADa/src_cpp/cycADa_elemOp.cpp:444-446 | a switching variable's id set is its id's magnitude negated, which is non-positive |
| ElemOp.RootsBeforeSwitchingVariables | ad/cycADa/src_cpp/cycADa_elemOp.cpp:35-64 | under the corrected order any independent variable sorts before any switching variable, also the first one with id 0; as written, id 0 does not |
| ElemOp.GetVal | ad/cycADa/src_cpp/cycADa_elemOp.cpp:1031-1036 | a boolean's value is 1 when true and -1 when false |
| ElemOp.CompareCodes | ad/cycADa/src_cpp/cycADa_elemOp.cpp:1045-1080 | the comparison codes come in complementary pairs (0/1, 3/4, 5/2) and mirrored pairs (4/2, 5/3); any other code gives false |
| ElemOp.CompareBoolCodes | ad/cycADa/src_cpp/cycADa_elemOp.cpp:1082-1097 | 'and' is the De Morgan dual of 'or'; any other code gives false |
| ElemOp.CompareReal | ad/cycADa/src_cpp/cycADa_elemOp.cpp:1045-1080 | codes 0 to 5 compare with ==, !=, <=, <, >= and >; any other code is false. ElemOp.CompareCodes states its properties |
| ElemOp.CompareBool | ad/cycADa/src_cpp/cycADa_elemOp.cpp:1082-1097 | codes 6 and 7 are 'and' and 'or'; any other code is false. ElemOp.CompareBoolCodes states its properties |
| AdTape.WritePtrs | ad/cycADa/src_cpp/cycADa_tape.cpp:230-247 | a list layout keeps every operation's id sets; what it writes is stated by WritePtrsAbsent and WritePtrsLast |
| AdTape.Tape.constructor | ad/cycADa/src_cpp/cycADa_tape.cpp:27-33 | a new tape has element id 0, no operations, roots or dependents, a zero variable id per set and empty id lists per set |
| AdTape.Tape.AddOp | ad/cycADa/src_cpp/cycADa_tape.cpp:35-39 | the operation is pushed last and gets the tape position as its id; the element id counts one more; nothing else changes |
| AdTape.Tape.IncrVarId | ad/cycADa/src_cpp/cycADa_tape.cpp:41-43 | only the variable id of the given set grows by one |
| AdTape.Tape.SetVarId | ad/cycADa/src_cpp/cycADa_tape.cpp:49-51 | only the variable id of the given set is replaced |
| AdTape.Tape.SumOverTape | ad/cycADa/src_cpp/cycADa_tape.cpp:169-188 | the loop's total is the summed width of the operations the layout selects |
| AdTape.Tape.PtrsOverTape | ad/cycADa/src_cpp/cycADa_tape.cpp:190-209 | every selected operation gets base plus the widths of the selected operations before it; the rest of the tape is untouched |
| AdTape.Tape.SumOverList | ad/cycADa/src_cpp/cycADa_tape.cpp:211-228 | the loop's total is the summed width of the listed operations |
| AdTape.Tape.PtrsOverList | ad/cycADa/src_cpp/cycADa_tape.cpp:230-247 | the listed operations get consecutive blocks from base, in list order |
| AdTape.Tape.GradSizeInters | ad/cycADa/src_cpp/cycADa_tape.cpp:169-188 | the intermediate gradient buffer holds max(var-set size, 1) entries for each operation that is neither a dependent nor an active switching variable |
| AdTape.Tape.SetGradInters | ad/cycADa/src_cpp/cycADa_tape.cpp:190-209 | those same operations get gradient blocks of those sizes laid out in tape order from the buffer's start |
| AdTape.Tape.GradSizeSwVars | ad/cycADa/src_cpp/cycADa_tape.cpp:211-228 | the switching-variable gradient buffer holds one entry per dependency of each switching variable of the set |
| AdTape.Tape.SetGradSwVars | ad/cycADa/src_cpp/cycADa_tape.cpp:230-247 | the switching variables of the set get consecutive gradient blocks of their var-set sizes |
| AdTape.Tape.GradSizeDepends | ad/cycADa/src_cpp/cycADa_tape.cpp:249-273 | the dependent gradient buffer holds one entry per dependency of each dependent |
| AdTape.Tape.SetGradDepends | ad/cycADa/src_cpp/cycADa_tape.cpp:275-294 | the dependents get consecutive gradient blocks of their var-set sizes |
| AdTape.Tape.FwdVecSizeInters | ad/cycADa/src_cpp/cycADa_tape.cpp:296-306 | the intermediate forward buffer has one entry per operation that is neither a dependent nor an active switching variable |
| AdTape.Tape.SetFwdVecInters | ad/cycADa/src_cpp/cycADa_tape.cpp:308-318 | those operations get consecutive forward entries in tape order |
| AdTape.Tape.FwdVecSizeSwVarsAndDepends | ad/cycADa/src_cpp/cycADa_tape.cpp:320-331 | the buffer has one entry per switching variable of the set plus one per dependent |
| AdTape.Tape.SetFwdVecSwVarsAndDepends | ad/cycADa/src_cpp/cycADa_tape.cpp:333-346 | switching variables get the first entries and dependents the ones after them |
| AdTape.Tape.RevVecSizeInters | ad/cycADa/src_cpp/cycADa_tape.cpp:348-358 | the intermediate reverse buffer has one entry per operation that is not an active independent or abs node |
| AdTape.Tape.SetRevVecInters | ad/cycADa/src_cpp/cycADa_tape.cpp:360-370 | those operations get consecutive reverse entries in tape order |
| AdTape.Tape.RevVecSizeRootsAndSwVars | ad/cycADa/src_cpp/cycADa_tape.cpp:372-383 | the buffer has one entry per independent of the set plus one per abs node of the set |
| AdTape.Tape.SetRevVecRootsAndSwVars | ad/cycADa/src_cpp/cycADa_tape.cpp:385-398 | independents get the first reverse entries and abs nodes the ones after them |
| AdTape.Tape.AssignBar | ad/cycADa/src_cpp/cycADa_tape.cpp:141-155 | the bar entries become: all zero, then the switching variables' seeds, then the dependents' seeds |
| AdTape.Tape.ZeroAllBars | ad/cycADa/src_cpp/cycADa_tape.cpp:142-144 | every operation's bar entry of the set becomes zero, nothing else changes, and the tape stays well formed |
| AdTape.Tape.SeedBars | ad/cycADa/src_cpp/cycADa_tape.cpp:147-154 | the listed operations take the given values in list order |
| AdTape.Tape.Rev | ad/cycADa/src_cpp/cycADa_tape.cpp:163-167 | the reverse sweep visits every operation once, from the last to the first |
| AdTape.ListSumOne | ad/cycADa/src_cpp/cycADa_tape.cpp:320-331 | counting one entry per listed operation gives the list's length |
| AdTape.TapeLayoutDisjoint | ad/cycADa/src_cpp/cycADa_tape.cpp:190-209 | the blocks a tape layout hands out do not overlap: each ends before any later one starts and within the reported total |
| AdTape.ListLayoutDisjoint | ad/cycADa/src_cpp/cycADa_tape.cpp:230-247 | the blocks a list layout hands out do not overlap and lie within the reported total |
| AdTape.WritePtrsAbsent | ad/cycADa/src_cpp/cycADa_tape.cpp:230-247 | an operation not in the list keeps its pointers |
| AdTape.WritePtrsLast | ad/cycADa/src_cpp/cycADa_tape.cpp:230-247 | an operation listed more than once keeps the address of its last listing |
| AdTape.WriteBarsAbsent | ad/cycADa/src_cpp/cycADa_tape.cpp:147-154 | an operation not in the list keeps its bar values |
| AdTape.WriteBarsLast | ad/cycADa/src_cpp/cycADa_tape.cpp:147-154 | an operation listed more than once keeps the value of its last listing |
| AdTape.AssignBarUnseeded | ad/cycADa/src_cpp/cycADa_tape.cpp:141-155 | an operation that is neither a switching variable of the set nor a dependent ends with bar 0 |
| AdTape.AssignBarDependent | ad/cycADa/src_cpp/cycADa_tape.cpp:151-154 | a dependent holds the seed after all switching variables' seeds, at its last position among the dependents |
| AdTape.AssignBarSwVar | ad/cycADa/src_cpp/cycADa_tape.cpp:147-150 | a switching variable that is not a dependent holds its own seed |

## Left out

General:
- Floating point is modelled as exact `real`. Rounding, NaN and infinity are not modelled. Where the code tests for NaN/Inf (the Newton line search), the system function comes with a predicate saying whether its value is finite.
- Console output, logging and warnings are not modelled. They change no result.
- Callbacks are function-typed parameters: the system function, Jacobian, linear and nonlinear solvers, unit conversions, float parsing and `pow`. What happens inside them is not modelled.
- Exceptions are `Err` results carrying the exception's kind and message. Where a caller re-raises an exception, the model passes the error on.

paso:
- MathAux: `maximum`/`minimum` on numpy arrays are modelled on scalars only.
- Basics.IterWindow: the generator yields one list object that it keeps mutating, so a caller that stores the windows sees them all change. The model returns a snapshot of the window at each yield and does not model that aliasing.
- Basics.ForceArray: numpy arrays are modelled as nested sequences of reals. Only the `force_1D` flattening and the scalar case are modelled, not numpy's dtype and shape handling.
- Basics.Fuse: the inputs are reals without weights other than the merge counts.
- Options: a value equal to the current one records nothing. Python's `==` makes 22 equal to 22.0; the model compares values of one type.
- Options: the order of the registered key set, `__repr__` and the printing of the report are not modelled.
- Options: the source shares its key registry between all instances of a class, so keys registered by one instance leak into the others. The model keeps one registry object that the caller passes in.
- JacobianCsr.JacCsr.constructor: indices/indptr handed to the constructor are not modelled; a pattern is given through AssignSparsityPattern.
- JacobianCsr.JacCsr.AssignSparsityPattern: column indices are natural numbers; negative indices, which numpy would read from the end, are not modelled. With always_to_scipy set, a pattern with more than dim_f rows would fail in the scipy conversion, which is not modelled (see JacobianCsr.JacCsr.Call).
- JacobianCsr.JacCsr.Call: the conversion to a scipy matrix (`always_to_scipy`) is not modelled. The result is the CSR triple.
- Newton.SparseNlSolve requires gamma_min > 0. With gamma_min = 0, a system that stays out of domain keeps halving gamma forever.
- Newton.SparseNlSolve: the tolerances are scalars, not per-entry vectors. The counters of function and Jacobian evaluations in the report, and the progress callback, are not modelled.
- Newton.CsrMatrix.RowScaling requires every row to have a non-zero absolute sum. The source divides by zero there, which numpy turns into inf/nan.
- Homotopy.HomotopySolve: the progress callback, which may also exchange the inner solver, and the eval counters are not modelled.
- Homotopy.HomotopySolve requires 0 < mu_step_min <= mu_step_initial <= mu_step_max, an expansion factor >= 1 and a shrink factor in (0, 1). Outside these ranges the source's loop need not end.
- ImpEuler.ImpEulerStep requires h != 0, which the source also needs in its difference quotient.
- ImpEuler.Integrate requires t0 < T.
- ImpEuler.InitialStepper: models the corrected start, which takes a checkpoint that became the target off the queue; the code as written (ImpEuler.py:121-123) keeps it, which ImpEuler.InitialStepperAsWritten models.
- ImpEuler.Snap: models the corrected snap, which keeps the sentinel T + 2 h_max as the target; the code as written (ImpEuler.py:155-160) calls next() on the exhausted queue and raises StopIteration, which ImpEuler.SnapAsWritten models.
- ImpEuler.Prepared: uses the corrected start and snap, and does not snap a retry again; the code as written re-snaps a reduced step (ImpEuler.py:150-151, 179-187), which ImpEuler.RetargetAsWritten models.
- ImpEuler.Integrate: promises the behaviour of the corrected loop (the three corrections above), not of the code as written; ImpEuler.InitialStepperAsWritten, ImpEuler.SnapAsWritten and ImpEuler.RetargetAsWritten model the code as written.
- ImpEuler.StepFn: describes the corrected pass (a retry keeps the reduced step, the sentinel stays the target); the code as written is ImpEuler.RetargetAsWritten.
- ImpEuler.IntegrateStep: makes the corrected pass of ImpEuler.StepFn, not the pass as written (ImpEuler.RetargetAsWritten).
- ImpEuler.Integrate: the callback called with Ts, Hs and Xs after each accepted step is not modelled.
- ImpEuler.Integrate: the solver's `success` flag and its exceptions are one outcome of the step callback. The cycADa variant of the step is not modelled, and the times/solutions are returned as sequences.

simulator:
- Profiles: the closed-form lookup with a non-zero horizon (`_closed_form_table_look_up_algorithm`, simulator/resources/profiles.py:117-125 and 150 on) is not modelled. Only the horizon-0 path is.
- Profiles: mode None is not modelled.
- Profiles.TableLookup.Call: with duplicate times the result can depend on the search start. A zero-width segment gets slope 0 where numpy gives inf or nan.
- Units: `_unit_unify`'s TypeError for a non-string cannot arise, because the model's argument is a string.
- Units: lower-casing is ASCII only.
- Units: the conversion functions and the loading of the unit register from YAML are not modelled. The register is a parameter of Units.ValidateUnit.
- Units.ValidateUnit: normalises with the corrected caret rule (Units.Unify), not with the loop as written (Units.UnifyAsWritten). The written loop can also mark a leading '2' or '3'; the Findings table gives such an input.
- Units.DateToSec: timedelta's microseconds and its overflow are not modelled.
- SceneCsv: reading the CSV file and `set_scenario` are not modelled. The reader gets the rows as sequences of fields.
- SceneCsv: the message for a node with both P and Q events names the object by its name, not by `str(element)`.
- SceneCsv.ParseSceneCsv: the system entry keys are always present in the model's event dictionary.
- NetYaml: entries are modelled as sets of keys and the configuration values as a generic type.
- NetYaml: `create_net`, its hidden nodes and resistors, and the logging of deprecations are not modelled.
- NetGraph: the zModel/fModel getters and setters (simulator/netgraph.py:71-99 and 435 on) follow the gasMix pattern and are not modelled.
- NetGraph: area, scaled_area_over_length, kappa, lambda and roughness are physics and are not modelled; only the slope factor, which the length setter computes, is. The node's coordinates are not modelled.
- NetGraph: edge ends given as (name, dim) tuples that create nodes are not modelled. Dimensions are natural numbers.
- NetGraph: the network's `__call__` evaluation (simulator/netgraph.py:124-141) is not modelled.
- NetGraph: `variable`/`dvariable`, which read the network's input vector, and the node conditions pCond/qCond are not modelled.

cycADa:
- ElemOp: only the id bookkeeping of the elementary operations is modelled: ids, permutations, merged variable sets, the sparse gradient accumulation and the comparison codes. Their values and partial derivatives are not.
- AdTape: operations are values in a sequence, not pointers. Filling the tape's adouble lists is not modelled, and neither are the forward/reverse sweeps' arithmetic; AdTape.Tape.Rev states only the order of the reverse sweep.
- AdTape: buffer pointers are natural-number addresses.

## Findings

| source | as written | input that shows it | evidently intended | confidence | as-written member | corrected member |
|---|---|---|---|---|---|---|
| ad/cycADa/src_cpp/cycADa_elemOp.cpp:44-64 | `absCmp` tests `u*w < 0` for "different kinds", which misses id 0, so 0 and a negative id are incomparable while 0 < 5 < -3 | ids 0, 5, -3: 0 before 5 and 5 before -3, but not 0 before -3 | independents (id >= 0, including the first one, id 0) before all switching variables; a strict weak ordering as std::sort requires | high, not executed | ElemOp.AbsCmpAsWrittenNotTransitive | ElemOp.AbsCmp |
| paso/solvers/dae/ImpEuler.py:121-123 | when the first grid point lies past the first checkpoint, the target becomes the checkpoint, but the checkpoint queue is not advanced, so the same checkpoint is targeted a second time | checkpoints 5 and 7 on [0, 10] with the default step sizes | advance to the next checkpoint once one becomes the target, as lines 158-160 do | medium, not executed | ImpEuler.FirstCheckpointTargetedTwice | ImpEuler.InitialStepper |
| paso/solvers/dae/ImpEuler.py:155-160 | after the sentinel T + 2 h_max becomes the target, a later snap calls `next` on the exhausted queue and raises StopIteration | T = 25, h_grid = 10, h_max = 1 | keep the sentinel as the last target instead of taking another | medium, not executed | ImpEuler.SentinelExhausted | ImpEuler.SnapCorrects |
| paso/solvers/dae/ImpEuler.py:150-151,179-187 | a step reduced after a solver failure is snapped back up to the failed size when it would reach T - h_min, so the same failing step is retried forever | T = 3, h_min = 1, a solve from t = 1 with h = 2 that fails | a retry keeps the reduced step, so the step shrinks to h_min and the failure is re-raised | medium, not executed | ImpEuler.RetryResnapped | ImpEuler.Integrate |
| simulator/resources/units.py:108-119 | `prepos` and `preletter` keep their last values across passes, so a leading '2' or '3' gets a '^' exactly when another insertion happened before | "2m2" becomes "^2m^2" | a digit at the start is never marked, as in the first pass | high, not executed | Units.LeadingCaretAsWritten | Units.CaretsMarked |
