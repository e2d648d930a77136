# h^2 heuristic and the Pi^m compilation, in Dafny

This project models two parts of a classical-planning search code base.

- **The h^2 heuristic** (`HTwoHeuristic`). For a state it fills a table
  with one entry per fact and per pair of facts on two different variables.
  An entry is 0 when the state contains those facts and INT_MAX otherwise.
  The table is then lowered until a pass over the operators changes
  nothing. The result is the greatest fixpoint of the update rules below
  the initial table, so it depends only on the state. In each pass, each
  operator whose precondition evaluates to c1 sets each partial effect
  (every effect fact, and every pair of effect facts) to at most c1 + cost.
  Each single-fact partial effect f is also extended by every fact the
  operator does not delete. The heuristic
  value is the largest entry over the partial tuples of the goal, and
  INT_MAX means a dead end.
- **The Pi^m compiled task** (`PiMCompiledTask`, m = 2). This task has one
  binary variable, a "meta atom", for the empty set and for every pair of
  facts (f, g) with f <= g. Its initial state and goal follow from the
  parent's. Each parent operator o gives one copy for S = {} and one copy
  for each extra atom s. An extra atom s is a fact on a variable no effect of
  o mentions, and no precondition of o contradicts it.

Files and modules:

| file | module | contents |
|---|---|---|
| `facts.dfy` | `Facts` | `FactPair`, the parent task record, facts of a state, conflicting facts, `std::sort` on facts as an insertion sort |
| `pair_hash.dfy` | `HTwoPair` | the table key `Pair`, its stored hash, `PairHash`, `FactPairHash` |
| `htwo_table.dfy` | `HTwoTable` | the h^2 table as values: keys, partial tuples, evaluation, extension, the fixpoint condition, and the monotone-descent facts behind termination |
| `htwo_heuristic.dfy` | `HTwo` | class `HTwoHeuristic`: the heuristic's state and its imperative operations |
| `pi_m_spec.dfy` | `PiMSpec` | the compiled task as values: the meta atoms and their numbering and names, the compiled state and goal, the translation of pairs into meta atoms, and the copies of each operator |
| `pi_m_compiled_task.dfy` | `PiM` | class `PiMCompiledTask`: the construction steps and the task-interface getters |

Where the source's intent and its code disagree, the model follows the code:

- `htwo_heuristic.h` declares an operator queue and per-operator conflict
  caches. The `.cc` never uses them, so they are left out.
- The header has `std::vector` caches, but the `.cc` indexes
  `precondition_cache` as a map with `find`. Both caches are modelled as maps
  keyed by operator id.

## Model

| member | source | states |
|---|---|---|
| Facts.StateFacts | src/search/heuristics/htwo_heuristic.cc:51 | the facts of a state: one fact per variable, in variable order, each holding in the state |
| Facts.ConflictsWith | src/search/heuristics/htwo_heuristic.cc:265-274 | true exactly when some fact of the list gives the fact's variable a different value |
| Facts.InsertPerm | src/search/heuristics/htwo_heuristic.cc:248 | one insertion step of the sort adds exactly the inserted fact (multiset) |
| Facts.InsertSorted | src/search/heuristics/htwo_heuristic.cc:248 | inserting into a sorted list keeps it sorted by FactPair's operator< |
| Facts.SortFactsSorted | src/search/heuristics/htwo_heuristic.cc:248 | `std::sort` on facts: the result is sorted and is a permutation of its input |
| Facts.InsertKeepsIncreasing | src/search/heuristics/htwo_heuristic.cc:260 | inserting a fact on a new variable keeps variables strictly increasing |
| Facts.SortedFactsIncreasing | src/search/heuristics/htwo_heuristic.cc:239-252 | sorting facts on distinct variables orders them by strictly increasing variable, with the same members |
| Facts.SortedFactsValid | src/search/heuristics/htwo_heuristic.cc:255-262 | a sorted precondition or effect list of a well-formed operator holds only facts of the task, on increasing variables |
| HTwoPair.ToSize | src/search/heuristics/htwo_heuristic.h:42-43 | conversion to size_t: a value in [0, 2^64) congruent to its input modulo 2^64 |
| HTwoPair.ComputeHash | src/search/heuristics/htwo_heuristic.h:40-45 | compute_hash is ((f2.var*MOD + f2.value)*MOD + (f1.var*MOD + f1.value)) mod 2^64, with MOD = 100003 |
| HTwoPair.WrapCombine | src/search/heuristics/htwo_heuristic.h:44 | wrapping h1 and h2 to 64 bits before `h2 * MOD + h1` gives the same 64-bit result |
| HTwoPair.PairHash | src/search/heuristics/htwo_heuristic.h:47-51 | PairHash returns the hash stored at construction, which is compute_hash of the two facts |
| HTwoPair.FactPairHash | src/search/heuristics/htwo_heuristic.h:53-57 | the hash lies in [0, 2^64) and is congruent to var * 100003 + value |
| HTwoPair.EqualPairsHashEqually | src/search/heuristics/htwo_heuristic.h:35-37 | pairs equal under operator== are the same value and have equal hashes, as unordered_map requires |
| HTwoPair.PairOrderMatters | src/search/heuristics/htwo_heuristic.h:35-37 | operator== is order-sensitive: (f, s) and (s, f) differ when f != s |
| HTwoPair.FactPairHashInjective | src/search/heuristics/htwo_heuristic.h:53-57 | on facts with values below 100003 and variables below 2^47, equal hashes mean equal facts, in the model's unbounded arithmetic |
| HTwoPair.FactPairHashInjectiveInInt | src/search/heuristics/htwo_heuristic.h:53-57 | on facts with values below 100003 whose var * 100003 + value fits in an int, the hash is that number unchanged, and equal hashes mean equal facts |
| HTwoTable.RowsCount | src/search/heuristics/htwo_heuristic.cc:281 | the first k rows hold k(2n - k + 1)/2 tuples, the size that `reserve` asks for when k = n |
| HTwoTable.RowsMembers | src/search/heuristics/htwo_heuristic.cc:283-289 | a tuple is in the first k rows iff it is (t[i], NoFact) or (t[i], t[j]) with i < k and i < j |
| HTwoTable.PartialTuplesShape | src/search/heuristics/htwo_heuristic.cc:279-290 | generate_all_partial_tuples yields n(n+1)/2 tuples: every singleton and every pair i < j, nothing else |
| HTwoTable.PartialTuplesAreKeys | src/search/heuristics/htwo_heuristic.cc:172 | every partial tuple of a valid tuple on increasing variables is a table key, so `hm_table.at` succeeds |
| HTwoTable.MaxEntryIsMaximum | src/search/heuristics/htwo_heuristic.cc:170-181 | the running maximum is in [0, INT_MAX], bounds every entry, is attained by one of them (0 when there are none), and is INT_MAX when any entry is |
| HTwoTable.EvalCharacterized | src/search/heuristics/htwo_heuristic.cc:167-182 | eval's value bounds the entry of every partial tuple, equals one of them (0 for the empty tuple), and is INT_MAX when one of them is |
| HTwoTable.ExtendStep | src/search/heuristics/htwo_heuristic.cc:188-205 | one more fact of t either adds a conflict (same variable, different value), adds nothing (same fact), or adds the key of the two variables |
| HTwoTable.OtherVarKeysMembers | src/search/heuristics/htwo_heuristic.cc:196 | the keys looked up are exactly the ordered pairs of `fact` with each fact of t on another variable |
| HTwoTable.ExtendEvalCharacterized | src/search/heuristics/htwo_heuristic.cc:185-207 | hm_table_evaluation is INT_MAX on a conflict; otherwise it is at least eval, fact's entry and the entry of fact with each precondition fact on another variable, equal to one of these, and INT_MAX if any of them is |
| HTwoTable.ExtensionKeysPresent | src/search/heuristics/htwo_heuristic.cc:186-197 | every key hm_table_evaluation looks up with `.at` is present in a full table |
| HTwoTable.ExtensionOnlyTrans | src/search/heuristics/htwo_heuristic.cc:134-161 | the keys extend_tuple may change compose: a change confined to extendable keys, twice, is confined to them |
| HTwoTable.ExtendAtEffect | src/search/heuristics/htwo_heuristic.cc:154-160 | one key's step of extend_tuple keeps the keys and the bounds, changes only that key, only if it is extendable, and only downward; was_updated is set exactly when it drops, and a key that does not drop is settled |
| HTwoTable.ExtendedFromStep | src/search/heuristics/htwo_heuristic.cc:134-161 | after each visit, every visited key is at most its extended value evaluated on the table extend_tuple started from, plus the cost |
| HTwoTable.SingletonKept | src/search/heuristics/htwo_heuristic.cc:148-150 | extend_tuple from a single-fact partial effect never changes that partial effect's own entry |
| HTwoTable.SettledPrefix | src/search/heuristics/htwo_heuristic.cc:113-123 | settled partial effects accumulate along the loop over partial effects |
| HTwoTable.SettledOpsPrefix | src/search/heuristics/htwo_heuristic.cc:105-124 | settled operators accumulate along the loop over operators |
| HTwoTable.SumOverRemove | src/search/heuristics/htwo_heuristic.cc:101-125 | the sum of the entries of a key set splits off any one key |
| HTwoTable.SumOverMonotone | src/search/heuristics/htwo_heuristic.cc:101-125 | entry-wise lower tables have a lower or equal sum, strictly lower when one entry is strictly lower |
| HTwoTable.SumOverNonNegative | src/search/heuristics/htwo_heuristic.cc:101-125 | the sum of non-negative entries is non-negative, so the descent is bounded below |
| HTwoTable.LowersOnlyUpdate | src/search/heuristics/htwo_heuristic.cc:213-219 | update_hm_entry keeps "entries only drop, and was_updated is set iff some entry dropped" |
| HTwoTable.LowersOnlyTrans | src/search/heuristics/htwo_heuristic.cc:100-126 | "entries only drop, with was_updated tracking it" composes across consecutive steps |
| HTwoTable.NoHigherTrans | src/search/heuristics/htwo_heuristic.cc:100-126 | "no entry higher" is transitive across passes of the do-while |
| HTwoTable.LoweredSumDrops | src/search/heuristics/htwo_heuristic.cc:101-125 | a pass that lowers some entry strictly lowers the sum of all entries, so the do-while terminates |
| HTwoTable.GreatestFixpointUnique | src/search/heuristics/htwo_heuristic.cc:100-126 | two tables that are each the greatest fixpoint below the same table are equal, so the final table, and hence the heuristic value, is determined by the state |
| HTwoTable.AboveFixpointsStart | src/search/heuristics/htwo_heuristic.cc:100 | the starting table is above every fixpoint below it |
| HTwoTable.MaxEntryMonotone | src/search/heuristics/htwo_heuristic.cc:170-181 | lowering entries never raises the maximum over a list of keys |
| HTwoTable.EvalMonotone | src/search/heuristics/htwo_heuristic.cc:167-207 | eval is monotone in the table; hm_table_evaluation is monotone in the table and in the value it extends |
| HTwoTable.EvalAboveFixpoints | src/search/heuristics/htwo_heuristic.cc:106-107 | c1 evaluated on a table above every fixpoint bounds the precondition's value in each of those fixpoints |
| HTwoTable.EffectKeepsAbove | src/search/heuristics/htwo_heuristic.cc:117 | lowering a partial effect to c1 + cost keeps the table above every fixpoint below the starting table |
| HTwoTable.ExtensionKeepsAbove | src/search/heuristics/htwo_heuristic.cc:154-160 | one key's step of extend_tuple keeps the table above every fixpoint below the starting table |
| HTwoTable.TrueTuplesCostNothing | src/search/heuristics/htwo_heuristic.cc:67-83 | a tuple whose facts all hold in the state evaluates to 0 in any table no higher than the initial one |
| HTwo.HTwoHeuristic.constructor | src/search/heuristics/htwo_heuristic.cc:19-33 | stores m, the task and its goal facts, with an empty table and empty caches |
| HTwo.HTwoHeuristic.ComputeHeuristic | src/search/heuristics/htwo_heuristic.cc:46-61 | 0 for a goal state; otherwise the table is the greatest fixpoint below the state's initial table (unique, by GreatestFixpointUnique), and the result is eval(goals) on it, or DEAD_END when that is INT_MAX |
| HTwo.HTwoHeuristic.InitHmTable | src/search/heuristics/htwo_heuristic.cc:67-83 | the keys are exactly the singletons and the pairs over two variables, each 0 iff it is contained in the state and INT_MAX otherwise |
| HTwo.HTwoHeuristic.InitEntriesWith | src/search/heuristics/htwo_heuristic.cc:71-81 | one value j of variable i: all keys starting with (i, j) are initialised, and other entries are untouched |
| HTwo.HTwoHeuristic.InitPairsWith | src/search/heuristics/htwo_heuristic.cc:74-80 | the pairs of (i, j) with each value of a later variable k are initialised, and other entries are untouched |
| HTwo.HTwoHeuristic.InitPartialEffects | src/search/heuristics/htwo_heuristic.cc:87-94 | every operator gets its cached partial effects, the partial tuples of its sorted effects |
| HTwo.HTwoHeuristic.UpdateHmTable | src/search/heuristics/htwo_heuristic.cc:100-126 | the do-while ends with was_updated false and the table the greatest fixpoint of every operator's updates that is no higher than the starting table |
| HTwo.HTwoHeuristic.UpdateForOperator | src/search/heuristics/htwo_heuristic.cc:106-123 | one operator, skipped when c1 = eval(pre) is INT_MAX: afterwards every partial effect is at most c1 + cost, entries only drop, the table stays above every fixpoint below the starting table, and if none dropped the operator is settled |
| HTwo.HTwoHeuristic.ApplyPartialEffectNext | src/search/heuristics/htwo_heuristic.cc:112-122 | one round of the loop over partial effects: the effects done so far are at most c1 + cost and, if nothing dropped, settled |
| HTwo.HTwoHeuristic.ApplyPartialEffect | src/search/heuristics/htwo_heuristic.cc:117-122 | one partial effect e: e's entry becomes min(old, c1 + cost); a pair changes nothing else; a singleton then changes only extendable keys, each to at most its extended value plus the cost; the table stays above every fixpoint; if none dropped, e is settled |
| HTwo.HTwoHeuristic.ExtendTuple | src/search/heuristics/htwo_heuristic.cc:132-162 | extend_tuple lowers only extendable keys, each to at most min(old, c2 + cost) with c2 evaluated on the starting table; the table stays above every fixpoint; if none dropped every key is settled under extension |
| HTwo.HTwoHeuristic.ExtendTupleNext | src/search/heuristics/htwo_heuristic.cc:134-161 | one iteration: the table becomes the one-key step on hm_pair, and the loop's invariants now cover hm_pair |
| HTwo.HTwoHeuristic.ExtendTupleAt | src/search/heuristics/htwo_heuristic.cc:135-160 | one key: the new table is exactly the one-key step, which leaves the table unchanged on the three `continue`s and on c2 = INT_MAX, and otherwise sets hm_pair to min(old, c2 + cost); was_updated is set iff it dropped |
| HTwo.HTwoHeuristic.ExtendWith | src/search/heuristics/htwo_heuristic.cc:154-160 | for an extendable key: unchanged when c2 is INT_MAX, otherwise set to min(old, c2 + cost), nothing else changed; was_updated is set iff it dropped |
| HTwo.HTwoHeuristic.Eval | src/search/heuristics/htwo_heuristic.cc:167-182 | eval returns the specified maximum over the partial tuples, including the early INT_MAX return |
| HTwo.HTwoHeuristic.HmTableEvaluation | src/search/heuristics/htwo_heuristic.cc:185-207 | hm_table_evaluation returns the specified extension value, which lies between eval and INT_MAX |
| HTwo.HTwoHeuristic.UpdateHmEntry | src/search/heuristics/htwo_heuristic.cc:213-219 | the entry becomes min(old, val), was_updated is set iff it dropped, and val is returned |
| HTwo.HTwoHeuristic.CheckInInitialState | src/search/heuristics/htwo_heuristic.cc:221-236 | true iff the first fact occurs and the second is -1 or occurs too (twice when both facts are equal) |
| HTwo.HTwoHeuristic.GetOperatorPre | src/search/heuristics/htwo_heuristic.cc:239-252 | returns the sorted preconditions, from the cache or computed and cached |
| HTwo.HTwoHeuristic.GetOperatorEff | src/search/heuristics/htwo_heuristic.cc:255-262 | returns the sorted effect facts |
| HTwo.HTwoHeuristic.ContradictEffectOf | src/search/heuristics/htwo_heuristic.cc:265-274 | true iff some effect gives the fact's variable a different value |
| HTwo.HTwoHeuristic.GenerateAllPartialTuples | src/search/heuristics/htwo_heuristic.cc:279-290 | appends exactly the partial tuples of the base tuple to res |
| PiMSpec.FactsUpToMembers | src/search/tasks/pi_m_compiled_task.cc:42-43 | the facts of variables 0..v-1 are exactly the task facts with variable below v |
| PiMSpec.FactsUpToIncreasing | src/search/tasks/pi_m_compiled_task.cc:42-43 | the facts are enumerated in strictly increasing FactPair order |
| PiMSpec.ValuesOfMembers | src/search/tasks/pi_m_compiled_task.cc:43 | the facts of one variable are exactly its values 0..d-1 |
| PiMSpec.RowsUpToSound | src/search/tasks/pi_m_compiled_task.cc:45-65 | every pair numbered has its first fact among the earlier facts and its second fact not below the first |
| PiMSpec.RowsUpToComplete | src/search/tasks/pi_m_compiled_task.cc:45-65 | every pair of facts (f, g) with f <= g is numbered |
| PiMSpec.MetaAtomsDistinct | src/search/tasks/pi_m_compiled_task.cc:37-69 | no meta atom is numbered twice |
| PiMSpec.MetaAtomsAreKeys | src/search/tasks/pi_m_compiled_task.cc:37-69 | atom 0 is the empty atom, and the atoms are exactly the empty atom and the ordered pairs of task facts |
| PiMSpec.TriClosedForm | src/search/tasks/pi_m_compiled_task.cc:45 | the triangular count satisfies 2 Tri(n) = n(n+1) |
| PiMSpec.RowsUpToLength | src/search/tasks/pi_m_compiled_task.cc:42-67 | the rows of the first i facts hold i(2n - i + 1)/2 atoms |
| PiMSpec.PairCountByVariables | src/search/tasks/pi_m_compiled_task.cc:45-65 | the pairs split into same-variable pairs (inner loop at val) and cross-variable pairs (later variables) |
| PiMSpec.MetaAtomsCount | src/search/tasks/pi_m_compiled_task.cc:232-234 | get_num_variables is 1 + n(n+1)/2 for n task facts, also counted variable by variable |
| PiMSpec.IndexMapInverse | src/search/tasks/pi_m_compiled_task.cc:46-47 | the numbering's keys are the listed atoms and each number indexes its atom |
| PiMSpec.IndexMapOfDistinct | src/search/tasks/pi_m_compiled_task.cc:46-47 | on distinct atoms the numbering gives atom k the number k, and has one entry per atom |
| PiMSpec.MetaAtomIndex | src/search/tasks/pi_m_compiled_task.cc:37-69 | meta_atom_map's keys are exactly the meta keys, numbered 0..N-1 in order, with the empty atom at 0 |
| PiMSpec.DistinctVarsCount | src/search/tasks/pi_m_compiled_task.cc:75-78 | goal facts on distinct variables below n number at most n |
| PiMSpec.CompiledStateMeaning | src/search/tasks/pi_m_compiled_task.cc:80-85 | the empty atom is 1; the atom of (a, b) is 1 iff both hold; a pair of two values of one variable is 0 |
| PiMSpec.GoalAtoms | src/search/tasks/pi_m_compiled_task.cc:86-90 | the empty atom is a goal, and the atom of (a, b) is a goal iff both a and b are parent goals |
| PiMSpec.Translate | src/search/tasks/pi_m_compiled_task.cc:135-147 | the result is (-2, -2) or a fact with value 1 |
| PiMSpec.TranslateSymmetric | src/search/tasks/pi_m_compiled_task.cc:137-141 | translate_into_meta_atom ignores the order of its two facts |
| PiMSpec.TranslateMetaAtom | src/search/tasks/pi_m_compiled_task.cc:135-147 | on the task's map it finds an atom iff the ordered pair is a key, always for two task facts, and returns that atom's number with value 1 |
| PiMSpec.TranslateAllAppend | src/search/tasks/pi_m_compiled_task.cc:160-166 | translating and dropping not-found pairs distributes over concatenation |
| PiMSpec.TranslateAllMeaning | src/search/tasks/pi_m_compiled_task.cc:158-183 | every translated fact is a meta atom set to 1, and every pair of task facts contributes its atom |
| PiMSpec.CompiledOpsStep | src/search/tasks/pi_m_compiled_task.cc:96-132 | the operators for the first k+1 parents are those for k followed by parent k's copies |
| PiMSpec.SValuesUpToMembers | src/search/tasks/pi_m_compiled_task.cc:109-113 | the values kept for one variable are exactly those no precondition contradicts |
| PiMSpec.SAtomsUpToMembers | src/search/tasks/pi_m_compiled_task.cc:105-113 | the extra atoms over variables below v are exactly the task facts on non-effect variables that no precondition contradicts |
| PiMSpec.SAtomsMembers | src/search/tasks/pi_m_compiled_task.cc:105-113 | the extra atoms S are exactly the task facts whose variable no effect mentions and that no precondition contradicts |
| PiMSpec.ProductMembers | src/search/tasks/pi_m_compiled_task.cc:160-161 | the nested loops visit exactly the pairs (x, y) with x and y from the two lists |
| PiMSpec.TaskMap | src/search/tasks/pi_m_compiled_task.cc:37-69 | the task's map is non-empty, numbers below its size, has a key for every pair of task facts, and maps the empty atom to 0 |
| PiMSpec.TranslateAllBelow | src/search/tasks/pi_m_compiled_task.cc:162-165 | every kept translation is a meta variable below the bound, with value 1 |
| PiMSpec.TranslateAllContains | src/search/tasks/pi_m_compiled_task.cc:162-165 | a pair found in the map contributes its translation |
| PiMSpec.CopyFactsBelow | src/search/tasks/pi_m_compiled_task.cc:99-129 | both kinds of copy have only meta facts with value 1 below the atom count |
| PiMSpec.OpCopiesShape | src/search/tasks/pi_m_compiled_task.cc:96-132 | one copy for S = {} with (0, 1) as first precondition, then one copy per extra atom in order; each keeps parent id and cost |
| PiMSpec.EmptyCopyMeaning | src/search/tasks/pi_m_compiled_task.cc:99-103 | the S = {} copy requires every precondition pair's atom and adds every effect pair's atom |
| PiMSpec.SCopyMeaning | src/search/tasks/pi_m_compiled_task.cc:114-129 | the S = {s} copy extends the S = {} copy with s itself, s with each precondition, and s with each effect |
| PiMSpec.OpCopiesValid | src/search/tasks/pi_m_compiled_task.cc:96-132 | each copy has parent id o, the parent's cost, and meta facts below the bound |
| PiMSpec.CompiledOpsBelow | src/search/tasks/pi_m_compiled_task.cc:94-133 | there are at least as many compiled operators as parents, each with a valid parent id and its cost |
| PiMSpec.CompiledOpsShape | src/search/tasks/pi_m_compiled_task.cc:94-133 | on the task's map, every compiled operator names a parent, costs what it costs, and has only meta facts |
| PiMSpec.OpCopiesAtoms | src/search/tasks/pi_m_compiled_task.cc:103-129 | each copy's extra atom is NoFact or a task fact |
| PiMSpec.CompiledOpsAtoms | src/search/tasks/pi_m_compiled_task.cc:94-133 | every compiled operator's extra atom is NoFact or a task fact |
| PiMSpec.ProductLength | src/search/tasks/pi_m_compiled_task.cc:160-161 | the nested loops visit as many pairs as the product of the two lists' lengths |
| PiMSpec.TranslateAllFound | src/search/tasks/pi_m_compiled_task.cc:162-165 | when every pair is found, none is dropped |
| PiMSpec.CopySizesOf | src/search/tasks/pi_m_compiled_task.cc:114-129 | the S = {} copy has 1 + p^2 preconditions and e^2 effects; the S = {s} copy has p + 1 and e more |
| PiMSpec.EmptyCopySizes | src/search/tasks/pi_m_compiled_task.cc:99-103 | the S = {} copy has 1 + p^2 preconditions and e^2 effects, for any map holding every fact pair |
| PiMSpec.SCopySizes | src/search/tasks/pi_m_compiled_task.cc:114-129 | the S = {s} copy has 2 + p^2 + p preconditions and e^2 + e effects, for any map holding every fact pair |
| PiMSpec.OpCopiesSizes | src/search/tasks/pi_m_compiled_task.cc:96-132 | every copy of one parent operator has those sizes |
| PiMSpec.CompiledOpsSizes | src/search/tasks/pi_m_compiled_task.cc:94-133 | every compiled operator has those sizes |
| PiMSpec.NamesOfAt | src/search/tasks/pi_m_compiled_task.cc:49-63 | fact_names has one entry per atom, the k-th naming atom k |
| PiMSpec.NatStrRoundTrip | src/search/tasks/pi_m_compiled_task.cc:44 | to_string of a natural number is a non-empty digit string that reads back as the number |
| PiMSpec.NatStrInjective | src/search/tasks/pi_m_compiled_task.cc:44 | to_string is injective on natural numbers |
| PiMSpec.AtomNameInjective | src/search/tasks/pi_m_compiled_task.cc:44-63 | two meta atoms with the same name are the same atom |
| PiMSpec.NameStartsWithDigit | src/search/tasks/pi_m_compiled_task.cc:39-63 | a name continues with a digit after "v_" iff the atom is not the empty atom ("v_∅") |
| PiMSpec.MetaAtomNamesDistinct | src/search/tasks/pi_m_compiled_task.cc:37-69 | different compiled variables have different names |
| PiMSpec.OperatorLabelInjective | src/search/tasks/pi_m_compiled_task.cc:253-260 | two operator names are equal only for the same parent id and the same extra atom |
| PiMSpec.PairName | src/search/tasks/pi_m_compiled_task.cc:44-63 | the name is "v_var=val" when the two facts are equal and "v_var=val,var2=value" otherwise |
| PiMSpec.WellFormedDomains | src/search/tasks/pi_m_compiled_task.cc:43 | every domain of a well-formed task is non-negative |
| PiMSpec.MetaKeysIndexable | src/search/tasks/pi_m_compiled_task.cc:81-82 | every key's facts are -1 or variables of the parent, so indexing the state is safe |
| PiMSpec.InitVisitStep | src/search/tasks/pi_m_compiled_task.cc:81-85 | visiting one atom sets its value to 1 iff both facts hold, and the others are settled as before |
| PiMSpec.GoalVisitStep | src/search/tasks/pi_m_compiled_task.cc:86-90 | visiting one atom appends (i, 1) iff it is a goal atom, keeping the goal list exact on visited atoms |
| PiMSpec.InitAfterVisit | src/search/tasks/pi_m_compiled_task.cc:80-91 | after all atoms are visited, the values are the compiled state |
| PiMSpec.GoalsAfterVisit | src/search/tasks/pi_m_compiled_task.cc:80-91 | after all atoms are visited, the goal list holds exactly the goal atoms, each once |
| PiM.PiMCompiledTask.constructor | src/search/tasks/pi_m_compiled_task.cc:10-19 | after the four setup steps the task is valid: ops stored, atoms numbered and named, states set, operators built |
| PiM.PiMCompiledTask.StoreOldOps | src/search/tasks/pi_m_compiled_task.cc:21-35 | old_pre and old_eff get each parent operator's preconditions and effects, in order |
| PiM.PiMCompiledTask.InitMetaAtomMap | src/search/tasks/pi_m_compiled_task.cc:37-69 | meta_atom_map numbers the meta atoms 0, 1, 2, ... in loop order, and fact_names names each one |
| PiM.PiMCompiledTask.AddRowsOf | src/search/tasks/pi_m_compiled_task.cc:43-67 | one variable's iteration numbers exactly the atoms whose first fact is on that variable |
| PiM.PiMCompiledTask.AddRow | src/search/tasks/pi_m_compiled_task.cc:44-66 | one value's iteration numbers the atoms with that first fact: same variable from val upward, then every later variable |
| PiM.PiMCompiledTask.AddLaterPairs | src/search/tasks/pi_m_compiled_task.cc:55-66 | numbers the atoms pairing (var, val) with every value of every later variable |
| PiM.PiMCompiledTask.AddPairsWith | src/search/tasks/pi_m_compiled_task.cc:56-65 | numbers the atoms pairing (var, val) with every value of one later variable |
| PiM.PiMCompiledTask.AddPairs | src/search/tasks/pi_m_compiled_task.cc:45-53 | numbers the atoms pairing (var, val) with the values lo.. of one variable |
| PiM.PiMCompiledTask.NumberAtom | src/search/tasks/pi_m_compiled_task.cc:46-52 | gives the next atom the next index and appends its pair of names |
| PiM.PiMCompiledTask.SetupInitAndGoalStates | src/search/tasks/pi_m_compiled_task.cc:71-92 | domains all 2, initial values the compiled state, goals exactly the goal atoms with value 1 |
| PiM.PiMCompiledTask.GoalFacts | src/search/tasks/pi_m_compiled_task.cc:75-78 | the set of the parent's goal facts |
| PiM.PiMCompiledTask.VisitMetaAtoms | src/search/tasks/pi_m_compiled_task.cc:80-91 | after the loop over meta_atom_map, every atom's initial value and goal membership is settled |
| PiM.PiMCompiledTask.VisitMetaAtom | src/search/tasks/pi_m_compiled_task.cc:81-90 | one atom: its initial value is 1 iff both facts hold, and it is appended to the goals iff both facts are goals |
| PiM.PiMCompiledTask.SetupNewOps | src/search/tasks/pi_m_compiled_task.cc:94-133 | meta_operators becomes the copies of all parent operators, in order |
| PiM.PiMCompiledTask.AddOperator | src/search/tasks/pi_m_compiled_task.cc:96-132 | one iteration appends exactly operator op_id's copies |
| PiM.PiMCompiledTask.AddCopiesOf | src/search/tasks/pi_m_compiled_task.cc:99-131 | appends the S = {} copy, then one copy per extra atom |
| PiM.PiMCompiledTask.AddSCopiesOf | src/search/tasks/pi_m_compiled_task.cc:105-130 | for one non-effect variable, appends one copy per value no precondition contradicts |
| PiM.PiMCompiledTask.MakeSCopy | src/search/tasks/pi_m_compiled_task.cc:114-129 | builds the S = {s} copy |
| PiM.PiMCompiledTask.ContradictPrecondition | src/search/tasks/pi_m_compiled_task.cc:149-156 | true iff some stored precondition gives s_atom's variable a different value |
| PiM.PiMCompiledTask.GenerateMetaPreconditions | src/search/tasks/pi_m_compiled_task.cc:158-169 | the empty atom's fact, then the found translations of all ordered precondition pairs |
| PiM.PiMCompiledTask.GenerateMetaEffects | src/search/tasks/pi_m_compiled_task.cc:171-183 | the found translations of all ordered effect pairs, and the set of effect variables |
| PiM.PiMCompiledTask.TranslatePairs | src/search/tasks/pi_m_compiled_task.cc:160-166 | appends the found translations of the pairs, dropping (-2, -2) |
| PiM.PiMCompiledTask.ConvertStateValuesFromParent | src/search/tasks/pi_m_compiled_task.cc:306-322 | the new values are the compiled state of the parent values, which is initial_state_values for the parent's initial state |
| PiM.PiMCompiledTask.SetHoldingAtoms | src/search/tasks/pi_m_compiled_task.cc:309-319 | after the loop, every atom whose facts both hold is 1 and every other atom 0 |
| PiM.PiMCompiledTask.NumVariables | src/search/tasks/pi_m_compiled_task.cc:232-234 | the number of meta atoms: 1, plus d(d+1)/2 for each domain size d, plus d_v * d_w for each two variables v < w |
| PiM.PiMCompiledTask.VariableName | src/search/tasks/pi_m_compiled_task.cc:236-238 | the name of the meta atom numbered var |
| PiM.PiMCompiledTask.VariableDomainSize | src/search/tasks/pi_m_compiled_task.cc:240-242 | every compiled variable is binary |
| PiM.PiMCompiledTask.FactName | src/search/tasks/pi_m_compiled_task.cc:249-251 | value 1 gives the atom's name and value 0 gives "not " followed by it |
| PiM.PiMCompiledTask.OperatorCost | src/search/tasks/pi_m_compiled_task.cc:244-247 | the cost of the copy's parent operator, non-negative |
| PiM.PiMCompiledTask.OperatorNameIdentifies | src/search/tasks/pi_m_compiled_task.cc:253-260 | two compiled operators with the same name have the same parent and extra atom |
| PiM.PiMCompiledTask.NumOperators | src/search/tasks/pi_m_compiled_task.cc:262-264 | at least one compiled operator per parent operator |
| PiM.PiMCompiledTask.NumOperatorPreconditions | src/search/tasks/pi_m_compiled_task.cc:266-269 | 1 + p^2 for the S = {} copy and 2 + p^2 + p for an S = {s} copy, p the parent's precondition count |
| PiM.PiMCompiledTask.OperatorPrecondition | src/search/tasks/pi_m_compiled_task.cc:271-274 | a precondition is a compiled variable with value 1 |
| PiM.PiMCompiledTask.NumOperatorEffects | src/search/tasks/pi_m_compiled_task.cc:276-279 | e^2 for the S = {} copy and e^2 + e for an S = {s} copy, e the parent's effect count |
| PiM.PiMCompiledTask.OperatorFactsValid | src/search/tasks/pi_m_compiled_task.cc:94-133 | every compiled operator has the precondition and effect counts above |
| PiM.PiMCompiledTask.OperatorEffect | src/search/tasks/pi_m_compiled_task.cc:281-284 | an effect is a compiled variable with value 1 |
| PiM.PiMCompiledTask.GoalFact | src/search/tasks/pi_m_compiled_task.cc:286-288 | a goal is a compiled variable with value 1 whose atom is made of parent goal facts |
| PiM.PiMCompiledTask.NumGoals | src/search/tasks/pi_m_compiled_task.cc:290-292 | between 1 (the empty atom) and the number of compiled variables |
| PiM.PiMCompiledTask.GoalAtomsCounted | src/search/tasks/pi_m_compiled_task.cc:80-91 | the goal list holds at least the empty atom and at most one entry per atom |
| PiM.PiMCompiledTask.InitialStateValues | src/search/tasks/pi_m_compiled_task.cc:294-296 | the compiled initial state: one value per atom, with the empty atom true |
| PiM.PiMCompiledTask.NumOperatorEffectConditions | src/search/tasks/pi_m_compiled_task.cc:298-302 | compiled effects are unconditional |

## Left out

- Logging, `print_table`, `dump_compiled_task`, plugin registration, the
  `build_pi_m_compiled_task` factory and `dead_ends_are_reliable`: output or
  wiring, with no effect on the values computed.
- `dual_htwo_heuristic.h` and the scripts under `experiments/` are outside
  the modelled core.
- The header's queue-based members (`op_queue`, `is_op_in_queue`,
  `effect_conflict_cache`, `op_cost`): declared but not used by the `.cc`.
- `pi_m_compiled_task.h` is not part of this model. The `MetaOperator`
  fields (parent id, extra atom, preconditions, effects, cost) are taken
  from their use in the `.cc`.
- The task interface (`task_properties::get_fact_pairs`, `is_goal_state`,
  `convert_ancestor_state`, the parent's getters) is not part of this model.
  The parent task is an input value (`Facts.Task`), and a state is its list
  of values.
- `Facts.WellFormed` requires the parent's goal facts in increasing variable
  order. `eval(goals)` looks every partial goal tuple up with `.at`, and that
  only succeeds when each pair has its lower variable first.
- Facts.WellFormedOperator: effect conditions are not modelled, and each
  operator's effects must be on distinct variables. The `Operator` record has
  no conditions because the h^2 heuristic ignores conditional effects
  (`htwo_heuristic.cc:314`) and the compiled task reports none
  (`get_num_operator_effect_conditions` returns 0). A task with two
  conditional effects of one operator on the same variable is therefore
  outside the model. On such a task `get_operator_eff` yields a partial
  effect made of two facts on one variable. That pair is not a key of
  `hm_table`, so `update_hm_entry` inserts it through `operator[]` with
  value 0. No lookup of `eval` or `hm_table_evaluation` reads it, and
  `extend_tuple` skips it, because its other fact contradicts the
  operator's own effect. `generate_meta_effects` adds the meta atom of the
  two facts, a mutex pair, as an effect of the compiled operator.
- HTwo.HTwoHeuristic.ApplyPartialEffect: `c1 + cost` is an unbounded
  integer in the model, but a 32-bit `int` in the source. When c1 is close
  to INT_MAX, the source's sum may overflow (undefined behaviour; it usually
  wraps to a negative value and would then lower the entry). In the model
  the sum is at least c1 and cannot lower an entry below c1.
- HTwo.HTwoHeuristic.ExtendWith: the same for `c2 + cost`.
- HTwo.HTwoHeuristic.ExtendTuple: `std::unordered_map` iteration order is
  unspecified. The model visits the keys in an arbitrary order (a choice
  `:|`), so the contract holds for every order.
- PiM.PiMCompiledTask.VisitMetaAtoms: `meta_atom_map` is declared in
  `pi_m_compiled_task.h`, which is not part of this model, so its container
  type and iteration order are unknown. The model visits the atoms of
  `setup_init_and_goal_states` in an arbitrary order (a choice `:|`), so the
  contract holds for every order. It does not pin down the order of the goal
  list, which follows the visit; a `std::map` would fix it to key order.
- HTwoPair.ComputeHash: `f.var * MOD + f.value` is computed in `int` before
  the conversion to `size_t`. The model computes it on unbounded integers
  and wraps it modulo 2^64, so a 32-bit overflow of that intermediate (a
  variable id above about 21474) is not modelled.
- HTwoPair.FactPairHash: the same `int` intermediate. The lemma
  FactPairHashInjectiveInInt covers the facts on which it does not overflow.
- PiMSpec.Lookup: `operator[]` on an absent key of `meta_atom_map` inserts
  it with value 0 (both for `std::map` and for `std::unordered_map`). The
  model returns 0 without inserting. On a task's own map every key looked
  up is present (PiMSpec.TaskMap), so the insertion never happens there.
- PiM.PiMCompiledTask.ConvertStateValuesFromParent: the in-place update of
  the `values` argument is modelled as returning the new vector.
- PiM.PiMCompiledTask.AddRow: `var_name` is rebuilt from the two integers
  for each atom rather than once per value. The names are the same.
- PiM.PiMCompiledTask.OperatorName: the label is a function of the copy's
  parent id and extra atom. Its property, that names identify operators, is
  the lemma OperatorNameIdentifies.
- `m`: stored by the constructor but, as in the `.cc`, the table only holds
  tuples of size at most 2.
