# Z3 ackermannization and API core: a Dafny model

The model covers five parts of the repository.

- **Ackermannization** (`Sources/CZ3/ackermannization`): applications of uninterpreted
  functions, and selects on array constants, are replaced by fresh constants, and
  congruence lemmas keep the constants consistent. `Terms` gives expressions and their
  meaning over an arbitrary universe, `TermUniverse` one such universe; `AckrHelper`,
  `Abstraction` and `Lackr` are the classes and loops of the code; `Congruence`,
  `Pairing`, `Encoding` and `LemmaBound` say what the lemmas mean and how many there
  are, `Distinctness` what the theories know about two terms, `OverLimit` is an input
  with more lemmas than the limit allows, and `Removal` says what is replaced and what
  the abstraction no longer contains; `Equisat`, `ModelTables`, `BackTranslate`,
  `Completion`, `ModelConverter` and `Conversion` take models in both directions;
  `PartialModels`, `Queries`, `ModelConstructor` and `Solving` are about the eager and
  the lazy strategy. `Powers` is shared with the bit-vector modules.
- **Function substitution** (`SubstituteFuns`): `Z3_substitute_funs` with its stack and cache.
- **Reference counting** (`AstManager`, `ContextMachine`, `Context`, `AstMap`): hash-consed
  nodes with counts, the context with object ids, deferred decrements and the result
  trail, and maps from nodes to nodes. `ContextMachine` is the state machine in which
  steps of several threads alternate; a step is a piece of code that runs under a lock
  or is atomic. The class `Context` has the fields of the code, and its methods are
  proved to take the steps of the machine.
- **Bit-vectors** (`BvTerms`, `BvBuilders`, `BitVectors`): the composite builders as
  methods that take and give back references, the terms they build, and what these terms
  mean in the theory of fixed-size bit-vectors of SMT-LIB 2.
- **Log** (`ApiLog`): how strings and symbols are written, and how the replayer reads them.

## Reading guide

The main results are `BackTranslate.Equisatisfiable`, `Lackr.Lackr.MkAckermann`,
`Lackr.Lackr.Lazy` with `Solving.CorrectDecides`, `Conversion.ConversionSound`,
`SubstituteFuns.SubstMeaning`, `ContextMachine.RunsAreSafe`,
`ContextMachine.DestroyedOnce`, `AstMap.AstMapRef.Lifetime`, the `...Exact` lemmas of
`BitVectors`, and `ApiLog.LineRoundTrip`.

What is taken for granted stands in the contracts: `Terms.StructureOk` (the interpreted
symbols respect sorts, the connectives mean what they say, different values of a sort
are different, arrays obey read-over-write), `Congruence.TheoryOk` (the simplifier keeps
the meaning of formulas, and the tests for equal and distinct terms are right about
terms of one sort), `PartialModels.SolverOk` (the solver is right about formulas, and
every completion of a model it returns satisfies the assertions), and
`Completion.EvaluatorOk` (what the model evaluator registers settles the value of the
term it was asked for). A sort has the values that `Terms.IsValueOf` says: two truth
values, 2^n bit-vectors of width n, the members of an enumeration.
`TermUniverse.AssumptionsHold` gives a structure that meets all of `StructureOk` and has
no other elements in these sorts, `Completion.SomeEvaluator` an evaluator over any
structure, and `Solving.AssumptionsMet` the test of the bit-vector theory, a simplifier
and a solver besides, one that answers every query that has an answer of this kind
(`PartialModels.Complete`). With such a solver both strategies decide every input
without quantifiers and lifted symbols, and so agree (`Solving.CorrectDecides`);
`Queries.QueryAnswerable` says why all they ask can be answered.

Where the code and its comments disagree, the model follows the code:

- `ackr_helper.h:106` speaks of a guard against overflow; the code tests one bit, and
  `LemmaBound.ChkBoundsIff` says for which sizes the result is a bound.
- the comment at `api_bv.cpp:294` says `0 <s -t2`; the code compares `0` with `t2`.

The converter evaluates keys in the source model itself, with completion: a constant that
the source leaves open is appended, at the default of its sort, to the list over which the
loop runs (`model_evaluator.cpp:231-236`, `ackr_model_converter.cpp:106`).
`ModelConverter.ConvertConstants` has this loop. That the result is a model of the input
rests on a completion that need not be the default one: a constant that no evaluated key
mentions is never listed, and `Conversion.ConversionSound` gives it the value that its term
gets in the result.

Three properties hold only under a condition:

- the bound on the number of lemmas is one iff a group makes it infinite or no product
  wraps around (`LemmaBound.CalculateLemmaBound`, `OverLimit.EncodeOverLimit`);
- `Z3_substitute_funs` replaces symbols where they are applied, not inside `as-array` and
  `map` (`SubstituteFuns.SubstMeaning`, `SubstituteFuns.LiftedMeaningLost`);
- an AST map gives back all it took iff no entry with a null value is overwritten
  (`AstMap.AstMapRef.Lifetime`, `AstMap.NullOverwriteLeaks`).

In a few places a predicate is put under a quantifier (`BvBuilders.Ready`,
`Lackr.Lackr.Going`, `Pairing.Grown`); this only keeps its definition folded while it is passed on.

## Model

| member | source | states |
|---|---|---|
| Worklist.PushUnmarked | Sources/CZ3/ast/for_each_expr.h:107-117 | pushes exactly the unmarked arguments, in order, and reports true iff there was none |
| AckrHelper.MarkNonSelect | Sources/CZ3/ackermannization/ackr_helper.h:55-69 | marks every argument that is not the array of a select, and nothing else |
| AckrHelper.Insert | Sources/CZ3/ackermannization/ackr_helper.h:112-143 | puts a term into the one group it belongs to, on the side that says whether its arguments are all values, and leaves all other groups alone |
| AckrHelper.Prune | Sources/CZ3/ackermannization/ackr_helper.h:71-94 | keeps exactly the unmarked groups |
| Lackr.Lackr.CollectTerms | Sources/CZ3/ackermannization/lackr.cpp:273-315 | terminates on every DAG; false iff a quantifier is reachable, otherwise every reachable application and candidate select is in exactly the group of its symbol or array, and what was pruned is what is used otherwise |
| Equisat.ConsumedOnlyInSelects | Sources/CZ3/ackermannization/ackr_helper.h:51-82 | an array constant that survives pruning occurs only as the first argument of a collected select |
| Abstraction.AckrInfo.SetAbstr | Sources/CZ3/ackermannization/ackr_info.h:51-59 | both tables stay inverse to each other and injective |
| Abstraction.AckrInfo.FindTerm | Sources/CZ3/ackermannization/ackr_info.h:68-72 | finds a term exactly for the constants that stand for one |
| Removal.FunSides | Sources/CZ3/ackermannization/ackr_helper.h:112-143 | an application whose arguments are all values without arguments is on the constant side of its group, one with an argument that is no value on the other |
| Removal.SelSides | Sources/CZ3/ackermannization/ackr_helper.h:112-143 | the same for selects, the array aside |
| Lackr.Lackr.Init | Sources/CZ3/ackermannization/lackr.cpp:89-98 | a call after a successful one changes nothing, and one after a failure fails again; the first one succeeds iff there is no quantifier, and then every collected term has a fresh constant of its own that occurs nowhere in the input |
| Lackr.Lackr.Abstract | Sources/CZ3/ackermannization/lackr.cpp:176-215 | nested applications included: the abstracted formulas are the input with outermost collected terms replaced |
| Removal.ApplicationsLeft | Sources/CZ3/ackermannization/ackr_helper.h:42-94 | the abstraction contains an application of a free symbol only if an as-array or a map of the input lifts the symbol |
| Removal.SelectsLeft | Sources/CZ3/ackermannization/ackr_helper.h:51-82 | the abstraction contains a select on an uninterpreted constant only if the constant is a fresh one or the input also uses it other than as the array of a select |
| Removal.OnlyReplaced | Sources/CZ3/ackermannization/lackr.cpp:273-315 | and only these are replaced: applications of free symbols that the input lifts nowhere, and selects on uninterpreted constants that it uses only as arrays of selects |
| Lackr.Lackr.Ackr | Sources/CZ3/ackermannization/lackr.cpp:105-141 | the equations of the arguments that the theories do not know to be equal, from the first to the last; nothing is emitted if two arguments that are not known to be equal are known to be distinct, and never the constant true |
| Congruence.DiffsMember | Sources/CZ3/ackermannization/lackr.cpp:110-119 | the equations are exactly those between different arguments at one position that are not known to be equal |
| Congruence.EmittedMeaning | Sources/CZ3/ackermannization/lackr.cpp:105-141 | in every model, what is emitted for a pair holds iff equal argument values force equal values of the two constants, even when nothing is emitted, for any tests of the theories that are right about abstracted terms of one sort |
| Distinctness.DefaultTheoryOk | Sources/CZ3/ast/ast.h:1089-1091 | the default test, different values, is such a test over every structure in which different values of a sort are different |
| Distinctness.BvTheoryOk | Sources/CZ3/ast/bv_decl_plugin.cpp:669-704 | so is the test of bit-vectors, x + k1 and x + k2 with different numerals, also over sorts of 2^n elements and when x is replaced by a constant |
| Distinctness.OffsetsApart | Sources/CZ3/ast/bv_decl_plugin.cpp:669-704 | it tells apart all sums of one term with different numerals, a term from its sum with a numeral other than zero, and different numerals |
| Congruence.ConstPairNeverEqual | Sources/CZ3/ackermannization/lackr.cpp:158-174 | two different applications of one class over values differ in an argument, so skipping such pairs loses nothing |
| Congruence.LemmasAreCongruence | Sources/CZ3/ackermannization/lackr.cpp:146-174 | the emitted lemmas hold in a model iff the constants behave like functions on all pairs of every class, the untried ones included |
| Pairing.RowsOnce | Sources/CZ3/ackermannization/lackr.cpp:158-174 | the two loops over a group produce no unordered pair twice, whatever the iteration order |
| Lackr.Lackr.AckrSet | Sources/CZ3/ackermannization/lackr.cpp:158-174 | tries each unordered pair with a non-constant member, once, for any iteration order of the two sets |
| Lackr.Lackr.EagerEnc | Sources/CZ3/ackermannization/lackr.cpp:146-156 | all classes are tried; the number of pairs tried is the sum over the groups of n(n-1)/2 + n*c |
| LemmaBound.ChkBoundsIff | Sources/CZ3/ackermannization/ackr_helper.h:103-110 | the guard tests one bit: the result bounds the number of pairs iff the size is below 2^17 or has that bit set |
| LemmaBound.CalculateLemmaBound | Sources/CZ3/ackermannization/ackr_helper.cpp:19-30 | the sum in machine arithmetic; it is at least the number of pairs iff some group makes it infinite or no product in any group wraps around |
| LemmaBound.SmallIsExact | Sources/CZ3/ackermannization/ackr_helper.cpp:19-30 | with fewer than 2^16 applications with a non-value argument in each group, and products that fit a word, the sum is the number of pairs and not infinite |
| LemmaBound.GroupAdds | Sources/CZ3/ackermannization/ackr_helper.cpp:19-30 | what each group adds: infinity if bit 16 of its size is set, otherwise n(n-1)/2 and c*n, each modulo 2^32 |
| LemmaBound.HugeIsInfinite | Sources/CZ3/ackermannization/ackr_helper.h:106-110 | a group of 2^16 to 2^17 - 1 such applications makes the sum infinite |
| LemmaBound.LimitsRespectedIff | Sources/CZ3/ackermannization/ackr_helper.cpp:19-30 | every limit that the computed sum respects is respected by the number of pairs, under exactly that condition |
| LemmaBound.LimitExceeded | Sources/CZ3/ackermannization/ackr_helper.h:103-110 | a group of 2^17 applications with a non-value argument each has about 2^33 pairs, of which 2^32 - 2^16 are counted |
| OverLimit.EncodeOverLimit | Sources/CZ3/ackermannization/lackr.cpp:72-87 | on the formulas f(x) = f(x), f(xx) = f(xx), ... for 2^17 constants the encoding succeeds under a limit of 2^32 although its groups have more than 8.589 * 10^9 pairs |
| Lackr.Lackr.WithinLimit | Sources/CZ3/ackermannization/lackr.cpp:77-80 | the test passes iff the sum in machine arithmetic does not exceed the limit |
| Lackr.Lackr.MkAckermann | Sources/CZ3/ackermannization/lackr.cpp:72-87 | succeeds iff the limit is positive, there is no quantifier and the bound test passes, so for small groups with no more pairs than the limit; then the goal is the abstraction plus a covering set of congruence lemmas, at most one a pair on top of earlier ones, and the number of pairs is within the limit whenever the computed sum is a bound |
| Equisat.SubtermsAgree | Sources/CZ3/ackermannization/ackr_info.h:61-66 | if every step agrees then each reachable subterm evaluates like its abstraction, though the replacer looks at outermost keys first |
| Equisat.ExpandIsModel | Sources/CZ3/ackermannization/lackr.h:54-60 | a model of the input, with each fresh constant set to the value of its term, satisfies the abstraction and is congruent |
| BackTranslate.Equisatisfiable | Sources/CZ3/ackermannization/lackr.h:54-60 | the input has a model iff the abstraction with the emitted lemmas has one, for every well-sorted quantifier-free input with functions and arrays |
| ModelTables.FunTablesExact | Sources/CZ3/ackermannization/ackr_model_converter.cpp:160-193 | first-entry-wins tables hold a value for a key iff some listed constant gives it, in any order |
| ModelTables.FirstEntryWins | Sources/CZ3/ackermannization/ackr_model_converter.cpp:160-193 | in any source, also one where equal keys have different values, the first listed constant with a key decides |
| ModelTables.DefaultsNotStored | Sources/CZ3/ackermannization/ackr_model_converter.cpp:141-146 | no store of a built array holds its default |
| ModelTables.ArrTablesHold | Sources/CZ3/ackermannization/ackr_model_converter.cpp:130-158 | the constant array plus stores returns every given value, although the first is never stored and values equal to the default are skipped |
| ModelTables.DenoteArrLookup | Sources/CZ3/ackermannization/ackr_model_converter.cpp:130-158 | reading the array term in the theory of arrays is looking up the last matching store |
| ModelTables.ArrTablesDefault | Sources/CZ3/ackermannization/ackr_model_converter.cpp:130-158 | the default of an array is the value of the first listed constant with a select on it, and there is a table iff there is such a constant |
| BackTranslate.SelectRealizedIff | Sources/CZ3/ackermannization/ackr_model_converter.cpp:98-158 | for every source and order: a collected select comes out right iff a listed select of its array has the same index (its own, for one), or its value is the default of the array, or no select of the array is listed and the source's own array has the value |
| BackTranslate.FunRealizedIff | Sources/CZ3/ackermannization/ackr_model_converter.cpp:160-193 | for every source and order: a collected application comes out right iff a listed application of its symbol has the same key, or its value is the else-value of the table, or there is no table and the source's own function has the value |
| Equisat.BackTranslation | Sources/CZ3/ackermannization/ackr_model_converter.cpp:92-158 | all subterms but the consumed arrays agree with their abstractions iff every collected term gets the value of its constant |
| ModelConverter.AddFunEntry | Sources/CZ3/ackermannization/ackr_model_converter.cpp:160-193 | adds the evaluated arguments unless the key is there already |
| ModelConverter.AddArrEntry | Sources/CZ3/ackermannization/ackr_model_converter.cpp:130-158 | the three cases: first entry, equal to the default, new store |
| Completion.SomeEvaluator | Sources/CZ3/model/model_evaluator.cpp:220-236 | over every structure there is an evaluator of the kind that is assumed: it registers only missing symbols of the term, at the defaults of their sorts, and then the term has the returned value in every completion of the model |
| ModelConverter.ModelEvaluator.Evaluate | Sources/CZ3/model/model_evaluator.cpp:220-236 | completed constants are appended to the model that is evaluated, in this order, and functions get constant defaults; what was there stays |
| ModelConverter.ConvertConstants | Sources/CZ3/ackermannization/ackr_model_converter.cpp:98-128 | terminates though evaluating keys appends to the list that the loop runs over; the tables are those of the list in the end, every key that was evaluated has its value in all completions of the source in the end, and all other constants are copied |
| ModelConverter.Convert | Sources/CZ3/ackermannization/ackr_model_converter.cpp:92-128 | the whole destination model as a function of the source model in the end, with its constants in the order of their registration, and of the functions that the source had at first |
| ModelConverter.ConvertedModelIs | Sources/CZ3/ackermannization/ackr_model_converter.cpp:92-128 | the converted model symbol by symbol: tables closed with the default of the range, other functions and constants as in the source, no constant that stands for a term, arrays by their stores |
| Conversion.ConversionSound | Sources/CZ3/ackermannization/ackr_model_converter.cpp:92-158 | from every implicant of abstraction and lemmas, with any constants left open and in any order of registration, the result satisfies the input, and in one completion of the source every reachable subterm but the consumed arrays has its value in the result |
| Conversion.Apply | Sources/CZ3/ackermannization/ackr_model_converter.cpp:45-57 | so it is for the loop with the growing source: a fresh well-sorted model of the input that agrees term by term with a completion of the source |
| ModelConverter.ConverterIff | Sources/CZ3/ackermannization/ackr_model_converter.cpp:98-158 | for the list of constants visited in the end: every reachable subterm agrees with the default completion of the source iff every collected term is given its value as above; when a constant that no evaluated key mentions breaks this, the completion of ConversionSound is another one |
| ModelConstructor.ModelConstructor.MakeValueUninterpreted | Sources/CZ3/ackermannization/lackr_model_constructor.cpp:266-307 | memoises the value of the constant, tables it under the argument values, and records a conflict iff the table has another value there |
| ModelConstructor.ModelConstructor.Evaluate | Sources/CZ3/ackermannization/lackr_model_constructor.cpp:188-230 | the memoised value is the abstract model's value of the abstracted term; fails at a conflict, at a select, and after a failure below |
| ModelConstructor.ModelConstructor.CheckStack | Sources/CZ3/ackermannization/lackr_model_constructor.cpp:142-176 | terminates; keeps that every memo entry, table entry and conflict is exact, and stops at the first failure |
| ModelConstructor.ModelConstructor.Check | Sources/CZ3/ackermannization/lackr_model_constructor.cpp:48-57 | true iff no conflict was recorded and no select was met (never if a constant stands for a select), and then every term of a constant of the abstract model has been visited; every conflict is a pair with equal argument values and different values; also after a failure the term of every constant is visited unless some visited term below it has no value, and a visited application that has no value although its arguments have one stands first in a recorded conflict |
| ModelConstructor.ModelConstructor.FlatConflictFound | Sources/CZ3/ackermannization/lackr_model_constructor.cpp:48-57 | of two listed applications of constants and values that disagree, one stands first in a recorded conflict |
| ModelConstructor.ModelConstructor.MakeModel | Sources/CZ3/ackermannization/lackr_model_constructor.cpp:60-103 | registers copied functions, memoised constants and the tables grouped by symbol |
| ModelConstructor.ModelConstructor.BuiltModelIs | Sources/CZ3/ackermannization/lackr_model_constructor.cpp:60-103 | the built model symbol by symbol: memoised constants, the table entries with the default of the range, other functions as in the abstract model |
| ModelConstructor.ModelConstructor.BuiltAgrees | Sources/CZ3/ackermannization/lackr_model_constructor.cpp:60-103 | after a successful check every visited term has its memoised value in the built model |
| ModelConstructor.ModelConstructor.CheckedIsModel | Sources/CZ3/ackermannization/lackr_model_constructor.cpp:356-368 | after a successful check of an implicant of the abstraction, the built model satisfies the input |
| Solving.LemmasKeepSatisfiable | Sources/CZ3/ackermannization/lackr.cpp:243-268 | any set of congruence lemmas keeps a satisfiable input satisfiable, so unsat is right in every round |
| Solving.ConflictIsNew | Sources/CZ3/ackermannization/lackr.cpp:243-268 | the lemma of a conflict is false in the current model and so was not asserted before |
| Solving.ConflictIsOpen | Sources/CZ3/ackermannization/lackr.cpp:243-268 | a pair in conflict has neither of its two lemmas asserted |
| Solving.RoundProgress | Sources/CZ3/ackermannization/lackr.cpp:243-268 | a failed check strictly reduces the number of pairs, among those the full encoding considers, that have no lemma yet |
| Lackr.Lackr.Refine | Sources/CZ3/ackermannization/lackr.cpp:260-266 | adds the lemmas of all conflicts, in order |
| Lackr.Lackr.Lazy | Sources/CZ3/ackermannization/lackr.cpp:243-268 | terminates after at most one round for each pair that the full encoding considers and one more; the first query is the abstraction, each later one adds the lemmas of all conflicts found in the model before and nothing else, and the last answer is the result; a definite one is right, and all queries about a first-order input are answerable |
| Solving.CheckAtSelect | Sources/CZ3/ackermannization/lackr_model_constructor.cpp:142-224 | if a model of the abstraction lists the constant of a select and no two applications disagree, the check fails and records no conflict |
| Lackr.Lackr.StuckRound | Sources/CZ3/ackermannization/lackr.cpp:247-267 | then no lemma is added, and the next round asks the same query |
| Lackr.Lackr.Eager | Sources/CZ3/ackermannization/lackr.cpp:227-241 | asks the abstraction alone, and unless it is unsatisfiable the abstraction with one simplified conjunction of a covering set of lemmas, whose answer is the result; the same about the answer |
| Queries.QueryAnswerable | Sources/CZ3/ackermannization/lackr.cpp:227-268 | with any of its simplified lemmas, the abstraction of an input without quantifiers and lifted symbols is unsatisfiable or has a finite model all of whose completions satisfy it |
| PartialModels.FirstOrderAnswerable | Sources/CZ3/ackermannization/lackr.cpp:243-268 | the same for any such formulas: the finite model has the values at the points where the formulas ask for them |
| Solving.CorrectDecides | Sources/CZ3/ackermannization/lackr.h:54-60 | with a solver that knows the answer to every answerable query, either strategy answers satisfiable or unsatisfiable, rightly, on every such input, so both agree |
| TermUniverse.AssumptionsHold | Sources/CZ3/ast/ast.cpp:880-886 | all that is assumed of structures, the laws of bit-vector addition included, holds in one with exactly two truth values and with the numerals that fit as the only elements of bit-vector sorts |
| Solving.AssumptionsMet | Sources/CZ3/ackermannization/lackr.h:54-60 | over that structure the test of the bit-vector theory, a simplifier and such a solver meet all assumptions at once |
| Lackr.Lackr.Solve | Sources/CZ3/ackermannization/lackr.cpp:60-70 | a run of the strategy that was chosen, undefined on quantified input |
| SubstituteFuns.ReadPairs | Sources/CZ3/api/api_ast.cpp:925-931 | a sort error iff some body has the wrong sort; otherwise the table has exactly the given symbols, each with the body of its last pair |
| SubstituteFuns.SubstituteFuns | Sources/CZ3/api/api_ast.cpp:906-989 | the stack and cache loop terminates and equals the recursive simultaneous replacement by that table |
| SubstituteFuns.SubstSorted | Sources/CZ3/api/api_ast.cpp:933-985 | the result is well-sorted and keeps the sort, for bodies with and without quantifiers |
| SubstituteFuns.ShiftMeaning | Sources/CZ3/ast/rewriter/expr_safe_replace.cpp:144-163 | raising free variables past new binders leaves the meaning alone |
| SubstituteFuns.InstMeaning | Sources/CZ3/ast/rewriter/var_subst.cpp:27-53 | instantiating a body, also below its quantifiers, is evaluating it with the argument values as its first variables |
| SubstituteFuns.SubstMeaning | Sources/CZ3/api/api_ast.cpp:933-985 | for every well-sorted input and all bodies of the right sort: evaluating the result is evaluating the input with each replaced symbol interpreted by its body where it is applied, while declarations that lift it keep their meaning; also below quantifiers and when bodies mention replaced symbols or variables in scope |
| SubstituteFuns.SubstDefines | Sources/CZ3/api/api_ast.cpp:933-985 | for free symbols that are not lifted and closed bodies this is evaluation in the model that gives the symbols the meaning of their bodies |
| SubstituteFuns.LiftedKept | Sources/CZ3/api/api_ast.cpp:952-966 | an as-array or map over a replaced symbol means the old symbol lifted, applied to the new arguments |
| SubstituteFuns.LiftedMeaningLost | Sources/CZ3/api/api_ast.cpp:952-966 | select(as-array(f), i) = f(i) holds before the replacement and with f redefined everywhere, but not after it, in a structure that meets all assumptions |
| AstManager.Manager.MkApp | Sources/CZ3/ast/ast.cpp:1687-1757 | an existing node is shared and nothing is counted; a new one has count zero and counts its arguments once for each occurrence |
| AstManager.Manager.IncRef | Sources/CZ3/ast/ast.h:1645-1648 | all counts stay exact |
| AstManager.Manager.DecRef | Sources/CZ3/ast/ast.h:1650-1656 | one less, or the node is gone; the cascade of deletions terminates and all counts are again references from outside plus occurrences in live nodes |
| AstManager.Manager.DeleteNodes | Sources/CZ3/ast/ast.cpp:1805-1860 | the worklist of deleted nodes pays every decrement they owe |
| AstManager.LiveIffReferenced | Sources/CZ3/ast/ast.h:2389-2401 | with no unreferenced new node around, a node is in the table iff it is part of a node referenced from outside |
| ContextMachine.RunsAreSafe | Sources/CZ3/api/api_context.cpp:43-108 | in every state of every interleaving: each counted reference has an owner, a known object is not freed and its count is the number of its owners, nothing is freed twice, ids in use and free ids are disjoint, duplicate-free and an interval, and the next id is unused |
| ContextMachine.StepKeepsInv | Sources/CZ3/api/api_context.cpp:54-108 | every step of every thread keeps the conservation laws |
| ContextMachine.OtherThreads | Sources/CZ3/api/api_context.cpp:54-80 | with concurrent drops the steps of other threads change no count in the manager, no table, no free id and free nothing: they append to the queues |
| ContextMachine.OneThread | Sources/CZ3/api/api_context.cpp:54-80 | without them the same steps take effect at once and queue nothing |
| ContextMachine.LastDropDeletes | Sources/CZ3/api/api_context.cpp:41-69 | whoever gives up the last reference requests the deletion: queued with concurrent drops, otherwise freed |
| ContextMachine.IdsAreRecycled | Sources/CZ3/api/api_context.cpp:43-52 | a new object takes the id freed last, or else the number of allocated objects |
| ContextMachine.TrailKeeps | Sources/CZ3/api/api_context.cpp:273-286 | the trail after a result is saved: it alone if the user manages references, else all results so far |
| ContextMachine.IncCounts | Sources/CZ3/api/api_context.cpp:430-437 | taking a reference adds one owner and one count |
| ContextMachine.NewIdUnused | Sources/CZ3/api/api_context.cpp:43-52 | add_object never hands out an id in use, also while objects wait in the flush queue |
| ContextMachine.OwnedNodesLive | Sources/CZ3/api/api_context.cpp:71-80 | a node held by a client, a queue or the trail is in the manager's table with everything below it |
| ContextMachine.FlushReached | Sources/CZ3/api/api_context.cpp:87-108 | flush_objects is a part of a run |
| ContextMachine.FlushEffect | Sources/CZ3/api/api_context.cpp:87-108 | both queues are emptied, exactly the queued references are released and exactly the queued objects are freed, once each |
| ContextMachine.FlushFrees | Sources/CZ3/api/api_context.cpp:98-108 | a flush returns the ids of the queued objects in the order of the queue and takes exactly them out of the table |
| ContextMachine.DestroyedOnce | Sources/CZ3/api/api_context.cpp:159-175 | after the destructor every object ever created has been deallocated exactly once |
| ContextMachine.NothingLeft | Sources/CZ3/api/api_context.cpp:159-175 | if clients have dropped all references, the destructor's final sweep finds nothing |
| Context.Context.EnableConcurrentDecRef | Sources/CZ3/api/api_context.h:185-191 | from now on dropped references wait for a flush; nothing else changes |
| Context.Context.FlushObjects | Sources/CZ3/api/api_context.cpp:87-108 | the new state is that of the flush step, for nodes, tables, ids and queues |
| Context.Context.MkObject | Sources/CZ3/api/api_context.cpp:37-52 | flushes, then registers the new object under a fresh id |
| Context.Context.DelObject | Sources/CZ3/api/api_context.cpp:54-69 | null is ignored; queued in concurrent mode, otherwise freed with its id recycled |
| Context.Context.DecRef | Sources/CZ3/api/api_context.cpp:71-80 | in concurrent mode the manager is untouched and the node is appended to the queue; otherwise released at once |
| Context.Context.DecRefObj | Sources/CZ3/api/api_context.cpp:41-41 | at zero the deletion is requested |
| Context.Context.IncObj | Sources/CZ3/api/api_context.cpp:39-39 | one more owner of a known object |
| Context.Context.DecObj | Sources/CZ3/api/api_context.cpp:41-41 | one owner less |
| Context.Context.SaveAstTrail | Sources/CZ3/api/api_context.cpp:273-286 | the result is counted before the trail is released, so a node that is alone in the trail survives |
| Context.Context.SaveObject | Sources/CZ3/api/api_context.cpp:298-300 | the new last object is counted before the old one is released |
| Context.Context.Z3IncRef | Sources/CZ3/api/api_context.cpp:430-437 | flushes first |
| Context.Context.Z3DecRef | Sources/CZ3/api/api_context.cpp:439-452 | null is ignored, a count of zero is an error that changes nothing |
| Context.Context.Destroy | Sources/CZ3/api/api_context.cpp:159-175 | every object has been deallocated exactly once |
| AstMap.AstMapRef.Insert | Sources/CZ3/api/api_ast_map.cpp:83-102 | the map is updated as a mathematical map and no reference of others changes; a key that is missing or has a null value is counted with its value, otherwise the new value is counted and the old one released |
| AstMap.AstMapRef.Contains | Sources/CZ3/api/api_ast_map.cpp:59-65 | true iff the key is present; nothing changes |
| AstMap.AstMapRef.Find | Sources/CZ3/api/api_ast_map.cpp:67-81 | an error iff the key is missing |
| AstMap.AstMapRef.Erase | Sources/CZ3/api/api_ast_map.cpp:113-125 | key and value are given back; a missing key changes nothing |
| AstMap.AstMapRef.Reset | Sources/CZ3/api/api_ast_map.cpp:104-111 | everything is given back |
| AstMap.AstMapRef.Destroy | Sources/CZ3/api/api_ast_map.cpp:26-28 | everything is given back |
| AstMap.ReplaceOwns | Sources/CZ3/api/api_ast_map.cpp:95-100 | after overwriting, also with the same value, the map owns each node once as key and once for each entry with that value |
| AstMap.AstMapRef.Run | Sources/CZ3/api/api_ast_map.cpp:83-125 | over any sequence of operations: the entries are those of a mathematical map, what is leaked is one reference to the key for each overwritten null value, no reference of others changes; from an empty map it owns exactly what it holds iff no null value was overwritten |
| AstMap.AstMapRef.Lifetime | Sources/CZ3/api/api_ast_map.cpp:26-125 | a map that is created, used and destroyed leaves the manager as it was iff no null value was overwritten |
| AstMap.OwnsHeldIff | Sources/CZ3/api/api_ast_map.cpp:83-125 | owned references equal the occurrences in entries iff no null value was ever overwritten |
| AstMap.NullOverwriteLeaks | Sources/CZ3/api/api_ast_map.cpp:83-102 | inserting a null value and then another value for a key leaks one reference to the key |
| BvBuilders.MkBvMsb | Sources/CZ3/api/api_bv.cpp:159-177 | the term shl(1, n-1), or an error and no change for a sort without bits; references balanced |
| BvBuilders.MkBvAddNoOverflowSigned | Sources/CZ3/api/api_bv.cpp:183-205 | builds the predicate; all intermediate references are given back, the operands are alive throughout, the result is kept by the trail |
| BvBuilders.MkBvAddNoOverflowUnsigned | Sources/CZ3/api/api_bv.cpp:206-222 | the same |
| BvBuilders.MkBvAddNoUnderflow | Sources/CZ3/api/api_bv.cpp:227-255 | the same |
| BvBuilders.MkBvSubNoOverflow | Sources/CZ3/api/api_bv.cpp:258-288 | the same, although the result is saved once more while it is alone in the trail |
| BvBuilders.MkBvSubNoUnderflowSigned | Sources/CZ3/api/api_bv.cpp:290-311 | the same; the code tests 0 < t2 where its comment says -t2 |
| BvBuilders.MkBvSubNoUnderflow | Sources/CZ3/api/api_bv.cpp:290-316 | the same, for both kinds of comparison |
| BvBuilders.MkBvNegNoOverflow | Sources/CZ3/api/api_bv.cpp:336-345 | the same, with the error of the helper passed on |
| BvBuilders.MkBvSdivNoOverflow | Sources/CZ3/api/api_bv.cpp:348-371 | the same |
| BvBuilders.MkBv2Int | Sources/CZ3/api/api_bv.cpp:110-149 | the same, for both kinds of conversion |
| BvBuilders.OnlyResultIsLeft | Sources/CZ3/api/api_context.cpp:273-286 | after a builder the manager counts what the client owns, the result and deferred decrements, nothing else, and all of it is alive |
| BvBuilders.MkBvNumeral | Sources/CZ3/api/api_numeral.cpp:448-459 | the loop computes the little-endian sum; no bits is an error |
| BitVectors.SltIsSigned | Sources/CZ3/api/api_bv.cpp:60-60 | comparison by most significant bits is comparison of two's complement integers, at every width |
| BitVectors.MsbIsMin | Sources/CZ3/api/api_bv.cpp:151-177 | denotes the least signed integer |
| BitVectors.SignedAddNoOverflowExact | Sources/CZ3/api/api_bv.cpp:183-205 | true iff the integer sum is at most 2^(n-1)-1, at every width n >= 1 |
| BitVectors.UnsignedAddNoOverflowExact | Sources/CZ3/api/api_bv.cpp:206-222 | true iff the sum is below 2^n |
| BitVectors.AddNoUnderflowExact | Sources/CZ3/api/api_bv.cpp:227-255 | true iff the integer sum is at least -2^(n-1) |
| BitVectors.SubNoOverflowExact | Sources/CZ3/api/api_bv.cpp:258-288 | true iff the integer difference is at most 2^(n-1)-1 |
| BitVectors.SignedSubNoUnderflowExact | Sources/CZ3/api/api_bv.cpp:290-311 | true iff the integer difference is at least -2^(n-1) |
| BitVectors.UnsignedSubNoUnderflowExact | Sources/CZ3/api/api_bv.cpp:312-314 | true iff the difference is not negative |
| BitVectors.NegNoOverflowExact | Sources/CZ3/api/api_bv.cpp:336-345 | true iff the negation is representable |
| BitVectors.SdivNoOverflowExact | Sources/CZ3/api/api_bv.cpp:348-371 | true iff the divisor is zero or the truncated quotient is representable |
| BitVectors.SignedToIntExact | Sources/CZ3/api/api_bv.cpp:110-149 | the two conversions give the unsigned and the two's complement value |
| BitVectors.LittleSumBound | Sources/CZ3/api/api_numeral.cpp:452-455 | a numeral is below 2^n |
| BitVectors.BitsRoundTrip | Sources/CZ3/api/api_numeral.cpp:452-455 | the bits can be read back from the number |
| BitVectors.NumberRoundTrip | Sources/CZ3/api/api_numeral.cpp:452-455 | every number below 2^n comes from its bits |
| BitVectors.LittleSumInjective | Sources/CZ3/api/api_numeral.cpp:448-459 | different bit arrays of one length give different numerals |
| BitVectors.NumeralToInt | Sources/CZ3/api/api_numeral.cpp:448-459 | converting a numeral back gives the little-endian sum or the two's complement value |
| ApiLog.WriteEscaped | Sources/CZ3/api/api_log.cpp:51-73 | the pointer loop and digit buffer write the escaped form of the bytes before the first zero |
| ApiLog.ByteWritten | Sources/CZ3/api/api_log.cpp:55-69 | letters, digits and the listed punctuation are written as they are, any other byte as a backslash and three decimal digits |
| ApiLog.EscapedIsSafe | Sources/CZ3/api/api_log.cpp:51-73 | no quote, bar, newline or zero, and a backslash only before three digits |
| ApiLog.ReadStringCore | Sources/CZ3/api/z3_replayer.cpp:168-212 | the reader's loop, with all its errors, against a recursive definition |
| ApiLog.ReadsThrough | Sources/CZ3/api/z3_replayer.cpp:173-211 | bytes that are neither special nor the delimiter are read as they are |
| ApiLog.SpecialBytes | Sources/CZ3/api/z3_replayer.cpp:173-206 | which error or end the first special byte decides |
| ApiLog.BlanksSkipped | Sources/CZ3/api/z3_replayer.cpp:329-343 | blanks, tabs and newlines before an argument are skipped, and nothing else |
| ApiLog.StringRoundTrip | Sources/CZ3/api/z3_replayer.cpp:168-212 | reading a written string or quoted symbol gives the original bytes and stops behind the delimiter, for all bytes |
| ApiLog.ReadUint64 | Sources/CZ3/api/z3_replayer.cpp:248-262 | the digits read, modulo 2^64 |
| ApiLog.DecimalShape | Sources/CZ3/api/z3_replayer.cpp:248-262 | numbers are written without leading zeros, and one that is too long is read modulo 2^64 |
| ApiLog.S | Sources/CZ3/api/api_log.cpp:81-81 | the line of a string argument |
| ApiLog.Sy | Sources/CZ3/api/api_log.cpp:82-94 | the three kinds of symbol lines |
| ApiLog.LineRoundTrip | Sources/CZ3/api/z3_replayer.cpp:449-477 | every line is replayed as the argument it was written for, whatever follows |
| ApiLog.LineDetermines | Sources/CZ3/api/api_log.cpp:81-94 | equal lines come from equal arguments |

## Left out

- Lackr.Lackr.Lazy: for inputs without arrays and without interpreted constants other than values; the header limits solving to QF_UFBV, and at a select the loop can ask the same query for ever (`Lackr.Lackr.StuckRound`). For the first use of an object.
- Lackr.Lackr.Solve: the lazy strategy only for the same inputs.
- Conversion.Apply: for the converter that is applied to the solver's model; the variant that keeps an abstract model of its own converts that one first, in the same way. Uninterpreted sorts have no universes of their own here.
- SubstituteFuns.SubstMeaning: a variable of a body that stands for an argument has the sort of that argument, as the assertions of the code demand; patterns of quantifiers are not modelled.
- SubstituteFuns.VarSubst: instantiation is a function here, its worklists and caches are not modelled.
- ModelConstructor.ModelConstructor.Check: lifted symbols and interpreted constants other than values, for which the code takes a default value.
- ModelConstructor.ModelConstructor.MakeModel: uninterpreted sorts and their universes are not modelled.
- The simplifier, the expression replacer's cache, the rewriting inside the model evaluator and the SAT solver: oracles with contracts. An evaluator may leave symbols open that do not matter for the value.
- Unique values and plain values are one notion, and values have one representation each; a sort whose values are built by constructors with arguments has infinitely many; of the theories' own tests for distinct terms only that of bit-vectors is proved right.
- Doubles in the lemma bound are natural numbers or infinity.
- A map over a lifted symbol marks only the symbol itself, not symbols inside nested lifted declarations.
- Reference counts of sorts, declarations, quantifiers and free variables; ids of nodes; debugging aids.
- Nodes are counted by occurrences, and the memory of deleted objects is not reused; the order in which dead nodes are processed is that of a stack.
- What a freed object releases in its own destructor, other than an AST map.
- Context.Context.FlushObjects: the method runs without interruption; interleavings with other threads are in `ContextMachine`.
- Locks, cancellation, timeouts, tracing, logging switches, exceptions thrown by the manager, error handlers.
- BvBuilders.MkBvSubNoOverflow: for operands with bits; no sort without bits can be made (`bv_decl_plugin.cpp:185-187`).
- BvBuilders.MkBvSdivNoOverflow: for operands with bits, as well.
- Context.Context.Z3DecRef: a client that gives back a reference takes one of its own; giving back another's is a misuse that the code does not detect.
- BvBuilders.MkBv2Int: sorts are values here and need no references; the decimal text of the bound is not modelled.
- Builders of plain operators, multiplication predicates and rotations: single calls.
- ApiLog.Sy: pointers, doubles and arrays in the log are not modelled.
- The rest of the API, the Swift wrapper and the scripts.
