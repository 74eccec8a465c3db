# Verified models of the description-logic reasoner

This project models four parts of the repository and proves what they are for.

**The compiler from description logic to Horn rules** (`src/dlp_reasoner/compiler.py`,
`src/dlp_reasoner/model.py`). Class expressions have the set semantics of the OWL 2 Direct
Semantics (sections 2.2.1, 2.2.3 and 2.3.1 to 2.3.6) over an arbitrary domain, rules the ordinary
first-order reading. `Expressions`, `Semantics` and `Normalization` hold expressions and their
simplification; `Rules` and `Structures` hold rules and their truth. `Translation` is the
translation as functions on a state; `Compiler` is the object that updates rules, facts, counter
and tables in place, every method proved equal to those functions. `Soundness` and
`Completeness` (over `Scoping`, `Antecedents`, `Consequents`) show that nothing about the
original vocabulary is gained or lost, with auxiliary predicates shared across axioms and with the
rolled-back dry run. `Profiles`, `Acceptance`, `Levels`, `FreshNames` and `Factoring` hold the
shape of the output, the accepted language, monotonicity in the profile, independence of the
counter and the size bounds; `ProgramFacts` and `Budget` say which facts a program holds and when
the rule budget can be exceeded. `Parsing` reads expressions out of a graph with a cache and a
cycle check, and `ExpressionMeaning` says which nodes can be read and what they mean. `GraphAxioms`
reads one statement of the graph and `GraphCompiler` is the loop over nodes and triples, proved
against the truth of the triples themselves. `Workloads` has the generated families.

**Evaluation of rule programs.** `Stratification` and `StratifiedEvaluation` follow `evaluate` in
`scripts/check_thesis_errata.py`. `Horn` is exhaustive grounding to a least model, `Reachability`
and `FamilyRules` the traversal that must agree with it, `SchemaProbes` and `SchemaQueries` the
reduction of universal questions to fresh constants. `Join` is the nested-loop join and
`RoadDistance` best-first search with stale heap entries.

**The geometry provider.** `NativeHandles` is the foreign library as a resource that may fail or
raise at each call, with a record of every destroying call. `GeometryTables` and `GeometryRuns`
hold what a table owns and what every run of calls keeps; `GeometryStore` is the provider, whose
state always ends a history of its own calls.

**Map publication.** `MapPublication` has threads as steps of one machine in any interleaving,
including a host that mutates what it was given; a thread is one activation of a method, so a call
made from inside another is a thread of its own. `MapRuntime` has the object's own methods, whose
state is always that of a run of the machine.

Two places where the code and its comments differ, and the code is followed. The comment on
`MapRuntime` says that a failed update clears `complete`; a call refused by the first look at
`_closed` or by the lock leaves it as it was. `independent_control` is described as a direct join,
but it pairs terms and values only as far as the shorter of the two; `Join.FitIsExact` says
exactly when it is one, and `Join.MisfitReturned` shows what it returns when it is not.

Where a source function computes by updating, the Dafny member is a method with loops or a class,
and its `ensures` ties it to a specification that the lemmas are about. Names that the source
derives by SHA-256 are constructors applied to the expression itself, so different expressions
have different names.

## Model

| member | source | states |
|---|---|---|
| Normalization.NormalizeSound | src/dlp_reasoner/compiler.py:188-241 | In every interpretation over any domain, with inverse properties and all cardinalities, an expression and its simplified form have exactly the same members: flattening, deduplication, clashes, De Morgan, quantifier duality, cardinality complements and singleton nominals together. |
| Normalization.ComplementSound | src/dlp_reasoner/compiler.py:207-225 | The simplified complement of an already simplified child holds of an individual exactly when the child does not. |
| Normalization.SimplifySound | src/dlp_reasoner/compiler.py:191-206 | Dropping neutral and repeated members, and collapsing on an annihilator or on a member beside its complement, never changes a conjunction or a union. |
| Normalization.Normalize | src/dlp_reasoner/compiler.py:188-241 | The result never weighs more than the input, in a measure where complement doubles; this is what lets the function recurse on its own results and terminate. |
| Normalization.NormalizeIsNormal | src/dlp_reasoner/compiler.py:188-241 | Results have complement only over named classes, has-value, enumerations and positive exact cardinalities, no flattenable, repeated, neutral or clashing members, no minimum or exact zero. |
| Normalization.NormalizeIdempotent | src/dlp_reasoner/compiler.py:188-241 | Simplifying a second time changes nothing. |
| Structures.CanonicalSameMeaning | src/dlp_reasoner/compiler.py:313-330 | A rule and its canonically renamed form are true in the same structures, so no variable is captured. |
| FreshNames.CanonicalInvariant | src/dlp_reasoner/compiler.py:313-330 | Rules that differ by an injective renaming of variables have one and the same canonical form. |
| FreshNames.EmitInvariant | src/dlp_reasoner/compiler.py:301-330 | Emission is blind to an injective renaming: same facts, same rules, same failures. |
| FreshNames.BodyShift | src/dlp_reasoner/compiler.py:254-299 | Antecedent translation started with the counter moved by k gives the same tables and rules, and alternatives that differ only in variables moved by k. |
| FreshNames.HeadShift | src/dlp_reasoner/compiler.py:336-406 | Consequent translation started with the counter moved by k gives identical rules, facts and tables. |
| FreshNames.CounterIrrelevant | src/dlp_reasoner/compiler.py:90-92 | Compiling any axioms from any other starting value of the fresh-variable counter gives identical rules, facts and definition tables, or the same failure. |
| Antecedents.EmitMeans | src/dlp_reasoner/compiler.py:301-330 | In every model of what has been emitted, an assignment that makes the raw body true makes the raw head true. |
| Antecedents.BodyCovers | src/dlp_reasoner/compiler.py:254-299 | In every model of the emitted rules, whatever belongs to an antecedent expression satisfies one of its Horn alternatives, for suitable values of the fresh variables. |
| Antecedents.ReferenceDefines | src/dlp_reasoner/compiler.py:243-252 | In every model of the emitted rules, the auxiliary predicate of a named antecedent contains the extension of the expression, whether it was defined now or earlier. |
| Antecedents.BodyDefines | src/dlp_reasoner/compiler.py:254-299 | Every expression that antecedent translation adds to the shared table has its one-way definition in force. |
| Consequents.HeadMeans | src/dlp_reasoner/compiler.py:336-406 | In every model of the emitted rules, an individual whose body is true belongs to the consequent expression. |
| Consequents.HeadDescribes | src/dlp_reasoner/compiler.py:337-346 | Every filler added to the shared table of witness predicates has its predicate contained in its extension; antecedents named on the way are defined. |
| Consequents.HeadMinMeans | src/dlp_reasoner/compiler.py:413-426 | The Skolem edges and pairwise inequalities force n distinct successors. |
| Consequents.HeadMaxMeans | src/dlp_reasoner/compiler.py:427-436 | The constraint or the equality rule leaves no n + 1 distinct successors. |
| Consequents.HeadOrMeans | src/dlp_reasoner/compiler.py:390-404 | A union with negated members becomes rules whose models satisfy the union. |
| Soundness.EmptyAntecedent | src/dlp_reasoner/compiler.py:440-448 | An antecedent with no alternatives has no members in any model of what was emitted, so nothing is lost by rolling the head back. |
| Soundness.InclusionMeans | src/dlp_reasoner/compiler.py:438-450 | Models of the rules emitted for an inclusion satisfy it, and the shared tables stay backed by their definitions, also through the rolled-back dry run. |
| Soundness.DisjointMeans | src/dlp_reasoner/compiler.py:452-456 | Models of the constraints emitted for disjoint classes keep them apart. |
| Soundness.RoleAxiomMeans | src/dlp_reasoner/compiler.py:520-534 | Models of the rules satisfy property inclusions, equivalences, inverses, domains and ranges. |
| Soundness.CharacteristicMeans | src/dlp_reasoner/compiler.py:549-562 | Models of the rules make the property transitive, symmetric, functional or inverse functional, in its own direction. |
| Soundness.CompileSound | src/dlp_reasoner/compiler.py:458-547 | Every structure that satisfies the compiled program satisfies every axiom, with all definitions shared across axioms. |
| Completeness.BodyExact | src/dlp_reasoner/compiler.py:254-299 | With auxiliary predicates read as their expressions, everything emitted for an antecedent holds, and each alternative implies the expression. |
| Completeness.HeadHolds | src/dlp_reasoner/compiler.py:336-406 | If the body implies the consequent in the interpretation, the expanded structure satisfies everything emitted for it. |
| Completeness.HeadMinHolds | src/dlp_reasoner/compiler.py:413-426 | Choosing n distinct successors as Skolem values satisfies the edges and the inequalities. |
| Completeness.HeadMaxHolds | src/dlp_reasoner/compiler.py:427-436 | An interpretation without n + 1 distinct successors satisfies the emitted constraint or equality rule. |
| Completeness.InclusionHolds | src/dlp_reasoner/compiler.py:438-450 | An interpretation that satisfies an inclusion expands to a model of all that is emitted for it. |
| Completeness.CompileComplete | src/dlp_reasoner/compiler.py:458-547 | Every interpretation that satisfies the axioms expands, by choosing Skolem functions and auxiliary predicates, to a model of the compiled program over the same vocabulary. |
| Completeness.ConsequencesPreserved | src/dlp_reasoner/compiler.py:458-547 | A property of interpretations of the original vocabulary follows from the axioms if and only if it follows from the compiled program. |
| Compiler.CanonicalRule | src/dlp_reasoner/compiler.py:313-330 | The dictionary that is filled while a rule is walked numbers the variables by first occurrence, head first. |
| Compiler.Compiler.Emit | src/dlp_reasoner/compiler.py:301-330 | Ground bodiless heads become facts, everything else a canonical rule; the new state is that of the functional specification, or the budget is exceeded and nothing is added. |
| Compiler.Compiler.BodyReference | src/dlp_reasoner/compiler.py:243-252 | Updates rules, counter and definition table as specified, defining an expression at most once. |
| Compiler.Compiler.Body | src/dlp_reasoner/compiler.py:254-299 | Returns the specified alternatives and leaves the specified state, or fails where the specification does. |
| Compiler.Compiler.Head | src/dlp_reasoner/compiler.py:336-406 | Leaves the specified state, or fails where the specification does. |
| Compiler.Compiler.CardinalityMin | src/dlp_reasoner/compiler.py:413-426 | Emits the specified witnesses and inequalities, after the budget test on their number. |
| Compiler.Compiler.CardinalityMax | src/dlp_reasoner/compiler.py:427-436 | Emits the specified constraint or equality rule, or rejects bounds above one. |
| Compiler.Compiler.Inclusion | src/dlp_reasoner/compiler.py:438-450 | Runs the head once for validation when the antecedent is empty and restores rules, facts and both tables, leaving the specified state. |
| Compiler.Compiler.Disjoint | src/dlp_reasoner/compiler.py:452-456 | Emits one constraint for each pair of alternatives, leaving the specified state. |
| Compiler.Compiler.Characteristic | src/dlp_reasoner/compiler.py:549-562 | Emits the specified rule for the characteristic. |
| Compiler.CompileAll | src/dlp_reasoner/compiler.py:484-547 | Models of the returned program and of the axioms correspond in both directions. Its rules do not repeat and number at most 100,000. It records an individual as being in the domain exactly when an axiom names it or asserts it of a class that simplifies to the top class, and holds the ground atom of every class, property, same-as and different-from assertion. On success every axiom is in the language of the level; it fails only when one is not, or when a count of rules made from the axioms alone passes 100,000. |
| ProgramFacts.AxiomsRecorded | src/dlp_reasoner/compiler.py:301-309 | Every assertion among the axioms has its ground atom among the facts of the program, whatever is compiled after it. |
| ProgramFacts.DomainFacts | src/dlp_reasoner/compiler.py:349-353 | A top atom of an individual is a fact if and only if an axiom names the individual or asserts it of a class that simplifies to the top class: no other axiom and no consequent puts one there. |
| Budget.CompileWithin | src/dlp_reasoner/compiler.py:310-312 | A compiled program has at most 100,000 rules and no more than a count made from the axioms alone; the answer that the budget is exceeded comes only when that count passes 100,000. |
| Budget.MinimumCompiles | src/dlp_reasoner/compiler.py:413-426 | At L3 every positive minimum n with n(n + 1)/2 + 3 at most 100,000 compiles on the right of a named class. |
| Profiles.CompiledShape | src/dlp_reasoner/compiler.py:336-436 | Every compiled rule is range-restricted, no body repeats an atom or holds a Skolem term or an inequality, witnesses in heads and facts are never nested; equality needs L1, constraints and inequalities L2, Skolem terms L3. |
| Profiles.ConsistentBelowConstraints | src/dlp_reasoner/compiler.py:86-88 | Whatever compiles at L0 or L1 is consistent: a one-element interpretation satisfies all of it. |
| Levels.CompileRepeats | src/dlp_reasoner/compiler.py:86-88 | What a lower profile accepts compiles at every higher profile to identical rules, facts and tables. |
| Acceptance.AcceptedLanguage | src/dlp_reasoner/compiler.py:254-450 | A list of axioms is accepted at a level if and only if each axiom is in a grammar that mentions no compiler state, unless the rule budget is exceeded; sharing and dry runs never change acceptance. |
| Acceptance.InclusionStep | src/dlp_reasoner/compiler.py:438-450 | An inclusion is accepted exactly when its left side is a legal antecedent and its right side a legal consequent, even when the left side is empty. |
| Acceptance.BodyJudged | src/dlp_reasoner/compiler.py:254-299 | Antecedent translation succeeds exactly on legal antecedents of the level, budget apart. |
| Acceptance.HeadJudged | src/dlp_reasoner/compiler.py:336-436 | Consequent translation succeeds exactly on legal consequents of the level, budget apart. |
| Factoring.BodyLinear | src/dlp_reasoner/compiler.py:254-299 | The rules added for an antecedent are fewer than twice its size, enumeration items included; a factored antecedent that is not an enumeration has at most one alternative. |
| Factoring.ReferenceLinear | src/dlp_reasoner/compiler.py:243-252 | The same bound for a named antecedent, through the mutual recursion of naming and translating. |
| Factoring.DistributionDoubles | src/dlp_reasoner/compiler.py:271-278 | Plain distribution of n binary alternatives has exactly 2^n terms, no two of them equal. |
| Factoring.FactoredConjunction | src/dlp_reasoner/compiler.py:271-278 | A conjunction of n >= 2 different binary unions or enumerations, included in a named class, compiles to one exact list of 2n + 2 rules, where plain distribution has 2^n distinct terms. |
| Workloads.WriteList | benchmarks/workloads.py:107-112 | The loop adds exactly the first and rest triples of a cell for each value, and returns the head. |
| Workloads.ListReadBack | benchmarks/workloads.py:107-112 | Whatever list is read at the head of a written list is the values in order. |
| Workloads.WriteFamily | benchmarks/workloads.py:115-126 | The generator refuses too few pairs and otherwise writes exactly the triples of the workload's class axiom. |
| Workloads.FamilyDenotes | benchmarks/workloads.py:115-126 | In any graph that says nothing else about blank nodes, the root of the workload denotes the conjunction of its n alternatives; the generated names never collide. |
| Workloads.FamilySays | benchmarks/workloads.py:144-160 | The workload's subclass triple is read as the inclusion of that conjunction in the target class, unchanged by simplification. |
| Workloads.WorkloadsSeparate | benchmarks/workloads.py:122-128 | The names that the two workloads give to alternatives, lists and roots cannot run into one another. |
| Workloads.FamilyCompiles | benchmarks/workloads.py:136-141 | The inclusion compiles to 2n + 2 rules while plain distribution has 2^n distinct terms, for every n. |
| Parsing.Parser.RdfList | src/dlp_reasoner/compiler.py:100-108 | Returns the list that the graph spells, or fails exactly when it spells none; terminates on cyclic lists. |
| Parsing.Parser.ReadProperty | src/dlp_reasoner/compiler.py:115-125 | Returns the named property at the end of the inverses with the parity of their number, or fails exactly when there is none. |
| Parsing.Parser.Expr | src/dlp_reasoner/compiler.py:131-186 | With any valid cache and stack, returns the simplified form of the finite unfolding of the node, or fails only when it has none; the cache stays valid and recursion terminates on every finite graph. |
| Parsing.Parser.ReadJunction | src/dlp_reasoner/compiler.py:166-167 | Reads every member of the list below the stack, agreeing with the cache-free unfolding. |
| Parsing.Parser.ReadRestriction | src/dlp_reasoner/compiler.py:168-181 | Reads property and filler, bound or individual, agreeing with the cache-free unfolding. |
| Parsing.ReadExpression | src/dlp_reasoner/compiler.py:131-186 | Reading fails if and only if the node has no finite unfolding, whatever was read before. |
| ExpressionMeaning.ReadExactly | src/dlp_reasoner/compiler.py:131-186 | An anonymous node, or a named one to be expanded, can be read if and only if exactly one triple constructs it and the list members, filler, bound and property that the triple asks for can be read. |
| ExpressionMeaning.MeansExactly | src/dlp_reasoner/compiler.py:158-186 | What a constructed node is read as holds of exactly the individuals that its one constructor triple describes, in every interpretation: members of all or some of the listed classes, non-members, listed individuals, or those with the successors that the restriction asks for. |
| ExpressionMeaning.NamedMeans | src/dlp_reasoner/compiler.py:135-143 | A name that is not expanded is read as everything, nothing, or the members of the class of that name, and is no datatype. |
| ExpressionMeaning.PropertyExactly | src/dlp_reasoner/compiler.py:115-125 | A node is read as a property exactly when it is a name outside the four built in, or an anonymous node whose one inverse is read as the flipped property. |
| Parsing.DenotesUnique | src/dlp_reasoner/compiler.py:131-186 | A node has at most one finite unfolding. |
| Parsing.MeetsUnique | src/dlp_reasoner/compiler.py:131-134 | So cached and fresh reading cannot differ. |
| Parsing.CycleIsMeaningless | src/dlp_reasoner/compiler.py:144-145 | A node met again on its own stack has no finite unfolding; named classes, which are not expanded, cut the recursion. |
| Parsing.NoCyclicList | src/dlp_reasoner/compiler.py:103-104 | A list that returns to a visited cell spells no list. |
| GraphAxioms.Read | src/dlp_reasoner/compiler.py:474-545 | Each checked node, definition or triple is read as the axioms that it states, or reading fails exactly when it states none. |
| GraphAxioms.ReadType | src/dlp_reasoner/compiler.py:491-513 | A type triple is read as the axiom that it states, or reading fails exactly when it states none. A transitive, symmetric, functional or inverse functional property type gives an axiom that is true exactly where the relation of that property is so; a lone disjoint member is never read. |
| GraphAxioms.SaysUnique | src/dlp_reasoner/compiler.py:474-545 | A statement states one list of axioms at most. |
| GraphAxioms.TripleMeans | src/dlp_reasoner/compiler.py:484-545 | The axioms that a triple states are true in exactly the interpretations where what the triple says of classes, relations and individuals is true. |
| GraphAxioms.ReadableSays | src/dlp_reasoner/compiler.py:484-545 | A triple states something if and only if the nodes at its ends can be read as what its predicate asks for: classes, properties, a list of members, or any node. |
| GraphCompiler.StatementsAre | src/dlp_reasoner/compiler.py:472-484 | What is read is every node, the definition of every named node and every triple, and nothing else. |
| GraphCompiler.GraphMeans | src/dlp_reasoner/compiler.py:472-547 | The axioms read are true in exactly the interpretations where every triple is true and every named node is equivalent to its expression. |
| GraphCompiler.CompileGraph | src/dlp_reasoner/compiler.py:472-547 | On success every node and every triple was read; every model of the program makes every triple true and every named node equivalent to its expression, and every interpretation that does so expands to a model of the program; every assertion stated is recorded. It fails only when a node or a triple cannot be read, an axiom stated is outside the language of the level, or the count of rules passes 100,000. |
| GraphCompiler.GraphConsequences | src/dlp_reasoner/compiler.py:565-576 | What is true in every interpretation that makes the triples true and the named nodes equivalent to their expressions is exactly what is true in every model of the compiled program. |
| Stratification.StratifiableIffAcyclic | scripts/check_thesis_errata.py:28-34 | Strata that respect every rule exist exactly when no dependency cycle passes a negated atom. |
| Stratification.Relax | scripts/check_thesis_errata.py:40-47 | One in-place pass only raises strata, reaches every rule's minimum, stays below every valid assignment, and reports no change only when the assignment is valid. |
| Stratification.PassSettles | scripts/check_thesis_errata.py:39-49 | Each pass that is not the last settles at least one more atom at its least stratum, which is why number of atoms plus one passes suffice. |
| Stratification.SomethingIsTight | scripts/check_thesis_errata.py:42-47 | Among atoms with positive least strata, some rule attains its minimum through an atom outside. |
| Stratification.Stratify | scripts/check_thesis_errata.py:35-51 | The bounded loop fails if and only if there is a negative cycle, and otherwise returns strata with head >= positive and head > negative for every rule. |
| StratifiedEvaluation.NegationDecided | scripts/check_thesis_errata.py:57-62 | Filling a stratum never changes the truth of an atom negated in its rules or in lower ones. |
| StratifiedEvaluation.BatchKeepsLeast | scripts/check_thesis_errata.py:57-65 | A batch of simultaneous firings keeps the result below every set closed under the strata handled so far. |
| StratifiedEvaluation.FillStratum | scripts/check_thesis_errata.py:55-65 | The inner loop ends with its stratum closed and least over the strata before. |
| StratifiedEvaluation.StableIsSupported | scripts/check_thesis_errata.py:57-62 | Every derived atom of a stable model is the head of a rule that fires in it. |
| StratifiedEvaluation.StableUnique | scripts/check_thesis_errata.py:28-34 | Without a negative cycle there is at most one stable model. |
| StratifiedEvaluation.EvaluateOver | scripts/check_thesis_errata.py:53-66 | Evaluated over any strata that respect the rules, the answer is the one stable model, so it is the same for every valid stratification. |
| StratifiedEvaluation.Evaluate | scripts/check_thesis_errata.py:28-66 | Fails if and only if there is a negative cycle, and otherwise returns the one stable model. |
| Horn.TuplesAre | benchmarks/research.py:206-207 | The assignments enumerated are exactly the tuples over the domain, one value for each variable. |
| Horn.InstancesExhaustive | benchmarks/research.py:203-213 | Instantiating a rule at those tuples gives the instance of every binding over the domain and no other. |
| Horn.FiniteOracle | benchmarks/research.py:190-218 | Exhaustive grounding and iteration return the least set that contains the facts and is closed under the rules over the constants. |
| Horn.LeastModelUnique | benchmarks/research.py:190-218 | There is only one such set. |
| Reachability.Adjacency | benchmarks/bach.py:94-96 | The dictionary of successor sets holds exactly the edges. |
| Reachability.Reachable | benchmarks/bach.py:99-105 | The worklist ends having seen exactly the nodes at the end of a nonempty walk from the source, whatever order it takes, and ends on cycles. |
| Reachability.Reachability | benchmarks/bach.py:92-107 | The result is exactly the pairs joined by a nonempty walk. |
| Reachability.JoinedLeast | benchmarks/bach.py:92-107 | Walks stay inside every transitive relation that contains the edges. |
| FamilyRules.FamilyClosedMeans | benchmarks/bach_zodiac.py:42-45 | Closure under any of the three rules, as rules with variables, is transitivity, inclusion and symmetry of the two relations over the constants. |
| FamilyRules.ExpectedClosure | benchmarks/bach_zodiac.py:113-125 | Accepts exactly the family rules with transitivity over ancestor pairs, and then returns the least model, for every edge set and every permitted combination of rules. |
| FamilyRules.LeastOfClosure | benchmarks/bach_zodiac.py:117-125 | Traversal, then inclusion, then symmetry gives the least model; with its uniqueness this is the exhaustive grounding's answer. |
| SchemaProbes.ProbeSound | benchmarks/bach_zodiac.py:173-182 | What is derived from fresh facts holds universally in every model of the rules, over any domain. |
| SchemaProbes.ProbeComplete | benchmarks/bach_zodiac.py:173-182 | When the goal is not in the least model, some model of the rules refutes the universal implication. |
| SchemaProbes.ProbeDecides | benchmarks/bach_zodiac.py:173-182 | For positive rules that do not mention the probe's constants, the goal is in the least model if and only if the implication holds in all models. |
| SchemaQueries.QueryIsProbe | benchmarks/bach_zodiac.py:183-195 | Symmetry, transitivity and subsumption of a structure are what the probe's facts and goal ask of it. |
| SchemaQueries.QueryDecided | benchmarks/bach_zodiac.py:173-202 | The probe answers the question asked of all models. |
| SchemaQueries.QuerySound | benchmarks/bach_zodiac.py:173-182 | A positive answer holds in every model of the rules, over any domain. |
| SchemaQueries.AnswerInModel | benchmarks/bach_zodiac.py:235-241 | For any of the family rules and any question about the two properties, the goal is in the least model exactly when the table of answers says so. |
| SchemaQueries.SchemaProbe | benchmarks/bach_zodiac.py:173-202 | Rejects other properties, agrees with truth in all models, and agrees with the table of answers for the family rules. |
| RoadDistance.RouteBound | examples/traffic_signs/check.py:71-82 | At any point of the search every route ends at a settled vertex of no greater cost or is cut by a waiting entry of no greater cost. |
| RoadDistance.FreshPopped | examples/traffic_signs/check.py:72-75 | A popped entry that is current is final: its vertex was not settled before and everything settled costs no more. |
| RoadDistance.Improved | examples/traffic_signs/check.py:78-82 | A better cost never reaches a settled vertex, and the stale entries left behind are harmless. |
| RoadDistance.RoadDistance | examples/traffic_signs/check.py:54-83 | Rejects negative weights and unknown vertices exactly, and otherwise returns the least length of a route, or none exactly when there is no route; the loop terminates. |
| Join.ExtendBinding | benchmarks/external_lookahead.py:67-75 | A row extends a binding to exactly the values it gives, or fails exactly when no extension agrees with it; repeated variables and constants included. |
| Join.ExtensionUnique | benchmarks/external_lookahead.py:67-75 | A row extends a binding in one way at most, so the loop over terms computes the only extension. |
| Join.JoinAtom | benchmarks/external_lookahead.py:63-76 | One more atom turns bindings that answer the choices of rows one for one into bindings that do so for the longer choices. |
| Join.IndependentControl | benchmarks/external_lookahead.py:56-78 | One answer for each choice of a fact for every atom that agree together; an error exactly when some such binding leaves an answer variable unbound. |
| Join.AnswersAre | benchmarks/external_lookahead.py:56-78 | A tuple is an answer if and only if some justified binding projects to it. |
| Join.FoundIsSatisfying | benchmarks/external_lookahead.py:56-78 | When every fact about a predicate of the body is long enough for its atom and, cut to the atom, is again a fact, the bindings found are exactly the assignments to the body's variables that satisfy every atom. |
| Join.FitIsExact | benchmarks/external_lookahead.py:68-76 | That condition is exact: it holds of a predicate at an arity if and only if, for every list of atoms about that predicate at that arity, the bindings found are the satisfying assignments. |
| Join.Misfit | benchmarks/external_lookahead.py:68-76 | Any fact that breaks the condition gives an atom of different variables a binding that leaves one unbound or grounds the atom to no fact. |
| Join.ReturnedIsRight | benchmarks/external_lookahead.py:56-78 | Under the condition, the answers returned are exactly the projections of the satisfying assignments, and an error means that some satisfying assignment leaves an answer variable unbound. |
| Join.MisfitReturned | benchmarks/external_lookahead.py:68-78 | Asked for a unary atom over one binary fact, the control returns an answer although no assignment satisfies the atom. |
| Join.ReorderedAnswers | benchmarks/external_lookahead.py:56-78 | As a set, the answer is unchanged by any permutation of the body, also where rows are shorter or longer than atoms. |
| NativeHandles.Native.Destroy | src/dlp_reasoner/geometry.py:122-125 | A handle is destroyed only while live and a geometry only after what was prepared from it; issued handles are live or gone, never both, and the record of destroying calls repeats none. |
| GeometryRuns.TokenInjective | src/dlp_reasoner/geometry.py:115-120 | Equal tokens have equal revision and equal generation, whatever text the host uses as revision. |
| GeometryRuns.EqualSnapshotsSameTable | src/dlp_reasoner/geometry.py:115-120 | In every run of entering, dropping, shutting and refused calls, equal snapshots of an open provider were taken of the same table. |
| GeometryRuns.StepAccounted | src/dlp_reasoner/geometry.py:127-180 | Whatever a call comes to, what the table owned is owned still or given back, nothing is given back twice and nothing owned was given back. |
| GeometryRuns.OwnedOrDestroyedOnce | src/dlp_reasoner/geometry.py:127-180 | In every run, a handle that a table owned at some moment is owned later or was given back exactly once. |
| GeometryStore.GeometryProvider.EqualSnapshots | src/dlp_reasoner/geometry.py:115-120 | Over the history of calls that a provider's state records, equal snapshots were taken of the same table. |
| GeometryStore.GeometryProvider.DestroyedOnce | src/dlp_reasoner/geometry.py:122-125 | Over that history, a handle the provider ever owned is live and owned now, or was destroyed exactly once. |
| GeometryStore.GeometryProvider.Parse | src/dlp_reasoner/geometry.py:138-162 | Whatever native step fails or raises, no handle is left over; on success exactly the geometry and its preparation are new. |
| GeometryStore.GeometryProvider.Put | src/dlp_reasoner/geometry.py:127-170 | Success means that both quotas hold and that reader, text and preparation succeeded with a valid, nonempty, two-dimensional geometry; it enters one fresh record, replaces and destroys the old one and moves the generation. Each failing status names the quota or the native step that failed, and every failure leaves table, totals, tokens and live handles as they were; the history grows by this call. |
| GeometryStore.GeometryProvider.Remove | src/dlp_reasoner/geometry.py:171-180 | Takes the record out and destroys exactly its two handles; a missing record changes at most the revision text; the history grows by this call. |
| GeometryStore.GeometryProvider.Release | src/dlp_reasoner/geometry.py:122-125 | Destroys the preparation first and then its geometry, and nothing else. |
| GeometryStore.GeometryProvider.EvaluateBatch | src/dlp_reasoner/geometry.py:187-229 | Refuses exactly unknown operations, a closed context and a stale snapshot. Otherwise each request gets one reply: a relation is true if and only if the library says so of the left record prepared and the right record; a distance is that from left to right in metres; a distance test is true if and only if it is within the radius. It stops with no answer at the first request with an unknown identifier, differing coordinate systems, a result other than 0 and 1, or a missing or negative distance or radius, and when cancelled; nothing but the call count changes. |
| GeometryStore.GeometryProvider.Close | src/dlp_reasoner/geometry.py:231-238 | Afterwards no handle is live and every handle ever issued was destroyed once; closing twice is harmless. |
| MapPublication.StepInv | src/dlp_reasoner/map_runtime.py:61-98 | Every step of every thread, and every interference by a host, keeps the invariant that ties lock, phases, publication and index ownership together. |
| MapPublication.StepSafe | src/dlp_reasoner/map_runtime.py:61-98 | Only a publishing step of an open runtime moves the publication, to what that thread made ready; an index once published is closed only by closing the runtime or by its host. |
| MapPublication.OneInside | src/dlp_reasoner/map_runtime.py:64-65 | In every interleaving at most one thread is inside a transaction or a close. |
| MapPublication.NothingAfterClose | src/dlp_reasoner/map_runtime.py:115-123 | After closing, the publication never changes again. |
| MapPublication.PublishedAcceptable | src/dlp_reasoner/map_runtime.py:81-89 | Every publication of a run is of a complete reasoner that found no inconsistency. |
| MapPublication.PublishedWasValidated | src/dlp_reasoner/map_runtime.py:87-89 | Before a thread publishes, it validated that very candidate while its index was open and its ontology untouched. |
| MapPublication.AbandonedClosed | src/dlp_reasoner/map_runtime.py:91-95 | With nobody inside, every map that was made and never published has been closed. |
| MapPublication.HolderAlonePublishes | src/dlp_reasoner/map_runtime.py:66-98 | While a thread is inside nobody else publishes, and until it publishes itself the publication is the one it found. |
| MapRuntime.MapRuntime.Transaction | src/dlp_reasoner/map_runtime.py:61-98 | Refused exactly when closed or locked. Published exactly when the previous publication, if any, passes its check, the map is new and its reasoning complete, not inconsistent, checked and unmutated; kept exactly when the previous publication passes and the store answers with the same map; failed otherwise. Each outcome says what becomes of publication, open indexes and completeness; the lock is given back in every case. |
| MapRuntime.MapRuntime.Close | src/dlp_reasoner/map_runtime.py:115-123 | Refused without effect under the lock; otherwise closes the published index and then the runtime, and when the index fails to close it counts as closed and the runtime stays open. |

## Left out

- Rule labels and error texts: two rules that differ only in their label are one rule here, so the last deduplication may drop more than the source does.
- Digest names: distinct expressions have distinct auxiliary and Skolem names, and these never equal a user's IRI.
- Skolem terms with several arguments: the compiler only ever builds one-argument terms.
- Vocabulary preflight, annotation and declaration filters, imports and profile names in `compile` and `__init__`: one-branch membership tests; `GraphCompiler.CompileGraph` is given the triples that pass them.
- The order in which nodes and triples are sorted: the theorems hold for every order given.
- Python's recursion limit, which turns deep nesting into a profile error.
- RDFLib terms beyond IRIs, blank nodes, integer literals and other literals; booleans and other non-integers count as other literals.
- The individuals that the workload generators add beside the class axiom: they only add triples with IRI subjects, which `Workloads.FamilyDenotes` allows.
- The guards of `finite_oracle` against constraints and the top predicate: rules here always have a head and ordinary predicates.
- `_oracle_answer` for named queries, and the native engine behind `_schema_probe`: set comprehensions over the closure, and a least-model evaluator in the engine's place.
- Floating point in road weights and geometry distances: weights are real numbers, and tests for infinities and not-a-number values have no counterpart.
- GeometryStore.GeometryProvider.constructor: starts from a native context without live handles and takes quotas as given.
- The order of equal costs in the heap: any least entry may be popped.
- Type checks on identifiers, coordinate systems and text, the lower bounds on quotas and the creation of the native context in `GeometryProvider`: single branches before any state exists.
- The provider's reentrant lock: its methods are modelled one at a time, as the lock makes them.
- GEOS, WKT and units: native calls answer with arbitrary values, return nothing or raise.
- An asynchronous interrupt between two statements of a map transaction, in particular between publishing and returning: only calls raise here.
- MapRuntime.MapRuntime.Transaction: assumes that a store answers with the published map only when there is one, and otherwise with a map it has not answered with before, because the store is not part of this model.
- The OSM store, the reasoner and the query scope behind a publication: a store answers with the published map or a map with an index of its own, a reasoner with whether it is complete and what it found.
- The engine, the joins with support certificates, the DLP parser, the query runtime, command line and wrappers: not part of this model.
