# goRDFlib in Dafny

A Dafny model of the parts of goRDFlib that decide whether its answers are right, with proofs about
all inputs, all runs or all interleavings:

- **SRL rules** (`stratification`, `srl_rules`, `srl_models`, `srl_bounds`, `srl_layers`,
  `srl_engine`, `srl_keys`, `srl_terms`, `srl_kinds`, `srl_graphs`, `srl_limits`, `srl_ring`,
  `srl_losses`): level assignment, the dependency analysis, the stratum-by-stratum engine, the string
  keys it works on and the graph it returns. The engine's result is proved to be the one stable model
  of the rules exactly when it is closed under them; two conditions on rules and data make that sure
  in advance.
- **Reasoning** (`closures`, `graphs`, `graph_access`, `rdfs_engine`, `union_find`, `owl_engine`,
  `entailment`, `entailment_gaps`): the RDFS and OWL RL fixed-point loops over only sometimes rebuilt
  indexes, the union-find behind owl:sameAs, and the alternation of the two regimes. Finished runs
  leave the least closed graph, stopped ones something between it and the input.
- **Skolemization** (`string_order`, `skolem`, `skolem_graphs`, `skolem_symmetry`): stable ids do not
  depend on labels or triple order, no two nodes share one, when the output does not depend on them
  either, and when replacing blank nodes can be undone.
- **Property paths** (`paths`, `path_eval`, `reachability`): evaluation against the relation a path
  denotes (section 18.4 of SPARQL 1.1 Query), with repetitions at any depth pushed down to the store
  through one cache.
- **Protocols** (`rw_lock`, `document_loader`): a writer-preferring lock with cancellation and a
  single-flight document cache, as state machines over every interleaving, and as classes whose
  methods are proved to be the steps of those machines.
- **Small machines** (`recursion_guard`, `rdf_lists`, `xml_names`): the guard of recursive SHACL
  shapes and its quick mode, RDF collections, and names in RDF/XML output.

Code that changes state is modelled by classes, arrays and loops, and each such method is proved
against functions or predicates on values; the lemmas are about those. Sections that run under a
mutex are methods of a class and the atomic steps of a transition system; `Threads.Run` and
`Callers.Run` let any schedule call the methods and prove that a run of that system comes out.

`dafny verify dfyconfig.toml` checks everything.

Where the code does less than one might expect, the model follows the code and the exact condition
is proved:

- A rule set with a cycle through NOT can pass stratification, because the loop gives up after n + 1
  passes and then looks at negative edges only (`Stratification.AcceptedWithNotCycle`). Four rules do
  it, and the engine then returns a set that is not closed under them
  (`SrlRing.AcceptedRingMisleads`). The returned levels are valid exactly when there is no such cycle
  (`Stratification.LevelsCorrectIffNoNotCycle`).
- A stratum is given up silently after 1000 rounds. With BIND no number of rounds need be enough
  (`SrlLimits.CutRunIsNotStable`). The result is right exactly when it is closed
  (`SrlEngine.CappedRunCorrect`), which is certain when no rule feeds itself, and without BIND when
  the keys in rules and data are few enough (`SrlEngine.RunIsModel`).
- Rule evaluation panics when a conclusion has a literal as its subject
  (`SrlLosses.LiteralSubjectPanics`), writes a predicate that is no IRI as one
  (`SrlLosses.PredicateIsChanged`), and changes language tags that are not in lower case
  (`SrlLosses.TagIsChanged`). Without BIND a graph is returned exactly when no conclusion has such a
  subject, and it completes the model exactly when every conclusion is kept
  (`SrlGraphs.EvalRuleSet`).
- Inverse paths ignore a literal object and sequences do not pass through one
  (`Paths.SequenceDropsLiteral`). Evaluation agrees with the denoted relation for all paths and
  endpoints exactly on graphs without literals (`Paths.FaithfulIffLiteralFree`); on others
  `Paths.Fitting` is enough for one path and its endpoints, not necessary.
- With literals the store can also give another answer than the local traversal
  (`Reachability.PushdownDiffersAtLiterals`); the two agree for all repetitions and endpoints exactly
  on graphs without (`Reachability.PushdownAgreesIffLiteralFree`).
- `Collection.Append` on a collection at rdf:nil gives rdf:nil an item (`RdfLists.NilGetsItems`). The
  list is well formed afterwards exactly when its head is another node (`RdfLists.AppendReads`).
- `splitIRI` looks at the longest name-like suffix only, so a bare name is never split
  (`XmlNames.BareNameMissed`); `XmlNames.TakesLongestIff` says when it takes the longest split.
- Stable Skolem ids give the same graph on every run exactly when nodes that refinement cannot tell
  apart are interchangeable (`SkolemSymmetry.StableOutputIff`).
- `DeSkolemize` undoes `Skolemize` exactly when no subject or object IRI already has the Skolem
  prefix (`SkolemGraphs.RoundTripIff`).
- The comment on RDFS closure (`reasoning/rdfs.go:12`) lists rdfs5 and rdfs11, but the closed
  hierarchies stay in the engine's indexes and are not written to the graph; the rules of the model
  are rdfs2, rdfs3, rdfs7 and rdfs9. The two fail on any chain (`EntailmentGaps.ChainIsNotComposed`)
  and hold exactly when rdfs7 alone makes the input transitive
  (`EntailmentGaps.HierarchyClosedIff`).
- The comment on `applyEqualityRules` lists eq-rep-p, but only subjects and objects are substituted.
  It fails on one fact with two equal predicates (`EntailmentGaps.RenamedFactIsMissing`), and on
  graphs of facts it holds exactly when the input already agrees on equal predicates
  (`EntailmentGaps.PredicatesReplacedIff`).

## Model

| member | source | states |
|---|---|---|
| Stratification.RelaxInPlace | shacl/srl_stratify.go:49-58 | the edges of one rule, relaxed in order in the shared buffer, raise that rule alone to what they require, and whether it rose is reported |
| Stratification.RunPass | shacl/srl_stratify.go:47-62 | one relaxation pass over the shared buffer computes `Pass` and reports exactly whether a level moved |
| Stratification.RunPasses | shacl/srl_stratify.go:43-68 | the in-place loop, with its pass limit and overflow test, computes `Iterate` from all zeros |
| Stratification.CheckNegativeEdges | shacl/srl_stratify.go:70-77 | true exactly when every negative edge leads to a strictly lower level |
| Stratification.AssignLevels | shacl/srl_stratify.go:43-77 | the loops compute the outcome the lemmas below are about |
| Stratification.UnchangedPassRespects | shacl/srl_stratify.go:60-62 | a pass that changes nothing means that all dependencies are satisfied |
| Stratification.LeastExists | shacl/srl_stratify.go:43-68 | if any assignment satisfies the dependencies there is a pointwise least one |
| Stratification.LeastIsSmall | shacl/srl_stratify.go:63-67 | no level of the least assignment exceeds the number of rules, so the overflow test cannot misfire |
| Stratification.PassSettlesOne | shacl/srl_stratify.go:46-59 | below the least assignment every pass brings one more rule to its final level |
| Stratification.IterateReachesLeast | shacl/srl_stratify.go:43-68 | with as many passes as unsettled rules left, the loop ends at the least assignment |
| Stratification.StratifiableIsAccepted | shacl/srl_stratify.go:43-77 | if any valid assignment exists, n + 1 passes suffice, no error is reported and the result is the pointwise least one |
| Stratification.StratifiableIffNoNotCycle | shacl/srl_stratify.go:15-17 | a valid assignment exists if and only if no dependency cycle goes through a NOT |
| Stratification.LevelsCorrectIffNoNotCycle | shacl/srl_stratify.go:43-90 | a valid result is returned if and only if no cycle goes through a NOT, it is then the least one, and an error always means such a cycle |
| Stratification.AcceptedWithNotCycle | shacl/srl_stratify.go:45-68 | a ring of four rules with one NOT that is accepted all the same (what the engine then does is `SrlRing.AcceptedRingMisleads`) |
| Stratification.RingLevels | shacl/srl_stratify.go:43-90 | the levels it is given: 2, 1, 2, 2, where no levels are valid |
| SrlRules.EdgesOfComplete | shacl/srl_stratify.go:24-41 | every overlap of a head with a body pattern or a negated pattern is recorded as an edge of that polarity |
| SrlRules.LevelsOrderRules | shacl/srl_stratify.go:24-41 | valid levels put a rule at or above the rules it reads and strictly above those it negates |
| SrlRules.NegativeEdgeSound | shacl/srl_stratify.go:136-161 | any triple a head can produce and a negated pattern can see makes a negative edge |
| SrlRules.PositiveEdgeSound | shacl/srl_stratify.go:117-131 | the same for positive patterns, for heads whose predicate is an IRI or a variable |
| SrlRules.SolvesLocal | shacl/srl_eval.go:152-185 | solutions of a body depend only on the triples its own patterns can see, NOT included |
| SrlModels.HigherHeadsUnseen | shacl/srl_stratify.go:24-41 | nothing a stratum or a later one produces is seen by the rules below it, or by the NOTs at its own level |
| SrlModels.LowerRuleUndisturbed | shacl/srl_eval.go:66-77 | a rule of a finished stratum derives nothing from later triples |
| SrlModels.NotVerdictsStable | shacl/srl_eval.go:171-177 | no NOT of a rule changes its verdict after the rule's stratum starts, within it or later |
| SrlModels.FinalSetStableIffClosed | shacl/srl_eval.go:66-77 | the last set of any run is a stable model if and only if it is closed under all rules |
| SrlModels.SettledRunIsStable | shacl/srl_eval.go:66-77 | if every stratum reached its fixed point the result is closed and each triple is data or derived, with NOT read in the result itself |
| SrlModels.StableModelUnique | shacl/srl_eval.go:66-77 | there is no other stable model, so the result depends neither on the stratification used nor on rule or triple order |
| SrlModels.SolvedAtSomeRound | shacl/srl_eval.go:96-122 | what the infinite limit of rounds solves, some finite round solves |
| SrlModels.LimitClosed | shacl/srl_eval.go:96-122 | the limit of rounds of a stratum is closed under its rules |
| SrlModels.IdealRunSettles | shacl/srl_eval.go:66-122 | running every stratum to its limit gives a settled run |
| SrlModels.UniqueStableModel | shacl/srl_eval.go:66-122 | every stratifiable rule set has exactly one stable model over any data |
| SrlEngine.BuildDeps | shacl/srl_stratify.go:22-41 | the nested loops build the dependency graph of the rules |
| SrlEngine.Stratify | shacl/srl_stratify.go:8-91 | an error exactly when the levels are refused, else every rule is in the stratum of its level, in rule order |
| SrlEngine.GroupRules | shacl/srl_stratify.go:79-90 | every rule is in the stratum of its level, each stratum in rule order |
| SrlEngine.Engine.MatchElements | shacl/srl_eval.go:152-185 | returns exactly the bindings that solve the body in the current triples |
| SrlEngine.Engine.ApplyRule | shacl/srl_eval.go:101-112 | returns exactly the new triples the rule derives |
| SrlEngine.Engine.Round | shacl/srl_eval.go:99-113 | one round adds exactly the consequences of the stratum's rules in the triples before it |
| SrlEngine.Engine.EvalStratum | shacl/srl_eval.go:96-122 | ends with what 1000 rounds reach, stopping early only at a fixed point, and says (ghost) whether it did |
| SrlEngine.Engine.Load | shacl/srl_eval.go:35-57 | the triples are those of the data graph and of the DATA blocks |
| SrlEngine.Engine.EvalStrata | shacl/srl_eval.go:65-77 | the strata in order compute the capped run the lemmas are about, and nothing is lost |
| SrlEngine.Engine.Evaluate | shacl/srl_eval.go:26-84 | an error exactly when stratification refuses, else the keys of the capped run that are not data. Without a cycle through NOT and with IRIs or variables as head predicates, the data with what was inferred is the one stable model if and only if it is closed under the rules; it is when no stratum was cut off, and so for every set of at most 1000 rules none of which feeds itself, and for rules without BIND whose keys cubed are at most the number of triples plus 1000 |
| SrlEngine.CappedRunCorrect | shacl/srl_eval.go:66-122 | the set the engine computes is the stable model exactly when it is closed under the rules |
| SrlEngine.UncutRunIsClosed | shacl/srl_eval.go:96-122 | it is closed whenever each stratum ended with no new triple |
| SrlEngine.ConfinedRunIsUncut | shacl/srl_eval.go:96-122 | rules that make no new keys over few keys never reach the round limit |
| SrlEngine.LayeredRunIsUncut | shacl/srl_eval.go:96-122 | at most 1000 rules none of which feeds itself never reach the round limit, over any data and with BIND |
| SrlLayers.LayersSettle | shacl/srl_eval.go:96-122 | a stratum settles after as many rounds as its longest chain of rules that feed each other |
| SrlLayers.LayerIsDone | shacl/srl_eval.go:96-122 | what a rule derives in any round it derives by the round after its place in such a chain |
| SrlLayers.NonRecursiveLayers | shacl/srl_stratify.go:24-41 | without a cycle of dependencies every rule has such a place, below the number of rules |
| SrlEngine.RunIsModel | shacl/srl_eval.go:66-122 | the capped run is the one stable model if and only if it is closed, and a caller can tell from the rules and the data that it will be |
| SrlBounds.TriplesOver | shacl/srl_eval.go:96-122 | there are at most the cube of the keys triples over a set of keys |
| SrlBounds.BindFreeStays | shacl/srl_eval.go:152-200 | without BIND, rules derive triples over the keys of the data and the rules only |
| SrlBounds.DerivesOver | shacl/srl_eval.go:101-112 | what a rule derives stays over any set of keys that holds the facts and that the rule does not leave |
| SrlBounds.RoundsOver | shacl/srl_eval.go:96-122 | so does every round |
| SrlBounds.EnoughRounds | shacl/srl_eval.go:96-122 | as many rounds as there can still be new triples end in a closed set |
| SrlGraphs.EvalRuleSet | shacl/srl_eval.go:26-94 | the whole call on graphs of terms, with what was inferred written to the graph returned. Refused exactly when stratification refuses; a panic exactly when an inferred triple cannot be written, which without BIND means that its subject is a literal; where the engine is sure to find the model, the graph returned completes it if and only if every inferred triple comes back as it was written, and that is sure when heads take subjects from subjects and predicates from predicates |
| SrlGraphs.WriteAll | shacl/srl_eval.go:79-94 | all inferred triples are decoded, converted and written, or there is a panic, whatever the order |
| SrlGraphs.WritableIff | shacl/rdf.go:215-224 | without BIND the only triple that cannot be written is one with a literal as its subject |
| SrlGraphs.CompletesIff | shacl/srl_eval.go:79-94 | the graph written completes the model exactly when every inferred triple is kept |
| SrlGraphs.WrittenIsKept | shacl/rdf.go:215-262 | whatever is written is of a kind that is kept, so a triple of another kind is lost |
| SrlGraphs.KeptIsWritten | shacl/rdf.go:215-262 | a triple of that kind is written as it is |
| SrlGraphs.StaysRdfKeeps | shacl/srl_eval.go:66-122 | rules that keep terms in their positions derive kept triples only, in every round of every stratum |
| SrlGraphs.SureModel | shacl/srl_eval.go:66-122 | where it is sure to, the run finds the one stable model |
| SrlTerms.TripleKeptIff | shacl/rdf.go:215-262 | a triple comes back as it was if and only if its subject is an IRI or a labelled blank node, its predicate an IRI, and its literal has no tag or a normal one |
| SrlTerms.TagKeptIff | term/literal.go:55-73 | a language tag comes back as it was if and only if it is a valid one in lower case, alone or with a direction |
| SrlTerms.StoredTagIsNormal | term/literal.go:55-105 | a tag that was stored is stored the same again |
| SrlKinds.RunKinds | shacl/srl_eval.go:66-122 | what holds of the terms in each position of the data holds of everything derived, for rules without BIND that keep positions |
| SrlKinds.SolvesKinds | shacl/srl_eval.go:152-200 | a solution gives a variable that is the subject or predicate of a pattern something that was one |
| SrlLosses.LiteralSubjectPanics | shacl/srl_eval.go:79-92 | one rule and one triple on which the call panics: the conclusion has a literal as its subject |
| SrlLosses.PredicateIsChanged | shacl/rdf.go:226-229 | one on which a literal predicate is turned into an IRI and the model is not completed |
| SrlLosses.TagIsChanged | term/literal.go:55-62 | one on which a tag is put in lower case and the model is not completed |
| SrlGraphs.RunAreKeys | shacl/srl_eval.go:66-122 | without BIND every key the run holds is the key of a term |
| SrlGraphs.KeyReturns | shacl/srl_eval.go:301-346 | encoding a decoded key gives the key back |
| SrlLimits.NoRoundIsLast | shacl/srl_eval.go:96-122 | one rule that BINDs "1?y", over data of two IRIs: every number of rounds leaves a triple to derive |
| SrlLimits.PrefixedWithOne | shacl/srl_eval.go:445-459 | substituting and trimming as the code does, that expression puts a 1 before the key bound to ?y |
| SrlLimits.CutRunIsNotStable | shacl/srl_eval.go:96-122 | on it the engine reports no error and returns a set that is not a stable model |
| SrlRing.RingRulesDeps | shacl/srl_stratify.go:24-41 | four rules whose dependencies are the ring above |
| SrlRing.AcceptedRingMisleads | shacl/srl_eval.go:66-122 | evaluated over one triple they are accepted, and the result holds a conclusion without its premise and is not closed under the rules |
| SrlKeys.EscapeLiteralValue | shacl/srl_eval.go:260-279 | the loop computes the escaping the lemmas are about |
| SrlKeys.UnescapeLiteralValue | shacl/srl_eval.go:348-372 | the loop computes the inverse used in decoding, for any text, a trailing backslash included |
| SrlKeys.ParseKeyLiteral | shacl/srl_eval.go:316-346 | the scan for the closing quote and the suffix cases decode a literal key |
| SrlKeys.UnescapeEscape | shacl/srl_eval.go:260-372 | unescaping undoes escaping for every text |
| SrlKeys.ClosingQuoteFound | shacl/srl_eval.go:317-329 | the scan finds the quote that closes the literal, whatever its text and whatever follows |
| SrlKeys.RoundTrip | shacl/srl_eval.go:282-346 | decoding an encoded key gives back the term, for every IRI, blank node and literal with any text |
| SrlKeys.EncodeInjective | shacl/srl_eval.go:282-299 | two terms have the same key if and only if they are the same term |
| SrlKeys.ConstantMatchesItself | shacl/srl_eval.go:202-258 | a constant in a rule matches a data term's key if and only if it denotes that term |
| UnionFinds.MergeRepresents | reasoning/unionfind.go:64-89 | linking two roots makes "same root" the equivalence closure of the pairs united so far, the new one included |
| UnionFinds.MergeBalanced | reasoning/unionfind.go:73-88 | union by rank keeps two to the rank of a root within the size of its class |
| UnionFinds.HalveForest | reasoning/unionfind.go:45-48 | path halving changes no root |
| UnionFinds.UnionFind.Add | reasoning/unionfind.go:29-37 | a new key is alone in its class, a known one changes nothing |
| UnionFinds.UnionFind.FindKey | reasoning/unionfind.go:40-50 | returns the root, changes none, and walks at most logarithmically many steps in the class size; an unknown key is returned as it is |
| UnionFinds.UnionFind.Link | reasoning/unionfind.go:73-88 | putting one root under the other unites exactly their two classes |
| UnionFinds.UnionFind.Union | reasoning/unionfind.go:64-89 | the classes become those of the equivalence closure with the new pair |
| UnionFinds.UnionFind.Group | reasoning/unionfind.go:94-98 | every key is listed once, under its root |
| UnionFinds.UnionFind.Classes | reasoning/unionfind.go:93-106 | returns exactly the classes with more than one member, each once, each with all its members once |
| Closures.UniverseIsClosed | reasoning/entailment.go:52-88 | the finitely many triples over the terms of a graph are closed under all the rules, so every fixed-point loop is bounded |
| Closures.EntailedIsBounded | reasoning/entailment.go:52-88 | no entailed graph is larger than that |
| GraphAccess.Stopper.Add | reasoning/cancel.go:84-91 | a write happens or stops the run, and a stopped run writes nothing more |
| GraphAccess.AddAll | reasoning/rdfs.go:76-95 | a prefix of the batch is written, its length is returned and is the growth of the graph, and all of it is written unless the run stops |
| GraphAccess.ReadTriples | reasoning/cancel.go:55-68 | a scan that was not stopped returns each triple of the graph once |
| GraphAccess.ScanPredicate | reasoning/rdfs.go:106-148 | a scan that was not stopped indexes exactly the triples of one predicate |
| GraphAccess.Supers | reasoning/rdfs.go:162-179 | the breadth-first search from one key finds exactly what it reaches in one or more steps |
| GraphAccess.TransitiveClose | reasoning/rdfs.go:159-182 | the closed index holds a pair if and only if the index reaches one from the other |
| RdfsEngine.StillUpToDate | reasoning/rdfs.go:87-100 | indexes stay right while only non-schema triples are added |
| RdfsEngine.EmitsIsSound | reasoning/rdfs.go:185-239 | whatever a pass derives from closed indexes lies in every graph closed under the one-step rules |
| RdfsEngine.QuietPassIsClosed | reasoning/rdfs.go:67-73 | a pass that finds nothing new means closure under the one-step rules |
| RdfsEngine.Engine.BuildSchemaIndexes | reasoning/rdfs.go:106-154 | unless stopped, the indexes are those of the present graph |
| RdfsEngine.Engine.ApplyTo | reasoning/rdfs.go:185-239 | one triple contributes exactly what the indexes derive from it |
| RdfsEngine.Engine.ApplyRules | reasoning/rdfs.go:185-239 | a pass collects exactly what the indexes derive from the graph's triples and is not known yet |
| RdfsEngine.Engine.Turn | reasoning/rdfs.go:66-101 | one turn adds only entailed triples, keeps the indexes right for the next, and ends the loop only at closure or at a stop |
| RdfsEngine.Engine.Write | reasoning/rdfs.go:75-100 | the batch is written, indexes are rebuilt if it held a schema triple, and either they are right for the next turn or the run has stopped |
| RdfsEngine.Engine.Run | reasoning/rdfs.go:51-104 | uninterrupted it ends with the least superset of the input closed under rdfs2, rdfs3, rdfs7 and rdfs9; stopped anywhere the graph lies between input and closure; the count is the number of triples added |
| OwlEngine.StillUpToDate | reasoning/owlrl.go:154-162 | triples that are not schema triples leave the indexes and the sameAs classes right |
| OwlEngine.EmitsIsForced | reasoning/owlrl_property.go:14-51 | whatever the per-triple axioms derive lies in every closed supergraph |
| OwlEngine.SameAsChain | reasoning/owlrl_equality.go:12-26 | a chain of sameAs triples read in either direction forces the triple between its ends |
| OwlEngine.EqualForced | reasoning/owlrl_equality.go:12-26 | so does any chain between two different terms of which the first can be a subject |
| OwlEngine.EqualSubject | reasoning/owlrl_equality.go:28-76 | with a forced triple, the one with an equal subject is forced |
| OwlEngine.EqualObject | reasoning/owlrl_equality.go:28-76 | so is the one with an equal object, literals included |
| OwlEngine.SubstitutionForced | reasoning/owlrl_equality.go:28-76 | replacing subject and object by equals is forced |
| OwlEngine.PropertyEdges | reasoning/owlrl_property.go:77-90 | the edges of each transitive property that occurs, exactly |
| OwlEngine.WalkCandidates | reasoning/owlrl_property.go:92-119 | from one triple, a conclusion for everything its object reaches, itself excepted |
| OwlEngine.MemberIndex | reasoning/owlrl_equality.go:30-35 | every member of a class is found under the whole class |
| OwlEngine.IndexClass | reasoning/owlrl_equality.go:31-35 | one class is indexed under each of its members, and no other entry changes |
| OwlEngine.Beyond | reasoning/owlrl_property.go:100-118 | the walk along a transitive property finds exactly what is reached, the start excepted |
| OwlEngine.HubCandidates | reasoning/owlrl_property.go:166-174 | the first subject of a group is linked both ways with each of the others and nothing else is derived |
| OwlEngine.QuietEquality | reasoning/owlrl_equality.go:9-77 | if all substitutions are present, so is every conclusion of the equality rules |
| OwlEngine.QuietAxioms | reasoning/owlrl_property.go:10-175 | if a complete pass found nothing, so is every conclusion of the property and class axioms |
| OwlEngine.QuietPassIsClosed | reasoning/owlrl.go:595-630 | a complete pass that found nothing new leaves a graph closed under all the OWL rules modelled |
| OwlEngine.Engine.BuildSchemaIndexes | reasoning/owlrl.go:215-336 | unless stopped, the indexes and the sameAs classes are those of the present graph |
| OwlEngine.Engine.ApplyEquality | reasoning/owlrl_equality.go:9-77 | unless stopped, all pairs of equals and all substitutions in every triple are known, and only forced triples were added |
| OwlEngine.Engine.ApplyAxioms | reasoning/owlrl_property.go:14-51 | unless stopped, all per-triple conclusions are known, and only forced triples were added |
| OwlEngine.Engine.ApplyTransitive | reasoning/owlrl_property.go:69-121 | unless stopped, every two steps of a transitive property are composed, and only forced triples were added |
| OwlEngine.Engine.ApplyInverseFunctional | reasoning/owlrl_property.go:152-175 | unless stopped, the subjects sharing a value are linked through the first of them, and only forced triples were added |
| OwlEngine.Engine.ApplyRules | reasoning/owlrl.go:595-630 | a pass over one snapshot is complete unless stopped |
| OwlEngine.Engine.Turn | reasoning/owlrl.go:134-163 | one turn adds only entailed triples and ends the loop only at closure or at a stop |
| OwlEngine.Engine.Write | reasoning/owlrl.go:141-163 | the batch is written, indexes and sameAs classes are rebuilt if it held a schema triple, and either all is ready for the next turn or the run has stopped |
| OwlEngine.Engine.Run | reasoning/owlrl.go:124-169 | uninterrupted it ends with the least graph closed under the OWL rules modelled and the inconsistencies of that graph; stopped, in the consistency check too, it lies between; the count is exact |
| Entailment.ExpandCheck | reasoning/entailment.go:43-89 | an unknown regime is refused untouched; a finished run leaves the least graph closed under the RDFS and OWL rules together, reports the inconsistencies of exactly that graph and the exact number of triples added; a stopped one lies between and reports none |
| Entailment.Alternate | reasoning/entailment.go:61-88 | the alternation of two engines that do not know each other's rules terminates, and where neither adds a triple the graph is jointly closed |
| EntailmentGaps.ChainIsNotComposed | reasoning/rdfs.go:11-17 | rdfs11 and rdfs5, which the comment lists, do not hold: a chain of two subclass (or subproperty) triples is its own RDFS closure |
| EntailmentGaps.NoNewTriples | reasoning/rdfs.go:185-239 | without subproperties of it, no triple of a predicate other than rdf:type is ever added |
| EntailmentGaps.HierarchyClosedIff | reasoning/rdfs.go:11-17 | whatever subproperties are stated, the closure is transitive on a hierarchy if and only if the input is after rdfs7 alone (rdf:type not being given properties above it) |
| EntailmentGaps.HierarchyAsWritten | reasoning/rdfs.go:11-17 | and where neither predicate has subproperties, if and only if the input is as written |
| EntailmentGaps.OnlyTypesMore | reasoning/rdfs.go:185-239 | beyond rdfs7 the rules add rdf:type triples only |
| EntailmentGaps.ClosureSpells | reasoning/owlrl_equality.go:28-76 | on graphs of facts and sameAs triples, the closure holds nothing but the input's triples with equals put for subjects and objects |
| EntailmentGaps.PredicatesReplacedIff | reasoning/owlrl_equality.go:9-76 | so eq-rep-p, which the comment lists, holds in the closure if and only if the facts of the input already agree on equal predicates |
| EntailmentGaps.RenamedFactIsMissing | reasoning/owlrl_equality.go:28-76 | one fact and two equal predicates for which it fails |
| RwLocks.RwLock.TryRead | endpoint/lock.go:37-45 | a step of the protocol that keeps it safe: the thread reads from now on if and only if no thread writes or waits to write, else it waits on the present channel |
| RwLocks.RwLock.ReleaseRead | endpoint/lock.go:54-65 | a step that keeps it safe: the thread reads no longer, the last one out leaves nobody asleep, and a reader is never told that it held nothing |
| RwLocks.RwLock.EnterWrite | endpoint/lock.go:69-72 | a step that keeps it safe: the thread writes if and only if no thread reads or writes, else it is among the waiting writers and no reader is admitted |
| RwLocks.RwLock.RetryWrite | endpoint/lock.go:71-88 | a step that keeps it safe: a woken writer writes, alone, if and only if no thread reads or writes |
| RwLocks.RwLock.CancelWrite | endpoint/lock.go:77-83 | a step that keeps it safe: the thread is no longer among the waiting writers and nobody is left asleep |
| RwLocks.RwLock.ReleaseWrite | endpoint/lock.go:92-101 | a step that keeps it safe: nobody holds the lock, nobody is left asleep, and a writer is never told that it held nothing |
| RwLocks.Threads.Do | endpoint/lock.go:36-101 | any thread attempting any action on the shared lock takes exactly that step of the protocol, or none if it is not in a place to |
| RwLocks.Threads.Run | endpoint/lock.go:36-101 | for every schedule of threads calling these methods, the states passed through are a run of the protocol and all of them are safe |
| RwLocks.FieldsMean | endpoint/lock.go:16-25 | in a safe state the three counters say who reads, writes and waits |
| RwLocks.StepKeepsAccurate | endpoint/lock.go:36-101 | every step of every thread, cancellations included, keeps the counters equal to the threads they count and a writer alone |
| RwLocks.StepKeepsWakeups | endpoint/lock.go:30-101 | every step keeps it true that a thread blocked on the open channel has a false guard |
| RwLocks.RunsAreSafe | endpoint/lock.go:36-101 | both hold in every state of every run |
| RwLocks.WriterExcludes | endpoint/lock.go:68-90 | while a thread writes no other thread reads or writes |
| RwLocks.NoAdmission | endpoint/lock.go:39-43 | as long as a writer waits or writes, the set of readers inside only shrinks |
| RwLocks.WaitingWriterHoldsReadersBack | endpoint/lock.go:36-90 | from the moment a writer is counted until it gets the lock or gives up no reader is admitted |
| RwLocks.WriterGetsIn | endpoint/lock.go:68-90 | a waiting writer has steps into a free lock |
| RwLocks.ReaderGetsIn | endpoint/lock.go:36-52 | so has a waiting reader when no writer waits |
| RwLocks.FreeLockIsTaken | endpoint/lock.go:36-101 | whenever the lock is free and somebody wants it, steps of the threads present lead to somebody holding it |
| DocumentLoader.CachingLoader.AddDocument | jsonld/loader.go:63-69 | a step of the protocol that keeps it safe: the URL is cached with the document, and which other URLs are cached does not change |
| DocumentLoader.CachingLoader.LookUp | jsonld/loader.go:83-89 | a step that keeps it safe: what is found was not waited for before, nothing is found only if no other caller is fetching the URL, and a cached URL is found |
| DocumentLoader.CachingLoader.Note | jsonld/loader.go:100-100 | a step that keeps it safe: a document fetched is cached under its URL, a failure goes on to be forgotten |
| DocumentLoader.CachingLoader.Forget | jsonld/loader.go:101-107 | a step that keeps it safe: the failed entry is not registered any more, other entries are, and whatever was cached still is |
| DocumentLoader.CachingLoader.Close | jsonld/loader.go:108-109 | a step that keeps it safe: the caller returns its document, which is cached, or the error of its own fetch |
| DocumentLoader.CachingLoader.Wake | jsonld/loader.go:90-97 | a step that keeps it safe: the waiter returns a cached document or starts over, and the entry that failed is not registered |
| DocumentLoader.Callers.Do | jsonld/loader.go:63-110 | any caller attempting any action takes exactly that step of the protocol, or none if it is not in a place to |
| DocumentLoader.Callers.Run | jsonld/loader.go:63-110 | for every schedule of callers, the states passed through are a run of the protocol and all of them are safe |
| DocumentLoader.StepKeepsCache | jsonld/loader.go:63-110 | every step keeps the cache consistent and changes only the entry the mover owns |
| DocumentLoader.StepKeepsCallers | jsonld/loader.go:82-110 | every step keeps what each caller knows about its entry true |
| DocumentLoader.StepKeepsOwners | jsonld/loader.go:82-110 | every step keeps each unfinished entry in the hands of a caller working on it |
| DocumentLoader.StepKeepsSingle | jsonld/loader.go:82-110 | every step keeps at most one fetch per URL in progress |
| DocumentLoader.StepKeepsCached | jsonld/loader.go:63-110 | every step keeps what is cached cached |
| DocumentLoader.RunsKeepInv | jsonld/loader.go:63-110 | all of this holds in every state of every run |
| DocumentLoader.SingleFlight | jsonld/loader.go:82-110 | at most one call to the underlying loader per URL is in progress, in every state of every run |
| DocumentLoader.StaysCached | jsonld/loader.go:63-110 | a cached URL stays cached for the rest of the run |
| DocumentLoader.LoadedForGood | jsonld/loader.go:82-110 | once loaded or added, a URL is never fetched again, whatever fails later |
| DocumentLoader.CallersAreServed | jsonld/loader.go:90-109 | in every state of every run, a caller that returned a document returned one that was loaded or added for its URL, one that returned an error made the failed fetch of its URL itself, and one that waits does so for the first time on its entry, which is finished or being worked on |
| Skolem.SignaturesInvariant | graph/skolem.go:203-238 | renaming blank nodes by any bijection and permuting the triples leaves every node's signature the same after refinement, for any hash |
| Skolem.IdSetInvariant | graph/skolem.go:186-254 | the set of minted ids is the same for every relabelling and order |
| Skolem.LoneNodeKeepsId | graph/skolem.go:240-253 | a node alone in its class keeps its id |
| Skolem.StableIdsInjective | graph/skolem.go:240-253 | no two nodes share an id even when hashes collide |
| Skolem.BuildIncident | graph/skolem.go:187-196 | each blank node is listed with exactly the triples it occurs in |
| Skolem.NodeSignature | graph/skolem.go:207-230 | one node's signature is the hash of its sorted surroundings |
| Skolem.ListNames | graph/skolem.go:197-201 | the labels in order, each once |
| Skolem.RefineAll | graph/skolem.go:221-231 | one round refines the signatures of all nodes from the ones before |
| Skolem.RefineFrom | graph/skolem.go:218-238 | the loop with its early exit and round limit computes the refinement the lemmas are about |
| Skolem.Refined | graph/skolem.go:203-238 | from empty signatures it computes the final ones |
| Skolem.NumberNodes | graph/skolem.go:240-253 | nodes sharing a signature are numbered in label order |
| Skolem.StableBNodeIds | graph/skolem.go:186-254 | the three phases compute the ids the lemmas are about |
| SkolemGraphs.StableOutput | graph/skolem.go:60-95 | graphs that differ in labels and triple order only are Skolemized to the same graph, when the hash tells all their nodes apart |
| SkolemGraphs.SameMinted | graph/skolem.go:60-95 | so is every triple of them |
| SkolemSymmetry.StableOutputIff | graph/skolem.go:35-48 | the Skolemized graph is the same for all labels and orders if and only if nodes with the same signature can be exchanged without changing the graph |
| SkolemSymmetry.SwappedOutput | graph/skolem.go:240-253 | the output for other labels is that of the graph with nodes of the same signature exchanged |
| SkolemSymmetry.SameLabelSameId | graph/skolem.go:186-254 | exchanging the labels of such nodes leaves every label its id |
| SkolemGraphs.LabelsSeparate | graph/skolem.go:75-83 | in label mode different blank nodes are minted to different IRIs |
| SkolemGraphs.StableIdsSeparate | graph/skolem.go:75-83 | so they are in stable mode |
| SkolemGraphs.ReturnsWhenNothingUnder | graph/skolem.go:60-134 | the isomorphism, for every graph without IRIs under the prefix |
| SkolemGraphs.MintAll | graph/skolem.go:89-93 | minting triple by triple gives the Skolemized graph |
| SkolemGraphs.RoundTripIff | graph/skolem.go:60-134 | de-Skolemizing a Skolemized graph gives an isomorphic graph if and only if no subject or object IRI started with the prefix |
| SkolemGraphs.Skolemize | graph/skolem.go:60-95 | every blank node is replaced by the IRI of its id or label and nothing else changes |
| SkolemGraphs.UnmintOne | graph/skolem.go:108-119 | an IRI with the prefix gets one new blank node, the same one each time, and other terms are kept |
| SkolemGraphs.UnmintNodes | graph/skolem.go:128-132 | both ends of a triple are replaced with one memo |
| SkolemGraphs.DeSkolemize | graph/skolem.go:101-134 | all IRIs with the prefix are replaced by distinct blank nodes that are none of the graph's own |
| SkolemGraphs.ThereAndBack | graph/skolem.go:60-134 | the two operations one after the other, in either mode, give an isomorphic graph if and only if no subject or object IRI started with the prefix |
| SkolemGraphs.SkolemizedHasNoBlanks | graph/skolem.go:60-95 | no blank node is left |
| StringOrder.SortDependsOnContents | graph/skolem.go:228-229 | sorting gives the same text for every order of the same parts |
| StringOrder.ItoaInjective | graph/skolem.go:250-250 | different numbers have different numerals |
| Paths.YieldsIsRel | paths/paths.go:40-403 | on any graph, for any path and endpoints that no literal gets in the way of, evaluation yields exactly the pairs of the path's relation that fit the endpoints |
| Paths.ForwardIsRel | paths/paths.go:281-311 | the forward traversal reaches exactly what the relation of a repetition does, from any node a step can be taken from |
| Paths.BackwardIsRel | paths/paths.go:317-337 | so does the backward traversal |
| Paths.RepeatIsRel | paths/paths.go:198-271 | a repetition yields its relation whichever end it starts from |
| Paths.FaithfulIffLiteralFree | paths/paths.go:40-53 | evaluation agrees with the relation on all paths and endpoints if and only if the graph has no literal |
| Paths.LiteralFreeFits | paths/paths.go:40-403 | on graphs without literals nothing gets in the way, whatever the path, with endpoints unbound or in the graph |
| Paths.SequenceDropsLiteral | paths/paths.go:81-111 | a sequence loses a pair of its relation that passes through a literal |
| Paths.YieldsKnown | paths/paths.go:40-403 | evaluation makes up no terms |
| PathEval.Eval | paths/paths.go:40-403 | over a store without reachability queries on any graph, and over one that answers some of them, through a cache, wherever the path and endpoints fit: exactly the pairs described, cyclic data included, and no pair of a repetition twice |
| PathEval.EvalPath | paths/paths.go:16-403 | the whole evaluation over any graph of a dataset yields exactly the path's relation at the endpoints, whatever the store answers or declines and whatever the cache already holds, on graphs without literals or wherever they are not in the way |
| PathEval.MatchTriples | paths/paths.go:367-403 | the pairs of one step over the allowed predicates that fit the endpoints |
| PathEval.EvalSeq | paths/paths.go:81-111 | a sequence joins its steps, never through a literal |
| PathEval.EvalRepeat | paths/paths.go:198-271 | the store is asked first, and otherwise traversed forward, backward or from all nodes; either way exactly the pairs of the repetition, each once |
| PathEval.FromEnd | paths/paths.go:214-243 | from a bound end, by the store or by traversal, the pairs at distance one or more are added, and what was there is kept |
| PathEval.ZeroPairs | paths/paths.go:216-238 | the pairs of length zero that fit the endpoints |
| PathEval.Visit | paths/paths.go:281-337 | the depth-first search expands every node it newly sees and emits only pairs on its way |
| PathEval.From | paths/paths.go:281-337 | a whole traversal adds exactly the pairs reachable from its origin |
| PathEval.Neighbours | paths/paths.go:288-330 | the nodes one step of the repeated path away, in either direction |
| PathEval.TraversalComplete | paths/paths.go:281-337 | a search that has expanded all it saw has emitted everything reachable |
| PathEval.FromAllNodes | paths/paths.go:245-268 | with both ends open the pairs from every node of the graph are yielded once |
| Reachability.FlattenPreserves | paths/reachability.go:23-67 | a flattened path has the same pairs as the path, on every graph |
| Reachability.FlattenAlternativesPreserves | paths/reachability.go:44-61 | merging alternatives of one direction gives exactly the union of their pairs |
| Reachability.Traverse | store/reachability.go:91-177 | the breadth-first search of the store returns exactly the nodes at distance one or more, each once |
| Reachability.SearchStep | store/reachability.go:131-174 | expanding one node keeps the search right: everything emitted is reached, and everything next to an expanded node is emitted |
| Reachability.SearchComplete | store/reachability.go:131-174 | with nothing left to expand, exactly what is reached has been emitted |
| Reachability.Reachable | store/reachability.go:64-81 | a store declines or answers with exactly those nodes, each once |
| Reachability.ReachKeyInjective | paths/reach_cache.go:76-97 | different queries, over whichever graph of the dataset, have different cache keys, NUL in a literal included, as long as a term's key shows where it ends |
| Reachability.QuotedShowsItsEnd | term/literal.go:254-272 | a quoted literal's key does, whatever its text and whatever follows the separator |
| Reachability.NulFreeKeysAreGood | term/key.go:6-24 | so do keys without NUL |
| Reachability.ReachCache.Ask | paths/reach_cache.go:52-71 | one cache for all graphs of a dataset: every answer, cached or fetched, is right for the graph and the query asked about, and a refusal is not remembered |
| Reachability.EvalViaStore | paths/reachability.go:80-140 | it declines and emits nothing, or emits exactly the pairs at distance one or more from the bound end |
| Reachability.PushedIsReach | paths/reachability.go:80-140 | wherever the path and endpoints fit these are the pairs of the local traversal, forward and backward |
| Reachability.FlippedBothWays | paths/reachability.go:101-104 | turning the query round and starting from the object asks for the same pairs |
| Reachability.PushdownDiffersAtLiterals | paths/reachability.go:80-140 | two literals of one subject that the local traversal relates and the store does not |
| Reachability.PushdownAgreesIffLiteralFree | paths/paths.go:223-243 | store and local traversal give the same pairs for every repetition that can be pushed down and all endpoints if and only if the graph has no literal |
| RecursionGuards.RecursionGuard.Enter | shacl/shapes.go:233-256 | scanning or hashing, it answers as a set of the pairs in progress would and adds the pair |
| RecursionGuards.RecursionGuard.Leave | shacl/shapes.go:260-271 | the set is what it was before the matching enter |
| RecursionGuards.RecursionGuard.PushSingle | shacl/shapes.go:203-212 | the new slice holds its term and every slice handed out before still holds its own, across growth |
| RecursionGuards.RecursionGuard.PopSingle | shacl/shapes.go:215-219 | only the latest slice is released |
| RecursionGuards.RecursionGuard.RunEntered | shacl/validator.go:179-196 | a node shape's constraints all find its focus node in their slice, after everything nested in the ones before, and a property shape has no slice |
| RecursionGuards.RecursionGuard.Run | shacl/validator.go:163-232 | a run over references of any shape, cyclic ones included, ends, skips exactly the pairs in progress, stops after the first violated constraint if it is quick, reads each focus node from its slice, and leaves the guard as it found it |
| RecursionGuards.RecursionGuard.RunPlan | shacl/logical.go:13-110 | a constraint goes through its value nodes and their pairs to the end, quick or not, and goes on by what it hears |
| RecursionGuards.RecursionGuard.RunAsked | shacl/validator.go:274-299 | a pair that is only asked about is run quickly, another in the mode at hand |
| RecursionGuards.RecursionGuard.NodeConforms | shacl/validator.go:280-295 | a quick run answers as validation without any quick mode would, and the mode is what it was |
| RecursionGuards.ModeIsInvisible | shacl/validator.go:280-295 | in no mode is a pair's verdict different, negation and cyclic references included |
| RecursionGuards.QuickLeavesOut | shacl/validator.go:181-196 | what a quick run observes is what the full run does with some of it left out |
| RecursionGuards.PlanDecides | shacl/validator.go:280-295 | in every mode a constraint comes to what the verdicts without quick mode make of it |
| RecursionGuards.LogicIsLogic | shacl/logical.go:13-113 | sh:and, sh:or and sh:xone are violated exactly when some value node has a pair that does not conform, none that does, or not one that does; sh:node and sh:not when some pair does not or does; all by runs without quick mode |
| RdfLists.WalkOfList | graph/collection.go:46-75 | on a list the walk visits its nodes in order |
| RdfLists.AppendReads | graph/collection.go:84-109 | after every prefix of the writes the list reads as before or with the item at the end, and after all of them it reads with the item and is well formed if and only if its head is not rdf:nil |
| RdfLists.StageKeepsOrExtends | graph/collection.go:84-109 | the same for every list at the head, empty or not |
| RdfLists.NilGetsItems | graph/collection.go:90-96 | appending to a collection at rdf:nil gives rdf:nil an item of its own, and what was well formed no longer is |
| RdfLists.AppendTouchesOnly | graph/collection.go:84-109 | only an rdf:rest of the old last node disappears, and only triples about the new node, that node or an empty head appear |
| RdfLists.OtherListsKept | graph/collection.go:84-109 | a list that shares neither node reads the same throughout |
| RdfLists.ClearedIsEmpty | graph/collection.go:181-201 | a cleared collection reads as empty |
| RdfLists.Collection.ListNodes | graph/collection.go:46-75 | on any graph, cyclic or malformed, a finite walk over distinct nodes that stops for one of the code's reasons; on a list its nodes |
| RdfLists.Collection.Items | graph/collection.go:160-177 | the items of a walk up to the first node without one; on a list its items |
| RdfLists.Collection.End | graph/collection.go:206-219 | nothing exactly when the head has no item, else the last node of a walk |
| RdfLists.Collection.Append | graph/collection.go:84-109 | however far it gets, a list keeps its items or has the new one at its end, and on success it is well formed exactly when its head is not rdf:nil |
| RdfLists.Collection.AppendAfter | graph/collection.go:89-108 | the writes stop at the first that fails, and the new node is complete before the list refers to it |
| RdfLists.Collection.Clear | graph/collection.go:181-201 | removes only list triples of the walk's nodes, and on success all of them |
| XmlNames.SplitIri | rdfxml/serializer_names.go:144-167 | splits off the longest suffix that is a name, if a namespace is left and the decoder accepts it |
| XmlNames.TakesLongestIff | rdfxml/serializer_names.go:138-167 | this is the longest acceptable split if and only if no shorter one is acceptable when the longest name is the whole IRI or refused |
| XmlNames.AsciiTakesLongestIff | rdfxml/serializer_names.go:138-167 | on ASCII text it fails exactly for names that have a second place to start; every IRI with a colon is split as promised |
| XmlNames.BareNameMissed | rdfxml/serializer_names.go:160-162 | a two-letter name that is not split although it could be |
| XmlNames.JoinSpells | rdfxml/serializer_names.go:81-111 | a declared prefix and a local name read back as namespace plus local name |
| XmlNames.NextFree | rdfxml/serializer_names.go:117-125 | the first generated name after the counter that is not taken, and there always is one |
| XmlNames.NsTable.constructor | rdfxml/serializer_names.go:35-71 | the declarations are the reserved ones and, for every other namespace, the least usable prefix bound to it |
| XmlNames.NsTable.Qname | rdfxml/serializer_names.go:81-93 | the maps stay inverse and only grow; the name returned spells the IRI, and is empty exactly when no namespace fits and the IRI has no split |
| XmlNames.NsTable.NewQname | rdfxml/serializer_names.go:85-90 | a bound namespace is preferred over a generated one |
| XmlNames.NsTable.LookupBound | rdfxml/serializer_names.go:97-111 | the name under the longest declared namespace that leaves a valid local name, in any iteration order |
| XmlNames.NsTable.BestBound | rdfxml/serializer_names.go:98-106 | the longest declared namespace that leaves a local name, or none |
| XmlNames.NsTable.PrefixFor | rdfxml/serializer_names.go:113-126 | the namespace has the returned prefix and no declaration is lost |
| XmlNames.NsTable.QnameAll | rdfxml/serializer_names.go:81-126 | over any calls, every name returned expands under the final declarations to the IRI it was asked for |
| XmlNames.CollectLabels | rdfxml/serializer.go:256-264 | collects exactly the blank node labels of a term, nested ones included |
| XmlNames.NodeLabels.NodeId | rdfxml/serializer.go:237-254 | a valid NCName, the label itself if it is one, otherwise one that no blank node of the graph has |
| XmlNames.NodeLabels.NodeIds | rdfxml/serializer.go:237-254 | over any calls, two blank nodes of the graph get the same name if and only if they are the same |

## Left out

- HTTP handlers, the Graph Store Protocol, options, logging, files and the network.
- JSON-LD expansion, XML decoding and the SPARQL engine; whether the XML decoder accepts a name is a parameter.
- FILTER and BIND expressions are functions given as parameters; only `srl_limits` uses the substitution the code makes for BIND.
- OWL restrictions, lists, hasKey, property chains, functional properties and the rest of the class rules.
- The inconsistency rules: the check is a parameter that reads the graph through the stopper, and what is proved is which graph it ran on.
- The SHACL constraint components other than sh:and, sh:or, sh:xone, sh:not and sh:node, and shacl/paths.go.
- Triple terms in Skolemization, and text that is not valid UTF-8 (text is a sequence of Unicode characters).
- When contexts are polled: a stop is an event that may happen at any poll, read or write; stopping early inside property paths is not modelled.
- Labels that the library makes up for blank nodes are any new texts, and those of nodes written without a label any non-empty ones.
- SHA-256 is any function whose results contain no dash, N3 forms are any functions of the terms.
- Laziness: iterators are modelled by the sequences they yield on an unchanged graph.
- Closing a channel is modelled by a newer generation number or a flag, fairness of the scheduler is not assumed.
- Terms and pairs of terms stand for the string keys the code compares them by, in paths and in the indexes of the reasoners; that those keys tell terms apart is proved for rules and cache keys only.
- OwlEngine.Engine.BuildSchemaIndexes: the indexes of restrictions, lists, disjointness and assertions are not modelled, because the rules that read them are not.
- OwlEngine.Engine.ApplyRules: the functional, property chain, key and class passes are not modelled.
- OwlEngine.Engine.Run: the closure is that of the rules modelled; on a graph that triggers another rule the code adds more.
- Entailment.ExpandCheck: the same holds for its OWL part, and the consistency check is any function of the graph.
- EntailmentGaps.HierarchyClosedIff: graphs that make rdf:type a subproperty of something else can turn inferred types into hierarchy triples, and are excluded.
- EntailmentGaps.PredicatesReplacedIff: graphs with axioms can gain the missing facts through them, and are excluded.
- Reachability.ReachKeyInjective: that keys of terms show where they end is proved for quoted literals and NUL-free keys, not for the triple-quoted form of texts with a newline.
- PathEval.Eval: over a store that answers reachability queries it is stated where the path and endpoints fit, since elsewhere the answer depends on whether the store declines.
- RecursionGuards.RecursionGuard.Run: a constraint is given by what it does (read, have pairs run or asked about, end with a verdict); which pairs those are for a given data graph, and the contents of results, are not modelled.
- RecursionGuards.RecursionGuard.RunEntered: the same; the value nodes of a property shape, which come from the data graph, are not read.
- RdfLists.Collection.Append: the blank node is a parameter that does not occur in the graph.
- XmlNames.NsTable.Qname: an IRI found to have no name is remembered as such even if a later declaration would fit it, as in the code.
- Collection.Len, Get and Index, the namespace manager, and the checks on reserved RDF/XML names, which would only add easy members.
