# Backtracking, decisions, terms and datatypes: a model of the core of cvc5

This project models the parts of cvc5 whose correctness is hardest to see from the code, and proves what they promise.

* **Contexts** (`ScopedValues.dfy`, `Context.dfy`). Context-dependent objects are saved on the first change in a scope
  and restored when the scope is popped. The scopes' intrusive lists, the saved versions and the memory regions are
  modelled on the heap, pointer by pointer; what they mean is a stack of snapshots. An object that is destroyed leaves no
  trace in any list, and no other object notices.
* **Containers** (`Versions.dfy`, `CDHashMap.dfy`, `CDInsertHashMap.dfy`, `CDQueue.dfy`). A hash table whose elements are
  saved one by one and linked in a ring, a table that saves two sizes only, and a queue that truncates its array as early
  as it can. All come back as they were at a push, with what has been inserted for every level since.
* **Concatenated lists** (`Backtrackable.dfy`). Linked lists that are concatenated in place. A pop of the context touches none
  of them: the concatenations it undoes are taken back, last one first, when a list is next used. A run through a list that is
  at the front sees just what it would if they had been taken back at once, with all that has been appended since.
* **Context memory** (`ContextMemoryManager.dfy`). Blocks are cut off chunks one after the other. Live blocks never overlap,
  and a pop gives back just those that were handed out since the push.
* **The justification heuristic** (`JustificationFormulas.dfy`, `JustificationHeuristic.dfy`). The heuristic asks for a
  literal to decide or tells the SAT solver to stop. Stopping is sound on every run of decisions, propagations, pushes and
  pops of both contexts, and searches, in spite of three caches that survive from search to search: the values of the
  atoms that are justified make every assertion true by themselves, and every definition these atoms depend on as well.
* **Capture-avoiding substitution** (`Terms.dfy`, `Meaning.dfy`, `CaptureAvoidingSubstitution.dfy`). A worklist with one
  memo table for the whole term. If no variable is both free and bound the result has the meaning it should; if one is,
  the result can be ill-formed or keep a fresh variable free.
* **Free variables** (`FreeVariables.dfy`). A worklist with a cache for each scope, pruned by a cached attribute, finds exactly
  the free variables.
* **The discrimination tree** (`MatchTerms.dfy`, `MatchTrie.dfy`). A search with four parallel stacks reports each stored
  term that matches, once, and no other.
* **One-way matching** (`OneWayMatch.dfy`). A stack of pairs with a visited set. It finds every match, and is wrong only where
  a variable of the pattern is its own counterpart, which a caller can check beforehand.
* **Traversals** (`NodeTraversal.dfy`). The iterator with an explicit stack visits what the recursive search visits, in its
  order; the topological sort puts every root after those below it.
* **Lazy proof chains** (`ProofNodes.dfy`, `ProofLinks.dfy`, `ProofUpdates.dfy`, `ProofNodeAlgorithm.dfy`,
  `LazyProofChain.dfy`). A depth-first search finds which assumptions of generated proofs to connect and leaves one open
  exactly where connecting it would make the proof circular. The proof nodes are overwritten in place, in any order. The
  proofs may share nodes: the node returned is the root of a finite proof iff what was overwritten makes no cycle, and the
  root of the connected proof iff no overwritten node stands where nothing was to be connected. Both can fail.
* **Datatypes** (`DatatypeTerms.dfy`, `GroundTerms.dfy`). Well-foundedness is decided exactly, and the construction of
  ground terms agrees with it.

## How to read the model

Code that updates objects or vectors in place is modelled by classes and methods with loops. A vector, map or counter that the
source passes by reference is passed in and returned. Each method is proved against a specification function or relation,
and the lemmas are about those. An invariant (`Valid`) that the constructors establish and every method keeps holds at every
point of every run.

The SAT solver is not modelled. In its place stands a labelling of nodes, about which `SolverReady` assumes: only formulas
with literals are labelled and literals are closed under subformulas; a formula whose children's values decide it carries
that value; no assertion and no skolem lemma is labelled false. The labelling is otherwise arbitrary and may change in any way that
keeps earlier labels until a pop. `TruthIsPropagated` shows that the assumptions can be met.

Where documentation and code disagree the model follows the code: for XOR and EQUAL with an unknown side the values asked for
are the opposite of those that would give the desired value (`DesiredValuesAchieveExactly`). Stopping is sound all the same.

Cycle control in lazy proof chains is documented to rule out cycles (`CVC5/src/expr/lazy_proof_chain.h:77-82`). It decides
about leaves, but what is overwritten is a node, and nodes are shared: `CDProof` keeps one assumption node for each fact
(`CVC5/src/expr/proof.cpp:40-53`). A leaf that is cut is overwritten all the same if its node stands at a leaf that is not
(`SharedWithCut`, `CutLeafShared`). For the same reason the search for free assumptions misses one whose node it meets first
below a scope that closes it (`SharedWithScope`). Conditions that are necessary and sufficient stand with the methods.
`List::empty` of the concatenated lists is never true, since a list has a first node before anything is appended.

In the proofs about contexts, a ghost `Model` says which object sits where in which list and what the saved versions of an object
are. `Coherent` and `Backed` tie it to itself and to the pointers.

## Model

| member | source | states |
|---|---|---|
| ScopedValues.SnapshotsAreKept | CVC5/src/context/context.h:342-375 | over any run of nested pushes, pops, sets and creations, the snapshots that were there at the start gain the objects created for their level and change in no other way |
| ScopedValues.PopUndoesPush | CVC5/src/context/context.h:98-139 | whatever happens between a push and the pop that matches it, the values after the pop are those at the push plus the initial values of objects created meanwhile for that level or below |
| ScopedValues.PopRestoresValue | CVC5/src/context/context.h:342-375 | an object that existed at the push has the value it had then after the matching pop |
| ScopedValues.ForgetCommutes | CVC5/src/context/context.cpp:237-273 | destroying an object before a run that does not touch it is the same as destroying it after the run |
| Context.Context.constructor | CVC5/src/context/context.cpp:27-33 | a new context has one empty scope and no snapshots, and satisfies the invariant |
| Context.Context.Push | CVC5/src/context/context.cpp:60-69 | refines the specification's push: values stay, and become the newest snapshot |
| Context.Context.Pop | CVC5/src/context/context.cpp:72-107 | refines the specification's pop: every live object gets its value from the newest snapshot, and objects created for the popped scope disappear and have no scope any more |
| Context.Context.PopTo | CVC5/src/context/context.cpp:110-114 | brings back the snapshot of the given level, negative levels counting as 0, and does nothing when the level is not below the current one |
| Context.Context.Update | CVC5/src/context/context.cpp:136-193 | moves an object to the top scope and leaves a saved version in its place in its old list, with no change to any value or snapshot |
| Context.Context.MakeCurrent | CVC5/src/context/context.h:721-726 | afterwards the object is in the top scope; values and snapshots are unchanged |
| Context.Context.Set | CVC5/src/context/cdo.h:147-150 | changes the value of this object only, and no snapshot |
| Context.Context.NewObject | CVC5/src/context/context.cpp:276-303 | a new object is in the bottom scope, or in the top scope if allocated in context memory, and takes part in the snapshots from its level on |
| Context.Context.NewCDO | CVC5/src/context/cdo.h:112-137 | the given value holds in the current scope; below it the object has the default value |
| Context.Context.RestoreAndContinue | CVC5/src/context/context.cpp:195-235 | one object of the list that is deleted goes back to the place and value of its last saved version, or disappears if it has none, and nothing else changes in the model; the rest of the list can still be walked and all other lists stay well formed; an object that disappears has no scope |
| Context.Context.DeleteScope | CVC5/src/context/context.cpp:365-371 | the destructor's loop walks the whole list, which it is changing, and empties it |
| Context.Context.Destroy | CVC5/src/context/context.cpp:237-273 | all versions of the object are gone from every list; every other object, its value and its place in the snapshots stay |
| Context.Context.RemoveVersions | CVC5/src/context/context.cpp:250-270 | the loop goes through the versions from the newest on; each list it leaves is well formed and has all the versions of other objects that it had |
| Context.Scope.Unlink | CVC5/src/context/context.cpp:256-260 | one object is taken out of a doubly linked list, which has the others in their order |
| Context.DestroyedCoherent | CVC5/src/context/context.cpp:237-273 | lists, histories and regions of the other objects stay coherent |
| Context.Scope.AddToChain | CVC5/src/context/context.h:730-739 | the object becomes the head of a list that is well formed again |
| Context.Scope.Splice | CVC5/src/context/context.cpp:160-172 | a copy of an object takes over the object's place in a doubly linked list |
| Context.InOneList | CVC5/src/context/context.cpp:346-364 | every live or saved version sits in exactly one scope's list, at one place |
| Context.Context.RestoreGoesDown | CVC5/src/context/context.cpp:136-193 | a restore pointer leads to a version in a strictly older scope, which lies in the memory region of the scope that will restore it |
| Context.NoneDangles | CVC5/src/context/context.h:342-375 | no version that can still be reached lies in a memory region that has been popped |
| Context.PopRestores | CVC5/src/context/context.cpp:365-371 | when the last scope's list is empty the live objects and their values are those of the last snapshot |
| Context.UpdatedCoherent | CVC5/src/context/context.cpp:156-188 | saving a version keeps lists, histories and regions coherent |
| Context.RevertedCoherent | CVC5/src/context/context.cpp:215-230 | so does restoring one |
| CDHashMap.CDHashMap.Push | CVC5/src/context/context.cpp:60-69 | refines the specification's push; table and ring stay |
| CDHashMap.CDHashMap.Pop | CVC5/src/context/cdhashmap.h:136-174 | refines the specification's pop, in whatever order the elements are restored: the table has the entries of the push and those inserted at level zero since, and the ring has them in the order it had before |
| CDHashMap.CDHashMap.Insert | CVC5/src/context/cdhashmap.h:349-360 | sets the key in the current scope only; a new element goes to the end of the ring |
| CDHashMap.CDHashMap.InsertAtContextLevelZero | CVC5/src/context/cdhashmap.h:386-392 | the key is in the map now and after every pop, with this value |
| CDHashMap.CDHashMap.GetElement | CVC5/src/context/cdhashmap.h:336-347 | returns the key's element; if there is none, one with the default value is inserted in the current scope, at the end of the ring |
| CDHashMap.CDHashMap.Set | CVC5/src/context/cdhashmap.h:231-234 | changes this key's value in the current scope only |
| CDHashMap.CDHashMap.Keys | CVC5/src/context/cdhashmap.h:251-257 | iteration gives each key of the map once, in the order of the ring |
| CDHashMap.CDHashMap.Link | CVC5/src/context/cdhashmap.h:214-224 | a new element is linked in at the end of a well-formed ring |
| CDHashMap.CDHashMap.Unlink | CVC5/src/context/cdhashmap.h:149-161 | an element is taken out of the ring, which stays well formed and keeps its order |
| CDHashMap.ChangedIsSound | CVC5/src/context/cdhashmap.h:231-234 | changing the data in the top scope, saving first where needed, keeps what every snapshot says of the key |
| CDHashMap.NewIsSound | CVC5/src/context/cdhashmap.h:190-212 | an element inserted above level zero belongs to no snapshot, by its first version, which has no map |
| CDHashMap.RestoredIsSound | CVC5/src/context/cdhashmap.h:136-168 | going back one version keeps what the snapshots say, and an element goes back to before it had a map only if no snapshot has its key |
| CDHashMap.PoppedIsSound | CVC5/src/context/context.cpp:365-371 | once no element has changes at the level, each has the value of the last snapshot |
| CDHashMap.ThoseWithout | CVC5/src/context/cdhashmap.h:160-161 | taking out an element that the snapshot does not have keeps the order of those it has |
| CDInsertHashMap.CDInsertHashMap.Insert | CVC5/src/context/cdinsert_hashmap.h:310-315 | sets a new key in the current scope only; it is the last of the keys |
| CDInsertHashMap.CDInsertHashMap.InsertAtContextLevelZero | CVC5/src/context/cdinsert_hashmap.h:338-343 | a new key is in the map now and after every pop, with this value, before all other keys |
| CDInsertHashMap.CDInsertHashMap.PopScope | CVC5/src/context/cdinsert_hashmap.h:241-260 | refines the specification's pop: the map has the entries of the push and those inserted at level zero since; keys at the front all stay, keys at the back that stay keep their order |
| CDInsertHashMap.InsertHashMap.PopToSize | CVC5/src/context/cdinsert_hashmap.h:176-180 | just the first keys are left, with their values |
| CDInsertHashMap.RestoredIsSound | CVC5/src/context/cdinsert_hashmap.h:241-260 | the saved size plus the keys put in front since is the size to go back to: the first keys are the map at the push, and the versions saved before still tell the older snapshots |
| CDInsertHashMap.PushedFront | CVC5/src/context/cdinsert_hashmap.h:338-343 | counting a key put in front makes every saved size right that was saved before |
| ContextMemoryManager.ContextMemoryManager.NewData | CVC5/src/context/context_mm.cpp:99-121 | the block lies in an active chunk and overlaps no live block; no other block or saved region changes; it starts at the next free place if there is room, and otherwise at the start of the last free chunk, or of a new one if none is free |
| ContextMemoryManager.ContextMemoryManager.NewChunk | CVC5/src/context/context_mm.cpp:36-62 | the chunk that was freed last becomes active, behind the others, or a new one if none is free; blocks and saved regions stay |
| ContextMemoryManager.ContextMemoryManager.Push | CVC5/src/context/context_mm.cpp:124-133 | place, chunks and live blocks are saved |
| ContextMemoryManager.ContextMemoryManager.Pop | CVC5/src/context/context_mm.cpp:136-169 | place, chunks and live blocks are those of the last push; the chunks added since are freed, the last one first, behind those that were free, and of all of them the last ones are kept, up to the maximum |
| ContextMemoryManager.OrderedAreDisjoint | CVC5/src/context/context_mm.cpp:99-121 | blocks handed out in order never overlap |
| CDQueue.CDQueue.Enqueue | CVC5/src/context/cdqueue.h:117-119 | the element is the last of the queue; snapshots stay |
| CDQueue.CDQueue.Dequeue | CVC5/src/context/cdqueue.h:126-137 | the first element is gone, and truncating the array, where it happens, takes nothing from any snapshot; an empty queue leaves no element in the array but those that saved versions may see |
| CDQueue.CDQueue.Front | CVC5/src/context/cdqueue.h:140-143 | the first element that has not been dequeued |
| CDQueue.CDQueue.Back | CVC5/src/context/cdqueue.h:148-151 | the last element of the queue |
| CDQueue.CDQueue.PushScope | CVC5/src/context/context.cpp:60-69 | the queue is the newest snapshot |
| CDQueue.CDQueue.PopScope | CVC5/src/context/cdqueue.h:83-89 | the queue is exactly the newest snapshot, dequeued elements included, and the older snapshots stay |
| CDQueue.CDQueue.MakeCurrent | CVC5/src/context/cdqueue.h:62-76 | saving changes neither the queue nor a snapshot |
| CDQueue.CDQueue.Grow | CVC5/src/context/cdlist.h:124-170 | there is room for one more element, in an array with the same elements |
| CDQueue.CDQueue.TruncateList | CVC5/src/context/cdlist.h:219-230 | the elements from the given index on are gone, and no other; they are destroyed iff that was asked for |
| CDQueue.ChangedIsSound | CVC5/src/context/cdqueue.h:126-137 | what happens above the last saved size is seen by no saved version |
| CDQueue.RestoredIsSound | CVC5/src/context/cdqueue.h:83-89 | the last saved version, with the array truncated to its size, is the queue at the push |
| CDQueue.SizesGrow | CVC5/src/context/cdqueue.h:62-76 | saved sizes never decrease |
| Backtrackable.List.constructor | CVC5/src/context/backtrackable.h:102-106 | a new list has no elements and is at the front of its group, whatever has been concatenated and not yet undone |
| Backtrackable.List.Append | CVC5/src/context/backtrackable.h:137-156 | the element is the first of this list; the other elements, the concatenations in force and the saved ones stay, and undoing never takes it back |
| Backtrackable.List.Concat | CVC5/src/context/backtrackable.h:158-167 | one more concatenation is in force: the elements of the other group come behind those of this one; no assertion fails |
| Backtrackable.List.Unconcat | CVC5/src/context/backtrackable.h:169-177 | undoing the last concatenation gives the lists as they are without it, with what has been appended to either since |
| Backtrackable.List.Begin | CVC5/src/context/backtrackable.h:116-127 | the run that starts at the first element sees the elements of the list and of those behind it |
| Backtrackable.List.Empty | CVC5/src/context/backtrackable.h:108-111 | false, also for a list without elements |
| Backtrackable.Backtracker.CheckConsistency | CVC5/src/context/backtrackable.h:203-217 | terminates; the lists are joined by the concatenations in force and no others, which have not changed |
| Backtrackable.Backtracker.NotifyConcat | CVC5/src/context/backtrackable.h:197-201 | the concatenation is recorded with the level; what is saved for older scopes stays |
| Backtrackable.Backtracker.ContextPush | CVC5/src/context/backtrackable.h:189-192 | the concatenations in force are the newest saved ones |
| Backtrackable.Backtracker.ContextPop | CVC5/src/context/backtrackable.h:189-192 | the concatenations in force are those of the last push, at once and with no list touched; elements appended since stay |
| Backtrackable.Backtracker.Advance | CVC5/src/context/backtrackable.h:69-77 | goes one element on, over lists without elements |
| Backtrackable.InGroup | CVC5/src/context/backtrackable.h:158-177 | each list is in the group of some list at the front, and what a run through it sees is the end of that group |
| Backtrackable.GroupsDisjoint | CVC5/src/context/backtrackable.h:158-177 | each list is in one group only, and there once: nothing is seen twice or lost |
| Backtrackable.BeforeIffNext | CVC5/src/context/backtrackable.h:137-177 | the list whose last node an append has to redirect is the one that a run comes from |
| Backtrackable.MergeNext | CVC5/src/context/backtrackable.h:158-177 | a concatenation changes one link, behind the last list of the group in front |
| Backtrackable.LastsDiffer | CVC5/src/context/backtrackable.h:158-177 | groups with different fronts end in different lists |
| Backtrackable.Backtracker.AssertedIffFront | CVC5/src/context/backtrackable.h:164-164 | the assertion about the other list holds iff it is at the front of its group |
| Backtrackable.Backtracker.Elements | CVC5/src/theory/arrays/array_info.cpp:105-113 | a run through any list, after any appends, concatenations and pops, sees the elements of the lists from it to the end of its group, in the order of the concatenations in force; from the front all of the group |
| JustificationHeuristic.JustificationHeuristic.GetNext | CVC5/src/decision/justification_heuristic.cpp:79-144 | if the search is stopped every total assignment that agrees with the values of the justified atoms makes every assertion true, and every skolem definition listed for a justified atom, unless the atom is part of that definition; otherwise the literal is an unassigned atom with the polarity asked for, all assertions before the one that the search stopped at are justified, and it is what the search for that one leads to: from left to right past children that do not decide, into the branch that is chosen, and from an atom to the definitions listed for it |
| JustificationHeuristic.JustificationHeuristic.Pop | CVC5/src/decision/justification_heuristic.cpp:35-59 | labels and context-dependent caches go back to the last push together, and the invariant about what the caches skip holds again |
| JustificationHeuristic.JustificationHeuristic.Assign | CVC5/src/decision/justification_heuristic.cpp:357-367 | justified nodes stay settled whatever else gets a value or a literal |
| JustificationHeuristic.JustificationHeuristic.AddAssertion | CVC5/src/decision/justification_heuristic.cpp:171-191 | a new assertion leaves the caches sound |
| JustificationHeuristic.JustificationHeuristic.AddSkolemDefinition | CVC5/src/decision/justification_heuristic.cpp:193-198 | so does a new or changed skolem definition |
| JustificationHeuristic.JustificationHeuristic.FindSplitterRec | CVC5/src/decision/justification_heuristic.cpp:406-560 | terminates for cyclic skolem definitions too, never answers DONT_KNOW, and either decides an unassigned atom asked for with the right polarity or has justified the node with the desired value |
| JustificationHeuristic.JustificationHeuristic.HandleConnective | CVC5/src/decision/justification_heuristic.cpp:501-548 | each connective's search either finds a splitter or settles the node with the desired value |
| JustificationHeuristic.JustificationHeuristic.HandleAndOrEasy | CVC5/src/decision/justification_heuristic.cpp:562-581 | some child can be asked for the deciding value: the closing assertion is not reached; only children that have the other value are passed over |
| JustificationHeuristic.JustificationHeuristic.HandleAndOrHard | CVC5/src/decision/justification_heuristic.cpp:590-608 | the children that the start index skips are justified, so that finding no splitter settles the node; only children that have the desired value are passed over |
| JustificationHeuristic.JustificationHeuristic.HandleBinaryEasy | CVC5/src/decision/justification_heuristic.cpp:610-633 | one side can be asked for its value: the closing assertion is not reached |
| JustificationHeuristic.JustificationHeuristic.HandleBinaryHard | CVC5/src/decision/justification_heuristic.cpp:635-660 | finding no splitter on either side settles the node with the desired value, though the sides of XOR and EQUAL may have been asked for the wrong ones; a side with a value is asked for it; one without is asked for the value that keeps the node from what is desired, or for false if the other has none either |
| JustificationHeuristic.JustificationHeuristic.HandleITE | CVC5/src/decision/justification_heuristic.cpp:662-706 | the condition and the branch it chooses are searched, and settle the node; a condition without a value is asked for one that gives the node the desired value if the other does, and for one that spoils it only if the other does too, and otherwise for true |
| JustificationFormulas.BranchDecides | CVC5/src/decision/justification_heuristic.cpp:669-685 | the value of a branch is what the children decide for the node when the condition takes the value that chooses it, unless the condition is a branch itself |
| JustificationFormulas.ConditionIsBranch | CVC5/src/decision/justification_heuristic.cpp:669-685 | if it is, it can be asked for the wrong value: ite(c, c, y) wanted false asks for c, which makes it true |
| JustificationHeuristic.JustificationHeuristic.HandleBranch | CVC5/src/decision/justification_heuristic.cpp:686-706 | a condition with a value is justified first, and then the branch it chooses settles the node |
| JustificationHeuristic.JustificationHeuristic.HandleEmbeddedSkolems | CVC5/src/decision/justification_heuristic.cpp:708-727 | searches the definitions of the skolems in an atom; if there is nothing to split on each definition listed is justified or under search; a definition under search is not entered again |
| JustificationHeuristic.JustificationHeuristic.FindSplitterBelowNot | CVC5/src/decision/justification_heuristic.cpp:429-560 | a node is justified only when the justified atoms force its value, and an atom only when the definitions it depends on are justified or it is part of them |
| JustificationHeuristic.JustificationHeuristic.UserContextPush | CVC5/src/decision/justification_heuristic.cpp:35-59 | assertions, skolem definitions, skolem lists and literals are saved together with the SAT context |
| JustificationHeuristic.JustificationHeuristic.UserContextPop | CVC5/src/decision/justification_heuristic.cpp:35-59 | assertions, definitions, lists and literals go back to the push and so does the SAT context; the caches that are left skip nothing that is not justified, and the index of the search is within the assertions that are left |
| JustificationHeuristic.JustificationHeuristic.GetSkolems | CVC5/src/decision/justification_heuristic.cpp:369-386 | a list that is computed anew holds exactly the defined skolems strictly below the node; a cached one is returned as it is |
| JustificationHeuristic.JustifiedAssertionsEntailed | CVC5/src/decision/justification_heuristic.cpp:121-143 | the set of justified nodes stores no polarity, but with the labels it is enough to entail every assertion |
| JustificationHeuristic.JustifiedChildrenSettle | CVC5/src/decision/justification_heuristic.cpp:590-608 | a conjunction wanted true or a disjunction wanted false is settled once all its children are justified |
| JustificationHeuristic.ListedBelow | CVC5/src/decision/justification_heuristic.cpp:388-404 | the traversal with a visited set misses no defined skolem |
| JustificationHeuristic.WithinDefinition | CVC5/src/decision/justification_heuristic.cpp:708-727 | if a node is part of a skolem's definition so are the definitions of the skolems in the node: whatever the search comes to is part of every definition it is in |
| JustificationHeuristic.DesiredValuesAchieveExactly | CVC5/src/decision/justification_heuristic.cpp:146-169 | the values asked of the sides of XOR and EQUAL give the desired value iff the sides' known values already do |
| JustificationFormulas.SettledMonotone | CVC5/src/decision/justification_heuristic.cpp:209-217 | a settled node, one whose value the justified atoms force, stays settled with its value as more nodes are labelled and justified |
| JustificationFormulas.SettledThroughNegations | CVC5/src/decision/justification_heuristic.cpp:422-426 | a node is settled when the formula below its negations is |
| JustificationFormulas.SettledByChildren | CVC5/src/decision/justification_heuristic.cpp:554-558 | a node that settled children decide is settled with the decided value |
| JustificationFormulas.EvalMatchesDecide | CVC5/src/decision/justification_heuristic.cpp:501-548 | what the children's known values decide is what every assignment consistent with them evaluates to |
| JustificationFormulas.TruthIsPropagated | CVC5/src/decision/justification_heuristic.cpp:357-367 | the assumptions on the labelling are met by the truth values of any total assignment |
| CaptureAvoidingSubstitution.SubstituteCaptureAvoiding | CVC5/src/expr/node_algorithm.cpp:564-655 | terminates; the source and destination vectors end as they began; the result is one simultaneous replacement of leaves in which fresh variables are used for one variable each; without variables that are both free and bound it is a capture-avoiding substitution |
| CaptureAvoidingSubstitution.PushRenamings | CVC5/src/expr/node_algorithm.cpp:600-610 | the bound variables and a fresh variable of the same sort for each are appended to the vectors |
| CaptureAvoidingSubstitution.BuildNode | CVC5/src/expr/node_algorithm.cpp:624-640 | operator and children of the new node are the memo's entries for those of the old one |
| CaptureAvoidingSubstitution.SeparationSuffices | CVC5/src/expr/node_algorithm.cpp:564-655 | without variables that are both free and bound the result is well formed and leaves no fresh variable free |
| CaptureAvoidingSubstitution.SeparationIsNeeded | CVC5/src/expr/node_algorithm.cpp:564-655 | if some leaf is both free and bound, substituting a symbol for it gives an ill-formed result or leaves a fresh variable free, whatever the memo chose |
| Meaning.SubstitutionPreservesMeaning | CVC5/src/expr/node_algorithm.cpp:564-655 | in every interpretation the result of a capture-avoiding substitution means what the term means with each source standing for the value of its last destination and every other leaf for its own |
| Meaning.LookupIs | CVC5/src/expr/node_algorithm.cpp:583-598 | a source is replaced by its last destination, whatever that is, and any other leaf by itself |
| Meaning.ReplaceMeans | CVC5/src/expr/node_algorithm.cpp:624-640 | the same under any set of open renamings |
| Meaning.EvalCoincides | CVC5/src/expr/node_algorithm.cpp:600-610 | the value of a term depends on its free leaves only |
| FreeVariables.NodeAlgorithm.HasBoundVar | CVC5/src/expr/node_algorithm.cpp:251-282 | true iff a bound variable occurs anywhere in the node, with any attributes computed earlier; the attribute of the node is known afterwards |
| FreeVariables.NodeAlgorithm.GetFreeVariablesScope | CVC5/src/expr/node_algorithm.cpp:335-405 | terminates; the set gains exactly the variables free in the term and not in the scope, and the scope ends as it began; without computeFv it answers whether there is one |
| FreeVariables.NodeAlgorithm.VisitClosure | CVC5/src/expr/node_algorithm.cpp:372-392 | the closure's list is in scope for its body only |
| FreeVariables.NodeAlgorithm.GetFreeVariables | CVC5/src/expr/node_algorithm.cpp:327-333 | the same with no scope |
| FreeVariables.NodeAlgorithm.HasFreeVar | CVC5/src/expr/node_algorithm.cpp:284-288 | true iff the term has a free variable |
| FreeVariables.AllCollected | CVC5/src/expr/node_algorithm.cpp:353-402 | skipping visited nodes and nodes without bound variables loses no free variable |
| MatchTrie.MatchTrie.AddTerm | CVC5/src/expr/match_trie.cpp:160-190 | afterwards the tree stores the term and what it stored before; no tree node is lost, and variables are only added behind those that a node lists |
| MatchTrie.MatchTrie.Clear | CVC5/src/expr/match_trie.cpp:192-197 | afterwards the tree stores nothing |
| MatchTrie.MatchTrie.GetMatches | CVC5/src/expr/match_trie.cpp:23-158 | terminates; the notifications are those of the recursive search in its order, all of them, or up to the first that is declined |
| MatchTrie.SearchIsExact | CVC5/src/expr/match_trie.cpp:23-158 | a stored term is notified once if a type-respecting substitution maps it to the query and otherwise never; the bindings reported are such a substitution of exactly its variables |
| MatchTrie.MatchesInOrder | CVC5/src/expr/match_trie.cpp:57-155 | of two notifications the first is for the term whose path takes the branch that comes first where the paths part: an operator before a variable, and variables in the order in which they were inserted |
| MatchTrie.MatchesSound | CVC5/src/expr/match_trie.cpp:42-56 | every notification below a node is for a stored term whose remaining pattern matches what is left of the query |
| MatchTrie.MatchesComplete | CVC5/src/expr/match_trie.cpp:57-155 | a stored term whose remaining pattern matches is notified exactly once below the node |
| MatchTerms.StackCodeInjective | CVC5/src/expr/match_trie.cpp:160-190 | different stacks of terms of the same size lead to different tree nodes |
| MatchTerms.MatchIsExact | CVC5/src/expr/match_trie.cpp:115-142 | one-way matching succeeds iff some type-respecting substitution maps the pattern to the term |
| OneWayMatch.Match | CVC5/src/expr/node_algorithm.cpp:679-764 | terminates; true iff some extension of the given substitution makes the pattern agree with the term, where equal parts agree without being looked into; the substitution returned is the least such extension; some extension maps the pattern to the term iff the result is true and the input was clean: no variable that is its own counterpart is bound to something else or has another counterpart |
| OneWayMatch.MapsAgrees | CVC5/src/expr/node_algorithm.cpp:679-764 | every substitution by comparable terms that maps the pattern to the term makes them agree: no match is missed |
| OneWayMatch.AgreesMaps | CVC5/src/expr/node_algorithm.cpp:694-700 | a substitution that makes them agree maps the pattern to the term iff it leaves alone the variables that are their own counterpart |
| OneWayMatch.MatchIsRightIff | CVC5/src/expr/node_algorithm.cpp:679-764 | for terms that agree, the pattern can be mapped to the term iff the input was clean, and then the least bindings do it |
| OneWayMatch.AgreesWithout | CVC5/src/expr/node_algorithm.cpp:694-700 | agreement does not need a binding for a variable without any counterpart but itself |
| OneWayMatch.ApartIsRight | CVC5/src/expr/node_algorithm.cpp:679-764 | if pattern and term share no variable the substitution returned maps one to the other |
| OneWayMatch.SharedVariable | CVC5/src/expr/node_algorithm.cpp:696-700 | if they do it need not: f(v, v) matches f(v, c), which no substitution makes equal |
| OneWayMatch.VisitedAgree | CVC5/src/expr/node_algorithm.cpp:701-707 | skipping pairs that have been visited loses nothing |
| NodeTraversal.NodeDfsIterator.constructor | CVC5/src/expr/node_traversal.cpp:23-32 | the visits to come are those of the recursive search with a set of nodes seen |
| NodeTraversal.NodeDfsIterator.AdvanceToNextVisit | CVC5/src/expr/node_traversal.cpp:88-133 | terminates; the next of the visits to come is the current one, and the others stay to come |
| NodeTraversal.NodeDfsIterator.Next | CVC5/src/expr/node_traversal.cpp:43-52 | drops the first visit, also when none has been made yet |
| NodeTraversal.NodeDfsIterator.Get | CVC5/src/expr/node_traversal.cpp:60-67 | the first visit, which stays |
| NodeTraversal.Traverse | CVC5/src/expr/node_traversal.cpp:150-158 | a loop over the nodes sees the visits of the recursive search in its order |
| NodeTraversal.VisitsAreReached | CVC5/src/expr/node_traversal.cpp:88-133 | in pre- and post-order alike each node that can be reached without passing through a skipped one is visited once, and no other |
| NodeTraversal.ReachedBefore | CVC5/src/expr/node_traversal.cpp:123-130 | in post-order whatever can be reached from a node is visited before it |
| NodeTraversal.TraversalSorted | CVC5/src/expr/node_traversal.cpp:88-133 | of two visits the earlier one is at the node with the lexicographically least way from the root, except that in post-order a node comes after what can be reached from it; with the nodes visited this leaves one order only |
| NodeTraversal.PreVisitPost | CVC5/src/expr/node_traversal.cpp:93-114 | in post-order, leaving a node on the stack below its children in reverse searches the children in order and the node after them |
| NodeTraversal.TopologicalSort | CVC5/src/expr/node_manager.cpp:385-428 | terminates; each root is in the order once, and a root that is below another comes before it; the closing assertion holds iff no root is listed twice |
| NodeTraversal.SortFrom | CVC5/src/expr/node_manager.cpp:395-425 | one search does the root and what is below it, and adds the roots among them behind those below them |
| NodeTraversal.BelowDone | CVC5/src/expr/node_manager.cpp:405-411 | when the children of a node are done so is all that is below it |
| ProofLinks.ConnectIsChecked | CVC5/src/expr/lazy_proof_chain.cpp:225-247 | replacing assumptions by proofs of them keeps a proof valid and keeps its conclusion |
| ProofLinks.ConnectAssumes | CVC5/src/expr/lazy_proof_chain.cpp:225-247 | what a connected proof still assumes it assumes at a leaf that was not replaced |
| ProofLinks.RankedHasNoCycle | CVC5/src/expr/lazy_proof_chain.cpp:154-175 | leaves that follow a rank never lead back |
| LazyProofChain.LazyCDProofChain.GetGeneratorForInternal | CVC5/src/expr/lazy_proof_chain.cpp:312-326 | the fact's own generator if it has one and otherwise the default one, which alone says whether its proofs are expanded; the generator has a proof of the fact iff the fact has a link, and it is the proof of the link |
| LazyProofChain.LazyCDProofChain.LinksAre | CVC5/src/expr/lazy_proof_chain.cpp:312-326 | a fact with a generator of its own is proved by it or not at all, and its proof is expanded; any other is proved by the default generator if that has a proof, which is expanded iff that was asked for |
| LazyProofChain.LazyCDProofChain.AddLazyStep | CVC5/src/expr/lazy_proof_chain.cpp:257-264 | the link of the fact is to the new generator's proof and is expanded, or there is none if the generator has no proof, whatever the default generator has; all other links stay |
| LazyProofChain.LazyCDProofChain.GetProofFor | CVC5/src/expr/lazy_proof_chain.cpp:57-255 | terminates, however the generated proofs share nodes; every leaf to a proved fact that can be reached is replaced, or would lead back to the proof it is in, and replaced leaves are reached through others; with cycle control there is a topological order of the replaced leaves; just the nodes of these leaves are overwritten, each by the root of the proof of its fact; the node returned is then the root of a finite proof iff the overwritten nodes make no cycle that it leads to, and with cycle control the root of the connected proof iff they stand at replaced leaves only and at all their places, as they do when no node is shared; nothing at all is overwritten if the fact has no generator of its own and default proofs are not expanded |
| LazyProofChain.LazyCDProofChain.ExpandAssumptions | CVC5/src/expr/lazy_proof_chain.cpp:225-247 | in whatever order the map is walked, and whichever proofs the nodes are in, just the recorded nodes of facts with proofs are overwritten, and only the fact asked for may be without any |
| LazyProofChain.LeftIffCycle | CVC5/src/expr/lazy_proof_chain.cpp:158-175 | with cycle control a leaf is left open iff replacing it would close a cycle |
| LazyProofChain.ChainProves | CVC5/src/expr/lazy_proof_chain.h:58-87 | the connected proof is a valid proof of the fact |
| LazyProofChain.ChainAssumes | CVC5/src/expr/lazy_proof_chain.h:58-87 | each of its open assumptions has no generated proof, or stands in a proof that is not to be expanded, or would close a cycle, or was missed because its nodes stand below a scope first |
| LazyProofChain.CutLeafShared | CVC5/src/expr/lazy_proof_chain.h:77-82 | if a node of a leaf that is cut stands at a leaf that is replaced, in whatever proofs, the node returned is the root of no finite proof |
| LazyProofChain.SharedWithCut | CVC5/src/expr/lazy_proof_chain.h:77-82 | it happens: three facts in a row, the last proved from the second by the node that the first is proved from; two leaves are replaced, one is cut, and the result is cyclic |
| LazyProofChain.Searched | CVC5/src/expr/lazy_proof_chain.cpp:71-72 | when nothing is left to visit everything reachable has been visited and every kept leaf points to a fact that was done earlier |
| LazyProofChain.LazyCDProofChain.Enqueue | CVC5/src/expr/lazy_proof_chain.cpp:121-203 | every free assumption of the proof that is found is recorded with its nodes and enqueued, or left because it would close a cycle |
| LazyProofChain.LazyCDProofChain.Mark | CVC5/src/expr/lazy_proof_chain.cpp:142-153 | with cycle control the fact is under way, its mark on the stack below its assumptions, and otherwise done; the search has only its leaves left to decide about |
| ProofUpdates.FiniteIffNoCycle | CVC5/src/expr/lazy_proof_chain.cpp:225-247 | the root of a generated proof is the root of a finite proof iff no dependency by overwritten nodes that can be reached from it leads back |
| ProofUpdates.ConnectedIffFits | CVC5/src/expr/lazy_proof_chain.cpp:225-247 | the root is that of the connected proof iff, in all proofs that are connected, an overwritten node stands exactly at the free places of replaced leaves |
| ProofUpdates.SeparateFits | CVC5/src/expr/lazy_proof_chain.cpp:225-247 | that is so when each node stands in one generated proof, and there at free places only or at closed ones only, which can be checked beforehand |
| ProofUpdates.DenotedIsChecked | CVC5/src/expr/lazy_proof_chain.h:58-87 | whatever has been overwritten, and however nodes are shared: a finite proof that results is valid and has the same conclusion |
| ProofUpdates.UpdateOne | CVC5/src/expr/proof_node_manager.cpp:264-275 | overwriting one more node changes that node only, and what it takes over is what the root held from the start |
| ProofNodes.UpdateNode | CVC5/src/expr/proof_node_manager.cpp:264-275 | a node takes over what another one holds if both have the same result, and is unchanged otherwise |
| ProofNodeAlgorithm.GetFreeAssumptionsMap | CVC5/src/expr/proof_node_algorithm.cpp:36-137 | terminates; the nodes listed for a fact are those whose first place, from the last premise to the first, is free; they are exactly the nodes that assume it outside the scopes that close it iff each node with a free place stands at a free place first, and then the facts are the free assumptions |
| ProofNodeAlgorithm.SharedWithScope | CVC5/src/expr/proof_node_algorithm.cpp:82-135 | one node below a scope that closes it, in the last premise, and outside: nothing is listed although the assumption is free |
| ProofNodes.ListedIffFreeFirst | CVC5/src/expr/proof_node_algorithm.cpp:82-135 | a search that looks at each node once finds the free nodes of all facts iff each is met free first, and never any other |
| ProofNodes.ListedFactsIff | CVC5/src/expr/proof_node_algorithm.cpp:82-135 | it finds all free assumptions iff each of them has some node that is met free first |
| ProofNodeAlgorithm.TopIsMark | CVC5/src/expr/proof_node_algorithm.cpp:116-120 | a node whose children are being visited is met again only as its own mark, when all its parts have been collected |
| ProofNodeAlgorithm.LeaveScope | CVC5/src/expr/proof_node_algorithm.cpp:121-134 | each fact the scope closes is counted once less, and is no longer in the map when no scope closes it |
| GroundTerms.Datatypes.ComputeWellFounded | CVC5/src/expr/dtype.cpp:555-582 | terminates; true iff the datatype has a finite term without subterms of the types being processed; the list of processed types ends as it began |
| GroundTerms.Datatypes.ConstructorWellFounded | CVC5/src/expr/dtype_cons.cpp:344-360 | true iff each argument type has such a term |
| GroundTerms.Datatypes.IsWellFounded | CVC5/src/expr/dtype.cpp:531-553 | true iff the datatype has a finite term, whether or not the answer was remembered; the answer is remembered and nothing else changes |
| GroundTerms.Datatypes.ComputeGroundTerm | CVC5/src/expr/dtype.cpp:776-822 | terminates; a term that is returned is well typed, no subterm of it has a strict subterm of its own type, and it is a value if one was asked for; a term is returned whenever the type has one without the types being processed; a datatype with constructors without arguments gets the first of them; in general the term comes from the constructor that is tried first, those without arguments before the others, and each one tried before it has arguments and, if external sorts are inhabited, cannot have them all without the types being processed |
| GroundTerms.Datatypes.ConstructorGroundTerm | CVC5/src/expr/dtype_cons.cpp:362-447 | each argument is the remembered term of its type if there is one, and is otherwise chosen in the same way; there are arguments whenever they exist without the types being processed |
| GroundTerms.Datatypes.MkGroundTermInternal | CVC5/src/expr/dtype.cpp:599-626 | returns a term iff the datatype is well-founded, with any cache contents that earlier calls can leave; a remembered term is returned as it is; any other is the one that is chosen with no type being processed, and is remembered |
| GroundTerms.Datatypes.NullaryIsChosen | CVC5/src/expr/dtype.cpp:788-796 | the first constructor without arguments is the only choice if there is one |
| GroundTerms.TopGround | CVC5/src/expr/dtype.cpp:800-812 | taking the subterm of the same type, if there is one, gives a term without nested occurrences of its types |
| DatatypeTerms.InhabitedIff | CVC5/src/expr/dtype.cpp:564-581 | a datatype has a term avoiding some types iff one of its constructors has arguments that avoid those types and the datatype itself |
| DatatypeTerms.Innermost | CVC5/src/expr/dtype.cpp:559-563 | a datatype with a term has one in which the datatype does not occur again: why an occurrence while processing may be refused |
| DatatypeTerms.SubtermSpec | CVC5/src/expr/dtype.cpp:759-774 | the search for a subterm of a type finds one iff there is one |
| DatatypeTerms.SubtermIsFirst | CVC5/src/expr/dtype.cpp:759-774 | it is the first one from the outside in and from left to right |
| DatatypeTerms.InhabitedMeansTerm | CVC5/src/expr/dtype.cpp:531-553 | with no type excluded, being inhabited is having a finite well-typed term |

## Left out

- Decision thresholds above 0 and decision weights: the start-index cache is shared between thresholds and can skip a child the search knows nothing about.
- The SAT solver, the CNF stream and the theory engine: replaced by the assumptions on the labelling described above.
- JustificationHeuristic: nothing is claimed of the definition of a skolem when the atom that contains the skolem is part of that definition, since the search does not enter a definition twice. The SAT context is not popped beyond a push of the user context but by the pop that matches it.
- JustificationHeuristic.JustificationHeuristic.GetSkolems: the cached list can be older than a definition added later; the model keeps this and claims nothing for such skolems.
- CaptureAvoidingSubstitution.SubstituteCaptureAvoiding: sources are leaves; sources with children and the overload for one pair are not modelled.
- MatchTrie.MatchTrie.AddTerm: an operator is never itself a matched variable, and a term without arguments is an application without arguments; tree nodes are entries of a map from paths, so that pointers to them are paths.
- Context: garbage lists, notification objects and `makeSaveRestorePoint` are not part of this model; saving copies the whole value, as CDO does.
- Context: methods that reach the context through an object's scope are methods of the context that take the object.
- LazyProofChain.LazyCDProofChain.GetProofFor: a generator gives finite proofs, each of the fact it is asked for, whose nodes nobody has overwritten yet. Without cycle control it is stated what the nodes hold and when the result is finite, not which proof it then is.
- ProofNodeAlgorithm.GetFreeAssumptionsMap: the test for cyclic proofs is left out; a proof on the heap is finite here.
- LazyProofChain.LazyCDProofChain.AddLazyStep: the check that a new link is closed and the dependency on a context are left out.
- GroundTerms.Datatypes.ComputeGroundTerm: parametric datatypes, codatatypes and sygus datatypes are left out. That other sorts are inhabited is assumed where a term is promised.
- CDHashMap: deletion of elements and of the map, `clear` and the garbage list are left out; an element that has left the map is not used again. The part of the context that concerns one element, its level and its saved versions, is a part of the element.
- CDQueue: allocation limits and clean-up functors are left out; the part of the context that concerns the queue is a part of the queue. What a destroyed element leaves behind is an arbitrary value.
- FreeVariables.NodeAlgorithm.GetFreeVariablesScope: binders have a list and a body; binding a variable that is in scope is excluded, as the source asserts.
- OneWayMatch.Match: free symbols are applications without arguments; comparability of types is an arbitrary relation between terms.
- CDInsertHashMap: deletion and iterators are left out; the part of the context that concerns the map is a part of it.
- ContextMemoryManager: contents of blocks are not modelled, and a chunk given back to malloc is never handed out under its old name.
- NodeTraversal.TopologicalSort: operators of parameterized nodes are not children, so that a root occurring only as an operator in another may come after it, as in the source.
- NodeTraversal.NodeDfsIterator.Get: at the end the source fails an assertion; the model returns None.
- Backtrackable.List.Concat: two lists are concatenated only if they are different and each at the front of its group, of which the source asserts the part about the other list and some of the rest. The context is not popped during a run through a list, and lists are not deleted.
- CDList apart from its use in the queue: a queue from which nothing is dequeued, so that it would add only easy members.
