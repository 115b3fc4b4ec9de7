# Oxigraph Nova: verified model of its query, dictionary, Cypher and reasoning cores

This project models four parts of Oxigraph Nova in Dafny and proves what each is for.

* **Regular path queries** (`Datasets`, `Paths`, `Nfas`, `ProductSearch`, `Rpq`, `Transitive`).
  A dataset is a finite set of id triples. A property path means a relation on ids, by recursion,
  as section 18.4 of SPARQL 1.1 Query Language defines it, read over sets. Pushing `^` to the
  leaves keeps that relation. The Thompson automaton grown in an edge table relates, from start to
  accept, exactly the pairs of the relation on every dataset, and keeps doing so while more edges
  are added. The search over (node, state) pairs returns exactly what the automaton reaches. The
  endpoint modes are therefore restrictions of one relation. The dedicated searches for `p+` and
  `p*` are proved against walks, and the meet-in-the-middle search also against the length of a
  shortest walk.
* **The two-tier term dictionary** (`Bytes`, `FrontCoding`, `Terms`, `CompactedTier`, `LookupTheory`,
  `Caches`, `BlockCache`, `GraphNames`, `Dictionary`, `InternTheory`, `DictionaryRuns`, `Snapshot`).
  The `Dictionary` class keeps a ghost sequence of terms; every method is proved against it: ids are
  positions in that sequence and it only ever grows. What interning does is a function of the terms,
  the delta map and the compacted entries; about it is proved when a known term keeps its id, for one
  call and for whole runs of interning, decoding and compacting. Front-coded blocks, rank
  permutations, both LRU caches, the compressed blocks and snapshots are shown not to be observable.
* **Cypher to SPARQL** (`CypherSyntax`, `CypherLexer`, `CypherParser`, `CypherText`, `Sparql`,
  `CypherMapping`, `CypherLower`, `CypherAcceptance`, `MatchMeaning`, `ScopeSafety`, `ExprMeaning`,
  `WhereMeaning`, `QueryMeaning`, `AnswerMeaning`, `WriteMeaning`, `SetMeaning`, `StatementMeaning`,
  `CypherApi`). The methods of `LowerCtx` compute one query or a list
  of update operations, given by functions of the syntax tree; about those functions are proved what
  a lowered pattern, its WHERE and its RETURN mean, which variables are bound, and what DELETE and SET
  do to a store. Patterns mean homomorphisms and expressions have values of their own, both without
  mention of a variable; a query asks for a sequence of rows, a statement for a store. SPARQL algebra
  is given a solution semantics (section 18 of SPARQL 1.1 Query Language), update requests the
  semantics of section 3.1.3 of SPARQL 1.1 Update. The lexer is proved against a relation between
  texts and tokens, the expression parser against a grammar, both in both directions.
* **The reasoning overlay cache** (`Overlay`). Any number of callers of `current` interleave with
  compactions; each lock operation, check and store is a step of its own.

`Options`, `Sequences` and `Numerals` are helpers.

## What the proofs found

* **Backward `+` omits a target on a cycle.** With only the target bound, backward search marks the
  target as seen before it starts, so `(t, t)` is never listed although `t` reaches itself. It agrees
  with forward search exactly when identities are asked for or `t` is on no cycle
  (`BackwardAgreesIffNotOnCycle`).
* **Term lookup can miss.** Entries are sorted by tag and text only, and lookup starts at the last
  block whose first key is not beyond the wanted one. It finds every stored term exactly when no run
  of equal keys (one text, several languages or datatypes) goes on from one block into the next
  (`LookupCompleteIffNoCrossing`). Exactly then does interning every known term again leave the
  dictionary as it was (`ReinternExactIff`); otherwise some known term gets a second id. Nine literals
  with one text and nine languages, interned, compacted, and the first interned again, are an example
  (`SecondIdAfterCompaction`). Over whole runs terms and ids correspond one to one while no run of
  keys crosses, and always if no two regular terms share tag and text (`KeysApartMeansOneToOne`).
* **Looking up a quoted triple that was never interned** runs into the tier's "unreachable" branch
  exactly while the compacted tier is not empty (`Dictionary.GetId`, whose result then is `Aborts`):
  intern one IRI, compact, and look up any quoted triple (`UnknownTripleAborts`).
* **The recorded generation can move backward** (`LabelCanMoveBackward`), exactly when the label is
  given by a caller that another one, who began later and on a newer generation, overtook
  (`LabelMovesBackwardIff`). A returned overlay is never older than the generation its caller read
  first.
* **A lone node without label or property lowers to nothing**, so its name is never bound. That is the
  only pattern whose meaning is lost when names do not collide (`PreservedIffAnchored`). `MATCH (n)
  DELETE n` empties the store (`BareStatementEmptiesStore`); `MATCH (n) SET n.k = v` changes only the
  nodes that have the property already (`BareSetOnlyReplaces`), and labels reach no node
  (`BareLabelsChangeNothing`).
* **Parts that share a variable must share a value.** A generated name can be the user's, and so can
  the variable a property is read into. Whatever the names are, what is found are exactly the matches
  in which parts and reads that share a variable have the same value (`FoundIffAgrees`,
  `FoundWhereIffAgrees`); a match is lost exactly when no assignment for it agrees. A node called
  `_node0` beside an anonymous one loses matches so (`CollisionLosesMatches`), and a node called
  `n_age` where the WHERE reads `n.age` (`ReadCollidesWithName`). No match is lost when no name starts
  with an underscore and no property is read into another variable (`ClearNamesNeverCollide`,
  `WherePreservesMeaning`), for which names without any underscore are enough (`PlainReadsApart`).
* **A property read in RETURN or ORDER BY is asked for as well**, as the mapping has it: a query
  returns one row for every match that has a value for every property it reads, and none for the
  others (`QueryAnswers`).
* **A column may rebind a variable.** `RETURN n.age AS n` extends a variable that is bound, which
  section 18.2.1 of SPARQL 1.1 Query Language does not allow (`AliasMayRebind`); which accepted
  queries do so is `QueryExtendsNewIff`.
* **SET may read a property too late.** The base pattern is copied before the value is lowered, so
  with plain names `SET n.age = n.age + 1` is well scoped only if WHERE reads `n.age` too
  (`PlainStatementScopedIff`). Then SET assigns exactly what it should (`SetAssignsOnMatches`).
  Otherwise the old value is removed and none inserted (`SetLosesValue`, `YearOlderLosesAge`).
* **Each DELETE operation looks at the store the ones before left.** It never removes too much. For
  one node found by a label or a property it removes what it should exactly when no node that stays
  points to a deleted one (`DeleteExactIff`, with `DeleteLeavesIncomingEdge` as a concrete store). With
  several variables nothing matches once the operations for the first one have run, so the others do
  nothing, and the result is right exactly when the first took everything (`DeleteListExactIff`).
  `MATCH (a:A)-[:K]->(b:B) DELETE a, b` leaves `b` although nothing else points to either
  (`DeleteBothEndsLeavesOne`).

## Model

| member | source | states |
|---|---|---|
| `Datasets.JoinScan` | crates/core/nova-core/src/trie.rs:44-90 | a scan lists, increasing and without repetition, exactly the values of one field over the matching triples |
| `Paths.NormalizeReverse` | crates/core/nova-query/src/path.rs:617-661 | terminates and leaves `^` only before single predicates and negated sets |
| `Paths.NormalizeIdempotent` | crates/core/nova-query/src/path.rs:617-661 | a normalized path is a fixed point |
| `Paths.NormalizePreservesMeaning` | crates/core/nova-query/src/path.rs:617-661 | pushing `^` inward keeps the path's relation on every dataset |
| `Paths.NegatedSetMeans` | crates/core/nova-query/src/path.rs:787-830 | a negated set relates the ends of exactly the triples whose predicate is the id of none of its names, and reversed the same pairs turned round |
| `Paths.StrangersOnlyReachThemselves` | crates/core/nova-query/src/path.rs:877-969 | any path relates an id that occurs nowhere in the data to itself at most |
| `Nfas.LeavesThroughAccept` | crates/core/nova-query/src/path.rs:531-606 | a run that starts inside a fragment stays in it or first reaches its accept state, however many edges are added around it |
| `Nfas.StaysExact` | crates/core/nova-query/src/path.rs:531-606 | a fragment still relates its path's pairs after later growth that leaves its accept state alone |
| `Nfas.SequenceExact` | crates/core/nova-query/src/path.rs:531-606 | joining two exact fragments gives exactly the composed relation |
| `Nfas.AlternativeExact` | crates/core/nova-query/src/path.rs:531-606 | wiring two exact fragments between a new entry and exit gives exactly the union |
| `Nfas.WrapExact` | crates/core/nova-query/src/path.rs:531-606 | the loop and bypass edges of `?`, `+` and `*` give exactly the option, the transitive and the reflexive transitive closure |
| `Nfas.Nfa.Compile` | crates/core/nova-query/src/path.rs:531-606 | for every normalized path the new states form a fragment whose start-to-accept runs are the path's pairs on every dataset; older states keep their edges |
| `Nfas.Nfa.Repetition` | crates/core/nova-query/src/path.rs:531-606 | the same for one of the three repetitions, given how it bypasses and loops |
| `Nfas.Nfa.Choice` | crates/core/nova-query/src/path.rs:531-606 | the same for an alternative |
| `ProductSearch.EpsilonClosure` | crates/core/nova-query/src/path.rs:675-690 | exactly the states reachable by epsilon edges alone, and closed under them |
| `ProductSearch.FollowNegated` | crates/core/nova-query/src/path.rs:784-836 | from a node, forward or backward, exactly the nodes linked by a triple whose predicate is the id of none of the names, in every state reached from the target without an edge |
| `ProductSearch.FollowEdge` | crates/core/nova-query/src/path.rs:701-843 | one edge adds exactly the epsilon-closed pairs it leads to, each queued once |
| `ProductSearch.FollowEdges` | crates/core/nova-query/src/path.rs:701-843 | expanding a pair keeps the visited set sound, closed under epsilon and inside the finite universe |
| `ProductSearch.ProductBfs` | crates/core/nova-query/src/path.rs:701-843 | terminates with exactly the nodes that runs from the start node reach in the accept state |
| `Rpq.ReachedFrom` | crates/core/nova-query/src/path.rs:877-969 | compiling and searching from a node gives exactly the path's successors of it |
| `Rpq.EvalRpq` | crates/core/nova-query/src/path.rs:877-969 | declines simple predicate paths; otherwise lists, without repetition, the path's relation restricted to the bound ends, in all four modes |
| `Rpq.EvalUnbound` | crates/core/nova-query/src/path.rs:877-969 | with no end bound, the pairs of the relation whose source is a node of the data, each once |
| `Rpq.UnboundMissesOnlyStrangers` | crates/core/nova-query/src/path.rs:877-969 | the unbound mode leaves out nothing but identities at ids the data never mentions |
| `Transitive.EmitSuccessors` | crates/core/nova-query/src/path.rs:175-248 | dequeuing a node visits, queues and emits its successors, each once |
| `Transitive.ForwardFrom` | crates/core/nova-query/src/path.rs:175-248 | from one start, exactly the pairs of `+` (or `*`) not already given, each once |
| `Transitive.BfsForward` | crates/core/nova-query/src/path.rs:175-248 | each pair of the closure from the start nodes once, identities when asked, whatever repetitions the starts hold |
| `Transitive.BfsBackward` | crates/core/nova-query/src/path.rs:350-391 | exactly the proper predecessors of the target, and the target itself only when identities are asked for |
| `Transitive.BackwardAgreesIffNotOnCycle` | crates/core/nova-query/src/path.rs:350-391 | backward and forward search agree on a bound target if and only if identities are asked for or the target is on no cycle |
| `Transitive.BackwardMissesSelfLoop` | crates/core/nova-query/src/path.rs:350-391 | a single self-loop on which they differ |
| `Transitive.LayerGrows` | crates/core/nova-query/src/path.rs:407-483 | adding the successors of the nodes at distance n gives the ball and the sphere of radius n + 1 |
| `Transitive.MissRulesOut` | crates/core/nova-query/src/path.rs:407-483 | a pass without a hit rules out walks one longer than the two radii together |
| `Transitive.HitIsWalk` | crates/core/nova-query/src/path.rs:407-483 | a hit is a shortest walk, one longer than the two radii |
| `Transitive.Round` | crates/core/nova-query/src/path.rs:407-483 | a round finds a shortest walk of 2n + 1 or 2n + 2 edges or rules both out, for either expansion order |
| `Transitive.BidirectionalReachable` | crates/core/nova-query/src/path.rs:407-483 | true if and only if one or more edges lead to the target, and then in round ceil(d / 2) for the shortest length d, cycles included |
| `Transitive.ReachedIsPathMeaning` | crates/core/nova-query/src/path.rs:278-345 | what the dedicated searches answer is what the path algebra means by `p+` and `p*` |
| `Transitive.BfsBound` | crates/core/nova-query/src/path.rs:301-345 | dispatch on the bound ends gives the closure restricted to them, except the backward case above; declines with no end bound |
| `Bytes.WriteVarint` | crates/core/nova-core/src/dict_compact.rs:86-97 | appends the base-128 encoding that the reader inverts |
| `Bytes.ReadVarint` | crates/core/nova-core/src/dict_compact.rs:99-112 | reads back the number written at a position and where it ends |
| `Bytes.VarintRoundTrip` | crates/core/nova-core/src/dict_compact.rs:86-112 | decoding an encoded number gives the number and its length |
| `Bytes.VarintNeverEnds` | crates/core/nova-core/src/dict_compact.rs:99-112 | nothing is read exactly when no byte from the position on ends the number |
| `Bytes.CommonPrefixMaximal` | crates/core/nova-core/src/dict_compact.rs:126-128 | the shared prefix is shared and cannot be longer |
| `Bytes.FirstDifferenceDecides` | crates/core/nova-core/src/dict_compact.rs:461-508 | byte strings are ordered by the first byte that differs, a prefix first |
| `Bytes.ReadFramed` | crates/core/nova-core/src/dict_compact.rs:114-124 | a length-prefixed text is read back whole |
| `Terms.CodecRoundTrip` | crates/core/nova-core/src/dict_compact.rs:138-234 | key and auxiliary bytes of every regular term decode to the term |
| `Terms.ContentIdentifiesTerm` | crates/core/nova-core/src/dict_compact.rs:138-181 | two terms with the same key and auxiliary bytes are the same |
| `Terms.RefusedContents` | crates/core/nova-core/src/dict_compact.rs:184-234 | decoding fails for exactly these: an unknown tag, no framed string where one belongs, no or an unknown direction byte |
| `CompactedTier.WidthFits` | crates/core/nova-core/src/dict_compact.rs:130-132 | every value up to the maximum fits the computed bit width |
| `CompactedTier.WidthIsLeast` | crates/core/nova-core/src/dict_compact.rs:130-132 | and no narrower width would do |
| `CompactedTier.KeysByTagThenText` | crates/core/nova-core/src/dict_compact.rs:461-508 | keys are ordered by tag, then by the first byte in which the texts differ |
| `CompactedTier.PackedExactly` | crates/core/nova-core/src/dict_compact.rs:130-132 | so storing it in that many bits loses nothing |
| `CompactedTier.OffsetsWrap` | crates/core/nova-core/src/dict_compact.rs:313-379 | a stored offset keeps its low 32 bits, and fits exactly when that changes nothing |
| `FrontCoding.EntryLayout` | crates/core/nova-core/src/dict_compact.rs:313-379 | where the fields of an encoded entry stand |
| `FrontCoding.DecodeEntry` | crates/core/nova-core/src/dict_compact.rs:419-445 | an entry is read back from its shared prefix with the one before it |
| `FrontCoding.DecodeRun` | crates/core/nova-core/src/dict_compact.rs:419-445 | the bytes of a block decode to exactly the block's contents |
| `CompactedTier.Build` | crates/core/nova-core/src/dict_compact.rs:313-379 | for every entry list the rank tables are inverse to each other (`rank2id[id2rank[id]] == id` for every encoded id, the width losing nothing), and buffer, block index and tables represent exactly that list if the buffer length fits 32 bits |
| `CompactedTier.InvertRanks` | crates/core/nova-core/src/dict_compact.rs:313-379 | every encoded id's slot holds its rank |
| `CompactedTier.DecodeBlock` | crates/core/nova-core/src/dict_compact.rs:419-445 | decoding a block of the built buffer gives exactly that slice of the entries |
| `CompactedTier.FindJumpBlock` | crates/core/nova-core/src/dict_compact.rs:461-508 | binary search finds the last block whose first key is not beyond the target |
| `CompactedTier.ScanBlock` | crates/core/nova-core/src/dict_compact.rs:461-508 | scanning a block finds its first match, stops rightly, or leaves the answer to the blocks after it |
| `CompactedTier.GetId` | crates/core/nova-core/src/dict_compact.rs:461-508 | the id of the first matching entry from the jump block on |
| `CompactedTier.DecodeId` | crates/core/nova-core/src/dict_compact.rs:513-537 | an encoded id decodes to its entry's contents; ids past the tier decode to nothing |
| `CompactedTier.DecodeBlockForId` | crates/core/nova-core/src/dict_compact.rs:539-561 | the block of an id, each entry with its own id |
| `LookupTheory.LookupSound` | crates/core/nova-core/src/dict_compact.rs:461-508 | a returned id belongs to an entry with the queried contents |
| `LookupTheory.LookupMissesExactlyEarlierBlocks` | crates/core/nova-core/src/dict_compact.rs:461-508 | nothing is found if and only if no match lies in or after the jump block |
| `LookupTheory.MissedMatchMeansCrossing` | crates/core/nova-core/src/dict_compact.rs:461-508 | a match lies before the jump block only inside an equal-key run that crosses into it |
| `LookupTheory.CrossingHidesEntry` | crates/core/nova-core/src/dict_compact.rs:461-508 | the entry before a boundary its key run crosses is never found |
| `LookupTheory.LookupCompleteIffNoCrossing` | crates/core/nova-core/src/dict_compact.rs:461-508 | every stored term is found under its id if and only if no equal-key run crosses a block boundary |
| `LookupTheory.EqualTextsCrossABlock` | crates/core/nova-core/src/dict.rs:557-557 | any nine entries with one tag and text whose auxiliary bytes differ: sorted, and the eight before the boundary out of reach |
| `Caches.Get` | crates/core/nova-core/src/dict_block_cache.rs:247-259 | finds what is held under a key and makes it the most recent, keeps the contents and the bound |
| `Caches.Put` | crates/core/nova-core/src/dict_block_cache.rs:247-259 | adds nothing but the new item and never exceeds the capacity |
| `Caches.PutEvictsOldest` | crates/core/nova-core/src/dict_block_cache.rs:247-259 | a new item in a full cache drops exactly the least recent one |
| `BlockCache.CompressBlocks` | crates/core/nova-core/src/dict_block_cache.rs:143-175 | the compressed blocks decompress, piece by piece, to the buffer, if decompressing undoes compressing |
| `BlockCache.BlockIndexBrackets` | crates/core/nova-core/src/dict_block_cache.rs:198-205 | the block computed for an offset is the one that contains it |
| `BlockCache.BlockCachedTier.constructor` | crates/core/nova-core/src/dict_block_cache.rs:214-245 | an empty cache of at least one block over a represented entry list |
| `BlockCache.BlockCachedTier.GetBlock` | crates/core/nova-core/src/dict_block_cache.rs:247-259 | the true bytes of a block, whatever the cache holds; the bound is kept |
| `BlockCache.BlockCachedTier.RawSlice` | crates/core/nova-core/src/dict_block_cache.rs:261-290 | any range, over any number of blocks, equals the same range of the raw buffer |
| `BlockCache.BlockCachedTier.DecodeBlock` | crates/core/nova-core/src/dict_block_cache.rs:292-316 | the same contents as the owned tier's block |
| `BlockCache.BlockCachedTier.GetId` | crates/core/nova-core/src/dict_block_cache.rs:318-360 | the owned tier's answer for every term after every cache history |
| `BlockCache.BlockCachedTier.DecodeId` | crates/core/nova-core/src/dict_block_cache.rs:362-375 | the owned tier's answer for every id |
| `BlockCache.BlockCachedTier.DecodeBlockForId` | crates/core/nova-core/src/dict_block_cache.rs:377-397 | the owned tier's block, entries with their ids |
| `Dictionaries.Dictionary.constructor` | crates/core/nova-core/src/dict.rs:223-244 | no terms, the default graph under 0 |
| `Dictionaries.Dictionary.Intern` | crates/core/nova-core/src/dict.rs:345-389 | the answer and the new terms, delta and entries are exactly those of the interning function; earlier ids and the caches stay consistent; fails only past the 40-bit id space |
| `Dictionaries.Dictionary.InternTriple` | crates/core/nova-core/src/dict.rs:352-374 | the same for a quoted triple, components first, in order, each left interned if a later one fails |
| `Dictionaries.Dictionary.AppendTriple` | crates/core/nova-core/src/dict.rs:366-373 | a new triple takes the next position with its components recorded under smaller ids |
| `Dictionaries.Dictionary.GetId` | crates/core/nova-core/src/dict.rs:395-402 | for every term: an answer is a position of the term; aborts if and only if the term is a quoted triple never interned and the tier is not empty; without crossing runs and aborts there is an answer if and only if the term is known |
| `Dictionaries.Dictionary.GetTerm` | crates/core/nova-core/src/dict.rs:418-450 | every id decodes to the term it was given for, whatever either cache holds or evicts, and no other id decodes |
| `Dictionaries.Dictionary.InternGraph` | crates/core/nova-core/src/dict.rs:467-486 | names keep their ids; fails exactly when the name is new and all 255 ids are taken |
| `GraphNames.AssignKeepsTable` | crates/core/nova-core/src/dict.rs:467-486 | taking the next graph id keeps the two maps inverse to each other and the counter honest, wrap-around included |
| `Dictionaries.Dictionary.CollectEntries` | crates/core/nova-core/src/dict.rs:536-555 | one entry for each regular term, from either tier, none for a quoted triple |
| `Dictionaries.SortEntries` | crates/core/nova-core/src/dict.rs:557-557 | the same entries in key order, equal keys by id |
| `Dictionaries.Dictionary.Compact` | crates/core/nova-core/src/dict.rs:536-579 | the term sequence is unchanged, exactly the regular terms move to the new tier, the decode cache is empty |
| `Dictionaries.LookupsExactIffNoCrossing` | crates/core/nova-core/src/dict.rs:376-380 | compacted terms are all found under their ids if and only if no equal-key run crosses a boundary |
| `InternTheory.AfterInternMeaning` | crates/core/nova-core/src/dict.rs:345-389 | interning any term changes no id given before, answers with a position of the term, and adds nothing but the term and its components at every depth |
| `InternTheory.AfterInternUnique` | crates/core/nova-core/src/dict.rs:345-389 | while no equal-key run crosses a boundary, no term is added twice, quoted triples of any nesting included |
| `InternTheory.ReinternExactIff` | crates/core/nova-core/src/dict.rs:345-389 | interning each known term again gives its id and changes nothing if and only if no equal-key run crosses a block boundary |
| `InternTheory.CompactedSound` | crates/core/nova-core/src/dict.rs:536-579 | what compaction leaves is sound again: every id in exactly one tier, quoted triples in the delta |
| `InternTheory.SecondIdAfterCompaction` | crates/core/nova-core/src/dict.rs:345-579 | nine literals with one text and nine languages interned into an empty dictionary, compacted, and the first interned again: it gets id 9 and id 0 keeps it too |
| `InternTheory.UnknownTripleAborts` | crates/core/nova-core/src/dict.rs:395-402 | one IRI interned into an empty dictionary and compacted: looking up a quoted triple of it aborts |
| `DictionaryRuns.AnswersStayTrue` | crates/core/nova-core/src/dict.rs:345-579 | over any run of interning, decoding and compacting, every answer agrees with the last term sequence |
| `DictionaryRuns.NoCrossingMeansOneToOne` | crates/core/nova-core/src/dict.rs:345-579 | while no tier in force has a crossing run, two answers of a run name one id exactly when they name one term |
| `DictionaryRuns.KeysApartMeansOneToOne` | crates/core/nova-core/src/dict.rs:345-579 | the same whenever no two regular terms among those known and requested, components included, share tag and text |
| `DictionaryRuns.ServeOne` | crates/core/nova-core/src/dict.rs:345-579 | one request: an interned term's id, the term of an id or nothing past the last, a compaction |
| `DictionaryRuns.Serve` | crates/core/nova-core/src/dict.rs:345-579 | every request is answered in order, each answer the one for that request on the state it met, unless a compaction outgrows the 32-bit offsets of its tier |
| `Snapshots.WriteTriples` | crates/core/nova-core/src/dict.rs:677-710 | the arrays list exactly the quoted triples, by increasing id, with their components |
| `Snapshots.WriteGraphs` | crates/core/nova-core/src/dict.rs:712-732 | the arrays hold exactly the graph table |
| `Snapshots.GraphRoundTrip` | crates/core/nova-core/src/dict.rs:712-880 | kind and text of a graph name give the name back |
| `Snapshots.ReadGraphs` | crates/core/nova-core/src/dict.rs:864-895 | reading the arrays restores both maps of the graph table |
| `Snapshots.DecodeComponent` | crates/core/nova-core/src/dict.rs:807-818 | a component is found among the triples already rebuilt or in the tier, never in a gap |
| `Snapshots.RebuildTriples` | crates/core/nova-core/src/dict.rs:798-862 | every quoted triple, nested to any depth, is rebuilt under its id |
| `Snapshots.ToSnapshot` | crates/core/nova-core/src/dict.rs:677-745 | a snapshot taken after a compaction represents the dictionary's terms and graphs |
| `Snapshots.SaveAndReopen` | crates/core/nova-core/src/dict.rs:677-908 | compacting, saving and reopening keeps every id, term and graph name, quoted triples of any nesting included; it gives nothing only if the tier buffer or the graph names outgrow 32 bits |
| `Snapshots.Reopen` | crates/core/nova-core/src/dict.rs:753-908 | reopening it over compressed blocks gives a valid dictionary with the same id-to-term and graph maps |
| `CypherLexer.Lex` | crates/core/nova-cypher/src/lexer.rs:84-348 | the loop computes the token function, comments, escapes, fractions and errors included |
| `CypherLexer.ReadString` | crates/core/nova-cypher/src/lexer.rs:251-289 | the loop computes the string function: the text up to the closing quote, or an error when there is none |
| `CypherText.LexesIff` | crates/core/nova-cypher/src/lexer.rs:84-348 | a text is lexed as some tokens if and only if it is made of spellings of them, each as long as it can be, with white space and comments between and an end marker; any other text is an error |
| `CypherText.ReadIsPieces` | crates/core/nova-cypher/src/lexer.rs:251-289 | what is read of a string literal is a list of characters as they stand or behind a backslash, `n`, `t` and `r` meaning line feed, tab and carriage return and any other character itself |
| `CypherText.PiecesAreRead` | crates/core/nova-cypher/src/lexer.rs:251-289 | and every such list is read as that text, under either quote |
| `CypherText.LexedTokens` | crates/core/nova-cypher/src/lexer.rs:84-348 | what is lexed ends with the only end marker and holds no negative number |
| `CypherText.LexInvertsRender` | crates/core/nova-cypher/src/lexer.rs:84-348 | tokens written out with spaces between, under either quote, line breaks and tabs escaped, are read back, whatever their texts and numbers |
| `CypherSyntax.WordIff` | crates/core/nova-cypher/src/parser.rs:113-119 | a name is taken for one of the six words of the grammar exactly when it has its letters, each capital or small |
| `CypherParser.Parser.Advance` | crates/core/nova-cypher/src/parser.rs:86-101 | the cursor moves by one token and never past the end marker |
| `CypherParser.Parser.ParseOr` | crates/core/nova-cypher/src/parser.rs:558-566 | terminates, stays in bounds and reads what the grammar's OR level reads |
| `CypherParser.Parser.ParseAnd` | crates/core/nova-cypher/src/parser.rs:568-576 | the same for AND |
| `CypherParser.Parser.ParseNot` | crates/core/nova-cypher/src/parser.rs:578-586 | the same for NOT |
| `CypherParser.Parser.ParseComparison` | crates/core/nova-cypher/src/parser.rs:588-606 | the same for comparisons, which do not chain |
| `CypherParser.Parser.ParseAdditive` | crates/core/nova-cypher/src/parser.rs:608-626 | the same for sums |
| `CypherParser.Parser.ParseMultiplicative` | crates/core/nova-cypher/src/parser.rs:628-646 | the same for products |
| `CypherParser.Parser.ParseUnary` | crates/core/nova-cypher/src/parser.rs:648-656 | the same for signs |
| `CypherParser.Parser.ParseAtomTok` | crates/core/nova-cypher/src/parser.rs:658-702 | the same for atoms and property chains |
| `CypherParser.Parser.ParseVarLength` | crates/core/nova-cypher/src/parser.rs:444-470 | the bounds written at the cursor, in any way, are the result, and the cursor stands right behind them |
| `CypherParser.BoundsAreRead` | crates/core/nova-cypher/src/parser.rs:444-470 | length bounds are read exactly where they are written, in whatever of their forms; the branches called unreachable are |
| `CypherParser.PhraseParses` | crates/core/nova-cypher/src/parser.rs:554-702 | every phrase of the grammar, before a token that cannot carry it on, is read to its end as its tree, words in either case and parentheses wherever they may stand |
| `CypherParser.ParsedIsPhrase` | crates/core/nova-cypher/src/parser.rs:554-702 | whatever is read is a phrase of the grammar for the tree it gives |
| `CypherParser.RoundTrip` | crates/core/nova-cypher/src/parser.rs:554-702 | at every level, parsing a tree printed with only the parentheses that precedence requires, words spelled in any case, gives the tree, wherever it stands |
| `CypherParser.PrintInjective` | crates/core/nova-cypher/src/parser.rs:554-702 | so the printed form identifies the tree, whatever the spelling |
| `CypherText.TextRoundTrip` | crates/core/nova-cypher/src/parser.rs:554-702 | from tree to text, through lexer and parser, and back, for every spelling of the words and either quote |
| `CypherMapping.FreshNamesApart` | crates/core/nova-cypher/src/lower.rs:187-191 | prefix and counter can be told from a generated name, when the prefixes end in a letter |
| `CypherMapping.DigitPrefixClashes` | crates/core/nova-cypher/src/lower.rs:1039-1065 | the one prefix that ends in a digit can give a name of another's |
| `CypherAcceptance.LegalNames` | crates/core/nova-cypher/src/lower.rs:203-211 | legal variable names are the non-empty words of letters, digits and underscores |
| `CypherAcceptance.ColumnsAre` | crates/core/nova-cypher/src/lower.rs:470-502 | a column is called as AS says, else after its variable, else after node and property; other expressions have no name |
| `CypherAcceptance.NamespacesApart` | crates/core/nova-cypher/src/lower.rs:321-347 | IRIs of labels, relationship types and properties never coincide and identify their names |
| `CypherAcceptance.RefusedExpressions` | crates/core/nova-cypher/src/lower.rs:506-613 | an expression is refused if and only if some part of it is an unknown name, a property of anything but a node's name, or NULL |
| `CypherAcceptance.RefusedNodes` | crates/core/nova-cypher/src/lower.rs:321-347 | a node is refused if and only if its name is illegal or a property is NULL |
| `CypherAcceptance.RefusedRels` | crates/core/nova-cypher/src/lower.rs:349-463 | a relationship is refused for exactly these: of variable length with a name, properties, an upper bound, no type or a least length above one; of one step with a NULL, or an illegal name that stands for its type |
| `CypherLower.LowerCtx.LowerNodePattern` | crates/core/nova-cypher/src/lower.rs:321-347 | pushes the node's label and property triples, registers its name, and fails exactly on illegal names and NULL |
| `CypherLower.LowerCtx.LowerRelPattern` | crates/core/nova-cypher/src/lower.rs:349-463 | pushes the edge and its annotations, or the path, and fails exactly on the relationships that are not supported |
| `CypherLower.LowerCtx.LowerPattern` | crates/core/nova-cypher/src/lower.rs:309-317 | fails exactly on unsupported patterns; otherwise triples, paths, names and counter are those of the whole pattern |
| `CypherLower.LowerCtx.LowerPropertyRef` | crates/core/nova-cypher/src/lower.rs:581-613 | a property is a variable bound by one triple, pushed only the first time |
| `CypherLower.LowerCtx.LowerExpr` | crates/core/nova-cypher/src/lower.rs:506-579 | the lowered tree depends only on the names in scope; each property read first pushes one triple; fails exactly on unknown names, chained access, relationship properties and NULL |
| `CypherLower.LowerCtx.LowerReturnItem` | crates/core/nova-cypher/src/lower.rs:481-502 | the column name, and an expression unless the column is already bound under it |
| `CypherLower.LowerCtx.LowerQuery` | crates/core/nova-cypher/src/lower.rs:214-305 | the whole query: every property read is in the base, then filter, columns, order, projection, duplicates, slice |
| `CypherLower.LowerCtx.LowerSetProperty` | crates/core/nova-cypher/src/lower.rs:851-906 | the delete-old and insert-new operation over the copied base |
| `CypherLower.LowerCtx.LowerDelete` | crates/core/nova-cypher/src/lower.rs:1007-1090 | two operations for each node, one for each relationship, with fresh names, in order |
| `CypherLower.LowerCtx.LowerStatement` | crates/core/nova-cypher/src/lower.rs:638-710 | the operations of all write clauses, in order, over one base |
| `MatchMeaning.BaseSound` | crates/core/nova-cypher/src/lower.rs:249-257 | a solution of the base satisfies every triple pattern and every path and binds just their variables |
| `MatchMeaning.BaseComplete` | crates/core/nova-cypher/src/lower.rs:249-257 | and every such binding is a solution |
| `MatchMeaning.BoundsArePath` | crates/core/nova-cypher/src/lower.rs:365-408 | the walks within accepted bounds are exactly those of the path they are lowered to |
| `MatchMeaning.HopPartHolds` | crates/core/nova-cypher/src/lower.rs:349-463 | the triples or path of one relationship hold if and only if the edge does: arrows to the left swapped, undirected read to the right, `*` as one or more, `*0..` as zero or more, properties as annotations |
| `MatchMeaning.ReadIsHomomorphism` | crates/core/nova-cypher/src/lower.rs:309-463 | the nodes and edge types any solution gives to the parts of the pattern form a homomorphism |
| `MatchMeaning.FoundIsMatched` | crates/core/nova-cypher/src/lower.rs:309-463 | every solution of the lowered pattern, restricted to the user's names, is a homomorphic match, whatever the names |
| `MatchMeaning.FoundIffAgrees` | crates/core/nova-cypher/src/lower.rs:309-463 | whatever the names, what is found is exactly what some homomorphism gives in which parts that share a variable have one value, on every store |
| `MatchMeaning.MatchedIsFound` | crates/core/nova-cypher/src/lower.rs:309-463 | every homomorphic match is a solution, if no name of the user's is a generated one |
| `MatchMeaning.LoweringPreservesMeaning` | crates/core/nova-cypher/src/lower.rs:309-463 | so, if no name of the user's is a generated one, solutions restricted to the user's names are exactly the homomorphic matches, for patterns of any length and every store |
| `MatchMeaning.PreservedIffAnchored` | crates/core/nova-cypher/src/lower.rs:309-347 | that holds on all stores if and only if the pattern has an edge, a label or a property |
| `MatchMeaning.CollisionLosesMatches` | crates/core/nova-cypher/src/lower.rs:187-211 | a node called `_node0` beside an anonymous one: a match without a solution |
| `ScopeSafety.ClearNamesNeverCollide` | crates/core/nova-cypher/src/lower.rs:187-211 | names that do not start with an underscore are never generated ones |
| `ScopeSafety.SelectionScope` | crates/core/nova-cypher/src/lower.rs:249-264 | exactly which variables the pattern and the properties read bind |
| `ScopeSafety.QueryScoped` | crates/core/nova-cypher/src/lower.rs:214-305 | every filter, column, order key and projection uses bound variables only, if the pattern is anchored, some property is read, or no node is used by itself |
| `ScopeSafety.QueryScopedIff` | crates/core/nova-cypher/src/lower.rs:214-305 | exactly which accepted queries are: those, and the ones that use by themselves only names that earlier computed columns bind |
| `ScopeSafety.QueryExtendsNewIff` | crates/core/nova-cypher/src/lower.rs:247-305 | exactly which accepted queries extend new variables only: no computed column is called like a variable of the pattern, a property read, or an earlier computed column |
| `ScopeSafety.AliasMayRebind` | crates/core/nova-cypher/src/lower.rs:481-502 | `RETURN n.age AS n` is accepted and extends the node's own variable |
| `ScopeSafety.SetScopedIff` | crates/core/nova-cypher/src/lower.rs:655-669 | a SET is well scoped if and only if the base is, and each property its value reads is called like a variable of the base, the node or the old value |
| `ScopeSafety.ReadBoundIff` | crates/core/nova-cypher/src/lower.rs:597-612 | with names without an underscore a property read is called like one of those exactly when WHERE reads it |
| `ScopeSafety.StatementScopedIff` | crates/core/nova-cypher/src/lower.rs:638-710 | exactly which accepted statements, all their operations together, are well scoped and bind their templates, clause by clause with the names each takes |
| `ScopeSafety.PlainStatementScopedIff` | crates/core/nova-cypher/src/lower.rs:638-710 | with names without an underscore: if and only if the WHERE uses what is bound, SET values read only what WHERE reads, and labels go to bound nodes |
| `ExprMeaning.ExprKeepsMeaning` | crates/core/nova-cypher/src/lower.rs:506-613 | on a binding that reads as a match, the lowered expression has the value of the Cypher expression, names standing for nodes and types, properties for the values read, inequality for negated equality |
| `WhereMeaning.SolutionIsSelected` | crates/core/nova-cypher/src/lower.rs:655-710 | any solution of pattern and WHERE, whatever the names, reads as a homomorphic match with a stored value for each property read, on which the Cypher condition is true and shared variables agree |
| `WhereMeaning.SelectedIsSolution` | crates/core/nova-cypher/src/lower.rs:655-710 | every such match is a solution |
| `WhereMeaning.FoundWhereIffAgrees` | crates/core/nova-cypher/src/lower.rs:214-264 | so what is found are exactly the matches on which the condition is true, with their values, in which parts and reads that share a variable agree |
| `WhereMeaning.WherePreservesMeaning` | crates/core/nova-cypher/src/lower.rs:214-264 | all matches on which the condition is true, when no name is a generated one and no property is read into another variable |
| `WhereMeaning.PlainReadsApart` | crates/core/nova-cypher/src/lower.rs:187-211 | which names without an underscore ensure |
| `WhereMeaning.ReadCollidesWithName` | crates/core/nova-cypher/src/lower.rs:581-613 | a node called `n_age` where WHERE reads `n.age`: a match on which the condition is true, and no solution |
| `QueryMeaning.RowsExtend` | crates/core/nova-cypher/src/lower.rs:266-273 | the rows before ordering are the solutions of the base, extended by one computed column after the other |
| `QueryMeaning.RowIsRowOf` | crates/core/nova-cypher/src/lower.rs:481-502 | when columns are new, the row of a match holds under each column the value of its RETURN item, or nothing on an error |
| `AnswerMeaning.ListedTogether` | crates/core/nova-cypher/src/lower.rs:247-273 | listing every match once is listing every row once |
| `AnswerMeaning.SameOrder` | crates/core/nova-cypher/src/lower.rs:235-282 | the lowered keys order rows as ORDER BY, with its directions, orders the matches by its values |
| `AnswerMeaning.OnceIsFirstOnes` | crates/core/nova-cypher/src/lower.rs:289-291 | there is one way to keep every row where it occurs first, and it is what DISTINCT does |
| `AnswerMeaning.QueryAnswers` | crates/core/nova-cypher/src/lower.rs:214-305 | the rows of the lowered query are exactly the answers: the rows of the matches on which the WHERE is true, each match once, in the order of ORDER BY, without repetitions exactly when DISTINCT is asked for, from SKIP on, as many as LIMIT |
| `AnswerMeaning.AllMatches` | crates/core/nova-cypher/src/lower.rs:214-305 | when names do not collide, of all matches on which the WHERE is true |
| `CypherApi.Lower` | crates/core/nova-cypher/src/lower.rs:214-305 | fails exactly on queries that are not accepted; otherwise what it returns has those answers on every store, for every order of values |
| `Sparql.MatchMonotone` | crates/core/nova-cypher/src/lower.rs:655-669 | a match found in part of a store is found in all of it |
| `WriteMeaning.SubjectSideDeletes` | crates/core/nova-cypher/src/lower.rs:1038-1061 | the first operation deletes a triple if and only if its subject is a matched node |
| `WriteMeaning.ObjectSideDeletes` | crates/core/nova-cypher/src/lower.rs:1063-1086 | the second if and only if its object is |
| `WriteMeaning.OneStoreExact` | crates/core/nova-cypher/src/lower.rs:1036-1086 | against one store, together exactly the triples with a matched node at either end |
| `WriteMeaning.SequenceExactIff` | crates/core/nova-cypher/src/lower.rs:1036-1086 | in sequence the result is the same if and only if every matched node with an edge from an unmatched one still matches after the first |
| `WriteMeaning.StartedDeleteExactIff` | crates/core/nova-cypher/src/lower.rs:1036-1086 | when the base needs a triple starting at the node: if and only if there is no such edge |
| `WriteMeaning.DeleteStatement` | crates/core/nova-cypher/src/lower.rs:638-710 | a statement deleting one node, under names that do not start with an underscore, is those two operations, over a base that binds the node and none of their variables |
| `WriteMeaning.DeleteExactIff` | crates/core/nova-cypher/src/lower.rs:638-710 | deleting one node matched by a label or property is complete if and only if no unmatched node points to a matched one |
| `WriteMeaning.DeleteEdgeExact` | crates/core/nova-cypher/src/lower.rs:1014-1034 | whatever the names, deleting a relationship removes a triple if and only if some match on which the condition is true, and in which shared variables agree, takes it for that hop |
| `WriteMeaning.EdgeSilences` | crates/core/nova-cypher/src/lower.rs:1014-1034 | once the triples a needed pattern was matched with are gone, nothing matches |
| `WriteMeaning.AnyDeletes` | crates/core/nova-cypher/src/lower.rs:1007-1090 | for any list of variables, the operations against one store remove exactly the triples of a matched relationship or with a matched node at either end |
| `WriteMeaning.FirstDecide` | crates/core/nova-cypher/src/lower.rs:1007-1090 | when the first operations destroy every match, the others do nothing |
| `WriteMeaning.NodeIsGone` | crates/core/nova-cypher/src/lower.rs:1036-1086 | once both operations for a node have run, whatever would still match as that node occurs in no triple |
| `WriteMeaning.OpsSilence` | crates/core/nova-cypher/src/lower.rs:1007-1090 | so after the operations for any one variable the base matches nothing |
| `WriteMeaning.HitIsMatched` | crates/core/nova-cypher/src/lower.rs:638-710 | the nodes operated on are those of the matches on which the WHERE is true, in which shared variables agree |
| `WriteMeaning.DeleteListExactIff` | crates/core/nova-cypher/src/lower.rs:638-710 | for every list of nodes and relationships: the result is exactly what the operations for the first variable leave, never less than it should be, and right if and only if they took every triple of a matched relationship or with a matched node at either end |
| `WriteMeaning.DeleteBothEndsLeavesOne` | crates/core/nova-cypher/src/lower.rs:1007-1090 | `MATCH (a:A)-[:K]->(b:B) DELETE a, b` on the three triples it matches leaves the label of `b` |
| `WriteMeaning.DeleteLeavesIncomingEdge` | crates/core/nova-cypher/src/lower.rs:1063-1086 | a store on which an edge to the deleted node stays |
| `WriteMeaning.BareDeleteEmptiesStore` | crates/core/nova-cypher/src/lower.rs:1036-1061 | over an empty base the first operation deletes every triple |
| `WriteMeaning.BareStatementEmptiesStore` | crates/core/nova-cypher/src/lower.rs:638-710 | so `MATCH (n) DELETE n` leaves nothing of any store |
| `SetMeaning.SetDeletes` | crates/core/nova-cypher/src/lower.rs:851-906 | exactly the present values of the property of matched nodes are deleted |
| `SetMeaning.SetInserts` | crates/core/nova-cypher/src/lower.rs:851-906 | exactly the values the expression has in some match are inserted |
| `SetMeaning.SetAssigns` | crates/core/nova-cypher/src/lower.rs:638-710 | each matched node's values of the property become exactly those of the lowered expression in its matches, and every other triple is as it was |
| `SetMeaning.AssignedIsMatched` | crates/core/nova-cypher/src/lower.rs:851-906 | the values assigned to a node are those the Cypher expression has on its matches |
| `SetMeaning.SetAssignsOnMatches` | crates/core/nova-cypher/src/lower.rs:638-710 | the same in terms of matches and Cypher values alone, a property the WHERE did not read having no value |
| `SetMeaning.BareSetOnlyReplaces` | crates/core/nova-cypher/src/lower.rs:638-710 | `MATCH (n) SET n.prop = value` gives the value, whatever it reads, exactly to the nodes that have the property, and changes nothing else |
| `SetMeaning.SetLosesValue` | crates/core/nova-cypher/src/lower.rs:851-906 | a SET whose value reads a property into a variable that nothing binds removes every present value and changes nothing else, when the value is an error without the variable |
| `SetMeaning.YearOlderLosesAge` | crates/core/nova-cypher/src/lower.rs:638-710 | `MATCH (n:Person) SET n.age = n.age + 1` on a person aged 5 leaves the person without an age |
| `StatementMeaning.LabelClause` | crates/core/nova-cypher/src/lower.rs:910-1004 | SET of a label adds exactly the label triples of the matched nodes, REMOVE takes exactly those away, and every other triple is as it was |
| `StatementMeaning.RemoveClause` | crates/core/nova-cypher/src/lower.rs:935-975 | REMOVE of a property takes exactly the values of the matched nodes away |
| `StatementMeaning.DeleteClause` | crates/core/nova-cypher/src/lower.rs:1007-1090 | DELETE takes names one after the other: matched edges away, or the triples out of matched nodes and then those into the nodes still matched |
| `StatementMeaning.StatementRuns` | crates/core/nova-cypher/src/lower.rs:638-710 | any list of clauses does on every store what they ask for one after the other, each on the matches in the store the ones before left |
| `StatementMeaning.PlainStatementRuns` | crates/core/nova-cypher/src/lower.rs:638-710 | in particular every accepted statement over a pattern that binds its nodes and has no underscore in its names |
| `StatementMeaning.BareLabelsChangeNothing` | crates/core/nova-cypher/src/lower.rs:638-710 | over a lone node without a condition SET and REMOVE of a label change nothing |
| `CypherApi.LowerStatement` | crates/core/nova-cypher/src/lower.rs:638-710 | fails exactly on statements that are not accepted; otherwise what it returns does as asked on every store |
| `Overlay.ReturnedOverlayIsFresh` | crates/core/nova-reasoning/src/reasoning_state.rs:89-127 | over every interleaving a returned overlay was built from a state at least as new as the generation its caller read first |
| `Overlay.LabelNeverOverclaims` | crates/core/nova-reasoning/src/reasoning_state.rs:89-127 | the recorded generation never exceeds the built state |
| `Overlay.WritersAreExclusive` | crates/core/nova-reasoning/src/reasoning_state.rs:89-127 | rebuilds exclude each other and every reader |
| `Overlay.OverlayMovesForward` | crates/core/nova-reasoning/src/reasoning_state.rs:89-127 | the cached overlay only moves to newer states |
| `Overlay.NoGenerationBuildsOnce` | crates/core/nova-reasoning/src/reasoning_state.rs:89-127 | a store that reports no generation is wrapped once |
| `Overlay.LabelledIsServed` | crates/core/nova-reasoning/src/reasoning_state.rs:89-127 | a call that begins on the recorded generation, which stays recorded, never waits for the write lock nor builds |
| `Overlay.LabelCanMoveBackward` | crates/core/nova-reasoning/src/reasoning_state.rs:89-127 | a run in which the recorded generation decreases |
| `Overlay.LabelMovesBackwardIff` | crates/core/nova-reasoning/src/reasoning_state.rs:89-127 | over every interleaving: a step lowers the recorded generation if and only if it is the labelling by a caller during whose call another one began on a newer generation and gave the label that stands |

## Left out

- Cancellation of path searches: a cancelled run returns only an error, so completeness is stated for runs that are not cancelled.
- Scans that are unavailable, ids that do not decode and the string forms of path endpoints: scans follow their contract and answers are ids.
- Duplicate solutions of paths: the code computes sets of pairs, and so does the model.
- UTF-8, IRI validity and case mapping: texts are byte sequences in the dictionary; characters and variable names are ASCII in Cypher.
- Floating point: a float literal is its spelling, so two spellings of one number are two literals.
- Byte offsets kept with tokens, and all error message texts.
- Parsing of clauses, patterns and property maps: one token of lookahead each; only the length bounds of a relationship, which hold the unreachable branches, are modelled.
- What the operators of expressions compute: they are a parameter, the same in both languages, with inequality the negation of equality. Results about SET hold for every evaluator whose values depend on the expression's own variables only.
- How a store breaks ties of ORDER BY, and the order of values itself: both are left open, and every row order that ORDER BY allows is an answer.
- CypherLexer.Lex: does not model letters and white space outside ASCII, because the character classes of Unicode are tables of their own.
- CypherLower.LowerCtx.LowerStatement: models no CREATE clause, which adds templates with new blank nodes and uses none of the mechanisms above.
- CypherLower.LowerCtx.LowerPattern: keeps no record of the context after a failure, because the caller drops it.
- Compression internals, hashing, packed bit fields and memory sizes: what is kept is that decompressing undoes compressing and that a value which fits its width is read back.
- LookupTheory.EqualTextsCrossABlock: takes any nine entries of one key; that interning and compacting nine literals gives such entries is part of `SecondIdAfterCompaction`.
- CypherMapping.FreshNamesApart: for prefixes that end in a letter, because the one that ends in a digit can clash (`DigitPrefixClashes`); the two never meet in one operation.
- AnswerMeaning.QueryAnswers: for patterns that bind their nodes and columns that are new; `PreservedIffAnchored` and `AliasMayRebind` are about the other patterns and columns.
- WriteMeaning.DeleteStatement: for one deleted node; `DeleteListExactIff` covers lists.
- WriteMeaning.DeleteExactIff: for one deleted node with a label or property; `DeleteListExactIff` covers every list.
- WriteMeaning.DeleteListExactIff: for names that do not start with an underscore, which could be those of the operations, and patterns that bind their nodes; `BareStatementEmptiesStore` is the other kind of pattern.
- SetMeaning.SetAssigns: for names that do not start with an underscore, which could be those of the operation, and patterns that bind their nodes; `BareSetOnlyReplaces` is the other kind of pattern.
- StatementMeaning.StatementRuns: for patterns that bind their nodes and names that do not start with an underscore; `BareStatementEmptiesStore`, `BareSetOnlyReplaces` and `BareLabelsChangeNothing` are about lone nodes without a condition.
- CompactedTier.Build: requires the buffer length to fit 32 bits for its guarantee, since block offsets are stored in 32 bits and wrap beyond that.
- Graph selectors, named-graph scans, quad packing, change counts, full-text search, the evaluator, the storage engines and the write-ahead log: not part of this model.
