# Verified models of Open vSwitch lookup, hashing, connection tracking and liveness

This project models parts of `lib/` of Open vSwitch 3.1.0 in Dafny and proves what they are for.
`dafny verify dfyconfig.toml` checks it.

**Flow classifier.** A tuple-space search over subtables, sped up by staged hash indices, prefix tries
and a ports trie.  The path-compressed trie is given as a value (`PrefixTrie`) and as nodes that are
linked and changed in place (`TrieNodes`); it stands for exactly the multiset of prefixes put in and not
taken out.  `Flows` has the staged hashes, `Subtables` what a subtable must keep, `StagedLookup` the
lookup in one subtable with its wildcard mask, `ClassifierLookup` the whole lookup with conjunctive
matches, `SubtableUpdate` and `Classifier` the changes, and `RuleSets` what those mean for the rules.  The main results are wildcard soundness of every
lookup, conjunctions included; that a lookup finds a visible matching rule of the highest priority; and
that every change keeps every index in step with the rules.  `LookupMeaning` says what a lookup finds,
`SoftMatches` follows the soft matches through the rounds of a lookup, `ConjunctionIds` says which rules a
conjunction id in the flow selects, and `ConjunctiveSearch` which conjunctions are looked up and which one
decides; `ConjunctiveExamples` has two classifiers for the
failures below.

**Cuckoo hash maps.** `Cuckoo` says what two-choice tables with stale slots store, `RouteSearch` proves
that the bounded breadth-first search never finds a route that repeats a bucket, `Displacement` that
moving entries along it loses nothing, at no moment.  `CuckooTable` is the table object that `Cmap` and
`Ccmap` share; both are proved against a plain map of what they hold, through growing, shrinking and
rehashing.  `Readers` runs a lock-free search beside the writer, one memory access at a time, and the
insertions and replacements of `Cmap` promise that no such search misses what is there, nor returns nothing
without reason; a search beside a resting writer ends with exactly what is stored.

**Connection tracker.** `NatRange` chooses addresses and ports, `ConnTable` has the lookups and the
rewriting of packets with the round trip of translation, `Conntrack` the tracker with its counts.

**Checksum and BFD.** `Checksum` relates the incremental update to recomputation.  `Bfd` runs two sessions
over a network that loses, duplicates and reorders packets, as values and as the session objects.

Hash functions, the random generator, the clock and field prerequisites are parameters: every result
holds for all of them.  A supply of random numbers is a sequence, and an operation whose retries use it up
reports that, so results about rehashing are about the runs that end.

## What the code does not do

These are properties that turn out not to hold of the code everywhere; each is proved with the exact
condition under which it does.

- A conjunction of 64 clauses, which OpenFlow accepts, counts as met as soon as one clause matches and 64
  subtables have a matching conjunctive rule of its priority, because the number of clauses is used as a
  shift amount modulo 64 (`ConjunctiveSearch.OneClauseCompletes`, `ConjunctiveSearch.MetExactly`,
  `ConjunctiveExamples.UnmetConjunction`).
- The lookup with a conjunction id ignores ordinary rules that stand behind a conjunctive rule with the
  same match, contrary to the documentation (`LookupMeaning.PlainLookupExact`,
  `ConjunctiveExamples.ShadowedRule`).
- The incremental checksum of data that become all zero is 0 where the checksum is 0xffff
  (`Checksum.RecalcExact`).
- The assertion after a hash map grows fails from 2^29 buckets on (`Capacity.GrowthMakesRoom`).
- A commit without translation does not check whether the key of its replies is in use.  If it is, packets
  with that key, a translated connection's own or its replies, are taken for replies of the new connection
  (`ConnTable.CommitKeepsConnections`, `ConnTable.CommitKeepsAll`, `ConnTable.RoundTripLasts`,
  `ConnTable.PacketsLost`).

## Model

| member | source | states |
|---|---|---|
| `PrefixTrie.BranchStores` | openvswitch-3.1.0/lib/classifier.c:1864-1889 | a new branch, however many nodes its bits need, stores its prefix as often as asked and nothing else |
| `PrefixTrie.SplitStores` | openvswitch-3.1.0/lib/classifier.c:2112-2134 | splitting a node where the prefixes part adds one to the multiplicity of the new prefix and to no other |
| `PrefixTrie.InsertStores` | openvswitch-3.1.0/lib/classifier.c:2101-2145 | insertion adds one to the multiplicity of its prefix and changes that of no other bit string |
| `PrefixTrie.InsertShape` | openvswitch-3.1.0/lib/classifier.c:2101-2145 | insertion keeps the trie well formed (every leaf carries rules, each child starts with the bit of its edge, no node holds more than 32 bits) and no deeper than the longest prefix |
| `PrefixTrie.PruneStores` | openvswitch-3.1.0/lib/classifier.c:2186-2221 | merging a node with its only child, or deleting it, changes no multiplicity |
| `PrefixTrie.RemoveStores` | openvswitch-3.1.0/lib/classifier.c:2158-2227 | removing a stored prefix takes one off its multiplicity and changes that of no other bit string |
| `PrefixTrie.RemoveAbsent` | openvswitch-3.1.0/lib/classifier.c:2158-2227 | removing a prefix that is not stored changes nothing |
| `PrefixTrie.RemoveShape` | openvswitch-3.1.0/lib/classifier.c:2158-2227 | removal, with all the merging and deleting it sets off, keeps the trie well formed |
| `PrefixTrie.LookupExact` | openvswitch-3.1.0/lib/classifier.c:1993-2024 | a length is in plens if and only if a stored prefix of that length matches the value, for every value and length; no match is longer than the reported number of bits |
| `PrefixTrie.WalkExact` | openvswitch-3.1.0/lib/classifier.c:1999-2023 | the same from any node of the walk on |
| `PrefixTrie.LookupStable` | openvswitch-3.1.0/lib/classifier.c:1986-2024 | every value with the same first m bits, m being the reported number, gets the same answer, through the leaf, missing branch and mismatch exits |
| `PrefixTrie.LookupTight` | openvswitch-3.1.0/lib/classifier.c:1986-1992 | the reported number of bits is necessary: some value that agrees on all of them but the last is matched by other stored prefixes |
| `PrefixTrie.WalkTight` | openvswitch-3.1.0/lib/classifier.c:1999-2023 | the same from any node of the walk on, exit by exit |
| `PrefixTrie.RunExact` | openvswitch-3.1.0/lib/classifier.c:2094-2227 | after any run of insertions and removals the trie stands for exactly the multiset of what was put in and not taken out, and is null if and only if that is empty |
| `PrefixTrie.EmptyIffNil` | openvswitch-3.1.0/lib/classifier.c:1472-1488 | a well-formed trie is null exactly when it stores nothing, which is the assertion made when a subtable is destroyed |
| `TrieNodes.InsertPrefix` | openvswitch-3.1.0/lib/classifier.c:2101-2145 | insertion into linked nodes changes them so that they stand for the trie that insertion gives |
| `TrieNodes.SplitNode` | openvswitch-3.1.0/lib/classifier.c:2112-2134 | the node that splits is replaced by a parent with the common bits, in linked form |
| `TrieNodes.RemovePrefix` | openvswitch-3.1.0/lib/classifier.c:2158-2227 | removal from linked nodes changes them so that they stand for the trie that removal gives |
| `TrieNodes.PruneNode` | openvswitch-3.1.0/lib/classifier.c:2186-2221 | a linked node without rules and with at most one child gives way to nothing or to a merged node |
| `TrieNodes.LookupValue` | openvswitch-3.1.0/lib/classifier.c:1993-2024 | the loop over linked nodes computes the same answer as the walk over the trie they stand for |
| `TrieNodes.LinkedTrie.Insert` | openvswitch-3.1.0/lib/classifier.c:2094-2145 | afterwards exactly the inserted prefix is stored once more than before |
| `TrieNodes.LinkedTrie.Remove` | openvswitch-3.1.0/lib/classifier.c:2149-2227 | afterwards exactly the removed prefix is stored once less, if it was stored; the root is null if and only if nothing is stored |
| `TrieNodes.LinkedTrie.Lookup` | openvswitch-3.1.0/lib/classifier.c:1993-2024 | plens are exactly the lengths of the stored prefixes that match, for the value and for every value that agrees with it on the reported bits |
| `Flows.FlowHashRange` | openvswitch-3.1.0/lib/classifier-private.h:271-296 | the staged hash of a flow equals the one-shot hash of everything the mask has below the end of the stage, and hands on the basis and offset for the next stage |
| `Flows.RuleHashRange` | openvswitch-3.1.0/lib/classifier-private.h:349-365 | the staged hash of a rule, computed over its packed words, equals the staged hash of its unpacked flow |
| `Flows.HashWordsAgree` | openvswitch-3.1.0/lib/classifier-private.h:215-235 | flows that agree on the mask have the same hash, for every hash function |
| `Flows.HashWordsSplit` | openvswitch-3.1.0/lib/classifier-private.h:271-296 | hashing in two ranges is hashing in one |
| `Flows.PackedRange` | openvswitch-3.1.0/lib/classifier-private.h:336-365 | the words that a compressed flow packs for a range are those that the mask has there |
| `Subtables.InitStages` | openvswitch-3.1.0/lib/classifier.c:1491-1552 | the stages chosen for a mask end at configured segment boundaries, ascend, and each adds mask bits, the last included; every segment with mask bits gets an index unless nothing follows it |
| `Subtables.VisibleFrom` | openvswitch-3.1.0/lib/classifier.c:127-135 | the list from its first visible rule on: everything skipped is invisible |
| `Flows.PrefixLengthOf` | openvswitch-3.1.0/lib/classifier.c:2047-2073 | every mask that is a prefix has its length, so that its trie is used |
| `StagedLookup.CheckTries` | openvswitch-3.1.0/lib/classifier.c:1569-1629 | when a trie rules a subtable out, it does so for every flow that agrees on the widened mask, which gains no bit but those that the answer of the trie depends on; otherwise no trie of those words has ruled it out, except at the price of bits beyond the prefix of the subtable, and the mask is left alone |
| `StagedLookup.FindMatch` | openvswitch-3.1.0/lib/classifier.c:1662-1682 | the search of one hash chain gives the visible rules of the one head that matches, or nothing |
| `StagedLookup.StageDecided` | openvswitch-3.1.0/lib/classifier.c:1711-1720 | a miss in a stage index decides the subtable for every flow that agrees on the mask up to that stage |
| `StagedLookup.TrieSkip` | openvswitch-3.1.0/lib/classifier.c:1599-1625 | a trie answer rules the subtable out for every flow that agrees on the bits it depends on, with no assumption about the field prerequisites |
| `StagedLookup.PrefixOnlyFrom` | openvswitch-3.1.0/lib/classifier.c:1609-1619 | a trie never un-wildcards bits that the subtable would not |
| `StagedLookup.PortsDecided` | openvswitch-3.1.0/lib/classifier.c:1734-1768 | with the ports part of the mask shrunk to what the ports trie read, the miss still holds for every flow that agrees |
| `StagedLookup.FindMatchWc` | openvswitch-3.1.0/lib/classifier.c:1684-1770 | every flow that agrees on the resulting mask gets the same answer from this subtable; the mask gains no bits but those of the subtable, and of those only the ones up to the stage that misses, those that a trie depends on, or those that the ports trie read; it goes on exactly as long as stages hit and tries let pass |
| `StagedLookup.EndsByStage` | openvswitch-3.1.0/lib/classifier.c:1711-1720 | after a miss in a stage no bit beyond that stage is un-wildcarded |
| `ClassifierLookup.ScanSubtables` | openvswitch-3.1.0/lib/classifier.c:962-1010 | the main loop, with its early exit, yields the same hard and soft matches for every flow that agrees on the resulting mask |
| `ClassifierLookup.FindConjunctiveMatch` | openvswitch-3.1.0/lib/classifier.c:875-912 | the loop over the clauses of one rule, with its shortcut for too many clauses, records them and stops at the first conjunction that is complete |
| `ClassifierLookup.TryRound` | openvswitch-3.1.0/lib/classifier.c:1085-1113 | a round over the best soft matches gives the same rule for every flow that agrees on the resulting mask, and looks up just the complete conjunctions up to the first that leads to a rule |
| `ClassifierLookup.DeleteDead` | openvswitch-3.1.0/lib/classifier.c:1052-1058 | deleting soft matches by overwriting them with the last one |
| `ClassifierLookup.FindTop` | openvswitch-3.1.0/lib/classifier.c:1063-1077 | the highest priority among the soft matches and how many have it |
| `ClassifierLookup.StepDown` | openvswitch-3.1.0/lib/classifier.c:1122-1144 | stepping the best soft matches down their lists of equal rules |
| `ClassifierLookup.FallBackWeight` | openvswitch-3.1.0/lib/classifier.c:1122-1144 | soft matches move strictly down their lists, so the soft match loop ends |
| `ClassifierLookup.ClassifierLookup` | openvswitch-3.1.0/lib/classifier.c:937-1151 | wildcard soundness: every flow that agrees with the one looked up on every bit of the resulting mask looks up to the same rule, with and without conjunctive rules; the mask gains no bit that no rule matches on; and the conjunctions looked up are known |
| `LookupMeaning.ScanCovers` | openvswitch-3.1.0/lib/classifier.c:967-1010 | subtables that the early exit skips have nothing better than what was found |
| `LookupMeaning.LookupIsBest` | openvswitch-3.1.0/lib/classifier.c:937-1151 | without conjunctive rules among those that match: nothing is found if and only if nothing visible matches, and otherwise a visible matching rule of the highest priority is |
| `LookupMeaning.ScannedAbove` | openvswitch-3.1.0/lib/classifier.c:967-970 | the main loop comes to no subtable whose highest priority is below that of the rule found |
| `LookupMeaning.MaskFromAbove` | openvswitch-3.1.0/lib/classifier.c:962-1020 | without conjunctive rules among those that match, the mask gains no bits but those of subtables with a rule of at least the priority of the one found |
| `LookupMeaning.TopAboveHard` | openvswitch-3.1.0/lib/classifier.c:1052-1077 | the soft matches that a round tries have a higher priority than every ordinary rule that matches |
| `LookupMeaning.PlainLookupExact` | openvswitch-3.1.0/lib/classifier.c:967-1020 | the lookup with a conjunction id finds the best ordinary match if and only if no better one stands behind a conjunctive rule with the same match |
| `ClassifierLookup.RoundLooksUp` | openvswitch-3.1.0/lib/classifier.c:1085-1113 | a round gives the rule that the last conjunction it looks up leads to, and those it looked up before lead to none |
| `SoftMatches.CountIsCrowd` | openvswitch-3.1.0/lib/classifier.c:1063-1077 | the number of soft matches of a round is the number of subtables that have a matching conjunctive rule of its priority, no two soft matches being of one subtable |
| `ConjunctiveSearch.RoundSound` | openvswitch-3.1.0/lib/classifier.c:1085-1113 | every conjunction id that a round looks up, whether it leads to a rule or not, is complete among the clauses of the soft matches of the round and has no more clauses than there are such matches |
| `ConjunctiveSearch.RoundComplete` | openvswitch-3.1.0/lib/classifier.c:1085-1113 | a round looks up the conjunction that is complete, if just one is |
| `ConjunctiveSearch.TriedSound` | openvswitch-3.1.0/lib/classifier.c:1049-1151 | every conjunction id that the soft match loop looks up, over all its rounds, counts as met at one priority that is above every ordinary match |
| `ConjunctiveSearch.SearchGives` | openvswitch-3.1.0/lib/classifier.c:1049-1151 | the loop gives the rule of the last id it looks up, those before it having none, or else the best ordinary match |
| `ConjunctiveSearch.ConjunctiveLookup` | openvswitch-3.1.0/lib/classifier.c:1022-1151 | both for a whole lookup: every id looked up counts as met at one priority above every ordinary match, the last one decides, and if none has a rule the answer is the best ordinary match |
| `ConjunctiveSearch.HighestWins` | openvswitch-3.1.0/lib/classifier.c:1022-1151 | if just one conjunction counts as met at a priority above every ordinary match and has a rule, that rule is found or one of a conjunction of a higher priority |
| `ConjunctionIds.SetsConjId` | openvswitch-3.1.0/lib/classifier.c:1099-1101 | the field reads as the id afterwards, for every 32-bit id, and no bit outside the field changes |
| `ConjunctionIds.MatchesWithId` | openvswitch-3.1.0/lib/classifier.c:1099-1100 | with the id in the flow, a rule that matches on the whole field matches if and only if the rest of it matches and its conj_id is that id; one that does not match on the field is not affected |
| `ConjunctionIds.HitWithId` | openvswitch-3.1.0/lib/classifier.c:1099-1100 | the visible rules that match with the id in the flow are exactly those that match the rest of the flow and have that conj_id or do not ask for one |
| `ConjunctiveSearch.RuleIsForId` | openvswitch-3.1.0/lib/meta-flow.xml:1238-1244 | the rule that a conjunction leads to matches the rest of the flow and has the id of that conjunction or none |
| `ConjunctiveSearch.BestForId` | openvswitch-3.1.0/lib/meta-flow.xml:1238-1244 | a conjunction leads to the best of those rules if and only if none of them stands behind a better conjunctive rule with the same match |
| `ConjunctiveSearch.ConjunctionFound` | openvswitch-3.1.0/lib/meta-flow.xml:1238-1244 | the only conjunction that counts as met at its priority is found if it has a rule and those that count as met at higher priorities have none; whatever is met below does not matter; the rule found is an ordinary one for the id of that conjunction or for none, and for no other |
| `ConjunctiveSearch.NoConjunctionFound` | openvswitch-3.1.0/lib/meta-flow.xml:1252-1254 | when no conjunction that counts as met has a rule, the best ordinary match is found |
| `ConjunctiveSearch.MetExactly` | openvswitch-3.1.0/lib/classifier.c:884-909 | what counts as met: a conjunction of fewer than 64 clauses if and only if every clause matches at that priority; one of 64 clauses if and only if a single clause does and 64 subtables have a matching conjunctive rule of that priority |
| `ConjunctiveSearch.FoundExactly` | openvswitch-3.1.0/lib/classifier.c:884-911 | for any clauses recorded so far and any bound on their number: a conjunction of a rule is found complete if and only if none before it is, the bound admits it, and its clause is the last one missing |
| `ConjunctiveSearch.OneClauseCompletes` | openvswitch-3.1.0/lib/classifier.c:891-909 | of the numbers of clauses that OpenFlow accepts, 64 and only 64 makes a conjunction complete after a single clause, and only among at least 64 soft matches |
| `ConjunctiveExamples.UnmetConjunction` | openvswitch-3.1.0/lib/classifier.c:891-909 | a classifier whose lookup gives the rule of a conjunction of 64 clauses of which one is met |
| `ConjunctiveExamples.ShadowedRule` | openvswitch-3.1.0/lib/meta-flow.xml:1247-1255 | a classifier whose lookup finds nothing although a conjunction is met and an ordinary rule matches its id: the rule stands behind a conjunctive rule with the same match |
| `SubtableUpdate.RuleHashes` | openvswitch-3.1.0/lib/classifier.c:543-551 | the hashes under which a rule goes into the stage indices are those that a lookup of a matching flow computes |
| `SubtableUpdate.AddHead` | openvswitch-3.1.0/lib/classifier.c:565-581 | a new head goes into the heads, every stage index and the ports trie, and all stay in step |
| `SubtableUpdate.DropHead` | openvswitch-3.1.0/lib/classifier.c:770-789 | a head leaves the heads, every stage index and the ports trie, and all stay in step |
| `SubtableUpdate.MergeRule` | openvswitch-3.1.0/lib/classifier.c:585-610 | a rule goes into its list of equal rules in order of priority; it displaces another exactly when one of its priority is not on its way out |
| `SubtableUpdate.AddRule` | openvswitch-3.1.0/lib/classifier.c:553-671 | the rules of the subtable change by exactly the new rule and the displaced one; the highest priority is that of some rule and no rule has a higher one, and its count is never too high |
| `SubtableUpdate.Recount` | openvswitch-3.1.0/lib/classifier.c:797-807 | the highest priority is recomputed from the heads, and only heads are counted |
| `SubtableUpdate.LowerMax` | openvswitch-3.1.0/lib/classifier.c:794-809 | the highest priority stays exact when one of its rules goes, although the count may be too low |
| `SubtableUpdate.RemoveRule` | openvswitch-3.1.0/lib/classifier.c:727-810 | exactly the rule asked for leaves the subtable, or nothing if it is not there; the highest priority is again that of some rule, and no rule has a higher one |
| `SubtableUpdate.HideRule` | openvswitch-3.1.0/lib/classifier.c:290-298 | exactly the rule asked for gets its last version, in its place on the list; nothing else of the subtable changes |
| `Classifiers.UpdateTries` | openvswitch-3.1.0/lib/classifier.c:555-563 | each trie whose field the mask matches by prefix gains or loses the prefix of the head, and no other trie changes |
| `Classifiers.TriesAdd` | openvswitch-3.1.0/lib/classifier.c:555-563 | after a head is added each trie still holds exactly the prefixes of the heads |
| `Classifiers.TriesDrop` | openvswitch-3.1.0/lib/classifier.c:779-783 | after a head is dropped each trie still holds exactly the prefixes of the heads |
| `Classifiers.ReadyForLookup` | openvswitch-3.1.0/lib/classifier.c:519-826 | index coherence: what every change keeps is what a lookup relies on, so no index can skip a matching rule |
| `Classifiers.FindsBestRule` | openvswitch-3.1.0/lib/classifier.c:1165-1170 | a lookup in a classifier finds a visible matching rule of the highest priority among all its rules, or nothing if and only if there is none |
| `Classifiers.Classifier.FindSubtable` | openvswitch-3.1.0/lib/classifier.c:1427-1439 | the subtable of a mask, or nothing if and only if there is none |
| `Classifiers.Classifier.Replace` | openvswitch-3.1.0/lib/classifier.c:519-681 | the rules change by exactly the new rule and the displaced one; one is displaced if and only if a rule with the same mask, match and priority has no version to go in; in every version the rules that match are the same but for these two; no two rules of one match and priority stay, and none are visible together if those on their way out are gone by the new version; all indices stay coherent |
| `Classifiers.Classifier.MakeInvisible` | openvswitch-3.1.0/lib/classifier.c:290-298 | exactly the rule asked for is visible up to the version and not from it on, or it is not there and nothing changes; rules of one match and priority stay apart |
| `Classifiers.Classifier.Remove` | openvswitch-3.1.0/lib/classifier.c:708-826 | the rule leaves the classifier, or it was not there and nothing changes; an empty subtable goes; all indices stay coherent |
| `RuleSets.MergedOne` | openvswitch-3.1.0/lib/classifier.c:588-603 | of the rules with one mask, match and priority at most one has no version to go in, whatever is put in |
| `RuleSets.MergedApart` | openvswitch-3.1.0/lib/classifier.c:588-603 | if the others of its match and priority are gone by its version, a rule that is put in is in no version visible together with one of them |
| `RuleSets.MergedMatches` | openvswitch-3.1.0/lib/classifier.c:588-603 | after a rule is put in, what matches a flow in a version is what did before, less the displaced rule, and the new one from its version on |
| `RuleSets.RemovedKeeps` | openvswitch-3.1.0/lib/classifier.c:708-826 | taking a rule out keeps the others apart |
| `RuleSets.HiddenKeeps` | openvswitch-3.1.0/lib/classifier.c:290-298 | giving a rule its last version leaves at most one without |
| `RuleSets.HiddenApart` | openvswitch-3.1.0/lib/versions.h:41-45 | a rule that goes earlier is not visible together with others that it was apart from |
| `RuleSets.HiddenMatches` | openvswitch-3.1.0/lib/versions.h:47-59 | it matches from the version it was added in up to, and not in, the one it goes in |
| `RuleSets.AllStayApart` | openvswitch-3.1.0/lib/versions.h:61-72 | while no rule has a version to go in, no two of one match and priority are visible together |
| `Classifiers.RulesDistinct` | openvswitch-3.1.0/lib/classifier.c:583-625 | then every list has at most one visible rule of a priority, in every version: what the results about conjunctions rely on |
| `Classifiers.Classifier.Lookup` | openvswitch-3.1.0/lib/classifier.c:1165-1170 | every flow that agrees on the returned mask finds the same rule; the mask gains no bit that no rule matches on and, if no matching rule is conjunctive, none but those of subtables with a rule of at least the priority of the one found |
| `Cuckoo.FindExact` | openvswitch-3.1.0/lib/cmap.c:317-374 | a search that stops at the first slot with the hash, used or not, gives what is stored under the hash and nothing if nothing is, stale and never-used slots notwithstanding |
| `Cuckoo.Replaced` | openvswitch-3.1.0/lib/cmap.c:652-656 | storing another value over one changes what is stored under its hash and nothing else |
| `Cuckoo.Cleared` | openvswitch-3.1.0/lib/cmap.c:893-899 | an emptied slot may keep its hash |
| `Cuckoo.Added` | openvswitch-3.1.0/lib/cmap.c:666-679 | a new hash may take a slot of one of its buckets past slots without that hash |
| `Displacement.Moved` | openvswitch-3.1.0/lib/cmap.c:800-807 | an entry of a full bucket that moves to a free slot of its other bucket leaves what is stored as it was |
| `Displacement.CopyShows` | openvswitch-3.1.0/lib/cmap.c:797-807 | while an entry is in two buckets, every search finds what it found before |
| `Displacement.MoveStep` | openvswitch-3.1.0/lib/cmap.c:800-807 | each step of the backward move keeps what is stored |
| `RouteSearch.NotFirst` | openvswitch-3.1.0/lib/cmap.c:757-822 | a second path to a bucket leads only to buckets that were already reached |
| `RouteSearch.FirstPath` | openvswitch-3.1.0/lib/cmap.c:694-707 | along the first path to a bucket no bucket comes twice |
| `RouteSearch.TailIsFirst` | openvswitch-3.1.0/lib/cmap.c:757-771 | a bucket with an empty slot is always found from the first path to its neighbour |
| `RouteSearch.FailedFull` | openvswitch-3.1.0/lib/cmap.c:757-826 | a search that fails has seen that every way of one hop leads to a full bucket, and every way of up to five hops unless the queue filled up |
| `RouteSearch.FindRoute` | openvswitch-3.1.0/lib/cmap.c:708-827 | the bounded breadth-first search, which keeps no record of visited buckets, finds only routes that never repeat a bucket, through full buckets, to the first empty slot of the last; if it finds none then no way of up to five moves makes room, or no way of one does and there are 500 paths through full buckets |
| `CuckooTable.Impl.SetBucket` | openvswitch-3.1.0/lib/cmap.c:594-607 | a guarded write of one slot, recorded for the readers |
| `CuckooTable.Impl.StoreNode` | openvswitch-3.1.0/lib/cmap.c:652-656 | a direct write of one value, made to an unused slot only when nothing is found under its hash |
| `CuckooTable.Impl.Find` | openvswitch-3.1.0/lib/cmap.c:566-579 | the search of both buckets gives exactly what is stored |
| `CuckooTable.Impl.FindSlot` | openvswitch-3.1.0/lib/cmap.c:536-547 | the slot that holds the hash, if the bucket does |
| `CuckooTable.Impl.Displace` | openvswitch-3.1.0/lib/cmap.c:780-813 | moving entries backward along a route changes what is stored only by the new entry, and in every state on the way searches find what they found before |
| `CuckooTable.Impl.PlaceNew` | openvswitch-3.1.0/lib/cmap.c:666-679 | a hash that is not stored goes into its first bucket, its second, or a bucket where room is made; if that fails nothing has changed, both buckets are full and no way of up to five moves makes room, or none of one where there are 500 paths through full buckets |
| `CuckooTable.Impl.Reuse` | openvswitch-3.1.0/lib/cmap.c:645-656 | an unused slot with the hash from an earlier use takes the new value |
| `CuckooTable.StaleMeansAbsent` | openvswitch-3.1.0/lib/cmap.c:612-662 | if the first slot with the hash is unused the hash is not stored in the other bucket either, so reuse never makes a second copy |
| `CuckooTable.OtherHashSymmetric` | openvswitch-3.1.0/lib/cmap.c:186-193 | exchanging the halves of a hash twice gives it back |
| `Capacity.GrowthMakesRoom` | openvswitch-3.1.0/lib/cmap.c:210-214 | for every bucket width (5, 7 or 8 slots): the size assertion after growing holds if and only if the map has fewer than 2^29 buckets, where the 64-bit product overflows |
| `Capacity.LoadFactors` | openvswitch-3.1.0/lib/cmap.c:210-220 | the thresholds for growing and shrinking are 85 and 20 in a hundred of the slots, to within three |
| `Capacity.ShrinkingLeavesRoom` | openvswitch-3.1.0/lib/cmap.c:957-963 | the size assertions after shrinking always hold |
| `Cmaps.InsertDup` | openvswitch-3.1.0/lib/cmap.c:612-662 | nodes go in front of those that the bucket has under the hash, or into the slot that had it |
| `Cmaps.TryInsert` | openvswitch-3.1.0/lib/cmap.c:833-846 | exactly the new nodes are added, in front of their chain; if there is no room nothing has changed; in no interleaving with its stores does a search miss a hash that was there |
| `Cmaps.SwapNode` | openvswitch-3.1.0/lib/cmap.c:893-902 | the node is replaced or taken out in its place on the chain |
| `Cmaps.ReplaceInTable` | openvswitch-3.1.0/lib/cmap.c:872-925 | the node is found in one of the two buckets, as asserted, and only its chain changes; in no interleaving with its stores does a search miss a hash that stays |
| `Cmaps.TryRehash` | openvswitch-3.1.0/lib/cmap.c:936-955 | a copy into an empty table that succeeds has exactly what the old table has; one that fails shows that some of its hashes can fill the new table so that there is no room for another |
| `Cmaps.Cmap.constructor` | openvswitch-3.1.0/lib/cmap.c:242-246 | the empty map, with thresholds that make the first insertion grow it |
| `Cmaps.Cmap.Find` | openvswitch-3.1.0/lib/cmap.c:364-374 | gives all nodes that are present under the hash and no others, each once, and nothing if and only if there are none |
| `Cmaps.Cmap.Rehash` | openvswitch-3.1.0/lib/cmap.c:957-978 | a new table of any size and basis has the same nodes; new bases are tried one after another, and it fails only if each of them gives a table without room for some of the hashes |
| `Cmaps.Cmap.Insert` | openvswitch-3.1.0/lib/cmap.c:854-870 | exactly the node is added, first on the chain of its hash, and the count is exact; the asserted sizes hold; it fails only if there is no room in the table as it is and every random basis has given a table without room |
| `Cmaps.Cmap.Replace` | openvswitch-3.1.0/lib/cmap.c:915-934 | exactly the node is replaced or removed, its chain otherwise the same, and the count is exact; the map halves exactly when its count falls below the threshold, as far as the random bases allow |
| `Ccmaps.TryInc` | openvswitch-3.1.0/lib/ccmap.c:454-468 | the count of the hash, and of no other, goes up by the increment; if that fails nothing has changed and there was no room |
| `Ccmaps.DecInTable` | openvswitch-3.1.0/lib/ccmap.c:497-527 | the count of the hash, and of no other, goes down by one; it is found in one of the two buckets, as asserted |
| `Ccmaps.TryRehash` | openvswitch-3.1.0/lib/ccmap.c:543-559 | a copy into an empty table that succeeds has exactly the old counts |
| `Ccmaps.Ccmap.Find` | openvswitch-3.1.0/lib/ccmap.c:224-237 | gives the multiplicity of every hash |
| `Ccmaps.Ccmap.Rehash` | openvswitch-3.1.0/lib/ccmap.c:561-580 | a new table has the same counts, and the size assertion holds |
| `Ccmaps.Ccmap.Inc` | openvswitch-3.1.0/lib/ccmap.c:474-493 | the multiplicity of the hash goes up by one and is returned; n is the total and n_unique the number of distinct hashes; it fails only if there is no room and every random basis has given a table without room |
| `Ccmaps.Ccmap.Dec` | openvswitch-3.1.0/lib/ccmap.c:517-541 | the multiplicity of the hash goes down by one and is returned; n and n_unique stay exact; the map halves exactly when a last one goes and n_unique falls below the threshold |
| `Readers.ReaderKeeps` | openvswitch-3.1.0/lib/cmap.c:328-353 | each access of a search keeps the invariant of search and writer |
| `Readers.WriterKeeps` | openvswitch-3.1.0/lib/cmap.c:594-607 | each store of the writer keeps the invariant of search and writer |
| `Readers.SearchIsSound` | openvswitch-3.1.0/lib/cmap.c:328-353 | in every interleaving with the stores of the writer, from whatever the writer is at: a search that returns null does so because the hash was absent at some moment while it ran, and what it returns otherwise was under that hash while it ran |
| `Readers.ReaderNeverMisses` | openvswitch-3.1.0/lib/cmap.c:328-353 | so a search for a hash that is there throughout never returns null |
| `Readers.SearchReturns` | openvswitch-3.1.0/lib/cmap.c:287-353 | a search ends: from wherever it is, once the writer is between operations and rests, it returns within a number of accesses that is linear in the width of the buckets |
| `Readers.SearchAlone` | openvswitch-3.1.0/lib/cmap.c:328-353 | beside a writer that rests, a search returns exactly what is stored under the hash, or null if nothing is, after reading each slot at most once |
| `Readers.NothingMissed` | openvswitch-3.1.0/lib/cmap.c:793-813 | an operation whose writes, moves included, leave what searches find as it was until the last of them is never seen by a search to miss a hash that is there before and after |
| `Readers.OperationIsSafe` | openvswitch-3.1.0/lib/cmap.c:793-813 | such writes make a table that has the hash all the time |
| `Checksum.FoldResidue` | openvswitch-3.1.0/lib/csum.c:65-72 | folding keeps the residue modulo 65535, and only zero folds to zero |
| `Checksum.CsumContinue` | openvswitch-3.1.0/lib/csum.c:40-56 | the loop adds the words of the data, an odd byte included, to the partial sum modulo 2^32, on machines of either byte order |
| `Checksum.CsumFinish` | openvswitch-3.1.0/lib/csum.c:65-72 | the loop computes the complement of the folded sum |
| `Checksum.CsumOf` | openvswitch-3.1.0/lib/csum.c:30-34 | the checksum of up to 131074 bytes is that of their words: the 32-bit sum does not overflow |
| `Checksum.ByteShows` | openvswitch-3.1.0/lib/csum.c:24-34 | a change of any one byte of the data, odd ones at the end included, changes the checksum |
| `Checksum.OrdersSwap` | openvswitch-3.1.0/lib/csum.c:24-34 | machines of both byte orders store the same bytes as the checksum |
| `Checksum.RecalcExact` | openvswitch-3.1.0/lib/csum.c:77-138 | updating the checksum for any changed words gives the checksum of the changed data if and only if those are not all zero; it is always congruent to it |
| `Checksum.Recalc16` | openvswitch-3.1.0/lib/csum.c:77-89 | the update for one word |
| `Checksum.Recalc32` | openvswitch-3.1.0/lib/csum.c:94-99 | the update for both halves of a 32-bit field |
| `Checksum.Recalc48` | openvswitch-3.1.0/lib/csum.c:104-115 | the update for the three words of an Ethernet address |
| `Checksum.Recalc128` | openvswitch-3.1.0/lib/csum.c:120-138 | the update for the eight words of an IPv6 address |
| `Bfd.BfdSession.ChangeState` | openvswitch-3.1.0/lib/bfd.c:1122-1168 | a session that is good towards its peer stays so exactly when it knows enough to enter the state: the discriminator of a peer it has heard for Init and Up, and that the peer has heard it for Up; going down forgets all about the peer; the diagnostic is that of the path while it is down |
| `Bfd.BfdSession.StartPoll` | openvswitch-3.1.0/lib/bfd.c:967-978 | a session in Init or Up then polls or answers a poll; Poll never joins Final; a good session stays good |
| `Bfd.BfdSession.Send` | openvswitch-3.1.0/lib/bfd.c:583-661 | the assertion about Poll and Final holds of every good session; the packet carries exactly the flags, state, diagnostic and discriminators of the session, an answer to a poll is sent once and a poll until it is answered; the packet passes the checks of every session that this one is good towards, and the session stays good |
| `Bfd.BfdSession.Receive` | openvswitch-3.1.0/lib/bfd.c:703-893 | a packet that fails the checks of section 6.8.6 of RFC 5880 changes nothing; one that passes gives the state of the table of section 6.2 and the diagnostic that goes with it, makes the next packet Final exactly if it is a Poll, ends a poll exactly if it is Final or a Poll, and keeps a session that is good towards the sender good |
| `Bfd.BfdSession.PassesChecks` | openvswitch-3.1.0/lib/bfd.c:726-804 | the checks, each of which is enough to turn a packet down |
| `Bfd.BfdSession.CheckExpired` | openvswitch-3.1.0/lib/bfd.c:553-555 | after its detection time a session is not in Init or Up; if it was, it has forgotten its peer and what it sends next passes the checks of every session; a good session stays good |
| `Bfd.BfdSession.ConfigureCpathDown` | openvswitch-3.1.0/lib/bfd.c:449-454 | the session reports the path from its next packet on, a session in Init or Up polls for it or is answering a poll, the state stays, and a good session stays good |
| `Bfd.ProcessState` | openvswitch-3.1.0/lib/bfd.c:850-883 | an accepted packet moves the session as the state machine of section 6.2 of RFC 5880 says |
| `Bfd.StepKeeps` | openvswitch-3.1.0/lib/bfd.c:703-893 | every step of two sessions and a network that loses, duplicates and reorders packets keeps the invariant |
| `Bfd.PairIsSafe` | openvswitch-3.1.0/lib/bfd.c:583-893 | in every reachable state: a session in Init or Up has its peer's discriminator, a session is Up only after its peer accepted a packet from it, Poll and Final are never both set, and no packet fails the other side's checks |
| `Bfd.Link.Step` | openvswitch-3.1.0/lib/bfd.c:583-893 | two session objects over the network do, whatever happens next, what the pair of sessions does: every fact about the pair holds of the objects, no assertion of theirs fails, and every packet that arrives passes the checks |
| `Bfd.ComesUp` | openvswitch-3.1.0/lib/bfd.c:850-883 | from every reachable state three round trips without loss or expiry bring both sessions up |
| `Bfd.ExchangePolls` | openvswitch-3.1.0/lib/bfd.c:815-833 | a packet that arrives takes over the poll of its sender as an answer due, and ends the poll of the receiver exactly if it polls or answers |
| `Bfd.PollEnds` | openvswitch-3.1.0/lib/bfd.c:634-650 | a poll ends with the first round trip that is not lost: the other side answers it at once and owes no answer then |
| `NatRange.AddrsDelta` | openvswitch-3.1.0/lib/conntrack.c:2107-2146 | the difference of two 128-bit addresses, with the borrow between the halves, cut down to 32 bits |
| `NatRange.AddrIncrement` | openvswitch-3.1.0/lib/conntrack.c:2150-2172 | 128-bit addition with the carry between the halves; the overflow branch is unreachable |
| `NatRange.AddrInRange` | openvswitch-3.1.0/lib/conntrack.c:2240-2260 | for every hash and every range with a minimum that is not zero, the chosen IPv4 or IPv6 address is in the range, and is the one that the hash picks among its first 2^32 - 1 |
| `NatRange.PickSpreads` | openvswitch-3.1.0/lib/conntrack.c:2240-2260 | hashes below the size of a range pick different members, and larger ones go round |
| `NatRange.PickCovers` | openvswitch-3.1.0/lib/conntrack.c:2240-2260 | every member of a range is picked by some hash |
| `NatRange.TryRound` | openvswitch-3.1.0/lib/conntrack-private.h:173-196 | one round tries the ports of the range in a circle, up to the number of attempts, until one is free |
| `NatRange.UniquePort` | openvswitch-3.1.0/lib/conntrack.c:2293-2332 | the search gives the first free one of the ports it tries, and fails, restoring the port, exactly when they are all taken; it ends within five rounds, and a port it gives is the first one or in the range |
| `NatRange.TriedSmall` | openvswitch-3.1.0/lib/conntrack.c:2298-2316 | in a range of at most 128 ports the search tries exactly the ports of the range, if it starts in it |
| `NatRange.TriedWide` | openvswitch-3.1.0/lib/conntrack.c:2298-2316 | in a wider range the first 128 ports it tries follow the start in a circle, or are the start and the first 127 of the range if it starts outside |
| `NatRange.TriedRounds` | openvswitch-3.1.0/lib/conntrack.c:2298-2329 | over all five rounds the search tries 248 ports: 128 from the start on, and then 64, 32, 16 and 8 from ports of the range picked at random |
| `ConnTable.HashSymmetric` | openvswitch-3.1.0/lib/conntrack.c:2081-2097 | a key and its reverse have the same hash |
| `ConnTable.KeyLookup` | openvswitch-3.1.0/lib/conntrack.c:580-614 | a connection on the chain that is not expired and has the key, in the direction said, the first such; nothing if and only if there is none |
| `ConnTable.ResolvePacket` | openvswitch-3.1.0/lib/conntrack.c:1251-1323 | the connection a packet belongs to, through the second entry of a translated one |
| `ConnTable.ForwardRewrite` | openvswitch-3.1.0/lib/conntrack.c:872-901 | the translated packet is the reverse of what its replies look like |
| `ConnTable.ReplyRewrite` | openvswitch-3.1.0/lib/conntrack.c:872-901 | a reply is rewritten to the reverse of the original packet |
| `ConnTable.RoundTrip` | openvswitch-3.1.0/lib/conntrack.c:1000-1029 | right after a commit into any table, for every hash function, the reverse of the translated packet belongs to the connection and is rewritten to the reverse of the original packet |
| `ConnTable.CommitKeepsOthers` | openvswitch-3.1.0/lib/conntrack.c:1014-1029 | a commit changes no search for any key but the two of the connection |
| `ConnTable.CommitKeepsConnections` | openvswitch-3.1.0/lib/conntrack.c:1014-1029 | after a commit, translated or not, a packet that belonged to a connection belongs to the same one if and only if it does not have the key of the new connection's replies; if it does it is taken for such a reply |
| `ConnTable.RoundTripLasts` | openvswitch-3.1.0/lib/conntrack.c:1000-1029 | through any commits that the tracker allows, the round trip goes on working if and only if none of them is of a connection whose replies have the same key |
| `ConnTable.CommitKeepsAll` | openvswitch-3.1.0/lib/conntrack.c:1014-1029 | a commit keeps every packet with its connection if and only if no connection has the key of the new one's replies |
| `ConnTable.PacketsLost` | openvswitch-3.1.0/lib/conntrack.c:988-1012 | a translated connection loses its packets to a connection in the other direction that is not translated, whose reverse key is not checked |
| `Conntracks.FindAddr` | openvswitch-3.1.0/lib/conntrack.c:2262-2280 | the address that the hash picks from the range of the action, or the packet's own if there is no range |
| `Conntracks.AddrCovers` | openvswitch-3.1.0/lib/conntrack.c:2240-2280 | every address of a range of fewer than 2^32 is translated to for some hash |
| `Conntracks.UniqueTuple` | openvswitch-3.1.0/lib/conntrack.c:2355-2411 | the first tuple among those tried that no connection has, or failure exactly when connections have them all; it is a translation of the kind asked for to the address that the hash picks, and the sender's port is kept when no ports are asked for and it is free |
| `Conntracks.PortsGiven` | openvswitch-3.1.0/lib/conntrack.c:2198-2236 | the search for a port starts in its range, except from the sender's ports 0 and 512 to 599; without ports of the action the range is exactly the ports of the sender's kind, below 512, from 600 to 1023 or above, but 0 |
| `Conntracks.SenderOutside` | openvswitch-3.1.0/lib/conntrack.c:2202-2217 | from those, the first round tries the sender's port and then the first 127 ports of its range |
| `Conntracks.FailsOnlyIf` | openvswitch-3.1.0/lib/conntrack.c:2355-2411 | what a failure means: the tuple with the packet's own ports is in use if the action gives none, every port of a range of at most 128 is, and in a wider range the 128 ports of the first round |
| `Conntracks.ZonesDrop` | openvswitch-3.1.0/lib/conntrack.c:507-510 | a connection is taken off the count of its limit unless that limit has been deleted or replaced since |
| `Conntracks.TableCommit` | openvswitch-3.1.0/lib/conntrack.c:1014-1029 | the table has exactly the entries of the connections, each once |
| `Conntracks.TableRemove` | openvswitch-3.1.0/lib/conntrack.c:470-489 | cleaning up removes both entries of a connection and no others |
| `Conntracks.Conntrack.SetMaxConns` | openvswitch-3.1.0/lib/conntrack.c:2699-2704 | raising the limit keeps all counts within their limits |
| `Conntracks.Conntrack.ZoneLimitUpdate` | openvswitch-3.1.0/lib/conntrack.c:399-442 | a limit that is changed keeps its count, and one that is made counts from zero whatever connections earlier limits of the zone admitted; invalid zones are refused |
| `Conntracks.Conntrack.ZoneLimitDelete` | openvswitch-3.1.0/lib/conntrack.c:453-468 | the limit goes, and all other counts stay exact |
| `Conntracks.Conntrack.Commit` | openvswitch-3.1.0/lib/conntrack.c:936-1056 | a connection is committed exactly when the limits admit it and, if it is to be translated, not all the tuples tried are in use; its key is unused, and so is its reply key if it is translated; it is counted under the limit of its zone, or else the default one, or none if there is neither, and under no other; otherwise nothing changes |
| `Conntracks.Conntrack.Clean` | openvswitch-3.1.0/lib/conntrack.c:493-514 | a connection is cleaned up once; no entry of it is left; it comes off the count of the limit that counted it, if that is still there, and off no other |
| `Conntracks.EnterCounts` | openvswitch-3.1.0/lib/conntrack.c:1033-1039 | counting a connection that a limit admits keeps every count that of the connections it stands for, and within its limit |
| `Conntracks.LeaveCounts` | openvswitch-3.1.0/lib/conntrack.c:507-510 | so does taking it off |
| `Conntracks.Conntrack.ZoneLimitBinds` | openvswitch-3.1.0/lib/conntrack.c:958-968 | in every state of the tracker the count of a zone's limit is the number of live connections of the zone committed since the limit was made, and within limits there are never more of those than the limit says |

## Left out

- Which of several conjunctions that are met at one priority decides: the documentation forbids that
  (openvswitch-3.1.0/lib/meta-flow.xml:1238-1244).  Conjunctions met at different priorities are covered.
- Words as machine integers in the classifier: a flow is a string of bits in words of 64, so the bit
  tricks of `raw_get_prefix`, `prefix_equal_bits` and `mask_set_prefix_bits` are stated as what they compute.
- TrieNodes.InsertPrefix: recursive where the code walks a pointer to the edge, because the linked nodes
  below the edge are then one smaller structure; the same holds of TrieNodes.RemovePrefix.  The path array
  of fixed size in removal is not modelled.
- The classifier holds its tries, stage indices and hash chains as the values that `PrefixTrie`, a multiset
  and a sequence give, not as references to `LinkedTrie`, `Ccmap` and `Cmap` objects; the subtables are in a
  sequence kept in order of highest priority in place of the priority vector, and publication of that order
  to readers is not deferred.
- Versions: restoring the visibility of a rule is not an operation here.  That no two rules of one match and
  priority are visible together is kept by every operation as long as its user lets those go that are on
  their way out before a rule with the same match comes in (`Classifiers.Classifier.Replace`).
- Removal from a classifier names a rule by its address and match; the iterators, overlap checks, exact
  finds, reconfiguration of the prefix fields and partitions of the classifier are not modelled.
- Non-overlap of the wildcard masks of different lookups.
- Chains of nodes in `Cmap` are sequences: a node in the middle of a chain is taken out in one step, and
  readers that follow the chain meanwhile are not modelled.  The readers of `Readers` search one table; a
  table that is replaced as a whole is a new one for them.
- `cmap_find_batch`, `cmap_find_index` and the cursors; concurrent readers of `Ccmap`.
- Bucket indices are remainders modulo the number of buckets, which is what the mask computes for a power
  of two.
- Cmaps.Cmap.Insert: a full map must have fewer than 2^29 buckets, where the assertion of the code would fail;
  the same holds of Ccmaps.Ccmap.Inc.
- Ccmaps.Ccmap.Inc: requires the total to stay below 2^32, where the 32-bit counts of the code would wrap.
- Reclamation of memory, weak memory and cache lines: each shared access is one step in a single order.
- Intervals, timers, decay and forwarding flags of BFD; sessions that are destroyed and made anew with
  another discriminator.
- FTP and TFTP helpers, packets inside ICMP errors, fragments, parsing, and the states of TCP connections.
  A packet in the tracker is its key; checksums of rewritten packets are not part of it.
- Conntracks.UniqueTuple: the clock does not advance during the search.  A port action for the range of all
  65536 ports would try none of them in 16-bit arithmetic; no caller gives one, because a lowest port of 0
  is never part of the action (openvswitch-3.1.0/lib/odp-util.c:1948).
