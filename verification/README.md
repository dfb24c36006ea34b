# Verified core of the Scala 3 language server

This project models the parts of the language server whose correctness is hard to see by reading: the
semantic index (alias groups, rename safety, postings), the SemanticDB symbol grammar and the walks on it,
the two binary codecs, the supervisor of the embedded compiler with its dispatch lane, the build scheduler,
the diagnostics router, and the search and graph kernels.

Each component is one module. Code that the server writes as loops over mutable state is a method or a
class; its contract ties it to a specification function, and the theorems are stated about that function
or about every run of the machine it describes. Machines (the dispatch lane, the supervisor, the build
scheduler, the diagnostics router) are modelled as steps, with the answers of the outside world (statuses,
deadlines, clock readings, compile outcomes) as part of each step, and their theorems hold for every
sequence of steps.

| file | contents |
|---|---|
| `Options`, `Words`, `Lookup`, `Slices` | result types, machine integers, ordered key lists, lists laid end to end and picked from others |
| `Symbols`, `Definitions`, `Enclosing`, `Outline` | symbol grammar, owner walks, enclosing definition, document outline |
| `IndexModel`, `Documents`, `UnionFind`, `Chains`, `AliasGroups`, `Profiles`, `Ingest` | alias groups as an equivalence closure, rename profiles, postings |
| `ProtoWire`, `Semanticdb`, `SemanticdbFields`, `SemanticdbCodec` | protobuf wire format, SemanticDB decoder and encoder, what a decoded message says in terms of its fields |
| `AbiCodec`, `AbiLayout`, `Completion`, `CompletionLayout`, `AbiBuffers`, `CompletionCodec` | envelope, body and blob codec of the compiler boundary, completion payloads, and where each of their words lies |
| `DispatchLane`, `Recovery`, `Mirror`, `Supervisor` | busy marker and generations, the lane under the recovery protocol, replay mirror, recovery ladder |
| `BuildScheduler`, `Diagnostics` | coalescing build runs, merged diagnostics |
| `Fuzzy`, `Bits`, `Bitset`, `Targets` | camel-hump matcher, bitwise operators, target bitsets, dependency closures |

## Findings

Where a natural law fails for the code, the code is modelled as it is, a lemma exhibits failing inputs and
another proves the exact condition.

- The camel-hump matcher backtracks to uppercase anchors only. It misses embeddings of queries in which a
  caseless character comes right before a lowercase one (`Fuzzy.DefeatedQuery`), and of no others
  (`Fuzzy.CompleteExactlyOnCamelOnly`).
- `companion` does not undo itself on a needlessly quoted name (`Symbols.QuotedCompanionIsLost`); it does
  exactly on symbols that print the way they parse (`Symbols.CompanionInvolution`).
- A worker marks itself busy unconditionally when it starts a job, so the late start of a job that an
  abandoned generation still had hides the live operation of the active one. Abandoning is safe iff nothing
  is unannounced (`DispatchLane.AbandonIsSafeIffClean`). The supervisor decides by the busy marker, which
  does not show a request that timed out before a worker received it (`Recovery.IdleProbeMissesQueuedRequest`);
  carrying on after an idle answer is safe iff there is no such request (`Recovery.IdleAnswerIsSafeIffHonest`).
- The module comment of the build scheduler says that a failed compile skips the reingest
  (crates/ls-server/src/build_scheduler.rs:14). The code reingests all the same if a reindex request shared
  the run (`BuildSchedulers.FailedCompileStillReingests`), and skips it exactly if none did
  (`BuildSchedulers.SkipsExactly`).

## Model

| member | source | states |
|---|---|---|
| Fuzzy.FuzzyMatchesName | crates/ls-engine/src/orchestrator.rs:1275-1322 | The loop terminates; the answer is `true` iff there is an increasing embedding of the query in which every lowercase character directly follows its predecessor and every caseless character sits on the first fitting place after its own; on queries without a caseless character before a lowercase one, iff there is any embedding |
| Fuzzy.MatchesExactly | crates/ls-engine/src/orchestrator.rs:1275-1322 | For every query and name, the search with its backtracking succeeds iff such an embedding exists |
| Fuzzy.MatchIsEmbedding | crates/ls-engine/src/orchestrator.rs:1275-1322 | Soundness for every query and name |
| Fuzzy.CamelOnlyIsComplete | crates/ls-engine/src/orchestrator.rs:1275-1322 | Greedy search with one anchor finds a match whenever there is one, on camel-only queries |
| Fuzzy.PrefixAlwaysMatches | crates/ls-engine/src/orchestrator.rs:1275-1322 | Every prefix of a name matches it, whatever its characters |
| Fuzzy.DefeatedQuery | crates/ls-engine/src/orchestrator.rs:1304-1319 | For every query with a caseless character before a lowercase one, a name that embeds it and is not matched |
| Fuzzy.CompleteExactlyOnCamelOnly | crates/ls-engine/src/orchestrator.rs:1275-1322 | The matcher agrees with embedding on all names iff the query is camel-only |
| Symbols.LastIndexOf | crates/ls-semanticdb/src/symbols.rs:99-110 | The backward scan finds the last occurrence, or reports that there is none |
| Symbols.ReadNameBackwards | crates/ls-semanticdb/src/symbols.rs:112-134 | A quoted name is what stands between its backticks, a plain one extends to the nearest boundary character |
| Symbols.PrintThenSplit | crates/ls-semanticdb/src/symbols.rs:78-180 | Parsing an owner followed by a printed descriptor gives back both, iff the name has no backtick, a disambiguator has no inner parenthesis, and a plain unfenced name follows a boundary |
| Symbols.SplitMeans | crates/ls-semanticdb/src/symbols.rs:112-180 | For every symbol: it parses to an owner and a descriptor iff it is made of them by the grammar, with any admissible spelling of the name |
| Symbols.CompanionSplit | crates/ls-semanticdb/src/symbols.rs:253-259 | A companion parses, has the other kind, and its owner is a prefix of the original's owner |
| Symbols.CompanionKinds | crates/ls-semanticdb/src/symbols.rs:253-259 | Among the symbols that end in a dot exactly the terms have a companion, among those that end in a hash exactly the types |
| Symbols.CompanionInvolution | crates/ls-semanticdb/src/symbols.rs:253-259 | Companion twice is the identity iff the symbol is canonical, and then the owner is kept |
| Symbols.QuotedCompanionIsLost | crates/ls-semanticdb/src/symbols.rs:253-259 | A symbol whose companion leads back to another one: quotes that are not needed get lost |
| Symbols.CollectOwnerChain | crates/ls-semanticdb/src/symbols.rs:198-219 | The loop terminates and collects the whole chain, from a symbol without an owner to the symbol itself, in which each link is the immediate owner of the next |
| Symbols.ChainIsLinked | crates/ls-semanticdb/src/symbols.rs:198-219 | Every owner chain runs from a symbol without an owner to the symbol itself, and consecutive links are related by immediate ownership |
| Symbols.OwnersAreAll | crates/ls-semanticdb/src/symbols.rs:198-219 | The proper owners are that whole chain without the symbol itself |
| Symbols.OwnersArePrefixes | crates/ls-semanticdb/src/symbols.rs:198-219 | Every proper owner is a non-empty prefix of the immediate owner |
| Definitions.SelectedMeans | crates/ls-engine/src/orchestrator.rs:922-945 | The selection is the subsequence of exactly the first selectable record of each symbol |
| Definitions.SelectedAreDistinct | crates/ls-engine/src/orchestrator.rs:943-945 | No symbol is selected twice |
| Definitions.SelectsMeans | crates/ls-engine/src/orchestrator.rs:924-942 | A record is selected iff it defines a global symbol that the grammar reads as a term, a type, or a method that is neither a constructor nor named like an assignment |
| Definitions.NearestMeans | crates/ls-engine/src/orchestrator.rs:965-976 | The owner found is the innermost one that is present or whose companion is; a companion is used only if the owner itself is absent; nothing is found only if nothing stands for any owner |
| Definitions.HopShortens | crates/ls-engine/src/call_hierarchy.rs:438-448 | A hop to an owner or to its companion strictly shortens the immediate-owner prefix |
| Enclosing.DocDefEntries | crates/ls-engine/src/call_hierarchy.rs:378-411 | The entries are sorted by position and as many as are selected; the first selected record of every symbol has an entry with its symbol, start and owners, and every entry is that of such a record |
| Enclosing.SortMeans | crates/ls-engine/src/call_hierarchy.rs:409-410 | Sorting by start is a permutation into position order |
| Enclosing.SortKeepsOrder | crates/ls-engine/src/call_hierarchy.rs:409-410 | Postings that already come in position order keep their order |
| Enclosing.DescendantMeans | crates/ls-engine/src/call_hierarchy.rs:413-421 | An entry is a descendant iff one of its owners is the symbol or the symbol's companion |
| Enclosing.ContainedMeans | crates/ls-engine/src/call_hierarchy.rs:427-433 | On sorted entries the containment test holds iff every later entry that is not a descendant is on a later line |
| Enclosing.EnclosingEntry | crates/ls-engine/src/call_hierarchy.rs:453-465 | The walk terminates for every entry list; it starts at the last entry at or before the position and follows owners; every entry passed over fails the containment test; a result passes it; no result only when the owners run out |
| Enclosing.WalkOnSorted | crates/ls-engine/src/call_hierarchy.rs:450-465 | On sorted entries a result has no later non-descendant on or before the position's line, and every entry passed over has one |
| Enclosing.WalkIsShort | crates/ls-engine/src/call_hierarchy.rs:453-465 | The walk visits no entry twice and takes at most as many hops as the first entry's owner has characters |
| Outline.DocumentSymbols | crates/ls-engine/src/orchestrator.rs:905-1020 | The result is the forest of the selected definitions under their parents, each exactly once and nothing else, and every entry carries the name, kind and span of its record; empty for a document that is not indexed |
| Outline.ForestHoldsEachOnce | crates/ls-engine/src/orchestrator.rs:988-1020 | Whatever the parents, as long as they come earlier, the forest's entries are the nodes as a multiset |
| Outline.ForestDepicts | crates/ls-engine/src/orchestrator.rs:946-1020 | Every tree tells of its record (display name or else descriptor name, kind, the four coordinates of the packed span) and has, in order, a tree for exactly the nodes whose parent it is; the roots are exactly the nodes without one |
| Outline.ParentIsNearest | crates/ls-engine/src/orchestrator.rs:965-987 | A node hangs under its nearest owner (or that owner's companion) among the earlier nodes; a root has none |
| Outline.ChildrenMeans | crates/ls-engine/src/orchestrator.rs:977-987 | The children of a node are exactly the nodes with that parent, in source order |
| Outline.AddNode | crates/ls-engine/src/orchestrator.rs:977-987 | Appending a node under its parent, or as a root, keeps every child list complete and in order |
| Outline.Materialize | crates/ls-engine/src/orchestrator.rs:988-1020 | The reverse walk with in-place moves yields whole trees; no placeholder is left in them |
| UnionFinds.UnionFind.Find | crates/ls-semanticdb/src/groups.rs:286-298 | Returns the representative, changes no representative, and follows a number of links that is at most the logarithm of the size |
| UnionFinds.UnionFind.Union | crates/ls-semanticdb/src/groups.rs:300-314 | Merges exactly the two classes and keeps rank and balance invariants |
| UnionFinds.DepthIsLogarithmic | crates/ls-semanticdb/src/groups.rs:273-315 | In every balanced forest two to the depth of an element is at most its root's rank power and the size |
| UnionFinds.Compress | crates/ls-semanticdb/src/groups.rs:286-298 | Path compression keeps ranks increasing along parents and every representative |
| UnionFinds.Link | crates/ls-semanticdb/src/groups.rs:300-314 | Union by rank keeps ranks increasing and a root of rank r over at least 2^r elements |
| IndexModel.FirstSeen | crates/ls-semanticdb/src/groups.rs:47-87 | The info that speaks for a key is the first one seen |
| IndexModel.SortKeys | crates/ls-semanticdb/src/groups.rs:75-87 | Keys in order, by symbol and then by document, none lost or repeated |
| IndexModel.StringLeMeans | crates/ls-semanticdb/src/groups.rs:75-79 | A string is in order before another iff it starts it or is smaller where they first differ |
| IndexModel.KeyLeMeans | crates/ls-semanticdb/src/groups.rs:40-43 | Keys are ordered by symbol, then globals before the documents of the lower half and after those of the upper half, as the signed comparison has it |
| Documents.SpeaksMeans | crates/ls-semanticdb/src/groups.rs:49-63 | The info map holds for each key exactly the first info of the first document that has one |
| Documents.DefinedMeans | crates/ls-semanticdb/src/groups.rs:136-190 | The defined keys are exactly those with a definition occurrence in some document |
| Documents.MentionedMeans | crates/ls-semanticdb/src/groups.rs:49-63 | The keys of a batch are exactly those of an info or an occurrence of some document |
| Chains.AddEdge | crates/ls-semanticdb/src/groups.rs:89-190 | Merging two classes of a partition by connectedness gives the partition for one more edge |
| Chains.ConnectedIsLeastEquivalence | crates/ls-semanticdb/src/groups.rs:89-216 | The relation that groups stand for is an equivalence that contains the merge edges, and is contained in every such equivalence |
| AliasGroups.MergeKey | crates/ls-semanticdb/src/groups.rs:89-134 | Processing a key adds exactly its policy edges: constructor to class, apply and unapply to the companion class, setter to getter and field, type to companion term |
| AliasGroups.MergesMean | crates/ls-semanticdb/src/groups.rs:89-134 | The policy in terms of the grammar: a constructor with its class, apply and unapply with the companion class, a setter with its getter and field, a type with its companion term, and nothing else |
| AliasGroups.KeysMean | crates/ls-semanticdb/src/groups.rs:51-74 | The keys that are grouped are those mentioned in the documents and the class of every constructor mentioned |
| AliasGroups.MergePolicy | crates/ls-semanticdb/src/groups.rs:89-134 | After the pass the union-find classes are the connected components of the policy edges |
| AliasGroups.UniqueCandidate | crates/ls-semanticdb/src/groups.rs:146-190 | A method forwards an export iff exactly one defined method with its descriptor has another owner |
| AliasGroups.MergeForwarders | crates/ls-semanticdb/src/groups.rs:136-190 | The pass adds exactly the forwarding edges and reports exactly the forwarders |
| AliasGroups.ForwarderMeans | crates/ls-semanticdb/src/groups.rs:136-190 | A key forwards an export iff it is a global method without a definition in the documents, and exactly one defined method of another owner ends in the same descriptor |
| AliasGroups.Assemble | crates/ls-semanticdb/src/groups.rs:192-216 | The groups are disjoint, cover every key, share an index iff connected, and are ordered by least member |
| AliasGroups.MaskTellsReasons | crates/ls-semanticdb/src/groups.rs:218-251 | Over the batch: the override bit is set iff a member overrides or is overridden, the unsupported-family bit iff one forwards an export, the opaque bit iff one is opaque, no other bit ever; the mask is zero iff none of these holds |
| AliasGroups.ReasonsMean | crates/ls-semanticdb/src/groups.rs:218-251 | Each bit over the documents: the override bit is set iff the first info of a member lists an overridden symbol, or a member is a global symbol that the first info of some key lists; the unsupported-family bit iff a member forwards an export; the opaque bit iff the first info of a member is opaque |
| AliasGroups.Build | crates/ls-semanticdb/src/groups.rs:47-260 | For every batch the grouped keys are those of the documents, two share a group iff a chain of policy edges connects them, groups are ordered by least member, and every bit of every mask says what the documents say |
| Profiles.TallyDocs | crates/ls-semanticdb/src/profile.rs:57-104 | The per-group counters are exactly what the group's occurrences say |
| Profiles.AllEditable | crates/ls-semanticdb/src/profile.rs:30-36 | All occurrences are editable iff the editable count is the occurrence count |
| Profiles.StreamMeans | crates/ls-semanticdb/src/profile.rs:63-88 | The occurrences that are tallied are those of the documents laid end to end, each with the facts of its document |
| Profiles.GroupOccsMean | crates/ls-semanticdb/src/profile.rs:63-88 | A group's occurrences are exactly those whose key is in the group, in order |
| Profiles.EditableCountMeans | crates/ls-semanticdb/src/profile.rs:85-87 | The editable count is the number of editable occurrences |
| Profiles.OwnerDefinedMeans | crates/ls-semanticdb/src/profile.rs:61-99 | A group counts as synthesized iff the immediate owner of one of its global members has a definition occurrence |
| Profiles.HasCompanionMeans | crates/ls-semanticdb/src/profile.rs:114-121 | The companion flag is set iff the group holds a type together with the term of the same owner and name |
| Profiles.ProfileFits | crates/ls-semanticdb/src/profile.rs:106-149 | Each of the eight reason bits is set iff its own reason holds (external and synthetic-only told apart by whether the workspace defines an owner) and no other bit is; each flag means what its name says; the mask is zero iff the group has a definition in the batch, all its occurrences are editable and it is semantically clean, and then the editable count is the occurrence count |
| Profiles.BuildProfiles | crates/ls-semanticdb/src/profile.rs:48-149 | Every profile says all this of its group |
| Ingest.FilePostings | crates/ls-engine/src/ingest.rs:207-272 | Every list holds, in order, exactly the occurrences that belong in it, with their flags; stored editable counts are the lengths of the rename lists |
| Ingest.PostingsMean | crates/ls-engine/src/ingest.rs:215-253 | Each of the three lists of a group holds, in order, a posting for exactly the occurrences that belong there, every field and every flag bit from its occurrence and document |
| Ingest.FileAllMeans | crates/ls-engine/src/ingest.rs:215-217 | What is filed is the occurrences of the documents laid end to end, each with the ordinal of its document |
| Ingest.GroupConservation | crates/ls-engine/src/ingest.rs:215-253 | Definitions and references of a group together are all its occurrences, each once; the rename list is a sub-multiset of them |
| Ingest.TotalConservation | crates/ls-engine/src/ingest.rs:215-253 | Over all groups, as many postings as occurrences |
| Ingest.StoredCountIsBounded | crates/ls-engine/src/ingest.rs:239-270 | The stored editable count never exceeds the editable occurrences |
| Ingest.IngestBatch | crates/ls-engine/src/ingest.rs:170-272 | From documents to what is stored: exact groups, the sorted symbol table, every document's occurrences in order with ordinal, span and flags, conserved group postings, and stored flags and reason bits that say what the batch says |
| ProtoWire.VarintRoundTrip | crates/ls-semanticdb/src/wire.rs:51-71 | Every 64-bit value decodes back from its varint, whatever follows |
| ProtoWire.VarintMeans | crates/ls-semanticdb/src/wire.rs:51-71 | For every input: a varint is up to ten bytes of which only the last has no top bit, its value the low 64 bits of the seven-bit groups, lowest first; an input without such an end is truncated if shorter than ten bytes and malformed otherwise, and so is a longer varint |
| ProtoWire.TagMeans | crates/ls-semanticdb/src/wire.rs:77-89 | A varint is a tag iff its field number lies between 1 and 2^28 - 1; otherwise the error tells a zero field number from a tag out of range |
| ProtoWire.SkipExact | crates/ls-semanticdb/src/wire.rs:128-159 | Skipping consumes exactly one well-formed field, nested groups included |
| ProtoWire.SkipSound | crates/ls-semanticdb/src/wire.rs:128-159 | Whatever skipping consumes was one well-formed field |
| ProtoWire.ProtoReader.ReadVarint | crates/ls-semanticdb/src/wire.rs:51-71 | The shifting loop reads the spelled value modulo 2^64 and reports truncated and overlong varints |
| ProtoWire.ProtoReader.ReadTag | crates/ls-semanticdb/src/wire.rs:77-89 | Reads a tag, or reports why it is not one |
| ProtoWire.ProtoReader.ReadSlice | crates/ls-semanticdb/src/wire.rs:91-104 | The slice is in range and holds exactly the delimited payload |
| ProtoWire.ProtoReader.ReadMessage | crates/ls-semanticdb/src/wire.rs:113-116 | A fresh reader over exactly the payload; the outer one moves past it |
| ProtoWire.ProtoReader.SkipField | crates/ls-semanticdb/src/wire.rs:128-159 | The recursive skip terminates, always advances, and leaves what follows the field |
| Semanticdb.UnknownFieldsAreIgnored | crates/ls-semanticdb/src/parser.rs:90-196 | For every message parser: dropping or inserting well-formed fields it does not know changes nothing |
| Semanticdb.SignRoundTrip | crates/ls-semanticdb/src/wire.rs:73-75 | Sign extension to 64 bits and truncation to 32 are inverse |
| Semanticdb.NegativeTakesTenBytes | crates/ls-bench/src/lib.rs:80-101 | A negative int32 is a ten-byte varint |
| Semanticdb.RangeRoundTrip | crates/ls-semanticdb/src/parser.rs:175-198 | A range parses back from its encoding |
| Semanticdb.SymbolRoundTrip | crates/ls-semanticdb/src/parser.rs:125-151 | A symbol info parses back, overridden symbols in order, with every string passed through the replacement of invalid UTF-8 |
| Semanticdb.OccurrenceRoundTrip | crates/ls-semanticdb/src/parser.rs:153-173 | An occurrence parses back likewise, with an absent range kept absent |
| Semanticdb.DocumentRoundTrip | crates/ls-semanticdb/src/parser.rs:90-123 | A document parses back likewise, symbols and occurrences in order |
| Semanticdb.DocumentsRoundTrip | crates/ls-semanticdb/src/parser.rs:68-83 | Every list of documents parses back from the encoder's output with its strings repaired, and unchanged if they are valid UTF-8 |
| SemanticdbFields.RangeMeans | crates/ls-semanticdb/src/parser.rs:175-198 | For every input: a range is decoded iff the bytes are fields, and each of its numbers is the low 32 bits of the last varint field of its number, or zero if there is none |
| SemanticdbFields.SymbolMeans | crates/ls-semanticdb/src/parser.rs:125-151 | For every input: likewise, texts the last or empty, overridden symbols all of them in order |
| SemanticdbFields.OccurrenceMeans | crates/ls-semanticdb/src/parser.rs:153-173 | For every input: likewise, the range that of the last range field or absent, and every range field must decode |
| SemanticdbFields.DocumentMeans | crates/ls-semanticdb/src/parser.rs:90-123 | For every input: likewise, symbols and occurrences all those of their fields in order, each of which must decode |
| SemanticdbFields.DocumentsMeans | crates/ls-semanticdb/src/parser.rs:68-83 | For every input: the documents are those of all document fields in order, and decoding fails iff the bytes are not fields or one of these does not decode |
| SemanticdbCodec.DecodeRange | crates/ls-semanticdb/src/parser.rs:175-198 | The reader loop computes the range parser on every input, errors included |
| SemanticdbCodec.DecodeSymbol | crates/ls-semanticdb/src/parser.rs:125-151 | The reader loop computes the symbol parser on every input, for any replacement of invalid UTF-8 |
| SemanticdbCodec.DecodeOccurrence | crates/ls-semanticdb/src/parser.rs:153-173 | The reader loop computes the occurrence parser on every input, for any replacement of invalid UTF-8 |
| SemanticdbCodec.DecodeDocument | crates/ls-semanticdb/src/parser.rs:90-123 | The reader loop computes the document parser on every input, for any replacement of invalid UTF-8 |
| SemanticdbCodec.DecodeDocuments | crates/ls-semanticdb/src/parser.rs:68-83 | The reader loop computes the documents parser on every input, for any replacement of invalid UTF-8, and so gives exactly the documents that the fields of the input tell of |
| SemanticdbCodec.ProtoWriter.RawVarint | crates/ls-bench/src/lib.rs:80-91 | The shifting loop appends the varint of the value |
| SemanticdbCodec.Encode | crates/ls-bench/src/lib.rs:117-154 | The written bytes decode to the documents they were written from, for every way of reading strings that keeps theirs |
| AbiCodec.ListFaithful | crates/ls-pc-abi/src/codec.rs:277-286 | Lists of faithful elements that take a word each decode back; the count guard never rejects what the writer wrote |
| AbiCodec.StrFaithful | crates/ls-pc-abi/src/codec.rs:298-305 | A string reference decodes back, with its blob slice in range |
| AbiCodec.OptRefFaithful | crates/ls-pc-abi/src/codec.rs:95-126 | Absent and empty strings stay distinct |
| AbiCodec.OpenFinished | crates/ls-pc-abi/src/codec.rs:181-247 | An envelope that was finished opens to its body and blob |
| AbiCodec.PayloadRoundTrip | crates/ls-pc-abi/src/codec.rs:181-356 | Whenever encoding a payload succeeds, decoding gives the value back and consumes the body |
| AbiLayout.OpenMeans | crates/ls-pc-abi/src/codec.rs:216-247 | An envelope opens to a body and a blob iff its first four little-endian words are the mark 0x4241504c, the kind and their lengths, and they are all that follows |
| AbiLayout.StrMeans | crates/ls-pc-abi/src/codec.rs:288-305 | A reference is read iff its two words are an offset and a length of a valid slice of the blob |
| AbiLayout.CountMeans | crates/ls-pc-abi/src/codec.rs:277-286 | A count is read iff that many words could follow |
| AbiLayout.EncodeMeans | crates/ls-pc-abi/src/codec.rs:181-197 | Encoding succeeds iff every word fits 32 bits, and then the bytes are the words of envelope and body in little-endian, followed by the texts |
| AbiBuffers.Writer.PutStr | crates/ls-pc-abi/src/codec.rs:87-93 | Appends the string's codec encoding at the current blob end, or marks the overflow |
| AbiBuffers.Writer.OptRef | crates/ls-pc-abi/src/codec.rs:95-126 | Appends the optional reference with its presence word |
| AbiBuffers.Writer.PutCount | crates/ls-pc-abi/src/codec.rs:65-76 | A count that does not fit 32 bits marks the overflow |
| AbiBuffers.Writer.Done | crates/ls-pc-abi/src/codec.rs:181-197 | Fails exactly on overflow or on a body or blob that is too long, and writes the envelope otherwise |
| AbiBuffers.Reader.GetCount | crates/ls-pc-abi/src/codec.rs:277-286 | Rejects a count that the remaining bytes cannot hold |
| AbiBuffers.Reader.GetStr | crates/ls-pc-abi/src/codec.rs:298-305 | Reads a reference, checks its slice and its encoding, and moves past it |
| Completion.ItemFaithful | crates/ls-pc-abi/src/payloads.rs:557-705 | Every completion item decodes back in place, all nested options included |
| Completion.CompletionListFaithful | crates/ls-pc-abi/src/payloads.rs:841-881 | Every completion list decodes back in place |
| Completion.CompletionListRoundTrip | crates/ls-pc-abi/src/payloads.rs:841-881 | Whenever encoding a completion list succeeds, decoding gives back the same list |
| CompletionLayout.ItemLays | crates/ls-pc-abi/src/payloads.rs:557-618 | An item is laid out as its nineteen fields in their order, each as its presence word, numbers and texts |
| CompletionLayout.EncodedList | crates/ls-pc-abi/src/payloads.rs:841-858 | Every byte of an encoded completion list, which is of kind 6; it is encoded iff every number in it, its own lengths included, fits 32 bits |
| CompletionCodec.WriteItem | crates/ls-pc-abi/src/payloads.rs:558-618 | The writes of an item append exactly its codec encoding |
| CompletionCodec.ReadItem | crates/ls-pc-abi/src/payloads.rs:620-705 | The reads of an item compute its codec decoding on every input |
| CompletionCodec.EncodeCompletionList | crates/ls-pc-abi/src/payloads.rs:842-858 | Fails exactly if a number does not fit 32 bits; otherwise every byte is where the layout says, and the list decodes back |
| CompletionCodec.DecodeCompletionList | crates/ls-pc-abi/src/payloads.rs:860-881 | The reader computes the decoding on every buffer, errors and leftover bytes included |
| DispatchLane.StepKeepsInvariant | crates/ls-jvm/src/backend.rs:312-397 | Every worker, staging and sending step keeps the lane invariant, given that a generation is abandoned only with nothing unannounced |
| DispatchLane.RunKeepsInvariant | crates/ls-jvm/src/backend.rs:312-397 | So does every interleaving |
| DispatchLane.LiveOperationIsNeverIdle | crates/ls-jvm/src/backend.rs:312-397 | In every reachable state the marker names the active generation while it executes, so the probe never says idle, whatever abandoned workers do |
| DispatchLane.UnannouncedJobHidesLiveOperation | crates/ls-jvm/src/backend.rs:312-397 | Abandoning a generation with an unannounced job can be continued to a live operation that looks idle |
| DispatchLane.AbandonIsSafeIffClean | crates/ls-jvm/src/backend.rs:312-397 | In every reachable state, abandoning the active generation is safe up to the next abandonment iff none of its jobs is unannounced |
| Recovery.HonestRunsAreSafe | crates/ls-jvm/src/watchdog.rs:188-304 | Over every interleaving of the supervisor's requests, replies, timeouts, probes and replays with workers and staging: if no idle answer misses an unannounced job, every abandonment is clean and no live operation looks idle |
| Recovery.AbandonIsClean | crates/ls-jvm/src/watchdog.rs:248-262 | Then a generation is abandoned only while it executes the very request that timed out |
| Recovery.DishonestAnswerHidesLiveOperation | crates/ls-jvm/src/watchdog.rs:248-262 | An idle answer that misses a job can be continued by the protocol itself to a live operation that looks idle |
| Recovery.IdleAnswerIsSafeIffHonest | crates/ls-jvm/src/watchdog.rs:248-262 | In every reachable state in which the probe says idle after a timeout, carrying on is safe iff no job is unannounced |
| Recovery.IdleProbeMissesQueuedRequest | crates/ls-jvm/src/backend.rs:395-397 | Such an answer happens: a request that times out before it is received |
| DispatchLane.IslandRuntime.StoreSender | crates/ls-jvm/src/backend.rs:386-393 | First store of staging; keeps the invariant when nothing is unannounced |
| DispatchLane.IslandRuntime.StoreReceiver | crates/ls-jvm/src/backend.rs:386-393 | Second store of staging |
| DispatchLane.IslandRuntime.StoreActive | crates/ls-jvm/src/backend.rs:386-393 | Third store of staging: the staged generation becomes active |
| DispatchLane.IslandRuntime.MarkBusy | crates/ls-jvm/src/backend.rs:320-321 | The unconditional store at the start of a job |
| DispatchLane.IslandRuntime.ClearBusy | crates/ls-jvm/src/backend.rs:326-335 | The compare-exchange of a late return cannot clear the marker of the active generation |
| DispatchLane.IslandRuntime.Probe | crates/ls-jvm/src/backend.rs:395-397 | Never idle while the active generation executes |
| Mirror.MirrorReflectsHistory | crates/ls-jvm/src/mirror.rs:41-83 | After every history: each registered target with its last configuration in order of first registration, each open buffer with its last target and text in order of opening, and no others |
| Mirror.OpenedAtMeans | crates/ls-jvm/src/mirror.rs:50-75 | The order is by the first opening since the last closing |
| Mirror.LatestMeans | crates/ls-jvm/src/mirror.rs:41-71 | The contents are those of the last request that set them |
| Mirror.ReplayRequests | crates/ls-jvm/src/backend.rs:567-583 | All targets in order, then all buffers in order, each with its own contents |
| Mirror.ReplayRebuilds | crates/ls-jvm/src/backend.rs:567-583 | Replaying the mirror of any history into an empty one rebuilds it, order included |
| Mirror.TargetMirror.Register | crates/ls-jvm/src/mirror.rs:41-47 | Updates the target in place or appends it |
| Mirror.TargetMirror.Open | crates/ls-jvm/src/mirror.rs:50-62 | Refreshes the buffer in place or appends it |
| Mirror.TargetMirror.Change | crates/ls-jvm/src/mirror.rs:66-70 | Changes the text of an open buffer only |
| Mirror.TargetMirror.Close | crates/ls-jvm/src/mirror.rs:73-75 | Drops the buffer and keeps the order of the rest |
| Supervision.RunExplained | crates/ls-jvm/src/watchdog.rs:188-290 | Over every run: the mirror is the fold of exactly the requests that ended Done or Wedged; the generations spawned are 1, 2, ... up to the cap, one per wedge that a reset did not resolve, each with the mirror right after the wedged request; fatal iff a reset failed, the cap was reached or a spawn failed |
| Supervision.MirroredMeans | crates/ls-jvm/src/watchdog.rs:188-229 | The mirrored requests are those of exactly the events that ended Done or Wedged, in order |
| Supervision.StuckAtMeans | crates/ls-jvm/src/watchdog.rs:231-290 | The unresolved wedges, in order |
| Supervision.SpawnedPlansReplay | crates/ls-jvm/src/watchdog.rs:262-281 | Every plan handed to a generation rebuilds the mirror it came from |
| Supervision.FatalNeverClears | crates/ls-jvm/src/watchdog.rs:231-290 | Once fatal, fatal in every continuation |
| Supervision.GenerationState.Advance | crates/ls-jvm/src/dispatch.rs:47-54 | Counts up both numbers below the cap, refuses at the cap |
| Supervision.SpawnGeneration | crates/ls-jvm/src/backend.rs:529-562 | Succeeds iff slot, attach and every replayed request succeed; otherwise reports the first failure and has been given exactly the requests before it; an accepted generation has been given the whole plan and holds exactly it |
| Supervision.Supervisor.Request | crates/ls-jvm/src/watchdog.rs:188-211 | One step of the ladder machine, and a typed reply for each outcome |
| BuildSchedulers.PendingIsTheWindow | crates/ls-server/src/build_scheduler.rs:111-141 | After every run of the system the pending targets and intents are exactly those of the schedules accepted since the last start; a run is pending iff there is one; its deadline is that of the first |
| BuildSchedulers.PendingMeansIntent | crates/ls-server/src/build_scheduler.rs:111-141 | A run is pending iff an intent is, and targets are pending only with a compile |
| BuildSchedulers.RunsWaitForTheirDeadline | crates/ls-server/src/build_scheduler.rs:205-226 | In every run of the system no run starts before the debounce window of the schedule that armed it is over |
| BuildSchedulers.DueRunsCanStart | crates/ls-server/src/build_scheduler.rs:205-226 | With an idle worker and no shutdown a pending run can start iff that window is over |
| BuildSchedulers.NothingIsLost | crates/ls-server/src/build_scheduler.rs:202-241 | Every accepted request is still pending, or the next run to start was given all of it |
| BuildSchedulers.JobIsKept | crates/ls-server/src/build_scheduler.rs:228-299 | A run keeps its job until it finishes |
| BuildSchedulers.ReindexIsHonoured | crates/ls-server/src/build_scheduler.rs:259-297 | The run that drained a reindex request attempts a reingest whatever the compiler said |
| BuildSchedulers.SkipsExactly | crates/ls-server/src/build_scheduler.rs:259-279 | A run skips the reingest iff it had something to compile, the compile failed, and no reindex request was accepted in the window it drained |
| BuildSchedulers.FailedCompileStillReingests | crates/ls-server/src/build_scheduler.rs:259-279 | A run whose compile fails and which reingests, because a reindex request shared it |
| BuildSchedulers.RunsBalance | crates/ls-server/src/build_scheduler.rs:111-299 | Armed schedules are runs started plus the pending one; runs started are runs completed plus the one at work |
| BuildSchedulers.NothingAfterShutdown | crates/ls-server/src/build_scheduler.rs:114-116 | After a shutdown nothing is accepted and no run starts |
| BuildSchedulers.BuildScheduler.Schedule | crates/ls-server/src/build_scheduler.rs:111-141 | One schedule step: a coalesced one never moves the deadline |
| BuildSchedulers.BuildScheduler.BeginRun | crates/ls-server/src/build_scheduler.rs:209-241 | Starts the pending run iff its deadline has passed and there is no shutdown, and takes every intent |
| BuildSchedulers.BuildScheduler.FinishRun | crates/ls-server/src/build_scheduler.rs:259-297 | Reingests iff the compile succeeded, was not needed, or a reindex request shared the run |
| BuildSchedulers.BuildScheduler.Drop | crates/ls-server/src/build_scheduler.rs:184-190 | The shutdown step |
| Diagnostics.ClientViewIsExact | crates/ls-server/src/diagnostics.rs:104-157 | After every sequence of publishes the client's last list for a file splits into consecutive slices, one for each target with a place and in the order of the places, each what accumulated for its target; targets without a place have nothing |
| Diagnostics.AccumulatedMeans | crates/ls-server/src/diagnostics.rs:116-134 | What has accumulated is the published lists from the target's last reset on, laid end to end |
| Diagnostics.PlacedAtMeans | crates/ls-server/src/diagnostics.rs:116-141 | A target's place in the list is that of its first update since it was last reset to nothing or the file was last clear; one without a place has given up every place it took |
| Diagnostics.EmptyPublishClears | crates/ls-server/src/diagnostics.rs:141-156 | An empty list is sent iff the file became clear and its previous list was not empty; nothing is sent iff it is clear and was |
| Diagnostics.MergeReflects | crates/ls-server/src/diagnostics.rs:116-134 | One merge keeps places in order and contents exact in each of its cases |
| Diagnostics.ConversionKeeps | crates/ls-server/src/diagnostics.rs:16-66 | Converting a diagnostic keeps everything that the client can represent; a coordinate out of range becomes zero, an unknown severity "information", a missing range the origin |
| Diagnostics.DiagnosticRouter.Accept | crates/ls-server/src/diagnostics.rs:104-157 | One step of the router machine, for any uri mapping; what the client is left with splits into the targets' slices |
| Bits.ClearLowest | crates/ls-index-model/src/bitset.rs:108-114 | `w & (w - 1)` has one set bit less, and the lowest set bit moves up |
| Bits.ClearLowestBit | crates/ls-index-model/src/bitset.rs:108-114 | It clears the lowest set bit and no other |
| Bitsets.Empty | crates/ls-index-model/src/bitset.rs:16-19 | No members |
| Bitsets.Of | crates/ls-index-model/src/bitset.rs:22-31 | Members are exactly the given ordinals |
| Bitsets.FromWords | crates/ls-index-model/src/bitset.rs:43-55 | Members are the bits of the raw words below the size, whatever the words |
| Bitsets.All | crates/ls-index-model/src/bitset.rs:57-59 | Every ordinal below the size |
| Bitsets.Contains | crates/ls-index-model/src/bitset.rs:69-72 | Membership |
| Bitsets.IntersectsWords | crates/ls-index-model/src/bitset.rs:75-87 | True iff the member sets intersect |
| Bitsets.CardinalityIsSize | crates/ls-index-model/src/bitset.rs:95-97 | The sum of the population counts is the size of the member set |
| Bitsets.Cardinality | crates/ls-index-model/src/bitset.rs:95-97 | The number of members |
| Bitsets.Iterate | crates/ls-index-model/src/bitset.rs:104-117 | Exactly the members, ascending, as many as there are |
| Targets.NewWorkspace | crates/ls-engine/src/targets.rs:72-104 | The index and the reverse edges are exactly the declared graph restricted to known targets, without repetitions |
| Targets.Closure | crates/ls-engine/src/targets.rs:142-158 | The search terminates and returns exactly the nodes reachable from a known start; nothing for an unknown one |
| Targets.ReverseDependencyClosure | crates/ls-engine/src/targets.rs:121-123 | Reflexive-transitive reachability along dependents |
| Targets.ForwardDependencyClosure | crates/ls-engine/src/targets.rs:128-140 | Reflexive-transitive reachability along known dependencies |
| Targets.ClosuresAreDual | crates/ls-engine/src/targets.rs:121-140 | y is in the reverse closure of x iff x is in the forward closure of y |
| Targets.AllowedTargets | crates/ls-engine/src/orchestrator.rs:583-612 | All targets if the definition target is unknown; else the definition's ordinal and the last ordinal of each id in the reverse closure, which is the whole closure iff every other ordinal in it is the last of its id, as it is when snapshot ids are distinct |

## Left out

- JVM boot, JNI, the FFI vtable, raw memory, stdout redirection and the layout canary: foreign calls.
- The BSP session, JSON-RPC, discovery, LSP conversion, command line and rendering: input and output.
- Segment files and snapshots: document scans, symbol records and target tables are given sequences.
- Wall-clock time and thread wake-ups: deadlines, statuses and clock readings come with the steps; polling the lane during the grace period is one answer, idle or not.
- Source texts: whether an occurrence's token matches the display name, and whether a source is fresh, are parameters.
- UTF-8 and Unicode: strings on the wire are byte sequences; the validity test of the compiler boundary and the replacement of invalid sequences in the SemanticDB decoder are parameters; letter, digit and case classes are parameters of which only disjointness is used.
- Error messages and offsets: errors are reduced to their kind.
- Machine limits: counters and lengths are unbounded except where the code tests them; recursion depth is not limited. The SemanticDB round trips assume an output shorter than 2^64 bytes.
- Bitwise `or` of disjoint bit groups in varints and little-endian words is written as addition; bitset words are naturals with recursively defined bitwise operators.
- Hash iteration orders, and the sorting of dependents and of allowed ordinals, which only feed sets; compile targets are handed over as a set, not as a sorted list.
- Payloads other than completion lists, small encoders, position packing and the other SemanticDB consumers: easier repeats of what is proved.
- The per-symbol definition target and the segment symbol table that ingest also builds.
- Ingest.IngestBatch: assumes that documents with the same uri carry the same facts, which holds because ingest keeps one primary document per uri.
- IndexModel.SortKeys: a document id of 2^64 - 1 ties with the global key, as in the original's signed comparison, so the order of two such keys of one symbol is not determined by the sort key.
- Targets.AllowedTargets: ingest writes one snapshot target per workspace target, and workspace targets have distinct ids, so snapshots with repeated ids are not expected; the contract covers them all the same.
- Recovery.HonestRunsAreSafe: a fatal outcome ends the supervisor's part of the run, because the process exits; requests that arrive before it does are not modelled.
- DispatchLane.LiveOperationIsNeverIdle: holds under the stated hypothesis on abandoned generations, which is shown to be exact.
- Fuzzy.CamelOnlyIsComplete: completeness is stated for camel-only queries, which is shown to be exact.
