# SEMAINE component core: a verified model

SEMAINE connects components of an interactive agent through topics. This project models three parts of
its C++ core and proves what each promises.

1. **State information.** Named values ("facial expression", "user turn state") travel as XML documents. A
   configured table maps each short name to a path in a restricted XPath dialect. `PathSyntax`,
   `PathSplitter`, `OpenBrackets`, `PathLossless`, `PathGuarantees` and `PathRoundTrip` treat the path text; `StateConfig`, `StateTable` and
   `StateSections` load the table, `ConfigPrinter` and `ConfigRoundTrip` write one and load it again; `Dom`, `DomLaws`, `Interference`, `Independence`, `DocumentOrder` and
   `DomWriter` treat writing and reading one path in a tree; `StateDocument`, `StateRoundTrip`,
   `StateAnalysis`, `IndependentTables`, `RegularTables`, `StateInfoObject`, `StateHistory`, `BuildErrors` and
   `BrokenWrites` treat whole documents and the object that caches them; `FaceEntries`, `FaceView`, `UserState` and `ShippedTable` the user-state table.
2. **Hand-over of messages** from receivers to their component: `HandOver`, `Overtaking` and `Exiting`, a
   step machine over all interleavings.
3. **Reports and messages**: `Statistics` and `Liveness` (averages, ping replies), `FeatureCodec` and
   `FeatureMessages` (feature vectors as text), `MessageHeaders` (message properties). `Prelude` and `Loops`
   hold shared definitions.

Code that updates variables or fields is written as methods and classes, each tied by its `ensures` to a
specification function or predicate; the laws are proved about those. `Put` and `Get` are the reference
meaning of writing and reading a path; `DomWriter.WriteAlongPath` is the loop that does the writing, and
`DocumentOrder` is a second, relational account of reading.

## What was found

- The round trip holds for every independent table, in every order of the entries. Among tables that tell
  equal names apart by one attribute's values these are the only ones (`IndependentTables.RoundTripsIff`). The
  shipped dialog-state and agent-state tables are independent (`RegularTables`).
- It fails for the user-state table that is shipped: the times of the facial expression and of the action
  units are kept in the same attributes. A time can be lost (`ShippedTable.StartTimesCollide`), and a time
  that was never set can be read (`ShippedTable.UnsetStartIsRead`). Values for its twenty-four names survive
  exactly when no expression is given, or nothing about the action units, or both have the same times
  (`ShippedTable.ShippedRoundTripIff`).
- A new root element is given its prefix whatever its namespace (StateInfo.cpp:392), which the DOM refuses
  for a root without namespace: with such a root, writing the first value fails and leaves an empty root.
- The splitter runs for ever exactly on the texts that have a part with a name and an opened, never closed
  test before its slash, all parts before it being accepted (`OpenBrackets.RunsForEverIff`).
- The splitter forgets three spellings, not two: an empty prefix's colon, `=''`, and the empty test `[@]`.
- The splitter's comment (StateInfo.cpp:83-95) says that local names are not empty and that a value comes
  with an attribute name, and speaks of the last part as an attribute's name. The code accepts `//text()`,
  `/a[@='v']/@b` and `/a/@`; the model follows the code, and `PathGuarantees.PromisedIff` says of which
  accepted texts the comment is right.
- A value with a colon, in a step without prefix, is taken for a prefix unless a slash comes first.
- When building a document fails, what was built so far stays cached and is handed out by the next call
  without an error. This happens exactly when building fails and the first path with a value to write has an
  element step (`BuildErrors.HalfDocumentIff`); `BuildErrors.HalfDocumentStaysCached` shows it for any two
  names with different roots.
- The cached document agrees with the values over every run exactly when all values survive the round trip
  (`StateInfoObject.CoherentIffRoundTrips`).
- A ping that is between its check and its marking while the component fails turns the recorded failure
  into "stalled" (`Liveness.FailureCanBeHidden`).
- A startup whose ready report cannot be sent after it is recorded, and whose failure report cannot be made
  either, is seen as ready (`Liveness.FailedStartupSeenReady`).
- An average over a negative sum is not the average (the sum is divided as an unsigned word), and -1 can
  also mean a single recorded -1.
- After the component's loop has ended, a message not yet picked up stays in its slot for ever and its
  delivery thread with it (`Overtaking.EndStrands`); `Overtaking.MessageCanBeStranded` gives a run to there.

## Model

| member | source | states |
|---|---|---|
| PathSplitter.SplitXPathIntoParts | c++/src/semaine/datatypes/stateinfo/StateInfo.cpp:99-182 | The index loop over the text gives, for every text, the outcome of the recursive reading `Split`: parts, error, or endless run |
| PathSplitter.SplitOnePart | c++/src/semaine/datatypes/stateinfo/StateInfo.cpp:115-164 | One turn of the loop: the part taken and the next position, the loop's exit, or the error thrown |
| PathSplitter.SplitAttribute | c++/src/semaine/datatypes/stateinfo/StateInfo.cpp:138-153 | The bracketed test: name and quoted value, name only, or an error; without `]` the next position is 1 |
| PathSplitter.TurnMoves | c++/src/semaine/datatypes/stateinfo/StateInfo.cpp:138-164 | Each turn moves forward to just after a slash, or restarts at 1 exactly when a bracket of this part is never closed |
| PathSplitter.TurnErrors | c++/src/semaine/datatypes/stateinfo/StateInfo.cpp:119-153 | Each error of a part by its own iff on the text |
| PathSplitter.EndErrors | c++/src/semaine/datatypes/stateinfo/StateInfo.cpp:102-180 | The errors for a missing leading slash and a missing final part, each by its own iff |
| PathSplitter.HangsIsDivergence | c++/src/semaine/datatypes/stateinfo/StateInfo.cpp:114-165 | The outcome is `Hangs` if and only if the loop is still running after every number of turns |
| PathSplitter.ClosedBracketsTerminate | c++/src/semaine/datatypes/stateinfo/StateInfo.cpp:114-165 | If every `[` has a later `]`, the position strictly increases within the text and the call ends |
| OpenBrackets.RunsForEverIff | c++/src/semaine/datatypes/stateinfo/StateInfo.cpp:114-165 | For every text: the loop runs for ever if and only if, at some position after a slash, the text so far is accepted when completed by an attribute, and the part there has a name, then `[@` with no `]` after it, then a slash |
| PathSplitter.OpenBracketHangs | c++/src/semaine/datatypes/stateinfo/StateInfo.cpp:139-164 | The condition is needed: a concrete text on which the loop never ends |
| PathLossless.Lossless | c++/src/semaine/datatypes/stateinfo/StateInfo.cpp:114-181 | Whenever splitting returns, the steps' texts joined by slashes are the expression and each spells its part; the canonical text is the expression if and only if no step is spelt in one of the three odd ways |
| PathGuarantees.BrokenPromises | c++/src/semaine/datatypes/stateinfo/StateInfo.cpp:83-95 | For every accepted text, step by step: the local name is empty if and only if the step's text is empty or ends at its first colon; a value stands without attribute name if and only if `=` follows `[@` and the quotes hold something; the last name is empty if and only if the text ends in `/@` |
| PathGuarantees.PromisedIff | c++/src/semaine/datatypes/stateinfo/StateInfo.cpp:83-95 | The documented guarantees hold of an accepted text if and only if none of its steps' texts is of those kinds and it does not end in `/@` |
| PathGuarantees.EmptyNameAccepted | c++/src/semaine/datatypes/stateinfo/StateInfo.cpp:154-157 | `//text()` is accepted with an empty local name |
| PathGuarantees.ValueOfNothingAccepted | c++/src/semaine/datatypes/stateinfo/StateInfo.cpp:138-149 | `/a[@='v']/@b` is accepted with a value for an empty attribute name |
| PathGuarantees.EmptyAttributeAccepted | c++/src/semaine/datatypes/stateinfo/StateInfo.cpp:170-174 | `/a/@` is accepted with an empty last name |
| PathRoundTrip.SplitUndoesPrint | c++/src/semaine/datatypes/stateinfo/StateInfo.cpp:74-182 | For every path of the documented grammar, splitting its printed text returns it if and only if no value holds `]` and no value of an unprefixed step has a colon before any slash |
| StateConfig.Trim | c++/src/semaine/datatypes/stateinfo/StateInfo.cpp:36-49 | The two erasing loops give the trimmed text |
| StateConfig.TrimmedIsTheTrim | c++/src/semaine/datatypes/stateinfo/StateInfo.cpp:36-49 | Trimming is determined by its shape: blanks, a text without blank ends, blanks |
| StateConfig.SplitSections | c++/src/semaine/datatypes/stateinfo/StateInfo.cpp:252-274 | For every line sequence, each type with a header has as its section exactly the trimmed, non-blank, non-comment lines from its last header to the next type header, sub-headers included; other types have none |
| StateConfig.HeaderType | c++/src/semaine/datatypes/stateinfo/StateInfo.cpp:258-269 | Finds the type whose header a line is, if any |
| StateTable.ParseLineReads | c++/src/semaine/datatypes/stateinfo/StateInfo.cpp:208-223 | A line reads as key and rest if and only if it is the key, a gap of delimiters and the rest, none of which can be cut otherwise |
| ConfigPrinter.ItemIsRead | c++/src/semaine/datatypes/stateinfo/StateInfo.cpp:189-223 | Whatever key without tab, space, `=` and `:`, whatever gap of these four, and whatever rest that starts with none of them: the line is read as key and rest |
| StateTable.LoadTable | c++/src/semaine/datatypes/stateinfo/StateInfo.cpp:186-239 | Loads a section if and only if its lines are well formed, prefixes come before names, paths are accepted and names and paths are one-to-one; the maps are what the entries say; a refusal blames the first offending line with its reason |
| StateTable.BindIsLast | c++/src/semaine/datatypes/stateinfo/StateInfo.cpp:215-235 | A lookup gives what the last entry with the key says |
| StateTable.TableSound | c++/src/semaine/datatypes/stateinfo/StateInfo.cpp:197-238 | A loaded table is injective, holds only paths the splitter accepts, and is exactly the section's entries |
| StateSections.SectionIsUnique | c++/src/semaine/datatypes/stateinfo/StateInfo.cpp:252-274 | A type has at most one section |
| StateSections.InfosByType | c++/src/semaine/datatypes/stateinfo/StateInfo.cpp:241-293 | Configuration succeeds if and only if every type has a section that loads; each table is the one its section says, and all its paths split; a refusal names the first type to fail, with no section or with its section's first offending line and reason |
| ConfigPrinter.KeptIsContent | c++/src/semaine/datatypes/stateinfo/StateInfo.cpp:252-258 | Of any text, blanks around lines, comment lines and blank lines are dropped and nothing else |
| ConfigRoundTrip.AcceptedIffWellWritten | c++/src/semaine/datatypes/stateinfo/StateInfo.cpp:197-238 | A section of ordinary lines under the two literal sub-headers is accepted if and only if there is a prefix line, every line is a key, a gap and a rest, every path is one the splitter accepts, and no short name or path occurs twice |
| ConfigRoundTrip.LoadPrinted | c++/src/semaine/datatypes/stateinfo/StateInfo.cpp:186-293 | Loading undoes printing: for every text with the literal headers, sub-headers and entry lines of a section for each type, and any comments, blank lines and blanks, exactly the tables it describes are loaded, prefixes and names |
| DomWriter.ChildrenByLocalNameNS | c++/src/semaine/util/XMLTool.cpp:291-309 | Exactly the element children of that name and namespace, in document order |
| DomWriter.FindChild | c++/src/semaine/datatypes/stateinfo/StateInfo.cpp:405-426 | The first child that matches the step's name, namespace and attribute test, or none |
| DomWriter.WriteAlongPath | c++/src/semaine/datatypes/stateinfo/StateInfo.cpp:375-446 | Walking a current position down the tree, finding or appending one child a step, computes the recursive `Put`; creating an element whose prefix stands for no namespace breaks the write off and leaves the tree that `Sticks` says |
| DomLaws.PutGet | c++/src/semaine/datatypes/stateinfo/StateInfo.cpp:375-446 | On any tree, evaluating a path after writing v along it gives v if and only if the write does not replace the value its own last step selects by |
| DomLaws.PutPut | c++/src/semaine/datatypes/stateinfo/StateInfo.cpp:375-446 | Of two writes along one path only the later leaves a trace |
| DocumentOrder.GetIsFirstSelected | c++/src/semaine/datatypes/stateinfo/StateInfo.cpp:592-600 | Reading gives the value of the first selected node in document order, and nothing if and only if no node is selected |
| StateAnalysis.EvaluateIsFirstSelected | c++/src/semaine/datatypes/stateinfo/StateInfo.cpp:592-600 | The same for whole paths, the root step with its name, namespace and test included |
| StateAnalysis.AnalyseOutcomes | c++/src/semaine/datatypes/stateinfo/StateInfo.cpp:571-582 | For every table, document and expected root, each outcome by its own iff: no document, another root name, another root namespace, an expression the engine rejects, success |
| StateAnalysis.AnalysedValues | c++/src/semaine/datatypes/stateinfo/StateInfo.cpp:588-612 | A name is read with a value if and only if the value is not empty and is that of the first node its path selects |
| Interference.Frame | c++/src/semaine/datatypes/stateinfo/StateInfo.cpp:375-446 | On every tree, a write leaves the read of a path it does not interfere with |
| Interference.FrameIffSilent | c++/src/semaine/datatypes/stateinfo/StateInfo.cpp:375-446 | A write along one path leaves another path's read on all trees and values if and only if the two paths, looked at alone, do not interfere |
| Independence.IndependentIsSilent | c++/src/semaine/datatypes/stateinfo/StateInfo.cpp:375-446 | Paths that part at values of one attribute, keep their own tests, have texts as leaves and end in different places do not interfere, either way |
| StateDocument.LawfulIffUndisturbed | c++/src/semaine/datatypes/stateinfo/StateInfo.cpp:362-446 | For a table with one root: no name's write changes another name's read on any document if and only if its paths are pairwise apart |
| StateRoundTrip.RoundTrip | c++/src/semaine/datatypes/stateinfo/StateInfo.cpp:354-446 | For every compatible table (paths undisturbed by each other, below a root with a namespace), every map over its names and every order: building succeeds, builds nothing if and only if no value is non-empty, and analysing gives exactly the non-empty values |
| StateRoundTrip.OrderDoesNotMatter | c++/src/semaine/datatypes/stateinfo/StateInfo.cpp:362-446 | Every order over the map builds documents that analyse identically |
| IndependentTables.IndependentRoundTrip | c++/src/semaine/datatypes/stateinfo/StateInfo.cpp:568-614 | For every table whose paths are pairwise independent below one plain root with a namespace, all values over its names survive in every order |
| IndependentTables.RoundTripsIff | c++/src/semaine/datatypes/stateinfo/StateInfo.cpp:362-446 | For every table with one plain root that tells equal names apart by one attribute's values: all values survive in every order if and only if the root has a namespace, no text has a path running through it and no two paths end in one place, or the table is empty |
| RegularTables.RegularIsIndependent | c++/src/stateinfo.config:45-131 | Every table of child attributes and named dimensions with different ends is independent |
| RegularTables.DialogStateRoundTrips | c++/src/stateinfo.config:96-103 | With the shipped dialog-state table all values survive in every order, and nothing is built if and only if there is nothing |
| RegularTables.AgentStateRoundTrips | c++/src/stateinfo.config:45-87 | The same with the shipped agent-state table, whose entries are told apart by dimension set and name |
| FaceView.FaceWrite | c++/src/semaine/datatypes/stateinfo/StateInfo.cpp:405-446 | On any document with at most one `bml` child, a face entry writes the attribute of the first face that passes its test, or of a new one, and the document keeps to one `bml` child |
| FaceView.AsideWrite | c++/src/semaine/datatypes/stateinfo/StateInfo.cpp:405-446 | An entry whose path keeps away from faces leaves all faces as they are |
| UserState.UserRoundTripIff | c++/src/stateinfo.config:19-24 | For every table with the six face entries and any others that keep away from faces and from each other, all values, and every order that has the face entries in the map's order: building succeeds, builds nothing if and only if there is nothing, and analysing gives the values back if and only if no shape is given, or nothing about the action units, or both have the same start and the same end |
| ShippedTable.TableHasFaces | c++/src/stateinfo.config:7-41 | Child attributes, head gestures, dimensions, categories and the intensity with its untested `emotion` step keep away from faces and from each other |
| ShippedTable.ShippedRoundTripIff | c++/src/stateinfo.config:7-41 | That exact condition for the whole shipped user-state table, over all values of its twenty-four names, set or not |
| ShippedTable.StartTimesCollide | c++/src/stateinfo.config:19-24 | Whatever four values are given, the action units' start time reads back as the expression's |
| ShippedTable.UnsetStartIsRead | c++/src/stateinfo.config:19-24 | An expression's start time that was never set reads back as the action units' |
| StateInfoObject.WriteEntry | c++/src/semaine/datatypes/stateinfo/StateInfo.cpp:362-446 | One entry: skipped when empty, refused when unknown or at odds with the root, otherwise written along its path; a new root without namespace, or a new element whose prefix has none, is left behind with an error |
| StateInfoObject.StateInfo.CreateDocumentFromInfo | c++/src/semaine/datatypes/stateinfo/StateInfo.cpp:354-446 | Builds entry by entry in some order over all names; on an error what was written so far stays |
| StateInfoObject.StateInfo.AnalyseDocument | c++/src/semaine/datatypes/stateinfo/StateInfo.cpp:568-614 | Succeeds if and only if the document has the expected root and all expressions are evaluable; then it stores exactly the non-empty values that the table's paths evaluate to; a wrong root changes nothing |
| StateInfoObject.StateInfo.FromItems | c++/src/semaine/datatypes/stateinfo/StateInfo.cpp:302-315 | Refused if and only if a name is not in the table; otherwise the given values and no document |
| StateInfoObject.StateInfo.FromDocument | c++/src/semaine/datatypes/stateinfo/StateInfo.cpp:318-325 | An object is made if and only if the document has the expected root and all expressions are evaluable; it holds a value for a name if and only if that is the non-empty value of the first node the name's path selects |
| StateInfoObject.StateInfo.SetInfo | c++/src/semaine/datatypes/stateinfo/StateInfo.cpp:331-341 | Sets the value and drops the cached document; an unknown name changes nothing |
| StateInfoObject.StateInfo.GetDocument | c++/src/semaine/datatypes/stateinfo/StateInfo.cpp:343-350 | The cached document if there is one, else the newly built one, which is cached |
| StateInfoObject.RunsAreCoherent | c++/src/semaine/datatypes/stateinfo/StateInfo.cpp:302-350 | For every table whose values survive the round trip, compatible ones among them, over every run of construction, setting and fetching: a cached document analyses to the current non-empty values, keys stay in the table, fetching raises no error |
| StateInfoObject.CoherentIffRoundTrips | c++/src/semaine/datatypes/stateinfo/StateInfo.cpp:302-350 | For every table at all: that holds over every run if and only if all values survive the round trip |
| StateHistory.LastWriteWins | c++/src/semaine/datatypes/stateinfo/StateInfo.cpp:331-350 | For every table whose values survive the round trip and every history of setting and fetching: the document fetched at the end analyses, for each name, to the last value set for it or else its starting value, empty ones left out |
| BuildErrors.BuildFailsIff | c++/src/semaine/datatypes/stateinfo/StateInfo.cpp:362-438 | For any loaded table, building fails if and only if the paths with a value to write do not share one root element with a namespace, or a write in its turn comes to create an element whose prefix stands for no namespace; no other errors occur |
| BuildErrors.DeclaredBuildFailsIff | c++/src/semaine/datatypes/stateinfo/StateInfo.cpp:362-438 | When all prefixes in use are declared: if and only if the paths with a value to write do not share one root element with a namespace |
| BuildErrors.OnlyRootErrors | c++/src/semaine/datatypes/stateinfo/StateInfo.cpp:366-374 | Over every run, for any loaded table, keys stay in the table, and a missing entry or a malformed path is never met |
| BuildErrors.LeavesDocumentIff | c++/src/semaine/datatypes/stateinfo/StateInfo.cpp:383-392 | For any loaded table, order and values, building leaves a document, finished or not, if and only if the first path with a value to write has an element step |
| BuildErrors.HalfDocumentIff | c++/src/semaine/datatypes/stateinfo/StateInfo.cpp:343-438 | For any loaded table, order and values: a fetch fails and the next one returns what was left without an error, if and only if building fails and the first path with a value to write has an element step |
| BuildErrors.HalfDocumentStaysCached | c++/src/semaine/datatypes/stateinfo/StateInfo.cpp:343-402 | For any two names with different roots: the fetch fails, and the next one returns the half-built document without an error and without the second value |
| BrokenWrites.WriteErrors | c++/src/semaine/datatypes/stateinfo/StateInfo.cpp:384-438 | Each error of a write by its own iff; root errors leave the document as it is, a new root without namespace is left empty |
| BrokenWrites.StepResolves | c++/src/semaine/datatypes/stateinfo/StateInfo.cpp:375-381 | What a step of a path becomes: the local name, the namespace its prefix is declared for or none, and a test exactly as its attribute name and value say |
| BrokenWrites.UndeclaredChild | c++/src/semaine/datatypes/stateinfo/StateInfo.cpp:426-432 | A child with an undeclared prefix, none there that matches: the write fails and leaves it bare |
| BrokenWrites.UndeclaredRoot | c++/src/semaine/datatypes/stateinfo/NamespaceContext.cpp:56-63 | A first value whose root has no prefix or an undeclared one fails and leaves the bare root |
| BrokenWrites.BarredStep | c++/src/semaine/datatypes/stateinfo/StateInfo.cpp:426-432 | A new child whose prefix has no namespace is left without attributes, and only if no child matches |
| BrokenWrites.BrokenBuildKeeps | c++/src/semaine/datatypes/stateinfo/StateInfo.cpp:362-438 | When building breaks off at an entry, what was read before it along any path apart from that entry's is still read from what is left |
| HandOver.StepKeepsInv | c++/src/semaine/components/Component.cpp:86-242 | Every step of every thread keeps the hand-over invariant: queued or in hand at most once, and exactly while an announced message is in the slot |
| HandOver.PickUpKeepsInv | c++/src/semaine/components/Component.cpp:183-198 | The receiver in hand has a message, so the assertion after getMessage holds |
| HandOver.NothingLost | c++/src/semaine/cms/receiver/Receiver.cpp:113-154 | Over every interleaving, for each receiver, messages picked up followed by the slot's are the well-formed messages delivered, in order; queue and hand never exceed the number of receivers |
| HandOver.DeliveredAfterRegistering | c++/src/semaine/cms/receiver/Receiver.cpp:103-111 | Nothing is delivered to a receiver before the component has registered with it |
| HandOver.QueueFits | c++/src/semaine/components/Component.cpp:86-92 | Queue and hand together hold at most one entry for each receiver |
| Overtaking.StepBringsNearer | c++/src/semaine/components/Component.cpp:136-211 | Each step that is not the receiver's own pick-up lowers the pick-ups and component steps before it by exactly its share |
| Overtaking.PickedUpSoon | c++/src/semaine/components/Component.cpp:136-198 | With n receivers, at most n-1 other pick-ups and, while the loop runs, fewer than 6n component steps come before an announced receiver's pick-up |
| Overtaking.MessageCanBeStranded | c++/src/semaine/components/Component.cpp:136-242 | From any initial state, for any receiver and message: a run after which the loop has ended with that message announced and in its slot |
| Overtaking.EndStrands | c++/src/semaine/components/Component.cpp:171-181 | After the loop has ended, a message still in its slot stays there in every continuation and nothing more is delivered to that receiver |
| Exiting.ExitIsSoon | c++/src/semaine/components/Component.cpp:136-225 | Once exit is requested, in every continuation, the component's thread takes at most the steps of the turn it is in and the check that ends it |
| Exiting.FailureEnds | c++/src/semaine/components/Component.cpp:125-181 | After a failed startup, act or react, in every continuation, exit stays requested and the thread acts, polls and picks up no more: it has ended, or ends at its next step |
| Exiting.ExitEndsWaiting | c++/src/semaine/components/Component.cpp:148-163 | A wait for the system's readiness ends when exit is requested |
| Exiting.GoesOn | c++/src/semaine/components/Component.cpp:136-161 | While exit is not requested the thread keeps waiting for the system and turns again after each turn |
| Exiting.NeverStuck | c++/src/semaine/components/Component.cpp:119-226 | Until it has ended, the thread always has a next step |
| Exiting.ExitHasReason | c++/src/semaine/components/Component.cpp:228-242 | Over every run, exit is requested if and only if something requested it or failed |
| Exiting.EndsOnRequest | c++/src/semaine/components/Component.cpp:136-163 | Over every run, the thread has ended only if exit is requested |
| Statistics.WindowsSlide | c++/src/semaine/components/meta/MetaMessenger.cpp:211-230 | After any sequence of calls each window is the last min(n, memory) values recorded for it, in order, and the counter is the number of counting calls |
| Statistics.AverageIsFloor | c++/src/semaine/components/meta/MetaMessenger.cpp:232-242 | If the sum fits a long, the average is the sum over the size rounded down if and only if the sum is not negative or there is one value |
| Statistics.MinusOneMeans | c++/src/semaine/components/meta/MetaMessenger.cpp:236-241 | The result is -1 if and only if nothing was recorded or the one value recorded is -1 |
| Statistics.StatisticsKeeper.AverageOf | c++/src/semaine/components/meta/MetaMessenger.cpp:232-242 | The wrapping summing loop and the unsigned division compute `Average` |
| Statistics.StatisticsKeeper.RecordActTime | c++/src/semaine/components/meta/MetaMessenger.cpp:211-216 | Appends and drops the oldest beyond the memory; the other windows stay |
| Statistics.StatisticsKeeper.RecordReactTime | c++/src/semaine/components/meta/MetaMessenger.cpp:218-223 | As for act times, on the react window |
| Statistics.StatisticsKeeper.RecordTransmitTime | c++/src/semaine/components/meta/MetaMessenger.cpp:225-230 | As for act times, on the transmit window |
| Statistics.StatisticsKeeper.CountMessageReceived | c++/src/semaine/components/meta/MetaMessenger.h:127 | Counts one message; the windows stay |
| Liveness.FailureAbsorbs | c++/src/semaine/components/meta/MetaMessenger.cpp:151-163 | From a recorded failure, every later reply of every continuation says failure if and only if no ping stands between an overdue check and its marking |
| Liveness.PingAfterAlive | c++/src/semaine/components/meta/MetaMessenger.cpp:77-163 | For every state with a known system time: after a report at clock c, a ping at clock c' answers stalled if and only if the system is ready and c' < c or c' - c > 3000, and ready otherwise; the recorded time is c plus the offset |
| Liveness.PingWithoutTime | c++/src/semaine/components/meta/MetaMessenger.cpp:77-163 | Without a system time the recorded time stays, and the ping compares with that |
| Liveness.TimelyReply | c++/src/semaine/components/meta/MetaMessenger.cpp:142-208 | Over the threads' steps, from any looping state: once told whether the system is ready and what time it is, a turn and a ping are answered with ready if and only if the system is not ready or the turn is at most three seconds old and not in the future |
| Liveness.FailureIsAnswered | c++/src/semaine/components/Component.cpp:125-181 | A failure recorded while no overdue check is pending is answered by every later reply |
| Liveness.FailureHasReason | c++/src/semaine/components/Component.cpp:125-226 | Over every run, failure is the last seen state only if a failing startup or turn recorded it |
| Liveness.OverStays | c++/src/semaine/components/Component.cpp:119-226 | Once the component's thread is past its loop it takes no step in any continuation, and the state seen last changes to stalled at most |
| Liveness.FailedStartupSeenReady | c++/src/semaine/components/Component.cpp:113-134 | A startup that fails after its ready state is recorded, and cannot report its failure, is answered for as ready, or stalled when overdue |
| Liveness.PingLeaves | c++/src/semaine/components/meta/MetaMessenger.cpp:151-161 | A ping changes nothing but a ready state, and that to stalled only |
| Liveness.ExitIsSilent | c++/src/semaine/components/Component.cpp:157-163 | Leaving the loop on request reports nothing and is for good |
| Liveness.LostReply | c++/src/semaine/components/meta/MetaMessenger.cpp:171-180 | A reply that cannot be sent leaves the marking, and the next message can be handled |
| Liveness.PingInOneStep | c++/src/semaine/components/meta/MetaMessenger.cpp:151-172 | Undisturbed, the interleaved steps of answering a ping amount to the messenger's single step and its reply |
| Liveness.FailureCanBeHidden | c++/src/semaine/components/meta/MetaMessenger.cpp:155-161 | The exception is reachable: a run to it from the initial state |
| Liveness.FailureOnlyWhenOver | c++/src/semaine/components/Component.cpp:125-136 | Over every run, a failure is the last seen state only once the component's thread is past its loop |
| Liveness.MetaMessenger.IamAlive | c++/src/semaine/components/meta/MetaMessenger.cpp:77-83 | Ready from now on; the time is taken only once a system time is known |
| Liveness.MetaMessenger.ReportState | c++/src/semaine/components/meta/MetaMessenger.cpp:85-97 | Records the state unless making the message fails, and sends it, with details if there are any, unless making or sending fails |
| Liveness.MetaMessenger.OnMessage | c++/src/semaine/components/meta/MetaMessenger.cpp:144-173 | Readiness and clock offset are taken over, a ready component overdue or seen in the future is marked stalled, and the reply carries state, time, total and the averages other than -1; making it can fail before the check, sending it after |
| FeatureCodec.DecodeUndoesEncode | c++/src/semaine/cms/message/SEMAINEFeatureMessage.cpp:78-93 | Decoding the sent text returns names and values if and only if no name holds a blank |
| FeatureCodec.LinesAreComplete | c++/src/semaine/cms/message/SEMAINEFeatureMessage.cpp:84 | Of any text the lines are what stands before each line end; a last line without one is left out |
| FeatureCodec.LineReads | c++/src/semaine/cms/message/SEMAINEFeatureMessage.cpp:85-90 | A number, any blanks, a word and anything after a further blank: the number and the word are read |
| FeatureCodec.UnreadableLine | c++/src/semaine/cms/message/SEMAINEFeatureMessage.cpp:85-90 | A line that no number starts gives zero and no name |
| FeatureCodec.DecodedNames | c++/src/semaine/cms/message/SEMAINEFeatureMessage.cpp:84-91 | From any text, one value and one blank-free name for each complete line |
| FeatureMessages.FeatureSender.SetFeatureNames | c++/src/semaine/cms/sender/FeatureSender.cpp:34-40 | Names can be set while there are none, and never again |
| FeatureMessages.FeatureSender.FeatureText | c++/src/semaine/cms/sender/FeatureSender.cpp:47-75 | The line-by-line buffer is the encoding; refused if and only if names are missing or differ in number |
| FeatureMessages.FeatureMessage.ReadFromTextMessage | c++/src/semaine/cms/message/SEMAINEFeatureMessage.cpp:78-93 | Appends exactly what the complete lines decode to, to both vectors |
| FeatureMessages.FeatureMessage.GetFeatureVector | c++/src/semaine/cms/message/SEMAINEFeatureMessage.cpp:39-54 | Whatever was called before, the decoded values; decoded once; the vectors keep one length; the assertion fails only for a text without a complete line |
| FeatureMessages.FeatureMessage.GetFeatureNames | c++/src/semaine/cms/message/SEMAINEFeatureMessage.cpp:56-67 | The decoded names, or those set since; same invariant |
| FeatureMessages.FeatureMessage.SetFeatureNames | c++/src/semaine/cms/message/SEMAINEFeatureMessage.h:68-78 | Accepted if and only if there are as many names as features decoded so far |
| MessageHeaders.ComposedHeader | c++/src/semaine/cms/sender/Sender.h:309-333 | A composed message has exactly the prescribed property, or none, for each of the nine keys |
| MessageHeaders.ComposedCarries | c++/src/semaine/cms/message/SEMAINEMessage.cpp:45-68 | For all arguments, the message passes verification, carries one of period and event, and the accessors return what was sent, any negative creation time as -1; it has the XML flag if and only if the filling step is the XML sender's |
| MessageHeaders.RefusedIff | c++/src/semaine/cms/message/SEMAINEMessage.cpp:45-68 | A message is refused if and only if user time, data type or source is missing or of another type, or it has neither period nor event |
| MessageHeaders.NeededProperties | c++/src/semaine/cms/message/SEMAINEMessage.cpp:45-68 | A composed message without one of its properties is refused if and only if that is user time, data type, source or the one of its mode |
| MessageHeaders.HeaderDetermines | c++/src/semaine/cms/message/SEMAINEMessage.h:116-232 | The accessors determine origin, mode and content: two sendings that read the same differ at most in which negative time was given |
| MessageHeaders.Sender.FillMessageProperties | c++/src/semaine/cms/sender/Sender.h:317-333 | The base class's overload, calling the filling step through the object's slot, yields the XML flag for objects constructed as XML senders and not for others; content properties as given |
| MessageHeaders.Sender.Xml | c++/src/semaine/cms/sender/XMLSender.cpp:23-47 | An XML sender: event-based, with the override in its slot |
| MessageHeaders.Sender.constructor | c++/src/semaine/cms/sender/Sender.cpp:20-38 | A plain sender, with the base class's filling step in its slot |
| MessageHeaders.Sender.StartConnection | c++/src/semaine/cms/IOBase.cpp:101-106 | Started from now on, unless the broker fails |
| MessageHeaders.Sender.OnException | c++/src/semaine/cms/IOBase.h:139-142 | From now on the sender refuses to send |
| MessageHeaders.Sender.SetPeriodic | c++/src/semaine/cms/sender/Sender.h:96-101 | Accepted if and only if the period is positive |
| MessageHeaders.Sender.SetEventBased | c++/src/semaine/cms/sender/Sender.h:108-111 | Event-based from now on |
| MessageHeaders.Sender.SendTextMessage | c++/src/semaine/cms/sender/Sender.cpp:47-71 | Whatever the mode history, sends one message that carries the arguments in the current mode, or reports why not and sends nothing |
| MessageHeaders.Sender.SendEventMessage | c++/src/semaine/cms/sender/Sender.cpp:73-96 | As above with the given event kind; refused in periodic mode |
| MessageHeaders.Sender.SendXml | c++/src/semaine/cms/sender/XMLSender.cpp:42-59 | The message that the base class sends carries the override's flag; the mode is checked before the connection |

## Left out

- StateRoundTrip.RoundTrip: compatibility is shown to be enough, not necessary, for tables of every kind. It asks that no write disturbs another name's read on any tree (which `FrameIffSilent` makes exact), while a built document is a special tree on which some disturbances cannot show. For tables that tell equal names apart by one attribute's values `RoundTripsIff` is exact, and for the shipped user-state table, which does not, `ShippedRoundTripIff`.
- FeatureCodec.DecodeUndoesEncode: numbers are tokens whose printing and reading are assumed to agree; float formatting, and the value after a number that cannot be read (taken as zero), are not modelled.
- StateInfoObject.StateInfo.CreateDocumentFromInfo: the tree is a value and the current element a position in it, so aliasing between documents and node ownership are not captured; the order of names is any order, of which the sorted order of the original's map is one.
- StateInfoObject.StateInfo.AnalyseDocument: expressions outside the documented grammar, in a spelling that is not canonical, with names that are not XML names, quotes inside values, undeclared or reserved prefixes, prefixed attribute names or `xmlns` as attribute count as rejected by the XPath engine; what the engine does with them is not modelled. On such an error the object is not constructed.
- PathSplitter.SplitXPathIntoParts: positions are unbounded; texts longer than a 32-bit position are not modelled.
- Statistics.StatisticsKeeper.CountMessageReceived: overflow of the 32-bit counter is not modelled. Sums and divisions are 64-bit.
- Liveness.FailureAbsorbs: a state is written in one step; tearing of unsynchronised writes and weak memory order are not modelled, here and in `HandOver`.
- BuildErrors.BuildFailsIff: the DOM exceptions raised on building for names that are not XML names are not modelled; the laws of the round trip are about tables whose names are. With undeclared prefixes the condition is stated on the document that each write meets; with declared ones it is a condition on the paths alone.
- MessageHeaders.Sender.constructor: a connection counts as not started at first, where the code leaves that flag unset.
- Which prefix an element is given, beyond whether it can be given one: it does not affect where values are found.
- Parsing, serialising and transcoding of XML, and comment or CDATA nodes: documents start as trees of elements and text.
- Connections, sessions, topics and conversions between property types of the message broker: only that each receiver's messages are delivered one after the other is assumed.
- Synchronous receiving, topic reports, logging, and the time limits of waits: a wait can end at any step.
- Binary feature messages: their decoder is not implemented in the original.
- State receivers, EmotionML scale conversions, dummy components and user-interface programs: short or outside the core, they would only add easy members.
- Memory ownership, destructors and the disabled older document builder.
