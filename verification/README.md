# Market intelligence: a verification model

This project models the parts of the market intelligence repository that carry logic of their
own, and proves what they promise. Everything is stated for all inputs, all replies of an
untrusted command line, all crash points and all interleavings of commits.

Python text is a sequence of code points (surrogates included), a dict is the list of its
members in order, a float stays the token it was written as, and integers are unbounded. Where
the repository calls something it does not contain (a hash, an IP check, a request validator),
that is a function parameter, and collision-freeness on the texts at hand is an explicit hypothesis
of the lemmas that need it. The decoder's limits on digits and nesting are parameters too.

| files | what they model |
|---|---|
| `Options`, `Texts`, `Numerals`, `Sorting` | Python text, number tokens, `sorted` |
| `JsonValues`, `JsonPrinter`, `JsonDecoder` | decoded JSON, `json.dumps`, `raw_decode` and `json.loads` (sections 2 to 7 of RFC 8259, with Python's extensions) |
| `JsonSyntax`, `JsonTokens`, `JsonGrammar`, `JsonLayout` | the concrete syntax of JSON and its meaning, character by character; the decoder reads exactly it, and what the printer prints |
| `JsonRoundTrip`, `JsonIdentity`, `JsonLimits`, `JsonScan`, `ScanRules`, `Shortest` | decoding what was printed, what a canonical text identifies, the decoder's limits, the scan for one receipt, the length of compact text |
| `Cli`, `Journey`, `JourneyRuns`, `JourneyStates`, `JourneyHistory`, `JourneyProgram`, `JourneyEvents`, `JourneySuccess`, `JourneyCommands`, `JourneyChecks`, `Disks` | the two-phase journey: replies, moves, runs, state files, histories with crashes, the imperative phases and their place in a history, every word of every command, when a phase succeeds and what it records |
| `GovernedStore` | the compare-and-set store, in both variants in use |
| `JsonPointer`, `PointerReplace`, `PointerPlaces`, `ObjectTrees`, `DeepCopies`, `PointerWalk`, `NegativeCases` | pointer text (sections 3 and 4 of RFC 6901), pure replace (section 4.3 of RFC 6902), which place a pointer addresses, the copy of and the walk over mutable objects |
| `Prices`, `Payload`, `PayloadRules`, `Addresses`, `SourceAdapter`, `AdapterRules` | the public product adapter and its rules |
| `RecordHash`, `Clocks`, `DirectionPackage`, `DirectionRules` | the RECORD digest comparison, the two sequence clocks, the direction package and its rules |

Round trips and invariants alone would also hold of a decoder and a printer that share a mistake. So
each part has lemmas that say what it does in characters, literal keys, words and bounds, without the
part's own definitions: `JsonGrammar`, `JsonLayout`, `ScanRules`, `JourneyCommands`, `JourneyChecks`,
`PointerPlaces`, `PayloadRules`, `AdapterRules`, `DirectionRules`, and the lemmas whose names end in
`Exactly` or `Spelled` elsewhere.

Some properties one might expect turned out to be false of the code; each has a concrete
counterexample and an exact condition beside it:

- The scan does not return the receipt after every progress text. It catches only the decode
  error, while the decoder raises others on an integer of too many digits and on arrays or objects
  nested too deep (`ProgressEscapes`); `FirstReceiptAt`, `NoReceiptAnywhere` and
  `ScanFindsRendered` say exactly when the exception escapes. That at most one position can be a
  receipt (`ReceiptUnique`) holds without condition.
- Sorted compact text, as a function of arbitrary values, is not injective on strings that hold a
  split surrogate pair (`SplitPairCollides`); `CanonicalIdentifies` gives the exact kernel. No such
  string comes out of UTF-8 text (`Decoded`), so the hashes of the journey are not affected
  (`CanonicalFaithful`).
- More than one of several commits racing on one expected head can win (`ReusedIdWinsTwice`). Under a
  key every expectation has at most one winner exactly when no two of the commits before the last one
  carry the same revision id (`OneWinnerExactly`); given a first winner, a later request on its
  expectation wins exactly when it builds and the head has come back to the expected id
  (`SecondWinnerExactly`).
- If building the head record is refused, which is up to a class of the host library, a commit of
  the writes-first store can leave records behind (`OrphanLeftBehind`); `WritesFirstFailure` says
  exactly when a failed commit changes nothing.
- Pointers that differ as token lists can address one list item (`AliasedTokens`); `ListAliases`
  says exactly when two tokens do, and the locality and commutation laws are stated on resolved paths.
- The first state file is written in place, so a crash can leave a beginning of it
  (`WriteNewTorn`); `TornDocument` shows that such a beginning never loads unless it is the whole
  document, up to its final newline.

## Model

| member | source | states |
|---|---|---|
| JsonScan.OppositeRoles | scripts/gc1_external_consumer.py:28-36 | Two readings of one text that disagree on which quotes open strings cannot both end just after a closing brace |
| JsonScan.ReceiptUnique | scripts/gc1_external_consumer.py:24-39 | In any output at most one position decodes to an object followed only by white space, so "first match" is "the only match" |
| JsonScan.FirstReceiptAt | scripts/gc1_external_consumer.py:28-38 | Whichever position holds the one receipt, the scan returns it exactly when no brace up to there makes the decoder raise past its limits |
| JsonScan.NoReceiptAnywhere | scripts/gc1_external_consumer.py:28-39 | An output without a receipt ends in the script's own error exactly when no brace raises past the limits |
| JsonScan.ScanFindsRendered | scripts/gc1_external_consumer.py:24-39 | After any progress text, a rendered object and trailing white space are read back as exactly that object if and only if no brace of the progress text raises past the limits and the object is within them; otherwise the exception escapes |
| JsonScan.PlainProgress | scripts/gc1_external_consumer.py:24-39 | After progress text without a brace, a rendered object is returned exactly when it is within the decoder's limits |
| JsonScan.ModestOutput | scripts/gc1_external_consumer.py:24-39 | In an output with no more opening braces and brackets than the nesting limit and no run of digits longer than the digit limit, the one receipt is always returned |
| JsonScan.ProgressEscapes | scripts/gc1_external_consumer.py:31-34 | An unfinished object with an integer of too many digits, or with arrays too deep, makes the scan raise whatever receipt follows |
| JsonScan.ParseJsonOutput | scripts/gc1_external_consumer.py:24-39 | The index loop returns the receipt at any position that has one unless a brace up to it raises past the limits; without a receipt it raises its own error unless a brace raises another |
| ScanRules.FoundExactly | scripts/gc1_external_consumer.py:24-39 | The scan finds a dict exactly when the output ends in one object of the JSON syntax and white space, that dict is its members, and no brace up to there raises past the limits |
| ScanRules.ReceiptExactly | scripts/gc1_external_consumer.py:28-38 | A text counts as a receipt with these members exactly when it is such an object and white space, written out character by character |
| ScanRules.GetExactly | scripts/gc1_external_consumer.py:92-93 | Reading a dict gives the value of the last member with that key, and nothing when there is none |
| ScanRules.DictReads | scripts/gc1_external_consumer.py:32 | Building a dict from members keeps each key once, with the last value given |
| ScanRules.SqueezeExactly | scripts/gc1_external_consumer.py:72 | The kept message is the words of the output, cut at white space, joined by single spaces |
| JsonGrammar.DecodesExactly | scripts/gc1_external_consumer.py:32 | The decoder reads a value and stops before a rest exactly where the text begins with JSON syntax of that meaning: words, escapes, pairs, numbers by decimal place and as long as they go, lists and objects with blanks |
| JsonGrammar.LoadsExactly | scripts/gc1_external_consumer.py:77 | A document loads as a value exactly when it is one piece of such syntax between blanks and the value is its meaning as dicts |
| JsonLayout.StringSpelled | scripts/gc1_external_consumer.py:88 | A string is printed in quotes, each code point as itself where printable ASCII, as its two-character escape, or in four small hexadecimal digits, in a pair beyond the basic plane |
| JsonLayout.ScalarsPrinted | scripts/gc1_external_consumer.py:88 | null, true, false, integers, float tokens and strings are printed as these words and texts |
| JsonLayout.ListPrinted | scripts/gc1_external_consumer.py:88-140 | A list is printed between brackets with commas, compact or one item a line, two spaces a level |
| JsonLayout.DictPrinted | scripts/gc1_external_consumer.py:88-140 | A dict is printed between braces, key, colon and value, compact or one member a line with a space after the colon |
| JsonLayout.KeysSorted | scripts/gc1_external_consumer.py:88 | Sorting keeps the members, their values sorted in turn, and puts keys in order |
| JsonLayout.ItemsSorted | scripts/gc1_external_consumer.py:88 | Sorting keeps the order of a list, sorts within its items, and leaves every other value as it is |
| JsonLayout.LessExactly | scripts/gc1_external_consumer.py:88 | The order of keys: a beginning comes first, otherwise the smaller code point where they first differ |
| Numerals.IntTextSpelled | scripts/gc1_external_consumer.py:164 | An integer is printed as a hyphen where negative and the digits that sum to its magnitude by decimal place, without a leading zero |
| JsonLimits.RaisesUnlessFits | scripts/gc1_external_consumer.py:32 | A text that decodes without limits raises past them exactly when its value has an integer too long or a nesting too deep |
| ScanRules.RaisesExactly | scripts/gc1_external_consumer.py:32 | Where the text begins with JSON syntax, decoding raises past the limits exactly when that has an integer of more digits or lists and objects nested deeper |
| JsonLimits.ModestNeverRaises | scripts/gc1_external_consumer.py:32 | A text with no more opening braces and brackets than the depth left and no run of digits longer than the limit never makes the decoder raise, whether it decodes or not |
| JsonScan.ReceiptClean | scripts/gc1_external_consumer.py:61-66 | A receipt read from UTF-8 output is a dict with distinct keys at every level, valid number tokens and no split surrogate pair |
| JsonScan.TornDocument | scripts/gc1_external_consumer.py:75-84 | Without limits, of all beginnings of a written state file only the whole document, with or without its newline, loads, and it loads as the value written |
| JsonScan.TornWithin | scripts/gc1_external_consumer.py:75-84 | Within the decoder's limits the same beginnings load, exactly when the value fits |
| JsonRoundTrip.CharsRoundTrip | scripts/gc1_external_consumer.py:88 | Decoding the escaped form of any string gives it back with surrogate pairs joined |
| JsonRoundTrip.ValueRoundTrip | scripts/gc1_external_consumer.py:88 | Decoding any rendered value in either layout, whatever follows it, gives the value back and stops exactly at its end |
| JsonIdentity.DocumentRoundTrip | scripts/gc1_external_consumer.py:75-84 | Loading a state document, limits aside, gives the dict written, keys in order |
| JsonIdentity.CollapseIdentity | scripts/gc1_external_consumer.py:77 | Building dicts changes nothing where keys are already distinct at every level |
| JsonIdentity.Decoded | scripts/gc1_external_consumer.py:32 | Whatever is decoded has valid number tokens, and decoded from UTF-8 it holds no split pair |
| JsonIdentity.SortKeysIdempotent | scripts/gc1_external_consumer.py:88 | Sorting keys at every depth twice is sorting once |
| JsonValues.SortKeysIdentifies | scripts/gc1_external_consumer.py:88 | Two dicts sort alike exactly when they are equal ignoring member order at every depth |
| JsonIdentity.CanonicalIdentifies | scripts/gc1_external_consumer.py:87-89 | Two values share their hashed text exactly when they agree after sorting keys and joining surrogate pairs |
| JsonIdentity.CanonicalFaithful | scripts/gc1_external_consumer.py:87-89 | Without split pairs the hashed text identifies the value up to member order |
| JsonIdentity.SplitPairCollides | scripts/gc1_external_consumer.py:87-89 | A split surrogate pair and the code point it spells are different values with one hashed text |
| JourneyHistory.HashFaithful | scripts/gc1_external_consumer.py:87-89 | Where the hash does not collide on the two texts, hashes of two dicts agree exactly when the dicts do, member order aside |
| JourneyRuns.RunFollows | scripts/gc1_external_consumer.py:156-334 | Every command of a run is the move its answers so far call for, and a run succeeds only at the end of its moves |
| JourneyRuns.ResultWritable | scripts/gc1_external_consumer.py:136-146 | A run that succeeds has a state within the limits; a state beyond them fails the run before any file is touched |
| JourneyRuns.PrepareScript | scripts/gc1_external_consumer.py:156-221 | Against any replies the commands of prepare are a prefix of one fixed sequence of nine verbs, and success needs all nine |
| JourneyRuns.ResumeScript | scripts/gc1_external_consumer.py:262-314 | Against any replies the commands of resume are a prefix of one fixed sequence of eight verbs, the last one required to be refused |
| JourneyRuns.ReviewGuarded | scripts/gc1_external_consumer.py:174-188 | Review is issued only for the taught proposal, after both selectable answers were false and the diff was not empty |
| JourneyRuns.RetireGuarded | scripts/gc1_external_consumer.py:265-293 | Retire is issued only after revision and head were unchanged and active and the restart use was attributed and read back |
| JourneySuccess.PrepareSucceedsExactly | scripts/gc1_external_consumer.py:156-247 | Prepare succeeds exactly when nine answers exist that pass every check of the scenario, the proposal, the review, the head, the use and the record, and each is the reply to its command |
| JourneySuccess.PrepareSucceeds | scripts/gc1_external_consumer.py:156-247 | Where the checks hold, prepare issues exactly its nine commands, whose words PrepareArguments gives, and returns what they recorded |
| JourneySuccess.RecordedExactly | scripts/gc1_external_consumer.py:218-245 | After the earlier checks prepare has its record exactly when the use was read back unchanged and the proposal hash, receipt id and generation are present, the last an integer |
| JourneySuccess.ResumeSucceedsExactly | scripts/gc1_external_consumer.py:256-334 | Resume succeeds exactly when seven answers and a final refusal exist that pass every check of the state, the restart use, the retirement and the record, and each is the reply to its command |
| JourneySuccess.ResumeSucceeds | scripts/gc1_external_consumer.py:256-334 | Where the checks hold, resume issues exactly those eight commands and returns the completed receipt |
| JourneySuccess.CompletedExactly | scripts/gc1_external_consumer.py:297-332 | After the earlier checks resume completes exactly when the refusal holds one of the three codes and the lifecycle receipt has its id |
| JourneyCommands.PrepareArguments | scripts/gc1_external_consumer.py:159-221 | In every run of prepare, against any replies, each command is word for word this line: fixed words, and str of what the scenario or an earlier answer holds under the named key |
| JourneyCommands.ResumeArguments | scripts/gc1_external_consumer.py:262-314 | In every run of resume, against any replies, each command is word for word this line, filled from the state, the scenario and the restart use |
| JourneyChecks.PrepareSucceedsWhen | scripts/gc1_external_consumer.py:149-247 | Prepare ends in a record exactly when nine replies are receipts whose members pass every check, key by key, and the record is these seventeen members made of them |
| JourneyChecks.ResumeSucceedsWhen | scripts/gc1_external_consumer.py:250-334 | Resume ends in a record exactly when seven replies are receipts and the eighth a refusal naming a code, their members pass every check, key by key, and the record is the state with six members made of them |
| JourneyChecks.AttributionExactly | scripts/gc1_external_consumer.py:98-121 | A use is attributed exactly when the task completed, both receipts name the same revisions with the asked one among them, and the use is marked used with a material hash |
| JourneyChecks.UsedExactly | scripts/gc1_external_consumer.py:98-133 | Attribution and read-back pass exactly when, besides, both receipts read back list the same revisions and the same material hash |
| JourneyChecks.CompleteMembers | scripts/gc1_external_consumer.py:322-332 | The six members of the completed receipt, each with its value |
| JourneyChecks.OtherMembers | scripts/gc1_external_consumer.py:322-323 | Under every other key the completed receipt reads as the state did |
| JourneyStates.ReceiptFile | scripts/gc1_external_consumer.py:136-146 | A state file holds its receipt when written to the end, and loads within the limits as nothing when cut short |
| JourneyStates.PreparedReadBack | scripts/gc1_external_consumer.py:225-245 | What resume reads from a prepared file, phase, ids, hashes, stable key and generation, is what prepare computed |
| JourneyStates.CompletedReads | scripts/gc1_external_consumer.py:322-332 | The completed dict has phase complete and reads as before on every key that completion does not set |
| JourneyHistory.HistoryStages | scripts/gc1_external_consumer.py:149-334 | After any history from an absent file, with crashes anywhere, the path is absent, torn, or holds the receipt of one prepare run or of one resume run on top of it, and each event moves at most one stage |
| JourneyHistory.PhaseMovesForward | scripts/gc1_external_consumer.py:227-257 | The phase on disk only moves none, prepared, complete, by a prepare and then a resume, and while it stands the whole receipt stands |
| JourneyHistory.CompleteMeansBothPhases | scripts/gc1_external_consumer.py:149-334 | A receipt with phase complete is the result of a later resume that passed every check on the receipt of an earlier prepare that did, on one scenario hash, revision hash, head hash and revision id, reviewed while not selectable and read back as the active head, with the prepared fields frozen |
| JourneyHistory.FinishedCompleted | scripts/gc1_external_consumer.py:262-334 | A resume that succeeds on a prepared receipt has seen the unchanged active head, an attributed use read back, the retirement, the head inspected as retired and the refused use, after a prepare that saw its revision approved and active, and leaves the prepared fields as they were |
| JourneyHistory.PrepareApproved | scripts/gc1_external_consumer.py:174-214 | A prepare run that succeeds saw the taught and the inspected proposal not selectable, changes in its diff, its approval, and the approved revision read back and active at the head |
| JourneyHistory.FinishedEvidence | scripts/gc1_external_consumer.py:265-279 | A resume that succeeds on a prepared receipt saw the revision and head prepare saw, and both attributed use to one revision |
| JourneyHistory.FinishedFrozen | scripts/gc1_external_consumer.py:322-333 | Outside the completion keys the final file reads as the prepared one |
| JourneyHistory.EvidenceMeansSame | scripts/gc1_external_consumer.py:259-268 | Where the hash does not collide on what is compared, the two phases saw the same scenario, revision and head up to member order |
| JourneyHistory.RefusedStart | scripts/gc1_external_consumer.py:156-260 | An existing file, a wrong phase or a changed scenario issues no command and changes no file |
| JourneyHistory.ResumeKeepsOrReplaces | scripts/gc1_external_consumer.py:333 | Wherever a resume run fails or crashes, the path keeps its old text or holds the complete new receipt; a failed run changes nothing |
| Disks.ReplaceAtomic | scripts/gc1_external_consumer.py:143-146 | A crash between any two steps of the replacement leaves all of the old text or all of the new one |
| Disks.WriteNewTorn | scripts/gc1_external_consumer.py:136-140 | A crash while the first file is written leaves it absent or some beginning of the text, and nothing else changed |
| Disks.FileSystem.WriteNewFile | scripts/gc1_external_consumer.py:136-140 | Refuses an existing file and otherwise writes it in place, step by step |
| Disks.FileSystem.ReplaceFile | scripts/gc1_external_consumer.py:143-146 | Writes beside the file and renames over it |
| JourneyProgram.Runner.Json | scripts/gc1_external_consumer.py:61-66 | Issues one command and hands back its receipt, or raises |
| JourneyProgram.Runner.Failure | scripts/gc1_external_consumer.py:68-72 | Issues one command and hands back the clipped message of its refusal, or raises when it succeeded |
| JourneyProgram.Prepare | scripts/gc1_external_consumer.py:149-247 | The imperative phase issues exactly the commands of the run, whose words PrepareArguments gives, writes the file only at the end and returns what it recorded |
| JourneyProgram.Resume | scripts/gc1_external_consumer.py:250-334 | The imperative phase loads the file, issues exactly the commands of the run and replaces the file only at the end |
| JourneyEvents.Happen | scripts/gc1_external_consumer.py:149-334 | One call of a phase with a fresh runner leaves on disk, and issues, exactly what the event of the history says |
| JourneyEvents.HappenAll | scripts/gc1_external_consumer.py:149-334 | Any calls of the two phases in sequence leave on disk what the history of their events says |
| GovernedStore.CommitsFormOneChain | scripts/p1d1_prepared_brief_acceptance.py:148-167 | In every reachable state the commits under a key form one chain from no head to the current head, each expecting its predecessor |
| GovernedStore.HeadExactly | scripts/p1d1_prepared_brief_acceptance.py:158-167 | There is a head under a key exactly after a commit, and its key, sequence, revision, receipt and time are those of the last one |
| GovernedStore.CommitsExactly | scripts/p1d1_prepared_brief_acceptance.py:148-167 | A request commits exactly when it expects the last committed revision under its key, or none before the first, and its receipt and head can be built |
| GovernedStore.AfterExactly | scripts/p1d1_prepared_brief_acceptance.py:148-167 | What one commit does to the three maps in either variant, field by field |
| GovernedStore.ChainComplete | scripts/p1d1_prepared_brief_acceptance.py:148-167 | The chain holds exactly the requests that committed under the key |
| GovernedStore.OneWinnerExactly | scripts/p1c2_live_public_source_acceptance.py:114-133 | Under a key no two commits share an expectation exactly when no two commits before the last one share a revision id |
| GovernedStore.SecondWinnerExactly | scripts/p1c2_live_public_source_acceptance.py:114-133 | After a first winner, a later request on the same expectation commits exactly when its receipt and head can be built and the latest commit under the key carries the expected id |
| GovernedStore.SecondWinnerNeedsReuse | scripts/p1c2_live_public_source_acceptance.py:114-133 | Follows from the chain: if two requests on one expectation both commit, it names a revision id that was committed again between them |
| GovernedStore.OneWinner | scripts/p1c2_live_public_source_acceptance.py:114-133 | A guard on two requests alone: of two racing on one expected head at most one wins if the expected revision id is not committed again in between; on the absent head always |
| GovernedStore.FreshCommitsOneWinner | scripts/p1c2_live_public_source_acceptance.py:114-133 | Where no committed id is committed again, at most one of any racing requests wins; refused requests may be sent again freely |
| GovernedStore.ReusedIdWinsTwice | scripts/p1c2_live_public_source_acceptance.py:114-133 | A revision id committed a second time lets two requests on one expectation both win |
| GovernedStore.StoredFromRequests | scripts/p1d1_prepared_brief_acceptance.py:156-157 | Every stored record, under any id at any time, is the one offered by an earlier request that wrote |
| GovernedStore.StableExactly | scripts/p1d1_prepared_brief_acceptance.py:172-176 | What a load returned it returns forever exactly when no later request that writes carries that id with another record |
| GovernedStore.LoadsAreStable | scripts/p1d1_prepared_brief_acceptance.py:172-176 | Where the requests that write carry ids that determine their material, what a load returned it returns forever, through any later requests; refused requests may carry anything |
| GovernedStore.HeadResolves | scripts/p1d1_prepared_brief_acceptance.py:158-170 | Every head resolves to a stored revision and receipt of the ids it names |
| GovernedStore.FailureChangesNothing | domain_packs/tests/test_market_intelligence_pack.py:881-901 | A conflict or an unbuildable receipt changes no map in either variant, and no failure does in the head-first one |
| GovernedStore.WritesFirstFailure | scripts/p1d1_prepared_brief_acceptance.py:148-167 | In the writes-first variant a failed commit never moves a head, and keeps the store exactly under the stated condition |
| GovernedStore.OrphanLeftBehind | scripts/p1d1_prepared_brief_acceptance.py:155-166 | A head record that cannot be built leaves an orphan revision in the writes-first store and nothing in the head-first one |
| GovernedStore.MemoryGovernedStateStore.Commit | scripts/p1d1_prepared_brief_acceptance.py:148-167 | The method on three maps takes the store from the state of its history to the state of the longer history |
| GovernedStore.MemoryGovernedStateStore.LoadHead | scripts/p1d1_prepared_brief_acceptance.py:169-170 | Returns the head its whole history leads to |
| GovernedStore.MemoryGovernedStateStore.LoadRevision | scripts/p1d1_prepared_brief_acceptance.py:172-173 | Returns the revision its whole history leads to |
| GovernedStore.MemoryGovernedStateStore.LoadReceipt | scripts/p1d1_prepared_brief_acceptance.py:175-176 | Returns the receipt its whole history leads to |
| JsonPointer.UnescapeIsDecode | domain_packs/tests/test_market_intelligence_pack.py:205 | The two replacement passes read every token as one left-to-right decoding would |
| JsonPointer.TokensRoundTrip | domain_packs/tests/test_market_intelligence_pack.py:204-207 | Any list of any strings survives being written as a pointer and read by the code |
| JsonPointer.RewriteIsPointerSyntax | domain_packs/tests/test_market_intelligence_pack.py:204-207 | Writing back what was read gives the path itself exactly for the paths the pointer syntax allows |
| PointerReplace.ReadUpdated | domain_packs/tests/test_market_intelligence_pack.py:208-216 | The addressed place reads the new value |
| PointerReplace.ReadApart | domain_packs/tests/test_market_intelligence_pack.py:208-216 | Every path apart from the addressed one reads what it read, or fails as it failed |
| PointerReplace.ReadApartExactly | domain_packs/tests/test_market_intelligence_pack.py:208-216 | Of two paths that exist, no replacement at one ever changes what the other reads exactly when they are apart |
| PointerReplace.UpdatesCommute | domain_packs/tests/test_market_intelligence_pack.py:208-216 | Replacements at paths apart from each other commute |
| PointerReplace.ResolveApart | domain_packs/tests/test_market_intelligence_pack.py:209-211 | Tokens keep resolving to the same path beside a replacement |
| PointerReplace.OperationsCommute | domain_packs/tests/test_market_intelligence_pack.py:200-217 | Two operations whose pointers resolve apart may be applied in either order |
| PointerReplace.UntouchedElsewhere | domain_packs/tests/test_market_intelligence_pack.py:200-217 | After any list of resolving operations, every path apart from all addressed ones reads the same |
| PointerReplace.ListAliases | domain_packs/tests/test_market_intelligence_pack.py:210-213 | Two tokens address one item of a list exactly when their integers are equal or one list length apart |
| PointerReplace.AliasedTokens | domain_packs/tests/test_market_intelligence_pack.py:210-213 | Two different tokens address one list item |
| PointerPlaces.IntegerExactly | domain_packs/tests/test_market_intelligence_pack.py:210-213 | A token is an integer exactly when it is white space, a sign or none, digits with single underscores between them and white space; it is the sum of its digits by decimal place |
| PointerPlaces.ItemAddressed | domain_packs/tests/test_market_intelligence_pack.py:208-216 | In a list, a token goes on from the item with its integer, from the end where negative, and fails out of range; the rest of the list stays |
| PointerPlaces.MemberAddressed | domain_packs/tests/test_market_intelligence_pack.py:208-216 | In a dict, a token goes on from the value under that key and fails when there is none; in a scalar it fails |
| PointerPlaces.ItemReplaced | domain_packs/tests/test_market_intelligence_pack.py:208-216 | Wherever a list of n items stands, the token with the digits of k replaces item k, and that of -k item n - k |
| PointerPlaces.MemberReplaced | domain_packs/tests/test_market_intelligence_pack.py:208-216 | Wherever a dict stands, a key it has replaces the value under that key |
| PointerPlaces.WholeNotReplaced | domain_packs/tests/test_market_intelligence_pack.py:204-212 | A pointer without tokens replaces nothing: the operation fails on every value |
| PointerPlaces.TokensSpelled | domain_packs/tests/test_market_intelligence_pack.py:204-207 | The tokens are the parts of the path between slashes after the first one, tilde one read as a slash and tilde zero as a tilde |
| PointerPlaces.AppliedInOrder | domain_packs/tests/test_market_intelligence_pack.py:202-216 | Operations are applied one after the other, each to what the one before it left, and none after one that fails |
| ObjectTrees.DenotesSlots | domain_packs/tests/test_market_intelligence_pack.py:208-216 | A tree of objects denotes its slots: item by item in order, and key by key |
| ObjectTrees.AssignGrafts | domain_packs/tests/test_market_intelligence_pack.py:212-216 | One slot assigned in a heap of separate objects turns the tree standing there into the tree grafted at that path |
| ObjectTrees.GraftValue | domain_packs/tests/test_market_intelligence_pack.py:212-216 | Grafting a tree of objects denotes the pure replacement of its value |
| PointerWalk.WalkToParent | domain_packs/tests/test_market_intelligence_pack.py:208-210 | The loop over all tokens but the last reaches the object those tokens resolve to, and stops exactly where resolution does |
| PointerWalk.Replace | domain_packs/tests/test_market_intelligence_pack.py:204-216 | The in-place walk refines the pure replace, which ItemAddressed and MemberAddressed spell out, on the tree's value, succeeds exactly when it does, and assigns nothing when it raises |
| DeepCopies.DeepCopy | domain_packs/tests/test_market_intelligence_pack.py:201 | A copy made of new objects only, none shared, that denotes the fixture's value |
| NegativeCases.ApplyOperations | domain_packs/tests/test_market_intelligence_pack.py:202-216 | The loop over any list of operations goes through exactly when all are replaces that resolve in turn, and then denotes what the pure replaces give |
| NegativeCases.ApplyNegativeCase | domain_packs/tests/test_market_intelligence_pack.py:200-217 | On a copy of the fixture, any list of operations gives a new object that denotes what the pure replaces of the fixture give, or raises exactly when one is not a replace or does not resolve; no object of the fixture changes |
| Prices.DecimalIsPattern | adapters/public_product_source/src/ace_market_public_product_source/adapter.py:33 | The scan accepts exactly the language of the decimal pattern |
| Prices.FullMatch | adapters/public_product_source/src/ace_market_public_product_source/adapter.py:159-160 | The loop accepts exactly the language of the decimal pattern |
| Prices.PricesEqual | adapters/public_product_source/src/ace_market_public_product_source/adapter.py:33 | Two accepted prices denote one number exactly when their integer parts are equal and their fractions agree after dropping trailing zeros |
| Prices.PriceNumber | adapters/public_product_source/src/ace_market_public_product_source/adapter.py:33 | The number a price denotes: its whole part and its fraction digits as parts of a power of ten, digits by decimal place |
| Prices.PriceBelow | adapters/public_product_source/src/ace_market_public_product_source/adapter.py:32-33 | An accepted price within the length bound is below ten to the 64th |
| Shortest.ValueShortest | adapters/public_product_source/src/ace_market_public_product_source/adapter.py:169-175 | No text that decodes to a value with printable strings is shorter than the compact rendering of that value, a float counted as the token it was read as |
| Shortest.SortKeysLength | adapters/public_product_source/src/ace_market_public_product_source/adapter.py:169-175 | Sorting keys keeps the length of compact text |
| Payload.UniqueObject | adapters/public_product_source/src/ace_market_public_product_source/adapter.py:94-100 | The loop returns the members unchanged when all keys differ and raises exactly when one repeats |
| Payload.StrictIsLoads | adapters/public_product_source/src/ace_market_public_product_source/adapter.py:127-138 | Where the strict decoder accepts, it reads what the ordinary one reads |
| Payload.AcceptedExactly | adapters/public_product_source/src/ace_market_public_product_source/adapter.py:122-168 | A body is accepted with given fields exactly when it is within its bound and is strict JSON for one object equal to these three members, in any order and spelling, that pass their checks, which AcceptedByRules spells out |
| PayloadRules.StrictExactly | adapters/public_product_source/src/ace_market_public_product_source/adapter.py:127-138 | A body is strict JSON of a value exactly when it is a text of the JSON syntax of that meaning, names no key twice and holds no named constant |
| PayloadRules.AcceptedByRules | adapters/public_product_source/src/ace_market_public_product_source/adapter.py:146-168 | Accepted with these fields exactly when within the bound, the three members and no other, name of 1 to 256 and price of 1 to 64 characters without controls, DEL and surrogates, price a plain decimal, currency three letters A to Z |
| PayloadRules.PayloadByRules | adapters/public_product_source/src/ace_market_public_product_source/adapter.py:122-175 | A body becomes a text exactly when it keeps these rules and the text is the three members in key order with nothing between the marks |
| Payload.AcceptedNeverRaises | adapters/public_product_source/src/ace_market_public_product_source/adapter.py:127-138 | An accepted body is within the decoder's limits, whatever they are |
| Payload.PayloadsIdentify | adapters/public_product_source/src/ace_market_public_product_source/adapter.py:169-175 | Two accepted bodies have one normal form exactly when they carry the same three values |
| Payload.FormattingIsIrrelevant | adapters/public_product_source/src/ace_market_public_product_source/adapter.py:122-175 | Member order, white space and escapes never change the outcome |
| Payload.ProductSorted | adapters/public_product_source/tests/test_public_product_source_adapter.py:108-110 | The normal form lists currency, listed_price and product_name in that order |
| Payload.NormalFormReads | adapters/public_product_source/src/ace_market_public_product_source/adapter.py:169-175 | Reading a normal form gives back the fields it was made of |
| Payload.NormalFormFixed | adapters/public_product_source/src/ace_market_public_product_source/adapter.py:122-175 | Offered again under any bound, a normal form is accepted as itself exactly when it fits |
| Payload.NormalFormShorter | adapters/public_product_source/src/ace_market_public_product_source/adapter.py:122-175 | For a printable name the normal form is never longer than the body |
| Payload.CanonicalTwice | adapters/public_product_source/src/ace_market_public_product_source/adapter.py:122-175 | For a printable name, canonicalising again under the same bound always succeeds with the same text |
| Addresses.DistinctBySize | adapters/public_product_source/src/ace_market_public_product_source/adapter.py:195 | Comparing a length with the size of the set decides whether all entries differ |
| Addresses.AddressesExactly | adapters/public_product_source/src/ace_market_public_product_source/adapter.py:178-197 | A tuple is accepted exactly when it holds 1 to 32 literals that stay distinct when normalised; the result is their set in increasing order |
| Addresses.AddressesAgree | adapters/public_product_source/src/ace_market_public_product_source/adapter.py:290-301 | Two accepted tuples agree exactly when they normalise to one set |
| SourceAdapter.PublicProductSourceAdapter.Capture | adapters/public_product_source/src/ace_market_public_product_source/adapter.py:216-342 | A refused request never reaches the transport; an admitted one reaches it exactly once, with its type and address, without credentials and redirects, on the public network only, with rebinding protection, and bounded by its own limit and 16384; capture_calls always equals the calls the transport received |
| SourceAdapter.JudgedExactly | adapters/public_product_source/src/ace_market_public_product_source/adapter.py:243-342 | A transport result is accepted exactly when it is in scope, in time, attests one set of addresses and holds an acceptable body |
| AdapterRules.AdmittedExactly | adapters/public_product_source/src/ace_market_public_product_source/adapter.py:220-232 | A request is admitted exactly when it revalidates, names this artifact and the public product page type, and its address is exact |
| AdapterRules.AttestsExactly | adapters/public_product_source/src/ace_market_public_product_source/adapter.py:178-197 | A tuple is accepted with a result exactly when it has 1 to 32 accepted literals, all different when normalised, and the result is their set in code point order |
| AdapterRules.JudgedByRules | adapters/public_product_source/src/ace_market_public_product_source/adapter.py:243-342 | A result becomes a material exactly when it keeps every condition, status, media type, locator, flags, addresses, times and body, and the material has these fields |
| SourceAdapter.MaterialsAgree | adapters/public_product_source/src/ace_market_public_product_source/adapter.py:290-342 | Two accepted results of one request give the same material exactly when product, address set and instants agree |
| SourceAdapter.LayoutIsIrrelevant | adapters/public_product_source/src/ace_market_public_product_source/adapter.py:290-325 | A body laid out differently and addresses in another order or spelling give the same material or the same refusal |
| RecordHash.DecodeRecord | scripts/p1c2_live_public_source_acceptance.py:818 | Decoding what was encoded and stripped of padding is the identity on every byte sequence |
| RecordHash.RecordExactly | scripts/p1c2_live_public_source_acceptance.py:817-819 | A text is the record of a digest exactly when strict decoding gives the digest |
| RecordHash.RecordSpelled | scripts/p1c2_live_public_source_acceptance.py:818 | The text letter by letter: each is the letter of its six bits, three bytes read as one number, in the alphabet of capitals, small letters, digits, hyphen and underscore |
| RecordHash.CheckComparesDigests | scripts/p1c2_live_public_source_acceptance.py:812-823 | The text comparison passes exactly when the installed digest is the recorded one |
| RecordHash.CheckRefusesOthers | scripts/p1c2_live_public_source_acceptance.py:818-823 | A padded or malformed recorded text is refused whatever is installed |
| Clocks.IndexingClock.Call | scripts/p1c2_live_public_source_acceptance.py:173-176 | Call n reads element n of the values the clock was given, or the last one for ever after |
| Clocks.PoppingClock.Call | scripts/p1d1_prepared_brief_acceptance.py:206-209 | Call n reads element n of the values the clock was given, or the last one for ever after |
| Clocks.MakeClocks | scripts/p1d1_prepared_brief_acceptance.py:201-204 | Both clocks refuse an empty list and nothing else |
| Clocks.ReadBoth | scripts/p1c2_live_public_source_acceptance.py:166-176 | Any number of calls on one clock of each kind, given the same values, reads the same instants: value k while there is one, then the last one |
| Clocks.ForwardForever | scripts/p1d1_prepared_brief_acceptance.py:200-209 | Readings never go back, over any number of calls, exactly when the values given never do |
| DirectionPackage.BoundedExactly | adapters/market_builder/src/ace_market_builder/direction_package.py:16-19 | A bounded text is a non-empty one of allowed length that neither begins nor ends with white space |
| DirectionPackage.ContentExactly | adapters/market_builder/src/ace_market_builder/direction_package.py:22-142 | The length-against-set tests hold exactly when sections, claims and citations are pairwise distinct |
| DirectionRules.ContentByRules | adapters/market_builder/src/ace_market_builder/direction_package.py:16-130 | Content is accepted exactly when every text is trimmed and within its bound, every section and list has its number of distinct entries, and both references are of the required contracts |
| DirectionRules.MaterialIs | adapters/market_builder/src/ace_market_builder/direction_package.py:132 | What is hashed is an object of these fifteen members, each under its key |
| DirectionRules.ValidatedByRules | adapters/market_builder/src/ace_market_builder/direction_package.py:112-142 | A package validates as another exactly when its content keeps the rules, its time has an offset and becomes UTC, and its identities are absent or those of the digest: the prefix and 32 characters, the hash name and the whole digest |
| DirectionPackage.MaterialInjective | adapters/market_builder/src/ace_market_builder/direction_package.py:132 | The dumped material determines every field and the time's text |
| DirectionPackage.DigestIdentifies | adapters/market_builder/src/ace_market_builder/direction_package.py:132-133 | Where hash and time text do not collide on the two materials, two contents and instants share a digest exactly when they are equal |
| DirectionPackage.ValidatedTwice | adapters/market_builder/src/ace_market_builder/direction_package.py:116-142 | Revalidating a validated package returns it unchanged |
| DirectionPackage.PackagesIdentify | adapters/market_builder/src/ace_market_builder/direction_package.py:116-142 | Where nothing collides on the two materials, two validated packages share a digest exactly when their material is equal after normalising the time |
| DirectionPackage.TamperingRefused | adapters/market_builder/src/ace_market_builder/direction_package.py:136-139 | Changing any material field or the instant while keeping the digest is refused, unless the hash collides on the two materials |
| DirectionPackage.DeliveredAsValidated | adapters/market_builder/src/ace_market_builder/direction_package.py:145-161 | Delivery of a validated package wraps that package's own identity |

## Left out

- The contents of `ace.core`, `ace.application`, `ace.intelligence` and `ace.testing`: not part of this model.
- SHA-256: an abstract function, assumed not to collide on the texts a lemma compares; identity claims are made on full digests, not on the 32-character id prefixes.
- `canonical_json` and `canonical_hash` of the host library: taken as sorted, compact, ASCII-escaped rendering, which is what the adapter's expected text shows; length claims are limited to printable names, where escaping makes no difference.
- `validate_public_ip_literal`, `validate_exact_https_uri`, request revalidation and the checks of nested references: parameters.
- Constructors of the captured material and of the prepared delivery may refuse what they are given: not modelled.
- Floats are kept as tokens; `str` of other values, `int` of non-integers, `==` between two non-strings and the truth of a float are parameters of the journey.
- Journey.Finish: printing a state is refused past the same digit and nesting limits as reading one. The printer's own nesting limit may be lower, which would only turn more runs into failures before anything is written.
- Payload.StrictIsLoads: both decoders are taken without limits here; the adapter turns either exception into a refusal like any other, and `AcceptedNeverRaises` shows that no accepted body is affected.
- Shortest.ValueShortest: a float counts as the token read, where the host's printer may write a longer one (1e9 becomes 1000000000.0); the product payload holds no numbers.
- PointerReplace.PyIntText: reads ASCII digits only and numerals of any length; the interpreter also reads other decimal digits and refuses a numeral of too many digits.
- Standard output and error are taken as decoded from UTF-8, and a task id as an argument without a split surrogate pair.
- Subprocess handling, argument parsing, directory creation and operating system errors other than a crash; the runner is a list of arbitrary replies that may also end early.
- Concurrent edits of the state file by other programs.
- JourneyProgram.Prepare: the single function of the source is split into several methods called in order; messages of raised errors are not modelled.
- JourneyProgram.Resume: split in the same way, and with the same omission.
- DeepCopies.DeepCopy: objects shared inside one fixture are not modelled, because a fixture decoded from JSON shares none; the values of the operations are likewise trees of their own.
- SourceAdapter.PublicProductSourceAdapter.Capture: the await is one call whose answer is arbitrary; the transport is used by one adapter.
- GovernedStore.MemoryGovernedStateStore.Commit: revisions and receipts are opaque records, and building a receipt or a head record either gives a value or raises.
- Direction package texts are free of lone surrogates, as strict string fields are; constant fields are part of the material but not of the content.
- The adapters' executor and planner, fixture loading, pinned digests and projection builders: guard chains, input and output, constants.
