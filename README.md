# Transcription agent and Supabase schema scripts, in Dafny

This project models three programs of the repository and proves properties
of each.

**The LiveKit transcription agent** (`agents/transcription_agent.py`).
For every subscribed audio track the agent runs one transcription session.
The set `processing_tracks` guards against running two sessions for the
same track. A session forwards the track's audio frames to a Deepgram
speech stream. It turns each interim or final transcript with non-blank
text into a data message published to the room. Each final transcript is
also appended to the room's JSON transcript file for that day. A periodic
status message reports how many tracks are being processed.

- Module `Transcription` holds the agent as a class with three fields:
  - `processingTracks`;
  - `published`, the data messages sent to the room;
  - `transcripts`, the transcripts directory as a map from file name to
    content.
- The same module also holds the speech stream as a class that records
  the calls made on it.
- The effect of a session is specified by pure functions from speech
  events to actions (publish a message, save an entry).
- Module `SessionRegistry` models the interleaving of several sessions, the
  unsubscribe handler and the status loop. It is a trace of the atomic
  steps each of them takes on `processing_tracks`.

**The migration consolidation script**
(`supabase/scripts/consolidate-migrations.py`).
Every migration file is scanned by nine extractors. The results are merged
into module-level collections:

- dictionaries updated with `update`, where a later definition replaces an
  earlier one;
- lists extended with `extend`;
- sets unioned.

One schema text is then rendered from the collections.

- Module `Consolidate` holds the collections as a class `Consolidator`,
  whose methods update them in place.
- The rendered text is specified by a function of the merged state.
- Module `SqlText` writes out as scanners the two regular expressions that
  act on statement text:
  - the `IF NOT EXISTS` normalisation used to drop duplicate indexes and
    triggers;
  - the `ON <table>` search used to group policies by table.

**The schema analysis script** (`supabase/scripts/analyze-schema.py`).
It reads the consolidated schema file and collects:

- the tables, functions and views;
- the indexes, policies and triggers per table;
- the CHECK constraints per table.

It counts what it collected, lists every table with its counts, and runs
three consistency checks:

- tables without RLS;
- tables without policies;
- foreign keys to undeclared tables.

Module `SchemaAnalysis` computes the report as a value.

**Shared modules.**

- `Strings`: Python's whitespace, `strip`, `split` and `join`, slicing,
  and the order `sorted` puts strings in.
- `Collections`: the dictionary idioms the scripts use. These are
  last-wins `update`, grouping with `defaultdict(list)`, summed list
  lengths, and keep-first de-duplication through a `seen` set.

**Inputs.** The regular expressions that find statements in SQL text are
not modelled. A file is given as the list of what each pattern finds in
it, in match order. A missing file or directory is `None`.

## Model

| member | source | states |
|---|---|---|
| Transcription.Handled | agents/transcription_agent.py:124-173 | the events a session handles are a prefix of what the engine yields: all of them when the session does not fail, otherwise exactly those before the failing event |
| Transcription.TranscriptFileNameInjective | agents/transcription_agent.py:210 | two rooms or two days never share a transcript file: equal file names (with ten-character dates) mean equal room and day |
| Transcription.EventActions | agents/transcription_agent.py:125-152 | an event causes an action iff it is an interim or final transcript whose first alternative has non-blank text. The first action publishes that text, the participant, the time and the confidence, marked final only for a final transcript. There is a second action iff the transcript is final, and it appends the entry to this room's file for that day. End of speech does nothing |
| Transcription.SessionActionsConcat | agents/transcription_agent.py:124 | the effect of a session is the effect of its events in order: splitting the event stream anywhere splits the actions at the same place |
| Transcription.SilentEventsHaveNoEffect | agents/transcription_agent.py:125-152 | a session whose events are all end-of-speech or without non-blank text publishes nothing and saves nothing |
| Transcription.PublishedTextIsNeverBlank | agents/transcription_agent.py:129-147 | every message a session publishes is a transcription with non-blank text, attributed to the session's participant |
| Transcription.FinalMessagesAreSaved | agents/transcription_agent.py:137-149 | saves and final messages come in pairs: each saved entry directly follows the final message with its text, and carries the session's participant and room; each final message is directly followed by its saved entry |
| Transcription.Appended | agents/transcription_agent.py:219-233 | the file's entries become its old entries plus the new one at the end. A missing or undecodable file restarts from that one entry. The file is decodable afterwards and every other file is unchanged |
| Transcription.SavesAreAppended | agents/transcription_agent.py:200-233 | after any sequence of actions, a file holds its old entries followed by exactly the entries saved to it, in order |
| Transcription.InterimsThenFinalActions | agents/transcription_agent.py:122-152 | two non-blank interim results and a final one give three publications (only the last marked final) and one save of the final text |
| Transcription.InterimsThenFinalEffects | agents/transcription_agent.py:122-152 | for that session the room receives the three messages in order, and the day's file receives exactly the final entry |
| Transcription.AliceScenario | agents/transcription_agent.py:122-152 | "hel", "hello", then final "hello world" by alice: three messages are published and only "hello world" is saved |
| Transcription.ForwardingDeliversFrames | agents/transcription_agent.py:154-161 | the speech stream receives the track's frames in order, followed by exactly one end of input |
| Transcription.PushesCarryFrames | agents/transcription_agent.py:156-158 | the pushes alone carry the frames in order and no end of input |
| Transcription.FramePushes | agents/transcription_agent.py:156-158 | one push per frame, the i-th carrying the i-th frame |
| Transcription.SpeechStream.PushFrame | agents/transcription_agent.py:158 | records one push of the given frame after the earlier calls |
| Transcription.SpeechStream.EndInput | agents/transcription_agent.py:161 | records one end of input after the earlier calls |
| Transcription.PushAudioFrames | agents/transcription_agent.py:154-161 | the stream's calls grow by one push per frame, in order, then one end of input |
| Transcription.TranscriptionAgent.constructor | agents/transcription_agent.py:16-19 | the agent starts with no track being processed and nothing published |
| Transcription.TranscriptionAgent.SendTranscription | agents/transcription_agent.py:175-193 | blank text publishes nothing; otherwise exactly one transcription message is published with the text, finality, participant, time and confidence |
| Transcription.TranscriptionAgent.SaveTranscript | agents/transcription_agent.py:200-233 | blank text leaves the directory unchanged; otherwise the entry is appended to the file for this room and day, as `Appended` describes |
| Transcription.TranscriptionAgent.HandleEvent | agents/transcription_agent.py:125-152 | the published messages and the directory change exactly by the actions `EventActions` gives for the event |
| Transcription.TranscriptionAgent.ProcessSttEvents | agents/transcription_agent.py:122-152 | handles as many events as the session handles; the messages and the directory change by the session's actions, event by event |
| Transcription.TranscriptionAgent.ProcessAudioTrack | agents/transcription_agent.py:102-173 | a session starts iff the track's id is not being processed. The id is released afterwards however the session ends. Messages and saves happen only when a session started, and are then the session's actions |
| Transcription.TranscriptionAgent.OnTrackSubscribed | agents/transcription_agent.py:50-54 | only an audio track starts a session; the effects are those of processing that track |
| Transcription.TranscriptionAgent.OnTrackUnsubscribed | agents/transcription_agent.py:57-62 | an audio track's id is discarded from the registry whether or not it was there; other tracks change nothing |
| Transcription.TranscriptionAgent.ProcessPublication | agents/transcription_agent.py:98-100 | a publication with a subscribed audio track is processed; any other publication is skipped |
| Transcription.TranscriptionAgent.ProcessParticipantTracks | agents/transcription_agent.py:96-100 | the effects are those of the participant's publications, one after another, against the registry as it was at the start |
| Transcription.TranscriptionAgent.ProcessExistingParticipants | agents/transcription_agent.py:39-41 | the effects are those of every participant already in the room, in turn |
| Transcription.TranscriptionAgent.SendStatusUpdate | agents/transcription_agent.py:75-86 | publishes one status message carrying the number of tracks being processed |
| SessionRegistry.SubscribeKeepsConsistent | agents/transcription_agent.py:104-111 | starting a session for an unregistered id keeps the registry equal to the ids of the running sessions, one session per id |
| SessionRegistry.FinishKeepsConsistent | agents/transcription_agent.py:171-172 | a session that ends and discards its id keeps the registry equal to the ids of the running sessions |
| SessionRegistry.StepKeepsConsistent | agents/transcription_agent.py:102-111 | every step other than an unsubscription keeps that consistency |
| SessionRegistry.RunKeepsConsistent | agents/transcription_agent.py:102-111 | without unsubscriptions, any interleaving of requests, session ends and status ticks keeps the registry exactly the ids of the running sessions, with no track transcribed twice |
| SessionRegistry.HeartbeatCountsSessions | agents/transcription_agent.py:75-86 | in a consistent state the status message reports the number of running sessions |
| SessionRegistry.DuplicateRequestStartsOneSession | agents/transcription_agent.py:106-111 | two back-to-back requests for the same track (from the subscription handler and the startup scan) start at most one session |
| SessionRegistry.EarlyReleaseAllowsTwoSessions | agents/transcription_agent.py:57-62 | unsubscribing while a session runs lets a new subscription start a second session for the same track. When the first ends, the second keeps running with its id no longer registered |
| SessionRegistry.StepKeepsRegistryWithinSessions | agents/transcription_agent.py:57-62 | every step, an unsubscription included, keeps each registered id the id of some running session |
| SessionRegistry.RunKeepsRegistryWithinSessions | agents/transcription_agent.py:57-62 | over any trace, unsubscriptions included, the registry holds only ids of running sessions |
| SessionRegistry.HeartbeatAtMostSessions | agents/transcription_agent.py:75-86 | after any trace from the start, a status report counts at most the sessions running at that moment |
| SessionRegistry.HeartbeatScenario | agents/transcription_agent.py:75-86 | two sessions, a tick, one session ends, a tick: the reports are 2 then 1 |
| Strings.BlankIffAllSpace | agents/transcription_agent.py:129 | `text.strip()` is empty iff every character of the text is whitespace |
| Strings.TrimStartEmpty | agents/transcription_agent.py:177 | stripping the front leaves nothing iff the text is all whitespace |
| Strings.SplitLastIsAfterLast | supabase/scripts/analyze-schema.py:38 | the last piece of `split('.')` is the text after the last dot |
| Strings.AfterLastIsLastPiece | supabase/scripts/analyze-schema.py:38 | the text after the last dot is a suffix without a dot, and a dot precedes it whenever it is not the whole text |
| Strings.SplitSinglePiece | supabase/scripts/analyze-schema.py:38 | the split has one piece, the whole text, iff the text holds no separator |
| Strings.JoinAppend | supabase/scripts/consolidate-migrations.py:277 | joining two non-empty groups of lines gives the two joins with one separator between them |
| Strings.Take | supabase/scripts/analyze-schema.py:74 | a slice `[:n]` is the prefix of length n, or the whole text when it is shorter |
| Strings.LessTotal | supabase/scripts/consolidate-migrations.py:173 | any two different strings are ordered one way or the other |
| Strings.LessTransitive | supabase/scripts/consolidate-migrations.py:173 | string order is transitive |
| Strings.SortedUnique | supabase/scripts/consolidate-migrations.py:173 | two strictly increasing sequences with the same elements are equal, so `sorted` of a set has only one possible result |
| Strings.SortStrings | supabase/scripts/analyze-schema.py:92 | returns the elements of the set in strictly increasing order, each exactly once |
| Strings.LeastOf | supabase/scripts/analyze-schema.py:92 | returns the element of a non-empty set that precedes all the others |
| Collections.DefinitionsLastWins | supabase/scripts/consolidate-migrations.py:36-39 | a name is a key iff some match names it; the last match of a name gives its definition |
| Collections.DefinitionsConcat | supabase/scripts/consolidate-migrations.py:128-129 | updating with the matches of two texts in turn equals updating with all of them |
| Collections.ExtractDefinitions | supabase/scripts/consolidate-migrations.py:29-40 | the dictionary built match by match is the last-wins dictionary of the matches |
| Collections.GroupedIsFilter | supabase/scripts/analyze-schema.py:37-40 | a table is a key iff some pair names it, and its list is exactly the values paired with it, in order |
| Collections.GroupPairs | supabase/scripts/analyze-schema.py:44-47 | the dictionary built pair by pair is the grouping of the pairs |
| Collections.GroupedTotal | supabase/scripts/analyze-schema.py:84-87 | the list lengths of a grouping sum to the number of pairs grouped |
| Collections.SumLengths | supabase/scripts/analyze-schema.py:84 | the loop over the values sums the lengths of all the lists |
| Collections.FirstByKeyPicksFirsts | supabase/scripts/consolidate-migrations.py:196-203 | the kept statements are exactly those whose normalised form has not occurred earlier, in their original order |
| Collections.FirstByKeyDistinct | supabase/scripts/consolidate-migrations.py:197-203 | no two kept statements normalise alike |
| Collections.FirstByKeyKeys | supabase/scripts/consolidate-migrations.py:197-203 | every normalised form of the input is still represented in the output |
| Collections.FirstByKeyIdempotent | supabase/scripts/consolidate-migrations.py:196-203 | de-duplicating twice gives the same as once |
| Collections.DistinctKeysKept | supabase/scripts/consolidate-migrations.py:196-203 | statements that already normalise differently are all kept |
| Collections.DeduplicateByKey | supabase/scripts/consolidate-migrations.py:196-203 | the loop with its `seen` set yields the first occurrence of each normalised form |
| SqlText.NormalizeWithoutClause | supabase/scripts/consolidate-migrations.py:200 | a statement without an `IF NOT EXISTS` clause is unchanged by normalisation |
| SqlText.NormalizeShrinks | supabase/scripts/consolidate-migrations.py:200 | normalisation never lengthens a statement |
| SqlText.ClauseRecognised | supabase/scripts/consolidate-migrations.py:200 | the clause in any letter case and with any non-empty runs of whitespace, followed by a non-space, is matched in full |
| SqlText.NormalizeDropsClause | supabase/scripts/consolidate-migrations.py:200 | a clause after clause-free text is replaced by a single space, and the rest is normalised in turn |
| SqlText.SpellingsNormalizeAlike | supabase/scripts/consolidate-migrations.py:200-201 | a statement with the clause normalises like the same statement with one space in its place, so the two count as duplicates |
| SqlText.PolicyTableLeftmost | supabase/scripts/consolidate-migrations.py:244-246 | a table is found iff `ON`, whitespace, an optional `public.` and a word occur somewhere, and the one found is at the leftmost such place |
| SqlText.PolicyTableIsWord | supabase/scripts/consolidate-migrations.py:246 | the table found is a non-empty run of word characters |
| Consolidate.NamesAreMatches | supabase/scripts/consolidate-migrations.py:93-100 | a name is in the extracted set iff some match gives it |
| Consolidate.ExtractNames | supabase/scripts/consolidate-migrations.py:93-118 | the set built match by match contains exactly the matched names |
| Consolidate.MergeAllFlattens | supabase/scripts/consolidate-migrations.py:120-153 | parsing files in turn equals parsing all their matches at once. Definitions are last-wins over all files, statement lists are all files' matches in order, and name sets are unions |
| Consolidate.DefinitionsLastWinAcrossFiles | supabase/scripts/consolidate-migrations.py:128-144 | a table, function or view is present iff some file defines it, and its definition is the last one in file order |
| Consolidate.LaterFileOverrides | supabase/scripts/consolidate-migrations.py:128-129 | after one more file, its tables replace earlier definitions, earlier tables it does not define are kept, and nothing else appears |
| Consolidate.SortedItemsInNameOrder | supabase/scripts/consolidate-migrations.py:210 | `sorted(d.items())` lists every key once with its definition, in strictly increasing name order |
| Consolidate.TableOrderListsUsersTwice | supabase/scripts/consolidate-migrations.py:183-185 | the order as written: without `users` it is the sorted items; with `users`, the table is first and again at its sorted place, and nowhere else |
| Consolidate.TableOrderListsEachTableOnce | supabase/scripts/consolidate-migrations.py:181-190 | the intended order lists every table exactly once with its definition, `users` first when present and the rest in name order |
| Consolidate.PolicyPairsValues | supabase/scripts/consolidate-migrations.py:241-247 | the policies grouped under a table are exactly the policies whose `ON` target is that table, in order |
| Consolidate.PolicyPairsTables | supabase/scripts/consolidate-migrations.py:243-247 | a table receives a group iff some policy names it; policies without a target are dropped |
| Consolidate.PolicyGroupsAreFilters | supabase/scripts/consolidate-migrations.py:241-253 | the policy groups have a key per targeted table, each holding that table's policies in order |
| Consolidate.StatementSectionKeepsFirstOccurrences | supabase/scripts/consolidate-migrations.py:196-203 | the index and trigger sections keep, in order, exactly the statements whose normalised form has not occurred before, and lose no normalised form |
| Consolidate.NameLinesAt | supabase/scripts/consolidate-migrations.py:173-174 | each name becomes one line with the statement's prefix and suffix around it |
| Consolidate.EntryLinesAt | supabase/scripts/consolidate-migrations.py:187-190 | each definition becomes a comment line with its name, the definition, and an empty line |
| Consolidate.Consolidator.constructor | supabase/scripts/consolidate-migrations.py:17-27 | all collections start empty |
| Consolidate.Consolidator.ParseMigrationFile | supabase/scripts/consolidate-migrations.py:120-153 | the tables, functions and views are updated, the index, policy and trigger lists extended, and the extension, RLS and realtime sets unioned with the file's matches |
| Consolidate.Consolidator.GenerateConsolidatedSchema | supabase/scripts/consolidate-migrations.py:155-277 | the text is the rendered sections of the collections, joined by newlines. Tables are in the order the code computes, with `users` in front and again at its sorted place. `users` is removed from the tables, as `pop` does |
| Consolidate.TableSectionOf | supabase/scripts/consolidate-migrations.py:177-190 | renders every table in name order, preceded by `users` when it exists (so `users` appears twice), and hands back the tables without `users` |
| Consolidate.OnlyUsersRenderedTwice | supabase/scripts/consolidate-migrations.py:183-190 | a schema whose only table is `users` renders that table's comment, definition and blank line twice |
| Consolidate.StatementSectionOf | supabase/scripts/consolidate-migrations.py:192-204 | renders a banner and the first occurrence of each normalised statement |
| Consolidate.GroupPolicies | supabase/scripts/consolidate-migrations.py:241-247 | the dictionary built policy by policy is the policy grouping |
| Consolidate.PolicySectionOf | supabase/scripts/consolidate-migrations.py:236-253 | renders each targeted table's policies under its name, tables in name order |
| Consolidate.ParseAll | supabase/scripts/consolidate-migrations.py:292-293 | a fresh consolidator that parsed the files in turn holds their merge |
| Consolidate.ConsolidateMigrations | supabase/scripts/consolidate-migrations.py:279-314 | a missing directory yields no schema; otherwise the schema is rendered, as `GenerateConsolidatedSchema` does, from every file merged in file-name order |
| SchemaAnalysis.NameSetMembers | supabase/scripts/analyze-schema.py:30-33 | a name is collected iff some match gives it, and there are no more names than matches |
| SchemaAnalysis.CollectNames | supabase/scripts/analyze-schema.py:49-52 | the set built match by match is the set of matched names |
| SchemaAnalysis.GroupIndexes | supabase/scripts/analyze-schema.py:35-40 | the index dictionary built match by match groups the unqualified index names by table |
| SchemaAnalysis.IndexListsHoldUnqualifiedNames | supabase/scripts/analyze-schema.py:36-40 | a table has an index list iff some index is on it. Every listed name is free of dots and ends some index name matched on that table |
| SchemaAnalysis.FirstTableBeforeIsEarliest | supabase/scripts/analyze-schema.py:71 | the search before a CHECK finds no table iff no table match ends before it, and otherwise finds the earliest one that does |
| SchemaAnalysis.FirstTableBeforeIsFileFirst | supabase/scripts/analyze-schema.py:71-73 | with matches in file order, the search yields the file's first table whenever that table precedes the CHECK, and nothing otherwise |
| SchemaAnalysis.ConstraintGoesToFirstTable | supabase/scripts/analyze-schema.py:71-74 | `users` then `posts`, and a CHECK after both: the search yields `users`, the nearest preceding table is `posts` |
| SchemaAnalysis.NearestTableBeforeIsLatest | supabase/scripts/analyze-schema.py:70-73 | the nearest table finds nothing iff no table match ends before the CHECK, and otherwise the last one that does |
| SchemaAnalysis.ConstraintsOnFileFirstTable | supabase/scripts/analyze-schema.py:67-74 | with the table matches in file order, the constraints have at most one table, the file's first, and have it iff some CHECK starts after that table's match ends |
| SchemaAnalysis.ConstraintsGoToFileFirstTable | supabase/scripts/analyze-schema.py:67-74 | in the report, a table has constraints iff it is the file's first table and some CHECK starts after it |
| SchemaAnalysis.Abbreviated | supabase/scripts/analyze-schema.py:74 | the stored text is at most fifty characters of the constraint followed by `...`. It is the whole constraint when shorter than fifty |
| SchemaAnalysis.ConstraintTables | supabase/scripts/analyze-schema.py:67-74 | a table has constraints iff some CHECK is attributed to it |
| SchemaAnalysis.AttributeConstraints | supabase/scripts/analyze-schema.py:67-74 | the constraint dictionary built CHECK by CHECK groups the abbreviated texts by their table, unattributed ones dropped |
| SchemaAnalysis.RowsFor | supabase/scripts/analyze-schema.py:92-95 | one row per table name, the i-th for the i-th name |
| SchemaAnalysis.TableRowsOf | supabase/scripts/analyze-schema.py:91-102 | the listing loop yields the rows of the sorted tables |
| SchemaAnalysis.TableListingOrder | supabase/scripts/analyze-schema.py:91-96 | the listing has one row per table, covers every table, and is in strictly increasing name order |
| SchemaAnalysis.TableListingCounts | supabase/scripts/analyze-schema.py:93-95 | each row counts exactly the indexes, policies and triggers matched on its table |
| SchemaAnalysis.Issues | supabase/scripts/analyze-schema.py:136-170 | no issue iff all three checks pass. Each check adds its issue, naming exactly the offending tables, iff it fails. The issues come in the order RLS, policies, references |
| SchemaAnalysis.ValidationChecks | supabase/scripts/analyze-schema.py:138-163 | the checks, run in turn, collect those issues |
| SchemaAnalysis.AnalyzeSchema | supabase/scripts/analyze-schema.py:12-74 | a missing file yields no report; otherwise the report of the file's matches, with each CHECK attributed by the search over the text before it |
| SchemaAnalysis.SummaryCounts | supabase/scripts/analyze-schema.py:82-88 | the summary counts every index, policy and trigger match, and at most as many tables, functions and views as were matched |
| SchemaAnalysis.DeclaredIsTable | supabase/scripts/analyze-schema.py:30-33 | a name is a table iff the file has a `CREATE TABLE` for it |
| SchemaAnalysis.MissingRlsOnTheFile | supabase/scripts/analyze-schema.py:140-145 | a table is reported without RLS iff it is declared and no `ENABLE ROW LEVEL SECURITY` names it |
| SchemaAnalysis.MissingPoliciesOnTheFile | supabase/scripts/analyze-schema.py:149-152 | a table is reported without policies iff it is declared and no policy is on it |
| SchemaAnalysis.DanglingOnTheFile | supabase/scripts/analyze-schema.py:156-161 | a name is reported as a dangling reference iff some `REFERENCES` names it and no table of that name is declared |

## Left out

- Regular expressions: what the extractors and search patterns find in SQL text is an input (lists of matches in match order). Only the `IF NOT EXISTS` substitution and the policy `ON` search of the consolidation script are written out.
- SqlText: `\w` and case-insensitive matching are over ASCII only; Unicode word characters and case folding are not modelled.
- Transcription.TranscriptionAgent.OnTrackSubscribed: the session runs to completion inside the call, whereas the handler schedules it as a task. Interleavings of sessions, unsubscriptions and status ticks on `processing_tracks` are modelled separately in `SessionRegistry`, not in the class.
- Transcription.TranscriptionAgent.ProcessAudioTrack: the two concurrent halves of a session (frame forwarding and event handling) run one after the other. The engine's events are an input, not a function of the frames. `asyncio.gather` does not cancel one half when the other raises. So when frame forwarding fails, the `finally` releases the id while event handling goes on publishing and saving, and a second session for the same track can start beside it. The contract does not capture this; it promises the id is released only after the session's effects. `SessionRegistry.EarlyReleaseAllowsTwoSessions` shows the same shape of release before the session ends.
- Transcription.Appended: a transcript file holding JSON that is not a list, or bytes that are not valid text, cannot be represented; only decodable lists and undecodable JSON are. In the code such a file makes the save raise after the final message was published, and the session ends. Failures in the model (`EngineRun.failsAt`) end a session only between events.
- Transcription.Handled: a failure is modelled at event granularity. A failing engine, publish or file write ends the session before the event at the given index, and an action half-done at the failure is not modelled. A publish failure ends the session, as the code's `try` block around the whole session does.
- The read-then-write race between two sessions saving to the same transcript file is not modelled: saves are atomic.
- Time, JSON encoding and files: the `datetime.now()` readings taken for an event (message time, file day, entry time) are a `Clock` carried by the event, messages and entries are datatypes rather than JSON bytes, and the transcripts directory is a map from file name to content (with undecodable content as its own case).
- The agent's entrypoint (Deepgram and LiveKit connection and setup), `data_received` (it only prints chat messages), the `participant_connected` handler (it only schedules `process_participant_tracks`), the health-check server and the start-up script at the bottom of the file are not modelled.
- The status loop's 30-second sleep is left out; one tick is `SendStatusUpdate`.
- Printing, logging and the layout of the analysis report (headings, emoji, Python's rendering of sets) are left out; the report is a value.
- The constraint dictionary of the analysis is computed but never printed by the script; the model computes it all the same.
- SchemaAnalysis.FirstTableBeforeIsEarliest: a `CREATE TABLE` match that the cut at the CHECK's start would truncate is taken as not preceding it. A cut inside such a match could still match a shorter name, which is not modelled.
- Consolidate: the unused `comments` dictionary, the printed summary and the output file write are left out; the result is the text.
- The repository's other scripts (such as the Supabase diagnostics script) are not part of this model.

## Findings

| source | as written | input that shows it | evidently intended | confidence | as-written member | corrected member |
|---|---|---|---|---|---|---|
| supabase/scripts/analyze-schema.py:71-74 | `re.search` over the text before a CHECK returns the first `CREATE TABLE` of the whole file, so every constraint goes to the file's first table | tables `users` (characters 0-18) and `posts` (100-118), a CHECK at 150: the constraint goes to `users` | attribute each constraint to the nearest table declared before it (`posts`) | high; not executed | SchemaAnalysis.FirstTableBeforeIsFileFirst | SchemaAnalysis.NearestTableBeforeIsLatest |
| supabase/scripts/consolidate-migrations.py:183-185 | `sorted(tables.items())` is taken before `users` is popped, and `users` is then inserted at the front, so it appears twice | a migration set whose only table is `users`: the table is emitted twice | `users` first, every other table once in name order | high; not executed | Consolidate.TableOrderListsUsersTwice | Consolidate.TableOrderListsEachTableOnce |

The model computes what the code does, and the intended behaviour is defined and proved beside it:

- `SchemaAnalysis.Analysis` attributes constraints with `FirstTableBefore`, as the code does. `SchemaAnalysis.ConstraintsGoToFileFirstTable` states the result on the report, and `SchemaAnalysis.ConstraintGoesToFirstTable` shows it on the concrete input above. `NearestTableBefore` is the corrected attribution.
- `Consolidate.TableSection`, and through it `GenerateConsolidatedSchema`, renders `TableOrderAsWritten`. `Consolidate.OnlyUsersRenderedTwice` shows the duplicate on the concrete input above. `TableOrder` is the corrected order.
