# Verified models of the platform operator tooling

The repository's `deploy/scripts` operate Neo N3 contracts: they attach mini-apps to a game
engine, verify a publish-audit hash chain, schedule time-locked contract updates, deploy
21-agent anchors, audit and bind domains, and validate live games.  `scripts/generate_images.py`
draws their artwork.  This project models the logic of those tools in Dafny 4.11 and proves
what they rely on.  The chain is explicit state that changes by whole transactions; RPC
answers, lost transactions and confirmations, and the acts of other writers are arbitrary
choices, which the methods take unless their `quiet` argument rules them out.

| File | What it models |
|---|---|
| `Json.dfy`, `JsonParser.dfy`, `JsonOrder.dfy` | `stableStringify`, a prefix parser that inverts it (strings by section 7 of RFC 8259), and when its text depends on key order |
| `HashChain.dfy`, `AuditChain.dfy` | hash-linked audit rows, how the host application appends and the database stores them, the verification loop, grouping and LIMIT |
| `Descriptors.dfy`, `Fleet.dfy`, `Reconciler.dfy` | the descriptor lane of one app, whole runs with the abort rule, and the plan/execute program against an unreliable registry |
| `WorkerPool.dfy`, `MethodAudit.dfy` | `withConcurrency` as interleaved steps; the read budget and its counters |
| `UpdateTimelock.dfy` | the update tool, the registry's pending slot, transactions in flight and the clock |
| `Canvas.dfy`, `TextDrawing.dfy`, `StarFill.dfy`, `DiscFill.dfy`, `Png.dfy` | the rasteriser on its byte buffer and the PNG writer with a reader |
| `AccountCodec.dfy`, `AgentSet.dfy` | account ids and proxy accounts in Go and JavaScript; the resumable 21-agent loop |
| `LittleEndian.dfy`, `TurtleMatch.dfy`, `FulfillmentDigest.dfy` | the two little-endian decoders, the game replay, the oracle digest |
| `DomainBinding.dfy` | the domain audit and the bind loop |
| `BraceScan.dfy` | the brace-matching source extractors |
| `ByteStrings.dfy`, `Sorting.dfy`, `Sums.dfy`, `Wrappers.dfy` | byte strings, the stable sort, sums over keys, Option |

Run `dafny verify dfyconfig.toml` for the whole project.

## Assumptions

- Hashes (SHA-256, RIPEMD-160, CRC-32) and zlib are function parameters.  A result that needs
  the absence of collisions says so for the finitely many texts concerned; a hash into a
  fixed width is never assumed injective.  zlib is assumed to decompress what it compressed.
- `localeCompare` is a rank of texts in the reals: a total order that may tie different keys.
- An object's members are in the order of `Object.keys`: array indices first, ascending, then
  the other keys as inserted.
- In `Reconciler.dfy` others may change any app in any way, its admin included, before every
  single call, also between a simulation and the landing of the transaction it announced.  In
  `AgentSet.dfy` the one other actor is an earlier run of the same tool.
- The contracts are not part of the repository.  Their behaviour is what the scripts state:
  the engine rejects a descriptor write that breaks `minSolveMs{d} <= limitMs{d}` on the current
  row and any write by a non-admin; `scheduleUpdate` overwrites the pending slot and restarts
  the clock; a successful `update` clears it; the anchor appends registered agents.
- Randomness, time, environment variables and network answers are parameters or arbitrary
  choices.

## What the proofs found

- `stableStringify` is independent of key order exactly when no object has two keys that the
  collation ties, neither of them an array index (`JsonOrder.OrderInsensitiveIffNoTies`);
  injectivity needs nothing of the collation (`JsonOrder.StringifyInjective`).
- The audit payload is stored as JSONB, which does not keep member order.  A row appended by the
  host application verifies in whatever order its payload is read back exactly when the payload
  has no tied keys (`AuditChain.AppendedRowsSurviveStorageIff`).
- Deleting events from the end of a request's history goes unnoticed; every other deletion is
  reported (`AuditChain.RemovedEventsAreReported`).
- One reconciler pass reaches its target exactly when no current solve floor exceeds a new
  limit; two always do (`Descriptors.OnePassSufficesIff`, `Descriptors.TwoPassesSuffice`).
- A dry run tries every key on the row as it stands, while a write run raises a time limit before
  the floor that needs it.  For an attached app of the signer it announces the outcome exactly if
  the app needs a second pass or no new floor exceeds a current limit; otherwise it reports a
  failure that a write run does not meet (`Descriptors.DryRunFailsIff`).  For a lite app it does
  not try the keys at all, and is wrong exactly if the defaults need a second pass
  (`Reconciler.DryTurnForetellsIff`).
- A run aborts after five consecutive failing apps, and an attached app of another admin that is
  off its target fails in every run.  Five of those in a row starve every app behind them for
  ever: an app of the signer is brought to its target by repeated runs exactly if it is there
  already or no five such apps stand in a row before it (`Fleet.AppFinishesIff`).  A whole fleet
  converges exactly without such apps (`Fleet.RunsConvergeIff`), h apps in need of a second pass
  then taking h / 5 + 2 runs (`Fleet.RunsConverge`).
- txCount bounds the transactions of a run only as long as no attached app of another admin is
  handed to the signer during the run: its not-ready keys are counted as nothing and executed
  all the same (`Reconciler.PlanHandOverExecute`).  In general a run sends at most txCount plus
  nine for each such app (`Reconciler.Run`).  On a quiet chain txCount is exactly what the rows
  need, and a run over the signer's apps that need one pass sends exactly that.
- `withConcurrency` with a limit below 1 and a non-empty list returns empty slots without an
  error (`WorkerPool.QuiescentResult`).
- The update tool reports "timelock active" as a matching pending update.  That is right
  exactly when the registry compares digests before the clock
  (`UpdateTimelock.PendingMeansMatchingIffDigestFirst`).  A second `schedule` while the first is
  unconfirmed restarts the clock (`UpdateTimelock.ImpatienceRestartsClock`).  The digest pins the
  concatenation of the two files, not the boundary between them
  (`UpdateTimelock.BoundaryIsNotPinned`).
- The mainnet anchor deployer derives the byte reversal of the proxy account that the testnet
  deployer and the validators derive (`AccountCodec.ProxiesAgree`, `AccountCodec.AgentMatching`).
- JavaScript accepts the escape timelocks that Go refuses, as Numbers modulo 2^32
  (`AccountCodec.JsTimelockWraps`).
- A rerun of the agent set after success sends nothing exactly when no account was registered
  with a zero backup owner (`AgentSet.RerunSendsNothingIff`).
- A registration that an interrupted run gave up and that lands after the rerun has counted the
  agents leaves 22 agents, one of them twice; the rerun reports success and every later run
  refuses the set (`AgentSet.LandedAfterCount`, `AgentSet.RerunOvertaken`).  Landing before the
  count, or as a change of account, it makes no difference.
- `encodeUint256Bytes` is right exactly on 0 .. 2^256 - 1 (`FulfillmentDigest.EncodesIffUint256`).
- A domain required at two addresses can never pass the audit, whatever the name service holds
  (`DomainBinding.CleanNeedsBindable`); one pass leaves a clean audit exactly for lists without
  such domains whose unheld names the signer may write (`DomainBinding.OnePassCleansIff`).

## Model

| member | source | states |
|---|---|---|
| JsonParser.HexRoundTrip | deploy/scripts/verify-publish-audit-chain.js:25 | the four hex digits of a unicode escape are read back as the code unit |
| JsonParser.StringRoundTrip | deploy/scripts/verify-publish-audit-chain.js:25-28 | a quoted string, surrogates included, is read back exactly and the parser stops behind its closing quote, whatever follows |
| JsonParser.RoundTrip | deploy/scripts/verify-publish-audit-chain.js:23-29 | parsing the printed text of any value in front of a delimiter gives the value with sorted members, undefined as null, and leaves what followed |
| Json.Literals | deploy/scripts/verify-publish-audit-chain.js:23-25 | null, true and false are printed as these words |
| Json.ArrayText | deploy/scripts/verify-publish-audit-chain.js:26 | an array's items are printed in order between brackets, with commas |
| Json.ObjectText | deploy/scripts/verify-publish-audit-chain.js:27-28 | an object's members are printed by ascending key between braces, with commas |
| Json.MemberText | deploy/scripts/verify-publish-audit-chain.js:28 | a member is its quoted key, a colon and its value |
| Json.Escapes | deploy/scripts/verify-publish-audit-chain.js:25 | the two-character escapes, spelled out |
| Json.UnicodeEscapes | deploy/scripts/verify-publish-audit-chain.js:25 | control characters and lone surrogates are escaped by four lower-case hex digits |
| JsonOrder.StringifyInjective | deploy/scripts/verify-publish-audit-chain.js:23-29 | equal texts come from values equal up to member order at every depth; nothing is asked of the collation |
| JsonOrder.EqualTextIffSame | deploy/scripts/verify-publish-audit-chain.js:23-29 | under a collation that separates different keys, equal text if and only if equal values up to member order |
| JsonOrder.OrderInsensitiveIffNoTies | deploy/scripts/verify-publish-audit-chain.js:27 | the text of a value is the same for every member order that `Object.keys` can give exactly when the collation ties no two keys of one object in it, unless one of the two is an array index |
| JsonOrder.ReversalChangesText | deploy/scripts/verify-publish-audit-chain.js:27 | with a tie, reversing the keys that are no array indices is a member order that changes the text |
| JsonOrder.SortStable | deploy/scripts/verify-publish-audit-chain.js:27 | tied keys stay in the order in which `Object.keys` lists them |
| JsonOrder.ReversalExposesTies | deploy/scripts/verify-publish-audit-chain.js:27 | if an object and its reversal, index keys staying in front, sort to the same keys, no two of its other keys are tied |
| JsonOrder.IndexesFirst | deploy/scripts/verify-publish-audit-chain.js:27 | the array-index keys of an object are exactly its first members |
| HashChain.ChainHashDecidesHistory | deploy/scripts/verify-publish-audit-chain.js:129-160 | one chain hash shared by two accepted histories puts it at the same position and makes everything up to there equal |
| HashChain.BreaksZeroIffLinked | deploy/scripts/verify-publish-audit-chain.js:130-143 | the counter of chain breaks is zero exactly when every event names its predecessor's hash |
| HashChain.DroppedEventsBreakChain | deploy/scripts/verify-publish-audit-chain.js:129-143 | what is left after deleting events has no chain break exactly when it is a prefix |
| HashChain.PrefixAccepted | deploy/scripts/verify-publish-audit-chain.js:238-241 | any prefix of an accepted history is accepted |
| AuditChain.TextDecidesFields | deploy/scripts/verify-publish-audit-chain.js:97-109 | rows with the same hashed text have the same seven hashed fields |
| AuditChain.RowTextFields | deploy/scripts/verify-publish-audit-chain.js:97-109 | a reader of the hashed text finds one object of seven fields: request, app, actor, action and status under their names, the payload with sorted keys, or the empty object, and the previous hash, or null for a missing or empty one |
| AuditChain.LastHashDecidesHistory | deploy/scripts/verify-publish-audit-chain.js:97-160 | two accepted event lists that end in the same chain hash have the same length and the same hashed fields throughout |
| AuditChain.RemovedEventsAreReported | deploy/scripts/verify-publish-audit-chain.js:129-160 | a selection of an accepted list has a chain break exactly when it is not a prefix of it |
| AuditChain.AppendedRowAccepted | platform/host-app/lib/publish-approval-audit.ts:51-84 | the row that the writer seals with the hash of its own text on the last chain hash extends an accepted history |
| AuditChain.AppendedRowsSurviveStorageIff | deploy/migrations/055_miniapp_publish_request_audit.sql:19 | the appended row is accepted in every member order in which its stored payload may be read back exactly when the payload has no tied keys, unless reversing it collides |
| AuditChain.PayloadText | platform/host-app/lib/publish-approval-audit.ts:57-68 | two payloads give a row the same text exactly if they print alike |
| AuditChain.LimitKeepsAcceptance | deploy/scripts/verify-publish-audit-chain.js:222-245 | cutting the ordered rows at LIMIT keeps every request's history accepted |
| AuditChain.GroupByRequest | deploy/scripts/verify-publish-audit-chain.js:120-125 | the Map holds each request's rows in order, and lists each request once |
| AuditChain.EventsAre | deploy/scripts/verify-publish-audit-chain.js:120-125 | the events of a request are the rows that name it |
| AuditChain.VerifyEvents | deploy/scripts/verify-publish-audit-chain.js:130-159 | the inner loop counts the chain breaks and the wrong hashes, and lists what it reports of each event, with expected and actual hash |
| AuditChain.VerifyRows | deploy/scripts/verify-publish-audit-chain.js:111-172 | the counters are the numbers of rows with a wrong hash and of rows that do not name the hash of the row before them in their request's history; the issues listed are those of the rows; the summary is ok exactly when every request's events form an accepted chain |
| AuditChain.TableIssuesAre | deploy/scripts/verify-publish-audit-chain.js:130-159 | an issue is listed exactly if some row has that wrong link or wrong hash |
| Sums.GroupedSum | deploy/scripts/verify-publish-audit-chain.js:120-132 | summing group by group meets every row exactly once |
| Descriptors.StepsKeepValid | deploy/scripts/attach_apps_to_platform_game.go:25-29 | after every write of a pass the engine row obeys its ranges and minSolveMs{d} <= limitMs{d} |
| Descriptors.StepAccepted | deploy/scripts/attach_apps_to_platform_game.go:25-29 | the engine accepts a step of the pass unless the step is a limit below the current floor |
| Descriptors.OnePassSufficesIff | deploy/scripts/attach_apps_to_platform_game.go:131-138 | one pass over an app reaches the target exactly when no current floor exceeds a new limit; after a pass none does |
| Descriptors.TwoPassesSuffice | deploy/scripts/attach_apps_to_platform_game.go:1058-1075 | two passes always reach the target and a third changes nothing |
| Descriptors.PassWritesIff | deploy/scripts/attach_apps_to_platform_game.go:1058-1128 | a pass of the admin sends nothing exactly if the app is at its target, also where the engine refuses a limit |
| Descriptors.WritesAre | deploy/scripts/attach_apps_to_platform_game.go:1058-1128 | a pass of the admin writes exactly the keys that are off their target and not refused |
| Descriptors.DryRunFailsIff | deploy/scripts/attach_apps_to_platform_game.go:1080-1109 | the dry run of an attached app of the signer, which tries every key on the row as it stands, fails exactly if a current floor exceeds a new limit or a new floor a current limit |
| Descriptors.StrangerChangesNothing | deploy/scripts/attach_apps_to_platform_game.go:886-912 | the writes of a signer who is not the app admin change nothing |
| Descriptors.BoundsReason | deploy/scripts/attach_apps_to_platform_game.go:668-686 | a value is rejected exactly outside its family's range |
| Descriptors.RangesAre | deploy/scripts/attach_apps_to_platform_game.go:668-686 | limits lie between a second and an hour, floors between nothing and an hour, scores between 1 and a million |
| Descriptors.ValidateDescriptorSet | deploy/scripts/attach_apps_to_platform_game.go:628-663 | a set is accepted exactly if it has the nine keys, short enough names and a valid engine row; the unknown-key case cannot arise |
| Fleet.ProcessOutcome | deploy/scripts/attach_apps_to_platform_game.go:984-1075 | a turn fails exactly for an off-target app of another admin and for an app that needs a second pass; the former stays as it is, the latter is easy afterwards |
| Fleet.RunAt | deploy/scripts/attach_apps_to_platform_game.go:433-472 | a run processes exactly the apps in the loop before which it has not counted five consecutive failures |
| Fleet.AppFinishesIff | deploy/scripts/attach_apps_to_platform_game.go:433-472 | repeated runs bring an app of the signer to its target exactly if it is there already or no five apps in a row before it fail for good |
| Fleet.AppFinishes | deploy/scripts/attach_apps_to_platform_game.go:433-472 | such an app is at its target after two runs more than there are apps before it in need of a second pass, whatever else fails |
| Fleet.WalledAppStarves | deploy/scripts/attach_apps_to_platform_game.go:463-467 | behind five apps in a row that fail for good no number of runs changes an app |
| Fleet.RunProgress | deploy/scripts/attach_apps_to_platform_game.go:433-472 | with no app that fails for good, a run that aborts leaves at least five fewer apps in need of a second pass, less the failures it started with; one that does not abort leaves none |
| Fleet.EasyRunFinishes | deploy/scripts/attach_apps_to_platform_game.go:433-472 | with no app that fails for good or needs a second pass, a run does not abort and finishes every app |
| Fleet.RunsConverge | deploy/scripts/attach_apps_to_platform_game.go:433-472 | with no app that fails for good, h apps in need of a second pass are all at their target after h / 5 + 2 runs, and stay there |
| Fleet.RunsConvergeIff | deploy/scripts/attach_apps_to_platform_game.go:433-472 | some number of runs finishes every app in the loop exactly if none of them fails for good |
| Fleet.TurnSendsNeededIff | deploy/scripts/attach_apps_to_platform_game.go:410-421 | a turn sends at most what the row needs, the attach and nine keys or the keys off their target, and all of it exactly if that is nothing or the signer administers the app and one pass is enough |
| Fleet.EasyRunSendsNeeded | deploy/scripts/attach_apps_to_platform_game.go:433-472 | a run over apps of the signer that need one pass does not abort and sends exactly what the rows need |
| Fleet.RunSendsAtMostNeeded | deploy/scripts/attach_apps_to_platform_game.go:433-472 | no run sends more than the rows need |
| Reconciler.PlanApp | deploy/scripts/attach_apps_to_platform_game.go:863-956 | what the plan records of the row it probed, with others acting between its reads; if the row is under another admin the signer can write later only after a hand-over; on a quiet chain the record mirrors the row exactly: failed for a row of another engine, not-ready for an unregistered one or another admin's lite one |
| Reconciler.ExecuteDescriptor | deploy/scripts/attach_apps_to_platform_game.go:1080-1128 | whatever others do between its calls, one key sends at most one transaction, none in dry-run or for an app that was and stays under another admin; undisturbed it is one step of the pass, "failed" exactly off target, and in dry-run exactly skipped, planned or refused as the row stands; the status follows from the recorded reads and answers: set only if read, simulated, sent and read back at the target |
| Reconciler.ExecuteAttach | deploy/scripts/attach_apps_to_platform_game.go:986-1056 | the attach step sends at most one transaction, is ready only with the attachment confirmed or found, and undisturbed exactly if the row can be attached; "attached" only after simulation, transaction, the row read back on the engine and the engine's own row |
| Reconciler.ExecuteLane | deploy/scripts/attach_apps_to_platform_game.go:1058-1074 | the lane sends at most one transaction per open key, and for a not-ready key only after a hand-over; undisturbed it is one pass, sends exactly its writes, and some key fails exactly if the app misses its target, in dry-run exactly if the row as it stands refuses some key |
| Reconciler.ExecuteApp | deploy/scripts/attach_apps_to_platform_game.go:984-1075 | one app sends at most its planned transactions, and nine more only if it was planned under another admin and handed over since; undisturbed, what it does, sends and reports, in dry-run too |
| Reconciler.DryTurnForetellsIff | deploy/scripts/attach_apps_to_platform_game.go:984-1109 | the dry run of an app foretells whether its turn fails exactly if the signer is not the admin, or a lite app needs one pass, or an attached one needs two or no new floor exceeds a current limit |
| Reconciler.PlanHandOverExecute | deploy/scripts/attach_apps_to_platform_game.go:1058-1074 | an attached app of another admin is counted as nothing; handed over after the plan, its undisturbed execution sends the writes of a pass, some exactly if it is off target |
| Reconciler.PlanApps | deploy/scripts/attach_apps_to_platform_game.go:863-930 | the plan loop classifies every pending record by the row it sees, and sends nothing, while others act between any two reads |
| Reconciler.CountIsNeeded | deploy/scripts/attach_apps_to_platform_game.go:410-421 | on a quiet chain the plan counts for a record what its row needs: 10 for a lite row, the keys off target for an attached one, nothing for a row that is unregistered, elsewhere or another admin's, or for an invalid entry |
| Reconciler.CountTransactions | deploy/scripts/attach_apps_to_platform_game.go:410-421 | txCount is the total of the planned writes |
| Reconciler.Run | deploy/scripts/attach_apps_to_platform_game.go:406-472 | on a quiet chain txCount is what the rows need, and a write run over the signer's apps that need one pass sends exactly that; whatever the network and others do, a run sends at most txCount plus nine for each attached app of another admin handed to the signer during the run, hence at most txCount without such a hand-over, and none in dry-run; every transaction was simulated to HALT directly before it was sent; undisturbed it does to the chain, and sends, what the run specification says, abort included |
| WorkerPool.EveryInterleaving | deploy/scripts/audit_contract_domains.js:306-318 | in every interleaving no index is taken twice, taken equals finished plus in flight, and never more calls are in flight than the limit allows or than there are items |
| WorkerPool.LimitIsReached | deploy/scripts/audit_contract_domains.js:315-316 | some interleaving has the calls of the first `limit` items, or of all, in flight at once |
| WorkerPool.EveryInterleavingIsShort | deploy/scripts/audit_contract_domains.js:306-318 | every interleaving of n items ends within 2n + limit and within 3n steps, and a limit below 1 allows none |
| WorkerPool.QuiescentResult | deploy/scripts/audit_contract_domains.js:306-318 | when no step is left the result is the in-order map exactly if the limit is at least 1 or the list is empty |
| WorkerPool.WithConcurrency | deploy/scripts/verify_mainnet_miniapp_contract_methods.js:470-482 | the pool returns the in-order results for every schedule, and empty slots for a limit below 1 |
| MethodAudit.VerifySafeMethod | deploy/scripts/verify_mainnet_miniapp_contract_methods.js:426-468 | a hard read is either halted or a failure, and only hard reads fail |
| MethodAudit.AddTurn | deploy/scripts/verify_mainnet_miniapp_contract_methods.js:702-717 | each scheduled turn of the pool moves the counters by exactly the result it stores |
| MethodAudit.AddResults | deploy/scripts/verify_mainnet_miniapp_contract_methods.js:702-725 | counting a result list adds to each counter the number of results of its class |
| MethodAudit.Counters.ReadAll | deploy/scripts/verify_mainnet_miniapp_contract_methods.js:702-717 | in any interleaving each counter grows by the number of results of its class and the results are in method order |
| MethodAudit.VerifyApps | deploy/scripts/verify_mainnet_miniapp_contract_methods.js:604-728 | after every app reads attempted plus skipped equal those discovered, the classes add up, and a positive budget is used up to min(budget, discovered) |
| UpdateTimelock.DigestPinsConcatenation | deploy/scripts/schedule_platform_registry_update.go:405-411 | without a collision equal digests mean equal concatenations, hence equal files if the first have equal length |
| UpdateTimelock.BoundaryIsNotPinned | deploy/scripts/schedule_platform_registry_update.go:405-411 | moving a byte across the boundary of the two files keeps the digest |
| UpdateTimelock.ClassificationIsExact | deploy/scripts/schedule_platform_registry_update.go:488-503 | the text classification recovers the registry's state and never says unknown |
| UpdateTimelock.PendingMeansMatchingIffDigestFirst | deploy/scripts/schedule_platform_registry_update.go:226-300 | "pending" means that this very update is pending exactly when the registry compares digests before the clock |
| UpdateTimelock.TimelockHolds | deploy/scripts/schedule_platform_registry_update.go:226-379 | over every run, with transactions landing late or never, each executed digest was scheduled at least 24 hours before and nothing came between |
| UpdateTimelock.PatientRunsNeverOverwrite | deploy/scripts/schedule_platform_registry_update.go:226-300 | if nobody schedules while a schedule is unconfirmed, no run ever changes a pending digest or its maturity |
| UpdateTimelock.ImpatienceRestartsClock | deploy/scripts/schedule_platform_registry_update.go:270-300 | scheduling again before the first lands replaces the digest and restarts the clock |
| UpdateTimelock.ExecuteLands | deploy/scripts/schedule_platform_registry_update.go:244-322 | once its transaction is confirmed, execute carries out the update and empties the slot exactly if the slot pins this artifact and its day is over, and changes nothing otherwise |
| UpdateTimelock.ScheduleLands | deploy/scripts/schedule_platform_registry_update.go:244-322 | a confirmed schedule pins the artifact until 24 hours from then |
| UpdateTimelock.CancelLands | deploy/scripts/schedule_platform_registry_update.go:339-379 | a confirmed cancel empties the slot, whatever it holds |
| UpdateTimelock.UpdateGoesThroughIff | deploy/scripts/schedule_platform_registry_update.go:226-337 | schedule, wait and execute, each confirmed, carry the update out exactly if the wait is 24 hours or more |
| UpdateTimelock.Tool.CancelUpdate | deploy/scripts/schedule_platform_registry_update.go:339-379 | a dry run changes nothing; a real one sends exactly one cancel transaction |
| UpdateTimelock.Tool.SubmitUpdate | deploy/scripts/schedule_platform_registry_update.go:226-337 | a dry run changes nothing; a real execute, cancel, or schedule on an empty slot sends and reports exactly its own transaction; scheduling on an occupied slot changes nothing and says why |
| Canvas.AddPixel | scripts/generate_images.py:137-140 | the three saturating adds change one pixel and no other byte |
| Canvas.CompositeRect | scripts/generate_images.py:132-140 | each pixel of the rectangle that lies on the canvas gets one saturating add, every other byte stays, for any coordinates |
| Canvas.PaintedThen | scripts/generate_images.py:132-140 | painting one pattern and then another adds their counts, saturation included |
| Canvas.PaintedBytes | scripts/generate_images.py:137-140 | the red, green and blue byte of a painted pixel, at its offset in the buffer, grow by the colour as often as the painting says, up to 255 |
| TextDrawing.DrawText | scripts/generate_images.py:192-209 | the five nested loops add the colour once to a pixel exactly if dividing by the scale selects a set font bit of the upper-cased text, for any position, scale and upper-casing |
| TextDrawing.GlyphPixel | scripts/generate_images.py:194-205 | every pixel of a glyph's cell is painted exactly if its bit is set: rows downwards, columns to the right from the highest bit, eight cells a character |
| TextDrawing.NoPixelElsewhere | scripts/generate_images.py:194-205 | no pixel outside the text's box is painted |
| TextDrawing.CellRange | scripts/generate_images.py:199-205 | a pixel belongs to cell k exactly if it lies in the k-th stretch of `scale` pixels |
| TextDrawing.BitsFromLeft | scripts/generate_images.py:201-202 | the bits of a font row run from left to right, highest first |
| StarFill.CrossingParity | scripts/generate_images.py:234-241 | walking along edges, the number of crossings is odd exactly if the ends lie on different sides of the scanline |
| StarFill.EvenCrossings | scripts/generate_images.py:234-243 | every scanline crosses a closed polygon an even number of times, so pairing drops none |
| StarFill.InteriorIsPainted | scripts/generate_images.py:232-250 | a canvas pixel with an odd number of crossings to its left is painted |
| StarFill.PaintedIsNearInterior | scripts/generate_images.py:242-250 | a painted pixel lies less than a pixel from a crossing or from a point with an odd number of crossings to its left |
| StarFill.FindCrossings | scripts/generate_images.py:233-240 | the edge loop collects the crossings of the scanline in edge order |
| StarFill.CrossingOnEdge | scripts/generate_images.py:238-240 | a crossing lies on the line through the edge's ends and between them |
| StarFill.InSpanIff | scripts/generate_images.py:245-247 | a span covers exactly the canvas columns that begin at or before its right end and end behind its left end, and column 0 if it ends less than a pixel before it |
| StarFill.CrossesIff | scripts/generate_images.py:237 | an edge is crossed exactly if one of its ends is above the scanline and the other is not |
| StarFill.FillSpan | scripts/generate_images.py:244-250 | one span adds the colour once to each of its columns on the canvas |
| StarFill.FillPolygon | scripts/generate_images.py:229-250 | the whole fill adds the colour to each pixel once per span of its scanline and stays in the buffer |
| DiscFill.DiscIs | scripts/generate_images.py:118-120 | the disc is the set of points whose squared distance is at most the squared radius |
| DiscFill.BoxCoversDisc | scripts/generate_images.py:116-117 | the truncated bounding box misses no pixel of the disc |
| DiscFill.Weight | scripts/generate_images.py:122-123 | the rim weight lies between 0 and 1 |
| DiscFill.ByteSum | scripts/generate_images.py:124-126 | mixing two bytes by such a weight gives a byte |
| DiscFill.ShadeIs | scripts/generate_images.py:118-130 | a byte stays outside the radius, gets a saturating add deeper inside than the feather, and in between is mixed with the colour in proportion to the distances to the two circles |
| DiscFill.CompositeCircle | scripts/generate_images.py:112-130 | each pixel of the disc on the canvas is shaded exactly once, every other byte stays |
| Png.FilterRows | scripts/generate_images.py:21-27 | each row is preceded by filter byte 0 |
| Png.WritePng | scripts/generate_images.py:14-43 | the file is signature, header, one data chunk and end, or an error where a length does not fit 32 bits |
| Png.FileLayout | scripts/generate_images.py:14-43 | signature, header with width, height and colour type, data and end stand where the format wants them |
| Png.ChunkLayout | scripts/generate_images.py:16-19 | a chunk is length, kind, data and the checksum of kind and data |
| Png.UnpackIs | scripts/generate_images.py:16-19 | numbers stand highest byte first |
| Png.ChunkRoundTrip | scripts/generate_images.py:16-19 | a chunk reader (section 3.2 of RFC 2083) recovers kind, data and what follows |
| Png.UnfilterRoundTrip | scripts/generate_images.py:21-27 | undoing filter type 0 (section 6.2 of RFC 2083) recovers the rows |
| Png.PngRoundTrip | scripts/generate_images.py:14-43 | a PNG reader recovers width, height and the exact pixels, or rejects an image without pixels |
| AccountCodec.AccountIdsAgree | deploy/scripts/deploy_anchor_testnet.go:332-346 | Go accepts exactly timelocks below 2^32 and then derives the id that JavaScript derives |
| AccountCodec.JsPayload | deploy/scripts/live_validate_aa_ns_miniapps.js:64-90 | the hex payload of the JavaScript encoder decodes to the bytes that Go hashes |
| AccountCodec.JsTimelockWraps | deploy/scripts/live_validate_aa_ns_miniapps.js:64-72 | JavaScript derives ids modulo 2^32 of the timelock, taken as the integral Number it was converted to |
| AccountCodec.PayloadInjective | deploy/scripts/deploy_anchor_mainnet.go:243-257 | the hashed payload determines owner, verifier, hook, timelock and parameters |
| AccountCodec.PayloadLayout | deploy/scripts/deploy_anchor_testnet.go:332-346 | which bytes of the hashed payload hold the prefix, owner, verifier, hook, timelock and parameters |
| AccountCodec.ScriptInjective | deploy/scripts/deploy_anchor_testnet.go:348-356 | the proxy script determines the account id |
| AccountCodec.ScriptLayout | deploy/scripts/deploy_anchor_testnet.go:348-356 | which bytes of the script hold the account id, the call of "verify", the core and the system call |
| AccountCodec.ScriptsAgree | deploy/scripts/live_validate_flagship_user_flows.js:573-590 | the script text of the validators is the hex of the script that Go builds |
| AccountCodec.ProxiesAgree | deploy/scripts/deploy_anchor_mainnet.go:259-267 | the testnet proxy equals the validators' one and the mainnet proxy is its byte reversal |
| AccountCodec.DerivationsAre | deploy/scripts/deploy_anchor_testnet.go:332-356 | ids and mainnet proxies are the hash with its bytes reversed, testnet proxies the hash itself |
| AccountCodec.AgentMatching | deploy/scripts/live_validate_flagship_user_flows.js:2345-2362 | the validators accept an agent exactly if its account is the testnet-style proxy of its id |
| AccountCodec.MatchThrowsIff | deploy/scripts/live_validate_flagship_user_flows.js:573-594 | matching an agent throws exactly on a stored id that is present and not 40 hex digits |
| AccountCodec.ReversedIdIsResolved | deploy/scripts/live_validate_flagship_user_flows.js:2364-2370 | an id stored in the other byte order is still resolved unless its own script hashes to the account |
| AccountCodec.ReverseInPlace | deploy/scripts/deploy_anchor_testnet.go:451-461 | the two-index loop reverses the bytes in place |
| AccountCodec.ScopeAccounts | deploy/scripts/deploy_anchor_testnet.go:425-441 | the scope list holds every id in both byte orders, each once |
| AgentSet.IdIsDerived | deploy/scripts/deploy_anchor_testnet.go:310-315 | the ids of the loop are the ones both languages derive |
| AgentSet.ParamsText | deploy/scripts/deploy_anchor_testnet.go:383-384 | the parameters are the bytes of the anchor, app, agent and nonce text, the agent's position in two digits |
| AgentSet.AccountsAreAccepted | deploy/scripts/deploy_anchor_testnet.go:387 | the validators accept each derived account for the id they derive for its position, on mainnet read backwards |
| AgentSet.PlanIsDistinct | deploy/scripts/deploy_anchor_testnet.go:379-392 | without a collision the 21 account ids and the 21 proxy accounts are pairwise distinct |
| AgentSet.AnchorsShareNothing | deploy/scripts/deploy_anchor_testnet.go:184-191 | TrustAnchor and ProfitAnchor share no account id and no proxy account |
| AgentSet.ProgressResumes | deploy/scripts/deploy_anchor_testnet.go:379-408 | going on from an interrupted run leads to the same agents as never having been interrupted |
| AgentSet.FinishedAgents | deploy/scripts/deploy_anchor_mainnet.go:280-321 | a finished run leaves exactly 21 agents on the derived proxies; a stored id is wrong only where it was wrong before on the right account |
| AgentSet.NothingDueIff | deploy/scripts/deploy_anchor_testnet.go:316-325 | no transaction is due exactly if every account has a non-zero owner and every agent its account |
| AgentSet.RerunSendsNothingIff | deploy/scripts/deploy_anchor_testnet.go:369-410 | after success a rerun has nothing to send exactly if no account has a zero backup owner |
| AgentSet.Chain.EnsureAccount | deploy/scripts/deploy_anchor_testnet.go:310-330 | an account is registered exactly if it has no owner yet, wherever the step stops |
| AgentSet.Chain.EnsureAgentSet | deploy/scripts/deploy_anchor_testnet.go:369-410 | stopped anywhere the agents are a prefix of the result followed by the start; success gives all 21 and sends exactly the due transactions; more than 21 agents are refused untouched |
| AgentSet.Chain.EnsureAnchorAgents | deploy/scripts/deploy_anchor_testnet.go:369-410 | on success there are 21 agents, on accounts that the validators accept for the ids of their positions, and those registered by the run carry that id |
| AgentSet.Deploy | deploy/scripts/deploy_anchor_mainnet.go:280-321 | any number of interrupted runs, none of them leaving a transaction in flight, and one undisturbed run end in the 21 agents, and one more run sends nothing |
| AgentSet.LandedBeforeCount | deploy/scripts/deploy_anchor_testnet.go:369-402 | a registration that lands before the rerun counts the agents changes nothing of the result |
| AgentSet.LateChange | deploy/scripts/deploy_anchor_testnet.go:403-410 | a change of account that lands late, at any position of the rerun, changes nothing of the result |
| AgentSet.LandedAfterCount | deploy/scripts/deploy_anchor_testnet.go:369-402 | a registration that lands after the count, at any position of the rerun, leaves 22 agents, the registered one twice and the later ones one position too far |
| AgentSet.RerunOvertaken | deploy/scripts/deploy_anchor_testnet.go:369-410 | the overtaken rerun reports all 21 accounts with those 22 agents on chain, and the next run refuses them |
| LittleEndian.ReversedValue | deploy/scripts/live_validate_selected_miniapps.js:488-490 | reading the reversed bytes as hex gives the little-endian value |
| LittleEndian.SignedRange | deploy/scripts/live_validate_selected_miniapps.js:485-501 | the two's complement value lies in the half-open range of n bytes, is negative exactly with the top bit, and is congruent to the unsigned one |
| LittleEndian.Negate | deploy/scripts/live_validate_selected_miniapps.js:493-499 | invert-and-carry yields 256^n minus the value, and the final carry is 1 exactly for an all-zero buffer |
| LittleEndian.SignedFromLittleEndian | deploy/scripts/live_validate_selected_miniapps.js:485-501 | the result is the two's complement value for every buffer, the empty one included |
| LittleEndian.LittleEndianInteger | deploy/scripts/schedule_platform_registry_update.go:528-535 | the shift-and-add loop yields the unsigned little-endian value |
| LittleEndian.DecodersAgreeIff | deploy/scripts/schedule_platform_registry_update.go:528-535 | the two decoders agree exactly when the top bit is clear |
| TurtleMatch.DrawFrom | deploy/scripts/live_validate_selected_miniapps.js:1180-1181 | a draw is the absolute signed value modulo 100 although the remainder truncates |
| TurtleMatch.BandIsUnique | deploy/scripts/live_validate_selected_miniapps.js:1182-1185 | a draw falls into one colour band only |
| TurtleMatch.BandWidthIs | deploy/scripts/live_validate_selected_miniapps.js:1172 | as many of the 100 draws give a colour as its band is wide |
| TurtleMatch.TurtleChances | deploy/scripts/live_validate_selected_miniapps.js:1172 | of the 100 draws 20, 20, 18, 15, 12, 8, 5 and 2 give the eight colours |
| TurtleMatch.ColorOf | deploy/scripts/live_validate_selected_miniapps.js:1182-1185 | the search returns the first band above the draw; the default is never wrong |
| TurtleMatch.FillBox | deploy/scripts/live_validate_selected_miniapps.js:1177-1187 | each slot is counted once, under the colour of its draw |
| TurtleMatch.MatchesAre | deploy/scripts/live_validate_selected_miniapps.js:1188-1193 | the matches of a box are the colours that fill at least the threshold of slots |
| TurtleMatch.RewardUpdate | deploy/scripts/live_validate_selected_miniapps.js:1188-1193 | a colour contributes its own reward from the threshold on and nothing below |
| TurtleMatch.MatchesUseSlots | deploy/scripts/live_validate_selected_miniapps.js:1188-1193 | threshold times the matches of a box is at most its slots |
| TurtleMatch.RewardAtMost | deploy/scripts/live_validate_selected_miniapps.js:1188-1193 | m matches pay at most the m largest rewards |
| TurtleMatch.BoxSeedIs | deploy/scripts/live_validate_selected_miniapps.js:1173-1187 | box i starts where the hash chain stands after the slots of the boxes before it |
| TurtleMatch.SessionBounds | deploy/scripts/live_validate_selected_miniapps.js:1176-1194 | bounds of matches and reward for any table, slot count, threshold and number of boxes |
| TurtleMatch.Replay | deploy/scripts/live_validate_selected_miniapps.js:1173-1194 | the box loop settles with the scores of the boxes drawn from consecutive stretches of the hash chain |
| TurtleMatch.ReplayTurtleMatch | deploy/scripts/live_validate_selected_miniapps.js:1171-1194 | at most 9 matches and 15000000 * matches <= reward <= 555000000 for every seed and hash |
| FulfillmentDigest.EncodesIffUint256 | deploy/scripts/live_validate_selected_miniapps.js:480-483 | the encoder gives 32 big-endian bytes of the value exactly for unsigned 256-bit values |
| FulfillmentDigest.PayloadLayout | deploy/scripts/live_validate_selected_miniapps.js:503-515 | which bytes of the hashed text hold the domain, the request id, the hash of the type, the success byte and the hashes of result and error |
| FulfillmentDigest.DigestDecidesFulfillment | deploy/scripts/live_validate_selected_miniapps.js:503-515 | without a collision two fulfilments have the same digest exactly if they agree in id, type, success, result and error |
| DomainBinding.FineIffHeld | deploy/scripts/audit_contract_domains.js:320-333 | a binding is ok exactly if the chain holds its non-empty expected address; offline nothing is |
| DomainBinding.StatusIs | deploy/scripts/audit_contract_domains.js:320-333 | the status of a binding by whether it has a domain, the name is registered, has a record and the record is the expected address |
| DomainBinding.KeyInjective | deploy/scripts/audit_contract_domains.js:339 | the key separates different bindings, as addresses hold no bar |
| DomainBinding.Dedupe | deploy/scripts/audit_contract_domains.js:335-345 | the loop keeps the first record of each key |
| DomainBinding.FirstOfEachIs | deploy/scripts/bind_contract_domains.js:72-82 | the kept records come from the list, cover every key and have distinct keys |
| DomainBinding.ActionableIff | deploy/scripts/audit_contract_domains.js:387-396 | a binding is in the actionable list exactly if the chain does not hold it |
| DomainBinding.LoadedIff | deploy/scripts/bind_contract_domains.js:84-95 | from a report with an actionable list the bind script acts on every unheld binding with a domain and an address, and on no other |
| DomainBinding.LoadedFromRecordsIff | deploy/scripts/bind_contract_domains.js:88-92 | from a report without one it acts on those of registered names only |
| DomainBinding.SortedByDomain | deploy/scripts/bind_contract_domains.js:94 | the actions come in the order of their domains |
| DomainBinding.WrittenValue | deploy/scripts/bind_contract_domains.js:234-268 | a name the actions agree on ends with that text; a name without an action keeps its own |
| DomainBinding.NameService.Bind | deploy/scripts/bind_contract_domains.js:234-268 | a dry run writes nothing; any run changes a name only to a text some action asks for; rows are blocked exactly for names the signer may not write |
| DomainBinding.CleanNeedsBindable | deploy/scripts/audit_contract_domains.js:320-345 | with a conflicting pair, or a domain without an address, no state of the name service passes the audit |
| DomainBinding.OnePassCleansIff | deploy/scripts/bind_contract_domains.js:84-95 | one full pass from any records leaves a clean audit exactly if no domain is required at two addresses and none without one, and the signer may write every name whose record is wrong |
| DomainBinding.AuditAndBind | deploy/scripts/bind_contract_domains.js:234-268 | audit, full execute pass and fresh audit leave no actionable record with a domain exactly under that condition |
| BraceScan.ScanClose | deploy/scripts/audit_miniapp_playarea_functionality.js:131-140 | the depth loop finds the end of the shortest balanced block, or shows that no prefix is balanced |
| BraceScan.ShortestBalanced | deploy/scripts/audit_miniapp_playarea_functionality.js:146-151 | the block has as many opens as closes, no shorter prefix is balanced, and it ends in a close |
| BraceScan.ProfileEntrySource | deploy/scripts/audit_miniapp_playarea_functionality.js:184-200 | the result is the block at the first brace after the first marker, the full tail if it never closes, or empty |
| BraceScan.EntryIsUnique | deploy/scripts/audit_miniapp_playarea_functionality.js:184-200 | what is stated of the extracted entry determines it |
| BraceScan.ExtractConditionalBlockSource | deploy/scripts/audit_miniapp_playarea_functionality.js:156-174 | the result starts at the last "if" before the first marker and ends with the block after the marker |
| BraceScan.ConditionalIsUnique | deploy/scripts/audit_miniapp_playarea_functionality.js:156-174 | what is stated of the extracted conditional block determines it |
| BraceScan.ExtractFunctionSource | deploy/scripts/audit_miniapp_playarea_functionality.js:123-154 | the result starts at the first match and ends with the block at the first brace after the parameters' closing parenthesis |
| BraceScan.MatchAtIff | deploy/scripts/audit_miniapp_playarea_functionality.js:124 | the pattern matches exactly where the keyword, blanks, the name, any blanks and a parenthesis follow one another |
| BraceScan.FunctionIsUnique | deploy/scripts/audit_miniapp_playarea_functionality.js:123-154 | what is stated of the extracted function determines it |
| BraceScan.ParenOfMatch | deploy/scripts/audit_miniapp_playarea_functionality.js:124-128 | the parenthesis that is scanned is the one the pattern matched |
| BraceScan.EntryOfEntry | deploy/scripts/audit_miniapp_playarea_functionality.js:184-200 | extracting an extracted entry again changes nothing |
| BraceScan.ConditionalOfConditional | deploy/scripts/audit_miniapp_playarea_functionality.js:156-174 | extracting an extracted conditional block again changes nothing |
| BraceScan.FunctionOfFunction | deploy/scripts/audit_miniapp_playarea_functionality.js:123-154 | extracting an extracted function again changes nothing |

## Left out

- RPC, fetch, retries, polling, wallets, signing, environment lookup and report files: only their effect on chain state is modelled.
- Reconciler.ExecuteAttach: the read-back of the engine hash and of the game type is one answer, right on a quiet chain, where the engine is active too.
- Fleet.AppFinishesIff: the signer's own apps are meant; an app under another admin is never changed.
- Reconciler.Run: the GAS budget check, the batch checkpoints and the summary counters (`atgRecomputeSummary`) are left out; they change no chain state.
- Reconciler.PlanApps: records are indexed by app, so the sort by appId and the appId charset check are left out.
- AuditChain.VerifyRows: a null chain hash is not modelled, and the issue list is not cut at 50; its order is that of the groups.
- Json: functions, symbols and BigInt, for which `JSON.stringify` gives no text or throws, are not values of the model; numbers are their literals.
- AuditChain.AppendedRowsSurviveStorageIff: what JSONB refuses or drops (lone surrogates, U+0000, undefined members) and two writers appending at once are left out; the previous row is read without error.
- UpdateTimelock.Tool.SubmitUpdate: the wait for confirmation and a rejected send are the Confirm and Expire steps of the state machine.
- UpdateTimelock: `ruReadPendingUpdate` and `ruStatusNextSteps` only report; the little-endian reading of the stored time is in LittleEndian.
- AgentSet.Chain.EnsureAgentSet: the chain changes by its own transactions only; a late one of an earlier run is in RerunOvertaken, where the anchor is taken to accept an account twice, which its source, not part of this model, decides.
- AgentSet: the verify-scope transaction and the report are left out; its account list is AccountCodec.ScopeAccounts.
- AccountCodec.JsAccountId: texts carry no surrounding blanks, which the original trims.
- AccountCodec.JsTimelockWraps: a timelock text above 2^53 is rounded by `Number` first; the rounding is not modelled.
- DomainBinding.NameService.Bind: `--domain`, `--limit`, the missing-signer report, CNAME resolution and the owner columns are left out; names are compared exactly.
- WorkerPool.WithConcurrency: a rejected call is a step of the state machine (`Reject`), not of the method.
- MethodAudit.VerifySafeMethod: how a method is classified as hard and which arguments it gets is left out.
- DiscFill and StarFill: coordinates are reals and the square root is exact; rounding, the angles of the star and the gradient colour maths are left out.
- TurtleMatch: the contract calls around the replay are left out.
- FulfillmentDigest: texts are their UTF-8 bytes, and a `requestId` that BigInt cannot parse is not modelled.
- BraceScan.ExtractFunctionSource: function names hold no characters special in regular expressions.
- `acquireRunLock`, the other live contract flows, media audits, configuration generators and UI code are not modelled: they depend on processes and files, or would only add easy members.
