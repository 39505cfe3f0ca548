# Ledger read side and operator scripts: a verified model

The repository keeps an append-only event ledger and reads it back through hand-written folds: the
dashboard rebuilds KPI trees, installs, people, data products, notebooks, scores, first-knowings,
trace pages, audit chains and decision chains from ledger rows. A few operator scripts stand beside
it: a log watchdog, the printer of a deliberately awkward CSV, and an orchestrator that plays a demo
scenario with a recovery ladder. This project models those components in Dafny and proves what they
promise, for every ledger, every run and every environment.

Folds that change maps and shared objects are methods over classes with loops. Each is proved against
a specification written over the event history (the last row of a kind, the rows between two rows),
not over the loop, and the lemmas then say what the specification means. Beside it stands a law that
names no function of the code: predicates whose names end in `Tells`, `Told` or `Right` relate an
answer to the fields of the rows it was made from, with the texts, bounds and defaults written out. Times are integers, seqs are
numbers in ledger order, scores and costs are exact reals, query results and command outcomes are
inputs.

| file | models |
|---|---|
| `ParentForest.dfy`, `KpiTree.dfy` | the KPI tree, threaded from a parent graph that may be cyclic |
| `AuditRows.dfy`, `AuditClosure.dfy`, `ChainAssembly.dfy` | the agent-query audit chain: the recursive query and the assembler |
| `Watchdog.dfy` | the openclaw watchdog against an unbounded exact window |
| `CursedCsv.dfy` | the CSV printer against a reader following section 2 of RFC 4180 |
| `Installs.dfy` | one mutable install row reachable from two maps |
| `OrderedMaps.dfy`, `MapRuns.dfy`, `PersonRows.dfy`, `People.dfy` | three separately written people folds, against what the history says |
| `Sampling.dfy`, `ScoreRows.dfy`, `CompositeScore.dfy` | stride sampling, windows, weights, score |
| `TracePages.dfy` | filters and cursor pagination over a growing ledger |
| `KnowingRows.dfy`, `FirstKnowings.dfy` | deduplication, suppression and the memoised chat window |
| `LakeActivity.dfy` | the truncated merge of the lake axes |
| `DecisionChain.dfy` | tight links and fallbacks from a decision down to its bytes |
| `LifecycleRows.dfy`, `DataProducts.dfy`, `Notebooks.dfy` | two folds with two outputs each |
| `KnowledgeRamp.dfy` | the one-minute buckets of the sparkline, filled in place |
| `Orchestrator.dfy` | the recovery ladder of a beat and the run over all beats, against an arbitrary environment |
| `Sequences.dfy`, `Sorting.dfy` | shared vocabulary, numbers as text and their text order; a stable sort and its laws |

## What does not hold, and exactly when

The lemmas named give the condition, or an input, or both.

- The audit query joins its rounds with `UNION ALL`. A row with a trail id links to itself, so the
  evaluation ends if and only if no row carries the root trail id (`UnionAllEndsIffNoSeed`). All
  closure results are about the set form, which the outer `SELECT DISTINCT` asks for; with `UNION` the
  evaluation ends, with the same rows (`UnionEndsWithGather`).
- A KPI row may carry the id of the synthetic wrapper, `kpi_root`. No id occurs twice in what is
  returned if and only if there is no wrapper together with a shown row of that id
  (`NoIdTwiceUnlessWrapperId`).
- Following `nextCursor` ends on an empty fetch, where the code answers with fixture rows, if and only
  if the number of rows is a multiple of the page size (`WalkYieldsFirstLedger`).
- The CSV reads back as it was written if and only if no row is without fields: such a row prints as
  an empty line, which is also one empty field (`RoundTrip`).
- A completed install is revoked if and only if a later revoke names its id before another completion
  takes the id over (`RevokedIff`), so the revoke of an id that two platforms share reaches only the
  platform that completed it last (`SharedIdEscapesRevoke`).
- What the separate people folds make of rows before a person's first proposal, `foldPersonRows` never
  sees. A role is shown alike if and only if those rows leave it unheld or a later row assigns or
  revokes it (`TenancyAgreesIff`). An identity is listed alike if and only if they leave it unlisted or
  a row from the proposal on proposes, links or unlinks it (`IdentitiesAgreeIff`, which also says when
  the values agree). Domain and resource grants agree if and only if those rows assign none
  (`GrantsAgreeIff`). The tenancy role shown is the highest of the roles returned if and only if no role
  held only by those rows outranks every role held since (`TenancyRoleIsHighestIff`).
  `LinkBeforeProposalIsLost` is an input on which the folds differ.
- The conditions per key are not about order. The identity fold lists first, in order, what is listed
  before the first proposal and not unlinked later; its list equals that of the whole fold if and only
  if the whole fold starts with the same entries (`IdentityListsAgreeIff`, and `TenancyListsAgreeIff`
  for tenancy grants). In `OrderCanDiffer` every key agrees and the two lists are in opposite orders.
- The order in which the audit chain's rows arrive changes nothing, times and seqs being distinct, if
  and only if the rows that may name agent, tool and route agree on them: the root proposals, or all
  root rows when there is no proposal (`OrderIsIdleIff`).
- The clamp of the composite score changes no score, whatever the components, if and only if no merged
  weight is negative or the merged weights add up to nothing positive, in which case the defaults apply
  (`ClampIdleIff`); `NegativeWeightNeedsClamp` and `NegativeWeightCanBeHarmless` are a negative override
  of either kind. The window of a sampled height holds its own anchor row if and only if its length
  is not negative (`AnchorInWindowIff`).
- The decision chain takes the row listed first where it calls `find`. The query names its text column
  `seq` and orders by that name, so Postgres orders by text. For rows in that order the chain is the
  newest if and only if, for its decision, process-map, source and bronze links, no wanted row has more
  digits in its seq than the first one listed; the kpi is picked by seq and needs nothing
  (`NewestIffFirstsAreLongest`, stated by `GetDecisionChain`). All rows are in descending seq if and
  only if the numbers of digits never increase along them (`TextOrderDescendsIff`). Where 9 comes before
  10, the older of two decisions is chosen (`TextOrderChoosesTheOlder`).
- What a notebook shows as published is a run recorded for it if and only if some row ran the notebook
  under that run id (`PublishedIsRecordedIff`). It is so after every part of a history if and only if
  every publication of a known notebook names a run of it recorded earlier
  (`AlwaysRecordedIffDisciplined`). `PublishedRunMayBeUnrecorded` is an input on which it is not.

The merge of the lake axes is exact as the tables stand: all eight declare `state_changed_at` NOT NULL
(packages/ledger/src/wormbase_ledger/schema.py, lines 910, 970, 1035, 1101, 1168, 1239, 1313 and 1387), and
`TruncatedMergeIsExact` covers every axis without null times. The lemmas on null times
(`OneAxisIsExactIff`, `NullTimeBreaksTruncation`) say only what would follow without that constraint,
since the code turns a null time into the epoch.

One disagreement is between the code and its comments. They say that a process map may also match the
decision's channel (apps/dashboard/lib/decision-chain.ts:144-146); the code reads the channel and does
not use it (apps/dashboard/lib/decision-chain.ts:142). The model follows the code.

## Model

| member | source | states |
|---|---|---|
| ParentForest.RootedIffNoCycle | apps/dashboard/lib/ledger-client.ts:628-633 | a chain of parents ends at a root if and only if it never repeats a node |
| ParentForest.DepthBound | apps/dashboard/lib/ledger-client.ts:615-633 | a chain that ends has fewer steps than there are nodes, so the tree is finite |
| ParentForest.LongChainRepeats | apps/dashboard/lib/ledger-client.ts:615-633 | a chain with more steps than nodes visits a node twice |
| ParentForest.WholeHoldsTheRooted | apps/dashboard/lib/ledger-client.ts:615-633 | the forest holds each node whose chain ends exactly once and no other node |
| ParentForest.NoRootsIffNoneRooted | apps/dashboard/lib/ledger-client.ts:628-635 | there are no roots exactly when no chain ends |
| KpiTree.GetKpiTree | apps/dashboard/lib/ledger-client.ts:583-659 | the shared node objects, children lists and hasChildren flags show exactly the forest of the parent graph: null, its one tree, or the wrapper around its trees; each node tells of its row: name or id, owner, classification and source or their defaults, confidence brought into the unit interval |
| KpiTree.WireChildren | apps/dashboard/lib/ledger-client.ts:615-623 | each node ends up with exactly the rows that name it as parent, in row order |
| KpiTree.FindRoots | apps/dashboard/lib/ledger-client.ts:628-634 | the roots are the rows whose parent id is absent, empty or unknown, in row order |
| KpiTree.ParentsFollowIds | apps/dashboard/lib/ledger-client.ts:612-634 | a row's parent in the graph is the row whose id its parent id is, unless that is empty |
| KpiTree.TreeHoldsEachRootedIdOnce | apps/dashboard/lib/ledger-client.ts:583-659 | an id occurs once in the tree, or not at all if its chain of parents runs into a cycle |
| KpiTree.NullIffEveryChainCyclic | apps/dashboard/lib/ledger-client.ts:581-636 | nothing is returned exactly when every chain is cyclic or there are no rows |
| KpiTree.NoIdTwiceUnlessWrapperId | apps/dashboard/lib/ledger-client.ts:635-659 | no returned id is duplicated, wrapper included, unless a wrapper meets a shown row with its id |
| AuditClosure.GatherIsLeastClosed | apps/dashboard/lib/agent-query-chain.ts:359-406 | as many rounds as there are rows yield the least set of ledger rows with the seed that is closed under the links |
| AuditClosure.GatherFollowsLinks | apps/dashboard/lib/agent-query-chain.ts:359-406 | in payload fields: the seed is gathered, a row whose caused_by, original or agent query id or own trail id is a gathered row's trail id is gathered, every other gathered row has such a link, and no smaller set of rows will do |
| AuditClosure.GatherGrows | apps/dashboard/lib/agent-query-chain.ts:359-406 | when the ledger grows, the gathered set only grows |
| AuditClosure.NoSeedNoRows | apps/dashboard/lib/agent-query-chain.ts:363-379 | without a row carrying the root trail id nothing is gathered |
| AuditClosure.UnionAllEndsIffNoSeed | apps/dashboard/lib/agent-query-chain.ts:381-404 | with UNION ALL some round yields nothing if and only if the seed is empty |
| AuditClosure.UnionEndsWithGather | apps/dashboard/lib/agent-query-chain.ts:381-406 | with UNION, looking only at new rows, the evaluation ends within one round more than rows, with exactly the gathered set |
| ChainAssembly.AssembleChain | apps/dashboard/lib/agent-query-chain.ts:215-314 | the result is null or a chain with the sorted entries, the spokesman's agent, tool and route, the status of the root rows and the totals, all of it also stated in payload fields |
| ChainAssembly.ChainIsTold | apps/dashboard/lib/agent-query-chain.ts:113-314 | in payload fields: a chain exists exactly when some row is an agent-query row of the root; status, agent, tool and route are those of the root rows; each entry has the kind, phase, trail id and cause its fields give; entries are in order of time and then seq |
| ChainAssembly.RootStatus | apps/dashboard/lib/agent-query-chain.ts:253-267 | denied if a root row denies, else the furthest phase any root row is in |
| ChainAssembly.Totals | apps/dashboard/lib/agent-query-chain.ts:269-288 | the latency sum and the cost sum with four decimals over measured resolve rows, null when none is measured |
| ChainAssembly.FixedIsNearest | apps/dashboard/lib/agent-query-chain.ts:288-288 | the printed cost is the nearest number of ten-thousandths, ties away from zero |
| ChainAssembly.FixedReads | apps/dashboard/lib/agent-query-chain.ts:288-288 | the printed text has four decimals and reads as the nearest number of ten-thousandths, with no zero in front of other digits |
| Sequences.DecimalReads | apps/dashboard/lib/agent-query-chain.ts:288-288 | printing a number and reading its digits gives the number, with no zero in front of other digits |
| ChainAssembly.PrintAlikeIff | apps/dashboard/lib/agent-query-chain.ts:288-288 | two costs that are not negative print alike exactly when they round alike |
| ChainAssembly.NullTotalsIffUnmeasured | apps/dashboard/lib/agent-query-chain.ts:273-288 | a total is null exactly when no agent-query resolve row carries the measurement |
| ChainAssembly.EntriesAreTheRowsSorted | apps/dashboard/lib/agent-query-chain.ts:222-301 | the entries are a permutation of the normalised rows, sorted by time and then seq |
| ChainAssembly.ChainIffRootRow | apps/dashboard/lib/agent-query-chain.ts:219-244 | there is a chain exactly when some row is an agent-query row of the root |
| ChainAssembly.SpokesmanIsRoot | apps/dashboard/lib/agent-query-chain.ts:245-250 | agent, tool and route come from a row of the root's own cycle |
| ChainAssembly.FirstIsFirst | apps/dashboard/lib/agent-query-chain.ts:245-245 | the row chosen is the first that qualifies, if any does |
| ChainAssembly.OrderDoesNotMatter | apps/dashboard/lib/agent-query-chain.ts:215-314 | when (time, seq) pairs are distinct and the rows that may name agent, tool and route agree, reordering the input changes nothing |
| ChainAssembly.OrderIsIdleIff | apps/dashboard/lib/agent-query-chain.ts:215-314 | with distinct (time, seq) pairs there is one result for all orders exactly when the root proposals agree on agent, tool and route, or all root rows if none is a proposal |
| ChainAssembly.ChainFoundIff | apps/dashboard/lib/agent-query-chain.ts:340-420 | gathering and assembling together find a chain exactly when the seed is not empty and the ledger holds an agent-query row of the root |
| Watchdog.Run | scripts/openclaw-watchdog.py:120-163 | every line is reported as the unbounded exact window would report it, up to the printed count, and its action is fixed by the hits since the last clear that are inside the window, the threshold, the auto-restart flag and the time since the last restart; the deque ends as the last 4 x threshold hits since the last clear that are inside the window |
| Watchdog.ReportsAct | scripts/openclaw-watchdog.py:126-162 | in lines and reports: below the threshold exactly when fewer hits than it are recent since the last clear, by an operator notice or a restart; else the operator is asked without auto-restart, the gateway is restarted when the cooldown has passed, and otherwise it is cooling down |
| Watchdog.OnHit | scripts/openclaw-watchdog.py:126-162 | one matching line keeps the deque in step with the exact window, and takes its decision |
| Watchdog.AppendAndTrim | scripts/openclaw-watchdog.py:126-130 | after append and trim the deque is the last 4 x threshold of the hits no older than the window |
| Watchdog.SameDecision | scripts/openclaw-watchdog.py:132-161 | the bounded deque and the exact window decide alike |
| Watchdog.EveryRestartIsBacked | scripts/openclaw-watchdog.py:126-153 | each restart is backed by at least threshold hits of distinct matching lines inside one window |
| Watchdog.BackingsAreDisjoint | scripts/openclaw-watchdog.py:138-153 | no hit backs two restarts |
| Watchdog.RestartsAreSpaced | scripts/openclaw-watchdog.py:138-152 | consecutive restarts are a cooldown apart, and restarts x cooldown is at most the time of the last |
| Watchdog.RestartsConsumeHits | scripts/openclaw-watchdog.py:126-153 | restarts x threshold plus the hits still held is at most the matching lines; without auto-restart there is no restart |
| Watchdog.RestartsAreReported | scripts/openclaw-watchdog.py:138-153 | the recorded restarts are exactly the lines reported as restarting, in order |
| CursedCsv.RenderCsv | scripts/generate_cursed_csv.py:198-214 | the text is the header line twice and one line for each row, each ended by CRLF |
| CursedCsv.QuotedIffSpecial | scripts/generate_cursed_csv.py:185-191 | a field is printed as it is exactly when it holds no comma, quote, CR or LF; otherwise it is put in quotes and grows by one for each quote in it |
| CursedCsv.ReadField | scripts/generate_cursed_csv.py:185-191 | reading a printed field gives back the field, whatever it contains |
| CursedCsv.ReadRow | scripts/generate_cursed_csv.py:194-195 | reading a printed record gives back its fields, one empty field if it has none |
| CursedCsv.RoundTrip | scripts/generate_cursed_csv.py:185-214 | the text is always well formed, and reads back as header, header, rows exactly when no row is without fields |
| CursedCsv.PrintedTablesDiffer | scripts/generate_cursed_csv.py:185-214 | different tables of non-empty rows never print the same text |
| CursedCsv.LastBreakIsOptional | scripts/generate_cursed_csv.py:198-214 | the CRLF after the last record may be left out, unless that record is one empty field |
| CursedCsv.BrokenFieldIsRejected | scripts/generate_cursed_csv.py:185-214 | outside quotes the reader rejects a CR without its LF, an LF without its CR and a quote inside a field |
| CursedCsv.BrokenQuoteIsRejected | scripts/generate_cursed_csv.py:185-214 | the reader rejects a quoted field that is never closed or is followed by anything but a separator |
| Installs.GetInstalls | apps/dashboard/lib/ledger-client.ts:2167-2261 | one row for each platform ever completed, in order of platform, each telling of the platform's last completion: its fields, whether it is revoked, the pairing that goes with platform and status, and the setup fields |
| Installs.ExpectedTells | apps/dashboard/lib/ledger-client.ts:2167-2242 | what the history says of a platform, in the fields of its rows: the last completion with an id, revoked exactly when a later revoke names that id before another completion takes it over, paired, expired, connected or disconnected accordingly |
| Installs.OnCompleted | apps/dashboard/lib/ledger-client.ts:2181-2220 | a completion makes one new object, reached from both maps, that keeps the platform's setup fields |
| Installs.OnRevoked | apps/dashboard/lib/ledger-client.ts:2221-2228 | a revoke reaches the last completion of its id through the second map, and pairing follows status |
| Installs.OnModeChosen | apps/dashboard/lib/ledger-client.ts:2229-2236 | the mode is stamped on every platform's row and on nothing else |
| Installs.OnSetupCompleted | apps/dashboard/lib/ledger-client.ts:2237-2241 | the completion time is stamped on every platform's row and on nothing else |
| Installs.PlatformsSpec | apps/dashboard/lib/ledger-client.ts:2168-2219 | a platform has one row if it was ever completed and none otherwise |
| Installs.LastCompletionSpec | apps/dashboard/lib/ledger-client.ts:2168-2220 | the completion a row describes is the platform's last |
| Installs.RevokedIff | apps/dashboard/lib/ledger-client.ts:2219-2228 | a completion is revoked exactly when a later revoke names its id before another completion takes the id over |
| Installs.RevokedIffNamedLater | apps/dashboard/lib/ledger-client.ts:2219-2228 | with ids belonging to one platform, a platform's row is revoked exactly when a later revoke names it |
| Installs.SupersededRevokeIgnored | apps/dashboard/lib/ledger-client.ts:2221-2228 | revoking an id other than that of the platform's last completion leaves its row as it was |
| Installs.SharedIdEscapesRevoke | apps/dashboard/lib/ledger-client.ts:2220-2228 | an id completed on two platforms stays active on the first when it is revoked |
| Installs.SetupFromLastRow | apps/dashboard/lib/ledger-client.ts:2204-2240 | the setup fields hold what the last setup row after the platform's first completion says |
| OrderedMaps.SetGets | apps/dashboard/lib/ledger-client.ts:1124-1158 | setting a key of a Map changes what is found under that key only |
| OrderedMaps.SetKeys | apps/dashboard/lib/ledger-client.ts:1124-1158 | a key that is present keeps its place in a Map, a new one goes to the end |
| OrderedMaps.DeleteLaws | apps/dashboard/lib/ledger-client.ts:1141-1165 | deleting a key of a Map removes that key only |
| People.FoldPersonRows | apps/dashboard/lib/ledger-client.ts:1062-1202 | one object for each person ever proposed under an id, and every field of it as that person's rows tell |
| People.PersonFromHistory | apps/dashboard/lib/ledger-client.ts:1062-1202 | a person is known exactly if proposed; status, profile and receipt come from the last row of their kind, roles and identities are those the rows from the first proposal on hold and attach |
| People.TenancyIsHeld | apps/dashboard/lib/ledger-client.ts:1149-1165 | a role is held, with its grant, exactly as the last row that assigns or revokes it says |
| People.IdentitiesAreAttached | apps/dashboard/lib/ledger-client.ts:1363-1401 | an identity is listed exactly if a row since its last unlink proposes or links it; the last such proposal gives its value, else the first such link |
| People.PersonState.Apply | apps/dashboard/lib/ledger-client.ts:1110-1199 | each branch updates a known person in place as the history says |
| People.Propose | apps/dashboard/lib/ledger-client.ts:1068-1109 | a proposal replaces the object and carries grants and identities over |
| People.TopTenancyRole | apps/dashboard/lib/ledger-client.ts:1204-1220 | the loop finds the role of highest priority among the grants, none for no grants; installer outranks admin, admin member, member observer |
| People.GetPersonById | apps/dashboard/lib/ledger-client.ts:1312-1345 | folding one person's rows answers what the whole-ledger fold knows of that person; installer, admin, member or observer is shown exactly when it is held since the first proposal and none before it in that order is; the names of that role and of the position, the attached identities, the numbers of grants, and the domains owned and resources maintained are those of the rows |
| People.TopRanksFirst | apps/dashboard/lib/ledger-client.ts:1204-1217 | the role shown is the first of installer, admin, member and observer that is held, none exactly when none is |
| People.ByIdIsLookup | apps/dashboard/lib/ledger-client.ts:1312-1345 | a person's own rows give the same state as all rows |
| People.GetIdentitiesForPerson | apps/dashboard/lib/ledger-client.ts:1347-1403 | the list holds each attached identity of the person's rows, once, and nothing else |
| People.GetRolesForPerson | apps/dashboard/lib/ledger-client.ts:1440-1508 | the list holds each tenancy role the person's rows leave held, with the grant it is held by, and every domain and resource grant they ever assign |
| People.FoldsAgreeAfterProposal | apps/dashboard/lib/ledger-client.ts:1062-1508 | from the first proposal on, the three folds do the same |
| People.PersonFoldsAgree | apps/dashboard/lib/ledger-client.ts:1062-1508 | when the first row is the proposal, identities, grants and counts of the three folds agree, in order |
| People.TenancyAgreesIff | apps/dashboard/lib/ledger-client.ts:1062-1508 | whole fold and role fold show a role alike exactly when the rows before the first proposal leave it unheld or a later row touches it |
| People.IdentitiesAgreeIff | apps/dashboard/lib/ledger-client.ts:1062-1403 | key by key, whole fold and identity fold list an identity alike exactly when the rows before the first proposal leave it unlisted or a row from it on names it; and exactly when they give it one value |
| People.IdentityListsAgreeIff | apps/dashboard/lib/ledger-client.ts:1062-1403 | the ordered identities of the two folds are equal exactly when the whole fold starts with the entries that the rows before the first proposal leave listed and no later row unlinks |
| People.TenancyListsAgreeIff | apps/dashboard/lib/ledger-client.ts:1062-1508 | the same of the ordered tenancy grants |
| People.OrderCanDiffer | apps/dashboard/lib/ledger-client.ts:1062-1403 | four rows after which every identity agrees and the two lists are in opposite orders |
| MapRuns.SameRunIff | apps/dashboard/lib/ledger-client.ts:1062-1508 | the same changes made to a Map with entries and to an empty one end alike exactly when the latter starts with the entries kept of the former |
| People.GrantsAgreeIff | apps/dashboard/lib/ledger-client.ts:1062-1508 | domain and resource grants agree exactly when none is assigned before the first proposal |
| People.TenancyRoleIsTheHighestReturned | apps/dashboard/lib/ledger-client.ts:1204-1508 | the tenancy role shown is the highest-priority tenancy grant among the roles returned, none exactly when there is none |
| People.TenancyRoleIsHighestIff | apps/dashboard/lib/ledger-client.ts:1204-1508 | wherever the first proposal stands, the tenancy role shown is the highest of the roles returned exactly when no role held only before it outranks every role held since |
| People.LinkBeforeProposalIsLost | apps/dashboard/lib/ledger-client.ts:1124-1140 | a link before the proposal is listed by the separate fold and unknown to the person |
| Sampling.SampleHeights | apps/dashboard/lib/ledger-client.ts:4263-4287 | the heights ascend strictly from lo to hi, number min(max(2, pointCount), hi-lo+1), and are strides: the padding loop adds none |
| Sampling.Strides | apps/dashboard/lib/ledger-client.ts:4272-4276 | the distinct rounded strides are as many as asked for, or every height |
| Sampling.Stride | apps/dashboard/lib/ledger-client.ts:4272-4276 | rounding keeps steps of at least one apart and steps of at most one adjacent |
| Sampling.HeightIsStride | apps/dashboard/lib/ledger-client.ts:4272-4275 | in whole numbers: a height is the one nearest to its stride, the greater of two equally near |
| CompositeScore.Components | apps/dashboard/lib/ledger-client.ts:4125-4195 | each component lies in [0, 1] |
| CompositeScore.ComponentsAreTold | apps/dashboard/lib/ledger-client.ts:4125-4195 | in rows counted by their fields: allowed gates whose subject was kept out of those kept or else discarded; kept resolutions out of kept and discarded; chats, memories and kpi proposals over thirty; proposed ids that were confirmed out of those proposed; a half where there is nothing to share |
| CompositeScore.WeightsAreTold | apps/dashboard/lib/ledger-client.ts:4212-4239 | the weights at a height are the last numbers given up to it, a quarter where none is given, in proportion, and equal if they add up to nothing positive |
| CompositeScore.GatePrecision | apps/dashboard/lib/ledger-client.ts:4125-4149 | upheld allowed gates out of those a resolved experiment judges, kept before discarded, else neutral |
| CompositeScore.ProposeKeepRatio | apps/dashboard/lib/ledger-client.ts:4151-4162 | kept resolutions out of kept and discarded, else neutral |
| CompositeScore.RampDelta | apps/dashboard/lib/ledger-client.ts:4164-4173 | increments in the window over the cap, at most 1 |
| CompositeScore.ReactivityConfirmRate | apps/dashboard/lib/ledger-client.ts:4175-4195 | the share of proposed reactivity ids also confirmed, else neutral |
| CompositeScore.ResolveWeights | apps/dashboard/lib/ledger-client.ts:4212-4239 | the last weights row with any number, merged over the defaults and normalised |
| CompositeScore.WeightsSumToOne | apps/dashboard/lib/ledger-client.ts:4230-4239 | resolved weights add up to one, and none is negative if none merged is, or if the merged ones add up to nothing positive |
| CompositeScore.ScoreIsConvex | apps/dashboard/lib/ledger-client.ts:4301-4310 | with weights that are not negative the score lies between the least and the greatest component |
| CompositeScore.PointScoreIsConvex | apps/dashboard/lib/ledger-client.ts:4289-4310 | under the same condition on the weights in force at its height, a point's score is the plain weighted sum and lies within any bounds of its components |
| CompositeScore.ClampIdleIff | apps/dashboard/lib/ledger-client.ts:4230-4310 | the clamp changes no score, whatever the components, exactly when no merged weight is negative or they add up to nothing positive |
| CompositeScore.NegativeWeightNeedsClamp | apps/dashboard/lib/ledger-client.ts:4301-4310 | an override with a negative weight under which the weighted sum can be 2 |
| CompositeScore.NegativeWeightCanBeHarmless | apps/dashboard/lib/ledger-client.ts:4230-4239 | an override with a negative weight under which the defaults apply |
| CompositeScore.FindTopContributor | apps/dashboard/lib/ledger-client.ts:4197-4210 | the reactivity that fired most often in the window, ties by collation, empty exactly when none fired |
| CompositeScore.MakePoint | apps/dashboard/lib/ledger-client.ts:4289-4321 | a point's time, components, score, top contributor and seq range are those of its window |
| CompositeScore.PointIsTold | apps/dashboard/lib/ledger-client.ts:4289-4321 | a point tells of the rows at or below its height within the window before the last of them: components, weighted sum brought into [0, 1], top contributor, first and last seq |
| CompositeScore.AnchorInWindowIff | apps/dashboard/lib/ledger-client.ts:4291-4293 | the last row at or below a height is in its window exactly when windowDays is not negative |
| CompositeScore.WindowReachesHeight | apps/dashboard/lib/ledger-client.ts:4289-4320 | the window is not empty and its greatest seq is the greatest at or below the height |
| CompositeScore.AppendingAboveKeepsPoint | apps/dashboard/lib/ledger-client.ts:4289-4321 | rows appended above a height leave that height's point as it was |
| CompositeScore.GetCompositeScoreSeries | apps/dashboard/lib/ledger-client.ts:4249-4329 | no points exactly for an empty ledger; else one point for each sampled height, from the first seq to the last, each telling of the rows in its window; the weights are those in force at the end, or the defaults |
| TracePages.FiltersConjoin | apps/dashboard/lib/ledger-client.ts:671-746 | an entry is kept exactly when it passes every filter asked for, and order is kept |
| TracePages.FiltersKeepTheWanted | apps/dashboard/lib/ledger-client.ts:671-746 | the filters keep, in order, the entries that hold the texts, ids and times asked for, an empty text asking for nothing |
| TracePages.FullPage | apps/dashboard/lib/ledger-client.ts:769-801 | a full page takes the last rows below the cursor, and its cursor leaves exactly the others, whatever was appended since |
| TracePages.WalkYieldsFirstLedger | apps/dashboard/lib/ledger-client.ts:748-803 | following nextCursor while rows are appended yields the wanted entries of exactly the rows of the first fetch, newest first, and ends, on an empty fetch exactly when their number is a multiple of the page size |
| TracePages.WalkDescends | apps/dashboard/lib/ledger-client.ts:748-803 | across all pages seqs strictly descend |
| FirstKnowings.IndexRows | apps/dashboard/lib/ledger-client.ts:6021-6072 | the index pass collects the confirmed and archived references and the chat rows of the history |
| FirstKnowings.CollectPass | apps/dashboard/lib/ledger-client.ts:6091-6194 | a pass with the shared set of seen keys collects one entry for each new target and reference |
| FirstKnowings.DedupKeyInjective | apps/dashboard/lib/ledger-client.ts:6108-6155 | for the targets in use the joined key tells targets and references apart |
| FirstKnowings.GetFirstKnowings | apps/dashboard/lib/ledger-client.ts:6021-6271 | the collected entries that pass the chips, newest first, with their windows, cut to the limit; in row fields, the answer shows wanted first open rows only, and every one of them unless it is full of others no older |
| FirstKnowings.UnlimitedAnswers | apps/dashboard/lib/ledger-client.ts:6091-6271 | a gap of a named kind nobody confirmed, and a worm's proposal of a person or reactivity nobody confirmed or archived, is shown with its kind, scope, proposer, receipt and chat, once for each target and reference, and nothing else is |
| KnowingRows.SuppressedStayOut | apps/dashboard/lib/ledger-client.ts:6108-6150 | no proposal in an answer refers to what some row archives, and no entry to what some row confirms |
| KnowingRows.OnlyFirstOpenRowsEnter | apps/dashboard/lib/ledger-client.ts:6091-6194 | a row that is not open, or not the first for its target and reference, makes no entry |
| FirstKnowings.WindowIsAround | apps/dashboard/lib/ledger-client.ts:6217-6267 | the window holds the last three chat rows below the anchor and the first four from it on, each line with the fields of its row, and is empty exactly when no chat row reaches the anchor |
| FirstKnowings.AttachContexts | apps/dashboard/lib/ledger-client.ts:6217-6269 | every memoised window equals the one computed afresh |
| FirstKnowings.CollectComplete | apps/dashboard/lib/ledger-client.ts:6091-6194 | every qualifying row's target and reference are collected |
| FirstKnowings.ReturnedAreCollected | apps/dashboard/lib/ledger-client.ts:6196-6215 | what is returned are collected entries that pass the chips |
| FirstKnowings.CollectedAreReturned | apps/dashboard/lib/ledger-client.ts:6196-6271 | every collected entry that passes the chips is returned, with its context |
| FirstKnowings.QualifyingIsReturned | apps/dashboard/lib/ledger-client.ts:6091-6271 | a qualifying row's target and reference are returned if the chips let their entry pass |
| FirstKnowings.ReturnedAreGrounded | apps/dashboard/lib/ledger-client.ts:6091-6194 | each entry carries the earliest qualifying seq of its target and reference and never names a confirmed reference |
| FirstKnowings.ReturnedAreUnique | apps/dashboard/lib/ledger-client.ts:6094-6215 | no two entries share target and reference, and seqs strictly descend |
| FirstKnowings.ConfirmationRemovesItsReference | apps/dashboard/lib/ledger-client.ts:6021-6271 | appending a confirmation removes exactly the entries with its reference |
| FirstKnowings.ChatSeqsAscend | apps/dashboard/lib/ledger-client.ts:6024-6073 | the sorted chat seqs are the seqs of the chat rows, strictly ascending |
| FirstKnowings.WindowIsARun | apps/dashboard/lib/ledger-client.ts:6217-6267 | a window is a contiguous run of at most seven chat seqs, empty exactly when all are below the anchor |
| FirstKnowings.AnchorFlaggedOnce | apps/dashboard/lib/ledger-client.ts:6217-6267 | the anchor is flagged exactly once if it is a chat seq, and nothing else ever is |
| LakeActivity.GetRecentLakeActivity | apps/dashboard/lib/lake-overview.ts:463-512 | the capped merge of the fetched axes, which is the merge of the whole tables when all times are present; the cap lies between 1 and 200 |
| LakeActivity.NewestIsTold | apps/dashboard/lib/lake-overview.ts:463-512 | the merge is the newest rows of all axes that did not fail, newer first, equally new ones by axis and then by place in the table, each with the fields of its row, and no row left out would come before any of them |
| LakeActivity.TruncatedMergeIsExact | apps/dashboard/lib/lake-overview.ts:463-512 | taking k of each axis, concatenating, stable-sorting and taking k loses nothing, ties included, if every axis has all its times, or none, or fits in k |
| LakeActivity.OneAxisIsExactIff | apps/dashboard/lib/lake-overview.ts:119-126 | were times nullable, one axis with times after the epoch would be cut exactly under that condition |
| LakeActivity.RunNeedsOnlyTop | apps/dashboard/lib/lake-overview.ts:474-480 | in a sorted run what comes after its first k elements changes nothing |
| LakeActivity.NullTimeBreaksTruncation | apps/dashboard/lib/lake-overview.ts:119-126 | were times nullable, a null time read as the epoch would make the two merges differ |
| DecisionChain.SelectChainSteps | apps/dashboard/lib/decision-chain.ts:118-216 | each slot holds the row meeting its tight link, else, marked inferred, the greatest-seq row of its kind; missing lists exactly the empty slots in order; the tight row is the first listed, and for rows in descending seq the greatest |
| DecisionChain.SelectProcessMap | apps/dashboard/lib/decision-chain.ts:144-158 | the first process map listed that cites an evidence message, else the most recent, inferred |
| DecisionChain.SelectKpi | apps/dashboard/lib/decision-chain.ts:160-175 | the newest kpi not after the decision's time, else the most recent, inferred; an unreadable time links nothing |
| DecisionChain.SelectSource | apps/dashboard/lib/decision-chain.ts:177-196 | the first row listed for the source named first by the kpi, else the most recent, inferred |
| DecisionChain.SelectBronze | apps/dashboard/lib/decision-chain.ts:198-213 | the first bronze row listed for the source's id, else the most recent, inferred |
| DecisionChain.GetDecisionChain | apps/dashboard/lib/decision-chain.ts:396-464 | an empty decision id or a failed query gives the not-found chain, else the chain of the rows, also stated in the fields of the rows; for rows in text order it is the newest exactly when the first row listed for each link has no fewer digits than any other wanted |
| DecisionChain.ListedIsTold | apps/dashboard/lib/decision-chain.ts:118-216 | in row fields: the decision recorded under the id, a map with a step among its evidence, a kpi at or before the decision's time, the kpi's first source, that source's bytes; where none is linked the newest of the kind, inferred; the kinds without a row are missing, in order |
| DecisionChain.NewestIsTold | apps/dashboard/lib/decision-chain.ts:118-216 | the same of the newest chain, where every linked row is the newest linked |
| DecisionChain.NewestIffFirstsAreLongest | apps/dashboard/lib/decision-chain.ts:118-216 | that condition, for any chain by listing |
| DecisionChain.ForemostIsGreatestIff | apps/dashboard/lib/decision-chain.ts:414-434 | in text order the first row listed of those wanted is the newest exactly when no other has more digits |
| DecisionChain.HeadIsGreatest | apps/dashboard/lib/decision-chain.ts:331-336 | the head of the descending sort has the greatest seq |
| DecisionChain.RecentBeforePicks | apps/dashboard/lib/decision-chain.ts:338-349 | the pick is the greatest-seq row of the kind not after the cutoff, none exactly when there is none |
| DecisionChain.EvidenceFinds | apps/dashboard/lib/decision-chain.ts:312-329 | the pick is the first process map listed that cites an evidence id, none exactly when there is none |
| DecisionChain.EvidencePicks | apps/dashboard/lib/decision-chain.ts:312-329 | for rows in descending seq it is the greatest-seq one |
| DecisionChain.ListedIsNewest | apps/dashboard/lib/decision-chain.ts:118-216 | for rows in descending seq the chain by listing is the chain by seq |
| DecisionChain.BronzeSharesItsSource | apps/dashboard/lib/decision-chain.ts:198-213 | a bronze step that is not inferred has the source step's source id |
| DecisionChain.ChainIsDetermined | apps/dashboard/lib/decision-chain.ts:118-216 | for rows in descending seq the stated law admits only one chain |
| DecisionChain.TextOrderDescendsIff | apps/dashboard/lib/decision-chain.ts:414-434 | rows in descending text order of their seqs are in descending seq exactly when digit counts never increase along them |
| DecisionChain.TextOrderChoosesTheOlder | apps/dashboard/lib/decision-chain.ts:414-434 | 9 comes before 10 in that order, and the older of two decisions is the one listed first |
| Sequences.TextOrderOfEqualLength | apps/dashboard/lib/decision-chain.ts:414-434 | among seqs with equally many digits text order is numeric order |
| LifecycleRows.RunKeyInjective | apps/dashboard/lib/ledger-client.ts:4613-4613 | two rows never share a generated run id |
| DataProducts.FoldDataProductRows | apps/dashboard/lib/ledger-client.ts:4574-4651 | products, runs and consumption are those of the history, one object for each proposed product, one run for each generation and one consumption for each use |
| DataProducts.RunsAreTold | apps/dashboard/lib/ledger-client.ts:4605-4627 | each run has the fields of its row, in order, with the generated id, worm, empty hash and no duration where the row gives none |
| DataProducts.ConsumptionsAreTold | apps/dashboard/lib/ledger-client.ts:4638-4648 | each consumption has the fields of its row, in order, under the generated id |
| DataProducts.ProductGrows | apps/dashboard/lib/ledger-client.ts:4586-4648 | the product read off the history and the rows applied one by one agree |
| DataProducts.LastRunIsLastGeneration | apps/dashboard/lib/ledger-client.ts:4613-4627 | the last run recorded for an id, known or not, is its last generation |
| DataProducts.ContentsAreTheLastRuns | apps/dashboard/lib/ledger-client.ts:4591-4636 | a content hash is that of the last recorded run; it is missing exactly when there is no run or a proposal came after it; generated implies time and hash are set |
| DataProducts.RunIdsDistinct | apps/dashboard/lib/ledger-client.ts:4613-4627 | rows with distinct seqs never make two runs with one id |
| Notebooks.FoldNotebookRows | apps/dashboard/lib/ledger-client.ts:4893-4973 | notebooks and runs are those of the history, one object for each proposed notebook, one run for each row that ran a notebook |
| Notebooks.RunsAreTold | apps/dashboard/lib/ledger-client.ts:4925-4946 | each run has the fields of its row, in order, with the generated id, ok and worm where the row gives none |
| Notebooks.NotebookState.Apply | apps/dashboard/lib/ledger-client.ts:4949-4969 | each branch updates a known notebook in place, owner defaults included |
| Notebooks.NotebookGrows | apps/dashboard/lib/ledger-client.ts:4900-4971 | the notebook read off the history and the rows applied one by one agree |
| Notebooks.LatestRunIsLastRecorded | apps/dashboard/lib/ledger-client.ts:4904-4954 | a latest run id is that of the last recorded run; it is missing exactly when there is none or a proposal came after it |
| Notebooks.RecordedIffRan | apps/dashboard/lib/ledger-client.ts:4925-4946 | a run id is recorded for a notebook exactly when some row ran the notebook under it |
| Notebooks.PublishedIsRecordedIff | apps/dashboard/lib/ledger-client.ts:4925-4964 | a notebook shows as published what its last publication since its last proposal names, and that is recorded for it exactly when some row ran it under that run id |
| Notebooks.AlwaysRecordedIffDisciplined | apps/dashboard/lib/ledger-client.ts:4900-4971 | it is so after every part of a history exactly when every publication of a known notebook names a run of it recorded earlier |
| Notebooks.PublishedRunMayBeUnrecorded | apps/dashboard/lib/ledger-client.ts:4955-4964 | a notebook published under a run id that no row ever ran |
| KnowledgeRamp.FoldSparkline | apps/dashboard/lib/ledger-client.ts:487-505 | each bucket of the array counts the rows of its minute, the last one also those from the future |
| KnowledgeRamp.BucketOf | apps/dashboard/lib/ledger-client.ts:490-504 | a row inside the window belongs to exactly one bucket, so the clamp never moves a row |
| KnowledgeRamp.EveryRowIsCountedOnce | apps/dashboard/lib/ledger-client.ts:487-505 | the buckets add up to the number of rows inside the window |
| Orchestrator.ExecuteBeat | scripts/demo-orchestrator.py:771-918 | commands, attempts, path, success and error of a beat are those of climbing its ladder against the environment |
| Orchestrator.Recover | scripts/demo-orchestrator.py:827-893 | the declared recovery issues its commands, names its attempts and succeeds exactly as the middle of the ladder |
| Orchestrator.FallBack | scripts/demo-orchestrator.py:895-918 | the wire replay is tried once, and its failure halts the beat with an error |
| Orchestrator.BeatIsLawful | scripts/demo-orchestrator.py:771-918 | whatever the environment answers: nothing after a success, at most two live runs, the second only after a restart that worked, one wire replay and only last, giving up only after it failed |
| Orchestrator.OnlyOneLawfulAscent | scripts/demo-orchestrator.py:771-918 | that law leaves each environment only one sequence of commands and one path |
| Orchestrator.ClimbConcat | scripts/demo-orchestrator.py:827-918 | recovery and fallback climb as one ladder |
| Orchestrator.RunScenario | scripts/demo-orchestrator.py:1026-1171 | the run over all plans, exit status 0 exactly when the report passes, 1 otherwise, 2 for an unloadable scenario; a beat is skipped exactly when it is flagged, skipping is on and an install was found; the slices of executed beats are removed |
| Orchestrator.SkipsAreRight | scripts/demo-orchestrator.py:1052-1108 | only a present install skips, an absent or unclear one skips nothing; exactly the flagged beats are skipped, with a reason that holds the install's id, or stands for one that is absent or empty |
| Orchestrator.RunBeats | scripts/demo-orchestrator.py:1095-1139 | the loop yields the run over the plans and stops after a failed beat |
| Orchestrator.RunReport.Passed | scripts/demo-orchestrator.py:180-182 | a report passes exactly when every reported beat succeeded |
| Orchestrator.RunIsAligned | scripts/demo-orchestrator.py:1097-1139 | outcomes line up with a prefix of the plans, all but the last succeeded, exactly the flagged plans are skipped and only when skipping, halted exactly when failed, after a wire replay |
| Orchestrator.PassesIffAllPlansDo | scripts/demo-orchestrator.py:1164-1171 | the report passes exactly when every plan has a successful outcome |
| Orchestrator.EveryBeatIsLawful | scripts/demo-orchestrator.py:1097-1139 | the log of a run is the logs of its beats, each lawful, and each outcome reports its own beat's log |
| Orchestrator.RunBudget | scripts/demo-orchestrator.py:771-918 | at most two live runs a beat, and one wire replay for exactly the beats that end on it or halt |
| Orchestrator.NewSkippedOutcome | scripts/demo-orchestrator.py:1002-1023 | a skipped beat succeeds with the one attempt, path and reason of a skip |

## Left out

- Postgres, HTTP, docker, make, subprocess calls, file contents and logging: query results and command outcomes are inputs or answers of the environment, and `DISTINCT ON` and the tool filters are taken as done.
- The probe for an existing install (scripts/demo-orchestrator.py:351-480): its state is an input. An exception out of a command, such as the 180-second timeout of the watchdog's restart, is not part of this model.
- Floating point: scores, costs and times are exact, and so is the sum that is printed with four decimals; `toFixed` of numbers from 10^21 on is not modelled.
- `Date.parse` of malformed strings: a time is a number, or absent where the code tells NaN apart.
- Text order: Postgres collation is modelled for digits only, and `localeCompare` is a parameter where the top contributor and the order of installs need it; the final sorts by id of people, products and notebooks are left out.
- The `LIMIT 1000` and `LIMIT 5000` caps of the chain queries, the 100-row cap of the sparkline query, and the seqs beyond 2^53 that `Number` cannot hold: results are stated below the caps.
- Fixture rows: where a fetch is empty the code answers with demo data, which the trace model marks as such and does not describe.
- CursedCsv.RenderCsv: gives the text and not its Windows-1252 bytes, in which a character outside that code page is replaced; the generator of the rows is replaced by arbitrary lists of strings.
- CursedCsv.RoundTrip: the reader accepts any character other than comma, quote, CR and LF outside quotes, where RFC 4180 lists printable ASCII, because the printer does not restrict fields either.
- Names, labels and one-line summaries rendered for people: installer names, the summaries and the domain of first-knowings, the summaries and links of decision steps, run and product fields copied through unread; the source, owner and classification of a receipt, which are its proposer and constants.
- Installs.GetInstalls: does not resolve installer names from the people projection.
- FirstKnowings.GetFirstKnowings: does not render the summary text; the arguments of the matching execute row are read for the scope only.
- LakeActivity.GetRecentLakeActivity: does not give the drill-in link of a row.
- LakeActivity.OneAxisIsExactIff: stated for one axis where the code merges eight, because the schema rules null times out and the merge of all eight is exact.
- DecisionChain.SelectChainSteps: does not give the summaries and links of the steps.
- Orchestrator.ExecuteBeat: does not record start and finish times, nor the diagnosis between attempts, which no branch reads.
- The lake axis accessors, agents, subscriptions, connectors and the pages: row mapping and case tables that would add only easy members.
