# FidusGate: verified models

FidusGate is a gateway between software agents and the tools of a workspace. This
project models the parts of it that decide: the consensus protocol on the shared JSON
store and the lock file under it, the Cedar-like policy engine, the auditor of shell
commands, the hash chain of audit receipts, and five smaller cores (path
canonicalization and the jail around the workspace, the line patcher, the quarantine
counters, the token ledger and the similarity score). Each module is one component:

- `JsonStoreLock`, `PendingActions`, `ConsensusProtocol`, `ConsensusGrants`, `ConsensusQueue`,
  `ConsensusOverLock`, `ConsensusUnlocked`, `ConsensusStale`: the store. `PendingActions` holds the
  store's routines as methods over a list field. The protocol is a state machine: handlers read a
  snapshot, decide, and their writes are committed later in any order; `ConsensusGrants` says which
  executions it lets through and `ConsensusQueue` how many pending actions a command can have. The
  lock is a second state machine over its file-system calls. `ConsensusOverLock` puts the first on
  top of the second and proves that every run of the combination is matched by a run of the
  protocol; `ConsensusUnlocked` adds the writes that take no lock, and `ConsensusStale` the locks
  that are broken.
- `CedarLexer`, `CedarLiterals`, `CedarParser`, `CedarRoundTrip`, `CedarGlob`, `CedarEngine`,
  `CedarPolicy`: the policy engine, from the texts of the conditions to the decision of four engines.
- `ShellWords`, `CommandAuditor`: splitting command lines into words and the recursive audit.
- `ReceiptChain`, `RelativePath`, `WorkspaceJail`, `LinePatch`, `Quarantine`, `TokenLedger`,
  `TermVectors`: one module for each of the other cores.
- `Text`, `Wrappers`: string operations and result types they share.

Signatures and hashes are parameters: `Keys` is a sign and verify pair for each role, of
which only "what is signed verifies" is assumed; `Hash` is any function, and collision
freedom is an assumption of the two lemmas that need it.

`dafny verify dfyconfig.toml` checks the whole project.

Some things that the code's comments, messages or structure suggest do not hold of it. The lemmas
named give a run or an input that shows this, and the exact condition under which they do hold:

- Only pending actions gain approvals: `ExpiredActionCanGainApproval`, `LateApprovalIff`.
- One consensus grants one execution: neither of the two handlers that run a command keeps to it
  (`OneConsensusGrantsThrice`, `LateVoteGrantsAgain`, `GrantedAgainIff`).
- A command has one pending action: not when two requests look before either stores its action
  (`TwoQueued`, `SecondActionIff`).
- The lock excludes other processes: not when it is held for more than ten seconds
  (`StaleLockLosesUpdate`, `EntersBesideIffStale`). Then an action can even be completed without its
  votes (`CompletedWithOneVote`, `CommitsBesideIffStale`), but only after a rename that overwrites a
  list it was not made from (`OnlyLateRenamesBreakConsensus`).
- A reset of the database removes what was stored: not for a call that has already read the list
  (`ResetIsUndone`, `ResetUndoneIff`). The reset takes no lock.
- What is stored stays until a reset: not if something outside removes the file, which the store
  creates on startup; then the first reader's empty list can replace it (`SeedLosesAction`,
  `NothingDisappearsIff`).
- A rule that cannot be used denies: not one whose condition cannot be read, which is left out
  (`ForbidIsLeftOut`, `LeavingOutMattersIff`, `FailingClosedDiffersIff`).
- A command rejected for its toolchain can be run through the suggested sandbox wrapper: never
  (`SuggestedFixIsRefused`, `SuggestedFixForGoIsRefused`).
- The suggestion to append `--ignore-scripts` repairs the npm command it is given for
  (`SuggestedFlagDoesNotHelp`, `SuggestedFlagHelpsIff`).
- A range patch keeps the lines outside the range: not over the length cap of the write
  (`CapCutsLineOutsideRange`, `RangePatchIsLocal`).
- A path resolved for a target that does not exist is where a write to it lands: only where no
  component of it is a link (`DanglingLinkLeadsOutside`, `WriteLandsInsideIff`, `ResultIsLinkFreeIff`).
- The receipts of a new store verify: not with the seed receipts in it (`SeededListNeverVerifies`,
  `VerdictOfStart`).

## Model

| member | source | states |
|---|---|---|
| `JsonStoreLock.MutualExclusion` | packages/database/src/index.ts:123-185 | for any number of processes and any interleaving of create, stat, read, write, rename, look and unlink steps, at most one process is between taking the lock and giving it back, if no waiting process ever finds the lock stale |
| `JsonStoreLock.ReadersSeeCommittedStates` | packages/database/src/index.ts:167-185 | under the same assumption a reader without the lock always finds the fold of the modify functions in lock order: all of them, or all but the one whose process is still inside |
| `JsonStoreLock.QuiescentFileIsFold` | packages/database/src/index.ts:159-185 | when nobody is inside, the lock is free and the file is the fold of every modify function that ever got the lock: no update is lost |
| `JsonStoreLock.UnlinksOwnLock` | packages/database/src/index.ts:151-157 | the unconditional unlink on release removes the releasing process's own lock file, never another's |
| `JsonStoreLock.HolderReleases` | packages/database/src/index.ts:151-185 | no deadlock: from every reachable state the holder can give the lock back by at most five steps of its own |
| `JsonStoreLock.TimesOutOnlyAfterLimit` | packages/database/src/index.ts:124-149 | a call fails with the timeout error only more than 5000 ms after the step with which it began |
| `JsonStoreLock.WaitingSince` | packages/database/src/index.ts:123-149 | a waiting call still has the modify function and the start time of the step with which it began, and has neither read nor written since |
| `JsonStoreLock.StepKeepsInv` | packages/database/src/index.ts:123-185 | every step, save a look that finds the lock stale, keeps: one process inside exactly when the lock file exists, and what the holder read is still what the file holds |
| `JsonStoreLock.RunKeepsInv` | packages/database/src/index.ts:123-260 | the same after every run in which no waiting process finds the lock stale |
| `JsonStoreLock.StaleLockAdmitsSecond` | packages/database/src/index.ts:132-138 | a run in which the 10 s stale rule lets a second process in beside a paused holder |
| `JsonStoreLock.StaleLockLosesUpdate` | packages/database/src/index.ts:132-185 | ... and one of the two increments is lost: the assumption above is needed |
| `JsonStoreLock.EntersBesideIffStale` | packages/database/src/index.ts:132-147 | in every state with at most one process inside, a refused waiter gets in beside the holder by steps of its own, while the clock stands still, if and only if the lock file is older than the limit |
| `JsonStoreLock.StaleLockIsBroken` | packages/database/src/index.ts:132-138 | ... by three steps: it looks at the age, removes the lock file and creates its own |
| `PendingActions.IndexOf` | packages/database/src/index.ts:1123-1124 | `find` by id: the first action with the id, none before it |
| `PendingActions.PendingActionStore.constructor` | packages/database/src/index.ts:963-975 | a store without actions |
| `PendingActions.PendingActionStore.Find` | packages/database/src/index.ts:1123-1124 | the loop finds that index |
| `PendingActions.PendingActionStore.Voted` | packages/database/src/index.ts:1127-1130 | the loop is true exactly when the role or the approver has voted |
| `PendingActions.PendingActionStore.Create` | packages/database/src/index.ts:991-1047 | puts one pending action without approvals in front, with two votes and an hour where none are given |
| `PendingActions.PendingActionStore.AddConsensusApproval` | packages/database/src/index.ts:1119-1156 | the new list is `AddApproval` of the old one; the three outcomes (unknown, duplicate, recorded) exactly when they occur |
| `PendingActions.PendingActionStore.ExpirePendingAction` | packages/database/src/index.ts:1173-1182 | sets the status of the first action with the id and nothing else |
| `PendingActions.PendingActionStore.AdminOverrideAction` | packages/database/src/index.ts:1200-1209 | sets the override flag of the first action with the id and nothing else |
| `PendingActions.PendingActionStore.CompleteAction` | packages/database/src/index.ts:1227-1236 | sets the status of the first action with the id and nothing else |
| `ConsensusProtocol.ConsensusSafety` | packages/database/src/index.ts:1119-1156 | in every interleaving of snapshots and later commits, an approved or completed action has at least its required votes (two or more), by distinct roles and distinct people, none of them the initiator |
| `ConsensusProtocol.DangerousNeedsAllRoles` | apps/secure-gateway/src/index.ts:1289-1298 | a dangerous action that was approved or completed has exactly one approval of each of the three roles |
| `ConsensusProtocol.OverriddenBeforeFirstApproval` | apps/secure-gateway/src/index.ts:2837-2852 | ... and at an earlier moment of the run it was already overridden while it had no approval |
| `ConsensusProtocol.ApprovalsAlwaysVerify` | apps/secure-gateway/src/consensus-attestation.ts:95-122 | for every action of every run the cryptographic check before execution succeeds exactly when there are approvals: all stored ones verify against the action's id, command and creation time |
| `ConsensusProtocol.ActionsEvolve` | packages/database/src/index.ts:1119-1237 | between any two moments of a run an action keeps id, command, times, initiator, rating and vote count, only gains approvals, never returns to pending, and becomes approved only from pending |
| `ConsensusProtocol.RefusedApprovalIsNoOp` | apps/secure-gateway/src/index.ts:2837-2862 | a request that failed any check on its snapshot leaves the list unchanged whenever it is committed |
| `ConsensusProtocol.PassedApprovalIsRecorded` | apps/secure-gateway/src/index.ts:2837-2862 | one that passed them all, committed at once, adds exactly this vote to exactly this action and approves it exactly at the required number |
| `ConsensusProtocol.UpdatesTouchTarget` | packages/database/src/index.ts:1122-1236 | with distinct ids an approval, a status change and an override reach exactly the actions with their id; an approval adds one vote and may approve, and every other field stays |
| `ConsensusProtocol.LateApprovalIff` | apps/secure-gateway/src/index.ts:2845-2862 | over every run from a snapshot on which a request passed all its checks: its commit gives an approval to an action that is no longer pending if and only if its own action has left the pending state by then and neither role nor person has voted on it since |
| `ConsensusProtocol.ExpiredActionCanGainApproval` | packages/database/src/index.ts:1140-1144 | a run in which an expired action gains an approval: "only pending actions gain approvals" does not hold |
| `ConsensusProtocol.ExecutionOutcome` | apps/secure-gateway/src/index.ts:1236-1298 | in every reachable state an execution asks to complete an approved action for its command where there is one, and otherwise to create exactly one pending action exactly when the command is gated or insecure, not locked and not queued on its snapshot |
| `ConsensusProtocol.ExpiryRequestsMean` | apps/secure-gateway/src/cron-worker.ts:13-18 | the sweep asks to expire exactly the pending actions whose time is over |
| `ConsensusProtocol.StepKeepsInv` | packages/database/src/index.ts:991-1237 | every handler step and every commit keeps the invariant, and every action evolves only as allowed |
| `ConsensusProtocol.CommitKeepsInv` | packages/database/src/index.ts:1119-1237 | the same for one commit of a request whose checks were made on an older list |
| `ConsensusProtocol.RunKeepsInv` | packages/database/src/index.ts:991-1237 | the invariant after every run |
| `ConsensusProtocol.FirstFor` | apps/secure-gateway/src/index.ts:1237-1240 | the action returned matches and no action before it does; none exactly when none matches |
| `ConsensusGrants.EveryGrantHasQuorum` | apps/secure-gateway/src/index.ts:1236-1254 | whenever a run lets a command run, by the execute endpoint or by the approve handler after its own commit, the action has its votes by distinct roles and people other than the initiator, they verify, and a dangerous one was overridden and has all three roles |
| `ConsensusGrants.GrantedAgainIff` | apps/secure-gateway/src/index.ts:1236-1254 | over every run from a state in which an action is approved, for every later step: it lets the action's command run on that consensus exactly if no completion and no expiry of the action was committed since, and the step is either an execute request for the command, not locked out, with no newer approved action in front, or the commit of a vote on the action by a role and a person that have not voted, for a command that the auditor lets pass |
| `ConsensusGrants.LateVoteGrantsAgain` | apps/secure-gateway/src/index.ts:2934-2990 | a run without any execute request in which the commits of two approvers, who both saw the action pending, let it run twice |
| `ConsensusGrants.ApprovedUntilWithdrawn` | packages/database/src/index.ts:1158-1236 | over every run an approved action stays approved until a completion or an expiry of it is committed, and then never is again |
| `ConsensusGrants.OneConsensusGrantsThrice` | apps/secure-gateway/src/index.ts:2934-2990 | a run in which the commit of the last approval and two execute requests let one approved command run three times |
| `ConsensusQueue.SecondActionIff` | apps/secure-gateway/src/index.ts:1264-1280 | from a state in which committing what is in flight cannot lead to two pending actions for a command: after a step it can if and only if the step is an execute request that asks for a new action for the command while another creation for it, under another unused id, is in flight |
| `ConsensusQueue.DoublesIff` | packages/database/src/index.ts:991-1047 | commits alone lead from a reachable state to two pending actions for a command exactly if two ids are pending or asked for |
| `ConsensusQueue.OnePendingEach` | apps/secure-gateway/src/index.ts:1264-1274 | in every run without such a step a command has at most one pending action |
| `ConsensusQueue.QueuesIff` | apps/secure-gateway/src/index.ts:1256-1290 | an execute request asks for a new action exactly if it is not locked out, its command is gated or insecure, and its snapshot has no approved and no pending action for it |
| `ConsensusQueue.TwoQueued` | apps/secure-gateway/src/index.ts:1264-1274 | a run in which two execute requests look before either is stored, and the command has two pending actions |
| `ConsensusOverLock.RunRefinesProtocol` | packages/database/src/index.ts:167-185 | refinement: for every run in which commits go step by step through the lock file, no waiting process finds the lock stale, the file is there at the start and the database is not reset, a run of the protocol with atomic commits ends with the list then in the file |
| `ConsensusOverLock.NothingDisappearsIff` | packages/database/src/index.ts:963-975 | until the database is reset, in every run in which no waiting process finds the lock stale, every stored action stays in the file, evolved as allowed, exactly when the file is there at the start: a reader that finds none, because something outside removed it, writes an empty list without the lock |
| `ConsensusOverLock.StoredActionsStay` | packages/database/src/index.ts:159-185 | with the file there at the start, no reset and no lock found stale, whatever was stored after some steps is stored at the end |
| `ConsensusOverLock.SeedLosesAction` | packages/database/src/index.ts:966-968 | with the file removed from outside: a run in which that unlocked write removes an action stored under the lock |
| `ConsensusOverLock.RenameCommits` | packages/database/src/index.ts:159-165 | the rename puts into the file exactly what the held request makes of the list in the file at that moment |
| `ConsensusOverLock.OnlyRenameWrites` | packages/database/src/index.ts:159-185 | apart from the two writes that take no lock, no other step changes the list |
| `ConsensusUnlocked.StoredActionsAreSafe` | packages/database/src/index.ts:1122-1146 | consensus safety at the file system: at every moment of every run in which no waiting process finds the lock stale, unlocked readers, unlocked first writes and unlocked resets included, approved actions in the file have verified votes of distinct roles and people, and dangerous ones all three roles |
| `ConsensusUnlocked.StepKeepsSafe` | packages/database/src/index.ts:159-185 | every step, the unlocked writes included, save a look that finds the lock stale, keeps the invariant for the list in the file and for the list that the process inside has read |
| `ConsensusUnlocked.ResetUndoneIff` | packages/database/src/index.ts:1522-1523 | after a reset of the database a call can put a removed action back by file-system steps of its own if and only if the list was not empty and some call had read it and not yet renamed |
| `ConsensusUnlocked.ResetIsUndone` | packages/database/src/index.ts:1522-1523 | a run in which a reset comes between the read and the rename of an override, and the action is back |
| `ConsensusStale.OnlyLateRenamesBreakConsensus` | packages/database/src/index.ts:132-185 | consensus safety whatever locks are found stale and broken: in every run in which each rename commits its request to the list then in the file, approved and completed actions in the file have their votes |
| `ConsensusStale.CommitsBesideIffStale` | packages/database/src/index.ts:132-165 | in every state of a run in which so far no lock was found stale: a refused call whose request changes the list can commit it beside the call that holds the lock, by steps of its own while the clock stands still, if and only if the lock is older than ten seconds |
| `ConsensusStale.LateRenameUndoes` | packages/database/src/index.ts:159-165 | the rename of the call that was inside before then leaves the list as if that commit had not been made |
| `ConsensusStale.CompletedWithOneVote` | packages/database/src/index.ts:132-165 | a run from an empty store: an override is paused, its lock is broken, the second vote approves the action and an execution is granted, the late rename removes the vote, and the action is completed with one vote of two |
| `CedarLexer.Tokenize` | apps/secure-gateway/src/cedar-evaluator.ts:122-204 | the scanning loop computes the token list; it refuses a condition over 32 KiB and stops making progress exactly where the specification says |
| `CedarLexer.ScanBrackets` | apps/secure-gateway/src/cedar-evaluator.ts:174-183 | the inner loop ends behind the bracket that closes the first one |
| `CedarLexer.ScanString` | apps/secure-gateway/src/cedar-evaluator.ts:184-193 | the inner loop ends behind the closing quote; a backslash skips a character |
| `CedarLexer.ScanWord` | apps/secure-gateway/src/cedar-evaluator.ts:194-201 | the inner loop ends at the first stop character |
| `CedarLexer.LexEndsIffNoLone` | apps/secure-gateway/src/cedar-evaluator.ts:122-204 | the scan of a text ends exactly without a lone ampersand, bar or closing bracket outside literals and brackets |
| `CedarLexer.ScanEndsIff` | apps/secure-gateway/src/cedar-evaluator.ts:122-204 | the tokenizer throws exactly over the length limit, and runs on for ever exactly within it on a lone ampersand, bar or closing bracket |
| `CedarLexer.TokensKeepText` | apps/secure-gateway/src/cedar-evaluator.ts:122-204 | the tokens put together are the condition with only the whitespace outside literals and brackets removed |
| `CedarLiterals.LiteralReadBack` | apps/secure-gateway/src/cedar-evaluator.ts:225-239 | a literal written as JSON is read back as the same literal |
| `CedarLiterals.StringReadBack` | apps/secure-gateway/src/cedar-evaluator.ts:225-239 | a quoted string is read back whatever follows it |
| `CedarLiterals.ListReadBack` | apps/secure-gateway/src/cedar-evaluator.ts:281-285 | an array of strings is read back |
| `CedarParser.Parser.constructor` | apps/secure-gateway/src/cedar-evaluator.ts:209-210 | the index starts at the first token |
| `CedarParser.Parser.ParseOrAt` | apps/secure-gateway/src/cedar-evaluator.ts:241-249 | with the shared index: result and remaining tokens are those of the grammar, or an error exactly where it errs |
| `CedarParser.Parser.OrChainAt` | apps/secure-gateway/src/cedar-evaluator.ts:243-247 | the loop reads the rest of a chain, associating to the left |
| `CedarParser.Parser.ParseAndAt` | apps/secure-gateway/src/cedar-evaluator.ts:251-259 | the same for a chain of and |
| `CedarParser.Parser.AndChainAt` | apps/secure-gateway/src/cedar-evaluator.ts:253-257 | the loop reads the rest of a chain, associating to the left |
| `CedarParser.Parser.ParsePrimaryAt` | apps/secure-gateway/src/cedar-evaluator.ts:261-279 | the same for one operand |
| `CedarParser.Parser.ParseTestAt` | apps/secure-gateway/src/cedar-evaluator.ts:277-333 | the same for a path and the test on it, operator by operator with the shared index |
| `CedarParser.Parser.Consume` | apps/secure-gateway/src/cedar-evaluator.ts:216-223 | takes the next token; nothing at the end |
| `CedarParser.Parser.InAt` | apps/secure-gateway/src/cedar-evaluator.ts:281-285 | operator and list, or an error exactly where the grammar errs |
| `CedarParser.Parser.EqualsAt` | apps/secure-gateway/src/cedar-evaluator.ts:286-289 | operator and literal, or the id behind an entity type |
| `CedarParser.Parser.CompareAt` | apps/secure-gateway/src/cedar-evaluator.ts:290-309 | a comparison with a number |
| `CedarParser.Parser.LikeAt` | apps/secure-gateway/src/cedar-evaluator.ts:310-314 | operator and pattern |
| `CedarParser.Parser.HasAt` | apps/secure-gateway/src/cedar-evaluator.ts:315-318 | operator and property |
| `CedarParser.Parser.CallOrAttributeAt` | apps/secure-gateway/src/cedar-evaluator.ts:319-333 | what follows a path that has no operator |
| `CedarParser.Parser.ContainsAt` | apps/secure-gateway/src/cedar-evaluator.ts:319-325 | a call of contains, with both parentheses |
| `CedarParser.RestIsSuffix` | apps/secure-gateway/src/cedar-evaluator.ts:277-333 | the operand routines only drop tokens from the front |
| `CedarRoundTrip.RoundTrip` | apps/secure-gateway/src/cedar-evaluator.ts:122-337 | printing any writable syntax tree with minimal parentheses, in any layout that keeps tokens apart, then tokenizing and parsing, returns the tree exactly when the text is within the tokenizer's 32 KiB: and binds tighter than or, both associate left, `!` takes one operand |
| `CedarRoundTrip.ScanRender` | apps/secure-gateway/src/cedar-evaluator.ts:122-204 | any such layout of a token list tokenizes to that list, or is refused for its length |
| `CedarRoundTrip.OrReadBack` | apps/secure-gateway/src/cedar-evaluator.ts:241-249 | a chain of or inside a larger token list is read back up to where it ends |
| `CedarRoundTrip.AndReadBack` | apps/secure-gateway/src/cedar-evaluator.ts:251-259 | the same for a chain of and |
| `CedarRoundTrip.PrimaryReadBack` | apps/secure-gateway/src/cedar-evaluator.ts:261-333 | the same for one operand |
| `CedarRoundTrip.PrintingIsInjective` | apps/secure-gateway/src/cedar-evaluator.ts:122-337 | two conditions printed alike, in whatever layouts, are the same condition |
| `CedarRoundTrip.EntityTypeIsDropped` | apps/secure-gateway/src/cedar-evaluator.ts:225-239 | an entity id such as `User::"alice"`, within the length limit, reads as comparison with its id alone, whatever the type |
| `CedarRoundTrip.TrailingTokensIgnored` | apps/secure-gateway/src/cedar-evaluator.ts:209-337 | a closing parenthesis behind a complete condition, and all tokens after it, are ignored |
| `CedarGlob.GlobCompilesCorrectly` | apps/secure-gateway/src/cedar-evaluator.ts:487-492 | the regular expression text built for any pattern is well formed and accepts exactly the glob language: characters stand for themselves, `*` for a run without line terminators (section 22.2 of ECMA-262) |
| `CedarGlob.RegexReads` | apps/secure-gateway/src/cedar-evaluator.ts:487-492 | the built text reads as an anchored sequence of one term for each pattern character |
| `CedarGlob.TermsDenote` | apps/secure-gateway/src/cedar-evaluator.ts:487-492 | those terms match from any position exactly what the pattern means there |
| `CedarGlob.SubstringPattern` | apps/secure-gateway/src/cedar-evaluator.ts:487-492 | `*t*` matches exactly where `t` occurs with no line terminator before or after it |
| `CedarEngine.EvaluateTSEngine` | apps/secure-gateway/src/cedar-evaluator.ts:430-468 | the early-exit loop decides `Meaning`: allow exactly when the path is canonical, no rule errs, no forbid is true and some permit is true |
| `CedarEngine.RunRules` | apps/secure-gateway/src/cedar-evaluator.ts:445-468 | the loop itself, against the function of early exit that the next rows compare |
| `CedarEngine.ScanRules` | apps/secure-gateway/src/cedar-evaluator.ts:588-608 | the full scan stops at the first rule that errs and has collected the rules that applied before it, in order |
| `CedarEngine.EvaluateSimulator` | apps/secure-gateway/src/cedar-evaluator.ts:556-631 | the full scan decides the same, after the schema check; the reported rules are those that applied before the first error |
| `CedarEngine.FourEnginesAgree` | packages/cedar-daemon/src/main.rs:185-200 | early exit and full scan, which the two methods above compute, and the daemon and the wasm wrapper give one decision from the same outcomes: allow exactly when no rule errs, no forbid is true and some permit is true |
| `CedarEngine.LibraryErrorsMean` | packages/cedar-wasm/src/lib.rs:48-54 | the diagnostics are empty exactly when no rule errs |
| `CedarEngine.RuleOrderIrrelevant` | apps/secure-gateway/src/cedar-evaluator.ts:445-468 | the decision depends only on the multiset of outcomes |
| `CedarEngine.SpellingIrrelevant` | apps/secure-gateway/src/cedar-evaluator.ts:417-443 | the decision for any spelling of a path is the decision for its canonical form |
| `CedarEngine.EscapingPathDenied` | apps/secure-gateway/src/cedar-evaluator.ts:430-434 | a path without canonical form is denied whatever the rules |
| `CedarEngine.ErrorsComeFromHas` | apps/secure-gateway/src/cedar-evaluator.ts:501-504 | without a `has` that looks into a primitive value, evaluation does not err |
| `CedarEngine.ErrsIffLooksIntoPrimitive` | apps/secure-gateway/src/cedar-evaluator.ts:494-504 | evaluation errs exactly if the tests it comes to, short circuits considered, include a `has` that looks into a primitive value, and that is the last one it comes to |
| `CedarPolicy.Parse` | apps/secure-gateway/src/cedar-evaluator.ts:90-117 | the loop over the rule blocks keeps the rules that `Loaded` states, and ends exactly without a block on whose condition the tokenizer runs on for ever |
| `CedarPolicy.LeavingOutMattersIff` | apps/secure-gateway/src/cedar-evaluator.ts:107-115 | blocks that cannot be read are left out: that allows a request which the policy as written denies if and only if the rules read grant it and a block left out was to forbid it or to err; and denies one the policy allows if and only if the rules read are silent, a block left out was to permit it, and none was to forbid it or to err |
| `CedarPolicy.FailingClosedDiffersIff` | apps/secure-gateway/src/cedar-evaluator.ts:430-468 | denying for a rule that cannot be read, as is done for one that cannot be evaluated, would decide differently exactly where the rules read grant and some block was left out |
| `CedarPolicy.WrittenIsKeptAndLeftOut` | apps/secure-gateway/src/cedar-evaluator.ts:107-115 | a verdict of the policy as written is one that the rules read give or one that a block left out was to give |
| `CedarPolicy.LongForbidIsLeftOut` | apps/secure-gateway/src/cedar-evaluator.ts:128-131 | any writable condition laid out within the length limit to permit and over it to forbid: only the permit is kept |
| `CedarPolicy.ForbidIsLeftOut` | apps/secure-gateway/src/cedar-evaluator.ts:107-131 | a policy that permits everything and then forbids everything, over the length limit, allows every request whose path is canonical |
| `CedarEngine.LikeMeansGlob` | apps/secure-gateway/src/cedar-evaluator.ts:529-532 | `like` is true exactly on the strings of its glob language |
| `CedarEngine.ContainsIsLike` | apps/secure-gateway/src/cedar-evaluator.ts:529-536 | `like "*t*"` implies `contains "t"`, and they agree on strings without line terminators |
| `CedarEngine.ComparisonsCohere` | apps/secure-gateway/src/cedar-evaluator.ts:509-528 | of `<`, `==`, `>` exactly one holds of a number and none of anything else; `<=` and `>=` are the unions; negation is not the opposite comparison on other values |
| `CedarEngine.PushingNegationsKeepsMeaning` | apps/secure-gateway/src/cedar-evaluator.ts:494-500 | De Morgan's laws hold of whole conditions, errors and short circuits included |
| `ShellWords.ParseShellCommand` | apps/secure-gateway/src/command-auditor.ts:23-76 | the loop over the characters, with its flags, computes `Words` |
| `ShellWords.WrittenLineSplits` | apps/secure-gateway/src/command-auditor.ts:23-76 | words written in any mixture of bare characters, escapes, single and double quotes, with any blanks around them, split back into the non-empty values |
| `ShellWords.QuotedLineSplitsBack` | apps/secure-gateway/src/command-auditor.ts:15-76 | non-empty words, escaped, double-quoted and joined within the length limit, split back into themselves |
| `ShellWords.EscapedReads` | apps/secure-gateway/src/command-auditor.ts:15-17 | inside double quotes the escaped form of any text reads as the text |
| `ShellWords.AppendedWord` | apps/secure-gateway/src/command-auditor.ts:34-76 | a bare word appended behind a blank is a word of its own exactly where the line ends outside quotes and escapes; elsewhere it joins the last word |
| `ShellWords.WordsFit` | apps/secure-gateway/src/command-auditor.ts:23-76 | the words and the blanks between them fit into the line |
| `CommandAuditor.NestedIsShorter` | apps/secure-gateway/src/command-auditor.ts:209-220 | a nested command is at least 30 characters shorter than its wrapper, so the recursion ends |
| `CommandAuditor.LevelPassesIff` | apps/secure-gateway/src/command-auditor.ts:93-359 | the checks of one level pass exactly the command lines that are within the limit, free of the forbidden characters and `$(`, run by an allowed binary, and allowed for it |
| `CommandAuditor.AcceptedIffEveryLevel` | apps/secure-gateway/src/command-auditor.ts:93-359 | a command line is accepted exactly when no level of it, however deep, is rejected |
| `CommandAuditor.AcceptedIffEveryLevelAllowed` | apps/secure-gateway/src/command-auditor.ts:93-359 | ... that is, exactly when every level is plain and allowed by the policy |
| `CommandAuditor.AcceptanceIsDeep` | apps/secure-gateway/src/command-auditor.ts:209-220 | acceptance implies that each nested level is itself accepted and plain, and 30 characters shorter for each wrapper |
| `CommandAuditor.UnrejectedIsPlain` | apps/secure-gateway/src/command-auditor.ts:97-147 | a level that is not rejected is plain |
| `CommandAuditor.FirstIncluded` | apps/secure-gateway/src/command-auditor.ts:118-127 | the first forbidden character in list order: it is in the text and none before it is; none exactly when there is none |
| `CommandAuditor.SandboxFixSplitsBack` | apps/secure-gateway/src/command-auditor.ts:161-169 | the suggested sandbox wrapper tokenizes back to `bash`, the script, the original command and the working directory |
| `CommandAuditor.SuggestedFlagHelpsIff` | apps/secure-gateway/src/command-auditor.ts:253-265 | the suggestion to append `--ignore-scripts` makes an npm command pass exactly when the command ends outside quotes and escapes, runs no target that is not allowed, and leaves room for the flag within 8 KiB |
| `CommandAuditor.SuggestedFlagDoesNotHelp` | apps/secure-gateway/src/command-auditor.ts:253-265 | an npm command ending in an open quote, refused with the suggested flag as without it |
| `CommandAuditor.SuggestedFixIsRefused` | apps/secure-gateway/src/command-auditor.ts:161-169 | ... but the auditor refuses that wrapper too: the command inside is audited and refused again |
| `CommandAuditor.SuggestedFixForGoIsRefused` | apps/secure-gateway/src/command-auditor.ts:161-169 | so for the command `go`: it is refused, and its wrapper too |
| `ReceiptChain.ReceiptStore.constructor` | packages/database/src/index.ts:411-430 | starts from the list in its file |
| `ReceiptChain.ReceiptStore.AddAuditReceipt` | packages/database/src/index.ts:605-622 | puts in front a receipt with the head's hash and its own hash |
| `ReceiptChain.VerifyAuditChain` | packages/crypto-utils/src/index.ts:528-559 | the loop is true exactly when the list is what appending its payloads and signatures to the empty list builds |
| `ReceiptChain.ChainMeansBuilt` | packages/crypto-utils/src/index.ts:528-559 | link by link verification and being built are the same |
| `ReceiptChain.VerifiesIffBuilt` | packages/crypto-utils/src/index.ts:528-559 | a list verifies exactly when some payloads and signatures build it, and only its own do |
| `ReceiptChain.HeadHashPinsHistory` | packages/crypto-utils/src/index.ts:528-559 | with a collision-free, never-empty hash two verifying lists with the same head hash are equal |
| `ReceiptChain.TamperingIsDetected` | packages/crypto-utils/src/index.ts:528-559 | changing any receipt under the same head hash makes verification fail |
| `ReceiptChain.VerdictOfStart` | packages/database/src/index.ts:605-622 | from any start list: the list appending leads to verifies exactly when the start list does |
| `ReceiptChain.SeededListNeverVerifies` | packages/database/src/index.ts:305-357 | a store that starts from the seed receipts, which carry no hash, never verifies, whatever is appended |
| `RelativePath.CanonicalizeRelativePath` | apps/secure-gateway/src/security-sanitize.ts:103-130 | the loop that pushes and pops segments computes `Canonical` |
| `RelativePath.CanonicalIsIdempotent` | apps/secure-gateway/src/security-sanitize.ts:103-130 | the result is made of clean segments and canonicalizes to itself |
| `RelativePath.CanonicalIsNullIff` | apps/secure-gateway/src/security-sanitize.ts:103-130 | null exactly on empty, over-long or NUL input, a prefix with more `..` than names, or as many `..` as names |
| `RelativePath.WalkCounts` | apps/secure-gateway/src/security-sanitize.ts:113-126 | the walk leaves the root exactly when a prefix climbs above it; otherwise it leaves names minus climbs |
| `RelativePath.SafeIsUnchanged` | apps/secure-gateway/src/security-sanitize.ts:132-153 | the stricter check accepts exactly the short paths of safe characters and proper names, and returns them unchanged |
| `WorkspaceJail.ResolveInsideWorkspace` | apps/secure-gateway/src/security-sanitize.ts:160-217 | with string prefix tests, the file system's walk for existence and the textual walk of `realpathSync`: computes the path that `InsideWorkspace` states by segments |
| `WorkspaceJail.ResolveMissing` | apps/secure-gateway/src/security-sanitize.ts:194-217 | the same for a target that does not exist yet |
| `WorkspaceJail.ClimbToExisting` | apps/secure-gateway/src/security-sanitize.ts:195-202 | the climb finds the nearest existing ancestor |
| `WorkspaceJail.ResolveJailedWritePath` | apps/secure-gateway/src/security-sanitize.ts:255-280 | the same for the jailed form |
| `WorkspaceJail.JailedResultIsInside` | apps/secure-gateway/src/security-sanitize.ts:255-280 | in every static tree with links a non-null result lies, segment by segment, inside the real workspace root and inside the resolved jail, and the jail is a real path where it exists |
| `WorkspaceJail.ResultIsInsideRoot` | apps/secure-gateway/src/security-sanitize.ts:160-217 | the same for the workspace alone, targets that do not exist included |
| `WorkspaceJail.InsideIsPrefix` | apps/secure-gateway/src/security-sanitize.ts:175-180 | the separator-suffixed string test is containment segment by segment |
| `WorkspaceJail.ResultIsLinkFreeIff` | apps/secure-gateway/src/security-sanitize.ts:182-217 | where the target does not exist and the file system and the textual walk agree on its nearest existing ancestor, the result runs through no link exactly if its first component below that ancestor is not there; in general exactly if the target exists or no component below the real ancestor is a link |
| `WorkspaceJail.WriteLandsInsideIff` | apps/secure-gateway/src/security-sanitize.ts:182-217 | a write to the result lands at the result if and only if no component of it is a link; wherever it lands runs through no link; and it lands inside the root exactly if the path that the loop of the next row finds is inside |
| `WorkspaceJail.ChasedFinds` | apps/secure-gateway/src/security-sanitize.ts:182-217 | a loop that resolves the directory part, looks at the last component and goes on with the text of the link finds where a write lands |
| `WorkspaceJail.DanglingLinkLeadsOutside` | apps/secure-gateway/src/security-sanitize.ts:194-213 | a tree with a link to nowhere for which the result is the link and a write to it lands outside the root |
| `WorkspaceJail.LinkFreePathIsAccepted` | apps/secure-gateway/src/security-sanitize.ts:160-217 | nothing is refused needlessly: any spelling of a link-free path below the root resolves to that path |
| `WorkspaceJail.CanonicalDenotesSamePlace` | apps/secure-gateway/src/security-sanitize.ts:103-130 | from any directory a spelling and its canonical form lead to the same path |
| `WorkspaceJail.NearestExists` | apps/secure-gateway/src/security-sanitize.ts:194-202 | the climb ends at the nearest existing ancestor |
| `WorkspaceJail.RealPathIsReal` | apps/secure-gateway/src/security-sanitize.ts:168-174 | a resolved path is a node and not a link |
| `LinePatch.PatchFile` | apps/secure-gateway/src/mcp-server.ts:335-382 | goes through exactly when the target stands in the file or range and no second, separate occurrence does, says not found exactly without one, and for a replacement without `$` writes the text with exactly that stretch changed if and only if the result fits 5,000,000 characters |
| `LinePatch.PatchLines` | apps/secure-gateway/src/mcp-server.ts:351-381 | the same for the form with line numbers: goes through exactly when the target stands once in the range, and changes exactly that stretch of the text if and only if the result fits |
| `LinePatch.PatchedIff` | apps/secure-gateway/src/mcp-server.ts:337-364 | a patch goes through exactly when its text contains the target and no second, separate occurrence |
| `LinePatch.RangePatchIsLocal` | apps/secure-gateway/src/mcp-server.ts:351-382 | what a successful patch writes keeps every line before and after the range and changes one stretch in it, if and only if the result fits 5,000,000 characters |
| `LinePatch.FullRangeIsWholeFile` | apps/secure-gateway/src/mcp-server.ts:335-382 | a range over all lines does what the whole-file form does, errors included |
| `LinePatch.WholePatchReverses` | apps/secure-gateway/src/mcp-server.ts:335-348 | patching back, by the same operation on what was written, restores the text if and only if both texts fit the cap, when the replacement occurs once, where it was put |
| `LinePatch.RangePatchReverses` | apps/secure-gateway/src/mcp-server.ts:351-382 | the same for a range, over the lines that the replacement left |
| `LinePatch.CapCutsLineOutsideRange` | apps/secure-gateway/src/mcp-server.ts:380-381 | a file of two lines in which a patch of the first line cuts off the end of the second |
| `Quarantine.IndexOf` | packages/database/src/index.ts:1408-1446 | the record of a principal, the first one |
| `Quarantine.RecordStore.constructor` | packages/database/src/index.ts:435 | no records yet |
| `Quarantine.ViolationGate.constructor` | apps/secure-gateway/src/index.ts:142 | no counters yet, over the given store |
| `Quarantine.RecordStore.FindRecord` | packages/database/src/index.ts:1408-1438 | the loop finds that record |
| `Quarantine.RecordStore.IsQuarantined` | packages/database/src/index.ts:1440-1446 | true exactly when there is an active record |
| `Quarantine.RecordStore.QuarantinePrincipal` | packages/database/src/index.ts:1408-1422 | replaces the record of the principal or puts it in front |
| `Quarantine.RecordStore.ReleaseQuarantine` | packages/database/src/index.ts:1424-1438 | releases the record; reports whether there was one |
| `Quarantine.ViolationGate.RecordPrincipalViolation` | apps/secure-gateway/src/mcp-server.ts:194-211 | counters and records change as the denial step states; refuses exactly malformed principals |
| `Quarantine.ViolationGate.ResetPrincipalViolations` | apps/secure-gateway/src/mcp-server.ts:213-220 | clears the counter of a well-formed principal only |
| `Quarantine.CounterIsStreak` | apps/secure-gateway/src/index.ts:144-166 | over every run each program's counter is the denials it has seen since the last allow modulo three, so it stays below three between calls |
| `Quarantine.OneRecordEach` | packages/database/src/index.ts:1408-1446 | at most one record for each principal |
| `Quarantine.QuarantinedIffTriggered` | apps/secure-gateway/src/index.ts:144-166 | with the counters of gateway and tool server over one list of records: an active record exists exactly when a third denial in a row at one of them, or a manual quarantine, came after the last release |
| `TokenLedger.IbpTracker.constructor` | apps/secure-gateway/src/compliance-trackers.ts:163-192 | the saved state where there is one, subagents added where they are missing, and else the default budget and nothing consumed |
| `TokenLedger.IbpTracker.RecordTokenUsage` | apps/secure-gateway/src/compliance-trackers.ts:206-210 | adds to the sprint only |
| `TokenLedger.IbpTracker.RecordSubagentTokenUsage` | apps/secure-gateway/src/compliance-trackers.ts:257-275 | adds to the subagent and the sprint; refuses exactly malformed ids |
| `TokenLedger.IbpTracker.AddTokenBudget` | apps/secure-gateway/src/compliance-trackers.ts:294-298 | extends the budget only |
| `TokenLedger.IbpTracker.ClearTasks` | apps/secure-gateway/src/compliance-trackers.ts:300-308 | clears both ledgers |
| `TokenLedger.IbpTracker.BudgetExhaustionPercentage` | apps/secure-gateway/src/compliance-trackers.ts:248-255 | below 100 the budget is kept; 100 exactly when there is no budget or it is used up |
| `TokenLedger.IbpTracker.SubagentBudgetExhaustionPercentage` | apps/secure-gateway/src/compliance-trackers.ts:277-292 | the same for a subagent; an unknown one has consumed nothing |
| `TokenLedger.LedgerBalances` | apps/secure-gateway/src/compliance-trackers.ts:206-308 | over every run tokens consumed are direct usage plus the sum over all subagents |
| `TokenLedger.SubagentWithinTotal` | apps/secure-gateway/src/compliance-trackers.ts:257-275 | no subagent has consumed more than the sprint |
| `TokenLedger.PercentageMeans` | apps/secure-gateway/src/compliance-trackers.ts:252-255 | the percentage lies in 0..100 for non-negative use and is 100 exactly when consumed is at least the budget |
| `TermVectors.GetTermFrequencyVector` | apps/secure-gateway/src/ai-firewall.ts:21-28 | the loop counts each word |
| `TermVectors.CosineSums` | apps/secure-gateway/src/ai-firewall.ts:30-46 | the loop over all words computes the dot product and the two squared norms |
| `TermVectors.FrequenciesOfMultiset` | apps/secure-gateway/src/ai-firewall.ts:21-28 | only the multiset of words matters |
| `TermVectors.SimilaritySymmetric` | apps/secure-gateway/src/ai-firewall.ts:30-46 | exchanging the maps exchanges the norms and keeps the dot product, and a number is the score of one order exactly if it is of the other |
| `TermVectors.CauchySchwarz` | apps/secure-gateway/src/ai-firewall.ts:30-46 | the squared dot product is at most the product of the squared norms, with equality exactly for proportional maps |
| `TermVectors.ScoreInUnitInterval` | apps/secure-gateway/src/ai-firewall.ts:44-45 | in exact arithmetic the score lies in [0, 1] and is 1 exactly for proportional non-empty maps |
| `TermVectors.ProportionalIff` | apps/secure-gateway/src/ai-firewall.ts:30-46 | being proportional is one multiple of each map equalling one of the other |

## Left out

- RunRefinesProtocol: the database is not reset, the file of pending actions is there at the start, and no waiting process finds the lock stale; `ConsensusUnlocked` covers the first two.
- StoredActionsAreSafe: no waiting process finds the lock stale; `ConsensusStale` covers the other runs.
- NothingDisappearsIff: no waiting process finds the lock stale.
- MutualExclusion: assumes that no waiting process ever finds the lock older than ten seconds, with reading and comparing its age as one step; crashes are outside that assumption, and `StaleLockLosesUpdate` shows why it is needed.
- ConsensusSafety: an action id is never stored twice; approval ids and timestamps are not modelled.
- RoundTrip: names are words of the lexer, an attribute or receiver does not itself spell `.contains`, strings hold no control characters, and strings inside a list hold no brackets, because the lexer counts brackets inside quotes.
- LeavingOutMattersIff: rule blocks are given with their trimmed condition; the searching for blocks in the text is not modelled.
- SecondActionIff: action ids are drawn fresh, so a creation under an id already stored is never committed.
- ErrsIffLooksIntoPrimitive: the code also throws where an operand has the wrong type, such as a number behind `like` or `in`; the model's parser rejects such conditions.
- GrantedAgainIff: the later gates of an execution that consensus has let through are not modelled.
- LiteralReadBack: the escape `\u` of JSON, objects, nested arrays and literals of the wrong type for their operator are not modelled; the model's parser rejects them where the code may build an ill-typed node.
- LevelPassesIff: lower-casing of binary names is that of ASCII letters.
- RangePatchIsLocal: the replacement has no `$` and the target is not empty; both are modelled in `PatchFile`.
- ScoreInUnitInterval: exact real arithmetic; the code rounds.
- PercentageMeans: exact division; the code divides in floating point first.
- ResolveInsideWorkspace: the file tree does not change during the call, and either walk follows at most 40 links; a textual walk that would go on for ever counts as failed.
- HeadHashPinsHistory: assumes a collision-free hash that is never the empty string, as SHA-256 is taken to be.
- The PostgreSQL branches and `/api/consensus/approve`, which has another vote threshold.
- The first writes of the budget and configuration files, and the reset of the other files, which also take no lock.
- Key files, cloud key services, and the byte encoding of payloads and receipts.
- Comment stripping and the search for rule blocks in policy text; the model starts from the blocks.
- The branch for an entity id inside one token, which no token of the lexer reaches.
- Properties inherited from built-in prototypes, principals named like built-in object properties, and arrays as context values.
- UTF-16 code units and lone surrogates: a string is a sequence of characters.
- The detour of `isAuthorized` through the wasm module, and how the Cedar library itself evaluates conditions.
- The labels and texts of the simulator's report; the model keeps the positions of the rules.
- Interleavings inside one call of `recordPrincipalViolation`; that the gateway's reset throws on a malformed principal where the tool server's does nothing.
- Routing, authentication, rate limits, web sockets, web hooks, model calls, the WASI runner, the dashboard and the keyword lists: input, output and finite tables.
