# Verification of the Nebius Python SDK's concurrency, field masks and search index

This project models the hard parts of the SDK in Dafny and proves what they guarantee.

- **Requests** (`RequestFlags`, `RequestRun`, `RequestOutcome`, `RequestCorners`, `RequestBudget`). A
  logical request is a step system: callers cancel it and let it expire, native calls finish, and the
  wrapper task submits, authenticates, sends, classifies and retries. One step is one section under
  the request lock or one loop callback, in any interleaving. The guarantees on outcomes
  hold under four conditions on the environment: an UNAUTHENTICATED error is not itself retriable; an
  authorization retry follows only an attempt classified with request time left; work after a native
  success does not fail with an error that is retried; and an error is retried only if it was
  classified as retriable, which the source decides twice, from the native error and from its
  conversion. `RequestCorners` has a run for each that breaks a guarantee without it. What is said
  about leases needs none of them.
- **Runtime** (`Submission`, `Waiters`, `Executor`, `HandlerChain`). Who starts and who disposes of
  submitted work, how a cancellation reaches its task, cross-loop wakeups, the bounded executor, and
  the chain of exception handlers on a borrowed loop.
- **Transports** (`ChannelPool`, `TransportPool`, `StreamLife`). The pool of transports with leases,
  retirement and stale releases, its close, and the life of a stream.
- **Field masks** (`MaskSyntax`, `MaskLexer`, `MaskGrammar`, `MaskGraph`, `MaskMachine`,
  `MaskMeaning`, `MaskSharing`, `MaskTwins`, `MaskFragment`, `MaskExample`, `MaskParser`,
  `MaskMarshal`, `MaskJson`, `MaskText`, `MaskRender`, `MaskWriter`). The lexer, the parser with its
  shared graph of masks, what a parsed mask means, and the way from a graph of mask objects to text
  and back.
- **Search index** (`TokenSet`, `TokenSetKey`, `TokenSetBuilder`, `TokenSetCollision`,
  `TokenSetExact`, `TokenSetSearch`, `SparseVector`). The incremental minimal automaton, when it is
  exact, wildcard queries against it, and the sparse vector.

`Options` and `Deadlines` hold what several of them share.

Objects that the source shares and mutates through references (masks, automaton nodes, wrappers) are
kept in explicit stores indexed by creation number, so sharing and update in place stay visible.
Native calls, clocks, timers, event loops and callers are nondeterministic events or parameters.
The square root is a function parameter, and so is the unquoting of the lexer and the parser, which
`MaskJson` then gives as the one of JSON strings.

Where the code and a stated promise differ, the model follows the code:

- A parsed mask can name more than the expression says, because `(a,b).c` gives both branches one
  mask. `ExactIffContinuedAlike` says exactly for which expressions it does not,
  `RobustlyExactIffSharingFree` when no further path can bring it out either, and
  `FactoredExtended` shows it happening. Groups only at the end of dotted paths are enough
  (`GroupsLastIsExact`) but not necessary (`FactoredIsExact`).
- A key that is plain up to a final newline is written unquoted and read back without the newline,
  and a key that holds a high surrogate with a low one behind it is read back with the two combined
  (`PairComesBackCombined`). `RoundTripIff` and `MarshalledRoundTrip` have exactly these two exceptions.
- `cancel()` on a done request can return True once after the shared awaitable was cancelled without
  the request knowing, or after the authorization deadline made the request forget a cancellation
  (`CancelOfDone`, `ForgottenCancellation`).
- Node keys of the automaton are ambiguous when a digit is a label beside a smaller one
  (`KeyInjectiveIff`). Every merge of different nodes changes the language
  (`FoldKeepsLanguageIff`), such merges happen (`CollisionLosesWord`), and the alphabets on which
  they never do are exactly those with unambiguous keys (`AlwaysExactIffKeySafe`,
  `LookupExactIffKeySafe`).
- A cancelled stream can come back to life: when its transport could not be released, the failed
  cancellation is forgotten so that it can be repeated, and a start under way goes on, unless it still
  has to authenticate (`ForgottenStreamRuns`, `AbortedUnauthenticated`). `AcceptedCancelIsClean` says
  what holds as long as it is not forgotten.

## Model

| member | source | states |
|---|---|---|
| TokenSetKey.NodeKey | docs/templates/lunr.js:1660-1685 | the key of a node is its final flag followed by label and child number of each edge in label order; a cached key is returned as it is |
| TokenSetKey.KeyInjective | docs/templates/lunr.js:1673-1681 | on an alphabet whose only digit, if any, is its smallest label, nodes with equal keys have equal final flags and equal edges |
| TokenSetKey.KeyCollision | docs/templates/lunr.js:1673-1681 | a digit label behind a smaller label, for every child number: two nodes with different edges and one key |
| TokenSetKey.KeyInjectiveIff | docs/templates/lunr.js:1673-1681 | keys tell all nodes over an alphabet apart if and only if no digit of it has a smaller label beside it |
| TokenSetBuilder.RedirectKeepsLanguage | docs/templates/lunr.js:1810-1827 | pointing an edge at a node with the same contents changes the language of no node |
| TokenSetBuilder.FoldKeepsInv | docs/templates/lunr.js:1810-1827 | one round of minimization keeps the chain of unchecked nodes, the acyclic registry and its key table right |
| TokenSetBuilder.FoldKeepsLanguage | docs/templates/lunr.js:1810-1827 | a round that merges only into a node with the same contents changes the language of no node |
| TokenSetBuilder.FoldKeepsLanguageIff | docs/templates/lunr.js:1810-1827 | a round keeps the language of the root if and only if it merges into no node with other contents |
| TokenSetBuilder.SafeFoldIsTrue | docs/templates/lunr.js:1673-1681 | on an alphabet with unambiguous keys no round merges into a node with other contents |
| TokenSetBuilder.FoldKeepsRegistered | docs/templates/lunr.js:1810-1827 | registered nodes are never changed by a round of minimization |
| TokenSetBuilder.MarkFinalAddsWord | docs/templates/lunr.js:1788-1803 | making the end of the chain final adds exactly the inserted word to the language of the root |
| TokenSetBuilder.Builder.constructor | docs/templates/lunr.js:1759-1764 | a new builder has a lone root that accepts nothing |
| TokenSetBuilder.Builder.FoldEnd | docs/templates/lunr.js:1811-1825 | the loop body of minimization, on the node heap |
| TokenSetBuilder.Builder.Minimize | docs/templates/lunr.js:1810-1827 | the unchecked chain is cut to the given length; registered nodes stay registered and untouched |
| TokenSetBuilder.Builder.Insert | docs/templates/lunr.js:1766-1804 | a word below the previous one is refused and changes nothing; any other word is added, and registered nodes keep their contents |
| TokenSetBuilder.Builder.Finish | docs/templates/lunr.js:1806-1808 | nothing is left unchecked |
| TokenSetBuilder.RegisteredDistinct | docs/templates/lunr.js:1810-1827 | no two registered nodes accept the same suffixes |
| TokenSetBuilder.FinishedIsAcyclic | docs/templates/lunr.js:1806-1827 | after finish the automaton is acyclic, whatever was merged |
| TokenSetBuilder.FinishedIsMinimal | docs/templates/lunr.js:1806-1827 | if no round went wrong, after finish the automaton accepts exactly the inserted words, all its nodes are reached, and no two of them accept the same language |
| TokenSetBuilder.FromArray | docs/templates/lunr.js:1394-1406 | a list is accepted if and only if it never decreases; the automaton is acyclic, and accepts exactly the words with the fewest nodes unless a round merged different nodes, which cannot happen where keys are unambiguous; it is the automaton that AlwaysExactIffKeySafe is about |
| TokenSetCollision.CollisionLosesWord | docs/templates/lunr.js:1810-1827 | for every digit, every smaller label and every first identifier: three sorted words over these two labels of which the builder loses the last |
| TokenSetExact.SafeListIsExact | docs/templates/lunr.js:1394-1406 | every sorted list over an alphabet with unambiguous keys is built to exactly its words |
| TokenSetExact.AlwaysExactIffKeySafe | docs/templates/lunr.js:1394-1406 | wherever identifiers start, every sorted list over an alphabet is built exactly if and only if no digit of the alphabet has a smaller label beside it |
| TokenSetSearch.ChainMatchesGlob | docs/templates/lunr.js:1573-1603 | the query automaton, cyclic at stars, accepts exactly the words that match the pattern read as a glob |
| TokenSetSearch.FromString | docs/templates/lunr.js:1573-1603 | builds that query automaton on fresh nodes and leaves all others alone |
| TokenSetSearch.LinkEdges | docs/templates/lunr.js:1721-1752 | one pair of query edge and node edge: the output edge, its final flag and the frame pushed |
| TokenSetSearch.Expand | docs/templates/lunr.js:1711-1754 | one frame of the intersection: all pairs of edges are linked and the work left gets smaller |
| TokenSetSearch.Intersect | docs/templates/lunr.js:1697-1758 | terminates although the query is cyclic; the result accepts exactly the nonempty words of the index that the query matches |
| TokenSetSearch.ListFrame | docs/templates/lunr.js:1622-1645 | one frame of the listing: words already listed and words below the stack stay apart and complete |
| TokenSetSearch.ToArray | docs/templates/lunr.js:1615-1648 | lists every accepted word exactly once |
| TokenSetSearch.ExpandTerm | docs/templates/lunr.js:2018-2023 | index, query, intersection and listing together: each nonempty word of the index automaton that matches the pattern as a glob, exactly once; these are the indexed words that match unless a round merged different nodes |
| TokenSetSearch.LookupExactIffKeySafe | docs/templates/lunr.js:2018-2023 | wherever identifiers start, every lookup in every sorted index over an alphabet finds exactly the matching indexed words if and only if no digit of the alphabet has a smaller label beside it |
| TokenSetSearch.LookupMisses | docs/templates/lunr.js:2018-2023 | otherwise, for every first identifier, there is a sorted index of three words of which the pattern * does not find the last |
| SparseVector.PositionForIndex | docs/templates/lunr.js:770-811 | binary search returns the slot of the index: all before it smaller, none behind it smaller |
| SparseVector.SlotIsUnique | docs/templates/lunr.js:770-811 | there is only one such slot |
| SparseVector.Vector.constructor | docs/templates/lunr.js:754-757 | a new vector is empty and has no cached magnitude |
| SparseVector.Vector.Upsert | docs/templates/lunr.js:836-845 | exactly one index changes, to the new or the combined value; the indices stay strictly increasing and the cache is dropped |
| SparseVector.Vector.Insert | docs/templates/lunr.js:822-826 | as Upsert for a new index; a duplicate is an error that leaves the elements alone |
| SparseVector.Vector.Magnitude | docs/templates/lunr.js:852-864 | the cached or recomputed value is always the root of the current sum of squares |
| SparseVector.Vector.DotProduct | docs/templates/lunr.js:872-893 | the merge loop computes the sum over common indices |
| SparseVector.DotCommutes | docs/templates/lunr.js:872-893 | the product is the same in both directions |
| MaskLexer.LexedIffTiled | src/nebius/base/fieldmask_parser.py:186-300 | lexing succeeds with a token list if and only if those tokens tile the source in order with only whitespace in between, plain keys as long as possible, and every quoted key unquotes |
| MaskLexer.Lexer.constructor | src/nebius/base/fieldmask_parser.py:182-184 | the cursor starts at 0 |
| MaskLexer.Lexer.NextToken | src/nebius/base/fieldmask_parser.py:186-242 | the token at the first character that is no space, the end, or the error there, and where the cursor is left |
| MaskLexer.Lexer.ScanPlainKey | src/nebius/base/fieldmask_parser.py:244-255 | the longest run of plain characters |
| MaskLexer.Lexer.ScanQuotedKey | src/nebius/base/fieldmask_parser.py:257-273 | up to the first quote that is not escaped, or the unterminated error, also when the cursor ran past the end |
| MaskLexer.Lexer.All | src/nebius/base/fieldmask_parser.py:290-300 | all tokens, or the first error |
| MaskGrammar.GrammarIsAccepted | src/nebius/base/fieldmask_parser.py:406-464 | the tokens of every expression are accepted and read back as that expression, so the grammar is unambiguous |
| MaskGrammar.AcceptsExactlyGrammar | src/nebius/base/fieldmask_parser.py:406-464 | the state machine with its level stack accepts a token list as an expression if and only if the list is that expression's tokens |
| MaskGraph.AdvanceForward | src/nebius/base/fieldmask_parser.py:322-351 | edges only go to masks created later, so the mask graph stays acyclic |
| MaskGraph.AdvanceWalk | src/nebius/base/fieldmask_parser.py:322-351 | adding a key changes where no existing path leads; new paths are exactly those into the fresh mask |
| MaskMachine.AddStepFollows | src/nebius/base/fieldmask_parser.py:322-351 | after a key or wildcard the active masks are exactly those the current paths lead to |
| MaskMachine.NewMaskFollows | src/nebius/base/fieldmask_parser.py:353-356 | after a comma the finished masks stand for the finished items |
| MaskMachine.PushLevelFollows | src/nebius/base/fieldmask_parser.py:358-369 | a new level starts from the masks of the current paths |
| MaskMachine.PopLevelFollows | src/nebius/base/fieldmask_parser.py:371-377 | a closed level leaves the masks of the current paths extended by the group |
| MaskMeaning.MaskExtensional | src/nebius/base/fieldmask.py:473-491 | masks that name the same paths are equal |
| MaskMeaning.CopyNames | src/nebius/base/fieldmask.py:427-437 | the deep copy names exactly the paths of the shared graph |
| MaskMeaning.ParsedIffAccepted | src/nebius/base/fieldmask_parser.py:404-464 | the parser accepts exactly what the grammar machine accepts |
| MaskMeaning.MaskContainsDenotation | src/nebius/base/fieldmask_parser.py:322-377 | every path of the denotation, and every prefix of one, is named by the parsed mask |
| MaskMeaning.ExactIffTwinsAgree | src/nebius/base/fieldmask_parser.py:322-351 | the mask names nothing else if and only if no two paths that lead to one shared mask are continued differently |
| MaskTwins.NamedIffAlike | src/nebius/base/fieldmask_parser.py:322-377 | what the parsed mask names, told from the token order alone, without masks: a key new to several current paths makes them alike, and alike paths name the same below them |
| MaskTwins.ExactIffContinuedAlike | src/nebius/base/fieldmask_parser.py:322-377 | an expression is parsed to exactly its own paths if and only if no two of its paths that were made alike go on differently in it |
| MaskSharing.TreeIffSharingFree | src/nebius/base/fieldmask_parser.py:322-351 | the masks form a tree if and only if no key or wildcard is new to two of the current paths at once |
| MaskSharing.SharingFreeIsExact | src/nebius/base/fieldmask_parser.py:322-377 | such an expression is parsed to exactly the prefix closure of its denotation |
| MaskFragment.GroupsLastIsExact | src/nebius/base/fieldmask_parser.py:322-377 | so is every expression whose groups stand only at the end of dotted paths |
| MaskFragment.RobustlyExactIffSharingFree | src/nebius/base/fieldmask_parser.py:322-377 | a mask stays exact whatever single path is written behind it if and only if its expression is free of sharing |
| MaskExample.FactoredIsExact | src/nebius/base/fieldmask_parser.py:322-351 | (a,b).c shares a mask and has a group that is not last, and is exact all the same |
| MaskExample.FactoredExtended | src/nebius/base/fieldmask_parser.py:322-351 | (a,b).c,a.c.d is parsed to a mask that also names b.c.d |
| MaskParser.Parser.constructor | src/nebius/base/fieldmask_parser.py:313-320 | one level with a fresh root mask |
| MaskParser.Parser.Enter | src/nebius/base/fieldmask_parser.py:328-337 | the loop over the active masks: existing children are entered, all others get one shared fresh mask |
| MaskParser.Parser.AddStep | src/nebius/base/fieldmask_parser.py:322-351 | the step of the machine for a key or wildcard |
| MaskParser.Parser.NewMask | src/nebius/base/fieldmask_parser.py:353-356 | the step of the machine for a comma |
| MaskParser.Parser.PushLevel | src/nebius/base/fieldmask_parser.py:358-369 | the step of the machine for an opening parenthesis |
| MaskParser.Parser.PopLevel | src/nebius/base/fieldmask_parser.py:371-377 | the step of the machine for a closing parenthesis, or a refusal at the outermost level |
| MaskParser.Step | src/nebius/base/fieldmask_parser.py:410-455 | one token in its state: the machine step, or the error for that token |
| MaskParser.Run | src/nebius/base/fieldmask_parser.py:406-464 | terminates although one state consumes no token; succeeds exactly on the grammar with the mask of the expression, and otherwise reports the right error at the right position |
| MaskParser.Parse | src/nebius/base/fieldmask_parser.py:388-464 | a blank source is the empty mask; any other source is parsed exactly when its tokens spell an expression, to the mask of that expression |
| MaskMarshal.WrittenIsParsed | src/nebius/base/fieldmask.py:493-533 | what a mask is written as, with its branches in any order, is parsed back to that mask |
| MaskJson.UnquoteOfQuote | src/nebius/base/fieldmask.py:68-83 | a key quoted as a JSON string unquotes to the key with each high surrogate and the low one behind it combined, and so to itself if and only if it holds no such pair |
| MaskJson.PairComesBackCombined | src/nebius/base/fieldmask.py:68-83 | the two surrogates of any character, as a key of two characters, come back as that character |
| MaskJson.NormIff | src/nebius/base/fieldmask.py:68-83 | combining changes exactly the texts with such a pair |
| MaskRender.RenderedUnique | src/nebius/base/fieldmask.py:510-524 | the text and the branch count a mask is written as are determined by the mask |
| MaskRender.RenderedWrites | src/nebius/base/fieldmask.py:510-524 | that text is the text of an expression that writes the mask with one item per branch, in ascending order of their texts |
| MaskWriter.Marshal | src/nebius/base/fieldmask.py:493-533 | on any graph of mask objects the walk with stack, table and visiting set terminates; it is refused if and only if a mask that can be reached from it can reach itself, and otherwise gives the text of its tree |
| MaskWriter.Unwritten | src/nebius/base/fieldmask.py:526-532 | the children pushed are exactly those not written yet |
| MaskWriter.Branches | src/nebius/base/fieldmask.py:506-518 | one text per branch, from the entries of the children, which are all in the table |
| MaskWriter.SortTexts | src/nebius/base/fieldmask.py:519-519 | an ascending permutation |
| MaskWriter.Entry | src/nebius/base/fieldmask.py:504-522 | the entry made for a mask is how its tree is written |
| MaskWriter.MarshalledRoundTrip | src/nebius/base/fieldmask.py:535-540 | what the writer gives for a mask is parsed back to it if and only if no key of it is a plain key followed by a newline or holds a high surrogate with a low one behind it; only the empty mask is written as nothing |
| MaskText.LexText | src/nebius/base/fieldmask.py:75-83 | the text of a written mask is lexed back to its tokens, except that a newline behind a plain key is lost and pairs of surrogates are combined |
| MaskText.RoundTripIff | src/nebius/base/fieldmask.py:47-83 | a nonempty mask survives writing, its branches in any order, and parsing if and only if none of its keys is a plain key followed by a newline or holds a high surrogate with a low one behind it |
| MaskText.EmptyRoundTrip | src/nebius/base/fieldmask.py:493-540 | the empty mask is written as blank text |
| RequestFlags.Request.constructor | src/nebius/aio/request.py:410-434 | no flag is set and nothing is submitted |
| RequestFlags.Request.IsDone | src/nebius/aio/request.py:479-486 | done: a final native result, or a finished shared awaitable |
| RequestFlags.Request.CancelShared | src/nebius/aio/request.py:531-532 | cancelling the shared awaitable; an already cancelled one accepts again |
| RequestFlags.Request.Cancel | src/nebius/aio/request.py:502-535 | the flags after cancel() and its answer |
| RequestFlags.Request.ExpireWait | src/nebius/aio/request.py:537-560 | the flags after a deadline passed, and whether the wait goes on, also when the awaitable finishes inside the section |
| RequestFlags.Request.MarkNativeAttemptTerminal | src/nebius/aio/request.py:699-709 | the flags after a native attempt finished |
| RequestFlags.Request.PublishNativeSuccess | src/nebius/aio/request.py:1178-1184 | the flags after a native success, which overrules a deferred cancellation |
| RequestFlags.Request.ClassifyNativeError | src/nebius/aio/request.py:1217-1229 | the flags after a native error, by whether a retry is still possible |
| RequestFlags.Request.HandleAttemptFailure | src/nebius/aio/request.py:1236-1277 | the flags after the failure handler, and whether it retries, stops for a cancellation or raises |
| RequestFlags.Request.ResolveAuthorizationRetry | src/nebius/aio/request.py:899-920 | the flags after the authorization decision, and whether a cancellation prevents the retry |
| RequestRun.LeasesHandedBackOnce | src/nebius/aio/request.py:457-473 | over every run each lease is handed back exactly once or still held, never both; none is held at the end or after a rejected submission; a call is opened on a lease that was not handed back, which stays held while the request waits for the call; a lease that goes back under an open call is discarded, so one handed back for reuse has no open call on it |
| RequestOutcome.FairRunsAreSafe | src/nebius/aio/request.py:1172-1285 | under the four side conditions, for every interleaving: done stays done, and a cancellation or expiry recorded behind a finished attempt opens no further call and ends in that attempt's result with the flag cleared or in a cancelled or deadline error |
| RequestOutcome.RequestIsSafe | src/nebius/aio/request.py:1488-1504 | the same from the start of a request |
| RequestOutcome.ConcludingSettles | src/nebius/aio/request.py:1178-1285 | a final result stays final, and a recorded cancellation is only forgotten for a final result |
| RequestOutcome.CancelOfDone | src/nebius/aio/request.py:521-535 | on a request that is done, cancel() is accepted if and only if the awaitable was cancelled behind its back |
| RequestOutcome.DoneRequestRefusesCancel | src/nebius/aio/request.py:479-535 | through the request's own events that never happens: once done, cancel() returns False and changes nothing |
| RequestCorners.NeedsFirst | src/nebius/aio/request.py:1255-1264 | a retriable UNAUTHENTICATED error: a run that ends in success with the request cancelled |
| RequestCorners.NeedsSecond | src/nebius/aio/request.py:1203-1228 | an authorization retry after an error without request time left: a done request is reopened |
| RequestCorners.NeedsThird | src/nebius/aio/request.py:1268-1277 | a retried failure after a native success: a done request is reopened |
| RequestCorners.NeedsFourth | src/nebius/aio/request.py:1203-1242 | a retry of an error that was classified as final: a done request is reopened |
| RequestCorners.ForgottenCancellation | src/nebius/aio/request.py:1432-1438 | a cancellation accepted while authenticating is forgotten when the authorization deadline passes, and a second one is accepted |
| RequestBudget.Clocks.constructor | src/nebius/aio/request.py:1537-1537 | the request deadline at submission |
| RequestBudget.Clocks.Pause | src/nebius/aio/request.py:1287-1302 | keeps what is left of the budget, never less than 0 |
| RequestBudget.Clocks.Resume | src/nebius/aio/request.py:1304-1312 | the new deadline is the current time plus what was kept |
| RequestBudget.Clocks.AttemptTimeout | src/nebius/aio/request.py:1134-1152 | none when the deadline has passed; otherwise bounded by the time left and by the per-retry limit |
| RequestBudget.Clocks.RetryLoop | src/nebius/aio/request.py:1119-1242 | at most max(1, retries) native attempts, each bounded by the earlier of both deadlines |
| RequestBudget.Clocks.AuthorizedCycles | src/nebius/aio/request.py:1418-1467 | every authenticated cycle starts with the full request budget and keeps these bounds |
| Submission.StartedOrDisposedOnce | src/nebius/aio/_runtime.py:1281-1430 | in every interleaving the work is started or disposed of, never both and at most once, the work list is never read or popped empty, and in the end exactly one of the two has happened |
| Submission.CancellationIsForwarded | src/nebius/aio/_runtime.py:1303-1325 | no accepted cancellation is lost unless the loop was closed under the live task, and all routes together cancel the task at most once |
| Submission.ClaimedWindow | src/nebius/aio/_runtime.py:1364-1413 | a cancellation between claiming the start and publishing the task reaches the task when it is published |
| Submission.AdmissionLockNeeded | src/nebius/aio/_runtime.py:1227-1255 | without the lock around admission a rejected dispatch could dispose of the work twice |
| Submission.Submitted.constructor | src/nebius/aio/_runtime.py:1277-1286 | a submission with its work in the one-slot list |
| Submission.Submitted.ForwardCancellation | src/nebius/aio/_runtime.py:1303-1325 | disposes of work that nobody has claimed, or queues a task cancellation unless the loop is closed |
| Submission.Submitted.ClaimStart | src/nebius/aio/_runtime.py:1364-1384 | skips a cancelled submission or claims the start |
| Submission.Submitted.TakeWork | src/nebius/aio/_runtime.py:1288-1294 | the task takes the work, which is there |
| Submission.Submitted.PublishTask | src/nebius/aio/_runtime.py:1407-1414 | publishes the task and cancels it if the handle was cancelled meanwhile |
| Submission.Submitted.CancelOnce | src/nebius/aio/_runtime.py:1561-1576 | asks a task to cancel unless it is over or was asked before |
| Submission.Submitted.PublishOutcome | src/nebius/aio/_runtime.py:1327-1362 | publishes the outcome; a task that never began gives its work up |
| Submission.Submitted.CreationRejected | src/nebius/aio/_runtime.py:1392-1405 | a failed task creation gives the work up unless it had begun |
| HandlerChain.DiagnosticReachesLatest | src/nebius/aio/_runtime.py:142-181 | a diagnostic reaches the most recent assignment that was not rolled back, also between rollback and restoration |
| HandlerChain.BorrowedLoop.constructor | src/nebius/aio/_runtime.py:983-1018 | the handler a borrowed loop has at first |
| HandlerChain.BorrowedLoop.RestorablePredecessor | src/nebius/aio/_runtime.py:171-181 | the walk over rolled-back assignments terminates at the nearest one that is not |
| HandlerChain.BorrowedLoop.Deliver | src/nebius/aio/_runtime.py:142-158 | whom a diagnostic reaches |
| HandlerChain.BorrowedLoop.ForeignAssign | src/nebius/aio/_runtime.py:986-990 | an assignment by somebody else takes over |
| HandlerChain.BorrowedLoop.Install | src/nebius/aio/_runtime.py:1013-1046 | a staged assignment takes over, or is rolled back at once when the loop refuses it |
| HandlerChain.BorrowedLoop.Commit | src/nebius/aio/_runtime.py:160-163 | diagnostics go where they went |
| HandlerChain.BorrowedLoop.Rollback | src/nebius/aio/_runtime.py:165-169 | diagnostics pass the assignment by from here on |
| HandlerChain.BorrowedLoop.Restore | src/nebius/aio/_runtime.py:1000-1011 | a rolled-back assignment is taken out if it is still installed; diagnostics are not affected |
| Executor.PoolIsConserved | src/nebius/aio/_runtime.py:320-408 | over every run: idle tokens and outstanding items balance the threads before shutdown, stop markers cover the live workers after it, also when workers take items and markers in the middle of a drain, and every item is in exactly one place |
| Executor.DaemonExecutor.constructor | src/nebius/aio/_runtime.py:299-318 | no threads, no tokens, an empty queue |
| Executor.DaemonExecutor.SubmitItem | src/nebius/aio/_runtime.py:345-378 | queues the item with a token or a new thread where there is one; refuses after shutdown and when a thread cannot start |
| Executor.DaemonExecutor.ShutDown | src/nebius/aio/_runtime.py:380-408 | drains the queue if asked, cancelling exactly the items it takes out, and queues a marker per thread; its queue accesses are steps of the runs |
| Waiters.NoLostWakeup | src/nebius/aio/_runtime.py:437-477 | once the completion callback has run, exactly the waiters that did not give up while registered were scheduled, once each; the registry is empty and a waiter that gave up is not in it |
| Waiters.CrossLoopHandle.constructor | src/nebius/aio/_runtime.py:509-548 | a pending handle without waiters |
| Waiters.CrossLoopHandle.Register | src/nebius/aio/_runtime.py:796-804 | a waiter is registered or to be published at once, never both |
| Waiters.CrossLoopHandle.PublishWaiters | src/nebius/aio/_runtime.py:537-543 | all waiters are detached and returned for publication |
| Waiters.CrossLoopHandle.Leave | src/nebius/aio/_runtime.py:807-811 | a waiter that leaves is not registered any more |
| ChannelPool.PoolIsSound | src/nebius/aio/channel.py:3155-3185 | before close, with stale and repeated releases: free lists within their maximum, free and leased wrappers disjoint and not retired, at most one tracked wrapper per transport |
| ChannelPool.StaleReleaseChangesNothing | src/nebius/aio/channel.py:3366-3449 | each of the two sections of releasing a retired wrapper, with anything between them, changes nothing but the list of releases in progress |
| ChannelPool.SecondReleaseChangesNothing | src/nebius/aio/channel.py:3366-3449 | after a release has ended, at any later moment of any run, releasing the same wrapper again changes nothing but the list of releases in progress |
| ChannelPool.CloseLosesNothing | src/nebius/aio/channel.py:2739-2897 | when close has completed and nothing is in progress, every transport was closed by the snapshot or by a close of its own, and by only one wrapper; completion finds the pool and the lease table empty, and every transport closed by the snapshot or by a close that has ended |
| ChannelPool.PlacesStep | src/nebius/aio/channel.py:3366-3449 | every section keeps each wrapper in at most one place |
| ChannelPool.NotLostStep | src/nebius/aio/channel.py:3303-3321 | every section leaves somebody responsible for each transport |
| ChannelPool.OnceStep | src/nebius/aio/base.py:92-108 | retirement is won once, so no transport gets two closes |
| TransportPool.ChannelTable.constructor | src/nebius/aio/channel.py:2015-2020 | an empty pool |
| TransportPool.ChannelTable.PopFree | src/nebius/aio/channel.py:3166-3175 | takes the last free wrapper of the loop out of its list, or finds none |
| TransportPool.ChannelTable.LeaseOut | src/nebius/aio/channel.py:3104-3111 | tracks the wrapper, or retires it if close came first |
| TransportPool.ChannelTable.DropStopped | src/nebius/aio/channel.py:3180-3180 | a stopped transport goes to its own close |
| TransportPool.ChannelTable.CreateChannel | src/nebius/aio/channel.py:3182-3184 | a fresh transport with its first wrapper |
| TransportPool.ChannelTable.CheckOut | src/nebius/aio/channel.py:3155-3185 | refused without a change once close was requested; otherwise terminates with one wrapper leased: a free one that has not stopped, or a new one if there was none |
| TransportPool.ChannelTable.BeginRelease | src/nebius/aio/channel.py:3303-3321 | first section of a release, before and after close was requested |
| TransportPool.ChannelTable.EndRelease | src/nebius/aio/channel.py:3401-3449 | second section: back into the pool in a fresh wrapper if there is room and nothing forbids it, otherwise closed |
| TransportPool.ChannelTable.RequestClose | src/nebius/aio/channel.py:2719-2720 | from here on nothing is leased or pooled |
| TransportPool.ChannelTable.TakeSnapshot | src/nebius/aio/channel.py:2745-2762 | everything free or leased is retired and owned by the cleanup |
| TransportPool.ChannelTable.CleanUp | src/nebius/aio/channel.py:2863-2866 | the lease table is empty afterwards |
| StreamLife.CancelledStreamIsClean | src/nebius/aio/stream.py:363-451 | in every interleaving the transport is handed back at most once; when an abort has run and was not forgotten, the native call is not created or asked to cancel, and the transport is handed back if and only if its last release did not fail |
| StreamLife.StoppedRun | src/nebius/aio/stream.py:319-355 | from a stopped stream on, a run that forgets no cancellation publishes neither transport nor call |
| StreamLife.AcceptedCancelIsClean | src/nebius/aio/stream.py:888-985 | the same from an accepted cancel() on, whatever came before it, with the clean end once its abort has run |
| StreamLife.ForgottenStreamRuns | src/nebius/aio/stream.py:418-434 | a run without authentication in which the release fails, the cancellation is forgotten, and the aborted stream goes on to a call that nobody asked to cancel |
| StreamLife.AbortedUnauthenticated | src/nebius/aio/stream.py:213-221 | a stream whose abort began before it was authenticated never has a call, forgotten or not |
| StreamLife.StreamRequest.constructor | src/nebius/aio/stream.py:78-147 | a stream that has not started |
| StreamLife.StreamRequest.RequestCancel | src/nebius/aio/stream.py:910-925 | when cancel() is accepted and what it records |
| StreamLife.StreamRequest.ClaimTransport | src/nebius/aio/stream.py:363-370 | only one claimant may release |
| StreamLife.StreamRequest.RemainingDeadline | src/nebius/aio/stream.py:453-492 | the first operation fixes the deadlines; before authentication ends only its own deadline counts |
| StreamLife.StreamRequest.PauseForAuthorization | src/nebius/aio/stream.py:229-244 | keeps what is left of the request budget |
| StreamLife.StreamRequest.ResumeAfterAuthorization | src/nebius/aio/stream.py:246-256 | the budget goes on from the current time |
| StreamLife.StreamRequest.Authenticated | src/nebius/aio/stream.py:229-256 | a clock paused at p and resumed at r has max(0, old deadline - p) left at r, capped by the authorization deadline |

## Left out

- ChannelPool.CloseLosesNothing: covers transports of the SDK loop; detached closes of transports owned by other loops are best effort in the source, and so is cleanup that failed with an error.
- MaskJson.UnquoteOfQuote: only strings are modelled, as the text of a quoted key always starts with a quote; other JSON values cannot occur.
- TransportPool.ChannelTable.CheckOut: its sections follow each other without interference; what happens when a close or other holders come between them is in the runs of `ChannelPool`.
- Executor.DaemonExecutor.ShutDown: its queue accesses follow each other without interference; workers between them are in the runs of `PoolIsConserved`. Waiting for the threads is not modelled.
- TokenSetExact.AlwaysExactIffKeySafe: the condition is on the alphabet; which single lists over an ambiguous alphabet are built exactly depends on the identifiers given out and is stated per round (`FoldKeepsLanguageIff`).
- Real gRPC calls, TLS, serialization and protobuf registries: native calls are events.
- Retriability of errors: an uninterpreted property of a native outcome.
- Garbage collection, weak references, fork checks, context variables and daemon-thread scheduling.
- Bridged futures of foreign loops and the protection of close callers during shutdown.
- The mask algebra (merge, intersect, subtract, reset and select matching): structural recursions that would add easy members.
- Fuzzy matching, scoring, stemming and the other parts of the search library.
- Error message texts and their context excerpts; error positions are kept.
- `operation.py`, `service_error.py`, `request_status.py`, `keepalive.py`, `metrics.py`, configuration and generated clients: short, or thin forwarding.
