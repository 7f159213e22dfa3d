# event-spec: a verified model of the runtime and the registry

event-spec is an analytics runtime (delivery queue, rate limiter, retrying transport, hook
pipeline) together with a registry of event schemas (diff, versioning, caches, git pulls). This
project models the parts of it whose correctness depends on more than one function, and proves
what holds over every input, every interleaving and every run. `dafny verify dfyconfig.toml`
checks all of it.

How the model is built:

- What the source changes in place is a class or a method with the source's loop, proved against
  a specification function; what it computes is a function.
- Concurrency is a step system. A step is a section under a lock, a channel operation or a call
  that can be suspended; a run is any sequence of enabled steps, so a statement about every run
  is a statement about every interleaving.
- Everything foreign is a parameter and unrestricted: what the clock reads, what a provider
  answers, which git command fails, in which order a map hands out its keys (a loop that picks
  any remaining key), what a regular expression matches, which random number is drawn.
- Where a promise is false there is a counterexample and, beside it, the condition under which
  the promise holds.

| file | models |
|---|---|
| `Queue.dfy`, `QueueProofs.dfy`, `QueueTheorems.dfy` | the Go delivery queue: lock sections, step system, invariants, theorems |
| `SpecModel.dfy`, `Names.dfy`, `SpecDiff.dfy`, `RenameTheorems.dfy`, `ChangeTheorems.dfy` | event definitions, the diff, its rename matching and what it reports |
| `SchemaVersions.dfy`, `VersionBump.dfy` | version parsing and comparison, suggestion and validation of bumps |
| `Payloads.dfy`, `Compatibility.dfy` | the generated JSON Schema, what it accepts, and what a non-breaking diff promises |
| `RateLimiter.dfy`, `RetryTransport.dfy` | token bucket and retry loop |
| `ContextMerge.dfy`, `BeforeHooks.dfy`, `FanOut.dfy` | context levels, Before hooks, concurrent dispatch |
| `EventCache.dfy` | the server's event cache |
| `LatestVersions.dfy`, `RegistryIndex.dfy` | the local index and the three "latest version" selectors |
| `GitPin.dfy` | git pulls over an abstract remote and cache |
| `SdkQueues.dfy`, `Sampling.dfy` | the TypeScript and Kotlin queues, and the sampling hash in three languages |

## Findings

Where the code and its documentation disagree the model follows the code. Each promise that fails
has its input and, where the table below says "if and only if", the exact condition.

- `Flush` is documented to return ErrQueueClosed after `Shutdown`. From a new queue there is a run
  in which it is sent after a completed shutdown and never answered (`FlushHangsAfterShutdown`); a
  Flush can get stuck like that if and only if the channel was left empty
  (`FlushAfterShutdownCanBeSent`).
- A message that `Enqueue` accepted between the final drain and the closing of the queue is
  stranded (`MessageLostInTheGap`). An overflow policy the queue does not know disables its size
  bound (`UnknownPolicyHasNoBound`).
- A blocked `Enqueue` is documented to end when its context is cancelled. The broadcast for that
  is sent without the mutex and can come before the caller is on the condition variable's list
  (`CancellationIsLost`); the caller then sleeps until somebody else broadcasts.
- `SuggestVersion` is documented to return its argument for an empty change list; it bumps the
  patch number. `Diff` is documented to treat a deprecated status as breaking; only deletion is.
- A diff without a breaking change can still reject old payloads, in exactly six ways: a first
  enumeration, an enumeration value lost while the property becomes optional, a new or tighter
  bound, a new or tighter pattern, the declaring of a key that payloads already used, and a
  property of unknown type or with a pattern that does not compile, which makes the whole new
  document unusable (`UncompilableCounterexample`).
- Provider overrides that differ can compare equal, if and only if a property is mapped to the
  empty string.
- The jittered backoff is documented as below the nominal one; it reaches it when that is even.
- `WithNoop` is documented to drop an event after the Before hooks; no hook runs. It has no effect
  on a draft event of a client that dispatches drafts (`DispatchAll`).
- `Chain.Before` leaves `hc.Message` as it was after a replacement, the client's own loop does not;
  a hook without state is safe in both if and only if it ignores the message. `Chain.After` stops
  at the first error, the client's own loop does not.
- Publishing through the HTTP handler writes to the store without invalidating the event cache,
  and a fill that read the store before a publish can install its listing after it
  (`OvertakenFillStays`).
- A pinned tag that could not be fetched is documented to surface as an error. It does so only if
  no branch of that name is tracked on the remote or left over in the cache and the ref does not
  read as a commit; otherwise the pull silently follows those (`SilentTagFailure`,
  `WrongCommitCounterexample`).
- The key of the local index is shared by two event versions if and only if a namespace, name or
  version has a slash, and versions with a slash parse (`CollidesExactlyWhen`,
  `SlashedVersionParses`).
- In the Kotlin queue overflow is reachable even when a batch fits in the buffer, in the TypeScript
  queue it is not.

## Model

| member | source | states |
|---|---|---|
| QueueSections.Normalize | provider/queue.go:67-85 | Positive sizes are kept and all others become 100 and 10000; each documented policy name selects its policy, the empty one drop_oldest, any other none of the three. |
| QueueSections.PolicyNames | provider/config.go:34-36 | The name-to-policy table both ways: a name other than the empty one selects a policy iff it is that policy's documented name; the empty one selects drop_oldest. |
| QueueSections.Queue.constructor | provider/queue.go:67-101 | A new queue is empty, open, with nothing pending. |
| QueueSections.Queue.Enqueue | provider/queue.go:111-159 | One pass of the locked section: each of the five outcomes if and only if its cause comes first (closed; block with a cancelled context; block without room; drop_newest without room; otherwise appended), and the buffer after it, unchanged unless appended. |
| QueueSections.Queue.Signal | provider/queue.go:161-171 | The non-blocking send: a request exists afterwards iff one was pending or the batch size is reached. |
| QueueSections.Queue.Park | provider/queue.go:149-149 | Waiting puts the caller on the condition variable's list. |
| QueueSections.Queue.TakeBuffer | provider/queue.go:254-265 | The whole buffer changes hands in one section and is empty afterwards; under the block policy a non-empty take wakes every parked caller. |
| QueueSections.Queue.Close | provider/queue.go:206-209 | The closing section sets the flag, wakes every parked caller and touches nothing else. |
| QueueProofs.StepKeepsInv | provider/queue.go:111-268 | Every step of every caller, of the run loop and of Shutdown keeps order, conservation, barriers, wake-ups and shutdown stages together. |
| QueueProofs.Reachable | provider/queue.go:67-268 | The invariant holds in every state any interleaving reaches from a new queue. |
| QueueTheorems.Conservation | provider/queue.go:111-268 | Each appended message is in exactly one of evicted, passed to fn, in doFlush's hands, buffered; and delivered ++ in hand ++ buffer is the append order minus the evictions. |
| QueueTheorems.ExactOrder | provider/queue.go:119-159 | Under every policy but drop_oldest nothing is evicted and the order is exactly the append order. |
| QueueTheorems.BufferBoundAndContent | provider/queue.go:119-159 | A known policy never exceeds maxSize, also when one broadcast wakes many callers; the buffer is exactly the messages since the last drain, under drop_oldest the newest maxSize of them. |
| QueueTheorems.UnknownPolicyHasNoBound | provider/queue.go:118-159 | With an unknown policy name a run reaches a buffer of any length. |
| QueueTheorems.FullBatchIsNeverForgotten | provider/queue.go:161-171 | The capacity-1 trigger loses no wake-up: a full batch with a free lock and an idle loop always has a request waiting. |
| QueueTheorems.SleepersHaveNoRoom | provider/queue.go:131-156 | Whoever still sleeps in a blocking Enqueue faces a full buffer and an open queue. |
| QueueTheorems.PassAnswers | provider/queue.go:111-172 | What each pass of a call does to the machine, by its cause alone: a closed queue refuses it, block refuses a cancelled caller and holds any other one without room, drop_newest refuses without room, every other pass is accepted; a refused call leaves the pipe, the mutex is free and it is no caller any more. |
| QueueTheorems.OnlyPassesAnswer | provider/queue.go:111-268 | No other step of anyone answers a call or appends. |
| QueueTheorems.AnswersFitTheLog | provider/queue.go:111-172 | In every run the messages of the calls answered as appended are the log, in order; refused for a cancelled context only under block, discarded only under drop_newest, refused as closed only on a closed queue. |
| QueueTheorems.ClosedIsTheAnswer | provider/queue.go:115-117 | From the closing on, every call that any run answers is answered as closed. |
| QueueTheorems.CallersStay | provider/queue.go:133-150 | A waiting caller keeps its message and stays until its own next pass. |
| QueueTheorems.ParksWithItsMessage | provider/queue.go:149-149 | A held caller parks with its own message, frees the mutex and changes nothing in the pipe. |
| QueueTheorems.SettledIsOut | provider/queue.go:225-268 | Everything appended before the last completed drain was delivered or evicted. |
| QueueTheorems.RoundDelivers | provider/queue.go:225-268 | A round of the run loop from any reachable state hands over the whole buffer, in order, and answers the Flush that asked for it. |
| QueueTheorems.FlushBarrier | provider/queue.go:177-195 | When Flush returns through its channel, fn has returned for every message appended before the request was sent, evictions aside. |
| QueueTheorems.ClosedMeansNoAppend | provider/queue.go:115-117 | After the closing no run appends anything and no run reopens the queue. |
| QueueTheorems.ShutdownBarrier | provider/queue.go:199-215 | After a Shutdown whose flush completed, everything appended before that flush is out, any residue was appended later, and there is residue iff an append followed the last drain. |
| QueueTheorems.FinishedIsFinal | provider/queue.go:199-215 | After a finished Shutdown no run changes the buffer or what was delivered. |
| QueueTheorems.MessageLostInTheGap | provider/queue.go:203-207 | For every configuration a run in which an accepted message is stranded by a completed Shutdown. |
| QueueTheorems.FlushHangsAfterShutdown | provider/queue.go:177-215 | A run from a new queue: it shuts down completely, a Flush is sent after that, and no continuation answers it. |
| QueueTheorems.FullChannelStaysFull | provider/queue.go:181-187 | A request left in the channel of a queue that has shut down stays there in every run and no further Flush is sent. |
| QueueTheorems.FlushAfterShutdownCanBeSent | provider/queue.go:181-187 | After Shutdown some run gets another Flush sent if and only if the channel is empty. |
| QueueTheorems.FlushAfterShutdownIsNeverAnswered | provider/queue.go:189-194 | Once the loop has exited no run answers a sent request. |
| QueueTheorems.WokenExactlyByBroadcasts | provider/queue.go:131-150 | A caller on the list is woken by a step if and only if that step broadcasts: a cancellation, a non-empty drain under the block policy, or the closing. |
| QueueTheorems.SleepsUntilBroadcast | provider/queue.go:145-150 | In every run without a broadcast a sleeping caller goes on sleeping. |
| QueueTheorems.SleepsExactlyThroughQuiet | provider/queue.go:145-150 | A caller sleeps at every moment of a run if and only if no step of the run broadcasts. |
| QueueTheorems.ParksWhateverHappens | provider/queue.go:145-149 | From any state in which a caller has looked at its context and not yet parked, it is asleep once it parks, after any steps, broadcasts included. |
| QueueTheorems.CancellationIsLost | provider/queue.go:136-149 | For every configuration with the block policy a run in which the broadcast for a cancelled caller falls between its look at the context and its wait, so that it sleeps through every run without another broadcast. |
| SchemaVersions.CompareIsLexicographic | spec/loader.go:188-206 | On parsed versions the comparison by wrapping subtraction is the lexicographic order of the triples. |
| SchemaVersions.ParsePrinted | spec/loader.go:169-184 | A printed version, also with trailing non-digit text, parses back to the same three numbers. |
| SchemaVersions.ScanPrinted | spec/loader.go:169-184 | Scanning one component reads back every printed number in range. |
| SchemaVersions.ScansTo | spec/loader.go:169-184 | White space without a newline, perhaps a plus sign, digits, and any rest that does not begin with a digit scan to the value of the digits, if that is in range, and otherwise not. |
| SchemaVersions.ScannedShape | spec/loader.go:169-184 | And every text without a dash that scans has that shape. |
| SchemaVersions.ParsesExactlyWhen | spec/loader.go:169-184 | A version parses if and only if it is three dash-free texts joined by dashes, each of which scans. |
| SchemaVersions.ParsedInRange | spec/loader.go:169-184 | Every string that parses gives non-negative numbers in range and keeps its own text. |
| VersionBump.MaxLevel | spec/diff.go:304-307 | The loop finds the one level that some change needs and no change exceeds. |
| VersionBump.SuggestVersion | spec/diff.go:296-319 | The suggestion is the version bumped at the level the change list needs. |
| VersionBump.ValidateVersionBump | spec/diff.go:331-371 | Each error if and only if its cause comes first: an unparseable old or new version, no strict increase, a declared level below the needed one, with both levels; none exactly for accepted versions. |
| VersionBump.AcceptedMeans | spec/diff.go:331-371 | A pair of parseable versions is accepted iff the triple grows, with a greater major number where one is needed, and a greater major or minor one where a minor step is. |
| VersionBump.BumpedIsPrinted | spec/diff.go:309-319 | Below the integer limit the suggestion's text parses back to the suggestion itself. |
| VersionBump.OverflowDoesNotParse | spec/diff.go:309-319 | At the limit the suggestion's own text does not parse. |
| VersionBump.SuggestionIsLeastAccepted | spec/diff.go:296-371 | Below the integer limit a version is accepted if and only if it compares at or above the suggestion. |
| VersionBump.AcceptedWithoutRoom | spec/diff.go:331-371 | At the limit exactly the versions that step a higher component are accepted, and none if a major step is needed. |
| VersionBump.SuggestionIsAccepted | spec/diff.go:296-371 | The suggestion is accepted and round-trips if and only if the bumped component is below the limit. |
| Names.SortNames | spec/diff.go:441-449 | Whatever order the map yields, the result is the one sorted list of its keys. |
| Names.SortedIsUnique | spec/diff.go:441-449 | A sorted list is determined by its elements. |
| Names.LessMeans | spec/diff.go:441-449 | The order of names: at the first difference the smaller character, and a proper prefix comes first. |
| Names.SliceDiff | spec/diff.go:451-464 | The loop over a lookup set keeps exactly the names of the first list absent from the second, in order. |
| SpecDiff.FindMatch | spec/diff.go:177-196 | The inner loop finds the first free added name of the type. |
| SpecDiff.DetectRenames | spec/diff.go:171-197 | The nested loops with their two marker sets produce the greedy pairing and mark exactly its two sides. |
| SpecDiff.ReportRemoved | spec/diff.go:199-209 | The loop reports the removed names not consumed by a rename, in order, all breaking. |
| SpecDiff.ReportAdded | spec/diff.go:211-231 | The loop reports the added names not consumed by a rename, in order, breaking iff required. |
| SpecDiff.ReportShared | spec/diff.go:233-239 | The loop reports the property changes of every name in both versions, in order. |
| SpecDiff.Diff | spec/diff.go:52-242 | The imperative Diff computes the change list, with its texts, that all theorems below speak of. |
| SpecModel.TypesAreTheirNames | spec/schema.go:28-37 | Property types are told apart exactly by their strings, known and unknown ones. |
| SpecModel.NamesRoundTrip | spec/schema.go:28-37 | Every string is the name of the type and of the status read from it. |
| SpecDiff.OverridesCompareExactly | spec/diff.go:416-439 | Comparing with these overrides is equality, for all others, if and only if none of them maps a property to the empty string. |
| SpecDiff.EmptyMappingIsOverlooked | spec/diff.go:431-434 | For every overrides with such a mapping there are different ones that compare equal in one direction and not in the other. |
| RenameTheorems.RenamesMatch | spec/diff.go:171-197 | Each greedy pair joins a removed with a free added name of the same type; no name occurs twice. |
| RenameTheorems.RenamesAreMaximum | spec/diff.go:171-197 | No type-preserving matching has more pairs than the greedy one. |
| RenameTheorems.RenamesByType | spec/diff.go:171-197 | The renames of each type number the smaller of the removed and the added properties of that type. |
| RenameTheorems.RenamesAreAMaximumMatching | spec/diff.go:165-197 | On whole definitions: injective, type-preserving, maximum, and counted by type. |
| RenameTheorems.EveryPropertyReportedOnce | spec/diff.go:165-231 | In the whole change list each removed name occurs in exactly one rename or removal, each added name in exactly one rename or addition, no other name in any. |
| ChangeTheorems.ReportedExactlyWhen | spec/diff.go:52-291 | Apart from renames of properties, a change is in the list if and only if its cause is: for each of its kinds the difference between the two definitions behind it, no earlier dimension differing for a shared property, with its name, its breaking mark and both its texts. |
| ChangeTheorems.RenamesAreGreedy | spec/diff.go:171-197 | A reported rename joins a removed with an added name of its type, is breaking and names both; every smaller added name of the type is taken by a rename and every smaller removed one is renamed. |
| ChangeTheorems.TakesSmallest | spec/diff.go:171-197 | Each removed name takes the smallest free added name of its type: a smaller one was taken by an earlier pair. |
| ChangeTheorems.ServesSmallest | spec/diff.go:171-197 | Removed names are served in order: a smaller one of the type was paired earlier. |
| ChangeTheorems.ChangesAreOrdered | spec/diff.go:52-242 | The list is ordered by section, and by name within the sections for renames, removals, additions and shared properties, so no change occurs twice. |
| ChangeTheorems.NothingReportedExactlyWhen | spec/diff.go:52-291 | The list is empty if and only if the two definitions agree on every compared field. |
| ChangeTheorems.LevelOfDiff | spec/diff.go:375-385 | The level a diff needs, read off the two definitions: none iff they differ at most in descriptions, metadata, destinations and priority; major iff names or type change, the status turns to deleted, a property is gone, a required one is new, or a shared one narrows in a reported way. |
| Payloads.BuildJSONSchema | spec/validator.go:106-128 | The loop over a map in any order builds a document that describes the properties: same names, same constraints, required exactly the required ones. |
| Payloads.ValidationIsAcceptance | spec/validator.go:106-128 | Draft-07 validation against a built document is acceptance by the definition, for every payload. |
| Payloads.TypesOfValues | spec/validator.go:106-128 | Which JSON values have which type; an integer is a number without fraction. |
| Compatibility.EventBreaks | spec/diff.go:52-155 | The event-level part of the change list is non-breaking iff names and type are kept and the status does not turn to deleted. |
| Compatibility.PropBreaks | spec/diff.go:245-291 | What diffProp reports on a shared property is non-breaking iff its type is kept, it does not become required, and its enumeration loses nothing unless it became optional. |
| Compatibility.NonBreakingMeans | spec/diff.go:52-291 | Exactly when the whole change list has no breaking entry. |
| Compatibility.NonBreakingIsCompatible | spec/diff.go:169-291 | If no shared property narrows, every payload over the old keys that the old version accepts is accepted by the new one. |
| Compatibility.ExactlyTheseGaps | spec/diff.go:245-291 | A non-breaking diff is compatible if and only if, unless the old version accepts nothing, the new document compiles and no shared property narrows, by a first enumeration, a value lost as it became optional, a bound or a pattern; nothing else is assumed. |
| Compatibility.ExactlyWithAnyKeys | spec/validator.go:106-128 | For payloads with any keys: compatible if and only if besides that the new version declares no key the old one does not. |
| Compatibility.BoundsNarrowExactlyWhen | spec/validator.go:296-317 | A property loses a number to changed bounds if and only if it is numeric, allows any, and a bound is new or tighter as it acts on the type, on integers rounded inwards. |
| Compatibility.ExactlyThesePlainGaps | spec/diff.go:245-291 | For an old version that compiles, with no pattern on strings, the same equivalence with the gaps read off the two definitions. |
| Compatibility.BuiltSchemasAreCompatible | spec/validator.go:106-128 | The compatibility theorem in terms of the two documents built, under conditions visible in the definitions: patterns kept, no bound new or tighter, neither enumeration gap. |
| Compatibility.FirstEnumOnPlain | spec/diff.go:276-283 | On a property of any type, without pattern if a string, a first enumeration always shuts out an old value. |
| Compatibility.LossOnPlain | spec/diff.go:261-263 | On such a property a value lost while becoming optional was always usable before. |
| Compatibility.SameMajorIsNonBreaking | spec/diff.go:331-371 | An accepted version with an unchanged major number means that no breaking change was reported. |
| Compatibility.FirstEnumCounterexample | spec/diff.go:276-283 | A first enumeration is reported as non-breaking and rejects an old payload. |
| Compatibility.OptionalHidesLossCounterexample | spec/diff.go:261-263 | Becoming optional hides a lost enumeration value that an old payload uses. |
| Compatibility.BoundsAreNotCompared | spec/diff.go:245-291 | No change of pattern, minimum or maximum is ever reported. |
| Compatibility.BoundCounterexample | spec/diff.go:245-291 | A raised minimum goes unreported and rejects an old payload. |
| Compatibility.UndeclaredKeyCounterexample | spec/validator.go:106-128 | A key the old version does not declare passes unchecked until the new one declares it. |
| Compatibility.UncompilableCounterexample | spec/validator.go:132-136 | Adding to any event an optional property that does not compile is reported as non-breaking, narrows nothing, and rejects every payload. |
| RateLimiter.NewBucket | provider/ratelimit.go:28-43 | Positive settings are kept, others become 30 per second and twice the rate; the bucket starts full. |
| RateLimiter.Limiter.Allow | provider/ratelimit.go:47-56 | One locked refill-and-take attempt. |
| RateLimiter.Limiter.Wait | provider/ratelimit.go:60-81 | The loop of attempts until one is granted or the context ends, the bucket it leaves, and the delay it sleeps after each failed one, in whole nanoseconds. |
| RateLimiter.WaitTakesTheFirstGrant | provider/ratelimit.go:60-81 | Wait makes attempts up to and including the first granted one, and succeeds iff there is one. |
| RateLimiter.WaitIsItsAttempts | provider/ratelimit.go:60-81 | Wait leaves the bucket that its attempts leave when made one by one; exactly one of them is granted if Wait is, none otherwise, and then the clock has run out. |
| RateLimiter.WaitThenMore | provider/ratelimit.go:60-81 | What follows a Wait is decided as if its attempts had been made without it. |
| RateLimiter.DelaysFollowFailures | provider/ratelimit.go:69-71 | One delay for each failed attempt, the one its bucket then needs. |
| RateLimiter.LimiterConforms | provider/ratelimit.go:47-93 | In every run at non-decreasing times, the grants from attempt i to j never exceed burst + rate * (t_j - t_i). |
| RateLimiter.LimiterIsOptimal | provider/ratelimit.go:47-93 | From a full bucket, no other decision sequence over the same times that obeys this bound has more grants at any prefix. |
| RateLimiter.CallsAreARun | provider/ratelimit.go:47-81 | Any sequence of Allow and Wait calls is one run of attempts, with as many attempts granted as calls. |
| RateLimiter.CallsConform | provider/ratelimit.go:47-81 | The calls granted, Allow and Wait in any mix, never exceed burst + rate * time. |
| RateLimiter.EveryWindowConforms | provider/ratelimit.go:47-81 | The same for every window of such a sequence, whatever was called before. |
| RateLimiter.DelaySuffices | provider/ratelimit.go:69-71 | After the delay before its truncation, with no attempt in between, the next attempt is granted. |
| RateLimiter.FailedAttempt | provider/ratelimit.go:47-53 | A failed attempt leaves the refilled bucket, stamped with its time and short of a token. |
| RateLimiter.TruncatedDelayExactlyWhen | provider/ratelimit.go:69-71 | From there, after the delay as truncated, the next attempt is granted if and only if nothing was cut off; otherwise less than a nanosecond's worth of a token is missing. |
| RateLimiter.DecisionsScale | provider/ratelimit.go:84-93 | Decisions depend on time only through tokens earned: the bucket refines one that fills at rate 1. |
| RetryTransport.Do | provider/transport.go:80-142 | With defaults for settings of zero: at most maxRetries + 1 attempts, each but the last a retryable one; exactly one of response and error unless maxRetries is negative; which attempt explains the result; every sleep is a jittered nominal backoff, one between attempts and one more iff the context ends in it. |
| RetryTransport.OneOutcome | provider/transport.go:80-142 | Only one result, number of attempts and list of sleeps meets that description. |
| RetryTransport.DefaultsAreBounded | provider/transport.go:83-99 | A caller who sets nothing gets one to four attempts, a response or an error, and at most 0.7 seconds of sleep. |
| RetryTransport.Jittered | provider/transport.go:226-232 | The sleep lies in [floor(d/2), d]; without jitter it is d. |
| RetryTransport.NominalIsCapped | provider/transport.go:114-118 | Every nominal backoff after the first is at most maxBackoff. |
| RetryTransport.NominalGrows | provider/transport.go:105-119 | The first backoff is the initial one; with a whole multiplier m the k-th is initial * m^k, capped at maxBackoff. |
| RetryTransport.TotalSleepBound | provider/transport.go:105-119 | For any draws n sleeps take at most initial + (n - 1) * maxBackoff. |
| RetryTransport.TotalSleepByRetries | provider/transport.go:105-119 | In terms of the configuration: at most initial + (maxRetries - 1) * maxBackoff. |
| RetryTransport.JitterReachesTheBackoff | provider/transport.go:224-232 | The draw can reach the full backoff if and only if that is even. |
| ContextMerge.MergeContexts | analytics/context.go:16-37 | The branches and key loops compute last-non-empty ids and the right-biased union, in any key order. |
| ContextMerge.MergeEventContext | registry/server/handlers_analytics.go:149-168 | The server's separately written merge is the same operation. |
| ContextMerge.MergeIsAMonoid | analytics/context.go:16-37 | Merge is associative and the empty context is its identity on both sides. |
| ContextMerge.MergeAllJoins | analytics/context.go:16-37 | Merging two chains joined is merging their merges. |
| ContextMerge.ChainMeaning | analytics/client.go:321-353 | In a chain of any length the last non-empty id wins and each attribute comes from the last level that binds it; no key is lost and none invented. |
| ContextMerge.MergeContextChain | analytics/client.go:321-353 | The client's reassignments compute the chain global, request, transaction, client, invocation, absent levels left out. |
| ContextMerge.FiveLevels | analytics/client.go:321-353 | Identifiers and attributes of the whole chain, level by level: invocation before client before transaction before request before global. |
| ContextMerge.AbsentLevels | analytics/client.go:321-353 | A level that is absent counts as an empty one. |
| ContextMerge.BatchIsTwoLevels | registry/server/handlers_analytics.go:401-407 | Merging batch and item and overriding with the result equals adding them as two successive levels. |
| BeforeHooks.RunBefore | analytics/client.go:224-247 | Hooks run in order, each seeing the last replacement before it, none after the first error; the last non-nil envelope is passed on. |
| BeforeHooks.ChainBefore | hooks/hook.go:74-88 | The same for Chain.Before, whose message stays the original one. |
| BeforeHooks.WhatHooksSee | analytics/client.go:224-247 | What each call sees: the first context until a replacement, then the last replacement's name and context, in the client's loop its message too, and the operation and provider always unchanged. |
| BeforeHooks.LatestIsTheLast | hooks/hook.go:69-88 | The envelope passed on is that of the last call that returned one, and there is none iff no call did. |
| BeforeHooks.CompleteIsUnique | hooks/hook.go:74-88 | For a hook list and a first context only one sequence of calls meets the description of either loop. |
| BeforeHooks.InlinedRefinesChain | analytics/client.go:236-247 | For hooks that ignore hc.Message, stateful ones included, both loops make the same calls, stop at the same hook with the same outcome and pass on the same envelope. |
| BeforeHooks.StatelessAgreementExactlyWhen | hooks/hook.go:74-88 | A hook without state ignores hc.Message if and only if the two loops agree, from every first context, with it behind every replacement. |
| BeforeHooks.MessageReaderCounterexample | hooks/hook.go:81-85 | With one hook that reads the message, one loop cancels the event and the other does not. |
| FanOut.ScheduleIndependent | analytics/client.go:258-303 | In every interleaving each provider's trace is a prefix of: the call, for each hook in reverse an Error with the call's error if it failed and an After if it did not, for each hook in reverse a Finally. At the end it is all of that, and its result is Failed with that error or Delivered. |
| FanOut.OneKindOfNotice | analytics/client.go:284-303 | A trace of a failed call has no After of its provider, that of a successful one no Error. |
| FanOut.EveryHookHears | analytics/client.go:284-303 | Every hook hears of the outcome, with the error if there is one, and of the end. |
| FanOut.ResultsTellTheTruth | analytics/client.go:258-317 | Success holds the delivered ones, without error, failed the failed ones, with the error their own provider's call returned; each provider is in the one its call decides. |
| FanOut.RunAll | analytics/client.go:258-303 | Goroutines stepped in any order all finish, and the invariant holds at the end. |
| FanOut.ChainAfter | hooks/hook.go:91-98 | Chain.After runs in reverse, stops at the first error, and reaches every hook iff only the first hook may fail. |
| FanOut.Aggregate | analytics/client.go:305-317 | The loop splits the results into those without and with error, both in provider order. |
| FanOut.SplitIsUnique | analytics/client.go:305-317 | There is only one such split, so it does not depend on the schedule. |
| FanOut.NotifyNoopProviders | analytics/client.go:194-205 | Exactly the providers that opt in are notified, in order. |
| FanOut.DispatchAll | analytics/client.go:214-317 | Suppressed iff draft without permission or noop on a non-draft; then no hook runs, nothing is dispatched and only the opted-in providers are notified; a hook error means no provider call; otherwise every provider has the trace spelled out above for the envelope the hooks left, and the result is the ordered split of the outcomes, partial success iff some call succeeded. |
| EventCache.Cache.EventLookup | registry/server/handlers_analytics.go:78-109 | One caller alone: disabled hooks and store errors answer nothing and change nothing, a ready cache answers from itself, a miss installs the listing's index and answers from it. |
| EventCache.Cache.Install | registry/server/handlers_analytics.go:96-108 | The second locked section keeps what another fill installed meanwhile. |
| EventCache.Cache.PublishEvent | registry/server/server.go:161-171 | A successful store write clears the cache, a failed one leaves it alone. |
| EventCache.IndexAnswersLast | registry/server/handlers_analytics.go:102-105 | The index has a name iff the listing has, and answers with the last definition listed. |
| EventCache.CacheIsOneSnapshot | registry/server/handlers_analytics.go:78-109 | In every interleaving a ready cache is the index of one single past listing. |
| EventCache.QuiescentCacheIsCurrent | registry/server/server.go:161-171 | If no write bypasses PublishEvent and no invalidation falls between the read and the install of a fill that missed its write, then with all publishes complete a ready cache is the present store's index. |
| EventCache.QuietCacheIsCurrent | registry/server/server.go:161-171 | The same when no write falls between any fill's read and its install. |
| EventCache.FreshExactlyWhen | registry/server/handlers_analytics.go:91-106 | With no publish pending or completed since its install, the cache is of the present version iff the fill read the version present at its install and no write has bypassed PublishEvent since. |
| EventCache.LateInstallIsStale | registry/server/handlers_analytics.go:91-106 | A fill overtaken by a publish leaves a ready cache that answers from the past with nothing pending. |
| EventCache.OvertakenFillStays | registry/server/handlers_analytics.go:91-106 | The run from a new server for any two listings: miss, read, publish, install; ready, nothing pending, and the first listing's index. |
| EventCache.StaleUntilNextPublish | registry/server/handlers_events.go:73-73 | A ready cache does not change until the next invalidation, so a direct store write stays invisible. |
| LatestVersions.NotAboveIsTransitive | spec/loader.go:188-196 | "Not above" is a total preorder on events with parseable versions. |
| LatestVersions.DeduplicateByLatest | registry/registry.go:32-52 | One event per key, each a latest of its key, for every key that has a parseable version, whatever the map order. |
| LatestVersions.SelectVersions | cmd/event-spec/source.go:62-111 | Key by key in the order of first occurrence: the first event with the pinned version, or without a pin a latest active one, or nothing if there is none. |
| LatestVersions.PinIsHonoured | cmd/event-spec/source.go:76-109 | If the pinned version of an event is in the input, exactly one event of that key is selected and it has that version. |
| LatestVersions.PicksAreTheChoices | cmd/event-spec/source.go:76-109 | Every selected event is its key's choice, no key is selected twice, and a key is missing only if it has no choice. |
| LatestVersions.OrderHasEachKeyOnce | cmd/event-spec/source.go:64-74 | The grouping loop lists each key of the input exactly once. |
| LatestVersions.OrderIsByFirstOccurrence | cmd/event-spec/source.go:64-74 | More input only adds keys at the end. |
| LatestVersions.FirstOfGroup | cmd/event-spec/source.go:64-74 | The first of a group with a version is the first of the whole input with that key and version. |
| LatestVersions.LatestAgree | registry/registry.go:32-52 | Two latest events of the same pool compare equal. |
| RegistryIndex.EventKeyIsInjective | registry/local/resolver.go:78-80 | For slash-free names and versions the key determines namespace, name and version, whatever the namespaces. |
| RegistryIndex.CollidesExactlyWhen | registry/local/resolver.go:78-80 | An event version shares its key with another one if and only if its namespace, name or version has a slash. |
| RegistryIndex.SlashCollides | registry/local/resolver.go:78-80 | A slash in any of the three parts gives another event version with the same key. |
| RegistryIndex.SlashedVersionParses | spec/loader.go:169-184 | Every printed version followed by a slash and dash-free text parses. |
| RegistryIndex.IndexIsKeyed | registry/local/resolver.go:52-60 | The index holds, under each definition's key, a definition of that key from the walk. |
| RegistryIndex.IndexHoldsTheWalk | registry/local/resolver.go:52-60 | Without two definitions of one event version the index holds exactly the walk. |
| RegistryIndex.IndexHoldsTheLast | registry/local/resolver.go:52-60 | With duplicates the last definition of the walk under a key is the one indexed. |
| RegistryIndex.LookupIsExact | registry/local/resolver.go:122-128 | A lookup with a version finds exactly that event and version, iff it is indexed. |
| RegistryIndex.Resolver.Reload | registry/local/resolver.go:47-75 | A successful walk replaces the index, a failed one leaves it. |
| RegistryIndex.Resolver.ListAllEvents | registry/local/resolver.go:83-101 | Exactly the matching definitions, each once, in any order. |
| RegistryIndex.Resolver.ListEvents | registry/local/resolver.go:106-112 | One latest matching definition per key. |
| RegistryIndex.Resolver.GetEvent | registry/local/resolver.go:118-150 | With a version the indexed entry; without, a latest active version over any map order, none iff there is none. |
| RegistryIndex.SelectorsAgree | registry/local/resolver.go:106-150 | Over one index, each with its own order: GetEvent, active ListEvents and unpinned selectVersions have an event of a key together or not at all, at most one each, and the events compare equal. |
| RegistryIndex.PlainVersionsAgreeExactly | registry/local/resolver.go:106-150 | With versions in printed form they agree on the very same definition. |
| RegistryIndex.TrailingTextTies | spec/loader.go:169-184 | Otherwise two versions that differ only in text after the last number tie, for every triple and every such text. |
| GitPin.Agree | registry/git/resolver.go:340-371 | The two loops over the candidates compute the agreement specification. |
| GitPin.AgreedMeans | registry/git/resolver.go:340-371 | A commit is returned iff some candidate names it and all that resolve name it; unresolved iff none does; ambiguous iff two differ. |
| GitPin.OrderDoesNotMatter | registry/git/resolver.go:366-371 | Candidate lists with the same entries in any order give the same result. |
| GitPin.Resolver.Pull | registry/git/resolver.go:112-161 | The new cache and the result of a pull through every branch: rejected name, force, clone or fetch, tag fetch, resolution, checkout, load. |
| GitPin.SucceedsExactlyWhen | registry/git/resolver.go:112-161 | A pull succeeds at a commit iff the names are valid, setup, clone (or the fetch of a present cache), probe, checkout and load worked, and in the cache then at hand the ref names that commit and no other; it leaves that cache with its head there. |
| GitPin.ErrorsExactlyWhen | registry/git/resolver.go:112-161 | A rejected name, a failed setup, clone, fetch or probe is reported if and only if it is the first to fail. |
| GitPin.LateErrorsExactlyWhen | registry/git/resolver.go:137-161 | From there an unresolved or ambiguous ref, a failed checkout and a failed load, each if and only if it is the first, and the cache each leaves. |
| GitPin.EarlyFailureLeaves | registry/git/resolver.go:112-140 | What a pull that fails before that leaves of the cache. |
| GitPin.ResolveMeans | registry/git/resolver.go:323-371 | A commit is resolved iff it is the only one the ref names, unresolved iff it names none, ambiguous iff it names two, by tag, tracked branch or SHA. |
| GitPin.FetchMeans | registry/git/resolver.go:212-220 | Ref by ref: tracked branches follow the remote, cached tags stay, new ones arrive with the commits. |
| GitPin.CloneMeans | registry/git/resolver.go:168-174 | When a clone works and what it holds: everything for a pinned ref, one branch otherwise. |
| GitPin.TagFetchMeans | registry/git/resolver.go:212-220 | The pinned tag's own fetch adds that tag, if absent, and nothing else. |
| GitPin.RefNamesRefused | registry/git/resolver.go:264-301 | Forbidden names, prefixes, characters and sequences are refused wherever they stand. |
| GitPin.PlainRefNamesAccepted | registry/git/resolver.go:264-301 | Names of letters, digits, underscores, slashes, dashes and single dots are accepted, a leading dash, HEAD and refs/ aside. |
| GitPin.Resolver.ResolveCheckoutRef | registry/git/resolver.go:323-371 | Branch tracking without a ref, agreement of tag, branch and commit with one. |
| GitPin.PullKeepsTags | registry/git/resolver.go:212-220 | A pull without Force never changes a cached tag. |
| GitPin.TagPinIsStable | registry/git/resolver.go:112-161 | Once the tag is cached, after any run of pulls without Force against any remote, a pull of it fails or checks out the same commit. |
| GitPin.ShaPinIsStable | registry/git/resolver.go:323-371 | The same for a full SHA whose commit the cache holds, also against a tag or branch of that name. |
| GitPin.BranchIsFollowed | registry/git/resolver.go:323-337 | Without a ref a successful pull is at the remote's present tip of a tracked branch. |
| GitPin.NewTagIsTheRemotes | registry/git/resolver.go:212-220 | A tag not yet cached is pinned at the remote's commit, if its fetch works. |
| GitPin.SilentTagFailure | registry/git/resolver.go:212-220 | If only its fetch fails, the pull succeeds if and only if a branch of that name is tracked on the remote or left in the cache or the ref reads as a commit, and these agree; it reports an unresolved ref iff there is neither. |
| GitPin.SilentTagFailureByName | registry/git/resolver.go:212-220 | For a ref that does not look like a SHA: success iff the cache or the tracked remote has such a branch, else an unresolved ref. |
| GitPin.WrongCommitCounterexample | registry/git/resolver.go:212-220 | The remote has the tag at one commit and the pull succeeds at any other, by a branch on the remote or by one only the cache still has. |
| GitPin.InvalidRefTouchesNothing | registry/git/resolver.go:112-120 | A pull is refused for its names iff a configured name is not a ref name, and then the cache is untouched even with Force. |
| GitPin.ForceReleasesThePin | registry/git/resolver.go:127-131 | With Force a successful pull of a tag is at the remote's present commit. |
| SdkBuffer.AdmitIsSound | sdk/typescript/packages/api/src/queue.ts:37-45 | Admission keeps the account: each item kept in order or lost by overflow, never both; under drop_oldest what is lost is older than what is held. |
| SdkBuffer.TakeKeeps | sdk/typescript/packages/api/src/queue.ts:51-55 | Taking a batch neither loses nor reorders. |
| SdkBuffer.AdmitMeans | sdk/typescript/packages/api/src/queue.ts:37-45 | With room the item joins the end; without, drop_newest loses it and drop_oldest the first one. |
| SdkBuffer.TakeMeans | sdk/typescript/packages/api/src/queue.ts:51-55 | One batch of at most batchSize from the front, the rest stays. |
| SdkBuffer.EnqueuedMeans | sdk/typescript/packages/api/src/queue.ts:37-49 | A batch is taken iff the item was not refused and the batch size is reached. |
| TypeScriptQueue.EventQueue.Enqueue | sdk/typescript/packages/api/src/queue.ts:37-49 | The buffer, the losses and the batches after one enqueue, for any sizes. |
| TypeScriptQueue.EventQueue.Flush | sdk/typescript/packages/api/src/queue.ts:51-55 | One batch from the front, handed over as taken. |
| TypeScriptQueue.EventQueue.FlushAll | sdk/typescript/packages/api/src/queue.ts:51-61 | With nothing arriving it ends; a rejecting callback ends it early. A prefix is handed over in order in batches of 1 to batchSize, everything if and only if no callback before the one for the last batch rejects. |
| TypeScriptQueue.NoBatchNoProgress | sdk/typescript/packages/api/src/queue.ts:51-61 | A flush of a non-empty queue makes no progress iff batchSize is below 1. |
| TypeScriptQueue.RunIsSound | sdk/typescript/packages/api/src/queue.ts:37-61 | In every run nothing is lost but by overflow, order is kept, batches hold 1 to batchSize items. |
| TypeScriptQueue.OverflowReachableExactlyWhen | sdk/typescript/packages/api/src/queue.ts:38-44 | Some run reaches the overflow branch if and only if maxSize < batchSize. |
| TypeScriptQueue.NothingLost | sdk/typescript/packages/api/src/queue.ts:37-61 | If a batch fits in the buffer no run loses anything. |
| KotlinQueue.EventQueue.Append | sdk/kotlin/api/src/main/kotlin/io/eventspec/analytics/Queue.kt:40-49 | The mutex section of enqueue for any sizes: admission, early return, and exactly when the deque throws. |
| KotlinQueue.EventQueue.Take | sdk/kotlin/api/src/main/kotlin/io/eventspec/analytics/Queue.kt:53-59 | The mutex section of flush for any sizes, with its removal loop, takes the front batch, and throws exactly for a negative batch size. |
| KotlinQueue.EventQueue.FlushAll | sdk/kotlin/api/src/main/kotlin/io/eventspec/analytics/Queue.kt:53-65 | The same for a throwing callback. |
| KotlinQueue.RunIsSound | sdk/kotlin/api/src/main/kotlin/io/eventspec/analytics/Queue.kt:40-65 | In every interleaving nothing is lost but by overflow, the take order is the append order, batches are in bounds, and each batch is passed on once. |
| KotlinQueue.WaitingIsBounded | sdk/kotlin/api/src/main/kotlin/io/eventspec/analytics/Queue.kt:40-61 | At most batchSize - 1 items wait beyond the callers that are between their append and their take. |
| KotlinQueue.OverflowNeedsCallers | sdk/kotlin/api/src/main/kotlin/io/eventspec/analytics/Queue.kt:40-51 | An overflow needs at least maxSize - batchSize + 1 such callers. |
| KotlinQueue.OverflowIsReachable | sdk/kotlin/api/src/main/kotlin/io/eventspec/analytics/Queue.kt:40-51 | And for every pair of sizes a run with exactly that many reaches it. |
| Sampling.GoSum32 | hooks/sampling/hook.go:64-67 | The unsigned 32-bit loop computes FNV-1a (section 2 of draft-eastlake-fnv) for every byte sequence. |
| Sampling.TypeScriptFnv1a32 | sdk/typescript/packages/api/src/sampling.ts:51-59 | Signed 32-bit xor, imul and the unsigned shift compute the same. |
| Sampling.KotlinFnv1a32 | sdk/kotlin/api/src/main/kotlin/io/eventspec/analytics/Sampling.kt:37-45 | The masked signed 64-bit accumulator over signed bytes computes the same. |
| Sampling.TypeScriptStep | sdk/typescript/packages/api/src/sampling.ts:54-57 | One byte: the signed product is the hash step modulo 2^32. |
| Sampling.KotlinStep | sdk/kotlin/api/src/main/kotlin/io/eventspec/analytics/Sampling.kt:40-43 | One byte: the masked wrapped product is the hash step modulo 2^32. |
| Sampling.MaskIsMod | sdk/kotlin/api/src/main/kotlin/io/eventspec/analytics/Sampling.kt:40-43 | Masking with k ones is reduction modulo 2^k. |
| Sampling.KeepIsMonotone | hooks/sampling/hook.go:64-69 | Raising the rate keeps everyone kept; rate 1 keeps all, rate 0 none. |
| Sampling.KeptExactlyWhen | hooks/sampling/hook.go:64-69 | A user is kept iff the hash is below rate * 2^32. |
| Sampling.KnownHash | hooks/sampling/hook.go:64-67 | The published test value of the algorithm for the one-letter text a. |
| Sampling.KeepEverywhere | hooks/sampling/hook.go:64-69 | The three implementations take the same decision for every user and rate. |

## Left out

- Floating point: tokens, seconds, rates and sampling fractions are reals; rounding of float64 and overflow of durations are not modelled.
- Liveness of the queue: that a woken caller or the run loop is eventually scheduled depends on the Go runtime; what is proved is which wake-ups are lost and which are not.
- SpecDiff.Diff: the text shown for a sampling change, whose rate is formatted as a float, is left empty; the property fields Diff never reads (default, aliases) are not modelled.
- Payloads.ValidationIsAcceptance: nested item schemas and formats do not occur in the generated document; the regular-expression engine is a parameter, so whether a changed pattern narrows is stated by the strings it matches. A nil property map, which marshals to null and is rejected by every version, is no payload of this model.
- Sampling.KeepEverywhere: starts from bytes; the conversion of ill-formed strings to UTF-8, where the SDKs may differ, is not modelled. The random strategy is not modelled.
- BeforeHooks.InlinedRefinesChain: for hooks with state ignoring the message is shown sufficient; that it is also necessary is shown for hooks without (StatelessAgreementExactlyWhen). A Before hook is a function of its context and of the calls made before it in the same chain; hooks that mutate a shared envelope or depend on other dispatches are not modelled.
- FanOut.ScheduleIndependent: a provider's outcome depends on its index and the envelope, not on the other goroutines; latency, message identifiers and panics are not modelled.
- EventCache.QuiescentCacheIsCurrent: a failed store write is no step; the hooks-enabled switch appears only in the single-caller lookup. The per-source client cache of the server is not modelled.
- GitPin.Resolver.Pull: git is a map of refs with forced branch and unforced tag updates; pruning, garbage collection, partial removal of a cache, directory conflicts between refs, tags that do not point at commits and the wording of errors and remedies are not modelled. What an abbreviated SHA names is unrestricted.
- TypeScriptQueue.EventQueue.Enqueue: a callback that enqueues from within its synchronous part is not modelled.
- KotlinQueue.RunIsSound: the unsynchronised size read returns the present size. Sizes below one are excluded from runs; what single sections do with them is in the class.
- Event patterns of a source (matchesEventPattern), collecting hooks from api, client and providers, and building message contexts: single-branch rules and concatenation that would add only easy members.
- HTTP handlers, CLI, admin UI, SQL store, YAML and JSON decoding, file walking, authentication, code generation, the audit scanner, webhooks and the docs site.
