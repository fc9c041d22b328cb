# ReachRun: producers and their validators

ReachRun's probes are bounded orchestrators. Each drives an untrusted dependency (a TLS observer, a
DNS observer, a resolver and a Web observer, a raw SSH connection) under a context that may end at
any moment, and emits a report. A separately written `Validate` then re-derives the whole run from
the report alone. This project models the orchestrators and the validators and proves that they agree:
over every answer of the dependencies, every moment a context may end and, for the TLS batch, every
interleaving of its workers.

All limits (targets, attempts, workers, aliases, redirects, candidates, service targets, preamble
lines and bytes) are symbolic fields of a `Policy`; `SOURCE_POLICY` holds the repository's values.

| files | what they model |
|---|---|
| `Basics.dfy` | shared values: outcomes, sticky contexts, sequences |
| `ContextReads.dfy` | `terminalContext`, which both paths share: four reads of two contexts, each at its own moment |
| `CallLog.dfy` | the log of the calls a path really makes, over any question and answer type |
| `RetryBatch.dfy` | TLS retry batch: report, request normalisation, retry rule, `Validate` |
| `RetryScheduler.dfy`, `RetryInvariant.dfy`, `RetryTheorems.dfy` | its worker pool as a step relation, the inductive invariant, and what holds of every run |
| `RetryHistory.dfy`, `RetryVerdict.dfy` | what every run did before it dialled, recorded, settled or failed, and the order in which the verdict reads the contexts |
| `DnsEvidence.dfy`, `DnsResponse.dfy` | CNAME chasing, the producer's and the validator's answer classifiers, section parsing |
| `ServiceCodec.dfy`, `ServiceBindings.dfy`, `TargetSelection.dfy` | service parameter decoders, the compatibility rule, the ordered address targets |
| `HttpsPath.dfy`, `HttpsPathValidator.dfy` | the report of the alias-following HTTPS path, and its validator |
| `HttpsPathWorld.dfy`, `HttpsPathQueries.dfy`, `HttpsPathAddresses.dfy`, `HttpsPathObserver.dfy` | its producer: one query, the address loops, the alias loop |
| `HttpsPathExits.dfy`, `HttpsPathTruth.dfy` | why every exit meets the contract, and what the log says of the report |
| `WebPath.dfy`, `WebPathValidator.dfy` | the report of the redirect and fallback chain, and its validator |
| `WebPathWorld.dfy`, `WebPathHops.dfy`, `WebPathObserver.dfy` | its producer: one hop, the redirect loop, the fallback |
| `WebPathChain.dfy`, `WebPathTruth.dfy` | why every end of a chain meets the contract, and what the log says of the report |
| `Hostnames.dfy`, `Redirects.dfy` | hostname normalisation and redirect targets, which discharge what the two paths assume |
| `SshIdentification.dfy`, `SshExchange.dfy` | the identification parser and the bounded byte-at-a-time exchange |
| `WebTiming.dfy` | stage sums and the certificate window in 64-bit arithmetic |

Contexts and dependencies are functions of a moment, so a theorem about every such function is a
theorem about every environment. The path observers also carry a ghost log of the calls they make,
questions and answers; their contracts tie the report's evidence, its verdict and every question that
was asked to that log. The TLS batch interleaves steps of its workers, of the calling goroutine and of
the environment.

## Where the code and its validator differ

Each of these is proved as a condition that holds if and only if the difference occurs, with a concrete
case, and the code is modelled as it is.

- An empty TLS request is reported with a nil target list, which the validator refuses. It accepts
  every other report of every other request (`RetryTheorems.ObserveAgreesWithValidate`).
- The HTTPS path copies the detail of a failed HTTPS observation into its report. The validator refuses
  the report of an accepted request exactly when the last call was an HTTPS query, answered by a failure
  whose detail is blank but not empty while both contexts stayed live
  (`HttpsPathTruth.BlankFailureExactly`). A DNS observer that never gives such a detail is therefore
  enough (`HttpsPathObserver.Observe`), and one that does is refused
  (`HttpsPathObserver.BlankDetailIsRefused`).
- A rejected hostname is reported as normalised once. If that text still ends in a dot or a space a
  second normalisation changes it, and the validator refuses the report (`Hostnames.FixpointCondition`,
  `Hostnames.RejectedNamesMove`). Accepted names are always fixpoints.
- An SSH identification before 2.0 that fills 255 bytes with a bare LF is accepted by the exchange
  and refused when the validator re-parses it with CR LF (`SshIdentification.RevalidationSucceeds`,
  `SshIdentification.LongBareLineIsRefusedLater`).
- Both paths can report a path timeout although the read that decided met no deadline. This happens
  exactly when the caller cancels between the first two reads of the caller's context
  (`ContextReads.FalseTimeoutExactly`, and `CancellationIsReportedAsATimeout` of either observer).
- The certificate window also lets through a certificate that expired on its first nanosecond, which
  no attempt explains, and nothing else (`WebTiming.WindowIsExact`, `WebTiming.ExpiredCertificateIsAccepted`).

## Model

| member | source | states |
|---|---|---|
| RetryTheorems.ObserveAgreesWithValidate | internal/tlsretrybatch/observer.go:137-201 | on every interleaving, answer and moment of cancellation the report that is returned is accepted by the validator, if and only if the request is not empty |
| RetryTheorems.VerdictIsRight | internal/tlsretrybatch/observer.go:174-200 | a recorded failure decides the verdict; otherwise cancelled means the caller cancelled, batch_timeout that a deadline passed, completed that both contexts were live at commit |
| RetryTheorems.FailureAndSourceAreWriteOnce | internal/tlsretrybatch/observer.go:302-327 | the failure, the source and ended contexts never change again on any run |
| RetryTheorems.FallthroughIsUnreachable | internal/tlsretrybatch/observer.go:184-192 | whenever the scheduler-failure fallthrough is evaluated every target holds 1 to attemptLimit attempts, each but the last retryable, and the last settles it |
| RetryTheorems.NoTargetIsLostOrShared | internal/tlsretrybatch/observer.go:155-174 | in every reachable state a target is queued, owned by exactly one worker, or released |
| RetryTheorems.ReleasedTargetsAreFinal | internal/tlsretrybatch/observer.go:155-174 | a released target is never queued, owned or changed again, so none runs twice |
| RetryTheorems.WorkIsBounded | internal/tlsretrybatch/observer.go:155-174 | at most concurrencyLimit observations in flight, at most targetLimit times attemptLimit on a whole run |
| RetryTheorems.StartedCountsObservations | internal/tlsretrybatch/observer.go:217-275 | the per-target counters add up to the calls of the TLS observer that the run made |
| RetryHistory.AttemptsWereObserved | internal/tlsretrybatch/observer.go:217-275 | the attempt at position a of a target is numbered a + 1, is what the TLS observer answered to exactly that attempt, and records the delay that was picked within the bounds and waited out before it; a success is recorded only if a check after the answer found the batch live |
| RetryHistory.SuccessesWereInTime | internal/tlsretrybatch/observer.go:242-245 | a recorded success was answered while the batch was live, before and after the answer |
| RetryHistory.NoAnswerIsLost | internal/tlsretrybatch/observer.go:239-260 | once no worker has an answer any more, it is the attempt it was given to, unless it was a success and the batch had ended, or it was refused as evidence |
| RetryHistory.DialsWereAllowed | internal/tlsretrybatch/observer.go:217-241 | an attempt is dialled only after a check found the batch live, and a retry only after its delay was picked within the bounds and waited out without an error |
| RetryHistory.CompletedWhileLive | internal/tlsretrybatch/observer.go:261-274 | a target is completed only if the check after its last attempt found the batch live and the attempt was no cancellation |
| RetryHistory.FailuresHaveACause | internal/tlsretrybatch/observer.go:224-268 | a recorded scheduler failure was a delay out of bounds or a wait that failed in a live batch; recorded invalid evidence was a refused answer or a cancellation in a live batch |
| RetryVerdict.VerdictPriority | internal/tlsretrybatch/observer.go:174-200 | without a failure a caller who had cancelled when the workers were done is told so even after the batch's deadline, a passed deadline of the caller or of the batch is a timeout, and a batch whose contexts stay live completes |
| RetryVerdict.NothingStartsTooLate | internal/tlsretrybatch/observer.go:146-150 | no worker moves unless the caller's context was live when it was first read |
| RetryVerdict.ReportCoversTheRequest | internal/tlsretrybatch/observer.go:203-215 | the report holds one result for each of the first targetLimit distinct targets in request order, under its family, and counts the others |
| RetryTheorems.HistoryIsTrue | internal/tlsretrybatch/observer.go:335-356 | the recorded timer and commit reads really happened at some step of the run |
| RetryTheorems.RunsAreFinite | internal/tlsretrybatch/observer.go:155-192 | every run is no longer than a measure of the initial state |
| RetryTheorems.NeverStuck | internal/tlsretrybatch/observer.go:155-192 | until the report is returned some goroutine can take a step |
| RetryTheorems.EveryStateKeepsInv | internal/tlsretrybatch/observer.go:137-275 | the invariant holds in every state of every run |
| RetryInvariant.InitialInv | internal/tlsretrybatch/observer.go:203-215 | the invariant holds when the pool starts |
| RetryInvariant.StepKeepsInv | internal/tlsretrybatch/observer.go:137-275 | every step of a worker, the caller or the environment keeps the invariant |
| RetryInvariant.FetchStep | internal/tlsretrybatch/observer.go:166-171 | receiving a job moves one target from the queue to one worker |
| RetryInvariant.AcceptStep | internal/tlsretrybatch/observer.go:251-260 | recording an admissible observation keeps the schedule and the single source |
| RetryInvariant.RefuseStep | internal/tlsretrybatch/observer.go:285-300 | a refused observation changes no target |
| RetryInvariant.SettleStep | internal/tlsretrybatch/observer.go:270-273 | completing a target releases it settled |
| RetryInvariant.GoOnStep | internal/tlsretrybatch/observer.go:261-274 | an attempt that must be repeated, or was interrupted or failed, keeps the invariant |
| RetryInvariant.StopStep | internal/tlsretrybatch/observer.go:277-327 | recording a failure, cancelling and interrupting keep the invariant |
| RetryInvariant.RecordKeepsSchedule | internal/tlsretrybatch/validate.go:106-189 | appending the next attempt to a schedule the validator accepts gives one it accepts |
| RetryInvariant.DrainedPoolHasSettled | internal/tlsretrybatch/observer.go:155-174 | when all workers have left a live batch every target is completed |
| RetryInvariant.EndingIsValid | internal/tlsretrybatch/observer.go:358-391 | any report assembled when no worker can run is accepted by the validator |
| RetryBatch.NormalizeRequest | internal/tlsretrybatch/normalize.go:11-49 | the loop keeps the first occurrence of every normalised target and rejects exactly the empty, the oversized and the unusable request |
| RetryBatch.DedupIsOrderPreserving | internal/tlsretrybatch/normalize.go:11-49 | the kept targets are distinct, are all the requested ones, and keep the order of first appearance |
| RetryBatch.NormalizationIsFixpoint | internal/tlsretrybatch/normalize.go:11-49 | normalising a normalised request changes neither the list nor the verdict |
| RetryBatch.ValidateTarget | internal/tlsretrybatch/validate.go:106-189 | accepts only schedules that meet the contract, and refuses one that does only over its source |
| RetryBatch.ValidateTargets | internal/tlsretrybatch/validate.go:64-70 | threading the first source through nested loops decides that all attempts share one source |
| RetryBatch.Validate | internal/tlsretrybatch/validate.go:14-79 | accepts exactly the reports that meet the declarative contract |
| RetryBatch.RefusedSourceDiffers | internal/tlsretrybatch/validate.go:106-189 | a target refused over its source really disagrees with an earlier attempt |
| DnsEvidence.FollowCnames | internal/dnsobservation/message.go:393-424 | complete exactly when no owner has two targets and the chain ends; then the name is where it ends |
| DnsEvidence.FollowIsExact | internal/dnsobservation/message.go:393-424 | the same for the functional form, on every record list |
| DnsEvidence.FollowIgnoresOrder | internal/dnsobservation/message.go:393-424 | permuting the records changes neither the flag nor, when complete, the name |
| DnsEvidence.FollowStops | internal/dnsobservation/message.go:393-424 | complete or not, the effective name is where following the first CNAME of each name ends, or would come back |
| DnsEvidence.FollowedIsUnique | internal/dnsobservation/message.go:393-424 | there is only one such way to go, so the effective name is determined for every record list |
| DnsEvidence.FuelLasts | internal/dnsobservation/message.go:393-424 | pigeonhole: while the walk stands on an owner it has fuel left, so the check after the loop never finds a target |
| DnsEvidence.EndingChainIsUnique | internal/dnsobservation/message.go:393-424 | an unambiguous record set has at most one chain to an end |
| DnsEvidence.ValidateEvidence | internal/dnsobservation/validate.go:247-316 | the validator's differently shaped classifier accepts exactly the evidence whose kind the producer's classifier gives |
| DnsEvidence.KindIsUnique | internal/dnsobservation/validate.go:227-316 | at most one answer kind is acceptable for the same evidence |
| DnsResponse.ParseSection | internal/dnsobservation/message.go:170-193 | fails exactly on an untruncated break or an overflow of the shared record budget, and otherwise returns the section |
| DnsResponse.DecodeSections | internal/dnsobservation/message.go:111-168 | fails exactly when a section that is reached cannot be read with what the earlier ones left of the record limit; otherwise it returns the sections up to the first one cut short, which is always marked truncated |
| DnsResponse.ReadSectionEnds | internal/dnsobservation/message.go:170-193 | a section that was read ends after exactly its records, or nowhere if it was cut short, so what is reached next is determined |
| DnsResponse.EvidenceFromResponse | internal/dnsobservation/message.go:221-358 | the records tell exactly the kept answers, one each in wire order; a CNAME leads from a to b in the records exactly when a class-IN CNAME answer does; the chain, the extended code, the authority and the kind follow from them |
| DnsResponse.ReadAnswers | internal/dnsobservation/message.go:228-295 | every class-IN answer of a kept type, and no other, becomes one record in wire order with its canonical owner, its type, and its CNAME or service target; AliasMode is exactly priority 0 |
| DnsResponse.EdgesAreOnTheWire | internal/dnsobservation/message.go:262-268 | the records lead from a to b exactly when a class-IN CNAME answer does |
| DnsResponse.ResponseCode | internal/dnsobservation/message.go:221-232 | the first OPT record extends the header's code by its upper bits; without one the header's code stands |
| DnsResponse.ReadAuthorities | internal/dnsobservation/message.go:297-330 | finds an SOA exactly if there is one of class IN, and counts the class-IN name servers |
| DnsResponse.ObserveResponse | internal/dnsobservation/message.go:111-358 | there is no evidence exactly when a reached section fails; evidence tells the decoded answers, chain, code and authority, and is accepted by the other classifier exactly when its name is canonical |
| ServiceCodec.MandatoryKeys | internal/dnshttpspath/service.go:155-170 | accepts exactly the encodings of non-empty strictly ascending key lists and returns the list |
| ServiceCodec.KeyListIsUnique | internal/dnshttpspath/service.go:155-170 | a value encodes at most one key list |
| ServiceCodec.AlpnIds | internal/dnshttpspath/service.go:172-187 | accepts exactly the encodings of non-empty lists of identifiers of 1 to 255 bytes and returns the list |
| ServiceCodec.DecodeInvertsEncode | internal/dnshttpspath/service.go:172-187 | decoding an encoded list gives the list |
| ServiceCodec.EncodeInvertsDecode | internal/dnshttpspath/service.go:172-187 | encoding a decoded list gives the bytes |
| ServiceCodec.NormalizedKeys | internal/dnshttpspath/service.go:209-218 | sorting and compacting in place leaves the strictly ascending list of the same keys |
| ServiceBindings.EvaluateBinding | internal/dnshttpspath/service.go:52-153 | decides every parameter list as sections 7 and 8 of RFC 9460 demand, with the ascending list of exactly the offending keys |
| ServiceBindings.DecisionIsUnique | internal/dnshttpspath/service.go:52-153 | the declarative rule allows one decision |
| ServiceBindings.UnusableMeansOffenders | internal/dnshttpspath/service.go:52-153 | the offender list is non-empty exactly when the binding is unusable |
| ServiceBindings.UnknownParameterIsIgnored | internal/dnshttpspath/service.go:52-153 | an unknown parameter the mandatory list does not name changes nothing, wherever it stands |
| ServiceBindings.ReadParameters | internal/dnshttpspath/service.go:66-101 | collects the parameter values and exactly the keys whose own value is misformed |
| ServiceBindings.AddMissing | internal/dnshttpspath/service.go:103-121 | adds exactly the keys missing beside no-default-alpn and the mandatory list |
| ServiceBindings.FindUnsupported | internal/dnshttpspath/service.go:129-146 | lists exactly the keys this client cannot honour, without reading a short port |
| TargetSelection.ServiceAddressTargets | internal/dnshttpspath/service.go:220-246 | computes the first usable decision of every hostname in stable priority order |
| TargetSelection.TargetsAreLeastUsable | internal/dnshttpspath/service.go:220-246 | the targets are exactly the usable hostnames, once each, with their least priority, by priority and then wire position |
| TargetSelection.TruncationKeepsTheBest | internal/dnshttpspath/observer.go:227-232 | no omitted hostname beats a kept one, and kept and omitted together are all usable hostnames |
| HttpsPath.RelevantBindings | internal/dnshttpspath/service.go:27-42 | lists every HTTPS record at the effective name, AliasMode apart from ServiceMode, each under its own position in wire order, and no other record |
| HttpsPath.ReferencesAreExact | internal/dnshttpspath/service.go:27-42 | a reference is listed exactly when it names a relevant record of the mode by its position |
| HttpsPathObserver.Observe | internal/dnshttpspath/observer.go:128-268 | every report is accepted, exactly up to blank details and unstable rejected names, and always if the DNS observer gives no blank detail; its evidence is the answers of the logged calls in order, its reason is what really happened last; the log asks HTTPS for distinct names and then the address queries of the targets in order, answered or not, within the limits; only an interruption leaves an address unasked, and a failure wins over an incomplete answer; at a loop or limit the seen set is the validator's |
| HttpsPathTruth.EverythingIsAsked | internal/dnshttpspath/observer.go:270-333 | an uninterrupted path whose last HTTPS answer was complete has made both address queries of every target |
| HttpsPathTruth.LogFollowsTheReport | internal/dnshttpspath/observer.go:148-333 | the questions of the log are determined by the report: HTTPS for each recorded name and at most the one it leads to, all distinct, then A and AAAA target by target |
| HttpsPathTruth.BlankFailureExactly | internal/dnshttpspath/observer.go:184-194 | the report of an accepted request is refused exactly when the last call was an HTTPS query answered, with both contexts live, by an admissible failure with a blank detail |
| HttpsPathTruth.BlankDetailNeedsABlankAnswer | internal/dnshttpspath/observer.go:363-368 | a blank detail in the report was given by the DNS observer |
| HttpsPathTruth.BlankFirstAnswerIsRefused | internal/dnshttpspath/observer.go:363-368 | if the first query is answered by a blank failure the report is refused, for every accepted request |
| HttpsPathObserver.BlankDetailIsRefused | internal/dnshttpspath/validate.go:13-179 | for every hostname there is such an environment, and its report is refused |
| HttpsPathObserver.CancellationIsReportedAsATimeout | internal/dnshttpspath/observer.go:370-385 | a caller that cancels between the first two reads is told of a path timeout, for every accepted request |
| HttpsPathObserver.ObserveChain | internal/dnshttpspath/observer.go:148-268 | the alias loop terminates, and its report meets the contract and is true of its log |
| HttpsPathObserver.FollowAlias | internal/dnshttpspath/observer.go:198-224 | an AliasMode target ends the path as unavailable, loop or limit in a report the validator accepts, or extends the chain with a new name |
| HttpsPathAddresses.ObserveAddressTargets | internal/dnshttpspath/observer.go:270-333 | A then AAAA per target in order, and all of them unless a context ended, evidence was refused or an observation cancelled; then a failure in the evidence wins over an incomplete answer, and otherwise every answer is complete |
| HttpsPathAddresses.ObserveTarget | internal/dnshttpspath/observer.go:277-319 | one target's queries keep the order, the flags and the account of the log |
| HttpsPathObserver.ExchangeHttps | internal/dnshttpspath/observer.go:152-194 | what the answer to the current name's HTTPS query means for the path; it is recorded exactly if it is evidence, and the log accounts for it |
| HttpsPathObserver.ExchangeEnds | internal/dnshttpspath/observer.go:152-194 | however the exchange ends the path, its report meets the contract and is true of the log; if it goes on, the seen names are the validator's |
| HttpsPathQueries.AskingOk | internal/dnshttpspath/observer.go:280-310 | one query between two looks at the contexts: nothing is asked once a context has ended, the log gains exactly this query otherwise; refused and late successful answers are discarded, all others are evidence, every reason is what really happened |
| HttpsPathQueries.Ask | internal/dnshttpspath/observer.go:280-310 | the method does exactly that, keeping the adapter of the first answer |
| HttpsPathQueries.ReportBuilder.ValidateObservation | internal/dnshttpspath/observer.go:335-361 | an accepted observation fits its question and the adapter of the first one, which never changes; a refused one does not |
| HttpsPathObserver.PlanServices | internal/dnshttpspath/observer.go:226-232 | the planned targets and the omitted count are what the validator recomputes; some binding is usable exactly when there is a target |
| HttpsPathObserver.FinishFallback | internal/dnshttpspath/observer.go:245-266 | without HTTPS records the path asks for the final name itself, as alias or origin fallback |
| HttpsPathExits.RevisitlessIsDistinct | internal/dnshttpspath/observer.go:148-224 | no HTTPS query repeats an earlier name or an earlier effective name |
| HttpsPathExits.UsableMeansTargets | internal/dnshttpspath/observer.go:226-241 | a usable binding exists exactly when there is an address target |
| ContextReads.LookIsRight | internal/dnshttpspath/observer.go:370-385 | cancelled means the caller cancelled, and going on that both contexts were live |
| ContextReads.FalseTimeoutExactly | internal/dnshttpspath/observer.go:370-385 | a look reports a timeout without having met a deadline if and only if the caller cancelled between its first two reads |
| ContextReads.CancellationCanLookLikeATimeout | internal/webpath/observer.go:362-377 | a plain cancellation at any moment is reported as a timeout by the look it overtakes |
| CallLog.KeptAnswers | internal/dnshttpspath/observer.go:148-194 | in an accepted log every entry is a real call, made right after a look that found both contexts live and later than those before it; its answer is the evidence at its place and is about the question that was asked |
| HttpsPathValidator.Validate | internal/dnshttpspath/validate.go:13-179 | accepts exactly the reports that meet the declarative contract |
| HttpsPathValidator.ValidateChain | internal/dnshttpspath/validate.go:86-120 | the pass accepts exactly linked alias chains of one adapter and collects the queried names |
| HttpsPathValidator.ValidateAddressTargets | internal/dnshttpspath/validate.go:222-270 | accepts exactly the expected targets with A then AAAA prefixes, complete when the path is |
| HttpsPathValidator.ValidateStopEvidence | internal/dnshttpspath/validate.go:309-355 | accepts a stop reason exactly when the evidence shows it |
| HttpsPathValidator.ValidateTail | internal/dnshttpspath/validate.go:122-178 | recomputed decisions, targets and omitted count decide the report |
| HttpsPathValidator.ObserveThenValidate | internal/dnshttpspath/validate.go:13-179 | observing an accepted hostname and validating succeeds unless a blank detail was copied, and always if the DNS observer gives none |
| WebPath.SelectPublicCandidates | internal/webpath/observer.go:335-360 | keeps the first candidateLimit eligible addresses per family in resolver order |
| WebPathObserver.Observe | internal/webpath/observer.go:118-153 | every report of an accepted hostname is accepted; its evidence is the accepted answers of the logged calls in order, the log asks for each hop's hostname and its candidates in order, answered or not; no URL of a chain repeats, a response ends a chain for exactly the reason it gives, HTTP is tried exactly when every candidate of the first hop failed and the path is live, and the contexts at commit have the last word; hops and redirects add up |
| WebPathObserver.CancellationIsReportedAsATimeout | internal/webpath/observer.go:362-377 | a caller that cancels between the first two reads is told of a path timeout, for every accepted hostname |
| WebPathObserver.ObserveBothChains | internal/webpath/observer.go:132-150 | the fallback runs once, after a first chain without any response, while the path is live |
| WebPathObserver.ObserveChain | internal/webpath/observer.go:175-237 | the redirect loop terminates without visiting a URL twice, for exactly the reason its last hop shows, which is true of its log |
| WebPathChain.DecisionIsExact | internal/webpath/observer.go:203-236 | a last response stops a chain as final, one redirect too many, unavailable, invalid, unsafe or a loop if and only if it is that; a loop is a redirect below the limit to a URL of the same chain |
| WebPathChain.StillDiffer | internal/webpath/observer.go:226-235 | recording the hop of an unseen URL keeps all URLs of the chain different |
| WebPathChain.FirstChainDecides | internal/webpath/observer.go:132-150 | after a first hop whose candidates all failed, with the look after them finding nothing, the fallback is taken exactly if the path's context is still live |
| WebPathObserver.Turn | internal/webpath/observer.go:186-236 | one turn records the observed hop, counts the redirect that led to it, and stops or follows as the response demands |
| WebPathChain.TurnIsInOrder | internal/webpath/observer.go:186-236 | after a turn the trail shows why the chain stops, or leads to a URL not seen before |
| WebPathChain.TurnIsTrue | internal/webpath/observer.go:186-236 | what the log says of the hop it says of the trail that records it |
| WebPathHops.ObserveHop | internal/webpath/observer.go:239-333 | the hop is one the validator accepts, its reason is shown by its evidence, and the log accounts for it |
| WebPathHops.ResolvingOk | internal/webpath/observer.go:249-287 | after the resolution the hop has ended for a reason its answer shows, or has candidates to try |
| WebPathHops.ResolvingIsTrue | internal/webpath/observer.go:249-287 | the log accounts for the resolution, and for the reason the hop ended |
| WebPathHops.TryCandidates | internal/webpath/observer.go:281-332 | dials the bounded candidates in order until one responds or the hop is interrupted |
| WebPathHops.DiallingOk | internal/webpath/observer.go:289-323 | one dial of exactly this candidate: a refused answer is discarded, any other is recorded before the contexts are read, and every reason is what really happened |
| WebPathHops.Attempt | internal/webpath/observer.go:289-323 | the method dials exactly that, and the attempt is what was answered if that matches the request |
| WebPathWorld.CommittedWhileLive | internal/webpath/observer.go:362-377 | a report without interruption found both contexts live at commit |
| WebPathChain.FallbackIsHead | internal/webpath/observer.go:133-141 | an exhausted first HTTPS hop allows the HTTP chain to begin |
| WebPathChain.DecisionIsEvident | internal/webpath/observer.go:203-236 | whatever a response makes the chain stop for is shown by that response |
| WebPathTruth.LogFollowsTheTrail | internal/webpath/observer.go:239-333 | the questions of the log are determined by the hops: each hostname and then its candidates in order, and at most one more, so that even a refused dial is to a candidate of its hop |
| WebPathValidator.Validate | internal/webpath/validate.go:17-126 | accepts exactly the reports that meet the declarative contract |
| WebPathValidator.ValidateHop | internal/webpath/validate.go:167-262 | accepts exactly canonical hops whose attempts dial the bounded candidates in order |
| WebPathValidator.ValidateAttempt | internal/webpath/validate.go:213-257 | the address set, public address, repetition and family checks follow from the candidate order |
| WebPathValidator.FollowingCandidatesIsSafe | internal/webpath/validate.go:230-247 | an address that follows the bounded candidates is resolved, public, new and within its family's limit |
| WebPathValidator.CandidatesAreBounded | internal/webpath/observer.go:335-360 | candidates are eligible answers, as many of each family as there are, up to the limit |
| WebPathValidator.CandidatesAreInOrder | internal/webpath/observer.go:335-360 | the candidates are exactly the addresses among the first candidateLimit eligible ones of their family, in resolver order |
| WebPathValidator.CandidatesAreDistinct | internal/webpath/observer.go:335-360 | distinct resolver answers give distinct candidates |
| WebPathValidator.ExhaustedPublicCandidates | internal/webpath/validate.go:289-303 | true exactly when every one of some candidates was dialled and failed |
| WebPathValidator.ValidateTransitions | internal/webpath/validate.go:88-111 | accepts exactly hop chains of redirects with one fallback, and counts the redirects |
| WebPathValidator.ValidateTerminalEvidence | internal/webpath/validate.go:305-374 | accepts a reason exactly when the last hop shows it |
| WebPathValidator.ObserveThenValidate | internal/webpath/validate.go:17-126 | observing and validating succeeds for every accepted hostname, and exactly when the name is stable |
| Redirects.WebRulesAreValid | internal/webpath/redirect.go:27-77 | every redirect target is canonical, so the Web path's assumptions hold of the code's own rules |
| Redirects.ResolveIsExact | internal/webpath/redirect.go:27-77 | a Location is followed to exactly the HTTP(S) URL on its own port and a public hostname that it resolves to; it is unsafe exactly for credentials, another scheme, or another port of a public host, and invalid otherwise |
| Hostnames.FixpointCondition | internal/dnsobservation/message.go:58-60 | a normalised text normalises to itself exactly when it ends in neither a dot nor a space |
| Hostnames.AcceptedNamesAreFixpoints | internal/nettarget/webhostname.go:14-50 | every accepted name is a fixpoint of both normalisations |
| Hostnames.DnsRulesAreValid | internal/dnsobservation/message.go:58-94 | the HTTPS path's assumptions on names hold of the code's own rules |
| Hostnames.RejectedNamesMove | internal/nettarget/webhostname.go:14-19 | for every accepted name h, "h.." is rejected as "h.", which normalises to the accepted h |
| Hostnames.WebNamesAreDnsNames | internal/nettarget/webhostname.go:14-50 | every name the Web path accepts is accepted for DNS Observations |
| Hostnames.TrailingDotIsAnEmptyLabel | internal/nettarget/webhostname.go:34-37 | a name with a trailing dot has an empty label |
| Hostnames.LabelsSplitAtDots | internal/nettarget/webhostname.go:34-37 | the labels hold no dot, and joined by dots they are the name |
| SshIdentification.ParseInvertsPrint | internal/sshobservation/identification.go:137-190 | a line parses to given fields exactly when it prints them, within the limit, with CR LF or a bare LF before 2.0 |
| SshIdentification.ParsedLinesArePrinted | internal/sshobservation/identification.go:137-190 | the recorded raw text of an accepted line is the printed fields |
| SshIdentification.PrintIsInjective | internal/sshobservation/identification.go:137-190 | two valid identifications with the same text are the same |
| SshIdentification.RevalidationSucceeds | internal/sshobservation/validate.go:88-97 | the validator's second parse succeeds exactly unless a bare LF filled the limit, that is when the raw text leaves room for CR LF |
| SshIdentification.LongBareLineIsRefusedLater | internal/sshobservation/validate.go:88-97 | a 255-byte bare-LF line of SSH 1.99 is accepted by the exchange and refused by the validator |
| SshExchange.WriteAll | internal/sshobservation/identification.go:83-96 | sends all of the data if every Write takes something without an error, and otherwise as far as the first one that does not, whose error, or short write if it took nothing, it returns |
| SshExchange.ReadServerLine | internal/sshobservation/identification.go:98-135 | makes one read for each byte it returns and at most one more, and goes on exactly while the bytes leave open whether an acceptable line will come of them and no read fails |
| SshExchange.UndecidedByItsTests | internal/sshobservation/identification.go:107-126 | the reader's tests on the bytes so far are equivalent to an acceptable line still being possible |
| SshExchange.DecideLine | internal/sshobservation/identification.go:45-77 | what each line means for the exchange; the byte half of the preamble check is never reached |
| SshExchange.ExchangeIdentification | internal/sshobservation/identification.go:33-81 | fails to write exactly if a Write gives up, with that error; otherwise it terminates on every connection and pattern of read errors, having made one read for each byte of the lines it read |
| SshExchange.ExchangeIsBounded | internal/sshobservation/identification.go:12-16 | at most maxPreambleLines lines and maxPreambleBytes + maxIdentificationBytes bytes |
| SshExchange.ExchangesAgree | internal/sshobservation/identification.go:33-135 | the bytes decide everything: two exchanges of one stream read the same lines and end alike, so nothing after the identification matters |
| SshExchange.RecordIsAccepted | internal/sshobservation/validate.go:69-113 | the validator accepts the record of every exchange except the bare-LF line that filled its limit |
| SshExchange.RecordIsTrue | internal/sshobservation/observation.go:175-197 | an identification is recorded exactly when the last line is one and both contexts were live at commit, with the fields it prints and the number of lines before it |
| WebTiming.ValidateStages | internal/webobservation/validate.go:120-135 | the incremental 64-bit check is the mathematical sum bound |
| WebTiming.DurationBoundIsExact | internal/webobservation/validate.go:97-100 | the duration bound admits exactly the durations whose window arithmetic does not overflow |
| WebTiming.WindowIsMathematical | internal/webobservation/validate.go:237-239 | for accepted stages the window is the mathematical one, and wider than the handshake |
| WebTiming.MeasuredStagesFit | internal/webobservation/observation.go:518-546 | the separately truncated stages of every ordered trace fit its truncated total exactly below the representable interval |
| WebTiming.HandshakeIsInTheWindow | internal/webobservation/validate.go:237-243 | a certificate valid at any moment of the handshake is accepted |
| WebTiming.WindowIsExact | internal/webobservation/validate.go:237-243 | a certificate is accepted exactly when some attempt with these timings explains it, or it expired on the window's first nanosecond |
| WebTiming.ExpiredCertificateIsAccepted | internal/webobservation/validate.go:237-243 | a certificate that had expired just as the window of a one-second attempt opens is accepted, and no attempt explains it |

## Left out

- Sockets, HTTP and TLS stacks, the DNS wire codec, URL and address parsing, hashing and hex are values or functions left uninterpreted; a `wellFormed` flag stands for the field checks of an embedded observation's own validator that the orchestrators do not look at.
- Envelope fields that no orchestrator computes from its run (schema version, operation, observation time, non-negative duration, explicit empty arrays other than the TLS target list) are not in the reports.
- Error texts are kept only as absent, blank or present; failure code enumerations outside the TLS retry rule, JSON, exit codes and command-line parsing are not modelled.
- Contexts end with cancellation or a deadline; a caller's context type with other errors is not modelled.
- Jitter is any delay the dependency returns; real time appears only in `WebTiming`, where `time.Time` is an unbounded number of nanoseconds.
- Address detail of DNS records is dropped: a record is its name, type, CNAME target and service binding.
- internal/webrecheck repeats the shape of the two paths with one flat loop; internal/browserplaceholder, internal/platform and the prefix tables of internal/nettarget are operating-system calls or one-branch checks.
- The dialer, timeout classification and failure mapping of internal/webobservation and internal/sshobservation are outside the model; only their arithmetic, parsing and stream reading are in it.
- ServiceCodec.SortKeys: states the order and the same set of keys, not a permutation, because the duplicates are removed next; it stands for the library's sort.
- TargetSelection.ServiceAddressTargets: the library's stable sort is a verified function on values rather than an array algorithm.
- Hostnames.AcceptedNamesAreFixpoints: strings are code points and the Unicode tables are constrained only as far as the proof needs; invalid UTF-8 is not modelled.
- SshExchange.Connection.Write: a writer that claims more bytes than it was given is not modelled.
- RetryTheorems.NeverStuck: a TLS observer or wait that never returns is a worker that is never scheduled again; runs are counted in steps, not time.
