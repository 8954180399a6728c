# Verified core of the Lead sources

This project models the parts of the Lead iOS app and of its vendored libraries in which a wrong step is
hard to see, and proves what they are for. `dafny verify dfyconfig.toml` checks all of it.

| files | what they model |
|---|---|
| `MultipartSpec`, `MultipartRoundTrip`, `Multipart` | Alamofire's multipart encoder, in memory and streaming, and a reader for the grammar of section 5.1.1 of RFC 2046 |
| `QueryEscape`, `QueryTree`, `QueryTreeRoundTrip`, `UrlEncoding` | Alamofire's URL query encoder, and the reader that undoes it |
| `SessionSpec`, `SessionSafety`, `SessionOutcomes`, `SessionErrors`, `SessionRetries`, `Session` | the life of a request in Alamofire: tasks, registry, validations, the asynchronous retrier, completion |
| `SnapAttributes`, `SnapCompiler`, `SnapMeaning`, `SnapUpdate`, `SnapMaker` | SnapKit's compilation of constraints into layout equations, and making, remaking and updating them |
| `TcpSocketSpec`, `TcpSocketSafety`, `TcpSocketLog`, `TcpSocketOutcomes`, `TcpSocket` | tun2socks' TCP socket over the lwIP callbacks, with a delegate that calls back from any callback |
| `MmdbReader` | the recursive reader of the MaxMind entry list |
| `ResolverSpec`, `Resolver` | address lookups with their table of contexts |
| `SynchronizationTracker` | RxSwift's detection of overlapping calls |
| `ConfigStore`, `DataManager` | the app's store of proxy configurations |
| `Common` | options, results, byte strings and searching |

Code that changes objects is written with classes. Each of their methods is proved to do what a function of the old
state says (`World()`, `Parts()`, `Active()`), and the properties of whole runs are proved about that function.

## Assumptions

- Multipart: a read returns any non-empty chunk until the end of the stream, or fails; a write takes at least one byte
  or fails; no input stream is appended twice, and a form is encoded once.
- Escaping: Foundation's percent-encoding works byte by byte on UTF-8 and fails for no valid string; a batch ends
  between user-perceived characters.
- Session: task identifiers are fresh; a task calls back until it completes, and completes once; the retrier answers
  each question once (`Pods/Alamofire/Source/Request.swift:49-51`). A retry, which resumes the new task
  (`Pods/Alamofire/Source/SessionManager.swift:864`), and the registration of that task by the caller
  (`Pods/Alamofire/Source/SessionDelegate.swift:486-488`) are one step. No override closure and no stream closure is set,
  and the session manager outlives its requests.
- Layout: an item with location attributes has a target or a superview (UIKit raises an exception for such an equation
  without second item); an equation without second item has no second attribute; leading and trailing are measured in reading
  direction; weak references to views are alive; a description's attributes are not extended after it is related;
  numbers are reals.
- The weak `delegate` of a TCP socket is set as long as the socket is valid; without it the window would be opened again
  for bytes that nobody gets.
- lwIP calls back only while the pcb lives and its callbacks are set, never for a pcb that it has freed, and its
  chains obey the `tot_len` invariant; `tcp_close` succeeds, and the `assert` around it is compiled in.
- Lookups: replies carry identifiers that were given out, for a registered lookup only when the system accepted it.
  The timer may fire at any time, even just after it was cancelled. A completion handler runs last in its callback, so
  what it starts is the next event.
- Configurations: the list never holds one object twice.

## Where the code falls short of what it promises

- `writeEncodedData` can succeed with a truncated file: exactly when the output stream ever answers that it has no
  space (`Multipart.MultipartFormData.WriteEncodedData`, `Multipart.Truncate`).
- The query string of parameters without leaf is empty and does not lead back to an empty list
  (`QueryEscape.QueryRoundTrip`).
- A request whose adaptation failed runs its response handlers early when its caller resumes it before the retrier has
  answered, although a retry may follow (`SessionOutcomes.HeldUntilTheEnd`, `SessionOutcomes.EarlyReleaseHappens`).
- When a retry cannot make its task, that failure replaces the error of the attempt (`SessionOutcomes.RetryOutcome`,
  `SessionOutcomes.ReplacedErrorHappens`).
- Calling `makeConstraints` twice and then `updateConstraints` writes only into the first of two equal equations: the
  second one stays active with its old constant, and the outcome differs from that of `remakeConstraints` unless that
  constant is the one asked for (`SnapUpdate.UpdateAgreesWithRemake`, `SnapUpdate.TwiceMade`). Changing a constraint's
  priority from or to `required` after it was built does not reach its equations (`SnapUpdate.ChangeIsRecompilation`);
  insets related to a center move it instead of insetting (`SnapCompiler.InsetsElsewhere`).
- A delegate whose calls inside a receive, end-of-data or acknowledgement callback come to a `reset()` of that
  callback's socket, directly or from inside a call on another one, makes the callback break lwIP's rule on its return
  value (`TcpSocketOutcomes.CallbackReturnContract`, `TcpSocketOutcomes.ResetThroughAnother`). Errors other than reset
  and abort end a socket without any delegate call; `close()` then does nothing, so the `socketDidClose` that the class
  comment tells its user to wait for never comes (`TcpSocketOutcomes.RunAnnounces`, `TcpSocketOutcomes.EndedStays`).
- A lookup that the system refuses to start stays registered for ever (`ResolverSpec.EveryRunIsSafe`,
  `ResolverSpec.RefusalHappens`).
- The first configuration of all is not saved when it is already selected (`ConfigStore.AddKeeps`, `ConfigStore.AddedConfigs`).

## Model

| member | source | states |
|---|---|---|
| MultipartRoundTrip.MultipartRoundTrip | Pods/Alamofire/Source/MultipartFormData.swift:348-364 | For every boundary without CR and every part list: a reader for the grammar of section 5.1.1 of RFC 2046, applied to the encoder's output, returns exactly the headers and bodies, if and only if the list is not empty and each part has clean headers and no delimiter inside |
| MultipartRoundTrip.ContentRoundTrip | Pods/Alamofire/Source/MultipartFormData.swift:421-430 | One part's header block and body are read back exactly when every key is free of CRLF and colon and every value free of CRLF |
| MultipartRoundTrip.ParseOnePart | Pods/Alamofire/Source/MultipartFormData.swift:402-419 | Followed by a delimiter, one printed part is read as that part and the reading goes on behind it when the part is recoverable, and never as that part otherwise |
| MultipartRoundTrip.TailRoundTrip | Pods/Alamofire/Source/MultipartFormData.swift:402-419 | The reader undoes everything the encoder prints behind the first boundary, exactly when every part is recoverable |
| MultipartRoundTrip.FramingShape | Pods/Alamofire/Source/MultipartFormData.swift:62-75 | Behind the CRLF that starts a line the whole output is one delimiter, the contents separated by delimiters, and the close mark |
| MultipartRoundTrip.EncodedBytes | Pods/Alamofire/Source/MultipartFormData.swift:62-75 | The output byte by byte, for every boundary and part list: the boundary lines with their dashes and CRLFs, each `key: value` line, the blank line, the body, and the closing line |
| MultipartRoundTrip.EncodedPartLength | Pods/Alamofire/Source/MultipartFormData.swift:62-75 | The size of a printed part is its body, its header block and its boundaries |
| MultipartRoundTrip.EncodedLength | Pods/Alamofire/Source/MultipartFormData.swift:98-98 | The size of the output is the bodies plus the header blocks plus (b+4)+(n-1)(b+6)+(b+8) for n parts and a boundary of b bytes |
| Multipart.DeclaredLengthIsTrue | Pods/Alamofire/Source/MultipartFormData.swift:98-98 | When the declared lengths are those of the bodies, the declared total is the bodies' share of the output size |
| Multipart.MultipartFormData.ContentLength | Pods/Alamofire/Source/MultipartFormData.swift:98-98 | The sum of the declared lengths, or the trap of the 64-bit addition |
| Multipart.MultipartFormData.Append | Pods/Alamofire/Source/MultipartFormData.swift:332-335 | Adds one part behind the others and changes no earlier one |
| Multipart.MultipartFormData.AppendFile | Pods/Alamofire/Source/MultipartFormData.swift:226-294 | A readable file adds its part; the first failed check is kept as the error of the whole form, and later ones do not replace it |
| Multipart.MultipartFormData.EncodeHeaders | Pods/Alamofire/Source/MultipartFormData.swift:421-430 | Prints the header lines in iteration order and the blank line |
| Multipart.MultipartFormData.EncodeBodyStream | Pods/Alamofire/Source/MultipartFormData.swift:432-455 | For any chunk sizes, reads exactly what the stream still has, or fails with the stream's error |
| Multipart.MultipartFormData.EncodeBodyPart | Pods/Alamofire/Source/MultipartFormData.swift:402-419 | Prints the part with the boundaries that its flags ask for, or fails with a read error, and then its stream has failed |
| Multipart.MultipartFormData.EncodeInMemory | Pods/Alamofire/Source/MultipartFormData.swift:348-364 | The recorded error, else the specified text of all parts; a read error only when some stream has failed, so with streams that cannot fail always the text |
| Multipart.MultipartFormData.WriteBuffer | Pods/Alamofire/Source/MultipartFormData.swift:517-533 | For any partial writes, terminates with every byte written, or given up only when space was refused |
| Multipart.MultipartFormData.WriteBodyStream | Pods/Alamofire/Source/MultipartFormData.swift:476-500 | Copies what the stream has, chunk by chunk, to the output |
| Multipart.MultipartFormData.WriteBodyPart | Pods/Alamofire/Source/MultipartFormData.swift:459-508 | Hands over exactly the part's text, or fails with the error of the stream that failed |
| Multipart.MultipartFormData.WriteEncodedData | Pods/Alamofire/Source/MultipartFormData.swift:374-398 | Success hands over exactly the text of the in-memory form; the output holds all of it if and only if the output stream never refused space, and each missing byte is accounted for. A failure is that of a stream that has failed, so with streams that cannot fail it succeeds |
| Multipart.StreamAsInMemory | Pods/Alamofire/Source/MultipartFormData.swift:374-398 | Streaming refines encoding in memory: when no stream can fail and space is always available, the output is exactly the text of the in-memory form |
| Multipart.Truncate | Pods/Alamofire/Source/MultipartFormData.swift:517-533 | When the first question for space is refused, every form with parts whose streams cannot fail is written successfully with a truncated output |
| Multipart.TruncatedRun | Pods/Alamofire/Source/MultipartFormData.swift:517-533 | Such a run exists: a form with one empty part |
| QueryEscape.PercentRoundTrip | Pods/Alamofire/Source/ParameterEncoding.swift:246-267 | Percent-decoding undoes escaping on every byte string (section 2.1 of RFC 3986) |
| QueryEscape.EscapedIsSafe | Pods/Alamofire/Source/ParameterEncoding.swift:246-251 | No escaped text has a byte other than letters, digits, `-._~/?` and `%`: none of the delimiters that the source lists, no space, no control and nothing beyond ASCII (section 3.4 of RFC 3986), each stated by its code |
| QueryEscape.PrintedByte | Pods/Alamofire/Source/ParameterEncoding.swift:246-267 | A byte is printed as itself if and only if it is a letter, a digit or one of `-._~/?`; any other as `%` and its two upper-case hexadecimal digits |
| QueryEscape.EncodeDistributes | Pods/Alamofire/Source/ParameterEncoding.swift:277-279 | Escaping distributes over concatenation |
| UrlEncoding.Escape | Pods/Alamofire/Source/ParameterEncoding.swift:266-283 | One shot or in batches of any positive number of characters: terminates with the same escaped text, whose bytes are those that need no escape and `%` |
| QueryEscape.QueryRoundTrip | Pods/Alamofire/Source/ParameterEncoding.swift:288-296 | Splitting the query string on `&` and `=` and decoding gives back the list of unescaped components, if and only if it is not empty |
| QueryEscape.JoinConcat | Pods/Alamofire/Source/ParameterEncoding.swift:288-296 | One pair is printed as `key=value`, and the strings of two lists of pairs are joined by `&` |
| UrlEncoding.QueryComponents | Pods/Alamofire/Source/ParameterEncoding.swift:206-230 | The recursive loops over dictionaries and arrays collect exactly the escaped components of the leaves |
| UrlEncoding.Query | Pods/Alamofire/Source/ParameterEncoding.swift:288-296 | For the parameters listed in the order of their sorted keys (the sort itself is left to the caller), the loop prints exactly the joined components |
| QueryTreeRoundTrip.OneComponentPerLeaf | Pods/Alamofire/Source/ParameterEncoding.swift:206-230 | One component for each leaf |
| QueryTreeRoundTrip.ComponentsAreSpelled | Pods/Alamofire/Source/ParameterEncoding.swift:206-230 | For every value, encoding and key: the components are its leaves, each under the key that spells the way to it with `[name]` for a dictionary and `[]` or nothing for an array, a truth value being `1` or `0`, or `true` or `false` |
| QueryTreeRoundTrip.RegroupRows | Pods/Alamofire/Source/ParameterEncoding.swift:99-107 | The rows of a decodable value are regrouped into its tree, arrays in order |
| QueryTreeRoundTrip.RebuiltIsDecodable | Pods/Alamofire/Source/ParameterEncoding.swift:206-216 | Only decodable values can be rebuilt, whatever rows they are rebuilt from |
| QueryTreeRoundTrip.ComponentsRoundTrip | Pods/Alamofire/Source/ParameterEncoding.swift:206-230 | With bracket encoding the components rebuild the parameters if and only if these have readable keys, no empty collection and only scalars in arrays |
| UrlEncoding.ParametersRoundTrip | Pods/Alamofire/Source/ParameterEncoding.swift:206-296 | From nested parameters to the query string and back: the tree is rebuilt if and only if the parameters are decodable |
| UrlEncoding.LeafRoundTrip | Pods/Alamofire/Source/ParameterEncoding.swift:116-123 | For every encoding and every key without `[`: the query string of one leaf leads back to that key with the text of the leaf, a truth value as `1` or `0`, or as `true` or `false` |
| UrlEncoding.ReorderedMeaning | Pods/Alamofire/Source/ParameterEncoding.swift:209-212 | Iterating dictionaries in another order, at any depth, does not change what a value means |
| UrlEncoding.ReorderedDecodable | Pods/Alamofire/Source/ParameterEncoding.swift:209-212 | Nor does it change whether the value can be rebuilt |
| UrlEncoding.OrderDoesNotMatter | Pods/Alamofire/Source/ParameterEncoding.swift:209-212 | The tree that is rebuilt does not depend on the order in which dictionaries are iterated |
| SessionSafety.EveryRunIsSafe | Pods/Alamofire/Source/SessionDelegate.swift:166-179 | Over all runs: no request is registered under two tasks; a registered task is its request's current one and runs or waits for the retrier; a delegate finishes at most once; a request whose task is not registered any more is finished, released and not waiting |
| SessionSafety.StepKeeps | Pods/Alamofire/Source/SessionDelegate.swift:436-497 | Every event keeps the registry, the pending consultations and the completion counts exact |
| SessionSafety.DidCompleteKeeps | Pods/Alamofire/Source/SessionDelegate.swift:455-496 | A completed task either waits for the retrier or finishes its request |
| SessionSafety.FinishKeeps | Pods/Alamofire/Source/SessionDelegate.swift:438-458 | Completing a task that nothing attends to removes its entry, releases its request and ends it |
| SessionSafety.ConsultKeeps | Pods/Alamofire/Source/SessionDelegate.swift:476-478 | Asking the retrier keeps the entry and asks about no request twice at a time |
| SessionSafety.RetryKeeps | Pods/Alamofire/Source/SessionManager.swift:848-871 | A retry registers the request under its new task and no other, with everything of the attempt reset |
| SessionSafety.GiveUpKeeps | Pods/Alamofire/Source/SessionManager.swift:879-895 | Without a retry the request is over: a request that had a task is finished with the error, one without is resumed only if requests start immediately |
| SessionSafety.EndOfConsultationKeeps | Pods/Alamofire/Source/SessionDelegate.swift:481-492 | The end of the delay keeps the invariant, whether the new task can be made or not |
| SessionSafety.NewRequestKeeps | Pods/Alamofire/Source/SessionManager.swift:253-268 | Registering a new request under a fresh task keeps the invariant |
| SessionSafety.FailedRequestKeeps | Pods/Alamofire/Source/SessionManager.swift:275-292 | A request that failed before it got a task keeps the invariant, consulted about or not |
| SessionOutcomes.CompletionOutcome | Pods/Alamofire/Source/SessionDelegate.swift:465-496 | On completion exactly one of two things happens: the request finishes with the first error and its entry goes, or the retrier is asked once, the entry stays and the handlers keep waiting |
| SessionOutcomes.RetryOutcome | Pods/Alamofire/Source/SessionManager.swift:848-871 | An accepted retry makes one attempt more if and only if the request can be made again and the new task can be created; otherwise the request is over, with the error of the failed creation taking the place of the earlier one |
| SessionOutcomes.OthersUntouched | Pods/Alamofire/Source/SessionDelegate.swift:436-497 | No event changes a request other than the one that it is about |
| SessionOutcomes.ReplacedErrorHappens | Pods/Alamofire/Source/SessionManager.swift:848-871 | A run in which the error of the attempt is replaced by that of the failed retry |
| SessionErrors.FirstErrorIsReported | Pods/Alamofire/Source/SessionDelegate.swift:465-496 | Over all runs: when a task completes, its request has no error yet, and its final error is the finding of the first failing validation, in the order in which they were added, in exactly the data of this task, else the transport error. If the retrier is not asked, the request is over from then on, unregistered and released, and reports that error for good. If it is asked, it is asked about that error: until it answers nothing else is recorded, and when it declines, with any events between and afterwards, the request reports that same error for good; only the failure to make the task of an accepted retry takes its place |
| SessionErrors.ConsultationEnds | Pods/Alamofire/Source/SessionDelegate.swift:476-492 | From any reachable state: what a consultation comes to is decided by the event that ends it alone |
| SessionErrors.DeclineReports | Pods/Alamofire/Source/SessionDelegate.swift:478-480 | A declined request is over and reports the error that the retrier was asked about |
| SessionErrors.RetryReports | Pods/Alamofire/Source/SessionManager.swift:848-871 | A retry that cannot be made leaves the request over, with the failure to make its task, or, if the request cannot be made again, the error that the retrier was asked about |
| SessionErrors.ReportedForGood | Pods/Alamofire/Source/TaskDelegate.swift:165-182 | No event changes the error of a request that is over, or brings it back |
| SessionErrors.StepErrors | Pods/Alamofire/Source/TaskDelegate.swift:165-182 | Every event keeps requests with a running task free of errors, and those with a pending question free of other errors than the one in question |
| SessionErrors.FailedRequestReports | Pods/Alamofire/Source/SessionManager.swift:275-292 | A request that fails before it has a task shows the cause for good, or the retrier is asked about that |
| SessionErrors.ChecksInOrder | Pods/Alamofire/Source/Validation.swift:170-184 | Over all runs a request keeps all its validations, in the order of addition, through every attempt |
| SessionRetries.AcceptanceIsRecorded | Pods/Alamofire/Source/SessionDelegate.swift:478-487 | From any reachable state an accepting answer leaves the same question pending as answered, its retry can take place with any failure and any fresh task, and nothing else changes |
| SessionRetries.RunAnswers | Pods/Alamofire/Source/SessionDelegate.swift:478-487 | Over all runs a pending consultation has been answered if and only if an accepting answer to it has come |
| SessionRetries.RunRetryCount | Pods/Alamofire/Source/SessionManager.swift:858-862 | Over all runs the retry count of a request is the number of its retries that have taken place |
| SessionRetries.RunConvertibles | Pods/Alamofire/Source/SessionManager.swift:275-284 | Over all runs each request keeps whether it can be made again: one that got its task always, one that failed before it as its failure says |
| SessionRetries.FailedIsHeld | Pods/Alamofire/Source/SessionManager.swift:286-290 | A request that failed before its task, and about which the retrier is not asked, is released at once if and only if requests start immediately |
| SessionRetries.OnlyResumeReleases | Pods/Alamofire/Source/SessionManager.swift:286-290 | Over all runs, such a request that is over and held is released if and only if `resume()` is called on it |
| SessionOutcomes.FirstErrorWins | Pods/Alamofire/Source/Validation.swift:170-184 | What the loop over the validations computes for a completed attempt is the earlier delegate error, else the finding of the first failing validation in the order of addition, else the transport error, and nothing else |
| SessionOutcomes.ChecksRecordFirst | Pods/Alamofire/Source/Validation.swift:170-184 | Running the validations records the finding of the first one that fails |
| SessionOutcomes.DataOfLastAttempt | Pods/Alamofire/Source/TaskDelegate.swift:220-281 | Over all runs the data of a request are what its current task has delivered, in order; the byte count and the progress are their size |
| SessionOutcomes.RunData | Pods/Alamofire/Source/TaskDelegate.swift:57-59 | A task that has been superseded never becomes current again, and the data of a current task grow by its own chunks only |
| SessionOutcomes.SupersededNeverReaches | Pods/Alamofire/Source/SessionDelegate.swift:553-558 | A chunk of a task that is not current changes nothing, whenever it comes |
| SessionOutcomes.HeldUntilTheEnd | Pods/Alamofire/Source/Request.swift:198-210 | Over all runs response handlers wait for the end of the last attempt, if and only if nobody resumes a request without task while the retrier is being asked about it |
| SessionOutcomes.StepHeld | Pods/Alamofire/Source/Request.swift:198-210 | A single event releases the handlers of a request that is not over exactly when it is such a `resume()` |
| SessionOutcomes.EarlyReleaseHappens | Pods/Alamofire/Source/SessionManager.swift:873-898 | A concrete run in which handlers run although a retry may still come |
| SessionOutcomes.OverIsReleased | Pods/Alamofire/Source/SessionManager.swift:286-290 | With requests started immediately, no request that is over keeps its handlers waiting |
| Session.DataTaskDelegate.SetTask | Pods/Alamofire/Source/TaskDelegate.swift:42-59 | The new task is set, and nothing of the earlier attempt is left |
| Session.DataTaskDelegate.DidReceive | Pods/Alamofire/Source/TaskDelegate.swift:261-282 | Appends the chunk and counts it |
| Session.DataTaskDelegate.DidComplete | Pods/Alamofire/Source/TaskDelegate.swift:165-182 | Keeps an earlier error, else records this one, and releases the queue |
| Session.Request.Resume | Pods/Alamofire/Source/Request.swift:198-210 | Without task it releases the queue; with one it leaves the delegate alone |
| Session.Request.Validate | Pods/Alamofire/Source/Validation.swift:170-184 | Adds a validation behind the others |
| Session.Request.RunValidations | Pods/Alamofire/Source/SessionDelegate.swift:466-466 | The loop over the validations applies all of them in order |
| Session.SessionManager.Begin | Pods/Alamofire/Source/SessionManager.swift:253-268 | The new request is registered under its task: the event of the state machine |
| Session.SessionManager.BeginFailed | Pods/Alamofire/Source/SessionManager.swift:275-292 | The failed request is resumed or its retrier asked: the event of the state machine |
| Session.SessionManager.DidReceive | Pods/Alamofire/Source/SessionDelegate.swift:553-558 | Only the request registered for the task gets the data |
| Session.SessionManager.CompleteTask | Pods/Alamofire/Source/SessionDelegate.swift:438-458 | Finishes the registered request and removes the entry |
| Session.SessionManager.DidComplete | Pods/Alamofire/Source/SessionDelegate.swift:436-497 | The whole callback is the completion of the state machine |
| Session.SessionManager.Answer | Pods/Alamofire/Source/SessionDelegate.swift:478-481 | The retrier's answer is that of the state machine; an accepting one marks its question as answered and changes nothing else |
| Session.SessionManager.RetryRequest | Pods/Alamofire/Source/SessionManager.swift:848-871 | The retry with the registration of its task, or the end without one, is that of the state machine |
| Session.SessionManager.Retry | Pods/Alamofire/Source/SessionDelegate.swift:481-492 | The end of the delay, with the retry and the registration, is that of the state machine |
| SnapAttributes.LayoutAttributesExact | Pods/SnapKit/Source/ConstraintAttributes.swift:111-178 | The list holds exactly the attributes of the mask, each once, in the fixed order |
| SnapAttributes.SameListSameMask | Pods/SnapKit/Source/ConstraintMakerRelatable.swift:44-48 | For masks of attributes, equal lists and equal masks are the same |
| SnapAttributes.BitHas | Pods/SnapKit/Source/ConstraintAttributes.swift:60-97 | The constant of an attribute has that attribute's bit and no other |
| SnapAttributes.UnionLists | Pods/SnapKit/Source/ConstraintAttributes.swift:181-187 | `+` and `+=` list an attribute exactly when either side does |
| SnapAttributes.DifferenceLists | Pods/SnapKit/Source/ConstraintAttributes.swift:189-191 | `-=` lists an attribute exactly when the left side does and the right side does not |
| SnapAttributes.EdgesAndMargins | Pods/SnapKit/Source/ConstraintAttributes.swift:101-106 | The attributes of the two aggregates that may be related to each other |
| SnapCompiler.CompileTotal | Pods/SnapKit/Source/Constraint.swift:91-187 | Whatever the masks, `init` reaches no trap and makes one equation for each attribute, in the fixed order |
| SnapCompiler.SecondAttributeTotal | Pods/SnapKit/Source/Constraint.swift:102-150 | Every attribute of a mask has a second attribute |
| SnapCompiler.GuardIsExact | Pods/SnapKit/Source/ConstraintMakerRelatable.swift:43-51 | For all masks: a description is accepted if and only if it is related to at most one attribute, or every one of them is compared with some attribute of its own |
| SnapCompiler.Counterparts | Pods/SnapKit/Source/Constraint.swift:107-140 | Accepted, each attribute is compared with itself, or with the same side when edges meet margins |
| SnapCompiler.KeysDiffer | Pods/SnapKit/Source/LayoutConstraint.swift:46-57 | No two equations of a constraint are equal under `==` |
| SnapCompiler.RecomputedConstant | Pods/SnapKit/Source/Constraint.swift:257-260 | Computing a constant from an existing equation gives what a new compilation would, although the attribute may differ |
| SnapCompiler.CompiledMeaning | Pods/SnapKit/Source/Constraint.swift:102-187 | A layout satisfies the compiled equations when it satisfies that of each attribute |
| SnapCompiler.EdgesSolution | Pods/SnapKit/Source/ConstraintConstantTarget.swift:98-119 | Edges equal to another item's edges or margins with insets: the only solution is the inset rectangle |
| SnapCompiler.DirectionalSolution | Pods/SnapKit/Source/ConstraintConstantTarget.swift:109-112 | Top, bottom, leading and trailing with insets have that same only solution in either reading direction |
| SnapCompiler.EquationMeaning | Pods/SnapKit/Source/Constraint.swift:154-173 | One equation demands its relation between the attribute and the scaled attribute of the other item plus the constant; without second item, the constant alone. There is none exactly when the target is missing and the attribute is a size or the superview is missing too |
| SnapCompiler.SizeSolution | Pods/SnapKit/Source/ConstraintConstantTarget.swift:66-73 | A size equal to a constant size: exactly the frames of that size |
| SnapCompiler.CenterSolution | Pods/SnapKit/Source/Constraint.swift:137-143 | A center equal to a point: that far from the other item's center, or from the superview's top left corner |
| SnapCompiler.InsetsElsewhere | Pods/SnapKit/Source/ConstraintConstantTarget.swift:101-116 | Insets on the size agree with insets on the edges; on a center they do only when opposite ones cancel |
| SnapMeaning.CompiledDemands | Pods/SnapKit/Source/Constraint.swift:102-173 | For every description, with any mask, relation, multiplier and constant: a layout satisfies the compiled equations if and only if for each attribute the relation holds between it and the scaled attribute of the target, else of the superview unless it is a size, else nothing, plus the distance |
| SnapMeaning.DistanceIsConstant | Pods/SnapKit/Source/ConstraintConstantTarget.swift:46-130 | The constant for an attribute is the distance: a number as it is, a size and a point along the axis, insets inward from the side that the attribute is at in reading direction |
| SnapMeaning.NumberSolution | Pods/SnapKit/Source/ConstraintConstantTarget.swift:46-64 | A number is added as it is, for any mask, relation and multiplier |
| SnapMeaning.PointSolution | Pods/SnapKit/Source/ConstraintConstantTarget.swift:76-97 | On positions a point's `x` is added to the horizontal ones, margins included, and its `y` to the vertical ones, baselines included |
| SnapMeaning.SecondMeaning | Pods/SnapKit/Source/Constraint.swift:102-150 | What an accepted attribute is compared with: the only attribute of the other item, else itself, the same side when edges meet margins, or the superview's top left corner for a center without target |
| SnapMeaning.CompiledAt | Pods/SnapKit/Source/Constraint.swift:179-180 | Every equation carries the priority of its description, so its demands are made at that priority and no other |
| SnapUpdate.FirstMatch | Pods/SnapKit/Source/Constraint.swift:283-283 | The first existing equation that is equal under `==`, or none |
| SnapUpdate.UpdateAllExact | Pods/SnapKit/Source/Constraint.swift:282-290 | An update takes place if and only if every new equation has a match; it changes constants only: the first equation with a key gets the last constant asked for it, and later ones with that key keep theirs |
| SnapUpdate.UpdateAgreesWithRemake | Pods/SnapKit/Source/ConstraintMaker.swift:180-195 | For any old and new equations, an update leaves exactly the new ones active, as a remake does, if and only if the keys are the same, every old equation that repeats a key is asked for as it is, and every new one is the last asked for its key or such a repeated one |
| SnapUpdate.DistinctAgreeable | Pods/SnapKit/Source/ConstraintMaker.swift:180-195 | When no old equation repeats a key, that condition is that of the same keys with one constant asked for each |
| SnapUpdate.UpdatedMembers | Pods/SnapKit/Source/Constraint.swift:277-283 | With distinct keys the result does not depend on the order in which the item lists its constraints |
| SnapUpdate.TwiceMade | Pods/SnapKit/Source/Constraint.swift:282-290 | An equation made twice and then updated agrees with a remake exactly when the second constant is the one asked for |
| SnapUpdate.ChangeIsRecompilation | Pods/SnapKit/Source/Constraint.swift:257-267 | Setting a constraint's constant or priority gives the equations of the changed description, if and only if the priority does not cross `required`, which is 1000 |
| SnapAttributes.SizeAndCenter | Pods/SnapKit/Source/ConstraintAttributes.swift:101-103 | The attributes of the aggregates for sizes and centers |
| SnapMaker.Constraint.constructor | Pods/SnapKit/Source/Constraint.swift:72-188 | The loop builds exactly the compiled equations, as new and inactive objects: a layout satisfies them if and only if it meets the demand of each attribute, at the description's priority |
| SnapMaker.Constraint.UpdateConstantAndPriorityIfNeeded | Pods/SnapKit/Source/Constraint.swift:257-267 | The loop recomputes every constant, and every priority that may still change |
| SnapMaker.Constraint.UpdateConstant | Pods/SnapKit/Source/Constraint.swift:210-220 | Setting the constant recomputes every equation |
| SnapMaker.Constraint.UpdatePriority | Pods/SnapKit/Source/Constraint.swift:222-232 | Setting the priority recomputes every equation |
| SnapMaker.Constraint.Activate | Pods/SnapKit/Source/Constraint.swift:292-293 | Makes the equations active and joins the item's set once |
| SnapMaker.Constraint.UpdateExisting | Pods/SnapKit/Source/Constraint.swift:276-290 | Writes the constants into the first matches of all existing equations, and traps exactly when one has no match |
| SnapMaker.Constraint.Deactivate | Pods/SnapKit/Source/Constraint.swift:297-305 | Makes the equations inactive and leaves the item's set |
| SnapMaker.FindFirst | Pods/SnapKit/Source/Constraint.swift:283-283 | The search finds the first match |
| SnapMaker.LayoutItem.Add | Pods/SnapKit/Source/LayoutConstraintItem.swift:65-70 | Adding keeps the set without duplicates and adds the constraint's equations |
| SnapMaker.LayoutItem.Remove | Pods/SnapKit/Source/LayoutConstraintItem.swift:72-77 | Removing takes out the constraint and nothing else |
| SnapMaker.ConstraintDescription.RelatedTo | Pods/SnapKit/Source/ConstraintMakerRelatable.swift:39-66 | Refuses exactly what the guard refuses, changing nothing, and else records relation, target and constant |
| SnapMaker.PrepareConstraints | Pods/SnapKit/Source/ConstraintMaker.swift:160-171 | Builds the constraints of all finished descriptions in order, sharing nothing; at each priority they demand what the descriptions of that priority record |
| SnapMaker.DescribedDemands | Pods/SnapKit/Source/ConstraintDescription.swift:42-60 | For any descriptions: what they compile to holds at a priority if and only if every description of that priority with a relation is satisfied in the attributes, relation, target, multiplier and constant that it has recorded |
| SnapMaker.MakeConstraints | Pods/SnapKit/Source/ConstraintMaker.swift:173-178 | What the descriptions say becomes active beside what is active already: at every priority a layout satisfies the active equations if and only if it satisfies the old ones and the recorded relation of each description |
| SnapMaker.RemoveConstraints | Pods/SnapKit/Source/ConstraintMaker.swift:197-202 | Nothing of what the item had stays active, and the set is empty |
| SnapMaker.RemakeConstraints | Pods/SnapKit/Source/ConstraintMaker.swift:180-183 | Afterwards exactly what the descriptions say is active: at every priority a layout satisfies the active equations if and only if it satisfies the recorded relation of each description |
| SnapMaker.UpdateConstraints | Pods/SnapKit/Source/ConstraintMaker.swift:185-195 | Writes the new constants into the item's own constraints, whose set stays as it is, and traps exactly when an equation has no match; the active equations are those of a remake exactly under the condition of `UpdateAgreesWithRemake`, for every non-empty set, and then, or with an empty set, they demand at every priority what the descriptions record |
| TcpSocketOutcomes.EveryRunIsSafe | Carthage/Checkouts/tun2socks/tun2socks/TSTCPSocket.swift:79-98 | Over all runs with callbacks re-entered: the identity table leads to a socket exactly while it is valid; everything logged about a socket is the delegate calls of its own callbacks in order and, exactly when it has ended, its one release and how its end is told, with nothing behind that; the bytes of the delegate's read calls are exactly those handed over, and the window credit is their number less the size of the chain during whose delivery the socket ended |
| TcpSocketOutcomes.RunLogs | Carthage/Checkouts/tun2socks/tun2socks/TSTCPSocket.swift:47-77 | From any reachable state, what a run adds to the log of a socket: one delegate call for each of its receive, end-of-data and acknowledgement callbacks, with the data of that callback, and its last notes if it ends |
| TcpSocketOutcomes.CallsRead | Carthage/Checkouts/tun2socks/tun2socks/TSTCPSocket.swift:174-186 | The bytes of these read calls are those that lwIP handed over |
| TcpSocketOutcomes.RunCredits | Carthage/Checkouts/tun2socks/tun2socks/TSTCPSocket.swift:174-186 | From any reachable state, the credit grows over a run by what is handed over, less the chain during whose delivery the socket ends |
| TcpSocketOutcomes.RunAnnounces | Carthage/Checkouts/tun2socks/tun2socks/TSTCPSocket.swift:158-168 | A socket is released in a run if and only if it ends in it, and it is told its end as a reset or an abort exactly when the error event that ended it says so, not at all after any other error, and as closed exactly when a delegate's `close()`, `reset()` or refused write ended it |
| TcpSocketLog.StepLogs | Carthage/Checkouts/tun2socks/tun2socks/TSTCPSocket.swift:47-77 | One event logs its own delegate call for its own socket, and for each socket that ends its release and how that is told |
| TcpSocketLog.ActLogs | Carthage/Checkouts/tun2socks/tun2socks/TSTCPSocket.swift:193-243 | A delegate's call, with all that it causes, tells of nothing but sockets that end, each as released and closed |
| TcpSocketOutcomes.EndedStays | Carthage/Checkouts/tun2socks/tun2socks/TSTCPSocket.swift:245-250 | Once a socket has ended, no event changes it, tells its delegate anything or hands anything over for it |
| TcpSocketSafety.StepKeeps | Carthage/Checkouts/tun2socks/tun2socks/TSTCPSocket.swift:47-77 | Every callback delivers exactly its own chain to its own socket, and every socket that it ends is told, except by an error that is neither a reset nor an abort |
| TcpSocketSafety.RecvKeeps | Carthage/Checkouts/tun2socks/tun2socks/TSTCPSocket.swift:174-186 | The credit is given back exactly when the socket outlives the delivery |
| TcpSocketSafety.ActKeeps | Carthage/Checkouts/tun2socks/tun2socks/TSTCPSocket.swift:193-243 | A delegate's call, with all that it causes, keeps the table and the log exact |
| TcpSocketSafety.ShutKeeps | Carthage/Checkouts/tun2socks/tun2socks/TSTCPSocket.swift:209-250 | Closing or resetting a valid socket releases it and tells its end once |
| TcpSocketSafety.LookupFindsItself | Carthage/Checkouts/tun2socks/tun2socks/TSTCPSocket.swift:82-88 | A valid socket's argument leads to that socket |
| TcpSocketOutcomes.CallbackReturnContract | Carthage/Checkouts/tun2socks/lwip/src/core/tcp.c:402-411 | lwIP demands ERR_ABRT from a callback exactly when its pcb was aborted in it; for data, for the end of the data and for an acknowledgement this is met if and only if the delegate's calls, at any depth and on any sockets, do not come to a `reset()` of the callback's socket while that is open |
| TcpSocketOutcomes.RunReplays | Carthage/Checkouts/tun2socks/tun2socks/TSTCPSocket.swift:193-243 | The sockets that are open, and the calls with what is nested in them, are all that decides which sockets a delegate aborts |
| TcpSocketOutcomes.ResetThroughAnother | Carthage/Checkouts/tun2socks/lwip/src/core/tcp_in.c:333-378 | A reset from inside a call on another socket: the callback answers OK although its own pcb has been aborted |
| TcpSocketSpec.CopyTotalIsChain | Carthage/Checkouts/tun2socks/lwip/lwip.h:97-107 | Copying `tot_len` bytes copies the whole chain |
| TcpSocket.Stack.Accept | Carthage/Checkouts/tun2socks/tun2socks/TSTCPSocket.swift:138-156 | The new socket is registered under its key |
| TcpSocket.Stack.TcpRecv | Carthage/Checkouts/tun2socks/tun2socks/TSTCPSocket.swift:47-59 | The callback is that of the state machine, and its return value that of `CallbackReturnContract` |
| TcpSocket.Stack.TcpSent | Carthage/Checkouts/tun2socks/tun2socks/TSTCPSocket.swift:61-71 | The callback is that of the state machine, and its return value that of `CallbackReturnContract` |
| TcpSocket.Stack.TcpErr | Carthage/Checkouts/tun2socks/tun2socks/TSTCPSocket.swift:73-77 | The callback is that of the state machine |
| TcpSocket.TSTCPSocket.Release | Carthage/Checkouts/tun2socks/tun2socks/TSTCPSocket.swift:245-250 | Frees the identity once and removes its entry |
| TcpSocket.TSTCPSocket.Close | Carthage/Checkouts/tun2socks/tun2socks/TSTCPSocket.swift:209-224 | Closing, with what the delegate does inside, is that of the state machine |
| TcpSocket.TSTCPSocket.Reset | Carthage/Checkouts/tun2socks/tun2socks/TSTCPSocket.swift:229-243 | Resetting, with what the delegate does inside, is that of the state machine |
| TcpSocket.TSTCPSocket.WriteData | Carthage/Checkouts/tun2socks/tun2socks/TSTCPSocket.swift:193-204 | A refused write closes the socket |
| TcpSocket.TSTCPSocket.Recved | Carthage/Checkouts/tun2socks/tun2socks/TSTCPSocket.swift:174-186 | The delivery is that of the state machine |
| TcpSocket.TSTCPSocket.Errored | Carthage/Checkouts/tun2socks/tun2socks/TSTCPSocket.swift:158-168 | Releases the socket and tells resets and aborts only |
| MmdbReader.DumpRoundTrip | Carthage/Checkouts/MMDB-Swift/Sources/MMDB.swift:146-190 | Reading the preorder list of a tree, whatever follows it, gives the tree back and stops right behind it, if and only if strings have no NUL and every map has distinct, non-empty keys |
| MmdbReader.DumpLeavesSuffix | Carthage/Checkouts/MMDB-Swift/Sources/MMDB.swift:146-190 | On any list the reader traps or stops at a suffix of the list |
| MmdbReader.DumpIsLocal | Carthage/Checkouts/MMDB-Swift/Sources/MMDB.swift:146-190 | What was read before the end was reached does not depend on what follows |
| MmdbReader.ProducedIsWellFormed | Carthage/Checkouts/MMDB-Swift/Sources/MMDB.swift:155-166 | Whatever list a value was read from, a tree that it represents is well formed |
| MmdbReader.UnsupportedValueEnds | Carthage/Checkouts/MMDB-Swift/Sources/MMDB.swift:160-166 | A map whose first fields are well formed and whose next value is of an unsupported kind: exactly those fields are kept, and the cursor stays at that value |
| MmdbReader.EmptyKeyEnds | Carthage/Checkouts/MMDB-Swift/Sources/MMDB.swift:160-166 | A key that is not a string, or is empty, ends its map behind the value, which is lost; the fields before it are kept |
| MmdbReader.ListEnds | Carthage/Checkouts/MMDB-Swift/Sources/MMDB.swift:156-160 | A list that ends after a field ends its map there with the fields before; one that ends after a key traps |
| MmdbReader.CString | Carthage/Checkouts/MMDB-Swift/Sources/MMDB.swift:117-121 | A string ends at its first NUL and is kept without one |
| MmdbReader.Dump | Carthage/Checkouts/MMDB-Swift/Sources/MMDB.swift:146-190 | The recursive loop with its moving cursor terminates and is the specified reader |
| ResolverSpec.EveryRunIsSafe | Carthage/Checkouts/Resolver/Resolver/Resolver.swift:140-160 | Over all interleavings a completion handler is called at most once, exactly for the lookups that are released; the registry holds exactly the others; a lookup that the system refused stays registered for good |
| ResolverSpec.RefusalHappens | Carthage/Checkouts/Resolver/Resolver/Resolver.swift:121-123 | A run in which the system refuses a lookup, which then stays in the table |
| ResolverSpec.StepKeeps | Carthage/Checkouts/Resolver/Resolver/Resolver.swift:74-121 | Every event keeps the registry and the reports exact; identifiers count insertions, so none is used again |
| ResolverSpec.Isolated | Carthage/Checkouts/Resolver/Resolver/Resolver.swift:77-84 | Whatever else goes on, a lookup ends as its own replies and timer decide; no reply reaches another lookup, or one that has ended |
| ResolverSpec.ReportsAllArrived | Carthage/Checkouts/Resolver/Resolver/Resolver.swift:92-120 | A lookup resolves with all addresses that arrived, split by family in order of arrival, and nothing later changes that |
| ResolverSpec.ReportsFailure | Carthage/Checkouts/Resolver/Resolver/Resolver.swift:86-90 | A lookup fails with the first error or the timeout that comes before its last reply, without addresses |
| ResolverSpec.BegunResolves | Carthage/Checkouts/Resolver/Resolver/Resolver.swift:48-120 | Over all runs a lookup resolves as it was begun: asked for the first result, at its first good reply with that address alone; asked for all, at the first good reply with nothing more coming, with all addresses that arrived |
| ResolverSpec.BegunFails | Carthage/Checkouts/Resolver/Resolver/Resolver.swift:86-145 | Over all runs a lookup fails with its first error, or with -65568 on the timeout, when that comes before the reply that would have been its last under what it was begun with |
| ResolverSpec.RunBegins | Carthage/Checkouts/Resolver/Resolver/Resolver.swift:48-57 | Lookups are numbered in the order in which they are begun |
| ResolverSpec.ActiveCount | Carthage/Checkouts/Resolver/Resolver/Resolver.swift:28-30 | The active count is the number of lookups begun and not released |
| ResolverSpec.ReleaseTwice | Carthage/Checkouts/Resolver/Resolver/Resolver.swift:147-160 | Releasing again changes nothing |
| Resolver.SafeDict.Insert | Carthage/Checkouts/Resolver/Resolver/SafeDict.swift:13-19 | The key is the number of insertions before |
| Resolver.SafeDict.Get | Carthage/Checkouts/Resolver/Resolver/SafeDict.swift:21-27 | The value under the key, if any |
| Resolver.SafeDict.Remove | Carthage/Checkouts/Resolver/Resolver/SafeDict.swift:29-38 | Takes out that key only |
| Resolver.Resolvers.Resolve | Carthage/Checkouts/Resolver/Resolver/Resolver.swift:48-138 | Registers before asking the system, with the wish for the first result as given, and stays registered when refused |
| Resolver.Resolvers.Reply | Carthage/Checkouts/Resolver/Resolver/Resolver.swift:74-121 | The callback is that of the state machine |
| Resolver.Resolver.TimeoutHandler | Carthage/Checkouts/Resolver/Resolver/Resolver.swift:140-145 | The handler is that of the state machine |
| Resolver.Resolver.Release | Carthage/Checkouts/Resolver/Resolver/Resolver.swift:147-160 | Gives back the identifier only if it is still held |
| SynchronizationTracker.SynchronizationTracker.Register | Pods/RxSwift/RxSwift/Rx.swift:88-121 | After any calls: re-entrancy is reported if and only if the thread has a registration open, lack of synchronization if and only if another thread has; the map stays exact |
| SynchronizationTracker.SynchronizationTracker.Unregister | Pods/RxSwift/RxSwift/Rx.swift:123-130 | The map stays exact, without zero entries |
| SynchronizationTracker.TwoEntries | Pods/RxSwift/RxSwift/Rx.swift:108-108 | More than one entry means an entry of another thread |
| SynchronizationTracker.OpenIsDifference | Pods/RxSwift/RxSwift/Rx.swift:88-130 | In well-bracketed use a thread has open what it has not closed |
| SynchronizationTracker.BalancedIsEmpty | Pods/RxSwift/RxSwift/Rx.swift:123-130 | After well-bracketed use the map is empty if and only if everything has been closed |
| ConfigStore.SelectionFollows | Lead/Service/DataManager.swift:45-89 | Over every sequence of actions with new identifiers: at most one configuration is selected, the saved copy is up to date, the list holds the identifiers and details that were added, edited and not deleted, in the order of addition, and the selected one is that which choices, first additions and deletions determine |
| ConfigStore.AddedConfigs | Lead/Service/DataManager.swift:45-52 | For every store: the new entry comes last with its details, selected as it was or because it is the only one; the list is saved unless that one was selected before |
| ConfigStore.AddKeeps | Lead/Service/DataManager.swift:45-52 | Adding keeps a store valid if and only if the identifier is new and the configuration is not selected already while another one is or the store is empty |
| ConfigStore.SelectKeeps | Lead/Service/DataManager.swift:62-74 | Choosing keeps a store valid |
| ConfigStore.DeleteKeeps | Lead/Service/DataManager.swift:54-60 | Deleting keeps a store valid |
| ConfigStore.UpdateKeeps | Lead/Service/DataManager.swift:76-89 | Updating with any object keeps a store valid if and only if no selected object replaces another while a different configuration is selected |
| DataManager.DataManager.AddConfig | Lead/Service/DataManager.swift:45-52 | The list, the saved copy and the relays after an addition; the object keeps its details, and no object listed before changes |
| DataManager.DataManager.DeleteConfig | Lead/Service/DataManager.swift:54-60 | The list, the saved copy and the relays after a deletion |
| DataManager.DataManager.SelecteConfig | Lead/Service/DataManager.swift:62-74 | Deselects all the others, selects the chosen one, and saves and publishes that |
| DataManager.DataManager.UpdateConfig | Lead/Service/DataManager.swift:76-89 | The first configuration with the identifier gives its place to the object |
| DataManager.DataManager.EditConfig | Lead/Module/Config/ConfigViewController.swift:97-99 | Editing the shared object in place and reporting it: for any identifiers the report of the edited entry, and with distinct ones an edit of that entry in list, saved copy and relays |
| DataManager.Config.Update | Lead/Service/VPNManager.swift:49-55 | Copies the details and leaves the selection alone |

## Left out

- Upload, download and stream requests, redirects, challenges, progress handlers and notifications: they add callbacks
  around the same life of a request.
- MIME type parsing and the content-type loop of the validations: a validation is any function of the response and the
  data here; the parser itself would add easy members.
- The window between a retry's `task.resume()` and the registration of its task, and concurrent callbacks on several
  queues: excluded by the one-step assumption above.
- `ArrayEncoding.noBrackets` for the round trip: its keys are ambiguous by design. Escaping and flattening cover it.
- UrlEncoding.Query: does not model `sorted(by: <)`; the parameters come listed in that order, and by `UrlEncoding.OrderDoesNotMatter` the order does not change what is read back.
- The file checks of `MultipartFormData.append` and the choice of MIME types: only their outcome is modelled.
- Bodies longer than 65535 bytes in `writeData`, where the conversion to `UInt16` traps, and the random search for a
  free key, whose outcome is a parameter.
- `isConnected`, addresses and ports of a TCP socket: plain accessors.
- macOS variants of SnapKit's compilation, labels and source locations; `NSLayoutConstraint` itself is the meaning given
  to an equation.
- SnapMaker.LayoutItem.Add: the set lists its members in the order of their addition, while a real set may list them in any; `SnapUpdate.UpdatedMembers` shows that the order does not matter for distinct keys.
- lwIP, dnssd, the MaxMind decoder, `URLSession`, `UserDefaults`, BehaviorRelay and their threads: environments with the
  contracts above.
- Reading the freed identifier cell in a late reply: a reply carries the number itself here.
- NEKit, ciphers, the packet tunnel, views, reachability, images: foreign code or glue without an algorithm of their own.
