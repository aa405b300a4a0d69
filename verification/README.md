# A model of the intercepting proxy's hard parts

This project models the parts of the repository whose behaviour cannot be read off one function body, and
proves what they keep over every input and every run. `dafny verify dfyconfig.toml` checks it.

## What is modelled

**One step of a collection run** (`Redirect.dfy`, `Step.dfy`, `StepSafety.dfy`, `StepScripts.dfy`,
`StepWarnings.dfy`, `StepOutcomes.dfy`, `StepRequests.dfy`, `StepReports.dfy`). A step asks the trust store about
its scripts, runs the pre-request scripts, resolves variables, encodes, adds cookies and credentials, checks the
destination, sends, follows redirects one by one with a new check for each, and runs the test scripts. Everything
outside it (trust store, script engine, resolver, codec, authenticator, cookie jar, sender, URL references) is a
`World` of arbitrary answers, and the record of a run holds a trace of every script run, check and send. The class
`StepRun` updates its fields as the program does and is proved equal to functions on the record. The theorems say
of every run, in terms of the world's answers and not of those functions, which scripts run, what the first request
is and when there is one, which redirects are followed, how the step ends, and which flows, rows, notes and warnings
it leaves. A redirect chain has its own theory: which headers, method and body any request of a chain can have, by
the statuses and hosts on the way. Header names are given by their spelling and by which of the names the program
asks about they are a case variant of, if any.

**The cookie jar** (`Jar.dfy`, `JarTheorems.dfy`, `JarArrivals.dfy`) of RFC 6265: a map from domain, path and name
to cookies with creation numbers, a capacity, and export and replace. Maps are ranged over in an arbitrary order,
and the results are proved not to depend on it (`Sorting.dfy`). Exactly which cookies go out is told from the
Set-Cookie headers alone.

**The live variables** (`Vars.dfy`): layer objects that shadow one another within a scope, and the log of
writes that is handed on with only the last write to each variable. The state copies the layers it is given,
and its `modifies` clauses name only its own copies, so the caller's are never written to.

**Structural comparison** (`JsonPath.dfy`, `JsonDiff.dfy`, `JsonCmp.dfy`, `JsonDiffTheorems.dfy`,
`JsonOrder.dfy`, `JsonFeedback.dfy`, `HeaderDiff.dfy`). The change list of two JSON documents is specified by
what each path looks up to in each document, not by the recursion, and leaves differ when they are not equal,
however they are printed. The recorder with its cap of 200 is a class proved against it. Paths are printed and
read back as ignore patterns. The header comparison of the same diff is modelled beside it, its list determined in
the same way by its members and their order.

**The item tree and the chain of an item** (`Tree.dfy`, `TreeTheorems.dfy`): two readings of one parent
relation, which may have cycles.

**The identity matrix** (`Matrix.dfy`, `MatrixTheorems.dfy`): results of one run per identity folded into rows and
cells, compared with a baseline, flagged and counted; what each cell says is told from the reports and the stored
flows.

**Listeners and child processes** (`Listeners.dfy`, `Launcher.dfy`, `LauncherRuns.dfy`): reconciling the proxy's
listeners with rollback, over any sequence of calls and from any settings, and the launcher's start, stop and
reaper goroutines, the child processes and the ports anything listens on as interleaved atomic steps. The program
starts its listeners on distinct addresses and so never loses one (`ProgramLosesNothing`); only a caller of
the manager alone could, by starting it on an address twice (`OpenIsManaged`), of which the operating system
grants only that of any free port (`AnyPortTwiceLosesOne`).

**Text in and out** (`Query.dfy`, `Digest.dfy`, `DigestServer.dfy`, `Sniffer.dfy`): query parameters appended to a
URL, the Digest header of RFC 7616, its reader and, from section 3.4 of that RFC, a server that checks it, and the
writer that looks for an announced address in chunked output.

## Where a promise is not kept

Each of these is proved with its exact condition and shown on an input, and the code is modelled as it is.

- Feeding the printed path of a reported change back as an ignore path removes that change and no other, whatever
  the objects and arrays compared, exactly when the path survives printing (`FeedbackExactly`). It does not for the
  document root, for keys with a dot, a bracket or a wildcard, and for texts with something to trim at their edges;
  `FailsOnSome` builds the documents. At the root no pattern helps (`RootChangeCannotBeIgnored`), as `FailsAtRoot`
  shows on an empty object and an empty array. Leaves more than 64 segments down are not compared
  (`EmptyMeansAgreement`, `DeepLeafIsNotCompared`).
- A header whose name has blanks around it is reported as a difference even against itself, because names are
  trimmed when the headers are collected and not when they are looked up (`NoDifferenceExactly`,
  `BlankNameDiffersFromItself`).
- An accepted cookie without a Path attribute is not sent back if it is Secure and came over http, or if its
  Max-Age overflows 64-bit nanoseconds (`SentBackToSender`, `SecureOverHttpIsNotSentBack`,
  `LongMaxAgeIsNotSentBack`). The third condition of the lemma, a path that is not rooted, is one no URL with a
  host has.
- `nextHop` is documented to follow the sender's own redirect rules; on a hop from https to http of one host
  the sender strips credentials and `nextHop` does not (`AgreesWithSender`, `DowngradeKeepsCredentials`).
- `OutcomeSent` is documented to include recorded transport errors; the code gives those the outcome "error"
  (`StepOutcome`).
- A parameter added to a query that is not empty and ends with a question mark becomes part of the last
  parameter there was (`AppendedReadsBack`, `OpenQueryMerges`).
- A Digest header can be checked by a server that knows the password exactly unless the challenge names a session
  algorithm and no quality of protection that is understood: the key is then made with a cnonce that the header does
  not have (`ServerAcceptsExactly`, `KeptIsRejected`).
- Processes are supervised exactly as long as no stop goroutine removes the entry of a process that is still
  alive (`SupervisedExactly`), as one does when the kill it sent has no effect or none yet. The project can then be
  given a second live process, on other ports while the old one still listens and on the same once it has closed
  its listeners (`StubbornProcessBreaksSupervision`).
- The address sniffer can read a stream differently when it is split differently: all splits come to one state,
  whatever is looked for, exactly when no complete line is longer than 8 KiB (`AlikeExactlyWhenLinesFit`). The
  unfinished last line may be longer. A line that begins with the address and goes on with blanks is found when its
  newline comes with it and missed when the newline comes later (`AddressAtTheFrontIsMissed`).
- A cell of the matrix is "not run" also when its last result was a skipped request (`NotRunExactly`).

## Model

| member | source | states |
|---|---|---|
| CollectionStep.StepRun.Execute | internal/collexec/step.go:40-125 | the run the program makes, field by field, is the record the theorems below speak of |
| CollectionStep.StepRun.Gate | internal/collexec/step.go:129-162 | the trust store is asked once for each script hash and not at all when scripts are off, and a step that must fail on quarantine is blocked with a note for each untrusted script |
| CollectionStep.StepRun.RunPhase | internal/collexec/step.go:170-219 | the scripts of a phase run in order, with a note for each that does not, and only a failed pre-request script ends the step |
| CollectionStep.StepRun.Check | internal/collexec/step.go:302-331 | the verdict on a destination, and the warning it leaves |
| CollectionStep.StepRun.SendLoop | internal/collexec/step.go:413-459 | sending with redirects followed by hand, ending within the redirect limit |
| CollectionStep.StepRun.OnFlow | internal/collexec/step.go:392-409 | each reported flow is recorded with the one before it as its parent |
| CollectionStep.StepRun.DoAuthRequest | internal/collexec/auth.go:62-115 | an authenticator's request reaches the sender only through a check of its own |
| StepSafety.StepIsSafe | internal/collexec/step.go:302-337 | in every run each call of the sender comes right after a check of that same destination that let it pass, and every pass with a warning has its warning |
| StepSafety.ClearedMeans | internal/collexec/pipeline.go:164-255 | a destination passes exactly if it is no own listener and the policy is off or warn, or it is on the pin and in scope |
| StepSafety.PolicyExactly | internal/collexec/pipeline.go:137-152 | a run blocks exactly when the override does, or there is none, it is not from the UI and the collection's policy is neither off nor warn; which runs warn likewise |
| StepSafety.OwnExactly | internal/collexec/pipeline.go:164-184 | an own listener is a local host at one of the own ports, the port being the one written or the scheme's |
| StepSafety.PinExactly | internal/collexec/pipeline.go:224-262 | a pin is met by its host, in any case, at its port, if it has one |
| StepSafety.EverySendIsAllowed | internal/collexec/step.go:302-337 | whatever is sent to, by main and auth requests alike, is never a local host at an own port; in a run that blocks it is in scope and, for main requests, on the pin; in one that warns a violation has a warning with its reason and host |
| StepWarnings.EveryWarningIsOfOneCheck | internal/collexec/step.go:308-331 | in every run the warnings of sending anyway are, one for one and in order, those of the checks that let pass with one, each with the reason and the host |
| StepScripts.ScriptsRunInOrder | internal/collexec/step.go:170-219 | in every run a script runs only if scripts are enabled and its hash is trusted, all pre-request scripts before any check or send, all test scripts after |
| StepScripts.OuterToInner | internal/collexec/model.go:498-505 | scripts of a phase run from the collection inwards to the request |
| StepScripts.ChainScriptsExactly | internal/collexec/model.go:467-505 | the scripts of a phase are those of every level that are enabled, readable, not blank and for the phase, and no other |
| StepScripts.LevelScriptsExactly | internal/collexec/model.go:467-495 | the scripts of a level stand in the order of its events |
| StepOutcomes.StepSendsAChain | internal/collexec/step.go:413-459 | the main requests of every run are one redirect chain, at most the limit plus one, and one only when redirects are not followed; its hops are the sender's answers in order, each with what the jar then says exactly if the request set no cookie itself |
| StepOutcomes.StepKeepsCredentialsHome | internal/collexec/step.go:413-459 | in every run no main request after the first redirect to another host carries Authorization or Proxy-Authorization |
| StepOutcomes.StepKeepsOwnCookiesHome | internal/collexec/step.go:413-459 | in every run whose request sets its own cookies no main request after the first redirect to another host carries any |
| StepOutcomes.StepAsksTheJarForEachHop | internal/collexec/step.go:441-455 | in every other run each main request after the first carries exactly the jar's answer of that moment, or none |
| StepRequests.StepSendsFirst | internal/collexec/step.go:238-390 | a step sends exactly when nothing is quarantined, every pre-request script lets it pass, variables resolve, codec and authenticator do not fail and the checks let the URL pass; the first request then has the built method, the built or the authenticator's URL, the encoded or the built body, and exactly the listed headers in the form they call for |
| StepRequests.StepFollowsRedirects | internal/collexec/step.go:413-459 | each later main request goes where the answer before it redirects, and the chain ends only with an answer that is none, an error or no redirect, at the limit, or where the checks refuse to go |
| StepRequests.PreScriptRunsExactly | internal/collexec/step.go:170-219 | a pre-request script runs exactly when the step is not quarantined, scripts are on, it is trusted, there is an engine, and every one before it that ran let the step go on |
| StepRequests.TestScriptRunsExactly | internal/collexec/step.go:113-124 | a test script runs exactly when the step's outcome is "sent", scripts are on, it is trusted and there is an engine |
| StepRequests.StepNotes | internal/collexec/step.go:129-219 | the notes of every run, one for each script that does not run or does not end well, with its reason, in order |
| StepRequests.StepSendsAuth | internal/collexec/auth.go:62-115 | once the authenticator is asked, exactly those of its requests go out, in order, that have a URL and a readable body and pass the checks |
| StepReports.StepFlowsExactly | internal/collexec/step.go:392-459 | the flows of every run are those reported for its main requests, in order, or else the one returned last; and exactly the reported ones have rows, each with the one before it as its parent |
| StepReports.EndsBeforeRequest | internal/collexec/step.go:67-87 | quarantine and unresolved variables block with their reasons, the first script that does not let the step pass makes it skipped or failed |
| StepReports.EndsBeforeSending | internal/collexec/step.go:276-337 | a request that cannot be prepared makes the step fail, and one the checks refuse blocks it for being an own listener, off the pin or out of scope, in that order |
| StepReports.EndsAfterSending | internal/collexec/step.go:96-112 | the outcome after sending is that of the last answer |
| StepReports.StepWarnsExactly | internal/collexec/step.go:436-443 | the other warnings are that of a scheme without an authenticator and that of the last redirect refused, with its reason and host |
| StepOutcomes.StepOutcome | internal/collexec/step.go:88-125 | the outcome is "sent" exactly when the last answer is a flow without an error; skipped, quarantined and unresolved steps sent nothing; a step blocked by a check sent no main request |
| StepOutcomes.TestsOnlyAfterResponse | internal/collexec/step.go:96-124 | a test script runs only in a step whose outcome is "sent" |
| StepOutcomes.StepFlows | internal/collexec/step.go:392-409 | the rows of the main flows are one chain by their parents, from the step's own parent to the flow the run reports |
| StepOutcomes.StepReportsFinalFlow | internal/collexec/step.go:614-619 | if the sender reports the flows it returns, a sent step reports its final flow |
| Redirect.ChainHeaders | internal/collexec/step.go:504-558 | along any chain the headers other than cookies are the first request's, in the map and in the ordered form, less exactly Host after any hop, those that describe a body once a response has dropped it, and credentials once a hop has gone to another host |
| Redirect.NoCredentialsAfterCrossHost | internal/collexec/step.go:504-558 | after the first hop to another host no request carries Authorization or Proxy-Authorization, even back on the first host |
| Redirect.ChainMethodAndBody | internal/collexec/step.go:504-558 | method and body are the first request's exactly until a 303 to anything but HEAD or a 301 or 302 to POST, then (GET, empty) for ever |
| Redirect.NoContentHeadersAfterDrop | internal/collexec/step.go:504-558 | once the body is dropped no later request has a header that describes one |
| Redirect.HopCookieIsPlain | internal/collexec/step.go:463-490 | setting a hop's cookie changes nothing but Cookie headers |
| Redirect.OwnCookiesStayBehind | internal/collexec/step.go:504-558 | when the cookies are the request's own, no request after the first hop to another host carries one |
| Redirect.JarCookieOnly | internal/collexec/step.go:445-455 | when they are the jar's, every request after the first carries exactly the jar's answer for it, or none |
| Redirect.AgreesWithSender | internal/sender/options.go:96-152 | a hop is the sender's own exactly unless it goes from https to http of one host with credentials |
| Redirect.DowngradeKeepsCredentials | internal/collexec/step.go:531-545 | a hop from https to http of one host on which the step passes Authorization on and the sender does not |
| CookieJar.Jar.Store | internal/collexec/jar.go:57-104 | the jar after a response is the one the storage rules give, and stays valid |
| CookieJar.StoreAllValid | internal/collexec/jar.go:57-104 | keys match their cookies, creation numbers are distinct and bounded by the counter, after every store |
| CookieJar.Jar.Header | internal/collexec/jar.go:138-158 | the header lists the matching cookies, longer path first and then earlier creation, whatever order the map is ranged over |
| CookieJar.Jar.List | internal/collexec/jar.go:161-181 | the unexpired cookies in one order, whatever order the map is ranged over |
| CookieJar.Jar.Export | internal/collexec/jar.go:192-201 | all cookies in order of creation |
| CookieJar.Jar.Replace | internal/collexec/jar.go:204-221 | the jar holds the given cookies, renumbered where they have no number |
| CookieJarTheorems.StoreKeepsCookies | internal/collexec/jar.go:83-103 | storing removes only the cookie the arriving one deletes, keeps creation numbers and never exceeds the capacity; a full jar evicts nothing |
| CookieJarArrivals.SentCookieHasOrigin | internal/collexec/jar.go:57-158 | in every history whatever is sent is what a response said, with every attribute: its domain covers the host that said so, its path is the attribute or the directory of the URL's, and its Max-Age has not run out or, without one, its date not come |
| CookieJarArrivals.LastArrivalDecides | internal/collexec/jar.go:57-104 | the last Set-Cookie for a cookie decides whether it is held, and as what, unless it finds the jar full and the cookie not there |
| CookieJarArrivals.SentExactly | internal/collexec/jar.go:57-158 | a cookie is sent exactly if its last Set-Cookie did not remove it and found room, it has not ended, and host, path and scheme of the request are those it is for |
| CookieJarArrivals.HistoryIsArrivals | internal/collexec/jar.go:57-104 | a jar after a history of responses is that after their Set-Cookie headers, one by one |
| CookieJarArrivals.SentInOrder | internal/collexec/jar.go:147-152 | longer paths first, and of two as long the one created earlier |
| CookieJarArrivals.HeaderReadsBack | internal/collexec/jar.go:153-158 | divided at its semicolons the header is name=value for each cookie sent |
| CookieJarArrivals.ListedExactly | internal/collexec/jar.go:161-201 | the list has exactly the held cookies that have not ended, the export all that are held |
| CookieJarArrivals.ListedInOrder | internal/collexec/jar.go:161-181 | the list is by domain, then path, then name |
| CookieJarTheorems.SentBackToSender | internal/collexec/jar.go:42-135 | an accepted cookie without a Path goes back to the URL that set it, exactly but for three conditions on the response |
| CookieJarTheorems.SecureOverHttpIsNotSentBack | internal/collexec/jar.go:119-135 | a Secure cookie that comes over http is stored and not sent back |
| CookieJarTheorems.LongMaxAgeIsNotSentBack | internal/collexec/jar.go:78-92 | a cookie with Max-Age 9223372037 is stored as expired and not sent back |
| CookieJarTheorems.MaxAgeFits | internal/collexec/jar.go:78-92 | up to twice that, a Max-Age is in the future exactly up to 9223372036 seconds |
| CookieJarTheorems.SimilarAnswers | internal/collexec/jar.go:57-181 | jars that differ only in their numbers, not in their order, answer every sequence of calls alike |
| CookieJarTheorems.ReplaceRestores | internal/collexec/jar.go:190-221 | exporting a jar and replacing the contents of any jar, fresh or used since, gives such a jar exactly when no cookie has an empty name or domain |
| CookieJarTheorems.RestoredJarAnswersAlike | internal/collrun/backend_store.go:388-400 | after export and replace, into a fresh jar or the used one, every later sequence of calls is answered as by the exported jar |
| CookieJarTheorems.HistoryIsNamed | internal/collexec/jar.go:57-104 | a jar filled from URLs that have a host holds no cookie with an empty name or domain |
| Variables.Vars.constructor | internal/collexec/vars.go:51-68 | the layers are copies, and the local values come last |
| Variables.Vars.GetIn | internal/collexec/vars.go:92-107 | the value that shows in the scope, which is the one in the scope's object |
| Variables.Vars.ToObject | internal/collexec/vars.go:110-127 | every variable of a scope with the value that shows |
| Variables.Vars.Set | internal/collexec/vars.go:132-174 | writes one variable of one scope and nothing else, keeps its secrecy, masks a secret value and logs the write; refused for iteration data and unknown scopes |
| Variables.Vars.Unset | internal/collexec/vars.go:177-191 | removes one variable of one scope and nothing else, and logs it |
| Variables.Vars.Clear | internal/collexec/vars.go:194-201 | empties the scope, in any order; fails exactly for iteration data that is not empty |
| Variables.Vars.Changes | internal/collexec/vars.go:205-222 | the handed-on log has the last write to each variable, and replaying it on the initial variables gives the live ones of every scope |
| Variables.CompactionKeepsEffect | internal/collexec/vars.go:205-222 | leaving out all but the last write to each variable does not change what a log does |
| Variables.SecretsStay | internal/collexec/vars.go:144-172 | in every history a secret stays one through every overwrite until it is removed |
| JsonPath.ParsePatterns | internal/collmatrix/exdiff.go:195-198 | each ignore path becomes the pattern of its text |
| JsonPath.ParsePattern | internal/collmatrix/exdiff.go:283-313 | the pattern of a text is the segments of what is left when blanks and one dollar sign are trimmed |
| JsonPath.ScanSegments | internal/collmatrix/exdiff.go:283-313 | the scanning loop yields the segments of the text |
| JsonPath.CoversPath | internal/collmatrix/exdiff.go:315-331 | a pattern covers a path exactly when it matches a prefix of it segment by segment |
| JsonPath.CoversExactly | internal/collmatrix/exdiff.go:315-331 | a star stands for any segment, a bracketed star for any in brackets, and every other pattern segment for itself |
| JsonPath.PatternOfRenderedPath | internal/collmatrix/exdiff.go:283-357 | a printed path reads back as itself exactly when its segments are of the parser's shapes and the text has nothing at its edges to trim |
| JsonComparison.JsonCmp.Compare | internal/collmatrix/exdiff.go:399-468 | the recursive comparison appends the change list, cut off at the cap |
| JsonComparison.JsonCmp.Add | internal/collmatrix/exdiff.go:368-381 | one change is appended unless the cap is reached, and then the flag is set |
| JsonComparison.DiffBodies | internal/collmatrix/exdiff.go:190-204 | the list is the first 200 changes, each with its printed path, its kind and both values cut after 160 characters; the flag says whether there were more, and the body has changed exactly when one is listed |
| JsonDiff.DiffMembers | internal/collmatrix/exdiff.go:399-468 | a change is listed exactly when it is the first difference on its path, of its stated kind, with no part of the path ignored |
| JsonDiff.ListedExactly | internal/collmatrix/exdiff.go:399-468 | a change is listed exactly when no part of its path is ignored, there are at most 65 segments, objects or arrays stand on both sides all the way, and at the path one value is missing, they are of two kinds, or they are two leaves of one kind that are not equal |
| JsonDiffTheorems.EmptyMeansAgreement | internal/collmatrix/exdiff.go:399-468 | for all documents and patterns nothing is listed exactly when every path not ignored agrees as far as the walk reaches |
| JsonDiffTheorems.EmptyMeansSameViews | internal/collmatrix/exdiff.go:399-468 | with no path over 64 segments nothing is listed exactly when every path not ignored has the same in both: nothing, an object, an array, or one leaf |
| JsonDiffTheorems.EmptyMeansEqual | internal/collmatrix/exdiff.go:399-468 | with no such path and nothing ignored, nothing is listed exactly when the documents are equal |
| JsonDiffTheorems.DeepLeafIsNotCompared | internal/collmatrix/exdiff.go:399-412 | two documents that differ 65 segments down have no listed change |
| JsonDiffTheorems.PathsPrefixFree | internal/collmatrix/exdiff.go:399-468 | no listed path is a prefix of another |
| JsonDiffTheorems.OneMorePattern | internal/collmatrix/exdiff.go:339-346 | one more ignore pattern removes exactly the changes it covers and keeps the rest in order |
| JsonOrder.ListIsInOrder | internal/collmatrix/exdiff.go:413-466 | what is earlier in the list is earlier in the documents, by keys in objects and by indices in arrays |
| JsonOrder.ListIsDetermined | internal/collmatrix/exdiff.go:399-468 | the list is the only one that holds exactly the differences in that order, so the first 200 are fixed as well |
| JsonFeedback.RemovesOneExactly | internal/collmatrix/exdiff.go:339-346 | one more pattern removes one change and no other exactly when it covers its path and no other listed one |
| JsonFeedback.FeedbackOfOneDiff | internal/collmatrix/exdiff.go:283-357 | the same of a text added to the ignore paths of one comparison |
| JsonFeedback.FeedbackRemovesOne | internal/collmatrix/exdiff.go:283-357 | adding the printed path of a listed change to the ignore paths removes that change and no other, if the path survives printing |
| JsonFeedback.FeedbackExactly | internal/collmatrix/exdiff.go:283-357 | a path's printed form always does so, whatever the objects and arrays compared and the ignore paths so far, exactly when the path survives printing |
| JsonFeedback.FailsOnSome | internal/collmatrix/exdiff.go:315-331 | for a pattern that is not the path itself, or has a wildcard, two objects or arrays on which it does not remove the change at the path and no other |
| JsonFeedback.FailsAtRoot | internal/collmatrix/exdiff.go:399-407 | no pattern removes the change between an empty object and an empty array |
| JsonFeedback.RootChangeCannotBeIgnored | internal/collmatrix/exdiff.go:399-407 | for all documents of two kinds and all ignore paths the one change listed is that of kind at the empty path, and one more pattern leaves the list as it is |
| JsonFeedback.RootPrintsEmpty | internal/collmatrix/exdiff.go:283-357 | the printed root path reads back as the empty pattern |
| HeaderDiff.DiffHeaders | internal/collmatrix/exdiff.go:236-274 | the list the program makes is the one the theorems below determine |
| HeaderDiff.NoDifferenceExactly | internal/collmatrix/exdiff.go:236-276 | no header difference is reported exactly when the headers are the same but for case and spacing and no counted name has blanks around it |
| HeaderDiff.FoldedExactly | internal/collmatrix/exdiff.go:236-255 | under each name that is not empty and not skipped in any case stand the values of all its headers, joined in order, and under no other anything |
| HeaderDiff.SameValueExactly | internal/collmatrix/exdiff.go:276 | two values count as the same exactly when they have the same words in the same order, in lower case |
| HeaderDiff.ReportedExactly | internal/collmatrix/exdiff.go:236-274 | when no name has blanks around it, a change is reported exactly when the headers collected under one key differ so |
| HeaderDiff.ReportIsInOrder | internal/collmatrix/exdiff.go:241-274 | what is removed or changed comes before what is added, and each follows its list of headers by where the name is first written |
| HeaderDiff.ReportIsDetermined | internal/collmatrix/exdiff.go:236-274 | with such names any list of exactly those changes in that order is the reported one |
| HeaderDiff.BlankNameDiffersFromItself | internal/collmatrix/exdiff.go:258-272 | a header whose name has blanks around it is reported against itself |
| ItemTree.BuildTree | internal/collection/collection.go:73-101 | for items with distinct ids and any parents the build ends and yields the forest of the parent relation |
| ItemTreeTheorems.PathsExactly | internal/collection/collection.go:73-89 | a path goes down from an item whose parent is empty, missing or itself, each further item having the one before it as its parent |
| ItemTreeTheorems.ForestPaths | internal/collection/collection.go:73-101 | the paths down the forest are exactly the paths of the parent relation from a root |
| ItemTreeTheorems.OccursOnce | internal/collection/collection.go:73-101 | an item whose parents reach a root occurs exactly once, every other not at all |
| ItemTreeTheorems.RootedUnlessCycle | internal/collection/collection.go:73-101 | an item reaches a root exactly when it is neither on a cycle nor below one |
| ItemTreeTheorems.ForestIsSorted | internal/collection/collection.go:90-100 | siblings stand in order of rank, then id, at every level |
| ItemTreeTheorems.OrderDoesNotMatter | internal/collection/collection.go:73-101 | permutations of the list have one forest |
| ItemTree.ChainFromItems | internal/collexec/model.go:324-348 | the walk up ends on every relation, cyclic ones included, and the folders are the ancestors it meets |
| ItemTreeTheorems.ChainIsPath | internal/collexec/model.go:324-348 | for every item of the forest the chain's folders are the nodes above it, outermost first |
| IdentityMatrix.ResolveIdentities | internal/collmatrix/matrix.go:172-219 | all those wanted who can be run, each once, in the order they are wanted, up to twelve; the first name nobody has; or nobody exactly when none of those wanted can be run |
| IdentityMatrix.CandidatesExactly | internal/collmatrix/matrix.go:172-211 | someone can be run exactly when not broken, with headers or anonymous, and meant by a name that is wanted: in any case, blanks aside, of several saved under it the last |
| IdentityMatrix.PickBaseline | internal/collmatrix/matrix.go:221-233 | the baseline is the first identity of the name asked for, else the first that is not anonymous, else the first |
| IdentityMatrix.Classify | internal/collmatrix/matrix.go:141-158 | a status is a success exactly in the two hundreds, and a refusal exactly for 401, 403 or a redirect to a login page |
| IdentityMatrix.Matrix.Fold | internal/collmatrix/matrix.go:369-413 | one row for each of the first 200 distinct requests and owners in the order they are met, each cell with the last first-iteration result that belongs there |
| IdentityMatrix.Matrix.Assemble | internal/collmatrix/matrix.go:369-414 | the folded rows are judged cell by cell, and the summary is a recount of the result |
| IdentityMatrix.Matrix.Finalize | internal/collmatrix/matrix.go:420-466 | every cell is compared with the baseline's and flagged by the owner rule or the expectation rule |
| IdentityMatrix.RowsAreDistinct | internal/collmatrix/matrix.go:384-404 | rows are of distinct keys, and below the bound no request is missing |
| IdentityMatrix.RowsInOrder | internal/collmatrix/matrix.go:384-404 | rows stand in the order in which their requests and owners are first met, and only later ones are missing |
| IdentityMatrix.NotRunExactly | internal/collmatrix/matrix.go:468-493 | a cell is "not run" exactly when there is no result for it or the last one was skipped |
| IdentityMatrix.FlagsExactly | internal/collmatrix/matrix.go:437-456 | a violation is exactly a success of an identity that does not own the object or, without an owner, is expected to be denied; an unexpected denial exactly a refusal of one expected to be allowed |
| IdentityMatrixTheorems.CellsExactly | internal/collmatrix/matrix.go:369-413 | the class and status of a cell are those of the identity's last first-iteration result for the row, by its outcome, status and stored flow |
| IdentityMatrixTheorems.SameExactly | internal/collmatrix/matrix.go:504-515 | a cell counts as the same as the baseline's exactly when both last results were sent, with one status and, where both stored bodies have a hash, one hash, else one size |
| IdentityMatrixTheorems.NoBaseline | internal/collmatrix/matrix.go:420-441 | without the baseline's column nothing counts as the same |
| IdentityMatrixTheorems.FlagsOfResults | internal/collmatrix/matrix.go:437-456 | which last results are violations and which unexpected denials, by owner or by expectation |
| IdentityMatrixTheorems.ExpectationsExactly | internal/collmatrix/matrix.go:519-530 | the matrix tells of each identity's own expectation but the baseline's, and of denial for the anonymous one |
| IdentityMatrixTheorems.SummaryExactly | internal/collmatrix/matrix.go:542-565 | each count is the number of cells with the flag, class or difference |
| IdentityMatrix.Matrix.Summarize | internal/collmatrix/matrix.go:542-565 | the one pass over all cells counts each kind as it would be counted alone |
| IdentityMatrix.CountedExactly | internal/collmatrix/matrix.go:457-464 | a count is positive exactly when some cell has the property |
| Listeners.ProxyManager.ListenAll | cmd/interseptor/main.go:613-630 | opens every address with a new server, or nothing stays open; it succeeds exactly if every address can be listened on |
| Listeners.ProxyManager.StartAddrs | cmd/interseptor/main.go:633-670 | the first listeners, on the addresses as given; what is open is what is managed |
| Listeners.ProxyManager.RebindAddrs | cmd/interseptor/main.go:688-757 | a success serves exactly the deduplicated addresses, keeps the server of each retained one and drains exactly the dropped ones; a failure changes nothing; it succeeds exactly if some address is left and every new one can be listened on; distinct addresses and open listeners equal to the managed ones are kept |
| Listeners.DedupeAddrs | cmd/interseptor/main.go:760-775 | trimmed, without blanks, first occurrences in order |
| Listeners.DedupeDistinct | cmd/interseptor/main.go:760-775 | the addresses are distinct |
| Listeners.DedupeKeeps | cmd/interseptor/main.go:760-775 | exactly the addresses named, blanks aside, are kept |
| Listeners.DedupeInOrder | cmd/interseptor/main.go:760-775 | they stand in the order in which they are first named |
| Listeners.LostOnlyByRepeatedAddresses | cmd/interseptor/main.go:694-757 | a rebind loses a listener exactly when an address was served twice |
| Listeners.OpenIsManaged | cmd/interseptor/main.go:613-757 | over every sequence of starts on any addresses, rebinds and drains, with any failures, the open listeners are exactly the managed and draining ones exactly if no rebind succeeded while an address was served twice |
| Listeners.NormalizeProxyAddrs | internal/control/proxyaddrs.go:36-54 | the saved addresses trimmed and without blanks and repetitions, or the default when none is left |
| Listeners.NormalizedExactly | internal/control/proxyaddrs.go:36-54 | exactly the addresses named are served, blanks aside, or the default alone if all are blank |
| Listeners.ChooseAddrs | cmd/interseptor/main.go:389-399 | the saved addresses, then the environment's in their place, then the flag's |
| Listeners.RuntimeAddrsExactly | cmd/interseptor/main.go:389-399 | the flag goes before the environment, and that before the saved list, and that before the saved address |
| Listeners.RuntimeAddrsAreDistinct | cmd/interseptor/main.go:389-399 | whatever is saved, in the environment or given as a flag, the program starts on distinct addresses, and on at least one |
| Listeners.ProgramLosesNothing | cmd/interseptor/main.go:389-757 | in every run that starts as the program does, whatever fails, the addresses are distinct and the open listeners are exactly the managed and draining ones |
| Listeners.DistinctForGood | cmd/interseptor/main.go:688-757 | after a first successful rebind addresses stay distinct and nothing more is lost |
| Listeners.AnyPortTwiceLosesOne | cmd/interseptor/main.go:633-757 | a caller of the manager alone who starts it on any port twice and rebinds loses its first listener |
| Launcher.StepKeeps | cmd/interseptor/launcher.go:320-453 | an atomic step of handlers, goroutines, children or listeners keeps the supervision invariant exactly when it is not the removal of a live process's entry by a stop goroutine |
| Launcher.SupervisedExactly | cmd/interseptor/launcher.go:320-453 | over all interleavings every state so far is supervised exactly when no stop goroutine so far has removed the entry of a live process |
| Launcher.RunIsSupervised | cmd/interseptor/launcher.go:320-453 | in such a run a project has at most one live process, every live process has its entry or is about to get it, and all ports of live processes are distinct |
| Launcher.SpawnedOnFreePorts | cmd/interseptor/launcher.go:459-486 | in such a run every process is started on two different ports of their ranges that no other live one has |
| Launcher.ChosenIsUnbound | cmd/interseptor/launcher.go:459-486 | in every run a port is chosen only while nothing listens on it |
| Launcher.LiveEntryStays | cmd/interseptor/launcher.go:374-400 | in such a run no step removes or changes the entry of a process that lives on |
| Launcher.CleanupIsOwn | cmd/interseptor/launcher.go:380-453 | a cleanup goroutine removes nothing but its own process's entry; a reaper's process is dead then, and a stop goroutine's exactly if supervision still holds |
| LauncherRuns.EverySpawnIsWatched | cmd/interseptor/launcher.go:351-382 | in every run each live child the launcher has started has a handler about to register it or a goroutine that waits for its end |
| LauncherRuns.CleanupRemoves | cmd/interseptor/launcher.go:374-453 | after a cleanup its process has no entry, and every other entry is as it was |
| LauncherRuns.DeadEntryCanGo | cmd/interseptor/launcher.go:374-382 | once a watched child has died its reaper can take its entry away at once, whoever has the lock |
| LauncherRuns.StartDecides | cmd/interseptor/launcher.go:330-345 | a start ends early exactly if its project is running, and may otherwise choose exactly the ports of the range that no live entry has and nothing listens on |
| LauncherRuns.ProxyIsChosen | cmd/interseptor/launcher.go:459-486 | likewise the second port, which is not the first |
| LauncherRuns.StopDecides | cmd/interseptor/launcher.go:434-444 | a stop goroutine cleans up once it sees the process dead, and before that only by sending a kill |
| LauncherRuns.LockIsRespected | cmd/interseptor/launcher.go:330-453 | starts, and the two ends of a stop, go on only while nobody has the lock, and a stop only for a project with an entry |
| Launcher.StubbornProcessBreaksSupervision | cmd/interseptor/launcher.go:427-453 | a stop that is not in time leaves a live process without an entry, and the next start gives its project a second one, on any ports that nothing listens on |
| Launcher.Registry.AllocatePorts | cmd/interseptor/launcher.go:459-486 | two different ports in their ranges that no live entry has and that can be bound; none only if a range is full |
| Launcher.FindFreePort | internal/launcher/ports.go:13-26 | the first port of the range that is neither used nor refused |
| Launcher.Registry.RemoveEntry | internal/launcher/registry.go:95-103 | an entry is removed only if it is of the given process |
| Launcher.Registry.ReconcileWith | internal/launcher/registry.go:107-121 | exactly the entries of dead processes go |
| Query.QueryEscape | internal/collexec/build.go:213-228 | the loop writes the escaped text |
| Query.EscapeKeepsMeaning | internal/collexec/build.go:210-228 | escaping does not change what lenient percent-decoding gives |
| Query.EscapeIsIdempotent | internal/collexec/build.go:210-228 | escaping twice is escaping once |
| Query.EscapedIsOpaque | internal/collexec/build.go:213-228 | no ampersand, equals sign or hash sign is ever written |
| Query.EscapedIsWellFormed | internal/collexec/build.go:213-228 | every byte written is one of the allowed ones or begins, or is in, an encoded byte; and exactly such texts are left as they are |
| Query.EnabledExactly | internal/collexec/build.go:249-256 | all parameters but the disabled and those without a key are sent, in order |
| Query.AppendQuery | internal/collexec/build.go:249-274 | the enabled parameters, escaped, go after the query and before the fragment |
| Query.FragmentStaysLast | internal/collexec/build.go:259-264 | the fragment is kept and stays last |
| Query.AppendedReadsBack | internal/collexec/build.go:249-274 | split and decoded, the URL has its own parameters and then exactly the enabled ones in order, exactly unless its query was not empty and ended with a question mark |
| Query.OpenQueryMerges | internal/collexec/build.go:265-271 | an input for which the added parameter is merged into the last one |
| Digest.ParseKV | internal/collauth/digest.go:35-72 | the nested loops end on every text and compute its parameters |
| Digest.AnyParameter | internal/collauth/digest.go:35-72 | whatever separates parameters and however names are cased and spaced, a quoted value is what was quoted and a bare one all up to the comma, trimmed; without an equals sign there is none |
| Digest.ChallengeExactly | internal/collauth/digest.go:24-32 | only a text of this scheme with a nonce is a challenge |
| Digest.UnquoteUndoesEscQ | internal/collauth/digest.go:143 | reading a quoted value undoes its escaping, whatever it contains |
| Digest.PrintReadsBack | internal/collauth/digest.go:35-72 | reading any printed list of parameters gives them back |
| Digest.DigestHeader | internal/collauth/digest.go:87-141 | the parts in their order, each optional one exactly when it is due; none for an unsupported algorithm |
| Digest.ChooseQop | internal/collauth/digest.go:97-106 | plain authentication is taken up whenever it is offered, else with integrity if that is |
| Digest.ChosenExactly | internal/collauth/digest.go:97-106 | auth if the list, divided at its commas, has it, else auth-int if it has that, else none |
| Digest.DigestHashExactly | internal/collauth/digest.go:74-85 | no name, MD5 and SHA-256, each also for a session, in any case, and nothing else |
| Digest.HeaderReadsBack | internal/collauth/digest.go:35-141 | what is read from the header is exactly what was printed, every field and no other |
| Digest.RecoveredFields | internal/collauth/digest.go:118-140 | user, realm, nonce, uri, response, opaque and cnonce are each recovered under their own name, and absent ones are absent |
| Digest.HeaderNamesChallenge | internal/collauth/digest.go:24-32 | the header read as a challenge is the one it answers, with the quality of protection taken up |
| DigestServer.ServerAcceptsExactly | internal/collauth/digest.go:87-141 | a server that knows the password works out the response in the header, whatever the hashes are, exactly unless the cnonce is used and not sent |
| DigestServer.KeptIsRejected | internal/collauth/digest.go:107-120 | with a hash by length such a header is rejected |
| DigestServer.CountReadsBack | internal/collauth/digest.go:107 | the count is the number in hexadecimal, in eight digits if they suffice |
| DigestServer.HexTextReadsBack | internal/collauth/digest.go:92-96 | a hash is printed as two hexadecimal digits a byte |
| Sniffer.URLSniffer.Write | cmd/interseptor-macapp/sniff.go:65-97 | each write leaves the state that the writes so far come to, keeps at most 8 KiB, and sends at most one value ever |
| Sniffer.ChunksDoNotMatter | cmd/interseptor-macapp/sniff.go:65-97 | with no line over 8 KiB, what is found and kept after any split into writes is what the whole stream comes to |
| Sniffer.ScanFindsFirst | cmd/interseptor-macapp/sniff.go:77-92 | what is found is what the first complete line to announce anything announces |
| Sniffer.ScanFindsNothing | cmd/interseptor-macapp/sniff.go:77-96 | while no complete line does, the unfinished last line is what is kept |
| Sniffer.SplitsComeToTheWhole | cmd/interseptor-macapp/sniff.go:65-97 | when only the unfinished line may be over 8 KiB, every split into writes comes to what the whole stream comes to, with that line cut down to its end |
| Sniffer.AlikeExactlyWhenLinesFit | cmd/interseptor-macapp/sniff.go:93-96 | any two splits of a stream come to one state, whatever is looked for, exactly when no complete line is over 8 KiB |
| Sniffer.AddressAtTheFrontIsMissed | cmd/interseptor-macapp/sniff.go:65-97 | a long line that begins with an address, found when its newline comes with it and missed when the newline comes in a write of its own |

## Left out

- Timing reports (`internal/collmatrix/timing.go`): sums, quantiles and percentages would add only easy arithmetic, part of it floating point.
- Text of errors, warnings and notes, console output, masking of results, response models, assertions and the clock of a run: not part of what the theorems say.
- Flow rows that fail to be written, panics of the engine and of the row writer, and the effects of scripts on the request: a script's answer is an arbitrary outcome and the resolver's answer is arbitrary.
- The variable stack that resolves names across scopes (`internal/varstore`): only the scopes' own views are modelled.
- The trust store is a function of the hash within one step, and its failures count as no trust.
- Header names other than those the rules name are told apart by their spelling alone. A name is a case variant of one of the rules' names or it is not; the code asks in two ways, by canonical form and by case folding, which differ for letters outside ASCII (a Cookie spelled with the Kelvin sign).
- URL and JSON text parsing: a URL is a record of its parts and a document a JSON value; numbers are kept as text.
- Letters outside ASCII in lower-casing and case folding, but for the two that fold to ASCII, and text that is not valid UTF-8: texts are sequences of characters, so a clipped value is clipped by characters and not by bytes.
- The joined map keys of jar, matrix and change log: modelled as tuples, since their parts cannot contain the separator.
- Nil cookies and nil option records; the registry of jars by collection, environment and identity.
- ItemTree.BuildTree: item ids are distinct, as the store's keys are; a list with repeated ids is not modelled.
- Tree nodes are built as values from lists of children that are appended to and then sorted; nodes shared in place are not captured.
- How the saved addresses are read from the settings (their lines are taken as given), how a flag's port becomes an address, and the listeners inherited by a managed audit.
- Listener retries, the drain timeout and concurrent rebinds: calls are serialised and an attempt to listen succeeds or fails, on one address as on another: that the operating system refuses an address already taken is not assumed.
- Process identifiers are never used again, and who listens on a port is known when it is probed.
- Log files, tokens, saving the registry to disk, readiness probes and the dashboard.
- The run loop of the matrix, the choice of its scenarios and its warnings: reports are arbitrary, one list of results for each identity and scenario, and a scenario has either no owner, alone, or its own.
- Names, addresses, durations and error texts of matrix rows and cells; whether a redirect goes to a login page is part of what is stored about an exchange.
- Sniffer: the expression that finds the address in a line and its rewriting for a local browser are an arbitrary function, and nothing is taken from the channel before it is filled.
- Digest: the hash functions are arbitrary, and the nonce count is not negative.
- Other authentication schemes, codecs, form and multipart bodies, identities' header handling: thin wrappers.
