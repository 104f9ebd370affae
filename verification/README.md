# Verified models of libcurl 7.42.1 and pkgconfig.py

This project models twelve pieces of libcurl 7.42.1 and the package ordering of pjproject's
`pkgconfig.py`, and proves what their code promises. Code that updates state is a class with those
fields, or a method on arrays, proved against a specification on values; whole runs and round trips are
lemmas about that specification.

| file | what it models |
|---|---|
| `Sasl.dfy`, `SaslRuns.dfy`, `SaslAnswers.dfy`, `SaslInitialResponse.dfy` | the SASL negotiation engine: the engine as a class; termination, safety and order of the tries over whole runs; what each server answer does; initial responses |
| `DigestText.dfy` | key and value pairs of digest authentication: printer and parser |
| `AsynThread.dfy` | the threaded resolver as interleaved steps of two threads over one shared block |
| `Connect.dfy` | the connection race: two lanes over one address list, with every socket accounted for |
| `ContentEncoding.dfy` | the incremental gzip header parser and its hand-off to zlib |
| `DotDot.dfy` | dot-segment removal in place, section 5.2.4 of RFC 3986 |
| `ConnCache.dfy` | the connection cache: bundles, back pointers, counts, rollback, iteration under removal |
| `FnMatch.dfy` | the backtracking glob matcher |
| `Base64.dfy`, `Escape.dfy`, `NtlmMsgs.dfy` | base64, percent-encoding and the NTLM type-3 message with the little-endian readers |
| `PkgConfig.dfy` | requirement lists, depth-bounded weights and the resulting order |
| `Basics.dfy` | optional values, octets, C strings, slices |

How to read the main results:

- **SASL.** Each mechanism has a script of client payloads and one state per payload. `Start` and `Continue`
  are proved to compute `StartStep` and `ContinueStep`; a run is any sequence of server answers, with any
  messages created and any send results. `Honest` names the two things the caller owes: the send callback
  does not return `CURLE_BAD_CONTENT_ENCODING`, and a creator that decodes no challenge does not either.
- **Resolver.** A run is any interleaving. The state records joins, detaches, frees and the fate of the
  address list, and raises a flag on any access after the free or any result read too early. `BetweenCalls` is any
  moment of any run at which a call can be made; the results about calls start there.
- **Race.** `open` is the set of descriptors the kernel holds. `Valid` says that the pending and the adopted
  sockets are exactly the open ones, each in one place; closing demands an open descriptor, so nothing is
  closed twice. `tries` records every attempt with the lane that made it, and `walks` every call of trynextip. What a
  poll learns (`Poll`) is its input, so its contract says who wins, which lanes give up their sockets, which keep them,
  and what is reported. As in the source, `error` set by the first lane is still set when the second is looked at.
- **Connection cache.** `Valid` speaks of every connection the cache was ever given: a member points to the bundle
  of its host, any other points nowhere. `Session` makes any calls on a new cache and a pool of connections; a
  connection that is in the cache is not added again. `Replay` is what the calls mean for the lists of the hosts.
- **gzip.** `Check` is what `check_gzip_header` answers. It accepts exactly the byte strings that begin with a
  printed header of section 2.3 of RFC 1952 and rejects, from ten bytes on, exactly those that nothing can complete
  to one (`Hopeless`). The decoder hands zlib the same bytes for every cut into chunks.
- **NTLM.** When the response is 936 to 1024 bytes long, the source leaves it out but still describes it in the
  header. All fields are read back if and only if it is shorter than 936 bytes. For lengths over 1024 the
  unsigned difference at line 750 wraps, the copy would not fit, and the model answers `OutOfBounds`.
- **pkgconfig.** The message says "Circular dependency", but it is printed if and only if some chain of eleven
  packages exists, circular or not. Without it the order is topological. In general a weight counts the chains
  of at most ten packages, and `TopologicalExactly` says in these terms, for every graph and command line, when
  the order is topological; `ElevenInARow` is a command line for which it is not.
- **Where comments and code differ.** The comment at base64.c line 275 says that an empty encoding gives NULL;
  the code returns an empty string. The model follows the code.

## Model

| member | source | states |
|---|---|---|
| Sasl.SaslEngine.constructor | curl-7.42.1/lib/curl_sasl.c:1294-1307 | the engine at rest, with the default preferences |
| Sasl.SaslEngine.Choose | curl-7.42.1/lib/curl_sasl.c:1386-1472 | the chain of tests picks the most preferred eligible mechanism, XOAUTH2 also by bearer alone |
| Sasl.SaslEngine.Start | curl-7.42.1/lib/curl_sasl.c:1372-1489 | engine, result and progress after start, including an initial response held back for its length |
| Sasl.SaslEngine.Due | curl-7.42.1/lib/curl_sasl.c:1530-1630 | every state asks for the payload its mechanism's script has at that place, and the next state follows the script |
| Sasl.SaslEngine.Continue | curl-7.42.1/lib/curl_sasl.c:1500-1667 | engine, result and progress after one server answer, with cancel and fall-back; an answer other than contcode in a dialogue denies the login and sends nothing |
| Sasl.BestFrom | curl-7.42.1/lib/curl_sasl.c:1389-1472 | the choice is eligible and no eligible mechanism is preferred to it; none only if none is eligible |
| Sasl.StationsLocate | curl-7.42.1/lib/curl_sasl.c:1530-1630 | state and position in the script determine each other |
| SaslRuns.StartEstablishes | curl-7.42.1/lib/curl_sasl.c:1389-1488 | start puts the engine on the script of the best mechanism left, after everything tried before |
| SaslRuns.CancelClears | curl-7.42.1/lib/curl_sasl.c:1632-1634 | the XOR on cancel always clears a bit, although XOAUTH2 can be chosen without one |
| SaslRuns.ContinueKeeps | curl-7.42.1/lib/curl_sasl.c:1500-1667 | each step in progress keeps the invariant and lowers the measure of mechanisms left and stage of the dialogue |
| SaslRuns.RunKeeps | curl-7.42.1/lib/curl_sasl.c:1500-1667 | the same over whole runs |
| SaslRuns.NegotiationsEnd | curl-7.42.1/lib/curl_sasl.c:1372-1667 | whatever the server sends, five answers for each mechanism and four more end the negotiation |
| SaslRuns.SuccessNeedsTheWholeScript | curl-7.42.1/lib/curl_sasl.c:1516-1528 | success is reported exactly when finalcode answers the final state, and then the complete script of the mechanism in use was sent |
| SaslRuns.TriesDescend | curl-7.42.1/lib/curl_sasl.c:1389-1488 | in every negotiation, ended or not, mechanisms are tried in strictly decreasing preference and none twice; while it goes on, the one in use is the last tried and the best one left |
| SaslAnswers.RefusalEnds | curl-7.42.1/lib/curl_sasl.c:1524-1528 | in every negotiation, an answer other than contcode in a dialogue ends it: login denied, done, stopped, the log as before |
| SaslAnswers.VerdictEnds | curl-7.42.1/lib/curl_sasl.c:1516-1522 | the answer to the last payload decides: finalcode grants the login, any other denies it, and nothing more is sent |
| SaslAnswers.CancelIgnoresTheCode | curl-7.42.1/lib/curl_sasl.c:1524-1524 | the answer to the "*" is not looked at |
| SaslAnswers.PayloadsNeedContcode | curl-7.42.1/lib/curl_sasl.c:1524-1655 | every payload in the log of any negotiation was written while an answer with contcode was handled |
| SaslAnswers.GoAheadSays | curl-7.42.1/lib/curl_sasl.c:1530-1660 | on contcode the payload that is due goes out, or the exact failure of its creation or of sending ends the call |
| SaslAnswers.BadChallengeIsCancelled | curl-7.42.1/lib/curl_sasl.c:1646-1651 | CURLE_BAD_CONTENT_ENCODING sends "*" and cancels the dialogue |
| SaslAnswers.CancelTriesTheNext | curl-7.42.1/lib/curl_sasl.c:1632-1640 | after the "*" the mechanism is dropped and the best of the others, a less preferred one, gets its AUTH |
| SaslAnswers.CancelFailsToStart | curl-7.42.1/lib/curl_sasl.c:1632-1659 | if that one cannot be started, the negotiation ends with its failure |
| SaslAnswers.CancelFindsNoOther | curl-7.42.1/lib/curl_sasl.c:1632-1640 | with no other mechanism left, the negotiation ends idle, without a verdict |
| SaslAnswers.InitialResponsesFit | curl-7.42.1/lib/curl_sasl.c:1475-1479 | in no negotiation does an initial response longer than maxirlen travel with AUTH |
| SaslAnswers.AuthCarriesExactly | curl-7.42.1/lib/curl_sasl.c:1389-1484 | AUTH goes to the most preferred mechanism and carries its first payload exactly if that is wanted, the client begins, and it fits |
| SaslAnswers.StartFails | curl-7.42.1/lib/curl_sasl.c:1474-1492 | a first payload that cannot be created, or an AUTH that cannot be sent, is the result, and the log stays |
| SaslAnswers.NothingToStart | curl-7.42.1/lib/curl_sasl.c:1384-1489 | without an eligible mechanism start does nothing, idle and without an error |
| SaslAnswers.CooperationSucceeds | curl-7.42.1/lib/curl_sasl.c:1372-1667 | a server that asks for every payload and grants the login gets the whole script of the best mechanism, and success is reported |
| SaslAnswers.OnlyAllowedAreTried | curl-7.42.1/lib/curl_sasl.c:1384-1468 | in no negotiation is a mechanism tried that was not both offered and preferred, or for which credentials are missing; XOAUTH2 also by bearer |
| SaslAnswers.PlaintextIsLast | curl-7.42.1/lib/curl_sasl.c:1386-1468 | LOGIN and PLAIN are chosen only when nothing else can be used, and the others in the order of the chain |
| SaslInitialResponse.DelayedKeepsPayloads | curl-7.42.1/lib/curl_sasl.c:1470-1488 | moving an initial response into a continuation keeps the payload sequence |
| SaslInitialResponse.StartThenPrompt | curl-7.42.1/lib/curl_sasl.c:1470-1488 | an engine that delays its first payload catches up when it is prompted |
| SaslInitialResponse.AnswerInStep | curl-7.42.1/lib/curl_sasl.c:1530-1655 | one answer moves the engine with and the one without initial responses in step, also across a cancel |
| SaslInitialResponse.InitialResponsesAreTransparent | curl-7.42.1/lib/curl_sasl.c:1384-1655 | sent with AUTH, held back or never wanted, also when the first call fails: same verdict, same mechanisms left, same payloads in the same order |
| DigestText.StringQuoted | curl-7.42.1/lib/curl_sasl.c:171-200 | the buffer has exactly the size of the quoted form and holds it |
| DigestText.GetContent | curl-7.42.1/lib/curl_sasl.c:119-154 | the content loop with its escape flag stores the scanned content and a terminator within 1024 characters |
| DigestText.GetPair | curl-7.42.1/lib/curl_sasl.c:98-159 | failure exactly without '=' in reach, else key, content and the position after the pair |
| DigestText.UnescapeQuoted | curl-7.42.1/lib/curl_sasl.c:171-200 | stripping the escapes of a quoted string gives it back |
| DigestText.ScanFits | curl-7.42.1/lib/curl_sasl.c:119-154 | the parser walks over a quoted text that fits and stores all of it |
| DigestText.ScanOverflows | curl-7.42.1/lib/curl_sasl.c:119-154 | a quoted text that does not fit is cut off at the room that was left |
| DigestText.PrintedPairIsParsed | curl-7.42.1/lib/curl_sasl.c:98-200 | printer and parser agree; the parser stops just past the closing quote exactly up to 1022 characters |
| DigestText.LineEndEndsQuotedText | curl-7.42.1/lib/curl_sasl.c:98-159 | a CR or LF inside quoted text ends it there |
| DigestText.TokenPairIsParsed | curl-7.42.1/lib/curl_sasl.c:98-159 | an unquoted value up to a comma, a line end or nothing is read as it stands exactly up to 1023 characters, and the parser stops just past the stop exactly up to 1022 |
| DigestText.KeyExactly | curl-7.42.1/lib/curl_sasl.c:98-159 | a pair is found exactly if there is a '=' among the first 256 characters, and the key is what precedes the first |
| AsynThread.StepKeeps | curl-7.42.1/lib/asyn-thread.c:244-368 | every step of either thread keeps mutual exclusion, ownership of the block and the books |
| AsynThread.RunKeeps | curl-7.42.1/lib/asyn-thread.c:244-368 | so does every interleaving |
| AsynThread.NothingTwice | curl-7.42.1/lib/asyn-thread.c:186-368 | at every moment: no access after the free, no early read, no second free, join or detach, no address list lost |
| AsynThread.EverythingOnce | curl-7.42.1/lib/asyn-thread.c:186-368 | when both threads have let go, the block was freed once, the thread joined or detached once, the list handed over or freed once |
| AsynThread.NeverStuck | curl-7.42.1/lib/asyn-thread.c:459-545 | no deadlock while a call is under way or the worker lives |
| AsynThread.CallsReturn | curl-7.42.1/lib/asyn-thread.c:459-545 | every call returns within a bounded number of steps |
| AsynThread.CancelFinishes | curl-7.42.1/lib/asyn-thread.c:143-146 | a cancel that has begun ends with both threads having let go |
| AsynThread.PollExactly | curl-7.42.1/lib/asyn-thread.c:495-545 | a poll that reads done set finishes the resolve, joins the thread, and hands the list over or releases it; any other leaves all as it was; once the worker is gone, every poll reads done set |
| AsynThread.WaitFinishes | curl-7.42.1/lib/asyn-thread.c:459-486 | when the waiting call returns, the resolve is finished and the list handed over or released |
| AsynThread.CancelGivesUp | curl-7.42.1/lib/asyn-thread.c:143-146 | when a cancel returns, the block is given up and nothing was handed over; with the worker gone, it is freed and the list released |
| Connect.EveryMatchIsCandidate | curl-7.42.1/lib/connect.c:562-577 | skipping the other family misses no address |
| Connect.LanesNeverMeet | curl-7.42.1/lib/connect.c:555-577 | attempts made by different lanes while both cursors are set are at different addresses |
| Connect.RoundAscends | curl-7.42.1/lib/connect.c:571-588 | the attempts of one round go forward in the list |
| Connect.HeldAfterSwap | curl-7.42.1/lib/connect.c:579-593 | opening the next socket before closing the failed one keeps the accounts |
| Connect.Connection.SingleIpConnect | curl-7.42.1/lib/connect.c:988-1127 | for each of the eight outcomes the exact result, and the new socket handed out or closed again |
| Connect.Connection.Search | curl-7.42.1/lib/connect.c:550-590 | the lane's remaining addresses are tried in order until one does not fail on the spot |
| Connect.Connection.TryNextIp | curl-7.42.1/lib/connect.c:539-595 | the failed socket is closed, the attempts and the lane go forward, in the lane's family once both cursors are set, and every attempt lies behind the cursor it started from; the other lane and the accounts stay |
| Connect.Connection.Adopt | curl-7.42.1/lib/connect.c:786-813 | the winner is adopted, the other pending socket is closed, both slots are empty |
| Connect.Connection.IsConnected | curl-7.42.1/lib/connect.c:718-858 | the first lane whose socket is connected wins, its socket is adopted and the other closed; without a winner, a lane in error gives up its socket for its next address, any other keeps its own, the timer starts the second lane, and a failure is reported exactly as the walks went; the accounts, cursors and families are kept |
| Connect.Connection.ConnectHost | curl-7.42.1/lib/connect.c:1135-1175 | addresses are tried from the first on until one attempt does not fail; the accounts hold but for sockets that were in the two slots |
| Connect.Connection.CloseAll | curl-7.42.1/lib/url.c:2646-2654 | freeing the connection closes every socket that is still open |
| Connect.BothLanes | curl-7.42.1/lib/connect.c:718-858 | over any number of polls with both lanes under way, no address is tried by both |
| Connect.WholeLife | curl-7.42.1/lib/connect.c:718-858 | over a whole life with two races and any answers, no socket is leaked or closed twice |
| ContentEncoding.CheckGzipHeader | curl-7.42.1/lib/content_encoding.c:195-274 | the pointer loops compute the verdict and the header length |
| ContentEncoding.VerdictIsStable | curl-7.42.1/lib/content_encoding.c:195-274 | once the check has answered OK or BAD, more input changes nothing |
| ContentEncoding.PrintedHeaderIsAccepted | curl-7.42.1/lib/content_encoding.c:195-274 | every member header is accepted with its own length, whatever follows |
| ContentEncoding.AcceptedHeaderIsPrinted | curl-7.42.1/lib/content_encoding.c:195-274 | what is accepted is a member header |
| ContentEncoding.CheckIsExact | curl-7.42.1/lib/content_encoding.c:195-274 | OK with length n exactly when the first n bytes are a member header |
| ContentEncoding.RejectionIsExact | curl-7.42.1/lib/content_encoding.c:195-274 | BAD exactly for ten bytes or more that no continuation completes to a stream with a header |
| ContentEncoding.KnownHeaders | curl-7.42.1/lib/content_encoding.c:195-274 | the shortest header, byte by byte, and one with every optional part |
| ContentEncoding.GzipDecoder.Write | curl-7.42.1/lib/content_encoding.c:278-424 | one call moves the decoder as specified, through every state, every failure and the end of the stream; with transparent zlib an empty chunk reaches it too |
| ContentEncoding.HeaderEndsInNewData | curl-7.42.1/lib/content_encoding.c:385-398 | the offset into the new data is positive and inside it |
| ContentEncoding.FeedExtends | curl-7.42.1/lib/content_encoding.c:330-424 | after any chunks the decoder is where the bytes seen so far put it |
| ContentEncoding.ChunksDoNotMatter | curl-7.42.1/lib/content_encoding.c:330-424 | for every cut of the stream: zlib gets the bytes after the header; rejected is exactly a stream of ten bytes or more that cannot begin with a header; otherwise the decoder waits |
| ContentEncoding.EveryHeaderIsStripped | curl-7.42.1/lib/content_encoding.c:330-424 | of a member, zlib gets the body and nothing else |
| ContentEncoding.TransparentPassesAll | curl-7.42.1/lib/content_encoding.c:305-312 | a zlib that parses the header itself gets every byte |
| ContentEncoding.ZlibDecides | curl-7.42.1/lib/content_encoding.c:84-160 | while data is inflated, a failure of zlib is the result, and its failure or the end of the stream makes the decoder start afresh |
| ContentEncoding.HeaderNeedsMemory | curl-7.42.1/lib/content_encoding.c:286-372 | without zlib or without memory for an unfinished header the call fails and nothing is inflated |
| DotDot.MoveSegment | curl-7.42.1/lib/dotdot.c:143-154 | the copy loop moves one segment |
| DotDot.RemoveLast | curl-7.42.1/lib/dotdot.c:115-133 | the backward loop drops the last segment with its slash |
| DotDot.ApplyRule | curl-7.42.1/lib/dotdot.c:80-156 | one round of the loop is one rule, and never writes more than it consumed |
| DotDot.Dedotdotify | curl-7.42.1/lib/dotdot.c:50-170 | the in-place rewriting computes the path without dot segments and the query, inside the buffer; the output is terminated unless the path vanishes and there is no query |
| DotDot.RemoveIsFold | curl-7.42.1/lib/dotdot.c:80-156 | the rules are a fold of the segments over a stack |
| DotDot.RemoveIsRooted | curl-7.42.1/lib/dotdot.c:80-156 | a relative path, its leading dot segments dropped, is treated as the path with a slash in front, except for that slash |
| DotDot.VanishesExactly | curl-7.42.1/lib/dotdot.c:74-156 | the path part of the output is empty exactly for "", "." and "..", alone or behind any number of "./" and "../" |
| DotDot.NoDotSegmentIsLeft | curl-7.42.1/lib/dotdot.c:80-156 | for every path, the result is empty or the joined fold of the segments, perhaps without its leading slash, and has no dot segment |
| DotDot.SplitJoin | curl-7.42.1/lib/dotdot.c:80-156 | splitting a joined stack gives it back |
| DotDot.RemoveIsIdempotent | curl-7.42.1/lib/dotdot.c:80-156 | a second removal changes nothing, for every path |
| DotDot.RemoveFits | curl-7.42.1/lib/dotdot.c:52-58 | output written never exceeds input consumed |
| DotDot.DedotKeepsTheQuery | curl-7.42.1/lib/dotdot.c:76-166 | everything from the first '?' is kept verbatim, the result fits, and a second call changes nothing |
| ConnCache.Bundle.AddConn | curl-7.42.1/lib/bundles.c:81-91 | the connection is appended, counted and points back; on failure nothing changes |
| ConnCache.Bundle.RemoveConn | curl-7.42.1/lib/bundles.c:94-110 | the first occurrence leaves the list, the count and the back pointer |
| ConnCache.Cache.FindBundle | curl-7.42.1/lib/conncache.c:76-87 | the bundle of the host, or proof that there is none |
| ConnCache.Cache.RemoveBundle | curl-7.42.1/lib/conncache.c:100-122 | the search by pointer drops exactly that element |
| ConnCache.Cache.CreateBundle | curl-7.42.1/lib/conncache.c:133-149 | a new empty bundle under its key, or an unchanged cache |
| ConnCache.Cache.AddToNew | curl-7.42.1/lib/conncache.c:133-157 | when the last allocation fails, the new bundle is taken back and the cache is as before |
| ConnCache.Cache.AddConn | curl-7.42.1/lib/conncache.c:124-162 | all invariants kept; success appends to the host's list with a fresh id, in a new bundle if the host has none; failure leaves everything unchanged |
| ConnCache.Cache.RemoveConn | curl-7.42.1/lib/conncache.c:164-185 | all invariants kept; the last connection takes its bundle with it, the back pointer is cleared; nothing happens without a bundle |
| ConnCache.Cache.CountsAgree | curl-7.42.1/lib/conncache.c:124-185 | the cache count is the sum of the bundle counts and of the list lengths, and no connection is listed twice |
| ConnCache.Cache.VisitBundle | curl-7.42.1/lib/conncache.c:212-221 | the inner loop visits the whole list although visited connections, and in the end the bundle, may go |
| ConnCache.Cache.ForEach | curl-7.42.1/lib/conncache.c:193-224 | every connection present at the start is visited exactly once, up to one that stops the loop; exactly the chosen ones are gone and point nowhere |
| ConnCache.StruckAreTheRemoved | curl-7.42.1/lib/conncache.c:193-224 | the members after the loop are those before without the visited ones the callback removes |
| ConnCache.Cache.FindFirst | curl-7.42.1/lib/conncache.c:226-251 | the head of the first list that is not empty |
| ConnCache.Cache.FoundIsFirst | curl-7.42.1/lib/conncache.c:226-251 | a consistent cache has no empty list, so it is found at once, and none is found only when the cache is empty |
| ConnCache.Cache.CloseAll | curl-7.42.1/lib/multi.c:1832-1848 | find-first and remove, repeated, closes every connection once, in iteration order, clears every back pointer and leaves an empty cache |
| ConnCache.Cache.Apply | curl-7.42.1/lib/conncache.c:124-251 | one call of any kind keeps a consistent cache consistent, for all connections that could ever be in it; an add, a removal or a close changes the hosts' lists as it should |
| ConnCache.Session | curl-7.42.1/lib/conncache.c:124-251 | after any sequence of adds, removals, visits and closes, with any failing allocations: a connection points to a bundle exactly if it is on its list, a pointer leads to a bundle of the cache, all counts agree, no connection is listed twice; without visits, the lists are those of the calls |
| FnMatch.SkipStars | curl-7.42.1/lib/curl_fnmatch.c:321-325 | consecutive stars count as one |
| FnMatch.RoundStar | curl-7.42.1/lib/curl_fnmatch.c:320-337 | a star round answers or goes on with what is left to decide |
| FnMatch.Loop | curl-7.42.1/lib/curl_fnmatch.c:309-411 | recursion and loop terminate with the specified answer |
| FnMatch.FnMatch | curl-7.42.1/lib/curl_fnmatch.c:416-424 | MATCH exactly when the relation holds, FAIL exactly when the matcher gets stuck; a missing argument fails |
| FnMatch.MatchCuts | curl-7.42.1/lib/curl_fnmatch.c:309-411 | a match cuts the string into one fitting piece for each token |
| FnMatch.CutMatches | curl-7.42.1/lib/curl_fnmatch.c:309-411 | a string that can be cut so matches, however the star is backtracked |
| FnMatch.OutcomeIsMatches | curl-7.42.1/lib/curl_fnmatch.c:309-411 | MATCH exactly when the declarative relation holds |
| FnMatch.StarNeverFails | curl-7.42.1/lib/curl_fnmatch.c:320-332 | from a star on, the answer is MATCH or NOMATCH |
| FnMatch.FailHasACause | curl-7.42.1/lib/curl_fnmatch.c:309-411 | FAIL exactly when, before the first star, a matching front is followed by a malformed escape or a '?' that meets an unprintable character |
| Base64.FindValue | curl-7.42.1/lib/base64.c:59-70 | the search of the table finds the value, or proves there is none |
| Base64.DecodeQuantum | curl-7.42.1/lib/base64.c:45-84 | the bytes of the quantum, 0 exactly for a character outside the alphabet, nothing else touched before |
| Base64.MeasurePadding | curl-7.42.1/lib/base64.c:118-133 | the test accepts exactly padding at the end, of at most two characters |
| Base64.Decode | curl-7.42.1/lib/base64.c:100-169 | the exact accepted texts, the exact error of the others, and a buffer whose bytes are all written |
| Base64.Encode | curl-7.42.1/lib/base64.c:171-260 | the text and its terminator within insize * 4 / 3 + 4 characters |
| Base64.GroupRoundTrip | curl-7.42.1/lib/base64.c:213-247 | one to three bytes survive |
| Base64.EncodedIsWellFormed | curl-7.42.1/lib/base64.c:213-247 | the encoder's text is accepted, with one pad character for each missing byte |
| Base64.DecodedSize | curl-7.42.1/lib/base64.c:135-140 | the bytes written are rawlen |
| Base64.DecodeOfEncode | curl-7.42.1/lib/base64.c:100-260 | decoding the encoding of any nonempty byte string gives it back |
| Base64.EncodeOfDecode | curl-7.42.1/lib/base64.c:100-260 | encoding the decoding of any accepted text gives it back, with the unused low bits of its last sextet cleared |
| Base64.BufferSuffices | curl-7.42.1/lib/base64.c:193-195 | the buffer covers text and terminator, with nothing to spare exactly when size mod 3 is 1 |
| Base64.UrlEncodingIs | curl-7.42.1/lib/base64.c:37-43 | the base64url text is the base64 text with '-' for '+' and '_' for '/' |
| Base64.KnownVectors | curl-7.42.1/lib/base64.c:37-43 | the test vectors "f", "fo", "foo" of RFC 4648, both ways, and the last two symbols |
| Escape.EscapeNext | curl-7.42.1/lib/escape.c:98-126 | one doubling makes room for a byte and its terminator |
| Escape.EasyEscape | curl-7.42.1/lib/escape.c:79-131 | the encoding, terminated inside the buffer; it fails exactly when fewer reallocations succeed than are needed, never more than two |
| Escape.UrlDecode | curl-7.42.1/lib/escape.c:143-202 | the decoded bytes within the buffer, or the exact error |
| Escape.EscapedAlphabet | curl-7.42.1/lib/escape.c:98-126 | the encoding consists of unreserved characters and percent signs and holds no zero byte |
| Escape.DecodeOfEscape | curl-7.42.1/lib/escape.c:79-202 | every byte string comes back; with control rejection exactly those without control characters |
| Escape.RejectionIsAFilter | curl-7.42.1/lib/escape.c:188-191 | rejection refuses exactly the texts that decode to a control character and changes no other |
| Escape.CaseIsIrrelevant | curl-7.42.1/lib/escape.c:160-173 | the digits of a triplet mean the same in upper and lower case |
| Escape.KnownTriplets | curl-7.42.1/lib/escape.c:160-173 | "%2F" and "%2f" are a slash, which is printed with an upper-case digit |
| Escape.UnreservedAre | curl-7.42.1/lib/escape.c:44-65 | digits, letters and "-._~" pass unchanged, and nothing else does |
| NtlmMsgs.SplitName | curl-7.42.1/lib/curl_ntlm_msgs.c:510-523 | domain and user at the first backslash, else at the first slash, else no domain |
| NtlmMsgs.UnicodeCpy | curl-7.42.1/lib/curl_ntlm_msgs.c:316-323 | every character followed by a zero byte |
| NtlmMsgs.PutHeader | curl-7.42.1/lib/curl_ntlm_msgs.c:635-733 | the 64 bytes of the header describe the five fields one behind the other |
| NtlmMsgs.MayCopyMeans | curl-7.42.1/lib/curl_ntlm_msgs.c:750-754 | the unsigned test keeps out exactly the responses of 936 to 1024 bytes |
| NtlmMsgs.Assemble | curl-7.42.1/lib/curl_ntlm_msgs.c:635-801 | the message in the fixed buffer, or the exact reason why there is none |
| NtlmMsgs.CreateType3 | curl-7.42.1/lib/curl_ntlm_msgs.c:635-810 | the base64 text of that message |
| NtlmMsgs.EntryReads | curl-7.42.1/lib/curl_endian.c:40-63 | the little-endian readers find the length and the offset of each field in the header |
| NtlmMsgs.FieldReadsBack | curl-7.42.1/lib/curl_ntlm_msgs.c:635-801 | a message with all fields copied gives each of them back |
| NtlmMsgs.LeftOutIsLost | curl-7.42.1/lib/curl_ntlm_msgs.c:750-754 | a response that was left out cannot be read: its buffer points behind the message |
| NtlmMsgs.FirstLeftOut | curl-7.42.1/lib/curl_ntlm_core.c:684-684 | 888 bytes of target info make a response of 936 bytes, whose message lacks a field it describes |
| NtlmMsgs.FirstOutOfBounds | curl-7.42.1/lib/curl_ntlm_msgs.c:750-754 | 977 bytes of target info make a response of 1025 bytes, which passes the test and does not fit |
| NtlmMsgs.ReadBackIffShort | curl-7.42.1/lib/curl_ntlm_msgs.c:635-801 | through base64 and back, all fields are read and cover bytes 64 to the end exactly when the response is shorter than 936 bytes |
| NtlmMsgs.NameReadsBack | curl-7.42.1/lib/curl_ntlm_msgs.c:778-801 | names come back in OEM and in Unicode form |
| NtlmMsgs.FlagsReadBack | curl-7.42.1/lib/curl_ntlm_msgs.c:733-733 | the flags come back |
| NtlmMsgs.HeaderReadsBack | curl-7.42.1/lib/curl_ntlm_msgs.c:651-733 | signature, type 3, the lengths of the five fields at their places, each twice, and the unused buffer |
| PkgConfig.Requires | pjproject-2.4/pkgconfig.py:59-70 | the names before the first comparison operator, items without one left out |
| PkgConfig.ItemNamesPackage | pjproject-2.4/pkgconfig.py:64-69 | an item names its package whatever the spaces around name and operator |
| PkgConfig.ListNamesPackages | pjproject-2.4/pkgconfig.py:59-70 | of a written list, the items with a version are read back in order, and the others left out |
| PkgConfig.UnversionedNamesNone | pjproject-2.4/pkgconfig.py:64-69 | an item without a comparison operator names no package |
| PkgConfig.OperatorsAre | pjproject-2.4/pkgconfig.py:66-68 | each of '=', '<' and '>' sets a version off |
| PkgConfig.CalculatePriority | pjproject-2.4/pkgconfig.py:83-94 | the recursion ends on every graph; the warning is printed exactly if a chain of eleven packages is in reach |
| PkgConfig.Prioritize | pjproject-2.4/pkgconfig.py:133-136 | every package gets its weight; no warning exactly if no chain has eleven packages |
| PkgConfig.LevelIsIrrelevant | pjproject-2.4/pkgconfig.py:83-94 | where nothing is cut off, the level does not change the weight |
| PkgConfig.HeavierThanRequirement | pjproject-2.4/pkgconfig.py:83-94 | a package outweighs each requirement if no chain of eleven packages starts at it |
| PkgConfig.OrderIsTopological | pjproject-2.4/pkgconfig.py:133-139 | without a warning, every permutation by descending weight puts each package before all it requires, directly or not |
| PkgConfig.ShortChainsExactly | pjproject-2.4/pkgconfig.py:83-86 | no warning is printed exactly if no chain has more than ten packages |
| PkgConfig.TenInARowAreOrdered | pjproject-2.4/pkgconfig.py:133-139 | if no chain has more than ten packages, every package stands before what it requires |
| PkgConfig.CycleIsReported | pjproject-2.4/pkgconfig.py:83-86 | a package that requires itself, directly or not, is always reported |
| PkgConfig.WeightIsChains | pjproject-2.4/pkgconfig.py:83-94 | the weight is the number of chains that start at the package and have at most as many packages as the depth allows, ten at level 1 |
| PkgConfig.ChainsReach | pjproject-2.4/pkgconfig.py:83-94 | a chain exists exactly when the count is positive |
| PkgConfig.OutweighsExactly | pjproject-2.4/pkgconfig.py:83-94 | on every graph: a package outweighs a requirement exactly if the chains of ten packages from the requirement do not outnumber the shorter chains from its other requirements |
| PkgConfig.SortedIsSorted | pjproject-2.4/pkgconfig.py:139-139 | the sort gives a permutation by descending priority |
| PkgConfig.SortedOrder | pjproject-2.4/pkgconfig.py:139-139 | the heavier package stands first; packages of the same weight keep the order of the command line |
| PkgConfig.RequirementFollowsExactly | pjproject-2.4/pkgconfig.py:133-139 | exactly when the sort puts a package before one that it requires, on every graph and every command line |
| PkgConfig.RequirementAlwaysFollowsExactly | pjproject-2.4/pkgconfig.py:133-139 | exactly when every permutation by descending priority does |
| PkgConfig.TopologicalExactly | pjproject-2.4/pkgconfig.py:133-139 | exactly when the whole order is topological |
| PkgConfig.LinearIsExact | pjproject-2.4/pkgconfig.py:83-94 | a special case: where every package requires at most one other, it outweighs it exactly if no chain of eleven packages starts at it |
| PkgConfig.ElevenInARow | pjproject-2.4/pkgconfig.py:133-139 | eleven packages in a row, named from its end: the sort puts a package before the one that requires it |

## Left out

- Allocation, cryptography, sockets, GSS-API, SSPI and zlib: they are parameters, arbitrary answers or byte sinks.
- SASL creators: what the messages contain; only which one is asked for, and whether it succeeds with a token.
- SASL settings: allowed and preferred mechanisms and credentials do not change during a run, and logging is not modelled.
- SASL URL options (curl_sasl.c lines 1238-1352): parsing lists of mechanism names.
- AsynThread.NothingTwice: starts after the thread exists; the handle read at line 353 is part of the locked step before it, and polling intervals and timeouts only decide when a call is made.
- Connect.BothLanes: does not say that no address is tried twice by one lane, because attempts that fail on the spot do not move its cursor.
- Connect.Connection.SingleIpConnect: socket options, interface binding and TCP fast open only show as one of eight outcomes.
- Connect.Connection.IsConnected: the clock is an input; that a lane is slow or late is a fact of the poll, and the two time-outs behind it are not modelled.
- The race knows two address families; addresses of a third would be skipped in both lanes.
- ContentEncoding.GzipDecoder.Write: lengths are natural numbers, so the widths of ssize_t and uInt do not appear; deflate streams and the raw inflate retry are not modelled.
- ContentEncoding.ChunksDoNotMatter: speaks of streams whose end zlib has not reported; after that the decoder starts afresh with the next chunk, and what is left of the current one is dropped.
- DotDot.Dedotdotify: needs a nonempty path part, because the copy loop of the source steps over the terminator of an empty one. When the path vanishes and there is no query, as for "." (`DotVanishes`), which url.c passes on for "file:.", the source writes nothing, and no terminator is promised.
- DotDot.RemoveIsFold: for paths that start with a slash; `RemoveIsRooted` brings the other paths back to those.
- ConnCache.Cache.AddConn: assumes that the cache passed in is the session's own, that a connection is added only while in no bundle, and that its host name stays fixed.
- ConnCache.Cache.RemoveConn: the connection was once added to this cache or is in no bundle; one in a bundle of another cache is not modelled. Session shows that calls on one cache need no such condition.
- ConnCache.Session: says of a visit only what it keeps; which connections it removes is stated by ForEach.
- ConnCache.Cache.ForEach: the callback may remove the connection it is given and no other, and adds none.
- FnMatch.Loop: patterns with '[' are not modelled, and characters are those of the C locale.
- FnMatch.FnMatch: for patterns without '[', as FnMatch.Loop.
- FnMatch.SkipStars: for patterns without '[', as FnMatch.Loop.
- FnMatch.RoundStar: for patterns without '[', as FnMatch.Loop.
- FnMatch.StarNeverFails: for patterns without '[', as FnMatch.Loop.
- FnMatch.MatchCuts: for patterns without '[', as FnMatch.Loop.
- FnMatch.CutMatches: for patterns without '[', as FnMatch.Loop.
- FnMatch.OutcomeIsMatches: for patterns without '[', as FnMatch.Loop.
- FnMatch.FailHasACause: for patterns without '[', as FnMatch.Loop.
- Escape.EasyEscape: a negative length, which escape.c casts to size_t at line 81, is not modelled.
- Base64.Encode: the multiplication in the buffer size is not bounded by size_t; conversion to the network character set is the identity.
- NtlmMsgs.CreateType3: the LM and NT responses are inputs, and the type-2 message is not parsed.
- PkgConfig.Sorted: stands for Python's built-in stable sort; reading .pc files, expansion of variables and filtering of options are not modelled.
