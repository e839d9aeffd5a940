# Models and proofs for the Telegram file system and its vendored curl

The repository is a FUSE file system that keeps its files as documents in a Telegram chat, together with the
copy of curl 8.13.0 it talks through. This project models the parts of both whose behaviour spans several
functions, and proves what they are meant to keep:

- **Byte queues** (`BufqChunk`, `BufqCallbacks`, `BufQueue`, `BufqSharing`). A FIFO of bytes in linked chunks,
  with spare chunks, a pool shared by any number of queues, hard and soft limits and arbitrary reader and
  writer callbacks. Each operation is proved against the plain sequence of bytes the queue holds; the runs of
  any number of queues on one pool are proved to be runs of independent sequences.
- **Glob matching** (`FnmatchSet`, `Fnmatch`). The backtracking matcher decides a declaratively defined
  language, up to its limit of two star groups, in a quadratic number of invocations.
- **Cookie jar** (`CookieDomain`, `CookieJar`, `CookieSort`, `CookieMatch`, `Cookies`, `CookieRuns`,
  `CookieFile`). The bucket of a host against a scan of the whole jar, the cached expiry bound, unique
  identities and creation times over every run, the order of a request, and the file format as a round trip.
- **Connection pool and shutdown list** (`PoolBundles`, `ConnectionPool`, `ConnectionRuns`). Bundles by
  destination, eviction of the connection unused for longest, and both connection limits over every run.
- **Arithmetic and coding** (`Filetime`, `Base64`, `Base64Bits`). The byte-wise 32-bit multiplication equals the
  64-bit expression; decoding inverts encoding, each symbol stands for its six bits, and what is accepted and what
  survives re-encoding is described exactly.
- **Resolver thread** (`Resolver`). A state machine of two threads and a mutex: teardown happens exactly once,
  nothing touches the shared record afterwards, and what was found is taken or freed as the call asks for.
- **CONNECT response** (`StrParse`, `ConnectSpec`, `ConnectBody`, `ConnectReader`, `ConnectLeftOver`). Reading
  byte by byte, with reads that may block anywhere, is reading line by line, and it takes exactly the response and
  no byte more.
- **The file system itself** (`TgBuffer`, `TgStorage`, `FileSystem`, `Hello`, `HelloRuns`). A growable buffer
  and a swap-remove table over a remote store refine a map from paths to bytes and leave nothing behind in it.

Conventions. Objects the source updates in place are classes whose methods are proved against functions of
the old state; the lemmas about these functions are where the properties of whole runs come from. Where an
object is `plenty`, memory never runs out for it; elsewhere an allocation may fail at any time. Callbacks answer
from scripts, so that a statement about every script is one about every behaviour, and note their last answer in
ghost fields. Whether a connection's shutdown is over at once, and whether the event callback refuses it, are
constants of the connection. `Curl_host_is_ipnum` is a parameter that does not look at the case of letters; clocks
are functions of the number of the reading. Statements such as `hide F;` only keep proofs short.

What the proofs brought to light:

- A set with several character classes asks only the first of them, in the order of the code. It is the union
  of all it lists if and only if every character of its classes is in that first class or listed by itself
  (`UnionExact`); where no character is listed, if and only if the first class contains the others
  (`UnionOnlyIfCovered`). The pattern `[[:alpha:][:digit:]]` does not match `5` (`AlphaDigitNoMatch`). The class
  `[:space:]` tests for blanks only: it misses exactly LF, VT, FF and CR (`SpaceIsBlank`).
- Of the cookies that pass the host test, the ones that hash the same bytes as the host are exactly those of
  `Reachable` (`ReachableExact`). A cookie whose domain has no dot but matches tails is not one of them
  (`DotlessOutOfReach`); a cookie without any domain is one for IP numbers only.
- Creation times are taken from a 32-bit counter. Adding keeps them apart if and only if it replaces a cookie,
  whose time it takes over, or the counter's next value is not in use (`InsertStamps`), which holds until it
  wraps around; then two cookies can get the same time (`StampsMeetAgain`). Between equal lengths `cookie_sort`
  puts the later creation time first.
- A line of a cookie file restores a cookie if and only if `Writable` holds: it has a domain that does not start
  with a dot, and not with a hash sign unless it matches tails, a path that is not a beginning of `TRUE` or
  `FALSE`, the empty path included, and no negative expiry time.
- Cancelling a resolve while the thread runs detaches the thread and keeps the handle's value. A later
  `Curl_resolver_kill` without `quick_exit` would join that thread, which C leaves undefined (`CancelGivesUp`).
  A run comes to this if and only if such a kill follows a step that detached the thread (`BadJoinMeans`); a
  caller can tell before the call: the record has a handle and is not in use (`KillNeedsHandle`). Every other
  property of the resolver holds for all runs up to there.
- `Curl_bufq_read` for zero bytes reports `CURLE_AGAIN` on a queue that holds bytes. Where no chunk can be had,
  `Curl_bufq_sipn` tells running out of memory from a full queue by the chunk count alone: under a soft limit
  that is reached it reports `CURLE_AGAIN` also when memory has run out (`Sipn`).
- Re-entering the initial tunnel state resets neither the count of header lines nor the chunked flag
  (`GoState`). A flag left over makes a difference if and only if the next response is a 407 whose body is to be
  dropped and that has neither a length nor a chunked body of its own (`LeftOverChunked`): such a response does
  not end with its header block. `LeftOverRun` is a run with such a response.
- `Curl_compareheader` is described as finding its content anywhere in a header's value. Its loop makes one turn
  only (`CompareLine`), so it agrees with that if and only if the content stands at the start or nowhere
  (`CompareheaderExact`): `Transfer-Encoding: gzip, chunked` is not taken as chunked (`GzipChunkedMissed`).
- `replace_existing` looks for the second slash of the path of an existing secure cookie from one byte behind its
  start. The sanitized path of `/` is the empty string (`SanitizedEmpty`), and for that the search starts behind
  the terminating NUL: an out-of-bounds read. What lies there decides whether a cookie from an insecure origin is
  refused, exactly under the condition of `OverlaysDepends`; `OutOfBoundsDecides` is an instance.
- A non-secure cookie may not overlay a secure one. The comment on the rule calls a path `/loginhelper` fine
  beside an existing `/login`; the code compares prefixes only and refuses it (`LoginHelperRefused`). It follows its
  description if and only if the new path does not go on behind the prefix with another byte than a slash
  (`OverlaysExact`).
- The limits on connections hold while connections are closed that were never added to the pool, as long as each
  of these is aborted, in use or connect-only, or there is room for it. That condition is exact
  (`UnpooledExact`), and without it either limit can break (`UnpooledBreaks`).
- A write to a path without a record leaves a record with a size and, in the chat, a document that belongs to no
  record (`Hello.Fs.Write`, `StrayLeft`); a file
  whose stored document is empty reads as `ENOENT`, one never written as 0 bytes (`Hello.Fs.Read`).

## Model

| member | source | states |
|---|---|---|
| BufqChunk.Chunk.Append | curl-8.13.0/lib/bufq.c:54-66 | takes as much as fits behind the written end; the unread bytes grow by just that |
| BufqChunk.Chunk.Read | curl-8.13.0/lib/bufq.c:68-87 | takes the oldest min(len, unread) bytes; an emptied chunk starts over |
| BufqChunk.Chunk.Unwrite | curl-8.13.0/lib/bufq.c:89-104 | drops the newest min(len, unread) bytes |
| BufqChunk.Chunk.Skip | curl-8.13.0/lib/bufq.c:146-157 | drops the oldest min(amount, unread) bytes |
| BufqChunk.BufcPool.Take | curl-8.13.0/lib/bufq.c:181-203 | hands out a reset chunk that is in no list, the first of the pool or a new one; none only if memory can run out; the pool's count stays the length of its list |
| BufqChunk.BufcPool.Put | curl-8.13.0/lib/bufq.c:205-217 | keeps the chunk or lets it go, so that the spare count never exceeds its maximum |
| BufQueue.Bufq.PruneHead | curl-8.13.0/lib/bufq.c:332-358 | empty chunks leave the head for the pool, the spares or for good; afterwards the first chunk has unread bytes; the bytes are unchanged |
| BufQueue.Bufq.PruneTail | curl-8.13.0/lib/bufq.c:373-401 | the same at the tail, what is left being a prefix of the list |
| BufQueue.Bufq.Recycle | curl-8.13.0/lib/bufq.c:341-356 | an emptied chunk goes to the pool; without one it becomes a spare if and only if there are no more chunks than the maximum and spares are kept, and is uncounted otherwise |
| BufQueue.Bufq.ChunkPrev | curl-8.13.0/lib/bufq.c:360-371 | finds the chunk before the last one, none if it is the only one |
| BufQueue.Bufq.GetSpare | curl-8.13.0/lib/bufq.c:302-330 | the first spare, else a new counted chunk, reset and in no list; under a hard limit never beyond it; none only at that limit or out of memory, and then nothing changed |
| BufQueue.Bufq.GetNonFullTail | curl-8.13.0/lib/bufq.c:403-422 | gives a tail with room and keeps the bytes; none if and only if, memory apart, the queue has no room |
| BufQueue.Bufq.Write | curl-8.13.0/lib/bufq.c:424-466 | appends a prefix of its input: min(len, room) bytes under a hard limit, all under a soft one; AGAIN exactly when a nonempty input finds no room |
| BufQueue.Bufq.Read | curl-8.13.0/lib/bufq.c:477-508 | returns and drops exactly the first min(len, size) bytes, AGAIN when there are none |
| BufQueue.Bufq.Peek | curl-8.13.0/lib/bufq.c:510-523 | succeeds exactly when the queue holds bytes, with all that its first chunk holds |
| BufQueue.Bufq.PeekAt | curl-8.13.0/lib/bufq.c:525-546 | succeeds exactly when the offset is below the size, with the bytes from there to the end of their chunk |
| BufQueue.Bufq.Skip | curl-8.13.0/lib/bufq.c:548-557 | drops exactly the first min(amount, size) bytes |
| BufQueue.Bufq.Unwrite | curl-8.13.0/lib/bufq.c:468-475 | drops the last min(len, size) bytes |
| BufQueue.Bufq.Len | curl-8.13.0/lib/bufq.c:274-283 | counts the bytes in the queue |
| BufQueue.Bufq.IsEmptyMeaning | curl-8.13.0/lib/bufq.c:285-288 | looking at the first chunk only tells whether the whole queue is empty |
| BufQueue.Bufq.IsFullMeaning | curl-8.13.0/lib/bufq.c:290-300 | under a hard limit the queue calls itself full exactly when there is room for no byte |
| BufQueue.Bufq.CapacityBound | curl-8.13.0/lib/bufq.h:72-78 | under a hard limit bytes and room together stay within max_chunks chunks |
| BufQueue.Bufq.Pass | curl-8.13.0/lib/bufq.c:559-589 | what the writer took, followed by what is left, is what was there; it stops only when the queue is empty or the writer refuses all of the first chunk; -1 if and only if it refuses when nothing was taken or fails with another code than AGAIN, with that code (AGAIN for a 0) |
| BufQueue.Bufq.WritePass | curl-8.13.0/lib/bufq.c:591-639 | what the writer took, followed by the queue, grows by exactly the accepted prefix of the input, by nothing on AGAIN; less than all is accepted only with the queue full and the writer's last answer a refusal; the writer is not asked if the input fits; another error is the writer's own |
| BufQueue.Bufq.Sipn | curl-8.13.0/lib/bufq.c:642-670 | at most one call of the reader, for as many bytes as the tail has room for and max_len allows; appends exactly what it delivered; without a call, AGAIN if and only if the chunk limit is reached, under a hard limit if and only if there is no room |
| BufQueue.Bufq.Slurpn | curl-8.13.0/lib/bufq.c:681-717 | appends exactly what the reader delivered, in order, on errors too; memory apart, it stops only when max_len is reached, the last call gave fewer bytes than asked for, or the queue has no room; -1 if and only if nothing could be asked for, or the last answer is an error and nothing was read or its code is not AGAIN; under a hard limit at most 1 + max_chunks - chunks calls |
| BufQueue.Bufq.Reset | curl-8.13.0/lib/bufq.c:262-272 | empties the queue and keeps every chunk as a spare |
| BufqSharing.Step | curl-8.13.0/lib/bufq.h:46-58 | an operation on one of many queues of a pool keeps all lists disjoint and every other queue's bytes |
| BufqSharing.Run | curl-8.13.0/lib/bufq.c:262-717 | any calls on any queues of a pool are a run of independent byte sequences |
| BufqSharing.Fifo | curl-8.13.0/lib/bufq.c:262-717 | over any such run, what was taken from a queue followed by what is left is what was there followed by what was added |
| FnmatchSet.ParseKeyword | curl-8.13.0/lib/curl_fnmatch.c:74-128 | recognises exactly the ten class names before `:]` and marks just that class; never reads past the NUL |
| FnmatchSet.SetCharOrRange | curl-8.13.0/lib/curl_fnmatch.c:143-162 | marks the one character, or those of its class up to the end of the range |
| FnmatchSet.SetCharset | curl-8.13.0/lib/curl_fnmatch.c:165-255 | fills the array with exactly the marks of the set and stops at its closing bracket; fails exactly when the set does not close |
| FnmatchSet.Test | curl-8.13.0/lib/curl_fnmatch.c:303-340 | the chain of tests decides membership in the set |
| FnmatchSet.PlainSetAccepts | curl-8.13.0/lib/curl_fnmatch.c:165-255 | a set of plain characters accepts exactly the ones listed |
| FnmatchSet.NegatedSetAccepts | curl-8.13.0/lib/curl_fnmatch.c:165-255 | a negated set accepts exactly the others |
| FnmatchSet.RangeSetAccepts | curl-8.13.0/lib/curl_fnmatch.c:143-162 | a range within one class accepts exactly the characters between its ends |
| FnmatchSet.MixedRangeAccepts | curl-8.13.0/lib/curl_fnmatch.c:143-162 | a dash between characters of two classes, or in the wrong order, stands for itself, as do both of these |
| FnmatchSet.EscapedRangeAccepts | curl-8.13.0/lib/curl_fnmatch.c:143-162 | either end of a range may be escaped |
| FnmatchSet.EscapedAccepts | curl-8.13.0/lib/curl_fnmatch.c:211-218 | an escaped character is one of the set, whatever it is |
| FnmatchSet.BracketFirst | curl-8.13.0/lib/curl_fnmatch.c:179-246 | a closing bracket in the first place is a character of the set, and the next one closes it; an unprintable character behind it makes the set fail |
| FnmatchSet.BothBrackets | curl-8.13.0/lib/curl_fnmatch.c:176-254 | a set that begins with the closing and the opening bracket has both |
| FnmatchSet.LaterSigns | curl-8.13.0/lib/curl_fnmatch.c:187-210 | behind the first character the signs of negation and a bracket that opens no class are characters of the set |
| FnmatchSet.NegatedSign | curl-8.13.0/lib/curl_fnmatch.c:198-210 | behind a sign of negation another one is a character |
| FnmatchSet.UnionIfCovered | curl-8.13.0/lib/curl_fnmatch.c:306-333 | a set is the union of what it lists if its first class contains the other classes |
| FnmatchSet.UnionOnlyIfCovered | curl-8.13.0/lib/curl_fnmatch.c:306-333 | a set of classes is their union if and only if its first class contains the others |
| FnmatchSet.UnionExact | curl-8.13.0/lib/curl_fnmatch.c:306-333 | any set is the union of what it lists if and only if each character of its classes is in the first class or listed by itself |
| FnmatchSet.SpaceIsBlank | curl-8.13.0/lib/curl_fnmatch.c:321-322 | the class space differs from white space exactly for the characters 10 to 13 |
| FnmatchSet.AlphaDigitTurnsDownFive | curl-8.13.0/lib/curl_fnmatch.c:165-338 | the text `[[:alpha:][:digit:]]` is read as a set of these two classes, and that set turns down a digit |
| Fnmatch.AlphaDigitNoMatch | curl-8.13.0/lib/curl_fnmatch.c:257-350 | so the pattern does not match the string `5` |
| Fnmatch.NamedClasses | curl-8.13.0/lib/curl_fnmatch.c:104-336 | for each of the ten names, the pattern of its class matches a string of one character exactly for the byte ranges of that class |
| Fnmatch.Loop | curl-8.13.0/lib/curl_fnmatch.c:257-350 | matches if and only if the string is in the language of the pattern and the pattern has at most k star groups; bounds the invocations |
| Fnmatch.StarGroup | curl-8.13.0/lib/curl_fnmatch.c:268-288 | the same where the pattern starts with a star: question marks merge into the star, then every suffix is tried |
| Fnmatch.CurlFnmatch | curl-8.13.0/lib/curl_fnmatch.c:355-364 | with two star groups allowed, at most 1 + n + n*n invocations; fails exactly without a pattern or a string |
| CookieDomain.CookieHashDomain | curl-8.13.0/lib/cookie.c:246-258 | the loop computes the bucket of the upper-cased domain in wrapping arithmetic |
| StrParse.CiEqMeans | curl-8.13.0/lib/strequal.c:37-51 | strings are equal without case if and only if each byte is the same or a letter of the other case |
| CookieDomain.SameDomainSameBucket | curl-8.13.0/lib/cookie.c:246-277 | domains equal up to case share a bucket |
| CookieDomain.TailMatchSameTop | curl-8.13.0/lib/cookie.c:129-236 | a host that matches a domain's tail has the same last two labels, up to case, if and only if the domain has a dot or is the whole host |
| CookieDomain.DotlessOtherBucket | curl-8.13.0/lib/cookie.c:217-277 | a host and a dotless domain it matches that lie in different buckets, 51 and 39 |
| CookieJar.NoTwinsAnywhere | curl-8.13.0/lib/cookie.c:938-1040 | in a sound jar no two entries, in one bucket or in two, have the same identity |
| CookieJar.SameIdIsKey | curl-8.13.0/lib/cookie.c:990-1009 | two cookies are the same if and only if name, capitalised domain with its flag, and capitalised path agree |
| CookieJar.EarlyExitSound | curl-8.13.0/lib/cookie.c:364-382 | when the early exit is taken, a full scan would change nothing |
| CookieJar.InsertMembers | curl-8.13.0/lib/cookie.c:990-1037 | exactly the twin of the new cookie leaves its list |
| CookieJar.InsertSound | curl-8.13.0/lib/cookie.c:1123-1145 | adding or replacing keeps identities unique, cookies in their buckets and the expiry bound valid |
| CookieJar.InsertStamps | curl-8.13.0/lib/cookie.c:1026-1030 | adding keeps the creation times pairwise distinct if and only if it replaces a cookie or its own time is not in use |
| CookieJar.StampsMeetAgain | curl-8.13.0/lib/cookie.c:1107-1108 | once the counter has gone around, adding can give two cookies one creation time |
| CookieJar.OverlaysDepends | curl-8.13.0/lib/cookie.c:963-988 | what lies behind the end of an empty path decides on a refusal if and only if names and domains agree, the new path is not empty, and the old cookie is secure and the new one and its origin are not |
| CookieJar.OverlaysExact | curl-8.13.0/lib/cookie.c:951-987 | for a nonempty path the refusal is by the prefix up to its second slash; that is the rule described if and only if the new path does not go on with another byte than a slash |
| CookieJar.LoginHelperRefused | curl-8.13.0/lib/cookie.c:966-987 | the path the comment calls fine is refused |
| CookieJar.RefusedMeans | curl-8.13.0/lib/cookie.c:938-1022 | a cookie from a header is refused for an overlay only, one from a file also if its twin came from a header |
| CookieFile.SanitizedEmpty | curl-8.13.0/lib/cookie.c:282-305 | a path is sanitized to the empty string if and only if it is a single slash, quoted or not |
| CookieFile.SanitizedQuoted | curl-8.13.0/lib/cookie.c:282-305 | quotes around a path go, and so does one slash at its end |
| CookieFile.SanitizedRelative | curl-8.13.0/lib/cookie.c:294-297 | a path that does not start with a slash, quoted or not, becomes a slash |
| CookieFile.OutOfBoundsDecides | curl-8.13.0/lib/cookie.c:963-988 | an instance: the same two cookies are refused or not by the byte behind the end |
| CookieSort.BeforeTotal | curl-8.13.0/lib/cookie.c:1251-1280 | between cookies of different creation times the order is strict and total |
| CookieSort.SortedMeans | curl-8.13.0/lib/cookie.c:1251-1280 | of two cookies in order the first has the longer path; with equal paths the longer domain, then the longer name, then the later creation time |
| CookieSort.SortedUnique | curl-8.13.0/lib/cookie.c:1251-1280 | so there is only one sorted arrangement of the cookies of a request |
| CookieMatch.PathMatchExact | curl-8.13.0/lib/cookie.c:162-212 | a request path from a slash on passes if and only if it is the cookie's path or goes on behind it with a slash; one byte passes always; any other request path passes for the empty path only |
| CookieMatch.TailMatchExact | curl-8.13.0/lib/cookie.c:129-156 | a host passes if and only if it is the domain, up to case, or ends in a dot and the domain |
| CookieMatch.WantedExact | curl-8.13.0/lib/cookie.c:1328-1350 | a cookie is wanted if and only if it does not ask for a secure connection in vain, its host or domain fits and its path fits, each as described |
| CookieMatch.ReachableExact | curl-8.13.0/lib/cookie.c:217-277 | a cookie that passes the host test hashes the same bytes, up to case, as the host if and only if it is reachable: compared with the whole host, or with a dot in a domain that is no IP number, or without a domain for an IP number |
| CookieMatch.OneBucketSuffices | curl-8.13.0/lib/cookie.c:1314-1364 | scanning the host's bucket finds every reachable cookie of the jar the request wants |
| CookieMatch.DotlessOutOfReach | curl-8.13.0/lib/cookie.c:1314-1364 | without the condition a wanted cookie can lie in another bucket |
| Cookies.CookieInfo.RemoveExpired | curl-8.13.0/lib/cookie.c:364-406 | with or without the early exit the jar loses exactly the cookies with an expiry time before now, and keeps its invariant |
| Cookies.FindTwin | curl-8.13.0/lib/cookie.c:938-1025 | refuses exactly a cookie that would overlay a secure one or replace a live one from a file; else finds the twin |
| Cookies.CookieInfo.ReplaceExisting | curl-8.13.0/lib/cookie.c:938-1040 | takes the twin out and passes on its creation time, or changes nothing |
| Cookies.CookieInfo.Add | curl-8.13.0/lib/cookie.c:1052-1151 | the whole new jar and counter for every branch; what is added is live exactly when the engine is running, has its twin's creation time or the counter's next, and keeps the promise of its prefix; the invariant stays, and the creation times apart |
| Cookies.LiveStay | curl-8.13.0/lib/cookie.c:1011-1037 | a cookie from a file takes none out that was set from a header |
| Cookies.CookieInfo.GetList | curl-8.13.0/lib/cookie.c:1306-1403 | every cookie of the list is in the bucket and may go with the request as `WantedExact` says, all such cookies if they are fewer than 150, else the first 150; in order; expired ones are gone; out of memory only with something to send |
| Cookies.CookieInfo.ClearSession | curl-8.13.0/lib/cookie.c:1433-1454 | removes exactly the cookies without an expiry time |
| Cookies.CookieInfo.BeginLoad | curl-8.13.0/lib/cookie.c:1193-1209 | a file is loaded into a jar in use: the flags change, the invariant stays |
| Cookies.CookieInfo.ClearAll | curl-8.13.0/lib/cookie.c:1410-1426 | empties the jar |
| CookieRuns.Run | curl-8.13.0/lib/cookie.c:364-1454 | any run of adds, requests, purges, clears and file loads at any clock values keeps the invariant, and, until the counter wraps, distinct creation times |
| CookieFile.ParseNetscape | curl-8.13.0/lib/cookie.c:762-888 | the loop over fields gives what the fields of the line mean, errors in the order the code finds them |
| CookieFile.SevenFields | curl-8.13.0/lib/cookie.c:797-887 | seven fields are a cookie with just these, unless it asks for secure on an insecure connection or its expiry is no number, in this order |
| CookieFile.OtherFields | curl-8.13.0/lib/cookie.c:816-887 | a path that looks like a boolean was left out and counts as a slash; a missing value is empty; other numbers of fields are errors |
| CookieFile.PrefixFlags | curl-8.13.0/lib/cookie.c:861-865 | a parsed name sets the flag of its prefix in any case of its letters |
| CookieFile.TrueBeginnings | curl-8.13.0/lib/cookie.c:817 | a flag is true for every beginning of the word, the empty one included |
| CookieFile.PrintedLine | curl-8.13.0/lib/cookie.c:1476-1500 | one line in full |
| CookieFile.FieldsOfJoin | curl-8.13.0/lib/cookie.c:797-801 | splitting a line gives the fields it was joined from |
| CookieFile.NumberFromDecimal | curl-8.13.0/lib/cookie.c:851-854 | reading an expiry time gives the number that was printed |
| CookieFile.RoundTrip | curl-8.13.0/lib/cookie.c:1476-1500 | a cookie with clean fields is restored from its line if and only if it is writable |
| PoolBundles.WithoutShape | curl-8.13.0/lib/conncache.c:188-208 | removing a connection leaves one nonempty bundle per destination, every other destination as it was, and one connection less |
| PoolBundles.WithShape | curl-8.13.0/lib/conncache.c:430-462 | so does adding one, with one more |
| PoolBundles.MovedShrinks | curl-8.13.0/lib/cshutdn.c:405-435 | moving a connection from the pool to the shutdown list raises neither the total nor the count of any destination |
| ConnectionPool.OldestInBundle | curl-8.13.0/lib/conncache.c:288-314 | the first of the idle connections unused for longest; none only if all are in use or were used in the future |
| ConnectionPool.Multi.OldestIdle | curl-8.13.0/lib/conncache.c:316-349 | one unused for longest of all that are idle, not closing and not connect-only; none only if all of these were used after now |
| ConnectionPool.Multi.RemoveConn | curl-8.13.0/lib/conncache.c:188-208 | the pool without the connection, its count one less |
| ConnectionPool.Multi.Add | curl-8.13.0/lib/conncache.c:430-462 | the pool with the connection in the bundle of its destination; without memory nothing changes |
| ConnectionPool.Multi.ShutdownAdd | curl-8.13.0/lib/cshutdn.c:405-435 | the list with the connection at its end unless the event callback refuses it, the oldest dropped if the total is reached |
| ConnectionPool.Multi.Discard | curl-8.13.0/lib/conncache.c:589-634 | nothing for a connection in use unless aborted; else it joins the shutdown list unless it is aborted, connect-only or over at once, and is marked aborted in the first two cases |
| ConnectionPool.Multi.Terminate | curl-8.13.0/lib/conncache.c:636-686 | a connection in use stays unless aborted; else it leaves the pool and is discarded |
| ConnectionPool.Multi.DestRoom | curl-8.13.0/lib/conncache.c:374-403 | room for the destination or the reason why not; evicts idle connections of that destination unused for longest, the last of them when it still had as many as allowed and none shutting down |
| ConnectionPool.Multi.TotalRoom | curl-8.13.0/lib/conncache.c:405-423 | the same for the total; what is evicted was used no later than what stays evictable, and before the last eviction the total was not below the limit |
| ConnectionPool.Multi.CheckLimits | curl-8.13.0/lib/conncache.c:352-428 | OK if and only if both limits leave room; the evictions for the destination and then those for the total, of the longest unused, none more than needed; never removes a connection in use, raises no count, changes nothing if there was room |
| ConnectionPool.Multi.NowIdle | curl-8.13.0/lib/conncache.c:517-547 | above the limit, and only there, evicts one connection, unused for longest of the evictable ones, if one was used no later than now; says whether the connection stayed |
| ConnectionPool.Multi.DestCount | curl-8.13.0/lib/cshutdn.c:370-386 | counts the shutting connections of a destination |
| ConnectionPool.Multi.Perform | curl-8.13.0/lib/cshutdn.c:226-266 | removes exactly the finished connections and keeps the order of the others |
| ConnectionRuns.UnpooledExact | curl-8.13.0/lib/cshutdn.c:405-435 | shutting down a connection from outside the pool keeps the limits if and only if the pool is below the total and, once room was made, the destination below the host limit |
| ConnectionRuns.UnpooledBreaks | curl-8.13.0/lib/cshutdn.c:405-435 | inputs at which it breaks the one limit and the other |
| ConnectionRuns.Run | curl-8.13.0/lib/conncache.c:352-686 | over every run in which additions follow an OK, pooled and shutting connections stay within the total limit and, for each destination, the host limit; connections from outside the pool are closed where that is harmless |
| Filetime.Multiply | curl-8.13.0/lib/curl_ntlm_core.c:491-505 | the byte-wise loop multiplies any 64-bit pair by ten million modulo 2^64 |
| Filetime.Narrow | curl-8.13.0/lib/curl_ntlm_core.c:472-506 | for every 32-bit time, signed or not, the pair is (t + 11644473600) * 10000000 modulo 2^64 |
| Filetime.Wide | curl-8.13.0/lib/curl_ntlm_core.c:468-471 | the 64-bit branch gives the same number where it does not overflow |
| Filetime.ValueInjective | curl-8.13.0/lib/curl_ntlm_core.c:459-463 | so both branches give the same two words |
| Base64.Encode | curl-8.13.0/lib/base64.c:188-249 | writes the encoding, within the memory it asked for, with a NUL behind it; a size of 0 means the string up to its NUL |
| Base64.Decode | curl-8.13.0/lib/base64.c:76-186 | succeeds exactly on base 64 and writes the bytes it stands for |
| Base64.AcceptsShape | curl-8.13.0/lib/base64.c:93-104 | what is accepted: a nonempty multiple of four of symbols, ending in at most two equals signs that stand nowhere else |
| Base64.RoundTrip | curl-8.13.0/lib/base64.c:76-249 | decoding inverts encoding on every nonempty byte string |
| Base64.ReEncode | curl-8.13.0/lib/base64.c:76-249 | encoding what was decoded gives the string back if and only if its spare bits are zero |
| Base64.UrlForm | curl-8.13.0/lib/base64.c:51-54 | the URL form is the standard form with two characters changed and the padding dropped |
| Base64Bits.SymbolTable | curl-8.13.0/lib/base64.c:46-61 | the symbols and their values have the order of the tables of RFC 4648 |
| Base64Bits.EncodedAt | curl-8.13.0/lib/base64.c:188-249 | symbol k of an encoding stands for bits 6k to 6k + 5 of the input, zeros behind its end; the rest is padding |
| Base64Bits.TestVectors | curl-8.13.0/lib/base64.c:188-249 | the encodings of f, fo, foo and foobar |
| Base64.EncodedLength | curl-8.13.0/lib/base64.c:208-210 | the encoding fits the memory that is asked for, exactly with padding |
| Resolver.InvStep | curl-8.13.0/lib/asyn-thread.c:158-517 | every step of either thread keeps the invariant on who holds the mutex, the handle and the record |
| Resolver.NothingAfterTeardown | curl-8.13.0/lib/asyn-thread.c:158-517 | in every interleaving nothing touches the record after its teardown, and the result is read only when the thread has ended with `done` set |
| Resolver.TornDownOnce | curl-8.13.0/lib/asyn-thread.c:358-404 | when both sides are through, the record was torn down exactly once and no result is left over |
| Resolver.PollAnswer | curl-8.13.0/lib/asyn-thread.c:561-611 | in every interleaving a poll that read `done` completes the resolve, and any other is over |
| Resolver.TakenMeans | curl-8.13.0/lib/asyn-thread.c:238-258 | over every run, the parent has taken the addresses if and only if some step completed the resolve with them |
| Resolver.EndedCalls | curl-8.13.0/lib/asyn-thread.c:358-611 | when the thread is through, a poll or a wait takes what it found, a cancel or kill frees it, and the record is torn down once |
| Resolver.PollWaits | curl-8.13.0/lib/asyn-thread.c:561-611 | while the thread has not signalled, a poll changes nothing |
| Resolver.NeverStuck | curl-8.13.0/lib/asyn-thread.c:358-517 | until both sides rest or a detached thread is about to be joined, one of them can go on |
| Resolver.StepsEnd | curl-8.13.0/lib/asyn-thread.c:358-517 | between two calls there are only finitely many steps |
| Resolver.JoinsHeld | curl-8.13.0/lib/asyn-thread.c:379-503 | but for the join of a detached thread, which `BadJoinMeans` covers, every join is of a thread whose handle is still held |
| Resolver.GivenUpMeans | curl-8.13.0/lib/asyn-thread.c:374-383 | over every run, the handle names a thread that was given up if and only if some step of the run detached it |
| Resolver.BadJoinMeans | curl-8.13.0/lib/asyn-thread.c:524-535 | a run comes to joining a detached thread if and only if it kills, without quick_exit, after a step that detached it |
| Resolver.KillNeedsHandle | curl-8.13.0/lib/asyn-thread.c:524-535 | what a caller can look at: after any run a kill without quick_exit joins a detached thread if and only if the record has a handle but is not in use |
| Resolver.CancelGivesUp | curl-8.13.0/lib/asyn-thread.c:358-393 | a run that does: a cancel while the thread resolves, then a kill |
| ConnectSpec.ReadConcat | curl-8.13.0/lib/cf-h1-proxy.c:381-516 | reading in two goes is reading in one |
| ConnectSpec.HeaderRead | curl-8.13.0/lib/cf-h1-proxy.c:447-515 | reading byte by byte is reading line by line up to the first line that starts with CR or LF, a line of 16384 bytes or more being an error |
| ConnectBody.HeaderSays | curl-8.13.0/lib/cf-h1-proxy.c:282-359 | behind the header block the code is that of the last status line, and the length the number in the last Content-Length line met while the code was not 2xx |
| ConnectBody.HeaderFlags | curl-8.13.0/lib/cf-h1-proxy.c:282-359 | the connection is to be closed if and only if that held before or some Connection or Proxy-Connection line begins with close; chunked if and only if that held or some Transfer-Encoding line met while the code was not 2xx begins with chunked, which resets the decoder |
| ConnectBody.HeaderErrors | curl-8.13.0/lib/cf-h1-proxy.c:292-323 | a line is an error if and only if it is a refused challenge of a 401 or 407, or a Content-Length outside 2xx without a number |
| ConnectBody.StatusLine | curl-8.13.0/lib/cf-h1-proxy.c:348-357 | the status lines and their codes |
| ConnectBody.StatusOnly | curl-8.13.0/lib/cf-h1-proxy.c:348-357 | no other line is one |
| ConnectBody.LineLimit | curl-8.13.0/lib/cf-h1-proxy.c:447-451 | 16384 bytes without a line end are too many |
| ConnectSpec.Consumed | curl-8.13.0/lib/cf-h1-proxy.c:361-527 | a response takes exactly its header block and, for a 407 without authentication problem, as many bytes as the tunnel's length says |
| ConnectBody.ConsumedByLines | curl-8.13.0/lib/cf-h1-proxy.c:361-527 | that length being the number in the last Content-Length line, or what was there before where the response has none |
| ConnectBody.LeftOverChunked | curl-8.13.0/lib/cf-h1-proxy.c:91-107 | two tunnels that differ in the chunked flag only read a response alike if and only if it is chunked itself, has a length, or has no body to drop |
| ConnectSpec.ConsumedChunked | curl-8.13.0/lib/cf-h1-proxy.c:428-443 | with a chunked body it ends exactly where the decoder says it is done |
| ConnectSpec.NoEndWithoutHeader | curl-8.13.0/lib/cf-h1-proxy.c:447-454 | without the end of a header block the reader takes all there is and waits, or fails |
| ConnectSpec.CompareLine | curl-8.13.0/lib/http.c:1452-1491 | the loop finds the content at the start of the value, if at all |
| ConnectSpec.ValueBetween | curl-8.13.0/lib/http.c:1463-1479 | the value is what stands between the blanks |
| ConnectSpec.CompareheaderExact | curl-8.13.0/lib/http.c:1447-1491 | it finds the content where the value contains it if and only if it stands at the start or nowhere |
| ConnectSpec.GzipChunkedMissed | curl-8.13.0/lib/http.c:1447-1491 | an instance of the difference |
| ConnectLeftOver.LeftOverRun | curl-8.13.0/lib/cf-h1-proxy.c:91-107 | a run: a chunked 407, back to the initial state, then a bare 407, which ends for a fresh tunnel and goes on for this one |
| ConnectReader.Resume | curl-8.13.0/lib/cf-h1-proxy.c:385-390 | calling again after a blocked read adds up to reading everything |
| ConnectReader.SplitsDoNotMatter | curl-8.13.0/lib/cf-h1-proxy.c:385-390 | where reads block makes no difference to the state, the error or what is consumed |
| ConnectReader.JustBytes | curl-8.13.0/lib/cf-h1-proxy.c:381-516 | as long as the connection holds the outcome depends on the bytes only |
| ConnectReader.Lost | curl-8.13.0/lib/cf-h1-proxy.c:393-415 | the end of the stream or an error in the middle ends the reading; with proxy authentication at hand the end is no error but asks to close the connection |
| ConnectReader.H1Tunnel.GoState | curl-8.13.0/lib/cf-h1-proxy.c:135-187 | the whole tunnel after a change of state |
| ConnectReader.H1Tunnel.OnRespHeader | curl-8.13.0/lib/cf-h1-proxy.c:282-359 | what one header line does to the tunnel |
| ConnectReader.H1Tunnel.Recv | curl-8.13.0/lib/cf-h1-proxy.c:361-527 | one call does what its events up to the first blocked read ask for; a finished answer that is not 2xx is acted on |
| ConnectReader.H1Tunnel.Drive | curl-8.13.0/lib/cf-h1-proxy.c:361-527 | calling it again and again is one uninterrupted read |
| TgBuffer.SpliceAt | src/buffer.c:36-50 | each byte of a buffer after an insert comes from the data or stays |
| TgBuffer.Buffer.Append | src/buffer.c:25-34 | the contents followed by the data; the capacity grows by its length exactly when it does not leave a byte |
| TgBuffer.Buffer.Insert | src/buffer.c:36-50 | the data spliced in; behind the end, the old contents and the data around a gap; the capacity is what is needed exactly when it was no more |
| TgStorage.SwapRemovedFind | src/tg_storage.c:52-70 | swap-remove leaves every other path its record |
| TgStorage.SwapRemovedMembers | src/tg_storage.c:52-70 | it takes out exactly one record |
| TgStorage.Storage.Push | src/tg_storage.c:15-23 | one more record at the end, none of the others changed when the table grows to 2n + 1 |
| TgStorage.Storage.FindByPath | src/tg_storage.c:40-50 | the first record of a path |
| TgStorage.Storage.RemoveByPath | src/tg_storage.c:52-70 | returns the record and swap-removes it; nothing for an unknown path |
| FileSystem.SizeIsLength | main.c:205-246 | the recorded size is the length of the content |
| FileSystem.StoredKeeps | src/tg_file.c:74-167 | storing a document for one record gives that file the new content and leaves every other as it was |
| FileSystem.RemoveKeeps | main.c:267-279 | removing a record and its message leaves every other file as it was |
| FileSystem.StoredNoStrays | src/tg_file.c:74-167 | storing again drops the document from before: each document and message still belongs to a record |
| FileSystem.RemoveNoStrays | main.c:267-279 | with a record its document and message go |
| FileSystem.StrayLeft | main.c:205-246 | a document stored for a path without a record belongs to none |
| Hello.Remote.LoadContents | src/tg_file.c:169-241 | the buffer holds the stored bytes, whatever pieces they come in |
| Hello.Fs.Create | main.c:133-150 | a fresh path becomes an empty file; a directory is refused; the table stays good exactly in these cases |
| Hello.Fs.Write | main.c:205-246 | splices into the file at offsets up to its size, leaves every other file as it was; the table stays good if and only if there is a record or nothing is written at offset 0; a document is left over if and only if there is no record |
| Hello.Fs.Read | main.c:163-203 | the exact slice of a nonempty file |
| Hello.SliceMeans | main.c:163-203 | the slice has the bytes from the offset on, as many as were asked for and are there |
| Hello.Fs.Unlink | main.c:267-279 | removes the file and nothing else, and its document and message from the chat |
| Hello.Fs.Getattr | main.c:29-64 | finds what is there and reports the length of a file |
| HelloRuns.Run | main.c:133-279 | every run of creates, gapless writes, reads and unlinks refines a map from paths to bytes, replies included, and leaves no document or message without a file |

## Left out

- The rest of curl: sockets, name services, TLS, the other protocols and their compression are foreign code
  here; `connect.c`, `cfilters.c` and `cf-https-connect.c` are mostly dispatch.
- Byte queues: `Curl_bufq_free` and `Curl_bufcp_free`, whose effect is releasing memory.
- Cookies: parsing of `Set-Cookie` lines, the public suffix list (a parameter of `Add`) and reading and
  writing of whole files. `qsort` is stood in for by an insertion sort, which `SortedUnique` makes immaterial.
- Cookies.FindTwin: where the path of an existing secure cookie is empty, whether the search behind its end meets
  a slash is a parameter, `beyond`; for `OverlaysDepends` exactly that matters.
- CookieDomain.CookieHashDomain: takes char for signed. Where it is not, domains with bytes of 128 and more have
  other buckets; what is proved about buckets holds for any.
- Cookies.CookieInfo.GetList: the request's own copies of the strings are not modelled.
- CookieFile.RoundTrip: is about fields without TAB, CR, LF and NUL; a line of a file that starts like a
  header, or is longer than the reader's limit, is not modelled.
- Connections: locking of shared handles, connection ids, pruning of dead connections, upkeep, and the timer
  values in `cshutdn_perform`.
- ConnectionRuns.Run: leaves out closing a connection from outside the pool where `UnpooledExact` says that it can
  break a limit.
- ConnectionPool.Multi.Perform: what each shutdown answers is an input.
- Resolver: what follows on joining a detached thread, a failing `init_thread_sync_data`, reuse of a record while
  a detached thread still runs, a failing join and the socket pair that wakes the parent.
- ConnectSpec.ConsumedChunked: the chunk decoder is a parameter, as are the callbacks that receive header lines
  and the handling of authentication; the progress callback is left out.
- ConnectReader.H1Tunnel.Recv: what `Curl_http_auth_act` makes of a finished answer is a parameter; the code of
  the request and that of the proxy, which are set together, are one.
- Filetime.Wide: requires that the signed product does not overflow, which C leaves undefined.
- Base64: running out of memory. `Lookup` and `Symbol` give the tables section by section.
- File system: `hello_rmdir`, which skips entries, `readdir`, and the fixed sizes of paths and ids; building of
  URLs and scanning of JSON. The remote stores what it is sent; its failures are not modelled.
- Hello.Fs.Write: offsets behind the end leave a gap of unspecified bytes.
- HelloRuns.Run: excludes creates of paths in use, which would add a second record, writes that leave a gap
  and writes to paths without a record.
