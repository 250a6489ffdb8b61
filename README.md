# Communication laboratory cores, modelled in Dafny

This project models the sequential logic of the six cores of a course repository's networking code, and proves properties of that logic:

- **ThreadPool**: the bounded work queue of the thread pool (`Assignment_03/threadpool.c`). It is a linked FIFO of work items with `qhead`, `qtail`, `qsize` and `max_qsize`, and two one-way flags, `dont_accept` and `shutdown`. `dispatch` enqueues, one pass of `do_work` dequeues, and `destroy_threadpool` raises the flags and waits for the queue to drain. The model is a class over heap nodes, and every blocking condition wait becomes a precondition.
- **HttpServer**: the request decision of the HTTP/1.0 static file server (`Assignment_03/server.c`). This covers the MIME lookup by last extension, the `sscanf` of the request line, and the chain of checks in `handle_client` that leads to 400, 501, 404, 302, 403, 500, the file, the index file or a directory listing. It also covers the exact text of the error responses and the 302 response. Status lines follow section 6.1 of RFC 1945. The file system is an abstract map from path to kind and readability.
- **HttpClient**: the URL handling of the HTTP client (`Assignment_02/client.c`). This covers:
  - `parse_url`;
  - `construct_request`, a GET with a `Host` header as in section 5.4 of RFC 7230;
  - `extract_location_url`, where relative references are merged in the simplified manner of section 5.2.3 of RFC 3986, without dot-segment removal;
  - the redirect test on the response;
  - the `-r n k=v …` argument scan of `main`.
- **MarkovChain**: the word table of the tweet generator (`Assignment_01/markov_chain.c`). It is a deduplicated database of words, each with a successor list of counts and a running total. The model covers cumulative-frequency selection of the next word for a given random draw, the search for a first word, and the tweet loop with its length cap. The database is a class whose field is a sequence of node records; successors are database indices.
- **TweetsGenerator**: chain building from text and the driver (`Assignment_01/tweets_generator.c`). `build_markov_chain` reads the file in `fgets` chunks, splits them into `strtok` tokens, respects the word limit and records every consecutive pair. `main` parses its arguments, builds the chain, and prints the numbered tweets.
- **GameServer**: the player table of the guessing-game server (`Assignment_04/gameServer.c`). This covers slot and id allocation, the per-player outgoing message queues (`write_count`/`write_index`), broadcasts, disconnection, guess handling (hint, or win and reset), the read and write handlers, and argument validation. The model is a class holding an array of player records.
- **CString**: the C library behaviour the cores rely on, as functions: `isspace`, `strtol` clamped to `long`, the cast to a 32-bit `int`, `atoi`, `%d` rendering, `strstr`, `strchr`, `strrchr` and NUL-terminated reads.

Each imperative operation is a method whose postcondition ties its result, or the new state, to a specification function of the inputs or the old state. That function's properties are proved as lemmas. Random draws are sequences of naturals (`Draws`), indexed by how many draws came before. Allocation failures are explicit parameters.

## Model

| member | source | states |
|---|---|---|
| ThreadPool.TasksOfAppend | Assignment_03/threadpool.c:106-114 | Linking a node at the tail appends exactly its task to the queue's contents. |
| ThreadPool.ChainPop | Assignment_03/threadpool.c:145-150 | Unlinking the head of a well-linked chain leaves a well-linked chain of the rest, and an empty chain with null head and tail when it was the last node. |
| ThreadPool.Pool.Create | Assignment_03/threadpool.c:5-70 | Creation fails (null) exactly when the thread count or queue size is outside 1..maximum, or a resource fails. Otherwise the new pool is valid, with empty contents, qsize 0, null head and tail, and both flags clear. |
| ThreadPool.Pool.constructor | Assignment_03/threadpool.c:17-24 | The initial state: the given sizes, qsize 0, null head and tail, both flags clear, nothing accepted or taken. |
| ThreadPool.Pool.Dispatch | Assignment_03/threadpool.c:72-118 | A missing routine, a failed allocation of the work node, or `dont_accept` set leaves the queue, qsize and the accepted tasks unchanged; only a dispatch past those checks waits for room. Otherwise the task is appended at the tail, qsize grows by one, and `qsize <= max_qsize` is kept. The flags never change. |
| ThreadPool.Pool.WorkerStep | Assignment_03/threadpool.c:120-169 | A worker exits exactly when `shutdown` is set, and then the queue is empty. Otherwise it takes the head task, the rest keep their order (FIFO), qsize drops by one, and the drained signal fires exactly when the queue became empty with `dont_accept` set. |
| ThreadPool.Pool.BeginDestroy | Assignment_03/threadpool.c:176-177 | Sets `dont_accept` and changes nothing else. |
| ThreadPool.Pool.FinishDestroy | Assignment_03/threadpool.c:179-186 | Only on a drained queue with `dont_accept` set: `shutdown` is set, the queue stays empty, and no accepted task is lost. |
| ThreadPool.Pool.Destroy | Assignment_03/threadpool.c:171-200 | Destruction runs exactly the queued tasks, in order. Afterwards both flags are set, the queue is empty, and every accepted task has been taken (no lost work). |
| HttpServer.MimeOfExtensionIsTable | Assignment_03/server.c:24-33 | The `strcmp` chain is exactly a case-sensitive lookup in the table of 13 extensions. |
| HttpServer.MimeTypeByLastExtension | Assignment_03/server.c:21-35 | The MIME type is decided by the text after the last '.', whatever dots come before it. A name without a dot has none. |
| HttpServer.WordPrefix | Assignment_03/server.c:253 | The length of the maximal run of non-space characters at the start. |
| HttpServer.ScanWord | Assignment_03/server.c:253 | One `%Ns` conversion skips leading white space and takes 1..N non-space characters. It fails exactly when only white space remains. |
| HttpServer.ScanRequestLineBounds | Assignment_03/server.c:253-256 | Each of the three scanned tokens (method, path, protocol) is non-empty and contains no white space, and they are at most 15, 2047 and 15 characters long. |
| HttpServer.ScanRequestLineOf | Assignment_03/server.c:253-256 | A line of three space-separated words within the widths scans back as exactly those words. |
| HttpServer.ScanRequestLineOfTwoWords | Assignment_03/server.c:253-256 | A line with only two words does not scan. |
| HttpServer.CodeSpelling | Assignment_03/server.c:51-52 | Every error code is written with three digits, starting with '4' or '5'. |
| HttpServer.ErrorBodyUncut | Assignment_03/server.c:43-49 | No error page reaches the 512-byte HTML buffer, so nothing of it is cut. |
| HttpServer.ErrorResponseFraming | Assignment_03/server.c:37-62 | An error response is its status line `HTTP/1.0 <code> <text>` followed by headers whose Content-Length is the body's exact length, then that body. Its byte 9 is the code's first digit, never '3'. |
| HttpServer.StatusLineDigit | Assignment_03/server.c:51-52 | The status line fits its buffer, and its byte 9 is the first digit of the code. |
| HttpServer.FoundResponseOfRequestPath | Assignment_03/server.c:64-112 | For a path that fits, the 302 response is `HTTP/1.0 302 Found` with `Location: <path>/` and the fixed body. Its status digit is '3'. |
| HttpServer.FoundResponseOfLongPath | Assignment_03/server.c:79-82 | A path of at least MAX_PATH_LENGTH−2 characters gets the 500 "path too long" response instead of a 302. |
| HttpServer.RequestLineChecksComeFirst | Assignment_03/server.c:253-266 | 400 exactly when the line does not scan or the protocol does not start with `HTTP/`, and 501 exactly for a scanned HTTP line whose method is not GET. Both hold whatever the file system holds. A scanned GET is resolved against the file system. |
| HttpServer.ResolveOutcomes | Assignment_03/server.c:268-306 | Each outcome of a GET and exactly its condition: 404 for a missing path, 302 for a directory without its trailing '/', and 403 for an unreadable regular file or a special file. A readable file is sent. For a directory: its readable `index.html`, otherwise a listing, or 500 when the index path would not fit. |
| HttpServer.TwoWordRequestIsBadRequest | Assignment_03/server.c:253-256 | A request line with fewer than three words gets 400. |
| HttpServer.GetRequestIsResolved | Assignment_03/server.c:258-269 | A well-formed GET line is resolved under the base path and the requested path. |
| HttpClient.ParseUrl | Assignment_02/client.c:107-162 | A parsed URL starts with `http://`. Its host holds no ':' or '/', is shorter than 256 (the stricter measured-length rule is stated by `ParseUrlRejects`), and is a prefix of the text after the scheme. Its port is in 1..65535, and its path starts with '/' and is shorter than 512. Without a ':' the port is 80. |
| HttpClient.ParseWithPort | Assignment_02/client.c:121-142 | The explicit-port branch yields only well-formed components whose host is a prefix of the URL rest. |
| HttpClient.PathFrom | Assignment_02/client.c:154-159 | The path is non-empty, starts with '/' and fits its 512-byte buffer ("/" when the URL has no '/'). |
| HttpClient.ParseUrlText | Assignment_02/client.c:107-162 | Round trip: spelling well-formed components as a URL, with `:port` only when the port is not 80, parses back to exactly those components. |
| HttpClient.ParseUrlRejects | Assignment_02/client.c:107-162 | `parse_url` fails exactly when the `http://` scheme is missing, when the port branch's `strtol` stops at neither '/' nor the end or reads a port outside 1..65535, or when the measured host length reaches 256. That length runs up to the path, so it counts ":port" when a path follows. |
| HttpClient.ParseUrlJunkAfterPort | Assignment_02/client.c:127-133 | Text after the port digits that is neither a digit nor '/' makes the URL fail, whatever the host and port. |
| HttpClient.ParseUrlGarbageAfterPort | Assignment_02/client.c:127-133 | "http://h:80x/" fails to parse. |
| HttpClient.ParseUrlCountsPort | Assignment_02/client.c:145-150 | With an explicit port and a path, the host, ':' and the port digits together must stay below 256 characters; otherwise the URL fails. |
| HttpClient.ParseUrlLongHostWithPort | Assignment_02/client.c:145-150 | A 251-character host followed by ":8080/" fails, although the host alone is shorter than 256. |
| HttpClient.ParseExplicitPort | Assignment_02/client.c:121-142 | A URL with an explicit `:port` before the path parses to that port, even 80. |
| HttpClient.ConstructRequest | Assignment_02/client.c:165-185 | The `strcat` loop builds exactly `GET <path>[?p1&p2…] HTTP/1.1`, then `Host` and `Connection: close` lines and a blank line. The '?' appears only with parameters. |
| HttpClient.QuerySplit | Assignment_02/client.c:170-178 | Splitting the query string at '&' gives back the parameters, so the query is unambiguous for parameters without '&'. |
| HttpClient.ServerReadsRequest | Assignment_02/client.c:165-185 | The request line the client builds scans, on the server's `sscanf`, as GET, the target and `HTTP/1.1`. |
| HttpClient.LocationHeaderIsFirstTag | Assignment_02/client.c:24-28 | A `Location: ` header is found exactly when the tag occurs in the response, and at its first occurrence. |
| HttpClient.ValueStart | Assignment_02/client.c:31 | The value starts right after the tag that was found. |
| HttpClient.LineOf | Assignment_02/client.c:34-38 | The value is a prefix of the text after the tag, up to the end of the line. |
| HttpClient.LeadingBlanks | Assignment_02/client.c:41-42 | The number of leading spaces skipped. |
| HttpClient.TrimEnd | Assignment_02/client.c:43-46 | Trailing space, CR and LF are removed. The result is a non-empty prefix of a non-empty input, and it ends in no such character unless only one is left. |
| HttpClient.TrimLocation | Assignment_02/client.c:41-46 | The pointer trim loops compute the trimmed value. |
| HttpClient.ExtractLocationUrl | Assignment_02/client.c:23-104 | A location is produced exactly when the response has a `Location: ` header, and it fits the 1024-byte URL buffer. |
| HttpClient.ResolveLocationParses | Assignment_02/client.c:49-99 | A relative value starting with '/' replaces the path, and any other value is merged after the current path's last '/'. Host and port are kept, and the new URL parses back to exactly those components. |
| HttpClient.ResolveRelative | Assignment_02/client.c:73-99 | A relative reference is placed after the current path's last '/', giving a path that starts with '/'. |
| HttpClient.ResolveAbsolute | Assignment_02/client.c:49-51 | An absolute `http://` value is followed verbatim. |
| HttpClient.ErrorResponseIsNotRedirect | Assignment_02/client.c:259-268 | The server's error responses never pass the client's redirect test, so the client does not follow them. |
| HttpClient.FlagCount | Assignment_02/client.c:290-296 | The count after `-r` is accepted exactly when `strtol` consumes the whole argument and the value is not negative. |
| HttpClient.FlagCountOfDec | Assignment_02/client.c:290-296 | The decimal spelling of a count is read back as that count. |
| HttpClient.FlagParams | Assignment_02/client.c:290-313 | On success the list is exactly as many arguments after the count as the count announces, each holding '='; a malformed count always fails. |
| HttpClient.ReadFlag | Assignment_02/client.c:290-313 | The `-r` branch (the `strtol` call, the cast to `int` and the inner parameter loop) computes `FlagParams` and moves the index just past the list. |
| HttpClient.TakeParams | Assignment_02/client.c:298-313 | The parameter loop takes the next `count` arguments exactly when they exist and each contains '='; otherwise it is a usage error. |
| HttpClient.ParseArguments | Assignment_02/client.c:283-328 | The argument loop computes the scan specification `ParseArgs`. |
| HttpClient.ParseArgsSound | Assignment_02/client.c:283-328 | Accepted arguments consist of parameters that each contain '=' and a URL that is one of the arguments and is not `-r`. |
| HttpClient.ParseArgsOfUsage | Assignment_02/client.c:283-328 | `-r n p1 … pn url` and `url -r n p1 … pn` are both accepted, with those parameters and that URL. |
| HttpClient.ParseArgsTwoUrls | Assignment_02/client.c:314-318 | A second URL is a usage error. |
| HttpClient.ParseArgsNoUrl | Assignment_02/client.c:324-328 | Arguments without a URL are a usage error. |
| HttpClient.ParseArgsShortList | Assignment_02/client.c:300-305 | Fewer parameters than announced is a usage error. |
| HttpClient.ParseArgsBadCount | Assignment_02/client.c:290-296 | A count that is not a non-negative integer is a usage error. |
| HttpClient.Startup | Assignment_02/client.c:283-335 | On success, the client starts with parsed URL components and parameters that each contain '='. |
| HttpClient.StartupOfUsage | Assignment_02/client.c:283-335 | The documented usage with a well-formed URL starts the client on exactly that URL and those parameters. |
| MarkovChain.FindNext | Assignment_01/markov_chain.c:89-95 | The first successor entry for a word, or none when the word is not listed. |
| MarkovChain.Lookup | Assignment_01/markov_chain.c:16-29 | The first node holding the word, or none exactly when no node holds it. |
| MarkovChain.Chain.GetNode | Assignment_01/markov_chain.c:16-29 | The list walk returns what `Lookup` specifies. |
| MarkovChain.AddedProperties | Assignment_01/markov_chain.c:34-78 | Adding keeps the database well formed, with no duplicates. An existing word leaves it unchanged. A new word is appended last as a fresh node and is found there. The old nodes are kept as a prefix. |
| MarkovChain.AddedIdempotent | Assignment_01/markov_chain.c:40-43 | Adding the same word twice is the same as adding it once. |
| MarkovChain.Chain.AddToDatabase | Assignment_01/markov_chain.c:34-78 | It fails only for a new word when allocation fails, and then leaves the database unchanged. Otherwise the database is `Added(old, word)`, still well formed, and the word's node is returned. |
| MarkovChain.RecordProperties | Assignment_01/markov_chain.c:83-114 | Recording successor j raises j's count and the total by one and leaves every other count alone. The list grows only for a new successor. Successors stay distinct, and `total == sum of counts` is kept. |
| MarkovChain.SumBump | Assignment_01/markov_chain.c:89-95 | Incrementing one entry raises the sum of counts by one. |
| MarkovChain.CountOfPositive | Assignment_01/markov_chain.c:89-111 | A word's count is positive exactly when it is listed as a successor. |
| MarkovChain.RecordKeepsWellFormed | Assignment_01/markov_chain.c:83-114 | Recording a successor keeps the whole database well formed. |
| MarkovChain.LookupExtend | Assignment_01/markov_chain.c:71-77 | Appending nodes does not change where an existing word is found. |
| MarkovChain.Chain.AddToFrequencies | Assignment_01/markov_chain.c:83-114 | It fails only when allocation fails for a successor not yet listed, and then changes nothing. Otherwise the first node records the second. |
| MarkovChain.PickFrom | Assignment_01/markov_chain.c:237-253 | The scan stops at the first entry whose cumulative count exceeds r. |
| MarkovChain.PickFromFound | Assignment_01/markov_chain.c:237-253 | A draw below the total always finds an entry, so the fallthrough at the end is never needed. |
| MarkovChain.PickFromIsInterval | Assignment_01/markov_chain.c:237-253 | For 0 ≤ r < total, entry k is chosen exactly when r lies in k's cumulative interval. This is what makes the choice weighted by the counts. |
| MarkovChain.NextWordIsWeighted | Assignment_01/markov_chain.c:209-262 | With a list, a next word is always chosen and is one of the listed successors. Entry k is chosen when `draw % total` falls in its interval. |
| MarkovChain.NextWordOfNoList | Assignment_01/markov_chain.c:217-223 | A word without successors has no next word. |
| MarkovChain.Chain.GetNextRandom | Assignment_01/markov_chain.c:209-262 | The scan returns `NextWord` for the current draw; it consumes a draw only when the list is non-empty. |
| MarkovChain.Slot | Assignment_01/markov_chain.c:9-11 | `get_random_number(n)` is below n. |
| MarkovChain.FirstTry | Assignment_01/markov_chain.c:158-199 | A found first word never ends a sentence, and it is at the slot of the last draw used. The loop uses at most its attempts; a failure uses all of them. |
| MarkovChain.FirstTryFails | Assignment_01/markov_chain.c:158-199 | The search fails exactly when every draw lands on a sentence-ending word. |
| MarkovChain.FirstRandomOfAllLast | Assignment_01/markov_chain.c:145-204 | A database of only sentence-ending words, or an empty one, yields no first word, after 1000 draws or none. |
| MarkovChain.Chain.GetFirstRandom | Assignment_01/markov_chain.c:145-204 | The loop computes the `FirstRandom` specification. |
| MarkovChain.Successor | Assignment_01/markov_chain.c:209-262 | There is no successor exactly when the list is empty; otherwise it is a listed successor. |
| MarkovChain.TweetLoopExtends | Assignment_01/markov_chain.c:294-327 | The loop only extends the words it started with. |
| MarkovChain.TweetLoopWalk | Assignment_01/markov_chain.c:294-327 | Each word of the tweet is a recorded successor of the one before. No word strictly between the first and the last ends a sentence; the first word's own `is_last` is never tested here (in `main` it never ends a sentence, because `get_first_random_node` skips such words). |
| MarkovChain.TweetLoopEnd | Assignment_01/markov_chain.c:294-336 | A tweet stops at the first sentence-ending word or at the length cap. It fails (−1) only at the cap with no words added, or at a word without successors. |
| MarkovChain.TweetProperties | Assignment_01/markov_chain.c:267-337 | A tweet is −1 or has 2..MAX_TWEET_LENGTH words. It starts at the first word and walks recorded successors. It ends at a sentence end or the cap, and fails only when a word has no successor (or the cap is ≤ 1). |
| MarkovChain.Chain.GenerateTweet | Assignment_01/markov_chain.c:267-337 | The count, the text written (words separated by spaces, then a newline), and the draws used are those of the tweet specification. |
| TweetsGenerator.ChunkLength | Assignment_01/tweets_generator.c:41 | One `fgets` reads up to and including a newline, at most 999 bytes, or to the end of the file. |
| TweetsGenerator.ChunksCoverText | Assignment_01/tweets_generator.c:41 | The `fgets` chunks, concatenated, are the whole file. |
| TweetsGenerator.RunLength | Assignment_01/tweets_generator.c:44-49 | A token is the maximal run of non-delimiter characters. |
| TweetsGenerator.Tokens | Assignment_01/tweets_generator.c:11 | Every `strtok` token is non-empty and holds no space, LF, TAB or CR. |
| TweetsGenerator.TokensSplit | Assignment_01/tweets_generator.c:44-49 | Tokenizing is compositional across a delimiter boundary. |
| TweetsGenerator.TokensOfJoin | Assignment_01/tweets_generator.c:44-49 | Words joined by spaces tokenize back to exactly those words. |
| TweetsGenerator.ChunkTokens | Assignment_01/tweets_generator.c:41-49 | For a file without over-long lines, the tokens of its chunks are the tokens of the whole text. |
| TweetsGenerator.Limited | Assignment_01/tweets_generator.c:41-45 | The word limit keeps a prefix of the tokens: all of them for −1, otherwise at most the limit. |
| TweetsGenerator.Processed | Assignment_01/tweets_generator.c:41-63 | The processed words are proper tokens, and they are a prefix of the file's tokens. |
| TweetsGenerator.FeedBuilt | Assignment_01/tweets_generator.c:18-88 | After a successful build: every processed word is in the database, and every word in it was processed. Each successor count equals the number of times the pair occurs consecutively in the processed words, including across lines. Each total equals the number of times a word is followed. The previous-node tracks the last word. |
| TweetsGenerator.CountsSnoc | Assignment_01/tweets_generator.c:66-79 | A new word adds exactly one occurrence of the pair it closes with the previous word. |
| TweetsGenerator.FeedSnoc | Assignment_01/tweets_generator.c:44-80 | Processing one more word is one more step after the words before it, and a failed build stays failed. |
| TweetsGenerator.StepFails | Assignment_01/tweets_generator.c:52-76 | With allocation working a step always succeeds. With a failing allocation it fails exactly when it needs one: a new word, or a pair not yet recorded. |
| TweetsGenerator.FeedFails | Assignment_01/tweets_generator.c:52-76 | The build fails exactly when the word whose allocation fails is processed and needs an allocation. |
| TweetsGenerator.ProcessWord | Assignment_01/tweets_generator.c:52-79 | One inner step on the chain is the `Step` of the specification, and it fails exactly when that does. |
| TweetsGenerator.FeedLine | Assignment_01/tweets_generator.c:44-81 | The `strtok` loop over one line feeds a prefix of its words, stopping at the limit or a failure, and tracks the database. |
| TweetsGenerator.FeedChunk | Assignment_01/tweets_generator.c:41-82 | One `fgets` pass feeds the limited tokens up to and including that chunk. On failure the whole build fails. |
| TweetsGenerator.BuildMarkovChain | Assignment_01/tweets_generator.c:18-88 | The chain is null exactly when the `malloc` of the chain or of its database fails, or the specified build fails on a word's allocation; otherwise its database is the one built from the processed words. |
| TweetsGenerator.Unsigned | Assignment_01/tweets_generator.c:110 | The cast to `unsigned int` is congruent to its argument modulo 2^32, and it is the identity on 0..2^32−1. |
| TweetsGenerator.ParseSettings | Assignment_01/tweets_generator.c:105-113 | Settings exist exactly for three or four user arguments. The seed is a 32-bit unsigned value, the count a 32-bit int, and the path the third argument. The word limit defaults to −1. |
| TweetsGenerator.ParseSettingsOfDecimal | Assignment_01/tweets_generator.c:110-113 | Decimal spellings of the seed, the count and the limit are read back as those values. |
| TweetsGenerator.SeedWraps | Assignment_01/tweets_generator.c:110 | Seed "-1" becomes 4294967295. |
| TweetsGenerator.FirstLine | Assignment_01/tweets_generator.c:171-173 | The line copied from the temporary file is its first line, cut to 999 bytes. |
| TweetsGenerator.TweetsFromShape | Assignment_01/tweets_generator.c:145-182 | Printed tweets have numbers in 1..tweets_count, strictly increasing. None is numbered for a failed `tmpfile`, and each line is non-empty and fits the buffer. |
| TweetsGenerator.NoOpeningWordNoTweets | Assignment_01/tweets_generator.c:146-152 | A database whose every word ends a sentence prints no tweet. |
| TweetsGenerator.TweetAt | Assignment_01/tweets_generator.c:146-181 | One pass prints at most one tweet, numbered with the pass index, only when `tmpfile` succeeded, with a non-empty line that fits the line buffer; the draw position only moves forward. |
| TweetsGenerator.TweetOnce | Assignment_01/tweets_generator.c:146-181 | The body of one loop pass computes `TweetAt`. |
| TweetsGenerator.GenerateTweets | Assignment_01/tweets_generator.c:145-182 | The tweet loop prints what the `TweetsFrom` specification gives. |
| TweetsGenerator.RunOutcomes | Assignment_01/tweets_generator.c:93-190 | `main` fails on `getcwd` exactly when that fails, with the usage error exactly for a wrong argument count, and with the file error exactly for a path it cannot open. It fails with the build error exactly when the chain or its database cannot be allocated, or an allocation a processed word needs fails. |
| TweetsGenerator.TweetLinesSnoc | Assignment_01/tweets_generator.c:164-173 | Each printing pass appends `Tweet i: ` and its copied line after everything printed before, so standard output lists the printed tweets in loop order. |
| TweetsGenerator.TweetLinesShape | Assignment_01/tweets_generator.c:164-173 | The tweet output is empty exactly when no tweet was printed, and otherwise begins with the first printed tweet's header and line. |
| TweetsGenerator.RunExit | Assignment_01/tweets_generator.c:93-190 | `main` exits with status 0 exactly when `getcwd`, the argument count, `fopen` and every allocation of the build succeed, and then prints only the tweets. Error exits print nothing for `getcwd`, the usage or file-path message, or the allocation message followed by "Failed to build Markov chain." |
| TweetsGenerator.RunGenerator | Assignment_01/tweets_generator.c:93-190 | `main` ends in the outcome `Run` specifies. |
| GameServer.EnqueuePending | Assignment_04/gameServer.c:67-68 | Queuing a message appends exactly it to the player's pending messages and changes nothing else of the player. |
| GameServer.Format | Assignment_04/gameServer.c:102-103 | `snprintf` into the 1024-byte MAX_BUFFER message buffer keeps a prefix of at most 1023 characters, and the whole text when it fits. |
| GameServer.BroadcastQueues | Assignment_04/gameServer.c:64-71 | Every active player whose id is not `except_id` (−1 meaning none) gets the message appended, every other player is untouched, and activity, ids and sockets are kept. |
| GameServer.FirstActiveIsSlot | Assignment_04/gameServer.c:87-93 | Because a player joins at the slot of its id, the active player with id k is in slot k−1. |
| GameServer.ToPlayerQueues | Assignment_04/gameServer.c:73-81 | Only the active player with that id gets the message appended, and everyone else is untouched. |
| GameServer.DisconnectedProperties | Assignment_04/gameServer.c:95-108 | An unknown id changes nothing. Otherwise exactly the matching player is deactivated, its socket becomes −1, and every other active player is told. |
| GameServer.FreeSlot | Assignment_04/gameServer.c:87-93 | The first inactive slot, or none exactly when every slot is active. |
| GameServer.FreeSlotExists | Assignment_04/gameServer.c:115-125 | A free slot exists exactly when the active count is below the maximum. |
| GameServer.CountActiveUpdate | Assignment_04/gameServer.c:115-120 | Changing one slot changes the active count by the change in that slot's activity. |
| GameServer.WelcomeQueued | Assignment_04/gameServer.c:149-157 | After a join at slot k, the new player k+1 has exactly the welcome message pending. |
| GameServer.JoinAtProperties | Assignment_04/gameServer.c:147-164 | A join at a free slot k activates it with id k+1 and the new socket, and queues exactly the welcome message for it. Every other active player is told of the join, and the active count grows by one. |
| GameServer.ConnectedProperties | Assignment_04/gameServer.c:110-165 | A full table or a failed `accept` changes nothing. Otherwise the player joins at the first free slot, as `JoinAtProperties` says. |
| GameServer.NewTarget | Assignment_04/gameServer.c:83-85 | The target is in 1..100. |
| GameServer.EndRound | Assignment_04/gameServer.c:181-187 | After a win every active player is deactivated, and inactive slots are untouched. |
| GameServer.Broadcast2Queues | Assignment_04/gameServer.c:169-193 | Two broadcasts to all players append both messages, in order, to every active player. |
| GameServer.RoundWonProperties | Assignment_04/gameServer.c:172-189 | A correct guess queues the win and answer messages for every active player before ending the round. Afterwards no player is active. |
| GameServer.GuessedProperties | Assignment_04/gameServer.c:167-195 | A correct guess queues the guess, win and answer messages for every active player, deactivates everyone, and picks a new target. A wrong guess queues the guess and "too high" or "too low" by comparison, and keeps the target and activity. |
| GameServer.GuessAnnounced | Assignment_04/gameServer.c:169-170 | Every active player's queue starts with the announcement of the guess. |
| GameServer.ParsedGuessOfDec | Assignment_04/gameServer.c:222-223 | `atoi` of a decimal guess followed by a non-digit is that guess. |
| GameServer.ReadProperties | Assignment_04/gameServer.c:197-227 | Nothing changes for an unknown player, EAGAIN, or a guess ≤ 0. A closed connection or failed read disconnects the player. A positive guess is handled as `Guessed` says. |
| GameServer.AdvancePending | Assignment_04/gameServer.c:252-258 | A sent message leaves the rest of the queue pending. Both counters reset to 0 exactly when the queue drains. |
| GameServer.Sent | Assignment_04/gameServer.c:229-245 | The message sent is the first pending one of that player, and there is none exactly when the player is unknown or has nothing pending. |
| GameServer.WrittenProperties | Assignment_04/gameServer.c:229-259 | Nothing pending changes nothing. A successful write removes the first pending message. A failed write other than EAGAIN disconnects the player, and EAGAIN keeps everything. |
| GameServer.CheckArguments | Assignment_04/gameServer.c:261-284 | Arguments are accepted exactly when there are three, all-digit, with the `atoi` port in 1..limit and at least two players; the accepted configuration is the three `atoi` values. |
| GameServer.ArgumentsAsWritten | Assignment_04/gameServer.c:279 | As written, the port bound is 65536. |
| GameServer.PortOverflowAsWritten | Assignment_04/gameServer.c:279 | As written, port 65536 is accepted, and `htons` turns it into port 0. |
| GameServer.Arguments | Assignment_04/gameServer.c:261-284 | The corrected validation accepts only ports 1..65535. |
| GameServer.ArgumentsBindRequestedPort | Assignment_04/gameServer.c:347 | With the corrected bound, the port bound is the port requested, and 65536 is rejected. |
| GameServer.ArgumentsOfDecimal | Assignment_04/gameServer.c:261-284 | Decimal port, seed and player count within the bounds are accepted as those values. |
| GameServer.EmptySeedAccepted | Assignment_04/gameServer.c:267-276 | The all-digit test passes an empty argument, which `atoi` reads as 0. |
| GameServer.ValidateArguments | Assignment_04/gameServer.c:261-284 | The digit loops compute the corrected `Arguments`. |
| GameServer.Server.constructor | Assignment_04/gameServer.c:312-324 | Every slot starts inactive with socket −1 and an empty queue, and the target comes from the first draw. |
| GameServer.Server.FindPlayer | Assignment_04/gameServer.c:198-204 | The slot of the active player with that id. |
| GameServer.Server.FindAvailableId | Assignment_04/gameServer.c:87-93 | The id of the first free slot, k+1, and −1 exactly when every slot is active. |
| GameServer.Server.ActiveCount | Assignment_04/gameServer.c:115-120 | The number of active players. |
| GameServer.Server.AddMessageToAllExcept | Assignment_04/gameServer.c:64-71 | The loop is the `Broadcast` specification on the array, given room in every receiving queue. |
| GameServer.Server.AddMessageToPlayer | Assignment_04/gameServer.c:73-81 | The loop is the `ToPlayer` specification on the array, given room in that queue. |
| GameServer.Server.DisconnectPlayer | Assignment_04/gameServer.c:95-108 | The array becomes `Disconnected`. |
| GameServer.Server.Join | Assignment_04/gameServer.c:147-164 | The array becomes `JoinAt` for that slot. |
| GameServer.Server.HandleNewConnection | Assignment_04/gameServer.c:110-165 | The array becomes `Connected`. |
| GameServer.Server.CloseAll | Assignment_04/gameServer.c:181-187 | The array becomes `EndRound`. |
| GameServer.Server.HandleGuess | Assignment_04/gameServer.c:167-195 | The array and the target become `Guessed`. |
| GameServer.Server.HandlePlayerRead | Assignment_04/gameServer.c:197-227 | The array and the target become `Read`. |
| GameServer.Server.HandlePlayerWrite | Assignment_04/gameServer.c:229-259 | It sends `Sent`, and the array becomes `Written`. |

## Left out

- Threads, mutexes and condition variables in the thread pool: each `pthread_cond_wait` loop becomes a precondition on the step that follows it, and no interleaving is modelled. Worker creation and joining, and running the routine outside the lock, are outside the model.
- Memory allocation: `malloc`/`realloc`/`calloc` failures are explicit parameters: `resourcesOk` of `ThreadPool.Pool.Create`, `allocOk` of `ThreadPool.Pool.Dispatch` and of the Markov chain's updates, and `setupOk` (the chain and its database) and `failAt` (one word's allocations) of the builder. `free`, `free_database` and `cleanup` are not modelled.
- Sockets, `select`, `accept`, `read`, `write`, `close` and the `main` event loops of both servers are outside the model. The game server's reads and writes become `Input` values and write results. The thread pool's and HTTP server's `main` (including `atoi` of their arguments) is not part of this model.
- GameServer.Server.HandlePlayerWrite: any write of more than 0 bytes counts as sending the whole message. Partial writes are not modelled.
- GameServer.Server.AddMessageToAllExcept: the source never checks `write_count < MAX_MESSAGES` before `strcpy` into the queue. The model makes room in every receiving queue a precondition (`Room`, `HasRoom`, `CanConnect`, `CanDisconnect`, `CanRead`, `CanWrite`).
- GameServer.Server.HandleNewConnection: the unreachable `new_id == -1` branch (gameServer.c:137-140) is not modelled. It cannot fire after the active-count check.
- GameServer.Server.constructor: the player id is left uninitialised in the source. The model sets it to 0, and no contract depends on the id of an inactive slot.
- The signal handler (gameServer.c:59-62) is outside the model.
- ValidateArguments: it rejects port 65536, which the source accepts (see Findings). The source's bound is kept in `ArgumentsAsWritten`.
- `rand`/`srand`: draws are parameters. `Draws` supplies the Markov chain's stream, `seeded` maps a seed to that stream, and `draw` supplies the game server's target.
- `getcwd`, `fopen`, `tmpfile` and the file contents are parameters of `TweetsGenerator.Run` (`cwdOk`, `files`, `tmpFails`). `perror` output and the `DEBUG` prints are left out.
- MarkovChain.Chain.GenerateTweet: it requires every word of the database to be at most 98 characters. A longer word overflows the 100-byte `temp` buffer (markov_chain.c:287), which the source does not guard against.
- TweetsGenerator.RunGenerator: it requires every word of the file to be at most 98 characters. A longer word overflows `generate_tweet`'s 100-byte `temp` buffer, which the source does not guard against.
- C `int` counters: `words_read` (tweets_generator.c:37, 63), `frequency`, `total_frequency` and `frequency_list_size` (markov_chain.c:91-92, 109-111) are unbounded in the model (`Feed`'s word count, `Freq.count`, `MarkovNode.total`, the list length). Overflow needs more than 2^31 words, which the model does not describe.
- TweetsGenerator.GenerateTweets: `tweets_count` near `INT_MAX` makes `i++` overflow in the source. The model's loop counter is unbounded.
- MAX_TWEET_LENGTH, MAXT_IN_POOL and MAXW_IN_QUEUE come from headers that are not part of this model. They are parameters (`maxLength`, `maxThreads`, `maxWork`). The generic linked-list `add` of markov_chain.h is sequence append.
- The HTTP server's filesystem and clock calls (`stat`, `access`, `opendir`, `readdir`, `strftime`) are abstracted: the file system is a map, and the date is a string parameter. The streaming of file bodies by `send_file_content` and the HTML rows of `send_directory_content` are outside the model. `handle_client` ends in an `Outcome` naming what is sent.
- HttpServer.FoundResponse: the `strncpy`/`strcat` building of the 302 response is modelled as a string function, not as buffer updates.
- The client's `send_request` fetch loop (name lookup, connect, the receive loop) is outside the model. One redirect step is `NextUrl`. `MAX_REDIRECTS` is never enforced by the source, so no redirect bound is modelled.
- HttpClient.ConstructRequest: it requires the request target (path, '?' and the '&'-joined parameters) to fit the 512-byte `full_path`. The source `strcat`s the `-r` parameters from the command line without a check (client.c:165-185), so a long parameter overflows the buffer there; the model does not describe that overflow.
- HttpClient.ExtractLocationUrl: it requires the resolved Location (`LocationFits`) to fit the 1024-byte `location_url`. The source `sprintf`s and `strcpy`s a server-supplied value without a check (client.c:49-99), so a long Location header overflows the buffer there; `NextUrl` inherits the precondition.
- TweetsGenerator.RunExit: the linked-list `add` of markov_chain.h can fail without printing ALLOCATION_ERROR_MASSAGE (markov_chain.c:72-76). In the model a failing word fails at its first allocation, so every failed build prints that message once. The message's text comes from a header that is not part of this model and is the parameter `allocError`.
- NULL arguments: the guards against a NULL chain, word, node, pool or routine pointer (for example markov_chain.c:17-19 and 35-37, `generate_tweet`'s -1 for a NULL input at markov_chain.c:268-279, and `dispatch` on a NULL pool, threadpool.c:73) are not representable, since Dafny references are never null and words are values. A NULL routine is kept, as `None`.
- CString: `strtol` is modelled for decimal text with an optional sign after leading white space. Locale effects and `errno` are not modelled.

## Findings

| source | as written | input that shows it | evidently intended | confidence | as-written member | corrected member |
|---|---|---|---|---|---|---|
| Assignment_04/gameServer.c:279 | `*port > 65536` rejects only ports above 65536, so 65536 is accepted | `./server 65536 0 2`: validation passes, and `htons(65536)` at line 347 binds port 0 | ports 1..65535, the range the client's `parse_url` enforces | not executed | GameServer.PortOverflowAsWritten | GameServer.ArgumentsBindRequestedPort |
