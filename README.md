# c-snippet: the io_uring echo server and the LL(1) table calculator

This project models two independent programs of the repository and proves
properties of them.

- **The io_uring echo server (`uring/echo.c`).**
  - `codec.dfy` covers the completion tag. `union io_data` packs an event
    kind and a context pointer into the 64-bit `user_data` word. The model
    fixes GCC's x86-64 layout: `ctx` is bits 0..60 and `type` is bits
    61..63. It also covers `PTR_TO_CTX`/`CTX_TO_PTR`.
  - `echo.dfy` holds the values and invariants:
    - the submission and completion entries;
    - `struct context` (the heap is a map from each context's address);
    - a bump `malloc` and the buffers;
    - the invariant that ties every outstanding entry to the live context
      it names, with one lemma per step that keeps it.
  - `server.dfy` is the program itself, as a `Server` class whose fields are
    the globals and the heap. The kernel is an environment script: each
    `Choice` completes one in-flight entry with a result and, for a
    receive, the bytes that arrived. The class has one method for each of
    `prep_accept`, `prep_recv`, `prep_send`, `check_send`, `context_free`,
    `hnd_cqe`, `get_sqe` (with its retry loop and draining loop) and the
    completion loop of `main`.
  - What is proved:
    - the per-connection cycle accept → receive with a linked timeout →
      send → receive;
    - the echo copies exactly the received bytes;
    - teardown submits nothing, and no pointer is freed twice;
    - a timeout completion changes nothing;
    - every completion is marked seen once;
    - exactly one accept is outstanding at all times.
- **The LL(1) FIRST/FOLLOW/parse-table calculator (`test/parser.c`).**
  - `grammar.dfy` gives the tokens, the production table `gens[]` and
    specification functions for `nullable`, `nullable2`, `first_of`,
    `first_of2`, `follow_of` and `gen_of`. Their results are lists in the
    program's order, duplicates kept. The file proves what the queries mean
    on any table whose recursion is well founded. It also evaluates them on
    the program's own table.
  - `parser.dfy` has the program's loops as methods. They write
    NULL-terminated arrays through `result[num++]` and use local scratch
    arrays. Each method is proved to produce exactly the list its
    specification function describes. The file also has the
    character-to-token mapping of `token_next`.

## Model

| member | source | states |
|---|---|---|
| Codec.Signed3 | uring/echo.c:56 | reading the 3-bit `type` field gives a value in -4..3 whose low three bits are the field's bits |
| Codec.Signed61 | uring/echo.c:55 | reading the 61-bit `ctx` field gives a value in -2^60..2^60-1 whose low 61 bits are the field's bits |
| Codec.Encode | uring/echo.c:50-58 | the word built from `type` and `ctx` is a `__u64` whose top three bits are `type` mod 8 and whose low 61 bits are `ctx` mod 2^61 |
| Codec.Decode | uring/echo.c:50-58 | the fields read from a word fit their bit-fields and agree with the word's bits |
| Codec.Signed3Fits | uring/echo.c:56 | a kind that fits the signed 3-bit field is read back unchanged |
| Codec.Signed61Fits | uring/echo.c:55 | a value that fits the signed 61-bit field is read back unchanged |
| Codec.DecodeEncode | uring/echo.c:50-58 | writing two fitting fields and reading them back returns them |
| Codec.EncodeDecode | uring/echo.c:50-58 | every 64-bit word is the encoding of the fields it decodes to |
| Codec.PtrRoundTrip | uring/echo.c:88-89 | `CTX_TO_PTR(PTR_TO_CTX(p))` is `p` with its low three bits cleared |
| Codec.PtrToCtxFits | uring/echo.c:88 | every `intptr_t` shifted right by 3 fits the 61-bit field |
| Codec.PtrToCtx | uring/echo.c:88 | `PTR_TO_CTX` is the arithmetic shift right by 3: the context field `c` is the one with `8 * c <= p < 8 * c + 8` |
| Codec.CtxToPtr | uring/echo.c:89 | `CTX_TO_PTR` gives an 8-aligned pointer, from which `PTR_TO_CTX` gets the same field value back |
| Codec.Tag | uring/echo.c:108-110 | the tag `prep_*` store in `user_data` is a `__u64` |
| Codec.TagRoundTrip | uring/echo.c:185-186 | for kinds 0..3 and every 8-aligned `intptr_t` context, `hnd_cqe` decodes exactly that kind and that context |
| Codec.TagInjective | uring/echo.c:108-110 | two tags are equal if and only if their kinds and their aligned contexts are |
| Echo.Word | uring/echo.c:185 | the word the kernel hands back for an entry is a `__u64` |
| Echo.AcceptSqe | uring/echo.c:105-110 | the accept `prep_accept` submits is tagged `EV_ACCEPT`, and for an aligned context the pointer `hnd_cqe` recovers from it is that context |
| Echo.RecvSqe | uring/echo.c:130-136 | the linked receive `prep_recv` submits is tagged `EV_RECV`, and for an aligned context it names that context |
| Echo.TimeoutSqe | uring/echo.c:138-143 | the link timeout `prep_recv` submits is tagged `EV_TIMEOUT`, and for an aligned context it names that context |
| Echo.SendSqe | uring/echo.c:164-169 | the send `prep_send` submits is tagged `EV_SEND`, and for an aligned context it names that context |
| Echo.ToSize | uring/echo.c:177 | the conversion of the `int` count to `size_t` for the comparison with `outlen`: a `size_t` congruent to the count modulo 2^64, equal to it when the count is non-negative |
| Echo.Result | uring/echo.c:131 | a successful receive of at most `BLK_SIZE` bytes reports no more than that and no more than arrived; every other completion reports the script's result |
| Echo.Malloc | uring/echo.c:98 | `malloc` returns null or an 8-aligned, non-null block at the break that fits in the heap |
| Echo.Block | uring/echo.c:124 | a receive or send buffer holds `BLK_SIZE` bytes |
| Echo.Deliver | uring/echo.c:131 | what the kernel stores for a completion allocates and frees no buffer |
| Echo.Store | uring/echo.c:158 | storing `n` bytes at the start of a buffer keeps its length, puts exactly those bytes first and keeps the rest |
| Echo.Copyable | uring/echo.c:158 | the bounds of the `memcpy`: `in` holds at least `inlen` bytes and `out`, when present, has room for them |
| Echo.Sent | uring/echo.c:154-159 | after `prep_send` the context keeps its descriptor and `in`, `inlen` and `outlen` are both the received count, and a present `out` is kept |
| Echo.CopyIn | uring/echo.c:155-158 | the `memcpy` into `out` (a fresh zeroed block when it was null): `out` starts with exactly the first `inlen` bytes of `in`, keeps its length and the rest of its bytes, and no other buffer changes |
| Echo.CopyEchoes | uring/echo.c:154-169 | the send `prep_send` queues covers `outlen == inlen` bytes of `out`, and they are exactly the first `inlen` bytes `in` held |
| Echo.OwnerOf | uring/echo.c:185-186 | the word of an entry tagged with kind `k` and context `p` decodes to `k` and `p` |
| Echo.ExactlyOneAccept | uring/echo.c:190-192 | under the invariant the outstanding accept is outstanding exactly once, and no other accept is outstanding |
| Echo.RemoveOnlyAccept | uring/echo.c:190-192 | once the only accept completes, no accept is outstanding |
| Echo.LiveOk | uring/echo.c:60-71 | a live context is aligned and below the break, is not also a buffer, and its buffers are null or two distinct live blocks it owns, below the break |
| Echo.Released | uring/echo.c:79-86 | every non-null pointer passed to `free` so far was allocated, is no longer a live context or buffer, and was passed once: no double free |
| Echo.ReleasedGrow | uring/echo.c:98-103 | allocating at the break never hands out a pointer freed before, so every freed pointer stays freed and unique |
| Echo.ReleasedAfterFree | uring/echo.c:79-86 | `context_free` frees `out`, `in` and the context, none freed before and none twice among them, and afterwards none of them is live |
| Echo.IdleFresh | uring/echo.c:98-103 | a context that is not live has no outstanding accept, receive or send |
| Echo.EntriesAfterSet | uring/echo.c:101-103 | changing a context that nothing outstanding names keeps every outstanding entry well formed |
| Echo.EntriesAfterFree | uring/echo.c:79-86 | freeing a context that nothing outstanding names keeps every outstanding entry well formed |
| Echo.AddEntry | uring/echo.c:105-112 | queueing a well-formed entry for an idle context, or a timeout, keeps entries well formed and each context's entry unique |
| Echo.RetireEntry | uring/echo.c:182-205 | after the kernel completes an entry, its tag names its kind and an aligned context. That context is live and idle, as the entry describes it. The completed accept was the only one |
| Echo.HeapAfterFree | uring/echo.c:79-86 | freeing a context and its buffers keeps the heap well formed |
| Echo.HeapAfterSet | uring/echo.c:121-122 | replacing a live context by a well-formed one keeps the heap well formed |
| Echo.HeapAfterContext | uring/echo.c:98-103 | the context allocated at the break is new, and the heap stays well formed past it |
| Echo.HeapAfterBlock | uring/echo.c:124-125 | a fresh block at the break is not live yet, and giving it to a context keeps the heap well formed |
| Echo.HeapAfterWrite | uring/echo.c:158 | overwriting a live buffer with as many bytes keeps the heap well formed |
| Echo.HeapAfterDeliver | uring/echo.c:131 | what the kernel stores for a receive keeps the heap well formed |
| Echo.AcceptStep | uring/echo.c:91-113 | the context `prep_accept` allocates is new, and its accept becomes the only one outstanding with the invariant kept |
| Echo.RecvStep | uring/echo.c:130-145 | queueing a receive and its timeout for an idle live context with a descriptor and an input buffer keeps the invariant |
| Echo.SendStep | uring/echo.c:164-171 | queueing a send for an idle live context with both buffers keeps the invariant |
| Echo.IdleAdd | uring/echo.c:192 | queueing an entry for another context keeps a context idle |
| Echo.AddNonAccept | uring/echo.c:130-145 | queueing receives, timeouts and sends keeps "no accept" and "only this accept" |
| EchoServer.Server.constructor | uring/echo.c:73-75 | the state after setup: empty ring, no contexts, no buffers, nothing posted or seen |
| EchoServer.Server.Push | uring/echo.c:105-106 | filling a free slot appends the entry to the submission queue |
| EchoServer.Server.Submit | uring/echo.c:112 | `io_uring_submit` moves every queued entry to the kernel, in order |
| EchoServer.Server.Put | uring/echo.c:105-112 | an entry placed in a free slot and submitted is appended to what the kernel holds |
| EchoServer.Server.Enqueue | uring/echo.c:105-112 | `get_sqe`, prepare and submit: the kernel receives exactly that entry and no context, buffer or log changes |
| EchoServer.Server.Enqueue2 | uring/echo.c:130-145 | two `get_sqe` calls and one submit: the kernel receives the two entries in order |
| EchoServer.Server.Valid | uring/echo.c:182-205 | between completions: the heap and the outstanding entries are consistent, every freed pointer was freed once and is not live, exactly one accept is outstanding, and every posted completion was marked seen |
| EchoServer.Server.TornDown | uring/echo.c:79-86 | `context_free` has run: descriptor closed, `out`, `in` and the context freed in that order, and nothing else changed |
| EchoServer.Server.Accepted | uring/echo.c:190-193 | the whole effect of the `EV_ACCEPT` case, for a failed accept and for a connection |
| EchoServer.Server.Echoing | uring/echo.c:154-171 | the whole effect of `prep_send` on a positive count: `Sent`, `CopyIn`, the break, and exactly one send in flight |
| EchoServer.Server.Rearmed | uring/echo.c:177-179 | the whole effect of `check_send` on a matching count: a receive and its timeout in flight, nothing else changed |
| EchoServer.Server.ContextFree | uring/echo.c:79-86 | the descriptor is closed and `out`, `in` and the context are freed, in that order. Nothing is submitted, the invariant is kept, and none of the freed pointers was freed before |
| EchoServer.Server.Complete | uring/echo.c:259 | the kernel completes the chosen in-flight entry, stores a receive's bytes, and posts a completion carrying the entry's tag |
| EchoServer.Server.Take | uring/echo.c:259 | the completed entry leaves the kernel, and the other entries keep their order |
| EchoServer.Server.Step | uring/echo.c:259-260 | waiting for and handling one completion consumes one kernel step and keeps the invariant |
| EchoServer.Server.Drain | uring/echo.c:223-224 | the draining loop keeps the invariant and stops once no completion is ready to peek |
| EchoServer.Server.GetSqe | uring/echo.c:207-227 | returns with a free slot. With one free at entry nothing changes. With the queue full, from a state where every posted completion was seen, it submits, handles a completion, drains the ready ones and retries, keeping the invariant |
| EchoServer.Server.PrepAccept | uring/echo.c:91-113 | a new context at the break with `fd == -1`, null buffers and zero lengths. Exactly one accept tagged with it is submitted, and it is the only accept outstanding |
| EchoServer.Server.NewContext | uring/echo.c:98-103 | the allocation of `prep_accept`: the context is new, set to `fd == -1`, null buffers and zero lengths, and its accept may be queued |
| EchoServer.Server.PrepRecv | uring/echo.c:115-146 | with `fd < 0` nothing changes. Otherwise `fd` is set only if negative and `in` is allocated only if null. Exactly a linked receive of `BLK_SIZE` into `in`, then its timeout, are submitted |
| EchoServer.Server.Arm | uring/echo.c:121-145 | the rest of `prep_recv` for a valid descriptor, with the same exact effect |
| EchoServer.Server.Adopt | uring/echo.c:121-126 | the context updates of `prep_recv`: descriptor adopted only if negative, input block allocated only if null |
| EchoServer.Server.PrepSend | uring/echo.c:148-172 | with `inlen <= 0` the context is torn down and nothing is submitted. Otherwise `inlen == outlen == inlen`, `out` is kept or allocated, the bytes are copied, and exactly one send of `out` is submitted |
| EchoServer.Server.Echo | uring/echo.c:154-171 | the send path of `prep_send`, with the same exact effect |
| EchoServer.Server.Fill | uring/echo.c:154-161 | the copy of `prep_send`, as the value functions `Sent` and `CopyIn` describe it, with the invariant ready for the send |
| EchoServer.Server.CheckSend | uring/echo.c:174-180 | tears the context down if and only if `(size_t)res != outlen`. Otherwise the context is unchanged and a receive on the same descriptor and its timeout are submitted |
| EchoServer.Server.HandleCqe | uring/echo.c:182-205 | the whole new state after each kind of completion. A timeout changes nothing, submits nothing and is marked seen. An accept has the effect `Accepted` states. A receive has the effect `Echoing` states or tears down (`TornDown`). A send has the effect `Rearmed` states or tears down. Every case that does not tear down closes and frees nothing. Only an accept changes the outstanding accept. The completion is marked seen and the invariant is kept |
| EchoServer.Server.OnAccept | uring/echo.c:190-193 | the `EV_ACCEPT` case, with the whole new state. A failed accept only adds a fresh context at the break with its accept, and the failed context stays allocated and idle. Otherwise the context adopts the descriptor and a new receive block at the break, its receive and timeout are submitted, and then the fresh context and its accept. No other context or buffer changes, nothing is closed or freed, and the new accept is the only one outstanding |
| EchoServer.Server.Run | uring/echo.c:257-260 | after the first accept and the completion loop, unless an allocation failed, the invariant holds: exactly one accept is outstanding and nothing was freed twice |
| Grammar.IsNullable | test/parser.c:58-86 | an input terminal is never nullable |
| Grammar.NullableFrom | test/parser.c:67-83 | the production loop of `nullable`; `NullableFromIsExists` states what it computes |
| Grammar.NullableRhs | test/parser.c:73-79 | the inner loop of `nullable`; `NullableRhsIsAllNullable` states what it computes |
| Grammar.AllNullable | test/parser.c:88-95 | `nullable2`: every symbol of the list is nullable |
| Grammar.First | test/parser.c:97-133 | `first_of`; `FirstCharacterized` and `FirstIsTerminals` state what it computes |
| Grammar.FirstFrom | test/parser.c:112-129 | the production loop of `first_of`; `FirstFromIsFirstOfProductions` states what it computes |
| Grammar.FirstRhs | test/parser.c:119-128 | the inner loop of `first_of`; `FirstRhsIsFirstSeq` states what it computes |
| Grammar.FirstSeq | test/parser.c:135-156 | `first_of2`; `FirstSeqStep` and `FirstSeqIsTerminals` state what it computes |
| Grammar.Follow | test/parser.c:158-191 | `follow_of`; `FollowIsTerminals` and the `FollowOf` lemmas state what it computes |
| Grammar.FollowFrom | test/parser.c:167-187 | the production loop of `follow_of`; `FollowFromIsTerminals` states what it contributes |
| Grammar.FollowIn | test/parser.c:171-186 | the inner loop of `follow_of`; `FollowInIsTerminals` states what it contributes |
| Grammar.Selects | test/parser.c:201-216 | the test of `gen_of`: the production has left side `left`, and `tok` is in its `first_of2` or its right side is nullable and `tok` follows `left` |
| Grammar.GenFrom | test/parser.c:199-219 | the search loop of `gen_of`; `GenFromIsFirstSelecting` states what it finds |
| Grammar.GenFor | test/parser.c:193-220 | `gen_of`; `GenForIsFirstSelecting` states what it returns |
| Grammar.NullableRhsIsAllNullable | test/parser.c:73-79 | the inner loop of `nullable` succeeds exactly when every symbol of the right side is nullable |
| Grammar.NullableFromIsExists | test/parser.c:67-83 | the production loop of `nullable` succeeds exactly when some production of the symbol has an all-nullable right side |
| Grammar.NullableCharacterized | test/parser.c:58-86 | "$" is nullable, no input terminal is, and a non-terminal is nullable if and only if one of its productions has an all-nullable right side |
| Grammar.FirstSeqStep | test/parser.c:141-152 | one step of the scan of `first_of2`: stop at the end or at "$", else add FIRST of the symbol and go on only past a nullable one |
| Grammar.FirstRhsIsFirstSeq | test/parser.c:119-128 | on a right side where "$" stands only alone, the inner loop of `first_of` gives what `first_of2` gives |
| Grammar.FirstFromIsFirstOfProductions | test/parser.c:112-129 | the production loop of `first_of` concatenates, in table order, `first_of2` of the right sides of the symbol |
| Grammar.FirstCharacterized | test/parser.c:97-133 | `first_of("$")` is empty, `first_of` of an input terminal is that terminal, and for a non-terminal it is the concatenation over its productions |
| Grammar.FirstIsTerminals | test/parser.c:103-110 | FIRST lists hold input terminals only: no non-terminal and no "$" |
| Grammar.FirstFromIsTerminals | test/parser.c:112-129 | what the productions of a non-terminal contribute to FIRST is input terminals only |
| Grammar.FirstRhsIsTerminals | test/parser.c:119-128 | what one right side contributes to FIRST is input terminals only |
| Grammar.FirstSeqIsTerminals | test/parser.c:135-156 | `first_of2` lists hold input terminals only |
| Grammar.FollowInIsTerminals | test/parser.c:171-186 | what one right side contributes to FOLLOW is input terminals only |
| Grammar.FollowFromIsTerminals | test/parser.c:167-187 | what the productions contribute to FOLLOW is input terminals only |
| Grammar.FollowIsTerminals | test/parser.c:158-191 | FOLLOW lists hold input terminals only |
| Grammar.GenFromIsFirstSelecting | test/parser.c:199-217 | the search from production `i` finds the first production at or after `i` that is a table entry, or none when none is |
| Grammar.GenForIsFirstSelecting | test/parser.c:193-220 | `gen_of` returns the first production in table order with left side `left` and `tok` in its `first_of2`, or with a nullable right side and `tok` in `follow_of(left)`. It returns NULL exactly when none qualifies |
| Grammar.NullableOfM | test/parser.c:50 | `M` is nullable through `M ->` |
| Grammar.NullableOfA | test/parser.c:52-53 | `A` is not nullable |
| Grammar.NullableOfS | test/parser.c:44 | `S` is not nullable |
| Grammar.NullableOfH | test/parser.c:46-47 | `H` is not nullable |
| Grammar.NullableOfGrammar | test/parser.c:43-54 | of the non-terminals only `M` derives the empty string |
| Grammar.FirstOfA | test/parser.c:52-53 | FIRST(A) = [a, e] |
| Grammar.FirstOfM | test/parser.c:49-50 | FIRST(M) = [a, e] |
| Grammar.FirstOfH | test/parser.c:46-47 | FIRST(H) = [a, d] |
| Grammar.FirstOfS | test/parser.c:44 | FIRST(S) = [a] |
| Grammar.FirstOfGrammar | test/parser.c:43-54 | FIRST(S) = [a], FIRST(H) = [a, d], FIRST(M) = FIRST(A) = [a, e] |
| Grammar.FirstSeqOfS | test/parser.c:44 | `first_of2(a H #)` = [a] |
| Grammar.FirstSeqOfH | test/parser.c:46-47 | `first_of2(a M d)` = [a] and `first_of2(d)` = [d] |
| Grammar.FirstSeqOfM | test/parser.c:49-50 | `first_of2(A b)` = [a, e] and `first_of2($)` is empty |
| Grammar.FirstSeqOfA | test/parser.c:52-53 | `first_of2(a M)` = [a] and `first_of2(e)` = [e] |
| Grammar.FirstSeqOfGrammar | test/parser.c:43-54 | `first_of2` of every right side of the table |
| Grammar.FollowOfH | test/parser.c:44 | FOLLOW(H) = [#] |
| Grammar.FollowOfM | test/parser.c:46 | FOLLOW(M) = [d] |
| Grammar.FollowOfA | test/parser.c:49 | FOLLOW(A) = [b]: nothing is added for `A -> a M`, where `M` is last |
| Grammar.FollowOfGrammar | test/parser.c:158-191 | FOLLOW(S) is empty, FOLLOW(H) = [#], FOLLOW(M) = [d], FOLLOW(A) = [b] |
| Grammar.GenFromStep | test/parser.c:199-217 | one production of the `gen_of` search: skipped when its left side differs or it does not qualify, returned when it qualifies |
| Grammar.GensShaped | test/parser.c:43-54 | the left and right sides of `gens[]`, row by row |
| Grammar.GensNullOnlyAlone | test/parser.c:43-54 | in `gens[]`, "$" is only ever a whole right side |
| Grammar.GensFirstCharacterized | test/parser.c:97-133 | on `gens[]`, `first_of` is what `FirstCharacterized` describes for every symbol |
| Grammar.GenFromNoneBeyond | test/parser.c:199-219 | when no row from `i` on has left side `left`, the search returns NULL |
| Grammar.GenFromSkip | test/parser.c:202-203 | rows whose left side is not `left` are skipped |
| Grammar.TableOfS | test/parser.c:298-309 | the row of `S`: `a` selects `S->aH#`, every other terminal gives NULL |
| Grammar.TableOfH | test/parser.c:298-309 | the row of `H`: `a` selects `H->aMd`, `d` selects `H->d`, every other terminal gives NULL |
| Grammar.TableOfM | test/parser.c:298-309 | the row of `M`: `a` and `e` select `M->Ab`, `d` selects `M->` through FOLLOW(M), every other terminal gives NULL |
| Grammar.TableOfA | test/parser.c:298-309 | the row of `A`: `a` selects `A->aM`, `e` selects `A->e`, every other terminal gives NULL |
| Grammar.ParseTableOfGrammar | test/parser.c:298-309 | all twenty cells of the parse table `main` prints: the production name `gen_of` selects for each non-terminal and input terminal, or NULL. In particular `gen_of(M, d)` is "M->" |
| Grammar.FirstFits | test/parser.c:101 | every FIRST list with its NULL fits `temp[8]` |
| Grammar.FollowFits | test/parser.c:197 | every FOLLOW list with its NULL fits `follow[8]` |
| Grammar.FirstSeqFits | test/parser.c:196 | `first_of2` of every right side with its NULL fits `first[16]` |
| Grammar.GensFitScratch | test/parser.c:196-197 | no list of the program's table overflows the scratch array it is written to |
| Parser.AppendList | test/parser.c:123-124 | copying a NULL-terminated list appends exactly its symbols after what `result` holds |
| Parser.Contains | test/parser.c:206-208 | the search of a NULL-terminated list finds `tok` if and only if the list contains it |
| Parser.Nullable | test/parser.c:58-86 | `nullable(tok)` returns exactly `IsNullable(tok)` |
| Parser.Nullable2 | test/parser.c:88-95 | `nullable2(toks)` is true if and only if every symbol of the list is nullable; the empty list gives true |
| Parser.AppendFirst | test/parser.c:121-124 | `first_of` into `temp`, copied onto `result`, appends exactly FIRST of the symbol |
| Parser.Seal | test/parser.c:131-132 | the closing `result[num] = NULL` leaves exactly the accumulated list, terminated |
| Parser.FirstScan | test/parser.c:119-128 | the inner loop of `first_of` appends FIRST of each symbol up to and including the first non-nullable one |
| Parser.FirstOf | test/parser.c:97-133 | `first_of(tok, result)` leaves exactly FIRST(tok), NULL-terminated, in `result` |
| Parser.FirstOfRules | test/parser.c:112-129 | the production loop of `first_of` for a non-terminal leaves exactly its FIRST list |
| Parser.FirstOf2 | test/parser.c:135-156 | `first_of2(toks, result)` leaves exactly `FirstSeq(toks)`, NULL-terminated |
| Parser.FollowScan | test/parser.c:171-186 | the inner loop of `follow_of` appends FIRST of each successor of `tok`, stopping when `tok` is last or its successor is not nullable |
| Parser.FollowOf | test/parser.c:158-191 | `follow_of(tok, result)` leaves exactly `Follow(tok)`, NULL-terminated; empty for terminals and for `S` |
| Parser.FollowOfRules | test/parser.c:167-187 | the production loop of `follow_of` leaves exactly the FOLLOW list |
| Parser.GenOf | test/parser.c:193-220 | `gen_of(left, tok)` returns exactly the production `GenFor` names, whose left side is `left`, or NULL |
| Parser.GenSelects | test/parser.c:201-216 | one turn of `gen_of`'s loop selects a production if and only if it qualifies |
| Parser.TokenOf | test/parser.c:222-246 | newline ends the input. Each of `#adeb` gives the input terminal spelled by it. Every other character is an error |
| Parser.TokenOfName | test/parser.c:228-241 | every input terminal is read back from its own spelling |

## Left out

- Socket creation, `setsockopt`, `bind`, `listen` and `io_uring_queue_init` (uring/echo.c:230-255) are setup with no logic. `Server.constructor` starts from the state they leave.
- The liburing calls are an abstract ring:
  - `io_uring_get_sqe` takes a slot of a queue of `QUEUE_DEPTH` entries;
  - `io_uring_submit` hands the queued entries to the kernel;
  - `wait_cqe`/`io_uring_peek_cqe` take the next step of the environment script (`ready` says whether a completion is already posted);
  - `io_uring_cqe_seen` appends to the `seen` log.
- The kernel's completion order and results come from the script. The in-flight entry completed is the one the script's index selects, modulo their number. The 5-second timer (uring/echo.c:75) and link cancellation are not modelled: a timed-out receive is a receive whose result is at most 0.
- The `error` macro and `exit`: a failed `malloc` ends the run (`halted`). Errors of `io_uring_submit` and `io_uring_wait_cqe` are not modelled. A `wait_cqe` that would block forever, because the script is exhausted or nothing is in flight, also ends the run.
- Addresses: `malloc` is a bump allocator over an 8-aligned range below 2^63, so every pointer fits `intptr_t` and the codec. `free` only records the pointer in the `freed` log and memory is never reused. A fresh block is zero-filled, where `malloc` leaves it unspecified.
- `close` only records the descriptor in the `closed` log. The log may hold a descriptor more than once, because the kernel reuses descriptor numbers and the script gives arbitrary accept results; only freed pointers are proved to be unique.
- `struct context`'s `addr` and `addrlen` are not modelled. The accept fills them with the peer address, and it also reads `addrlen` as the size of `addr`, which `prep_accept` never sets (uring/echo.c:98-106). The model takes the accept's result as arbitrary, which covers whatever that uninitialised size makes the kernel do. An accept entry names the context as its buffer.
- `user_data` is kept in an entry as the `union io_data` fields. The 64-bit word (`Echo.Word`) is computed from them by `Codec.Encode` when the kernel posts the completion.
- EchoServer.Server.GetSqe: for a full queue, the contract states the invariant, an empty queue and progress of the script, not the exact state after the handled completions. Their effects are stated per completion by `HandleCqe`.
- GetSqe: the retry path is proved only from a state where every posted completion was seen. In the program `get_sqe` is only reached inside `hnd_cqe`, before that handler's `io_uring_cqe_seen` (uring/echo.c:204). There a full queue would make `io_uring_wait_cqe` return the completion being handled a second time, and that re-entry is not modelled. The program never takes the path. Each `prep_*` submits before it returns, so `prep_accept`, `prep_send` and the first slot of `prep_recv` find the queue empty, and the second slot of `prep_recv` (uring/echo.c:138) finds one entry queued out of `QUEUE_DEPTH`. The callers `Enqueue` and `Enqueue2` require a non-full queue, and then `GetSqe` changes nothing.
- EchoServer.Server.Step: states the invariant and one consumed step, not the exact new state. `HandleCqe` states that state for each kind of completion.
- EchoServer.Server.Drain: states the invariant and that it stops once no completion is ready, not the exact new state, for the same reason.
- EchoServer.Server.Run: states the invariant, and with it the single outstanding accept, when the script ends. It does not state the whole trace of the run.
- The concrete FIRST, FOLLOW and parse-table results are proved for the program's table `gens[]`. The methods of `Parser` are proved for any well-founded table whose lists fit the scratch arrays; `gens[]` is shown to be such a table.
- Tokens are compared by identity in the program; the model uses one datatype value per global token.
- `main` of test/parser.c (test/parser.c:248-310) only prints tables. `getchar` and the `exit` of `token_next` are I/O: `Parser.TokenOf` maps one character, and an unknown character is the `Unknown` result.
