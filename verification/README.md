# A verified model of the codecs, buffers, queues and parsers of the network library

This Dafny project models the parts of the library whose behaviour is an algorithm or a protocol, and proves what
they are for. `dafny verify dfyconfig.toml` checks all of it.

| file | models |
|---|---|
| `Base64.dfy` | `base64_encode`, `base64_decode`: the text as functions, the C code as methods that write exactly it |
| `Utf8.dfy` | the table-driven UTF-8 automaton against the grammar and the encoding of RFC 3629 |
| `Sha1.dfy` | the streaming SHA-1 context against FIPS PUB 180-1 on the whole message |
| `Sha1Example.dfy` | the known answer of FIPS PUB 180-1 for "abc", computed on literal words |
| `Buffer.dfy` | the chunked byte queue as one sequence of bytes |
| `Handler.dfy` | the echo handler over two such queues and an arbitrary network |
| `ThreadPool.dfy` | workers, posters and the destructor of the thread pool in any interleaving |
| `Dispatcher.dfy` | the post queue of the dispatcher and its coalesced wake-ups in any interleaving |
| `WsFrame.dfy` | the resumable WebSocket frame parser against a parser of the whole stream, and RFC 6455 |
| `Common.dfy` | bytes, C integer widths, binary digits, optional values |

## How to read it

- Code that updates state is a class or a method with loops; its `ensures` ties it to a function, and the lemmas
  beside the function say what it means. Code that runs in several threads is, besides, a state machine whose
  actions are the critical sections and what happens between them; the main lemmas hold in every reachable state.
- A pointer is an index into an array; a null pointer is `null` or `None`. C integers are unbounded integers with the
  wrap-around written out where the code can reach it. Shifts and masks are division and remainder, except in
  SHA-1, whose words are bit vectors. Exclusive or and or in `WsFrame.dfy` are defined bit by bit.
- A failing `malloc` or `new` is a parameter (`mallocOk`, `allocOk`, `memory`). `push` and `data` are modelled with the branches
  they have for it, whether or not the allocator in use can reach them.
- Of libevent the model uses this: `event_active` marks an event active; the loop clears the mark before it calls the
  callback; a non-persistent event that has fired is no longer pending; a loop break ends the loop when the current
  callback has returned.

## What turned out not to hold

- `base64_decode(base64_encode(x))` is `x` for every nonempty `x`; for the empty string the decoder returns NULL
  (`Base64.RoundTrip`).
- `spaceChunk` keeps the invariant that only the front chunk can be empty if and only if the default chunk size is
  positive or the front chunk has room, and `space(len)` if and only if there is a chunk, or len or the default size is
  positive (`Buffer.ByteQueue.SpaceChunk`, `Buffer.ByteQueue.Space`). Once it is lost, the loop of `data(len)`, for len
  up to the size, ends if and only if len is at most the number of bytes behind the oldest empty chunk
  (`Buffer.DataEnds`). With default size 0, `spaceChunk`, a `push` of one byte and `data(1)` hang (`Buffer.Stalled`).
- No event is left armed if and only if a write blocks in an event without a read (`Handler.Handler.EventCb`), as after
  one byte has been received and the next write blocks (`Handler.Unarmed`).
- `handleRead` ignores the result of `push`. In an event without memory for new chunks it loses bytes if and only if
  more arrive than the front chunk of the write queue has room for, and exactly those that do not fit; with memory it
  loses none (`Handler.Handler.MoveAll`, `Handler.Handler.EventCb`). One byte that arrives at a new handler without
  memory is lost, and the handler goes on (`Handler.Lossy`). `new` as `buffer.h` uses it throws instead of giving null,
  so only with another allocator does the code come to this branch.
- A task posted to the pool after every worker has left stays in its queue in every continuation
  (`ThreadPool.LateStays`), as when the only worker leaves after a stop and then a task is posted
  (`ThreadPool.Stranded`); every other task runs (`ThreadPool.EveryTaskRuns`, `ThreadPool.ShutdownComplete`).
- `parseWsHead` reads the extended length through signed characters, gives up at a masked byte 0xFF, and counts payload
  bytes in 16 bits. It understands a frame if and only if it has at most 65535 payload bytes, no byte of a two-byte
  length is 0x80 or more, and no masked byte is 0xFF (`WsFrame.Understood`). A frame without payload is seen to be
  complete only when a later call finds another byte (`WsFrame.SeenAtTheEnd`).

## Model

| member | source | states |
|---|---|---|
| Base64.TablesInverse | ExtNet/common/base64.c:14-15 | The alphabet and the decoding table are inverse to each other, and neither '=' nor the line feed is in the alphabet. |
| Base64.Alphabet | ExtNet/common/base64.c:14-15 | The alphabet of section 5.2 of RFC 1341 in octets, for all 64 numbers; the decoder keeps exactly these octets and 61. |
| Base64.Padding | ExtNet/common/base64.c:63-78 | Every text ends in an octet 10, and the octets 61 in it are exactly the `(3 - n % 3) % 3` before that, n being the number of bytes. |
| Base64.KnownTexts | ExtNet/common/base64.c:50-78 | The texts of "M", "Ma" and "Man" in octets. |
| Base64.KnownDecodings | ExtNet/common/base64.c:123-153 | The first two of these decode to "M" and "Ma". |
| Base64.DecodingTable | ExtNet/common/base64.c:104-107 | The table built from the alphabet gives each letter its number, '=' zero and every other byte 0x80. |
| Base64.Encode | ExtNet/common/base64.c:29-84 | NULL exactly when four times the length needs more than 64 bits or allocation fails; otherwise the buffer holds the encoded text and a NUL, inside the allocated size. |
| Base64.EncodeGroup | ExtNet/common/base64.c:51-54 | Three bytes become the four letters of their six-bit groups, written at the given place; the rest of the buffer is as it was. |
| Base64.EncodeTail | ExtNet/common/base64.c:63-75 | One or two last bytes become a padded group of four at the given place; the rest of the buffer is as it was. |
| Base64.Decode | ExtNet/common/base64.c:97-155 | NULL exactly when the text is rejected or allocation fails; otherwise the output is what the text decodes to, and never longer than three quarters of the kept characters. |
| Base64.DecodeInto | ExtNet/common/base64.c:123-153 | The decoding loop, with its partial group and its running count of '=', computes the group-by-group meaning of the kept characters. |
| Base64.RoundTrip | ExtNet/common/base64.c:50-78 | Decoding the encoding of any bytes gives them back, for all tail lengths and through the line feeds; for no bytes the decoder answers NULL. |
| Base64.EncodedInjective | ExtNet/common/base64.c:29-84 | Different bytes have different texts. |
| Base64.FilterEncoded | ExtNet/common/base64.c:109-113 | The characters that the decoder keeps of an encoded text are exactly its groups, without the line feeds. |
| Base64.DecodeSkipsNoise | ExtNet/common/base64.c:124-127 | Bytes that are neither in the alphabet nor '=' never change the result. |
| Base64.DecodeAccepts | ExtNet/common/base64.c:109-149 | A text is accepted if and only if it has kept characters, four divides their number, and the first group with '=' has at most two of them. |
| Base64.WrapTestComplete | ExtNet/common/base64.c:37-41 | For every 64-bit length the single comparison detects every wrap-around of the size, and nothing else; when it passes, nothing wrapped. |
| Base64.EncodedFits | ExtNet/common/base64.c:37-44 | The letters, one line feed for each started line and the NUL fit in the computed size. |
| Base64.EncodedLength | ExtNet/common/base64.c:50-82 | The length of the text: four letters for each started group of three bytes, and one line feed for each started line of 72 letters. |
| Base64.LinesOf72 | ExtNet/common/base64.c:57-60 | Octets 10 stand after every 72 letters and at the end, and nowhere else, so every line is within the 76 characters of section 5.2 of RFC 1341. |
| Utf8.TableIsAutomaton | ExtNet/common/utf8.c:32-47 | Each of the 400 entries that can be read is the class of its byte or the next state of the automaton; from states 0 to 8 the index stays below 400 and the next state is again 0 to 8. |
| Utf8.Decode | ExtNet/common/utf8.c:49-59 | One byte moves the state and the code point as one step of the automaton, with 32-bit shifts. |
| Utf8.MaskedBit | ExtNet/common/utf8.c:53-55 | The bits that the first byte of a sequence keeps: those that 0xff has after a shift by the class of the byte. |
| Utf8.RejectIsFinal | ExtNet/common/utf8.c:32-47 | A rejected string stays rejected, whatever follows. |
| Utf8.CharIsEncoding | ExtNet/common/utf8.c:50-59 | Every character of the grammar in section 4 of RFC 3629 is the section 3 encoding of one Unicode scalar value. |
| Utf8.EncodingIsChar | ExtNet/common/utf8.c:50-59 | Every scalar value has an encoding that the grammar allows, which stands for that value only. |
| Utf8.KnownEncodings | ExtNet/common/utf8.c:50-59 | Examples of section 7 of RFC 3629 in octets. |
| Utf8.AcceptsExactly | ExtNet/common/utf8.c:32-59 | The automaton ends in ACCEPT if and only if the string is well-formed: no overlong form, no surrogate, nothing above U+10FFFF, for any length and any earlier code point. |
| Utf8.DecodesExactly | ExtNet/common/utf8.c:50-59 | The code points taken at each return to ACCEPT are scalar values, and their encodings put together are the input. |
| Utf8.EncodedDecodes | ExtNet/common/utf8.c:50-59 | Any sequence of scalar values, encoded, is accepted and gives the same sequence back. |
| Utf8.LastCharacter | ExtNet/common/utf8.c:50-59 | Whenever the state is ACCEPT, the code point is the scalar value whose encoding is the bytes since the state was last ACCEPT. |
| Utf8.PrefixExactly | ExtNet/common/utf8.c:80-89 | The automaton has not rejected if and only if some continuation makes the string well-formed. |
| Utf8.PiecesCompose | ExtNet/common/utf8.c:80-89 | Validating two pieces in turn, with the code point cleared in between, ends in the state of validating their concatenation. |
| Utf8.IsUtf8LenState | ExtNet/common/utf8.c:80-89 | Returns the state of the automaton after the bytes, from any start state 0 to 8. |
| Utf8.IsUtf8Len | ExtNet/common/utf8.c:70-78 | True if and only if the bytes are well-formed UTF-8, whatever the uninitialised code point is. |
| Utf8.IsUtf8 | ExtNet/common/utf8.c:61-68 | The same for the bytes before the first NUL. |
| Sha1.BigEndianInjective | ExtNet/common/sha1.c:379-386 | Different lengths below 2^64 have different eight-octet forms. |
| Sha1.PadInjective | ExtNet/common/sha1.c:343-389 | Different messages below 2^64 bits have different padded messages. |
| Sha1.PadSplits | ExtNet/common/sha1.c:351-374 | The padded message is the complete blocks followed by one final block if at most 55 octets are left over, and by two otherwise. |
| Sha1.HashOfPad | ExtNet/common/sha1.c:343-389 | Compressing those one or two blocks after the complete ones gives the hash of the padded message. |
| Sha1.OneMore | ExtNet/common/sha1.c:186-203 | One more octet extends the incomplete block, or completes it and moves it to the hashed blocks. |
| Sha1.LengthOctets | ExtNet/common/sha1.c:379-386 | The eight octets cut from the two counter words are the big-endian length. |
| Sha1.RotlIsArithmetic | ExtNet/common/sha1.c:37-38 | The three rotations in arithmetic modulo 2^32: what is shifted out at the top comes in at the bottom. |
| Sha1.MixRotates | ExtNet/common/sha1.c:256-259 | A schedule word is the exclusive or of four earlier ones, rotated by one. |
| Sha1Example.RoundIsNext | ExtNet/common/sha1.c:267-308 | Shifting the five registers along amounts to one sequence of words, each computed from the five before it. |
| Sha1Example.DigestOfAbc | ExtNet/common/sha1.c:101-137 | The digest of "abc" is the one in Appendix A of FIPS PUB 180-1, octet by octet. |
| Sha1.Context.Reset | ExtNet/common/sha1.c:59-80 | The context has absorbed nothing and holds the initial value of the standard. |
| Sha1.Context.Absorb | ExtNet/common/sha1.c:186-203 | After one octet everything but the last incomplete block is hashed, the index is below 64 and the two counter words hold eight times the number of octets, or the context is marked corrupted when that number reaches 2^64. |
| Sha1.Context.CountOctet | ExtNet/common/sha1.c:189-198 | The two-word counter adds 8 with its carry, and detects the overflow exactly at 2^64. |
| Sha1.Context.Input | ExtNet/common/sha1.c:159-209 | Appends the given octets to what the context has absorbed; otherwise the error the code promises for a null pointer, a finished or a corrupted context. |
| Sha1.Context.PadMessage | ExtNet/common/sha1.c:343-389 | The chaining value becomes the hash of the padded message. |
| Sha1.Context.Result | ExtNet/common/sha1.c:101-137 | Writes the digest of exactly what was absorbed, as often as it is called; otherwise the promised error. |
| Sha1.Context.ProcessMessageBlock | ExtNet/common/sha1.c:232-317 | The block function of the standard, applied to the chaining value and the block. |
| Sha1.Context.ExpandBlock | ExtNet/common/sha1.c:248-259 | The two loops compute the recursively defined 80-word schedule. |
| Sha1.Context.RunRounds | ExtNet/common/sha1.c:261-308 | The four loops compute the 80 recursively defined rounds, each with its function and constant. |
| Sha1.HashPieces | ExtNet/common/sha1.c:159-209 | However a message below 2^64 bits is cut into pieces, the digest is the one that FIPS PUB 180-1 defines for the whole message. |
| Buffer.FlattenConcat | buffer.h:80-82 | The contents of two lists of chunks put together are the contents of the older, then of the newer. |
| Buffer.FlattenSplit | buffer.cc:169-174 | The data of one chunk stands between that of the chunks behind it and that of the chunks before it. |
| Buffer.OldestHasData | buffer.cc:86-88 | If only the front chunk can be empty and the queue holds data, the oldest chunk has data; the loop in `data` makes progress. |
| Buffer.DataEnds | buffer.cc:79-96 | The rounds of the copying loop come to an end if and only if len is at most the number of bytes in the chunks behind the oldest empty one. |
| Buffer.TidyReach | buffer.cc:79-96 | If only the front chunk can be empty, these are all bytes: the loop ends for every len up to the size. |
| Buffer.RoundReach | buffer.cc:79-96 | A round copies as many bytes as it takes from what can be reached, and at least one while the end can be reached. |
| Buffer.Stalled | buffer.cc:132-151 | With default size 0, after `spaceChunk` and a push of one byte, the queue holds that byte and the loop of `data(1)` never ends. |
| Buffer.ByteQueue.constructor | buffer.cc:6-7 | An empty queue with the default chunk size 4096. |
| Buffer.ByteQueue.Push | buffer.cc:9-44 | Appends the returned number of bytes: all of them, or, exactly when allocation fails and they do not fit, those for which the front chunk had room. A new chunk has the default size, or that of the rest if it is larger, and the free room that leaves. |
| Buffer.ByteQueue.Drain | buffer.cc:46-63 | Removes and returns the smaller of the request and the size, from the old end; only the oldest chunk that is left can have changed. |
| Buffer.ByteQueue.Data | buffer.cc:65-102 | Wherever the source ends: points to the first len bytes, contiguous, with contents unchanged; null exactly when there are not so many, or they are not in one chunk and allocation fails. |
| Buffer.ByteQueue.Gather | buffer.cc:77-101 | For every len on which the loop ends, it leaves one chunk with the first len bytes at the old end and the contents unchanged. |
| Buffer.ByteQueue.DataChunk | buffer.cc:104-108 | Points to all the data of the oldest chunk, which is a first part of the contents and not empty unless the queue is. |
| Buffer.ByteQueue.Space | buffer.cc:110-130 | Gives room for len bytes at the new end and changes no contents, by the front chunk or by a new one of exactly the size that the source asks for in place of empty ones; the invariant on empty chunks is kept if and only if there was a chunk, or len or the default size is positive. |
| Buffer.ByteQueue.SpaceChunk | buffer.cc:132-151 | Gives the free room of the front chunk, or a new chunk of the default size if there is none; the invariant on empty chunks is kept if and only if the default size is positive or the front chunk had room. |
| Buffer.ByteQueue.SpaceHaveSeted | buffer.cc:153-157 | Appends exactly the bytes that the caller wrote to the room it was given, which shrinks by their number. |
| Buffer.ByteQueue.At | buffer.cc:167-179 | The place of byte i, counted from the oldest; the fallback byte if and only if i is not below the size. |
| Buffer.ByteQueue.Assign | buffer.cc:167-179 | Writing through that reference changes byte i and nothing else. |
| Buffer.ByteQueue.Swap | buffer.cc:181-185 | Exchanges chunks, contents, sizes, storage and default sizes. |
| Handler.Handler.HandleWrite | handler.cc:64-94 | Sends from the old end of the write queue until it is empty or the write would block; READ is armed only if it is empty; -1 only after an error. A blocked write sends nothing, and as many writes that take something as there are bytes empty the queue. |
| Handler.Handler.ReceiveAll | handler.cc:99-121 | Receives until less comes than there was room for, or nothing is there; false only after a close or an error. What is received is what the peer sent next, and all of it is in the read queue. |
| Handler.Handler.MoveAll | handler.cc:123-130 | Moves the read queue behind the write queue: all of it with memory, exactly the first bytes that the front chunk has room for without. If memory comes and goes, at most the others are lost. What is kept is what was received without the lost bytes, in order. |
| Handler.Handler.HandleRead | handler.cc:96-143 | On success the read queue is empty, what arrived is behind the write queue except exactly the bytes lost for lack of memory, and READ or WRITE is armed as the write queue is empty or not; it succeeds whenever the peer neither closes nor fails. |
| Handler.Handler.EventCb | handler.cc:7-34 | After any event the bytes kept are bytes sent, then the write queue, then the read queue, and exactly which arriving bytes were lost; the handler is gone exactly after a timeout, a close or an error; otherwise exactly which event is armed, and none if and only if a write blocked and there was no read. |
| Handler.Serve | handler.cc:7-143 | In every run, whatever the network does: every event is delivered as long as the handler lives and one is pending; what has been received is what the peer sent so far, and not nothing after an event to read; what has been sent is a part of it, in order; unless bytes were lost it is a prefix, and all of it while only READ is armed. With memory none is lost. |
| Handler.Echo | handler.cc:64-143 | Any data that arrive are read and, if the writes take something, all written back, and the handler waits for input. |
| Handler.Unarmed | handler.cc:64-94 | A run after which one byte waits in the write queue of a living handler and no event is armed. |
| Handler.Lossy | handler.cc:123-130 | A run without memory after which the one byte received is in no queue and was not sent, and the handler waits for input. |
| ThreadPool.Pool.TestAllEmpty | thread_pool.cc:39-46 | True if and only if every queue is empty. |
| ThreadPool.Pool.Take | thread_pool.cc:35-68 | Under the lock a worker sleeps, leaves, or takes the head of the lowest-numbered nonempty level, as the queues and the stop flag say. |
| ThreadPool.Pool.PostPriority | thread_pool.h:59-62 | The task is appended to its level. |
| ThreadPool.StepInv | thread_pool.cc:31-71 | Every action of any thread keeps the order within levels, the place of every task, the wake-up bound and the stop conditions. |
| ThreadPool.RecordedPosts | thread_pool.h:59-60 | For every level, the posts that a state records are exactly the tasks that the actions of the run posted to it, in order. |
| ThreadPool.AtAnyTime | thread_pool.h:49-67 | Posts at any time and from any running task, before and after a stop, and wake-ups for no reason are possible. |
| ThreadPool.Walk | thread_pool.cc:21-71 | A run of two workers and two levels with every kind of action, state by state: it is possible, starts the lower-numbered level first, and ends with all three tasks run and both workers gone. |
| ThreadPool.NoLostWakeUp | thread_pool.cc:37-47 | With a task queued and a worker left, some worker is awake or a notification is pending; while a worker sleeps there is one of these for every queued task. Spurious wake-ups and any number of posters are allowed. |
| ThreadPool.OnePlace | thread_pool.cc:59-69 | In every run each task that an action posted is queued, running or done, once for each time it was posted; the posts to a level are its starts followed by its queue, in order. |
| ThreadPool.ShutdownComplete | thread_pool.cc:49-57 | In every run, when all workers have left, every post that an action made has run except those made after the last of them left, and the queues are empty if and only if there was no such post. |
| ThreadPool.DrainedOnStop | thread_pool.cc:21-29 | With posts only before the stop or from running tasks, all workers leave only when every task that an action posted has run and all queues are empty, in every interleaving. |
| ThreadPool.NoDeadlock | thread_pool.cc:31-57 | While a task is queued or the pool is stopped, and a worker is left, the pool itself can take a step. |
| ThreadPool.StopTerminates | thread_pool.cc:21-29 | After the stop, without new posts and spurious wake-ups, the pool takes a bounded number of steps, and when it can take no more all workers have left. |
| ThreadPool.EveryTaskRuns | thread_pool.cc:31-71 | After any run, stopped or not, the pool takes a bounded number of steps without new posts and spurious wake-ups, and when it can take no more every post that the run made has run except those made when no worker was left. |
| ThreadPool.LateStays | thread_pool.h:59-62 | Once all workers have left, what is queued stays queued in its order in every continuation, and nothing more is done. |
| ThreadPool.Stranded | thread_pool.h:59-62 | Stop, the only worker leaves, a task is posted: a reachable state with all workers gone and the task in its queue. |
| Dispatcher.StepInv | dispatcher.h:45-57 | Every action of the loop thread and of any poster keeps the wake-up count, the order and the stop conditions. |
| Dispatcher.RecordedPosts | dispatcher.h:48-52 | The posts that a state records are exactly the callbacks that the actions of the run posted, in lock order. |
| Dispatcher.AtAnyTime | dispatcher.h:45-57 | Posts from other threads and from a running callback are possible at any time. |
| Dispatcher.ExactWakeUps | dispatcher.h:48-56 | Posters about to activate, the active mark and a callback that has not yet swapped are together one if the queue holds posts and none if it is empty, so the event is never activated twice. |
| Dispatcher.InOrder | dispatcher.cc:44-57 | In every run, callbacks done, then the current batch, then the queue, are all callbacks that the actions posted, in lock order, those posted by callbacks included. |
| Dispatcher.LeavesAfterStop | dispatcher.cc:35-37 | When the loop has ended, every callback posted up to and including the first stop has run, and what has not run was posted after it. |
| Dispatcher.StopIsPrompt | dispatcher.cc:35-37 | Once the stop callback has returned, the loop finishes its batch and does not wait or enter the timer callback again. |
| Dispatcher.LeavesInTime | dispatcher.cc:53-56 | Once a stop has been taken from the queue, the loop thread leaves after exactly two turns for each callback left in the batch and one more, however much other threads and callbacks post meanwhile. |
| Dispatcher.NeverWaits | dispatcher.cc:53-56 | Until it has left, the loop thread can then always go on by itself. |
| Dispatcher.NoDeadlock | dispatcher.cc:44-57 | If nothing but a new post can happen, the loop has ended or it waits with an empty queue and every post run. |
| Dispatcher.EveryPostRuns | dispatcher.cc:44-57 | After any run and in any interleaving, a bounded number of actions without a new post runs every callback that the run posted, or a stop. |
| Dispatcher.Dispatcher.Push | dispatcher.h:47-52 | The post is appended under the lock, and an activation is due exactly if the queue was empty; a step of the state machine. |
| Dispatcher.Dispatcher.Post | dispatcher.h:45-57 | After a post the wake-up is active unless a callback is about to swap. |
| Dispatcher.Dispatcher.CallFront | dispatcher.cc:53-56 | One callback runs with all it posts, in steps of the state machine. |
| Dispatcher.Dispatcher.TimerCB | dispatcher.cc:44-57 | The whole batch runs in order; what its callbacks posted is the new queue, and a wake-up is active exactly if there is any. |
| Dispatcher.AllPostsOf | dispatcher.cc:53-56 | What a batch posts is what each of its callbacks posts, one after the other. |
| WsFrame.XorTwice | ExtNet/ws/WsStickyWrap.cpp:127 | Masking is its own inverse on any two numbers. |
| WsFrame.XorBit | ExtNet/ws/WsStickyWrap.cpp:127 | Each binary digit of the exclusive or is the sum of the two digits modulo 2. |
| WsFrame.OrBit | ExtNet/ws/WsStickyWrap.cpp:100-107 | Each binary digit of the or is 1 if and only if one of the two digits is. |
| WsFrame.SignExtendedBit | ExtNet/ws/WsStickyWrap.cpp:100-107 | The conversion of a signed char to 64 bits repeats its digit 7 in all higher places. |
| WsFrame.ExtendedLength | ExtNet/ws/WsStickyWrap.cpp:100-111 | The or of sign-extended bytes is the big-endian number of section 5.2 of RFC 6455 if and only if no byte has its top bit set; otherwise it is at least 2^63. |
| WsFrame.UnmaskedTwice | ExtNet/ws/WsStickyWrap.cpp:124-131 | Unmasking undoes masking with the same key, as section 5.3 of RFC 6455 asks. |
| WsFrame.UnmaskedBit | ExtNet/ws/WsStickyWrap.cpp:127 | Octet j of the payload is masked, digit by digit, with octet j mod 4 of the key, as section 5.3 of RFC 6455 says. |
| WsFrame.ParseRaw | ExtNet/ws/WsStickyWrap.cpp:77-142 | Every frame that meets the parser's conditions is parsed back from its own bytes, whatever follows. |
| WsFrame.ParsedIsRaw | ExtNet/ws/WsStickyWrap.cpp:77-142 | Every frame the whole-stream parser returns meets the conditions, and its bytes are at the head of the stream. |
| WsFrame.ParseRaws | ExtNet/ws/WsStickyWrap.cpp:77-142 | A stream that begins with complete frames is parsed into these frames and then whatever the rest is parsed into. |
| WsFrame.StageGrows | ExtNet/ws/WsStickyWrap.cpp:77-142 | What the parser has recorded about the current frame stays right when more bytes arrive. |
| WsFrame.MoreData | ExtNet/ws/WsStickyWrap.cpp:123-132 | Unmasking some payload bytes in place, at whatever offset, continues the unmasked payload. |
| WsFrame.Completed | ExtNet/ws/WsStickyWrap.cpp:133-135 | When the count reaches the length, header and unmasked payload in the buffer are a complete frame. |
| WsFrame.IndexOrCount | ExtNet/ws/WsStickyWrap.cpp:124-135 | The 16-bit index decides on completion as the true count does for lengths up to 65535, and never completes a longer frame. |
| WsFrame.Parser.InitHead | ExtNet/ws/WsStickyWrap.cpp:81-91 | With two bytes: remembers the header, clears length, masks and index, and uses two bytes; with fewer: nothing. |
| WsFrame.Parser.ReadPayload | ExtNet/ws/WsStickyWrap.cpp:92-113 | The length from the seven-bit field, or from two or eight more bytes once they are all there; otherwise nothing. |
| WsFrame.Parser.ReadMaskKey | ExtNet/ws/WsStickyWrap.cpp:114-122 | Four mask bytes once they are all there; otherwise nothing. |
| WsFrame.Parser.ReadData | ExtNet/ws/WsStickyWrap.cpp:123-136 | Unmasks in place up to the frame's end, the end of the bytes or the first 0xFF, and exactly these bytes; the wrapped index, the next state and the return value. |
| WsFrame.Parser.ParseWsHead | ExtNet/ws/WsStickyWrap.cpp:77-142 | From any valid state one call leads to a valid state, with the frame it may have completed appended; -1 exactly in front of a masked 0xFF; a call that can do something makes progress, any other changes nothing. |
| WsFrame.Parser.Arrive | ExtNet/ws/WsStickyWrap.cpp:25-29 | New bytes go behind the others if there is more room than they need, and keep the state valid. |
| WsFrame.RejectedThere | ExtNet/ws/WsStickyWrap.cpp:125-126 | A rejection happens at the byte, and after the frames, at which the whole-stream parser gives up. |
| WsFrame.SeenSoFar | ExtNet/ws/WsStickyWrap.cpp:77-142 | At any moment the frames seen are the first frames of the stream. |
| WsFrame.SeenAtTheEnd | ExtNet/ws/WsStickyWrap.cpp:77-142 | When a call can do nothing more, the frames seen are exactly the frames of the whole stream. |
| WsFrame.Connection | ExtNet/ws/WsStickyWrap.cpp:77-142 | For every way in which bytes arrive and calls are made, headers, lengths, masks, payloads and the place of a rejection depend on the stream alone; two calls for each byte and two more at the end are enough to have seen them all. |
| WsFrame.Understood | ExtNet/ws/WsStickyWrap.cpp:92-132 | A masked frame encoded as section 5.2 of RFC 6455 says is parsed back if and only if it has at most 65535 payload bytes, no byte of a two-byte length has its top bit set, and no masked byte is 0xFF; any other frame is never completed. |
| WsFrame.HeaderLayout | ExtNet/ws/WsStickyWrap.cpp:92-108 | The encoded header has the mask bit, the length in the fewest octets and the key where section 5.2 of RFC 6455 has them. |
| WsFrame.Hello | ExtNet/ws/WsStickyWrap.cpp:123-132 | The masked frame "Hello" of section 5.7 of RFC 6455, octet by octet. |
| WsFrame.ParseMessages | ExtNet/ws/WsStickyWrap.cpp:77-142 | A stream of messages encoded as section 5 of RFC 6455 says is parsed into exactly the messages before the first that is not understood. |
| WsFrame.MessagesSeen | ExtNet/ws/WsStickyWrap.cpp:77-142 | Delivered in any pieces with calls at any times, exactly these messages are seen once no call can do more; all of them if and only if each is understood, and then nothing is rejected. |

## Left out

- Sockets, libevent internals, logging, accept and listen, services and connection managers: the network is an
  arbitrary script of what recv and write do.
- `ExtNet/memoryBuff`: its tail pointer never advances and its write pointer can become null, so no queue property
  holds of it.
- `TcpStickyWrap::readData`, `StickyWrap::readData`, `WsStickyWrap::readData` and `WsStickyWrap::finishParse`: they
  confuse sizes and can loop without progress. `sendFrame` sends one byte more than the frame. `handshake.c`: string
  scanning around SHA-1 and Base64.
- `WsFrame.Parser.Call`: a caller that calls `parseWsHead` again after -1 would see bytes that have already been
  unmasked; the model makes no call after a rejection. It does not move the unused bytes to the start of the buffer,
  and the buffer may have any size.
- `char` is taken to be signed and `unsigned long` to have 64 bits, as on the library's usual platform.
- `Dispatcher::join`, which waits without a condition, and the event loop's reset of the break flag when it is entered
  a second time.
- The race between the workers and the constructor of the pool, which fills the queues after it has started them;
  futures and their results; tasks that throw.
- What a handler does after a blocked write has left no event armed: nothing in the library wakes it.
- Allocation failure in `space` and `spaceChunk`, which would put a null chunk in the queue, and sizes above 64 bits in
  the queue.
- Null context pointers in SHA-1, and the bits of a message whose length is not a multiple of 8.
- `Buffer.ByteQueue.Data`: assumes exactly that the loop in the source ends (`Buffer.DataEnds`), and a nonempty list for
  len 0, where the source reads the last chunk.
- `Utf8.IsUtf8LenState`: assumes a start state of at most 8, the states the function returns; the table is not defined
  beyond them.
