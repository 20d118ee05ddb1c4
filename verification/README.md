# Verified model of the xPipeline message pipeline

xPipeline (a Gollum derivative) reads messages from consumers, routes them over streams and hands
them to producers.  This project models the parts of it in which the order of steps matters, and
proves what they promise.  Every file is one module.

| file | part of the pipeline |
|---|---|
| `MessageBatch.dfy`, `BatchCalls.dfy`, `BatchProgress.dfy`, `BatchStarving.dfy`, `WriterAssembly.dfy` | the lock-free double buffer (tickets in one packed word, one flusher, late writers) with its flush lock as a step system over all interleavings, what its calls answer, its progress in fair infinite runs, and the assembly of a batch into one reused byte buffer |
| `Utilities.dfy`, `Framing.dfy`, `BufferedReader.dfy`, `Runlength.dfy` | decimal digits in byte buffers, the frame recognisers, the in-place reader with compaction, growth and reset, and the writers that belong to it |
| `Trie.dfy`, `TrieOrder.dfy`, `TrieLists.dfy`, `TrieFound.dfy`, `TrieMixed.dfy`, `TrieAnswers.dfy`, `TrieMatch.dfy`, `TrieNode.dfy` | the radix trie as a value, its theorems for tokens in order of length, in any order, and for whole lists of tokens with one first byte, with several, and of any kind, and for whole matches, and the nodes that change in place, proved to compute those values |
| `Automaton.dfy`, `Termination.dfy`, `StackTermination.dfy`, `TransitionParser.dfy` | the stack automaton behind the transition parser as a value, when it ends, and the parser with its tries, state table and stack |
| `JsonEmitter.dfy`, `JsonKeys.dfy`, `JsonFormatter.dfy` | the seven-state JSON emitter: token level theorems, the keys it generates, and the callbacks in place |
| `ByteTables.dfy`, `JsonTable.dfy` | parser tables with one-byte tokens as a scanner, and parser and emitter together for the directives that read JSON |
| `JsonStrings.dfy`, `JsonMarks.dfy`, `JsonTexts.dfy`, `JsonEscapes.dfy` | escapes, UTF-8 and trimming; the scalars and names that callbacks write; the parser on all JSON texts; and parser and emitter on all JSON texts |
| `Graphs.dfy`, `Dependencies.dfy`, `Shutdown.dfy` | the producer dependency graph, its guarded insertion and recursive search, and the stop protocol as a step system |
| `ProcessTsv.dfy`, `TsvDelimiters.dfy` | splitting a line into (quoted) values and joining them again |
| `MarshalMap.dfy` | the path language for nested values |
| `Rate.dfy` | the per-stream rate limiter |

`dafny verify dfyconfig.toml` checks everything.

## How to read it

Code that changes state is a class (or, for the two concurrent protocols, a step function on one
state value: an action names the thread or producer that moves next, so a list of actions is one
interleaving).  Each method is tied to a function on values, and the promises are lemmas about these
functions, for all inputs, all runs or all reachable states.  Ghost fields and history variables
only record what happened.

Results that are sharper than the original documentation:

* The double buffer keeps its invariant as long as fewer than 2^31 - 1 tickets have been drawn since
  the buffers were last switched, and the next draw breaks it, because it carries into the index bit
  (`MessageBatch.DrawKeepsInvIffNoCarry`).
* What the calls of the double buffer answer is stated in terms of what they can have seen: Append
  is false only if since its start the batch was closed or the front buffer full, AppendOrBlock only
  if the batch is closed, and AppendOrFlush drops a message only behind its own flush and the question
  to `canBlock` (`BatchCalls.AnswerOfAppend`, `AnswerOfAppendOrBlock`, `AnswerOfAppendOrFlush`).
  Nothing that starts on a closed batch is accepted (`BatchCalls.ClosedRefuses`).
* The flush lock is a spinning compare-and-swap.  That it is always released again, and that Append is
  answered, needs only weak fairness; that every Flush, Close and AfterFlushDo returns, and every call
  at all once the batch is closed, is proved under strong fairness (`BatchProgress.LockIsReleased`,
  `AppendIsAnswered`, `FlushReturns`, `CloseReturns`, `ClosedAnswersAll`), and weak fairness is not
  enough for it: there is a run in which callbacks of others take the lock whenever it is free
  (`BatchStarving.WeakFairnessStarves`).
* One configuration of the reader is not chunk independent: text runlengths without a delimiter that
  keep the header (`Framing.StableSettings`, `Framing.ZeroIsUnstable`).  A runlength separator works
  exactly if it is not empty and does not start with a digit (`Runlength.SeparatorIsNeeded`).
  Lengths of 2^63 and more wrap to negative ones; `Framing.PromptSettings` says where that delays a
  frame.
* `ReadOne` shadows its error variable (`shared/bufferedreader.go:366`): an EOF that comes with bytes
  is forgotten, and bytes that come with any other error are lost.  `ReadOne` states both.
* Trie lookups find the longest token if tokens are added in order of their length.  In any order,
  adding one more token keeps the longest match exactly if, below a root with a suffix, the token
  does not end on a branch node, and below a root without one, the children in front of it neither
  answer for it nor miss a longer token (`TrieOrder.AddKeepsLongestIff`).  For tokens with a common
  first byte the whole list is answered correctly exactly if no token, when it is added, is the place
  where two earlier ones part, unless it was added before (`TrieLists.LongestIffForkFree`); such a
  token is lost for good.  From the first token with another first byte on, the trie is a row of
  leaves around that of the first ones, and each later token has to fit: one that is shorter than
  the path recorded for the first ones must not begin with one of them, any other must not be the
  beginning of one (`TrieMixed.LongestIffFits`).  For any list of tokens whatever, with repetitions,
  the answer is given in terms of the tokens alone (`TrieAnswers.TrieReplies`), and it is always the
  longest match exactly if it is on the tokens themselves (`TrieAnswers.LongestIffOwn`).
* With Continue transitions that do not pop, or do not push, parsing ends on all inputs exactly if no
  chain of them comes back to its state, and following the chains on the tokens of the table is
  enough to decide that (`Termination.HaltsIffNoReturn`, `Termination.HaltsIffChainsEnd`).  With both
  kinds in one table it is not enough (`Termination.PushAndPopCanLoop`): for every table, parsing ends
  exactly if the Continue transitions do not come back to a state and the top of the stack, to just
  that or without popping below it, and looking at the tokens is enough
  (`StackTermination.HaltsIffNoCircle`, `StackTermination.HaltsIffTokensDoNotCircle`).
* For the callbacks of any document the JSON formatter writes the document's JSON text exactly if no
  scalar in it is blank, no string is changed by being trimmed and encoded as it is spelled, and,
  inside of nested objects, every array or object that another field follows is followed by a blank
  `val` (`JsonEmitter.PrintsIffPreserved`).  The directives for JSON input call `val` at every comma.
  With them, of all JSON texts, in any layout, exactly those come out as the same document in which no
  name has an escaped quote and no string is empty, has an escape, or has blank characters at its
  ends (`JsonEscapes.FormatsText`): empty strings are left out, blank ends are trimmed, backslashes
  are escaped once more (`format/json.go:291-301`), and an escaped quote ends the string or name
  (`JsonTexts.ReadsIffUnbroken`).  Output is
  balanced exactly if nothing is open behind the last callback but arrays and objects that wait for
  their first field (`JsonEmitter.BalancedIff`).
  A value without a key gets the name of the parser state as its key, so does an array or object,
  except right behind the brace that opens an object (`JsonKeys.GeneratedKey`,
  `GeneratedContainerKey`, `ArrayWithoutKey`: `format/json.go:365-371` writes `{[`); and a blank value
  in front of the first field leaves a comma there (`JsonKeys.NamesBecomeKeys`).
  The documentation lists `arr+dat` (`format/json.go:95`), which is not registered
  (`format/json.go:185-196`); the model follows the code.
* Every fair run of shutdown completes if the dependencies are acyclic, and none can if they are not;
  the guarded insertion makes all configured graphs acyclic.
* `WriterAssembly.Write` documents that messages go to `Flush` if the writer fails
  (`core/writerassembly.go:79-80`).  The code does not do so when there is no error handler
  (`core/writerassembly.go:104-110`); these messages are lost, and no others
  (`WriterAssembly.Accounts`).
* Shutdown returns when the workers are done, which can be before `onStop` has returned and the producer
  is dead (`Shutdown.ReturnsBeforeDead`).
* A key of the path language selects its field exactly if it is not empty and free of `/` and `[`.
  An index looks through empty names of maps (`MarshalMap.PathIsThrough`).  A path can make resolution
  panic exactly if one comes to a negative index in it (`MarshalMap.PanicsIffNegative`); what any path
  whatever comes to on any value is `MarshalMap.ResolveIsReading`.
* Quoted lines: for every delimiter, exactly the prints of values whose closing quotes and runs of
  unquoted values are unambiguous are parsed (`TsvDelimiters.ParsesIffReadBack`), and exactly the
  empty line and the lines that break off behind the delimiter of a quoted value or in an opening
  quote make `Format` panic (`format/processtsv.go:251`, `:271`; `TsvDelimiters.PanicsIffBreaksOff`).
  The rest has an unmatched quote.  For delimiters without a quote the conditions are on each value
  and its neighbour (`ProcessTsv.ParseOfPrintIffWellFormed`).
* The rate limiter lets up to twice its limit pass within one second, and that bound is reached; the
  exact number is what is left of the running window plus what the next one takes
  (`Rate.ExactlyInARun`).

## Model

| member | source | states |
|---|---|---|
| MessageBatch.InitialInv | core/messagebatch.go:52-68 | a new batch satisfies the epoch and ticket invariant |
| MessageBatch.StepInv | core/messagebatch.go:84-194 | every atomic operation of every thread keeps the epoch and ticket invariant: tickets of an epoch are numbered without gaps, slots hold their owner's message once written, doneCount counts the finished tickets, the lock has one holder |
| MessageBatch.RunInv | core/messagebatch.go:84-216 | the invariant holds in every state of every interleaving |
| MessageBatch.AcceptedIsInOnePlace | core/messagebatch.go:84-104 | a message whose Append returned true is, at every later point of every interleaving, in exactly one of active queue, flushing queue and delivered, at its own ticket |
| MessageBatch.DeliveredIsAccepted | core/messagebatch.go:98-103 | whatever assemble got belongs to exactly one Append that returned true; refused and dropped messages never get there |
| MessageBatch.CallsFollowTicketOrder | core/messagebatch.go:172-191 | each assemble call gets the tickets of its own epoch that fit, in ticket order |
| MessageBatch.HistoryGrows | core/messagebatch.go:164-194 | no later step takes back an assemble call, an acceptance or a close |
| MessageBatch.CloseDelivers | core/messagebatch.go:141-145 | when Close has returned without a timeout, every message accepted before it started has been through assemble, whatever ran beside it |
| MessageBatch.FlushesExclude | shared/waitgroup.go:58-63 | the flush counter is 0 or 1, and 1 exactly while one thread is in a flush or AfterFlushDo: none overlap |
| MessageBatch.SlotsAreExclusive | core/messagebatch.go:98-103 | no writer is at a slot while it is assembled or reset, and no two writers share a slot |
| MessageBatch.LockHolderProgress | core/messagebatch.go:181-193 | whoever holds the flush lock can move, or waits for a late writer that can move and shortens the wait |
| MessageBatch.BacklogNeverGrows | core/messagebatch.go:180-183 | while a flush waits for late writers, no step of any thread gives it more to wait for |
| BatchCalls.StaysWithItsCall | core/messagebatch.go:84-203 | in every interleaving the thread of a call stays with that call and its message, and ends with one of that call's answers |
| BatchCalls.ClosedRefuses | core/messagebatch.go:84-87 | a call of any kind that starts when the batch is closed never draws a ticket and is never accepted |
| BatchCalls.CloseCloses | core/messagebatch.go:141-150 | behind the first operation of a Close the batch is closed |
| BatchCalls.NothingAfterClose | core/messagebatch_test.go:162-166 | when a Close has returned, nothing that is appended afterwards is accepted |
| BatchCalls.AnswerOfAppend | core/messagebatch.go:84-104 | Append is true only if since its start the batch was open and the front buffer had a free slot, and false only if it was closed or the front buffer full |
| BatchCalls.AnswerOfAppendOrBlock | core/messagebatch.go:108-118 | AppendOrBlock is false only if the batch is closed, and true only if Append could be |
| BatchCalls.AnswerOfAppendOrFlush | core/messagebatch.go:124-131 | AppendOrFlush drops its message only after a try that could fail, its own Flush and the question to canBlock, and only if that said no, or yes and the batch is closed; it always drops it after a no, and blocks only after a yes |
| BatchCalls.EmptyIsNotFlushed | core/messagebatch.go:165-167 | a flush goes on to the lock only if since its call started there was a ticket in the front buffer |
| BatchCalls.FlushSwitches | core/messagebatch.go:164-174 | when a Flush has returned, the buffers were switched for every message accepted before it started |
| BatchProgress.LockIsReleased | core/messagebatch.go:164-194 | in every infinite run in which no thread that stays able to move waits for ever, the flush lock is free again after any point |
| BatchProgress.FlushReturns | core/messagebatch.go:164-194 | if no thread that is able to move again and again waits for ever, every Flush that was started returns |
| BatchProgress.CloseReturns | core/messagebatch.go:141-145 | and so does every Close, without its timeout |
| BatchProgress.CallbackReturns | core/messagebatch.go:199-203 | and every AfterFlushDo |
| BatchProgress.AnswersOrStartsOver | core/messagebatch.go:84-203 | in such a run every call is answered, unless it is an AppendOrBlock or AppendOrFlush that comes to start over on an open batch |
| BatchProgress.ClosedAnswersAll | core/messagebatch.go:106-118 | in such a run, if the batch is closed at any time, every call of every kind is answered |
| BatchProgress.AppendIsAnswered | core/messagebatch.go:84-104 | Append is answered in every run in which no thread that stays able to move waits for ever, whatever the others do |
| BatchProgress.FlushDelivers | core/messagebatch.go:164-194 | once a Flush has started, every message accepted before it is in the end handed to assemble, at its own ticket |
| BatchProgress.AcceptedIsDelivered | core/messagebatch.go:141-145 | in such a run, once a Close has started, every message accepted before it is in the end handed to assemble, at its own ticket |
| BatchStarving.WeakFairnessStarves | core/messagebatch.go:199-203 | a run in which no thread that stays able to move waits for ever, and a started Flush never returns, because AfterFlushDo takes the lock whenever it is free |
| MessageBatch.DrawKeepsInvIffNoCarry | core/messagebatch.go:89-92 | a draw keeps the invariant exactly if its count does not carry into the index bit, that is below 2^31 - 1 draws since the last switch |
| WriterAssembly.WriterAssembly.Write | core/writerassembly.go:81-118 | for every old content of the buffer, the writer gets the formatted payloads in order; the messages are flushed exactly in the three cases the code has, and the rest of the buffer survives behind the text |
| WriterAssembly.WriterAssembly.Flush | core/writerassembly.go:123-127 | all messages go to the flush callback in order |
| WriterAssembly.OutputOfAll | core/writerassembly.go:81-118 | over any sequence of calls the output is the text of the messages of the successful ones, and the flushed messages are, in order, those of the calls that were not confirmed, not taken over by the error handler, and not lost |
| WriterAssembly.Accounts | core/writerassembly.go:102-117 | over any sequence of calls each message is exactly one of: confirmed (written, and the validator is absent or says yes), taken over by the error handler, lost (failed without an error handler), flushed; with an error handler none is lost |
| WriterAssembly.OutputIsAcceptedMessages | core/messagebatch.go:186-193 | in every interleaving, if all writes succeed, the output is the text of the accepted messages, epoch by epoch, in ticket order |
| Utilities.Btoi | shared/utilities.go:203-215 | the value modulo 2^64 and the length of the leading digits |
| Utilities.Itobe | shared/utilities.go:185-197 | the digits stand at the end of the buffer, or the error case with the last digits |
| Utilities.NumberOfDecimal | shared/utilities.go:185-197 | reading the digits of a number gives the number |
| Utilities.BtoiInvertsDecimal | shared/utilities.go:203-215 | Btoi finds exactly the written digits in front of anything that is not a digit |
| Utilities.DecimalInvertsNumber | shared/utilities.go:203-215 | writing a read number gives the digits back exactly if they have no leading zero |
| Framing.FramesAppend | shared/bufferedreader.go:176-199 | for a prefix-stable recogniser, cutting a stream into frames does not depend on what arrives later: the frames of a concatenation are the frames so far, then those of the rest |
| Framing.StableSettings | shared/bufferedreader.go:202-335 | the built-in recognisers are prefix-stable exactly outside of one configuration |
| Framing.ZeroIsUnstable | shared/bufferedreader.go:227-255 | the unstable configuration: a text runlength of 0 that keeps its header is a frame until another digit arrives, so the frames depend on where the chunks are cut |
| Framing.BuiltInsAreWellFormed | shared/bufferedreader.go:202-335 | offset and padding of whatever any built-in recogniser reports with a positive length are not negative |
| Framing.PromptSettings | shared/bufferedreader.go:202-335 | a frame is recognised as soon as its last byte has arrived, exactly outside of the configurations in which a wrapped length can count the header |
| Framing.WrappedFieldIsLate | shared/bufferedreader.go:318-335 | an 8-byte length that counts its header can wrap to a frame shorter than the header, which is not recognised on its own last byte |
| Framing.SmallFramesBoundTheRest | shared/bufferedreader.go:365-402 | if every frame of the stream has at most F bytes, an incomplete rest has less than F |
| Framing.TextFitsIff | shared/bufferedreader.go:227-255 | in the text mode there is a message exactly if header, digits, delimiter and as many bytes as the digits say are there, and these bytes, with or without what is in front of them, are handed out |
| Framing.DelimiterFitsIff | shared/bufferedreader.go:211-223 | in the delimiter mode, exactly if the delimiter is there, and not at the very front unless it is kept |
| Framing.DelimiterMessageIs | shared/bufferedreader.go:211-223 | the message is what stands in front of the first delimiter, with it if it is kept |
| BufferedReader.BufferedReader.constructor | shared/bufferedreader.go:120-163 | a new reader asks for bytes and has an empty history |
| BufferedReader.BufferedReader.Reset | shared/bufferedreader.go:167-172 | buffered bytes are thrown away and counting restarts |
| BufferedReader.BufferedReader.Parse | shared/bufferedreader.go:176-199 | takes exactly the first complete message off the buffered bytes, or nothing |
| BufferedReader.BufferedReader.Fill | shared/bufferedreader.go:365-378 | one read into the free space; all read bytes are buffered except those that come with a failure |
| BufferedReader.BufferedReader.MakeRoom | shared/bufferedreader.go:388-401 | compaction and growth keep the buffered bytes and leave room, within the bound on the buffer |
| BufferedReader.BufferedReader.ReadOne | shared/bufferedreader.go:364-414 | hands out the next message of everything received, numbered, or none because none is complete; loses no byte but those read together with a failure; reports exactly the errors of reads without bytes; keeps the bound on the buffer and the room for the next read |
| BufferedReader.BufferedReader.ReadAll | shared/bufferedreader.go:340-356 | after it no complete message is buffered and exactly the messages of all received bytes were handed out, numbered consecutively |
| BufferedReader.BufferedReader.Consume | shared/bufferedreader.go:340-356 | a consumer loop around ReadAll uses the reader up and gets the messages of all its bytes unless a read failed |
| BufferedReader.ConsumeScript | shared/bufferedreader.go:340-414 | chunk independence: for every way of cutting a stream into reads and every buffer size, the messages are the frames of the whole stream, numbered from 0; it fails only if a read fails |
| BufferedReader.ArriveSound | shared/bufferedreader.go:176-199 | handed out plus buffered messages stay the messages of the stream when bytes arrive |
| BufferedReader.BufferedReader.BufferIsBounded | shared/bufferedreader.go:365-402 | in every state of a reader, on a stream whose frames have at most F bytes, the buffer holds at most F - 1 + growSize bytes unless it began larger |
| BufferedReader.GrowBound | shared/bufferedreader.go:394-398 | the buffer grows only while it is smaller than the largest message requires |
| Runlength.Format | format/runlength.go:60-70 | the payload behind its decimal length and the separator |
| Runlength.ReadsBack | shared/bufferedreader.go:186-199 | for every writer whose messages the recogniser cuts, the frames of the written stream are the payloads up to the first empty message |
| Runlength.TextRoundTrip | format/runlength.go:60-70 | the frames of concatenated Runlength outputs, behind headers of any content and of the length the reader is told, read as text runlengths with or without their headers, are the payloads |
| Runlength.SeparatorIsNeeded | format/runlength.go:55-63 | with an empty separator or one that starts with a digit some payload is not read back |
| Runlength.BinaryRoundTrip | shared/bufferedreader.go:258-335 | the same for 1, 2, 4 and 8 byte lengths in both byte orders, within their range, behind such headers |
| Runlength.FixedRoundTrip | shared/bufferedreader.go:202-208 | with a fixed length any bytes are cut into pieces of exactly that length, and what is shorter is left over |
| Runlength.NothingOfLengthZero | shared/bufferedreader.go:189-198 | with the fixed length 0 nothing is ever handed out |
| Runlength.DelimiterRoundTrip | shared/bufferedreader.go:211-223 | the same for payloads ended by a delimiter that occurs nowhere earlier |
| Runlength.Transfer | format/runlength.go:60-70 | writer and reader together: in whatever pieces the written stream arrives and however small the buffer is, exactly the payloads come out, numbered from 0 |
| Trie.AddPathFinds | shared/trie.go:90-159 | adding a token at least as long as all others makes it the answer for exactly the inputs it is a prefix of, and changes no other answer |
| Trie.MatchStartIsLongest | shared/trie.go:197-227 | for tokens added in order of length, MatchStart finds the longest token that is a prefix, with its last payload and its length, and nothing iff none is |
| Trie.LongestMatchUnique | shared/trie.go:197-227 | the longest match determines length and payload |
| Trie.MatchStartIsSound | shared/trie.go:197-227 | for tokens added in any order, an answer spells an added token that is a prefix, with one of its payloads |
| Trie.AddedIsFound | shared/trie.go:163-193 | a token just added is matched, in any trie, exactly if it did not end on a branch node |
| TrieMatch.MatchIsSound | shared/trie.go:163-193 | for tokens added in any order, Match accepts nothing but added tokens, with one of their payloads |
| TrieMatch.MatchIsExact | shared/trie.go:163-193 | for tokens added in order of length, Match accepts exactly the tokens, with the payload each was given last |
| TrieOrder.AddedAnswers | shared/trie.go:163-193 | matching a token just added gives its new payload exactly if it did not end on a branch node, and at a root without suffix if no child in front answers for it |
| TrieOrder.AddPathRaises | shared/trie.go:90-159 | below a suffix, a token off the branch nodes takes over exactly the inputs it is a prefix of and that no longer token answers |
| TrieOrder.AddKeepsLongestIff | shared/trie.go:90-159 | whatever tokens a trie answers with the longest match, in whatever order they came, adding one more keeps that up exactly under a condition on the trie before: below a suffix not ending on a branch node, at a root without suffix no answer from the children in front and none missing for longer tokens |
| TrieOrder.LongestIffNoneOnBranch | shared/trie.go:197-227 | for tokens with a common first byte in any order the longest match is found for all inputs exactly if no token ended on a branch node when it was added |
| TrieOrder.LostForever | shared/trie.go:108-111 | a token that ended on a branch node still does after any further tokens with that first byte |
| TrieLists.BranchIffForks | shared/trie.go:90-159 | in a trie that answers its tokens, another token ends on a branch node exactly if two of the tokens part where it ends and it is none of them |
| TrieLists.LongestIffForkFree | shared/trie.go:197-227 | the same in terms of the tokens alone: exactly if no token is, when it is added, the longest common prefix of two earlier longer ones, unless it was added before |
| TrieMixed.RecordedIs | shared/trie.go:41-63 | the longest path that the root records, in terms of the tokens alone: the longest token that does not go on behind the common prefix like an earlier one |
| TrieMixed.LongestIffFits | shared/trie.go:197-227 | for tokens with different first bytes the longest match is found for all inputs exactly if those in front of the first one with another first byte are answered, and each later one, if shorter than the recorded path, begins with none of them, and otherwise is the beginning of none |
| TrieFound.FoundIs | shared/trie.go:90-159 | for tokens with a common first byte, in any order: the trie answers like the trie of those that do not fork the ones in front of them, and with the longest match among these |
| TrieAnswers.TrieReplies | shared/trie.go:197-227 | for any list of tokens, in any order and with repetitions, and all inputs: the answer, in terms of the tokens alone |
| TrieAnswers.LongestIffOwn | shared/trie.go:197-227 | any list of tokens is answered with the longest match on all inputs exactly if it is on its own tokens |
| Trie.BranchTokenIsLost | shared/trie.go:108-111 | an example: after "ab" and "ac" the token "a" ends on a branch node and is not found |
| Trie.ShorterTokenAnswers | shared/trie.go:113-121 | an example: below a root without suffix a shorter token answers although a longer one was added |
| Trie.AddPathWellFormed | shared/trie.go:90-159 | splits, rotations and new leaves keep children distinguishable by their first byte |
| Trie.AddPathSized | shared/trie.go:90-159 | splits, rotations and new leaves keep path lengths equal to token lengths |
| TrieNodes.TrieNode.constructor | shared/trie.go:31-39 | the node for one token |
| TrieNodes.TrieNode.Insert | shared/trie.go:46-63 | the shifting loop puts a new child behind the last child with a longer path |
| TrieNodes.TrieNode.AddNewChild | shared/trie.go:41-63 | in place, the trie with one more leaf; all other nodes stay |
| TrieNodes.TrieNode.Replace | shared/trie.go:65-72 | the pointer to the old child becomes one to the new child; without such a child nothing changes |
| TrieNodes.TrieNode.AddPath | shared/trie.go:90-159 | in place, exactly the trie of the value model, with the parent following a new root |
| TrieNodes.TrieNode.Add | shared/trie.go:86-88 | the returned root is the old trie with the token added |
| TrieNodes.TrieNode.Match | shared/trie.go:163-193 | the node that is found has the length and payload of the value model's answer, or there is none |
| TrieNodes.TrieNode.MatchStart | shared/trie.go:197-227 | the same for prefixes |
| Automaton.LongestIsLongest | shared/parser.go:242-246 | looking at every token of a list finds the longest one that is a prefix, and the last of these |
| Automaton.SameRun | shared/parser.go:230-298 | parsing with tries makes the same moves, remainder, state and stack as parsing with plain lists |
| Automaton.RunIsLeftmost | shared/parser.go:242-291 | each move takes the first position at which its state finds a token, and a run finishes where none is left or in the stop state |
| Automaton.RunTiles | shared/parser.go:249-267 | every slice that any run takes is in range |
| Automaton.WindowsTile | shared/parser.go:257-267 | the closed read windows and the returned remainder make up the input |
| Automaton.CallsReadWindows | shared/parser.go:249-267 | in every run each callback is called once, from the state that found the token, with exactly the bytes since the last closed window, up to its token or with it |
| Automaton.RunIsPlaced | shared/parser.go:242-267 | in every run each move takes the first token behind the token before, or at it if that was only looked at; its window starts there or where the last one did; a run finishes in the stop state or when no token is left, and crashes only in a state without tokens |
| Automaton.RunMatches | shared/parser.go:269-291 | in every run each token is looked up in the state that the tokens before it lead to, and a pop leads back to the state that pushed last onto the level it takes away |
| Termination.HaltsIffNoReturn | shared/parser.go:242-291 | if Continue transitions do not pop, or do not push: parsing ends for all data, states and stacks exactly if on no data a chain of Continue transitions returns to its state |
| Termination.HaltsIffChainsEnd | shared/parser.go:257-263 | and that can be decided beforehand: exactly if the chains on the table's own tokens end within as many transitions as there are states |
| Termination.PushAndPopCanLoop | shared/parser.go:257-285 | with Continue transitions that push and others that pop this fails: a table whose chains end but on which parsing does not |
| StackTermination.HaltsIffNoCircle | shared/parser.go:242-291 | for every table: parsing ends for all data, states and stacks exactly if on no data the Continue transitions come back to a state and at most one state on top of the stack, to just that or without popping what is below |
| StackTermination.HaltsIffTokensDoNotCircle | shared/parser.go:257-285 | and it suffices to look at the tokens of the table as data |
| Termination.ReturnNeverEnds | shared/parser.go:257-263 | once a chain that returns is entered the loop never ends |
| Termination.LookupsOfLongestChain | shared/parser.go:242-291 | an input of n bytes takes at most n times as many lookups as the longest Continue chain has states |
| Automaton.TriesAreSane | shared/parser.go:243-248 | for tables filled in any order, answers are not empty, lie in the data and carry a transition |
| TransitionParsers.TransitionParser.GetStateID | shared/parser.go:171-186 | the number of a name, a new one for a new name; GetStateName inverts it |
| TransitionParsers.TransitionParser.AddTransition | shared/parser.go:217-225 | the state's token list grows by one token, no other state changes |
| TransitionParsers.TransitionParser.Add | shared/parser.go:206-209 | registers the next state first, then the state |
| TransitionParsers.TransitionParser.AddDirectives | shared/parser.go:199-203 | the machine that the list of directives describes |
| TransitionParsers.CompiledMeans | shared/parser.go:171-225 | in a compiled description each state has exactly the tokens of its directives, in order, and its transitions lead to the states they name |
| TransitionParsers.IdsAreStable | shared/parser.go:176-185 | state numbers never change |
| TransitionParsers.TransitionParser.Transit | shared/parser.go:269-285 | pop before push, and the popped state wins |
| TransitionParsers.TransitionParser.Parse | shared/parser.go:230-298 | for every run that ends: calls, remainder, final state and stack are those of the automaton, and it panics exactly where the automaton reaches a state without tokens |
| TransitionParsers.ParserRunByLists | shared/parser.go:230-298 | with tokens in order of length that automaton may look at plain lists: it ends exactly when they do, with the same outcome |
| TransitionParsers.ParseAlwaysReturns | shared/parser.go:230-298 | if moreover the Continue chains on the table's tokens end, Parse returns for all data, states and stacks, within the lookups that the longest chain allows |
| ByteTables.ParseIsScan | shared/parser.go:230-298 | for tables with one-byte tokens and only Push and Pop, Parse returns on all data, and its calls, remainder, state and stack are those of a scanner that takes one byte after the other |
| JsonEmitter.ApplyMatched | format/json.go:234-417 | each callback keeps the open brackets equal to the outer object plus the states on the stack |
| JsonEmitter.RunMatched | format/json.go:234-417 | after any sequence of callbacks every close has matched the innermost open bracket and the outer object is open |
| JsonEmitter.BalancedIffStackEmpty | format/json.go:421-446 | a formatted message leaves as many brackets open as there are states on the stack |
| JsonEmitter.BalancedIff | format/json.go:432-439 | a message is balanced exactly if behind the last callback, before the closing loop, nothing is on the stack but arrays and objects that wait for their first field |
| JsonEmitter.OpenObjectStaysOpen | format/json.go:432-439 | a message that is not: a key, an object in it, and a field behind which nothing ends the object |
| JsonEmitter.ComposedAreSimple | format/json.go:327-361 | the composed callbacks do in every state what their parts do one after the other |
| JsonEmitter.RunFeed | format/json.go:255-417 | what the callbacks of any value, blank or not, write after a name or inside an array, and the state they leave behind |
| JsonEmitter.FormattedDocument | format/json.go:421-446 | what Format writes for the simple or composed callbacks of any document, from whatever parser states, with or without blank val callbacks behind its values; the stack is empty again |
| JsonEmitter.WrittenLength | format/json.go:407-412 | without blank scalars the output has more tokens than the JSON text by exactly one null per field that follows a container in a nested object without a blank val between them; with one it has fewer than that |
| JsonEmitter.PrintsIffPreserved | format/json.go:421-446 | Format writes exactly the JSON text of a document, each string encoded for what its spelling means, if and only if no scalar is blank, no string is encoded differently as it is spelled and trimmed and, in nested objects, each container before the last field has a blank val behind it |
| JsonKeys.GeneratedKey | format/json.go:260-319 | a val, esc or dat where no value is expected and outside of arrays does what it does behind a key of the name of the parser state |
| JsonKeys.GeneratedContainerKey | format/json.go:363-393 | so does an arr or obj, except right behind the brace of an object, and the state without a key comes back behind it |
| JsonKeys.NameIsNotUsed | format/json.go:100-102 | where a value is expected, and in arrays, the name of the parser state makes no difference |
| JsonKeys.KeysAreGenerated | format/json.go:100-102 | any run of callbacks does what it does with the generated keys written out |
| JsonKeys.DatesAreStrings | format/json.go:321-325 | in any run a date is the string of its conversion |
| JsonKeys.NamesBecomeKeys | format/json.go:421-446 | for values without any key callback, dates and a remainder included, Format writes the object with the names of the parser states, and that is its JSON text exactly if the values are preserved and no blank value comes before all others |
| JsonKeys.ArrayWithoutKey | format/json.go:363-377 | an example: an array right behind the brace gets no key |
| JsonKeys.NothingIsEmpty | format/json.go:436-443 | without callbacks and remainder the object is empty, whatever is left on the stack |
| JsonFormatters.JsonFormatter.WriteKey | format/json.go:234-253 | closes all arrays, then null and comma as needed, then the name |
| JsonFormatters.JsonFormatter.ReadValue | format/json.go:260-288 | the value model's step for a bare value |
| JsonFormatters.JsonFormatter.ReadEscaped | format/json.go:290-319 | the value model's step for an escaped value |
| JsonFormatters.JsonFormatter.ReadArray | format/json.go:363-377 | the value model's step for an array start |
| JsonFormatters.JsonFormatter.ReadObject | format/json.go:379-393 | the value model's step for an object start |
| JsonFormatters.JsonFormatter.ReadEnd | format/json.go:395-417 | the value model's step for an end |
| JsonFormatters.JsonFormatter.Dispatch | format/json.go:255-417 | every callback in place is its step of the value model |
| JsonFormatters.JsonFormatter.Format | format/json.go:421-446 | message, state and stack of Format for any calls that a parser makes, and any remainder |
| JsonTable.TableIsCompiled | format/json_test.go:43-60 | the parser that Configure sets up for the JSON directives has this table of states and tokens |
| JsonTable.ReadsDocument | format/json_test.go:43-60 | on the text of any document without quotes in its strings and names, in any layout with blank space wherever RFC 8259 (section 2) allows it, the parser makes exactly that document's callbacks, returns to an empty stack and leaves over what follows |
| JsonTexts.ReadsIffUnbroken | format/json_test.go:43-60 | on any JSON text, escapes included, the parser makes the document's callbacks exactly if no string and no name has an escaped quote |
| JsonTable.FormatsDocument | format/json_test.go:43-60 | parser and callbacks together: for the text of any document without quotes in its strings and names, in any layout, Format writes that document exactly if no scalar in it is blank and no string changes when its spelling is trimmed and encoded instead of what it means |
| JsonEscapes.FormatsText | format/json_test.go:43-60 | for every JSON text in any layout, with bytes.TrimSpace and a json.Marshal that makes JSON strings of UTF-8 texts: Format writes the document exactly if no name has an escaped quote and no string is empty, has an escape (section 7 of RFC 8259), or has blank characters at its ends |
| JsonEscapes.EscapeIsEscaped | format/json.go:301-305 | an input on which it does not: the line feed in {"a":"\n"} |
| JsonEscapes.EscapedQuoteEnds | format/json_test.go:53 | another one: the escaped quote in {"a":"\""} |
| JsonTable.OuterSpaceIsLost | format/json.go:290-305 | and a third one: the blank space inside of the quotes in {"a":" x "} |
| JsonStrings.SameMeaningIff | format/json.go:291 | trimming its spelling gives what a string means exactly if it has no escapes and no blank characters at its ends |
| JsonMarks.RunAdds | format/json.go:234-417 | the scalars that any simple callbacks write are those of their data, in order, and every key adds a name |
| JsonTable.FormatsToItself | format/json_test.go:62-63 | for every compact document whose strings are not empty, need no escapes and have no blank space around them, Format writes its input |
| JsonTable.FormatMessage | format/json.go:421-446 | in place: on any bytes and from empty stacks, the parser with that table and the callbacks write what the value model says |
| Graphs.AddEdgeAcyclic | core/streamregistry.go:261-276 | a new edge keeps a graph acyclic exactly if its target does not reach its source |
| Graphs.BelowShrinks | core/producer.go:275-285 | along an edge of an acyclic graph less can be reached, so the search ends |
| Dependencies.Producer.AddDependency | core/producer.go:264-271 | a dependency is stored once |
| Dependencies.Producer.DependsOn | core/producer.go:275-285 | the recursive search ends and is the transitive closure of the stored dependencies |
| Dependencies.LinkDependencies | core/streamregistry.go:251-277 | the stored dependencies become those of the guarded insertion; they stay acyclic and free of duplicates |
| Dependencies.LinkAll | multiplexer.go:240-242 | the same for the loop over all producers |
| Dependencies.LinkedIsSound | core/streamregistry.go:261-276 | one call keeps the graph sound, removes nothing, and relates the parent to every producer of the stream |
| Dependencies.LinkedAllIsSound | multiplexer.go:240-242 | over any calls in any order the graph stays acyclic and duplicate-free, and every parent is related to all its children |
| Dependencies.LinkedAddsOnlyParents | core/streamregistry.go:261-276 | only edges from a child to its parent are added, and only between producers that were not related before |
| Shutdown.StepInv | core/producer.go:559-568 | every step of the stop protocol, and every message still enqueued, keeps the protocol invariant |
| Shutdown.StopsAfterDependencies | core/producer.go:559-562 | in every run a producer is Stopping or Dead only when all its transitive dependencies are Dead |
| Shutdown.ReturnedMeansStopping | multiplexer.go:361-370 | when shutdown has returned, every producer is at least Stopping and everything it depends on is Dead |
| Shutdown.ReturnsBeforeDead | multiplexer.go:369 | a run in which shutdown returns although a producer is still Stopping |
| Shutdown.SomeStepIsEnabled | multiplexer.go:361-370 | no deadlock: as long as shutdown is not complete a protocol step is possible |
| Shutdown.StaysEnabled | core/producer.go:507-519 | a possible protocol step stays possible under any other step until it is taken |
| Shutdown.StepMeasure | core/producer.go:559-568 | protocol steps decrease a measure that enqueued messages leave alone |
| Shutdown.RunIsBounded | multiplexer.go:361-370 | every run has a bounded number of protocol steps |
| Shutdown.CycleNeverStops | core/producer.go:507-519 | a producer on a cycle of dependencies never stops |
| Shutdown.ShutdownCompletesIffAcyclic | multiplexer.go:361-370 | some run completes exactly if the dependencies are acyclic |
| Shutdown.FairRunCompletes | multiplexer.go:361-370 | over acyclic dependencies every run, in which no possible protocol step is put off for ever, ends with all producers dead, however many messages are enqueued meanwhile |
| Shutdown.ConfiguredShutdownCompletes | multiplexer.go:240-242 | for every configuration of drop streams the linked producers can be shut down completely |
| Shutdown.ConfiguredFairRunCompletes | multiplexer.go:240-242 | and so does every fair run of producers that were linked by any configuration of drop streams |
| ProcessTsv.ParseLine | format/processtsv.go:248-282 | the loop computes the recursive parse: values, unmatched quote or panic |
| ProcessTsv.PrintLine | format/processtsv.go:291-300 | the values rendered and joined |
| ProcessTsv.PrintOfParse | format/processtsv.go:248-300 | whenever the quoted parse succeeds, printing gives back the original bytes, for every delimiter |
| ProcessTsv.ParseIsWellFormed | format/processtsv.go:248-282 | every successful parse yields well-formed values, for every delimiter |
| ProcessTsv.ParseOfPrintIffWellFormed | format/processtsv.go:248-300 | for every delimiter without a quote, parsing a print returns the values with their quoted flags exactly if they are well-formed |
| ProcessTsv.QuoteInDelimiter | format/processtsv.go:251-260 | with a quote as delimiter, well-formed values whose print is not parsed |
| ProcessTsv.ReadsOfByte | format/processtsv.go:248-300 | for a delimiter of one byte, well-formed means: unquoted values are without it and do not start with a quote, quoted ones have no quote in front of it, and an empty unquoted value is not last on its own or behind a quoted one |
| ProcessTsv.ParsesIffPrinted | format/processtsv.go:248-282 | a line is parsed exactly if it is the print of well-formed values |
| ProcessTsv.PanicsIffBreaks | format/processtsv.go:248-282 | a line makes the parser panic exactly if it is empty, ends behind the delimiter of a quoted value, or ends in an opening quote |
| TsvDelimiters.ParseOfPrintIff | format/processtsv.go:248-300 | for every delimiter, also one with quotes: parsing a print returns the values exactly if each closing quote is the first in front of a delimiter, and each run of unquoted values has clean parts, does not start with a quote, and ends at the first delimiter in front of a quote |
| TsvDelimiters.ParsesIffReadBack | format/processtsv.go:248-282 | for every delimiter a line is parsed exactly if it is the print of such values |
| TsvDelimiters.PanicsIffBreaksOff | format/processtsv.go:248-282 | for every delimiter a line makes the parser panic exactly if it is empty or such a line broken off behind the delimiter of a quoted value or in an opening quote |
| ProcessTsv.SplitOfJoinIff | format/processtsv.go:283-300 | without quotes, for every delimiter: splitting a join returns the parts exactly if there are some, and in none the delimiter begins before the one that follows |
| ProcessTsv.CleanOfByte | format/processtsv.go:283-300 | for a delimiter of one byte that means that no part contains it |
| MarshalMap.PathIsWalk | shared/marshalmap.go:331-401 | in values without empty names, resolving the printed path of any accessors is walking them, including failure |
| MarshalMap.PathIsThrough | shared/marshalmap.go:331-401 | in any value, resolving the printed path of any accessors selects what they select, where an index looks through the empty name of a map |
| MarshalMap.NameIsGoodIff | shared/marshalmap.go:335-355 | a single key selects its field in every value exactly if it is not empty and has no slash or bracket |
| MarshalMap.ResolvePathKey | shared/marshalmap.go:335-355 | the key ends in front of the first slash or bracket; the rest begins behind the slash or at the bracket |
| MarshalMap.PanicsIffNegative | shared/marshalmap.go:366-376 | a path makes resolution panic on some value exactly if, name by name and index by index, one comes to a negative index |
| MarshalMap.ResolveIsReading | shared/marshalmap.go:331-401 | for every path and every value: what the names and indices of the path select, nothing if the path is malformed where it gets to, and a panic exactly where it gets to a negative index of an array |
| MarshalMap.AtoiOfSigned | shared/marshalmap.go:368-371 | signs, and indices that an int can not hold |
| MarshalMap.AtoiOfDecimal | shared/marshalmap.go:368-371 | a printed index is read back |
| Rate.Filter.Accepts | filter/rate.go:124-168 | one stream takes its step, no other stream changes, and the answer is the one that is counted |
| Rate.Filter.UpdateMetrics | filter/rate.go:99-121 | every limited stream reports what it filtered, once |
| Rate.AccountedIff | filter/rate.go:109-157 | total rejections equal reported plus filtered plus max(0, count - limit) in every run, exactly if the limit is not negative |
| Rate.UpdateReportsAll | filter/rate.go:99-121 | behind an update everything but the rejections of the running window has been reported |
| Rate.IgnoredPasses | filter/rate.go:146-148 | all messages of an ignored stream pass, for every limit, and none is filtered or reported |
| Rate.StreamsAreSeparate | filter/rate.go:124-168 | over any operations of a filter, each stream is what its own messages and the updates have made of it since its first message, and exactly the configured ones are ignored |
| Rate.IgnoredAlwaysPass | filter/rate.go:85-93 | at any time a message of a stream that is configured to be ignored passes |
| Rate.FilterLimits | filter/rate.go:150-165 | in any second of a filter's life at most twice the limit of any other stream passes, whatever the other streams do |
| Rate.AnySecondOfARun | filter/rate.go:150-165 | within any second of any run at most twice the limit is accepted |
| Rate.ExactlyInARun | filter/rate.go:150-165 | the exact number: before the reset what is left of the old window, from the reset on the limit |
| Rate.TwiceTheLimitPasses | filter/rate.go:150-165 | for every limit there is a run in which that many pass |

## Left out

- Scheduling, spinner back-off and wall-clock timeouts: a spinning thread is one that can not move until its condition holds. Close and WaitForFlush are modelled without their timeout.
- MessageBatch is a step system on values, not a class: interleaving of threads has no counterpart in a sequential class. Memory ordering other than sequential consistency is not captured.
- 2^31 tickets within one epoch: runs are those in which no draw carries into the index bit; `MessageBatch.DrawKeepsInvIffNoCarry` shows the limit is exact.
- `ReachedSizeThreshold`, `ReachedTimeThreshold`, `Touch` and `Len`: they do not take part in the protocol. (`ReachedSizeThreshold` takes the larger of size and capacity, unlike its comment.)
- The spurious wake-up of a producer by Enqueue after its state was checked (`core/producer.go:416-437`): checking and enqueueing is one step in `Shutdown.dfy`.
- Other control commands that arrive during shutdown (roll, fuse), consumers and their shutdown, `onStop` callbacks that do not return.
- Headers cut inside an offset or delimiter: the original slices beyond the buffered bytes and may panic; the model calls the header incomplete, which is its answer wherever the slice is legal. Message lengths near 2^63 whose end does not fit an int are incomplete as well.
- Recognisers supplied by users: covered by every theorem about `Recogniser` values, under the stability condition these state.
- Empty delimiters in `ProcessTsv.dfy` (strings.Split then cuts between characters), the edit directives, timestamps and user agents.
- ProcessTsv.ParseOfPrintIffWellFormed: for delimiters without a quote in them; `ProcessTsv.QuoteInDelimiter` shows that the condition is a different one for others, and `TsvDelimiters.ParseOfPrintIff` states it for all.
- ProcessTsv.ParsesIffPrinted: the same; `TsvDelimiters.ParsesIffReadBack` covers all.
- ProcessTsv.PanicsIffBreaks: the same; `TsvDelimiters.PanicsIffBreaksOff` covers all.
- TrieMixed.LongestIffFits: for lists in which none of the first tokens, those with the same first byte, is added again behind the first token with another one; such a token can repair what was wrong before. `TrieAnswers.LongestIffOwn` covers every list.
- BatchProgress.FlushReturns: under strong fairness, which a scheduler of spinning threads need not grant; Close and Flush are modelled without the timeout.
- The text form of directives (`ParseTransitionDirective`), and callbacks that call back into the parser.
- TransitionParsers.TransitionParser.Parse: the run has to end, as the original does not return otherwise; the ghost argument bounds its iterations. `StackTermination.HaltsIffNoCircle` says for which tables all runs end. State numbers are assumed to fit 32 bits.
- JsonFormatters.JsonFormatter.Format: takes the callbacks the parser makes as a list instead of running the parser; the callbacks never touch the parser. `JsonTable.FormatMessage` runs it. Trimming, escaping and date conversion are opaque functions, and output is a list of tokens.
- JsonTable.FormatsDocument: strings and names have no quote in them; `JsonEscapes.FormatsText` covers every JSON text.
- JsonTable.ReadsDocument: the same; `JsonTexts.ReadsIffUnbroken` covers every JSON text.
- JsonTable.FormatsToItself: strings have no quote in them; with one the output is another document.
- JsonEscapes.FormatsText: of json.Marshal it is used that it makes a JSON string of every text in UTF-8, not which one (`JsonEscapes.UsualExists`: that can be had). Literals (numbers, true, false, null) are not checked: anything without structure that is not blank counts as one. Half a surrogate pair means U+FFFD, as in Go.
- JsonEmitter.PrintsIffPreserved: for an empty stack on entry. The stack is not cleared between messages, so `BalancedIffStackEmpty` is what a following message relies on.
- Map and array conversions of `shared/marshalmap.go` other than the path language, values that contain themselves, and map values of other Go types.
- Rate.Filter.Accepts: reads the clock once per call, where the original reads it up to three times; counters are unbounded and calls of one stream do not overlap. `lastLimit` and the drop stream are not part of the state.
- Itob, ItoLen, regular expressions, base64, encoding/json, protobuf, user agent and geoip formatting, file and console I/O, signals, metrics, logging, plugin registry and configuration.
