# A verified model of the Neo N3 hardware wallet app

The app runs on a small signing device. A host sends it a key path, a network magic and an unsigned Neo N3
transaction, cut into command-sized chunks. The device puts the chunks together, parses the transaction,
recognises two kinds of script, shows the user what the transaction does, and releases a signature when the user
approves. This project models that path from the first chunk to the signature and proves what it is for.
`dafny verify dfyconfig.toml` verifies all of it.

## The model

**Parsing.** The parser is modelled twice. `Deserialize.dfy` has it in the form of the source: a class for the read
cursor, a class for the transaction struct that is filled in place, nested loops with early returns. `Parsing.dfy`
has it as a machine that consumes one field at a time; every loop of the first refines a stretch of steps of the
second, for every input and for every prior content of the struct. `Wire.dfy` is a third, independent description: the
wire format as a grammar with a printer. The theorems connect the three. Parsing and printing are inverse in both
directions (`RoundTrip.dfy`). Since a varint has several forms for one number, a well-formed transaction carries the
bytes of its counts, and `PrintInjective` says that nothing else is left open. Accepted inputs are prefix-free, and a
parse into the struct that failed attempts left behind is as good as a parse into a zeroed one (`ParsingLaws.dfy`).
`UsedStruct.dfy` is about a parse into a struct that held anything before: what is then accepted, what the struct then
says about the bytes, and what is left in it.

**Scripts.** The two recognisers are methods over a cursor (`Scripts.dfy`) that decide exactly two byte languages,
which have no script in common (`ScriptLanguages.dfy`).

**The signing session.** `Session.dfy` says what one command or one button press does to the global context.
`SessionLaws.dfy` states the safety properties over whole runs, in terms of the log of commands and replies that an
observer of the device sees: `Exec` gives the state after a log, and `Payload`, `Magic`, `Path`, `Reviews` and `Setting`
read a log without looking at any state. `Answers.dfy` is about every single reply: what each command and each answer of
the user is replied to, what the screen waits for afterwards, and for which path a key is replied; `Paths.dfy` tells the
accepted paths from the bytes that ask for them. `GateLaws.dfy` is about every review and every signature of every run,
later ones of a session included, and about why approval was offered; `Continued.dfy` says which chunks reach another
review after an approval. `Device.dfy` is the device with its fields updated in place, each handler proved against
`Session.dfy`; `Host.dfy` is the sender.

**The review.** `ReviewItems.dfy` has the flat list of signer items and its local moves. The button front end
(`BaglCursor.dfy`, `BaglReview.dfy`) walks the list with four indices and a screen between two invisible delimiters;
the touch front end (`NbglReview.dfy`) stores the list in an array and reuses a few text slots. Both are proved to
present the same list. `Naming.dfy` is what a review says its script is, and when that is right. `Amounts.dfy` and
`ReviewTexts.dfy` are the decimal amounts that are shown. `ItemTexts.dfy` and `Shown.dfy` say what all of this tells about
the bytes that are signed: every text of a signer item leads to the bytes of that item, and every amount string reads as
the number of the transaction.

The platform is a parameter: hashing, key derivation and ECDSA are arbitrary functions in `Env`, and whether signing
fails is an input of the approval event. Commands are handled only while no review is pending; this is the explicit
enabling condition `Session.Enabled`. Pointers into the raw transaction are offsets.

## Where the code and its descriptions differ

The model follows the code.

- `doc/COMMANDS.md:90` limits the account of the path to 10; the code accepts up to 0x10 (`src/common/bip44.c:37`).
- `src/apdu/dispatcher.h:20-21` requires the path first and the magic second. The guards at `src/handler/sign_tx.c:50`
  and `:60` refuse only when both of their tests fail. `SessionLaws.GuardExactly` gives the exact condition under which
  a chunk is refused; `SessionLaws.OrderNotEnforced` is a run that leaves out the magic and is still reviewed.
- Arbitrary scripts are meant to be signed only when they are allowed, and a review is meant to say what its script is.
  Both ask two flags of the struct, the vote flag first (`src/ui/sign_tx_bagl.c:405-424`,
  `src/ui/sign_tx_nbgl.c:86-109` and `:239-240`). The struct is cleared when a session is opened
  (`src/handler/sign_tx.c:38`) and not after an approval, and a parse sets the flags but never resets them
  (`src/transaction/deserialize.c:175-182`). So the first review of a session is offered for the intended reasons and
  names its script rightly (`GateLaws.OfferedExactly`, `GateLaws.ReviewNamed`). A review after an approval in the same
  session may be offered because of the flag of the earlier transaction. It may also be named after it: a vote flag
  from before hides the amount and the destination of a transfer, a transfer flag makes a vote a transfer, and either
  of them names a script that is neither. `Naming.NameTold` says exactly when the name is right, and
  `Continued.SecondReviewExactly` which chunks reach such a review, for every hash function. `GateExample.GateFails` and
  `GateExample.NameFails` are runs in which it goes wrong.
- What else is left from the earlier transaction, or comes from a script that only starts like a transfer or a vote, is
  in `UsedStruct.HeldFrom` and `ScriptLanguages.RecogniseLeaves`: amount, destination, the NEO flag, which vote it is,
  and the sizes of lists that the new scope does not ask for.
- The touch front end does not show the candidate of a vote (`src/ui/sign_tx_nbgl.c:86-93`).
- A cut group key is reported with the status of the contracts (`src/transaction/deserialize.c:129`).
- The scan for a duplicate attribute looks at every announced slot, filled or not
  (`src/transaction/deserialize.c:154`). From a zeroed struct this amounts to at most one attribute.
- The operand of PUSHINT8 is read as signed and stored as unsigned (`src/transaction/tx_utils.c:28-29`).
  `ScriptLanguages.OneByteOperand` says exactly for which operands that makes no difference. An operand is shown as the
  number that it means if and only if it is not negative (`ReviewTexts.AmountShown`).
- A refused chunk 0 leaves the levels before the bad one, and zeroes after them; with a bad last level that is an account
  path other than the one requested. `Answers.PathRequested` says exactly when the path that signs is the one that
  was requested.
- `format_amount` can report success and leave no terminator. `Amounts.FormatExact` gives the exact room that it needs,
  and the exact lengths for which this happens.
- `chunkify` marks no chunk as the last one when the data is longer than a chunk and a whole number of chunks
  (`tests/standalone/apps/neo_n3_cmd_builder.py:20-29`). `Host.ChunksAre` gives the exact condition.
- `write_varint` leaves the one-byte form at 0xFC, one value before the table in `doc/TRANSACTION.md:41`
  (`Bytes.ShortestVarint`). The device reads both forms.

## Model

| member | source | states |
|---|---|---|
| RoundTrip.ParseOfPrint | src/transaction/deserialize.c:26-185 | from a zeroed struct, parsing the encoding of any well-formed transaction of at most 1024 bytes succeeds and the struct holds exactly that transaction: numbers, accounts, scopes, contracts, groups, attributes and script, every offset inside the buffer, and the flags classify its script |
| RoundTrip.PrintOfParse | src/transaction/deserialize.c:26-185 | conversely, every accepted input is, byte for byte, the encoding of a well-formed transaction (distinct accounts, fees not negative, counts within limits, GLOBAL alone, at most one attribute) that the struct then holds |
| RoundTrip.AcceptedExactly | src/transaction/deserialize.c:26-185 | an input is accepted if and only if it fits and is an encoding |
| RoundTrip.PrintInjective | src/transaction/deserialize.c:65-173 | two well-formed transactions of any length with the same bytes agree in all that matters |
| RoundTrip.Truncation | src/transaction/deserialize.c:34-173 | every strict prefix that the device can hold, of an encoding of any length, is rejected with the one status that is for the field that holds the cut; which status is for which field is spelled out |
| ParsingSteps.CutReported | src/transaction/deserialize.c:34-173 | every field has exactly one status for being cut, by status; a group has that of the contracts |
| ParsingSteps.CutLeaves | src/transaction/deserialize.c:34-133 | what a cut field leaves in the struct: a zero for a number, the pointer for an account, a contract or a group, and otherwise nothing |
| Deserializer.TransactionDeserialize | src/transaction/deserialize.c:26-185 | for every input and every prior struct the loops end with the status and the struct of the field machine that the theorems are about |
| Deserializer.ParseVersion | src/transaction/deserialize.c:31-40 | the version section is one step of the machine, or ends the parse as the machine does |
| Deserializer.ParseNonce | src/transaction/deserialize.c:42-44 | the same for the nonce |
| Deserializer.ParseSystemFee | src/transaction/deserialize.c:46-51 | the same for the system fee, refused when negative |
| Deserializer.ParseNetworkFee | src/transaction/deserialize.c:53-59 | the same for the network fee, refused when negative |
| Deserializer.ParseValidUntil | src/transaction/deserialize.c:61-63 | the same for the valid-until height |
| Deserializer.ParseSignerCount | src/transaction/deserialize.c:65-74 | the same for the signer count and its limits |
| Deserializer.ParseSigners | src/transaction/deserialize.c:75-133 | the outer loop takes the machine from the first account past the last signer |
| Deserializer.ParseSigner | src/transaction/deserialize.c:75-133 | one signer, with the sections its scope asks for |
| Deserializer.ParseAccount | src/transaction/deserialize.c:76-87 | the account pointer is stored before its bytes are checked; a repeated account is refused |
| Deserializer.ScanAccounts | src/transaction/deserialize.c:83-87 | the scan finds a duplicate if and only if an earlier signer has the same account bytes |
| Deserializer.ParseScope | src/transaction/deserialize.c:89-98 | the scope is stored, and refused when GLOBAL is not alone |
| Deserializer.ParseContracts | src/transaction/deserialize.c:100-115 | the loop over the allowed contracts |
| Deserializer.ParseGroups | src/transaction/deserialize.c:117-132 | the loop over the allowed groups, with the statuses the code gives |
| Deserializer.ParseAttributes | src/transaction/deserialize.c:135-161 | the attribute loop with its inner scan over all announced slots |
| Deserializer.ParseScript | src/transaction/deserialize.c:163-182 | the script section; the transfer recogniser is tried first and the vote recogniser only when it fails |
| ParsingLaws.RunExtends | src/transaction/deserialize.c:26-185 | a parse that did not run out of bytes ends the same way when bytes are appended, except that an accepted input becomes a length error |
| ParsingLaws.PrefixFree | src/transaction/deserialize.c:184 | no accepted input is a proper prefix of another, whatever the struct held before |
| ParsingLaws.LengthErrorExactly | src/transaction/deserialize.c:26-185 | an input is refused for its length if and only if it is longer than the buffer or a proper prefix of it is a whole transaction, whatever the struct held before |
| ParsingLaws.RunKeeps | src/transaction/deserialize.c:26-185 | what is in the struct at a location before the current field is still there at the end of the parse |
| ParsingLaws.Retry | src/transaction/deserialize.c:26-185 | after a failed parse, a successful parse of a longer input into the struct it left gives the result of a parse without the failed attempt; any starting struct |
| ParsingLaws.RetryClean | src/handler/sign_tx.c:73-90 | failed attempts on growing inputs keep the struct such that any later success equals the parse from zero |
| ParsingLaws.LongerIsRefused | src/transaction/deserialize.c:147-184 | a struct that still holds an accepted transaction refuses every longer input, and goes on holding it |
| Parsing.FollowingValid | src/transaction/deserialize.c:75-161 | wherever the parser goes next, its loop indices are below the counts it read and within the arrays |
| Bytes.VarintRoundTrip | tests/standalone/apps/utils.py:10-23 | every u64 the host writes as a varint is one varint and is read back, whatever follows it |
| Bytes.VarintForms | src/common/app_buffer.c:81-93 | the byte strings that are read as the number n are exactly its four forms, the shortest or not |
| Bytes.ShortestVarint | tests/standalone/apps/utils.py:10-23 | the host writes the shortest form of every number if and only if the number is not 0xFC |
| Bytes.ByteOrder | src/common/app_read.c:21-43 | which byte counts how much, in both byte orders |
| Bytes.FlagIsBit | src/transaction/deserialize.c:95-118 | a scope asks for contracts, groups or global rights by its bits 4, 5 and 7 |
| Bytes.SignedIsCast | src/common/app_read.c:21-43 | the signed reads give the one number of the signed range that is the unsigned one modulo the width |
| Buffers.Buffer.ReadSigned | src/common/app_buffer.c:26-79 | a signed read yields the two's complement of the bytes at the cursor and steps over them, or yields zero and does not move |
| Buffers.Buffer.ReadUvarint | src/common/app_buffer.c:81-93 | a varint of any of its forms is read and stepped over, or the value is zero and the cursor stays |
| Scripts.TryParseTransferScript | src/transaction/tx_utils.c:15-107 | the cursor loop leaves the struct that the transfer effect describes, partial results included |
| Scripts.ReadAmount | src/transaction/tx_utils.c:22-41 | the operand and the position after it, for the five pushes that are supported; others are refused |
| Scripts.TryParseVoteScript | src/transaction/tx_utils.c:109-176 | the same for the vote effect |
| ScriptLanguages.TransferExact | src/transaction/tx_utils.c:15-107 | for every struct: afterwards the transfer flag is set if and only if it was before or the whole script is in the transfer language; for such a script amount and destination are its own, and the token too unless a NEO flag was set before |
| ScriptLanguages.VoteExact | src/transaction/tx_utils.c:109-176 | for every struct: afterwards the vote flag is set if and only if it was before or the whole script is in the vote language; for such a script it says which vote and for which key |
| ScriptLanguages.Disjoint | src/transaction/deserialize.c:175-182 | no script is in both languages |
| ScriptLanguages.OrderIrrelevant | src/transaction/deserialize.c:175-182 | trying the recognisers in the other order gives the same flags and the same relevant fields for every struct without a flag from before; for the others, exactly when |
| ScriptLanguages.RecogniseExact | src/transaction/deserialize.c:175-182 | both recognisers together, for every struct: what the flags and the fields say afterwards, in terms of the two languages and the flags before |
| ScriptLanguages.MinimalPushAmount | src/transaction/tx_utils.c:24-41 | every amount from 0 to 2^63-1, pushed in its shortest form, is stored as that amount |
| ScriptLanguages.MinimalPushShortest | src/transaction/tx_utils.c:24-41 | that form means the amount, and no shorter push that is supported does |
| ScriptLanguages.RecogniseLeaves | src/transaction/tx_utils.c:15-176 | for every script and every struct, in a language or not: which amount, destination, NEO flag, kind of vote and candidate are left, by what the script starts with |
| ScriptLanguages.OneByteOperand | src/transaction/tx_utils.c:27-29 | the stored value of a one-byte operand is the intended signed value if and only if the byte is below 0x80 |
| ScriptLanguages.StoredAsMeant | src/transaction/tx_utils.c:24-41 | an operand of any width is stored as it was meant, except a negative one of one byte |
| UsedStruct.AcceptedInto | src/transaction/deserialize.c:26-185 | whatever the struct held, the accepted inputs are the encodings that fit, except that an attribute is refused when its slot holds one from before |
| UsedStruct.HeldFrom | src/transaction/deserialize.c:26-185 | whatever the struct held, an accepted input is an encoding whose transaction is what the struct shows; the struct holds exactly that transaction if and only if no list from before stands where the scope asks for none; the flags and fields of the recognisers in terms of those before, for scripts in no language too |
| UsedStruct.RunAlike | src/transaction/deserialize.c:26-161 | two parses of the same input that agree so far end alike, whatever else is in the structs |
| UsedStruct.CountKept | src/transaction/deserialize.c:100-132 | the size of a list that the scope does not ask for stays as it was |
| UsedStruct.ParseKeepsBounds | src/transaction/deserialize.c:65-145 | every parse, accepted or refused, leaves all counts within the arrays if they were so before |
| SessionLaws.UnionDiscipline | src/handler/sign_tx.c:50-62 | in every run from power-on: the memory holds a public key exactly while the request is for an address, no signing step has been made then, and the request is for a transaction exactly when a chunk 0 opened the current session |
| SessionLaws.Reassembly | src/handler/sign_tx.c:64-81 | before an approval the buffer is the concatenation of the chunks that were taken since chunk 0, at most 1024 bytes; refused chunks changed nothing; at most one review was reached, whatever chunks followed |
| SessionLaws.RetrySound | src/handler/sign_tx.c:73-92 | whatever parses failed before, the transaction under review is well formed, its encoding is exactly what was sent, and its classification is right |
| SessionLaws.SignedDigest | src/crypto.c:79-101 | the first approval of a session releases the signature over H(LE32(magic) ++ H(bytes sent and parsed)) with the path of the session, although buffer and hash are overwritten as scratch; the script is a transfer, a vote, or arbitrary scripts were allowed |
| GateLaws.OfferedExactly | src/ui/sign_tx_bagl.c:405-411 | every review of every run is of a well-formed transaction whose encoding is the buffer, with the hashes of the encoding and of its script; approval is offered if and only if arbitrary scripts are allowed, or its script is a transfer or a vote, or the session has been answered and a flag was already set when the last chunk came |
| GateLaws.SignatureNeedsGate | src/ui/action/validate.c:40-56 | every signature of every run is the reply to an approval, and one of these reasons holds for the script that it signs |
| GateLaws.SignedIsParsed | src/crypto.c:79-101 | every signature of every run, later ones of a session included, is over the magic in force and the hash of the encoding of the well-formed transaction under review |
| GateLaws.ReviewNamed | src/ui/sign_tx_nbgl.c:82-112 | every review of every run names its script as the struct before it decides, and rightly as long as the session has seen no approval |
| GateLaws.ReviewDisplayable | src/ui/sign_tx_nbgl.c:74-79 | every pending review of every run meets the bounds that both front ends rely on, and its fees do not wrap around |
| Continued.LastChunkExactly | src/handler/sign_tx.c:73-92 | in any session, whatever was parsed and signed before, a last chunk reaches a review if and only if it completes the buffer to an encoding that fits, with no attribute in a slot that holds one |
| Continued.SecondReviewExactly | src/handler/sign_tx.c:81-92 | for every hash function: after the first approval of a session, the same with the buffer given by the log, LE32(magic) ++ H(payload) ++ payload from its byte 36 on |
| GateExample.GateFails | src/handler/sign_tx.c:81-92 | a run in the documented order, without arbitrary scripts allowed, whose second signature is for a script in neither language; for every environment that hashes one byte string to the value given |
| GateExample.NameFails | src/ui/sign_tx_bagl.c:415-424 | the same, with a transfer that is reviewed as a vote |
| Answers.PendingExactly | src/ui/action/validate.c:28-61 | in every run the screen waits for exactly what the last reply announced; after an approval, a rejection or an answer about an address it waits for nothing, whatever the reply was |
| Answers.AnswersFollow | src/ui/action/validate.c:28-61 | an answer comes directly after the reply that asks for it, an approval after the start of a review that offers it, and nothing else comes there |
| Answers.SignatureFollowsReview | src/ui/action/validate.c:40-61 | a signature is the reply exactly to an approval that signs, directly after the last chunk that started a review with an approval; so none follows a rejection without a new review. A rejection is replied to as such and ends the progress |
| Answers.AnswerReplies | src/ui/action/validate.c:40-61 | signature, signing failure and rejection are the replies to exactly these answers; the progress is approved only with a signature |
| Answers.StageKept | src/handler/sign_tx.c:37-100 | in every run the progress in the context is the one that commands and replies tell |
| Answers.CommandRefused | src/apdu/dispatcher.c:33-86 | for which class, instruction, P1, P2 and data the dispatcher refuses a command, and with which status; a refused command changes nothing |
| Answers.OpeningReplies | src/handler/sign_tx.c:37-48 | every chunk 0 succeeds if and only if it asks for an account path, whatever came before |
| Answers.ChunkReplies | src/handler/sign_tx.c:49-92 | in every run with an open session, after approvals too: the magic succeeds if and only if it is complete; a transaction chunk is too long if and only if what was taken before and the chunk exceed the buffer, and otherwise succeeds, or leads to a review or a parsing error if it is the last |
| Answers.KeyRequested | src/handler/get_public_key.c:38-61 | a request for an account path with confirmation shows the address and keeps its key ready; without, it is replied with the key of that path; any other is refused with the status of its path |
| Answers.KeyReplied | src/handler/get_public_key.c:54-60 | over all runs a public key is replied if and only if an account path was asked for without confirmation, or an address was approved; it is the key of the path that was asked for |
| Answers.AddressAnswered | src/ui/action/validate.c:28-38 | an address is answered about directly after the request to show it; approved, the key of the path that was asked for is replied, and otherwise none |
| Answers.PathChecked | src/common/bip44.c:5-60 | in a session whose chunk 0 succeeded the path that signs is one of the account paths |
| Answers.PathRequested | src/handler/sign_tx.c:37-48 | in every run with an open session: chunk 0 succeeded if and only if an account path was asked for, and if and only if the path that signs is the one asked for and an account path |
| Paths.PathVerdict | src/common/bip44.c:5-60 | a path is accepted if and only if its bytes make an account path; otherwise the status is about the first level that does not fit |
| Paths.PathStored | src/common/bip44.c:5-60 | an account path is stored as it was asked for; of any other path the levels before the first one that does not fit, then zeroes |
| Paths.StoredExactly | src/common/bip44.c:5-60 | a path is accepted if and only if what is stored is the path asked for and an account path; what is stored is the path asked for if and only if its levels from the bad one on are zero; a bad last level leaves another account path |
| SessionLaws.GuardExactly | src/handler/sign_tx.c:49-62 | magic and transaction chunks are refused as out of order if and only if no session is open |
| SessionLaws.OrderNotEnforced | src/handler/sign_tx.c:59-62 | a concrete run: after a refused chunk 0 and no magic, any transaction that fits one chunk is put to review |
| SessionLaws.InvariantHolds | src/handler/sign_tx.c:36-136 | the session invariant over all runs: request, magic, path and setting are what the log says, the buffer is the payload, and the struct is as good as zeroed until a review and remembers the reviewed input afterwards |
| SessionLaws.StepKeepsValid | src/types.h:60-69 | every command and every answer keeps the union discipline and the bounds of the context |
| DeviceModule.Device.constructor | src/main.c:49-51 | power-on |
| DeviceModule.Device.ApduDispatcher | src/apdu/dispatcher.c:33-86 | the dispatcher with its handlers, in place, replies and changes the context as the specified step does |
| DeviceModule.Device.HandlerSignTx | src/handler/sign_tx.c:36-136 | the same for the three kinds of chunk |
| DeviceModule.Device.OpenChunk | src/handler/sign_tx.c:37-48 | chunk 0 clears everything, reads the path, and keeps what it stored of a refused one |
| DeviceModule.Device.MagicChunk | src/handler/sign_tx.c:49-58 | chunk 1; a short one leaves a zero magic and the state as it was |
| DeviceModule.Device.TxChunk | src/handler/sign_tx.c:59-81 | a chunk is appended in place, or refused without a change |
| DeviceModule.Device.ParseChunk | src/handler/sign_tx.c:81-131 | the last chunk parses into the struct, hashes the buffer and the script, and starts the review |
| DeviceModule.Device.HandlerGetPublicKey | src/handler/get_public_key.c:38-61 | clears the context and switches the union to the key; the key of the path is replied exactly for an account path without confirmation, and the address is put on screen exactly for one with confirmation |
| DeviceModule.Device.ReadPath | src/common/bip44.c:5-60 | the five levels are read in turn, with success exactly for an account path, which is then stored as it was asked for; otherwise the status is that of the first bad level, and the levels before it are stored |
| DeviceModule.Device.CryptoSignTx | src/crypto.c:71-115 | the scratch use of the buffer and of the hash, for success and for both failures |
| DeviceModule.Device.ValidateTransaction | src/ui/action/validate.c:40-61 | approve signs, reject does not; either way the review is over, and after a rejection the progress too. A signature is the reply exactly to an approval that signs |
| DeviceModule.Device.ReviewWithButtons | src/ui/sign_tx_bagl.c:449-454 | the review on the buttons, any presses: the approval event happens only after every screen of the transaction that is signed was shown, while the strings were its own; so every item of the transaction in the buffer was told by a text that leads to its bytes |
| DeviceModule.Device.ValidatePubkey | src/ui/action/validate.c:28-38 | the key is replied exactly when approved; either way the address is off the screen |
| Host.Chunkify | tests/standalone/apps/neo_n3_cmd_builder.py:13-29 | the loop yields the chunks of the recursive definition |
| Host.ChunksAre | tests/standalone/apps/neo_n3_cmd_builder.py:13-29 | the chunks make up the data, none is empty or too long; exactly the final one is marked last if and only if the data fits one chunk or is not a whole number of them, and otherwise none is |
| Host.FivePieces | src/apdu/dispatcher.h:22-26 | what the device can hold takes at most five chunks, so P1 stays within its maximum |
| Host.HostDeviceAgreement | tests/standalone/apps/neo_n3_cmd_builder.py:166-212 | for every well-formed transaction of at most 1024 bytes and every account path the commands of the host are all answered with success and the buffer is the transaction; it is put to review if and only if the host marks a last chunk, and then exactly that transaction is reviewed, for approval if and only if its script or the setting lets it, and an approval signs it with the path that was sent |
| ReviewItems.ParsedIsDisplayable | src/transaction/deserialize.c:65-133 | every transaction accepted into a struct with counts within the arrays meets the bounds that the screens rely on |
| ReviewItems.StopAtPosition | src/ui/sign_tx_nbgl.c:138-164 | every signer, contract and group of the transaction stands in the list, at the computed position |
| ReviewItems.PositionOfStop | src/ui/sign_tx_nbgl.c:138-164 | every entry of the list is a valid item and stands at its own position |
| ReviewItems.ListedExactly | src/ui/sign_tx_nbgl.c:138-164 | the list holds exactly the items of the struct |
| ReviewItems.ItemsOrdered | src/ui/sign_tx_nbgl.c:138-164 | the list is in strict order by signer, kind and number, so each item is there once |
| ReviewItems.MovesAreSteps | src/ui/sign_tx_bagl.c:76-165 | the local moves of the cursor are the steps by one along the list |
| ReviewItems.MovesInverse | src/ui/sign_tx_bagl.c:76-165 | forward then back, and back then forward, return to the same place |
| BaglCursor.Cursor.NextProp | src/ui/sign_tx_bagl.c:76-116 | from the indices of a stop the walk ends at the indices of the next one, in canonical position; the recursion ends |
| BaglCursor.Cursor.PrevProp | src/ui/sign_tx_bagl.c:118-165 | the same backwards |
| BaglCursor.Cursor.GetNextData | src/ui/sign_tx_bagl.c:167-215 | a move finds data exactly when it lands on an item, and the text tells that item of whatever transaction the struct shows: its own numbers and a place where its own bytes are |
| BaglCursor.IndicesInRange | src/ui/sign_tx_bagl.c:35-41 | the indices fit their machine types and stay within the arrays |
| BaglCursor.RepInjective | src/ui/sign_tx_bagl.c:35-41 | different stops have different indices |
| BaglReview.CreateTransactionFlow | src/ui/sign_tx_bagl.c:400-447 | the flow, which never exceeds its array; offered for approval it has each of the six fixed steps and the two answers exactly once, and the script hash exactly when it is asked for |
| BaglReview.FlowStepsOnce | src/ui/sign_tx_bagl.c:405-446 | the same for every flow, with the review step first and the answers last; without an approval there are only the error and the way out |
| BaglReview.Review.DisplayNextState | src/ui/sign_tx_bagl.c:217-277 | a delimiter moves the cursor one step in the right direction and leaves for the generic step exactly when there is an item, otherwise for the static neighbour; mode, indices and text stay together |
| BaglReview.Review.Enter | src/ui/sign_tx_bagl.c:371-380 | entering a step, a delimiter or not, leads to the next screen of the linear review and shows it |
| BaglReview.Review.Right | src/ui/sign_tx_bagl.c:217-277 | a press of the right button is one step forward in the linear review, or nothing at its end |
| BaglReview.Review.Left | src/ui/sign_tx_bagl.c:217-277 | a press of the left button is one step back, or nothing at the start |
| BaglReview.Review.PressAll | src/ui/sign_tx_bagl.c:449-454 | any sequence of presses keeps screen, mode, cursor and text in agreement with the linear review, all of which up to the current place has been shown |
| BaglReview.Review.BothButtons | src/ui/sign_tx_bagl.c:382-411 | approval is chosen only where it is offered, only for a transaction that the gate allows, and only after the six fixed steps by name, the steps of its vote or transfer, and for every signer its number, account, scope, contracts and groups have been on display |
| NbglReview.Review.constructor | src/ui/sign_tx_nbgl.c:82-165 | the loops fill the array with exactly the flat list and never exceed it; which title and final text are chosen |
| NbglReview.LabelsOnce | src/ui/sign_tx_nbgl.c:94-136 | each of the six fixed pairs is there exactly once, and so are destination and amount for a transaction that is named as a transfer |
| NbglReview.Review.AddSigner | src/ui/sign_tx_nbgl.c:140-163 | one round of the loop appends the items of one signer |
| NbglReview.Review.GetPair | src/ui/sign_tx_nbgl.c:177-231 | pair number `index` is the static pair or the signer item of that number, and the text of an item tells it, numbers and bytes; an item goes to the slot of its index |
| NbglReview.WindowKept | src/ui/sign_tx_nbgl.c:217-231 | for any window of as many consecutive pairs as there are slots, fetched in any order and any number of times, every fetched item still stands in its slot, with a text that tells it |
| ItemTexts.RenderTells | src/ui/sign_tx_common.c:22-91 | for every accepted input: each signer, contract and group of the transaction is a stop of the list, and its text has the item's own numbers and leads to the item's own bytes |
| ItemTexts.ListTells | src/ui/sign_tx_nbgl.c:138-164 | the list has every item of the transaction, and no other one unless the size of a list from before stands where the scope asks for none |
| Shown.AllTold | src/ui/sign_tx_bagl.c:167-277 | when all screens have been on display, every item of the transaction has been told by a text that leads to its bytes |
| Shown.ScreenTells | src/ui/sign_tx_bagl.c:167-215 | in the linear review the items come in the order of the list, each with a text that tells it |
| NbglReview.PairTells | src/ui/sign_tx_nbgl.c:177-231 | on the touch front end the pair of each item of the transaction has a text that tells it |
| Shown.PairForItem | src/ui/sign_tx_nbgl.c:138-231 | every item of the transaction has such a pair |
| Shown.FeesRead | src/ui/sign_tx_common.c:130-159 | the three fee strings read as decimal numbers whose values are the two fees of the transaction and their sum |
| Shown.TokenAmountRead | src/ui/sign_tx_common.c:99-113 | the amount string reads as the token and the number that `ReviewTexts.AmountShown` is about |
| Shown.SignedWasShown | src/ui/action/validate.c:40-51 | every signature of every run: if all screens of the review were on display with the prepared strings, the user was told every signer item and the fees of the transaction whose encoding is signed |
| Amounts.FormatAmount | src/common/app_format.c:24-60 | success exactly when the guard passes, and the whole content of the buffer afterwards |
| Amounts.FormatExact | src/common/app_format.c:24-60 | into a zeroed buffer: success with a terminated and complete text if and only if the buffer has at least decimals+3, digits+decimals+2, or digits+3 places, as the case may be; success without one for exactly the lengths given |
| Amounts.TextDenotes | src/common/app_format.c:33-57 | the text denotes exactly value/10^decimals |
| Amounts.TextShape | src/common/app_format.c:33-57 | digits around one point, the full number of decimals, no superfluous leading zero |
| Amounts.TextInjective | src/common/app_format.c:24-60 | different values are shown differently |
| ReviewTexts.ReviewStrings.StartSignTx | src/ui/sign_tx_common.c:130-159 | for every transaction the fee strings, and the amount of a transfer, are prepared, terminated and complete; the failure returns for amounts are never taken |
| ReviewTexts.FieldTerminated | src/ui/sign_tx_common.h:15-16 | ticker, amount and terminator fit the 30 byte field for every u64 |
| ReviewTexts.FeesInRange | src/ui/sign_tx_common.c:130-156 | for every accepted transaction, whatever the struct held before, neither the casts nor the sum of the fees wrap around |
| ReviewTexts.FeeTotal | src/ui/sign_tx_common.c:130-159 | for every accepted transaction, whatever the struct held before, the number read back from the shown total is the sum of those read back from the two shown fees |
| ReviewTexts.AmountShown | src/ui/sign_tx_common.c:99-113 | the shown amount of a push denotes what the push means if and only if that is not negative |
| Naming.TransferShown | src/ui/sign_tx_bagl.c:415-424 | for every accepted transfer, whatever the struct held before: both front ends show destination and amount if and only if no vote flag was set before; the values are those of the script, the amount if and only if it is not negative, the token if and only if it is NEO or no NEO flag was set before |
| Naming.ButtonsShow | src/ui/sign_tx_bagl.c:413-424 | the button front end shows the steps of the transfer or of the vote that the struct names, and no others |
| Naming.TouchShows | src/ui/sign_tx_nbgl.c:82-112 | the same for the pairs, title and final text of the touch front end |
| Naming.NameTold | src/ui/sign_tx_bagl.c:415-424 | for every parse into any struct, exactly when a transfer, a vote and any other script are named for what they are, in terms of the flags before |
| Naming.NamedExactly | src/transaction/deserialize.c:163-184 | every accepted input is an encoding and its script is named as `NameTold` says |

## Left out

- BaglCursor.Cursor.PrevProp: excludes the place before the first signer, from which the source would decrement an unsigned zero; `Left` and `Right` show that the delimiters never call it there.
- BaglReview.Review.DisplayNextState: is called only from the delimiters as the flow reaches them; `Left` and `Right` establish its conditions.
- SessionLaws.Reassembly: makes no claim between an approval and the next chunk 0, because signing overwrites the first 36 bytes of the buffer; `GateLaws.OfferedExactly` and `GateLaws.SignedIsParsed` cover later reviews and signatures.
- ReviewTexts.ReviewStrings.StartSignTx: leaves out the strings that are not amounts, which are the vote key, the network name, the valid-until height and the script hash.
- GateExample.GateFails: fixes the hash of one byte string to a value for which the bytes can be written down. SHA-256 is a parameter of the model, so it has no run for that hash function in particular; the condition for every hash function is `Continued.SecondReviewExactly`.
- GateExample.NameFails: the same.
- Scripts.TryParseTransferScript: keeps the 20-byte script hash where the source stores its base58check address, and reads into locals where the source uses a global union.
- Shown.SignedWasShown: takes as given that all screens were on display with the prepared strings, which `DeviceModule.Device.ReviewWithButtons` establishes for the buttons; turning the pages of the touch front end is not modelled.
- DeviceModule.Device.ValidateTransaction: assumes that approval comes only from a screen that offers it, which `BaglReview.Review.BothButtons` shows for the buttons.
- Concurrent commands: an incoming command while a review is pending is not part of this model; the enabling condition rules it out.
- Platform library: unsigned buffer reads, `buffer_seek_cur`, `buffer_move`, `varint_read`, `format_u64`, `snprintf` and the command parser are modelled by what they are documented to do, not by their code.
- Cryptography: SHA-256, ECDSA and key derivation are arbitrary functions; the failure of key derivation, which the source ignores, is not modelled.
- Pointers: offsets into the raw transaction, with zero for a null pointer; the parser reads a snapshot of the buffer, which nothing changes during a parse.
- Clearing memory: a cleared transaction member is a fresh struct object; the bytes behind the other member of the union are not modelled.
- The second check of request and state at `src/handler/sign_tx.c:126-129`: proved to be dead and asserted.
- Texts of the signer items: a screen is modelled by the bytes and numbers it shows, not by its hexadecimal, address or scope string.
- Network name, valid-until height, vote key and script hash strings: not modelled, so the script hash failure return is not either.
- Flow and paging machinery: the flow is a step index, a page within a step is not modelled, and the return to the generic step replaces the paging edge case.
- Touch front end: turning pages and the long press are not modelled; `GetPair` is the call-back that they use.
- Menus, version and name replies, settings storage, and the hexadecimal status words: constants or independent of the signing path.
- Redeem scripts and address encoding: not needed by any property here.
