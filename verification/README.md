# Solana app for Ledger devices: a verified model

The app turns untrusted bytes into screens a user signs. This project models the parts
where that is hard to get right, and proves what each promises:

* **Exact text** (`Decimal`, `Amounts`, `Printer`, `AmountCompare`, `Swap`, `Calendar`,
  `Numerals`, `Base58`): printed amounts are canonical decimals, comparing two printed amounts is
  comparing numbers, timestamps are real calendar dates, base58 has an inverse.
* **Commands from split APDUs** (`Apdu`, `ApduCommand`, `Assembly`): what a dispatched
  command holds after any run, and that the host's splitter is undone.
* **Reviewing and signing** (`Blockhash`, `Preview`, `Session`, `Answers`, `Device`): over
  every run a delayed signature covers what was reviewed, up to the blockhash, any other
  signature is of what the user confirmed, and what the host sends for a preview and its
  delayed command does end in the signature.
* **Parsers and validators** (`Wire`, `Parser`, `Offchain`, `Utf8`, `AgencData`,
  `Artifact`, `Agenc`): what is accepted is exactly what a serialized form is.
* **Swap descriptors** (`Walk`, `Instructions`, `Descriptors`): the saved queue is used in
  lockstep with the instructions, with capped amounts computed exactly.
* **Nothing hidden from the display** (`ComputeBudget`, `Dispatch`, `Message`, `Coverage`,
  `Items`, `FullDrawings`, `Summary`, `Slots`, `Screens`): every instruction is accounted for, the fee is exact, the
  screens are listed from the message's bytes, and exactly which transactions need more
  items than the summary has.

Code that updates state in place is a class or a method with loops; each is proved against
functions on values (`ReadHeader`, `Handle`, `Step`, `MaxFee`, ...), and the lemmas about
those functions carry the main results. What such a function takes from a message or an
APDU is also stated byte by byte and number by number (`OpeningIff`, `HeaderInBytes`,
`AgencIff`, `FollowsIff`, `ShownIsCovered`, ...). A reader is a function from the bytes left to a
value and the bytes left after it; the parser object is proved to advance as that function
says. Machine integers are subset types, and every wrap-around that can happen is written
out. `Bytes` holds the shared types.

`dafny verify dfyconfig.toml` checks the whole project.

## Where the code and what one would expect of it differ

* `rdn_to_ymd` also accepts the last 1187 day numbers of `uint32_t`, because its sums wrap,
  and `rfc3339_format` truncates the day number to 32 bits first. `Calendar.AcceptedDays`
  gives the exact set, `Calendar.WrappedTimestampAccepted` a timestamp far out of range
  that is accepted.
* The text comparison of amounts compares numbers whenever the longer integer part has no
  redundant leading zero (`Amounts.CompareNumeric`). In either place, a text is compared as
  a number with every text without redundant leading zeros exactly when it has none itself
  (`Amounts.FirstComparesNumericallyIff`, `Amounts.SecondComparesNumericallyIff`); "10"
  against "007" is one input where it is not (`Amounts.ZeroLedSecond`). Printed amounts have
  none.
* A compact length has several encodings and all are accepted; the top bit of a third
  byte is ignored. `Wire.LengthShortestIff` says when the encoding was the shortest,
  `Wire.LongZeros` gives two that are not.
* The descriptor-driven walk over a message never reads the count of address tables that
  ends a versioned message, so such a message is always refused:
  `Descriptors.VersionedIsRefused`.
* The size guard of `encode_base58` admits 64 bytes, but its work buffer has room for
  32 only. `Base58.EncodeBase58` reports a write outside the buffer exactly for 33 to 64
  bytes, whatever their values; callers pass 32.
* `print_token_amount` looks at the character before the buffer exactly when the buffer has
  room for one character: `Printer.PrintTokenAmount`.
* The summary has eleven general items. The AgenC printers refuse when none is left; all
  other setters, that of the fee among them, write through the missing item.
  `Slots.SlotsLeft` says which patterns leave none, at most one and at most two of them,
  `Slots.FeeFitsIff` and `Slots.WarningFitsIff` which transactions need more items than
  there are, `Slots.PrinterFailsIff` which the AgenC printers refuse.
  `Slots.StakeFeeOverruns` and `Slots.TaskFeeOverruns` give transactions whose fee has no
  item, `Slots.FullTaskRefused` a task that is refused beside an extension warning only.

## Model

| member | source | states |
|---|---|---|
| Calendar.RdnToYmd | libsol/rfc3339.c:34-57 | succeeds exactly on the days of years 0 to 9999 and the last 1187 values of the type, and in range yields the date that walking the Gregorian calendar day by day from 0000-12-31 reaches |
| Calendar.AcceptedDays | libsol/rfc3339.c:34-57 | the range check passes if and only if the day number is below 3652060 or at least 2^32 - 1187 |
| Calendar.BaumInRange | libsol/rfc3339.c:36-52 | the magic-constant arithmetic, wrap-around included, gives month, day and year of the calendar walk |
| Calendar.CalendarDateNumber | libsol/rfc3339.c:30-34 | the calendar walk reaches day number n after n days: the proleptic Gregorian day count of its date is n |
| Calendar.NextDayNumber | libsol/rfc3339.c:30-34 | the successor of a valid date, by the leap-year and month-length rules, has the next day number |
| Calendar.Rfc3339Format | libsol/rfc3339.c:61-116 | when it succeeds, and that for a day number below 3652060, wrapped or not, it writes exactly the 19 characters of the date and time of day and a NUL, nothing else |
| Calendar.ShownInRange | libsol/rfc3339.c:71-74 | in range, the day number written is not truncated: what is written is the timestamp |
| Calendar.ReadBack | libsol/rfc3339.c:61-116 | the text of a timestamp in range is a valid date and time, and reading it back gives that timestamp, so texts are unique |
| Calendar.EpochIs | libsol/rfc3339.c:61-76 | timestamps count from 1970-01-01, and the range ends with 9999-12-31 |
| Calendar.TextOrder | libsol/rfc3339.c:61-116 | dictionary order of the texts is the order of the timestamps |
| Calendar.WrappedTimestampAccepted | libsol/rfc3339.c:69-76 | a timestamp 2^32 days out is out of range and accepted all the same |
| Base58.EncodeBase58 | libsol/printer.c:125-167 | up to 32 bytes: writes one '1' per leading zero byte, the shortest base-58 numeral and a NUL, or reports that the room is too small and writes nothing; over 64: reports an error; a write outside the work buffer happens for exactly the lengths between |
| Base58.DivisionLoop | libsol/printer.c:141-156 | the repeated in-place division leaves the base-58 digits of the number in the buffer, at most two letters per byte, and stays inside the buffer exactly when twice the length fits |
| Base58.PadOnes | libsol/printer.c:157-162 | one letter per leading zero byte in front, inside the buffer exactly when the end of the numeral is |
| Base58.DivideBy58 | libsol/printer.c:143-150 | one in-place long division: quotient in the buffer, remainder out, value preserved |
| Base58.DecodeEncode | libsol/printer.c:125-167 | an independent base-58 decoder gives the input back |
| Base58.EncodeLength | libsol/printer.c:125-167 | 32 bytes need at most 44 letters |
| Base58.AlphabetTable | libsol/printer.c:119-123 | the letter at each index is that of the table |
| Base58.IndexOfLetter | libsol/printer.c:119-123 | the decoder finds each of the 58 letters at its own index, so they are distinct |
| Printer.PrintTokenAmount | libsol/printer.c:11-63 | writes the amount with its decimals and ticker untruncated, or fails exactly when they do not fit; looks before the buffer exactly for a buffer of one character |
| Printer.PrintAmount | libsol/printer.c:65-67 | the same for lamports with nine decimals and the SOL ticker |
| Printer.FitsIff | libsol/printer.c:11-41 | the buffer is large enough for the digits if and only if decimals + 2 < length and amount < 10^(length - 2) |
| Printer.FitsWithTickerIff | libsol/printer.c:43-62 | with a ticker, if and only if the final text, a space, the ticker and a NUL fit as well |
| Printer.EmittedIsReversed | libsol/printer.c:17-41 | the digits the loop emits from the low end are the reversed digits of the amount with the dot in its place |
| Printer.PrintU64 | libsol/printer.c:181-211 | writes the digits of the number, or fails exactly when they do not fit |
| Printer.PrintI64 | libsol/printer.c:169-179 | writes sign and digits, also for the most negative number, or the sign alone when there is room for no more, or fails exactly when that does not fit |
| Printer.IntShownInFull | libsol/printer.c:169-179 | with more room than sign and terminator take, what is written is the whole number |
| Printer.NatTextValue | libsol/printer.c:181-211 | the digits written have the number as their value and no redundant leading zero |
| Amounts.AmountTextDenotes | libsol/printer.c:11-63 | the text of an amount is canonical and denotes amount / 10^decimals |
| Amounts.CanonicalUnique | libsol/printer.c:11-63 | two canonical texts of the same number are equal |
| Amounts.PrintedEqual | src/swap/handle_swap_sign_transaction.c:109-131 | two amounts print alike if and only if amount / 10^decimals is the same number |
| Amounts.CompareNumeric | libsol/printer.c:254-346 | the text comparison is the comparison of the numbers when the integer parts are equally long or the longer one has no redundant leading zero |
| Amounts.PrintedCompare | libsol/printer.c:254-346 | comparing two printed amounts x, d and y, e is x * 10^e >= y * 10^d |
| Amounts.FirstComparesNumericallyIff | libsol/printer.c:254-346 | a decimal text in the first place is compared as a number with every decimal text without redundant leading zeros if and only if it has none itself |
| Amounts.SecondComparesNumericallyIff | libsol/printer.c:254-346 | the same for a text in the second place |
| Amounts.ZeroLedSecond | libsol/printer.c:254-346 | "10" is not found to be at least "007" |
| AmountCompare.ValidateNumericPart | libsol/printer.c:220-252 | accepts exactly digits, or digits, one dot and digits, and finds the dot |
| AmountCompare.CompareNumbers | libsol/printer.c:295-346 | the index loops decide the text comparison: integer lengths first, then digits with fractions padded |
| AmountCompare.AmountAsStringIsGreaterOrEqual | libsol/printer.c:254-346 | true exactly for two well-formed amounts with the same ticker of which the first is the greater or equal text; null and malformed input is false |
| AmountCompare.GeIff | libsol/printer.c:254-346 | two texts compare if and only if they are decimal texts, each with one space and one non-empty ticker after it, the ticker the same, and the first number the greater or equal text; null compares with nothing |
| AmountCompare.DecimalIff | libsol/printer.c:220-252 | a decimal text is digits, with a dot between two of them or none |
| AmountCompare.PrintedGe | libsol/printer.c:254-346 | for printed amounts with one ticker the whole function is x * 10^e >= y * 10^d |
| AmountCompare.PrintedSame | libsol/printer.c:11-63 | two printed amounts with tickers are the same text if and only if tickers and numbers agree |
| Swap.SwapContext.CheckSwapAmount | src/swap/handle_swap_sign_transaction.c:109-131 | accepts exactly the text that the validated amount prints as |
| Swap.SwapContext.CheckSwapAmountRaw | src/swap/handle_swap_sign_transaction.c:133-148 | accepts exactly the validated amount of an initialized swap |
| Swap.SwapContext.GetSwapAmountRaw | src/swap/handle_swap_sign_transaction.c:150-157 | gives the validated amount, and fails exactly when no swap is set up |
| Swap.SwapContext.CheckSwapFee | src/swap/handle_swap_sign_transaction.c:180-197 | compares the shown fee with the validated fee as printed |
| Swap.FeeCheckIsExact | src/swap/handle_swap_sign_transaction.c:180-197 | for printed SOL fees that check is shown <= validated |
| Swap.AmountCheckIsExact | src/swap/handle_swap_sign_transaction.c:109-131 | for printed amounts the amount check is: same ticker and equal rationals |
| Swap.SolAmountFits | src/swap/handle_swap_sign_transaction.c:180-190 | every lamport amount fits a 27-character buffer, so the fee check never fails for room |
| Apdu.FrameIff | src/apdu.c:4-92 | an APDU parses to a header if and only if it is the one framing of that header, short or deprecated |
| Apdu.PathRoundTrip | src/utils.c:56-94 | a derivation path as the host writes it is read back, whatever follows |
| Apdu.PathIff | src/utils.c:56-94 | a path is read if and only if the data starts with its length and big-endian words, two to five, the first 44' and 501' |
| Apdu.PathCode | src/utils.c:56-94 | the code of data that is no path, by the first check that fails |
| Apdu.FrameCode | src/apdu.c:4-92 | the code of an APDU that is no frame: size, class byte or instruction |
| Apdu.InstructionNumbers | src/globals.h:57-70 | which instruction numbers exist, may be split, have a path, have no payload |
| Apdu.OpeningIff | src/apdu.c:137-298 | an opening chunk is accepted if and only if its data is the count of paths, a path and a body below 15360 bytes, with its length for the deprecated instruction; then the command is just that |
| Apdu.ContinuationIff | src/apdu.c:177-265 | a continuing chunk is accepted if and only if it continues the command in progress with the same instruction and flags and the message stays below 15360 bytes; then its body is appended |
| Apdu.ChunkCode | src/apdu.c:137-298 | the code of a chunk that is refused |
| Apdu.HandledFlags | src/apdu.c:137-298 | instruction, confirm flag, phase, preview mark and token-account flag of an accepted command, by the bits of p1 and p2 |
| ApduCommand.ReadDerivationPath | src/utils.c:56-94 | reads 2 to 5 big-endian words that start 44'/501', or gives the code of the check that fails |
| ApduCommand.ApduCommand.HandleMessage | src/apdu.c:137-298 | the in-place update of the command is the specified transition, errors included, and a complete payload is NUL-terminated |
| Assembly.RunAssembles | src/apdu.c:137-298 | invariant of every run: the command in progress is assembled from the chunks since some opening chunk |
| Assembly.DispatchedIsAssembled | src/main_application.c:49-121 | whenever a command with a payload is dispatched, its message is the in-order concatenation of the chunks since the last opening one, all of one instruction and confirm flag, with one valid path from that chunk |
| Assembly.SolanaSend | examples/example-sign.js:156-192 | the host's loop sends exactly the specified chunks with their flags |
| Assembly.SplitJoin | examples/example-sign.js:243-257 | feeding those chunks from any prior state stays in progress until the last, then the command holds exactly the path and message |
| Assembly.PubkeyJoin | examples/example-sign.js:239-241 | the public-key request is one APDU and arrives as exactly its path |
| Blockhash.PrefixLocal | libsol/parser.c:155-169 | the position of the blockhash depends on nothing from the blockhash on |
| Blockhash.ReplaceBlockhash | src/handle_sign_message_preview.c:24-56 | replacing only the blockhash changes neither its position, the rest of the header, the instruction bytes nor the fingerprint input |
| Blockhash.SameZeroed | src/handle_sign_message_preview.c:24-56 | two messages with the same fingerprint input differ at most in the 32 blockhash bytes |
| Preview.DelayedSignatureIsCovered | src/handle_sign_message_preview.c:142-183 | over every run: a delayed signature rests on a preview that was the last command dispatched before and that the user approved since, with the same path and the same message up to the blockhash, unless the digest collides |
| Preview.PendingIsLastDispatched | src/main_application.c:49-121 | over every run: the command under review is the last one dispatched |
| Preview.SignedMessageIsAssembled | src/handle_sign_message_preview.c:142-183 | over every run: the message of a delayed signature is the in-order concatenation of the chunks of the delayed command, and the one reviewed before is that of the chunks of its preview |
| Preview.CommandIsRun | src/main_application.c:49-121 | over every run: the command is what reassembly makes of the APDUs handled, reviews and refusals in between or not |
| Preview.OneSignaturePerApproval | src/handle_sign_message_preview.c:186-190 | between two delayed signatures there is a fresh preview and its approval, which the second rests on |
| Preview.FingerprintOrigin | src/handle_sign_message_preview.c:103-140 | a stored fingerprint is that of an approved preview since which nothing was dispatched |
| Preview.NewBlockhashIsAccepted | src/handle_sign_message_preview.c:60-101 | after an approval the same message with any other blockhash is signed |
| Preview.ApprovalIsHonoured | src/handle_sign_message_preview.c:142-183 | conversely, over every run: once a preview is approved, the delayed command for it is signed with any blockhash, however it is split and whatever was rejected meanwhile, if nothing else was dispatched |
| Preview.MarkSoundAlways | src/main_application.c:49-121 | invariant of every run: only preview commands carry the preview mark, and no fingerprint is kept while a review is pending |
| Answers.PlainSignatureIff | src/ui/sign_message_nbgl.c:94-129 | over every run: a message is signed at once if and only if the user confirms the pending review of it, it is no preview, and the signature succeeds |
| Answers.PlainSignatureIsReviewed | src/ui/sign_message_nbgl.c:94-129 | over every run: what is signed at once is path and message of the last command dispatched, which the user reviewed and confirmed, assembled from the chunks since some opening one |
| Answers.ChoiceAnswer | src/ui/sign_message_nbgl.c:94-129 | over every run: the answer and the state after a choice; a refusal is answered 0x6985, signs nothing and keeps no fingerprint |
| Answers.UnderReview | src/main_application.c:49-121 | over every run: a pending review is of a complete command whose confirmation was not waived, outside a swap, with a readable header or an off-chain message |
| Answers.PartAnswer | src/main_application.c:49-121 | over every run: an APDU that completes nothing is answered with its error, which clears the command, or with 0x9000, and the fingerprint stays |
| Answers.CommandAnswer | src/main_application.c:49-121 | over every run: any completed command but a delayed one drops the fingerprint, and exactly when it starts a review |
| Answers.DelayedAnswer | src/handle_sign_message_preview.c:60-190 | over every run: a delayed command drops the fingerprint and is answered with the code of the first check that fails, or with the signature |
| Answers.DelayedSignatureIff | src/handle_sign_message_preview.c:60-190 | over every run: a delayed signature is given if and only if a completed delayed command matches the stored fingerprint and the signature succeeds |
| Session.PreviewThenSign | examples/example-sign.js:243-257 | after any run outside a review: the chunks of a preview, its approval and the chunks of the delayed command with another blockhash end in the signature of that message |
| Session.PreviewReachesUser | src/main_application.c:49-121 | after any such run the chunks of a preview end in the question to the user |
| Session.FedIsStreamed | src/main_application.c:49-121 | APDUs that complete a command: none but the last dispatches, the stored fingerprint stays until then, and the last dispatches the command |
| Device.HashMessageWithZeroedBlockhash | src/handle_sign_message_preview.c:24-56 | hashes the message with its blockhash zeroed, and fails exactly when the header does not parse |
| Device.Device.VerifyDelayedMessageMatchesPreview | src/handle_sign_message_preview.c:60-101 | the status code of the first check that fails: length, path, header, digest |
| Device.Device.HandleSignMessageDelayed | src/handle_sign_message_preview.c:142-190 | the specified answer, and the fingerprint is gone afterwards whatever it was |
| Device.Device.StorePreviewFingerprint | src/handle_sign_message_preview.c:103-140 | stores the fingerprint of the current command, or nothing |
| Device.Device.ReviewChoice | src/ui/sign_message_nbgl.c:94-129 | the update is the protocol step for the user's answer; a refusal is answered 0x6985 with nothing kept, an approved preview with 0x9000 or 0x6a80, any other with the signature or 0x6801 |
| Device.Device.HandleApdu | src/main_application.c:49-121 | the in-place update is the specified step of the protocol |
| Wire.MessageRoundTrip | libsol/message.c:76-81 | a serialized message is read back as the same header and instructions, consuming exactly its bytes whatever follows |
| Wire.HeaderRoundTrip | libsol/parser.c:155-169 | the same for the header of a legacy or versioned message |
| Wire.InstructionsRoundTrip | libsol/parser.c:220-225 | the same for a list of instructions |
| Wire.LengthRoundTrip | libsol/parser.c:51-65 | the shortest encoding of every length below 2^21 is read back |
| Wire.LengthShortestIff | libsol/parser.c:51-65 | the bytes a length was read from were the shortest encoding if and only if the last of them is 1 to 127, or is the only one |
| Wire.LongZeros | libsol/parser.c:51-65 | two longer encodings of zero are read as zero |
| Wire.LengthInBytes | libsol/parser.c:51-65 | how many bytes a length takes and its value, byte by byte |
| Wire.U64InBytes | libsol/parser.c:21-44 | the value of eight bytes, the least significant first |
| Wire.KeysInBytes | libsol/parser.c:98-124 | counts and keys are read if and only if no more signatures than keys are required, no more signers are read-only than there are, no more others than there are, and all keys are there |
| Wire.HeaderInBytes | libsol/parser.c:133-169 | version byte if its top bit is set, counts and keys, 32 bytes of blockhash, number of instructions |
| Wire.InstructionInBytes | libsol/parser.c:212-225 | program index, accounts and data, each with its length |
| Parser.Parser.ParseU8 | libsol/parser.c:14-19 | advances the cursor as the reader says |
| Parser.Parser.ParseU16 | libsol/parser.c:21-27 | advances the cursor as the little-endian reader says |
| Parser.Parser.ParseU32 | libsol/parser.c:29-35 | the same for 32 bits |
| Parser.Parser.ParseU64 | libsol/parser.c:37-44 | the same for 64 bits |
| Parser.Parser.ParseLength | libsol/parser.c:51-65 | the same for compact lengths of up to three bytes |
| Parser.Parser.ParseOption | libsol/parser.c:67-79 | accepts the tags 0 and 1 and no other |
| Parser.Parser.ParsePubkeysHeader | libsol/parser.c:98-107 | the three counts and a length that fits 16 bits |
| Parser.Parser.ParseVersion | libsol/parser.c:133-145 | consumes a byte only when its top bit is set |
| Parser.Parser.ParseMessageHeader | libsol/parser.c:155-169 | reads the header as specified and reports the position of the blockhash |
| Parser.Parser.ParseData | libsol/parser.c:212-218 | a length and that many bytes |
| Parser.Parser.ParseInstruction | libsol/parser.c:220-225 | an instruction as specified |
| Offchain.OffchainIff | libsol/parser.c:171-210 | the header is read if and only if the bytes start with its one serialized form, and the text then starts offchain_message_header_length bytes in |
| Offchain.ParseOffchainMessageHeader | libsol/parser.c:171-210 | advances the cursor as that reader says |
| Offchain.AscendingDistinct | libsol/parser.c:195-204 | the check of adjacent signers makes all signers pairwise distinct |
| Offchain.BytesLessIff | libsol/parser.c:195-204 | one key is less than another if and only if it is in the first byte that differs |
| Offchain.DomainIs | libsol/offchain_message_signing.c:4-5 | the domain is 0xff and the text |
| Offchain.GetPubkeyIndex | src/utils.c:42-54 | finds the first match, and fails exactly when there is none |
| Offchain.OnlyMatch | src/utils.c:42-54 | from version 1 on the match is the only one |
| Utf8.IsDataUtf8 | libsol/string_utils.c:7-50 | accepts exactly the concatenated encodings of Unicode scalar values other than U+FFFE and U+FFFF, at any length |
| Utf8.IsDataAscii | libsol/string_utils.c:55-66 | accepts exactly strings of printable ASCII characters and line feeds |
| Utf8.StepIsCharacter | libsol/string_utils.c:10-46 | what the loop steps over is the encoding of one allowed character |
| Utf8.CharacterIsStep | libsol/string_utils.c:10-46 | the loop steps over the encoding of any allowed character and no further |
| Utf8.StepKeepsText | libsol/string_utils.c:7-50 | the rest after a step is a text exactly when the whole was |
| Utf8.TextConcat | libsol/string_utils.c:7-50 | accepted strings are closed under concatenation |
| Utf8.AsciiIsText | libsol/string_utils.c:52-66 | every accepted ASCII string is an accepted UTF-8 string |
| Utf8.ReadingUnique | libsol/string_utils.c:7-50 | an accepted string encodes one character sequence only |
| Utf8.CharactersAre | libsol/string_utils.c:7-50 | the allowed characters by range, and the bytes of the first and last of each length |
| Utf8.AsciiByteIff | libsol/string_utils.c:52-66 | a byte is accepted if and only if it is a line feed or between space and tilde |
| Artifact.DecodeArtifactResultHash | libsol/agenc_instruction.c:141-176 | true with hash h in the output exactly when the field starts with the prefix, the 43 base64url characters of h with zero pad bits, and a NUL |
| Artifact.ScanIff | libsol/agenc_instruction.c:153-175 | the bit accumulator ends empty with hash h in the output if and only if the text is the base64url form of h |
| Artifact.ScanBounds | libsol/agenc_instruction.c:156-173 | the accumulator stays below 2^bits and the bound check on the output never fires on 43 characters |
| Artifact.EncodeInjective | libsol/agenc_instruction.c:141-176 | no two hashes have the same text |
| Artifact.ValueInverts | libsol/agenc_instruction.c:122-139 | a character has the value v if and only if it is the v-th of the alphabet |
| Artifact.AlphabetIs | libsol/agenc_instruction.c:122-139 | the alphabet runs through A-Z, a-z and 0-9 and ends with - and _ |
| Artifact.PrefixIs | libsol/agenc_instruction.c:141-152 | the prefix as a text |
| AgencData.AgencDataIff | libsol/agenc_instruction.c:449-510 | data is accepted as some kind and fields if and only if it is their serialized form: strict option tags, zero description tail, no trailing byte |
| AgencData.KindIff | libsol/agenc_instruction.c:463-504 | the chain of discriminator comparisons finds exactly the kind whose discriminator it is |
| AgencData.DiscriminatorsAre | libsol/agenc_instruction.c:31-50 | the eight bytes that the data of each instruction starts with |
| AgencData.OptionalFixedIff | libsol/agenc_instruction.c:88-120 | an optional hash, key or result is read if and only if the bytes start with its form |
| AgencData.OptionalTextIff | libsol/agenc_instruction.c:178-199 | the same for optional strings |
| AgencData.DescriptionIff | libsol/agenc_instruction.c:254-262 | a description is a 32-byte commitment followed by 32 zero bytes |
| Agenc.ParseAgencInstructions | libsol/agenc_instruction.c:449-510 | accepts exactly the serialized fields of one of the ten kinds with that kind's accounts, sent to the AgenC program; reports the fields, the accounts, the artifact hash and the worker count |
| Agenc.AccountsIff | libsol/agenc_instruction.c:201-215 | accounts are accepted as keys if and only if there are as many as the kind takes and the j-th key is the 32 bytes of the message that the j-th account names (the last of an accepted result: account 20), with 32 zero bytes in the slot of the system program |
| Agenc.AgencIff | libsol/agenc_instruction.c:449-510 | an instruction is reported if and only if the 32 bytes its program index names are the program id, its data is the serialized form of well-formed fields, and its accounts name the keys reported |
| Agenc.ArtifactUnique | libsol/agenc_instruction.c:346-360 | one artifact hash at most can be shown for a result |
| Agenc.ProgramIdIs | libsol/agenc_instruction.h:11-14 | the program id |
| Agenc.ParseRegisterAgent | libsol/agenc_instruction.c:228-233 | advances the cursor as the reader of these fields says |
| Agenc.ParseCreateTask | libsol/agenc_instruction.c:251-269 | the same |
| Agenc.ParseConfigure | libsol/agenc_instruction.c:286-290 | the same |
| Agenc.ParseSetJobSpec | libsol/agenc_instruction.c:309-311 | the same |
| Agenc.ParseSubmit | libsol/agenc_instruction.c:346-348 | the same |
| Agenc.ParseReject | libsol/agenc_instruction.c:398-399 | the same |
| Instructions.InstructionValidate | libsol/instruction.c:53-59 | accepts exactly when the program and all accounts name keys of the message |
| Descriptors.SafeMulIsExact | libsol/safe_math.c:20-43 | the split-word arithmetic gives the floor of a * b / 10000, and fails if and only if that exceeds 2^64 - 1 |
| Descriptors.SavedDescriptors.Save | src/handle_provide_instruction_descriptor.c:74-109 | appends to the queue exactly when there is room and all saved before share the network and template |
| Descriptors.KeptAre | src/handle_provide_instruction_descriptor.c:74-109 | over every run of requests the queue holds the first fifteen that share network and template with the very first; the runs include those that go on after a refused request, where the application exits (src/handle_provide_instruction_descriptor.c:403-416) |
| Descriptors.KeptIff | src/handle_provide_instruction_descriptor.c:74-109 | whatever is kept agrees with the first request in network and template, and no request that agrees is missing while there is room |
| Descriptors.SavedDescriptors.GetNext | src/handle_provide_instruction_descriptor.c:59-68 | hands out the saved descriptors in order, each once |
| Descriptors.ReadAmount | src/handle_provide_instruction_descriptor.c:418-476 | the little- or big-endian value of at most eight bytes at an offset from the start or the end, or failure exactly when there is no such field |
| Descriptors.AmountInIff | src/handle_provide_instruction_descriptor.c:418-476 | the amount is read if and only if the field of at most eight bytes lies inside the data, from the front or the end |
| Descriptors.ReversedEndian | src/handle_provide_instruction_descriptor.c:456-474 | the big-endian value of the reversed bytes is the little-endian value |
| Descriptors.EndiansInBytes | src/handle_provide_instruction_descriptor.c:456-474 | the value of the field, byte by byte, in both orders |
| Descriptors.CheckAmount | src/handle_provide_instruction_descriptor.c:536-582 | accepts exactly the swap amount, or with a cap any amount with amount * 10000 <= swap * bps whose cap fits 64 bits |
| Descriptors.ValidateInstruction | src/handle_provide_instruction_descriptor.c:478-712 | takes the next descriptor and accepts exactly the instructions that do what it allows for the validated swap |
| Descriptors.ProcessMessageBodyWithDescriptor | libsol/message.c:219-262 | accepts exactly a body that is one instruction per saved descriptor, instruction i following descriptor i, no byte left, when no descriptor was used before; then all are used |
| Descriptors.FollowsIff | src/handle_provide_instruction_descriptor.c:478-712 | an instruction is allowed if and only if, on the bytes: indices in range, program key and discriminator, amount of the swap or under the cap, and the key named by the account in each slot of the descriptor is the mint, the recipient, or a token account of the signer or the recipient |
| Descriptors.AuthorisedIff | libsol/message.c:219-262 | a body is accepted if and only if it is one instruction per saved descriptor, each allowed on its bytes, and no byte more |
| Descriptors.AllFollowIff | libsol/message.c:219-262 | as many instructions as descriptors can pass only when the queue was unused at the start |
| Descriptors.VersionedIsRefused | libsol/message.c:236-262 | a versioned message, which ends with an address-table count, is refused whatever was saved |
| Walk.WalkNext | libsol/message.c:76-81 | one step of the instruction loops: either the next instruction passes and the walk goes on, or the whole message is refused |
| ComputeBudget.BudgetIff | libsol/compute_budget_instruction.c:7-48 | data is read as one of the four instructions if and only if it starts with its form; bytes after it are not looked at |
| ComputeBudget.BudgetInBytes | libsol/compute_budget_instruction.c:7-48 | the four instructions byte by byte |
| ComputeBudget.ParseComputeBudgetInstructions | libsol/compute_budget_instruction.c:97-120 | what the instruction sets, with the signature count of the header |
| ComputeBudget.CalculateMaxFee | libsol/compute_budget_instruction.c:50-84 | without a price 5000 per signature; with a price p and u units also the floor of p * u / 10^6, u the limit or min(200000 per instruction, 1400000); refused if and only if p * u exceeds 2^64 - 1 |
| ComputeBudget.MaxFeeIs | libsol/compute_budget_instruction.c:50-84 | the same of the fee function the dispatcher is proved against |
| ComputeBudget.FeeLeavesRoom | libsol/transaction_printers.c:760-768 | the check of the sum never fires and the unchecked addition of the account rent never wraps |
| ComputeBudget.DefaultIsUncapped | libsol/compute_budget_instruction.c:62-69 | with at most six instructions the default of 200000 units each never reaches the cap |
| Dispatch.InstructionInfosMatchBriefs | libsol/instruction.c:89-99 | true exactly when every instruction matches its brief |
| Dispatch.MatchIsEquality | libsol/instruction.c:61-87 | an instruction matches a brief if and only if that is its own brief, and nothing matches the unknown one |
| Dispatch.FindPattern | libsol/transaction_printers.c:668-818 | the tests by the loop over briefs, in the order of the program, find the pattern of the list |
| Dispatch.PreprocessComputeBudgetInstructions | libsol/transaction_printers.c:609-645 | the loop takes off exactly the leading compute-budget instructions and collects their last settings |
| Dispatch.SettingsAreLast | libsol/transaction_printers.c:625-641 | the price and limit collected from a run are those set last, and none exactly when none was set |
| Dispatch.RunIsMaximal | libsol/transaction_printers.c:609-645 | what is taken off is the maximal leading run |
| Dispatch.PatternsExclude | libsol/transaction_printers.c:668-818 | the patterns exclude each other: a list is one pattern at most, so the order of the tests does not matter |
| Dispatch.PatternListsIff | libsol/transaction_printers.c:668-818 | a list is shown as a pattern if and only if it is one instruction of a program with a printer, or of the grammar by its last instruction, and the pattern is that of its ends |
| Dispatch.SettingsInForce | libsol/transaction_printers.c:609-645 | the fee of a list that is shown is that of the price and limit set last anywhere in it |
| Dispatch.PrintTransactionNonceProcessed | libsol/transaction_printers.c:647-831 | shows exactly the lists that are compute-budget instructions and a known pattern, with the exact fee |
| Dispatch.PrintTransaction | libsol/transaction_printers.c:833-852 | the same after an optional nonce advance |
| Dispatch.CoreIff | libsol/transaction_printers.c:647-852 | what is left after stripping is a pattern if and only if the list is an optional nonce advance, compute-budget instructions, and that pattern |
| Dispatch.NothingHidden | libsol/transaction_printers.c:833-852 | nonce advance, compute-budget run and the shown pattern of one to four instructions are the whole list |
| Dispatch.AllAccounted | libsol/transaction_printers.c:833-852 | every entry of the display list is the nonce advance, a compute-budget instruction, or the instruction shown at its place |
| Dispatch.LateBudgetRefused | libsol/transaction_printers.c:609-645 | a compute-budget instruction behind another kind refuses the transaction, unless that is a nonce advance at the start |
| Message.ProcessMessageBody | libsol/message.c:57-217 | shows a message if and only if every byte is read, every instruction is in range and recognised, and the display list is shown |
| Message.Understand | libsol/message.c:57-205 | the part before the display: reads and recognises everything, or finds what is not understood |
| Message.Collect | libsol/message.c:83-180 | the body of the loop keeps the two arrays equal to the recognised and the displayed instructions |
| Message.DisplayedIsFiltered | libsol/message.c:160-184 | every instruction is in the display list at its place in order, unless the program of its key is the memo or assert-owner program, or the token program whose parser sets the ignore flag |
| Message.DisplayedComesFrom | libsol/message.c:160-184 | every entry of the display list is one displayed instruction, at its place in order |
| Message.EveryInstructionAccounted | libsol/message.c:57-217 | of a message that is shown, every instruction is of the memo or assert-owner program, or a token instruction with the ignore flag, or the nonce advance, a compute-budget instruction or an instruction shown, each at its place in order |
| Message.ShownIsInMessage | libsol/message.c:57-217 | every instruction shown is one of the message, at its place in order |
| Message.FeeOfMessage | libsol/transaction_printers.c:647-658 | the fee shown, in numbers, of the settings made in the display list |
| Message.SettingsSignatures | libsol/transaction_printers.c:625-641 | the signature count collected from a run is that of its instructions |
| Coverage.ShownIsCovered | libsol/message.c:57-217 | of a message that is shown: one to six instructions, all indices in range, all recognised, nothing else but a zero table count; the instructions that are not of the memo or assert-owner program and not token instructions with the ignore flag are, in order, a nonce advance or none, compute-budget instructions, and those shown; a warning exactly when a token instruction asks for one |
| Coverage.CoveredIsShown | libsol/message.c:57-217 | conversely, a message of that shape is shown as its display list is |
| Coverage.LeftOutIff | libsol/message.c:83-184 | an instruction has no place on the screen if and only if the program of its key is the memo or assert-owner program, or the token program whose parser sets the ignore flag |
| Coverage.InfoIs | libsol/message.c:83-155 | what an instruction is recognised as, by the program that the 32 bytes of its key name |
| Coverage.FeeFromBytes | libsol/transaction_printers.c:647-658 | the fee shown is that of the last price and limit set by compute-budget instructions anywhere in the message, read from their bytes |
| Slots.SlotsLeft | libsol/transaction_printers.c:221-598 | for every pattern, a single instruction included: the printer sets at most eleven general items, and exactly which options of which patterns leave none, at most one, at most two |
| FullDrawings.FullSystem | libsol/system_instruction.c:273-564 | primary and general items of every system instruction, in order, with all options on |
| FullDrawings.FullStake | libsol/stake_instruction.c:379-630 | the same of the stake instructions |
| FullDrawings.FullVote | libsol/vote_instruction.c:197-326 | the same of the vote instructions |
| FullDrawings.FullTokenSetUp | libsol/spl_token_instruction.c:581-727 | the same of token set-up and transfers |
| FullDrawings.FullTokenSigned | libsol/spl_token_instruction.c:729-983 | the same of the other token instructions |
| FullDrawings.FullAgencTask | libsol/agenc_instruction.c:576-695 | the same of the AgenC instructions about tasks |
| FullDrawings.FullAgencResult | libsol/agenc_instruction.c:696-776 | the same of those about results |
| FullDrawings.FullReview | libsol/agenc_instruction.c:632-652 | a task with its review is drawn if and only if both name one task and one creator and the creator alone reviews; as the task and the review window |
| FullDrawings.FullCreateStake | libsol/transaction_printers.c:221-293 | the items of the patterns that create a stake account, in order |
| FullDrawings.FullCreate | libsol/transaction_printers.c:393-580 | the items of the other patterns that create an account |
| FullDrawings.FullSetOrSplit | libsol/transaction_printers.c:295-391 | the items of the patterns that set authorities or split a stake |
| FullDrawings.KeyHiddenIff | libsol/print_config.c:4-6 | the item of a key is left out if and only if the mode is not expert and the key is the signer's |
| FullDrawings.FunderHiddenIff | libsol/system_instruction.c:459-523 | when the funder, the owner program, base and seed are shown |
| FullDrawings.LockupHiddenIff | libsol/stake_instruction.c:579-601 | when a lockup is shown |
| FullDrawings.CustodianHiddenIff | libsol/stake_instruction.c:428-459 | when the custodian is shown |
| FullDrawings.FullAtaTransfer | libsol/transaction_printers.c:582-598 | the transfer beside the creation of its account is drawn as the transfer alone |
| FullDrawings.TokenFeeShown | libsol/spl_token_instruction.c:684-720 | when the mint and the transfer fee are shown |
| FullDrawings.ReceiverShown | libsol/spl_token_instruction.c:684-708 | the receiver of a token transfer is always shown, by address or by token account |
| Slots.FeeFitsIff | libsol/transaction_printers.c:820-831 | without an extension warning a setter finds no item if and only if a fee comes beside the fullest stake account with seed and delegation or the fullest AgenC pair |
| Slots.WarningFitsIff | libsol/message.c:207-210 | beside an extension warning a setter finds no item if and only if the pattern leaves fewer than two items, or fewer than three when there is a fee; the options that do so are listed for five patterns, a lone create_task among them |
| Slots.PrinterFailsIff | libsol/agenc_instruction.c:512-601 | the printer of a pattern fails if and only if it refuses what it is given or, beside a warning, a create_task that leaves fewer than two items |
| Slots.TaskFeeOverruns | libsol/compute_budget_instruction.c:86-95 | a lone create_task of the default type with a token reward, with a price and a warning: shown, and the fee has no item |
| Slots.FullTaskRefused | libsol/agenc_instruction.c:576-601 | a lone create_task with a token reward and another type is drawn without a warning and refused beside one |
| Slots.StakeFeeOverruns | libsol/transaction_printers.c:275-293 | a stake account created with a seed and delegated, all options shown, with a price: shown, and the fee has no item |

| Slots.AddItems | libsol/transaction_summary.c:149-157 | a list of items is added in order if and only if there is room for all |
| Slots.DrawScreen | libsol/transaction_printers.c:820-831 | the primary item, the nonce items, the items of the pattern and the fee are set, in this order, if and only if there is room beside the warning |
| Slots.DrawTransaction | libsol/message.c:207-216 | from a reset summary: refused exactly when the list is not shown, overrun exactly when more items are needed than there are, otherwise the summary holds warning, pattern items and fee in this order |
| Screens.ShowMessage | src/handle_sign_message.c:402-411 | from the bytes of a message to the kinds of its screens: what is listed is the primary item, the warning, the items of the pattern, the fee and the nonce, in order; a drawn message never fails to be finalized |
| Screens.ProcessAndDraw | libsol/message.c:57-217 | the same up to the summary: refused exactly when the message is not shown with its printers |
| Screens.ScreenOrder | libsol/message.c:57-217 | the screens in order: primary item, the two warning lines, the items of the pattern, the fee, in expert mode the nonce |
| Screens.MessageOverrunsIff | libsol/message.c:57-217 | of the messages shown, exactly which need more items than there are |
| Summary.TransactionSummary.GeneralItem | libsol/transaction_summary.c:149-157 | the first unused slot, none exactly when eleven are used |
| Summary.TransactionSummary.AddGeneral | libsol/transaction_summary.c:149-157 | items are kept in the order they were added, up to eleven |
| Summary.TransactionSummary.SetFeePayer | libsol/transaction_summary.c:206-211 | sets the fee payer once |
| Summary.TransactionSummary.FindItem | libsol/transaction_summary.c:280-317 | the item at an index of: primary, used general items, used nonce items, fee payer |
| Summary.TransactionSummary.Finalize | libsol/transaction_summary.c:337-359 | the kinds of the used items in display order, failing exactly when the primary item is unset |
| Summary.TransactionSummary.DisplayItem | libsol/transaction_summary.c:319-328 | shows the i-th of the items that finalize lists, and nothing beyond its length |

## Left out

- Calendar.Rfc3339Format: the characters written for the last 1187 day numbers of the type, which the range check lets through, are not stated.
- Base58.EncodeBase58: what the program does after a write outside its work buffer is not stated; the model stops there.
- Printer.PrintTokenAmount: what the program does after looking before the buffer is not stated; the model stops there.
- ApduCommand.ApduCommand.HandleMessage: the command after an error is not stated, since the caller clears it.
- Device.Device.HandleApdu: signing directly in swap mode and the other handlers up to the review are one outcome given by the environment, and no APDU arrives while a review is pending.
- Descriptors.ValidateInstruction: the mint, the recipient, the signer's key and the derivation of associated token accounts are parameters.
- Message.ProcessMessageBody: program ids and the field parsers of the system, stake, vote, token and associated-token programs are parameters that accept an instruction as a kind or do not.
- Message.ReadInstructionChecked: the loop that prints the accounts for debugging has no effect and is left out; as written its 8-bit counter does not get past 255, so it would not end on an instruction with 256 or more accounts.
- Dispatch.PrintTransaction: the printers are a parameter here; Slots and Screens put in those of Items.
- Slots.DrawTransaction: what the program does after a setter writes through a missing item, and what a refused printer leaves in the summary, is not stated.
- Slots.SlotsLeft: options of the instructions whose fields are not modelled are free parameters, so that some combinations of them may never occur; the AgenC options are those of the parsed data.
- Screens.ShowMessage: the values of the items are not modelled, only kind and title; nor is what blind signing shows after a refusal.
- Summary.TransactionSummary.AddGeneral: finds no room in a full summary and says so; which setters of the program then refuse and which write through the missing item is in Slots.
- Summary.TransactionSummary.DisplayItem: the text of an item is not modelled here; the printers it calls are in Printer, Base58 and Calendar.
- Agenc.ParseAgencInstructions: the keys are reported as a list in slot order, not as named fields.
- USB_SEGMENT_SIZE and MAX_PRINTABLE_AMOUNT_SIZE come from the device SDK: the first is taken as 64, the second is a parameter.
- Digests, signatures, key derivation and curve checks: parameters or outcomes of the environment.
- Screens, menus, icons, settings, status words of other handlers and debug output.
- TLV parsing, certificates, trusted names and the token registry: their formats live outside this code.
- swap_copy_transaction_parameters and the parsing of swap configuration: the context starts with what was validated.
