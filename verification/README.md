# Verification model of the SMS gateway

A Dafny model of the gateway's hardest code, with proofs. `dafny verify dfyconfig.toml` checks it all.

Three parts of the gateway are modelled, and two companions.

**The multipart codec** (`utils/sms-encoding.js`, `utils/pdu.js`). Messages are sequences of UTF-16
code units, PDUs are hexadecimal text. `Gsm7`, `Septets`, `Hex`, `SmsEncoding` and `Pdu` are the
sender: the loops of the source are methods, each proved equal to a function. `Receiver` is the other
end, written from the standards alone: 3GPP TS 23.040 sections 9.1.2.3, 9.1.2.5, 9.2.2.2, 9.2.3.16,
9.2.3.24 and 9.2.3.24.1, and 3GPP TS 23.038 sections 6.1.2.1, 6.2.1 and 6.2.1.1. `Splitting` and
`SplitBoundaries` say what the greedy splits achieve and where they do not, `PduReading` and
`EndToEnd` that the receiver undoes the sender. `TextMode` is what a modem makes of a body that is not a
PDU (3GPP TS 27.005 section 3.5.1 and annex A).

**The serial driver** (`utils/modem.js`, `utils/serialize.js`). `SerialDriver.SerialModem` holds the
driver's fields; every callback is a method proved equal to a function on the driver's state, and
`SerialDialogue.PerformAll` drives the class by them through any run. `Framing` cuts characters into
lines, `Listing` reads `AT+CMGL` responses against a modem that prints them (3GPP TS 27.005 section
3.4.2). `SerialDialogue` is the machine of all interleavings of tasks, chunks, timers, write errors,
closes and reopens, and `SerialReactions` says on the characters themselves what prompts, results,
unsolicited lines and failures do; `SerialTasks` has the tasks themselves, run against an arbitrary
script of replies, and `SerialStorage` those of them that read, against a modem that prints its storage.
`Inbox` is the machine of a device, its storage and the inbox table; the traces of the serial driver and
of the ZTE driver (`ZteHttp`) are proved to be runs of it.

**The life cycles** (`config/*.config.js`, `store/*`, `router/router.js`). `LogStore`, `SendGateway`,
`UssdStore` and the class in `UssdLifecycle` are the stores and handlers; `SendLifecycle` (with
`SendOutcomes`, `SendCallbacks`, `SendStatus` and `SendDetails`) and `UssdLifecycle` (with
`UssdSettling` and `UssdDetails`) are the machines of all their interleavings; `SendHandover` joins the
send life cycle to the drivers. The UPDATEs of the stores have no guard on the status already there, so
that a final status stays final is a fact about the whole system. An UPDATE commits before its row is
read back, and the read can throw: the machines have all three outcomes.

**Companions.** `JsonLines` proves the Android app's line printer against the drain parser of
`utils/adb.js`, `Adb` the shell command and the sending loop of the same driver, `Pool` the round-robin
picker.

Where the code and its documentation differ, the model follows the code. What is then not true of it has
lemmas that show the input and say exactly when it is true:

- A single GSM-7 message is written to the port as UTF-8 and read by the modem as GSM codes
  (`TextMode.AtSignIsMisread`, `TextMode.AccentIsUnreadable`): it survives if and only if its characters
  have the same code in both (`TextMode.GsmBodySurvivesIffShared`, `SerialTasks.SendSms`).
- A settled USSD row can change, `done` into `failed` (`UssdSettling.DoneBecomesFailed`), if and only if
  the row of a committed settling write cannot be read back (`UssdSettling.SettledOnceIffReadBack`).
- A sent message can go without its callback (`SendCallbacks.SentWithoutCallback`), for the same reason;
  `SendCallbacks.TerminalCallbacksAreExact` counts the callbacks of every run.
- `unconfirmed` is said to mean a timed-out confirmation (lines 212 and 462 of the repository's README). The
  code also writes it for a job whose pinned modem is no longer configured
  (`SendOutcomes.UnconfirmedWithoutASend`, `SendOutcomes.UnconfirmedIsHandedOverIffModemFound`).
- A message that arrives at a ZTE stick under an id that an earlier, rejected deletion has freed can be
  deleted unread when that deletion is repeated behind a new login (`ZteHttp.RepeatedDeletionLosesAMessage`,
  `Inbox.ReusedIdIsLost`). No other message is ever lost: an arrival can be if and only if a deletion under
  way names its id (`Inbox.ArrivalCanBeLostIffNamed`).
- A text with a line that is `OK`, an error result or a listing header is cut short there when it is read, as
  a comment in the code says of `OK` and `ERROR` (`Listing.OkTextReadsEmpty`); a listing is read rightly if and
  only if no text has such a line (`Listing.ListingRoundTrip`).
- A message within the reported `maxLength` can be refused (`SplitBoundaries.MaxLengthIsNoGuarantee`);
  `Splitting.Gsm7OkClosedForm` and `Splitting.Ucs2OkClosedForm` say which are.
- With lone surrogates a sendable message can be refused (`SplitBoundaries.MalformedTextIsNotMinimal`),
  exactly on the spoiled texts of `Splitting.Ucs2OkIffSendable`.

## Model

| member | source | states |
|---|---|---|
| Gsm7.BasicTableIsTheStandards | utils/sms-encoding.js:20-28 | The basic table with its ESC gap is, position by position, the default alphabet of TS 23.038 section 6.2.1 |
| Gsm7.BasicCharactersAreDistinct | utils/sms-encoding.js:25-28 | No character occurs twice in the table, so the map built from it has one code per character |
| Gsm7.ExtensionTableIsTheStandards | utils/sms-encoding.js:31-41 | Every extension entry is the standard's, and never ESC itself |
| SmsEncoding.SurrogatesAreNotGsm7 | utils/sms-encoding.js:47-51 | No half of a surrogate pair has a septet cost, so two-unit characters switch to UCS2 |
| SmsEncoding.SplitGsm7 | utils/sms-encoding.js:55-71 | The loop yields the greedy split function, whose optimality is proved in Splitting |
| SmsEncoding.SplitUcs2 | utils/sms-encoding.js:75-88 | The loop yields the greedy 67-unit split that backs off before a high surrogate |
| SmsEncoding.AnalyzeMessage | utils/sms-encoding.js:95-125 | Encoding, length, segment count and `ok`, computed with early exit, equal the declarative analysis |
| Splitting.Gsm7PartsAreTheMessage | utils/sms-encoding.js:55-71 | GSM-7 parts concatenate to the message; each is non-empty and costs at most 153 septets |
| Splitting.Ucs2PartsAreTheMessage | utils/sms-encoding.js:75-88 | UCS2 parts concatenate to the message; each has 1 to 67 units |
| Splitting.Gsm7SegmentsAreMinimal | utils/sms-encoding.js:95-125 | No way to send a GSM-7 text, in one SMS of 160 septets or in parts of 153, uses fewer SMS than the analysis says |
| Splitting.Gsm7OkIffSendable | utils/sms-encoding.js:106-115 | A GSM-7 message is accepted if and only if some legal transmission in at most three SMS exists |
| Splitting.Ucs2PartsKeepPairs | utils/sms-encoding.js:73-88 | On any text at all, no cut falls inside a surrogate pair |
| Splitting.Ucs2OkIffSendable | utils/sms-encoding.js:116-124 | On every UCS2 text: acceptance coincides with the existence of a transmission in at most three SMS that cuts no pair, if and only if the text is not spoiled, a test of four positions at 200 and 201 units |
| Splitting.PairedIsNotSpoiled | utils/sms-encoding.js:73-88 | No text whose high surrogates are all completed is spoiled |
| Splitting.Ucs2SplitIsMinimal | utils/sms-encoding.js:75-88 | On any text no split that cuts behind no high surrogate has fewer parts; on texts with all high surrogates completed no split that cuts no pair has |
| Splitting.SegmentsCountTheParts | utils/sms-encoding.js:131-135 | The analysis counts exactly the parts the split returns; they concatenate to the message and none is empty for a non-empty one |
| Splitting.PartsAreSingleMessages | utils/adb.js:133-138 | Each part, analysed again on its own, is one SMS: what the adb loop relies on |
| Splitting.Gsm7LengthLimits | utils/sms-encoding.js:106-115 | GSM-7: up to 457 septets are always accepted, above 459 never |
| Splitting.Ucs2LengthLimits | utils/sms-encoding.js:116-124 | UCS2: up to 199 units are always accepted, above 201 never |
| Splitting.Gsm7OkClosedForm | utils/sms-encoding.js:55-115 | A GSM-7 text of at most 457 septets is accepted, and one of 460 or more is not; one of 458 is refused only if an extension character begins at both septets 152 and 304, one of 459 accepted if and only if none begins at 152 or 305 |
| Splitting.Ucs2OkClosedForm | utils/sms-encoding.js:75-124 | A UCS2 text of at most 199 units is accepted, and one of 202 or more is not; one of 200 is refused only if units 66 and 132 are both high surrogates, one of 201 accepted if and only if neither 66 nor 133 is |
| Splitting.ZteCountIsLowerBound | utils/zte-http.js:46-57 | The ZTE driver's length-only count never exceeds the number of pair-keeping parts, and equals it where no high surrogate occurs |
| Splitting.ZteLimits | utils/zte-http.js:46-57 | The ZTE driver accepts up to 201 units, and takes up to 70 for one SMS |
| SplitBoundaries.MaxLengthIsNoGuarantee | utils/sms-encoding.js:106-115 | A 458-septet text, shorter than the reported `maxLength`, needs four parts and is refused |
| SplitBoundaries.Ucs2MaxLengthIsNoGuarantee | utils/sms-encoding.js:116-124 | A well-formed 200-unit text with pairs across the part ends is refused |
| SplitBoundaries.MalformedTextIsNotMinimal | utils/sms-encoding.js:75-88 | 201 lone high surrogates are refused although a pair-keeping transmission in three SMS exists |
| Hex.Ucs2DecodeOfHex | utils/sms-encoding.js:138-148 | Decoding undoes encoding on every code-unit sequence, lone surrogates included |
| Hex.Ucs2HexOfDecode | utils/sms-encoding.js:138-148 | Encoding undoes decoding, up to upper case, on every hexadecimal string of whole code units |
| Hex.Ucs2HexIsPositional | utils/sms-encoding.js:138-140 | Four digits of `0123456789ABCDEF` for each code unit, the most significant first |
| Septets.PackSeptets | utils/pdu.js:39-54 | The accumulator loop yields the octets of the bit string `fill` zeros followed by all septets, low bit first |
| Septets.PackedIsBaseConversion | utils/pdu.js:39-54 | The octets in base 256 are 2^fill times the septets in base 128; their number is the bit count divided by 8, rounded up; each is below 256 |
| Septets.UnpackPacked | utils/pdu.js:39-54 | The receiver of TS 23.038 section 6.1.2.1 recovers the septets from any fill |
| Pdu.EncodeAddress | utils/pdu.js:13-21 | The loop yields type of address, swapped digits with F filler, and digit count |
| Pdu.Gsm7Septets | utils/pdu.js:24-36 | The loop yields the septets of the text, or throws exactly on a character outside the alphabet |
| Pdu.Gsm7DecodeOfSeptets | utils/pdu.js:24-36 | On GSM-7 text it never throws, yields as many septets as were counted, and a receiver displays the text |
| PduReading.ReadPduOfBuilt | utils/pdu.js:56-95 | The standard's reader recovers service centre, number with its type, validity, reference, total, part and text from every PDU built; the length is the TPDU's octet count, whatever the service centre |
| PduReading.LengthOfBuilt | utils/pdu.js:89-94 | The modem takes every PDU with the length built for it: that of the octets behind the service centre, whatever that is |
| EndToEnd.MessageSurvives | utils/modem.js:282-289 | Every message that needs several parts becomes that many readable PDUs, numbered 1 to n under one reference, which reassemble to exactly the message in any order, repeats included |
| EndToEnd.UserDataBound | utils/pdu.js:66-94 | Each part fills at most 140 octets; the UDL is 160 septets exactly at 153, or 140 octets exactly at 67 units; every TPDU has at most 156 octets |
| EndToEnd.EveryPduIsRead | utils/modem.js:282-297 | PDU k of a message, taken with its length, is read as part k for that recipient through that service centre |
| EndToEnd.OneSmsIffItFits | utils/sms-encoding.js:6-16 | A message counts as one SMS if and only if it fits the 140 octets of one without a header: 160 septets, which fill them, or 70 code units; the reported limits are 459 and 201 |
| EndToEnd.PartSizesAreLargest | utils/sms-encoding.js:12-15 | Behind a six-octet header 140 octets hold exactly the part sizes, and not one septet or unit more |
| Framing.LinesAreSplitTrimmed | utils/modem.js:111-120 | Framing is splitting on line feeds, trimming and dropping the empty; the residue is the last piece |
| Framing.LoopTakesOneLine | utils/modem.js:115-117 | One turn of the loop, with its two patterns and CR handling, takes exactly the first line off the buffer |
| Framing.ChunkingIsIrrelevant | utils/modem.js:111-120 | Lines and residue are the same for every partition of a stream, also between CR and LF |
| SerialDriver.SerialModem.HandleData | utils/modem.js:111-127 | The loop terminates and hands over the completed lines in order, keeps the residue, and then lets a prompt settle the command |
| SerialReactions.PromptResolves | utils/modem.js:111-127 | A command that waits for the prompt is resolved by a chunk without a line `OK` if and only if the text behind the last line feed begins with `>`, blanks apart, and no final result in the chunk has rejected it; the prompt is then taken off the buffer |
| SerialReactions.PromptAsSent | utils/modem.js:122-126 | CR, LF, `>` and a blank resolve the command just written, without lines, and leave the buffer empty |
| SerialReactions.PromptResolvesInPieces | utils/modem.js:111-127 | The prompt resolves its command however the stream is cut, as long as no final result is in it |
| SerialReactions.LineGoesToTheCommand | utils/modem.js:141-152 | A line nobody waits for ends the command in flight if and only if it is `OK`, `ERROR`, `NO CARRIER` or a `+CMS ERROR` or `+CME ERROR`, and resolves it only if it is `OK`; any other is collected |
| SerialReactions.LineGoesToTheFirstWaiter | utils/modem.js:129-138 | A line that begins with the prefix of a waiter answers the first such waiter and nobody else |
| SerialReactions.AcknowledgementIsRead | utils/modem.js:239-246 | The acknowledgement of a body, in any chunks, resolves its command, and the `+CMGS` line is what the task returns |
| SerialReactions.IssuedOnlyIfConnected | utils/modem.js:183-201 | A command on a closed port is rejected at once and touches nothing else; on an open one it is in flight with a timer and a clean buffer |
| SerialReactions.WaiterGivesUp | utils/modem.js:208-220 | A waiter whose time is up is answered with null and leaves; the others stay in order |
| SerialReactions.FailuresReachTheCallers | utils/modem.js:155-206 | In every run a timeout, a write error, a closed port or a shutdown rejects the command in flight for that reason, a timeout with two quiet seconds to follow; the last two answer every waiter with null, in order |
| SerialDriver.SerialModem.HandleLine | utils/modem.js:129-153 | The first matching waiter takes the line and is removed; otherwise the command collects it and a terminal line settles it |
| SerialDriver.SerialModem.SettleCurrent | utils/modem.js:155-162 | The command is dropped, its timer disarmed, and its promise settled with its lines or the error |
| SerialDriver.SerialModem.FailCurrentCommand | utils/modem.js:164-170 | The command fails and every waiter is answered with null, in order, its timer disarmed |
| Serializer.Lock.WithLock | utils/serialize.js:6-13 | A call hangs on the end of the chain and becomes its new end |
| SerialDialogue.PerformAll | utils/modem.js:68-220 | The class, driven by its own methods through any run of the machine, ends in the state the machine says |
| SerialDialogue.TasksAreSerialized | utils/serialize.js:6-13 | In every run tasks are active one at a time in the order they were queued, also behind failed ones, and the command in flight is the active task's |
| SerialDialogue.PromisesSettleOnce | utils/modem.js:129-220 | In every run each command and each waiter settles at most once; a resolved command that expected no prompt has `OK` as its last and only terminal line |
| SerialDialogue.NoCommandIsOverwritten | utils/modem.js:183-201 | Whenever a task writes a command nothing else is in flight |
| SerialDialogue.QuietPeriodIsUnattributed | utils/modem.js:178-200 | For two seconds after a command has timed out, whatever else happens, no command is in flight and no chunk settles one |
| SerialDialogue.LinesBelongToTheirCommand | utils/modem.js:177-206 | What a chunk leaves with, or resolves, the command in flight consists of complete lines that arrived after it was written, in order |
| Listing.ReadListing | utils/modem.js:366-383 | The loop over the lines yields the fold of header matching and text joining |
| Listing.HeaderReadsBack | utils/modem.js:367-379 | The header pattern recovers index, status, sender and date from a printed header |
| Listing.ChunksActAsOneStream | utils/modem.js:111-153 | While no prompt is expected the whole driver state after any sequence of chunks is that after the whole stream |
| Listing.ListingRoundTrip | utils/modem.js:362-383 | A printed listing, cut into any chunks, settles its command; it reads back as exactly the stored messages if and only if no text has a line that is terminal or a header, and otherwise the command fails or a message is cut short at such a line |
| Listing.OkTextReadsEmpty | utils/modem.js:364-383 | A stored message whose text is `OK` is read as empty, whatever the chunks |
| TextMode.GsmBodySurvivesIffShared | utils/modem.js:263-274 | A body written as it is, in UTF-8, and read in the character set GSM is the message if and only if each of its characters has the same code below 128 in ASCII and in the GSM alphabet, ESC excepted |
| TextMode.AtSignIsMisread | utils/modem.js:263-274 | The message `@` is accepted as one GSM SMS and read as an inverted exclamation mark |
| TextMode.AccentIsUnreadable | utils/modem.js:263-274 | The message `é` is accepted as one GSM SMS and its bytes are no GSM codes |
| TextMode.Ucs2ReadsBack | utils/modem.js:264-268 | Body and address of a UCS2 message are read back by a reader of the hexadecimal text, whatever the text |
| SerialTasks.SubmitBody | utils/modem.js:231-253 | Command, then body, or ESC if the prompt does not come; `confirmTimeout` exactly if a body was handed over and its confirmation timed out; the result is the reference in the acknowledgement; it fails only if a reply is missing |
| SerialTasks.ReferenceIsFirst | utils/modem.js:246-246 | The reference is the first line of the acknowledgement that begins with `+CMGS` |
| SerialTasks.JoinedWithSemicolons | utils/modem.js:297-297 | The references of the parts are joined in order by a semicolon and a blank; without any there is none |
| SerialTasks.SendSingle | utils/modem.js:256-276 | Every body written is for the number asked for, as the modem reads it from the command, through the configured service centre; on success exactly one was acknowledged, and it is read as the message if and only if that is UCS2 or has shared characters only; the reference is that of the acknowledgement; every write finds the modem in its mode |
| SerialTasks.SendMultipart | utils/modem.js:282-302 | Every PDU written is read, with the length in its command, as the next part for the number asked for through the configured service centre; on success there is one for each segment, they reassemble to the message, and their references are joined; text mode is asked for again whatever failed in between |
| SerialTasks.SendSms | utils/modem.js:336-350 | Nothing is submitted for another number; a success carries the message if and only if it is UCS2, multipart, or has shared characters only, and gives its references; a failure has a missing reply or a refused message behind it, and is marked `confirmTimeout` exactly if a body is unconfirmed; no body is written behind an unconfirmed one |
| SerialTasks.PdusCarryTheMessage | utils/modem.js:282-297 | The bodies of a complete multipart send are, to a receiver, the message |
| SerialTasks.GetMessages | utils/modem.js:357-397 | What is read is what the listing says; deletions are a beginning of its indexes in order, all of them on success, and each comes behind a step that stored all that was read; the trace is a pass of the inbox machine |
| SerialTasks.RunTasks | utils/modem.js:224-397 | Over any sequence of tasks, from any modem state and for any pattern of failures, every mode-dependent write of the whole run finds the modem in the mode it takes for granted, each task leaves the trace of what it was asked for, and all reads keep to the order of the inbox machine |
| SerialTasks.SerialReadsLoseNothing | utils/modem.js:357-397 | The traces of the serial driver, with arrivals anywhere between their steps, are runs of the inbox machine, and no message is lost in them |
| SerialStorage.ListingIsTrueIffClean | utils/modem.js:362-383 | What the driver reads out of a printed storage says what is in the slots if and only if no text has a mistakable line |
| SerialStorage.StorageIsReadIffClean | utils/modem.js:357-397 | The driver's tasks against a modem that prints its storage, arrivals anywhere in between: what happens is a run of the inbox machine if and only if no listed text has a mistakable line, and then no message is lost |
| Inbox.InboxStore.SaveReceived | store/inbox-store.js:8-27 | All rows are inserted, each with sender, date, text and modem of its message and the time of the write, or none if one insert throws |
| Inbox.RowSaysTheMessage | store/inbox-store.js:8-18 | The row of a message that reached the device has its sender, date and text, and the modem it came to |
| Inbox.NoMessageIsLost | utils/modem.js:357-397 | In every run of arrivals, passes, failed writes and failed deletions, a message lost has arrived in a slot that a deletion under way named; on a serial modem none is lost |
| Inbox.ArrivalCanBeLostIffNamed | utils/zte-http.js:171-185 | After any run, a message that now arrives in a slot is lost in some continuation if and only if a deletion under way names that slot |
| Inbox.ReusedIdIsLost | utils/zte-http.js:171-185 | The run in which a deletion is done but rejected, a message arrives under the freed id, and the repeated deletion takes it |
| Inbox.EachHasItsOwnRow | store/inbox-store.js:8-18 | Of two messages in the table, equal or not, each has a row of its own |
| Inbox.FollowingLosesOnlyByClash | utils/inbox-sync.js:8-13 | A driver that lists, persists exactly the listing and deletes no more than that does only what the machine allows, whatever arrives in between, and puts no message at risk but one that arrives in a slot a deletion under way names |
| Inbox.OnlyTargetsLeave | utils/zte-http.js:288-323 | A message leaves the device only as a target of a pass that has stored all it read; it is in the table exactly if it is what that pass read from its slot, and always on a serial modem |
| ZteHttp.SetCmd | utils/zte-http.js:171-185 | A command is posted at most twice, again only after a rejection and a new login, and not at all exactly if the login before it is answered neither 0 nor 4; success is that of its last posting; the session flag needs a login that succeeded; the replies fix what is posted |
| ZteHttp.InboxIsTheInbox | utils/zte-http.js:298-298 | Exactly the messages tagged 0 or 1 are the inbox |
| ZteHttp.InboxKeepsOrder | utils/zte-http.js:298-298 | The filter keeps the order of the listing |
| ZteHttp.InboxOfOne | utils/zte-http.js:298-298 | A single listed message is in the inbox exactly if its tag is 0 or 1 |
| ZteHttp.OnlyEmptyContentReadsEmpty | utils/zte-http.js:304-306 | A message reads as empty only if the stick sent nothing for it |
| ZteHttp.MessageSaysWhatIsListed | utils/zte-http.js:300-307 | A listed message is read as its number, its date with slashes for commas, unread for tag 1, and the text its content spells in hexadecimal code units, or the content as it stands if it spells none |
| ZteHttp.ReceivedReadsBack | utils/zte-http.js:300-312 | What is stored is what is returned, and a text listed in hexadecimal is returned as it was received |
| ZteHttp.IdListReadsBack | utils/zte-http.js:315-319 | The argument of a deletion names exactly the ids of the inbox, in order |
| ZteHttp.GetMessages | utils/zte-http.js:288-323 | Deletions list exactly the inbox ids, and each comes behind a login, a listing and an action that stored exactly the inbox; it succeeds if and only if login and listing do and a deletion is accepted or there is nothing to delete, and returns for each inbox message, in order, what is listed; the trace is a pass of the inbox machine, fixed by listing, persist and replies |
| ZteHttp.ZteReadsLoseOnlyByClash | utils/zte-http.js:288-323 | The traces of the ZTE driver, with arrivals anywhere and unconfirmed deletions done in any part, are runs of the inbox machine, and a message lost in them has arrived under an id that a deletion under way named |
| ZteHttp.RepeatedDeletionLosesAMessage | utils/zte-http.js:171-185 | The trace of the driver, and the arrival in it, by which a message is lost: the deletion is done but rejected, the login succeeds, the deletion is repeated |
| ZteHttp.AwaitSent | utils/zte-http.js:266-280 | The loop ends with the first poll whose status is `3`, sent, or `2`, failed, or that breaks, if it began within 60 seconds for each part; unconfirmed exactly if there is none |
| ZteHttp.SendSms | utils/zte-http.js:244-281 | Every command posted is a send of this text to this number; success if and only if one was accepted and the first poll that says `3` or `2` or breaks says `3` and was begun in time; `confirmTimeout` if and only if one was accepted and no poll begun in time said `3` or `2` or broke |
| LogStore.AssignMeans | store/log-store.js:65-75 | The collected assignments change the whitelisted columns named in the patch, to its values, and nothing else |
| LogStore.PatchMeans | store/log-store.js:5-11 | Exactly status, error, time of sending, reference and modem can be changed, each by a patch that names it |
| LogStore.LogStore.AppendLog | store/log-store.js:46-63 | A new row, or an error if the id is taken |
| LogStore.LogStore.UpdateLog | store/log-store.js:65-78 | The one row, patched through the whitelist, is stored and returned; an unknown id changes nothing and yields null; it throws if the UPDATE fails, or with the UPDATE done if the row cannot be read back |
| SendGateway.Handlers.EnqueueWebhook | config/webhook.config.js:65-88 | One callback with the row's status if it is terminal, or retrying where configured, and the target is allowed; nothing otherwise |
| SendGateway.Handlers.AfterSend | config/bull.config.js:69-82 | The row becomes `sent` with time, reference and modem, and its callback is enqueued; a failed write changes nothing, a failed read-back skips the callback |
| SendGateway.Handlers.OnFailed | config/bull.config.js:114-136 | The row becomes `unconfirmed`, `failed` or `retrying` with the error, and the modem if the error names one; a failed write changes nothing, a failed read-back skips the callback |
| SendGateway.Handlers.Send | router/router.js:102-137 | Accepted exactly if row and job exist; otherwise the row that may exist becomes `failed`, and is announced if it can be read back |
| SendGateway.BalanceThrottle.MaybeCheckBalance | config/bull.config.js:96-112 | Balance checks of one modem are at least ten minutes apart, failed ones included |
| SendOutcomes.AtMostThreeSends | config/bull.config.js:12-86 | In every run a job calls the modem at most three times, and all calls but the last were refusals: none follows a success or a confirmation timeout |
| SendOutcomes.TerminalIsForever | store/log-store.js:65-78 | From the moment a row is `sent`, `failed` or `unconfirmed`, no continuation of the run changes it; columns outside the whitelist never change; no call follows a success or timeout |
| SendOutcomes.StatusTellsTheOutcome | config/bull.config.js:41-130 | `sent`: the last call was accepted with the row's reference, a time and no error, on the pinned modem if there is one; `failed`: three refusals; `unconfirmed`: a timed-out confirmation, or a pinned modem not found |
| SendOutcomes.SentNeedsAJob | config/bull.config.js:69-76 | A row says `sent` only if a completed job sent it |
| SendOutcomes.RetryingMeansAnotherAttempt | config/bull.config.js:119-131 | `retrying` is written if and only if the job can begin another attempt next |
| SendOutcomes.AtMostOneTerminalCallback | config/webhook.config.js:65-88 | At most one terminal callback per message, and none while its row is not terminal |
| SendCallbacks.TerminalCallbacksAreExact | config/bull.config.js:69-136 | In every run a message has one terminal callback if its row is terminal, its target allowed, the update that made it terminal read back and its callback taken by the queue; otherwise none |
| SendCallbacks.SentWithoutCallback | config/bull.config.js:69-82 | The run in which a message is `sent`, the queue takes all it is given, and there is no callback |
| SendStatus.StatusIsTheJobs | config/bull.config.js:39-142 | While updates are committed, read back or not, the status of every queued message is at every moment exactly what its job has been through |
| SendDetails.RowTellsTheDetails | config/bull.config.js:39-136 | In every run the job has the number and the text of its row; a sent row has the modem and the time of the success and no error, a failed or unconfirmed one the last error, one that is retried an error of its job, and a failed one the modem that refused it last |
| SendDetails.CallbacksAreRight | config/webhook.config.js:65-88 | In every run every callback goes to the address its message names, or else the default, which must be allowed; a terminal status it tells is the row's, and `retrying` is told only where configured |
| SendDetails.RefusedRequestIsFailed | router/router.js:128-137 | A request that is inserted but not queued keeps its message and fails with the error, unless that write fails too |
| SendLifecycle.NewRowIsNew | router/router.js:104-119 | The entry of the route has number, text and all else of the request in its own column, is pending, and has no error, time or reference |
| SendOutcomes.UnconfirmedIsHandedOverIffModemFound | config/bull.config.js:44-67 | An `unconfirmed` message was handed over if and only if its job was not pinned, or its modem was configured when the last attempt began |
| SendOutcomes.UnconfirmedWithoutASend | config/bull.config.js:45-50 | The run in which a message pinned to a configured modem is accepted, the modem is removed, and the row ends `unconfirmed` without any call |
| SendHandover.CallModem | config/bull.config.js:55-67 | On every kind of modem all that is submitted is this message for this number; the worker takes the call for unconfirmed exactly if the message was handed over and its confirmation never came, and a success has the reference its driver gives |
| SendHandover.NothingFollowsAnUnconfirmedBody | config/bull.config.js:55-67 | In every run an attempt that leaves its message unconfirmed is the last of its job, and to the serial modems no body is written behind an unconfirmed one; an `unconfirmed` message has such an attempt if and only if its job found its modem |
| UssdStore.LatestDoneIsNewest | store/ussd-store.js:66-75 | The row found is a successful one of that modem and kind, and newer than every other; none is found only if there is none |
| UssdStore.UssdStore.CreateRequest | store/ussd-store.js:29-42 | A new row at the end, or an error if the id is taken |
| UssdStore.UssdStore.CompleteRequest | store/ussd-store.js:45-61 | Exactly the row with that id is settled, whatever its status was; it throws if the UPDATE fails, or with the UPDATE done if the row cannot be read back |
| UssdLifecycle.Handlers.EnqueueUssd | config/ussd.config.js:46-69 | A pending row, settled as failed if the queue refuses the job |
| UssdLifecycle.Handlers.AfterSession | config/ussd.config.js:95-111 | `done` with the reply; it throws without a reply, if the write fails, and with the row `done` if that cannot be read back; a tariff session that succeeds has its three inbox polls, up to the first the queue refuses |
| UssdLifecycle.Handlers.OnFailed | config/ussd.config.js:120-137 | Only the final failure settles the row |
| UssdLifecycle.Handlers.FinishLive | router/router.js:233-255 | A live session writes its outcome, and the catch branch writes `failed` over it whenever that write or its read-back throws |
| UssdLifecycle.LiveEventsAreFinishLive | router/router.js:243-254 | The two events of a live session in the machine are the two halves of the handler |
| UssdSettling.SettledOnceIffReadBack | store/ussd-store.js:45-61 | Behind a run without failed read-backs and one event more, settled rows stay as they are in every continuation if and only if that event does not commit a settling write and fail to read its row back |
| UssdSettling.SettledStaysIffUnattended | config/ussd.config.js:95-137 | After any run a settled row stays as it is in every continuation if and only if no job or live call is still at work on it |
| UssdSettling.SettledOnce | store/ussd-store.js:45-61 | What a run without failed read-backs has settled stays settled, whatever fails later |
| UssdSettling.DoneBecomesFailed | router/router.js:243-253 | The live session whose reply is stored as `done` and then overwritten by `failed` |
| UssdLifecycle.PendingIsWorkedOn | config/ussd.config.js:46-137 | `done` rows carry a non-empty reply, `failed` rows an error; a row is pending only while a job or live call works on it or its last settling write has failed |
| UssdLifecycle.QuiescentMeansSettled | config/ussd.config.js:46-137 | Once nothing is at work, every row is settled whose last settling write did not fail |
| UssdLifecycle.ServedValueIsAReply | store/ussd-store.js:66-75 | In every run the stored value served is a non-empty reply, the newest-requested one |
| UssdDetails.SessionWritesAreExact | config/ussd.config.js:84-137 | In every run an event of a session writes to the row of that session alone the reply or the error the session has come to, with its time; the session fails with the error the event says; a failed job gets another attempt if and only if its error allows one and it was the first |
| UssdDetails.RequestWritesAreExact | config/ussd.config.js:46-69 | A new request is appended as it is, and settled with the error at once if its job is not queued |
| JsonLines.Esc | android-smsbridge/src/com/gateway/smsbridge/Json.java:5-22 | The loop yields the escape of every character in turn |
| JsonLines.EscapedReadsBack | android-smsbridge/src/com/gateway/smsbridge/Json.java:5-22 | A parser of RFC 8259 section 7 reads escaped text back up to the closing quote, whatever the text |
| JsonLines.EscapedHasNoControls | android-smsbridge/src/com/gateway/smsbridge/Json.java:10-19 | Escaped text has no control character |
| JsonLines.OnReceive | android-smsbridge/src/com/gateway/smsbridge/SmsReceiver.java:30-46 | The line written for a delivery is that of its first sender, all its text and its last timestamp; the three rows that follow say what these are |
| JsonLines.BodiesAreJoined | android-smsbridge/src/com/gateway/smsbridge/SmsReceiver.java:30-40 | The text of a delivery is that of its parts, joined in order |
| JsonLines.BodyOfOne | android-smsbridge/src/com/gateway/smsbridge/SmsReceiver.java:35-39 | A part that cannot be read, or has no body, adds no text |
| JsonLines.DeliveryReadsBack | android-smsbridge/src/com/gateway/smsbridge/SmsReceiver.java:30-46 | The gateway reads the line back as the sender of the first part that names one, the joined text and the timestamp of the last readable part, or skips it if that is no JavaScript date; nothing is written exactly if no part names a sender |
| JsonLines.LineReadsBack | utils/adb.js:165-176 | A printed line reads back as the captured sender, text and date; it is skipped exactly if its timestamp is no JavaScript date |
| JsonLines.CutLineIsSkipped | utils/adb.js:166-176 | No proper beginning of a printed line is reported as a message |
| JsonLines.Drain | utils/adb.js:162-177 | The loop reports what the pieces between line feeds contribute, in order |
| JsonLines.DrainReportsTheCaptured | utils/adb.js:162-177 | A file of captured messages, with LF or CRLF, is reported completely and in order; a last line cut anywhere costs that message only |
| Adb.CommandReadsBack | utils/adb.js:33-99 | The shell splits the command into exactly the intended arguments, whatever quotes text, number or package contain |
| Adb.SendSms | utils/adb.js:122-140 | Each command tells the shell to send the next part to the number asked for; success: the messages sent are single SMS and together the text; failure: they are a proper beginning of its parts, up to the one rejected |
| Pool.ModemPool.Pick | utils/pool.js:37-44 | The candidate at the counter, which advances; a disconnected modem only if none is connected |
| Pool.CandidatesAre | utils/pool.js:38-42 | The candidates are the connected modems, or all of them if none is connected |
| Pool.PicksAreFair | utils/pool.js:37-44 | While the candidates stay the same, over any run of calls from any counter value the picks of two candidates differ by one at most |

## Left out

- Transports: HTTP, the serial port, adb and Redis are parameters: replies, exchanges, polls, error flags. Characters are what the port delivers; UTF-8 decoding across chunks is not modelled.
- Integers are unbounded. The accumulator of `packSeptets` is proved to stay below 2^16, so JavaScript's 32-bit operators agree with the model.
- Time is a clock that only moves forward; sleeps and timers end no earlier than asked.
- The queues: BullMQ is the rule that a job has at most its attempts, one at a time, none after an unrecoverable error, that a `failed` handler runs before the next attempt, that a restart finds its pinned modem or does not but cuts no attempt short, that an `add` that throws has enqueued nothing, and that no stalled job is run again and no finished one retried by hand.
- Delivery of callbacks: the webhook worker's own retries, signatures and payload. The URL check is a set of allowed targets.
- Authentication, validation of requests, dashboards, metrics, listings, filters and configuration: easy members.
- At-most-once delivery by the network: a port that closes behind a body, or a later part that fails, is retried by design.
- Slots: messages arrive in free slots, a listing shows each slot once, and that of a ZTE stick says what is in it (`Inbox.EnvironmentOk`); of a serial listing the last is proved.
- Late replies: a command whose reply never came is decided at once, applied by the modem or not; a modem that resets between commands is not modelled.
- SendGateway.Handlers.Send: takes its id, a fresh random UUID, as not yet in the table; UssdLifecycle.Handlers.EnqueueUssd does too.
- ZteHttp.SendSms: is given enough polls to reach its deadline, because the loop makes as many as it needs; SendHandover.CallModem passes this on.
- Passes without a persist callback: `getMessages` can be called without one and then deletes at once; the gateway always passes one.
- Ownership of `+CUSD` lines: a waiter outlives a failed command, so only first match and single settlement are claimed.
- The ZTE driver's own USSD polling, and Android USSD.
- The drain's shell fold and its `rm`: only the parsing is claimed, because the fold is not atomic with the app's append.
- Listings: a stored body line that is empty or not trimmed, and header fields that contain their delimiter, have no form a listing could be read back from; `Listing.Framable` says so.
- SerialTasks.RunUssd: states the writes only; the reply is a waiter's, modelled in SerialDriver.
- JsonLines.ParseObject: reads the JSON the printer uses, objects of strings and integers without white space, and no escapes of surrogates; a date given as a string is read as none.
- JsonLines.Esc: on null the program prints nothing; here a missing body contributes nothing and a missing sender prints no line. Unpaired surrogates do not survive the UTF-8 file and are not part of these texts.
- Adb.Word: accepts letters, digits, dots, dashes and underscores outside quotes, and refuses every other unquoted character.
- Listing.ListingRoundTrip: supposes that no waiter takes a line of the listing, and is about the characters a listing consists of; that in the character set GSM a modem prints codes, of which the driver reads only the shared ones rightly, is TextMode's matter for what is sent and not modelled for what is read.
- TextMode.ReadGsmBody: takes every byte of a body below 128, but for ESC and Ctrl+Z, as a GSM code; line editing at the prompt is not part of this model.
- PduReading.ReadPduOfBuilt: is stated for valid recipients and for decimal service centres whose length fits the length octet; the program does not check the configured service centre.
- SerialTasks.SendMultipart: says whom its PDUs are for with such a service centre only.
- USSD codes: that a queued session runs the code of its modem and kind is not part of the machine; `SerialTasks.RunUssd` runs the code it is given.
