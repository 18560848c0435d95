# Mail admin backend: a verified model

The repository runs a mail administration service in Go: an LMTP receiver and a POP3
server over one shared archive database, an HTTP side that keeps Postfix and Dovecot
files in step with the user table, a login service with rate limit, account lock,
one-time codes and refresh tokens, and a MIME line wrapper.  This project states what
those parts do as Dafny functions and methods in the form of the Go code, and proves
what holds over every input, every run and every interleaving.

Modules, one per file:

| module | what it models |
|---|---|
| `Text` | byte strings, case, white space, decimal numbers, byte-wise order |
| `DotData`, `TopLines` | the dot-data writer of the POP3 server, the dot-data reader of the LMTP server, the TOP cut |
| `Archive`, `FindOrCreate` | the archive tables with their unique index and listings; find-or-create of a mailbox by racing callers |
| `LmtpServer` | the LMTP envelope machine and delivery, from bytes to replies, for a server on its own |
| `LmtpLines` | what each line of the LMTP byte stream does, in terms of the words on it |
| `Pop3Server`, `Pop3Runs` | the POP3 session from bytes to bytes, and what holds over whole sessions |
| `Pop3Lines`, `Pop3Wire` | what each POP3 line does, up to what a whole session removes; a client that reads the replies from their bytes |
| `Senders` | LMTP sessions whose deliveries run one database statement at a time |
| `MailStore`, `Visibility` | any number of POP3 and LMTP sessions on one archive, interleaved statement by statement: what is kept, and what a 250 reply stands for |
| `Refinement` | without interference the interleaved sessions do what the servers' own loops do |
| `EndToEnd` | from the lines an MTA sends to the lines a POP3 client reads, with everything else running in between |
| `Sync`, `Export` | the exporter and the sync that rewrites its files while the user table changes |
| `RateLimit`, `Lockout`, `AuthTokens` | the login service |
| `TimeText` | expiry times as RFC 3339 text and the purge by comparing that text |
| `LineWriter` | the base64 line wrapper of RFC 2045 |

Conventions.  A byte string is a `string` whose chars are bytes.  Times are integers.
Identifiers that the Go code draws at random (UUIDs, tokens) are numbers from a counter,
so they are fresh.  A database statement that can fail takes a flag that says whether it
is executed; theorems quantify over all flags unless they say otherwise.  A class method
states its result and new state through a function of the old state, and the theorems
are about that function and its runs.

## Where the code departs from what one would expect

The model follows the code.  Each point has a theorem with the exact condition, and an
input that shows the departure.

- The LMTP reader removes a stuffed dot before it looks for the end, so a line of one dot
  followed only by CRs ends the message even when it was stuffed
  (`DotData.RoundTripIff`; `DotData.StuffedDotEndsData`).
- CRLF is turned into LF in a single pass, which is not idempotent on CR CR LF, so TOP and
  RETR can show different lines (`DotData.ReplaceTwiceIff`, `TopLines.TopAgreesWithRetrIff`;
  `DotData.TwoCrs`, `TopLines.TopDiffersFromRetr`).
- An empty sender is the same as no MAIL command: DATA is accepted exactly after a MAIL
  with a non-empty address and a RCPT, so a bounce with `MAIL FROM:<>` is refused
  (`LmtpServer.DataAcceptedIff`; `LmtpServer.NullSender`, `LmtpServer.EmptySenderRefused`).
- A blank address removes the filter of the mailbox listing, so a lookup can find somebody
  else's mailbox (`FindOrCreate.FindsOwnIff`, `FindOrCreate.BlankFindsForeignIff`;
  `FindOrCreate.BlankFindsOther`).
- A creation that spells the name in other letters than an existing mailbox leaves two
  matching ones (`FindOrCreate.CreateKeepsOneIff`, `FindOrCreate.RunKeepsOneIff`;
  `FindOrCreate.OtherSpellingSplits`).  This is so where the unique index tells letter case
  apart, as in PostgreSQL and Oracle.  MySQL's default collation does not: there the insert
  meets the unique key, and the second lookup finds the other spelling.
- An address that the mail parser rejects is never locked (`Lockout.BoundedIffValid`;
  `Lockout.InvalidAddressUnbounded`).
- The purge by text can remove a row up to a second early or leave it up to a second late
  (`TimeText.PurgedIff`; `TimeText.PurgedTooEarly`, `TimeText.PurgedTooLate`).
- A failed update of a challenge is ignored, and then a second pair of tokens can be had
  (`AuthTokens.SecondPairIff`; `AuthTokens.TwoPairs`).  A renewed access token outlives the
  promised bound when the handler's second clock reading comes after its first
  (`AuthTokens.BoundIffReadings`; `AuthTokens.LateRenewal`).
- A slash is allowed in an address, so different users can share a mail directory: `a/b@c`
  and `b@c/a` do, and every address shares one with the address that has a slash in front
  (`Export.SharedIff`; `Export.SlashMoves`, `Export.EveryAddressHasTwin`).  Without slashes
  directories are distinct (`Export.NoSlashDistinct`).

## Model

| member | source | states |
|---|---|---|
| DotData.WritePop3DotData | cmd/mail-admin/app/pop3_server.go:376-386 | the writer appends exactly the encoded form of the data to what was sent before |
| DotData.NormalLinesAre | cmd/mail-admin/app/pop3_server.go:377 | replacing CRLF and splitting at LF gives the LF-separated lines with one trailing CR dropped from each that ends in a line feed |
| DotData.ReplaceTwiceIff | cmd/mail-admin/app/pop3_server.go:377 | normalising twice equals normalising once if and only if the text holds no CR CR LF |
| DotData.ClientReadsBack | cmd/mail-admin/app/pop3_server.go:376-386 | for every byte string and whatever follows, the client of section 3 of RFC 1939 recovers the normalised lines and leaves the following bytes |
| DotData.LoneDotOnlyAtEnd | cmd/mail-admin/app/pop3_server.go:376-386 | the output has exactly one lone-dot line, at its end |
| DotData.ReadWriter.ReadLine | cmd/mail-admin/app/lmtp_server.go:253-256 | a read takes the shortest prefix that ends in a line feed, or fails at the end of input |
| DotData.ReadLmtpDotData | cmd/mail-admin/app/lmtp_server.go:250-271 | the reading loop returns the body, the size error or the end error of the reference function and leaves the rest unread |
| DotData.EndsDataIff | cmd/mail-admin/app/lmtp_server.go:258-264 | a line ends the data if and only if it is one dot, or two, followed only by CRs and LFs |
| DotData.ReadSucceedsIff | cmd/mail-admin/app/lmtp_server.go:250-271 | reading succeeds exactly when there is a terminator line and the unstuffed bytes before the first one fit; the result is those bytes and reading stops after that line |
| DotData.ReadStopsAtFirstBareDot | cmd/mail-admin/app/lmtp_server.go:250-271 | reading back what the POP3 writer wrote stops at the first line that is a dot followed only by CRs, for every message, limit and following bytes |
| DotData.RoundTripIff | cmd/mail-admin/app/lmtp_server.go:250-271 | the round trip gives every normalised line with CRLF and leaves exactly the following bytes if and only if the total fits and no normalised line is a dot followed only by CRs |
| DotData.StuffedDotEndsData | cmd/mail-admin/app/lmtp_server.go:258-264 | a message of one dot is lost: its stuffed line ends the data |
| DotData.DeliveredThenRetrieved | cmd/mail-admin/app/lmtp_server.go:250-271 | lines sent to the LMTP reader and then fetched through the POP3 writer come back to the client as sent |
| TopLines.TopBodyLines | cmd/mail-admin/app/pop3_server.go:390-410 | after the header block come exactly the first min(n, count) body lines |
| TopLines.TopGrows | cmd/mail-admin/app/pop3_server.go:390-410 | a response is a prefix of that for any larger count |
| TopLines.TopOfText | cmd/mail-admin/app/pop3_server.go:390-410 | a response is a prefix of the normalised text, and all of it once n reaches the body line count |
| TopLines.HeaderEndsAtFirstBlank | cmd/mail-admin/app/pop3_server.go:393-398 | the header block ends at the first blank line; without one the message is returned as it is |
| DotData.TwoCrs | cmd/mail-admin/app/pop3_server.go:377 | the text CR CR LF is changed by a second normalisation |
| TopLines.TopDiffersFromRetr | cmd/mail-admin/app/pop3_server.go:390-410 | a message with CR CR LF whose TOP differs from its RETR |
| TopLines.TopAgreesWithRetrIff | cmd/mail-admin/app/pop3_server.go:390-410 | TOP with a covering count shows the lines of RETR if and only if there is no blank line or no CR CR LF |
| Archive.SQLStore.NewMailbox | cmd/mail-admin/app/internal/archive/sqlstore.go:242-258 | inserts the normalised row in listing order, or fails on the unique index or a failed statement, changing nothing |
| Archive.SQLStore.Mailboxes | cmd/mail-admin/app/internal/archive/sqlstore.go:260-291 | the user's mailboxes in order; a blank address lists everybody's |
| Archive.SQLStore.NewMessage | cmd/mail-admin/app/internal/archive/sqlstore.go:317-355 | succeeds exactly if the statement is executed and the mailbox exists; then one more message is there, under an unused identifier, with the given text and size and trimmed addresses, and all others are as before |
| Archive.SQLStore.RemoveMessage | cmd/mail-admin/app/internal/archive/sqlstore.go:311-315 | after success the message is not there, whether or not it was, and all other messages and mailboxes are as before |
| Archive.SQLStore.Messages | cmd/mail-admin/app/internal/archive/sqlstore.go:357-411 | newest first, each once, only of that mailbox, and left out only when the limit is full of messages at least as new |
| Archive.CreateMailboxValid | cmd/mail-admin/app/internal/archive/sqlstore.go:137-141 | creation keeps keys unique and the listing sorted, fails exactly on a duplicate key, and adds exactly one row otherwise |
| Archive.CreateMessageValid | cmd/mail-admin/app/internal/archive/sqlstore.go:317-355 | storing keeps every message in an existing mailbox under its own identifier |
| Archive.ListingIs | cmd/mail-admin/app/internal/archive/sqlstore.go:260-291 | for a non-blank address the listing holds exactly that user's mailboxes, sorted |
| FindOrCreate.FindOrCreateMailbox | cmd/mail-admin/app/lmtp_server.go:208-233 | the method does what a caller of the machine does when nobody interferes |
| FindOrCreate.ResolveMailboxIdForAutoRoute | cmd/mail-admin/app/handlers/service.go:1163-1211 | an inbound message goes to the recipient's mailbox of the inbound name, an outbound one to the sender's of the outbound name; with a working database that succeeds exactly for those directions, a valid address and a non-blank name; another direction, a rejected address and a blank name touch nothing |
| FindOrCreate.LookupIs | cmd/mail-admin/app/lmtp_server.go:213-217 | a lookup for a non-blank user returns one of that user's mailboxes of that name if and only if there is one |
| FindOrCreate.OneMailbox | cmd/mail-admin/app/lmtp_server.go:208-233 | under every interleaving at most one matching mailbox exists and all callers that finish return it |
| FindOrCreate.NobodyFails | cmd/mail-admin/app/handlers/service.go:1185-1210 | if statements are executed, callers that lose the race find the winner's mailbox and none fails |
| FindOrCreate.FindsOwnIff | cmd/mail-admin/app/internal/archive/sqlstore.go:260-291 | lookups return only the user's own mailboxes, in every valid archive, if and only if the address is not blank (or the name can match nothing) |
| FindOrCreate.BlankFindsForeignIff | cmd/mail-admin/app/internal/archive/sqlstore.go:260-291 | in a given archive a blank address finds somebody else's mailbox if and only if there is a matching one and none is stored under the empty address |
| FindOrCreate.BlankFindsOther | cmd/mail-admin/app/internal/archive/sqlstore.go:260-291 | an archive in which a blank address finds another user's mailbox |
| FindOrCreate.CreateKeepsOneIff | cmd/mail-admin/app/internal/archive/sqlstore.go:242-258 | a creation keeps the user at one matching mailbox if and only if it is for another user or name, or every matching mailbox has the same spelling |
| FindOrCreate.RunKeepsOneIff | cmd/mail-admin/app/lmtp_server.go:208-233 | over any run of callers and direct creations the user ends with at most one matching mailbox if and only if no executed creation met one spelled otherwise |
| FindOrCreate.OtherSpellingSplits | cmd/mail-admin/app/handlers/service.go:273-300 | a run in which a direct creation with another spelling, between lookup and creation, leaves two matching mailboxes |
| LmtpServer.AngleIs | cmd/mail-admin/app/lmtp_server.go:236-241 | between the first opening and the last closing bracket stands the address, whatever is outside |
| LmtpServer.AngleAfterColon | cmd/mail-admin/app/lmtp_server.go:242-244 | without an opening bracket before a closing one the address is what follows the first colon |
| LmtpServer.AngleBare | cmd/mail-admin/app/lmtp_server.go:245 | with neither the whole argument is the address |
| LmtpServer.LmtpSession.Deliver | cmd/mail-admin/app/lmtp_server.go:187-204 | one delivery changes the archive and returns an identifier as the reference function says |
| LmtpServer.LmtpSession.DeliverToAll | cmd/mail-admin/app/lmtp_server.go:139-147 | the delivery loop produces the archive and the replies of delivering to each recipient in turn |
| LmtpServer.LmtpSession.HandleCommand | cmd/mail-admin/app/lmtp_server.go:81-172 | each command changes envelope, archive, unread input and replies as the session machine says |
| LmtpServer.LmtpSession.Serve | cmd/mail-admin/app/lmtp_server.go:68-173 | the loop over a byte stream ends in the state and with the transcript of the machine run on that stream |
| LmtpServer.LineIs | cmd/mail-admin/app/lmtp_server.go:84-91 | each of the seven verbs, in any letter case and with white space around it, is its command with exactly the argument; every other line is unrecognized |
| LmtpLines.EveryStreamBegins | cmd/mail-admin/app/lmtp_server.go:84-91 | every stream with a line feed begins with a text, a line end, a first word and an argument, so the line laws leave nothing out |
| LmtpLines.LineLaw | cmd/mail-admin/app/lmtp_server.go:93-168 | the envelope, the reply code and the next bytes after every line but DATA: RSET clears the envelope, NOOP, LHLO and unknown lines change nothing, RCPT is refused with 452 from the hundred and first on, QUIT ends the session with 221 |
| LmtpLines.DataRefusedLaw | cmd/mail-admin/app/lmtp_server.go:113-117 | a DATA line without sender or recipient is answered 503, and what follows is the next line |
| LmtpLines.DataUnreadLaw | cmd/mail-admin/app/lmtp_server.go:119-137 | a body that is too large or cut off is answered 354 and one 552 per recipient, stores nothing and empties the envelope |
| LmtpLines.DataReadLaw | cmd/mail-admin/app/lmtp_server.go:119-151 | a body that is read is answered 354 and one 250 or 451 per recipient, and the session goes on after it with an empty envelope |
| LmtpLines.ServesTurn | cmd/mail-admin/app/lmtp_server.go:80-172 | the server's loop over a stream is made of such turns |
| LmtpLines.ResetAndNoopServed | cmd/mail-admin/app/lmtp_server.go:153-160 | in a served stream a line that says RSET leaves an empty envelope to what follows, and one that says NOOP the envelope before it |
| LmtpLines.ResetAborts | cmd/mail-admin/app/lmtp_server.go:113-157 | after a RSET line a DATA line is answered 503 and nothing is delivered, whatever sender and recipients came before |
| LmtpServer.EnvelopeIsHistory | cmd/mail-admin/app/lmtp_server.go:98-157 | for every command history the envelope is the sender of the last opening MAIL and the first 100 recipients since the last MAIL, RSET or body-reading DATA |
| LmtpServer.ServeIsRun | cmd/mail-admin/app/lmtp_server.go:68-173 | what the server does with any byte stream is such a command history |
| LmtpServer.ServedEnvelopeIsHistory | cmd/mail-admin/app/lmtp_server.go:68-173 | at the end of any byte stream the envelope is the one its commands ask for |
| LmtpServer.DataAcceptedIff | cmd/mail-admin/app/lmtp_server.go:113-121 | for every command history DATA answers 354 if and only if the current transaction was opened by a MAIL with a non-empty address and has named a recipient; otherwise it reads and stores nothing and says which is missing |
| LmtpServer.NullSender | cmd/mail-admin/app/lmtp_server.go:98-102 | the line `MAIL FROM:<>` is a MAIL with the empty address |
| LmtpServer.EmptySenderRefused | cmd/mail-admin/app/lmtp_server.go:113-116 | after such a MAIL every DATA is answered 503 |
| LmtpServer.DeliverOneIs | cmd/mail-admin/app/lmtp_server.go:187-204 | a delivery adds exactly one record, a full copy in a mailbox of the recipient, or none |
| LmtpServer.DataRepliesPerRecipient | cmd/mail-admin/app/lmtp_server.go:113-151 | for a server alone on the archive: DATA answers 354 and one reply per recipient; the 250 replies number as many as the new records; existing rows are kept; the envelope is reset |
| LmtpServer.DataAcknowledges | cmd/mail-admin/app/lmtp_server.go:113-151 | for a server alone on the archive: replies are in recipient order, behind each 250 is a new copy addressed to that recipient, and an unread body stores nothing |
| LmtpServer.SessionCounts | cmd/mail-admin/app/lmtp_server.go:68-173 | for a server alone on the archive: over a whole session nothing stored is lost or changed and as many records are added as deliveries were acknowledged |
| LmtpServer.HealthyDataServesAll | cmd/mail-admin/app/lmtp_server.go:113-151 | if the database executes every statement, a body that is read is answered 250 for every recipient, in order |
| Pop3Server.Pop3Session.LoadMailbox | cmd/mail-admin/app/pop3_server.go:293-320 | the maildrop is a page of at most 1000 messages of the first mailbox with the inbound name, empty if there is none; a failure changes nothing |
| Pop3Server.Pop3Session.CommitDeletions | cmd/mail-admin/app/pop3_server.go:324-332 | the loop deletes the marked messages in order and passes over failed deletes |
| Pop3Server.Pop3Session.Stat | cmd/mail-admin/app/pop3_server.go:335-343 | counts and sums the unmarked messages |
| Pop3Server.Pop3Session.Answer | cmd/mail-admin/app/pop3_server.go:360-386 | exactly the bytes of the reply are sent, with LIST and UIDL written line by line and RETR and TOP dot-stuffed |
| Pop3Server.Pop3Session.ServeAuthorization | cmd/mail-admin/app/pop3_server.go:116-161 | USER, PASS and QUIT before login, with the three-failure limit and the maildrop load |
| Pop3Server.Pop3Session.ServeTransaction | cmd/mail-admin/app/pop3_server.go:164-276 | every command after login changes marks and archive and answers as the session machine says |
| Pop3Server.Pop3Session.Serve | cmd/mail-admin/app/pop3_server.go:90-277 | from bytes to bytes: one command per line of the input, replies in order after the greeting, and the session and archive of the machine's run |
| Pop3Lines.LineIs | cmd/mail-admin/app/pop3_server.go:107-110 | each of the eleven verbs, in any letter case and with white space around it, is its command with the argument trimmed; every other line is none of them |
| Pop3Lines.UserLine | cmd/mail-admin/app/pop3_server.go:118-124 | a USER line names the lower-cased address for the next PASS, or is refused and changes nothing |
| Pop3Lines.PassLine | cmd/mail-admin/app/pop3_server.go:126-152 | a PASS line: refused without USER; a wrong password is forgotten with its address and the third closes the session; a right one opens the maildrop or closes the session |
| Pop3Lines.QuitLine | cmd/mail-admin/app/pop3_server.go:154-157 | a QUIT line is answered +OK and ends the session |
| Pop3Lines.BeforeLogin | cmd/mail-admin/app/pop3_server.go:159-161 | before login every other line is answered -ERR and changes nothing |
| Pop3Lines.AfterLogin | cmd/mail-admin/app/pop3_server.go:260-272 | after login NOOP is answered +OK; USER, PASS and unknown lines -ERR; none of them changes anything |
| Pop3Lines.RetrLine | cmd/mail-admin/app/pop3_server.go:207-220 | a RETR line with the number of an unmarked message sends it and removes nothing |
| Pop3Lines.BadNumberLine | cmd/mail-admin/app/pop3_server.go:170-251 | a number that is not one of an unmarked message is refused by LIST, UIDL, RETR and DELE, which then change nothing |
| Pop3Lines.BadTop | cmd/mail-admin/app/pop3_server.go:222-233 | TOP without a count, with a wrong number or with a negative count is refused |
| Pop3Lines.MarksAreCommands | cmd/mail-admin/app/pop3_server.go:244-258 | a message is marked exactly if a DELE with its number, accepted or not, came after login and no RSET after it |
| Pop3Lines.LinesRemove | cmd/mail-admin/app/pop3_server.go:90-277 | what a server alone on the archive removes, in terms of the lines it was sent: nothing unless the last one said QUIT after login, and then exactly the messages for which a line after login said DELE with their number and no later one said RSET |
| Pop3Wire.ReplyReadsBack | cmd/mail-admin/app/pop3_server.go:360-373 | a client reads every reply back: the first line begins with +OK or -ERR as the command succeeded or not, it shows the numbers of the reply in order, and the payload and the next reply follow |
| Pop3Wire.PairReadsBack | cmd/mail-admin/app/pop3_server.go:166-186 | the words after +OK of STAT, LIST n and UIDL n are the two numbers in their order |
| Pop3Wire.GreetingReadsBack | cmd/mail-admin/app/pop3_server.go:95-96 | the greeting is a positive line |
| Pop3Wire.StatOnTheWire | cmd/mail-admin/app/pop3_server.go:166-168 | STAT on the wire: the number of unmarked messages, then the sum of their sizes |
| Pop3Wire.ListOnTheWire | cmd/mail-admin/app/pop3_server.go:170-180 | LIST on the wire reads back as exactly the numbers and sizes of the unmarked messages, after a first line with their number and total size |
| Pop3Wire.UidlOnTheWire | cmd/mail-admin/app/pop3_server.go:189-198 | UIDL on the wire reads back as exactly the numbers and identifiers of the unmarked messages |
| Pop3Wire.ContentOnTheWire | cmd/mail-admin/app/pop3_server.go:207-219 | RETR on the wire: the size, then the normalised lines of the text, then the next reply |
| Pop3Runs.StatAgreesWithList | cmd/mail-admin/app/pop3_server.go:166-205 | in every state STAT is the number of LIST lines and the sum of their sizes, and UIDL lists as many |
| Pop3Runs.ListedIff | cmd/mail-admin/app/pop3_server.go:173-179 | LIST names exactly the unmarked messages with their sizes |
| Pop3Runs.UidListedIff | cmd/mail-admin/app/pop3_server.go:191-197 | UIDL names exactly the unmarked messages with their identifiers |
| Pop3Runs.ListedInOrder | cmd/mail-admin/app/pop3_server.go:173-179 | LIST numbers increase |
| Pop3Runs.ListedNumberWorks | cmd/mail-admin/app/pop3_server.go:347-357 | the number of every LIST line, sent back as decimal text, names that message |
| Pop3Runs.ListedNumberAnswers | cmd/mail-admin/app/pop3_server.go:170-251 | LIST, UIDL and DELE with a listed number answer about the message of that line, and DELE takes the line off the list |
| Pop3Runs.ListedNumberRetrieves | cmd/mail-admin/app/pop3_server.go:207-220 | RETR with a listed number sends the message of that line, unless another session has removed it |
| Pop3Runs.RsetRestoresAll | cmd/mail-admin/app/pop3_server.go:253-258 | RSET lists every message of the maildrop again and reports their number and total size |
| Pop3Runs.OnlyListedNumbers | cmd/mail-admin/app/pop3_server.go:347-357 | an accepted number is that of a LIST line |
| Pop3Runs.NothingBeforeLogin | cmd/mail-admin/app/pop3_server.go:116-161 | before login there is no maildrop and nothing is marked |
| Pop3Runs.MarksAreHistory | cmd/mail-admin/app/pop3_server.go:244-258 | a message is marked if and only if an accepted DELE of its number has no RSET after it |
| Pop3Runs.TransactionKeepsMaildrop | cmd/mail-admin/app/pop3_server.go:164-276 | user, numbers, identifiers and sizes stay fixed after login |
| Pop3Runs.MaildropIsLoginPage | cmd/mail-admin/app/pop3_server.go:293-320 | marks aside, the maildrop is the page loaded at login, for the user whose password was then checked |
| Pop3Runs.PendingIsNamed | cmd/mail-admin/app/pop3_server.go:118-137 | the address whose password is checked is that of the last accepted USER with no PASS since |
| Pop3Runs.ThreeFailuresClose | cmd/mail-admin/app/pop3_server.go:126-139 | at most three password checks fail in a session and the third closes it |
| Pop3Runs.CommitIs | cmd/mail-admin/app/pop3_server.go:324-332 | a commit removes a message if and only if it is marked and its delete is executed; all else is unchanged |
| Pop3Runs.OnlyQuitRemoves | cmd/mail-admin/app/pop3_server.go:263-268 | no command but QUIT after login touches the archive |
| Pop3Runs.SessionRemovesMarked | cmd/mail-admin/app/pop3_server.go:164-276 | a whole session alone on the archive removes exactly the messages whose DELE no RSET followed if it ends by QUIT after login, and nothing otherwise |
| Pop3Runs.ListingReadsBack | cmd/mail-admin/app/pop3_server.go:173-205 | an RFC 1939 client reads unstuffed listings back line by line |
| Pop3Runs.ContentReadsBack | cmd/mail-admin/app/pop3_server.go:207-242 | the client reads the normalised lines of what RETR and TOP send and finds the next reply after it |
| Pop3Runs.TopOfListed | cmd/mail-admin/app/pop3_server.go:222-242 | TOP with a number, a space and a count cuts that message, or reports that another session removed it |
| MailStore.RunKeepsInv | cmd/mail-admin/app/pop3_server.go:324-332 | over every interleaving the archive holds exactly the stored messages that no committing session has deleted, unchanged; every LMTP session's account of its deliveries is true and no two share a record |
| MailStore.MissingWasMarked | cmd/mail-admin/app/pop3_server.go:324-332 | every missing message was marked by a session that ended with QUIT |
| MailStore.ArchiveIs | cmd/mail-admin/app/pop3_server.go:324-332 | once all commits are finished the archive is the stored messages without those marked by ended sessions, in whatever order they committed |
| MailStore.DeletesCommute | cmd/mail-admin/app/pop3_server.go:324-332 | the deletes of two sessions may be swapped |
| Senders.LookStep | cmd/mail-admin/app/lmtp_server.go:208-233 | a lookup or creation of a delivery, in whatever archive it meets, keeps the delivery's account true and no message changes |
| Senders.InsertStep | cmd/mail-admin/app/lmtp_server.go:187-204 | the insert stores a full copy for the recipient under a fresh identifier, or nothing |
| Senders.ProgressedTalks | cmd/mail-admin/app/lmtp_server.go:113-151 | with its last reply a DATA command enters the transcript with one reply per recipient in their order |
| Senders.DeliveriesAreStored | cmd/mail-admin/app/lmtp_server.go:139-147 | the 250 replies of the transcript number as many as the copies that its deliveries stored |
| Refinement.DataAlone | cmd/mail-admin/app/lmtp_server.go:113-151 | uninterrupted, the statements of a DATA command give the archive, envelope and transcript of the sequential server |
| Refinement.CommitLeads | cmd/mail-admin/app/pop3_server.go:324-332 | uninterrupted, the statements of a commit do what the loop does |
| Visibility.RunKeeps | cmd/mail-admin/app/internal/archive/sqlstore.go:311-355 | over every run mailboxes stay, stored messages are never changed, and no session forgets what it answered |
| Visibility.PageShows | cmd/mail-admin/app/internal/archive/sqlstore.go:357-411 | a listing leaves a message out only if it is full of others at least as new |
| Visibility.EnvelopeOnSharedArchive | cmd/mail-admin/app/lmtp_server.go:98-157 | over every interleaving the envelope of an idle session is the one its transcript asks for |
| Visibility.AcknowledgedIsStored | cmd/mail-admin/app/lmtp_server.go:139-147 | over every interleaving of statements of any number of sessions, a 250 to a recipient stands for a record with a full copy for that recipient, in the archive unless a session that ended with QUIT has deleted it |
| Visibility.NoSharedRecord | cmd/mail-admin/app/lmtp_server.go:139-147 | two acknowledged deliveries, of one recipient named twice, of one session or of two, never share a record |
| Visibility.OwnRecords | cmd/mail-admin/app/lmtp_server.go:139-147 | over every interleaving an idle session has as many records of its own as 250 delivery replies |
| EndToEnd.MailReachesTheClient | cmd/mail-admin/app/pop3_server.go:293-320 | whatever all sessions did before and do after: from the recipient's next login on, an acknowledged message has a number under which LIST shows it with its size and RETR gives its text, until that session marks it or somebody deletes it; the user has one inbound mailbox and fewer than 1000 other messages in it are at least as new |
| EndToEnd.MailComesBack | cmd/mail-admin/app/lmtp_server.go:113-151 | lines sent after DATA and acknowledged, with every other session running in between: from the recipient's next login on LIST shows the message and RETR gives the client those lines |
| RateLimit.FixedWindow.Allow | cmd/mail-admin/app/infra/ratelimit/fixed_window.go:44-66 | one request changes only its own key's bucket and is admitted as the reference function says |
| RateLimit.SlidingBound | cmd/mail-admin/app/infra/ratelimit/fixed_window.go:44-66 | any interval as long as the window admits at most 2*max-1 requests of a key, and at most max if the window is a single tick |
| RateLimit.BoundReached | cmd/mail-admin/app/infra/ratelimit/fixed_window.go:44-66 | for every setting and every key a run reaches that bound: 2*max-1, or max for a window of a single tick |
| RateLimit.SharedBucketIff | cmd/mail-admin/app/infra/ratelimit/fixed_window.go:45-48 | keys share a bucket exactly if they are equal but for letter case and outer white space; all blank keys share one |
| RateLimit.BurstOrdered | cmd/mail-admin/app/infra/ratelimit/fixed_window.go:44-66 | the run that reaches it is ordered in time |
| RateLimit.RefusedIff | cmd/mail-admin/app/infra/ratelimit/fixed_window.go:44-66 | a request is refused if and only if its window is still running and has admitted max requests, counted over the whole run |
| Lockout.LoginGuard.IsLoginLocked | cmd/mail-admin/app/auth/service.go:205-223 | locked exactly if the address is valid and its lock has not ended; an ended lock is gone with its counter, nothing else changes and other accounts never do |
| Lockout.LoginGuard.RegisterLoginFailure | cmd/mail-admin/app/auth/service.go:227-244 | the failure that reaches the threshold makes the account locked at exactly the times before now plus the lock time, an earlier one adds one to its counter, one while locked changes nothing; other accounts never change |
| Lockout.LoginGuard.ClearLoginFailures | cmd/mail-admin/app/auth/service.go:247-256 | afterwards the account is locked at no time and has no counter; other accounts are as before |
| Lockout.LoginGuard.CheckPassword | cmd/mail-admin/app/auth/service.go:141-167 | the login handler's checks in their order |
| Lockout.CountersStayBelowThreshold | cmd/mail-admin/app/auth/service.go:227-244 | in every run every counter stays below the threshold |
| Lockout.LockHolds | cmd/mail-admin/app/auth/service.go:205-244 | until a lock ends no attempt is checked and nothing moves its end |
| Lockout.LockoutBound | cmd/mail-admin/app/auth/service.go:205-256 | any interval as long as the lock without a success has at most threshold failed checks |
| Lockout.BoundedIffValid | cmd/mail-admin/app/auth/service.go:205-244 | that bound holds for an account if and only if the mail parser accepts its address |
| Lockout.BoundReached | cmd/mail-admin/app/auth/service.go:227-244 | threshold wrong passwords are all checked and then the lock holds for its full length |
| Lockout.RefusedOnlyAfterThreshold | cmd/mail-admin/app/auth/service.go:205-244 | an account is refused only after threshold failed checks with no success between |
| AuthTokens.AuthService.UseTotpChallenge | cmd/mail-admin/app/internal/store/sqlite.go:466-486 | returns the row as it was and marks it used, ignoring a failed update |
| AuthTokens.AuthService.HandleLogin | cmd/mail-admin/app/auth/service.go:147-201 | a pair exactly for a right password of an account without second factor, a new unused challenge and nothing else exactly for one with it, and otherwise nothing changes |
| AuthTokens.AuthService.HandleTotpChallenge | cmd/mail-admin/app/auth/service.go:486-546 | a pair exactly for an unused challenge in time, an existing account and an accepted code; a challenge that was found is exhausted for every later request if the update is executed; no other challenge or token changes |
| AuthTokens.AuthService.HandleRefreshToken | cmd/mail-admin/app/auth/service.go:284-331 | a renewal exactly for a known token, neither revoked nor expired, whose holder exists; it is for that holder and lives from the second clock reading |
| AuthTokens.AuthService.HandleLogout | cmd/mail-admin/app/auth/service.go:335-355 | after success no request renews with the token; all other tokens, challenges and accounts are as before |
| AuthTokens.OneAnswerPerChallenge | cmd/mail-admin/app/auth/service.go:486-546 | after an accepted or a wrong code no later request with the challenge gets a pair or a check of its code |
| AuthTokens.SecondPairIff | cmd/mail-admin/app/internal/store/sqlite.go:482-484 | the same request gets a second pair if and only if the update was not executed and the row not purged |
| AuthTokens.TwoPairs | cmd/mail-admin/app/internal/store/sqlite.go:482-484 | a run in which one challenge gets two pairs, with a lost update |
| AuthTokens.RevokedNeverRenews | cmd/mail-admin/app/internal/store/sqlite.go:361-365 | an issued token that was logged out never again renews an access token, through purges and all other requests |
| AuthTokens.TokensWereHandedOut | cmd/mail-admin/app/auth/service.go:744-752 | every stored refresh token was handed out once to its holder, with its expiry set then |
| AuthTokens.RenewalBound | cmd/mail-admin/app/auth/service.go:310-330 | a renewed token is for the holder to whom the refresh token was handed out and expires no later than refresh expiry plus access lifetime plus the time between the two clock readings |
| AuthTokens.BoundIffReadings | cmd/mail-admin/app/auth/service.go:310-330 | renewals with given clock readings keep within refresh expiry plus access lifetime, in every run, if and only if the second reading is not after the first |
| AuthTokens.LateRenewal | cmd/mail-admin/app/auth/service.go:310-330 | a login and a renewal that exceed that bound, for any readings the other way round |
| AuthTokens.SecondFactorFollowsFirst | cmd/mail-admin/app/auth/service.go:486-546 | tokens for a one-time code go only to an account whose password opened that challenge, before it expired, for a code its secret accepts |
| AuthTokens.OAuth2Grants | cmd/mail-admin/app/auth/service.go:618-655 | a login that a provider vouches for gets a pair for its address; an unknown address becomes a viewer and a known one keeps its role |
| TimeText.TextOrder | cmd/mail-admin/app/internal/store/sqlite.go:331-338 | the order of the texts is the order of the times except when both are in one second and the earlier fraction is a proper prefix of the later |
| TimeText.ExpiryTable.PurgeExpired | cmd/mail-admin/app/internal/store/sqlite.go:367-375 | a row with the text of a time is deleted exactly if that time is past and not misordered with now, or to come and misordered with it; other rows stay as they are, and the count is right |
| TimeText.PurgedIff | cmd/mail-admin/app/internal/store/sqlite.go:367-375 | which rows a purge deletes, in terms of times |
| TimeText.PurgeBySecond | cmd/mail-admin/app/internal/store/sqlite.go:488-492 | a row of an earlier second is always deleted and one of a later second never |
| TimeText.PurgedTooEarly | cmd/mail-admin/app/internal/store/sqlite.go:367-375 | a row can be deleted half a second before it expires |
| TimeText.PurgedTooLate | cmd/mail-admin/app/internal/store/sqlite.go:367-375 | a row can be kept half a second after it expired |
| TimeText.SecondOrder | cmd/mail-admin/app/internal/store/sqlite.go:367-375 | calendar order is the order of whole seconds, over leap years and month lengths |
| TimeText.FormatReadsBack | cmd/mail-admin/app/internal/store/sqlite.go:331-359 | an expiry is read back from its stored text as the same instant, for every instant in a four-digit year |
| LineWriter.Base64LineWriter.Write | cmd/mail-admin/app/handlers/service.go:1132-1148 | the sink holds the wrapped form of everything written so far, also after a failed write |
| LineWriter.WriteAll | cmd/mail-admin/app/handlers/service.go:1132-1148 | any split into writes gives the same bytes |
| LineWriter.WrapLength | cmd/mail-admin/app/handlers/service.go:1132-1148 | n > 0 characters take n + 2*((n-1)/76) bytes |
| LineWriter.StripWrap | cmd/mail-admin/app/handlers/service.go:1132-1148 | removing CRLF gives back a text that has none |
| LineWriter.WrapLines | cmd/mail-admin/app/handlers/service.go:1132-1148 | all lines but the last have exactly 76 characters and the last has 1 to 76 |
| Export.Disk.Export | cmd/mail-admin/app/internal/syncer/exporter.go:22-74 | the three files become the contents for the users, as far as replacements succeed; a bad address changes nothing |
| Export.Collect | cmd/mail-admin/app/internal/syncer/exporter.go:33-52 | the loop gathers the lines of all users and fails exactly when some address has not one at-sign |
| Export.DovecotLineReadsBack | cmd/mail-admin/app/internal/syncer/exporter.go:42-49 | a user's line in the Dovecot file reads back, column by column, as the address, the scheme and hash, the configured uid and gid, and the home under the mail root |
| Export.MailboxLineReadsBack | cmd/mail-admin/app/internal/syncer/exporter.go:50 | a user's line in the Postfix file is, cut at its first space, the address and its mail directory |
| Export.FilesReadBack | cmd/mail-admin/app/internal/syncer/exporter.go:54-69 | the two files are, line by line and sorted, exactly one such line for each user and no other |
| Export.DomainFileReadsBack | cmd/mail-admin/app/internal/syncer/exporter.go:57-71 | the domain file is, line by line, exactly the domains of the users in strict order |
| Export.DirectoriesAre | cmd/mail-admin/app/internal/syncer/exporter.go:43-44 | for a plain address the mail directory is domain/local/ and the home is that under the mail root |
| Export.SortSorts | cmd/mail-admin/app/internal/syncer/exporter.go:54-61 | the sort gives a sorted permutation |
| Export.SortedUnique | cmd/mail-admin/app/internal/syncer/exporter.go:54-61 | there is only one sorted permutation |
| Export.ContentsOfPermutation | cmd/mail-admin/app/internal/syncer/exporter.go:22-74 | the files are the same for every permutation of the users |
| Export.DomainListed | cmd/mail-admin/app/internal/syncer/exporter.go:51-61 | a domain is listed, once, exactly when some user has it |
| Export.MaildirsDistinct | cmd/mail-admin/app/internal/syncer/exporter.go:38-44 | different plain addresses get different mail and home directories |
| Export.SharedIff | cmd/mail-admin/app/internal/syncer/exporter.go:38-44 | two addresses share a mail or home directory if and only if domain and local part, read as one path, are rooted alike and resolve to the same elements |
| Export.NoSlashDistinct | cmd/mail-admin/app/internal/syncer/exporter.go:38-44 | different accepted addresses without a slash have directories of their own |
| Export.EveryAddressHasTwin | cmd/mail-admin/app/handlers/service.go:710-716 | every accepted address has another accepted one, with a slash, that shares its directories |
| Export.SlashMoves | cmd/mail-admin/app/handlers/service.go:710-716 | accepted pairs that share a directory: a slash moved from the local part to the domain |
| Sync.Service.SyncNow | cmd/mail-admin/app/handlers/service.go:673-681 | lists the users and exports, alone |
| Sync.TableIsLastChange | cmd/mail-admin/app/handlers/service.go:175-205 | after any interleaving an address has the hash of its last executed creation, unless a deletion came after it |
| Sync.AnyListing | cmd/mail-admin/app/internal/store/sqlite.go:258-287 | the files do not depend on the order in which users are listed |
| Sync.OneSyncAtATime | cmd/mail-admin/app/handlers/service.go:673-681 | at most one request is inside the sync |
| Sync.QuietFilesAgree | cmd/mail-admin/app/handlers/service.go:673-681 | when no request is in flight and none has failed since the last listing, the files are the export of the current table, though tables change outside the mutex |
| Sync.QuietFilesAgreeWithoutFailures | cmd/mail-admin/app/handlers/service.go:628-681 | without failures that holds at every quiet moment of every interleaving |

## Left out

- Letters, white space and case outside ASCII: the Go helpers fold and trim Unicode; the model does so for ASCII bytes.
- Reply wording of the LMTP server: replies are modelled by meaning and code; those of the POP3 server by their bytes.
- Sockets, deadlines, flushes, listener goroutines, logging and audit rows: input and output only.
- Write errors to the client: the Go code ignores them.
- What the client can make of the bytes after an oversize message: the reader does not resynchronise, and nothing is claimed about them.
- The MIME parser: the subject and text of a message are results of a parameter.
- bcrypt, SHA-256, JWT signing, one-time code checks and random identifiers: parameters and fresh numbers; hashes are taken to be injective.
- Concurrent login and challenge requests: they are modelled one after the other, since the select and update of a challenge are separate statements.
- The provider side of OAuth2 logins (state, code exchange, user data): only the issue of tokens after it.
- FindOrCreate.OtherSpellingSplits: the unique index of the model tells letter case apart, as in PostgreSQL and Oracle; under MySQL's default collation the second spelling meets the unique key instead.
- The collation of PostgreSQL, MySQL or Oracle, which the archive runs on: the model compares and orders mailbox names byte by byte, and another collation can list a user's mailboxes in another order.
- LmtpServer.DataRepliesPerRecipient: counts for a server alone on the archive; Visibility.AcknowledgedIsStored, Visibility.NoSharedRecord and Visibility.OwnRecords are the statements for a shared one.
- LmtpServer.DataAcknowledges: likewise.
- LmtpServer.SessionCounts: likewise.
- Quoted local parts and domain literals in addresses: accepted addresses are those of two dot-atoms of section 3.2.3 of RFC 5322, which the mail parser takes as they are.
- Saturation of time differences at about 292 years in the rate limiter.
- Attachment handling, SMTP sending, HTTP plumbing, the web pages, configuration loading and deployment files.
