# Cyrus IMAP: moves, appends, framing, search, annotations and idle notification

A Dafny model of the parts of the Cyrus IMAP server whose correctness does not depend on sockets or disks, with
proofs about all inputs, all runs and all crash points. Run `dafny verify dfyconfig.toml` in this directory.

- **Mailbox moves and recovery.** A mailbox moves between a source, a destination and the MUPDATE registry in
  numbered steps; any step may work, fail without effect, or work with its reply lost, and a crash may fall between
  any two effects. While the ACL is copied the destination itself tells MUPDATE of every single change.
  `ctl_mboxlist -m` is the recovery: a merge of two listings with queues of deferred work.
  Modules `AccessLists`, `KeyOrder`, `Merge`, `Resync`, `MoveState`, `MailboxMove`.
- **The append transaction.** Setup, any mix of appended and copied messages, then commit or abort: UIDs, counters,
  quota, the user-flag table and its bit words, the textual `\Seen` ranges, the stage buffer, and the APPEND command's
  loop with its APPENDUID answer. Modules `SeenRange`, `UserFlags`, `MessageFlags`, `AppendState`, `Append`,
  `AppendCommand`, `Stage`.
- **Wire framing.** Strings as they are printed and parsed, commands that are skipped, and responses of a backend that
  are relayed through a fixed buffer. Modules `Decimal`, `ProtStream`, `WireStrings`, `ImapParse`, `ImapPrint`,
  `EatLine`, `RelaySpec`, `PipeResponse`.
- **SEARCH.** The recursive parser that compiles a program into one record, against the meaning of the program.
  Modules `Letters`, `SearchQuery`, `SearchParser`.
- **Annotations.** Key and record encoding, prefix scans, and the transactional rename. Modules `AnnotationKeys`,
  `AnnotationRename`, `AnnotationStore`.
- **idled.** Linked lists in a table with a shared free list, and nodes removed while the list is walked. Modules
  `IdleLists`, `Idled`.
- **Internal dates.** The printer and the reader of date-times, and the binary search that turns civil fields into a
  time. Modules `Calendar`, `DateTime`, `DateParse`, `DateReader`, `DateWriter`.

What the source updates in place is updated in place here (classes, arrays, loops); each such method is proved against
a function or relation on values, and the properties are lemmas about those.

## Findings

Properties that the code does not have on all inputs, with the exact condition under which it has them.

- **A crash while the ACL is copied.** Every SETACL and DELETEACL on the destination ends with an MUPDATE activation
  on the destination's own behalf (`mboxlist.c:1623-1645`), so from the first such change on a crash leaves the
  destination in charge, with whatever rights it has by then; the source's full copy is wiped by the resync. All
  messages survive. `MailboxMove.DoXferSingle` states it for every crash point: recovery converges at all of them, with
  the rights of the original, if and only if the outcomes neither lose the copy nor strip the ACL; and
  `AccessLists.WorkingCopyExposedIff` shows that nearly every successful move passes through such a state. Concrete
  state: `MailboxMove.CrashLeavesBareAcl`.
- **A backout that loses the mailbox.** If MUPDATE has been told of the destination (by one ACL change, or by an
  activation whose reply was lost), a later step fails, the activation that takes it back fails and the LOCALDELETE
  works, then MUPDATE names a server without a copy, and the two resyncs delete both copies. No reply need be lost:
  `MailboxMove.LosesBothCopies`, `MailboxMove.GoneLosesBoth`. This is the only way to lose messages.
- **A refused DELETEACL goes unnoticed** (`imapd.c:8662-8676`). The move succeeds, and the new copy has the original's
  rights exactly if every identifier whose deletion went wrong is in the original ACL: `AccessLists.CopiedRightsIff`,
  `MailboxMove.RefusedDeletionGoesUnnoticed`.
- **The MOVING flag is not backed out** without MUPDATE, or when the caller made the reservation
  (`imapd.c:8854-8857`): second half of the failure clause of `MailboxMove.DoXferSingle`.
- **A resync with the local copies authoritative** wipes nothing, so on both sides it converges if and only if one
  server has everything and the other nothing, and never from two copies: `MoveState.AuthoritativeConvergesIff`.
- **The one-pass merge** wipes no mailbox that MUPDATE places on this host if and only if MUPDATE's listing is in the
  order of the database walk: `Resync.HostedSurviveIffInWalkOrder`.
- **Flag counters** are exact after a commit if and only if no counted system flag is repeated in the flag list of one
  message (`append.c:601-616`): `MessageFlags.CountsExactIff`, `AppendState.MadeVisibleCounts`.
- **A failed write of the index header** leaves the new files behind: the abort that follows looks above the UIDs just
  taken (`append.c:310-315`); stated by `Append.Transaction.Commit`.
- **Copying no messages** gives up the whole append and reports success (`append.c:848-852`); stated by
  `Append.Transaction.Copy`.
- **SEARCH BEFORE and SENTBEFORE** also select messages dated at the very first second of the day, since the
  evaluation compares with `>` (`index.c:3078-3085`). Sent dates come from the Date header as noon of its day
  (`message.c:541`), so for SENTBEFORE that takes a message without a usable Date header that was stored at exactly
  midnight. For which dates, sizes and numbers each key is exact: `SearchParser.DateIsExactIff`,
  `SearchParser.SizeIsExactIff`, `SearchParser.ModseqIsExactIff`.
- **Two MODSEQ keys** in one record run their digits together (`imapd.c:8223-8231`). The record still asks for both if
  and only if what the first one adds vanishes modulo 2^64, `SearchParser.TwoModseqKeysIff`; unless something
  overflows, only if the first is zero, `SearchParser.TwoModseqKeysThatFitIff`.
- **NOTIFY** leaves exactly the entries that have not timed out if and only if no process has a live entry in front of
  an expired one, for it removes the first entry of the process: `Idled.WalkLeavesLiveIff`,
  `Idled.TwoEntriesOfOneProcess`.
- **Annotations** survive a rename if and only if the mailbox is not renamed onto itself with annotations on it (each
  is written and then deleted), and no entry of the old user has a different one of the new user:
  `AnnotationRename.KeepsEveryIff`. Equal names are refused before the rename as this tree is configured
  (`imapd.c:6097-6101`), so the first case needs a mailbox with two names, as when an administrator moves INBOX to
  another partition under its full name.
- **Dates** survive printing and reading if and only if the zone is a whole number of minutes below 100 hours, the year
  has four digits and the local time is not 23:59:59 on 31 December 1969, which `mkgmtime` cannot tell from a failure:
  `DateWriter.PrintedDateIsRead`.
- **Named zones** are read for what they mean to the parser of Date headers (`message.c:1618-1665`) if and only if the
  name is none of J to M, no two-letter name, not GMT and no daylight saving time: `DateTime.NamedOffsetIff`. UT and GMT
  are refused, other two-letter names count as Greenwich time, K to M are an hour too far, J is accepted, and daylight
  saving takes an hour off where it should add one: `DateTime.MisreadZones`, `DateTime.MisreadLetters`.
- **Seconds** are not checked, for the reader looks at the minutes twice (`imapd.c:9600-9607`). A date-time that is
  accepted is a real time if and only if its seconds are below 60: `DateTime.RealTimeIff`; one with 99 seconds is
  accepted: `DateTime.SecondsUnchecked`.
- **eatline** keeps the size of a literal in an int. Every literal of a size is passed over, whatever it contains, if
  and only if the size is below 2^32: `EatLine.AllPassedOverIff`. Of a larger one, as many characters as the wrapped
  size says are skipped, and the rest is read as text, up to the first newline: `EatLine.EatsLiteral`,
  `EatLine.StopsInLiteral`.
- **last_result** is what follows the tag of a tagged response if and only if that is a line of at most 2047 characters
  without a literal; of every later chunk as many characters are cut off as the tag and its space have
  (`imap_proxy.c:180-194`): `PipeResponse.PipeResponse`, `PipeResponse.OneChunkIff`.
- **getxstring** stops the process for a literal exactly if it is larger than MAXLITERAL. Of the others a quoted-string
  parser refuses every one, and every parser but the binary one refuses those with a NUL; what is not refused is
  delivered: `WireStrings.LiteralFormRoundTrip`, `ImapParse.GetXString`.

## Model

| member | source | states |
|---|---|---|
| MailboxMove.DoXferSingle | cyrus_imap/imap/imapd.c:8760-8987 | For every outcome of every step: the move is reported as done if and only if every step whose answer is looked at worked; some server has all messages at all times; recovery converges at every crash point if and only if the copy is not lost, and with the original rights if and only if also nothing is stripped; an active entry names a server with all messages at all times under the same condition; success leaves one copy, on the partition asked for, that MUPDATE names, and from the first copied message on nobody was sent to the source; a failure before the activation with working backouts restores all three parties; one after it takes nothing back |
| MailboxMove.CrashAndRecover | cyrus_imap/imap/imapd.c:8760-8987 | A move cut off after any number of effects, followed by the two resyncs run on that state, leaves one server with all messages, unflagged and named by MUPDATE, unless the outcomes lose the copy; with the original rights unless they strip them |
| MailboxMove.RunConverges | cyrus_imap/imap/imapd.c:8830-8979 | For every run of the steps, crash convergence at all states if and only if neither exception applies |
| MailboxMove.LosesBothCopies | cyrus_imap/imap/imapd.c:8951-8977 | Outcomes without a lost reply under which the copy is lost |
| MailboxMove.GoneLosesBoth | cyrus_imap/imap/ctl_mboxlist.c:219-304 | When MUPDATE names a server that deleted its copy, the resyncs leave no copy and no entry |
| MailboxMove.CrashLeavesBareAcl | cyrus_imap/imap/mboxlist.c:1623-1645 | A crash after the first pushed deletion leaves the destination in charge with an empty ACL |
| MailboxMove.RefusedDeletionGoesUnnoticed | cyrus_imap/imap/imapd.c:8662-8680 | A refused DELETEACL is not reported and leaves an extra identifier |
| MoveState.RecoveryConvergesIff | cyrus_imap/imap/ctl_mboxlist.c:343-481 | Which states of the three parties the two resyncs bring to convergence, with and without the rights |
| MoveState.AuthoritativeConvergesIff | cyrus_imap/imap/ctl_mboxlist.c:263-281 | With the local copies declared authoritative, the two resyncs converge if and only if one server has everything and the other nothing |
| MoveState.AclStatesMean | cyrus_imap/imap/mboxlist.c:1590-1645 | While the ACL is copied, some state has MUPDATE naming the destination with other rights than the original's exactly if the changes are exposed |
| MoveState.EditIsTwoEffects | cyrus_imap/imap/mboxlist.c:1590-1645 | A change that works is first the copy's ACL and then MUPDATE's entry, with the new ACL and the copy's partition |
| MoveState.Transfer.ChangeAcl | cyrus_imap/imap/mboxlist.c:1435-1660 | One SETACL or DELETEACL: the ACL is committed and then pushed, and a crash may fall between the two |
| MoveState.Transfer.TrashAcl | cyrus_imap/imap/imapd.c:8573-8687 | All identifiers are deleted, whatever the answers, and what counts as success |
| MoveState.Transfer.DumpAcl | cyrus_imap/imap/imapd.c:8689-8758 | The original's entries are set in order until one answer is not OK |
| AccessLists.ApplyMeans | cyrus_imap/lib/acl_afs.c:109-221 | Changing one identifier in a list changes the rights of that identifier and of no other |
| AccessLists.SetsAre | cyrus_imap/imap/imapd.c:8689-8758 | The entries are set in order, up to and including the first that does not work |
| AccessLists.NothingSet | cyrus_imap/imap/imapd.c:8573-8687 | Nothing is set unless the list and all but one of the answers to the deletions arrived |
| AccessLists.CopiedRightsIff | cyrus_imap/imap/imapd.c:8573-8758 | The copied ACL grants what the original does if and only if no foreign identifier's deletion went wrong |
| AccessLists.WorkingCopyExposedIff | cyrus_imap/imap/imapd.c:8573-8758 | A copy without failures is exposed if and only if a deletion is pushed or there are two entries to set |
| Resync.Server.Populate | cyrus_imap/imap/ctl_mboxlist.c:353-481 | For any order of the two listings every name ends as its own record, its entry and its recognition by the merge dictate: kept and active in MUPDATE with its partition and ACL, wiped, or forgotten by MUPDATE |
| Resync.Server.DoDump | cyrus_imap/imap/ctl_mboxlist.c:353-481 | With both sides in key order: what MUPDATE places here or nowhere is afterwards in MUPDATE with exactly the partition and ACL it has here, and kept and unflagged; what it places elsewhere is wiped; what it places here and we do not have it forgets |
| Resync.WalkMeaning | cyrus_imap/imap/ctl_mboxlist.c:196-304 | The walk judges each name once, by its own record, entry and recognition |
| Resync.VerdictMeans | cyrus_imap/imap/ctl_mboxlist.c:206-304 | When a mailbox is wiped, unflagged, or left alone: only if MUPDATE has its host, its partition and its ACL |
| Resync.ResyncedMeans | cyrus_imap/imap/ctl_mboxlist.c:206-304 | What becomes of a record and its entry, in terms of what they were and whether the merge recognised them |
| Resync.HostedSurviveIffInWalkOrder | cyrus_imap/imap/ctl_mboxlist.c:219-304 | No mailbox that MUPDATE places here is wiped if and only if the listing is in walk order |
| Merge.AllMatchedIffInWalkOrder | cyrus_imap/imap/ctl_mboxlist.c:219-251 | The one-pass merge recognises every queued name if and only if the queue is in walk order |
| SeenRange.NewUids.AddMe | cyrus_imap/imap/append.c:1028-1070 | The range string comes to denote one UID more, stays well formed, keeps the shape in which no colon follows the first number, and grows by an item exactly if the UID does not continue it |
| SeenRange.AddSeen | cyrus_imap/imap/append.c:1077-1121 | Splicing a range string behind a seen list below it denotes exactly the union, whichever place it splices at |
| SeenRange.SpliceMeaning | cyrus_imap/imap/append.c:1077-1121 | The spliced list is well formed and denotes the union at each of the splice points |
| UserFlags.RequestedMeans | cyrus_imap/imap/append.c:618-637 | No two slots hold one name, no slot changes owner, and the bits are exactly those of the requested names that are defined or found a slot |
| UserFlags.ExactLater | cyrus_imap/imap/append.c:618-637 | The bits of a message stay exact as later messages fill the table |
| UserFlags.HoldsOnce | cyrus_imap/imap/append.c:618-637 | A name is held by one slot |
| UserFlags.SameNameIff | cyrus_imap/imap/append.c:621-626 | Names are compared without regard to the case of letters |
| UserFlags.FoundAgain | cyrus_imap/imap/append.c:618-637 | A name that was given a slot is found there again, in whatever case |
| UserFlags.SetUserFlags | cyrus_imap/imap/append.c:618-637 | The loops over the table and the bit words compute what is requested |
| MessageFlags.CountsExactIff | cyrus_imap/imap/append.c:593-617 | The counters of a flag list agree with the record if and only if no counted flag is repeated |
| MessageFlags.ApplyFlags | cyrus_imap/imap/append.c:593-642 | Each system flag is set if and only if the list names it and the user may set it, each counter goes up as often as it is named, the message becomes seen if and only if \Seen is named, and the table is written if and only if a name is new |
| MessageFlags.UsersAre | cyrus_imap/imap/append.c:617-637 | Every other name is a user flag, if the user may write |
| AppendState.BuiltOneMore | cyrus_imap/imap/append.c:554-657 | Every appended message keeps the invariant of the transaction: contiguous UIDs, files, sizes, counters, flags |
| AppendState.UndoRestores | cyrus_imap/imap/append.c:346-385 | From any state of an open append, removing the files above the last UID gives back what setup found |
| AppendState.MadeVisibleSound | cyrus_imap/imap/append.c:251-343 | After a commit UIDs rise strictly, modification sequences are bounded and the count is the number of records |
| AppendState.MadeVisibleCounts | cyrus_imap/imap/append.c:251-343 | Usage agrees if it did, and the flag counters do if and only if no counted flag was repeated |
| AppendState.MadeVisibleFlags | cyrus_imap/imap/append.c:251-343 | Record by record, the UID and exactly the requested user flags |
| Append.Transaction.constructor | cyrus_imap/imap/append.c:171-243 | An append starts with nothing appended and the mailbox as it is |
| Append.Transaction.AppendOne | cyrus_imap/imap/append.c:554-657 | One message: its record, flags, counters and file, or everything undone |
| Append.Transaction.Copy | cyrus_imap/imap/append.c:829-1023 | A run of copies: all files, then all records, each with its flags and size, or everything undone |
| Append.CopiedSystemIff | cyrus_imap/imap/append.c:960-995 | A copy keeps a flag if and only if the right for it is there |
| Append.Transaction.Commit | cyrus_imap/imap/append.c:251-343 | What becomes visible, for every combination of failing writes; the header with the flag names need only be written if there are new ones; a second commit does nothing |
| Append.Transaction.Abort | cyrus_imap/imap/append.c:346-385 | The files above the last UID and the cache growth go; a second abort does nothing |
| AppendCommand.Setup | cyrus_imap/imap/append.c:171-243 | When an append is refused, and why, in the order of the checks: opening, rights, locking, format, the quota root and the quota, which no quota root satisfies |
| AppendCommand.RefusalMeans | cyrus_imap/imap/append.c:171-243 | When each refusal is given; the quota counts in units of 1024 bytes |
| AppendCommand.AppendStaged | cyrus_imap/imap/imapd.c:3858-3873 | The loop over the staged messages takes all of them or stops undone |
| AppendCommand.AppendMessages | cyrus_imap/imap/imapd.c:3850-3930 | The whole command: refusal; or all messages, each with its file, size, modification sequence and exactly the flags that were named and permitted, and counters, quota and seen state; or the mailbox unchanged; the client is told exactly the new UIDs if it may read |
| AppendCommand.AppendUidsMean | cyrus_imap/imap/imapd.c:3918-3927 | The announced set denotes exactly the new UIDs |
| AppendCommand.ArrivedSeenIff | cyrus_imap/imap/append.c:593-597 | The new \Seen UIDs are those of the messages whose list names \Seen |
| Stage.StagedMessage.Partition | cyrus_imap/imap/append.c:491-549 | The parts buffer stays a list of distinct paths with a double NUL; one doubling is enough |
| Stage.StagedMessage.Find | cyrus_imap/imap/append.c:491-508 | The search finds a path exactly if it is listed, and else stands where it belongs |
| Stage.StagedMessage.Remove | cyrus_imap/imap/append.c:660-678 | Every staged path is unlinked once, in order |
| ImapParse.GetXString | cyrus_imap/imap/imapparse.c:108-281 | The parser of atoms, quoted strings and literals delivers what the text spells, with the buffer's capacity kept at every growth and no overflow of the length; it is fatal exactly if the literal is too large, or the quoted string or bare word outgrows the buffer it started with |
| ImapParse.GetWord | cyrus_imap/imap/imapparse.c:75-101 | A word is read up to its end, and is fatal exactly if it is longer than the limit that the buffer's growth leaves |
| ImapParse.LimitBounds | cyrus_imap/imap/imapparse.c:85-99 | That limit lies above the declared maximum, by at most one growth of the buffer unless the buffer was larger before |
| ImapPrint.PrintString | cyrus_imap/imap/imapd.c:9701-9721 | What is printed, as a quoted string or as a literal |
| ImapPrint.PrintAString | cyrus_imap/imap/imapd.c:9726-9751 | What is printed, as an atom if it is one |
| ImapPrint.PrintAndRead | cyrus_imap/imap/imapparse.c:108-281 | The parser run on what the printer wrote gives the same string and stands right behind it, without a fatal error; it asks to go ahead exactly if a literal was printed |
| ImapPrint.PrintAndReadAString | cyrus_imap/imap/imapparse.c:108-281 | The same for astrings in front of the end of a word |
| ImapPrint.ForwardAndRead | cyrus_imap/imap/imapparse.c:168-229 | The same for the literal sent without waiting, without a go-ahead |
| WireStrings.PrintedRoundTrip | cyrus_imap/imap/imapd.c:9701-9721 | A NUL-free string up to MAXLITERAL that was printed is parsed back, consuming exactly its text |
| WireStrings.NoWaitRoundTrip | cyrus_imap/imap/imapparse.c:168-229 | So is the form without waiting that is sent to a backend |
| WireStrings.PrintedAStringRoundTrip | cyrus_imap/imap/imapd.c:9726-9751 | So is an astring |
| WireStrings.LiteralFormRoundTrip | cyrus_imap/imap/imapparse.c:168-229 | Any literal for a parser that takes literals: fatal if it is larger than MAXLITERAL, else refused if it has a NUL and the parser is not the binary one, else delivered |
| WireStrings.LiteralRefused | cyrus_imap/imap/imapparse.c:150-229 | A quoted-string parser refuses every literal at its brace, the others one with a NUL once it has been read, and the binary one none |
| WireStrings.UnclosedQuote | cyrus_imap/imap/imapparse.c:122-148 | A line that ends inside a quoted string makes it none, and the end of the line is left |
| WireStrings.BareWord | cyrus_imap/imap/imapparse.c:231-281 | A bare word is an astring, an nstring if it is NIL, and no other string |
| EatLine.EatLine | cyrus_imap/imap/imapparse.c:287-315 | The loop consumes what the scan says |
| EatLine.EatsCommand | cyrus_imap/imap/imapparse.c:287-315 | Of brace-free text and non-synchronizing literals exactly the command is eaten, newlines in literals included |
| EatLine.StopsAtWaiting | cyrus_imap/imap/imapparse.c:287-315 | The header of a literal whose sender waits ends the command |
| EatLine.EatsLiteral | cyrus_imap/imap/imapparse.c:296-309 | As many characters as the announced size says modulo 2^32 are skipped, and the scan goes on behind them |
| EatLine.AllPassedOverIff | cyrus_imap/imap/imapparse.c:287-315 | Every literal of a size is passed over as a whole if and only if the size is below 2^32 |
| EatLine.StopsInLiteral | cyrus_imap/imap/imapparse.c:287-315 | With a newline where the wrapped size ends, the scan stops inside the literal |
| EatLine.AgreesWithGetXString | cyrus_imap/imap/imapparse.c:168-229 | After a literal both readers stand at the same place |
| PipeResponse.PipeResponse | cyrus_imap/imap/imap_proxy.c:117-265 | On every well-formed stream the relay reads and writes exactly what is expected, wherever the chunks end; the result is OK, NO or BAD as the character behind the tag says, and a lost connection if it says none of these or the stream ends first; last_result is what follows the tag if and only if the tagged response came in one chunk |
| PipeResponse.OneChunkIff | cyrus_imap/imap/imap_proxy.c:180-194 | A response comes in one chunk if and only if it is a line without a literal of at most 2047 characters |
| RelaySpec.Transparent | cyrus_imap/imap/imap_proxy.c:117-265 | Untagged responses go through unchanged, tag-like text in literals included; the relay ends exactly after the tagged response, which is the one to be stored and whose character behind the tag is the result |
| RelaySpec.Unended | cyrus_imap/imap/imap_proxy.c:145-151 | A stream that ends before the tagged response goes through as far as it goes, and the result is a lost connection |
| RelaySpec.WithoutTag | cyrus_imap/imap/imap_proxy.c:106-126 | Without a tag exactly the first response is read, and shown if that is asked for |
| RelaySpec.ResultIsSaid | cyrus_imap/imap/imap_proxy.c:153-181 | On every stream of pieces the result is what the ending response says |
| RelaySpec.AnnouncedSize | cyrus_imap/imap/imap_proxy.c:220-236 | A bracket with digits at the end of a line announces that size |
| RelaySpec.LiteralLine | cyrus_imap/imap/imap_proxy.c:220-255 | Every literal below 2^31 behind a line without a NUL is part of a well-formed stream |
| PipeResponse.ScanLiteral | cyrus_imap/imap/imap_proxy.c:220-236 | The backward scan finds the literal that the line announces |
| SearchParser.Parser.GetSearchProgram | cyrus_imap/imap/imapd.c:7972-7987 | A program is recognised exactly, and what it is compiled into selects the messages it asks for |
| SearchParser.Parser.GetSearchCriteria | cyrus_imap/imap/imapd.c:7990-8462 | The same for one key, through parentheses, NOT and OR |
| SearchParser.ProgramMeaning | cyrus_imap/imap/imapd.c:7972-8462 | The record of a program matches exactly the messages the program asks for, section 6.4.4 of RFC 3501, where the record can express them |
| SearchParser.ExpressibleWhen | cyrus_imap/imap/imapd.c:7990-8462 | What a record can say of a message: everything but the dates, sizes and numbers named below |
| SearchQuery.FlagKeysAsk | cyrus_imap/imap/imapd.c:8029-8128 | What the flag keys ask, section 6.4.4 of RFC 3501 |
| SearchQuery.DateKeysAsk | cyrus_imap/imap/imapd.c:8300-8334 | What the date keys ask |
| SearchQuery.TextKeysAsk | cyrus_imap/imap/imapd.c:8131-8180 | What the keys with a text ask, headers in the cache included |
| SearchParser.OrMeans | cyrus_imap/imap/imapd.c:8250-8271 | OR compiles into two records of a sublist |
| SearchParser.NotMeans | cyrus_imap/imap/imapd.c:8234-8246 | NOT compiles into one |
| SearchParser.DateIsExactIff | cyrus_imap/imap/index.c:3078-3085 | For which days and messages each date key selects what it asks for: BEFORE if and only if the message is not dated at the start of the day, apart from dates of 0 |
| SearchParser.SizeIsExactIff | cyrus_imap/imap/index.c:3075-3076 | For which numbers and messages LARGER and SMALLER do, with the number wrapped at 32 bits |
| SearchParser.ModseqIsExactIff | cyrus_imap/imap/index.c:3087 | For which numbers and messages MODSEQ does, with the number wrapped at 64 bits |
| SearchParser.TwoModseqKeysIff | cyrus_imap/imap/imapd.c:8223-8231 | Two MODSEQ keys ask for both if and only if what the first one adds to the second vanishes modulo 2^64 |
| SearchParser.TwoModseqKeysThatFitIff | cyrus_imap/imap/imapd.c:8223-8231 | Without an overflow, if and only if the first is zero |
| AnnotationKeys.KeysDiffer | cyrus_imap/imap/annotate.c:287-304 | Different entries have different keys |
| AnnotationKeys.NetworkOrder | cyrus_imap/imap/annotate.c:306-328 | Numbers are stored with the most significant byte first |
| AnnotationKeys.WildcardsMatch | cyrus_imap/imap/annotate.c:336-352 | `*` matches anything, `%` anything without a separator |
| AnnotationKeys.DecodesRecord | cyrus_imap/imap/annotate.c:306-328 | A record decodes to the value, type, length and 32-bit time it was made of |
| AnnotationKeys.WriteThenRead | cyrus_imap/imap/annotate.c:1333-1398 | A read after a write gives what was written, and NIL deletes; every other entry is as before |
| AnnotationKeys.PrefixLosesNone | cyrus_imap/imap/annotate.c:372-399 | Every entry that matches the two patterns has the fixed prefix |
| AnnotationStore.Store.Write | cyrus_imap/imap/annotate.c:1400-1415 | The write with its defaults, seen through the plain map |
| AnnotationStore.Store.Find | cyrus_imap/imap/annotate.c:1333-1354 | A lookup reads the map |
| AnnotationStore.Store.FindAll | cyrus_imap/imap/annotate.c:372-399 | The restricted scan shows exactly what a scan of everything with both patterns would, in key order |
| AnnotationStore.Store.Rename | cyrus_imap/imap/annotate.c:2045-2070 | All or nothing: the renamed database after a commit, else the old one |
| AnnotationStore.ScanStep | cyrus_imap/imap/annotate.c:2014-2043 | The scan never meets what the rename writes |
| AnnotationRename.MovedIsRenamed | cyrus_imap/imap/annotate.c:2014-2070 | Moving the entries one by one in key order is the rename |
| AnnotationRename.KeepsEveryIff | cyrus_imap/imap/annotate.c:2014-2070 | Every value, type and time is kept if and only if there is no clash and no rename onto itself |
| AnnotationRename.OthersUntouched | cyrus_imap/imap/annotate.c:2014-2070 | Nothing is left under the old name and no third mailbox changes |
| AnnotationRename.NothingInvented | cyrus_imap/imap/annotate.c:2014-2070 | Every annotation of the new mailbox was there or comes from the old one |
| AnnotationRename.WhoseAfterwards | cyrus_imap/imap/annotate.c:2014-2043 | The renamed user's private entries are the new user's, shared ones and those of others stay whose they are |
| AnnotationRename.RenameAndBack | cyrus_imap/imap/annotate.c:2045-2070 | Renaming to a free name and back restores the database |
| Idled.Daemon.Serve | cyrus_imap/imap/idled.c:167-230 | Over any run of messages every mailbox's list is what the messages made of it, and every NOTIFY signals exactly the live processes, in order; no node is ever lost, and a block of new ones comes exactly with each process that starts to idle when none is free |
| Idled.Daemon.Notify | cyrus_imap/imap/idled.c:186-212 | The walk with removals under way ends, signals the live and drops the expired, and keeps all nodes in place |
| Idled.LiveInOrder | cyrus_imap/imap/idled.c:186-212 | The signalled entries are those whose time plus the timeout is not before now, in list order |
| Idled.SignalledWhileIdle | cyrus_imap/imap/idled.c:167-230 | Over a run: a process that registered once is signalled by a notification of its mailbox if and only if its time is not over, and the first late notification takes it off |
| Idled.OwnHistory | cyrus_imap/imap/idled.c:167-230 | Until then its entry stays, once, whatever the messages of other processes are |
| Idled.Daemon.GetIentry | cyrus_imap/imap/idled.c:113-135 | A node from the free list, which is filled with a block when empty |
| Idled.Daemon.IdleDone | cyrus_imap/imap/idled.c:138-164 | The first entry of the process goes to the free list; nodes are conserved |
| Idled.WalkLeavesLiveIff | cyrus_imap/imap/idled.c:186-212 | What is left are the live entries if and only if no process has a live entry in front of an expired one |
| Idled.OnePerProcess | cyrus_imap/imap/idled.c:186-212 | With one entry per process exactly the live ones stay |
| Idled.StaysOneEach | cyrus_imap/imap/idled.c:167-230 | One entry per process stays one, as long as nobody registers twice |
| Idled.TwoEntriesOfOneProcess | cyrus_imap/imap/idled.c:138-164 | With two, the walk can drop the live entry and keep the expired one |
| DateWriter.PrintedDateIsRead | cyrus_imap/imap/global.c:625-652 | A printed and quoted time is read back if and only if the zone is whole minutes below 100 hours, the year has four digits and the local time is not the last second of 1969 |
| DateReader.GetDateTime | cyrus_imap/imap/imapd.c:9504-9696 | Exactly the date-times of both formats that pass the checks are read, up to the closing quote; everything else is refused |
| DateWriter.CyrusCtime | cyrus_imap/imap/global.c:625-652 | The text in the buffer and nothing behind it, and the two cases that abort |
| DateWriter.CTimeFits | cyrus_imap/imap/global.c:625-652 | With a four-digit year and a zone below 100 hours 27 bytes are enough |
| DateWriter.WrittenParts | cyrus_imap/imap/global.c:648-652 | Where the day, the year, the clock and the zone stand in the text |
| DateTime.RoundTripIff | cyrus_imap/imap/imapd.c:9504-9696 | The fields of a printed time denote it, under the same condition |
| DateTime.EastIsEarlier | cyrus_imap/imap/imapd.c:9656-9690 | An offset to the east makes the same clock that much earlier, one to the west later |
| DateTime.ChecksAre | cyrus_imap/imap/imapd.c:9519-9596 | Which days, months and clocks are accepted |
| DateTime.NamedOffsetIff | cyrus_imap/imap/imapd.c:9610-9654 | For which zone names the reader agrees with the parser of Date headers |
| DateTime.MisreadZones | cyrus_imap/imap/imapd.c:9630-9653 | UT, GMT, an unknown two-letter name and a daylight saving time, each misread |
| DateTime.MisreadLetters | cyrus_imap/imap/imapd.c:9618-9629 | The military letters J to M, misread |
| DateTime.RealTimeIff | cyrus_imap/imap/imapd.c:9580-9607 | An accepted date-time is a real time if and only if its seconds are below 60 |
| DateTime.SecondsUnchecked | cyrus_imap/imap/imapd.c:9598-9607 | 99 seconds are accepted, as 39 seconds past the next minute |
| DateParse.StampAtText | cyrus_imap/imap/imapd.c:9504-9696 | Every date-time is recognised for what it is |
| DateParse.StampAtMeans | cyrus_imap/imap/imapd.c:9504-9696 | Nothing else is |
| Calendar.SearchGmTime | cyrus_imap/lib/mkgmtime.c:111-163 | The binary search finds the minute that the civil fields name if there is one within 40 bits, and fails otherwise |
| Calendar.MkGmTimeOfGmTimeIff | cyrus_imap/lib/mkgmtime.c:111-163 | It undoes gmtime if and only if the minute is within 40 bits or the failure happens to be the time |
| Calendar.Earlier | cyrus_imap/lib/mkgmtime.c:94-109 | The order of civil fields is the order of time |

The functions at the bottom are fixed by small lemmas that name the characters, numbers and names themselves:
`Letters.SameLoweredIff`, `Decimal.ValueOfMore`, `KeyOrder.BeforeMeans`, `AccessLists.DeletesAre`,
`Resync.StripServerKeepsPlain`,
`SeenRange.RangeMeans`, `UserFlags.DecodedIff`, `MessageFlags.OccurrencesAre`, `Append.CopiedSeenIff`,
`AppendState.CommittedMeans`, `AppendCommand.OverQuotaIff`, `WireStrings.EndsWordIff`, `WireStrings.QuotableIff`,
`WireStrings.IsAtomTextIff`, `WireStrings.LiteralFormIs`, `WireStrings.NoStringStarts`, `RelaySpec.PlainLine`,
`SearchQuery.HeaderFieldIs`, `SearchQuery.NumberKeysAsk`, `SearchQuery.CombinationsAsk`, `SearchParser.TokensAre`,
`SearchParser.NotGrammatical`, `AnnotationKeys.KeyIs`, `AnnotationKeys.RecordIs`, `AnnotationKeys.DefaultType`,
`DateTime.YearIs`, `DateTime.MonthsAre`, `DateTime.SyntaxIs`, `DateTime.GoodZones`, `DateWriter.WrittenTimes`,
`DateWriter.WrittenZones`, `Calendar.LeapYears`, `Calendar.DaysOfMonths`, `Calendar.Epoch`, `Calendar.YearLater`,
`Stage.EncodedIs`.

## Left out

- Connections, TLS and login, the start of a move up to the connections, and the resync when MUPDATE cannot be
  reached: the model starts with all parties connected.
- Moves of a user's mailboxes as one unit: the code has no backout for those already moved.
- MoveState.Transfer.TrashAcl: one DELETEACL whose answer is not awaited is taken to be done, or never done, before the
  next step; a command that the destination still works on after the source gave up counts as finished.
- MoveState.Transfer.ChangeAcl: the destination is taken to use MUPDATE if the source does; rights are compared as
  written, and identifiers are taken to be canonical.
- MoveState.Transfer.SetEntry: that MUPDATE refuses to deactivate an entry that is not active is one of the possible
  outcomes, not a consequence of the entry.
- MailboxMove.DoXferSingle: deleting the local mailbox is one step, and quota roots, seen state and sieve scripts that
  travel with the messages are part of their contents.
- Resync.Server.Populate: the commands sent to MUPDATE and the local updates succeed; the location pushed for a mailbox
  that was moving still names the other server's partition, and only its host is claimed to agree.
- Append.Transaction.Copy: spooling, including the conversion of line ends, is an outcome with its content; UUIDs
  and dates in records are not modelled.
- Append.Transaction.Commit: nothing is claimed of the mailbox when the index header cannot be written beyond what is
  left on disk, nor of the quota when its write fails.
- AppendCommand.AppendMessages: reading the literals and URLs of the command; the messages arrive staged.
- Stage.StagedMessage.Remove: unlinking always works.
- ImapParse.GetXString: the input is a sequence of bytes and the go-ahead an output; a lone backslash at the end of the
  stream is as the code has it.
- PipeResponse.PipeResponse: the fatal exit for the current backend, what is read from a connection that has been closed
  because its tagged line says neither OK, NO nor BAD, a stream that ends inside a line or a literal, lines with NULs and
  literal sizes beyond an int; what `last_result` holds when a chunk is shorter than the tag, and how its buffer grows.
- SearchParser.Parser.GetSearchProgram: lexical analysis of words, dates and charsets; the items arrive as tokens, and
  text is matched by lists per field.
- SearchParser.ProgramMeaning: dates of 0, sizes and MODSEQ numbers that wrap, messages of size 0, dates at the start
  of a BEFORE day, and records with two MODSEQ keys are excluded by `Expressible`, as the record cannot say them;
  for single keys the exact conditions are in SearchParser.DateIsExactIff and the two lemmas after it.
- SearchParser.TwoModseqKeysIff: two numbers that each fit 64 bits; what one larger number becomes is in
  SearchParser.ModseqIsExactIff.
- Idled.Daemon.Notify: the clock is read once for a message; the hash table is a map.
- Idled.Daemon.Serve: sockets, the alert at shutdown and the configuration.
- AnnotationStore.Store.WriteEntry: keys and records that do not fit the buffers.
- AnnotationStore.Store.FindAll: patterns are matched by definition, not by the compiled globs, and the database is an
  ordered map; a callback that stops the scan is left to Rename.
- AnnotationStore.Store.Rename: two users are only renamed together with the mailbox; a failed commit is not reported
  by the code and leaves the old database.
- Calendar.SearchGmTime: a `time_t` of 64 bits; the time zone database (the offset is a parameter).
- DateReader.GetDateTime: letters are those of ASCII; on refusal only the result is claimed, not the position.
- DateWriter.CyrusCtime: the caller's buffer holds the text.
- SNMP, reports, connection limits, usage and the generated error tables.
