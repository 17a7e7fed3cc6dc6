# KMail control plane: a verified model

KMail is a mail and calendar control plane written in Go. This project models the parts of it that
carry an invariant over every history, a true inverse, or a fast form that has to agree with a
simple one, and proves those properties in Dafny. `dafny verify dfyconfig.toml` covers all of it.

| files | what they model | main results |
|---|---|---|
| `CanonicalJson`, `Audit`, `AuditFields`, `AuditProtocol` | the audit log's hash chain and its concurrent appends | every interleaving leaves one unforked chain per tenant; equal tails mean equal payloads, and equal fields exactly when no entry can be read two ways |
| `Ttlv`, `Kmip` | the KMIP TTLV codec (section 9.1 of the OASIS KMIP specification) | the parsers agree with the message tree; framing consumes exactly one item; requests are injective |
| `FreeBusy` | free/busy merging | the report is the unique, shortest, order-independent cover |
| `Text`, `VCardText`, `VCard`, `VCardFields`, `VCardStream`, `VCardMarker`, `VCardExport` | vCard text (sections 3.3 and 3.4 of RFC 6350) | which field each line fills; parse after build is the identity exactly on clean cards; what an import makes of an export, exactly |
| `ICalendar` | unfolding and PARTSTAT rewriting (section 3.1 of RFC 5545) | a rewrite changes only matching attendees, exactly when the payload unfolds stably; whose line matches, exactly |
| `AdminSessions`, `AdminProxy` | support approvals, proxy sessions and racing expiry workers | expiry entries counted exactly; revoked sessions stay silent and are never handed out again; approvals are for good |
| `ConfidentialSend` | confidential links under a row lock | every interleaving is a serial history; its counters count and its limits hold |
| `Reminders` | the reminder scheduler | exactly one reminder per event, start and window; at most one a day, however the event moves |
| `Dunning`, `DunningProtocol` | failed payments over a rolling window | suspension exactly characterised, failing suspensions and overlapping deliveries included; redeliveries change nothing |
| `StorageLedger`, `StorageEvents` | storage accounting | the counter is the replay of its log, in closed form; totals are the committed batches; when a repeated notification counts once, exactly |
| `Proration` | prorated plan changes | bounded, monotone, antisymmetric, and additive to a cent |
| `Dns` | generated records and the checks for them | what is generated passes every check, with the exact condition for each |

Protocols are state machines over transaction steps (begin, lock, read, write, commit, abort), with a
theorem over every run. Code that updates fields in place is a class, or a method with loops, proved
against a specification function whose own properties are then proved. The SHA-256 digest, JSON
quoting, bcrypt, URL decoding and time parsing are parameters: function values about which only what
is stated in each lemma is assumed. Clocks, random ids, the answers of remote services and the
points at which a transaction fails are parameters too.

Where the code differs from what its comments say or what it is for, the model follows the code:

- The hashed payload joins its fields with pipes and does not escape them, so an entry whose text has
  pipes can be read two ways, and the chain does not tell them apart (`AuditFields.AgentReadsTwoWays`;
  the user agent logged at internal/adminproxy/service.go:285 is the caller's text). The exact condition is
  `AuditFields.DeterminedIff`, over all entry values; column types (a UUID tenant, an INET
  address) leave fewer rivals, and the one of `AuditFields.AgentReadsTwoWays` is among them.
- A PARTSTAT answer goes to every attendee whose address starts with the responder's
  (`ICalendar.LongerAddressAnswered`).
- Two payment failures whose transactions overlap do not see each other, so three within thirty days
  may leave the tenant unsuspended (`DunningProtocol.OverlapMisses`).
- Encrypt responses return the last Data item once any was non-empty, so an empty one that comes
  later wins (`Kmip.LaterEmptyDataWins`).
- A request for MLS wrapping fails when MLS is not configured, rather than falling back to a plain
  link as the comment above it says (internal/confidentialsend/service.go:213-232).
- A redelivered payment failure does not retry a suspension that failed (`Dunning.FailedSuspensionIsNotRetried`).
- A notification that failed for one tenant stores the others' batches again when it is retried, so
  retries after failures are harmless only when it concerns one tenant
  (`StorageEvents.RetriesStoreOnceIff`); one delivered again after it was accepted is stored twice in
  any case (`StorageEvents.LostAcknowledgementRepeats`).
- The KMIP parsers slice over padding they do not check for, and reading a message drops its padding,
  so a response of a length that is no multiple of 8 makes them panic (`Kmip.UnpaddedPanics`).
- A rekey fetches its key before it locks the link, so overlapping rekeys can leave the key that was
  issued first (`ConfidentialSendProtocol.OvertakenRekeyStoresOlderKey`).
- An event moved after its reminder to a start within a day gets no new one
  (`Reminders.MovedEventIsSilenced`).
- The storage log has no sequence, and its time stamps are those at which transactions started, so it
  replays to the counter in commit order only (`StorageLedgerProtocol.StartOrderDiffers`).
- An export does not keep contacts apart when a stored text is cut off inside a card: an import then
  reads the next contact into it (`VCardExport.OpenCardLeaks`). Contacts loaded from the server always have a stored
  text (internal/contactbridge/service.go:760-764), so the rebuilding branch of the export is not
  taken for them.

A digest to fixed-length text cannot be injective, so tamper evidence is stated for any digest with no
collision among the payloads of the two histories compared.

## Model

| member | source | states |
|---|---|---|
| `CanonicalJson.CanonicalJSON` | internal/audit/audit.go:391-414 | whatever order the map yields its keys in, the text is one function of the metadata: its keys in strictly increasing order, quoted, with their values |
| `CanonicalJson.SortedUnique` | internal/audit/audit.go:395-399 | a set of keys has exactly one strictly sorted listing, which is why the text does not depend on map order |
| `CanonicalJson.SortStrings` | internal/audit/audit.go:399 | the sorted slice is strictly increasing and holds exactly the keys |
| `CanonicalJson.LessIff` | internal/audit/audit.go:399 | the order is lexicographic: a proper prefix, or the smaller character at the first difference |
| `CanonicalJson.CollectKeys` | internal/audit/audit.go:395-398 | collecting keys in any map order gives each key once |
| `CanonicalJson.CanonicalTextIs` | internal/audit/audit.go:391-414 | the text is every key quoted, a colon and its value, in ascending order of the keys, with commas between and braces around |
| `CanonicalJson.SingleText` | internal/audit/audit.go:400-413 | metadata of one key is that key quoted, a colon and its value between braces |
| `CanonicalJson.TextDeterminesMetadata` | internal/audit/audit.go:391-414 | metadata with equal texts is equal, keys and values, when quoted keys and value texts show where they end, as JSON does |
| `Audit.ComputeHash` | internal/audit/audit.go:367-389 | the digest is the hash of the ten fields joined by pipe characters, metadata as its canonical text |
| `Audit.VerifyChain` | internal/audit/audit.go:304-362 | accepts exactly the rows that form one chain from the empty hash; otherwise names the first row that does not link, and whether its predecessor or its own hash is wrong |
| `Audit.ChainExtend` | internal/audit/audit.go:138-168 | a row hashed on top of the tail extends a chain to a chain |
| `Audit.PayloadPrev` | internal/audit/audit.go:367-389 | equal payloads have equal predecessor hashes |
| `Audit.PayloadFields` | internal/audit/audit.go:367-389 | of two entries that hold pipes nowhere but in the metadata, equal payloads mean equal fields, metadata as its canonical text |
| `Audit.SamePrefix` | internal/audit/audit.go:338-389 | two accepted chains that agree on one hash agree on everything before it, position by position |
| `Audit.SameTailSameChain` | internal/audit/audit.go:338-389 | tamper evidence: two accepted row lists ending in the same hash have the same length and the same payload at every position, given no collision among the hashed payloads |
| `Audit.SameTailPlainFields` | internal/audit/audit.go:338-414 | and the same fields at every position when neither history holds a pipe outside the metadata, whatever the metadata holds |
| `AuditFields.DeterminedIff` | internal/audit/audit.go:367-389 | exactly when the payload determines the fields of an entry, among all entries: no field but the metadata holds a pipe, and no other canonical metadata text stands between pipes inside the metadata; otherwise another entry has the same payload |
| `AuditFields.PlainDeterminedIff` | internal/audit/audit.go:367-389 | for metadata without pipes that is exactly when no other field holds one |
| `AuditFields.JoinedUnique` | internal/audit/audit.go:367-389 | joined fields without pipes are recovered from the text, whatever the fields compared with hold |
| `AuditFields.ReplacedIsChain` | internal/audit/audit.go:304-389 | in an accepted chain an entry of equal payload takes the place of another: the chain is accepted and ends in the same hash |
| `AuditFields.SameTailSameFields` | internal/audit/audit.go:338-414 | a history of which every entry meets that condition has the fields of any accepted history that ends in the same hash; nothing is asked of the other one |
| `AuditFields.HistoryDeterminedIff` | internal/audit/audit.go:304-414 | a tail hash stands for one history of fields, given no collisions, if and only if every entry of the history meets the condition |
| `AuditFields.SameTailSameEntries` | internal/audit/audit.go:338-414 | then the whole entries are equal too, every metadata value included |
| `AuditFields.AlteredMetadataRejected` | internal/audit/audit.go:304-414 | altering a row's metadata, in a key or in a value, breaks the chain at that row, whatever pipes its fields hold, unless the two payloads collide |
| `AuditFields.AgentReadsTwoWays` | internal/audit/audit.go:367-389 | the condition is needed: a row whose user agent reads {} then an address and an agent between pipes can be replaced, in any accepted chain, by one with empty metadata, that address and that agent, whose resource id holds the real metadata and address |
| `AuditProtocol.MutualExclusion` | internal/audit/audit.go:105-122 | two transactions past the advisory lock never belong to one tenant |
| `AuditProtocol.CommitAppends` | internal/audit/audit.go:138-168 | a commit appends its row to its own tenant and changes no other tenant, also when tenants share a lock key |
| `AuditProtocol.StepKeepsInv` | internal/audit/audit.go:92-173 | every step of every transaction, aborts included, keeps the chain invariant |
| `AuditProtocol.RunAppends` | internal/audit/audit.go:92-173 | over any run a tenant's rows only grow, by exactly the committed entries in commit order |
| `AuditProtocol.EveryRunIsChained` | internal/audit/audit.go:92-173 | after any interleaving of any number of calls over any tenants the rows in `seq` order form one unforked chain, so verification accepts, and hold exactly the committed entries |
| `AuditProtocol.AuditStore.Tail` | internal/audit/audit.go:123-137 | the tail read by `seq` is the hash of the tenant's last row |
| `AuditProtocol.AuditStore.Log` | internal/audit/audit.go:92-173 | an entry without tenant, action or actor type is rejected; a committed one extends its tenant's chain by a row that differs from the caller's entry at most in the normalised address; nothing else changes for any tenant |
| `Ttlv.PaddedLen` | internal/cmk/kmip.go:412-417 | the padded length is a multiple of 8, at least the length and less than 8 more |
| `Ttlv.PaddedLenLeast` | internal/cmk/kmip.go:412-417 | no smaller multiple of 8 holds the value |
| `Ttlv.EncodeTTLV` | internal/cmk/kmip.go:399-409 | the filled buffer is the item's header, value and zero padding |
| `Ttlv.DecodeEncode` | internal/cmk/kmip.go:351-409 | decoding an encoded item, padded or not and whatever follows, gives the item back |
| `Ttlv.AlignedStaysInside` | internal/cmk/kmip.go:245-273 | a walk over a multiple of 8 bytes never steps past the end, whatever the lengths in it say |
| `Ttlv.ForestLength` | internal/cmk/kmip.go:367-417 | every encoding is a multiple of 8 bytes long |
| `Ttlv.WalkForest` | internal/cmk/kmip.go:245-273 | walking the concatenated encodings of any trees visits exactly the items in order and ends exactly at the end |
| `Ttlv.TreeInjective` | internal/cmk/kmip.go:367-409 | two trees with equal encodings are equal |
| `Ttlv.ForestInjective` | internal/cmk/kmip.go:367-409 | two lists of trees with equal concatenated encodings are equal |
| `Kmip.ScanInner` | internal/cmk/kmip.go:253-271 | the inner loop answers with the first item of a batch item that decides, whatever follows it; undecodable bytes and missing padding before that are an error and a panic |
| `Kmip.ScanOuter` | internal/cmk/kmip.go:245-274 | the outer loop answers with the first batch item that decides, whatever follows it |
| `Kmip.ExtractResponsePayload` | internal/cmk/kmip.go:237-275 | on every byte string the two shrinking loops give the walk-level answer, a panic on missing padding included |
| `Kmip.MessagePanicsIff` | internal/cmk/kmip.go:245-274 | the parser panics exactly when the first batch item not passed over is walked past its end with nothing settled in it, or all are passed over and the message itself is |
| `Kmip.ExtractOfTree` | internal/cmk/kmip.go:237-275 | on the encoding of any message tree that answer is the tree's: the first payload in a batch item, or the error of a non-zero status before it |
| `Kmip.FirstDecisiveIs` | internal/cmk/kmip.go:253-271 | the answer is the judgement of the first item that is a payload or a bad status |
| `Kmip.NothingDecisive` | internal/cmk/kmip.go:274 | with no such item there is no payload |
| `Kmip.ExtractByTags` | internal/cmk/kmip.go:237-275 | on any well-formed response message, by tags and bytes: the bytes of the first payload structure if every result status before it starts with four zero bytes; otherwise an error for the first status that does not, a short one if it has fewer than four bytes |
| `Kmip.ExtractsNothing` | internal/cmk/kmip.go:237-275 | and no payload when the batch items hold neither; items of any other tag or type settle nothing |
| `Kmip.ParseEncryptResponse` | internal/cmk/kmip.go:279-298 | on every byte string the loop that reuses slices returns the last Data and last IV, accepted exactly when some Data is not empty; undecodable bytes and missing padding are an error and a panic |
| `Kmip.EncryptAnswersLastNonEmpty` | internal/cmk/kmip.go:279-298 | the ciphertext is the last non-empty Data exactly when no empty Data comes last |
| `Kmip.LaterEmptyDataWins` | internal/cmk/kmip.go:279-298 | an empty Data after a non-empty one gives an empty ciphertext and no error |
| `Kmip.ParseFirst` | internal/cmk/kmip.go:302-332 | Decrypt and Locate return the first value of their tag, whatever follows it, and otherwise report a missing value, undecodable bytes or a panic on missing padding |
| `Kmip.ResponsesOfTrees` | internal/cmk/kmip.go:279-332 | on encoded trees both parsers agree with the tree-level list of values |
| `Kmip.EncryptByTags` | internal/cmk/kmip.go:279-298 | an Encrypt response answers with its last Data, when that is not empty, and its last nonce, by their tags |
| `Kmip.NothingEncrypted` | internal/cmk/kmip.go:294-297 | without any Data the ciphertext is missing |
| `Kmip.FirstByTag` | internal/cmk/kmip.go:302-333 | a Decrypt or Locate response answers with the first item of its tag and type, and is an error without one |
| `Kmip.AlignedPayload` | internal/cmk/kmip.go:279-332 | a payload of a multiple of 8 bytes makes no response parser panic |
| `Kmip.Reader.ReadFull` | internal/cmk/kmip.go:336-348 | reads exactly n bytes or reports a short stream |
| `Kmip.Reader.ReadTTLV` | internal/cmk/kmip.go:336-348 | consumes one padded item and returns its header and value; fails exactly on a stream too short for it |
| `Kmip.Reader.ReceiveResponse` | internal/cmk/kmip.go:149-170 | on every stream: a read error exactly when no whole item stands at its front, otherwise one item is consumed and its payload extracted |
| `Kmip.AlignedResponse` | internal/cmk/kmip.go:237-348 | for every stream: if the length of its first item and of every batch item in it is a multiple of 8, receiving it does not panic |
| `Kmip.UnpaddedResponsePanics` | internal/cmk/kmip.go:237-348 | a response whose one item has a value of any other length panics, because reading it drops the padding |
| `Kmip.UnpaddedPanics` | internal/cmk/kmip.go:237-348 | 24 such bytes, written out |
| `Kmip.ReceivedTree` | internal/cmk/kmip.go:149-170 | on a stream that starts with a message tree exactly that message is consumed and the answer is the tree's |
| `Kmip.FramedItem` | internal/cmk/kmip.go:336-348 | on any stream of concatenated encodings the first read takes exactly the first item, and its bytes decode to it |
| `Kmip.FramedTree` | internal/cmk/kmip.go:336-348 | the same for a whole message tree |
| `Kmip.ConcatParts` | internal/cmk/kmip.go:421-431 | the buffer holds the parts one after another |
| `Kmip.WireIsTree` | internal/cmk/kmip.go:174-233 | every request on the wire is the encoding of its request tree, a multiple of 8 bytes |
| `Kmip.WireInjective` | internal/cmk/kmip.go:174-233 | equal request bytes mean equal operation, key id, data, IV and name |
| `FreeBusy.ParseTime` | internal/calendarbridge/freebusy.go:127-135 | the instant in the first layout that accepts the text; none exactly when no layout does |
| `FreeBusy.ParseEventBounds` | internal/calendarbridge/freebusy.go:126-148 | an event is an interval exactly when both its times parse and are in order, and then that interval |
| `FreeBusy.SortInPlace` | internal/calendarbridge/freebusy.go:156 | sorts by start and permutes |
| `FreeBusy.FoldCoverage` | internal/calendarbridge/freebusy.go:158-167 | folding an interval into the last one covers exactly the instants of both |
| `FreeBusy.FoldKeepsMerged` | internal/calendarbridge/freebusy.go:158-167 | and keeps intervals sorted with strictly positive gaps |
| `FreeBusy.MergeSorted` | internal/calendarbridge/freebusy.go:157-168 | the loop over the sorted slice: separated intervals with exactly the coverage, none empty if none was |
| `FreeBusy.MergeIntervals` | internal/calendarbridge/freebusy.go:152-169 | in-place sort and merge of any intervals: a separated list with exactly the input's coverage, canonical when no interval is empty |
| `FreeBusy.Compute` | internal/calendarbridge/freebusy.go:63-96 | an instant is busy exactly when it lies in the window and some parsed event covers it; the list is canonical; only missing or reversed windows are rejected |
| `FreeBusy.CanonicalUnique` | internal/calendarbridge/freebusy.go:63-96 | canonical lists with the same coverage are equal |
| `FreeBusy.SameEventsSameReport` | internal/calendarbridge/freebusy.go:63-96 | event lists with the same coverage of the window give the same report, whatever their order |
| `FreeBusy.CanonicalShortest` | internal/calendarbridge/freebusy.go:152-169 | no list with the same coverage is shorter |
| `VCardText.PassesAreOneEscape` | internal/contactbridge/service.go:603-612 | the four successive replacements are one per-character escape |
| `VCardText.UnescapeVCardValue` | internal/contactbridge/service.go:614-641 | the byte loop computes the recursive unescape |
| `VCardText.UnescapeInverts` | internal/contactbridge/service.go:603-641 | unescaping an escaped value gives it back, for every string |
| `VCardText.UnescapeReads` | internal/contactbridge/service.go:614-640 | of any text: an escaped n or N is a newline, any other escaped character is itself, and a backslash at the end stays |
| `VCardText.SplitVCardList` | internal/contactbridge/service.go:645-665 | the loop splits at unescaped commas and unescapes each piece |
| `VCardText.SplitInvertsJoin` | internal/contactbridge/service.go:592-665 | splitting the comma join of any non-empty list of escaped items gives the list back |
| `VCardText.PiecesRejoin` | internal/contactbridge/service.go:645-665 | splitting any list loses nothing: its pieces joined by commas are the list, and none can be split further |
| `VCard.ParseVCard` | internal/contactbridge/service.go:527-565 | the line loop computes the reading of the card |
| `VCard.SetProperty` | internal/contactbridge/service.go:535-562 | one property line updates exactly its field |
| `VCard.KeepGroups` | internal/contactbridge/service.go:557-561 | groups are trimmed and blank ones dropped |
| `VCardFields.LineFills` | internal/contactbridge/service.go:529-566 | a line of a name, parameters, a colon and a value fills the field of its name, in any letter case and whatever the parameters; other names fill none |
| `Text.EveryLineSpells` | internal/contactbridge/service.go:531-536 | every line with a colon has that shape |
| `VCardFields.NoColonIgnored` | internal/contactbridge/service.go:531-534 | a line without a colon does nothing |
| `VCardFields.ParsedFields` | internal/contactbridge/service.go:527-569 | of any text the parse reads, of UID, FN, ORG, NOTE and PHOTO, the last line, of EMAIL, TEL and CATEGORIES every line, and nothing else |
| `VCard.BuildVCard` | internal/contactbridge/service.go:568-601 | the builder writes the card's lines, each ended by CRLF |
| `VCard.ParseGivesClean` | internal/contactbridge/service.go:527-565 | whatever the text, a parsed card has no newline in its UID, no value ending in CR, no empty e-mail or phone, and trimmed non-blank groups |
| `VCard.BuiltParsesBack` | internal/contactbridge/service.go:527-601 | every such card is read back from its built text, field by field |
| `VCard.RoundTrip` | internal/contactbridge/service.go:527-601 | parsing a built card returns it exactly when the card is clean in that sense |
| `VCardStream.SplitMultiVCard` | internal/contactbridge/handlers.go:210-227 | the shrinking loop ends on every input and gives the recursive split |
| `VCardStream.StreamRoundTrip` | internal/contactbridge/handlers.go:184-227 | splitting concatenated cards gives one piece per card, in order, exactly when each contains `END:VCARD` only at its end; each piece of a clean card parses to it |
| `VCardMarker.ClosesOnceIff` | internal/contactbridge/service.go:568-612 | a built card contains `END:VCARD` only at its end exactly when no field of it contains it |
| `VCardStream.SplitTogether` | internal/contactbridge/handlers.go:210-227 | splitting two texts together is splitting each, exactly when the first leaves no card open that the second closes; otherwise more text ends up inside cards |
| `VCardStream.DanglesIff` | internal/contactbridge/handlers.go:213-225 | a card is left open exactly when a `BEGIN:VCARD` has no later `END:VCARD` |
| `VCardExport.ExportVCard` | internal/contactbridge/handlers.go:184-206 | writes each contact's stored text, ended by CRLF, or its rebuilt text when none is stored |
| `VCardExport.ExportSplits` | internal/contactbridge/handlers.go:184-227 | the cards of an export are the cards of each contact's text, in order, exactly when no text leaves a card open that a later one closes |
| `VCardExport.OpenCardLeaks` | internal/contactbridge/handlers.go:193-198 | a stored text cut off inside a card swallows the next contact's |
| `VCardExport.TailIgnored` | internal/contactbridge/handlers.go:210-227 | lines without a colon after a text change neither its cards nor whether one is left open |
| `VCardExport.HeadIgnored` | internal/contactbridge/handlers.go:210-227 | nor do lines without a colon before it |
| `VCardExport.ExportKeepsCards` | internal/contactbridge/handlers.go:193-198 | the exported text of every stored contact has exactly the cards of its stored text |
| `VCardExport.ImportVCard` | internal/contactbridge/handlers.go:154-180 | offers the store the draft of every piece in order and counts those without a name or refused as failed, whatever the store answers at each position |
| `VCardExport.AcceptedAre` | internal/contactbridge/handlers.go:154-180 | a nameless contact is never created |
| `VCardExport.AcceptsAllIff` | internal/contactbridge/handlers.go:154-180 | all are created exactly when each has a name and the store takes it |
| `VCardExport.ImportOfExport` | internal/contactbridge/handlers.go:154-227 | importing an export without leaks creates the cards of each contact's text |
| `VCardExport.TailUnread` | internal/contactbridge/service.go:527-565 | a line end of either kind after a card, and further lines without a colon, change nothing of what is read |
| `VCardExport.HeadUnread` | internal/contactbridge/service.go:527-565 | nor do lines without a colon before it |
| `VCardExport.ImportRecreatesIff` | internal/contactbridge/handlers.go:154-227 | when each text holds one card and nothing leaks, importing an export offers the store every contact again in order, with every field but the UID, exactly when each card has its contact's fields |
| `VCardExport.ImportRecreates` | internal/contactbridge/handlers.go:154-227 | which holds for all contacts loaded from a text that is one card with any line end and lines without a colon around it, and for all rebuilt from clean fields that do not close the card |
| `ICalendar.SplitICalLines` | internal/calendarbridge/calendarbridge.go:738-752 | the loop that appends continuation lines in place gives the unfolded lines |
| `ICalendar.ExtractICalField` | internal/calendarbridge/calendarbridge.go:716-734 | returns the value of the first unfolded line with that property name |
| `ICalendar.FieldOfLine` | internal/calendarbridge/calendarbridge.go:718-731 | a line of a name, parameters, a colon and a value has that property, in any letter case of the name and whatever the parameters, with the value trimmed, and no other |
| `ICalendar.NoColonNoField` | internal/calendarbridge/calendarbridge.go:718-730 | a line without a colon has no property |
| `ICalendar.FirstFieldIs` | internal/calendarbridge/calendarbridge.go:716-734 | the value extracted is that of the first line that has the property, or empty |
| `ICalendar.UnfoldInvertsFold` | internal/calendarbridge/calendarbridge.go:738-752 | unfolding undoes folding: lines folded anywhere, with spaces or tabs, read back whole |
| `ICalendar.UnfoldRendered` | internal/calendarbridge/calendarbridge.go:738-788 | lines written with CRLF unfold to themselves plus one empty line exactly when none but the first starts with a blank |
| `ICalendar.RewriteTwice` | internal/calendarbridge/calendarbridge.go:790-808 | rewriting a line with a and then b equals rewriting it with b |
| `ICalendar.WriteRewritten` | internal/calendarbridge/calendarbridge.go:773-784 | writes every line, the matching ATTENDEE lines rewritten, and reports whether there was one |
| `ICalendar.RewritePartstat` | internal/calendarbridge/calendarbridge.go:757-788 | a response is invalid exactly when its lower-case form is none of accepted, tentative, declined and needs-action; without a matching attendee there is an error; otherwise the payload is the unfolded lines with exactly the matching ones rewritten to the response in capitals |
| `ICalendar.AnswerCarried` | internal/calendarbridge/calendarbridge.go:776-808 | every matching line then carries that answer as its first PARTSTAT parameter |
| `ICalendar.RewriteAt` | internal/calendarbridge/calendarbridge.go:793-801 | a value the line had is replaced up to the next separator, and the rest of the line kept |
| `ICalendar.InsertAt` | internal/calendarbridge/calendarbridge.go:802-807 | a line without the parameter gets it before its first colon, and is kept otherwise |
| `ICalendar.MatchesIff` | internal/calendarbridge/calendarbridge.go:775-777 | an ATTENDEE line that names one calendar user matches exactly when that address, in any case, starts with the responder's |
| `ICalendar.AnswersOnlyIff` | internal/calendarbridge/calendarbridge.go:773-784 | so a rewrite answers for the responder alone exactly when no other attendee's address goes on after theirs |
| `ICalendar.LongerAddressAnswered` | internal/calendarbridge/calendarbridge.go:775-808 | otherwise it does not: the line of bob@x.com is rewritten for bob@x.co, and so for every address and every continuation of it |
| `ICalendar.RewriteUnfolds` | internal/calendarbridge/calendarbridge.go:738-808 | unfolding a rewritten payload gives the input's lines with only matching ATTENDEE lines changed, plus one empty line, exactly when no line but the first starts with a blank |
| `ICalendar.LinesStable` | internal/calendarbridge/calendarbridge.go:738-752 | which holds when no continuation line follows an empty one |
| `ICalendar.FoldAfterBlankBreaks` | internal/calendarbridge/calendarbridge.go:738-752 | and fails for a payload that folds onto an empty line after a matching ATTENDEE line: the rewrite succeeds and unfolds to other lines |
| `ICalendar.RewriteKeepsOtherFields` | internal/calendarbridge/calendarbridge.go:716-808 | on a payload whose unfolded lines but the first start with no blank, every property not named ATTENDEE extracts unchanged from the rewritten payload |
| `AdminSessions.StepKeepsApproved` | internal/approval/service.go:160-187 | no step takes back an approval |
| `AdminSessions.StepKeepsAccounts` | internal/adminproxy/expiry_worker.go:124-157 | every step keeps the books: a session's expiry entries are its committed expiry, plus the one transaction between audit write and commit, plus the commits lost after the audit write |
| `AdminSessions.StepKeepsInv` | internal/adminproxy/expiry_worker.go:79-157 | every step of workers, revokes, approvals and session calls keeps the whole invariant |
| `AdminSessions.EntriesOfRun` | internal/adminproxy/expiry_worker.go:124-157 | after every run a session's entries are its committed expiry, a transaction between audit write and commit, and its lost commits: at most one besides the lost ones, each written after the session's end |
| `AdminSessions.AtMostOneEntry` | internal/adminproxy/expiry_worker.go:79-157 | in every interleaving a session none of whose own commits is lost has at most one expiry entry |
| `AdminSessions.LostCommitDuplicates` | internal/adminproxy/expiry_worker.go:124-157 | a commit lost after the audit write does duplicate the entry, for every due session |
| `AdminSessions.RevokedStaysSilent` | internal/adminproxy/service.go:199-213 | a session revoked before it is expired never gets another entry and is never marked expired |
| `AdminSessions.RevokeFreezes` | internal/adminproxy/service.go:199-213 | a revoke that takes effect leaves only the entries of earlier lost commits, for good |
| `AdminSessions.ApprovedForGood` | internal/adminproxy/service.go:123-194 | every session's approval is approved for its tenant, and stays so however the run goes on |
| `AdminSessions.EveryAnswerIsSound` | internal/adminproxy/service.go:123-213 | in every interleaving a call is granted access exactly when no revoke of the session had committed when it read the row and its clock is not past the end, always under an approved request of its tenant; a call that reads after a committed revoke is refused as revoked |
| `AdminSessions.PassRuns` | internal/adminproxy/expiry_worker.go:124-157 | one worker's pass over a due session, ending in a commit, a lost commit or a lost audit write, is a run of the protocol with exactly the expected effect |
| `AdminProxyService.AdminProxy.CreateRequest` | internal/approval/service.go:98-124 | adds one pending request; missing arguments and a transaction that does not commit are errors that add nothing |
| `AdminProxyService.AdminProxy.Resolve` | internal/approval/service.go:160-187 | resolves exactly a pending request of that tenant whose update commits, and nothing else |
| `AdminProxyService.AdminProxy.RevokeSession` | internal/adminproxy/service.go:199-213 | revokes exactly an unrevoked session of that tenant, when the update commits |
| `AdminProxyService.AdminProxy.EnsureSession` | internal/adminproxy/service.go:123-194 | whoever else is in the middle of what: returns only a session under an approved request of that tenant, not revoked and not past its end; opens at most one per approval; each error has exactly its cause; the answer is the protocol's |
| `AdminProxyService.AdminProxy.SelectBatch` | internal/adminproxy/expiry_worker.go:80-111 | the batch is the due sessions that ended first, in order, at most 100 |
| `AdminProxyService.AdminProxy.AwaitRow` | internal/adminproxy/expiry_worker.go:128-136 | a claim on a held row waits until the worker holding it has committed, lost its commit or lost its audit write |
| `AdminProxyService.AdminProxy.ProcessOne` | internal/adminproxy/expiry_worker.go:124-157 | after the wait, a session still open and not revoked meanwhile is marked and audited, or only audited if the commit fails, or neither if the audit write fails; one already settled is left alone |
| `AdminProxyService.AdminProxy.Tick` | internal/adminproxy/expiry_worker.go:79-122 | whoever holds which rows and whichever sessions are revoked between the query and the claim: of the batch, exactly the sessions whose pass or the pass waited for commits are marked, each gets exactly the entries of the audit writes that succeeded, the passes without an error are counted, and no other session is touched |
| `AdminProxyService.TickSettles` | internal/adminproxy/expiry_worker.go:79-157 | the same of the passes over any batch of due sessions, from any state the protocol reaches |
| `ConfidentialSend.CountersCount` | internal/confidentialsend/service.go:356-432 | over any history of a link, views are the successful opens, the epoch is the number of committed rekeys, a positive view limit holds, and nothing else of the link changes |
| `ConfidentialSend.OpensAreSound` | internal/confidentialsend/service.go:356-432 | every successful open comes after no revoke, at or before the end and with the right password; its message has the link's id and the tenant, token, blob, end and view limit it was created with, says whether a password hash is stored and whether the newest key is one, numbers the view and the epoch, and never holds the key |
| `ConfidentialSend.RefusalsAreSound` | internal/confidentialsend/service.go:391-404 | conversely an open gets exactly the error of the first of its reasons: revoked before, past the end, views used up, wrong password; with none it is granted |
| `ConfidentialSend.RekeyRefusedIff` | internal/confidentialsend/service.go:154-168 | a rekey is refused exactly on a link made without MLS, and a revoke never |
| `ConfidentialSend.StoredKeyIsNewest` | internal/confidentialsend/service.go:133-175 | the stored key and participants are those of the newest rekey that was not refused |
| `ConfidentialSendProtocol.StepKeepsSerial` | internal/confidentialsend/service.go:356-453 | every step of interleaved opens, revokes and rekeys, aborts included, keeps each link equal to its finished requests served one at a time |
| `ConfidentialSendProtocol.EveryRunIsSerial` | internal/confidentialsend/service.go:133-175 | so every interleaving is equivalent to a serial history in order of completion |
| `ConfidentialSendProtocol.EveryRunCounts` | internal/confidentialsend/service.go:356-453 | in every interleaving views equal successful opens and stay within a positive limit, the epoch equals committed rekeys, and every successful open follows no committed revoke, is not past the end, has the right password, carries its own number and epoch, and no wrapping key |
| `ConfidentialSendProtocol.EveryRunStoresLastCommitted` | internal/confidentialsend/service.go:146-170 | in every interleaving the stored key and participants are those of the last rekey to commit |
| `ConfidentialSendProtocol.OvertakenRekeyStoresOlderKey` | internal/confidentialsend/service.go:146-170 | which need not be the last issued: the answer is fetched before the row is locked, and of two overlapping rekeys the one that fetched first can commit last, on every MLS link |
| `ConfidentialSendService.SecureLinks.CreateSecureMessage` | internal/confidentialsend/service.go:253-336 | succeeds exactly on complete requests within the limits whose token, password hash, MLS answer and insert succeed; the link and the returned message are the request's, field by field; the link starts fresh, ends within thirty days, and can be rekeyed exactly when MLS was asked for |
| `ConfidentialSendService.SecureLinks.OpenRow` | internal/confidentialsend/service.go:391-415 | the ordered checks and the update are the serial step of the link, and the message is the link's, field by field; when the update does not commit no view is spent |
| `ConfidentialSendService.SecureLinks.GetSecureMessage` | internal/confidentialsend/service.go:356-432 | an unknown or blank token changes nothing; otherwise the link with that token is served one serial step and its message is that link's, field by field, or none if a granted open does not commit |
| `ConfidentialSendService.SecureLinks.RevokeLink` | internal/confidentialsend/service.go:435-453 | revokes exactly the tenant's own link, when the update commits |
| `ConfidentialSendService.SecureLinks.RekeyConfidentialMessage` | internal/confidentialsend/service.go:133-175 | succeeds exactly for an MLS link of that tenant with participants, an answer from the MLS service and an update that commits; the epoch rises by one; otherwise nothing changes |
| `Reminders.KeyInjective` | internal/calendarbridge/reminder_worker.go:172-174 | keys of colon-free tenants are equal only for equal tenant, event and window, whatever the event id holds |
| `Reminders.ColonTenantsCollide` | internal/calendarbridge/reminder_worker.go:172-174 | with a colon in a tenant id two reminders share a key |
| `Reminders.ReminderWorker.Try` | internal/calendarbridge/reminder_worker.go:152-166 | one attempt sends and marks exactly in the window, unmarked and deliverable; the notice says for which start |
| `Reminders.ReminderWorker.TickTenant` | internal/calendarbridge/reminder_worker.go:127-170 | the nested loops make exactly the attempts of each calendar, event and window, in order |
| `Reminders.ReminderWorker.Run` | internal/calendarbridge/reminder_worker.go:91-125 | a whole sequence of visits is its attempts in order |
| `Reminders.SilencedIff` | internal/calendarbridge/reminder_worker.go:152-192 | a deliverable attempt goes out exactly when no reminder of the event and window is less than a day old, whatever start that one was for |
| `Reminders.AttemptsKeep` | internal/calendarbridge/reminder_worker.go:151-192 | however events move, reminders of one event and window stay a day apart, each inside the window of its start, and the mark is the last of them |
| `Reminders.AttemptsSettle` | internal/calendarbridge/reminder_worker.go:151-192 | over any attempts, however events move, each start gets one reminder if some deliverable attempt for it finds none less than a day old, and none otherwise |
| `Reminders.MovedEventIsSilenced` | internal/calendarbridge/reminder_worker.go:158-192 | an event moved after its reminder to a start less than a day later gets no reminder for the new start |
| `Reminders.AtMostOneReminder` | internal/calendarbridge/reminder_worker.go:127-192 | over any visits, whichever sends fail and however the event moves, no start gets two reminders for a window while marks work, a start gets one exactly when some deliverable attempt finds none less than a day old, and reminders for different starts are a day apart |
| `Reminders.TickInWindow` | internal/calendarbridge/reminder_worker.go:151-157 | ticks at most the interval apart that begin by the low edge and reach it hit the window |
| `Reminders.ExactlyOneReminder` | internal/calendarbridge/reminder_worker.go:91-192 | such ticks give the event exactly one reminder for that start and window, whatever else is visited, unless a reminder for another of its starts came in the day before |
| `Reminders.UnmovedIsQuiet` | internal/calendarbridge/reminder_worker.go:151-166 | an event listed under one start only is never silenced by another |
| `Reminders.LongIntervalRepeats` | internal/calendarbridge/reminder_worker.go:151-192 | with a day or more between two ticks in one window the mark is gone and the reminder is sent twice |
| `Dunning.DunningService.RecordAndCount` | internal/billing/dunning.go:150-182 | records an invoice once and counts the tenant's failures since the cutoff |
| `Dunning.DunningService.Suspend` | internal/billing/dunning.go:186-200 | suspends the tenant, again or not |
| `Dunning.DunningService.Handle` | internal/billing/dunning.go:99-142 | one delivery has exactly the effect of the history step, its suspension failing or not, and none if its record fails; an error is exactly a missing tenant, a failed record, or a failed suspension that was called for |
| `Dunning.RedeliveryIsIgnored` | internal/billing/dunning.go:99-182 | striking any redelivery from any history changes nothing, whatever suspensions fail |
| `Dunning.RowsAreFirsts` | internal/billing/dunning.go:163-171 | the recorded failures are the first deliveries |
| `Dunning.OneNoticePerInvoice` | internal/billing/dunning.go:117-122 | each invoice delivered is notified exactly once |
| `Dunning.SuspendedIffSucceeds` | internal/billing/dunning.go:99-200 | in every history, whichever suspensions fail, a tenant ends suspended exactly when some new failure that brings it to the threshold has a suspension that succeeds |
| `Dunning.SuspendedIffTrips` | internal/billing/dunning.go:99-200 | when no suspension fails, in every order of arrival a tenant is suspended exactly when some new failure has two recorded before it that are dated at or after its cutoff |
| `Dunning.CloseSuspends` | internal/billing/dunning.go:99-200 | three failures within thirty days always suspend |
| `Dunning.SuspendedIffClose` | internal/billing/dunning.go:99-200 | when new failures arrive in time order, only they do |
| `Dunning.LateArrivalSuspends` | internal/billing/dunning.go:150-182 | out of order a late arrival suspends without three within thirty days |
| `Dunning.FailedSuspensionIsNotRetried` | internal/billing/dunning.go:117-134 | three close failures whose one suspension fails leave the tenant unsuspended however often the third is redelivered |
| `DunningProtocol.RunKeepsInv` | internal/billing/dunning.go:99-200 | in every run of overlapping deliveries there is one row to an invoice, open transactions included, and exactly the failures that counted to the threshold have their suspension outstanding, done or failed |
| `DunningProtocol.SuspendedIff` | internal/billing/dunning.go:99-200 | in every such run a tenant is suspended exactly when one of its failures counted to the threshold and its suspension is neither outstanding nor failed |
| `DunningProtocol.ReachesIff` | internal/billing/dunning.go:154-181 | a failure counts to the threshold exactly when two others of its tenant, not before its cutoff, had committed when it counted |
| `DunningProtocol.OverlapOnlyMisses` | internal/billing/dunning.go:99-200 | overlap never suspends a tenant that one delivery at a time would not |
| `DunningProtocol.SerialSuspendsIff` | internal/billing/dunning.go:99-200 | when every delivery counted all rows committed before its own, the tenant is suspended exactly as one at a time |
| `DunningProtocol.CloseSuspendsIff` | internal/billing/dunning.go:99-200 | three failures within thirty days suspend exactly when the last to commit counted after the other two had committed |
| `DunningProtocol.OverlapMisses` | internal/billing/dunning.go:150-182 | which two overlapping deliveries miss: each counts two, and the tenant is left alone |
| `StorageLedger.Ledger.Post` | internal/billing/billing.go:281-343 | one entry: the counter stays the replay of the log and never negative |
| `StorageLedger.Ledger.UpdateStorageUsage` | internal/billing/billing.go:281-310 | adds the delta clamped at zero and logs it, or changes nothing |
| `StorageLedger.Ledger.SetStorageUsage` | internal/billing/billing.go:314-343 | stores the snapshot and logs it; negative values are rejected |
| `StorageLedger.ClosedForm` | internal/billing/billing.go:281-310 | from balance b the counter after deltas with prefix sums S is max(b + S_n, max over k of S_n - S_k) |
| `StorageLedger.NeverBelowLog` | internal/billing/billing.go:281-310 | the counter is never below the logged sum, and equals it exactly when no prefix goes negative |
| `StorageLedger.SinceSnapshot` | internal/billing/billing.go:281-343 | a snapshot forgets what came before it |
| `StorageLedgerProtocol.StepKeepsInv` | internal/billing/billing.go:281-343 | every step of interleaved updates and snapshots under the row lock, aborts included, keeps the counter the replay of the log in commit order |
| `StorageLedgerProtocol.EveryRunReplays` | internal/billing/billing.go:281-343 | after every interleaving each tenant's counter is the replay of its log rows in the order their transactions committed |
| `StorageLedgerProtocol.StartOrderIsCommitOrder` | migrations/001_baseline.sql:500-515 | rows read back by their start time come in that order when transactions committed in the order they started |
| `StorageLedgerProtocol.StartOrderDiffers` | migrations/001_baseline.sql:500-515 | a snapshot that starts first and commits last: by start time the log replays to another value than the counter |
| `StorageEvents.BucketRoundTrip` | internal/billing/storage_event_worker.go:476-482 | the bucket provisioned for a tenant maps back to its trimmed, lower-cased id |
| `StorageEvents.Group` | internal/billing/storage_event_worker.go:316-349 | the map and order loop gives each tenant its routable records in arrival order with matching tallies, and lists each such tenant once |
| `StorageEvents.EventStore.RecordEvents` | internal/billing/storage_events.go:91-121 | stores the whole batch or none of it; an invalid event or a failing insert stores none |
| `StorageEvents.EventStore.ReconcileTenant` | internal/billing/storage_events.go:128-155 | the created bytes minus the deleted bytes over the tenant's rows |
| `StorageEvents.Webhook.Serve` | internal/billing/storage_event_worker.go:304-392 | every tenant has its committed batch appended whole and in order, the sender is asked to retry exactly when some batch was rolled back, and each committed batch is audited with its tallies |
| `StorageEvents.TotalsAreCommitted` | internal/billing/storage_events.go:91-155 | after any sequence of deliveries with any rollbacks a tenant's total is the signed sum of its committed batches |
| `StorageEvents.RouteByName` | internal/billing/storage_event_worker.go:318-340 | a record is a tenant's event exactly when its name is that of a creation or removal and its bucket is the tenant's; the event has its kind, its decoded key and its size, 0 when missing |
| `StorageEvents.TallyByName` | internal/billing/storage_event_worker.go:318-355 | the audit entry of a committed batch counts its creations and its removals, by name, and the bytes they add and take |
| `StorageEvents.ServedMovesTotal` | internal/billing/storage_event_worker.go:318-360 | a served notification whose batch commits moves the tenant's total by the sizes of its creations minus those of its removals, and one rolled back not at all |
| `StorageEvents.TotalsByName` | internal/billing/storage_event_worker.go:451-482 | after any history the tenant's total is that of its committed records, by their names and sizes |
| `StorageEvents.RetryCountsOnce` | internal/billing/storage_event_worker.go:351-392 | a single-tenant notification retried after reported failures until accepted counts exactly once, anywhere in a history |
| `StorageEvents.StoredRepeats` | internal/billing/storage_event_worker.go:351-392 | over any deliveries of one notification a tenant's batch is stored once for each that commits it |
| `StorageEvents.PartialFailureRepeats` | internal/billing/storage_event_worker.go:351-392 | a retry after one tenant's batch failed stores every other tenant's batch a second time |
| `StorageEvents.ExactlyOnceIff` | internal/billing/storage_event_worker.go:351-392 | over any deliveries of one notification, whatever made the sender repeat it, every tenant's batch is stored exactly once if and only if each tenant with records has exactly one delivery that commits |
| `StorageEvents.RetriesStoreOnceIff` | internal/billing/storage_event_worker.go:351-392 | when each delivery but the last reported a failure and the last was accepted, every such pattern stores every batch exactly once if and only if the notification has routable records for at most one tenant, or a size no store accepts |
| `StorageEvents.LostAcknowledgementRepeats` | internal/billing/storage_event_worker.go:382-391 | a notification delivered again after it was accepted is stored twice, for one tenant or many |
| `StorageEvents.TwoTenantsCountTwice` | internal/billing/storage_event_worker.go:351-392 | one object created for each of two tenants: if the second tenant's batch fails once, the first tenant's byte is counted twice |
| `StorageEvents.StorageEventWorker.Tick` | internal/billing/storage_event_worker.go:155-189 | every readable and storable active tenant gets max(0, total), no other row changes, and audit entries follow the changes |
| `StorageEvents.StorageEventWorker.AuditSnapshot` | internal/billing/storage_event_worker.go:198-220 | audits a total exactly when it differs from the last one |
| `StorageEvents.RepeatedPassIsSilent` | internal/billing/storage_event_worker.go:155-220 | a second pass over an unchanged store writes no audit entry |
| `Proration.ComputeProration` | internal/billing/lifecycle.go:424-456 | refused exactly for a real change with an unknown plan or an uncountable tenant; otherwise nothing for no change and the charge between the plans for a change |
| `Proration.QuoSum` | internal/billing/lifecycle.go:455 | truncating two parts differs from truncating their sum by at most one |
| `Proration.Bounded` | internal/billing/lifecycle.go:440-455 | never more than the full difference, at any instant of any period |
| `Proration.FullAtStart` | internal/billing/lifecycle.go:440-455 | the full difference at or before the start of a well-ordered period |
| `Proration.FullChargeByName` | internal/billing/lifecycle.go:424-456 | before the period starts a change between any two plans costs the difference of their prices over all seats, a credit when the new one is cheaper |
| `Proration.SharePerDay` | internal/billing/lifecycle.go:440-456 | of a period of n days a change with k days after it pays k + 1 of them, rounded toward zero |
| `Proration.Shrinks` | internal/billing/lifecycle.go:440-455 | the magnitude only shrinks as time passes |
| `Proration.Signed` | internal/billing/lifecycle.go:454-455 | a charge for an upgrade and a credit for a downgrade |
| `Proration.ZeroAfterEnd` | internal/billing/lifecycle.go:444-449 | nothing after the end, nor in a period that ends before it starts |
| `Proration.ChargeToSelf` | internal/billing/lifecycle.go:425-427 | staying on a plan costs nothing, as the early return says |
| `Proration.ChargeAntisymmetric` | internal/billing/lifecycle.go:424-456 | changing back costs exactly the opposite |
| `Proration.ChargesAdd` | internal/billing/lifecycle.go:424-456 | two changes at one instant differ from the direct one by at most a cent |
| `Proration.ChainedChanges` | internal/billing/lifecycle.go:424-456 | any chain of changes differs from the direct one by at most a cent per intermediate plan |
| `Proration.Lifecycle.ProrationPreview` | internal/billing/lifecycle.go:245-254 | not found exactly without a subscription; otherwise the charge from the subscription's plan, refused exactly when it cannot be priced |
| `Proration.Lifecycle.OnPlanChanged` | internal/billing/lifecycle.go:178-221 | records the charge from the plan named as left, or nothing where it cannot be priced, and moves the plan within the same period; seeds a missing subscription without charging |
| `Dns.NewService` | internal/dns/dns.go:85-110 | defaults are the selector kmail and the policy none, only where none is given, and nothing else changes |
| `Text.TrimSpaceIs` | internal/dns/dns.go:532-535 | exactly the whitespace around a text is trimmed |
| `Dns.GenerateRecords` | internal/dns/dns.go:415-528 | appends the record each setting contributes, in order, with its lifetime and priority |
| `Dns.GeneratedZone` | internal/dns/dns.go:415-528 | the records and their values, one setting after another, each there exactly when its setting is, all for an hour and the mail exchanger alone with priority 10 |
| `Dns.TrailingDotIs` | internal/dns/dns.go:539-544 | a host is written with exactly one dot after it |
| `Dns.CheckMX` | internal/dns/dns.go:161-186 | positive exactly when some answer is the mail host or under it; lookup errors are errors, no data is not |
| `Dns.CheckSPF` | internal/dns/dns.go:191-213 | positive exactly when some SPF text holds the include; negative without one |
| `Dns.HasDKIMPublicKey` | internal/dns/dns.go:548-563 | finds a DKIM text with a non-empty key tag |
| `Dns.CheckDKIM` | internal/dns/dns.go:218-242 | positive exactly when the selector's name answers with such a text; lookup errors are errors, no data is not |
| `Dns.CheckDMARC` | internal/dns/dns.go:247-266 | positive exactly when the policy name answers with a DMARC text; lookup errors are errors, no data is not |
| `Dns.MxMatchesIff` | internal/dns/dns.go:178-184 | a mail exchanger counts when it is the configured host or a host under it, in any letter case and with or without a dot after it |
| `Dns.SpfMatchesIff` | internal/dns/dns.go:205-211 | an SPF text counts when it starts with its version and holds the include, in any letter case |
| `Dns.DkimMatchesIff` | internal/dns/dns.go:548-563 | a DKIM text counts when it names its version and one of its parts is a key tag |
| `Dns.KeyTagSplit` | internal/dns/dns.go:553-561 | a part is a key tag exactly when its name is p, in either case and with whitespace around it, and its value is not blank |
| `Dns.NoTag` | internal/dns/dns.go:554-557 | a part without an equals sign is no key tag |
| `Dns.DmarcMatchesIff` | internal/dns/dns.go:258-264 | a DMARC text counts when, trimmed, it starts with its version, in any letter case |
| `Dns.VerifyDomain` | internal/dns/dns.go:308-326 | runs the four checks on any resolver: each flag is its check, the domain is verified exactly when all are, and the error is exactly a missing domain or a failing lookup |
| `Dns.DkimValues` | internal/dns/dns.go:442-452 | no other generated record answers at the DKIM name |
| `Dns.MxVerifiedIff` | internal/dns/dns.go:161-186 | publishing the generated records passes the MX check exactly when the configured host is not empty and has no whitespace after it (or is only whitespace) |
| `Dns.TrailingSpaceFails` | internal/dns/dns.go:532-544 | a host with a trailing space fails on every domain |
| `Dns.SpfVerifiedIff` | internal/dns/dns.go:191-213 | publishing passes the SPF check exactly when an include is configured |
| `Dns.DkimVerifiedIff` | internal/dns/dns.go:548-563 | publishing passes the DKIM check exactly when the key text before its first semicolon is not blank or a later piece is a key tag |
| `Dns.DmarcAlwaysVerified` | internal/dns/dns.go:247-266 | publishing always passes the DMARC check |
| `Dns.PublishedRecordsVerify` | internal/dns/dns.go:161-266 | with a trimmed host, an include and a base64 or absent key all four checks succeed on every domain |
| `Dns.VerifyPublished` | internal/dns/dns.go:308-326 | generating the records, publishing exactly them and verifying gives each flag its exact condition on the configuration, on every domain |

## Left out

- HTTP handlers, JSON and XML decoding, Stripe, KChat, CalDAV and CardDAV traffic, and the branches for a missing database pool: plumbing around services that are not part of this model.
- Worker backoff, send limits, warm-up, IP ranking, abuse and alert thresholds, DMARC counts: short loops or branches with no invariant over a history to prove.
- Envelope encryption, PKCS#11 and HMAC verification: claims about them would rest on assumed cryptography.
- One active CMK or DKIM key per tenant, and overlap of resource bookings: the code shown does not give these guarantees.
- Characters outside ASCII: text is a sequence of ASCII characters, so Unicode case folding and spaces are not modelled.
- 64-bit overflow of byte totals, cents and durations: integers are unbounded; field widths are modelled where they matter, in the TTLV codec.
- Row storage is assumed to return what was stored: metadata stable under JSON, canonical UUID and IP text, tenant ids in one letter case.
- Concurrent requests in `StorageEvents` and `Reminders`: these are handled one at a time; interleaving is modelled for the audit log, admin sessions, confidential links, dunning and the storage ledger.
- Unsuspending a tenant, and a suspension made elsewhere: dunning histories start from no suspended tenant.
- The wizard's database steps around the DNS checks (internal/dns/dns.go:282-400).
- The clock skew between database and workers: expiry uses one non-decreasing clock, while opening a session and opening a link take any clock reading.
- Dns.GenerateRecords: leaves out the notes shown to administrators, which are plain text.
- Proration.ComputeProration: divides whole seconds exactly, because rounding of fractional hours in floating point is not modelled.
- FreeBusy.ParseTime: takes `time.Parse` of one layout as a parameter.
- Dialling, deadlines and write errors of the KMIP exchange: the model starts where the answer is read.
- AdminSessions.AtMostOneEntry: is about sessions with no commit lost after the audit write, because the code does duplicate the entry then; `AdminSessions.EntriesOfRun` and `AdminSessions.LostCommitDuplicates` give the exact count.
- ConfidentialSendService.SecureLinks.CreateSecureMessage: takes bcrypt's and the random source's outcomes as parameters, so that a password too long for bcrypt is one that fails to hash.
- Reminders.ExactlyOneReminder: takes an interval of less than a day, because marks live for one day; `Reminders.LongIntervalRepeats` shows what happens beyond it.
