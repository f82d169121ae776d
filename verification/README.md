# Nexuscone: a verified model of the ledger

Nexuscone keeps an append-only audit ledger in SQLite. Every entry holds the hash of the
entry before it; heads of this chain are anchored with OpenTimestamps calendars and RFC 3161
time-stamp authorities, and attested by witnesses who each keep a hash chain of their own.
This project models the entry chain and its hash, the canonical JSON under the hash, the six
writers that share one lock, the witness chains, the proof trees that the background poller
upgrades, and the command that re-reads them, and proves what the chain is for.

## The main results

1. **Two accepted chains with one head are one chain.** `ChainCheck.CollisionExtraction`
   walks two tables of any lengths, with rows of both hash formats, back from a common head.
   Either they agree on every field under the hash, or `ChainCheck.Compare` returns two
   different texts with one digest, or a text whose digest is the genesis value. The digest is
   an arbitrary function; nothing is assumed about it.
2. **An anchored head pins the history below it.** `LedgerRuns.AnchoredHistoryPinned` and
   `ConcurrentRuns.PinnedUnderConcurrency` carry this to every head that an anchor or an
   attestation has recorded, at any later time of any run. `WitnessPins.AttestedHistoryPinned`
   is the same statement for every attestation and the chain of its witness.
3. **The canonical printer is injective.** `Canonical.CanonicalIffSame`: two values print alike
   exactly when they are the same value, whatever the insertion order of their dicts; the
   proof goes through a reader for section 7 of RFC 8259, with surrogate pairs. The text itself
   is fixed as well: `JsonText.EscapeIff` and `JsonText.DecimalIff` say that each character and
   integer is printed as the one shortest text that reads back as it, `Literals.ArrayText` and
   `Literals.ObjectText` give the shape around them, and `HashText.EntryHashText` and
   `HashText.AttestationHashText` write out the two hashed texts key by key.
4. **The lock makes every interleaving serial.** `Concurrency.EveryInterleavingIsSerial` is an
   inductive invariant over all schedules of any number of calls, cut at their awaits. From it:
   `verify_chain` accepts every snapshot, also between an insert and its commit, tables only
   grow, and every log call owns exactly one row. `Replies.EveryReplyIsSerial` adds the replies:
   every call answers as at its place in the serial run, except that `confirm_anchor` and
   `retire_witness` read again after releasing the lock; `Replies.ConfirmReplyIff` and
   `Replies.RetireReplyIff` say exactly when that shows.
5. **The walks are exact.** `verify_chain` and `verify_witness_attestations` are loops proved
   against row-by-row predicates, and with a verifier they accept exactly when it answers True
   for every signature (`ChainCheck.SignedChainIff`, `WitnessChain.SignedPassIff`); the grouped walk agrees with one chain per witness
   (`WitnessChain.GroupedWalkIff`), and `WitnessReads.TwoReadsIff` says what it reports when
   calls complete between its two reads.
6. **The upgrade loses and invents nothing.** After the poller's loop a proof holds exactly its
   own attestations and those of the answers, and the merge always finds its node.
   `Poller.UpgradeOutcomeIff` says when an anchor is confirmed, when it waits and when it fails.
7. **The poller and the check of stored proofs agree exactly when** all heights that can come
   first in the proof are one height (`AnchorCheck.AgreementIff`).

## How it is laid out

| files | subject |
|---|---|
| `Base`, `Text`, `Clock`, `Crypto` | bytes and hexadecimal text, code-point order, timestamps, the primitives as arbitrary functions |
| `JsonText`, `Json`, `Canonical`, `HashText`, `Literals` | JSON text, its reader, canonical printing, the hashed texts and fixed tables written out |
| `EntryChain`, `ChainCheck`, `Tampering`, `Migration` | rows, their hash, valid chains, edits, the v0.1.0 migration |
| `WitnessChain`, `WitnessPins`, `WitnessReads`, `AttestationTable` | attestations, the grouped walk, its two reads, queries |
| `ProofTree`, `Upgrade`, `Heights`, `Submission` | proofs, merging, the first Bitcoin height, submitting a head |
| `LedgerSpec`, `LedgerInv`, `LedgerRuns` | the six writers cut at their awaits, the invariant of the tables, runs |
| `Concurrency`, `ConcurrentRuns`, `Scheduling`, `Replies` | any number of calls under the lock, their rows and their replies |
| `CallContents` | what single calls leave behind, field by field |
| `Ledger`, `AnchorTable`, `Poller`, `AnchorCheck` | the class with its tables, the poller and the check that use it |

`LedgerSpec.Exec` says what a call does to the tables. The methods of `LedgerClass.Ledger`
update the fields as the source does and are proved to do what `Exec` says; the tasks of
`Concurrency` take the steps of which `Exec` consists. The lemmas about `Exec` therefore hold
of both.

Clock readings, the answers of calendars, authorities and the block lookup, and the signing
function are parameters and arbitrary. A signer is `Honest` for a verifier that accepts what
it signs; no result assumes that signatures cannot be forged. The serialisation of proofs
belongs to the OpenTimestamps library: `Heights.ReadsBack` and `Poller.ReadsFormed` state what
is expected of it, and only results that need it require it. Which texts `json.loads` accepts is
a parameter as well, since anchor and attest calls raise on a head they cannot read;
`LedgerInv.PayloadsStayReadable` shows that this never happens on logged rows.

## Where the code and its documentation differ

The model follows the code.

- README.md:148 promises that an edit of any field of any row gives a hash mismatch. Signatures,
  key ids, the format version among the values from 2 up and the event type of a version 1 row
  are not under the hash (`Tampering.UncoveredFieldsAreOpen`), and the last row can be rewritten
  together with its hash (`Tampering.LastRowIsOpen`). `Tampering.EditAcceptedIff` and
  `Tampering.FieldEditIff` say exactly which edits pass.
- src/nexuscone/anchor_schedule.py:46-48 says that only the first authority is contacted and that
  the calendars are asked in parallel. The code goes through the authorities until one answers
  (`Submission.TsaFrom`), and asks the calendars one after the other.
- src/nexuscone/chain.py:473-476 says that either track may fail without blocking the other. A merge
  that raises, or an exception of an authority other than `TSAError`, ends the call
  (`Submission.OtsTrackExact`, `Submission.TsaFrom`).
- In `verify_chain` a signature that is not hexadecimal ends the walk with a `ValueError`, not
  with a `ChainVerificationError`; the witness walk turns the same defect into its own error.
- `verify_witness_attestations` takes no lock and reads the witnesses before the attestations
  (src/nexuscone/chain.py:1247-1260). When a registration and an attestation by the new witness
  complete in between, it rejects a sound database (`WitnessReads.LateWitnessIsUnknown`); it does
  so exactly when an attestation is of a witness that was not read (`WitnessReads.TwoReadsIff`).
- `confirm_anchor` is documented to return the refreshed record (src/nexuscone/chain.py:940-942).
  Its read comes after the lock is released, so it can return the values of another call
  (`Replies.OtherConfirmationReturned`).
- Ids that are positive and strictly increasing do not exclude a genesis preimage when the
  other table starts above id 1 (`ChainCheck.AscendingIdsAreNotEnough`);
  `ChainCheck.PreimageFindingIff` gives the exact condition, and a table whose first id is 1 is
  safe (`ChainCheck.NoGenesisPreimage`).

## Model

| member | source | states |
|---|---|---|
| JsonText.StringRoundTrip | src/nexuscone/canonical.py:12 | a reader of RFC 8259 strings undoes the printed form of any text, whatever follows it |
| JsonText.EscapeIff | src/nexuscone/canonical.py:12 | a character is printed as the shortest printable text that reads back as it, with lower-case hexadecimal; there is only one |
| JsonText.DecimalIff | src/nexuscone/canonical.py:12 | an integer is printed as the only text that reads back as it, negative zero apart |
| Literals.ShortEscapes | src/nexuscone/canonical.py:12 | the seven short escapes, and that every other printable character but quote and backslash stands for itself |
| Literals.DigitTable | src/nexuscone/canonical.py:12-17 | the digits of integers and of hexadecimal text |
| Literals.ScalarText | src/nexuscone/canonical.py:12 | the texts of null, true, false, strings, and empty lists and dicts |
| Literals.ArrayText | src/nexuscone/canonical.py:12 | a list is its items, in order, joined by commas without spaces |
| Literals.ObjectText | src/nexuscone/canonical.py:12 | a dict is its members in ascending order of keys, joined by commas, keys and values by colons |
| JsonText.PairRoundTrip | src/nexuscone/canonical.py:12 | a character above the basic plane is written as a surrogate pair that reads back as itself |
| JsonText.IntRoundTrip | src/nexuscone/canonical.py:12 | unbounded integers of either sign read back as themselves |
| Canonical.RenderRoundTrip | src/nexuscone/canonical.py:10-12 | reading printed text gives the value back, for all nested values |
| Canonical.CanonicalIsAscii | src/nexuscone/canonical.py:12 | canonical text is printable ASCII |
| Canonical.CanonicalIffSame | src/nexuscone/canonical.py:10-12 | canonical texts are equal exactly when the values are, so the printer is injective and blind to insertion order |
| Canonical.CanonicalIsShortest | src/nexuscone/canonical.py:12 | canonical text loads as the value with all keys ascending, and no printable text that loads so is shorter |
| Canonical.LoadsCanonical | src/nexuscone/canonical.py:10-12 | loading canonical text gives the same value, which prints to the same text |
| Base.ToHexIff | src/nexuscone/canonical.py:17 | a hexadecimal text is the only one in lower case that reads back as its bytes |
| Base.FromHexIff | src/nexuscone/chain.py:827 | `bytes.fromhex` accepts, spaces apart, exactly pairs of digits |
| Base.CaseDoesNotMatter | src/nexuscone/chain.py:827 | digits are read alike in either case |
| Base.SpacesAreSkipped | src/nexuscone/chain.py:827 | spaces between bytes are skipped |
| Base.HexInjective | src/nexuscone/canonical.py:15-17 | equal hexadecimal digests are equal digests |
| Clock.ParseFormat | src/nexuscone/chain.py:294-297 | parsing the written UTC form recovers every field |
| Clock.FormatLayout | src/nexuscone/chain.py:173-174 | the written form position by position: fields, widths and separators |
| Literals.CalendarTable | src/nexuscone/chain.py:173-174 | the lengths of the months, and 1970-01-01 as day 719163 |
| Clock.TextIsChronological | src/nexuscone/chain.py:173-174 | the order of the written texts is the order in time |
| HashText.EntryHashText | src/nexuscone/chain.py:194-204 | the entry hash is the digest of its text written out key by key, in version 1 and in version 2 |
| Literals.GenesisIsZeros | src/nexuscone/chain.py:81 | the genesis value is sixty-four zeros |
| EntryChain.PreimageIffCovered | src/nexuscone/chain.py:194-204 | two rows are hashed as one text exactly when they agree on the covered fields, across both formats |
| ChainCheck.CollisionExtraction | src/nexuscone/chain.py:781-836 | two accepted tables with one head agree row by row, or the comparison returns a break of the digest |
| ChainCheck.NoGenesisPreimage | src/nexuscone/chain.py:712-721 | a comparison with ids 1..n ends in a genesis preimage only if the other table does not start at id 1 |
| ChainCheck.PreimageFindingIff | src/nexuscone/chain.py:793-834 | a genesis preimage comes up exactly when the tables differ in length and the shorter agrees with the end of the longer |
| ChainCheck.AscendingIdsAreNotEnough | src/nexuscone/chain.py:793-834 | positive, strictly increasing ids do not exclude it: two valid chains that show it |
| ChainCheck.ValidPrefix | src/nexuscone/chain.py:793-836 | acceptance is closed under prefixes |
| ChainCheck.SignatureFaultIff | src/nexuscone/chain.py:824-833 | when the signature check passes, fails, or raises |
| ChainCheck.SignedChainIff | src/nexuscone/chain.py:824-833 | with a verifier a table is accepted exactly when it is without one and the verifier answers True for every signed row, over the bytes of its hash text |
| ChainCheck.VerdictUnique | src/nexuscone/chain.py:781-836 | a table has one verdict: its row count, or the fault of the first row out of order |
| LedgerClass.Ledger.VerifyChain | src/nexuscone/chain.py:781-836 | the loop returns the row count when every link, hash and checked signature holds, otherwise the fault of the least offending row; an accepting walk has had True for every signature |
| Tampering.EditAcceptedIff | src/nexuscone/chain.py:793-834 | exactly when a table with one row replaced is still accepted |
| Tampering.CoveredEditIsNoticed | src/nexuscone/chain.py:793-834 | an accepted edit below the head changes no covered field, or the two preimages collide |
| Tampering.FieldEditIff | src/nexuscone/chain.py:793-834 | an edit that leaves the stored hash alone passes exactly when it changes no covered field, otherwise the walk stops at that row |
| Tampering.LastRowIsOpen | src/nexuscone/chain.py:793-834 | the last row, rewritten with its hash, is accepted without a verifier |
| Tampering.UncoveredFieldsAreOpen | src/nexuscone/chain.py:194-204 | signature, key id and format version are outside the hash |
| Migration.LegacyFormula | src/nexuscone/chain.py:194-204 | below format version 2 the hash is the six-field v0.1.0 formula |
| Migration.LegacyRowValues | src/nexuscone/chain.py:387-399 | a migrated v0.1.0 row keeps its values and gets event type "request" and version 1 |
| Migration.MigrationKeepsVerdict | src/nexuscone/chain.py:376-399 | `verify_chain` gives one verdict before and after the migration, at every stage of it |
| Migration.LegacyAcceptedIff | src/nexuscone/chain.py:376-399 | a migrated v0.1.0 table is accepted exactly when the v0.1.0 formula accepts it |
| Migration.MigrationConverges | src/nexuscone/chain.py:387-399 | the migration is idempotent, and a restart between the two columns ends in the same table |
| Migration.MigratedChainGrows | src/nexuscone/chain.py:729-738 | version 2 entries on top of version 1 rows keep the mixed chain valid, and ascending ids ascending |
| Migration.MigratedInv | src/nexuscone/chain.py:376-399 | a migrated v0.1.0 ledger with ids 1..n satisfies the invariant of the tables |
| LedgerClass.Ledger.MigrateLegacyColumns | src/nexuscone/chain.py:376-399 | the two conditional column additions perform the migration |
| LedgerSpec.LogAlone | src/nexuscone/chain.py:713-779 | a log call is one insert on top of the tip it read, or an integrity error |
| LedgerSpec.AnchorAlone | src/nexuscone/chain.py:496-532 | the awaits of an anchor call, taken together: the checks in order, both tracks on the head, then one row or an error |
| LedgerSpec.AttestAlone | src/nexuscone/chain.py:1124-1188 | the awaits of an attest call, taken together: the checks in order, then one signed row over the head |
| LedgerSpec.ConfirmRows | src/nexuscone/chain.py:949-963 | the update changes the four columns of the named row and nothing else |
| LedgerSpec.RetireRows | src/nexuscone/chain.py:1056-1062 | the update stamps the named witness, and only if it has not retired |
| LedgerInv.LogAppends | src/nexuscone/chain.py:713-779 | a log call always succeeds: its id is one above the tip's, so the key is free |
| LedgerInv.LogEffect | src/nexuscone/chain.py:713-779 | with ids 1..n a log call takes the next id |
| LedgerInv.MadeEntryInOrder | src/nexuscone/chain.py:729-744 | a logged row is in order on any table, signed by a signer the verifier knows or unsigned |
| LedgerInv.AnchorReply | src/nexuscone/chain.py:496-532 | exactly when an anchor call adds its row, returns None or raises each of its errors |
| LedgerInv.AnchoredRowContents | src/nexuscone/chain.py:503-532 | the row names the head, the calendars that answered in order, a proof of exactly their attestations, and the first token |
| LedgerInv.AnchorKeeps | src/nexuscone/chain.py:632-686 | anchor rows name entries, heads never go back, a track is present, token fields are all set or all null, pending rows have a proof exactly with calendars |
| LedgerInv.ConfirmKeeps | src/nexuscone/chain.py:946-964 | the invariant of the anchors survives a confirmation, and a confirmed row has proof and height |
| LedgerInv.RegisterKeeps | src/nexuscone/chain.py:1022-1038 | names and keys of witnesses stay distinct, and attestations stay verifiable |
| LedgerInv.RetireKeeps | src/nexuscone/chain.py:1047-1063 | attestations of a retired witness remain verifiable |
| LedgerInv.MadeAttestationInOrder | src/nexuscone/chain.py:1147-1157 | the attestation made is in order for a verifier that knows the witness |
| LedgerInv.AttestReply | src/nexuscone/chain.py:1124-1188 | exactly when an attest call adds its row, returns None or raises each of its errors; the row is over the head and linked to the witness's last one |
| LedgerInv.AttestKeeps | src/nexuscone/chain.py:1124-1188 | attestations name entries, heads never go back, and the walk accepts |
| LedgerInv.EmptyDbInv | src/nexuscone/chain.py:348-374 | a fresh database satisfies the invariant |
| LedgerInv.ExecKeepsInv | src/nexuscone/chain.py:455-1188 | every writer keeps the invariant of all four tables |
| LedgerInv.ExecAllKeepsInv | src/nexuscone/chain.py:455-1188 | so does every run of any calls |
| LedgerInv.ExecKeepsChain | src/nexuscone/chain.py:713-779 | every writer keeps a valid chain valid whatever the ids, and ascending ids ascending |
| LedgerInv.PayloadsStayReadable | src/nexuscone/chain.py:618-630 | in a run on readable rows the head can always be read |
| LedgerRuns.ExecExtends | src/nexuscone/chain.py:455-1188 | a call loses and changes nothing that was recorded, but that anchors get confirmed and witnesses retire |
| LedgerRuns.ExecAllExtends | src/nexuscone/chain.py:455-1188 | the tables of a run extend those it started from, and ids stay 1..n |
| LedgerRuns.LoggedRow | src/nexuscone/chain.py:713-779 | the row of a log call holds the payload text, actor, action and event type given, the time of the call, version 2, its hash and the signature over it; the payload given is returned |
| LedgerRuns.LogReadBack | src/nexuscone/chain.py:838-847 | reading a logged id gives what `log` returned, with the payload given as the same value, no payload as the empty dict, after any further run |
| LedgerRuns.RegisteredForGood | src/nexuscone/chain.py:1006-1045 | a registration succeeds exactly when role, name and key allow, and is found under its id after any further run |
| CallContents.EntryByIdIff | src/nexuscone/chain.py:838-847 | `KeyError` exactly when no row has the id, otherwise such a row with its payload loaded |
| CallContents.AnchoredContents | src/nexuscone/chain.py:632-686 | a new anchor is of the head, at the time of the call, with the next id, unconfirmed |
| CallContents.ConfirmedContents | src/nexuscone/chain.py:948-971 | a confirmation sets proof, height, block hash and time of the named anchor and nothing else; `KeyError` exactly when there is none |
| CallContents.RetiredContents | src/nexuscone/chain.py:1055-1063 | a known witness is retired since the call, or since its first retirement, and nothing else changes; `KeyError` exactly when it is unknown |
| CallContents.AttestedContents | src/nexuscone/chain.py:1139-1188 | an attestation is by the witness asked, of the head, signed at the time of the call, linked to the last of its own, with its hash and the signature over it |
| LedgerRuns.RetiredForGood | src/nexuscone/chain.py:1047-1063 | no attestation of a witness is added after it has retired, in any run |
| LedgerRuns.SubChainHeadsAscend | src/nexuscone/chain.py:1139-1188 | along the chain of one witness the attested heads never go back |
| LedgerRuns.RunsStayVerifiable | src/nexuscone/chain.py:1229-1317 | every run with known signers passes both verifications, and every attestation names a real entry |
| LedgerRuns.AnchoredHistoryPinned | src/nexuscone/chain.py:503-532 | any accepted table with a recorded head agrees with the ledger's rows up to it, or the comparison returns a break of the digest |
| LedgerRuns.SharedHeadPins | src/nexuscone/chain.py:781-836 | the same for two tables that share an id and hash |
| Concurrency.EveryInterleavingIsSerial | src/nexuscone/chain.py:713-779 | in every reachable state one task at most holds the lock, and the tables are those of the serial run of the calls that have written |
| Concurrency.StepKeeps | src/nexuscone/chain.py:503-532 | every step of every task keeps that invariant |
| Concurrency.WriteStep | src/nexuscone/chain.py:1124-1188 | a write under the lock has the effect of a whole call on the current tables, and hands over its reply |
| Scheduling.CallAlone | src/nexuscone/chain.py:713-779 | a call that no other interrupts has the effect and reply of a whole call |
| Scheduling.SerialIsReachable | src/nexuscone/chain.py:713-779 | every serial run is one of the interleavings |
| Replies.SectionEnds | src/nexuscone/chain.py:713-779 | a stretch that writes or leaves hands over the reply of the whole section on the current tables |
| Replies.EveryReplyIsSerial | src/nexuscone/chain.py:455-1188 | in every reachable state every call past its section has the reply of its place in the serial run |
| Replies.SerialReply | src/nexuscone/chain.py:503-532 | log, anchor, register and attest calls return what they return in the serial run |
| Replies.RetireReplyIff | src/nexuscone/chain.py:1055-1063 | a retirement returns its serial reply exactly when the witness was known to it or is still unknown at its second read |
| Replies.ConfirmReplyIff | src/nexuscone/chain.py:948-971 | a confirmation returns its serial reply exactly when no other call wrote other values to the anchor before its second read, or created it |
| Replies.OtherConfirmationReturned | src/nexuscone/chain.py:965-971 | a schedule in which a confirmation returns that of another call |
| ConcurrentRuns.EveryStateKeepsInv | src/nexuscone/chain.py:948-964 | the invariant of the tables holds in every reachable state |
| ConcurrentRuns.EverySnapshotVerifies | src/nexuscone/chain.py:781-836 | the entries read without the lock at any step have ids 1..n and are accepted, also between insert and commit |
| ConcurrentRuns.LaterExtendsEarlier | src/nexuscone/chain.py:713-779 | whatever is scheduled next, the earlier tables are prefixes of the later ones |
| ConcurrentRuns.RetiredUnderConcurrency | src/nexuscone/chain.py:1056-1062 | no interleaving adds an attestation of a retired witness |
| ConcurrentRuns.PinnedUnderConcurrency | src/nexuscone/chain.py:503-532 | recorded heads pin the history below them under every interleaving |
| ConcurrentRuns.LogOwnsRow | src/nexuscone/chain.py:746-779 | a log call past its insert has its row in the table, and returns it |
| ConcurrentRuns.RowHasOneOwner | src/nexuscone/chain.py:746-779 | every row added belongs to exactly one log call |
| ConcurrentRuns.OwnedRowIsUnique | src/nexuscone/chain.py:746-779 | no log call owns two rows |
| WitnessReads.TwoReadsIff | src/nexuscone/chain.py:1247-1272 | with witnesses of one state and attestations of a later one, the walk accepts exactly when every attestation is of a witness that was read, and otherwise reports the first that is not |
| WitnessReads.LateWitnessIsUnknown | src/nexuscone/chain.py:1247-1272 | a schedule after which sound tables are rejected |
| WitnessChain.AttestationFaultIff | src/nexuscone/chain.py:1264-1312 | when each fault of a row is reported, and when none is |
| WitnessChain.SignedPassIff | src/nexuscone/chain.py:1294-1312 | with a verifier the walk accepts exactly when links and hashes hold and it answers True for every row, under the registered key, over the recomputed digest |
| WitnessChain.PassIffSubChains | src/nexuscone/chain.py:1253-1317 | one pass over interleaved chains accepts exactly when each witness's own rows form a valid chain |
| WitnessChain.OrderedIsOrder | src/nexuscone/chain.py:1257-1260 | the query returns each row once, ordered by witness and id |
| WitnessChain.FilterOrdered | src/nexuscone/chain.py:1257-1260 | grouping keeps the rows of a witness and their order |
| WitnessChain.GroupedWalkIff | src/nexuscone/chain.py:1229-1317 | the grouped walk, a pass by id and the check per witness give one verdict, and acceptance returns the table length |
| LedgerClass.Ledger.WalkAttestations | src/nexuscone/chain.py:1253-1317 | the loop with one expected hash per witness returns the row count or the first fault, for whatever witnesses were read |
| LedgerClass.Ledger.VerifyWitnessAttestations | src/nexuscone/chain.py:1229-1317 | with no call in between, the verdict on the witnesses and attestations of the ledger |
| LedgerClass.Ledger.CheckAttestation | src/nexuscone/chain.py:1264-1312 | the checks on one row find the first fault, and an exception in the signature check is one |
| HashText.AttestationHashText | src/nexuscone/chain.py:225-249 | the attestation hash is the digest of its text written out key by key |
| WitnessPins.AttestedTextIff | src/nexuscone/chain.py:225-249 | two attestations are hashed as one text exactly when they agree on the five fields |
| WitnessPins.SubChainCollision | src/nexuscone/chain.py:1253-1317 | two valid chains of attestations with one last hash agree, or the comparison returns a break of the digest |
| WitnessPins.WitnessHistoryPinned | src/nexuscone/chain.py:1229-1317 | the last attestation of a witness pins all its earlier ones |
| WitnessPins.SharedAttestationPins | src/nexuscone/chain.py:1229-1317 | an attestation hash that two accepted tables share, at any rows, pins the chains below it |
| WitnessPins.AttestedHistoryPinned | src/nexuscone/chain.py:1139-1188 | every attestation of the ledger pins the earlier ones of its witness, after any further run |
| AttestationTable.SelectsFirst | src/nexuscone/chain.py:1190-1227 | the query selects exactly the matching rows, and with a limit the first of them |
| AttestationTable.IntervalIsExact | src/nexuscone/chain.py:1212-1217 | since and until select exactly the attestations signed in the closed interval |
| AttestationTable.FiltersAreExact | src/nexuscone/chain.py:1203-1217 | what each filter selects by itself, and that filters add up |
| AttestationTable.SelectAreFirst | src/nexuscone/chain.py:1190-1227 | on ids in order the selection leaves a matching row out only in favour of `limit` rows with lower ids |
| LedgerClass.Ledger.GetWitnessAttestations | src/nexuscone/chain.py:1190-1227 | walking the table selects exactly the matching rows in id order; with a limit, those with the lowest ids |
| ProofTree.AllPairsIff | src/nexuscone/poller.py:198-200 | the walk over a proof finds exactly the attestations of all its nodes |
| ProofTree.MergeIsUnion | src/nexuscone/chain.py:562 | merging two proofs of one message gives exactly the union of their attestations and keeps every child message its operation's result |
| Upgrade.CollectPending | src/nexuscone/poller.py:169-180 | the walk lists the pending attestations in the order of the tree |
| Upgrade.CollectedIsPending | src/nexuscone/poller.py:169-180 | what is collected is exactly the pending attestations, each at a message of the tree |
| Upgrade.MergeAtIsUnion | src/nexuscone/poller.py:183-192 | the merge finds a node exactly when the commitment is a message of the tree, and then adds exactly the answer |
| Upgrade.MergeAtCommitment | src/nexuscone/poller.py:183-192 | the recursive search with its early return merges at the first node found |
| Upgrade.MergeNeverMisses | src/nexuscone/poller.py:123-136 | after any earlier merges the node of a collected commitment is still found |
| Upgrade.MergeAnswersExact | src/nexuscone/poller.py:123-136 | the tree ends with its own attestations and those of all answers, whichever calendars fail; it raises exactly on an answer for another commitment |
| Upgrade.AskCalendars | src/nexuscone/poller.py:123-136 | the loop over the calendars performs those merges in order |
| Heights.FirstBitcoin | src/nexuscone/poller.py:195-201 | the first Bitcoin attestation in the order of the walk is found |
| Heights.FirstHeightStableIff | src/nexuscone/poller.py:195-201 | the first height survives every rearrangement of the proof exactly when all heights that can come first are one |
| Heights.OneHeightSettles | src/nexuscone/poller.py:195-201 | one shared height is enough |
| Submission.OtsTrackExact | src/nexuscone/chain.py:547-570 | the calendars that answered are accepted in order, the proof holds exactly the attestations of their answers, and the track raises exactly on an answer for another digest |
| Submission.AnsweringInOrder | src/nexuscone/chain.py:551-563 | each calendar that answered stands behind exactly those before it that did |
| Submission.SubmitOtsTrack | src/nexuscone/chain.py:547-570 | the loop over the calendars computes that track |
| Submission.TsaFrom | src/nexuscone/chain.py:586-602 | the first authority that does not raise `TSAError` decides: its token is taken, or its exception passes through |
| Submission.SubmitTsaTrack | src/nexuscone/chain.py:586-602 | the loop with its early return finds that authority |
| AnchorTable.SelectsLowest | src/nexuscone/chain.py:894-927 | the query selects the eligible anchors with the lowest ids, at most the limit |
| LedgerClass.Ledger.ListUnconfirmedAnchors | src/nexuscone/chain.py:894-927 | walking the table selects the eligible anchors with the lowest ids, at most the limit |
| AnchorTable.EligibleIff | src/nexuscone/chain.py:906-918 | an anchor is taken exactly when it is unconfirmed, has a proof, and was submitted at the cutoff or later, if there is one |
| AnchorTable.NoCutoffSelectsPending | src/nexuscone/chain.py:906-925 | without cutoff and limit exactly the unconfirmed anchors with a proof are selected |
| AnchorTable.WindowIsExact | src/nexuscone/chain.py:911-918 | the text filter selects exactly the anchors submitted within the window |
| Poller.TreeOutcomeIff | src/nexuscone/poller.py:119-140 | a proof is confirmable exactly when it has a pending attestation, no answer is for another commitment, and it or an answer holds a Bitcoin attestation; otherwise it waits or breaks |
| Poller.UpgradeOutcomeIff | src/nexuscone/poller.py:99-160 | the same for an anchor, an unreadable proof included |
| Poller.ConfirmedByPoller | src/nexuscone/poller.py:142-160 | the row gets the merged proof, its height, the block hash looked up and the time, and keeps the rest |
| Poller.UpgradeOne | src/nexuscone/poller.py:99-160 | one anchor is confirmed exactly when its proof reaches a block, and nothing else is written |
| Poller.UpgradePendingAnchors | src/nexuscone/poller.py:53-96 | attempts are at most 500, each counted under its own outcome, exactly the confirmable rows are confirmed, and pending proofs fall by the number upgraded |
| Poller.UpgradeIsExact | src/nexuscone/poller.py:113-160 | the confirmed proof is the stored one with exactly the answers added, and its height is one of its Bitcoin attestations |
| Poller.ConfirmedStays | src/nexuscone/poller.py:77-96 | no run makes a confirmed anchor pending again |
| AnchorCheck.CheckAnchors | src/nexuscone/verifier.py:47-108 | the first 500 anchors are counted once each, and the exit code is 1 exactly when one is rejected |
| AnchorCheck.VerdictIff | src/nexuscone/verifier.py:63-100 | when an anchor is pending, verified or rejected; an unreadable proof is rejected |
| AnchorCheck.SettledIsAccepted | src/nexuscone/verifier.py:64-86 | what the poller confirmed is accepted when the Bitcoin attestations share one height |
| AnchorCheck.AgreementIff | src/nexuscone/verifier.py:64-86 | acceptance in whatever order the proof is read back holds exactly when the heights that can come first are one |
| AnchorCheck.TwoBlocksDisagree | src/nexuscone/verifier.py:64-86 | a proof in two blocks whose row the poller confirms and the command rejects |
| LedgerClass.Ledger.LatestEntryLocked | src/nexuscone/chain.py:618-630 | the tip, or the error of reading its payload |
| LedgerClass.Ledger.Log | src/nexuscone/chain.py:695-779 | the method has the effect and result of a whole log call |
| LedgerClass.Ledger.NewEntry | src/nexuscone/chain.py:720-744 | the row is linked to the tip, hashed, and signed if there is a signer |
| LedgerClass.Ledger.GetEntry | src/nexuscone/chain.py:838-847 | the row with the id is read, or `KeyError` |
| LedgerClass.Ledger.AnchorHead | src/nexuscone/chain.py:455-532 | the method has the effect and result of a whole anchor call, errors included |
| LedgerClass.Ledger.InsertAnchorLocked | src/nexuscone/chain.py:632-686 | one row is added with what the tracks gave |
| LedgerClass.Ledger.ConfirmAnchor | src/nexuscone/chain.py:929-971 | the named row is updated and read back, or `KeyError` |
| LedgerClass.Ledger.RegisterWitness | src/nexuscone/chain.py:1006-1045 | the method has the effect and result of a whole register call |
| LedgerClass.Ledger.RetireWitness | src/nexuscone/chain.py:1047-1063 | the method has the effect and result of a whole retire call |
| LedgerClass.Ledger.LastAttestationHash | src/nexuscone/chain.py:1094-1107 | the hash of the witness's last attestation, or the genesis value |
| LedgerClass.Ledger.AttestWithWitness | src/nexuscone/chain.py:1109-1188 | the method has the effect and result of a whole attest call, errors included |

## Left out

- SHA-256 and Ed25519: arbitrary functions; nothing about forgery.
- SQLite and asyncio: indexes, pragmas, foreign keys, rollback, cancellation; tables are sequences in the order of their primary keys, and no row is ever deleted.
- The network and the OpenTimestamps library: calls return arbitrary values or fail; `Timestamp.merge` is modelled as the recursive union of proofs of one message, its byte format as a stated assumption.
- Proof trees as mutable objects: the library's `Timestamp` is a value here, and merging returns the new tree; sharing of nodes between trees is not captured.
- `src/nexuscone/rfc3161.py` and `_check_tst`: guards around an opaque decoder.
- `should_anchor`: a few comparisons.
- Command-line parsing, printing, `_print_anchor`, `init` and `close` of the connection, and the column additions to the anchors table.
- `get_entries`, `count`, `list_witnesses`, the confirmed filter of `get_anchors`: queries of the kind that is modelled.
- JSON outside the printer's domain: floats, NaN, tuples, keys that are not text, lone surrogates, insignificant whitespace; `1 == True` of Python, as equality of values distinguishes integers from booleans.
- `calendar_servers` is a list here; its JSON text column is not modelled.
- Years before 1000, which are not written with four digits on every platform; the subtraction that computes a cutoff, which enters `AnchorTable.WindowIsExact` as a relation between instants.
- A signing function that raises, and a proof that cannot be serialised: the call would end with that exception.
- `verify_witness_attestations` streams its second query; the rows of that query are those of one instant here.
- LedgerClass.Ledger.GetEntry: reads payloads of the JSON domain only, and returns the stored row with its payload; the fallbacks for missing columns are `EntryRow.EventType` and `EntryRow.FormatVersion`.
- ChainCheck.NoGenesisPreimage: states one direction only; `ChainCheck.PreimageFindingIff` is the exact condition.
