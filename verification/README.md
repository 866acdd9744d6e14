# Widespread wallet: verified model

A Dafny model of the parts of the Widespread wallet that carry state, arithmetic or a protocol, with proofs of what they
are for. `dafny verify dfyconfig.toml` checks all of it.

| part | modules |
|---|---|
| bytes, words, hexadecimal text, radix conversion | `Bytes`, `Radix` |
| base58, account ids, program-derived addresses | `Base58`, `AccountIds`, `Pda`, `PdaText` |
| risc0-serde instructions: writer, reader, hexadecimal transport, hand-written encoders | `Risc0`, `InstructionReader`, `Wire` |
| registry entries: Borsh writer, native decoder, TypeScript decoder | `EntryCodec` |
| the LP-0023 registry, self-registration hooks, pointer records | `RegistryWire`, `Chain`, `Registry`, `Programs`, `Guest` |
| runs of chained calls and what holds on all of them | `Runs`, `RunTheorems`, `Transactions`, `SelfRegistration`, `SelfUpdate`, `Sdk` |
| when each instruction succeeds and what it stores | `Outcomes` |
| the faucet claim and its nonce search | `Faucet` |
| recovery factors, and recovery through the chain | `Recovery`, `RecoverySample`, `RecoveryOnChain` |
| session grants under interleaved calls | `Approval` |
| the page bridge and its drain pump | `Bridge` |
| native-messaging framing, the daemon loop, the desktop helper | `Framing` |

Code that changes things step by step is a method, with loops and classes as in the source, proved equal to a function;
the theorems are about those functions. What bytes, words, addresses and stored fields are is stated once more without
those functions: piece by piece, by name and in plain numbers. Strings are UTF-8 byte sequences wherever their bytes matter.

**Text.** Rust's strings are the bytes themselves, checked for well-formedness. JavaScript's `new TextDecoder().decode`
drops one leading byte order mark (EF BB BF), which is modelled as `Bytes.WithoutMark`, and replaces malformed bytes: of
that only `Bytes.DecodesText` is assumed, that the result is well-formed text. Encoding text is taken to be the identity.

## How the pieces are modelled

**Base58.** Encoding and decoding rewrite a growing array of digits with a carry, as in the source. Both are proved equal
to one conversion between canonical digit lists, whose uniqueness makes the two directions inverse, leading zeros included.

**Instructions.** A word is a number below 2^32; JavaScript's signed shifts and its bitwise or are written out and shown to
drop out again.
The reader is a class with a position. Round trips hold at any offset, with anything before and after.

**Chain.** A state holds the committed accounts, those of the open transaction, the stack of calls still to run, and a log
of executions. A run is any sequence of moves: begin a transaction, execute the top call, fail (which undoes the whole
transaction), commit. The registry, the pointer program and the self-registration hooks do what their code does; every
other program may do anything the framework permits and emit any calls. Assumed of the framework, whose code is not part
of this model: `init` means the account has the derived id and is unused; `mut, pda` means it has the derived id; only the owner of
an account changes its data; an unowned empty account can be claimed by a program, but not at an address derived
for another program; a call made by a program carries that program as its caller, a call by a user the zero id; a failing
call undoes its transaction. Whether an account counts as signed in a call is the framework's to decide; any program may
emit a chained call that mentions an account as signed, so a third-party entry proves only that the executed call carried
its author's signature, not who gave it. SHA-256 is a function without collisions on a finite set of inputs, and runs
derive addresses only from inputs in that set. `SelfRegistration.Inhabited` shows that these hypotheses can hold together,
with a run in which a program registers itself. The log records the calls each execution emitted, so that a caller can be
traced to the execution that made the call.

**Faucet.** Every interaction of a claim takes the next moment from an arbitrary finite tape, so the environment may change
between any two reads, fail, or stop answering. The tape running out is a claim still under way.

**Recovery.** AES-GCM, PBKDF2, HKDF, the Shamir library, JSON and base64 are function parameters with contracts
(`Recovery.Contracts`), which `RecoverySample.Inhabited` shows can be met; random values are arguments. A ciphertext is assumed to open to nothing but what was sealed in it.

**Approval, bridge.** State machines over every interleaving of their asynchronous steps, next to the classes whose
methods the steps are.

**Framing.** A pipe is a byte string consumed from the front; JSON and the worker are parameters.

## Where the code and its comments differ

The model follows the code.

- `packages/recovery/src/enroll.ts:19-25` and `packages/wallet-ui/src/onboarding.ts:188` say that a synced passkey alone
  recovers a vault. It yields one share of the two needed: `Recovery.OneFactorFails`, `Recovery.PasskeyAloneFails`. With
  the device share it is enough (`Recovery.EndToEnd`).
- `packages/recovery/src/enroll.ts:162-164` speaks of whatever factors remain. An opened kit is enough, and a wrong passkey
  next to it does no harm, but one whose output is shorter than 16 bytes makes the recovery fail:
  `Recovery.ShortPasskeyFails`, the exact condition in `Recovery.EndToEnd`.
- `packages/wallet-ui/src/approval.ts:6-8` speaks of identical repeats. A call goes on unasked exactly when a grant of its
  program is live at its check (`Approval.UnaskedExactlyWhenGranted`), that is, was recorded not more than 15 minutes
  before (`Approval.UnaskedExactlyAfterGrant`), and from the very start a second call with other data does
  (`Approval.SecondCallUnasked`).
- `programs/pointer/methods/guest/src/bin/pointer.rs:11-14` allows the publisher to overwrite a record. Nobody can:
  `RunTheorems.RecordsStay`.
- Entry bounds are checked at registration only. An updated entry meets them if and only if the update does
  (`RunTheorems.UpdatesIgnoreBounds` and `RunTheorems.ThirdPartyUpdatesIgnoreBounds`, with the condition
  `Registry.UpdateInBounds`); a run that leaves a live entry without
  a version is given in `SelfUpdate.VersionlessEntryReached`.
- The TypeScript entry decoder reads lengths as signed numbers and decodes text loosely. On data below 2 GiB it accepts
  everything the native one accepts, and on what it accepts the two agree if and only if no length field has its sign bit
  set and every string is well-formed and starts with no byte order mark (`EntryCodec.DecodersAgree`). Inputs on which
  they differ: `EntryCodec.SignedLengthsDiverge`.
- For the same reason a pointer value that starts with a byte order mark does not resolve as published:
  `RunTheorems.PublishedResolves`.
- The kind checks and the recorded-author check of the registry's update instructions can never fail:
  `RunTheorems.GuardsNeverFire`.
- The faucet's reconcile deadline is fixed before the proof of work. A claim reported as unconfirmed was followed by no
  reading of the balance if and only if the first look at the clock after it was already past that deadline, and such a
  first look always leads there: `Faucet.Reconcile`, carried into `Faucet.Claim`. `Faucet.OverdueClaim` is a claim that
  ends so.

## Model

| member | source | states |
|---|---|---|
| Base58.Base58Encode | packages/wallet-ui/src/pda.ts:28-49 | the in-place digit and carry loops produce the base58 text of the bytes |
| Base58.EncodeRound | packages/wallet-ui/src/pda.ts:35-44 | one round of the encoder multiplies the number in the digit array by 256 and adds a byte; every carry fits |
| Base58.Base58Decode | packages/wallet-ui/src/pda.ts:51-72 | the decoder returns the bytes of any text over the alphabet and otherwise names its first foreign character |
| Base58.DecodeRound | packages/wallet-ui/src/pda.ts:56-67 | one round of the decoder multiplies by 58 and adds a digit; every carry fits a byte |
| Base58.AlphabetSpelled | packages/wallet-ui/src/pda.ts:25-26 | the symbols are the 58 of the source's alphabet, in its order |
| Base58.DecodeEncode | packages/wallet-ui/src/pda.ts:28-72 | decoding inverts encoding for every byte sequence, leading zeros included |
| Base58.EncodeDecode | packages/wallet-ui/src/pda.ts:28-72 | encoding inverts decoding for every text over the alphabet |
| Base58.SameNumber | packages/wallet-ui/src/pda.ts:28-49 | text and bytes denote the same number, most significant first, with as many leading 1s as zero bytes |
| Base58.AccountIdLength | packages/wallet-ui/src/pda.ts:100-107 | 32 bytes need at most 44 symbols, so no base58 id is taken for 64 hexadecimal digits |
| Radix.CanonicalUnique | packages/wallet-ui/src/pda.ts:28-72 | a number has one digit list without a leading zero |
| Radix.ConvertInverse | packages/wallet-ui/src/pda.ts:28-72 | converting between two bases and back is the identity on digit lists with their leading zeros |
| AccountIds.HexToBytes | packages/wallet-ui/src/pda.ts:88-94 | bytes of an even hexadecimal text, with or without 0x; anything else is refused |
| AccountIds.AccountIdBytes | packages/wallet-ui/src/pda.ts:101-107 | accepts exactly the texts that denote 32 bytes; a refusal is for length exactly when the text is over the alphabet, else for its first foreign character |
| AccountIds.TextForms | packages/wallet-ui/src/pda.ts:101-107 | a text denotes an id if and only if, prefix aside, it is the id's base58 text or its 64 digits in either case |
| AccountIds.PrintedIdsParse | packages/wallet-ui/src/pda.ts:96-107 | base58 and hexadecimal prints of an id are read back, bare or after Public/ or Private/ |
| AccountIds.Base58IdsInjective | packages/wallet-ui/src/pda.ts:101-107 | two base58 texts of the same account are the same text |
| Pda.SeedsInjective | programs/registry/methods/guest/src/bin/registry.rs:136-249 | the seed lists of deployer entries, third-party entries and pointer records never coincide |
| Pda.AccountIdInjective | crates/wsp-lez-core/src/registry.rs:55-88 | without a hash collision a derived id determines its program and its seeds |
| PdaText.SeedFromStr | packages/wallet-ui/src/pda.ts:80-86 | the seed starts with the text and is zero behind it, 32 bytes in all; a longer text is refused |
| PdaText.ComputePublicPda | packages/wallet-ui/src/pda.ts:114-129 | the printed address of text seeds, or the reason there is none |
| PdaText.PublicPdaSpelled | packages/wallet-ui/src/pda.ts:114-129 | that address is the digest, in base58, of 96 bytes: the padded prefix, the program, and the only padded seed or the hash of all padded seeds in a row |
| PdaText.AddressSpelled | crates/wsp-lez-core/src/registry.rs:47-88 | the addresses the programs check are the digests of those bytes, with the seeds of each kind of account by name |
| PdaText.ComputePdaRaw | sdk/registry/src/index.ts:101-113 | the printed address of raw seeds under the program a text denotes |
| PdaText.SeedListsDerive | sdk/registry/src/index.ts:115-123 | the clients' seed lists give the addresses the guests check |
| PdaText.PointerPdaText | packages/wallet-ui/src/onboarding.ts:71 | the address text derived for a pointer key is that of the record the pointer program writes |
| PdaText.SeedsSpelled | packages/wallet-ui/src/pda.ts:19-23 | each literal seed and the hash prefix start with their text and are zero behind it |
| Risc0.EncodeInto | sdk/registry/src/risc0.ts:69-124 | the writer appends exactly the encoding of a value, recursion and packing loops included |
| Risc0.WordWriter.PushBytesPadded | sdk/registry/src/risc0.ts:60-66 | bytes are packed four to a word, zero-padded, despite or-ing into signed numbers |
| Risc0.OrByteAdds | sdk/registry/src/risc0.ts:63 | the bitwise or of a shifted byte with a number whose bits lie below it is their sum |
| Risc0.OrBytesIsWord | sdk/registry/src/risc0.ts:63 | or-ing four shifted bytes in signed 32-bit arithmetic yields their little-endian word |
| Risc0.EncodeInstruction | sdk/registry/src/risc0.ts:127-131 | variant index, then the arguments' encodings |
| Risc0.NumbersSpelled | sdk/registry/src/risc0.ts:69-87 | the words of truth values and numbers, one word or two with the low one first |
| Risc0.CompoundsSpelled | sdk/registry/src/risc0.ts:104-123 | lengths, option markers and variant indices come first, then the parts in order; arrays and tuples have neither |
| Risc0.BytesSpelled | sdk/registry/src/risc0.ts:92-103 | the words of a text and of a byte vector |
| InstructionReader.DecodeValue | packages/wallet-ui/src/approval.ts:110-159 | the reader's result and position are those of the typed decoding function, for every type of the grammar |
| InstructionReader.RoundTrip | packages/wallet-ui/src/approval.ts:110-159 | a written value is read back at any position of any words that contain it, strings less a leading byte order mark, and the reader stops at its end |
| InstructionReader.RoundTripWithin | packages/wallet-ui/src/approval.ts:166-180 | so is a whole argument list, whatever stands before and after it |
| InstructionReader.ArgsUnique | packages/wallet-ui/src/approval.ts:166-180 | argument lists of the same types with the same words have the same values as displayed |
| InstructionReader.NonzeroReads | packages/wallet-ui/src/approval.ts:110-159 | any nonzero word reads as true, or as announcing a value |
| Wire.WordsToHex | sdk/registry/src/risc0.ts:134-143 | two lower-case digits a byte, words least significant byte first |
| Wire.InstructionDataHex | sdk/registry/src/risc0.ts:145-147 | the text of an instruction is the text of its words |
| Wire.InstructionSpelled | sdk/registry/src/risc0.ts:134-147 | the eight bytes printed for one instruction, each word lowest byte first |
| Wire.HandRolledHex | packages/wallet-ui/src/app.tsx:407-420 | the hand-written encoder prints exactly what the SDK prints for instruction 0 with those strings |
| Wire.HandRolledString | packages/wallet-ui/src/onboarding.ts:98-104 | its inner loop pushes a string's length and words; signed words print as their unsigned values |
| Wire.DecodeR0Instruction | packages/wallet-ui/src/approval.ts:166-180 | parses the text, picks the instruction and decodes its arguments, or reports what is wrong |
| Wire.DecodeRefusals | packages/wallet-ui/src/approval.ts:166-180 | which data is refused: without an index, with one past the interface, or ending too early |
| Wire.DecodeEncodedWords | packages/wallet-ui/src/approval.ts:166-180 | words behind the last argument are not looked at |
| Wire.DecodeEncoded | packages/wallet-ui/src/approval.ts:166-180 | the approval gate shows the instruction and the argument values the SDK encoded |
| Wire.ReadersAgree | crates/wsp-lez-core/src/worker.rs:400-409 | the worker and the approval gate both recover any words from their text |
| Wire.WorkerAccepts | crates/wsp-lez-core/src/worker.rs:400-409 | the worker accepts exactly hexadecimal text of whole words |
| Wire.WorkerTextIsCanonical | crates/wsp-lez-core/src/worker.rs:400-409 | what the worker accepts the gate reads alike, and printing it again gives the same text in lower case |
| Wire.ParseProgramId | crates/wsp-lez-core/src/worker.rs:645-659 | the loop with byte swaps reads little-endian words from 64 digits after an optional prefix |
| Wire.ProgramIdRoundTrip | crates/wsp-lez-core/src/worker.rs:645-666 | printing a program id and parsing it is the identity |
| Wire.ProgramAccountBytes | crates/wsp-lez-core/src/registry.rs:26-45 | the account id of a program is what its 64-digit text denotes as an account id |
| EntryCodec.DecodeEntryNative | crates/wsp-lez-core/src/registry.rs:107-146 | the closures over a moving offset compute the native decoding, UTF-8 checks included |
| EntryCodec.DecodeEntryLoose | sdk/registry/src/index.ts:161-199 | the loop over clamped slices computes the TypeScript decoding |
| EntryCodec.NativeReadsWriter | crates/wsp-lez-core/src/registry.rs:107-146 | the native decoder returns every written field, whatever follows |
| EntryCodec.LooseReadsWriter | sdk/registry/src/index.ts:161-199 | with strings below 2 GiB so does the TypeScript decoder, less leading byte order marks: exactly as written if and only if no string starts with one |
| EntryCodec.CheckedPrefixesRejected | crates/wsp-lez-core/src/registry.rs:107-146 | the native decoder rejects every strict prefix of an entry |
| EntryCodec.LoosePrefixesRejected | sdk/registry/src/index.ts:161-199 | so does the TypeScript decoder, although only its last read can fail |
| EntryCodec.DecodersAgree | sdk/registry/src/index.ts:161-199 | what the TypeScript decoder rejects the native one rejects; on what it accepts they agree if and only if no length field has its sign bit set and every string is well-formed without a leading byte order mark |
| EntryCodec.TextDecides | crates/wsp-lez-core/src/registry.rs:117-121 | where no length field has its sign bit set, the two differ exactly in malformed text and byte order marks |
| EntryCodec.SignedLengthsDiverge | sdk/registry/src/index.ts:164-172 | 73 bytes with a length field of -4 that only the TypeScript decoder accepts |
| EntryCodec.GuestBijection | programs/registry/methods/guest/src/bin/registry.rs:113-122 | the guest reads an entry from some bytes if and only if they are what it writes for it |
| EntryCodec.LayoutSpelled | programs/registry/methods/guest/src/bin/registry.rs:113-122 | an entry is written field by field in the order named: ids, kind, nine texts with four-byte lengths, timestamp |
| RegistryWire.IxRoundTrip | programs/registry/methods/guest/src/bin/registry.rs:134-417 | every registry instruction is recovered from its words, whatever follows them |
| RegistryWire.RegistrationsSpelled | programs/registry/methods/guest/src/bin/registry.rs:134-284 | the three registrations are variants 0 to 2 with their arguments by name |
| RegistryWire.UpdatesSpelled | programs/registry/methods/guest/src/bin/registry.rs:290-417 | the three updates are variants 3 to 5 with theirs |
| RegistryWire.MirrorIsInstruction | programs/testimonial/methods/guest/src/bin/testimonial.rs:20-50 | the mirror enum's variants 0 and 3 are, word for word, the registry's instructions |
| Programs.HookRoundTrip | programs/testimonial/methods/guest/src/bin/testimonial.rs:138-227 | the hooks' instructions are recovered from their words |
| Programs.HooksSpelled | sdk/registry/src/index.ts:325-349 | the hooks are variants 1 and 2 with their arguments by name |
| Programs.ProgramIdBytesInverse | programs/pointer/methods/guest/src/bin/pointer.rs:109-123 | program ids survive the way to bytes and back, in both directions |
| Programs.ResolvePublished | packages/wallet-ui/src/onboarding.ts:75-80 | a record's bytes hold the published value, and it resolves as published if and only if it starts with no byte order mark |
| Guest.ProgramIdBytes | programs/registry/methods/guest/src/bin/registry.rs:76-82 | the loop fills 32 bytes with the words of a program id |
| Guest.ProgramIdFromBytes | programs/testimonial/methods/guest/src/bin/testimonial.rs:118-124 | the loop fills eight words from 32 bytes |
| Guest.WriteEntry | programs/registry/methods/guest/src/bin/registry.rs:113-122 | stores the entry's bytes, or leaves the account alone when they exceed the cap |
| Guest.RegisterDeployer | programs/registry/methods/guest/src/bin/registry.rs:134-181 | the handler's verdict and the account it leaves are those of the model's execution |
| Guest.RegisterThirdParty | programs/registry/methods/guest/src/bin/registry.rs:246-284 | the same for a third party |
| Guest.UpdateDeployer | programs/registry/methods/guest/src/bin/registry.rs:290-330 | likewise, the entry rewritten field by field |
| Guest.UpdateThirdParty | programs/registry/methods/guest/src/bin/registry.rs:334-374 | likewise |
| Guest.Publish | programs/pointer/methods/guest/src/bin/pointer.rs:81-105 | likewise for a pointer record |
| Registry.RunEffect | programs/registry/methods/guest/src/bin/registry.rs:134-374 | a successful instruction changes nothing or writes one entry matching its address; a deployer entry only for the caller, a third-party entry only with its author's signature |
| Registry.GuardsRedundant | programs/registry/methods/guest/src/bin/registry.rs:310-363 | where stored entries match their addresses, the kind and author guards cannot fail |
| Registry.StoredReadsBack | programs/registry/methods/guest/src/bin/registry.rs:113-122 | what write_entry stores, the guest decodes to the same entry |
| Registry.BoundsAfterUpdate | programs/registry/methods/guest/src/bin/registry.rs:84-111 | an updated entry with a proper name is within registration's bounds if and only if the update is in bounds |
| Registry.ValidateSpelled | programs/registry/methods/guest/src/bin/registry.rs:84-111 | the check passes exactly within the bounds in numbers, and its code names the first bound broken |
| Registry.ReplacesIsUpdated | programs/registry/methods/guest/src/bin/registry.rs:320-327 | an update replaces each field by the new one of its name and leaves the rest |
| Outcomes.DeployerRegistersExactly | programs/registry/methods/guest/src/bin/registry.rs:134-181 | succeeds if and only if the calling program's own entry is unused, the fields are in bounds and fit; both the guest and the native decoder then find exactly the given fields; else the code of what is wrong |
| Outcomes.ThirdPartyRegistersExactly | programs/registry/methods/guest/src/bin/registry.rs:246-284 | the same for the signing author's own entry, kind and timestamp included |
| Outcomes.DeployerUpdatesExactly | programs/registry/methods/guest/src/bin/registry.rs:290-330 | succeeds if and only if the entry is there, the program itself calls and the result fits; the stored entry has every new field under its name and all else as before |
| Outcomes.ThirdPartyUpdatesExactly | programs/registry/methods/guest/src/bin/registry.rs:334-374 | the same for an entry whose author signed |
| Outcomes.ThirdPartyTransaction | programs/registry/methods/guest/src/bin/registry.rs:246-284 | the transaction of a third party's call can complete and commits that entry or nothing |
| Outcomes.PublishesExactly | programs/pointer/methods/guest/src/bin/pointer.rs:81-105 | succeeds if and only if the key's record is unused, the publisher signed, the key has 1 to 32 bytes, the value 1 to 128, and the record fits; it then holds publisher, length and value; else the code of what is wrong |
| Outcomes.PublishTransaction | programs/pointer/methods/guest/src/bin/pointer.rs:81-105 | the transaction of a user's publish can complete and commits that record or nothing |
| Outcomes.PublishThenResolve | packages/wallet-ui/src/onboarding.ts:67-113 | from any reachable state with the record unused a publish within the bounds can complete, and in every later state the value resolves |
| Runs.Step | programs/registry/methods/guest/src/bin/registry.rs:134-417 | one execution of any program, known or not, does no more than its kind of call may |
| Runs.MoveKeepsInv | programs/registry/methods/guest/src/bin/registry.rs:134-417 | every move keeps the slots sound, the log proven and replayable, and committed entries and records going |
| RunTheorems.DeployerEntriesProve | programs/registry/methods/guest/src/bin/registry.rs:134-181 | in every reachable state a live deployer entry of p decodes to kind 0 with program and author p, p is not zero, and it was registered, and every logged change made, on a call an earlier execution of p emitted |
| RunTheorems.ThirdPartyEntriesSigned | programs/registry/methods/guest/src/bin/registry.rs:246-284 | likewise a third-party entry decodes to its address's program and author, and every logged change was made on a call that mentioned the author as signed |
| RunTheorems.GuardsNeverFire | programs/registry/methods/guest/src/bin/registry.rs:310-363 | in no reachable state does a kind or recorded-author check stop an instruction |
| RunTheorems.HistoryMonotone | programs/registry/methods/guest/src/bin/registry.rs:320-372 | live entries never disappear; program, author, kind, name and timestamp never change; names keep 1 to 64 bytes |
| RunTheorems.OneAccountAStep | programs/registry/methods/guest/src/bin/registry.rs:134-417 | an execution of the registry changes at most one account |
| RunTheorems.UpdatesIgnoreBounds | programs/registry/methods/guest/src/bin/registry.rs:290-330 | a program's update of its live entry succeeds whenever the result fits, and the entry then meets registration's bounds if and only if the update does |
| RunTheorems.ThirdPartyUpdatesIgnoreBounds | programs/registry/methods/guest/src/bin/registry.rs:334-374 | the same of a third-party entry updated by its author |
| RunTheorems.RecordsStay | programs/pointer/methods/guest/src/bin/pointer.rs:81-105 | a pointer record, once there, stays byte for byte and resolves |
| RunTheorems.PublishedResolves | packages/wallet-ui/src/onboarding.ts:67-82 | after a committed publish the resolver finds the published value in every later state, from any pointer with that key; exactly as published if and only if it starts with no byte order mark |
| SelfRegistration.HookOutcomeIs | programs/testimonial/methods/guest/src/bin/testimonial.rs:138-183 | register_self succeeds exactly at the program's own unused address and emits one register_deployer call |
| SelfRegistration.RegistryOutcomeIs | programs/registry/methods/guest/src/bin/registry.rs:134-181 | called by the program itself, the registry writes the entry exactly when the fields are good and fit |
| SelfRegistration.SelfRegistrationIsAtomic | programs/pointer/methods/guest/src/bin/pointer.rs:137-182 | the whole transaction can complete in one way only and commits one atomic registration or nothing |
| SelfRegistration.SecondAttemptFails | programs/registry/methods/guest/src/bin/registry.rs:190-241 | after a registration no later attempt of that program changes anything, whatever happened in between |
| SelfUpdate.SelfUpdateIsAtomic | programs/pointer/methods/guest/src/bin/pointer.rs:188-226 | an update through the hook can complete in one way only and commits the program's own live entry with each field replaced by the new one of its name, or nothing |
| SelfUpdate.OutOfBoundsReached | programs/registry/methods/guest/src/bin/registry.rs:290-330 | from the start a run registers a program and updates its entry with any fields that fit; the entry meets the bounds if and only if the update does |
| SelfUpdate.VersionlessEntryReached | programs/registry/methods/guest/src/bin/registry.rs:320-328 | a run after which a live entry has no version, which registration refuses |
| Sdk.InstructionArrives | sdk/registry/src/index.ts:302-323 | every registry instruction the SDK prints reaches the registry as itself |
| Sdk.HookArrives | sdk/registry/src/index.ts:325-349 | every hook call the SDK prints reaches a registrable program as itself |
| Sdk.RegisterDeployerArrives | sdk/registry/src/index.ts:281-300 | the text of registerDeployer is a register_self call for all three registrable programs |
| Sdk.DeployerEntryText | sdk/registry/src/index.ts:115-116 | the derived entry text denotes the address the registry writes |
| Sdk.RegistrationShows | sdk/registry/src/index.ts:281-300 | from SDK call to client: once the transaction completes, the native decoder shows the registered fields under the derived address, the TypeScript one too less leading byte order marks |
| Faucet.Parse | crates/wsp-lez-core/src/faucet.rs:32-43 | accepts exactly 33 bytes with difficulty at most 32, and keeps them |
| Faucet.ValidSolution | crates/wsp-lez-core/src/faucet.rs:50-56 | true exactly when the digest of 48 bytes, the seed and then the nonce lowest byte first, starts with that many zero bytes |
| Faucet.Search | crates/wsp-lez-core/src/faucet.rs:102-113 | the wrapping search returns the first solution after its start, or stops at the first set flag with none before |
| Faucet.SearchUnstopped | crates/wsp-lez-core/src/faucet.rs:102-113 | never told to stop, it ends from every start if any nonce is valid, at the cyclically nearest one |
| Faucet.Node.Register | crates/wsp-lez-core/src/faucet.rs:150-171 | refuses without asking the chain exactly when the key is missing; otherwise asks for initialization once and first; submits no claim; ends well only upon a moment that shows the account initialized |
| Faucet.FreshSolution | crates/wsp-lez-core/src/faucet.rs:214-236 | a nonce is handed on exactly when the challenge was read twice alike with 150 in the pool the second time, and solves it; fewer than 150 at first, or a difficulty above 3, ends the claim |
| Faucet.Prepare | crates/wsp-lez-core/src/faucet.rs:205-213 | an account of another program is refused, an unused one is initialized if its key is held, and only an account seen able to receive goes on |
| Faucet.SendUnlessMoved | crates/wsp-lez-core/src/faucet.rs:237-246 | the claim is sent only if the balance just read is the one known, else the new balance is handed on |
| Faucet.Reconcile | crates/wsp-lez-core/src/faucet.rs:249-263 | ends with the exact credit, with a moved balance, or past the deadline, having seen no other balance; ended by the deadline it never read the balance if and only if the first look at the clock was past it |
| Faucet.Claim | crates/wsp-lez-core/src/faucet.rs:198-266 | in any environment: at most one submission, justified by the last reads; success only on the exact credit, after at most three retries; other failures tell whether a claim was sent; a receipt and an unconfirmed claim name the transaction the node answered with; a claim credited at its first look ends with that receipt, one late at it unconfirmed with the balance unread |
| Faucet.OverdueClaim | crates/wsp-lez-core/src/faucet.rs:198-264 | moments from the very start of a claim after which it was sent, is reported unconfirmed, and the balance was never read again |
| Recovery.SealKit | packages/recovery/src/kit.ts:66-80 | the output buffer is magic, salt, nonce and ciphertext |
| Recovery.SealUnder | packages/recovery/src/kit.ts:111-120 | the output buffer is nonce and ciphertext |
| Recovery.KitSpelled | packages/recovery/src/kit.ts:66-80 | where mark, salt, nonce and ciphertext stand, and which fields by name are sealed under version 1 |
| Recovery.KitChecks | packages/recovery/src/kit.ts:83-108 | which files are no kit, that only version 1 opens, and what missing fields count as |
| Recovery.SealedSpelled | packages/recovery/src/blob.ts:30-43 | twelve bytes of nonce, then the ciphertext |
| Recovery.KitRoundTrip | packages/recovery/src/kit.ts:66-108 | a kit opens with its passphrase, and to the same contents with any passphrase that opens it |
| Recovery.SealedRoundTrip | packages/recovery/src/blob.ts:30-55 | wrapped shares and sealed blobs open to what was sealed |
| Recovery.Enroll | packages/recovery/src/enroll.ts:54-77 | uploads the wrapped share and hands out a kit without a blob; fails only on a short PRF |
| Recovery.OnboardVault | packages/recovery/src/enroll.ts:88-118 | uploads the wrapped share and the sealed blob and hands out kit, device share and pointer value; fails only on a short PRF or bad base64 |
| Recovery.Recover | packages/recovery/src/enroll.ts:166-216 | the locals filled in with precedence and the pushed shares compute the functional recovery |
| Recovery.RecoverVault | packages/recovery/src/enroll.ts:127-159 | likewise for key and blob |
| Recovery.WrapKeyLengths | packages/recovery/src/enroll.ts:188 | the wrap key in a kit must have 16, 24 or 32 bytes |
| Recovery.PointerParts | packages/recovery/src/enroll.ts:143-198 | splitting a pointer value at colons returns the share's id and the blob's, if there is one |
| Recovery.StandsAtOnce | packages/recovery/src/enroll.ts:88-118 | right after an enrollment storage serves its records, whatever it held before |
| Recovery.EndToEnd | packages/recovery/src/enroll.ts:127-216 | the original key, and the blob if one was enrolled, come back exactly when the kit opens and no passkey beside it is too short, or when there is no kit and passkey, device share and published pointer are all there; beside an opened kit the passkey is arbitrary, and so is the pointer if the vault has a blob |
| Recovery.KitGivesKey | packages/recovery/src/enroll.ts:180-215 | what an opened kit carries wins over any passkey and any pointer, with or without the device share |
| Recovery.KitPointerFirst | packages/recovery/src/enroll.ts:186-198 | a kit without the share's id is led to it by its own pointer, not by that of a passkey beside it |
| Recovery.KitBlobLocation | packages/recovery/src/enroll.ts:139-145 | the blob is looked for under the kit's id, whatever the passkey and the pointer say; for a vault without a blob an honest pointer names none |
| Recovery.ShortPasskeyFails | packages/recovery/src/enroll.ts:190-194 | a passkey output under 16 bytes makes recovery with an opened kit fail |
| Recovery.OneFactorFails | packages/recovery/src/enroll.ts:201-214 | without a kit, passkey or device share alone recover nothing, whatever storage, pointer and cryptography do |
| Recovery.PasskeyAloneFails | packages/recovery/src/enroll.ts:166-216 | after an enrollment the passkey alone yields too few shares |
| RecoveryOnChain.PublishArrives | packages/wallet-ui/src/onboarding.ts:96-108 | the text publishPointer prints is a publish instruction for key and value |
| RecoveryOnChain.PublishedRecovers | packages/wallet-ui/src/onboarding.ts:67-113 | once the pointer's publish is committed, passkey and device share recover the vault in every later state of the chain |
| RecoveryOnChain.OnboardPublishRecover | packages/wallet-ui/src/onboarding.ts:67-113 | from any reachable state with the pointer's record unused, the printed publish of a pointer value of at most 128 plain characters can complete, and then passkey and device share recover the vault in every later state |
| Approval.MemorySessionStore.Get | packages/wallet-ui/src/approval.ts:59-66 | returns a grant up to and including its expiry and drops it afterwards |
| Approval.MemorySessionStore.Set | packages/wallet-ui/src/approval.ts:67-69 | records a grant and leaves the others |
| Approval.TraceSafe | packages/wallet-ui/src/approval.ts:244-267 | in every interleaving a call reaching the backend was confirmed itself, or is a program call checked within 900000 ms of a grant by a confirmed call of that program; transfers always the former; none reaches it twice |
| Approval.UseNeverExtends | packages/wallet-ui/src/approval.ts:57-72 | only recording a grant adds or prolongs one |
| Approval.GrantPassesAnyCall | packages/wallet-ui/src/approval.ts:254-267 | while a grant lasts, a call of the program with any data goes through unasked |
| Approval.UnaskedExactlyWhenGranted | packages/wallet-ui/src/approval.ts:260-266 | a program call goes on unasked exactly when a grant of its program is live at its check, whatever its data |
| Approval.UnaskedExactlyAfterGrant | packages/wallet-ui/src/approval.ts:254-267 | in every reachable state a program call goes on unasked if and only if a grant was recorded for a call of its program at most 15 minutes before |
| Approval.SecondCallUnasked | packages/wallet-ui/src/approval.ts:254-267 | from the very start a second call with other data passes on the first call's confirmation |
| Bridge.LogosBridge.CallModuleAsync | web/wallet/src/bridge.js:37-47 | numbers, queues and remembers a request |
| Bridge.LogosBridge.Drain | web/wallet/src/bridge.js:27-31 | hands out the queue and empties it |
| Bridge.LogosBridge.OnMessage | web/wallet/src/bridge.js:17-24 | settles a pending request once, ignores everything else |
| Bridge.DrainPump.OnTriggered | modules/widespread_wallet_ui/src/qml/WalletView.qml:85-113 | starts at most one drain and clears its flag when the script cannot start |
| Bridge.DrainPump.OnResult | modules/widespread_wallet_ui/src/qml/WalletView.qml:94-106 | passes on every drained request in order |
| Bridge.Conservation | web/wallet/src/bridge.js:12-48 | in every run of one page life each id is queued, taken or settled, in one place only; pending is the first two; requests are taken once each, in order; at most one drain is out |
| Bridge.DeliverSettlesOne | web/wallet/src/bridge.js:17-24 | a message settles at most its own request, a duplicate changes nothing |
| Bridge.SettledForGood | web/wallet/src/bridge.js:17-24 | a settled request keeps its outcome through the rest of the page life |
| Bridge.AnsweredSettles | web/wallet/src/bridge.js:17-24 | the first answer delivered for a request settles it with that answer |
| Framing.ReadFrame | crates/wsp-lezd/src/main.rs:37-57 | a frame, a clean end within the header, or the error for a large or cut-off frame |
| Framing.WriteFrame | crates/wsp-lezd/src/main.rs:59-64 | appends the length cast to 32 bits and the payload |
| Framing.FrameRoundTrip | crates/wsp-lezd/src/main.rs:37-64 | a written frame is read back, the rest untouched, if and only if it is within the limit |
| Framing.StreamRoundTrip | crates/wsp-lezd/src/main.rs:37-64 | reading any list of written frames within the limit yields that list and a clean end |
| Framing.ReadingExplainsStream | crates/wsp-lezd/src/main.rs:37-57 | any input is the frames read plus a rest that explains why reading ended |
| Framing.Serve | crates/wsp-lezd/src/main.rs:124-146 | one reply frame for every readable frame, in order, also when the input then turns bad |
| Framing.RepliesInOrder | crates/wsp-lezd/src/main.rs:124-146 | reply k answers frame k under its id, or 0 when it is no request, from the worker the earlier frames left |
| Framing.HelperCall | apps/wallet-tauri/src-tauri/src/main.rs:53-69 | writes one frame and reads one, of at most 8 MiB; an early end is an error |
| Framing.CallThroughDaemon | apps/wallet-tauri/src-tauri/src/main.rs:53-69 | a request within the daemon's limit is answered with the daemon's reply exactly when that is within the helper's |

## Left out

- InstructionReader.RoundTrip: an i64 is recovered only modulo 2^64, because the decoder renders it unsigned; a byte vector is recovered as a list of bytes.
- InstructionReader.DecodeValue: rendering values as text and truncating it is not modelled, nor are the interface types the decoder marks unsupported, which consume no words.
- EntryCodec.DecodersAgree: data of 2 GiB or more is not compared; account data is capped far below.
- Wire.DecodeR0Instruction: argument names and the texts shown for arguments are not part of the result, only instruction and values; the replacement of malformed UTF-8 in a shown string is not modelled.
- EntryCodec.DecodeEntryNative: the nine string reads are one loop of nine.
- Faucet.Claim: the credited balance wraps at 2^128 as in a release build; a build with overflow checks would stop instead.
- RecoveryOnChain.OnboardPublishRecover: the pointer value is plain text, as content ids are.
- Recovery.EndToEnd: a device share is the enrolled one; a kit is the enrolled one, tried with any passphrase, or does not open; without a kit a passkey given with the device share is the enrolled one. The pointer resolves to the published value or to nothing where recovery has to ask it: without a kit, and with a kit of a vault that has no blob. Storage still serves the enrolled records; content ids are not empty and hold no colon.
- Bridge.Conservation: one page life; reloading the page starts a new one. The host answers only requests it was handed.
- Framing.Serve: writing never fails and replies always serialize.
- Guest.UpdateDeployer: the framework's checks come first, and the account holds an entry of the registry or nothing.
- Sdk.HookArrives: the SDK's updateDeployer aimed at the registry's own update_self is not covered; that hook takes no program id.
- The testimonial program's submit; only its self-registration hooks and the encoder of its call are modelled.
- Strings are taken to be below 4 GiB, as in the 32-bit length fields.
- SHA-256, AES-GCM, HKDF, PBKDF2, the Shamir library, base64, JSON, UTF-8 checks and the replacement of malformed text are parameters with contracts.
- The unseen framework and node: signatures, fees, cycle limits, block order, balances and nonces.
- Describing a call for the user, fetching interfaces, and the other operations of the approval gate, which are passed through.
- The SDK's own copy of base58 and account-id parsing, which has the text of the modelled one.
- HTTP clients, storage nodes, passkey ceremonies, views, command lines, FFI, build scripts and generated bindings.
