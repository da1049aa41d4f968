# krb5-rs, modelled and proved in Dafny

krb5-rs is a Kerberos 5 implementation in Rust. This project models its most stateful parts and proves
what they promise, for every input, every run and every peer:

- **NegoEx** (`NegoexCodec`, `NegoexEngine`, `NegoexNarrowing`, `NegoexSession`, `NegoexWitness`, `NegoexContext`):
  the message codec, the negotiation engine of both sides over arbitrary mechanisms, and runs of two
  endpoints. The mechanisms, the checksums and the random values are parameters; a mechanism is a
  function of the calls made to it so far.
- **n-fold** (`Modular`, `Nfold`): bit rotation, 16-bit column sums and end-around carry, against
  arithmetic modulo 2^(8n) - 1.
- **AES-CTS and the enctypes** (`AesCts`, `Enctypes`): ciphertext stealing over an invertible block
  cipher, and the two families of encryption with a chained state.
- **Sequence numbers** (`SeqState`): the 64-bit window against the full set of numbers received.
- **Credential caches** (`Text`, `CcMarshal`, `CcMarshalIo`, `CcRetrieve`, `CcFile`, `CcRefine`,
  `CcConfig`, `Names`, `Ccaches`): four versions of the FILE format, records removed in place, matching
  and retrieval, configuration entries, principal names as text, and the FILE cache as a refinement of
  the MEMORY cache.
- **Keytabs** (`Keytab`, `KeytabSlots`, `KeytabFile`): sized slots and holes, and conservation of entries.
- **KDC ticket policy** (`Policy`, `PolicyChain`): flags, end times, renewal times and policy modules,
  along chains of derived tickets.
- **IAKERB** (`Token`, `Iakerb`, `IakerbSession`, `IakerbEndpoints`): the framing of section 3.1 of RFC
  2743, the phase machine of the initiator, the proxying acceptor, and their shared transcript.

Code that computes is modelled by functions. Code that updates buffers, fields or arrays is modelled by
methods and classes whose contracts tie the result to those functions, and the theorems are about the
functions. Integer widths are written out where the source relies on them.

Where the source does not always meet the property one would state of it, the model keeps the source's
behaviour and a lemma gives the exact condition, so that its negation names the failing inputs; where
those are not plain from it, another lemma produces them:

- n-fold is right on every input of given lengths exactly when at most 257 blocks are added
  (`RightExactly`); beyond that some input overflows its 16-bit cells (`OverflowExactly`) and is folded
  wrong (`FoldsWrong`), the all-ones input when there are fewer than 65536 blocks (`OnesFoldWrong`).
- The replay window goes on tracking exactly when a call neither jumps forward by 63 over a map with more
  than its lowest bit set nor takes the top relative number (`TracksExactly`, `RegularExactly`). The jump
  shifts a 64-bit word by 64 and makes false duplicates (`FalseDuplicate`, `LosingJumpReachable`). The top
  number wraps the next expected number to 0, after which any number is taken as new, so that it can be
  sent twice (`WrapForgets`, `TopTwice`). A number sent again with no such wrap since is never reported
  complete, jump or not (`CompleteOnce`). The shift count and the sum wrap as in a release build.
- A failed integrity check leaves the chained state alone in the SHA-2 family but not, in general, in the
  SHA-1 family (`StateAfterFailure`); every SHA-1 suite has, for every state, a ciphertext that fails and
  moves it (`FailureMovesState`).
- A version of the FILE cache keeps a credential whole exactly when its types are 16-bit and version 1 is
  given no name type (`CredRoundTrip`), and storing keeps FILE and MEMORY alike exactly when the
  credential also does not look like a removed record (`StoreAgreesExactly`).
- Parsing undoes unparsing exactly for names with components, all of them text, and a realm that is not
  empty unless the default realm is (`ParseUndoesUnparse`); a name without such components shares its
  text with one that has them (`Twin`).
- A configuration value is read back exactly when its key and principal fit the component type
  (`SetThenGet`), because the source replaces what does not fit by an empty component.
- A keytab entry with an empty part ends the keytab for every reader (`BodyReads`, `AddKeeps`).
- An added keytab entry is read among the others exactly when a hole takes it, or nothing, or a zero
  placeholder with nothing to read behind it, follows the slots, or one to three stray bytes do through
  which it happens to be read all the same (`AddExactly`). Stray bytes always lose a small entry
  (`StrayBytesLoseEntry`).
- The acceptor of NegoEx reads the first of an empty list of mechanisms exactly when a call that left none
  is followed by a token that is read and holds no AP_REQUEST (`InRangeExactly`); any other token is then
  answered with an error (`EmptyStaysEmpty`).
- A more recent key version is the higher one exactly for pairs that do not look like a wrap-around
  (`MoreRecentExactly`); any such pair closes a circle (`MoreRecentCycles`).
- A derived ticket ends by its header's end time exactly when the header has not been over for 2^31
  seconds, because of the 32-bit clamp (`EndtimeWithinHeader`).
- Token framing can be parsed exactly when the mechanism is shorter than 2^24 bytes and the content
  shorter than 2^32 (`HeaderRoundTrip`).

The comment on the match flag TIMES in `src/ccache/mod.rs` says a stored expiration must be no later than
the requested one; the code requires it to be no earlier, and the model follows the code. So it does for
the comment on `parse_entry` in `src/keytab/file.rs`, which says version 1 entries have no 32-bit key
version, while the code reads one from whatever follows the key.

`dafny verify dfyconfig.toml` checks the whole project.

## Model

| member | source | states |
|---|---|---|
| NegoexCodec.MessageRoundTrip | src/gssapi/negoex.rs:462-692 | a written message is parsed back, at its position and with its length, if and only if its lengths fit their fields |
| NegoexCodec.TokenRoundTrip | src/gssapi/negoex.rs:598-621 | a token of written messages is parsed back whole and moves the counter by their number |
| NegoexCodec.AcceptedTokenIsTiled | src/gssapi/negoex.rs:462-607 | arbitrary bytes that are accepted are tiled by their messages, numbered in order, and the counter grows by their count |
| NegoexEngine.ParsedOffsets | src/gssapi/negoex.rs:462-607 | every parsed VERIFY position lies in the token, so the slices the checksum takes are in range |
| NegoexEngine.PreparedInit | src/gssapi/negoex.rs:969-1003 | an initiator step that gets as far as the checksum has a mechanism left and VERIFY positions inside its input |
| NegoexEngine.PreparedAccept | src/gssapi/negoex.rs:1016-1039 | the same for an acceptor step |
| NegoexNarrowing.InitShrinks | src/gssapi/negoex.rs:969-1013 | one initiator call on arbitrary bytes adds no mechanism; success leaves at least one, and exactly one from the second call on |
| NegoexEngine.InRangeExactly | src/gssapi/negoex.rs:818-824 | a call comes to the mechanism step with no mechanism and no AP_REQUEST, so that the first of none is read, if and only if an earlier call left none and the token is read and holds no AP_REQUEST |
| NegoexNarrowing.AcceptShrinks | src/gssapi/negoex.rs:1016-1046 | one acceptor call on arbitrary bytes adds no mechanism and, when it succeeds, leaves at least one |
| NegoexNarrowing.EmptyStaysEmpty | src/gssapi/negoex.rs:1016-1046 | once no mechanism is left every call that comes to an answer is answered with an error and leaves none |
| NegoexNarrowing.RunShrinks | src/gssapi/negoex.rs:969-1046 | over every run that stops at its first error the mechanisms only shrink and the first is always there; an initiator holds exactly one after two calls |
| NegoexSession.CompleteMeansAgreed | src/gssapi/negoex.rs:749-1046 | in every run of two endpoints, when both report completion they hold the same scheme |
| NegoexSession.AgreedAfterTwoCalls | src/gssapi/negoex.rs:749-1046 | from the acceptor's second call on both hold the same scheme, complete or not |
| NegoexSession.TranscriptsAgree | src/gssapi/negoex.rs:598-621 | the transcript is the concatenation of all tokens, the two differ by the token in flight; reading it makes the counters equal and, when it holds a message, the conversation IDs |
| NegoexSession.SignedBytes | src/gssapi/negoex.rs:872-921 | the bytes the verifier rebuilds are the bytes the sender signed, under the same key usage |
| NegoexSession.HonestVerify | src/gssapi/negoex.rs:872-921 | with equal keys the sender's VERIFY message is accepted and marks the checksum verified |
| NegoexSession.HonestVerifyNeverRejected | src/gssapi/negoex.rs:860-921 | in every run with matching keys no call fails for its checksum |
| NegoexWitness.CompletionReachable | src/gssapi/negoex.rs:969-1046 | for every scheme there is a run in which both sides report completion |
| NegoexContext.CheckExtensions | src/gssapi/negoex.rs:505-514 | the loop over extension entries finds a critical one exactly when there is one |
| NegoexContext.ReadAlerts | src/gssapi/negoex.rs:557-572 | the loop over alert entries computes the specified scan |
| NegoexContext.ReadBody | src/gssapi/negoex.rs:492-581 | the body of each message type is read as specified |
| NegoexContext.Negoex.constructor | src/gssapi/negoex.rs:395-420 | a new context has the given mechanisms at step 0 with an empty transcript |
| NegoexContext.Negoex.ParseMessage | src/gssapi/negoex.rs:462-595 | one message is parsed, updating counter and conversation ID as specified |
| NegoexContext.Negoex.ParseToken | src/gssapi/negoex.rs:598-607 | the token loop computes the specified list of messages |
| NegoexContext.Negoex.PutHeader | src/gssapi/negoex.rs:610-621 | the header is appended to the transcript and the counter advanced with wrap-around |
| NegoexContext.Negoex.AddNegoMessage | src/gssapi/negoex.rs:624-646 | the NEGO message of the current mechanisms is appended |
| NegoexContext.Negoex.AddExchangeMessage | src/gssapi/negoex.rs:649-658 | an exchange message is appended |
| NegoexContext.Negoex.AddVerifyMessage | src/gssapi/negoex.rs:661-674 | a VERIFY message is appended |
| NegoexContext.Negoex.AddVerifyNoKeyAlert | src/gssapi/negoex.rs:677-692 | the no-key alert is appended |
| NegoexContext.Negoex.QueryMetaData | src/gssapi/negoex.rs:713-723 | every mechanism is queried and those that fail are removed |
| NegoexContext.Negoex.ExchangeMetaData | src/gssapi/negoex.rs:726-747 | each peer metadata message is handed to its mechanism, which is removed when it fails |
| NegoexContext.Negoex.ExchangeMessage | src/gssapi/negoex.rs:726-747 | one metadata message is handed over |
| NegoexContext.Negoex.CheckOptimisticResult | src/gssapi/negoex.rs:750-764 | an answered optimistic exchange selects its mechanism, an unanswered one restarts it |
| NegoexContext.Negoex.ProcessAlerts | src/gssapi/negoex.rs:767-780 | a no-key alert drops the keys of the mechanism it names and unmarks its checksum |
| NegoexContext.Negoex.MechInit | src/gssapi/negoex.rs:783-815 | mechanisms are tried in order until one produces a token |
| NegoexContext.Negoex.MechAccept | src/gssapi/negoex.rs:818-858 | the acceptor's mechanism step with re-selection and restart |
| NegoexContext.Negoex.VerifyChecksum | src/gssapi/negoex.rs:872-901 | the checksum is verified over the transcript and the token up to the message |
| NegoexContext.Negoex.MakeChecksum | src/gssapi/negoex.rs:904-921 | the checksum over the transcript is made and appended |
| NegoexContext.Negoex.MakeOutputToken | src/gssapi/negoex.rs:924-962 | the messages of a reply are appended in order and returned |
| NegoexContext.Negoex.AddPlain | src/gssapi/negoex.rs:946-957 | the exchange message or alert of a reply |
| NegoexContext.Negoex.AddMetaData | src/gssapi/negoex.rs:936-944 | the metadata messages of the first reply, for the mechanisms that have some |
| NegoexContext.Negoex.KeepCommon | src/gssapi/negoex.rs:989-995 | the initiator keeps the schemes the acceptor listed, in the acceptor's order |
| NegoexContext.Negoex.Init | src/gssapi/negoex.rs:969-1013 | a whole initiator step is the engine's |
| NegoexContext.Negoex.Conclude | src/gssapi/negoex.rs:1004-1012 | the common end of a step: verify, answer, sign |
| NegoexContext.Negoex.Accept | src/gssapi/negoex.rs:1016-1046 | a whole acceptor step is the engine's |
| Nfold.ComputeGcd | src/crypto/nfold.rs:74-81 | Euclid's loop computes the greatest common divisor |
| Nfold.GcdIsGreatest | src/crypto/nfold.rs:74-81 | the common divisors are exactly the divisors of the result |
| Nfold.LcmSplits | src/crypto/nfold.rs:70-72 | the series is a whole number of copies and a whole number of blocks |
| Nfold.RotateRightBits | src/crypto/nfold.rs:47-67 | the byte loop computes the rotation |
| Nfold.RotatedValue | src/crypto/nfold.rs:47-67 | value(out)*2^nbits is value(in) modulo 2^(8 len)-1, and only zero rotates to zero |
| Nfold.RotationUnique | src/crypto/nfold.rs:47-67 | those two facts determine the rotation |
| Nfold.RotationsCompose | src/crypto/nfold.rs:47-67 | rotations compose by adding counts |
| Nfold.CarryKeepsValue | src/crypto/nfold.rs:28-41 | a carry pass keeps the value modulo 2^(8n)-1 |
| Nfold.CarryKeepsSum | src/crypto/nfold.rs:28-41 | a pass that carries lowers the digit sum, so the loop ends |
| Nfold.AddBlocks | src/crypto/nfold.rs:20-26 | the in-place column sums are the 16-bit cells of the series |
| Nfold.ComputeNFold | src/crypto/nfold.rs:8-44 | the whole loop computes the settled cells |
| Nfold.NFoldIsRepresentative | src/crypto/nfold.rs:8-44 | with at most 257 blocks the result is the representative in 1..2^(8n)-1 of the rotated copies, zero only for zero input |
| Nfold.RepresentativeUnique | src/crypto/nfold.rs:8-44 | there is only one such string |
| Nfold.OverflowExactly | src/crypto/nfold.rs:20-26 | no input overflows a cell if and only if at most 257 blocks are added |
| Nfold.MultipleIsLarge | src/crypto/nfold.rs:28-41 | digits that stand for a nonzero multiple of 2^(8n)-1 add up to at least 255 each |
| Nfold.FoldsWrong | src/crypto/nfold.rs:8-44 | any input that overflows a cell, its columns adding up to less than 255*65536 each, is not folded to its representative |
| Nfold.FirstOverflow | src/crypto/nfold.rs:20-26 | turning bytes to ones one by one comes to such an input, if to an overflow at all |
| Nfold.OnesFoldWrong | src/crypto/nfold.rs:8-44 | for all lengths that add 258 to 65535 blocks the all-ones input is not folded to its representative |
| Nfold.RightExactly | src/crypto/nfold.rs:8-44 | every input of the lengths is folded to its representative if and only if at most 257 blocks are added |
| AesCts.XorLoop | src/crypto/aes_cts.rs:166-170 | the xor loop over a block |
| AesCts.CbcEncrypt | src/crypto/aes_cts.rs:158-176 | the chunk loop is CBC encryption, with the length and key errors |
| AesCts.CbcDecrypt | src/crypto/aes_cts.rs:179-196 | the chunk loop is CBC decryption |
| AesCts.CtsEncryptIv | src/crypto/aes_cts.rs:23-63 | padding, CBC and the swap of the last blocks, updating the IV in place |
| AesCts.CtsDecryptIv | src/crypto/aes_cts.rs:73-133 | the inverse steps, updating the IV in place |
| AesCts.DecryptUndoesEncrypt | src/crypto/aes_cts.rs:23-133 | decryption returns the plaintext and leaves the IV encryption left, for every length from 16 bytes |
| AesCts.EncryptUndoesDecrypt | src/crypto/aes_cts.rs:23-133 | encryption returns the ciphertext, so each length is mapped one to one |
| Enctypes.RoundTrip | src/crypto/aes_sha1.rs:27-78 | an encrypted message decrypts under the same state and leaves the same state, in both families |
| Enctypes.AcceptedIsProduced | src/crypto/aes_sha2.rs:110-170 | only what encryption produces is accepted |
| Enctypes.StateAfterFailure | src/crypto/aes_sha1.rs:49-78 | when a failed integrity check leaves the state alone, exactly |
| Enctypes.FailureMovesState | src/crypto/aes_sha1.rs:49-78 | in every SHA-1 suite and from every state some ciphertext fails the check and moves the state |
| Enctypes.ConversationRoundTrip | src/crypto/aes_sha2.rs:110-170 | any list of messages comes back in order with equal states after each |
| Enctypes.EncryptState | src/crypto/aes_sha1.rs:27-47 | encryption on a state updated in place |
| Enctypes.DecryptSha1State | src/crypto/aes_sha1.rs:49-78 | SHA-1 decryption, which moves the state before checking |
| Enctypes.DecryptSha2State | src/crypto/aes_sha2.rs:141-170 | SHA-2 decryption, which checks first |
| SeqState.Tracker.constructor | src/gssapi/seqstate.rs:38-47 | the initial window |
| SeqState.Tracker.CheckNumber | src/gssapi/seqstate.rs:50-87 | one check updates the fields as specified |
| SeqState.StatusMeans | src/gssapi/seqstate.rs:50-87 | while the map tracks, the status is what the set of received numbers says |
| SeqState.TracksExactly | src/gssapi/seqstate.rs:50-87 | the map goes on tracking if and only if the call neither takes the top relative number, which wraps the next one to 0, nor is a jump that loses its shift |
| SeqState.RegularExactly | src/gssapi/seqstate.rs:50-87 | the runs without those two kinds of call, the regular runs, are exactly those on which the map tracks throughout |
| SeqState.RunRefines | src/gssapi/seqstate.rs:50-87 | on every regular run the window answers as the full set would |
| SeqState.CompleteOnce | src/gssapi/seqstate.rs:50-87 | from any state, regular or not, a number sent again is a duplicate within 64 of the next and old or out of sequence below, never complete, unless a call since has taken the top relative number |
| SeqState.WrapForgets | src/gssapi/seqstate.rs:54-67 | after a call that takes the top relative number, any number is answered as by a new window |
| SeqState.TopTwice | src/gssapi/seqstate.rs:54-67 | on a new window the top relative number sent twice is complete, or a gap, both times |
| SeqState.DuplicateExactly | src/gssapi/seqstate.rs:50-87 | on every regular run, a duplicate is reported exactly for a repeat inside the window |
| SeqState.FalseDuplicate | src/gssapi/seqstate.rs:55-62 | after a jump that loses its shift, a number never received is reported as a duplicate |
| SeqState.LosingJumpReachable | src/gssapi/seqstate.rs:55-62 | such a jump is reached by 0, 1, 65 |
| CcMarshalIo.Writer.I16 | src/ccache/marshal.rs:28-34 | a 16-bit field in the version's byte order is appended |
| CcMarshalIo.Writer.I32 | src/ccache/marshal.rs:35-41 | a 32-bit field is appended |
| CcMarshalIo.Writer.Data | src/ccache/marshal.rs:43-46 | a length and bytes are appended |
| CcMarshalIo.Writer.Princ | src/ccache/marshal.rs:104-116 | a principal is appended: counts, realm and the component loop |
| CcMarshalIo.Writer.Keyblock | src/ccache/marshal.rs:168-176 | the key is appended, with the enctype twice in version 3 |
| CcMarshalIo.Writer.Typeds | src/ccache/marshal.rs:191-226 | addresses or authorization data are appended |
| CcMarshalIo.MarshalCred | src/ccache/marshal.rs:247-263 | a credential's bytes are the specified layout |
| CcMarshalIo.MarshalPrinc | src/ccache/marshal.rs:119-123 | a principal's bytes are the specified layout |
| CcMarshalIo.Reader.Take | src/ccache/marshal.rs:64-71 | the slice and new position, or a format error |
| CcMarshalIo.Reader.I16 | src/ccache/marshal.rs:75-82 | a 16-bit field is read |
| CcMarshalIo.Reader.I32 | src/ccache/marshal.rs:83-90 | a 32-bit field is read |
| CcMarshalIo.Reader.U32 | src/ccache/marshal.rs:274-279 | a field read signed and cast is the unsigned reading |
| CcMarshalIo.Reader.Data | src/ccache/marshal.rs:92-98 | a length and bytes are read, a negative length refused |
| CcMarshalIo.Reader.Princ | src/ccache/marshal.rs:125-150 | a principal is read with its checks and component loop |
| CcMarshalIo.Reader.Keyblock | src/ccache/marshal.rs:178-189 | a key is read |
| CcMarshalIo.Reader.Typeds | src/ccache/marshal.rs:200-245 | addresses or authorization data are read with their checks |
| CcMarshalIo.UnmarshalCred | src/ccache/marshal.rs:266-304 | a credential and the length consumed |
| CcMarshal.PrincReads | src/ccache/marshal.rs:104-150 | a written principal reads back wherever it stands |
| CcMarshal.CredReads | src/ccache/marshal.rs:247-304 | a written credential reads back, whatever surrounds it, as what the version keeps of it |
| CcMarshal.StoredExactly | src/ccache/marshal.rs:104-245 | what the version keeps is the credential itself if and only if its types are 16-bit and version 1 has no name type |
| CcMarshal.CredRoundTrip | src/ccache/marshal.rs:247-304 | the round trip of all four versions holds under exactly that condition |
| CcRetrieve.RetrieveIn | src/ccache/retrieve.rs:88-117 | the first match, or the first among the most preferred enctypes; NotKtype exactly when only unlisted enctypes match, NotFound when nothing does |
| CcRetrieve.RetrievedOnce | src/ccache/retrieve.rs:88-117 | that answer is determined |
| CcFile.HeaderReads | src/ccache/file.rs:72-170 | a written header parses back in every version, with its time offset in version 4 |
| CcFile.ShapeReads | src/ccache/file.rs:127-201 | a file made by these operations reads back as its principal and live records |
| CcFile.StoreShape | src/ccache/file.rs:185-191 | storing appends exactly one record |
| CcFile.TombstoneFits | src/ccache/file.rs:212-223 | the record of a removed credential has exactly the room of the one it replaces |
| CcFile.RemoveShape | src/ccache/file.rs:203-228 | removal overwrites exactly the first live match, every other record's bytes stay, and NotFound means there is none |
| CcFile.RemoveIsLocal | src/ccache/file.rs:203-228 | in any file whatever, removal changes only the bytes of one live matching record |
| CcFile.RemoveKeepsHeader | src/ccache/file.rs:203-228 | removal leaves the header of any file, and so its time offset, as it was |
| CcRefine.TombstoneDeletes | src/ccache/file.rs:193-228 | overwriting the first live match is deleting it from the list that is read |
| CcRefine.StepAgrees | src/ccache/file.rs:173-256 | every operation answers alike in FILE and MEMORY and keeps them alike |
| CcRefine.FileRefinesMemory | src/ccache/memory.rs:23-98 | over every run from an initialization, all answers, the principal and the credentials agree |
| CcRefine.StoreAgreesExactly | src/ccache/file.rs:185-201 | a stored credential keeps the caches alike if and only if the version keeps it whole and it is not a removed record |
| CcConfig.MatchesEntry | src/ccache/mod.rs:302-404 | get_config looks for exactly the entry set_config writes, when it can be written |
| CcConfig.StepRepresents | src/ccache/memory.rs:67-97 | every operation keeps one credential for each entry, holding its value |
| CcConfig.ConfigIsDictionary | src/ccache/memory.rs:67-97 | over every run that leaves configuration to set_config, get_config reads the dictionary the run wrote |
| CcConfig.FileConfigIsDictionary | src/ccache/file.rs:239-269 | the same of the FILE cache of every version |
| CcConfig.SetThenGet | src/ccache/mod.rs:302-404 | a value set is read back if and only if key and principal fit the component type |
| CcConfig.EntriesDistinct | src/ccache/mod.rs:302-355 | entries of different keys or nameable principals are different |
| Names.AppendEscaped | src/ccache/mod.rs:324-342 | the escaping loop |
| Names.UnparseName | src/ccache/mod.rs:323-355 | the component loop computes the text |
| Names.ParseName | src/ccache/select.rs:367-412 | the character loop computes the parse |
| Names.ParseUndoesUnparse | src/ccache/select.rs:367-412 | parsing undoes unparsing if and only if there are components, all of them text, and a realm to find |
| Names.UnparseInjective | src/ccache/mod.rs:323-355 | among such names the text determines name and realm |
| Names.Twin | src/ccache/mod.rs:323-355 | every other name shares its text with one of them |
| Ccaches.ReadHeader | src/ccache/file.rs:72-123 | the header parser with its tag loop |
| Ccaches.ScanRecords | src/ccache/file.rs:138-150 | the record loop |
| Ccaches.KeepLive | src/ccache/file.rs:193-201 | the filter of removed records |
| Ccaches.FileCcache.ReadFile | src/ccache/file.rs:127-135 | header and principal are read, adopting a recorded offset |
| Ccaches.FileCcache.ReadRecords | src/ccache/file.rs:138-150 | the records of the file |
| Ccaches.FileCcache.Initialize | src/ccache/file.rs:153-176 | the file becomes header and principal |
| Ccaches.FileCcache.Principal | src/ccache/file.rs:178-183 | the default principal |
| Ccaches.FileCcache.Store | src/ccache/file.rs:185-191 | the file grows by the record, or is unchanged on error |
| Ccaches.FileCcache.LiveCreds | src/ccache/file.rs:193-201 | the live credentials |
| Ccaches.FileCcache.RemoveCred | src/ccache/file.rs:203-228 | the search and overwrite, or the error and the file unchanged |
| Ccaches.FileCcache.Retrieve | src/ccache/file.rs:230-237 | retrieval among the live credentials, adopting a recorded offset |
| Ccaches.FileCcache.SetConfig | src/ccache/file.rs:239-256 | the old entry removed and the new one stored, adopting a recorded offset |
| Ccaches.FileCcache.GetConfig | src/ccache/file.rs:258-269 | the first live entry's value, adopting a recorded offset |
| Ccaches.FindConfig | src/ccache/file.rs:263-268 | the search loop for an entry |
| Ccaches.MemoryCcache.Initialize | src/ccache/memory.rs:24-28 | the cache is emptied and owned |
| Ccaches.MemoryCcache.RemoveCred | src/ccache/memory.rs:43-56 | the first match is deleted |
| Ccaches.MemoryCcache.Retrieve | src/ccache/memory.rs:58-65 | retrieval in the list |
| Ccaches.MemoryCcache.SetConfig | src/ccache/memory.rs:67-85 | the old entry removed and the new one added |
| Ccaches.MemoryCcache.GetConfig | src/ccache/memory.rs:87-97 | the first entry's value |
| Keytab.BodyReads | src/keytab/file.rs:80-206 | a written entry reads back, whatever pads its slot, if and only if nothing of it is empty, and otherwise reads as the end |
| KeytabSlots.FramedReads | src/keytab/file.rs:25-77 | a framed file reads as the entries of its slots up to the first unreadable one |
| KeytabSlots.AddPlaces | src/keytab/file.rs:227-268 | the entry fills the first hole that takes it, whatever is behind the slots, or is put behind them, over a placeholder if there is one |
| KeytabSlots.AddExactly | src/keytab/file.rs:227-268 | the entry is then read among the others, with nothing else changed, if and only if a hole takes it or the slots are followed by nothing, by a placeholder with nothing to read behind it, or by stray bytes through which it is read all the same, as no body making less than 256 bytes with them is |
| KeytabSlots.AddKeeps | src/keytab/file.rs:227-268 | where reading goes on ending behind the slots, adding moves no slot and adds exactly the entry; an empty part hides it and what follows |
| KeytabSlots.RemoveKeeps | src/keytab/file.rs:270-289 | removal takes out exactly the first matching entry and leaves a hole of its size; NotFound means none matches |
| KeytabSlots.StepConserves | src/keytab/file.rs:227-289 | one operation in terms of the bag of entries |
| KeytabSlots.RunConserves | src/keytab/file.rs:227-289 | over every run whose adds find room or leave reading to end, the entries left and taken are those there and added, the file stays well formed, slot boundaries only extend |
| KeytabSlots.PlaceholdersGuard | src/keytab/file.rs:227-289 | with any number of zero placeholders behind the slots, or none, every run meets the condition of conservation |
| KeytabSlots.CreatedIsKept | src/keytab/file.rs:229-232 | a new file is well formed and empty |
| KeytabSlots.StrayBytesLoseEntry | src/keytab/file.rs:259-267 | in every keytab with one to three stray bytes behind its slots and no room in them, a small entry added is not read |
| KeytabFile.EntryBody | src/keytab/file.rs:80-97 | the body's bytes are the specified layout |
| KeytabFile.ReadEntry | src/keytab/file.rs:118-206 | the parser with its component loop |
| KeytabFile.ScanRecords | src/keytab/file.rs:40-76 | the slot loop |
| KeytabFile.PutEntry | src/keytab/file.rs:233-267 | the slot search and the write |
| KeytabFile.FileKeytab.ReadRecords | src/keytab/file.rs:25-77 | the records, none for a missing file |
| KeytabFile.FileKeytab.ListEntries | src/keytab/file.rs:209-215 | the entries that are no holes |
| KeytabFile.FileKeytab.AddEntry | src/keytab/file.rs:227-268 | the new contents, creating a missing file |
| KeytabFile.FileKeytab.RemoveEntry | src/keytab/file.rs:270-289 | the new contents, or the error and the file unchanged |
| KeytabFile.GetEntryIn | src/keytab/mod.rs:92-138 | the first exact version wins, else the first that answers unless a later version zero seems to have wrapped past it; without a version the one left standing when each more recent one takes the place of the last, which is the highest when no two candidates look wrapped; the two errors exactly |
| KeytabFile.LatestStands | src/keytab/mod.rs:111-116 | nothing behind the one left standing is more recent, and it is more recent than the one left standing in front of it, if any |
| KeytabFile.MoreRecentCycles | src/keytab/mod.rs:79-89 | every wrap-like pair and every version between 128 and 240 go in a circle |
| KeytabFile.MoreRecentExactly | src/keytab/mod.rs:79-89 | more recent is higher version if and only if the pair does not look wrapped either way |
| Policy.MakeTicketFlags | src/kdc/policy.rs:256-321 | the flags step by step |
| Policy.DerivedFlags | src/kdc/policy.rs:256-380 | after the option check, what a derived ticket's flags keep, may have and cannot have |
| Policy.InitialFlags | src/kdc/policy.rs:256-321 | an AS ticket is initial and has the privileges asked for and not denied |
| Policy.TicketEndtime | src/kdc/policy.rs:79-107 | the life is the least of the bounds in force |
| Policy.EndtimeWithinHeader | src/kdc/policy.rs:79-107 | the end time is within the header's if and only if the header has not been over for 2^31 seconds |
| Policy.Draft.SetRenewTime | src/kdc/policy.rs:129-188 | flag and renewal time are set or cleared together |
| Policy.RenewalBounds | src/kdc/policy.rs:129-188 | renewal is granted exactly when permitted, asked for and worth it, and is then the least of its limits |
| Policy.Draft.CheckPolicy | src/kdc/plugins.rs:83-100 | the modules in order, the first refusal, and times lowered by those before it |
| Policy.LowestIsLeast | src/kdc/plugins.rs:71-78 | a lowered time is the least of its start and the nonzero grants |
| Policy.OrderIndependent | src/kdc/plugins.rs:83-100 | two lists of the same accepting modules, in whatever order, lower both times alike |
| PolicyChain.IssueTgs | src/kdc/tgs_req.rs:657-715 | the checks, flags, times and policy of a TGS reply in order |
| PolicyChain.FlagsDescend | src/kdc/policy.rs:256-380 | along every chain of flags authentication and anonymity are kept, privileges never regained, delegation marks never lost, and nothing derived is invalid |
| PolicyChain.DerivedFollows | src/kdc/tgs_req.rs:657-715 | the flags of a derived ticket are a step of that chain, and its renewal time is within the header's |
| PolicyChain.DerivedWithin | src/kdc/tgs_req.rs:657-715 | one timely derivation moves neither the end, unless it renews, nor the horizon out |
| PolicyChain.ChainDescends | src/kdc/tgs_req.rs:657-715 | along every chain of tickets the flags descend and renewability is never regained |
| PolicyChain.ChainWithin | src/kdc/tgs_req.rs:657-715 | along every chain of timely derivations no ticket outlives the first's horizon |
| PolicyChain.ForwardedFrom | src/kdc/policy.rs:343-380 | forwarded flags trace to the forwardable ones they first came from |
| Token.PutTagLen | src/gssapi/token.rs:4-20 | the tag and length octets |
| Token.MakeTokenHeader | src/gssapi/token.rs:39-50 | the framing's bytes |
| Token.ReadLength | src/gssapi/token.rs:52-69 | the length loop |
| Token.ParseTokenHeader | src/gssapi/token.rs:76-93 | the framing parsed step by step |
| Token.ValueLenExactly | src/gssapi/token.rs:22-33 | the value length is right if and only if below 2^24 |
| Token.HeaderRoundTrip | src/gssapi/token.rs:39-93 | framing parses back exactly when mechanism and content are short enough, and otherwise not at all |
| Iakerb.TokenRoundTrip | src/gssapi/iakerb.rs:95-156 | a proxy token is recognized and gives back realm, cookie and message |
| IakerbSession.InitStepForward | src/gssapi/iakerb.rs:301-433 | whatever arrives, the phase never moves back, its credentials are there, and the transcript only grows until handed over |
| IakerbSession.PhasesMoveForward | src/gssapi/iakerb.rs:301-433 | over any inputs a phase once left is not come back to and a transcript handed over stays |
| IakerbSession.AfterSteady | src/gssapi/iakerb.rs:509-577 | one acceptor event keeps the hop bound and the frozen transcript |
| IakerbSession.HopsBounded | src/gssapi/iakerb.rs:509-577 | over any events at most 26 proxy tokens are emitted, counted over the whole list |
| IakerbSession.CountsEmissions | src/gssapi/iakerb.rs:501-506 | the hop count is the number of proxy tokens emitted |
| IakerbSession.NoProxyWhileBusy | src/gssapi/iakerb.rs:509-513 | proxy tokens are refused while a reply is awaited and after the AP exchange began |
| IakerbSession.NoProxyAfterAp | src/gssapi/iakerb.rs:509-577 | once the AP exchange began no event emits a proxy token or changes the transcript, and proxy tokens are refused without effect |
| IakerbSession.TranscriptsAgree | src/gssapi/iakerb.rs:289-577 | in every run over an unaltered channel both sides enter the AP exchange with the same transcript, all proxy tokens in order |
| IakerbEndpoints.BuildToken | src/gssapi/iakerb.rs:95-105 | the token's bytes |
| IakerbEndpoints.ReadProxyBody | src/gssapi/iakerb.rs:153-156 | the recognition of a proxy token |
| IakerbEndpoints.ReadToken | src/gssapi/iakerb.rs:108-150 | the token parsed step by step |
| IakerbEndpoints.IakerbInitiator.constructor | src/gssapi/iakerb.rs:244-272 | the starting phase |
| IakerbEndpoints.IakerbInitiator.EmitToken | src/gssapi/iakerb.rs:289-298 | the token is added to the transcript |
| IakerbEndpoints.IakerbInitiator.Proxy | src/gssapi/iakerb.rs:329-433 | the proxy step |
| IakerbEndpoints.IakerbInitiator.RunPhases | src/gssapi/iakerb.rs:358-432 | the phase loop, which ends |
| IakerbEndpoints.IakerbInitiator.Step | src/gssapi/iakerb.rs:301-325 | a whole step |
| IakerbEndpoints.IakerbAcceptor.constructor | src/gssapi/iakerb.rs:479-495 | an idle acceptor |
| IakerbEndpoints.IakerbAcceptor.EmitToken | src/gssapi/iakerb.rs:501-506 | the token is added to the transcript and counted |
| IakerbEndpoints.IakerbAcceptor.Step | src/gssapi/iakerb.rs:509-559 | a whole step |
| IakerbEndpoints.IakerbAcceptor.TakeReply | src/gssapi/iakerb.rs:564-577 | a KDC's reply, or its absence, is wrapped |

## Left out

- Sockets, files and their permissions, DNS, kernel keyrings, KCM and tracing: cache and keytab files are byte sequences that are read and replaced whole, and writing them does not fail.
- AES, HMAC and key derivation: parameters, with the inverse law of the block cipher where it is needed; `Enctypes` assumes a fixed tag length.
- UTF-8 and the ASN.1 string type: the conversions are parameters with the laws stated in `Text.Codec.Lawful`.
- ASN.1 encoding: the IAKERB header is a parameter that encodes to a DER SEQUENCE and decodes to itself.
- The AS and TGS exchanges and the krb5 mechanism inside IAKERB: arbitrary functions of the inputs they have had. The IAKERB-FINISHED checksum is not modelled; the equal transcripts it covers are.
- NegoEx trace lines, and randomness, which is passed in.
- NegoexNarrowing.AcceptShrinks: asks that the call is in range, as `InRangeExactly` says it; otherwise the source stops on an empty list.
- Nfold.ComputeNFold: asks for a nonempty input and output, where the source divides by zero, and writes the union of two disjoint bit fields as a sum.
- KeytabSlots.AddExactly: does not say of which longer entries stray bytes happen to be read as part. A truncated hole, on which the source stops, is the error Abort.
- KeytabSlots.RunConserves: asks that each add of the run finds room or leaves reading to end behind the slots (`AddExactly` says what happens otherwise).
- DIR, KEYRING and KCM caches, cache collections and selection, replay caches, lockout, the rest of the TGS request (S4U, transited realms, service policy), `validate_as_request` and the match-credential format of KCM: they would add wrappers and easy branches.
- Ticket flag bits without a name are not carried.
