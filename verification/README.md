# Verified models of directory replication, boot-loader and password code

This project models six components of the repository in Dafny and proves what they are for.
`dafny verify dfyconfig.toml` checks all of it.  `wrappers.dfy` and `arithmetic.dfy` hold what
several modules share.

* **Replication listener** (`management/univention-directory-replication/replication.py`):
  `ldap.dfy` is a strict server in the terms of RFC 4511 (an entry is a set of attribute-value
  pairs, a directory a map from names to entries, a name a sequence of RDNs);
  `modlist.dfy` computes modification lists; `listener.dfy` is the handler as a class whose
  fields are the directory, the marker of a pending rename and the cached names, next to `Step`,
  the same as a function; `replication.dfy` runs master and replica side by side, and
  `abandoned.dfy` does so when the second half of a rename never comes;
  `spelling.dfy` looks at upper and lower case in renames; `schema.dfy` orders definitions;
  `ldif.dfy` writes LDIF and reads it back in the terms of RFC 2849 (with `base64.dfy` for
  RFC 4648); `rootpw.dfy` quotes and unquotes a password.
* **bcrypt** (`base/shim/crypt_blowfish.c`): `feistel.dfy` is the network over any round
  function, `blowfish.dfy` the key schedule on arrays P and S, `keyexpansion.dfy` the expansion of
  the key with its collision guard, `radix64.dfy` the base-64 codec and `bcrypt.dfy` the whole.
* **PE image hash and relocation** (`base/shim/shim.c`): `pehash.dfy` and `reloc.dfy`, with
  `littleendian.dfy` for stored numbers.
* **Machine-owner keys** (`base/shim/MokManager.c`): `mok.dfy`, with `signatures.dfy` for lists
  of several signatures.
* **Nested groups** (`base/univention-pam/ldap-group-to-file.py`): `groups.dfy`.
* **Transaction log** (`management/univention-directory-logger/directory_logger.py`):
  `dirlog.dfy` and `logtext.dfy`.

What the components read and write is also fixed byte by byte and name by name, without the model's own
names for it: `attributes.dfy` has the attributes that are sent and `examplerun.dfy` a run of the
listener, `blowfishtables.dfy`, `keyschedule.dfy` and `bcryptdata.dfy` the round function, the key schedule
and bcrypt's constants, `pefiles.dfy` and `reloctables.dfy` files and relocation tables, `mokbytes.dfy` lists
of keys, `groupexample.dfy`, `listexamples.dfy` and `textexamples.dfy` small inputs of the scripts.

Code that works in place is modelled by methods on arrays and objects; each is proved equal to a
function of its inputs, and the results below are about that function.  What is only true under a
condition is stated as an if-and-only-if.

## What turned out to be conditional

* A rename that ends at the name where it began loses the entry's subtree: the replica agrees
  again iff the entry is a leaf (`Replication.RenameToSameName`; `Replication.ChildIsLost` shows a
  directory of two entries).  A server that ignores case finds an entry under every spelling of its
  name, so a rename that changes nothing but case has the same effect
  (`Spelling.CaseOnlyRename`, `Spelling.CaseOnlyExample`).
* The marker of an abandoned rename is cleared by the next write of another entry iff the entry
  that it points to still exists and the write has a place outside of its subtree or changes
  nothing in it; otherwise the handler fails and the marker stays (`Replication.StaleMarker`,
  `Replication.MarkerOfLostChild`).  After a write outside the subtree, old place and new, and for
  as long as the master works outside of it, the replica agrees with the master on everything
  outside of it (`Abandoned.LostRename`, `Abandoned.RunGoesOn`).  If another rename comes instead,
  it takes the marker, and the replica keeps the subtree at the old place
  (`Abandoned.OverwrittenMarker`).
* The handler compares the old RDN with the new entry letter by letter.  On a server that ignores
  case the inferred flag can differ in effect from the master's
  (`Spelling.InferredFlagNeedsSpelling`, with an example in `Spelling.SpellingExample`).
* `get_password` gives back every password without newline, the empty one included, and no other
  (`RootPw.PasswordComesBack`, `RootPw.NewlineIsLost`).
* The LDIF writer encodes only values with a newline or a byte outside ASCII.  A value that starts
  with a space, a colon or '<', or that has a carriage return or NUL in it, is written as it is
  and does not read back (`Ldif.ParseLine`, `Ldif.FileReadsBack`, `Ldif.LeadingSpaceIsLost`).
* The log's `filterOutUnchangedAttributes` fails iff a value occurs more than once in one of two
  lists that both have it (`DirLog.FilterOutUnchangedAttributes`,
  `DirLog.DoubledValueFails`).
* `generate_hash` never looks at the address of the certificate table: it leaves out the right
  bytes iff the table is the file's tail (`PeHash.HashesUnsignedPart`,
  `PeHash.TrailingIsHashedWrong`).
* Relocating twice is relocating by the sum iff no HIGH fixup drops a carry
  (`Reloc.RelocatingTwice`, `Reloc.OneHighLosesCarry`).
* `build_mok_list` stays within the slots that `count_keys` has asked for iff no list is invalid or
  the first accepted list is not written (`Mok.SlotsSuffice`, `Mok.InvalidListOverruns`).
* A list that is counted is built iff header, owner and signature of each accepted list end in the
  buffer and the signature is not empty (`Mok.BuiltIffFits`, `Mok.EmptyKeyIsNull`); else
  `delete_keys` looks into a NULL pointer (`Mok.DeleteKeys`).
* A deletion keeps all signatures but those to delete iff those that no parser reads, the second and
  later ones of a list and those of other types, are to be deleted as well
  (`Signatures.DeletionOfSignatures`, `Signatures.SecondKeyIsLost`).

## Model

| member | source | states |
|---|---|---|
| Feistel.RoundUndone | base/shim/crypt_blowfish.c:441-458 | a round on a swapped and whitened ciphertext takes the round before it back, for any round function |
| Feistel.Unwind | base/shim/crypt_blowfish.c:460-480 | after j rounds with the reversed subkeys the ciphertext stands where the encryption stood j rounds before its end |
| Feistel.ReversedKeysDecipher | base/shim/crypt_blowfish.c:460-480 | the network with P reversed inverts the network with P |
| Feistel.EncipherIsBijective | base/shim/crypt_blowfish.c:460-480 | for arbitrary round function and subkeys the network is one to one and onto |
| Blowfish.Context.Encrypt | base/shim/crypt_blowfish.c:460-480 | the unrolled rounds with their exchanged roles of L and R give the network's result on the pair |
| Blowfish.Context.HalfRound | base/shim/crypt_blowfish.c:441-458 | one macro round keeps the two words in step with the network's round n |
| BlowfishTables.MixByBytes | base/shim/crypt_blowfish.c:441-454 | for a word with bytes a, b, c, d: S0[a] plus S1[b], exclusive-or S2[c], plus S3[d] |
| BlowfishTables.RoundByBytes | base/shim/crypt_blowfish.c:441-454 | the macro round on the arrays, for a left half with these bytes |
| BlowfishTables.EnciphersBlock | base/shim/crypt_blowfish.c:460-480 | a block and its ciphertext under tables of 1042 different words |
| KeySchedule.PassWrites | base/shim/crypt_blowfish.c:646-672 | words 2k and 2k + 1 after a pass: the block before them, with salt words 0 and 1 or 2 and 3, enciphered under the words written so far and the old ones behind them |
| KeySchedule.OneMoreRound | base/shim/crypt_blowfish.c:674-702 | one round more of the expensive loop, word by word: key, pass, salt, pass |
| Blowfish.Context.SaltedPass | base/shim/crypt_blowfish.c:649-672 | the P loop and the S loop with its hand-offset salt indices are one uniform pass that uses salt words 2k mod 4 and 2k mod 4 + 1 for words 2k and 2k + 1 |
| Blowfish.Context.FourWords | base/shim/crypt_blowfish.c:659-672 | one round of the S loop is two steps of that pass |
| Blowfish.Context.Body | base/shim/crypt_blowfish.c:482-498 | the unsalted macro is the same pass with a salt of zeros |
| Blowfish.StepsWriteOnce | base/shim/crypt_blowfish.c:482-498 | after k steps the first 2k of the 1042 words hold the k ciphertexts in order and the others are untouched: each word is written once per pass |
| Blowfish.Context.MixSalt | base/shim/crypt_blowfish.c:689-700 | the four temporaries and the last two lines mix salt word k mod 4 into each subkey k |
| Blowfish.Context.CostlyRound | base/shim/crypt_blowfish.c:674-702 | one round of the outer loop is a key expansion with the key, then one with the salt |
| Blowfish.Context.CostlyLoop | base/shim/crypt_blowfish.c:674-702 | the loop does this exactly count times |
| KeyExpansion.SetKey | base/shim/crypt_blowfish.c:541-598 | the expanded words are the big-endian words of the key and its NUL, repeated, or their sign-extended version; bit 16 of initial word 0 is flipped iff safety is asked for, both versions agree on all 18 words and a byte that is not first in its word has its top bit set |
| KeySchedule.PlainKey | base/shim/crypt_blowfish.c:546-570 | the first words of the key 61 62, in both modes |
| KeySchedule.ExtendedKey | base/shim/crypt_blowfish.c:546-570 | the first words of the key ff a3 with sign extension |
| KeySchedule.GuardedSubkeys | base/shim/crypt_blowfish.c:581-598 | the guard flips bit 16 of the first initial subkey and nothing else |
| KeyExpansion.NextWords | base/shim/crypt_blowfish.c:547-565 | four steps of the byte loop give both words, the position in the key and the sign so far |
| KeyExpansion.Guard | base/shim/crypt_blowfish.c:581-598 | the branch-free bit trick is that condition |
| KeyExpansion.WordsAgree | base/shim/crypt_blowfish.c:547-566 | the two versions of a word agree iff every byte before a later byte with its top bit set is 0xff |
| KeyExpansion.OnlySeventyTwoBytes | base/shim/crypt_blowfish.c:546-570 | keys with the same first 72 bytes expand alike |
| KeyExpansion.GuardSeparates | base/shim/crypt_blowfish.c:572-598 | if a guarded key has the words of another in the sign-extending mode, both have the same initial subkeys without the guard and different ones with it |
| KeyExpansion.Collision | base/shim/crypt_blowfish.c:547-570 | a key in the sign-extending mode has the words of another key iff after its extended bytes have overwritten what is before them in their words the 72 bytes are those of the other |
| KeyExpansion.OneByteCollides | base/shim/crypt_blowfish.c:572-580 | a key on which both modes agree collides with the key that has another byte at p iff byte p is overwritten wherever it comes |
| KeyExpansion.OnlyExtendedCollide | base/shim/crypt_blowfish.c:572-580 | a key without such an extended byte collides with no key that differs in the 72 bytes |
| KeyExpansion.GuardedKeysCollide | base/shim/crypt_blowfish.c:572-580 | every guarded key has a byte that can be exchanged for any other, and collides with the key that results in the sign-extending mode |
| KeyExpansion.CollisionExample | base/shim/crypt_blowfish.c:572-580 | the guarded key ff ff ff and the key 61 ff ff in the sign-extending mode |
| Radix64.Encode | base/shim/crypt_blowfish.c:394-424 | the pointer walk writes the digits of the groups of three bytes, and a short last group without padding |
| Radix64.Decode | base/shim/crypt_blowfish.c:370-392 | the pointer walk fills the destination from the digits, or fails at the first character that is none |
| Radix64.DecodeUndoesEncode | base/shim/crypt_blowfish.c:370-424 | decoding gives back every buffer that was encoded, wherever the digits stand |
| Radix64.DecodeReadsItsDigits | base/shim/crypt_blowfish.c:370-392 | decoding n bytes depends on exactly the characters that encode n bytes |
| Radix64.EncodeCanonicalises | base/shim/crypt_blowfish.c:370-424 | encoding what was decoded gives the digits back with the unused bits of the last one cleared |
| BcryptData.FirstDigits | base/shim/crypt_blowfish.c:349-350 | the digits for 0 to 31 |
| BcryptData.LastDigits | base/shim/crypt_blowfish.c:349-350 | the digits for 32 to 63 |
| BcryptData.Headers | base/shim/crypt_blowfish.c:624-636 | the header by its characters, and the decimal cost |
| BcryptData.Letters | base/shim/crypt_blowfish.c:605-607 | $2x$ asks for the sign extension, $2a$ for the guard, $2y$ for neither |
| BcryptData.MagicText | base/shim/crypt_blowfish.c:65-72 | the words that are enciphered are the 24 characters of the text |
| BcryptData.SixtyFourTimes | base/shim/crypt_blowfish.c:704-715 | each of the three pairs of words is enciphered 64 times |
| BcryptData.HashesEmptyPassword | base/shim/crypt_blowfish.c:601-728 | with tables of zeros, the empty password and the setting $2a$05$ and 22 points: all 60 characters of the hash |
| Bcrypt.SwapIsBigEndian | base/shim/crypt_blowfish.c:426-438 | the swap turns words in memory to big-endian and back |
| Bcrypt.SetupIsEksBlowfish | base/shim/crypt_blowfish.c:638-702 | the state that is built is the EksBlowfish setup of cost 2^c, in this implementation's order, with the guarded key in its first expansion |
| Bcrypt.SetUp | base/shim/crypt_blowfish.c:644-702 | the loops over the context build that state |
| Bcrypt.BFCrypt | base/shim/crypt_blowfish.c:601-728 | the function rejects what it must reject and returns header, cleared salt digit and the digits of 23 of the 24 bytes |
| Bcrypt.HashIsItsOwnSetting | base/shim/crypt_blowfish.c:717-725 | a hash taken as setting gives that hash again, for every key |
| Bcrypt.SaltSurvives | base/shim/crypt_blowfish.c:717-719 | clearing the unused bits of the last digit keeps the salt |
| PeHash.InsertInPlace | base/shim/shim.c:593-598 | the inner loop shifts the larger headers and puts the header behind those that are not larger |
| PeHash.SortHeaders | base/shim/shim.c:591-600 | the in-place sort is insertion sort |
| PeHash.SortedIsOrdered | base/shim/shim.c:591-600 | its result is ordered by file offset and a permutation |
| PeHash.SortIsStable | base/shim/shim.c:591-600 | headers with the same file offset keep their order |
| PeHash.GenerateHash | base/shim/shim.c:527-640 | which ranges are fed to the digests, and when the image is refused, with 32-bit sums |
| PeFiles.SectionsInFileOrder | base/shim/shim.c:527-640 | the ranges of a file of 560 bytes with two sections out of order |
| PeFiles.SectionOutside | base/shim/shim.c:602-618 | the file is refused if a section starts one byte after its end |
| PeFiles.SectionsTooLong | base/shim/shim.c:574-582 | the file is refused if the sizes add up to its own |
| PeFiles.SectionsHashUnsignedPart | base/shim/shim.c:527-640 | the bytes of this file that belong in the digest, and that they are hashed |
| PeFiles.RefusedIff | base/shim/shim.c:574-618 | a file is refused iff the size fields, as a 32-bit sum, reach its size, or a section with a size has an offset beyond its end |
| PeHash.HashesUnsignedPart | base/shim/shim.c:527-640 | if the sections tile the file from SizeOfHeaders, the offsets that are hashed are in order exactly those outside CheckSum, security directory entry and certificate table iff the table is the file's tail |
| PeHash.TrailingIsHashedWrong | base/shim/shim.c:626-640 | a well-formed file that read_header accepts, with one byte after its certificate table, which is hashed wrong |
| PeHash.DigestInputIs | base/shim/shim.c:527-640 | the bytes that are fed in are the file from its start to CheckSum, from there to the directory entry, and from there to its end less the size of the certificate table |
| PeHash.SigningKeepsDigestInput | base/shim/shim.c:527-640 | exchanging the signature and filling in both fields leaves the digest input unchanged and the file well-formed |
| Reloc.FixBlock | base/shim/shim.c:169-218 | the loop over a block's entries patches the memory as the step function says |
| Reloc.RelocateCoff | base/shim/shim.c:116-223 | the loops end for every table, also one that the fixups change, with that result |
| RelocTables.EntryIsApplied | base/shim/shim.c:165-218 | on a sound table an entry of type 10, 3 or 2 adds the adjustment to 8, 4 or 2 bytes, one of type 1 its high half to 2 bytes |
| RelocTables.RefusedIff | base/shim/shim.c:131-220 | no table or one outside of the image is refused; a table that its fixups leave alone is refused iff a block has size 0, is longer than the table, leads out of the image or has its fields outside of it, or an entry has a type other than 0, 1, 2, 3 and 10 |
| RelocTables.MovesImage | base/shim/shim.c:116-223 | an image with entries of all five types, and every byte of it after the move |
| Reloc.BlocksApply | base/shim/shim.c:149-220 | if no field touches the table, the run is all fixups of the table as it stood at the start |
| Reloc.RelocationAdjustsFields | base/shim/shim.c:169-218 | with disjoint fields every LOW, HIGHLOW and DIR64 field is its old value plus the adjustment modulo 2^16, 2^32 or 2^64, and all other bytes are kept |
| Reloc.RelocatingTwice | base/shim/shim.c:116-223 | relocating by a, then by b, is relocating by a + b iff there is no HIGH fixup or the low halves add without carry |
| Reloc.OneHighLosesCarry | base/shim/shim.c:175-182 | an image with one HIGH fixup that comes out differently when it is moved in two steps |
| Mok.CountKeys | base/shim/MokManager.c:96-140 | the first parser's count for every buffer |
| Mok.BuildMokList | base/shim/MokManager.c:142-207 | the second parser gives NULL or as many nodes as the first counts, each inside the buffer, and writes no more than num slots if num is that count |
| Mok.CountIsAccepted | base/shim/MokManager.c:96-140 | the count is the number of accepted lists, or the error value iff a list is invalid |
| MokBytes.AcceptedByBytes | base/shim/MokManager.c:115-134 | a list counts iff its first sixteen bytes are those of the X.509 type, or those of the SHA-256 type and its signature size is 48 |
| Mok.SlotsSuffice | base/shim/MokManager.c:142-207 | what is written before the parser returns fits in as many slots as were counted iff no list is invalid or the first accepted one does not reach its slot |
| Mok.InvalidListOverruns | base/shim/MokManager.c:142-207 | a key with an invalid list behind it: no slot is asked for and one is written |
| Mok.BuiltIffFits | base/shim/MokManager.c:142-207 | the parser gives a list iff no list is invalid and each accepted one holds a signature that is not empty and ends inside the buffer |
| Mok.EmptyKeyIsNull | base/shim/MokManager.c:96-207 | a list whose signature has no key is counted and gives NULL |
| Mok.BuiltAsCounted | base/shim/MokManager.c:96-207 | the two differently written filters agree from every offset on |
| Mok.SearchAndDestroy | base/shim/MokManager.c:964-976 | the nested loops null exactly the nodes whose bytes are those of a key to delete |
| Mok.WriteBackMokList | base/shim/MokManager.c:848-894 | the buffer has the size that was computed and holds one signature list per remaining node |
| Mok.DeleteKeys | base/shim/MokManager.c:953-978 | when there is nothing to do, when a NULL list is looked into (iff of two valid lists one has an accepted list that does not fit), and what is written to the variable otherwise |
| MokBytes.DeletesCertificate | base/shim/MokManager.c:910-980 | a list of two certificates, a hash and another type, of which a certificate is deleted: every byte that is written |
| Mok.Reparse | base/shim/MokManager.c:142-207 | what is written for a list of keys parses as that list |
| Mok.DeletionLeavesTheRest | base/shim/MokManager.c:848-978 | parsing what was written after a deletion gives in order and with their types exactly the old keys whose bytes are those of no key to delete |
| Mok.DeletingAgain | base/shim/MokManager.c:848-978 | deleting again writes the same list; nothing is lost iff no key matched |
| Signatures.DeletionOfSignatures | base/shim/MokManager.c:848-978 | if each list holds a signature, the list that is written has in order all signatures of the old one but those to delete iff each signature that is passed over is to be deleted |
| Signatures.AllSignaturesStay | base/shim/MokManager.c:848-978 | if none is to be deleted, all of them stay iff each list is accepted and holds one |
| Signatures.SecondKeyIsLost | base/shim/MokManager.c:142-207 | a list with two keys, of which the second is not written back |
| Groups.GetMembers | base/univention-pam/ldap-group-to-file.py:47-87 | the search ends on every finite graph, cycles included, and every group it has entered is explored although only parents are marked |
| Groups.FindsAllMembers | base/univention-pam/ldap-group-to-file.py:47-87 | started with an empty list it finds exactly the users and hosts of the groups that can be reached |
| Groups.DoIt | base/univention-pam/ldap-group-to-file.py:141-146 | one line per group, each with exactly these members |
| GroupExample.WritesLine | base/univention-pam/ldap-group-to-file.py:47-87 | two groups in a cycle, with users, a host and names that are not found: the line that is written, with and without a check of the users |
| DirLog.FindCommon | management/univention-directory-logger/directory_logger.py:102-107 | the nested loops list each common value once for each pair of equal occurrences |
| DirLog.RemovalsSucceed | management/univention-directory-logger/directory_logger.py:108-110 | no removal fails iff every common value occurs once in each list |
| DirLog.FilterOutUnchangedAttributes | management/univention-directory-logger/directory_logger.py:93-110 | it fails iff a common attribute has such a value, and else leaves in each entry the values that the other has not |
| DirLog.DuplicateFreeFits | management/univention-directory-logger/directory_logger.py:93-110 | it never fails on entries without duplicates |
| DirLog.DoubledValueFails | management/univention-directory-logger/directory_logger.py:108-110 | a value that is doubled in the old entry makes a removal fail |
| DirLog.LeftIsDifference | management/univention-directory-logger/directory_logger.py:93-110 | what is left is the set difference of the attribute-value pairs |
| DirLog.LogGivesOldBack | management/univention-directory-logger/directory_logger.py:93-110 | the new entry without the logged new pairs and with the logged old pairs is the old entry |
| ListExamples.KeepsDifferences | management/univention-directory-logger/directory_logger.py:93-110 | what is left of two small entries |
| TextExamples.PlainValues | management/univention-directory-logger/directory_logger.py:71 | which values the log writes as they are, by examples of each kind |
| TextExamples.CodedLog | management/univention-directory-logger/directory_logger.py:74-81 | a line of the log in base 64 |
| LogText.LogIsReadable | management/univention-directory-logger/directory_logger.py:74-81 | the text of an entry, encoded values and all, reads back line by line |
| Schema.OidsWithSup | management/univention-directory-replication/replication.py:608-616 | the recursion ends, keeps the list sorted and adds only definitions that the given one inherits from |
| Schema.Sort | management/univention-directory-replication/replication.py:619-623 | no duplicates, exactly the non-builtin definitions listed or inherited from, each after its superiors |
| ListExamples.Orders | management/univention-directory-replication/replication.py:608-623 | three definitions, one of them inherited twice removed, come out in the only order there is |
| Modlist.ModsFor | management/univention-directory-replication/replication.py:574-596 | the modifications for one attribute, the delete-then-add path included, are legal and give its new values |
| Modlist.ModList | management/univention-directory-replication/replication.py:572-605 | for any iteration order each operation is accepted by a strict server and together they give the new entry on every attribute that is not excluded and leave the excluded ones; the list is empty iff there is nothing to change |
| Modlist.AddListAdds | management/univention-directory-replication/replication.py:568-569 | the attributes of a new entry are all but the excluded ones |
| Attributes.ExcludedNames | management/univention-directory-replication/replication.py:76-88 | an attribute is excluded iff it is one of eleven names in any spelling, or memberOf and the overlay is off |
| Attributes.AddListSends | management/univention-directory-replication/replication.py:568-569 | for a new entry every attribute with another name is sent as it is |
| Attributes.ModListSends | management/univention-directory-replication/replication.py:572-605 | the modifications are for attributes with other names: an addition, a deletion, a replacement, and for the members' attribute only the values that have gone or come; afterwards these attributes have the new values and the others what they had |
| Listener.Replica.DeleteDnRecursive | management/univention-directory-replication/replication.py:698-708 | the subtree is gone and nothing else |
| Listener.RecursiveDeletion | management/univention-directory-replication/replication.py:703-706 | deleting a search result in reverse succeeds iff it lists parents before children |
| Listener.Replica.MustDeleteOld | management/univention-directory-replication/replication.py:883-890 | the flag is set iff a value of the old RDN is missing from the new entry |
| Listener.Replica.Handle | management/univention-directory-replication/replication.py:793-942 | every branch of the handler does what the step function says |
| Listener.RenameMovesTree | management/univention-directory-replication/replication.py:892-893 | a rename under RFC 4511 moves the whole subtree and changes only the renamed entry |
| Listener.StepKeepsSound | management/univention-directory-replication/replication.py:793-942 | after every event, also one that fails, the directory is a tree of entries with one entryUUID each |
| Replication.InferredFlag | management/univention-directory-replication/replication.py:883-892 | whichever flag the master used, the inferred one gives the same values, multi-valued RDNs included |
| Replication.TwoHalves | management/univention-directory-replication/replication.py:860-942 | the two events of a rename leave no marker and perform the replica's rename |
| Replication.RenameKeepsAgreement | management/univention-directory-replication/replication.py:860-942 | a rename to another name, delivered as 'r' and 'a', keeps the replica in agreement |
| Replication.OperationKeepsAgreement | management/univention-directory-replication/replication.py:860-942 | so does every add, modification and leaf deletion |
| Replication.ReplicaFollowsMaster | management/univention-directory-replication/replication.py:793-942 | over every run of such operations the replica agrees with the master after each of them, outside excluded and server-kept attributes |
| Attributes.AgreementIs | management/univention-directory-replication/replication.py:76-88 | agreement, by names: the same entries, and the same values of every attribute that is sent and not kept by a server, pwdAttribute under its number |
| Attributes.ValuesFollow | management/univention-directory-replication/replication.py:793-942 | over every run, after each operation, the replica has the master's values of every attribute that is none of the eleven names, nor memberOf without overlay, nor kept by a server |
| ExampleRun.UserComesAndGoes | management/univention-directory-replication/replication.py:793-942 | an entry is added, modified, renamed and deleted: the directory after each event, attribute by attribute |
| ExampleRun.MasterDoesThat | management/univention-directory-replication/replication.py:793-942 | the master's operations that give these events, and its entries |
| Replication.StaleMarker | management/univention-directory-replication/replication.py:900-915 | the write of another entry succeeds iff the entry with the old name is there and the new one has a place outside its subtree, or needs no change in it; then the subtree is gone, the marker cleared and the entry written |
| Replication.MarkerOfLostChild | management/univention-directory-replication/replication.py:900-915 | a pending marker whose entry is gone makes a write fail and stays |
| Abandoned.LostRename | management/univention-directory-replication/replication.py:860-942 | in a run in which the second half of a rename never comes, after the next write of another entry outside old and new place the replica agrees with the master on everything outside the subtree |
| Abandoned.RunGoesOn | management/univention-directory-replication/replication.py:860-942 | from there on, over every run of the master that stays outside the subtree, no event fails and the replica agrees with the master on everything outside it |
| Abandoned.OverwrittenMarker | management/univention-directory-replication/replication.py:917-935 | if another rename comes before the missing half, then over every run outside old and new place no event fails, the replica agrees with the master outside of both and keeps the subtree at the old place, where the master has nothing |
| Replication.RenameToSameName | management/univention-directory-replication/replication.py:871-899 | after a rename to the same name the replica agrees iff the entry is a leaf |
| Replication.ChildIsLost | management/univention-directory-replication/replication.py:871-899 | a directory of two entries in which such a rename loses the child |
| Spelling.BothHalvesAreSteps | management/univention-directory-replication/replication.py:860-942 | for names that are folded already, and an entry spelled like them, the rename on a server that ignores case is what the handler does on the two events |
| Spelling.CaseOnlyRename | management/univention-directory-replication/replication.py:871-899 | on a server that ignores case a rename that changes case only does the same |
| Spelling.CaseOnlyExample | management/univention-directory-replication/replication.py:871-899 | the same two entries and a rename from DC=x to dc=x |
| Spelling.InferredFlagNeedsSpelling | management/univention-directory-replication/replication.py:883-890 | when the inferred flag has the master's effect on a server that ignores case |
| Spelling.SpellingExample | management/univention-directory-replication/replication.py:883-890 | a rename after which a value is missing on the replica |
| Ldif.LdifFile.PrintAttribute | management/univention-directory-replication/replication.py:450-479 | the value is written folded into lines, for names of every length |
| Ldif.LdifFile.PrintValue | management/univention-directory-replication/replication.py:473-479 | the loop ends although the first slice can leave the value as it was |
| Ldif.LdifFile.AddS | management/univention-directory-replication/replication.py:494-500 | the record of an added entry |
| Ldif.LineLengths | management/univention-directory-replication/replication.py:473-479 | no line is longer than 60 characters iff the name leaves room |
| Ldif.UnfoldLines | management/univention-directory-replication/replication.py:473-479 | unfolding gives the unfolded line: nothing is lost |
| Ldif.ParseLine | management/univention-directory-replication/replication.py:450-479 | the line reads back as attribute and value iff the value was encoded or is a SAFE-STRING |
| Ldif.FileReadsBack | management/univention-directory-replication/replication.py:494-500 | a whole file of records reads back iff each value does |
| Ldif.LeadingSpaceIsLost | management/univention-directory-replication/replication.py:450-479 | a value that starts with a space does not read back |
| TextExamples.WritesRecord | management/univention-directory-replication/replication.py:494-500 | the lines of a record with a value in base 64 and one that is folded |
| TextExamples.LongVector | management/univention-directory-replication/replication.py:465 | a vector of RFC 4648 |
| TextExamples.SafeStrings | management/univention-directory-replication/replication.py:450-479 | which values do not read back unencoded, by examples of each kind |
| TextExamples.WritesPassword | management/univention-directory-replication/replication.py:1077-1087 | the file for a password with a quote and a backslash |
| TextExamples.ReadsPassword | management/univention-directory-replication/replication.py:1090-1105 | the same password from a file with another line before it |
| RootPw.CaptureIsMatch | management/univention-directory-replication/replication.py:1105 | the scanner's capture is the group of every match of the regular expression |
| RootPw.EscapeIsEscaped | management/univention-directory-replication/replication.py:1084 | the two replacements escape character by character |
| RootPw.UnescapeUndoesEscape | management/univention-directory-replication/replication.py:1098 | the two replacements in their order undo the escaping for every mix of backslashes and quotes |
| RootPw.PasswordComesBack | management/univention-directory-replication/replication.py:1077-1105 | what is read is what was written iff the password has no newline |
| RootPw.NewlineIsLost | management/univention-directory-replication/replication.py:1077-1105 | the password of one newline is not read back |

## Left out

- Listener.Replica.Handle: retries, the LDIF fallback, disk-space checks, backups of removed subtrees and the swallowed object class violation of an add are one outcome, failure: the model is the reachable server that accepts what RFC 4511 lets it accept.
- Replication.ReplicaFollowsMaster: names are compared exactly, each standing for all its spellings, so a rename "to another name" is one to a name that differs in more than case; `Spelling.CaseOnlyRename` has the other renames.
- Replication.RenameKeepsAgreement: the same holds of its names.
- LDAP matching rules for attribute names and values, except in `spelling.dfy`.
- The order of a search result: the server lists parents before children; `Listener.RecursiveDeletion` says what depends on it.
- Changes that the replica's own server makes to attributes it keeps by itself: they are hidden in the comparison with the master.
- A marker file that cannot be written: the handler would go on with a deletion.
- The name of the old entry in the marker is a parsed name; `str2dn` and `dn2str` are not part of this model.
- The LDIF writers for modifications, deletions and renames; CR LF and comments in the LDIF reader.
- Hash chain, header lines and files of the transaction log; the order of a dictionary is a parameter.
- Hook scripts and files of the group list; `explode_rdn` is a parameter.
- The digits of Pi in the initial P and S, the self-test and `_crypt_output_magic`.
- The C `count` of 2^31 rounds is a number, not a 32-bit word that is counted down; `BF_encode` appends to a sequence instead of writing through a pointer.
- Digests of the image hash, allocation failures and PE32 images; that the PE header lies in the file is what `read_header` has checked before.
- `ImageBase`, which `relocate_coff` sets in the headers outside of the image, and `FixupData`, which is never set.
- Memory after the file, the image or the variable is part of the models of image hash, relocation and key lists, with any contents, because the code reads (and relocation writes) there.
- Signatures.DeletionOfSignatures: for the list of keys to delete it takes the keys that are read from it, which are the first ones of its lists.
- Variables of 4 GiB or more in MokManager, and what a machine does when it follows a NULL pointer.
- Passwords, menus, certificates and variable services of the key manager.
