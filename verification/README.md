# HWI's host-side codecs and protocols, in Dafny

The Hardware Wallet Interface talks to signing devices from a host. This project models the pure host logic behind it
and proves what that logic is for, for all inputs, runs and reachable states:

- **Ledger Merkle trees and client commands.** `MerkleTrees` is the mutable tree with parent links that is updated in
  place; `MerkleSpec` is the tree a rebuild gives, its membership proofs and what a root binds. `CommandSpec`,
  `CommandRuns` and `ClientCommand` are the request/response interpreter with its shared queue, and `SigningSpec`,
  `SigningRun` and `PsbtSigning` the set-up of a signing run: which roots a request commits to and what the interpreter
  knows by then.
- **Descriptors.** `Descriptors` is the language with its parser and printer, `TapTrees` the stack machines for script
  trees, `DescriptorText` the texts with checksum and real keys, `DescriptorParser` the loops of the parser.
  `DescriptorChecksum` and `Checksums` are the checksum and the algebra it shares with Bech32. `Templates`,
  `WalletPolicies`, `PolicyResults` and `PolicyTexts` split descriptors into templates and keys (BIP 388).
- **PSBTs and transactions.** `TxSpec` and `Transactions` are transactions with and without witness. `PsbtCodecs`,
  `PsbtMaps`, `Psbts` are the values, maps and whole PSBTs of versions 0 and 2 as functions, `PsbtObjects` the objects
  that read and write them in place; the other `Psbt...` modules prove their round trips and conversions. `LockTime` is
  the lock time rule of BIP 370.
- **Protobuf.** `ProtobufSpec`, `ProtobufRoundTrip` and `Protobuf` are the minimal codec of trezorlib, with limited
  readers and counting writers.
- **Addresses.** `Bech32`, `BitGroups`, `ConvertBits` and `Base58`.

Round trips alone would hold of any pair of inverse codecs, so what the bytes and texts are is stated apart from the
functions that compute them: by literal values and positions (`TxLayout`, `PsbtFields`, `PsbtLayout`, `ProtobufLayout`,
`DescriptorLanguage`, `PolicyTexts`), by readers on the device's side (`CommandRuns`, `SigningSpec`), and by published
examples that are computed in the logic (`Bech32Vectors`, `DescriptorVectors`, on the registers of `Registers`).

Code that updates objects or runs loops is modelled by classes and methods, each proved equal to a function of its
inputs or of its old state; the theorems are about those functions. SHA-256 and HASH256 are parameters, so every
theorem holds for every function to 32 bytes, and statements that need more name the two inputs that collide. The order
in which a set is iterated is a parameter as well (`PsbtCodecs.Order`), and dictionaries keep their insertion order.

Where the code does less than it seems to promise, the exact condition is proved: `MerkleTree.add` for sizes with three
or more bits set, transactions without inputs, PSBT fields that are written ambiguously, interpreter queues of mixed
lengths, protobuf attributes left at None, segwit versions above 16.

## Model

| member | source | states |
|---|---|---|
| `MerkleTrees.CeilLg` | hwilib/devices/ledger_bitcoin/merkle.py:22-32 | the loop gives the least exponent whose power of two reaches n |
| `MerkleTrees.PowerOf2Test` | hwilib/devices/ledger_bitcoin/merkle.py:35-40 | `n & (n - 1) == 0` says that n is a power of two |
| `MerkleTrees.LargestPowerOf2LessThan` | hwilib/devices/ledger_bitcoin/merkle.py:35-51 | the bit tests give the greatest power of two below n, the size of a left subtree |
| `MerkleTrees.MakeTree` | hwilib/devices/ledger_bitcoin/merkle.py:93-111 | the recursive build links exactly the given leaves, in order, with child and parent pointers that agree, and its node values are the hashed tree of the leaf values |
| `MerkleTrees.MerkleTree.constructor` | hwilib/devices/ledger_bitcoin/merkle.py:131-139 | a new tree meets the invariant: nodes, links, values and depth are those of a build over the elements |
| `MerkleTrees.FixUp` | hwilib/devices/ledger_bitcoin/merkle.py:218-221 | walking up from a node recomputes exactly the values on the path to the root |
| `MerkleTrees.MerkleTree.Set` | hwilib/devices/ledger_bitcoin/merkle.py:196-216 | an update in place leaves the tree that a rebuild over the updated list gives, appends at the length, and fails without a change for bad indexes and sizes |
| `MerkleTrees.MerkleTree.Add` | hwilib/devices/ledger_bitcoin/merkle.py:154-194 | with at most two bits set in the old size the result is the rebuild over the longer list; with three or more the walk fails after the leaf list has grown and the tree is broken |
| `MerkleTrees.MerkleTree.FindSpot` | hwilib/devices/ledger_bitcoin/merkle.py:167-180 | the walk to the place of a new leaf succeeds exactly for sizes with at most two bits set, because halving makes a float that the bit test rejects |
| `MerkleTrees.MerkleTree.ProveLeaf` | hwilib/devices/ledger_bitcoin/merkle.py:236-248 | the parent walk ends and collects exactly the siblings on the path to the root |
| `MerkleTrees.MerkleTree.LeafIndex` | hwilib/devices/ledger_bitcoin/merkle.py:227-234 | the index of the first leaf with a value, or a ValueError exactly if there is none |
| `MerkleUpdate.AppendRight` | hwilib/devices/ledger_bitcoin/merkle.py:182-194 | a new node above a complete right subtree, recomputed along its path, gives the rebuilt tree |
| `MerkleSpec.ProofComplete` | hwilib/devices/ledger_bitcoin/merkle.py:236-248 | folding a proof from its leaf, left or right by index and size, arrives at the root, for all sizes |
| `MerkleSpec.ProofLength` | hwilib/devices/ledger_bitcoin/merkle.py:236-248 | no proof is longer than the depth of the tree |
| `MerkleSpec.ProofSound` | hwilib/devices/ledger_bitcoin/merkle.py:54-64 | whatever a verifier accepts at a position is the value there with the genuine proof, or two different hashed pairs with one hash are named |
| `MerkleSpec.MerkleRootBinding` | hwilib/devices/ledger_bitcoin/merkle.py:60-64 | equally long lists with one root are equal, or two different byte strings hashed for them have one SHA-256 value |
| `MerkleSpec.ElementsRootBinding` | hwilib/devices/ledger_bitcoin/merkle.py:54-64 | the root of hashed elements binds the list and its length, in the same sense |
| `MerkleSpec.SmallRoots` | hwilib/devices/ledger_bitcoin/merkle.py:54-64 | the root of nothing is 32 zero bytes, that of one value is the value, that of one element the hash of a zero byte and the element |
| `MerkleSpec.ElementsRootOfParts` | hwilib/devices/ledger_bitcoin/merkle.py:54-64 | otherwise the root is the hash of a one byte, the root of the first 2^k elements and the root of the rest |
| `ClientCommand.ClientCommandInterpreter.Execute` | hwilib/devices/ledger_bitcoin/client_command.py:280-307 | every command's answer, error and new state are those of the state machine, whose answers the device-side decoders of `CommandRuns` read |
| `ClientCommand.ClientCommandInterpreter.GetPreimage` | hwilib/devices/ledger_bitcoin/client_command.py:81-118 | the answer and the queued rest, or the error, of a preimage request |
| `ClientCommand.ClientCommandInterpreter.GetMerkleLeafProof` | hwilib/devices/ledger_bitcoin/client_command.py:130-168 | the leaf, the first part of its proof and the queued rest, or the error |
| `ClientCommand.ClientCommandInterpreter.GetMoreElements` | hwilib/devices/ledger_bitcoin/client_command.py:207-235 | as many waiting elements of one length as fit, or the error |
| `ClientCommand.ClientCommandInterpreter.AddKnownMapping` | hwilib/devices/ledger_bitcoin/client_command.py:348-366 | a dictionary makes known the list of its sorted keys and that of their values |
| `CommandRuns.AnswerFits` | hwilib/devices/ledger_bitcoin/client_command.py:280-307 | no answer to the device is longer than 255 bytes, in any state, to any request |
| `CommandRuns.DrainDelivers` | hwilib/devices/ledger_bitcoin/client_command.py:199-235 | what a device decodes (count, width, elements) while it asks for more until the queue is empty is exactly the queue, element by element, in an exact number of rounds, and the next request raises |
| `CommandRuns.PreimageDelivered` | hwilib/devices/ledger_bitcoin/client_command.py:72-118 | a known preimage asked for on an empty queue arrives whole and leaves the state as it was |
| `CommandRuns.ProofDelivered` | hwilib/devices/ledger_bitcoin/client_command.py:121-168 | a leaf of a known tree arrives with a proof that checks against the root, within nine more rounds |
| `CommandRuns.IndexDelivered` | hwilib/devices/ledger_bitcoin/client_command.py:171-196 | a leaf index request for a known tree is answered by 1 and the least index of the leaf, or by 0 and 0 exactly if it is not there, and changes nothing |
| `CommandRuns.YieldAppends` | hwilib/devices/ledger_bitcoin/client_command.py:57-69 | a yield request is answered by nothing and appends its data to what was yielded |
| `CommandRuns.RunYields` | hwilib/devices/ledger_bitcoin/client_command.py:57-69 | after any conversation the yielded values are those of before and the data of every yield request, in order |
| `CommandRuns.Refused` | hwilib/devices/ledger_bitcoin/client_command.py:81-196 | unknown preimages, roots and positions, wrong sizes and a proof requested while elements wait are errors that change nothing |
| `CommandRuns.UnknownCommand` | hwilib/devices/ledger_bitcoin/client_command.py:280-307 | an empty request and one with another code than 0x10, 0x40, 0x41, 0x42 and 0xa0 is a RuntimeError that changes nothing |
| `CommandRuns.RunKeepsWidths` | hwilib/devices/ledger_bitcoin/client_command.py:238-307 | in every conversation queued elements have length 1 or 32 and what is known does not change |
| `CommandRuns.MoreAnswersIff` | hwilib/devices/ledger_bitcoin/client_command.py:207-235 | more elements are served exactly if the queue is not empty and not mixed |
| `CommandRuns.PreimageMixesIff` | hwilib/devices/ledger_bitcoin/client_command.py:81-118 | exactly when a preimage request mixes the lengths of a waiting queue |
| `CommandRuns.MixedIsStuck` | hwilib/devices/ledger_bitcoin/client_command.py:207-235 | a mixed queue is never served again, whatever the device sends |
| `CommandRuns.PatientIsServed` | hwilib/devices/ledger_bitcoin/client_command.py:238-307 | a device that empties the queue before it asks anew is always served |
| `KeyValue.ParseStreamToMap` | hwilib/devices/ledger_bitcoin/client.py:18-33 | the loop reads the records up to the separator, later ones replacing earlier ones with the same key |
| `SigningSpec.LearnAllSound` | hwilib/devices/ledger_bitcoin/client_command.py:309-346 | after any lessons in any order, stored preimages hash to their key, known trees stand under their root and every leaf of every taught list has a preimage, without assuming collisions away |
| `SigningSpec.SigningRequestCovered` | hwilib/devices/ledger_bitcoin/command_builder.py:147-180 | every root a signing request commits to, and every root reachable through the committed leaves, is known when it is sent; the wallet serialization behind the committed id has the wallet's version (1 or 2), name, template length, template or its hash, key count and key root |
| `SigningSpec.TaughtLeafServed` | hwilib/devices/ledger_bitcoin/client_command.py:323-346 | every leaf of a taught list is delivered with a proof that checks, unless the list collides with another taught one |
| `SigningSpec.TaughtPreimageServed` | hwilib/devices/ledger_bitcoin/client_command.py:309-346 | every taught preimage and every element of a taught list is delivered as bytes with the right hash |
| `SigningSpec.TaughtIndexServed` | hwilib/devices/ledger_bitcoin/client_command.py:171-196 | the place of a leaf in a taught list is answered as its first place, or as missing, unless the list collides with another taught one |
| `SigningSpec.RequestReads` | hwilib/devices/ledger_bitcoin/command_builder.py:147-180 | a device reads from the command data the sizes and roots of the maps, the wallet id and the hmac or zeros, and nothing is left over |
| `SigningSpec.WalletReads` | hwilib/devices/ledger_bitcoin/wallet.py:66-77 | every field of a wallet can be read from its serialization, the version being exactly 1 or 2 |
| `SigningSpec.WalletIdBinding` | hwilib/devices/ledger_bitcoin/wallet.py:37-39 | wallets with one id have the same version, name, template and keys, or two byte strings with one hash are named |
| `Ordering.LexMeans` | hwilib/devices/ledger_bitcoin/client_command.py:348-366 | byte strings are ordered by their first difference, a proper prefix coming first |
| `SigningRun.SetUpSigning` | hwilib/devices/ledger_bitcoin/client.py:219-259 | from the bytes of a PSBT: succeeds exactly if they parse, and then the command data and the lessons are those of the parsed maps |
| `PsbtSigning.PsbtParsed` | hwilib/devices/ledger_bitcoin/client.py:222-246 | the client's own parser finds exactly the maps that the PSBT serializes |
| `PsbtSigning.SetUp` | hwilib/devices/ledger_bitcoin/client.py:219-259 | for every serializable PSBT of version 2 the set-up succeeds and commits to exactly its maps; other versions raise |
| `Checksums.FoldInjective` | hwilib/_bech32.py:47-56 | feeding the same symbols into two different registers never makes them equal |
| `DescriptorChecksum.ComputeChecksum` | hwilib/descriptor.py:44-97 | the loops compute the checksum of the specification, or nothing for characters outside the alphabet |
| `DescriptorChecksum.DamageDetected` | hwilib/descriptor.py:64-97 | descriptors of any length that differ only within four adjacent characters have different checksums, although a character feeds two symbols |
| `DescriptorVectors.ChecksumCloses` | hwilib/descriptor.py:64-97 | eight symbols are the checksum of a descriptor exactly if they bring the register of the expanded descriptor to 1, which is how BIP 380 checks one |
| `DescriptorVectors.RawChecksum` | hwilib/descriptor.py:44-97 | the checksum of an example of BIP 380, which fixes alphabets, constants and the order of symbols |
| `Bech32.PolyMod` | hwilib/_bech32.py:47-56 | the loop computes the register of the specification |
| `Bech32.ChecksumUnique` | hwilib/_bech32.py:64-80 | six symbols after the data and the expanded prefix (`Bech32.ExpandIs`) verify under an encoding exactly if they are the checksum created for it |
| `Bech32.ExpandIs` | hwilib/_bech32.py:59-61 | the expanded prefix position by position: high parts, a zero, low five bits |
| `Bech32.ExpandInjective` | hwilib/_bech32.py:59-61 | different prefixes expand differently |
| `Bech32.BurstDetected` | hwilib/_bech32.py:64-72 | two symbol lists that differ only within six adjacent symbols never both verify under one encoding |
| `Bech32.DecodeText` | hwilib/_bech32.py:83-105 | the text of well-sized data decodes to exactly what was encoded |
| `Bech32.TextOfDecoded` | hwilib/_bech32.py:89-105 | only the text of its result, in one case, is accepted |
| `Bech32.CapitalsDecode` | hwilib/_bech32.py:89-105 | an address in capitals is decoded as the address |
| `ConvertBits.Convert` | hwilib/_bech32.py:108-128 | the masked accumulator regroups the bits of the whole list: it loses none that are needed, and rejects exactly bad values and bad padding |
| `BitGroups.RegroupBack` | hwilib/_bech32.py:108-128 | regrouping with padding and strictly back is the identity, for all group sizes |
| `BitGroups.RegroupForth` | hwilib/_bech32.py:108-128 | the strict way accepts only what padding would have produced |
| `BitGroups.RegroupNumber` | hwilib/_bech32.py:108-128 | the padded groups are exactly those that spell out the same number, most significant value first, shifted by the padding |
| `Bech32.SegwitRoundTrip` | hwilib/_bech32.py:131-157 | encode gives an address exactly for the versions, lengths and prefixes the standards allow, and it decodes to exactly the version and program; other versions give None or an IndexError; which texts these are is fixed by `ExpandIs`, `RegroupNumber` and the addresses of `Bech32Vectors` |
| `Bech32.SegwitCanonical` | hwilib/_bech32.py:131-157 | an accepted address encodes again to itself in lower case |
| `Bech32Vectors.LongAddress` | hwilib/_bech32.py:47-157 | an address of BIP 173 decodes to its version 0 program of 20 bytes, which encodes to it |
| `Bech32Vectors.ShortAddress` | hwilib/_bech32.py:47-157 | an address of BIP 350 decodes to its version 16 program of two bytes, which encodes to it |
| `Base58.EncodeBytes` | hwilib/_base58.py:25-50 | the loops compute the encoding of the specification |
| `Base58.DecodeText` | hwilib/_base58.py:53-85 | the loops compute the decoding of the specification, with its error |
| `Base58.DecodeEncode` | hwilib/_base58.py:25-85 | decoding undoes encoding for every byte string |
| `Base58.EncodeDecode` | hwilib/_base58.py:25-85 | encoding undoes decoding for every text over the alphabet |
| `Base58.CheckRoundTrip` | hwilib/_base58.py:87-105 | a text passes the check with a payload exactly if it is the checked encoding of that payload |
| `Base58.EncodeMeans` | hwilib/_base58.py:25-50 | a text is a 1 for each leading zero byte and the number of the bytes in base 58, without leading zeros, in the digits of the alphabet |
| `Base58.CheckedBytes` | hwilib/_base58.py:102-105 | a checked text stands for the payload and the first four bytes of its hash |
| `KeyPaths.ReadPath` | hwilib/key.py:326-370 | the loop over path elements reads what the specification reads, with its errors |
| `KeyPaths.PathRoundTrip` | hwilib/key.py:326-412 | reading a printed path gives it back, with multipath steps and either hardening mark |
| `KeyPaths.LeadingM` | hwilib/key.py:330-335 | a path text behind a leading m is read as the path |
| `KeyPaths.HardenedSteps` | hwilib/key.py:336-342 | n, nh, n' and -n are read as n or n + 2^31, and printed so |
| `KeyPaths.OriginRoundTrip` | hwilib/key.py:283-308 | reading a printed key origin gives it back, and its text does not close its bracket |
| `PsbtCodecs.OriginRoundTrip` | hwilib/key.py:264-281 | reading the bytes of a key origin gives it back |
| `KeyExpressions.KeyRoundTrip` | hwilib/descriptor.py:146-190 | reading a printed key expression gives it back, with origin, steps and range |
| `DescriptorParser.GetExpr` | hwilib/descriptor.py:566-586 | the loop splits at the first comma or closing brace outside all brackets |
| `DescriptorParser.ReadDescriptor` | hwilib/descriptor.py:626-747 | the recursive parser with its loops is the specified one, errors included |
| `DescriptorParser.ReadTree` | hwilib/descriptor.py:695-741 | the stack machine over a script tree's text is the specified one |
| `DescriptorParser.ReadChecked` | hwilib/descriptor.py:749-765 | the checksum test and the parser behind it: if what follows the first hash sign is not the checksum of what precedes it, a ValueError |
| `DescriptorRoundTrip.ParseText` | hwilib/descriptor.py:626-747 | parsing undoes printing in every context, for every way of writing keys that reads back |
| `DescriptorText.TextRoundTrip` | hwilib/descriptor.py:295-313 | parse_descriptor undoes to_string, with either hardening mark, with and without checksum |
| `DescriptorText.ParsedKeysNumbered` | hwilib/descriptor.py:340-351 | the i-th key of every parsed descriptor has expression index i |
| `DescriptorText.WrongChecksumRejected` | hwilib/descriptor.py:749-765 | a text with the right checksum is read as the text, with any other one it is a ValueError |
| `DescriptorText.DamagedRejected` | hwilib/descriptor.py:749-765 | a text with its checksum that is damaged before the hash sign, within four adjacent characters of the alphabet, is a ValueError |
| `DescriptorLanguage.ParsedIsStructured` | hwilib/descriptor.py:626-747 | the parser returns descriptors of the language only: functions where they are allowed, bounded key counts and thresholds, trees of pk() no deeper than 128, multipath steps of one length |
| `DescriptorLanguage.SimpleTexts` | hwilib/descriptor.py:295-305 | the texts of the functions with one argument, by name |
| `DescriptorLanguage.MultiText` | hwilib/descriptor.py:432-440 | the text of a multisig: name, threshold, keys in order |
| `DescriptorLanguage.ThreeLeaves` | hwilib/descriptor.py:496-532 | the text of a script tree with one leaf on the left and two on the right |
| `DescriptorLanguage.KeyExample` | hwilib/descriptor.py:176-190 | the text of a key with fingerprint, hardened origin step, alternatives and range |
| `TapTrees.PrintLoop` | hwilib/descriptor.py:496-532 | the printer's loop over leaves and depths is the stack machine of the specification |
| `TapTrees.PrinterPrintsTrees` | hwilib/descriptor.py:496-532 | on the leaves and depths of any binary tree the stack machine emits its nested text |
| `DescriptorAccepted.AcceptedTree` | hwilib/descriptor.py:695-741 | every accepted depth list is the leaf-depth list of a full binary tree of depth at most 128 |
| `DescriptorAccepted.AcceptedWeight` | hwilib/descriptor.py:695-741 | the sum of 2^-depth over the leaves of an accepted tree is 1 |
| `Templates.SubstituteIsSimultaneous` | hwilib/devices/ledger_bitcoin/wallet.py:79-83 | replacing references one after the other, highest first, is replacing all of them at once |
| `WalletPolicies.PolicyDescriptor` | hwilib/devices/ledger_bitcoin/wallet.py:79-93 | the loop of replacements and the choice of a branch are the specified ones |
| `WalletPolicies.PolicyRoundTrip` | hwilib/devices/ledger_bitcoin/wallet.py:79-93 | filling a descriptor's key information into its template gives the descriptor's text, with one element chosen in each unhardened multipath step for version 2 |
| `PolicyResults.PolicyKeepsDescriptor` | hwilib/descriptor.py:237-269 | template and keys of a descriptor parse back to the descriptor itself |
| `PolicyResults.MultisigDescriptor` | hwilib/devices/ledger_bitcoin/wallet.py:96-126 | a multisig wallet exists exactly for sane thresholds, and describes the script around them and every key in order |
| `PolicyTexts.MultisigText` | hwilib/devices/ledger_bitcoin/wallet.py:96-126 | the text a multisig wallet stands for, for each address type, sorted or not, receiving or change |
| `PolicyTexts.TemplateIff` | hwilib/descriptor.py:237-254 | a descriptor has a template exactly if all its keys are ranged and no step has more than two alternatives, else an InvalidPolicyError |
| `PolicyTexts.PairTemplate` | hwilib/descriptor.py:237-269 | a single key with a receiving and a change branch has the template wpkh(@0/<0;1>/*) and its origin and key as key information |
| `PolicyTexts.ChosenStep` | hwilib/devices/ledger_bitcoin/wallet.py:79-93 | which alternative of a step is chosen, and that hardened ones are left alone |
| `Transactions.CTransaction.Deserialize` | hwilib/tx.py:223-241 | the object's fields and the stream's position after reading are those of the specification |
| `Transactions.CTransaction.SerializeWithWitness` | hwilib/tx.py:261-282 | the bytes, and the witness list brought to the number of inputs |
| `Transactions.CTransaction.CalcSha256` | hwilib/tx.py:294-302 | what is cached and what is returned, with and without witness |
| `TxSpec.TxRoundTrip` | hwilib/tx.py:223-282 | a transaction with an input reads back from its serialization and stops where it ends |
| `TxSpec.TxRoundTripIff` | hwilib/tx.py:223-282 | it reads back exactly if it has an input, a witness, or no output |
| `TxSpec.TxidIgnoresWitness` | hwilib/tx.py:284-302 | witnesses do not reach the transaction id |
| `TxLayout.PlainLayout` | hwilib/tx.py:252-259 | version, counted inputs, counted outputs, lock time, each with its fields in their widths |
| `TxLayout.WitnessLayout` | hwilib/tx.py:261-282 | with a witness: marker and flag behind the version, and a counted stack for every input before the lock time |
| `TxLayout.TxidOfPlain` | hwilib/tx.py:284-302 | the id in little-endian bytes is the hash of the form without witnesses |
| `Serialize.CompactSizeRoundTrip` | hwilib/_serialize.py:39-71 | a compact size reads back and the reader stops behind it |
| `Serialize.CompactSizeBytes` | hwilib/_serialize.py:39-55 | one byte below 253, else a mark and two, four or eight bytes |
| `Serialize.LeByte` | hwilib/_serialize.py:39-55 | byte i of a little-endian number has the weight 256^i |
| `PsbtCodecs.Recode` | hwilib/psbt.py:201-586 | each kind of record value reads back from its encoding, with an empty witness list dropped |
| `PsbtObjects.PartiallySigned.Deserialize` | hwilib/psbt.py:201-468 | the read loop that fills an input or output object gives the fields, position and errors of the specification |
| `PsbtObjects.PartiallySigned.Serialize` | hwilib/psbt.py:470-586 | the accumulated bytes are the written map: record types in their order, and of them those that `PsbtFields` names by number |
| `PsbtFields.SingleStands` | hwilib/psbt.py:470-586 | by number: each one-byte field that is present and to be written has its record; a finished input keeps 0x00, 0x01, 0x07, 0x08 and in version 2 0x0e to 0x12, an unfinished one all |
| `PsbtFields.KeyedStands` | hwilib/psbt.py:470-586 | the same for dictionaries: 0x1a to 0x1c always, 0x02, 0x06, 0x14 and 0x16 unless finished |
| `PsbtFields.TapStands` | hwilib/psbt.py:515-518 | every control block of an input that is not finished has its record with script and leaf version |
| `PsbtFields.OtherStands` | hwilib/psbt.py:580-582 | every record that was not understood is written |
| `PsbtFields.NothingElse` | hwilib/psbt.py:470-586 | every record that is written is that of such a field or one that was not understood |
| `PsbtFields.FinishedDropsSigning` | hwilib/psbt.py:483-530 | a finished input has no record of the types 0x02 to 0x06 and 0x13 to 0x18 |
| `PsbtFields.AdmittedIff` | hwilib/psbt.py:201-468 | a key is accepted exactly if its type is unknown or allows its length and the version, and if it is new |
| `PsbtFields.RecordChecked` | hwilib/psbt.py:201-468 | the lengths and lock time bounds of the values that are read |
| `PsbtFields.NoKeyTwice` | hwilib/psbt.py:201-468 | records are read only if no two have the same key |
| `PsbtObjects.PSBT.Deserialize` | hwilib/psbt.py:844-1031 | a new object holds exactly the PSBT of the specification, or the same error |
| `PsbtObjects.PSBT.Serialize` | hwilib/psbt.py:1033-1096 | the bytes of the PSBT |
| `PsbtObjects.PSBT.SetupFromTx` | hwilib/psbt.py:1111-1131 | every input and output object is filled in from the transaction, and nothing else changes |
| `PsbtObjects.PSBT.GetUnsignedTx` | hwilib/psbt.py:1165-1196 | the transaction put together from the maps, or its error |
| `PsbtObjects.PSBT.ConvertToV0` | hwilib/psbt.py:1198-1218 | the conversion in place, and no change if there is no transaction |
| `PsbtMapTheorems.ReadsWritten` | hwilib/psbt.py:201-586 | reading a written map stops right behind it, whatever it makes of it |
| `PsbtMapExact.RereadsExactly` | hwilib/psbt.py:201-586 | a map with full leaf hashes comes back in normal form exactly if a previous transaction without inputs has no outputs and no control block stands under two leaf scripts |
| `PsbtMapReachable.ReadIsValid` | hwilib/psbt.py:201-468 | whatever any stream is read to has the form that the round trips speak about |
| `PsbtRoundTrip.ReadPsbtIsValid` | hwilib/psbt.py:844-1031 | the same for whole PSBTs: counts, required fields, previous transactions and filled-in fields agree |
| `PsbtTheorems.PsbtRoundTrips` | hwilib/psbt.py:844-1096 | a valid PSBT with full leaf hashes comes back from its serialization in normal form exactly if its inputs are unambiguous; `PsbtFields.NormalFields` says what the normal form keeps |
| `PsbtFields.NormalFields` | hwilib/psbt.py:470-586 | by number: the fields of the normal form are exactly those that are written, each with its value, public key dictionaries sorted |
| `PsbtLayout.InputFieldsComeBack` | hwilib/psbt.py:201-586 | every field of an input that is written comes back with its value when the PSBT is read again |
| `PsbtLayout.Layout` | hwilib/psbt.py:1033-1096 | the magic bytes, the global map, the inputs, the outputs |
| `PsbtLayout.GlobalsWritten` | hwilib/psbt.py:1044-1086 | by number: the global fields that are written in version 0 and in version 2 |
| `PsbtLayout.ReadNeeds` | hwilib/psbt.py:853-990 | whatever is read begins with the magic bytes and has the global fields of its version and none of the other |
| `PsbtLayout.MapsComplete` | hwilib/psbt.py:990-1031 | inputs and outputs that were read have their required fields, and a previous transaction is the one the outpoint names |
| `PsbtLayout.SetUpDescribes` | hwilib/psbt.py:1111-1131 | by number: the fields that an unsigned transaction is copied to |
| `PsbtTheorems.NormalPsbtTwice` | hwilib/psbt.py:844-1096 | the normal form is normal |
| `PsbtStability.SecondRoundTrip` | hwilib/psbt.py:844-1096 | what was read back is serialized to the very same bytes and read back to itself |
| `PsbtMisread.TwoScriptsPsbt` | hwilib/psbt.py:367-380 | bytes that are read to a PSBT with one control block under two leaf scripts, which does not survive |
| `PsbtMisread.NoInputsPsbt` | hwilib/psbt.py:223-231 | bytes that are read to a PSBT with a previous transaction without inputs but with outputs, which does not survive |
| `PsbtMisread.CutHashPsbt` | hwilib/psbt.py:381-393 | bytes that are read to a PSBT with a leaf hash cut off at the end of its value |
| `PsbtMisread.CutHashLost` | hwilib/psbt.py:520-526 | such a derivation comes back different if the cut hash is iterated first |
| `PsbtMisread.CutHashLastKept` | hwilib/psbt.py:520-526 | it comes back as it was if the cut hash is iterated last |
| `LockTime.ComputeLockTime` | hwilib/psbt.py:1133-1163 | the loop computes the rule of BIP 370 |
| `LockTime.LockTimeMeaning` | hwilib/psbt.py:1133-1163 | it fails exactly if one input allows only time and another only height; otherwise it is the greatest requirement of the chosen kind, height preferred, or the fallback |
| `LockTime.AnyOrder` | hwilib/psbt.py:1133-1163 | the lock time does not depend on the order of inputs |
| `PsbtConversion.ToV2KeepsTx` | hwilib/psbt.py:1165-1209 | a read PSBT of version 0 turned into version 2 stands for its unsigned transaction still |
| `PsbtConversion.ToV0AndBackKeepsTx` | hwilib/psbt.py:1165-1218 | a PSBT of version 2 with a transaction, turned into version 0, written, read and turned back, has the same one |
| `PsbtConversion.HasUnsignedTx` | hwilib/psbt.py:1165-1196 | a PSBT of version 2 has a transaction exactly if its version is below 2^31 and its lock times agree |
| `PsbtLayout.UnsignedTxDescribed` | hwilib/psbt.py:1165-1196 | by number: the transaction of a PSBT of version 2 is what its fields describe, a missing sequence number being 0xffffffff |
| `PsbtConversion.ToV2AndReadKeepsTx` | hwilib/psbt.py:1198-1209 | a PSBT of version 0 written as version 2 is read again exactly if every output has a script, and then stands for the same transaction |
| `PsbtConversion.NormalKeepsTx` | hwilib/psbt.py:1165-1196 | normalizing keeps the transaction |
| `ProtobufSpec.ZigZag` | hwilib/devices/trezorlib/protobuf.py:116-128 | the signed encoding is one-to-one between integers and naturals |
| `Protobuf.DumpUvarint` | hwilib/devices/trezorlib/protobuf.py:84-93 | the loop writes the base-128 digits of a number, and refuses negative ones |
| `Protobuf.LoadUvarint` | hwilib/devices/trezorlib/protobuf.py:65-81 | the loop reads a number through all limits, and tells an end before it from an end within it |
| `Protobuf.Input.ReadInto` | hwilib/devices/trezorlib/protobuf.py:253-264 | a chain of limited readers gives nothing beyond its least limit, and all limits shrink by what is read |
| `Protobuf.DumpMessage` | hwilib/devices/trezorlib/protobuf.py:419-489 | succeeds exactly on messages that fit the schema and writes their encoding, so a counting writer's size is the number of bytes written |
| `Protobuf.LoadMessage` | hwilib/devices/trezorlib/protobuf.py:356-416 | the loops over fields, packed arrays and embedded messages load what the specification loads |
| `ProtobufRoundTrip.MessageLoads` | hwilib/devices/trezorlib/protobuf.py:356-489 | loading a dumped message of any nesting, under its schema or one with fewer fields, consumes exactly what was dumped and gives the reloaded message |
| `ProtobufRoundTrip.Projection` | hwilib/devices/trezorlib/protobuf.py:374-382 | the reloaded message has exactly the smaller schema's attributes, each that of the dumped message with the same tag |
| `ProtobufRoundTrip.RoundTrip` | hwilib/devices/trezorlib/protobuf.py:356-489 | loading a dumped message gives it back exactly if no attribute is None that loading would fill in or ask for |
| `ProtobufRoundTrip.ArrayLoads` | hwilib/devices/trezorlib/protobuf.py:288-298 | a packed array brings its numbers as values and takes exactly its length |
| `ProtobufLayout.UvarintBytes` | hwilib/devices/trezorlib/protobuf.py:84-93 | the bytes of a number are its groups of seven bits, the lowest first, all but the last marked, without needless ones |
| `ProtobufLayout.SlotDumped` | hwilib/devices/trezorlib/protobuf.py:419-489 | a field is its elements, each behind 8 * tag + 2 if it has a length and 8 * tag if it is a number, signed numbers in zigzag form |
| `ProtobufLayout.MessageDumped` | hwilib/devices/trezorlib/protobuf.py:419-489 | a message is its fields in the order of the schema, None being left out |
| `ProtobufLayout.Ranges` | hwilib/devices/trezorlib/protobuf.py:169-179 | which numbers fit the integer types |
| `ProtobufLayout.Example` | hwilib/devices/trezorlib/protobuf.py:419-489 | the bytes of a message with a number and a text |

## Left out

- `Bech32.SegwitRoundTrip`: the witness version is a natural number; a negative one, which Python takes as an index from the end of the alphabet, is outside the model.
- `PsbtTheorems.PsbtRoundTrips`: for leaf hashes cut off by the end of their value only full length is given as a condition; whether other sets survive depends on the order of iteration (`PsbtMisread.CutHashLost`, `PsbtMisread.CutHashLastKept`).
- `PsbtStability.SecondRoundTrip`: that every length has a compact size (`Serializable`) is required of what was first read, since sequences have no bound here.
- `PsbtConversion.ToV0AndBackKeepsTx`: stated for inputs that are written unambiguously; otherwise the serialization need not be readable at all.
- `MerkleTrees.MerkleTree.constructor`: elements are 32-byte values by type, so the ValueError of combine_hashes cannot arise; a list from make_tree for size zero is not reached.
- `TapTrees.PrintLoop`: scripts and depths are one list of pairs, so the IndexError for lists of different lengths is not modelled.
- `KeyExpressions.KeyRoundTrip`: decoding of key text (hex, extended keys) is a parameter; key text holds no delimiter of the descriptor language.
- `DescriptorText.TextRoundTrip`: text after a complete script tree is ignored by the parser, as in the code, so the printed form of a parsed text need not be that text.
- `PsbtObjects.PSBT.Serialize`: requires every number to fit its width; struct.error for others (a negative transaction version in version 2) shows as the failing condition.
- `PsbtObjects.PartiallySigned.Deserialize`: inputs, outputs and the global map share one class over a table of record types; keys of dictionaries stay the bytes behind the type instead of tuples; transactions inside values are decoded as values.
- `ProtobufRoundTrip.RoundTrip`: text stands for its UTF-8 bytes, so undecodable text is not modelled; attributes are found by position in the schema, not by name.
- The commands of the interpreter are methods of one object rather than classes that share its dictionaries and queue; inputs, outputs and witnesses of transactions are values, so aliasing between them is not modelled.
- Names, templates and key information of wallets are given as encoded bytes; int() and str.lower are modelled for ASCII.
- base64, hash functions, AES, elliptic curves, extended key arithmetic.
- The loop of `_make_request`, APDU framing and transports, device drivers, GUI and command line.
- `get_full_derivation_path` and `get_full_derivation_int_list`, which add the index twice; `chunkify`, which is unused; DER and compact signatures.
- Results of a signing run (`_decode_signpsbt_yielded_value`), registration of wallets, message signing.
- Classifiers of scripts and paths, error message text, logging, `format_message` and the dictionary forms of protobuf messages.
