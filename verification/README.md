# Verified model of the SDK's algorithms and state machines

This project models the parts of the Bitwarden SDK that hold real algorithms or state, and proves
what they promise for all inputs and all runs. Each module stands for one component.

| component | modules |
|---|---|
| collection tree | `PathOrder`, `CollectionItems`, `CollectionTree`, `TreeProperties`, `TreeTraversal`, `TreeOrder`, `BuiltTrees`, `TreeAnyIds`, `CollectionNames` |
| base64, base64url and chunked encoding | `Digits`, `Base64`, `ChunkedEncoding` |
| access tokens | `Text`, `Uuids`, `AccessTokens`, `EncStrings`, `SymmetricKeys`, `KeyStores`, `AccessTokenCrypto` |
| fingerprint and passphrase words | `WordCode`, `Fingerprint`, `Passphrase`, `PassphraseText` |
| query parameters | `Decimals`, `DeepObjects` |
| the `#[wasm_export]` rewrite | `WasmExport`, `WasmNames` |
| work on every sync | `CryptoSync`, `SyncInterleaving` |
| passkeys and stored credentials | `Fido` |
| bounded error details | `Utf8Truncation` |

Code that works by updating things is a class or a method with loops (`CollectionTree.Tree`,
`ChunkedEncoding.Encoder`, `KeyStores.KeyStoreContext`, `CryptoSync.Client`, `Fingerprint.HashWord`,
`Passphrase.Generate`, `DeepObjects.ParseDeepObject`, `WasmExport.ExpandImpl`,
`Utf8Truncation.Truncate`), proved against specification functions; what the source promises is then
proved about those functions.

`dafny verify dfyconfig.toml` checks the whole project.

## What the proofs found

Some properties one would expect hold only under a condition. The model keeps the code as it is. Where
the text says "exactly", the members named prove both directions, so they also show the failures.

- A collection with an empty name, or one of only `/` characters, has an empty path, on which the tree
  construction panics; no other name does (`CollectionNames.TreeBuildableIff`). Collections without an id
  all get the nil id (`CollectionNames.TreeIdsUniqueIff`), and listing the tree returns every item exactly when
  ids are unique (`TreeTraversal.FlatItemsExact`). With repeated ids the last item in path order stands
  for all items with its id, in lookups and in the root listing (`TreeAnyIds.LookupAnyIds`,
  `TreeAnyIds.RootListingExactIff`).
- The order of the input matters to the nodes and links exactly when two items with different ids share
  a path, and to the id index exactly when the last path of some id holds two different items
  (`TreeOrder.NodesOrderIff`, `TreeOrder.IndexOrderIff`).
- Query keys can collide exactly through object keys that contain `][`, which is less than every key
  with a `]` (`DeepObjects.EmittedKeysDistinct`, `DeepObjects.BracketPairCollides`).
- `#[wasm_export]` keeps a JavaScript name under an exact condition on the attributes and the build
  (`WasmNames.ExpansionKeepsNames`). A `js_name` under a `cfg_attr` that is off counts as a name, so the
  method is exported under its prefixed Rust name (`WasmNames.InactiveNameLost`). A marked
  `#[wasm_bindgen(setter)]` becomes the setter of a property that keeps the `set_`
  (`WasmNames.MarkedSetterRenamed`). Free functions have such a condition of their own
  (`WasmNames.FnKeepsName`).
- A sync that carries an account state panics when no state bridge is registered, because the
  downgrade check reads the bridge without asking first (`CryptoSync.Client.HandleCryptoSync`).
- Of two syncs in flight, one with a V1 and one with a V2 account state, the V1 state can be written over
  the V2 state, because the downgrade check and the write are separate calls. A stored V2 account is safe
  from every schedule exactly when no sync has checked a V1 state and not written it yet
  (`SyncInterleaving.V2SafeIff`, `SyncInterleaving.UpgradeLost`).
- A passkey with an explicit zero counter comes back without a counter, one with an hmac secret comes
  back without it, and no other passkey whose key the conversion reads back changes
  (`Fido.PasskeyUnchangedIff`, `Fido.UnstoredPartsLost`).
- The legacy byte forms of an encrypted string with empty data are not read back
  (`EncStrings.BufferRoundTripIff`).
- The entropy check of the fingerprint refuses only lists of more than 2^128 words
  (`Fingerprint.EntropyRefusedIff`).
- The documentation of the passphrase request says the separator cannot be empty, but the code takes
  any separator. On the shipped list no word starts another, and then every separator, the empty one
  included, lets the passphrase be read in one way only (`PassphraseText.PassphraseDetermines`). To do so
  whatever the list, it takes a separator with some character that is not a lowercase letter
  (`PassphraseText.SeparatorIff`).

## Model

| member | source | states |
|---|---|---|
| `PathOrder.PathTotalOrder` | crates/bitwarden-collections/src/tree.rs:92 | comparing paths segment by segment is a total order, built from the order on characters |
| `PathOrder.PathLeqIff` | crates/bitwarden-collections/src/tree.rs:92 | the sort compares by segments, a prefix first, and the first differing segments by their first differing characters |
| `PathOrder.PrefixFirst` | crates/bitwarden-collections/src/tree.rs:89-94 | a path never sorts after one of its extensions |
| `CollectionItems.SortByPathUnique` | crates/bitwarden-collections/src/tree.rs:90-94 | the stable sort is the only sequence that is sorted and keeps, at every path, the items in input order |
| `CollectionItems.SortContents` | crates/bitwarden-collections/src/tree.rs:90-94 | sorting permutes the input |
| `CollectionItems.SortOrderInsensitive` | crates/bitwarden-collections/src/tree.rs:89-94 | all orders of the same items sort alike if and only if equal paths mean equal items |
| `CollectionTree.Tree.FromItems` | crates/bitwarden-collections/src/tree.rs:82-104 | node i stands for the i-th sorted item, its parent is the last item one segment up and sits before it, each child list is exactly the ascending list of nodes naming that parent, and both indexes lead to the last entry |
| `CollectionTree.Tree.AddItem` | crates/bitwarden-collections/src/tree.rs:107-120 | appends the node, puts it on the parent's child list, indexes its path and leaves the rest alone |
| `CollectionTree.Tree.GetFlatItems` | crates/bitwarden-collections/src/tree.rs:185-190 | lists the relatives of every indexed id once, in some order |
| `CollectionTree.ParentsComeFirst` | crates/bitwarden-collections/src/tree.rs:89-101 | in path order a parent always comes before its children |
| `CollectionTree.AddNodeLinked` | crates/bitwarden-collections/src/tree.rs:107-120 | adding the next item in path order keeps every parent link and child list right, for all earlier nodes too |
| `TreeProperties.LinkedUnique` | crates/bitwarden-collections/src/tree.rs:107-120 | the sorted items determine every node, parent and child link |
| `TreeOrder.NodesOrderIff` | crates/bitwarden-collections/src/tree.rs:89-120 | all orders of the same items build the same nodes and links if and only if equal paths mean equal ids |
| `TreeOrder.IndexOrderIff` | crates/bitwarden-collections/src/tree.rs:97-101 | all orders of the same items build the same id index if and only if the last path of each id holds one item, possibly repeated |
| `CollectionTree.TreeExists` | crates/bitwarden-collections/src/tree.rs:97-101 | every sorted list of items has nodes, path index and id index as specified |
| `TreeProperties.ChildrenExact` | crates/bitwarden-collections/src/tree.rs:142-148 | the last item at a path has all items one segment below it as children, earlier duplicates have none |
| `TreeProperties.AncestorWalkExact` | crates/bitwarden-collections/src/tree.rs:151-153 | the walk ends and visits exactly the items of the maximal gap-free run of proper prefixes of the path |
| `TreeProperties.AncestorMapExact` | crates/bitwarden-collections/src/tree.rs:150-165 | with unique ids each of these ancestors appears with its own short name and nothing else does |
| `TreeProperties.LookupExact` | crates/bitwarden-collections/src/tree.rs:125-173 | with unique ids a lookup returns the item, its parent by path, its children by path and its exact ancestors |
| `TreeProperties.RelativesAgree` | crates/bitwarden-collections/src/tree.rs:131-173 | one item is among the children of another exactly when the other is its parent |
| `TreeTraversal.TraversalVisitsOnce` | crates/bitwarden-collections/src/tree.rs:107-120 | following child lists from the roots reaches every node exactly once |
| `TreeTraversal.RootsAreOrphans` | crates/bitwarden-collections/src/tree.rs:176-182 | the roots are exactly the nodes with no item at their parent path |
| `TreeTraversal.RootItemsExact` | crates/bitwarden-collections/src/tree.rs:176-182 | with unique ids the root listing is, in order, the lookup of each root item |
| `BuiltTrees.GetItemByIdExact` | crates/bitwarden-collections/src/tree.rs:125-173 | on a built tree with unique ids a lookup finds exactly the input's ids, and returns the item with its parent, children and ancestors by path |
| `BuiltTrees.GetRootItemsExact` | crates/bitwarden-collections/src/tree.rs:176-182 | on a built tree with unique ids the root listing holds exactly the items with no item at their parent path, each once and as its lookup gives it |
| `BuiltTrees.RootsAscend` | crates/bitwarden-collections/src/tree.rs:176-182 | on a built tree with unique ids the root listing ascends in that order |
| `BuiltTrees.ChildrenAscend` | crates/bitwarden-collections/src/tree.rs:142-148 | and so do the children in every lookup |
| `TreeAnyIds.LookupAnyIds` | crates/bitwarden-collections/src/tree.rs:125-173 | with any ids, a lookup finds exactly the input's ids and answers with the last item with the id; parent, children and ancestors are those its path gives, each replaced by the last item with the same id |
| `TreeAnyIds.RootListingAnyIds` | crates/bitwarden-collections/src/tree.rs:176-182 | with any ids, the root listing has one entry for each root in order, the lookup of its id |
| `TreeAnyIds.RootListingExactIff` | crates/bitwarden-collections/src/tree.rs:176-182 | it shows the roots themselves if and only if each root equals the last item with its id |
| `TreeTraversal.FlatItemsExact` | crates/bitwarden-collections/src/tree.rs:185-190 | the flat listing holds each input item exactly once if and only if ids are unique |
| `TreeTraversal.FlatRelativesAgree` | crates/bitwarden-collections/src/tree.rs:185-190 | within one flat listing parents and children agree with each other |
| `CollectionNames.EmptyPathIff` | crates/bitwarden-collections/src/collection.rs:171-176 | a collection's path is empty exactly when its name has only delimiters |
| `CollectionNames.PathOfJoined` | crates/bitwarden-collections/src/collection.rs:171-178 | every list of non-empty segments is the path of the name that joins them |
| `CollectionNames.TreeItemText` | crates/bitwarden-collections/src/collection.rs:162-179 | the tree item of a collection has its id, or sixteen zero bytes without one, its path, and its last segment as short name |
| `CollectionNames.TreeBuildableIff` | crates/bitwarden-collections/src/collection.rs:162-179 | collections can be filed in a tree exactly when no name has only delimiters |
| `CollectionNames.TreeIdsUniqueIff` | crates/bitwarden-collections/src/collection.rs:163-165 | their tree ids are unique exactly when given ids are and at most one collection has none or the nil id |
| `Base64.SymbolValue` | crates/bitwarden-encoding/src/b64.rs:88-93 | both alphabets are bijections onto 64 values that leave out the padding character |
| `Base64.AlphabetText` | crates/bitwarden-encoding/src/b64.rs:88-93 | the symbols in order: capitals, small letters, digits, then `+/` or `-_` |
| `Base64.SextetsAreDigits` | crates/bitwarden-encoding/src/b64.rs:71-75 | the symbols are the base-64 digits of the big-endian input number, shifted to fill the last one |
| `Base64.PaddedText` | crates/bitwarden-encoding/src/b64.rs:71-75 | standard text has four characters for every three bytes begun and `=` exactly where the last group has no data |
| `Base64.DecodeAccepts` | crates/bitwarden-encoding/src/b64.rs:103-113 | a string decodes exactly when it is alphabet symbols of a length that is not 1 modulo 4, followed by any amount of padding |
| `Base64.DecodeEncode` | crates/bitwarden-encoding/src/b64.rs:71-113 | decoding undoes encoding, for both alphabets, padded or not |
| `Base64.DecodeSpellings` | crates/bitwarden-encoding/src/b64.rs:88-113 | exactly which strings decode to given bytes: their symbols up to spare low bits, then any padding |
| `Base64.NormalFormExact` | crates/bitwarden-encoding/src/b64.rs:71-113 | re-encoding keeps the value, is idempotent, and is equal for two strings exactly when they decode equally |
| `Base64.NormalFormIff` | crates/bitwarden-encoding/src/b64url.rs:51-93 | a spelling is the normal form exactly when spare bits are clear and padding is what the encoder writes |
| `Base64.EncodeCharacters` | crates/bitwarden-encoding/src/b64url.rs:51-55 | encoded text has only alphabet symbols and padding |
| `Base64.UrlTextUnpadded` | crates/bitwarden-encoding/src/b64url.rs:51-55 | url text has no padding |
| `ChunkedEncoding.Encoder.Append` | crates/bitwarden-encoding/src/chunked.rs:16-18 | after any chunk the output is the text of all whole groups fed so far and the carry is the rest |
| `ChunkedEncoding.Encoder.Finalize` | crates/bitwarden-encoding/src/chunked.rs:19 | the output becomes the encoding of everything fed |
| `ChunkedEncoding.OutputFits` | crates/bitwarden-encoding/src/chunked.rs:13 | exact output lengths, never above the reserved capacity |
| `ChunkedEncoding.ChunkedEncodeWithLimit` | crates/bitwarden-encoding/src/chunked.rs:11-21 | for every chunk limit, aligned or not, whose chunks the underlying encoder accepts, streaming equals encoding the whole input, within the reserved capacity |
| `ChunkedEncoding.ChunkedEncode` | crates/bitwarden-encoding/src/chunked.rs:7-9 | the same with the limit of the target, which the underlying encoder accepts |
| `ChunkedEncoding.LimitValues` | crates/bitwarden-encoding/src/chunked.rs:3-9 | the chunk limit of 32-bit and 64-bit targets |
| `WordCode.JoinInjective` | crates/bitwarden-crypto/src/fingerprint.rs:52-55 | hyphen-joined words, some with hyphens, decode in one way when first pieces are distinct |
| `WordCode.DistinctWordsAreNotEnough` | crates/bitwarden-crypto/src/fingerprint.rs:52-55 | a list of distinct words whose first pieces repeat, and two different sequences of its words that join alike |
| `Fingerprint.HashWord` | crates/bitwarden-crypto/src/fingerprint.rs:30-56 | returns the joined low digits of the hash number in base N, or the entropy error |
| `Fingerprint.NumWords` | crates/bitwarden-crypto/src/fingerprint.rs:31-34 | the least number of words that carries 64 bits |
| `Fingerprint.EntropyRefusedIff` | crates/bitwarden-crypto/src/fingerprint.rs:36-40 | the entropy check refuses exactly lists of more than 2^128 words |
| `Fingerprint.EntropyBits` | crates/bitwarden-crypto/src/fingerprint.rs:31-40 | the bounds are 64 bits and four bits for each of 32 hash bytes |
| `Fingerprint.RealListFiveWords` | crates/bitwarden-crypto/src/fingerprint.rs:31-40 | 7776 words give five words and are never refused |
| `Fingerprint.PhraseEqualIff` | crates/bitwarden-crypto/src/fingerprint.rs:42-53 | two numbers give the same k words exactly when they are congruent modulo N^k |
| `Fingerprint.FingerprintEqualIff` | crates/bitwarden-crypto/src/fingerprint.rs:30-56 | two hashes give the same joined string exactly when their numbers are congruent modulo N^k |
| `Fingerprint.PreimageCount` | crates/bitwarden-crypto/src/fingerprint.rs:42-53 | every word sequence has the quotient or one more preimages below any bound |
| `Fingerprint.HashPreimageCount` | crates/bitwarden-crypto/src/fingerprint.rs:44-53 | as many hashes of a length give a word sequence as numbers below the number of such hashes do |
| `Fingerprint.PhrasesUniform` | crates/bitwarden-crypto/src/fingerprint.rs:42-53 | the numbers of 32-byte hashes that give any two word sequences differ by at most one |
| `Fingerprint.PhraseReached` | crates/bitwarden-crypto/src/fingerprint.rs:42-53 | every word sequence that is not longer than the hashes allow is produced by some hash |
| `Passphrase.IncludeNumberInWords` | crates/bitwarden-generators/src/passphrase.rs:121-124 | appends the digit to one word in place and leaves the others |
| `Passphrase.CapitalizeWords` | crates/bitwarden-generators/src/passphrase.rs:126-130 | capitalizes every word in place |
| `Passphrase.Generate` | crates/bitwarden-generators/src/passphrase.rs:65-119 | joins the drawn words, numbered before capitalized, or refuses a number of words outside 3 to 20 |
| `Passphrase.UnhyphenatedMembers` | crates/bitwarden-generators/src/passphrase.rs:106-109 | exactly the list words without a hyphen can be drawn |
| `Passphrase.UnhyphenatedPlain` | crates/bitwarden-generators/src/passphrase.rs:103-109 | words are drawn from distinct words of letters only |
| `PassphraseText.SplitsIntoWords` | crates/bitwarden-generators/src/passphrase.rs:91-119 | for every shipped list and draw the passphrase with hyphens splits into exactly the chosen number of words |
| `PassphraseText.PassphraseDetermines` | crates/bitwarden-generators/src/passphrase.rs:91-130 | on a list where no word starts another, as the shipped one, for every separator two passphrases are equal exactly when the words drawn, their number, the options, and the place and value of the digit are |
| `PassphraseText.ChoicesDetermined` | crates/bitwarden-generators/src/passphrase.rs:91-130 | the same choices follow on any list if words are capitalized or the separator is not all lowercase letters |
| `PassphraseText.NumberNotHidden` | crates/bitwarden-generators/src/passphrase.rs:121-124 | with a digit in the separator, the appended number is never taken for part of a separator |
| `PassphraseText.LowerSeparatorAmbiguous` | crates/bitwarden-generators/src/passphrase.rs:102-119 | why the list matters: without prefix-freeness, for every lowercase or empty separator, a list and two draws of three words that give one passphrase |
| `PassphraseText.SeparatorIff` | crates/bitwarden-generators/src/passphrase.rs:65-130 | without prefix-freeness: whatever the list, over all draws of 3 to 20 words, equal passphrases mean equal choices if and only if the separator has a character that is not a lowercase letter |
| `Uuids.ParseFormat` | crates/bitwarden-fido/src/lib.rs:239-263 | parsing undoes printing |
| `Uuids.FormatText` | crates/bitwarden-fido/src/lib.rs:239-244 | the printed form, character by character: lowercase digits, high half first, and four hyphens |
| `Uuids.ParseIff` | crates/bitwarden-access-token/src/token.rs:95-97 | exactly which strings parse to a given UUID: plain, hyphenated, braced or URN, in any case |
| `AccessTokens.ParseAssembled` | crates/bitwarden-access-token/src/token.rs:64-113 | the full result of parsing an assembled token, value or error, for every secret |
| `AccessTokens.ParseByParts` | crates/bitwarden-access-token/src/token.rs:64-113 | parsing any text with a colon by the pieces before it: the number of parts, version and kind are checked in this order, then id and seed, and each kind derives for its own purpose text |
| `AccessTokens.ParseWithoutColon` | crates/bitwarden-access-token/src/token.rs:65-67 | text without a colon has the wrong parts |
| `AccessTokens.RoundTripIff` | crates/bitwarden-access-token/src/secrets.rs:24-32 | an assembled token parses back to its values exactly when the secret has no dot and no colon, and never to other values |
| `AccessTokens.TokenText` | crates/bitwarden-access-token/src/secrets.rs:24-32 | the assembled token and client id of each kind, written out |
| `AccessTokens.KindsDisjoint` | crates/bitwarden-access-token/src/token.rs:71-93 | no string is accepted under both kinds |
| `AccessTokens.WrongKindRefused` | crates/bitwarden-access-token/src/token.rs:71-93 | a token assembled for one kind is refused under the other, whatever its secret |
| `AccessTokens.AcceptedIff` | crates/bitwarden-access-token/src/token.rs:64-113 | exactly which strings are accepted, and with which result |
| `AccessTokens.AcceptedKey` | crates/bitwarden-access-token/src/token.rs:99-112 | every accepted token has the key derived from its seed for `access-connector` or `sm-access-token`, by its kind |
| `AccessTokens.ClientIdInToken` | crates/bitwarden-access-token/src/token.rs:132-137 | the client id is the middle of the assembled token |
| `AccessTokens.ClientIdInjective` | crates/bitwarden-access-token/src/token.rs:132-137 | client ids tell kind and API key id |
| `EncStrings.ParsePrinted` | crates/bitwarden-crypto/src/enc_string/symmetric.rs:137-156 | every known format is read back from its printed form |
| `EncStrings.PrintParseIff` | crates/bitwarden-crypto/src/enc_string/symmetric.rs:276-295 | printing and parsing give back the value exactly when it is not a known format kept as raw text |
| `EncStrings.PrintedText` | crates/bitwarden-crypto/src/enc_string/symmetric.rs:276-295 | the printed form of every format, written out |
| `EncStrings.LegacyText` | crates/bitwarden-crypto/src/enc_string/mod.rs:45-59 | text without a header: two parts are read as the oldest format, three are not supported |
| `EncStrings.ParseStable` | crates/bitwarden-crypto/src/enc_string/symmetric.rs:110-119 | what comes out of the parser survives printing and parsing, whatever text went in |
| `EncStrings.BufferRoundTripIff` | crates/bitwarden-crypto/src/enc_string/symmetric.rs:207-268 | the byte form is read back exactly unless the data of a legacy type is empty |
| `EncStrings.BufferExact` | crates/bitwarden-crypto/src/enc_string/symmetric.rs:207-268 | every accepted buffer is the byte form of what it reads as |
| `EncStrings.BufferBytes` | crates/bitwarden-crypto/src/enc_string/symmetric.rs:241-268 | the byte form of every format, written out |
| `SymmetricKeys.UnpadPadded` | crates/bitwarden-crypto/src/keys/utils.rs:25-50 | padding succeeds exactly when at most 255 bytes are missing, reaches the minimum length, repeats the number of added bytes and is undone |
| `SymmetricKeys.EncodedLength` | crates/bitwarden-crypto/src/keys/symmetric_crypto_key.rs:474-487 | the length of the byte form tells the kind of key |
| `SymmetricKeys.EncodedBytes` | crates/bitwarden-crypto/src/keys/symmetric_crypto_key.rs:474-487 | legacy keys are their own bytes, a COSE key is its serialization and removable padding |
| `SymmetricKeys.KeyRoundTrip` | crates/bitwarden-crypto/src/keys/symmetric_crypto_key.rs:681-701 | every key is read back from its byte form |
| `SymmetricKeys.CanEncryptText` | crates/bitwarden-crypto/src/store/context.rs:805-833 | which keys encrypt: the composite key always, COSE keys of two algorithms when they may, no other |
| `KeyStores.KeyStoreContext.SetSymmetricKey` | crates/bitwarden-crypto/src/store/context.rs:667-681 | writes one slot, or fails without a change when the global store is read-only |
| `KeyStores.KeyStoreContext.AddLocalSymmetricKey` | crates/bitwarden-crypto/src/store/context.rs:684-688 | adds the key under a local slot never used before |
| `KeyStores.KeyStoreContext.PersistSymmetricKey` | crates/bitwarden-crypto/src/store/context.rs:301-314 | moves a local key to a global slot, or leaves every global key alone |
| `AccessTokenCrypto.MakeAccessTokenSecrets` | crates/bitwarden-access-token-crypto/src/material.rs:29-59 | mints both ciphertexts from the organization key and the derived key, or the error of a key that is missing, cannot encrypt or is not allowed to; global keys stay |
| `AccessTokenCrypto.MintedText` | crates/bitwarden-access-token-crypto/src/material.rs:29-59 | what is encrypted and under which key, with the derivation name, purpose and payload text written out |
| `AccessTokenCrypto.OpenPayload` | crates/bitwarden-access-token-crypto/src/key.rs:42-72 | installs exactly the carried key at the destination, or changes no global slot |
| `AccessTokenCrypto.CryptoErrors` | crates/bitwarden-access-token-crypto/src/key.rs:42-72 | why a payload does not open and why an organization key cannot mint |
| `AccessTokenCrypto.MintParseOpen` | crates/bitwarden-access-token/src/secrets.rs:24-56 | mint, print, parse and open give back the organization key, and the minted `key` field decrypts to the key the holder derives, for both kinds |
| `AccessTokenCrypto.IssueAndOpen` | crates/bitwarden-access-token-crypto/src/key.rs:32-72 | the same across two key stores: the holder ends with the issuer's organization key and nothing else changed |
| `Decimals.ParseToDecimal` | crates/bitwarden-fido/src/lib.rs:123-127 | decimal text of every 32-bit number is read back |
| `Decimals.DecimalText` | crates/bitwarden-fido/src/lib.rs:173 | decimal text, digit by digit |
| `Decimals.ParseU32Iff` | crates/bitwarden-fido/src/lib.rs:123-127 | exactly which texts are read as a 32-bit number: digits, after a plus sign or not |
| `DeepObjects.ParseDeepObject` | crates/bitwarden-api-base/src/util.rs:49-78 | completes exactly on objects whose arrays hold only objects at every depth, and emits one pair per scalar in traversal order |
| `DeepObjects.ParseItems` | crates/bitwarden-api-base/src/util.rs:59-66 | the same for the items of one array, under their decimal indices |
| `DeepObjects.LeavesReach` | crates/bitwarden-api-base/src/util.rs:49-75 | a path and text are emitted exactly when navigating the document by that path reaches a scalar with that text |
| `DeepObjects.LeavesInOrder` | crates/bitwarden-api-base/src/util.rs:49-75 | entries are emitted in the order of the document: by field, then by array index, at every depth |
| `DeepObjects.LeavesDistinct` | crates/bitwarden-api-base/src/util.rs:49-75 | no path is emitted twice |
| `DeepObjects.EmittedKeysDistinct` | crates/bitwarden-api-base/src/util.rs:49-75 | all query keys differ when no object key contains `][` |
| `DeepObjects.BracketPairCollides` | crates/bitwarden-api-base/src/util.rs:55-70 | every key that contains `][` collides in some document |
| `WasmExport.ApplyWasmOnly` | crates/bitwarden-ffi-macro/src/wasm_export.rs:144-156 | takes off the first marker, adds the three attributes and the prefix, and returns the old name, or the error of a bad note |
| `WasmExport.MarkedMethodText` | crates/bitwarden-ffi-macro/src/wasm_export.rs:57-70 | a marked method as it comes out: its new name, the three added attributes, and when the exported name is added |
| `WasmExport.UnmarkedMethodText` | crates/bitwarden-ffi-macro/src/wasm_export.rs:145-146 | an unmarked method stays as it is |
| `WasmExport.ReadNote` | crates/bitwarden-ffi-macro/src/wasm_export.rs:159-175 | the last note of a well-formed marker, the default without one, and nothing for any other marker |
| `WasmExport.NoteText` | crates/bitwarden-ffi-macro/src/wasm_export.rs:159-175 | the default note, and which argument gives the note otherwise |
| `WasmExport.ExpandImpl` | crates/bitwarden-ffi-macro/src/wasm_export.rs:23-78 | accepts exactly the exportable blocks and rewrites every item as specified; otherwise the error of the first offending item |
| `WasmExport.MethodErrors` | crates/bitwarden-ffi-macro/src/wasm_export.rs:36-55 | what is refused of a method: a bad marker first, whatever the visibility, then generics if it is public |
| `WasmExport.LeftoverRefused` | crates/bitwarden-ffi-macro/src/wasm_export.rs:114-137 | a block that still carries wasm_bindgen, plainly or under `cfg_attr`, is not accepted |
| `WasmExport.ExpandFn` | crates/bitwarden-ffi-macro/src/wasm_export.rs:81-109 | the same for a free function, whose name joins the forwarded arguments |
| `WasmExport.MacroAttrText` | crates/bitwarden-ffi-macro/src/attrs.rs:18-25 | the attribute put on a block or function, written out |
| `WasmNames.MethodKeepsName` | crates/bitwarden-ffi-macro/src/wasm_export.rs:38-70 | a public method keeps its JavaScript name exactly when it is unmarked or its attributes and the build let the name survive |
| `WasmNames.ExpansionKeepsNames` | crates/bitwarden-ffi-macro/src/wasm_export.rs:23-78 | the list of JavaScript names equals that of the block with markers erased if and only if this holds of every marked public method |
| `WasmNames.OrdinaryNamesKept` | crates/bitwarden-ffi-macro/src/attrs.rs:27-48 | with names written plainly, under the wasm feature or not at all, all names are kept if and only if no marked public method is a setter told neither a name nor a property |
| `WasmNames.MarkedSetterRenamed` | crates/bitwarden-ffi-macro/src/wasm_export.rs:56-70 | a marked bare setter `set_x` is exported as the property `set_x` instead of `x` |
| `WasmNames.InactiveNameLost` | crates/bitwarden-ffi-macro/src/attrs.rs:29-48 | a name under any `cfg_attr` that is off makes JavaScript see the prefixed Rust name |
| `WasmExport.RenamedDistinctIff` | crates/bitwarden-ffi-macro/src/wasm_export.rs:144-156 | distinct Rust names stay distinct exactly when no unmarked method already has a marked one's new name |
| `WasmNames.AddedName` | crates/bitwarden-ffi-macro/src/wasm_export.rs:65-69 | when an added `js_name` leaves wasm_bindgen's answer as it was |
| `WasmNames.FnKeepsName` | crates/bitwarden-ffi-macro/src/wasm_export.rs:81-109 | an accepted free function is exported as without its marker exactly when the macro's arguments keep the name and every wasm_bindgen attribute left on it hides the Rust name |
| `CryptoSync.Client.HandleUserDecryptionOptions` | crates/bitwarden-crypto-sync-handler/src/crypto_sync_handler.rs:170-216 | sets or clears unlock data, KDF, upgrade token, PRF options and key id as received, and nothing else |
| `CryptoSync.Client.HandleAccountCryptographicState` | crates/bitwarden-crypto-sync-handler/src/crypto_sync_handler.rs:219-231 | stores the received account state, if any |
| `CryptoSync.Client.HandleV2Upgrade` | crates/bitwarden-core/src/key_management/crypto/reinit_user_crypto.rs:83-158 | swaps an unlocked V1 key for the token's V2 key, in memory and in wasm client state, or leaves everything |
| `CryptoSync.Client.HandleCryptoSync` | crates/bitwarden-crypto-sync-handler/src/crypto_sync_handler.rs:153-167 | one sync is the specified step, refuses a V2 to V1 move whole, and completes exactly when a bridge is registered or no account state came |
| `CryptoSync.Client.HandleSyncs` | crates/bitwarden-crypto-sync-handler/src/crypto_sync_handler.rs:153-167 | any number of syncs is the run of these steps |
| `CryptoSync.V2Stays` | crates/bitwarden-crypto-sync-handler/src/crypto_sync_handler.rs:276-305 | over every run a stored V2 account never becomes V1 |
| `CryptoSync.RefusedLeaveNoTrace` | crates/bitwarden-crypto-sync-handler/src/crypto_sync_handler.rs:154-159 | deleting all refused syncs from a run gives the same final state, and none of the rest is then refused |
| `CryptoSync.CoherenceKept` | crates/bitwarden-crypto-sync-handler/src/crypto_sync_handler.rs:181-208 | over every run stored unlock data has the stored KDF and stored PRF options are not empty, once that holds |
| `CryptoSync.CoherentOnceSynced` | crates/bitwarden-crypto-sync-handler/src/crypto_sync_handler.rs:181-208 | from any state that holds after every run in which a sync with user decryption options was accepted |
| `CryptoSync.AccountAfterRun` | crates/bitwarden-crypto-sync-handler/src/crypto_sync_handler.rs:219-305 | the account state after a run in closed form: the newest V2 state if there is one, else the newest state |
| `CryptoSync.OptionsFromOneSync` | crates/bitwarden-crypto-sync-handler/src/crypto_sync_handler.rs:154-216 | unlock data, token, PRF options and key id all come from the last sync that carried options and was not refused |
| `CryptoSync.KdfFromLastUnlock` | crates/bitwarden-crypto-sync-handler/src/crypto_sync_handler.rs:181-191 | the stored KDF is that of the last unlock data accepted, even after the unlock data itself was cleared |
| `CryptoSync.OptionsUntouched` | crates/bitwarden-crypto-sync-handler/src/crypto_sync_handler.rs:170-180 | without such a sync they stay what they were |
| `CryptoSync.StepIdempotent` | crates/bitwarden-crypto-sync-handler/src/crypto_sync_handler.rs:153-167 | handling the same sync twice is handling it once |
| `CryptoSync.UsableStep` | crates/bitwarden-core/src/key_management/crypto/reinit_user_crypto.rs:83-158 | one step with a V2 state and a token whose V2 key opens it moves an unlocked V1 client to the token's key, on wasm also in state |
| `CryptoSync.MemoryKeyAfterRun` | crates/bitwarden-core/src/key_management/crypto/reinit_user_crypto.rs:83-144 | the first sync of a run with a V2 state and a token whose V2 key, unwrapped with the starting key, opens it decides the key in memory |
| `CryptoSync.MemoryKeyKeptIff` | crates/bitwarden-core/src/key_management/crypto/reinit_user_crypto.rs:83-144 | the key in memory is unchanged after a run exactly when the client cannot upgrade or no sync brings such a token |
| `CryptoSync.MemoryKeyOnlyUpgrades` | crates/bitwarden-core/src/key_management/crypto/reinit_user_crypto.rs:99-144 | over every run the key in memory stays or moves from V1 to V2, and a locked client stays locked |
| `CryptoSync.UpgradeIsStored` | crates/bitwarden-core/src/key_management/crypto/reinit_user_crypto.rs:146-158 | a run that changed the key in memory ends with a V2 account and, on wasm, with the new key in client state |
| `SyncInterleaving.AloneIsStep` | crates/bitwarden-crypto-sync-handler/src/crypto_sync_handler.rs:153-268 | the calls of an uninterrupted sync, one after the other, do exactly the step of the sequential model |
| `SyncInterleaving.V2StaysInterleaved` | crates/bitwarden-crypto-sync-handler/src/crypto_sync_handler.rs:276-305 | under every schedule of any syncs in flight a stored V2 account stays V2, if no V1 write is pending when it is stored |
| `SyncInterleaving.V2SafeIff` | crates/bitwarden-crypto-sync-handler/src/crypto_sync_handler.rs:156-230 | it survives all schedules if and only if no sync is between the check and the write of a V1 state |
| `SyncInterleaving.UpgradeLost` | crates/bitwarden-crypto-sync-handler/src/crypto_sync_handler.rs:326-328 | for any V1 and V2 sync started together from a state that is not V2, a schedule that stores the V2 state and then the V1 state |
| `SyncInterleaving.KeptInterleaved` | crates/bitwarden-crypto-sync-handler/src/crypto_sync_handler.rs:153-268 | under every schedule the key in memory stays or moves from V1 to V2, and stored PRF options are not empty once they are not |
| `Fido.GuidRoundTrip` | crates/bitwarden-fido/src/lib.rs:239-263 | exactly the 16-byte ids have text, and it is read back without ever taking the base64 branch |
| `Fido.PasskeyRoundTrip` | crates/bitwarden-fido/src/lib.rs:122-179 | a passkey can be stored exactly when its key can be written and its id has 16 bytes, and is then read back with the key the conversion gives, a zero counter as none and without its hmac secret |
| `Fido.StoredFields` | crates/bitwarden-fido/src/lib.rs:153-179 | what is stored of a passkey and a view, field by field |
| `Fido.FillErrors` | crates/bitwarden-fido/src/lib.rs:157-164 | why a passkey cannot be stored: its key first, then its id |
| `Fido.ReadErrors` | crates/bitwarden-fido/src/lib.rs:122-142 | why a stored credential cannot be read: counter, texts, key and id, in this order |
| `Fido.PasskeyUnchangedIff` | crates/bitwarden-fido/src/lib.rs:122-179 | it comes back unchanged exactly when the conversion reads its key back, its counter is not an explicit zero and it carries no hmac secret |
| `Fido.UnstoredPartsLost` | crates/bitwarden-fido/src/lib.rs:122-179 | passkeys that differ only in an hmac secret or a zero counter are stored alike, so the difference is lost |
| `Fido.StoredCredentialStable` | crates/bitwarden-fido/src/lib.rs:122-179 | a readable stored credential whose key the conversion reads back, stored again, reads as the same passkey |
| `Fido.MarkerRepeats` | crates/bitwarden-fido/src/lib.rs:252-257 | repeating the base64 marker of an id changes nothing |
| `Fido.MarkedBytesRead` | crates/bitwarden-fido/src/lib.rs:252-257 | bytes of any length stored under the base64 marker are read back |
| `Utf8Truncation.WellFormedIff` | bitwarden_license/bitwarden-access-connector/src/error.rs:24-35 | well-formed text is exactly the encodings of sequences of scalar values, by the table in section 3 of RFC 3629 |
| `Utf8Truncation.BoundaryIff` | bitwarden_license/bitwarden-access-connector/src/error.rs:29 | in well-formed text a position is a character boundary exactly when the prefix is well-formed |
| `Utf8Truncation.BoundaryNearby` | bitwarden_license/bitwarden-access-connector/src/error.rs:28-31 | some boundary is at most three bytes below every position, so the search ends |
| `Utf8Truncation.Truncate` | bitwarden_license/bitwarden-access-connector/src/error.rs:24-35 | returns the longest well-formed prefix of at most 500 bytes, the text itself if it fits, and loses at most three bytes otherwise |

## Left out

- Cipher primitives, HKDF, COSE and PKCS8 conversion: functions with the laws that reading undoes writing and decrypting undoes encrypting. `AccessTokenCrypto.LawfulSuiteExists` shows that the laws of the token protocol can be met together.
- Randomness: seeds, nonces and word draws are parameters, so every draw is covered.
- The `data_encoding` streaming encoder: modelled as a carry of at most two bytes that writes whole groups; its internal blocks are not.
- The `uuid` crate: its four accepted text forms are modelled, its error kinds are not.
- `serde_json`: the payload document is a fixed text with a reading law, and numbers in query parameters are their text.
- Floating-point `log2` in the fingerprint: replaced by the exact condition on powers of the list length, for lists of at least two words.
- The concrete word list: a list with the conditions the proofs need, which the 7776 words meet: distinct, lowercase letters and hyphens, first pieces distinct, no word a prefix of another.
- The order of hash map iteration in the flat listing: any order.
- wasm_bindgen's naming rules: taken as the Rust name, one `js_name`, the constructor, or the property of a getter or setter, with repeated or malformed arguments refused; static methods, namespaces and classes are not modelled.
- Raw identifiers in `#[wasm_only]`: the panic on them is an error value.
- Migrations after an upgrade (`on_unlock_handler`) and the security state in memory: they touch none of the modelled fields.
- Interleaved syncs: the account state, the key in memory and the PRF options are covered; which of several syncs in flight decides the unlock data and the KDF is not, and theorems about whole runs are about syncs handled in turn.
- Conversion of the server's sync response: field copying that fails before anything is written.
- `AccessTokenError` texts and log output.
- The authenticator and client of the passkey flows, API clients, exporters, policy tables and language bindings: field mapping and plumbing.
