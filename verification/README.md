# DSignal: a verified model

DSignal is a peer-to-peer messenger with four cores: point compression on a prime curve, the X3DH and
Double Ratchet session protocols, a Kademlia store for files, and a gossip layer with a threshold logical
clock, a consensus rule and a hash-linked block chain on top. This project models all four in Dafny and
proves what they promise, over every input, every run or every reachable state; where a promise fails, it
proves exactly when it holds.

`dafny verify dfyconfig.toml` checks the whole project.

Code that updates fields, arrays or linked nodes in place is modelled by classes whose methods are proved
against specification functions; the protocols are then studied as state machines over those functions.
Hashes, key derivation, HMAC, AES-CBC, signatures and scalar multiplication are parameters (`Primitives.Suite`,
`ChunkTree.Hash`, `BlockChain.Sha`), of which only the laws in `Suite.Lawful` and explicit "these inputs do
not collide" hypotheses are used. Random choices (keys, peers, map iteration order), timeouts and the replies
of the network are parameters or left open, so every result holds for all of them. `Instance` shows that the
laws and the distinctness of keys can hold together.

| files | what they hold |
|---|---|
| `NumberTheory`, `Bytes`, `PointCodec` | inverses modulo a prime, Euclid's lemma, Fermat's little theorem; byte encodings; the point codec (sections 2.3.3 and 2.3.4 of SEC 1) |
| `Primitives`, `Aead`, `Ratchet`, `RatchetSession`, `X3dh`, `Instance` | padding (section 6.3 of RFC 5652) and encrypt-then-MAC; one ratchet; two ratchets and a network that drops, delays and reorders; key agreement |
| `XorMetric`, `Sorting`, `Routing`, `NodeLookup`, `ChunkTree` | the XOR metric, the buckets as doubly linked lists, the iterative lookup, files as trees of chunks |
| `GossipStore`, `GossipRuns`, `AntiEntropy` | the vector clock, its interleavings, the status exchange of two peers |
| `MessageRounds`, `Tlc`, `Qsc`, `BlockChain`, `SearchBudget` | rounds, the threshold clock, the decision rule, the chain, the budget of a search |

## Where the code departs from its design

Each of these is part of a statement proved here.

- The ratchet closes an old receiving chain at `header.N` (`adssignal/adsDoubleRatchet.go:127`), not at the
  previous chain length as section 3.5 of "The Double Ratchet Algorithm" has it. Sessions go on decrypting
  (`RatchetSession.EveryRunDecrypts`), but old messages may be lost: `EpochLoses` says which,
  `OnTimeIsExact` when there are none, `LossyRunLoses` gives a run. Of the messages still
  out, those and no others end the session when they come after all (`DeliveryKeepsIff`,
  `LateMessageDerails`).
- A repeated message is not recognised: it takes the key of the next one in order
  (`RatchetSession.RepeatTakesKey`). More generally the ratchet moves before the tag is looked at, so every
  rejected message leaves it elsewhere (`Ratchet.RejectedMoves`); section 3.5 discards such changes.
- `Concat` ignores the additional data it is given (`adssignal/adsAEAD.go:135-145`): what is authenticated is
  the encoded header and the ciphertext (`Aead.OnlyOriginalAccepted`), whatever that data is.
- `Unmarshal` does not check that the point lies on the curve (`PointCodec.DecodedOnCurve` says when it does).
- `IInitializeX3DH` cuts the first message at its first colon (`X3dh.ReturnedFields`).
- The routing table has 8 buckets but admits prefix lengths up to 63: `Routing.OutOfRangeIff` says which
  identifiers index it out of range. A known identifier keeps the address it was first heard with.
- An empty file can be stored but not retrieved (`ChunkTree.EmptyFilePanics`).
- A gossiper never stores messages of its own origin that it receives (`gossiper/gossiphandler.go:46-57`), so
  a status exchange with a peer that lacks some of its own messages goes on for ever
  (`AntiEntropy.IncompleteNeverSyncs`); otherwise it ends (`ExchangeSyncs`).
- A peer whose status waits for message 0 makes the gossiper panic unless that message is stored
  (`AntiEntropy.HandlePeerStatus`).
- The round of a confirmed message is computed before the causal check (`gossiper/blockchainhandler.go:109`),
  and is too low while a smaller confirmed id of its origin is not recorded (`MessageRounds.RankSettled`).
- `saveConfirmation` reads the clock before it writes, so a completed round can still change:
  `Tlc.CompletedRoundFinal` says exactly when, `Tlc.LateSaveChanges` gives a run.
- After a QSC round without consensus, a node's next block names as its parent a block that is in no history,
  and is rejected by every node with that history (`BlockChain.NextAccepted`).
- Which of two equally fit messages is decided can depend on map order (`Qsc.OrderMatters`);
  `Qsc.OrderIrrelevantIff` says exactly when it does not.
- A node that decides a QSC round alone has a different chain from then on (`Qsc.RoundAgreesIff`,
  `TopsAgreeIff`).
- If the list of peers holds duplicates, part of a search budget may be lost (`SearchBudget.BudgetIsSplit`).

## Model

| member | source | states |
|---|---|---|
| NumberTheory.PrimeDividesProduct | adssignal/adsElliptic.go:100-117 | Euclid's lemma, which the two square roots modulo p rest on |
| NumberTheory.Fermat | adssignal/adsElliptic.go:100-117 | Fermat's little theorem, which the exponent (p + 1) / 4 rests on |
| PointCodec.ModSqrt | adssignal/adsElliptic.go:100-117 | the square-and-multiply loop computes a to the (p + 1) / 4 modulo p, for every modulus |
| PointCodec.SqrtCorrect | adssignal/adsElliptic.go:100-117 | for every prime p that is 3 modulo 4, the result squares to a if and only if a is a square |
| PointCodec.SqrtOfEither | adssignal/adsElliptic.go:100-117 | for every a the result is a root of a or of -a |
| PointCodec.SameSquare | adssignal/adsElliptic.go:58-88 | there are only two candidates for y, opposite to each other |
| PointCodec.Marshal | adssignal/adsElliptic.go:45-55 | the byte buffer holds the parity byte and x, left-padded with zeros to the byte length of the field |
| PointCodec.CompressedForm | adssignal/adsElliptic.go:45-55 | the bytes of a compressed point: 2 or 3 by the parity of y, then x as a big-endian number |
| PointCodec.Unmarshal | adssignal/adsElliptic.go:58-88 | the decoded x with the root of the right-hand side that has the parity of the first byte; what is not compressed goes to the decoder of uncompressed points |
| PointCodec.EquationHolds | adssignal/adsElliptic.go:67-76 | the right-hand side as it is computed is that of the curve equation |
| PointCodec.ParityPicks | adssignal/adsElliptic.go:80-85 | of the two candidates, the parity byte picks the original y |
| PointCodec.CurvePointRoundTrip | adssignal/adsElliptic.go:45-88 | every point of the curve survives compression |
| PointCodec.DecodeEncode | adssignal/adsElliptic.go:45-88 | for reduced coordinates, the round trip holds exactly when y is a root of the right-hand side or of its opposite |
| PointCodec.EncodeDecode | adssignal/adsElliptic.go:45-88 | every compressed form is reproduced by decoding and encoding |
| PointCodec.DecodedOnCurve | adssignal/adsElliptic.go:58-88 | the decoded point satisfies the equation exactly when the right-hand side at x is a square |
| Bytes.PaddedMinimal | adssignal/adsElliptic.go:45-55 | left-padding the minimal bytes of x gives its fixed-length encoding |
| Bytes.FixedBytesValue | adssignal/adsElliptic.go:45-88 | the left-padded x bytes decode to x |
| Bytes.BigEndianBytes | adssignal/adsElliptic.go:45-88 | and every byte string is the encoding of the number it decodes to |
| Primitives.PubBytesDecode | adssignal/adsElliptic.go:31-42 | a compressed public key decodes to that key |
| Aead.Padd | adssignal/adsAEAD.go:97-115 | the padded text, up to the next multiple of 16: the text, then bytes each of which equals the number of bytes added |
| Aead.Unpadd | adssignal/adsAEAD.go:118-132 | removes well-formed padding, and returns anything else untouched |
| Aead.UnpadPad | adssignal/adsAEAD.go:97-132 | unpadding inverts padding, for every text |
| Aead.Pad | adssignal/adsAEAD.go:97-115 | padded text is a positive multiple of the block size |
| Aead.DecryptInvertsEncrypt | adssignal/adsAEAD.go:18-94 | decryption under the same key and header returns the plaintext |
| Aead.MacInputInjective | adssignal/adsAEAD.go:37-44 | the authenticated string determines header encoding and ciphertext body |
| Aead.TaggedParts | adssignal/adsAEAD.go:27-54 | the parts of an encrypted message: additional data, encrypted padded text, and 16 bytes of the code of both and a length |
| Aead.OnlyOriginalAccepted | adssignal/adsAEAD.go:66-83 | under an encrypted message's tag, and unless the tag collides, exactly that body under an equally encoded header is accepted and decrypts to anything |
| Ratchet.DRatchetState.SInitializeRatchet | adssignal/adsDoubleRatchet.go:70-80 | the initiator's fields after its first root-key step |
| Ratchet.DRatchetState.RInitializeRatchet | adssignal/adsDoubleRatchet.go:83-93 | the responder's fields |
| Ratchet.DRatchetState.RatchetEncrypt | adssignal/adsDoubleRatchet.go:96-110 | message and new fields equal those of Encrypt, the function the session is built on; the header names this origin and destination |
| Ratchet.DRatchetState.SkipMessageKeys | adssignal/adsDoubleRatchet.go:155-168 | the loop stores the keys from Nr up to the given number, like Skip |
| Ratchet.DRatchetState.DHRatchet | adssignal/adsDoubleRatchet.go:171-186 | both root-key steps, and the counters set back |
| Ratchet.DRatchetState.TrySkippedMessageKeys | adssignal/adsDoubleRatchet.go:140-152 | a stored key is used up even when it does not open the message |
| Ratchet.DRatchetState.RatchetDecrypt | adssignal/adsDoubleRatchet.go:113-137 | plaintext and new fields equal those of Decrypt, through all three branches |
| Ratchet.DRatchetState.ReceiveNext | adssignal/adsDoubleRatchet.go:120-136 | the branch without a stored key |
| Ratchet.FallsThrough | adssignal/adsDoubleRatchet.go:114-118 | a stored key that fails to open the message leaves the ratchet as if it had not been stored |
| Ratchet.RejectedMoves | adssignal/adsDoubleRatchet.go:113-137 | every rejected message moves the ratchet, to a later number or another remote key |
| RatchetSession.SkipKeeps | adssignal/adsDoubleRatchet.go:155-168 | skipping moves the receiver along the sender's chain and stores exactly the sender's keys it passes |
| RatchetSession.TwoRootSteps | adssignal/adsDoubleRatchet.go:171-186 | a DH step lands on the shared root and chain keys, two levels on |
| RatchetSession.StoredIffPending | adssignal/adsDoubleRatchet.go:113-168 | a key is stored exactly when its message was skipped and has not come |
| RatchetSession.SendKeeps | adssignal/adsDoubleRatchet.go:96-110 | sending keeps the invariant of both peers and the network |
| RatchetSession.StoredKeeps | adssignal/adsDoubleRatchet.go:140-152 | so does delivering a message whose key is stored, |
| RatchetSession.CurrentKeeps | adssignal/adsDoubleRatchet.go:131-136 | one further on the current chain, |
| RatchetSession.NewEpochKeeps | adssignal/adsDoubleRatchet.go:126-136 | and one that opens a new epoch, on time or not |
| RatchetSession.StepKeeps | adssignal/adsDoubleRatchet.go:96-186 | every step of a session keeps the invariant, whatever the network has dropped, delayed or reordered, unless it delivers a lost message |
| RatchetSession.InitialInv | adssignal/adsDoubleRatchet.go:70-93 | which the two initial states satisfy |
| RatchetSession.EveryRunDecrypts | adssignal/adsDoubleRatchet.go:70-186 | over every run of any number of epochs, with any messages dropped, each delivered message decrypts to what was sent, one peer is exactly one root-key step ahead, both lie on the shared key schedule and store exactly the keys they have derived and not used |
| RatchetSession.EveryMessageMade | adssignal/adsDoubleRatchet.go:96-110 | over every run, every message in the network carries the text of a send of that run and names its origin and destination |
| RatchetSession.DeliveryKeepsIff | adssignal/adsDoubleRatchet.go:113-137 | a delivery keeps the session if and only if the message was not lost when its chain was closed |
| RatchetSession.EpochLoses | adssignal/adsDoubleRatchet.go:126-129 | the old messages a new epoch loses are exactly those from the number on at which the chain is closed |
| RatchetSession.OnTimeIsExact | adssignal/adsDoubleRatchet.go:126-129 | the old messages still out all keep a key across a new epoch if and only if its first message is on time |
| RatchetSession.LossyRunLoses | adssignal/adsDoubleRatchet.go:126-129 | a run of seven steps that loses a message and goes on |
| RatchetSession.LateMessageDerails | adssignal/adsDoubleRatchet.go:126-129 | a lost message makes the receiver step its root key back to the old remote key |
| RatchetSession.RepeatTakesKey | adssignal/adsDoubleRatchet.go:131-134 | a message of the current chain without a stored key is opened with its own key exactly when its number is not passed; otherwise, as when it is repeated, the next message in order, and no other, loses its key |
| RatchetSession.ReceiverOnChain | adssignal/adsDoubleRatchet.go:155-168 | every receiver of a session is in the position this is about |
| RatchetSession.FirstExchange | adssignal/adsDoubleRatchet.go:70-137 | the initiator's first message opens at the responder |
| X3dh.SelfIdentity.GenerateIdentity | adssignal/adsX3DH.go:70-85 | a new identity signs its signed key |
| X3dh.SelfIdentity.UpdateIdentity | adssignal/adsX3DH.go:88-96 | a new signed key is signed again, the rest stays |
| X3dh.SignatureVerifies | adssignal/adsX3DH.go:70-105 | identities so made pass the sender's signature check |
| X3dh.SecretsAgree | adssignal/adsX3DH.go:109-181 | sender and receiver derive the same secret, with or without a one-time key: that of the three or four Diffie-Hellman values of section 3.3 of "The X3DH Key Agreement Protocol" |
| X3dh.GivenKeyAgrees | adssignal/adsX3DH.go:157-181 | also when the receiver is handed the one-time key |
| X3dh.OwnKeyAgrees | adssignal/adsX3DH.go:221-236 | and when it looks up any key it has published |
| X3dh.FindKey | adssignal/adsX3DH.go:223-228 | finds a key with the wanted compressed form, if there is one |
| X3dh.FirstMessageOpens | adssignal/adsX3DH.go:99-254 | the receiver's first decryption gives the sender's text, and both states are those of a ratchet session |
| X3dh.OwnKeyOpens | adssignal/adsX3DH.go:99-254 | the very message sent for a published one-time key opens, at the receiver that looks up the key the message names, to the text and names of the sender |
| X3dh.GivenKeyOpens | adssignal/adsX3DH.go:99-199 | likewise at the receiver that is handed the private one-time key of the public one it was sent for |
| X3dh.NoKeyOpens | adssignal/adsX3DH.go:99-254 | and so does a message sent without one-time key, whatever key the receiver is given or has |
| X3dh.StateTable.SInitializeX3DH | adssignal/adsX3DH.go:99-154 | the message, which names the identity, ephemeral and one-time keys, sender and receiver, and the new session, filed under the receiver; nothing exactly when the signature does not verify |
| X3dh.StateTable.RInitializeX3DH | adssignal/adsX3DH.go:157-199 | the session is filed under the first field of the text, the second is returned |
| X3dh.StateTable.IInitializeX3DH | adssignal/adsX3DH.go:202-254 | likewise with the third field |
| X3dh.ReturnedFields | adssignal/adsX3DH.go:135-138 | the third field is the message exactly when that holds no separator |
| X3dh.FiledUnderSender | adssignal/adsX3DH.go:194-196 | the session is filed under the sender's name exactly when that holds no separator |
| XorMetric.Compare | storage/utils.go:22-36 | negative, zero or positive as the numbers compare that the bytes stand for in little-endian order; 0 for different lengths |
| XorMetric.XorDistance | storage/utils.go:47-57 | the bytewise exclusive or, nothing for wrong lengths |
| XorMetric.Triangle | storage/utils.go:22-57 | the triangle inequality |
| XorMetric.Symmetric | storage/utils.go:47-57 | symmetry |
| XorMetric.DistInjective | storage/utils.go:47-57 | from a given point different identifiers are at different distances; distance zero only to itself |
| XorMetric.MaxPrefixLen | storage/utils.go:83-96 | the exact number of leading bits shared, -1 for wrong lengths |
| XorMetric.LongerPrefixCloser | storage/utils.go:47-96 | a longer common prefix with the target means strictly closer |
| XorMetric.SetPrefix | storage/utils.go:65-80 | every bit of the result: from the prefix for the highest prefLen bits, unchanged below |
| XorMetric.PrefixMask | storage/utils.go:71-75 | the mask loop sets the highest prefLen bits |
| XorMetric.PrefixReached | storage/utils.go:65-96 | after SetPrefix at least prefLen bits are shared, and the lower ones are as before |
| Routing.Unlink | storage/rtable.go:94-101 | bypassing a node leaves a list linked both ways |
| Routing.LinkLast | storage/rtable.go:102-105 | so does adding one after the tail |
| Routing.Bucket.MoveToTail | storage/rtable.go:91-106 | a known entry moves to the tail, all other order kept, forward list, backward list and map in agreement |
| Routing.Bucket.Append | storage/rtable.go:109-118 | a new entry becomes the tail |
| Routing.Bucket.EvictHead | storage/rtable.go:121-125 | the head leaves list and map |
| Routing.Bucket.Refresh | storage/rtable.go:91-138 | the four outcomes of an update of one bucket |
| Routing.RoutingTable.UpdateBucket | storage/rtable.go:85-138 | no other bucket changes, sizes stay within replicationParam, and every entry sits in the bucket of its prefix length |
| Routing.RoutingTable.Update | storage/rtable.go:79-139 | the same with the bucket chosen by prefix length; nothing for ourselves or a malformed identifier |
| Routing.OnlyDeadHeadEvicted | storage/rtable.go:119-137 | an update forgets nobody but an unresponsive head of a full bucket |
| Routing.OutOfRangeIff | storage/rtable.go:43-85 | the identifiers that index the table out of range are those, other than our own, with our most significant byte |
| Routing.Bucket.Walk | storage/rtable.go:63-69 | following next from the head meets every entry once, in order |
| Routing.RoutingTable.FindKClosest | storage/rtable.go:55-76 | at most k entries of the buckets in strictly increasing distance; an entry of any bucket that is left out is further than all of k returned |
| Routing.RoutingTable.InAllEntries | storage/rtable.go:63-69 | the list that is sorted and cut has the entries of every bucket, and no others |
| Routing.CutIsClosest | storage/rtable.go:70-75 | sorting and cutting gives that result |
| Sorting.SortKeeps | storage/rtable.go:70 | a sort orders, and neither drops, makes nor duplicates elements |
| NodeLookup.NodeLookUp | storage/lookup.go:13-136 | for any replies: the search ends, asks each identifier at most once, and returns at most k learned nodes, strictly sorted, each asked and heard from; everything learned and left out was asked and not heard from, or is further than all k results |
| NodeLookup.RepliedMeans | storage/lookup.go:59-71 | an identifier was heard from exactly when a wait brought a reply: while gathering, one that names it when it was known; afterwards, one to the request to it |
| NodeLookup.ContactClosest | storage/lookup.go:43-58 | one round asks exactly the entries of the list not yet asked up to some position, at most concurrencyParam, and all of them if fewer |
| NodeLookup.Gather | storage/lookup.go:59-85 | one wait for each request; the bookkeeping of who is known, and who replied, stays what the network said; improvement is claimed exactly when a reply taken brings a node that displaces one of the first k |
| NodeLookup.TakeKeeps | storage/lookup.go:60-84 | so for each wait: a reply counts for its source if that is known, and is ignored otherwise |
| NodeLookup.AbsorbReply | storage/lookup.go:73-84 | the nodes of a reply not known before are added once each; exactly when one of them displaces one of the first k it says so |
| NodeLookup.LearnKeeps | storage/lookup.go:73-84 | which leaves what was known as it was |
| NodeLookup.SettleOne | storage/lookup.go:91-118 | a pass finds the first k all heard from, or up to the first that was not: that one is dropped if it was asked, and asked if not |
| NodeLookup.AskKeeps | storage/lookup.go:98-114 | a request of the final phase counts for the identifier asked, and only if it is replied to |
| NodeLookup.Settle | storage/lookup.go:90-133 | the final phase ends with a lookup result |
| NodeLookup.FrontIsResult | storage/lookup.go:119-131 | a sorted, settled list has the result at its front |
| NodeLookup.RemainingDrops | storage/lookup.go:39-135 | each new identifier leaves fewer in the finite space, which is why the search ends |
| ChunkTree.ChunkStore.Store | storage/chunk_store.go:27-42 | the first value under a key stays; the key list holds each key once |
| ChunkTree.ChunkStore.Get | storage/chunk_store.go:45-51 | the value under a key, if any |
| ChunkTree.DStore.StoreChunks | storage/store.go:155-163 | the loop writes every chunk and accumulates their keys |
| ChunkTree.DStore.StoreFile | storage/store.go:154-175 | store and key equal those of StoreTree; the key has the type of a metafile, the hash type and its hash length |
| ChunkTree.DStore.FetchAll | storage/store.go:138-146 | the loop gives the chunks under the keys, or fails on the first missing one |
| ChunkTree.FetchOutcome | storage/store.go:138-146 | a fetch succeeds exactly when all keys are whole and their chunks stored; it fails as missing exactly when the chunk of a whole key is not stored |
| ChunkTree.DStore.RetrieveFile | storage/store.go:134-151 | data, absence or panic as in RetrieveTree |
| ChunkTree.MetaFileShrinks | storage/store.go:165-174 | a metafile of at least a chunk is strictly shorter than its data, which is why storing ends |
| ChunkTree.MetaFileSize | storage/store.go:155-163 | a metafile holds one key of two bytes and a hash for each full or partial chunk of 4096 bytes |
| ChunkTree.RetrieveStored | storage/store.go:134-175 | retrieving a stored non-empty file gives it back, for every hash type and tree depth, unless its chunks collide |
| ChunkTree.StoreTreeHolds | storage/store.go:134-175 | the same for every level of the tree |
| ChunkTree.EarlierFilesStay | storage/chunk_store.go:27-42 | storing a file, even one that collides, changes nothing that could be retrieved before |
| ChunkTree.StoreTreeAddressed | storage/store.go:154-175 | storing keeps every chunk filed under its hash |
| ChunkTree.AddressedAgrees | storage/chunk_store.go:27-51 | in such a store only a collision can put another chunk under a key |
| ChunkTree.EmptyFilePanics | storage/store.go:134-175 | an empty file is stored but its retrieval panics |
| GossipStore.Least | gossiper/status.go:14-34 | the least number, from a given one, that is not stored |
| GossipStore.GossipHandler.UpdateStatus | gossiper/status.go:14-34 | the loop advances the clock of the origin to the least number not stored |
| GossipStore.GossipHandler.StoreMessage | gossiper/gossiphandler.go:96-107 | the first message under a number stays, every other message stays as it was, only this one is added, and every clock remains the least number not stored |
| GossipStore.GossipHandler.LoadOrStore | gossiper/gossiphandler.go:98-101 | the insertion alone, with the same promises on the stored messages |
| GossipStore.GossipHandler.CreateMyStatusPacket | gossiper/status.go:45-58 | the status packet says exactly the clock |
| GossipStore.GossipHandler.GetPeerStatusForPeer | gossiper/status.go:61-80 | a message the other side waits for, or none when no clock of ours is ahead |
| GossipStore.GossipHandler.CheckIfINeedPeerStatus | gossiper/status.go:83-97 | true exactly when the other side is ahead for some origin |
| GossipStore.GossipHandler.GetPacketFromPeerStatus | gossiper/status.go:37-42 | the stored packet, or a panic when there is none |
| GossipStore.StoreKeepsClock | gossiper/gossiphandler.go:96-107 | a store followed by its update keeps every clock the least number not stored |
| GossipRuns.StepKeeps | gossiper/gossiphandler.go:96-107 | each step of interleaved stores keeps: below the clock all is stored, and a clock that lags is attended to |
| GossipRuns.StepGrows | gossiper/status.go:14-34 | clocks and stores never go back |
| GossipRuns.RunKeeps | gossiper/gossiphandler.go:96-107 | the same over every run |
| GossipRuns.ClocksAreLeast | gossiper/status.go:14-34 | under every interleaving, everything below a clock is stored, and with no call in progress each clock is the least number not stored |
| GossipRuns.PickedPacketFound | gossiper/status.go:37-80 | the packet picked for a peer is found at any later moment, given that it waits for a number from 1 on |
| AntiEntropy.HandlePeerStatus | gossiper/rumormongering.go:114-139 | which packet answers a status: a stored message the peer waits for, our status if only we lack something, none if in sync; a panic only for a peer that waits for a message 0 which is not stored |
| AntiEntropy.Answer | gossiper/rumormongering.go:121-137 | the answer to a peer's own status is a step of the exchange, or the peers are in sync |
| AntiEntropy.HandleGossipMessage | gossiper/gossiphandler.go:46-61 | a received message is stored unless it is our own, nothing stored before changes, and the status sent back says exactly the new clock |
| AntiEntropy.Synchronise | gossiper/rumormongering.go:114-139 | two handlers, each complete in its own messages, that handle each other's packets stop and end with both clocks the least number missing from what they had together; no packet of either is lost or changed, and each packet in the end is one that one of them held at the start |
| AntiEntropy.MessageRaisesClock | gossiper/gossiphandler.go:46-61 | a message sent raises the receiver's clock exactly when it is not of the receiver's own origin |
| AntiEntropy.StepKeeps | gossiper/rumormongering.go:114-139 | no message is lost and each packet is paid for by a bound |
| AntiEntropy.StopsOnlyInSync | gossiper/rumormongering.go:121-137 | the exchange stops exactly when neither branch applies |
| AntiEntropy.DoneMeansInSync | gossiper/rumormongering.go:131-136 | then both clocks are equal, and the least number missing from both stores together |
| AntiEntropy.ExchangeSyncs | gossiper/rumormongering.go:114-139 | an exchange takes at most three packets per missing message and one more, and ends with both clocks the least number missing from the union of the initial stores |
| AntiEntropy.IncompleteNeverSyncs | gossiper/gossiphandler.go:46-57 | if a peer lacks a message of its own that would raise its clock, the exchange never ends |
| AntiEntropy.IncompleteHasGap | gossiper/gossiphandler.go:46-57 | the two conditions are complementary |
| MessageRounds.TlcStatus.GetMessageOriginalRound | gossiper/blockchainhandler.go:231-257 | counts the known confirmed ids below the given one, in 32 bits for unconfirmed messages |
| MessageRounds.TlcStatus.CheckForCausalProperty | gossiper/blockchainhandler.go:260-288 | a confirmed message is accepted and recorded exactly when nothing its sender had seen is missing |
| MessageRounds.RankOrders | gossiper/blockchainhandler.go:231-257 | later confirmed messages of an origin are in later rounds, |
| MessageRounds.RoundsFilled | gossiper/blockchainhandler.go:231-257 | and fill the rounds from 0 on |
| MessageRounds.RankGrows | gossiper/blockchainhandler.go:231-257 | a late confirmed id moves exactly the messages above it up by one round |
| MessageRounds.NewestIsLast | gossiper/blockchainhandler.go:231-257 | a message is in the round after all known ones exactly when it is the newest |
| MessageRounds.RankSettled | gossiper/blockchainhandler.go:109 | the round computed is never too high, and the message's own if and only if every smaller confirmed id of its origin has been recorded |
| Tlc.BlockchainHandler.CheckRound | gossiper/blockchainhandler.go:170-175 | the first half of saveConfirmation: the clock is read |
| Tlc.BlockchainHandler.StoreConfirmation | gossiper/blockchainhandler.go:177-183 | the second half: the confirmation is written, whatever the clock has become |
| Tlc.BlockchainHandler.CheckForConfirmationsMajority | gossiper/tlc.go:121-158 | with a majority the clock advances, and the node confirms its message unless it has |
| Tlc.BlockchainHandler.Enter | gossiper/tlc.go:32-47 | a round starts, is complete at once, or waits with itself as witness |
| Tlc.BlockchainHandler.HandleAck | gossiper/tlc.go:56-83 | acknowledgements of the message gossiped, and of no other, add witnesses; a majority makes the node confirm its message, once |
| Tlc.BlockchainHandler.HandleConfirm | gossiper/tlc.go:86-89 | a notification is acted on only with a majority |
| Tlc.BlockchainHandler.GossipWithConfirmation | gossiper/tlc.go:22-100 | the event loop is a run of the state machine and stops at the first event that completes the round |
| Tlc.StepKeeps | gossiper/tlc.go:22-158 | each step keeps every round below the clock confirmed by a majority |
| Tlc.RoundsAreConfirmed | gossiper/tlc.go:22-158 | in every reachable state each completed round has sent one confirmation, backed by a majority of witnesses, and its own counts in the round it waits in; with a resend timer these are, in order, for the messages gossiped, and "no new round" is never reported |
| Tlc.AcksCount | gossiper/tlc.go:56-83 | over every run, a waiting node's witnesses are itself and acknowledgers of its message, all of them until it confirms; every confirmation sent is for the message gossiped and names exactly those, or the confirmers of the round just completed |
| Tlc.AckedMeans | gossiper/tlc.go:56-66 | who has acknowledged a message: whoever sent an acknowledgement of its id since the last message was gossiped |
| Tlc.RoundLeft | gossiper/qsc.go:27-29 | a TLC round returns only when the clock has passed it |
| Tlc.ClockMovesIff | gossiper/tlc.go:121-158 | the clock moves exactly when the client looks at a round that more than half have confirmed |
| Tlc.ThreeLeft | gossiper/qsc.go:26-80 | whoever leaves the third TLC round of a consensus round has left the first two, in this order |
| Tlc.PhaseAfter | gossiper/qsc.go:26-80 | a consensus round goes on to its third TLC round and ends with it |
| Tlc.NoTimerNoRound | gossiper/qsc.go:27-33 | without the timer "no new round" is reported |
| Tlc.SharedWitness | gossiper/tlc.go:56-83 | any two confirmations of any two nodes have a witness in common |
| Tlc.SharedConfirmer | gossiper/tlc.go:121-158 | two nodes that completed a round share a confirming origin |
| Tlc.CompletedRoundFinal | gossiper/blockchainhandler.go:170-198 | a completed round never changes again if and only if no write that changes it is under way |
| Tlc.RunFreezes | gossiper/blockchainhandler.go:170-198 | without such a write no later step changes it |
| Tlc.SaveTakes | gossiper/blockchainhandler.go:170-198 | a confirmation is saved exactly when its round is not over, under its round and origin, and disturbs no other |
| Tlc.LateSaveChanges | gossiper/blockchainhandler.go:170-198 | in any network of three, a run to a completed round that is not final |
| Qsc.GetTLCWithHighestFitness | gossiper/utils.go:183-197 | a message of greatest fitness, or the empty one when none is positive, in any map order |
| Qsc.CheckIfConsensusReached | gossiper/qsc.go:161-192 | consensus on a best message that no message seen rivals and the second step reconfirmed, otherwise none; panic when nothing was seen |
| Qsc.QscRound | gossiper/qsc.go:13-122 | what is gossiped in each step, and how the chain changes in each way the round can end |
| Qsc.QscRoundOfNode | gossiper/qsc.go:26-80 | on what one run of a node's clock has collected each time it leaves one of three TLC rounds, none of the three lookups fails, and both proposals are best among confirmations of a majority |
| Qsc.Agreement | gossiper/qsc.go:161-192 | two deciding nodes choose the same block if the one with the less fit decision has seen the other's |
| Qsc.OrderIrrelevantIff | gossiper/qsc.go:161-192 | map order does not matter if and only if no best message is for another block than one that can be decided |
| Qsc.OrderIrrelevantWhenSeen | gossiper/qsc.go:178-183 | so it does not to a node that has seen the blocks of its best messages |
| Qsc.OrderMatters | gossiper/qsc.go:161-192 | of two equally fit messages either may be decided when everything seen is less fit |
| Qsc.RoundAgrees | gossiper/qsc.go:87-98 | then both nodes commit the same name and metafile hash |
| Qsc.RoundAgreesIff | gossiper/qsc.go:87-122 | from equal tops, a round leads to equal tops if and only if both nodes decide the same or both decide nothing |
| Qsc.NodesAgree | gossiper/qsc.go:87-122 | over any number of such rounds both nodes decide the same transactions, have the same top and chains that list the same names |
| Qsc.TopsAgreeIff | gossiper/qsc.go:87-122 | over any rounds, whoever decides when, the tops are equal if and only if the same transactions were decided in the same order |
| BlockChain.TopFixesChain | gossiper/utils.go:200-218 | two hash chains whose blocks do not collide have the same top if and only if they are of the same transactions |
| BlockChain.TopAfter | gossiper/qsc.go:94-98 | the top only depends on what was decided |
| BlockChain.HashBinds | gossiper/utils.go:200-218 | a block's hash fixes parent, name and metafile hash, and nothing else |
| BlockChain.TxPreimageInjective | gossiper/utils.go:210-218 | the length prefix separates name and metafile hash |
| BlockChain.Blockchain.Commit | gossiper/qsc.go:94-98 | the block is linked to the top, stored under its hash, and becomes top and previous block; nothing else in the history changes |
| BlockChain.Blockchain.Propose | gossiper/qsc.go:111-112 | only the hash of the previous block changes |
| BlockChain.Blockchain.IsTxBlockValid | gossiper/qsc.go:125-158 | on a chain the walk ends; true exactly when the name is not taken and the parent is committed or zero |
| BlockChain.Blockchain.Filenames | gossiper/printhandler.go:136-144 | on a chain the walk ends and meets each committed name once, listing them from the oldest |
| BlockChain.TrailDistinct | gossiper/qsc.go:143-154 | a walk that ends meets no block twice |
| BlockChain.CommitExtends | gossiper/qsc.go:94-98 | a fresh commit makes the chain one block longer |
| BlockChain.CommitBreaks | gossiper/qsc.go:94-98 | any other commit breaks it |
| BlockChain.ChainAfter | gossiper/qsc.go:87-122 | a run of rounds ends with one acyclic chain from top to zero through every committed block if and only if each commit was fresh; otherwise it is broken for good |
| BlockChain.FreshUnlessClash | gossiper/utils.go:200-207 | a commit is fresh if and only if its hash is not zero and collides with no block of the history |
| BlockChain.FreshRunUnlessClash | gossiper/qsc.go:87-122 | the same for whole runs |
| BlockChain.RunListsNames | gossiper/qsc.go:87-122 | the chain lists the decided names in the order of their rounds |
| BlockChain.NextAccepted | gossiper/blockchainhandler.go:75-76 | when the next block a node publishes is accepted, after a decision and after none |
| BlockChain.PublishedAfter | gossiper/blockchainhandler.go:75-76 | after a decision the next block published names the new top as its parent, after none the best proposed block |
| SearchBudget.DifferenceString | helpers/generalhelpers.go:37-50 | the addresses of the first list that are not in the second, as often as they are there and in order |
| SearchBudget.WithoutParts | helpers/generalhelpers.go:37-50 | which treats each address on its own, keeping order and repetitions |
| SearchBudget.ForwardSearchRequestWithBudget | gossiper/filesearching.go:178-220 | the loop ends; each available peer gets at most one request, with the even share and at most one more, and the sender gets none |
| SearchBudget.BudgetIsSplit | gossiper/filesearching.go:178-220 | no budget is zero, no two differ by more than one, and the sum is the incoming budget if and only if the available peers are distinct or the distinct ones are at least as many as the budget |

## Left out

- Aead.DecryptInvertsEncrypt: AES, CBC, HMAC, HKDF, SHA and the curve's own arithmetic are parameters; that P-256's modulus is prime is the hypothesis `Curve.Valid`.
- PointCodec.Unmarshal: the standard library's decoder of uncompressed points is a parameter, of which nothing is said.
- RatchetSession.EveryRunDecrypts: messages are delivered as sent, at most once, and not once their key is lost; DeliveryKeepsIff and RepeatTakesKey say what happens otherwise. That ratchet keys have distinct fingerprints is a hypothesis.
- Ratchet.DRatchetState.SkipMessageKeys: MaxSkip only prints a line; the counters are unbounded where the code has 64-bit ones.
- Aead.Padd: the functions around it, EncryptAEAD and DecryptAEAD, are modelled on values, not on byte buffers they fill.
- X3dh.StateTable.IInitializeX3DH: the panic on a text with too few fields is a precondition, as are undecodable points.
- Routing.RoutingTable.Update: called only when the bucket exists; OutOfRangeIff says when it does not. The lock is not modelled, and the answer to the ping is a parameter.
- NodeLookup.NodeLookUp: an identifier of the wrong length inside a reply is not modelled, and a pair of the list is represented by its key in the map. The replies of one round are numbered as they arrive.
- ValueLookUp: the same loop with an early exit; its reply branch reads a field the handler does not fill (storage/lookup.go:218, storage/handlers.go:71).
- ChunkTree.DStore.RetrieveFile: the recursion has no bound in the code, so the model counts calls; a result is claimed once the count suffices. An incomplete last key is taken to panic, as it does when the slice has no spare capacity. The nodes that hold the replicas are one store.
- GossipStore.GossipHandler.UpdateStatus: message number 0xFFFFFFFF is excluded; past it the code's counter wraps round.
- AntiEntropy.ExchangeSyncs: two peers and no other traffic; a message and the status it provokes count as two packets of one step.
- Tlc.RoundsAreConfirmed: a node's own messages do not reach its handler (gossiper/mainhandler.go:24). The clock is unbounded where the code has 32 bits; the mode that waits for acknowledgements only is not modelled, nor resending.
- Qsc.GetTLCWithHighestFitness: fitness is a real number; values that are not numbers are excluded. The maps are those of one moment, while the code keeps a reference to them; Tlc.CompletedRoundFinal says when that makes no difference.
- The rumour coin, private routing, file download, the whisper and secure packages, the web server, persistence and the user interface, including the chain listing of gossiper/uifunctions.go:61, which follows the top block at every step.
- UncompressIdentity and CompressRatchet: they share loop variables and dereference absent keys (adssignal/adsX3DH.go:319-327, adssignal/adsDoubleRatchet.go:261-278), so reloading is not modelled.
