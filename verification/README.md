# Verified model of the BFT protocol stack

A Dafny 4.11 model of the asynchronous Byzantine fault-tolerant protocols of the
repository (HoneyBadgerBFT, Dumbo and Mule) and of the algebra under them, with
proofs of what the protocols are for. `dafny verify dfyconfig.toml` checks it.

## What is modelled

The lower layers are transition systems of N nodes, N >= 3f + 1, of which at most
f are Byzantine. Each node is given by step functions: one step handles one
message, or runs the main loop from one wait to the next. A run is any finite
sequence of steps from the initial state; messages arrive in any order, may be
lost and may arrive again. A Byzantine sender may send anything; an honest one
only what it has sent. The theorems hold in every state that some run reaches.
For each node there is also a class whose fields and methods follow the source
statement by statement; every method is proved to compute exactly the step
function that the theorems are about. `log` fields record the past (estimates,
CONF messages, values and decisions by round) and are never read by the code.

| layer | modules | source |
|---|---|---|
| sets, quorums, signatures | FiniteSets, Quorums, Signatures, Options, Tables, PowersOfTwo, ByteStrings | |
| number theory, primality | NumberTheory, MillerRabin | crypto/threshsig/millerrabin.py |
| threshold algebra | Interpolation, ThresholdSignature, ThresholdEncryption | crypto/threshsig/boldyreva.py, crypto/threshenc/tpke.py |
| common coin | CommonCoin | honeybadgerbft/core/commoncoin.py |
| binary agreement | BinaryAgreement, BinaryAgreementNode, BinaryAgreementSafety, BinaryAgreementDecisions, BinaryAgreementRecords, BinaryAgreementProgress, BinaryAgreementWaits, BinaryAgreementQuit | honeybadgerbft/core/binaryagreement.py, dumbobft/core/baisedbinaryagreement.py |
| reliable broadcast | MerkleTree, Erasure, ReliableBroadcast, ReliableBroadcastNode, ReliableBroadcastSafety, ReliableBroadcastDelivery, ProvableBroadcast, ProofValidity, ProofRejected | honeybadgerbft/core/reliablebroadcast.py, dumbobft/core/provablereliablebroadcast.py, dumbobft/core/validators.py |
| two-value agreement | TwoValueAgreement, TwoValueNode, TwoValueSafety, TwoValueDecisions, TwoValueRecords, TwoValueProgress, TwoValueWaits, TwoValueDeadlock, TwoValueSilence | mulebft/core/twovalueagreement.py |
| Mule epoch | FastPath, FastPathNode, FastPathSafety, FastPathBatches, FastPathProgress | mulebft/core/hsfastpath.py, mulebft/core/mule.py |
| common subset | CommonSubset, CommonSubsetSafety | honeybadgerbft/core/commonsubset.py |
| validated agreement | ConsistentBroadcast, ConsistentBroadcastSafety, ConsistentBroadcastDelivery, ValidatedAgreement, ValidatedAgreementSafety, ValidatedAgreementMessages | dumbobft/core/consistentbroadcast.py, dumbobft/core/validatedagreement.py, dumbobft/core/validators.py |

The upper layers are composed with the proved lower ones: CommonSubsetSafety
joins the runs of N nodes with actual runs of N binary agreements and N reliable
broadcasts, ValidatedAgreementSafety with runs of the agreements, the input
broadcasts and the common coin, and FastPathSafety.EpochSlot feeds the two-value
agreement with what an epoch's view change has collected.

## Abstractions

- A hash is an arbitrary function; where digests must have one length, 32 bytes.
  It is never assumed to be injective: results read "the claim holds, or here
  are two strings with one digest".
- A signature is an ideal token, one for each signer and digest. A token of an
  honest signer exists only if that signer has made it. Signers of one provable
  broadcast sign digests of that broadcast's sid only.
- `zfec` is a black box with 1 <= K <= N <= 256 of which any K indexed stripes
  give the K blocks back; on other sizes it raises.
- Groups are modelled in the exponent over Z_p with p prime and larger than the
  number of players; a pairing check is an equality of products modulo p.
- The common coin of an agreement is a function of the round, which
  CommonCoin.CoinAgreement justifies. The permutation of the validated agreement
  is a function of the coin. Random bases, coefficients and exponents, the
  transactions drawn by a leader, and the result of the external predicate are
  parameters.
- Messages are well typed (integers where the source compares or indexes with
  integers, node numbers that are natural numbers, tuples without repeated
  entries) and channels authenticate the sender.
- In the two-value agreement a tuple of int_values is taken as the set of its
  entries. For the pairs of consecutive slot numbers that occur, Python orders
  such a set in one way at every node.
- `ceil(math.log(N, 2))` is taken as exact.
- The fast path is modelled with nodes that may stop at any time but do not lie.
  A timer may fire at any wait inside one_slot, and may lose the item that
  one_slot has already taken from its queue.

## Where the code promises less than its comments

- `decode(encode(m))` is `m` exactly when the padding character can be read back
  from its last byte, which holds for all lengths only up to K = 128: from 128 on
  `chr(c).encode()` has two bytes. Erasure.RoundTrip gives the exact condition,
  Erasure.RoundTripFails an input. The assertion in `encode` allows K <= 256.
- The receive loop of the two-value agreement counts FINISH messages, not their
  senders. TwoValueSafety.AgreementExactly shows that its agreement holds in all
  runs if and only if no node is Byzantine or no sender's FINISH is counted twice.
- The two-value agreement can block for good. `send(-2, ...)` reaches everyone
  else and a relayed EST is not counted at the node itself, so int_values spread
  to all honest nodes only if there are 2f + 2 of them
  (TwoValueProgress.SpreadExactly): with f silent nodes of 3f + 1 and two
  different inputs nobody gets past round 0 (TwoValueSilence.SplitInputsBlock).
  A node does not send a second CONF when int_values grow, so honest CONFs may
  stay divided (TwoValueProgress.BlockedForGood), which needs no faulty node
  (TwoValueDeadlock.Deadlock). TwoValueProgress.LastLeavesExactly and
  TwoValueWaits.LeavesExactly say when the waits are left.
- The provable broadcast keeps the signatures of READYs for all roots in one
  dictionary and returns the first N - f of them. ProofValidity.ProofAccepted says
  exactly which returned proofs its own check accepts, ProofRejected.Rejected
  gives a run with one that it rejects.
- A node of the binary agreement that meets its decided value again quits and
  relays no more ESTs. A correct node that needs such a relay stays undecided
  unless Byzantine nodes help it (BinaryAgreementQuit.QuitBlocks).
  BinaryAgreementWaits.LeavesExactly says when a wait is left,
  BinaryAgreementWaits.BlockedForGood that nothing else unblocks it.
- Consistent broadcast with N = 1 never ends: the leader checks its shares only
  when a CBC_ECHO arrives, and sends itself none.
  ConsistentBroadcastDelivery.DeliveryExactly shows that this is the only case.
- In the vote loop of the validated agreement an honest ballot for 0 that arrives
  before the commit list of its sender is dropped for good
  (ValidatedAgreementMessages.HonestBallot).
- In the AUX and CONF handlers of the plain binary agreement a redundant message
  ends the receive loop; the model does the same.

## Model

| member | source | states |
|---|---|---|
| `BinaryAgreementSafety.Agreement` | honeybadgerbft/core/binaryagreement.py:185-310 | in every run of N nodes, f of them Byzantine, with any message order, all values passed to decide at honest nodes are equal, and no node decides twice; both variants |
| `BinaryAgreementSafety.DecisionLocks` | honeybadgerbft/core/binaryagreement.py:291-310 | once a node has decided v in round k, every honest estimate of every later round is v |
| `BinaryAgreementSafety.NoFallThrough` | honeybadgerbft/core/binaryagreement.py:295-307 | the silent case of a single value equal to the coin but different from already_decided is never reached |
| `BinaryAgreementSafety.Justification` | honeybadgerbft/core/binaryagreement.py:99-133 | in every run a value in bin_values of an honest node, and one that a CONF wait has returned, was the est of some honest node in that round |
| `BinaryAgreementSafety.ConfWait` | honeybadgerbft/core/binaryagreement.py:43-59 | the CONF wait returns values that are all in bin_values, {0, 1} only when both are, and a single value only with N - f CONFs for it |
| `BinaryAgreementSafety.AuxWait` | honeybadgerbft/core/binaryagreement.py:220-231 | the AUX wait leaves with a single value exactly when it is in bin_values and has N - f AUXs, and with both otherwise |
| `BinaryAgreementSafety.SameSingleValue` | honeybadgerbft/core/binaryagreement.py:37-59 | in every run the single values with which honest nodes leave the CONF wait of one round are equal |
| `BinaryAgreementProgress.LastCanStep` | honeybadgerbft/core/binaryagreement.py:185-288 | no deadlock: when every message between honest nodes is recorded and no honest node has failed or quit, each one that is furthest behind can leave its wait |
| `BinaryAgreementProgress.NoDeadlock` | honeybadgerbft/core/binaryagreement.py:198-288 | in such a state some honest node can step |
| `BinaryAgreementProgress.SomeValue` | honeybadgerbft/core/binaryagreement.py:116-133 | with all honest nodes in a round, one of their estimates reaches every bin_values of that round |
| `BinaryAgreementProgress.BinSpread` | honeybadgerbft/core/binaryagreement.py:116-133 | what one honest node has in bin_values, all honest nodes have once all messages between them are recorded |
| `BinaryAgreementWaits.LeavesExactly` | honeybadgerbft/core/binaryagreement.py:185-254 | whoever has quit, an active node that has recorded all honest messages can leave its wait exactly when 2f + 1 ESTs of one value, or N - f AUXs or CONFs that name only values with 2f + 1 ESTs, have been sent to it, counting those of Byzantine nodes that it has |
| `BinaryAgreementWaits.BlockedForGood` | honeybadgerbft/core/binaryagreement.py:198-288 | if it cannot, and no honest node is behind it except those that have quit, it stays in that wait in every continuation of the run until a Byzantine message is delivered |
| `BinaryAgreementWaits.BlockedByQuit` | honeybadgerbft/core/binaryagreement.py:272-288 | a node that is furthest behind is blocked only where some honest node has quit |
| `BinaryAgreementQuit.QuitBlocks` | honeybadgerbft/core/binaryagreement.py:266-310 | four nodes, coin 0 in rounds 0 and 1: a run after which two correct nodes have decided and quit, and the third has recorded every message they sent, has not decided and never leaves round 0 unless the Byzantine node helps |
| `BinaryAgreementSafety.Validity` | honeybadgerbft/core/binaryagreement.py:181-310 | with unanimous honest input v every honest estimate of every round is v and only v is decided |
| `BinaryAgreementSafety.BiasedFastDecision` | dumbobft/core/baisedbinaryagreement.py:141-263 | in the biased variant unanimous input 1 is decided in round 0 by every honest node that completes it |
| `BinaryAgreementDecisions.PlainRound` | honeybadgerbft/core/binaryagreement.py:266-310 | plain code: a node that has left round k with the one value coin(k) has decided it; its next estimate is the one value, or coin(k) when there are two |
| `BinaryAgreementDecisions.BiasedRound` | dumbobft/core/baisedbinaryagreement.py:205-263 | biased code: the same with 1 in place of the coin of round 0, and the low bit of the coin from round 1 on |
| `BinaryAgreementDecisions.DecidesThenQuits` | honeybadgerbft/core/binaryagreement.py:291-310 | in every run a node decides exactly when it leaves the first round whose one value meets the coin, and quits exactly when it leaves the second |
| `BinaryAgreementDecisions.DecidedExactly` | honeybadgerbft/core/binaryagreement.py:291-310 | at any time a node has decided if and only if some round that it has finished met the coin |
| `BinaryAgreementRecords.RecordedExactly` | honeybadgerbft/core/binaryagreement.py:92-166 | in every run est_values, aux_values and conf_values hold q for a message if and only if a running receive loop has handled that message of q |
| `BinaryAgreementRecords.LoopEndsExactly` | honeybadgerbft/core/binaryagreement.py:92-166 | a receive loop ends exactly on a bad sender or value, a second CONF or (plain code) AUX of one sender, or by quitting |
| `BinaryAgreementRecords.HonestOnce` | honeybadgerbft/core/binaryagreement.py:135-157 | a message of an honest node that arrives for the first time is recorded and never ends the receive loop |
| `BinaryAgreementRecords.NoRepeats` | honeybadgerbft/core/binaryagreement.py:185-254 | in every run no node sends a message twice, so honest messages that are delivered once harm no loop |
| `BinaryAgreementRecords.InputExactly` | honeybadgerbft/core/binaryagreement.py:178-184 | a node starts with its first input as the estimate of round 0 if that is a bit, and fails its assertion otherwise |
| `BinaryAgreementSafety.RunInv` | honeybadgerbft/core/binaryagreement.py:62-288 | the invariant of one system state (recorded senders have sent, values are justified, histories match the phase of the loop) holds after every run |
| `BinaryAgreementNode.AgreementNode.Recv` | honeybadgerbft/core/binaryagreement.py:92-166 | the receive loop on one message: new state and messages are those of the step function that the safety theorems are about |
| `BinaryAgreementNode.AgreementNode.RecvEst` | honeybadgerbft/core/binaryagreement.py:99-133 | EST: recorded once, relayed at f + 1, put into bin_values at 2f + 1 |
| `BinaryAgreementNode.AgreementNode.RecvAux` | honeybadgerbft/core/binaryagreement.py:135-157 | AUX: recorded, or the loop dies on a redundant one |
| `BinaryAgreementNode.AgreementNode.RecvConf` | honeybadgerbft/core/binaryagreement.py:15-34 | handle_conf_messages |
| `BinaryAgreementNode.AgreementNode.CheckAux` | honeybadgerbft/core/binaryagreement.py:220-231 | what the AUX wait leaves with, if anything |
| `BinaryAgreementNode.AgreementNode.CheckConf` | honeybadgerbft/core/binaryagreement.py:49-56 | what wait_for_conf_values returns, if anything |
| `BinaryAgreementNode.AgreementNode.WakeAux` | honeybadgerbft/core/binaryagreement.py:213-254 | the step from the AUX wait into the CONF wait, with the CONF that is sent |
| `BinaryAgreementNode.AgreementNode.WakeCoin` | honeybadgerbft/core/binaryagreement.py:266-310 | the coin, set_new_estimate with its call of decide, and the start of the next round |
| `ReliableBroadcastSafety.OneRoot` | honeybadgerbft/core/reliablebroadcast.py:253-295 | in every run the roots that honest nodes send READY for, amplify or decode are one root |
| `ReliableBroadcastSafety.SameVerdict` | honeybadgerbft/core/reliablebroadcast.py:224-232 | decode_output gives one verdict on any two rows of at least K Merkle-verified stripes of one root, unless a hash collision is exhibited |
| `ReliableBroadcastSafety.OutcomeAgreement` | honeybadgerbft/core/reliablebroadcast.py:234-295 | any two honest nodes that finish return the same message or both fail the assertion, whichever stripes they used and whoever leads, unless a hash collision is exhibited |
| `ReliableBroadcastSafety.LeaderValidity` | honeybadgerbft/core/reliablebroadcast.py:197-222 | with an honest leader a node that finishes returns the first input exactly when its padding can be undone, which K <= 128 ensures, unless a hash collision is exhibited |
| `ReliableBroadcastSafety.Totality` | honeybadgerbft/core/reliablebroadcast.py:181-184 | quiescence: when all messages between honest nodes are handled or their receivers have returned, one honest output means that all honest nodes have output |
| `ReliableBroadcastDelivery.Delivery` | honeybadgerbft/core/reliablebroadcast.py:181-295 | plain variant: with an honest leader whose first input is m, when all messages between honest nodes are handled every honest node has finished, and for K <= 128 has returned m unless a hash collision is exhibited |
| `ReliableBroadcastDelivery.EveryoneReadies` | honeybadgerbft/core/reliablebroadcast.py:253-295 | both variants: in such a state every honest node has sent READY for the root of m, and one that still runs has the READYs of all honest nodes and K stripes |
| `ReliableBroadcastDelivery.Thresholds` | honeybadgerbft/core/reliablebroadcast.py:181-184 | in every run a node has sent READY exactly when some root has N - f ECHOs or f + 1 READYs, and (plain variant) has finished exactly when some root has 2f + 1 READYs and N - 2f stripes; the provable variant finishes only with N - f READYs |
| `ReliableBroadcastDelivery.ProvableEnd` | dumbobft/core/provablereliablebroadcast.py:164-200 | provable variant: exactly a counted READY that completes its root ends the protocol, never an ECHO |
| `ReliableBroadcastDelivery.ReadyForm` | dumbobft/core/provablereliablebroadcast.py:157-163 | an honest READY carries the signature of its sender on (sid, root) in the provable variant, and none in the plain one |
| `ReliableBroadcastSafety.InputGiven` | honeybadgerbft/core/reliablebroadcast.py:197-203 | what the leader encodes is the first value that its input() gave |
| `ReliableBroadcastSafety.RunInv` | honeybadgerbft/core/reliablebroadcast.py:134-295 | the system invariant holds after every run, for both variants |
| `ReliableBroadcastNode.BroadcastNode.SendInput` | honeybadgerbft/core/reliablebroadcast.py:197-222 | the leader encodes, builds the tree and sends each node its stripe with its branch |
| `ReliableBroadcastNode.BroadcastNode.Recv` | honeybadgerbft/core/reliablebroadcast.py:234-295 | the receive loop on one message: new state and messages are those of the step function |
| `ReliableBroadcastNode.BroadcastNode.RecvEcho` | honeybadgerbft/core/reliablebroadcast.py:253-276 | ECHO: verified, counted once per sender, READY at N - f, output check |
| `ReliableBroadcastNode.BroadcastNode.RecvReady` | dumbobft/core/provablereliablebroadcast.py:167-200 | READY: signature check of the provable variant, amplification at f + 1, output check and proof |
| `ReliableBroadcastNode.BroadcastNode.RebuildOutput` | honeybadgerbft/core/reliablebroadcast.py:224-232 | decode_output: decode, re-encode, compare the roots |
| `MerkleTree.MakeTree` | honeybadgerbft/core/reliablebroadcast.py:84-100 | the array filled by merkleTree: leaves hashed, empty padding leaves, every inner node the hash of its children |
| `MerkleTree.GetBranch` | honeybadgerbft/core/reliablebroadcast.py:103-111 | the walk over the array collects the siblings from leaf to root |
| `MerkleTree.VerifyBranch` | honeybadgerbft/core/reliablebroadcast.py:114-131 | merkleVerify climbs by the bits of the index; assertion failures are None |
| `MerkleTree.Completeness` | honeybadgerbft/core/reliablebroadcast.py:84-131 | for every N >= 1 and i < N the branch has length ceil(log2 N) and merkleVerify accepts leaf i with it |
| `MerkleTree.Binding` | honeybadgerbft/core/reliablebroadcast.py:114-131 | an accepted value is the leaf at that index, for branch elements of any length and despite the padding leaves, or two strings with one digest are exhibited |
| `MerkleTree.SameRoot` | honeybadgerbft/core/reliablebroadcast.py:84-100 | two lists of N leaves with one root are equal, or a collision is exhibited |
| `Erasure.RoundTrip` | honeybadgerbft/core/reliablebroadcast.py:13-66 | decode of any N-list with at least K stripes of encode(K, N, m) returns m exactly when PaddingUndone(K, |m|); in particular for every m and K <= min(N, 128) |
| `Erasure.FailsExactly` | honeybadgerbft/core/reliablebroadcast.py:24-66 | encode raises exactly on sizes other than 1 <= K <= N <= 256; decode raises on those, on lists that are not N long and with fewer than K stripes, and succeeds on any K stripes of an encoded message |
| `Erasure.RoundTripFails` | honeybadgerbft/core/reliablebroadcast.py:35-62 | the bound is real: with K = N = 129 no message of 128 bytes comes back, since chr(c).encode() has two bytes from 128 on |
| `Erasure.Collect` | honeybadgerbft/core/reliablebroadcast.py:52-58 | the loop that picks K present stripes and their numbers |
| `Erasure.DecodeStripes` | honeybadgerbft/core/reliablebroadcast.py:40-66 | decode: assertion failures and missing stripes are None |
| `ProvableBroadcast.ProofsAgree` | dumbobft/core/provablereliablebroadcast.py:182-200 | any two proofs that prbc_validate accepts for the sid of one instance carry the same root, or two roots have one digest under that sid |
| `ProvableBroadcast.ProofMatchesOutput` | dumbobft/core/validators.py:7-17 | every honest node that has returned a value has decoded it for the root of every accepted proof, or two roots have one digest |
| `ProvableBroadcast.ReturnedWithProof` | dumbobft/core/provablereliablebroadcast.py:191-200 | an honest node holds a proof exactly when it has returned a value; the proof has N - f signatures and the value is the one decoded for its root |
| `ProofValidity.ProofAccepted` | dumbobft/core/provablereliablebroadcast.py:175-200 | the proof that a node returns passes prbc_validate exactly when the READY counted of each signer in it was for the decoded root or one with its digest: the signatures for all roots are in one dictionary |
| `ProofRejected.Rejected` | dumbobft/core/provablereliablebroadcast.py:167-200 | for every configuration of four nodes, every input and every other root with another digest: a run in which the correct leader returns its input with a proof that prbc_validate rejects, because Byzantine node 3 sent a READY for the other root first |
| `ProofValidity.HonestProofAccepted` | dumbobft/core/provablereliablebroadcast.py:191-200 | a returned proof whose signers are all honest is accepted; for f = 0 every one is |
| `ProvableBroadcast.ProofMeansStripes` | dumbobft/core/validators.py:7-17 | acceptance means that at least K = N - 2f honest nodes have broadcast Merkle-verified stripes for its root |
| `ProvableBroadcast.ValidatesExactly` | dumbobft/core/validators.py:7-17 | prbc_validate accepts exactly N - f tokens of N - f different nodes for the root, under the sid that the proof names |
| `Interpolation.PolynomEval` | crypto/threshsig/boldyreva.py:70-77 | the accumulating loop of polynom_eval computes the value of the polynomial modulo p |
| `Interpolation.Interpolate` | crypto/threshsig/boldyreva.py:105-118 | for every set S of indices and every polynomial with at most |S| coefficients, the sum of Lagrange coefficient times value is the polynomial, at every point |
| `ThresholdSignature.Dealer` | crypto/threshsig/boldyreva.py:187-213 | the key dealt for the coefficients, and success of its run-time check of the reconstruction of 0 |
| `ThresholdSignature.ReconstructZero` | crypto/threshsig/boldyreva.py:207-210 | the sum that the dealer compares with the polynomial at 0 |
| `ThresholdSignature.VerifiedShare` | crypto/threshsig/boldyreva.py:128-133 | verify_share accepts exactly the signature of the key holder |
| `ThresholdSignature.CombineVerified` | crypto/threshsig/boldyreva.py:140-149 | any k verified shares of any k players combine to the one signature under the secret, which passes verify_signature |
| `ThresholdSignature.CombineRejects` | crypto/threshsig/boldyreva.py:105-149 | combine_shares fails its assertions exactly when it is not given k players of the group |
| `ThresholdEncryption.EncryptedVerifies` | crypto/threshenc/tpke.py:120-143 | every output of encrypt passes verify_ciphertext |
| `ThresholdEncryption.EncryptUses` | crypto/threshenc/tpke.py:120-136 | U is r in the exponent (one U for two exponents only if they are equal modulo p), V unmasks to m with the hash of the public key to the r, W is the hash of U and V to the r |
| `ThresholdEncryption.SharesVerify` | crypto/threshenc/tpke.py:145-206 | every share made by decrypt_share passes verify_share |
| `ThresholdEncryption.DecryptInvertsEncrypt` | crypto/threshenc/tpke.py:120-168 | combine_shares returns the 32-byte message exactly when it is given k shares that pass verify_share, and fails otherwise |
| `CommonCoin.CoinAgreement` | honeybadgerbft/core/commoncoin.py:42-118 | any two nodes whose getCoin(r) returned got the same value though they combined different shares; each node emits at most one coin a round |
| `CommonCoin.CoinAvailable` | honeybadgerbft/core/commoncoin.py:60-118 | the coin of a round is made exactly when valid shares of f + 1 different nodes have been handled; getCoin returns it unless an earlier call has taken it |
| `CommonCoin.CoinFromSignature` | honeybadgerbft/core/commoncoin.py:82-91 | the coin that getCoin returns is the first byte of the hash of the one valid signature on the round, or its low bit, which is 0 or 1 |
| `CommonCoin.LoopEndsExactly` | honeybadgerbft/core/commoncoin.py:43-92 | in every run only a sender out of range ends the receive loop; combining never raises |
| `CommonCoin.SharedCoin.Recv` | honeybadgerbft/core/commoncoin.py:43-92 | one iteration of _recv |
| `CommonCoin.SharedCoin.GetCoin` | honeybadgerbft/core/commoncoin.py:96-118 | the blocking get of getCoin, once a coin is there |
| `MillerRabin.Halve` | crypto/threshsig/millerrabin.py:70-79 | the halving loop terminates with d odd and 2**s * d == n - 1 |
| `MillerRabin.TryComposite` | crypto/threshsig/millerrabin.py:82-88 | the loop over the exponents decides whether a shows that n is composite |
| `MillerRabin.IsProbablePrime` | crypto/threshsig/millerrabin.py:62-95 | False only on composites whatever bases are drawn; True exactly when n is 2 or odd with no witness among them; failure exactly below 2 |
| `MillerRabin.PrimeHasNoWitness` | crypto/threshsig/millerrabin.py:82-88 | for every prime n and every base in [2, n) try_composite is False |
| `MillerRabin.CompositeHasWitness` | crypto/threshsig/millerrabin.py:82-95 | every odd composite has a base on which try_composite is True |
| `MillerRabin.PrimeIffNoWitness` | crypto/threshsig/millerrabin.py:62-95 | an odd n > 2 is prime if and only if no base in [2, n) is a witness |
| `NumberTheory.Fermat` | crypto/threshsig/millerrabin.py:83-83 | Fermat's little theorem, which the first test of try_composite rests on |
| `NumberTheory.SquareRootsOfOne` | crypto/threshsig/millerrabin.py:85-87 | 1 has no square roots but 1 and -1 modulo a prime, which the loop of try_composite rests on |
| `TwoValueSafety.Lockstep` | mulebft/core/twovalueagreement.py:206-255 | all honest nodes that leave the CONF wait of a round hold the same values, hence one common estimate from round 1 on |
| `TwoValueSafety.Justification` | mulebft/core/twovalueagreement.py:58-83 | in every run a value in int_values of an honest node was the est of some honest node in that round |
| `TwoValueSafety.NoFailedAssertion` | mulebft/core/twovalueagreement.py:154-255 | if honest inputs are x and x + 1, so are all honest estimates, and no assertion of main_loop fails |
| `TwoValueSafety.OneDecision` | mulebft/core/twovalueagreement.py:114-126 | each node decides at most once, however FINISH messages are repeated |
| `TwoValueSafety.Agreement` | mulebft/core/twovalueagreement.py:114-126 | all honest decisions are equal when no sender's FINISH is counted twice or no node is Byzantine |
| `TwoValueSafety.DecisionInRange` | mulebft/core/twovalueagreement.py:230-255 | with inputs x and x + 1 the decision is one of them |
| `TwoValueSafety.AgreementExactly` | mulebft/core/twovalueagreement.py:114-126 | the counter counts messages, not senders: agreement holds in all runs if and only if f is 0 or at most one FINISH of a sender is counted |
| `TwoValueDecisions.CheapRound` | mulebft/core/twovalueagreement.py:219-253 | rounds 0 to 9 use bit r of the hash of sid: the next estimate is the one value, or the one of two with that parity, and a single value with that parity has been decided |
| `TwoValueDecisions.CoinRound` | mulebft/core/twovalueagreement.py:219-253 | from round 10 on the same with the low bit of the common coin |
| `TwoValueDecisions.DecidesExactly` | mulebft/core/twovalueagreement.py:114-126 | a step decides exactly when its node has not decided and it leaves a round whose one value has the parity of the coin, or counts the (f + 1)-st FINISH; it decides that value |
| `TwoValueDecisions.FinishSpreads` | mulebft/core/twovalueagreement.py:114-126 | once f + 1 honest nodes have decided and all honest nodes have counted the FINISHes sent to them, all have decided and can stop |
| `TwoValueDecisions.StopsExactly` | mulebft/core/twovalueagreement.py:259-265 | a node may stop exactly when it counts 2f + 1 FINISHes, its own among them |
| `TwoValueRecords.RecordedExactly` | mulebft/core/twovalueagreement.py:50-112 | in every run the votes of other nodes are exactly those that a running receive loop has handled |
| `TwoValueRecords.LoopEndsExactly` | mulebft/core/twovalueagreement.py:50-126 | a receive loop ends exactly on a bad sender, a tuple without one or two entries, FINISHes of two values, or by stopping |
| `TwoValueRecords.FailsExactly` | mulebft/core/twovalueagreement.py:183-253 | main_loop fails exactly when int_values are neither one nor two at the AUX wait, or two values that are not consecutive end a round |
| `TwoValueRecords.NoRepeats` | mulebft/core/twovalueagreement.py:161-255 | in every run no node sends a message twice |
| `TwoValueSafety.RunInv` | mulebft/core/twovalueagreement.py:46-255 | the invariant of the rounds holds after every run |
| `TwoValueProgress.SpreadExactly` | mulebft/core/twovalueagreement.py:58-83 | once f + 1 honest nodes have sent EST v of a round and all messages are recorded, all honest nodes send it, and v is in int_values of a node exactly when there are 2f + 2 honest nodes or the node counts an EST v of its own or of a Byzantine node |
| `TwoValueProgress.LastLeavesExactly` | mulebft/core/twovalueagreement.py:161-215 | for inputs x and x + 1, 2f + 2 honest nodes, all of them active, and all messages recorded, int_values are common and a node that is furthest behind can leave its wait, except that it leaves the CONF wait exactly when N - f counted CONFs equal its int_values |
| `TwoValueWaits.LeavesExactly` | mulebft/core/twovalueagreement.py:161-215 | for inputs x and x + 1, all messages recorded and any number of honest nodes, an active node can leave its wait exactly when: f + 1 honest nodes have sent some EST that reaches it; N - f AUXs name values in its int_values; N - f CONFs equal its int_values; or it waits for the coin |
| `TwoValueProgress.BlockedForGood` | mulebft/core/twovalueagreement.py:198-215 | no second CONF is sent: when no set has N - f CONFs of a round, even with all Byzantine nodes, no honest node leaves the CONF wait of that round in any continuation of the run |
| `TwoValueProgress.NeverDecides` | mulebft/core/twovalueagreement.py:206-241 | and if that is round 0, no honest node ever decides |
| `TwoValueDeadlock.Deadlock` | mulebft/core/twovalueagreement.py:58-215 | two correct nodes with different inputs and no Byzantine node: a run in which every message is delivered, int_values are equal, and neither node can ever leave round 0 or decide |
| `TwoValueSilence.PassedAlike` | mulebft/core/twovalueagreement.py:72-83 | with 2f + 1 honest nodes and silent Byzantine ones, int_values hold at most the own estimate, and a node passes the AUX wait of a round only if all honest nodes started it with one estimate |
| `TwoValueSilence.SplitInputsBlock` | mulebft/core/twovalueagreement.py:58-204 | so with f silent nodes of 3f + 1 and two different honest inputs no honest node ever sends a CONF, starts round 1 or decides, in any run |
| `TwoValueNode.TwoValueProcess.Recv` | mulebft/core/twovalueagreement.py:50-126 | recv on one message: new state and messages are those of the step function |
| `TwoValueNode.TwoValueProcess.RecvFinish` | mulebft/core/twovalueagreement.py:114-126 | FINISH: counted, one value only, followed at f + 1 |
| `TwoValueNode.TwoValueProcess.CheckAux` | mulebft/core/twovalueagreement.py:184-196 | the sum over int_values in the AUX wait |
| `TwoValueNode.TwoValueProcess.WakeAux` | mulebft/core/twovalueagreement.py:183-204 | the assertion of the AUX wait, and the CONF |
| `TwoValueNode.TwoValueProcess.WakeConf` | mulebft/core/twovalueagreement.py:206-215 | the CONF wait |
| `TwoValueNode.TwoValueProcess.PickEst` | mulebft/core/twovalueagreement.py:230-253 | the new estimate: the single value, or the one of two consecutive values with the parity of the coin |
| `TwoValueNode.TwoValueProcess.WakeCoin` | mulebft/core/twovalueagreement.py:219-255 | the end of a round with its decision, FINISH and next EST |
| `FastPathSafety.ViewChangeGap` | mulebft/core/mule.py:359-387 | all values put into tcvba_input in an epoch are one of two consecutive slots, although a VIEW_CHANGE may be sent while the fast path still runs |
| `FastPathSafety.ChainAgreement` | mulebft/core/hsfastpath.py:200-260 | what a node holds in slot k is determined by the first k - 1 blocks of the leader, which are hash-linked and certified by N - f nodes that had reached their slots; no assertion of one_slot fails |
| `FastPathBatches.BlockBatches` | mulebft/core/hsfastpath.py:139-153 | block k of the leader carries the batch that get_input yielded at the VOTE that completed slot k, for k up to SLOTS_NUM, and the dummy in the two slots after those; there are no more slots |
| `FastPathBatches.HeldBatches` | mulebft/core/hsfastpath.py:225-254 | so do the pending, notarized and fixed blocks of every node |
| `FastPathProgress.NoStall` | mulebft/core/hsfastpath.py:99-258 | unless the outer timer fires, an item is lost or a receive loop dies, the leader and N - f - 1 other nodes can always take a step until they have passed all slots |
| `FastPathProgress.DecidedExactly` | mulebft/core/hsfastpath.py:139-153 | in every run the DECIDE of a slot has been sent exactly when N - f nodes have voted for it there |
| `FastPathProgress.TakesDecide` | mulebft/core/hsfastpath.py:155-187 | a follower takes a DECIDE exactly when it is the first for its slot and carries N - f valid signatures on the hash it names |
| `FastPathProgress.EndsExactly` | mulebft/core/hsfastpath.py:262-309 | the fast path ends exactly when all slots are passed or the outer timer fires in a slot; the inner timer makes its node enter the slot again |
| `FastPathProgress.LoopEndsExactly` | mulebft/core/hsfastpath.py:80-190 | a receive loop ends exactly on a bad sender, a second valid DECIDE before the first is taken, or the outer timer |
| `FastPathSafety.AdvanceChain` | mulebft/core/hsfastpath.py:222-252 | one slot refines the chain: the state of slot k and block k give the state of slot k + 1 |
| `FastPathSafety.NotarizedHeaderHashes` | mulebft/core/mule.py:411-421 | the assertion that is commented out holds: the notarized header hashes to the digest that its certificate signs |
| `FastPathSafety.ViewChangesCount` | mulebft/core/mule.py:366-380 | no VIEW_CHANGE is rejected |
| `FastPathProgress.ViewChangeCompletes` | mulebft/core/mule.py:359-432 | a node gets its VIEW_CHANGE out exactly when its fast path has ended or it has collected N - f of them, and has its input of the two-value agreement exactly when it has handled those of N - f nodes |
| `FastPathProgress.CountsExactly` | mulebft/core/mule.py:366-387 | a VIEW_CHANGE is counted exactly when it carries nothing, or N - f valid signatures on the hash of its header; only then may it raise the maximum |
| `FastPathSafety.FixedBelowInputs` | mulebft/core/hsfastpath.py:227-231 | no node has fixed a block above any value put into tcvba_input |
| `FastPathSafety.EpochSlot` | mulebft/core/mule.py:336-357 | composition: two-value agreement on these inputs fails no assertion, and its decision is common and one of the two slots |
| `FastPathSafety.RunInv` | mulebft/core/hsfastpath.py:18-309 | the invariant of an epoch holds after every run |
| `FastPathNode.FastPathProcess.CheckCertificate` | mulebft/core/hsfastpath.py:167-182 | the loop that checks the signatures of a certificate |
| `FastPathNode.FastPathProcess.RecvVote` | mulebft/core/hsfastpath.py:99-153 | VOTE at the leader, with the one DECIDE of the slot at N - f votes |
| `FastPathNode.FastPathProcess.RecvDecide` | mulebft/core/hsfastpath.py:155-187 | DECIDE at the other nodes |
| `FastPathNode.FastPathProcess.BeginSlot` | mulebft/core/hsfastpath.py:207-214 | the head of the slot loop and the VOTE |
| `FastPathNode.FastPathProcess.OneSlot` | mulebft/core/hsfastpath.py:216-258 | the critical block of one_slot |
| `FastPathNode.FastPathProcess.RecvViewChange` | mulebft/core/mule.py:359-387 | handle_viewchange_msg on one message |
| `FastPathNode.FastPathProcess.SendTip` | mulebft/core/mule.py:405-432 | the VIEW_CHANGE that _run_epoch sends |
| `CommonSubsetSafety.CountAssertion` | honeybadgerbft/core/commonsubset.py:51-56 | the assertion sum(aba_values) >= N - f never fails |
| `CommonSubsetSafety.NoFailedAssertion` | honeybadgerbft/core/commonsubset.py:51-65 | neither that assertion nor the one on rbc_values fails, unless a hash collides |
| `CommonSubsetSafety.SameTuple` | honeybadgerbft/core/commonsubset.py:58-68 | all honest nodes return the same tuple, unless a hash collides |
| `CommonSubsetSafety.OneInputEach` | honeybadgerbft/core/commonsubset.py:27-49 | each agreement gets at most one input from each honest node |
| `CommonSubsetSafety.InputsExactly` | honeybadgerbft/core/commonsubset.py:27-49 | once N - f agreements have output 1 every agreement has an input; before that, exactly those whose broadcast has returned, and it is 1 |
| `CommonSubsetSafety.MainGoesOn` | honeybadgerbft/core/commonsubset.py:50-68 | the main thread goes on exactly when all agreements have output, then for each that has output 1 when its broadcast has ended |
| `CommonSubsetSafety.TupleContents` | honeybadgerbft/core/commonsubset.py:58-68 | a returned tuple holds at least N - f values, each as its broadcast has returned it |
| `CommonSubsetSafety.HonestEntry` | honeybadgerbft/core/commonsubset.py:58-68 | the entry of an honest node j, which leads broadcast j, is the first input of j, for K <= 128, unless a hash collides |
| `CommonSubsetSafety.OutputGiven` | honeybadgerbft/core/commonsubset.py:27-49 | an agreement outputs v only if some honest node gave it v |
| `CommonSubset.CommonSubsetProcess.RecvRbc` | honeybadgerbft/core/commonsubset.py:27-34 | _recv_rbc(j) |
| `CommonSubset.CommonSubsetProcess.RecvAba` | honeybadgerbft/core/commonsubset.py:38-48 | _recv_aba(j) with the inputs 0 that it gives |
| `CommonSubset.CommonSubsetProcess.GiveZeros` | honeybadgerbft/core/commonsubset.py:44-48 | the loop that provides 0 to all agreements without input |
| `CommonSubset.CommonSubsetProcess.Resume` | honeybadgerbft/core/commonsubset.py:53-68 | the main thread from one wait to the next |
| `ConsistentBroadcastSafety.CertificatesAgree` | dumbobft/core/validators.py:19-28 | any two certificates accepted by cbc_validate for one sid are for one value, or two values share a digest |
| `ConsistentBroadcastSafety.OutputUnique` | dumbobft/core/consistentbroadcast.py:115-132 | an honest output is certified and equals every certified value |
| `ConsistentBroadcastSafety.LeaderValue` | dumbobft/core/consistentbroadcast.py:62-74 | under an honest leader only its first input is ever certified |
| `ConsistentBroadcastSafety.SignsOnce` | dumbobft/core/consistentbroadcast.py:84-92 | in every run any two CBC_ECHOs of one honest node carry the same signature: it signs one digest |
| `ConsistentBroadcastSafety.SendsItsInput` | dumbobft/core/consistentbroadcast.py:62-74 | an honest leader sends its first input in CBC_SEND and nothing else |
| `ConsistentBroadcastSafety.ValidatesExactly` | dumbobft/core/validators.py:19-28 | cbc_validate accepts exactly N - f tokens of N - f different nodes for the value |
| `ConsistentBroadcastDelivery.Delivery` | dumbobft/core/consistentbroadcast.py:62-132 | with an honest leader whose first input is m and more than one node, when all messages between honest nodes are handled every honest node has returned m with an accepted certificate |
| `ConsistentBroadcastDelivery.DeliveryExactly` | dumbobft/core/consistentbroadcast.py:94-113 | so delivery holds exactly when there is more than one node: a leader that is alone never looks at its own share |
| `ConsistentBroadcastDelivery.FinalExactly` | dumbobft/core/consistentbroadcast.py:94-113 | CBC_FINAL for the input has been sent exactly when N - f shares have been collected, that of the leader among them, and only the input is ever returned |
| `ConsistentBroadcast.BroadcastProcess.Recv` | dumbobft/core/consistentbroadcast.py:78-132 | the receive loop on one message |
| `ConsistentBroadcast.BroadcastProcess.RecvEcho` | dumbobft/core/consistentbroadcast.py:94-113 | CBC_ECHO at the leader, with the one CBC_FINAL |
| `ConsistentBroadcast.BroadcastProcess.CheckCertificate` | dumbobft/core/consistentbroadcast.py:122-126 | the checks of a CBC_FINAL: length, distinct pairs, every signature |
| `ValidatedAgreementSafety.SameDecision` | dumbobft/core/validatedagreement.py:286-369 | any two honest nodes that decide, decide the same leader and the same message, unless two messages share a digest |
| `ValidatedAgreementSafety.LeaderAtExit` | dumbobft/core/validatedagreement.py:299-321 | the overwritten variable a is pi[r] whenever the vote loop has been left |
| `ValidatedAgreementSafety.DecisionCertified` | dumbobft/core/validatedagreement.py:365-369 | the decided message is that of the leader of the deciding round and holds an N - f certificate |
| `ValidatedAgreementSafety.SameLeader` | dumbobft/core/validatedagreement.py:360-365 | the deciding round and its leader are common |
| `ValidatedAgreementSafety.SamePermutation` | dumbobft/core/validatedagreement.py:271-274 | all honest nodes draw the same permutation, by the agreement of the common coin |
| `ValidatedAgreementSafety.WinnerCertified` | dumbobft/core/validatedagreement.py:324-332 | a round is won only if some honest node has counted a ballot with a certificate for its leader |
| `ValidatedAgreementMessages.CommitList` | dumbobft/core/validatedagreement.py:244-257 | a node sends one commit list; it has length N, says which input broadcasts had returned an accepted value at some moment, names N - f of them, and is taken by every node |
| `ValidatedAgreementMessages.Ballot` | dumbobft/core/validatedagreement.py:290-297 | the ballot of round r is for pi[r]: 1 with the certified value that its broadcast had returned if there was one, 0 otherwise |
| `ValidatedAgreementMessages.HonestBallot` | dumbobft/core/validatedagreement.py:299-321 | an honest node in the vote loop counts an honest ballot exactly when it is for 1 or the commit list of its sender has arrived; an earlier ballot for 0 is dropped |
| `ValidatedAgreementMessages.Counted` | dumbobft/core/validatedagreement.py:303-318 | a ballot is counted exactly when it is for the leader of the round and is 1 with a valid certificate, or 0 with a 0 in the commit list of its sender |
| `ValidatedAgreementMessages.WaitsExactly` | dumbobft/core/validatedagreement.py:212-263 | the two waits end exactly when N - f input broadcasts have returned accepted values, and when N - f commit lists that name N - f have arrived |
| `ValidatedAgreementMessages.LeavesExactly` | dumbobft/core/validatedagreement.py:320-332 | the vote loop ends exactly with the ballot that makes N - f; the agreement gets 1 exactly when some counted ballot is 1, and then the node holds a value of the leader |
| `ValidatedAgreementMessages.RoundsGoOn` | dumbobft/core/validatedagreement.py:271-364 | the permutation starts round 0, output 0 starts the next round, each with its ballot, and output 1 ends the rounds |
| `ValidatedAgreementMessages.DecidesExactly` | dumbobft/core/validatedagreement.py:365-369 | then a node decides exactly when it holds a value of the leader, and it does if the broadcast of the leader has returned or it has given 1 itself |
| `ValidatedAgreementMessages.FailsExactly` | dumbobft/core/validatedagreement.py:286-321 | an index is out of range exactly on a ballot for 0 whose sender has too short a commit list, and on rounds beyond the permutation |
| `ValidatedAgreement.ValidatedProcess.RecvCbc` | dumbobft/core/validatedagreement.py:212-223 | wait_for_cbc_to_continue |
| `ValidatedAgreement.ValidatedProcess.RecvCommit` | dumbobft/core/validatedagreement.py:250-257 | wait_for_commit_to_continue |
| `ValidatedAgreement.ValidatedProcess.CheckVote` | dumbobft/core/validatedagreement.py:303-318 | whether a ballot is counted |
| `ValidatedAgreement.ValidatedProcess.RecvVote` | dumbobft/core/validatedagreement.py:299-321 | one turn of the vote loop |
| `ValidatedAgreement.ValidatedProcess.FeedVotes` | dumbobft/core/validatedagreement.py:324-332 | the loop over votes[r]: the input of the agreement and what goes into cbc_outputs[a] |
| `ValidatedAgreement.ValidatedProcess.RecvAba` | dumbobft/core/validatedagreement.py:359-364 | the output of the agreement of a round: stop, or the next leader |
| `ValidatedAgreement.ValidatedProcess.Finish` | dumbobft/core/validatedagreement.py:369-369 | decide |
| `BinaryAgreementNode.AgreementNode.constructor` | honeybadgerbft/core/binaryagreement.py:77-83 | the initial values of the variables |
| `BinaryAgreementNode.AgreementNode.Input` | honeybadgerbft/core/binaryagreement.py:178-184 | the input, and its assertion |
| `BinaryAgreementNode.AgreementNode.BeginRound` | honeybadgerbft/core/binaryagreement.py:185-194 | the EST at the top of the main loop, unless it was relayed before |
| `BinaryAgreementNode.AgreementNode.WakeBin` | honeybadgerbft/core/binaryagreement.py:198-208 | the AUX for an element of bin_values |
| `BinaryAgreementNode.AgreementNode.WakeConf` | honeybadgerbft/core/binaryagreement.py:43-59 | the step from the CONF wait to the coin |
| `ReliableBroadcastNode.BroadcastNode.constructor` | honeybadgerbft/core/reliablebroadcast.py:216-222 | the initial values of the variables |
| `ReliableBroadcastNode.BroadcastNode.MakeVals` | honeybadgerbft/core/reliablebroadcast.py:206-212 | the VAL messages of the leader, one for each node |
| `ReliableBroadcastNode.BroadcastNode.RecvVal` | honeybadgerbft/core/reliablebroadcast.py:237-251 | VAL: from the leader, once, verified at the own index, then echoed |
| `ReliableBroadcastNode.BroadcastNode.CheckOutput` | honeybadgerbft/core/reliablebroadcast.py:272-276 | the output check after an ECHO or a READY |
| `TwoValueNode.TwoValueProcess.constructor` | mulebft/core/twovalueagreement.py:29-44 | the initial values of the variables |
| `TwoValueNode.TwoValueProcess.RecvEst` | mulebft/core/twovalueagreement.py:58-83 | EST: recorded once, relayed at f + 1, put into int_values at 2f + 1 |
| `TwoValueNode.TwoValueProcess.RecvConf` | mulebft/core/twovalueagreement.py:100-112 | CONF: recorded, or the loop dies on a tuple that is too long |
| `TwoValueNode.TwoValueProcess.Input` | mulebft/core/twovalueagreement.py:141-153 | the input |
| `TwoValueNode.TwoValueProcess.BeginRound` | mulebft/core/twovalueagreement.py:161-164 | the EST at the top of main_loop, which the node counts itself |
| `TwoValueNode.TwoValueProcess.WakeInt` | mulebft/core/twovalueagreement.py:167-181 | the AUX for an element of int_values, which the node counts itself |
| `TwoValueNode.TwoValueProcess.Finished` | mulebft/core/twovalueagreement.py:259-265 | the end after 2f + 1 FINISH messages |
| `FastPathNode.FastPathProcess.constructor` | mulebft/core/hsfastpath.py:50-65 | the initial values of the variables |
| `FastPathNode.FastPathProcess.DecideSlot` | mulebft/core/hsfastpath.py:139-153 | the DECIDE of a slot, with dummies in the last two |
| `FastPathNode.FastPathProcess.CheckSlots` | mulebft/core/hsfastpath.py:225-234 | the two assertions of one_slot |
| `FastPathNode.FastPathProcess.ShiftBlocks` | mulebft/core/hsfastpath.py:225-254 | pending, notarized and fixed block move up by one |
| `CommonSubset.CommonSubsetProcess.constructor` | honeybadgerbft/core/commonsubset.py:23-25 | the initial values of the lists |
| `ConsistentBroadcast.BroadcastProcess.RecvInput` | dumbobft/core/consistentbroadcast.py:62-74 | the input of the leader, its own signature and the CBC_SEND |
| `ValidatedAgreement.ValidatedProcess.Continue` | dumbobft/core/validatedagreement.py:229-263 | the waits for N - f input broadcasts and for N - f commit broadcasts |
| `ValidatedAgreement.ValidatedProcess.RecvPermutation` | dumbobft/core/validatedagreement.py:271-284 | the permutation of the leaders |
| `ValidatedAgreement.ValidatedProcess.BeginRound` | dumbobft/core/validatedagreement.py:286-297 | the leader of a round and the ballot for it |

## Left out

- Termination with probability one, fairness, and the comment on abandoned parties in set_new_estimate: they need probability. The liveness statements are about quiescent states, and about states in which some step is still possible: delivery and totality of the broadcasts, absence of deadlock in binary agreement before anyone quits, the exact conditions of the waits, and the fast path that does not stall.
- Totality of the provable broadcast: its output check on ECHO is commented out; ReliableBroadcastDelivery.EveryoneReadies says how far every node gets.
- External validity and the bound of N rounds of the validated agreement: the code does not support them.
- The commit broadcasts between the commit list that a node sends and the lists that the others receive are not composed; agreement does not depend on them. ValidatedAgreementMessages.HonestBallot takes as a premise that the list received from an honest node is the one it sent.
- Byzantine runs of the fast path: its DECIDE handler checks neither the sender nor the previous hash.
- BinaryAgreementSafety.Agreement: does not say that a decision is ever reached.
- ReliableBroadcastSafety.Totality: for the plain variant and sizes that zfec accepts.
- FastPathSafety.ViewChangeGap: each VIEW_CHANGE is handled once by each node, as the queues of the source do; other messages may be repeated.
- CommonCoin.CoinAgreement: one instance of the coin; serialisation of group elements is not modelled.
- Erasure.RoundTrip: on bytes; the conversion of a str message by `m.encode()` is not modelled.
- MerkleTree.VerifyBranch: the types of val and of the branch elements are not checked, they are byte strings.
- ProvableBroadcast.ProofsAgree: pairs in a proof are indexed by natural numbers below N; Python would also accept negative indices.
- ThresholdEncryption: the product of no shares at all is taken as the neutral element; `dealer` of tpke.py is the same code as that of boldyreva.py.
- Transaction buffers, padding of AES blocks, tag routing, sockets, logging, statistics, key files and experiment scripts.
- dumbomvba, speedmvba, smvba_e, stablehotstuff, rotatinghotstuff, rbcmule and the other near-duplicates of the modelled protocols.
