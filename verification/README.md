# Verification of the consensus driver

This project models the driver that surrounds the BFT core: it authenticates
proposals and votes, decides which authority list judges which height, keeps
messages that arrive early, builds and checks commit proofs, frames and encodes
messages, and writes a log from which a node recovers.

It has three layers.

* **Values.** `Engine` gives every handler of `src/consensus.rs` as a function
  from a state to the state it leaves and the result it returns; `Collection`,
  `LruCache`, `Authority`, `Wal`, `Framing`, `Codec` and `Proofs` do the same for
  the structures and formats the handlers use.
* **Objects.** `Consensus.Consensus`, `Collection.VoteCollector`,
  `Collection.ProposalCollector`, `Authority.AuthorityManage` and `WalLog.Log` are
  the program's own classes: their methods update fields step by step, with the
  program's loops and early returns, and each is proved to do exactly what the
  function of the same name says. `Consensus.Serve` carries this over whole runs;
  of the handler methods only those with loops have a row of their own below.
* **Theorems.** The other modules prove what the driver keeps over every run of
  messages, in every order, honest or not. `Scenario` holds concrete runs in which
  the situations that the theorems speak of arise.

## Main results

* `Safety.RunSound`: in every run, everything handed to the core was admissible at
  that moment, and the vote store and caches are sound.
* `Outcomes.RunHands`, `Outcome`: in every run the core is handed exactly the events that
  each message calls for, in order, verdicts included, and each message succeeds exactly
  under the stated condition; `Outcomes.RunSaysTheSame`: what is handed over agrees
  field by field with its wire message; `Errors`: which error a message fails with.
* `History.RunTracked`, `TwoGenerations`, `JudgedByOwnHeight`: the height, both
  authority generations and the start/pause switch follow from the accepted
  statuses, and votes, proposals and proofs are judged by the list of their height.
* `Commits.RunCommitAccepted`, `PeersAcceptCommit` and `EndToEnd.NextProposalTaken`:
  a proof built from a commit is accepted exactly under the lists of which its voters
  are a quorum, also at another node and as part of the next height's proposal, which
  the node makes from any state it reaches before the next commit
  (`EndToEnd.ProofStays`, `Scenario.NextProposalHappens`).
* `Locks.LocksAroundShareIff`, `RunLocksShare`: exactly how many voters any two locks
  share that are accepted for one height, at whichever of its two moments.
* `Blocks.KnownIsFirst`, `CommittedContentIff`: where the block that a commit hands
  out has come from, and exactly when it is the one its hash names.
* `Proofs.WeightedQuorums`, `CountedQuorums`, `CheckersAgree`: quorums intersect, and
  the two proof checkers agree exactly up to unrecoverable signatures.
* `Retention.SlotExact`, `AgreesIff` and `RunIndex.RunIsBounded`: what the bounded vote
  index answers after every history, exactly when that is what an unbounded one would
  answer, and that every run is such a history.
* `Waiting.WaitingExact`, `LeftBehind`: what waits in the caches of a run, and what
  stays in them for good.
* `KeptProof.RunKeepsLast`, `CarriesPreviousIff`: which proof a node keeps, and when its
  proposals carry the one that peers ask for.
* `Panics.PanicsIff`: exactly which messages bring the program down, in which states.
* `WalRecovery.RecoveryIff`, `TornTail`: what a restart gives back;
  `WalRecovery.RunDiskExact`: what every log file holds in every run.
* `Transport.RunProposalSurvives`, `Codec.ProposalRoundTrip`, `ProposalDecodesIff`,
  `Framing.FramingInjective`: what the wire preserves and what is accepted from it;
  `Layout`: where each field and byte lies.

## Where the code does less than it seems to promise

Each of these is proved, with the exact condition under which the code does what is
expected of it.

* **Cached proposals are never delivered.** Entering a height clears the cache of
  known blocks (`src/consensus.rs:1006-1008`) before the proposals cached for it are
  handled, so the first of them fails with a lost block, and because that error
  returns early the votes cached for the height stay behind as well:
  `Delivery.StatusDelivers`, `Delivery.CachedVotesDeliveredIff`, with a run in
  `Scenario.LeftBehindHappens`. They are never let out later, and neither is anything
  cached for a height that a status skips: `Waiting.LeftBehind`.
* **A status that jumps mixes up the generations.** After it the height below the
  current one is judged by a list that was not yet in force there:
  `History.TwoGenerations` says exactly when not, `History.JumpMisjudges` shows it.
* **The lock threshold always counts against the old list**
  (`src/types.rs:431-451`), while the lock votes are judged by the list of the height.
  A lock for a height is accepted while the node is at that height, counted against
  the list before it, and once the status of the height has arrived, counted against
  the list of the height itself. Two locks accepted at one moment need not have a
  common voter (`Locks.DisjointLocks`), nor need two of different moments where at
  either moment alone any two have (`Locks.LocksSplit`). Any two of either moment have
  a common voter if and only if two smallest locks of the first moment do not fit into
  the list or fewer than two old members stay in it, and smallest locks of both moments
  do not fit into it or no old member stays (`Locks.LocksMeetIff`);
  `Locks.LocksThirdIff` says when they share more than a third of the members, as they
  do where the list has not changed (`Locks.UnchangedListShares`).
* **Lock votes of an own proposal are looked up at its round**, not at the lock round
  (`src/consensus.rs:462`). A node locked in an earlier round fails to propose the
  block again although every lock vote is stored: `Scenario.ReproposalHappens`. It
  gets past the lookup only with the help of a received proposal that claims a lock at
  the very round it is about to propose in: `Relock.LockVotesFoundOnlyIf`,
  `Relock.ReproposalFails`; `Acceptance.LockVotesFoundIff` is the exact condition on
  the state.
* **A proposal carries whatever proof is kept** (`src/consensus.rs:450`, `478-487`).
  Above height 1 that is the previous height's exactly where the node keeps that one
  (`KeptProof.CarriesPreviousIff`), and every peer refuses any other
  (`KeptProof.StaleProposalRefused`); a status without a commit breaks it
  (`Scenario.StaleProposalHappens`).
* **Votes are stored before their voter's membership is checked**
  (`src/consensus.rs:809-811`), so that signed votes of anyone are uses of the bounded
  index (`RunIndex.AnyVoterCounts`), and votes for sixteen other rounds of a height drop
  a round of it (`RunIndex.CrowdedOut`). A commit finds its votes exactly among those
  added since the round was last inserted (`RunIndex.RunCommitIff`).
* **A signature from which nothing can be recovered passes `verify_proof`**
  (`src/consensus.rs:1040-1044`) but not `check_proof`: with one such signature a proof
  that nobody has signed is accepted for any block (`Proofs.UnsignedProofAccepted`).
  A voter has signed exactly when the signature yields an address
  (`Proofs.SignedIff`), and with that the two checkers agree (`Proofs.CheckersAgree`)
  and quorums of signers intersect (`Proofs.SignedQuorums`).
* **A frame names its own block hash** and the block is stored under it before any
  signature or hash is checked (`src/consensus.rs:229-235`). The first message of a
  height to bring a hash decides what a commit for it hands out: `Blocks.FrameDecides`,
  with a run in `Scenario.MisnamedCommit`; the content is the right one if and only if
  that first message carried it: `Blocks.CommittedContentIff`.
* **`load` does not clear its buffer between files** (`src/wal.rs:154`, `167`), so with
  the next height's file open it reads the current records again:
  `WalRecovery.LoadTwoFilesRepeats`, and exactly when not `WalRecovery.RunningLoadIff`.
* **Length marks wrap**: framing is undone exactly for first parts shorter than
  2^64 - 8 bytes, log records exactly for bodies shorter than 2^32 bytes:
  `Framing.ExtractInvertsCombine`, `WalRecovery.ParseFramesIff`.
* **Decoding a proof accepts unsorted and repeated addresses**, which encoding never
  produces: `Codec.ProofCanonical`.

## How the model is set up

* Hashing, signature recovery, signing, RLP bytes, content codecs and log
  serialisation are fixed but arbitrary functions in `Env`. Laws about them are
  stated where a theorem needs them: this node's signatures recover to its address
  (`SignsForItself`), a peer decodes this node's RLP (`Understands`), two nodes use
  the same cryptography (`SameCrypto`). `Scenario.Solo` is an instance of them all.
* RLP is modelled at the level of items (Appendix B of the Ethereum Yellow Paper).
* Integers are `u64`, `u32` and bytes. An overflow, an out-of-range split and `panic!`
  are the outcome `Panicked`, as in a build with overflow checks; without overflow a
  build without checks does the same. After a panic the program's thread is gone; a
  modelled run may go on, which only adds behaviours. An overflowing status height
  leaves the modelled state as it was. `Panics.PanicsIff` lists every way to get there.
* `Env.logs` is false for records that cannot be serialised when logging is compiled
  in, and true everywhere otherwise, so that both builds are covered. Channel sends
  and file operations succeed.
* The application's answers (verdicts, fed contents, the status after a commit) and
  the core's outputs are inputs of a run. The core's own votes carry this node's
  address (`OwnVotes`).
* `trace` is the model's own record of what was sent to the core, each entry stamped
  with the height, the authority and the wire message it was sent under.
* `LruCache` is a library; it is modelled as a map with its keys in order of use:
  `get_mut` refreshes, inserting into a full cache drops the least recently used key.
  The sort in the proof encoder is a library too; it is modelled as an insertion sort.
  The inner collectors are values owned by `VoteCollector`, as in the program.
* The field `block` of `Consensus` is never read and has no counterpart.

## Model

| member | source | states |
|---|---|---|
| Safety.RunSound | src/consensus.rs:146-158 | In every run of messages in any order: every stored vote converts to its key and is signed by its voter (a precommit also lies at its own height and round), cached messages wait under their own heights, and every vote, proposal and status ever handed to the core was admissible under the height and authority of that moment |
| Safety.ProcessSound | src/consensus.rs:162-356 | Each single message, from a peer, the application or the core, keeps that invariant |
| Safety.HandleSignedVoteSound | src/consensus.rs:756-813 | A vote that is passed on is for the current or previous height, signed by its voter, who is a member of the list selected for that height |
| Safety.HandleSignedProposalSound | src/consensus.rs:673-754 | A proposal that is passed on is for the current or previous height, signed by the rightful round-robin proposer, passes the lock check, and for the current height carries a verified proof of the previous one |
| Safety.DrainVotesSound | src/consensus.rs:383-395 | Votes delivered from the cache satisfy the same as votes delivered directly |
| Safety.DrainProposalsSound | src/consensus.rs:358-381 | Proposals delivered from the cache satisfy the same as those delivered directly |
| Safety.CollectSendersSound | src/consensus.rs:890-898 | The loop over lock votes succeeds if and only if each vote is by a member, names the hash and is signed, and no voter repeats; it then returns exactly the voters |
| Safety.LockCheck | src/consensus.rs:878-963 | The lock check accepts if and only if the lock votes are distinct, signed, by members, name the hash and exceed two thirds of the old list with an old member among them; all of them are afterwards found in the prevote set of the lock round |
| Outcomes.RunHands | src/consensus.rs:146-158 | In every run the core has been handed exactly the events that each message calls for in the state it meets, in the order of the messages |
| Outcomes.Outcome | src/consensus.rs:162-356 | Every message appends exactly its events, with the height and authority of the moment, and succeeds if and only if its condition on message and state holds |
| Outcomes.RunSaysTheSame | src/types.rs:167-189 | In every run each vote, proposal and status handed to the core says field by field what the wire message behind it said: lock votes only with a lock round, and then all in order; for a status the height, interval and all addresses in order |
| Outcomes.VoteOutcome | src/consensus.rs:273-283 | A vote of a peer is handed to the core, once and as it is, if and only if it decodes and is deliverable; otherwise the core hears of nothing |
| Outcomes.ForwardOutcome | src/consensus.rs:260-272 | With a deliverable proposal the core is handed the verdict that is known: passed for the previous height, as it was recorded for the present one, none if none was |
| Outcomes.FrameOutcome | src/consensus.rs:220-272 | The same for the bytes of a peer, once their block is known; it succeeds also where it is kept for a later height and loggable |
| Outcomes.StatusOutcome | src/consensus.rs:284-308 | A status has the switch, the status itself and the cached votes before the first refused one handed over, these only where no proposal is cached, and succeeds if and only if it is accepted, no proposal is cached and no cached vote is refused |
| Outcomes.CommitOutcome | src/consensus.rs:340-349 | A commit hands over what its answer calls for if it can be built, and nothing otherwise |
| Outcomes.ProposalSentIff | src/consensus.rs:397-509 | An own proposal goes out if and only if it is for the present height and loggable, a proof is kept or the height is 1, its lock votes are stored as prevotes of its round, it can be signed, and its block is known and encodable; at height 1 it carries an empty proof for its own block |
| Outcomes.OwnVoteOutcome | src/consensus.rs:511-551 | What goes out for a vote of the core says the same in every field, signed by this node, and it goes out if and only if it is not for a past height, loggable and can be signed |
| Errors.VoteErrors | src/consensus.rs:756-813 | Which of six errors a signed vote fails with, or a panic at height 0 |
| Errors.LockVoteErrors | src/consensus.rs:912-963 | Which error a lock vote fails with: too old, another block, not a member, unrecoverable, signed by another, or a panic at height 0 |
| Errors.LoopError | src/consensus.rs:878-900 | The loop over lock votes fails with the error of the first that is not acceptable, or as for another block where that one repeats a voter |
| Errors.IllegalLockIff | src/consensus.rs:878-910 | Acceptable lock votes of distinct voters make a legal lock if and only if they are more than two thirds of the old list and one of them is by an old member |
| Errors.FrameErrors | src/consensus.rs:220-272 | A frame fails as it decodes, as it is logged where it waits, or as its proposal is handled |
| Errors.ProposingErrors | src/consensus.rs:397-509 | Which error an own proposal fails with, in the order of the checks |
| Errors.CommitErrors | src/consensus.rs:553-583 | Which error a commit fails with, in the order of the checks |
| Records.RunVerdicts | src/consensus.rs:164-186 | In every run a node knows exactly the first verdict on each block since the present height was entered |
| Records.VerdictsMove | src/consensus.rs:162-356 | A verdict is recorded by the application alone, the first one stays, and a later height forgets them all |
| Records.RunIndexed | src/consensus.rs:722-722 | The proposal index of every run is what adding, in order, the proposals that its messages have indexed makes it |
| Locks.LocksOverlap | src/consensus.rs:878-910 | Two locks accepted for one height at moments that judge by the same list share at least `LeastShared` and at least the two smallest locks less the members, and more than a third of the list where it is the one counted against both times |
| Locks.LocksShareIff | src/consensus.rs:878-910 | For any two moments that judge a height by the same members, any two blocks and any number t: all pairs of locks accepted for them share at least t voters if and only if t is at most `LeastShared`, a number computed from the sizes of both old lists, of the members and of their overlaps, or no lock can be accepted at one of the moments |
| Locks.LocksAroundShareIff | src/consensus.rs:700-729 | For the height that any statuses lead to and its two moments, before and after its own status: all pairs of locks accepted at either moment share at least t voters if and only if that holds of each pair of moments |
| Locks.LocksMeetIff | src/consensus.rs:878-910 | All pairs of locks accepted at either moment have a common voter if and only if the list is shorter than two smallest locks of the first moment or fewer than two old members stay, and shorter than the smallest locks of both moments together or no old member stays |
| Locks.LocksMeetOnceIff | src/consensus.rs:878-910 | At a single moment they do if and only if the list is shorter than two smallest locks or fewer than two old members stay |
| Locks.LocksThirdIff | src/consensus.rs:878-910 | All pairs of either moment share more than a third of the members under exactly the stated condition on the sizes |
| Locks.UnchangedListShares | src/consensus.rs:878-910 | Where the list of a height is the one before it, any two locks accepted for the height, at whichever moments, share more than a third of it |
| Locks.RunLocksShare | src/consensus.rs:673-754 | In every run any two locked proposals handed to the core for one height were accepted at one moment or at the two moments of the height, and share at least `LeastShared` of these |
| Locks.DisjointLocks | src/types.rs:431-451 | When a list grows from two members to four, two locks without a common voter are accepted |
| Locks.LocksSplit | src/types.rs:431-451 | When a list grows from one member to four, a lock of the old member is accepted at the height and one of the three new ones just after it; they share nobody, though at each moment alone any two locks meet |
| History.RunTracked | src/consensus.rs:284-308 | In every run the height and both authority generations are those determined by the accepted statuses, whose heights increase; starts and pauses alternate; the node is running exactly when it is in the newest list; everything sent is stamped with the height and authority its past statuses determine |
| History.ReceiveStatusTracked | src/consensus.rs:815-845 | After every accepted status the node is running exactly when that status lists it |
| History.IncreasingStrictly | src/consensus.rs:815-824 | Heights of accepted statuses strictly increase |
| History.SwitchesAlternate | src/consensus.rs:288-300 | No pause before the first start, and between two starts lies a pause and between two pauses a start |
| History.TwoGenerations | src/types.rs:415-429 | At height H the current list is the one in force at H and the old list the one in force at H-1; messages for H-1 are judged by the list in force there if and only if the last status was consecutive or did not change the list |
| History.JumpMisjudges | src/consensus.rs:840-843 | A status that skips heights makes the height below be judged by a list not yet in force there |
| History.JudgedByOwnHeight | src/consensus.rs:847-1004 | In every run of consecutive statuses each vote, proposal, lock vote and previous-height proof handed on was judged by the list in force at its own height |
| Delivery.DrainExact | src/consensus.rs:383-395 | Draining forwards exactly the cached votes before the first refused one, in arrival order, fails if and only if there is one, and caches nothing again |
| Delivery.CachedProposalRefused | src/consensus.rs:358-381 | Right after a height is entered the first proposal cached for it is turned away and nothing is sent |
| Delivery.StatusDelivers | src/consensus.rs:302-307 | Entering a height with a proposal cached for it delivers nothing cached and leaves the votes in the cache; otherwise the votes up to the first refused one are forwarded in order and only that height leaves the cache |
| Delivery.CachedVotesDeliveredIff | src/consensus.rs:284-307 | In every run the votes cached for the height that a status enters all reach the core if and only if there are none, or no proposal is cached for that height and none of them is refused |
| Waiting.WaitingExact | src/consensus.rs:383-395 | In every run the votes cached for a height are exactly those kept for it, in arrival order, since it was last entered with no proposal waiting |
| Waiting.CachesMove | src/consensus.rs:218-310 | Each message adds one vote or one proposal to one queue, or empties the queues of the height it enters, the votes' only if no proposal waits there, or moves none |
| Waiting.LeftBehind | src/consensus.rs:302-307 | Nothing cached for a height at or below the current one is ever let out again, be it left behind or skipped |
| Scenario.LeftBehindHappens | src/consensus.rs:302-307 | A run in which entering a height with a proposal and a vote cached for it fails, sends the core neither, and the vote stays whatever follows |
| Acceptance.VoteAcceptedIff | src/consensus.rs:756-813 | A vote is accepted if and only if it is signed by its voter, for the current or previous height, loggable, and by a member; it is then stored |
| Acceptance.ProposalCachedIff | src/consensus.rs:220-259 | A received proposal is kept for later if and only if it decodes, is less than sixteen heights ahead and loggable; it queues behind those of its height; the block of every one that decodes is known from then on |
| Acceptance.ProposalAcceptedIff | src/consensus.rs:673-754 | A proposal is accepted if and only if all checks hold, and with which verdict it is passed on; a kept proof stays if it is the previous height's and otherwise makes way for the proposal's |
| Acceptance.CommitSucceedsIff | src/consensus.rs:553-583 | A commit succeeds if and only if it is not for a past height, loggable, its block is known and all lock votes are stored as precommits of its height and round |
| Panics.PanicsIff | src/consensus.rs:218-310 | In every state that a run reaches, a message brings the program down if and only if it is a frame with an overflowing length mark, a block part too short or a lock vote of unknown type, a vote of unknown type, a signed message at height 0, a rightful-looking proposal whose height and round overflow, or a status whose height does or which finds such a proposal cached |
| Panics.FramePanicsIff | src/util.rs:73-96 | Decoding a proposal frame panics exactly in the first three of these ways |
| Acceptance.LockVotesFoundIff | src/consensus.rs:459-478 | A locked proposal's votes are found if and only if they are stored as prevotes of the proposal's own round |
| Relock.RunAccounted | src/consensus.rs:912-963 | In every run each stored prevote lies under its own height and round, or a received proposal claiming a lock there has shown it |
| Relock.LockVotesFoundOnlyIf | src/consensus.rs:459-478 | In every run the lookup succeeds only if each lock vote is of the proposal's own round or was shown by a received proposal claiming a lock at that round |
| Relock.ReproposalFails | src/consensus.rs:397-478 | A block locked in another round cannot be proposed again, whatever is stored, unless a received proposal claims a lock at the new round |
| Scenario.ReproposalHappens | src/consensus.rs:459-478 | A run in which the lock vote is stored at the lock round and the block known, and proposing it again in the next round fails |
| Commits.CollectedSigned | src/consensus.rs:643-671 | Signatures collected from a sound precommit set for one hash are one per voter, each the voter's own on a precommit for that block |
| Commits.CommitProofSigned | src/consensus.rs:553-583 | A handled commit hands out the known block and keeps a proof for its height, round and hash with exactly one good signature per voter of its lock votes |
| Commits.CommitCarries | src/consensus.rs:553-583 | Every successful commit hands out its own height and address, the known content, and a proof for its height, round and hash that has each voter of the lock votes with the stored signature of its first vote, which is the proof kept |
| Commits.SignedProofAccepted | src/consensus.rs:1018-1050 | Such a proof is accepted under a list if and only if its voters are a quorum of it, by weight as well when weights are one and addresses distinct |
| Commits.RunCommitAccepted | src/consensus.rs:553-671 | In every reachable state a commit whose lock votes name its hash yields a proof that a list accepts if and only if the voters are a quorum of that list |
| Commits.PeersAcceptCommit | src/consensus.rs:965-989 | Another node one height further, after consecutive statuses, accepts that proof as the previous height's if and only if the voters are a quorum of the list in force there |
| EndToEnd.NextProposalTaken | src/consensus.rs:218-271 | A node commits a height and, in any state it reaches at the next height without another commit, proposes: another node hands exactly that on to its core if and only if it can decode the block and log the proposal, the proposer is the rightful one of the list in force, the lock votes pass, and the commit's voters are a quorum of the list one height below |
| EndToEnd.ProofStays | src/consensus.rs:965-989 | The previous height's proof, once kept, stays while the run stays at the height and commits nothing, whatever proofs arrive |
| KeptProof.RunKeepsLast | src/consensus.rs:965-989 | In every run the kept proof is the one set last, by a commit or by an accepted proposal of the height where the previous height's was not kept; no status and no cached message sets it |
| KeptProof.CarriesPreviousIff | src/consensus.rs:448-509 | An own proposal carries a proof of the previous height if and only if the height is 1 or that proof is kept |
| KeptProof.StaleProposalRefused | src/consensus.rs:1018-1026 | Where it is not kept, every peer at the proposal's height refuses the proposal |
| Scenario.StaleProposalHappens | src/consensus.rs:448-509 | A run in which a status arrives without a commit, the node proposes with the proof of two heights ago, and its peer refuses |
| Scenario.NextProposalHappens | src/consensus.rs:146-158 | A run of one node in which all that the previous theorem asks for happens and the peer takes the proposal |
| EndToEnd.PeerTakesProposal | src/consensus.rs:218-271 | A peer at a proposal's height passes on the core's own proposal unchanged if and only if it can log it and accepts proposer, lock votes and proof |
| EndToEnd.CommitKept | src/consensus.rs:340-349 | The proof of a commit is the one kept after the status of its height, whatever was cached |
| EndToEnd.FirstAnswerStays | src/consensus.rs:162-216 | While a run stays at one height, the first verdict on a block and the first content for a hash stay |
| Blocks.KnownIsFirst | src/consensus.rs:229-235 | In every run a node knows exactly the hashes that some message of the present height brought, each with the content that came with the first |
| Blocks.FirstBringerIsFirst | src/consensus.rs:187-198 | That message came at the present height, and none at this height brought the hash before it |
| Blocks.CommittedContentIff | src/consensus.rs:553-583 | The content a commit hands out hashes to the committed hash if and only if the first message of the height to bring the hash carried such a content, as a fed one always does |
| Blocks.FrameDecides | src/consensus.rs:229-235 | A decodable frame claiming a hash not yet known decides what every later commit for it at this height hands out |
| Scenario.MisnamedCommit | src/consensus.rs:553-583 | A run whose commit succeeds and hands out a content that does not hash to the committed hash |
| EndToEnd.ProcessRemembers | src/consensus.rs:1006-1010 | Each message keeps height, verdicts and contents, or moves to a later height and forgets them all |
| Proofs.VerifyProof | src/consensus.rs:1018-1050 | The head-count checker's loop over signatures decides exactly the stated condition on all entries |
| Proofs.CheckProof | src/util.rs:6-52 | The weight checker's loop decides exactly the stated condition, with its overflow cases |
| Proofs.WeightsOverlap | src/util.rs:98-117 | Weights of two voter sets in a list add up to at most the total and the weight of their intersection; positive weight means a listed common voter |
| Proofs.WeightedQuorums | src/util.rs:6-52 | Two accepted proofs for one height share voters of more than a third of the weight; at one round with different hashes each of them has signed both; duplicates and any weights allowed |
| Proofs.CountedQuorums | src/consensus.rs:1018-1050 | Two proofs accepted by head count share more than a third of the list |
| Proofs.SignedIff | src/consensus.rs:1040-1044 | A voter of a proof accepted by head count has signed the claimed vote if and only if the signature yields an address |
| Proofs.SignedQuorums | src/consensus.rs:1018-1050 | Two proofs accepted by head count in which every signature yields an address share signers of more than a third of the list; at one round with different hashes each of them has signed both |
| Proofs.UnsignedProofAccepted | src/consensus.rs:1040-1044 | With a signature that yields no address, a proof nobody has signed is accepted by head count for any block, height and list of distinct members, and never by weight |
| Proofs.UnitWeightsCount | src/util.rs:108-117 | With unit weights and distinct addresses the filtered sum is the number of listed voters |
| Proofs.WeightsAdd | src/util.rs:98-117 | Both sums add up over any split of the list; one node weighs its own weight in the total, and among the votes that or nothing as it has voted or not |
| Proofs.CheckedIff | src/util.rs:6-52 | The weight checker accepts everything at height 0, panics exactly where the height plus one, the tripled or the doubled sum overflows, and otherwise accepts exactly the proofs of the height below whose voters are listed, have signed the claimed precommit and carry more than two thirds of the weight |
| Proofs.VerifiedIff | src/consensus.rs:1018-1050 | The head-count checker accepts everything at height 0 and otherwise exactly the proofs of the height with voters more than two thirds of the list, all listed and each a signer or with a signature that yields no address |
| Proofs.CheckersAgree | src/util.rs:6-52 | With unit weights and distinct addresses the weight checker accepts a proof if and only if the head-count checker does and every recovery yields an address, voters outside the list included |
| Authority.AuthorityManage.UpdateAuthority | src/types.rs:415-429 | Moves the current list and its address set to the old generation, installs the new ones and keeps both sets equal to the addresses of their lists |
| Authority.AuthorityManage.IsAboveThreshold | src/types.rs:431-440 | Answers whether a count exceeds two thirds of the old list, whichever generation is asked for |
| Authority.AuthorityManage.ContainsSender | src/types.rs:442-451 | Answers whether some sender is in the old set, whichever generation is asked for |
| Authority.OneProposer | src/consensus.rs:847-876 | Exactly one address is accepted as proposer of a height and round |
| Authority.RotationVisitsAll | src/consensus.rs:864-865 | Over any n consecutive rounds of a height every position of a list of length n is selected exactly once |
| Authority.RoundRobin | src/consensus.rs:864-865 | The turn starts at the first member and moves on by one, past the last to the first, with each round and each height |
| LruCache.PutKeeps | src/collection.rs:28-38 | A write stores the value, makes the key the newest, changes no other value, and loses no key after which, the new one included, fewer than sixteen others were used |
| LruCache.PutEvicts | src/collection.rs:36-36 | An insert loses a key if and only if all fifteen others are newer |
| LruCache.PutDrops | src/collection.rs:28-38 | A write drops another key if and only if it is the oldest of sixteen and the key written is new |
| LruCache.TouchKeeps | src/collection.rs:47-49 | A read changes nothing but recency |
| Collection.VoteCollector.Add | src/collection.rs:20-39 | The new index and the answer are those of first-write-wins in the slot of the height, round and type |
| Collection.VoteCollector.GetVoteSet | src/collection.rs:41-50 | The answer is what is stored, and height and round become the most recently used |
| Collection.ProposalCollector.Add | src/collection.rs:158-170 | The first proposal of a height and round stays |
| Collection.AddWrites | src/collection.rs:20-143 | Adding is first-write-wins, answers true if and only if the vote was not stored there, and leaves every other slot unchanged or evicts it |
| Collection.GetReads | src/collection.rs:41-120 | Looking up answers with what is stored and changes no slot |
| Collection.ProposalsAddWrites | src/collection.rs:158-192 | The same for proposals |
| Collection.ProposalsAddDrops | src/collection.rs:158-192 | Which heights and rounds an add drops, and how it changes what is most recently used: a new round drops the oldest, a repeated one drops and reorders none |
| Retention.RefinesUnbounded | src/collection.rs:20-143 | For every sequence of adds and lookups with at most sixteen heights and sixteen rounds at the height asked for, each lookup answers as an unbounded first-write-wins map |
| Retention.SlotSurvives | src/collection.rs:20-143 | Beyond that, a slot still answers so as long as, from its first vote on, its height and its round have always been kept |
| Retention.AgreesIff | src/collection.rs:20-143 | In general it answers so if and only if every vote that the slot held before it was last inserted has come again since, first under its key with the same signature |
| Retention.SlotExact | src/collection.rs:20-143 | After every history each lookup answers with the votes added since the round was last inserted into its height, since that was last inserted, the first under each key, and with nothing if either is not kept |
| Retention.HeightKeptIff | src/collection.rs:20-50 | A height is in the index if and only if it was added and fewer than sixteen other heights were used since its last use |
| Retention.RoundKeptIff | src/collection.rs:66-90 | A round of a kept height is in the index if and only if, since the height was last inserted, it was added and fewer than sixteen other rounds were used since its last use |
| RunIndex.RunIsBounded | src/consensus.rs:162-356 | The vote index of every run is the bounded index after the uses that the run's messages make of it |
| RunIndex.RunSlotExact | src/consensus.rs:643-671 | So in every run a lookup answers with the votes added to the slot since it was last inserted |
| RunIndex.RunCommitIff | src/consensus.rs:553-583 | In every run a commit succeeds if and only if it is not for a past height, loggable, its block is known, and all its lock votes are among the precommits added to the round since it was last inserted |
| RunIndex.AnyVoterCounts | src/consensus.rs:809-811 | A signed vote of the present height is a use of the index whether or not its voter is a member |
| RunIndex.CrowdedOut | src/collection.rs:66-84 | Votes for sixteen other rounds of a height, whatever came before, drop a round of it |
| Wal.DecimalParses | src/wal.rs:88-91 | The number written to the index file reads back as itself |
| Wal.ParseU64Iff | src/wal.rs:45-58 | The index is accepted if and only if it is digits only, at least one, after at most one plus sign, of a number below 2^64, and is then that number |
| Wal.DigitsReadIff | src/wal.rs:49-49 | Digits are read in base ten, and no other character is |
| WalLog.Log.New | src/wal.rs:21-76 | Opening reads the index and opens that height's file, or fails on a bad index and changes nothing |
| WalLog.Log.SetHeight | src/wal.rs:85-113 | Writes the index, opens the file and deletes exactly the handles and files more than three below |
| WalLog.Log.Save | src/wal.rs:115-150 | Appends one framed record to the file of its height where that is open or next, and otherwise nothing |
| WalLog.Log.Load | src/wal.rs:153-202 | The loop over the files and the index-advancing loop inside it yield exactly the specified records and stay in range |
| WalLog.Log.ParseRecords | src/wal.rs:179-199 | The parsing loop yields the records of the buffered bytes, and terminates |
| WalRecovery.ParseFramesIff | src/wal.rs:136-144 | A log file parses back to what was written if and only if all bodies are below 2^32 bytes |
| WalRecovery.TornTail | src/wal.rs:175-199 | A log file cut at any byte parses to exactly the records wholly before the cut |
| WalRecovery.WholeIsExact | src/wal.rs:181-196 | Which records lie wholly before the cut |
| WalRecovery.LoadTorn | src/wal.rs:153-202 | A freshly opened log whose current file is cut at any byte loads exactly those records |
| WalRecovery.RunConsistent | src/wal.rs:85-150 | After any saves, non-decreasing heights and restarts, index, handles and the files of the current and next height hold what was saved for them |
| WalRecovery.RecoveryIff | src/wal.rs:20-202 | Reopening and loading then gives back in order exactly what was saved for the current height, while it was current or next, if and only if those bodies are below 2^32 bytes |
| WalRecovery.OpenWindow | src/wal.rs:85-113 | The current height is open, every open height lies within three below and one above it, and at most five handles exist |
| WalRecovery.SetHeightExact | src/wal.rs:85-113 | Handles and files of the three heights below stay as they are, older handles go with their files, files without a handle are left alone, and the height's own file keeps its contents |
| WalRecovery.WindowKeeps | src/wal.rs:85-150 | In every run a height set since the last restart and at most three below the current one is open, and a save for it is written |
| WalRecovery.RunDiskExact | src/wal.rs:20-150 | In every run a height is open if and only if its file was opened since the last restart and lies at most three below, and its file holds exactly what was written for it |
| WalRecovery.OpenExact | src/wal.rs:21-76 | Opening succeeds if and only if the index is empty or a number, opens that height's file alone and loses none |
| WalRecovery.SaveAnswers | src/wal.rs:115-150 | A save answers the length of the body where the height is open or next and 0 elsewhere, and panics only where the height is not open and the current one is the greatest there is |
| WalRecovery.SaveTouchesOneFile | src/wal.rs:115-150 | A save appends one record to at most one file, and to one if and only if the body is not empty and the height is open or next |
| WalRecovery.LoadTwoFilesIff | src/wal.rs:154-201 | With the next height's file open, and any lower ones, loading gives both files' records if and only if the next file is empty, or the current one is not and the next begins the concatenation of both |
| WalRecovery.RunningLoadIff | src/wal.rs:154-201 | The same for every log that has been running: what was saved for both heights comes back under exactly that condition |
| WalRecovery.LoadTwoFilesRepeats | src/wal.rs:154-201 | One record in each file: the first is read twice, the second never |
| Framing.ExtractInvertsCombine | src/util.rs:54-87 | Extracting what was combined gives both parts if and only if the first is shorter than 2^64 - 8 bytes |
| Framing.CombineInvertsExtract | src/util.rs:54-87 | Whatever is extracted combines to the same bytes |
| Framing.DecodeInvertsEncodeBlock | src/util.rs:64-96 | A block frame decodes to its height, block and hash if and only if the hash is shorter than 2^64 - 8 bytes |
| Framing.EncodeInvertsDecodeBlock | src/util.rs:64-96 | Whatever decodes as a block frame encodes to the same bytes |
| Framing.FramingInjective | src/util.rs:73-96 | Different accepted bytes give different results, in both formats |
| Layout.CombinedLayout | src/util.rs:54-62 | Eight bytes of big-endian length of the first part, the first part, the second |
| Layout.BlockLayout | src/util.rs:64-71 | Eight bytes of big-endian height, then hash and block combined, the hash first |
| Layout.RecordLayout | src/wal.rs:136-144 | Four bytes of little-endian length, the type byte, the body |
| Digits.BigEndianValue | src/util.rs:55-56 | A number below 256^k is the value of its k big-endian digits |
| Codec.EncodeProof | src/types.rs:494-518 | From every iteration order of the vote map the sorting encoder yields the same item |
| Codec.SortCanonical | src/types.rs:500-508 | Sorting any iteration order of the map gives its ascending enumeration with the right signatures |
| Codec.ProofRoundTrip | src/types.rs:494-552 | Decoding an encoded proof is the identity |
| Codec.ProofCanonical | src/types.rs:520-551 | An item that decodes to a proof is that proof's encoding if and only if its addresses strictly ascend |
| Codec.ProposalRoundTrip | src/types.rs:128-165 | Decoding an encoded proposal is the identity |
| Codec.SignedProposalRoundTrip | src/types.rs:85-107 | Decoding an encoded signed proposal is the identity |
| Codec.SignedVoteRoundTrip | src/types.rs:200-217 | Decoding an encoded signed vote is the identity |
| Codec.SignedVoteDecodesIff | src/types.rs:200-267 | Nothing but its encoding decodes to a signed vote |
| Codec.ProposalDecodesIff | src/types.rs:128-165 | Apart from the proof nothing but its encoding decodes to a proposal |
| Codec.ProofDecodesIff | src/types.rs:520-551 | Which two lists decode to which proof: of one length, in any order, the last signature of an address counting |
| Layout.VoteLayout | src/types.rs:234-244 | The type as 0 or 1, height, round, block and voter, in this order |
| Layout.ProofLayout | src/types.rs:494-518 | Height, round, block, all and only the voters in ascending order, and their signatures in the same order |
| Layout.ProposalLayout | src/types.rs:128-139 | Height, round, hash, proof, lock round, the signed lock votes in order and the proposer, in this order |
| Layout.DigestsBind | src/consensus.rs:682-682 | Where hash and RLP bytes have no collisions, a digest determines the vote or the proposal in all fields, and none is both a vote's and a proposal's |
| ByteOrder.LtIff | src/types.rs:500-508 | Byte strings are sorted lexicographically: a proper prefix first, else by the first difference |
| Types.VoteConversionBijective | src/types.rs:269-297 | Wire votes and core votes convert into each other without loss |
| Types.IntoAddrSet | src/util.rs:119-125 | The list of addresses in order, repetitions kept |
| Transport.BuiltConvertsBack | src/consensus.rs:448-509 | What is built and signed for a proposal of the core converts back to it and carries the kept proof |
| Transport.ProposalSurvives | src/consensus.rs:397-446 | The bytes sent for a proposal decode at a peer to the built proposal, which is the core's own again, with the content bytes and hash |
| Transport.RunProposalSurvives | src/consensus.rs:397-509 | In every state that a run reaches, a peer decodes the message exactly when it decodes the content, and then to the proposal built, which is the core's own again and signed by this node, with content bytes and hash |
| Consensus.Serve | src/consensus.rs:146-158 | The main loop over any run of messages ends in the state that the specification gives |
| Consensus.Consensus.SendCacheVote | src/consensus.rs:383-395 | The draining loop, with its early return, delivers what the specification says |
| Consensus.Consensus.SendCacheProposal | src/consensus.rs:358-381 | The draining loop for proposals |
| Consensus.Consensus.CheckLockVotes | src/consensus.rs:878-910 | The loop filling the set of senders, then threshold and membership |
| Consensus.Consensus.FindLockVotes | src/consensus.rs:459-478 | The loop looking up the signed lock votes in order |
| Consensus.Consensus.GenerateProof | src/consensus.rs:643-671 | The loop collecting one signature per voter |

## Left out

- Threads, channels, `select!`, logging, `ConsensusExecutor`, and when `ask_for_proposal` and `check_proposal` run: their answers arrive as inputs at any time.
- The BFT core itself: no agreement across rounds and no liveness is claimed, since both depend on its locking rule.
- RLP bytes, JSON, real cryptography and real files.
- Partial writes within one record of a running log, and crashes inside `set_height`; only a log file cut at an arbitrary byte is treated.
- `load_wal_log` (`src/consensus.rs:1054`) replay: it expects framed bytes where `handle_signed_proposal` stores JSON, so no equivalence of a replayed run is claimed.
- The log object as a field of the modelled `Consensus`: what the handlers write to it does not influence the fields it keeps, and only whether a record can be serialised is visible in `Env.logs`. The log is modelled on its own in `Wal`, `WalLog` and `WalRecovery`.
- Error texts, `Node::get_address`, `Commit::new` and other one-line accessors.
- Wrap-around of overflowing arithmetic in a build without overflow checks.
- Safety.RunSound: claims the own height and round of a stored vote for precommit sets only, because lock votes are filed under the lock round without comparing their own height, round or type (`src/consensus.rs:912-963`).
- Locks.LocksAroundShareIff: the two moments of one history; a node that skips a height judges its locks by a later list (`History.JumpMisjudges`), and no overlap with the locks of other nodes is claimed for it.
- Relock.LockVotesFoundOnlyIf: one direction over runs, since a received proposal may be turned away before its lock votes are looked at; the exact condition on the state is `Acceptance.LockVotesFoundIff`.
- WalRecovery.RecoveryIff: requires non-decreasing heights and a current height above 0, as a node that has accepted a status has; `load` returns nothing at height 0.
