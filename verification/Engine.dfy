/** The consensus driver on values: every handler of src/consensus.rs as a
    function from a state to the state it leaves and the result it returns. The
    trace records each input handed to the core, with the height, the authority
    and the wire message it was sent under. */
module Engine {
  import opened Prelude
  import opened Types
  import opened Env
  import opened LruCache
  import opened Collection
  import opened Authority
  import opened Proofs
  import Codec
  import Framing

  datatype CoreInput =
    | ToProposal(proposal: BftProposal) | ToVote(vote: BftVote) | ToFeed(feed: BftFeed)
    | ToStatus(status: BftStatus) | ToVerifyResp(resp: VerifyResp) | ToStart | ToPause

  /** The wire message behind an input. */
  datatype Wire = NoWire | ByVote(sv: SignedVote) | ByProposal(sp: SignedProposal) | ByStatus(rs: Status)

  datatype Event = Event(input: CoreInput, at: u64, under: Authority, wire: Wire)

  datatype Cached = Cached(signed: SignedProposal, block: Content, bytes: Bytes)

  datatype State = State(
    height: u64, authority: Authority, votes: VoteStore, proposals: ProposalStore, proof: Option<Proof>,
    verified: map<Hash, bool>, origin: map<Hash, Content>,
    proposalCache: map<u64, seq<Cached>>, voteCache: map<u64, seq<SignedVote>>,
    power: bool, trace: seq<Event>)

  type Step<T> = (State, Result<T>)

  function Initial(): State {
    State(0, NoAuthority(), EmptyLru(), EmptyLru(), None, map[], map[], map[], map[], false, [])
  }

  function Send(s: State, input: CoreInput, wire: Wire): State {
    s.(trace := s.trace + [Event(input, s.height, s.authority, wire)])
  }

  function Push<T>(cache: map<u64, seq<T>>, height: u64, x: T): map<u64, seq<T>> {
    cache[height := (if height in cache then cache[height] else []) + [x]]
  }

  function OrInsert<K, V>(m: map<K, V>, k: K, v: V): map<K, V> {
    if k in m then m else m[k := v]
  }

  // ---- votes from peers

  function HandleSignedVote(env: Env, s: State, sv: SignedVote): (r: Step<BftVote>)
    ensures r.0 == s.(votes := r.0.votes, voteCache := r.0.voteCache)
  {
    var v, from := sv.vote, env.recover(sv.signature, env.VoteDigest(sv.vote));
    if from.None? then (s, Failure(SupportErr))
    else if s.height == 0 then (s, Failure(Panicked))
    else if v.height < s.height - 1 then (s, Failure(ObsoleteMsg))
    else if v.voter != from.value then (s, Failure(SignatureErr))
    else if v.height >= s.height && v.height - s.height < CACHE_NUMBER && !env.logs(LogSignedVote(sv)) then
      (s, Failure(SerJsonErr))
    else if v.height > s.height then
      (s.(voteCache := Push(s.voteCache, v.height, sv)), Failure(FutureMsg))
    else
      (s.(votes := StoreAdd(s.votes, v.height, v.round, v.voteType, ToBftVote(v), sv).0),
       if v.voter in s.authority.AddressesFor(v.height) then Success(ToBftVote(v)) else Failure(InvalidVoter))
  }

  function ReceiveVote(env: Env, s: State, bytes: Bytes): Step<()> {
    var item := env.unrlp(bytes);
    if item.None? then (s, Failure(DecodeErr))
    else
      var sv := Codec.DecodeSignedVote(item.value);
      if sv.Failure? then (s, Failure(sv.error)) else ForwardVote(env, s, sv.value)
  }

  function ForwardVote(env: Env, s: State, sv: SignedVote): Step<()> {
    var (s', r) := HandleSignedVote(env, s, sv);
    if r.Failure? then (s', Failure(r.error)) else (Send(s', ToVote(r.value), ByVote(sv)), Success(()))
  }

  function DrainVotes(env: Env, s: State, votes: seq<SignedVote>): Step<()>
    decreases |votes|
  {
    if votes == [] then (s, Success(()))
    else
      var (s', r) := ForwardVote(env, s, votes[0]);
      if r.Failure? then (s', r) else DrainVotes(env, s', votes[1..])
  }

  function SendCacheVote(env: Env, s: State, height: u64): Step<()> {
    if height !in s.voteCache then (s, Success(()))
    else DrainVotes(env, s.(voteCache := s.voteCache - {height}), s.voteCache[height])
  }

  // ---- proposals from peers

  function CheckSignedVote(env: Env, s: State, height: u64, round: u64, hash: Hash, sv: SignedVote): (r: Step<Address>)
    ensures r.0 == s.(votes := r.0.votes)
  {
    var v := sv.vote;
    if s.height == 0 then (s, Failure(Panicked))
    else if height < s.height - 1 then (s, Failure(ObsoleteMsg))
    else if v.proposal != hash then (s, Failure(BlockVerifyDiff))
    else if v.voter !in s.authority.AddressesFor(height) then (s, Failure(InvalidVoter))
    else
      var from := env.recover(sv.signature, env.VoteDigest(v));
      if from.None? then (s, Failure(SupportErr))
      else if from.value != v.voter then (s, Failure(SignatureErr))
      else (s.(votes := StoreAdd(s.votes, height, round, Prevote, ToBftVote(v), sv).0), Success(v.voter))
  }

  /** The loop of `check_lock_votes`: `senders` are those already seen. */
  function CollectSenders(env: Env, s: State, height: u64, round: u64, hash: Hash,
                          votes: seq<SignedVote>, senders: set<Address>): (r: Step<set<Address>>)
    ensures r.0 == s.(votes := r.0.votes)
    decreases |votes|
  {
    if votes == [] then (s, Success(senders))
    else
      var (s', r) := CheckSignedVote(env, s, height, round, hash, votes[0]);
      if r.Failure? then (s', Failure(r.error))
      else if r.value in senders then (s', Failure(BlockVerifyDiff))
      else CollectSenders(env, s', height, round, hash, votes[1..], senders + {r.value})
  }

  function CheckLockVotes(env: Env, s: State, p: Proposal): (r: Step<()>)
    ensures r.0 == s.(votes := r.0.votes)
  {
    if p.lockRound.None? then (s, Success(()))
    else
      var (s', r) := CollectSenders(env, s, p.height, p.lockRound.value, p.hash, p.lockVotes, {});
      if r.Failure? then (s', Failure(r.error))
      else if s'.authority.AboveThreshold(|r.value|) && s'.authority.ContainsSender(r.value) then (s', Success(()))
      else (s', Failure(IllegalProposalLock))
  }

  function CheckPreviousProof(env: Env, s: State, height: u64, proof: Proof): (r: Step<()>)
    ensures r.0 == s.(proof := r.0.proof)
  {
    if height != s.height then (s, Failure(ProofErr))
    else if height == 0 then (s, Failure(Panicked))
    else if !ProofVerified(env, proof, height - 1, s.authority.ListFor(height - 1)) then (s, Failure(ProofErr))
    else if s.proof.None? || s.proof.value.height != height - 1 then (s.(proof := Some(proof)), Success(()))
    else (s, Success(()))
  }

  function HandleSignedProposal(env: Env, s: State, sp: SignedProposal): (r: Step<(BftProposal, Option<VerifyResp>)>)
    ensures r.0 == s.(votes := r.0.votes, proposals := r.0.proposals, proof := r.0.proof)
  {
    var p, from := sp.proposal, env.recover(sp.signature, env.ProposalDigest(sp.proposal));
    if from.None? then (s, Failure(SupportErr))
    else if p.proposer != from.value then (s, Failure(SignatureErr))
    else if s.height == 0 then (s, Failure(Panicked))
    else if p.height < s.height - 1 then (s, Failure(ObsoleteMsg))
    else if !env.logs(LogSignedProposal(sp)) then (s, Failure(SerJsonErr))
    else
      var s1 := s.(proposals := ProposalsAdd(s.proposals, p.height, p.round, sp).0);
      var proposer := ProposerCheck(s.authority, p.height, p.round, p.proposer);
      if proposer.Failure? then (s1, Failure(proposer.error))
      else
        var (s2, lock) := CheckLockVotes(env, s1, p);
        if lock.Failure? then (s2, Failure(lock.error))
        else AdmitProposal(env, s2, p)
  }

  /** The rest of the handler, once proposer and lock votes are accepted. */
  function AdmitProposal(env: Env, s: State, p: Proposal): Step<(BftProposal, Option<VerifyResp>)>
    requires s.height > 0
  {
    var bft := ToBftProposal(p, p.hash);
    if p.height == s.height - 1 then (s, Success((bft, Some(VerifyResp(true, p.hash)))))
    else if p.hash !in s.verified && p.hash !in s.origin then (s, Failure(LoseBlock))
    else
      var resp := if p.hash in s.verified then Some(VerifyResp(s.verified[p.hash], p.hash)) else None;
      var (s', proof) := CheckPreviousProof(env, s, p.height, p.proof);
      if proof.Failure? then (s', Failure(proof.error)) else (s', Success((bft, resp)))
  }

  function ForwardProposal(env: Env, s: State, sp: SignedProposal): Step<()> {
    var (s', r) := HandleSignedProposal(env, s, sp);
    if r.Failure? then (s', Failure(r.error))
    else
      var sent := Send(s', ToProposal(r.value.0), ByProposal(sp));
      (if r.value.1.Some? then Send(sent, ToVerifyResp(r.value.1.value), NoWire) else sent, Success(()))
  }

  function DecodeProposalMessage(env: Env, bytes: Bytes): Result<(SignedProposal, Content, Hash)> {
    var (sp, block) :- Framing.Extract(bytes);
    var item := env.unrlp(sp);
    if item.None? then Failure(DecodeErr)
    else
      var signed :- Codec.DecodeSignedProposal(item.value);
      var (_, b, hash) :- Framing.DecodeBlock(block);
      var content := env.decode(b);
      if content.None? then Failure(DecodeErr) else Success((signed, content.value, hash))
  }

  function ReceiveProposal(env: Env, s: State, bytes: Bytes): Step<()> {
    var decoded := DecodeProposalMessage(env, bytes);
    if decoded.Failure? then (s, Failure(decoded.error))
    else
      var (sp, block, hash) := decoded.value;
      var s1, height := s.(origin := OrInsert(s.origin, hash, block)), sp.proposal.height;
      if height > s.height && height - s.height < CACHE_NUMBER then
        if !env.logs(LogBytes(bytes)) then (s1, Failure(SerJsonErr))
        else (s1.(proposalCache := Push(s1.proposalCache, height, Cached(sp, block, bytes))), Success(()))
      else ForwardProposal(env, s1, sp)
  }

  function DrainProposals(env: Env, s: State, cached: seq<Cached>): Step<()>
    decreases |cached|
  {
    if cached == [] then (s, Success(()))
    else
      var (s', r) := ForwardProposal(env, s, cached[0].signed);
      if r.Failure? then (s', r) else DrainProposals(env, s', cached[1..])
  }

  function SendCacheProposal(env: Env, s: State, height: u64): Step<()> {
    if height !in s.proposalCache then (s, Success(()))
    else DrainProposals(env, s.(proposalCache := s.proposalCache - {height}), s.proposalCache[height])
  }

  // ---- status

  function GotoNewHeight(s: State, height: u64): State
    requires height + 1 < U64_BOUND
  {
    s.(verified := map[], origin := map[], height := height + 1)
  }

  /** `height + 1` can overflow; nothing has been sent by then. */
  function HandleRichStatus(env: Env, s: State, rs: Status): Step<BftStatus> {
    if rs.height < s.height then (s, Failure(ObsoleteMsg))
    else if !env.logs(LogStatus(rs)) then (s, Failure(SerJsonErr))
    else if rs.height + 1 == U64_BOUND then (s, Failure(Panicked))
    else
      (GotoNewHeight(s.(authority := s.authority.Updated(s.height, rs.authorityList)), rs.height),
       Success(ToBftStatus(rs)))
  }

  /** `Start` or `Pause` when membership of the newest list changes. */
  function SwitchPower(env: Env, s: State, member: bool): State {
    if member == s.power then s
    else Send(s.(power := member), if member then ToStart else ToPause, NoWire)
  }

  function ReceiveStatus(env: Env, s: State, rs: Status): Step<()> {
    var (s1, r) := HandleRichStatus(env, s, rs);
    if r.Failure? then (s1, Failure(r.error))
    else
      var s2 := SwitchPower(env, s1, env.address in AddressSet(rs.authorityList));
      var s3 := Send(s2, ToStatus(r.value), ByStatus(rs));
      var (s4, drained) := SendCacheProposal(env, s3, s3.height);
      if drained.Failure? then (s4, drained) else SendCacheVote(env, s4, s4.height)
  }

  // ---- outputs of the core

  /** The signed votes stored under the given keys, in their order. */
  function LookUpVotes(stored: VoteSet, votes: seq<BftVote>): Result<seq<SignedVote>> {
    if votes == [] then Success([])
    else if votes[0] !in stored then Failure(LoseSignedVote)
    else
      var rest :- LookUpVotes(stored, votes[1..]);
      Success([stored[votes[0]]] + rest)
  }

  function BuildSignedProposal(env: Env, s: State, p: BftProposal): (r: Step<SignedProposal>)
    ensures r.0 == s.(votes := r.0.votes)
  {
    if s.proof.None? && s.height != 1 then (s, Failure(MissingProof))
    else
      var (s', lockVotes) := FindLockVotes(s, p);
      if lockVotes.Failure? then (s', Failure(lockVotes.error))
      else
        var proof := if s.height == 1 then Proof(p.content, 0, 0, map[]) else s.proof.value;
        var proposal := Proposal(p.height, p.round, p.content, proof, p.lockRound, lockVotes.value, p.proposer);
        var signature := env.sign(env.ProposalDigest(proposal));
        if signature.None? then (s', Failure(SupportErr)) else (s', Success(SignedProposal(proposal, signature.value)))
  }

  /** Lock votes are looked up at the proposal's own round. */
  function FindLockVotes(s: State, p: BftProposal): (r: Step<seq<SignedVote>>)
    ensures r.0 == s.(votes := r.0.votes)
  {
    if p.lockRound.None? then (s, Success([]))
    else
      var (votes, found) := StoreGet(s.votes, p.height, p.round, Prevote);
      (s.(votes := votes), if found.None? then Failure(NoVoteset) else LookUpVotes(found.value, p.lockVotes))
  }

  function HandleProposal(env: Env, s: State, p: BftProposal): (r: Step<Bytes>)
    ensures r.0 == s.(votes := r.0.votes, proposals := r.0.proposals)
  {
    if p.height != s.height then (s, Failure(BftCoreErr))
    else if !env.logs(LogProposal(p)) then (s, Failure(SerJsonErr))
    else
      var (s1, built) := BuildSignedProposal(env, s, p);
      if built.Failure? then (s1, Failure(built.error))
      else
        var s2 := s1.(proposals := ProposalsAdd(s1.proposals, p.height, p.round, built.value).0);
        (s2, EncodeProposalMessage(env, s2, built.value, p.content))
  }

  function EncodeProposalMessage(env: Env, s: State, sp: SignedProposal, hash: Hash): Result<Bytes> {
    if hash !in s.origin then Failure(LoseBlock)
    else
      var content := env.encode(s.origin[hash]);
      if content.None? then Failure(EncodeErr)
      else
        var block := Framing.BlockFrame(s.height, content.value, hash);
        Success(Framing.Combined(env.rlp(Codec.SignedProposalItem(sp)), block))
  }

  function HandleVote(env: Env, s: State, v: BftVote): (r: Step<SignedVote>)
    ensures r.0 == s.(votes := r.0.votes)
  {
    if v.height < s.height then (s, Failure(BftCoreErr))
    else if !env.logs(LogVote(v)) then (s, Failure(SerJsonErr))
    else
      var vote := FromBftVote(v, v.voteType);
      var signature := env.sign(env.VoteDigest(vote));
      if signature.None? then (s, Failure(SupportErr))
      else
        var sv := SignedVote(vote, signature.value);
        (s.(votes := StoreAdd(s.votes, v.height, v.round, v.voteType, v, sv).0), Success(sv))
  }

  /** Per voter the signature of its first vote in the list. */
  function CollectSignatures(stored: VoteSet, votes: seq<BftVote>, sigs: map<Address, Signature>)
      : Result<map<Address, Signature>>
    decreases |votes|
  {
    if votes == [] then Success(sigs)
    else if votes[0] !in stored then Failure(LoseSignedVote)
    else CollectSignatures(stored, votes[1..], OrInsert(sigs, votes[0].voter, stored[votes[0]].signature))
  }

  function GenerateProof(s: State, height: u64, round: u64, hash: Hash, votes: seq<BftVote>): (r: Step<Proof>)
    ensures r.0 == s.(votes := r.0.votes)
  {
    var (store, found) := StoreGet(s.votes, height, round, Precommit);
    var s' := s.(votes := store);
    if found.None? then (s', Failure(NoVoteset))
    else
      var sigs := CollectSignatures(found.value, votes, map[]);
      if sigs.Failure? then (s', Failure(sigs.error)) else (s', Success(Proof(hash, height, round, sigs.value)))
  }

  function HandleCommit(env: Env, s: State, c: BftCommit): (r: Step<Commit>)
    ensures r.0 == s.(votes := r.0.votes, proof := r.0.proof)
  {
    if c.height < s.height then (s, Failure(BftCoreErr))
    else if !env.logs(LogCommit(c)) then (s, Failure(SerJsonErr))
    else if c.proposal !in s.origin then (s, Failure(LoseBlock))
    else
      var (s', proof) := GenerateProof(s, c.height, c.round, c.proposal, c.lockVotes);
      if proof.Failure? then (s', Failure(proof.error))
      else (s'.(proof := Some(proof.value)), Success(Commit(c.height, s.origin[c.proposal], proof.value, c.address)))
  }

  /** `answer` is the status with which the application acknowledges the commit. */
  function CoreCommit(env: Env, s: State, c: BftCommit, answer: Option<Status>): Step<()> {
    var (s', r) := HandleCommit(env, s, c);
    if r.Failure? then (s', Failure(r.error))
    else if answer.None? then (s', Failure(SupportErr))
    else ReceiveStatus(env, s', answer.value)
  }

  // ---- answers of the application

  function ReceiveVerifyResp(env: Env, s: State, vr: VerifyResp): Step<()> {
    var s1 := Send(s, ToVerifyResp(vr), NoWire);
    (s1.(verified := OrInsert(s1.verified, vr.proposal, vr.isPass)),
     if env.logs(LogVerifyResp(vr)) then Success(()) else Failure(SerJsonErr))
  }

  function ReceiveFeed(env: Env, s: State, f: Feed): Step<()> {
    var hash := env.contentHash(f.content);
    var s1 := Send(s, ToFeed(BftFeed(f.height, hash)), NoWire);
    (s1.(origin := OrInsert(s1.origin, hash, f.content)),
     if env.logs(LogFeed(f)) then Success(()) else Failure(SerJsonErr))
  }

  // ---- runs

  datatype Input =
    | PeerProposal(bytes: Bytes) | PeerVote(bytes: Bytes) | NewStatus(rs: Status)
    | CoreProposal(p: BftProposal) | CoreVote(v: BftVote) | Committed(c: BftCommit, answer: Option<Status>)
    | ProposalRequest(height: u64) | Verified(vr: VerifyResp) | Fed(f: Feed)

  function Unit<T>(step: Step<T>): Step<()> {
    (step.0, if step.1.Success? then Success(()) else Failure(step.1.error))
  }

  function Process(env: Env, s: State, i: Input): Step<()> {
    match i
    case PeerProposal(bytes) => ReceiveProposal(env, s, bytes)
    case PeerVote(bytes) => ReceiveVote(env, s, bytes)
    case NewStatus(rs) => ReceiveStatus(env, s, rs)
    case CoreProposal(p) => Unit(HandleProposal(env, s, p))
    case CoreVote(v) => Unit(HandleVote(env, s, v))
    case Committed(c, answer) => CoreCommit(env, s, c, answer)
    case ProposalRequest(_) => (s, Success(()))
    case Verified(vr) => ReceiveVerifyResp(env, s, vr)
    case Fed(f) => ReceiveFeed(env, s, f)
  }

  /** Errors are logged and the loop goes on. After `Panicked` the thread is gone;
      letting a run go on regardless only adds behaviours. */
  function Run(env: Env, inputs: seq<Input>): State {
    if inputs == [] then Initial() else Process(env, Run(env, inputs[..|inputs| - 1]), inputs[|inputs| - 1]).0
  }

  /** The core only hands over votes cast in this node's name. */
  predicate OwnVotes(env: Env, inputs: seq<Input>) {
    forall i | 0 <= i < |inputs| && inputs[i].CoreVote? :: inputs[i].v.voter == env.address
  }
}
