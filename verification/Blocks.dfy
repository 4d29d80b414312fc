/** Where the block that a node commits or proposes has come from. */
module Blocks {
  import opened Prelude
  import opened Types
  import opened Env
  import opened Engine
  import opened EndToEnd

  /** The hash and content that a message brings; a proposal frame names its hash
      itself, a fed content is hashed here. */
  function Brought(env: Env, i: Input): Option<(Hash, Content)> {
    match i
    case PeerProposal(bytes) =>
      var decoded := DecodeProposalMessage(env, bytes);
      if decoded.Success? then Some((decoded.value.2, decoded.value.1)) else None
    case Fed(f) => Some((env.contentHash(f.content), f.content))
    case _ => None
  }

  predicate Brings(env: Env, i: Input, hash: Hash) {
    Brought(env, i).Some? && Brought(env, i).value.0 == hash
  }

  /** The first message since the present height was entered to bring the hash. */
  function FirstBringer(env: Env, inputs: seq<Input>, hash: Hash): (k: Option<nat>)
    ensures k.Some? ==> k.value < |inputs| && Brings(env, inputs[k.value], hash)
  {
    if inputs == [] then None
    else
      var n := |inputs| - 1;
      if Run(env, inputs).height != Run(env, inputs[..n]).height then None
      else if FirstBringer(env, inputs[..n], hash).Some? then FirstBringer(env, inputs[..n], hash)
      else if Brings(env, inputs[n], hash) then Some(n) else None
  }

  ghost predicate AtPresentHeight(env: Env, inputs: seq<Input>, k: nat)
    requires k <= |inputs|
  {
    Run(env, inputs[..k]).height == Run(env, inputs).height
  }

  /** It came at the present height, and none before it at this height brought the
      hash; if there is none, no message at this height did. */
  lemma {:induction false} FirstBringerIsFirst(env: Env, inputs: seq<Input>, hash: Hash, j: nat)
    requires j < |inputs| && AtPresentHeight(env, inputs, j) && Brings(env, inputs[j], hash)
    ensures var k := FirstBringer(env, inputs, hash);
            k.Some? && k.value <= j && AtPresentHeight(env, inputs, k.value)
  {
    hide Run, Brings, FirstBringer, Remembers;
    var n := |inputs| - 1;
    var before := inputs[..n];
    FirstBringerStep(env, inputs, hash);
    assert inputs[..j] + inputs[j..n] == before && before + inputs[n..] == inputs;
    FirstAnswerStays(env, inputs[..j], inputs[j..n]);
    FirstAnswerStays(env, before, inputs[n..]);
    if j < n {
      assert before[..j] == inputs[..j];
      FirstBringerIsFirst(env, before, hash, j);
      var k := FirstBringer(env, before, hash).value;
      assert before[..k] == inputs[..k];
    } else {
      FirstBringerPlaced(env, before, hash);
      if FirstBringer(env, before, hash).Some? {
        var k := FirstBringer(env, before, hash).value;
        assert before[..k] == inputs[..k];
      }
    }
  }

  lemma FirstBringerStep(env: Env, inputs: seq<Input>, hash: Hash)
    requires inputs != []
    ensures var n := |inputs| - 1;
            FirstBringer(env, inputs, hash) ==
              if Run(env, inputs).height != Run(env, inputs[..n]).height then None
              else if FirstBringer(env, inputs[..n], hash).Some? then FirstBringer(env, inputs[..n], hash)
              else if Brings(env, inputs[n], hash) then Some(n) else None
  {
    hide Run, Brings;
  }

  lemma {:induction false} FirstBringerPlaced(env: Env, inputs: seq<Input>, hash: Hash)
    ensures var k := FirstBringer(env, inputs, hash);
            k.Some? ==> AtPresentHeight(env, inputs, k.value)
  {
    if inputs != [] {
      hide Run, Brings, FirstBringer;
      var before := inputs[..|inputs| - 1];
      FirstBringerStep(env, inputs, hash);
      FirstBringerPlaced(env, before, hash);
      if FirstBringer(env, before, hash).Some? {
        var k := FirstBringer(env, before, hash).value;
        assert before[..k] == inputs[..k];
      }
    }
  }

  lemma BroughtIsKept(env: Env, s: State, i: Input)
    ensures var s' := Process(env, s, i).0;
            if s'.height != s.height then s'.origin == map[] && Brought(env, i).None?
            else if Brought(env, i).Some?
            then s'.origin == OrInsert(s.origin, Brought(env, i).value.0, Brought(env, i).value.1)
            else s'.origin == s.origin
  {
    hide ReceiveProposal, ReceiveStatus, DecodeProposalMessage, HandleSignedVote, HandleCommit, HandleVote,
         HandleProposal, OrInsert;
    match i {
      case PeerProposal(bytes) => FrameIsKept(env, s, bytes);
      case NewStatus(rs) => StatusMovesOn(env, s, rs); StatusRemembers(env, s, rs);
      case Committed(c, answer) => CommitMovesOn(env, s, c, answer);
      case _ =>
    }
  }

  lemma FrameIsKept(env: Env, s: State, bytes: Bytes)
    ensures var s', decoded := ReceiveProposal(env, s, bytes).0, DecodeProposalMessage(env, bytes);
            && s'.height == s.height
            && s'.origin == if decoded.Success? then OrInsert(s.origin, decoded.value.2, decoded.value.1) else s.origin
  {
    hide ForwardProposal, DecodeProposalMessage, OrInsert;
    var decoded := DecodeProposalMessage(env, bytes);
    if decoded.Success? {
      ForwardProposalSettles(env, s.(origin := OrInsert(s.origin, decoded.value.2, decoded.value.1)), decoded.value.0);
    }
  }

  lemma CommitMovesOn(env: Env, s: State, c: BftCommit, answer: Option<Status>)
    ensures var s' := CoreCommit(env, s, c, answer).0;
            if s'.height != s.height then s'.origin == map[] else s'.origin == s.origin
  {
    hide HandleCommit, ReceiveStatus;
    var s1 := HandleCommit(env, s, c).0;
    if answer.Some? {
      StatusMovesOn(env, s1, answer.value);
      StatusRemembers(env, s1, answer.value);
    }
  }

  /** In every run, a node knows exactly the hashes that some message of the present
      height has brought, each with the content that came with the first. */
  lemma {:induction false} KnownIsFirst(env: Env, inputs: seq<Input>, hash: Hash)
    ensures var origin, k := Run(env, inputs).origin, FirstBringer(env, inputs, hash);
            && (hash in origin <==> k.Some?)
            && (k.Some? ==> origin[hash] == Brought(env, inputs[k.value]).value.1)
  {
    if inputs != [] {
      var before, last := inputs[..|inputs| - 1], inputs[|inputs| - 1];
      KnownIsFirst(env, before, hash);
      assert Run(env, inputs) == Process(env, Run(env, before), last).0;
      BroughtIsKept(env, Run(env, before), last);
      hide Run, Process, Brought;
    }
  }

  /** The content that a commit hands out hashes to the committed hash if and only if
      the first message of the height to bring that hash carried such a content;
      a fed content always does, a proposal frame may claim any hash. */
  lemma CommittedContentIff(env: Env, inputs: seq<Input>, c: BftCommit)
    requires HandleCommit(env, Run(env, inputs), c).1.Success?
    ensures var first := FirstBringer(env, inputs, c.proposal);
            var result := HandleCommit(env, Run(env, inputs), c).1.value.result;
            && first.Some?
            && (env.contentHash(result) == c.proposal
                <==> env.contentHash(Brought(env, inputs[first.value]).value.1) == c.proposal)
            && (inputs[first.value].Fed? ==> env.contentHash(result) == c.proposal)
  {
    KnownIsFirst(env, inputs, c.proposal);
    CommitHandsOut(env, Run(env, inputs), c);
    hide Run, HandleCommit;
  }

  lemma CommitHandsOut(env: Env, s: State, c: BftCommit)
    requires HandleCommit(env, s, c).1.Success?
    ensures c.proposal in s.origin && HandleCommit(env, s, c).1.value.result == s.origin[c.proposal]
  {
    hide GenerateProof;
  }

  /** A frame that decodes and claims a hash not yet known decides what that hash
      stands for at this height, before its signature or the claim is looked at:
      whatever arrives later, a commit for the hash hands out the frame's content. */
  lemma FrameDecides(env: Env, inputs: seq<Input>, bytes: Bytes, later: seq<Input>, c: BftCommit)
    requires var decoded := DecodeProposalMessage(env, bytes);
             decoded.Success? && c.proposal == decoded.value.2 && c.proposal !in Run(env, inputs).origin
    requires Run(env, inputs + [PeerProposal(bytes)] + later).height == Run(env, inputs).height
    requires HandleCommit(env, Run(env, inputs + [PeerProposal(bytes)] + later), c).1.Success?
    ensures var result := HandleCommit(env, Run(env, inputs + [PeerProposal(bytes)] + later), c).1.value.result;
            result == DecodeProposalMessage(env, bytes).value.1
  {
    var upTo := inputs + [PeerProposal(bytes)];
    assert upTo[..|inputs|] == inputs;
    assert Run(env, upTo) == Process(env, Run(env, inputs), PeerProposal(bytes)).0;
    hide Run, HandleCommit, DecodeProposalMessage, ReceiveProposal;
    FrameIsKept(env, Run(env, inputs), bytes);
    FirstAnswerStays(env, upTo, later);
    CommitHandsOut(env, Run(env, upTo + later), c);
  }
}
