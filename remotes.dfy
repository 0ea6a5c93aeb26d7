/**
 * A remote record: the object `setupPeerAndComplete` creates for one peer, with its
 * candidate buffer and its answer-poll timer, and the membership test over the
 * `remotes` array.
 */
module Remotes {
  import opened PeerLink
  import opened IceBuffer
  import opened Messages

  class Remote {
    /** The peer's id; empty until the completion of `setupPeerAndComplete` sets it. */
    var idHex: Id
    /** The local candidates gathered so far, in the published shape. */
    var iceCandidates: seq<Entry>
    /** Whether the answer-poll interval `initiatorTimer` is set. */
    var initiatorTimer: bool
    const rtcPeerConnection: Link

    /** The record literal of `setupPeerAndComplete`. */
    constructor ()
      ensures idHex == "" && iceCandidates == [] && !initiatorTimer
      ensures fresh(rtcPeerConnection) && rtcPeerConnection.ops == []
    {
      idHex := "";
      iceCandidates := [];
      initiatorTimer := false;
      rtcPeerConnection := new Link();
    }

    /** The `onicecandidate` handler: null events are ignored, others append one renamed entry. */
    method OnIceCandidate(ev: IceEvent)
      modifies this
      ensures ev.candidate.None? ==> iceCandidates == old(iceCandidates)
      ensures ev.candidate.Some? ==> iceCandidates == old(iceCandidates) + [ToEntry(ev.candidate.value)]
      ensures iceCandidates == OnEvent(old(iceCandidates), ev)
      ensures idHex == old(idHex) && initiatorTimer == old(initiatorTimer)
    {
      if ev.candidate.Some? {
        var c := ev.candidate.value;
        iceCandidates := iceCandidates + [Entry(c.sdpMLineIndex, c.candidate)];
      }
    }

    /**
     * One firing of the answer-poll interval, with the canister's answer list: while the
     * interval is set, every answer's description and candidates are applied, in list order
     * and without regard to whom the answer is for, and the interval is cleared once any
     * answer is seen. A cleared interval no longer fires.
     */
    method PollAnswers(answers: seq<Answer>)
      modifies this, rtcPeerConnection
      ensures initiatorTimer == (old(initiatorTimer) && answers == [])
      ensures rtcPeerConnection.ops ==
        old(rtcPeerConnection.ops) + (if old(initiatorTimer) then AnswerOps(answers) else [])
      ensures idHex == old(idHex) && iceCandidates == old(iceCandidates)
    {
      if !initiatorTimer {
        return;
      }
      for i := 0 to |answers|
        invariant rtcPeerConnection.ops == old(rtcPeerConnection.ops) + AnswerOps(answers[..i])
        invariant initiatorTimer == (i == 0)
        invariant idHex == old(idHex) && iceCandidates == old(iceCandidates)
      {
        AnswerOpsStep(answers, i);
        ApplyAnswer(answers[i].answer, rtcPeerConnection);
        initiatorTimer := false;
      }
      assert answers[..|answers|] == answers;
    }
  }

  /** The requests applying one answer makes: its description, then its candidates. */
  function ApplyOps(p: Payload): (ops: seq<LinkOp>)
    ensures |ops| == 1 + |p.ice|
    ensures Descriptions(ops) == [p.description]
  {
    DescriptionsAppend([SetRemoteDescription(p.description)], IceOps(p.ice));
    DescriptionsOfIce(p.ice);
    assert Descriptions([SetRemoteDescription(p.description)]) == [p.description];
    [SetRemoteDescription(p.description)] + IceOps(p.ice)
  }

  /** The requests one poll makes for the answer list `answers`. */
  function AnswerOps(answers: seq<Answer>): (ops: seq<LinkOp>)
    ensures |ops| >= |answers|
    ensures ops == [] <==> answers == []
  {
    if answers == [] then []
    else AnswerOps(answers[..|answers| - 1]) + ApplyOps(answers[|answers| - 1].answer)
  }

  /**
   * Applying one answer's parsed payload to a connection: its description, then its
   * candidates through `addRemoteIceCandidates`.
   */
  method ApplyAnswer(details: Payload, pc: Link)
    modifies pc
    ensures pc.ops == old(pc.ops) + ApplyOps(details)
  {
    pc.SetRemoteDescription(details.description);
    AddRemoteIceCandidates(details.ice, pc);
  }

  /** Applying one more answer of the list extends the requests made so far by that answer's. */
  lemma AnswerOpsStep(answers: seq<Answer>, i: int)
    requires 0 <= i < |answers|
    ensures AnswerOps(answers[..i + 1]) == AnswerOps(answers[..i]) + ApplyOps(answers[i].answer)
  {
    assert answers[..i + 1][..i] == answers[..i];
  }

  /** The descriptions set on a link, in order. */
  function Descriptions(ops: seq<LinkOp>): seq<Description>
  {
    if ops == [] then []
    else
      var last := ops[|ops| - 1];
      Descriptions(ops[..|ops| - 1]) + (if last.SetRemoteDescription? then [last.description] else [])
  }

  lemma {:induction false} DescriptionsAppend(a: seq<LinkOp>, b: seq<LinkOp>)
    ensures Descriptions(a + b) == Descriptions(a) + Descriptions(b)
    decreases |b|
  {
    if b == [] {
      assert a + b == a;
    } else {
      assert (a + b)[..|a + b| - 1] == a + b[..|b| - 1];
      DescriptionsAppend(a, b[..|b| - 1]);
    }
  }

  lemma {:induction false} DescriptionsOfIce(es: seq<Entry>)
    ensures Descriptions(IceOps(es)) == []
  {
    if es != [] {
      assert IceOps(es)[..|es| - 1] == IceOps(es[..|es| - 1]);
      DescriptionsOfIce(es[..|es| - 1]);
    }
  }

  /**
   * No filtering: a poll sets exactly one remote description per answer listed, in list
   * order, whatever offer the answer refers to.
   */
  lemma {:induction false} PollAppliesEveryAnswer(answers: seq<Answer>)
    ensures Descriptions(AnswerOps(answers)) ==
      seq(|answers|, k requires 0 <= k < |answers| => answers[k].answer.description)
  {
    if answers != [] {
      var a' := answers[..|answers| - 1];
      var p := answers[|answers| - 1].answer;
      PollAppliesEveryAnswer(a');
      DescriptionsAppend(AnswerOps(a'), ApplyOps(p));
    }
  }

  /** The ids of `rs`, in order. */
  ghost function IdsOf(rs: seq<Remote>): seq<Id>
    reads rs
  {
    seq(|rs|, i reads rs requires 0 <= i < |rs| => rs[i].idHex)
  }

  lemma IdsOfSnoc(rs: seq<Remote>, r: Remote)
    ensures IdsOf(rs + [r]) == IdsOf(rs) + [r.idHex]
  {
  }

  /** `remotes.some(remote => remote.idHex === id)` */
  function Tracked(rs: seq<Remote>, id: Id): (b: bool)
    reads rs
    ensures b <==> id in IdsOf(rs)
  {
    assert forall i :: 0 <= i < |rs| ==> IdsOf(rs)[i] == rs[i].idHex;
    exists i :: 0 <= i < |rs| && rs[i].idHex == id
  }
}
