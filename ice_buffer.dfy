/**
 * The per-connection ICE candidate buffer: what `onicecandidate` stores,
 * the field renaming between the browser's candidate shape and the shape
 * published to the canister, and its inverse on the receiving side.
 */
module IceBuffer {
  import opened Wrappers
  import opened PeerLink

  /** An entry of a record's `iceCandidates` list, in the published shape (`lineLabel` is the JavaScript field `label`, a reserved word here). */
  datatype Entry = Entry(lineLabel: int, candidate: string)

  /** An `icecandidate` event; `candidate` is None for the end-of-gathering event. */
  datatype IceEvent = IceEvent(candidate: Option<IceCandidate>)

  /** The receiving side's renaming: `{sdpMLineIndex: c.label, candidate: c.candidate}`. */
  function FromEntry(e: Entry): IceCandidate
  {
    IceCandidate(e.lineLabel, e.candidate)
  }

  /** The buffering side's renaming: `{label: sdpMLineIndex, candidate}`; undone by FromEntry. */
  function ToEntry(c: IceCandidate): (e: Entry)
    ensures FromEntry(e) == c
  {
    Entry(c.sdpMLineIndex, c.candidate)
  }

  /** FromEntry loses nothing: renaming a received entry back gives the published entry. */
  lemma ToEntryInverse(e: Entry)
    ensures ToEntry(FromEntry(e)) == e
  {
  }

  /** The buffer after one `onicecandidate` event. */
  function OnEvent(buffer: seq<Entry>, ev: IceEvent): (r: seq<Entry>)
    ensures buffer <= r
    ensures |r| == |buffer| + (if ev.candidate.Some? then 1 else 0)
    ensures ev.candidate.Some? ==> FromEntry(r[|r| - 1]) == ev.candidate.value
  {
    match ev.candidate
    case None => buffer
    case Some(c) => buffer + [ToEntry(c)]
  }

  /** The buffer of a fresh record after the events `evs`, in arrival order. */
  function Buffered(evs: seq<IceEvent>): (r: seq<Entry>)
    ensures |r| <= |evs|
  {
    if evs == [] then [] else OnEvent(Buffered(evs[..|evs| - 1]), evs[|evs| - 1])
  }

  /** Reference definition: the candidates carried by the non-null events, in arrival order. */
  function Candidates(evs: seq<IceEvent>): seq<IceCandidate>
  {
    if evs == [] then []
    else
      var last := evs[|evs| - 1];
      Candidates(evs[..|evs| - 1]) + (if last.candidate.Some? then [last.candidate.value] else [])
  }

  /** The requests `addRemoteIceCandidates(entries, pc)` makes of `pc`. */
  function IceOps(entries: seq<Entry>): (ops: seq<LinkOp>)
    ensures |ops| == |entries|
    ensures forall i :: 0 <= i < |ops| ==> ops[i].AddIceCandidate? && ToEntry(ops[i].iceCandidate) == entries[i]
  {
    seq(|entries|, i requires 0 <= i < |entries| => AddIceCandidate(FromEntry(entries[i])))
  }

  /** One `addIceCandidate` request per candidate, in order. */
  function AddAll(cs: seq<IceCandidate>): seq<LinkOp>
  {
    seq(|cs|, i requires 0 <= i < |cs| => AddIceCandidate(cs[i]))
  }

  /** Later events never disturb earlier entries: the buffer is append-only. */
  lemma {:induction false} BufferedAppend(a: seq<IceEvent>, b: seq<IceEvent>)
    ensures Buffered(a + b) == Buffered(a) + Buffered(b)
    decreases |b|
  {
    if b == [] {
      assert a + b == a;
    } else {
      var b' := b[..|b| - 1];
      assert (a + b)[..|a + b| - 1] == a + b';
      assert (a + b)[|a + b| - 1] == b[|b| - 1];
      BufferedAppend(a, b');
    }
  }

  /** The buffer holds one entry per non-null event, each the renamed candidate, in arrival order. */
  lemma {:induction false} BufferedIsCandidates(evs: seq<IceEvent>)
    ensures |Buffered(evs)| == |Candidates(evs)|
    ensures forall i :: 0 <= i < |Buffered(evs)| ==> FromEntry(Buffered(evs)[i]) == Candidates(evs)[i]
  {
    if evs != [] {
      BufferedIsCandidates(evs[..|evs| - 1]);
    }
  }

  /**
   * Round trip across the wire: the remote peer is handed exactly the candidates of the
   * non-null events, in arrival order, with their original fields.
   */
  lemma {:induction false} DeliveredCandidates(evs: seq<IceEvent>)
    ensures IceOps(Buffered(evs)) == AddAll(Candidates(evs))
  {
    BufferedIsCandidates(evs);
    var b, cs := Buffered(evs), Candidates(evs);
    assert |IceOps(b)| == |AddAll(cs)|;
    forall i | 0 <= i < |b|
      ensures IceOps(b)[i] == AddAll(cs)[i]
    {
    }
  }

  /**
   * `addRemoteIceCandidates(candidates, pc)`: one `addIceCandidate` per entry, in list order,
   * with `sdpMLineIndex` taken from `label`.
   */
  method AddRemoteIceCandidates(candidates: seq<Entry>, pc: Link)
    modifies pc
    ensures pc.ops == old(pc.ops) + IceOps(candidates)
  {
    for i := 0 to |candidates|
      invariant pc.ops == old(pc.ops) + IceOps(candidates[..i])
    {
      var c := candidates[i];
      pc.AddIceCandidate(IceCandidate(c.lineLabel, c.candidate));
      assert IceOps(candidates[..i + 1]) == IceOps(candidates[..i]) + [AddIceCandidate(FromEntry(c))];
    }
    assert candidates[..|candidates|] == candidates;
  }
}
