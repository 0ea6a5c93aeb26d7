/**
 * The part of the browser's RTCPeerConnection that the signalling code drives.
 * Media negotiation is a black box; a link is observed only through the
 * requests the signalling code makes of it, in the order it makes them.
 */
module PeerLink {
  /** A session description (SDP text), opaque to the signalling code. */
  type Description = string

  /** An ICE candidate as the peer connection reports it and accepts it. */
  datatype IceCandidate = IceCandidate(sdpMLineIndex: int, candidate: string)

  /** One request made of a peer connection. */
  datatype LinkOp =
    | SetRemoteDescription(description: Description)
    | AddIceCandidate(iceCandidate: IceCandidate)

  class Link {
    /** Every request this connection has received, oldest first. */
    var ops: seq<LinkOp>

    constructor ()
      ensures ops == []
    {
      ops := [];
    }

    /** `rtcPeerConnection.setRemoteDescription(d)` */
    method SetRemoteDescription(d: Description)
      modifies this
      ensures ops == old(ops) + [LinkOp.SetRemoteDescription(d)]
    {
      ops := ops + [LinkOp.SetRemoteDescription(d)];
    }

    /** `rtcPeerConnection.addIceCandidate(c)` */
    method AddIceCandidate(c: IceCandidate)
      modifies this
      ensures ops == old(ops) + [LinkOp.AddIceCandidate(c)]
    {
      ops := ops + [LinkOp.AddIceCandidate(c)];
    }
  }
}
