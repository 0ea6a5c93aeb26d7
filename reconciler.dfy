/**
 * The reconciliation tick `checkForAdditions` and the `remotes` registry it consults.
 * The functions give the calls a tick makes from a snapshot of the canister's offer and
 * participant lists; the class `Client` holds the module-level state (`callerId`,
 * `remotes`) and performs them.
 */
module Reconciler {
  import opened Messages
  import opened Admission
  import opened Remotes

  function AnswerCalls(os: seq<Offer>): seq<Call>
  {
    seq(|os|, i requires 0 <= i < |os| => AnswerCall(os[i]))
  }

  function OfferCalls(ps: seq<Participant>): seq<Call>
  {
    seq(|ps|, i requires 0 <= i < |ps| => OfferCall(ps[i].principal, ps[i].alias))
  }

  /** The peers engaged by `cs`, in order. */
  function Peers(cs: seq<Call>): seq<Id>
  {
    Keys(cs, (c: Call) => c.Peer())
  }

  /** The calls of the offers callback: `sendAnswer` for each admitted offer, in list order. */
  function OffersPassCalls(tracked: seq<Id>, caller: Id, offers: seq<Offer>): (cs: seq<Call>)
    ensures |cs| <= |offers|
    ensures forall c :: c in cs ==>
      c.AnswerCall? && c.answered in offers && c.Peer() != caller && c.Peer() !in tracked
  {
    AnswerCalls(Admitted(tracked, caller, offers, InitiatorOf))
  }

  /** The calls of the participants callback: `sendOffer` for each admitted participant, in list order. */
  function ParticipantsPassCalls(tracked: seq<Id>, caller: Id, ps: seq<Participant>): (cs: seq<Call>)
    ensures |cs| <= |ps|
    ensures forall c :: c in cs ==>
      c.OfferCall? && Participant(c.recipient, c.alias) in ps && c.Peer() != caller && c.Peer() !in tracked
  {
    var adm := Admitted(tracked, caller, ps, PrincipalOf);
    assert forall i :: 0 <= i < |adm| ==>
      adm[i] in adm && OfferCalls(adm)[i] == OfferCall(adm[i].principal, adm[i].alias);
    OfferCalls(adm)
  }

  /**
   * The calls of one tick. The two callbacks run in either order, each to completion;
   * the second sees the records the first registered.
   */
  function TickCalls(tracked: seq<Id>, caller: Id, offers: seq<Offer>, ps: seq<Participant>,
                     offersFirst: bool): (cs: seq<Call>)
    ensures |cs| <= |offers| + |ps|
    ensures forall c :: c in cs ==> c.Peer() != caller && c.Peer() !in tracked
    ensures forall c :: c in cs && c.AnswerCall? ==> c.answered in offers
    ensures forall c :: c in cs && c.OfferCall? ==> Participant(c.recipient, c.alias) in ps
  {
    if offersFirst then
      var a := OffersPassCalls(tracked, caller, offers);
      a + ParticipantsPassCalls(tracked + Peers(a), caller, ps)
    else
      var p := ParticipantsPassCalls(tracked, caller, ps);
      p + OffersPassCalls(tracked + Peers(p), caller, offers)
  }

  lemma AppendAssoc<T>(a: seq<T>, b: seq<T>, c: seq<T>)
    ensures (a + b) + c == a + (b + c)
  {
  }

  lemma AnswerCallsSnoc(os: seq<Offer>, o: Offer)
    ensures AnswerCalls(os + [o]) == AnswerCalls(os) + [AnswerCall(o)]
  {
  }

  lemma OfferCallsSnoc(ps: seq<Participant>, p: Participant)
    ensures OfferCalls(ps + [p]) == OfferCalls(ps) + [OfferCall(p.principal, p.alias)]
  {
  }

  lemma TakeSnoc<T>(s: seq<T>, i: int)
    requires 0 <= i < |s|
    ensures s[..i + 1] == s[..i] + [s[i]]
  {
  }

  lemma PeersAppend(a: seq<Call>, b: seq<Call>)
    ensures Peers(a + b) == Peers(a) + Peers(b)
  {
  }

  lemma PeersOfAnswers(os: seq<Offer>)
    ensures Peers(AnswerCalls(os)) == Keys(os, InitiatorOf)
  {
    forall i | 0 <= i < |os|
      ensures Peers(AnswerCalls(os))[i] == Keys(os, InitiatorOf)[i]
    {
      assert AnswerCalls(os)[i] == AnswerCall(os[i]);
      assert Peers(AnswerCalls(os))[i] == AnswerCall(os[i]).Peer() == os[i].initiator;
      assert Keys(os, InitiatorOf)[i] == InitiatorOf(os[i]);
    }
  }

  lemma PeersOfOffers(ps: seq<Participant>)
    ensures Peers(OfferCalls(ps)) == Keys(ps, PrincipalOf)
  {
    forall i | 0 <= i < |ps|
      ensures Peers(OfferCalls(ps))[i] == Keys(ps, PrincipalOf)[i]
    {
      assert OfferCalls(ps)[i] == OfferCall(ps[i].principal, ps[i].alias);
      assert Peers(OfferCalls(ps))[i] == OfferCall(ps[i].principal, ps[i].alias).Peer() == ps[i].principal;
      assert Keys(ps, PrincipalOf)[i] == PrincipalOf(ps[i]);
    }
  }

  /** One more offer of the offers callback: the registrations and calls so far grow by its guarded step. */
  lemma AnswerStep(tracked: seq<Id>, caller: Id, offers: seq<Offer>, i: int,
                   ids: seq<Id>, cs0: seq<Call>, cs: seq<Call>)
    requires 0 <= i < |offers|
    requires ids == tracked + Keys(Admitted(tracked, caller, offers[..i], InitiatorOf), InitiatorOf)
    requires cs == cs0 + AnswerCalls(Admitted(tracked, caller, offers[..i], InitiatorOf))
    ensures var o := offers[i];
      var act := o.initiator !in ids && o.initiator != caller;
      var done := Admitted(tracked, caller, offers[..i + 1], InitiatorOf);
      && ids + (if act then [o.initiator] else []) == tracked + Keys(done, InitiatorOf)
      && cs + (if act then [AnswerCall(o)] else []) == cs0 + AnswerCalls(done)
  {
    var done := Admitted(tracked, caller, offers[..i], InitiatorOf);
    var o := offers[i];
    AdmittedSnoc(tracked, caller, offers[..i], o, InitiatorOf);
    TakeSnoc(offers, i);
    if o.initiator !in ids && o.initiator != caller {
      KeysSnoc(done, o, InitiatorOf);
      AppendAssoc(tracked, Keys(done, InitiatorOf), [o.initiator]);
      AnswerCallsSnoc(done, o);
      AppendAssoc(cs0, AnswerCalls(done), [AnswerCall(o)]);
    }
  }

  /** One more participant of the participants callback: the registrations and calls so far grow by its guarded step. */
  lemma OfferStep(tracked: seq<Id>, caller: Id, ps: seq<Participant>, i: int,
                  ids: seq<Id>, cs0: seq<Call>, cs: seq<Call>)
    requires 0 <= i < |ps|
    requires ids == tracked + Keys(Admitted(tracked, caller, ps[..i], PrincipalOf), PrincipalOf)
    requires cs == cs0 + OfferCalls(Admitted(tracked, caller, ps[..i], PrincipalOf))
    ensures var p := ps[i];
      var act := p.principal !in ids && p.principal != caller;
      var done := Admitted(tracked, caller, ps[..i + 1], PrincipalOf);
      && ids + (if act then [p.principal] else []) == tracked + Keys(done, PrincipalOf)
      && cs + (if act then [OfferCall(p.principal, p.alias)] else []) == cs0 + OfferCalls(done)
  {
    var done := Admitted(tracked, caller, ps[..i], PrincipalOf);
    var p := ps[i];
    AdmittedSnoc(tracked, caller, ps[..i], p, PrincipalOf);
    TakeSnoc(ps, i);
    if p.principal !in ids && p.principal != caller {
      KeysSnoc(done, p, PrincipalOf);
      AppendAssoc(tracked, Keys(done, PrincipalOf), [p.principal]);
      OfferCallsSnoc(done, p);
      AppendAssoc(cs0, OfferCalls(done), [OfferCall(p.principal, p.alias)]);
    }
  }

  /**
   * Every call of a tick passed the source's guard when it was made: its peer is not the
   * caller, and no record (old, or registered earlier in the tick) has its id.
   */
  lemma TickGuard(tracked: seq<Id>, caller: Id, offers: seq<Offer>, ps: seq<Participant>, offersFirst: bool)
    ensures FreshSteps(tracked, caller, Peers(TickCalls(tracked, caller, offers, ps, offersFirst)))
  {
    if offersFirst {
      var a := OffersPassCalls(tracked, caller, offers);
      var p := ParticipantsPassCalls(tracked + Peers(a), caller, ps);
      PeersOfAnswers(Admitted(tracked, caller, offers, InitiatorOf));
      AdmittedFresh(tracked, caller, offers, InitiatorOf);
      PeersOfOffers(Admitted(tracked + Peers(a), caller, ps, PrincipalOf));
      AdmittedFresh(tracked + Peers(a), caller, ps, PrincipalOf);
      FreshAppend(tracked, caller, Peers(a), Peers(p));
      PeersAppend(a, p);
    } else {
      var p := ParticipantsPassCalls(tracked, caller, ps);
      var a := OffersPassCalls(tracked + Peers(p), caller, offers);
      PeersOfOffers(Admitted(tracked, caller, ps, PrincipalOf));
      AdmittedFresh(tracked, caller, ps, PrincipalOf);
      PeersOfAnswers(Admitted(tracked + Peers(p), caller, offers, InitiatorOf));
      AdmittedFresh(tracked + Peers(p), caller, offers, InitiatorOf);
      FreshAppend(tracked, caller, Peers(p), Peers(a));
      PeersAppend(p, a);
    }
  }

  /** A tick adds at most one record per peer: distinct ids stay distinct, in either order. */
  lemma TickDistinct(tracked: seq<Id>, caller: Id, offers: seq<Offer>, ps: seq<Participant>, offersFirst: bool)
    requires NoDup(tracked)
    ensures NoDup(tracked + Peers(TickCalls(tracked, caller, offers, ps, offersFirst)))
  {
    TickGuard(tracked, caller, offers, ps, offersFirst);
    FreshDistinct(tracked, caller, Peers(TickCalls(tracked, caller, offers, ps, offersFirst)));
  }

  /**
   * The peers a tick engages are exactly the offer initiators and the participants, minus
   * the caller, minus the peers already tracked; the same set in either order.
   */
  lemma TickPeers(tracked: seq<Id>, caller: Id, offers: seq<Offer>, ps: seq<Participant>, offersFirst: bool, id: Id)
    ensures id in Peers(TickCalls(tracked, caller, offers, ps, offersFirst)) <==>
      (id in Keys(offers, InitiatorOf) || id in Keys(ps, PrincipalOf)) && id != caller && id !in tracked
  {
    if offersFirst {
      var a := OffersPassCalls(tracked, caller, offers);
      var p := ParticipantsPassCalls(tracked + Peers(a), caller, ps);
      PeersOfAnswers(Admitted(tracked, caller, offers, InitiatorOf));
      AdmittedKeys(tracked, caller, offers, InitiatorOf, id);
      PeersOfOffers(Admitted(tracked + Peers(a), caller, ps, PrincipalOf));
      AdmittedKeys(tracked + Peers(a), caller, ps, PrincipalOf, id);
      PeersAppend(a, p);
    } else {
      var p := ParticipantsPassCalls(tracked, caller, ps);
      var a := OffersPassCalls(tracked + Peers(p), caller, offers);
      PeersOfOffers(Admitted(tracked, caller, ps, PrincipalOf));
      AdmittedKeys(tracked, caller, ps, PrincipalOf, id);
      PeersOfAnswers(Admitted(tracked + Peers(p), caller, offers, InitiatorOf));
      AdmittedKeys(tracked + Peers(p), caller, offers, InitiatorOf, id);
      PeersAppend(p, a);
    }
  }

  /**
   * Idempotence: once a tick's records are registered, a second tick against the same
   * snapshot, in either order, makes no call and so registers nothing.
   */
  lemma TickIdempotent(tracked: seq<Id>, caller: Id, offers: seq<Offer>, ps: seq<Participant>,
                       firstOrder: bool, secondOrder: bool)
    ensures var after := tracked + Peers(TickCalls(tracked, caller, offers, ps, firstOrder));
      TickCalls(after, caller, offers, ps, secondOrder) == []
  {
    var after := tracked + Peers(TickCalls(tracked, caller, offers, ps, firstOrder));
    forall o | o in offers
      ensures InitiatorOf(o) == caller || InitiatorOf(o) in after
    {
      var j :| 0 <= j < |offers| && offers[j] == o;
      assert Keys(offers, InitiatorOf)[j] == InitiatorOf(offers[j]) == o.initiator;
      TickPeers(tracked, caller, offers, ps, firstOrder, o.initiator);
    }
    forall p | p in ps
      ensures PrincipalOf(p) == caller || PrincipalOf(p) in after
    {
      var j :| 0 <= j < |ps| && ps[j] == p;
      assert Keys(ps, PrincipalOf)[j] == PrincipalOf(ps[j]) == p.principal;
      TickPeers(tracked, caller, offers, ps, firstOrder, p.principal);
    }
    AdmittedNone(after, caller, offers, InitiatorOf);
    AdmittedNone(after, caller, ps, PrincipalOf);
    assert Peers([]) == [] && after + [] == after;
  }

  /**
   * When the offers callback runs first, no offer is sent to a peer that has an offer in the
   * snapshot: that peer is answered (or is the caller, or was tracked) instead.
   */
  lemma OffersFirstAnswersInitiators(tracked: seq<Id>, caller: Id, offers: seq<Offer>, ps: seq<Participant>)
    ensures var cs := TickCalls(tracked, caller, offers, ps, true);
      forall k :: 0 <= k < |cs| && cs[k].OfferCall? ==> cs[k].recipient !in Keys(offers, InitiatorOf)
  {
    var a := OffersPassCalls(tracked, caller, offers);
    var adm := Admitted(tracked + Peers(a), caller, ps, PrincipalOf);
    var cs := TickCalls(tracked, caller, offers, ps, true);
    PeersOfAnswers(Admitted(tracked, caller, offers, InitiatorOf));
    forall k | 0 <= k < |cs| && cs[k].OfferCall?
      ensures cs[k].recipient !in Keys(offers, InitiatorOf)
    {
      var id := cs[k].recipient;
      assert k >= |a|;
      var j := k - |a|;
      assert id == adm[j].principal;
      AdmittedGuard(tracked + Peers(a), caller, ps, PrincipalOf);
      assert Guarded(tracked + Peers(a), caller, ps, adm, PrincipalOf, j);
      AdmittedKeys(tracked, caller, offers, InitiatorOf, id);
    }
  }

  /**
   * When the participants callback runs first, no offer of the snapshot is answered whose
   * initiator is a participant: that peer is sent an offer instead. The order of the two
   * callbacks is not fixed, so both outcomes can occur.
   */
  lemma ParticipantsFirstOffersToParticipants(tracked: seq<Id>, caller: Id, offers: seq<Offer>, ps: seq<Participant>)
    ensures var cs := TickCalls(tracked, caller, offers, ps, false);
      forall k :: 0 <= k < |cs| && cs[k].AnswerCall? ==> cs[k].answered.initiator !in Keys(ps, PrincipalOf)
  {
    var p := ParticipantsPassCalls(tracked, caller, ps);
    var adm := Admitted(tracked + Peers(p), caller, offers, InitiatorOf);
    var cs := TickCalls(tracked, caller, offers, ps, false);
    PeersOfOffers(Admitted(tracked, caller, ps, PrincipalOf));
    forall k | 0 <= k < |cs| && cs[k].AnswerCall?
      ensures cs[k].answered.initiator !in Keys(ps, PrincipalOf)
    {
      var id := cs[k].answered.initiator;
      assert k >= |p|;
      var j := k - |p|;
      assert id == adm[j].initiator;
      AdmittedGuard(tracked + Peers(p), caller, offers, InitiatorOf);
      assert Guarded(tracked + Peers(p), caller, offers, adm, InitiatorOf, j);
      AdmittedKeys(tracked, caller, ps, PrincipalOf, id);
    }
  }

  /**
   * The two-party room: B is a participant and has an offer out to the caller A. With the
   * offers callback first, A answers it and sends B nothing else; with the participants
   * callback first, A sends B an offer and does not answer.
   */
  lemma TwoPartyRoom(a: Id, b: Id, aliasA: string, aliasB: string, payload: Payload)
    requires a != b
    ensures var o := Offer(b, a, payload);
      var ps := [Participant(a, aliasA), Participant(b, aliasB)];
      TickCalls([], a, [o], ps, true) == [AnswerCall(o)] &&
      TickCalls([], a, [o], ps, false) == [OfferCall(b, aliasB)]
  {
    var o := Offer(b, a, payload);
    var ps := [Participant(a, aliasA), Participant(b, aliasB)];
    assert [o][..0] == [] && ps[..1] == [Participant(a, aliasA)] && ps[..1][..0] == [];
    assert Keys([o], InitiatorOf) == [b];
    assert Peers([AnswerCall(o)]) == [b];
    assert Peers([OfferCall(b, aliasB)]) == [b];
    assert Admitted([], a, ps[..1], PrincipalOf) == [];
    assert Admitted([], a, ps, PrincipalOf) == [Participant(b, aliasB)];
    assert Admitted([b], a, ps[..1], PrincipalOf) == [];
    assert Admitted([b], a, ps, PrincipalOf) == [];
    assert Admitted([], a, [o], InitiatorOf) == [o];
    assert Admitted([b], a, [o], InitiatorOf) == [];
    assert AnswerCalls([o]) == [AnswerCall(o)] && AnswerCalls([]) == [];
    assert OfferCalls([Participant(b, aliasB)]) == [OfferCall(b, aliasB)] && OfferCalls([]) == [];
    assert [] + [b] == [b];
  }

  /**
   * The initial pass answers offers without the guard: two offers from one peer are both
   * answered, while a tick over the same snapshot answers that peer once.
   */
  lemma InitialPassDuplicates(caller: Id, o1: Offer, o2: Offer)
    requires o1.initiator == o2.initiator != caller
    ensures !NoDup(Peers(AnswerCalls([o1, o2])))
    ensures TickCalls([], caller, [o1, o2], [], true) == [AnswerCall(o1)]
  {
    assert Peers(AnswerCalls([o1, o2]))[0] == Peers(AnswerCalls([o1, o2]))[1];
    var os := [o1, o2];
    assert os[..1] == [o1] && os[..1][..0] == [];
    assert Admitted([], caller, [o1], InitiatorOf) == [o1];
    assert Keys([o1], InitiatorOf) == [o1.initiator];
    assert Admitted([], caller, os, InitiatorOf) == [o1];
    assert Peers([AnswerCall(o1)]) == [o1.initiator];
  }

  /** How the two callbacks' registrations compose into a tick's. */
  lemma TickIds(tracked: seq<Id>, caller: Id, offers: seq<Offer>, ps: seq<Participant>, offersFirst: bool,
                mid: seq<Id>, final: seq<Id>)
    requires offersFirst ==> mid == tracked + Peers(OffersPassCalls(tracked, caller, offers))
    requires offersFirst ==> final == mid + Peers(ParticipantsPassCalls(mid, caller, ps))
    requires !offersFirst ==> mid == tracked + Peers(ParticipantsPassCalls(tracked, caller, ps))
    requires !offersFirst ==> final == mid + Peers(OffersPassCalls(mid, caller, offers))
    ensures final == tracked + Peers(TickCalls(tracked, caller, offers, ps, offersFirst))
    ensures NoDup(tracked) ==> NoDup(final)
  {
    var first, second := if offersFirst then OffersPassCalls(tracked, caller, offers)
                                          else ParticipantsPassCalls(tracked, caller, ps),
                         if offersFirst then ParticipantsPassCalls(mid, caller, ps)
                                          else OffersPassCalls(mid, caller, offers);
    assert TickCalls(tracked, caller, offers, ps, offersFirst) == first + second;
    PeersAppend(first, second);
    AppendAssoc(tracked, Peers(first), Peers(second));
    if NoDup(tracked) {
      TickDistinct(tracked, caller, offers, ps, offersFirst);
    }
  }

  /**
   * What the call `c` leaves in the record it created: the peer's id, an empty candidate
   * buffer, and either the answered offer applied to the connection (`sendAnswer`) or a set
   * answer-poll interval and an untouched connection (`sendOffer`).
   */
  ghost predicate RecordFor(r: Remote, c: Call)
    reads r, r.rtcPeerConnection
  {
    && r.idHex == c.Peer()
    && r.iceCandidates == []
    && match c
       case AnswerCall(o) => !r.initiatorTimer && r.rtcPeerConnection.ops == ApplyOps(o.offer)
       case OfferCall(_, _) => r.initiatorTimer && r.rtcPeerConnection.ops == []
  }

  /** The module-level state of the client: its own id, the `remotes` array, and the calls it made. */
  class Client {
    const callerId: Id
    var remotes: seq<Remote>
    /** Every `sendAnswer`/`sendOffer` call made so far, oldest first. */
    var calls: seq<Call>

    constructor (callerId: Id)
      ensures this.callerId == callerId && remotes == [] && calls == []
    {
      this.callerId := callerId;
      remotes := [];
      calls := [];
    }

    /** The ids of the records in `remotes`, in order. */
    ghost function Ids(): seq<Id>
      reads this, remotes
    {
      IdsOf(remotes)
    }

    /**
     * The records from index `n0` on were created, in order, by the calls from index `c0` on,
     * and still hold what those calls left in them.
     */
    ghost predicate Records(n0: int, c0: int)
      reads this, remotes, set r | r in remotes :: r.rtcPeerConnection
    {
      && 0 <= n0 <= |remotes| && 0 <= c0 <= |calls| && |remotes| - n0 == |calls| - c0
      && forall k :: n0 <= k < |remotes| ==> RecordFor(remotes[k], calls[c0 + k - n0])
    }

    /** `setupPeerAndComplete` up to the completion: a fresh record is created and pushed. */
    method SetupPeer() returns (r: Remote)
      modifies this
      ensures fresh(r) && fresh(r.rtcPeerConnection)
      ensures remotes == old(remotes) + [r] && calls == old(calls)
      ensures r.idHex == "" && r.iceCandidates == [] && !r.initiatorTimer && r.rtcPeerConnection.ops == []
    {
      r := new Remote();
      // `remotes.includes(remote)` is false for a record just created
      assert r !in remotes;
      remotes := remotes + [r];
    }

    /**
     * `sendAnswer(offer)`: registers a record, sets its id to the offer's initiator in the
     * same step, and applies the offer's description and candidates to its connection.
     */
    method SendAnswer(offer: Offer)
      modifies this
      ensures |remotes| == old(|remotes|) + 1 && remotes == old(remotes) + [remotes[old(|remotes|)]]
      ensures Ids() == old(Ids()) + [offer.initiator]
      ensures calls == old(calls) + [AnswerCall(offer)]
      ensures var r := remotes[|remotes| - 1];
        fresh(r) && fresh(r.rtcPeerConnection) && RecordFor(r, AnswerCall(offer))
      ensures forall n0, c0 :: old(Records(n0, c0)) ==> Records(n0, c0)
    {
      calls := calls + [AnswerCall(offer)];
      var r := SetupPeer();
      r.idHex := offer.initiator;
      ApplyAnswer(offer.offer, r.rtcPeerConnection);
      IdsOfSnoc(old(remotes), r);
    }

    /**
     * `sendOffer(recipient, alias)`: registers a record, sets its id to the recipient in the
     * same step, and sets its answer-poll interval.
     */
    method SendOffer(recipient: Id, alias: string)
      modifies this
      ensures |remotes| == old(|remotes|) + 1 && remotes == old(remotes) + [remotes[old(|remotes|)]]
      ensures Ids() == old(Ids()) + [recipient]
      ensures calls == old(calls) + [OfferCall(recipient, alias)]
      ensures var r := remotes[|remotes| - 1];
        fresh(r) && fresh(r.rtcPeerConnection) && RecordFor(r, OfferCall(recipient, alias))
      ensures forall n0, c0 :: old(Records(n0, c0)) ==> Records(n0, c0)
    {
      calls := calls + [OfferCall(recipient, alias)];
      var r := SetupPeer();
      r.idHex := recipient;
      r.initiatorTimer := true;
      IdsOfSnoc(old(remotes), r);
    }

    /**
     * The guarded step of the offers callback for one offer: `sendAnswer(offer)` unless a
     * record already has the initiator's id or the initiator is the caller.
     */
    method AnswerUnlessTracked(offer: Offer)
      modifies this
      ensures var act := offer.initiator !in old(Ids()) && offer.initiator != callerId;
        && Ids() == old(Ids()) + (if act then [offer.initiator] else [])
        && calls == old(calls) + (if act then [AnswerCall(offer)] else [])
      ensures old(remotes) <= remotes && Records(old(|remotes|), old(|calls|))
      ensures forall k :: old(|remotes|) <= k < |remotes| ==> fresh(remotes[k])
      ensures forall n0, c0 :: old(Records(n0, c0)) ==> Records(n0, c0)
    {
      if !Tracked(remotes, offer.initiator) && offer.initiator != callerId {
        SendAnswer(offer);
      }
    }

    /**
     * The guarded step of the participants callback for one participant: `sendOffer` to it
     * unless a record already has its id or it is the caller.
     */
    method OfferUnlessTracked(participant: Participant)
      modifies this
      ensures var act := participant.principal !in old(Ids()) && participant.principal != callerId;
        && Ids() == old(Ids()) + (if act then [participant.principal] else [])
        && calls == old(calls) + (if act then [OfferCall(participant.principal, participant.alias)] else [])
      ensures old(remotes) <= remotes && Records(old(|remotes|), old(|calls|))
      ensures forall k :: old(|remotes|) <= k < |remotes| ==> fresh(remotes[k])
      ensures forall n0, c0 :: old(Records(n0, c0)) ==> Records(n0, c0)
    {
      if !Tracked(remotes, participant.principal) && participant.principal != callerId {
        SendOffer(participant.principal, participant.alias);
      }
    }

    /** The offers callback of `checkForAdditions`, given the canister's offer list. */
    method OffersPass(offers: seq<Offer>)
      modifies this
      ensures Ids() == old(Ids()) + Peers(OffersPassCalls(old(Ids()), callerId, offers))
      ensures calls == old(calls) + OffersPassCalls(old(Ids()), callerId, offers)
      ensures old(remotes) <= remotes && Records(old(|remotes|), old(|calls|))
      ensures forall k :: old(|remotes|) <= k < |remotes| ==> fresh(remotes[k])
      ensures forall n0, c0 :: old(Records(n0, c0)) ==> Records(n0, c0)
    {
      ghost var tracked := Ids();
      for i := 0 to |offers|
        invariant Ids() == tracked + Keys(Admitted(tracked, callerId, offers[..i], InitiatorOf), InitiatorOf)
        invariant calls == old(calls) + AnswerCalls(Admitted(tracked, callerId, offers[..i], InitiatorOf))
        invariant old(remotes) <= remotes && Records(old(|remotes|), old(|calls|))
        invariant forall k :: old(|remotes|) <= k < |remotes| ==> fresh(remotes[k])
        invariant forall n0, c0 :: old(Records(n0, c0)) ==> Records(n0, c0)
      {
        AnswerStep(tracked, callerId, offers, i, Ids(), old(calls), calls);
        AnswerUnlessTracked(offers[i]);
      }
      assert offers[..|offers|] == offers;
      PeersOfAnswers(Admitted(tracked, callerId, offers, InitiatorOf));
    }

    /** The participants callback of `checkForAdditions`, given the room's participant list. */
    method ParticipantsPass(participants: seq<Participant>)
      modifies this
      ensures Ids() == old(Ids()) + Peers(ParticipantsPassCalls(old(Ids()), callerId, participants))
      ensures calls == old(calls) + ParticipantsPassCalls(old(Ids()), callerId, participants)
      ensures old(remotes) <= remotes && Records(old(|remotes|), old(|calls|))
      ensures forall k :: old(|remotes|) <= k < |remotes| ==> fresh(remotes[k])
      ensures forall n0, c0 :: old(Records(n0, c0)) ==> Records(n0, c0)
    {
      ghost var tracked := Ids();
      for i := 0 to |participants|
        invariant Ids() == tracked + Keys(Admitted(tracked, callerId, participants[..i], PrincipalOf), PrincipalOf)
        invariant calls == old(calls) + OfferCalls(Admitted(tracked, callerId, participants[..i], PrincipalOf))
        invariant old(remotes) <= remotes && Records(old(|remotes|), old(|calls|))
        invariant forall k :: old(|remotes|) <= k < |remotes| ==> fresh(remotes[k])
        invariant forall n0, c0 :: old(Records(n0, c0)) ==> Records(n0, c0)
      {
        OfferStep(tracked, callerId, participants, i, Ids(), old(calls), calls);
        OfferUnlessTracked(participants[i]);
      }
      assert participants[..|participants|] == participants;
      PeersOfOffers(Admitted(tracked, callerId, participants, PrincipalOf));
    }

    /**
     * One run of `checkForAdditions` against a snapshot of the offer and participant lists,
     * with its two callbacks in the order `offersFirst` says.
     */
    method Tick(offers: seq<Offer>, participants: seq<Participant>, offersFirst: bool)
      modifies this
      ensures Ids() == old(Ids()) + Peers(TickCalls(old(Ids()), callerId, offers, participants, offersFirst))
      ensures calls == old(calls) + TickCalls(old(Ids()), callerId, offers, participants, offersFirst)
      ensures NoDup(old(Ids())) ==> NoDup(Ids())
      ensures old(remotes) <= remotes && Records(old(|remotes|), old(|calls|))
      ensures forall k :: old(|remotes|) <= k < |remotes| ==> fresh(remotes[k])
    {
      ghost var tracked := Ids();
      ghost var mid: seq<Id>;
      if offersFirst {
        ghost var a := OffersPassCalls(tracked, callerId, offers);
        OffersPass(offers);
        mid := Ids();
        ghost var p := ParticipantsPassCalls(mid, callerId, participants);
        ParticipantsPass(participants);
        AppendAssoc(old(calls), a, p);
        assert calls == old(calls) + (a + p);
      } else {
        ghost var p := ParticipantsPassCalls(tracked, callerId, participants);
        ParticipantsPass(participants);
        mid := Ids();
        ghost var a := OffersPassCalls(mid, callerId, offers);
        OffersPass(offers);
        AppendAssoc(old(calls), p, a);
        assert calls == old(calls) + (p + a);
      }
      TickIds(tracked, callerId, offers, participants, offersFirst, mid, Ids());
    }

    /** The initial pass of `setupVideoPage`: every offer of the room is answered, unguarded. */
    method AnswerAllOffers(offers: seq<Offer>)
      modifies this
      ensures Ids() == old(Ids()) + Keys(offers, InitiatorOf)
      ensures calls == old(calls) + AnswerCalls(offers)
      ensures old(remotes) <= remotes && Records(old(|remotes|), old(|calls|))
      ensures forall k :: old(|remotes|) <= k < |remotes| ==> fresh(remotes[k])
    {
      for i := 0 to |offers|
        invariant Ids() == old(Ids()) + Keys(offers[..i], InitiatorOf)
        invariant calls == old(calls) + AnswerCalls(offers[..i])
        invariant old(remotes) <= remotes && Records(old(|remotes|), old(|calls|))
        invariant forall k :: old(|remotes|) <= k < |remotes| ==> fresh(remotes[k])
      {
        KeysSnoc(offers[..i], offers[i], InitiatorOf);
        TakeSnoc(offers, i);
        AnswerCallsSnoc(offers[..i], offers[i]);
        SendAnswer(offers[i]);
        AppendAssoc(old(Ids()), Keys(offers[..i], InitiatorOf), [offers[i].initiator]);
        AppendAssoc(old(calls), AnswerCalls(offers[..i]), [AnswerCall(offers[i])]);
      }
      assert offers[..|offers|] == offers;
    }
  }
}
