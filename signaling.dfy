/** The effect of the relay's handlers on the `offers` and `connectedSockets`
    lists and on what they send, as functions of the state they start from.
    The methods of `Server.Relay` are proved to change their state exactly as
    these functions say; the lemmas here state what the handlers promise. */
module Signaling {
  import opened Records
  import opened Search
  import opened Directory

  // ---------------------------------------------------------------- connect

  /** What `connect` sends back to the new socket: its role and the offer of
      its counterpart, then every offer if there is any. */
  function ConnectReplies(sid: SocketId, pairing: Pairing, offers: seq<Offer>): (r: seq<Emit>)
    ensures 1 <= |r|
    ensures r[0] == Emit(Reply(sid), Connected(pairing.userAlreadyConnected.None?, pairing.offerObj))
    ensures |r| == 2 <==> |offers| > 0
    ensures |r| == 2 ==> r[1] == Emit(Reply(sid), AvailableOffers(offers))
    ensures |r| <= 2
  {
    [Emit(Reply(sid), Connected(pairing.userAlreadyConnected.None?, pairing.offerObj))]
    + (if |offers| > 0 then [Emit(Reply(sid), AvailableOffers(offers))] else [])
  }

  /** The first socket to present a connection id is told to offer; the next
      one is paired with it, and is handed the offer it has made since. */
  lemma {:induction false} SecondArrivalAnswers(sockets: seq<Connection>, offers: seq<Offer>,
                                                first: Connection, description: Description)
    requires NoneMatch(sockets, WithConnectionId(first.connectionId))
    requires NoneMatch(offers, ByOfferer(first.userName))
    ensures ConnectedUserOffer(sockets, offers, first.connectionId).userAlreadyConnected.None?
    ensures var later := ConnectedUserOffer(sockets + [first], offers + [Unanswered(first.userName, description)],
                                            first.connectionId);
            later.userAlreadyConnected == Some(first)
            && later.offerObj == Some(Unanswered(first.userName, description))
  {
    var s := sockets + [first];
    assert IsFirst(s, WithConnectionId(first.connectionId), |sockets|) by {
      forall j | 0 <= j < |sockets| ensures !WithConnectionId(first.connectionId)(s[j]) {
        assert s[j] == sockets[j];
      }
    }
    FindIsFirst(s, WithConnectionId(first.connectionId), |sockets|);
    var o := offers + [Unanswered(first.userName, description)];
    assert IsFirst(o, ByOfferer(first.userName), |offers|) by {
      forall j | 0 <= j < |offers| ensures !ByOfferer(first.userName)(o[j]) {
        assert o[j] == offers[j];
      }
    }
    FindIsFirst(o, ByOfferer(first.userName), |offers|);
  }

  // ---------------------------------------------------------------- newAnswer

  datatype AnswerOutcome = AnswerOutcome(ack: Option<seq<Candidate>>, offers: seq<Offer>, out: seq<Emit>)

  /** `after` is `before` with the answer attached to offer `k`: only that
      offer's `answer` and `answererUserName` differ. */
  ghost predicate AnswerAttached(before: seq<Offer>, after: seq<Offer>, k: int, answerer: UserName, answer: Description) {
    && 0 <= k < |before| == |after|
    && (forall j :: 0 <= j < |before| && j != k ==> after[j] == before[j])
    && after[k] == before[k].(answererUserName := Some(answerer), answer := Some(answer))
  }

  /** `newAnswer` from socket `sid` of user `answerer`, for the offer of `offerer`. */
  function Answer(offers: seq<Offer>, sockets: seq<Connection>, sid: SocketId,
                  answerer: UserName, offerer: UserName, answer: Description): (r: AnswerOutcome)
    ensures r.ack.None? <==> NoneMatch(sockets, NamedUser(offerer)) || NoneMatch(offers, ByOfferer(offerer))
    ensures r.ack.None? ==> r.offers == offers && r.out == []
    ensures r.ack.Some? ==>
      exists k, i :: IsFirst(offers, ByOfferer(offerer), k) && IsFirst(sockets, NamedUser(offerer), i)
        && r.ack.value == offers[k].offerIceCandidates
        && AnswerAttached(offers, r.offers, k, answerer, answer)
        && r.out == [Emit(ToRoom(sockets[i].socketId, sid), AnswerResponse(r.offers[k]))]
  {
    match Find(sockets, NamedUser(offerer))
    case None => AnswerOutcome(None, offers, [])
    case Some(i) =>
      match Find(offers, ByOfferer(offerer))
      case None => AnswerOutcome(None, offers, [])
      case Some(k) =>
        var updated := offers[k].(answer := Some(answer), answererUserName := Some(answerer));
        AnswerOutcome(Some(offers[k].offerIceCandidates), offers[k := updated],
                      [Emit(ToRoom(sockets[i].socketId, sid), AnswerResponse(updated))])
  }

  // ---------------------------------------------------------------- ICE candidates

  datatype Relayed = Relayed(offers: seq<Offer>, out: seq<Emit>)

  function Forward(room: SocketId, sender: SocketId, candidate: Candidate): Emit {
    Emit(ToRoom(room, sender), ReceivedIceCandidate(candidate))
  }

  /** `offers` with `candidate` queued at the end of offer `k`'s offerer list. */
  function Queued(offers: seq<Offer>, k: nat, candidates: seq<Candidate>): seq<Offer>
    requires k < |offers|
  {
    offers[k := offers[k].(offerIceCandidates := offers[k].offerIceCandidates + candidates)]
  }

  /** `sendIceCandidateToSignalingServer` from socket `sid`. `didIOffer` and
      `iceUserName` are as the client sent them. */
  function RouteCandidate(offers: seq<Offer>, sockets: seq<Connection>, sid: SocketId,
                          didIOffer: bool, iceUserName: UserName, candidate: Candidate): Relayed
  {
    if didIOffer then
      match Find(offers, ByOfferer(iceUserName))
      case None => Relayed(offers, [])
      case Some(k) =>
        var queued := Queued(offers, k, [candidate]);
        var answerer := offers[k].answererUserName;
        if Truthy(answerer) then
          match Find(sockets, NamedUser(answerer.value))
          case None => Relayed(queued, [])
          case Some(i) => Relayed(queued, [Forward(sockets[i].socketId, sid, candidate)])
        else Relayed(queued, [])
    else
      match Find(offers, ByAnswerer(iceUserName))
      case None => Relayed(offers, [])
      case Some(k) =>
        match Find(sockets, NamedUser(offers[k].offererUserName))
        case None => Relayed(offers, [])
        case Some(i) => Relayed(offers, [Forward(sockets[i].socketId, sid, candidate)])
  }

  /** The offerer sending `candidates` one after another. */
  function Stream(offers: seq<Offer>, sockets: seq<Connection>, sid: SocketId,
                  offerer: UserName, candidates: seq<Candidate>): Relayed
    decreases |candidates|
  {
    if candidates == [] then Relayed(offers, [])
    else
      var n := |candidates| - 1;
      var before := Stream(offers, sockets, sid, offerer, candidates[..n]);
      var step := RouteCandidate(before.offers, sockets, sid, true, offerer, candidates[n]);
      Relayed(step.offers, before.out + step.out)
  }

  /** The candidates that reached socket `room`, in the order they were sent. */
  function Delivered(out: seq<Emit>, room: SocketId): seq<Candidate> {
    if out == [] then []
    else
      var e := out[|out| - 1];
      Delivered(out[..|out| - 1], room)
      + (if e.message.ReceivedIceCandidate? && e.route.ToRoom? && e.route.room == room
         then [e.message.candidate] else [])
  }

  lemma DeliveredAppend(a: seq<Emit>, b: seq<Emit>, room: SocketId)
    ensures Delivered(a + b, room) == Delivered(a, room) + Delivered(b, room)
    decreases |b|
  {
    if b == [] {
      assert a + b == a;
    } else {
      var n := |b| - 1;
      assert (a + b)[..|a + b| - 1] == a + b[..n];
      DeliveredAppend(a, b[..n], room);
    }
  }

  /** A candidate from the answerer changes no offer. It goes to the offerer
      of the first offer the sender answered, when that offerer is connected,
      and nowhere otherwise. */
  lemma AnswererCandidate(offers: seq<Offer>, sockets: seq<Connection>, sid: SocketId,
                          iceUserName: UserName, candidate: Candidate)
    ensures var r := RouteCandidate(offers, sockets, sid, false, iceUserName, candidate);
      && r.offers == offers
      && (r.out != [] ==>
            exists k, i :: IsFirst(offers, ByAnswerer(iceUserName), k)
              && IsFirst(sockets, NamedUser(offers[k].offererUserName), i)
              && r.out == [Forward(sockets[i].socketId, sid, candidate)])
      && (r.out == [] <==>
            NoneMatch(offers, ByAnswerer(iceUserName))
            || exists k :: IsFirst(offers, ByAnswerer(iceUserName), k)
                           && NoneMatch(sockets, NamedUser(offers[k].offererUserName)))
  {
    var r := RouteCandidate(offers, sockets, sid, false, iceUserName, candidate);
    match Find(offers, ByAnswerer(iceUserName))
    case None =>
    case Some(k) =>
      FirstIsUniqueFor(offers, ByAnswerer(iceUserName), k);
  }

  /** A candidate from an offerer who made no offer is dropped. */
  lemma OffererCandidateDropped(offers: seq<Offer>, sockets: seq<Connection>, sid: SocketId,
                                offerer: UserName, candidate: Candidate)
    requires NoneMatch(offers, ByOfferer(offerer))
    ensures RouteCandidate(offers, sockets, sid, true, offerer, candidate) == Relayed(offers, [])
  {
  }

  /** A candidate from the offerer is queued at the end of the sender's first
      offer `k`, which keeps its place, and is forwarded (to the first record
      of the answerer) exactly when that offer has a truthy answerer name with
      a connected record. */
  lemma OffererCandidate(offers: seq<Offer>, sockets: seq<Connection>, sid: SocketId,
                         offerer: UserName, candidate: Candidate, k: nat)
    requires IsFirst(offers, ByOfferer(offerer), k)
    ensures var r := RouteCandidate(offers, sockets, sid, true, offerer, candidate);
      && r.offers == Queued(offers, k, [candidate])
      && IsFirst(r.offers, ByOfferer(offerer), k)
      && (r.out != [] <==> Truthy(offers[k].answererUserName)
                           && !NoneMatch(sockets, NamedUser(offers[k].answererUserName.value)))
      && (forall i :: Truthy(offers[k].answererUserName)
                      && IsFirst(sockets, NamedUser(offers[k].answererUserName.value), i) ==>
                      r.out == [Forward(sockets[i].socketId, sid, candidate)])
  {
    CandidateQueued(offers, sockets, sid, offerer, candidate, k);
    FindIsFirst(offers, ByOfferer(offerer), k);
    var r := RouteCandidate(offers, sockets, sid, true, offerer, candidate);
    if Truthy(offers[k].answererUserName) {
      var name := offers[k].answererUserName.value;
      forall i | IsFirst(sockets, NamedUser(name), i)
        ensures r.out == [Forward(sockets[i].socketId, sid, candidate)]
      {
        FindIsFirst(sockets, NamedUser(name), i);
      }
    }
  }

  /** While the offerer streams candidates, its first offer keeps its place and
      queues every one of them in order. */
  lemma {:induction false} StreamQueues(offers: seq<Offer>, sockets: seq<Connection>, sid: SocketId,
                                        offerer: UserName, candidates: seq<Candidate>, k: nat)
    requires IsFirst(offers, ByOfferer(offerer), k)
    ensures var r := Stream(offers, sockets, sid, offerer, candidates);
      && r.offers == Queued(offers, k, candidates)
      && IsFirst(r.offers, ByOfferer(offerer), k)
    decreases |candidates|
  {
    if candidates == [] {
      assert offers[k].offerIceCandidates + [] == offers[k].offerIceCandidates;
      assert Queued(offers, k, []) == offers;
    } else {
      var n := |candidates| - 1;
      var c := candidates[n];
      StreamQueues(offers, sockets, sid, offerer, candidates[..n], k);
      var before := Stream(offers, sockets, sid, offerer, candidates[..n]);
      CandidateQueued(before.offers, sockets, sid, offerer, c, k);
      assert candidates[..n] + [c] == candidates;
      QueuedTwice(offers, k, candidates[..n], [c]);
    }
  }

  /** A candidate from the offerer lands at the end of its first offer. */
  lemma CandidateQueued(offers: seq<Offer>, sockets: seq<Connection>, sid: SocketId,
                        offerer: UserName, candidate: Candidate, k: nat)
    requires IsFirst(offers, ByOfferer(offerer), k)
    ensures var r := RouteCandidate(offers, sockets, sid, true, offerer, candidate);
      && r.offers == Queued(offers, k, [candidate])
      && IsFirst(r.offers, ByOfferer(offerer), k)
  {
    FindIsFirst(offers, ByOfferer(offerer), k);
    var after := Queued(offers, k, [candidate]);
    assert IsFirst(after, ByOfferer(offerer), k) by {
      forall j | 0 <= j <= k ensures after[j].offererUserName == offers[j].offererUserName {}
    }
  }

  lemma QueuedTwice(offers: seq<Offer>, k: nat, xs: seq<Candidate>, ys: seq<Candidate>)
    requires k < |offers|
    ensures Queued(Queued(offers, k, xs), k, ys) == Queued(offers, k, xs + ys)
  {
    assert offers[k].offerIceCandidates + xs + ys == offers[k].offerIceCandidates + (xs + ys);
  }

  /** All the candidates the offerer streams reach the answerer when its first
      offer has a connected answerer, and none is sent anywhere while it has
      none. */
  lemma {:induction false} StreamForwards(offers: seq<Offer>, sockets: seq<Connection>, sid: SocketId,
                                          offerer: UserName, candidates: seq<Candidate>, k: nat)
    requires IsFirst(offers, ByOfferer(offerer), k)
    ensures var r := Stream(offers, sockets, sid, offerer, candidates);
      && (!Truthy(offers[k].answererUserName) ==> r.out == [])
      && (forall i :: Truthy(offers[k].answererUserName)
                      && IsFirst(sockets, NamedUser(offers[k].answererUserName.value), i) ==>
                      Delivered(r.out, sockets[i].socketId) == candidates)
    decreases |candidates|
  {
    if candidates != [] {
      var n := |candidates| - 1;
      var c := candidates[n];
      StreamForwards(offers, sockets, sid, offerer, candidates[..n], k);
      var before := Stream(offers, sockets, sid, offerer, candidates[..n]);
      var answerer := offers[k].answererUserName;
      assert IsFirst(before.offers, ByOfferer(offerer), k) && before.offers[k].answererUserName == answerer by {
        StreamQueues(offers, sockets, sid, offerer, candidates[..n], k);
      }
      FindIsFirst(before.offers, ByOfferer(offerer), k);
      var step := RouteCandidate(before.offers, sockets, sid, true, offerer, c);
      assert candidates[..n] + [c] == candidates;
      if Truthy(answerer) {
        forall i | IsFirst(sockets, NamedUser(answerer.value), i)
          ensures Delivered(before.out + step.out, sockets[i].socketId) == candidates
        {
          FindIsFirst(sockets, NamedUser(answerer.value), i);
          assert step.out == [Forward(sockets[i].socketId, sid, c)];
          DeliveredAppend(before.out, step.out, sockets[i].socketId);
          assert Delivered(step.out, sockets[i].socketId) == [c] by {
            assert step.out[..0] == [];
          }
        }
      }
    }
  }

  /** Queue then stream: candidates the offerer sends before the answer reach
      nobody and are handed to the answerer in the `newAnswer` acknowledgement,
      together with those queued earlier; candidates sent after it are
      forwarded to the answerer live. The acknowledgement followed by the live
      ones is exactly the offer's candidate list: each candidate once, in the
      order the offerer sent it. */
  lemma QueueThenStream(offers: seq<Offer>, sockets: seq<Connection>,
                        offererSid: SocketId, offerer: UserName, early: seq<Candidate>,
                        answererSid: SocketId, answerer: UserName, answer: Description,
                        late: seq<Candidate>, k: nat, i: nat)
    requires IsFirst(offers, ByOfferer(offerer), k) && offers[k].answererUserName.None?
    requires !NoneMatch(sockets, NamedUser(offerer))
    requires answerer != "" && IsFirst(sockets, NamedUser(answerer), i)
    ensures var before := Stream(offers, sockets, offererSid, offerer, early);
            var matched := Answer(before.offers, sockets, answererSid, answerer, offerer, answer);
            var after := Stream(matched.offers, sockets, offererSid, offerer, late);
            && before.out == []
            && matched.ack == Some(offers[k].offerIceCandidates + early)
            && Delivered(after.out, sockets[i].socketId) == late
            && k < |after.offers|
            && matched.ack.value + Delivered(after.out, sockets[i].socketId)
               == after.offers[k].offerIceCandidates
  {
    var before := Stream(offers, sockets, offererSid, offerer, early);
    StreamQueues(offers, sockets, offererSid, offerer, early, k);
    StreamForwards(offers, sockets, offererSid, offerer, early, k);
    var matched := Answer(before.offers, sockets, answererSid, answerer, offerer, answer);
    FindIsFirst(before.offers, ByOfferer(offerer), k);
    assert matched.offers == before.offers[k := before.offers[k].(answer := Some(answer), answererUserName := Some(answerer))];
    assert IsFirst(matched.offers, ByOfferer(offerer), k) by {
      forall j | 0 <= j <= k ensures matched.offers[j].offererUserName == offers[j].offererUserName {}
    }
    StreamQueues(matched.offers, sockets, offererSid, offerer, late, k);
    StreamForwards(matched.offers, sockets, offererSid, offerer, late, k);
    assert matched.offers[k].answererUserName == Some(answerer);
  }

  // ---------------------------------------------------------------- disconnect

  function Remaining(sockets: seq<Connection>, sid: SocketId): seq<Connection> {
    Without(sockets, WithSocketId(sid))
  }

  /** The user names of the records of socket `sid`, in list order. */
  function Departed(sockets: seq<Connection>, sid: SocketId): seq<UserName> {
    if sockets == [] then []
    else
      var c := sockets[|sockets| - 1];
      Departed(sockets[..|sockets| - 1], sid) + (if c.socketId == sid then [c.userName] else [])
  }

  /** The offers user `u` made or answered. */
  function Involving(u: UserName): Offer -> bool {
    (o: Offer) => o.offererUserName == u || o.answererUserName == Some(u)
  }

  /** The offers left after removing, name by name, every offer whose offerer
      or answerer is one of `names`. */
  function PruneAll(offers: seq<Offer>, names: seq<UserName>): seq<Offer> {
    if names == [] then offers
    else Without(PruneAll(offers, names[..|names| - 1]), Involving(names[|names| - 1]))
  }

  datatype Lists = Lists(offers: seq<Offer>, sockets: seq<Connection>)

  /** `disconnect` of socket `sid`, on the two lists. */
  function Teardown(l: Lists, sid: SocketId): Lists {
    Lists(PruneAll(l.offers, Departed(l.sockets, sid)), Remaining(l.sockets, sid))
  }

  lemma {:induction false} DepartedOfRemainingIsEmpty(sockets: seq<Connection>, sid: SocketId)
    ensures Departed(Remaining(sockets, sid), sid) == []
    decreases |sockets|
  {
    if sockets != [] {
      var n := |sockets| - 1;
      var drop := WithSocketId(sid);
      DepartedOfRemainingIsEmpty(sockets[..n], sid);
      var f := Without(sockets[..n], drop);
      if !drop(sockets[n]) {
        var g := f + [sockets[n]];
        assert g[..|g| - 1] == f;
        assert Remaining(sockets, sid) == g;
        assert Departed(g, sid) == Departed(f, sid);
      } else {
        assert Remaining(sockets, sid) == f;
      }
    }
  }

  /** After a disconnect no record of the socket is left, and no offer made or
      answered by one of its users. */
  lemma {:induction false} TeardownLeavesNoTrace(l: Lists, sid: SocketId)
    ensures var t := Teardown(l, sid);
      && (forall c :: c in t.sockets ==> c.socketId != sid)
      && (forall o, u :: o in t.offers && u in Departed(l.sockets, sid) ==>
            o.offererUserName != u && o.answererUserName != Some(u))
  {
    forall o, u | o in PruneAll(l.offers, Departed(l.sockets, sid)) && u in Departed(l.sockets, sid)
      ensures o.offererUserName != u && o.answererUserName != Some(u)
    {
      PrunedAvoids(l.offers, Departed(l.sockets, sid), o, u);
    }
  }

  lemma {:induction false} PrunedAvoids(offers: seq<Offer>, names: seq<UserName>, o: Offer, u: UserName)
    requires o in PruneAll(offers, names) && u in names
    ensures o.offererUserName != u && o.answererUserName != Some(u)
    decreases |names|
  {
    var n := |names| - 1;
    if u != names[n] {
      assert u in names[..n] by {
        var j :| 0 <= j < |names| && names[j] == u;
        assert j < n && names[..n][j] == u;
      }
      PrunedAvoids(offers, names[..n], o, u);
    }
  }

  /** Nothing else is removed: an offer survives exactly when it concerns none
      of the departed users. */
  lemma {:induction false} PruneKeepsUnrelated(offers: seq<Offer>, names: seq<UserName>, o: Offer)
    requires o in offers
    requires forall u :: u in names ==> o.offererUserName != u && o.answererUserName != Some(u)
    ensures o in PruneAll(offers, names)
    decreases |names|
  {
    if names != [] {
      var n := |names| - 1;
      forall u | u in names[..n] ensures o.offererUserName != u && o.answererUserName != Some(u) {
        assert u in names;
      }
      PruneKeepsUnrelated(offers, names[..n], o);
      assert names[n] in names;
      WithoutKeeps(PruneAll(offers, names[..n]), Involving(names[n]), o);
    }
  }

  /** Disconnecting the same socket again changes nothing. */
  lemma TeardownIdempotent(l: Lists, sid: SocketId)
    ensures Teardown(Teardown(l, sid), sid) == Teardown(l, sid)
  {
    DepartedOfRemainingIsEmpty(l.sockets, sid);
    WithoutIdempotent(l.sockets, WithSocketId(sid));
  }
}
