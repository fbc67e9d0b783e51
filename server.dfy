/** The relay itself: the module-level `offers` and `connectedSockets` lists,
    the outbound messages, and the running intervals, with one method per
    socket.io handler. Each handler runs to completion; a timer tick is a
    method the caller invokes. */
module Server {
  import opened Records
  import opened Search
  import opened Timing
  import opened Directory
  import opened Signaling

  /** What a running interval's callback captured: the two records it updates
      and the budget it was started with. */
  datatype Timer = Timer(answering: Connection, calling: Connection, budget: int)

  /** The interval ids `disconnect` clears: those of the records of socket
      `sid` whose `intervalId` is set. */
  function ClearedTimers(sockets: seq<Connection>, sid: SocketId): set<nat>
    reads sockets
  {
    if sockets == [] then {}
    else
      var c := sockets[|sockets| - 1];
      ClearedTimers(sockets[..|sockets| - 1], sid)
      + (if c.socketId == sid && c.intervalId.Some? then {c.intervalId.value} else {})
  }

  class Relay {
    var offers: seq<Offer>
    var sockets: seq<Connection>
    /** Everything emitted so far, in order. */
    var log: seq<Emit>
    /** The intervals that are still scheduled, by id. */
    var timers: map<nat, Timer>
    /** The id the next `setInterval` returns; ids are positive, so truthy. */
    var nextTimerId: nat

    ghost predicate Valid()
      reads this
    {
      0 < nextTimerId && forall id :: id in timers ==> 0 < id < nextTimerId
    }

    constructor ()
      ensures Valid()
      ensures offers == [] && sockets == [] && log == [] && timers == map[]
    {
      offers, sockets, log := [], [], [];
      timers, nextTimerId := map[], 1;
    }

    /** A socket connects with its user name and role (from its token) and the
        connection id of its handshake. It is the offerer exactly when no
        record carries that connection id yet; its record goes at the end. */
    method Connect(sid: SocketId, userName: UserName, role: string, connectionId: string)
      returns (didIOffer: bool, record: Connection)
      requires Valid()
      modifies this
      ensures Valid()
      ensures fresh(record)
      ensures record.socketId == sid && record.userName == userName
      ensures record.role == role && record.connectionId == connectionId
      ensures record.intervalId.None? && record.Time() == Clock(0, None)
      ensures sockets == old(sockets) + [record]
      ensures offers == old(offers) && timers == old(timers) && nextTimerId == old(nextTimerId)
      ensures didIOffer <==> NoneMatch(old(sockets), WithConnectionId(connectionId))
      ensures log == old(log) + ConnectReplies(sid, ConnectedUserOffer(old(sockets), old(offers), connectionId), old(offers))
    {
      var pairing := ConnectedUserOffer(sockets, offers, connectionId);
      didIOffer := pairing.userAlreadyConnected.None?;
      record := new Connection(sid, userName, role, connectionId);
      sockets := sockets + [record];
      log := log + [Emit(Reply(sid), Connected(didIOffer, pairing.offerObj))];
      if |offers| > 0 {
        log := log + [Emit(Reply(sid), AvailableOffers(offers))];
      }
    }

    /** `newOffer` from socket `sid` of user `userName`: a new unanswered offer
        at the end of the list, announced to every other socket. */
    method NewOffer(sid: SocketId, userName: UserName, description: Description)
      requires Valid()
      modifies this
      ensures Valid()
      ensures offers == old(offers) + [Unanswered(userName, description)]
      ensures log == old(log) + [Emit(Broadcast(sid), NewOfferAwaiting([Unanswered(userName, description)]))]
      ensures sockets == old(sockets) && timers == old(timers) && nextTimerId == old(nextTimerId)
    {
      offers := offers + [Offer(userName, description, [], None, None, [])];
      log := log + [Emit(Broadcast(sid), NewOfferAwaiting(offers[|offers| - 1..]))];
    }

    /** `newAnswer` from socket `sid` of user `userName`, for the offer of
        `offererUserName`. The acknowledgement is the returned value: `None`
        when the handler returns early without calling it. */
    method NewAnswer(sid: SocketId, userName: UserName, offererUserName: UserName, answer: Description)
      returns (ack: Option<seq<Candidate>>)
      requires Valid()
      modifies this
      ensures Valid()
      ensures var r := Answer(old(offers), sockets, sid, userName, offererUserName, answer);
              ack == r.ack && offers == r.offers && log == old(log) + r.out
      ensures sockets == old(sockets) && timers == old(timers) && nextTimerId == old(nextTimerId)
    {
      var socketToAnswer := Find(sockets, NamedUser(offererUserName));
      if socketToAnswer.None? {
        return None;
      }
      var socketIdToAnswer := sockets[socketToAnswer.value].socketId;
      var offerToUpdate := Find(offers, ByOfferer(offererUserName));
      if offerToUpdate.None? {
        return None;
      }
      var k := offerToUpdate.value;
      ack := Some(offers[k].offerIceCandidates);
      offers := offers[k := offers[k].(answer := Some(answer))];
      offers := offers[k := offers[k].(answererUserName := Some(userName))];
      log := log + [Emit(ToRoom(socketIdToAnswer, sid), AnswerResponse(offers[k]))];
    }

    /** `sendIceCandidateToSignalingServer` from socket `sid`, with the
        direction flag and user name the client put in the message. */
    method SendIceCandidate(sid: SocketId, didIOffer: bool, iceUserName: UserName, candidate: Candidate)
      requires Valid()
      modifies this
      ensures Valid()
      ensures var r := RouteCandidate(old(offers), sockets, sid, didIOffer, iceUserName, candidate);
              offers == r.offers && log == old(log) + r.out
      ensures sockets == old(sockets) && timers == old(timers) && nextTimerId == old(nextTimerId)
    {
      if didIOffer {
        var offerInOffers := Find(offers, ByOfferer(iceUserName));
        if offerInOffers.Some? {
          var k := offerInOffers.value;
          offers := offers[k := offers[k].(offerIceCandidates := offers[k].offerIceCandidates + [candidate])];
          var answerer := offers[k].answererUserName;
          if Truthy(answerer) {
            var socketToSendTo := Find(sockets, NamedUser(answerer.value));
            if socketToSendTo.Some? {
              log := log + [Forward(sockets[socketToSendTo.value].socketId, sid, candidate)];
            }
          }
        }
      } else {
        var offerInOffers := Find(offers, ByAnswerer(iceUserName));
        if offerInOffers.Some? {
          var socketToSendTo := Find(sockets, NamedUser(offers[offerInOffers.value].offererUserName));
          if socketToSendTo.Some? {
            log := log + [Forward(sockets[socketToSendTo.value].socketId, sid, candidate)];
          }
        }
      }
    }

    /** `sessionStarted` from socket `sid` of user `userName`, with the budget
        `timeToConnect`. Starts a new interval over the caller's record and its
        peer's, and stores its id in both, replacing any earlier id; an
        interval started before keeps running. Returns the new interval's id. */
    method SessionStarted(sid: SocketId, userName: UserName, timeToConnect: int) returns (id: nat)
      requires Valid()
      requires CanStartSession(offers, sockets, userName)
      modifies this, sockets
      ensures Valid()
      ensures var answering := AnsweringUser(old(offers), old(sockets), userName);
              var calling := CallingUser(old(offers), old(sockets), userName);
              && id == old(nextTimerId) && id !in old(timers) && nextTimerId == id + 1
              && timers == old(timers)[id := Timer(answering, calling, timeToConnect)]
              && answering.intervalId == Some(id) && calling.intervalId == Some(id)
              && (forall c :: c in old(sockets) && c != answering && c != calling ==> c.intervalId == old(c.intervalId))
              && log == old(log) + [Emit(ToRoom(answering.socketId, sid), Notification(SessionStartedText))]
      ensures forall c :: c in old(sockets) ==> c.Time() == old(c.Time())
      ensures offers == old(offers) && sockets == old(sockets)
    {
      var answeringUser := AnsweringUser(offers, sockets, userName);
      var callingUser := CallingUser(offers, sockets, userName);
      log := log + [Emit(ToRoom(answeringUser.socketId, sid), Notification(SessionStartedText))];
      id := nextTimerId;
      timers := timers[id := Timer(answeringUser, callingUser, timeToConnect)];
      nextTimerId := nextTimerId + 1;
      answeringUser.intervalId := Some(id);
      callingUser.intervalId := Some(id);
    }

    /** One run of interval `id`'s callback: each of its two records, answering
        then calling, gains one interval of connected time and, for a Patient,
        loses one interval of remaining time, with the notices that follow.
        When both are the same record it is updated twice. The interval stays
        scheduled whatever the remaining time. */
    method Tick(id: nat)
      requires Valid() && id in timers
      modifies this`log, timers[id].answering, timers[id].calling
      ensures var t := old(timers[id]);
              var mid := StepClock(t.answering.role, old(t.answering.Time()), t.budget);
              && t.answering.Time() == (if t.answering == t.calling then StepClock(t.calling.role, mid, t.budget) else mid)
              && (t.answering != t.calling ==> t.calling.Time() == StepClock(t.calling.role, old(t.calling.Time()), t.budget))
              && log == old(log) + UserAlerts(t.answering.role, mid, t.answering.socketId, t.calling.socketId)
                                 + UserAlerts(t.calling.role, t.calling.Time(), t.answering.socketId, t.calling.socketId)
      ensures timers[id].answering.intervalId == old(timers[id].answering.intervalId)
      ensures timers[id].calling.intervalId == old(timers[id].calling.intervalId)
      ensures Valid()
    {
      var t := timers[id];
      UpdateUser(t.answering, t);
      UpdateUser(t.calling, t);
    }

    /** The body of the interval's `forEach` for one record `user`. */
    method UpdateUser(user: Connection, t: Timer)
      modifies this`log, user`connectedTime, user`remainingTime
      ensures user.Time() == StepClock(user.role, old(user.Time()), t.budget)
      ensures log == old(log) + UserAlerts(user.role, user.Time(), t.answering.socketId, t.calling.socketId)
    {
      user.connectedTime := user.connectedTime + UpdateInterval;
      if user.role == PatientRole {
        if Falsy(user.remainingTime) {
          user.remainingTime := Some(t.budget);
        }
        user.remainingTime := Some(user.remainingTime.value - UpdateInterval);
        var remaining := user.remainingTime.value;
        if remaining <= 10 {
          log := log + [LimitNotice(t.answering.socketId), LimitNotice(t.calling.socketId)];
        }
        if remaining <= 0 {
          log := log + [LimitNotice(t.answering.socketId), LimitNotice(t.calling.socketId),
                        EndNotice(t.answering.socketId), EndNotice(t.calling.socketId)];
        }
      }
    }

    /** `disconnect` of socket `sid`: every record of that socket is spliced
        out, clearing its interval, and with it every offer its user made or
        answered. Nothing is sent. */
    method Disconnect(sid: SocketId)
      requires Valid()
      modifies this
      ensures Valid()
      ensures Lists(offers, sockets) == Teardown(Lists(old(offers), old(sockets)), sid)
      ensures timers == old(timers - ClearedTimers(sockets, sid))
      ensures log == old(log) && nextTimerId == old(nextTimerId)
    {
      var records, remainingOffers, scheduled := SpliceSocket(sockets, offers, timers, sid);
      assert scheduled.Keys <= timers.Keys;
      sockets, offers, timers := records, remainingOffers, scheduled;
    }
  }

  /** The loop of `disconnect` over the lists `all` and `offers0` and the
      scheduled intervals `timers0`: every record of socket `sid` is spliced
      out in place, its interval cleared if it has one, and the offers of its
      user spliced out after it. */
  method SpliceSocket(all: seq<Connection>, offers0: seq<Offer>, timers0: map<nat, Timer>, sid: SocketId)
    returns (records: seq<Connection>, remainingOffers: seq<Offer>, scheduled: map<nat, Timer>)
    ensures records == Remaining(all, sid)
    ensures remainingOffers == PruneAll(offers0, Departed(all, sid))
    ensures scheduled == timers0 - ClearedTimers(all, sid)
  {
    records, remainingOffers, scheduled := all, offers0, timers0;
    ghost var k := 0;
    var i := 0;
    while i < |records|
      invariant 0 <= k <= |all|
      invariant records == Remaining(all[..k], sid) + all[k..]
      invariant i == |Remaining(all[..k], sid)|
      invariant remainingOffers == PruneAll(offers0, Departed(all[..k], sid))
      invariant scheduled == timers0 - ClearedTimers(all[..k], sid)
      decreases |all| - k
    {
      var gone;
      records, i, scheduled, gone := VisitRecord(all, timers0, sid, k, records, i, scheduled);
      AdvanceDeparted(all, offers0, sid, k);
      ghost var cleared := ClearedTimers(all[..k + 1], sid);
      if gone.Some? {
        remainingOffers := SpliceOffersOf(remainingOffers, gone.value);
      }
      assert ClearedTimers(all[..k + 1], sid) == cleared;
      k := k + 1;
    }
    assert all[..k] == all;
  }

  /** One pass of the `disconnect` loop over the records, at record `i` of
      `records`, which is record `k` of the original list `all`: when it
      belongs to socket `sid` its interval is cleared, it is spliced out and
      its user name is handed back for the offers to be spliced out next. */
  method VisitRecord(all: seq<Connection>, timers0: map<nat, Timer>, sid: SocketId, ghost k: nat,
                     records: seq<Connection>, i: nat, scheduled: map<nat, Timer>)
    returns (records': seq<Connection>, i': nat, scheduled': map<nat, Timer>, userNameToDelete: Option<UserName>)
    requires i < |records| && k < |all|
    requires records == Remaining(all[..k], sid) + all[k..]
    requires i == |Remaining(all[..k], sid)|
    requires scheduled == timers0 - ClearedTimers(all[..k], sid)
    ensures records' == Remaining(all[..k + 1], sid) + all[k + 1..]
    ensures i' == |Remaining(all[..k + 1], sid)|
    ensures scheduled' == timers0 - ClearedTimers(all[..k + 1], sid)
    ensures userNameToDelete == if all[k].socketId == sid then Some(all[k].userName) else None
  {
    SpliceStep(all, WithSocketId(sid), k, records);
    AdvanceCleared(all, timers0, sid, k);
    records', i', scheduled', userNameToDelete := records, i, scheduled, None;
    var obj := records[i];
    if WithSocketId(sid)(obj) {
      if obj.intervalId.Some? {
        scheduled' := scheduled - {obj.intervalId.value};
      }
      userNameToDelete := Some(obj.userName);
      records' := records[..i] + records[i + 1..];
      // `i--` followed by the loop's `i++`: the next record is now at `i`.
    } else {
      i' := i + 1;
    }
  }

  /** The inner loop of `disconnect`: splice out every offer that user `gone`
      made or answered, keeping the order of the others. */
  method SpliceOffersOf(offers: seq<Offer>, gone: UserName) returns (kept: seq<Offer>)
    ensures kept == Without(offers, Involving(gone))
  {
    kept := offers;
    ghost var m := 0;
    var j := 0;
    while j < |kept|
      invariant 0 <= m <= |offers|
      invariant kept == Without(offers[..m], Involving(gone)) + offers[m..]
      invariant j == |Without(offers[..m], Involving(gone))|
      decreases |offers| - m
    {
      SpliceStep(offers, Involving(gone), m, kept);
      var offer := kept[j];
      if Involving(gone)(offer) {
        kept := kept[..j] + kept[j + 1..];
        // `j--` followed by the loop's `j++`: the next offer is now at `j`.
      } else {
        j := j + 1;
      }
      m := m + 1;
    }
    assert offers[..m] == offers;
  }

  /** One more record examined by `disconnect`: the specification functions
      grow by that record's contribution. */
  lemma AdvanceDeparted(all: seq<Connection>, offers0: seq<Offer>, sid: SocketId, k: nat)
    requires k < |all|
    ensures Departed(all[..k + 1], sid)
         == Departed(all[..k], sid) + (if all[k].socketId == sid then [all[k].userName] else [])
    ensures all[k].socketId == sid ==>
      PruneAll(offers0, Departed(all[..k + 1], sid))
      == Without(PruneAll(offers0, Departed(all[..k], sid)), Involving(all[k].userName))
    ensures all[k].socketId != sid ==>
      PruneAll(offers0, Departed(all[..k + 1], sid)) == PruneAll(offers0, Departed(all[..k], sid))
  {
    assert all[..k + 1][..k] == all[..k];
    var names := Departed(all[..k], sid);
    if all[k].socketId == sid {
      var names' := names + [all[k].userName];
      assert names'[..|names'| - 1] == names;
    } else {
      assert Departed(all[..k + 1], sid) == names;
    }
  }

  lemma AdvanceCleared(all: seq<Connection>, timers0: map<nat, Timer>, sid: SocketId, k: nat)
    requires k < |all|
    ensures all[k].socketId == sid && all[k].intervalId.Some? ==>
      timers0 - ClearedTimers(all[..k + 1], sid)
      == (timers0 - ClearedTimers(all[..k], sid)) - {all[k].intervalId.value}
    ensures !(all[k].socketId == sid && all[k].intervalId.Some?) ==>
      ClearedTimers(all[..k + 1], sid) == ClearedTimers(all[..k], sid)
  {
    assert all[..k + 1][..k] == all[..k];
  }
}
