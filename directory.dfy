/** The connection records (`connectedSockets`) and the two pure lookups over
    the relay's lists, `connectedUserOffer` and `connectedTo`. */
module Directory {
  import opened Records
  import opened Search
  import opened Timing

  /** One entry of `connectedSockets`. The identity fields never change after
      connect; the timing fields are updated in place by timer ticks, through
      references that the timer keeps even after the record leaves the list. */
  class Connection {
    const socketId: SocketId
    const userName: UserName
    const role: string
    const connectionId: string
    var intervalId: Option<nat>
    var connectedTime: int
    var remainingTime: Option<int>

    constructor (socketId: SocketId, userName: UserName, role: string, connectionId: string)
      ensures this.socketId == socketId && this.userName == userName
      ensures this.role == role && this.connectionId == connectionId
      ensures intervalId.None? && Time() == Clock(0, None)
    {
      this.socketId := socketId;
      this.userName := userName;
      this.role := role;
      this.connectionId := connectionId;
      intervalId := None;
      connectedTime := 0;
      remainingTime := None;
    }

    function Time(): Clock
      reads this
    {
      Clock(connectedTime, remainingTime)
    }
  }

  // The tests the relay hands to `find`, written once each.

  function NamedUser(u: UserName): Connection -> bool {
    (c: Connection) => c.userName == u
  }

  function WithConnectionId(id: string): Connection -> bool {
    (c: Connection) => c.connectionId == id
  }

  function WithSocketId(id: SocketId): Connection -> bool {
    (c: Connection) => c.socketId == id
  }

  function ByOfferer(u: UserName): Offer -> bool {
    (o: Offer) => o.offererUserName == u
  }

  function ByAnswerer(u: UserName): Offer -> bool {
    (o: Offer) => o.answererUserName == Some(u)
  }

  /** The result of `connectedUserOffer`. */
  datatype Pairing = Pairing(userAlreadyConnected: Option<Connection>, offerObj: Option<Offer>)

  /** The earlier connection presenting the same connection id, and the offer
      its user made, each the first match. */
  function ConnectedUserOffer(sockets: seq<Connection>, offers: seq<Offer>, connectionId: string): (r: Pairing)
    ensures r.userAlreadyConnected.None? <==> NoneMatch(sockets, WithConnectionId(connectionId))
    ensures r.userAlreadyConnected.Some? ==>
      exists k :: IsFirst(sockets, WithConnectionId(connectionId), k) && r.userAlreadyConnected.value == sockets[k]
    ensures r.userAlreadyConnected.None? ==> r.offerObj.None?
    ensures r.userAlreadyConnected.Some? ==>
      var name := r.userAlreadyConnected.value.userName;
      (r.offerObj.None? <==> NoneMatch(offers, ByOfferer(name))) &&
      (r.offerObj.Some? ==> exists k :: IsFirst(offers, ByOfferer(name), k) && r.offerObj.value == offers[k])
  {
    match Find(sockets, WithConnectionId(connectionId))
    case None => Pairing(None, None)
    case Some(i) =>
      var earlier := sockets[i];
      match Find(offers, ByOfferer(earlier.userName))
      case None => Pairing(Some(earlier), None)
      case Some(k) => Pairing(Some(earlier), Some(offers[k]))
  }

  /** Some offer names `u` as offerer or answerer; `connectedTo` dereferences
      its search result without checking, so callers must ensure this. */
  predicate Involves(offers: seq<Offer>, u: UserName) {
    exists k :: 0 <= k < |offers| && (offers[k].offererUserName == u || offers[k].answererUserName == Some(u))
  }

  /** The other party of `u`'s session: the answerer of the first offer `u`
      made (possibly still null), or else the offerer of the first offer `u`
      answered. */
  function ConnectedTo(offers: seq<Offer>, u: UserName): (r: Option<UserName>)
    requires Involves(offers, u)
    ensures forall k :: IsFirst(offers, ByOfferer(u), k) ==> r == offers[k].answererUserName
    ensures NoneMatch(offers, ByOfferer(u)) ==>
      exists k :: IsFirst(offers, ByAnswerer(u), k) && r == Some(offers[k].offererUserName)
  {
    match Find(offers, ByOfferer(u))
    case Some(k) =>
      FirstIsUniqueFor(offers, ByOfferer(u), k);
      offers[k].answererUserName
    case None =>
      var k := FirstAnswered(offers, u);
      Some(offers[k].offererUserName)
  }

  /** When `u` made no offer but is involved in one, the first offer `u` answered. */
  function FirstAnswered(offers: seq<Offer>, u: UserName): (k: int)
    requires Involves(offers, u) && NoneMatch(offers, ByOfferer(u))
    ensures IsFirst(offers, ByAnswerer(u), k)
  {
    match Find(offers, ByAnswerer(u))
    case Some(k) => k
    case None => assert false; 0
  }

  /** The conditions under which the `sessionStarted` handler reaches
      `setInterval` and both `intervalId` assignments without dereferencing an
      undefined value: the caller is involved in an offer, has a record, and
      its peer is named and has a record. */
  predicate CanStartSession(offers: seq<Offer>, sockets: seq<Connection>, u: UserName) {
    && Involves(offers, u)
    && Find(sockets, NamedUser(u)).Some?
    && var peer := ConnectedTo(offers, u);
       peer.Some? && Find(sockets, NamedUser(peer.value)).Some?
  }

  /** `answeringUser` of the `sessionStarted` handler: the first record of the
      caller's user name. */
  function AnsweringUser(offers: seq<Offer>, sockets: seq<Connection>, u: UserName): (r: Connection)
    requires CanStartSession(offers, sockets, u)
    ensures r.userName == u
    ensures exists i :: IsFirst(sockets, NamedUser(u), i) && r == sockets[i]
  {
    sockets[Find(sockets, NamedUser(u)).value]
  }

  /** `callingUser` of the `sessionStarted` handler: the first record of the
      user `connectedTo` names. */
  function CallingUser(offers: seq<Offer>, sockets: seq<Connection>, u: UserName): (r: Connection)
    requires CanStartSession(offers, sockets, u)
    ensures Some(r.userName) == ConnectedTo(offers, u)
    ensures exists i :: IsFirst(sockets, NamedUser(r.userName), i) && r == sockets[i]
  {
    sockets[Find(sockets, NamedUser(ConnectedTo(offers, u).value)).value]
  }
}
