/** The values the signaling relay stores and sends: offers, outbound messages,
    and the constants of the server. Payloads (session descriptions, ICE
    candidates) are opaque strings. */
module Records {

  datatype Option<+T> = None | Some(value: T)

  type SocketId = string
  type UserName = string
  /** An offer or answer payload (a session description); never inspected. */
  type Description = string
  /** An ICE candidate payload; never inspected. */
  type Candidate = string

  /** Milliseconds added on every timer tick. */
  const UpdateInterval: int := 1000
  /** The only role whose remaining time is counted down. */
  const PatientRole: string := "Patient"
  const LimitExceededText: string := "User time limit exceeded"
  const SessionStartedText: string := "Session started"

  /** One entry of the `offers` list. The answerer fields are `None` until an
      answer is attached; `answererIceCandidates` is created empty and never
      written by the relay. */
  datatype Offer = Offer(
    offererUserName: UserName,
    offer: Description,
    offerIceCandidates: seq<Candidate>,
    answererUserName: Option<UserName>,
    answer: Option<Description>,
    answererIceCandidates: seq<Candidate>)

  /** The record that `newOffer` pushes: nothing matched, nothing queued. */
  function Unanswered(offerer: UserName, description: Description): (o: Offer)
    ensures o.offererUserName == offerer && o.offer == description
    ensures o.offerIceCandidates == [] && o.answererIceCandidates == []
    ensures o.answererUserName.None? && o.answer.None?
  {
    Offer(offerer, description, [], None, None, [])
  }

  /** How a message leaves the relay. */
  datatype Route =
    | Reply(socket: SocketId)                   // socket.emit: back to the calling socket
    | ToRoom(room: SocketId, sender: SocketId)  // socket.to(room).emit: the room, minus the sender
    | FromServer(room: SocketId)                // io.to(room).emit
    | Broadcast(sender: SocketId)               // socket.broadcast.emit: everyone but the sender

  datatype Message =
    | Connected(didIOffer: bool, offerObj: Option<Offer>)
    | AvailableOffers(all: seq<Offer>)
    | NewOfferAwaiting(latest: seq<Offer>)
    | AnswerResponse(answered: Offer)
    | ReceivedIceCandidate(candidate: Candidate)
    | Notification(text: string)
    | SessionEnded

  datatype Emit = Emit(route: Route, message: Message)

  /** JavaScript truthiness of a nullable string: null and "" are falsy. */
  predicate Truthy(s: Option<string>) {
    s.Some? && s.value != ""
  }
}
