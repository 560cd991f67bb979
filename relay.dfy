/**
 * The WebSocket side of server/routes.ts: the registry `userConnections`
 * from user id to socket, the user id each connection has bound with `auth`,
 * and the router that turns an incoming frame into at most one outgoing
 * frame. Node runs one handler at a time, so each event is one atomic step.
 * A socket is a connection number; whether its `readyState` is OPEN is
 * membership in `open`.
 */
module Relay {
  import opened Wrappers
  import opened Schema
  import opened Storage

  type ConnId = nat

  /** An incoming frame after `JSON.parse`; payload values are kept as their JSON text. */
  datatype Frame =
    | Malformed                                                         // `JSON.parse` throws, or the value has no `type`
    | Auth(userId: Option<int>)                                         // `auth`
    | Signal(targetUserId: Option<int>, signal: string)                 // `voice_call_signal`
    | Chat(receiverId: int, messageText: string)                        // `message`
    | CallAction(action: string, callId: Option<string>, targetId: Option<int>) // `voice_call_action`
    | Other(kind: string)                                               // any other `type`, `group_message` among them

  /** An outgoing frame. */
  datatype Envelope =
    | NewMessage(message: DirectMessage)                                // `new_message`
    | SignalFrom(fromUserId: Option<int>, signal: string)               // `voice_call_signal`
    | ActionFrom(action: string, callId: Option<string>, fromUserId: Option<int>) // `voice_call_action`

  datatype Delivery = Delivery(to: ConnId, envelope: Envelope)

  /** The whole relay state: the registry, each connection's bound user id, the open sockets, the next connection number. */
  datatype Registry = Registry(
    connections: map<int, ConnId>,
    userIdOf: map<ConnId, Option<int>>,
    open: set<ConnId>,
    nextConn: ConnId)

  /** JavaScript truthiness of a user id: `null`, `undefined` and `0` are falsy. */
  predicate Truthy(id: Option<int>) {
    id.Some? && id.value != 0
  }

  /**
   * What every reachable state satisfies: open sockets are known
   * connections, connection numbers lie below the counter, and the registry
   * holds only truthy ids mapped to known connections.
   */
  ghost predicate WellFormed(r: Registry) {
    && r.open <= r.userIdOf.Keys
    && (forall c :: c in r.userIdOf ==> c < r.nextConn)
    && (forall u :: u in r.connections ==> u != 0 && r.connections[u] in r.userIdOf)
  }

  /** `userConnections.get(target)` followed by the `readyState === OPEN` test. */
  function Lookup(r: Registry, target: Option<int>): Option<ConnId> {
    if target.Some? && target.value in r.connections && r.connections[target.value] in r.open
    then Some(r.connections[target.value])
    else None
  }

  /** Sends `envelope` to the socket registered for `target` when there is one and it is open. */
  function SendTo(r: Registry, target: Option<int>, envelope: Envelope): seq<Delivery> {
    match Lookup(r, target)
    case None => []
    case Some(c) => [Delivery(c, envelope)]
  }

  /** A new socket: a fresh connection number, open, with no bound user id. */
  function Opened(r: Registry): Registry {
    r.(userIdOf := r.userIdOf[r.nextConn := None], open := r.open + {r.nextConn}, nextConn := r.nextConn + 1)
  }

  /** `auth`: the connection always takes the id; the registry takes it only when it is truthy. */
  function Authenticate(r: Registry, c: ConnId, id: Option<int>): Registry {
    r.(userIdOf := r.userIdOf[c := id],
       connections := if Truthy(id) then r.connections[id.value := c] else r.connections)
  }

  /** `close`: the socket is no longer open, and the entry of its bound id, whichever socket it names, is deleted. */
  function Disconnect(r: Registry, c: ConnId): Registry
    requires c in r.userIdOf
  {
    r.(open := r.open - {c},
       connections := if Truthy(r.userIdOf[c]) then r.connections - {r.userIdOf[c].value} else r.connections)
  }

  // ---------------------------------------------------------------- routing

  /** Nothing is delivered twice: each frame yields at most one delivery, to an open socket registered for the target. */
  lemma SendToDeliversOnce(r: Registry, target: Option<int>, envelope: Envelope)
    ensures |SendTo(r, target, envelope)| <= 1
    ensures SendTo(r, target, envelope) != [] <==> target.Some? && target.value in r.connections && r.connections[target.value] in r.open
    ensures SendTo(r, target, envelope) != [] ==>
      SendTo(r, target, envelope) == [Delivery(r.connections[target.value], envelope)]
  {
  }

  // ---------------------------------------------------------------- registry lemmas

  /** Connecting keeps the invariant and gives a connection no other state knows. */
  lemma OpenedWellFormed(r: Registry)
    requires WellFormed(r)
    ensures WellFormed(Opened(r))
    ensures r.nextConn !in r.userIdOf && r.nextConn in Opened(r).open
    ensures Opened(r).connections == r.connections
  {
  }

  lemma AuthenticateWellFormed(r: Registry, c: ConnId, id: Option<int>)
    requires WellFormed(r) && c in r.userIdOf
    ensures WellFormed(Authenticate(r, c, id))
  {
  }

  lemma DisconnectWellFormed(r: Registry, c: ConnId)
    requires WellFormed(r) && c in r.userIdOf
    ensures WellFormed(Disconnect(r, c))
  {
  }

  /**
   * After `auth` with a truthy id on an open socket, frames for that id go to
   * this socket, whatever socket held it before (last write wins), and every
   * other id is routed as before.
   */
  lemma AuthRegisters(r: Registry, c: ConnId, u: int)
    requires c in r.open && u != 0
    ensures Lookup(Authenticate(r, c, Some(u)), Some(u)) == Some(c)
    ensures forall v :: v != u ==> Lookup(Authenticate(r, c, Some(u)), Some(v)) == Lookup(r, Some(v))
  {
  }

  /** Of two `auth` frames for one id from two sockets, the later one wins. */
  lemma LastAuthWins(r: Registry, c1: ConnId, c2: ConnId, u: int)
    requires c2 in r.open && u != 0
    ensures Lookup(Authenticate(Authenticate(r, c1, Some(u)), c2, Some(u)), Some(u)) == Some(c2)
  {
  }

  /** `auth` with a falsy id rebinds the connection but registers nothing. */
  lemma FalsyAuthRegistersNothing(r: Registry, c: ConnId, id: Option<int>)
    requires !Truthy(id)
    ensures Authenticate(r, c, id).connections == r.connections
    ensures forall t :: Lookup(Authenticate(r, c, id), t) == Lookup(r, t)
    ensures Authenticate(r, c, id).userIdOf[c] == id
  {
  }

  /**
   * Closing a socket with a truthy bound id unregisters that id, and no
   * other; the open sockets lose only this one.
   */
  lemma CloseUnregisters(r: Registry, c: ConnId)
    requires c in r.userIdOf && Truthy(r.userIdOf[c])
    ensures r.userIdOf[c].value !in Disconnect(r, c).connections
    ensures Lookup(Disconnect(r, c), r.userIdOf[c]) == None
    ensures forall v :: v != r.userIdOf[c].value && v in r.connections ==>
      v in Disconnect(r, c).connections && Disconnect(r, c).connections[v] == r.connections[v]
    ensures Disconnect(r, c).open == r.open - {c}
  {
  }

  /**
   * The delete on close does not check which socket the entry names: when
   * the same user signs in on a second socket and the first one then closes,
   * the second socket, still open, is no longer reachable.
   */
  lemma CloseEvictsNewerSocket(r: Registry, c1: ConnId, c2: ConnId, u: int)
    requires c1 in r.open && c2 in r.open && c1 != c2 && u != 0
    ensures
      var signedInTwice := Authenticate(Authenticate(r, c1, Some(u)), c2, Some(u));
      && Lookup(signedInTwice, Some(u)) == Some(c2)
      && c2 in Disconnect(signedInTwice, c1).open
      && Lookup(Disconnect(signedInTwice, c1), Some(u)) == None
  {
  }

  // ---------------------------------------------------------------- traces

  /** The events that change the registry; frames other than `auth` leave it as it is. */
  datatype Event = Connect | AuthOn(c: ConnId, id: Option<int>) | CloseOn(c: ConnId)

  /** The state after a trace of events; an event on an unknown connection is skipped. */
  function Run(r: Registry, events: seq<Event>): Registry
    decreases |events|
  {
    if events == [] then r
    else
      var last := events[|events| - 1];
      var before := Run(r, events[..|events| - 1]);
      match last
      case Connect => Opened(before)
      case AuthOn(c, id) => if c in before.userIdOf then Authenticate(before, c, id) else before
      case CloseOn(c) => if c in before.userIdOf then Disconnect(before, c) else before
  }

  /** Every state reachable from a well-formed one, the empty relay for one, is well formed. */
  lemma {:induction false} RunWellFormed(r: Registry, events: seq<Event>)
    requires WellFormed(r)
    ensures WellFormed(Run(r, events))
    decreases |events|
  {
    if events != [] {
      var before := Run(r, events[..|events| - 1]);
      RunWellFormed(r, events[..|events| - 1]);
      match events[|events| - 1]
      case Connect => OpenedWellFormed(before);
      case AuthOn(c, id) => if c in before.userIdOf { AuthenticateWellFormed(before, c, id); }
      case CloseOn(c) => if c in before.userIdOf { DisconnectWellFormed(before, c); }
    }
  }

  /** Whatever the trace, the registry never holds the id 0. */
  lemma NeverRegistersZero(events: seq<Event>)
    ensures 0 !in Run(Registry(map[], map[], {}, 0), events).connections
  {
    RunWellFormed(Registry(map[], map[], {}, 0), events);
  }

  // ---------------------------------------------------------------- the server

  /** The WebSocket server: the registry and per-socket state, and the store `message` frames write to. */
  class RelayServer {
    var connections: map<int, ConnId>
    var userIdOf: map<ConnId, Option<int>>
    var open: set<ConnId>
    var nextConn: ConnId
    const storage: MemStorage

    ghost function Reg(): Registry
      reads this
    {
      Registry(connections, userIdOf, open, nextConn)
    }

    ghost predicate Valid()
      reads this, storage
    {
      WellFormed(Reg()) && storage.Valid()
    }

    constructor (storage: MemStorage)
      requires storage.Valid()
      ensures Valid()
      ensures this.storage == storage && storage.State() == old(storage.State())
      ensures Reg() == Registry(map[], map[], {}, 0)
    {
      connections := map[];
      userIdOf := map[];
      open := {};
      nextConn := 0;
      this.storage := storage;
    }

    /** `wss.on('connection')`: a fresh connection whose bound id is `null`. */
    method Connect() returns (c: ConnId)
      requires Valid()
      modifies this
      ensures Valid()
      ensures c == old(nextConn) && c !in old(userIdOf) && c in open
      ensures Reg() == Opened(old(Reg()))
    {
      OpenedWellFormed(Reg());
      c := nextConn;
      userIdOf := userIdOf[c := None];
      open := open + {c};
      nextConn := nextConn + 1;
    }

    /**
     * `ws.on('message')` on an open socket: `auth` rebinds the connection and
     * may register it, and is the only frame that changes the registry; the
     * three relay frames send to the open socket of their target, stamped
     * with the sender's bound id; `message` from a connection with a truthy
     * bound id first stores the message; a malformed frame or any other type
     * does nothing.
     */
    method Receive(c: ConnId, frame: Frame, now: int) returns (out: seq<Delivery>)
      requires Valid() && c in open
      modifies this, storage
      ensures Valid()
      ensures frame.Auth? ==> Reg() == Authenticate(old(Reg()), c, frame.userId)
      ensures !frame.Auth? ==> Reg() == old(Reg())
      ensures !frame.Chat? || !Truthy(old(userIdOf[c])) ==> storage.State() == old(storage.State())
      ensures frame.Auth? || frame.Malformed? || frame.Other? ==> out == []
      ensures frame.Signal? ==>
        out == SendTo(old(Reg()), frame.targetUserId, SignalFrom(old(userIdOf[c]), frame.signal))
      ensures frame.CallAction? ==>
        out == SendTo(old(Reg()), frame.targetId, ActionFrom(frame.action, frame.callId, old(userIdOf[c])))
      ensures frame.Chat? && !Truthy(old(userIdOf[c])) ==> out == []
      ensures frame.Chat? && Truthy(old(userIdOf[c])) ==>
        var m := DirectMessage(old(storage.currentMessageId), old(userIdOf[c]).value, frame.receiverId, frame.messageText, now);
        && storage.State() == old(storage.State()).(messages := old(storage.messages)[m.id := m],
                                                    nextMessage := old(storage.currentMessageId) + 1)
        && out == SendTo(old(Reg()), Some(frame.receiverId), NewMessage(m))
    {
      var userId := userIdOf[c];
      match frame
      case Malformed =>
        out := [];
      case Other(_) =>
        out := [];
      case Auth(id) =>
        Bind(c, id);
        out := [];
      case Signal(target, signal) =>
        out := Forward(target, SignalFrom(userId, signal));
      case Chat(receiverId, text) =>
        if Truthy(userId) {
          out := StoreAndDeliver(userId.value, receiverId, text, now);
        } else {
          out := [];
        }
      case CallAction(action, callId, target) =>
        out := Forward(target, ActionFrom(action, callId, userId));
    }

    /** The `auth` case: the connection takes the id, and the registry takes it when it is truthy. */
    method Bind(c: ConnId, id: Option<int>)
      requires Valid() && c in userIdOf
      modifies this
      ensures Valid()
      ensures Reg() == Authenticate(old(Reg()), c, id)
    {
      AuthenticateWellFormed(Reg(), c, id);
      userIdOf := userIdOf[c := id];
      if Truthy(id) {
        connections := connections[id.value := c];
      }
    }

    /** The `message` case once the sender is known: the message is stored first, then offered to the receiver. */
    method StoreAndDeliver(senderId: int, receiverId: int, text: string, now: int) returns (out: seq<Delivery>)
      requires Valid()
      modifies storage
      ensures Valid()
      ensures var m := DirectMessage(old(storage.currentMessageId), senderId, receiverId, text, now);
        && storage.State() == old(storage.State()).(messages := old(storage.messages)[m.id := m],
                                                    nextMessage := old(storage.currentMessageId) + 1)
        && out == SendTo(Reg(), Some(receiverId), NewMessage(m))
    {
      var saved := storage.SendMessage(senderId, receiverId, text, now);
      out := Forward(Some(receiverId), NewMessage(saved));
    }

    /** `targetWs.send(...)` guarded by the registry lookup and the `readyState` test. */
    method Forward(target: Option<int>, envelope: Envelope) returns (out: seq<Delivery>)
      ensures out == SendTo(Reg(), target, envelope)
    {
      if target.Some? && target.value in connections {
        var targetWs := connections[target.value];
        if targetWs in open {
          return [Delivery(targetWs, envelope)];
        }
      }
      out := [];
    }

    /** `ws.on('close')`: the socket leaves `open` and its bound id, if truthy, is deleted from the registry. */
    method Close(c: ConnId)
      requires Valid() && c in open
      modifies this
      ensures Valid()
      ensures Reg() == Disconnect(old(Reg()), c)
    {
      DisconnectWellFormed(Reg(), c);
      var userId := userIdOf[c];
      if Truthy(userId) {
        connections := connections - {userId.value};
      }
      open := open - {c};
    }
  }
}
