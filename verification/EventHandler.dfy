/** Which events a socket is selected for: SocketHandler::addEvent and EventEpoll::addEventHandler. */
module EventHandlers {
  import opened SockBuffers

  const EVENT_NONE: bv8 := 0
  const EVENT_READ: bv8 := 1
  const EVENT_WRITE: bv8 := 2
  const EVENT_RW: bv8 := 3
  const EVENT_ALL: bv8 := 0xFF  // -1; only the bits of selevent, eight of them, ever matter

  /** What the kernel was last told to report for a descriptor. */
  datatype Interest = Interest(input: bool, output: bool)

  class EventEpoll {
    var sockets: map<Socket, Interest>

    constructor ()
      ensures sockets == map[]
    {
      sockets := map[];
    }

    /** A new socket is always registered for input; a known one for what its selected events will be. */
    method AddEventHandler(remove: bv8, add: bv8, s: Socket)
      modifies this
      ensures sockets == old(sockets)[s := Registered(s in old(sockets), s.selevent, remove, add)]
    {
      if s !in sockets {
        sockets := sockets[s := Interest(true, Selects(add, EVENT_WRITE))];
      } else {
        var state := Updated(s.selevent, remove, add);
        sockets := sockets[s := Interest(Selects(state, EVENT_READ), Selects(state, EVENT_WRITE))];
      }
    }
  }

  function Updated(selevent: bv8, remove: bv8, add: bv8): bv8 {
    (selevent & !remove) | add
  }

  predicate Selects(selevent: bv8, event: bv8) {
    selevent & event != 0
  }

  /** What the kernel is told. */
  function Registered(known: bool, selevent: bv8, remove: bv8, add: bv8): Interest {
    var state := Updated(selevent, remove, add);
    if known then Interest(Selects(state, EVENT_READ), Selects(state, EVENT_WRITE))
    else Interest(true, Selects(add, EVENT_WRITE))
  }

  /** The kernel's registration agrees with what the socket believes it is selected for. */
  ghost predicate InterestAgrees(s: Socket, epoll: EventEpoll)
    reads s, epoll
  {
    if s in epoll.sockets then
      && (epoll.sockets[s].output <==> Selects(s.selevent, EVENT_WRITE))
      && (Selects(s.selevent, EVENT_READ) ==> epoll.sockets[s].input)
    else
      s.selevent == EVENT_NONE
  }

  lemma UnknownAgrees(s: Socket, epoll: EventEpoll)
    requires s !in epoll.sockets && s.selevent == EVENT_NONE
    ensures InterestAgrees(s, epoll)
  {
  }

  /** What is really added: nothing on a side that was shut down. */
  function Allowed(add: bv8, shutdownSend: bool, shutdownRecv: bool): bv8 {
    var a := if shutdownSend then add & !EVENT_WRITE else add;
    if shutdownRecv then a & !EVENT_READ else a
  }

  /** The masks addEvent hands on: what is really removed and really added.  They are disjoint, so their sum is zero
      only when nothing changes, and applying them gives "removed, then added". */
  method EffectiveMasks(selevent: bv8, shutdownSend: bool, shutdownRecv: bool, remove: bv8, add: bv8)
    returns (r: bv8, a: bv8, changed: bool)
    ensures Updated(selevent, r, a) == Updated(selevent, remove, Allowed(add, shutdownSend, shutdownRecv))
    ensures changed <==> Updated(selevent, r, a) != selevent
    ensures selevent == EVENT_NONE ==> Updated(selevent, r, a) == a
  {
    hide Allowed, Updated;
    a := Allowed(add, shutdownSend, shutdownRecv);
    MaskArithmetic(selevent, remove, a);
    r, a := remove & !a & selevent, a & !selevent;
    changed := r + a != EVENT_NONE;
  }

  /** The branch of addEvent that changes something: tells the kernel, then the socket. */
  method Register(s: Socket, epoll: EventEpoll, remove: bv8, add: bv8)
    requires InterestAgrees(s, epoll)
    requires s.selevent == EVENT_NONE ==> Updated(s.selevent, remove, add) == add
    modifies s`selevent, s`selected, epoll
    ensures InterestAgrees(s, epoll)
    ensures s.selevent == Updated(old(s.selevent), remove, add) && s.selected
    ensures forall o :: o in old(epoll.sockets) ==>
              o in epoll.sockets && (o != s ==> epoll.sockets[o] == old(epoll.sockets)[o])
  {
    hide Updated, Selects, Registered;
    RegisteredAgrees(s in epoll.sockets, s.selevent, remove, add);
    epoll.AddEventHandler(remove, add, s);
    s.selevent := Updated(s.selevent, remove, add);
    s.selected := true;
  }

  /** addEvent: afterwards an event is selected if it was added, or was selected and not removed; adding wins over
      removing, nothing is added on a side that was shut down, and the kernel is told. */
  method AddEvent(s: Socket, epoll: EventEpoll, remove: bv8, add: bv8)
    requires InterestAgrees(s, epoll)
    modifies s`selevent, s`selected, epoll
    ensures InterestAgrees(s, epoll)
    ensures s.selevent == Updated(old(s.selevent), remove, Allowed(add, s.shutdownSend, s.shutdownRecv))
    ensures s.selected <==> old(s.selected) || s.selevent != old(s.selevent)
    ensures SelectedAfter(old(s.selevent), remove, add, s.shutdownSend, s.shutdownRecv, s.selevent)
    ensures forall o :: o in old(epoll.sockets) ==>
              o in epoll.sockets && (o != s ==> epoll.sockets[o] == old(epoll.sockets)[o])
  {
    hide Updated, Selects, Allowed, InterestAgrees;
    UpdatedSelects(s.selevent, remove, add, s.shutdownSend, s.shutdownRecv);
    var r, a, changed := EffectiveMasks(s.selevent, s.shutdownSend, s.shutdownRecv, remove, add);
    if changed {
      Register(s, epoll, r, a);
    }
  }

  /** An event is selected afterwards exactly when it was added on an open side, or was selected and not removed. */
  ghost predicate SelectedAfter(
    selevent: bv8, remove: bv8, add: bv8, shutdownSend: bool, shutdownRecv: bool, now: bv8) {
    && (Selects(now, EVENT_WRITE) <==>
        (!shutdownSend && Selects(add, EVENT_WRITE)) || (Selects(selevent, EVENT_WRITE) && !Selects(remove, EVENT_WRITE)))
    && (Selects(now, EVENT_READ) <==>
        (!shutdownRecv && Selects(add, EVENT_READ)) || (Selects(selevent, EVENT_READ) && !Selects(remove, EVENT_READ)))
  }

  lemma UpdatedSelects(selevent: bv8, remove: bv8, add: bv8, shutdownSend: bool, shutdownRecv: bool)
    ensures SelectedAfter(selevent, remove, add, shutdownSend, shutdownRecv,
                          Updated(selevent, remove, Allowed(add, shutdownSend, shutdownRecv)))
  {
  }

  lemma EventBits()
    ensures Selects(EVENT_WRITE, EVENT_WRITE) && Selects(EVENT_RW, EVENT_WRITE)
    ensures Selects(EVENT_READ, EVENT_READ) && Selects(EVENT_RW, EVENT_READ)
    ensures !Selects(EVENT_NONE, EVENT_WRITE) && !Selects(EVENT_NONE, EVENT_READ)
    ensures !Selects(EVENT_WRITE, EVENT_READ) && !Selects(EVENT_READ, EVENT_WRITE)
    ensures Selects(EVENT_ALL, EVENT_WRITE) && Selects(EVENT_ALL, EVENT_READ)
  {
  }

  /** What the kernel is told is what the socket will be selected for; an unknown socket was selected for nothing. */
  lemma RegisteredAgrees(known: bool, selevent: bv8, remove: bv8, add: bv8)
    ensures known || (selevent == EVENT_NONE && Updated(selevent, remove, add) == add) ==>
              var told, now := Registered(known, selevent, remove, add), Updated(selevent, remove, add);
              && (told.output <==> Selects(now, EVENT_WRITE))
              && (Selects(now, EVENT_READ) ==> told.input)
  {
  }

  lemma MaskArithmetic(selevent: bv8, remove: bv8, add: bv8)
    ensures var r, a := remove & !add & selevent, add & !selevent;
            && Updated(selevent, r, a) == Updated(selevent, remove, add)
            && (r + a == 0 <==> selevent == Updated(selevent, remove, add))
            && (selevent == 0 ==> Updated(selevent, r, a) == a)
  {
  }
}
