/** The WebSocket hub: two maps over the same clients, and the ownership of the
    clients' Send channels.  `C` is the identity of a client. */
module Hub {
  const CAPACITY := 256

  datatype Chan = Chan(id: string, buf: seq<string>, open: bool)

  /** `known` holds every client that has reached the hub, with its channel. */
  datatype State<!C> = State(clients: set<C>, byId: map<string, C>, known: map<C, Chan>)

  datatype Event<!C> =
    | Register(c: C, id: string)
    | Unregister(c: C)
    | Broadcast(message: string)
    | Send(to: string, message: string)
    | Receive(c: C)

  function Initial<C>(): State<C> {
    State({}, map[], map[])
  }

  function Full<C(==)>(s: State<C>): set<C> {
    set c | c in s.clients && c in s.known && |s.known[c].buf| >= CAPACITY
  }

  function Close<C(==)>(s: State<C>, c: C): map<C, Chan>
    requires c in s.known
  {
    s.known[c := s.known[c].(open := false)]
  }

  /** What a broadcast does to one channel. */
  function Offer(ch: Chan, message: string): Chan {
    if |ch.buf| < CAPACITY then ch.(buf := ch.buf + [message]) else ch.(open := false)
  }

  function Delivered<C(==)>(s: State<C>, message: string): map<C, Chan> {
    map c | c in s.known :: if c in s.clients then Offer(s.known[c], message) else s.known[c]
  }

  /** A send on a closed channel panics, also inside a select with a default. */
  predicate Panics<C(==)>(s: State<C>, e: Event<C>) {
    match e
    case Send(id, _) => id in s.byId && s.byId[id] in s.known && !s.known[s.byId[id]].open
    case Broadcast(_) => exists c :: c in s.clients && c in s.known && !s.known[c].open
    case _ => false
  }

  /** The channels a step closes. */
  function Closes<C(==)>(s: State<C>, e: Event<C>): set<C> {
    match e
    case Register(c, id) => if c !in s.known && id in s.byId then {c} else {}
    case Unregister(c) => if c in s.clients then {c} else {}
    case Broadcast(_) => Full(s)
    case Send(id, _) =>
      if id in s.byId && s.byId[id] in s.known && s.known[s.byId[id]].open && |s.known[s.byId[id]].buf| >= CAPACITY
      then {s.byId[id]} else {}
    case Receive(_) => {}
  }

  /** Each client registers once.  A step that panics leaves the state as it is. */
  function Step<C(==)>(s: State<C>, e: Event<C>): State<C> {
    if Panics(s, e) then s
    else match e
      case Register(c, id) =>
        if c in s.known then s
        else if id in s.byId then s.(known := s.known[c := Chan(id, [], false)])
        else State(s.clients + {c}, s.byId[id := c], s.known[c := Chan(id, [], true)])
      case Unregister(c) =>
        if c in s.clients && c in s.known then
          var id := s.known[c].id;
          State(s.clients - {c}, if id in s.byId && s.byId[id] == c then s.byId - {id} else s.byId, Close(s, c))
        else s
      case Broadcast(m) => s.(clients := s.clients - Full(s), known := Delivered(s, m))
      case Send(id, m) =>
        if id in s.byId && s.byId[id] in s.known then
          var c := s.byId[id];
          var ch := s.known[c];
          if |ch.buf| < CAPACITY then s.(known := s.known[c := ch.(buf := ch.buf + [m])])
          else State(s.clients - {c}, s.byId - {id}, Close(s, c))
        else s
      case Receive(c) =>
        if c in s.known && s.known[c].buf != [] then s.(known := s.known[c := s.known[c].(buf := s.known[c].buf[1..])])
        else s
  }

  function Run<C(==)>(evs: seq<Event<C>>): State<C> {
    if evs == [] then Initial() else Step(Run(evs[..|evs| - 1]), evs[|evs| - 1])
  }

  /** The clients a broadcast has thrown out for a full channel. */
  function Evicted<C(==)>(evs: seq<Event<C>>): set<C> {
    if evs == [] then {}
    else
      var before := evs[..|evs| - 1];
      Evicted(before) + if evs[|evs| - 1].Broadcast? then Full(Run(before)) else {}
  }

  ghost predicate Inv<C>(s: State<C>) {
    && (forall c :: c in s.clients ==> c in s.known)
    && (forall c :: c in s.known ==> (s.known[c].open <==> c in s.clients))
    && (forall c :: c in s.clients ==> s.known[c].id in s.byId && s.byId[s.known[c].id] == c)
    && (forall id :: id in s.byId ==> s.byId[id] in s.known && s.known[s.byId[id]].id == id)
  }

  lemma StepKeepsInv<C>(s: State<C>, e: Event<C>)
    requires Inv(s)
    ensures Inv(Step(s, e))
  {
  }

  /** In every reachable state a channel is open exactly while its client is in
      `clients`, each member of `clients` is what `clientsByID` holds under its
      ID, and `clientsByID` holds, besides the members, exactly the clients that
      broadcasts have thrown out. */
  lemma {:induction false} Reachable<C>(evs: seq<Event<C>>)
    ensures Inv(Run(evs))
    ensures Run(evs).byId.Values == Run(evs).clients + Evicted(evs)
    ensures Evicted(evs) !! Run(evs).clients
    ensures forall c :: c in Evicted(evs) ==> c in Run(evs).known
  {
    if evs != [] {
      var s, s', e := Run(evs[..|evs| - 1]), Run(evs), evs[|evs| - 1];
      Reachable(evs[..|evs| - 1]);
      StepKeepsInv(s, e);
      ValuesStep(s, e, Evicted(evs[..|evs| - 1]));
    }
  }

  lemma ValuesStep<C>(s: State<C>, e: Event<C>, evicted: set<C>)
    requires Inv(s) && s.byId.Values == s.clients + evicted && evicted !! s.clients
    ensures Step(s, e).byId.Values == Step(s, e).clients + evicted + if e.Broadcast? then Full(s) else {}
  {
    var s' := Step(s, e);
    match e
    case Register(c, id) =>
      if s' != s && id !in s.byId {
        ValuesAdd(s.byId, id, c);
      }
    case Unregister(c) =>
      if s' != s {
        ValuesRemove(s, s.known[c].id);
      }
    case Broadcast(_) =>
    case Send(id, _) =>
      if id in s.byId && s'.byId != s.byId {
        ValuesRemove(s, id);
      }
    case Receive(_) =>
  }

  lemma ValuesAdd<C>(m: map<string, C>, id: string, c: C)
    requires id !in m
    ensures m[id := c].Values == m.Values + {c}
  {
    var m' := m[id := c];
    assert m'[id] == c;
    forall x | x in m.Values ensures x in m'.Values {
      var i :| i in m && m[i] == x;
      assert m'[i] == x;
    }
  }

  lemma ValuesRemove<C>(s: State<C>, id: string)
    requires Inv(s) && id in s.byId
    ensures (s.byId - {id}).Values == s.byId.Values - {s.byId[id]}
  {
    var m := s.byId - {id};
    forall c | c in s.byId.Values - {s.byId[id]} ensures c in m.Values {
      var i :| i in s.byId && s.byId[i] == c;
      assert i in m && m[i] == c;
    }
  }

  /** The two maps describe the same clients if and only if no broadcast has ever
      thrown a client out. */
  lemma MapsAgreeIffNoEviction<C>(evs: seq<Event<C>>)
    ensures Run(evs).byId.Values == Run(evs).clients <==> Evicted(evs) == {}
  {
    Reachable(evs);
  }

  /** In every run a step closes exactly the channels that are closed after it and
      were not before: each channel at most once. */
  lemma NoDoubleClose<C>(evs: seq<Event<C>>, e: Event<C>, c: C)
    ensures c in Closes(Run(evs), e)
            <==> && c in Step(Run(evs), e).known && !Step(Run(evs), e).known[c].open
                 && (c in Run(evs).known ==> Run(evs).known[c].open)
    ensures c in Closes(Run(evs), e) ==> !Panics(Run(evs), e)
  {
    Reachable(evs);
  }

  /** SendToClient panics if and only if the ID belongs to a client that a
      broadcast has thrown out; no other step ever panics. */
  lemma PanicsExactly<C>(evs: seq<Event<C>>, e: Event<C>)
    ensures Panics(Run(evs), e)
            <==> e.Send? && e.to in Run(evs).byId && Run(evs).byId[e.to] in Evicted(evs)
  {
    Reachable(evs);
    var s := Run(evs);
    if e.Send? && e.to in s.byId {
      assert s.byId[e.to] in s.byId.Values;
    }
  }

  /** Only a member of `clients` ever loses its entry in `clientsByID`. */
  lemma DeadEntryStays<C>(s: State<C>, e: Event<C>, id: string)
    requires Inv(s) && id in s.byId && s.byId[id] !in s.clients
    ensures id in Step(s, e).byId && Step(s, e).byId[id] == s.byId[id]
  {
  }

  lemma {:induction false} EvictedKeepsId<C>(evs: seq<Event<C>>, more: seq<Event<C>>, id: string)
    requires id in Run(evs).byId && Run(evs).byId[id] in Evicted(evs)
    ensures id in Run(evs + more).byId && Run(evs + more).byId[id] == Run(evs).byId[id]
    ensures Evicted(evs) <= Evicted(evs + more)
  {
    var all := evs + more;
    if more == [] {
      assert all == evs;
    } else {
      var before := more[..|more| - 1];
      EvictedKeepsId(evs, before, id);
      assert all[..|all| - 1] == evs + before;
      Reachable(evs + before);
      DeadEntryStays(Run(evs + before), all[|all| - 1], id);
    }
  }

  /** Such an ID is lost for good: whatever follows, it keeps pointing to the
      dead client, so every send to it panics and every newcomer with that ID is
      rejected. */
  lemma EvictedIdIsPoisoned<C>(evs: seq<Event<C>>, more: seq<Event<C>>, id: string)
    requires id in Run(evs).byId && Run(evs).byId[id] in Evicted(evs)
    ensures forall m :: Panics(Run(evs + more), Send(id, m))
    ensures forall c :: c !in Run(evs + more).known ==> c in Closes(Run(evs + more), Register(c, id))
  {
    EvictedKeepsId(evs, more, id);
    forall m ensures Panics(Run(evs + more), Send(id, m)) {
      PanicsExactly(evs + more, Send(id, m));
    }
  }

  // Channels of 256 messages

  lemma {:induction false} NeverOverfull<C>(evs: seq<Event<C>>, c: C)
    requires c in Run(evs).known
    ensures |Run(evs).known[c].buf| <= 256
  {
    if evs != [] {
      var before := evs[..|evs| - 1];
      if c in Run(before).known {
        NeverOverfull(before, c);
      }
    }
  }

  /** A broadcast throws out exactly the members with 256 messages waiting, and
      gives every other member the message; a send to an ID does the same to the
      member that has the ID. */
  lemma FullMembersGo<C>(evs: seq<Event<C>>, c: C, m: string)
    requires c in Run(evs).clients
    ensures c in Run(evs).known
    ensures var s := Run(evs);
            var ch := s.known[c];
            var all, one := Step(s, Broadcast(m)), Step(s, Send(ch.id, m));
            && c in all.known && c in one.known && all.byId == s.byId
            && (if |ch.buf| == 256 then c !in all.clients && all.known[c] == ch.(open := false)
                else c in all.clients && all.known[c] == ch.(buf := ch.buf + [m]))
            && (if |ch.buf| == 256
                then c !in one.clients && ch.id !in one.byId && one.known[c] == ch.(open := false)
                else one.clients == s.clients && one.byId == s.byId && one.known[c] == ch.(buf := ch.buf + [m]))
            && forall d :: d in s.known && d != c ==> d in one.known && one.known[d] == s.known[d]
  {
    Reachable(evs);
    NeverOverfull(evs, c);
  }

  /** Nothing is put into the channel of a client that is no member, nothing but
      its writer takes anything out of it, and the client never comes back. */
  lemma OutsidersAreLeftAlone<C>(evs: seq<Event<C>>, e: Event<C>, c: C)
    requires c in Run(evs).known && c !in Run(evs).clients
    ensures var s, s' := Run(evs), Run(evs + [e]);
            && c in s'.known && c !in s'.clients
            && s'.known[c] == (if e == Receive(c) && s.known[c].buf != []
                               then s.known[c].(buf := s.known[c].buf[1..]) else s.known[c])
  {
    assert (evs + [e])[..|evs|] == evs;
    Reachable(evs);
  }

  // Delivery

  /** The messages meant for client `c` while it was a member, by broadcast or by
      its ID. */
  function Addressed<C(==)>(evs: seq<Event<C>>, c: C): seq<string> {
    if evs == [] then []
    else
      var before, e := evs[..|evs| - 1], evs[|evs| - 1];
      var s := Run(before);
      Addressed(before, c)
      + match e
        case Broadcast(m) => if c in s.clients then [m] else []
        case Send(id, m) => if c in s.clients && c in s.known && s.known[c].id == id then [m] else []
        case _ => []
  }

  /** The messages the writer of `c` has taken out of its channel. */
  function Taken<C(==)>(evs: seq<Event<C>>, c: C): seq<string> {
    if evs == [] then []
    else
      var before, e := evs[..|evs| - 1], evs[|evs| - 1];
      var s := Run(before);
      Taken(before, c) + if e == Receive(c) && c in s.known && s.known[c].buf != [] then [s.known[c].buf[0]] else []
  }

  /** What a step leaves in the channel of a client that stays a member. */
  function BufferAfter<C(==)>(ch: Chan, c: C, e: Event<C>): seq<string> {
    match e
    case Broadcast(m) => ch.buf + [m]
    case Send(id, m) => if id == ch.id then ch.buf + [m] else ch.buf
    case Receive(d) => if c == d && ch.buf != [] then ch.buf[1..] else ch.buf
    case _ => ch.buf
  }

  lemma {:induction false} NothingYet<C>(evs: seq<Event<C>>, c: C)
    requires c !in Run(evs).known
    ensures Addressed(evs, c) == [] && Taken(evs, c) == []
  {
    if evs != [] {
      Reachable(evs[..|evs| - 1]);
      NothingYet(evs[..|evs| - 1], c);
    }
  }

  lemma ReceiveOrAppend<C>(got: seq<string>, ch: Chan, sent: seq<string>, c: C, e: Event<C>)
    requires got + ch.buf == sent
    ensures got + (if e == Receive(c) && ch.buf != [] then [ch.buf[0]] else []) + BufferAfter(ch, c, e)
            == sent + (if e.Broadcast? then [e.message] else if e.Send? && e.to == ch.id then [e.message] else [])
  {
    if e == Receive(c) && ch.buf != [] {
      assert got + [ch.buf[0]] + ch.buf[1..] == got + ch.buf;
    } else {
      assert forall m: string :: got + (ch.buf + [m]) == (got + ch.buf) + [m];
    }
  }

  /** A client that is still a member has missed nothing: what it has taken and
      what is waiting in its channel is exactly, in order, what was meant for it. */
  lemma {:induction false} MembersMissNothing<C>(evs: seq<Event<C>>, c: C)
    requires c in Run(evs).clients
    ensures c in Run(evs).known
    ensures Taken(evs, c) + Run(evs).known[c].buf == Addressed(evs, c)
  {
    var before, e := evs[..|evs| - 1], evs[|evs| - 1];
    var s := Run(before);
    assert evs == before + [e];
    Reachable(before);
    if c in s.known {
      MembersMissNothing(before, c);
      ReceiveOrAppend(Taken(before, c), s.known[c], Addressed(before, c), c, e);
    } else {
      NothingYet(before, c);
      assert e.Register? && e.c == c;
    }
  }

  // The panic is reachable

  function Flood<C>(c: C, id: string, n: nat): seq<Event<C>> {
    [Register(c, id)] + seq(n, _ => Broadcast(""))
  }

  lemma BroadcastToOne<C>(s: State<C>, c: C)
    requires s.clients == {c} == s.known.Keys && s.known[c].open && |s.known[c].buf| < CAPACITY
    ensures Full(s) == {}
    ensures Step(s, Broadcast("")) == s.(known := map[c := Offer(s.known[c], "")])
  {
  }

  lemma {:induction false} FloodFills<C>(c: C, id: string, n: nat)
    requires n <= 256
    ensures var s := Run(Flood(c, id, n));
            && s.clients == {c} && s.byId == map[id := c] && s.known.Keys == {c}
            && s.known[c].open && s.known[c].id == id && |s.known[c].buf| == n
            && Evicted(Flood(c, id, n)) == {}
  {
    var evs := Flood(c, id, n);
    if n == 0 {
      assert evs == [Register(c, id)] && evs[..0] == [];
    } else {
      FloodFills(c, id, n - 1);
      assert evs[..|evs| - 1] == Flood(c, id, n - 1) && evs[|evs| - 1] == Broadcast("");
      BroadcastToOne(Run(Flood(c, id, n - 1)), c);
    }
  }

  /** A client that reads nothing during 257 broadcasts is thrown out, and the
      next SendToClient to it panics: the guarantee stated at SendToClient, that
      it never sends on a closed channel, does not hold. */
  lemma SendToEvictedPanics<C>(c: C, id: string, m: string)
    ensures Panics(Run(Flood(c, id, 257)), Send(id, m))
  {
    FloodFills(c, id, CAPACITY);
    var evs := Flood(c, id, CAPACITY + 1);
    assert evs[..|evs| - 1] == Flood(c, id, CAPACITY);
    assert c in Full(Run(Flood(c, id, CAPACITY)));
    PanicsExactly(evs, Send(id, m));
  }

  /** A client object; `send` is the content of its channel. */
  class Client {
    const ID: string
    var send: seq<string>
    var open: bool

    constructor (id: string)
      ensures ID == id && send == [] && open
    {
      ID, send, open := id, [], true;
    }
  }

  class HubObject {
    var clients: set<Client>
    var clientsByID: map<string, Client>
    ghost var known: set<Client>
    ghost var history: seq<Event<Client>>

    ghost function View(): State<Client>
      reads this, known
    {
      State(clients, clientsByID, map c | c in known :: Chan(c.ID, c.send, c.open))
    }

    ghost predicate Valid()
      reads this, known
    {
      View() == Run(history)
    }

    constructor ()
      ensures Valid() && history == [] && known == {}
    {
      clients, clientsByID, known, history := {}, map[], {}, [];
    }

    ghost method Record(e: Event<Client>, before: State<Client>)
      requires before == Run(history) && View() == Step(before, e)
      modifies this`history
      ensures Valid() && history == old(history) + [e] && View() == old(View())
    {
      history := history + [e];
      assert history[..|history| - 1] == old(history);
    }

    lemma NewcomerIsNoMember(s: State<Client>, client: Client)
      requires s == Run(history) && client !in s.known
      ensures client !in s.clients && client !in s.byId.Values
    {
      Reachable(history);
    }

    /** The register case of Run. */
    method RegisterClient(client: Client)
      requires Valid() && client !in known && client.open && client.send == []
      modifies this, client
      ensures Valid() && history == old(history) + [Event.Register(client, client.ID)]
      ensures known == old(known) + {client}
      ensures client.open <==> client in clients
      ensures client.ID in clientsByID && (client in clients <==> clientsByID[client.ID] == client)
    {
      ghost var before := View();
      NewcomerIsNoMember(before, client);
      known := known + {client};
      if client.ID in clientsByID {
        client.open := false;
      } else {
        clients := clients + {client};
        clientsByID := clientsByID[client.ID := client];
      }
      assert View().known == before.known[client := Chan(client.ID, [], client.open)];
      Record(Event.Register(client, client.ID), before);
    }

    /** The unregister case; an unregister that finds no member, the second of two
        or one picked before the client's register, does nothing. */
    method UnregisterClient(client: Client)
      requires Valid()
      modifies this, client
      ensures Valid() && history == old(history) + [Event.Unregister(client)] && known == old(known)
      ensures clients == old(clients) - {client}
      ensures client.open <==> old(client.open) && client !in old(clients)
      ensures clientsByID == if client in old(clients) then old(clientsByID) - {client.ID} else old(clientsByID)
    {
      Reachable(history);
      ghost var before := View();
      if client in clients {
        clients := clients - {client};
        if client.ID in clientsByID && clientsByID[client.ID] == client {
          clientsByID := clientsByID - {client.ID};
        }
        client.open := false;
      }
      Record(Event.Unregister(client), before);
    }

    /** The loop over `clients`: full channels are closed and dropped. */
    method OfferAll(message: string)
      requires clients <= known
      modifies this`clients, known
      ensures forall c :: c in old(clients) ==>
                Chan(c.ID, c.send, c.open) == Offer(old(Chan(c.ID, c.send, c.open)), message)
      ensures forall c :: c in known && c !in old(clients) ==> c.send == old(c.send) && c.open == old(c.open)
      ensures clients == set c | c in old(clients) && |old(c.send)| < CAPACITY
    {
      ghost var all := clients;
      var todo := clients;
      while todo != {}
        invariant todo <= all
        invariant clients == set c | c in all && (c in todo || |old(c.send)| < CAPACITY)
        invariant forall c :: c in known && (c in todo || c !in all) ==> c.send == old(c.send) && c.open == old(c.open)
        invariant forall c :: c in all && c !in todo ==>
                    Chan(c.ID, c.send, c.open) == Offer(old(Chan(c.ID, c.send, c.open)), message)
        decreases todo
      {
        var client :| client in todo;
        if |client.send| < CAPACITY {
          client.send := client.send + [message];
        } else {
          client.open := false;
          clients := clients - {client};
        }
        todo := todo - {client};
      }
    }

    /** The broadcast case of Run. */
    method BroadcastMessage(message: string)
      requires Valid()
      modifies this, known
      ensures Valid() && history == old(history) + [Event.Broadcast(message)] && known == old(known)
      ensures clientsByID == old(clientsByID) && clients <= old(clients)
    {
      Reachable(history);
      ghost var before := View();
      PanicsExactly(history, Event.Broadcast(message));
      assert forall c :: c in before.clients ==> c in before.known;
      OfferAll(message);
      assert View().known == Delivered(before, message);
      assert clients == before.clients - Full(before);
      Record(Event.Broadcast(message), before);
    }

    /** The writer of `client` takes the next message; false when none is waiting. */
    method TakeMessage(client: Client) returns (ok: bool, message: string)
      requires Valid() && client in known
      modifies this, client
      ensures Valid() && history == old(history) + [Event.Receive(client)] && known == old(known)
      ensures ok <==> old(client.send) != []
      ensures old(client.send) == if ok then [message] + client.send else client.send
    {
      ghost var before := View();
      ok, message := client.send != [], "";
      if ok {
        message := client.send[0];
        client.send := client.send[1..];
        assert View().known == before.known[client := Chan(client.ID, client.send, client.open)];
      } else {
        assert View() == before;
      }
      Record(Event.Receive(client), before);
    }

    lemma FoundIsKnown(clientID: string)
      requires Valid() && clientID in clientsByID
      ensures clientsByID[clientID] in known && View().known[clientsByID[clientID]].open == clientsByID[clientID].open
    {
      Reachable(history);
      assert clientsByID[clientID] in View().known;
    }

    /** `panicked`: the send hit a closed channel; the deferred unlock runs and
        nothing else changes. */
    method SendToClient(clientID: string, message: string) returns (panicked: bool)
      requires Valid()
      modifies this, known
      ensures Valid() && history == old(history) + [Event.Send(clientID, message)] && known == old(known)
      ensures panicked <==> clientID in old(clientsByID) && old(clientsByID[clientID]) in Evicted(old(history))
      ensures panicked ==> View() == old(View())
    {
      ghost var before := View();
      PanicsExactly(history, Event.Send(clientID, message));
      panicked := false;
      if clientID in clientsByID {
        var client := clientsByID[clientID];
        FoundIsKnown(clientID);
        if !client.open {
          panicked := true;
        } else if |client.send| < CAPACITY {
          client.send := client.send + [message];
          assert View().known == before.known[client := Chan(client.ID, client.send, client.open)];
        } else {
          clients := clients - {client};
          if clientID in clientsByID && clientsByID[clientID] == client {
            clientsByID := clientsByID - {clientID};
          }
          client.open := false;
          assert View().known == Close(before, client);
        }
      }
      Record(Event.Send(clientID, message), before);
    }
  }
}
