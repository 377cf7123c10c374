/** The event broadcaster: two indexes over the same subscribed clients, bounded
    channels, and an eviction that is decided under one lock and done under
    another.  A client object is identified by its ID. */
module Broadcast {
  const CAPACITY := 100
  const MAX_DROPS := 100
  const TTL := 86400

  datatype Client = Client(stream: string, queue: seq<string>, open: bool, dropped: nat, lastSeen: int)

  /** `table` holds every client ever created; `clients` are the IDs registered
      now; `pending` the eviction lists that are decided but not carried out. */
  datatype State = State(
    streams: map<string, seq<nat>>, clients: set<nat>, table: map<nat, Client>,
    nextId: nat, pending: seq<set<nat>>, clock: int)

  /** `Part(ids)`: broadcasts share the read lock and may overlap; then each
      serves some of its clients before another one gets its turn. */
  datatype Target = One(stream: string) | All | Part(ids: set<nat>)

  datatype Event =
    | Tick(dt: nat)
    | Subscribe(stream: string)
    | Unsubscribe(id: nat)
    | Expire
    | Send(to: Target, message: string)
    | Evict(list: nat)
    | Receive(id: nat)

  const INITIAL := State(map[], {}, map[], 1, [], 0)

  // One client

  function Members(ids: seq<nat>): set<nat> {
    set id | id in ids
  }

  predicate Distinct(ids: seq<nat>) {
    forall i, j :: 0 <= i < j < |ids| ==> ids[i] != ids[j]
  }

  /** Splices the first occurrence out. */
  function Splice(ids: seq<nat>, id: nat): seq<nat> {
    if ids == [] then []
    else if ids[0] == id then ids[1..]
    else [ids[0]] + Splice(ids[1..], id)
  }

  /** unsubscribeNoLock */
  function Remove(s: State, id: nat): State {
    if id !in s.clients || id !in s.table then s
    else
      var st := s.table[id].stream;
      s.(streams := if st in s.streams then s.streams[st := Splice(s.streams[st], id)] else s.streams,
         clients := s.clients - {id},
         table := s.table[id := s.table[id].(open := false)])
  }

  /** The removal of several clients at once, in any order. */
  function RemoveAll(s: State, ids: set<nat>): State {
    var gone := ids * s.clients;
    s.(streams := map st | st in s.streams :: Without(s.streams[st], gone),
       clients := s.clients - gone,
       table := map id | id in s.table :: if id in gone then s.table[id].(open := false) else s.table[id])
  }

  function Without(ids: seq<nat>, gone: set<nat>): seq<nat> {
    if ids == [] then []
    else (if ids[0] in gone then [] else [ids[0]]) + Without(ids[1..], gone)
  }

  /** The non-blocking send to one client. */
  function Offer(c: Client, message: string, now: int): Client {
    if |c.queue| < CAPACITY then c.(queue := c.queue + [message], lastSeen := now)
    else c.(dropped := c.dropped + 1)
  }

  function Targets(s: State, to: Target): set<nat> {
    match to
    case One(st) => if st in s.streams then Members(s.streams[st]) else {}
    case All => set st, id | st in s.streams && id in s.streams[st] :: id
    case Part(ids) => ids * s.clients
  }

  function Offered(s: State, ids: set<nat>, message: string): map<nat, Client> {
    map id | id in s.table :: if id in ids then Offer(s.table[id], message, s.clock) else s.table[id]
  }

  /** The clients a broadcast decides to evict. */
  function Overflowing(s: State, ids: set<nat>): set<nat> {
    set id | id in ids && id in s.table && |s.table[id].queue| >= CAPACITY && s.table[id].dropped >= MAX_DROPS
  }

  function Stale(s: State): set<nat> {
    set id | id in s.clients && id in s.table && s.clock - s.table[id].lastSeen > TTL
  }

  function Step(s: State, e: Event): State {
    match e
    case Tick(dt) => s.(clock := s.clock + dt)
    case Subscribe(st) =>
      s.(streams := s.streams[st := (if st in s.streams then s.streams[st] else []) + [s.nextId]],
         clients := s.clients + {s.nextId},
         table := s.table[s.nextId := Client(st, [], true, 0, s.clock)],
         nextId := s.nextId + 1)
    case Unsubscribe(id) => Remove(s, id)
    case Expire => RemoveAll(s, Stale(s))
    case Send(to, m) =>
      var ids := Targets(s, to);
      var list := Overflowing(s, ids);
      s.(table := Offered(s, ids, m), pending := if list == {} then s.pending else s.pending + [list])
    case Evict(i) =>
      if i >= |s.pending| then s
      else RemoveAll(s, s.pending[i]).(pending := s.pending[..i] + s.pending[i + 1..])
    case Receive(id) =>
      if id in s.table && s.table[id].queue != [] then
        s.(table := s.table[id := s.table[id].(queue := s.table[id].queue[1..])])
      else s
  }

  function Run(evs: seq<Event>): State {
    if evs == [] then INITIAL else Step(Run(evs[..|evs| - 1]), evs[|evs| - 1])
  }

  /** Both indexes describe the same clients. */
  ghost predicate IndexesAgree(s: State) {
    && s.clients <= s.table.Keys
    && (forall st :: st in s.streams ==> Distinct(s.streams[st]))
    && (forall st, id :: st in s.streams && id in s.streams[st] ==> id in s.clients && s.table[id].stream == st)
    && (forall id :: id in s.clients ==> s.table[id].stream in s.streams && id in s.streams[s.table[id].stream])
  }

  ghost predicate ChannelsOk(s: State) {
    forall id :: id in s.table ==>
                   && id < s.nextId
                   && (s.table[id].open <==> id in s.clients)
                   && |s.table[id].queue| <= CAPACITY
  }

  /** Whoever is on an eviction list has lost more than 100 events. */
  ghost predicate ListsOk(s: State) {
    forall i, id :: 0 <= i < |s.pending| && id in s.pending[i] ==> id in s.table && s.table[id].dropped > MAX_DROPS
  }

  ghost predicate Inv(s: State) {
    IndexesAgree(s) && ChannelsOk(s) && ListsOk(s)
  }

  lemma {:induction false} WithoutDistinct(ids: seq<nat>, gone: set<nat>)
    requires Distinct(ids)
    ensures Distinct(Without(ids, gone))
    ensures forall x :: x in Without(ids, gone) <==> x in ids && x !in gone
  {
    if ids != [] {
      WithoutDistinct(ids[1..], gone);
    }
  }

  lemma {:induction false} SpliceIsWithout(ids: seq<nat>, id: nat)
    requires Distinct(ids)
    ensures Splice(ids, id) == Without(ids, {id})
  {
    if ids != [] {
      if ids[0] == id {
        WithoutNothing(ids[1..], {id});
      } else {
        SpliceIsWithout(ids[1..], id);
      }
    }
  }

  lemma {:induction false} WithoutNothing(ids: seq<nat>, gone: set<nat>)
    requires forall x :: x in ids ==> x !in gone
    ensures Without(ids, gone) == ids
  {
    if ids != [] {
      WithoutNothing(ids[1..], gone);
    }
  }

  lemma ListAfterRemoval(s: State, ids: set<nat>, st: string)
    requires IndexesAgree(s) && st in s.streams
    ensures var list := RemoveAll(s, ids).streams[st];
            Distinct(list) && forall x :: x in list <==> x in s.streams[st] && !(x in ids && x in s.clients)
  {
    WithoutDistinct(s.streams[st], ids * s.clients);
  }

  lemma RemoveAllIndexes(s: State, ids: set<nat>)
    requires IndexesAgree(s)
    ensures IndexesAgree(RemoveAll(s, ids))
  {
    var s' := RemoveAll(s, ids);
    forall st | st in s'.streams ensures Distinct(s'.streams[st]) {
      ListAfterRemoval(s, ids, st);
    }
    forall st, id | st in s'.streams && id in s'.streams[st] ensures id in s'.clients && s'.table[id].stream == st {
      ListAfterRemoval(s, ids, st);
    }
    forall id | id in s'.clients
      ensures s'.table[id].stream in s'.streams && id in s'.streams[s'.table[id].stream]
    {
      ListAfterRemoval(s, ids, s.table[id].stream);
    }
  }

  lemma RemoveAllKeepsInv(s: State, ids: set<nat>)
    requires Inv(s)
    ensures Inv(RemoveAll(s, ids))
  {
    RemoveAllIndexes(s, ids);
    var s' := RemoveAll(s, ids);
    assert ChannelsOk(s');
    assert ListsOk(s');
  }

  lemma MemberStreams(s: State, id: nat)
    requires Inv(s) && id in s.clients
    ensures Remove(s, id).streams == RemoveAll(s, {id}).streams
  {
    assert {id} * s.clients == {id};
    forall st | st in s.streams ensures Remove(s, id).streams[st] == RemoveAll(s, {id}).streams[st] {
      RemoveFromList(s, id, st);
    }
  }

  lemma RemoveMember(s: State, id: nat)
    requires Inv(s) && id in s.clients
    ensures Remove(s, id) == RemoveAll(s, {id})
  {
    MemberStreams(s, id);
  }

  lemma OnlyMembersMatter(s: State, ids: set<nat>)
    requires ids * s.clients == {}
    ensures RemoveAll(s, ids) == s
  {
    RemoveNobody(s);
    assert ids * s.clients == {} * s.clients;
  }

  /** unsubscribeNoLock is the one-element case. */
  lemma RemoveIsRemoveAll(s: State, id: nat)
    requires Inv(s)
    ensures Remove(s, id) == RemoveAll(s, {id})
  {
    if id in s.clients {
      RemoveMember(s, id);
    } else {
      OnlyMembersMatter(s, {id});
    }
  }

  lemma RemoveFromList(s: State, id: nat, st: string)
    requires Inv(s) && id in s.clients && st in s.streams
    ensures Remove(s, id).streams[st] == Without(s.streams[st], {id})
  {
    if st == s.table[id].stream {
      SpliceIsWithout(s.streams[st], id);
    } else {
      WithoutNothing(s.streams[st], {id});
    }
  }

  lemma RemoveNobody(s: State)
    ensures RemoveAll(s, {}) == s
  {
    forall st | st in s.streams ensures Without(s.streams[st], {} * s.clients) == s.streams[st] {
      WithoutNothing(s.streams[st], {} * s.clients);
    }
    assert RemoveAll(s, {}).table == s.table;
    assert RemoveAll(s, {}).streams == s.streams;
  }

  lemma SubscribeKeepsIndexes(s: State, st: string)
    requires Inv(s)
    ensures s.nextId !in s.table && IndexesAgree(Step(s, Subscribe(st)))
  {
  }

  lemma SubscribeKeepsInv(s: State, st: string)
    requires Inv(s)
    ensures Inv(Step(s, Subscribe(st)))
  {
    SubscribeKeepsIndexes(s, st);
    var s' := Step(s, Subscribe(st));
    assert ChannelsOk(s') && ListsOk(s');
  }

  lemma SendKeepsLists(s: State, to: Target, m: string)
    requires Inv(s)
    ensures ListsOk(Step(s, Send(to, m)))
  {
    var ids, s' := Targets(s, to), Step(s, Send(to, m));
    forall i, id | 0 <= i < |s'.pending| && id in s'.pending[i]
      ensures id in s'.table && s'.table[id].dropped > MAX_DROPS
    {
    }
  }

  lemma SendKeepsIndexes(s: State, to: Target, m: string)
    requires Inv(s)
    ensures IndexesAgree(Step(s, Send(to, m)))
  {
  }

  lemma SendKeepsChannels(s: State, to: Target, m: string)
    requires Inv(s)
    ensures ChannelsOk(Step(s, Send(to, m)))
  {
  }

  lemma SendKeepsInv(s: State, to: Target, m: string)
    requires Inv(s)
    ensures Inv(Step(s, Send(to, m)))
  {
    SendKeepsIndexes(s, to, m);
    SendKeepsChannels(s, to, m);
    SendKeepsLists(s, to, m);
  }

  lemma EvictKeepsInv(s: State, i: nat)
    requires Inv(s) && i < |s.pending|
    ensures Inv(Step(s, Evict(i)))
  {
    RemoveAllKeepsInv(s, s.pending[i]);
    var r, s' := RemoveAll(s, s.pending[i]), Step(s, Evict(i));
    assert IndexesAgree(s') && ChannelsOk(s');
    forall k, id | 0 <= k < |s'.pending| && id in s'.pending[k]
      ensures id in s'.table && s'.table[id].dropped > MAX_DROPS
    {
      assert id in r.pending[if k < i then k else k + 1];
    }
  }

  lemma ReceiveKeepsInv(s: State, id: nat)
    requires Inv(s)
    ensures Inv(Step(s, Receive(id)))
  {
    var s' := Step(s, Receive(id));
    assert IndexesAgree(s') && ChannelsOk(s') && ListsOk(s');
  }

  lemma StepKeepsInv(s: State, e: Event)
    requires Inv(s)
    ensures Inv(Step(s, e))
  {
    match e
    case Tick(_) => assert IndexesAgree(Step(s, e)) && ChannelsOk(Step(s, e)) && ListsOk(Step(s, e));
    case Subscribe(st) => SubscribeKeepsInv(s, st);
    case Unsubscribe(id) =>
      RemoveIsRemoveAll(s, id);
      RemoveAllKeepsInv(s, {id});
    case Expire => RemoveAllKeepsInv(s, Stale(s));
    case Send(to, m) => SendKeepsInv(s, to, m);
    case Evict(i) => if i < |s.pending| { EvictKeepsInv(s, i); }
    case Receive(id) => ReceiveKeepsInv(s, id);
  }

  /** In every reachable state the map and the stream lists describe the same
      clients, each client once and in its own stream's list only; a channel is
      open exactly while its client is registered and holds at most 100 events. */
  lemma {:induction false} Reachable(evs: seq<Event>)
    ensures Inv(Run(evs))
  {
    if evs != [] {
      Reachable(evs[..|evs| - 1]);
      StepKeepsInv(Run(evs[..|evs| - 1]), evs[|evs| - 1]);
    }
  }

  lemma TakeConserves(aimed: seq<string>, received: seq<string>, c: Client)
    requires Conserved(aimed, received, c) && c.queue != []
    ensures Conserved(aimed, received + [c.queue[0]], c.(queue := c.queue[1..]))
  {
    assert received + [c.queue[0]] + c.queue[1..] == received + c.queue;
  }

  /** `id` is registered and the broadcast is meant for its stream. */
  predicate AimedAt(s: State, to: Target, id: nat) {
    id in s.clients && id in s.table && (to.One? ==> s.table[id].stream == to.stream) && (to.Part? ==> id in to.ids)
  }

  /** The targets of a broadcast, found through the stream lists, are exactly the
      registered clients it is meant for; all their channels are open, and so are
      the channels of whoever is about to be unsubscribed: nothing is ever sent
      to a closed channel and no channel is closed twice. */
  lemma TargetsAndClosesAreOpen(evs: seq<Event>, to: Target, ids: set<nat>)
    ensures var s := Run(evs);
            && (forall id :: id in Targets(s, to) <==> AimedAt(s, to, id))
            && (forall id :: id in Targets(s, to) + ids * s.clients ==> id in s.table && s.table[id].open)
  {
    Reachable(evs);
  }

  /** The record of a client as time goes by. */
  ghost predicate SameClient(s: State, s': State, id: nat) {
    && id in s.table && id in s'.table && s'.table[id].stream == s.table[id].stream
    && s'.table[id].dropped >= s.table[id].dropped
    && (id !in s.clients ==> id !in s'.clients)
  }

  lemma {:induction false} ClientsStay(evs: seq<Event>, more: seq<Event>, id: nat)
    requires id in Run(evs).table
    ensures SameClient(Run(evs), Run(evs + more), id)
  {
    var all := evs + more;
    if more == [] {
      assert all == evs;
    } else {
      var before := more[..|more| - 1];
      ClientsStay(evs, before, id);
      assert all[..|all| - 1] == evs + before;
      Reachable(evs + before);
      StepKeepsRecord(Run(evs + before), all[|all| - 1], id);
    }
  }

  /** An ID is never given out twice, and whoever has left stays out. */
  lemma IdsAreForever(evs: seq<Event>, more: seq<Event>, id: nat)
    requires id in Run(evs).table
    ensures var s, s' := Run(evs), Run(evs + more);
            && id in s'.table && s'.table[id].stream == s.table[id].stream
            && s'.table[id].dropped >= s.table[id].dropped
            && (id !in s.clients ==> id !in s'.clients)
            && id != s'.nextId
  {
    ClientsStay(evs, more, id);
    Reachable(evs + more);
  }

  lemma StepKeepsRecord(s: State, e: Event, id: nat)
    requires Inv(s) && id in s.table
    ensures var s' := Step(s, e);
            && id in s'.table && s'.table[id].stream == s.table[id].stream
            && s'.table[id].dropped >= s.table[id].dropped
            && (id !in s.clients ==> id !in s'.clients)
  {
  }

  /** However late an eviction list is carried out, it removes only clients that
      were put on it and are still registered; each of them has lost more than
      100 events, and nobody else is touched. */
  lemma EvictionHitsOnlySlowClients(evs: seq<Event>, i: nat)
    requires i < |Run(evs).pending|
    ensures var s, s' := Run(evs), Run(evs + [Evict(i)]);
            && s'.clients == s.clients - s.pending[i]
            && (forall id :: id in s.clients - s'.clients ==> id in s.table && s.table[id].dropped > 100)
            && (forall id :: id in s.table && id !in s.pending[i] ==> id in s'.table && s'.table[id] == s.table[id])
  {
    var all := evs + [Evict(i)];
    assert all[..|all| - 1] == evs;
    Reachable(evs);
  }

  /** Unsubscribe takes the client out of both indexes, closes its channel and
      touches nobody else. */
  lemma UnsubscribeRemoves(evs: seq<Event>, id: nat)
    ensures var s, s' := Run(evs), Run(evs + [Unsubscribe(id)]);
            && s'.clients == s.clients - {id} && s'.pending == s.pending && s'.table.Keys == s.table.Keys
            && (id in s.table ==> s'.table[id] == s.table[id].(open := false))
            && (forall x :: x in s.table && x != id ==> s'.table[x] == s.table[x])
            && (forall st, x :: st in s'.streams && x in s'.streams[st]
                  <==> st in s.streams && x in s.streams[st] && x != id)
  {
    assert (evs + [Unsubscribe(id)])[..|evs|] == evs;
    Reachable(evs);
    var s := Run(evs);
    RemoveIsRemoveAll(s, id);
    forall st | st in s.streams
      ensures forall x :: x in RemoveAll(s, {id}).streams[st] <==> x in s.streams[st] && x != id
    {
      ListAfterRemoval(s, {id}, st);
    }
  }

  // Delivery

  /** The events broadcast to `id` while it was subscribed. */
  function Aimed(evs: seq<Event>, id: nat): seq<string> {
    if evs == [] then []
    else
      var before, e := evs[..|evs| - 1], evs[|evs| - 1];
      var s := Run(before);
      Aimed(before, id)
      + if e.Send? && AimedAt(s, e.to, id) then [e.message] else []
  }

  /** The events the receiver of `id` has taken out of its channel. */
  function Received(evs: seq<Event>, id: nat): seq<string> {
    if evs == [] then []
    else
      var before, e := evs[..|evs| - 1], evs[|evs| - 1];
      var s := Run(before);
      Received(before, id)
      + if e == Receive(id) && id in s.table && s.table[id].queue != [] then [s.table[id].queue[0]] else []
  }

  /** `a` can be got from `b` by leaving elements out. */
  predicate Subsequence(a: seq<string>, b: seq<string>) {
    a == [] || (b != [] && (Subsequence(a, b[..|b| - 1])
                            || (a[|a| - 1] == b[|b| - 1] && Subsequence(a[..|a| - 1], b[..|b| - 1]))))
  }

  lemma SubsequenceSnoc(a: seq<string>, b: seq<string>, m: string)
    requires Subsequence(a, b)
    ensures Subsequence(a, b + [m]) && Subsequence(a + [m], b + [m])
  {
    assert (b + [m])[..|b|] == b && (a + [m])[..|a|] == a;
  }

  /** The elements kept stand at increasing positions. */
  lemma {:induction false} SubsequencePicks(a: seq<string>, b: seq<string>) returns (at: seq<nat>)
    requires Subsequence(a, b)
    ensures |at| == |a| && forall k :: 0 <= k < |a| ==> at[k] < |b| && b[at[k]] == a[k]
    ensures forall j, k :: 0 <= j < k < |a| ==> at[j] < at[k]
  {
    if a == [] {
      at := [];
    } else if Subsequence(a, b[..|b| - 1]) {
      at := SubsequencePicks(a, b[..|b| - 1]);
    } else {
      at := SubsequencePicks(a[..|a| - 1], b[..|b| - 1]);
      at := at + [|b| - 1];
    }
  }

  lemma {:induction false} NotYetCreated(evs: seq<Event>, id: nat)
    requires id !in Run(evs).table
    ensures Aimed(evs, id) == [] && Received(evs, id) == []
  {
    if evs != [] {
      Reachable(evs[..|evs| - 1]);
      if id in Run(evs[..|evs| - 1]).table {
        StepKeepsRecord(Run(evs[..|evs| - 1]), evs[|evs| - 1], id);
      }
      NotYetCreated(evs[..|evs| - 1], id);
    }
  }

  ghost predicate Conserved(aimed: seq<string>, received: seq<string>, c: Client) {
    && |aimed| == |received| + |c.queue| + c.dropped
    && Subsequence(received + c.queue, aimed)
    && |c.queue| <= 100
  }

  lemma OfferConserves(aimed: seq<string>, received: seq<string>, c: Client, m: string, now: int)
    requires Conserved(aimed, received, c)
    ensures Conserved(aimed + [m], received, Offer(c, m, now))
  {
    SubsequenceSnoc(received + c.queue, aimed, m);
    assert received + (c.queue + [m]) == received + c.queue + [m];
  }

  /** The record of `id` after a step, seen from outside. */
  lemma RecordAfter(evs: seq<Event>, e: Event, id: nat)
    requires id in Run(evs).table
    ensures var s, s' := Run(evs), Run(evs + [e]);
            id in s'.table &&
            var c, c' := s.table[id], s'.table[id];
            if e.Send? && AimedAt(s, e.to, id) then c' == Offer(c, e.message, s.clock)
            else if e == Receive(id) && c.queue != [] then c' == c.(queue := c.queue[1..])
            else c'.queue == c.queue && c'.dropped == c.dropped
  {
    assert (evs + [e])[..|evs|] == evs;
    Reachable(evs);
    if e.Send? {
      TargetsAndClosesAreOpen(evs, e.to, {});
    }
  }

  lemma DeliveryStep(evs: seq<Event>, e: Event, id: nat)
    requires id in Run(evs).table
    requires Conserved(Aimed(evs, id), Received(evs, id), Run(evs).table[id])
    ensures id in Run(evs + [e]).table
    ensures Conserved(Aimed(evs + [e], id), Received(evs + [e], id), Run(evs + [e]).table[id])
  {
    RecordAfter(evs, e, id);
    var s := Run(evs);
    var c, sent, got := s.table[id], Aimed(evs, id), Received(evs, id);
    var c', sent', got' := Run(evs + [e]).table[id], Aimed(evs + [e], id), Received(evs + [e], id);
    if e.Send? && AimedAt(s, e.to, id) {
      OfferConserves(sent, got, c, e.message, s.clock);
      assert got' == got;
    } else if e == Receive(id) && c.queue != [] {
      TakeConserves(sent, got, c);
      assert sent' == sent;
    } else {
      assert sent' == sent && got' == got && c'.queue == c.queue;
    }
  }

  /** Conservation for every client ever subscribed: what was broadcast to it is
      received, still queued or dropped, and what it gets is an in-order selection
      of what was sent. */
  lemma Delivery(evs: seq<Event>, id: nat)
    requires id in Run(evs).table
    ensures var c := Run(evs).table[id];
            && |Aimed(evs, id)| == |Received(evs, id)| + |c.queue| + c.dropped && |c.queue| <= 100
            && Subsequence(Received(evs, id) + c.queue, Aimed(evs, id))
  {
    AllConserved(evs, id);
  }

  lemma {:induction false} AllConserved(evs: seq<Event>, id: nat)
    requires id in Run(evs).table
    ensures Conserved(Aimed(evs, id), Received(evs, id), Run(evs).table[id])
  {
    var before, e := evs[..|evs| - 1], evs[|evs| - 1];
    assert evs == before + [e];
    if id in Run(before).table {
      AllConserved(before, id);
      DeliveryStep(before, e, id);
    } else {
      Reachable(before);
      NotYetCreated(before, id);
    }
  }

  /** Every client a broadcast puts on an eviction list has, by the count of its
      events, really lost more than 100 of them. */
  lemma EvictedAfterHundredLosses(evs: seq<Event>, i: nat, id: nat)
    requires i < |Run(evs).pending| && id in Run(evs).pending[i]
    ensures id in Run(evs).table
    ensures |Aimed(evs, id)| - |Received(evs, id)| - |Run(evs).table[id].queue| > 100
  {
    Reachable(evs);
    Delivery(evs, id);
  }

  /** The events broadcast to `id` that it can no longer get. */
  function Lost(evs: seq<Event>, id: nat): int {
    if id in Run(evs).table then |Aimed(evs, id)| - |Received(evs, id)| - |Run(evs).table[id].queue| else 0
  }

  lemma LostIsDropped(evs: seq<Event>, id: nat)
    ensures Lost(evs, id) == if id in Run(evs).table then Run(evs).table[id].dropped else 0
  {
    if id in Run(evs).table {
      Delivery(evs, id);
    }
  }

  /** A client a broadcast is meant for gets the event unless 100 are waiting for it. */
  lemma QueuedUnlessFull(evs: seq<Event>, to: Target, m: string, id: nat)
    requires AimedAt(Run(evs), to, id)
    ensures var s, s' := Run(evs), Run(evs + [Send(to, m)]);
            && id in s'.table
            && s'.table[id].queue == s.table[id].queue + (if |s.table[id].queue| == 100 then [] else [m])
            && Lost(evs + [Send(to, m)], id) == Lost(evs, id) + (if |s.table[id].queue| == 100 then 1 else 0)
  {
    RecordAfter(evs, Send(to, m), id);
    Reachable(evs);
    LostIsDropped(evs, id);
    LostIsDropped(evs + [Send(to, m)], id);
  }

  /** The eviction list a step leaves behind, if it leaves one. */
  function NewList(s: State, s': State): set<nat> {
    if |s'.pending| == |s.pending| + 1 then s'.pending[|s.pending|] else {}
  }

  /** A broadcast puts on an eviction list exactly the clients that lose its own
      event and have by then lost more than 100. */
  lemma EvictionListIsExact(evs: seq<Event>, to: Target, m: string, id: nat)
    ensures Run(evs).pending <= Run(evs + [Send(to, m)]).pending
    ensures id in NewList(Run(evs), Run(evs + [Send(to, m)]))
            <==> Lost(evs, id) < Lost(evs + [Send(to, m)], id) && Lost(evs + [Send(to, m)], id) > 100
  {
    LostIsDropped(evs, id);
    LostIsDropped(evs + [Send(to, m)], id);
  }

  /** A broadcast that finds nobody to evict leaves no list behind. */
  lemma {:induction false} NoListIsEmpty(evs: seq<Event>, i: nat)
    requires i < |Run(evs).pending|
    ensures Run(evs).pending[i] != {}
  {
    var before, e := evs[..|evs| - 1], evs[|evs| - 1];
    if e.Evict? && e.list <= i && e.list < |Run(before).pending| {
      NoListIsEmpty(before, i + 1);
    } else if i < |Run(before).pending| {
      NoListIsEmpty(before, i);
    }
  }

  // Expiry

  function Elapsed(evs: seq<Event>): nat {
    if evs == [] then 0
    else Elapsed(evs[..|evs| - 1]) + if evs[|evs| - 1].Tick? then evs[|evs| - 1].dt else 0
  }

  /** The time at which `id` subscribed or last had an event put into its channel. */
  function LastContact(evs: seq<Event>, id: nat): nat {
    if evs == [] then 0
    else
      var before, e := evs[..|evs| - 1], evs[|evs| - 1];
      var s := Run(before);
      if e.Subscribe? && id == s.nextId then Elapsed(before)
      else if e.Send? && AimedAt(s, e.to, id) && |s.table[id].queue| < 100 then Elapsed(before)
      else LastContact(before, id)
  }

  lemma {:induction false} ClockIsElapsed(evs: seq<Event>)
    ensures Run(evs).clock == Elapsed(evs)
  {
    if evs != [] {
      ClockIsElapsed(evs[..|evs| - 1]);
    }
  }

  lemma SeenStep(evs: seq<Event>, e: Event, id: nat)
    requires id in Run(evs).table && Run(evs).table[id].lastSeen == LastContact(evs, id)
    ensures id in Run(evs + [e]).table && Run(evs + [e]).table[id].lastSeen == LastContact(evs + [e], id)
  {
    assert (evs + [e])[..|evs|] == evs;
    Reachable(evs);
    ClockIsElapsed(evs);
    if e.Send? {
      TargetsAndClosesAreOpen(evs, e.to, {});
    }
  }

  lemma {:induction false} LastSeenIsLastContact(evs: seq<Event>, id: nat)
    requires id in Run(evs).table
    ensures Run(evs).table[id].lastSeen == LastContact(evs, id)
  {
    var before, e := evs[..|evs| - 1], evs[|evs| - 1];
    assert evs == before + [e];
    if id in Run(before).table {
      LastSeenIsLastContact(before, id);
      SeenStep(before, e, id);
    } else {
      ClockIsElapsed(before);
    }
  }

  /** The TTL pass removes exactly the clients that for more than 24 hours have
      neither subscribed nor had an event put into their channel. */
  lemma ExpiryIsExact(evs: seq<Event>, id: nat)
    ensures id in Run(evs + [Expire]).clients
            <==> id in Run(evs).clients && Elapsed(evs) - LastContact(evs, id) <= 24 * 60 * 60
  {
    assert (evs + [Expire])[..|evs|] == evs;
    Reachable(evs);
    ClockIsElapsed(evs);
    if id in Run(evs).clients {
      LastSeenIsLastContact(evs, id);
    }
  }

  // The broadcaster object

  lemma CutShift(ids: seq<nat>, i: nat)
    requires 1 <= i < |ids|
    ensures ids[..i] + ids[i + 1..] == [ids[0]] + (ids[1..][..i - 1] + ids[1..][i..])
  {
  }

  lemma {:induction false} SpliceAbsent(ids: seq<nat>, id: nat)
    requires id !in ids
    ensures Splice(ids, id) == ids
  {
    if ids != [] {
      SpliceAbsent(ids[1..], id);
    }
  }

  lemma {:induction false} SplicePresent(ids: seq<nat>, i: nat, id: nat)
    requires i < |ids| && id !in ids[..i] && ids[i] == id
    ensures Splice(ids, id) == ids[..i] + ids[i + 1..]
  {
    if i > 0 {
      assert ids[..i] == [ids[0]] + ids[1..][..i - 1];
      SplicePresent(ids[1..], i - 1, id);
      CutShift(ids, i);
    }
  }

  lemma SpliceAt(ids: seq<nat>, i: nat, id: nat)
    requires i <= |ids| && id !in ids[..i] && (i < |ids| ==> ids[i] == id)
    ensures Splice(ids, id) == if i < |ids| then ids[..i] + ids[i + 1..] else ids
  {
    if i < |ids| {
      SplicePresent(ids, i, id);
    } else {
      assert ids[..i] == ids;
      SpliceAbsent(ids, id);
    }
  }

  lemma {:induction false} WithoutTwice(ids: seq<nat>, a: set<nat>, b: set<nat>)
    ensures Without(Without(ids, a), b) == Without(ids, a + b)
  {
    if ids != [] {
      WithoutTwice(ids[1..], a, b);
      if ids[0] !in a {
        var rest := Without(ids[1..], a);
        assert ([ids[0]] + rest)[1..] == rest;
        assert Without(ids, a) == [ids[0]] + rest;
      } else {
        assert Without(ids, a) == Without(ids[1..], a);
      }
    }
  }

  /** One more unsubscribe under the same lock. */
  lemma RemoveAllThenOne(s: State, ids: set<nat>, id: nat)
    requires Inv(s)
    ensures Remove(RemoveAll(s, ids), id) == RemoveAll(s, ids + {id})
  {
    var t := RemoveAll(s, ids);
    RemoveAllKeepsInv(s, ids);
    RemoveIsRemoveAll(t, id);
    RemoveAllTwice(s, ids, {id});
  }

  lemma RemoveAllTwice(s: State, x: set<nat>, y: set<nat>)
    ensures RemoveAll(RemoveAll(s, x), y) == RemoveAll(s, x + y)
  {
    var t := RemoveAll(s, x);
    var a, b := x * s.clients, y * t.clients;
    assert (x + y) * s.clients == a + b;
    var u, v := RemoveAll(t, y), RemoveAll(s, x + y);
    forall st | st in s.streams ensures u.streams[st] == v.streams[st] {
      WithoutTwice(s.streams[st], a, b);
    }
    assert u.streams == v.streams;
    assert u.table == v.table;
    assert u.clients == v.clients;
  }

  lemma StillThere(s: State, ids: set<nat>, id: nat)
    requires Inv(s) && id in s.clients && id !in ids
    ensures id in RemoveAll(s, ids).clients && id in s.table && RemoveAll(s, ids).table[id] == s.table[id]
  {
  }

  lemma StaleStep(s: State, todo: set<nat>, id: nat)
    requires Inv(s) && todo <= s.clients && id in todo
    ensures Stale(s) - (todo - {id})
            == (Stale(s) - todo) + (if s.clock - s.table[id].lastSeen > TTL then {id} else {})
  {
  }

  class EventBroadcaster {
    var streams: map<string, seq<nat>>
    var clients: set<nat>
    var table: map<nat, Client>
    var nextID: nat
    ghost var pending: seq<set<nat>>
    ghost var clock: int
    ghost var history: seq<Event>

    ghost function View(): State
      reads this
    {
      State(streams, clients, table, nextID, pending, clock)
    }

    ghost predicate Valid()
      reads this
    {
      View() == Run(history)
    }

    constructor ()
      ensures Valid() && history == []
    {
      streams, clients, table, nextID, pending, clock, history := map[], {}, map[], 1, [], 0, [];
    }

    ghost method Log(e: Event, before: State)
      requires before == Run(history) && View() == Step(before, e)
      modifies this`history
      ensures Valid() && history == old(history) + [e]
    {
      history := history + [e];
      assert history[..|history| - 1] == old(history);
    }

    ghost method Advance(now: int)
      requires Valid() && clock <= now
      modifies this`clock, this`history
      ensures Valid() && clock == now && history == old(history) + [Tick(now - old(clock))]
    {
      ghost var before := View();
      clock := now;
      Log(Tick(now - old(clock)), before);
    }

    /** The receiver of a client takes the next event out of its channel. */
    method TakeEvent(clientID: nat) returns (ok: bool, event: string)
      requires Valid() && clientID in table
      modifies this
      ensures Valid() && history == old(history) + [Receive(clientID)] && table.Keys == old(table).Keys
      ensures ok <==> old(table)[clientID].queue != []
      ensures old(table)[clientID].queue == (if ok then [event] else []) + table[clientID].queue
    {
      ghost var before := View();
      var client := table[clientID];
      ok, event := client.queue != [], "";
      if ok {
        event := client.queue[0];
        table := table[clientID := client.(queue := client.queue[1..])];
      }
      Log(Receive(clientID), before);
    }

    method SubscribeTo(streamID: string, now: int) returns (clientID: nat)
      requires Valid() && now == clock
      modifies this
      ensures Valid() && history == old(history) + [Subscribe(streamID)]
      ensures clientID !in old(table) && clientID == old(nextID) && nextID == clientID + 1
      ensures clients == old(clients) + {clientID}
      ensures table == old(table)[clientID := Client(streamID, [], true, 0, now)]
    {
      Reachable(history);
      ghost var before := View();
      clientID := nextID;
      nextID := nextID + 1;
      table := table[clientID := Client(streamID, [], true, 0, now)];
      clients := clients + {clientID};
      streams := streams[streamID := (if streamID in streams then streams[streamID] else []) + [clientID]];
      Log(Subscribe(streamID), before);
    }

    /** Finds the client in its stream's list, splices it out and closes it. */
    method UnsubscribeNoLock(clientID: nat)
      requires Inv(View())
      modifies this`streams, this`clients, this`table
      ensures View() == Remove(old(View()), clientID)
    {
      if clientID in clients {
        var client := table[clientID];
        if client.stream in streams {
          var list := streams[client.stream];
          var i := 0;
          while i < |list| && list[i] != clientID
            invariant 0 <= i <= |list| && clientID !in list[..i]
          {
            i := i + 1;
          }
          SpliceAt(list, i, clientID);
          streams := streams[client.stream := if i < |list| then list[..i] + list[i + 1..] else list];
        }
        clients := clients - {clientID};
        table := table[clientID := client.(open := false)];
      }
    }

    method UnsubscribeClient(clientID: nat)
      requires Valid()
      modifies this
      ensures Valid() && history == old(history) + [Unsubscribe(clientID)]
      ensures clients == old(clients) - {clientID}
    {
      Reachable(history);
      ghost var before := View();
      UnsubscribeNoLock(clientID);
      Log(Unsubscribe(clientID), before);
    }

    /** Unsubscribes every client of a list under one lock. */
    method UnsubscribeEach(ids: seq<nat>)
      requires Inv(View())
      modifies this`streams, this`clients, this`table
      ensures View() == RemoveAll(old(View()), Members(ids))
    {
      ghost var before := View();
      RemoveNobody(before);
      assert Members(ids[..0]) == {};
      for k := 0 to |ids|
        invariant View() == RemoveAll(before, Members(ids[..k]))
      {
        RemoveAllKeepsInv(before, Members(ids[..k]));
        RemoveAllThenOne(before, Members(ids[..k]), ids[k]);
        assert Members(ids[..k + 1]) == Members(ids[..k]) + {ids[k]};
        UnsubscribeNoLock(ids[k]);
      }
      assert ids[..|ids|] == ids;
    }

    /** Second half of a broadcast: carries out the list decided as number `i`. */
    method CarryOut(toUnsubscribe: seq<nat>, ghost i: nat)
      requires Valid() && i < |pending| && pending[i] == Members(toUnsubscribe)
      modifies this
      ensures Valid() && history == old(history) + [Evict(i)]
      ensures clients == old(clients) - Members(toUnsubscribe)
      ensures forall id :: id in old(clients) - clients ==> id in table && table[id].dropped > MAX_DROPS
    {
      Reachable(history);
      EvictionHitsOnlySlowClients(history, i);
      assert (history + [Evict(i)])[..|history|] == history;
      ghost var before := View();
      UnsubscribeEach(toUnsubscribe);
      pending := pending[..i] + pending[i + 1..];
      Log(Evict(i), before);
    }

    /** The loop of the TTL pass: unsubscribes while it walks the `clients` map. */
    method ExpireLoop(now: int)
      requires Inv(View()) && now == clock
      modifies this`streams, this`clients, this`table
      ensures View() == RemoveAll(old(View()), Stale(old(View())))
    {
      ghost var before := View();
      var todo := clients;
      ghost var done: set<nat> := {};
      RemoveNobody(before);
      while todo != {}
        invariant todo <= before.clients && done == Stale(before) - todo
        invariant View() == RemoveAll(before, done)
        decreases todo
      {
        var id :| id in todo;
        RemoveAllKeepsInv(before, done);
        StillThere(before, done, id);
        StaleStep(before, todo, id);
        if now - table[id].lastSeen > TTL {
          RemoveAllThenOne(before, done, id);
          UnsubscribeNoLock(id);
          done := done + {id};
        }
        todo := todo - {id};
      }
      assert done == Stale(before);
    }

    method ExpireStaleClients(now: int)
      requires Valid() && now == clock
      modifies this
      ensures Valid() && history == old(history) + [Expire]
      ensures clients == old(clients) - Stale(old(View()))
    {
      Reachable(history);
      ghost var before := View();
      ExpireLoop(now);
      Log(Expire, before);
    }

    /** The loop of a broadcast over one list of distinct clients. */
    method SendEach(ids: seq<nat>, event: string, now: int) returns (full: seq<nat>)
      requires Distinct(ids) && now == clock && forall id :: id in ids ==> id in table
      modifies this`table
      ensures table == Offered(old(View()), Members(ids), event)
      ensures Members(full) == Overflowing(old(View()), Members(ids))
    {
      ghost var before := View();
      full := [];
      assert table == Offered(before, Members(ids[..0]), event);
      for k := 0 to |ids|
        invariant table == Offered(before, Members(ids[..k]), event)
        invariant Members(full) == Overflowing(before, Members(ids[..k]))
      {
        var id := ids[k];
        assert Members(ids[..k + 1]) == Members(ids[..k]) + {id} && id !in Members(ids[..k]);
        var client := table[id];
        if |client.queue| < CAPACITY {
          client := client.(queue := client.queue + [event], lastSeen := now);
        } else {
          client := client.(dropped := client.dropped + 1);
          if client.dropped > MAX_DROPS {
            assert Members(full + [id]) == Members(full) + {id};
            full := full + [id];
          }
        }
        table := table[id := client];
      }
      assert ids[..|ids|] == ids;
    }

    /** First half of Broadcast, under the read lock. */
    method SendToStream(streamID: string, event: string, now: int) returns (toUnsubscribe: seq<nat>)
      requires Valid() && now == clock
      modifies this
      ensures Valid() && history == old(history) + [Send(One(streamID), event)]
      ensures Members(toUnsubscribe) == Overflowing(old(View()), Targets(old(View()), One(streamID)))
      ensures toUnsubscribe != [] ==> pending != [] && pending[|pending| - 1] == Members(toUnsubscribe)
    {
      Reachable(history);
      ghost var before := View();
      var list := if streamID in streams then streams[streamID] else [];
      toUnsubscribe := SendEach(list, event, now);
      ghost var evicted := Members(toUnsubscribe);
      if toUnsubscribe != [] {
        assert toUnsubscribe[0] in evicted;
        pending := pending + [evicted];
      }
      Log(Send(One(streamID), event), before);
    }

    /** The nested loops of BroadcastToAll. */
    method SendEverywhere(event: string, now: int) returns (full: seq<nat>)
      requires Inv(View()) && now == clock
      modifies this`table
      ensures table == Offered(old(View()), Targets(old(View()), All), event)
      ensures Members(full) == Overflowing(old(View()), Targets(old(View()), All))
    {
      ghost var before := View();
      var todo := streams.Keys;
      ghost var done: set<nat> := {};
      full := [];
      assert Offered(before, {}, event) == table;
      while todo != {}
        invariant todo <= streams.Keys
        invariant forall id :: id in done <==> id in clients && before.table[id].stream !in todo
        invariant table == Offered(before, done, event)
        invariant Members(full) == Overflowing(before, done)
        decreases todo
      {
        var st :| st in todo;
        ghost var ids := Members(streams[st]);
        assert done !! ids;
        var more := SendEach(streams[st], event, now);
        assert Members(full + more) == Members(full) + Members(more);
        full := full + more;
        done := done + ids;
        todo := todo - {st};
      }
      assert done == Targets(before, All);
    }

    /** First half of BroadcastToAll. */
    method SendToAll(event: string, now: int) returns (toUnsubscribe: seq<nat>)
      requires Valid() && now == clock
      modifies this
      ensures Valid() && history == old(history) + [Send(All, event)]
      ensures Members(toUnsubscribe) == Overflowing(old(View()), Targets(old(View()), All))
      ensures toUnsubscribe != [] ==> pending != [] && pending[|pending| - 1] == Members(toUnsubscribe)
    {
      Reachable(history);
      ghost var before := View();
      toUnsubscribe := SendEverywhere(event, now);
      ghost var evicted := Members(toUnsubscribe);
      if toUnsubscribe != [] {
        assert toUnsubscribe[0] in evicted;
        pending := pending + [evicted];
      }
      Log(Send(All, event), before);
    }

    /** The number of clients, counted over the stream lists. */
    method GetTotalClients() returns (total: nat)
      requires Valid()
      ensures total == |clients|
    {
      Reachable(history);
      total := 0;
      var todo := streams.Keys;
      ghost var counted: set<nat> := {};
      while todo != {}
        invariant todo <= streams.Keys && total == |counted|
        invariant forall id :: id in counted <==> id in clients && table[id].stream !in todo
        decreases todo
      {
        var st :| st in todo;
        DistinctSize(streams[st]);
        assert counted !! Members(streams[st]);
        counted := counted + Members(streams[st]);
        total := total + |streams[st]|;
        todo := todo - {st};
      }
      assert counted == clients;
    }
  }

  lemma {:induction false} DistinctSize(ids: seq<nat>)
    requires Distinct(ids)
    ensures |Members(ids)| == |ids|
  {
    if ids != [] {
      DistinctSize(ids[1..]);
      assert Members(ids) == Members(ids[1..]) + {ids[0]};
    }
  }
}
