/**
 Message routing of hub/hub.go: a message is split by the server its targets are connected to
 (lines 69-111), and each server passes its part on to the targets' connections (lines 112-130).
 */
module Hub {
  import opened Wrappers
  import opened Strings

  datatype Message = Message(text: string, source: string, targets: seq<string>)

  // ---------- Splitting by server ----------

  /** The outcome of asking etcd for a target: an error, or the value found, if any. */
  type Answer = Result<Option<string>, ()>

  /** The targets that the registry places on a server, in their order. */
  function PlacedOn(get: string -> Answer, server: string, targets: seq<string>): seq<string>
  {
    if targets == [] then []
    else
      var n := |targets| - 1;
      PlacedOn(get, server, targets[..n]) + if get(targets[n]) == Ok(Some(server)) then [targets[n]] else []
  }

  function Servers(get: string -> Answer, targets: seq<string>): set<string>
  {
    set t | t in targets && get(t).Ok? && get(t).value.Some? :: get(t).value.value
  }

  function Part(get: string -> Answer, server: string, m: Message): Message
  {
    m.(targets := PlacedOn(get, server, m.targets))
  }

  lemma {:induction false} PlacedSomewhere(get: string -> Answer, server: string, targets: seq<string>)
    ensures PlacedOn(get, server, targets) != [] <==> server in Servers(get, targets)
  {
    if targets != [] {
      var n := |targets| - 1;
      PlacedSomewhere(get, server, targets[..n]);
      assert targets == targets[..n] + [targets[n]];
    }
  }

  /** The parts made from the first targets of a message. */
  ghost predicate Grouped(get: string -> Answer, m: Message, targets: seq<string>, parts: map<string, Message>)
  {
    parts.Keys == Servers(get, targets) &&
      forall s :: s in parts ==> parts[s] == m.(targets := PlacedOn(get, s, targets))
  }

  lemma ServersOneMore(get: string -> Answer, targets: seq<string>, t: string)
    requires get(t).Ok?
    ensures Servers(get, targets + [t]) ==
            Servers(get, targets) + if get(t).value.None? then {} else {get(t).value.value}
  {
  }

  lemma PlacedOneMore(get: string -> Answer, server: string, targets: seq<string>, t: string)
    ensures PlacedOn(get, server, targets + [t]) ==
            PlacedOn(get, server, targets) + if get(t) == Ok(Some(server)) then [t] else []
  {
    var all := targets + [t];
    assert all[..|targets|] == targets && all[|targets|] == t;
  }

  /** The parts once one more target has joined the part of its server, or started it. */
  function WithTarget(get: string -> Answer, m: Message, t: string, parts: map<string, Message>): map<string, Message>
    requires get(t).Ok?
  {
    var placed := get(t).value;
    if placed.None? then parts
    else if placed.value !in parts then parts[placed.value := Message(m.text, m.source, [t])]
    else parts[placed.value := parts[placed.value].(targets := parts[placed.value].targets + [t])]
  }

  lemma GroupedOneMore(get: string -> Answer, m: Message, targets: seq<string>, t: string, parts: map<string, Message>)
    requires Grouped(get, m, targets, parts) && get(t).Ok?
    ensures Grouped(get, m, targets + [t], WithTarget(get, m, t, parts))
  {
    ServersOneMore(get, targets, t);
    var next := WithTarget(get, m, t, parts);
    assert next.Keys == Servers(get, targets + [t]);
    forall s | s in next ensures next[s] == m.(targets := PlacedOn(get, s, targets + [t])) {
      PlacedOneMore(get, s, targets, t);
      if s !in parts { PlacedSomewhere(get, s, targets); }
    }
  }

  /** Whether asking for some target fails. */
  ghost predicate Fails(get: string -> Answer, targets: seq<string>)
  {
    exists i :: 0 <= i < |targets| && get(targets[i]).Err?
  }

  /** What `SendMessage` publishes: nothing at all, or a part for each server that a target is placed on. */
  ghost predicate Published(get: string -> Answer, m: Message, parts: map<string, Message>)
  {
    parts.Keys == (if Fails(get, m.targets) then {} else Servers(get, m.targets)) &&
    forall s :: s in parts ==> parts[s] == Part(get, s, m) && parts[s].targets != []
  }

  /** The state of the grouping loop after the first `i` targets. */
  ghost predicate Grouping(get: string -> Answer, m: Message, i: nat, parts: map<string, Message>)
  {
    i <= |m.targets| && !Fails(get, m.targets[..i]) && Grouped(get, m, m.targets[..i], parts)
  }

  lemma GroupingTurns(get: string -> Answer, m: Message, i: nat, parts: map<string, Message>)
    requires Grouping(get, m, i, parts) && i < |m.targets| && get(m.targets[i]).Ok?
    ensures Grouping(get, m, i + 1, WithTarget(get, m, m.targets[i], parts))
  {
    assert m.targets[..i + 1] == m.targets[..i] + [m.targets[i]];
    GroupedOneMore(get, m, m.targets[..i], m.targets[i], parts);
    assert forall j :: 0 <= j < i ==> m.targets[..i][j] == m.targets[j];
  }

  lemma GroupingFails(get: string -> Answer, m: Message, i: nat)
    requires i < |m.targets| && get(m.targets[i]).Err?
    ensures Published(get, m, map[])
  {
  }

  lemma GroupingEnds(get: string -> Answer, m: Message, parts: map<string, Message>)
    requires Grouping(get, m, |m.targets|, parts)
    ensures Published(get, m, parts)
  {
    assert m.targets[..|m.targets|] == m.targets;
    forall s | s in parts ensures parts[s].targets != [] {
      PlacedSomewhere(get, s, m.targets);
    }
  }

  /** The grouping loop of `SendMessage`; the result is what is published, by server. An error stops everything. */
  method SendMessage(get: string -> Answer, m: Message) returns (parts: map<string, Message>)
    ensures Published(get, m, parts)
  {
    parts := map[];
    for i := 0 to |m.targets|
      invariant Grouping(get, m, i, parts)
    {
      var target := m.targets[i];
      var answer := get(target);
      if answer.Err? {
        GroupingFails(get, m, i);
        return map[];
      }
      GroupingTurns(get, m, i, parts);
      if answer.value.None? {
        continue;
      }
      var server := answer.value.value;
      if server !in parts {
        parts := parts[server := Message(m.text, m.source, [target])];
      } else {
        parts := parts[server := parts[server].(targets := parts[server].targets + [target])];
      }
    }
    GroupingEnds(get, m, parts);
  }

  // ---------- Passing on ----------

  class Client {
    var inbox: seq<Message>

    constructor ()
      ensures inbox == []
    {
      inbox := [];
    }
  }

  /** How often a target is listed, as messages for its connection. */
  function Copies(m: Message, id: string, targets: seq<string>): seq<Message>
  {
    if targets == [] then []
    else
      var n := |targets| - 1;
      Copies(m, id, targets[..n]) + if targets[n] == id then [m] else []
  }

  class Hub {
    var clients: map<string, Client?>

    constructor ()
      ensures clients == map[]
    {
      clients := map[];
    }

    method RegisterClient(id: string, c: Client)
      modifies this
      ensures clients == old(clients)[id := c]
    {
      clients := clients[id := c];
    }

    /** `RemoveClient` leaves the key in the map, with no client. */
    method RemoveClient(id: string)
      modifies this
      ensures clients == old(clients)[id := null]
    {
      clients := clients[id := null];
    }

    ghost predicate OneConnectionEach()
      reads this
    {
      forall a, b :: a in clients && b in clients && clients[a] != null && clients[a] == clients[b] ==> a == b
    }

    /** The target's connection has been removed, so that writing to it panics. */
    predicate Removed(target: string)
      reads this
    {
      target in clients && clients[target] == null
    }

    /**
     The delivery loop of `ReceiveMessage`; `reached` targets are dealt with before it ends or is brought down
     by the first target that was removed. Every client receives the message once for each time it is listed
     among them.
     */
    method ReceiveMessage(m: Message) returns (reached: nat)
      requires OneConnectionEach()
      modifies set id | id in clients && clients[id] != null :: clients[id]
      ensures clients == old(clients) && reached <= |m.targets|
      ensures forall t :: t in m.targets[..reached] ==> !Removed(t)
      ensures reached < |m.targets| ==> Removed(m.targets[reached])
      ensures forall id :: id in clients && clients[id] != null ==>
                clients[id].inbox == old(clients[id].inbox) + Copies(m, id, m.targets[..reached])
    {
      reached := 0;
      while reached < |m.targets|
        invariant clients == old(clients) && reached <= |m.targets|
        invariant forall t :: t in m.targets[..reached] ==> !Removed(t)
        invariant forall id :: id in clients && clients[id] != null ==>
                    clients[id].inbox == old(clients[id].inbox) + Copies(m, id, m.targets[..reached])
      {
        var target := m.targets[reached];
        assert m.targets[..reached + 1] == m.targets[..reached] + [target];
        assert m.targets[..reached + 1][..reached] == m.targets[..reached];
        if target in clients {
          var client := clients[target];
          if client == null {
            return;
          }
          client.inbox := client.inbox + [m];
        }
        reached := reached + 1;
      }
    }
  }

  // ---------- Routing is direct delivery ----------

  /** The registry in etcd: the server each online client is connected to. */
  type Registry = map<string, string>

  /** The first registered key that has the target as a prefix, in key order. */
  ghost predicate IsFirst(reg: Registry, target: string, key: string)
  {
    key in reg && target <= key && forall k :: k in reg && target <= k ==> AtMost(key, k)
  }

  /** `get` answers without errors, by prefix: `Get(target, WithPrefix())` and the first of the values found. */
  ghost predicate AnswersFor(get: string -> Answer, reg: Registry)
  {
    forall t :: get(t).Ok? &&
      match get(t).value
      case Some(server) => exists key :: IsFirst(reg, t, key) && reg[key] == server
      case None => forall key :: key in reg ==> !(t <= key)
  }

  /** A delivery, as the receiving client sees it. */
  datatype Delivery = Delivery(client: string, text: string, source: string)

  /** Delivering a message to those of its targets that are in the given set. */
  function Deliver(m: Message, connected: set<string>): multiset<Delivery>
  {
    DeliverTo(m, m.targets, connected)
  }

  function DeliverTo(m: Message, targets: seq<string>, connected: set<string>): multiset<Delivery>
  {
    if targets == [] then multiset{}
    else
      var n := |targets| - 1;
      DeliverTo(m, targets[..n], connected) +
      if targets[n] in connected then multiset{Delivery(targets[n], m.text, m.source)} else multiset{}
  }

  /** The messages a connected client receives are its deliveries. */
  lemma {:induction false} CopiesAreDeliveries(m: Message, id: string, targets: seq<string>, connected: set<string>)
    requires id in connected
    ensures |Copies(m, id, targets)| == DeliverTo(m, targets, connected)[Delivery(id, m.text, m.source)]
    ensures forall c :: c in Copies(m, id, targets) ==> c == m
  {
    if targets != [] {
      CopiesAreDeliveries(m, id, targets[..|targets| - 1], connected);
    }
  }

  function ConnectedTo(reg: Registry, server: string): set<string>
  {
    set id | id in reg && reg[id] == server
  }

  /** Delivering every part on its server, the servers taken in any order. */
  function Routed(get: string -> Answer, reg: Registry, m: Message, servers: seq<string>): multiset<Delivery>
  {
    if servers == [] then multiset{}
    else Deliver(Part(get, servers[0], m), ConnectedTo(reg, servers[0])) + Routed(get, reg, m, servers[1..])
  }

  lemma {:induction false} PrefixAtMost(a: string, b: string)
    requires a <= b
    ensures AtMost(a, b)
  {
    if a != "" {
      PrefixAtMost(a[1..], b[1..]);
      assert a == [a[0]] + a[1..] && b == [b[0]] + b[1..];
    }
  }

  /** Searching by prefix finds an online client under its own name, although longer names may match too. */
  lemma OnlineIsFound(get: string -> Answer, reg: Registry, id: string)
    requires AnswersFor(get, reg) && id in reg
    ensures get(id) == Ok(Some(reg[id]))
  {
    assert id <= id;
    if get(id).value.Some? {
      var key :| IsFirst(reg, id, key) && reg[key] == get(id).value.value;
      PrefixAtMost(id, key);
      LessTotal(id, key);
    }
  }

  /** An answer is the value of the first key with the prefix. */
  lemma AnswerIsFirst(get: string -> Answer, reg: Registry, t: string, server: string)
    requires AnswersFor(get, reg)
    ensures get(t) == Ok(Some(server)) <==> exists key :: IsFirst(reg, t, key) && reg[key] == server
  {
    if key :| IsFirst(reg, t, key) && reg[key] == server {
      assert get(t).value.Some?;
      var found :| IsFirst(reg, t, found) && reg[found] == get(t).value.value;
      LessTotal(key, found);
    }
  }

  lemma {:induction false} PlacedMembers(get: string -> Answer, server: string, targets: seq<string>, t: string)
    ensures t in PlacedOn(get, server, targets) <==> t in targets && get(t) == Ok(Some(server))
  {
    if targets != [] {
      var n := |targets| - 1;
      PlacedMembers(get, server, targets[..n], t);
      assert targets == targets[..n] + [targets[n]];
    }
  }

  /**
   When a part has a target that its server has removed, which brings the server down: exactly if the first
   key in etcd that such a target is a prefix of leads there. That may be the target's own key, since a client
   is removed before its lease is revoked, or after that the longer key of another client.
   */
  lemma RemovedTargetsPanic(get: string -> Answer, reg: Registry, m: Message, server: string, removed: set<string>)
    requires AnswersFor(get, reg)
    ensures (exists t :: t in Part(get, server, m).targets && t in removed) <==>
            (exists t, key :: t in m.targets && t in removed && IsFirst(reg, t, key) && reg[key] == server)
  {
    forall t ensures t in Part(get, server, m).targets <==> t in m.targets && get(t) == Ok(Some(server)) {
      PlacedMembers(get, server, m.targets, t);
    }
    forall t ensures get(t) == Ok(Some(server)) <==> exists key :: IsFirst(reg, t, key) && reg[key] == server {
      AnswerIsFirst(get, reg, t, server);
    }
  }

  /** Which key that is: a target that is still in etcd its own, and one that is not a longer one, if any. */
  lemma FirstKey(reg: Registry, t: string, key: string)
    requires IsFirst(reg, t, key)
    ensures if t in reg then key == t else t < key
  {
    assert t == key[..|t|] && (|t| == |key| ==> key[..|t|] == key);
    if t in reg {
      PrefixAtMost(t, key);
      LessTotal(t, key);
    }
  }

  /** So a target is in the part of the server it is registered on for as long as it is registered. */
  lemma RegisteredIsInPart(get: string -> Answer, reg: Registry, m: Message, t: string)
    requires AnswersFor(get, reg) && t in m.targets && t in reg
    ensures forall server :: t in Part(get, server, m).targets <==> server == reg[t]
  {
    OnlineIsFound(get, reg, t);
    forall server ensures t in Part(get, server, m).targets <==> server == reg[t] {
      PlacedMembers(get, server, m.targets, t);
    }
  }

  /** How many of the deliveries of a part go to a client. */
  lemma {:induction false} PartCount(get: string -> Answer, reg: Registry, m: Message, server: string,
                                     targets: seq<string>, d: Delivery)
    requires AnswersFor(get, reg)
    ensures DeliverTo(m, PlacedOn(get, server, targets), ConnectedTo(reg, server))[d] ==
            if d.client in reg && reg[d.client] == server then DeliverTo(m, targets, reg.Keys)[d] else 0
  {
    if targets != [] {
      var n := |targets| - 1;
      var t := targets[n];
      PartCount(get, reg, m, server, targets[..n], d);
      var placed := PlacedOn(get, server, targets[..n]);
      if get(t) == Ok(Some(server)) {
        assert (placed + [t])[..|placed|] == placed && (placed + [t])[|placed|] == t;
        assert PlacedOn(get, server, targets) == placed + [t];
      } else {
        assert PlacedOn(get, server, targets) == placed + [] == placed;
      }
      if t in reg { OnlineIsFound(get, reg, t); }
    }
  }

  lemma {:induction false} RoutedCount(get: string -> Answer, reg: Registry, m: Message, servers: seq<string>,
                                       d: Delivery)
    requires AnswersFor(get, reg)
    requires forall i, j :: 0 <= i < j < |servers| ==> servers[i] != servers[j]
    ensures Routed(get, reg, m, servers)[d] ==
            if d.client in reg && reg[d.client] in servers then Deliver(m, reg.Keys)[d] else 0
  {
    if servers != [] {
      RoutedCount(get, reg, m, servers[1..], d);
      PartCount(get, reg, m, servers[0], m.targets, d);
      SameTexts(Part(get, servers[0], m), m, PlacedOn(get, servers[0], m.targets), ConnectedTo(reg, servers[0]));
    }
  }

  lemma {:induction false} SameTexts(a: Message, b: Message, targets: seq<string>, connected: set<string>)
    requires a.text == b.text && a.source == b.source
    ensures DeliverTo(a, targets, connected) == DeliverTo(b, targets, connected)
  {
    if targets != [] {
      SameTexts(a, b, targets[..|targets| - 1], connected);
    }
  }

  lemma {:induction false} DeliveredAreTargets(m: Message, targets: seq<string>, connected: set<string>, d: Delivery)
    ensures DeliverTo(m, targets, connected)[d] > 0 ==> d.client in targets && d.client in connected
  {
    if targets != [] {
      DeliveredAreTargets(m, targets[..|targets| - 1], connected, d);
    }
  }

  /**
   Splitting a message by server and delivering each part on its server reaches the same clients with the
   same text and source, equally often, as delivering it directly to every online target: for every
   registry, with each server connected to exactly the clients registered for it, and for every order in
   which the parts are published.
   */
  lemma RoutingIsDirectDelivery(get: string -> Answer, reg: Registry, m: Message, servers: seq<string>)
    requires AnswersFor(get, reg)
    requires forall i, j :: 0 <= i < j < |servers| ==> servers[i] != servers[j]
    requires forall s :: s in servers <==> s in Servers(get, m.targets)
    ensures Routed(get, reg, m, servers) == Deliver(m, reg.Keys)
  {
    forall d ensures Routed(get, reg, m, servers)[d] == Deliver(m, reg.Keys)[d] {
      RoutedCount(get, reg, m, servers, d);
      DeliveredAreTargets(m, m.targets, reg.Keys, d);
      if d.client in reg { OnlineIsFound(get, reg, d.client); }
    }
  }
}
