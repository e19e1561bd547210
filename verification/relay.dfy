/**
  The server's snapshot relay: one in-memory slot holding the last snapshot any
  client sent, and the set of connected sockets. Each event is a pure step that
  returns the new server state and the deliveries it causes.
 */
module Relay {
  import opened Protocol

  /** An opaque socket id. */
  type ConnId = nat

  /** One `emit` to one socket. */
  datatype Delivery = Delivery(to: ConnId, event: string, payload: JsValue)

  /** `history` is the slot that starts out `null`; `conns` lists the connected
      sockets in connection order, each once. */
  datatype Server = Server(history: JsValue, conns: seq<ConnId>)

  /** The server state after one event, with the deliveries the event caused. */
  datatype Step = Step(server: Server, out: seq<Delivery>)

  datatype Event =
    | Connect(conn: ConnId)
    | Update(sender: ConnId, data: JsValue)
    | Disconnect(conn: ConnId)

  /** The state at process start: nothing stored, nobody connected. */
  const Boot: Server := Server(Null, [])

  predicate Distinct(xs: seq<ConnId>) {
    forall i, j :: 0 <= i < j < |xs| ==> xs[i] != xs[j]
  }

  predicate Valid(s: Server) {
    Distinct(s.conns)
  }

  /** The payloads addressed to `c`, in delivery order: what that socket receives. */
  function Inbox(ds: seq<Delivery>, c: ConnId): seq<JsValue> {
    if ds == [] then []
    else (if ds[0].to == c then [ds[0].payload] else []) + Inbox(ds[1..], c)
  }

  lemma {:induction false} InboxAppend(a: seq<Delivery>, b: seq<Delivery>, c: ConnId)
    ensures Inbox(a + b, c) == Inbox(a, c) + Inbox(b, c)
  {
    if a == [] {
      assert a + b == b;
    } else {
      var head := if a[0].to == c then [a[0].payload] else [];
      assert (a + b)[0] == a[0] && (a + b)[1..] == a[1..] + b;
      calc {
        Inbox(a + b, c);
        head + Inbox(a[1..] + b, c);
        { InboxAppend(a[1..], b, c); }
        head + (Inbox(a[1..], c) + Inbox(b, c));
        (head + Inbox(a[1..], c)) + Inbox(b, c);
      }
    }
  }

  lemma DistinctTail(xs: seq<ConnId>)
    requires xs != [] && Distinct(xs)
    ensures Distinct(xs[1..]) && xs[0] !in xs[1..]
  {
    forall k | 0 <= k < |xs[1..]|
      ensures xs[1..][k] != xs[0]
    {
      assert xs[1..][k] == xs[k + 1];
    }
  }

  /** `socket.broadcast.emit`: one delivery of `data` to every connection other
      than the sender, in connection order. */
  function Broadcast(conns: seq<ConnId>, sender: ConnId, data: JsValue): (ds: seq<Delivery>)
    ensures forall d :: d in ds ==>
      d.to in conns && d.to != sender && d.event == CanvasUpdate && d.payload == data
    ensures forall c :: c == sender || c !in conns ==> Inbox(ds, c) == []
    ensures Distinct(conns) ==>
      forall c :: Inbox(ds, c) == (if c in conns && c != sender then [data] else [])
  {
    if conns == [] then []
    else
      var rest := Broadcast(conns[1..], sender, data);
      var head := if conns[0] == sender then [] else [Delivery(conns[0], CanvasUpdate, data)];
      assert Distinct(conns) ==> Distinct(conns[1..]) && conns[0] !in conns[1..] by {
        if Distinct(conns) { DistinctTail(conns); }
      }
      assert forall c :: Inbox(head + rest, c) == Inbox(head, c) + Inbox(rest, c) by {
        forall c { InboxAppend(head, rest, c); }
      }
      head + rest
  }

  /** Removes every occurrence of `c`. */
  function Remove(conns: seq<ConnId>, c: ConnId): (r: seq<ConnId>)
    ensures forall x :: x in r <==> x in conns && x != c
    ensures Distinct(conns) ==> Distinct(r)
  {
    if conns == [] then []
    else
      var rest := Remove(conns[1..], c);
      assert Distinct(conns) ==> Distinct(conns[1..]) && conns[0] !in conns[1..] by {
        if Distinct(conns) { DistinctTail(conns); }
      }
      if conns[0] == c then rest else [conns[0]] + rest
  }

  /** A new socket connects: it joins the broadcast list and, only if the stored
      value is truthy, is replayed that value. */
  function OnConnect(s: Server, c: ConnId): (r: Step)
    ensures r.server.history == s.history
    ensures c in r.server.conns
    ensures forall x :: x in r.server.conns <==> x in s.conns || x == c
    ensures Valid(s) ==> Valid(r.server)
    ensures |r.out| == (if Truthy(s.history) then 1 else 0)
    ensures forall d :: d in r.out ==>
      d.to == c && d.event == CanvasUpdate && d.payload == s.history
  {
    var conns := if c in s.conns then s.conns else s.conns + [c];
    assert Distinct(s.conns) && c !in s.conns ==> Distinct(s.conns + [c]);
    Step(s.(conns := conns),
         if Truthy(s.history) then [Delivery(c, CanvasUpdate, s.history)] else [])
  }

  /** A `canvas-update` arrives from `sender`: the slot is overwritten with the
      payload, whatever it is, and the payload goes to everyone else. */
  function OnUpdate(s: Server, sender: ConnId, data: JsValue): (r: Step)
    ensures r.server.history == data
    ensures r.server.conns == s.conns
    ensures Inbox(r.out, sender) == []
    ensures Valid(s) ==> forall c :: c != sender ==>
      Inbox(r.out, c) == (if c in s.conns then [data] else [])
  {
    Step(s.(history := data), Broadcast(s.conns, sender, data))
  }

  /** A socket goes away. The slot is untouched and nothing is sent. */
  function OnDisconnect(s: Server, c: ConnId): (r: Step)
    ensures r.server.history == s.history
    ensures forall x :: x in r.server.conns <==> x in s.conns && x != c
    ensures Valid(s) ==> Valid(r.server)
    ensures r.out == []
  {
    Step(s.(conns := Remove(s.conns, c)), [])
  }

  function Apply(s: Server, e: Event): Step {
    match e
    case Connect(c) => OnConnect(s, c)
    case Update(c, data) => OnUpdate(s, c, data)
    case Disconnect(c) => OnDisconnect(s, c)
  }

  /** Runs a trace of events; `out` is every delivery, in order. */
  function Run(s: Server, trace: seq<Event>): (r: Step)
    ensures Valid(s) ==> Valid(r.server)
    decreases |trace|
  {
    if trace == [] then Step(s, [])
    else
      var first := Apply(s, trace[0]);
      var rest := Run(first.server, trace[1..]);
      Step(rest.server, first.out + rest.out)
  }

  /** A trace without updates leaves the slot as it was. */
  lemma {:induction false} NoUpdateKeepsHistory(s: Server, trace: seq<Event>)
    requires forall j :: 0 <= j < |trace| ==> !trace[j].Update?
    ensures Run(s, trace).server.history == s.history
    decreases |trace|
  {
    if trace != [] {
      var first := Apply(s, trace[0]);
      assert !trace[0].Update?;
      NoUpdateKeepsHistory(first.server, trace[1..]);
    }
  }

  /** Last writer wins: after any trace, the slot holds the payload of the last
      update in it, whoever sent it. */
  lemma {:induction false} LastWriterWins(s: Server, trace: seq<Event>, i: nat)
    requires i < |trace| && trace[i].Update?
    requires forall j :: i < j < |trace| ==> !trace[j].Update?
    ensures Run(s, trace).server.history == trace[i].data
    decreases |trace|
  {
    var first := Apply(s, trace[0]);
    if i == 0 {
      NoUpdateKeepsHistory(first.server, trace[1..]);
    } else {
      LastWriterWins(first.server, trace[1..], i - 1);
    }
  }

  /** Replay correctness: a socket connecting after a trace is sent exactly the
      last update's payload (when truthy), and nothing else reaches anyone. */
  lemma {:induction false} ReplayAfterTrace(trace: seq<Event>, i: nat, c: ConnId)
    requires i < |trace| && trace[i].Update?
    requires forall j :: i < j < |trace| ==> !trace[j].Update?
    ensures Truthy(trace[i].data) ==>
      OnConnect(Run(Boot, trace).server, c).out == [Delivery(c, CanvasUpdate, trace[i].data)]
    ensures !Truthy(trace[i].data) ==> OnConnect(Run(Boot, trace).server, c).out == []
  {
    LastWriterWins(Boot, trace, i);
  }

  /** A socket connecting before anything was ever sent receives nothing. */
  lemma {:induction false} ReplayNothingBeforeFirstUpdate(trace: seq<Event>, c: ConnId)
    requires forall j :: 0 <= j < |trace| ==> !trace[j].Update?
    ensures OnConnect(Run(Boot, trace).server, c).out == []
  {
    NoUpdateKeepsHistory(Boot, trace);
  }

  /** The payloads of the updates in `trace` not sent by `c`, in order. */
  function UpdatesFor(trace: seq<Event>, c: ConnId): seq<JsValue> {
    if trace == [] then []
    else
      (if trace[0].Update? && trace[0].sender != c then [trace[0].data] else [])
      + UpdatesFor(trace[1..], c)
  }

  /** Per-connection ordering: as long as `c` itself neither connects again nor
      leaves, it stays connected and receives every other socket's update
      exactly once, in the order the server received them, and none of its own.
      Other sockets joining or leaving send it nothing. */
  lemma {:induction false} UpdatesArriveInOrder(s: Server, trace: seq<Event>, c: ConnId)
    requires Valid(s) && c in s.conns
    requires forall j :: 0 <= j < |trace| ==> trace[j] != Connect(c) && trace[j] != Disconnect(c)
    ensures c in Run(s, trace).server.conns
    ensures Inbox(Run(s, trace).out, c) == UpdatesFor(trace, c)
    decreases |trace|
  {
    if trace != [] {
      var first := Apply(s, trace[0]);
      assert trace[0] != Connect(c) && trace[0] != Disconnect(c);
      var now := if trace[0].Update? && trace[0].sender != c then [trace[0].data] else [];
      assert Inbox(first.out, c) == now by {
        match trace[0]
        case Connect(x) =>
          if Truthy(s.history) {
            assert first.out == [Delivery(x, CanvasUpdate, s.history)];
          }
        case Update(x, data) =>
        case Disconnect(x) =>
      }
      assert c in first.server.conns && Valid(first.server);
      UpdatesArriveInOrder(first.server, trace[1..], c);
      InboxAppend(first.out, Run(first.server, trace[1..]).out, c);
    }
  }

  /** The deliveries of `ds` not addressed to `c`. */
  function DropTo(ds: seq<Delivery>, c: ConnId): seq<Delivery> {
    if ds == [] then []
    else (if ds[0].to == c then [] else [ds[0]]) + DropTo(ds[1..], c)
  }

  /** Disconnect isolation: after `gone` leaves, an update reaches the remaining
      sockets exactly as before, in the same order; only `gone`'s copy is missing. */
  lemma {:induction false} DisconnectIsolation(s: Server, gone: ConnId, sender: ConnId, data: JsValue)
    ensures OnUpdate(OnDisconnect(s, gone).server, sender, data).out
         == DropTo(OnUpdate(s, sender, data).out, gone)
  {
    BroadcastWithout(s.conns, gone, sender, data);
  }

  lemma {:induction false} BroadcastWithout(conns: seq<ConnId>, gone: ConnId, sender: ConnId, data: JsValue)
    ensures Broadcast(Remove(conns, gone), sender, data) == DropTo(Broadcast(conns, sender, data), gone)
  {
    if conns != [] {
      var x := conns[0];
      var tail := Remove(conns[1..], gone);
      var rest := Broadcast(conns[1..], sender, data);
      BroadcastWithout(conns[1..], gone, sender, data);
      if x == sender {
        assert Broadcast(conns, sender, data) == rest;
        if x != gone {
          assert ([x] + tail)[0] == x && ([x] + tail)[1..] == tail;
        }
      } else {
        var d := Delivery(x, CanvasUpdate, data);
        assert Broadcast(conns, sender, data) == [d] + rest;
        assert ([d] + rest)[0] == d && ([d] + rest)[1..] == rest;
        if x != gone {
          assert ([x] + tail)[0] == x && ([x] + tail)[1..] == tail;
        }
      }
    }
  }
}
