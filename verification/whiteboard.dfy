/**
  The server and its browser sessions together: a local edit travels from one
  session through the relay to every other session, which applies it as a
  remote update.
 */
module Whiteboard {
  import opened Protocol
  import Relay
  import Session

  /** The relay and the session behind each socket id. */
  datatype System = System(server: Relay.Server, clients: map<Relay.ConnId, Session.Client>)

  /** The sessions after applying deliveries, and what applying them emitted. */
  datatype Applied = Applied(clients: map<Relay.ConnId, Session.Client>, echoes: seq<Session.Emit>)

  /** The whole system after an interaction, and what the sessions emitted while
      applying the snapshots it delivered. */
  datatype Round = Round(system: System, echoes: seq<Session.Emit>)

  function Last(xs: seq<JsValue>): JsValue
    requires xs != []
  {
    xs[|xs| - 1]
  }

  /** One delivery reaches its recipient's `canvas-update` listener, whose load
      ends with `outcome` (with `hooks` change events fired during it). A session
      with no canvas has no listener yet, and the delivery is lost. */
  function DeliverOne(clients: map<Relay.ConnId, Session.Client>, d: Relay.Delivery, hooks: nat,
                      outcome: Session.LoadOutcome): (r: Applied)
    ensures r.echoes == []
    ensures r.clients.Keys == clients.Keys
    ensures forall c :: c in clients && c != d.to ==> r.clients[c] == clients[c]
    ensures d.to in clients && clients[d.to].canvas.None? ==> r.clients[d.to] == clients[d.to]
    ensures d.to in clients && clients[d.to].canvas.Some? ==>
      && r.clients[d.to].canvas.Some?
      && r.clients[d.to].canvas.value.content == (if outcome.Loaded? then d.payload else outcome.partial)
    ensures d.to in clients && clients[d.to].canvas.Some? && outcome.Loaded? ==>
      Session.Synced(r.clients[d.to])
    ensures forall c :: c in clients && Session.Inv(clients[c]) ==> Session.Inv(r.clients[c])
  {
    if d.to in clients then
      var reaction := Session.HandleRemoteUpdate(clients[d.to], d.payload, hooks, outcome);
      assert Session.Inv(clients[d.to]) ==> Session.Inv(reaction.client) by {
        if Session.Inv(clients[d.to]) {
          Session.InvStep(clients[d.to], Session.Receive(d.payload, hooks, outcome));
        }
      }
      Applied(clients[d.to := reaction.client], reaction.emits)
    else
      Applied(clients, [])
  }

  /** Every delivery, in order, applied by its recipient, each load succeeding:
      what each mounted session ends up showing is the last payload addressed to
      it, and sessions with no canvas are untouched. */
  function Deliver(clients: map<Relay.ConnId, Session.Client>, ds: seq<Relay.Delivery>, hooks: nat): (r: Applied)
    ensures r.echoes == []
    ensures r.clients.Keys == clients.Keys
    ensures forall c :: c in clients && Relay.Inbox(ds, c) == [] ==> r.clients[c] == clients[c]
    ensures forall c :: c in clients && clients[c].canvas.None? ==> r.clients[c] == clients[c]
    ensures forall c :: c in clients && clients[c].canvas.Some? && Relay.Inbox(ds, c) != [] ==>
      && r.clients[c].canvas.Some?
      && r.clients[c].canvas.value.content == Last(Relay.Inbox(ds, c))
      && Session.Synced(r.clients[c])
    ensures forall c :: c in clients && Session.Inv(clients[c]) ==> Session.Inv(r.clients[c])
  {
    if ds == [] then Applied(clients, [])
    else
      var here := DeliverOne(clients, ds[0], hooks, Session.Loaded);
      var rest := Deliver(here.clients, ds[1..], hooks);
      assert forall c :: c in clients && clients[c].canvas.Some? && Relay.Inbox(ds, c) != [] ==>
        && rest.clients[c].canvas.Some?
        && rest.clients[c].canvas.value.content == Last(Relay.Inbox(ds, c))
        && Session.Synced(rest.clients[c])
      by {
        forall c | c in clients && clients[c].canvas.Some? && Relay.Inbox(ds, c) != []
          ensures rest.clients[c].canvas.Some?
          ensures rest.clients[c].canvas.value.content == Last(Relay.Inbox(ds, c))
          ensures Session.Synced(rest.clients[c])
        {
          var head := if ds[0].to == c then [ds[0].payload] else [];
          var later := Relay.Inbox(ds[1..], c);
          assert Relay.Inbox(ds, c) == head + later;
          if later == [] {
            assert ds[0].to == c;
            assert rest.clients[c] == here.clients[c];
          } else {
            assert Last(head + later) == Last(later);
          }
        }
      }
      assert forall c :: c in clients && Relay.Inbox(ds, c) == [] ==> rest.clients[c] == clients[c] by {
        forall c | c in clients && Relay.Inbox(ds, c) == []
          ensures rest.clients[c] == clients[c]
        {
          assert ds[0].to != c && Relay.Inbox(ds[1..], c) == [];
        }
      }
      assert forall c :: c in clients && clients[c].canvas.None? ==> rest.clients[c] == clients[c] by {
        forall c | c in clients && clients[c].canvas.None?
          ensures rest.clients[c] == clients[c]
        {
          assert here.clients[c] == clients[c];
        }
      }
      Applied(rest.clients, here.echoes + rest.echoes)
  }

  /** Sends a client's emits to the relay as `canvas-update`s from `from`, and
      applies what the relay delivers. */
  function Upload(sys: System, from: Relay.ConnId, emits: seq<Session.Emit>, hooks: nat): Round
    decreases |emits|
  {
    if emits == [] then Round(sys, [])
    else
      var step := Relay.OnUpdate(sys.server, from, emits[0].payload);
      var applied := Deliver(sys.clients, step.out, hooks);
      var rest := Upload(System(step.server, applied.clients), from, emits[1..], hooks);
      Round(rest.system, applied.echoes + rest.echoes)
  }

  /** A user edits their canvas: the session reacts, and its emits go round. */
  function LocalEdit(sys: System, from: Relay.ConnId, scene: JsValue, hooks: nat): Round
    requires from in sys.clients
  {
    var local := Session.LocalChange(sys.clients[from], scene);
    Upload(sys.(clients := sys.clients[from := local.client]), from, local.emits, hooks)
  }

  /** Every connected socket has a session, mounted or not, in a consistent state. */
  predicate Ready(sys: System) {
    && Relay.Valid(sys.server)
    && (forall c :: c in sys.server.conns ==> c in sys.clients && Session.Inv(sys.clients[c]))
  }

  lemma UploadOne(sys: System, from: Relay.ConnId, e: Session.Emit, hooks: nat)
    ensures var step := Relay.OnUpdate(sys.server, from, e.payload);
      var applied := Deliver(sys.clients, step.out, hooks);
      Upload(sys, from, [e], hooks) == Round(System(step.server, applied.clients), applied.echoes)
  {
    var step := Relay.OnUpdate(sys.server, from, e.payload);
    var applied := Deliver(sys.clients, step.out, hooks);
    var done := System(step.server, applied.clients);
    assert [e][1..] == [];
    assert Upload(done, from, [], hooks) == Round(done, []);
    assert applied.echoes + [] == applied.echoes;
  }

  /** Convergence: after one local edit on a mounted canvas, with every load
      succeeding, the relay stores the new scene, every connected session with
      a canvas shows it, sessions
      not mounted yet are untouched, all sessions are still consistent, and
      applying it emitted nothing, so no echo round follows. An edit on a
      session with no canvas changes nothing. */
  lemma EditConverges(sys: System, from: Relay.ConnId, scene: JsValue, hooks: nat)
    requires Ready(sys) && from in sys.server.conns
    ensures var r := LocalEdit(sys, from, scene, hooks);
      && r.echoes == []
      && r.system.server.conns == sys.server.conns
      && Ready(r.system)
      && (sys.clients[from].canvas.None? ==> r.system == sys)
      && (sys.clients[from].canvas.Some? ==> r.system.server.history == scene)
      && (forall c :: c in sys.server.conns && sys.clients[from].canvas.Some? && sys.clients[c].canvas.Some? ==>
            r.system.clients[c].canvas.Some? && r.system.clients[c].canvas.value.content == scene)
      && (forall c :: c in sys.server.conns && sys.clients[c].canvas.None? ==>
            r.system.clients[c] == sys.clients[c])
  {
    if sys.clients[from].canvas.None? {
      assert sys.clients[from := Session.LocalChange(sys.clients[from], scene).client] == sys.clients;
      assert LocalEdit(sys, from, scene, hooks) == Round(sys, []);
    } else {
      EditMounted(sys, from, scene, hooks);
    }
  }

  /** The mounted case of `EditConverges`, worked out on the round the edit
      actually runs. */
  lemma EditMounted(sys: System, from: Relay.ConnId, scene: JsValue, hooks: nat)
    requires Ready(sys) && from in sys.server.conns && sys.clients[from].canvas.Some?
    ensures var r := LocalEdit(sys, from, scene, hooks);
      && r.echoes == []
      && r.system.server.conns == sys.server.conns
      && r.system.server.history == scene
      && Ready(r.system)
      && (forall c :: c in sys.server.conns && sys.clients[c].canvas.Some? ==>
            r.system.clients[c].canvas.Some? && r.system.clients[c].canvas.value.content == scene)
      && (forall c :: c in sys.server.conns && sys.clients[c].canvas.None? ==>
            r.system.clients[c] == sys.clients[c])
  {
    var before := sys.clients[from];
    var local := Session.LocalChange(before, scene);
    assert local.emits == [Session.Emit(CanvasUpdate, scene)];
    var mid := sys.(clients := sys.clients[from := local.client]);
    assert Session.Inv(local.client) by {
      Session.InvStep(before, Session.Edit(scene));
    }
    assert Ready(mid);
    RelayScene(mid, from, scene, hooks);
    var r := Upload(mid, from, local.emits, hooks);
    assert LocalEdit(sys, from, scene, hooks) == r;
    forall c | c in sys.server.conns && sys.clients[c].canvas.Some?
      ensures r.system.clients[c].canvas.Some? && r.system.clients[c].canvas.value.content == scene
    {
      if c == from {
        assert r.system.clients[c] == local.client;
      } else {
        assert mid.clients[c] == sys.clients[c];
      }
    }
    forall c | c in sys.server.conns && sys.clients[c].canvas.None?
      ensures r.system.clients[c] == sys.clients[c]
    {
      assert c != from && mid.clients[c] == sys.clients[c];
    }
  }

  /** One uploaded scene goes round, every load succeeding: the relay stores it
      and every other connected session with a canvas shows it, while the sender and the
      sessions with no canvas are left as they were. */
  lemma RelayScene(sys: System, from: Relay.ConnId, scene: JsValue, hooks: nat)
    requires Ready(sys) && from in sys.server.conns
    ensures var r := Upload(sys, from, [Session.Emit(CanvasUpdate, scene)], hooks);
      && r.echoes == []
      && r.system.server.conns == sys.server.conns
      && r.system.server.history == scene
      && Ready(r.system)
      && (forall c :: c in sys.server.conns && c != from && sys.clients[c].canvas.Some? ==>
            r.system.clients[c].canvas.Some? && r.system.clients[c].canvas.value.content == scene)
      && (forall c :: c in sys.server.conns && (c == from || sys.clients[c].canvas.None?) ==>
            r.system.clients[c] == sys.clients[c])
  {
    var step := Relay.OnUpdate(sys.server, from, scene);
    var applied := Deliver(sys.clients, step.out, hooks);
    UploadOne(sys, from, Session.Emit(CanvasUpdate, scene), hooks);
    assert Relay.Inbox(step.out, from) == [];
    forall c | c in sys.server.conns && c != from && sys.clients[c].canvas.Some?
      ensures applied.clients[c].canvas.Some? && applied.clients[c].canvas.value.content == scene
    {
      assert Relay.Inbox(step.out, c) == [scene];
    }
  }

  // ---------------------------------------------------------------------------
  // Joining

  /** A browser session joining in the interleaving where the replay arrives
      before the canvas is mounted. The socket connects when the module loads,
      before the canvas is mounted and so before the `canvas-update` listener
      is subscribed. The replay reaches a session with no listener, and the
      canvas is mounted afterwards. */
  function Join(sys: System, c: Relay.ConnId, hooks: nat): (r: Round)
    ensures r.echoes == []
    ensures r.system.server.history == sys.server.history
    ensures c in r.system.server.conns
    ensures c in r.system.clients && r.system.clients[c] == Session.Mount(Session.Unmounted)
    ensures r.system.clients[c].canvas.value.content == Session.BlankScene
  {
    var step := Relay.OnConnect(sys.server, c);
    var applied := Deliver(sys.clients[c := Session.Unmounted], step.out, hooks);
    Round(System(step.server, applied.clients[c := Session.Mount(applied.clients[c])]), applied.echoes)
  }

  /** The replay is lost: although the server sends the stored scene to the
      newcomer, the newcomer ends up showing a blank canvas. */
  lemma JoinLosesReplay(sys: System, c: Relay.ConnId, hooks: nat)
    requires Truthy(sys.server.history) && sys.server.history != Session.BlankScene
    ensures Relay.Inbox(Relay.OnConnect(sys.server, c).out, c) == [sys.server.history]
    ensures Join(sys, c, hooks).system.clients[c].canvas.value.content != sys.server.history
  {
    assert Relay.OnConnect(sys.server, c).out == [Relay.Delivery(c, CanvasUpdate, sys.server.history)];
  }

  /** A browser session joining with its canvas mounted and its listener
      subscribed before the socket connects, so the replay is applied. */
  function JoinAfterMount(sys: System, c: Relay.ConnId, hooks: nat): (r: Round)
  {
    var step := Relay.OnConnect(sys.server, c);
    var applied := Deliver(sys.clients[c := Session.Mount(Session.Unmounted)], step.out, hooks);
    Round(System(step.server, applied.clients), applied.echoes)
  }

  /** Joining after mounting, the newcomer shows the stored scene when there is
      a truthy one and a blank canvas otherwise; nobody else is affected,
      nothing is emitted, and a system of consistent sessions stays so. */
  lemma JoinShowsHistory(sys: System, c: Relay.ConnId, hooks: nat)
    requires c !in sys.server.conns
    ensures var r := JoinAfterMount(sys, c, hooks);
      && r.echoes == []
      && r.system.server.history == sys.server.history
      && r.system.server.conns == sys.server.conns + [c]
      && c in r.system.clients
      && r.system.clients[c].canvas.Some?
      && r.system.clients[c].canvas.value.content
           == (if Truthy(sys.server.history) then sys.server.history else Session.BlankScene)
      && (forall x :: x in sys.clients && x != c ==> r.system.clients[x] == sys.clients[x])
      && (Ready(sys) ==> Ready(r.system))
  {
    var newcomer := Session.Mount(Session.Unmounted);
    Session.InvUnmounted();
    Session.InvStep(Session.Unmounted, Session.MountCanvas);
    var step := Relay.OnConnect(sys.server, c);
    assert step.out == (if Truthy(sys.server.history) then [Relay.Delivery(c, CanvasUpdate, sys.server.history)] else []);
    forall x | x != c
      ensures Relay.Inbox(step.out, x) == []
    {
    }
  }
}
