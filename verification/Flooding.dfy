/** A network of relays: frames are delivered in any order, may be lost with a connection,
    and nodes publish at any time. */
module Flooding {
  import opened Chain
  import opened Gossip
  import Sets
  import Text

  // ----------------------------------------------------------------------- the graph

  /** A connection of a node: the node at the other end, and the key under which that
      node files it. */
  datatype Conn = Conn(peer: nat, key: string)

  datatype Graph = Graph(names: seq<string>, conns: seq<map<string, Conn>>)

  ghost predicate WellFormed(g: Graph) {
    && |g.names| == |g.conns|
    && Text.Distinct(g.names)
    && (forall i, k {:trigger TwoWay(g, i, k)} :: 0 <= i < |g.conns| && k in g.conns[i] ==> TwoWay(g, i, k))
  }

  predicate TwoWay(g: Graph, i: nat, k: string)
    requires i < |g.conns| && k in g.conns[i]
  {
    var c := g.conns[i][k];
    c.peer < |g.conns| && c.key in g.conns[c.peer] && g.conns[c.peer][c.key] == Conn(i, k)
  }

  /** No node has more connections than this. */
  ghost predicate Degree(g: Graph, d: nat) { forall i :: 0 <= i < |g.conns| ==> |g.conns[i]| <= d }

  // ------------------------------------------------------------------------ the state

  /** A frame on its way, filed at the receiver under `key`. */
  datatype Packet = Packet(to: nat, key: string, frame: Frame)

  /** Who delivered which message. */
  datatype Entry = Entry(node: nat, id: string)

  datatype Net = Net(windows: seq<seq<string>>, published: seq<set<string>>, flight: multiset<Packet>, log: seq<Entry>)

  ghost function Sends(g: Graph, i: nat, f: Frame, skip: Option<string>): set<Packet>
    requires i < |g.conns|
  { set k | k in g.conns[i] && skip != Some(k) :: Packet(g.conns[i][k].peer, g.conns[i][k].key, f) }

  datatype Move =
    | Publish(node: nat, id: string, topic: string, payload: string)
    | Deliver(packet: Packet)
    | Lose(packet: Packet)

  function MadeBy(g: Graph, m: Move): Frame
    requires m.Publish? && m.node < |g.names|
  { Frame(Some(g.names[m.node]), Some(m.id), Some(m.topic), m.payload) }

  /** What a move needs: a node to publish an id never used before, or a frame in flight. */
  ghost predicate Enabled(g: Graph, s: Net, m: Move) {
    match m
    case Publish(i, id, _, _) => i < |s.published| && forall j :: 0 <= j < |s.published| ==> id !in s.published[j]
    case Deliver(p) => p in s.flight
    case Lose(p) => p in s.flight
  }

  ghost predicate Shaped(g: Graph, s: Net) {
    |s.windows| == |s.published| == |g.names| == |g.conns|
  }

  ghost function Received(g: Graph, s: Net, p: Packet): Net
    requires Shaped(g, s) && p.to < |g.names|
  {
    var rest := s.(flight := s.flight - multiset{p});
    match Handle(g.names[p.to], s.windows[p.to], p.frame)
    case OwnFrame => rest
    case Known => rest
    case Untopical(noted) => rest.(windows := s.windows[p.to := noted])
    case Fresh(noted) =>
      rest.(windows := s.windows[p.to := noted],
            flight := rest.flight + multiset(Sends(g, p.to, p.frame, Some(p.key))),
            log := if p.frame.id.Some? then s.log + [Entry(p.to, p.frame.id.value)] else s.log)
  }

  ghost function Next(g: Graph, s: Net, m: Move): Net
    requires Shaped(g, s) && Enabled(g, s, m)
  {
    match m
    case Publish(i, id, _, _) =>
      s.(published := s.published[i := s.published[i] + {id}],
         flight := s.flight + multiset(Sends(g, i, MadeBy(g, m), None)),
         log := s.log + [Entry(i, id)])
    case Deliver(p) => if p.to < |g.names| then Received(g, s, p) else s.(flight := s.flight - multiset{p})
    case Lose(p) => s.(flight := s.flight - multiset{p})
  }

  // -------------------------------------------------------------------- the invariant

  /** The node has published or let in the message. */
  ghost predicate Has(s: Net, i: nat, id: string)
    requires i < |s.windows| == |s.published|
  { id in s.published[i] || id in s.windows[i] }

  /** The frame came over a real connection from a node that has it, bears an id its
      origin published, and has a topic. */
  ghost predicate ProperPacket(g: Graph, s: Net, p: Packet)
    requires Shaped(g, s)
  {
    && p.to < |g.names| && p.key in g.conns[p.to] && g.conns[p.to][p.key].peer < |g.names|
    && p.frame.id.Some? && p.frame.topic.Some? && p.frame.origin.Some?
    && Has(s, g.conns[p.to][p.key].peer, p.frame.id.value)
    && MadeAt(g, s, p.frame)
  }

  ghost predicate MadeAt(g: Graph, s: Net, f: Frame)
    requires Shaped(g, s) && f.id.Some? && f.origin.Some?
  { exists o :: 0 <= o < |g.names| && g.names[o] == f.origin.value && f.id.value in s.published[o] }

  ghost predicate Proper(g: Graph, s: Net)
    requires Shaped(g, s)
  {
    && (forall p :: p in s.flight ==> ProperPacket(g, s, p))
    && (forall i :: 0 <= i < |s.windows| ==> Text.Distinct(s.windows[i]))
  }

  ghost predicate OnlyHad(s: Net) {
    |s.windows| == |s.published| && forall e :: e in s.log ==> e.node < |s.windows| && Has(s, e.node, e.id)
  }

  ghost predicate AllHad(s: Net) {
    |s.windows| == |s.published| && forall i, id :: 0 <= i < |s.windows| && Has(s, i, id) ==> Entry(i, id) in s.log
  }

  ghost predicate OnePublisher(published: seq<set<string>>) {
    forall i, j, id :: 0 <= i < |published| && 0 <= j < |published| && id in published[i] && id in published[j] ==> i == j
  }

  /** Whatever a node has, some node published. */
  ghost predicate Sourced(s: Net) {
    forall i, id :: 0 <= i < |s.windows| && id in s.windows[i] ==> Somewhere(s.published, id)
  }

  ghost predicate Somewhere(published: seq<set<string>>, id: string) {
    exists o :: 0 <= o < |published| && id in published[o]
  }

  /** Everything recorded was had, everything had is recorded, nothing twice; an id has one
      publisher, and only published ids are about. */
  ghost predicate Recorded(s: Net) { Text.Distinct(s.log) && OnlyHad(s) && AllHad(s) && OnePublisher(s.published) && Sourced(s) }

  ghost predicate Inside(s: Net, ids: set<string>) {
    && (forall i :: 0 <= i < |s.windows| ==> Text.Elements(s.windows[i]) <= ids)
    && (forall i :: 0 <= i < |s.published| ==> s.published[i] <= ids)
  }

  ghost predicate Inv(g: Graph, s: Net, ids: set<string>) {
    Shaped(g, s) && Proper(g, s) && Recorded(s) && Inside(s, ids)
  }

  lemma {:induction false} DistinctFits(order: seq<string>, ids: set<string>)
    requires Text.Distinct(order) && Text.Elements(order) <= ids
    ensures |order| <= |ids|
  {
    if order == [] {
    } else {
      var last := order[|order| - 1];
      var front := order[..|order| - 1];
      assert last in Text.Elements(order);
      assert forall x :: x in front ==> x in order;
      DistinctFits(front, ids - {last});
    }
  }

  /** With at most 4096 ids about, nothing is ever forgotten. */
  lemma NoteAppends(order: seq<string>, id: string, ids: set<string>)
    requires Text.Distinct(order) && Text.Elements(order) <= ids && id in ids && id !in order && |ids| <= LOOP_WINDOW
    ensures Note(order, id) == order + [id] && Text.Distinct(order + [id]) && Text.Elements(order + [id]) == Text.Elements(order) + {id}
  {
    DistinctFits(order + [id], ids);
  }

  /** A frame let in is new to the node in every sense. */
  lemma FreshIsNew(g: Graph, s: Net, ids: set<string>, p: Packet)
    requires WellFormed(g) && Inv(g, s, ids) && p in s.flight
    requires Handle(g.names[p.to], s.windows[p.to], p.frame).Fresh?
    ensures p.to < |g.names| && p.frame.id.Some? && !Has(s, p.to, p.frame.id.value) && p.frame.id.value in ids
  {
    hide TwoWay, Text.Distinct, OnlyHad, AllHad, Sourced, Note;
    assert ProperPacket(g, s, p);
    var id := p.frame.id.value;
    var o :| 0 <= o < |g.names| && g.names[o] == p.frame.origin.value && id in s.published[o];
  }

  /** Any frame in flight is the node's own, known, or let in. */
  lemma HandleKinds(g: Graph, s: Net, ids: set<string>, p: Packet)
    requires WellFormed(g) && Inv(g, s, ids) && p in s.flight
    ensures ProperPacket(g, s, p) && !Handle(g.names[p.to], s.windows[p.to], p.frame).Untopical?
    ensures Handle(g.names[p.to], s.windows[p.to], p.frame).OwnFrame? ==> p.frame.id.value in s.published[p.to]
  {
    hide TwoWay, Inside, Recorded, Note;
    assert ProperPacket(g, s, p);
    var o :| 0 <= o < |g.names| && g.names[o] == p.frame.origin.value && p.frame.id.value in s.published[o];
  }

  // -------------------------------------------------------------------- keeping it

  /** Nodes only come to have more. */
  ghost predicate Grew(s: Net, t: Net) {
    && |s.windows| == |t.windows| && |s.published| == |t.published|
    && (forall i, x :: 0 <= i < |s.windows| && x in s.windows[i] ==> x in t.windows[i])
    && (forall i, x :: 0 <= i < |s.published| && x in s.published[i] ==> x in t.published[i])
  }

  lemma MadeStays(g: Graph, s: Net, t: Net, f: Frame)
    requires Shaped(g, s) && Shaped(g, t) && Grew(s, t) && f.id.Some? && f.origin.Some? && MadeAt(g, s, f)
    ensures MadeAt(g, t, f)
  {
    var o :| 0 <= o < |g.names| && g.names[o] == f.origin.value && f.id.value in s.published[o];
    assert f.id.value in t.published[o];
  }

  lemma PacketStays(g: Graph, s: Net, t: Net, p: Packet)
    requires Shaped(g, s) && Shaped(g, t) && Grew(s, t) && ProperPacket(g, s, p)
    ensures ProperPacket(g, t, p)
  {
    hide MadeAt;
    MadeStays(g, s, t, p.frame);
  }

  lemma SentProper(g: Graph, t: Net, i: nat, f: Frame, skip: Option<string>, p: Packet)
    requires WellFormed(g) && Shaped(g, t) && i < |g.conns| && p in Sends(g, i, f, skip)
    requires f.id.Some? && f.origin.Some? && f.topic.Some? && Has(t, i, f.id.value) && MadeAt(g, t, f)
    ensures ProperPacket(g, t, p)
  {
    hide MadeAt, Has;
    var k :| k in g.conns[i] && skip != Some(k) && p == Packet(g.conns[i][k].peer, g.conns[i][k].key, f);
    assert TwoWay(g, i, k);
  }

  lemma FlightProper(g: Graph, s: Net, t: Net, i: nat, f: Frame, skip: Option<string>)
    requires WellFormed(g) && Shaped(g, s) && Proper(g, s) && Shaped(g, t) && Grew(s, t) && i < |g.conns|
    requires f.id.Some? && f.origin.Some? && f.topic.Some? && Has(t, i, f.id.value) && MadeAt(g, t, f)
    requires forall p :: p in t.flight ==> p in s.flight || p in Sends(g, i, f, skip)
    ensures forall p :: p in t.flight ==> ProperPacket(g, t, p)
  {
    hide WellFormed, Shaped, ProperPacket, MadeAt, Has, Sends, Grew;
    forall p | p in t.flight ensures ProperPacket(g, t, p) {
      if p in s.flight { PacketStays(g, s, t, p); } else { SentProper(g, t, i, f, skip, p); }
    }
  }

  /** One more entry, for something the node did not have. */
  lemma RecordOne(s: Net, t: Net, i: nat, id: string)
    requires Text.Distinct(s.log) && OnlyHad(s) && AllHad(s) && Grew(s, t) && i < |s.windows| && |t.windows| == |t.published|
    requires !Has(s, i, id) && Has(t, i, id) && t.log == s.log + [Entry(i, id)]
    requires forall j, x :: 0 <= j < |s.windows| && Has(t, j, x) ==> Has(s, j, x) || (j == i && x == id)
    ensures Text.Distinct(t.log) && OnlyHad(t) && AllHad(t)
  {
    assert forall e :: e in t.log <==> e in s.log || e == Entry(i, id);
    assert Entry(i, id) !in s.log;
  }

  lemma PublishInv(g: Graph, s: Net, m: Move, ids: set<string>)
    requires WellFormed(g) && Inv(g, s, ids) && m.Publish? && Enabled(g, s, m) && m.id in ids
    ensures Inv(g, Next(g, s, m), ids)
  {
    hide TwoWay, Text.Distinct, OnlyHad, AllHad, ProperPacket, Sends;
    var t := Next(g, s, m);
    var i, id := m.node, m.id;
    var f := MadeBy(g, m);
    assert MadeAt(g, t, f) by { assert g.names[i] == f.origin.value && id in t.published[i]; }
    FlightProper(g, s, t, i, f, None);
    SourcedStays(s, t);
    NotHad(s, i, id);
    RecordOne(s, t, i, id);
  }

  lemma SourcedStays(s: Net, t: Net)
    requires Sourced(s) && Grew(s, t) && |s.windows| == |t.windows|
    ensures forall i, id :: 0 <= i < |s.windows| && id in s.windows[i] ==> Somewhere(t.published, id)
  {
    forall i, id | 0 <= i < |s.windows| && id in s.windows[i] ensures Somewhere(t.published, id) {
      assert Somewhere(s.published, id);
      var o :| 0 <= o < |s.published| && id in s.published[o];
      assert id in t.published[o];
    }
  }

  lemma NotHad(s: Net, i: nat, id: string)
    requires Sourced(s) && |s.windows| == |s.published| && i < |s.windows|
    requires forall j :: 0 <= j < |s.published| ==> id !in s.published[j]
    ensures !Has(s, i, id)
  {
    assert !Somewhere(s.published, id);
  }

  lemma FewerInv(g: Graph, s: Net, t: Net, ids: set<string>)
    requires Inv(g, s, ids) && t == s.(flight := t.flight) && t.flight <= s.flight
    ensures Inv(g, t, ids)
  {
    hide Text.Distinct, OnlyHad, AllHad, OnePublisher, Sourced, Inside;
    assert Grew(s, t);
    forall p | p in t.flight ensures ProperPacket(g, t, p) { PacketStays(g, s, t, p); }
    assert OnlyHad(t) by { SameRecord(s, t); }
    SameRecord(s, t);
  }

  lemma SameRecord(s: Net, t: Net)
    requires Recorded(s) && t == s.(flight := t.flight)
    ensures Recorded(t)
    ensures forall ids :: Inside(s, ids) ==> Inside(t, ids)
  {
    assert forall i, id :: 0 <= i < |s.windows| == |s.published| ==> Has(s, i, id) == Has(t, i, id);
  }

  lemma FreshStep(g: Graph, s: Net, p: Packet, ids: set<string>)
    requires WellFormed(g) && Inv(g, s, ids) && p in s.flight && |ids| <= LOOP_WINDOW
    requires p.to < |g.names| && Handle(g.names[p.to], s.windows[p.to], p.frame).Fresh?
    ensures Inv(g, Received(g, s, p), ids)
    ensures p.frame.id.Some? && Received(g, s, p).windows == s.windows[p.to := s.windows[p.to] + [p.frame.id.value]]
  {
    hide WellFormed, Text.Distinct, OnlyHad, AllHad, OnePublisher, Sourced, Sends, Note, MadeAt, Has, Grew, Text.Elements;
    var t := Received(g, s, p);
    FreshIsNew(g, s, ids, p);
    var i, id := p.to, p.frame.id.value;
    NoteAppends(s.windows[i], id, ids);
    assert ProperPacket(g, s, p);
    assert Inside(t, ids);
    FreshWindows(s, t, i, id);
    MadeStays(g, s, t, p.frame);
    FlightProper(g, s, t, i, p.frame, Some(p.key));
    RecordOne(s, t, i, id);
    FreshSourced(g, s, t, p);
  }

  lemma FreshWindows(s: Net, t: Net, i: nat, id: string)
    requires |s.windows| == |s.published| && i < |s.windows| && t.published == s.published
    requires t.windows == s.windows[i := s.windows[i] + [id]]
    ensures Grew(s, t) && Has(t, i, id)
    ensures forall j, x :: 0 <= j < |s.windows| && Has(t, j, x) ==> Has(s, j, x) || (j == i && x == id)
  {
    assert id in t.windows[i];
  }

  lemma FreshSourced(g: Graph, s: Net, t: Net, p: Packet)
    requires Shaped(g, s) && Sourced(s) && ProperPacket(g, s, p) && t.published == s.published
    requires t.windows == s.windows[p.to := s.windows[p.to] + [p.frame.id.value]]
    ensures Sourced(t)
  {
    var o :| 0 <= o < |g.names| && g.names[o] == p.frame.origin.value && p.frame.id.value in s.published[o];
    assert Somewhere(s.published, p.frame.id.value);
  }

  /** The invariant holds after every move while at most 4096 ids are about. */
  lemma NextInv(g: Graph, s: Net, m: Move, ids: set<string>)
    requires WellFormed(g) && Inv(g, s, ids) && Enabled(g, s, m) && |ids| <= LOOP_WINDOW && (m.Publish? ==> m.id in ids)
    ensures Inv(g, Next(g, s, m), ids)
  {
    hide WellFormed, Recorded, Inside, Sends, Note, ProperPacket;
    if m.Publish? {
      PublishInv(g, s, m, ids);
    } else if m.Deliver? && m.packet.to < |g.names| && Handle(g.names[m.packet.to], s.windows[m.packet.to], m.packet.frame).Fresh? {
      FreshStep(g, s, m.packet, ids);
    } else {
      if m.Deliver? { HandleKinds(g, s, ids, m.packet); }
      FewerInv(g, s, Next(g, s, m), ids);
    }
  }

  // ------------------------------------------------------------------- termination

  /** How many admissions the nodes from `i` on have room for. */
  ghost function Room(windows: seq<seq<string>>, bound: nat): int {
    if windows == [] then 0 else Room(windows[1..], bound) + (bound - |windows[0]|)
  }

  lemma {:induction false} RoomShrinks(windows: seq<seq<string>>, bound: nat, i: nat, id: string)
    requires i < |windows|
    ensures Room(windows[i := windows[i] + [id]], bound) == Room(windows, bound) - 1
  {
    var w := windows[i := windows[i] + [id]];
    if i > 0 {
      RoomShrinks(windows[1..], bound, i - 1, id);
      assert w[1..] == windows[1..][i - 1 := windows[1..][i - 1] + [id]];
    } else {
      assert w[1..] == windows[1..];
    }
  }

  lemma {:induction false} RoomLeft(windows: seq<seq<string>>, ids: set<string>)
    requires forall i :: 0 <= i < |windows| ==> Text.Distinct(windows[i]) && Text.Elements(windows[i]) <= ids
    ensures Room(windows, |ids|) >= 0
  {
    hide Text.Elements;
    if windows == [] {
    } else {
      DistinctFits(windows[0], ids);
      RoomLeft(windows[1..], ids);
    }
  }

  /** Frames in flight, plus `d` for each admission still possible. */
  ghost function Load(s: Net, bound: nat, d: nat): int { |s.flight| + d * Room(s.windows, bound) }

  lemma {:induction false} SendsSize(g: Graph, i: nat, f: Frame, skip: Option<string>, keys: set<string>)
    requires i < |g.conns| && keys <= g.conns[i].Keys
    ensures |set k | k in keys && skip != Some(k) :: Packet(g.conns[i][k].peer, g.conns[i][k].key, f)| <= |keys|
  {
    var sent := set k | k in keys && skip != Some(k) :: Packet(g.conns[i][k].peer, g.conns[i][k].key, f);
    if keys == {} {
      assert sent == {};
    } else {
      var x :| x in keys;
      var rest := keys - {x};
      SendsSize(g, i, f, skip, rest);
      var fewer := set k | k in rest && skip != Some(k) :: Packet(g.conns[i][k].peer, g.conns[i][k].key, f);
      assert sent <= fewer + {Packet(g.conns[i][x].peer, g.conns[i][x].key, f)};
      SizeOf(sent, fewer, Packet(g.conns[i][x].peer, g.conns[i][x].key, f));
    }
  }

  lemma SizeOf(a: set<Packet>, b: set<Packet>, x: Packet)
    requires a <= b + {x}
    ensures |a| <= |b| + 1
  {
    Sets.SubsetSize(a, b + {x});
  }

  lemma SendsFew(g: Graph, i: nat, f: Frame, skip: Option<string>, d: nat)
    requires i < |g.conns| && Degree(g, d)
    ensures |Sends(g, i, f, skip)| <= d
  {
    SendsSize(g, i, f, skip, g.conns[i].Keys);
    assert Sends(g, i, f, skip) ==
      set k | k in g.conns[i].Keys && skip != Some(k) :: Packet(g.conns[i][k].peer, g.conns[i][k].key, f);
  }

  lemma Less1(d: nat, room: int)
    ensures d * (room - 1) == d * room - d
  {
  }

  /** Every delivery or loss makes the load smaller; a publication adds at most `d`. */
  lemma LoadFalls(g: Graph, s: Net, m: Move, ids: set<string>, d: nat)
    requires WellFormed(g) && Inv(g, s, ids) && Enabled(g, s, m) && |ids| <= LOOP_WINDOW && (m.Publish? ==> m.id in ids) && Degree(g, d)
    ensures m.Publish? ==> Load(Next(g, s, m), |ids|, d) <= Load(s, |ids|, d) + d
    ensures !m.Publish? ==> Load(Next(g, s, m), |ids|, d) <= Load(s, |ids|, d) - 1
  {
    hide WellFormed, Recorded, Inside, Sends, Note, ProperPacket, Room, Degree, Proper;
    var t := Next(g, s, m);
    if m.Publish? {
      SendsFew(g, m.node, MadeBy(g, m), None, d);
    } else if m.Deliver? && m.packet.to < |g.names| && Handle(g.names[m.packet.to], s.windows[m.packet.to], m.packet.frame).Fresh? {
      var p := m.packet;
      FreshStep(g, s, p, ids);
      RoomShrinks(s.windows, |ids|, p.to, p.frame.id.value);
      SendsFew(g, p.to, p.frame, Some(p.key), d);
      Less1(d, Room(s.windows, |ids|));
    } else {
      if m.Deliver? { HandleKinds(g, s, ids, m.packet); }
    }
  }

  // -------------------------------------------------------------------------- runs

  function NoWindows(n: nat): seq<seq<string>> { seq(n, _ => []) }

  function Empty(n: nat): Net { Net(NoWindows(n), seq(n, _ => {}), multiset{}, []) }

  /** A run from silence in which only the ids in `ids` are published. */
  ghost predicate IsFlood(g: Graph, states: seq<Net>, moves: seq<Move>, ids: set<string>) {
    && |states| == |moves| + 1 && states[0] == Empty(|g.names|)
    && forall t :: 0 <= t < |moves| ==> Follows(g, states[t], moves[t], states[t + 1], ids)
  }

  ghost predicate Follows(g: Graph, s: Net, m: Move, t: Net, ids: set<string>) {
    Shaped(g, s) && Enabled(g, s, m) && (m.Publish? ==> m.id in ids) && t == Next(g, s, m)
  }

  lemma EmptyInv(g: Graph, ids: set<string>)
    requires WellFormed(g)
    ensures Inv(g, Empty(|g.names|), ids)
  {
    hide WellFormed;
    var s := Empty(|g.names|);
    assert |g.names| == |g.conns| by { GraphShape(g); }
    assert forall i :: 0 <= i < |s.windows| ==> s.windows[i] == [] && s.published[i] == {};
    assert forall i, id :: 0 <= i < |s.windows| ==> !Has(s, i, id);
  }

  lemma GraphShape(g: Graph)
    requires WellFormed(g)
    ensures |g.names| == |g.conns|
  {
  }

  lemma {:induction false} FloodInv(g: Graph, states: seq<Net>, moves: seq<Move>, ids: set<string>, t: nat)
    requires WellFormed(g) && IsFlood(g, states, moves, ids) && |ids| <= LOOP_WINDOW && t < |states|
    ensures Inv(g, states[t], ids)
  {
    hide WellFormed, Inv, Next, Enabled, Shaped;
    if t == 0 {
      EmptyInv(g, ids);
    } else {
      FloodInv(g, states, moves, ids, t - 1);
      assert Follows(g, states[t - 1], moves[t - 1], states[t], ids);
      NextInv(g, states[t - 1], moves[t - 1], ids);
    }
  }

  /** No node delivers a message twice. */
  lemma DeliveredOnce(g: Graph, states: seq<Net>, moves: seq<Move>, ids: set<string>, t: nat)
    requires WellFormed(g) && IsFlood(g, states, moves, ids) && |ids| <= LOOP_WINDOW && t < |states|
    ensures forall a, b :: 0 <= a < b < |states[t].log| ==> states[t].log[a] != states[t].log[b]
  {
    FloodInv(g, states, moves, ids, t);
  }

  function Publications(moves: seq<Move>): nat {
    if moves == [] then 0 else Publications(moves[..|moves| - 1]) + if moves[|moves| - 1].Publish? then 1 else 0
  }

  lemma {:induction false} LoadBounds(g: Graph, states: seq<Net>, moves: seq<Move>, ids: set<string>, d: nat, t: nat)
    requires WellFormed(g) && IsFlood(g, states, moves, ids) && |ids| <= LOOP_WINDOW && Degree(g, d) && t < |states|
    ensures t - Publications(moves[..t]) + Load(states[t], |ids|, d) <= Load(states[0], |ids|, d) + d * Publications(moves[..t])
  {
    hide WellFormed, Inv, Next, Enabled, Shaped, Degree, Load;
    if t == 0 {
      assert moves[..0] == [];
    } else {
      LoadBounds(g, states, moves, ids, d, t - 1);
      FloodInv(g, states, moves, ids, t - 1);
      assert Follows(g, states[t - 1], moves[t - 1], states[t], ids);
      LoadFalls(g, states[t - 1], moves[t - 1], ids, d);
      assert moves[..t][..t - 1] == moves[..t - 1];
      Less1(d, Publications(moves[..t]));
    }
  }

  lemma {:induction false} EmptyRoom(n: nat, bound: nat)
    ensures Room(NoWindows(n), bound) == n * bound
  {
    if n == 0 {
    } else {
      EmptyRoom(n - 1, bound);
      assert NoWindows(n)[1..] == NoWindows(n - 1);
      assert n * bound == (n - 1) * bound + bound;
    }
  }

  /** Flooding stops: over N nodes of degree at most d, with at most 4096 ids about and P
      publications, no run has more than d * N * ids + d * P deliveries and losses. */
  lemma FloodingStops(g: Graph, states: seq<Net>, moves: seq<Move>, ids: set<string>, d: nat)
    requires WellFormed(g) && IsFlood(g, states, moves, ids) && |ids| <= LOOP_WINDOW && Degree(g, d)
    ensures |moves| - Publications(moves) <= d * (|g.names| * |ids|) + d * Publications(moves)
  {
    hide WellFormed, Next, Enabled, Degree, Room, Recorded, ProperPacket;
    var last := states[|moves|];
    assert moves[..|moves|] == moves;
    LoadBounds(g, states, moves, ids, d, |moves|);
    FloodInv(g, states, moves, ids, |moves|);
    RoomLeft(last.windows, ids);
    EmptyRoom(|g.names|, |ids|);
    NonNegative(d, Room(last.windows, |ids|));
    assert Load(states[0], |ids|, d) == d * (|g.names| * |ids|);
  }

  lemma NonNegative(d: nat, room: int)
    requires room >= 0
    ensures d * room >= 0
  {
  }

  // ---------------------------------------------------------------------- coverage

  ghost predicate Coming(s: Net, j: nat, id: string) {
    exists p :: p in s.flight && p.to == j && p.frame.id == Some(id)
  }

  /** The node at the other end has the message or it is on its way there. */
  ghost predicate PassedOn(g: Graph, s: Net, i: nat, k: string, id: string)
    requires Shaped(g, s) && i < |g.conns| && k in g.conns[i] && g.conns[i][k].peer < |g.conns|
  { Has(s, i, id) ==> Has(s, g.conns[i][k].peer, id) || Coming(s, g.conns[i][k].peer, id) }

  lemma SentComing(g: Graph, s: Net, i: nat, f: Frame, skip: Option<string>, k: string)
    requires i < |g.conns| && k in g.conns[i] && skip != Some(k) && f.id.Some?
    requires forall p :: p in Sends(g, i, f, skip) ==> p in s.flight
    ensures Coming(s, g.conns[i][k].peer, f.id.value)
  {
    var p := Packet(g.conns[i][k].peer, g.conns[i][k].key, f);
    assert p in Sends(g, i, f, skip);
  }

  lemma PublishServes(g: Graph, s: Net, m: Move, ids: set<string>, i: nat, k: string, id: string)
    requires WellFormed(g) && Inv(g, s, ids) && m.Publish? && Enabled(g, s, m)
    requires i < |g.conns| && k in g.conns[i] && g.conns[i][k].peer < |g.conns| && PassedOn(g, s, i, k, id)
    ensures Shaped(g, Next(g, s, m)) && PassedOn(g, Next(g, s, m), i, k, id)
  {
    hide WellFormed, Proper, Recorded, Inside, Sends;
    var t := Next(g, s, m);
    if i == m.node && id == m.id {
      SentComing(g, t, i, MadeBy(g, m), None, k);
    } else {
      assert Has(t, i, id) ==> Has(s, i, id);
      if Coming(s, g.conns[i][k].peer, id) {
        var p :| p in s.flight && p.to == g.conns[i][k].peer && p.frame.id == Some(id);
        assert p in t.flight;
      }
    }
  }

  /** After a frame is handled its receiver has the message. */
  lemma HandledHas(g: Graph, s: Net, p: Packet, ids: set<string>)
    requires WellFormed(g) && Inv(g, s, ids) && p in s.flight && |ids| <= LOOP_WINDOW
    ensures p.to < |g.names| && p.frame.id.Some? && Shaped(g, Received(g, s, p)) && Has(Received(g, s, p), p.to, p.frame.id.value)
    ensures Grew(s, Received(g, s, p))
  {
    hide WellFormed, Proper, Recorded, Inside, Sends, Note, MadeAt;
    HandleKinds(g, s, ids, p);
    if Handle(g.names[p.to], s.windows[p.to], p.frame).Fresh? {
      FreshStep(g, s, p, ids);
      FreshWindows(s, Received(g, s, p), p.to, p.frame.id.value);
    }
  }

  lemma DeliverServes(g: Graph, s: Net, p: Packet, ids: set<string>, i: nat, k: string, id: string)
    requires WellFormed(g) && Inv(g, s, ids) && p in s.flight && |ids| <= LOOP_WINDOW && p.to < |g.names|
    requires i < |g.conns| && k in g.conns[i] && g.conns[i][k].peer < |g.conns| && PassedOn(g, s, i, k, id)
    ensures Shaped(g, Received(g, s, p)) && PassedOn(g, Received(g, s, p), i, k, id)
  {
    hide WellFormed, Proper, Recorded, Inside, Sends, Note, MadeAt, Handle;
    var t := Received(g, s, p);
    var j := g.conns[i][k].peer;
    HandledHas(g, s, p, ids);
    HandleKinds(g, s, ids, p);
    if Has(s, i, id) {
      if Coming(s, j, id) && !(p.to == j && p.frame.id == Some(id)) { StillComing(g, s, p, j, id); }
    } else if Has(t, i, id) {
      NewlyHas(g, s, p, ids, i, id);
      if k != p.key { SentComing(g, t, i, p.frame, Some(p.key), k); }
    }
  }

  lemma StillComing(g: Graph, s: Net, p: Packet, j: nat, id: string)
    requires Shaped(g, s) && p.to < |g.names| && p in s.flight && Coming(s, j, id) && !(p.to == j && p.frame.id == Some(id))
    ensures Coming(Received(g, s, p), j, id)
  {
    hide Handle, Sends;
    var q :| q in s.flight && q.to == j && q.frame.id == Some(id);
    assert q in s.flight - multiset{p};
  }

  lemma NewlyHas(g: Graph, s: Net, p: Packet, ids: set<string>, i: nat, id: string)
    requires WellFormed(g) && Inv(g, s, ids) && p in s.flight && |ids| <= LOOP_WINDOW && p.to < |g.names|
    requires i < |s.windows| && !Has(s, i, id) && |Received(g, s, p).windows| == |Received(g, s, p).published| == |s.windows|
    requires Has(Received(g, s, p), i, id)
    ensures i == p.to && p.frame.id == Some(id)
    ensures forall q :: q in Sends(g, p.to, p.frame, Some(p.key)) ==> q in Received(g, s, p).flight
  {
    hide WellFormed, Proper, Recorded, Inside, Sends, Note, MadeAt;
    HandleKinds(g, s, ids, p);
    if Handle(g.names[p.to], s.windows[p.to], p.frame).Fresh? { FreshStep(g, s, p, ids); }
  }

  ghost predicate Lossless(moves: seq<Move>) { forall t :: 0 <= t < |moves| ==> !moves[t].Lose? }

  lemma {:induction false} FloodServes(g: Graph, states: seq<Net>, moves: seq<Move>, ids: set<string>, t: nat, i: nat, k: string, id: string)
    requires WellFormed(g) && IsFlood(g, states, moves, ids) && |ids| <= LOOP_WINDOW && Lossless(moves) && t < |states|
    requires i < |g.conns| && k in g.conns[i] && g.conns[i][k].peer < |g.conns|
    ensures Shaped(g, states[t]) && PassedOn(g, states[t], i, k, id)
  {
    hide WellFormed, PassedOn, Next;
    FloodInv(g, states, moves, ids, t);
    if t == 0 {
      EmptyServes(g, i, k, id);
    } else {
      FloodServes(g, states, moves, ids, t - 1, i, k, id);
      FloodInv(g, states, moves, ids, t - 1);
      assert Follows(g, states[t - 1], moves[t - 1], states[t], ids);
      StepServes(g, states[t - 1], moves[t - 1], ids, i, k, id);
    }
  }

  lemma EmptyServes(g: Graph, i: nat, k: string, id: string)
    requires Shaped(g, Empty(|g.names|)) && i < |g.conns| && k in g.conns[i] && g.conns[i][k].peer < |g.conns|
    ensures PassedOn(g, Empty(|g.names|), i, k, id)
  {
  }

  lemma StepServes(g: Graph, s: Net, m: Move, ids: set<string>, i: nat, k: string, id: string)
    requires WellFormed(g) && Inv(g, s, ids) && Enabled(g, s, m) && !m.Lose? && |ids| <= LOOP_WINDOW
    requires i < |g.conns| && k in g.conns[i] && g.conns[i][k].peer < |g.conns| && PassedOn(g, s, i, k, id)
    ensures Shaped(g, Next(g, s, m)) && PassedOn(g, Next(g, s, m), i, k, id)
  {
    hide WellFormed, PassedOn, Proper, Recorded, Inside, Received;
    if m.Publish? {
      PublishServes(g, s, m, ids, i, k, id);
    } else {
      HandledHas(g, s, m.packet, ids);
      DeliverServes(g, s, m.packet, ids, i, k, id);
    }
  }

  predicate Adjacent(g: Graph, i: nat, j: nat)
    requires i < |g.conns|
  { exists k :: k in g.conns[i] && g.conns[i][k].peer == j }

  ghost predicate IsPath(g: Graph, path: seq<nat>) {
    && path != [] && (forall a :: 0 <= a < |path| ==> path[a] < |g.conns|)
    && forall a :: 0 <= a < |path| - 1 ==> Adjacent(g, path[a], path[a + 1])
  }

  /** Once a lossless run falls silent, every node connected to one that published a
      message has delivered it, exactly once. */
  lemma {:induction false} SilenceMeansAll(g: Graph, states: seq<Net>, moves: seq<Move>, ids: set<string>, path: seq<nat>, a: nat, id: string)
    requires WellFormed(g) && IsFlood(g, states, moves, ids) && |ids| <= LOOP_WINDOW && Lossless(moves)
    requires states[|moves|].flight == multiset{}
    requires IsPath(g, path) && a < |path| && Shaped(g, states[|moves|]) && id in states[|moves|].published[path[0]]
    ensures Has(states[|moves|], path[a], id) && Entry(path[a], id) in states[|moves|].log
  {
    hide WellFormed, Next, Follows, Proper, Inside, Text.Distinct, OnlyHad, OnePublisher, Sourced;
    var last := states[|moves|];
    FloodInv(g, states, moves, ids, |moves|);
    if a == 0 {
    } else {
      SilenceMeansAll(g, states, moves, ids, path, a - 1, id);
      assert Adjacent(g, path[a - 1], path[a - 1 + 1]);
      var k :| k in g.conns[path[a - 1]] && g.conns[path[a - 1]][k].peer == path[a];
      FloodServes(g, states, moves, ids, |moves|, path[a - 1], k, id);
    }
  }

  // ------------------------------------------------------------------ relays at the nodes

  /** What a node's queues gained, as packets. */
  ghost function Gained(g: Graph, i: nat, before: map<string, seq<Frame>>, after: map<string, seq<Frame>>): set<Packet>
    requires i < |g.conns|
  {
    set k | k in g.conns[i] && k in before && k in after && |after[k]| > |before[k]| ::
      Packet(g.conns[i][k].peer, g.conns[i][k].key, after[k][|after[k]| - 1])
  }

  lemma GainedSends(g: Graph, i: nat, before: map<string, seq<Frame>>, after: map<string, seq<Frame>>, f: Frame, skip: Option<string>)
    requires i < |g.conns| && before.Keys == g.conns[i].Keys && QueuedTo(before, after, f, skip)
    ensures Gained(g, i, before, after) == Sends(g, i, f, skip)
  {
    forall p ensures p in Gained(g, i, before, after) <==> p in Sends(g, i, f, skip) {
      if p in Sends(g, i, f, skip) {
        var k :| k in g.conns[i] && skip != Some(k) && p == Packet(g.conns[i][k].peer, g.conns[i][k].key, f);
        assert |after[k]| > |before[k]| && after[k][|after[k]| - 1] == f;
      }
      if p in Gained(g, i, before, after) {
        var k :| k in g.conns[i] && k in before && k in after && |after[k]| > |before[k]| &&
                 p == Packet(g.conns[i][k].peer, g.conns[i][k].key, after[k][|after[k]| - 1]);
        assert skip != Some(k);
      }
    }
  }

  lemma GainedNothing(g: Graph, i: nat, queues: map<string, seq<Frame>>)
    requires i < |g.conns|
    ensures Gained(g, i, queues, queues) == {}
  {
  }

  /** The relay is the one at node `i`: its name, its window, and a queue per connection. */
  ghost predicate Stands(g: Graph, s: Net, i: nat, relay: Relay)
    reads relay
  {
    && Shaped(g, s) && i < |g.names| && relay.Valid()
    && relay.nodeId == g.names[i] && relay.order == s.windows[i] && relay.queues.Keys == g.conns[i].Keys
  }

  /** The frame is let in, delivered and passed on: not the node's own, not of a known id, on
      a topic. */
  predicate LetsIn(name: string, order: seq<string>, f: Frame) {
    f.origin != Some(name) && !(f.id.Some? && f.id.value in order) && f.topic.Some?
  }

  lemma ReceivedFresh(g: Graph, s: Net, p: Packet, before: map<string, seq<Frame>>, after: map<string, seq<Frame>>)
    requires Shaped(g, s) && p.to < |g.names| && LetsIn(g.names[p.to], s.windows[p.to], p.frame)
    requires before.Keys == g.conns[p.to].Keys && QueuedTo(before, after, p.frame, Some(p.key))
    ensures var t := Received(g, s, p);
            && Shaped(g, t)
            && t.windows[p.to] == (if p.frame.id.Some? then Note(s.windows[p.to], p.frame.id.value) else s.windows[p.to])
            && t.flight == s.flight - multiset{p} + multiset(Gained(g, p.to, before, after))
            && t.log == s.log + (if p.frame.id.None? then [] else [Entry(p.to, p.frame.id.value)])
  {
    hide Note, Gained, Sends, QueuedTo;
    GainedSends(g, p.to, before, after, p.frame, Some(p.key));
  }

  lemma ReceivedOther(g: Graph, s: Net, p: Packet, queues: map<string, seq<Frame>>)
    requires Shaped(g, s) && p.to < |g.names| && !LetsIn(g.names[p.to], s.windows[p.to], p.frame)
    ensures var t := Received(g, s, p);
            var passes := p.frame.origin != Some(g.names[p.to]) && !(p.frame.id.Some? && p.frame.id.value in s.windows[p.to]);
            && Shaped(g, t)
            && t.windows[p.to] == (if passes && p.frame.id.Some? then Note(s.windows[p.to], p.frame.id.value) else s.windows[p.to])
            && t.flight == s.flight - multiset{p} + multiset(Gained(g, p.to, queues, queues))
            && t.log == s.log
  {
    hide Note, Gained, Sends;
    GainedNothing(g, p.to, queues);
  }

  /** A frame read off a connection: window, queues and deliveries of the node's relay move
      exactly as the network's. */
  method Hear(g: Graph, ghost s: Net, relay: Relay, p: Packet)
    requires Stands(g, s, p.to, relay)
    modifies relay
    ensures var t := Received(g, s, p);
            && Stands(g, t, p.to, relay)
            && t.flight == s.flight - multiset{p} + multiset(Gained(g, p.to, old(relay.queues), relay.queues))
            && (if relay.delivered == old(relay.delivered) then t.log == s.log
                else relay.delivered == old(relay.delivered) + [p.frame] &&
                     t.log == s.log + (if p.frame.id.None? then [] else [Entry(p.to, p.frame.id.value)]))
  {
    hide Received, Note, Gained, QueuedTo, Text.Distinct, Text.Elements;
    ghost var queues, delivered := relay.queues, relay.delivered;
    ghost var lets := LetsIn(g.names[p.to], s.windows[p.to], p.frame);
    var keep := relay.OnFrame(p.frame, p.key);
    if lets {
      ReceivedFresh(g, s, p, queues, relay.queues);
      assert |relay.delivered| > |delivered|;
      QueuedKeys(queues, relay.queues, p.frame, Some(p.key));
    } else {
      ReceivedOther(g, s, p, queues);
    }
  }

  lemma QueuedKeys(before: map<string, seq<Frame>>, after: map<string, seq<Frame>>, f: Frame, skip: Option<string>)
    requires QueuedTo(before, after, f, skip)
    ensures after.Keys == before.Keys
  {
  }

  /** A publication: likewise. */
  method Say(g: Graph, ghost s: Net, relay: Relay, m: Move)
    requires m.Publish? && Stands(g, s, m.node, relay) && Enabled(g, s, m)
    modifies relay
    ensures var t := Next(g, s, m);
            && Stands(g, t, m.node, relay)
            && t.flight == s.flight + multiset(Gained(g, m.node, old(relay.queues), relay.queues))
            && relay.delivered == old(relay.delivered) + [MadeBy(g, m)]
            && t.log == s.log + [Entry(m.node, m.id)]
  {
    hide Text.Distinct;
    ghost var queues := relay.queues;
    relay.Publish(MadeBy(g, m));
    GainedSends(g, m.node, queues, relay.queues, MadeBy(g, m), None);
  }
}
