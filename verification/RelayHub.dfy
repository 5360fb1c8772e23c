/** The relay hub: registrations that replace each other while old cleanups are still pending. */
module RelayHub {
  import opened Net
  import RelayCodec

  /** The hub's tables; connections are numbered, and `closed` holds those already closed. */
  datatype Tables = Tables(
    dataNode: map<string, nat>, mobile: map<string, nat>, nodeForMobile: map<string, string>, closed: set<nat>)

  /** Steps taken under the lock, by any handler at any time, and a connection's close. */
  datatype Event =
    | NodeUp(node: string, c: nat)
    | NodeCleanup(node: string, c: nat)
    | MobileUp(session: string, node: string, c: nat)
    | MobileCleanup(session: string, c: nat)
    | Close(c: nat)

  datatype Route = NoTarget | Dropped | To(c: nat, frame: RelayCodec.Frame)

  const DATA := 2

  function Replaced(table: map<string, nat>, key: string): set<nat> {
    if key in table then {table[key]} else {}
  }

  function Step(t: Tables, e: Event): Tables {
    match e
    case NodeUp(node, c) =>
      t.(dataNode := t.dataNode[node := c], closed := t.closed + Replaced(t.dataNode, node))
    case NodeCleanup(node, c) =>
      if node in t.dataNode && t.dataNode[node] == c then t.(dataNode := t.dataNode - {node}) else t
    case MobileUp(session, node, c) =>
      t.(mobile := t.mobile[session := c], nodeForMobile := t.nodeForMobile[session := node],
         closed := t.closed + Replaced(t.mobile, session))
    case MobileCleanup(session, c) =>
      if session in t.mobile && t.mobile[session] == c
      then t.(mobile := t.mobile - {session}, nodeForMobile := t.nodeForMobile - {session}) else t
    case Close(c) => t.(closed := t.closed + {c})
  }

  /** Where a packet read from a mobile connection goes: settled by one look at the tables. */
  function RouteFromMobile(t: Tables, session: string, packet: seq<nat>): Route {
    if session !in t.nodeForMobile then NoTarget
    else if t.nodeForMobile[session] !in t.dataNode then Dropped
    else To(t.dataNode[t.nodeForMobile[session]], RelayCodec.Frame(DATA, SessionBytes(session), packet))
  }

  /** A session id as header bytes; ids are hexadecimal text. */
  function SessionBytes(session: string): seq<nat> {
    seq(|session|, i requires 0 <= i < |session| => session[i] as nat)
  }

  function RouteFromDataNode(t: Tables, node: string, session: string, packet: seq<nat>): Route {
    if session !in t.mobile then Dropped
    else To(t.mobile[session], RelayCodec.Frame(DATA, [], packet))
  }

  class Hub {
    var dataNode: map<string, nat>
    var mobile: map<string, nat>
    var nodeForMobile: map<string, string>
    var closed: set<nat>

    ghost function State(): Tables
      reads this
    {
      Tables(dataNode, mobile, nodeForMobile, closed)
    }

    constructor ()
      ensures State() == Tables(map[], map[], map[], {})
    {
      dataNode, mobile, nodeForMobile, closed := map[], map[], map[], {};
    }

    method CloseConn(c: nat)
      modifies this`closed
      ensures State() == Step(old(State()), Close(c))
    {
      closed := closed + {c};
    }

    method RegisterDataNode(nodeID: string, c: nat)
      modifies this
      ensures State() == Step(old(State()), NodeUp(nodeID, c))
    {
      if nodeID in dataNode {
        CloseConn(dataNode[nodeID]);
      }
      dataNode := dataNode[nodeID := c];
    }

    method CleanupDataNode(nodeID: string, c: nat)
      modifies this
      ensures State() == Step(old(State()), NodeCleanup(nodeID, c))
    {
      if nodeID in dataNode && dataNode[nodeID] == c {
        dataNode := dataNode - {nodeID};
      }
    }

    method RegisterMobile(sessionID: string, nodeID: string, c: nat)
      modifies this
      ensures State() == Step(old(State()), MobileUp(sessionID, nodeID, c))
    {
      if sessionID in mobile {
        CloseConn(mobile[sessionID]);
      }
      mobile := mobile[sessionID := c];
      nodeForMobile := nodeForMobile[sessionID := nodeID];
    }

    method CleanupMobile(sessionID: string, c: nat)
      modifies this
      ensures State() == Step(old(State()), MobileCleanup(sessionID, c))
    {
      if sessionID in mobile && mobile[sessionID] == c {
        mobile := mobile - {sessionID};
        nodeForMobile := nodeForMobile - {sessionID};
      }
    }

    method ForwardFromMobile(sessionID: string, packet: seq<nat>) returns (route: Route)
      ensures route == RouteFromMobile(State(), sessionID, packet)
    {
      if sessionID !in nodeForMobile {
        return NoTarget;
      }
      var nodeID := nodeForMobile[sessionID];
      if nodeID !in dataNode {
        return Dropped;
      }
      route := To(dataNode[nodeID], RelayCodec.Frame(DATA, SessionBytes(sessionID), packet));
    }

    method ForwardFromDataNode(nodeID: string, sessionID: string, packet: seq<nat>) returns (route: Route)
      ensures route == RouteFromDataNode(State(), nodeID, sessionID, packet)
    {
      if sessionID !in mobile {
        return Dropped;
      }
      route := To(mobile[sessionID], RelayCodec.Frame(DATA, [], packet));
    }
  }

  // ---------------------------------------------------------------- histories

  function After(h: seq<Event>): Tables {
    if h == [] then Tables(map[], map[], map[], {}) else Step(After(h[..|h| - 1]), h[|h| - 1])
  }

  predicate Registers(e: Event, c: nat) {
    (e.NodeUp? || e.MobileUp?) && e.c == c
  }

  /** What the handlers guarantee: a new connection per registration, cleanup only after it,
      and a data-node connection closed before its cleanup runs. */
  ghost predicate WellFormed(h: seq<Event>) {
    h == [] ||
    (var before, e := h[..|h| - 1], h[|h| - 1];
     && WellFormed(before)
     && match e
        case NodeUp(_, c) => forall x | x in before :: !Registers(x, c)
        case MobileUp(_, _, c) => forall x | x in before :: !Registers(x, c)
        case NodeCleanup(node, c) => NodeUp(node, c) in before && c in After(before).closed
        case MobileCleanup(session, c) => exists node :: MobileUp(session, node, c) in before
        case Close(_) => true)
  }

  /** The connection of the last registration for a node, whatever happened to it since. */
  function LatestNode(h: seq<Event>, node: string): Option<nat> {
    if h == [] then None
    else
      var e := h[|h| - 1];
      if e.NodeUp? && e.node == node then Some(e.c) else LatestNode(h[..|h| - 1], node)
  }

  /** The last registration of a session: its connection and the node it asked for. */
  function LatestMobile(h: seq<Event>, session: string): Option<(nat, string)> {
    if h == [] then None
    else
      var e := h[|h| - 1];
      if e.MobileUp? && e.session == session then Some((e.c, e.node)) else LatestMobile(h[..|h| - 1], session)
  }

  lemma {:induction false} CleanupFollowsUp(h: seq<Event>, e: Event)
    requires WellFormed(h) && e in h
    ensures e.NodeCleanup? ==> NodeUp(e.node, e.c) in h && e.c in After(h).closed
    ensures e.MobileCleanup? ==> exists node :: MobileUp(e.session, node, e.c) in h
  {
    var before := h[..|h| - 1];
    assert h == before + [h[|h| - 1]];
    if e in before {
      CleanupFollowsUp(before, e);
    }
  }

  lemma {:induction false} LatestIsThere(h: seq<Event>, node: string, session: string)
    ensures LatestNode(h, node).Some? ==> NodeUp(node, LatestNode(h, node).value) in h
    ensures LatestMobile(h, session).Some? ==>
              MobileUp(session, LatestMobile(h, session).value.1, LatestMobile(h, session).value.0) in h
  {
    if h != [] {
      LatestIsThere(h[..|h| - 1], node, session);
      assert h == h[..|h| - 1] + [h[|h| - 1]];
    }
  }

  /** A node is listed exactly when its latest registration has not been cleaned up, and then as that. */
  lemma {:induction false} NodeTable(h: seq<Event>, node: string)
    requires WellFormed(h)
    ensures var latest := LatestNode(h, node);
            && (node in After(h).dataNode <==> latest.Some? && NodeCleanup(node, latest.value) !in h)
            && (node in After(h).dataNode ==> After(h).dataNode[node] == latest.value)
  {
    if h != [] {
      var before, e := h[..|h| - 1], h[|h| - 1];
      NodeTable(before, node);
      assert h == before + [e];
      if e.NodeUp? && e.node == node && NodeCleanup(node, e.c) in before {
        CleanupFollowsUp(before, NodeCleanup(node, e.c));
      }
    }
  }

  /** The same for sessions, whose two tables always hold the same keys. */
  lemma {:induction false} MobileTable(h: seq<Event>, session: string)
    requires WellFormed(h)
    ensures var latest, t := LatestMobile(h, session), After(h);
            && (session in t.mobile <==> session in t.nodeForMobile)
            && (session in t.mobile <==> latest.Some? && MobileCleanup(session, latest.value.0) !in h)
            && (session in t.mobile ==> (t.mobile[session], t.nodeForMobile[session]) == latest.value)
  {
    if h != [] {
      var before, e := h[..|h| - 1], h[|h| - 1];
      MobileTable(before, session);
      assert h == before + [e];
      if e.MobileUp? && e.session == session && MobileCleanup(session, e.c) in before {
        CleanupFollowsUp(before, MobileCleanup(session, e.c));
      }
    }
  }

  /** A superseded data-node connection is closed. */
  lemma {:induction false} SupersededNodeIsClosed(h: seq<Event>, node: string, c: nat)
    requires WellFormed(h) && NodeUp(node, c) in h && LatestNode(h, node) != Some(c)
    ensures c in After(h).closed
  {
    var before, e := h[..|h| - 1], h[|h| - 1];
    assert h == before + [e];
    if LatestNode(before, node) == Some(c) {
      NodeTable(before, node);
      if NodeCleanup(node, c) in before {
        CleanupFollowsUp(before, NodeCleanup(node, c));
      }
    } else {
      SupersededNodeIsClosed(before, node, c);
    }
  }

  /** A superseded mobile connection is closed, or its handler is on its way out. */
  lemma {:induction false} SupersededMobileIsClosed(h: seq<Event>, session: string, node: string, c: nat)
    requires WellFormed(h) && MobileUp(session, node, c) in h && LatestMobile(h, session) != Some((c, node))
    ensures c in After(h).closed || MobileCleanup(session, c) in h
  {
    var before, e := h[..|h| - 1], h[|h| - 1];
    assert h == before + [e];
    if LatestMobile(before, session) == Some((c, node)) {
      MobileTable(before, session);
    } else {
      SupersededMobileIsClosed(before, session, node, c);
    }
  }

  /** Event `i` closes the connection: it says so, or it takes the entry the connection holds. */
  predicate Closes(h: seq<Event>, i: nat, c: nat)
    requires i < |h|
  {
    var t, e := After(h[..i]), h[i];
    || e == Close(c)
    || (e.NodeUp? && e.node in t.dataNode && t.dataNode[e.node] == c)
    || (e.MobileUp? && e.session in t.mobile && t.mobile[e.session] == c)
  }

  lemma ClosesEarlier(h: seq<Event>, c: nat)
    requires h != []
    ensures forall i: nat | i < |h| - 1 :: Closes(h, i, c) <==> Closes(h[..|h| - 1], i, c)
  {
    forall i: nat | i < |h| - 1 ensures Closes(h, i, c) <==> Closes(h[..|h| - 1], i, c) {
      assert h[..|h| - 1][..i] == h[..i];
    }
  }

  /** No connection is closed for any other reason. */
  lemma {:induction false} ClosedForAReason(h: seq<Event>, c: nat)
    ensures c in After(h).closed <==> exists i: nat :: i < |h| && Closes(h, i, c)
  {
    if h != [] {
      var before := h[..|h| - 1];
      ClosedForAReason(before, c);
      ClosesEarlier(h, c);
      assert c in After(h).closed <==> c in After(before).closed || Closes(h, |h| - 1, c);
      if i: nat :| i < |before| && Closes(before, i, c) {
        assert Closes(h, i, c);
      }
    }
  }

  // ---------------------------------------------------------------- where packets go

  /** The registration of a session still standing after a history, if any. */
  ghost function Bound(h: seq<Event>, session: string): Option<string> {
    match LatestMobile(h, session)
    case None => None
    case Some(p) => if MobileCleanup(session, p.0) in h then None else Some(p.1)
  }

  ghost function Serving(h: seq<Event>, node: string): Option<nat> {
    match LatestNode(h, node)
    case None => None
    case Some(c) => if NodeCleanup(node, c) in h then None else Some(c)
  }

  /** A mobile packet goes only to the node its session's latest registration named,
      on that node's latest connection, tagged with its own session. */
  lemma PacketsFollowTheBinding(h: seq<Event>, session: string, packet: seq<nat>)
    requires WellFormed(h)
    ensures RouteFromMobile(After(h), session, packet) ==
            match Bound(h, session)
            case None => NoTarget
            case Some(node) =>
              match Serving(h, node)
              case None => Dropped
              case Some(c) => To(c, RelayCodec.Frame(DATA, SessionBytes(session), packet))
  {
    MobileTable(h, session);
    if Bound(h, session).Some? {
      NodeTable(h, Bound(h, session).value);
    }
  }

  /** Packets of different sessions never carry the same tag. */
  lemma TagsTellSessionsApart(s: string, t: string)
    requires SessionBytes(s) == SessionBytes(t)
    ensures s == t
  {
    assert |s| == |SessionBytes(s)| == |SessionBytes(t)| == |t|;
    forall i | 0 <= i < |s| ensures s[i] == t[i] {
      assert SessionBytes(s)[i] == SessionBytes(t)[i];
    }
  }

  /** The send comes after the lookup, on the connection looked up: by then it may be superseded,
      but it was registered for the node the session was bound to, and for no other. */
  lemma LateSendsStayWithTheNode(h: seq<Event>, later: seq<Event>, session: string, packet: seq<nat>, other: string)
    requires WellFormed(h) && WellFormed(h + later) && RouteFromMobile(After(h), session, packet).To?
    ensures var c := RouteFromMobile(After(h), session, packet).c;
            Bound(h, session).Some? && NodeUp(Bound(h, session).value, c) in h
            && (NodeUp(other, c) in h + later ==> other == Bound(h, session).value)
            && forall s, n :: MobileUp(s, n, c) !in h + later
  {
    PacketsFollowTheBinding(h, session, packet);
    var node := Bound(h, session).value;
    var c := Serving(h, node).value;
    LatestIsThere(h, node, session);
    assert NodeUp(node, c) in h + later;
    if NodeUp(other, c) in h + later {
      RegisteredOnce(h + later, NodeUp(node, c), NodeUp(other, c), c);
    }
    forall s, n ensures MobileUp(s, n, c) !in h + later {
      if MobileUp(s, n, c) in h + later {
        RegisteredOnce(h + later, NodeUp(node, c), MobileUp(s, n, c), c);
      }
    }
  }

  lemma {:induction false} RegisteredOnce(h: seq<Event>, d: Event, e: Event, c: nat)
    requires WellFormed(h) && d in h && e in h && Registers(d, c) && Registers(e, c)
    ensures d == e
  {
    var before, last := h[..|h| - 1], h[|h| - 1];
    assert h == before + [last];
    if d in before && e in before {
      RegisteredOnce(before, d, e, c);
    }
  }

  /** The other direction asks only whether the session is connected, not which node it chose. */
  lemma NodeSideIgnoresBinding(h: seq<Event>, node: string, session: string, packet: seq<nat>)
    requires WellFormed(h)
    ensures RouteFromDataNode(After(h), node, session, packet) ==
            match LatestMobile(h, session)
            case None => Dropped
            case Some(p) =>
              if MobileCleanup(session, p.0) in h then Dropped else To(p.0, RelayCodec.Frame(DATA, [], packet))
  {
    MobileTable(h, session);
  }
}
