/** The run loop of the p2p server: which connections become peers, and which leave.

    Connections are set up by their own goroutines; what reaches the loop is a sequence of events. A
    connection comes to its two checkpoints in order, and once admitted it leaves at most once: `stage` is
    where its goroutine stands.
 */
module Servers {
  import opened Words
  import opened ExpHeaps
  import Mux

  const DEFAULT_DIAL_RATIO := 3

  datatype Stage = Handshaking | Negotiating | Running | Gone

  datatype DiscReason = TooManyPeers | AlreadyConnected | Self | UselessPeer

  class Conn {
    const id: Id
    const inbound: bool
    const caps: seq<Mux.Cap>
    var trusted: bool
    var stage: Stage

    constructor (id: Id, inbound: bool, caps: seq<Mux.Cap>)
      ensures this.id == id && this.inbound == inbound && this.caps == caps && !trusted && stage.Handshaking?
    {
      this.id, this.inbound, this.caps, trusted, stage := id, inbound, caps, false, Handshaking;
    }
  }

  datatype Event =
    | AddTrusted(id: Id)
    | RemoveTrusted(id: Id)
    | PostHandshake(conn: Conn)
    | AddPeer(conn: Conn)
    | DelPeer(conn: Conn)

  // ----- Slots -----

  function Abs(a: int): nat { if a < 0 then -a else a }

  // Integer division of the source, which truncates toward zero.
  function TruncDiv(a: int, b: int): int
    requires b != 0
  {
    if (a < 0) == (b < 0) then Abs(a) / Abs(b) else -(Abs(a) / Abs(b))
  }

  function MaxDialed(maxPeers: int, dialRatio: int, noDial: bool): int {
    if noDial || maxPeers == 0 then 0
    else
      var limit := TruncDiv(maxPeers, if dialRatio == 0 then DEFAULT_DIAL_RATIO else dialRatio);
      if limit == 0 then 1 else limit
  }

  function MaxInbound(maxPeers: int, dialRatio: int, noDial: bool): int {
    maxPeers - MaxDialed(maxPeers, dialRatio, noDial)
  }

  // The two kinds of slots share out the peers, unless a negative ratio is small enough to count.
  lemma SlotsSplit(maxPeers: int, dialRatio: int, noDial: bool)
    requires 0 <= maxPeers
    ensures 0 <= MaxDialed(maxPeers, dialRatio, noDial) <= maxPeers
            <==> noDial || maxPeers == 0 || !(-maxPeers <= dialRatio < 0)
    ensures 0 <= MaxInbound(maxPeers, dialRatio, noDial) <= maxPeers
            <==> noDial || maxPeers == 0 || !(-maxPeers <= dialRatio < 0)
    ensures !noDial && maxPeers > 0 ==> MaxDialed(maxPeers, dialRatio, noDial) != 0
  {
    if !noDial && maxPeers > 0 {
      Quotient(maxPeers, Abs(if dialRatio == 0 then DEFAULT_DIAL_RATIO else dialRatio));
    }
  }

  // How many slots there are: all of them are for one of the two kinds. With dialing on, one in q is for dialed peers,
  // with q the ratio or 3, and at least one; a negative ratio gives the negative of that number.
  lemma SlotsExact(maxPeers: int, dialRatio: int, noDial: bool)
    requires 0 <= maxPeers
    ensures MaxDialed(maxPeers, dialRatio, noDial) + MaxInbound(maxPeers, dialRatio, noDial) == maxPeers
    ensures noDial || maxPeers == 0 ==> MaxInbound(maxPeers, dialRatio, noDial) == maxPeers
    ensures !noDial && maxPeers > 0 ==>
              var dialed, q := MaxDialed(maxPeers, dialRatio, noDial), if dialRatio == 0 then 3 else dialRatio;
              && (maxPeers < Abs(q) ==> dialed == 1)
              && (maxPeers >= Abs(q) ==>
                    if q > 0 then q * dialed <= maxPeers < q * (dialed + 1) else q * dialed <= maxPeers < q * (dialed - 1))
  {
    if !noDial && maxPeers > 0 {
      var q := if dialRatio == 0 then 3 else dialRatio;
      Quotient(maxPeers, Abs(q));
      Signs(q, maxPeers / Abs(q));
    }
  }

  lemma Signs(q: int, n: int)
    ensures Abs(q) * n == if q < 0 then q * -n else q * n
    ensures Abs(q) * (n + 1) == if q < 0 then q * (-n - 1) else q * (n + 1)
  {
  }

  lemma Quotient(a: nat, b: nat)
    requires b > 0
    ensures 0 <= a / b <= a && (a / b == 0 <==> a < b) && b * (a / b) <= a < b * (a / b + 1)
  {
    Product(a / b, b);
    assert a == (a / b) * b + a % b;
  }

  lemma Product(q: int, b: nat)
    requires b > 0
    ensures q >= 1 ==> q * b >= b && q * b >= q
    ensures q <= -1 ==> q * b + b <= 0
  {
  }

  // ----- Counting -----

  ghost function Inbound(peers: map<Id, Conn>): set<Id> {
    set id | id in peers && peers[id].inbound
  }

  lemma InboundAdd(peers: map<Id, Conn>, c: Conn)
    requires c.id !in peers
    ensures Inbound(peers[c.id := c]) == Inbound(peers) + if c.inbound then {c.id} else {}
    ensures |Inbound(peers[c.id := c])| == |Inbound(peers)| + if c.inbound then 1 else 0
  {
  }

  lemma InboundRemove(peers: map<Id, Conn>, id: Id)
    requires id in peers
    ensures Inbound(peers - {id}) == Inbound(peers) - {id}
    ensures |Inbound(peers - {id})| == |Inbound(peers)| - if peers[id].inbound then 1 else 0
  {
  }

  // The peers that were admitted without the trusted flag keep within the limits.
  ghost predicate Within(peers: map<Id, Conn>, guests: set<Id>, maxPeers: int, maxInbound: int) {
    && guests <= peers.Keys && |guests| <= Max(maxPeers, 0)
    && |guests * Inbound(peers)| <= Max(maxInbound, 0)
  }

  ghost predicate Counted(peers: map<Id, Conn>, inboundCount: int, guests: set<Id>, maxPeers: int, maxInbound: int) {
    inboundCount == |Inbound(peers)| && Within(peers, guests, maxPeers, maxInbound)
  }

  // Every peer is another node, under its own id, with something to talk about.
  ghost predicate Welcome(peers: map<Id, Conn>, self: Id, protocols: seq<Mux.Protocol>) {
    && self !in peers && (forall id <- peers.Keys :: peers[id].id == id)
    && (protocols == [] || forall id <- peers.Keys :: Mux.Shared(protocols, peers[id].caps) != {})
  }

  lemma WelcomeAdd(peers: map<Id, Conn>, self: Id, protocols: seq<Mux.Protocol>, c: Conn)
    requires Welcome(peers, self, protocols) && c.id != self && (protocols == [] || Mux.Shared(protocols, c.caps) != {})
    ensures Welcome(peers[c.id := c], self, protocols)
  {
  }

  lemma WelcomeRemove(peers: map<Id, Conn>, self: Id, protocols: seq<Mux.Protocol>, id: Id)
    requires Welcome(peers, self, protocols)
    ensures Welcome(peers - {id}, self, protocols)
  {
  }

  lemma CountedAdd(peers: map<Id, Conn>, inboundCount: int, guests: set<Id>, c: Conn, guest: bool, maxPeers: int, maxInbound: int)
    requires Counted(peers, inboundCount, guests, maxPeers, maxInbound) && c.id !in peers
    requires guest ==> |peers| < maxPeers && (c.inbound ==> inboundCount < maxInbound)
    ensures Counted(peers[c.id := c], inboundCount + (if c.inbound then 1 else 0),
                    guests + if guest then {c.id} else {}, maxPeers, maxInbound)
  {
    hide Inbound, Within;
    InboundAdd(peers, c);
    WithinAdd(peers, guests, c, guest, maxPeers, maxInbound);
  }

  lemma CountedRemove(peers: map<Id, Conn>, inboundCount: int, guests: set<Id>, id: Id, maxPeers: int, maxInbound: int)
    requires Counted(peers, inboundCount, guests, maxPeers, maxInbound) && id in peers
    ensures Counted(peers - {id}, inboundCount - (if peers[id].inbound then 1 else 0), guests - {id}, maxPeers, maxInbound)
  {
    hide Inbound, Within;
    InboundRemove(peers, id);
    WithinRemove(peers, guests, id, maxPeers, maxInbound);
  }

  lemma WithinAdd(peers: map<Id, Conn>, guests: set<Id>, c: Conn, guest: bool, maxPeers: int, maxInbound: int)
    requires Within(peers, guests, maxPeers, maxInbound) && c.id !in peers
    requires guest ==> |peers| < maxPeers && (c.inbound ==> |Inbound(peers)| < maxInbound)
    ensures Within(peers[c.id := c], guests + if guest then {c.id} else {}, maxPeers, maxInbound)
  {
    InboundAdd(peers, c);
    Subset(guests, peers.Keys);
    Subset(guests * Inbound(peers), Inbound(peers));
    GuestsAdd(guests, Inbound(peers), c.id, guest, c.inbound);
  }

  lemma GuestsAdd(guests: set<Id>, inbound: set<Id>, id: Id, guest: bool, isInbound: bool)
    requires id !in guests && id !in inbound
    ensures var g, i := guests + if guest then {id} else {}, inbound + if isInbound then {id} else {};
            |g| == |guests| + (if guest then 1 else 0)
            && |g * i| == |guests * inbound| + if guest && isInbound then 1 else 0
  {
    var g, i := guests + if guest then {id} else {}, inbound + if isInbound then {id} else {};
    if guest && isInbound {
      assert g * i == guests * inbound + {id};
    } else {
      assert g * i == guests * inbound;
    }
  }

  lemma WithinRemove(peers: map<Id, Conn>, guests: set<Id>, id: Id, maxPeers: int, maxInbound: int)
    requires Within(peers, guests, maxPeers, maxInbound) && id in peers
    ensures Within(peers - {id}, guests - {id}, maxPeers, maxInbound)
  {
    InboundRemove(peers, id);
    Subset(guests - {id}, guests);
    Subset((guests - {id}) * Inbound(peers - {id}), guests * Inbound(peers));
  }

  // ----- Matching protocols -----

  predicate Matches(p: Mux.Protocol, c: Mux.Cap) { p.name == c.name && p.version == c.version }

  ghost function Pairs(ps: seq<Mux.Protocol>, caps: seq<Mux.Cap>, upto: nat, last: nat): set<(int, int)>
    requires upto <= |caps| && (upto < |caps| ==> last <= |ps|) && (upto == |caps| ==> last == 0)
  {
    set i, j | 0 <= i < |caps| && 0 <= j < |ps| && (i < upto || (i == upto && j < last)) && Matches(ps[j], caps[i]) :: (i, j)
  }

  lemma PairStep(ps: seq<Mux.Protocol>, caps: seq<Mux.Cap>, i: nat, j: nat)
    requires i < |caps| && j < |ps|
    ensures |Pairs(ps, caps, i, j + 1)| == |Pairs(ps, caps, i, j)| + if Matches(ps[j], caps[i]) then 1 else 0
  {
    hide Matches;
    var a, b := Pairs(ps, caps, i, j), Pairs(ps, caps, i, j + 1);
    assert (i, j) !in a && forall x <- a :: x in b;
    forall x | x in b && x != (i, j)
      ensures x in a
    {
    }
    if Matches(ps[j], caps[i]) {
      assert (i, j) in b;
      assert b == a + {(i, j)};
    } else {
      assert b == a;
    }
  }

  lemma PairRow(ps: seq<Mux.Protocol>, caps: seq<Mux.Cap>, i: nat)
    requires i < |caps|
    ensures Pairs(ps, caps, i, |ps|) == Pairs(ps, caps, i + 1, 0)
  {
  }

  // countMatchingProtocols: the number of matching pairs, which is zero exactly if nothing is shared.
  method CountMatchingProtocols(ps: seq<Mux.Protocol>, caps: seq<Mux.Cap>) returns (n: nat)
    ensures n == |Pairs(ps, caps, |caps|, 0)|
    ensures n == 0 <==> Mux.Shared(ps, caps) == {}
  {
    n := 0;
    assert Pairs(ps, caps, 0, 0) == {};
    hide Pairs, Mux.Shared;
    for i := 0 to |caps|
      invariant n == |Pairs(ps, caps, i, 0)|
    {
      for j := 0 to |ps|
        invariant n == |Pairs(ps, caps, i, j)|
      {
        PairStep(ps, caps, i, j);
        if Matches(ps[j], caps[i]) {
          n := n + 1;
        }
      }
      PairRow(ps, caps, i);
    }
    NoPairs(ps, caps);
  }

  lemma NoPairs(ps: seq<Mux.Protocol>, caps: seq<Mux.Cap>)
    ensures Pairs(ps, caps, |caps|, 0) == {} <==> Mux.Shared(ps, caps) == {}
  {
    var pairs := Pairs(ps, caps, |caps|, 0);
    if Mux.Shared(ps, caps) != {} {
      var c :| c in Mux.Shared(ps, caps);
      var i :| 0 <= i < |caps| && caps[i] == c;
      var p := Mux.First(ps, c).value;
      var j :| 0 <= j < |ps| && ps[j] == p;
      assert (i, j) in pairs;
    }
    forall x <- pairs
      ensures caps[x.0] in Mux.Shared(ps, caps)
    {
      assert Matches(ps[x.1], caps[x.0]);
    }
  }

  // ----- Trust over time -----

  // The trusted nodes after a history of events, from those trusted at the start.
  ghost function TrustAfter(initial: set<Id>, h: seq<Event>): set<Id> {
    if h == [] then initial else Trusting(TrustAfter(initial, h[..|h| - 1]), h[|h| - 1])
  }

  function Trusting(before: set<Id>, e: Event): set<Id> {
    if e.AddTrusted? then before + {e.id} else if e.RemoveTrusted? then before - {e.id} else before
  }

  predicate SetsTrust(e: Event, id: Id) { e == AddTrusted(id) || e == RemoveTrusted(id) }

  // Trust in the node was set by an event after the j-th.
  ghost predicate SetSince(h: seq<Event>, j: nat, id: Id) { exists k :: j < k < |h| && SetsTrust(h[k], id) }

  // The connection was at its first checkpoint at i, and has the flag exactly if its node was trusted then.
  ghost predicate PendingAt(initial: set<Id>, h: seq<Event>, c: Conn, i: nat, flag: bool) {
    i < |h| && h[i] == PostHandshake(c) && (flag <==> c.id in TrustAfter(initial, h[..i]))
  }

  ghost predicate Pending(initial: set<Id>, h: seq<Event>, c: Conn, flag: bool) {
    exists i: nat :: PendingAt(initial, h, c, i, flag)
  }

  // The connection was at its checkpoints at i and j. It was a guest exactly if its node was not trusted at i.
  // Its flag says whether the node is trusted now if trust in it was set after j, and otherwise whether it was
  // trusted at i.
  ghost predicate HeldAt(initial: set<Id>, h: seq<Event>, c: Conn, i: nat, j: nat, flag: bool, guest: bool) {
    && i < j < |h| && h[i] == PostHandshake(c) && h[j] == AddPeer(c)
    && (guest <==> c.id !in TrustAfter(initial, h[..i]))
    && (flag <==> if SetSince(h, j, c.id) then c.id in TrustAfter(initial, h) else c.id in TrustAfter(initial, h[..i]))
  }

  ghost predicate Held(initial: set<Id>, h: seq<Event>, c: Conn, flag: bool, guest: bool) {
    exists i: nat, j: nat :: HeldAt(initial, h, c, i, j, flag, guest)
  }

  // No connection sends an event twice.
  ghost predicate Once(h: seq<Event>) {
    forall i, k :: 0 <= i < k < |h| && ConnOf(h[i]) != {} ==> h[i] != h[k]
  }

  // No connection has sent an event twice, or one that is still to come; which checkpoints it has passed is where
  // its goroutine stands.
  ghost predicate Order(h: seq<Event>, conns: set<Conn>, waiting: set<Conn>, running: set<Conn>) {
    && Once(h) && (forall e <- h :: ConnOf(e) <= conns)
    && (forall c <- conns :: PostHandshake(c) in h && (c in waiting <==> AddPeer(c) !in h))
    && (forall c <- waiting + running :: c in conns && DelPeer(c) !in h)
  }

  lemma OrderTrust(h: seq<Event>, conns: set<Conn>, waiting: set<Conn>, running: set<Conn>, e: Event)
    requires Order(h, conns, waiting, running) && ConnOf(e) == {}
    ensures Order(h + [e], conns, waiting, running)
  {
    OnceSnoc(h, e);
  }

  lemma OrderCome(h: seq<Event>, conns: set<Conn>, waiting: set<Conn>, running: set<Conn>, c: Conn)
    requires Order(h, conns, waiting, running) && c !in conns
    ensures Order(h + [PostHandshake(c)], conns + {c}, waiting + {c}, running)
  {
    Unsent(h, conns, c);
    OnceSnoc(h, PostHandshake(c));
  }

  lemma Unsent(h: seq<Event>, conns: set<Conn>, c: Conn)
    requires (forall e <- h :: ConnOf(e) <= conns) && c !in conns
    ensures PostHandshake(c) !in h && AddPeer(c) !in h && DelPeer(c) !in h
  {
    assert c in ConnOf(PostHandshake(c)) && c in ConnOf(AddPeer(c)) && c in ConnOf(DelPeer(c));
  }

  lemma OrderEnter(h: seq<Event>, conns: set<Conn>, waiting: set<Conn>, running: set<Conn>, c: Conn, admitted: bool)
    requires Order(h, conns, waiting, running) && c in waiting
    ensures Order(h + [AddPeer(c)], conns, waiting - {c}, running + if admitted then {c} else {})
  {
    OnceSnoc(h, AddPeer(c));
  }

  lemma OrderLeave(h: seq<Event>, conns: set<Conn>, waiting: set<Conn>, running: set<Conn>, c: Conn)
    requires Order(h, conns, waiting, running) && c in running && c !in waiting
    ensures Order(h + [DelPeer(c)], conns, waiting, running - {c})
  {
    OnceSnoc(h, DelPeer(c));
  }

  lemma OnceSnoc(h: seq<Event>, e: Event)
    requires Once(h) && (ConnOf(e) != {} ==> e !in h)
    ensures Once(h + [e])
  {
  }

  lemma TrustSnoc(initial: set<Id>, h: seq<Event>, e: Event)
    ensures TrustAfter(initial, h + [e]) == Trusting(TrustAfter(initial, h), e)
  {
    assert (h + [e])[..|h|] == h;
  }

  lemma SetSnoc(h: seq<Event>, j: nat, id: Id, e: Event)
    requires j < |h|
    ensures SetSince(h + [e], j, id) <==> SetSince(h, j, id) || SetsTrust(e, id)
  {
    var g := h + [e];
    assert g[|h|] == e;
    if SetSince(h, j, id) {
      var k :| j < k < |h| && SetsTrust(h[k], id);
      assert SetsTrust(g[k], id);
    }
    if SetSince(g, j, id) {
      var k :| j < k < |g| && SetsTrust(g[k], id);
      assert k < |h| ==> SetsTrust(h[k], id);
    }
  }

  lemma PendingKeeps(initial: set<Id>, h: seq<Event>, c: Conn, flag: bool, e: Event)
    requires Pending(initial, h, c, flag)
    ensures Pending(initial, h + [e], c, flag)
  {
    var i: nat :| PendingAt(initial, h, c, i, flag);
    assert (h + [e])[..i] == h[..i];
    assert PendingAt(initial, h + [e], c, i, flag);
  }

  lemma PendingNew(initial: set<Id>, h: seq<Event>, c: Conn)
    ensures Pending(initial, h + [PostHandshake(c)], c, c.id in TrustAfter(initial, h))
  {
    assert (h + [PostHandshake(c)])[..|h|] == h;
    assert PendingAt(initial, h + [PostHandshake(c)], c, |h|, c.id in TrustAfter(initial, h));
  }

  // The first checkpoint of a connection leaves no choice about its flag.
  lemma PendingOnce(initial: set<Id>, h: seq<Event>, c: Conn, flag: bool)
    requires Pending(initial, h, c, flag) && Once(h)
    ensures Pending(initial, h, c, true) <==> flag
  {
    var i: nat :| PendingAt(initial, h, c, i, flag);
    if Pending(initial, h, c, true) {
      var k: nat :| PendingAt(initial, h, c, k, true);
      assert k == i;
    }
  }

  // Another event keeps the account of a peer; one that sets the trust in its node sets the flag.
  lemma HeldKeeps(initial: set<Id>, h: seq<Event>, c: Conn, flag: bool, guest: bool, e: Event)
    requires Held(initial, h, c, flag, guest)
    ensures Held(initial, h + [e], c, if SetsTrust(e, c.id) then e.AddTrusted? else flag, guest)
  {
    var i: nat, j: nat :| HeldAt(initial, h, c, i, j, flag, guest);
    TrustSnoc(initial, h, e);
    SetSnoc(h, j, c.id, e);
    hide TrustAfter, SetSince;
    assert (h + [e])[..i] == h[..i];
    assert HeldAt(initial, h + [e], c, i, j, if SetsTrust(e, c.id) then e.AddTrusted? else flag, guest);
  }

  // A connection that passes its second checkpoint is held with the flag that it got at the first.
  lemma HeldNew(initial: set<Id>, h: seq<Event>, c: Conn, flag: bool)
    requires Pending(initial, h, c, flag)
    ensures Held(initial, h + [AddPeer(c)], c, flag, !flag)
  {
    var i: nat :| PendingAt(initial, h, c, i, flag);
    var g := h + [AddPeer(c)];
    assert g[..i] == h[..i];
    assert !SetSince(g, |h|, c.id);
    assert HeldAt(initial, g, c, i, |h|, flag, !flag);
  }

  // Trust in a node changes only by events that set it.
  lemma {:induction false} TrustKept(initial: set<Id>, h: seq<Event>, j: nat, id: Id)
    requires j < |h| && h[j].AddPeer? && !SetSince(h, j, id)
    ensures id in TrustAfter(initial, h) <==> id in TrustAfter(initial, h[..j])
    decreases |h|
  {
    var n := |h| - 1;
    if j < n {
      var g := h[..n];
      assert !SetsTrust(h[n], id);
      SetSnoc(g, j, id, h[n]);
      assert g + [h[n]] == h && g[..j] == h[..j];
      TrustKept(initial, g, j, id);
    }
  }

  // Which peers carry a flag that differs from the trust in their node: exactly those whose node's trust was
  // different at their two checkpoints and has not been set since.
  lemma StaleIff(initial: set<Id>, h: seq<Event>, c: Conn, flag: bool, guest: bool, i: nat, j: nat)
    requires Held(initial, h, c, flag, guest) && Once(h)
    requires i < |h| && h[i] == PostHandshake(c) && j < |h| && h[j] == AddPeer(c)
    ensures i < j
    ensures guest <==> c.id !in TrustAfter(initial, h[..i])
    ensures (flag <==> c.id in TrustAfter(initial, h)) <==>
              SetSince(h, j, c.id) || (c.id in TrustAfter(initial, h[..i]) <==> c.id in TrustAfter(initial, h[..j]))
  {
    var i': nat, j': nat :| HeldAt(initial, h, c, i', j', flag, guest);
    assert i' == i && j' == j;
    if !SetSince(h, j, c.id) {
      TrustKept(initial, h, j, c.id);
    }
  }

  // ----- Runs as histories -----

  // What a server is set up with.
  datatype Setup = Setup(self: Id, maxPeers: int, maxInbound: int, protocols: seq<Mux.Protocol>, trusted: set<Id>)

  // The connection may become a peer next to these peers.
  ghost predicate Admissible(g: Setup, peers: map<Id, Conn>, c: Conn, flag: bool) {
    && c.id !in peers && c.id != g.self && (g.protocols == [] || Mux.Shared(g.protocols, c.caps) != {})
    && (flag || (|peers| < g.maxPeers && (c.inbound ==> |Inbound(peers)| < g.maxInbound)))
  }

  // The peers after one more event. A connection comes to its second checkpoint with the trust that its node had at
  // the first.
  ghost function TableStep(g: Setup, peers: map<Id, Conn>, h: seq<Event>, e: Event): map<Id, Conn> {
    if e.AddPeer? && Admissible(g, peers, e.conn, Pending(g.trusted, h, e.conn, true)) then peers[e.conn.id := e.conn]
    else if e.DelPeer? then peers - {e.conn.id}
    else peers
  }

  // The peers after a history.
  ghost function Table(g: Setup, h: seq<Event>): map<Id, Conn> {
    if h == [] then map[] else
      var n := |h| - 1;
      TableStep(g, Table(g, h[..n]), h[..n], h[n])
  }

  // The event can take place after this history: a connection comes to each checkpoint once and in order, and leaves
  // only if it is a peer.
  ghost predicate TakesPlace(peers: map<Id, Conn>, h: seq<Event>, e: Event) {
    match e
    case PostHandshake(c) => e !in h
    case AddPeer(c) => PostHandshake(c) in h && e !in h
    case DelPeer(c) => c.id in peers && peers[c.id] == c
    case _ => true
  }

  // The events that take place, of those that are sent.
  ghost function History(g: Setup, events: seq<Event>): seq<Event> {
    if events == [] then [] else
      var n := |events| - 1;
      var h := History(g, events[..n]);
      if TakesPlace(Table(g, h), h, events[n]) then h + [events[n]] else h
  }

  lemma TableSnoc(g: Setup, h: seq<Event>, e: Event)
    ensures Table(g, h + [e]) == TableStep(g, Table(g, h), h, e)
  {
    assert (h + [e])[..|h|] == h;
  }

  lemma HistorySnoc(g: Setup, events: seq<Event>, i: nat)
    requires i < |events|
    ensures var h := History(g, events[..i]);
            History(g, events[..i + 1]) == if TakesPlace(Table(g, h), h, events[i]) then h + [events[i]] else h
  {
    assert events[..i + 1][..i] == events[..i];
  }

  // Who becomes a peer, with the first checkpoint at i: a connection to another node that is not a peer yet and shares a
  // protocol, if the node was trusted at i or there is room among all peers and, for an inbound one, among those.
  lemma AdmissionIff(g: Setup, h: seq<Event>, c: Conn, i: nat)
    requires Once(h) && i < |h| && h[i] == PostHandshake(c)
    ensures var peers := Table(g, h);
            Table(g, h + [AddPeer(c)]) ==
            if && c.id !in peers && c.id != g.self && (g.protocols == [] || Mux.Shared(g.protocols, c.caps) != {})
               && (|| c.id in TrustAfter(g.trusted, h[..i])
                   || (|peers| < g.maxPeers && (!c.inbound || |set id | id in peers && peers[id].inbound| < g.maxInbound)))
            then peers[c.id := c] else peers
  {
    hide Table, TrustAfter, Mux.Shared;
    TableSnoc(g, h, AddPeer(c));
    var flag := c.id in TrustAfter(g.trusted, h[..i]);
    assert PendingAt(g.trusted, h, c, i, flag);
    PendingOnce(g.trusted, h, c, flag);
  }

  // The history has the events at these places, in order, and all changes of trust are there.
  ghost predicate Places(events: seq<Event>, h: seq<Event>, at: seq<nat>) {
    && |at| == |h| && (forall k :: 0 <= k < |at| ==> at[k] < |events| && events[at[k]] == h[k])
    && (forall k, l :: 0 <= k < l < |at| ==> at[k] < at[l])
    && (forall i :: 0 <= i < |events| && ConnOf(events[i]) == {} ==> i in at)
  }

  lemma PlacesSnoc(events: seq<Event>, h: seq<Event>, at: seq<nat>, e: Event)
    requires Places(events, h, at)
    ensures Places(events + [e], h + [e], at + [|events|])
    ensures ConnOf(e) != {} ==> Places(events + [e], h, at)
  {
    var at' := at + [|events|];
    assert at'[|at|] == |events|;
    assert forall i <- at :: i in at';
  }

  // The history has the events that take place in the order of the run.
  lemma {:induction false} HistoryAt(g: Setup, events: seq<Event>) returns (at: seq<nat>)
    ensures Places(events, History(g, events), at)
    decreases |events|
  {
    at := [];
    if events != [] {
      var n := |events| - 1;
      at := HistoryAt(g, events[..n]);
      var h := History(g, events[..n]);
      hide Places;
      PlacesSnoc(events[..n], h, at, events[n]);
      assert events[..n] + [events[n]] == events;
      if TakesPlace(Table(g, h), h, events[n]) {
        at := at + [n];
      }
    }
  }

  // A connection that was announced has come to its first checkpoint.
  lemma {:induction false} AllCome(g: Setup, events: seq<Event>, c: Conn)
    requires PostHandshake(c) in events
    ensures PostHandshake(c) in History(g, events)
    decreases |events|
  {
    var n := |events| - 1;
    if PostHandshake(c) in events[..n] {
      AllCome(g, events[..n], c);
    } else {
      assert events == events[..n] + [events[n]];
    }
  }

  // ----- The loop -----

  class Server {
    const self: Id
    const maxPeers: int
    const dialRatio: int
    const noDial: bool
    const protocols: seq<Mux.Protocol>

    var peers: map<Id, Conn>
    var inboundCount: int
    var trusted: set<Id>

    ghost var conns: set<Conn>     // every connection that came to the loop
    ghost var guests: set<Id>      // the peers admitted without the trusted flag
    ghost var history: seq<Event>  // the events that have taken place
    ghost const initial: set<Id>   // the nodes trusted at the start

    ghost function Config(): Setup { Setup(self, maxPeers, InboundSlots(), protocols, initial) }

    ghost function InboundSlots(): int { MaxInbound(maxPeers, dialRatio, noDial) }

    // The peer table.
    ghost predicate TableOk()
      reads this`peers, this`inboundCount, this`guests
    {
      Counted(peers, inboundCount, guests, maxPeers, InboundSlots()) && Welcome(peers, self, protocols)
    }

    // Past its first checkpoint, a connection runs exactly if it is the peer of its node.
    ghost predicate StagesOk()
      reads this`peers, this`conns, this`history, conns`stage
    {
      && OrderOk()
      && (forall id <- peers.Keys :: peers[id] in conns && peers[id].id == id)
      && (forall c <- conns :: !c.stage.Handshaking? && (c.stage.Running? <==> c.id in peers && peers[c.id] == c))
    }

    ghost predicate OrderOk()
      reads this`conns, this`history, conns`stage
    {
      Order(history, conns, At(Negotiating), At(Running))
    }

    // The connections at a stage.
    ghost function At(stage: Stage): set<Conn>
      reads this`conns, conns`stage
    {
      set c | c in conns && c.stage == stage
    }

    // How each kind of event keeps the order.
    twostate lemma TrustOrder(e: Event)
      requires old(OrderOk()) && ConnOf(e) == {} && history == old(history) + [e] && conns == old(conns)
      requires forall d <- conns :: d.stage == old(d.stage)
      ensures OrderOk()
    {
      hide Order;
      OrderTrust(old(history), conns, old(At(Negotiating)), old(At(Running)), e);
      assert At(Negotiating) == old(At(Negotiating)) && At(Running) == old(At(Running));
    }

    twostate lemma ComeOrder(c: Conn)
      requires old(OrderOk()) && c !in old(conns) && history == old(history) + [Event.PostHandshake(c)]
      requires conns == old(conns) + {c} && c.stage.Negotiating? && forall d <- old(conns) :: d.stage == old(d.stage)
      ensures OrderOk()
    {
      hide Order;
      OrderCome(old(history), old(conns), old(At(Negotiating)), old(At(Running)), c);
      assert At(Negotiating) == old(At(Negotiating)) + {c} && At(Running) == old(At(Running));
    }

    twostate lemma EnterOrder(c: Conn)
      requires old(OrderOk()) && c in conns && old(c.stage).Negotiating? && history == old(history) + [Event.AddPeer(c)]
      requires conns == old(conns) && c.stage in {Running, Gone} && forall d <- conns :: d != c ==> d.stage == old(d.stage)
      ensures OrderOk()
    {
      hide Order;
      OrderEnter(old(history), conns, old(At(Negotiating)), old(At(Running)), c, c.stage.Running?);
      assert At(Negotiating) == old(At(Negotiating)) - {c};
      assert At(Running) == old(At(Running)) + if c.stage.Running? then {c} else {};
    }

    twostate lemma LeaveOrder(c: Conn)
      requires old(OrderOk()) && c in conns && old(c.stage).Running? && history == old(history) + [Event.DelPeer(c)]
      requires conns == old(conns) && c.stage.Gone? && forall d <- conns :: d != c ==> d.stage == old(d.stage)
      ensures OrderOk()
    {
      hide Order;
      OrderLeave(old(history), conns, old(At(Negotiating)), old(At(Running)), c);
      assert At(Negotiating) == old(At(Negotiating)) && At(Running) == old(At(Running)) - {c};
    }

    // Trust, flags and guests follow from the history.
    ghost predicate FlagsOk()
      reads this`peers, this`trusted, this`guests, this`history, this`conns, conns
    {
      && trusted == TrustAfter(initial, history)
      && (forall id <- peers.Keys :: peers[id] in conns && Held(initial, history, peers[id], peers[id].trusted, id in guests))
      && (forall c <- conns :: c.stage.Negotiating? ==> Pending(initial, history, c, c.trusted))
    }

    constructor (self: Id, maxPeers: int, dialRatio: int, noDial: bool, protocols: seq<Mux.Protocol>, trusted: set<Id>)
      ensures this.self == self && this.maxPeers == maxPeers && this.dialRatio == dialRatio && this.noDial == noDial
      ensures this.protocols == protocols && this.trusted == initial == trusted && peers == map[] && conns == {} && history == []
      ensures TableOk() && StagesOk() && FlagsOk()
    {
      this.self, this.maxPeers, this.dialRatio, this.noDial := self, maxPeers, dialRatio, noDial;
      this.protocols, this.trusted, initial := protocols, trusted, trusted;
      peers, inboundCount, conns, guests, history := map[], 0, {}, {}, [];
      new;
      assert Inbound(peers) == {};
    }

    method AddTrusted(id: Id)
      requires TableOk() && StagesOk() && FlagsOk()
      modifies this`trusted, this`history, peers.Values`trusted
      ensures TableOk() && StagesOk() && FlagsOk() && trusted == old(trusted) + {id}
      ensures id in peers ==> peers[id].trusted
      ensures history == old(history) + [Event.AddTrusted(id)]
    {
      SetTrust(id, true);
    }

    method RemoveTrusted(id: Id)
      requires TableOk() && StagesOk() && FlagsOk()
      modifies this`trusted, this`history, peers.Values`trusted
      ensures TableOk() && StagesOk() && FlagsOk() && trusted == old(trusted) - {id}
      ensures id in peers ==> !peers[id].trusted
      ensures history == old(history) + [Event.RemoveTrusted(id)]
    {
      SetTrust(id, false);
    }

    // What adding and removing a trusted node have in common.
    method SetTrust(id: Id, on: bool)
      requires TableOk() && StagesOk() && FlagsOk()
      modifies this`trusted, this`history, peers.Values`trusted
      ensures TableOk() && StagesOk() && FlagsOk()
      ensures trusted == if on then old(trusted) + {id} else old(trusted) - {id}
      ensures id in peers ==> peers[id].trusted == on
      ensures history == old(history) + [if on then Event.AddTrusted(id) else Event.RemoveTrusted(id)]
    {
      hide Counted, Welcome, Held, Pending, TrustAfter, OrderOk;
      ghost var e := if on then Event.AddTrusted(id) else Event.RemoveTrusted(id);
      TrustSnoc(initial, history, e);
      HistoryKeeps(e);
      if on {
        trusted := trusted + {id};
      } else {
        trusted := trusted - {id};
      }
      history := history + [e];
      if id in peers {
        peers[id].trusted := on;
      }
      TrustOrder(e);
    }

    // One more event in the history: the connections keep their accounts.
    lemma HistoryKeeps(e: Event)
      requires FlagsOk()
      ensures forall id <- peers.Keys ::
        Held(initial, history + [e], peers[id], if SetsTrust(e, peers[id].id) then e.AddTrusted? else peers[id].trusted, id in guests)
      ensures forall c <- conns :: c.stage.Negotiating? ==> Pending(initial, history + [e], c, c.trusted)
    {
      hide Held, Pending, TrustAfter;
      forall id <- peers.Keys
        ensures Held(initial, history + [e], peers[id], if SetsTrust(e, peers[id].id) then e.AddTrusted? else peers[id].trusted, id in guests)
      {
        HeldKeeps(initial, history, peers[id], peers[id].trusted, id in guests, e);
      }
      forall c <- conns | c.stage.Negotiating?
        ensures Pending(initial, history + [e], c, c.trusted)
      {
        PendingKeeps(initial, history, c, c.trusted, e);
      }
    }

    // The first checkpoint: the identity of the other side is known.
    method PostHandshake(c: Conn)
      requires TableOk() && StagesOk() && FlagsOk() && c.stage.Handshaking? && !c.trusted
      modifies this`conns, this`history, c
      ensures TableOk() && StagesOk() && FlagsOk() && conns == old(conns) + {c}
      ensures c.stage.Negotiating? && (c.trusted <==> c.id in trusted)
      ensures history == old(history) + [Event.PostHandshake(c)]
    {
      hide Counted, Welcome, Held, Pending, TrustAfter, OrderOk;
      ghost var e := Event.PostHandshake(c);
      TrustSnoc(initial, history, e);
      HistoryKeeps(e);
      PendingNew(initial, history, c);
      if c.id in trusted {
        c.trusted := true;
      }
      c.stage, conns, history := Negotiating, conns + {c}, history + [e];
      ComeOrder(c);
    }

    // The connection may become a peer: there is room for it, or it is trusted.
    ghost predicate Admits(c: Conn)
      reads this`peers, this`inboundCount, c`trusted
    {
      && c.id !in peers && c.id != self && (protocols == [] || Mux.Shared(protocols, c.caps) != {})
      && (c.trusted || (|peers| < maxPeers && (c.inbound ==> inboundCount < InboundSlots())))
    }

    // postHandshakeChecks: which connections may become peers, and a true reason for the others.
    method PostHandshakeChecks(c: Conn) returns (err: Option<DiscReason>)
      ensures err.None? <==> Admits(c)
      ensures err == Some(TooManyPeers) <==>
        !c.trusted && (|peers| >= maxPeers || (c.inbound && inboundCount >= InboundSlots()))
      ensures err == Some(AlreadyConnected) <==> err != Some(TooManyPeers) && c.id in peers
      ensures err == Some(Self) <==> err != Some(TooManyPeers) && c.id !in peers && c.id == self
    {
      if !c.trusted && |peers| >= maxPeers {
        return Some(TooManyPeers);
      }
      if !c.trusted && c.inbound && inboundCount >= MaxInbound(maxPeers, dialRatio, noDial) {
        return Some(TooManyPeers);
      }
      if c.id in peers {
        return Some(AlreadyConnected);
      }
      if c.id == self {
        return Some(Self);
      }
      var count := CountMatchingProtocols(protocols, c.caps);
      if |protocols| > 0 && count == 0 {
        return Some(UselessPeer);
      }
      err := None;
    }

    // The second checkpoint: the connection becomes a peer, or is told why not.
    method AddPeer(c: Conn) returns (err: Option<DiscReason>)
      requires TableOk() && StagesOk() && FlagsOk() && c.stage.Negotiating? && c in conns
      modifies this`peers, this`inboundCount, this`guests, this`history, c`stage
      ensures TableOk() && StagesOk() && FlagsOk()
      ensures err.None? <==> old(Admits(c))
      ensures peers == if err.None? then old(peers)[c.id := c] else old(peers)
      ensures guests == old(guests) + if err.None? && !c.trusted then {c.id} else {}
      ensures c.stage == if err.None? then Running else Gone
      ensures history == old(history) + [Event.AddPeer(c)]
      ensures peers == TableStep(Config(), old(peers), old(history), Event.AddPeer(c))
    {
      hide TableOk, StagesOk, FlagsOk, TableStep, Config, Admits, InboundSlots;
      EntersIff(c);
      err := PostHandshakeChecks(c);
      if err.Some? {
        Reject(c);
      } else {
        Enter(c);
      }
    }

    // The connection becomes a peer.
    method Enter(c: Conn)
      requires TableOk() && StagesOk() && FlagsOk() && c.stage.Negotiating? && c in conns
      requires Admits(c)
      modifies this`peers, this`inboundCount, this`guests, this`history, c`stage
      ensures TableOk() && StagesOk() && FlagsOk() && peers == old(peers)[c.id := c]
      ensures guests == old(guests) + (if c.trusted then {} else {c.id}) && c.stage.Running?
      ensures history == old(history) + [Event.AddPeer(c)]
    {
      hide Counted, Welcome, StagesOk, FlagsOk, Mux.Shared, MaxInbound;
      CountedAdd(peers, inboundCount, guests, c, !c.trusted, maxPeers, InboundSlots());
      WelcomeAdd(peers, self, protocols, c);
      GuestsArePeers();
      Admit(c);
      if c.inbound {
        inboundCount := inboundCount + 1;
      }
    }

    lemma GuestsArePeers()
      requires TableOk()
      ensures guests <= peers.Keys
    {
    }

    method Reject(c: Conn)
      requires StagesOk() && FlagsOk() && c.stage.Negotiating? && c in conns
      modifies this`history, c`stage
      ensures StagesOk() && FlagsOk() && c.stage.Gone? && history == old(history) + [Event.AddPeer(c)]
    {
      hide Held, Pending, TrustAfter, OrderOk;
      ghost var e := Event.AddPeer(c);
      TrustSnoc(initial, history, e);
      HistoryKeeps(e);
      c.stage, history := Gone, history + [e];
      EnterOrder(c);
    }

    // Enters the connection into the table.
    method Admit(c: Conn)
      requires StagesOk() && FlagsOk() && c.stage.Negotiating? && c in conns && c.id !in peers && guests <= peers.Keys
      modifies this`peers, this`guests, this`history, c`stage
      ensures StagesOk() && FlagsOk() && peers == old(peers)[c.id := c]
      ensures guests == old(guests) + (if c.trusted then {} else {c.id}) && c.stage.Running?
      ensures history == old(history) + [Event.AddPeer(c)]
    {
      hide Held, Pending, TrustAfter, OrderOk;
      ghost var e := Event.AddPeer(c);
      TrustSnoc(initial, history, e);
      HistoryKeeps(e);
      HeldNew(initial, history, c, c.trusted);
      peers := peers[c.id := c];
      c.stage, history := Running, history + [e];
      EnterOrder(c);
      guests := guests + if c.trusted then {} else {c.id};
    }

    // A peer that has stopped running leaves the table.
    method DelPeer(c: Conn)
      requires TableOk() && StagesOk() && FlagsOk() && c in conns && c.stage.Running?
      modifies this`peers, this`inboundCount, this`guests, this`history, c`stage
      ensures TableOk() && StagesOk() && FlagsOk() && peers == old(peers) - {c.id} && guests == old(guests) - {c.id}
      ensures c.stage.Gone? && history == old(history) + [Event.DelPeer(c)]
    {
      hide Counted, Welcome, StagesOk, FlagsOk, Mux.Shared, InboundSlots;
      RunningPeer(c);
      CountedRemove(peers, inboundCount, guests, c.id, maxPeers, InboundSlots());
      WelcomeRemove(peers, self, protocols, c.id);
      Drop(c);
      if c.inbound {
        inboundCount := inboundCount - 1;
      }
    }

    lemma RunningPeer(c: Conn)
      requires StagesOk() && c in conns && c.stage.Running?
      ensures c.id in peers && peers[c.id] == c
    {
    }

    method Drop(c: Conn)
      requires StagesOk() && FlagsOk() && c.id in peers && peers[c.id] == c
      modifies this`peers, this`guests, this`history, c`stage
      ensures StagesOk() && FlagsOk() && peers == old(peers) - {c.id} && guests == old(guests) - {c.id}
      ensures c.stage.Gone? && history == old(history) + [Event.DelPeer(c)]
    {
      hide Held, Pending, TrustAfter, OrderOk;
      ghost var e := Event.DelPeer(c);
      TrustSnoc(initial, history, e);
      HistoryKeeps(e);
      peers, guests := peers - {c.id}, guests - {c.id};
      c.stage, history := Gone, history + [e];
      LeaveOrder(c);
    }

    // The goroutine of the connection can send this event now.
    predicate Sent(e: Event)
      reads ConnOf(e)
    {
      match e
      case PostHandshake(c) => c.stage.Handshaking?
      case AddPeer(c) => c.stage.Negotiating?
      case DelPeer(c) => c.stage.Running?
      case _ => true
    }

    // The second checkpoint decides on the connection as the history does.
    lemma EntersIff(c: Conn)
      requires TableOk() && StagesOk() && FlagsOk() && c in conns && c.stage.Negotiating?
      ensures TableStep(Config(), peers, history, Event.AddPeer(c)) == if Admits(c) then peers[c.id := c] else peers
    {
      hide Mux.Shared, Inbound, Within, Welcome, Held;
      PendingOnce(initial, history, c, c.trusted);
    }

    // What a connection can send is what can take place next.
    lemma SentIff(e: Event)
      requires StagesOk() && forall c <- ConnOf(e) :: c in conns || c.stage.Handshaking?
      ensures Sent(e) <==> TakesPlace(peers, history, e)
    {
      hide Once;
      match e
      case PostHandshake(c) => assert e in history ==> c in ConnOf(e);
      case AddPeer(c) => assert Event.PostHandshake(c) in history ==> c in ConnOf(Event.PostHandshake(c));
      case _ =>
    }

    // One turn of the loop.
    method Step(e: Event)
      requires TableOk() && StagesOk() && FlagsOk() && Sent(e)
      requires e.PostHandshake? ==> !e.conn.trusted
      requires e.AddPeer? || e.DelPeer? ==> e.conn in conns
      modifies this, conns, ConnOf(e)
      ensures TableOk() && StagesOk() && FlagsOk() && conns == old(conns) + ConnOf(e)
      ensures history == old(history) + [e] && peers == TableStep(Config(), old(peers), old(history), e)
    {
      hide TableOk, FlagsOk, Mux.Shared, Admissible, Pending, Order, Admits, InboundSlots;
      match e
      case AddTrusted(id) => AddTrusted(id);
      case RemoveTrusted(id) => RemoveTrusted(id);
      case PostHandshake(c) => PostHandshake(c);
      case AddPeer(c) => var err := AddPeer(c);
      case DelPeer(c) => DelPeer(c);
    }
  }

  function ConnOf(e: Event): set<Conn> {
    if e.PostHandshake? || e.AddPeer? || e.DelPeer? then {e.conn} else {}
  }

  ghost function Conns(events: seq<Event>): set<Conn> {
    set e, c | e in events && c in ConnOf(e) :: c
  }

  // Every run of the loop: any events in any order, of which those take place that their goroutines can send.
  // Connections come without the trusted flag. History and peers are functions of the events, and a change of trust
  // always takes place.
  method Run(self: Id, maxPeers: int, dialRatio: int, noDial: bool, protocols: seq<Mux.Protocol>, trusted: set<Id>, events: seq<Event>)
    returns (s: Server)
    requires forall c <- Conns(events) :: c.stage.Handshaking? && !c.trusted
    modifies Conns(events)
    ensures s.self == self && s.maxPeers == maxPeers && s.dialRatio == dialRatio && s.noDial == noDial && s.protocols == protocols
    ensures s.TableOk() && s.StagesOk() && s.FlagsOk() && s.initial == trusted
    ensures s.trusted == TrustAfter(trusted, events)
    ensures s.history == History(s.Config(), events) && s.peers == Table(s.Config(), s.history)
    ensures forall e <- events :: e.PostHandshake? ==> e.conn in s.conns
  {
    hide Server.TableOk, Server.FlagsOk, Server.StagesOk, TrustAfter, History, Table, TableStep, TakesPlace;
    s := new Server(self, maxPeers, dialRatio, noDial, protocols, trusted);
    ghost var g := s.Config();
    NothingYet(g);
    assert events[..0] == [];
    for i := 0 to |events|
      invariant fresh(s) && s.conns <= Conns(events) && s.initial == trusted && s.Config() == g
      invariant s.self == self && s.maxPeers == maxPeers && s.dialRatio == dialRatio && s.noDial == noDial && s.protocols == protocols
      invariant s.TableOk() && s.StagesOk() && s.FlagsOk()
      invariant forall c <- Conns(events) :: c in s.conns || (c.stage.Handshaking? && !c.trusted)
      invariant TrustAfter(trusted, s.history) == TrustAfter(trusted, events[..i])
      invariant s.history == History(g, events[..i]) && s.peers == Table(g, s.history)
    {
      assert ConnOf(events[i]) <= Conns(events);
      SeenPast(s);
      assert events[..i + 1] == events[..i] + [events[i]];
      TrustSnoc(trusted, events[..i], events[i]);
      TrustSnoc(trusted, s.history, events[i]);
      HistorySnoc(g, events, i);
      TableSnoc(g, s.history, events[i]);
      s.SentIff(events[i]);
      if s.Sent(events[i]) {
        s.Step(events[i]);
      }
    }
    assert events[..|events|] == events;
    TrustIs(s);
    AllSeen(s, events);
  }

  // Every connection that was announced has come to the loop.
  lemma AllSeen(s: Server, events: seq<Event>)
    requires s.StagesOk() && s.history == History(s.Config(), events)
    ensures forall e <- events :: e.PostHandshake? ==> e.conn in s.conns
  {
    hide History, Once;
    forall e <- events | e.PostHandshake?
      ensures e.conn in s.conns
    {
      AllCome(s.Config(), events, e.conn);
      assert e.conn in ConnOf(e);
    }
  }

  lemma NothingYet(g: Setup)
    ensures TrustAfter(g.trusted, []) == g.trusted && History(g, []) == [] && Table(g, []) == map[]
  {
  }

  lemma SeenPast(s: Server)
    requires s.StagesOk()
    ensures forall c <- s.conns :: !c.stage.Handshaking?
  {
  }

  lemma TrustIs(s: Server)
    requires s.FlagsOk()
    ensures s.trusted == TrustAfter(s.initial, s.history)
  {
  }

  // For every peer of a server: where in the history its checkpoints are, whether it was admitted as a guest, and
  // exactly when its flag agrees with the trust in its node.
  lemma PeerFlag(s: Server, id: Id) returns (i: nat, j: nat)
    requires s.StagesOk() && s.FlagsOk() && id in s.peers
    ensures var c, h := s.peers[id], s.history;
            && i < j < |h| && h[i] == PostHandshake(c) && h[j] == AddPeer(c)
            && (id in s.guests <==> id !in TrustAfter(s.initial, h[..i]))
            && ((c.trusted <==> id in s.trusted) <==>
                  SetSince(h, j, id) || (id in TrustAfter(s.initial, h[..i]) <==> id in TrustAfter(s.initial, h[..j])))
  {
    hide TrustAfter, SetSince, Once;
    var c, guest := s.peers[id], id in s.guests;
    i, j :| HeldAt(s.initial, s.history, c, i, j, c.trusted, guest);
    StaleIff(s.initial, s.history, c, c.trusted, guest, i, j);
  }

  // A server with room for one peer, and a dialed one.
  method FullServer(guest: Id, self: Id, trusted: set<Id>) returns (s: Server, d: Conn)
    requires guest != self && guest !in trusted
    ensures fresh(s) && fresh(d) && s.TableOk() && s.StagesOk() && s.FlagsOk() && s.conns == {d}
    ensures s.self == self && s.maxPeers == 1 && s.protocols == [] && s.trusted == trusted && s.peers == map[guest := d]
  {
    hide Server.TableOk, Server.StagesOk, Server.FlagsOk, Server.InboundSlots, Server.Config, TableStep, Mux.Shared;
    s := new Server(self, 1, 0, false, [], trusted);
    d := new Conn(guest, false, []);
    s.PostHandshake(d);
    var err := s.AddPeer(d);
  }

  // Trust that is withdrawn between the checkpoints leaves the flag behind: the peer is not trusted, and has
  // passed the limits as if it were.
  method StaleTrust(id: Id, guest: Id, self: Id) returns (s: Server, c: Conn)
    requires id != self && guest != self && id != guest
    ensures s.maxPeers == 1 && s.peers.Keys == {guest, id} && s.peers[id] == c && c.trusted && id !in s.trusted
  {
    hide Server.TableOk, Server.StagesOk, Server.FlagsOk, Server.InboundSlots, Server.Config, TableStep, Mux.Shared;
    var d;
    s, d := FullServer(guest, self, {id});
    c := new Conn(id, true, []);
    s.PostHandshake(c);
    s.RemoveTrusted(id);
    var err := s.AddPeer(c);
  }

  // An admitted peer of a server with protocols gets a table of running protocols that is not empty.
  lemma PeersRun(s: Server, id: Id, t: Mux.Table)
    requires s.TableOk() && s.protocols != [] && id in s.peers
    requires Mux.IsTable(t, s.protocols, Mux.Shared(s.protocols, s.peers[id].caps))
    ensures t != map[]
  {
    var c :| c in Mux.Shared(s.protocols, s.peers[id].caps);
    assert c.name in t;
  }
}
