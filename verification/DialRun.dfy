/** What the dial scheduler does in a run, as a function of the events: p2p/dial.go without its data structures.

    Channels, timers and the clock are the events of a run: each event carries the time at which the loop
    handles it. A `View` is what there is to know between two turns of the loop. The order in which the static
    dials of one turn are started is random, so dials are a set.
 */
module DialRuns {
  import opened Words
  import opened ExpHeaps

  // 35 seconds in nanoseconds: inboundThrottleTime plus five seconds.
  const DIAL_HISTORY_EXPIRATION := 35_000_000_000

  // A node record: whether it has an IP, its TCP port, and whether the netrestrict list lets it through.
  datatype Node = Node(id: Id, hasIP: bool, tcp: nat, allowed: bool) {
    predicate Reachable() { allowed && !(hasIP && tcp == 0) }
  }

  // What the loop can wake up for.
  datatype Event =
    | Candidate(node: Node)
    | TaskDone(id: Id, dest: Node)
    | PeerAdded(id: Id, dialed: bool)
    | PeerRemoved(id: Id, dialed: bool)
    | AddStatic(node: Node)
    | RemoveStatic(id: Id)
    | HistoryTimer

  // One turn of the loop: the time at its top, and the event that ends the wait with its time.
  datatype Turn = Turn(start: int, event: Event, at: int)

  ghost predicate Chronological(turns: seq<Turn>) {
    && (forall i :: 0 <= i < |turns| ==> 0 <= turns[i].start <= turns[i].at)
    && (forall i, j :: 0 <= i < j < |turns| ==> turns[i].at <= turns[j].start)
    && (forall i :: 0 <= i < |turns| && turns[i].event.TaskDone? ==> turns[i].event.dest.id == turns[i].event.id)
  }

  lemma Sooner(turns: seq<Turn>, i: nat)
    requires Chronological(turns) && i < |turns|
    ensures Chronological(turns[..i]) && turns[i].start <= turns[i].at && forall t <- turns[..i] :: t.at <= turns[i].start
    ensures turns[i].event.TaskDone? ==> turns[i].event.dest.id == turns[i].event.id
  {
  }

  // ----- The replay -----

  datatype Limits = Limits(self: Id, maxDialPeers: int, maxActiveDials: int)

  datatype Dialed = Dialed(id: Id, time: int)

  datatype View = View(
    dials: set<Dialed>,       // every dial so far
    active: set<Id>,          // the nodes being dialed
    own: set<Id>,             // those of them that are dialed by their present static task
    recent: set<ExpItem>,     // the history
    peers: set<Id>,
    dialPeers: int,
    statics: map<Id, Node>)

  // A dial to the node may be started.
  ghost predicate May(self: Id, v: View, n: Node) {
    n.id != self && n.id !in v.active && n.id !in v.peers && (forall x <- v.recent :: x.item != n.id) && n.Reachable()
  }

  // The static nodes that may be dialed.
  ghost function Due(self: Id, v: View): set<Id> {
    set id | id in v.statics && May(self, v, v.statics[id])
  }

  ghost function Start(v: View, ids: set<Id>, now: int): View {
    v.(dials := v.dials + (set id | id in ids :: Dialed(id, now)), active := v.active + ids,
       recent := v.recent + (set id | id in ids :: ExpItem(id, now + DIAL_HISTORY_EXPIRATION)))
  }

  // The top of a turn: all static nodes that may be dialed are dialed.
  ghost function Launched(self: Id, v: View, now: int): View {
    Start(v, Due(self, v), now).(own := v.own + Due(self, v))
  }

  // The loop listens for candidates in a turn that begins like this.
  ghost predicate Listens(c: Limits, v: View) {
    |v.active| < Min(2 * (c.maxDialPeers - v.dialPeers), c.maxActiveDials)
  }

  // What an event does.
  ghost function Handled(self: Id, listens: bool, v: View, e: Event, at: int): View {
    match e
    case Candidate(n) => if listens && May(self, v, n) then Start(v, {n.id}, at) else v
    case TaskDone(id, dest) =>
      v.(active := v.active - {id}, own := v.own - {id},
         statics := if id in v.own && id in v.statics then v.statics[id := dest] else v.statics)
    case PeerAdded(id, dialed) => v.(peers := v.peers + {id}, dialPeers := v.dialPeers + if dialed then 1 else 0)
    case PeerRemoved(id, dialed) => v.(peers := v.peers - {id}, dialPeers := v.dialPeers - if dialed then 1 else 0)
    case AddStatic(n) => if n.id in v.statics then v else v.(statics := v.statics[n.id := n])
    case RemoveStatic(id) => v.(statics := v.statics - {id}, own := v.own - {id})
    case HistoryTimer => v.(recent := set x | x in v.recent && at <= x.exp)
  }

  ghost function Turned(c: Limits, v: View, t: Turn): View {
    Handled(c.self, Listens(c, v), Launched(c.self, v, t.start), t.event, t.at)
  }

  const NOTHING := View({}, {}, {}, {}, {}, 0, map[])

  ghost function Replay(c: Limits, turns: seq<Turn>): View {
    if turns == [] then NOTHING else Turned(c, Replay(c, turns[..|turns| - 1]), turns[|turns| - 1])
  }

  lemma ReplaySnoc(c: Limits, turns: seq<Turn>, i: nat)
    requires i < |turns|
    ensures Replay(c, turns[..i + 1]) == Turned(c, Replay(c, turns[..i]), turns[i])
  {
    assert turns[..i + 1][..i] == turns[..i];
  }

  lemma ReplayLast(c: Limits, turns: seq<Turn>)
    requires turns != []
    ensures Replay(c, turns) == Turned(c, Replay(c, turns[..|turns| - 1]), turns[|turns| - 1])
  {
  }

  // ----- What the events say -----

  // The connected nodes, the number of dialed peers and the static nodes.
  datatype Known = Known(peers: set<Id>, dialPeers: int, statics: set<Id>)

  function Learn(k: Known, e: Event): Known {
    match e
    case PeerAdded(id, dialed) => k.(peers := k.peers + {id}, dialPeers := k.dialPeers + if dialed then 1 else 0)
    case PeerRemoved(id, dialed) => k.(peers := k.peers - {id}, dialPeers := k.dialPeers - if dialed then 1 else 0)
    case AddStatic(node) => k.(statics := k.statics + {node.id})
    case RemoveStatic(id) => k.(statics := k.statics - {id})
    case _ => k
  }

  ghost function Learned(turns: seq<Turn>): Known {
    if turns == [] then Known({}, 0, {}) else Learn(Learned(turns[..|turns| - 1]), turns[|turns| - 1].event)
  }

  // Some event of the run carries this record for a static node.
  ghost predicate Named(turns: seq<Turn>, n: Node) {
    exists t <- turns :: t.event == AddStatic(n) || (t.event.TaskDone? && t.event.dest == n)
  }

  // Some event of the run has proposed the node: as a candidate, or as a static node.
  ghost predicate Proposed(turns: seq<Turn>, id: Id) {
    exists t <- turns :: (t.event.Candidate? || t.event.AddStatic?) && t.event.node.id == id
  }

  lemma MoreNamed(turns: seq<Turn>, n: Node)
    requires turns != []
    ensures Named(turns, n) <==>
              || Named(turns[..|turns| - 1], n)
              || (var e := turns[|turns| - 1].event; e == AddStatic(n) || (e.TaskDone? && e.dest == n))
  {
    Last(turns);
  }

  lemma MoreProposed(turns: seq<Turn>, id: Id)
    requires turns != []
    ensures Proposed(turns, id) <==>
              || Proposed(turns[..|turns| - 1], id)
              || (var e := turns[|turns| - 1].event; (e.Candidate? || e.AddStatic?) && e.node.id == id)
  {
    Last(turns);
  }

  lemma Last(turns: seq<Turn>)
    requires turns != []
    ensures forall t :: t in turns <==> t in turns[..|turns| - 1] || t == turns[|turns| - 1]
  {
    assert turns == turns[..|turns| - 1] + [turns[|turns| - 1]];
  }

  // What a turn changes of what is known, and of the records.
  lemma TurnLearns(c: Limits, v: View, t: Turn)
    ensures var v' := Turned(c, v, t);
            && Known(v'.peers, v'.dialPeers, v'.statics.Keys) == Learn(Known(v.peers, v.dialPeers, v.statics.Keys), t.event)
            && forall id <- v'.statics.Keys ::
                 || (id in v.statics && v'.statics[id] == v.statics[id])
                 || (t.event.AddStatic? && t.event.node.id == id && v'.statics[id] == t.event.node)
                 || (t.event.TaskDone? && t.event.id == id && v'.statics[id] == t.event.dest)
  {
    hide Due, Listens, May;
    var u := Launched(c.self, v, t.start);
    assert u.peers == v.peers && u.dialPeers == v.dialPeers && u.statics == v.statics;
    hide Launched;
  }

  // Peers, dialed peers and static nodes are those of the events, under records that events have given.
  lemma {:induction false} Learns(c: Limits, turns: seq<Turn>)
    requires Chronological(turns)
    ensures var v := Replay(c, turns);
            && Known(v.peers, v.dialPeers, v.statics.Keys) == Learned(turns)
            && forall id <- v.statics.Keys :: v.statics[id].id == id && Named(turns, v.statics[id])
    decreases |turns|
  {
    if turns == [] {
      assert Replay(c, turns) == NOTHING;
    } else {
      hide Replay, Named, Turned, Learn, Chronological;
      var n := |turns| - 1;
      Sooner(turns, n);
      Learns(c, turns[..n]);
      ReplayLast(c, turns);
      TurnLearns(c, Replay(c, turns[..n]), turns[n]);
      var v' := Replay(c, turns);
      forall id <- v'.statics.Keys
        ensures v'.statics[id].id == id && Named(turns, v'.statics[id])
      {
        MoreNamed(turns, v'.statics[id]);
      }
    }
  }

  // Which dials a turn can add.
  lemma TurnDials(c: Limits, v: View, t: Turn)
    ensures forall d <- Turned(c, v, t).dials ::
              d in v.dials || d.id in v.statics || (t.event.Candidate? && t.event.node.id == d.id)
  {
    hide Listens, May;
    var u := Launched(c.self, v, t.start);
    assert forall d <- u.dials :: d in v.dials || d.id in v.statics;
    hide Launched;
  }

  // Only nodes that were proposed are dialed.
  lemma {:induction false} OnlyProposed(c: Limits, turns: seq<Turn>)
    ensures var v := Replay(c, turns);
            && (forall d <- v.dials :: Proposed(turns, d.id)) && (forall id <- v.statics.Keys :: Proposed(turns, id))
    decreases |turns|
  {
    if turns != [] {
      hide Replay, Proposed, Turned, Learn;
      var n := |turns| - 1;
      OnlyProposed(c, turns[..n]);
      ReplayLast(c, turns);
      TurnLearns(c, Replay(c, turns[..n]), turns[n]);
      TurnDials(c, Replay(c, turns[..n]), turns[n]);
      forall id
        ensures Proposed(turns[..n], id) ==> Proposed(turns, id)
        ensures (var e := turns[n].event; (e.Candidate? || e.AddStatic?) && e.node.id == id) ==> Proposed(turns, id)
      {
        MoreProposed(turns, id);
      }
    }
  }

  // ----- The history -----

  // No history timer has fired after t.
  ghost predicate TimersBy(turns: seq<Turn>, t: int) { forall u <- turns :: u.event.HistoryTimer? ==> u.at <= t }

  // The dial is less than 35 seconds ago, or no timer has noticed that it is not.
  ghost predicate Fresh(turns: seq<Turn>, d: Dialed) { TimersBy(turns, d.time + 35_000_000_000) }

  ghost predicate Lately(turns: seq<Turn>, dials: set<Dialed>, id: Id) { exists d <- dials :: d.id == id && Fresh(turns, d) }

  // The history has an item for every such dial.
  ghost predicate Remembers(turns: seq<Turn>, v: View) {
    && (forall d <- v.dials :: Fresh(turns, d) ==> ExpItem(d.id, d.time + 35_000_000_000) in v.recent)
    && (forall x <- v.recent ::
          Dialed(x.item, x.exp - 35_000_000_000) in v.dials && Fresh(turns, Dialed(x.item, x.exp - 35_000_000_000)))
  }

  lemma RemembersLately(turns: seq<Turn>, v: View, id: Id)
    requires Remembers(turns, v)
    ensures (exists x <- v.recent :: x.item == id) <==> Lately(turns, v.dials, id)
  {
    hide Fresh;
    if exists x <- v.recent :: x.item == id {
      var x :| x in v.recent && x.item == id;
      assert Dialed(x.item, x.exp - 35_000_000_000) in v.dials;
    }
    if Lately(turns, v.dials, id) {
      var d :| d in v.dials && d.id == id && Fresh(turns, d);
      assert ExpItem(d.id, d.time + 35_000_000_000) in v.recent;
    }
  }

  lemma RemembersStart(turns: seq<Turn>, v: View, ids: set<Id>, now: int)
    requires Remembers(turns, v) && forall t <- turns :: t.at <= now
    ensures Remembers(turns, Start(v, ids, now))
  {
  }

  lemma RemembersEvent(turns: seq<Turn>, v: View, self: Id, listens: bool)
    requires turns != [] && Remembers(turns[..|turns| - 1], v) && Chronological(turns)
    ensures Remembers(turns, Handled(self, listens, v, turns[|turns| - 1].event, turns[|turns| - 1].at))
  {
    var n := |turns| - 1;
    var t := turns[n];
    Last(turns);
    if t.event.Candidate? {
      assert Remembers(turns, v);
      RemembersStart(turns, v, {t.event.node.id}, t.at);
    }
  }

  lemma {:induction false} HistoryLaw(c: Limits, turns: seq<Turn>)
    requires Chronological(turns)
    ensures Remembers(turns, Replay(c, turns))
    decreases |turns|
  {
    if turns == [] {
      assert Remembers(turns, NOTHING);
    } else {
      hide Remembers, Handled, Launched, Listens, Replay, Chronological;
      var n := |turns| - 1;
      Sooner(turns, n);
      HistoryLaw(c, turns[..n]);
      ReplayLast(c, turns);
      var v := Replay(c, turns[..n]);
      RemembersLaunch(turns[..n], v, c.self, turns[n].start);
      RemembersEvent(turns, Launched(c.self, v, turns[n].start), c.self, Listens(c, v));
    }
  }

  lemma RemembersLaunch(turns: seq<Turn>, v: View, self: Id, now: int)
    requires Remembers(turns, v) && forall t <- turns :: t.at <= now
    ensures Remembers(turns, Launched(self, v, now))
  {
    hide Due, Start;
    RemembersStart(turns, v, Due(self, v), now);
    RemembersSame(turns, Start(v, Due(self, v), now), Launched(self, v, now));
  }

  lemma RemembersSame(turns: seq<Turn>, v: View, u: View)
    requires Remembers(turns, v) && v.dials == u.dials && v.recent == u.recent
    ensures Remembers(turns, u)
  {
  }

  // ----- Which dials are started -----

  // The node is another one, not connected, not being dialed, not dialed lately, and can be reached.
  ghost predicate Free(c: Limits, turns: seq<Turn>, v: View, n: Node) {
    && n.id != c.self && n.id !in Learned(turns).peers && n.id !in v.active && !Lately(turns, v.dials, n.id)
    && n.allowed && (n.hasIP ==> n.tcp != 0)
  }

  lemma FreeIff(c: Limits, turns: seq<Turn>, v: View, n: Node)
    requires Remembers(turns, v) && v.peers == Learned(turns).peers
    ensures May(c.self, v, n) <==> Free(c, turns, v, n)
  {
    hide Lately, Learned, Remembers;
    RemembersLately(turns, v, n.id);
  }

  // At the top of the i-th turn, or of the wait at the end: exactly the free static nodes are dialed.
  lemma StaticIff(c: Limits, turns: seq<Turn>, now: int, id: Id)
    requires Chronological(turns) && forall t <- turns :: t.at <= now
    ensures var v := Replay(c, turns);
            var u := Launched(c.self, v, now);
            && (Dialed(id, now) in u.dials - v.dials <==> id in v.statics && Free(c, turns, v, v.statics[id]))
            && forall d <- u.dials - v.dials :: d.time == now && d.id in v.statics
  {
    var v := Replay(c, turns);
    Learns(c, turns);
    HistoryLaw(c, turns);
    if id in v.statics {
      FreeIff(c, turns, v, v.statics[id]);
    }
    if Dialed(id, now) in v.dials {
      assert Fresh(turns, Dialed(id, now));
      assert Lately(turns, v.dials, id);
    }
    hide Free, Lately, Remembers, Replay, Learned;
  }

  // A dial that is started now was not started before.
  lemma NotFree(c: Limits, turns: seq<Turn>, v: View, n: Node, now: int)
    requires Dialed(n.id, now) in v.dials && forall t <- turns :: t.at <= now
    ensures !Free(c, turns, v, n)
  {
    assert Fresh(turns, Dialed(n.id, now));
  }

  // A candidate is dialed exactly if there were fewer active dials at the top of the turn than slots, and it is free.
  lemma CandidateIff(c: Limits, turns: seq<Turn>, i: nat)
    requires Chronological(turns) && i < |turns| && turns[i].event.Candidate?
    ensures var v, t, n := Replay(c, turns[..i]), turns[i], turns[i].event.node;
            var u, v' := Launched(c.self, v, t.start), Replay(c, turns[..i + 1]);
            && v'.dials - u.dials == (if Dialed(n.id, t.at) in v'.dials - u.dials then {Dialed(n.id, t.at)} else {})
            && (Dialed(n.id, t.at) in v'.dials - u.dials <==>
                  && |v.active| < 2 * (c.maxDialPeers - v.dialPeers) && |v.active| < c.maxActiveDials
                  && Free(c, turns[..i], u, n))
  {
    hide Free, Remembers, Replay, Learned, Launched, Named, May, Chronological;
    Sooner(turns, i);
    var v, t, n := Replay(c, turns[..i]), turns[i], turns[i].event.node;
    var u := Launched(c.self, v, t.start);
    Learns(c, turns[..i]);
    HistoryLaw(c, turns[..i]);
    RemembersLaunch(turns[..i], v, c.self, t.start);
    LaunchKeeps(c.self, v, t.start);
    FreeIff(c, turns[..i], u, n);
    ReplaySnoc(c, turns, i);
    if Dialed(n.id, t.at) in u.dials {
      NotFree(c, turns[..i], u, n, t.at);
    }
    assert Replay(c, turns[..i + 1]) == if Listens(c, v) && May(c.self, u, n) then Start(u, {n.id}, t.at) else u;
    OneDial(u, n.id, t.at);
  }

  lemma OneDial(u: View, id: Id, at: int)
    ensures Start(u, {id}, at).dials == u.dials + {Dialed(id, at)}
  {
  }

  lemma LaunchKeeps(self: Id, v: View, now: int)
    ensures var u := Launched(self, v, now);
            u.peers == v.peers && u.dialPeers == v.dialPeers && u.statics == v.statics && u.active == v.active + Due(self, v)
  {
  }

  // ----- The active dials -----

  // A dial of the node is started in the k-th turn.
  ghost predicate Starts(c: Limits, turns: seq<Turn>, k: nat, id: Id)
    requires k < |turns|
  {
    StartsIn(c, Replay(c, turns[..k]), turns[k], id)
  }

  ghost predicate StartsIn(c: Limits, v: View, t: Turn, id: Id) {
    || id in Due(c.self, v)
    || (t.event.Candidate? && t.event.node.id == id && Listens(c, v) && May(c.self, Launched(c.self, v, t.start), t.event.node))
  }

  predicate Ends(t: Turn, id: Id) { t.event.TaskDone? && t.event.id == id }

  ghost predicate Unfinished(c: Limits, turns: seq<Turn>, k: nat, id: Id)
    requires k < |turns|
  {
    Starts(c, turns, k, id) && forall j :: k <= j < |turns| ==> !Ends(turns[j], id)
  }

  // Some dial of the node was started and has not ended.
  ghost predicate Running(c: Limits, turns: seq<Turn>, id: Id) { exists k :: 0 <= k < |turns| && Unfinished(c, turns, k, id) }

  // The nodes being dialed are those of the dials that were started and have not ended.
  lemma {:induction false} ActiveIff(c: Limits, turns: seq<Turn>, id: Id)
    ensures id in Replay(c, turns).active <==> Running(c, turns, id)
    decreases |turns|
  {
    if turns == [] {
      assert Replay(c, turns) == NOTHING;
    } else {
      hide Replay, StartsIn, Running, Turned, Ends;
      var n := |turns| - 1;
      ActiveIff(c, turns[..n], id);
      ReplayLast(c, turns);
      TurnedActive(c, Replay(c, turns[..n]), turns[n], id);
      RunningLast(c, turns, id);
    }
  }

  lemma RunningLast(c: Limits, turns: seq<Turn>, id: Id)
    requires turns != []
    ensures var n := |turns| - 1;
            Running(c, turns, id) <==> !Ends(turns[n], id) && (Running(c, turns[..n], id) || Starts(c, turns, n, id))
  {
    hide Starts, Unfinished, Ends;
    var n := |turns| - 1;
    UnfinishedLast(c, turns, id);
    forall k | 0 <= k < n
      ensures Unfinished(c, turns, k, id) <==> Unfinished(c, turns[..n], k, id) && !Ends(turns[n], id)
    {
      Earlier(c, turns, k, id);
    }
    if Running(c, turns[..n], id) {
      var k :| 0 <= k < n && Unfinished(c, turns[..n], k, id);
      assert Unfinished(c, turns, k, id) <==> !Ends(turns[n], id);
    }
    if Running(c, turns, id) {
      var k :| 0 <= k < |turns| && Unfinished(c, turns, k, id);
      assert k < n ==> Unfinished(c, turns[..n], k, id) && !Ends(turns[n], id);
    }
  }

  lemma UnfinishedLast(c: Limits, turns: seq<Turn>, id: Id)
    requires turns != []
    ensures Unfinished(c, turns, |turns| - 1, id) <==> Starts(c, turns, |turns| - 1, id) && !Ends(turns[|turns| - 1], id)
  {
    hide Starts;
  }

  lemma TurnedActive(c: Limits, v: View, t: Turn, id: Id)
    ensures id in Turned(c, v, t).active <==> !Ends(t, id) && (id in v.active || StartsIn(c, v, t, id))
  {
    hide May, Listens, Due, Launched;
    LaunchKeeps(c.self, v, t.start);
  }

  lemma Earlier(c: Limits, turns: seq<Turn>, k: nat, id: Id)
    requires k < |turns| - 1
    ensures Unfinished(c, turns, k, id) <==> Unfinished(c, turns[..|turns| - 1], k, id) && !Ends(turns[|turns| - 1], id)
  {
    hide Ends, StartsIn, Replay;
    assert turns[..|turns| - 1][..k] == turns[..k];
  }

  // ----- While the loop waits -----

  // A static node is being dialed, was dialed lately, is connected, or cannot be dialed.
  ghost predicate Attended(c: Limits, turns: seq<Turn>, v: View, id: Id) {
    || id == c.self || id in Learned(turns).peers || id in v.active || Lately(turns, v.dials, id)
    || (id in v.statics && Named(turns, v.statics[id]) && !v.statics[id].Reachable())
  }

  lemma AllAttended(c: Limits, turns: seq<Turn>, end: int)
    requires Chronological(turns) && forall t <- turns :: t.at <= end
    ensures var v := Launched(c.self, Replay(c, turns), end);
            && Known(v.peers, v.dialPeers, v.statics.Keys) == Learned(turns)
            && (forall d <- v.dials :: Proposed(turns, d.id))
            && (forall id <- v.statics.Keys :: Named(turns, v.statics[id]) && Attended(c, turns, v, id))
  {
    var v0 := Replay(c, turns);
    var v := Launched(c.self, v0, end);
    Learns(c, turns);
    HistoryLaw(c, turns);
    OnlyProposed(c, turns);
    RemembersLaunch(turns, v0, c.self, end);
    hide Named, Proposed, Remembers, Replay, Learned;
    forall id <- v.statics.Keys
      ensures Attended(c, turns, v, id)
    {
      RemembersLately(turns, v, id);
    }
  }
}
