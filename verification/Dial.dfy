/** The dial scheduler: the event loop of p2p/dial.go with its static pool, against the replay of the events.

    The scheduler writes every dial it starts into a log, on which the properties of whole runs are stated.
 */
module Dialing {
  import opened Words
  import opened ExpHeaps
  import opened DialRuns

  datatype DialError = ErrSelf | ErrNoPort | ErrAlreadyDialing | ErrAlreadyConnected | ErrNotWhitelisted | ErrRecentlyDialed

  // A dial in the log: what was started when, and whether the node was connected or being dialed then.
  datatype Dial = Dial(id: Id, time: int, connected: bool, active: bool)

  class DialTask {
    const id: Id
    const dynamic: bool
    var dest: Node
    var staticPoolIndex: int

    constructor (dest: Node, dynamic: bool)
      ensures id == dest.id && this.dynamic == dynamic && this.dest == dest && staticPoolIndex == -1
    {
      id, this.dynamic, this.dest, staticPoolIndex := dest.id, dynamic, dest, -1;
    }
  }

  // ----- The log and the history -----

  ghost predicate Listed(m: multiset<ExpItem>, id: Id) { exists x <- m :: x.item == id }

  // Two dials of one node are more than the expiration apart.
  ghost predicate Spaced(log: seq<Dial>) {
    forall i, j :: 0 <= i < j < |log| && log[i].id == log[j].id ==> log[i].time + DIAL_HISTORY_EXPIRATION < log[j].time
  }

  // A dial that is not long ago is still in the history.
  ghost predicate Remembered(m: multiset<ExpItem>, log: seq<Dial>, clock: int) {
    forall e <- log :: e.time + DIAL_HISTORY_EXPIRATION < clock
                       || exists x <- m :: x.item == e.id && e.time + DIAL_HISTORY_EXPIRATION <= x.exp
  }

  // Every item of the history is of a dial in the log, and expires that time after it.
  ghost predicate FromLog(m: multiset<ExpItem>, log: seq<Dial>) {
    forall x <- m :: exists e <- log :: e.id == x.item && e.time + DIAL_HISTORY_EXPIRATION == x.exp
  }

  ghost predicate HistoryOk(m: multiset<ExpItem>, log: seq<Dial>, clock: int) {
    Distinct(m) && Spaced(log) && Remembered(m, log, clock) && FromLog(m, log)
  }

  lemma FromLogAdd(m: multiset<ExpItem>, log: seq<Dial>, d: Dial)
    requires FromLog(m, log)
    ensures FromLog(m + multiset{ExpItem(d.id, d.time + DIAL_HISTORY_EXPIRATION)}, log + [d])
  {
    assert d in log + [d];
    forall x <- m
      ensures exists e <- log + [d] :: e.id == x.item && e.time + DIAL_HISTORY_EXPIRATION == x.exp
    {
      var e :| e in log && e.id == x.item && e.time + DIAL_HISTORY_EXPIRATION == x.exp;
      assert e in log + [d];
    }
  }

  lemma FromLogLess(m: multiset<ExpItem>, log: seq<Dial>, x: ExpItem)
    requires FromLog(m, log)
    ensures FromLog(m - multiset{x}, log)
  {
  }

  // Dialing a node that is not in the history keeps the dials apart.
  lemma HistoryAdd(m: multiset<ExpItem>, log: seq<Dial>, clock: int, id: Id, now: int)
    requires HistoryOk(m, log, clock) && !Listed(m, id) && clock <= now
    ensures HistoryOk(m + multiset{ExpItem(id, now + DIAL_HISTORY_EXPIRATION)}, log + [Dial(id, now, false, false)], now)
  {
    hide FromLog;
    FromLogAdd(m, log, Dial(id, now, false, false));
  }

  // Forgetting an item that has expired loses nothing.
  lemma HistoryRemove(m: multiset<ExpItem>, log: seq<Dial>, clock: int, x: ExpItem, now: int)
    requires HistoryOk(m, log, clock) && x in m && x.exp < now && clock <= now
    ensures HistoryOk(m - multiset{x}, log, now) && !Listed(m - multiset{x}, x.item)
  {
    hide FromLog;
    FromLogLess(m, log, x);
  }

  // ----- Active dials -----

  // Every active dial is in the log.
  ghost predicate Logged(ids: set<Id>, log: seq<Dial>) { forall id <- ids :: exists e <- log :: e.id == id }

  lemma LoggedLess(ids: set<Id>, id: Id, log: seq<Dial>)
    requires Logged(ids, log)
    ensures Logged(ids - {id}, log)
  {
  }

  lemma LoggedAdd(ids: set<Id>, log: seq<Dial>, d: Dial)
    requires Logged(ids, log)
    ensures Logged(ids + {d.id}, log + [d])
  {
    assert d in log + [d];
    forall id <- ids
      ensures exists e <- log + [d] :: e.id == id
    {
      var e :| e in log && e.id == id;
      assert e in log + [d];
    }
  }

  ghost function DynamicDials(dialing: map<Id, DialTask>): set<Id> {
    set id | id in dialing && dialing[id].dynamic
  }

  lemma DynamicBound(dialing: map<Id, DialTask>)
    ensures |DynamicDials(dialing)| <= |dialing|
  {
    Subset(DynamicDials(dialing), dialing.Keys);
  }

  lemma DynamicAdd(dialing: map<Id, DialTask>, task: DialTask)
    requires task.id !in dialing
    ensures |DynamicDials(dialing[task.id := task])| == |DynamicDials(dialing)| + if task.dynamic then 1 else 0
  {
    var d' := dialing[task.id := task];
    if task.dynamic {
      assert DynamicDials(d') == DynamicDials(dialing) + {task.id};
    } else {
      assert DynamicDials(d') == DynamicDials(dialing);
    }
  }

  lemma DynamicRemove(dialing: map<Id, DialTask>, id: Id)
    ensures |DynamicDials(dialing - {id})| <= |DynamicDials(dialing)|
  {
    Subset(DynamicDials(dialing - {id}), DynamicDials(dialing));
  }

  // ----- Seen as sets -----

  ghost function Dials(log: seq<Dial>): set<Dialed> { set e | e in log :: Dialed(e.id, e.time) }

  ghost function Items(m: multiset<ExpItem>): set<ExpItem> { set x | x in m }

  lemma DialsAdd(log: seq<Dial>, d: Dial)
    ensures Dials(log + [d]) == Dials(log) + {Dialed(d.id, d.time)}
  {
    assert d in log + [d];
    assert forall e :: e in log + [d] <==> e in log || e == d;
  }

  lemma Expired(m: multiset<ExpItem>, rest: multiset<ExpItem>, now: int)
    requires rest <= m && (forall x <- rest :: now <= x.exp) && (forall x <- m :: now <= x.exp ==> x in rest)
    ensures Items(rest) == set x | x in Items(m) && now <= x.exp
  {
  }

  lemma ItemsAdd(m: multiset<ExpItem>, x: ExpItem)
    ensures Items(m + multiset{x}) == Items(m) + {x}
  {
  }

  lemma StartOne(v: View, id: Id, now: int)
    ensures Start(v, {id}, now) == v.(dials := v.dials + {Dialed(id, now)}, active := v.active + {id},
                                      recent := v.recent + {ExpItem(id, now + DIAL_HISTORY_EXPIRATION)})
  {
  }

  // Starting some dials and then another one is starting all of them.
  lemma StartMore(v: View, ids: set<Id>, id: Id, now: int)
    ensures Start(Start(v, ids, now).(own := v.own + ids), {id}, now).(own := v.own + ids + {id}) ==
            Start(v, ids + {id}, now).(own := v.own + (ids + {id}))
  {
    var a, b := Start(Start(v, ids, now).(own := v.own + ids), {id}, now), Start(v, ids + {id}, now);
    assert a.dials == b.dials && a.active == b.active && a.recent == b.recent;
    assert v.own + ids + {id} == v.own + (ids + {id});
  }

  // The active dials of present static tasks.
  ghost function Own(dialing: map<Id, DialTask>, statics: map<Id, DialTask>): set<Id> {
    set id | id in dialing && id in statics && dialing[id] == statics[id]
  }

  lemma OwnAdd(dialing: map<Id, DialTask>, statics: map<Id, DialTask>, task: DialTask)
    requires task.id !in dialing
    ensures Own(dialing[task.id := task], statics) ==
            Own(dialing, statics) + if task.id in statics && statics[task.id] == task then {task.id} else {}
  {
  }

  // ----- The scheduler -----

  class DialScheduler {
    const self: Id
    const maxDialPeers: int
    const maxActiveDials: int
    const history: ExpHeap

    var dialing: map<Id, DialTask>
    var peers: set<Id>
    var dialPeers: int
    var statics: map<Id, DialTask>
    var staticPool: seq<DialTask>
    var nodesEnabled: bool         // nodesCh is not nil

    ghost var log: seq<Dial>
    ghost var clock: int

    // The pool holds static tasks, each at the index it carries; every other static task carries -1.
    ghost predicate PoolOk()
      reads this`statics, this`staticPool, statics.Values, staticPool
    {
      && (forall i :: 0 <= i < |staticPool| ==>
            && staticPool[i].id in statics && statics[staticPool[i].id] == staticPool[i]
            && staticPool[i].staticPoolIndex == i)
      && (forall id <- statics.Keys ::
            && statics[id].id == id && statics[id].dest.id == id && !statics[id].dynamic
            && -1 <= statics[id].staticPoolIndex < |staticPool|
            && (statics[id].staticPoolIndex >= 0 ==> staticPool[statics[id].staticPoolIndex] == statics[id]))
    }

    ghost predicate Books()
      reads this`dialing, this`log, this`clock, history
    {
      && history.Valid() && HistoryOk(multiset(history.h), log, clock)
      && (forall id <- dialing.Keys :: dialing[id].id == id)
      && |DynamicDials(dialing)| <= Max(maxActiveDials, 0)
      && (forall e <- log :: e.id != self && !e.connected && !e.active)
      && Logged(dialing.Keys, log)
    }

    // A dial to the node may be started.
    ghost predicate Eligible(id: Id)
      reads this`dialing, this`peers, history
    {
      id != self && id !in dialing && id !in peers && !Listed(multiset(history.h), id)
    }

    // A static task outside the pool whose node may be dialed now.
    ghost predicate Poolable(id: Id)
      reads this`dialing, this`peers, this`statics, history, statics.Values
    {
      && id in statics && statics[id].staticPoolIndex < 0 && Eligible(id)
      && statics[id].dest.Reachable()
    }

    // No static task that may be dialed is missing from the pool, but for those in the gap.
    ghost predicate Complete(gap: set<Id>)
      reads this`dialing, this`peers, this`statics, history, statics.Values
    {
      forall id <- statics.Keys :: id !in gap ==> !Poolable(id)
    }

    // Whatever is in the pool may be dialed.
    ghost predicate PoolEligible()
      reads this`dialing, this`peers, this`staticPool, history, staticPool`dest
    {
      forall i :: 0 <= i < |staticPool| ==> Eligible(staticPool[i].id) && staticPool[i].dest.Reachable()
    }

    ghost function Dests(): map<Id, Node>
      reads this`statics, statics.Values`dest
    {
      map id | id in statics :: statics[id].dest
    }

    // What the replay knows of the scheduler.
    ghost function Seen(): View
      reads this`log, this`dialing, this`peers, this`dialPeers, this`statics, history`h, statics.Values`dest
    {
      View(Dials(log), dialing.Keys, Own(dialing, statics), Items(multiset(history.h)), peers, dialPeers, Dests())
    }

    lemma SeenIs()
      ensures Seen() == View(Dials(log), dialing.Keys, Own(dialing, statics), Items(multiset(history.h)), peers, dialPeers, Dests())
      ensures Dests().Keys == statics.Keys
    {
    }

    ghost function Config(): Limits { Limits(self, maxDialPeers, maxActiveDials) }

    lemma MayIff(n: Node)
      ensures May(self, Seen(), n) <==> Eligible(n.id) && n.Reachable()
    {
    }

    // The pool holds exactly the static nodes that are due.
    lemma PoolDue()
      requires PoolOk() && PoolEligible() && Complete({})
      ensures (set t | t in staticPool :: t.id) == Due(self, Seen())
    {
      var v := Seen();
      forall id <- statics.Keys
        ensures May(self, v, v.statics[id]) <==> statics[id].staticPoolIndex >= 0
      {
        MayIff(statics[id].dest);
        if statics[id].staticPoolIndex >= 0 {
          assert staticPool[statics[id].staticPoolIndex] == statics[id];
        }
      }
      hide May, Seen;
    }

    // The node of the task, if it is the static task of its node.
    ghost function Static(task: DialTask): set<Id>
      reads this`statics
    {
      if task.id in statics && statics[task.id] == task then {task.id} else {}
    }

    constructor (self: Id, maxDialPeers: int, maxActiveDials: int)
      ensures PoolOk() && Books() && Complete({}) && staticPool == [] && log == [] && fresh(history)
      ensures statics == map[] && clock == 0 && Seen() == NOTHING
      ensures this.self == self && this.maxDialPeers == maxDialPeers && this.maxActiveDials == maxActiveDials
    {
      this.self, this.maxDialPeers, this.maxActiveDials := self, maxDialPeers, maxActiveDials;
      history := new ExpHeap();
      dialing, peers, dialPeers, statics, staticPool, nodesEnabled := map[], {}, 0, map[], [], false;
      log, clock := [], 0;
      new;
      assert DynamicDials(dialing) == {};
    }

    // freeDialSlots: negative when peers connect while their task is still running.
    function FreeDialSlots(): int
      reads this
    {
      Min((maxDialPeers - dialPeers) * 2, maxActiveDials) - |dialing|
    }

    // The reason that a refusal gives is true of the node.
    ghost predicate Caused(n: Node, e: DialError)
      reads this`dialing, this`peers, history
    {
      match e
      case ErrSelf => n.id == self
      case ErrNoPort => n.hasIP && n.tcp == 0
      case ErrAlreadyDialing => n.id in dialing
      case ErrAlreadyConnected => n.id in peers
      case ErrNotWhitelisted => !n.allowed
      case ErrRecentlyDialed => Listed(multiset(history.h), n.id)
    }

    // checkDial.
    method CheckDial(n: Node) returns (err: Option<DialError>)
      requires history.Valid()
      ensures err.None? <==> Eligible(n.id) && n.Reachable()
      ensures err.Some? ==> Caused(n, err.value)
    {
      if n.id == self {
        return Some(ErrSelf);
      }
      if n.hasIP && n.tcp == 0 {
        return Some(ErrNoPort);
      }
      if n.id in dialing {
        return Some(ErrAlreadyDialing);
      }
      if n.id in peers {
        return Some(ErrAlreadyConnected);
      }
      if !n.allowed {
        return Some(ErrNotWhitelisted);
      }
      var recent := history.Contains(n.id);
      assert recent <==> Listed(multiset(history.h), n.id);
      if recent {
        return Some(ErrRecentlyDialed);
      }
      err := None;
    }

    // addToStaticPool. The source panics on a task that is already in the pool.
    method AddToStaticPool(task: DialTask) returns (panicked: bool)
      requires PoolOk() && task.id in statics && statics[task.id] == task && Complete({task.id})
      modifies this`staticPool, task`staticPoolIndex
      ensures PoolOk() && Complete({}) && (panicked <==> old(task.staticPoolIndex) >= 0)
      ensures staticPool == if panicked then old(staticPool) else old(staticPool) + [task]
      ensures old(PoolEligible() && Eligible(task.id)) && task.dest.Reachable() ==> PoolEligible()
    {
      if task.staticPoolIndex >= 0 {
        return true;
      }
      staticPool := staticPool + [task];
      task.staticPoolIndex := |staticPool| - 1;
      panicked := false;
    }

    // removeFromStaticPool: moves the last task into the gap.
    method RemoveFromStaticPool(idx: nat, ghost gap: set<Id>)
      requires PoolOk() && idx < |staticPool|
      requires Complete(gap) && (staticPool[idx].id in gap || !Eligible(staticPool[idx].id))
      modifies this`staticPool, staticPool`staticPoolIndex
      ensures PoolOk() && Complete(gap)
      ensures var p := old(staticPool); staticPool == p[idx := p[|p| - 1]][..|p| - 1]
      ensures old(staticPool[idx]).staticPoolIndex == -1
    {
      var task, end := staticPool[idx], |staticPool| - 1;
      staticPool := staticPool[idx := staticPool[end]];
      staticPool[idx].staticPoolIndex := idx;
      staticPool := staticPool[..end];
      task.staticPoolIndex := -1;
    }

    // startDial. The dial itself runs in its own goroutine and ends with a TaskDone event.
    method StartDial(task: DialTask, now: int)
      requires Books() && Eligible(task.id) && clock <= now
      requires task.dynamic ==> |DynamicDials(dialing)| < maxActiveDials
      modifies this`dialing, this`log, this`clock, history
      ensures Books() && clock == now && log == old(log) + [Dial(task.id, now, task.id in peers, task.id in old(dialing))]
      ensures dialing == old(dialing)[task.id := task]
      ensures !task.dynamic ==> |DynamicDials(dialing)| == |DynamicDials(old(dialing))|
      ensures forall id :: id != task.id ==> (old(Eligible(id)) <==> Eligible(id))
      ensures old(Complete({})) ==> Complete({})
      ensures Seen() == Start(old(Seen()), {task.id}, now).(own := old(Seen()).own + Static(task))
    {
      hide Start, Dials, Items, Own, Dests, HistoryOk, DynamicDials, Listed, Logged;
      DialsAdd(log, Dial(task.id, now, task.id in peers, task.id in dialing));
      ItemsAdd(multiset(history.h), ExpItem(task.id, now + DIAL_HISTORY_EXPIRATION));
      OwnAdd(dialing, statics, task);
      StartOne(Seen(), task.id, now);
      HistoryAdd(multiset(history.h), log, clock, task.id, now);
      ListedAdd(multiset(history.h), ExpItem(task.id, now + DIAL_HISTORY_EXPIRATION));
      DynamicAdd(dialing, task);
      LoggedAdd(dialing.Keys, log, Dial(task.id, now, task.id in peers, task.id in dialing));
      history.Add(task.id, now + DIAL_HISTORY_EXPIRATION);
      log, clock := log + [Dial(task.id, now, task.id in peers, task.id in dialing)], now;
      dialing := dialing[task.id := task];
      assert dialing.Keys == old(dialing.Keys) + {task.id};
      assert Dests() == old(Dests());
    }

    // startStaticDials: empties the pool, one task after the other. `pick` stands for the random choice.
    method StartStaticDials(now: int, pick: nat -> nat)
      requires PoolOk() && Books() && PoolEligible() && Complete({}) && clock <= now
      modifies this`dialing, this`log, this`clock, this`staticPool, staticPool`staticPoolIndex, history
      ensures PoolOk() && Books() && Complete({}) && staticPool == [] && clock <= now
      ensures |DynamicDials(dialing)| == |DynamicDials(old(dialing))|
      ensures old(log) <= log && |log| == |old(log)| + |old(staticPool)| && Seen() == Launched(self, old(Seen()), now)
      ensures forall t :: t in old(staticPool) ==> t.id in dialing && dialing[t.id] == t
    {
      hide Books, PoolOk, PoolEligible, DynamicDials, Complete, Listed, Seen, Start, Due;
      var round := 0;
      PoolDue();
      ghost var v, started: set<Id> := Seen(), {};
      StartNone(v, now);
      while |staticPool| > 0
        invariant PoolOk() && Books() && PoolEligible() && Complete({}) && clock <= now
        invariant |DynamicDials(dialing)| == |DynamicDials(old(dialing))|
        invariant old(log) <= log && |log| + |staticPool| == |old(log)| + |old(staticPool)|
        invariant Seen() == Start(v, started, now).(own := v.own + started)
        invariant started + (set t | t in staticPool :: t.id) == Due(self, v)
        invariant forall t :: t in staticPool ==> t in old(staticPool)
        invariant forall t :: t in old(staticPool) ==> t in staticPool || (t.id in dialing && dialing[t.id] == t)
        decreases |staticPool|
      {
        assert forall i :: 0 <= i < |staticPool| ==> staticPool[i] in old(staticPool);
        ghost var id, rest := staticPool[pick(round) % |staticPool|].id, set t | t in staticPool :: t.id;
        StartPooled(pick(round) % |staticPool|, now);
        StartMore(v, started, id, now);
        started := started + {id};
        assert rest == (set t | t in staticPool :: t.id) + {id};
        round := round + 1;
      }
      assert started == Due(self, v);
    }

    // Starts one task of the pool and takes it out.
    method StartPooled(idx: nat, now: int)
      requires PoolOk() && Books() && PoolEligible() && Complete({}) && clock <= now && idx < |staticPool|
      modifies this`dialing, this`log, this`clock, this`staticPool, staticPool`staticPoolIndex, history
      ensures PoolOk() && Books() && PoolEligible() && Complete({}) && clock == now
      ensures |DynamicDials(dialing)| == |DynamicDials(old(dialing))|
      ensures var task := old(staticPool)[idx];
              && log == old(log) + [Dial(task.id, now, false, false)] && dialing == old(dialing)[task.id := task]
              && task.id !in old(dialing)
              && |staticPool| == |old(staticPool)| - 1 && (forall t :: t in staticPool ==> t in old(staticPool))
              && (forall t :: t in old(staticPool) ==> t == task || t in staticPool)
              && Seen() == Start(old(Seen()), {task.id}, now).(own := old(Seen()).own + {task.id})
    {
      hide Seen, Start, Books, DynamicDials, Complete, Listed;
      var task := staticPool[idx];
      PoolTask(idx);
      FillGap(staticPool, idx, task.id);
      hide PoolOk;
      StartDial(task, now);
      RemoveFromStaticPool(idx, {});
    }

    // updateStaticPool: moves a static task back into the pool if it may be dialed.
    method UpdateStaticPool(id: Id)
      requires PoolOk() && Books() && PoolEligible() && Complete({id})
      modifies this`staticPool, statics.Values`staticPoolIndex
      ensures PoolOk() && Books() && PoolEligible() && Complete({})
      ensures staticPool == old(staticPool) + if old(Poolable(id)) then [statics[id]] else []
    {
      hide HistoryOk, DynamicDials, Listed, PoolEligible;
      if id in statics && statics[id].staticPoolIndex < 0 {
        var task := statics[id];
        var err := CheckDial(task.dest);
        if err.None? {
          var panicked := AddToStaticPool(task);
        }
      }
    }

    // expireHistory, with the callback of expire.
    method ExpireHistory(now: int)
      requires PoolOk() && Books() && PoolEligible() && Complete({}) && clock <= now
      modifies this`staticPool, this`clock, statics.Values`staticPoolIndex, history
      ensures PoolOk() && Books() && PoolEligible() && Complete({}) && clock <= now
      ensures multiset(history.h) <= multiset(old(history.h)) && forall x <- history.h :: now <= x.exp
      ensures forall x <- multiset(old(history.h)) :: now <= x.exp ==> x in multiset(history.h)
      ensures forall listens :: Seen() == Handled(self, listens, old(Seen()), HistoryTimer, now)
    {
      hide PoolOk, PoolEligible, Complete, Books, Dials, Own, Dests, Items;
      ExpireItems(now);
      Expired(multiset(old(history.h)), multiset(history.h), now);
      assert Dests() == old(Dests());
    }

    method ExpireItems(now: int)
      requires PoolOk() && Books() && PoolEligible() && Complete({}) && clock <= now
      modifies this`staticPool, this`clock, statics.Values`staticPoolIndex, history
      ensures PoolOk() && Books() && PoolEligible() && Complete({}) && clock <= now
      ensures multiset(history.h) <= multiset(old(history.h)) && forall x <- history.h :: now <= x.exp
      ensures forall x <- multiset(old(history.h)) :: now <= x.exp ==> x in multiset(history.h)
    {
      hide PoolOk, PoolEligible, Complete, Poolable, HistoryOk, DynamicDials, Listed, Heap, Logged;
      while |history.h| > 0 && history.NextExpiry() < now
        invariant PoolOk() && Books() && PoolEligible() && Complete({}) && clock <= now
        invariant multiset(history.h) <= multiset(old(history.h))
        invariant forall x <- multiset(old(history.h)) :: now <= x.exp ==> x in multiset(history.h)
        decreases |history.h|
      {
        var x := PopHistory(now);
        UpdateStaticPool(x.item);
      }
      if |history.h| > 0 {
        var next := history.NextExpiry();
      }
    }

    // Takes the next item out of the history.
    method PopHistory(now: int) returns (x: ExpItem)
      requires Books() && PoolEligible() && Complete({}) && clock <= now && history.h != [] && history.NextExpiry() < now
      modifies this`clock, history
      ensures Books() && PoolEligible() && Complete({x.item}) && clock == now && |history.h| == |old(history.h)| - 1
      ensures x.exp < now && multiset(history.h) == multiset(old(history.h)) - multiset{x}
    {
      hide HistoryOk, DynamicDials, Listed, Heap;
      ghost var m := multiset(history.h);
      x := history.PopMin();
      HistoryRemove(m, log, clock, x, now);
      ListedLess(m, x);
      clock := now;
    }

    method OnCandidate(node: Node, now: int)
      requires PoolOk() && Books() && PoolEligible() && Complete({}) && staticPool == [] && clock <= now
      requires nodesEnabled ==> |DynamicDials(dialing)| < maxActiveDials
      modifies this`dialing, this`log, this`clock, history
      ensures PoolOk() && Books() && PoolEligible() && Complete({}) && clock <= now
      ensures log == old(log) + if old(nodesEnabled && Eligible(node.id)) && node.Reachable()
                                then [Dial(node.id, now, false, false)] else []
      ensures Seen() == Handled(self, nodesEnabled, old(Seen()), Candidate(node), now)
    {
      MayIff(node);
      hide Seen, Start, May, HistoryOk, DynamicDials, Listed, PoolOk;
      if !nodesEnabled {
        return;
      }
      var err := CheckDial(node);
      if err.None? {
        var task := new DialTask(node, true);
        assert Static(task) == {};
        StartDial(task, now);
        StartOne(old(Seen()), node.id, now);
        assert old(Seen()).own + {} == old(Seen()).own;
      }
    }

    // A finished task may have resolved the endpoint of its static node.
    method OnTaskDone(id: Id, dest: Node)
      requires PoolOk() && Books() && PoolEligible() && Complete({}) && dest.id == id
      modifies this`dialing, this`staticPool, statics.Values
      ensures PoolOk() && Books() && PoolEligible() && Complete({}) && dialing == old(dialing) - {id}
      ensures forall listens, now :: Seen() == Handled(self, listens, old(Seen()), TaskDone(id, dest), now)
    {
      hide Seen, PoolOk, Books, PoolEligible, Complete, Poolable;
      EndDial(id, dest);
      UpdateStaticPool(id);
    }

    method EndDial(id: Id, dest: Node)
      requires PoolOk() && Books() && PoolEligible() && Complete({}) && dest.id == id
      modifies this`dialing, statics.Values`dest
      ensures PoolOk() && Books() && PoolEligible() && Complete({id}) && dialing == old(dialing) - {id}
      ensures forall listens, now :: Seen() == Handled(self, listens, old(Seen()), TaskDone(id, dest), now)
    {
      hide Seen, HistoryOk, DynamicDials, Listed, Logged;
      DynamicRemove(dialing, id);
      LoggedLess(dialing.Keys, id, log);
      EndTask(id, dest);
      assert dialing.Keys == old(dialing.Keys) - {id};
    }

    method EndTask(id: Id, dest: Node)
      requires forall x <- statics.Keys :: statics[x].id == x
      modifies this`dialing, statics.Values`dest
      ensures dialing == old(dialing) - {id}
      ensures forall x <- statics.Keys :: x != id ==> statics[x].dest == old(statics[x].dest)
      ensures id in statics ==> statics[id].dest == old(statics[id].dest) || (id in old(dialing) && statics[id].dest == dest)
      ensures forall listens, now :: Seen() == Handled(self, listens, old(Seen()), TaskDone(id, dest), now)
    {
      hide Dials, Items;
      if id in statics && id in dialing && dialing[id] == statics[id] {
        statics[id].dest := dest;
      }
      dialing := dialing - {id};
      assert dialing.Keys == old(dialing.Keys) - {id};
      assert Own(dialing, statics) == old(Own(dialing, statics)) - {id};
      assert Dests() == if id in old(Own(dialing, statics)) then old(Dests())[id := dest] else old(Dests());
    }

    // Every task for another node is still there.
    static ghost predicate Keeps(before: seq<DialTask>, after: seq<DialTask>, id: Id) {
      forall t :: t in before && t.id != id ==> t in after
    }

    // Takes the static task of a node out of the pool, if it is there.
    method Unpool(id: Id, ghost gap: set<Id>)
      requires PoolOk() && Complete(gap) && (id in gap || !Eligible(id))
      modifies this`staticPool, staticPool`staticPoolIndex
      ensures PoolOk() && Complete(gap)
      ensures forall i :: 0 <= i < |staticPool| ==> staticPool[i] in old(staticPool) && staticPool[i].id != id
      ensures Keeps(old(staticPool), staticPool, id)
    {
      if id in statics && statics[id].staticPoolIndex >= 0 {
        PoolTask(statics[id].staticPoolIndex);
        FillGap(staticPool, statics[id].staticPoolIndex, id);
        RemoveFromStaticPool(statics[id].staticPoolIndex, gap);
      }
    }

    // Moving the last task into the gap loses only the task that was there.
    static lemma FillGap(p: seq<DialTask>, idx: nat, id: Id)
      requires idx < |p| && p[idx].id == id
      ensures Keeps(p, p[idx := p[|p| - 1]][..|p| - 1], id)
    {
      var q := p[idx := p[|p| - 1]][..|p| - 1];
      forall t | t in p && t.id != id
        ensures t in q
      {
        var k :| 0 <= k < |p| && p[k] == t;
        assert q[if k == |p| - 1 then idx else k] == t;
      }
    }

    method OnPeerAdded(id: Id, dialed: bool)
      requires PoolOk() && Books() && PoolEligible() && Complete({})
      modifies this`dialPeers, this`peers, this`staticPool, staticPool`staticPoolIndex
      ensures PoolOk() && Books() && PoolEligible() && Complete({})
      ensures peers == old(peers) + {id} && dialPeers == old(dialPeers) + if dialed then 1 else 0
      ensures Keeps(old(staticPool), staticPool, id)
      ensures forall listens, now :: Seen() == Handled(self, listens, old(Seen()), PeerAdded(id, dialed), now)
    {
      hide Seen, HistoryOk, DynamicDials, Listed, Books, PoolOk;
      CountPeer(id, dialed);
      Unpool(id, {});
    }

    method CountPeer(id: Id, dialed: bool)
      modifies this`dialPeers, this`peers
      ensures peers == old(peers) + {id} && dialPeers == old(dialPeers) + if dialed then 1 else 0
      ensures forall listens, now :: Seen() == Handled(self, listens, old(Seen()), PeerAdded(id, dialed), now)
    {
      hide Dials, Items, Own, Dests;
      if dialed {
        dialPeers := dialPeers + 1;
      }
      peers := peers + {id};
    }

    method UncountPeer(id: Id, dialed: bool)
      modifies this`dialPeers, this`peers
      ensures peers == old(peers) - {id} && dialPeers == old(dialPeers) - if dialed then 1 else 0
      ensures forall listens, now :: Seen() == Handled(self, listens, old(Seen()), PeerRemoved(id, dialed), now)
    {
      hide Dials, Items, Own, Dests;
      if dialed {
        dialPeers := dialPeers - 1;
      }
      peers := peers - {id};
    }

    method OnPeerRemoved(id: Id, dialed: bool)
      requires PoolOk() && Books() && PoolEligible() && Complete({})
      modifies this`dialPeers, this`peers, this`staticPool, statics.Values`staticPoolIndex
      ensures PoolOk() && Books() && PoolEligible() && Complete({})
      ensures peers == old(peers) - {id} && dialPeers == old(dialPeers) - if dialed then 1 else 0
      ensures forall listens, now :: Seen() == Handled(self, listens, old(Seen()), PeerRemoved(id, dialed), now)
    {
      hide Seen, HistoryOk, DynamicDials, Listed, PoolOk, Books;
      UncountPeer(id, dialed);
      UpdateStaticPool(id);
    }

    method OnAddStatic(node: Node)
      requires PoolOk() && Books() && PoolEligible() && Complete({})
      modifies this`statics, this`staticPool
      ensures PoolOk() && Books() && PoolEligible() && Complete({})
      ensures statics.Keys == old(statics.Keys) + {node.id}
      ensures forall listens, now :: Seen() == Handled(self, listens, old(Seen()), AddStatic(node), now)
      ensures forall t :: t in statics.Values ==> t in old(statics.Values) || fresh(t)
    {
      SeenIs();
      hide Seen, Books, PoolOk, PoolEligible;
      if node.id in statics {
        return;
      }
      var task := NewStatic(node);
      OfferNew(task);
    }

    // A new static task joins the pool if it may be dialed.
    method OfferNew(task: DialTask)
      requires PoolOk() && Books() && PoolEligible() && task.id in statics && statics[task.id] == task && Complete({task.id})
      requires task.staticPoolIndex == -1
      modifies this`staticPool, task`staticPoolIndex
      ensures PoolOk() && Books() && PoolEligible() && Complete({})
    {
      hide HistoryOk, DynamicDials, Listed, PoolEligible, Node.Reachable, Logged;
      var err := CheckDial(task.dest);
      if err.None? {
        var panicked := AddToStaticPool(task);
      }
    }

    method NewStatic(node: Node) returns (task: DialTask)
      requires PoolOk() && Complete({}) && node.id !in statics
      modifies this`statics
      ensures PoolOk() && Complete({node.id}) && task.dest == node && fresh(task) && task.id == node.id && task.staticPoolIndex == -1
      ensures statics == old(statics)[node.id := task]
      ensures forall t :: t in statics.Values ==> t in old(statics.Values) || t == task
      ensures Seen() == old(Seen()).(statics := old(Seen()).statics[node.id := node])
    {
      hide Dials, Items;
      task := new DialTask(node, false);
      statics := statics[node.id := task];
      assert Own(dialing, statics) == old(Own(dialing, statics)) && Dests() == old(Dests())[node.id := node];
    }

    // The task leaves the pool and the static set; the source does it in the other order.
    method OnRemoveStatic(id: Id)
      requires PoolOk() && Books() && PoolEligible() && Complete({})
      modifies this`statics, this`staticPool, staticPool`staticPoolIndex
      ensures PoolOk() && Books() && PoolEligible() && Complete({})
      ensures statics == old(statics) - {id} && statics.Values <= old(statics.Values)
      ensures Keeps(old(staticPool), staticPool, id)
      ensures forall listens, now :: Seen() == Handled(self, listens, old(Seen()), RemoveStatic(id), now)
    {
      ForgetNone(id);
      hide Seen, HistoryOk, DynamicDials, Listed, Books;
      if id in statics {
        assert Complete({id});
        Unpool(id, {id});
        assert Seen() == old(Seen());
        Forget(id);
      }
    }

    lemma ForgetNone(id: Id)
      ensures id !in statics ==> forall listens, now :: Seen() == Handled(self, listens, Seen(), RemoveStatic(id), now)
    {
      hide Dials, Items;
      assert id !in statics ==> Own(dialing, statics) - {id} == Own(dialing, statics) && Dests() - {id} == Dests();
    }

    method Forget(id: Id)
      modifies this`statics
      ensures statics == old(statics) - {id}
      ensures forall listens, now :: Seen() == Handled(self, listens, old(Seen()), RemoveStatic(id), now)
    {
      hide Dials, Items;
      statics := statics - {id};
      assert Own(dialing, statics) == old(Own(dialing, statics)) - {id} && Dests() == old(Dests()) - {id};
    }

    // The top of the loop: counts the free slots, launches the static dials, and decides whether the loop
    // listens for candidates. The pool is empty when the loop starts to wait.
    method Prepare(now: int, pick: nat -> nat)
      requires PoolOk() && Books() && PoolEligible() && Complete({}) && clock <= now
      modifies this`dialing, this`log, this`clock, this`staticPool, this`nodesEnabled, statics.Values`staticPoolIndex, history
      ensures PoolOk() && Books() && PoolEligible() && Complete({}) && clock <= now && old(log) <= log
      ensures staticPool == [] && |log| == |old(log)| + |old(staticPool)| && Seen() == Launched(self, old(Seen()), now)
      ensures nodesEnabled <==> Listens(Config(), old(Seen()))
      ensures nodesEnabled ==> |DynamicDials(dialing)| < maxActiveDials
    {
      SlotsFree();
      hide PoolOk, Books, DynamicDials, Seen, Launched, Listens;
      var slots := FreeDialSlots();
      DynamicBound(dialing);
      PoolKnown();
      StartStaticDials(now, pick);
      nodesEnabled := slots > 0;
    }

    lemma SlotsFree()
      ensures FreeDialSlots() > 0 <==> Listens(Config(), Seen())
    {
      assert |dialing| == |dialing.Keys|;
    }

    // One event. Only tasks that the scheduler knows, or has just made, are touched.
    method Handle(e: Event, now: int)
      requires PoolOk() && Books() && PoolEligible() && Complete({}) && staticPool == [] && clock <= now
      requires nodesEnabled ==> |DynamicDials(dialing)| < maxActiveDials
      requires e.TaskDone? ==> e.dest.id == e.id
      modifies this, history, statics.Values
      ensures PoolOk() && Books() && PoolEligible() && Complete({}) && clock <= now && old(log) <= log
      ensures Seen() == Handled(self, old(nodesEnabled), old(Seen()), e, now)
      ensures forall t :: t in statics.Values ==> t in old(statics.Values) || fresh(t)
    {
      hide PoolOk, Books, PoolEligible, Complete, DynamicDials, Seen, Handled;
      match e
      case Candidate(node) => OnCandidate(node, now);
      case TaskDone(id, dest) => OnTaskDone(id, dest);
      case PeerAdded(id, dialed) => OnPeerAdded(id, dialed);
      case PeerRemoved(id, dialed) => OnPeerRemoved(id, dialed);
      case AddStatic(node) => OnAddStatic(node);
      case RemoveStatic(id) => OnRemoveStatic(id);
      case HistoryTimer => ExpireHistory(now);
    }

    lemma EmptyPool()
      requires staticPool == []
      ensures PoolEligible()
    {
    }

    // While the loop waits, no static node that may be dialed is left undialed.
    lemma NoneLeft()
      requires PoolOk() && Complete({}) && staticPool == []
      ensures forall id <- statics.Keys ::
                !(Eligible(id) && statics[id].dest.Reachable())
    {
    }

    lemma PoolKnown()
      requires PoolOk()
      ensures forall t :: t in staticPool ==> t in statics.Values
    {
    }

    // A pooled task is static, and no other pooled task is for the same node.
    lemma PoolTask(idx: nat)
      requires PoolOk() && idx < |staticPool|
      ensures !staticPool[idx].dynamic && staticPool[idx].id in statics && statics[staticPool[idx].id] == staticPool[idx]
      ensures forall k :: 0 <= k < |staticPool| && k != idx ==> staticPool[k].id != staticPool[idx].id
    {
    }
  }

  lemma ListedLess(m: multiset<ExpItem>, x: ExpItem)
    ensures forall id :: id != x.item ==> (Listed(m, id) <==> Listed(m - multiset{x}, id))
  {
  }

  lemma ListedAdd(m: multiset<ExpItem>, x: ExpItem)
    ensures forall id :: id != x.item ==> (Listed(m, id) <==> Listed(m + multiset{x}, id))
  {
  }

  // ----- Whole runs -----

  lemma StartNone(v: View, now: int)
    ensures Start(v, {}, now).(own := v.own + {}) == v
  {
  }

  // The dial loop, for any sequence of events and any random choices, up to its next wait at time `end`: what is seen of
  // the scheduler is what the replay of the events gives.
  method Loop(self: Id, maxDialPeers: int, maxActiveDials: int, turns: seq<Turn>, end: int, pick: (nat, nat) -> nat)
    returns (d: DialScheduler)
    requires Chronological(turns) && 0 <= end && (forall t <- turns :: t.at <= end)
    ensures d.Config() == Limits(self, maxDialPeers, maxActiveDials)
    ensures d.Seen() == Launched(self, Replay(d.Config(), turns), end)
    ensures Known(d.peers, d.dialPeers, d.statics.Keys) == Learned(turns)
    ensures forall id <- d.statics.Keys :: Named(turns, d.statics[id].dest) && Attended(d.Config(), turns, d.Seen(), id)
    ensures d.PoolOk() && d.staticPool == [] && d.Complete({})
    ensures HistoryOk(multiset(d.history.h), d.log, d.clock)
    ensures forall e <- d.log :: Proposed(turns, e.id) && e.id != self && !e.connected && !e.active
    ensures |DynamicDials(d.dialing)| <= Max(maxActiveDials, 0) && Logged(d.dialing.Keys, d.log)
  {
    hide DialScheduler.PoolOk, DialScheduler.PoolEligible, DialScheduler.Complete, HistoryOk, DynamicDials, Heap, Logged, Learned,
         Named, Attended, DialScheduler.Books, Proposed, DialScheduler.Seen, Replay, Launched, Handled, Listens;
    d := new DialScheduler(self, maxDialPeers, maxActiveDials);
    d.EmptyPool();
    ghost var c := d.Config();
    var i := 0;
    assert turns[..0] == [];
    ReplayNone(c);
    while i < |turns|
      invariant 0 <= i <= |turns| && fresh(d) && fresh(d.history) && d.Config() == c
      invariant forall t :: t in d.statics.Values ==> fresh(t)
      invariant d.PoolOk() && d.Books() && d.PoolEligible() && d.Complete({})
      invariant d.Seen() == Replay(c, turns[..i])
      invariant d.clock <= if i == 0 then 0 else turns[i - 1].at
    {
      ReplaySnoc(c, turns, i);
      d.Prepare(turns[i].start, k => pick(i, k));
      d.Handle(turns[i].event, turns[i].at);
      i := i + 1;
    }
    assert turns[..i] == turns;
    d.Prepare(end, k => pick(i, k));
    AllAttended(c, turns, end);
    InView(d, turns);
  }

  lemma ReplayNone(c: Limits)
    ensures Replay(c, []) == NOTHING
  {
  }

  // What the invariants and the replay say while the loop waits.
  lemma InView(d: DialScheduler, turns: seq<Turn>)
    requires d.Books()
    ensures d.Seen().peers == d.peers && d.Seen().dialPeers == d.dialPeers && d.Seen().statics.Keys == d.statics.Keys
    ensures forall id <- d.statics.Keys :: d.Seen().statics[id] == d.statics[id].dest
    ensures (forall x <- d.Seen().dials :: Proposed(turns, x.id)) ==> forall e <- d.log :: Proposed(turns, e.id)
    ensures HistoryOk(multiset(d.history.h), d.log, d.clock)
    ensures forall e <- d.log :: e.id != d.self && !e.connected && !e.active
    ensures |DynamicDials(d.dialing)| <= Max(d.maxActiveDials, 0) && Logged(d.dialing.Keys, d.log)
  {
    hide HistoryOk, DynamicDials, Heap, Logged, Proposed;
    forall e <- d.log
      ensures Dialed(e.id, e.time) in d.Seen().dials
    {
    }
  }
}
