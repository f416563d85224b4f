/** One-to-many event delivery: event/feed.go.

    `Send` works on the backing array of `sendCases`: the active cases form a prefix, a delivered case is
    swapped behind it, and an unsubscription shifts the rest of the array to the left. Channels are values;
    the environment (which channel is ready when, who unsubscribes or subscribes while Send waits) is a
    script of events. A channel may be subscribed more than once, so subscriptions are counted in multisets.
 */
module Feeds {
  import opened Words

  datatype Chan = Chan(id: nat)

  // What can wake up the select of Send, and what can happen to the feed while Send waits.
  datatype Event = Ready(pick: nat) | Unsubscribe(ch: Chan) | Subscribe(ch: Chan)

  datatype Outcome = Finished | Blocked

  const FIRST_SUB_SEND_CASE := 1

  // ----- Case lists as sequences -----

  // Moves the case at i behind the active prefix of length m.
  function Deactivated(s: seq<Chan>, i: nat, m: nat): seq<Chan>
    requires i < m <= |s|
  {
    s[i := s[m - 1]][m - 1 := s[i]]
  }

  function Deleted(s: seq<Chan>, i: nat): seq<Chan>
    requires i < |s|
  {
    s[..i] + s[i + 1..]
  }

  lemma Without(a: seq<Chan>, x: Chan, b: seq<Chan>)
    ensures multiset(a + [x] + b) == multiset(a + b) + multiset{x}
    ensures multiset(a + b) == multiset(a + [x] + b) - multiset{x}
    ensures x in multiset(a + [x] + b)
  {
  }

  lemma Take(a: multiset<Chan>, b: multiset<Chan>, x: Chan)
    ensures x in b ==> a + (b - multiset{x}) == a + b - multiset{x}
    ensures x in a ==> (a - multiset{x}) + b == a + b - multiset{x}
    ensures x !in a && x !in b ==> a + b - multiset{x} == a + b
  {
  }

  lemma SwapOut(a: seq<Chan>, x: Chan, b: seq<Chan>, last: Chan)
    ensures multiset(a + [last] + b) == multiset(a + [x] + (b + [last])) - multiset{x}
    ensures x in multiset(a + [x] + (b + [last]))
  {
  }

  // The active prefix loses the case at i.
  lemma DeactivatedActive(s: seq<Chan>, i: nat, m: nat)
    requires FIRST_SUB_SEND_CASE <= i < m <= |s|
    ensures multiset(Deactivated(s, i, m)[1..m - 1]) == multiset(s[1..m]) - multiset{s[i]}
    ensures s[i] in multiset(s[1..m])
  {
    Parts(s, i, m);
    var a := s[1..i];
    if i < m - 1 {
      SwapOut(a, s[i], s[i + 1..m - 1], s[m - 1]);
    } else {
      assert a + [s[i]] + [] == a + [s[i]] && a + [] == a;
      Without(a, s[i], []);
    }
  }

  // How the active prefix is made up before and after.
  lemma Parts(s: seq<Chan>, i: nat, m: nat)
    requires FIRST_SUB_SEND_CASE <= i < m <= |s|
    ensures i == m - 1 ==> s[1..m] == s[1..i] + [s[i]] && Deactivated(s, i, m)[1..m - 1] == s[1..i]
    ensures i < m - 1 ==> s[1..m] == s[1..i] + [s[i]] + (s[i + 1..m - 1] + [s[m - 1]])
    ensures i < m - 1 ==> Deactivated(s, i, m)[1..m - 1] == s[1..i] + [s[m - 1]] + s[i + 1..m - 1]
  {
  }

  // The part behind it gains the case.
  lemma DeactivatedServed(s: seq<Chan>, i: nat, m: nat)
    requires FIRST_SUB_SEND_CASE <= i < m <= |s|
    ensures var t := Deactivated(s, i, m);
            |t| == |s| && t[0] == s[0] && multiset(t[m - 1..]) == multiset(s[m..]) + multiset{s[i]}
  {
    assert Deactivated(s, i, m)[m - 1..] == [] + [s[i]] + s[m..];
    Without([], s[i], s[m..]);
    assert [] + s[m..] == s[m..];
  }

  // Deleting an active case takes it out of the active prefix and shifts the rest.
  lemma DeletedActive(s: seq<Chan>, i: nat, m: nat)
    requires FIRST_SUB_SEND_CASE <= i < m <= |s|
    ensures var t := Deleted(s, i);
            && |t| == |s| - 1 && t[0] == s[0] && t[m - 1..] == s[m..]
            && multiset(t[1..m - 1]) == multiset(s[1..m]) - multiset{s[i]} && s[i] in multiset(s[1..m])
  {
    var t := Deleted(s, i);
    assert s[1..m] == s[1..i] + [s[i]] + s[i + 1..m];
    assert t[1..m - 1] == s[1..i] + s[i + 1..m];
    Without(s[1..i], s[i], s[i + 1..m]);
  }

  // Deleting a served case leaves the active prefix alone.
  lemma DeletedServed(s: seq<Chan>, i: nat, m: nat)
    requires FIRST_SUB_SEND_CASE <= m <= i < |s|
    ensures var t := Deleted(s, i);
            && |t| == |s| - 1 && t[..m] == s[..m]
            && multiset(t[m..]) == multiset(s[m..]) - multiset{s[i]} && s[i] in multiset(s[m..])
  {
    var t := Deleted(s, i);
    assert s[m..] == s[m..i] + [s[i]] + s[i + 1..];
    assert t[m..] == s[m..i] + s[i + 1..];
    Without(s[m..i], s[i], s[i + 1..]);
  }

  // ----- The books of one Send -----

  // With active prefix length m: what is active, delivered or dropped adds up to the subscriptions at the
  // start, and what was delivered is still listed behind the prefix unless it was forgotten.
  ghost predicate Balanced(s: seq<Chan>, m: nat, start: multiset<Chan>, sent: seq<Chan>,
                           dropped: multiset<Chan>, forgotten: multiset<Chan>)
  {
    && FIRST_SUB_SEND_CASE <= m <= |s|
    && multiset(s[1..m]) + multiset(sent) + dropped == start
    && multiset(s[m..]) + forgotten == multiset(sent)
  }

  lemma BalancedStart(s: seq<Chan>, start: multiset<Chan>)
    requires |s| >= FIRST_SUB_SEND_CASE && multiset(s[1..]) == start
    ensures Balanced(s, |s|, start, [], multiset{}, multiset{})
  {
    assert s[1..|s|] == s[1..] && s[|s|..] == [];
  }

  lemma SentOne(sent: seq<Chan>, x: Chan)
    ensures multiset(sent + [x]) == multiset(sent) + multiset{x}
  {
  }

  lemma BalancedSent(s: seq<Chan>, i: nat, m: nat, start: multiset<Chan>, sent: seq<Chan>,
                     dropped: multiset<Chan>, forgotten: multiset<Chan>)
    requires Balanced(s, m, start, sent, dropped, forgotten) && FIRST_SUB_SEND_CASE <= i < m
    ensures Balanced(Deactivated(s, i, m), m - 1, start, sent + [s[i]], dropped, forgotten)
  {
    hide Deactivated;
    DeactivatedActive(s, i, m);
    DeactivatedServed(s, i, m);
    SentOne(sent, s[i]);
  }

  lemma BalancedDropped(s: seq<Chan>, i: nat, m: nat, start: multiset<Chan>, sent: seq<Chan>,
                        dropped: multiset<Chan>, forgotten: multiset<Chan>)
    requires Balanced(s, m, start, sent, dropped, forgotten) && FIRST_SUB_SEND_CASE <= i < m
    ensures Balanced(Deleted(s, i), m - 1, start, sent, dropped + multiset{s[i]}, forgotten)
  {
    hide Deleted;
    DeletedActive(s, i, m);
  }

  lemma BalancedForgotten(s: seq<Chan>, i: nat, m: nat, start: multiset<Chan>, sent: seq<Chan>,
                          dropped: multiset<Chan>, forgotten: multiset<Chan>)
    requires Balanced(s, m, start, sent, dropped, forgotten) && m <= i < |s|
    ensures Balanced(Deleted(s, i), m, start, sent, dropped, forgotten + multiset{s[i]})
  {
    hide Deleted;
    DeletedServed(s, i, m);
    assert Deleted(s, i)[1..m] == s[1..m] by { assert Deleted(s, i)[..m][1..] == s[..m][1..]; }
  }

  // When only the removal case is left active, everything has been delivered or dropped, and the final list
  // is the initial one without the removed subscriptions.
  lemma BalancedEnd(s: seq<Chan>, start: multiset<Chan>, sent: seq<Chan>, dropped: multiset<Chan>, forgotten: multiset<Chan>)
    requires Balanced(s, FIRST_SUB_SEND_CASE, start, sent, dropped, forgotten)
    ensures multiset(sent) + dropped == start
    ensures multiset(s[1..]) + dropped + forgotten == start && forgotten <= multiset(sent)
  {
  }

  // While a subscription is active, not everything has been delivered or dropped.
  lemma BalancedOpen(s: seq<Chan>, m: nat, start: multiset<Chan>, sent: seq<Chan>, dropped: multiset<Chan>, forgotten: multiset<Chan>)
    requires Balanced(s, m, start, sent, dropped, forgotten) && m > FIRST_SUB_SEND_CASE
    ensures multiset(sent) + dropped != start
  {
    assert s[1] in s[1..m];
    assert |multiset(sent) + dropped| < |start|;
  }

  // The list is the initial one without the removed subscriptions, and the deliveries are among them.
  ghost predicate Settled(start: multiset<Chan>, s: seq<Chan>, sent: seq<Chan>, dropped: multiset<Chan>, forgotten: multiset<Chan>) {
    && s != [] && multiset(s[1..]) + dropped + forgotten == start
    && multiset(sent) + dropped <= start && forgotten <= multiset(sent)
  }

  lemma BalancedSubs(s: seq<Chan>, m: nat, start: multiset<Chan>, sent: seq<Chan>, dropped: multiset<Chan>, forgotten: multiset<Chan>)
    requires Balanced(s, m, start, sent, dropped, forgotten)
    ensures Settled(start, s, sent, dropped, forgotten)
  {
    assert s[1..] == s[1..m] + s[m..];
  }

  // ----- Who is subscribed -----

  function Step(live: multiset<Chan>, e: Event): multiset<Chan> {
    match e
    case Ready(_) => live
    case Unsubscribe(ch) => live - multiset{ch}
    case Subscribe(ch) => live + multiset{ch}
  }

  function LiveAfter(live: multiset<Chan>, script: seq<Event>): multiset<Chan> {
    if script == [] then live else Step(LiveAfter(live, script[..|script| - 1]), script[|script| - 1])
  }

  // Only existing subscriptions are cancelled, and nobody subscribes the feed's private removal channel.
  ghost predicate Legal(removeSub: Chan, live: multiset<Chan>, script: seq<Event>) {
    forall i :: 0 <= i < |script| ==>
      match script[i]
      case Ready(_) => true
      case Unsubscribe(ch) => ch in LiveAfter(live, script[..i])
      case Subscribe(ch) => ch != removeSub
  }

  // ----- What a script asks for -----

  // The subscriptions that a script cancels, those that it adds, and the number of channels that become ready.
  ghost function Cancelled(script: seq<Event>): multiset<Chan> {
    if script == [] then multiset{} else Cancelled(script[..|script| - 1]) + Cancels(script[|script| - 1])
  }

  ghost function Subscribed(script: seq<Event>): multiset<Chan> {
    if script == [] then multiset{} else Subscribed(script[..|script| - 1]) + Adds(script[|script| - 1])
  }

  ghost function Readies(script: seq<Event>): nat {
    if script == [] then 0 else Readies(script[..|script| - 1]) + if script[|script| - 1].Ready? then 1 else 0
  }

  function Cancels(e: Event): multiset<Chan> { if e.Unsubscribe? then multiset{e.ch} else multiset{} }

  function Adds(e: Event): multiset<Chan> { if e.Subscribe? then multiset{e.ch} else multiset{} }

  // Every cancellation is of a subscription that waits in the inbox (withdrawn), that is still to be served
  // (dropped) or that has been served (forgotten); the inbox holds the new subscriptions that are not withdrawn.
  ghost predicate Accounted(script: seq<Event>, inbox: multiset<Chan>,
                            dropped: multiset<Chan>, forgotten: multiset<Chan>, withdrawn: multiset<Chan>)
  {
    && dropped + forgotten + withdrawn == Cancelled(script)
    && inbox + withdrawn == Subscribed(script)
  }

  // What one event changes. The active prefix shrinks by one for a delivery and for a cancelled subscription
  // that was still to be served; it stays as it is for the inbox and for one that has been served.
  ghost predicate Changes(e: Event, m0: nat, m: nat, inbox0: multiset<Chan>, inbox: multiset<Chan>,
                          dropped0: multiset<Chan>, dropped: multiset<Chan>, forgotten0: multiset<Chan>,
                          forgotten: multiset<Chan>, withdrawn0: multiset<Chan>, withdrawn: multiset<Chan>)
  {
    match e
    case Ready(_) =>
      m == m0 - 1 && inbox == inbox0 && dropped == dropped0 && forgotten == forgotten0 && withdrawn == withdrawn0
    case Subscribe(ch) =>
      && m == m0 && inbox == inbox0 + multiset{ch}
      && dropped == dropped0 && forgotten == forgotten0 && withdrawn == withdrawn0
    case Unsubscribe(ch) =>
      || (ch in inbox0 && m == m0 && inbox == inbox0 - multiset{ch} && withdrawn == withdrawn0 + multiset{ch}
          && dropped == dropped0 && forgotten == forgotten0)
      || (ch !in inbox0 && m == m0 - 1 && inbox == inbox0 && dropped == dropped0 + multiset{ch}
          && forgotten == forgotten0 && withdrawn == withdrawn0)
      || (ch !in inbox0 && m == m0 && inbox == inbox0 && forgotten == forgotten0 + multiset{ch}
          && dropped == dropped0 && withdrawn == withdrawn0)
  }

  lemma UnsubscribeChanges(ch: Chan, m: nat, i: multiset<Chan>, d: multiset<Chan>, f: multiset<Chan>, w: multiset<Chan>)
    ensures ch in i ==> Changes(Unsubscribe(ch), m, m, i, i - multiset{ch}, d, d, f, f, w, w + multiset{ch})
    ensures ch !in i && m > 0 ==> Changes(Unsubscribe(ch), m, m - 1, i, i, d, d + multiset{ch}, f, f, w, w)
    ensures ch !in i ==> Changes(Unsubscribe(ch), m, m, i, i, d, d, f, f + multiset{ch}, w, w)
  {
  }

  lemma AccountedStep(script: seq<Event>, j: nat, m0: nat, m: nat, inbox0: multiset<Chan>, inbox: multiset<Chan>,
                      dropped0: multiset<Chan>, dropped: multiset<Chan>, forgotten0: multiset<Chan>,
                      forgotten: multiset<Chan>, withdrawn0: multiset<Chan>, withdrawn: multiset<Chan>)
    requires j < |script| && Accounted(script[..j], inbox0, dropped0, forgotten0, withdrawn0)
    requires Changes(script[j], m0, m, inbox0, inbox, dropped0, dropped, forgotten0, forgotten, withdrawn0, withdrawn)
    ensures Accounted(script[..j + 1], inbox, dropped, forgotten, withdrawn)
    ensures Readies(script[..j + 1]) == Readies(script[..j]) + if script[j].Ready? then 1 else 0
    ensures Follows(script[j], m0 - 1, m - 1)
  {
    hide Cancelled, Subscribed, Readies;
    Tally(script, j);
    Sums(inbox0, dropped0, forgotten0, withdrawn0, script[j]);
  }

  lemma Tally(script: seq<Event>, j: nat)
    requires j < |script|
    ensures Cancelled(script[..j + 1]) == Cancelled(script[..j]) + Cancels(script[j])
    ensures Subscribed(script[..j + 1]) == Subscribed(script[..j]) + Adds(script[j])
    ensures Readies(script[..j + 1]) == Readies(script[..j]) + if script[j].Ready? then 1 else 0
  {
    assert script[..j + 1][..j] == script[..j];
  }

  lemma Sums(i: multiset<Chan>, d: multiset<Chan>, f: multiset<Chan>, w: multiset<Chan>, e: Event)
    ensures var x := Cancels(e);
            && d + f + (w + x) == d + f + w + x && d + (f + x) + w == d + f + w + x && (d + x) + f + w == d + f + w + x
            && (e.Unsubscribe? && e.ch in i ==> (i - x) + (w + x) == i + w)
    ensures (i + Adds(e)) + w == (i + w) + Adds(e)
  {
  }

  lemma AccountedStart()
    ensures Accounted([], multiset{}, multiset{}, multiset{}, multiset{}) && Readies([]) == 0
  {
  }

  // The number of offers k with lo < k <= hi that are taken.
  function Accepted(trySend: nat -> bool, lo: nat, hi: nat): nat
    decreases hi
  {
    if hi <= lo then 0 else Accepted(trySend, lo, hi - 1) + if trySend(hi) then 1 else 0
  }

  lemma AcceptedNone(trySend: nat -> bool, lo: nat)
    ensures Accepted(trySend, lo, lo) == 0
  {
  }

  lemma AcceptedStep(trySend: nat -> bool, lo: nat, hi: nat)
    requires lo <= hi
    ensures Accepted(trySend, lo, hi + 1) == Accepted(trySend, lo, hi) + if trySend(hi + 1) then 1 else 0
  {
  }

  lemma {:induction false} AcceptedSum(trySend: nat -> bool, lo: nat, mid: nat, hi: nat)
    requires lo <= mid <= hi
    ensures Accepted(trySend, lo, hi) == Accepted(trySend, lo, mid) + Accepted(trySend, mid, hi)
    decreases hi
  {
    if mid < hi {
      AcceptedSum(trySend, lo, mid, hi - 1);
    }
  }

  // ----- The rounds of the fast path -----

  function Total(rounds: seq<nat>): nat {
    if rounds == [] then 0 else Total(rounds[..|rounds| - 1]) + rounds[|rounds| - 1]
  }

  // How many subscriptions are active after the event, of those that the fast path has left.
  predicate Follows(e: Event, left: int, next: int) {
    match e
    case Ready(_) => next == left - 1
    case Subscribe(_) => next == left
    case Unsubscribe(_) => next == left || next == left - 1
  }

  // The number of active subscriptions at the start of each round: all of them at first, then what the offers of
  // the round and the event after it have left. A round makes one offer to each.
  ghost predicate Rounds(trySend: nat -> bool, script: seq<Event>, rounds: seq<nat>, start: nat) {
    && |rounds| == |script| + 1 && rounds[0] == start
    && forall j :: 0 <= j < |script| ==>
         Follows(script[j], rounds[j] - Accepted(trySend, Total(rounds[..j]), Total(rounds[..j + 1])), rounds[j + 1])
  }

  // The last round is about to start, with an active prefix of length m and after k offers.
  ghost predicate AtRound(trySend: nat -> bool, script: seq<Event>, rounds: seq<nat>, start: nat, m: nat, k: nat) {
    Rounds(trySend, script, rounds, start) && m == rounds[|script|] + 1 && k == Total(rounds[..|script|])
  }

  lemma RoundsStart(trySend: nat -> bool, start: nat)
    ensures AtRound(trySend, [], [start], start, start + 1, 0)
  {
  }

  lemma RoundEnd(trySend: nat -> bool, script: seq<Event>, rounds: seq<nat>, start: nat, m: nat, k: nat)
    requires AtRound(trySend, script, rounds, start, m, k)
    ensures Rounds(trySend, script, rounds, start) && Total(rounds) == k + m - 1
  {
  }

  lemma RoundsSnoc(trySend: nat -> bool, script: seq<Event>, j: nat, rounds: seq<nat>, start: nat, next: nat)
    requires j < |script| && Rounds(trySend, script[..j], rounds, start)
    requires Follows(script[j], rounds[j] - Accepted(trySend, Total(rounds[..j]), Total(rounds)), next)
    ensures Rounds(trySend, script[..j + 1], rounds + [next], start) && (rounds + [next])[..j + 1] == rounds
  {
    hide Follows, Accepted, Total;
    var r := rounds + [next];
    assert r[..j + 1] == rounds;
    forall i | 0 <= i <= j
      ensures Follows(script[..j + 1][i], r[i] - Accepted(trySend, Total(r[..i]), Total(r[..i + 1])), r[i + 1])
    {
      assert r[..i] == rounds[..i];
      if i < j {
        assert r[..i + 1] == rounds[..i + 1] && script[..j][i] == script[i];
      }
    }
  }

  // A round with its offers, and the event after it.
  lemma RoundsStep(trySend: nat -> bool, script: seq<Event>, j: nat, rounds: seq<nat>, start: nat, m0: nat, k0: nat, m1: nat, m: nat)
    requires j < |script| && AtRound(trySend, script[..j], rounds, start, m0, k0) && m >= 1
    requires m0 - m1 == Accepted(trySend, k0, k0 + m0 - 1) && Follows(script[j], m1 - 1, m - 1)
    ensures AtRound(trySend, script[..j + 1], rounds + [m - 1], start, m, k0 + m0 - 1)
  {
    hide Follows, Accepted, Total, Rounds;
    RoundEnd(trySend, script[..j], rounds, start, m0, k0);
    RoundsSize(trySend, script[..j], rounds, start);
    RoundsSnoc(trySend, script, j, rounds, start, m - 1);
  }

  lemma RoundsSize(trySend: nat -> bool, script: seq<Event>, rounds: seq<nat>, start: nat)
    requires Rounds(trySend, script, rounds, start)
    ensures |rounds| == |script| + 1
  {
  }

  ghost predicate AllReady(trySend: nat -> bool) { forall k :: trySend(k) }

  lemma {:induction false} AllAccepted(trySend: nat -> bool, lo: nat, hi: nat)
    requires AllReady(trySend) && lo <= hi
    ensures Accepted(trySend, lo, hi) == hi - lo
    decreases hi
  {
    if lo < hi {
      AllAccepted(trySend, lo, hi - 1);
    }
  }

  // ----- The feed -----

  class Feed {
    const removeSub: Chan
    var data: array<Chan>    // backing array of sendCases; data[0] is the removal case
    var len: nat             // length of sendCases
    var inbox: seq<Chan>

    ghost predicate Valid()
      reads this, data
    {
      && FIRST_SUB_SEND_CASE <= len <= data.Length && data[0] == removeSub
      && removeSub !in data[1..len] && removeSub !in inbox
    }

    ghost function Cases(): seq<Chan>
      requires Valid()
      reads this, data
    {
      data[..len]
    }

    ghost function Live(): multiset<Chan>
      requires Valid()
      reads this, data
    {
      multiset(Cases()[1..]) + multiset(inbox)
    }

    constructor (removeSub: Chan)
      ensures Valid() && fresh(data) && Live() == multiset{} && this.removeSub == removeSub
    {
      this.removeSub := removeSub;
      data := new Chan[1](_ => removeSub);
      len, inbox := 1, [];
    }

    // Subscribe: the channel waits in the inbox for the next Send.
    method AddToInbox(ch: Chan)
      requires Valid() && ch != removeSub
      modifies this`inbox
      ensures Valid() && Cases() == old(Cases()) && Live() == old(Live()) + multiset{ch}
      ensures inbox == old(inbox) + [ch]
    {
      inbox := inbox + [ch];
    }

    // find on sendCases: the first index, or -1.
    method Find(ch: Chan) returns (index: int)
      requires Valid()
      ensures -1 <= index < len
      ensures index >= 0 ==> data[index] == ch
      ensures index < 0 <==> ch !in data[..len]
    {
      var i := 0;
      while i < len
        invariant 0 <= i <= len && ch !in data[..i]
      {
        if data[i] == ch {
          return i;
        }
        i := i + 1;
      }
      index := -1;
    }

    // delete on sendCases: shifts the cases behind index to the left, in place.
    method Delete(index: nat)
      requires Valid() && FIRST_SUB_SEND_CASE <= index < len
      modifies this`len, data
      ensures Valid() && Cases() == Deleted(old(Cases()), index)
    {
      ghost var s := data[..len];
      var j := index;
      while j < len - 1
        invariant index <= j <= len - 1
        invariant forall k :: 0 <= k < index ==> data[k] == s[k]
        invariant forall k :: index <= k < j ==> data[k] == s[k + 1]
        invariant forall k :: j <= k < len ==> data[k] == s[k]
        modifies data
      {
        data[j] := data[j + 1];
        j := j + 1;
      }
      len := len - 1;
      assert data[..len] == Deleted(s, index);
      NotIn(s, Deleted(s, index), index, removeSub);
    }

    // deactivate on the prefix of length m.
    method Deactivate(i: nat, m: nat)
      requires Valid() && FIRST_SUB_SEND_CASE <= i < m <= len
      modifies data
      ensures Valid() && Cases() == Deactivated(old(Cases()), i, m)
    {
      data[i], data[m - 1] := data[m - 1], data[i];
    }

    // Appends the inbox to sendCases, in place if the backing array has room.
    method TakeInbox()
      requires Valid()
      modifies this`data, this`len, this`inbox, data
      ensures Valid() && (data == old(data) || fresh(data))
      ensures inbox == [] && Cases() == old(Cases()) + old(inbox) && Live() == old(Live())
    {
      var s := data[..len] + inbox;
      if |s| > data.Length {
        data := new Chan[|s|](i requires 0 <= i < |s| => s[i]);
      } else {
        forall i | len <= i < |s| {
          data[i] := s[i];
        }
      }
      len, inbox := |s|, [];
      assert data[..len] == s;
      assert s[1..] == old(Cases())[1..] + old(inbox);
    }

    // remove, when no Send is in progress: from the inbox if it is there, else from sendCases. Cancelling
    // what is not subscribed makes the source panic.
    method Remove(ch: Chan) returns (panicked: bool)
      requires Valid() && ch != removeSub
      modifies this`inbox, this`len, data
      ensures Valid()
      ensures panicked <==> ch !in old(Live())
      ensures Live() == old(Live()) - multiset{ch}
    {
      Take(multiset(Cases()[1..]), multiset(inbox), ch);
      panicked := false;
      var found := RemoveFromInbox(ch);
      if !found {
        found := RemoveCase(ch);
        panicked := !found;
      }
    }

    method RemoveCase(ch: Chan) returns (found: bool)
      requires Valid() && ch != removeSub
      modifies this`len, data
      ensures Valid()
      ensures found <==> ch in multiset(old(Cases())[1..])
      ensures found ==> multiset(Cases()[1..]) == multiset(old(Cases())[1..]) - multiset{ch}
      ensures !found ==> Cases() == old(Cases())
    {
      hide Deleted;
      CaseOf(Cases(), ch);
      var index := Find(ch);
      if index < 0 {
        return false;
      }
      DeletedOne(Cases(), index);
      Delete(index);
      found := true;
    }

    method RemoveFromInbox(ch: Chan) returns (found: bool)
      requires Valid()
      modifies this`inbox
      ensures Valid() && Cases() == old(Cases())
      ensures found <==> ch in multiset(old(inbox))
      ensures found ==> multiset(inbox) == multiset(old(inbox)) - multiset{ch}
      ensures !found ==> inbox == old(inbox)
    {
      var i := IndexOf(inbox, ch);
      if i == |inbox| {
        return false;
      }
      TakenOut(inbox, i, removeSub);
      inbox := inbox[..i] + inbox[i + 1..];
      found := true;
    }

    // The fast path: offers the value to every active case once, without blocking. `trySend(k)` is the
    // answer to the k-th offer.
    method TryAll(m0: nat, trySend: nat -> bool, k0: nat, sent0: seq<Chan>, ghost start: multiset<Chan>,
                  ghost dropped: multiset<Chan>, ghost forgotten: multiset<Chan>)
      returns (m: nat, k: nat, sent: seq<Chan>)
      requires Valid() && Balanced(Cases(), m0, start, sent0, dropped, forgotten)
      modifies data
      ensures Valid() && |Cases()| == |old(Cases())|
      ensures multiset(Cases()[1..]) == multiset(old(Cases())[1..])
      ensures Balanced(Cases(), m, start, sent, dropped, forgotten) && m <= m0 && m0 - m == |sent| - |sent0|
      ensures k == k0 + m0 - FIRST_SUB_SEND_CASE && m0 - m == Accepted(trySend, k0, k)
    {
      hide Balanced, Accepted, Deactivated;
      m, k, sent := m0, k0, sent0;
      var i := FIRST_SUB_SEND_CASE;
      PrefixSize(Cases(), m, start, sent, dropped, forgotten);
      AcceptedNone(trySend, k0);
      while i < m
        invariant FIRST_SUB_SEND_CASE <= i && Valid() && |Cases()| == |old(Cases())|
        invariant multiset(Cases()[1..]) == multiset(old(Cases())[1..])
        invariant Balanced(Cases(), m, start, sent, dropped, forgotten) && m <= m0 && m0 - m == |sent| - |sent0|
        invariant k - k0 == i - FIRST_SUB_SEND_CASE + m0 - m && i <= m && m0 - m == Accepted(trySend, k0, k)
        decreases 2 * m - i
      {
        AcceptedStep(trySend, k0, k);
        k := k + 1;
        PrefixSize(Cases(), m, start, sent, dropped, forgotten);
        if trySend(k) {
          BalancedSent(Cases(), i, m, start, sent, dropped, forgotten);
          DeactivatedAll(Cases(), i, m);
          sent := sent + [data[i]];
          Deactivate(i, m);
          m := m - 1;
        } else {
          i := i + 1;
        }
      }
    }

    // The chosen case has taken the value and leaves the active prefix.
    method Serve(chosen: nat, m: nat, sent0: seq<Chan>, ghost start: multiset<Chan>,
                 ghost dropped: multiset<Chan>, ghost forgotten: multiset<Chan>)
      returns (sent: seq<Chan>)
      requires Valid() && FIRST_SUB_SEND_CASE <= chosen < m && Balanced(Cases(), m, start, sent0, dropped, forgotten)
      modifies data
      ensures Valid() && Balanced(Cases(), m - 1, start, sent, dropped, forgotten)
      ensures multiset(Cases()[1..]) == multiset(old(Cases())[1..]) && |sent| == |sent0| + 1
    {
      hide Deactivated;
      BalancedSent(Cases(), chosen, m, start, sent0, dropped, forgotten);
      DeactivatedAll(Cases(), chosen, m);
      sent := sent0 + [data[chosen]];
      Deactivate(chosen, m);
    }

    // One turn of the select loop. An unsubscription is looked for in the inbox before it comes to the loop.
    method OnEvent(e: Event, m0: nat, sent0: seq<Chan>, ghost start: multiset<Chan>,
                   ghost dropped0: multiset<Chan>, ghost forgotten0: multiset<Chan>, ghost withdrawn0: multiset<Chan>)
      returns (panicked: bool, m: nat, sent: seq<Chan>,
               ghost dropped: multiset<Chan>, ghost forgotten: multiset<Chan>, ghost withdrawn: multiset<Chan>)
      requires Valid() && m0 > FIRST_SUB_SEND_CASE && Balanced(Cases(), m0, start, sent0, dropped0, forgotten0)
      requires e.Unsubscribe? ==> e.ch in Live()
      requires e.Subscribe? ==> e.ch != removeSub
      modifies this`inbox, this`len, data
      ensures Valid() && !panicked && Balanced(Cases(), m, start, sent, dropped, forgotten)
      ensures Live() == Step(old(Live()), e)
      ensures |sent| == |sent0| + (if e.Ready? then 1 else 0) && (!e.Ready? ==> sent == sent0)
      ensures Changes(e, m0, m, multiset(old(inbox)), multiset(inbox), dropped0, dropped, forgotten0, forgotten,
                      withdrawn0, withdrawn)
    {
      hide Balanced;
      panicked, m, sent, dropped, forgotten, withdrawn := false, m0, sent0, dropped0, forgotten0, withdrawn0;
      match e
      case Subscribe(ch) =>
        AddToInbox(ch);
      case Ready(pick) =>
        sent := Serve(FIRST_SUB_SEND_CASE + pick % (m0 - 1), m0, sent0, start, dropped, forgotten);
        m := m0 - 1;
      case Unsubscribe(ch) =>
        panicked, m, dropped, forgotten, withdrawn := OnUnsubscribe(ch, m0, sent, start, dropped, forgotten, withdrawn);
    }

    method OnUnsubscribe(ch: Chan, m0: nat, ghost sent: seq<Chan>, ghost start: multiset<Chan>,
                         ghost dropped0: multiset<Chan>, ghost forgotten0: multiset<Chan>, ghost withdrawn0: multiset<Chan>)
      returns (panicked: bool, m: nat, ghost dropped: multiset<Chan>, ghost forgotten: multiset<Chan>, ghost withdrawn: multiset<Chan>)
      requires Valid() && Balanced(Cases(), m0, start, sent, dropped0, forgotten0) && ch in Live()
      modifies this`inbox, this`len, data
      ensures Valid() && !panicked && Balanced(Cases(), m, start, sent, dropped, forgotten)
      ensures Live() == old(Live()) - multiset{ch}
      ensures Changes(Unsubscribe(ch), m0, m, multiset(old(inbox)), multiset(inbox), dropped0, dropped, forgotten0, forgotten,
                      withdrawn0, withdrawn)
    {
      hide Valid, Cases, Live, Balanced, Changes;
      panicked, m, dropped, forgotten, withdrawn := false, m0, dropped0, forgotten0, withdrawn0;
      LiveIs(ch);
      Take(multiset(Cases()[1..]), multiset(inbox), ch);
      UnsubscribeChanges(ch, m0, multiset(inbox), dropped0, forgotten0, withdrawn0);
      var found := RemoveFromInbox(ch);
      if found {
        withdrawn := withdrawn0 + multiset{ch};
      } else {
        panicked, m, dropped, forgotten := RemoveActive(ch, m0, sent, start, dropped0, forgotten0);
      }
      LiveIs(ch);
    }

    lemma LiveIs(ch: Chan)
      requires Valid()
      ensures |Cases()| >= 1 && Live() == multiset(Cases()[1..]) + multiset(inbox) && (ch in Live() ==> ch != removeSub)
    {
    }

    // The removal branch of the select: deletes the case and shortens the prefix if the case was in it.
    method RemoveActive(ch: Chan, m0: nat, ghost sent: seq<Chan>, ghost start: multiset<Chan>,
                        ghost dropped0: multiset<Chan>, ghost forgotten0: multiset<Chan>)
      returns (panicked: bool, m: nat, ghost dropped: multiset<Chan>, ghost forgotten: multiset<Chan>)
      requires Valid() && ch != removeSub && Balanced(Cases(), m0, start, sent, dropped0, forgotten0)
      modifies this`len, data
      ensures Valid() && (panicked <==> ch !in multiset(old(Cases())[1..]))
      ensures !panicked ==> multiset(Cases()[1..]) == multiset(old(Cases())[1..]) - multiset{ch}
      ensures !panicked ==> Balanced(Cases(), m, start, sent, dropped, forgotten)
      ensures !panicked ==> (m == m0 && dropped == dropped0 && forgotten == forgotten0 + multiset{ch})
                            || (m == m0 - 1 && dropped == dropped0 + multiset{ch} && forgotten == forgotten0)
    {
      hide Deleted, Balanced;
      panicked, m, dropped, forgotten := false, m0, dropped0, forgotten0;
      CaseOf(Cases(), ch);
      var index := Find(ch);
      if index < 0 {
        panicked := true;
        return;
      }
      DeletedOne(Cases(), index);
      if index < m0 {
        BalancedDropped(Cases(), index, m0, start, sent, dropped0, forgotten0);
        dropped := dropped0 + multiset{ch};
        m := m0 - 1;
      } else {
        BalancedForgotten(Cases(), index, m0, start, sent, dropped0, forgotten0);
        forgotten := forgotten0 + multiset{ch};
      }
      Delete(index);
    }

    // Send: delivers the value to every subscription. It returns when all are served, and stays blocked when
    // the script has no further event. `dropped` are the subscriptions cancelled before they were served,
    // `forgotten` those cancelled afterwards, `withdrawn` the new ones cancelled in the inbox; `used` is the
    // number of events consumed, and `rounds` the number of offers in each round of the fast path.
    method Send(trySend: nat -> bool, script: seq<Event>)
      returns (outcome: Outcome, panicked: bool, nsent: nat, sent: seq<Chan>, ghost dropped: multiset<Chan>,
               ghost forgotten: multiset<Chan>, ghost withdrawn: multiset<Chan>, ghost used: nat, ghost rounds: seq<nat>)
      requires Valid() && Legal(removeSub, Live(), script)
      modifies this`data, this`len, this`inbox, data
      ensures Valid() && !panicked && nsent == |sent|
      ensures used <= |script| && Live() == LiveAfter(old(Live()), script[..used])
      ensures Settled(old(Live()), Cases(), sent, dropped, forgotten)
      ensures Accounted(script[..used], multiset(inbox), dropped, forgotten, withdrawn)
      ensures Rounds(trySend, script[..used], rounds, |old(Live())|)
      ensures nsent == Readies(script[..used]) + Accepted(trySend, 0, Total(rounds))
      ensures outcome == Finished <==> multiset(sent) + dropped == old(Live())
      ensures outcome == Blocked ==> used == |script|
      ensures AllReady(trySend) ==> outcome == Finished && used == 0
    {
      hide Balanced, LiveAfter, Step, Legal, Settled, AllReady, Cases, Live, Accounted, Changes, Readies, Accepted, Rounds, Total, Follows, AtRound;
      ghost var start := Live();
      TakeInbox();
      FirstBalance(start);
      var m, k, j, done := len, 0, 0, false;
      panicked, nsent, sent, dropped, forgotten, withdrawn, used := false, 0, [], multiset{}, multiset{}, multiset{}, 0;
      rounds := [len - 1];
      RoundsStart(trySend, len - 1);
      NoEvents(start);
      AccountedStart();
      AcceptedNone(trySend, 0);
      ghost var d := data;
      outcome := Blocked;
      while true
        invariant Valid() && data == d && 0 <= j <= |script| && used == j && (AllReady(trySend) ==> j == 0)
        invariant Balanced(Cases(), m, start, sent, dropped, forgotten) && nsent == |sent| && !panicked
        invariant Live() == LiveAfter(start, script[..j])
        invariant Accounted(script[..j], multiset(inbox), dropped, forgotten, withdrawn)
        invariant AtRound(trySend, script[..j], rounds, |start|, m, k)
        invariant nsent == Readies(script[..j]) + Accepted(trySend, 0, k)
        modifies this`len, this`inbox, d
        decreases |script| - j
      {
        ghost var m0, k0 := m, k;
        RoundEnd(trySend, script[..j], rounds, |start|, m, k);
        done, m, k, sent := FastPath(m, trySend, k, sent, start, dropped, forgotten);
        AcceptedSum(trySend, 0, k0, k);
        nsent := |sent|;
        if done {
          outcome := Finished;
          break;
        }
        if j == |script| {
          break;
        }
        NextEvent(removeSub, start, script, j);
        ghost var m1, inbox0, dropped0, forgotten0, withdrawn0 := m, multiset(inbox), dropped, forgotten, withdrawn;
        panicked, m, sent, dropped, forgotten, withdrawn :=
          OnEvent(script[j], m, sent, start, dropped, forgotten, withdrawn);
        AccountedStep(script, j, m1, m, inbox0, multiset(inbox), dropped0, dropped, forgotten0, forgotten, withdrawn0, withdrawn);
        PrefixSize(Cases(), m, start, sent, dropped, forgotten);
        RoundsStep(trySend, script, j, rounds, |start|, m0, k0, m1, m);
        rounds := rounds + [m - 1];
        nsent := |sent|;
        j := j + 1;
        used := j;
      }
    }

    lemma FirstBalance(start: multiset<Chan>)
      requires Valid() && inbox == [] && Live() == start
      ensures Balanced(Cases(), len, start, [], multiset{}, multiset{}) && |start| == len - 1
    {
      BalancedStart(Cases(), start);
    }

    // The fast path, and whether it has served all that was left.
    method FastPath(m0: nat, trySend: nat -> bool, k0: nat, sent0: seq<Chan>, ghost start: multiset<Chan>,
                    ghost dropped: multiset<Chan>, ghost forgotten: multiset<Chan>)
      returns (done: bool, m: nat, k: nat, sent: seq<Chan>)
      requires Valid() && Balanced(Cases(), m0, start, sent0, dropped, forgotten)
      modifies data
      ensures Valid() && Live() == old(Live()) && Balanced(Cases(), m, start, sent, dropped, forgotten)
      ensures Settled(start, Cases(), sent, dropped, forgotten)
      ensures done <==> multiset(sent) + dropped == start
      ensures !done ==> m > FIRST_SUB_SEND_CASE && !AllReady(trySend)
      ensures 1 <= m0 && k == k0 + m0 - 1 && |sent| == |sent0| + Accepted(trySend, k0, k)
      ensures m0 - m == Accepted(trySend, k0, k)
    {
      hide Balanced, Accepted, AllReady;
      PrefixSize(Cases(), m0, start, sent0, dropped, forgotten);
      m, k, sent := TryAll(m0, trySend, k0, sent0, start, dropped, forgotten);
      PrefixSize(Cases(), m, start, sent, dropped, forgotten);
      BalancedSubs(Cases(), m, start, sent, dropped, forgotten);
      if AllReady(trySend) {
        AllAccepted(trySend, k0, k);
      }
      done := m == FIRST_SUB_SEND_CASE;
      if done {
        BalancedEnd(Cases(), start, sent, dropped, forgotten);
      } else {
        BalancedOpen(Cases(), m, start, sent, dropped, forgotten);
      }
    }
  }

  // find on a list of cases, with the length standing for -1.
  method IndexOf(s: seq<Chan>, ch: Chan) returns (i: nat)
    ensures i <= |s| && (i < |s| ==> s[i] == ch) && (i == |s| <==> ch !in multiset(s))
  {
    i := 0;
    while i < |s|
      invariant i <= |s| && ch !in s[..i]
    {
      if s[i] == ch {
        return;
      }
      i := i + 1;
    }
    assert s[..i] == s;
  }

  lemma TakenOut(s: seq<Chan>, i: nat, other: Chan)
    requires i < |s|
    ensures multiset(s[..i] + s[i + 1..]) == multiset(s) - multiset{s[i]}
    ensures other !in s ==> other !in s[..i] + s[i + 1..]
  {
    assert s == s[..i] + [s[i]] + s[i + 1..];
    Without(s[..i], s[i], s[i + 1..]);
  }

  lemma DeletedOne(s: seq<Chan>, i: nat)
    requires FIRST_SUB_SEND_CASE <= i < |s|
    ensures |Deleted(s, i)| == |s| - 1 && multiset(Deleted(s, i)[1..]) == multiset(s[1..]) - multiset{s[i]}
  {
    hide Deleted;
    DeletedActive(s, i, |s|);
    assert s[1..|s|] == s[1..];
    assert Deleted(s, i)[1..|s| - 1] == Deleted(s, i)[1..];
  }

  lemma DeactivatedAll(s: seq<Chan>, i: nat, m: nat)
    requires FIRST_SUB_SEND_CASE <= i < m <= |s|
    ensures multiset(Deactivated(s, i, m)[1..]) == multiset(s[1..])
  {
  }

  lemma CaseOf(s: seq<Chan>, ch: Chan)
    requires s != [] && s[0] != ch
    ensures ch in s <==> ch in s[1..]
  {
  }

  lemma NotIn(s: seq<Chan>, t: seq<Chan>, i: nat, x: Chan)
    requires FIRST_SUB_SEND_CASE <= i < |s| && t == Deleted(s, i) && x !in s[1..]
    ensures x !in t[1..]
  {
  }

  lemma NoEvents(live: multiset<Chan>)
    ensures LiveAfter(live, []) == live
  {
  }

  lemma NextEvent(removeSub: Chan, live: multiset<Chan>, script: seq<Event>, j: nat)
    requires j < |script| && Legal(removeSub, live, script)
    ensures LiveAfter(live, script[..j + 1]) == Step(LiveAfter(live, script[..j]), script[j])
    ensures script[j].Unsubscribe? ==> script[j].ch in LiveAfter(live, script[..j])
    ensures script[j].Subscribe? ==> script[j].ch != removeSub
  {
    hide Step;
    assert script[..j + 1][..j] == script[..j];
  }

  lemma PrefixSize(s: seq<Chan>, m: nat, start: multiset<Chan>, sent: seq<Chan>, dropped: multiset<Chan>, forgotten: multiset<Chan>)
    requires Balanced(s, m, start, sent, dropped, forgotten)
    ensures FIRST_SUB_SEND_CASE <= m <= |s|
  {
  }

  // A channel gets the value at most as often as it was subscribed at the start, and a finished Send leaves out
  // only cancelled subscriptions.
  lemma Deliveries(start: multiset<Chan>, s: seq<Chan>, script: seq<Event>, inbox: multiset<Chan>, sent: seq<Chan>,
                   dropped: multiset<Chan>, forgotten: multiset<Chan>, withdrawn: multiset<Chan>, ch: Chan)
    requires Settled(start, s, sent, dropped, forgotten) && Accounted(script, inbox, dropped, forgotten, withdrawn)
    ensures multiset(sent)[ch] <= start[ch]
    ensures multiset(sent) + dropped == start ==> start[ch] <= multiset(sent)[ch] + Cancelled(script)[ch]
  {
    assert (dropped + forgotten + withdrawn)[ch] == dropped[ch] + forgotten[ch] + withdrawn[ch];
    assert (multiset(sent) + dropped)[ch] == multiset(sent)[ch] + dropped[ch];
  }

  // Exactly once: of a Send that finishes, a channel that was subscribed once and that no event has cancelled
  // gets the value once. In any case nobody gets it twice, and nobody who was not subscribed gets it.
  method ExactlyOnce(f: Feed, trySend: nat -> bool, script: seq<Event>)
    returns (outcome: Outcome, sent: seq<Chan>, ghost used: nat)
    requires f.Valid() && Legal(f.removeSub, f.Live(), script)
    modifies f`data, f`len, f`inbox, f.data
    ensures used <= |script| && (outcome == Blocked ==> used == |script|)
    ensures forall ch :: multiset(sent)[ch] <= old(f.Live())[ch]
    ensures outcome == Finished ==>
              forall ch :: old(f.Live())[ch] == 1 && ch !in Cancelled(script[..used]) ==> multiset(sent)[ch] == 1
  {
    hide Settled, Accounted, LiveAfter, Legal, AllReady, Readies, Accepted, Cancelled, Rounds, Total;
    ghost var start := f.Live();
    var panicked, nsent;
    ghost var dropped, forgotten, withdrawn, rounds;
    outcome, panicked, nsent, sent, dropped, forgotten, withdrawn, used, rounds := f.Send(trySend, script);
    forall ch
      ensures multiset(sent)[ch] <= start[ch]
      ensures multiset(sent) + dropped == start ==> start[ch] <= multiset(sent)[ch] + Cancelled(script[..used])[ch]
    {
      Deliveries(start, f.Cases(), script[..used], multiset(f.inbox), sent, dropped, forgotten, withdrawn, ch);
    }
  }
}
