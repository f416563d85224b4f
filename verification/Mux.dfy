/** Protocol multiplexing: matchProtocols, getProto and the code translation of p2p/peer.go.

    Each shared protocol gets a range of message codes, in the order of names, from 16 on. The offset of a
    protocol is a 64-bit sum; a lower version that matched before is reverted by subtracting its length.
 */
module Mux {
  import opened Words
  import Lex

  const BASE_PROTOCOL_LENGTH: u64 := 16

  type Name = Lex.Bytes

  datatype Cap = Cap(name: Name, version: nat)

  datatype Protocol = Protocol(name: Name, version: nat, length: u64)

  datatype ProtoRW = ProtoRW(proto: Protocol, offset: u64)

  type Table = map<Name, ProtoRW>

  // ----- Sorting capabilities -----

  // capsByNameAndVersion.Less.
  predicate CapLess(a: Cap, b: Cap) {
    Lex.Less(a.name, b.name) || (a.name == b.name && a.version < b.version)
  }

  predicate Sorted(caps: seq<Cap>) {
    forall i, j :: 0 <= i < j < |caps| ==> !CapLess(caps[j], caps[i])
  }

  lemma CapTotal(a: Cap, b: Cap)
    ensures CapLess(a, b) || a == b || CapLess(b, a)
    ensures !(CapLess(a, b) && CapLess(b, a))
  {
    Lex.Trichotomy(a.name, b.name);
  }

  lemma CapNotLessTransitive(a: Cap, b: Cap, c: Cap)
    requires !CapLess(b, a) && !CapLess(c, b)
    ensures !CapLess(c, a)
  {
    hide Lex.Less;
    Lex.Trichotomy(a.name, b.name);
    Lex.Trichotomy(b.name, c.name);
    Lex.Trichotomy(a.name, c.name);
    if Lex.Less(a.name, b.name) && Lex.Less(b.name, c.name) {
      Lex.Transitive(a.name, b.name, c.name);
    }
  }

  // Inserts c into a sorted list, before the first element above it.
  method Insert(caps: seq<Cap>, c: Cap) returns (r: seq<Cap>)
    requires Sorted(caps)
    ensures Sorted(r) && multiset(r) == multiset(caps) + multiset{c}
  {
    hide CapLess;
    var i := |caps|;
    while i > 0 && CapLess(c, caps[i - 1])
      invariant 0 <= i <= |caps|
      invariant forall k :: i <= k < |caps| ==> CapLess(c, caps[k])
    {
      i := i - 1;
    }
    r := caps[..i] + [c] + caps[i..];
    assert caps == caps[..i] + caps[i..];
    InsertedAt(caps, c, i);
  }

  lemma InsertedAt(caps: seq<Cap>, c: Cap, i: nat)
    requires Sorted(caps) && i <= |caps| && (i > 0 ==> !CapLess(c, caps[i - 1]))
    requires forall k :: i <= k < |caps| ==> CapLess(c, caps[k])
    ensures Sorted(caps[..i] + [c] + caps[i..])
  {
    hide CapLess;
    forall k | 0 <= k < i
      ensures !CapLess(c, caps[k])
    {
      if k < i - 1 {
        CapNotLessTransitive(caps[k], caps[i - 1], c);
      }
    }
    forall k | i <= k < |caps|
      ensures !CapLess(caps[k], c)
    {
      CapTotal(c, caps[k]);
    }
  }

  // sort.Sort: some sorted rearrangement; by CapTotal there is only one.
  method SortCaps(caps: seq<Cap>) returns (r: seq<Cap>)
    ensures Sorted(r) && multiset(r) == multiset(caps)
  {
    r := [];
    var i := 0;
    while i < |caps|
      invariant 0 <= i <= |caps| && Sorted(r) && multiset(r) == multiset(caps[..i])
    {
      r := Insert(r, caps[i]);
      assert caps[..i + 1] == caps[..i] + [caps[i]];
      i := i + 1;
    }
    assert caps[..i] == caps;
  }

  // ----- The table of shared protocols -----

  function First(ps: seq<Protocol>, c: Cap): (p: Option<Protocol>)
    ensures p.Some? ==> p.value in ps && p.value.name == c.name && p.value.version == c.version
    ensures p.None? ==> forall q <- ps :: !(q.name == c.name && q.version == c.version)
  {
    if ps == [] then None
    else if ps[0].name == c.name && ps[0].version == c.version then Some(ps[0])
    else First(ps[1..], c)
  }

  // The inner loop of matchProtocols.
  method FindProto(ps: seq<Protocol>, c: Cap) returns (p: Option<Protocol>)
    ensures p == First(ps, c)
  {
    var i := 0;
    assert ps[0..] == ps;
    while i < |ps|
      invariant 0 <= i <= |ps| && First(ps, c) == First(ps[i..], c)
    {
      if ps[i].name == c.name && ps[i].version == c.version {
        return Some(ps[i]);
      }
      assert ps[i..][1..] == ps[i + 1..];
      i := i + 1;
    }
    p := None;
  }

  // The capabilities of the other side that this side speaks too.
  ghost function Shared(ps: seq<Protocol>, caps: seq<Cap>): set<Cap> {
    set c | c in caps && First(ps, c).Some?
  }

  // Every shared name is in the table, with the highest shared version and this side's protocol for it.
  ghost predicate Best(t: Table, ps: seq<Protocol>, shared: set<Cap>) {
    && (forall c <- shared :: c.name in t && c.version <= t[c.name].proto.version)
    && (forall n <- t.Keys :: Cap(n, t[n].proto.version) in shared && First(ps, Cap(n, t[n].proto.version)) == Some(t[n].proto))
  }

  ghost predicate Ascending(names: seq<Name>) {
    forall i, j :: 0 <= i < j < |names| ==> Lex.Less(names[i], names[j])
  }

  function Sum(lens: seq<u64>): nat {
    if lens == [] then 0 else Sum(lens[..|lens| - 1]) + lens[|lens| - 1]
  }

  // In the order of names, each range starts where the one before it ends, and the first one at 16.
  ghost predicate Tiled(t: Table, names: seq<Name>, lens: seq<u64>) {
    && |names| == |lens| && Ascending(names) && Lists(names, t)
    && forall k :: 0 <= k < |names| ==> Placed(t, names[k], lens[k], lens[..k])
  }

  ghost predicate Lists(names: seq<Name>, t: Table) { forall n :: n in t <==> n in names }

  lemma ListsAgain(names: seq<Name>, t: Table, n: Name, p: ProtoRW)
    requires Lists(names, t) && n in names
    ensures Lists(names, t[n := p])
  {
  }

  // The range of a protocol has its length and comes behind those before it.
  ghost predicate Placed(t: Table, n: Name, length: u64, before: seq<u64>) {
    n in t && t[n].proto.length == length && t[n].offset == Wrap64(BASE_PROTOCOL_LENGTH + Sum(before))
  }

  lemma PlacedNew(t: Table, n: Name, before: seq<u64>, p: Protocol, start: u64)
    requires start == Wrap64(BASE_PROTOCOL_LENGTH + Sum(before))
    ensures Placed(t[n := ProtoRW(p, start)], n, p.length, before)
  {
  }

  lemma PlacedKeeps(t: Table, n: Name, length: u64, before: seq<u64>, m: Name, p: ProtoRW)
    requires Placed(t, n, length, before) && n != m
    ensures Placed(t[m := p], n, length, before)
  {
  }

  ghost predicate IsTable(t: Table, ps: seq<Protocol>, shared: set<Cap>) {
    Best(t, ps, shared) && exists names, lens :: Tiled(t, names, lens)
  }

  lemma SumSnoc(lens: seq<u64>, x: u64)
    ensures Sum(lens + [x]) == Sum(lens) + x
  {
  }

  lemma TiledNew(t: Table, names: seq<Name>, lens: seq<u64>, n: Name, p: Protocol, offset: u64)
    requires Tiled(t, names, lens) && n !in t && (forall m <- names :: Lex.Less(m, n))
    requires offset == Wrap64(BASE_PROTOCOL_LENGTH + Sum(lens))
    ensures Tiled(t[n := ProtoRW(p, offset)], names + [n], lens + [p.length])
    ensures Wrap64(offset + p.length) == Wrap64(BASE_PROTOCOL_LENGTH + Sum(lens + [p.length]))
  {
    hide Wrap64, Sum;
    var ns, ls := names + [n], lens + [p.length];
    assert ls[..|lens|] == lens && forall k :: 0 <= k < |lens| ==> ls[..k] == lens[..k];
    TiledNames(t, names, lens);
    SumSnoc(lens, p.length);
    Wrap64Add(BASE_PROTOCOL_LENGTH + Sum(lens), p.length);
  }

  // Reverting the last range and assigning it anew.
  lemma TiledAgain(t: Table, names: seq<Name>, lens: seq<u64>, p: Protocol, offset: u64)
    requires Tiled(t, names, lens) && names != []
    requires offset == Wrap64(BASE_PROTOCOL_LENGTH + Sum(lens))
    ensures var k := |names| - 1;
            var start := Wrap64(offset - t[names[k]].proto.length);
            && Tiled(t[names[k] := ProtoRW(p, start)], names, lens[..k] + [p.length])
            && Wrap64(start + p.length) == Wrap64(BASE_PROTOCOL_LENGTH + Sum(lens[..k] + [p.length]))
  {
    hide Wrap64, Sum;
    var k := |names| - 1;
    var n, kept := names[k], lens[..k];
    assert lens == kept + [lens[k]];
    SumSnoc(kept, lens[k]);
    SumSnoc(kept, p.length);
    var last: int := lens[k];
    Wrap64Add(BASE_PROTOCOL_LENGTH + Sum(lens), -last);
    var start := Wrap64(offset - t[n].proto.length);
    assert start == Wrap64(BASE_PROTOCOL_LENGTH + Sum(kept));
    Wrap64Add(BASE_PROTOCOL_LENGTH + Sum(kept), p.length);
    Retile(t, names, lens, p, start);
  }

  lemma Retile(t: Table, names: seq<Name>, lens: seq<u64>, p: Protocol, start: u64)
    requires Tiled(t, names, lens) && names != [] && start == Wrap64(BASE_PROTOCOL_LENGTH + Sum(lens[..|names| - 1]))
    ensures Tiled(t[names[|names| - 1] := ProtoRW(p, start)], names, lens[..|names| - 1] + [p.length])
  {
    hide Lists, Placed, Sum, Wrap64, Ascending;
    var k := |names| - 1;
    forall j | 0 <= j <= k
      ensures Placed(t[names[k] := ProtoRW(p, start)], names[j], (lens[..k] + [p.length])[j], (lens[..k] + [p.length])[..j])
    {
      RetileAt(t, names, lens, p, start, j);
    }
    assert names[k] in names;
    ListsAgain(names, t, names[k], ProtoRW(p, start));
  }

  lemma RetileAt(t: Table, names: seq<Name>, lens: seq<u64>, p: Protocol, start: u64, j: nat)
    requires Tiled(t, names, lens) && j < |names| && start == Wrap64(BASE_PROTOCOL_LENGTH + Sum(lens[..|names| - 1]))
    ensures var k := |names| - 1;
            var ls := lens[..k] + [p.length];
            Placed(t[names[k] := ProtoRW(p, start)], names[j], ls[j], ls[..j])
  {
    hide Lists, Placed, Sum, Wrap64;
    var k := |names| - 1;
    SameBefore(lens, k, p.length, j);
    if j < k {
      Lex.Trichotomy(names[j], names[k]);
      PlacedKeeps(t, names[j], lens[j], lens[..j], names[k], ProtoRW(p, start));
    } else {
      PlacedNew(t, names[k], lens[..k], p, start);
    }
  }

  lemma SameBefore(lens: seq<u64>, k: nat, x: u64, j: nat)
    requires j <= k < |lens|
    ensures var ls := lens[..k] + [x]; ls[j] == (if j == k then x else lens[j]) && ls[..j] == lens[..j]
  {
  }

  lemma LastAbove(names: seq<Name>, k: nat)
    requires Ascending(names) && k < |names|
    ensures k == |names| - 1 || Lex.Less(names[k], names[|names| - 1])
  {
  }

  // Because the capabilities are sorted, a name that has matched before is the last one assigned.
  lemma LastAssigned(t: Table, names: seq<Name>, lens: seq<u64>, n: Name)
    requires Tiled(t, names, lens) && (forall m <- names :: !Lex.Less(n, m))
    ensures n in t ==> names != [] && names[|names| - 1] == n
    ensures n !in t ==> forall m <- names :: Lex.Less(m, n)
  {
    hide Lex.Less, Wrap64, Sum;
    if n in t {
      var k :| 0 <= k < |names| && names[k] == n;
      LastAbove(names, k);
    } else {
      forall m <- names
        ensures Lex.Less(m, n)
      {
        Lex.Trichotomy(m, n);
      }
    }
  }

  // Sortedness, seen from the table: the next capability is not below any name or version in it.
  lemma NextCap(t: Table, ps: seq<Protocol>, caps: seq<Cap>, i: nat)
    requires Sorted(caps) && i < |caps| && Best(t, ps, Shared(ps, caps[..i]))
    ensures forall m <- t.Keys :: !Lex.Less(caps[i].name, m)
    ensures caps[i].name in t ==> t[caps[i].name].proto.version <= caps[i].version
  {
  }

  lemma SharedStep(ps: seq<Protocol>, caps: seq<Cap>, i: nat)
    requires i < |caps|
    ensures First(ps, caps[i]).Some? ==> Shared(ps, caps[..i + 1]) == Shared(ps, caps[..i]) + {caps[i]}
    ensures First(ps, caps[i]).None? ==> Shared(ps, caps[..i + 1]) == Shared(ps, caps[..i])
  {
  }

  lemma BestStep(t: Table, ps: seq<Protocol>, shared: set<Cap>, c: Cap, offset: u64)
    requires Best(t, ps, shared) && First(ps, c).Some?
    requires c.name in t ==> t[c.name].proto.version <= c.version
    ensures Best(t[c.name := ProtoRW(First(ps, c).value, offset)], ps, shared + {c})
  {
    hide First;
    var p := First(ps, c).value;
    FirstIs(ps, c);
  }

  lemma FirstIs(ps: seq<Protocol>, c: Cap)
    requires First(ps, c).Some?
    ensures First(ps, c).value.name == c.name && First(ps, c).value.version == c.version
  {
  }

  // The highest shared version per name, and ranges that tile the codes from 16 on.
  method MatchProtocols(ps: seq<Protocol>, caps0: seq<Cap>) returns (t: Table)
    ensures IsTable(t, ps, Shared(ps, caps0))
  {
    hide Best, Tiled, Wrap64, Sum, Shared, First, Sorted;
    var caps := SortCaps(caps0);
    var offset := BASE_PROTOCOL_LENGTH;
    t := map[];
    ghost var names: seq<Name>, lens: seq<u64> := [], [];
    Empty(ps);
    var i := 0;
    while i < |caps|
      invariant 0 <= i <= |caps| && Best(t, ps, Shared(ps, caps[..i])) && Tiled(t, names, lens)
      invariant offset == Wrap64(BASE_PROTOCOL_LENGTH + Sum(lens))
    {
      var c := caps[i];
      SharedStep(ps, caps, i);
      var proto := FindProto(ps, c);
      if proto.Some? {
        NextCap(t, ps, caps, i);
        TiledNames(t, names, lens);
        LastAssigned(t, names, lens, c.name);
        if c.name in t {
          TiledAgain(t, names, lens, proto.value, offset);
          offset := Wrap64(offset - t[c.name].proto.length);
          lens := lens[..|names| - 1] + [proto.value.length];
        } else {
          TiledNew(t, names, lens, c.name, proto.value, offset);
          names, lens := names + [c.name], lens + [proto.value.length];
        }
        BestStep(t, ps, Shared(ps, caps[..i]), c, offset);
        t := t[c.name := ProtoRW(proto.value, offset)];
        offset := Wrap64(offset + proto.value.length);
      }
      i := i + 1;
    }
    assert caps[..i] == caps;
    SharedPermuted(ps, caps, caps0);
  }

  lemma Empty(ps: seq<Protocol>)
    ensures Best(map[], ps, Shared(ps, [])) && Tiled(map[], [], [])
    ensures BASE_PROTOCOL_LENGTH == Wrap64(BASE_PROTOCOL_LENGTH + Sum([]))
  {
  }

  lemma TiledNames(t: Table, names: seq<Name>, lens: seq<u64>)
    requires Tiled(t, names, lens)
    ensures forall m <- names :: m in t.Keys
    ensures |lens| == |names|
  {
  }

  lemma SharedPermuted(ps: seq<Protocol>, caps: seq<Cap>, caps0: seq<Cap>)
    requires multiset(caps) == multiset(caps0)
    ensures Shared(ps, caps) == Shared(ps, caps0)
  {
    hide First;
    assert forall c :: c in caps <==> c in multiset(caps);
    assert forall c :: c in caps0 <==> c in multiset(caps0);
  }

  // ----- Both ends agree -----

  lemma {:induction false} AscendingUnique(a: seq<Name>, b: seq<Name>)
    requires Ascending(a) && Ascending(b) && (forall n :: n in a <==> n in b)
    ensures a == b
    decreases |a|
  {
    hide Lex.Less;
    if a == [] {
      if b != [] {
        FirstMember(b);
      }
    } else {
      assert a[0] in a && a[0] in b;
      assert b[0] in b && b[0] in a;
      var i :| 0 <= i < |a| && a[i] == b[0];
      var j :| 0 <= j < |b| && b[j] == a[0];
      Lex.Trichotomy(a[0], b[0]);
      assert a[0] == b[0];
      TailMembers(a);
      TailMembers(b);
      AscendingUnique(a[1..], b[1..]);
      assert a == [a[0]] + a[1..] && b == [b[0]] + b[1..];
    }
  }

  lemma FirstMember(a: seq<Name>)
    requires a != []
    ensures a[0] in a
  {
  }

  lemma TailMembers(a: seq<Name>)
    requires Ascending(a) && a != []
    ensures Ascending(a[1..]) && forall n :: n in a[1..] <==> n in a && n != a[0]
  {
    hide Lex.Less;
    forall n
      ensures n in a[1..] <==> n in a && n != a[0]
    {
      if n in a[1..] {
        var k :| 0 <= k < |a| - 1 && a[1..][k] == n;
        Lex.Trichotomy(a[0], a[0]);
      }
    }
  }

  // A table is determined by the shared capabilities and the lengths of their protocols.
  lemma SameTable(t: Table, ps: seq<Protocol>, t': Table, ps': seq<Protocol>, shared: set<Cap>)
    requires IsTable(t, ps, shared) && IsTable(t', ps', shared)
    requires forall c <- shared :: First(ps, c).Some? && First(ps', c).Some?
                                   && First(ps, c).value.length == First(ps', c).value.length
    ensures t.Keys == t'.Keys
    ensures forall n <- t.Keys ::
              && t[n].proto.version == t'[n].proto.version
              && t[n].proto.length == t'[n].proto.length
              && t[n].offset == t'[n].offset
  {
    hide First, Wrap64, Sum;
    SameVersions(t, ps, t', ps', shared);
    var names, lens :| Tiled(t, names, lens);
    var names', lens' :| Tiled(t', names', lens');
    AscendingUnique(names, names');
    assert lens == lens' by {
      forall k | 0 <= k < |lens|
        ensures lens[k] == lens'[k]
      {
        assert names[k] in t.Keys;
      }
    }
    forall n <- t.Keys
      ensures t[n].offset == t'[n].offset
    {
      var k :| 0 <= k < |names| && names[k] == n;
    }
  }

  lemma SameVersions(t: Table, ps: seq<Protocol>, t': Table, ps': seq<Protocol>, shared: set<Cap>)
    requires Best(t, ps, shared) && Best(t', ps', shared)
    requires forall c <- shared :: First(ps, c).Some? && First(ps', c).Some?
                                   && First(ps, c).value.length == First(ps', c).value.length
    ensures t.Keys == t'.Keys
    ensures forall n <- t.Keys :: t[n].proto.version == t'[n].proto.version && t[n].proto.length == t'[n].proto.length
  {
  }

  // The capabilities that a side announces are those of its protocols.
  ghost predicate Announces(ps: seq<Protocol>, caps: seq<Cap>) {
    forall c :: c in caps <==> First(ps, c).Some?
  }

  // Two ends that know each other's capabilities and agree on lengths build the same table.
  method Handshake(ps: seq<Protocol>, caps: seq<Cap>, ps': seq<Protocol>, caps': seq<Cap>) returns (t: Table, t': Table)
    requires Announces(ps, caps) && Announces(ps', caps')
    requires forall c <- caps :: c in caps' ==> First(ps, c).value.length == First(ps', c).value.length
    ensures IsTable(t, ps, Shared(ps, caps')) && IsTable(t', ps', Shared(ps', caps))
    ensures t.Keys == t'.Keys
    ensures forall n <- t.Keys ::
              && t[n].proto.version == t'[n].proto.version
              && t[n].proto.length == t'[n].proto.length
              && t[n].offset == t'[n].offset
  {
    hide First, IsTable;
    t := MatchProtocols(ps, caps');
    t' := MatchProtocols(ps', caps);
    assert Shared(ps, caps') == Shared(ps', caps);
    SameTable(t, ps, t', ps', Shared(ps, caps'));
  }

  // ----- Message codes -----

  // The codes that all ranges together take up.
  ghost function Top(lens: seq<u64>): nat { BASE_PROTOCOL_LENGTH + Sum(lens) }

  lemma {:induction false} SumMonotone(lens: seq<u64>, k: nat)
    requires k <= |lens|
    ensures Sum(lens[..k]) <= Sum(lens)
    ensures k < |lens| ==> Sum(lens[..k]) + lens[k] <= Sum(lens)
    decreases |lens|
  {
    var n := |lens| - 1;
    if k < n {
      SumMonotone(lens[..n], k);
      assert lens[..n][..k] == lens[..k];
    } else if k == |lens| {
      assert lens[..k] == lens;
    }
  }

  // If the codes fit 64 bits, offsets are the plain sums.
  lemma OffsetExact(t: Table, names: seq<Name>, lens: seq<u64>, k: nat)
    requires Tiled(t, names, lens) && Top(lens) < TWO_64 && k < |names|
    ensures names[k] in t && t[names[k]].proto.length == lens[k]
    ensures t[names[k]].offset == BASE_PROTOCOL_LENGTH + Sum(lens[..k])
    ensures t[names[k]].offset + lens[k] <= Top(lens)
  {
    hide Wrap64, Sum;
    SumMonotone(lens, k);
    Wrap64Small(BASE_PROTOCOL_LENGTH + Sum(lens[..k]));
  }

  predicate InRange(p: ProtoRW, code: u64) {
    p.offset <= code < Wrap64(p.offset + p.proto.length)
  }

  // Ranges of different protocols do not overlap.
  lemma Disjoint(t: Table, names: seq<Name>, lens: seq<u64>, i: nat, j: nat, code: u64)
    requires Tiled(t, names, lens) && Top(lens) < TWO_64 && i < |names| && j < |names|
    requires InRange(t[names[i]], code) && InRange(t[names[j]], code)
    ensures i == j
  {
    hide Wrap64, Sum, Tiled;
    TiledNames(t, names, lens);
    OffsetExact(t, names, lens, i);
    OffsetExact(t, names, lens, j);
    Wrap64Small(t[names[i]].offset + lens[i]);
    Wrap64Small(t[names[j]].offset + lens[j]);
    if i < j {
      assert lens[..j][..i] == lens[..i];
      SumMonotone(lens[..j], i);
    } else if j < i {
      assert lens[..i][..j] == lens[..j];
      SumMonotone(lens[..i], j);
    }
  }

  // Every code from 16 up to the top is in the range of a protocol of the table: there are no gaps.
  lemma Covered(t: Table, names: seq<Name>, lens: seq<u64>, code: u64) returns (n: Name)
    requires Tiled(t, names, lens) && BASE_PROTOCOL_LENGTH <= code < Top(lens) < TWO_64
    ensures n in t && InRange(t[n], code)
  {
    hide Wrap64, Sum;
    var k := CoveredAt(lens, code);
    OffsetExact(t, names, lens, k);
    Wrap64Small(t[names[k]].offset + t[names[k]].proto.length);
    n := names[k];
  }

  lemma {:induction false} CoveredAt(lens: seq<u64>, code: nat) returns (k: nat)
    requires BASE_PROTOCOL_LENGTH <= code < Top(lens)
    ensures k < |lens| && BASE_PROTOCOL_LENGTH + Sum(lens[..k]) <= code < BASE_PROTOCOL_LENGTH + Sum(lens[..k]) + lens[k]
    decreases |lens|
  {
    var n := |lens| - 1;
    if code >= Top(lens[..n]) {
      k := n;
    } else {
      k := CoveredAt(lens[..n], code);
      assert lens[..n][..k] == lens[..k];
    }
  }

  // getProto over the table in any iteration order.
  method GetProto(t: Table, order: seq<Name>, code: u64) returns (p: Option<ProtoRW>)
    requires forall n :: n in order <==> n in t
    ensures p.Some? ==> InRange(p.value, code) && p.value in t.Values
    ensures p.None? ==> forall n <- t.Keys :: !InRange(t[n], code)
  {
    hide InRange;
    var i := 0;
    while i < |order|
      invariant 0 <= i <= |order|
      invariant forall k :: 0 <= k < i ==> !InRange(t[order[k]], code)
    {
      var n := order[i];
      if InRange(t[n], code) {
        return Some(t[n]);
      }
      i := i + 1;
    }
    p := None;
  }

  // WriteMsg: the code on the wire, unless the protocol does not have it.
  function WireCode(p: ProtoRW, code: u64): Option<u64> {
    if code >= p.proto.length then None else Some(Wrap64(code + p.offset))
  }

  // A code that one end writes reaches the same protocol on the other end, with the same code, whatever the
  // iteration order there.
  method Deliver(ps: seq<Protocol>, caps: seq<Cap>, ps': seq<Protocol>, caps': seq<Cap>,
                 n: Name, code: u64, pickOrder: set<Name> -> seq<Name>)
    returns (received: Option<(ProtoRW, u64)>, t: Table, t': Table)
    requires Announces(ps, caps) && Announces(ps', caps')
    requires forall c <- caps :: c in caps' ==> First(ps, c).value.length == First(ps', c).value.length
    requires forall s, m :: m in pickOrder(s) <==> m in s
    ensures IsTable(t, ps, Shared(ps, caps')) && IsTable(t', ps', Shared(ps', caps))
    ensures n in t && code < t[n].proto.length && Fits(t) ==>
              n in t' && received == Some((t'[n], code)) && t'[n].proto.name == n
              && t'[n].proto.version == t[n].proto.version
  {
    hide First, IsTable, InRange, WireCode, Fits;
    t, t' := Handshake(ps, caps, ps', caps');
    received := None;
    if n in t {
      var wire := WireCode(t[n], code);
      if wire.Some? {
        // handle: codes below 16 belong to the base protocol.
        var p := None;
        if wire.value >= BASE_PROTOCOL_LENGTH {
          p := GetProto(t', pickOrder(t'.Keys), wire.value);
        }
        if p.Some? {
          received := Some((p.value, Wrap64(wire.value - p.value.offset)));
        }
        if Fits(t) && code < t[n].proto.length {
          Reaches(t, t', n, code, p);
          NamesKept(t', ps', Shared(ps', caps), n);
        }
      } else {
        NoCode(t[n], code);
      }
    }
  }

  // All codes of the table fit 64 bits.
  ghost predicate Fits(t: Table) {
    exists names, lens :: Tiled(t, names, lens) && Top(lens) < TWO_64
  }

  lemma NoCode(p: ProtoRW, code: u64)
    requires WireCode(p, code).None?
    ensures code >= p.proto.length
  {
  }

  lemma NamesKept(t: Table, ps: seq<Protocol>, shared: set<Cap>, n: Name)
    requires IsTable(t, ps, shared) && n in t
    ensures t[n].proto.name == n
  {
    hide First;
    FirstIs(ps, Cap(n, t[n].proto.version));
  }

  lemma Reaches(t: Table, t': Table, n: Name, code: u64, p: Option<ProtoRW>)
    requires Fits(t) && n in t && t.Keys == t'.Keys && code < t[n].proto.length
    requires forall m <- t.Keys :: t[m].proto.length == t'[m].proto.length && t[m].offset == t'[m].offset
    requires WireCode(t[n], code).Some?
    requires p.Some? ==> InRange(p.value, WireCode(t[n], code).value) && p.value in t'.Values
    requires p.None? ==> WireCode(t[n], code).value < BASE_PROTOCOL_LENGTH
                         || forall m <- t'.Keys :: !InRange(t'[m], WireCode(t[n], code).value)
    ensures p == Some(t'[n]) && Wrap64(WireCode(t[n], code).value - t'[n].offset) == code
  {
    hide Wrap64, Sum, InRange, WireCode;
    var names, lens :| Tiled(t, names, lens) && Top(lens) < TWO_64;
    var k :| 0 <= k < |names| && names[k] == n;
    Wired(t, names, lens, k, code);
    var wire := WireCode(t[n], code).value;
    assert InRange(t'[n], wire) by { InRangeSame(t[n], t'[n], wire); }
    var m :| m in t'.Keys && t'[m] == p.value;
    InRangeSame(t'[m], t[m], wire);
    var j :| 0 <= j < |names| && names[j] == m;
    Disjoint(t, names, lens, j, k, wire);
  }

  lemma InRangeSame(p: ProtoRW, q: ProtoRW, code: u64)
    requires p.offset == q.offset && p.proto.length == q.proto.length
    ensures InRange(p, code) <==> InRange(q, code)
  {
  }

  // The code on the wire is in the range of its protocol, and the offset takes it back.
  lemma Wired(t: Table, names: seq<Name>, lens: seq<u64>, k: nat, code: u64)
    requires Tiled(t, names, lens) && Top(lens) < TWO_64 && k < |names| && names[k] in t && code < t[names[k]].proto.length
    ensures WireCode(t[names[k]], code).Some?
    ensures var wire := WireCode(t[names[k]], code).value;
      wire >= BASE_PROTOCOL_LENGTH && InRange(t[names[k]], wire) && Wrap64(wire - t[names[k]].offset) == code
  {
    hide Wrap64, Sum;
    OffsetExact(t, names, lens, k);
    var p := t[names[k]];
    Wrap64Small(code + p.offset);
    Wrap64Small(p.offset + p.proto.length);
    Wrap64Small(WireCode(p, code).value - p.offset);
  }
}
