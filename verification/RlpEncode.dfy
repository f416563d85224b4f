/** The RLP encoder: a flat string buffer, list headers in a side table, and three ways to read it out.

    Models rlp/encbuffer.go and the header and integer helpers of rlp/encode.go.
 */
module RlpEncode {
  import opened Words
  import opened RlpSpec

  // ----- Integers and headers -----

  // The bytes that putint writes: one branch for each width, most significant byte first.
  function Digits(i: u64): (d: seq<byte>)
    ensures d == if i == 0 then [0] else BE(i)
  {
    if i < 0x100 then [i]
    else if i < 0x1_0000 then Digits2(i)
    else if i < 0x100_0000 then Digits3(i)
    else if i < 0x1_0000_0000 then Digits4(i)
    else if i < 0x100_0000_0000 then Digits5(i)
    else if i < 0x1_0000_0000_0000 then Digits6(i)
    else if i < 0x100_0000_0000_0000 then Digits7(i)
    else Digits8(i)
  }

  function Digits2(i: u64): (d: seq<byte>)
    requires 0x100 <= i < 0x1_0000
    ensures d == BE(i)
  {
    assert BE(i / 0x100) == [i / 0x100];
    [i / 0x100, i % 0x100]
  }

  function Digits3(i: u64): (d: seq<byte>)
    requires 0x1_0000 <= i < 0x100_0000
    ensures d == BE(i)
  {
    assert Digits2(i / 0x100) == [i / 0x1_0000, i / 0x100 % 0x100];
    [i / 0x1_0000, i / 0x100 % 0x100, i % 0x100]
  }

  function Digits4(i: u64): (d: seq<byte>)
    requires 0x100_0000 <= i < 0x1_0000_0000
    ensures d == BE(i)
  {
    assert Digits3(i / 0x100) == [i / 0x100_0000, i / 0x1_0000 % 0x100, i / 0x100 % 0x100];
    [i / 0x100_0000, i / 0x1_0000 % 0x100, i / 0x100 % 0x100, i % 0x100]
  }

  function Digits5(i: u64): (d: seq<byte>)
    requires 0x1_0000_0000 <= i < 0x100_0000_0000
    ensures d == BE(i)
  {
    assert Digits4(i / 0x100) ==
           [i / 0x1_0000_0000, i / 0x100_0000 % 0x100, i / 0x1_0000 % 0x100, i / 0x100 % 0x100];
    [i / 0x1_0000_0000, i / 0x100_0000 % 0x100, i / 0x1_0000 % 0x100, i / 0x100 % 0x100, i % 0x100]
  }

  function Digits6(i: u64): (d: seq<byte>)
    requires 0x100_0000_0000 <= i < 0x1_0000_0000_0000
    ensures d == BE(i)
  {
    assert Digits5(i / 0x100) ==
           [i / 0x100_0000_0000, i / 0x1_0000_0000 % 0x100, i / 0x100_0000 % 0x100,
            i / 0x1_0000 % 0x100, i / 0x100 % 0x100];
    [i / 0x100_0000_0000, i / 0x1_0000_0000 % 0x100, i / 0x100_0000 % 0x100,
     i / 0x1_0000 % 0x100, i / 0x100 % 0x100, i % 0x100]
  }

  function Digits7(i: u64): (d: seq<byte>)
    requires 0x1_0000_0000_0000 <= i < 0x100_0000_0000_0000
    ensures d == BE(i)
  {
    assert Digits6(i / 0x100) ==
           [i / 0x1_0000_0000_0000, i / 0x100_0000_0000 % 0x100, i / 0x1_0000_0000 % 0x100,
            i / 0x100_0000 % 0x100, i / 0x1_0000 % 0x100, i / 0x100 % 0x100];
    [i / 0x1_0000_0000_0000, i / 0x100_0000_0000 % 0x100, i / 0x1_0000_0000 % 0x100,
     i / 0x100_0000 % 0x100, i / 0x1_0000 % 0x100, i / 0x100 % 0x100, i % 0x100]
  }

  // Shifting twice.
  lemma Shifts(i: nat)
    ensures forall n: nat :: n / 0x100 == i ==>
      && i / 0x100 == n / 0x1_0000 && i / 0x1_0000 == n / 0x100_0000 && i / 0x100_0000 == n / 0x1_0000_0000
      && i / 0x1_0000_0000 == n / 0x100_0000_0000 && i / 0x100_0000_0000 == n / 0x1_0000_0000_0000
      && i / 0x1_0000_0000_0000 == n / 0x100_0000_0000_0000
  {
  }

  function Digits8(i: u64): (d: seq<byte>)
    requires 0x100_0000_0000_0000 <= i
    ensures d == BE(i)
  {
    assert BE(i) == BE(i / 0x100) + [i % 0x100];
    Shifts(i / 0x100);
    assert Digits7(i / 0x100) ==
           [i / 0x100_0000_0000_0000, i / 0x1_0000_0000_0000 % 0x100, i / 0x100_0000_0000 % 0x100,
            i / 0x1_0000_0000 % 0x100, i / 0x100_0000 % 0x100, i / 0x1_0000 % 0x100, i / 0x100 % 0x100];
    [i / 0x100_0000_0000_0000, i / 0x1_0000_0000_0000 % 0x100, i / 0x100_0000_0000 % 0x100,
     i / 0x1_0000_0000 % 0x100, i / 0x100_0000 % 0x100, i / 0x1_0000 % 0x100, i / 0x100 % 0x100, i % 0x100]
  }

  // bits.Len64: the number of bits needed to represent i.
  function BitLen(i: nat): nat { if i == 0 then 0 else 1 + BitLen(i / 2) }

  function IntSize(i: u64): nat { (BitLen(i) + 7) / 8 }

  lemma BitLenByte(i: nat)
    requires i >= 256
    ensures BitLen(i) == 8 + BitLen(i / 256)
  {
    var a, b, c := i / 2, i / 4, i / 8;
    assert BitLen(i) == 1 + BitLen(a) && a / 2 == b;
    assert BitLen(a) == 1 + BitLen(b) && b / 2 == c;
    assert BitLen(b) == 1 + BitLen(c) && c / 2 == i / 16;
    assert BitLen(c) == 1 + BitLen(i / 16) && (i / 16) / 2 == i / 32;
    assert BitLen(i / 16) == 1 + BitLen(i / 32) && (i / 32) / 2 == i / 64;
    assert BitLen(i / 32) == 1 + BitLen(i / 64) && (i / 64) / 2 == i / 128;
    assert BitLen(i / 64) == 1 + BitLen(i / 128) && (i / 128) / 2 == i / 256;
  }

  lemma {:induction false} BitLenBound(i: nat, k: nat)
    requires i > 0 && k <= 8
    requires i < [1, 2, 4, 8, 16, 32, 64, 128, 256][k]
    ensures 1 <= BitLen(i) <= k
  {
    if i > 1 {
      BitLenBound(i / 2, k - 1);
    }
  }

  // The size computed from the bit length is the number of bytes actually written.
  lemma {:induction false} IntSizeExact(i: u64)
    ensures IntSize(i) == |BE(i)|
  {
    if i >= 256 {
      BitLenByte(i);
      IntSizeExact(i / 256);
    } else if i > 0 {
      BitLenBound(i, 8);
      assert BE(i) == [i];
    }
  }

  function HeadSize(size: u64): nat { if size < 56 then 1 else 1 + IntSize(size) }

  // headsize announces exactly the header that is later written.
  lemma HeadSizeExact(k: Kind, size: u64)
    requires k != Byte
    ensures HeadSize(size) == |Head(k, size)|
  {
    IntSizeExact(size);
  }

  // copy(dst[at..], src): copies as much as fits.
  method CopyInto(dst: array<byte>, at: nat, src: seq<byte>) returns (n: nat)
    requires at <= dst.Length
    modifies dst
    ensures n == Min(|src|, dst.Length - at)
    ensures dst[..at] == old(dst[..at])
    ensures dst[at..at + n] == src[..n]
    ensures dst[at + n..] == old(dst[at + n..])
  {
    n := Min(|src|, dst.Length - at);
    forall j | 0 <= j < n {
      dst[at + j] := src[j];
    }
  }

  // puthead(buf[at..], SmallTag(k), LargeTag(k), size), with the bytes of putint written after the tag.
  // A header that does not fit would overrun the buffer.
  method PutHead(buf: array<byte>, at: nat, k: Kind, size: u64) returns (n: nat)
    requires k != Byte
    requires at + |Head(k, size)| <= buf.Length
    modifies buf
    ensures n == |Head(k, size)|
    ensures buf[..at] == old(buf[..at])
    ensures buf[at..at + n] == Head(k, size)
    ensures buf[at + n..] == old(buf[at + n..])
  {
    var tag, digits: seq<byte>;
    if size < 56 {
      HeadSmall(k, size);
      tag, digits := SmallTag(k) + size, [];
    } else {
      HeadLarge(k, size);
      digits := Digits(size);
      tag := LargeTag(k) + |digits|;
    }
    assert Head(k, size) == [tag] + digits;
    n := PutTagged(buf, at, tag, digits);
  }

  method PutTagged(buf: array<byte>, at: nat, tag: byte, digits: seq<byte>) returns (n: nat)
    requires at + 1 + |digits| <= buf.Length
    modifies buf
    ensures n == 1 + |digits|
    ensures buf[..at] == old(buf[..at])
    ensures buf[at..at + n] == [tag] + digits
    ensures buf[at + n..] == old(buf[at + n..])
  {
    n := CopyInto(buf, at + 1, digits);
    buf[at] := tag;
    n := n + 1;
  }

  // Writes string data and the list header that follows it.
  method PutRun(buf: array<byte>, at: nat, run: seq<byte>, size: u64) returns (end: nat)
    requires at + |run| + |Head(List, size)| <= buf.Length
    modifies buf
    ensures end == at + |run| + |Head(List, size)|
    ensures buf[..end] == old(buf[..at]) + run + Head(List, size)
  {
    hide Head;
    ghost var done := buf[..at];
    var n := CopyInto(buf, at, run);
    assert buf[..at + n] == done + run;
    var m := PutHead(buf, at + n, List, size);
    end := at + n + m;
    assert buf[..end] == buf[..at + n] + buf[at + n..end];
  }

  // ----- The buffer as a value: string data, headers, and how they interleave -----

  datatype ListHead = ListHead(offset: nat, size: nat)

  // String data of an item: everything except list headers.
  function FlatStr(t: Item): seq<byte>
    decreases t, 1
  {
    match t
    case Str(b) => Frame(StrKind(b), b)
    case Lst(ts) => FlatAll(ts)
  }

  function FlatAll(ts: seq<Item>): seq<byte>
    decreases ts, 0
  {
    if ts == [] then [] else FlatStr(ts[0]) + FlatAll(ts[1..])
  }

  // Finished list headers of an item whose string data starts at off, outermost first.
  function HeadsOf(t: Item, off: nat): seq<ListHead>
    decreases t, 1
  {
    match t
    case Str(_) => []
    case Lst(ts) => [ListHead(off, |RlpAll(ts)|)] + HeadsAll(ts, off)
  }

  function HeadsAll(ts: seq<Item>, off: nat): seq<ListHead>
    decreases ts, 0
  {
    if ts == [] then [] else HeadsOf(ts[0], off) + HeadsAll(ts[1..], off + |FlatStr(ts[0])|)
  }

  function HeadSum(hs: seq<ListHead>): nat {
    if hs == [] then 0 else |Head(List, hs[0].size)| + HeadSum(hs[1..])
  }

  // Offsets ascend from lo and stay within hi.
  predicate InRange(hs: seq<ListHead>, lo: nat, hi: nat) {
    if hs == [] then lo <= hi
    else lo <= hs[0].offset <= hi && InRange(hs[1..], hs[0].offset, hi)
  }

  // The bytes of string data s, which starts at offset base, with the headers put in.
  function Render(s: seq<byte>, base: nat, hs: seq<ListHead>): seq<byte>
    decreases |hs|
  {
    if hs == [] || !(base <= hs[0].offset <= base + |s|) then s
    else
      var cut := hs[0].offset - base;
      s[..cut] + (Head(List, hs[0].size) + Render(s[cut..], hs[0].offset, hs[1..]))
  }

  // What is rendered from string position `at` and header index i on.
  function Tail(s: seq<byte>, at: nat, hs: seq<ListHead>, i: nat): seq<byte>
    requires TailOk(s, at, hs, i)
  {
    Render(s[at..], at, hs[i..])
  }

  predicate TailOk(s: seq<byte>, at: nat, hs: seq<ListHead>, i: nat): (ok: bool)
    ensures ok ==> at <= |s| && i <= |hs|
  {
    at <= |s| && i <= |hs| && InRange(hs[i..], at, |s|)
  }

  lemma TailFirst(s: seq<byte>, hs: seq<ListHead>)
    requires InRange(hs, 0, |s|)
    ensures TailOk(s, 0, hs, 0) && Tail(s, 0, hs, 0) == Render(s, 0, hs)
  {
  }

  lemma TailNext(s: seq<byte>, at: nat, hs: seq<ListHead>, i: nat)
    requires TailOk(s, at, hs, i) && i < |hs|
    ensures at <= hs[i].offset <= |s| && TailOk(s, hs[i].offset, hs, i + 1) && TailOk(s, hs[i].offset, hs, i)
    ensures Tail(s, at, hs, i) ==
            s[at..hs[i].offset] + (Head(List, hs[i].size) + Tail(s, hs[i].offset, hs, i + 1))
    ensures Tail(s, hs[i].offset, hs, i) == Head(List, hs[i].size) + Tail(s, hs[i].offset, hs, i + 1)
  {
  }

  lemma TailLast(s: seq<byte>, at: nat, hs: seq<ListHead>)
    requires TailOk(s, at, hs, |hs|)
    ensures Tail(s, at, hs, |hs|) == s[at..]
    ensures TailOk(s, |s|, hs, |hs|) && Tail(s, |s|, hs, |hs|) == []
  {
  }

  lemma {:induction false} RenderLength(s: seq<byte>, base: nat, hs: seq<ListHead>)
    requires InRange(hs, base, base + |s|)
    ensures |Render(s, base, hs)| == |s| + HeadSum(hs)
    decreases |hs|
  {
    if hs != [] {
      RenderLength(s[hs[0].offset - base..], hs[0].offset, hs[1..]);
    }
  }

  lemma {:induction false} HeadSumConcat(hs: seq<ListHead>, gs: seq<ListHead>)
    ensures HeadSum(hs + gs) == HeadSum(hs) + HeadSum(gs)
  {
    hide Head;
    if hs == [] {
      assert hs + gs == gs;
    } else {
      HeadSumConcat(hs[1..], gs);
      assert (hs + gs)[1..] == hs[1..] + gs;
    }
  }

  // String data before the first header is rendered as it is.
  lemma RenderPrefix(s: seq<byte>, s': seq<byte>, hs: seq<ListHead>, base: nat)
    requires hs != [] ==> base + |s| <= hs[0].offset <= base + |s| + |s'|
    ensures Render(s + s', base, hs) == s + Render(s', base + |s|, hs)
  {
    if hs != [] {
      var cut := hs[0].offset - base - |s|;
      CutBehind(s, s', cut);
      var rest := Head(List, hs[0].size) + Render(s'[cut..], hs[0].offset, hs[1..]);
      assert Render(s + s', base, hs) == (s + s'[..cut]) + rest;
      ConcatAssoc(s, s'[..cut], rest);
    }
  }

  lemma CutBehind(s: seq<byte>, s': seq<byte>, cut: nat)
    requires cut <= |s'|
    ensures (s + s')[..|s| + cut] == s + s'[..cut] && (s + s')[|s| + cut..] == s'[cut..]
  {
  }

  // The flat form of an item, followed by anything, renders to its recursive encoding, followed by the rest.
  lemma {:induction false} RenderItem(t: Item, off: nat, s: seq<byte>, hs: seq<ListHead>)
    requires InRange(hs, off + |FlatStr(t)|, off + |FlatStr(t)| + |s|)
    ensures Render(FlatStr(t) + s, off, HeadsOf(t, off) + hs) == Rlp(t) + Render(s, off + |FlatStr(t)|, hs)
    decreases t, 1
  {
    hide Head, Render, FlatAll, HeadsAll, RlpAll, InRange;
    if t.Str? {
      assert HeadsOf(t, off) + hs == hs;
      RangeFirst(hs, off + |FlatStr(t)|, off + |FlatStr(t)| + |s|);
      RenderPrefix(FlatStr(t), s, hs, off);
    } else {
      var size := |RlpAll(t.items)|;
      ConcatAssoc([ListHead(off, size)], HeadsAll(t.items, off), hs);
      RenderFront(FlatAll(t.items) + s, off, size, HeadsAll(t.items, off) + hs);
      RenderAll(t.items, off, s, hs);
      ConcatAssoc(Head(List, size), RlpAll(t.items), Render(s, off + |FlatStr(t)|, hs));
    }
  }

  lemma RangeFirst(hs: seq<ListHead>, lo: nat, hi: nat)
    requires InRange(hs, lo, hi)
    ensures hs != [] ==> lo <= hs[0].offset <= hi
  {
  }

  // A header at the front is written first.
  lemma RenderFront(s: seq<byte>, off: nat, size: nat, hs: seq<ListHead>)
    ensures Render(s, off, [ListHead(off, size)] + hs) == Head(List, size) + Render(s, off, hs)
  {
    hide Head;
    var g := [ListHead(off, size)] + hs;
    assert g[0] == ListHead(off, size) && g[1..] == hs && s[..0] == [] && s[0..] == s;
    assert [] + (Head(List, size) + Render(s, off, hs)) == Head(List, size) + Render(s, off, hs);
  }

  lemma {:induction false} RenderAll(ts: seq<Item>, off: nat, s: seq<byte>, hs: seq<ListHead>)
    requires InRange(hs, off + |FlatAll(ts)|, off + |FlatAll(ts)| + |s|)
    ensures Render(FlatAll(ts) + s, off, HeadsAll(ts, off) + hs) == RlpAll(ts) + Render(s, off + |FlatAll(ts)|, hs)
    decreases ts, 0
  {
    hide Rlp, FlatStr, HeadsOf, Head, Frame, Render, InRange;
    if ts == [] {
      assert FlatAll(ts) + s == s && HeadsAll(ts, off) + hs == hs;
    } else {
      var f, mid := FlatStr(ts[0]), off + |FlatStr(ts[0])|;
      var f', h' := FlatAll(ts[1..]), HeadsAll(ts[1..], mid);
      RangeAll(ts[1..], mid, s, hs);
      RenderItem(ts[0], off, f' + s, h' + hs);
      RenderAll(ts[1..], mid, s, hs);
      ConcatAssoc(f, f', s);
      ConcatAssoc(HeadsOf(ts[0], off), h', hs);
      ConcatAssoc(Rlp(ts[0]), RlpAll(ts[1..]), Render(s, mid + |f'|, hs));
    }
  }

  lemma {:induction false} RangeItem(t: Item, off: nat, s: seq<byte>, hs: seq<ListHead>)
    requires InRange(hs, off + |FlatStr(t)|, off + |FlatStr(t)| + |s|)
    ensures InRange(HeadsOf(t, off) + hs, off, off + |FlatStr(t) + s|)
    decreases t, 1
  {
    hide Head, Rlp, Frame, RlpAll;
    if t.Str? {
      assert HeadsOf(t, off) + hs == hs;
    } else {
      RangeAll(t.items, off, s, hs);
      var g := HeadsOf(t, off) + hs;
      assert g[0] == ListHead(off, |RlpAll(t.items)|) && g[1..] == HeadsAll(t.items, off) + hs;
    }
  }

  lemma {:induction false} RangeAll(ts: seq<Item>, off: nat, s: seq<byte>, hs: seq<ListHead>)
    requires InRange(hs, off + |FlatAll(ts)|, off + |FlatAll(ts)| + |s|)
    ensures InRange(HeadsAll(ts, off) + hs, off, off + |FlatAll(ts) + s|)
    decreases ts, 0
  {
    hide Head, Rlp, RlpAll, Frame, HeadsOf, FlatStr;
    if ts == [] {
      assert HeadsAll(ts, off) + hs == hs;
    } else {
      var mid := off + |FlatStr(ts[0])|;
      RangeAll(ts[1..], mid, s, hs);
      RangeItem(ts[0], off, FlatAll(ts[1..]) + s, HeadsAll(ts[1..], mid) + hs);
      ConcatAssoc(HeadsOf(ts[0], off), HeadsAll(ts[1..], mid), hs);
    }
  }

  // A buffer that holds just the flat form of an item.
  lemma RenderWhole(t: Item)
    ensures InRange(HeadsOf(t, 0), 0, |FlatStr(t)|)
    ensures Render(FlatStr(t), 0, HeadsOf(t, 0)) == Rlp(t)
  {
    RangeItem(t, 0, [], []);
    RenderItem(t, 0, [], []);
    assert FlatStr(t) + [] == FlatStr(t) && HeadsOf(t, 0) + [] == HeadsOf(t, 0);
  }

  // The deferred header sizes of a list add up to what its payload has beyond string data.
  lemma SizeSplit(ts: seq<Item>, off: nat)
    ensures |FlatAll(ts)| + HeadSum(HeadsAll(ts, off)) == |RlpAll(ts)|
  {
    hide Rlp, RlpAll, Head, FlatAll, HeadsAll;
    RangeAll(ts, off, [], []);
    RenderAll(ts, off, [], []);
    assert FlatAll(ts) + [] == FlatAll(ts) && HeadsAll(ts, off) + [] == HeadsAll(ts, off);
    RenderLength(FlatAll(ts), off, HeadsAll(ts, off));
  }

  lemma {:induction false} FlatSnoc(ts: seq<Item>, t: Item, off: nat)
    ensures FlatAll(ts + [t]) == FlatAll(ts) + FlatStr(t)
    ensures HeadsAll(ts + [t], off) == HeadsAll(ts, off) + HeadsOf(t, off + |FlatAll(ts)|)
    decreases |ts|
  {
    hide FlatStr, HeadsOf;
    if ts == [] {
      assert ts + [t] == [t] && [t][1..] == [];
    } else {
      var u := ts + [t];
      assert u[0] == ts[0] && u[1..] == ts[1..] + [t];
      FlatSnoc(ts[1..], t, off + |FlatStr(ts[0])|);
    }
  }

  lemma SliceJoin(s: seq<byte>, at: nat)
    requires at <= |s|
    ensures s == s[..at] + s[at..]
  {
  }

  // ----- The buffer -----

  class EncBuffer {
    var str: seq<byte>
    var lheads: seq<ListHead>
    var lhsize: nat
    const sizebuf: array<byte>

    ghost predicate Valid() { sizebuf.Length == 9 }

    // All list headers are finished: nothing is left to back-patch.
    ghost predicate Closed()
      reads this
    {
      && InRange(lheads, 0, |str|)
      && lhsize == HeadSum(lheads)
      && |str| + lhsize <= MAX_INT
      && (forall h <- lheads :: h.size < TWO_64)
    }

    constructor ()
      ensures Valid() && fresh(sizebuf)
      ensures str == [] && lheads == [] && lhsize == 0
    {
      str, lheads, lhsize := [], [], 0;
      sizebuf := new byte[9](_ => 0);
    }

    function Size(): nat
      reads this
    {
      |str| + lhsize
    }

    method EncodeStringHeader(size: u64)
      requires Valid()
      modifies this`str, sizebuf
      ensures str == old(str) + Head(String, size)
    {
      if size < 56 {
        HeadSmall(String, size);
        str := str + [0x80 + size];
      } else {
        HeadLarge(String, size);
        var n := PutHead(sizebuf, 0, String, size);
        str := str + sizebuf[..n];
      }
    }

    method EncodeString(b: seq<byte>)
      requires Valid() && |b| <= MAX_INT
      modifies this`str, sizebuf
      ensures str == old(str) + Rlp(Str(b))
    {
      if |b| == 1 && b[0] <= 0x7F {
        str := str + [b[0]];
      } else {
        EncodeStringHeader(|b|);
        str := str + b;
      }
    }

    // An integer is encoded as the string of its big-endian bytes without leading zeros.
    method EncodeUint(i: u64)
      requires Valid()
      modifies this`str, sizebuf
      ensures str == old(str) + Rlp(Str(BE(i)))
    {
      UintFrame(i);
      if i == 0 {
        str := str + [0x80];
      } else if i < 128 {
        str := str + [i];
      } else {
        var n := PutTagged(sizebuf, 0, 0x80 + |Digits(i)|, Digits(i));
        str := str + sizebuf[..n];
      }
    }

    // Opens a list: its header remembers the header bytes written so far.
    method OpenList() returns (index: nat)
      modifies this`lheads
      ensures lheads == old(lheads) + [ListHead(|str|, lhsize)]
      ensures index == |old(lheads)|
    {
      lheads := lheads + [ListHead(|str|, lhsize)];
      index := |lheads| - 1;
    }

    // Closes the list at index: back-patches the size of its payload.
    method ListEnd(index: nat)
      requires index < |lheads|
      requires 0 <= Size() - lheads[index].offset - lheads[index].size < TWO_64
      modifies this`lheads, this`lhsize
      ensures var size := old(Size() - lheads[index].offset - lheads[index].size);
              && lheads == old(lheads)[index := ListHead(old(lheads[index].offset), size)]
              && lhsize == old(lhsize) + |Head(List, size)|
    {
      var size := Size() - lheads[index].offset - lheads[index].size;
      HeadSizeExact(List, size);
      lheads := lheads[index := lheads[index].(size := size)];
      if size < 56 {
        lhsize := lhsize + 1;
      } else {
        lhsize := lhsize + (1 + IntSize(size));
      }
    }

    // The writer of strings and, through a list header, of slices. The total size must fit the source's int.
    method Encode(t: Item)
      requires Valid() && Size() + |Rlp(t)| <= MAX_INT
      modifies this`str, this`lheads, this`lhsize, sizebuf
      ensures str == old(str) + FlatStr(t)
      ensures lheads == old(lheads) + HeadsOf(t, |old(str)|)
      ensures lhsize == old(lhsize) + HeadSum(HeadsOf(t, |old(str)|))
      decreases t, 1
    {
      if t.Str? {
        EncodeString(t.bytes);
      } else {
        EncodeList(t.items);
      }
    }

    method EncodeList(ts: seq<Item>)
      requires Valid() && Size() + |Rlp(Lst(ts))| <= MAX_INT
      modifies this`str, this`lheads, this`lhsize, sizebuf
      ensures str == old(str) + FlatAll(ts)
      ensures lheads == old(lheads) + HeadsOf(Lst(ts), |old(str)|)
      ensures lhsize == old(lhsize) + HeadSum(HeadsOf(Lst(ts), |old(str)|))
      decreases ts, 0
    {
      hide FlatAll, HeadsAll, FlatStr, Head, HeadSum, Rlp;
      ghost var off, hs := |str|, lheads;
      var index := OpenList();
      var i := 0;
      BufferEmpty(off);
      while i < |ts|
        invariant 0 <= i <= |ts|
        invariant str == old(str) + FlatAll(ts[..i])
        invariant lheads == hs + [ListHead(off, old(lhsize))] + HeadsAll(ts[..i], off)
        invariant lhsize == old(lhsize) + HeadSum(HeadsAll(ts[..i], off))
      {
        BufferStep(ts, i, off);
        Encode(ts[i]);
        i := i + 1;
      }
      assert ts[..i] == ts;
      SizeSplit(ts, off);
      ListPayload(ts);
      ListEnd(index);
      BufferClose(ts, off);
      assert lheads == hs + [ListHead(off, |RlpAll(ts)|)] + HeadsAll(ts, off);
    }

    // The output array is filled exactly: every copy and every header fits.
    method ToBytes() returns (out: array<byte>)
      requires Valid() && Closed()
      ensures fresh(out) && out.Length == Size()
      ensures out[..] == Render(str, 0, lheads)
    {
      hide Head, HeadSum, InRange, Render, Tail, TailOk;
      ghost var full := Render(str, 0, lheads);
      RenderLength(str, 0, lheads);
      out := new byte[Size()];
      var strpos: nat, pos: nat, i: nat := 0, 0, 0;
      TailFirst(str, lheads);
      while i < |lheads|
        invariant pos <= out.Length && TailOk(str, strpos, lheads, i)
        invariant out[..pos] + Tail(str, strpos, lheads, i) == full
      {
        TailNext(str, strpos, lheads, i);
        var head := lheads[i];
        var run := str[strpos..head.offset];
        ghost var done, rest := out[..pos], Tail(str, head.offset, lheads, i + 1);
        ConcatAssoc(done, run, Head(List, head.size) + rest);
        ConcatAssoc(done + run, Head(List, head.size), rest);
        pos := PutRun(out, pos, run, head.size);
        strpos := head.offset;
        i := i + 1;
      }
      TailLast(str, strpos, lheads);
      assert |full| == pos + |str[strpos..]|;
      var n := CopyInto(out, pos, str[strpos..]);
      SliceJoin(out[..], pos);
    }

    // Writes string data, unless there is none, and the list header that follows it.
    method WriteRun(out: Sink, run: seq<byte>, size: u64) returns (ok: bool)
      requires Valid()
      modifies out, sizebuf
      ensures ok ==> out.data == old(out.data) + run + Head(List, size)
      ensures !ok ==> old(out.data) <= out.data <= old(out.data) + run + Head(List, size)
    {
      hide Head;
      if |run| > 0 {
        var n;
        n, ok := out.Write(run);
        if !ok {
          return;
        }
      }
      HeadFits(size);
      var n := PutHead(sizebuf, 0, List, size);
      n, ok := out.Write(sizebuf[..n]);
    }

    // Writes the same bytes piece by piece; stops at the first write that fails.
    method ToWriter(out: Sink) returns (ok: bool)
      requires Valid() && Closed()
      modifies out, sizebuf
      ensures ok ==> out.data == old(out.data) + Render(str, 0, lheads)
      ensures !ok ==> old(out.data) <= out.data <= old(out.data) + Render(str, 0, lheads)
    {
      hide Head, HeadSum, InRange, Render, Tail, TailOk;
      ghost var full := out.data + Render(str, 0, lheads);
      var strpos: nat, i: nat := 0, 0;
      TailFirst(str, lheads);
      while i < |lheads|
        invariant TailOk(str, strpos, lheads, i)
        invariant old(out.data) <= out.data
        invariant out.data + Tail(str, strpos, lheads, i) == full
      {
        TailNext(str, strpos, lheads, i);
        var head := lheads[i];
        var run := str[strpos..head.offset];
        ghost var rest := Tail(str, head.offset, lheads, i + 1);
        ConcatAssoc(out.data, run, Head(List, head.size) + rest);
        ConcatAssoc(out.data + run, Head(List, head.size), rest);
        ok := WriteRun(out, run, head.size);
        if !ok {
          return;
        }
        strpos := head.offset;
        i := i + 1;
      }
      TailLast(str, strpos, lheads);
      ok := true;
      if strpos < |str| {
        var n;
        n, ok := out.Write(str[strpos..]);
      }
    }
  }

  // An io.Writer: any sequence of answers to the writes.
  class Sink {
    const fails: nat -> Option<nat>   // the bytes that a failing write takes, by the number of the write
    var data: seq<byte>
    var writes: nat

    constructor (fails: nat -> Option<nat>)
      ensures this.fails == fails && data == [] && writes == 0
    {
      this.fails, data, writes := fails, [], 0;
    }

    // A write takes everything, or fails and takes some of it, possibly all.
    method Write(p: seq<byte>) returns (n: nat, ok: bool)
      modifies this
      ensures ok <==> fails(old(writes)).None?
      ensures n <= |p| && (ok ==> n == |p|) && data == old(data) + p[..n] && writes == old(writes) + 1
      ensures ok ==> data == old(data) + p
      ensures !ok ==> old(data) <= data <= old(data) + p
    {
      var answer := fails(writes);
      ok := answer.None?;
      n := if ok then |p| else Min(|p|, answer.value);
      data, writes := data + p[..n], writes + 1;
    }
  }

  lemma HeadFits(size: u64)
    ensures 1 <= |Head(List, size)| <= 9
  {
    if size >= 56 {
      HeadLarge(List, size);
    }
  }

  lemma {:induction false} SizesBound(t: Item, off: nat)
    ensures forall h <- HeadsOf(t, off) :: h.size <= |Rlp(t)|
    decreases t, 1
  {
    if t.Lst? {
      SizesBoundAll(t.items, off);
    }
  }

  lemma {:induction false} SizesBoundAll(ts: seq<Item>, off: nat)
    ensures forall h <- HeadsAll(ts, off) :: h.size <= |RlpAll(ts)|
    decreases ts, 0
  {
    hide Rlp;
    if ts != [] {
      SizesBound(ts[0], off);
      SizesBoundAll(ts[1..], off + |FlatStr(ts[0])|);
    }
  }

  // A buffer filled by one call of Encode is closed and renders to the encoding.
  lemma EncodedBuffer(t: Item)
    requires |Rlp(t)| <= MAX_INT
    ensures InRange(HeadsOf(t, 0), 0, |FlatStr(t)|)
    ensures Render(FlatStr(t), 0, HeadsOf(t, 0)) == Rlp(t)
    ensures |FlatStr(t)| + HeadSum(HeadsOf(t, 0)) == |Rlp(t)|
    ensures forall h <- HeadsOf(t, 0) :: h.size < TWO_64
  {
    hide Rlp, FlatStr, HeadsOf, HeadSum, Render, InRange;
    RenderWhole(t);
    RenderLength(FlatStr(t), 0, HeadsOf(t, 0));
    SizesBound(t, 0);
  }

  method NewEncoded(t: Item) returns (eb: EncBuffer)
    requires |Rlp(t)| <= MAX_INT
    ensures fresh(eb) && fresh(eb.sizebuf) && eb.Valid() && eb.Closed()
    ensures Render(eb.str, 0, eb.lheads) == Rlp(t)
    ensures eb.Size() == |Rlp(t)|
  {
    hide Rlp, FlatStr, HeadsOf, HeadSum, Render, InRange;
    eb := new EncBuffer();
    eb.Encode(t);
    EncodedBuffer(t);
    assert eb.str == FlatStr(t) && eb.lheads == HeadsOf(t, 0);
  }

  // The main result: back-patched headers and flat string data give the recursive encoding.
  method EncodeToBytes(t: Item) returns (out: array<byte>)
    requires |Rlp(t)| <= MAX_INT
    ensures fresh(out) && out[..] == Rlp(t)
  {
    var eb := NewEncoded(t);
    out := eb.ToBytes();
  }

  method EncodeTo(w: Sink, t: Item) returns (ok: bool)
    requires |Rlp(t)| <= MAX_INT
    modifies w
    ensures ok ==> w.data == old(w.data) + Rlp(t)
    ensures !ok ==> old(w.data) <= w.data <= old(w.data) + Rlp(t)
  {
    hide Rlp;
    var eb := NewEncoded(t);
    ok := eb.ToWriter(w);
  }

  method EncodeToReader(t: Item) returns (size: nat, r: EncReader)
    requires |Rlp(t)| <= MAX_INT
    ensures fresh(r) && r.Valid() && r.buf != null && fresh(r.buf) && fresh(r.buf.sizebuf)
    ensures size == |Rlp(t)| && r.Remaining() == Rlp(t)
  {
    hide Rlp;
    var eb := NewEncoded(t);
    size := eb.Size();
    r := new EncReader(eb);
  }

  // ----- Reading the encoding in chunks -----

  // The piece being read: a stretch of the string data, or of the header in the buffer's sizebuf.
  datatype Piece = NoPiece | OfStr(lo: nat, hi: nat) | OfHead(lo: nat, hi: nat)

  class EncReader {
    var buf: EncBuffer?
    var lhpos: nat
    var strpos: nat
    var piece: Piece

    ghost predicate Valid()
      reads this, buf
    {
      buf != null ==>
        && buf.Valid() && buf.Closed()
        && TailOk(buf.str, strpos, buf.lheads, lhpos)
        && match piece
           case NoPiece => true
           case OfStr(lo, hi) => lo < hi <= |buf.str|
           case OfHead(lo, hi) => lo < hi <= buf.sizebuf.Length
    }

    function PieceBytes(): seq<byte>
      requires Valid() && buf != null
      reads this, buf, buf.sizebuf
    {
      match piece
      case NoPiece => []
      case OfStr(lo, hi) => buf.str[lo..hi]
      case OfHead(lo, hi) => buf.sizebuf[lo..hi]
    }

    // What is still to be delivered.
    ghost function Remaining(): seq<byte>
      requires Valid()
      reads this, buf, if buf == null then {} else {buf.sizebuf}
    {
      if buf == null then []
      else PieceBytes() + Tail(buf.str, strpos, buf.lheads, lhpos)
    }

    constructor (eb: EncBuffer)
      requires eb.Valid() && eb.Closed()
      ensures Valid() && buf == eb
      ensures Remaining() == Render(eb.str, 0, eb.lheads)
    {
      hide Render, Tail, TailOk;
      buf, lhpos, strpos, piece := eb, 0, 0, NoPiece;
      TailFirst(eb.str, eb.lheads);
    }

    // Loads the next piece unless one is pending. The header piece lives in the shared sizebuf, which is
    // overwritten only when the previous header has been delivered.
    method Next()
      requires Valid() && buf != null
      modifies this`piece, this`strpos, this`lhpos, buf.sizebuf
      ensures Valid() && Remaining() == old(Remaining())
      ensures piece == NoPiece <==> Remaining() == []
    {
      hide Head, InRange, HeadSum, Tail, TailOk;
      if piece != NoPiece {
      } else if lhpos < |buf.lheads| {
        TailNext(buf.str, strpos, buf.lheads, lhpos);
        HeadFits(buf.lheads[lhpos].size);
        var head := buf.lheads[lhpos];
        if head.offset - strpos > 0 {
          piece := OfStr(strpos, head.offset);
          strpos := head.offset;
        } else {
          lhpos := lhpos + 1;
          var n := PutHead(buf.sizebuf, 0, List, head.size);
          piece := OfHead(0, n);
        }
      } else {
        TailLast(buf.str, strpos, buf.lheads);
        if strpos < |buf.str| {
          assert buf.str[strpos..|buf.str|] == buf.str[strpos..];
          piece := OfStr(strpos, |buf.str|);
          strpos := |buf.str|;
        }
      }
    }

    // Delivers the pending piece into b[at..]: all of it, or as much as fits.
    method Deliver(b: array<byte>, at: nat) returns (n: nat, full: bool)
      requires Valid() && buf != null && piece != NoPiece && b != buf.sizebuf && at <= b.Length
      modifies this`piece, b
      ensures Valid()
      ensures at + n <= b.Length && (full ==> at + n == b.Length && Remaining() != [])
      ensures b[..at] == old(b[..at]) && b[at + n..] == old(b[at + n..])
      ensures b[at..at + n] + Remaining() == old(Remaining())
      ensures !full ==> n > 0
    {
      hide Tail, TailOk;
      var p := PieceBytes();
      ghost var rest := Tail(buf.str, strpos, buf.lheads, lhpos);
      n := CopyInto(b, at, p);
      full := n < |p|;
      if full {
        piece := match piece
          case OfStr(lo, hi) => OfStr(lo + n, hi)
          case OfHead(lo, hi) => OfHead(lo + n, hi);
      } else {
        piece := NoPiece;
      }
      assert PieceBytes() == p[n..];
      SliceJoin(p, n);
      ConcatAssoc(p[..n], p[n..], rest);
    }

    // Fills b from the front; eof exactly when everything has been delivered.
    method Read(b: array<byte>) returns (n: nat, eof: bool)
      requires Valid() && (buf != null ==> b != buf.sizebuf)
      modifies this, if buf == null then {} else {buf.sizebuf}, b
      ensures Valid() && (buf == old(buf) || buf == null)
      ensures n == Min(b.Length, |old(Remaining())|)
      ensures b[n..] == old(b[n..])
      ensures b[..n] + Remaining() == old(Remaining())
      ensures eof <==> Remaining() == []
    {
      hide PieceBytes, Remaining, Valid;
      n := 0;
      if buf == null {
        RemainingNull();
        return 0, true;
      }
      while true
        invariant Valid() && buf == old(buf)
        invariant n <= b.Length && b[n..] == old(b[n..])
        invariant b[..n] + Remaining() == old(Remaining())
        decreases |Remaining()|
      {
        Next();
        if piece == NoPiece {
          buf := null;
          RemainingNull();
          return n, true;
        }
        ghost var done := b[..n];
        var nn, full := Deliver(b, n);
        assert b[..n + nn] == done + b[n..n + nn];
        ConcatAssoc(done, b[n..n + nn], Remaining());
        n := n + nn;
        if full {
          return n, false;
        }
      }
    }

    lemma RemainingNull()
      requires buf == null
      ensures Valid() && Remaining() == []
    {
    }
  }

  // Any sequence of reads, one for each buffer size, until the reader reports its end.
  method ReadChunks(r: EncReader, sizes: seq<nat>) returns (chunks: seq<byte>, eof: bool)
    requires r.Valid()
    modifies r, if r.buf == null then {} else {r.buf.sizebuf}
    ensures r.Valid()
    ensures chunks + r.Remaining() == old(r.Remaining())
    ensures eof ==> r.Remaining() == []
    ensures !eof ==> |chunks| == Sum(sizes) < |old(r.Remaining())| || sizes == []
  {
    hide EncReader.Remaining, Sum, InRange;
    chunks, eof := [], false;
    var i := 0;
    SumEmpty();
    while i < |sizes|
      invariant 0 <= i <= |sizes| && !eof
      invariant r.Valid() && (r.buf == old(r.buf) || r.buf == null)
      invariant r.buf != null ==> r.buf.sizebuf == old(r.buf.sizebuf)
      invariant chunks + r.Remaining() == old(r.Remaining())
      invariant |chunks| == Sum(sizes[..i])
      invariant i > 0 ==> r.Remaining() != []
    {
      var b := new byte[sizes[i]];
      var n;
      n, eof := r.Read(b);
      chunks := chunks + b[..n];
      if eof {
        return;
      }
      SumSnoc(sizes, i);
      i := i + 1;
    }
    assert sizes[..i] == sizes;
  }

  function Sum(xs: seq<nat>): nat { if xs == [] then 0 else Sum(xs[..|xs| - 1]) + xs[|xs| - 1] }

  lemma SumEmpty()
    ensures Sum([]) == 0
  {
  }

  lemma SumSnoc(xs: seq<nat>, i: nat)
    requires i < |xs|
    ensures Sum(xs[..i + 1]) == Sum(xs[..i]) + xs[i]
  {
    assert xs[..i + 1][..i] == xs[..i];
  }

  lemma ListPayload(ts: seq<Item>)
    ensures |RlpAll(ts)| <= |Rlp(Lst(ts))|
  {
  }

  lemma BufferEmpty(off: nat)
    ensures FlatAll([]) == [] && HeadsAll([], off) == [] && HeadSum([]) == 0
  {
  }

  // What one more element adds to an open list.
  lemma BufferStep(ts: seq<Item>, i: nat, off: nat)
    requires i < |ts|
    ensures FlatAll(ts[..i + 1]) == FlatAll(ts[..i]) + FlatStr(ts[i])
    ensures HeadsAll(ts[..i + 1], off) == HeadsAll(ts[..i], off) + HeadsOf(ts[i], off + |FlatAll(ts[..i])|)
    ensures HeadSum(HeadsAll(ts[..i + 1], off)) ==
            HeadSum(HeadsAll(ts[..i], off)) + HeadSum(HeadsOf(ts[i], off + |FlatAll(ts[..i])|))
    ensures |FlatAll(ts[..i])| + HeadSum(HeadsAll(ts[..i], off)) + |Rlp(ts[i])| <= |Rlp(Lst(ts))|
  {
    hide FlatStr, HeadsOf, Head, Rlp, RlpAll, HeadSum, FlatAll, HeadsAll;
    assert ts[..i + 1] == ts[..i] + [ts[i]];
    FlatSnoc(ts[..i], ts[i], off);
    HeadSumConcat(HeadsAll(ts[..i], off), HeadsOf(ts[i], off + |FlatAll(ts[..i])|));
    SizeSplit(ts[..i], off);
    AllConcat(ts[..i], ts[i..]);
    assert ts == ts[..i] + ts[i..] && ts[i..][0] == ts[i];
    AllFirst(ts[i..]);
    ListPayload(ts);
  }

  lemma AllFirst(ts: seq<Item>)
    requires ts != []
    ensures RlpAll(ts) == Rlp(ts[0]) + RlpAll(ts[1..])
  {
  }

  lemma BufferClose(ts: seq<Item>, off: nat)
    ensures HeadsOf(Lst(ts), off) == [ListHead(off, |RlpAll(ts)|)] + HeadsAll(ts, off)
    ensures HeadSum(HeadsOf(Lst(ts), off)) == |Head(List, |RlpAll(ts)|)| + HeadSum(HeadsAll(ts, off))
  {
  }

  lemma UintFrame(i: u64)
    ensures i == 0 ==> Rlp(Str(BE(i))) == [0x80]
    ensures 0 < i < 128 ==> Rlp(Str(BE(i))) == [i]
    ensures i >= 128 ==> 1 <= |BE(i)| <= 8 && Rlp(Str(BE(i))) == [0x80 + |BE(i)|] + BE(i)
  {
    if i < 256 {
      assert i > 0 ==> BE(i) == [i];
    } else {
      BELarge(i);
      BETwo(i);
      ShortStr(BE(i));
    }
  }

  lemma BETwo(i: nat)
    requires i >= 256
    ensures |BE(i)| >= 2
  {
  }

  lemma ShortStr(b: seq<byte>)
    requires 1 < |b| < 56
    ensures Rlp(Str(b)) == [0x80 + |b|] + b
  {
  }
}
