/** The reference definition of RLP: Appendix B of the Ethereum Yellow Paper.

    Every other RLP module (encoder buffer, slice parser, stream decoder) is proved against `Rlp`. The
    Yellow Paper gives no encoding to a payload of 2^64 bytes or more; the functions below are total, and
    the lemmas that need it say that the encoding is shorter than that.
 */
module RlpSpec {
  import opened Words

  // What an untyped value decodes into: a byte string, or a list of such values.
  datatype Item = Str(bytes: seq<byte>) | Lst(items: seq<Item>)

  // The kinds of a value, as its first byte announces them.
  datatype Kind = Byte | String | List

  datatype Error =
    | ErrExpectedString | ErrExpectedList | ErrCanonInt | ErrCanonSize | ErrElemTooLarge | ErrValueTooLarge
    | ErrMoreThanOneValue | ErrUnexpectedEOF | ErrEOF | EOL | ErrNotInList | ErrNotAtEOL | ErrUintOverflow

  datatype Result<+T> = Ok(value: T) | Err(error: Error)

  // The big-endian bytes of n, without leading zeros.
  function BE(n: nat): seq<byte> {
    if n == 0 then [] else BE(n / 256) + [n % 256]
  }

  // The number with the big-endian bytes s, which may have leading zeros.
  function FromBE(s: seq<byte>): nat {
    if s == [] then 0 else FromBE(s[..|s| - 1]) * 256 + s[|s| - 1]
  }

  // The header of a payload of the given size; a single byte below 0x80 has none.
  function Head(k: Kind, size: nat): (h: seq<byte>) {
    match k
    case Byte => []
    case String => Header(0x80, 0xB7, size)
    case List => Header(0xC0, 0xF7, size)
  }

  function Header(small: byte, large: byte, size: nat): (h: seq<byte>) {
    if size < 56 then [(small + size) % 256] else [(large + |BE(size)|) % 256] + BE(size)
  }

  // The bytes w start with p.
  predicate Leads(p: seq<byte>, w: seq<byte>) { p <= w }

  function Frame(k: Kind, content: seq<byte>): seq<byte> {
    Head(k, |content|) + content
  }

  function StrKind(b: seq<byte>): Kind {
    if |b| == 1 && b[0] < 0x80 then Byte else String
  }

  // A frame that a canonical encoder may produce.
  predicate Canonical(k: Kind, content: seq<byte>) {
    k == List || k == StrKind(content)
  }

  // A frame with a minimal size field, whatever its content: only a single byte below 0x80 has no header.
  predicate RawShape(k: Kind, content: seq<byte>) {
    |content| < TWO_64 && (k == Byte ==> |content| == 1 && content[0] < 0x80)
  }

  // Yellow Paper (B.3) and (B.6).
  function Rlp(t: Item): (r: seq<byte>)
    decreases t, 1
  {
    match t
    case Str(b) => Frame(StrKind(b), b)
    case Lst(ts) => Frame(List, RlpAll(ts))
  }

  // Yellow Paper s(x): the concatenated encodings of the elements.
  function RlpAll(ts: seq<Item>): seq<byte>
    decreases ts, 0
  {
    if ts == [] then [] else Rlp(ts[0]) + RlpAll(ts[1..])
  }

  function KindOf(t: Item): Kind {
    if t.Str? then StrKind(t.bytes) else List
  }

  function Content(t: Item): seq<byte> {
    if t.Str? then t.bytes else RlpAll(t.items)
  }

  // ----- Big-endian numbers -----

  function Pow256(k: nat): nat { if k == 0 then 1 else 256 * Pow256(k - 1) }

  lemma {:induction false} BERoundTrip(n: nat)
    ensures FromBE(BE(n)) == n
    ensures BE(n) != [] ==> BE(n)[0] != 0
    ensures BE(n) == [] <==> n == 0
  {
    if n != 0 {
      BERoundTrip(n / 256);
      assert BE(n)[..|BE(n)| - 1] == BE(n / 256);
    }
  }

  lemma {:induction false} FromBERoundTrip(s: seq<byte>)
    requires s != [] ==> s[0] != 0
    ensures BE(FromBE(s)) == s
    ensures s != [] ==> FromBE(s) > 0
  {
    if s != [] {
      var init, last := s[..|s| - 1], s[|s| - 1];
      FromBERoundTrip(init);
      assert s == init + [last];
      BESnoc(FromBE(init), last);
    }
  }

  lemma BESnoc(n: nat, x: byte)
    requires n > 0 || x > 0
    ensures BE(256 * n + x) == BE(n) + [x]
  {
    assert (256 * n + x) / 256 == n && (256 * n + x) % 256 == x;
  }

  lemma {:induction false} FromBEBound(s: seq<byte>)
    ensures FromBE(s) < Pow256(|s|)
  {
    if s != [] {
      FromBEBound(s[..|s| - 1]);
    }
  }

  lemma {:induction false} BELength(n: nat, k: nat)
    ensures |BE(n)| <= k <==> n < Pow256(k)
  {
    if n != 0 && k != 0 {
      BELength(n / 256, k - 1);
    } else if n != 0 {
      BERoundTrip(n);
    } else {
      PowPositive(k);
    }
  }

  lemma PowPositive(k: nat)
    ensures Pow256(k) > 0
  {
  }

  lemma Pow8()
    ensures Pow256(8) == TWO_64
  {
  }

  // Sizes below 2^64 take at most eight bytes.
  lemma BEWord(n: nat)
    ensures n < TWO_64 <==> |BE(n)| <= 8
  {
    Pow8();
    BELength(n, 8);
  }

  lemma FromBEWord(s: seq<byte>)
    requires |s| <= 8
    ensures FromBE(s) < TWO_64
  {
    Pow8();
    FromBEBound(s);
    PowMonotone(|s|, 8);
  }

  lemma {:induction false} PowMonotone(j: nat, k: nat)
    requires j <= k
    ensures Pow256(j) <= Pow256(k)
  {
    if j < k {
      PowMonotone(j, k - 1);
    }
  }

  // ----- Framing is unambiguous -----

  function SmallTag(k: Kind): byte { if k == String then 0x80 else 0xC0 }

  function LargeTag(k: Kind): byte { if k == String then 0xB7 else 0xF7 }

  lemma BELarge(size: nat)
    requires 56 <= size < TWO_64
    ensures 1 <= |BE(size)| <= 8
  {
    BEWord(size);
    BERoundTrip(size);
  }

  // The tag byte of a header tells the kind and how the size is written.
  lemma HeadSmall(k: Kind, size: nat)
    requires k != Byte && size < 56
    ensures Head(k, size) == [SmallTag(k) + size]
  {
  }

  lemma HeadLarge(k: Kind, size: nat)
    requires k != Byte && 56 <= size < TWO_64
    ensures Head(k, size) == [LargeTag(k) + |BE(size)|] + BE(size)
    ensures 1 <= |BE(size)| <= 8
  {
    BELarge(size);
    assert (LargeTag(k) + |BE(size)|) % 256 == LargeTag(k) + |BE(size)|;
  }

  lemma FrameTag(k: Kind, c: seq<byte>)
    requires Canonical(k, c) && |c| < TWO_64
    ensures Frame(k, c) != []
    ensures k == Byte ==> Frame(k, c)[0] < 0x80
    ensures k != Byte && |c| < 56 ==> Frame(k, c)[0] == SmallTag(k) + |c|
    ensures k != Byte && |c| >= 56 ==> Frame(k, c)[0] == LargeTag(k) + |BE(|c|)| && 1 <= |BE(|c|)| <= 8
  {
    if k != Byte && |c| >= 56 {
      HeadLarge(k, |c|);
    }
  }

  lemma LargeSize(k: Kind, c: seq<byte>, x: seq<byte>)
    requires k != Byte && 56 <= |c| < TWO_64
    ensures |Frame(k, c)| >= 1 + |BE(|c|)|
    ensures (Frame(k, c) + x)[1..1 + |BE(|c|)|] == BE(|c|)
  {
  }

  lemma BEInjective(n: nat, n': nat)
    requires BE(n) == BE(n')
    ensures n == n'
  {
    BERoundTrip(n);
    BERoundTrip(n');
  }

  // Two canonical frames that start the same byte sequence have the same header.
  lemma HeadUnique(k: Kind, c: seq<byte>, x: seq<byte>, k': Kind, c': seq<byte>, x': seq<byte>)
    requires Canonical(k, c) && Canonical(k', c')
    requires |c| < TWO_64 && |c'| < TWO_64
    requires Frame(k, c) + x == Frame(k', c') + x'
    ensures k == k' && |c| == |c'|
  {
    FrameTag(k, c);
    FrameTag(k', c');
    assert (Frame(k, c) + x)[0] == Frame(k, c)[0];
    assert (Frame(k', c') + x')[0] == Frame(k', c')[0];
    assert k == k';
    if k != Byte && |c| >= 56 {
      LargeSize(k, c, x);
      LargeSize(k', c', x');
      BEInjective(|c|, |c'|);
    }
  }

  // Two canonical frames that start the same byte sequence are the same frame.
  lemma FrameUnique(k: Kind, c: seq<byte>, x: seq<byte>, k': Kind, c': seq<byte>, x': seq<byte>)
    requires Canonical(k, c) && Canonical(k', c')
    requires |c| < TWO_64 && |c'| < TWO_64
    requires Frame(k, c) + x == Frame(k', c') + x'
    ensures k == k' && c == c' && x == x'
  {
    HeadUnique(k, c, x, k', c', x');
    SplitAt(Head(k, |c|), c, x);
    SplitAt(Head(k, |c|), c', x');
  }

  lemma SplitAt(h: seq<byte>, c: seq<byte>, x: seq<byte>)
    ensures (h + c + x)[|h|..|h| + |c|] == c
    ensures (h + c + x)[|h| + |c|..] == x
  {
  }

  lemma RlpFrame(t: Item)
    ensures Rlp(t) == Frame(KindOf(t), Content(t))
    ensures Canonical(KindOf(t), Content(t))
    ensures |Content(t)| <= |Rlp(t)|
    ensures |Rlp(t)| > 0
  {
  }

  // No encoding is a proper prefix of another, and each determines its item.
  lemma {:induction false} PrefixFree(t: Item, x: seq<byte>, t': Item, x': seq<byte>)
    requires |Content(t)| < TWO_64 && |Content(t')| < TWO_64
    requires Rlp(t) + x == Rlp(t') + x'
    ensures t == t' && x == x'
    decreases t, 1
  {
    RlpFrame(t);
    RlpFrame(t');
    FrameUnique(KindOf(t), Content(t), x, KindOf(t'), Content(t'), x');
    if t.Lst? {
      AllInjective(t.items, t'.items);
    }
  }

  lemma {:induction false} AllInjective(ts: seq<Item>, ts': seq<Item>)
    requires RlpAll(ts) == RlpAll(ts') && |RlpAll(ts)| < TWO_64
    ensures ts == ts'
    decreases ts, 0
  {
    if ts == [] {
      if ts' != [] {
        RlpFrame(ts'[0]);
      }
    } else {
      RlpFrame(ts[0]);
      assert ts' != [];
      RlpFrame(ts'[0]);
      PrefixFree(ts[0], RlpAll(ts[1..]), ts'[0], RlpAll(ts'[1..]));
      AllInjective(ts[1..], ts'[1..]);
      assert ts == [ts[0]] + ts[1..];
      assert ts' == [ts'[0]] + ts'[1..];
    }
  }

  // A list of encodings that starts another one holds its first elements.
  lemma {:induction false} AllPrefix(ts: seq<Item>, x: seq<byte>, us: seq<Item>)
    requires RlpAll(ts) + x == RlpAll(us) && |RlpAll(us)| < TWO_64
    ensures ts <= us && x == RlpAll(us[|ts|..])
    decreases |ts|
  {
    hide Rlp, Content;
    if ts == [] {
      assert RlpAll(ts) + x == x && us[0..] == us;
    } else {
      ConcatAssoc(Rlp(ts[0]), RlpAll(ts[1..]), x);
      RlpFrame(ts[0]);
      assert us != [];
      RlpFrame(us[0]);
      PrefixFree(ts[0], RlpAll(ts[1..]) + x, us[0], RlpAll(us[1..]));
      AllPrefix(ts[1..], x, us[1..]);
      assert us[1..][|ts| - 1..] == us[|ts|..];
      assert ts == [ts[0]] + ts[1..] && us == [us[0]] + us[1..];
    }
  }

  lemma ConcatAssoc<T>(a: seq<T>, b: seq<T>, c: seq<T>)
    ensures a + (b + c) == a + b + c
  {
  }

  lemma {:induction false} AllConcat(ts: seq<Item>, us: seq<Item>)
    ensures RlpAll(ts + us) == RlpAll(ts) + RlpAll(us)
  {
    if ts == [] {
      assert ts + us == us;
    } else {
      AllConcat(ts[1..], us);
      assert (ts + us)[0] == ts[0] && (ts + us)[1..] == ts[1..] + us;
      ConcatAssoc(Rlp(ts[0]), RlpAll(ts[1..]), RlpAll(us));
    }
  }
}
