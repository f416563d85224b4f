/** The stream decoder: rlp/decode.go over a slice reader.

    A `Stream` looks ahead by one header (`kind`, `size`, `kinderr`), keeps a stack of positions in the
    lists it is inside, and a budget of input bytes. Its contracts are stated on `Window`, the bytes that
    the innermost list (or, at top level, the budget) still lets it read: a decoding method succeeds with a
    value exactly when the window starts with the encoding of that value.
 */
module RlpStream {
  import opened Words
  import opened RlpSpec
  import RlpEncode
  import RlpRaw

  // ----- The stack of open lists -----

  datatype ListPos = ListPos(pos: u64, size: u64)

  // Each position lies in its list, and leaves room for the list nested in it.
  ghost predicate Nested(s: seq<ListPos>) {
    s != [] ==>
      var n := |s| - 1;
      && s[n].pos <= s[n].size
      && Nested(s[..n])
      && (n > 0 ==> s[n - 1].pos + s[n].size <= s[n - 1].size)
  }

  // Bytes consumed since the outermost list was opened.
  ghost function SumPos(s: seq<ListPos>): nat {
    if s == [] then 0 else SumPos(s[..|s| - 1]) + s[|s| - 1].pos
  }

  // The budget covers what the outermost list has left.
  ghost predicate Covered(s: seq<ListPos>, remaining: nat) {
    s != [] ==> s[0].size <= remaining + SumPos(s)
  }

  function Bump(s: seq<ListPos>, n: nat): seq<ListPos>
    requires s != [] ==> s[|s| - 1].pos + n < TWO_64
  {
    if s == [] then [] else s[|s| - 1 := s[|s| - 1].(pos := s[|s| - 1].pos + n)]
  }

  lemma {:induction false} TopFits(s: seq<ListPos>)
    requires Nested(s) && s != []
    ensures s[|s| - 1].size + SumPos(s[..|s| - 1]) <= s[0].size
    decreases |s|
  {
    if |s| > 1 {
      TopFits(s[..|s| - 1]);
    }
  }

  // In a limited stream no list can ask for more than the budget.
  lemma RoomCovered(s: seq<ListPos>, remaining: nat)
    requires Nested(s) && Covered(s, remaining) && s != []
    ensures s[|s| - 1].size - s[|s| - 1].pos <= remaining
  {
    TopFits(s);
  }

  lemma BumpKeeps(s: seq<ListPos>, n: nat)
    requires Nested(s) && s != [] && n <= s[|s| - 1].size - s[|s| - 1].pos
    ensures Nested(Bump(s, n)) && SumPos(Bump(s, n)) == SumPos(s) + n
  {
  }

  lemma PopKeeps(s: seq<ListPos>)
    requires Nested(s) && s != [] && s[|s| - 1].pos == s[|s| - 1].size
    ensures var t := s[..|s| - 1];
            && (t != [] ==> t[|t| - 1].pos + s[|s| - 1].size <= t[|t| - 1].size)
            && Nested(Bump(t, s[|s| - 1].size))
            && (t != [] ==> SumPos(Bump(t, s[|s| - 1].size)) == SumPos(s))
  {
  }

  // Spelled out: at every depth, position plus nested size stays within the size.
  lemma {:induction false} NestedAt(s: seq<ListPos>, i: nat)
    requires Nested(s) && i < |s|
    ensures s[i].pos <= s[i].size
    ensures i > 0 ==> s[i - 1].pos + s[i].size <= s[i - 1].size
    decreases |s|
  {
    if i < |s| - 1 {
      NestedAt(s[..|s| - 1], i);
    }
  }

  // ----- Headers -----

  // The bytes start with a header and hold at least as much as it announces.
  ghost predicate Announces(w: seq<byte>, k: Kind, s: u64) {
    k != Byte && Leads(Head(k, s), w) && |Head(k, s)| + s <= |w|
  }

  lemma LeadsConcat(p: seq<byte>, v: seq<byte>)
    ensures Leads(p, p + v)
  {
  }

  lemma LeadsSplit(p: seq<byte>, w: seq<byte>)
    requires Leads(p, w)
    ensures |p| <= |w| && w == p + w[|p|..]
  {
  }

  lemma LeadsOne(w: seq<byte>)
    ensures w != [] ==> Leads([w[0]], w)
  {
  }

  lemma LeadsWithin(h: seq<byte>, a: seq<byte>, v: seq<byte>)
    requires Leads(a, v)
    ensures Leads(h + a, h + v)
  {
  }

  // What the first bytes must be when they hold the header of a size.
  lemma HeadShape(v: seq<byte>, k: Kind, s: nat)
    requires k != Byte && s < TWO_64 && Leads(Head(k, s), v)
    ensures v != []
    ensures s < 56 ==> v[0] == SmallTag(k) + s && Head(k, s) == v[..1]
    ensures s >= 56 ==> var n := v[0] - LargeTag(k);
              && 1 <= n <= 8 && n + 1 <= |v| && v[1] != 0 && FromBE(v[1..n + 1]) == s && Head(k, s) == v[..n + 1]
  {
    if s < 56 {
      HeadSmall(k, s);
    } else {
      HeadLarge(k, s);
      BERoundTrip(s);
      var n := |BE(s)|;
      assert v[1..n + 1] == BE(s);
    }
  }

  lemma HeadPrefixUnique(v: seq<byte>, k: Kind, s: nat, k': Kind, s': nat)
    requires k != Byte && s < TWO_64 && Leads(Head(k, s), v)
    requires k' != Byte && s' < TWO_64 && Leads(Head(k', s'), v)
    ensures k == k' && s == s'
  {
    hide Head, FromBE;
    HeadShape(v, k, s);
    HeadShape(v, k', s');
  }

  // A size that was read canonically belongs to the header made of the bytes read.
  lemma HeadOfBytes(v: seq<byte>, k: Kind, n: nat)
    requires k != Byte && 1 <= n <= 8 && n + 1 <= |v| && v[0] == LargeTag(k) + n && v[1] != 0
    requires FromBE(v[1..n + 1]) >= 56
    ensures FromBE(v[1..n + 1]) < TWO_64
    ensures Head(k, FromBE(v[1..n + 1])) == v[..n + 1]
  {
    FromBEWord(v[1..n + 1]);
    FromBERoundTrip(v[1..n + 1]);
    HeadLarge(k, FromBE(v[1..n + 1]));
    assert v[..n + 1] == [v[0]] + v[1..n + 1];
  }

  // ----- Position in the input -----

  // What the reader still holds, the open lists, and the budget.
  datatype Cursor = Cursor(input: seq<byte>, stack: seq<ListPos>, limited: bool, remaining: u64)

  ghost predicate CursorOk(c: Cursor) {
    Nested(c.stack) && (c.limited ==> Covered(c.stack, c.remaining))
  }

  // The budget never promises more than the reader holds, as when decoding a byte slice.
  ghost predicate Backed(c: Cursor) { c.limited && c.remaining <= |c.input| }

  function Room(s: seq<ListPos>): nat
    requires s != [] && s[|s| - 1].pos <= s[|s| - 1].size
  {
    s[|s| - 1].size - s[|s| - 1].pos
  }

  // How many of n bytes the innermost list or, at top level, the budget allows.
  ghost function Bound(c: Cursor, n: nat): nat
    requires CursorOk(c)
  {
    if c.stack != [] then Min(n, Room(c.stack)) else if c.limited then Min(n, c.remaining) else n
  }

  ghost function Visible(c: Cursor): seq<byte>
    requires CursorOk(c)
  {
    c.input[..Bound(c, |c.input|)]
  }

  // The position n bytes further on.
  ghost function Take(c: Cursor, n: nat): (c': Cursor)
    requires CursorOk(c) && n <= |Visible(c)|
    ensures CursorOk(c') && Visible(c') == Visible(c)[n..]
    ensures |c'.input| == |c.input| - n
    ensures Backed(c) ==> Backed(c')
  {
    if c.stack != [] then
      BumpKeeps(c.stack, n);
      if c.limited then
        RoomCovered(c.stack, c.remaining);
        Cursor(c.input[n..], Bump(c.stack, n), true, c.remaining - n)
      else c.(input := c.input[n..], stack := Bump(c.stack, n))
    else if c.limited then c.(input := c.input[n..], remaining := c.remaining - n)
    else c.(input := c.input[n..])
  }

  lemma TakeTake(c: Cursor, m: nat, n: nat)
    requires CursorOk(c) && m + n <= |Visible(c)|
    ensures Take(Take(c, m), n) == Take(c, m + n)
  {
    assert c.input[m..][n..] == c.input[m + n..];
    if c.stack != [] {
      var s := c.stack;
      assert Bump(Bump(s, m), n) == Bump(s, m + n);
    }
  }

  lemma TakeRoom(c: Cursor, n: nat)
    requires CursorOk(c) && c.stack != [] && n <= |Visible(c)|
    ensures Take(c, n).stack != [] && Room(Take(c, n).stack) == Room(c.stack) - n
  {
  }

  lemma TakeNone(c: Cursor)
    requires CursorOk(c)
    ensures Take(c, 0) == c
  {
  }

  // From position c, with `ahead` bytes of the window w already read, the bytes enc of the window have been
  // consumed, which leads to position c'.
  ghost predicate Consumed(w: seq<byte>, c: Cursor, ahead: nat, enc: seq<byte>, c': Cursor) {
    && CursorOk(c) && ahead <= |enc| && Leads(enc, w)
    && |enc| - ahead <= |Visible(c)| && c' == Take(c, |enc| - ahead)
  }

  // As Consumed for a list header, after which the list is entered.
  ghost predicate Entered(w: seq<byte>, c: Cursor, ahead: nat, size: u64, c': Cursor) {
    exists mid :: Consumed(w, c, ahead, Head(List, size), mid) && CanPush(mid, size) && c' == Push(mid, size)
  }

  // The bytes enc have been consumed, of which head was read before position c.
  ghost predicate Follows(c: Cursor, head: seq<byte>, enc: seq<byte>, c': Cursor) {
    && CursorOk(c) && |head| <= |enc| && |enc| - |head| <= |Visible(c)| && c' == Take(c, |enc| - |head|)
  }

  lemma ConsumedNone(w: seq<byte>, c: Cursor, head: seq<byte>)
    requires CursorOk(c) && Leads(head, w)
    ensures Consumed(w, c, |head|, head, c)
  {
    TakeNone(c);
  }

  lemma ConsumedHead(w: seq<byte>, c: Cursor, head: seq<byte>)
    requires CursorOk(c) && w == Visible(c) && Leads(head, w)
    ensures Consumed(w, c, 0, head, Take(c, |head|))
  {
  }

  lemma ConsumedStr(w: seq<byte>, c: Cursor, ahead: nat, head: seq<byte>, mid: Cursor, b: seq<byte>, c': Cursor)
    requires Consumed(w, c, ahead, head, mid) && |b| < TWO_64
    requires Leads(Rlp(Str(b)), w) && Follows(mid, head, Rlp(Str(b)), c')
    ensures Consumed(w, c, ahead, Rlp(Str(b)), c')
    ensures forall b' :: |b'| < TWO_64 && Leads(Rlp(Str(b')), w) ==> b' == b
  {
    hide Rlp, Take, Visible, Leads, CursorOk;
    var enc := Rlp(Str(b));
    TakeTake(c, |head| - ahead, |enc| - |head|);
    StrsEqual(w, b);
  }

  // A list of the given payload size fits at the position.
  ghost predicate CanPush(c: Cursor, size: u64)
    requires CursorOk(c)
  {
    && (c.stack != [] ==> size <= Room(c.stack))
    && (c.stack == [] && c.limited ==> size <= c.remaining)
  }

  lemma PushOk(c: Cursor, size: u64)
    requires CursorOk(c) && CanPush(c, size)
    ensures CursorOk(c.(stack := c.stack + [ListPos(0, size)]))
  {
  }

  // The position inside a list that starts here and has the given payload size.
  ghost function Push(c: Cursor, size: u64): (c': Cursor)
    requires CursorOk(c) && CanPush(c, size)
    ensures CursorOk(c') && c'.input == c.input && c'.stack != [] && Room(c'.stack) == size
    ensures Backed(c) ==> Backed(c')
  {
    hide Nested, Covered;
    PushOk(c, size);
    c.(stack := c.stack + [ListPos(0, size)])
  }

  lemma PushVisible(c: Cursor, size: u64)
    requires CursorOk(c) && CanPush(c, size)
    ensures |Visible(Push(c, size))| <= size
    ensures size <= |Visible(c)| <==> |Visible(Push(c, size))| == size
    ensures Visible(Push(c, size)) <= Visible(c)
  {
  }

  lemma PopOk(c: Cursor)
    requires CursorOk(c) && c.stack != [] && Room(c.stack) == 0
    ensures var t := c.stack[..|c.stack| - 1];
            && (t != [] ==> t[|t| - 1].pos + c.stack[|c.stack| - 1].size < TWO_64)
            && CursorOk(c.(stack := Bump(t, c.stack[|c.stack| - 1].size)))
  {
    PopKeeps(c.stack);
  }

  // The position behind a list that has been read to its end.
  ghost function Pop(c: Cursor): (c': Cursor)
    requires CursorOk(c) && c.stack != [] && Room(c.stack) == 0
    ensures CursorOk(c')
    ensures Backed(c) ==> Backed(c')
  {
    hide Nested, Covered;
    PopOk(c);
    c.(stack := Bump(c.stack[..|c.stack| - 1], c.stack[|c.stack| - 1].size))
  }

  // Opening a list, reading all of its payload and closing it consumes the payload.
  lemma PushTakePop(c: Cursor, size: u64)
    requires CursorOk(c) && size <= |Visible(c)|
    ensures CanPush(c, size) && |Visible(Push(c, size))| == size
    ensures var d := Take(Push(c, size), size); d.stack != [] && Room(d.stack) == 0 && Pop(d) == Take(c, size)
  {
    hide Nested, Covered, Take, Bump, Pop;
    PushVisible(c, size);
    var p := Push(c, size);
    TakeIs(p, size);
    TakeIs(c, size);
    BumpTop(c.stack, size);
    PopIs(Take(p, size), c.stack, size);
  }

  lemma PopIs(d: Cursor, s: seq<ListPos>, size: u64)
    requires CursorOk(d) && d.stack == s + [ListPos(size, size)]
    ensures Room(d.stack) == 0
    ensures s != [] ==> s[|s| - 1].pos + size < TWO_64
    ensures Pop(d) == d.(stack := Bump(s, size))
  {
    assert d.stack[..|s|] == s;
  }

  lemma TakeIs(c: Cursor, n: nat)
    requires CursorOk(c) && n <= |Visible(c)|
    ensures c.stack != [] ==> c.stack[|c.stack| - 1].pos + n < TWO_64
    ensures Take(c, n) == Cursor(c.input[n..], Bump(c.stack, n), c.limited, if c.limited then c.remaining - n else c.remaining)
  {
  }

  lemma BumpTop(s: seq<ListPos>, size: u64)
    ensures Bump(s + [ListPos(0, size)], size) == s + [ListPos(size, size)]
    ensures (s + [ListPos(size, size)])[..|s|] == s
  {
  }

  // ----- The stream -----

  class Stream {
    var input: seq<byte>          // what the reader still holds
    var remaining: u64            // budget, if limited
    var limited: bool
    var kind: Option<Kind>        // kind of the value ahead; None stands for -1
    var size: u64                 // size of the value ahead
    var byteval: byte             // value of a single byte in the type tag
    var kinderr: Option<Error>    // error of the last look ahead
    var stack: seq<ListPos>

    ghost function Here(): Cursor
      reads this
    {
      Cursor(input, stack, limited, remaining)
    }

    // The invariant over every sequence of calls.
    ghost predicate Valid()
      reads this
    {
      && CursorOk(Here())
      && byteval < 0x80 && kinderr != Some(EOL) && kinderr != Some(ErrMoreThanOneValue)
      && (kind.Some? && kinderr.None? ==>
            && (stack != [] ==> size <= Room(stack))
            && (stack == [] && limited ==> size <= remaining)
            && (kind == Some(Byte) ==> size == 0))
    }

    // The header read ahead, which the kind and size determine.
    function Ahead(): seq<byte>
      reads this
    {
      if kind.None? || kinderr.Some? then []
      else if kind == Some(Byte) then [byteval]
      else Head(kind.value, size)
    }

    // The bytes that make up the value ahead and what the innermost list, or the budget, lets follow it.
    ghost function Window(): seq<byte>
      requires Valid()
      reads this
    {
      Ahead() + Visible(Here())
    }

    // Reset. Without a limit, that of a reader which knows its length (`sized`) is the length; any other leaves
    // the stream unlimited.
    constructor (b: seq<byte>, inputLimit: u64, sized: bool)
      requires |b| <= MAX_INT
      ensures Valid() && input == b && stack == [] && kind == None && kinderr == None
      ensures limited == (inputLimit > 0 || sized)
      ensures remaining == if inputLimit > 0 then inputLimit else if sized then |b| else 0
      ensures inputLimit == 0 && sized ==> Backed(Here())
    {
      input, limited := b, inputLimit > 0 || sized;
      remaining := if inputLimit > 0 then inputLimit else if sized then |b| else 0;
      kind, size, byteval, kinderr, stack := None, 0, 0, None, [];
    }

    // Accounts for n bytes about to be read; on failure nothing is accounted for.
    method WillRead(n: u64) returns (err: Option<Error>)
      requires Valid()
      modifies this`kind, this`stack, this`remaining
      ensures Valid() && kind == None
      ensures err.None? <==> Bound(old(Here()), n) == n
      ensures err.None? && n <= |input| ==>
                n <= |Visible(old(Here()))| && Here() == Take(old(Here()), n).(input := input)
      ensures err.Some? ==> Here() == old(Here())
      ensures err.Some? ==> err.value in {ErrElemTooLarge, ErrValueTooLarge}
      ensures err.None? && Backed(old(Here())) ==> n <= |input|
    {
      hide Nested, SumPos;
      kind := None;
      if |stack| > 0 {
        NestedAt(stack, |stack| - 1);
        var tos := stack[|stack| - 1];
        if n > tos.size - tos.pos {
          return Some(ErrElemTooLarge);
        }
        BumpRest(stack, n, limited, remaining);
        stack := stack[|stack| - 1 := tos.(pos := tos.pos + n)];
      }
      if limited {
        if n > remaining {
          return Some(ErrValueTooLarge);
        }
        remaining := remaining - n;
      }
      err := None;
    }

    method ReadByte() returns (r: Result<byte>)
      requires Valid()
      modifies this`kind, this`stack, this`remaining, this`input
      ensures Valid() && kind == None
      ensures r.Ok? <==> Visible(old(Here())) != []
      ensures r.Ok? ==> r.value == Visible(old(Here()))[0] && Here() == Take(old(Here()), 1)
      ensures r.Err? ==> r.error in {ErrElemTooLarge, ErrValueTooLarge, ErrUnexpectedEOF}
      ensures Backed(old(Here())) ==> Backed(Here()) && r != Err(ErrUnexpectedEOF)
    {
      hide Nested, Covered, Bump;
      var err := WillRead(1);
      if err.Some? {
        return Err(err.value);
      }
      if |input| == 0 {
        return Err(ErrUnexpectedEOF);
      }
      r := Ok(input[0]);
      input := input[1..];
    }

    // sliceReader.Read: delivers what it has, up to n bytes; None at the end of the slice.
    method ReaderRead(n: nat) returns (chunk: Option<seq<byte>>)
      modifies this`input
      ensures chunk.None? <==> old(input) == []
      ensures chunk.None? ==> input == old(input)
      ensures chunk.Some? ==> chunk.value == old(input)[..Min(n, |old(input)|)] && input == old(input)[|chunk.value|..]
    {
      if |input| == 0 {
        return None;
      }
      var m := Min(n, |input|);
      chunk := Some(input[..m]);
      input := input[m..];
    }

    // The loop of readFull over the reader.
    method Fill(n: nat) returns (buf: seq<byte>)
      modifies this`input
      ensures buf == old(input)[..Min(n, |old(input)|)] && input == old(input)[|buf|..]
    {
      buf := [];
      var eof := false;
      while |buf| < n && !eof
        invariant |buf| <= n && buf + input == old(input)
        invariant eof ==> input == []
        decreases n - |buf|, !eof
      {
        var chunk := ReaderRead(n - |buf|);
        if chunk.None? {
          eof := true;
        } else {
          buf := buf + chunk.value;
        }
      }
    }

    method ReadFull(n: u64) returns (r: Result<seq<byte>>)
      requires Valid()
      modifies this`kind, this`stack, this`remaining, this`input
      ensures Valid() && kind == None
      ensures r.Ok? <==> n <= |Visible(old(Here()))|
      ensures r.Ok? ==> r.value == Visible(old(Here()))[..n] && Here() == Take(old(Here()), n)
      ensures r.Err? ==> r.error in {ErrElemTooLarge, ErrValueTooLarge, ErrUnexpectedEOF}
      ensures Backed(old(Here())) ==> Backed(Here()) && r != Err(ErrUnexpectedEOF)
    {
      hide Nested, Covered, Bump;
      var err := WillRead(n);
      if err.Some? {
        return Err(err.value);
      }
      var buf := Fill(n);
      if |buf| < n {
        return Err(ErrUnexpectedEOF);
      }
      r := Ok(buf);
    }

    method ReadUint(n: nat) returns (r: Result<u64>)
      requires Valid() && n <= 8
      modifies this`kind, this`stack, this`remaining, this`input
      ensures Valid() && kind == None
      ensures r.Ok? <==> n <= |Visible(old(Here()))| && (n >= 2 ==> Visible(old(Here()))[0] != 0)
      ensures r.Ok? ==> r.value == FromBE(Visible(old(Here()))[..n]) && Here() == Take(old(Here()), n)
      ensures r.Err? ==> r.error in {ErrCanonSize, ErrElemTooLarge, ErrValueTooLarge, ErrUnexpectedEOF}
      ensures r == Err(ErrCanonSize) ==> n >= 2
      ensures Backed(old(Here())) ==> Backed(Here()) && r != Err(ErrUnexpectedEOF)
    {
      hide Nested, Covered, Take, Visible;
      if n == 0 {
        kind := None;
        TakeNone(Here());
        return Ok(0);
      }
      if n == 1 {
        var b := ReadByte();
        if b.Err? {
          return Err(b.error);
        }
        FromBEByte(b.value);
        assert Visible(old(Here()))[..1] == [b.value];
        return Ok(b.value);
      }
      var buf := ReadFull(n);
      if buf.Err? {
        return Err(buf.error);
      }
      if buf.value[0] == 0 {
        return Err(ErrCanonSize);
      }
      FromBEWord(buf.value);
      r := Ok(FromBE(buf.value));
    }

    // The size bytes after a long tag, which was the byte read before.
    method ReadLongSize(k: Kind, n: nat, ghost start: Cursor) returns (sz: u64, err: Option<Error>)
      requires Valid() && k != Byte && 1 <= n <= 8
      requires CursorOk(start) && Visible(start) != [] && Visible(start)[0] == LargeTag(k) + n && Here() == Take(start, 1)
      modifies this`kind, this`stack, this`remaining, this`input
      ensures Valid() && kind == None
      ensures err.None? ==> Leads(Head(k, sz), Visible(start)) && Here() == Take(start, |Head(k, sz)|)
      ensures forall s': u64 :: 56 <= s' && Leads(Head(k, s'), Visible(start)) ==> err.None?
      ensures err.Some? ==> err.value in {ErrCanonSize, ErrElemTooLarge, ErrValueTooLarge, ErrUnexpectedEOF}
      ensures Backed(start) ==> Backed(Here()) && err != Some(ErrUnexpectedEOF)
    {
      hide Nested, Covered, Take, Visible, Head, FromBE;
      ghost var v := Visible(start);
      var r := ReadUint(n);
      if n + 1 <= |v| {
        assert v[1..][..n] == v[1..n + 1];
        assert v[1..][0] == v[1];
      }
      forall s': u64 | 56 <= s' && Leads(Head(k, s'), v)
        ensures r.Ok? && r.value == s' && v[1] != 0
      {
        HeadShape(v, k, s');
      }
      if r.Err? {
        return 0, Some(r.error);
      }
      if r.value < 56 {
        return r.value, Some(ErrCanonSize);
      }
      LeadingByte(v[1..n + 1]);
      HeadOfBytes(v, k, n);
      TakeTake(start, 1, n);
      return r.value, None;
    }

    method ReadKind() returns (k: Kind, sz: u64, err: Option<Error>)
      requires Valid()
      modifies this`kind, this`stack, this`remaining, this`input, this`byteval
      ensures Valid() && kind == None
      ensures err.None? && k == Byte ==>
                && Visible(old(Here())) != [] && byteval == Visible(old(Here()))[0] && sz == 0
                && Here() == Take(old(Here()), 1)
      ensures err.None? && k != Byte ==>
                Leads(Head(k, sz), Visible(old(Here()))) && Here() == Take(old(Here()), |Head(k, sz)|)
      ensures Visible(old(Here())) != [] && Visible(old(Here()))[0] < 0x80 ==> err.None? && k == Byte
      ensures forall k', s': u64 :: k' != Byte && Leads(Head(k', s'), Visible(old(Here()))) ==>
                err.None? && k == k' && sz == s'
      ensures err.Some? ==> err.value in {ErrCanonSize, ErrElemTooLarge, ErrValueTooLarge, ErrUnexpectedEOF, ErrEOF}
      ensures Backed(old(Here())) ==> Backed(Here()) && err != Some(ErrUnexpectedEOF)
    {
      hide Nested, Covered, Take, Visible, Head, FromBE;
      ghost var start := Here();
      ghost var v := Visible(start);
      forall k', s': u64 | k' != Byte && Leads(Head(k', s'), v)
        ensures v != [] && (s' < 56 ==> v[0] == SmallTag(k') + s') && (s' >= 56 ==> 1 <= v[0] - LargeTag(k') <= 8)
      {
        HeadShape(v, k', s');
      }
      var b := ReadByte();
      if b.Err? {
        var e := b.error;
        if |stack| == 0 && (e == ErrUnexpectedEOF || e == ErrValueTooLarge) {
          e := ErrEOF;
        }
        return Byte, 0, Some(e);
      }
      byteval := 0;
      var t := b.value;
      if t < 0x80 {
        byteval := t;
        return Byte, 0, None;
      } else if t < 0xB8 {
        HeadOfTag(v, String, t - 0x80);
        return String, t - 0x80, None;
      } else if t < 0xC0 {
        k := String;
        sz, err := ReadLongSize(String, t - 0xB7, start);
      } else if t < 0xF8 {
        HeadOfTag(v, List, t - 0xC0);
        return List, t - 0xC0, None;
      } else {
        k := List;
        sz, err := ReadLongSize(List, t - 0xF7, start);
      }
      forall k', s': u64 | k' != Byte && Leads(Head(k', s'), v)
        ensures err.None? && k == k' && sz == s'
      {
        assert k == k' && s' >= 56;
        HeadPrefixUnique(v, k, sz, k', s');
      }
    }

    // A failed look ahead that is still remembered.
    ghost predicate Stuck()
      reads this
    {
      kind.Some? && kinderr.Some?
    }

    // The innermost list is used up and nothing is pending.
    ghost predicate AtEnd()
      requires Valid()
      reads this
    {
      kind.None? && stack != [] && Room(stack) == 0
    }

    // Kind: looks ahead at the next value. Repeated calls return the remembered answer.
    method NextKind() returns (r: Result<(Kind, u64)>)
      requires Valid()
      modifies this
      ensures Valid()
      ensures r == Err(EOL) <==> old(AtEnd())
      ensures r == Err(EOL) ==> Here() == old(Here()) && kind == None
      ensures r != Err(ErrMoreThanOneValue)
      ensures old(kind.Some?) ==> Here() == old(Here()) && kind == old(kind) && size == old(size) && kinderr == old(kinderr)
      ensures old(kind.Some?) ==> r == old(if kinderr.Some? then Err(kinderr.value) else Ok((kind.value, size)))
      ensures r.Ok? ==> kind == Some(r.value.0) && kinderr == None && size == r.value.1
      ensures r.Ok? ==> Ahead() != [] && Window() == old(Window())
      ensures r.Ok? ==> Consumed(old(Window()), old(Here()), |old(Ahead())|, Ahead(), Here())
      ensures !old(Stuck()) && old(Window()) != [] && old(Window())[0] < 0x80 ==> r == Ok((Byte, 0))
      ensures !old(Stuck()) ==> forall k', s': u64 :: Announces(old(Window()), k', s') ==> r == Ok((k', s'))
      ensures Backed(old(Here())) ==> Backed(Here()) && (old(kind.None?) ==> r != Err(ErrUnexpectedEOF))
    {
      hide Nested, Covered, Take, Visible, Head, Leads, Consumed;
      if kind.Some? {
        HeadKnown();
        if kinderr.None? {
          ConsumedNone(Window(), Here(), Ahead());
        }
      } else {
        kinderr := None;
        assert Window() == Visible(Here());
        if |stack| > 0 && stack[|stack| - 1].pos == stack[|stack| - 1].size {
          EmptyVisible(Here());
          HeadsNonEmpty();
          return Err(EOL);
        }
        ghost var w, start := Window(), Here();
        Fetch();
        if kinderr.None? {
          ConsumedHead(w, start, Ahead());
        }
      }
      r := if kinderr.Some? then Err(kinderr.value) else Ok((kind.value, size));
    }

    // The part of Kind that reads a header and checks that the value fits.
    method Fetch()
      requires Valid() && kind.None? && !AtEnd()
      modifies this
      ensures Valid() && kind.Some?
      ensures kinderr.None? ==>
                && Ahead() != [] && Leads(Ahead(), Visible(old(Here())))
                && Here() == Take(old(Here()), |Ahead()|) && Window() == Visible(old(Here()))
      ensures Visible(old(Here())) != [] && Visible(old(Here()))[0] < 0x80 ==> kinderr.None? && kind == Some(Byte) && size == 0
      ensures forall k', s': u64 :: Announces(Visible(old(Here())), k', s') ==>
                kinderr.None? && kind == Some(k') && size == s'
      ensures Backed(old(Here())) ==> Backed(Here()) && kinderr != Some(ErrUnexpectedEOF)
    {
      hide Nested, Covered, Take, Visible, Head, Leads;
      var k, sz, err := ReadKind();
      VisibleBound(Here());
      HeadsNonEmpty();
      kind, size, kinderr := Some(k), sz, err;
      if kinderr.None? {
        if |stack| == 0 {
          if limited && size > remaining {
            kinderr := Some(ErrValueTooLarge);
          }
        } else if size > stack[|stack| - 1].size - stack[|stack| - 1].pos {
          kinderr := Some(ErrElemTooLarge);
        }
      }
      if kinderr.None? {
        ghost var v := Visible(old(Here()));
        LeadsOne(v);
        LeadsSplit(Ahead(), v);
      }
    }

    // A remembered header determines what any other reading of the window would give.
    lemma HeadKnown()
      requires Valid() && kind.Some?
      ensures kinderr.None? ==> Ahead() != [] && Leads(Ahead(), Window())
      ensures kinderr.None? && Window()[0] < 0x80 ==> kind == Some(Byte) && size == 0
      ensures kinderr.None? ==> forall k', s': u64 :: k' != Byte && Leads(Head(k', s'), Window()) ==> kind == Some(k') && size == s'
    {
      if kinderr.None? {
        ghost var w := Window();
        if kind != Some(Byte) {
          hide Head;
          HeadShape(w, kind.value, size);
          HeadsNonEmpty();
        }
        forall k', s': u64 | k' != Byte && Leads(Head(k', s'), w)
          ensures kind == Some(k') && size == s'
        {
          HeadShape(w, k', s');
          if kind != Some(Byte) {
            HeadPrefixUnique(w, kind.value, size, k', s');
          }
        }
      }
    }

    // Bytes: accepts exactly the canonical encoding of a string.
    method Bytes() returns (r: Result<seq<byte>>)
      requires Valid()
      modifies this
      ensures Valid()
      ensures r == Err(EOL) <==> old(AtEnd())
      ensures r.Ok? ==> kind == None && Consumed(old(Window()), old(Here()), |old(Ahead())|, Rlp(Str(r.value)), Here())
      ensures !old(Stuck()) ==> forall b :: |b| < TWO_64 && Leads(Rlp(Str(b)), old(Window())) ==> r == Ok(b)
      ensures !old(Stuck()) ==> forall s': u64 :: Announces(old(Window()), List, s') ==> r == Err(ErrExpectedString)
      ensures Backed(old(Here())) ==> Backed(Here())
    {
      hide Nested, Covered, Take, Visible, Head, Rlp, Consumed, CursorOk, Leads;
      ghost var w, start, ahead := Window(), Here(), |Ahead()|;
      StrsAnnounced(w);
      var k := NextKind();
      if k.Err? {
        return Err(k.error);
      }
      if k.value.0 == List {
        return Err(ErrExpectedString);
      }
      ghost var head, mid := Ahead(), Here();
      r := StringContent();
      if r.Ok? {
        ConsumedStr(w, start, ahead, head, mid, r.value, Here());
      }
    }

    // The rest of Bytes once a byte or a string has been announced.
    method StringContent() returns (r: Result<seq<byte>>)
      requires Valid() && kind in {Some(Byte), Some(String)} && kinderr == None
      modifies this`kind, this`stack, this`remaining, this`input
      ensures Valid()
      ensures r.Ok? ==> kind == None && |r.value| < TWO_64 && Leads(Rlp(Str(r.value)), old(Window()))
      ensures r.Ok? ==> Follows(old(Here()), old(Ahead()), Rlp(Str(r.value)), Here())
      ensures r.Err? ==> r.error != EOL && r.error != ErrMoreThanOneValue && forall b :: |b| < TWO_64 ==> !Leads(Rlp(Str(b)), old(Window()))
      ensures Backed(old(Here())) ==> Backed(Here())
    {
      hide Nested, Covered, Take, Visible, Head, Rlp, CursorOk, Leads;
      if kind == Some(Byte) {
        TakeNone(Here());
        kind := None;
        StrOfByte(byteval);
        LeadsConcat([byteval], Visible(Here()));
        return Ok([byteval]);
      }
      ghost var v := Visible(Here());
      StringRead(v, size);
      var n := size;
      var b := ReadFull(n);
      if b.Err? {
        return Err(b.error);
      }
      if n == 1 && b.value[0] < 128 {
        return Err(ErrCanonSize);
      }
      r := Ok(b.value);
    }

    // Raw: returns exactly the bytes consumed, with the header rebuilt. It does not look at the content, so
    // it also accepts a single byte below 0x80 behind a string header.
    method Raw() returns (r: Result<seq<byte>>)
      requires Valid()
      modifies this
      ensures Valid()
      ensures r == Err(EOL) <==> old(AtEnd())
      ensures r.Ok? ==> kind == None && Consumed(old(Window()), old(Here()), |old(Ahead())|, r.value, Here())
      ensures r.Ok? ==> IsRaw(r.value)
      ensures !old(Stuck()) ==>
                forall k, c :: RawShape(k, c) && Leads(Frame(k, c), old(Window())) ==> r == Ok(Frame(k, c))
      ensures Backed(old(Here())) ==> Backed(Here())
    {
      hide Nested, Covered, Take, Visible, Head, Frame, Consumed, CursorOk, Leads, IsRaw;
      ghost var w, start, ahead := Window(), Here(), |Ahead()|;
      FramesAnnounced(w);
      var k := NextKind();
      if k.Err? {
        return Err(k.error);
      }
      ghost var head, mid := Ahead(), Here();
      r := RawContent();
      if r.Ok? {
        ConsumedTail(w, start, ahead, head, mid, r.value, Here());
      }
    }

    // The rest of Raw once the kind is known.
    method RawContent() returns (r: Result<seq<byte>>)
      requires Valid() && kind.Some? && kinderr == None
      modifies this`kind, this`stack, this`remaining, this`input
      ensures Valid()
      ensures r.Ok? ==> kind == None && Leads(r.value, old(Window())) && Follows(old(Here()), old(Ahead()), r.value, Here())
      ensures r.Ok? ==> IsRaw(r.value)
      ensures r.Ok? ==> forall k, c :: RawShape(k, c) && Leads(Frame(k, c), old(Window())) ==> Frame(k, c) == r.value
      ensures r.Err? ==> r.error != EOL && r.error != ErrMoreThanOneValue && forall k, c :: RawShape(k, c) ==> !Leads(Frame(k, c), old(Window()))
      ensures Backed(old(Here())) ==> Backed(Here())
    {
      hide Nested, Covered, Take, Visible, Head, Frame, CursorOk, Leads, IsRaw;
      ghost var v := Visible(Here());
      if kind == Some(Byte) {
        TakeNone(Here());
        kind := None;
        RawOfByte(byteval, v);
        RawFrame(Byte, [byteval]);
        LeadsConcat([byteval], v);
        return Ok([byteval]);
      }
      var k, n := kind.value, size;
      RawRead(k, v, n);
      var b := ReadFull(n);
      if b.Err? {
        return Err(b.error);
      }
      var buf := WithHead(k, b.value);
      RawFrame(k, b.value);
      r := Ok(buf[..]);
    }

    // Rebuilds the header in front of the content.
    static method WithHead(k: Kind, content: seq<byte>) returns (buf: array<byte>)
      requires k != Byte && |content| < TWO_64
      ensures fresh(buf) && buf[..] == Head(k, |content|) + content
    {
      hide Head;
      var n := |content|;
      var start := RlpEncode.HeadSize(n);
      RlpEncode.HeadSizeExact(k, n);
      buf := new byte[start + n];
      var m := RlpEncode.CopyInto(buf, start, content);
      assert m == n && content[..n] == content && buf[start..start + n] == content;
      m := RlpEncode.PutHead(buf, 0, k, n);
      RlpEncode.SliceJoin(buf[..], start);
    }

    // uint: accepts exactly the canonical encodings of integers of at most maxbits bits.
    method Uint(maxbits: nat) returns (r: Result<u64>)
      requires Valid() && maxbits in {8, 16, 32, 64}
      modifies this
      ensures Valid()
      ensures r == Err(EOL) <==> old(AtEnd())
      ensures r.Ok? ==> |BE(r.value)| <= maxbits / 8
      ensures r.Ok? ==> kind == None && Consumed(old(Window()), old(Here()), |old(Ahead())|, Rlp(Str(BE(r.value))), Here())
      ensures !old(Stuck()) ==>
                forall x: u64 :: |BE(x)| <= maxbits / 8 && Leads(Rlp(Str(BE(x))), old(Window())) ==> r == Ok(x)
      ensures !old(Stuck()) ==> forall s': u64 :: Announces(old(Window()), List, s') ==> r == Err(ErrExpectedString)
      ensures Backed(old(Here())) ==> Backed(Here())
    {
      hide Nested, Covered, Take, Visible, Head, Rlp, Consumed, CursorOk, BE, Leads;
      ghost var w, start, ahead := Window(), Here(), |Ahead()|;
      UintsAnnounced(w);
      var k := NextKind();
      if k.Err? {
        return Err(k.error);
      }
      if k.value.0 == List {
        return Err(ErrExpectedString);
      }
      ghost var head, mid := Ahead(), Here();
      r := UintContent(maxbits);
      if r.Ok? {
        ConsumedTail(w, start, ahead, head, mid, Rlp(Str(BE(r.value))), Here());
      }
    }

    // The rest of uint once a byte or a string has been announced.
    method UintContent(maxbits: nat) returns (r: Result<u64>)
      requires Valid() && kind in {Some(Byte), Some(String)} && kinderr == None && maxbits in {8, 16, 32, 64}
      modifies this`kind, this`stack, this`remaining, this`input
      ensures Valid()
      ensures r.Ok? ==> kind == None && |BE(r.value)| <= maxbits / 8 && Leads(Rlp(Str(BE(r.value))), old(Window()))
      ensures r.Ok? ==> Follows(old(Here()), old(Ahead()), Rlp(Str(BE(r.value))), Here())
      ensures forall x: u64 :: |BE(x)| <= maxbits / 8 && Leads(Rlp(Str(BE(x))), old(Window())) ==> r == Ok(x)
      ensures r.Err? ==> r.error != EOL && r.error != ErrMoreThanOneValue
      ensures Backed(old(Here())) ==> Backed(Here())
    {
      hide Nested, Covered, Take, Visible, Head, Rlp, CursorOk, BE, FromBE, Leads;
      ghost var v := Visible(Here());
      if kind == Some(Byte) {
        UintOfByte(byteval, v);
        if byteval == 0 {
          return Err(ErrCanonInt);
        }
        TakeNone(Here());
        LeadsConcat([byteval], v);
        kind := None;
        return Ok(byteval);
      }
      var n := size;
      UintRead(v, n);
      if n > maxbits / 8 {
        return Err(ErrUintOverflow);
      }
      var x := ReadUint(n);
      if x.Err? {
        return Err(if x.error == ErrCanonSize then ErrCanonInt else x.error);
      }
      if n > 0 && x.value < 128 {
        return Err(ErrCanonSize);
      }
      r := x;
    }

    // List: enters a list.
    method OpenList() returns (r: Result<u64>)
      requires Valid()
      modifies this
      ensures Valid()
      ensures r == Err(EOL) <==> old(AtEnd())
      ensures r.Ok? ==> kind == None && Entered(old(Window()), old(Here()), |old(Ahead())|, r.value, Here())
      ensures old(kind == Some(List) && kinderr == None) ==> r == Ok(old(size))
      ensures !old(Stuck()) ==> forall s': u64 :: Announces(old(Window()), List, s') ==> r == Ok(s')
      ensures !old(Stuck()) ==> forall s': u64 :: Announces(old(Window()), String, s') ==> r == Err(ErrExpectedList)
      ensures !old(Stuck()) && old(Window()) != [] && old(Window())[0] < 0x80 ==> r == Err(ErrExpectedList)
      ensures Backed(old(Here())) ==> Backed(Here())
    {
      hide Nested, Covered, Take, Visible, Head, Consumed, Leads;
      var k := NextKind();
      if k.Err? {
        return Err(k.error);
      }
      if k.value.0 != List {
        return Err(ErrExpectedList);
      }
      PushOk(Here(), size);
      r := Ok(size);
      stack := stack + [ListPos(0, size)];
      kind, size := None, 0;
    }

    // ListEnd: returns to the enclosing list.
    method ListEnd() returns (err: Option<Error>)
      requires Valid()
      modifies this
      ensures Valid()
      ensures err.None? <==> old(stack != [] && Room(stack) == 0)
      ensures err.None? ==> kind == None && Here() == Pop(old(Here()))
      ensures err.Some? ==> Here() == old(Here()) && kind == old(kind)
      ensures err.Some? ==> err.value == if stack == [] then ErrNotInList else ErrNotAtEOL
      ensures Backed(old(Here())) ==> Backed(Here())
    {
      hide Nested, Covered;
      if |stack| == 0 {
        return Some(ErrNotInList);
      }
      var tos := stack[|stack| - 1];
      if tos.pos != tos.size {
        return Some(ErrNotAtEOL);
      }
      PopOk(Here());
      stack := stack[..|stack| - 1];
      if |stack| > 0 {
        stack := stack[|stack| - 1 := stack[|stack| - 1].(pos := stack[|stack| - 1].pos + tos.size)];
      }
      kind, size := None, 0;
      err := None;
    }

    // decodeInterface: decodes the value ahead into an item. It succeeds with t exactly when the window
    // starts with the encoding of t.
    method DecodeItem() returns (r: Result<Item>)
      requires Valid()
      modifies this
      ensures Valid()
      ensures r == Err(EOL) <==> old(AtEnd())
      ensures r == Err(EOL) ==> Here() == old(Here()) && kind == None
      ensures r != Err(ErrMoreThanOneValue)
      ensures r.Ok? ==> kind == None && Consumed(old(Window()), old(Here()), |old(Ahead())|, Rlp(r.value), Here())
      ensures !old(Stuck()) ==> forall t :: |Rlp(t)| < TWO_64 && Leads(Rlp(t), old(Window())) ==> r == Ok(t)
      ensures Backed(old(Here())) ==> Backed(Here())
      decreases |Window()|, 1, 0
    {
      hide Nested, Covered, Take, Visible, Head, Rlp, Consumed, CursorOk, Leads;
      ghost var w, start, ahead := Window(), Here(), |Ahead()|;
      ItemsAnnounced(w);
      var k := NextKind();
      if k.Err? {
        return Err(k.error);
      }
      ghost var head, mid := Ahead(), Here();
      if k.value.0 == List {
        r := DecodeList();
      } else {
        assert forall t :: |Rlp(t)| < TWO_64 && Leads(Rlp(t), w) ==> t == Str(t.bytes) && |t.bytes| < TWO_64;
        var b := StringContent();
        if b.Err? {
          return Err(b.error);
        }
        r := Ok(Str(b.value));
        ItemsEqual(w, r.value);
      }
      if r.Ok? {
        ConsumedTail(w, start, ahead, head, mid, Rlp(r.value), Here());
      }
    }

    // decodeListSlice, once a list has been announced.
    method DecodeList() returns (r: Result<Item>)
      requires Valid() && kind == Some(List) && kinderr == None
      modifies this
      ensures Valid()
      ensures r.Ok? ==> kind == None && r.value.Lst? && Leads(Rlp(r.value), old(Window()))
      ensures r.Ok? ==> Follows(old(Here()), old(Ahead()), Rlp(r.value), Here())
      ensures forall t :: |Rlp(t)| < TWO_64 && Leads(Rlp(t), old(Window())) ==> r == Ok(t)
      ensures r.Err? ==> r.error != EOL && r.error != ErrMoreThanOneValue
      ensures Backed(old(Here())) ==> Backed(Here())
      decreases |Window()|, 0, 0
    {
      hide Nested, Covered, Take, Visible, Head, Rlp, RlpAll, CursorOk, Push, Pop, Consumed, Room, Entered, Announces, ReadAll, ReadSome, Leads;
      ghost var w, mid, n, v := Window(), Here(), size, Visible(Here());
      ListRead(v, n);
      HeadsNonEmpty();
      var sz := OpenList();
      EnteredFrom(w, mid, n, Here());
      PushVisible(mid, n);
      assert Window() == Visible(Here());
      var elems: Result<seq<Item>> := Ok([]);
      if sz.value == 0 {
        ListEmpty(Here());
      } else {
        elems := DecodeElems();
        if elems.Err? {
          return Err(elems.error);
        }
      }
      ListClose(mid, n, elems.value, Here());
      var err := ListEnd();
      r := Ok(Lst(elems.value));
      ListIs(elems.value);
      LeadsWithin(Head(List, n), RlpAll(elems.value), v);
      ItemsEqual(w, r.value);
    }

    // decodeSliceElems: decodes elements until the list is used up.
    method DecodeElems() returns (r: Result<seq<Item>>)
      requires Valid() && kind == None && stack != []
      modifies this
      ensures Valid()
      ensures r.Ok? ==> kind == None && ReadAll(old(Here()), r.value, Here())
      ensures forall ts :: RlpAll(ts) == Visible(old(Here())) && |RlpAll(ts)| == Room(old(stack)) ==> r == Ok(ts)
      ensures r.Err? ==> r.error != EOL && r.error != ErrMoreThanOneValue
      ensures Backed(old(Here())) ==> Backed(Here())
      decreases |Window()|, 3, 0
    {
      hide Take, Visible, RlpAll, CursorOk, Room, ReadSome, ReadAll;
      ghost var start := Here();
      var ts: seq<Item> := [];
      ReadNone(start);
      while true
        invariant Valid() && kind == None && stack != [] && ReadSome(start, ts, Here())
        invariant Backed(start) ==> Backed(Here())
        decreases |Visible(start)| - |RlpAll(ts)|
      {
        var e := NextElem(start, ts);
        if e == Err(EOL) {
          return Ok(ts);
        } else if e.Err? {
          return Err(e.error);
        }
        ts := ts + [e.value];
      }
    }

    // One turn of decodeSliceElems, after the elements ts of the list entered at start.
    method NextElem(ghost start: Cursor, ghost ts: seq<Item>) returns (e: Result<Item>)
      requires Valid() && kind == None && stack != [] && ReadSome(start, ts, Here())
      modifies this
      ensures Valid()
      ensures e == Err(EOL) ==> kind == None && ReadAll(start, ts, Here())
      ensures e == Err(EOL) ==> forall us :: RlpAll(us) == Visible(start) && |RlpAll(us)| == Room(start.stack) ==> us == ts
      ensures e.Ok? ==> kind == None && stack != [] && ReadSome(start, ts + [e.value], Here())
      ensures e.Ok? ==> |RlpAll(ts)| < |RlpAll(ts + [e.value])| <= |Visible(start)|
      ensures e.Err? && e.error != EOL ==> forall us :: |RlpAll(us)| == Room(start.stack) ==> RlpAll(us) != Visible(start)
      ensures e != Err(ErrMoreThanOneValue)
      ensures Backed(old(Here())) ==> Backed(Here())
      decreases |Visible(start)|, 2, |Window()|
    {
      hide Nested, Covered, Take, Visible, Head, Rlp, RlpAll, CursorOk, Consumed, Room;
      ghost var here := Here();
      ReadWindow(start, ts, here);
      assert Window() == Visible(here);
      e := DecodeItem();
      if e == Err(EOL) {
        ReadEnd(start, ts, here);
      } else if e.Err? {
        ReadStuck(start, ts, here);
      } else {
        ReadStep(start, ts, here, e.value, Here());
      }
    }
  }

  // The position c of a stream at which a value of the given size was accepted. If the reader backs the
  // budget, the value lies entirely in the input, in a list as well as at top level.
  lemma AcceptedFits(c: Cursor, size: u64)
    requires CursorOk(c) && Backed(c) && CanPush(c, size)
    ensures size <= |Visible(c)| <= |c.input|
  {
    if c.stack != [] {
      RoomCovered(c.stack, c.remaining);
    }
  }

  // ----- Items -----

  // From position c, inside a list, the elements ts have been read.
  ghost predicate ReadSome(c: Cursor, ts: seq<Item>, c': Cursor) {
    && CursorOk(c) && c.stack != [] && Leads(RlpAll(ts), Visible(c)) && c' == Take(c, |RlpAll(ts)|)
  }

  // As ReadSome, and the list is used up.
  ghost predicate ReadAll(c: Cursor, ts: seq<Item>, c': Cursor) {
    ReadSome(c, ts, c') && |RlpAll(ts)| == Room(c.stack)
  }

  lemma ReadNone(c: Cursor)
    requires CursorOk(c) && c.stack != []
    ensures ReadSome(c, [], c)
  {
  }

  lemma ReadWindow(c: Cursor, ts: seq<Item>, here: Cursor)
    requires ReadSome(c, ts, here)
    ensures CursorOk(here) && here.stack != [] && Room(here.stack) == Room(c.stack) - |RlpAll(ts)|
    ensures Visible(here) == Visible(c)[|RlpAll(ts)|..]
  {
  }

  lemma ReadStep(c: Cursor, ts: seq<Item>, here: Cursor, t: Item, here': Cursor)
    requires ReadSome(c, ts, here) && CursorOk(here)
    requires Consumed(Visible(here), here, 0, Rlp(t), here')
    ensures here'.stack != []
    ensures ReadSome(c, ts + [t], here') && |RlpAll(ts)| < |RlpAll(ts + [t])| <= |Visible(c)|
  {
    hide Take, Visible, Rlp, RlpAll, Nested, Leads;
    AllConcat(ts, [t]);
    AllOne(t);
    RlpFrame(t);
    LeadsSplit(RlpAll(ts), Visible(c));
    TakeTake(c, |RlpAll(ts)|, |Rlp(t)|);
    TakeRoom(c, |RlpAll(ts)| + |Rlp(t)|);
    assert Visible(here) == Visible(c)[|RlpAll(ts)|..];
    LeadsWithin(RlpAll(ts), Rlp(t), Visible(here));
    LeadsSplit(RlpAll(ts) + Rlp(t), Visible(c));
  }

  lemma AllOne(t: Item)
    ensures RlpAll([t]) == Rlp(t)
  {
  }

  lemma ReadEnd(c: Cursor, ts: seq<Item>, here: Cursor)
    requires ReadSome(c, ts, here) && here.stack != [] && CursorOk(here) && Room(here.stack) == 0
    ensures ReadAll(c, ts, here)
    ensures forall us :: RlpAll(us) == Visible(c) && |RlpAll(us)| == Room(c.stack) ==> us == ts
  {
    hide Take, Visible, RlpAll, Nested;
    TakeRoom(c, |RlpAll(ts)|);
    forall us | RlpAll(us) == Visible(c) && |RlpAll(us)| == Room(c.stack)
      ensures us == ts
    {
      AllInjective(us, ts);
    }
  }

  // Where the next element cannot be decoded, what is visible is not the payload of a list.
  lemma ReadStuck(c: Cursor, ts: seq<Item>, here: Cursor)
    requires ReadSome(c, ts, here) && CursorOk(here) && here.stack != [] && Room(here.stack) != 0
    requires forall t :: |Rlp(t)| < TWO_64 ==> !Leads(Rlp(t), Visible(here))
    ensures forall us :: |RlpAll(us)| == Room(c.stack) ==> RlpAll(us) != Visible(c)
  {
    hide Take, Visible, Rlp, Nested;
    TakeRoom(c, |RlpAll(ts)|);
    forall us | |RlpAll(us)| == Room(c.stack)
      ensures RlpAll(us) != Visible(c)
    {
      if RlpAll(us) == Visible(c) {
        var n := |RlpAll(ts)|;
        assert RlpAll(us) == RlpAll(ts) + Visible(here);
        AllPrefix(ts, Visible(here), us);
        var rest := us[|ts|..];
        assert rest != [];
        AllFirstPrefix(rest);
      }
    }
  }

  lemma AllFirstPrefix(ts: seq<Item>)
    requires ts != []
    ensures Rlp(ts[0]) <= RlpAll(ts)
  {
  }

  lemma ItemsAnnounced(w: seq<byte>)
    ensures forall t :: |Rlp(t)| < TWO_64 && Leads(Rlp(t), w) ==>
              && w != [] && |Content(t)| < TWO_64
              && if KindOf(t) == Byte then w[0] < 0x80 else Announces(w, KindOf(t), |Content(t)|)
  {
  }

  lemma ItemsEqual(w: seq<byte>, t: Item)
    requires |Content(t)| < TWO_64 && Leads(Rlp(t), w)
    ensures forall t' :: |Rlp(t')| < TWO_64 && Leads(Rlp(t'), w) ==> t' == t
  {
    hide Rlp, Content, Leads;
    LeadsSplit(Rlp(t), w);
    forall t' | |Rlp(t')| < TWO_64 && Leads(Rlp(t'), w)
      ensures t' == t
    {
      RlpFrame(t');
      LeadsSplit(Rlp(t'), w);
      PrefixFree(t, w[|Rlp(t)|..], t', w[|Rlp(t')|..]);
    }
  }

  // What a list header of size n means for the bytes v behind it.
  lemma ListRead(v: seq<byte>, n: u64)
    ensures forall t :: |Rlp(t)| < TWO_64 && Leads(Rlp(t), Head(List, n) + v) ==>
              t.Lst? && n <= |v| && RlpAll(t.items) == v[..n] && |RlpAll(t.items)| == n
  {
    hide Rlp, Head, RlpAll, Frame;
    var w := Head(List, n) + v;
    ItemsAnnounced(w);
    forall t | |Rlp(t)| < TWO_64 && Leads(Rlp(t), w)
      ensures t.Lst? && n <= |v| && RlpAll(t.items) == v[..n] && |RlpAll(t.items)| == n
    {
      HeadShape(w, List, n);
      HeadPrefixUnique(w, List, n, KindOf(t), |Content(t)|);
      RlpFrame(t);
      FrameIs(List, Content(t));
      PrefixBehind(Head(List, n), Content(t), v);
    }
  }

  lemma PrefixBehind(h: seq<byte>, a: seq<byte>, v: seq<byte>)
    requires h + a <= h + v
    ensures |a| <= |v| && a == v[..|a|]
  {
    assert (h + a)[|h|..] == a && (h + v)[|h|..|h| + |a|] == v[..|a|];
  }

  lemma ListIs(ts: seq<Item>)
    ensures Rlp(Lst(ts)) == Head(List, |RlpAll(ts)|) + RlpAll(ts)
  {
  }

  lemma EnteredFrom(w: seq<byte>, c: Cursor, n: u64, c': Cursor)
    requires Entered(w, c, |Head(List, n)|, n, c')
    ensures CursorOk(c) && CanPush(c, n) && c' == Push(c, n)
  {
  }

  lemma ListEmpty(c: Cursor)
    requires CursorOk(c) && c.stack != [] && Room(c.stack) == 0
    ensures ReadAll(c, [], c)
  {
  }

  // Reading all elements of a list that was entered at c and leaving it consumes its payload.
  lemma ListClose(c: Cursor, n: u64, ts: seq<Item>, end: Cursor)
    requires CursorOk(c) && CanPush(c, n) && ReadAll(Push(c, n), ts, end)
    ensures |RlpAll(ts)| == n && n <= |Visible(c)| && RlpAll(ts) == Visible(c)[..n]
    ensures end.stack != [] && CursorOk(end) && Room(end.stack) == 0 && Pop(end) == Take(c, n)
  {
  }

  lemma StrOfByte(b: byte)
    requires b < 0x80
    ensures Rlp(Str([b])) == [b]
  {
  }

  lemma StrOfBytes(b: seq<byte>)
    requires !(|b| == 1 && b[0] < 0x80)
    ensures Rlp(Str(b)) == Head(String, |b|) + b
  {
  }

  // A window that starts with an encoded string is announced as one.
  lemma StrsAnnounced(w: seq<byte>)
    ensures forall b :: |b| < TWO_64 && Leads(Rlp(Str(b)), w) ==>
              if |b| == 1 && b[0] < 0x80 then w[0] == b[0] && w != [] else Announces(w, String, |b|)
  {
  }

  lemma StrsEqual(w: seq<byte>, b: seq<byte>)
    requires |b| < TWO_64 && Leads(Rlp(Str(b)), w)
    ensures forall b' :: |b'| < TWO_64 && Leads(Rlp(Str(b')), w) ==> b' == b
  {
    hide Rlp, Frame, Leads;
    RlpFrame(Str(b));
    LeadsSplit(Rlp(Str(b)), w);
    forall b' | |b'| < TWO_64 && Leads(Rlp(Str(b')), w)
      ensures b' == b
    {
      RlpFrame(Str(b'));
      LeadsSplit(Rlp(Str(b')), w);
      FrameUnique(StrKind(b), b, w[|Rlp(Str(b))|..], StrKind(b'), b', w[|Rlp(Str(b'))|..]);
    }
  }

  lemma ConsumedTail(w: seq<byte>, c: Cursor, ahead: nat, head: seq<byte>, mid: Cursor, enc: seq<byte>, c': Cursor)
    requires Consumed(w, c, ahead, head, mid) && Leads(enc, w) && Follows(mid, head, enc, c')
    ensures Consumed(w, c, ahead, enc, c')
  {
    hide Take, Visible;
    TakeTake(c, |head| - ahead, |enc| - |head|);
  }

  lemma FramesAnnounced(w: seq<byte>)
    ensures forall k, c :: RawShape(k, c) && Leads(Frame(k, c), w) ==>
              if k == Byte then w != [] && w[0] == c[0] && w[0] < 0x80 else Announces(w, k, |c|)
  {
  }

  // A frame with a minimal size field.
  ghost predicate IsRaw(b: seq<byte>) { exists k, c :: RawShape(k, c) && b == Frame(k, c) }

  lemma RawFrame(k: Kind, c: seq<byte>)
    requires RawShape(k, c)
    ensures IsRaw(Head(k, |c|) + c) && (k == Byte ==> IsRaw(c))
  {
    assert Frame(k, c) == Head(k, |c|) + c;
    assert k == Byte ==> Head(k, |c|) + c == c;
  }

  lemma RawOfByte(x: byte, v: seq<byte>)
    requires x < 0x80
    ensures forall k, c :: RawShape(k, c) && Leads(Frame(k, c), [x] + v) ==> Frame(k, c) == [x]
  {
    hide Header;
    var w := [x] + v;
    forall k, c | RawShape(k, c) && Leads(Frame(k, c), w)
      ensures Frame(k, c) == [x]
    {
      if k == Byte {
        assert Frame(k, c) == c;
        assert c[0] == w[0];
      } else {
        HeadShape(w, k, |c|);
      }
    }
  }

  // What a header of kind k and size n means for the bytes v behind it.
  lemma RawRead(k: Kind, v: seq<byte>, n: u64)
    requires k != Byte
    ensures n <= |v| ==> Leads(Head(k, n) + v[..n], Head(k, n) + v)
    ensures n <= |v| ==> forall k', c :: RawShape(k', c) && Leads(Frame(k', c), Head(k, n) + v) ==> Frame(k', c) == Head(k, n) + v[..n]
    ensures n > |v| ==> forall k', c :: RawShape(k', c) ==> !Leads(Frame(k', c), Head(k, n) + v)
  {
    hide Head, Frame;
    var w := Head(k, n) + v;
    forall k', c | RawShape(k', c) && Leads(Frame(k', c), w)
      ensures n <= |v| && Frame(k', c) == Head(k, n) + v[..n]
    {
      FramesAnnounced(w);
      HeadShape(w, k, n);
      HeadPrefixUnique(w, k, n, k', |c|);
      FrameIs(k', c);
    }
  }

  lemma FrameIs(k: Kind, c: seq<byte>)
    ensures Frame(k, c) == Head(k, |c|) + c
  {
  }

  lemma UintsAnnounced(w: seq<byte>)
    ensures forall x: u64 :: Leads(Rlp(Str(BE(x))), w) ==> w != [] && (w[0] < 0x80 || (|BE(x)| < TWO_64 && Announces(w, String, |BE(x)|)))
  {
    hide Rlp, BE;
    StrsAnnounced(w);
    forall x: u64 | Leads(Rlp(Str(BE(x))), w)
      ensures w != [] && (w[0] < 0x80 || (|BE(x)| < TWO_64 && Announces(w, String, |BE(x)|)))
    {
      BEWord(x);
      RlpFrame(Str(BE(x)));
    }
  }

  lemma UintOfByte(b: byte, v: seq<byte>)
    requires b < 0x80
    ensures b != 0 ==> BE(b) == [b] && Rlp(Str(BE(b))) == [b]
    ensures forall x: u64 :: Leads(Rlp(Str(BE(x))), [b] + v) ==> b != 0 && x == b
  {
    ByteNumber(b);
    hide Rlp, Leads, BE, FromBE;
    var w := [b] + v;
    StrOfByte(b);
    LeadsConcat([b], v);
    StrsEqual(w, [b]);
    forall x: u64 | Leads(Rlp(Str(BE(x))), w)
      ensures b != 0 && x == b
    {
      BEWord(x);
      BERoundTrip(x);
    }
  }

  lemma ByteNumber(b: byte)
    ensures FromBE([b]) == b && (b != 0 ==> BE(b) == [b])
  {
    FromBEByte(b);
    assert b != 0 ==> b / 256 == 0 && BE(b) == BE(0) + [b];
  }

  // What a string header of size n means for an integer read from the bytes v behind it.
  lemma UintRead(v: seq<byte>, n: u64)
    ensures n <= |v| && n <= 8 && (n >= 2 ==> v[0] != 0) && (n > 0 ==> FromBE(v[..n]) >= 128) ==>
              && FromBE(v[..n]) < TWO_64 && BE(FromBE(v[..n])) == v[..n]
              && Rlp(Str(v[..n])) == Head(String, n) + v[..n] && Leads(Rlp(Str(v[..n])), Head(String, n) + v)
    ensures forall x: u64 :: Leads(Rlp(Str(BE(x))), Head(String, n) + v) ==>
              n == |BE(x)| && n <= |v| && (n >= 2 ==> v[0] != 0) && FromBE(v[..n]) == x && (n > 0 ==> x >= 128)
  {
    hide Rlp, Head, BE, FromBE;
    StringRead(v, n);
    if n <= |v| && n <= 8 && (n >= 2 ==> v[0] != 0) && (n > 0 ==> FromBE(v[..n]) >= 128) {
      FromBEWord(v[..n]);
      UintCanonical(v[..n]);
    }
    forall x: u64 | Leads(Rlp(Str(BE(x))), Head(String, n) + v)
      ensures n == |BE(x)| && n <= |v| && (n >= 2 ==> v[0] != 0) && FromBE(v[..n]) == x && (n > 0 ==> x >= 128)
    {
      UintAhead(v, n, x);
    }
  }

  lemma UintAhead(v: seq<byte>, n: u64, x: u64)
    requires Leads(Rlp(Str(BE(x))), Head(String, n) + v)
    ensures n == |BE(x)| && n <= |v| && (n >= 2 ==> v[0] != 0) && FromBE(v[..n]) == x && (n > 0 ==> x >= 128)
  {
    hide Rlp, Head;
    StringRead(v, n);
    BEWord(x);
    BERoundTrip(x);
    StrsEqual(Head(String, n) + v, v[..n]);
    UintSmall(x);
  }

  lemma UintCanonical(s: seq<byte>)
    requires |s| <= 8 && (|s| >= 2 ==> s[0] != 0) && (|s| > 0 ==> FromBE(s) >= 128)
    ensures BE(FromBE(s)) == s && (|s| == 1 ==> s[0] >= 128)
  {
    if |s| == 1 {
      assert s == [s[0]];
      FromBEByte(s[0]);
    }
    FromBERoundTrip(s);
  }

  lemma UintSmall(x: u64)
    ensures 0 < x < 128 ==> BE(x) == [x]
  {
  }

  // What a string header of size n means for the bytes v behind it.
  lemma StringRead(v: seq<byte>, n: u64)
    ensures n <= |v| && !(n == 1 && v[0] < 0x80) ==>
              Rlp(Str(v[..n])) == Head(String, n) + v[..n] && Leads(Rlp(Str(v[..n])), Head(String, n) + v)
    ensures n > |v| || (n == 1 && v[0] < 0x80) ==>
              forall b :: |b| < TWO_64 ==> !Leads(Rlp(Str(b)), Head(String, n) + v)
  {
    hide Head, Rlp;
    var w := Head(String, n) + v;
    if n > |v| {
      StrsAnnounced(w);
      HeadShape(w, String, n);
      forall b | |b| < TWO_64 && Leads(Rlp(Str(b)), w)
        ensures false
      {
        if !(|b| == 1 && b[0] < 0x80) {
          HeadPrefixUnique(w, String, |b|, String, n);
        }
      }
    } else if n == 1 && v[0] < 0x80 {
      assert Head(String, 1) + [v[0]] == w[..|Head(String, 1)| + 1];
      NotCanonical(w, v[0]);
    } else {
      StrOfBytes(v[..n]);
    }
  }

  // A single byte below 0x80 behind a string header encodes nothing.
  lemma NotCanonical(w: seq<byte>, x: byte)
    requires x < 0x80 && Leads(Head(String, 1) + [x], w)
    ensures forall b :: |b| < TWO_64 ==> !Leads(Rlp(Str(b)), w)
  {
    hide Head;
    HeadSmall(String, 1);
    forall b | |b| < TWO_64 && Leads(Rlp(Str(b)), w)
      ensures false
    {
      assert w[0] == 0x81 && w[1] == x;
      if |b| == 1 && b[0] < 0x80 {
        StrOfByte(b[0]);
      } else {
        StrOfBytes(b);
        HeadPrefixUnique(w, String, |b|, String, 1);
      }
    }
  }

  lemma HeadsNonEmpty()
    ensures forall k, s: u64 :: k != Byte ==> Head(k, s) != []
  {
  }

  lemma EmptyVisible(c: Cursor)
    requires CursorOk(c) && c.stack != [] && Room(c.stack) == 0
    ensures Visible(c) == []
  {
  }

  // What is visible fits the innermost list and the budget.
  lemma VisibleBound(c: Cursor)
    requires CursorOk(c)
    ensures c.stack != [] ==> |Visible(c)| <= Room(c.stack)
    ensures c.stack == [] && c.limited ==> |Visible(c)| <= c.remaining
    ensures |Visible(c)| <= |c.input| && Visible(c) <= c.input
  {
  }

  lemma LeadingByte(s: seq<byte>)
    requires |s| >= 1 && (|s| >= 2 ==> s[0] != 0) && FromBE(s) > 0
    ensures s[0] != 0
  {
  }

  lemma HeadOfTag(v: seq<byte>, k: Kind, s: nat)
    requires k != Byte && s < 56 && v != [] && v[0] == SmallTag(k) + s
    ensures Head(k, s) == v[..1]
  {
  }

  lemma FromBEByte(b: byte)
    ensures FromBE([b]) == b
  {
  }

  lemma BumpRest(s: seq<ListPos>, n: nat, limited: bool, remaining: nat)
    requires Nested(s) && s != [] && (limited ==> Covered(s, remaining))
    requires s[|s| - 1].pos <= s[|s| - 1].size && n <= Room(s)
    ensures Nested(Bump(s, n))
    ensures limited ==> n <= remaining && Covered(Bump(s, n), remaining - n)
  {
    BumpKeeps(s, n);
    if limited {
      RoomCovered(s, remaining);
    }
  }

  // DecodeBytes into an untyped value: accepts b with result t if and only if b is the encoding of t.
  method DecodeBytes(b: seq<byte>) returns (r: Result<Item>)
    requires |b| <= MAX_INT
    ensures r.Ok? ==> b == Rlp(r.value)
    ensures forall t :: b == Rlp(t) ==> r == Ok(t)
    ensures r == Err(ErrMoreThanOneValue) <==> exists t :: Rlp(t) < b
  {
    hide Nested, Covered, Take, Rlp;
    var stream := new Stream(b, |b|, false);
    ghost var start := stream.Here();
    assert stream.Window() == b;
    r := stream.DecodeItem();
    if r.Ok? {
      ghost var t := r.value;
      assert Leads(Rlp(t), b) && |stream.input| == |b| - |Rlp(t)|;
      assert forall t' :: Leads(Rlp(t'), b) ==> t' == t;
      if |stream.input| > 0 {
        assert Rlp(t) < b;
        r := Err(ErrMoreThanOneValue);
      }
    }
  }

  // Decoding undoes encoding.
  method EncodeThenDecode(t: Item) returns (r: Result<Item>)
    requires |Rlp(t)| <= MAX_INT
    ensures r == Ok(t)
  {
    hide Rlp;
    var out := RlpEncode.EncodeToBytes(t);
    r := DecodeBytes(out[..]);
  }

  // Encoding undoes decoding: whatever is accepted is the one encoding of the result.
  method DecodeThenEncode(b: seq<byte>) returns (r: Result<seq<byte>>)
    requires |b| <= MAX_INT
    ensures r.Ok? ==> r.value == b
    ensures r.Err? <==> forall t :: Rlp(t) != b
  {
    hide Rlp;
    var t := DecodeBytes(b);
    if t.Err? {
      return Err(t.error);
    }
    var out := RlpEncode.EncodeToBytes(t.value);
    r := Ok(out[..]);
  }

  // ----- The two parsers -----

  // A single byte below 0x80 behind a string header.
  predicate LoneByte(b: seq<byte>) { |b| == 2 && b[0] == 0x81 && b[1] < 0x80 }

  // Raw and Split agree on what is at the front of the window, except for lone bytes, which only Raw accepts.
  method RawAndSplit(s: Stream) returns (raw: Result<seq<byte>>)
    requires s.Valid() && !s.Stuck() && |s.Window()| < TWO_64
    modifies s
    ensures raw.Ok? && !LoneByte(raw.value) <==> RlpRaw.Split(old(s.Window())).Ok?
    ensures raw.Ok? && !LoneByte(raw.value) ==>
              var p := RlpRaw.Split(old(s.Window())).value;
              raw.value == Frame(p.kind, p.content) && old(s.Window()) == raw.value + p.rest
    ensures raw.Ok? && LoneByte(raw.value) ==> RlpRaw.Split(old(s.Window())) == Err(ErrCanonSize)
  {
    hide Take, Visible, CursorOk, Leads, Frame, RlpRaw.Split, IsRaw, Stream.Valid, Stream.Window, Stream.Here;
    ghost var w := s.Window();
    raw := s.Raw();
    SplitOfWindow(w);
    if raw.Ok? {
      RawSplits(w, raw.value);
    }
  }

  // A window that Split accepts starts with the frame that it finds.
  lemma SplitOfWindow(w: seq<byte>)
    requires |w| < TWO_64
    ensures RlpRaw.Split(w).Ok? ==>
              var p := RlpRaw.Split(w).value;
              && RawShape(p.kind, p.content) && Leads(Frame(p.kind, p.content), w) && !LoneByte(Frame(p.kind, p.content))
              && w == Frame(p.kind, p.content) + p.rest
  {
    hide RlpRaw.Split, Frame, Head;
    if RlpRaw.Split(w).Ok? {
      var p := RlpRaw.Split(w).value;
      RlpRaw.SplitIff(w, p.kind, p.content, p.rest);
      FrameIs(p.kind, p.content);
      LeadsConcat(Frame(p.kind, p.content), p.rest);
      LoneIff(p.kind, p.content);
    }
  }

  lemma RawSplits(w: seq<byte>, b: seq<byte>)
    requires IsRaw(b) && Leads(b, w)
    ensures if LoneByte(b) then RlpRaw.Split(w) == Err(ErrCanonSize) else RlpRaw.Split(w).Ok?
  {
    hide RlpRaw.Split, Frame;
    var k, c :| RawShape(k, c) && b == Frame(k, c);
    LeadsSplit(b, w);
    RlpRaw.SplitRawFrame(k, c, w[|b|..]);
    LoneIff(k, c);
  }

  lemma LoneIff(k: Kind, c: seq<byte>)
    requires RawShape(k, c)
    ensures LoneByte(Frame(k, c)) <==> k == String && |c| == 1 && c[0] < 0x80
  {
    if k != Byte && |c| < 56 {
      HeadSmall(k, |c|);
    } else if k != Byte {
      HeadLarge(k, |c|);
    }
  }

  // At such a byte: the stream hands it out, and the slice parser rejects it.
  method LoneByteRaw(x: byte) returns (raw: Result<seq<byte>>)
    requires x < 0x80
    ensures raw == Ok([0x81, x]) && RlpRaw.Split([0x81, x]) == Err(ErrCanonSize)
  {
    HeadSmall(String, 1);
    var w := [0x81, x];
    assert Frame(String, [x]) == w && RawShape(String, [x]);
    assert Frame(String, [x]) + [] == w;
    RlpRaw.SplitRawFrame(String, [x], []);
    hide Take, Head, Frame, RlpRaw.Split, IsRaw, Nested, Covered;
    var s := new Stream(w, 2, false);
    assert s.Window() == w;
    assert Leads(Frame(String, [x]), w);
    raw := s.Raw();
  }
}
