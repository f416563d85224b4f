/** The slice-based parser: rlp/raw.go and the list iterator of rlp/iterator.go. */
module RlpRaw {
  import opened Words
  import opened RlpSpec
  import opened RlpEncode

  datatype RawHead = RawHead(kind: Kind, tagsize: nat, contentsize: u64)

  function ReadSize(b: seq<byte>, slen: nat): Result<u64>
    requires 1 <= slen <= 8
  {
    if slen > |b| then Err(ErrUnexpectedEOF)
    else
      FromBEWord(b[..slen]);
      var s: u64 := FromBE(b[..slen]);
      if s < 56 || b[0] == 0 then Err(ErrCanonSize) else Ok(s)
  }

  function ReadKind(buf: seq<byte>): (r: Result<RawHead>)
    ensures r.Ok? ==> r.value.tagsize + r.value.contentsize <= |buf| && 0 < r.value.tagsize + r.value.contentsize
  {
    if |buf| == 0 then Err(ErrUnexpectedEOF)
    else
      var b := buf[0];
      if b < 0x80 then Checked(buf, Byte, 0, Ok(1))
      else if b < 0xB8 then
        // Reject strings that should have been single bytes.
        if b - 0x80 == 1 && |buf| > 1 && buf[1] < 128 then Err(ErrCanonSize)
        else Checked(buf, String, 1, Ok(b - 0x80))
      else if b < 0xC0 then Checked(buf, String, b - 0xB7 + 1, ReadSize(buf[1..], b - 0xB7))
      else if b < 0xF8 then Checked(buf, List, 1, Ok(b - 0xC0))
      else Checked(buf, List, b - 0xF7 + 1, ReadSize(buf[1..], b - 0xF7))
  }

  // Rejects values larger than the input slice.
  function Checked(buf: seq<byte>, k: Kind, tagsize: nat, size: Result<u64>): (r: Result<RawHead>)
    requires size.Ok? ==> tagsize <= |buf|
  {
    match size
    case Err(e) => Err(e)
    case Ok(contentsize) =>
      if contentsize > |buf| - tagsize then Err(ErrValueTooLarge) else Ok(RawHead(k, tagsize, contentsize))
  }

  // An accepted slice starts with a canonical frame.
  lemma ReadKindSound(buf: seq<byte>)
    requires ReadKind(buf).Ok?
    ensures var RawHead(k, ts, cs) := ReadKind(buf).value;
            var c := buf[ts..ts + cs];
            buf == Frame(k, c) + buf[ts + cs..] && Canonical(k, c) && |c| < TWO_64
  {
    var RawHead(k, ts, cs) := ReadKind(buf).value;
    HeadRead(buf);
    hide ReadKind, Head;
    assert buf == buf[..ts] + buf[ts..ts + cs] + buf[ts + cs..];
  }

  // The tag and size bytes are the header of the content.
  lemma HeadRead(buf: seq<byte>)
    requires ReadKind(buf).Ok?
    ensures var RawHead(k, ts, cs) := ReadKind(buf).value;
            buf[..ts] == Head(k, cs) && Canonical(k, buf[ts..ts + cs]) && cs < TWO_64
  {
    hide FromBE, BE;
    var RawHead(k, ts, cs) := ReadKind(buf).value;
    if k == Byte {
    } else if ts == 1 {
      HeadSmall(k, cs);
    } else {
      SizeCanonical(buf[1..ts]);
      assert buf[1..][..ts - 1] == buf[1..ts];
      HeadLarge(k, cs);
      assert buf[..ts] == [buf[0]] + buf[1..ts];
    }
  }

  lemma SizeCanonical(s: seq<byte>)
    requires s != [] && s[0] != 0
    ensures BE(FromBE(s)) == s
  {
    FromBERoundTrip(s);
  }

  // Every canonical frame is accepted, whatever follows it.
  lemma ReadKindComplete(k: Kind, c: seq<byte>, rest: seq<byte>)
    requires Canonical(k, c) && |c| < TWO_64
    ensures ReadKind(Frame(k, c) + rest) == Ok(RawHead(k, |Head(k, |c|)|, |c|))
  {
    var buf := Frame(k, c) + rest;
    if k != Byte && |c| < 56 {
      HeadSmall(k, |c|);
      assert buf[0] == SmallTag(k) + |c|;
      assert |c| == 1 ==> buf[1] == c[0];
    } else if k != Byte {
      LargeComplete(k, c, rest);
    }
  }

  lemma LargeComplete(k: Kind, c: seq<byte>, rest: seq<byte>)
    requires k != Byte && 56 <= |c| < TWO_64
    ensures ReadKind(Frame(k, c) + rest) == Ok(RawHead(k, |Head(k, |c|)|, |c|))
  {
    var buf := Frame(k, c) + rest;
    HeadLarge(k, |c|);
    BERoundTrip(|c|);
    hide BE, FromBE;
    SizeBytes(LargeTag(k) + |BE(|c|)|, BE(|c|), c, rest);
    assert buf == ([LargeTag(k) + |BE(|c|)|] + BE(|c|) + c) + rest;
    assert ReadSize(buf[1..], |BE(|c|)|) == Ok(|c|);
  }

  // Where the bytes of the size are found.
  lemma SizeBytes(tag: byte, be: seq<byte>, c: seq<byte>, rest: seq<byte>)
    requires be != []
    ensures var buf := ([tag] + be + c) + rest;
            && |buf| == 1 + |be| + |c| + |rest| && buf[0] == tag
            && buf[1..][..|be|] == be && buf[1..][0] == be[0]
  {
  }

  // ----- Splitting one value off a slice -----

  datatype Parts = Parts(kind: Kind, content: seq<byte>, rest: seq<byte>)

  function Split(b: seq<byte>): (r: Result<Parts>) {
    match ReadKind(b)
    case Err(e) => Err(e)
    case Ok(RawHead(k, ts, cs)) => Ok(Parts(k, b[ts..ts + cs], b[ts + cs..]))
  }

  // Split inverts framing, in both directions.
  lemma SplitIff(b: seq<byte>, k: Kind, c: seq<byte>, rest: seq<byte>)
    requires |b| < TWO_64
    ensures Split(b) == Ok(Parts(k, c, rest)) <==> b == Frame(k, c) + rest && Canonical(k, c)
  {
    hide ReadKind, Frame, Canonical;
    if Split(b).Ok? {
      ReadKindSound(b);
      var Parts(k', c', rest') := Split(b).value;
      if b == Frame(k, c) + rest && Canonical(k, c) {
        FrameLength(k, c);
        FrameUnique(k, c, rest, k', c', rest');
      }
    } else if b == Frame(k, c) + rest && Canonical(k, c) {
      FrameLength(k, c);
      ReadKindComplete(k, c, rest);
    }
  }

  lemma FrameLength(k: Kind, c: seq<byte>)
    ensures |c| <= |Frame(k, c)|
  {
  }

  // On the encoding of an item and anything after it, Split returns the item's payload and the rest.
  lemma SplitItem(t: Item, rest: seq<byte>)
    requires |Rlp(t) + rest| < TWO_64
    ensures Split(Rlp(t) + rest) == Ok(Parts(KindOf(t), Content(t), rest))
  {
    hide Split, Frame, Canonical;
    RlpFrame(t);
    SplitIff(Rlp(t) + rest, KindOf(t), Content(t), rest);
  }

  // Split also rejects the one kind of frame that a stream hands out as raw bytes: a single byte below 0x80
  // behind a string header.
  lemma SplitRawFrame(k: Kind, c: seq<byte>, rest: seq<byte>)
    requires RawShape(k, c)
    ensures Split(Frame(k, c) + rest) ==
            if k == String && |c| == 1 && c[0] < 0x80 then Err(ErrCanonSize) else Ok(Parts(k, c, rest))
  {
    if k == String && |c| == 1 && c[0] < 0x80 {
      HeadSmall(k, 1);
      var b := Frame(k, c) + rest;
      assert b[0] == 0x81 && b[1] == c[0];
    } else {
      hide Frame, Head;
      ReadKindComplete(k, c, rest);
      FrameParts(k, c, rest);
    }
  }

  lemma FrameParts(k: Kind, c: seq<byte>, rest: seq<byte>)
    ensures var b, h := Frame(k, c) + rest, |Head(k, |c|)|;
            h + |c| <= |b| && b[h..h + |c|] == c && b[h + |c|..] == rest
  {
  }

  function SplitString(b: seq<byte>): (r: Result<(seq<byte>, seq<byte>)>) {
    match Split(b)
    case Err(e) => Err(e)
    case Ok(Parts(k, content, rest)) => if k == List then Err(ErrExpectedString) else Ok((content, rest))
  }

  function SplitList(b: seq<byte>): (r: Result<(seq<byte>, seq<byte>)>) {
    match Split(b)
    case Err(e) => Err(e)
    case Ok(Parts(k, content, rest)) => if k != List then Err(ErrExpectedList) else Ok((content, rest))
  }

  lemma SplitStringIff(b: seq<byte>, c: seq<byte>, rest: seq<byte>)
    requires |b| < TWO_64
    ensures SplitString(b) == Ok((c, rest)) <==> b == Rlp(Str(c)) + rest
  {
    hide Split, Frame;
    SplitIff(b, StrKind(c), c, rest);
    if Split(b).Ok? {
      var Parts(k', c', rest') := Split(b).value;
      SplitIff(b, k', c', rest');
    }
  }

  function SplitUint64(b: seq<byte>): (r: Result<(u64, seq<byte>)>) {
    match SplitString(b)
    case Err(e) => Err(e)
    case Ok((content, rest)) =>
      if |content| == 0 then Ok((0, rest))
      else if |content| == 1 then
        if content[0] == 0 then Err(ErrCanonInt) else Ok((content[0], rest))
      else if |content| > 8 then Err(ErrUintOverflow)
      else
        match ReadSize(content, |content|)
        case Err(_) => Err(ErrCanonInt)
        case Ok(x) => Ok((x, rest))
  }

  // What SplitUint64 makes of the content of a string.
  lemma UintContent(content: seq<byte>, x: u64)
    ensures content == BE(x) <==>
            |content| <= 8 && (|content| > 0 ==> content[0] != 0) && FromBE(content) == x
  {
    BERoundTrip(x);
    BEWord(x);
    if |content| <= 8 && (|content| > 0 ==> content[0] != 0) {
      FromBERoundTrip(content);
    }
  }

  // Two bytes with a leading non-zero byte exceed the sizes that ReadSize rejects.
  lemma {:induction false} LongNumber(s: seq<byte>)
    requires |s| >= 2 && s[0] != 0
    ensures FromBE(s) >= 256
  {
    var init := s[..|s| - 1];
    if |s| > 2 {
      LongNumber(init);
    } else {
      assert init[..0] == [];
      assert FromBE(init) == s[0];
    }
  }

  lemma ReadSizeOfContent(content: seq<byte>)
    requires 2 <= |content| <= 8
    ensures FromBE(content) < TWO_64
    ensures ReadSize(content, |content|) == if content[0] == 0 then Err(ErrCanonSize) else Ok(FromBE(content))
  {
    FromBEWord(content);
    assert content[..|content|] == content;
    if content[0] != 0 {
      LongNumber(content);
    }
  }

  // SplitUint64 accepts exactly the canonical encodings of 64-bit integers.
  lemma SplitUint64Iff(b: seq<byte>, x: u64, rest: seq<byte>)
    requires |b| < TWO_64
    ensures SplitUint64(b) == Ok((x, rest)) <==> b == Rlp(Str(BE(x))) + rest
  {
    hide SplitString, Rlp, ReadSize, BE;
    SplitStringIff(b, BE(x), rest);
    if SplitString(b).Ok? {
      var content := SplitString(b).value.0;
      UintContent(content, x);
      if |content| == 1 {
        assert content[..0] == [];
        assert FromBE(content) == content[0];
      } else if 2 <= |content| <= 8 {
        ReadSizeOfContent(content);
      }
    }
  }

  function AppendUint64(b: seq<byte>, i: u64): (r: seq<byte>) {
    if i == 0 then b + [0x80]
    else if i < 128 then b + [i]
    else UintFrame(i); b + ([0x80 + |Digits(i)|] + Digits(i))
  }

  // Appending an integer and splitting it off again returns it, with what follows untouched.
  lemma AppendSplitUint64(b: seq<byte>, i: u64, rest: seq<byte>)
    requires |rest| < MAX_INT
    ensures AppendUint64(b, i) == b + Rlp(Str(BE(i)))
    ensures SplitUint64(AppendUint64(b, i)[|b|..] + rest) == Ok((i, rest))
  {
    hide SplitUint64, Rlp, BE, Digits;
    UintFrame(i);
    assert AppendUint64(b, i)[|b|..] == Rlp(Str(BE(i)));
    SplitUint64Iff(Rlp(Str(BE(i))) + rest, i, rest);
  }

  // ----- Counting the values in a slice -----

  ghost predicate IsFrame(p: seq<byte>) {
    exists k, c :: Canonical(k, c) && |c| < TWO_64 && p == Frame(k, c)
  }

  ghost predicate AllFrames(ps: seq<seq<byte>>) { forall p <- ps :: IsFrame(p) }

  function Join(ps: seq<seq<byte>>): seq<byte> {
    if ps == [] then [] else ps[0] + Join(ps[1..])
  }

  lemma {:induction false} JoinSnoc(ps: seq<seq<byte>>, p: seq<byte>)
    ensures Join(ps + [p]) == Join(ps) + p
  {
    if ps == [] {
      assert [p][1..] == [] && ps + [p] == [p];
    } else {
      JoinSnoc(ps[1..], p);
      assert (ps + [p])[1..] == ps[1..] + [p];
      ConcatAssoc(ps[0], Join(ps[1..]), p);
    }
  }

  // A framing of a prefix agrees with every framing of the whole.
  lemma {:induction false} FramingAgrees(ps: seq<seq<byte>>, b: seq<byte>, qs: seq<seq<byte>>)
    requires AllFrames(ps) && AllFrames(qs) && Join(ps) + b == Join(qs)
    ensures |ps| <= |qs| && ps == qs[..|ps|] && b == Join(qs[|ps|..])
    decreases |ps|
  {
    hide Frame, Canonical;
    if ps == [] {
      assert Join(ps) + b == b && qs[0..] == qs;
    } else {
      assert IsFrame(ps[0]);
      var k, c :| Canonical(k, c) && |c| < TWO_64 && ps[0] == Frame(k, c);
      FrameNonEmpty(k, c);
      assert qs != [];
      assert IsFrame(qs[0]);
      var k', c' :| Canonical(k', c') && |c'| < TWO_64 && qs[0] == Frame(k', c');
      ConcatAssoc(ps[0], Join(ps[1..]), b);
      FrameUnique(k, c, Join(ps[1..]) + b, k', c', Join(qs[1..]));
      FramingAgrees(ps[1..], b, qs[1..]);
      assert qs[1..][|ps| - 1..] == qs[|ps|..];
      assert qs[..|ps|] == [qs[0]] + qs[1..][..|ps| - 1];
    }
  }

  lemma FrameNonEmpty(k: Kind, c: seq<byte>)
    requires Canonical(k, c)
    ensures Frame(k, c) != []
  {
  }

  // Counts n exactly when the slice is n frames one after the other.
  method CountValues(b: seq<byte>) returns (r: Result<nat>)
    ensures r.Ok? ==> exists ps :: AllFrames(ps) && |ps| == r.value && Join(ps) == b
    ensures r.Err? ==> forall ps :: AllFrames(ps) ==> Join(ps) != b
  {
    hide ReadKind, Frame, Canonical, IsFrame, Join;
    var i: nat, rest := 0, b;
    ghost var ps := [];
    JoinEmpty();
    while |rest| > 0
      invariant AllFrames(ps) && |ps| == i
      invariant b == Join(ps) + rest
    {
      match ReadKind(rest)
      case Err(e) =>
        NoFraming(ps, rest, b);
        return Err(e);
      case Ok(RawHead(k, ts, cs)) =>
        FirstFrame(rest);
        JoinSnoc(ps, rest[..ts + cs]);
        ConcatAssoc(Join(ps), rest[..ts + cs], rest[ts + cs..]);
        assert rest == rest[..ts + cs] + rest[ts + cs..];
        ps := ps + [rest[..ts + cs]];
        rest := rest[ts + cs..];
        i := i + 1;
    }
    return Ok(i);
  }

  lemma JoinEmpty()
    ensures Join([]) == []
  {
  }

  lemma FirstFrame(b: seq<byte>)
    requires ReadKind(b).Ok?
    ensures var RawHead(k, ts, cs) := ReadKind(b).value; IsFrame(b[..ts + cs])
  {
    hide ReadKind, Canonical;
    ReadKindSound(b);
    var RawHead(k, ts, cs) := ReadKind(b).value;
    assert b[..ts + cs] == Frame(k, b[ts..ts + cs]);
  }

  lemma NoFraming(ps: seq<seq<byte>>, rest: seq<byte>, b: seq<byte>)
    requires AllFrames(ps) && b == Join(ps) + rest && rest != [] && ReadKind(rest).Err?
    ensures forall qs :: AllFrames(qs) ==> Join(qs) != b
  {
    hide ReadKind, Frame, Canonical;
    forall qs | AllFrames(qs)
      ensures Join(qs) != b
    {
      if Join(qs) == b {
        FramingAgrees(ps, rest, qs);
        var q := qs[|ps|..];
        assert q != [] && q[0] == qs[|ps|];
        assert IsFrame(q[0]);
        var k, c :| Canonical(k, c) && |c| < TWO_64 && q[0] == Frame(k, c);
        ReadKindComplete(k, c, Join(q[1..]));
      }
    }
  }

  function Encodings(ts: seq<Item>): seq<seq<byte>> { seq(|ts|, i requires 0 <= i < |ts| => Rlp(ts[i])) }

  lemma {:induction false} EncodingsFrame(ts: seq<Item>)
    requires |RlpAll(ts)| < TWO_64
    ensures AllFrames(Encodings(ts)) && Join(Encodings(ts)) == RlpAll(ts)
    decreases |ts|
  {
    hide Rlp, Frame, Canonical;
    if ts != [] {
      RlpFrame(ts[0]);
      assert IsFrame(Rlp(ts[0]));
      EncodingsFrame(ts[1..]);
      assert Encodings(ts)[1..] == Encodings(ts[1..]);
      assert Encodings(ts) == [Rlp(ts[0])] + Encodings(ts[1..]);
    }
  }

  // On the payload of a list, counting gives its number of elements.
  method CountElements(ts: seq<Item>) returns (r: Result<nat>)
    requires |RlpAll(ts)| < TWO_64
    ensures r == Ok(|ts|)
  {
    hide AllFrames, Join, RlpAll;
    EncodingsFrame(ts);
    r := CountValues(RlpAll(ts));
    if r.Ok? {
      ghost var ps :| AllFrames(ps) && |ps| == r.value && Join(ps) == RlpAll(ts);
      FramingAgrees(ps, [], Encodings(ts));
      FramingAgrees(Encodings(ts), [], ps);
    }
  }

  // ----- The list iterator -----

  class ListIterator {
    var data: seq<byte>
    var next: seq<byte>
    var err: Option<Error>

    constructor (content: seq<byte>)
      ensures data == content && next == [] && err == None
    {
      data, next, err := content, [], None;
    }

    // One step: the first encoded value becomes current and the rest remains. On malformed data the
    // iterator reports an error and does not advance, so Next keeps answering true.
    method Next() returns (more: bool)
      requires |data| < TWO_64
      modifies this
      ensures more <==> old(data) != []
      ensures !more ==> data == old(data) && next == old(next) && err == old(err)
      ensures more && err.None? ==> IsFrame(next) && old(data) == next + data
      ensures more && err.Some? ==> data == old(data) && next == []
      ensures more && err.Some? ==> forall p, rest :: IsFrame(p) ==> p + rest != data
    {
      hide ReadKind, Frame, Canonical, IsFrame;
      if |data| == 0 {
        return false;
      }
      more := true;
      match ReadKind(data)
      case Err(e) =>
        NotFramed(data);
        next, err := [], Some(e);
      case Ok(RawHead(k, t, c)) =>
        FirstFrame(data);
        next, data, err := data[..t + c], data[t + c..], None;
    }
  }

  lemma NotFramed(b: seq<byte>)
    requires ReadKind(b).Err?
    ensures forall p, rest :: IsFrame(p) ==> p + rest != b
  {
    hide ReadKind, Frame, Canonical;
    forall p, rest | IsFrame(p)
      ensures p + rest != b
    {
      var k, c :| Canonical(k, c) && |c| < TWO_64 && p == Frame(k, c);
      ReadKindComplete(k, c, rest);
    }
  }

  method NewListIterator(data: seq<byte>) returns (r: Result<ListIterator>)
    requires |data| < TWO_64
    ensures r.Ok? <==> SplitList(data).Ok?
    ensures r.Ok? ==> fresh(r.value) && r.value.data == SplitList(data).value.0
    ensures r.Err? ==> r.error == SplitList(data).error
  {
    match ReadKind(data)
    case Err(e) => r := Err(e);
    case Ok(RawHead(k, t, c)) =>
      if k != List {
        return Err(ErrExpectedList);
      }
      var it := new ListIterator(data[t..t + c]);
      r := Ok(it);
  }

  // Iterating over the encoding of a list yields the encodings of its elements, in order, and then ends.
  method Iterate(ts: seq<Item>) returns (values: seq<seq<byte>>)
    requires |Rlp(Lst(ts))| < TWO_64
    ensures values == Encodings(ts)
  {
    hide Rlp, RlpAll, Split, IsFrame;
    var b := Rlp(Lst(ts));
    assert b + [] == b;
    SplitItem(Lst(ts), []);
    RlpFrame(Lst(ts));
    var r := NewListIterator(b);
    var it := r.value;
    values := [];
    var more := true;
    ghost var i := 0;
    assert ts[0..] == ts;
    while more
      invariant 0 <= i <= |ts| && it.data == RlpAll(ts[i..]) && |it.data| < TWO_64
      invariant values == Encodings(ts)[..i]
      invariant !more ==> i == |ts|
      decreases |ts| - i, more
    {
      ElementsLeft(ts, i);
      more := it.Next();
      if more {
        NextElement(ts, i, it.next, it.data, it.err);
        values := values + [it.next];
        i := i + 1;
      }
    }
  }

  // What a caller of Next sees: the end, a value, or an error.
  datatype Answer = End | Value(bytes: seq<byte>) | Failure

  // Nothing at the front of these bytes is a frame.
  ghost predicate Unframed(b: seq<byte>) { b != [] && forall p, rest :: IsFrame(p) ==> p + rest != b }

  // Any number of calls of Next on any data that is cut into frames and a rest: the frames in order, and then
  // the end if there is no rest, and the same error for ever if there is one that starts with no frame.
  method Calls(data: seq<byte>, n: nat, ghost ps: seq<seq<byte>>, ghost rest: seq<byte>) returns (trace: seq<Answer>)
    requires |data| < TWO_64 && AllFrames(ps) && data == Join(ps) + rest && (rest == [] || Unframed(rest))
    ensures |trace| == n
    ensures forall k :: 0 <= k < n ==>
              trace[k] == if k < |ps| then Value(ps[k]) else if rest == [] then End else Failure
  {
    hide IsFrame, Join, Unframed;
    var it := new ListIterator(data);
    trace := [];
    assert ps[0..] == ps;
    while |trace| < n
      invariant |trace| <= n && |it.data| < TWO_64
      invariant it.data == if |trace| <= |ps| then Join(ps[|trace|..]) + rest else rest
      invariant forall k :: 0 <= k < |trace| ==>
                  trace[k] == if k < |ps| then Value(ps[k]) else if rest == [] then End else Failure
    {
      ghost var k := |trace|;
      OneCall(ps, rest, k);
      var more := it.Next();
      if k < |ps| {
        FirstIs(ps[k], Join(ps[k + 1..]) + rest, it.next, it.data, it.err);
      }
      trace := trace + [if !more then End else if it.err.None? then Value(it.next) else Failure];
    }
  }

  // What is ahead at the k-th call.
  lemma OneCall(ps: seq<seq<byte>>, rest: seq<byte>, k: nat)
    requires AllFrames(ps) && (rest == [] || Unframed(rest))
    ensures k < |ps| ==> IsFrame(ps[k]) && ps[k] != [] && Join(ps[k..]) + rest == ps[k] + (Join(ps[k + 1..]) + rest)
    ensures k == |ps| ==> Join(ps[k..]) + rest == rest
    ensures rest != [] ==> forall p, q :: IsFrame(p) ==> p + q != rest
  {
    hide Frame, Canonical;
    if k < |ps| {
      assert IsFrame(ps[k]);
      var kind, c :| Canonical(kind, c) && |c| < TWO_64 && ps[k] == Frame(kind, c);
      FrameNonEmpty(kind, c);
      assert ps[k..][1..] == ps[k + 1..];
      ConcatAssoc(ps[k], Join(ps[k + 1..]), rest);
    }
  }

  // The frame at the front is the one that Next takes off.
  lemma FirstIs(p: seq<byte>, rest: seq<byte>, next: seq<byte>, data: seq<byte>, err: Option<Error>)
    requires IsFrame(p)
    requires err.None? ==> IsFrame(next) && p + rest == next + data
    requires err.Some? ==> forall q, r :: IsFrame(q) ==> q + r != p + rest
    ensures err.None? && next == p && data == rest
  {
    hide Frame, Canonical;
    assert IsFrame(p) && p + rest == p + rest;
    if err.None? {
      var k, c :| Canonical(k, c) && |c| < TWO_64 && p == Frame(k, c);
      var k', c' :| Canonical(k', c') && |c'| < TWO_64 && next == Frame(k', c');
      FrameUnique(k, c, rest, k', c', data);
    }
  }

  // Every slice is frames and a rest.
  lemma Cut(b: seq<byte>) returns (ps: seq<seq<byte>>, rest: seq<byte>)
    ensures AllFrames(ps) && b == Join(ps) + rest && (rest == [] || Unframed(rest))
    decreases |b|
  {
    hide ReadKind, Frame, Canonical, IsFrame, Join;
    JoinEmpty();
    if b == [] || ReadKind(b).Err? {
      ps, rest := [], b;
      if b != [] {
        NotFramed(b);
      }
    } else {
      var RawHead(k, ts, cs) := ReadKind(b).value;
      FirstFrame(b);
      ps, rest := Cut(b[ts + cs..]);
      JoinCons(b[..ts + cs], ps);
      ConcatAssoc(b[..ts + cs], Join(ps), rest);
      assert b == b[..ts + cs] + b[ts + cs..];
      ps := [b[..ts + cs]] + ps;
    }
  }

  lemma JoinCons(p: seq<byte>, ps: seq<seq<byte>>)
    ensures Join([p] + ps) == p + Join(ps)
  {
    assert ([p] + ps)[1..] == ps;
  }

  // The loop over Next ends, with the frames of the data in order, exactly if the data is a sequence of frames,
  // which CountValues decides. Otherwise it never ends: from the first error on, every call gives the error.
  method Iteration(data: seq<byte>, n: nat) returns (count: Result<nat>, trace: seq<Answer>)
    requires |data| < TWO_64
    ensures |trace| == n
    ensures count.Ok? ==> exists ps ::
              && AllFrames(ps) && Join(ps) == data && |ps| == count.value
              && forall k :: 0 <= k < n ==> trace[k] == if k < |ps| then Value(ps[k]) else End
    ensures count.Err? ==> exists ps, rest ::
              && AllFrames(ps) && Unframed(rest) && Join(ps) + rest == data
              && forall k :: 0 <= k < n ==> trace[k] == if k < |ps| then Value(ps[k]) else Failure
  {
    hide AllFrames, Join, Unframed;
    ghost var ps, rest := Cut(data);
    count := CountValues(data);
    trace := Calls(data, n, ps, rest);
    if count.Ok? {
      ghost var qs :| AllFrames(qs) && |qs| == count.value && Join(qs) == data;
      Whole(ps, rest, qs);
    }
    assert Join(ps) + [] == Join(ps);
  }

  lemma Whole(ps: seq<seq<byte>>, rest: seq<byte>, qs: seq<seq<byte>>)
    requires AllFrames(ps) && AllFrames(qs) && Join(ps) + rest == Join(qs) && (rest == [] || Unframed(rest))
    ensures ps == qs && rest == []
  {
    hide Frame, Canonical, IsFrame;
    FramingAgrees(ps, rest, qs);
    var q := qs[|ps|..];
    if q != [] {
      assert q[0] == qs[|ps|] && IsFrame(q[0]);
      assert rest == q[0] + Join(q[1..]);
      FrameIsNonEmpty(q[0]);
    }
  }

  lemma FrameIsNonEmpty(p: seq<byte>)
    requires IsFrame(p)
    ensures p != []
  {
    var k, c :| Canonical(k, c) && |c| < TWO_64 && p == Frame(k, c);
    FrameNonEmpty(k, c);
  }

  // A payload on which it does not end: a string header without its content.
  method Malformed(n: nat) returns (trace: seq<Answer>)
    ensures |trace| == n && forall k :: 0 <= k < n ==> trace[k] == Failure
  {
    NotFramed([0x81]);
    trace := Calls([0x81], n, [], [0x81]);
  }

  lemma ElementsLeft(ts: seq<Item>, i: nat)
    requires i <= |ts|
    ensures RlpAll(ts[i..]) == [] <==> i == |ts|
    ensures i < |ts| ==> RlpAll(ts[i..]) == Rlp(ts[i]) + RlpAll(ts[i + 1..])
  {
  }

  lemma NextElement(ts: seq<Item>, i: nat, next: seq<byte>, data: seq<byte>, err: Option<Error>)
    requires i < |ts| && |RlpAll(ts[i..])| < TWO_64
    requires err.None? ==> IsFrame(next) && RlpAll(ts[i..]) == next + data
    requires err.Some? ==> forall p, rest :: IsFrame(p) ==> p + rest != RlpAll(ts[i..])
    ensures err.None? && next == Rlp(ts[i]) && data == RlpAll(ts[i + 1..])
  {
    hide Rlp, Frame, Canonical, RlpAll;
    ElementsLeft(ts, i);
    RlpFrame(ts[i]);
    assert IsFrame(Rlp(ts[i]));
    if err.None? {
      var k, c :| Canonical(k, c) && |c| < TWO_64 && next == Frame(k, c);
      FrameUnique(k, c, data, KindOf(ts[i]), Content(ts[i]), RlpAll(ts[i + 1..]));
    }
  }
}
