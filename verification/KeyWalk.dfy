/** Scans over a sorted table that keep to a prefix of bits: `Walk` of ethdb/kv_util.go and the split cursor of
    ethdb/walk.go.
 */
module KeyWalks {
  import opened Words
  import opened Lex

  datatype Entry = Entry(key: Bytes, value: Bytes)

  // ----- Bits -----

  function And(x: bv8, m: bv8): bv8 { x & m }

  // A single bit, the most significant one first.
  function BitMask(j: nat): bv8
    requires j < 8
  {
    if j == 0 then 0x80 else if j == 1 then 0x40 else if j == 2 then 0x20 else if j == 3 then 0x10
    else if j == 4 then 0x08 else if j == 5 then 0x04 else if j == 6 then 0x02 else 0x01
  }

  predicate Bit(x: bv8, j: nat)
    requires j < 8
  {
    And(x, BitMask(j)) != 0
  }

  // The number of bytes that hold some number of bits, and the mask of the last of them.
  function FixedBytes(bits: nat): nat { (bits + 7) / 8 }

  function Mask(bits: nat): bv8 {
    var shift := bits % 8;
    if shift == 0 then 0xff else (0xff as bv8) << (8 - shift)
  }

  // The leading r bits.
  function Leading(r: nat): bv8
    requires r <= 8
  {
    if r == 0 then 0x00 else if r == 1 then 0x80 else if r == 2 then 0xc0 else if r == 3 then 0xe0
    else if r == 4 then 0xf0 else if r == 5 then 0xf8 else if r == 6 then 0xfc else if r == 7 then 0xfe else 0xff
  }

  lemma Absorb(x: bv8, m: bv8, b: bv8)
    ensures And(And(x, m | b), m) == And(x, m) && And(And(x, m | b), b) == And(x, b)
  {
  }

  lemma Distribute(x: bv8, m: bv8, b: bv8)
    ensures And(x, m | b) == And(x, m) | And(x, b)
  {
  }

  lemma Union(x: bv8, y: bv8, m: bv8, b: bv8)
    ensures And(x, m | b) == And(y, m | b) <==> And(x, m) == And(y, m) && And(x, b) == And(y, b)
  {
    hide And;
    Absorb(x, m, b);
    Absorb(y, m, b);
    Distribute(x, m, b);
    Distribute(y, m, b);
  }

  lemma OneBit(x: bv8, y: bv8, b: bv8)
    requires And(b, b - 1) == 0
    ensures And(x, b) == And(y, b) <==> (And(x, b) != 0) == (And(y, b) != 0)
  {
  }

  lemma LeadingNext(r: nat)
    requires r < 8
    ensures Leading(r + 1) == Leading(r) | BitMask(r) && And(BitMask(r), BitMask(r) - 1) == 0
  {
  }

  lemma Nothing(x: bv8, y: bv8)
    ensures And(x, 0) == And(y, 0)
  {
  }

  // Two bytes agree under the mask exactly if they agree in each of the leading bits.
  lemma {:induction false} LeadingBits(x: bv8, y: bv8, r: nat)
    requires r <= 8
    ensures And(x, Leading(r)) == And(y, Leading(r)) <==> forall j :: 0 <= j < r ==> Bit(x, j) == Bit(y, j)
  {
    if r == 0 {
      Nothing(x, y);
    } else {
      hide Leading, BitMask, And;
      LeadingBits(x, y, r - 1);
      LeadingNext(r - 1);
      Union(x, y, Leading(r - 1), BitMask(r - 1));
      OneBit(x, y, BitMask(r - 1));
      assert And(x, Leading(r)) == And(y, Leading(r))
        <==> (forall j :: 0 <= j < r - 1 ==> Bit(x, j) == Bit(y, j)) && Bit(x, r - 1) == Bit(y, r - 1);
    }
  }

  function LastBits(bits: nat): nat { if bits % 8 == 0 then 8 else bits % 8 }

  lemma MaskLeading(bits: nat)
    ensures Mask(bits) == Leading(LastBits(bits))
  {
  }

  // What lies between two bytes that agree in their leading bits agrees with them.
  lemma LeadingBetween(a: bv8, b: bv8, c: bv8, r: nat)
    requires r <= 8 && a <= b <= c && And(a, Leading(r)) == And(c, Leading(r))
    ensures And(b, Leading(r)) == And(a, Leading(r))
  {
  }

  lemma ByteBits(x: bv8, y: bv8)
    ensures x == y <==> forall j :: 0 <= j < 8 ==> Bit(x, j) == Bit(y, j)
  {
    LeadingBits(x, y, 8);
    assert And(x, Leading(8)) == x && And(y, Leading(8)) == y;
  }

  // ----- Keys with a common prefix of bits -----

  // The test of the source.
  predicate Matches(k: Bytes, s: Bytes, bits: nat)
    requires |s| >= FixedBytes(bits)
  {
    var n := FixedBytes(bits);
    && |k| >= n
    && (bits == 0 || (k[..n - 1] == s[..n - 1] && And(k[n - 1], Mask(bits)) == And(s[n - 1], Mask(bits))))
  }

  // The meaning of the test.
  ghost predicate SharesBits(k: Bytes, s: Bytes, bits: nat)
    requires |s| >= FixedBytes(bits)
  {
    |k| >= FixedBytes(bits) && forall i :: 0 <= i < bits ==> Bit(k[i / 8], i % 8) == Bit(s[i / 8], i % 8)
  }

  lemma MatchesShares(k: Bytes, s: Bytes, bits: nat)
    requires |s| >= FixedBytes(bits)
    ensures Matches(k, s, bits) <==> SharesBits(k, s, bits)
  {
    if bits > 0 && |k| >= FixedBytes(bits) {
      if Matches(k, s, bits) {
        MatchShares(k, s, bits);
      }
      if SharesBits(k, s, bits) {
        SharesMatch(k, s, bits);
      }
    }
  }

  lemma MatchShares(k: Bytes, s: Bytes, bits: nat)
    requires |s| >= FixedBytes(bits) && bits > 0 && Matches(k, s, bits)
    ensures SharesBits(k, s, bits)
  {
    var n := FixedBytes(bits);
    MaskLeading(bits);
    LeadingBits(k[n - 1], s[n - 1], LastBits(bits));
    hide Bit, And, Mask, Leading;
    forall i | 0 <= i < bits
      ensures Bit(k[i / 8], i % 8) == Bit(s[i / 8], i % 8)
    {
      if i / 8 < n - 1 {
        assert k[..n - 1][i / 8] == s[..n - 1][i / 8];
      }
    }
  }

  lemma SharesMatch(k: Bytes, s: Bytes, bits: nat)
    requires |s| >= FixedBytes(bits) && bits > 0 && SharesBits(k, s, bits)
    ensures Matches(k, s, bits)
  {
    var n := FixedBytes(bits);
    MaskLeading(bits);
    hide Bit, And, Mask, Leading;
    forall b | 0 <= b < n - 1
      ensures k[b] == s[b]
    {
      forall j | 0 <= j < 8
        ensures Bit(k[b], j) == Bit(s[b], j)
      {
        var i := 8 * b + j;
        assert Bit(k[i / 8], i % 8) == Bit(s[i / 8], i % 8);
      }
      ByteBits(k[b], s[b]);
    }
    var x, y := k[n - 1], s[n - 1];
    forall j | 0 <= j < LastBits(bits)
      ensures Bit(x, j) == Bit(y, j)
    {
      var i := 8 * (n - 1) + j;
      assert Bit(k[i / 8], i % 8) == Bit(s[i / 8], i % 8);
    }
    LeadingBits(x, y, LastBits(bits));
  }

  lemma MatchesTail(k: Bytes, s: Bytes, bits: nat)
    requires |s| >= FixedBytes(bits) && bits > 8 && k != []
    ensures Matches(k, s, bits) <==> k[0] == s[0] && Matches(k[1..], s[1..], bits - 8)
  {
    ByteLess(bits);
    hide And, Mask, FixedBytes;
    var n := FixedBytes(bits);
    if |k| >= n {
      assert k[..n - 1] == [k[0]] + k[1..][..n - 2];
      assert s[..n - 1] == [s[0]] + s[1..][..n - 2];
      assert k[1..][n - 2] == k[n - 1] && s[1..][n - 2] == s[n - 1];
    }
  }

  lemma ByteLess(bits: nat)
    requires bits > 8
    ensures Mask(bits - 8) == Mask(bits) && FixedBytes(bits - 8) == FixedBytes(bits) - 1 >= 1
  {
    hide Mask;
    MaskSame(bits - 8, bits);
  }

  lemma MaskSame(a: nat, b: nat)
    requires a % 8 == b % 8
    ensures Mask(a) == Mask(b)
  {
  }

  lemma MatchesByte(k: Bytes, s: Bytes, bits: nat)
    requires 0 < bits <= 8 && s != [] && k != []
    ensures Matches(k, s, bits) <==> And(k[0], Leading(LastBits(bits))) == And(s[0], Leading(LastBits(bits)))
  {
    MaskLeading(bits);
    hide And, Leading, Mask;
  }

  lemma LessEqTail(a: Bytes, b: Bytes)
    requires LessEq(a, b) && a != []
    ensures b != [] && a[0] <= b[0] && (a[0] == b[0] ==> LessEq(a[1..], b[1..]))
  {
  }

  // A key between the start key and a matching one matches: after a mismatch or a short key nothing matches.
  lemma {:induction false} Squeeze(s: Bytes, k: Bytes, k': Bytes, bits: nat)
    requires |s| >= FixedBytes(bits) && LessEq(s, k) && LessEq(k, k') && Matches(k', s, bits)
    ensures Matches(k, s, bits)
    decreases bits
  {
    if bits > 0 {
      LessEqTail(s, k);
      LessEqTail(k, k');
      hide And, Leading, Less, LessEq, Matches;
      if bits <= 8 {
        MatchesByte(k', s, bits);
        MatchesByte(k, s, bits);
        LeadingBetween(s[0], k[0], k'[0], LastBits(bits));
      } else {
        MatchesTail(k', s, bits);
        MatchesTail(k, s, bits);
        Squeeze(s[1..], k[1..], k'[1..], bits - 8);
      }
    }
  }

  // ----- The keys to visit -----

  ghost predicate Sorted(t: seq<Entry>) {
    forall i, j :: 0 <= i < j < |t| ==> LessEq(t[i].key, t[j].key)
  }

  // In the order of the table, the entries from the start key on that share its first bits.
  ghost function Matching(t: seq<Entry>, s: Bytes, bits: nat): seq<Entry>
    requires |s| >= FixedBytes(bits)
  {
    if t == [] then []
    else (if LessEq(s, t[0].key) && SharesBits(t[0].key, s, bits) then [t[0]] else []) + Matching(t[1..], s, bits)
  }

  // Entries below the start key do not count.
  lemma {:induction false} Below(t: seq<Entry>, s: Bytes, bits: nat, p: nat)
    requires |s| >= FixedBytes(bits) && p <= |t| && forall i :: 0 <= i < p ==> Less(t[i].key, s)
    ensures Matching(t, s, bits) == Matching(t[p..], s, bits)
    decreases p
  {
    if p == 0 {
      assert t[0..] == t;
    } else {
      Trichotomy(t[0].key, s);
      Below(t[1..], s, bits, p - 1);
      assert t[1..][p - 1..] == t[p..];
    }
  }

  lemma Visit(t: seq<Entry>, s: Bytes, bits: nat, p: nat)
    requires |s| >= FixedBytes(bits) && p < |t| && LessEq(s, t[p].key) && Matches(t[p].key, s, bits)
    ensures Matching(t[p..], s, bits) == [t[p]] + Matching(t[p + 1..], s, bits)
  {
    MatchesShares(t[p].key, s, bits);
    assert t[p..][1..] == t[p + 1..];
  }

  // After the first entry that does not match, nothing matches.
  lemma {:induction false} Done(t: seq<Entry>, s: Bytes, bits: nat, p: nat, q: nat)
    requires |s| >= FixedBytes(bits) && Sorted(t) && p <= q <= |t|
    requires p < |t| ==> LessEq(s, t[p].key) && !Matches(t[p].key, s, bits)
    ensures Matching(t[q..], s, bits) == []
    decreases |t| - q
  {
    if q < |t| {
      Done(t, s, bits, p, q + 1);
      assert t[q..][1..] == t[q + 1..];
      MatchesShares(t[q].key, s, bits);
      if Matches(t[q].key, s, bits) {
        Squeeze(s, t[p].key, t[q].key, bits);
      }
    }
  }

  // ----- Cursors -----

  // A database cursor on a sorted table. `broken` says which of its operations fail.
  class Cursor {
    const table: seq<Entry>
    const broken: nat -> bool
    var pos: nat
    var ops: nat

    constructor (table: seq<Entry>, broken: nat -> bool)
      ensures this.table == table && this.broken == broken && pos == 0
    {
      this.table, this.broken, pos, ops := table, broken, 0, 0;
    }

    // To the first entry whose key is not below k.
    method Seek(k: Bytes) returns (failed: bool)
      modifies this
      ensures failed == broken(old(ops)) && ops == old(ops) + 1
      ensures !failed ==> pos <= |table| && (forall i :: 0 <= i < pos ==> Less(table[i].key, k))
      ensures !failed && pos < |table| ==> LessEq(k, table[pos].key)
    {
      ops := ops + 1;
      if broken(ops - 1) {
        return true;
      }
      failed := false;
      pos := 0;
      while pos < |table| && Less(table[pos].key, k)
        invariant pos <= |table| && forall i :: 0 <= i < pos ==> Less(table[i].key, k)
        invariant ops == old(ops) + 1
        decreases |table| - pos
      {
        pos := pos + 1;
      }
      if pos < |table| {
        Trichotomy(table[pos].key, k);
      }
    }

    method Next() returns (failed: bool)
      modifies this
      ensures failed == broken(old(ops)) && ops == old(ops) + 1
      ensures pos == if failed then old(pos) else Min(old(pos) + 1, Max(|table|, old(pos)))
    {
      ops := ops + 1;
      if broken(ops - 1) {
        return true;
      }
      failed := false;
      if pos < |table| {
        pos := pos + 1;
      }
    }
  }

  // ----- Walk -----

  datatype Answer = Continue | Stop | Fail

  datatype WalkError = CursorError | WalkerError

  // The walker has asked for more after each of the entries.
  ghost predicate Going(walker: seq<Entry> -> Answer, shown: seq<Entry>) {
    forall i {:trigger shown[..i]} :: 0 < i <= |shown| ==> walker(shown[..i]).Continue?
  }

  // The walker was shown a beginning of the entries, and asked for more after each but the last.
  ghost predicate Shows(walker: seq<Entry> -> Answer, es: seq<Entry>, shown: seq<Entry>) {
    shown <= es && (shown == [] || Going(walker, shown[..|shown| - 1]))
  }

  // Without an error all entries were shown, or the walker stopped; its own error is passed on.
  ghost predicate Ends(walker: seq<Entry> -> Answer, es: seq<Entry>, shown: seq<Entry>, err: Option<WalkError>) {
    && Shows(walker, es, shown)
    && (err.None? ==> shown == es || (shown != [] && walker(shown).Stop?))
    && (err == Some(WalkerError) <==> shown != [] && walker(shown).Fail?)
  }

  lemma ShowsSnoc(walker: seq<Entry> -> Answer, es: seq<Entry>, shown: seq<Entry>, e: Entry)
    requires Going(walker, shown) && shown + [e] <= es
    ensures Shows(walker, es, shown + [e])
  {
  }

  lemma GoingSnoc(walker: seq<Entry> -> Answer, shown: seq<Entry>, e: Entry)
    requires Going(walker, shown)
    ensures walker(shown + [e]).Continue? <==> Going(walker, shown + [e])
  {
    assert shown[..|shown|] == shown;
    var s' := shown + [e];
    assert s'[..|s'|] == s';
    if walker(s').Continue? {
      forall i {:trigger s'[..i]} | 0 < i <= |s'|
        ensures walker(s'[..i]).Continue?
      {
        assert i <= |shown| ==> s'[..i] == shown[..i];
      }
    }
  }

  // The walker is any function of the entries that it has been shown. `shown` are the calls to it.
  method Walk(c: Cursor, s: Bytes, bits: nat, walker: seq<Entry> -> Answer) returns (err: Option<WalkError>, shown: seq<Entry>)
    requires Sorted(c.table) && |s| >= FixedBytes(bits)
    modifies c
    ensures Ends(walker, Matching(c.table, s, bits), shown, err)
    ensures err == Some(CursorError) ==> c.ops > 0 && c.broken(c.ops - 1)
  {
    hide Matches, LessEq, Less, Matching, Going, Ends, Sorted, FixedBytes, Progress;
    shown := [];
    NothingShown(walker, Matching(c.table, s, bits));
    var failed := c.Seek(s);
    if failed {
      return Some(CursorError), shown;
    }
    Started(c.table, s, bits, c.pos);
    while c.pos < |c.table| && Matches(c.table[c.pos].key, s, bits)
      invariant c.pos <= |c.table| && (c.pos < |c.table| ==> LessEq(s, c.table[c.pos].key))
      invariant Progress(c.table, s, bits, c.pos, shown) && Going(walker, shown)
      decreases |c.table| - c.pos
    {
      Turn(c.table, s, bits, c.pos, walker, shown);
      shown := shown + [c.table[c.pos]];
      var answer := walker(shown);
      if answer.Fail? {
        return Some(WalkerError), shown;
      }
      if answer.Stop? {
        return None, shown;
      }
      failed := c.Next();
      if failed {
        return Some(CursorError), shown;
      }
    }
    EndOfTable(c.table, s, bits, c.pos, walker, shown);
    err := None;
  }

  lemma NothingShown(walker: seq<Entry> -> Answer, es: seq<Entry>)
    ensures Going(walker, []) && Ends(walker, es, [], Some(CursorError))
  {
  }

  // What was shown and what is still to come make up the matching entries.
  ghost predicate Progress(t: seq<Entry>, s: Bytes, bits: nat, p: nat, shown: seq<Entry>)
    requires |s| >= FixedBytes(bits) && p <= |t|
  {
    shown + Matching(t[p..], s, bits) == Matching(t, s, bits)
  }

  lemma Started(t: seq<Entry>, s: Bytes, bits: nat, p: nat)
    requires |s| >= FixedBytes(bits) && p <= |t| && forall i :: 0 <= i < p ==> Less(t[i].key, s)
    ensures Progress(t, s, bits, p, [])
  {
    Below(t, s, bits, p);
  }

  lemma Append<T>(a: seq<T>, x: T, rest: seq<T>)
    ensures (a + [x]) + rest == a + ([x] + rest) && a + [x] <= a + ([x] + rest)
  {
  }

  lemma Shown(t: seq<Entry>, s: Bytes, bits: nat, p: nat, shown: seq<Entry>)
    requires |s| >= FixedBytes(bits) && Sorted(t) && p < |t| && Progress(t, s, bits, p, shown)
    requires LessEq(s, t[p].key) && Matches(t[p].key, s, bits)
    ensures Progress(t, s, bits, p + 1, shown + [t[p]]) && shown + [t[p]] <= Matching(t, s, bits)
    ensures p + 1 < |t| ==> LessEq(s, t[p + 1].key)
  {
    hide Matching, LessEq, Matches, Sorted;
    Visit(t, s, bits, p);
    StepUp(t, s, p);
    Append(shown, t[p], Matching(t[p + 1..], s, bits));
  }

  lemma Turn(t: seq<Entry>, s: Bytes, bits: nat, p: nat, walker: seq<Entry> -> Answer, shown: seq<Entry>)
    requires |s| >= FixedBytes(bits) && Sorted(t) && p < |t| && Progress(t, s, bits, p, shown) && Going(walker, shown)
    requires LessEq(s, t[p].key) && Matches(t[p].key, s, bits)
    ensures Progress(t, s, bits, p + 1, shown + [t[p]]) && (p + 1 < |t| ==> LessEq(s, t[p + 1].key))
    ensures walker(shown + [t[p]]).Continue? <==> Going(walker, shown + [t[p]])
    ensures Ends(walker, Matching(t, s, bits), shown + [t[p]],
                 match walker(shown + [t[p]]) case Continue => Some(CursorError) case Stop => None case Fail => Some(WalkerError))
  {
    hide Matching, LessEq, Matches, Sorted, Going, Progress, Shows;
    Shown(t, s, bits, p, shown);
    GoingSnoc(walker, shown, t[p]);
    ShowsSnoc(walker, Matching(t, s, bits), shown, t[p]);
  }

  lemma EndOfTable(t: seq<Entry>, s: Bytes, bits: nat, p: nat, walker: seq<Entry> -> Answer, shown: seq<Entry>)
    requires |s| >= FixedBytes(bits) && Sorted(t) && p <= |t| && Progress(t, s, bits, p, shown) && Going(walker, shown)
    requires p < |t| ==> LessEq(s, t[p].key) && !Matches(t[p].key, s, bits)
    ensures Ends(walker, Matching(t, s, bits), shown, None)
  {
    Finished(t, s, bits, p, shown);
    Asked(walker, shown);
  }

  lemma Finished(t: seq<Entry>, s: Bytes, bits: nat, p: nat, shown: seq<Entry>)
    requires |s| >= FixedBytes(bits) && Sorted(t) && p <= |t| && Progress(t, s, bits, p, shown)
    requires p < |t| ==> LessEq(s, t[p].key) && !Matches(t[p].key, s, bits)
    ensures shown == Matching(t, s, bits)
  {
    Done(t, s, bits, p, p);
  }

  lemma Asked(walker: seq<Entry> -> Answer, shown: seq<Entry>)
    requires Going(walker, shown)
    ensures Shows(walker, shown, shown) && (shown == [] || walker(shown).Continue?)
  {
    assert shown[..|shown|] == shown;
    if shown != [] {
      var s' := shown[..|shown| - 1];
      assert forall i :: 0 < i <= |s'| ==> s'[..i] == shown[..i];
    }
  }

  lemma StepUp(t: seq<Entry>, s: Bytes, p: nat)
    requires Sorted(t) && p < |t| && LessEq(s, t[p].key)
    ensures p + 1 < |t| ==> LessEq(s, t[p + 1].key)
  {
    if p + 1 < |t| && s != t[p].key && t[p].key != t[p + 1].key {
      Transitive(s, t[p].key, t[p + 1].key);
    }
  }

  // ----- The split cursor -----

  datatype Parts = Parts(key1: Bytes, key2: Bytes, key3: Bytes, value: Bytes)

  class SplitCursor {
    const c: Cursor
    const startkey: Bytes
    const bits: nat
    const part1end: nat
    const part2start: nat
    const part3start: nat

    // What the callers of the source see to: the start key and every matching key are long enough.
    ghost predicate Fit() {
      && Sorted(c.table) && |startkey| >= FixedBytes(bits) && part2start <= part3start
      && forall e <- c.table :: Matches(e.key, startkey, bits) ==> part1end <= |e.key| && part3start <= |e.key|
    }

    constructor (c: Cursor, startkey: Bytes, bits: nat, part1end: nat, part2start: nat, part3start: nat)
      ensures this.c == c && this.startkey == startkey && this.bits == bits
      ensures this.part1end == part1end && this.part2start == part2start && this.part3start == part3start
    {
      this.c, this.startkey, this.bits := c, startkey, bits;
      this.part1end, this.part2start, this.part3start := part1end, part2start, part3start;
    }

    function Split(e: Entry): Parts
      requires part1end <= |e.key| && part2start <= part3start <= |e.key|
    {
      Parts(e.key[..part1end], e.key[part2start..part3start], e.key[part3start..], e.value)
    }

    // The parts have the lengths of the three ranges, and make up the key if the first two ranges meet.
    lemma SplitParts(e: Entry)
      requires part1end <= |e.key| && part2start <= part3start <= |e.key|
      ensures var p := Split(e);
              && |p.key1| == part1end && |p.key2| == part3start - part2start && |p.key3| == |e.key| - part3start
              && p.key1 <= e.key && p.value == e.value && e.key[..part2start] + p.key2 + p.key3 == e.key
              && (part1end == part2start ==> p.key1 + p.key2 + p.key3 == e.key)
    {
      assert e.key[..part2start] + e.key[part2start..part3start] == e.key[..part3start];
    }

    // The parts of the entry under the cursor, if it matches.
    function Current(): Option<Parts>
      requires Fit()
      reads c
    {
      if c.pos < |c.table| && Matches(c.table[c.pos].key, startkey, bits) then
        assert c.table[c.pos] in c.table;
        Some(Split(c.table[c.pos]))
      else None
    }

    method Seek() returns (failed: bool, parts: Option<Parts>)
      requires Fit()
      modifies c
      ensures failed == c.broken(old(c.ops))
      ensures !failed ==> c.pos <= |c.table| && (forall i :: 0 <= i < c.pos ==> Less(c.table[i].key, startkey))
      ensures !failed && c.pos < |c.table| ==> LessEq(startkey, c.table[c.pos].key)
      ensures parts == if failed then None else Current()
    {
      hide Less, LessEq, Matches, Sorted;
      failed := c.Seek(startkey);
      parts := if failed then None else Current();
    }

    method Next() returns (failed: bool, parts: Option<Parts>)
      requires Fit()
      modifies c
      ensures failed == c.broken(old(c.ops))
      ensures !failed ==> c.pos == if old(c.pos) < |c.table| then old(c.pos) + 1 else old(c.pos)
      ensures parts == if failed then None else Current()
    {
      hide Less, LessEq, Matches, Sorted;
      failed := c.Next();
      parts := if failed then None else Current();
    }
  }

  ghost function SplitAll(sc: SplitCursor, es: seq<Entry>): seq<Parts>
    requires sc.Fit() && forall e <- es :: e in sc.c.table && Matches(e.key, sc.startkey, sc.bits)
  {
    seq(|es|, i requires 0 <= i < |es| => assert es[i] in es; sc.Split(es[i]))
  }

  lemma {:induction false} MatchingFrom(t: seq<Entry>, s: Bytes, bits: nat)
    requires |s| >= FixedBytes(bits)
    ensures forall e <- Matching(t, s, bits) :: e in t && Matches(e.key, s, bits)
    decreases t
  {
    if t != [] {
      MatchesShares(t[0].key, s, bits);
      MatchingFrom(t[1..], s, bits);
    }
  }

  // Seek and then Next until there is nothing: the parts of exactly the entries that Walk shows.
  method Collect(sc: SplitCursor) returns (failed: bool, all: seq<Parts>, ghost seen: seq<Entry>)
    requires sc.Fit()
    modifies sc.c
    ensures seen <= Matching(sc.c.table, sc.startkey, sc.bits) && |all| == |seen|
    ensures forall e <- seen :: e in sc.c.table && Matches(e.key, sc.startkey, sc.bits)
    ensures all == SplitAll(sc, seen)
    ensures !failed ==> seen == Matching(sc.c.table, sc.startkey, sc.bits)
  {
    hide Matches, LessEq, Less, Matching, Sorted, FixedBytes, Progress;
    all, seen := [], [];
    ghost var t, s, bits := sc.c.table, sc.startkey, sc.bits;
    var parts;
    failed, parts := sc.Seek();
    if failed {
      return;
    }
    Started(t, s, bits, sc.c.pos);
    MatchingFrom(t, s, bits);
    while parts.Some?
      invariant sc.c.pos <= |t| && (sc.c.pos < |t| ==> LessEq(s, t[sc.c.pos].key))
      invariant parts == sc.Current() && !failed
      invariant Progress(t, s, bits, sc.c.pos, seen)
      invariant forall e <- seen :: e in t && Matches(e.key, s, bits)
      invariant all == SplitAll(sc, seen)
      decreases |t| - sc.c.pos
    {
      Shown(t, s, bits, sc.c.pos, seen);
      all, seen := all + [parts.value], seen + [t[sc.c.pos]];
      failed, parts := sc.Next();
      if failed {
        return;
      }
    }
    Finished(t, s, bits, sc.c.pos, seen);
  }
}
