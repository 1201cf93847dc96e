/** A CRC register, one bit at a time, and the same register a byte at a time by table.
    The circuit is any that obeys the laws below, so that the proofs look into neither the
    polynomial nor the sum of words. */
module CrcTheory {
  datatype Circuit = Circuit(
    step: bv32 -> bv32,             // one step of the register
    add: (bv32, bv32) -> bv32,      // the sum of two words
    entry: bv8 -> bv32,             // the table
    index: (bv32, bv8) -> bv8)      // where the table is looked up

  ghost predicate AssocAt(m: Circuit, a: bv32, b: bv32, c: bv32)
  {
    m.add(m.add(a, b), c) == m.add(a, m.add(b, c))
  }

  ghost predicate ZeroAt(m: Circuit, a: bv32) { m.add(a, 0) == a }

  /** A step of a sum is the sum of the steps. */
  ghost predicate LinearAt(m: Circuit, a: bv32, b: bv32)
  {
    m.step(m.add(a, b)) == m.add(m.step(a), m.step(b))
  }

  /** A step only shifts when the low bit is clear. */
  ghost predicate ShiftsAt(m: Circuit, a: bv32) { a & 1 == 0 ==> m.step(a) == a >> 1 }

  /** A word is its low bit and its other bits. */
  ghost predicate SplitAt(m: Circuit, c: bv32)
  {
    var even := c & 0xFFFFFFFE;
    m.add(c & 1, even) == c && even & 1 == 0 && even >> 1 == c >> 1
  }

  /** A word with a byte added to it has the index as its low byte, and keeps its other bytes. */
  ghost predicate IndexAt(m: Circuit, crc: bv32, b: bv8)
  {
    m.add(m.index(crc, b) as bv32, crc & 0xFFFFFF00) == m.add(crc, b as bv32)
  }

  /** The table holds, for each byte, the register after eight steps. */
  ghost predicate EntryAt(m: Circuit, i: bv8) { m.entry(i) == Eight(m, i as bv32) }

  ghost predicate Sums(m: Circuit)
  {
    && (forall a, b, c {:trigger AssocAt(m, a, b, c)} :: AssocAt(m, a, b, c))
    && (forall a {:trigger ZeroAt(m, a)} :: ZeroAt(m, a))
    && (forall c {:trigger SplitAt(m, c)} :: SplitAt(m, c))
    && (forall crc, b {:trigger IndexAt(m, crc, b)} :: IndexAt(m, crc, b))
  }

  ghost predicate Steps(m: Circuit)
  {
    && (forall a, b {:trigger LinearAt(m, a, b)} :: LinearAt(m, a, b))
    && (forall a {:trigger ShiftsAt(m, a)} :: ShiftsAt(m, a))
  }

  ghost predicate Tabulates(m: Circuit)
  {
    forall i {:trigger EntryAt(m, i)} :: EntryAt(m, i)
  }

  function Two(m: Circuit, r: bv32): bv32 { m.step(m.step(r)) }

  function Four(m: Circuit, r: bv32): bv32 { Two(m, Two(m, r)) }

  function Eight(m: Circuit, r: bv32): bv32 { Four(m, Four(m, r)) }

  // ---------------------------------------------------------------- eight steps

  lemma TwoLinear(m: Circuit, a: bv32, b: bv32)
    requires Steps(m)
    ensures Two(m, m.add(a, b)) == m.add(Two(m, a), Two(m, b))
  {
    assert LinearAt(m, a, b);
    assert LinearAt(m, m.step(a), m.step(b));
  }

  lemma FourLinear(m: Circuit, a: bv32, b: bv32)
    requires Steps(m)
    ensures Four(m, m.add(a, b)) == m.add(Four(m, a), Four(m, b))
  {
    TwoLinear(m, a, b);
    TwoLinear(m, Two(m, a), Two(m, b));
  }

  /** Eight steps are linear too. */
  lemma EightLinear(m: Circuit, a: bv32, b: bv32)
    requires Steps(m)
    ensures Eight(m, m.add(a, b)) == m.add(Eight(m, a), Eight(m, b))
  {
    FourLinear(m, a, b);
    FourLinear(m, Four(m, a), Four(m, b));
  }

  lemma TwoShifts(m: Circuit, a: bv32)
    requires Steps(m) && a & 3 == 0
    ensures Two(m, a) == a >> 2
  {
    assert ShiftsAt(m, a) && ShiftsAt(m, a >> 1);
  }

  lemma FourShifts(m: Circuit, a: bv32)
    requires Steps(m) && a & 15 == 0
    ensures Four(m, a) == a >> 4
  {
    TwoShifts(m, a);
    TwoShifts(m, a >> 2);
  }

  /** Over a clear byte, eight steps are a shift by eight. */
  lemma EightShifts(m: Circuit, a: bv32)
    requires Steps(m) && a & 255 == 0
    ensures Eight(m, a) == a >> 8
  {
    FourShifts(m, a);
    FourShifts(m, a >> 4);
  }

  // ---------------------------------------------------------------- a byte by table

  /** The update of the register with a byte, by table. */
  function Update(m: Circuit, crc: bv32, b: bv8): bv32
  {
    m.add(m.entry(m.index(crc, b)), crc >> 8)
  }

  lemma Combine(m: Circuit, i: bv8, low: bv32, high: bv32, top: bv32)
    requires Steps(m) && Tabulates(m) && low == i as bv32 && high & 255 == 0 && high >> 8 == top
    ensures m.add(m.entry(i), top) == Eight(m, m.add(low, high))
  {
    EightLinear(m, low, high);
    EightShifts(m, high);
    assert EntryAt(m, i);
  }

  lemma HighBytes(crc: bv32)
    ensures (crc & 0xFFFFFF00) & 255 == 0 && (crc & 0xFFFFFF00) >> 8 == crc >> 8
  {
  }

  lemma IndexHere(m: Circuit, crc: bv32, b: bv8)
    requires Sums(m)
    ensures m.add(m.index(crc, b) as bv32, crc & 0xFFFFFF00) == m.add(crc, b as bv32)
  {
    assert IndexAt(m, crc, b);
  }

  /** One look into the table is eight steps of the register. */
  lemma UpdateIsEight(m: Circuit, crc: bv32, b: bv8)
    requires Sums(m) && Steps(m) && Tabulates(m)
    ensures Update(m, crc, b) == Eight(m, m.add(crc, b as bv32))
  {
    HighBytes(crc);
    Combine(m, m.index(crc, b), m.index(crc, b) as bv32, crc & 0xFFFFFF00, crc >> 8);
    IndexHere(m, crc, b);
  }

  // ---------------------------------------------------------------- a byte bit by bit

  /** The register fed with the n lowest bits of c, the lowest first. */
  function Feed(m: Circuit, r: bv32, c: bv32, n: nat): bv32
    decreases n
  {
    if n == 0 then r else Feed(m, m.step(m.add(r, c & 1)), c >> 1, n - 1)
  }

  /** Adding a word before the step is adding its low bit before, and its other bits after. */
  lemma Peel(m: Circuit, r: bv32, c: bv32)
    requires Sums(m) && Steps(m)
    ensures m.step(m.add(r, c)) == m.add(m.step(m.add(r, c & 1)), c >> 1)
  {
    var even := c & 0xFFFFFFFE;
    assert SplitAt(m, c);
    assert AssocAt(m, r, c & 1, even);
    assert LinearAt(m, m.add(r, c & 1), even);
    assert ShiftsAt(m, even);
  }

  /** Two bits of a word, and the word without them. */
  lemma FeedTwo(m: Circuit, r: bv32, c: bv32, n: nat) returns (r': bv32, c': bv32)
    requires Sums(m) && Steps(m) && n >= 2
    ensures Two(m, m.add(r, c)) == m.add(r', c')
    ensures Feed(m, r, c, n) == Feed(m, r', c', n - 2)
    ensures c' == (c >> 1) >> 1
  {
    var r1 := m.step(m.add(r, c & 1));
    Peel(m, r, c);
    Peel(m, r1, c >> 1);
    assert Feed(m, r, c, n) == Feed(m, r1, c >> 1, n - 1);
    r', c' := m.step(m.add(r1, (c >> 1) & 1)), (c >> 1) >> 1;
  }

  lemma FeedFour(m: Circuit, r: bv32, c: bv32, n: nat) returns (r': bv32, c': bv32)
    requires Sums(m) && Steps(m) && n >= 4
    ensures Four(m, m.add(r, c)) == m.add(r', c')
    ensures Feed(m, r, c, n) == Feed(m, r', c', n - 4)
    ensures c' == c >> 4
  {
    r', c' := FeedTwo(m, r, c, n);
    r', c' := FeedTwo(m, r', c', n - 2);
    FourBits(c);
  }

  lemma FourBits(c: bv32)
    ensures (((c >> 1) >> 1) >> 1) >> 1 == c >> 4
  {
  }

  lemma NothingLeft(c: bv32)
    requires c < 256
    ensures (c >> 4) >> 4 == 0
  {
  }

  /** Feeding a byte bit by bit is adding it and then stepping eight times. */
  lemma FeedIsEight(m: Circuit, r: bv32, c: bv32)
    requires Sums(m) && Steps(m) && c < 256
    ensures Feed(m, r, c, 8) == Eight(m, m.add(r, c))
  {
    var r4, c4 := FeedFour(m, r, c, 8);
    var r8, c8 := FeedFour(m, r4, c4, 4);
    NothingLeft(c);
    assert ZeroAt(m, r8);
  }

  /** A byte by table is the byte bit by bit. */
  lemma UpdateIsFeed(m: Circuit, crc: bv32, b: bv8)
    requires Sums(m) && Steps(m) && Tabulates(m)
    ensures Update(m, crc, b) == Feed(m, crc, b as bv32, 8)
  {
    UpdateIsEight(m, crc, b);
    FeedIsEight(m, crc, b as bv32);
  }
}
