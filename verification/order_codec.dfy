/** `orderToInts`, the inner function of the order-confirmation branch of
    `_distinguishGui` (`pbrEngine/engine.py`): it turns a turn order into
    the six order bytes the game keeps per side, as one 32-bit and one
    16-bit word. Byte `v` holds the 1-based turn of roster slot `v+1`, or
    0x07 when that slot does not play. */
module OrderCodec {
  import opened Util

  const Unused: int := 0x07

  predicate Entries(order: seq<int>)
  {
    |order| <= 6 && forall k :: 0 <= k < |order| ==> 1 <= order[k] <= 6
  }

  /** The table `vals` after the loop `vals[v-1] = i+1`: a later entry naming
      the same slot overwrites an earlier one. */
  function Slots(order: seq<int>): (vals: seq<int>)
    requires Entries(order)
    ensures |vals| == 6
    ensures forall v :: 0 <= v < 6 ==> 1 <= vals[v] <= 7
    ensures forall v :: 0 <= v < 6 ==>
      (vals[v] == Unused <==> forall i :: 0 <= i < |order| ==> order[i] != v + 1)
    ensures forall v :: 0 <= v < 6 && vals[v] != Unused ==>
      && vals[v] <= |order|
      && order[vals[v] - 1] == v + 1
      && forall j :: vals[v] <= j < |order| ==> order[j] != v + 1
  {
    if order == [] then [Unused, Unused, Unused, Unused, Unused, Unused]
    else
      var n := |order|;
      var prefix := order[..n - 1];
      assert forall k :: 0 <= k < n - 1 ==> prefix[k] == order[k];
      var t := Slots(prefix);
      t[order[n - 1] - 1 := n]
  }

  /** Appends one byte below `hi`: Python's `hi << 8 | lo` for `0 <= lo < 256`. */
  function Pack(hi: int, lo: int): int
  {
    hi * 0x100 + lo
  }

  lemma Unpack(hi: int, lo: int)
    requires 0 <= lo < 0x100
    ensures Pack(hi, lo) / 0x100 == hi && Pack(hi, lo) % 0x100 == lo
  {
  }

  /** The six order bytes of the two words, high byte first. */
  function Bytes(w1: int, w2: int): (vals: seq<int>)
    ensures |vals| == 6
  {
    [w1 / 0x100 / 0x100 / 0x100, w1 / 0x100 / 0x100 % 0x100, w1 / 0x100 % 0x100, w1 % 0x100,
     w2 / 0x100, w2 % 0x100]
  }

  /** The two words written to the game,
      `(v0 << 24 | v1 << 16 | v2 << 8 | v3, v4 << 8 | v5)`. */
  function OrderToInts(order: seq<int>): (r: (int, int))
    requires Entries(order)
    ensures 0 <= r.0 < 0x1_0000_0000 && 0 <= r.1 < 0x1_0000
    ensures Bytes(r.0, r.1) == Slots(order)
  {
    Words(Slots(order))
  }

  function Words(v: seq<int>): (r: (int, int))
    requires |v| == 6 && forall k :: 0 <= k < 6 ==> 1 <= v[k] <= 7
    ensures 0 <= r.0 < 0x1_0000_0000 && 0 <= r.1 < 0x1_0000
    ensures Bytes(r.0, r.1) == v
  {
    var w1 := Pack(Pack(Pack(v[0], v[1]), v[2]), v[3]);
    var w2 := Pack(v[4], v[5]);
    Unpack(Pack(Pack(v[0], v[1]), v[2]), v[3]);
    Unpack(Pack(v[0], v[1]), v[2]);
    Unpack(v[0], v[1]);
    Unpack(v[4], v[5]);
    (w1, w2)
  }

  /** The slot (1-based) whose byte holds turn `turn`, or 0. */
  function SlotOfTurn(vals: seq<int>, turn: int): (r: int)
    ensures 0 <= r <= |vals|
    ensures r > 0 ==> vals[r - 1] == turn && forall v :: 0 <= v < r - 1 ==> vals[v] != turn
    ensures r == 0 ==> forall v :: 0 <= v < |vals| ==> vals[v] != turn
  {
    if vals == [] then 0
    else if vals[0] == turn then 1
    else
      var r := SlotOfTurn(vals[1..], turn);
      assert forall v :: 1 <= v < |vals| ==> vals[v] == vals[1..][v - 1];
      if r == 0 then 0 else r + 1
  }

  /** Reads the first `n` turns back out of the two words. */
  function IntsToOrder(w1: int, w2: int, n: nat): (order: seq<int>)
    ensures |order| == n
  {
    OrderOfSlots(Bytes(w1, w2), n)
  }

  /** For each turn `1..n`, the slot that plays it. */
  function OrderOfSlots(vals: seq<int>, n: nat): (order: seq<int>)
    ensures |order| == n
    ensures forall i :: 0 <= i < n ==> order[i] == SlotOfTurn(vals, i + 1)
  {
    seq(n, i => SlotOfTurn(vals, i + 1))
  }

  /** For an order of the roster slots `1..n` (at most six of them) each
      slot's byte holds its turn. */
  lemma SlotsOfPermutation(order: seq<int>)
    requires |order| <= 6 && IsPermutationOf(order, 1, |order|)
    ensures Entries(order)
    ensures forall i :: 0 <= i < |order| ==> Slots(order)[order[i] - 1] == i + 1
  {
    var vals := Slots(order);
    forall i | 0 <= i < |order| ensures vals[order[i] - 1] == i + 1 {
      var v := order[i] - 1;
      assert vals[v] != Unused;
      var k := vals[v] - 1;
      assert order[k] == order[i];
      assert k == i;
    }
  }

  /** The contract of `Slots` at one slot. */
  lemma SlotAt(order: seq<int>, v: int)
    requires Entries(order) && 0 <= v < 6 && Slots(order)[v] != Unused
    ensures 1 <= Slots(order)[v] <= |order| && order[Slots(order)[v] - 1] == v + 1
  {
  }

  /** Turn `i+1` is found at the slot that plays it. */
  lemma TurnSlot(order: seq<int>, i: nat)
    requires |order| <= 6 && IsPermutationOf(order, 1, |order|) && i < |order|
    ensures Entries(order)
    ensures SlotOfTurn(Slots(order), i + 1) == order[i]
  {
    SlotsOfPermutation(order);
    var vals := Slots(order);
    var r := SlotOfTurn(vals, i + 1);
    assert vals[order[i] - 1] == i + 1;
    assert r > 0;
    SlotAt(order, r - 1);
    assert order[vals[r - 1] - 1] == r;
  }

  /** Reading the words back gives the order that was written. */
  lemma RoundTrip(order: seq<int>)
    requires |order| <= 6 && IsPermutationOf(order, 1, |order|)
    ensures Entries(order)
    ensures var w := OrderToInts(order); IntsToOrder(w.0, w.1, |order|) == order
  {
    SlotsOfPermutation(order);
    SlotsDecode(order);
    var w := OrderToInts(order);
    assert Bytes(w.0, w.1) == Slots(order);
  }

  lemma SlotsDecode(order: seq<int>)
    requires |order| <= 6 && IsPermutationOf(order, 1, |order|)
    ensures Entries(order)
    ensures OrderOfSlots(Slots(order), |order|) == order
  {
    SlotsOfPermutation(order);
    var back := OrderOfSlots(Slots(order), |order|);
    forall i | 0 <= i < |order| ensures back[i] == order[i] {
      TurnSlot(order, i);
    }
  }

  /** The words for a full roster of three in the identity order; the
      three unused slots read 0x07. */
  lemma Example()
    ensures OrderToInts([1, 2, 3]) == (0x0102_0307, 0x0707)
  {
    SlotsIdentity();
    assert Words([1, 2, 3, 7, 7, 7]) == (0x0102_0307, 0x0707);
  }

  lemma SlotsIdentity()
    ensures Entries([1, 2, 3]) && Slots([1, 2, 3]) == [1, 2, 3, 7, 7, 7]
  {
    SlotsTwo();
    assert [1, 2, 3][..2] == [1, 2];
  }

  lemma SlotsTwo()
    ensures Entries([1, 2]) && Slots([1, 2]) == [1, 2, 7, 7, 7, 7]
  {
    assert [1, 2][..1] == [1];
    assert [1][..0] == [];
  }

  /** One more iteration of the loop filling the table. */
  lemma SlotsStep(order: seq<int>, v: int, vals: seq<int>)
    requires Entries(order) && |order| < 6 && 1 <= v <= 6 && Slots(order) == vals
    ensures Entries(order + [v]) && Slots(order + [v]) == vals[v - 1 := |order| + 1]
  {
    assert (order + [v])[..|order|] == order;
  }
}
